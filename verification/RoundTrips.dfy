/** What a line written by one command means to another: `append` and `source` undo each other,
    and `echo <text> | grep <pattern>` shows the text exactly when it holds the pattern. */
module RoundTrips {
  import opened Text
  import opened Tokenizer
  import opened Segments
  import opened Scripts
  import opened Files
  import opened Semantics

  // ----- Append, then source

  /** A line that is executed as `append file t1 .. tk`. */
  ghost predicate Appends(command: Str, file: Str, ts: seq<Str>) {
    NulFree(command) && ts != [] && IsLine(command, [APPEND, file] + ts)
  }

  /** Words that survive storage: every unit fits a byte and none breaks a line. */
  ghost predicate Storable(ts: seq<Str>) {
    forall i, j :: 0 <= i < |ts| && 0 <= j < |ts[i]| ==> 0 < ts[i][j] < 0x100 && !IsBreak(ts[i][j])
  }

  /** The bytes that a series of appended lines leaves in a file. */
  function Stored(tss: seq<seq<Str>>): seq<Byte> {
    if tss == [] then [] else Bytes(Join(tss[0])) + [LF] + Stored(tss[1..])
  }

  function Joined(tss: seq<seq<Str>>): seq<Str> {
    if tss == [] then [] else [Join(tss[0])] + Joined(tss[1..])
  }

  lemma {:induction false} WeaveIsLonger(gaps: seq<Str>, ws: seq<Str>)
    requires AreGaps(gaps, |ws|)
    ensures |Join(ws)| <= |Weave(gaps, ws)|
    ensures |ws| > 0 && gaps[0] != [] ==> |Join(ws)| < |Weave(gaps, ws)|
    decreases |ws|
  {
    if |ws| == 1 {
      assert Weave(gaps[1..], ws[1..]) == gaps[1];
    } else if |ws| > 1 {
      assert gaps[1..][0] != [];
      WeaveIsLonger(gaps[1..], ws[1..]);
    }
  }

  lemma {:induction false} JoinOfTail(ws: seq<Str>, k: nat)
    requires 0 < k < |ws|
    ensures |Join(ws)| == |Join(ws[..k])| + 1 + |Join(ws[k..])|
    decreases k
  {
    if k == 1 {
      assert ws[..1] == [ws[0]];
    } else {
      JoinOfTail(ws[1..], k - 1);
      assert ws[1..][..k - 1] == ws[..k][1..] && ws[1..][k - 1..] == ws[k..];
    }
  }

  /** The words of a command line, joined, never exceed the line buffer. */
  lemma TokensFit(command: Str, maxArgs: nat)
    ensures |Join(Tokens(command, maxArgs))| <= MAX_LINE - 1
  {
    var t := Take(command, MAX_LINE - 1);
    var gaps := ScanWeaves(t);
    WeaveIsLonger(gaps, Words(t));
    JoinOfPrefix(Words(t), Min(maxArgs, |Words(t)|));
  }

  /** The text of an append is short enough never to be cut by the writer's buffer. */
  lemma AppendIsNotCut(command: Str, file: Str, ts: seq<Str>)
    requires Appends(command, file, ts)
    ensures |Join(ts)| < MAX_LINE - 2 && Payload(ts) == Bytes(Join(ts)) + [LF]
  {
    var ws := Tokens(command, MAX_ARGS);
    TokensFit(command, MAX_ARGS);
    JoinOfTail(ws, 2);
    assert ws[..2] == [APPEND, file] && ws[2..] == ts;
    assert Join([APPEND, file]) == APPEND + [SPACE] + Join([file]) by { assert [APPEND, file][1..] == [file]; }
  }

  /** A line whose words are a name, a file and a text stores that text. */
  lemma StoreRuns(env: Env, w: World, command: Str, name: Name, file: Str, ts: seq<Str>, depth: nat)
    requires !HasUnit(command, AMPERSAND) && !HasUnit(command, BAR) && ts != []
    requires Tokens(command, MAX_ARGS) != [] && name in {Write, Append}
    requires NameOf(env, Tokens(command, MAX_ARGS)[0]) == name && Tokens(command, MAX_ARGS)[1..] == [file] + ts
    ensures Run(env, w, command, depth) == Done(Store(w, file, Payload(ts), name == Append), 0)
  {
    hide NameOf, Payload, Tokens, IndexOf, Store, ContentOf;
    var ws := Tokens(command, MAX_ARGS);
    assert ws[1..][0] == file && ws[1..][1..] == ts && ws[2..] == ws[1..][1..];
    assert Run(env, w, command, depth) == RunSimple(env, w, command, depth);
  }

  lemma OverlayAtEnd(content: seq<Byte>, data: seq<Byte>)
    ensures Overlay(content, |content|, data) == content + data
  {
  }

  lemma OverlayAtFront(content: seq<Byte>, data: seq<Byte>)
    ensures Overlay(content, 0, data) == data + (if |content| <= |data| then [] else content[|data|..])
  {
  }

  lemma AppendRuns(env: Env, w: World, command: Str, file: Str, ts: seq<Str>, depth: nat)
    requires Appends(command, file, ts)
    ensures var content := ContentOf(w, file);
            Run(env, w, command, depth)
              == Done(w.(files := w.files[file := content + Bytes(Join(ts)) + [LF]]), 0)
  {
    hide NameOf, Tokens, Run, Bytes, Join, IndexOf;
    var content := ContentOf(w, file);
    FileNames(env);
    AppendIsNotCut(command, file, ts);
    assert ([APPEND, file] + ts)[1..] == [file] + ts;
    StoreRuns(env, w, command, Append, file, ts, depth);
    OverlayAtEnd(content, Payload(ts));
    assert content + (Bytes(Join(ts)) + [LF]) == content + Bytes(Join(ts)) + [LF];
  }

  ghost predicate AllAppend(commands: seq<Str>, file: Str, tss: seq<seq<Str>>) {
    && |commands| == |tss|
    && forall i :: 0 <= i < |tss| ==> Appends(commands[i], file, tss[i]) && Storable(tss[i])
  }

  /** A series of appends adds its lines at the end of the file and changes nothing else. */
  lemma {:induction false} AppendsRun(
    env: Env, w: World, commands: seq<Str>, file: Str, tss: seq<seq<Str>>, depth: nat)
    requires AllAppend(commands, file, tss) && (tss != [] || file in w.files)
    ensures RunLines(env, w, commands, depth)
         == Done(w.(files := w.files[file := ContentOf(w, file) + Stored(tss)]), 0)
    decreases |commands|
  {
    hide Run;
    var content := ContentOf(w, file);
    if tss == [] {
      assert content + [] == content;
      assert w.files[file := content] == w.files;
    } else {
      AppendRuns(env, w, commands[0], file, tss[0], depth);
      var line: seq<Byte> := Bytes(Join(tss[0])) + [LF];
      var next := w.(files := w.files[file := content + line]);
      assert content + line == content + Bytes(Join(tss[0])) + [LF];
      AppendsRun(env, next, commands[1..], file, tss[1..], depth);
      FileWrittenTwice(w, file, content, line, Stored(tss[1..]));
    }
  }

  lemma FileWrittenTwice(w: World, file: Str, content: seq<Byte>, a: seq<Byte>, b: seq<Byte>)
    ensures var next := w.(files := w.files[file := content + a]);
            next.(files := next.files[file := content + a + b]) == w.(files := w.files[file := content + (a + b)])
  {
    assert content + a + b == content + (a + b);
    assert w.files[file := content + a][file := content + a + b] == w.files[file := content + a + b];
  }

  /** The stored line of an append reads back as it was typed, and is a plain line. */
  lemma {:induction false} JoinIsStorable(ts: seq<Str>)
    requires Storable(ts)
    ensures forall i :: 0 <= i < |Join(ts)| ==> 0 < Join(ts)[i] < 0x100 && !IsBreak(Join(ts)[i])
  {
    if |ts| == 1 {
      assert forall j :: 0 <= j < |ts[0]| ==> 0 < ts[0][j] < 0x100;
    } else if |ts| > 1 {
      assert Storable(ts[1..]) by {
        assert forall i :: 0 <= i < |ts[1..]| ==> ts[1..][i] == ts[i + 1];
      }
      JoinIsStorable(ts[1..]);
      var head, tail := ts[0] + [SPACE], Join(ts[1..]);
      assert Join(ts) == head + tail;
      assert forall j :: 0 <= j < |ts[0]| ==> 0 < ts[0][j] < 0x100 && !IsBreak(ts[0][j]);
    }
  }

  lemma AppendedLine(command: Str, file: Str, ts: seq<Str>)
    requires Appends(command, file, ts) && Storable(ts)
    ensures 0 < |Join(ts)| < MAX_LINE - 1 && Tokens(Join(ts), MAX_ARGS) == ts
    ensures Units(Bytes(Join(ts))) == Join(ts)
    ensures SourceOf(Join(ts)) == [Join(ts)]
  {
    AppendIsNotCut(command, file, ts);
    AppendedWords(command, file, ts);
    JoinRoundTrip(ts, MAX_ARGS);
    JoinIsStorable(ts);
    PlainLineIsIssued(Join(ts));
    assert IsWord(ts[0]);
  }

  lemma AppendedWords(command: Str, file: Str, ts: seq<Str>)
    requires Appends(command, file, ts)
    ensures AreWords(ts) && |ts| <= MAX_ARGS
  {
    var ws := Tokens(command, MAX_ARGS);
    TokensAreWords(command, MAX_ARGS);
    assert forall i :: 0 <= i < |ts| ==> ts[i] == ws[i + 2];
  }

  lemma PlainLineIsIssued(line: Str)
    requires 0 < |line| <= MAX_LINE - 1
    requires forall i :: 0 <= i < |line| ==> 0 < line[i] < 0x100 && !IsBreak(line[i])
    ensures SourceOf(line) == [line] && Units(Bytes(line)) == line
  {
    NothingToDrop(line);
    IndexOfUnique(line, NUL, |line|);
    assert Take(line, MAX_LINE - 1) == line == UpToNul(line);
  }

  lemma {:induction false} AllTokensReturn(commands: seq<Str>, file: Str, tss: seq<seq<Str>>)
    requires AllAppend(commands, file, tss)
    ensures |Joined(tss)| == |tss|
    ensures forall i :: 0 <= i < |tss| ==> Tokens(Joined(tss)[i], MAX_ARGS) == tss[i]
    decreases |tss|
  {
    if tss != [] {
      AppendedLine(commands[0], file, tss[0]);
      AllTokensReturn(commands[1..], file, tss[1..]);
    }
  }

  lemma LinesOfStored(line: Str, rest: Str)
    requires forall i :: 0 <= i < |line| ==> line[i] != LF
    ensures Lines(line + [LF] + rest) == [line] + Lines(rest)
    ensures Lines(line) == [line]
  {
    LinesOfChunk(line, [LF] + rest);
    assert line + [LF] + rest == line + ([LF] + rest);
    assert ([LF] + rest)[1..] == rest;
    assert line + [] == line;
    LinesOfChunk(line, []);
  }

  /** `source` issues a plain line as it is and goes on behind its line feed. */
  lemma LineIssues(line: Str, rest: Str)
    requires SourceOf(line) == [line] && forall i :: 0 <= i < |line| ==> line[i] != LF
    ensures SourceLines(line + [LF] + rest) == [line] + SourceLines(rest)
    ensures SourceLines(line) == [line]
  {
    hide SourceOf, SourceLines;
    LinesOfStored(line, rest);
    SourceByLines(line);
    SourceByLines(rest);
    SourceByLines(line + [LF] + rest);
    assert ([line] + Lines(rest))[1..] == Lines(rest);
    assert MapSource([line]) == SourceOf(line) + MapSource([]);
  }

  /** The text of a stored file: its first line, and the rest. */
  lemma {:induction false} StoredText(commands: seq<Str>, file: Str, tss: seq<seq<Str>>)
    requires AllAppend(commands, file, tss) && tss != []
    ensures var line, rest := Join(tss[0]), Units(Stored(tss[1..]));
            && Units(Stored(tss)) == line + [LF] + rest
            && line != [] && SourceOf(line) == [line] && (forall i :: 0 <= i < |line| ==> line[i] != LF)
            && commands != [] && AllAppend(commands[1..], file, tss[1..])
  {
    hide Join, SourceOf, Units, Bytes, Tokens;
    AppendedLine(commands[0], file, tss[0]);
    JoinIsStorable(tss[0]);
    UnitsConcat(Bytes(Join(tss[0])) + [LF], Stored(tss[1..]));
    UnitsConcat(Bytes(Join(tss[0])), [LF]);
    FeedIsFeed();
  }

  lemma UnitsConcat(a: seq<Byte>, b: seq<Byte>)
    ensures Units(a + b) == Units(a) + Units(b)
  {
  }

  lemma FeedIsFeed()
    ensures Units([LF]) == [LF]
  {
  }

  /** A stored file is one command per append. */
  lemma {:induction false} StoredIssues(commands: seq<Str>, file: Str, tss: seq<seq<Str>>)
    requires AllAppend(commands, file, tss)
    ensures SourceLines(Units(Stored(tss))) == Joined(tss)
    decreases |tss|
  {
    if tss != [] {
      hide Join, SourceOf, Units, Bytes, Stored, SourceLines;
      StoredText(commands, file, tss);
      LineIssues(Join(tss[0]), Units(Stored(tss[1..])));
      StoredIssues(commands[1..], file, tss[1..]);
    }
  }

  /** A plain line and what `source` makes of the rest, but for the last unit of the text. */
  lemma LineIssuesCut(line: Str, rest: Str, text: Str)
    requires SourceOf(line) == [line] && forall i :: 0 <= i < |line| ==> line[i] != LF
    requires text == line + [LF] + rest
    ensures SourceLines(text[..|text| - 1])
         == [line] + (if rest == [] then [] else SourceLines(rest[..|rest| - 1]))
  {
    hide SourceOf, SourceLines;
    if rest == [] {
      LineIssues(line, []);
      CutFeed(line);
    } else {
      LineIssues(line, rest[..|rest| - 1]);
      CutBehindFeed(line, rest);
    }
  }

  /** So it is without its last line feed. */
  lemma {:induction false} StoredIssuesCut(commands: seq<Str>, file: Str, tss: seq<seq<Str>>)
    requires AllAppend(commands, file, tss) && tss != []
    ensures var text := Units(Stored(tss)); text != [] && SourceLines(text[..|text| - 1]) == Joined(tss)
    decreases |tss|
  {
    hide Join, SourceOf, Units, Bytes, SourceLines, Stored, AllAppend;
    StoredText(commands, file, tss);
    LineIssuesCut(Join(tss[0]), Units(Stored(tss[1..])), Units(Stored(tss)));
    if |tss| == 1 {
      assert tss[1..] == [];
      NothingStored();
    } else {
      StoredIssuesCut(commands[1..], file, tss[1..]);
    }
  }

  lemma NothingStored()
    ensures Units(Stored([])) == [] && Joined([]) == []
  {
  }

  lemma CutFeed(line: Str)
    ensures var text := line + [LF] + []; text[..|text| - 1] == line
  {
  }

  lemma CutBehindFeed(line: Str, rest: Str)
    requires rest != []
    ensures var text := line + [LF] + rest; text[..|text| - 1] == line + [LF] + rest[..|rest| - 1]
  {
  }

  // ----- What does not fit is lost

  function TextUnits(text: Str): nat {
    if text == [] then 0 else (if text[0] == LF then 0 else 1) + TextUnits(text[1..])
  }

  function Volume(lines: seq<Str>): nat {
    if lines == [] then 0 else |lines[0]| + Volume(lines[1..])
  }

  lemma {:induction false} TextUnitsAdd(a: Str, b: Str)
    ensures TextUnits(a + b) == TextUnits(a) + TextUnits(b)
  {
    if a == [] {
      assert a + b == b;
    } else {
      assert (a + b)[1..] == a[1..] + b;
      TextUnitsAdd(a[1..], b);
    }
  }

  lemma {:induction false} VolumeBounded(text: Str, line: Str)
    ensures Volume(SourceFrom(text, line)) <= |line| + TextUnits(text)
    decreases |text|
  {
    if text != [] {
      if text[0] == LF {
        VolumeBounded(text[1..], []);
        var rest := SourceFrom(text[1..], []);
        if line == [] {
          assert Issue(line) + rest == rest;
        } else {
          assert (Issue(line) + rest)[1..] == rest;
        }
      } else {
        VolumeBounded(text[1..], Gather(line, text[0]));
      }
    }
  }

  lemma {:induction false} AllText(line: Str)
    requires forall i :: 0 <= i < |line| ==> line[i] != LF
    ensures TextUnits(line) == |line|
  {
    if line != [] {
      AllText(line[1..]);
    }
  }

  lemma {:induction false} StoredVolume(commands: seq<Str>, file: Str, tss: seq<seq<Str>>)
    requires AllAppend(commands, file, tss)
    ensures TextUnits(Units(Stored(tss))) == Volume(Joined(tss))
    ensures tss != [] ==> var text := Units(Stored(tss));
                          |text| >= 2 && text[|text| - 1] == LF && text[|text| - 2] != LF
    decreases |tss|
  {
    hide Join, SourceOf, Bytes, Units, Stored, AllAppend;
    if tss == [] {
      NothingStored();
    } else {
      var line, rest := Join(tss[0]), Units(Stored(tss[1..]));
      StoredText(commands, file, tss);
      StoredVolume(commands[1..], file, tss[1..]);
      if tss[1..] == [] {
        NothingStored();
      }
      TextUnitsAdd(line + [LF], rest);
      TextUnitsAdd(line, [LF]);
      AllText(line);
      LastTwo(line, rest);
    }
  }

  lemma LastTwo(line: Str, rest: Str)
    requires line != [] && line[|line| - 1] != LF
    requires rest != [] ==> |rest| >= 2 && rest[|rest| - 1] == LF && rest[|rest| - 2] != LF
    ensures var text := line + [LF] + rest;
            |text| >= 2 && text[|text| - 1] == LF && text[|text| - 2] != LF
  {
  }

  lemma OverflowLoses(commands: seq<Str>, file: Str, tss: seq<seq<Str>>)
    requires AllAppend(commands, file, tss) && |Stored(tss)| > SCRIPT_LIMIT + 1
    ensures ScriptLines(Stored(tss)) != Joined(tss)
  {
    var text := Units(Stored(tss));
    var head, tail := text[..SCRIPT_LIMIT], text[SCRIPT_LIMIT..];
    StoredVolume(commands, file, tss);
    assert text == head + tail;
    TextUnitsAdd(head, tail);
    var k := |tail| - 2;
    assert tail == tail[..k] + tail[k..];
    TextUnitsAdd(tail[..k], tail[k..]);
    assert tail[k] == text[|text| - 2] != LF;
    VolumeBounded(head, []);
    assert Units(Take(Stored(tss), SCRIPT_LIMIT)) == head;
  }

  /** `source` issues one command per append exactly from files of at most 4096 bytes. */
  lemma AppendSourceLimit(commands: seq<Str>, file: Str, tss: seq<seq<Str>>)
    requires AllAppend(commands, file, tss)
    ensures ScriptLines(Stored(tss)) == Joined(tss) <==> |Stored(tss)| <= SCRIPT_LIMIT + 1
  {
    var text := Units(Stored(tss));
    if |Stored(tss)| <= SCRIPT_LIMIT {
      StoredIssues(commands, file, tss);
      assert Take(Stored(tss), SCRIPT_LIMIT) == Stored(tss);
    } else if |Stored(tss)| == SCRIPT_LIMIT + 1 {
      StoredIssuesCut(commands, file, tss);
      assert Units(Take(Stored(tss), SCRIPT_LIMIT)) == text[..|text| - 1];
    } else {
      OverflowLoses(commands, file, tss);
    }
  }

  /** After any series of `append f t1 .. tk` on an empty file, or on none if there is an append,
      `source f` executes exactly one command per append, in order, each tokenizing back to
      t1 .. tk, if and only if the file has grown to at most 4096 bytes (one more than `source`
      reads: the byte it misses then is the last line feed). */
  lemma AppendSourceRoundTrip(
    env: Env, w: World, commands: seq<Str>, file: Str, tss: seq<seq<Str>>, script: Str, depth: nat)
    requires AllAppend(commands, file, tss) && ContentOf(w, file) == [] && (tss != [] || file in w.files)
    requires IsLine(script, [SOURCE, file])
    ensures var written := RunLines(env, w, commands, depth);
            && written == Done(w.(files := w.files[file := Stored(tss)]), 0)
            && Run(env, written.world, script, depth + 1)
                 == RunLines(env, written.world, ScriptLines(Stored(tss)), depth)
    ensures ScriptLines(Stored(tss)) == Joined(tss) <==> |Stored(tss)| <= SCRIPT_LIMIT + 1
    ensures |Joined(tss)| == |tss|
    ensures forall i :: 0 <= i < |tss| ==> Tokens(Joined(tss)[i], MAX_ARGS) == tss[i]
  {
    AppendsRun(env, w, commands, file, tss, depth);
    assert [] + Stored(tss) == Stored(tss);
    AllTokensReturn(commands, file, tss);
    var written := w.(files := w.files[file := Stored(tss)]);
    SourceRuns(env, written, script, file, depth);
    AppendSourceLimit(commands, file, tss);
  }

  lemma SourceRuns(env: Env, w: World, script: Str, file: Str, depth: nat)
    requires IsLine(script, [SOURCE, file])
    requires file in w.files
    ensures Run(env, w, script, depth + 1) == RunLines(env, w, ScriptLines(w.files[file]), depth)
    ensures Run(env, w, script, 0) == TooDeep
  {
    FileNames(env);
  }

  // ----- Write

  /** A line that is executed as `write file t1 .. tk`. */
  ghost predicate Writes(command: Str, file: Str, ts: seq<Str>) {
    ts != [] && IsLine(command, [Lit("write"), file] + ts)
  }

  /** An executed `write f t1 .. tk` replaces the content of the file if and only if that was no
      longer than the new line; otherwise the rest of the old content stays behind it. Nothing else
      changes. */
  lemma WriteReplaces(env: Env, w: World, command: Str, file: Str, ts: seq<Str>, depth: nat)
    requires Writes(command, file, ts)
    ensures var o := Run(env, w, command, depth); var before := ContentOf(w, file); var payload := Payload(ts);
            && o.Done? && o.result == 0 && o.world == w.(files := w.files[file := ContentOf(o.world, file)])
            && (ContentOf(o.world, file) == payload <==> |before| <= |payload|)
            && ContentOf(o.world, file) == payload + (if |before| <= |payload| then [] else before[|payload|..])
  {
    hide Payload, NameOf, Tokens, Run, IndexOf;
    FileNames(env);
    assert ([Lit("write"), file] + ts)[1..] == [file] + ts;
    StoreRuns(env, w, command, Write, file, ts, depth);
    OverlayAtFront(ContentOf(w, file), Payload(ts));
  }

  // ----- echo into grep

  lemma PadFront(p: Str, gaps: seq<Str>, ws: seq<Str>)
    requires |gaps| == |ws| + 1
    ensures Weave(gaps[0 := p + gaps[0]], ws) == p + Weave(gaps, ws)
  {
  }

  lemma {:induction false} PadBack(gaps: seq<Str>, ws: seq<Str>, q: Str)
    requires |gaps| == |ws| + 1
    ensures Weave(gaps[|ws| := gaps[|ws|] + q], ws) == Weave(gaps, ws) + q
    decreases |ws|
  {
    if ws != [] {
      var n := |ws|;
      PadBack(gaps[1..], ws[1..], q);
      assert gaps[n := gaps[n] + q][1..] == gaps[1..][n - 1 := gaps[1..][n - 1] + q];
    }
  }

  /** Blanks around a text do not change its words. */
  lemma WordsPadded(p: Str, s: Str, q: Str)
    requires AllBlank(p) && AllBlank(q)
    ensures Words(p + s + q) == Words(s)
  {
    var ws := Words(s);
    var gaps := ScanWeaves(s);
    PadFront(p, gaps, ws);
    var front := gaps[0 := p + gaps[0]];
    assert AreGaps(front, |ws|);
    PadBack(front, ws, q);
    WeaveScans(front[|ws| := front[|ws|] + q], ws);
  }

  lemma TrimKeepsWords(s: Str)
    ensures Words(Trim(s)) == Words(s)
  {
    var a, b := TrimParts(s);
    WordsPadded(a, Trim(s), b);
  }

  lemma TakeAll(s: Str, n: nat)
    requires |s| <= n
    ensures Take(s, n) == s
  {
  }

  lemma {:induction false} SegmentTokens(s: Str)
    requires |s| <= MAX_LINE - 1
    ensures Tokens(Segment(s), MAX_ARGS) == Take(Words(s), MAX_ARGS)
  {
    hide Words, Trim;
    TrimKeepsWords(s);
    TrimIsShorter(s);
    TakeAll(Trim(s), MAX_LINE - 1);
  }

  lemma NoneInConcat(a: Str, b: Str, c: Char16)
    requires !HasUnit(a, c) && !HasUnit(b, c)
    ensures !HasUnit(a + b, c)
  {
  }

  lemma CutBehind(a: Str, c: Char16, rest: Str)
    requires !HasUnit(a, c)
    ensures HasUnit(a + [c] + rest, c) && IndexOf(a + [c] + rest, c) == |a|
    ensures Before(a + [c] + rest, c) == a && Behind(a + [c] + rest, c) == rest
  {
    IndexOfUnique(a + [c] + rest, c, |a|);
  }

  lemma TextHasWords(s: Str)
    requires !AllBlank(s)
    ensures Words(s) != []
  {
  }

  lemma EchoWords(b: Char16, text: Str)
    requires Blank(b) && !AllBlank(text)
    ensures Words(ECHO + [b] + text)[0] == ECHO && |Words(ECHO + [b] + text)| >= 2
  {
    hide Words;
    var tail := [b] + text;
    WordsStep([], ECHO, tail);
    assert [] + ECHO + tail == ECHO + [b] + text;
    assert forall i :: 0 <= i < |text| ==> text[i] == tail[i + 1];
    TextHasWords(tail);
  }

  lemma EchoHasNone(b: Char16, c: Char16)
    requires Blank(b) && c in {BAR, AMPERSAND}
    ensures !HasUnit(ECHO + [b], c)
  {
  }

  /** For a line `echo <text> | grep <pattern>` with any blanks around its parts, the terminal
      prints the trimmed text, inner spacing kept, exactly when it contains the pattern. */
  lemma EchoGrep(env: Env, w: World, b: Char16, text: Str, right: Str, pattern: Str, depth: nat)
    requires Blank(b) && !AllBlank(text)
    requires !HasUnit(text, BAR) && !HasUnit(text, AMPERSAND) && !HasUnit(right, AMPERSAND)
    requires Words(right) == [GREP, pattern]
    requires |ECHO + [b] + text + [BAR] + right| <= MAX_LINE - 1
    ensures Run(env, w, ECHO + [b] + text + [BAR] + right, depth)
         == Done(if IsSubstring(Trim(text), pattern) then PutLine(w, Trim(text)) else w, 0)
  {
    hide Words, Tokens, Trim, Run, IndexOf;
    var left := ECHO + [b] + text;
    var command := left + [BAR] + right;
    EchoHasNone(b, BAR);
    EchoHasNone(b, AMPERSAND);
    NoneInConcat(ECHO + [b], text, BAR);
    NoneInConcat(ECHO + [b], text, AMPERSAND);
    IndexOfUnique([BAR], AMPERSAND, 1);
    NoneInConcat(left, [BAR], AMPERSAND);
    NoneInConcat(left + [BAR], right, AMPERSAND);
    CutBehind(left, BAR, right);
    EchoWords(b, text);
    SegmentTokens(left);
    SegmentTokens(right);
    assert Take([GREP, pattern], MAX_ARGS) == [GREP, pattern];
    assert command[5..|left|] == text;
    EchoIntoGrepRuns(env, w, command, text, pattern, depth);
  }

  /** The pipeline when both of its sides have the expected form. */
  lemma EchoIntoGrepRuns(env: Env, w: World, command: Str, text: Str, pattern: Str, depth: nat)
    requires HasUnit(command, BAR) && !HasUnit(command, AMPERSAND)
    requires |command| <= MAX_LINE - 1 && 5 <= IndexOf(command, BAR) && command[5..IndexOf(command, BAR)] == text
    requires |Tokens(Segment(Before(command, BAR)), MAX_ARGS)| >= 2
    requires Tokens(Segment(Before(command, BAR)), MAX_ARGS)[0] == ECHO
    requires Tokens(Segment(Behind(command, BAR)), MAX_ARGS) == [GREP, pattern]
    ensures Run(env, w, command, depth)
         == Done(if IsSubstring(Trim(text), pattern) then PutLine(w, Trim(text)) else w, 0)
  {
    hide Words, Tokens, IndexOf;
    TrimIsShorter(text);
  }
}
