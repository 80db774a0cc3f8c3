/** Whether blanks around a line matter. The executor trims the pieces of a sequence, but not a
    line without `&`; this module says for which of those lines trimming would be noticed. */
module Trimming {
  import opened Text
  import opened Tokenizer
  import opened Segments
  import opened Semantics
  import opened RoundTrips
  import opened Sequencing

  /** A pipeline that reaches its `grep`. */
  predicate IsEchoGrep(command: Str)
    requires HasUnit(command, BAR)
  {
    var left := Tokens(Segment(Before(command, BAR)), MAX_ARGS);
    var right := Tokens(Segment(Behind(command, BAR)), MAX_ARGS);
    |left| >= 2 && left[0] == ECHO && |right| == 2 && right[0] == GREP
  }

  /** The text a pipeline looks at. */
  function PipedText(command: Str): Str
    requires HasUnit(command, BAR) && IsEchoGrep(command)
  {
    EchoSegmentIsLong(Before(command, BAR));
    Segment(command[5..IndexOf(command, BAR)])
  }

  function Pattern(command: Str): Str
    requires HasUnit(command, BAR) && IsEchoGrep(command)
  {
    Tokens(Segment(Behind(command, BAR)), MAX_ARGS)[1]
  }

  predicate EndsInText(s: Str) {
    s == [] || !Blank(s[|s| - 1])
  }

  /** The lines that do the same with and without the blanks around them. Two leading blanks
      spoil a pipeline that prints, and `system` shows its argument text as it stands. */
  ghost predicate TrimIsInvisible(env: Env, command: Str) {
    if HasUnit(command, BAR) then
      || !IsEchoGrep(command)
      || LeadBlanks(command) <= 1
      || !IsSubstring(PipedText(command), Pattern(command))
    else
      var ws := Tokens(command, MAX_ARGS);
      ws != [] && NameOf(env, ws[0]) == System ==>
        !HasUnit(command[..LeadBlanks(command)], SPACE) && EndsInText(Arguments(command))
  }

  // ----- The argument tail

  lemma ArgumentsBehind(a: Str, run: Str, rest: Str)
    requires !HasUnit(a, SPACE) && run != [] && (forall i :: 0 <= i < |run| ==> run[i] == SPACE)
    requires rest != [] ==> rest[0] != SPACE
    ensures Arguments(a + run + rest) == rest
  {
    var s := a + run + rest;
    assert s[|a|] == run[0];
    IndexOfUnique(s, SPACE, |a|);
    var t := s[|a|..];
    assert t == run + rest;
    SpaceRunUnique(t, |run|);
    assert t[|run|..] == rest;
  }

  lemma SpaceRunUnique(s: Str, n: nat)
    requires n <= |s|
    requires forall i :: 0 <= i < n ==> s[i] == SPACE
    requires n < |s| ==> s[n] != SPACE
    ensures SpaceRun(s) == n
  {
  }

  /** A text with a space is a space-free head, a run of spaces and the arguments. */
  lemma ArgumentParts(s: Str) returns (head: Str, run: Str)
    requires HasUnit(s, SPACE)
    ensures s == head + run + Arguments(s)
    ensures !HasUnit(head, SPACE) && run != [] && forall i :: 0 <= i < |run| ==> run[i] == SPACE
    ensures Arguments(s) != [] ==> Arguments(s)[0] != SPACE
    ensures head == s[..IndexOf(s, SPACE)]
  {
    var k := IndexOf(s, SPACE);
    head := s[..k];
    IndexOfUnique(head, SPACE, k);
    var t := s[k..];
    var n := SpaceRun(t);
    run := t[..n];
    assert s == head + t && t == run + t[n..];
    assert t[0] == s[k];
  }

  lemma NoSpaceNoArguments(s: Str)
    requires !HasUnit(s, SPACE)
    ensures Arguments(s) == []
  {
  }

  lemma ArgumentsAreShorter(core: Str)
    requires core != [] && !Blank(core[0])
    ensures |Arguments(core)| < |core|
  {
  }

  lemma SpaceInLead(a: Str, core: Str, b: Str)
    requires AllBlank(a) && HasUnit(a, SPACE) && core != [] && !Blank(core[0])
    ensures Arguments(a + core + b) != Arguments(core)
  {
    var head, run := ArgumentParts(a);
    var tail := Arguments(a) + core + b;
    assert tail[0] != SPACE;
    assert a + core + b == head + run + tail;
    ArgumentsBehind(head, run, tail);
    ArgumentsAreShorter(core);
  }

  lemma SpaceInCore(a: Str, core: Str, b: Str)
    requires AllBlank(b) && !HasUnit(a, SPACE) && HasUnit(core, SPACE) && Trimmed(core)
    ensures Arguments(a + core + b) == Arguments(core) <==> EndsInText(Arguments(a + core + b))
  {
    var head, run := ArgumentParts(core);
    var tail := Arguments(core);
    assert (head + run)[|head + run| - 1] == run[|run| - 1];
    assert tail == [] ==> core == head + run;
    NoneInConcat(a, head, SPACE);
    assert a + core + b == (a + head) + run + (tail + b);
    ArgumentsBehind(a + head, run, tail + b);
    assert tail[|tail| - 1] == core[|core| - 1];
    assert b != [] ==> (tail + b)[|tail + b| - 1] == b[|b| - 1];
    assert b == [] ==> tail + b == tail;
  }

  lemma SpaceInTail(a: Str, core: Str, b: Str)
    requires AllBlank(b) && !HasUnit(a, SPACE) && !HasUnit(core, SPACE)
    ensures Arguments(a + core + b) == Arguments(core) <==> EndsInText(Arguments(a + core + b))
  {
    hide Arguments, IndexOf;
    NoSpaceNoArguments(core);
    NoneInConcat(a, core, SPACE);
    if HasUnit(b, SPACE) {
      var head, run := ArgumentParts(b);
      var tail := Arguments(b);
      NoneInConcat(a + core, head, SPACE);
      assert a + core + b == (a + core + head) + run + tail;
      ArgumentsBehind(a + core + head, run, tail);
      assert tail != [] ==> tail[|tail| - 1] == b[|b| - 1];
    } else {
      NoneInConcat(a + core, b, SPACE);
      NoSpaceNoArguments(a + core + b);
    }
  }

  /** The raw argument tail survives trimming exactly when no space leads and no blank trails it. */
  lemma ArgumentsOfTrimmed(a: Str, core: Str, b: Str)
    requires AllBlank(a) && AllBlank(b) && Trimmed(core) && core != []
    ensures Arguments(a + core + b) == Arguments(core)
       <==> !HasUnit(a, SPACE) && EndsInText(Arguments(a + core + b))
  {
    if HasUnit(a, SPACE) {
      SpaceInLead(a, core, b);
    } else if HasUnit(core, SPACE) {
      SpaceInCore(a, core, b);
    } else {
      SpaceInTail(a, core, b);
    }
  }

  // ----- Lines without a pipeline

  lemma OnlySystemReadsArguments(env: Env, w: World, name: Name, ws: seq<Str>, x: Str, y: Str)
    requires ws != [] && name != System
    ensures Command(env, w, name, ws, x) == Command(env, w, name, ws, y)
  {
  }

  lemma PutLineTells(w: World, x: Str, y: Str)
    ensures PutLine(w, x) == PutLine(w, y) <==> x == y
  {
    var n := |w.screen|;
    var left, right := w.screen + x + NEWLINE, w.screen + y + NEWLINE;
    assert left[n..|left| - 2] == x && right[n..|right| - 2] == y;
  }

  lemma TrimmedTokens(command: Str)
    requires |command| <= MAX_LINE - 1
    ensures Tokens(Trim(command), MAX_ARGS) == Tokens(command, MAX_ARGS)
  {
    hide Words;
    TrimKeepsWords(command);
    TrimIsShorter(command);
    assert Take(command, MAX_LINE - 1) == command && Take(Trim(command), MAX_LINE - 1) == Trim(command);
  }

  lemma TrimmedCommandRuns(env: Env, w: World, command: Str, depth: nat)
    requires |command| <= MAX_LINE - 1 && !HasUnit(command, AMPERSAND) && !HasUnit(command, BAR)
    ensures RunSimple(env, w, command, depth) == RunSimple(env, w, Trim(command), depth)
       <==> TrimIsInvisible(env, command)
  {
    hide Tokens, NameOf, Trim, Arguments, ScriptLines;
    var core, ws := Trim(command), Tokens(command, MAX_ARGS);
    TrimmedTokens(command);
    TrimHasNoNew(command, BAR);
    if ws != [] && NameOf(env, ws[0]) == System {
      SystemLine(command);
      PutLineTells(w, Arguments(command), Arguments(core));
    } else if ws != [] {
      OnlySystemReadsArguments(env, w, NameOf(env, ws[0]), ws, Arguments(command), Arguments(core));
    }
  }

  lemma TrimNotEmpty(command: Str)
    requires |command| <= MAX_LINE - 1 && Tokens(command, MAX_ARGS) != []
    ensures Trim(command) != []
  {
    TrimmedTokens(command);
    AllBlankHasNoWords([]);
  }

  lemma SystemLine(command: Str)
    requires |command| <= MAX_LINE - 1 && Tokens(command, MAX_ARGS) != []
    ensures Arguments(command) == Arguments(Trim(command)) <==>
            !HasUnit(command[..LeadBlanks(command)], SPACE) && EndsInText(Arguments(command))
  {
    hide Words, Arguments, Trim, Tokens;
    TrimNotEmpty(command);
    var a, b := TrimParts(command);
    ArgumentsOfTrimmed(a, Trim(command), b);
    assert command[..|a|] == a;
  }

  // ----- Pipelines

  /** A text whose first two words follow `echo` without a leading blank. */
  lemma EchoPrefix(s: Str)
    requires s != [] && !Blank(s[0]) && |Words(s)| >= 2 && Words(s)[0] == ECHO
    ensures |s| >= 6 && s[..4] == ECHO && Blank(s[4]) && !AllBlank(s[5..])
  {
    assert s[0..] == s;
    var k := WordLength(s);
    assert s[..k] == ECHO && Words(s[k..]) == Words(s)[1..];
  }

  lemma SubstringOfSuffix(front: Str, tail: Str, pattern: Str)
    requires IsSubstring(tail, pattern)
    ensures IsSubstring(front + tail, pattern)
  {
    var k :| 0 <= k <= |tail| && pattern <= tail[k..];
    assert (front + tail)[|front| + k..] == tail[k..];
  }

  /** Text in front of the blanks that follow it makes the printed text longer. */
  lemma SpoiledText(x: Str, blank: Char16, t: Str) returns (front: Str)
    requires x != [] && !Blank(x[|x| - 1]) && Blank(blank) && !AllBlank(t)
    ensures front != [] && Trim(x + [blank] + t) == front + Trim(t)
  {
    var a, b := TrimParts(t);
    var tail := Trim(t);
    assert tail == [] ==> a + tail + b == a + b;
    var lead := x[..LeadBlanks(x)];
    var head := TrimLeft(x);
    front := head + [blank] + a;
    SpoiledCore(x, lead, head, blank, a, tail, b);
    assert t == a + tail + b;
  }

  lemma SpoiledCore(x: Str, lead: Str, head: Str, blank: Char16, a: Str, tail: Str, b: Str)
    requires AllBlank(lead) && AllBlank(b) && x == lead + head
    requires head != [] && !Blank(head[0]) && tail != [] && !Blank(tail[|tail| - 1])
    ensures Trim(x + [blank] + (a + tail + b)) == head + [blank] + a + tail
  {
    var core := head + [blank] + a + tail;
    assert core[|core| - 1] == tail[|tail| - 1];
    assert x + [blank] + (a + tail + b) == lead + core + b;
    TrimCore(lead, core, b);
  }

  /** What the pipeline prints when `a` leads a line that starts with `echo`. */
  lemma LeadInEcho(a: Str, s: Str, pattern: Str)
    requires AllBlank(a) && |s| >= 6 && s[..4] == ECHO && Blank(s[4]) && !AllBlank(s[5..])
    ensures |a| <= 1 ==> Trim((a + s)[5..]) == Trim(s[5..])
    ensures |a| > 1 ==> |Trim((a + s)[5..])| > |Trim(s[5..])|
    ensures |a| > 1 && IsSubstring(Trim(s[5..]), pattern) ==> IsSubstring(Trim((a + s)[5..]), pattern)
  {
    var t := s[5..];
    if |a| == 0 {
      assert a + s == s;
    } else if |a| == 1 {
      assert (a + s)[5..] == [s[4]] + t + [];
      TrimPadding([s[4]], t, []);
    } else {
      var x := (a + ECHO)[5..];
      assert s == ECHO + [s[4]] + t;
      assert (a + s)[5..] == x + [s[4]] + t;
      assert x[|x| - 1] == ECHO[3] == 'o' as int;
      var front := SpoiledText(x, s[4], t);
      if IsSubstring(Trim(t), pattern) {
        SubstringOfSuffix(front, Trim(t), pattern);
      }
    }
  }

  /** Both sides of a pipeline tokenize alike with and without the blanks around the line. */
  lemma SidesKeepTokens(command: Str, a: Str, core: Str, b: Str)
    requires |command| <= MAX_LINE - 1 && command == a + core + b && AllBlank(a) && AllBlank(b)
    requires HasUnit(core, BAR)
    ensures HasUnit(command, BAR)
    ensures Tokens(Segment(Before(command, BAR)), MAX_ARGS) == Tokens(Segment(Before(core, BAR)), MAX_ARGS)
    ensures Tokens(Segment(Behind(command, BAR)), MAX_ARGS) == Tokens(Segment(Behind(core, BAR)), MAX_ARGS)
  {
    hide Words, Tokens, Segment;
    PaddedCut(a, core, b, BAR);
    var left, right := Before(core, BAR), Behind(core, BAR);
    SegmentTokens(a + left);
    SegmentTokens(left);
    SegmentTokens(right + b);
    SegmentTokens(right);
    WordsPadded(a, left, []);
    assert a + left + [] == a + left;
    WordsPadded([], right, b);
    assert [] + right + b == right + b;
  }

  /** Trimming the line drops the spoiled front of the piped text, if there are two blanks or more. */
  lemma PipedTextOfTrimmed(command: Str, a: Str, core: Str, b: Str)
    requires |command| <= MAX_LINE - 1 && command == a + core + b && AllBlank(a) && AllBlank(b)
    requires core != [] && Trimmed(core) && HasUnit(core, BAR) && IsEchoGrep(core)
    requires HasUnit(command, BAR) && IsEchoGrep(command)
    ensures |a| <= 1 ==> PipedText(command) == PipedText(core)
    ensures |a| > 1 ==> PipedText(command) != PipedText(core)
    ensures |a| > 1 && IsSubstring(PipedText(core), Pattern(core)) ==> IsSubstring(PipedText(command), Pattern(core))
  {
    hide Trim, Words, IndexOf;
    PaddedCut(a, core, b, BAR);
    var left := Before(core, BAR);
    EchoSegmentIsLong(left);
    SegmentTokens(left);
    assert left[0] == core[0];
    EchoPrefix(left);
    LeadInEcho(a, left, Pattern(core));
    CutIsFront(command, a + left, BAR);
    CutIsFront(core, left, BAR);
    TrimIsShorter((a + left)[5..]);
    TrimIsShorter(left[5..]);
  }

  lemma CutIsFront(command: Str, left: Str, c: Char16)
    requires left == Before(command, c) && |left| >= 5
    ensures command[5..IndexOf(command, c)] == left[5..]
  {
  }

  lemma PipelinePrints(env: Env, w: World, command: Str)
    requires HasUnit(command, BAR) && IsEchoGrep(command)
    ensures Pipeline(env, w, command)
         == if IsSubstring(PipedText(command), Pattern(command)) then PutLine(w, PipedText(command)) else w
  {
  }

  lemma TrimmedPipelineRuns(env: Env, w: World, command: Str)
    requires |command| <= MAX_LINE - 1 && HasUnit(command, BAR)
    ensures HasUnit(Trim(command), BAR)
    ensures Pipeline(env, w, command) == Pipeline(env, w, Trim(command)) <==> TrimIsInvisible(env, command)
  {
    hide Trim, Words, Tokens, IndexOf, Segment;
    var a, b := TrimParts(command);
    var core := Trim(command);
    PaddedCut(a, core, b, BAR);
    SidesKeepTokens(command, a, core, b);
    if IsEchoGrep(command) {
      PipedTextOfTrimmed(command, a, core, b);
      PipelinePrints(env, w, command);
      PipelinePrints(env, w, core);
      PutLineTells(w, PipedText(command), PipedText(core));
      PutLineTells(w, PipedText(command), []);
      LineIsSeen(w, PipedText(command));
    }
  }

  lemma LineIsSeen(w: World, text: Str)
    ensures PutLine(w, text) != w
  {
    assert |PutLine(w, text).screen| == |w.screen| + |text| + 2;
  }

  /** A line without `&` does the same when the blanks around it are removed, if and only if it
      is one of the lines for which trimming is invisible. */
  lemma TrimmedLineRuns(env: Env, w: World, command: Str, depth: nat)
    requires |command| <= MAX_LINE - 1 && !HasUnit(command, AMPERSAND)
    ensures Run(env, w, command, depth) == Run(env, w, Trim(command), depth) <==> TrimIsInvisible(env, command)
  {
    hide Trim, Words, Tokens, IndexOf, Segment, TrimIsInvisible;
    TrimHasNoNew(command, AMPERSAND);
    if HasUnit(command, BAR) {
      TrimmedPipelineRuns(env, w, command);
    } else {
      TrimHasNoNew(command, BAR);
      TrimmedCommandRuns(env, w, command, depth);
    }
  }
}
