/** The two script line splitters. `SourceLines` is the byte-driven accumulator behind
    `source`; `BatchLines` is the pointer scan with chunking behind the start-up batch.
    Both are related to one reference: cutting the text at its line feeds. */
module Scripts {
  import opened Text

  // ----- The accumulator

  /** A finished accumulator issues a command unless it is empty. */
  function Issue(line: Str): seq<Str> {
    if line == [] then [] else [UpToNul(line)]
  }

  /** The accumulator after one more unit of a line. */
  function Gather(line: Str, c: Char16): Str {
    if c == CR || |line| >= MAX_LINE - 1 then line else line + [c]
  }

  /** Commands issued for `text` when `line` has been gathered so far. */
  function SourceFrom(text: Str, line: Str): seq<Str>
    decreases |text|
  {
    if text == [] then Issue(line)
    else if text[0] == LF then Issue(line) + SourceFrom(text[1..], [])
    else SourceFrom(text[1..], Gather(line, text[0]))
  }

  function SourceLines(text: Str): seq<Str> {
    SourceFrom(text, [])
  }

  // ----- The pointer scan

  predicate IsBreak(c: Char16) {
    c == CR || c == LF
  }

  /** Units before the next line break. */
  function TextRun(text: Str): (n: nat)
    ensures n <= |text|
    ensures forall i :: 0 <= i < n ==> !IsBreak(text[i])
    ensures n < |text| ==> IsBreak(text[n])
  {
    if text == [] || IsBreak(text[0]) then 0 else 1 + TextRun(text[1..])
  }

  /** The same, but at most as many as fit a line buffer. */
  function ChunkLength(text: Str): nat {
    Min(TextRun(text), MAX_LINE - 1)
  }

  function BreakRun(text: Str): (n: nat)
    ensures n <= |text|
    ensures forall i :: 0 <= i < n ==> IsBreak(text[i])
    ensures n < |text| ==> !IsBreak(text[n])
  {
    if text == [] || !IsBreak(text[0]) then 0 else 1 + BreakRun(text[1..])
  }

  /** Where the scan goes on: behind one chunk and the line breaks that follow it. */
  function NextStart(text: Str): (next: nat)
    requires text != []
    ensures 0 < next <= |text|
  {
    var n := ChunkLength(text);
    assert n == 0 ==> text[n..] == text && BreakRun(text) > 0;
    n + BreakRun(text[n..])
  }

  /** The command of one round of the scan; a round that only passes line breaks has none. */
  function Chunk(text: Str): seq<Str> {
    var n := ChunkLength(text);
    if n > 0 then [text[..n]] else []
  }

  function BatchLines(text: Str): seq<Str>
    decreases |text|
  {
    if text == [] then [] else Chunk(text) + BatchLines(text[NextStart(text)..])
  }

  // ----- The reference: whole lines

  /** The pieces between line feeds; there is always at least one. */
  function Lines(text: Str): (lines: seq<Str>)
    ensures lines != []
  {
    if text == [] then [[]]
    else if text[0] == LF then [[]] + Lines(text[1..])
    else [[text[0]] + Lines(text[1..])[0]] + Lines(text[1..])[1..]
  }

  function DropReturns(line: Str): Str {
    if line == [] then []
    else if line[0] == CR then DropReturns(line[1..])
    else [line[0]] + DropReturns(line[1..])
  }

  function Glue(lines: seq<Str>): Str {
    if lines == [] then [] else if |lines| == 1 then lines[0] else lines[0] + [10] + Glue(lines[1..])
  }

  /** Lines hold no line feed, and set together with line feeds they are the text again. */
  lemma {:induction false} LinesAreCut(text: Str)
    ensures Glue(Lines(text)) == text
    ensures forall i :: 0 <= i < |Lines(text)| ==> 10 !in Lines(text)[i]
    decreases |text|
  {
    if text != [] {
      LinesAreCut(text[1..]);
      var rest := Lines(text[1..]);
      assert text == [text[0]] + text[1..];
      if text[0] == LF {
        assert ([[]] + rest)[1..] == rest;
        assert [] + [10] + Glue(rest) == text;
      } else {
        var first := [text[0]] + rest[0];
        assert ([first] + rest[1..])[1..] == rest[1..];
        GlueHead(text[0], rest);
      }
    }
  }

  lemma GlueHead(c: Char16, lines: seq<Str>)
    requires lines != []
    ensures Glue([[c] + lines[0]] + lines[1..]) == [c] + Glue(lines)
  {
    var more := [[c] + lines[0]] + lines[1..];
    assert more[1..] == lines[1..];
    if |lines| > 1 {
      assert [c] + lines[0] + [10] + Glue(lines[1..]) == [c] + (lines[0] + [10] + Glue(lines[1..]));
    }
  }

  /** Dropping returns drops every return and nothing else. */
  lemma ReturnIsDropped(a: Str, b: Str)
    ensures DropReturns(a + [13] + b) == DropReturns(a) + DropReturns(b)
    ensures 13 !in a ==> DropReturns(a) == a
  {
    DropReturnsAppends(a + [13], b);
    DropReturnsAppends(a, [13]);
    assert DropReturns([13]) == [] by { assert [CR][1..] == []; }
    if 13 !in a {
      NothingToDrop(a);
    }
  }

  /** `source` issues a line with its carriage returns dropped and its tail cut off. */
  function SourceOf(line: Str): seq<Str> {
    Issue(Take(DropReturns(line), MAX_LINE - 1))
  }

  /** The batch runner also breaks a line at carriage returns and after every 127 units. */
  function BatchOf(line: Str): seq<Str>
    decreases |line|
  {
    if line == [] then []
    else if line[0] == CR then BatchOf(line[1..])
    else
      var n := ChunkLength(line);
      if n == 0 then [] else [line[..n]] + BatchOf(line[n..])
  }

  function MapSource(lines: seq<Str>): seq<Str> {
    if lines == [] then [] else SourceOf(lines[0]) + MapSource(lines[1..])
  }

  function MapBatch(lines: seq<Str>): seq<Str> {
    if lines == [] then [] else BatchOf(lines[0]) + MapBatch(lines[1..])
  }

  lemma {:induction false} DropReturnsAppends(a: Str, b: Str)
    ensures DropReturns(a + b) == DropReturns(a) + DropReturns(b)
  {
    if a == [] {
      assert a + b == b;
    } else {
      assert (a + b)[1..] == a[1..] + b;
      DropReturnsAppends(a[1..], b);
    }
  }

  /** The part of the current line seen so far, put back in front of the rest. */
  function Resume(seen: Str, lines: seq<Str>): seq<Str>
    requires lines != []
  {
    [seen + lines[0]] + lines[1..]
  }

  lemma ResumeNothing(lines: seq<Str>)
    requires lines != []
    ensures Resume([], lines) == lines
  {
    assert [] + lines[0] == lines[0];
  }

  /** The accumulator is the first 127 units of the current line without its returns. */
  lemma {:induction false} SourceFromResumes(text: Str, seen: Str)
    ensures SourceFrom(text, Take(DropReturns(seen), MAX_LINE - 1)) == MapSource(Resume(seen, Lines(text)))
    decreases |text|
  {
    var line := Take(DropReturns(seen), MAX_LINE - 1);
    if text == [] {
      assert seen + [] == seen;
      assert MapSource([seen]) == SourceOf(seen) + MapSource([]);
    } else if text[0] == LF {
      SourceFromResumes(text[1..], []);
      assert Take(DropReturns([]), MAX_LINE - 1) == [];
      ResumeNothing(Lines(text[1..]));
      var pieces := Resume(seen, Lines(text));
      assert pieces[0] == seen && pieces[1..] == Lines(text[1..]);
    } else {
      var more := seen + [text[0]];
      DropReturnsAppends(seen, [text[0]]);
      assert Gather(line, text[0]) == Take(DropReturns(more), MAX_LINE - 1);
      SourceFromResumes(text[1..], more);
      var rest := Lines(text[1..]);
      assert seen + ([text[0]] + rest[0]) == more + rest[0];
      assert Resume(seen, Lines(text)) == Resume(more, rest);
    }
  }

  lemma SourceByLines(text: Str)
    ensures SourceLines(text) == MapSource(Lines(text))
  {
    SourceFromResumes(text, []);
    assert Take(DropReturns([]), MAX_LINE - 1) == [];
    ResumeNothing(Lines(text));
  }

  /** The scan may skip line breaks one at a time. */
  lemma BatchSkipsBreak(text: Str)
    requires text != [] && IsBreak(text[0])
    ensures BatchLines(text) == BatchLines(text[1..])
  {
  }

  lemma {:induction false} BatchSkipsBreaks(text: Str, k: nat)
    requires k <= |text| && forall i :: 0 <= i < k ==> IsBreak(text[i])
    ensures BatchLines(text) == BatchLines(text[k..])
    decreases k
  {
    if k > 0 {
      BatchSkipsBreak(text);
      BatchSkipsBreaks(text[1..], k - 1);
      assert text[1..][k - 1..] == text[k..];
    } else {
      assert text[0..] == text;
    }
  }

  lemma BatchTakesChunk(text: Str)
    requires text != [] && !IsBreak(text[0])
    ensures ChunkLength(text) > 0
    ensures BatchLines(text) == [text[..ChunkLength(text)]] + BatchLines(text[ChunkLength(text)..])
  {
    var n := ChunkLength(text);
    var rest := text[n..];
    BatchScanStep(text);
    BatchSkipsBreaks(rest, BreakRun(rest));
  }

  lemma {:induction false} BatchScanStep(text: Str)
    requires text != [] && !IsBreak(text[0])
    ensures var n := ChunkLength(text);
            n > 0 && BatchLines(text) == [text[..n]] + BatchLines(text[n..][BreakRun(text[n..])..])
  {
    assert text[NextStart(text)..] == text[ChunkLength(text)..][BreakRun(text[ChunkLength(text)..])..];
  }

  lemma {:induction false} LinesOfChunk(chunk: Str, rest: Str)
    requires forall i :: 0 <= i < |chunk| ==> chunk[i] != LF
    ensures Lines(chunk + rest) == Resume(chunk, Lines(rest))
  {
    if chunk == [] {
      assert chunk + rest == rest;
      ResumeNothing(Lines(rest));
    } else {
      LinesOfChunk(chunk[1..], rest);
      assert (chunk + rest)[1..] == chunk[1..] + rest;
      assert [chunk[0]] + (chunk[1..] + Lines(rest)[0]) == chunk + Lines(rest)[0];
    }
  }

  lemma {:induction false} ChunkOfLine(line: Str, tail: Str)
    requires tail != [] ==> IsBreak(tail[0])
    ensures TextRun(line + tail) == TextRun(line)
  {
    if line == [] {
      assert line + tail == tail;
    } else {
      assert (line + tail)[1..] == line[1..] + tail;
      ChunkOfLine(line[1..], tail);
    }
  }

  /** The first line is a prefix of the text, up to the end or a line feed. */
  lemma {:induction false} FirstLine(text: Str) returns (tail: Str)
    ensures text == Lines(text)[0] + tail && (tail != [] ==> tail[0] == LF)
    ensures forall i :: 0 <= i < |Lines(text)[0]| ==> Lines(text)[0][i] != LF
  {
    if text == [] || text[0] == LF {
      tail := text;
    } else {
      tail := FirstLine(text[1..]);
      assert text == [text[0]] + text[1..];
    }
  }

  lemma LinesBehind(text: Str, n: nat)
    requires n <= |text| && forall i :: 0 <= i < n ==> text[i] != LF
    ensures Lines(text) == Resume(text[..n], Lines(text[n..]))
  {
    assert text == text[..n] + text[n..];
    LinesOfChunk(text[..n], text[n..]);
  }

  lemma MapBatchChunk(lines: seq<Str>, chunk: Str, rest: seq<Str>)
    requires rest != [] && chunk != [] && chunk[0] != CR
    requires lines == Resume(chunk, rest) && |chunk| == ChunkLength(lines[0])
    ensures MapBatch(lines) == [chunk] + MapBatch(rest)
  {
  }

  lemma {:induction false} BatchByLines(text: Str)
    ensures BatchLines(text) == MapBatch(Lines(text))
    decreases |text|
  {
    var lines := Lines(text);
    if text == [] {
      assert MapBatch(lines) == BatchOf([]) + MapBatch(lines[1..]);
    } else if text[0] == LF {
      BatchSkipsBreak(text);
      BatchByLines(text[1..]);
      assert lines[1..] == Lines(text[1..]);
    } else if text[0] == CR {
      BatchSkipsBreak(text);
      BatchByLines(text[1..]);
      var rest := Lines(text[1..]);
      assert lines[0][1..] == rest[0] && lines[1..] == rest[1..];
    } else {
      var n := ChunkLength(text);
      BatchTakesChunk(text);
      BatchByLines(text[n..]);
      LinesBehind(text, n);
      var tail := FirstLine(text);
      ChunkOfLine(lines[0], tail);
      MapBatchChunk(lines, text[..n], Lines(text[n..]));
    }
  }

  // ----- When the two agree

  /** No text after an interior carriage return, and at most 127 units of text. */
  ghost predicate Tidy(line: Str) {
    && (forall i, j, k :: 0 <= i < j < k < |line| && line[i] != CR && line[j] == CR ==> line[k] == CR)
    && |DropReturns(line)| <= 127
  }

  ghost predicate AllTidy(text: Str) {
    forall i :: 0 <= i < |Lines(text)| ==> Tidy(Lines(text)[i])
  }

  /** A line as the splitters see it: no line feed and no terminator inside. */
  ghost predicate Plain(line: Str) {
    forall i :: 0 <= i < |line| ==> line[i] != LF && line[i] != NUL
  }

  ghost predicate OnlyReturns(line: Str) {
    forall i :: 0 <= i < |line| ==> line[i] == CR
  }

  lemma {:induction false} BatchOfNothing(line: Str)
    requires Plain(line)
    ensures BatchOf(line) == [] <==> OnlyReturns(line)
    ensures DropReturns(line) == [] <==> OnlyReturns(line)
  {
    if line != [] && line[0] == CR {
      BatchOfNothing(line[1..]);
      assert OnlyReturns(line[1..]) ==> OnlyReturns(line);
    }
  }

  lemma {:induction false} NothingToDrop(line: Str)
    requires forall i :: 0 <= i < |line| ==> line[i] != CR
    ensures DropReturns(line) == line
  {
    if line != [] {
      NothingToDrop(line[1..]);
    }
  }

  lemma TidyBehindReturn(line: Str)
    requires line != [] && line[0] == CR
    ensures Tidy(line) <==> Tidy(line[1..])
  {
    var rest := line[1..];
    if Tidy(line) {
      forall i, j, k | 0 <= i < j < k < |rest| && rest[i] != CR && rest[j] == CR ensures rest[k] == CR {
        assert line[i + 1] != CR && line[j + 1] == CR;
        assert line[k + 1] == CR;
      }
    }
    if Tidy(rest) {
      forall i, j, k | 0 <= i < j < k < |line| && line[i] != CR && line[j] == CR ensures line[k] == CR {
        assert rest[i - 1] != CR && rest[j - 1] == CR;
        assert rest[k - 1] == CR;
      }
    }
  }

  /** A line that starts with text is tidy exactly when nothing but returns follow its first chunk. */
  lemma {:induction false} TidyFromText(line: Str)
    requires Plain(line) && line != [] && line[0] != CR
    ensures var n := ChunkLength(line);
            && DropReturns(line) == line[..n] + DropReturns(line[n..])
            && (Tidy(line) <==> OnlyReturns(line[n..]))
  {
    var n := ChunkLength(line);
    var rest := line[n..];
    assert line == line[..n] + rest;
    DropReturnsAppends(line[..n], rest);
    NothingToDrop(line[..n]);
    BatchOfNothing(rest);
    if OnlyReturns(rest) {
      forall i, j, k | 0 <= i < j < k < |line| && line[i] != CR && line[j] == CR ensures line[k] == CR {
        assert rest[k - n] == CR;
      }
    } else if n < MAX_LINE - 1 {
      var k :| 0 <= k < |rest| && rest[k] != CR;
      assert line[0] != CR && line[n] == CR && line[n + k] != CR;
    }
  }

  /** One line: the batch runner never issues fewer commands than `source`, and issues as
      many, or the same ones, exactly when the line is tidy. */
  lemma {:induction false} LineAgreement(line: Str)
    requires Plain(line)
    ensures |SourceOf(line)| <= |BatchOf(line)|
    ensures Tidy(line) <==> |SourceOf(line)| == |BatchOf(line)|
    ensures Tidy(line) ==> SourceOf(line) == BatchOf(line)
  {
    if line == [] {
    } else if line[0] == CR {
      LineAgreement(line[1..]);
      TidyBehindReturn(line);
    } else {
      var n := ChunkLength(line);
      TidyFromText(line);
      BatchOfNothing(line[n..]);
      if Tidy(line) {
        assert DropReturns(line) == line[..n];
        IndexOfUnique(line[..n], NUL, n);
      }
    }
  }

  lemma {:induction false} LinesAgreement(lines: seq<Str>)
    requires forall i :: 0 <= i < |lines| ==> Plain(lines[i])
    ensures |MapSource(lines)| <= |MapBatch(lines)|
    ensures (forall i :: 0 <= i < |lines| ==> Tidy(lines[i])) <==> |MapSource(lines)| == |MapBatch(lines)|
    ensures (forall i :: 0 <= i < |lines| ==> Tidy(lines[i])) ==> MapSource(lines) == MapBatch(lines)
  {
    if lines != [] {
      LineAgreement(lines[0]);
      LinesAgreement(lines[1..]);
      assert forall i :: 1 <= i < |lines| ==> lines[i] == lines[1..][i - 1];
      assert (forall i :: 0 <= i < |lines| ==> Tidy(lines[i])) <==>
             Tidy(lines[0]) && forall i :: 0 <= i < |lines[1..]| ==> Tidy(lines[1..][i]);
    }
  }

  lemma {:induction false} LinesArePlain(text: Str)
    requires NulFree(text)
    ensures forall i :: 0 <= i < |Lines(text)| ==> Plain(Lines(text)[i])
  {
    if text != [] {
      LinesArePlain(text[1..]);
    }
  }

  /** The two splitters issue the same commands for exactly the texts all of whose lines are
      tidy; otherwise the batch runner issues strictly more. */
  lemma {:induction false} SplittersAgree(text: Str)
    requires NulFree(text)
    ensures SourceLines(text) == BatchLines(text) <==> AllTidy(text)
    ensures !AllTidy(text) ==> |SourceLines(text)| < |BatchLines(text)|
  {
    SourceByLines(text);
    BatchByLines(text);
    LinesArePlain(text);
    LinesAgreement(Lines(text));
  }
}
