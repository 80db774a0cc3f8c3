/** The destructive tokenizer of the terminal, over the one static line buffer. */
module Tokenizer {
  import opened Text

  function LeadBlanks(s: Str): (n: nat)
    ensures n <= |s|
    ensures forall i :: 0 <= i < n ==> Blank(s[i])
    ensures n < |s| ==> !Blank(s[n])
  {
    if s == [] || !Blank(s[0]) then 0 else 1 + LeadBlanks(s[1..])
  }

  function WordLength(s: Str): (n: nat)
    ensures n <= |s|
    ensures forall i :: 0 <= i < n ==> !Blank(s[i])
    ensures n < |s| ==> Blank(s[n])
    ensures s != [] && !Blank(s[0]) ==> n > 0
  {
    if s == [] || Blank(s[0]) then 0 else 1 + WordLength(s[1..])
  }

  /** The blank-separated words of a text, left to right. */
  function Words(s: Str): seq<Str>
    decreases |s|
  {
    var t := s[LeadBlanks(s)..];
    if t == [] then [] else [t[..WordLength(t)]] + Words(t[WordLength(t)..])
  }

  /** What the tokenizer keeps of a command: its first words, within the line buffer. */
  function Tokens(command: Str, maxArgs: nat): seq<Str> {
    Take(Words(Take(command, MAX_LINE - 1)), maxArgs)
  }

  // ----- What a word is, without reference to scanning

  ghost predicate IsWord(w: Str) {
    w != [] && BlankFree(w)
  }

  ghost predicate AreWords(ws: seq<Str>) {
    forall i :: 0 <= i < |ws| ==> IsWord(ws[i])
  }

  /** Blank gaps to set around the words: none may be empty between two words. */
  ghost predicate AreGaps(gaps: seq<Str>, count: nat) {
    && |gaps| == count + 1
    && (forall i :: 0 <= i < |gaps| ==> AllBlank(gaps[i]))
    && (forall i :: 0 < i < count ==> gaps[i] != [])
  }

  ghost function Weave(gaps: seq<Str>, ws: seq<Str>): Str
    requires |gaps| == |ws| + 1
  {
    if ws == [] then gaps[0] else gaps[0] + ws[0] + Weave(gaps[1..], ws[1..])
  }

  lemma LeadBlanksUnique(s: Str, n: nat)
    requires n <= |s|
    requires forall i :: 0 <= i < n ==> Blank(s[i])
    requires n < |s| ==> !Blank(s[n])
    ensures LeadBlanks(s) == n
  {
  }

  lemma WordLengthUnique(s: Str, n: nat)
    requires n <= |s|
    requires forall i :: 0 <= i < n ==> !Blank(s[i])
    requires n < |s| ==> Blank(s[n])
    ensures WordLength(s) == n
  {
  }

  lemma AllBlankHasNoWords(s: Str)
    requires AllBlank(s)
    ensures Words(s) == []
  {
  }

  /** One step of the scan: a gap, a word, and something that starts with a blank. */
  lemma WordsStep(gap: Str, w: Str, rest: Str)
    requires AllBlank(gap) && IsWord(w)
    requires rest != [] ==> Blank(rest[0])
    ensures Words(gap + w + rest) == [w] + Words(rest)
  {
    var s := gap + w + rest;
    assert s[..|gap|] == gap && s[|gap|] == w[0];
    LeadBlanksUnique(s, |gap|);
    var t := s[|gap|..];
    assert t == w + rest;
    assert t[..|w|] == w && t[|w|..] == rest;
    WordLengthUnique(t, |w|);
  }

  /** Any text made of these words and blank gaps scans back to exactly these words. */
  lemma {:induction false} WeaveScans(gaps: seq<Str>, ws: seq<Str>)
    requires AreWords(ws) && AreGaps(gaps, |ws|)
    ensures Words(Weave(gaps, ws)) == ws
    decreases |ws|
  {
    hide Words;
    if ws == [] {
      AllBlankHasNoWords(gaps[0]);
    } else {
      var rest := Weave(gaps[1..], ws[1..]);
      assert AreGaps(gaps[1..], |ws[1..]|);
      WeaveScans(gaps[1..], ws[1..]);
      assert rest != [] ==> Blank(rest[0]) by {
        assert AllBlank(gaps[1]);
        if |ws| > 1 { assert gaps[1] != []; }
      }
      WordsStep(gaps[0], ws[0], rest);
    }
  }

  /** Puts a gap and a word in front of a text that is already woven. */
  lemma WeaveOneMore(gap: Str, w: Str, rest: Str, more: seq<Str>) returns (gaps: seq<Str>)
    requires AllBlank(gap) && IsWord(w)
    requires AreWords(Words(rest)) && AreGaps(more, |Words(rest)|) && Weave(more, Words(rest)) == rest
    requires rest != [] ==> Blank(rest[0]) && more[0] != []
    ensures gaps == [gap] + more
    ensures AreWords([w] + Words(rest)) && AreGaps(gaps, |Words(rest)| + 1)
    ensures Weave(gaps, [w] + Words(rest)) == gap + w + rest
  {
    gaps := [gap] + more;
    var ws := [w] + Words(rest);
    assert gaps[1..] == more && ws[1..] == Words(rest);
    assert rest == [] ==> Words(rest) == [];
  }

  lemma CutTwice(s: Str, n: nat, k: nat)
    requires n + k <= |s|
    ensures s == s[..n] + s[n..][..k] + s[n..][k..]
  {
  }

  /** Every text is made of its words and blank gaps. */
  lemma {:induction false} ScanWeaves(s: Str) returns (gaps: seq<Str>)
    ensures AreWords(Words(s)) && AreGaps(gaps, |Words(s)|)
    ensures Weave(gaps, Words(s)) == s
    ensures s != [] && Blank(s[0]) ==> gaps[0] != []
    decreases |s|
  {
    var n := LeadBlanks(s);
    var t := s[n..];
    if t == [] {
      assert s[..n] == s;
      gaps := [s];
    } else {
      var k := WordLength(t);
      var more := ScanWeaves(t[k..]);
      gaps := WeaveOneMore(s[..n], t[..k], t[k..], more);
      CutTwice(s, n, k);
    }
  }

  /** The words of a text are the only blank-free pieces it can be woven from. */
  lemma {:induction false} WordsCharacterised(s: Str, ws: seq<Str>)
    ensures ws == Words(s) <==>
            AreWords(ws) && exists gaps :: AreGaps(gaps, |ws|) && Weave(gaps, ws) == s
  {
    var gaps := ScanWeaves(s);
    if AreWords(ws) && exists gaps :: AreGaps(gaps, |ws|) && Weave(gaps, ws) == s {
      var other :| AreGaps(other, |ws|) && Weave(other, ws) == s;
      WeaveScans(other, ws);
    }
  }

  // ----- Joining with spaces and scanning again

  ghost function SpaceGaps(count: nat): seq<Str> {
    seq(count + 1, i => if i == 0 || i == count then [] else [SPACE])
  }

  lemma {:induction false} JoinWeaves(ws: seq<Str>)
    requires ws != []
    ensures Weave(SpaceGaps(|ws|), ws) == Join(ws)
  {
    var gaps := SpaceGaps(|ws|);
    if |ws| == 1 {
      assert Weave(gaps[1..], ws[1..]) == [];
    } else {
      JoinWeavesTail(ws, 1);
      assert gaps[1..] == TailGaps(|ws| - 1);
    }
  }

  /** Gaps with a space in front of every word. */
  ghost function TailGaps(count: nat): seq<Str> {
    seq(count + 1, i => if i == count then [] else [SPACE])
  }

  lemma {:induction false} JoinWeavesTail(ws: seq<Str>, k: nat)
    requires 0 < k < |ws|
    ensures Weave(TailGaps(|ws| - k), ws[k..]) == [SPACE] + Join(ws[k..])
    decreases |ws| - k
  {
    var tail := ws[k..];
    var gaps := TailGaps(|tail|);
    assert gaps[1..] == TailGaps(|tail| - 1);
    assert tail[1..] == ws[k + 1..];
    if k + 1 < |ws| {
      JoinWeavesTail(ws, k + 1);
    } else {
      assert tail[1..] == [];
    }
  }

  /** Parsing the space-join of words that fit the buffer returns those words. */
  lemma JoinRoundTrip(ws: seq<Str>, maxArgs: nat)
    requires AreWords(ws) && |ws| <= maxArgs
    requires |Join(ws)| <= MAX_LINE - 1
    ensures Tokens(Join(ws), maxArgs) == ws
  {
    if ws == [] {
      AllBlankHasNoWords([]);
    } else {
      JoinWeaves(ws);
      WeaveScans(SpaceGaps(|ws|), ws);
    }
    assert Take(Join(ws), MAX_LINE - 1) == Join(ws);
  }

  lemma WordsAreWords(s: Str)
    ensures AreWords(Words(s))
  {
  }

  lemma WordsUnfold(s: Str)
    ensures var u := s[LeadBlanks(s)..];
            Words(s) == if u == [] then [] else [u[..WordLength(u)]] + Words(u[WordLength(u)..])
  {
  }

  lemma {:induction false} WordsNulFree(s: Str)
    requires NulFree(s)
    ensures forall i :: 0 <= i < |Words(s)| ==> NulFree(Words(s)[i])
    decreases |s|
  {
    hide Words;
    WordsUnfold(s);
    var t := s[LeadBlanks(s)..];
    if t != [] {
      WordsNulFree(t[WordLength(t)..]);
    }
  }

  lemma TokensAreWords(command: Str, maxArgs: nat)
    requires NulFree(command)
    ensures AreWords(Tokens(command, maxArgs))
    ensures forall i :: 0 <= i < |Tokens(command, maxArgs)| ==> NulFree(Tokens(command, maxArgs)[i])
  {
    WordsAreWords(Take(command, MAX_LINE - 1));
    WordsNulFree(Take(command, MAX_LINE - 1));
  }

  // ----- The tokenizer itself

  /** The first position from `i` on that holds no blank. */
  function NextWord(t: Str, i: nat): (j: nat)
    requires i <= |t|
    ensures i <= j <= |t| && (j < |t| ==> !Blank(t[j]))
    ensures !(i < |t| && Blank(t[i])) ==> j == i
    decreases |t| - i
  {
    if i < |t| && Blank(t[i]) then NextWord(t, i + 1) else i
  }

  /** The first position from `i` on that holds a blank. */
  function WordEnd(t: Str, i: nat): (j: nat)
    requires i <= |t|
    ensures i <= j <= |t| && (j < |t| ==> Blank(t[j]))
    ensures i < |t| && !Blank(t[i]) ==> i < j
    decreases |t| - i
  {
    if i < |t| && !Blank(t[i]) then WordEnd(t, i + 1) else i
  }

  /** The words of a text from a position on. */
  function Scan(t: Str, i: nat): seq<Str>
    requires i <= |t|
    decreases |t| - i
  {
    var b := NextWord(t, i);
    if b == |t| then [] else [t[b..WordEnd(t, b)]] + Scan(t, WordEnd(t, b))
  }

  lemma {:induction false} NextWordSkipsBlanks(t: Str, i: nat)
    requires i <= |t|
    ensures NextWord(t, i) == i + LeadBlanks(t[i..])
    decreases |t| - i
  {
    if i < |t| {
      NextWordSkipsBlanks(t, i + 1);
      assert t[i..][1..] == t[i + 1..];
    }
  }

  lemma {:induction false} WordEndAddsLength(t: Str, i: nat)
    requires i <= |t|
    ensures WordEnd(t, i) == i + WordLength(t[i..])
    decreases |t| - i
  {
    if i < |t| {
      WordEndAddsLength(t, i + 1);
      assert t[i..][1..] == t[i + 1..];
    }
  }

  lemma TailOfTail(t: Str, i: nat, j: nat)
    requires i <= j <= |t|
    ensures t[i..][j - i..] == t[j..] && t[i..][..j - i] == t[i..j]
  {
  }

  /** One step of the scan, on the text behind position `i`. */
  lemma WordsBehind(t: Str, i: nat)
    requires i <= |t|
    ensures var b := NextWord(t, i);
            Words(t[i..]) == if b == |t| then [] else [t[b..WordEnd(t, b)]] + Words(t[WordEnd(t, b)..])
  {
    hide *;
    var s, b := t[i..], NextWord(t, i);
    assert s[LeadBlanks(s)..] == t[b..] by {
      NextWordSkipsBlanks(t, i);
      TailOfTail(t, i, b);
    }
    WordsUnfold(s);
    if b < |t| {
      var u, e := t[b..], WordEnd(t, b);
      assert u[..WordLength(u)] == t[b..e] && u[WordLength(u)..] == t[e..] by {
        WordEndAddsLength(t, b);
        TailOfTail(t, b, e);
      }
    }
  }

  lemma {:induction false} ScanIsWords(t: Str, i: nat)
    requires i <= |t|
    ensures Scan(t, i) == Words(t[i..])
    decreases |t| - i
  {
    hide NextWord, WordEnd, Words;
    WordsBehind(t, i);
    var b := NextWord(t, i);
    if b < |t| {
      ScanIsWords(t, WordEnd(t, b));
    }
  }

  /** The pointers found, with the word each one heads: in order, apart, and before `limit`. */
  ghost predicate Headed(buffer: Str, argv: seq<nat>, ws: seq<Str>, limit: nat) {
    && |argv| == |ws|
    && (forall i :: 0 <= i < |ws| ==> Holds(buffer, argv[i], ws[i]) && argv[i] + |ws[i]| < limit)
    && (forall i, j :: 0 <= i < j < |ws| ==> argv[i] + |ws[i]| < argv[j])
  }

  /** Terminating the word at `start..end` keeps the earlier words and adds this one. */
  lemma HeadOneMore(before: Str, argv: seq<nat>, ws: seq<Str>, start: nat, end: nat, w: Str)
    requires start <= end < |before| && Headed(before, argv, ws, start)
    requires before[start..end] == w && NulFree(w)
    ensures Headed(before[end := NUL], argv + [start], ws + [w], end + 1)
  {
  }

  /** The buffer still holds the unscanned part of the text, and its terminator. */
  ghost predicate Pending(buffer: Str, t: Str, cursor: nat) {
    && cursor <= |t| < |buffer|
    && buffer[|t|] == NUL
    && forall k :: cursor <= k < |t| ==> buffer[k] == t[k]
  }

  method CopyIn(line: array<Char16>, command: Str)
    requires line.Length == MAX_LINE && NulFree(command)
    modifies line
    ensures Pending(line[..], Take(command, MAX_LINE - 1), 0)
  {
    var i := 0;
    while At(command, i) != NUL && i < MAX_LINE - 1
      invariant i <= |command| && i <= MAX_LINE - 1
      invariant forall k :: 0 <= k < i ==> line[k] == command[k]
      decreases MAX_LINE - i
    {
      line[i] := command[i];
      i := i + 1;
    }
    line[i] := NUL;
  }

  method SkipBlanks(line: array<Char16>, ghost t: Str, start: nat) returns (cursor: nat)
    requires Pending(line[..], t, start) && NulFree(t)
    ensures cursor == NextWord(t, start)
  {
    cursor := start;
    while Blank(line[cursor])
      invariant start <= cursor <= |t|
      invariant NextWord(t, cursor) == NextWord(t, start)
      decreases |t| - cursor
    {
      cursor := cursor + 1;
    }
  }

  method SkipWord(line: array<Char16>, ghost t: Str, start: nat) returns (cursor: nat)
    requires Pending(line[..], t, start) && NulFree(t)
    ensures cursor == WordEnd(t, start)
  {
    cursor := start;
    while line[cursor] != NUL && !Blank(line[cursor])
      invariant start <= cursor <= |t|
      invariant WordEnd(t, cursor) == WordEnd(t, start)
      decreases |t| - cursor
    {
      cursor := cursor + 1;
    }
  }

  lemma ScanOneMore(t: Str, found: seq<Str>, start: nat)
    requires start < |t| && NextWord(t, start) == start
    ensures var e := WordEnd(t, start);
            && found + Scan(t, start) == found + [t[start..e]] + Scan(t, e)
            && (e < |t| ==> Scan(t, e) == Scan(t, NextWord(t, e + 1)))
  {
  }

  /** Scanning that stopped at the end, or with all pointers used, has found the tokens. */
  lemma TakenTokens(command: Str, maxArgs: nat, found: seq<Str>, cursor: nat)
    requires cursor <= |Take(command, MAX_LINE - 1)| && |found| <= maxArgs
    requires Scan(Take(command, MAX_LINE - 1), 0) == found + Scan(Take(command, MAX_LINE - 1), cursor)
    requires cursor == |Take(command, MAX_LINE - 1)| || |found| == maxArgs
    ensures found == Tokens(command, maxArgs)
  {
    var t := Take(command, MAX_LINE - 1);
    ScanIsWords(t, 0);
    assert t[0..] == t;
  }

  /** Passes over one word, terminates it in place and moves on to the next. */
  method CutWord(line: array<Char16>, ghost t: Str, start: nat, ghost argv: seq<nat>, ghost found: seq<Str>)
    returns (cursor: nat, ghost w: Str)
    requires Pending(line[..], t, start) && NulFree(t)
    requires start < |t| && NextWord(t, start) == start
    requires Headed(line[..], argv, found, start)
    modifies line
    ensures Pending(line[..], t, cursor) && NextWord(t, cursor) == cursor
    ensures Headed(line[..], argv + [start], found + [w], if cursor < |t| then cursor else |t| + 1)
    ensures cursor > start && found + Scan(t, start) == found + [w] + Scan(t, cursor)
  {
    hide NextWord, WordEnd, Scan;
    cursor := SkipWord(line, t, start);
    ghost var before := line[..];
    w := t[start..cursor];
    assert before[start..cursor] == w;
    HeadOneMore(before, argv, found, start, cursor, w);
    ScanOneMore(t, found, start);
    if line[cursor] == NUL {
      assert before[cursor := NUL] == before;
      return;
    }
    line[cursor] := NUL;
    assert line[..] == before[cursor := NUL];
    cursor := cursor + 1;
    cursor := SkipBlanks(line, t, cursor);
  }

  /** Cuts the command into words in place. Each pointer returned heads a terminated region
      of the buffer that holds its word, and the regions do not overlap. */
  method ParseCommand(line: array<Char16>, command: Str, maxArgs: nat) returns (argv: seq<nat>)
    requires line.Length == MAX_LINE && NulFree(command)
    modifies line
    ensures Headed(line[..], argv, Tokens(command, maxArgs), MAX_LINE)
  {
    CopyIn(line, command);
    ghost var t := Take(command, MAX_LINE - 1);
    ghost var found: seq<Str> := [];
    argv := [];
    var cursor := SkipBlanks(line, t, 0);
    while line[cursor] != NUL && |argv| < maxArgs
      invariant Pending(line[..], t, cursor) && NextWord(t, cursor) == cursor
      invariant Headed(line[..], argv, found, if cursor < |t| then cursor else |t| + 1)
      invariant Scan(t, 0) == found + Scan(t, cursor)
      invariant |argv| <= maxArgs
      decreases |t| - cursor
    {
      var next, w := CutWord(line, t, cursor, argv, found);
      argv := argv + [cursor];
      found := found + [w];
      cursor := next;
    }
    TakenTokens(command, maxArgs, found, cursor);
  }
}
