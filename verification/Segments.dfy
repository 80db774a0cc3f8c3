/** The pointer loops that the command language is built from: trimming a segment into a
    line buffer, substring search, command name matching and the raw argument tail. */
module Segments {
  import opened Text
  import opened Tokenizer

  function TrimLeft(s: Str): Str {
    s[LeadBlanks(s)..]
  }

  function TrimRight(s: Str): (r: Str)
    ensures r <= s && (r != [] ==> !Blank(r[|r| - 1]))
  {
    if s == [] || !Blank(s[|s| - 1]) then s else TrimRight(s[..|s| - 1])
  }

  function Trim(s: Str): Str {
    TrimRight(TrimLeft(s))
  }

  /** What a line buffer receives from a segment of a command. */
  function Segment(s: Str): Str {
    Take(Trim(s), MAX_LINE - 1)
  }

  /** A text that neither starts nor ends with a blank. */
  ghost predicate Trimmed(s: Str) {
    s != [] ==> !Blank(s[0]) && !Blank(s[|s| - 1])
  }

  lemma {:induction false} TrimRightDrops(s: Str, b: Str)
    requires AllBlank(b) && (s != [] ==> !Blank(s[|s| - 1]))
    ensures TrimRight(s + b) == s
    decreases |b|
  {
    if b == [] {
      assert s + b == s;
    } else {
      var t := s + b;
      assert t[|t| - 1] == b[|b| - 1];
      assert t[..|t| - 1] == s + b[..|b| - 1];
      TrimRightDrops(s, b[..|b| - 1]);
    }
  }

  /** Trimming is the unique way to write a text as blanks, a trimmed core and blanks. */
  lemma TrimCore(a: Str, core: Str, b: Str)
    requires AllBlank(a) && AllBlank(b) && Trimmed(core)
    ensures Trim(a + core + b) == core
  {
    var s := a + core + b;
    if core == [] {
      LeadBlanksUnique(s, |s|);
      assert s[|s|..] == [];
    } else {
      assert s[|a|] == core[0];
      LeadBlanksUnique(s, |a|);
      assert s[|a|..] == core + b;
      TrimRightDrops(core, b);
    }
  }

  lemma {:induction false} TrimRightTail(s: Str) returns (b: Str)
    ensures AllBlank(b) && s == TrimRight(s) + b
    decreases |s|
  {
    if s == [] || !Blank(s[|s| - 1]) {
      b := [];
    } else {
      b := TrimRightTail(s[..|s| - 1]);
      b := b + [s[|s| - 1]];
    }
  }

  /** Every text is blanks, its trimmed core, and blanks. */
  lemma TrimParts(s: Str) returns (a: Str, b: Str)
    ensures AllBlank(a) && AllBlank(b) && Trimmed(Trim(s))
    ensures s == a + Trim(s) + b && |a| <= LeadBlanks(s)
    ensures Trim(s) != [] ==> |a| == LeadBlanks(s)
  {
    a := s[..LeadBlanks(s)];
    b := TrimRightTail(TrimLeft(s));
    assert s == a + TrimLeft(s);
    assert Trim(s) != [] ==> Trim(s)[0] == TrimLeft(s)[0];
  }

  /** A line that fits a buffer is only trimmed. */
  lemma TrimIsShorter(s: Str)
    ensures |Trim(s)| <= |s|
    ensures |s| < MAX_LINE ==> Segment(s) == Trim(s)
  {
  }

  ghost predicate IsSubstring(text: Str, needle: Str) {
    exists k :: 0 <= k <= |text| && needle <= text[k..]
  }

  /** The command is exactly this name, or goes on with a space. */
  ghost predicate IsNamed(command: Str, name: Str) {
    name <= command && (|command| == |name| || command[|name|] == SPACE)
  }

  lemma WordIsNamed(word: Str, name: Str)
    requires BlankFree(word)
    ensures IsNamed(word, name) <==> word == name
  {
  }

  /** The raw text behind the first space run; tabs do not count here. */
  function Arguments(command: Str): Str {
    var afterWord := command[IndexOf(command, SPACE)..];
    afterWord[SpaceRun(afterWord)..]
  }

  function SpaceRun(s: Str): (n: nat)
    ensures n <= |s|
    ensures forall i :: 0 <= i < n ==> s[i] == SPACE
    ensures n < |s| ==> s[n] != SPACE
  {
    if s == [] || s[0] != SPACE then 0 else 1 + SpaceRun(s[1..])
  }

  // ----- The loops

  /** Advances to the first `stop` unit, or to the terminator. */
  method FindChar(text: Str, stop: Char16) returns (n: nat)
    requires NulFree(text)
    ensures n == IndexOf(text, stop)
  {
    n := 0;
    while At(text, n) != NUL && At(text, n) != stop
      invariant n <= |text|
      invariant forall i :: 0 <= i < n ==> text[i] != stop
      decreases |text| - n
    {
      n := n + 1;
    }
    IndexOfUnique(text, stop, n);
  }

  method TextEnd(text: Str) returns (n: nat)
    requires NulFree(text)
    ensures n == |text|
  {
    n := 0;
    while At(text, n) != NUL
      invariant n <= |text|
      decreases |text| - n
    {
      n := n + 1;
    }
  }

  /** Copies the trimmed segment `text[first..last]` into a line buffer and terminates it. */
  method CopySegment(destination: array<Char16>, text: Str, first: nat, last: nat)
    requires destination.Length == MAX_LINE
    requires first <= last <= |text| && NulFree(text)
    modifies destination
    ensures Holds(destination[..], 0, Segment(text[first..last]))
  {
    hide Trim, TrimRight;
    var start, end := first, last;
    while start < end && Blank(text[start])
      invariant first <= start <= last
      invariant Trim(text[start..last]) == Trim(text[first..last])
    {
      TrimStep(text, start, last);
      start := start + 1;
    }
    NoLeadingBlank(text, start, last);
    while end > start && Blank(text[end - 1])
      invariant start <= end <= last
      invariant TrimRight(text[start..end]) == TrimRight(text[start..last])
    {
      TrimRightStep(text, start, end);
      end := end - 1;
    }
    TrimRightDone(text, start, end);
    CopyAll(destination, text, start, end);
  }

  /** The bounded copy at the end of the segment copier. */
  method CopyAll(destination: array<Char16>, text: Str, first: nat, end: nat)
    requires destination.Length == MAX_LINE
    requires first <= end <= |text| && NulFree(text)
    modifies destination
    ensures Holds(destination[..], 0, Take(text[first..end], MAX_LINE - 1))
  {
    var start, length := first, 0;
    while start < end && length + 1 < MAX_LINE
      invariant length <= MAX_LINE - 1 && start == first + length <= end
      invariant forall k :: 0 <= k < length ==> destination[k] == text[first + k]
      decreases end - start
    {
      destination[length] := text[start];
      length, start := length + 1, start + 1;
    }
    destination[length] := NUL;
    assert destination[..][0..length] == text[first..start];
  }

  lemma TrimStep(text: Str, start: nat, last: nat)
    requires start < last <= |text| && Blank(text[start])
    ensures Trim(text[start..last]) == Trim(text[start + 1..last])
  {
  }

  lemma TrimRightStep(text: Str, start: nat, end: nat)
    requires start < end <= |text| && Blank(text[end - 1])
    ensures TrimRight(text[start..end]) == TrimRight(text[start..end - 1])
  {
    assert text[start..end][..end - start - 1] == text[start..end - 1];
  }

  lemma TrimRightDone(text: Str, start: nat, end: nat)
    requires start <= end <= |text| && (start < end ==> !Blank(text[end - 1]))
    ensures TrimRight(text[start..end]) == text[start..end]
  {
  }

  lemma NoLeadingBlank(text: Str, start: nat, last: nat)
    requires start <= last <= |text| && (start < last ==> !Blank(text[start]))
    ensures Trim(text[start..last]) == TrimRight(text[start..last])
  {
  }

  method Contains(text: Str, needle: Str) returns (found: bool)
    requires NulFree(text) && NulFree(needle)
    ensures found <==> IsSubstring(text, needle)
  {
    if At(needle, 0) == NUL {
      assert needle <= text[0..];
      return true;
    }
    var start := 0;
    while At(text, start) != NUL
      invariant start <= |text|
      invariant forall k :: 0 <= k < start ==> !(needle <= text[k..])
      decreases |text| - start
    {
      var a, b := start, 0;
      while At(text, a) != NUL && At(needle, b) != NUL && At(text, a) == At(needle, b)
        invariant b <= |needle| && a == start + b <= |text|
        invariant forall k :: 0 <= k < b ==> text[start + k] == needle[k]
        decreases |text| - a
      {
        a, b := a + 1, b + 1;
      }
      if At(needle, b) == NUL {
        assert needle <= text[start..];
        return true;
      }
      assert needle <= text[start..] ==> text[start..][b] == needle[b];
      start := start + 1;
    }
    return false;
  }

  method MatchCommand(command: Str, name: Str) returns (matches: bool)
    requires NulFree(command) && NulFree(name)
    ensures matches <==> IsNamed(command, name)
    ensures matches <==> name <= command && (command == name || command[|name|] == 32)
  {
    var i := 0;
    while At(command, i) != NUL && At(name, i) != NUL && At(command, i) == At(name, i)
      invariant i <= |command| && i <= |name|
      invariant command[..i] == name[..i]
      decreases |command| - i
    {
      i := i + 1;
    }
    matches := At(name, i) == NUL && (At(command, i) == NUL || At(command, i) == SPACE);
  }

  method CommandArgs(command: Str) returns (start: nat)
    requires NulFree(command)
    ensures start <= |command| && command[start..] == Arguments(command)
  {
    start := FindChar(command, SPACE);
    ghost var afterWord := command[start..];
    while At(command, start) == SPACE
      invariant IndexOf(command, SPACE) <= start <= |command|
      invariant forall k :: IndexOf(command, SPACE) <= k < start ==> command[k] == SPACE
      decreases |command| - start
    {
      start := start + 1;
    }
    assert SpaceRun(afterWord) == start - IndexOf(command, SPACE);
  }
}
