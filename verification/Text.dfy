/** The character data of the terminal: 16-bit units, bytes, and C strings.

    A C string argument is modelled by the sequence of units before its terminator; reading
    one past the end yields that terminator, as `At` says. */
module Text {

  type Char16 = c: int | 0 <= c < 0x1_0000
  type Byte = b: int | 0 <= b < 0x100
  type Str = seq<Char16>

  const NUL: Char16 := 0
  const BACKSPACE: Char16 := 8
  const TAB: Char16 := 9
  const LF: Char16 := 10
  const CR: Char16 := 13
  const SPACE: Char16 := 32
  const AMPERSAND: Char16 := 38
  const COLON: Char16 := 58
  const BAR: Char16 := 124

  /** The size of every line buffer of the terminal, terminator included. */
  const MAX_LINE: nat := 128

  const NEWLINE: Str := [CR, LF]

  /** The units of an ASCII literal. */
  function Lit(s: string): (r: Str)
    requires forall i :: 0 <= i < |s| ==> 0 < s[i] as int < 128
    ensures |r| == |s|
    ensures forall i :: 0 <= i < |s| ==> r[i] == s[i] as int
  {
    seq(|s|, i requires 0 <= i < |s| => s[i] as int)
  }

  ghost predicate NulFree(s: Str) {
    forall i :: 0 <= i < |s| ==> s[i] != NUL
  }

  /** Dereferencing a pointer `i` units into a C string. */
  function At(s: Str, i: nat): Char16
    requires i <= |s|
  {
    if i < |s| then s[i] else NUL
  }

  predicate Blank(c: Char16) {
    c == SPACE || c == TAB
  }

  /** The cast to a byte that the file writer makes. */
  function Low(c: Char16): Byte {
    c % 0x100
  }

  /** Only spaces and tabs. */
  ghost predicate AllBlank(s: Str) {
    forall i :: 0 <= i < |s| ==> s[i] == 32 || s[i] == 9
  }

  /** Neither spaces nor tabs. */
  ghost predicate BlankFree(s: Str) {
    forall i :: 0 <= i < |s| ==> s[i] != 32 && s[i] != 9
  }

  function Min(a: nat, b: nat): nat {
    if a < b then a else b
  }

  /** The first `n` elements, or all of them if there are fewer. */
  function Take<T>(s: seq<T>, n: nat): seq<T> {
    s[..Min(n, |s|)]
  }

  /** How far `c` is into `s`, or the length of `s` if it does not occur. */
  function IndexOf(s: Str, c: Char16): (n: nat)
    ensures n <= |s|
    ensures forall i :: 0 <= i < n ==> s[i] != c
    ensures n < |s| ==> s[n] == c
  {
    if s == [] || s[0] == c then 0 else 1 + IndexOf(s[1..], c)
  }

  /** The C string that starts at the front of a buffer. */
  function UpToNul(buffer: Str): Str {
    buffer[..IndexOf(buffer, NUL)]
  }

  lemma IndexOfUnique(s: Str, c: Char16, n: nat)
    requires n <= |s|
    requires forall i :: 0 <= i < n ==> s[i] != c
    requires n < |s| ==> s[n] == c
    ensures IndexOf(s, c) == n
  {
  }

  /** A C string held in a buffer: the word, then its terminator. */
  ghost predicate Holds(buffer: Str, offset: nat, word: Str) {
    && offset + |word| < |buffer|
    && buffer[offset..offset + |word|] == word
    && NulFree(word)
    && buffer[offset + |word|] == NUL
  }

  /** Reading the buffer at the offset gives back the word it holds. */
  lemma HeldWordIsRead(buffer: Str, offset: nat, word: Str)
    requires Holds(buffer, offset, word)
    ensures UpToNul(buffer[offset..]) == word
  {
  }

  /** The words with one space between neighbours. */
  function Join(words: seq<Str>): Str {
    if words == [] then [] else if |words| == 1 then words[0]
    else words[0] + [SPACE] + Join(words[1..])
  }
}
