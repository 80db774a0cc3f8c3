/** Bytes moving between files and the terminal: what `write` and `append` store,
    what `cat` shows, and the bounded loops behind them. */
module Files {
  import opened Text
  import opened Tokenizer

  /** `cat` reads this many bytes at a time. */
  const CAT_CHUNK: nat := 120

  /** `source` reads at most this many bytes. */
  const SCRIPT_LIMIT: nat := 4095

  function Bytes(s: Str): seq<Byte> {
    seq(|s|, i requires 0 <= i < |s| => Low(s[i]))
  }

  function Units(b: seq<Byte>): Str {
    seq(|b|, i requires 0 <= i < |b| => b[i])
  }

  /** Writing `data` at a position keeps what lies behind it: nothing is truncated. */
  function Overlay(content: seq<Byte>, position: nat, data: seq<Byte>): seq<Byte>
    requires position <= |content|
  {
    content[..position] + data + content[Min(position + |data|, |content|)..]
  }

  /** The bytes stored for these words: one line, cut to fit the 128-byte buffer. */
  function Payload(ws: seq<Str>): seq<Byte> {
    Take(Bytes(Join(ws)), MAX_LINE - 2) + [LF]
  }

  /** What `cat` shows: each chunk is handed over as a C string. */
  function CatText(content: seq<Byte>): Str {
    if |content| < CAT_CHUNK then UpToNul(Units(content))
    else UpToNul(Units(content[..CAT_CHUNK])) + CatText(content[CAT_CHUNK..])
  }

  lemma UpToNulLength(s: Str)
    ensures |UpToNul(s)| == |s| <==> NulFree(s)
    ensures NulFree(s) ==> UpToNul(s) == s
  {
  }

  lemma {:induction false} CatLength(content: seq<Byte>)
    ensures |CatText(content)| <= |content|
    ensures |CatText(content)| == |content| <==> NulFree(Units(content))
    ensures NulFree(Units(content)) ==> CatText(content) == Units(content)
    decreases |content|
  {
    if |content| < CAT_CHUNK {
      UpToNulLength(Units(content));
    } else {
      var head, tail := content[..CAT_CHUNK], content[CAT_CHUNK..];
      UpToNulLength(Units(head));
      CatLength(tail);
      assert Units(content) == Units(head) + Units(tail);
      NulFreeParts(Units(head), Units(tail));
    }
  }

  lemma NulFreeParts(a: Str, b: Str)
    ensures NulFree(a + b) <==> NulFree(a) && NulFree(b)
  {
    if NulFree(a + b) {
      assert forall i :: 0 <= i < |a| ==> a[i] == (a + b)[i];
      assert forall i :: 0 <= i < |b| ==> b[i] == (a + b)[|a| + i];
    }
  }

  /** `cat` shows exactly the bytes of a file, whatever its length, just when none of them is
      a NUL; otherwise it shows strictly less. */
  lemma {:induction false} CatIsExact(content: seq<Byte>)
    ensures CatText(content) == Units(content) <==> NulFree(Units(content))
    ensures !NulFree(Units(content)) ==> |CatText(content)| < |content|
  {
    CatLength(content);
  }

  function Flat(chunks: seq<seq<Byte>>): seq<Byte> {
    if chunks == [] then [] else chunks[0] + Flat(chunks[1..])
  }

  /** The C strings at the front of some chunks. */
  function Fronts(chunks: seq<seq<Byte>>): Str {
    if chunks == [] then [] else UpToNul(Units(chunks[0])) + Fronts(chunks[1..])
  }

  /** For any file, NULs or not: cut into pieces of 120 bytes and a shorter one at the end, `cat`
      shows each piece up to its first NUL. */
  lemma {:induction false} CatByChunks(chunks: seq<seq<Byte>>, last: seq<Byte>)
    requires (forall i :: 0 <= i < |chunks| ==> |chunks[i]| == 120) && |last| < 120
    ensures CatText(Flat(chunks) + last) == Fronts(chunks) + UpToNul(Units(last))
    decreases |chunks|
  {
    hide UpToNul, Units;
    if chunks == [] {
      assert Flat(chunks) + last == last && Fronts(chunks) == [];
    } else {
      var head, rest := chunks[0], Flat(chunks[1..]) + last;
      CatByChunks(chunks[1..], last);
      assert Flat(chunks) + last == head + rest;
      assert (head + rest)[..120] == head && (head + rest)[120..] == rest;
      var front, tail := UpToNul(Units(head)), Fronts(chunks[1..]);
      assert front + (tail + UpToNul(Units(last))) == front + tail + UpToNul(Units(last));
    }
  }

  /** What is stored, byte by byte: the low bytes of the joined words as far as 126 go, then a line
      feed. */
  lemma PayloadBytes(ws: seq<Str>)
    ensures var text, payload := Join(ws), Payload(ws);
            && |payload| == (if |text| <= 126 then |text| else 126) + 1 && payload[|payload| - 1] == 10
            && forall i :: 0 <= i < |payload| - 1 ==> payload[i] == text[i] % 256
  {
    hide Join;
  }

  // ----- The bounded writer

  lemma {:induction false} JoinOneMore(ws: seq<Str>, w: Str)
    ensures Join(ws + [w]) == if ws == [] then w else Join(ws) + [SPACE] + w
  {
    if ws == [] {
      assert ws + [w] == [w];
    } else if |ws| == 1 {
      assert (ws + [w])[1..] == [w];
    } else {
      assert (ws + [w])[1..] == ws[1..] + [w];
      JoinOneMore(ws[1..], w);
    }
  }

  /** The text of the first `i` words, with the space that separates them from the next. */
  function Opening(ws: seq<Str>, i: nat): Str
    requires i <= |ws|
  {
    if i == 0 then [] else Join(ws[..i]) + [SPACE]
  }

  lemma NothingJoined()
    ensures Join([]) == []
  {
  }

  lemma OpeningExtends(ws: seq<Str>, i: nat)
    requires i < |ws|
    ensures Join(ws[..i + 1]) == Opening(ws, i) + ws[i]
  {
    assert ws[..i + 1] == ws[..i] + [ws[i]];
    JoinOneMore(ws[..i], ws[i]);
  }

  lemma {:induction false} JoinOfPrefix(ws: seq<Str>, i: nat)
    requires i <= |ws|
    ensures Join(ws[..i]) <= Join(ws)
    decreases |ws| - i
  {
    if i == |ws| {
      assert ws[..i] == ws;
    } else {
      OpeningExtends(ws, i);
      JoinOfPrefix(ws, i + 1);
    }
  }

  ghost predicate Written(bytes: seq<Byte>, count: nat, text: Str) {
    && count == Min(|text|, MAX_LINE - 2)
    && count <= |bytes|
    && forall k :: 0 <= k < count ==> bytes[k] == Low(text[k])
  }

  /** Appends one word at `base`, as far as the buffer allows. */
  method PutWord(line: array<Char16>, offset: nat, ghost w: Str, bytes: array<Byte>, first: nat, ghost base: Str)
    returns (count: nat)
    requires line.Length == bytes.Length == MAX_LINE
    requires Holds(line[..], offset, w)
    requires |base| == first <= MAX_LINE - 2 && Written(bytes[..], first, base)
    modifies bytes
    ensures Written(bytes[..], count, base + w)
  {
    count := first;
    var j := 0;
    while line[offset + j] != NUL && count + 2 < MAX_LINE
      invariant j <= |w| && count == first + j <= MAX_LINE - 2
      invariant forall k :: 0 <= k < count ==> bytes[k] == Low((base + w)[k])
      invariant offset + |w| < line.Length && line[offset + |w|] == NUL
      invariant forall k :: 0 <= k < |w| ==> line[offset + k] == w[k] && w[k] != NUL
      decreases MAX_LINE - count
    {
      bytes[count] := Low(line[offset + j]);
      count, j := count + 1, j + 1;
    }
  }

  /** One round of the writer: the separating space and the word. */
  method PutNext(line: array<Char16>, argv: seq<nat>, ghost words: seq<Str>, start: nat, i: nat, bytes: array<Byte>,
                 first: nat)
    returns (count: nat)
    requires line.Length == bytes.Length == MAX_LINE && Headed(line[..], argv, words, MAX_LINE)
    requires start <= i < |argv| && first + 2 < MAX_LINE
    requires Written(bytes[..], first, Join(words[start..i]))
    modifies bytes
    ensures Written(bytes[..], count, Join(words[start..i + 1]))
  {
    hide Join;
    NothingJoined();
    ghost var ws := words[start..];
    ghost var base := Opening(ws, i - start);
    assert ws[..i - start] == words[start..i] && ws[..i + 1 - start] == words[start..i + 1];
    count := first;
    if i > start {
      bytes[count] := SPACE;
      count := count + 1;
    }
    OpeningExtends(ws, i - start);
    count := PutWord(line, argv[i], words[i], bytes, count, base);
  }

  /** When the writer stops, the buffer holds the payload but for its line feed. */
  lemma WriterDone(ws: seq<Str>, i: nat, bytes: seq<Byte>, count: nat)
    requires i <= |ws| && Written(bytes, count, Join(ws[..i]))
    requires i == |ws| || count + 2 >= MAX_LINE
    ensures bytes[..count] + [LF] == Payload(ws)
  {
    JoinOfPrefix(ws, i);
    assert i == |ws| ==> ws[..i] == ws;
    assert bytes[..count] == Take(Bytes(Join(ws)), MAX_LINE - 2);
  }

  /** Builds the line that `write` and `append` store, from pointers into the line buffer.
      The buffer of 128 bytes is never overrun. */
  method BuildPayload(line: array<Char16>, argv: seq<nat>, ghost words: seq<Str>, start: nat)
    returns (payload: seq<Byte>)
    requires line.Length == MAX_LINE && Headed(line[..], argv, words, MAX_LINE)
    requires start <= |argv|
    ensures payload == Payload(words[start..]) && |payload| <= MAX_LINE - 1
  {
    var bytes := new Byte[MAX_LINE];
    var count: nat, i: nat := 0, start;
    while i < |argv| && count + 2 < MAX_LINE
      invariant start <= i <= |argv|
      invariant Written(bytes[..], count, Join(words[start..i]))
    {
      count := PutNext(line, argv, words, start, i, bytes, count);
      i := i + 1;
    }
    assert words[start..][..i - start] == words[start..i];
    WriterDone(words[start..], i - start, bytes[..], count);
    ghost var text := bytes[..count];
    bytes[count] := LF;
    assert bytes[..count] == text;
    payload := bytes[..count + 1];
  }

  /** Copies a chunk of bytes into a wider text buffer and terminates it. */
  method Widen(chunk: seq<Byte>) returns (text: seq<Char16>)
    requires |chunk| <= CAT_CHUNK
    ensures |text| == CAT_CHUNK + 1 && UpToNul(text) == UpToNul(Units(chunk))
  {
    var buffer := new Char16[CAT_CHUNK + 1];
    for i := 0 to |chunk|
      invariant forall k :: 0 <= k < i ==> buffer[k] == chunk[k]
    {
      buffer[i] := chunk[i];
    }
    buffer[|chunk|] := NUL;
    text := buffer[..];
    ghost var n := IndexOf(Units(chunk), NUL);
    assert forall k :: 0 <= k < |chunk| ==> text[k] == Units(chunk)[k];
    IndexOfUnique(text, NUL, n);
    assert text[..n] == Units(chunk)[..n];
  }
}
