/** The keyboard line editor, as a bounded stack over the key stream, and what it leaves visible
    on a display line. */
module LineEditor {
  import opened Text

  /** A line being typed, and everything written to the screen meanwhile. */
  datatype Editor = Editor(buffer: Str, output: Str)

  const ERASE: Str := [BACKSPACE, SPACE, BACKSPACE]

  /** Whether one more unit fits in front of the terminator. */
  predicate HasRoom(buffer: Str, maxLength: nat) {
    |buffer| + 1 < maxLength
  }

  /** One key other than Enter. Keys without a character carry 0. */
  function Press(e: Editor, key: Char16, maxLength: nat, echo: bool): Editor {
    if key == NUL then e
    else if key == BACKSPACE then
      if e.buffer == [] then e else Editor(e.buffer[..|e.buffer| - 1], e.output + ERASE)
    else if !HasRoom(e.buffer, maxLength) then e
    else Editor(e.buffer + [key], if echo then e.output + [key] else e.output)
  }

  /** The keys of a line, pressed one after the other. */
  function Type(e: Editor, keys: Str, maxLength: nat, echo: bool): Editor
    decreases |keys|
  {
    if keys == [] then e else Type(Press(e, keys[0], maxLength, echo), keys[1..], maxLength, echo)
  }

  class Console {
    var keys: Str
    var screen: Str
    var echoEnabled: bool

    /** Reads keys up to Enter. The line buffer then holds exactly the folded keys, terminated,
        and exactly these keys are gone from the stream. */
    method ReadLine(line: array<Char16>, maxLength: nat) returns (length: nat)
      requires 0 < maxLength <= line.Length
      requires IndexOf(keys, CR) < |keys|
      modifies this, line
      ensures var typed := Type(Editor([], old(screen)), old(keys)[..IndexOf(old(keys), CR)], maxLength, echoEnabled);
              && length == |typed.buffer| < maxLength
              && line[..length] == typed.buffer && line[length] == NUL
              && screen == typed.output + [13, 10]
      ensures keys == old(keys)[IndexOf(old(keys), CR) + 1..] && echoEnabled == old(echoEnabled)
    {
      length := 0;
      ghost var goal := Type(Editor([], screen), keys[..IndexOf(keys, CR)], maxLength, echoEnabled);
      while true
        invariant length < maxLength && IndexOf(keys, CR) < |keys|
        invariant Type(Editor(line[..length], screen), keys[..IndexOf(keys, CR)], maxLength, echoEnabled) == goal
        invariant keys[IndexOf(keys, CR)..] == old(keys)[IndexOf(old(keys), CR)..]
        invariant echoEnabled == old(echoEnabled)
        decreases |keys|
      {
        ghost var before := keys;
        FirstKey(before);
        var key := keys[0];
        keys := keys[1..];
        if key == NUL {
          continue;
        }
        if key == CR {
          screen := screen + NEWLINE;
          line[length] := NUL;
          return;
        }
        ghost var typed := line[..length];
        if key == BACKSPACE {
          if length > 0 {
            length := length - 1;
            line[length] := NUL;
            screen := screen + ERASE;
            assert line[..length] == typed[..length];
          }
          continue;
        }
        if length + 1 >= maxLength {
          continue;
        }
        if echoEnabled {
          screen := screen + [key];
        }
        line[length] := key;
        length := length + 1;
        assert line[..length] == typed + [key];
      }
    }
  }

  lemma FirstKey(keys: Str)
    requires IndexOf(keys, CR) < |keys|
    ensures keys[0] == CR <==> IndexOf(keys, CR) == 0
    ensures keys[0] == CR ==> keys[..IndexOf(keys, CR)] == [] && keys[IndexOf(keys, CR) + 1..] == keys[1..]
    ensures keys[0] != CR ==>
              && IndexOf(keys[1..], CR) < |keys[1..]|
              && keys[..IndexOf(keys, CR)] == [keys[0]] + keys[1..][..IndexOf(keys[1..], CR)]
              && keys[IndexOf(keys, CR)..] == keys[1..][IndexOf(keys[1..], CR)..]
  {
  }

  // ----- Laws of the stack

  lemma {:induction false} TypeInParts(e: Editor, a: Str, b: Str, maxLength: nat, echo: bool)
    ensures Type(e, a + b, maxLength, echo) == Type(Type(e, a, maxLength, echo), b, maxLength, echo)
    decreases |a|
  {
    if a == [] {
      assert a + b == b;
    } else {
      assert (a + b)[1..] == a[1..] + b;
      TypeInParts(Press(e, a[0], maxLength, echo), a[1..], b, maxLength, echo);
    }
  }

  /** The last of some keys acts on what the others have left. */
  lemma LastKey(e: Editor, keys: Str, key: Char16, maxLength: nat, echo: bool)
    ensures Type(e, keys + [key], maxLength, echo) == Press(Type(e, keys, maxLength, echo), key, maxLength, echo)
  {
    var before := Type(e, keys, maxLength, echo);
    TypeInParts(e, keys, [key], maxLength, echo);
    assert [key][1..] == [];
    assert Type(before, [key], maxLength, echo) == Type(Press(before, key, maxLength, echo), [], maxLength, echo);
  }

  /** A key without a character can be left out anywhere: it neither edits nor shows anything. */
  lemma KeyWithoutCharacter(e: Editor, a: Str, b: Str, maxLength: nat, echo: bool)
    ensures Type(e, a + [NUL] + b, maxLength, echo) == Type(e, a + b, maxLength, echo)
  {
    TypeInParts(e, a + [NUL], b, maxLength, echo);
    TypeInParts(e, a, b, maxLength, echo);
    LastKey(e, a, NUL, maxLength, echo);
  }

  /** After any keys, one more does one of three things to the line: a backspace takes the last unit
      of the buffer, if there is one, and erases a cell; a character is added while the buffer and
      its terminator leave room for it, and shown if echo is on; anything else is as if it had not
      been pressed. */
  lemma OneMoreKey(e: Editor, keys: Str, key: Char16, maxLength: nat, echo: bool)
    ensures var before := Type(e, keys, maxLength, echo); var after := Type(e, keys + [key], maxLength, echo);
            && (key == 8 && before.buffer != [] ==>
                  && before.buffer == after.buffer + [before.buffer[|before.buffer| - 1]]
                  && after.output == before.output + [8, 32, 8])
            && (key != 0 && key != 8 && |before.buffer| + 2 <= maxLength ==>
                  && after.buffer == before.buffer + [key]
                  && after.output == before.output + if echo then [key] else [])
            && (key == 0 || (key == 8 && before.buffer == []) || (key != 8 && |before.buffer| + 2 > maxLength) ==>
                  after == before)
  {
    LastKey(e, keys, key, maxLength, echo);
  }

  /** A line always fits its buffer, and never contains a terminator or a backspace. */
  lemma {:induction false} TypedFits(e: Editor, keys: Str, maxLength: nat, echo: bool)
    requires |e.buffer| < maxLength && NulFree(e.buffer) && BACKSPACE !in e.buffer
    ensures var buffer := Type(e, keys, maxLength, echo).buffer;
            |buffer| < maxLength && NulFree(buffer) && BACKSPACE !in buffer
    decreases |keys|
  {
    if keys != [] {
      TypedFits(Press(e, keys[0], maxLength, echo), keys[1..], maxLength, echo);
    }
  }

  /** A key and a backspace cancel, wherever they are typed, unless the line was full and not
      empty: then the backspace takes away an earlier key. */
  lemma BackspaceCancels(before: Str, key: Char16, maxLength: nat, echo: bool)
    requires key != NUL && key != BACKSPACE && maxLength > 0
    ensures var buffer := Type(Editor([], []), before, maxLength, echo).buffer;
            (Type(Editor([], []), before + [key, BACKSPACE], maxLength, echo).buffer == buffer)
            <==> (HasRoom(buffer, maxLength) || buffer == [])
  {
    var e := Type(Editor([], []), before, maxLength, echo);
    TypeInParts(Editor([], []), before, [key, BACKSPACE], maxLength, echo);
    var pressed := Press(e, key, maxLength, echo);
    assert [key, BACKSPACE][1..] == [BACKSPACE];
    var popped := Press(pressed, BACKSPACE, maxLength, echo);
    assert Type(popped, [], maxLength, echo) == popped;
    assert Type(pressed, [BACKSPACE], maxLength, echo) == popped;
    assert Type(e, [key, BACKSPACE], maxLength, echo) == popped;
    assert (e.buffer + [key])[..|e.buffer|] == e.buffer;
  }

  // ----- What is visible

  /** One display line: its cells, and the column of the cursor. */
  datatype Display = Display(cells: Str, cursor: nat)

  /** Showing one unit: a backspace moves left, anything else is put at the cursor. */
  function ShowUnit(d: Display, c: Char16): Display
    requires d.cursor <= |d.cells|
  {
    if c == BACKSPACE then Display(d.cells, if d.cursor > 0 then d.cursor - 1 else 0)
    else Display(d.cells[..d.cursor] + [c] + d.cells[Min(d.cursor + 1, |d.cells|)..], d.cursor + 1)
  }

  function Show(d: Display, text: Str): (r: Display)
    requires d.cursor <= |d.cells|
    ensures r.cursor <= |r.cells|
    decreases |text|
  {
    if text == [] then d else Show(ShowUnit(d, text[0]), text[1..])
  }

  /** The line shows `text` up to the cursor, and nothing behind it. */
  ghost predicate Shows(d: Display, text: Str) {
    && d.cursor == |text| <= |d.cells|
    && d.cells[..d.cursor] == text
    && forall i :: d.cursor <= i < |d.cells| ==> d.cells[i] == SPACE
  }

  lemma {:induction false} ShowInParts(d: Display, a: Str, b: Str)
    requires d.cursor <= |d.cells|
    ensures Show(d, a + b) == Show(Show(d, a), b)
    decreases |a|
  {
    if a == [] {
      assert a + b == b;
    } else {
      assert (a + b)[1..] == a[1..] + b;
      ShowInParts(ShowUnit(d, a[0]), a[1..], b);
    }
  }

  lemma ShowKey(d: Display, text: Str, key: Char16)
    requires Shows(d, text) && key != BACKSPACE
    ensures Shows(Show(d, [key]), text + [key])
  {
  }

  /** Erasing takes the last visible unit away; in the first column it changes nothing. */
  lemma ShowErase(d: Display, text: Str)
    requires Shows(d, text)
    ensures Shows(Show(d, ERASE), if text == [] then [] else text[..|text| - 1])
  {
    var d1 := ShowUnit(d, BACKSPACE);
    var d2 := ShowUnit(d1, SPACE);
    assert ERASE[1..] == [SPACE, BACKSPACE] && ERASE[1..][1..] == [BACKSPACE];
    assert Show(d, ERASE) == Show(d1, ERASE[1..]) == Show(d2, [BACKSPACE]) == ShowUnit(d2, BACKSPACE);
  }

  /** A key that shows as itself, a backspace, or no character. */
  predicate Typeable(key: Char16) {
    key == NUL || key == BACKSPACE || key >= SPACE
  }

  /** With echo on, the display line shows the prompt and exactly the buffer after every key. */
  lemma {:induction false} VisibleIsBuffer(d: Display, prompt: Str, e: Editor, keys: Str, maxLength: nat)
    requires d.cursor <= |d.cells| && Shows(Show(d, e.output), prompt + e.buffer)
    requires forall i :: 0 <= i < |keys| ==> Typeable(keys[i])
    ensures var typed := Type(e, keys, maxLength, true);
            Shows(Show(d, typed.output), prompt + typed.buffer)
    decreases |keys|
  {
    if keys != [] {
      var next := Press(e, keys[0], maxLength, true);
      VisiblePress(d, prompt, e, keys[0], maxLength);
      VisibleIsBuffer(d, prompt, next, keys[1..], maxLength);
    }
  }

  lemma {:induction false} VisiblePress(d: Display, prompt: Str, e: Editor, key: Char16, maxLength: nat)
    requires d.cursor <= |d.cells| && Shows(Show(d, e.output), prompt + e.buffer)
    requires Typeable(key)
    ensures var next := Press(e, key, maxLength, true); Shows(Show(d, next.output), prompt + next.buffer)
  {
    hide Show;
    var text := prompt + e.buffer;
    if key == BACKSPACE && e.buffer != [] {
      ShowInParts(d, e.output, ERASE);
      ShowErase(Show(d, e.output), text);
      assert text[..|text| - 1] == prompt + e.buffer[..|e.buffer| - 1];
    } else if key != NUL && key != BACKSPACE && HasRoom(e.buffer, maxLength) {
      ShowInParts(d, e.output, [key]);
      ShowKey(Show(d, e.output), text, key);
      assert text + [key] == prompt + (e.buffer + [key]);
    }
  }

  /** How many backspaces of a line take a key away. */
  function Pops(e: Editor, keys: Str, maxLength: nat): nat
    decreases |keys|
  {
    if keys == [] then 0 else
      var first := if keys[0] == BACKSPACE && e.buffer != [] then 1 else 0;
      first + Pops(Press(e, keys[0], maxLength, false), keys[1..], maxLength)
  }

  function Shortened(text: Str, n: nat): Str {
    text[..if n <= |text| then |text| - n else 0]
  }

  /** With echo off nothing typed is shown, but each backspace that takes a key away also erases
      one unit of the prompt. */
  lemma {:induction false} HiddenErasesPrompt(d: Display, prompt: Str, e: Editor, keys: Str, maxLength: nat)
    requires d.cursor <= |d.cells| && Shows(Show(d, e.output), prompt)
    ensures Shows(Show(d, Type(e, keys, maxLength, false).output), Shortened(prompt, Pops(e, keys, maxLength)))
    decreases |keys|
  {
    if keys == [] {
      assert Shortened(prompt, 0) == prompt;
    } else {
      var next := Press(e, keys[0], maxLength, false);
      if keys[0] == BACKSPACE && e.buffer != [] {
        ShowInParts(d, e.output, ERASE);
        ShowErase(Show(d, e.output), prompt);
        var shorter := if prompt == [] then [] else prompt[..|prompt| - 1];
        HiddenErasesPrompt(d, shorter, next, keys[1..], maxLength);
        var n := Pops(next, keys[1..], maxLength);
        assert Shortened(shorter, n) == Shortened(prompt, n + 1);
      } else {
        HiddenErasesPrompt(d, prompt, next, keys[1..], maxLength);
      }
    }
  }

  /** A password prompt stays as it is exactly when no backspace takes a key away. */
  lemma HiddenKeepsPrompt(d: Display, prompt: Str, keys: Str, maxLength: nat)
    requires d.cursor <= |d.cells| && Shows(d, prompt) && prompt != []
    ensures Shows(Show(d, Type(Editor([], []), keys, maxLength, false).output), prompt)
       <==> Pops(Editor([], []), keys, maxLength) == 0
  {
    HiddenErasesPrompt(d, prompt, Editor([], []), keys, maxLength);
    assert Shortened(prompt, 0) == prompt;
  }
}
