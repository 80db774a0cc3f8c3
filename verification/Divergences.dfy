/** Where the code does something else than one would expect: for each such place a concrete input
    that reaches it. The conditions in the main results are therefore conditions that do fail. */
module Divergences {
  import opened Text
  import opened Tokenizer
  import opened Segments
  import opened Scripts
  import opened Files
  import opened Semantics
  import opened RoundTrips
  import opened Trimming
  import opened Termination
  import opened LineEditor
  import opened Commands
  import Accounts

  const X: Str := Lit("x")
  const A: Str := Lit("a")
  const B: Str := Lit("b")
  const REM: Str := Lit("rem")
  const CD: Str := Lit("cd")
  const WRITE: Str := Lit("write")

  // ----- Lines made of plain words

  ghost predicate PlainWords(ws: seq<Str>) {
    && AreWords(ws) && 0 < |ws| <= MAX_ARGS && |Join(ws)| <= MAX_LINE - 1
    && forall i :: 0 <= i < |ws| ==> NUL !in ws[i] && AMPERSAND !in ws[i] && BAR !in ws[i]
  }

  lemma {:induction false} JoinHasNone(ws: seq<Str>, c: Char16)
    requires c != SPACE && forall i :: 0 <= i < |ws| ==> c !in ws[i]
    ensures c !in Join(ws)
  {
    if |ws| > 1 {
      JoinHasNone(ws[1..], c);
    }
  }

  lemma PlainLine(ws: seq<Str>)
    requires PlainWords(ws)
    ensures Tokens(Join(ws), MAX_ARGS) == ws && NulFree(Join(ws))
    ensures !HasUnit(Join(ws), AMPERSAND) && !HasUnit(Join(ws), BAR)
  {
    JoinRoundTrip(ws, MAX_ARGS);
    JoinHasNone(ws, NUL);
    JoinHasNone(ws, AMPERSAND);
    JoinHasNone(ws, BAR);
  }

  lemma JoinTwo(a: Str, b: Str)
    ensures Join([a, b]) == a + [SPACE] + b
  {
    assert [a, b][1..] == [b];
  }

  lemma JoinThree(a: Str, b: Str, c: Str)
    ensures Join([a, b, c]) == a + [SPACE] + b + [SPACE] + c
  {
    JoinTwo(b, c);
    assert [a, b, c][1..] == [b, c];
    assert a + [SPACE] + (b + [SPACE] + c) == a + [SPACE] + b + [SPACE] + c;
  }

  // ----- Blanks around a line

  lemma TrimPlain(a: Str, core: Str)
    requires AllBlank(a) && Trimmed(core)
    ensures Trim(a + core) == core
  {
    TrimCore(a, core, []);
    assert a + core + [] == a + core;
  }

  lemma BlanksBeforePlain(a: Str, ws: seq<Str>)
    requires AllBlank(a) && PlainWords(ws) && |a| + |Join(ws)| <= MAX_LINE - 1 && Trimmed(Join(ws))
    ensures Tokens(a + Join(ws), MAX_ARGS) == ws && Trim(a + Join(ws)) == Join(ws)
    ensures !HasUnit(a + Join(ws), AMPERSAND) && !HasUnit(a + Join(ws), BAR)
  {
    hide Tokens, Trim, IndexOf, Join;
    PlainLine(ws);
    TrimPlain(a, Join(ws));
    TrimmedTokens(a + Join(ws));
    BlanksHaveNone(a, AMPERSAND);
    BlanksHaveNone(a, BAR);
    NoneInConcat(a, Join(ws), AMPERSAND);
    NoneInConcat(a, Join(ws), BAR);
  }

  /** `system x` shows its argument; with a space in front it shows the whole command. */
  lemma SpaceBeforeSystem(env: Env, w: World, depth: nat)
    ensures var line := Join([SYSTEM, X]);
            && Trim([SPACE] + line) == line
            && Run(env, w, line, depth) == Done(PutLine(w, X), 0)
            && Run(env, w, [SPACE] + line, depth) == Done(PutLine(w, line), 0)
  {
    hide Tokens, NameOf, Trim, IndexOf, Run, Arguments;
    var line := Join([SYSTEM, X]);
    JoinTwo(SYSTEM, X);
    PlainLine([SYSTEM, X]);
    BlanksBeforePlain([SPACE], [SYSTEM, X]);
    assert [SYSTEM] + [X] == [SYSTEM, X] && [] + [SPACE] + line == [SPACE] + line;
    SystemShows(env, w, line, [X], SYSTEM, [SPACE], X, depth);
    SystemShows(env, w, [SPACE] + line, [X], [], [SPACE], line, depth);
  }

  lemma EchoX()
    ensures PlainWords([ECHO, X]) && Trimmed(Join([ECHO, X])) && |Join([ECHO, X])| == 6
    ensures Join([ECHO, X])[5..] == X && Trimmed(X) && IsSubstring(X, X)
  {
    JoinTwo(ECHO, X);
    assert X <= X[0..];
  }

  lemma GrepX()
    ensures PlainWords([GREP, X]) && Trimmed(Join([GREP, X])) && |Join([GREP, X])| == 6
    ensures Join([GREP, X])[5] == X[0]
  {
    JoinTwo(GREP, X);
  }

  lemma SpoiledX()
    ensures var spoiled := Join([Lit("o"), X]);
            ([SPACE, SPACE] + Join([ECHO, X]))[5..] == spoiled && Trimmed(spoiled) && IsSubstring(spoiled, X)
  {
    JoinTwo(ECHO, X);
    JoinTwo(Lit("o"), X);
    var spoiled := Join([Lit("o"), X]);
    assert X <= spoiled[2..];
  }

  /** With two blanks in front, `echo x|grep x` shows a unit of the word `echo` as well. */
  lemma BlanksBeforePipeline(env: Env, w: World, depth: nat)
    ensures var line := Join([ECHO, X]) + [BAR] + Join([GREP, X]);
            && Trim([SPACE, SPACE] + line) == line
            && Run(env, w, line, depth) == Done(PutLine(w, X), 0)
            && Run(env, w, [SPACE, SPACE] + line, depth) == Done(PutLine(w, Join([Lit("o"), X])), 0)
  {
    hide Tokens, Trim, IndexOf, Run, Words, Join, X, ECHO, GREP, PlainWords, IsSubstring, PutLine;
    var left, right := Join([ECHO, X]), Join([GREP, X]);
    EchoX();
    GrepX();
    SpoiledX();
    PlainPipeline(env, w, [], [ECHO, X], X, X, depth);
    PlainPipeline(env, w, [SPACE, SPACE], [ECHO, X], Join([Lit("o"), X]), X, depth);
    assert [] + left == left;
    assert [SPACE, SPACE] + left + [BAR] + right == [SPACE, SPACE] + (left + [BAR] + right);
    TrimPlain([SPACE, SPACE], left + [BAR] + right);
  }

  lemma PlainPipeline(env: Env, w: World, a: Str, ws: seq<Str>, text: Str, pattern: Str, depth: nat)
    requires AllBlank(a) && PlainWords(ws) && |ws| >= 2 && ws[0] == ECHO && Trimmed(Join(ws))
    requires PlainWords([GREP, pattern]) && Trimmed(Join([GREP, pattern]))
    requires |a| + |Join(ws)| + 1 + |Join([GREP, pattern])| <= MAX_LINE - 1
    requires |a + Join(ws)| >= 5 && (a + Join(ws))[5..] == text && Trimmed(text)
    ensures Run(env, w, a + Join(ws) + [BAR] + Join([GREP, pattern]), depth)
         == Done(if IsSubstring(text, pattern) then PutLine(w, text) else w, 0)
  {
    hide Tokens, Trim, IndexOf, Run, Words, Join;
    var left, right := a + Join(ws), Join([GREP, pattern]);
    var command := left + [BAR] + right;
    BlanksBeforePlain(a, ws);
    PlainLine(ws);
    PlainLine([GREP, pattern]);
    TrimPlain([], right);
    TrimPlain([], text);
    assert [] + right == right && [] + text == text;
    BarIsNoAmpersand();
    NoneInConcat(left, [BAR], AMPERSAND);
    NoneInConcat(left + [BAR], right, AMPERSAND);
    CutBehind(left, BAR, right);
    TrimIsShorter(left);
    TrimIsShorter(right);
    assert command[5..|left|] == left[5..];
    EchoIntoGrepRuns(env, w, command, text, pattern, depth);
  }

  lemma BarIsNoAmpersand()
    ensures !HasUnit([BAR], AMPERSAND)
  {
  }

  // ----- Scripts

  /** The limit of the append/source round trip, at one file: 2048 times `append a x` come back,
      and no longer series does. */
  lemma ManyAppends(n: nat)
    ensures var commands := seq(n, _ => Join([APPEND, A, X])); var tss := seq(n, _ => [X]);
            && AllAppend(commands, A, tss) && |Stored(tss)| == 2 * n
            && (ScriptLines(Stored(tss)) == Joined(tss) <==> n <= 2048)
  {
    hide Join, Tokens, Stored, ScriptLines, Joined;
    var commands := seq(n, _ => Join([APPEND, A, X]));
    var tss := seq(n, _ => [X]);
    AppendX();
    StoredTwoEach(n);
    AppendSourceLimit(commands, A, tss);
  }

  lemma AppendX()
    ensures Appends(Join([APPEND, A, X]), A, [X]) && Storable([X]) && Bytes(Join([X])) == [X[0]]
  {
    JoinThree(APPEND, A, X);
    PlainLine([APPEND, A, X]);
    assert [APPEND, A, X] == [APPEND, A] + [X];
  }

  lemma {:induction false} StoredTwoEach(n: nat)
    ensures |Stored(seq(n, _ => [X]))| == 2 * n
  {
    if n > 0 {
      StoredTwoEach(n - 1);
      assert seq(n, _ => [X])[1..] == seq(n - 1, _ => [X]);
    }
  }

  /** Text behind an interior return: one command to `source`, two to the batch runner. */
  lemma InteriorReturn()
    ensures SourceLines(A + [CR] + B) == [A + B] && BatchLines(A + [CR] + B) == [A, B]
    ensures !AllTidy(A + [CR] + B)
  {
    var text := A + [CR] + B;
    assert text == [A[0], CR, B[0]] && A + B == [A[0], B[0]] && A == [A[0]] && B == [B[0]];
    SourceOfReturn(A[0], B[0]);
    BatchOfReturn(A[0], B[0]);
    SplittersAgree(text);
  }

  lemma SourceOfReturn(a: Char16, b: Char16)
    requires !IsBreak(a) && !IsBreak(b) && a != NUL && b != NUL
    ensures SourceLines([a, CR, b]) == [[a, b]]
  {
    assert [a, CR, b][1..] == [CR, b] && [CR, b][1..] == [b] && [b][1..] == [];
    assert Gather([], a) == [a] && Gather([a], CR) == [a] && Gather([a], b) == [a, b];
    assert SourceFrom([a, CR, b], []) == SourceFrom([CR, b], [a]);
    assert SourceFrom([CR, b], [a]) == SourceFrom([b], [a]);
    assert SourceFrom([b], [a]) == SourceFrom([], [a, b]);
    IndexOfUnique([a, b], NUL, 2);
    assert UpToNul([a, b]) == [a, b][..2] == [a, b];
  }

  lemma BatchOfReturn(a: Char16, b: Char16)
    requires !IsBreak(a) && !IsBreak(b)
    ensures BatchLines([a, CR, b]) == [[a], [b]]
  {
    hide BatchLines;
    BatchOfUnit(a, [CR, b]);
    BatchSkipsBreak([CR, b]);
    assert [CR, b][1..] == [b] == [b] + [];
    BatchOfUnit(b, []);
    assert BatchLines([]) == [] by { BatchByLines([]); }
    assert [a] + [CR, b] == [a, CR, b];
  }

  lemma BatchOfUnit(a: Char16, rest: Str)
    requires !IsBreak(a) && (rest != [] ==> IsBreak(rest[0]))
    ensures BatchLines([a] + rest) == [[a]] + BatchLines(rest)
  {
    hide BatchLines;
    var text := [a] + rest;
    assert text[1..] == rest && text[..1] == [a];
    BatchTakesChunk(text);
  }

  /** The file that `append a rem` and `append a source a` leave. */
  const LOOP: seq<Byte> := Stored([[REM], [SOURCE, A]])

  lemma LoopLines()
    ensures ScriptLines(LOOP) == [REM, Join([SOURCE, A])]
  {
    hide Stored, ScriptLines, Tokens, Joined;
    JoinTwo(SOURCE, A);
    JoinThree(APPEND, A, REM);
    PlainLine([APPEND, A, REM]);
    AppendSourceLine();
    assert [APPEND, A, REM] == [APPEND, A] + [REM];
    TwoLines([REM], [SOURCE, A]);
    AppendSourceLimit([Join([APPEND, A, REM]), Join([APPEND, A, SOURCE, A])], A, [[REM], [SOURCE, A]]);
  }

  lemma AppendSourceLine()
    ensures Appends(Join([APPEND, A, SOURCE, A]), A, [SOURCE, A]) && Storable([SOURCE, A])
  {
    JoinThree(A, SOURCE, A);
    assert [APPEND, A, SOURCE, A][1..] == [A, SOURCE, A];
    PlainLine([APPEND, A, SOURCE, A]);
    assert [APPEND, A, SOURCE, A] == [APPEND, A] + [SOURCE, A];
  }

  lemma TwoLines(a: seq<Str>, b: seq<Str>)
    ensures |Stored([a, b])| == |Join(a)| + |Join(b)| + 2 && Joined([a, b]) == [Join(a), Join(b)]
  {
    hide Join;
    var tss, tail: seq<seq<Str>> := [a, b], [b];
    assert tss[1..] == tail && tail[1..] == [];
    assert Stored(tail) == Bytes(Join(b)) + [LF] + [] && Joined(tail) == [Join(b)] + [];
  }

  /** `source a` never comes to an end when the second line of `a` is `source a`. */
  lemma SecondLineLoops(env: Env, w: World, depth: nat)
    requires Keeps(env, {A}) && A in w.files && w.files[A] == LOOP
    ensures Run(env, w, Join([SOURCE, A]), depth) == TooDeep
  {
    hide Run, Tokens, NameOf, ScriptLines, Keeps, Closed, StaysIn, Sources, Simples, LeadsTo, LOOP;
    LoopStays(env);
    LoopIsCycle(env, w.files);
    CycleNeverEnds(env, {A}, w, Join([SOURCE, A]), Join([SOURCE, A]), [A], depth);
  }

  lemma LoopIsCycle(env: Env, files: map<Str, seq<Byte>>)
    requires A in files && files[A] == LOOP
    ensures Closed(env, {A}, files) && IsCycle(env, files, [A])
  {
    hide Tokens, NameOf, ScriptLines, StaysIn, Sources, Simples, Join, LOOP, A;
    LoopLines();
    LoopStays(env);
    var line := Join([SOURCE, A]);
    assert Closed(env, {A}, files) by {
      assert AllStayIn(env, {A}, [REM, line]);
    }
    assert LeadsTo(env, files, A, A) by {
      assert ScriptLines(LOOP)[1] == line;
    }
  }

  lemma LoopStays(env: Env)
    ensures var line := Join([SOURCE, A]);
            && Simples(line) == [line] && Sources(env, line, A)
            && StaysIn(env, {A}, line) && StaysIn(env, {A}, REM)
  {
    hide Tokens, NameOf, IndexOf, Join, SOURCE, A, REM, Segment;
    var line := Join([SOURCE, A]);
    LoopWords();
    FileNames(env);
    OutputNames(env);
    assert Simples(line) == [line] && Simples(REM) == [REM];
  }

  lemma LoopWords()
    ensures var line := Join([SOURCE, A]);
            && Tokens(line, MAX_ARGS) == [SOURCE, A] && !HasUnit(line, AMPERSAND) && !HasUnit(line, BAR)
    ensures Tokens(REM, MAX_ARGS) == [Lit("rem")] && !HasUnit(REM, AMPERSAND) && !HasUnit(REM, BAR)
  {
    hide Tokens, IndexOf;
    JoinTwo(SOURCE, A);
    PlainLine([SOURCE, A]);
    PlainLine([REM]);
  }

  /** `write a x` over three bytes leaves the third one behind the new line. */
  lemma WriteLeavesTail(env: Env, w: World, depth: nat)
    requires A in w.files && w.files[A] == [7, 8, 9]
    ensures var o := Run(env, w, Join([WRITE, A, X]), depth);
            o.Done? && ContentOf(o.world, A) == Payload([X]) + [9] && |Payload([X])| == 2
  {
    JoinThree(WRITE, A, X);
    PlainLine([WRITE, A, X]);
    assert [WRITE, A, X] == [WRITE, A] + [X];
    WriteReplaces(env, w, Join([WRITE, A, X]), A, [X], depth);
  }

  /** `cd A:` in the state the terminal starts in: the drive is A from then on, the path still B's. */
  lemma DriveThatIsNone(env: Env, w: World, depth: nat)
    requires w.drive == 'B' as int && w.path == RootOf(w.drive)
    ensures var o := Run(env, w, Join([CD, Lit("A:")]), depth);
            o.Done? && o.world.drive == 'A' as int && o.world.path == RootOf('B' as int)
  {
    hide Tokens, Run, IndexOf;
    JoinTwo(CD, Lit("A:"));
    PlainLine([CD, Lit("A:")]);
    assert [CD, Lit("A:")] == [CD] + [Lit("A:")];
    CdLine(env, w, Join([CD, Lit("A:")]), [Lit("A:")], depth);
  }

  lemma ExitAloneRuns(env: Env, w: World, depth: nat)
    ensures Run(env, w, Lit("exit"), depth) == Done(Showing(w, env.wording(ShutdownReceived)), 1)
    ensures Run(env, w, REM, depth) == Done(w, 0)
    ensures !HasUnit(Lit("exit"), AMPERSAND) && Trimmed(Lit("exit")) && Trimmed(REM)
  {
    hide Run, Tokens, NameOf;
    PlainLine([Lit("exit")]);
    PlainLine([REM]);
    MessageLine(env, w, Lit("exit"), Lit("exit"), [], depth);
    RemLine(env, w, REM, [], depth);
  }

  /** `exit&rem` does not stop the shell, although `exit` has been executed. */
  lemma ExitIsLost(env: Env, w: World, depth: nat)
    ensures Run(env, w, Lit("exit") + [AMPERSAND] + REM, depth)
         == Done(Showing(w, env.wording(ShutdownReceived)), 0)
  {
    hide RunSimple, Tokens, Trim, IndexOf;
    var exit := Lit("exit");
    ExitAloneRuns(env, w, depth);
    ExitAloneRuns(env, Showing(w, env.wording(ShutdownReceived)), depth);
    CutBehind(exit, AMPERSAND, REM);
    TrimPlain([], exit);
    TrimPlain([], REM);
    assert [] + exit == exit && [] + REM == REM;
    TrimIsShorter(exit);
    TrimIsShorter(REM);
  }

  // ----- The line editor

  lemma TypeTwo(e: Editor, first: Char16, second: Char16, maxLength: nat, echo: bool)
    ensures Type(e, [first, second], maxLength, echo)
         == Press(Press(e, first, maxLength, echo), second, maxLength, echo)
  {
    var e1 := Press(e, first, maxLength, echo);
    assert [first, second][1..] == [second];
    assert Type(e1, [second], maxLength, echo) == Press(e1, second, maxLength, echo);
  }

  /** A key and a backspace, typed without echo, erase the last unit of the prompt. */
  lemma PromptIsErased(d: Display, prompt: Str, key: Char16, maxLength: nat)
    requires d.cursor <= |d.cells| && Shows(d, prompt) && prompt != []
    requires key != NUL && key != BACKSPACE && maxLength > 1
    ensures var typed := Type(Editor([], []), [key, BACKSPACE], maxLength, false);
            typed.buffer == [] && Shows(Show(d, typed.output), prompt[..|prompt| - 1])
  {
    var e := Editor([], []);
    TypeTwo(e, key, BACKSPACE, maxLength, false);
    assert Show(d, ERASE) == Show(d, [] + ERASE) by { assert [] + ERASE == ERASE; }
    ShowErase(d, prompt);
  }

  lemma {:induction false} PlainKeys(e: Editor, keys: Str, maxLength: nat, echo: bool)
    requires NUL !in keys && BACKSPACE !in keys && |e.buffer| + |keys| < maxLength
    ensures Type(e, keys, maxLength, echo).buffer == e.buffer + keys
    decreases |keys|
  {
    if keys != [] {
      PlainKeys(Press(e, keys[0], maxLength, echo), keys[1..], maxLength, echo);
    }
  }

  /** On any full line, one more key and a backspace take the last key of the line away. */
  lemma FullLineLosesKey(keys: Str, key: Char16, echo: bool)
    requires NUL !in keys && BACKSPACE !in keys && keys != [] && key != NUL && key != BACKSPACE
    ensures Type(Editor([], []), keys, |keys| + 1, echo).buffer == keys
    ensures Type(Editor([], []), keys + [key, BACKSPACE], |keys| + 1, echo).buffer == keys[..|keys| - 1]
  {
    PlainKeys(Editor([], []), keys, |keys| + 1, echo);
    var e := Type(Editor([], []), keys, |keys| + 1, echo);
    TypeInParts(Editor([], []), keys, [key, BACKSPACE], |keys| + 1, echo);
    TypeTwo(e, key, BACKSPACE, |keys| + 1, echo);
  }

  // ----- Accounts

  /** After the first start-up and the login of the default account, an `add` whose save fails
      reports failure, and the account is there, until the next start-up. */
  lemma UnsavedAccountStays()
    ensures var start := Accounts.Init(Accounts.Zeroed(), Accounts.NoFile);
            var db := Accounts.Login(start, Accounts.ADMIN, Accounts.FISIX).0;
            && Accounts.ValidDb(db)
            && var (after, ok) := Accounts.Add(db, X, X, Accounts.Breaks(Accounts.NoFile));
            !ok && Accounts.ValidDb(after)
            && Accounts.Visible(after) == Accounts.Visible(db) + [Accounts.Account(X, X, false)]
            && Accounts.ValidDb(Accounts.Reboot(after))
            && Accounts.Visible(Accounts.Reboot(after)) == Accounts.Visible(db)
  {
  }
}
