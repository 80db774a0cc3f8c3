/** What each command line does to the terminal, command by command, and which line stops it. Every
    law is about an executed line and says outright which fields of the state change. */
module Commands {
  import opened Text
  import opened Tokenizer
  import opened Segments
  import opened Files
  import opened Semantics
  import opened Sequencing
  import opened RoundTrips
  import opened Trimming
  import opened Terminal

  /** The terminal after one more line of output. */
  function Showing(w: World, text: Str): World {
    w.(screen := w.screen + text + [13, 10])
  }

  lemma LineRuns(env: Env, w: World, line: Str, ws: seq<Str>, depth: nat)
    requires IsLine(line, ws) && NameOf(env, ws[0]) != Source
    ensures var name := NameOf(env, ws[0]);
            Run(env, w, line, depth) == Done(Command(env, w, name, ws, Arguments(line)), ResultOf(name))
  {
    hide NameOf, Command, Tokens, IndexOf;
    assert Run(env, w, line, depth) == RunSimple(env, w, line, depth);
  }

  // ----- Search

  /** The texts that contain the pattern, in order. */
  ghost function Holding(texts: seq<Str>, pattern: Str): seq<Str> {
    if texts == [] then []
    else (if IsSubstring(texts[0], pattern) then [texts[0]] else []) + Holding(texts[1..], pattern)
  }

  /** Lines as they appear on the screen. */
  function AsLines(lines: seq<Str>): Str {
    if lines == [] then [] else lines[0] + [13, 10] + AsLines(lines[1..])
  }

  lemma {:induction false} GrepWordsShow(w: World, ws: seq<Str>, i: nat)
    requires 2 <= i <= |ws|
    ensures GrepWords(w, ws, i) == w.(screen := w.screen + AsLines(Holding(ws[i..], ws[1])))
    decreases |ws| - i
  {
    if i < |ws| {
      var next := if IsSubstring(ws[i], ws[1]) then PutLine(w, ws[i]) else w;
      GrepWordsShow(next, ws, i + 1);
      assert ws[i..][1..] == ws[i + 1..];
      HoldingStep(w.screen, ws[i], ws[1], ws[i + 1..]);
    } else {
      assert w.screen + [] == w.screen;
    }
  }

  lemma HoldingStep(screen: Str, text: Str, pattern: Str, rest: seq<Str>)
    ensures screen + AsLines(Holding([text] + rest, pattern))
         == (if IsSubstring(text, pattern) then screen + text + NEWLINE else screen) + AsLines(Holding(rest, pattern))
  {
    assert ([text] + rest)[1..] == rest;
    var tail := Holding(rest, pattern);
    if IsSubstring(text, pattern) {
      assert ([text] + tail)[1..] == tail;
      assert screen + (text + [13, 10] + AsLines(tail)) == screen + text + NEWLINE + AsLines(tail);
    } else {
      assert [] + tail == tail;
    }
  }

  /** `grep p t1 .. tk` shows exactly the texts that contain the pattern, in order and each on a line
      of its own, and changes nothing else. */
  lemma GrepLine(env: Env, w: World, line: Str, pattern: Str, texts: seq<Str>, depth: nat)
    requires IsLine(line, [Lit("grep"), pattern] + texts) && texts != []
    ensures Run(env, w, line, depth)
         == Done(w.(screen := w.screen + AsLines(Holding(texts, pattern))), 0)
  {
    hide NameOf, Tokens, Run, IndexOf;
    var ws := [Lit("grep"), pattern] + texts;
    OutputNames(env);
    LineRuns(env, w, line, ws, depth);
    GrepWordsShow(w, ws, 2);
    assert ws[0] == GREP && ws[1] == pattern && ws[2..] == texts;
  }

  // ----- Output

  /** `echo t1 .. tk` shows its words with one space between neighbours. */
  lemma EchoLine(env: Env, w: World, line: Str, texts: seq<Str>, depth: nat)
    requires IsLine(line, [Lit("echo")] + texts)
    ensures Run(env, w, line, depth) == Done(Showing(w, Join(texts)), 0)
  {
    hide NameOf, Tokens, Run, IndexOf, Join;
    var ws := [Lit("echo")] + texts;
    OutputNames(env);
    LineRuns(env, w, line, ws, depth);
    assert ws[0] == ECHO && ws[1..] == texts;
  }

  /** `rem` does nothing, whatever follows it. */
  lemma RemLine(env: Env, w: World, line: Str, more: seq<Str>, depth: nat)
    requires IsLine(line, [Lit("rem")] + more)
    ensures Run(env, w, line, depth) == Done(w, 0)
  {
    hide NameOf, Tokens, Run, IndexOf;
    OutputNames(env);
    LineRuns(env, w, line, [Lit("rem")] + more, depth);
  }

  /** `system` shows the text behind the first run of spaces as it stands. */
  lemma SystemShows(env: Env, w: World, line: Str, more: seq<Str>, head: Str, run: Str, text: Str, depth: nat)
    requires IsLine(line, [Lit("system")] + more) && line == head + run + text
    requires 32 !in head && run != [] && (forall i :: 0 <= i < |run| ==> run[i] == 32)
    requires text != [] ==> text[0] != 32
    ensures Run(env, w, line, depth) == Done(Showing(w, text), 0)
  {
    hide NameOf, Tokens, Run, IndexOf, Arguments;
    LongNames(env);
    LineRuns(env, w, line, [Lit("system")] + more, depth);
    NotInHasNone(head, SPACE);
    ArgumentsBehind(head, run, text);
  }

  lemma NotInHasNone(s: Str, c: Char16)
    requires c !in s
    ensures !HasUnit(s, c)
  {
  }

  /** `grep` with fewer than two arguments, `exit` and `shutdown` only show a message. */
  lemma MessageLine(env: Env, w: World, line: Str, word: Str, more: seq<Str>, depth: nat)
    requires IsLine(line, [word] + more)
    ensures word == Lit("grep") && |more| < 2 ==>
              Run(env, w, line, depth) == Done(Showing(w, env.wording(GrepUsage)), 0)
    ensures word == Lit("exit") || word == Lit("shutdown") ==>
              Run(env, w, line, depth) == Done(Showing(w, env.wording(ShutdownReceived)), 1)
  {
    hide NameOf, Tokens, Run, IndexOf;
    OutputNames(env);
    LongNames(env);
    if NameOf(env, word) != Source {
      LineRuns(env, w, line, [word] + more, depth);
    }
  }

  // ----- Settings

  /** `@echo off` and `@echo on` set the echo flag; any other `@echo` changes nothing. */
  lemma AtEchoLine(env: Env, w: World, line: Str, more: seq<Str>, depth: nat)
    requires IsLine(line, [Lit("@echo")] + more)
    ensures more != [] && more[0] == Lit("off") ==> Run(env, w, line, depth) == Done(w.(echoEnabled := false), 0)
    ensures more != [] && more[0] == Lit("on") ==> Run(env, w, line, depth) == Done(w.(echoEnabled := true), 0)
    ensures more == [] || more[0] !in {Lit("on"), Lit("off")} ==> Run(env, w, line, depth) == Done(w, 0)
  {
    hide NameOf, Tokens, Run, IndexOf;
    SettingNames(env);
    LineRuns(env, w, line, [Lit("@echo")] + more, depth);
    assert more != [] ==> ([Lit("@echo")] + more)[1] == more[0];
    assert |Lit("on")| != |Lit("off")|;
  }

  /** `bash` and `batch` select the mode and switch the echo on. */
  lemma ModeLine(env: Env, w: World, line: Str, bash: bool, more: seq<Str>, depth: nat)
    requires IsLine(line, [if bash then Lit("bash") else Lit("batch")] + more)
    ensures Run(env, w, line, depth)
         == Done(Showing(w.(bashMode := bash, echoEnabled := true),
                         env.wording(if bash then BashEnabled else BatchEnabled)), 0)
  {
    hide NameOf, Tokens, Run, IndexOf;
    SettingNames(env);
    LineRuns(env, w, line, [if bash then Lit("bash") else Lit("batch")] + more, depth);
  }

  /** `switchlang` does the same for its first argument, and shows its usage for any other. */
  lemma SwitchLangLine(env: Env, w: World, line: Str, more: seq<Str>, depth: nat)
    requires IsLine(line, [Lit("switchlang")] + more)
    ensures more != [] && more[0] == Lit("bash") ==>
              Run(env, w, line, depth)
                == Done(Showing(w.(bashMode := true, echoEnabled := true), env.wording(SwitchedToBash)), 0)
    ensures more != [] && more[0] == Lit("batch") ==>
              Run(env, w, line, depth)
                == Done(Showing(w.(bashMode := false, echoEnabled := true), env.wording(SwitchedToBatch)), 0)
    ensures more == [] || more[0] !in {Lit("bash"), Lit("batch")} ==>
              Run(env, w, line, depth) == Done(Showing(w, env.wording(SwitchLangUsage)), 0)
  {
    hide NameOf, Tokens, Run, IndexOf;
    SettingNames(env);
    LineRuns(env, w, line, [Lit("switchlang")] + more, depth);
    assert more != [] ==> ([Lit("switchlang")] + more)[1] == more[0];
    assert |Lit("bash")| != |Lit("batch")|;
  }

  /** `cd X:` stores the letter, moves to the root of a volume, and shows the path it then has;
      any other `cd` only shows the path. */
  lemma CdLine(env: Env, w: World, line: Str, more: seq<Str>, depth: nat)
    requires IsLine(line, [Lit("cd")] + more)
    ensures var o := Run(env, w, line, depth);
            if more != [] && |more[0]| >= 2 && 'A' as int <= more[0][0] <= 'Z' as int && more[0][1] == ':' as int then
              var known := more[0][0] in {'B' as int, 'C' as int};
              var path := if known then [more[0][0], ':' as int, '/' as int] else w.path;
              o == Done(Showing(Showing(w.(drive := more[0][0], path := path), env.wording(DriveSet)), path), 0)
            else o == Done(Showing(w, w.path), 0)
  {
    hide NameOf, Tokens, Run, IndexOf;
    SettingNames(env);
    LineRuns(env, w, line, [Lit("cd")] + more, depth);
    assert more != [] ==> ([Lit("cd")] + more)[1] == more[0];
  }

  // ----- Files

  /** `touch f` creates an empty file, or leaves the one there as it is. */
  lemma TouchLine(env: Env, w: World, line: Str, file: Str, depth: nat)
    requires IsLine(line, [Lit("touch"), file])
    ensures Run(env, w, line, depth) == Done(if file in w.files then w else w.(files := w.files[file := []]), 0)
  {
    hide NameOf, Tokens, Run, IndexOf;
    FileNames(env);
    LineRuns(env, w, line, [Lit("touch"), file], depth);
    assert file in w.files ==> w.files[file := w.files[file]] == w.files;
  }

  /** `rm f` removes the file and no other; if there is none it shows its usage. */
  lemma RmLine(env: Env, w: World, line: Str, file: Str, depth: nat)
    requires IsLine(line, [Lit("rm"), file])
    ensures Run(env, w, line, depth)
         == Done(if file in w.files then w.(files := map f | f in w.files && f != file :: w.files[f])
                 else Showing(w, env.wording(RmUsage)), 0)
  {
    hide NameOf, Tokens, Run, IndexOf;
    FileNames(env);
    LineRuns(env, w, line, [Lit("rm"), file], depth);
    assert w.files - {file} == map f | f in w.files && f != file :: w.files[f];
  }

  /** `cat f` shows a file without NULs byte for byte, and a line end; if there is none it shows its
      usage. */
  lemma CatLine(env: Env, w: World, line: Str, file: Str, depth: nat)
    requires IsLine(line, [Lit("cat"), file])
    ensures file in w.files && 0 !in w.files[file] ==>
              Run(env, w, line, depth) == Done(Showing(w, Units(w.files[file])), 0)
    ensures file !in w.files ==> Run(env, w, line, depth) == Done(Showing(w, env.wording(CatUsage)), 0)
  {
    hide NameOf, Tokens, Run, IndexOf, CatText;
    FileNames(env);
    LineRuns(env, w, line, [Lit("cat"), file], depth);
    if file in w.files {
      CatIsExact(w.files[file]);
    }
  }

  /** The commands on files show their usage if the number of words is wrong. */
  lemma FileUsageLine(env: Env, w: World, line: Str, word: Str, more: seq<Str>, depth: nat)
    requires IsLine(line, [word] + more)
    ensures word == Lit("cat") && |more| != 1 ==> Run(env, w, line, depth) == Done(Showing(w, env.wording(CatUsage)), 0)
    ensures word == Lit("touch") && |more| != 1 ==>
              Run(env, w, line, depth) == Done(Showing(w, env.wording(TouchUsage)), 0)
    ensures word == Lit("rm") && |more| != 1 ==> Run(env, w, line, depth) == Done(Showing(w, env.wording(RmUsage)), 0)
    ensures word in {Lit("write"), APPEND} && |more| < 2 ==>
              Run(env, w, line, depth) == Done(Showing(w, env.wording(WriteUsage)), 0)
  {
    hide NameOf, Tokens, Run, IndexOf;
    FileNames(env);
    if NameOf(env, word) != Source {
      LineRuns(env, w, line, [word] + more, depth);
    }
  }

  /** `source` without exactly one argument, or with one that is no file, shows its usage. */
  lemma SourceUsageLine(env: Env, w: World, line: Str, more: seq<Str>, depth: nat)
    requires IsLine(line, [SOURCE] + more) && (|more| != 1 || more[0] !in w.files)
    ensures Run(env, w, line, depth) == Done(Showing(w, env.wording(SourceUsage)), 0)
  {
    hide NameOf, Tokens, IndexOf;
    FileNames(env);
    var ws := [SOURCE] + more;
    assert |more| == 1 ==> ws[1] == more[0];
    assert Run(env, w, line, depth) == RunSimple(env, w, line, depth);
  }

  // ----- Commands of other parts, and lines that are none

  /** `dir` and `ls` store a drive letter as `cd` does and hand over to the listing. */
  lemma DirLine(env: Env, w: World, line: Str, word: Str, more: seq<Str>, depth: nat)
    requires IsLine(line, [word] + more) && (word == Lit("dir") || word == Lit("ls"))
    ensures var selects := more != [] && |more[0]| >= 2 && 'A' as int <= more[0][0] <= 'Z' as int
                           && more[0][1] == ':' as int;
            var before := if !selects then w
                          else if more[0][0] in {'B' as int, 'C' as int} then
                            w.(drive := more[0][0], path := [more[0][0], ':' as int, '/' as int])
                          else w.(drive := more[0][0]);
            Run(env, w, line, depth) == Done(env.external(before, [word] + more), 0)
  {
    hide NameOf, Tokens, Run, IndexOf;
    SettingNames(env);
    LineRuns(env, w, line, [word] + more, depth);
    assert more != [] ==> ([word] + more)[1] == more[0];
  }

  predicate IsOwn(word: Str) {
    || word in {Lit("@echo"), Lit("switchlang"), Lit("dir"), Lit("ls"), Lit("cd"), Lit("bash"), Lit("batch")}
    || word in {Lit("cat"), Lit("touch"), Lit("rm"), Lit("write"), APPEND, SOURCE}
    || word in {Lit("rem"), ECHO, SYSTEM, Lit("exit"), Lit("shutdown"), GREP}
  }

  /** A first word that is none of the names above: another part's command is handed over, one that
      only prints shows its reply, and any other is an unknown command. */
  lemma OtherLine(env: Env, w: World, line: Str, word: Str, more: seq<Str>, depth: nat)
    requires IsLine(line, [word] + more) && !IsOwn(word)
    ensures var external := word in {Lit("nano"), Lit("whoami"), Lit("users")}
                            || word in {Lit("useradd"), Lit("passwd"), Lit("login")};
            Run(env, w, line, depth)
              == Done(if external then env.external(w, [word] + more)
                      else if word in env.printers then Showing(w, env.wording(Reply(word)))
                      else Showing(w, env.wording(UnknownCommand)), 0)
  {
    hide Tokens, Run, IndexOf;
    OtherNames(env, word);
    hide NameOf;
    LineRuns(env, w, line, [word] + more, depth);
  }

  lemma OtherNames(env: Env, word: Str)
    requires !IsOwn(word)
    ensures NameOf(env, word)
         == if IsExternal(word) then External else if word in env.printers then Printer else Unknown
  {
  }

  // ----- Pipelines

  /** A line with `|` shows the text between the first five units and the bar, trimmed, if its left
      side is an `echo` with an argument, its right side is `grep` with a pattern, and the text
      contains the pattern. Other pipelines show a message, and none does anything else. */
  lemma PipelineLine(env: Env, w: World, line: Str, depth: nat)
    requires !HasUnit(line, AMPERSAND) && HasUnit(line, BAR)
    ensures var left := Tokens(Segment(Before(line, BAR)), MAX_ARGS);
            var right := Tokens(Segment(Behind(line, BAR)), MAX_ARGS);
            var echoes, greps := |left| >= 2 && left[0] == Lit("echo"), |right| == 2 && right[0] == Lit("grep");
            && (!echoes ==> Run(env, w, line, depth) == Done(Showing(w, env.wording(PipesNeedEcho)), 0))
            && (echoes && !greps ==> Run(env, w, line, depth) == Done(Showing(w, env.wording(EchoGrepUsage)), 0))
            && (echoes && greps ==>
                  && IndexOf(line, BAR) >= 5
                  && var text := Segment(line[5..IndexOf(line, BAR)]);
                  Run(env, w, line, depth) == Done(if IsSubstring(text, right[1]) then Showing(w, text) else w, 0))
  {
    hide Tokens, Segment, IndexOf;
    var left := Before(line, BAR);
    if |Tokens(Segment(left), MAX_ARGS)| >= 2 && Tokens(Segment(left), MAX_ARGS)[0] == ECHO {
      EchoSegmentIsLong(left);
    }
    assert Run(env, w, line, depth) == RunSimple(env, w, line, depth);
  }

  // ----- The result

  /** An `&`-free line whose command is `exit` or `shutdown`. */
  predicate Stops(line: Str) {
    !HasUnit(line, BAR) && Tokens(line, MAX_ARGS) != []
    && (Tokens(line, MAX_ARGS)[0] == Lit("exit") || Tokens(line, MAX_ARGS)[0] == Lit("shutdown"))
  }

  lemma ExitNames(env: Env, word: Str)
    ensures NameOf(env, word) == Exit <==> word == Lit("exit") || word == Lit("shutdown")
  {
    LongNames(env);
  }

  lemma {:induction false} ScriptGivesZero(env: Env, w: World, lines: seq<Str>, depth: nat)
    requires RunLines(env, w, lines, depth).Done?
    ensures RunLines(env, w, lines, depth).result == 0
    decreases |lines|
  {
    hide Run;
    if lines != [] {
      ScriptGivesZero(env, Run(env, w, lines[0], depth).world, lines[1..], depth);
    }
  }

  lemma SimpleResult(env: Env, w: World, line: Str, depth: nat)
    requires RunSimple(env, w, line, depth).Done?
    ensures RunSimple(env, w, line, depth).result == if Stops(line) then 1 else 0
  {
    hide NameOf, Tokens, IndexOf, Command, ScriptLines, Pipeline;
    var ws := Tokens(line, MAX_ARGS);
    if !HasUnit(line, BAR) && ws != [] {
      ExitNames(env, ws[0]);
      if NameOf(env, ws[0]) == Source && |ws| == 2 && ws[1] in w.files {
        ScriptGivesZero(env, w, ScriptLines(w.files[ws[1]]), depth - 1);
      }
    }
  }

  lemma {:induction false} SegmentsResult(env: Env, w: World, segments: seq<Str>, depth: nat)
    requires segments != [] && RunSegments(env, w, segments, depth).Done?
    ensures RunSegments(env, w, segments, depth).result == if Stops(segments[|segments| - 1]) then 1 else 0
    decreases |segments|
  {
    hide RunSimple, Stops;
    SimpleResult(env, w, segments[0], depth);
    if |segments| > 1 {
      SegmentsResult(env, RunSimple(env, w, segments[0], depth).world, segments[1..], depth);
    }
  }

  /** A line asks the shell to stop exactly if its last segment is `exit` or `shutdown`. What stands
      in front of the last `&`, or in a sourced script, cannot stop it. */
  lemma {:induction false} StopsIfLast(env: Env, w: World, command: Str, depth: nat)
    requires |command| <= MAX_LINE - 1 && Run(env, w, command, depth).Done?
    ensures var segments := SegmentsOf(command);
            segments != [] && Run(env, w, command, depth).result == if Stops(segments[|segments| - 1]) then 1 else 0
  {
    hide Run, Stops, RunSegments;
    SequencingFlattens(env, w, command, depth);
    SegmentsResult(env, w, SegmentsOf(command), depth);
  }

  // ----- Scripts

  /** A line of blanks does nothing. */
  lemma BlankLine(env: Env, w: World, line: Str, depth: nat)
    requires AllBlank(line)
    ensures Run(env, w, line, depth) == Done(w, 0)
  {
    hide Words;
    BlanksHaveNone(line, AMPERSAND);
    BlanksHaveNone(line, BAR);
    AllBlankHasNoWords(Take(line, MAX_LINE - 1));
    assert Run(env, w, line, depth) == RunSimple(env, w, line, depth);
  }

  lemma BlanksHaveNone(a: Str, c: Char16)
    requires AllBlank(a) && !Blank(c)
    ensures !HasUnit(a, c)
  {
  }

  /** A script is run line by line, whatever results its lines give: cut anywhere, it is its first
      part and then its second. */
  lemma {:induction false} ScriptInParts(env: Env, w: World, a: seq<Str>, b: seq<Str>, depth: nat)
    ensures var first := RunLines(env, w, a, depth);
            RunLines(env, w, a + b, depth) == if first.Done? then RunLines(env, first.world, b, depth) else TooDeep
    decreases |a|
  {
    hide Run;
    if a == [] {
      assert a + b == b;
    } else {
      assert (a + b)[1..] == a[1..] + b;
      if Run(env, w, a[0], depth).Done? {
        ScriptInParts(env, Run(env, w, a[0], depth).world, a[1..], b, depth);
      }
    }
  }

  /** A script of one line does what the line does, and gives 0 for it. */
  lemma ScriptOfOne(env: Env, w: World, line: Str, depth: nat)
    ensures var o := Run(env, w, line, depth);
            RunLines(env, w, [line], depth) == if o.Done? then Done(o.world, 0) else TooDeep
  {
    hide Run;
    assert [line][1..] == [];
  }

  // ----- The start-up batch

  /** A batch line runs behind the prompt of the drive and the mode while echo is on, and on its own
      while it is off; its result does not matter to the next one. */
  lemma BatchLine(env: Env, w: World, line: Str, more: seq<Str>, depth: nat)
    ensures var prompt := [w.drive] + (if w.bashMode then Lit(":/ bash> ") else Lit(":/ batch> "));
            var first := Run(env, if w.echoEnabled then w.(screen := w.screen + prompt) else w, line, depth);
            RunBatch(env, w, [line] + more, depth)
              == if first.Done? then RunBatch(env, first.world, more, depth) else TooDeep
  {
    hide Run;
    assert ([line] + more)[1..] == more;
    PromptText(w);
  }

  lemma PromptText(w: World)
    ensures Prompt(w) == [w.drive] + (if w.bashMode then Lit(":/ bash> ") else Lit(":/ batch> "))
  {
    if w.bashMode {
      assert Lit(":/ ") + Lit("bash") + Lit("> ") == Lit(":/ bash> ");
    } else {
      assert Lit(":/ ") + Lit("batch") + Lit("> ") == Lit(":/ batch> ");
    }
  }

  // ----- Append, then show

  function StoredText(tss: seq<seq<Str>>): Str {
    if tss == [] then [] else Join(tss[0]) + [10] + StoredText(tss[1..])
  }

  lemma {:induction false} StoredIsText(tss: seq<seq<Str>>)
    requires forall i :: 0 <= i < |tss| ==> Storable(tss[i])
    ensures Units(Stored(tss)) == StoredText(tss) && 0 !in Stored(tss)
    decreases |tss|
  {
    hide Join;
    if tss != [] {
      assert forall i :: 0 <= i < |tss[1..]| ==> tss[1..][i] == tss[i + 1];
      StoredIsText(tss[1..]);
      JoinIsStorable(tss[0]);
      StoredLine(Join(tss[0]), Stored(tss[1..]));
    }
  }

  lemma StoredLine(line: Str, rest: seq<Byte>)
    requires (forall i :: 0 <= i < |line| ==> 0 < line[i] < 0x100) && 0 !in rest
    ensures Units(Bytes(line) + [LF] + rest) == line + [10] + Units(rest) && 0 !in Bytes(line) + [LF] + rest
  {
  }

  /** After a series of `append f t1 .. tk` on an empty file or none, `cat f` shows every appended
      text on a line of its own, in order, however many there are. */
  lemma AppendThenCat(
    env: Env, w: World, commands: seq<Str>, file: Str, tss: seq<seq<Str>>, cat: Str, depth: nat)
    requires AllAppend(commands, file, tss) && ContentOf(w, file) == [] && (tss != [] || file in w.files)
    requires IsLine(cat, [Lit("cat"), file])
    ensures var written := RunLines(env, w, commands, depth);
            written.Done? && Run(env, written.world, cat, depth) == Done(Showing(written.world, StoredText(tss)), 0)
  {
    hide Run, Tokens, Join, Stored, IndexOf, Units, Storable;
    AppendsRun(env, w, commands, file, tss, depth);
    assert [] + Stored(tss) == Stored(tss);
    StoredIsText(tss);
    CatLine(env, RunLines(env, w, commands, depth).world, cat, file, depth);
  }
}
