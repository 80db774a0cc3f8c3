/** The terminal as the program keeps it: static variables, one static line buffer that every
    tokenizer call overwrites, and the command executor over them. Each method is proved
    against the buffer-free meaning in `Semantics`. */
module Terminal {
  import opened Text
  import opened Tokenizer
  import opened Segments
  import opened Scripts
  import opened Files
  import opened Semantics
  import opened Sequencing
  import opened Termination

  /** The prompt shown in front of a batch line. */
  function Prompt(w: World): Str {
    [w.drive] + Lit(":/ ") + (if w.bashMode then Lit("bash") else Lit("batch")) + Lit("> ")
  }

  /** Batch lines one after the other, each behind the prompt while echo is on. */
  ghost function RunBatch(env: Env, w: World, lines: seq<Str>, depth: nat): Outcome
    decreases |lines|
  {
    if lines == [] then Done(w, 0)
    else
      var first := Run(env, if w.echoEnabled then Put(w, Prompt(w)) else w, lines[0], depth);
      if first.TooDeep? then TooDeep else RunBatch(env, first.world, lines[1..], depth)
  }

  /** What a gathered line reads as once it is terminated. */
  lemma TerminatedReads(buffer: Str, n: nat)
    requires n < |buffer| && buffer[n] == NUL
    ensures UpToNul(buffer) == UpToNul(buffer[..n])
  {
  }

  class Shell {
    const env: Env
    const line: array<Char16>
    var bashMode: bool
    var echoEnabled: bool
    var drive: Char16
    var path: Str
    var files: map<Str, seq<Byte>>
    var screen: Str

    ghost predicate Valid()
    {
      line.Length == MAX_LINE
    }

    ghost function State(): World
      reads this
    {
      World(bashMode, echoEnabled, drive, path, files, screen)
    }

    /** The word a pointer into the line buffer heads at this moment. */
    function Word(offset: nat): Str
      reads line
      requires offset <= line.Length
    {
      UpToNul(line[offset..])
    }

    constructor (env: Env, files: map<Str, seq<Byte>>)
      ensures Valid() && fresh(line) && this.env == env
      ensures State() == World(false, true, 'B' as int, RootOf('B' as int), files, [])
    {
      this.env := env;
      line := new Char16[MAX_LINE];
      bashMode, echoEnabled := false, true;
      drive, path := 'B' as int, RootOf('B' as int);
      this.files := files;
      screen := [];
    }

    // ----- Output

    method WriteText(text: Str)
      modifies this`screen
      ensures State() == Put(old(State()), text)
    {
      screen := screen + text;
    }

    method WriteLine(text: Str)
      modifies this`screen
      ensures State() == PutLine(old(State()), text)
    {
      WriteText(text);
      WriteText(NEWLINE);
    }

    method WriteArgList(argv: seq<nat>, ghost ws: seq<Str>, start: nat)
      requires Valid() && Headed(line[..], argv, ws, MAX_LINE) && start <= |argv|
      modifies this`screen
      ensures State() == Put(old(State()), Join(ws[start..]))
    {
      hide IndexOf, UpToNul, Join;
      var i := start;
      ghost var tail := ws[start..];
      assert tail[..0] == [] && Join([]) == [] by { NothingJoined(); }
      while i < |argv|
        invariant start <= i <= |argv|
        invariant State() == Put(old(State()), Join(tail[..i - start]))
      {
        if i > start {
          WriteText([SPACE]);
        }
        ReadWord(argv, ws, i);
        WriteText(Word(argv[i]));
        OpeningExtends(tail, i - start);
        i := i + 1;
      }
      assert tail[..i - start] == tail;
    }

    // ----- Files

    /** Shows a file in chunks, reading on until a chunk comes back short. */
    method CatFile(name: Str) returns (ok: bool)
      modifies this`screen
      ensures ok == (name in files)
      ensures State() == if ok then PutLine(old(State()), CatText(files[name])) else old(State())
    {
      if name !in files {
        return false;
      }
      var content := files[name];
      var position: nat, count: nat := 0, CAT_CHUNK;
      assert content[0..] == content;
      while count == CAT_CHUNK
        invariant position <= |content| && count <= CAT_CHUNK
        invariant State() == old(State()).(screen := screen)
        invariant screen + Unshown(content, position, count) == old(screen) + CatText(content)
        decreases if count == CAT_CHUNK then 1 else 0, |content| - position
      {
        CatStep(screen, content, position);
        var chunk := Take(content[position..], CAT_CHUNK);
        count := |chunk|;
        var text := Widen(chunk);
        if count > 0 {
          WriteText(UpToNul(text));
        }
        position := position + count;
      }
      WriteLine([]);
      return true;
    }

    method WriteFile(name: Str, argv: seq<nat>, ghost ws: seq<Str>, append: bool)
      requires Valid() && Headed(line[..], argv, ws, MAX_LINE) && |argv| >= 3
      modifies this`files
      ensures State() == Store(old(State()), name, Payload(ws[2..]), append)
    {
      var content := if name in files then files[name] else [];
      var position := if append then |content| else 0;
      var payload := BuildPayload(line, argv, ws, 2);
      files := files[name := Overlay(content, position, payload)];
    }

    // ----- Commands

    /** `terminal_match_command` on a word of the line buffer. */
    method Named(word: Str, name: Str) returns (matches: bool)
      requires NulFree(word) && BlankFree(word) && NulFree(name)
      ensures matches <==> word == name
    {
      matches := MatchCommand(word, name);
      WordIsNamed(word, name);
    }

    method ClassifySettings(word: Str) returns (name: Name)
      requires NulFree(word) && BlankFree(word)
      ensures name == SettingsName(word)
    {
      var m: bool;
      m := Named(word, Lit("@echo")); if m { return AtEcho; }
      m := Named(word, Lit("switchlang")); if m { return SwitchLang; }
      m := Named(word, Lit("dir")); if m { return Dir; }
      m := Named(word, Lit("ls")); if m { return Dir; }
      m := Named(word, Lit("cd")); if m { return Cd; }
      m := Named(word, Lit("bash")); if m { return Bash; }
      m := Named(word, Lit("batch")); if m { return Batch; }
      return Unknown;
    }

    method ClassifyFiles(word: Str) returns (name: Name)
      requires NulFree(word) && BlankFree(word)
      ensures name == FilesName(word)
    {
      var m: bool;
      m := Named(word, Lit("cat")); if m { return Cat; }
      m := Named(word, Lit("touch")); if m { return Touch; }
      m := Named(word, Lit("rm")); if m { return Rm; }
      m := Named(word, Lit("write")); if m { return Write; }
      m := Named(word, APPEND); if m { return Append; }
      m := Named(word, SOURCE); if m { return Source; }
      return Unknown;
    }

    method ClassifyOutput(word: Str) returns (name: Name)
      requires NulFree(word) && BlankFree(word)
      ensures name == OutputName(word)
    {
      var m: bool;
      m := Named(word, Lit("rem")); if m { return Rem; }
      m := Named(word, ECHO); if m { return Echo; }
      m := Named(word, SYSTEM); if m { return System; }
      m := Named(word, Lit("exit")); if m { return Exit; }
      m := Named(word, Lit("shutdown")); if m { return Exit; }
      m := Named(word, GREP); if m { return Grep; }
      return Unknown;
    }

    /** The chain of name comparisons. */
    method Classify(word: Str) returns (name: Name)
      requires NulFree(word) && BlankFree(word)
      ensures name == NameOf(env, word)
    {
      name := ClassifyFiles(word);
      if name == Unknown { name := ClassifySettings(word); }
      if name == Unknown { name := ClassifyOutput(word); }
      if name == Unknown {
        name := if IsExternal(word) then External else if word in env.printers then Printer else Unknown;
      }
    }

    /** Stores the drive letter, and only then looks whether that drive exists. */
    method ChangeDrive(word: Str)
      requires HasDrive(word)
      modifies this`drive, this`path
      ensures State() == SelectDrive(old(State()), word)
    {
      drive := word[0];
      if drive == 'B' as int || drive == 'C' as int {
        path := [drive, COLON, '/' as int];
      }
    }

    method ChangeMode(bash: bool)
      modifies this`bashMode, this`echoEnabled
      ensures State() == SetMode(old(State()), bash)
    {
      bashMode, echoEnabled := bash, true;
    }

    /** Runs a command that another part of the program implements. */
    method CallExternal(words: seq<Str>)
      modifies this`bashMode, this`echoEnabled, this`drive, this`path, this`files, this`screen
      ensures State() == env.external(old(State()), words)
    {
      var w := env.external(World(bashMode, echoEnabled, drive, path, files, screen), words);
      bashMode, echoEnabled, drive := w.bashMode, w.echoEnabled, w.drive;
      path, files, screen := w.path, w.files, w.screen;
    }

    method GrepArgs(argv: seq<nat>, ghost ws: seq<Str>)
      requires Valid() && Headed(line[..], argv, ws, MAX_LINE) && |argv| > 1
      modifies this`screen
      ensures State() == GrepWords(old(State()), ws, 2)
    {
      var i := 2;
      ReadWord(argv, ws, 1);
      while i < |argv|
        invariant 2 <= i
        invariant GrepWords(State(), ws, i) == GrepWords(old(State()), ws, 2)
        invariant State() == old(State()).(screen := screen)
      {
        ReadWord(argv, ws, i);
        var found := Contains(Word(argv[i]), Word(argv[1]));
        if found {
          WriteLine(Word(argv[i]));
        }
        i := i + 1;
      }
    }

    /** A pointer of the parsed command reads as its word while the buffer is untouched. */
    lemma ReadWord(argv: seq<nat>, ws: seq<Str>, i: nat)
      requires Valid() && Headed(line[..], argv, ws, MAX_LINE) && i < |argv|
      ensures argv[i] < line.Length && Word(argv[i]) == ws[i] && NulFree(ws[i])
    {
    }

    /** The first argument of a command, or nothing. */
    method FirstArgument(argv: seq<nat>, ghost ws: seq<Str>) returns (option: Str)
      requires Valid() && Headed(line[..], argv, ws, MAX_LINE) && AreWords(ws)
      ensures option == if |ws| > 1 then ws[1] else []
      ensures NulFree(option) && BlankFree(option)
    {
      option := [];
      if |argv| > 1 {
        ReadWord(argv, ws, 1);
        option := Word(argv[1]);
      }
    }

    /** Commands that change the mode or the echo. */
    method DoModes(name: Name, argv: seq<nat>, ghost ws: seq<Str>, ghost arguments: Str)
      requires Valid() && Headed(line[..], argv, ws, MAX_LINE) && AreWords(ws) && ws != []
      requires name in {AtEcho, SwitchLang, Bash, Batch}
      modifies this
      ensures State() == Command(env, old(State()), name, ws, arguments)
    {
      hide IndexOf, UpToNul;
      var option := FirstArgument(argv, ws);
      var m: bool;
      match name {
        case AtEcho =>
          m := Named(option, Lit("off"));
          if |argv| > 1 && m {
            echoEnabled := false;
          } else {
            m := Named(option, Lit("on"));
            if |argv| > 1 && m { echoEnabled := true; }
          }
        case SwitchLang =>
          m := Named(option, Lit("bash"));
          if |argv| > 1 && m {
            ChangeMode(true);
            WriteLine(env.wording(SwitchedToBash));
          } else {
            m := Named(option, Lit("batch"));
            if |argv| > 1 && m {
              ChangeMode(false);
              WriteLine(env.wording(SwitchedToBatch));
            } else {
              WriteLine(env.wording(SwitchLangUsage));
            }
          }
        case Bash =>
          ChangeMode(true);
          WriteLine(env.wording(BashEnabled));
        case Batch =>
          ChangeMode(false);
          WriteLine(env.wording(BatchEnabled));
      }
    }

    /** Commands that change the drive. */
    method DoDrives(name: Name, argv: seq<nat>, ghost ws: seq<Str>, ghost arguments: Str)
      requires Valid() && Headed(line[..], argv, ws, MAX_LINE) && AreWords(ws) && ws != []
      requires name in {Cd, Dir}
      modifies this
      ensures State() == Command(env, old(State()), name, ws, arguments)
    {
      hide IndexOf, UpToNul;
      var option := FirstArgument(argv, ws);
      match name {
        case Cd =>
          if |argv| > 1 && HasDrive(option) {
            ChangeDrive(option);
            WriteLine(env.wording(DriveSet));
          }
          WriteLine(path);
        case Dir =>
          if |argv| > 1 && HasDrive(option) {
            ChangeDrive(option);
          }
          var words := AllWords(argv, ws);
          CallExternal(words);
      }
    }

    /** The words another part of the program gets to see. */
    method AllWords(argv: seq<nat>, ghost ws: seq<Str>) returns (words: seq<Str>)
      requires Valid() && Headed(line[..], argv, ws, MAX_LINE)
      ensures words == ws
    {
      words := [];
      for i := 0 to |argv|
        invariant words == ws[..i]
      {
        ReadWord(argv, ws, i);
        words := words + [Word(argv[i])];
      }
    }

    /** Commands on files. */
    method DoFiles(name: Name, argv: seq<nat>, ghost ws: seq<Str>, ghost arguments: Str)
      requires Valid() && Headed(line[..], argv, ws, MAX_LINE) && AreWords(ws) && ws != []
      requires name in {Cat, Touch, Rm, Write, Append}
      modifies this
      ensures State() == Command(env, old(State()), name, ws, arguments)
    {
      var file := FirstArgument(argv, ws);
      match name {
        case Cat =>
          var ok := false;
          if |argv| == 2 { ok := CatFile(file); }
          if !ok { WriteLine(env.wording(CatUsage)); }
        case Touch =>
          if |argv| == 2 {
            files := files[file := if file in files then files[file] else []];
          } else {
            WriteLine(env.wording(TouchUsage));
          }
        case Rm =>
          if |argv| == 2 && file in files {
            files := files - {file};
          } else {
            WriteLine(env.wording(RmUsage));
          }
        case Write =>
          if |argv| >= 3 { WriteFile(file, argv, ws, false); } else { WriteLine(env.wording(WriteUsage)); }
        case Append =>
          if |argv| >= 3 { WriteFile(file, argv, ws, true); } else { WriteLine(env.wording(WriteUsage)); }
      }
    }

    /** Commands that only print, search or hand over. */
    method DoOutput(name: Name, argv: seq<nat>, ghost ws: seq<Str>, command: Str, args: nat)
      requires Valid() && Headed(line[..], argv, ws, MAX_LINE) && ws != []
      requires args <= |command|
      requires name in {Rem, Echo, System, Exit, Grep, External, Printer, Unknown}
      modifies this
      ensures State() == Command(env, old(State()), name, ws, command[args..])
    {
      match name {
        case Rem =>
        case Echo =>
          WriteArgList(argv, ws, 1);
          WriteLine([]);
        case System => WriteLine(command[args..]);
        case Exit => WriteLine(env.wording(ShutdownReceived));
        case Grep =>
          if |argv| < 3 { WriteLine(env.wording(GrepUsage)); } else { GrepArgs(argv, ws); }
        case External =>
          var words := AllWords(argv, ws);
          CallExternal(words);
        case Printer =>
          ReadWord(argv, ws, 0);
          WriteLine(env.wording(Reply(Word(argv[0]))));
        case Unknown => WriteLine(env.wording(UnknownCommand));
      }
    }

    // ----- Execution

    /** Parses a text into the line buffer and compares its first word. */
    method ParseFor(text: Str, name: Str) returns (argv: seq<nat>, matches: bool)
      requires Valid() && NulFree(text) && NulFree(name)
      modifies line
      ensures Headed(line[..], argv, Tokens(text, MAX_ARGS), MAX_LINE)
      ensures matches <==> |argv| > 0 && Tokens(text, MAX_ARGS)[0] == name
    {
      argv := ParseCommand(line, text, MAX_ARGS);
      matches := false;
      if |argv| > 0 {
        TokensAreWords(text, MAX_ARGS);
        ReadWord(argv, Tokens(text, MAX_ARGS), 0);
        matches := Named(Word(argv[0]), name);
      }
    }

    /** Copies a trimmed segment into a buffer of its own and reads it back. */
    method CutSegment(command: Str, first: nat, last: nat) returns (text: Str)
      requires NulFree(command) && first <= last <= |command|
      ensures text == Segment(command[first..last]) && NulFree(text)
    {
      var buffer := new Char16[MAX_LINE];
      CopySegment(buffer, command, first, last);
      HeldWordIsRead(buffer[..], 0, Segment(command[first..last]));
      text := UpToNul(buffer[0..]);
    }

    /** Copies both sides of a separator, trimmed, into buffers of their own. */
    method CutAround(command: Str, at: nat, ghost c: Char16) returns (left: Str, right: Str)
      requires NulFree(command) && HasUnit(command, c) && at == IndexOf(command, c)
      ensures left == Segment(Before(command, c)) && NulFree(left)
      ensures right == Segment(Behind(command, c)) && NulFree(right)
    {
      left := CutSegment(command, 0, at);
      var end := TextEnd(command);
      right := CutSegment(command, at + 1, end);
      assert command[0..at] == Before(command, c) && command[at + 1..end] == Behind(command, c);
    }

    /** Returns -1 for a line without `|`, and then leaves everything as it was. */
    method TryPipeline(command: Str) returns (status: int)
      requires Valid() && NulFree(command)
      modifies this`screen, line
      ensures if HasUnit(command, BAR)
              then status == 0 && State() == Pipeline(env, old(State()), command)
              else status == -1 && State() == old(State()) && line[..] == old(line[..])
    {
      var pipe := FindChar(command, BAR);
      if At(command, pipe) != BAR {
        return -1;
      }
      var left, right := CutAround(command, pipe, BAR);
      EchoIntoGrep(command, pipe, left, right);
      status := 0;
    }

    method EchoIntoGrep(command: Str, pipe: nat, left: Str, right: Str)
      requires Valid() && NulFree(command) && HasUnit(command, BAR) && pipe == IndexOf(command, BAR)
      requires left == Segment(Before(command, BAR)) && NulFree(left)
      requires right == Segment(Behind(command, BAR)) && NulFree(right)
      modifies this`screen, line
      ensures State() == Pipeline(env, old(State()), command)
    {
      hide Trim, Tokens, IndexOf, UpToNul;
      var argv, matches := ParseFor(left, ECHO);
      if |argv| < 2 || !matches {
        WriteLine(env.wording(PipesNeedEcho));
        return;
      }
      EchoSegmentIsLong(Before(command, BAR));
      argv, matches := ParseFor(right, GREP);
      if |argv| != 2 || !matches {
        WriteLine(env.wording(EchoGrepUsage));
        return;
      }
      var text := CutSegment(command, 5, pipe);
      ReadWord(argv, Tokens(right, MAX_ARGS), 1);
      var found := Contains(text, Word(argv[1]));
      if found {
        WriteLine(text);
      }
    }

    /** Runs one simple command whose words are already in the line buffer. */
    method Dispatch(command: Str, args: nat, argv: seq<nat>, name: Name)
      requires Valid() && NulFree(command)
      requires Headed(line[..], argv, Tokens(command, MAX_ARGS), MAX_LINE) && |argv| > 0
      requires name == NameOf(env, Tokens(command, MAX_ARGS)[0]) && name != Source
      requires args <= |command| && command[args..] == Arguments(command)
      modifies this
      ensures State() == Command(env, old(State()), name, Tokens(command, MAX_ARGS), Arguments(command))
    {
      ghost var ws := Tokens(command, MAX_ARGS);
      TokensAreWords(command, MAX_ARGS);
      if name in {AtEcho, SwitchLang, Bash, Batch} {
        DoModes(name, argv, ws, Arguments(command));
      } else if name in {Cd, Dir} {
        DoDrives(name, argv, ws, Arguments(command));
      } else if name in {Cat, Touch, Rm, Write, Append} {
        DoFiles(name, argv, ws, Arguments(command));
      } else {
        DoOutput(name, argv, ws, command, args);
      }
    }

    /** The command executor. For every execution that ends within `depth` nested scripts it
        does to the terminal, and returns, exactly what the buffer-free meaning says, although
        every nested run reuses the one line buffer. */
    method ExecuteCommand(command: Str, ghost depth: nat) returns (result: int)
      requires Valid() && NulFree(command)
      requires Run(env, State(), command, depth).Done?
      modifies this, line
      ensures Run(env, old(State()), command, depth) == Done(State(), result)
      decreases depth, 0, |command|, 1
    {
      var argv := ParseCommand(line, command, MAX_ARGS);
      var args := CommandArgs(command);
      var separator := FindChar(command, AMPERSAND);
      if At(command, separator) == AMPERSAND {
        SegmentShrinks(command);
        var left, right := CutAround(command, separator, AMPERSAND);
        result := ExecuteCommand(left, depth);
        result := ExecuteCommand(right, depth);
        return;
      }
      result := ExecuteSimple(command, argv, args, depth);
    }

    /** With scripts in order and no executed command that rewrites one, the executor comes to its
        end, leaves the scripts alone, and has run the trimmed segments of the line in turn. */
    method ExecuteOrdered(
      command: Str, ghost scripts: set<Str>, ghost rank: Str -> nat, ghost depth: nat) returns (result: int)
      requires Valid() && NulFree(command) && |command| < MAX_LINE
      requires Keeps(env, scripts) && Ordered(env, scripts, rank, files)
      requires Admits(env, scripts, rank, command, depth)
      modifies this, line
      ensures SameScripts(scripts, old(files), files)
      ensures RunSegments(env, old(State()), SegmentsOf(command), depth) == Done(State(), result)
    {
      Terminates(env, scripts, rank, State(), command, depth);
      SequencingFlattens(env, State(), command, depth);
      result := ExecuteCommand(command, depth);
    }

    /** The rest of the executor, for a line without `&`. */
    method ExecuteSimple(command: Str, argv: seq<nat>, args: nat, ghost depth: nat) returns (result: int)
      requires Valid() && NulFree(command)
      requires Headed(line[..], argv, Tokens(command, MAX_ARGS), MAX_LINE)
      requires args <= |command| && command[args..] == Arguments(command)
      requires RunSimple(env, State(), command, depth).Done?
      modifies this, line
      ensures RunSimple(env, old(State()), command, depth) == Done(State(), result)
      decreases depth, 0, |command|, 0
    {
      var status := TryPipeline(command);
      if status >= 0 || |argv| == 0 {
        return 0;
      }
      ghost var ws := Tokens(command, MAX_ARGS);
      TokensAreWords(command, MAX_ARGS);
      ReadWord(argv, ws, 0);
      var name := Classify(Word(argv[0]));
      if name != Source {
        Dispatch(command, args, argv, name);
        return if name == Exit then 1 else 0;
      }
      var ok := false;
      if |argv| == 2 {
        ReadWord(argv, ws, 1);
        ok := SourceFile(Word(argv[1]), depth);
      }
      if !ok {
        WriteLine(env.wording(SourceUsage));
      }
      result := 0;
    }

    /** Reads a script into memory and executes its lines as they are completed. */
    method SourceFile(name: Str, ghost depth: nat) returns (ok: bool)
      requires Valid()
      requires name in files ==>
                 depth > 0 && RunLines(env, State(), ScriptLines(files[name]), depth - 1).Done?
      modifies this, line
      ensures ok == (name in old(files))
      ensures if ok then RunLines(env, old(State()), ScriptLines(old(files[name])), depth - 1) == Done(State(), 0)
              else State() == old(State())
      decreases depth, 0, 0, 0
    {
      if name !in files {
        return false;
      }
      ok := true;
      ExecuteScript(Take(files[name], SCRIPT_LIMIT), depth - 1);
    }

    method ExecuteScript(bytes: seq<Byte>, ghost depth: nat)
      requires Valid() && RunLines(env, State(), SourceLines(Units(bytes)), depth).Done?
      modifies this, line
      ensures RunLines(env, old(State()), SourceLines(Units(bytes)), depth) == Done(State(), 0)
      decreases depth, 1, 1, 0
    {
      var gathered := new Char16[MAX_LINE];
      var length: nat := 0;
      ghost var text := Units(bytes);
      ghost var pending := SourceFrom(text, []);
      assert text[0..] == text && gathered[..0] == [];
      for i := 0 to |bytes|
        invariant length <= MAX_LINE - 1
        invariant pending == SourceFrom(text[i..], gathered[..length])
        invariant RunLines(env, State(), pending, depth) == RunLines(env, old(State()), SourceLines(text), depth)
      {
        ghost var lines := pending;
        pending := SourceFromStep(text, i, gathered[..length]);
        length := TakeByte(bytes[i], gathered, length, lines, pending, depth);
      }
      EndLine(gathered, length, pending, [], depth);
    }

    /** Handles one byte of a script: drops a return, ends a line, or gathers it if it fits. */
    method TakeByte(b: Byte, gathered: array<Char16>, length: nat, ghost lines: seq<Str>, ghost pending: seq<Str>,
                    ghost depth: nat)
      returns (next: nat)
      requires Valid() && gathered != line && gathered.Length == MAX_LINE && length <= MAX_LINE - 1
      requires lines == if b == LF then Issue(gathered[..length]) + pending else pending
      requires RunLines(env, State(), lines, depth).Done?
      modifies this, line, gathered
      ensures next <= MAX_LINE - 1
      ensures gathered[..next] == if b == LF then [] else Gather(old(gathered[..length]), b)
      ensures RunLines(env, State(), pending, depth) == old(RunLines(env, State(), lines, depth))
      decreases depth, 1, 0, 1
    {
      ghost var seen := gathered[..length];
      next := length;
      if b == CR {
        return;
      }
      if b == LF {
        EndLine(gathered, length, lines, pending, depth);
        next := 0;
      } else if length + 1 < MAX_LINE {
        gathered[length] := b;
        next := length + 1;
        assert gathered[..next] == seen + [b];
      }
    }

    /** Terminates a gathered line and executes it unless it is empty. */
    method EndLine(
      gathered: array<Char16>, length: nat, ghost lines: seq<Str>, ghost rest: seq<Str>, ghost depth: nat)
      requires Valid() && gathered != line && length < gathered.Length
      requires lines == Issue(gathered[..length]) + rest
      requires RunLines(env, State(), lines, depth).Done?
      modifies this, line, gathered
      ensures RunLines(env, State(), rest, depth) == old(RunLines(env, State(), lines, depth))
      decreases depth, 1, 0, 0
    {
      ghost var seen := gathered[..length];
      if length > 0 {
        gathered[length] := NUL;
        assert gathered[..length] == seen;
        TerminatedReads(gathered[..], length);
        FirstOfLines(env, State(), Issue(seen), rest, depth);
        var _ := ExecuteCommand(UpToNul(gathered[..]), depth);
      } else {
        assert lines == rest;
      }
    }

    /** Scans the start-up batch and executes its lines, each behind the prompt. */
    method RunBatchFile(batch: Str, ghost depth: nat)
      requires Valid() && NulFree(batch)
      requires RunBatch(env, State(), BatchLines(batch), depth).Done?
      modifies this, line
      ensures RunBatch(env, old(State()), BatchLines(batch), depth) == Done(State(), 0)
    {
      hide Run, BatchLines, TextRun, BreakRun, Chunk;
      var lineStart := 0;
      ghost var rest := batch;
      while At(batch, lineStart) != NUL
        invariant lineStart <= |batch| && rest == batch[lineStart..]
        invariant RunBatch(env, State(), BatchLines(rest), depth)
               == RunBatch(env, old(State()), BatchLines(batch), depth)
        decreases |batch| - lineStart
      {
        var lineEnd, text := CopyChunk(batch, lineStart, rest);
        BatchRound(rest);
        IssueChunk(text, BatchLines(rest), BatchLines(rest[NextStart(rest)..]), depth);
        SliceOfSlice(batch, lineStart, lineEnd);
        lineStart := SkipBreaks(batch, lineEnd, rest[ChunkLength(rest)..]);
        rest := rest[NextStart(rest)..];
      }
      assert rest == [] && BatchLines(rest) == [] by { NothingPending(rest); }
    }

    /** Executes a chunk behind the prompt, unless the round only passes line breaks. */
    method IssueChunk(text: Str, ghost lines: seq<Str>, ghost pending: seq<Str>, ghost depth: nat)
      requires Valid() && NulFree(text)
      requires lines == (if text == [] then [] else [text]) + pending
      requires RunBatch(env, State(), lines, depth).Done?
      modifies this, line
      ensures RunBatch(env, State(), pending, depth) == RunBatch(env, old(State()), lines, depth)
    {
      if |text| > 0 {
        FirstOfBatch(env, State(), [text], pending, depth);
        if echoEnabled {
          WriteText(Prompt(World(bashMode, echoEnabled, drive, path, files, screen)));
        }
        var _ := ExecuteCommand(text, depth);
      } else {
        assert lines == pending;
      }
    }
  }

  lemma NothingPending(rest: Str)
    requires rest == []
    ensures BatchLines(rest) == []
  {
  }

  /** One round of the scan takes one chunk off the pending commands, or none. */
  lemma BatchRound(rest: Str)
    requires rest != []
    ensures var text := rest[..ChunkLength(rest)];
            BatchLines(rest) == (if text == [] then [] else [text]) + BatchLines(rest[NextStart(rest)..])
  {
  }

  lemma SliceOfSlice(s: Str, i: nat, j: nat)
    requires i <= j <= |s|
    ensures s[i..][j - i..] == s[j..] && s[i..][..j - i] == s[i..j]
  {
  }

  lemma FirstOfLines(env: Env, w: World, first: seq<Str>, rest: seq<Str>, depth: nat)
    requires |first| == 1
    ensures RunLines(env, w, first + rest, depth)
         == (var o := Run(env, w, first[0], depth);
             if o.TooDeep? then TooDeep else RunLines(env, o.world, rest, depth))
  {
  }

  lemma FirstOfBatch(env: Env, w: World, first: seq<Str>, rest: seq<Str>, depth: nat)
    requires |first| == 1
    ensures RunBatch(env, w, first + rest, depth)
         == (var o := Run(env, if w.echoEnabled then Put(w, Prompt(w)) else w, first[0], depth);
             if o.TooDeep? then TooDeep else RunBatch(env, o.world, rest, depth))
  {
  }

  /** The commands behind one byte of a script. */
  lemma SourceFromStep(text: Str, i: nat, line: Str) returns (more: seq<Str>)
    requires i < |text|
    ensures more == SourceFrom(text[i + 1..], if text[i] == LF then [] else Gather(line, text[i]))
    ensures SourceFrom(text[i..], line) == if text[i] == LF then Issue(line) + more else more
  {
    more := SourceFrom(text[i + 1..], if text[i] == LF then [] else Gather(line, text[i]));
    assert text[i..][1..] == text[i + 1..];
  }

  /** Copies one chunk of the batch text into a line buffer. */
  method CopyChunk(batch: Str, lineStart: nat, ghost rest: Str) returns (lineEnd: nat, text: Str)
    requires NulFree(batch) && lineStart <= |batch| && rest == batch[lineStart..]
    ensures lineEnd == lineStart + ChunkLength(rest)
    ensures text == rest[..ChunkLength(rest)] && NulFree(text)
  {
    var buffer := new Char16[MAX_LINE];
    var offset := 0;
    lineEnd := lineStart;
    while At(batch, lineEnd) != NUL && At(batch, lineEnd) != CR && At(batch, lineEnd) != LF
          && offset < MAX_LINE - 1
      invariant offset <= MAX_LINE - 1 && lineEnd == lineStart + offset <= |batch|
      invariant forall k :: 0 <= k < offset ==> !IsBreak(rest[k]) && buffer[k] == rest[k]
      decreases |batch| - lineEnd
    {
      buffer[offset] := batch[lineEnd];
      offset, lineEnd := offset + 1, lineEnd + 1;
    }
    buffer[offset] := NUL;
    assert lineEnd < |batch| ==> rest[offset] == batch[lineEnd];
    assert buffer[..][0..offset] == rest[..offset];
    HeldWordIsRead(buffer[..], 0, rest[..offset]);
    text := UpToNul(buffer[0..]);
  }

  method SkipBreaks(batch: Str, lineEnd: nat, ghost tail: Str) returns (next: nat)
    requires NulFree(batch) && lineEnd <= |batch| && tail == batch[lineEnd..]
    ensures next == lineEnd + BreakRun(tail)
  {
    next := lineEnd;
    while At(batch, next) == CR || At(batch, next) == LF
      invariant lineEnd <= next <= |batch|
      invariant forall k :: 0 <= k < next - lineEnd ==> IsBreak(tail[k])
      decreases |batch| - next
    {
      next := next + 1;
    }
    assert next < |batch| ==> tail[next - lineEnd] == batch[next];
    assert BreakRun(tail) == next - lineEnd;
  }

  /** What `cat` still has to show when its last read returned `count` bytes. */
  function Unshown(content: seq<Byte>, position: nat, count: nat): Str
    requires position <= |content|
  {
    if count == CAT_CHUNK then CatText(content[position..]) else []
  }

  lemma CatStep(shown: Str, content: seq<Byte>, position: nat)
    requires position <= |content|
    ensures var chunk := Take(content[position..], CAT_CHUNK);
            && shown + CatText(content[position..])
               == shown + UpToNul(Units(chunk)) + Unshown(content, position + |chunk|, |chunk|)
            && (chunk == [] ==> shown + UpToNul(Units(chunk)) == shown)
  {
    var rest := content[position..];
    if |rest| >= CAT_CHUNK {
      assert rest[CAT_CHUNK..] == content[position + CAT_CHUNK..];
    } else {
      assert Take(rest, CAT_CHUNK) == rest;
    }
  }
}
