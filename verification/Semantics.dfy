/** The meaning of the command language, apart from any buffer: what one command line does to
    the terminal's state, and which result it gives.

    A `source` command runs other command lines, and nothing in the program bounds how deeply
    scripts may source each other. `Run` therefore takes the nesting still allowed and answers
    `TooDeep` when it is used up. `Deeper` shows that this number never changes an outcome. */
module Semantics {
  import opened Text
  import opened Tokenizer
  import opened Segments
  import opened Scripts
  import opened Files

  const MAX_ARGS: nat := 8

  datatype World = World(
    bashMode: bool,
    echoEnabled: bool,
    drive: Char16,
    path: Str,
    files: map<Str, seq<Byte>>,
    screen: Str)

  datatype Name =
    | AtEcho | Rem | SwitchLang | Echo | Cat | Touch | Rm | Write | Append | Source
    | System | Dir | Exit | Cd | Grep | Bash | Batch | External | Printer | Unknown

  /** The fixed lines the terminal prints; their wording is a parameter. */
  datatype Message =
    | PipesNeedEcho | EchoGrepUsage | SwitchedToBash | SwitchedToBatch | SwitchLangUsage
    | CatUsage | TouchUsage | RmUsage | WriteUsage | SourceUsage | GrepUsage
    | ShutdownReceived | DriveSet | BashEnabled | BatchEnabled | UnknownCommand
    | Reply(command: Str)

  /** What the command language takes from elsewhere: the wording of its messages, the names
      of the commands that only print one, and the effect of commands implemented by other
      parts (accounts, the nano loop, directory listings). */
  datatype Env = Env(
    wording: Message -> Str,
    printers: set<Str>,
    external: (World, seq<Str>) -> World)

  datatype Outcome = Done(world: World, result: int) | TooDeep

  const ECHO: Str := Lit("echo")
  const GREP: Str := Lit("grep")
  const APPEND: Str := Lit("append")
  const SOURCE: Str := Lit("source")
  const SYSTEM: Str := Lit("system")

  predicate IsExternal(word: Str) {
    || word == Lit("nano") || word == Lit("whoami") || word == Lit("users")
    || word == Lit("useradd") || word == Lit("passwd") || word == Lit("login")
  }

  /** Commands on the terminal's own variables; `Unknown` for any other word. */
  function SettingsName(word: Str): Name {
    if word == Lit("@echo") then AtEcho
    else if word == Lit("switchlang") then SwitchLang
    else if word == Lit("dir") || word == Lit("ls") then Dir
    else if word == Lit("cd") then Cd
    else if word == Lit("bash") then Bash
    else if word == Lit("batch") then Batch
    else Unknown
  }

  function FilesName(word: Str): Name {
    if word == Lit("cat") then Cat
    else if word == Lit("touch") then Touch
    else if word == Lit("rm") then Rm
    else if word == Lit("write") then Write
    else if word == APPEND then Append
    else if word == SOURCE then Source
    else Unknown
  }

  function OutputName(word: Str): Name {
    if word == Lit("rem") then Rem
    else if word == ECHO then Echo
    else if word == SYSTEM then System
    else if word == Lit("exit") || word == Lit("shutdown") then Exit
    else if word == GREP then Grep
    else Unknown
  }

  /** The command a first word stands for. The names are distinct, so their order is free. */
  function NameOf(env: Env, word: Str): Name {
    if FilesName(word) != Unknown then FilesName(word)
    else if SettingsName(word) != Unknown then SettingsName(word)
    else if OutputName(word) != Unknown then OutputName(word)
    else if IsExternal(word) then External
    else if word in env.printers then Printer
    else Unknown
  }

  // ----- The names, as they are typed

  lemma TwoLetters()
    ensures Lit("rm")[0] == 'r' as int && Lit("ls")[0] == 'l' as int && Lit("cd")[0] == 'c' as int
  {
  }

  lemma ThreeLetters()
    ensures Lit("dir")[0] == 'd' as int && Lit("cat")[0] == 'c' as int && Lit("rem")[0] == 'r' as int
  {
  }

  lemma FourLetters()
    ensures Lit("bash")[0] == 'b' as int && ECHO[0] == 'e' as int && ECHO[1] == 'c' as int
    ensures Lit("exit")[0] == 'e' as int && Lit("exit")[1] == 'x' as int && GREP[0] == 'g' as int
  {
  }

  lemma FiveLetters()
    ensures Lit("@echo")[0] == '@' as int && Lit("batch")[0] == 'b' as int
    ensures Lit("touch")[0] == 't' as int && Lit("write")[0] == 'w' as int
  {
  }

  lemma SixLetters()
    ensures APPEND[1] == 'p' as int && SOURCE[1] == 'o' as int && SYSTEM[1] == 'y' as int
  {
  }

  lemma FileNames(env: Env)
    ensures NameOf(env, Lit("cat")) == Cat && NameOf(env, Lit("touch")) == Touch && NameOf(env, Lit("rm")) == Rm
    ensures NameOf(env, Lit("write")) == Write && NameOf(env, APPEND) == Append && NameOf(env, SOURCE) == Source
  {
    FiveLetters();
    SixLetters();
  }

  lemma SettingNames(env: Env)
    ensures NameOf(env, Lit("@echo")) == AtEcho && NameOf(env, Lit("switchlang")) == SwitchLang
    ensures NameOf(env, Lit("dir")) == Dir && NameOf(env, Lit("ls")) == Dir && NameOf(env, Lit("cd")) == Cd
    ensures NameOf(env, Lit("bash")) == Bash && NameOf(env, Lit("batch")) == Batch
  {
    TwoLetters();
    ThreeLetters();
    FiveLetters();
  }

  lemma OutputNames(env: Env)
    ensures NameOf(env, Lit("rem")) == Rem && NameOf(env, ECHO) == Echo && NameOf(env, GREP) == Grep
  {
    ThreeLetters();
    FourLetters();
  }

  lemma LongNames(env: Env)
    ensures NameOf(env, SYSTEM) == System
    ensures NameOf(env, Lit("exit")) == Exit && NameOf(env, Lit("shutdown")) == Exit
  {
    FourLetters();
    SixLetters();
  }

  // ----- Single commands

  function Put(w: World, text: Str): World {
    w.(screen := w.screen + text)
  }

  function PutLine(w: World, text: Str): World {
    w.(screen := w.screen + text + NEWLINE)
  }

  function Say(env: Env, w: World, m: Message): World {
    PutLine(w, env.wording(m))
  }

  function SetMode(w: World, bash: bool): World {
    w.(bashMode := bash, echoEnabled := true)
  }

  predicate HasDrive(path: Str) {
    |path| >= 2 && 'A' as int <= path[0] <= 'Z' as int && path[1] == COLON
  }

  predicate IsVolume(drive: Char16) {
    drive == 'B' as int || drive == 'C' as int
  }

  function RootOf(drive: Char16): Str {
    [drive, COLON, '/' as int]
  }

  /** Selecting a drive stores its letter first and only then checks it. */
  function SelectDrive(w: World, word: Str): World
    requires HasDrive(word)
  {
    var stored := w.(drive := word[0]);
    if IsVolume(word[0]) then stored.(path := RootOf(word[0])) else stored
  }

  function ContentOf(w: World, path: Str): seq<Byte> {
    if path in w.files then w.files[path] else []
  }

  function Store(w: World, path: Str, payload: seq<Byte>, append: bool): World {
    var content := ContentOf(w, path);
    w.(files := w.files[path := Overlay(content, if append then |content| else 0, payload)])
  }

  /** Prints every word from `i` on that contains the second one. */
  ghost function GrepWords(w: World, ws: seq<Str>, i: nat): World
    requires |ws| > 1
    decreases |ws| - i
  {
    if i >= |ws| then w
    else GrepWords(if IsSubstring(ws[i], ws[1]) then PutLine(w, ws[i]) else w, ws, i + 1)
  }

  /** A command other than `source`. */
  ghost function Command(env: Env, w: World, name: Name, ws: seq<Str>, arguments: Str): World
    requires ws != []
  {
    match name
    case AtEcho =>
      if |ws| > 1 && ws[1] == Lit("off") then w.(echoEnabled := false)
      else if |ws| > 1 && ws[1] == Lit("on") then w.(echoEnabled := true)
      else w
    case Rem => w
    case SwitchLang =>
      if |ws| > 1 && ws[1] == Lit("bash") then Say(env, SetMode(w, true), SwitchedToBash)
      else if |ws| > 1 && ws[1] == Lit("batch") then Say(env, SetMode(w, false), SwitchedToBatch)
      else Say(env, w, SwitchLangUsage)
    case Echo => PutLine(w, Join(ws[1..]))
    case Cat =>
      if |ws| == 2 && ws[1] in w.files then PutLine(w, CatText(w.files[ws[1]]))
      else Say(env, w, CatUsage)
    case Touch =>
      if |ws| == 2 then w.(files := w.files[ws[1] := ContentOf(w, ws[1])])
      else Say(env, w, TouchUsage)
    case Rm =>
      if |ws| == 2 && ws[1] in w.files then w.(files := w.files - {ws[1]})
      else Say(env, w, RmUsage)
    case Write =>
      if |ws| >= 3 then Store(w, ws[1], Payload(ws[2..]), false) else Say(env, w, WriteUsage)
    case Append =>
      if |ws| >= 3 then Store(w, ws[1], Payload(ws[2..]), true) else Say(env, w, WriteUsage)
    case System => PutLine(w, arguments)
    case Dir =>
      env.external(if |ws| > 1 && HasDrive(ws[1]) then SelectDrive(w, ws[1]) else w, ws)
    case Exit => Say(env, w, ShutdownReceived)
    case Cd =>
      if |ws| > 1 && HasDrive(ws[1]) then
        var moved := Say(env, SelectDrive(w, ws[1]), DriveSet);
        PutLine(moved, moved.path)
      else PutLine(w, w.path)
    case Grep =>
      if |ws| >= 3 then GrepWords(w, ws, 2) else Say(env, w, GrepUsage)
    case Bash => Say(env, SetMode(w, true), BashEnabled)
    case Batch => Say(env, SetMode(w, false), BatchEnabled)
    case External => env.external(w, ws)
    case Printer => Say(env, w, Reply(ws[0]))
    case Unknown => Say(env, w, UnknownCommand)
    case Source => w
  }

  /** The words of a line are its first eight, within its first 127 units. */
  lemma FirstEightWords(line: Str)
    ensures |line| <= 127 && |Words(line)| <= 8 ==> Tokens(line, MAX_ARGS) == Words(line)
    ensures |line| <= 127 && |Words(line)| > 8 ==> Tokens(line, MAX_ARGS) == Words(line)[..8]
    ensures |line| > 127 ==> Tokens(line, MAX_ARGS) == Tokens(line[..127], MAX_ARGS)
  {
    hide Words;
    if |line| <= 127 {
      assert line[..|line|] == line;
    } else {
      assert line[..127][..127] == line[..127];
    }
  }

  /** Only `exit` and `shutdown` ask the shell to stop. */
  function ResultOf(name: Name): int {
    if name == Exit then 1 else 0
  }

  predicate HasUnit(s: Str, c: Char16) {
    IndexOf(s, c) < |s|
  }

  /** A line without `&` and `|` that is executed with these words. */
  ghost predicate IsLine(line: Str, ws: seq<Str>) {
    !HasUnit(line, AMPERSAND) && !HasUnit(line, BAR) && ws != [] && Tokens(line, MAX_ARGS) == ws
  }

  /** The text behind the first `c`. */
  function Behind(s: Str, c: Char16): Str
    requires HasUnit(s, c)
  {
    s[IndexOf(s, c) + 1..]
  }

  function Before(s: Str, c: Char16): Str {
    s[..IndexOf(s, c)]
  }

  /** An `echo` segment with an argument is longer than the five units the pipeline skips. */
  lemma {:induction false} EchoSegmentIsLong(s: Str)
    requires |Tokens(Segment(s), MAX_ARGS)| >= 2 && Tokens(Segment(s), MAX_ARGS)[0] == ECHO
    ensures |s| >= 6
  {
    var a, b := TrimParts(s);
    var t := Take(Segment(s), MAX_LINE - 1);
    var gaps := ScanWeaves(t);
    var ws := Words(t);
    assert t == gaps[0] + ws[0] + Weave(gaps[1..], ws[1..]);
    assert Weave(gaps[1..], ws[1..]) == gaps[1] + ws[1] + Weave(gaps[1..][1..], ws[1..][1..]);
    assert gaps[1] != [] && IsWord(ws[1]);
  }

  /** `echo <text> | grep <pattern>`; any other pipeline is refused with a message. */
  ghost function Pipeline(env: Env, w: World, command: Str): World
    requires HasUnit(command, BAR)
  {
    var left := Tokens(Segment(Before(command, BAR)), MAX_ARGS);
    var right := Tokens(Segment(Behind(command, BAR)), MAX_ARGS);
    if |left| < 2 || left[0] != ECHO then Say(env, w, PipesNeedEcho)
    else if |right| != 2 || right[0] != GREP then Say(env, w, EchoGrepUsage)
    else
      EchoSegmentIsLong(Before(command, BAR));
      var text := Segment(command[5..IndexOf(command, BAR)]);
      if IsSubstring(text, right[1]) then PutLine(w, text) else w
  }

  /** The commands a script issues, given what `source` reads of it. */
  function ScriptLines(content: seq<Byte>): seq<Str> {
    SourceLines(Units(Take(content, SCRIPT_LIMIT)))
  }

  /** On scripts that `source` reads whole, it issues what the batch runner would, if and only if
      every line is tidy. */
  lemma ScriptsAgree(content: seq<Byte>)
    requires |content| <= SCRIPT_LIMIT && NulFree(Units(content))
    ensures ScriptLines(content) == BatchLines(Units(content)) <==> AllTidy(Units(content))
  {
    assert Take(content, SCRIPT_LIMIT) == content;
    SplittersAgree(Units(content));
  }

  ghost function Run(env: Env, w: World, command: Str, depth: nat): Outcome
    decreases depth, 0, |command|, 1
  {
    if HasUnit(command, AMPERSAND) then
      SegmentShrinks(command);
      var first := Run(env, w, Segment(Before(command, AMPERSAND)), depth);
      if first.TooDeep? then TooDeep
      else Run(env, first.world, Segment(Behind(command, AMPERSAND)), depth)
    else RunSimple(env, w, command, depth)
  }

  /** A command line without `&`. */
  ghost function RunSimple(env: Env, w: World, command: Str, depth: nat): Outcome
    decreases depth, 0, |command|, 0
  {
    var ws := Tokens(command, MAX_ARGS);
    if HasUnit(command, BAR) then Done(Pipeline(env, w, command), 0)
    else if ws == [] then Done(w, 0)
    else
      var name := NameOf(env, ws[0]);
      if name == Source then
        if |ws| == 2 && ws[1] in w.files then
          if depth == 0 then TooDeep else RunLines(env, w, ScriptLines(w.files[ws[1]]), depth - 1)
        else Done(Say(env, w, SourceUsage), 0)
      else Done(Command(env, w, name, ws, Arguments(command)), ResultOf(name))
  }

  /** Command lines one after the other; a script ignores their results. */
  ghost function RunLines(env: Env, w: World, lines: seq<Str>, depth: nat): Outcome
    decreases depth, 1, |lines|, 0
  {
    if lines == [] then Done(w, 0)
    else
      var first := Run(env, w, lines[0], depth);
      if first.TooDeep? then TooDeep else RunLines(env, first.world, lines[1..], depth)
  }

  /** Both halves of a sequence are strictly shorter than the whole. */
  lemma SegmentShrinks(command: Str)
    requires HasUnit(command, AMPERSAND)
    ensures |Segment(Before(command, AMPERSAND))| < |command|
    ensures |Segment(Behind(command, AMPERSAND))| < |command|
  {
  }
}
