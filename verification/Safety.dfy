/** What every execution keeps, whatever it runs and however deeply scripts nest. */
module Safety {
  import opened Text
  import opened Tokenizer
  import opened Segments
  import opened Files
  import opened Semantics

  /** A property that single commands keep and that does not look at the screen. */
  ghost predicate Kept(env: Env, inv: World -> bool) {
    && (forall w: World, name, ws: seq<Str>, arguments ::
          inv(w) && ws != [] ==> inv(Command(env, w, name, ws, arguments)))
    && (forall w: World, screen :: inv(w) ==> inv(w.(screen := screen)))
  }

  /** What single commands keep, every execution keeps. */
  lemma {:induction false} RunKeeps(env: Env, inv: World -> bool, w: World, command: Str, depth: nat)
    requires Kept(env, inv) && inv(w) && Run(env, w, command, depth).Done?
    ensures inv(Run(env, w, command, depth).world)
    decreases depth, 0, |command|, 1
  {
    hide NameOf, Tokens, Segment, ScriptLines, Command;
    if HasUnit(command, AMPERSAND) {
      SegmentShrinks(command);
      var left := Segment(Before(command, AMPERSAND));
      RunKeeps(env, inv, w, left, depth);
      RunKeeps(env, inv, Run(env, w, left, depth).world, Segment(Behind(command, AMPERSAND)), depth);
    } else if HasUnit(command, BAR) {
      PipelineOnlyPrints(env, w, command);
    } else {
      var ws := Tokens(command, MAX_ARGS);
      if |ws| == 2 && NameOf(env, ws[0]) == Source && ws[1] in w.files {
        LinesKeep(env, inv, w, ScriptLines(w.files[ws[1]]), depth - 1);
      }
    }
  }

  lemma {:induction false} LinesKeep(env: Env, inv: World -> bool, w: World, lines: seq<Str>, depth: nat)
    requires Kept(env, inv) && inv(w) && RunLines(env, w, lines, depth).Done?
    ensures inv(RunLines(env, w, lines, depth).world)
    decreases depth, 1, |lines|, 0
  {
    if lines != [] {
      RunKeeps(env, inv, w, lines[0], depth);
      LinesKeep(env, inv, Run(env, w, lines[0], depth).world, lines[1..], depth);
    }
  }

  lemma PipelineOnlyPrints(env: Env, w: World, command: Str)
    requires HasUnit(command, BAR)
    ensures Pipeline(env, w, command) == w.(screen := Pipeline(env, w, command).screen)
  {
  }

  // ----- The current path

  /** The prompt's path is the root of one of the two volumes. */
  predicate OnVolume(w: World) {
    w.path == RootOf('B' as int) || w.path == RootOf('C' as int)
  }

  ghost predicate ExternalKeepsVolume(env: Env) {
    forall w: World, ws: seq<Str> :: OnVolume(w) ==> OnVolume(env.external(w, ws))
  }

  lemma {:induction false} GrepOnlyPrints(w: World, ws: seq<Str>, i: nat)
    requires |ws| > 1
    ensures GrepWords(w, ws, i).path == w.path && GrepWords(w, ws, i).drive == w.drive
    decreases |ws| - i
  {
    if i < |ws| {
      GrepOnlyPrints(if IsSubstring(ws[i], ws[1]) then PutLine(w, ws[i]) else w, ws, i + 1);
    }
  }

  lemma CommandKeepsVolume(env: Env, w: World, name: Name, ws: seq<Str>, arguments: Str)
    requires ExternalKeepsVolume(env) && OnVolume(w) && ws != []
    ensures OnVolume(Command(env, w, name, ws, arguments))
  {
    hide Join, Payload, CatText;
    if name == Grep && |ws| >= 3 {
      GrepOnlyPrints(w, ws, 2);
    } else if name == Dir {
      var before := if |ws| > 1 && HasDrive(ws[1]) then SelectDrive(w, ws[1]) else w;
      assert OnVolume(before);
    }
  }

  /** No command line, however it nests, leads the path off the two volumes. */
  lemma {:induction false} PathStaysOnVolume(env: Env, w: World, command: Str, depth: nat)
    requires ExternalKeepsVolume(env) && OnVolume(w) && Run(env, w, command, depth).Done?
    ensures OnVolume(Run(env, w, command, depth).world)
  {
    hide Command, Run;
    forall w: World, name, ws: seq<Str>, arguments | OnVolume(w) && ws != []
      ensures OnVolume(Command(env, w, name, ws, arguments))
    {
      CommandKeepsVolume(env, w, name, ws, arguments);
    }
    RunKeeps(env, (w: World) => OnVolume(w), w, command, depth);
  }

  // ----- The drive letter

  ghost predicate ExternalKeepsDrive(env: Env) {
    forall w: World, ws: seq<Str> :: env.external(w, ws).drive == w.drive && env.external(w, ws).path == w.path
  }

  /** The letters that an execution stores as the current drive, in order. */
  ghost function Selected(env: Env, w: World, command: Str, depth: nat): seq<Char16>
    decreases depth, 0, |command|, 1
  {
    if HasUnit(command, AMPERSAND) then
      SegmentShrinks(command);
      var first := Run(env, w, Segment(Before(command, AMPERSAND)), depth);
      Selected(env, w, Segment(Before(command, AMPERSAND)), depth)
      + if first.TooDeep? then [] else Selected(env, first.world, Segment(Behind(command, AMPERSAND)), depth)
    else SelectedSimple(env, w, command, depth)
  }

  ghost function SelectedSimple(env: Env, w: World, command: Str, depth: nat): seq<Char16>
    decreases depth, 0, |command|, 0
  {
    var ws := Tokens(command, MAX_ARGS);
    if HasUnit(command, BAR) || ws == [] then []
    else if NameOf(env, ws[0]) == Source then
      if |ws| == 2 && ws[1] in w.files && depth > 0
      then SelectedByLines(env, w, ScriptLines(w.files[ws[1]]), depth - 1) else []
    else SelectedByCommand(NameOf(env, ws[0]), ws)
  }

  function SelectedByCommand(name: Name, ws: seq<Str>): seq<Char16> {
    if name in {Cd, Dir} && |ws| > 1 && HasDrive(ws[1]) then [ws[1][0]] else []
  }

  ghost function SelectedByLines(env: Env, w: World, lines: seq<Str>, depth: nat): seq<Char16>
    decreases depth, 1, |lines|, 0
  {
    if lines == [] then []
    else
      var first := Run(env, w, lines[0], depth);
      Selected(env, w, lines[0], depth)
      + if first.TooDeep? then [] else SelectedByLines(env, first.world, lines[1..], depth)
  }

  /** What the letters stored in between mean for drive and path. */
  ghost predicate Follows(before: World, letters: seq<Char16>, after: World) {
    && (OnVolume(before) ==> OnVolume(after))
    && (letters == [] ==> after.drive == before.drive && after.path == before.path)
    && (letters != [] ==> after.drive == letters[|letters| - 1])
    && (letters != [] && OnVolume(before) ==> (after.path == RootOf(after.drive) <==> IsVolume(after.drive)))
  }

  lemma FollowsOn(a: World, x: seq<Char16>, b: World, y: seq<Char16>, c: World)
    requires Follows(a, x, b) && Follows(b, y, c)
    ensures Follows(a, x + y, c)
  {
    assert y == [] ==> x + y == x;
  }

  lemma CommandFollows(env: Env, w: World, name: Name, ws: seq<Str>, arguments: Str)
    requires ExternalKeepsDrive(env) && ws != [] && name != Source
    ensures Follows(w, SelectedByCommand(name, ws), Command(env, w, name, ws, arguments))
  {
    hide Join, Payload, CatText;
    if name == Grep && |ws| >= 3 {
      GrepOnlyPrints(w, ws, 2);
    }
  }

  /** Over every execution, the drive is the letter stored last. */
  lemma {:induction false} RunFollows(env: Env, w: World, command: Str, depth: nat)
    requires ExternalKeepsDrive(env) && Run(env, w, command, depth).Done?
    ensures Follows(w, Selected(env, w, command, depth), Run(env, w, command, depth).world)
    decreases depth, 0, |command|, 1
  {
    hide NameOf, Tokens, Segment, ScriptLines, Command, Follows;
    if HasUnit(command, AMPERSAND) {
      SegmentShrinks(command);
      var left, right := Segment(Before(command, AMPERSAND)), Segment(Behind(command, AMPERSAND));
      RunFollows(env, w, left, depth);
      var between := Run(env, w, left, depth).world;
      RunFollows(env, between, right, depth);
      FollowsOn(w, Selected(env, w, left, depth), between, Selected(env, between, right, depth),
                Run(env, between, right, depth).world);
    } else {
      SimpleFollows(env, w, command, depth);
    }
  }

  lemma {:induction false} SimpleFollows(env: Env, w: World, command: Str, depth: nat)
    requires ExternalKeepsDrive(env) && RunSimple(env, w, command, depth).Done?
    ensures Follows(w, SelectedSimple(env, w, command, depth), RunSimple(env, w, command, depth).world)
    decreases depth, 0, |command|, 0
  {
    hide NameOf, Tokens, ScriptLines, Command;
    var ws := Tokens(command, MAX_ARGS);
    if HasUnit(command, BAR) {
      PipelineOnlyPrints(env, w, command);
    } else if ws != [] {
      if NameOf(env, ws[0]) != Source {
        CommandFollows(env, w, NameOf(env, ws[0]), ws, Arguments(command));
      } else if |ws| == 2 && ws[1] in w.files {
        LinesFollow(env, w, ScriptLines(w.files[ws[1]]), depth - 1);
      }
    }
  }

  lemma {:induction false} LinesFollow(env: Env, w: World, lines: seq<Str>, depth: nat)
    requires ExternalKeepsDrive(env) && RunLines(env, w, lines, depth).Done?
    ensures Follows(w, SelectedByLines(env, w, lines, depth), RunLines(env, w, lines, depth).world)
    decreases depth, 1, |lines|, 0
  {
    hide Run, Selected;
    if lines != [] {
      RunFollows(env, w, lines[0], depth);
      var next := Run(env, w, lines[0], depth).world;
      LinesFollow(env, next, lines[1..], depth);
      FollowsOn(w, Selected(env, w, lines[0], depth), next, SelectedByLines(env, next, lines[1..], depth),
                RunLines(env, next, lines[1..], depth).world);
    }
  }

  /** From a state in which drive and path agree, they agree after an execution if and only if it
      has selected no drive, or the last one it has selected exists: a letter is stored before it
      is checked. */
  lemma DriveMatchesPath(env: Env, w: World, command: Str, depth: nat)
    requires ExternalKeepsDrive(env) && OnVolume(w) && w.path == RootOf(w.drive)
    requires Run(env, w, command, depth).Done?
    ensures var letters := Selected(env, w, command, depth); var after := Run(env, w, command, depth).world;
            && after.drive == (if letters == [] then w.drive else letters[|letters| - 1])
            && (after.path == RootOf(after.drive) <==> letters == [] || IsVolume(letters[|letters| - 1]))
  {
    hide Run, Selected;
    RunFollows(env, w, command, depth);
  }

  /** The same for one executed line: it selects the letter of its argument. */
  lemma DriveLine(env: Env, w: World, command: Str, depth: nat)
    requires ExternalKeepsDrive(env) && OnVolume(w)
    requires !HasUnit(command, AMPERSAND) && !HasUnit(command, BAR)
    requires var ws := Tokens(command, MAX_ARGS);
             |ws| > 1 && NameOf(env, ws[0]) in {Cd, Dir} && HasDrive(ws[1])
    ensures var letter := Tokens(command, MAX_ARGS)[1][0]; var o := Run(env, w, command, depth);
            && o.Done? && o.world.drive == letter
            && (o.world.path == RootOf(o.world.drive) <==> IsVolume(letter))
  {
    hide NameOf, Tokens, Command;
    var ws := Tokens(command, MAX_ARGS);
    CommandFollows(env, w, NameOf(env, ws[0]), ws, Arguments(command));
  }
}
