/** When executing a line comes to an end, in a program that bounds no nesting of scripts: exactly
    if the scripts it can reach are ordered. */
module Termination {
  import opened Text
  import opened Tokenizer
  import opened Segments
  import opened Files
  import opened Semantics
  import opened RoundTrips

  /** The `&`-free commands that running a line executes. */
  function Simples(command: Str): seq<Str>
    decreases |command|
  {
    if HasUnit(command, AMPERSAND) then
      SegmentShrinks(command);
      Simples(Segment(Before(command, AMPERSAND))) + Simples(Segment(Behind(command, AMPERSAND)))
    else [command]
  }

  predicate Sources(env: Env, simple: Str, path: Str) {
    var ws := Tokens(simple, MAX_ARGS);
    !HasUnit(simple, BAR) && |ws| == 2 && NameOf(env, ws[0]) == Source && ws[1] == path
  }

  predicate Rewrites(env: Env, simple: Str, path: Str) {
    var ws := Tokens(simple, MAX_ARGS);
    !HasUnit(simple, BAR) && |ws| >= 2 && NameOf(env, ws[0]) in {Touch, Rm, Write, Append} && ws[1] == path
  }

  /** A line that sources only scripts ranked below `limit` and rewrites no script. */
  ghost predicate Admits(env: Env, scripts: set<Str>, rank: Str -> nat, command: Str, limit: nat) {
    forall s, p :: s in Simples(command) ==>
      && (Sources(env, s, p) ==> p in scripts && rank(p) < limit)
      && (Rewrites(env, s, p) ==> p !in scripts)
  }

  ghost predicate AdmitsAll(env: Env, scripts: set<Str>, rank: Str -> nat, lines: seq<Str>, limit: nat) {
    forall i :: 0 <= i < |lines| ==> Admits(env, scripts, rank, lines[i], limit)
  }

  /** Every script sources only scripts of lower rank, and rewrites none. */
  ghost predicate Ordered(env: Env, scripts: set<Str>, rank: Str -> nat, files: map<Str, seq<Byte>>) {
    forall p :: p in scripts && p in files ==> AdmitsAll(env, scripts, rank, ScriptLines(files[p]), rank(p))
  }

  ghost predicate SameScripts(scripts: set<Str>, a: map<Str, seq<Byte>>, b: map<Str, seq<Byte>>) {
    forall p :: p in scripts ==> (p in a <==> p in b) && (p in a && p in b ==> a[p] == b[p])
  }

  /** Commands implemented elsewhere leave the scripts alone. */
  ghost predicate Keeps(env: Env, scripts: set<Str>) {
    forall w: World, ws: seq<Str> :: SameScripts(scripts, w.files, env.external(w, ws).files)
  }

  lemma {:induction false} GrepKeepsFiles(w: World, ws: seq<Str>, i: nat)
    requires |ws| > 1
    ensures GrepWords(w, ws, i).files == w.files
    decreases |ws| - i
  {
    if i < |ws| {
      GrepKeepsFiles(if IsSubstring(ws[i], ws[1]) then PutLine(w, ws[i]) else w, ws, i + 1);
    }
  }

  lemma CommandKeepsScripts(env: Env, scripts: set<Str>, w: World, name: Name, ws: seq<Str>, arguments: Str)
    requires ws != [] && Keeps(env, scripts)
    requires name in {Touch, Rm, Write, Append} && |ws| >= 2 ==> ws[1] !in scripts
    ensures SameScripts(scripts, w.files, Command(env, w, name, ws, arguments).files)
  {
    hide Join, Payload, CatText;
    if name == Grep && |ws| >= 3 {
      GrepKeepsFiles(w, ws, 2);
    } else if name == Dir {
      var before := if |ws| > 1 && HasDrive(ws[1]) then SelectDrive(w, ws[1]) else w;
      assert SameScripts(scripts, before.files, env.external(before, ws).files);
    } else if name == External {
      assert SameScripts(scripts, w.files, env.external(w, ws).files);
    }
  }

  /** With scripts in order, a line that admits nesting `depth` runs to its end. */
  lemma {:induction false} Terminates(
    env: Env, scripts: set<Str>, rank: Str -> nat, w: World, command: Str, depth: nat)
    requires Keeps(env, scripts) && Ordered(env, scripts, rank, w.files)
    requires Admits(env, scripts, rank, command, depth)
    ensures Run(env, w, command, depth).Done?
    ensures SameScripts(scripts, w.files, Run(env, w, command, depth).world.files)
    decreases depth, 0, |command|, 1
  {
    if HasUnit(command, AMPERSAND) {
      SegmentShrinks(command);
      var left, right := Segment(Before(command, AMPERSAND)), Segment(Behind(command, AMPERSAND));
      assert Simples(command) == Simples(left) + Simples(right);
      assert Admits(env, scripts, rank, left, depth) && Admits(env, scripts, rank, right, depth);
      Terminates(env, scripts, rank, w, left, depth);
      var between := Run(env, w, left, depth).world;
      OrderKept(env, scripts, rank, w.files, between.files);
      Terminates(env, scripts, rank, between, right, depth);
    } else {
      assert command in Simples(command);
      TerminatesSimple(env, scripts, rank, w, command, depth);
    }
  }

  lemma PipelineKeepsFiles(env: Env, w: World, command: Str)
    requires HasUnit(command, BAR)
    ensures Pipeline(env, w, command).files == w.files
  {
  }

  lemma OtherTerminates(env: Env, scripts: set<Str>, w: World, command: Str, depth: nat)
    requires !HasUnit(command, BAR) && Tokens(command, MAX_ARGS) != []
    requires NameOf(env, Tokens(command, MAX_ARGS)[0]) != Source && Keeps(env, scripts)
    requires forall p :: Rewrites(env, command, p) ==> p !in scripts
    ensures RunSimple(env, w, command, depth).Done?
    ensures SameScripts(scripts, w.files, RunSimple(env, w, command, depth).world.files)
  {
    var ws := Tokens(command, MAX_ARGS);
    var name := NameOf(env, ws[0]);
    if |ws| >= 2 && name in {Touch, Rm, Write, Append} {
      assert Rewrites(env, command, ws[1]);
    }
    CommandKeepsScripts(env, scripts, w, name, ws, Arguments(command));
  }

  lemma {:induction false} TerminatesSimple(
    env: Env, scripts: set<Str>, rank: Str -> nat, w: World, command: Str, depth: nat)
    requires Keeps(env, scripts) && Ordered(env, scripts, rank, w.files)
    requires forall p :: Sources(env, command, p) ==> p in scripts && rank(p) < depth
    requires forall p :: Rewrites(env, command, p) ==> p !in scripts
    ensures RunSimple(env, w, command, depth).Done?
    ensures SameScripts(scripts, w.files, RunSimple(env, w, command, depth).world.files)
    decreases depth, 0, |command|, 0
  {
    hide NameOf, Tokens, ScriptLines, Command, Pipeline;
    var ws := Tokens(command, MAX_ARGS);
    if HasUnit(command, BAR) {
      PipelineKeepsFiles(env, w, command);
    } else if ws != [] {
      if NameOf(env, ws[0]) != Source {
        OtherTerminates(env, scripts, w, command, depth);
      } else if |ws| == 2 && ws[1] in w.files {
        assert Sources(env, command, ws[1]);
        var lines := ScriptLines(w.files[ws[1]]);
        LimitRaised(env, scripts, rank, lines, rank(ws[1]), depth - 1);
        TerminatesLines(env, scripts, rank, w, lines, depth - 1);
      }
    }
  }

  lemma {:induction false} TerminatesLines(
    env: Env, scripts: set<Str>, rank: Str -> nat, w: World, lines: seq<Str>, depth: nat)
    requires Keeps(env, scripts) && Ordered(env, scripts, rank, w.files)
    requires AdmitsAll(env, scripts, rank, lines, depth)
    ensures RunLines(env, w, lines, depth).Done?
    ensures SameScripts(scripts, w.files, RunLines(env, w, lines, depth).world.files)
    decreases depth, 1, |lines|, 0
  {
    if lines != [] {
      Terminates(env, scripts, rank, w, lines[0], depth);
      var next := Run(env, w, lines[0], depth).world;
      OrderKept(env, scripts, rank, w.files, next.files);
      TerminatesLines(env, scripts, rank, next, lines[1..], depth);
    }
  }

  lemma OrderKept(env: Env, scripts: set<Str>, rank: Str -> nat, a: map<Str, seq<Byte>>, b: map<Str, seq<Byte>>)
    requires Ordered(env, scripts, rank, a) && SameScripts(scripts, a, b)
    ensures Ordered(env, scripts, rank, b)
  {
  }

  lemma LimitRaised(env: Env, scripts: set<Str>, rank: Str -> nat, lines: seq<Str>, low: nat, high: nat)
    requires AdmitsAll(env, scripts, rank, lines, low) && low <= high
    ensures AdmitsAll(env, scripts, rank, lines, high)
  {
  }

  // ----- The exact condition

  /** A line that sources only names in `scripts` and rewrites none of them. */
  ghost predicate StaysIn(env: Env, scripts: set<Str>, command: Str) {
    forall s, p :: s in Simples(command) ==>
      (Sources(env, s, p) ==> p in scripts) && (Rewrites(env, s, p) ==> p !in scripts)
  }

  ghost predicate AllStayIn(env: Env, scripts: set<Str>, lines: seq<Str>) {
    forall i :: 0 <= i < |lines| ==> StaysIn(env, scripts, lines[i])
  }

  /** So does every line that a script of `scripts` can issue. */
  ghost predicate Closed(env: Env, scripts: set<Str>, files: map<Str, seq<Byte>>) {
    forall p :: p in scripts && p in files ==> AllStayIn(env, scripts, ScriptLines(files[p]))
  }

  /** No chain of sourced scripts behind the line is longer than `depth`. This looks at the text of
      the scripts alone and executes nothing. */
  ghost predicate Ends(env: Env, files: map<Str, seq<Byte>>, command: Str, depth: nat)
    decreases depth, 0
  {
    forall s, p :: s in Simples(command) && Sources(env, s, p) && p in files ==>
      depth > 0 && AllEnd(env, files, ScriptLines(files[p]), depth - 1)
  }

  ghost predicate AllEnd(env: Env, files: map<Str, seq<Byte>>, lines: seq<Str>, depth: nat)
    decreases depth, 1
  {
    forall i :: 0 <= i < |lines| ==> Ends(env, files, lines[i], depth)
  }

  lemma ClosedKept(env: Env, scripts: set<Str>, a: map<Str, seq<Byte>>, b: map<Str, seq<Byte>>)
    requires Closed(env, scripts, a) && SameScripts(scripts, a, b)
    ensures Closed(env, scripts, b)
  {
  }

  /** Files other than the scripts do not matter to the chains. */
  lemma {:induction false} EndsSame(
    env: Env, scripts: set<Str>, a: map<Str, seq<Byte>>, b: map<Str, seq<Byte>>, command: Str, depth: nat)
    requires Closed(env, scripts, a) && SameScripts(scripts, a, b) && StaysIn(env, scripts, command)
    requires Ends(env, a, command, depth)
    ensures Ends(env, b, command, depth)
    decreases depth
  {
    forall s, p | s in Simples(command) && Sources(env, s, p) && p in b
      ensures depth > 0 && AllEnd(env, b, ScriptLines(b[p]), depth - 1)
    {
      var lines := ScriptLines(a[p]);
      assert AllEnd(env, a, lines, depth - 1) && AllStayIn(env, scripts, lines);
      forall i | 0 <= i < |lines| ensures Ends(env, b, lines[i], depth - 1) {
        EndsSame(env, scripts, a, b, lines[i], depth - 1);
      }
    }
  }

  /** So two states with the same scripts have the same chains. */
  lemma EndsAlike(
    env: Env, scripts: set<Str>, a: map<Str, seq<Byte>>, b: map<Str, seq<Byte>>, command: Str, depth: nat)
    requires Closed(env, scripts, a) && SameScripts(scripts, a, b) && StaysIn(env, scripts, command)
    ensures Closed(env, scripts, b)
    ensures Ends(env, a, command, depth) <==> Ends(env, b, command, depth)
  {
    hide Ends, StaysIn;
    ClosedKept(env, scripts, a, b);
    if Ends(env, a, command, depth) {
      EndsSame(env, scripts, a, b, command, depth);
    } else if Ends(env, b, command, depth) {
      EndsSame(env, scripts, b, a, command, depth);
    }
  }

  /** The chains of a sequence are those of its halves. */
  lemma EndsOfHalves(env: Env, files: map<Str, seq<Byte>>, command: Str, depth: nat)
    requires HasUnit(command, AMPERSAND)
    ensures var left, right := Segment(Before(command, AMPERSAND)), Segment(Behind(command, AMPERSAND));
            Ends(env, files, command, depth) <==> Ends(env, files, left, depth) && Ends(env, files, right, depth)
  {
    SegmentShrinks(command);
    var left, right := Segment(Before(command, AMPERSAND)), Segment(Behind(command, AMPERSAND));
    assert Simples(command) == Simples(left) + Simples(right);
  }

  lemma HalvesStayIn(env: Env, scripts: set<Str>, command: Str)
    requires HasUnit(command, AMPERSAND) && StaysIn(env, scripts, command)
    ensures StaysIn(env, scripts, Segment(Before(command, AMPERSAND)))
    ensures StaysIn(env, scripts, Segment(Behind(command, AMPERSAND)))
  {
    SegmentShrinks(command);
    var left, right := Segment(Before(command, AMPERSAND)), Segment(Behind(command, AMPERSAND));
    assert Simples(command) == Simples(left) + Simples(right);
  }

  /** Executing a line ends within a nesting exactly if the text of the scripts says so, and it
      leaves the scripts alone. */
  lemma {:induction false} RunEnds(env: Env, scripts: set<Str>, w: World, command: Str, depth: nat)
    requires Keeps(env, scripts) && Closed(env, scripts, w.files) && StaysIn(env, scripts, command)
    ensures Run(env, w, command, depth).Done? <==> Ends(env, w.files, command, depth)
    ensures Run(env, w, command, depth).Done? ==>
              SameScripts(scripts, w.files, Run(env, w, command, depth).world.files)
    decreases depth, 0, |command|, 1
  {
    if HasUnit(command, AMPERSAND) {
      hide RunSimple, Segment, Before, Behind, StaysIn, Closed, Keeps, Ends;
      SegmentShrinks(command);
      EndsOfHalves(env, w.files, command, depth);
      HalvesStayIn(env, scripts, command);
      var left, right := Segment(Before(command, AMPERSAND)), Segment(Behind(command, AMPERSAND));
      RunEnds(env, scripts, w, left, depth);
      if Run(env, w, left, depth).Done? {
        var between := Run(env, w, left, depth).world;
        EndsAlike(env, scripts, w.files, between.files, right, depth);
        RunEnds(env, scripts, between, right, depth);
      }
    } else {
      assert Simples(command) == [command];
      SimpleEnds(env, scripts, w, command, depth);
    }
  }

  lemma {:induction false} SimpleEnds(env: Env, scripts: set<Str>, w: World, command: Str, depth: nat)
    requires !HasUnit(command, AMPERSAND) && Simples(command) == [command]
    requires Keeps(env, scripts) && Closed(env, scripts, w.files) && StaysIn(env, scripts, command)
    ensures RunSimple(env, w, command, depth).Done? <==> Ends(env, w.files, command, depth)
    ensures RunSimple(env, w, command, depth).Done? ==>
              SameScripts(scripts, w.files, RunSimple(env, w, command, depth).world.files)
    decreases depth, 0, |command|, 0
  {
    hide NameOf, Tokens, ScriptLines, Command, Pipeline, Simples;
    var ws := Tokens(command, MAX_ARGS);
    assert command in Simples(command);
    if HasUnit(command, BAR) {
      PipelineKeepsFiles(env, w, command);
    } else if ws != [] {
      if NameOf(env, ws[0]) != Source {
        OtherTerminates(env, scripts, w, command, depth);
      } else if |ws| == 2 && ws[1] in w.files {
        assert Sources(env, command, ws[1]);
        if depth > 0 {
          LinesEnd(env, scripts, w, ScriptLines(w.files[ws[1]]), depth - 1);
        }
      }
    }
  }

  lemma {:induction false} LinesEnd(env: Env, scripts: set<Str>, w: World, lines: seq<Str>, depth: nat)
    requires Keeps(env, scripts) && Closed(env, scripts, w.files) && AllStayIn(env, scripts, lines)
    ensures RunLines(env, w, lines, depth).Done? <==> AllEnd(env, w.files, lines, depth)
    ensures RunLines(env, w, lines, depth).Done? ==>
              SameScripts(scripts, w.files, RunLines(env, w, lines, depth).world.files)
    decreases depth, 1, |lines|, 0
  {
    hide Run, Ends;
    if lines != [] {
      RunEnds(env, scripts, w, lines[0], depth);
      AllEndSplits(env, w.files, lines, depth);
      if Run(env, w, lines[0], depth).Done? {
        var next := Run(env, w, lines[0], depth).world;
        AllEndAlike(env, scripts, w.files, next.files, lines[1..], depth);
        LinesEnd(env, scripts, next, lines[1..], depth);
      }
    }
  }

  lemma AllEndSplits(env: Env, files: map<Str, seq<Byte>>, lines: seq<Str>, depth: nat)
    requires lines != []
    ensures AllEnd(env, files, lines, depth) <==>
            Ends(env, files, lines[0], depth) && AllEnd(env, files, lines[1..], depth)
  {
    hide Ends;
    assert forall i :: 0 < i < |lines| ==> lines[i] == lines[1..][i - 1];
  }

  lemma AllEndAlike(
    env: Env, scripts: set<Str>, a: map<Str, seq<Byte>>, b: map<Str, seq<Byte>>, lines: seq<Str>, depth: nat)
    requires Closed(env, scripts, a) && SameScripts(scripts, a, b) && AllStayIn(env, scripts, lines)
    ensures Closed(env, scripts, b)
    ensures AllEnd(env, a, lines, depth) <==> AllEnd(env, b, lines, depth)
  {
    hide Ends;
    ClosedKept(env, scripts, a, b);
    forall i | 0 <= i < |lines| ensures Ends(env, a, lines[i], depth) <==> Ends(env, b, lines[i], depth) {
      EndsAlike(env, scripts, a, b, lines[i], depth);
    }
  }

  // ----- From chains to ranks

  /** The least nesting within which the lines end. */
  ghost function LeastDepth(env: Env, files: map<Str, seq<Byte>>, lines: seq<Str>): (least: nat)
    requires exists depth: nat :: AllEnd(env, files, lines, depth)
    ensures AllEnd(env, files, lines, least)
    ensures forall depth: nat :: AllEnd(env, files, lines, depth) ==> least <= depth
  {
    var depth: nat :| AllEnd(env, files, lines, depth);
    LeastFrom(env, files, lines, 0, depth)
  }

  ghost function LeastFrom(env: Env, files: map<Str, seq<Byte>>, lines: seq<Str>, k: nat, depth: nat): (least: nat)
    requires k <= depth && AllEnd(env, files, lines, depth)
    requires forall d: nat :: d < k ==> !AllEnd(env, files, lines, d)
    ensures AllEnd(env, files, lines, least)
    ensures forall d: nat :: AllEnd(env, files, lines, d) ==> least <= d
    decreases depth - k
  {
    if AllEnd(env, files, lines, k) then k else LeastFrom(env, files, lines, k + 1, depth)
  }

  /** A script that is there and comes to an end. */
  ghost predicate Halts(env: Env, files: map<Str, seq<Byte>>, p: Str) {
    p in files && exists depth: nat :: AllEnd(env, files, ScriptLines(files[p]), depth)
  }

  ghost function RankOf(env: Env, files: map<Str, seq<Byte>>, p: Str): nat {
    if Halts(env, files, p) then 1 + LeastDepth(env, files, ScriptLines(files[p])) else 0
  }

  /** The scripts that are missing, and those that come to an end. */
  ghost function Live(env: Env, scripts: set<Str>, files: map<Str, seq<Byte>>): set<Str> {
    set p | p in scripts && (p !in files || Halts(env, files, p))
  }

  /** What a line that ends within a nesting sources is live and has at most that rank. */
  lemma EndedIsAdmitted(
    env: Env, scripts: set<Str>, files: map<Str, seq<Byte>>, command: Str, depth: nat)
    requires StaysIn(env, scripts, command) && Ends(env, files, command, depth)
    ensures Admits(env, Live(env, scripts, files), p => RankOf(env, files, p), command, depth + 1)
  {
    var live := Live(env, scripts, files);
    forall s, p | s in Simples(command) && Sources(env, s, p)
      ensures p in live && RankOf(env, files, p) <= depth
    {
      if p in files {
        assert AllEnd(env, files, ScriptLines(files[p]), depth - 1);
        assert Halts(env, files, p);
      }
    }
  }

  lemma LiveIsOrdered(env: Env, scripts: set<Str>, files: map<Str, seq<Byte>>)
    requires Closed(env, scripts, files)
    ensures Ordered(env, Live(env, scripts, files), p => RankOf(env, files, p), files)
  {
    hide Ends, Admits;
    var live, rank := Live(env, scripts, files), (p: Str) => RankOf(env, files, p);
    forall p | p in live && p in files ensures AdmitsAll(env, live, rank, ScriptLines(files[p]), rank(p)) {
      var lines := ScriptLines(files[p]);
      var least := LeastDepth(env, files, lines);
      assert AllStayIn(env, scripts, lines);
      forall i | 0 <= i < |lines| ensures Admits(env, live, rank, lines[i], rank(p)) {
        EndedIsAdmitted(env, scripts, files, lines[i], least);
      }
    }
  }

  /** Some of the scripts can be ordered so that the line sources only these, each sources only
      lower ones, and none is rewritten. */
  ghost predicate CanBeOrdered(env: Env, scripts: set<Str>, files: map<Str, seq<Byte>>, command: Str) {
    exists live: set<Str>, rank: Str -> nat, limit: nat ::
      live <= scripts && Ordered(env, live, rank, files) && Admits(env, live, rank, command, limit)
  }

  /** The order behind an execution that has come to its end. */
  lemma OrderBehind(env: Env, scripts: set<Str>, w: World, command: Str, depth: nat)
    returns (live: set<Str>, rank: Str -> nat, limit: nat)
    requires Keeps(env, scripts) && Closed(env, scripts, w.files) && StaysIn(env, scripts, command)
    requires Run(env, w, command, depth).Done?
    ensures live <= scripts && Ordered(env, live, rank, w.files) && Admits(env, live, rank, command, limit)
  {
    hide Run, Ends, Admits;
    RunEnds(env, scripts, w, command, depth);
    EndedIsAdmitted(env, scripts, w.files, command, depth);
    LiveIsOrdered(env, scripts, w.files);
    live, rank, limit := Live(env, scripts, w.files), p => RankOf(env, w.files, p), depth + 1;
  }

  /** If no executed command rewrites a script, a line comes to an end if and only if the scripts it
      reaches can be ordered. */
  lemma {:induction false} EndsIffOrdered(env: Env, scripts: set<Str>, w: World, command: Str)
    requires Keeps(env, scripts) && Closed(env, scripts, w.files) && StaysIn(env, scripts, command)
    ensures (exists depth: nat :: Run(env, w, command, depth).Done?)
       <==> CanBeOrdered(env, scripts, w.files, command)
  {
    hide Run, Ends, Admits;
    if depth: nat :| Run(env, w, command, depth).Done? {
      var live, rank, limit := OrderBehind(env, scripts, w, command, depth);
    }
    if CanBeOrdered(env, scripts, w.files, command) {
      var live: set<Str>, rank: Str -> nat, limit: nat :|
        live <= scripts && Ordered(env, live, rank, w.files) && Admits(env, live, rank, command, limit);
      Terminates(env, live, rank, w, command, limit);
    }
  }

  // ----- Cycles

  /** Every name is a file with a line that sources the next name, and the last leads to the first. */
  ghost predicate IsCycle(env: Env, files: map<Str, seq<Byte>>, cycle: seq<Str>) {
    && cycle != []
    && forall i :: 0 <= i < |cycle| ==> cycle[i] in files && LeadsTo(env, files, cycle[i], Next(cycle, i))
  }

  ghost predicate LeadsTo(env: Env, files: map<Str, seq<Byte>>, p: Str, q: Str)
    requires p in files
  {
    exists line, s :: line in ScriptLines(files[p]) && s in Simples(line) && Sources(env, s, q)
  }

  function Next(cycle: seq<Str>, i: nat): Str
    requires i < |cycle|
  {
    if i + 1 < |cycle| then cycle[i + 1] else cycle[0]
  }

  lemma {:induction false} CycleHasNoRank(
    env: Env, live: set<Str>, rank: Str -> nat, files: map<Str, seq<Byte>>, cycle: seq<Str>, i: nat)
    requires Ordered(env, live, rank, files) && IsCycle(env, files, cycle) && i < |cycle| && cycle[0] in live
    ensures cycle[i] in live && rank(cycle[i]) + i <= rank(cycle[0])
  {
    hide Ordered, LeadsTo;
    if i > 0 {
      CycleHasNoRank(env, live, rank, files, cycle, i - 1);
      EdgeFalls(env, live, rank, files, cycle[i - 1], cycle[i]);
    }
  }

  lemma EdgeFalls(env: Env, live: set<Str>, rank: Str -> nat, files: map<Str, seq<Byte>>, p: Str, q: Str)
    requires Ordered(env, live, rank, files) && p in live && p in files && LeadsTo(env, files, p, q)
    ensures q in live && rank(q) < rank(p)
  {
    var line, s :| line in ScriptLines(files[p]) && s in Simples(line) && Sources(env, s, q);
    var i :| 0 <= i < |ScriptLines(files[p])| && ScriptLines(files[p])[i] == line;
    assert Admits(env, live, rank, ScriptLines(files[p])[i], rank(p));
  }

  lemma SourcedIsLive(
    env: Env, live: set<Str>, rank: Str -> nat, command: Str, limit: nat, simple: Str, p: Str)
    requires Admits(env, live, rank, command, limit) && simple in Simples(command) && Sources(env, simple, p)
    ensures p in live
  {
  }

  /** A line that reaches a cycle of scripts never comes to an end, at any nesting: wherever in the
      scripts the cycle closes, and however long it is. */
  lemma {:induction false} CycleNeverEnds(
    env: Env, scripts: set<Str>, w: World, command: Str, simple: Str, cycle: seq<Str>, depth: nat)
    requires Keeps(env, scripts) && Closed(env, scripts, w.files) && StaysIn(env, scripts, command)
    requires IsCycle(env, w.files, cycle)
    requires simple in Simples(command) && Sources(env, simple, cycle[0])
    ensures Run(env, w, command, depth) == TooDeep
  {
    hide Run, Sources, Simples, Ordered, Admits, LeadsTo;
    if Run(env, w, command, depth).Done? {
      var live, rank, limit := OrderBehind(env, scripts, w, command, depth);
      SourcedIsLive(env, live, rank, command, limit, simple, cycle[0]);
      var last := |cycle| - 1;
      CycleHasNoRank(env, live, rank, w.files, cycle, last);
      EdgeFalls(env, live, rank, w.files, cycle[last], cycle[0]);
      assert false;
    }
  }

  /** Scripts whose first commands source one another never end either, whatever the rest of them
      does and whichever files it rewrites. */
  lemma {:induction false} FirstLinesNeverEnd(env: Env, scripts: set<Str>, w: World, script: Str, file: Str, depth: nat)
    requires forall p :: p in scripts ==> p in w.files && StartsIn(env, scripts, w.files[p])
    requires file in scripts && IsLine(script, [SOURCE, file])
    ensures Run(env, w, script, depth) == TooDeep
    decreases depth
  {
    hide Run, ScriptLines, IsLine;
    SourceRuns(env, w, script, file, if depth == 0 then 0 else depth - 1);
    if depth > 0 {
      var lines := ScriptLines(w.files[file]);
      var next :| next in scripts && IsLine(lines[0], [SOURCE, next]);
      FirstLinesNeverEnd(env, scripts, w, lines[0], next, depth - 1);
      FirstTooDeep(env, w, lines, depth - 1);
    }
  }

  lemma FirstTooDeep(env: Env, w: World, lines: seq<Str>, depth: nat)
    requires lines != [] && Run(env, w, lines[0], depth).TooDeep?
    ensures RunLines(env, w, lines, depth) == TooDeep
  {
  }

  /** A script whose first command sources one of the scripts. */
  ghost predicate StartsIn(env: Env, scripts: set<Str>, content: seq<Byte>) {
    ScriptLines(content) != [] && exists next :: next in scripts && IsLine(ScriptLines(content)[0], [SOURCE, next])
  }
}
