/** Laws of `&` sequencing and of nesting: the recursive executor runs the trimmed pieces left
    to right, and a deeper nesting bound never changes what it does. */
module Sequencing {
  import opened Text
  import opened Tokenizer
  import opened Segments
  import opened Semantics

  // ----- The nesting bound is not part of the meaning

  /** More nesting never changes an outcome that is already there. */
  lemma {:induction false} Deeper(env: Env, w: World, command: Str, depth: nat, more: nat)
    requires depth <= more && Run(env, w, command, depth).Done?
    ensures Run(env, w, command, more) == Run(env, w, command, depth)
    decreases depth, 0, |command|
  {
    hide NameOf, Tokens, Segment, ScriptLines, Command, Pipeline;
    if HasUnit(command, AMPERSAND) {
      SegmentShrinks(command);
      var left := Segment(Before(command, AMPERSAND));
      Deeper(env, w, left, depth, more);
      Deeper(env, Run(env, w, left, depth).world, Segment(Behind(command, AMPERSAND)), depth, more);
    } else {
      var ws := Tokens(command, MAX_ARGS);
      if !HasUnit(command, BAR) && |ws| == 2 && NameOf(env, ws[0]) == Source && ws[1] in w.files {
        DeeperLines(env, w, ScriptLines(w.files[ws[1]]), depth - 1, more - 1);
      }
    }
  }

  lemma {:induction false} DeeperLines(env: Env, w: World, lines: seq<Str>, depth: nat, more: nat)
    requires depth <= more && RunLines(env, w, lines, depth).Done?
    ensures RunLines(env, w, lines, more) == RunLines(env, w, lines, depth)
    decreases depth, 1, |lines|
  {
    if lines != [] {
      Deeper(env, w, lines[0], depth, more);
      DeeperLines(env, Run(env, w, lines[0], depth).world, lines[1..], depth, more);
    }
  }

  // ----- Flattening

  /** The raw pieces between `&` signs. */
  function Pieces(s: Str): (pieces: seq<Str>)
    ensures pieces != []
    decreases |s|
  {
    if HasUnit(s, AMPERSAND) then [Before(s, AMPERSAND)] + Pieces(Behind(s, AMPERSAND)) else [s]
  }

  function TrimAll(pieces: seq<Str>): (r: seq<Str>)
    ensures |r| == |pieces|
  {
    if pieces == [] then [] else [Trim(pieces[0])] + TrimAll(pieces[1..])
  }

  /** The `&`-free commands a line stands for. Without `&` the line is taken as it is. */
  function SegmentsOf(command: Str): seq<Str> {
    if HasUnit(command, AMPERSAND) then TrimAll(Pieces(command)) else [command]
  }

  /** Runs `&`-free commands in order and answers with the result of the last one. */
  ghost function RunSegments(env: Env, w: World, segments: seq<Str>, depth: nat): Outcome
    requires segments != []
    decreases |segments|
  {
    var first := RunSimple(env, w, segments[0], depth);
    if first.TooDeep? || |segments| == 1 then first
    else RunSegments(env, first.world, segments[1..], depth)
  }

  lemma TrimPadding(a: Str, s: Str, b: Str)
    requires AllBlank(a) && AllBlank(b)
    ensures Trim(a + s + b) == Trim(s)
  {
    var a1, b1 := TrimParts(s);
    assert a + s + b == (a + a1) + Trim(s) + (b1 + b);
    TrimCore(a + a1, Trim(s), b1 + b);
  }

  /** Where a separator is in a padded text. */
  lemma PaddedCut(a: Str, core: Str, b: Str, c: Char16)
    requires AllBlank(a) && AllBlank(b) && !Blank(c)
    ensures HasUnit(a + core + b, c) <==> HasUnit(core, c)
    ensures HasUnit(core, c) ==>
              && Before(a + core + b, c) == a + Before(core, c)
              && Behind(a + core + b, c) == Behind(core, c) + b
  {
    var s := a + core + b;
    var k := IndexOf(core, c);
    if k < |core| {
      assert s[|a| + k] == core[k];
      IndexOfUnique(s, c, |a| + k);
    } else {
      IndexOfUnique(s, c, |s|);
    }
  }

  /** Blanks around a line never matter to its trimmed pieces. */
  lemma {:induction false} PaddingInPieces(a: Str, core: Str, b: Str)
    requires AllBlank(a) && AllBlank(b)
    ensures TrimAll(Pieces(a + core + b)) == TrimAll(Pieces(core))
    decreases |core|
  {
    var s := a + core + b;
    PaddedCut(a, core, b, AMPERSAND);
    if HasUnit(core, AMPERSAND) {
      TrimPadding(a, Before(core, AMPERSAND), []);
      assert a + Before(core, AMPERSAND) + [] == a + Before(core, AMPERSAND);
      PaddingInPieces([], Behind(core, AMPERSAND), b);
      assert [] + Behind(core, AMPERSAND) + b == Behind(core, AMPERSAND) + b;
      assert Pieces(s)[1..] == Pieces(Behind(s, AMPERSAND));
      assert Pieces(core)[1..] == Pieces(Behind(core, AMPERSAND));
    } else {
      TrimPadding(a, core, b);
    }
  }

  lemma {:induction false} TrimKeepsPieces(s: Str)
    ensures TrimAll(Pieces(Trim(s))) == TrimAll(Pieces(s))
  {
    var a, b := TrimParts(s);
    PaddingInPieces(a, Trim(s), b);
  }

  /** A piece has no `&` and no new one appears by trimming. */
  lemma TrimHasNoNew(s: Str, c: Char16)
    requires !HasUnit(s, c)
    ensures !HasUnit(Trim(s), c)
  {
  }

  lemma {:induction false} RunOfTrimmed(env: Env, w: World, s: Str, depth: nat)
    requires |s| < MAX_LINE
    ensures Run(env, w, Trim(s), depth) == RunSegments(env, w, TrimAll(Pieces(s)), depth)
    decreases |s|
  {
    var t := Trim(s);
    TrimIsShorter(s);
    TrimKeepsPieces(s);
    if HasUnit(t, AMPERSAND) {
      RunOfCut(env, w, t, depth);
    } else {
      TrimTwice(s);
    }
  }

  lemma TrimTwice(s: Str)
    ensures Trim(Trim(s)) == Trim(s)
  {
  }

  lemma {:induction false} RunOfCut(env: Env, w: World, command: Str, depth: nat)
    requires |command| < MAX_LINE && HasUnit(command, AMPERSAND)
    ensures Run(env, w, command, depth) == RunSegments(env, w, TrimAll(Pieces(command)), depth)
    decreases |command|, 0
  {
    var left, right := Before(command, AMPERSAND), Behind(command, AMPERSAND);
    TrimIsShorter(left);
    TrimIsShorter(right);
    TrimHasNoNew(left, AMPERSAND);
    var segments := TrimAll(Pieces(command));
    assert Pieces(command)[1..] == Pieces(right);
    assert segments[0] == Trim(left) && segments[1..] == TrimAll(Pieces(right));
    var first := RunSimple(env, w, Trim(left), depth);
    assert Run(env, w, Trim(left), depth) == first;
    if first.Done? {
      RunOfTrimmed(env, first.world, right, depth);
    }
  }

  /** Executing a line is executing its trimmed `&`-separated segments from left to right,
      with the result of the last one. */
  lemma SequencingFlattens(env: Env, w: World, command: Str, depth: nat)
    requires |command| < MAX_LINE
    ensures Run(env, w, command, depth) == RunSegments(env, w, SegmentsOf(command), depth)
    ensures forall i :: 0 <= i < |SegmentsOf(command)| ==> !HasUnit(SegmentsOf(command)[i], AMPERSAND)
  {
    if HasUnit(command, AMPERSAND) {
      RunOfCut(env, w, command, depth);
      PiecesHaveNone(command);
    }
  }

  lemma {:induction false} PiecesHaveNone(s: Str)
    ensures forall i :: 0 <= i < |Pieces(s)| ==> !HasUnit(TrimAll(Pieces(s))[i], AMPERSAND)
    decreases |s|
  {
    if HasUnit(s, AMPERSAND) {
      TrimHasNoNew(Before(s, AMPERSAND), AMPERSAND);
      PiecesHaveNone(Behind(s, AMPERSAND));
      assert Pieces(s)[1..] == Pieces(Behind(s, AMPERSAND));
    } else {
      TrimHasNoNew(s, AMPERSAND);
    }
  }
}
