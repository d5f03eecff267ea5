/**
 * Pure model of the cube state of rubik_cube.cpp and of its twelve quarter
 * turns. The state is the 54 colour values of the six 3x3 faces, face by
 * face in face-index order, each face row by row. A clockwise turn of face
 * f first rotates f's own grid and then cycles four 3-cell strips on the
 * neighbouring faces; both parts are given as a source map: the value a
 * turn shows at a position is the value the old state showed at
 * `Source(f, p)`.
 */
module CubeSpec {
  import opened CubeTypes

  /** The 54 colour values; cell (face, row, col) is at 9 * face + 3 * row + col. */
  type Facelets = s: seq<int> | |s| == 54 witness seq(54, k => 0)

  /** A cell position: a face and a row and column of its grid. */
  datatype Pos = Pos(face: FaceIndex, row: int, col: int)
  {
    predicate Valid() {
      0 <= row < 3 && 0 <= col < 3
    }

    function Offset(): (k: int)
      requires Valid()
      ensures 0 <= k < 54
    {
      9 * face.Index() + 3 * row + col
    }
  }

  /** The position stored at offset `k`. */
  function PosAt(k: int): (p: Pos)
    requires 0 <= k < 54
    ensures p.Valid() && p.Offset() == k
  {
    var f := if k < 9 then 0 else if k < 18 then 1 else if k < 27 then 2
             else if k < 36 then 3 else if k < 45 then 4 else 5;
    var r := k - 9 * f;
    var row := if r < 3 then 0 else if r < 6 then 1 else 2;
    Pos(FaceOf(f), row, r - 3 * row)
  }

  /** Distinct positions have distinct offsets. */
  lemma OffsetInjective(p: Pos, q: Pos)
    requires p.Valid() && q.Valid() && p.Offset() == q.Offset()
    ensures p == q
  {
    FaceIndexRoundTrip(p.face, q.face);
  }

  lemma PosAtOffset(p: Pos)
    requires p.Valid()
    ensures PosAt(p.Offset()) == p
  {
    OffsetInjective(PosAt(p.Offset()), p);
  }

  /** The colour value at position `p`, i.e. faces[face][row][col]. */
  function At(s: Facelets, p: Pos): int
    requires p.Valid()
  {
    s[p.Offset()]
  }

  /** Two states are equal when they agree at every position. */
  lemma FaceletsExt(s: Facelets, t: Facelets)
    requires forall p: Pos :: p.Valid() ==> At(s, p) == At(t, p)
    ensures s == t
  {
    forall k | 0 <= k < 54
      ensures s[k] == t[k]
    {
      assert At(s, PosAt(k)) == At(t, PosAt(k));
    }
  }

  // ---------------------------------------------------------------------
  // Rotating one face's own grid

  /** A clockwise rotation sends cell (i, j) to (j, 2 - i): cell (r, c) receives (2 - c, r). */
  function ClockwiseFrom(p: Pos): Pos {
    Pos(p.face, 2 - p.col, p.row)
  }

  /** A counter-clockwise rotation sends cell (i, j) to (2 - j, i): cell (r, c) receives (c, 2 - r). */
  function CounterClockwiseFrom(p: Pos): Pos {
    Pos(p.face, p.col, 2 - p.row)
  }

  /** rotateFaceClockwise: rotates the grid of face f and no other cell. */
  function RotateFaceClockwise(f: FaceIndex, s: Facelets): Facelets {
    seq(54, k requires 0 <= k < 54 =>
      var p := PosAt(k); if p.face == f then At(s, ClockwiseFrom(p)) else s[k])
  }

  /** rotateFaceCounterClockwise: the inverse rotation of the grid of face f. */
  function RotateFaceCounterClockwise(f: FaceIndex, s: Facelets): Facelets {
    seq(54, k requires 0 <= k < 54 =>
      var p := PosAt(k); if p.face == f then At(s, CounterClockwiseFrom(p)) else s[k])
  }

  /** What each position receives from the grid rotations. */
  lemma RotateFaceAt(f: FaceIndex, s: Facelets, p: Pos)
    requires p.Valid()
    ensures At(RotateFaceClockwise(f, s), p) == if p.face == f then At(s, ClockwiseFrom(p)) else At(s, p)
    ensures At(RotateFaceCounterClockwise(f, s), p) == if p.face == f then At(s, CounterClockwiseFrom(p)) else At(s, p)
  {
    PosAtOffset(p);
  }

  /**
   * The clockwise rotation sends cell (i, j) of face f to (j, 2 - i), the
   * counter-clockwise one sends it to (2 - j, i), and neither touches any
   * other face.
   */
  lemma RotateFaceMoves(f: FaceIndex, s: Facelets, i: int, j: int, q: Pos)
    requires 0 <= i < 3 && 0 <= j < 3 && q.Valid() && q.face != f
    ensures At(RotateFaceClockwise(f, s), Pos(f, j, 2 - i)) == At(s, Pos(f, i, j))
    ensures At(RotateFaceCounterClockwise(f, s), Pos(f, 2 - j, i)) == At(s, Pos(f, i, j))
    ensures At(RotateFaceClockwise(f, s), q) == At(s, q)
    ensures At(RotateFaceCounterClockwise(f, s), q) == At(s, q)
  {
    RotateFaceAt(f, s, Pos(f, j, 2 - i));
    assert ClockwiseFrom(Pos(f, j, 2 - i)) == Pos(f, i, j);
    RotateFaceAt(f, s, Pos(f, 2 - j, i));
    assert CounterClockwiseFrom(Pos(f, 2 - j, i)) == Pos(f, i, j);
    RotateFaceAt(f, s, q);
  }

  /** Rotating a face one way and then the other restores every cell. */
  lemma RotateFaceRoundTrip(f: FaceIndex, s: Facelets)
    ensures RotateFaceCounterClockwise(f, RotateFaceClockwise(f, s)) == s
    ensures RotateFaceClockwise(f, RotateFaceCounterClockwise(f, s)) == s
  {
    var t, t' := RotateFaceClockwise(f, s), RotateFaceCounterClockwise(f, s);
    forall p: Pos | p.Valid()
      ensures At(RotateFaceCounterClockwise(f, t), p) == At(s, p)
      ensures At(RotateFaceClockwise(f, t'), p) == At(s, p)
    {
      RotateFaceAt(f, t, p);
      RotateFaceAt(f, s, CounterClockwiseFrom(p));
      RotateFaceAt(f, t', p);
      RotateFaceAt(f, s, ClockwiseFrom(p));
    }
    FaceletsExt(RotateFaceCounterClockwise(f, t), s);
    FaceletsExt(RotateFaceClockwise(f, t'), s);
  }

  // ---------------------------------------------------------------------
  // The four strips a turn cycles

  /**
   * Three cells along row `line` (isRow) or column `line` of a face, in the
   * order a move's copy loop visits them: index i is cell i of the line, or
   * cell 2 - i when the loop runs the line backwards.
   */
  datatype Strip = Strip(face: FaceIndex, isRow: bool, line: int, reversed: bool)
  {
    predicate Valid() {
      0 <= line < 3
    }

    function Cell(i: int): (p: Pos)
      requires Valid() && 0 <= i < 3
      ensures p.Valid() && Contains(p)
    {
      var j := if reversed then 2 - i else i;
      if isRow then Pos(face, line, j) else Pos(face, j, line)
    }

    predicate Contains(p: Pos) {
      p.face == face && if isRow then p.row == line else p.col == line
    }

    /** The loop index at which the strip visits `p`. */
    function IndexOf(p: Pos): (i: int)
      requires p.Valid() && Contains(p)
      ensures 0 <= i < 3
    {
      var j := if isRow then p.col else p.row;
      if reversed then 2 - j else j
    }
  }

  /** IndexOf and Cell are inverse to each other. */
  lemma StripIndexRoundTrip(st: Strip, p: Pos, i: int)
    requires st.Valid() && 0 <= i < 3
    ensures st.IndexOf(st.Cell(i)) == i
    ensures p.Valid() && st.Contains(p) ==> st.Cell(st.IndexOf(p)) == p
  {
  }

  /**
   * Four strips on four distinct faces. A clockwise turn gives strip s0 the
   * old values of s1, s1 those of s2, s2 those of s3, and s3 the old values
   * of s0, index by index.
   */
  datatype Cycle = Cycle(s0: Strip, s1: Strip, s2: Strip, s3: Strip)
  {
    predicate Valid() {
      s0.Valid() && s1.Valid() && s2.Valid() && s3.Valid() &&
      s0.face != s1.face && s0.face != s2.face && s0.face != s3.face &&
      s1.face != s2.face && s1.face != s3.face && s2.face != s3.face
    }

    predicate Moves(p: Pos) {
      s0.Contains(p) || s1.Contains(p) || s2.Contains(p) || s3.Contains(p)
    }

    /** The position whose old value the cycle brings to `p`. */
    function From(p: Pos): (q: Pos)
      requires Valid() && p.Valid()
      ensures q.Valid()
    {
      if s0.Contains(p) then s1.Cell(s0.IndexOf(p))
      else if s1.Contains(p) then s2.Cell(s1.IndexOf(p))
      else if s2.Contains(p) then s3.Cell(s2.IndexOf(p))
      else if s3.Contains(p) then s0.Cell(s3.IndexOf(p))
      else p
    }
  }

  /**
   * The strip table of each clockwise move, strips listed in the order the
   * move's copy loops run: temp takes s0, s0 takes s1, s1 takes s2, s2 takes
   * s3, and s3 takes temp.
   */
  function CycleOf(f: FaceIndex): (c: Cycle)
    ensures c.Valid()
    ensures c.s0.face != f && c.s1.face != f && c.s2.face != f && c.s3.face != f
  {
    match f
    case Right =>
      Cycle(Strip(Up, false, 2, false), Strip(Front, false, 2, false),
            Strip(Down, false, 2, false), Strip(Back, false, 0, true))
    case Left =>
      Cycle(Strip(Up, false, 0, false), Strip(Back, false, 2, true),
            Strip(Down, false, 0, false), Strip(Front, false, 0, false))
    case Up =>
      Cycle(Strip(Front, true, 0, false), Strip(Right, true, 0, false),
            Strip(Back, true, 0, false), Strip(Left, true, 0, false))
    case Down =>
      Cycle(Strip(Front, true, 2, false), Strip(Left, true, 2, false),
            Strip(Back, true, 2, false), Strip(Right, true, 2, false))
    case Front =>
      Cycle(Strip(Up, true, 2, false), Strip(Left, false, 2, true),
            Strip(Down, true, 0, true), Strip(Right, false, 0, false))
    case Back =>
      Cycle(Strip(Up, true, 0, false), Strip(Right, false, 2, false),
            Strip(Down, true, 2, true), Strip(Left, false, 0, true))
  }

  /** The simultaneous 4-cycle of a strip table. */
  function CycleStrips(c: Cycle, s: Facelets): Facelets
    requires c.Valid()
  {
    seq(54, k requires 0 <= k < 54 => At(s, c.From(PosAt(k))))
  }

  lemma CycleStripsAt(c: Cycle, s: Facelets, p: Pos)
    requires c.Valid() && p.Valid()
    ensures At(CycleStrips(c, s), p) == At(s, c.From(p))
  {
    PosAtOffset(p);
  }

  // ---------------------------------------------------------------------
  // The twelve quarter turns

  /** The clockwise quarter turn of face f: rotate f's grid, then cycle its strips. */
  function Turn(f: FaceIndex, s: Facelets): Facelets {
    CycleStrips(CycleOf(f), RotateFaceClockwise(f, s))
  }

  /** A primed (counter-clockwise) turn is three clockwise turns. */
  function TurnPrime(f: FaceIndex, s: Facelets): Facelets {
    Turn(f, Turn(f, Turn(f, s)))
  }

  function Apply(m: Move, s: Facelets): Facelets {
    if m.clockwise then Turn(m.face, s) else TurnPrime(m.face, s)
  }

  /** The moves applied in order, the first one first. */
  function ApplyAll(ms: seq<Move>, s: Facelets): Facelets
    decreases |ms|, 1
  {
    if ms == [] then s else ApplyLast(ms, s)
  }

  /** A non-empty run of moves: its last move applied after all the others. */
  function ApplyLast(ms: seq<Move>, s: Facelets): Facelets
    requires ms != []
    decreases |ms|, 0
  {
    Apply(ms[|ms| - 1], ApplyAll(ms[..|ms| - 1], s))
  }

  /** One more move at the end of a run is applied after the run. */
  lemma ApplyAllSnoc(ms: seq<Move>, m: Move, s: Facelets)
    ensures ApplyAll(ms + [m], s) == Apply(m, ApplyAll(ms, s))
  {
    var ms' := ms + [m];
    assert ms'[..|ms'| - 1] == ms;
    assert ApplyAll(ms', s) == ApplyLast(ms', s);
  }

  /** Two runs of moves one after the other are the concatenated run. */
  lemma {:induction false} ApplyAllAppend(a: seq<Move>, b: seq<Move>, s: Facelets)
    ensures ApplyAll(a + b, s) == ApplyAll(b, ApplyAll(a, s))
    decreases |b|
  {
    if b == [] {
      assert a + b == a;
    } else {
      var b', m := b[..|b| - 1], b[|b| - 1];
      assert a + b == (a + b') + [m];
      assert b == b' + [m];
      ApplyAllSnoc(a + b', m, s);
      ApplyAllAppend(a, b', s);
      ApplyAllSnoc(b', m, ApplyAll(a, s));
    }
  }

  /** The position whose old value the clockwise turn of face f brings to `p`. */
  function Source(f: FaceIndex, p: Pos): (q: Pos)
    requires p.Valid()
    ensures q.Valid()
  {
    if p.face == f then ClockwiseFrom(p) else CycleOf(f).From(p)
  }

  /** Rotating a face and then cycling strips that lie off that face, read position by position. */
  lemma RotateThenCycleAt(f: FaceIndex, c: Cycle, s: Facelets, p: Pos)
    requires c.Valid() && p.Valid()
    requires c.s0.face != f && c.s1.face != f && c.s2.face != f && c.s3.face != f
    ensures At(CycleStrips(c, RotateFaceClockwise(f, s)), p)
         == At(s, if p.face == f then ClockwiseFrom(p) else c.From(p))
  {
    CycleStripsAt(c, RotateFaceClockwise(f, s), p);
    RotateFaceAt(f, s, c.From(p));
  }

  lemma TurnAt(f: FaceIndex, s: Facelets, p: Pos)
    requires p.Valid()
    ensures At(Turn(f, s), p) == At(s, Source(f, p))
  {
    RotateThenCycleAt(f, CycleOf(f), s, p);
  }

  /** The cycle moves index i of each strip to index i of the previous one. */
  lemma CycleFromCell(c: Cycle, i: int)
    requires c.Valid() && 0 <= i < 3
    ensures c.From(c.s0.Cell(i)) == c.s1.Cell(i)
    ensures c.From(c.s1.Cell(i)) == c.s2.Cell(i)
    ensures c.From(c.s2.Cell(i)) == c.s3.Cell(i)
    ensures c.From(c.s3.Cell(i)) == c.s0.Cell(i)
  {
    StripIndexRoundTrip(c.s0, c.s0.Cell(i), i);
    StripIndexRoundTrip(c.s1, c.s1.Cell(i), i);
    StripIndexRoundTrip(c.s2, c.s2.Cell(i), i);
    StripIndexRoundTrip(c.s3, c.s3.Cell(i), i);
  }

  /** Four clockwise steps of any strip cycle return every position to itself. */
  lemma CyclePeriod(c: Cycle, p: Pos)
    requires c.Valid() && p.Valid()
    ensures c.From(c.From(c.From(c.From(p)))) == p
  {
    var st := if c.s0.Contains(p) then c.s0 else if c.s1.Contains(p) then c.s1
              else if c.s2.Contains(p) then c.s2 else c.s3;
    if c.Moves(p) {
      var i := st.IndexOf(p);
      StripIndexRoundTrip(st, p, i);
      CycleFromCell(c, i);
    }
  }

  /** Four clockwise turns of the same face bring every value back to where it started. */
  lemma SourcePeriod(f: FaceIndex, p: Pos)
    requires p.Valid()
    ensures Source(f, Source(f, Source(f, Source(f, p)))) == p
  {
    if p.face != f {
      var c := CycleOf(f);
      var p1 := c.From(p);
      var p2 := c.From(p1);
      var p3 := c.From(p2);
      CycleKeepsOffFace(c, f, p);
      CycleKeepsOffFace(c, f, p1);
      CycleKeepsOffFace(c, f, p2);
      assert Source(f, p) == p1 && Source(f, p1) == p2 && Source(f, p2) == p3;
      CyclePeriod(c, p);
    } else {
      assert Source(f, p) == ClockwiseFrom(p);
    }
  }

  /** A cycle whose strips lie off face f never brings a value onto face f. */
  lemma CycleKeepsOffFace(c: Cycle, f: FaceIndex, p: Pos)
    requires c.Valid() && p.Valid() && p.face != f
    requires c.s0.face != f && c.s1.face != f && c.s2.face != f && c.s3.face != f
    ensures c.From(p).face != f
  {
  }

  // ---------------------------------------------------------------------
  // The solved configuration

  /** Every cell of face i holds the colour FaceColors[i]: what the constructor and reset produce. */
  function SolvedCube(): Facelets {
    seq(54, k requires 0 <= k < 54 => SolvedColor(PosAt(k).face).Code())
  }

  /** isSolved: every cell equals its face's designated colour. */
  ghost predicate SolvedState(s: Facelets) {
    forall p: Pos :: p.Valid() ==> At(s, p) == SolvedColor(p.face).Code()
  }
}
