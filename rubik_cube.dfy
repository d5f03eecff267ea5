/**
 * The RubikCube class of rubik_cube.h / rubik_cube.cpp: six 3x3 grids of
 * colour codes, updated in place by the face rotations, the twelve quarter
 * turns, applyMove, scramble and reset. Each method is proved against the
 * value-level specification of CubeSpec: the new contents are a function of
 * the old contents.
 */
module Rubik {
  import opened Wrappers
  import opened CubeTypes
  import opened CubeSpec
  import opened StripCopies
  import opened Notation
  import MoveLaws

  /** The moves scramble performs for the drawn indices `picks`: one per iteration, none when n <= 0. */
  function DrawnMoves(picks: seq<int>, n: int): (ms: seq<Move>)
    requires n <= |picks|
    requires forall i :: 0 <= i < |picks| ==> 0 <= picks[i] < |MoveTokens|
    ensures |ms| == if n <= 0 then 0 else n
    decreases if n <= 0 then 0 else n
  {
    if n <= 0 then [] else DrawnMoves(picks, n - 1) + [MoveOfIndex(picks[n - 1])]
  }

  /** The i-th scramble move is the one the i-th drawn token names. */
  lemma {:induction false} DrawnMovesTokens(picks: seq<int>, n: int, i: int)
    requires n <= |picks|
    requires forall j :: 0 <= j < |picks| ==> 0 <= picks[j] < |MoveTokens|
    requires 0 <= i < n
    ensures Some(DrawnMoves(picks, n)[i]) == ParseMove(MoveTokens[picks[i]])
    ensures Token(DrawnMoves(picks, n)[i]) == MoveTokens[picks[i]]
    decreases n
  {
    MoveLaws.MoveOfIndexNamesToken(picks[i]);
    if i < n - 1 {
      DrawnMovesTokens(picks, n - 1, i);
    }
  }

  /** The state after the first n scramble iterations from s: the drawn moves applied in order. */
  function Scrambled(picks: seq<int>, n: int, s: Facelets): (t: Facelets)
    requires n <= |picks|
    requires forall i :: 0 <= i < |picks| ==> 0 <= picks[i] < |MoveTokens|
    ensures n <= 0 ==> t == s
  {
    ApplyAll(DrawnMoves(picks, n), s)
  }

  /** One more scramble iteration applies the token at the next drawn index, which is always recognised. */
  lemma ScrambleStep(picks: seq<int>, i: int, s: Facelets, before: Facelets, after: Facelets, ok: bool)
    requires 0 <= i < |picks|
    requires forall j :: 0 <= j < |picks| ==> 0 <= picks[j] < |MoveTokens|
    requires before == Scrambled(picks, i, s)
    requires ok <==> ParseMove(MoveTokens[picks[i]]).Some?
    requires ok ==> after == Apply(ParseMove(MoveTokens[picks[i]]).value, before)
    ensures after == Scrambled(picks, i + 1, s)
  {
    MoveLaws.MoveOfIndexNamesToken(picks[i]);
    var next := DrawnMoves(picks, i + 1);
    assert next[..|next| - 1] == DrawnMoves(picks, i);
    assert ApplyAll(next, s) == ApplyLast(next, s);
  }

  class RubikCube {
    /** faces[face, row, col] is the colour code of a cell; face indices follow FaceIndex. */
    const faces: array3<int>

    /** The grid has the shape the constructor gives it: six faces of three rows of three cells. */
    ghost predicate Valid() {
      faces.Length0 == 6 && faces.Length1 == 3 && faces.Length2 == 3
    }

    /** The colour code stored at a position. */
    function Cell(p: Pos): int
      requires Valid() && p.Valid()
      reads faces
    {
      faces[p.face.Index(), p.row, p.col]
    }

    /** The whole grid as a flat state (what getFaces exposes to the renderer). */
    function Cells(): Facelets
      requires Valid()
      reads faces
    {
      seq(54, k requires 0 <= k < 54 reads faces => Cell(PosAt(k)))
    }

    /** Each position of the flat state reads the grid cell it names. */
    lemma CellsAt(p: Pos)
      requires Valid() && p.Valid()
      ensures At(Cells(), p) == faces[p.face.Index(), p.row, p.col]
    {
      PosAtOffset(p);
    }

    /** The flat state agrees with the grid at every position. */
    lemma CellsAll()
      requires Valid()
      ensures forall p: Pos :: p.Valid() ==> At(Cells(), p) == Cell(p)
    {
      forall p: Pos | p.Valid()
        ensures At(Cells(), p) == Cell(p)
      {
        CellsAt(p);
      }
    }

    /** Two grid indices that agree name the same position. */
    lemma SameCell(p: Pos, q: Pos)
      requires p.Valid() && q.Valid()
      requires p.face.Index() == q.face.Index() && p.row == q.row && p.col == q.col
      ensures p == q
    {
      FaceIndexRoundTrip(p.face, q.face);
    }

    /** A grid holding the designated colour of every face is the solved state. */
    lemma SolvedWhenUniform()
      requires Valid()
      requires forall f, r, c :: 0 <= f < 6 && 0 <= r < 3 && 0 <= c < 3 ==> faces[f, r, c] == FaceColors[f].Code()
      ensures Cells() == SolvedCube()
    {
      forall p: Pos | p.Valid()
        ensures At(Cells(), p) == At(SolvedCube(), p)
      {
        CellsAt(p);
        PosAtOffset(p);
      }
      FaceletsExt(Cells(), SolvedCube());
    }

    /** A new cube is solved: face i is filled with faceColors[i]. */
    constructor ()
      ensures Valid() && fresh(faces)
      ensures Cells() == SolvedCube()
    {
      faces := new int[6, 3, 3]((f, r, c) => if 0 <= f < 6 then FaceColors[f].Code() else 0);
      new;
      SolvedWhenUniform();
    }

    /** Back to the solved state, cell by cell. */
    method Reset()
      requires Valid()
      modifies faces
      ensures Cells() == SolvedCube()
    {
      for i := 0 to 6
        invariant forall f, r, c :: 0 <= f < i && 0 <= r < 3 && 0 <= c < 3 ==> faces[f, r, c] == FaceColors[f].Code()
      {
        for j := 0 to 3
          invariant forall f, r, c :: 0 <= f < i && 0 <= r < 3 && 0 <= c < 3 ==> faces[f, r, c] == FaceColors[f].Code()
          invariant forall r, c :: 0 <= r < j && 0 <= c < 3 ==> faces[i, r, c] == FaceColors[i].Code()
        {
          for k := 0 to 3
            invariant forall f, r, c :: 0 <= f < i && 0 <= r < 3 && 0 <= c < 3 ==> faces[f, r, c] == FaceColors[f].Code()
            invariant forall r, c :: 0 <= r < j && 0 <= c < 3 ==> faces[i, r, c] == FaceColors[i].Code()
            invariant forall c :: 0 <= c < k ==> faces[i, j, c] == FaceColors[i].Code()
          {
            faces[i, j, k] := FaceColors[i].Code();
          }
        }
      }
      SolvedWhenUniform();
    }

    /**
     * rotateFaceClockwise: build the turned grid in a temporary, temp[j][2 - i]
     * taking cell (i, j), then store it back over the face.
     */
    method RotateFaceClockwise(face: FaceIndex)
      requires Valid()
      modifies faces
      ensures Cells() == CubeSpec.RotateFaceClockwise(face, old(Cells()))
    {
      ghost var s := Cells();
      var temp := TurnedGrid(face, true);
      StoreFace(face, temp);
      StoredFace(face, true, s, temp);
    }

    /**
     * rotateFaceCounterClockwise: temp[2 - j][i] takes cell (i, j), then the
     * temporary is stored back over the face.
     */
    method RotateFaceCounterClockwise(face: FaceIndex)
      requires Valid()
      modifies faces
      ensures Cells() == CubeSpec.RotateFaceCounterClockwise(face, old(Cells()))
    {
      ghost var s := Cells();
      var temp := TurnedGrid(face, false);
      StoreFace(face, temp);
      StoredFace(face, false, s, temp);
    }

    /**
     * The temporary of the two face rotations: temp[j][2 - i] (clockwise) or
     * temp[2 - j][i] (counter-clockwise) takes cell (i, j) of face f.
     */
    method TurnedGrid(face: FaceIndex, clockwise: bool) returns (temp: array2<int>)
      requires Valid()
      ensures fresh(temp) && temp.Length0 == 3 && temp.Length1 == 3
      ensures clockwise ==> forall i, j :: 0 <= i < 3 && 0 <= j < 3 ==> temp[j, 2 - i] == At(Cells(), Pos(face, i, j))
      ensures !clockwise ==> forall i, j :: 0 <= i < 3 && 0 <= j < 3 ==> temp[2 - j, i] == At(Cells(), Pos(face, i, j))
    {
      var f := face.Index();
      temp := new int[3, 3];
      for i := 0 to 3
        modifies temp
        invariant clockwise ==> forall i', j :: 0 <= i' < i && 0 <= j < 3 ==> temp[j, 2 - i'] == faces[f, i', j]
        invariant !clockwise ==> forall i', j :: 0 <= i' < i && 0 <= j < 3 ==> temp[2 - j, i'] == faces[f, i', j]
      {
        for j := 0 to 3
          modifies temp
          invariant clockwise ==> forall i', j' :: 0 <= i' < i && 0 <= j' < 3 ==> temp[j', 2 - i'] == faces[f, i', j']
          invariant clockwise ==> forall j' :: 0 <= j' < j ==> temp[j', 2 - i] == faces[f, i, j']
          invariant !clockwise ==> forall i', j' :: 0 <= i' < i && 0 <= j' < 3 ==> temp[2 - j', i'] == faces[f, i', j']
          invariant !clockwise ==> forall j' :: 0 <= j' < j ==> temp[2 - j', i] == faces[f, i, j']
        {
          if clockwise {
            temp[j, 2 - i] := faces[f, i, j];
          } else {
            temp[2 - j, i] := faces[f, i, j];
          }
        }
      }
      CellsAll();
    }

    /** After storing the rotated temporary over a face, the flat state is the rotated state. */
    lemma StoredFace(face: FaceIndex, clockwise: bool, s: Facelets, temp: array2<int>)
      requires Valid() && temp.Length0 == 3 && temp.Length1 == 3
      requires forall r, c :: 0 <= r < 3 && 0 <= c < 3 ==> faces[face.Index(), r, c] == temp[r, c]
      requires clockwise ==> forall i, j :: 0 <= i < 3 && 0 <= j < 3 ==> temp[j, 2 - i] == At(s, Pos(face, i, j))
      requires !clockwise ==> forall i, j :: 0 <= i < 3 && 0 <= j < 3 ==> temp[2 - j, i] == At(s, Pos(face, i, j))
      requires forall p: Pos :: p.Valid() && p.face != face ==> Cell(p) == At(s, p)
      ensures clockwise ==> Cells() == CubeSpec.RotateFaceClockwise(face, s)
      ensures !clockwise ==> Cells() == CubeSpec.RotateFaceCounterClockwise(face, s)
    {
      var t := if clockwise then CubeSpec.RotateFaceClockwise(face, s) else CubeSpec.RotateFaceCounterClockwise(face, s);
      forall p: Pos | p.Valid()
        ensures At(Cells(), p) == At(t, p)
      {
        CellsAt(p);
        RotateFaceAt(face, s, p);
        if p.face == face {
          var q := if clockwise then ClockwiseFrom(p) else CounterClockwiseFrom(p);
          assert At(Cells(), p) == temp[p.row, p.col] == At(s, q);
        }
      }
      FaceletsExt(Cells(), t);
    }

    /** The assignment faces[f] = temp: the face becomes a copy of the 3x3 temporary, the others keep their cells. */
    method StoreFace(face: FaceIndex, temp: array2<int>)
      requires Valid() && temp.Length0 == 3 && temp.Length1 == 3
      modifies faces
      ensures forall r, c :: 0 <= r < 3 && 0 <= c < 3 ==> faces[face.Index(), r, c] == temp[r, c]
      ensures forall p: Pos :: p.Valid() && p.face != face ==> Cell(p) == At(old(Cells()), p)
    {
      ghost var s := Cells();
      CellsAll();
      var f := face.Index();
      for r := 0 to 3
        invariant forall r', c :: 0 <= r' < r && 0 <= c < 3 ==> faces[f, r', c] == temp[r', c]
        invariant forall g, r', c :: 0 <= g < 6 && g != f && 0 <= r' < 3 && 0 <= c < 3 ==> faces[g, r', c] == old(faces[g, r', c])
      {
        for c := 0 to 3
          invariant forall r', c' :: 0 <= r' < r && 0 <= c' < 3 ==> faces[f, r', c'] == temp[r', c']
          invariant forall c' :: 0 <= c' < c ==> faces[f, r, c'] == temp[r, c']
          invariant forall g, r', c' :: 0 <= g < 6 && g != f && 0 <= r' < 3 && 0 <= c' < 3 ==> faces[g, r', c'] == old(faces[g, r', c'])
        {
          faces[f, r, c] := temp[r, c];
        }
      }
      forall p: Pos | p.Valid() && p.face != face
        ensures Cell(p) == At(s, p)
      {
        FaceIndexRoundTrip(p.face, face);
      }
    }

    /** The first loop of a move's edge cycle: `temp[i] = st[i]`. */
    method ReadStrip(st: Strip) returns (temp: array<int>)
      requires Valid() && st.Valid()
      ensures fresh(temp) && temp[..] == StripValues(Cells(), st)
    {
      temp := new int[3];
      for i := 0 to 3
        modifies temp
        invariant forall j :: 0 <= j < i ==> temp[j] == Cell(st.Cell(j))
      {
        var p := st.Cell(i);
        temp[i] := faces[p.face.Index(), p.row, p.col];
      }
      assert temp[..] == [Cell(st.Cell(0)), Cell(st.Cell(1)), Cell(st.Cell(2))];
      CellsAll();
    }

    /** One middle loop of a move's edge cycle: `dst[i] = src[i]`, the strips lying on different faces. */
    method CopyStrip(dst: Strip, src: Strip)
      requires Valid() && dst.Valid() && src.Valid() && dst.face != src.face
      modifies faces
      ensures Cells() == CopiedStrip(old(Cells()), dst, src)
    {
      CellsAll();
      CopyLoop(dst, src);
      CopiedCells(old(Cells()), dst, src);
    }

    /** The loop of CopyStrip, stated cell by cell on the grid. */
    method CopyLoop(dst: Strip, src: Strip)
      requires Valid() && dst.Valid() && src.Valid() && dst.face != src.face
      modifies faces
      ensures forall p: Pos :: p.Valid() ==>
          Cell(p) == if dst.Contains(p) then old(Cell(src.Cell(dst.IndexOf(p)))) else old(Cell(p))
    {
      for i := 0 to 3
        invariant forall p: Pos :: p.Valid() ==>
          Cell(p) == if dst.Contains(p) && dst.IndexOf(p) < i then old(Cell(src.Cell(dst.IndexOf(p)))) else old(Cell(p))
      {
        var d, q := dst.Cell(i), src.Cell(i);
        assert !dst.Contains(q);
        label Before:
        faces[d.face.Index(), d.row, d.col] := faces[q.face.Index(), q.row, q.col];
        forall p: Pos | p.Valid()
          ensures Cell(p) == if dst.Contains(p) && dst.IndexOf(p) < i + 1 then old(Cell(src.Cell(dst.IndexOf(p)))) else old(Cell(p))
        {
          StripIndexRoundTrip(dst, p, i);
          if p != d {
            if p.face.Index() == d.face.Index() && p.row == d.row && p.col == d.col {
              SameCell(p, d);
            }
            assert Cell(p) == old@Before(Cell(p));
          }
        }
      }
    }

    /** A grid holding, cell by cell, what CopiedStrip prescribes is that state. */
    lemma CopiedCells(s: Facelets, dst: Strip, src: Strip)
      requires Valid() && dst.Valid() && src.Valid()
      requires forall p: Pos :: p.Valid() ==>
        Cell(p) == if dst.Contains(p) then At(s, src.Cell(dst.IndexOf(p))) else At(s, p)
      ensures Cells() == CopiedStrip(s, dst, src)
    {
      forall p: Pos | p.Valid()
        ensures At(Cells(), p) == At(CopiedStrip(s, dst, src), p)
      {
        CellsAt(p);
        CopiedStripAt(s, dst, src, p);
      }
      FaceletsExt(Cells(), CopiedStrip(s, dst, src));
    }

    /** The last loop of a move's edge cycle: `st[i] = temp[i]`. */
    method WriteStrip(st: Strip, temp: array<int>)
      requires Valid() && st.Valid() && temp.Length == 3
      modifies faces
      ensures Cells() == WrittenStrip(old(Cells()), st, temp[..])
    {
      CellsAll();
      WriteLoop(st, temp);
      WrittenCells(old(Cells()), st, temp[..]);
    }

    /** The loop of WriteStrip, stated cell by cell on the grid. */
    method WriteLoop(st: Strip, temp: array<int>)
      requires Valid() && st.Valid() && temp.Length == 3
      modifies faces
      ensures forall p: Pos :: p.Valid() ==>
          Cell(p) == if st.Contains(p) then temp[st.IndexOf(p)] else old(Cell(p))
    {
      for i := 0 to 3
        invariant forall p: Pos :: p.Valid() ==>
          Cell(p) == if st.Contains(p) && st.IndexOf(p) < i then temp[st.IndexOf(p)] else old(Cell(p))
      {
        var d := st.Cell(i);
        label Before:
        faces[d.face.Index(), d.row, d.col] := temp[i];
        forall p: Pos | p.Valid()
          ensures Cell(p) == if st.Contains(p) && st.IndexOf(p) < i + 1 then temp[st.IndexOf(p)] else old(Cell(p))
        {
          StripIndexRoundTrip(st, p, i);
          if p != d {
            if p.face.Index() == d.face.Index() && p.row == d.row && p.col == d.col {
              SameCell(p, d);
            }
            assert Cell(p) == old@Before(Cell(p));
          }
        }
      }
    }

    /** A grid holding, cell by cell, what WrittenStrip prescribes is that state. */
    lemma WrittenCells(s: Facelets, st: Strip, v: seq<int>)
      requires Valid() && st.Valid() && |v| == 3
      requires forall p: Pos :: p.Valid() ==>
        Cell(p) == if st.Contains(p) then v[st.IndexOf(p)] else At(s, p)
      ensures Cells() == WrittenStrip(s, st, v)
    {
      forall p: Pos | p.Valid()
        ensures At(Cells(), p) == At(WrittenStrip(s, st, v), p)
      {
        CellsAt(p);
        WrittenStripAt(s, st, v, p);
      }
      FaceletsExt(Cells(), WrittenStrip(s, st, v));
    }

    /**
     * The edge cycle of a clockwise move, as its five loops run: save s0 in
     * temp, copy s1 into s0, s2 into s1, s3 into s2, and temp into s3.
     */
    method CycleEdges(c: Cycle)
      requires Valid() && c.Valid()
      modifies faces
      ensures Cells() == CycleStrips(c, old(Cells()))
    {
      ghost var s := Cells();
      var temp := ReadStrip(c.s0);
      CopyStrip(c.s0, c.s1);
      CopyStrip(c.s1, c.s2);
      CopyStrip(c.s2, c.s3);
      WriteStrip(c.s3, temp);
      FiveLoopsCycle(c, s);
    }

    /** rotateR: turn the Right face's grid clockwise, then cycle its four edge strips. */
    method RotateR()
      requires Valid()
      modifies faces
      ensures Cells() == Turn(Right, old(Cells()))
    {
      RotateFaceClockwise(Right);
      CycleEdges(Cycle(Strip(Up, false, 2, false), Strip(Front, false, 2, false),
                       Strip(Down, false, 2, false), Strip(Back, false, 0, true)));
    }

    /** rotateL: turn the Left face's grid clockwise, then cycle its four edge strips. */
    method RotateL()
      requires Valid()
      modifies faces
      ensures Cells() == Turn(Left, old(Cells()))
    {
      RotateFaceClockwise(Left);
      CycleEdges(Cycle(Strip(Up, false, 0, false), Strip(Back, false, 2, true),
                       Strip(Down, false, 0, false), Strip(Front, false, 0, false)));
    }

    /** rotateU: turn the Up face's grid clockwise, then cycle its four edge strips. */
    method RotateU()
      requires Valid()
      modifies faces
      ensures Cells() == Turn(Up, old(Cells()))
    {
      RotateFaceClockwise(Up);
      CycleEdges(Cycle(Strip(Front, true, 0, false), Strip(Right, true, 0, false),
                       Strip(Back, true, 0, false), Strip(Left, true, 0, false)));
    }

    /** rotateD: turn the Down face's grid clockwise, then cycle its four edge strips. */
    method RotateD()
      requires Valid()
      modifies faces
      ensures Cells() == Turn(Down, old(Cells()))
    {
      RotateFaceClockwise(Down);
      CycleEdges(Cycle(Strip(Front, true, 2, false), Strip(Left, true, 2, false),
                       Strip(Back, true, 2, false), Strip(Right, true, 2, false)));
    }

    /** rotateF: turn the Front face's grid clockwise, then cycle its four edge strips. */
    method RotateF()
      requires Valid()
      modifies faces
      ensures Cells() == Turn(Front, old(Cells()))
    {
      RotateFaceClockwise(Front);
      CycleEdges(Cycle(Strip(Up, true, 2, false), Strip(Left, false, 2, true),
                       Strip(Down, true, 0, true), Strip(Right, false, 0, false)));
    }

    /** rotateB: turn the Back face's grid clockwise, then cycle its four edge strips. */
    method RotateB()
      requires Valid()
      modifies faces
      ensures Cells() == Turn(Back, old(Cells()))
    {
      RotateFaceClockwise(Back);
      CycleEdges(Cycle(Strip(Up, true, 0, false), Strip(Right, false, 2, false),
                       Strip(Down, true, 2, true), Strip(Left, false, 0, true)));
    }

    /** rotateRPrime: three clockwise R turns make the counter-clockwise one. */
    method RotateRPrime()
      requires Valid()
      modifies faces
      ensures Cells() == TurnPrime(Right, old(Cells()))
    {
      RotateR();
      RotateR();
      RotateR();
    }

    /** rotateLPrime: three clockwise L turns make the counter-clockwise one. */
    method RotateLPrime()
      requires Valid()
      modifies faces
      ensures Cells() == TurnPrime(Left, old(Cells()))
    {
      RotateL();
      RotateL();
      RotateL();
    }

    /** rotateUPrime: three clockwise U turns make the counter-clockwise one. */
    method RotateUPrime()
      requires Valid()
      modifies faces
      ensures Cells() == TurnPrime(Up, old(Cells()))
    {
      RotateU();
      RotateU();
      RotateU();
    }

    /** rotateDPrime: three clockwise D turns make the counter-clockwise one. */
    method RotateDPrime()
      requires Valid()
      modifies faces
      ensures Cells() == TurnPrime(Down, old(Cells()))
    {
      RotateD();
      RotateD();
      RotateD();
    }

    /** rotateFPrime: three clockwise F turns make the counter-clockwise one. */
    method RotateFPrime()
      requires Valid()
      modifies faces
      ensures Cells() == TurnPrime(Front, old(Cells()))
    {
      RotateF();
      RotateF();
      RotateF();
    }

    /** rotateBPrime: three clockwise B turns make the counter-clockwise one. */
    method RotateBPrime()
      requires Valid()
      modifies faces
      ensures Cells() == TurnPrime(Back, old(Cells()))
    {
      RotateB();
      RotateB();
      RotateB();
    }

    /**
     * applyMove: run the turn a recognised token names and report true, or
     * leave the cube alone and report false.
     */
    method ApplyMove(move: string) returns (ok: bool)
      requires Valid()
      modifies faces
      ensures ok <==> ParseMove(move).Some?
      ensures ok ==> Cells() == Apply(ParseMove(move).value, old(Cells()))
      ensures !ok ==> Cells() == old(Cells())
    {
      ok := true;
      if move == "R" {
        RotateR();
      } else if move == "R'" {
        RotateRPrime();
      } else if move == "L" {
        RotateL();
      } else if move == "L'" {
        RotateLPrime();
      } else if move == "U" {
        RotateU();
      } else if move == "U'" {
        RotateUPrime();
      } else if move == "D" {
        RotateD();
      } else if move == "D'" {
        RotateDPrime();
      } else if move == "F" {
        RotateF();
      } else if move == "F'" {
        RotateFPrime();
      } else if move == "B" {
        RotateB();
      } else if move == "B'" {
        RotateBPrime();
      } else {
        ok := false;
      }
    }

    /** One iteration of scramble's loop: apply the token at the i-th drawn index. */
    method ScrambleIteration(moves: seq<string>, picks: seq<int>, i: int, ghost s0: Facelets)
      requires Valid()
      requires moves == MoveTokens
      requires 0 <= i < |picks|
      requires forall j :: 0 <= j < |picks| ==> 0 <= picks[j] < |MoveTokens|
      requires Cells() == Scrambled(picks, i, s0)
      modifies faces
      ensures Cells() == Scrambled(picks, i + 1, s0)
    {
      ghost var before := Cells();
      var ok := ApplyMove(moves[picks[i]]);
      ScrambleStep(picks, i, s0, before, Cells(), ok);
    }

    /**
     * scramble: numMoves iterations, each applying the token at the next
     * drawn index; `picks` stands for the random generator's draws.
     */
    method Scramble(numMoves: int, picks: seq<int>)
      requires Valid()
      requires numMoves <= |picks|
      requires forall i :: 0 <= i < |picks| ==> 0 <= picks[i] < |MoveTokens|
      modifies faces
      ensures Cells() == Scrambled(picks, numMoves, old(Cells()))
    {
      ghost var s0 := Cells();
      var moves := MoveTokens;
      var i := 0;
      while i < numMoves
        invariant 0 <= i <= |picks| && (i == 0 || i <= numMoves)
        invariant Cells() == Scrambled(picks, i, s0)
      {
        ScrambleIteration(moves, picks, i, s0);
        i := i + 1;
      }
      assert DrawnMoves(picks, numMoves) == DrawnMoves(picks, i);
    }

    /** isSolved: every cell holds its face's designated colour, checked until the first mismatch. */
    method IsSolved() returns (solved: bool)
      requires Valid()
      ensures solved <==> SolvedState(Cells())
    {
      for face := 0 to 6
        invariant forall f, r, c :: 0 <= f < face && 0 <= r < 3 && 0 <= c < 3 ==> faces[f, r, c] == FaceColors[f].Code()
      {
        var expected := FaceColors[face].Code();
        for row := 0 to 3
          invariant forall f, r, c :: 0 <= f < face && 0 <= r < 3 && 0 <= c < 3 ==> faces[f, r, c] == FaceColors[f].Code()
          invariant forall r, c :: 0 <= r < row && 0 <= c < 3 ==> faces[face, r, c] == expected
        {
          for col := 0 to 3
            invariant forall f, r, c :: 0 <= f < face && 0 <= r < 3 && 0 <= c < 3 ==> faces[f, r, c] == FaceColors[f].Code()
            invariant forall r, c :: 0 <= r < row && 0 <= c < 3 ==> faces[face, r, c] == expected
            invariant forall c :: 0 <= c < col ==> faces[face, row, c] == expected
          {
            if faces[face, row, col] != expected {
              var p := Pos(FaceOf(face), row, col);
              CellsAt(p);
              assert At(Cells(), p) != SolvedColor(p.face).Code();
              return false;
            }
          }
        }
      }
      SolvedWhenUniform();
      MoveLaws.SolvedStateIsSolvedCube(Cells());
      return true;
    }

    /** getColor: the colour code at (face, row, col). */
    function GetColor(face: int, row: int, col: int): (c: int)
      requires Valid() && 0 <= face < 6 && 0 <= row < 3 && 0 <= col < 3
      reads faces
      ensures c == At(Cells(), Pos(FaceOf(face), row, col))
    {
      CellsAt(Pos(FaceOf(face), row, col));
      faces[face, row, col]
    }
  }
}
