/**
 * A check of the R and U strip tables as a whole: the four-move block
 * R R U U has order six. Repeating it n times restores every state exactly
 * when n is a multiple of six, so 48 moves of it bring the solved cube back
 * to solved.
 */
module BlockOrder {
  import opened CubeTypes
  import opened CubeSpec
  import opened MoveLaws

  // ---------------------------------------------------------------------
  // Iterated maps

  /** f applied n times to p. */
  function Iterate(f: Pos -> Pos, n: nat, p: Pos): Pos {
    if n == 0 then p else Iterate(f, n - 1, f(p))
  }

  /** a + b applications of f are b applications after a of them. */
  lemma {:induction false} IterateAdd(f: Pos -> Pos, a: nat, b: nat, p: Pos)
    ensures Iterate(f, a + b, p) == Iterate(f, b, Iterate(f, a, p))
    decreases a
  {
    if a > 0 {
      assert a + b - 1 == (a - 1) + b;
      IterateAdd(f, a - 1, b, f(p));
    }
  }

  /** At a point that six applications of f fix, whole rounds of six can be dropped. */
  lemma {:induction false} IterateRounds(f: Pos -> Pos, q: nat, r: nat, p: Pos)
    requires Iterate(f, 6, p) == p
    ensures Iterate(f, 6 * q + r, p) == Iterate(f, r, p)
    decreases q
  {
    if q > 0 {
      IterateAdd(f, 6, 6 * (q - 1) + r, p);
      assert 6 * q + r == 6 + (6 * (q - 1) + r);
      IterateRounds(f, q - 1, r, p);
    }
  }

  /** A fixed point of f is fixed by six applications of f. */
  lemma CycleOne(f: Pos -> Pos, a: Pos)
    requires f(a) == a
    ensures Iterate(f, 6, a) == a
  {
    assert Iterate(f, 1, a) == a;
    assert Iterate(f, 2, a) == a;
    assert Iterate(f, 3, a) == a;
    assert Iterate(f, 4, a) == a;
    assert Iterate(f, 5, a) == a;
  }

  /** A point on a two-cycle a, b of f is fixed by six applications of f. */
  lemma CycleTwo(f: Pos -> Pos, a: Pos, b: Pos)
    requires f(a) == b && f(b) == a
    ensures Iterate(f, 6, a) == a
  {
    assert Iterate(f, 2, a) == Iterate(f, 1, b) == a;
    IterateAdd(f, 2, 2, a);
    IterateAdd(f, 4, 2, a);
  }

  /** A point on a three-cycle a, b, c of f is fixed by six applications of f. */
  lemma CycleThree(f: Pos -> Pos, a: Pos, b: Pos, c: Pos)
    requires f(a) == b && f(b) == c && f(c) == a
    ensures Iterate(f, 6, a) == a
  {
    assert Iterate(f, 3, a) == Iterate(f, 2, b) == Iterate(f, 1, c) == a;
    IterateAdd(f, 3, 3, a);
  }

  /** On a two-cycle of f, three applications of f move the point. */
  lemma TwoCycleMoves(f: Pos -> Pos, a: Pos, b: Pos)
    requires f(a) == b && f(b) == a && a != b
    ensures Iterate(f, 3, a) != a
  {
    assert Iterate(f, 3, a) == Iterate(f, 2, b) == Iterate(f, 1, a) == b;
  }

  /** On a three-cycle of f, one, two, four or five applications of f move the point. */
  lemma ThreeCycleMoves(f: Pos -> Pos, k: nat, a: Pos, b: Pos, c: Pos)
    requires f(a) == b && f(b) == c && f(c) == a && a != b && a != c
    requires 0 < k < 6 && k != 3
    ensures Iterate(f, k, a) != a
  {
    assert Iterate(f, 1, a) == b;
    assert Iterate(f, 2, a) == Iterate(f, 1, b) == c;
    assert Iterate(f, 3, a) == Iterate(f, 1, c) == a;
    if k == 4 {
      IterateAdd(f, 3, 1, a);
    } else if k == 5 {
      IterateAdd(f, 3, 2, a);
    }
  }

  // ---------------------------------------------------------------------
  // Iterated state maps that read positions from a position map

  /** f keeps every position on the cube. */
  ghost predicate Closed(f: Pos -> Pos) {
    forall q: Pos :: q.Valid() ==> f(q).Valid()
  }

  /** Six applications of f fix every position. */
  ghost predicate SixFold(f: Pos -> Pos) {
    forall p: Pos :: p.Valid() ==> Iterate(f, 6, p) == p
  }

  /** g reads every position q of its result from position f(q) of its argument. */
  ghost predicate Reads(g: Facelets -> Facelets, f: Pos -> Pos)
    requires Closed(f)
  {
    forall t: Facelets, q: Pos {:trigger At(g(t), q)} :: q.Valid() ==> At(g(t), q) == At(t, f(q))
  }

  /** A map that keeps positions on the cube keeps them there however often it is applied. */
  lemma {:induction false} IterateValid(f: Pos -> Pos, n: nat, p: Pos)
    requires Closed(f) && p.Valid()
    ensures Iterate(f, n, p).Valid()
    decreases n
  {
    if n > 0 {
      IterateValid(f, n - 1, f(p));
    }
  }

  /** g applied n times to s. */
  function Power(g: Facelets -> Facelets, n: nat, s: Facelets): Facelets {
    if n == 0 then s else g(Power(g, n - 1, s))
  }

  /** g applied n times is g applied after the first n - 1 times. */
  lemma PowerStep(g: Facelets -> Facelets, n: nat, s: Facelets)
    requires n > 0
    ensures Power(g, n, s) == g(Power(g, n - 1, s))
  {
  }

  /** If g reads every position from f, g applied n times reads it from f applied n times. */
  lemma {:induction false} PowerReads(g: Facelets -> Facelets, f: Pos -> Pos, n: nat, s: Facelets, p: Pos)
    requires Closed(f) && Reads(g, f) && p.Valid()
    ensures Iterate(f, n, p).Valid() && At(Power(g, n, s), p) == At(s, Iterate(f, n, p))
    decreases n
  {
    IterateValid(f, n, p);
    if n > 0 {
      PowerReads(g, f, n - 1, s, f(p));
    }
  }

  /** At a point that six applications of f fix, g applied n times and n modulo six times agree. */
  lemma PowerMod6At(g: Facelets -> Facelets, f: Pos -> Pos, n: nat, s: Facelets, p: Pos)
    requires Closed(f) && Reads(g, f) && p.Valid() && Iterate(f, 6, p) == p
    ensures At(Power(g, n, s), p) == At(Power(g, n % 6, s), p)
  {
    PowerReads(g, f, n, s, p);
    PowerReads(g, f, n % 6, s, p);
    assert n == 6 * (n / 6) + n % 6;
    IterateRounds(f, n / 6, n % 6, p);
  }

  /** If g reads from a map whose sixth power is the identity, only n modulo six matters to g applied n times. */
  lemma PowerMod6(g: Facelets -> Facelets, f: Pos -> Pos, n: nat, s: Facelets)
    requires Closed(f) && Reads(g, f) && SixFold(f)
    ensures Power(g, n, s) == Power(g, n % 6, s)
  {
    forall p: Pos | p.Valid()
      ensures At(Power(g, n, s), p) == At(Power(g, n % 6, s), p)
    {
      PowerMod6At(g, f, n, s, p);
    }
    FaceletsExt(Power(g, n, s), Power(g, n % 6, s));
  }

  /** If g reads from f and k applications of f move some position, g applied k times changes the labelled state. */
  lemma PowerMovesLabelled(g: Facelets -> Facelets, f: Pos -> Pos, k: nat, w: Pos)
    requires Closed(f) && Reads(g, f) && w.Valid() && Iterate(f, k, w) != w
    ensures Power(g, k, Labelled()) != Labelled()
  {
    var l := Labelled();
    var q := Iterate(f, k, w);
    PowerReads(g, f, k, l, w);
    LabelledAt(w);
    LabelledAt(q);
    if q.Offset() == w.Offset() {
      OffsetInjective(q, w);
    }
  }

  // ---------------------------------------------------------------------
  // The block R R U U

  /** The block R R U U. */
  function Block(): seq<Move> {
    [Move(Right, true), Move(Right, true), Move(Up, true), Move(Up, true)]
  }

  /** n copies of the block, one after the other. */
  function Repeat(n: nat): (ms: seq<Move>)
    ensures |ms| == 4 * n
  {
    if n == 0 then [] else Repeat(n - 1) + Block()
  }

  /** One block applied to a state. */
  function BlockOnce(t: Facelets): Facelets {
    ApplyAll(Block(), t)
  }

  /** The n-th block is applied after the first n - 1. */
  lemma RepeatStep(n: nat, s: Facelets)
    requires n > 0
    ensures ApplyAll(Repeat(n), s) == BlockOnce(ApplyAll(Repeat(n - 1), s))
  {
    ApplyAllAppend(Repeat(n - 1), Block(), s);
  }

  /** n blocks are the block applied n times. */
  lemma {:induction false} RepeatIsPower(n: nat, s: Facelets)
    ensures ApplyAll(Repeat(n), s) == Power(BlockOnce, n, s)
    decreases n
  {
    if n == 0 {
      assert Repeat(n) == [];
    } else {
      var t := ApplyAll(Repeat(n - 1), s);
      RepeatStep(n, s);
      RepeatIsPower(n - 1, s);
      PowerStep(BlockOnce, n, s);
      assert ApplyAll(Repeat(n), s) == BlockOnce(t);
    }
  }

  /** The source map of R written out: the face rotation and the four column strips of the R table. */
  function RightSource(p: Pos): (q: Pos)
    ensures p.Valid() ==> q.Valid()
  {
    match p.face
    case Right => Pos(Right, 2 - p.col, p.row)
    case Up => if p.col == 2 then Pos(Front, p.row, 2) else p
    case Front => if p.col == 2 then Pos(Down, p.row, 2) else p
    case Down => if p.col == 2 then Pos(Back, 2 - p.row, 0) else p
    case Back => if p.col == 0 then Pos(Up, 2 - p.row, 2) else p
    case Left => p
  }

  /** The source map of U written out: the face rotation and the four top-row strips of the U table. */
  function UpSource(p: Pos): (q: Pos)
    ensures p.Valid() ==> q.Valid()
  {
    match p.face
    case Up => Pos(Up, 2 - p.col, p.row)
    case Front => if p.row == 0 then Pos(Right, 0, p.col) else p
    case Right => if p.row == 0 then Pos(Back, 0, p.col) else p
    case Back => if p.row == 0 then Pos(Left, 0, p.col) else p
    case Left => if p.row == 0 then Pos(Front, 0, p.col) else p
    case Down => p
  }

  /** The closed form agrees with the source map that the R table defines. */
  lemma RightSourceForm(p: Pos)
    requires p.Valid()
    ensures Source(Right, p) == RightSource(p)
  {
  }

  /** The closed form agrees with the source map that the U table defines. */
  lemma UpSourceForm(p: Pos)
    requires p.Valid()
    ensures Source(Up, p) == UpSource(p)
  {
  }

  /** The position whose old value one block brings to p: the last move's source is taken first. */
  function BlockMap(p: Pos): (q: Pos)
    ensures p.Valid() ==> q.Valid()
  {
    RightSource(RightSource(UpSource(UpSource(p))))
  }

  /** One block is the four turns R, R, U, U in that order. */
  lemma BlockIsFourTurns(s: Facelets)
    ensures ApplyAll(Block(), s) == Apply(Move(Up, true), Apply(Move(Up, true), Apply(Move(Right, true), Apply(Move(Right, true), s))))
  {
    var r, u := Move(Right, true), Move(Up, true);
    assert Block() == [r, r, u] + [u];
    assert [r, r, u] == [r, r] + [u];
    assert [r, r] == [r] + [r];
    assert [r] == [] + [r];
    ApplyAllSnoc([], r, s);
    ApplyAllSnoc([r], r, s);
    ApplyAllSnoc([r, r], u, s);
    ApplyAllSnoc([r, r, u], u, s);
  }

  /** One block reads every position from its block map. */
  lemma BlockAt(s: Facelets, p: Pos)
    requires p.Valid()
    ensures At(ApplyAll(Block(), s), p) == At(s, BlockMap(p))
  {
    var t1 := Turn(Right, s);
    var t2 := Turn(Right, t1);
    var t3 := Turn(Up, t2);
    var p1 := Source(Up, p);
    var p2 := Source(Up, p1);
    var p3 := Source(Right, p2);
    BlockIsFourTurns(s);
    TurnAt(Up, t3, p);
    TurnAt(Up, t2, p1);
    TurnAt(Right, t1, p2);
    TurnAt(Right, s, p3);
    UpSourceForm(p);
    UpSourceForm(p1);
    RightSourceForm(p2);
    RightSourceForm(p3);
  }

  /** The block map keeps positions on the cube and is what one block reads from. */
  lemma BlockMapReads()
    ensures Closed(BlockMap) && Reads(BlockOnce, BlockMap)
  {
    forall t: Facelets, q: Pos | q.Valid()
      ensures At(BlockOnce(t), q) == At(t, BlockMap(q))
    {
      BlockAt(t, q);
    }
  }

  /** Where one block reads each cell of the Right face from. */
  lemma BlockMapRightTable()
    ensures BlockMap(Pos(Right, 0, 0)) == Pos(Left, 0, 0)
    ensures BlockMap(Pos(Right, 0, 1)) == Pos(Left, 0, 1)
    ensures BlockMap(Pos(Right, 0, 2)) == Pos(Left, 0, 2)
    ensures BlockMap(Pos(Right, 1, 0)) == Pos(Right, 1, 2)
    ensures BlockMap(Pos(Right, 1, 1)) == Pos(Right, 1, 1)
    ensures BlockMap(Pos(Right, 1, 2)) == Pos(Right, 1, 0)
    ensures BlockMap(Pos(Right, 2, 0)) == Pos(Right, 0, 2)
    ensures BlockMap(Pos(Right, 2, 1)) == Pos(Right, 0, 1)
    ensures BlockMap(Pos(Right, 2, 2)) == Pos(Right, 0, 0)
  {
  }

  /** Where one block reads each cell of the Left face from. */
  lemma BlockMapLeftTable()
    ensures BlockMap(Pos(Left, 0, 0)) == Pos(Right, 2, 2)
    ensures BlockMap(Pos(Left, 0, 1)) == Pos(Right, 2, 1)
    ensures BlockMap(Pos(Left, 0, 2)) == Pos(Right, 2, 0)
    ensures BlockMap(Pos(Left, 1, 0)) == Pos(Left, 1, 0)
    ensures BlockMap(Pos(Left, 1, 1)) == Pos(Left, 1, 1)
    ensures BlockMap(Pos(Left, 1, 2)) == Pos(Left, 1, 2)
    ensures BlockMap(Pos(Left, 2, 0)) == Pos(Left, 2, 0)
    ensures BlockMap(Pos(Left, 2, 1)) == Pos(Left, 2, 1)
    ensures BlockMap(Pos(Left, 2, 2)) == Pos(Left, 2, 2)
  {
  }

  /** Where one block reads each cell of the Up face from. */
  lemma BlockMapUpTable()
    ensures BlockMap(Pos(Up, 0, 0)) == Pos(Down, 2, 2)
    ensures BlockMap(Pos(Up, 0, 1)) == Pos(Up, 2, 1)
    ensures BlockMap(Pos(Up, 0, 2)) == Pos(Up, 2, 0)
    ensures BlockMap(Pos(Up, 1, 0)) == Pos(Down, 1, 2)
    ensures BlockMap(Pos(Up, 1, 1)) == Pos(Up, 1, 1)
    ensures BlockMap(Pos(Up, 1, 2)) == Pos(Up, 1, 0)
    ensures BlockMap(Pos(Up, 2, 0)) == Pos(Down, 0, 2)
    ensures BlockMap(Pos(Up, 2, 1)) == Pos(Up, 0, 1)
    ensures BlockMap(Pos(Up, 2, 2)) == Pos(Up, 0, 0)
  {
  }

  /** Where one block reads each cell of the Down face from. */
  lemma BlockMapDownTable()
    ensures BlockMap(Pos(Down, 0, 0)) == Pos(Down, 0, 0)
    ensures BlockMap(Pos(Down, 0, 1)) == Pos(Down, 0, 1)
    ensures BlockMap(Pos(Down, 0, 2)) == Pos(Up, 0, 2)
    ensures BlockMap(Pos(Down, 1, 0)) == Pos(Down, 1, 0)
    ensures BlockMap(Pos(Down, 1, 1)) == Pos(Down, 1, 1)
    ensures BlockMap(Pos(Down, 1, 2)) == Pos(Up, 1, 2)
    ensures BlockMap(Pos(Down, 2, 0)) == Pos(Down, 2, 0)
    ensures BlockMap(Pos(Down, 2, 1)) == Pos(Down, 2, 1)
    ensures BlockMap(Pos(Down, 2, 2)) == Pos(Up, 2, 2)
  {
  }

  /** Where one block reads each cell of the Front face from. */
  lemma BlockMapFrontTable()
    ensures BlockMap(Pos(Front, 0, 0)) == Pos(Front, 2, 2)
    ensures BlockMap(Pos(Front, 0, 1)) == Pos(Back, 0, 1)
    ensures BlockMap(Pos(Front, 0, 2)) == Pos(Back, 0, 2)
    ensures BlockMap(Pos(Front, 1, 0)) == Pos(Front, 1, 0)
    ensures BlockMap(Pos(Front, 1, 1)) == Pos(Front, 1, 1)
    ensures BlockMap(Pos(Front, 1, 2)) == Pos(Back, 1, 0)
    ensures BlockMap(Pos(Front, 2, 0)) == Pos(Front, 2, 0)
    ensures BlockMap(Pos(Front, 2, 1)) == Pos(Front, 2, 1)
    ensures BlockMap(Pos(Front, 2, 2)) == Pos(Back, 0, 0)
  {
  }

  /** Where one block reads each cell of the Back face from. */
  lemma BlockMapBackTable()
    ensures BlockMap(Pos(Back, 0, 0)) == Pos(Front, 0, 0)
    ensures BlockMap(Pos(Back, 0, 1)) == Pos(Front, 0, 1)
    ensures BlockMap(Pos(Back, 0, 2)) == Pos(Back, 2, 0)
    ensures BlockMap(Pos(Back, 1, 0)) == Pos(Front, 1, 2)
    ensures BlockMap(Pos(Back, 1, 1)) == Pos(Back, 1, 1)
    ensures BlockMap(Pos(Back, 1, 2)) == Pos(Back, 1, 2)
    ensures BlockMap(Pos(Back, 2, 0)) == Pos(Front, 0, 2)
    ensures BlockMap(Pos(Back, 2, 1)) == Pos(Back, 2, 1)
    ensures BlockMap(Pos(Back, 2, 2)) == Pos(Back, 2, 2)
  {
  }

  lemma BlockSixRight00(p: Pos)
    requires p.face == Right && p.row == 0 && p.col == 0
    ensures Iterate(BlockMap, 6, p) == p
  {
    BlockMapRightTable();
    BlockMapLeftTable();
    assert p == Pos(Right, 0, 0);
    CycleThree(BlockMap, p, Pos(Left, 0, 0), Pos(Right, 2, 2));
  }

  lemma BlockSixRight01(p: Pos)
    requires p.face == Right && p.row == 0 && p.col == 1
    ensures Iterate(BlockMap, 6, p) == p
  {
    BlockMapRightTable();
    BlockMapLeftTable();
    assert p == Pos(Right, 0, 1);
    CycleThree(BlockMap, p, Pos(Left, 0, 1), Pos(Right, 2, 1));
  }

  lemma BlockSixRight02(p: Pos)
    requires p.face == Right && p.row == 0 && p.col == 2
    ensures Iterate(BlockMap, 6, p) == p
  {
    BlockMapRightTable();
    BlockMapLeftTable();
    assert p == Pos(Right, 0, 2);
    CycleThree(BlockMap, p, Pos(Left, 0, 2), Pos(Right, 2, 0));
  }

  lemma BlockSixRight10(p: Pos)
    requires p.face == Right && p.row == 1 && p.col == 0
    ensures Iterate(BlockMap, 6, p) == p
  {
    BlockMapRightTable();
    assert p == Pos(Right, 1, 0);
    CycleTwo(BlockMap, p, Pos(Right, 1, 2));
  }

  lemma BlockSixRight11(p: Pos)
    requires p.face == Right && p.row == 1 && p.col == 1
    ensures Iterate(BlockMap, 6, p) == p
  {
    BlockMapRightTable();
    assert p == Pos(Right, 1, 1);
    CycleOne(BlockMap, p);
  }

  lemma BlockSixRight12(p: Pos)
    requires p.face == Right && p.row == 1 && p.col == 2
    ensures Iterate(BlockMap, 6, p) == p
  {
    BlockMapRightTable();
    assert p == Pos(Right, 1, 2);
    CycleTwo(BlockMap, p, Pos(Right, 1, 0));
  }

  lemma BlockSixRight20(p: Pos)
    requires p.face == Right && p.row == 2 && p.col == 0
    ensures Iterate(BlockMap, 6, p) == p
  {
    BlockMapRightTable();
    BlockMapLeftTable();
    assert p == Pos(Right, 2, 0);
    CycleThree(BlockMap, p, Pos(Right, 0, 2), Pos(Left, 0, 2));
  }

  lemma BlockSixRight21(p: Pos)
    requires p.face == Right && p.row == 2 && p.col == 1
    ensures Iterate(BlockMap, 6, p) == p
  {
    BlockMapRightTable();
    BlockMapLeftTable();
    assert p == Pos(Right, 2, 1);
    CycleThree(BlockMap, p, Pos(Right, 0, 1), Pos(Left, 0, 1));
  }

  lemma BlockSixRight22(p: Pos)
    requires p.face == Right && p.row == 2 && p.col == 2
    ensures Iterate(BlockMap, 6, p) == p
  {
    BlockMapRightTable();
    BlockMapLeftTable();
    assert p == Pos(Right, 2, 2);
    CycleThree(BlockMap, p, Pos(Right, 0, 0), Pos(Left, 0, 0));
  }

  /** Six blocks fix every cell of the Right face. */
  lemma BlockSixRight(p: Pos)
    requires p.Valid() && p.face == Right
    ensures Iterate(BlockMap, 6, p) == p
  {
    if p.row == 0 && p.col == 0 {
      BlockSixRight00(p);
    } else if p.row == 0 && p.col == 1 {
      BlockSixRight01(p);
    } else if p.row == 0 && p.col == 2 {
      BlockSixRight02(p);
    } else if p.row == 1 && p.col == 0 {
      BlockSixRight10(p);
    } else if p.row == 1 && p.col == 1 {
      BlockSixRight11(p);
    } else if p.row == 1 && p.col == 2 {
      BlockSixRight12(p);
    } else if p.row == 2 && p.col == 0 {
      BlockSixRight20(p);
    } else if p.row == 2 && p.col == 1 {
      BlockSixRight21(p);
    } else {
      BlockSixRight22(p);
    }
  }

  lemma BlockSixLeft00(p: Pos)
    requires p.face == Left && p.row == 0 && p.col == 0
    ensures Iterate(BlockMap, 6, p) == p
  {
    BlockMapRightTable();
    BlockMapLeftTable();
    assert p == Pos(Left, 0, 0);
    CycleThree(BlockMap, p, Pos(Right, 2, 2), Pos(Right, 0, 0));
  }

  lemma BlockSixLeft01(p: Pos)
    requires p.face == Left && p.row == 0 && p.col == 1
    ensures Iterate(BlockMap, 6, p) == p
  {
    BlockMapRightTable();
    BlockMapLeftTable();
    assert p == Pos(Left, 0, 1);
    CycleThree(BlockMap, p, Pos(Right, 2, 1), Pos(Right, 0, 1));
  }

  lemma BlockSixLeft02(p: Pos)
    requires p.face == Left && p.row == 0 && p.col == 2
    ensures Iterate(BlockMap, 6, p) == p
  {
    BlockMapRightTable();
    BlockMapLeftTable();
    assert p == Pos(Left, 0, 2);
    CycleThree(BlockMap, p, Pos(Right, 2, 0), Pos(Right, 0, 2));
  }

  lemma BlockSixLeft10(p: Pos)
    requires p.face == Left && p.row == 1 && p.col == 0
    ensures Iterate(BlockMap, 6, p) == p
  {
    BlockMapLeftTable();
    assert p == Pos(Left, 1, 0);
    CycleOne(BlockMap, p);
  }

  lemma BlockSixLeft11(p: Pos)
    requires p.face == Left && p.row == 1 && p.col == 1
    ensures Iterate(BlockMap, 6, p) == p
  {
    BlockMapLeftTable();
    assert p == Pos(Left, 1, 1);
    CycleOne(BlockMap, p);
  }

  lemma BlockSixLeft12(p: Pos)
    requires p.face == Left && p.row == 1 && p.col == 2
    ensures Iterate(BlockMap, 6, p) == p
  {
    BlockMapLeftTable();
    assert p == Pos(Left, 1, 2);
    CycleOne(BlockMap, p);
  }

  lemma BlockSixLeft20(p: Pos)
    requires p.face == Left && p.row == 2 && p.col == 0
    ensures Iterate(BlockMap, 6, p) == p
  {
    BlockMapLeftTable();
    assert p == Pos(Left, 2, 0);
    CycleOne(BlockMap, p);
  }

  lemma BlockSixLeft21(p: Pos)
    requires p.face == Left && p.row == 2 && p.col == 1
    ensures Iterate(BlockMap, 6, p) == p
  {
    BlockMapLeftTable();
    assert p == Pos(Left, 2, 1);
    CycleOne(BlockMap, p);
  }

  lemma BlockSixLeft22(p: Pos)
    requires p.face == Left && p.row == 2 && p.col == 2
    ensures Iterate(BlockMap, 6, p) == p
  {
    BlockMapLeftTable();
    assert p == Pos(Left, 2, 2);
    CycleOne(BlockMap, p);
  }

  /** Six blocks fix every cell of the Left face. */
  lemma BlockSixLeft(p: Pos)
    requires p.Valid() && p.face == Left
    ensures Iterate(BlockMap, 6, p) == p
  {
    if p.row == 0 && p.col == 0 {
      BlockSixLeft00(p);
    } else if p.row == 0 && p.col == 1 {
      BlockSixLeft01(p);
    } else if p.row == 0 && p.col == 2 {
      BlockSixLeft02(p);
    } else if p.row == 1 && p.col == 0 {
      BlockSixLeft10(p);
    } else if p.row == 1 && p.col == 1 {
      BlockSixLeft11(p);
    } else if p.row == 1 && p.col == 2 {
      BlockSixLeft12(p);
    } else if p.row == 2 && p.col == 0 {
      BlockSixLeft20(p);
    } else if p.row == 2 && p.col == 1 {
      BlockSixLeft21(p);
    } else {
      BlockSixLeft22(p);
    }
  }

  lemma BlockSixUp00(p: Pos)
    requires p.face == Up && p.row == 0 && p.col == 0
    ensures Iterate(BlockMap, 6, p) == p
  {
    BlockMapUpTable();
    BlockMapDownTable();
    assert p == Pos(Up, 0, 0);
    CycleThree(BlockMap, p, Pos(Down, 2, 2), Pos(Up, 2, 2));
  }

  lemma BlockSixUp01(p: Pos)
    requires p.face == Up && p.row == 0 && p.col == 1
    ensures Iterate(BlockMap, 6, p) == p
  {
    BlockMapUpTable();
    assert p == Pos(Up, 0, 1);
    CycleTwo(BlockMap, p, Pos(Up, 2, 1));
  }

  lemma BlockSixUp02(p: Pos)
    requires p.face == Up && p.row == 0 && p.col == 2
    ensures Iterate(BlockMap, 6, p) == p
  {
    BlockMapUpTable();
    BlockMapDownTable();
    assert p == Pos(Up, 0, 2);
    CycleThree(BlockMap, p, Pos(Up, 2, 0), Pos(Down, 0, 2));
  }

  lemma BlockSixUp10(p: Pos)
    requires p.face == Up && p.row == 1 && p.col == 0
    ensures Iterate(BlockMap, 6, p) == p
  {
    BlockMapUpTable();
    BlockMapDownTable();
    assert p == Pos(Up, 1, 0);
    CycleThree(BlockMap, p, Pos(Down, 1, 2), Pos(Up, 1, 2));
  }

  lemma BlockSixUp11(p: Pos)
    requires p.face == Up && p.row == 1 && p.col == 1
    ensures Iterate(BlockMap, 6, p) == p
  {
    BlockMapUpTable();
    assert p == Pos(Up, 1, 1);
    CycleOne(BlockMap, p);
  }

  lemma BlockSixUp12(p: Pos)
    requires p.face == Up && p.row == 1 && p.col == 2
    ensures Iterate(BlockMap, 6, p) == p
  {
    BlockMapUpTable();
    BlockMapDownTable();
    assert p == Pos(Up, 1, 2);
    CycleThree(BlockMap, p, Pos(Up, 1, 0), Pos(Down, 1, 2));
  }

  lemma BlockSixUp20(p: Pos)
    requires p.face == Up && p.row == 2 && p.col == 0
    ensures Iterate(BlockMap, 6, p) == p
  {
    BlockMapUpTable();
    BlockMapDownTable();
    assert p == Pos(Up, 2, 0);
    CycleThree(BlockMap, p, Pos(Down, 0, 2), Pos(Up, 0, 2));
  }

  lemma BlockSixUp21(p: Pos)
    requires p.face == Up && p.row == 2 && p.col == 1
    ensures Iterate(BlockMap, 6, p) == p
  {
    BlockMapUpTable();
    assert p == Pos(Up, 2, 1);
    CycleTwo(BlockMap, p, Pos(Up, 0, 1));
  }

  lemma BlockSixUp22(p: Pos)
    requires p.face == Up && p.row == 2 && p.col == 2
    ensures Iterate(BlockMap, 6, p) == p
  {
    BlockMapUpTable();
    BlockMapDownTable();
    assert p == Pos(Up, 2, 2);
    CycleThree(BlockMap, p, Pos(Up, 0, 0), Pos(Down, 2, 2));
  }

  /** Six blocks fix every cell of the Up face. */
  lemma BlockSixUp(p: Pos)
    requires p.Valid() && p.face == Up
    ensures Iterate(BlockMap, 6, p) == p
  {
    if p.row == 0 && p.col == 0 {
      BlockSixUp00(p);
    } else if p.row == 0 && p.col == 1 {
      BlockSixUp01(p);
    } else if p.row == 0 && p.col == 2 {
      BlockSixUp02(p);
    } else if p.row == 1 && p.col == 0 {
      BlockSixUp10(p);
    } else if p.row == 1 && p.col == 1 {
      BlockSixUp11(p);
    } else if p.row == 1 && p.col == 2 {
      BlockSixUp12(p);
    } else if p.row == 2 && p.col == 0 {
      BlockSixUp20(p);
    } else if p.row == 2 && p.col == 1 {
      BlockSixUp21(p);
    } else {
      BlockSixUp22(p);
    }
  }

  lemma BlockSixDown00(p: Pos)
    requires p.face == Down && p.row == 0 && p.col == 0
    ensures Iterate(BlockMap, 6, p) == p
  {
    BlockMapDownTable();
    assert p == Pos(Down, 0, 0);
    CycleOne(BlockMap, p);
  }

  lemma BlockSixDown01(p: Pos)
    requires p.face == Down && p.row == 0 && p.col == 1
    ensures Iterate(BlockMap, 6, p) == p
  {
    BlockMapDownTable();
    assert p == Pos(Down, 0, 1);
    CycleOne(BlockMap, p);
  }

  lemma BlockSixDown02(p: Pos)
    requires p.face == Down && p.row == 0 && p.col == 2
    ensures Iterate(BlockMap, 6, p) == p
  {
    BlockMapUpTable();
    BlockMapDownTable();
    assert p == Pos(Down, 0, 2);
    CycleThree(BlockMap, p, Pos(Up, 0, 2), Pos(Up, 2, 0));
  }

  lemma BlockSixDown10(p: Pos)
    requires p.face == Down && p.row == 1 && p.col == 0
    ensures Iterate(BlockMap, 6, p) == p
  {
    BlockMapDownTable();
    assert p == Pos(Down, 1, 0);
    CycleOne(BlockMap, p);
  }

  lemma BlockSixDown11(p: Pos)
    requires p.face == Down && p.row == 1 && p.col == 1
    ensures Iterate(BlockMap, 6, p) == p
  {
    BlockMapDownTable();
    assert p == Pos(Down, 1, 1);
    CycleOne(BlockMap, p);
  }

  lemma BlockSixDown12(p: Pos)
    requires p.face == Down && p.row == 1 && p.col == 2
    ensures Iterate(BlockMap, 6, p) == p
  {
    BlockMapUpTable();
    BlockMapDownTable();
    assert p == Pos(Down, 1, 2);
    CycleThree(BlockMap, p, Pos(Up, 1, 2), Pos(Up, 1, 0));
  }

  lemma BlockSixDown20(p: Pos)
    requires p.face == Down && p.row == 2 && p.col == 0
    ensures Iterate(BlockMap, 6, p) == p
  {
    BlockMapDownTable();
    assert p == Pos(Down, 2, 0);
    CycleOne(BlockMap, p);
  }

  lemma BlockSixDown21(p: Pos)
    requires p.face == Down && p.row == 2 && p.col == 1
    ensures Iterate(BlockMap, 6, p) == p
  {
    BlockMapDownTable();
    assert p == Pos(Down, 2, 1);
    CycleOne(BlockMap, p);
  }

  lemma BlockSixDown22(p: Pos)
    requires p.face == Down && p.row == 2 && p.col == 2
    ensures Iterate(BlockMap, 6, p) == p
  {
    BlockMapUpTable();
    BlockMapDownTable();
    assert p == Pos(Down, 2, 2);
    CycleThree(BlockMap, p, Pos(Up, 2, 2), Pos(Up, 0, 0));
  }

  /** Six blocks fix every cell of the Down face. */
  lemma BlockSixDown(p: Pos)
    requires p.Valid() && p.face == Down
    ensures Iterate(BlockMap, 6, p) == p
  {
    if p.row == 0 && p.col == 0 {
      BlockSixDown00(p);
    } else if p.row == 0 && p.col == 1 {
      BlockSixDown01(p);
    } else if p.row == 0 && p.col == 2 {
      BlockSixDown02(p);
    } else if p.row == 1 && p.col == 0 {
      BlockSixDown10(p);
    } else if p.row == 1 && p.col == 1 {
      BlockSixDown11(p);
    } else if p.row == 1 && p.col == 2 {
      BlockSixDown12(p);
    } else if p.row == 2 && p.col == 0 {
      BlockSixDown20(p);
    } else if p.row == 2 && p.col == 1 {
      BlockSixDown21(p);
    } else {
      BlockSixDown22(p);
    }
  }

  lemma BlockSixFront00(p: Pos)
    requires p.face == Front && p.row == 0 && p.col == 0
    ensures Iterate(BlockMap, 6, p) == p
  {
    BlockMapFrontTable();
    BlockMapBackTable();
    assert p == Pos(Front, 0, 0);
    CycleThree(BlockMap, p, Pos(Front, 2, 2), Pos(Back, 0, 0));
  }

  lemma BlockSixFront01(p: Pos)
    requires p.face == Front && p.row == 0 && p.col == 1
    ensures Iterate(BlockMap, 6, p) == p
  {
    BlockMapFrontTable();
    BlockMapBackTable();
    assert p == Pos(Front, 0, 1);
    CycleTwo(BlockMap, p, Pos(Back, 0, 1));
  }

  lemma BlockSixFront02(p: Pos)
    requires p.face == Front && p.row == 0 && p.col == 2
    ensures Iterate(BlockMap, 6, p) == p
  {
    BlockMapFrontTable();
    BlockMapBackTable();
    assert p == Pos(Front, 0, 2);
    CycleThree(BlockMap, p, Pos(Back, 0, 2), Pos(Back, 2, 0));
  }

  lemma BlockSixFront10(p: Pos)
    requires p.face == Front && p.row == 1 && p.col == 0
    ensures Iterate(BlockMap, 6, p) == p
  {
    BlockMapFrontTable();
    assert p == Pos(Front, 1, 0);
    CycleOne(BlockMap, p);
  }

  lemma BlockSixFront11(p: Pos)
    requires p.face == Front && p.row == 1 && p.col == 1
    ensures Iterate(BlockMap, 6, p) == p
  {
    BlockMapFrontTable();
    assert p == Pos(Front, 1, 1);
    CycleOne(BlockMap, p);
  }

  lemma BlockSixFront12(p: Pos)
    requires p.face == Front && p.row == 1 && p.col == 2
    ensures Iterate(BlockMap, 6, p) == p
  {
    BlockMapFrontTable();
    BlockMapBackTable();
    assert p == Pos(Front, 1, 2);
    CycleTwo(BlockMap, p, Pos(Back, 1, 0));
  }

  lemma BlockSixFront20(p: Pos)
    requires p.face == Front && p.row == 2 && p.col == 0
    ensures Iterate(BlockMap, 6, p) == p
  {
    BlockMapFrontTable();
    assert p == Pos(Front, 2, 0);
    CycleOne(BlockMap, p);
  }

  lemma BlockSixFront21(p: Pos)
    requires p.face == Front && p.row == 2 && p.col == 1
    ensures Iterate(BlockMap, 6, p) == p
  {
    BlockMapFrontTable();
    assert p == Pos(Front, 2, 1);
    CycleOne(BlockMap, p);
  }

  lemma BlockSixFront22(p: Pos)
    requires p.face == Front && p.row == 2 && p.col == 2
    ensures Iterate(BlockMap, 6, p) == p
  {
    BlockMapFrontTable();
    BlockMapBackTable();
    assert p == Pos(Front, 2, 2);
    CycleThree(BlockMap, p, Pos(Back, 0, 0), Pos(Front, 0, 0));
  }

  /** Six blocks fix every cell of the Front face. */
  lemma BlockSixFront(p: Pos)
    requires p.Valid() && p.face == Front
    ensures Iterate(BlockMap, 6, p) == p
  {
    if p.row == 0 && p.col == 0 {
      BlockSixFront00(p);
    } else if p.row == 0 && p.col == 1 {
      BlockSixFront01(p);
    } else if p.row == 0 && p.col == 2 {
      BlockSixFront02(p);
    } else if p.row == 1 && p.col == 0 {
      BlockSixFront10(p);
    } else if p.row == 1 && p.col == 1 {
      BlockSixFront11(p);
    } else if p.row == 1 && p.col == 2 {
      BlockSixFront12(p);
    } else if p.row == 2 && p.col == 0 {
      BlockSixFront20(p);
    } else if p.row == 2 && p.col == 1 {
      BlockSixFront21(p);
    } else {
      BlockSixFront22(p);
    }
  }

  lemma BlockSixBack00(p: Pos)
    requires p.face == Back && p.row == 0 && p.col == 0
    ensures Iterate(BlockMap, 6, p) == p
  {
    BlockMapFrontTable();
    BlockMapBackTable();
    assert p == Pos(Back, 0, 0);
    CycleThree(BlockMap, p, Pos(Front, 0, 0), Pos(Front, 2, 2));
  }

  lemma BlockSixBack01(p: Pos)
    requires p.face == Back && p.row == 0 && p.col == 1
    ensures Iterate(BlockMap, 6, p) == p
  {
    BlockMapFrontTable();
    BlockMapBackTable();
    assert p == Pos(Back, 0, 1);
    CycleTwo(BlockMap, p, Pos(Front, 0, 1));
  }

  lemma BlockSixBack02(p: Pos)
    requires p.face == Back && p.row == 0 && p.col == 2
    ensures Iterate(BlockMap, 6, p) == p
  {
    BlockMapFrontTable();
    BlockMapBackTable();
    assert p == Pos(Back, 0, 2);
    CycleThree(BlockMap, p, Pos(Back, 2, 0), Pos(Front, 0, 2));
  }

  lemma BlockSixBack10(p: Pos)
    requires p.face == Back && p.row == 1 && p.col == 0
    ensures Iterate(BlockMap, 6, p) == p
  {
    BlockMapFrontTable();
    BlockMapBackTable();
    assert p == Pos(Back, 1, 0);
    CycleTwo(BlockMap, p, Pos(Front, 1, 2));
  }

  lemma BlockSixBack11(p: Pos)
    requires p.face == Back && p.row == 1 && p.col == 1
    ensures Iterate(BlockMap, 6, p) == p
  {
    BlockMapBackTable();
    assert p == Pos(Back, 1, 1);
    CycleOne(BlockMap, p);
  }

  lemma BlockSixBack12(p: Pos)
    requires p.face == Back && p.row == 1 && p.col == 2
    ensures Iterate(BlockMap, 6, p) == p
  {
    BlockMapBackTable();
    assert p == Pos(Back, 1, 2);
    CycleOne(BlockMap, p);
  }

  lemma BlockSixBack20(p: Pos)
    requires p.face == Back && p.row == 2 && p.col == 0
    ensures Iterate(BlockMap, 6, p) == p
  {
    BlockMapFrontTable();
    BlockMapBackTable();
    assert p == Pos(Back, 2, 0);
    CycleThree(BlockMap, p, Pos(Front, 0, 2), Pos(Back, 0, 2));
  }

  lemma BlockSixBack21(p: Pos)
    requires p.face == Back && p.row == 2 && p.col == 1
    ensures Iterate(BlockMap, 6, p) == p
  {
    BlockMapBackTable();
    assert p == Pos(Back, 2, 1);
    CycleOne(BlockMap, p);
  }

  lemma BlockSixBack22(p: Pos)
    requires p.face == Back && p.row == 2 && p.col == 2
    ensures Iterate(BlockMap, 6, p) == p
  {
    BlockMapBackTable();
    assert p == Pos(Back, 2, 2);
    CycleOne(BlockMap, p);
  }

  /** Six blocks fix every cell of the Back face. */
  lemma BlockSixBack(p: Pos)
    requires p.Valid() && p.face == Back
    ensures Iterate(BlockMap, 6, p) == p
  {
    if p.row == 0 && p.col == 0 {
      BlockSixBack00(p);
    } else if p.row == 0 && p.col == 1 {
      BlockSixBack01(p);
    } else if p.row == 0 && p.col == 2 {
      BlockSixBack02(p);
    } else if p.row == 1 && p.col == 0 {
      BlockSixBack10(p);
    } else if p.row == 1 && p.col == 1 {
      BlockSixBack11(p);
    } else if p.row == 1 && p.col == 2 {
      BlockSixBack12(p);
    } else if p.row == 2 && p.col == 0 {
      BlockSixBack20(p);
    } else if p.row == 2 && p.col == 1 {
      BlockSixBack21(p);
    } else {
      BlockSixBack22(p);
    }
  }

  /** Six blocks bring every position back to itself: the block map has cycles of length one, two and three only. */
  lemma BlockSix(p: Pos)
    requires p.Valid()
    ensures Iterate(BlockMap, 6, p) == p
  {
    match p.face
    case Right => BlockSixRight(p);
    case Left => BlockSixLeft(p);
    case Up => BlockSixUp(p);
    case Down => BlockSixDown(p);
    case Front => BlockSixFront(p);
    case Back => BlockSixBack(p);
  }

  /** The cycle of the block map through the corner at row 0, column 0 of the Right face. */
  lemma CornerCycle(a: Pos)
    requires a.face == Right && a.row == 0 && a.col == 0
    ensures BlockMap(a) == Pos(Left, 0, 0) && BlockMap(Pos(Left, 0, 0)) == Pos(Right, 2, 2) && BlockMap(Pos(Right, 2, 2)) == a
  {
    BlockMapRightTable();
    BlockMapLeftTable();
    assert a == Pos(Right, 0, 0);
  }

  /** The cycle of the block map through the edge at row 1, column 0 of the Right face. */
  lemma EdgeCycle(a: Pos)
    requires a.face == Right && a.row == 1 && a.col == 0
    ensures BlockMap(a) == Pos(Right, 1, 2) && BlockMap(Pos(Right, 1, 2)) == a
  {
    BlockMapRightTable();
    assert a == Pos(Right, 1, 0);
  }

  /** One to five blocks move some position. */
  lemma BlockMoves(k: nat) returns (w: Pos)
    requires 0 < k < 6
    ensures w.Valid() && Iterate(BlockMap, k, w) != w
  {
    if k == 3 {
      w := Pos(Right, 1, 0);
      EdgeCycle(w);
      TwoCycleMoves(BlockMap, w, Pos(Right, 1, 2));
    } else {
      w := Pos(Right, 0, 0);
      CornerCycle(w);
      ThreeCycleMoves(BlockMap, k, w, Pos(Left, 0, 0), Pos(Right, 2, 2));
    }
  }

  /**
   * The order of the block R R U U is exactly six: n blocks restore every
   * state when n is a multiple of six, and change the labelled state
   * otherwise.
   */
  lemma BlockOrderIsSix(n: nat)
    ensures (forall s: Facelets :: ApplyAll(Repeat(n), s) == s) <==> n % 6 == 0
  {
    BlockMapReads();
    forall p: Pos | p.Valid()
      ensures Iterate(BlockMap, 6, p) == p
    {
      BlockSix(p);
    }
    if n % 6 == 0 {
      forall s: Facelets
        ensures ApplyAll(Repeat(n), s) == s
      {
        RepeatIsPower(n, s);
        PowerMod6(BlockOnce, BlockMap, n, s);
      }
    } else {
      var l := Labelled();
      RepeatIsPower(n, l);
      PowerMod6(BlockOnce, BlockMap, n, l);
      var w := BlockMoves(n % 6);
      PowerMovesLabelled(BlockOnce, BlockMap, n % 6, w);
    }
  }

  /**
   * Six repetitions of the eight moves R R U U R R U U, 48 moves in all,
   * bring the solved cube back to a state that passes the solved test.
   */
  lemma FortyEightMovesSolve()
    ensures |Repeat(12)| == 48
    ensures ApplyAll(Repeat(12), SolvedCube()) == SolvedCube()
    ensures SolvedState(ApplyAll(Repeat(12), SolvedCube()))
  {
    BlockOrderIsSix(12);
    SolvedStateIsSolvedCube(SolvedCube());
  }
}
