/**
 * What the quarter turns of rubik_cube.cpp guarantee: each is a
 * permutation of the 54 cells that keeps every colour count, has period
 * four, is undone by its primed turn, and touches only its own face and
 * four strips; the solved state is exactly the uniform-faces state with
 * nine cells of each colour; the token notation is read back exactly.
 */
module MoveLaws {
  import opened Wrappers
  import opened CubeTypes
  import opened CubeSpec
  import opened Reindexing
  import opened Notation

  // ---------------------------------------------------------------------
  // Period and inverses

  /** Four clockwise turns of the same face give back the original state. */
  lemma TurnFourTimes(f: FaceIndex, s: Facelets)
    ensures Turn(f, Turn(f, Turn(f, Turn(f, s)))) == s
  {
    var s1 := Turn(f, s);
    var s2 := Turn(f, s1);
    var s3 := Turn(f, s2);
    var s4 := Turn(f, s3);
    forall p: Pos | p.Valid()
      ensures At(s4, p) == At(s, p)
    {
      TurnAt(f, s3, p);
      TurnAt(f, s2, Source(f, p));
      TurnAt(f, s1, Source(f, Source(f, p)));
      TurnAt(f, s, Source(f, Source(f, Source(f, p))));
      SourcePeriod(f, p);
    }
    FaceletsExt(s4, s);
  }

  /** A turn followed by its primed turn, or the primed turn followed by the turn, is the identity. */
  lemma TurnThenPrime(f: FaceIndex, s: Facelets)
    ensures TurnPrime(f, Turn(f, s)) == s
    ensures Turn(f, TurnPrime(f, s)) == s
    ensures Apply(Move(f, false), Apply(Move(f, true), s)) == s
    ensures Apply(Move(f, true), Apply(Move(f, false), s)) == s
  {
    TurnFourTimes(f, s);
  }

  /** Four primed turns restore every state, like four clockwise ones. */
  lemma PrimeFourTimes(f: FaceIndex, s: Facelets)
    ensures TurnPrime(f, TurnPrime(f, TurnPrime(f, TurnPrime(f, s)))) == s
  {
    var p1 := TurnPrime(f, s);
    var p2 := TurnPrime(f, p1);
    var p3 := TurnPrime(f, p2);
    var p4 := TurnPrime(f, p3);
    TurnThenPrime(f, s);
    TurnThenPrime(f, p1);
    TurnThenPrime(f, p2);
    TurnThenPrime(f, p3);
    // four clockwise turns undo the four primes one by one, and also fix p4
    TurnFourTimes(f, p4);
  }

  /** The turn of face f, applied n times. */
  function TurnN(f: FaceIndex, n: nat, s: Facelets): Facelets {
    ApplyAll(seq(n, _ => Move(f, true)), s)
  }

  /** Zero turns leave the state as it is; n turns are one turn after n - 1 turns. */
  lemma TurnNStep(f: FaceIndex, n: nat, s: Facelets)
    ensures n == 0 ==> TurnN(f, n, s) == s
    ensures n > 0 ==> TurnN(f, n, s) == Turn(f, TurnN(f, n - 1, s))
  {
    var m := Move(f, true);
    if n == 0 {
      assert seq(n, _ => m) == [];
    } else {
      assert seq(n, _ => m) == seq(n - 1, _ => m) + [m];
      ApplyAllSnoc(seq(n - 1, _ => m), m, s);
    }
  }

  /** The state whose every cell holds its own offset: all 54 values differ. */
  function Labelled(): Facelets {
    seq(54, k requires 0 <= k < 54 => k)
  }

  /** In the labelled state, every position holds its own offset. */
  lemma LabelledAt(p: Pos)
    requires p.Valid()
    ensures At(Labelled(), p) == p.Offset()
  {
  }

  /** The position whose value n turns of face f bring to p. */
  function SourceN(f: FaceIndex, n: nat, p: Pos): (q: Pos)
    requires p.Valid()
    ensures q.Valid()
    decreases n
  {
    if n == 0 then p else SourceN(f, n - 1, Source(f, p))
  }

  /** n turns read each cell from its n-fold source. */
  lemma {:induction false} TurnNAt(f: FaceIndex, n: nat, s: Facelets, p: Pos)
    requires p.Valid()
    ensures At(TurnN(f, n, s), p) == At(s, SourceN(f, n, p))
    decreases n
  {
    if n > 0 {
      var prev := TurnN(f, n - 1, s);
      TurnNStep(f, n, s);
      TurnAt(f, prev, p);
      TurnNAt(f, n - 1, s, Source(f, p));
      assert SourceN(f, n, p) == SourceN(f, n - 1, Source(f, p));
    }
  }

  /** Four more steps of the source map lead back to the same position. */
  lemma SourceNMinusFour(f: FaceIndex, n: nat, p: Pos)
    requires p.Valid() && n >= 4
    ensures SourceN(f, n, p) == SourceN(f, n - 4, p)
  {
    var p1 := Source(f, p);
    var p2 := Source(f, p1);
    var p3 := Source(f, p2);
    assert SourceN(f, n, p) == SourceN(f, n - 1, p1);
    assert SourceN(f, n - 1, p1) == SourceN(f, n - 2, p2);
    assert SourceN(f, n - 2, p2) == SourceN(f, n - 3, p3);
    assert SourceN(f, n - 3, p3) == SourceN(f, n - 4, Source(f, p3));
    SourcePeriod(f, p);
  }

  /** Whole rounds of four steps of the source map can be dropped. */
  lemma {:induction false} SourceNRounds(f: FaceIndex, q: nat, r: nat, p: Pos)
    requires p.Valid()
    ensures SourceN(f, 4 * q + r, p) == SourceN(f, r, p)
    decreases q
  {
    if q > 0 {
      SourceNMinusFour(f, 4 * q + r, p);
      assert 4 * q + r - 4 == 4 * (q - 1) + r;
      SourceNRounds(f, q - 1, r, p);
    }
  }

  /** Only n modulo four matters to the n-fold source map. */
  lemma SourceNMod4(f: FaceIndex, n: nat, p: Pos)
    requires p.Valid()
    ensures SourceN(f, n, p) == SourceN(f, n % 4, p)
  {
    assert n == 4 * (n / 4) + n % 4;
    SourceNRounds(f, n / 4, n % 4, p);
  }

  /** n turns give the same state as n modulo four turns. */
  lemma TurnNMod4(f: FaceIndex, n: nat, s: Facelets)
    ensures TurnN(f, n, s) == TurnN(f, n % 4, s)
  {
    forall p: Pos | p.Valid()
      ensures At(TurnN(f, n, s), p) == At(TurnN(f, n % 4, s), p)
    {
      TurnNAt(f, n, s, p);
      TurnNAt(f, n % 4, s, p);
      SourceNMod4(f, n, p);
    }
    FaceletsExt(TurnN(f, n, s), TurnN(f, n % 4, s));
  }

  /** On the turned face, the source map is the clockwise grid rotation. */
  lemma SourceOnFace(f: FaceIndex, p: Pos)
    requires p.Valid() && p.face == f
    ensures Source(f, p) == ClockwiseFrom(p)
  {
  }

  /** The n-fold source map for n of one, two and three. */
  lemma SourceNSmall(f: FaceIndex, p: Pos)
    requires p.Valid()
    ensures SourceN(f, 1, p) == Source(f, p)
    ensures SourceN(f, 2, p) == Source(f, Source(f, p))
    ensures SourceN(f, 3, p) == Source(f, Source(f, Source(f, p)))
  {
  }

  /** One, two or three steps of the source map move corner (0, 0) of the turned face. */
  lemma CornerSourceMoves(f: FaceIndex)
    ensures Source(f, Pos(f, 0, 0)) != Pos(f, 0, 0)
    ensures Source(f, Source(f, Pos(f, 0, 0))) != Pos(f, 0, 0)
    ensures Source(f, Source(f, Source(f, Pos(f, 0, 0)))) != Pos(f, 0, 0)
  {
    var p1 := Source(f, Pos(f, 0, 0));
    SourceOnFace(f, Pos(f, 0, 0));
    assert p1 == Pos(f, 2, 0);
    var p2 := Source(f, p1);
    SourceOnFace(f, p1);
    assert p2 == Pos(f, 2, 2);
    SourceOnFace(f, p2);
  }

  /** If n turns bring some cell's value from elsewhere, they change the labelled state. */
  lemma LabelledMoves(f: FaceIndex, r: nat, p: Pos)
    requires p.Valid() && SourceN(f, r, p) != p
    ensures TurnN(f, r, Labelled()) != Labelled()
  {
    var l := Labelled();
    var q := SourceN(f, r, p);
    TurnNAt(f, r, l, p);
    LabelledAt(p);
    LabelledAt(q);
    if q.Offset() == p.Offset() {
      OffsetInjective(q, p);
    }
  }

  /** One, two or three turns of a face change the labelled state. */
  lemma NotFixed(f: FaceIndex, r: nat)
    requires 1 <= r < 4
    ensures TurnN(f, r, Labelled()) != Labelled()
  {
    var corner := Pos(f, 0, 0);
    SourceNSmall(f, corner);
    CornerSourceMoves(f);
    LabelledMoves(f, r, corner);
  }

  /**
   * The order of a quarter turn is exactly four: n turns of the same face
   * restore every state when n is a multiple of four, and change the
   * labelled state otherwise.
   */
  lemma TurnOrderIsFour(f: FaceIndex, n: nat)
    ensures (forall s: Facelets :: TurnN(f, n, s) == s) <==> n % 4 == 0
  {
    if n % 4 == 0 {
      forall s: Facelets
        ensures TurnN(f, n, s) == s
      {
        TurnNMod4(f, n, s);
      }
    } else {
      var l := Labelled();
      TurnNMod4(f, n, l);
      NotFixed(f, n % 4);
    }
  }

  // ---------------------------------------------------------------------
  // A direct inverse

  /** The position whose old value a counter-clockwise turn of face f brings to p. */
  function InverseSource(f: FaceIndex, p: Pos): (q: Pos)
    requires p.Valid()
    ensures q.Valid()
  {
    var c := CycleOf(f);
    if p.face == f then CounterClockwiseFrom(p)
    else if c.s0.Contains(p) then c.s3.Cell(c.s0.IndexOf(p))
    else if c.s1.Contains(p) then c.s0.Cell(c.s1.IndexOf(p))
    else if c.s2.Contains(p) then c.s1.Cell(c.s2.IndexOf(p))
    else if c.s3.Contains(p) then c.s2.Cell(c.s3.IndexOf(p))
    else p
  }

  /** A single-step counter-clockwise turn: rotate the face back and run the strip cycle backwards. */
  function Unturn(f: FaceIndex, s: Facelets): Facelets {
    seq(54, k requires 0 <= k < 54 => At(s, InverseSource(f, PosAt(k))))
  }

  /** Three clockwise steps of the source map are the inverse source map. */
  lemma ThreeSourcesAreInverse(f: FaceIndex, p: Pos)
    requires p.Valid()
    ensures Source(f, Source(f, Source(f, p))) == InverseSource(f, p)
  {
    var c := CycleOf(f);
    if p.face != f && c.Moves(p) {
      var st := if c.s0.Contains(p) then c.s0 else if c.s1.Contains(p) then c.s1
                else if c.s2.Contains(p) then c.s2 else c.s3;
      var i := st.IndexOf(p);
      StripIndexRoundTrip(st, p, i);
      CycleFromCell(c, i);
    }
  }

  /** The primed turn defined as three clockwise turns equals the single-step inverse permutation. */
  lemma PrimeIsDirectInverse(f: FaceIndex, s: Facelets)
    ensures TurnPrime(f, s) == Unturn(f, s)
  {
    var s1 := Turn(f, s);
    var s2 := Turn(f, s1);
    forall p: Pos | p.Valid()
      ensures At(TurnPrime(f, s), p) == At(Unturn(f, s), p)
    {
      TurnAt(f, s2, p);
      TurnAt(f, s1, Source(f, p));
      TurnAt(f, s, Source(f, Source(f, p)));
      ThreeSourcesAreInverse(f, p);
      PosAtOffset(p);
    }
    FaceletsExt(TurnPrime(f, s), Unturn(f, s));
  }

  // ---------------------------------------------------------------------
  // Which cells a turn changes

  /**
   * A clockwise turn of face f leaves unchanged every cell that is neither
   * on face f nor on one of the four strips of f's table.
   */
  lemma TurnFrame(f: FaceIndex, s: Facelets, p: Pos)
    requires p.Valid() && p.face != f && !CycleOf(f).Moves(p)
    ensures At(Turn(f, s), p) == At(s, p)
  {
    TurnAt(f, s, p);
  }

  /**
   * The R move's strips: new Up[i][2] = old Front[i][2], new Front[i][2] =
   * old Down[i][2], new Down[i][2] = old Back[2-i][0], new Back[2-i][0] =
   * old Up[i][2].
   */
  lemma TurnRightTable(s: Facelets, i: int)
    requires 0 <= i < 3
    ensures At(Turn(Right, s), Pos(Up, i, 2)) == At(s, Pos(Front, i, 2))
    ensures At(Turn(Right, s), Pos(Front, i, 2)) == At(s, Pos(Down, i, 2))
    ensures At(Turn(Right, s), Pos(Down, i, 2)) == At(s, Pos(Back, 2 - i, 0))
    ensures At(Turn(Right, s), Pos(Back, 2 - i, 0)) == At(s, Pos(Up, i, 2))
  {
    TurnAt(Right, s, Pos(Up, i, 2));
    TurnAt(Right, s, Pos(Front, i, 2));
    TurnAt(Right, s, Pos(Down, i, 2));
    TurnAt(Right, s, Pos(Back, 2 - i, 0));
    assert Source(Right, Pos(Up, i, 2)) == Pos(Front, i, 2);
    assert Source(Right, Pos(Front, i, 2)) == Pos(Down, i, 2);
    assert Source(Right, Pos(Down, i, 2)) == Pos(Back, 2 - i, 0);
    assert Source(Right, Pos(Back, 2 - i, 0)) == Pos(Up, i, 2);
  }

  /** The R move leaves Left, and the columns of Up, Front, Down and Back off its strips, unchanged. */
  lemma TurnRightFrame(s: Facelets, p: Pos)
    requires p.Valid()
    requires p.face == Left || (p.face in {Up, Front, Down} && p.col != 2) || (p.face == Back && p.col != 0)
    ensures At(Turn(Right, s), p) == At(s, p)
  {
    TurnAt(Right, s, p);
  }

  // ---------------------------------------------------------------------
  // Colour conservation

  /** The index map of a clockwise turn of face f. */
  function TurnIndexMap(f: FaceIndex): (m: seq<int>)
    ensures |m| == 54 && IsIndexMap(m, 54)
  {
    seq(54, k requires 0 <= k < 54 => Source(f, PosAt(k)).Offset())
  }

  /** Distinct positions are fed from distinct positions. */
  lemma SourceInjective(f: FaceIndex, p: Pos, q: Pos)
    requires p.Valid() && q.Valid() && Source(f, p) == Source(f, q)
    ensures p == q
  {
    SourcePeriod(f, p);
    SourcePeriod(f, q);
  }

  /** A clockwise turn reads every cell through its index map, and that map is a permutation of the 54 cells. */
  lemma TurnIsReindex(f: FaceIndex, s: Facelets)
    ensures Distinct(TurnIndexMap(f)) && Turn(f, s) == Reindex(s, TurnIndexMap(f))
  {
    var m := TurnIndexMap(f);
    assert Distinct(m) by {
      forall i, j | 0 <= i < j < 54
        ensures m[i] != m[j]
      {
        if m[i] == m[j] {
          OffsetInjective(Source(f, PosAt(i)), Source(f, PosAt(j)));
          SourceInjective(f, PosAt(i), PosAt(j));
        }
      }
    }
    forall k | 0 <= k < 54
      ensures Turn(f, s)[k] == Reindex(s, m)[k]
    {
      TurnAt(f, s, PosAt(k));
    }
    assert Turn(f, s) == Reindex(s, m);
  }

  /** A clockwise turn only moves stickers: it keeps the multiset of colours. */
  lemma TurnPreservesColours(f: FaceIndex, s: Facelets)
    ensures multiset(Turn(f, s)) == multiset(s)
  {
    TurnIsReindex(f, s);
    ReindexPreservesMultiset(s, TurnIndexMap(f));
  }


  /** Every move, and every sequence of moves, keeps the multiset of colours. */
  lemma {:induction false} ApplyAllPreservesColours(ms: seq<Move>, s: Facelets)
    ensures multiset(ApplyAll(ms, s)) == multiset(s)
    decreases |ms|
  {
    if ms != [] {
      var m := ms[|ms| - 1];
      var t := ApplyAll(ms[..|ms| - 1], s);
      ApplyAllPreservesColours(ms[..|ms| - 1], s);
      TurnPreservesColours(m.face, t);
      if !m.clockwise {
        TurnPreservesColours(m.face, Turn(m.face, t));
        TurnPreservesColours(m.face, Turn(m.face, Turn(m.face, t)));
      }
    }
  }

  // ---------------------------------------------------------------------
  // The solved state

  /** The solved configuration is the only state isSolved accepts. */
  lemma SolvedStateIsSolvedCube(s: Facelets)
    ensures SolvedState(SolvedCube())
    ensures SolvedState(s) <==> s == SolvedCube()
  {
    forall p: Pos | p.Valid()
      ensures At(SolvedCube(), p) == SolvedColor(p.face).Code()
    {
      PosAtOffset(p);
    }
    if SolvedState(s) {
      forall k | 0 <= k < 54
        ensures s[k] == SolvedCube()[k]
      {
        assert At(s, PosAt(k)) == SolvedColor(PosAt(k).face).Code();
      }
    }
  }

  /** Nine copies of one value. */
  function Nine(v: int): seq<int> {
    seq(9, k => v)
  }

  lemma {:induction false} UniformMultiset(v: int, n: nat)
    ensures multiset(seq(n, k => v)) == multiset{}[v := n]
  {
    if n > 0 {
      UniformMultiset(v, n - 1);
      assert seq(n, k => v) == seq(n - 1, k => v) + [v];
    }
  }

  /** Face by face, the solved cube is nine cells of the face's designated colour code. */
  lemma SolvedCubeByFace()
    ensures SolvedCube() == Nine(2) + Nine(3) + Nine(0) + Nine(1) + Nine(4) + Nine(5)
  {
  }

  /** The solved cube holds exactly nine cells of each of the six colours. */
  lemma SolvedColourCounts(c: FaceColor)
    ensures multiset(SolvedCube())[c.Code()] == 9
  {
    SolvedCubeByFace();
    UniformMultiset(0, 9);
    UniformMultiset(1, 9);
    UniformMultiset(2, 9);
    UniformMultiset(3, 9);
    UniformMultiset(4, 9);
    UniformMultiset(5, 9);
    var a, b := Nine(2) + Nine(3) + Nine(0), Nine(1) + Nine(4) + Nine(5);
    assert multiset(a) == multiset(Nine(2)) + multiset(Nine(3)) + multiset(Nine(0));
    assert multiset(b) == multiset(Nine(1)) + multiset(Nine(4)) + multiset(Nine(5));
    assert SolvedCube() == a + b;
  }

  /** Any state reached from solved by moves holds exactly nine cells of each colour. */
  lemma ReachableColourCounts(ms: seq<Move>, c: FaceColor)
    ensures multiset(ApplyAll(ms, SolvedCube()))[c.Code()] == 9
  {
    ApplyAllPreservesColours(ms, SolvedCube());
    SolvedColourCounts(c);
  }

  // ---------------------------------------------------------------------
  // The token notation

  /** Exactly the twelve tokens are recognised; each names a distinct move. */
  lemma ParseMoveRecognises(t: string)
    ensures ParseMove(t).Some? <==> t in MoveTokens
    ensures ParseMove(t).Some? ==> Token(ParseMove(t).value) == t
  {
  }

  /** Every move's token is recognised as that move. */
  lemma ParseTokenRoundTrip(m: Move)
    ensures Token(m) in MoveTokens
    ensures ParseMove(Token(m)) == Some(m)
  {
    match m
    case Move(Right, true) => assert Token(m) == "R" == MoveTokens[0];
    case Move(Right, false) => assert Token(m) == "R'" == MoveTokens[1];
    case Move(Left, true) => assert Token(m) == "L" == MoveTokens[2];
    case Move(Left, false) => assert Token(m) == "L'" == MoveTokens[3];
    case Move(Up, true) => assert Token(m) == "U" == MoveTokens[4];
    case Move(Up, false) => assert Token(m) == "U'" == MoveTokens[5];
    case Move(Down, true) => assert Token(m) == "D" == MoveTokens[6];
    case Move(Down, false) => assert Token(m) == "D'" == MoveTokens[7];
    case Move(Front, true) => assert Token(m) == "F" == MoveTokens[8];
    case Move(Front, false) => assert Token(m) == "F'" == MoveTokens[9];
    case Move(Back, true) => assert Token(m) == "B" == MoveTokens[10];
    case Move(Back, false) => assert Token(m) == "B'" == MoveTokens[11];
  }

  /** The j-th token is recognised as the j-th move, and that move is written as the token. */
  lemma MoveOfIndexNamesToken(j: int)
    requires 0 <= j < |MoveTokens|
    ensures ParseMove(MoveTokens[j]) == Some(MoveOfIndex(j))
    ensures Token(MoveOfIndex(j)) == MoveTokens[j]
  {
    var m := MoveOfIndex(j);
    ParseTokenRoundTrip(m);
    if j < 6 {
      if j < 2 { assert m.face == Right; } else if j < 4 { assert m.face == Left; } else { assert m.face == Up; }
    } else {
      if j < 8 { assert m.face == Down; } else if j < 10 { assert m.face == Front; } else { assert m.face == Back; }
    }
  }

  /** The scramble list holds twelve distinct tokens. */
  lemma MoveTokensDistinct()
    ensures |MoveTokens| == 12
    ensures forall i, j :: 0 <= i < j < 12 ==> MoveTokens[i] != MoveTokens[j]
  {
  }
}
