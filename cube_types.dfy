/**
 * The enumerations and fixed dimensions declared in rubik_cube.h: the six
 * facelet colours, the six face indices, the shape of the state and the
 * default scramble length.
 */
module CubeTypes {
  import opened Wrappers

  /** Facelet colours; `Code` is the integer value of the enumerator. */
  datatype FaceColor = White | Yellow | Red | Orange | Green | Blue
  {
    function Code(): (n: int)
      ensures 0 <= n < 6
    {
      match this
      case White => 0
      case Yellow => 1
      case Red => 2
      case Orange => 3
      case Green => 4
      case Blue => 5
    }
  }

  /** The colour whose enumerator value is `n`, if there is one. */
  function ColorOfCode(n: int): (c: Option<FaceColor>)
    ensures c.Some? <==> 0 <= n < 6
    ensures c.Some? ==> c.value.Code() == n
  {
    if n == 0 then Some(White)
    else if n == 1 then Some(Yellow)
    else if n == 2 then Some(Red)
    else if n == 3 then Some(Orange)
    else if n == 4 then Some(Green)
    else if n == 5 then Some(Blue)
    else None
  }

  /** Every colour has its own code and decoding gives it back. */
  lemma ColorCodeRoundTrip(c: FaceColor, d: FaceColor)
    ensures ColorOfCode(c.Code()) == Some(c)
    ensures c.Code() == d.Code() ==> c == d
  {
  }

  /** Face indices; `Index` is the integer value of the enumerator. */
  datatype FaceIndex = Right | Left | Up | Down | Front | Back
  {
    function Index(): (n: int)
      ensures 0 <= n < 6
    {
      match this
      case Right => 0
      case Left => 1
      case Up => 2
      case Down => 3
      case Front => 4
      case Back => 5
    }
  }

  /** The face whose enumerator value is `n`. */
  function FaceOf(n: int): (f: FaceIndex)
    requires 0 <= n < 6
    ensures f.Index() == n
  {
    if n == 0 then Right
    else if n == 1 then Left
    else if n == 2 then Up
    else if n == 3 then Down
    else if n == 4 then Front
    else Back
  }

  /** The face indices are exactly 0..5, one face each. */
  lemma FaceIndexRoundTrip(f: FaceIndex, g: FaceIndex)
    ensures FaceOf(f.Index()) == f
    ensures f.Index() == g.Index() ==> f == g
  {
  }

  /** Number of faces, rows/columns per face, and cells in the whole state. */
  const FaceCount: int := 6
  const GridSize: int := 3
  const CellCount: int := FaceCount * GridSize * GridSize

  /** Number of moves `scramble` makes when called without an argument. */
  const DefaultScrambleMoves: int := 25

  /** The colour each face shows on a solved cube, indexed by face index. */
  const FaceColors: seq<FaceColor> := [Red, Orange, White, Yellow, Green, Blue]

  function SolvedColor(f: FaceIndex): (c: FaceColor)
    ensures c == FaceColors[f.Index()]
  {
    FaceColors[f.Index()]
  }

  /** Distinct faces are solved in distinct colours, and every colour is used. */
  lemma SolvedColorsBijective(f: FaceIndex, g: FaceIndex, c: FaceColor)
    ensures SolvedColor(f) == SolvedColor(g) ==> f == g
    ensures exists h: FaceIndex :: SolvedColor(h) == c
  {
    match c
    case Red => assert SolvedColor(Right) == c;
    case Orange => assert SolvedColor(Left) == c;
    case White => assert SolvedColor(Up) == c;
    case Yellow => assert SolvedColor(Down) == c;
    case Green => assert SolvedColor(Front) == c;
    case Blue => assert SolvedColor(Back) == c;
  }

  /** A quarter turn of one face, clockwise or counter-clockwise (primed). */
  datatype Move = Move(face: FaceIndex, clockwise: bool)
}
