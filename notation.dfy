/**
 * The move-token notation of applyMove and scramble: a face letter,
 * optionally followed by a prime for the counter-clockwise turn.
 */
module Notation {
  import opened Wrappers
  import opened CubeTypes

  /** The twelve tokens, in the order scramble draws from them. */
  const MoveTokens: seq<string> := ["R", "R'", "L", "L'", "U", "U'", "D", "D'", "F", "F'", "B", "B'"]

  /**
   * The move the j-th token names: the tokens come in pairs, one pair per
   * face in face-index order, the clockwise turn first.
   */
  function MoveOfIndex(j: int): Move
    requires 0 <= j < 12
  {
    Move(FaceOf(j / 2), j % 2 == 0)
  }

  /** applyMove's recognition of a token: a face letter, optionally followed by a prime. */
  function ParseMove(t: string): Option<Move> {
    if t == "R" then Some(Move(Right, true))
    else if t == "R'" then Some(Move(Right, false))
    else if t == "L" then Some(Move(Left, true))
    else if t == "L'" then Some(Move(Left, false))
    else if t == "U" then Some(Move(Up, true))
    else if t == "U'" then Some(Move(Up, false))
    else if t == "D" then Some(Move(Down, true))
    else if t == "D'" then Some(Move(Down, false))
    else if t == "F" then Some(Move(Front, true))
    else if t == "F'" then Some(Move(Front, false))
    else if t == "B" then Some(Move(Back, true))
    else if t == "B'" then Some(Move(Back, false))
    else None
  }

  /** The face letter of the notation. */
  function Letter(f: FaceIndex): char {
    match f
    case Right => 'R'
    case Left => 'L'
    case Up => 'U'
    case Down => 'D'
    case Front => 'F'
    case Back => 'B'
  }

  /** The token that names a move. */
  function Token(m: Move): string {
    [Letter(m.face)] + if m.clockwise then "" else "'"
  }
}
