# Rubik's cube engine and move animation, modelled in Dafny

This project models the core of a 3x3x3 Rubik's cube program in two parts.

**The cube engine** (`rubik_cube.h`, `rubik_cube.cpp`). The state is six
3x3 grids of integer colour codes, indexed by face (Right, Left, Up, Down,
Front, Back = 0..5). The `RubikCube` class changes it in place:

- `rotateFaceClockwise` and `rotateFaceCounterClockwise` rotate one face's
  own grid through a temporary grid.
- The six clockwise moves R, L, U, D, F and B each rotate their face. They
  then cycle four 3-cell edge strips on the neighbouring faces through a
  `temp[3]` buffer, using five copy loops.
- The six primed moves are three clockwise moves each.
- `applyMove` dispatches on a string token and reports whether it knew the
  token.
- `scramble` applies moves drawn from the twelve tokens.
- `reset` and `isSolved` are nested loops over the grid. `getColor` reads one
  cell.

In Dafny, the class `Rubik.RubikCube` keeps the grid in an `array3<int>`.
Every method is proved against a value-level specification in `CubeSpec`:
the new contents, flattened to a 54-value sequence `Cells()`, are a
function of the old contents. That specification describes a clockwise turn
by a *source map*: the value a turn writes at position p is the old value at
`Source(f, p)`. Each face's strip table is written out exactly as the
source's copy loops visit the cells, reversed strips included. On top of
this, `MoveLaws` proves the following:

- every turn is a permutation that keeps the number of cells of each colour;
- every turn has order exactly four, and four primed turns also restore
  the state;
- a primed turn undoes its clockwise turn, and equals the direct one-step
  inverse permutation;
- a turn touches only its own face and its four strips;
- the solved state is the only state `isSolved` accepts, and it holds nine
  cells of each colour;
- the token notation is read back exactly.

`BlockOrder` checks the R and U strip tables as a whole: the block R R U U
has order exactly six, so six repetitions of the eight moves
R R U U R R U U (48 moves) take the solved cube back to solved.

**The animation coordinator** (`main.cpp`, with the `AnimationState` record
of `renderer.h`). A key press starts an animated quarter-turn sweep of one
face, unless a sweep is already running. Each frame advances the angle by
300 degrees per second. When the angle reaches or passes the target of +90
or -90 degrees, it is clamped to the target, the sweep stops and exactly one
cube move is committed. Some keys do not start a sweep: S scrambles, Space
resets and I toggles the instructions. While a sweep runs, every key is
ignored.

- `Animation` gives this machine as pure functions (`Start`, `Tick`, `Run`)
  and proves its busy/commit protocol.
- `Game.RubikGame` is a class over the animation record, the
  instructions flag and a `RubikCube`. Its methods are proved against those
  functions and against `KeyPress`.

Angles and frame times are exact reals. The random draws of a scramble are a
parameter `picks`: the sequence of token indices the generator would
produce.

## Model

| member | source | states |
|---|---|---|
| CubeTypes.ColorOfCode | rubik_cube.h:11-18 | exactly the integers 0..5 name a colour, and decoding a code gives the colour with that code |
| CubeTypes.ColorCodeRoundTrip | rubik_cube.h:11-18 | every colour's code decodes back to it, and distinct colours have distinct codes |
| CubeTypes.FaceOf | rubik_cube.h:21-28 | each integer 0..5 is the index of a face |
| CubeTypes.FaceIndexRoundTrip | rubik_cube.h:21-28 | the six faces have six distinct indices, and each index names its face back |
| CubeTypes.SolvedColorsBijective | rubik_cube.cpp:13-14 | the designated colours of the six faces are pairwise distinct and use all six colours |
| CubeSpec.PosAt | rubik_cube.h:33-34 | every offset 0..53 of the flat state names one (face, row, col) cell of the 6x3x3 grid |
| CubeSpec.OffsetInjective | rubik_cube.h:33-34 | distinct grid cells occupy distinct offsets of the flat state |
| CubeSpec.RotateFaceClockwise | rubik_cube.cpp:36-44 | definition of the clockwise face rotation; laws in CubeSpec.RotateFaceMoves and CubeSpec.RotateFaceRoundTrip |
| CubeSpec.RotateFaceCounterClockwise | rubik_cube.cpp:47-55 | definition of the counter-clockwise face rotation; laws in CubeSpec.RotateFaceMoves and CubeSpec.RotateFaceRoundTrip |
| CubeSpec.RotateFaceMoves | rubik_cube.cpp:36-55 | the clockwise face rotation sends cell (i, j) to (j, 2 - i); the counter-clockwise one sends it to (2 - j, i); neither touches another face |
| CubeSpec.RotateFaceRoundTrip | rubik_cube.cpp:36-55 | rotating a face one way and then the other restores every cell, in both orders |
| CubeSpec.CycleOf | rubik_cube.cpp:58-193 | each move's four edge strips lie on four distinct faces, none of them the turned face |
| CubeSpec.Turn | rubik_cube.cpp:58-193 | definition: rotate the face, then cycle the move's four strips; laws in CubeSpec.TurnAt, MoveLaws.TurnOrderIsFour and MoveLaws.TurnIsReindex |
| CubeSpec.TurnPrime | rubik_cube.cpp:196-223 | definition: three clockwise turns; laws in MoveLaws.TurnThenPrime, MoveLaws.PrimeFourTimes and MoveLaws.PrimeIsDirectInverse |
| CubeSpec.Apply | rubik_cube.cpp:226-265 | definition: a move is its face's clockwise or primed turn; laws in CubeSpec.ApplyAllSnoc and MoveLaws.ApplyAllPreservesColours |
| CubeSpec.TurnAt | rubik_cube.cpp:58-193 | after a clockwise turn of face f, every position p holds the old value at Source(f, p): the rotated face cell, or the cell the strip table feeds to p |
| CubeSpec.CyclePeriod | rubik_cube.cpp:58-193 | four steps of any strip cycle bring every position back to itself |
| CubeSpec.SourcePeriod | rubik_cube.cpp:58-193 | four steps of a turn's source map bring every position back to itself |
| CubeSpec.ApplyAllSnoc | rubik_cube.cpp:273-275 | one more move at the end of a run of moves is applied after the whole run |
| CubeSpec.ApplyAllAppend | rubik_cube.cpp:273-275 | two runs of moves one after the other have the effect of the concatenated run |
| CubeSpec.SolvedCube | rubik_cube.cpp:10-33 | definition: every cell holds its face's designated colour; laws in MoveLaws.SolvedCubeByFace, MoveLaws.SolvedColourCounts and Rubik.RubikCube.Reset |
| CubeSpec.SolvedState | rubik_cube.cpp:279-292 | definition of the isSolved test; law in MoveLaws.SolvedStateIsSolvedCube |
| Notation.ParseMove | rubik_cube.cpp:226-265 | definition of the token dispatch of applyMove; laws in MoveLaws.ParseMoveRecognises and MoveLaws.ParseTokenRoundTrip |
| Notation.MoveTokens | rubik_cube.cpp:269 | definition of the twelve scramble tokens; laws in MoveLaws.MoveTokensDistinct and MoveLaws.MoveOfIndexNamesToken |
| Notation.MoveOfIndex | rubik_cube.cpp:269 | definition: token j names face j / 2, clockwise when j is even; law in MoveLaws.MoveOfIndexNamesToken |
| StripCopies.StripValues | rubik_cube.cpp:62-65 | definition of the temp buffer's contents; laws in Rubik.RubikCube.ReadStrip and StripCopies.FiveLoopsCycle |
| StripCopies.CopiedStripAt | rubik_cube.cpp:66-74 | a copy loop writes cell i of the destination strip from cell i of the source strip, and leaves every other cell alone |
| StripCopies.WrittenStripAt | rubik_cube.cpp:75-77 | the last loop writes temp[i] into cell i of the strip, and leaves every other cell alone |
| StripCopies.FiveLoopsCycle | rubik_cube.cpp:61-77 | the five sequential copy loops through the temp buffer are exactly the simultaneous 4-cycle of the strips |
| MoveLaws.TurnFourTimes | rubik_cube.cpp:58-193 | four clockwise turns of the same face give back any state |
| MoveLaws.TurnThenPrime | rubik_cube.cpp:196-223 | a turn followed by its primed turn, and the primed turn followed by the turn, give back any state |
| MoveLaws.PrimeFourTimes | rubik_cube.cpp:196-223 | four primed turns of a face restore every state, as four clockwise turns do |
| MoveLaws.TurnNStep | rubik_cube.cpp:58-193 | zero turns keep the state, and n turns are one turn after n - 1 turns |
| MoveLaws.TurnNAt | rubik_cube.cpp:58-193 | n turns of face f read every position from its n-fold source position |
| MoveLaws.SourceNMinusFour | rubik_cube.cpp:58-193 | four more steps of the source map lead back to the same position |
| MoveLaws.SourceNRounds | rubik_cube.cpp:58-193 | whole rounds of four source steps can be dropped |
| MoveLaws.SourceNMod4 | rubik_cube.cpp:58-193 | only the number of source steps modulo four matters |
| MoveLaws.TurnNMod4 | rubik_cube.cpp:58-193 | n turns of a face give the same state as n modulo four turns |
| MoveLaws.SourceNSmall | rubik_cube.cpp:58-193 | one, two and three source steps are one, two and three applications of the source map |
| MoveLaws.CornerSourceMoves | rubik_cube.cpp:36-44 | one, two or three rotations of a face move its corner (0, 0) |
| MoveLaws.LabelledMoves | rubik_cube.cpp:58-193 | if n turns bring some cell's value from elsewhere, they change a state whose cells all differ |
| MoveLaws.NotFixed | rubik_cube.cpp:58-193 | one, two or three turns of a face change some state |
| MoveLaws.TurnOrderIsFour | rubik_cube.cpp:58-193 | n turns of a face leave every state unchanged if and only if n is a multiple of four |
| MoveLaws.ThreeSourcesAreInverse | rubik_cube.cpp:196-223 | three steps of the clockwise source map are the counter-clockwise source map |
| MoveLaws.PrimeIsDirectInverse | rubik_cube.cpp:196-223 | the primed turn, defined as three clockwise turns, equals the single-step inverse permutation |
| MoveLaws.TurnFrame | rubik_cube.cpp:58-193 | a turn leaves every cell that is neither on the turned face nor on one of its four strips unchanged |
| MoveLaws.TurnRightTable | rubik_cube.cpp:58-78 | after R: new Up[i][2] = old Front[i][2], new Front[i][2] = old Down[i][2], new Down[i][2] = old Back[2-i][0], new Back[2-i][0] = old Up[i][2] |
| MoveLaws.TurnRightFrame | rubik_cube.cpp:58-78 | R leaves the Left face unchanged, and so every column of Up, Front, Down and Back outside its strips |
| MoveLaws.TurnIndexMap | rubik_cube.cpp:58-193 | the index map of a clockwise turn has 54 entries, each an offset within 0..53 |
| MoveLaws.SourceInjective | rubik_cube.cpp:58-193 | distinct positions are fed from distinct positions |
| MoveLaws.TurnIsReindex | rubik_cube.cpp:58-193 | a clockwise turn is the state read through its index map, and that map sends distinct cells to distinct cells, so it is a permutation of the 54 cells |
| MoveLaws.TurnPreservesColours | rubik_cube.cpp:58-193 | a clockwise turn keeps the multiset of the 54 colour values |
| MoveLaws.ApplyAllPreservesColours | rubik_cube.cpp:58-223 | every sequence of clockwise and primed moves keeps the multiset of colour values |
| MoveLaws.SolvedStateIsSolvedCube | rubik_cube.cpp:279-292 | the solved configuration passes the isSolved test, and it is the only state that does |
| MoveLaws.SolvedCubeByFace | rubik_cube.cpp:14-20 | face by face, the solved cube is nine cells of Red, Orange, White, Yellow, Green, Blue |
| MoveLaws.SolvedColourCounts | rubik_cube.cpp:14-20 | the solved cube holds exactly nine cells of each colour |
| MoveLaws.ReachableColourCounts | rubik_cube.cpp:268-276 | every state reached from solved by moves holds exactly nine cells of each colour |
| MoveLaws.ParseMoveRecognises | rubik_cube.cpp:226-265 | a token is recognised if and only if it is one of the twelve move tokens, and the recognised move is written as that token |
| MoveLaws.ParseTokenRoundTrip | rubik_cube.cpp:226-265 | every move's token is one of the twelve and is recognised as that move |
| MoveLaws.MoveOfIndexNamesToken | rubik_cube.cpp:269-274 | the j-th token of the scramble list is recognised as the j-th move, and that move is written as the token |
| MoveLaws.MoveTokensDistinct | rubik_cube.cpp:269 | the scramble list holds twelve distinct tokens |
| BlockOrder.RightSourceForm | rubik_cube.cpp:58-78 | under R each Right cell reads its rotated face cell; column 2 of Up reads Front, of Front reads Down, of Down reads Back column 0 reversed, and Back column 0 reads Up column 2 reversed; all else stays |
| BlockOrder.UpSourceForm | rubik_cube.cpp:104-124 | under U each Up cell reads its rotated face cell; row 0 of Front reads Right, of Right reads Back, of Back reads Left, of Left reads Front; all else stays |
| BlockOrder.BlockAt | rubik_cube.cpp:58-124 | after the block R R U U, every position holds the old value at its block map position |
| BlockOrder.BlockMapReads | rubik_cube.cpp:58-124 | the block map keeps positions on the cube, and the block reads every position from it |
| BlockOrder.RepeatIsPower | rubik_cube.cpp:273-275 | n copies of the block applied as one run of moves are the block applied n times |
| BlockOrder.BlockSix | rubik_cube.cpp:58-124 | six blocks bring every position back to itself |
| BlockOrder.BlockMoves | rubik_cube.cpp:58-124 | one to five blocks move some position |
| BlockOrder.BlockOrderIsSix | rubik_cube.cpp:58-124 | n blocks R R U U leave every state unchanged if and only if n is a multiple of six |
| BlockOrder.FortyEightMovesSolve | rubik_cube.cpp:279-292 | six repetitions of R R U U R R U U (48 moves) take the solved cube back to the solved cube, which passes the isSolved test |
| Rubik.DrawnMoves | rubik_cube.cpp:273-275 | scramble makes one move per iteration: n moves for n >= 0, none otherwise |
| Rubik.DrawnMovesTokens | rubik_cube.cpp:273-275 | the i-th scramble move is the move the i-th drawn token names |
| Rubik.Scrambled | rubik_cube.cpp:273-275 | zero (or a negative number of) scramble iterations leave the state unchanged |
| Rubik.ScrambleStep | rubik_cube.cpp:273-275 | one more iteration applies the move the next drawn token names; the token is always recognised |
| Rubik.RubikCube.CellsAt | rubik_cube.cpp:300-302 | the flat state exposed to readers holds each grid cell at its position |
| Rubik.RubikCube.SolvedWhenUniform | rubik_cube.cpp:14-20 | a grid holding every face's designated colour is the solved state |
| Rubik.RubikCube.constructor | rubik_cube.cpp:10-21 | a new cube is the solved state |
| Rubik.RubikCube.Reset | rubik_cube.cpp:24-33 | after reset the cube is the solved state, whatever it held before |
| Rubik.RubikCube.RotateFaceClockwise | rubik_cube.cpp:36-44 | the new cells are the old ones with the given face's grid rotated clockwise |
| Rubik.RubikCube.RotateFaceCounterClockwise | rubik_cube.cpp:47-55 | the new cells are the old ones with the given face's grid rotated counter-clockwise |
| Rubik.RubikCube.TurnedGrid | rubik_cube.cpp:37-42 | the temporary grid holds cell (i, j) at (j, 2 - i) when clockwise and at (2 - j, i) otherwise |
| Rubik.RubikCube.StoredFace | rubik_cube.cpp:43 | storing the rotated temporary over the face yields the rotated state |
| Rubik.RubikCube.StoreFace | rubik_cube.cpp:43 | the face becomes a copy of the temporary, and the other faces keep their cells |
| Rubik.RubikCube.ReadStrip | rubik_cube.cpp:62-65 | the temp buffer receives the three values of the strip, in loop order |
| Rubik.RubikCube.CopyStrip | rubik_cube.cpp:66-74 | one copy loop: the destination strip takes the source strip's values index by index, and nothing else changes |
| Rubik.RubikCube.CopyLoop | rubik_cube.cpp:66-68 | the copy loop, stated cell by cell on the grid |
| Rubik.RubikCube.CopiedCells | rubik_cube.cpp:66-74 | a grid holding what a copy loop prescribes, cell by cell, is that state |
| Rubik.RubikCube.WriteStrip | rubik_cube.cpp:75-77 | the last loop: the strip takes the temp buffer's values, and nothing else changes |
| Rubik.RubikCube.WriteLoop | rubik_cube.cpp:75-77 | the writing loop, stated cell by cell on the grid |
| Rubik.RubikCube.WrittenCells | rubik_cube.cpp:75-77 | a grid holding what the writing loop prescribes, cell by cell, is that state |
| Rubik.RubikCube.CycleEdges | rubik_cube.cpp:61-77 | the five loops of a move cycle the four strips of its table |
| Rubik.RubikCube.RotateR | rubik_cube.cpp:58-78 | the new cells are the clockwise turn of Right applied to the old cells |
| Rubik.RubikCube.RotateL | rubik_cube.cpp:81-101 | the new cells are the clockwise turn of Left applied to the old cells |
| Rubik.RubikCube.RotateU | rubik_cube.cpp:104-124 | the new cells are the clockwise turn of Up applied to the old cells |
| Rubik.RubikCube.RotateD | rubik_cube.cpp:127-147 | the new cells are the clockwise turn of Down applied to the old cells |
| Rubik.RubikCube.RotateF | rubik_cube.cpp:150-170 | the new cells are the clockwise turn of Front applied to the old cells |
| Rubik.RubikCube.RotateB | rubik_cube.cpp:173-193 | the new cells are the clockwise turn of Back applied to the old cells |
| Rubik.RubikCube.RotateRPrime | rubik_cube.cpp:196-198 | the new cells are three clockwise turns of Right applied to the old cells |
| Rubik.RubikCube.RotateLPrime | rubik_cube.cpp:201-203 | the new cells are three clockwise turns of Left applied to the old cells |
| Rubik.RubikCube.RotateUPrime | rubik_cube.cpp:206-208 | the new cells are three clockwise turns of Up applied to the old cells |
| Rubik.RubikCube.RotateDPrime | rubik_cube.cpp:211-213 | the new cells are three clockwise turns of Down applied to the old cells |
| Rubik.RubikCube.RotateFPrime | rubik_cube.cpp:216-218 | the new cells are three clockwise turns of Front applied to the old cells |
| Rubik.RubikCube.RotateBPrime | rubik_cube.cpp:221-223 | the new cells are three clockwise turns of Back applied to the old cells |
| Rubik.RubikCube.ApplyMove | rubik_cube.cpp:226-265 | reports true exactly for the twelve tokens and then applies the named move; any other string reports false and changes nothing |
| Rubik.RubikCube.ScrambleIteration | rubik_cube.cpp:274 | one loop iteration extends the scrambled state by the next drawn move |
| Rubik.RubikCube.Scramble | rubik_cube.cpp:268-276 | the new cells are the old ones with the numMoves drawn moves applied in order (none when numMoves <= 0) |
| Rubik.RubikCube.IsSolved | rubik_cube.cpp:279-292 | returns true if and only if every cell holds its face's designated colour |
| Rubik.RubikCube.GetColor | rubik_cube.cpp:295-297 | returns the colour code at (face, row, col) and changes nothing |
| Animation.Target | main.cpp:116 | the target is +90 for a clockwise sweep and -90 for a counter-clockwise one |
| Animation.Start | main.cpp:110-119 | ignored while a sweep runs; otherwise a sweep of the given face and direction from angle 0 toward its target |
| Animation.Tick | main.cpp:87-108 | a tick commits exactly when it ends a running sweep, and then the angle is the target; face, direction and target are kept; an idle record is unchanged |
| Animation.StartKeepsInv | main.cpp:110-119 | the default record and every started sweep satisfy the sweep invariant, and a new sweep has made no progress |
| Animation.TickAdvances | main.cpp:87-108 | a tick of a running sweep finishes it exactly when the angle step reaches the quarter turn; otherwise the sweep advances by exactly the step |
| Animation.Run | main.cpp:87-108 | a run of frames keeps the animated face and direction |
| Animation.RunCommitsOnce | main.cpp:87-108 | an idle record commits nothing; a running sweep commits at most once, exactly when the frames cover the rest of the quarter turn, and then ends idle at the target |
| Game.Committed | main.cpp:121-147 | definition of the cube move a finished sweep commits; laws in Game.RubikGame.ApplyRotationToCube and Game.SweepCommitsStartedMove |
| Game.RunCube | main.cpp:259-286 | definition: the cube after the main loop's frames; laws in Game.SweepCommitsStartedMove and Game.KeySweepTurnsFace |
| Game.KeyFace | main.cpp:158-176 | exactly the keys Q, W, E, R, T, Y start a face sweep |
| Game.KeyFacesBijective | main.cpp:158-176 | the six move keys name the six faces, one face each |
| Game.SweepCommitsStartedMove | main.cpp:87-147 | over a run of frames, the cube receives the started move exactly when the sweep commits, and is untouched otherwise |
| Game.KeySweepTurnsFace | main.cpp:152-176 | from idle, a move key followed by frames totalling 0.3 seconds or more turns the key's face once, in the direction shift selects |
| Game.KeyPress | main.cpp:152-192 | while a sweep runs, every key leaves the game state unchanged |
| Game.MoveKeyStartsSweep | main.cpp:158-176 | from idle, a move key starts its face's sweep from angle 0 toward the signed target, and leaves the cube and the instructions alone |
| Game.CommandKeys | main.cpp:177-191 | from idle, S applies the default 25 drawn moves, Space solves the cube, I toggles the instructions, and any other key does nothing |
| Game.KeyPressKeepsInv | main.cpp:152-192 | key presses keep the sweep invariant |
| Game.RubikGame.constructor | main.cpp:78-84 | a new game shows the instructions, is idle with the default animation record, and holds a solved cube scrambled by 25 drawn moves |
| Game.RubikGame.StartAnimation | main.cpp:110-119 | the animation record becomes Start of the old record; the instructions flag is kept |
| Game.RubikGame.ApplyRotationToCube | main.cpp:121-149 | the cube takes the animated face's clockwise or primed turn, or is untouched for a face number outside 0..5 |
| Game.RubikGame.UpdateAnimation | main.cpp:87-108 | the record becomes Tick of the old record; the cube takes the committed move exactly when the tick commits |
| Game.RubikGame.HandleKeyPress | main.cpp:152-192 | the game state after the key is KeyPress of the state before |

## Left out

- The renderer (all of `renderer.cpp` and the `Renderer` class) is not modelled: OpenGL drawing, camera control and the starfield only read the cube.
- The SFML glue of `main.cpp` is not modelled: the window and event loop, font loading, `setupUI`, `updateUI` and the status text, and mouse handling. The constructor's `loadFont`, `setupUI` and `renderer.initialize` calls are left out for the same reason.
- The shift key state read from the keyboard is a parameter `shift` of the key handler.
- `Rubik.RubikCube.Scramble`: the `std::mt19937` generator seeded from the clock is replaced by the parameter `picks`, the indices the generator would draw. Its precondition `numMoves <= |picks|` stands for a generator that never runs dry, and the uniform distribution of the draws is not modelled.
- `Game.RubikGame.HandleKeyPress`: the S key needs 25 drawn indices, for the same reason.
- `Animation.Tick`: angles, the speed constant and frame times are exact reals, so single-precision rounding of `currentAngle` is not modelled. Frame times are taken as non-negative in the lemmas about runs.
- The `animationClock.restart()` call of `startAnimation` (main.cpp:118) is left out. `animationClock` (main.cpp:25) is restarted but never read, so dropping the call loses nothing. Frame times come from `frameClock` in the main loop (main.cpp:260) and are a parameter here.
- `rotateRow`, `rotateColumn` and `rotateDepth` are declared in `rubik_cube.h` but never defined, so there is nothing to model.
- `applyMove` tests each prime token twice in the same condition (`move == "R'" || move == "R'"`). The model tests it once, which has the same effect.
- `Rubik.RubikCube.GetColor` requires in-range indices. The source does not check them, and an out-of-range read there is undefined behaviour.
- `getFaces` returns the grid by reference for rendering. It is modelled as the read-only view `Cells()`.
- The `faces[face] = temp` vector assignment is modelled as a cell-by-cell copy of the temporary grid.
