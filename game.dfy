/**
 * The game object's move coordination: keys start an animated face sweep,
 * frame ticks advance it, and the finished sweep commits one cube move. While
 * a sweep runs, every key is ignored. The window, the renderer, fonts, the UI
 * text and the mouse are not modelled; the shift key is a parameter and the
 * random draws of a scramble are the `picks` parameter.
 */
module Game {
  import opened Wrappers
  import opened CubeTypes
  import opened CubeSpec
  import opened Notation
  import opened Animation
  import opened Rubik

  /** The keys the game reacts to; every other key does nothing. */
  datatype Key = Q | W | E | R | T | Y | S | Space | I | OtherKey

  /** The face whose sweep a key starts. */
  function KeyFace(k: Key): (f: Option<FaceIndex>)
    ensures f.Some? <==> k in {Q, W, E, R, T, Y}
  {
    match k
    case Q => Some(Right)
    case W => Some(Left)
    case E => Some(Up)
    case R => Some(Down)
    case T => Some(Front)
    case Y => Some(Back)
    case _ => None
  }

  /** The six move keys name the six faces, one face each. */
  lemma KeyFacesBijective(f: FaceIndex, k: Key, k': Key)
    ensures exists key :: KeyFace(key) == Some(f)
    ensures KeyFace(k).Some? && KeyFace(k) == KeyFace(k') ==> k == k'
  {
    match f
    case Right => assert KeyFace(Q) == Some(f);
    case Left => assert KeyFace(W) == Some(f);
    case Up => assert KeyFace(E) == Some(f);
    case Down => assert KeyFace(R) == Some(f);
    case Front => assert KeyFace(T) == Some(f);
    case Back => assert KeyFace(Y) == Some(f);
  }

  /** The cube move applyRotationToCube makes for a face number; numbers outside the enumeration make none. */
  function Committed(face: int, clockwise: bool, s: Facelets): Facelets {
    if 0 <= face < 6 then Apply(Move(FaceOf(face), clockwise), s) else s
  }

  /** The cube after a run of frames: each tick that finishes the sweep commits its move. */
  function RunCube(a: AnimationState, dts: seq<real>, s: Facelets): Facelets
    decreases |dts|
  {
    if dts == [] then s
    else
      var t := Tick(a, dts[0]);
      RunCube(t.next, dts[1..], if t.commit then Committed(a.face, a.clockwise, s) else s)
  }

  /**
   * A key press followed by frames: starting from idle, the cube ends up turned
   * by exactly the started move once the frames cover the quarter turn
   * (90 degrees at 300 degrees per second), and untouched before that.
   */
  lemma {:induction false} SweepCommitsStartedMove(a: AnimationState, dts: seq<real>, s: Facelets)
    requires Inv(a) && NonNegative(dts)
    ensures RunCube(a, dts, s) == if Run(a, dts).commits == 1 then Committed(a.face, a.clockwise, s) else s
    decreases |dts|
  {
    RunCommitsOnce(a, dts);
    if dts != [] {
      var t := Tick(a, dts[0]);
      assert NonNegative(dts[1..]) by {
        forall i | 0 <= i < |dts[1..]|
          ensures dts[1..][i] >= 0.0
        {
          assert dts[1..][i] == dts[i + 1];
        }
      }
      if a.isAnimating {
        TickAdvances(a, dts[0]);
      }
      RunCommitsOnce(t.next, dts[1..]);
      SweepCommitsStartedMove(t.next, dts[1..], if t.commit then Committed(a.face, a.clockwise, s) else s);
    }
  }

  /** From idle, a move key followed by frames totalling at least 0.3 seconds turns the key's face once. */
  lemma KeySweepTurnsFace(a: AnimationState, k: Key, shift: bool, dts: seq<real>, s: Facelets)
    requires !a.isAnimating && KeyFace(k).Some? && NonNegative(dts)
    ensures var b := Start(a, KeyFace(k).value.Index(), !shift);
      RunCube(b, dts, s)
      == if AnimationSpeed * Sum(dts) >= 90.0 then Apply(Move(KeyFace(k).value, !shift), s) else s
  {
    var f := KeyFace(k).value;
    var b := Start(a, f.Index(), !shift);
    StartKeepsInv(a, f.Index(), !shift);
    RunCommitsOnce(b, dts);
    SweepCommitsStartedMove(b, dts, s);
    FaceIndexRoundTrip(f, f);
  }

  /** What a scramble key needs: enough drawn indices, each naming one of the move tokens. */
  predicate ScrambleReady(key: Key, picks: seq<int>) {
    key == S ==> DefaultScrambleMoves <= |picks| && forall i :: 0 <= i < |picks| ==> 0 <= picks[i] < |MoveTokens|
  }

  /** The animation record, the instructions flag and the cube's cells. */
  datatype GameView = GameView(animation: AnimationState, showInstructions: bool, cells: Facelets)

  /** The effect of one key press on the game state. */
  function KeyPress(g: GameView, key: Key, shift: bool, picks: seq<int>): (h: GameView)
    requires ScrambleReady(key, picks)
    ensures g.animation.isAnimating ==> h == g
  {
    if g.animation.isAnimating then g
    else
      match key
      case S => g.(cells := Scrambled(picks, DefaultScrambleMoves, g.cells))
      case Space => g.(cells := SolvedCube(), animation := g.animation.(isAnimating := false))
      case I => g.(showInstructions := !g.showInstructions)
      case OtherKey => g
      case _ => g.(animation := Start(g.animation, KeyFace(key).value.Index(), !shift))
  }

  /**
   * From an idle state a move key starts a sweep of its face in the direction
   * shift selects (shift for counter-clockwise) and leaves the cube and the
   * instructions alone.
   */
  lemma MoveKeyStartsSweep(g: GameView, key: Key, shift: bool, picks: seq<int>)
    requires ScrambleReady(key, picks) && !g.animation.isAnimating && KeyFace(key).Some?
    ensures var h := KeyPress(g, key, shift, picks);
      && h.cells == g.cells && h.showInstructions == g.showInstructions
      && h.animation.isAnimating && h.animation.face == KeyFace(key).value.Index()
      && h.animation.clockwise == !shift && h.animation.currentAngle == 0.0
      && h.animation.targetAngle == Target(!shift)
  {
  }

  /**
   * From an idle state Space solves the cube and leaves the (already idle)
   * animation as it was; S applies the default number of drawn moves; I
   * toggles the instructions; any other key does nothing.
   */
  lemma CommandKeys(g: GameView, key: Key, shift: bool, picks: seq<int>)
    requires ScrambleReady(key, picks) && !g.animation.isAnimating && KeyFace(key).None?
    ensures var h := KeyPress(g, key, shift, picks);
      && (key == Space ==> h.cells == SolvedCube() && h.animation == g.animation && h.showInstructions == g.showInstructions)
      && (key == S ==>
            h.cells == Scrambled(picks, DefaultScrambleMoves, g.cells)
            && h.animation == g.animation && h.showInstructions == g.showInstructions)
      && (key == I ==> h.showInstructions == !g.showInstructions && h.animation == g.animation && h.cells == g.cells)
      && (key == OtherKey ==> h == g)
  {
  }

  /** Key presses keep the animation invariant, so a started sweep is always a quarter turn in progress. */
  lemma KeyPressKeepsInv(g: GameView, key: Key, shift: bool, picks: seq<int>)
    requires ScrambleReady(key, picks) && Inv(g.animation)
    ensures Inv(KeyPress(g, key, shift, picks).animation)
  {
    if !g.animation.isAnimating && KeyFace(key).Some? {
      StartKeepsInv(g.animation, KeyFace(key).value.Index(), !shift);
    }
  }

  class RubikGame {
    const cube: RubikCube
    var animation: AnimationState
    var showInstructions: bool

    ghost predicate Valid() {
      cube.Valid()
    }

    /** A new game: instructions shown, no sweep, and a cube scrambled by the default number of drawn moves. */
    constructor (picks: seq<int>)
      requires DefaultScrambleMoves <= |picks|
      requires forall i :: 0 <= i < |picks| ==> 0 <= picks[i] < |MoveTokens|
      ensures Valid() && fresh(cube) && fresh(cube.faces)
      ensures showInstructions && animation == Idle
      ensures cube.Cells() == Scrambled(picks, DefaultScrambleMoves, SolvedCube())
    {
      cube := new RubikCube();
      showInstructions := true;
      animation := Idle;
      new;
      cube.Scramble(DefaultScrambleMoves, picks);
    }

    /** startAnimation: a new sweep unless one is running. */
    method StartAnimation(face: int, clockwise: bool)
      modifies this
      ensures animation == Start(old(animation), face, clockwise)
      ensures showInstructions == old(showInstructions)
    {
      if animation.isAnimating {
        return;
      }
      animation := animation.(face := face);
      animation := animation.(clockwise := clockwise);
      animation := animation.(currentAngle := 0.0);
      animation := animation.(targetAngle := if clockwise then 90.0 else -90.0);
      animation := animation.(isAnimating := true);
    }

    /** applyRotationToCube: the clockwise or primed move of the animated face. */
    method ApplyRotationToCube()
      requires Valid()
      modifies cube.faces
      ensures cube.Cells() == Committed(animation.face, animation.clockwise, old(cube.Cells()))
    {
      var face := animation.face;
      if face == Right.Index() {
        if animation.clockwise { cube.RotateR(); } else { cube.RotateRPrime(); }
      } else if face == Left.Index() {
        if animation.clockwise { cube.RotateL(); } else { cube.RotateLPrime(); }
      } else if face == Up.Index() {
        if animation.clockwise { cube.RotateU(); } else { cube.RotateUPrime(); }
      } else if face == Down.Index() {
        if animation.clockwise { cube.RotateD(); } else { cube.RotateDPrime(); }
      } else if face == Front.Index() {
        if animation.clockwise { cube.RotateF(); } else { cube.RotateFPrime(); }
      } else if face == Back.Index() {
        if animation.clockwise { cube.RotateB(); } else { cube.RotateBPrime(); }
      }
    }

    /** updateAnimation: one frame of `dt` seconds; the frame that finishes the sweep commits the move. */
    method UpdateAnimation(dt: real)
      requires Valid()
      modifies this, cube.faces
      ensures animation == Tick(old(animation), dt).next
      ensures cube.Cells() == if Tick(old(animation), dt).commit
        then Committed(old(animation).face, old(animation).clockwise, old(cube.Cells()))
        else old(cube.Cells())
      ensures showInstructions == old(showInstructions)
    {
      if !animation.isAnimating {
        return;
      }
      var angleDelta := AnimationSpeed * dt;
      if animation.clockwise {
        animation := animation.(currentAngle := animation.currentAngle + angleDelta);
        if animation.currentAngle >= animation.targetAngle {
          animation := animation.(currentAngle := animation.targetAngle);
          animation := animation.(isAnimating := false);
          ApplyRotationToCube();
        }
      } else {
        animation := animation.(currentAngle := animation.currentAngle - angleDelta);
        if animation.currentAngle <= animation.targetAngle {
          animation := animation.(currentAngle := animation.targetAngle);
          animation := animation.(isAnimating := false);
          ApplyRotationToCube();
        }
      }
    }

    /** The state handleKeyPress works on, as a value. */
    ghost function View(): GameView
      requires Valid()
      reads this, cube.faces
    {
      GameView(animation, showInstructions, cube.Cells())
    }

    /**
     * handleKeyPress: nothing while a sweep runs; otherwise a move key starts
     * its face's sweep (shift for counter-clockwise), S scrambles, Space resets
     * and I toggles the instructions.
     */
    method HandleKeyPress(key: Key, shift: bool, picks: seq<int>)
      requires Valid()
      requires ScrambleReady(key, picks)
      modifies this, cube.faces
      ensures View() == KeyPress(old(View()), key, shift, picks)
    {
      if animation.isAnimating {
        return;
      }
      match key
      case Q => StartAnimation(Right.Index(), !shift);
      case W => StartAnimation(Left.Index(), !shift);
      case E => StartAnimation(Up.Index(), !shift);
      case R => StartAnimation(Down.Index(), !shift);
      case T => StartAnimation(Front.Index(), !shift);
      case Y => StartAnimation(Back.Index(), !shift);
      case S => cube.Scramble(DefaultScrambleMoves, picks);
      case Space =>
        cube.Reset();
        animation := animation.(isAnimating := false);
      case I => showInstructions := !showInstructions;
      case OtherKey =>
    }
  }
}
