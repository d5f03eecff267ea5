/**
 * The face-turn animation of the game: an AnimationState record that is
 * either idle or sweeping a face towards a target angle of plus or minus 90
 * degrees. Starting is refused while a sweep runs; each frame tick advances
 * the angle by ANIMATION_SPEED * dt and, when the target is reached or
 * passed, clamps the angle to the target, goes idle and reports that the
 * discrete cube move must now be committed. Angles and times are exact reals.
 */
module Animation {

  /** The animation record: which face, how far it has turned, where it stops, and in which direction. */
  datatype AnimationState = AnimationState(
    face: int,
    currentAngle: real,
    targetAngle: real,
    isAnimating: bool,
    clockwise: bool)

  /** The record's default value: no face, no angle, idle, clockwise. */
  const Idle: AnimationState := AnimationState(-1, 0.0, 0.0, false, true)

  /** Degrees per second. */
  const AnimationSpeed: real := 300.0

  /** The angle a quarter turn sweeps to, signed by direction. */
  function Target(clockwise: bool): (t: real)
    ensures t == 90.0 || t == -90.0
    ensures clockwise <==> t > 0.0
  {
    if clockwise then 90.0 else -90.0
  }

  /** startAnimation: ignored while animating; otherwise a new sweep of `face` from angle 0. */
  function Start(a: AnimationState, face: int, clockwise: bool): (b: AnimationState)
    ensures a.isAnimating ==> b == a
    ensures !a.isAnimating ==> b.isAnimating && b.face == face && b.clockwise == clockwise
    ensures !a.isAnimating ==> b.currentAngle == 0.0 && b.targetAngle == Target(clockwise)
  {
    if a.isAnimating then a
    else a.(face := face, clockwise := clockwise, currentAngle := 0.0,
            targetAngle := Target(clockwise), isAnimating := true)
  }

  /** The state after a tick, and whether the tick completed the sweep (the cube move is then due). */
  datatype TickResult = TickResult(next: AnimationState, commit: bool)

  /**
   * updateAnimation: a clockwise sweep adds the angle step and finishes when it
   * reaches the target from below; a counter-clockwise sweep subtracts it and
   * finishes when it reaches the target from above.
   */
  function Tick(a: AnimationState, dt: real): (r: TickResult)
    ensures r.commit <==> a.isAnimating && !r.next.isAnimating
    ensures r.commit ==> r.next.currentAngle == a.targetAngle
    ensures r.next.face == a.face && r.next.clockwise == a.clockwise && r.next.targetAngle == a.targetAngle
    ensures !a.isAnimating ==> r.next == a
  {
    if !a.isAnimating then TickResult(a, false)
    else
      var angleDelta := AnimationSpeed * dt;
      if a.clockwise then
        var angle := a.currentAngle + angleDelta;
        if angle >= a.targetAngle then TickResult(a.(currentAngle := a.targetAngle, isAnimating := false), true)
        else TickResult(a.(currentAngle := angle), false)
      else
        var angle := a.currentAngle - angleDelta;
        if angle <= a.targetAngle then TickResult(a.(currentAngle := a.targetAngle, isAnimating := false), true)
        else TickResult(a.(currentAngle := angle), false)
  }

  /** How far the sweep has turned in its own direction. */
  function Progress(a: AnimationState): real {
    if a.clockwise then a.currentAngle else -a.currentAngle
  }

  /** A running sweep aims at the quarter turn of its direction and has not reached it yet. */
  ghost predicate Inv(a: AnimationState) {
    a.isAnimating ==> a.targetAngle == Target(a.clockwise) && 0.0 <= Progress(a) < 90.0
  }

  /** The default record satisfies the invariant, and so does every start. */
  lemma StartKeepsInv(a: AnimationState, face: int, clockwise: bool)
    requires Inv(a)
    ensures Inv(Idle)
    ensures Inv(Start(a, face, clockwise))
    ensures !a.isAnimating ==> Progress(Start(a, face, clockwise)) == 0.0
  {
  }

  /**
   * One tick of a running sweep with dt >= 0 finishes it exactly when the
   * step reaches the quarter turn; otherwise the sweep advances by exactly
   * the step, and the invariant holds afterwards either way.
   */
  lemma TickAdvances(a: AnimationState, dt: real)
    requires Inv(a) && a.isAnimating && dt >= 0.0
    ensures Tick(a, dt).commit <==> Progress(a) + AnimationSpeed * dt >= 90.0
    ensures !Tick(a, dt).commit ==> Progress(Tick(a, dt).next) == Progress(a) + AnimationSpeed * dt
    ensures Inv(Tick(a, dt).next)
  {
  }

  /** Total elapsed time of a run of frames. */
  function Sum(dts: seq<real>): real
    decreases |dts|
  {
    if dts == [] then 0.0 else dts[0] + Sum(dts[1..])
  }

  /** Every frame time is non-negative. */
  ghost predicate NonNegative(dts: seq<real>) {
    forall i :: 0 <= i < |dts| ==> dts[i] >= 0.0
  }

  /** Non-negative frame times add up to a non-negative total. */
  lemma {:induction false} SumNonNegative(dts: seq<real>)
    requires NonNegative(dts)
    ensures Sum(dts) >= 0.0
    decreases |dts|
  {
    if dts != [] {
      SumNonNegative(dts[1..]);
    }
  }

  /** The state after a run of frames, and how many cube moves the run committed. */
  datatype RunResult = RunResult(final: AnimationState, commits: nat)

  /** updateAnimation once per frame, in order. */
  function Run(a: AnimationState, dts: seq<real>): (r: RunResult)
    ensures r.final.face == a.face && r.final.clockwise == a.clockwise
    decreases |dts|
  {
    if dts == [] then RunResult(a, 0)
    else
      var t := Tick(a, dts[0]);
      var rest := Run(t.next, dts[1..]);
      RunResult(rest.final, rest.commits + if t.commit then 1 else 0)
  }

  /**
   * The busy/commit protocol: an idle record stays idle and commits nothing;
   * a running sweep commits at most once, and exactly once precisely when the
   * frames add up to the rest of the quarter turn. A run that commits ends idle
   * at the target angle; one that does not is still sweeping.
   */
  lemma {:induction false} RunCommitsOnce(a: AnimationState, dts: seq<real>)
    requires Inv(a) && NonNegative(dts)
    ensures Run(a, dts).commits <= 1
    ensures Inv(Run(a, dts).final)
    ensures !a.isAnimating ==> Run(a, dts).commits == 0 && Run(a, dts).final == a
    ensures a.isAnimating ==>
      (Run(a, dts).commits == 1 <==> Progress(a) + AnimationSpeed * Sum(dts) >= 90.0)
    ensures a.isAnimating && Run(a, dts).commits == 1 ==>
      !Run(a, dts).final.isAnimating && Run(a, dts).final.currentAngle == a.targetAngle
    ensures a.isAnimating && Run(a, dts).commits == 0 ==>
      Run(a, dts).final.isAnimating && Progress(Run(a, dts).final) == Progress(a) + AnimationSpeed * Sum(dts)
    decreases |dts|
  {
    if dts != [] {
      var t := Tick(a, dts[0]);
      assert NonNegative(dts[1..]) by {
        forall i | 0 <= i < |dts[1..]|
          ensures dts[1..][i] >= 0.0
        {
          assert dts[1..][i] == dts[i + 1];
        }
      }
      RunCommitsOnce(t.next, dts[1..]);
      if a.isAnimating {
        TickAdvances(a, dts[0]);
        SumNonNegative(dts[1..]);
      }
    }
  }
}
