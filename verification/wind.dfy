/**
 * The ambient wind (physics/Wind.java): a horizontal vector that is eased
 * toward a randomly drawn target, with a new target drawn every
 * `WindChangeInterval` seconds, plus the eight-point compass name of its
 * heading.
 */
module WindModel {

  import opened Vectors
  import opened Constants

  /** Seconds an easing nominally takes: the progress grows by delta / 2 per tick. */
  const TransitionDuration: real := 2.0

  /** The two random draws of `generateNewTarget`: a heading and a speed. */
  datatype WindDraw = WindDraw(heading: Heading, speed: real)

  /** What `MathUtils.random(360f)` and `MathUtils.random(MAX_WIND_SPEED)` can return. */
  predicate ValidDraw(d: WindDraw) {
    IsUnit(d.heading) && 0.0 <= d.speed <= MaxWindSpeed
  }

  datatype Wind = Wind(velocity: Vec3, targetVelocity: Vec3, changeTimer: real, transitionProgress: real)

  /**
   * The target velocity a draw produces: horizontal, along the drawn heading at
   * the drawn speed, and so no faster than the maximum.
   */
  function DrawnTarget(d: WindDraw): (v: Vec3)
    ensures v.y == 0.0
    ensures v.x == d.heading.cos * d.speed && v.z == d.heading.sin * d.speed
    ensures IsUnit(d.heading) ==> PlanarNormSq(v) == d.speed * d.speed
    ensures ValidDraw(d) ==> PlanarNormSq(v) <= MaxWindSpeed * MaxWindSpeed
  {
    var v := Along(d.heading, d.speed);
    assert ValidDraw(d) ==> PlanarNormSq(v) <= MaxWindSpeed * MaxWindSpeed by {
      if ValidDraw(d) {
        SquareMonotone(d.speed, MaxWindSpeed);
      }
    }
    v
  }

  /** `generateNewTarget`: install a freshly drawn target and restart the easing. */
  function GenerateNewTarget(w: Wind, d: WindDraw): (r: Wind)
    ensures r.targetVelocity == DrawnTarget(d) && r.transitionProgress == 0.0
    ensures r.velocity == w.velocity && r.changeTimer == w.changeTimer
  {
    w.(targetVelocity := DrawnTarget(d), transitionProgress := 0.0)
  }

  /** The constructor: calm, with a first target already drawn. */
  function NewWind(d: WindDraw): (w: Wind)
    ensures w.velocity == Zero && w.changeTimer == 0.0 && w.transitionProgress == 0.0
    ensures w.targetVelocity == DrawnTarget(d)
  {
    GenerateNewTarget(Wind(Zero, Zero, 0.0, 1.0), d)
  }

  /**
   * `update`: advance the change timer; while the easing is unfinished, grow the
   * progress by `delta / TransitionDuration` (capped at 1) and move the velocity
   * that fraction of the way to the target; then retarget once the timer
   * reaches the interval. The draw is only consumed on a retarget.
   */
  function Update(w: Wind, delta: real, d: WindDraw): (r: Wind)
    // retargeting resets the timer and restarts the easing toward a horizontal target
    ensures w.changeTimer + delta >= WindChangeInterval ==>
              r.changeTimer == 0.0 && r.transitionProgress == 0.0
              && r.targetVelocity == DrawnTarget(d) && r.targetVelocity.y == 0.0
    ensures w.changeTimer + delta < WindChangeInterval ==>
              r.changeTimer == w.changeTimer + delta && r.targetVelocity == w.targetVelocity
    // an unfinished easing grows by delta / TransitionDuration, capped at 1 ...
    ensures w.changeTimer + delta < WindChangeInterval ==>
              r.transitionProgress
              == (if w.transitionProgress < 1.0 then Min(w.transitionProgress + delta / TransitionDuration, 1.0)
                  else w.transitionProgress)
    // ... and moves the velocity that fraction of the way to the target, retarget or not
    ensures w.transitionProgress < 1.0 ==>
              r.velocity == Lerp(w.velocity, w.targetVelocity, Min(w.transitionProgress + delta / TransitionDuration, 1.0))
    // a finished easing holds the velocity steady
    ensures w.transitionProgress >= 1.0 ==> r.velocity == w.velocity
    // the tick on which the progress reaches 1 lands exactly on the target
    ensures w.transitionProgress < 1.0 && w.transitionProgress + delta / TransitionDuration >= 1.0 ==>
              r.velocity == w.targetVelocity
    // otherwise the progress never leaves [0, 1] when it starts there
    ensures w.changeTimer + delta < WindChangeInterval && 0.0 <= w.transitionProgress <= 1.0 && 0.0 <= delta ==>
              0.0 <= r.transitionProgress <= 1.0
  {
    var timer := w.changeTimer + delta;
    var eased :=
      if w.transitionProgress < 1.0 then
        var progress := Min(w.transitionProgress + delta / TransitionDuration, 1.0);
        Wind(Lerp(w.velocity, w.targetVelocity, progress), w.targetVelocity, timer, progress)
      else
        w.(changeTimer := timer);
    if timer >= WindChangeInterval then GenerateNewTarget(eased.(changeTimer := 0.0), d) else eased
  }

  /**
   * What every reachable wind satisfies: the easing fraction is in [0, 1], the
   * timer is below the interval, and both vectors are horizontal and no faster
   * than the maximum wind speed.
   */
  predicate Valid(w: Wind) {
    && 0.0 <= w.transitionProgress <= 1.0
    && 0.0 <= w.changeTimer < WindChangeInterval
    && w.velocity.y == 0.0 && w.targetVelocity.y == 0.0
    && PlanarNormSq(w.velocity) <= MaxWindSpeed * MaxWindSpeed
    && PlanarNormSq(w.targetVelocity) <= MaxWindSpeed * MaxWindSpeed
  }

  lemma NewWindValid(d: WindDraw)
    requires ValidDraw(d)
    ensures Valid(NewWind(d))
  {
  }

  /**
   * A tick keeps the wind valid: each easing step is a convex combination of
   * the current velocity and the target, so it stays within the speed bound.
   */
  lemma UpdatePreservesValid(w: Wind, delta: real, d: WindDraw)
    requires Valid(w) && 0.0 <= delta && ValidDraw(d)
    ensures Valid(Update(w, delta, d))
  {
    if w.transitionProgress < 1.0 {
      var progress := Min(w.transitionProgress + delta / TransitionDuration, 1.0);
      LerpStaysInDisc(w.velocity, w.targetVelocity, progress, MaxWindSpeed);
    }
  }

  /** The wind after a run of ticks, one draw per tick. */
  function Run(w: Wind, deltas: seq<real>, draws: seq<WindDraw>): Wind
    requires |deltas| == |draws|
    decreases |deltas|
  {
    if |deltas| == 0 then w
    else Run(Update(w, deltas[0], draws[0]), deltas[1..], draws[1..])
  }

  /**
   * Starting from the constructor, however many ticks pass, the wind never
   * blows faster than the maximum wind speed.
   */
  lemma {:induction false} WindSpeedStaysBounded(w: Wind, deltas: seq<real>, draws: seq<WindDraw>)
    requires Valid(w)
    requires |deltas| == |draws|
    requires forall i :: 0 <= i < |deltas| ==> 0.0 <= deltas[i]
    requires forall i :: 0 <= i < |draws| ==> ValidDraw(draws[i])
    ensures Valid(Run(w, deltas, draws))
    ensures PlanarNormSq(Run(w, deltas, draws).velocity) <= MaxWindSpeed * MaxWindSpeed
    decreases |deltas|
  {
    if |deltas| > 0 {
      UpdatePreservesValid(w, deltas[0], draws[0]);
      WindSpeedStaysBounded(Update(w, deltas[0], draws[0]), deltas[1..], draws[1..]);
    }
  }

  /** A wind that has reached its target and is not retargeted during a run holds steady through it. */
  lemma {:induction false} SettledWindHoldsSteady(w: Wind, deltas: seq<real>, draws: seq<WindDraw>)
    requires |deltas| == |draws| && NonNegSteps(deltas)
    requires w.transitionProgress >= 1.0
    requires w.changeTimer + Sum(deltas) < WindChangeInterval
    ensures Run(w, deltas, draws).velocity == w.velocity
    ensures Run(w, deltas, draws).targetVelocity == w.targetVelocity
    ensures Run(w, deltas, draws).transitionProgress == w.transitionProgress
    decreases |deltas|
  {
    if |deltas| > 0 {
      assert NonNegSteps(deltas[1..]);
      SumNonNeg(deltas[1..]);
      SettledWindHoldsSteady(Update(w, deltas[0], draws[0]), deltas[1..], draws[1..]);
    }
  }

  /**
   * The easing finishes within the transition window: once the time since the
   * retarget covers the remaining fraction of `TransitionDuration`, the wind
   * blows at exactly its target (as long as no new target is drawn meanwhile),
   * however the time is split into ticks.
   */
  lemma {:induction false} EasingReachesTarget(w: Wind, deltas: seq<real>, draws: seq<WindDraw>)
    requires |deltas| == |draws| && NonNegSteps(deltas)
    requires w.transitionProgress < 1.0
    requires w.transitionProgress + Sum(deltas) / TransitionDuration >= 1.0
    requires w.changeTimer + Sum(deltas) < WindChangeInterval
    ensures Run(w, deltas, draws).velocity == w.targetVelocity
    ensures Run(w, deltas, draws).targetVelocity == w.targetVelocity
    ensures Run(w, deltas, draws).transitionProgress == 1.0
    decreases |deltas|
  {
    assert |deltas| > 0;
    var rest := deltas[1..];
    assert NonNegSteps(rest);
    SumNonNeg(rest);
    var next := Update(w, deltas[0], draws[0]);
    if w.transitionProgress + deltas[0] / TransitionDuration >= 1.0 {
      SettledWindHoldsSteady(next, rest, draws[1..]);
    } else {
      EasingReachesTarget(next, rest, draws[1..]);
    }
  }

  /** The eight compass names, clockwise from north in 45-degree steps. */
  const CompassNames: seq<string> := ["N", "NE", "E", "SE", "S", "SW", "W", "NW"]

  /** `getDirectionName` adds a full turn to a negative angle first. */
  function NormalizedAngle(angle: real): real {
    if angle < 0.0 then angle + 360.0 else angle
  }

  /**
   * `getDirectionName`, for the heading angle in degrees that `getAngle`
   * computes with atan2. Name `k` of the compass covers the 45-degree bucket
   * centred on `45 * k`; "N" takes the bucket that wraps around 0 and
   * everything outside [22.5, 337.5).
   */
  function DirectionName(angle: real): (name: string)
    ensures name in CompassNames
    ensures name == "N" <==> NormalizedAngle(angle) < 22.5 || NormalizedAngle(angle) >= 337.5
    ensures forall k :: 1 <= k < |CompassNames| ==>
              (name == CompassNames[k] <==>
                 45.0 * k as real - 22.5 <= NormalizedAngle(angle) < 45.0 * k as real + 22.5)
  {
    var a := NormalizedAngle(angle);
    if a >= 337.5 || a < 22.5 then "N"
    else if a >= 22.5 && a < 67.5 then "NE"
    else if a >= 67.5 && a < 112.5 then "E"
    else if a >= 112.5 && a < 157.5 then "SE"
    else if a >= 157.5 && a < 202.5 then "S"
    else if a >= 202.5 && a < 247.5 then "SW"
    else if a >= 247.5 && a < 292.5 then "W"
    else "NW"
  }
}
