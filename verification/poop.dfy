/**
 * A dropped projectile (entities/Poop.java). It is airborne, integrated with
 * explicit Euler steps under gravity, until its height reaches the ground;
 * from then on it is landed and frozen, with a splat timer that decides when
 * it is removed.
 */
module Poops {

  import opened Vectors
  import opened Constants

  /** How long a landed poop stays before it is removed. */
  const SplatDuration: real := 0.5

  /**
   * The `landed` flag together with `landingTime`: an airborne poop has no
   * landing time (the source keeps it at 0 until the landing).
   */
  datatype Phase = Airborne | Landed(landingTime: real)

  datatype Poop = Poop(position: Vec3, velocity: Vec3, startPosition: Vec3, phase: Phase)

  predicate IsLanded(p: Poop) {
    p.phase.Landed?
  }

  /** The constructor: released at `start`, keeping only the horizontal part of the inherited velocity. */
  function Spawn(start: Vec3, inherited: Vec3): (p: Poop)
    ensures p.position == start && p.startPosition == start
    ensures p.velocity == Vec3(inherited.x, 0.0, inherited.z)
    ensures !IsLanded(p)
  {
    Poop(start, Vec3(inherited.x, 0.0, inherited.z), start, Airborne)
  }

  /**
   * `update`: a landed poop only ages; an airborne one first loses `Gravity * delta`
   * of vertical speed, then moves by the new velocity times `delta`, and lands
   * (clamped to the ground, landing time 0) if that takes it to or below the ground.
   */
  function Update(p: Poop, delta: real): (r: Poop)
    ensures r.startPosition == p.startPosition
    // once landed, a poop stays landed, frozen in place, and only its timer runs
    ensures IsLanded(p) ==>
              r.position == p.position && r.velocity == p.velocity
              && r.phase == Landed(p.phase.landingTime + delta)
    // airborne: the horizontal velocity is kept and the vertical one loses gravity
    ensures !IsLanded(p) ==>
              r.velocity == Vec3(p.velocity.x, p.velocity.y - Gravity * delta, p.velocity.z)
              && r.position.x == p.position.x + r.velocity.x * delta
              && r.position.z == p.position.z + r.velocity.z * delta
    // airborne: it lands exactly when the step reaches the ground, and then sits on it
    ensures !IsLanded(p) ==>
              (IsLanded(r) <==> p.position.y + r.velocity.y * delta <= GroundLevel)
    ensures !IsLanded(p) && IsLanded(r) ==> r.position.y == GroundLevel && r.phase.landingTime == 0.0
    ensures !IsLanded(p) && !IsLanded(r) ==>
              r.position.y == p.position.y + r.velocity.y * delta && r.position.y > GroundLevel
  {
    match p.phase
    case Landed(t) => p.(phase := Landed(t + delta))
    case Airborne =>
      var v := p.velocity.(y := p.velocity.y - Gravity * delta);
      var moved := Add(p.position, Vec3(v.x * delta, v.y * delta, v.z * delta));
      assert moved.y == p.position.y + v.y * delta;
      if moved.y <= GroundLevel then
        Poop(moved.(y := GroundLevel), v, p.startPosition, Landed(0.0))
      else
        Poop(moved, v, p.startPosition, Airborne)
  }

  /** `shouldRemove`: landed for longer than the splat duration. An airborne poop is never removed. */
  function ShouldRemove(p: Poop): (remove: bool)
    ensures !IsLanded(p) ==> !remove
    ensures IsLanded(p) ==> (remove <==> p.phase.landingTime > SplatDuration)
  {
    p.phase.Landed? && p.phase.landingTime > SplatDuration
  }

  /** `hasJustLanded`: landed, and no time has passed since; such a poop is not yet removed. */
  function HasJustLanded(p: Poop): (just: bool)
    ensures just <==> p.phase == Landed(0.0)
    ensures just ==> IsLanded(p) && !ShouldRemove(p)
  {
    p.phase.Landed? && p.phase.landingTime == 0.0
  }

  /** `getLandingX` / `getLandingZ`: where a hit is tested, the current (x, z). */
  function LandingX(p: Poop): (x: real)
    ensures x == p.position.x
  {
    p.position.x
  }

  function LandingZ(p: Poop): (z: real)
    ensures z == p.position.z
  {
    p.position.z
  }

  /** The landing a tick produces: the poop was airborne before it and is landed after it. */
  predicate LandsOn(p: Poop, delta: real) {
    !IsLanded(p) && IsLanded(Update(p, delta))
  }

  /** The landing point is where the tick's Euler step hit the ground, clamped to the ground. */
  lemma LandingPointIsClampedStep(p: Poop, delta: real)
    requires LandsOn(p, delta)
    ensures var r := Update(p, delta);
            LandingX(r) == p.position.x + p.velocity.x * delta
            && LandingZ(r) == p.position.z + p.velocity.z * delta
            && HasJustLanded(r) && !ShouldRemove(r)
  {
  }

  /** The poop after a run of ticks. */
  function Run(p: Poop, deltas: seq<real>): Poop
    decreases |deltas|
  {
    if |deltas| == 0 then p else Run(Update(p, deltas[0]), deltas[1..])
  }

  /**
   * Landing is permanent: after any run, a landed poop is still landed at the
   * same place, and its timer has advanced by the total time.
   */
  lemma {:induction false} LandedStaysPut(p: Poop, deltas: seq<real>)
    requires IsLanded(p)
    ensures IsLanded(Run(p, deltas))
    ensures Run(p, deltas).position == p.position && Run(p, deltas).velocity == p.velocity
    ensures Run(p, deltas).phase.landingTime == p.phase.landingTime + Sum(deltas)
    decreases |deltas|
  {
    if |deltas| > 0 {
      LandedStaysPut(Update(p, deltas[0]), deltas[1..]);
    }
  }

  /** How many ticks of a run take the poop from airborne to landed. */
  function LandingCount(p: Poop, deltas: seq<real>): nat
    decreases |deltas|
  {
    if |deltas| == 0 then 0
    else (if LandsOn(p, deltas[0]) then 1 else 0) + LandingCount(Update(p, deltas[0]), deltas[1..])
  }

  lemma {:induction false} LandedNeverLandsAgain(p: Poop, deltas: seq<real>)
    requires IsLanded(p)
    ensures LandingCount(p, deltas) == 0
    decreases |deltas|
  {
    if |deltas| > 0 {
      LandedNeverLandsAgain(Update(p, deltas[0]), deltas[1..]);
    }
  }

  /**
   * A poop lands at most once, whatever the time steps: this is what lets the
   * engine score each poop at most once.
   */
  lemma {:induction false} LandsAtMostOnce(p: Poop, deltas: seq<real>)
    ensures LandingCount(p, deltas) <= 1
    ensures IsLanded(Run(p, deltas)) <==> IsLanded(p) || LandingCount(p, deltas) == 1
    decreases |deltas|
  {
    if |deltas| > 0 {
      var q := Update(p, deltas[0]);
      if LandsOn(p, deltas[0]) {
        LandedNeverLandsAgain(q, deltas[1..]);
        LandedStaysPut(q, deltas[1..]);
      } else {
        LandsAtMostOnce(q, deltas[1..]);
      }
    }
  }

  /**
   * With positive time steps, `hasJustLanded` holds for exactly the one state
   * right after the landing: one more tick makes it false for good.
   */
  lemma {:induction false} JustLandedOnlyOnce(p: Poop, deltas: seq<real>)
    requires IsLanded(p) && 0.0 <= p.phase.landingTime
    requires |deltas| > 0
    requires forall i :: 0 <= i < |deltas| ==> 0.0 < deltas[i]
    ensures !HasJustLanded(Run(p, deltas))
  {
    assert NonNegSteps(deltas);
    assert deltas == [deltas[0]] + deltas[1..];
    SumNonNeg(deltas[1..]);
    LandedStaysPut(p, deltas);
  }

  /** Removal comes only after the splat duration has fully elapsed since landing. */
  lemma RemovedOnlyAfterSplat(p: Poop, deltas: seq<real>)
    requires HasJustLanded(p)
    ensures ShouldRemove(Run(p, deltas)) <==> Sum(deltas) > SplatDuration
  {
    LandedStaysPut(p, deltas);
  }
}
