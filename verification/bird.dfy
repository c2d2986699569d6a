/**
 * The player's bird (entities/Bird.java): steered by an input direction and
 * pushed by the wind, bobbing within its type's height band, firing poops
 * gated by a cooldown that power-ups can shorten.
 */
module Birds {

  import opened Vectors
  import opened Wrappers
  import opened BirdTypes
  import Poops

  /** Smallest cooldown multiplier `applyCooldownReduction` allows. */
  const MinCooldownMultiplier: real := 0.3

  /** Cosmetic state (wing angle, flap speed, the scene-graph node) is not modelled. */
  datatype Bird = Bird(
    kind: BirdType,
    position: Vec3,
    velocity: Vec3,
    currentCooldown: real,
    cooldownMultiplier: real,
    time: real)

  /** What the model assumes of `MathUtils.sin`: its values lie in [-1, 1]. */
  ghost predicate SineBounded(sin: real -> real) {
    forall x :: -1.0 <= sin(x) <= 1.0
  }

  /** The constructor: at the origin, at the bottom of the height band, ready to fire. */
  function NewBird(kind: BirdType): (b: Bird)
    ensures b.kind == kind
    ensures b.position == Vec3(0.0, Spec(kind).minHeight, 0.0) && b.velocity == Zero
    ensures b.currentCooldown == 0.0 && CanPoop(b) && b.cooldownMultiplier == 1.0 && b.time == 0.0
  {
    Bird(kind, Vec3(0.0, Spec(kind).minHeight, 0.0), Zero, 0.0, 1.0, 0.0)
  }

  /** `canPoop`: no cooldown left; for a cooldown that never goes below 0, exactly when it has run out. */
  function CanPoop(b: Bird): (ready: bool)
    ensures ready <==> b.currentCooldown <= 0.0
    ensures 0.0 <= b.currentCooldown ==> (ready <==> b.currentCooldown == 0.0)
  {
    b.currentCooldown <= 0.0
  }

  /** The cooldown part of `update`: a running cooldown counts down by `delta`, stopping at 0. */
  function TickCooldown(c: real, delta: real): (r: real)
    ensures c <= 0.0 ==> r == c
    ensures 0.0 < c && delta <= c ==> r == c - delta
    ensures 0.0 < c && c < delta ==> r == 0.0
    ensures 0.0 <= c && 0.0 <= delta ==> 0.0 <= r <= c
  {
    if c > 0.0 then (if c - delta < 0.0 then 0.0 else c - delta) else c
  }

  /** The height `update` puts the bird at, for a value `s` of the sine of half the clock. */
  function BandHeight(kind: BirdType, s: real): real {
    var range := Spec(kind).maxHeight - Spec(kind).minHeight;
    Spec(kind).minHeight + range / 2.0 * (1.0 + s)
  }

  /** For any sine value the height stays within the bird's band. */
  lemma BandHeightWithinBand(kind: BirdType, s: real)
    requires -1.0 <= s <= 1.0
    ensures Spec(kind).minHeight <= BandHeight(kind, s) <= Spec(kind).maxHeight
  {
    var half := (Spec(kind).maxHeight - Spec(kind).minHeight) / 2.0;
    NonNegMul(half, 1.0 + s);
    NonNegMul(half, 1.0 - s);
  }

  /**
   * `update`: advance the clock and the cooldown, take the velocity to be the
   * input direction at the type's base speed plus the wind, move horizontally
   * by that velocity, and set the height from the oscillation.
   */
  function Update(b: Bird, delta: real, input: Vec3, wind: Vec3, sin: real -> real): (r: Bird)
    ensures r.kind == b.kind && r.cooldownMultiplier == b.cooldownMultiplier
    ensures r.time == b.time + delta
    ensures r.currentCooldown == TickCooldown(b.currentCooldown, delta)
    ensures r.velocity == Add(Scale(input, Spec(b.kind).baseVelocity), wind)
    ensures r.position.x == b.position.x + r.velocity.x * delta
    ensures r.position.z == b.position.z + r.velocity.z * delta
    // the height follows the sine of half the clock, at a fixed angular rate
    ensures r.position.y == BandHeight(b.kind, sin(r.time * 0.5))
    ensures SineBounded(sin) ==>
              Spec(b.kind).minHeight <= r.position.y <= Spec(b.kind).maxHeight
  {
    var time := b.time + delta;
    var velocity := Add(Scale(input, Spec(b.kind).baseVelocity), wind);
    var s := sin(time * 0.5);
    var position := Vec3(b.position.x + velocity.x * delta, BandHeight(b.kind, s), b.position.z + velocity.z * delta);
    assert SineBounded(sin) ==> Spec(b.kind).minHeight <= position.y <= Spec(b.kind).maxHeight by {
      if SineBounded(sin) {
        BandHeightWithinBand(b.kind, s);
      }
    }
    Bird(b.kind, position, velocity, TickCooldown(b.currentCooldown, delta), b.cooldownMultiplier, time)
  }

  /**
   * `poop`: while the cooldown runs nothing happens and no poop is produced;
   * otherwise the cooldown restarts at the type's cooldown scaled by the
   * multiplier, and a poop is released where the bird is, with its velocity.
   */
  function DropPoop(b: Bird): (r: (Bird, Option<Poops.Poop>))
    ensures !CanPoop(b) ==> r.0 == b && r.1 == None
    ensures CanPoop(b) ==>
              && r.0 == b.(currentCooldown := Spec(b.kind).cooldown * b.cooldownMultiplier)
              && r.1 == Some(Poops.Spawn(b.position, b.velocity))
    ensures CanPoop(b) && 0.0 < b.cooldownMultiplier ==> !CanPoop(r.0)
  {
    if !CanPoop(b) then (b, None)
    else
      var cooldown := Spec(b.kind).cooldown * b.cooldownMultiplier;
      assert 0.0 < b.cooldownMultiplier ==> 0.0 < cooldown;
      (b.(currentCooldown := cooldown), Some(Poops.Spawn(b.position, b.velocity)))
  }

  /** `applyCooldownReduction`: lower the multiplier by `reduction`, never below the floor. */
  function ApplyCooldownReduction(b: Bird, reduction: real): (r: Bird)
    ensures r == b.(cooldownMultiplier := r.cooldownMultiplier)
    ensures MinCooldownMultiplier <= r.cooldownMultiplier
    ensures b.cooldownMultiplier - reduction >= MinCooldownMultiplier ==>
              r.cooldownMultiplier == b.cooldownMultiplier - reduction
    ensures b.cooldownMultiplier - reduction < MinCooldownMultiplier ==>
              r.cooldownMultiplier == MinCooldownMultiplier
  {
    b.(cooldownMultiplier := Max(MinCooldownMultiplier, b.cooldownMultiplier - reduction))
  }

  /** `resetCooldownMultiplier`: back to the unreduced multiplier, nothing else changes. */
  function ResetCooldownMultiplier(b: Bird): (r: Bird)
    ensures r == b.(cooldownMultiplier := r.cooldownMultiplier)
    ensures r.cooldownMultiplier == NewBird(b.kind).cooldownMultiplier
  {
    b.(cooldownMultiplier := 1.0)
  }

  /**
   * The multiplier a freshly built bird has (1) stays in [0.3, 1] under any
   * non-negative reductions and resets, so it is always positive.
   */
  predicate MultiplierInRange(b: Bird) {
    MinCooldownMultiplier <= b.cooldownMultiplier <= 1.0
  }

  lemma MultiplierStaysInRange(b: Bird, reduction: real)
    requires MultiplierInRange(b) && 0.0 <= reduction
    ensures MultiplierInRange(ApplyCooldownReduction(b, reduction))
    ensures MultiplierInRange(ResetCooldownMultiplier(b))
  {
  }

  /** The cooldown after a run of ticks. */
  function CooldownAfter(c: real, deltas: seq<real>): real
    decreases |deltas|
  {
    if |deltas| == 0 then c else CooldownAfter(TickCooldown(c, deltas[0]), deltas[1..])
  }

  /**
   * Ticking a non-negative cooldown through a run leaves what remains of it
   * after the run's total time, never less than 0.
   */
  lemma {:induction false} CooldownAfterRun(c: real, deltas: seq<real>)
    requires 0.0 <= c && NonNegSteps(deltas)
    ensures CooldownAfter(c, deltas) == Max(c - Sum(deltas), 0.0)
    decreases |deltas|
  {
    if |deltas| > 0 {
      assert NonNegSteps(deltas[1..]);
      SumNonNeg(deltas[1..]);
      CooldownAfterRun(TickCooldown(c, deltas[0]), deltas[1..]);
    }
  }

  /** After firing, the bird can fire again exactly once the cooldown's worth of time has passed. */
  lemma ReadyAgainExactlyAfterCooldown(b: Bird, deltas: seq<real>)
    requires CanPoop(b) && 0.0 < b.cooldownMultiplier && NonNegSteps(deltas)
    ensures var fired := DropPoop(b).0;
            CooldownAfter(fired.currentCooldown, deltas) <= 0.0
            <==> Sum(deltas) >= Spec(b.kind).cooldown * b.cooldownMultiplier
  {
    var fired := DropPoop(b).0;
    CooldownAfterRun(fired.currentCooldown, deltas);
  }

  /**
   * `getCooldownProgress` as written: 1 when the type has no cooldown, otherwise
   * the fraction of the current cooldown, measured against the type's cooldown
   * scaled by the current multiplier, that has already elapsed.
   */
  function CooldownProgress(b: Bird): (progress: real)
    requires 0.0 < b.cooldownMultiplier
    ensures Spec(b.kind).cooldown <= 0.0 ==> progress == 1.0
    // the elapsed part of the full cooldown, as a fraction of it
    ensures 0.0 < Spec(b.kind).cooldown ==>
              progress * (Spec(b.kind).cooldown * b.cooldownMultiplier)
              == Spec(b.kind).cooldown * b.cooldownMultiplier - b.currentCooldown
    ensures progress <= 1.0 <==> 0.0 <= b.currentCooldown
    ensures 0.0 <= b.currentCooldown <= Spec(b.kind).cooldown * b.cooldownMultiplier ==> 0.0 <= progress
    ensures b.currentCooldown > Spec(b.kind).cooldown * b.cooldownMultiplier ==> progress < 0.0
  {
    if Spec(b.kind).cooldown <= 0.0 then 1.0
    else
      var full := Spec(b.kind).cooldown * b.cooldownMultiplier;
      var frac := b.currentCooldown / full;
      assert 0.0 < full;
      assert frac * full == b.currentCooldown;
      FractionBounds(b.currentCooldown, full);
      1.0 - frac
  }

  /** Where a fraction `a / b` of a positive whole lies relative to 0 and 1. */
  lemma FractionBounds(a: real, b: real)
    requires 0.0 < b
    ensures 0.0 <= a ==> 0.0 <= a / b
    ensures a / b <= 1.0 <==> a <= b
  {
    var q := a / b;
    assert q * b == a;
    if q > 1.0 {
      var over := q - 1.0;
      PosMul(over, b);
      assert over * b == q * b - b;
    } else {
      var under := 1.0 - q;
      NonNegMul(under, b);
      assert under * b == b - q * b;
    }
  }

  /**
   * The progress bar goes negative when a cooldown-reduction power-up is
   * collected while a cooldown started under the old multiplier is running:
   * a sparrow fires (cooldown 1.5 at multiplier 1), then the multiplier drops
   * to 0.7, and the progress is 1 - 1.5 / 1.05.
   */
  lemma CooldownProgressGoesNegative()
    ensures var fired := DropPoop(NewBird(Sparrow)).0;
            CooldownProgress(ApplyCooldownReduction(fired, 0.3)) < 0.0
  {
    var fired := DropPoop(NewBird(Sparrow)).0;
    var reduced := ApplyCooldownReduction(fired, 0.3);
    assert reduced.currentCooldown == 1.5 && reduced.cooldownMultiplier == 0.7;
  }

  /** The progress with the bar's intended range restored: the as-written value clamped to [0, 1]. */
  function ClampedCooldownProgress(b: Bird): (progress: real)
    requires 0.0 < b.cooldownMultiplier
    ensures 0.0 <= progress <= 1.0
    ensures 0.0 <= CooldownProgress(b) <= 1.0 ==> progress == CooldownProgress(b)
    ensures CanPoop(b) <==> progress == 1.0
  {
    Clamp(CooldownProgress(b), 0.0, 1.0)
  }
}
