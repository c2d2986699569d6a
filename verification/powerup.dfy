/**
 * A floating pickup (entities/PowerUp.java): it ages until it expires, and is
 * collected at most once, by a bird that comes strictly within the collection
 * radius of it.
 */
module PowerUps {

  import opened Vectors
  import BirdTypes

  /** The three kinds. Only the first one has an effect in the game. */
  datatype PowerUpKind = CooldownReduction | DoublePoints | MultiPoop

  /** The name each kind is shown under. */
  function DisplayName(kind: PowerUpKind): (name: string)
    ensures kind == CooldownReduction ==> name == "Speed Boost"
    ensures kind == DoublePoints ==> name == "2x Points"
    ensures kind == MultiPoop ==> name == "Triple Shot"
  {
    match kind
    case CooldownReduction => "Speed Boost"
    case DoublePoints => "2x Points"
    case MultiPoop => "Triple Shot"
  }

  /** No two kinds share a name. */
  lemma DisplayNamesDistinct(a: PowerUpKind, b: PowerUpKind)
    ensures a != b ==> DisplayName(a) != DisplayName(b)
  {
  }

  /** The reduction of the bird's cooldown multiplier a kind carries. */
  function CooldownReductionOf(kind: PowerUpKind): (reduction: real)
    ensures kind == CooldownReduction ==> reduction == 0.3
    ensures kind != CooldownReduction ==> reduction == 0.0
    ensures 0.0 <= reduction
  {
    match kind
    case CooldownReduction => 0.3
    case DoublePoints => 0.0
    case MultiPoop => 0.0
  }

  /** Seconds an uncollected power-up stays in the world. */
  const MaxLifetime: real := 10.0
  /** The height power-ups float at. */
  const CollectHeight: real := 3.0
  /** How long before expiry a power-up starts signalling it. */
  const ExpiryWarning: real := 3.0

  /** The bob and spin phases only affect rendering and are not modelled. */
  datatype PowerUp = PowerUp(kind: PowerUpKind, position: Vec3, collected: bool, lifetime: real)

  /** The constructor: at (x, z), at the collection height, fresh and uncollected. */
  function NewPowerUp(kind: PowerUpKind, x: real, z: real): (p: PowerUp)
    ensures p.kind == kind
    ensures p.position == Vec3(x, CollectHeight, z)
    ensures !p.collected && p.lifetime == 0.0 && !ShouldRemove(p) && !IsExpiring(p)
  {
    PowerUp(kind, Vec3(x, CollectHeight, z), false, 0.0)
  }

  /** `update`: a collected power-up is inert; otherwise it ages by `delta`. */
  function Update(p: PowerUp, delta: real): (r: PowerUp)
    ensures r == p.(lifetime := r.lifetime)
    ensures p.collected ==> r.lifetime == p.lifetime
    ensures !p.collected ==> r.lifetime - p.lifetime == delta
  {
    if p.collected then p else p.(lifetime := p.lifetime + delta)
  }

  /** Squared 3D distance from the power-up to a point. */
  function DistSq(p: PowerUp, at: Vec3): real {
    NormSq(Vec3(at.x - p.position.x, at.y - p.position.y, at.z - p.position.z))
  }

  /**
   * `checkCollection`: an uncollected power-up strictly within `radius` of the
   * bird becomes collected and the call reports it; in every other case
   * nothing changes and the call reports false.
   */
  function CheckCollection(p: PowerUp, bird: Vec3, radius: real): (r: (PowerUp, bool))
    ensures r.1 <==> !p.collected && 0.0 < radius && DistSq(p, bird) < radius * radius
    ensures r.1 ==> r.0 == p.(collected := true)
    ensures !r.1 ==> r.0 == p
    ensures r.0.collected
            <==> p.collected || (0.0 < radius && DistSq(p, bird) < radius * radius)
  {
    if p.collected then (p, false)
    else if 0.0 < radius && DistSq(p, bird) < radius * radius then (p.(collected := true), true)
    else (p, false)
  }

  /**
   * Measured by the distance itself, as the source computes it: a fresh
   * power-up is collected exactly when the distance is below the radius.
   */
  lemma CollectionMatchesDistance(p: PowerUp, bird: Vec3, radius: real, distance: real)
    requires IsSqrt(DistSq(p, bird), distance)
    ensures CheckCollection(p, bird, radius).1 <==> !p.collected && distance < radius
  {
    BelowIffSquares(distance, radius);
  }

  /** `shouldRemove`: collected, or older than the maximum lifetime. */
  function ShouldRemove(p: PowerUp): (remove: bool)
    ensures p.collected ==> remove
    ensures !p.collected ==> (remove <==> p.lifetime > MaxLifetime)
  {
    p.collected || p.lifetime > MaxLifetime
  }

  /** `isExpiring`: within the warning time of the maximum lifetime, collected or not. */
  function IsExpiring(p: PowerUp): (expiring: bool)
    ensures expiring <==> p.lifetime > MaxLifetime - ExpiryWarning
    ensures p.lifetime > MaxLifetime ==> expiring
  {
    p.lifetime > MaxLifetime - ExpiryWarning
  }

  /** A power-up that is removed because it expired was already signalling it. */
  lemma ExpiryIsSignalled(p: PowerUp)
    requires ShouldRemove(p) && !p.collected
    ensures IsExpiring(p)
  {
  }

  /** One tick as the engine runs it: age, then test for collection by the bird. */
  function Tick(p: PowerUp, delta: real, bird: Vec3, radius: real): (PowerUp, bool) {
    CheckCollection(Update(p, delta), bird, radius)
  }

  /** How many ticks of a run, with the bird at the given places, report a collection. */
  function Collections(p: PowerUp, deltas: seq<real>, birds: seq<Vec3>, radius: real): nat
    requires |deltas| == |birds|
    decreases |deltas|
  {
    if |deltas| == 0 then 0
    else
      var step := Tick(p, deltas[0], birds[0], radius);
      (if step.1 then 1 else 0) + Collections(step.0, deltas[1..], birds[1..], radius)
  }

  lemma {:induction false} CollectedNeverAgain(p: PowerUp, deltas: seq<real>, birds: seq<Vec3>, radius: real)
    requires p.collected && |deltas| == |birds|
    ensures Collections(p, deltas, birds, radius) == 0
    decreases |deltas|
  {
    if |deltas| > 0 {
      CollectedNeverAgain(Tick(p, deltas[0], birds[0], radius).0, deltas[1..], birds[1..], radius);
    }
  }

  /** However the bird moves, a power-up is collected at most once. */
  lemma {:induction false} CollectedAtMostOnce(p: PowerUp, deltas: seq<real>, birds: seq<Vec3>, radius: real)
    requires |deltas| == |birds|
    ensures Collections(p, deltas, birds, radius) <= 1
    ensures p.collected ==> Collections(p, deltas, birds, radius) == 0
    decreases |deltas|
  {
    if p.collected {
      CollectedNeverAgain(p, deltas, birds, radius);
    } else if |deltas| > 0 {
      var step := Tick(p, deltas[0], birds[0], radius);
      if step.1 {
        CollectedNeverAgain(step.0, deltas[1..], birds[1..], radius);
      } else {
        CollectedAtMostOnce(step.0, deltas[1..], birds[1..], radius);
      }
    }
  }

  /**
   * A bird at least `radius` above the collection height is never within
   * `radius` of a power-up floating there, whatever its horizontal position.
   */
  lemma OutOfReachAbove(p: PowerUp, bird: Vec3, radius: real)
    requires p.position.y == CollectHeight && bird.y >= CollectHeight + radius
    ensures !CheckCollection(p, bird, radius).1
  {
    if 0.0 < radius {
      var dx, dy, dz := bird.x - p.position.x, bird.y - p.position.y, bird.z - p.position.z;
      SquareMonotone(radius, dy);
      SquareNonNeg(dx);
      SquareNonNeg(dz);
      assert DistSq(p, bird) == dx * dx + dy * dy + dz * dz;
    }
  }

  /**
   * As written, no bird can ever collect a power-up: power-ups float at height
   * 3, the collection radius is 3, and the lowest height band (the sparrow's)
   * starts at 8.
   */
  lemma NoBirdInItsBandCollects(p: PowerUp, kind: BirdTypes.BirdType, bird: Vec3)
    requires p.position.y == CollectHeight
    requires BirdTypes.Spec(kind).minHeight <= bird.y
    ensures !CheckCollection(p, bird, 3.0).1
  {
    OutOfReachAbove(p, bird, 3.0);
  }

  /** Squared distance from the power-up to a point, measured horizontally. */
  function PlanarDistSq(p: PowerUp, at: Vec3): real {
    (at.x - p.position.x) * (at.x - p.position.x) + (at.z - p.position.z) * (at.z - p.position.z)
  }

  /**
   * Collection as evidently intended: a bird that passes over the power-up,
   * strictly within `radius` of it horizontally and at whatever height, collects
   * it. Otherwise the same as `CheckCollection`.
   */
  function CheckCollectionOverhead(p: PowerUp, bird: Vec3, radius: real): (r: (PowerUp, bool))
    ensures r.1 <==> !p.collected && 0.0 < radius && PlanarDistSq(p, bird) < radius * radius
    ensures r.1 ==> r.0 == p.(collected := true)
    ensures !r.1 ==> r.0 == p
  {
    if p.collected then (p, false)
    else if 0.0 < radius && PlanarDistSq(p, bird) < radius * radius then (p.(collected := true), true)
    else (p, false)
  }

  /** At the power-up's own height, the overhead test is the source's test. */
  lemma OverheadAgreesAtSameHeight(p: PowerUp, bird: Vec3, radius: real)
    requires bird.y == p.position.y
    ensures CheckCollectionOverhead(p, bird, radius) == CheckCollection(p, bird, radius)
  {
    assert DistSq(p, bird) == PlanarDistSq(p, bird);
  }

  /**
   * With the overhead test every bird can collect: flying anywhere in its band
   * straight over an uncollected power-up collects it, where the source's test
   * never does.
   */
  lemma OverheadReachesEveryBand(p: PowerUp, kind: BirdTypes.BirdType, height: real)
    requires !p.collected && p.position.y == CollectHeight
    requires BirdTypes.Spec(kind).minHeight <= height <= BirdTypes.Spec(kind).maxHeight
    ensures var bird := Vec3(p.position.x, height, p.position.z);
            CheckCollectionOverhead(p, bird, 3.0).1 && !CheckCollection(p, bird, 3.0).1
  {
    var bird := Vec3(p.position.x, height, p.position.z);
    assert PlanarDistSq(p, bird) == 0.0;
    NoBirdInItsBandCollects(p, kind, bird);
  }
}
