/**
 * Stateless ballistic math (physics/ProjectileCalculator.java): fall time,
 * landing point, a sampled trajectory and the horizontal range of a drop from
 * rest under constant gravity.
 */
module ProjectileCalculator {

  import opened Vectors
  import opened Constants

  /** Height of a point above the ground plane. */
  function HeightAboveGround(p: Vec3): real {
    p.y - GroundLevel
  }

  /**
   * `calculateFallTime`: how long a drop from rest takes to fall `height`, so
   * that half of gravity times the time squared is exactly the height.
   */
  function FallTime(height: real, sqrt: real -> real): (t: real)
    requires IsSquareRoot(sqrt)
    ensures 0.0 <= t
    ensures height <= 0.0 ==> t == 0.0
    ensures 0.0 < height ==> 0.5 * Gravity * (t * t) == height
  {
    if height <= 0.0 then 0.0 else sqrt(2.0 * height / Gravity)
  }

  /** A higher drop never lands sooner. */
  lemma FallTimeMonotone(h1: real, h2: real, sqrt: real -> real)
    requires IsSquareRoot(sqrt)
    requires h1 <= h2
    ensures FallTime(h1, sqrt) <= FallTime(h2, sqrt)
  {
    if 0.0 < h1 {
      SqrtMonotone(2.0 * h1 / Gravity, FallTime(h1, sqrt), 2.0 * h2 / Gravity, FallTime(h2, sqrt));
    }
  }

  /**
   * Where a body released at `drop` with horizontal velocity `velocity`
   * (and no vertical speed) is after `t` seconds, before any ground contact.
   */
  function FreeFall(drop: Vec3, velocity: Vec3, t: real): Vec3 {
    Vec3(drop.x + velocity.x * t, drop.y - 0.5 * Gravity * (t * t), drop.z + velocity.z * t)
  }

  /**
   * `calculateLandingPosition`: on the ground, displaced horizontally by the
   * velocity times the fall time; a drop from at or below the ground lands
   * straight below.
   */
  function LandingPosition(drop: Vec3, velocity: Vec3, sqrt: real -> real): (r: Vec3)
    requires IsSquareRoot(sqrt)
    ensures r.y == GroundLevel
    ensures HeightAboveGround(drop) <= 0.0 ==> r.x == drop.x && r.z == drop.z
    ensures 0.0 < HeightAboveGround(drop) ==>
              var t := FallTime(HeightAboveGround(drop), sqrt);
              r == FreeFall(drop, velocity, t) && FreeFall(drop, velocity, t).y == GroundLevel
  {
    var height := HeightAboveGround(drop);
    if height <= 0.0 then
      Vec3(drop.x, GroundLevel, drop.z)
    else
      var t := FallTime(height, sqrt);
      var f := FreeFall(drop, velocity, t);
      assert f.y == GroundLevel by {
        var fall := 0.5 * Gravity * (t * t);
        assert fall == height;
      }
      var r := Vec3(drop.x + velocity.x * t, GroundLevel, drop.z + velocity.z * t);
      assert r == f;
      r
  }

  /** One trajectory sample: the free-fall point with its height floored at the ground. */
  function SamplePoint(drop: Vec3, velocity: Vec3, t: real): (p: Vec3)
    ensures p.y >= GroundLevel
  {
    var f := FreeFall(drop, velocity, t);
    Vec3(f.x, Max(GroundLevel, f.y), f.z)
  }

  /** The time of sample `i` when `n` samples span `[0, total]` evenly. */
  function SampleTime(total: real, n: int, i: int): real
    requires n >= 2
  {
    (total / (n - 1) as real) * i as real
  }

  lemma LastSampleTime(total: real, n: int)
    requires n >= 2
    ensures SampleTime(total, n, n - 1) == total
  {
    var k := (n - 1) as real;
    assert (total / k) * k == total;
  }

  /**
   * `calculateTrajectoryPoints`: `numPoints` samples, evenly spaced in time
   * from the release to the fall time. A single sample is not modelled, since
   * the source divides by `numPoints - 1`.
   */
  method TrajectoryPoints(drop: Vec3, velocity: Vec3, numPoints: int, sqrt: real -> real)
    returns (points: seq<Vec3>)
    requires IsSquareRoot(sqrt)
    requires numPoints == 0 || numPoints >= 2
    ensures |points| == numPoints
    ensures forall i :: 0 <= i < |points| ==> points[i].y >= GroundLevel
    ensures forall i :: 0 <= i < |points| ==>
              points[i] == SamplePoint(drop, velocity, SampleTime(FallTime(HeightAboveGround(drop), sqrt), numPoints, i))
    ensures numPoints >= 2 ==> points[0] == Vec3(drop.x, Max(GroundLevel, drop.y), drop.z)
    ensures numPoints >= 2 ==> points[numPoints - 1] == LandingPosition(drop, velocity, sqrt)
  {
    var total := FallTime(HeightAboveGround(drop), sqrt);
    points := [];
    var i := 0;
    while i < numPoints
      invariant 0 <= i <= numPoints
      invariant |points| == i
      invariant forall k :: 0 <= k < i ==> points[k] == SamplePoint(drop, velocity, SampleTime(total, numPoints, k))
    {
      var t := (total / (numPoints - 1) as real) * i as real;
      assert t == SampleTime(total, numPoints, i);
      points := points + [SamplePoint(drop, velocity, t)];
      i := i + 1;
    }
    if numPoints >= 2 {
      LastSampleTime(total, numPoints);
      assert SampleTime(total, numPoints, 0) == 0.0;
    }
  }

  /** `calculateHorizontalDistance`: horizontal speed times fall time. */
  function HorizontalDistance(height: real, velocity: Vec3, sqrt: real -> real): (d: real)
    requires IsSquareRoot(sqrt)
    ensures 0.0 <= d
    ensures height <= 0.0 ==> d == 0.0
  {
    var speed := sqrt(PlanarNormSq(velocity));
    SquareNonNeg(velocity.x);
    SquareNonNeg(velocity.z);
    NonNegMul(speed, FallTime(height, sqrt));
    speed * FallTime(height, sqrt)
  }

  /**
   * The horizontal distance is the planar length of the displacement from the
   * release point to the landing point.
   */
  lemma HorizontalDistanceIsLandingOffset(drop: Vec3, velocity: Vec3, sqrt: real -> real)
    requires IsSquareRoot(sqrt)
    ensures var landing := LandingPosition(drop, velocity, sqrt);
            IsSqrt(PlanarNormSq(Vec3(landing.x - drop.x, 0.0, landing.z - drop.z)),
                   HorizontalDistance(HeightAboveGround(drop), velocity, sqrt))
  {
    var landing := LandingPosition(drop, velocity, sqrt);
    var t := FallTime(HeightAboveGround(drop), sqrt);
    var n := PlanarNormSq(velocity);
    SquareNonNeg(velocity.x);
    SquareNonNeg(velocity.z);
    var s := sqrt(n);
    var d := HorizontalDistance(HeightAboveGround(drop), velocity, sqrt);
    assert d == s * t;
    var dx, dz := landing.x - drop.x, landing.z - drop.z;
    assert dx == velocity.x * t && dz == velocity.z * t;
    var tt, ss := t * t, s * s;
    assert ss == n;
    assert d * d == ss * tt;
    assert dx * dx == velocity.x * velocity.x * tt;
    assert dz * dz == velocity.z * velocity.z * tt;
    assert dx * dx + dz * dz == n * tt;
  }
}
