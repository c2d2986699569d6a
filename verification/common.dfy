/** Fixed configuration of the game world, as declared in util/Constants.java. */
module Constants {
  /** Length of one round in seconds. */
  const GameDuration: real := 90.0
  /** Extent of the playing field along x and z. */
  const WorldWidth: real := 100.0
  const WorldHeight: real := 100.0
  /** Height of the ground plane. */
  const GroundLevel: real := 0.0
  /** Gravitational acceleration (units per second squared). */
  const Gravity: real := 9.8
  /** Largest wind speed a retarget can draw. */
  const MaxWindSpeed: real := 5.0
  /** Seconds between two wind retargets. */
  const WindChangeInterval: real := 10.0
}

/** The Some/None wrapper standing in for Java's nullable references. */
module Wrappers {
  datatype Option<+T> = None | Some(value: T)
}

/**
 * Three-component real vectors and the few numeric helpers the entities share.
 * Square roots are never computed: a caller supplies a `sqrt` function that is
 * only known to satisfy `IsSquareRoot`, which is all the model needs of Math.sqrt.
 */
module Vectors {

  datatype Vec3 = Vec3(x: real, y: real, z: real)

  const Zero: Vec3 := Vec3(0.0, 0.0, 0.0)

  function Add(a: Vec3, b: Vec3): Vec3 {
    Vec3(a.x + b.x, a.y + b.y, a.z + b.z)
  }

  function Scale(a: Vec3, k: real): Vec3 {
    Vec3(a.x * k, a.y * k, a.z * k)
  }

  /** libGDX `Vector3.lerp`: each component moves the fraction `alpha` of the way to `b`. */
  function Lerp(a: Vec3, b: Vec3, alpha: real): Vec3 {
    Vec3(a.x + alpha * (b.x - a.x), a.y + alpha * (b.y - a.y), a.z + alpha * (b.z - a.z))
  }

  /** Squared length of the horizontal (x, z) part. */
  function PlanarNormSq(v: Vec3): real {
    v.x * v.x + v.z * v.z
  }

  /** Squared length of the whole vector (libGDX `len2`). */
  function NormSq(v: Vec3): real {
    v.x * v.x + v.y * v.y + v.z * v.z
  }

  function Max(a: real, b: real): real {
    if a >= b then a else b
  }

  function Min(a: real, b: real): real {
    if a <= b then a else b
  }

  /** libGDX `MathUtils.clamp`; total, and a true clamp whenever `lo <= hi`. */
  function Clamp(v: real, lo: real, hi: real): (r: real)
    ensures lo <= hi ==> lo <= r <= hi
    ensures lo <= v <= hi ==> r == v
  {
    if v < lo then lo else if v > hi then hi else v
  }

  /**
   * The cosine and sine of a randomly drawn angle (libGDX `cosDeg`/`sinDeg` of
   * `MathUtils.random(360f)`), supplied by the caller.
   */
  datatype Heading = Heading(cos: real, sin: real)

  predicate IsUnit(h: Heading) {
    h.cos * h.cos + h.sin * h.sin == 1.0
  }

  /** The horizontal vector of length `speed` along heading `h`. */
  function Along(h: Heading, speed: real): (v: Vec3)
    ensures v.y == 0.0
    ensures IsUnit(h) ==> PlanarNormSq(v) == speed * speed
  {
    var v := Vec3(h.cos * speed, 0.0, h.sin * speed);
    var cc, ss, s2 := h.cos * h.cos, h.sin * h.sin, speed * speed;
    assert v.x * v.x == cc * s2;
    assert v.z * v.z == ss * s2;
    assert PlanarNormSq(v) == (cc + ss) * s2;
    v
  }

  /** Total of a run of time steps. */
  function Sum(xs: seq<real>): real {
    if |xs| == 0 then 0.0 else xs[0] + Sum(xs[1..])
  }

  /** Every time step of a run is non-negative. */
  predicate NonNegSteps(xs: seq<real>) {
    forall i :: 0 <= i < |xs| ==> 0.0 <= xs[i]
  }

  lemma {:induction false} SumNonNeg(xs: seq<real>)
    requires NonNegSteps(xs)
    ensures 0.0 <= Sum(xs)
  {
    if |xs| > 0 {
      SumNonNeg(xs[1..]);
    }
  }

  /** `r` is the non-negative square root of `x`. */
  predicate IsSqrt(x: real, r: real) {
    0.0 <= r && r * r == x
  }

  /** What the model assumes of Math.sqrt on the non-negative reals. */
  ghost predicate IsSquareRoot(sqrt: real -> real) {
    forall x :: 0.0 <= x ==> IsSqrt(x, sqrt(x))
  }

  /** A product of two non-negative numbers is non-negative. */
  lemma NonNegMul(x: real, y: real)
    requires 0.0 <= x && 0.0 <= y
    ensures 0.0 <= x * y
  {
  }

  /** A product of two positive numbers is positive. */
  lemma PosMul(x: real, y: real)
    requires 0.0 < x && 0.0 < y
    ensures 0.0 < x * y
  {
  }

  /** A square is never negative. */
  lemma SquareNonNeg(x: real)
    ensures 0.0 <= x * x
  {
    if x < 0.0 {
      var y := -x;
      NonNegMul(y, y);
      assert y * y == x * x;
    }
  }

  /** Squaring is monotone on the non-negative reals. */
  lemma SquareMonotone(a: real, b: real)
    requires 0.0 <= a <= b
    ensures a * a <= b * b
  {
    var d, s := b - a, b + a;
    var p := d * s;
    NonNegMul(d, s);
    assert p == b * b - a * a;
  }

  /** Squaring is strictly monotone on the non-negative reals. */
  lemma SquareStrictMonotone(a: real, b: real)
    requires 0.0 <= a < b
    ensures a * a < b * b
  {
    var d, s := b - a, b + a;
    var p := d * s;
    assert 0.0 < p;
    assert p == b * b - a * a;
  }

  /** Square roots preserve order. */
  lemma SqrtMonotone(x1: real, r1: real, x2: real, r2: real)
    requires IsSqrt(x1, r1) && IsSqrt(x2, r2)
    requires x1 <= x2
    ensures r1 <= r2
  {
    if r1 > r2 {
      SquareStrictMonotone(r2, r1);
    }
  }

  /**
   * Comparing a non-negative distance with a non-negative bound is the same as
   * comparing their squares.
   */
  lemma AtMostIffSquares(d: real, r: real)
    requires 0.0 <= d && 0.0 <= r
    ensures d <= r <==> d * d <= r * r
  {
    if d <= r {
      SquareMonotone(d, r);
    } else {
      SquareStrictMonotone(r, d);
    }
  }

  /** A strict bound on a non-negative distance: the bound must then be positive. */
  lemma BelowIffSquares(d: real, r: real)
    requires 0.0 <= d
    ensures d < r <==> 0.0 < r && d * d < r * r
  {
    if d < r {
      SquareStrictMonotone(d, r);
    } else if 0.0 < r {
      SquareMonotone(r, d);
    }
  }

  /** Twice a planar dot product is at most the sum of the squared lengths. */
  lemma DotBound(a: Vec3, b: Vec3)
    ensures 2.0 * (a.x * b.x + a.z * b.z) <= PlanarNormSq(a) + PlanarNormSq(b)
  {
    var dx, dz := a.x - b.x, a.z - b.z;
    var ddx, ddz := dx * dx, dz * dz;
    SquareNonNeg(dx);
    SquareNonNeg(dz);
    assert ddx + ddz == PlanarNormSq(a) + PlanarNormSq(b) - 2.0 * (a.x * b.x + a.z * b.z);
  }

  /** Squared planar length of a lerp, expanded in the weights. */
  lemma LerpNormExpanded(a: Vec3, b: Vec3, alpha: real, beta: real)
    requires beta == 1.0 - alpha
    ensures PlanarNormSq(Lerp(a, b, alpha))
         == (beta * beta) * PlanarNormSq(a)
          + 2.0 * (beta * alpha) * (a.x * b.x + a.z * b.z)
          + (alpha * alpha) * PlanarNormSq(b)
  {
    var c := Lerp(a, b, alpha);
    assert c.x == beta * a.x + alpha * b.x;
    assert c.z == beta * a.z + alpha * b.z;
  }

  /** The weighted bound at the heart of `LerpStaysInDisc`, on plain numbers. */
  lemma WeightedBound(bb: real, ab: real, aa: real, na: real, nb: real, dot: real, rr: real)
    requires 0.0 <= bb && 0.0 <= ab && 0.0 <= aa
    requires na <= rr && nb <= rr && 2.0 * dot <= na + nb
    requires bb + 2.0 * ab + aa == 1.0
    ensures bb * na + 2.0 * ab * dot + aa * nb <= rr
  {
    var e1, e2, e3 := bb * (rr - na), ab * (rr - dot), aa * (rr - nb);
    NonNegMul(bb, rr - na);
    NonNegMul(ab, rr - dot);
    NonNegMul(aa, rr - nb);
    var w := bb + 2.0 * ab + aa;
    assert e1 + 2.0 * e2 + e3 == w * rr - (bb * na + 2.0 * ab * dot + aa * nb);
  }

  /** The squared weights of a lerp add up to one. */
  lemma LerpWeightsSumToOne(alpha: real, beta: real)
    requires beta == 1.0 - alpha
    ensures beta * beta + 2.0 * (beta * alpha) + alpha * alpha == 1.0
  {
    assert beta * beta + 2.0 * (beta * alpha) + alpha * alpha == (beta + alpha) * (beta + alpha);
  }

  /** Flipping the signs of the horizontal components keeps the length. */
  lemma FlipsKeepNormSq(a: Vec3, b: Vec3)
    requires a.y == b.y
    requires b.x == a.x || b.x == -a.x
    requires b.z == a.z || b.z == -a.z
    ensures NormSq(b) == NormSq(a)
  {
    assert b.x * b.x == a.x * a.x;
    assert b.z * b.z == a.z * a.z;
  }

  /**
   * A convex combination of two vectors whose horizontal lengths are bounded by
   * `bound` is bounded by `bound` as well.
   */
  lemma LerpStaysInDisc(a: Vec3, b: Vec3, alpha: real, bound: real)
    requires PlanarNormSq(a) <= bound * bound && PlanarNormSq(b) <= bound * bound
    requires 0.0 <= alpha <= 1.0
    ensures PlanarNormSq(Lerp(a, b, alpha)) <= bound * bound
  {
    var beta := 1.0 - alpha;
    NonNegMul(beta, alpha);
    NonNegMul(beta, beta);
    NonNegMul(alpha, alpha);
    LerpWeightsSumToOne(alpha, beta);
    DotBound(a, b);
    LerpNormExpanded(a, b, alpha, beta);
    WeightedBound(beta * beta, beta * alpha, alpha * alpha, PlanarNormSq(a), PlanarNormSq(b),
                  a.x * b.x + a.z * b.z, bound * bound);
  }

}
