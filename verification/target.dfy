/**
 * A ground target (entities/Target.java): scored by the planar distance of a
 * landing from its position, showing its last hit for a while, and — for
 * people — wandering around the field and bouncing off its edges.
 */
module Targets {

  import opened Vectors
  import opened Constants
  import opened TargetTypes

  /** Seconds a hit stays displayed. */
  const HitDisplayDuration: real := 1.5
  /** Distance a moving target keeps from the edges of the world. */
  const Margin: real := 5.0
  /** `len2` threshold above which a target counts as moving. */
  const MovingThreshold: real := 0.01

  datatype Target = Target(
    kind: TargetType,
    position: Vec3,
    velocity: Vec3,
    hit: bool,
    hitTime: real,
    lastHitScore: int,
    lastHitZone: string)

  /**
   * The constructor, on the ground at (x, z). Only a person moves: along the
   * drawn heading, at the drawn speed (drawn from [1, 3] by the source).
   */
  function NewTarget(kind: TargetType, x: real, z: real, heading: Heading, speed: real): (t: Target)
    ensures t.kind == kind
    ensures t.position == Vec3(x, 0.0, z) && !t.hit && t.hitTime == 0.0
    ensures t.lastHitScore == 0 && t.lastHitZone == ""
    ensures kind != Person ==> t.velocity == Zero
    ensures kind == Person ==> t.velocity == Along(heading, speed)
  {
    var velocity := if kind == Person then Along(heading, speed) else Zero;
    Target(kind, Vec3(x, 0.0, z), velocity, false, 0.0, 0, "")
  }

  /** A person with a valid draw really does move; every other kind stands still. */
  lemma OnlyPeopleMove(kind: TargetType, x: real, z: real, heading: Heading, speed: real)
    requires IsUnit(heading) && 1.0 <= speed <= 3.0
    ensures IsMoving(NewTarget(kind, x, z, heading, speed)) <==> kind == Person
  {
    var t := NewTarget(kind, x, z, heading, speed);
    if kind == Person {
      SquareMonotone(1.0, speed);
    }
  }

  predicate IsMoving(t: Target) {
    Moves(t.velocity)
  }

  /** A velocity whose squared length exceeds the threshold. */
  predicate Moves(velocity: Vec3) {
    NormSq(velocity) > MovingThreshold
  }

  /** The interval a coordinate is kept in, for a world extent. */
  function Low(extent: real): real {
    -extent / 2.0 + Margin
  }

  function High(extent: real): real {
    extent / 2.0 - Margin
  }

  /** A coordinate and its speed along one axis. */
  datatype Axis = Axis(pos: real, vel: real)

  /** One axis of the bounce: a coordinate outside the interval is clamped back and its speed reversed. */
  function Bounce(pos: real, vel: real, lo: real, hi: real): (r: Axis)
    ensures pos < lo || pos > hi ==> r == Axis(Clamp(pos, lo, hi), -vel)
    ensures lo <= pos <= hi ==> r == Axis(pos, vel)
    ensures lo <= hi ==> lo <= r.pos <= hi
    ensures r.vel == vel || r.vel == -vel
  {
    if pos < lo || pos > hi then Axis(Clamp(pos, lo, hi), -vel) else Axis(pos, vel)
  }

  /** The hit-display part of `update`: a displayed hit ages, and is dropped once it is older than the duration. */
  function TickHit(t: Target, delta: real): (r: Target)
    ensures r == t.(hit := r.hit, hitTime := r.hitTime)
    ensures !t.hit ==> r == t
    ensures t.hit && t.hitTime + delta > HitDisplayDuration ==> !r.hit && r.hitTime == 0.0
    ensures t.hit && t.hitTime + delta <= HitDisplayDuration ==> r.hit && r.hitTime == t.hitTime + delta
  {
    if !t.hit then t
    else if t.hitTime + delta > HitDisplayDuration then t.(hit := false, hitTime := 0.0)
    else t.(hitTime := t.hitTime + delta)
  }

  /** Where a target is and how it moves. */
  datatype Motion = Motion(position: Vec3, velocity: Vec3)

  /** The motion `update` gives a target, as a function of its position and velocity alone. */
  function Move(position: Vec3, velocity: Vec3, delta: real, worldWidth: real, worldHeight: real): Motion {
    if !Moves(velocity) then Motion(position, velocity)
    else
      var bx := Bounce(position.x + velocity.x * delta, velocity.x, Low(worldWidth), High(worldWidth));
      var bz := Bounce(position.z + velocity.z * delta, velocity.z, Low(worldHeight), High(worldHeight));
      Motion(Vec3(bx.pos, position.y, bz.pos), Vec3(bx.vel, velocity.y, bz.vel))
  }

  /** `update`: age the hit display, then move the target if it moves. */
  function Update(t: Target, delta: real, worldWidth: real, worldHeight: real): (r: Target)
    ensures r.kind == t.kind && r.lastHitScore == t.lastHitScore && r.lastHitZone == t.lastHitZone
    ensures r.hit == TickHit(t, delta).hit && r.hitTime == TickHit(t, delta).hitTime
    // a standing target does not move
    ensures !IsMoving(t) ==> r.position == t.position && r.velocity == t.velocity
    // a moving target steps by velocity * delta, and each axis bounces on its own
    ensures IsMoving(t) ==>
              Axis(r.position.x, r.velocity.x)
              == Bounce(t.position.x + t.velocity.x * delta, t.velocity.x, Low(worldWidth), High(worldWidth))
    ensures IsMoving(t) ==>
              Axis(r.position.z, r.velocity.z)
              == Bounce(t.position.z + t.velocity.z * delta, t.velocity.z, Low(worldHeight), High(worldHeight))
    // so it ends up inside the world, less the margin
    ensures IsMoving(t) && Low(worldWidth) <= High(worldWidth) ==>
              Low(worldWidth) <= r.position.x <= High(worldWidth)
    ensures IsMoving(t) && Low(worldHeight) <= High(worldHeight) ==>
              Low(worldHeight) <= r.position.z <= High(worldHeight)
    ensures r.position.y == t.position.y && r.velocity.y == t.velocity.y
    // bouncing only flips signs, so the speed is kept
    ensures (r.velocity.x == t.velocity.x || r.velocity.x == -t.velocity.x)
    ensures (r.velocity.z == t.velocity.z || r.velocity.z == -t.velocity.z)
    ensures NormSq(r.velocity) == NormSq(t.velocity)
  {
    var shown := TickHit(t, delta);
    if !IsMoving(t) then shown
    else
      var m := Move(t.position, t.velocity, delta, worldWidth, worldHeight);
      FlipsKeepNormSq(t.velocity, m.velocity);
      shown.(position := m.position, velocity := m.velocity)
  }

  /**
   * How a target moves depends only on where it is and how fast it goes: the
   * hit display, score and zone it shows play no part.
   */
  lemma MotionDependsOnlyOnKinematics(a: Target, b: Target, delta: real, worldWidth: real, worldHeight: real)
    requires a.position == b.position && a.velocity == b.velocity
    ensures Update(a, delta, worldWidth, worldHeight).position == Update(b, delta, worldWidth, worldHeight).position
    ensures Update(a, delta, worldWidth, worldHeight).velocity == Update(b, delta, worldWidth, worldHeight).velocity
  {
    if IsMoving(a) {
      assert IsMoving(b);
    }
  }

  /** In the game's own world, a moving target stays at least the margin away from every edge. */
  lemma MovingTargetsStayInWorld(t: Target, delta: real)
    requires IsMoving(t)
    ensures var r := Update(t, delta, WorldWidth, WorldHeight);
            -WorldWidth / 2.0 + Margin <= r.position.x <= WorldWidth / 2.0 - Margin
            && -WorldHeight / 2.0 + Margin <= r.position.z <= WorldHeight / 2.0 - Margin
  {
  }

  /** Squared planar distance from the target to the point (x, z). */
  function PlanarDistSq(t: Target, x: real, z: real): real {
    (x - t.position.x) * (x - t.position.x) + (z - t.position.z) * (z - t.position.z)
  }

  /**
   * `checkHit`: the ring score of a landing at (x, z). A scoring landing
   * marks the target hit, restarts its display and records the score and
   * zone; a miss changes nothing. The target never moves.
   */
  function CheckHit(t: Target, x: real, z: real): (r: (Target, int))
    ensures 0 <= r.1
    ensures r.1 == ScoreForSquaredDistance(t.kind, PlanarDistSq(t, x, z))
    ensures r.1 == 0 ==> r.0 == t
    ensures r.1 > 0 ==>
              r.0 == t.(hit := true, hitTime := 0.0, lastHitScore := r.1,
                        lastHitZone := ZoneForSquaredDistance(t.kind, PlanarDistSq(t, x, z)))
    ensures r.1 > 0 <==> PlanarDistSq(t, x, z) <= Spec(t.kind).outerRadius * Spec(t.kind).outerRadius
  {
    var d2 := PlanarDistSq(t, x, z);
    var score := ScoreForSquaredDistance(t.kind, d2);
    if score > 0 then
      (t.(hit := true, hitTime := 0.0, lastHitScore := score, lastHitZone := ZoneForSquaredDistance(t.kind, d2)), score)
    else
      (t, score)
  }

  /**
   * Measured by the planar distance itself, as the source computes it: the
   * score is the type's ring score of that distance, and the recorded zone
   * its ring label.
   */
  lemma CheckHitScoresDistance(t: Target, x: real, z: real, distance: real)
    requires IsSqrt(PlanarDistSq(t, x, z), distance)
    ensures CheckHit(t, x, z).1 == ScoreForDistance(t.kind, distance)
    ensures CheckHit(t, x, z).1 > 0 ==>
              CheckHit(t, x, z).0.lastHitZone == ZoneForDistance(t.kind, distance)
    ensures CheckHit(t, x, z).1 > 0 <==> distance <= Spec(t.kind).outerRadius
  {
    SquaredLookupAgrees(t.kind, PlanarDistSq(t, x, z), distance);
  }
}
