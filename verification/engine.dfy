/**
 * The per-tick orchestrator (physics/PhysicsEngine.java). It owns the wind,
 * the live poops, the targets and the power-ups, and shares the round's game
 * state. One tick updates, in this order, the wind, the bird (which sees the
 * new wind), the poops (scoring each one on the tick it lands), the targets and
 * the power-ups (collected against the bird's new position).
 *
 * The source walks the poop and power-up arrays from the last index down to
 * the first, removing entries in place; the passes below do the same, taking
 * the last element first, and are related to front-to-back reference
 * definitions (`Survivors`, `LandingPoints`, ...) by their contracts.
 */
module Engines {

  import opened Vectors
  import opened Constants
  import opened Wrappers
  import WindModel
  import Poops
  import Targets
  import PowerUps
  import Birds
  import GameStates
  import ProjectileCalculator
  import TargetTypes
  import BirdTypes

  /** How close the bird must come to a power-up to collect it. */
  const PowerUpCollectRadius: real := 3.0

  /** The engine's state; the bird is passed to each tick, as in the source. */
  datatype Engine = Engine(
    wind: WindModel.Wind,
    poops: seq<Poops.Poop>,
    targets: seq<Targets.Target>,
    powerUps: seq<PowerUps.PowerUp>,
    game: GameStates.GameState)

  /** The constructor: a fresh wind and no entities, sharing the given game state. */
  function NewEngine(game: GameStates.GameState, draw: WindModel.WindDraw): (e: Engine)
    ensures e.poops == [] && e.targets == [] && e.powerUps == [] && e.game == game
    ensures e.wind == WindModel.NewWind(draw)
  {
    Engine(WindModel.NewWind(draw), [], [], [], game)
  }

  // ---------------------------------------------------------------------------
  // Scoring a landing
  // ---------------------------------------------------------------------------

  /** Points a landing at (x, z) is worth against the targets: the sum of their ring scores. */
  function TotalScore(ts: seq<Targets.Target>, x: real, z: real): int
    decreases |ts|
  {
    if |ts| == 0 then 0
    else
      TargetTypes.ScoreForSquaredDistance(ts[0].kind, Targets.PlanarDistSq(ts[0], x, z))
      + TotalScore(ts[1..], x, z)
  }

  /** How many targets a landing at (x, z) scores on. */
  function InReach(ts: seq<Targets.Target>, x: real, z: real): nat
    decreases |ts|
  {
    if |ts| == 0 then 0
    else
      (if TargetTypes.ScoreForSquaredDistance(ts[0].kind, Targets.PlanarDistSq(ts[0], x, z)) > 0 then 1 else 0)
      + InReach(ts[1..], x, z)
  }

  /** The same sum, measured by the planar distances themselves, as the source computes them. */
  function TotalScoreByDistance(ts: seq<Targets.Target>, x: real, z: real, sqrt: real -> real): int
    decreases |ts|
  {
    if |ts| == 0 then 0
    else
      TargetTypes.ScoreForDistance(ts[0].kind, sqrt(Targets.PlanarDistSq(ts[0], x, z)))
      + TotalScoreByDistance(ts[1..], x, z, sqrt)
  }

  lemma {:induction false} TotalScoreIsByDistance(ts: seq<Targets.Target>, x: real, z: real, sqrt: real -> real)
    requires IsSquareRoot(sqrt)
    ensures TotalScore(ts, x, z) == TotalScoreByDistance(ts, x, z, sqrt)
    decreases |ts|
  {
    if |ts| > 0 {
      var d2 := Targets.PlanarDistSq(ts[0], x, z);
      SquareNonNeg(x - ts[0].position.x);
      SquareNonNeg(z - ts[0].position.z);
      TargetTypes.SquaredLookupAgrees(ts[0].kind, d2, sqrt(d2));
      TotalScoreIsByDistance(ts[1..], x, z, sqrt);
    }
  }

  /**
   * Two target lists that agree on every kind, position and velocity: they
   * differ at most in their hit displays, which neither scoring nor motion
   * depends on.
   */
  predicate SameLayout(a: seq<Targets.Target>, b: seq<Targets.Target>) {
    && |a| == |b|
    && forall i :: 0 <= i < |a| ==>
         a[i].kind == b[i].kind && a[i].position == b[i].position && a[i].velocity == b[i].velocity
  }

  lemma {:induction false} ScoreDependsOnlyOnLayout(a: seq<Targets.Target>, b: seq<Targets.Target>, x: real, z: real)
    requires SameLayout(a, b)
    ensures TotalScore(a, x, z) == TotalScore(b, x, z)
    ensures InReach(a, x, z) == InReach(b, x, z)
    decreases |a|
  {
    if |a| > 0 {
      assert SameLayout(a[1..], b[1..]) by {
        forall i | 0 <= i < |a[1..]|
          ensures a[1..][i].kind == b[1..][i].kind && a[1..][i].position == b[1..][i].position
                  && a[1..][i].velocity == b[1..][i].velocity
        {
          assert a[1..][i] == a[i + 1] && b[1..][i] == b[i + 1];
        }
      }
      assert Targets.PlanarDistSq(a[0], x, z) == Targets.PlanarDistSq(b[0], x, z);
      ScoreDependsOnlyOnLayout(a[1..], b[1..], x, z);
    }
  }

  /** Every target asked for its score at (x, z), each marked if it scores. */
  function CheckAll(ts: seq<Targets.Target>, x: real, z: real): seq<Targets.Target> {
    seq(|ts|, i requires 0 <= i < |ts| => Targets.CheckHit(ts[i], x, z).0)
  }

  datatype HitResult = HitResult(targets: seq<Targets.Target>, total: int, game: GameStates.GameState)

  /**
   * The loop of `checkPoopHits`: ask every target, front to back, for its
   * score; each scoring target adds to the total and counts one hit.
   */
  function HitPass(ts: seq<Targets.Target>, x: real, z: real, g: GameStates.GameState): (r: HitResult)
    ensures |r.targets| == |ts|
    ensures forall i :: 0 <= i < |ts| ==> r.targets[i] == Targets.CheckHit(ts[i], x, z).0
    ensures r.targets == CheckAll(ts, x, z)
    ensures SameLayout(r.targets, ts)
    ensures r.total == TotalScore(ts, x, z) && 0 <= r.total
    ensures r.game == g.(hitCount := g.hitCount + InReach(ts, x, z))
    ensures r.total == 0 <==> InReach(ts, x, z) == 0
    decreases |ts|
  {
    if |ts| == 0 then HitResult([], 0, g)
    else
      var (t, score) := Targets.CheckHit(ts[0], x, z);
      var g' := if score > 0 then GameStates.IncrementHitCount(g) else g;
      var rest := HitPass(ts[1..], x, z, g');
      assert forall i :: 1 <= i < |ts| ==> ts[1..][i - 1] == ts[i];
      HitResult([t] + rest.targets, (if score > 0 then score else 0) + rest.total, rest.game)
  }

  /**
   * `checkPoopHits`: score the poop's landing point against all targets, mark
   * and count every scoring target as a hit, and add the summed points in one
   * go, only when they are positive. No target moves.
   */
  function CheckPoopHits(p: Poops.Poop, ts: seq<Targets.Target>, g: GameStates.GameState)
    : (r: (seq<Targets.Target>, GameStates.GameState))
    ensures |r.0| == |ts|
    ensures forall i :: 0 <= i < |ts| ==> r.0[i] == Targets.CheckHit(ts[i], Poops.LandingX(p), Poops.LandingZ(p)).0
    ensures SameLayout(r.0, ts)
    ensures r.1 == g.(score := r.1.score, hitCount := r.1.hitCount)
    ensures r.1.score == g.score + TotalScore(ts, Poops.LandingX(p), Poops.LandingZ(p))
    ensures r.1.hitCount == g.hitCount + InReach(ts, Poops.LandingX(p), Poops.LandingZ(p))
  {
    var h := HitPass(ts, Poops.LandingX(p), Poops.LandingZ(p), g);
    (h.targets, if h.total > 0 then GameStates.AddScore(h.game, h.total) else h.game)
  }

  // ---------------------------------------------------------------------------
  // The poop pass
  // ---------------------------------------------------------------------------

  /** What is left of one poop after a tick: its update, unless that is due for removal. */
  function Survivor(p: Poops.Poop, delta: real): seq<Poops.Poop> {
    var q := Poops.Update(p, delta);
    if Poops.ShouldRemove(q) then [] else [q]
  }

  /** Reference: every poop updated once, the ones due for removal dropped, the rest in order. */
  function Survivors(ps: seq<Poops.Poop>, delta: real): seq<Poops.Poop>
    decreases |ps|
  {
    if |ps| == 0 then [] else Survivor(ps[0], delta) + Survivors(ps[1..], delta)
  }

  /** Points one poop earns on this tick: those of its landing point, if it lands now. */
  function PoopPoints(p: Poops.Poop, ts: seq<Targets.Target>, delta: real): int {
    var q := Poops.Update(p, delta);
    if Poops.LandsOn(p, delta) then TotalScore(ts, Poops.LandingX(q), Poops.LandingZ(q)) else 0
  }

  /** Hits one poop scores on this tick. */
  function PoopHits(p: Poops.Poop, ts: seq<Targets.Target>, delta: real): nat {
    var q := Poops.Update(p, delta);
    if Poops.LandsOn(p, delta) then InReach(ts, Poops.LandingX(q), Poops.LandingZ(q)) else 0
  }

  /** Reference: the points all poops landing on this tick earn against the targets as they stand. */
  function LandingPoints(ps: seq<Poops.Poop>, ts: seq<Targets.Target>, delta: real): int
    decreases |ps|
  {
    if |ps| == 0 then 0 else PoopPoints(ps[0], ts, delta) + LandingPoints(ps[1..], ts, delta)
  }

  function LandingHits(ps: seq<Poops.Poop>, ts: seq<Targets.Target>, delta: real): nat
    decreases |ps|
  {
    if |ps| == 0 then 0 else PoopHits(ps[0], ts, delta) + LandingHits(ps[1..], ts, delta)
  }

  /** Splitting off the last poop, which is where the source's backward loop starts. */
  lemma {:induction false} SplitLast(ps: seq<Poops.Poop>, ts: seq<Targets.Target>, delta: real)
    requires |ps| > 0
    ensures var init, last := ps[..|ps| - 1], ps[|ps| - 1];
            && Survivors(ps, delta) == Survivors(init, delta) + Survivor(last, delta)
            && LandingPoints(ps, ts, delta) == LandingPoints(init, ts, delta) + PoopPoints(last, ts, delta)
            && LandingHits(ps, ts, delta) == LandingHits(init, ts, delta) + PoopHits(last, ts, delta)
    decreases |ps|
  {
    if |ps| > 1 {
      var tail := ps[1..];
      assert tail[..|tail| - 1] == ps[..|ps| - 1][1..];
      assert tail[|tail| - 1] == ps[|ps| - 1];
      SplitLast(tail, ts, delta);
      assert ps[..|ps| - 1] == [ps[0]] + tail[..|tail| - 1];
      assert ps[..|ps| - 1][0] == ps[0];
    } else {
      assert ps[..|ps| - 1] == [];
    }
  }

  lemma {:induction false} LandingsDependOnlyOnLayout(ps: seq<Poops.Poop>, a: seq<Targets.Target>, b: seq<Targets.Target>, delta: real)
    requires SameLayout(a, b)
    ensures LandingPoints(ps, a, delta) == LandingPoints(ps, b, delta)
    ensures LandingHits(ps, a, delta) == LandingHits(ps, b, delta)
    decreases |ps|
  {
    if |ps| > 0 {
      var q := Poops.Update(ps[0], delta);
      ScoreDependsOnlyOnLayout(a, b, Poops.LandingX(q), Poops.LandingZ(q));
      LandingsDependOnlyOnLayout(ps[1..], a, b, delta);
    }
  }

  /** The targets after one poop's update: marked at its landing point if it lands now. */
  function Mark(ts: seq<Targets.Target>, p: Poops.Poop, delta: real): seq<Targets.Target> {
    var q := Poops.Update(p, delta);
    if Poops.LandsOn(p, delta) then CheckAll(ts, Poops.LandingX(q), Poops.LandingZ(q)) else ts
  }

  /**
   * Reference: the targets after all poops' landings on this tick. The first
   * poop's landing is applied last, because the source visits it last.
   */
  function Marked(ts: seq<Targets.Target>, ps: seq<Poops.Poop>, delta: real): seq<Targets.Target>
    decreases |ps|
  {
    if |ps| == 0 then ts else Mark(Marked(ts, ps[1..], delta), ps[0], delta)
  }

  /** Marking keeps every target where it is, moving as it moves. */
  lemma {:induction false} MarkedKeepsLayout(ts: seq<Targets.Target>, ps: seq<Poops.Poop>, delta: real)
    ensures SameLayout(Marked(ts, ps, delta), ts)
    decreases |ps|
  {
    if |ps| > 0 {
      MarkedKeepsLayout(ts, ps[1..], delta);
    }
  }

  /** Marking starts from the last poop, which is where the source's backward loop starts. */
  lemma {:induction false} MarkedSplitLast(ts: seq<Targets.Target>, ps: seq<Poops.Poop>, delta: real)
    requires |ps| > 0
    ensures Marked(ts, ps, delta) == Marked(Mark(ts, ps[|ps| - 1], delta), ps[..|ps| - 1], delta)
    decreases |ps|
  {
    if |ps| > 1 {
      var tail := ps[1..];
      MarkedSplitLast(ts, tail, delta);
      assert tail[..|tail| - 1] == ps[..|ps| - 1][1..];
      assert tail[|tail| - 1] == ps[|ps| - 1];
      assert ps[..|ps| - 1][0] == ps[0];
    } else {
      assert ps[..|ps| - 1] == [];
    }
  }

  datatype PoopResult = PoopResult(kept: seq<Poops.Poop>, targets: seq<Targets.Target>, game: GameStates.GameState)

  /**
   * `updatePoops`: from the last poop to the first, update it, score it if it
   * went from airborne to landed on this update, and drop it if it is due for
   * removal. The kept poops are exactly the reference survivors, in their
   * original order; the score and hit counter grow by exactly what the
   * landings earn against the targets' layout.
   */
  function PoopPass(ps: seq<Poops.Poop>, ts: seq<Targets.Target>, g: GameStates.GameState, delta: real)
    : (r: PoopResult)
    ensures r.kept == Survivors(ps, delta)
    ensures r.targets == Marked(ts, ps, delta)
    ensures SameLayout(r.targets, ts)
    ensures r.game == g.(score := r.game.score, hitCount := r.game.hitCount)
    ensures r.game.score == g.score + LandingPoints(ps, ts, delta)
    ensures r.game.hitCount == g.hitCount + LandingHits(ps, ts, delta)
    decreases |ps|
  {
    if |ps| == 0 then PoopResult([], ts, g)
    else
      var init, last := ps[..|ps| - 1], ps[|ps| - 1];
      var p := Poops.Update(last, delta);
      var hit := if Poops.LandsOn(last, delta) then CheckPoopHits(p, ts, g) else (ts, g);
      var rest := PoopPass(init, hit.0, hit.1, delta);
      SplitLast(ps, ts, delta);
      MarkedSplitLast(ts, ps, delta);
      LandingsDependOnlyOnLayout(init, hit.0, ts, delta);
      PoopResult(rest.kept + (if Poops.ShouldRemove(p) then [] else [p]), rest.targets, rest.game)
  }

  /** The points this tick's landings add are never negative. */
  lemma {:induction false} LandingPointsNonNeg(ps: seq<Poops.Poop>, ts: seq<Targets.Target>, delta: real)
    ensures 0 <= LandingPoints(ps, ts, delta)
    decreases |ps|
  {
    if |ps| > 0 {
      var q := Poops.Update(ps[0], delta);
      var h := HitPass(ts, Poops.LandingX(q), Poops.LandingZ(q), GameStates.Reset());
      LandingPointsNonNeg(ps[1..], ts, delta);
    }
  }

  /** A tick in which no poop lands adds no points and no hits. */
  lemma {:induction false} NoLandingNoScore(ps: seq<Poops.Poop>, ts: seq<Targets.Target>, delta: real)
    requires forall i :: 0 <= i < |ps| ==> !Poops.LandsOn(ps[i], delta)
    ensures LandingPoints(ps, ts, delta) == 0 && LandingHits(ps, ts, delta) == 0
    decreases |ps|
  {
    if |ps| > 0 {
      assert forall i :: 0 <= i < |ps[1..]| ==> ps[1..][i] == ps[i + 1];
      NoLandingNoScore(ps[1..], ts, delta);
    }
  }

  // ---------------------------------------------------------------------------
  // Targets and power-ups
  // ---------------------------------------------------------------------------

  /** `updateTargets`: every target updated once, in the game's own world. */
  function UpdateTargets(ts: seq<Targets.Target>, delta: real): (r: seq<Targets.Target>)
    ensures |r| == |ts|
    ensures forall i :: 0 <= i < |ts| ==> r[i] == Targets.Update(ts[i], delta, WorldWidth, WorldHeight)
    ensures forall i :: 0 <= i < |ts| ==> r[i].kind == ts[i].kind
    ensures forall i :: 0 <= i < |ts| && Targets.IsMoving(ts[i]) ==>
              -WorldWidth / 2.0 + Targets.Margin <= r[i].position.x <= WorldWidth / 2.0 - Targets.Margin
              && -WorldHeight / 2.0 + Targets.Margin <= r[i].position.z <= WorldHeight / 2.0 - Targets.Margin
    ensures forall i :: 0 <= i < |ts| && !Targets.IsMoving(ts[i]) ==> r[i].position == ts[i].position
    decreases |ts|
  {
    if |ts| == 0 then []
    else
      var rest := UpdateTargets(ts[1..], delta);
      assert forall i :: 1 <= i < |ts| ==> ts[1..][i - 1] == ts[i];
      [Targets.Update(ts[0], delta, WorldWidth, WorldHeight)] + rest
  }

  /** `applyPowerUp`: only a cooldown reduction has an effect, on the bird's multiplier. */
  function ApplyPowerUp(b: Birds.Bird, kind: PowerUps.PowerUpKind): (r: Birds.Bird)
    ensures r == b.(cooldownMultiplier := r.cooldownMultiplier)
    ensures kind == PowerUps.CooldownReduction ==> r.cooldownMultiplier == Max(0.3, b.cooldownMultiplier - 0.3)
    ensures kind != PowerUps.CooldownReduction ==> r == b
  {
    match kind
    case CooldownReduction => Birds.ApplyCooldownReduction(b, PowerUps.CooldownReductionOf(kind))
    case DoublePoints => b
    case MultiPoop => b
  }

  /** What is left of one power-up after a tick, with the bird at `at`. */
  function PowerUpSurvivor(u: PowerUps.PowerUp, at: Vec3, delta: real): seq<PowerUps.PowerUp> {
    var step := PowerUps.Tick(u, delta, at, PowerUpCollectRadius);
    if PowerUps.ShouldRemove(step.0) then [] else [step.0]
  }

  /** Reference: the power-ups neither collected nor expired on this tick, in order. */
  function PowerUpSurvivors(us: seq<PowerUps.PowerUp>, at: Vec3, delta: real): seq<PowerUps.PowerUp>
    decreases |us|
  {
    if |us| == 0 then [] else PowerUpSurvivor(us[0], at, delta) + PowerUpSurvivors(us[1..], at, delta)
  }

  /** 1 when this tick collects a cooldown reduction for the bird at `at`, else 0. */
  function ReductionOf(u: PowerUps.PowerUp, at: Vec3, delta: real): nat {
    var step := PowerUps.Tick(u, delta, at, PowerUpCollectRadius);
    if step.1 && u.kind == PowerUps.CooldownReduction then 1 else 0
  }

  /** Reference: how many cooldown reductions the bird at `at` collects on this tick. */
  function ReductionsCollected(us: seq<PowerUps.PowerUp>, at: Vec3, delta: real): nat
    decreases |us|
  {
    if |us| == 0 then 0 else ReductionOf(us[0], at, delta) + ReductionsCollected(us[1..], at, delta)
  }

  /** The bird after `k` cooldown reductions. */
  function Reduced(b: Birds.Bird, k: nat): Birds.Bird
    decreases k
  {
    if k == 0 then b else Reduced(Birds.ApplyCooldownReduction(b, 0.3), k - 1)
  }

  /** Reductions only touch the multiplier, and keep it within [0.3, 1]. */
  lemma {:induction false} ReducedOnlyTouchesMultiplier(b: Birds.Bird, k: nat)
    ensures Reduced(b, k) == b.(cooldownMultiplier := Reduced(b, k).cooldownMultiplier)
    ensures Birds.MultiplierInRange(b) ==> Birds.MultiplierInRange(Reduced(b, k))
    decreases k
  {
    if k > 0 {
      var b' := Birds.ApplyCooldownReduction(b, 0.3);
      if Birds.MultiplierInRange(b) {
        Birds.MultiplierStaysInRange(b, 0.3);
      }
      ReducedOnlyTouchesMultiplier(b', k - 1);
    }
  }

  lemma {:induction false} SplitLastPowerUp(us: seq<PowerUps.PowerUp>, at: Vec3, delta: real)
    requires |us| > 0
    ensures var init, last := us[..|us| - 1], us[|us| - 1];
            && PowerUpSurvivors(us, at, delta) == PowerUpSurvivors(init, at, delta) + PowerUpSurvivor(last, at, delta)
            && ReductionsCollected(us, at, delta) == ReductionsCollected(init, at, delta) + ReductionOf(last, at, delta)
    decreases |us|
  {
    if |us| > 1 {
      var tail := us[1..];
      assert tail[..|tail| - 1] == us[..|us| - 1][1..];
      assert tail[|tail| - 1] == us[|us| - 1];
      SplitLastPowerUp(tail, at, delta);
      assert us[..|us| - 1] == [us[0]] + tail[..|tail| - 1];
      assert us[..|us| - 1][0] == us[0];
    } else {
      assert us[..|us| - 1] == [];
    }
  }

  /** Every power-up floats at the collection height, where the constructor puts it. */
  predicate Float(us: seq<PowerUps.PowerUp>) {
    forall i :: 0 <= i < |us| ==> us[i].position.y == PowerUps.CollectHeight
  }

  /** Ageing and collection never move a power-up, so the survivors still float. */
  lemma {:induction false} SurvivorsFloat(us: seq<PowerUps.PowerUp>, at: Vec3, delta: real)
    requires Float(us)
    ensures Float(PowerUpSurvivors(us, at, delta))
    decreases |us|
  {
    if |us| > 0 {
      assert Float(us[1..]) by {
        assert forall i :: 0 <= i < |us[1..]| ==> us[1..][i] == us[i + 1];
      }
      SurvivorsFloat(us[1..], at, delta);
    }
  }

  /**
   * As written, a bird in its height band collects nothing: every power-up
   * floats 3 units up, the collection radius is 3, and every band starts at 8
   * or higher.
   */
  lemma {:induction false} NoBirdCollects(us: seq<PowerUps.PowerUp>, at: Vec3, delta: real, kind: BirdTypes.BirdType)
    requires Float(us)
    requires BirdTypes.Spec(kind).minHeight <= at.y
    ensures ReductionsCollected(us, at, delta) == 0
    decreases |us|
  {
    if |us| > 0 {
      PowerUps.NoBirdInItsBandCollects(PowerUps.Update(us[0], delta), kind, at);
      assert Float(us[1..]) by {
        assert forall i :: 0 <= i < |us[1..]| ==> us[1..][i] == us[i + 1];
      }
      NoBirdCollects(us[1..], at, delta, kind);
    }
  }

  datatype PowerUpResult = PowerUpResult(kept: seq<PowerUps.PowerUp>, bird: Birds.Bird)

  /**
   * `updatePowerUps`: from the last power-up to the first, age it, let the bird
   * collect it (applying its effect), and drop it if collected or expired. The
   * bird's position never changes during the pass, so every power-up is tested
   * against the same point; the bird ends up with one cooldown reduction per
   * collected reduction power-up.
   */
  function PowerUpPass(us: seq<PowerUps.PowerUp>, b: Birds.Bird, delta: real): (r: PowerUpResult)
    ensures r.kept == PowerUpSurvivors(us, b.position, delta)
    ensures r.bird == Reduced(b, ReductionsCollected(us, b.position, delta))
    ensures forall i :: 0 <= i < |r.kept| ==>
              !r.kept[i].collected && r.kept[i].lifetime <= PowerUps.MaxLifetime
    decreases |us|
  {
    if |us| == 0 then PowerUpResult([], b)
    else
      var init, last := us[..|us| - 1], us[|us| - 1];
      var step := PowerUps.Tick(last, delta, b.position, PowerUpCollectRadius);
      var b' := if step.1 then ApplyPowerUp(b, step.0.kind) else b;
      assert b'.position == b.position;
      var rest := PowerUpPass(init, b', delta);
      SplitLastPowerUp(us, b.position, delta);
      PowerUpResult(rest.kept + (if PowerUps.ShouldRemove(step.0) then [] else [step.0]), rest.bird)
  }

  // ---------------------------------------------------------------------------
  // The tick and the collection operations
  // ---------------------------------------------------------------------------

  datatype TickResult = TickResult(engine: Engine, bird: Birds.Bird)

  /**
   * `update`: one tick. The wind draw, the bird's input direction and the sine
   * used for its bobbing are supplied by the caller.
   */
  function Update(e: Engine, b: Birds.Bird, delta: real, input: Vec3, draw: WindModel.WindDraw, sin: real -> real)
    : (r: TickResult)
    // the wind takes its own step first
    ensures r.engine.wind == WindModel.Update(e.wind, delta, draw)
    // the bird flies with the wind of this tick, not the previous one
    ensures r.bird.velocity == Add(Scale(input, BirdTypes.Spec(b.kind).baseVelocity), r.engine.wind.velocity)
    // and then takes one cooldown reduction per reduction power-up it collects at its new position
    ensures var flown := Birds.Update(b, delta, input, r.engine.wind.velocity, sin);
            r.bird == Reduced(flown, ReductionsCollected(e.powerUps, flown.position, delta))
    // the poops: updated once each, scored on landing against the targets before they move
    ensures r.engine.poops == Survivors(e.poops, delta)
    ensures r.engine.game == e.game.(score := r.engine.game.score, hitCount := r.engine.game.hitCount)
    ensures r.engine.game.score == e.game.score + LandingPoints(e.poops, e.targets, delta)
    ensures r.engine.game.hitCount == e.game.hitCount + LandingHits(e.poops, e.targets, delta)
    ensures e.game.score <= r.engine.game.score
    // the targets: marked by this tick's landings, then moved; none added or removed
    ensures r.engine.targets == UpdateTargets(Marked(e.targets, e.poops, delta), delta)
    ensures |r.engine.targets| == |e.targets|
    ensures forall i :: 0 <= i < |e.targets| ==> r.engine.targets[i].kind == e.targets[i].kind
    ensures forall i :: 0 <= i < |e.targets| ==>
              var moved := Targets.Update(e.targets[i], delta, WorldWidth, WorldHeight);
              r.engine.targets[i].position == moved.position && r.engine.targets[i].velocity == moved.velocity
    // the power-ups: collected against where the bird is after its own update
    ensures r.engine.powerUps
            == PowerUpSurvivors(e.powerUps, Birds.Update(b, delta, input, r.engine.wind.velocity, sin).position, delta)
  {
    var wind := WindModel.Update(e.wind, delta, draw);
    var flown := Birds.Update(b, delta, input, wind.velocity, sin);
    var poopPass := PoopPass(e.poops, e.targets, e.game, delta);
    LandingPointsNonNeg(e.poops, e.targets, delta);
    var targets := UpdateTargets(poopPass.targets, delta);
    MarkedKeepsLayout(e.targets, e.poops, delta);
    forall i | 0 <= i < |e.targets|
      ensures var moved := Targets.Update(e.targets[i], delta, WorldWidth, WorldHeight);
              targets[i].position == moved.position && targets[i].velocity == moved.velocity
    {
      Targets.MotionDependsOnlyOnKinematics(poopPass.targets[i], e.targets[i], delta, WorldWidth, WorldHeight);
    }
    var powerUpPass := PowerUpPass(e.powerUps, flown, delta);
    ReducedOnlyTouchesMultiplier(flown, ReductionsCollected(e.powerUps, flown.position, delta));
    TickResult(Engine(wind, poopPass.kept, targets, powerUpPass.kept, poopPass.game), powerUpPass.bird)
  }

  /** `addPoop`: nothing for a missing poop; otherwise append it and count the shot. */
  function AddPoop(e: Engine, p: Option<Poops.Poop>): (r: Engine)
    ensures p == None ==> r == e
    ensures p.Some? ==>
              r == e.(poops := e.poops + [p.value], game := GameStates.IncrementPoopCount(e.game))
  {
    match p
    case None => e
    case Some(poop) => e.(poops := e.poops + [poop], game := GameStates.IncrementPoopCount(e.game))
  }

  /**
   * Firing as the game screen does it: the bird drops a poop if it can, and
   * the engine adds it. A shot is counted the moment it is fired.
   */
  function Fire(e: Engine, b: Birds.Bird): (r: TickResult)
    ensures Birds.CanPoop(b) <==> r.engine.game.poopCount == e.game.poopCount + 1
    ensures !Birds.CanPoop(b) ==> r == TickResult(e, b)
    ensures Birds.CanPoop(b) ==> r.engine.poops == e.poops + [Poops.Spawn(b.position, b.velocity)]
    // firing restarts the bird's cooldown at its full, scaled length
    ensures Birds.CanPoop(b) ==>
              r.bird == b.(currentCooldown := BirdTypes.Spec(b.kind).cooldown * b.cooldownMultiplier)
    // and touches nothing else in the engine
    ensures r.engine.wind == e.wind && r.engine.targets == e.targets && r.engine.powerUps == e.powerUps
    ensures Birds.CanPoop(b) ==> r.engine.game == GameStates.IncrementPoopCount(e.game)
  {
    var (fired, poop) := Birds.DropPoop(b);
    TickResult(AddPoop(e, poop), fired)
  }

  /** `addTarget`: the target joins at the end; nothing else changes. */
  function AddTarget(e: Engine, t: Targets.Target): (r: Engine)
    ensures |r.targets| == |e.targets| + 1 && r.targets[|e.targets|] == t
    ensures r.targets[..|e.targets|] == e.targets
    ensures r.(targets := e.targets) == e
  {
    e.(targets := e.targets + [t])
  }

  /** `addPowerUp`: the power-up joins at the end; nothing else changes. */
  function AddPowerUp(e: Engine, u: PowerUps.PowerUp): (r: Engine)
    ensures |r.powerUps| == |e.powerUps| + 1 && r.powerUps[|e.powerUps|] == u
    ensures r.powerUps[..|e.powerUps|] == e.powerUps
    ensures r.(powerUps := e.powerUps) == e
  {
    e.(powerUps := e.powerUps + [u])
  }

  /** `clearAll`: empty all three collections; the wind and the game state are kept. */
  function ClearAll(e: Engine): (r: Engine)
    ensures r.poops == [] && r.targets == [] && r.powerUps == []
    ensures r.wind == e.wind && r.game == e.game
  {
    e.(poops := [], targets := [], powerUps := [])
  }

  /** `getPredictedLanding`: where a poop dropped now would land. */
  function PredictedLanding(b: Birds.Bird, sqrt: real -> real): (r: Vec3)
    requires IsSquareRoot(sqrt)
    ensures r.y == GroundLevel
    ensures r == ProjectileCalculator.LandingPosition(b.position, b.velocity, sqrt)
  {
    ProjectileCalculator.LandingPosition(b.position, b.velocity, sqrt)
  }

  // ---------------------------------------------------------------------------
  // What every reachable engine satisfies
  // ---------------------------------------------------------------------------

  /**
   * The wind is valid, no poop due for removal and no collected or expired
   * power-up is still held, every power-up floats at the collection height,
   * the bird's multiplier is in [0.3, 1] and its cooldown is never negative.
   */
  predicate Valid(e: Engine, b: Birds.Bird) {
    && WindModel.Valid(e.wind)
    && (forall i :: 0 <= i < |e.poops| ==> !Poops.ShouldRemove(e.poops[i]))
    && (forall i :: 0 <= i < |e.powerUps| ==> !PowerUps.ShouldRemove(e.powerUps[i]))
    && Float(e.powerUps)
    && Birds.MultiplierInRange(b)
    && 0.0 <= b.currentCooldown
  }

  lemma SurvivorsNotDue(ps: seq<Poops.Poop>, delta: real)
    ensures forall i :: 0 <= i < |Survivors(ps, delta)| ==> !Poops.ShouldRemove(Survivors(ps, delta)[i])
    decreases |ps|
  {
    if |ps| > 0 {
      SurvivorsNotDue(ps[1..], delta);
    }
  }

  lemma NewEngineValid(game: GameStates.GameState, draw: WindModel.WindDraw, kind: BirdTypes.BirdType)
    requires WindModel.ValidDraw(draw)
    ensures Valid(NewEngine(game, draw), Birds.NewBird(kind))
  {
    WindModel.NewWindValid(draw);
  }

  /** A tick with a non-negative time step and a valid wind draw keeps the engine valid. */
  lemma UpdatePreservesValid(e: Engine, b: Birds.Bird, delta: real, input: Vec3, draw: WindModel.WindDraw, sin: real -> real)
    requires Valid(e, b) && 0.0 <= delta && WindModel.ValidDraw(draw)
    ensures var r := Update(e, b, delta, input, draw, sin); Valid(r.engine, r.bird)
  {
    var r := Update(e, b, delta, input, draw, sin);
    WindModel.UpdatePreservesValid(e.wind, delta, draw);
    SurvivorsNotDue(e.poops, delta);
    var flown0 := Birds.Update(b, delta, input, r.engine.wind.velocity, sin);
    SurvivorsFloat(e.powerUps, flown0.position, delta);
    var flown := Birds.Update(b, delta, input, r.engine.wind.velocity, sin);
    ReducedOnlyTouchesMultiplier(flown, ReductionsCollected(e.powerUps, flown.position, delta));
  }

  /** Firing, adding a fresh target or power-up, and clearing keep the engine valid. */
  lemma EditsPreserveValid(e: Engine, b: Birds.Bird, t: Targets.Target, kind: PowerUps.PowerUpKind, x: real, z: real)
    requires Valid(e, b)
    ensures Valid(Fire(e, b).engine, Fire(e, b).bird)
    ensures Valid(AddTarget(e, t), b)
    ensures Valid(AddPowerUp(e, PowerUps.NewPowerUp(kind, x, z)), b)
    ensures Valid(ClearAll(e), b)
  {
  }

  /**
   * So, as written, no tick ever changes the bird's cooldown multiplier: with
   * the sine within [-1, 1] the bird stays in its band, out of every
   * power-up's reach.
   */
  lemma TickNeverReducesCooldown(e: Engine, b: Birds.Bird, delta: real, input: Vec3, draw: WindModel.WindDraw, sin: real -> real)
    requires Float(e.powerUps) && Birds.SineBounded(sin)
    ensures Update(e, b, delta, input, draw, sin).bird.cooldownMultiplier == b.cooldownMultiplier
  {
    var r := Update(e, b, delta, input, draw, sin);
    var flown := Birds.Update(b, delta, input, r.engine.wind.velocity, sin);
    NoBirdCollects(e.powerUps, flown.position, delta, b.kind);
  }
}
