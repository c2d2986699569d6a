# poopybird round simulation, in Dafny

This project models the round-simulation core of *poopybird*, a small libGDX
game. A bird flies over a park, pushed by the wind, and drops poops on moving
and standing targets. A poop scores by how close it lands to a target's centre.
Power-ups are meant to shorten the bird's reload, but as written no bird can
ever reach one (see Findings). A 90-second countdown ends the round.

The model covers:

- the two static catalogs, `BirdType` and `TargetType`;
- the ballistic calculator;
- the wind;
- the four entities: bird, poop, target and power-up;
- the round bookkeeping in `GameState`;
- `PhysicsEngine`, which advances all of the above by one tick.

Every entity is an immutable datatype. Every operation is a pure function that
returns the new state, except the trajectory sampler, which is a method with a
loop.

| file | module | models |
|---|---|---|
| `common.dfy` | `Constants`, `Wrappers`, `Vectors` | `util/Constants.java`; a nullable result; libGDX `Vector3` arithmetic and the real-number facts the proofs use |
| `catalogs.dfy` | `BirdTypes`, `TargetTypes` | `entities/BirdType.java`, `entities/TargetType.java` |
| `projectile.dfy` | `ProjectileCalculator` | `physics/ProjectileCalculator.java` |
| `wind.dfy` | `WindModel` | `physics/Wind.java` |
| `poop.dfy` | `Poops` | `entities/Poop.java` |
| `bird.dfy` | `Birds` | `entities/Bird.java` |
| `target.dfy` | `Targets` | `entities/Target.java` |
| `powerup.dfy` | `PowerUps` | `entities/PowerUp.java` |
| `gamestate.dfy` | `GameStates` | `util/GameState.java` |
| `engine.dfy` | `Engines` | `physics/PhysicsEngine.java`, plus the firing step of `screens/GameScreen.java` |

Conventions:

- **Numbers.** Java `float` is `real` and Java `int` is `int`. Neither rounding nor overflow is modelled.
- **Square root.** `Math.sqrt` is a parameter `sqrt: real -> real`. The model only assumes it returns the non-negative root of non-negative inputs (`Vectors.IsSquareRoot`).
- **Distance tests.** Hit and collection tests compare squared distances. A lemma beside each test proves it agrees with the source's comparison of the distance itself.
- **Sine.** `MathUtils.sin` is a parameter as well. The model only assumes its values lie in [-1, 1] (`Birds.SineBounded`).
- **Random draws.** Each random draw is an argument: `WindModel.WindDraw`, and the heading and speed given to `Targets.NewTarget`.
- **In-place removal loops.** The source walks the poop and power-up arrays from the last index down and removes entries as it goes. The model does the same: `Engines.PoopPass` and `Engines.PowerUpPass` take the last element first.
  - Their contracts equate the result to front-to-back reference definitions: `Survivors`, `LandingPoints`, `LandingHits`, `PowerUpSurvivors` and `ReductionsCollected`.

Two places where the game's usual description and its code differ. The model follows the code in both:

- **Wind easing.** `Wind.update` does not interpolate linearly. Each tick it calls `lerp` from the *current* velocity with a fraction that grows by `delta / 2`. This is an easing, and it lands exactly on the target on the tick the fraction reaches 1 (`WindModel.Update`, `WindModel.EasingReachesTarget`).
- **Score guard.** `GameState.addScore` has no guard. The score only grows because the engine adds only positive sums (`GameStates.AddScore`, `Engines.Update`).

`util/Constants.java:29` declares a `COOLDOWN_REDUCTION` of 0.5 that nothing reads. The reduction that takes effect is the 0.3 in the power-up table.

## Model

| member | source | states |
|---|---|---|
| BirdTypes.Spec | core/src/main/java/ape/poopybird/entities/BirdType.java:4-9 | every bird has minHeight < maxHeight, a positive cooldown and base speed, and difficulty equal to its 1-based declaration position |
| BirdTypes.HarderMeansFasterAndQuicker | core/src/main/java/ape/poopybird/entities/BirdType.java:4-9 | later birds have strictly higher difficulty and base speed and a strictly shorter cooldown |
| BirdTypes.DifficultyLabel | core/src/main/java/ape/poopybird/entities/BirdType.java:70-80 | ranks 1..6 map to the six labels in order; every other rank maps to "Unknown" |
| BirdTypes.DifficultyLabelsDistinct | core/src/main/java/ape/poopybird/entities/BirdType.java:70-80 | the six ranks get six pairwise different labels, none of them "Unknown" |
| BirdTypes.Label | core/src/main/java/ape/poopybird/entities/BirdType.java:70-80 | a bird's own label is never "Unknown" and is the label of its declaration position |
| TargetTypes.Spec | core/src/main/java/ape/poopybird/entities/TargetType.java:5-10 | every target type has centre > middle > outer > 0 scores and 0 < centre < middle < outer radii |
| TargetTypes.ScoreForDistance | core/src/main/java/ape/poopybird/entities/TargetType.java:37-42 | each ring's score on its inclusive band; 0 exactly beyond the outer radius; never negative |
| TargetTypes.ZoneForDistance | core/src/main/java/ape/poopybird/entities/TargetType.java:44-49 | BULLSEYE!, GREAT!, HIT! and MISS each cover exactly their inclusive ring, MISS everything beyond the outer radius |
| TargetTypes.ZoneAgreesWithScore | core/src/main/java/ape/poopybird/entities/TargetType.java:37-49 | BULLSEYE!/GREAT!/HIT!/MISS name exactly the tier the score comes from; MISS exactly when the score is 0 |
| TargetTypes.ScoreNonIncreasing | core/src/main/java/ape/poopybird/entities/TargetType.java:37-42 | a farther landing never scores more |
| TargetTypes.SquaredLookupAgrees | core/src/main/java/ape/poopybird/entities/TargetType.java:37-49 | looking up the squared distance against squared radii gives the same score and zone as the distance itself |
| ProjectileCalculator.FallTime | core/src/main/java/ape/poopybird/physics/ProjectileCalculator.java:30-33 | the fall time is non-negative, 0 for a height at or below 0, and otherwise exactly the time whose half-gravity fall equals the height |
| ProjectileCalculator.FallTimeMonotone | core/src/main/java/ape/poopybird/physics/ProjectileCalculator.java:30-33 | a higher drop never takes less time |
| ProjectileCalculator.LandingPosition | core/src/main/java/ape/poopybird/physics/ProjectileCalculator.java:11-25 | the landing is on the ground; straight below for a drop at or under ground level; otherwise the free-fall point at the fall time, which is exactly on the ground |
| ProjectileCalculator.TrajectoryPoints | core/src/main/java/ape/poopybird/physics/ProjectileCalculator.java:38-53 | exactly numPoints samples, evenly spaced in time and never below the ground; the first is the drop point and the last is the landing position |
| ProjectileCalculator.HorizontalDistance | core/src/main/java/ape/poopybird/physics/ProjectileCalculator.java:58-62 | the horizontal distance is non-negative and 0 for a height at or below 0 |
| ProjectileCalculator.HorizontalDistanceIsLandingOffset | core/src/main/java/ape/poopybird/physics/ProjectileCalculator.java:58-62 | the horizontal distance is the planar length of the offset from the drop point to the landing position |
| WindModel.DrawnTarget | core/src/main/java/ape/poopybird/physics/Wind.java:40-49 | a drawn target is horizontal, points along the drawn heading at the drawn speed (cos·speed, sin·speed), so its squared planar length is the speed squared, and for a valid draw it is no faster than the maximum wind speed |
| WindModel.GenerateNewTarget | core/src/main/java/ape/poopybird/physics/Wind.java:40-49 | retargeting installs the drawn target, restarts the easing at 0 and keeps the velocity and timer |
| WindModel.NewWind | core/src/main/java/ape/poopybird/physics/Wind.java:14-20 | a new wind is calm, with timer 0, a first target drawn and the easing at 0 |
| WindModel.Update | core/src/main/java/ape/poopybird/physics/Wind.java:22-38 | an unfinished easing grows the progress by delta / 2, capped at 1, and moves the velocity to the lerp toward the target at that progress; a finished easing holds the velocity; the tick on which progress reaches 1 lands exactly on the target; at the interval the timer resets and a horizontal target is installed with progress 0; otherwise the timer grows by delta and progress stays in [0,1] |
| WindModel.NewWindValid | core/src/main/java/ape/poopybird/physics/Wind.java:14-20 | a new wind satisfies the wind invariant |
| WindModel.UpdatePreservesValid | core/src/main/java/ape/poopybird/physics/Wind.java:22-49 | a tick keeps progress in [0,1], the timer below the interval, both vectors horizontal and within the maximum speed |
| WindModel.WindSpeedStaysBounded | core/src/main/java/ape/poopybird/physics/Wind.java:22-49 | over any run of ticks the wind never exceeds the maximum wind speed |
| WindModel.SettledWindHoldsSteady | core/src/main/java/ape/poopybird/physics/Wind.java:26-31 | once eased to its target, the wind holds steady until the next retarget |
| WindModel.EasingReachesTarget | core/src/main/java/ape/poopybird/physics/Wind.java:26-31 | however the time is split into ticks, the wind equals its target once the remaining fraction of the 2 s window has elapsed |
| WindModel.DirectionName | core/src/main/java/ape/poopybird/physics/Wind.java:63-75 | after adding 360 to a negative angle, compass name k covers [45k-22.5, 45k+22.5); "N" covers everything else |
| Poops.Spawn | core/src/main/java/ape/poopybird/entities/Poop.java:16-22 | a new poop starts airborne at the drop point, keeping the horizontal velocity and a zero vertical velocity |
| Poops.Update | core/src/main/java/ape/poopybird/entities/Poop.java:24-51 | a landed poop is frozen and only ages; an airborne one keeps vx and vz, loses g·delta of vy and moves by the new velocity; it lands exactly when the step reaches the ground, clamped onto it |
| Poops.ShouldRemove | core/src/main/java/ape/poopybird/entities/Poop.java:53-55 | an airborne poop is never due for removal; a landed one is due exactly once more than 0.5 s have passed since landing |
| Poops.HasJustLanded | core/src/main/java/ape/poopybird/entities/Poop.java:57-59 | true exactly for a poop landed with no time since; such a poop is not yet due for removal |
| Poops.LandingX | core/src/main/java/ape/poopybird/entities/Poop.java:85-87 | the x a hit is tested at is the poop's current x, which after the landing tick is the clamped Euler step (Poops.LandingPointIsClampedStep) |
| Poops.LandingZ | core/src/main/java/ape/poopybird/entities/Poop.java:89-91 | the z a hit is tested at is the poop's current z |
| Poops.LandingPointIsClampedStep | core/src/main/java/ape/poopybird/entities/Poop.java:85-91 | the reported landing x and z are those of the landing Euler step; just after landing the poop has just landed and is not yet due for removal |
| Poops.LandedStaysPut | core/src/main/java/ape/poopybird/entities/Poop.java:25-28 | a landed poop stays landed at the same place, and its timer advances by the total time |
| Poops.LandedNeverLandsAgain | core/src/main/java/ape/poopybird/entities/Poop.java:25-28 | a landed poop never has another airborne-to-landed tick |
| Poops.LandsAtMostOnce | core/src/main/java/ape/poopybird/entities/Poop.java:24-41 | any run of ticks has at most one landing tick, and the poop ends landed exactly when it started landed or had that tick |
| Poops.JustLandedOnlyOnce | core/src/main/java/ape/poopybird/entities/Poop.java:57-59 | with positive time steps, "just landed" is false after any further tick |
| Poops.RemovedOnlyAfterSplat | core/src/main/java/ape/poopybird/entities/Poop.java:53-55 | a landed poop is due for removal exactly when more than 0.5 s have passed since landing |
| Birds.NewBird | core/src/main/java/ape/poopybird/entities/Bird.java:18-27 | a new bird has the given kind, is at the origin at its minimum height, at rest, with cooldown 0 (so ready to fire) and multiplier 1 |
| Birds.CanPoop | core/src/main/java/ape/poopybird/entities/Bird.java:59-61 | ready exactly when no cooldown is left; for a cooldown that never goes negative, exactly when it is 0 |
| Birds.TickCooldown | core/src/main/java/ape/poopybird/entities/Bird.java:33-36 | a running cooldown drops by delta and stops at 0; a finished one is untouched; a non-negative cooldown stays non-negative |
| Birds.BandHeightWithinBand | core/src/main/java/ape/poopybird/entities/Bird.java:46-47 | for any sine value in [-1,1] the height lies within the bird's band |
| Birds.Update | core/src/main/java/ape/poopybird/entities/Bird.java:29-57 | velocity is input times base speed plus wind; x and z advance by velocity times delta; the cooldown ticks; the height is the band height for the sine of half the new clock, so with a bounded sine it stays in the band |
| Birds.DropPoop | core/src/main/java/ape/poopybird/entities/Bird.java:63-68 | on cooldown nothing changes and no poop is produced; otherwise the cooldown restarts at cooldown times multiplier and a poop is spawned from the bird's position and velocity |
| Birds.ApplyCooldownReduction | core/src/main/java/ape/poopybird/entities/Bird.java:75-77 | the multiplier becomes m - r, but never below 0.3; nothing else changes |
| Birds.ResetCooldownMultiplier | core/src/main/java/ape/poopybird/entities/Bird.java:79-81 | the multiplier returns to that of a new bird (1); nothing else changes |
| Birds.MultiplierStaysInRange | core/src/main/java/ape/poopybird/entities/Bird.java:75-81 | non-negative reductions and resets keep the multiplier in [0.3, 1] |
| Birds.CooldownAfterRun | core/src/main/java/ape/poopybird/entities/Bird.java:33-36 | after a run of ticks a cooldown is what remains after the total time, floored at 0 |
| Birds.ReadyAgainExactlyAfterCooldown | core/src/main/java/ape/poopybird/entities/Bird.java:59-68 | after firing, the bird can fire again exactly when the elapsed time reaches cooldown times multiplier (boundary inclusive) |
| Birds.CooldownProgress | core/src/main/java/ape/poopybird/entities/Bird.java:99-102 | progress is 1 for a type without cooldown; otherwise progress times the full cooldown (type cooldown times multiplier) is the full cooldown minus the current one, i.e. 1 − cur/full; hence it is at most 1 iff the cooldown is non-negative, non-negative within the full length, and negative beyond it |
| Birds.CooldownProgressGoesNegative | core/src/main/java/ape/poopybird/entities/Bird.java:99-102 | a sparrow that fires and then has its multiplier reduced has negative progress |
| Birds.ClampedCooldownProgress | core/src/main/java/ape/poopybird/entities/Bird.java:99-102 | the corrected progress lies in [0,1], agrees with the original whenever that does, and is 1 exactly when the bird can fire |
| Targets.NewTarget | core/src/main/java/ape/poopybird/entities/Target.java:18-34 | a new target has the given kind, is on the ground, not hit, with no recorded hit; only a person gets the drawn velocity |
| Targets.OnlyPeopleMove | core/src/main/java/ape/poopybird/entities/Target.java:27-33 | with a unit heading and speed in [1,3], a new target moves exactly when it is a person |
| Targets.Bounce | core/src/main/java/ape/poopybird/entities/Target.java:53-60 | a coordinate outside the band is clamped into it with its speed reversed; one inside is left alone |
| Targets.TickHit | core/src/main/java/ape/poopybird/entities/Target.java:38-44 | a shown hit ages by delta and is cleared, with its timer reset, once older than 1.5 s |
| Targets.Update | core/src/main/java/ape/poopybird/entities/Target.java:36-71 | a standing target stays put; a moving one steps by velocity times delta and each axis is bounced on its own, so only a component that crossed a margin flips; it ends inside the world less the 5-unit margin, and its speed is kept |
| Targets.MovingTargetsStayInWorld | core/src/main/java/ape/poopybird/entities/Target.java:47-61 | in the 100x100 world a moving target stays within [-45, 45] on both axes |
| Targets.MotionDependsOnlyOnKinematics | core/src/main/java/ape/poopybird/entities/Target.java:47-61 | how a target moves depends only on its position and velocity, never on the hit it displays |
| Targets.CheckHit | core/src/main/java/ape/poopybird/entities/Target.java:73-86 | a scoring landing marks the target hit with timer 0 and records the score and zone; a miss changes nothing; the target never moves; it scores exactly within the outer radius |
| Targets.CheckHitScoresDistance | core/src/main/java/ape/poopybird/entities/Target.java:73-86 | the score and zone are those the type gives the planar distance itself |
| PowerUps.CooldownReductionOf | core/src/main/java/ape/poopybird/entities/PowerUp.java:8-28 | only the cooldown-reduction kind carries a reduction, 0.3; the others carry 0 |
| PowerUps.DisplayName | core/src/main/java/ape/poopybird/entities/PowerUp.java:8-23 | Speed Boost, 2x Points and Triple Shot, one per kind |
| PowerUps.DisplayNamesDistinct | core/src/main/java/ape/poopybird/entities/PowerUp.java:8-23 | no two kinds share a display name |
| PowerUps.NewPowerUp | core/src/main/java/ape/poopybird/entities/PowerUp.java:43-50 | a new power-up has the given kind, floats at height 3, uncollected, aged 0, neither due for removal nor expiring |
| PowerUps.Update | core/src/main/java/ape/poopybird/entities/PowerUp.java:52-66 | a collected power-up does not age; an uncollected one ages by delta; nothing else changes |
| PowerUps.CheckCollection | core/src/main/java/ape/poopybird/entities/PowerUp.java:68-81 | reports true exactly for an uncollected power-up strictly within the radius, which it marks collected; otherwise nothing changes |
| PowerUps.CollectionMatchesDistance | core/src/main/java/ape/poopybird/entities/PowerUp.java:68-81 | the squared test agrees with the source's strict comparison of the distance itself |
| PowerUps.ShouldRemove | core/src/main/java/ape/poopybird/entities/PowerUp.java:83-85 | a collected power-up is always removed; an uncollected one exactly once older than 10 s |
| PowerUps.IsExpiring | core/src/main/java/ape/poopybird/entities/PowerUp.java:87-89 | expiring exactly once older than 7 s, so every power-up past its lifetime is expiring |
| PowerUps.OutOfReachAbove | core/src/main/java/ape/poopybird/entities/PowerUp.java:68-81 | a bird at least the radius above the collection height is never within the radius, wherever it is horizontally |
| PowerUps.NoBirdInItsBandCollects | core/src/main/java/ape/poopybird/entities/PowerUp.java:68-81 | with the engine's radius of 3, no bird anywhere in its height band collects a power-up at height 3 |
| PowerUps.CheckCollectionOverhead | core/src/main/java/ape/poopybird/entities/PowerUp.java:68-81 | corrected test: an uncollected power-up is collected exactly when the bird is strictly within the radius horizontally, at any height |
| PowerUps.OverheadAgreesAtSameHeight | core/src/main/java/ape/poopybird/entities/PowerUp.java:68-81 | at the power-up's own height the corrected test is the source's test |
| PowerUps.OverheadReachesEveryBand | core/src/main/java/ape/poopybird/entities/PowerUp.java:68-81 | under the corrected test a bird of any kind anywhere in its band straight over a power-up collects it; under the source's test it does not |
| PowerUps.ExpiryIsSignalled | core/src/main/java/ape/poopybird/entities/PowerUp.java:83-89 | a power-up removed by expiry was already expiring |
| PowerUps.CollectedNeverAgain | core/src/main/java/ape/poopybird/entities/PowerUp.java:68-81 | a collected power-up is never reported collected again |
| PowerUps.CollectedAtMostOnce | core/src/main/java/ape/poopybird/entities/PowerUp.java:68-81 | however the bird moves, a power-up is collected at most once |
| GameStates.Reset | core/src/main/java/ape/poopybird/util/GameState.java:15-22 | score 0, 90 s left, neither over nor paused, both counters 0 |
| GameStates.Update | core/src/main/java/ape/poopybird/util/GameState.java:24-32 | a paused or finished round is unchanged; otherwise the clock counts down and the round ends, at exactly 0, iff it runs out; game-over never reverts |
| GameStates.AddScore | core/src/main/java/ape/poopybird/util/GameState.java:34-36 | the score changes by exactly the points, and grows only for non-negative points |
| GameStates.IncrementPoopCount | core/src/main/java/ape/poopybird/util/GameState.java:38-40 | one more shot, nothing else changes |
| GameStates.IncrementHitCount | core/src/main/java/ape/poopybird/util/GameState.java:42-44 | one more hit, nothing else changes |
| GameStates.SetGameOver | core/src/main/java/ape/poopybird/util/GameState.java:58-60 | sets only the game-over flag |
| GameStates.SetPaused | core/src/main/java/ape/poopybird/util/GameState.java:66-68 | sets only the paused flag |
| GameStates.Accuracy | core/src/main/java/ape/poopybird/util/GameState.java:78-81 | 0 before the first shot; otherwise accuracy times shots is 100 times hits; non-negative for non-negative counters |
| GameStates.AccuracyExamples | core/src/main/java/ape/poopybird/util/GameState.java:78-81 | 4 shots and 2 hits give 50; 1 shot and 2 hits give 200, so accuracy is not capped at 100 |
| GameStates.GameOverIsFinal | core/src/main/java/ape/poopybird/util/GameState.java:24-32 | a finished round is unchanged by any run of updates |
| GameStates.RoundEndsWhenTimeRunsOut | core/src/main/java/ape/poopybird/util/GameState.java:24-32 | an unpaused round ends exactly when the elapsed time reaches the time left; until then the clock shows the difference |
| GameStates.FreshRoundLastsGameDuration | core/src/main/java/ape/poopybird/util/GameState.java:15-32 | a fresh round ends exactly when 90 s of play have elapsed |
| Engines.NewEngine | core/src/main/java/ape/poopybird/physics/PhysicsEngine.java:21-27 | a new engine has a new wind, no entities, and the given game state |
| Engines.TotalScoreIsByDistance | core/src/main/java/ape/poopybird/physics/PhysicsEngine.java:64-80 | the summed squared-distance scores equal the sum of the types' scores for the distances themselves |
| Engines.ScoreDependsOnlyOnLayout | core/src/main/java/ape/poopybird/physics/PhysicsEngine.java:64-80 | target lists that agree on kinds, positions and velocities give a landing the same points and hits, whatever their hit displays |
| Engines.HitPass | core/src/main/java/ape/poopybird/physics/PhysicsEngine.java:68-75 | every target gets one checkHit in order and is replaced by its result; the total is the sum of their scores; the hit counter grows by the number of scoring targets, and the total is 0 iff none scored |
| Engines.CheckPoopHits | core/src/main/java/ape/poopybird/physics/PhysicsEngine.java:64-80 | each target is replaced by its checkHit result at the landing point (marked if it scores, never moved); the score grows by the landing's total points and the hit counter by the scoring targets; nothing else changes |
| Engines.SplitLast | core/src/main/java/ape/poopybird/physics/PhysicsEngine.java:46-62 | the survivor list and the landing sums split into those of all but the last poop plus the last poop's own |
| Engines.MarkedKeepsLayout | core/src/main/java/ape/poopybird/physics/PhysicsEngine.java:46-80 | marking targets by any poops' landings keeps every kind, position and velocity |
| Engines.MarkedSplitLast | core/src/main/java/ape/poopybird/physics/PhysicsEngine.java:46-62 | marking by all poops is marking by the last poop first, then by the rest, as the backward loop does |
| Engines.LandingsDependOnlyOnLayout | core/src/main/java/ape/poopybird/physics/PhysicsEngine.java:46-62 | the points and hits earned by this tick's landings depend only on the targets' kinds, positions and velocities |
| Engines.PoopPass | core/src/main/java/ape/poopybird/physics/PhysicsEngine.java:46-62 | the kept poops are each poop updated once, with those due for removal dropped and the rest in order; the targets are those marked by every landing, the first poop's last; score and hits grow by exactly what this tick's landings earn; nothing else changes |
| Engines.LandingPointsNonNeg | core/src/main/java/ape/poopybird/physics/PhysicsEngine.java:64-80 | the points a tick's landings add are never negative |
| Engines.NoLandingNoScore | core/src/main/java/ape/poopybird/physics/PhysicsEngine.java:46-62 | when no poop lands on a tick, no points or hits are added |
| Engines.UpdateTargets | core/src/main/java/ape/poopybird/physics/PhysicsEngine.java:82-86 | every target is updated once in the game's world; moving ones end within the margin and standing ones stay put |
| Engines.ApplyPowerUp | core/src/main/java/ape/poopybird/physics/PhysicsEngine.java:103-115 | a cooldown reduction lowers the multiplier by 0.3 with the 0.3 floor; the other kinds change nothing |
| Engines.ReducedOnlyTouchesMultiplier | core/src/main/java/ape/poopybird/physics/PhysicsEngine.java:103-115 | any number of reductions change only the multiplier and keep it within [0.3, 1] |
| Engines.SplitLastPowerUp | core/src/main/java/ape/poopybird/physics/PhysicsEngine.java:88-101 | the power-up survivors and the reduction count split into those of all but the last plus the last's own |
| Engines.PowerUpPass | core/src/main/java/ape/poopybird/physics/PhysicsEngine.java:88-101 | the kept power-ups are the reference survivors in order, all uncollected and unexpired; the bird gets one reduction per collected reduction power-up |
| Engines.SurvivorsFloat | core/src/main/java/ape/poopybird/physics/PhysicsEngine.java:88-101 | the power-ups a tick keeps still float at the collection height |
| Engines.NoBirdCollects | core/src/main/java/ape/poopybird/physics/PhysicsEngine.java:88-101 | a bird in its height band collects no reduction from power-ups at the collection height |
| Engines.Update | core/src/main/java/ape/poopybird/physics/PhysicsEngine.java:29-44 | the wind takes its step; the bird flies with the new wind and then takes one reduction per reduction power-up collected at its new position; poops are updated and scored against the targets before they move; the targets are marked by the landings and then each moved by its own update, none added or removed; the score never drops |
| Engines.AddPoop | core/src/main/java/ape/poopybird/physics/PhysicsEngine.java:117-122 | a missing poop changes nothing; otherwise the poop is appended and the shot counted |
| Engines.Fire | core/src/main/java/ape/poopybird/screens/GameScreen.java:431-441 | a shot is counted exactly when the bird can fire; then the cooldown restarts at its scaled length and the new airborne poop is appended; wind, targets and power-ups are untouched, and a bird that cannot fire changes nothing |
| Engines.AddTarget | core/src/main/java/ape/poopybird/physics/PhysicsEngine.java:124-126 | the target is appended at the end; nothing else changes |
| Engines.AddPowerUp | core/src/main/java/ape/poopybird/physics/PhysicsEngine.java:128-130 | the power-up is appended at the end; nothing else changes |
| Engines.ClearAll | core/src/main/java/ape/poopybird/physics/PhysicsEngine.java:132-136 | all three collections become empty; the wind and game state are kept |
| Engines.PredictedLanding | core/src/main/java/ape/poopybird/physics/PhysicsEngine.java:154-156 | the prediction is on the ground and is the calculator's landing for the bird's position and velocity |
| Engines.SurvivorsNotDue | core/src/main/java/ape/poopybird/physics/PhysicsEngine.java:46-62 | no poop kept by a tick is due for removal |
| Engines.NewEngineValid | core/src/main/java/ape/poopybird/physics/PhysicsEngine.java:21-27 | a new engine with a new bird satisfies the engine invariant |
| Engines.UpdatePreservesValid | core/src/main/java/ape/poopybird/physics/PhysicsEngine.java:29-44 | a tick keeps the wind valid, holds no removable poop or power-up, keeps every power-up at the collection height, keeps the multiplier in [0.3, 1] and the bird's cooldown non-negative |
| Engines.EditsPreserveValid | core/src/main/java/ape/poopybird/physics/PhysicsEngine.java:117-136 | firing, adding a target or a fresh power-up, and clearing keep the engine invariant |
| Engines.TickNeverReducesCooldown | core/src/main/java/ape/poopybird/physics/PhysicsEngine.java:29-44 | with a sine in [-1, 1] and every power-up at the collection height, no tick changes the bird's cooldown multiplier |

## Left out

- Rendering: the scene-graph updates in every entity, the wing angle and flap speed, the power-up bob and spin, and `Bird.getRotationAngle`. None of them affects the simulation.
- Screens, HUD, menus and input devices. From `GameScreen` only the firing step is modelled (`Engines.Fire`). Its spawn timers, hit feedback and the order in which it advances the round clock are not.
- Random draws and trigonometry. `MathUtils.random`, `cosDeg`, `sinDeg` and `sin` become arguments (`WindDraw`, the heading and speed of `NewTarget`, the `sin` function), constrained only by their ranges.
- `atan2`, `Wind.getAngle` and `Wind.getSpeed` are not modelled. `WindModel.DirectionName` takes the heading angle in degrees that `getAngle` would compute.
- Float rounding, NaN and infinity, and 32-bit `int` overflow of the score and counters.
- ProjectileCalculator.TrajectoryPoints: requires `numPoints` to be 0 or at least 2. Java divides by `numPoints - 1`, so one point gives NaN, and a negative count throws on the array allocation. Neither can be expressed over `real`.
- Birds.CooldownProgress: requires a positive multiplier. Java's division by a zero multiplier yields infinity, which `real` cannot represent. The multiplier starts at 1 and `applyCooldownReduction` floors it at 0.3, so every reachable bird meets the requirement (`Birds.MultiplierStaysInRange`).
- Poops.Update: the Euler-integrated landing point is not related to `ProjectileCalculator.LandingPosition`. The last Euler step overshoots the ground before it is clamped, so the two differ.

## Findings

| source | as written | input that shows it | evidently intended | confidence | as-written member | corrected member |
|---|---|---|---|---|---|---|
| core/src/main/java/ape/poopybird/entities/PowerUp.java:68-81 | power-ups float at height 3 (line 41) and are collected only within a 3D distance below 3 (`POWERUP_COLLECT_RADIUS`, `PhysicsEngine.java` line 19), but every bird flies at height 8 or more | a sparrow at the bottom of its band, (x, 8, z), straight over a power-up at (x, 3, z): the distance is 5, so nothing is collected, and no other bird flies lower | a bird passing over a power-up collects it | not executed; high | PowerUps.NoBirdInItsBandCollects | PowerUps.CheckCollectionOverhead |
| core/src/main/java/ape/poopybird/entities/Bird.java:99-102 | the progress divides the remaining cooldown by the type's cooldown times the *current* multiplier, but the running cooldown was set with the multiplier in force when the bird fired | a sparrow fires (cooldown 1.5 at multiplier 1), then its multiplier drops to 0.7 before the cooldown runs out: progress is 1 - 1.5/1.05, about -0.43, and `HUD.renderCooldownBar` draws a bar of negative width. As written this is latent: the multiplier only drops through a collected power-up, and none can be collected (row above, `Engines.TickNeverReducesCooldown`); it surfaces as soon as collection works | a progress within [0, 1] | not executed; medium | Birds.CooldownProgressGoesNegative | Birds.ClampedCooldownProgress |

The engine keeps the source's collection test, so that `Engines.Update` and its
lemmas describe the program as written. The corrected test stands beside it
with its own properties.
