/**
 * The round's bookkeeping (util/GameState.java): a countdown that ends the
 * round, the score, and the shot and hit counters behind the accuracy.
 */
module GameStates {

  import opened Vectors
  import opened Constants

  /** Java `int` counters are unbounded here. */
  datatype GameState = GameState(
    score: int,
    timeRemaining: real,
    gameOver: bool,
    paused: bool,
    poopCount: int,
    hitCount: int)

  /** `reset` (also what the constructor does): a fresh round. */
  function Reset(): (g: GameState)
    ensures g.score == 0 && g.timeRemaining == GameDuration
    ensures !g.gameOver && !g.paused && g.poopCount == 0 && g.hitCount == 0
  {
    GameState(0, GameDuration, false, false, 0, 0)
  }

  /**
   * `update`: a running round counts down by `delta`; reaching 0 ends it, with
   * the clock stopped at exactly 0. A paused or finished round is untouched.
   */
  function Update(g: GameState, delta: real): (r: GameState)
    ensures g.paused || g.gameOver ==> r == g
    ensures r == g.(timeRemaining := r.timeRemaining, gameOver := r.gameOver)
    ensures !g.paused && !g.gameOver ==>
              (r.gameOver <==> g.timeRemaining - delta <= 0.0)
              && (r.gameOver ==> r.timeRemaining == 0.0)
              && (!r.gameOver ==> r.timeRemaining == g.timeRemaining - delta)
    ensures !g.paused && !g.gameOver ==> 0.0 <= r.timeRemaining
    ensures g.gameOver ==> r.gameOver
  {
    if g.paused || g.gameOver then g
    else
      var left := g.timeRemaining - delta;
      if left <= 0.0 then g.(timeRemaining := 0.0, gameOver := true)
      else g.(timeRemaining := left)
  }

  /** `addScore`: unguarded, so the score only grows because callers add positive points. */
  function AddScore(g: GameState, points: int): (r: GameState)
    ensures r == g.(score := r.score)
    ensures r.score - g.score == points
    ensures 0 <= points ==> g.score <= r.score
  {
    g.(score := g.score + points)
  }

  /** `incrementPoopCount`: one more shot, nothing else. */
  function IncrementPoopCount(g: GameState): (r: GameState)
    ensures r == g.(poopCount := r.poopCount) && r.poopCount == g.poopCount + 1
  {
    g.(poopCount := g.poopCount + 1)
  }

  /** `incrementHitCount`: one more hit, nothing else. */
  function IncrementHitCount(g: GameState): (r: GameState)
    ensures r == g.(hitCount := r.hitCount) && r.hitCount == g.hitCount + 1
  {
    g.(hitCount := g.hitCount + 1)
  }

  function SetGameOver(g: GameState, over: bool): (r: GameState)
    ensures r == g.(gameOver := r.gameOver) && r.gameOver == over
  {
    g.(gameOver := over)
  }

  function SetPaused(g: GameState, paused: bool): (r: GameState)
    ensures r == g.(paused := r.paused) && r.paused == paused
  {
    g.(paused := paused)
  }

  /**
   * `getAccuracy`: hits per shot as a percentage, and 0 before the first shot.
   * It is not bounded by 100, since one landing can hit several targets.
   */
  function Accuracy(g: GameState): (percent: real)
    ensures g.poopCount == 0 ==> percent == 0.0
    ensures g.poopCount != 0 ==> percent * (g.poopCount as real) == 100.0 * (g.hitCount as real)
    ensures 0 <= g.hitCount && 0 <= g.poopCount ==> 0.0 <= percent
  {
    if g.poopCount == 0 then 0.0
    else
      var ratio := g.hitCount as real / g.poopCount as real;
      assert ratio * (g.poopCount as real) == g.hitCount as real;
      assert 0 <= g.hitCount && 0 < g.poopCount ==> 0.0 <= ratio;
      ratio * 100.0
  }

  /** Four shots with two hits give 50 per cent; one shot with two hits gives 200. */
  lemma AccuracyExamples()
    ensures Accuracy(Reset().(poopCount := 4, hitCount := 2)) == 50.0
    ensures Accuracy(Reset().(poopCount := 1, hitCount := 2)) == 200.0
  {
  }

  /** The game state after a run of `update` calls. */
  function Run(g: GameState, deltas: seq<real>): GameState
    decreases |deltas|
  {
    if |deltas| == 0 then g else Run(Update(g, deltas[0]), deltas[1..])
  }

  /** A finished round stays finished and frozen, however long the clock is fed. */
  lemma {:induction false} GameOverIsFinal(g: GameState, deltas: seq<real>)
    requires g.gameOver
    ensures Run(g, deltas) == g
    decreases |deltas|
  {
    if |deltas| > 0 {
      GameOverIsFinal(Update(g, deltas[0]), deltas[1..]);
    }
  }

  /**
   * An unpaused round with time left ends exactly when the total elapsed time
   * reaches the time that was left; until then the clock shows the difference.
   */
  lemma {:induction false} RoundEndsWhenTimeRunsOut(g: GameState, deltas: seq<real>)
    requires !g.paused && !g.gameOver && 0.0 < g.timeRemaining
    requires NonNegSteps(deltas)
    ensures Run(g, deltas).gameOver <==> Sum(deltas) >= g.timeRemaining
    ensures Run(g, deltas).gameOver ==> Run(g, deltas).timeRemaining == 0.0
    ensures !Run(g, deltas).gameOver ==> Run(g, deltas).timeRemaining == g.timeRemaining - Sum(deltas)
    decreases |deltas|
  {
    if |deltas| > 0 {
      var next := Update(g, deltas[0]);
      assert NonNegSteps(deltas[1..]);
      SumNonNeg(deltas[1..]);
      if next.gameOver {
        GameOverIsFinal(next, deltas[1..]);
      } else {
        RoundEndsWhenTimeRunsOut(next, deltas[1..]);
      }
    }
  }

  /** A fresh round lasts exactly the game duration of unpaused play. */
  lemma FreshRoundLastsGameDuration(deltas: seq<real>)
    requires NonNegSteps(deltas)
    ensures Run(Reset(), deltas).gameOver <==> Sum(deltas) >= GameDuration
  {
    RoundEndsWhenTimeRunsOut(Reset(), deltas);
  }
}
