/**
 * The six flyable birds (entities/BirdType.java): a lookup table of per-bird
 * parameters keyed by the variant, plus the difficulty label.
 */
module BirdTypes {

  datatype BirdType = Sparrow | Pigeon | Crow | Seagull | Hawk | Eagle

  /** One row of the table. Scale, wing size and hue only affect rendering. */
  datatype BirdSpec = BirdSpec(
    displayName: string,
    minHeight: real,
    maxHeight: real,
    baseVelocity: real,
    cooldown: real,
    difficulty: int,
    scale: real,
    wingSize: real,
    colorHue: real)

  /** The variants in declaration order. */
  const AllBirds: seq<BirdType> := [Sparrow, Pigeon, Crow, Seagull, Hawk, Eagle]

  /** Position of a variant in declaration order (Java's `ordinal()`). */
  function Ordinal(t: BirdType): (i: nat)
    ensures i < |AllBirds| && AllBirds[i] == t
  {
    match t
    case Sparrow => 0
    case Pigeon => 1
    case Crow => 2
    case Seagull => 3
    case Hawk => 4
    case Eagle => 5
  }

  /**
   * The table. Every row has a non-empty height band and a positive cooldown,
   * and the difficulty rank is the 1-based declaration position.
   */
  function Spec(t: BirdType): (s: BirdSpec)
    ensures s.minHeight < s.maxHeight
    ensures 0.0 < s.cooldown && 0.0 < s.baseVelocity
    ensures s.difficulty == Ordinal(t) + 1
  {
    match t
    case Sparrow => BirdSpec("Sparrow", 8.0, 12.0, 15.0, 1.5, 1, 0.8, 0.5, 0.3)
    case Pigeon => BirdSpec("Pigeon", 10.0, 16.0, 18.0, 1.2, 2, 0.9, 0.6, 0.5)
    case Crow => BirdSpec("Crow", 12.0, 20.0, 22.0, 1.0, 3, 1.0, 0.7, 0.2)
    case Seagull => BirdSpec("Seagull", 15.0, 25.0, 28.0, 0.9, 4, 1.1, 0.75, 0.8)
    case Hawk => BirdSpec("Hawk", 20.0, 35.0, 35.0, 0.8, 5, 1.3, 0.9, 0.4)
    case Eagle => BirdSpec("Eagle", 25.0, 45.0, 45.0, 0.7, 6, 1.5, 1.0, 0.35)
  }

  /** The labels of difficulty ranks 1 through 6. */
  const DifficultyLabels: seq<string> := ["Easy", "Easy+", "Medium", "Medium+", "Hard", "Expert"]

  /** `getDifficultyLabel`, as a function of the rank it switches on. */
  function DifficultyLabel(difficulty: int): (name: string)
    ensures 1 <= difficulty <= 6 ==> name == DifficultyLabels[difficulty - 1]
    ensures !(1 <= difficulty <= 6) ==> name == "Unknown"
  {
    match difficulty
    case 1 => "Easy"
    case 2 => "Easy+"
    case 3 => "Medium"
    case 4 => "Medium+"
    case 5 => "Hard"
    case 6 => "Expert"
    case _ => "Unknown"
  }

  /** The label of a bird's own rank. */
  function Label(t: BirdType): (name: string)
    ensures name != "Unknown"
    ensures name == DifficultyLabels[Ordinal(t)]
  {
    DifficultyLabel(Spec(t).difficulty)
  }

  /** The six ranks get six different labels, none of them "Unknown". */
  lemma DifficultyLabelsDistinct(d1: int, d2: int)
    requires 1 <= d1 <= 6 && 1 <= d2 <= 6
    ensures DifficultyLabel(d1) != "Unknown"
    ensures d1 != d2 ==> DifficultyLabel(d1) != DifficultyLabel(d2)
  {
    var l1, l2 := DifficultyLabel(d1), DifficultyLabel(d2);
    assert l1 == DifficultyLabels[d1 - 1] && l2 == DifficultyLabels[d2 - 1];
    if d1 != d2 {
      // distinct strings differ in length or in their first differing character
      assert l1[0] != l2[0] || |l1| != |l2| || l1[|l1| - 1] != l2[|l2| - 1];
    }
  }

  /**
   * Harder birds are faster and reload sooner: along the declaration order the
   * difficulty and base velocity strictly increase and the cooldown strictly
   * decreases.
   */
  lemma HarderMeansFasterAndQuicker(a: BirdType, b: BirdType)
    requires Ordinal(a) < Ordinal(b)
    ensures Spec(a).difficulty < Spec(b).difficulty
    ensures Spec(a).baseVelocity < Spec(b).baseVelocity
    ensures Spec(a).cooldown > Spec(b).cooldown
  {
  }
}

/**
 * The six target kinds (entities/TargetType.java): three score tiers, three
 * radii and the pure distance-to-score and distance-to-zone lookups.
 */
module TargetTypes {

  import Vectors

  datatype TargetType = Person | Car | Bench | Statue | Umbrella | Picnic

  /** One row of the table. The model height only affects rendering. */
  datatype TargetSpec = TargetSpec(
    displayName: string,
    centerScore: int,
    middleScore: int,
    outerScore: int,
    centerRadius: real,
    middleRadius: real,
    outerRadius: real,
    modelHeight: real)

  /** Scores fall and radii grow from the centre outwards. */
  predicate WellOrdered(s: TargetSpec) {
    && s.centerScore > s.middleScore > s.outerScore > 0
    && 0.0 < s.centerRadius < s.middleRadius < s.outerRadius
  }

  function Spec(t: TargetType): (s: TargetSpec)
    ensures WellOrdered(s)
  {
    match t
    case Person => TargetSpec("Person", 100, 50, 25, 1.5, 3.0, 5.0, 1.8)
    case Car => TargetSpec("Car", 75, 40, 20, 2.5, 5.0, 8.0, 1.2)
    case Bench => TargetSpec("Bench", 60, 30, 15, 2.0, 4.0, 6.0, 0.8)
    case Statue => TargetSpec("Statue", 150, 75, 35, 1.8, 3.5, 5.5, 3.0)
    case Umbrella => TargetSpec("Umbrella", 80, 40, 20, 2.5, 5.0, 7.5, 2.2)
    case Picnic => TargetSpec("Picnic", 50, 25, 10, 4.0, 7.0, 10.0, 0.3)
  }

  /**
   * `getScoreForDistance`: the score of the innermost ring whose radius the
   * distance does not exceed (every boundary inclusive), 0 outside them all.
   */
  function ScoreForDistance(t: TargetType, distance: real): (score: int)
    ensures distance <= Spec(t).centerRadius ==> score == Spec(t).centerScore
    ensures Spec(t).centerRadius < distance <= Spec(t).middleRadius ==> score == Spec(t).middleScore
    ensures Spec(t).middleRadius < distance <= Spec(t).outerRadius ==> score == Spec(t).outerScore
    ensures score == 0 <==> Spec(t).outerRadius < distance
    ensures 0 <= score
  {
    var s := Spec(t);
    if distance <= s.centerRadius then s.centerScore
    else if distance <= s.middleRadius then s.middleScore
    else if distance <= s.outerRadius then s.outerScore
    else 0
  }

  /** `getZoneForDistance`: the label of the ring the distance falls in. */
  function ZoneForDistance(t: TargetType, distance: real): (zone: string)
    ensures zone == "BULLSEYE!" <==> distance <= Spec(t).centerRadius
    ensures zone == "GREAT!" <==> Spec(t).centerRadius < distance <= Spec(t).middleRadius
    ensures zone == "HIT!" <==> Spec(t).middleRadius < distance <= Spec(t).outerRadius
    ensures zone == "MISS" <==> Spec(t).outerRadius < distance
  {
    var s := Spec(t);
    if distance <= s.centerRadius then "BULLSEYE!"
    else if distance <= s.middleRadius then "GREAT!"
    else if distance <= s.outerRadius then "HIT!"
    else "MISS"
  }

  /** The zone label names the tier the score came from; "MISS" exactly for 0. */
  lemma ZoneAgreesWithScore(t: TargetType, distance: real)
    ensures ZoneForDistance(t, distance) == "MISS" <==> ScoreForDistance(t, distance) == 0
    ensures ZoneForDistance(t, distance) == "BULLSEYE!" <==> ScoreForDistance(t, distance) == Spec(t).centerScore
    ensures ZoneForDistance(t, distance) == "GREAT!" <==> ScoreForDistance(t, distance) == Spec(t).middleScore
    ensures ZoneForDistance(t, distance) == "HIT!" <==> ScoreForDistance(t, distance) == Spec(t).outerScore
  {
  }

  /** Moving further from the centre never increases the score. */
  lemma ScoreNonIncreasing(t: TargetType, d1: real, d2: real)
    requires d1 <= d2
    ensures ScoreForDistance(t, d1) >= ScoreForDistance(t, d2)
  {
  }

  /**
   * The same lookup on the squared distance, which is what a hit test can
   * compute without a square root: each ring test `d <= r` becomes `d2 <= r*r`.
   */
  function ScoreForSquaredDistance(t: TargetType, d2: real): int {
    var s := Spec(t);
    if d2 <= s.centerRadius * s.centerRadius then s.centerScore
    else if d2 <= s.middleRadius * s.middleRadius then s.middleScore
    else if d2 <= s.outerRadius * s.outerRadius then s.outerScore
    else 0
  }

  function ZoneForSquaredDistance(t: TargetType, d2: real): string {
    var s := Spec(t);
    if d2 <= s.centerRadius * s.centerRadius then "BULLSEYE!"
    else if d2 <= s.middleRadius * s.middleRadius then "GREAT!"
    else if d2 <= s.outerRadius * s.outerRadius then "HIT!"
    else "MISS"
  }

  /** Looking up the squared distance gives the answer the distance itself gives. */
  lemma SquaredLookupAgrees(t: TargetType, d2: real, d: real)
    requires 0.0 <= d && d * d == d2
    ensures ScoreForSquaredDistance(t, d2) == ScoreForDistance(t, d)
    ensures ZoneForSquaredDistance(t, d2) == ZoneForDistance(t, d)
  {
    var s := Spec(t);
    Vectors.AtMostIffSquares(d, s.centerRadius);
    Vectors.AtMostIffSquares(d, s.middleRadius);
    Vectors.AtMostIffSquares(d, s.outerRadius);
  }
}
