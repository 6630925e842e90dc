/** The four score bands and the per-subject distribution record. */
module ScoreLevels {
  import opened Students

  datatype ScoreLevel = Excellent | Good | Average | BelowAverage

  const AllLevels: set<ScoreLevel> := {Excellent, Good, Average, BelowAverage}

  /** The band table: each band's condition as its own half-open interval. */
  predicate InBand(score: real, level: ScoreLevel)
  {
    match level
    case Excellent => score >= 8.0
    case Good => 6.0 <= score < 8.0
    case Average => 4.0 <= score < 6.0
    case BelowAverage => score < 4.0
  }

  /** Position of a band from lowest (0) to highest (3). */
  function Rank(level: ScoreLevel): nat
  {
    match level
    case BelowAverage => 0
    case Average => 1
    case Good => 2
    case Excellent => 3
  }

  /** The band a present score falls in; boundaries 4, 6 and 8 go to the higher band. */
  function Classify(score: real): (r: ScoreLevel)
    ensures InBand(score, r)
    ensures score >= 8.0 <==> r == Excellent
    ensures score < 4.0 <==> r == BelowAverage
  {
    if score >= 8.0 then Excellent
    else if score >= 6.0 then Good
    else if score >= 4.0 then Average
    else BelowAverage
  }

  /** The bands are exhaustive and disjoint: a score is in a band exactly when it classifies to it. */
  lemma ClassifyIff(score: real, level: ScoreLevel)
    ensures InBand(score, level) <==> Classify(score) == level
  {
  }

  /** A higher score never gets a lower band. */
  lemma ClassifyMonotone(x: real, y: real)
    requires x <= y
    ensures Rank(Classify(x)) <= Rank(Classify(y))
  {
  }

  /** One entry of the score-level report. */
  datatype ScoreLevelStats = ScoreLevelStats(subject: Subject, levels: map<ScoreLevel, nat>, total: nat)
}
