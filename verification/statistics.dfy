/**
  The two whole-store aggregations: the mean score of every subject and the
  per-subject distribution of scores over the four bands.
*/
module Statistics {
  import opened Wrappers
  import opened Students
  import opened StudentSchema
  import opened ScoreLevels

  /** One subject's score in every stored record, in store order. */
  function Column(store: seq<Student>, subject: Subject): (r: seq<Option<real>>)
    ensures |r| == |store|
    ensures forall i :: 0 <= i < |store| ==> r[i] == ScoreOf(store[i], subject)
  {
    if |store| == 0 then [] else [ScoreOf(store[0], subject)] + Column(store[1..], subject)
  }

  lemma ColumnAppend(store: seq<Student>, s: Student, subject: Subject)
    ensures Column(store + [s], subject) == Column(store, subject) + [ScoreOf(s, subject)]
  {
  }

  // ---------------------------------------------------------------------------
  // getAverageScores
  // ---------------------------------------------------------------------------

  /** `$group` with `_id: null` emits nothing on an empty collection, so reading `result._id` throws. */
  datatype AggregateError = NoGroupResult

  /** One `$avg` per subject over the whole store; `_id` is not among the keys. */
  function GetAverageScores(store: seq<Student>): (r: Result<map<Subject, Option<real>>, AggregateError>)
    ensures r.Failure? <==> |store| == 0
    ensures r.Success? ==> forall subject: Subject :: subject in r.value
  {
    if |store| == 0 then Failure(NoGroupResult)
    else
      AllSubjectsListed();
      Success(map subject | subject in AllSubjects :: Mean(Column(store, subject)))
  }

  /**
    Each subject's average is null exactly when no record has that score, and
    otherwise is the total of the present scores over their count.
  */
  lemma AverageScoresMeaning(store: seq<Student>, subject: Subject)
    requires |store| > 0
    ensures var avg := GetAverageScores(store).value[subject];
      var col := Column(store, subject);
      && (avg.None? <==> forall i :: 0 <= i < |store| ==> ScoreOf(store[i], subject).None?)
      && (avg == if PresentCount(col) == 0 then None else Some(PresentTotal(col) / PresentCount(col) as real))
  {
    AllSubjectsListed();
    MeanNoneIff(Column(store, subject));
    MeanIsRatio(Column(store, subject));
  }

  /** On a store of valid records every defined subject average lies in [0, 10]. */
  lemma AverageScoresInRange(store: seq<Student>, subject: Subject)
    requires |store| > 0
    requires ValidStore(store)
    ensures var avg := GetAverageScores(store).value[subject];
      avg.Some? ==> 0.0 <= avg.value <= 10.0
  {
    AllSubjectsListed();
    var col := Column(store, subject);
    assert forall i :: 0 <= i < |col| ==> ValidStudent(store[i]) && ValidScore(col[i]);
    MeanWithin(col, 0.0, 10.0);
  }

  lemma {:induction false} PresentIgnoresTrailingNull(xs: seq<Option<real>>)
    ensures Present(xs + [None]) == Present(xs)
  {
    if |xs| > 0 {
      assert (xs + [None])[1..] == xs[1..] + [None];
      PresentIgnoresTrailingNull(xs[1..]);
    }
  }

  /** Adding a record with every score absent leaves every subject average unchanged. */
  lemma BlankRecordChangesNoAverage(store: seq<Student>, blank: Student)
    requires |store| > 0
    requires forall subject: Subject :: ScoreOf(blank, subject).None?
    ensures GetAverageScores(store + [blank]) == GetAverageScores(store)
  {
    forall subject: Subject
      ensures Mean(Column(store + [blank], subject)) == Mean(Column(store, subject))
    {
      ColumnAppend(store, blank, subject);
      PresentIgnoresTrailingNull(Column(store, subject));
    }
    AllSubjectsListed();
    var before := map subject | subject in AllSubjects :: Mean(Column(store, subject));
    var after := map subject | subject in AllSubjects :: Mean(Column(store + [blank], subject));
    assert GetAverageScores(store) == Success(before);
    assert GetAverageScores(store + [blank]) == Success(after);
    assert before == after;
  }

  // ---------------------------------------------------------------------------
  // getScoreLevelStatistics
  // ---------------------------------------------------------------------------

  /** `$gte` between a possibly-null value and a number: null orders below every number. */
  predicate BsonGte(x: Option<real>, bound: real)
  {
    x.Some? && x.value >= bound
  }

  /** `$lt` between a possibly-null value and a number: null is less than every number. */
  predicate BsonLt(x: Option<real>, bound: real)
  {
    x.None? || x.value < bound
  }

  /** The `$cond` of each band's accumulator, conjunct for conjunct. */
  predicate BandCondition(level: ScoreLevel, x: Option<real>)
  {
    match level
    case Excellent => BsonGte(x, 8.0) && x.Some?
    case Good => BsonGte(x, 6.0) && BsonLt(x, 8.0) && x.Some?
    case Average => BsonGte(x, 4.0) && BsonLt(x, 6.0) && x.Some?
    case BelowAverage => BsonLt(x, 4.0) && x.Some?
  }

  /** `$sum` of the band's 1-or-0 condition over one subject's unwound scores. */
  function BandTally(xs: seq<Option<real>>, level: ScoreLevel): nat
  {
    if |xs| == 0 then 0 else (if BandCondition(level, xs[0]) then 1 else 0) + BandTally(xs[1..], level)
  }

  /** The number of present scores that classify to `level`. */
  function ClassifiedCount(xs: seq<Option<real>>, level: ScoreLevel): nat
  {
    if |xs| == 0 then 0
    else (if xs[0].Some? && Classify(xs[0].value) == level then 1 else 0) + ClassifiedCount(xs[1..], level)
  }

  /** One `$group` output document. */
  datatype GroupRow = GroupRow(id: Subject, excellent: nat, good: nat, average: nat, belowAverage: nat, total: nat)

  function GroupFor(store: seq<Student>, subject: Subject): GroupRow
  {
    var col := Column(store, subject);
    GroupRow(subject, BandTally(col, Excellent), BandTally(col, Good), BandTally(col, Average),
      BandTally(col, BelowAverage), PresentCount(col))
  }

  /** The final `map`: each count copied onto its band's key. */
  function ToScoreLevelStats(row: GroupRow): (r: ScoreLevelStats)
    ensures r.subject == row.id && r.total == row.total
    ensures r.levels.Keys == AllLevels
    ensures r.levels[Excellent] == row.excellent && r.levels[Good] == row.good
    ensures r.levels[Average] == row.average && r.levels[BelowAverage] == row.belowAverage
  {
    ScoreLevelStats(row.id,
      map[Excellent := row.excellent, Good := row.good, Average := row.average, BelowAverage := row.belowAverage],
      row.total)
  }

  /**
    Every record contributes one entry per subject, so a non-empty store yields
    one group per subject and an empty store yields none. The store does not
    order `$group` output; the model lists the subjects in report order.
  */
  function GetScoreLevelStatistics(store: seq<Student>): (r: seq<ScoreLevelStats>)
    ensures |store| == 0 ==> r == []
    ensures |store| > 0 ==> |r| == |AllSubjects|
    ensures forall i :: 0 <= i < |r| ==> r[i].subject == AllSubjects[i] && r[i].levels.Keys == AllLevels
  {
    if |store| == 0 then []
    else seq(|AllSubjects|, i requires 0 <= i < |AllSubjects| => ToScoreLevelStats(GroupFor(store, AllSubjects[i])))
  }

  lemma BandConditionIsClassify(level: ScoreLevel, x: Option<real>)
    ensures BandCondition(level, x) <==> x.Some? && Classify(x.value) == level
  {
    if x.Some? {
      ClassifyIff(x.value, level);
    }
  }

  /** Each band's pipeline count is the number of present scores classifying to that band. */
  lemma {:induction false} BandTallyIsClassifiedCount(xs: seq<Option<real>>, level: ScoreLevel)
    ensures BandTally(xs, level) == ClassifiedCount(xs, level)
  {
    if |xs| > 0 {
      BandConditionIsClassify(level, xs[0]);
      BandTallyIsClassifiedCount(xs[1..], level);
    }
  }

  /** Every present score is counted in exactly one band; a null score in none. */
  lemma {:induction false} BandsPartitionPresent(xs: seq<Option<real>>)
    ensures BandTally(xs, Excellent) + BandTally(xs, Good) + BandTally(xs, Average) + BandTally(xs, BelowAverage)
      == PresentCount(xs)
  {
    if |xs| > 0 {
      BandsPartitionPresent(xs[1..]);
    }
  }

  /** The per-subject report: band counts by classification, summing to the number of present scores. */
  lemma ScoreLevelStatisticsCounts(store: seq<Student>, i: int)
    requires |store| > 0 && 0 <= i < |AllSubjects|
    ensures var st := GetScoreLevelStatistics(store)[i];
      var col := Column(store, AllSubjects[i]);
      && (forall level :: level in AllLevels ==> st.levels[level] == ClassifiedCount(col, level))
      && st.levels[Excellent] + st.levels[Good] + st.levels[Average] + st.levels[BelowAverage] == st.total
      && st.total == |Present(col)|
  {
    var col := Column(store, AllSubjects[i]);
    BandTallyIsClassifiedCount(col, Excellent);
    BandTallyIsClassifiedCount(col, Good);
    BandTallyIsClassifiedCount(col, Average);
    BandTallyIsClassifiedCount(col, BelowAverage);
    BandsPartitionPresent(col);
    PresentMatchesCounts(col);
  }

  /** A record whose score is null for a subject changes none of that subject's counts. */
  lemma {:induction false} NullScoreCountsNowhere(xs: seq<Option<real>>, level: ScoreLevel)
    ensures BandTally(xs + [None], level) == BandTally(xs, level)
    ensures PresentCount(xs + [None]) == PresentCount(xs)
  {
    if |xs| > 0 {
      assert (xs + [None])[1..] == xs[1..] + [None];
      NullScoreCountsNowhere(xs[1..], level);
    }
  }

  /** The scores 3.9, 4, 5.9, 6, 7.9, 8, 10 and null give 1, 2, 2, 2 per band and a total of 7. */
  lemma BoundaryExample()
    ensures var xs := [Some(3.9), Some(4.0), Some(5.9), Some(6.0), Some(7.9), Some(8.0), Some(10.0), None];
      && BandTally(xs, BelowAverage) == 1
      && BandTally(xs, Average) == 2
      && BandTally(xs, Good) == 2
      && BandTally(xs, Excellent) == 2
      && PresentCount(xs) == 7
  {
    var xs := [Some(3.9), Some(4.0), Some(5.9), Some(6.0), Some(7.9), Some(8.0), Some(10.0), None];
    assert xs[7..] == [None];
    assert xs[6..] == [Some(10.0)] + xs[7..];
    assert xs[5..] == [Some(8.0)] + xs[6..];
    assert xs[4..] == [Some(7.9)] + xs[5..];
    assert xs[3..] == [Some(6.0)] + xs[4..];
    assert xs[2..] == [Some(5.9)] + xs[3..];
    assert xs[1..] == [Some(4.0)] + xs[2..];
  }
}
