/**
  The repository's record-returning reads: point lookup by registration
  number, paging over the natural order, a closed score range on one subject,
  and the combined filter search.
*/
module Queries {
  import opened Wrappers
  import opened Numbers
  import opened Students
  import opened StudentSchema

  /** The store refuses a negative skip. */
  datatype QueryError = SkipNegative

  /** The records of `s` satisfying `p`, in store order, each with its multiplicity. */
  function Where(s: seq<Student>, p: Student -> bool): (r: seq<Student>)
    ensures |r| <= |s|
    ensures forall x :: multiset(r)[x] == if p(x) then multiset(s)[x] else 0
  {
    if |s| == 0 then []
    else
      var rest := Where(s[1..], p);
      assert s == [s[0]] + s[1..];
      if p(s[0]) then [s[0]] + rest else rest
  }

  lemma WhereMembership(s: seq<Student>, p: Student -> bool, x: Student)
    ensures x in Where(s, p) <==> x in s && p(x)
  {
  }

  // ---------------------------------------------------------------------------
  // findById
  // ---------------------------------------------------------------------------

  /** `findOne({ sbd })`: the first stored record with this registration number. */
  function FindById(store: seq<Student>, sbd: string): (r: Option<Student>)
    ensures r.None? <==> forall i :: 0 <= i < |store| ==> store[i].sbd != sbd
    ensures r.Some? ==> r.value in store && r.value.sbd == sbd
  {
    if |store| == 0 then None
    else if store[0].sbd == sbd then Some(store[0])
    else FindById(store[1..], sbd)
  }

  /** With unique registration numbers the lookup returns the one matching record. */
  lemma {:induction false} FindByIdUnique(store: seq<Student>, sbd: string, i: int)
    requires UniqueSbd(store)
    requires 0 <= i < |store| && store[i].sbd == sbd
    ensures FindById(store, sbd) == Some(store[i])
  {
    if store[0].sbd != sbd {
      assert i > 0;
      assert UniqueSbd(store[1..]) by {
        forall a, b | 0 <= a < b < |store[1..]|
          ensures store[1..][a].sbd != store[1..][b].sbd
        {
          assert store[1..][a] == store[a + 1] && store[1..][b] == store[b + 1];
        }
      }
      FindByIdUnique(store[1..], sbd, i - 1);
    }
  }

  // ---------------------------------------------------------------------------
  // findAll paging
  // ---------------------------------------------------------------------------

  const DefaultPage := 1
  const DefaultPageSize := 10

  function Abs(n: int): nat
  {
    if n < 0 then -n else n
  }

  /**
    `find().skip((page - 1) * limit).limit(limit)`. An omitted argument takes its
    default; a limit of 0 means no limit and a negative limit returns |limit|
    records, as the driver reads them.
  */
  function FindAll(store: seq<Student>, page: Option<int>, limit: Option<int>): (r: Result<seq<Student>, QueryError>)
    ensures var p := if page.Some? then page.value else DefaultPage;
      var l := if limit.Some? then limit.value else DefaultPageSize;
      var skip := (p - 1) * l;
      && (r.Failure? <==> skip < 0)
      && (r.Success? ==>
        && |r.value| == (if skip >= |store| then 0 else if l == 0 then |store| - skip else Min(Abs(l), |store| - skip))
        && forall i :: 0 <= i < |r.value| ==> r.value[i] == store[skip + i])
  {
    var p := if page.Some? then page.value else DefaultPage;
    var l := if limit.Some? then limit.value else DefaultPageSize;
    var skip := (p - 1) * l;
    if skip < 0 then Failure(SkipNegative)
    else
      var rest := if skip <= |store| then store[skip..] else [];
      var n := if l == 0 then |rest| else Min(Abs(l), |rest|);
      Success(rest[..n])
  }

  /** With positive page and size the pages tile the store: page k starts where page k - 1 ends. */
  lemma PagesAreConsecutive(store: seq<Student>, page: int, limit: int)
    requires page >= 1 && limit >= 1
    requires page * limit < |store|
    ensures FindAll(store, Some(page), Some(limit)).Success?
    ensures |FindAll(store, Some(page), Some(limit)).value| == limit
    ensures FindAll(store, Some(page + 1), Some(limit)).Success?
    ensures FindAll(store, Some(page + 1), Some(limit)).value[0] == store[page * limit]
  {
    assert (page - 1) * limit + limit == page * limit;
  }

  // ---------------------------------------------------------------------------
  // findByScoreRange
  // ---------------------------------------------------------------------------

  /** `{ [subject]: { $gte: min, $lte: max } }`: a null score satisfies neither bound. */
  predicate InClosedRange(score: Option<real>, min: real, max: real)
  {
    score.Some? && min <= score.value && score.value <= max
  }

  function FindByScoreRange(store: seq<Student>, subject: Subject, min: real, max: real): (r: seq<Student>)
    ensures forall x :: x in r <==>
      (x in store && ScoreOf(x, subject).Some? && min <= ScoreOf(x, subject).value <= max)
    ensures forall x :: x in store && InClosedRange(ScoreOf(x, subject), min, max) ==> multiset(r)[x] == multiset(store)[x]
  {
    var p := (x: Student) => InClosedRange(ScoreOf(x, subject), min, max);
    var r := Where(store, p);
    assert forall x :: x in r <==> x in store && p(x) by {
      forall x ensures x in r <==> x in store && p(x) {
        WhereMembership(store, p, x);
      }
    }
    r
  }

  // ---------------------------------------------------------------------------
  // searchByFilters
  // ---------------------------------------------------------------------------

  /** The caller's filter object; score bounds are keyed by subject. */
  datatype Filters = Filters(
    sbd: Option<string>,
    maNgoaiNgu: Option<string>,
    minScore: Option<map<Subject, real>>,
    maxScore: Option<map<Subject, real>>)

  /** The operator object stored under one subject key of the query. */
  datatype Bounds = Bounds(gte: Option<real>, lte: Option<real>)

  /** The query document the repository hands to `find`. */
  datatype Query = Query(sbdPattern: Option<string>, maNgoaiNgu: Option<string>, scores: map<Subject, Bounds>)

  /** JavaScript truthiness of an optional string: absent and "" are falsy. */
  predicate Truthy(s: Option<string>)
  {
    s.Some? && |s.value| > 0
  }

  function Get(m: map<Subject, real>, k: Subject): Option<real>
  {
    if k in m then Some(m[k]) else None
  }

  /** The `$gte` pass: each entry creates its subject's bounds or adds `$gte` to them. */
  function AddLowerBounds(scores: map<Subject, Bounds>, mins: map<Subject, real>): map<Subject, Bounds>
  {
    map subject | subject in scores.Keys + mins.Keys ::
      if subject in mins then
        Bounds(Some(mins[subject]), if subject in scores then scores[subject].lte else None)
      else scores[subject]
  }

  /** The `$lte` pass, run after the `$gte` pass. */
  function AddUpperBounds(scores: map<Subject, Bounds>, maxs: map<Subject, real>): map<Subject, Bounds>
  {
    map subject | subject in scores.Keys + maxs.Keys ::
      if subject in maxs then
        Bounds(if subject in scores then scores[subject].gte else None, Some(maxs[subject]))
      else scores[subject]
  }

  function BuildQuery(f: Filters): Query
  {
    var withMins := if f.minScore.Some? then AddLowerBounds(map[], f.minScore.value) else map[];
    var withMaxs := if f.maxScore.Some? then AddUpperBounds(withMins, f.maxScore.value) else withMins;
    Query(
      if Truthy(f.sbd) then f.sbd else None,
      if Truthy(f.maNgoaiNgu) then f.maNgoaiNgu else None,
      withMaxs)
  }

  predicate BoundsHold(b: Bounds, score: Option<real>)
  {
    && (b.gte.Some? ==> score.Some? && score.value >= b.gte.value)
    && (b.lte.Some? ==> score.Some? && score.value <= b.lte.value)
  }

  /**
    Whether a record matches the query. `sbdMatches(pattern, sbd)` stands for
    the store's case-insensitive regular-expression test.
  */
  predicate Matches(q: Query, x: Student, sbdMatches: (string, string) -> bool)
  {
    && (q.sbdPattern.Some? ==> sbdMatches(q.sbdPattern.value, x.sbd))
    && (q.maNgoaiNgu.Some? ==> x.maNgoaiNgu == q.maNgoaiNgu)
    && forall subject :: subject in q.scores ==> BoundsHold(q.scores[subject], ScoreOf(x, subject))
  }

  function SearchByFilters(store: seq<Student>, f: Filters, sbdMatches: (string, string) -> bool): seq<Student>
  {
    var q := BuildQuery(f);
    Where(store, x => Matches(q, x, sbdMatches))
  }

  /** Every constraint the filters state, read directly off the filter object. */
  predicate SatisfiesFilters(f: Filters, x: Student, sbdMatches: (string, string) -> bool)
  {
    && (Truthy(f.sbd) ==> sbdMatches(f.sbd.value, x.sbd))
    && (Truthy(f.maNgoaiNgu) ==> x.maNgoaiNgu == f.maNgoaiNgu)
    && (f.minScore.Some? ==> forall subject :: subject in f.minScore.value ==>
          ScoreOf(x, subject).Some? && ScoreOf(x, subject).value >= f.minScore.value[subject])
    && (f.maxScore.Some? ==> forall subject :: subject in f.maxScore.value ==>
          ScoreOf(x, subject).Some? && ScoreOf(x, subject).value <= f.maxScore.value[subject])
  }

  /** A minimum and a maximum on one subject end up as one range on that subject. */
  lemma BuildQueryCombinesBounds(f: Filters, subject: Subject)
    ensures var mins := if f.minScore.Some? then f.minScore.value else map[];
      var maxs := if f.maxScore.Some? then f.maxScore.value else map[];
      var q := BuildQuery(f);
      && (subject in q.scores <==> subject in mins || subject in maxs)
      && (subject in q.scores ==> q.scores[subject] == Bounds(Get(mins, subject), Get(maxs, subject)))
  {
  }

  /** A record is returned exactly when it is stored and satisfies every constraint. */
  lemma SearchByFiltersMatches(store: seq<Student>, f: Filters, sbdMatches: (string, string) -> bool, x: Student)
    ensures x in SearchByFilters(store, f, sbdMatches) <==> x in store && SatisfiesFilters(f, x, sbdMatches)
  {
    var q := BuildQuery(f);
    WhereMembership(store, y => Matches(q, y, sbdMatches), x);
    forall subject: Subject
      ensures (subject in q.scores ==> BoundsHold(q.scores[subject], ScoreOf(x, subject))) <==>
        && (f.minScore.Some? && subject in f.minScore.value ==>
              ScoreOf(x, subject).Some? && ScoreOf(x, subject).value >= f.minScore.value[subject])
        && (f.maxScore.Some? && subject in f.maxScore.value ==>
              ScoreOf(x, subject).Some? && ScoreOf(x, subject).value <= f.maxScore.value[subject])
    {
      BuildQueryCombinesBounds(f, subject);
    }
    assert Matches(q, x, sbdMatches) <==> SatisfiesFilters(f, x, sbdMatches);
  }
}
