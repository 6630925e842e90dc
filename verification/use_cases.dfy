/**
  The application layer: the Group A ranking use case and the single-student
  score lookup.
*/
module UseCases {
  import opened Wrappers
  import opened Numbers
  import opened Students
  import opened Queries
  import opened Ranking

  // ---------------------------------------------------------------------------
  // GetTopStudents.executeGroupA
  // ---------------------------------------------------------------------------

  /** The limit used when the caller passes none. */
  const DefaultTopLimit := 10

  /** Delegates to `findTopStudents` with the Group A subjects; an omitted limit is 10. */
  function ExecuteGroupA(store: seq<Student>, limit: Option<int>): Result<seq<Student>, RankingError>
  {
    var k := if limit.Some? then limit.value else DefaultTopLimit;
    FindTopStudents(store, k, GroupA)
  }

  /**
    The use case's result is a top-`limit` selection by Group A average from
    the whole store: records without any Group A score are not filtered out.
  */
  lemma ExecuteGroupAIsTopK(store: seq<Student>, limit: Option<int>)
    ensures var k := if limit.Some? then limit.value else 10;
      var r := ExecuteGroupA(store, limit);
      && (r.Failure? <==> k <= 0)
      && (r.Success? ==> IsTopK(r.value, store, k, AverageKey(GroupA)) && |r.value| == Min(k, |store|))
  {
    var k := if limit.Some? then limit.value else DefaultTopLimit;
    FindTopStudentsIsTopK(store, k, GroupA);
  }

  /** The report endpoint's call with 10 returns the ten best-ranked records, or all if fewer. */
  lemma ControllerCallReturnsTen(store: seq<Student>)
    ensures ExecuteGroupA(store, Some(10)).Success?
    ensures |ExecuteGroupA(store, Some(10)).value| == Min(10, |store|)
    ensures ExecuteGroupA(store, Some(10)) == ExecuteGroupA(store, None)
  {
    ExecuteGroupAIsTopK(store, Some(10));
  }

  /**
    A candidate with no Group A score still appears in the use case's ranking,
    while `getTopGroupAStudents` leaves it out.
  */
  lemma ExecuteGroupAKeepsNullAverage(s: Student)
    requires s.toan.None? && s.vatLi.None? && s.hoaHoc.None?
    ensures ExecuteGroupA([s], None) == Success([s])
    ensures GetTopGroupAStudents([s], DefaultTopLimit) == Success([])
  {
    assert ScoresOf(s, GroupA) == [None, None, None];
    MeanNoneIff(ScoresOf(s, GroupA));
    var key := AverageKey(GroupA);
    assert key(s).None?;
    assert [s][1..] == [];
    assert SortDesc([s], key) == Insert(s, [], key) == [s];
    assert WithKey([s], key) == [] + WithKey([], key) == [];
    assert SortDesc([], key) == [];
    assert Min(DefaultTopLimit, 1) == 1 && [s][..1] == [s];
    assert FindTopStudents([s], DefaultTopLimit, GroupA) == LimitStage([s], DefaultTopLimit);
  }

  /**
    Apart from the null-average records it keeps, the use case ranks like
    `getTopGroupAStudents`: with those records dropped its result is a
    top-`limit` selection among the records with a Group A average, holding
    the same averages in the same positions as any result `q` that
    `getTopGroupAStudents` may return, whatever order the store gives ties.
  */
  lemma ExecuteGroupAMatchesGroupARanking(store: seq<Student>, limit: int, q: seq<Student>)
    requires limit > 0
    requires IsTopK(q, WithKey(store, AverageKey(GroupA)), limit, AverageKey(GroupA))
    ensures ExecuteGroupA(store, Some(limit)).Success?
    ensures var key := AverageKey(GroupA); var w := WithKey(ExecuteGroupA(store, Some(limit)).value, key);
      && IsTopK(w, WithKey(store, key), limit, key)
      && |w| == |q|
      && forall i :: 0 <= i < |q| ==> key(w[i]) == key(q[i])
  {
    ExecuteGroupAIsTopK(store, Some(limit));
    AnyTopStudentsWithAverageRankLikeTopGroupA(store, limit, ExecuteGroupA(store, Some(limit)).value, q);
  }

  // ---------------------------------------------------------------------------
  // GetStudentScore.execute
  // ---------------------------------------------------------------------------

  /** The lookup's output: the stored fields and nothing else (no averages). */
  datatype ScoreOutput = ScoreOutput(
    sbd: string,
    toan: Option<real>,
    nguVan: Option<real>,
    ngoaiNgu: Option<real>,
    maNgoaiNgu: Option<string>,
    vatLi: Option<real>,
    hoaHoc: Option<real>,
    sinhHoc: Option<real>,
    lichSu: Option<real>,
    diaLi: Option<real>,
    gdcd: Option<real>)

  function OutputScore(o: ScoreOutput, subject: Subject): Option<real>
  {
    match subject
    case Toan => o.toan
    case NguVan => o.nguVan
    case NgoaiNgu => o.ngoaiNgu
    case VatLi => o.vatLi
    case HoaHoc => o.hoaHoc
    case SinhHoc => o.sinhHoc
    case LichSu => o.lichSu
    case DiaLi => o.diaLi
    case Gdcd => o.gdcd
  }

  /** Looks the registration number up; null when absent, else the record's fields. */
  function GetStudentScore(store: seq<Student>, registrationNumber: string): (r: Option<ScoreOutput>)
    ensures r.None? <==> forall i :: 0 <= i < |store| ==> store[i].sbd != registrationNumber
    ensures r.Some? ==> r.value.sbd == registrationNumber
  {
    match FindById(store, registrationNumber)
    case None => None
    case Some(s) =>
      Some(ScoreOutput(s.sbd, s.toan, s.nguVan, s.ngoaiNgu, s.maNgoaiNgu,
        s.vatLi, s.hoaHoc, s.sinhHoc, s.lichSu, s.diaLi, s.gdcd))
  }

  /** With unique registration numbers the output carries the one matching record's fields unchanged. */
  lemma GetStudentScoreCopiesRecord(store: seq<Student>, registrationNumber: string, i: int)
    requires StudentSchema.UniqueSbd(store)
    requires 0 <= i < |store| && store[i].sbd == registrationNumber
    ensures GetStudentScore(store, registrationNumber).Some?
    ensures var o := GetStudentScore(store, registrationNumber).value;
      && o.sbd == store[i].sbd
      && o.maNgoaiNgu == store[i].maNgoaiNgu
      && forall subject: Subject :: OutputScore(o, subject) == ScoreOf(store[i], subject)
  {
    FindByIdUnique(store, registrationNumber, i);
  }
}
