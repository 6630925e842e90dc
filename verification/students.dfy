/**
  The `Student` entity: one candidate's registration number, nine optional
  subject scores and an optional foreign-language code, together with the
  null-skipping group average the entity computes.
*/
module Students {
  import opened Wrappers

  /** The nine examined subjects, named after the record's fields. */
  datatype Subject = Toan | NguVan | NgoaiNgu | VatLi | HoaHoc | SinhHoc | LichSu | DiaLi | Gdcd

  /** One candidate; `None` is a score the candidate did not sit. */
  datatype Student = Student(
    sbd: string,
    toan: Option<real>,
    nguVan: Option<real>,
    ngoaiNgu: Option<real>,
    maNgoaiNgu: Option<string>,
    vatLi: Option<real>,
    hoaHoc: Option<real>,
    sinhHoc: Option<real>,
    lichSu: Option<real>,
    diaLi: Option<real>,
    gdcd: Option<real>)

  /** The nine subjects in the order the statistics report lists them. */
  const AllSubjects: seq<Subject> := [Toan, NguVan, NgoaiNgu, VatLi, HoaHoc, SinhHoc, LichSu, DiaLi, Gdcd]

  lemma AllSubjectsListed()
    ensures forall subject: Subject :: subject in AllSubjects
  {
    forall subject: Subject
      ensures subject in AllSubjects
    {
      var i := match subject
        case Toan => 0 case NguVan => 1 case NgoaiNgu => 2
        case VatLi => 3 case HoaHoc => 4 case SinhHoc => 5
        case LichSu => 6 case DiaLi => 7 case Gdcd => 8;
      assert AllSubjects[i] == subject;
    }
  }

  const NaturalSciences: seq<Subject> := [VatLi, HoaHoc, SinhHoc]
  const SocialSciences: seq<Subject> := [LichSu, DiaLi, Gdcd]

  /** Group A: mathematics, physics, chemistry. */
  const GroupA: seq<Subject> := [Toan, VatLi, HoaHoc]

  function ScoreOf(s: Student, subject: Subject): Option<real>
  {
    match subject
    case Toan => s.toan
    case NguVan => s.nguVan
    case NgoaiNgu => s.ngoaiNgu
    case VatLi => s.vatLi
    case HoaHoc => s.hoaHoc
    case SinhHoc => s.sinhHoc
    case LichSu => s.lichSu
    case DiaLi => s.diaLi
    case Gdcd => s.gdcd
  }

  /** The scores of `s` for the listed subjects, in list order (repeats kept). */
  function ScoresOf(s: Student, subjects: seq<Subject>): (r: seq<Option<real>>)
    ensures |r| == |subjects|
    ensures forall i :: 0 <= i < |subjects| ==> r[i] == ScoreOf(s, subjects[i])
  {
    if |subjects| == 0 then [] else [ScoreOf(s, subjects[0])] + ScoresOf(s, subjects[1..])
  }

  // ---------------------------------------------------------------------------
  // Null-skipping mean
  // ---------------------------------------------------------------------------

  /** The non-null scores, in order. */
  function Present(xs: seq<Option<real>>): seq<real>
  {
    if |xs| == 0 then []
    else if xs[0].Some? then [xs[0].value] + Present(xs[1..])
    else Present(xs[1..])
  }

  function Sum(xs: seq<real>): real
  {
    if |xs| == 0 then 0.0 else xs[0] + Sum(xs[1..])
  }

  /** Mean of the non-null scores; `None` when there are none. */
  function Mean(xs: seq<Option<real>>): Option<real>
  {
    var ys := Present(xs);
    if |ys| == 0 then None else Some(Sum(ys) / |ys| as real)
  }

  /** Number of non-null entries, counted directly over the optional scores. */
  function PresentCount(xs: seq<Option<real>>): nat
  {
    if |xs| == 0 then 0 else (if xs[0].Some? then 1 else 0) + PresentCount(xs[1..])
  }

  /** Sum of the entries with a null entry contributing nothing. */
  function PresentTotal(xs: seq<Option<real>>): real
  {
    if |xs| == 0 then 0.0 else (if xs[0].Some? then xs[0].value else 0.0) + PresentTotal(xs[1..])
  }

  function MinOf(ys: seq<real>): real
    requires |ys| > 0
  {
    if |ys| == 1 then ys[0] else var m := MinOf(ys[1..]); if ys[0] <= m then ys[0] else m
  }

  function MaxOf(ys: seq<real>): real
    requires |ys| > 0
  {
    if |ys| == 1 then ys[0] else var m := MaxOf(ys[1..]); if ys[0] >= m then ys[0] else m
  }

  /** `Student.calculateAverage`: mean of the listed subjects' non-null scores. */
  function CalculateAverage(s: Student, subjects: seq<Subject>): Option<real>
  {
    Mean(ScoresOf(s, subjects))
  }

  function NaturalScienceAverage(s: Student): Option<real>
  {
    CalculateAverage(s, NaturalSciences)
  }

  function SocialScienceAverage(s: Student): Option<real>
  {
    CalculateAverage(s, SocialSciences)
  }

  // ---------------------------------------------------------------------------
  // Lemmas about the mean
  // ---------------------------------------------------------------------------

  lemma {:induction false} PresentEmptyIff(xs: seq<Option<real>>)
    ensures |Present(xs)| == 0 <==> forall i :: 0 <= i < |xs| ==> xs[i].None?
  {
    if |xs| > 0 {
      PresentEmptyIff(xs[1..]);
      assert forall i :: 1 <= i < |xs| ==> xs[i] == xs[1..][i - 1];
    }
  }

  lemma {:induction false} PresentMatchesCounts(xs: seq<Option<real>>)
    ensures |Present(xs)| == PresentCount(xs)
    ensures Sum(Present(xs)) == PresentTotal(xs)
  {
    if |xs| > 0 {
      PresentMatchesCounts(xs[1..]);
      if xs[0].Some? {
        assert Present(xs) == [xs[0].value] + Present(xs[1..]);
        assert Sum(Present(xs)) == xs[0].value + Sum(Present(xs[1..]));
      }
    }
  }

  lemma ScaleMonotone(c: real, a: real, b: real)
    requires c >= 0.0 && a <= b
    ensures c * a <= c * b
  {
  }

  /** `n` copies of the smallest score sum to no more than the scores, `n` copies of the largest to no less. */
  lemma {:induction false} SumBetweenExtremes(ys: seq<real>)
    requires |ys| > 0
    ensures |ys| as real * MinOf(ys) <= Sum(ys) <= |ys| as real * MaxOf(ys)
  {
    if |ys| > 1 {
      var tail := ys[1..];
      var n := |tail| as real;
      SumBetweenExtremes(tail);
      var lo, hi := MinOf(ys), MaxOf(ys);
      assert Sum(ys) == ys[0] + Sum(tail);
      assert lo <= MinOf(tail) && lo <= ys[0];
      assert hi >= MaxOf(tail) && hi >= ys[0];
      ScaleMonotone(n, lo, MinOf(tail));
      ScaleMonotone(n, MaxOf(tail), hi);
      assert |ys| as real * lo == lo + n * lo;
      assert |ys| as real * hi == hi + n * hi;
    }
  }

  lemma {:induction false} ExtremesWithin(ys: seq<real>, lo: real, hi: real)
    requires |ys| > 0
    requires forall i :: 0 <= i < |ys| ==> lo <= ys[i] <= hi
    ensures lo <= MinOf(ys) && MaxOf(ys) <= hi
  {
    if |ys| > 1 {
      assert forall i :: 0 <= i < |ys[1..]| ==> ys[1..][i] == ys[i + 1];
      ExtremesWithin(ys[1..], lo, hi);
    }
  }

  lemma {:induction false} PresentWithin(xs: seq<Option<real>>, lo: real, hi: real)
    requires forall i :: 0 <= i < |xs| && xs[i].Some? ==> lo <= xs[i].value <= hi
    ensures forall j :: 0 <= j < |Present(xs)| ==> lo <= Present(xs)[j] <= hi
  {
    if |xs| > 0 {
      assert forall i :: 0 <= i < |xs[1..]| ==> xs[1..][i] == xs[i + 1];
      PresentWithin(xs[1..], lo, hi);
    }
  }

  /** A null-skipping mean is null exactly when every entry is null. */
  lemma MeanNoneIff(xs: seq<Option<real>>)
    ensures Mean(xs).None? <==> forall i :: 0 <= i < |xs| ==> xs[i].None?
  {
    PresentEmptyIff(xs);
  }

  /** Null entries count in neither the numerator nor the denominator. */
  lemma MeanIsRatio(xs: seq<Option<real>>)
    ensures Mean(xs) == if PresentCount(xs) == 0 then None else Some(PresentTotal(xs) / PresentCount(xs) as real)
  {
    PresentMatchesCounts(xs);
  }

  lemma QuotientWithin(total: real, n: real, lo: real, hi: real)
    requires n > 0.0
    requires n * lo <= total <= n * hi
    ensures lo <= total / n <= hi
  {
    var q := total / n;
    assert q * n == total;
  }

  /** A defined mean lies between the smallest and the largest present score. */
  lemma MeanBetweenExtremes(xs: seq<Option<real>>)
    ensures Mean(xs).Some? ==> MinOf(Present(xs)) <= Mean(xs).value <= MaxOf(Present(xs))
  {
    var ys := Present(xs);
    if |ys| > 0 {
      SumBetweenExtremes(ys);
      QuotientWithin(Sum(ys), |ys| as real, MinOf(ys), MaxOf(ys));
    }
  }

  /** A defined mean of scores within `[lo, hi]` is itself within `[lo, hi]`. */
  lemma MeanWithin(xs: seq<Option<real>>, lo: real, hi: real)
    requires forall i :: 0 <= i < |xs| && xs[i].Some? ==> lo <= xs[i].value <= hi
    ensures Mean(xs).Some? ==> lo <= Mean(xs).value <= hi
  {
    if Mean(xs).Some? {
      MeanBetweenExtremes(xs);
      PresentWithin(xs, lo, hi);
      ExtremesWithin(Present(xs), lo, hi);
    }
  }

  // ---------------------------------------------------------------------------
  // Lemmas about the entity's averages
  // ---------------------------------------------------------------------------

  /** `calculateAverage` is null exactly when every listed subject is null. */
  lemma CalculateAverageNullIff(s: Student, subjects: seq<Subject>)
    ensures CalculateAverage(s, subjects).None? <==>
      forall i :: 0 <= i < |subjects| ==> ScoreOf(s, subjects[i]).None?
  {
    MeanNoneIff(ScoresOf(s, subjects));
  }

  /** Otherwise it is the sum of the non-null listed scores over their count. */
  lemma CalculateAverageIsRatio(s: Student, subjects: seq<Subject>)
    ensures var xs := ScoresOf(s, subjects);
      CalculateAverage(s, subjects) ==
        if PresentCount(xs) == 0 then None else Some(PresentTotal(xs) / PresentCount(xs) as real)
  {
    MeanIsRatio(ScoresOf(s, subjects));
  }

  /** A defined average lies between the extremes of the present listed scores. */
  lemma CalculateAverageBetweenExtremes(s: Student, subjects: seq<Subject>)
    ensures var r := CalculateAverage(s, subjects); var ys := Present(ScoresOf(s, subjects));
      r.Some? ==> MinOf(ys) <= r.value <= MaxOf(ys)
  {
    MeanBetweenExtremes(ScoresOf(s, subjects));
  }

  /** Over [A, B, C] with A = 9, B = 7 and C null the average is 8, not 16/3. */
  lemma CalculateAverageSkipsNull(s: Student)
    requires s.toan == Some(9.0) && s.vatLi == Some(7.0) && s.hoaHoc.None?
    ensures CalculateAverage(s, GroupA) == Some(8.0)
  {
    var xs := ScoresOf(s, GroupA);
    assert xs == [Some(9.0), Some(7.0), None];
    assert xs[1..] == [Some(7.0), None];
    assert xs[1..][1..] == [None];
    assert xs[1..][1..][1..] == [];
    assert Present(xs[1..][1..]) == [];
    assert Present(xs[1..]) == [7.0];
    assert Present(xs) == [9.0, 7.0];
    assert [9.0, 7.0][1..] == [7.0];
    assert Sum([7.0]) == 7.0;
  }
}
