/**
  The persistence schema of a student: which records are valid, what a stored
  record looks like once absent fields take their defaults, the uniqueness of
  the registration number, and the two computed averages the schema exposes.
*/
module StudentSchema {
  import opened Wrappers
  import opened Students

  /** A score field holds null or a number in [0, 10]. */
  predicate ValidScore(x: Option<real>)
  {
    x.None? || 0.0 <= x.value <= 10.0
  }

  predicate ValidStudent(s: Student)
  {
    && |s.sbd| > 0
    && forall subject: Subject :: ValidScore(ScoreOf(s, subject))
  }

  /** No two stored records share a registration number. */
  predicate UniqueSbd(store: seq<Student>)
  {
    forall i, j :: 0 <= i < j < |store| ==> store[i].sbd != store[j].sbd
  }

  predicate ValidStore(store: seq<Student>)
  {
    && UniqueSbd(store)
    && forall i :: 0 <= i < |store| ==> ValidStudent(store[i])
  }

  // ---------------------------------------------------------------------------
  // Documents as handed to the schema
  // ---------------------------------------------------------------------------

  /** A field of an incoming document: absent, explicitly null, or a value. */
  datatype Field<+T> = Missing | Null | Value(v: T)

  datatype Document = Document(
    sbd: Field<string>,
    toan: Field<real>,
    nguVan: Field<real>,
    ngoaiNgu: Field<real>,
    maNgoaiNgu: Field<string>,
    vatLi: Field<real>,
    hoaHoc: Field<real>,
    sinhHoc: Field<real>,
    lichSu: Field<real>,
    diaLi: Field<real>,
    gdcd: Field<real>)

  /** A field whose validation failed. */
  datatype Path = SbdPath | ScorePath(subject: Subject)

  datatype InsertError = ValidationFailed(paths: set<Path>) | DuplicateKey(sbd: string)

  function FieldOf(d: Document, subject: Subject): Field<real>
  {
    match subject
    case Toan => d.toan
    case NguVan => d.nguVan
    case NgoaiNgu => d.ngoaiNgu
    case VatLi => d.vatLi
    case HoaHoc => d.hoaHoc
    case SinhHoc => d.sinhHoc
    case LichSu => d.lichSu
    case DiaLi => d.diaLi
    case Gdcd => d.gdcd
  }

  /** The stored value of a field whose schema default is null. */
  function WithDefault<T>(f: Field<T>): Option<T>
  {
    match f
    case Value(v) => Some(v)
    case _ => None
  }

  /** The required string check: absent, null and the empty string all fail. */
  predicate SbdGiven(f: Field<string>)
  {
    f.Value? && |f.v| > 0
  }

  /** Applies defaults and the required/min/max validators, reporting every failing field. */
  function Validate(d: Document): (r: Result<Student, set<Path>>)
    ensures r.Success? <==>
      SbdGiven(d.sbd) && forall subject: Subject :: ValidScore(WithDefault(FieldOf(d, subject)))
    ensures r.Failure? ==> r.error != {}
    ensures r.Failure? ==> (SbdPath in r.error <==> !SbdGiven(d.sbd))
    ensures r.Failure? ==> forall subject: Subject ::
      ScorePath(subject) in r.error <==> !ValidScore(WithDefault(FieldOf(d, subject)))
    ensures r.Success? ==> ValidStudent(r.value) && r.value.sbd == d.sbd.v
    ensures r.Success? ==> r.value.maNgoaiNgu == WithDefault(d.maNgoaiNgu)
    ensures r.Success? ==> forall subject: Subject :: ScoreOf(r.value, subject) == WithDefault(FieldOf(d, subject))
  {
    var sbdFailures: set<Path> := if SbdGiven(d.sbd) then {} else {SbdPath};
    var scoreFailures: set<Path> :=
      set subject | subject in AllSubjects && !ValidScore(WithDefault(FieldOf(d, subject))) :: ScorePath(subject);
    var failures := sbdFailures + scoreFailures;
    AllSubjectsListed();
    assert forall subject: Subject ::
      !ValidScore(WithDefault(FieldOf(d, subject))) ==> ScorePath(subject) in scoreFailures;
    if failures == {} then
      var stored := Student(
        d.sbd.v,
        WithDefault(d.toan), WithDefault(d.nguVan), WithDefault(d.ngoaiNgu),
        WithDefault(d.maNgoaiNgu),
        WithDefault(d.vatLi), WithDefault(d.hoaHoc), WithDefault(d.sinhHoc),
        WithDefault(d.lichSu), WithDefault(d.diaLi), WithDefault(d.gdcd));
      assert forall subject: Subject :: ScoreOf(stored, subject) == WithDefault(FieldOf(d, subject));
      Success(stored)
    else
      Failure(failures)
  }

  /**
    Insertion under the unique index on `sbd`: a valid document whose
    registration number is already stored is refused.
  */
  function InsertOne(store: seq<Student>, d: Document): (r: Result<seq<Student>, InsertError>)
    ensures Validate(d).Failure? ==> r == Failure(ValidationFailed(Validate(d).error))
    ensures r.Failure? && r.error.DuplicateKey? <==>
      Validate(d).Success? && exists i :: 0 <= i < |store| && store[i].sbd == d.sbd.v
    ensures r.Success? ==> r.value == store + [Validate(d).value]
    ensures ValidStore(store) && r.Success? ==> ValidStore(r.value)
  {
    match Validate(d)
    case Failure(paths) => Failure(ValidationFailed(paths))
    case Success(s) =>
      if exists i :: 0 <= i < |store| && store[i].sbd == s.sbd then Failure(DuplicateKey(s.sbd))
      else Success(store + [s])
  }

  /** A document giving only a registration number is stored with every other field null. */
  lemma AbsentFieldsDefaultToNull(d: Document)
    requires SbdGiven(d.sbd)
    requires forall subject: Subject :: FieldOf(d, subject).Missing?
    requires d.maNgoaiNgu.Missing?
    ensures Validate(d).Success?
    ensures forall subject: Subject :: ScoreOf(Validate(d).value, subject).None?
    ensures Validate(d).value.maNgoaiNgu.None?
  {
  }

  /** Every average over a valid record's subjects lies in [0, 10]. */
  lemma AverageOfValidStudentInRange(s: Student, subjects: seq<Subject>)
    requires ValidStudent(s)
    ensures CalculateAverage(s, subjects).Some? ==> 0.0 <= CalculateAverage(s, subjects).value <= 10.0
  {
    var xs := ScoresOf(s, subjects);
    assert forall i :: 0 <= i < |xs| ==> ValidScore(xs[i]);
    MeanWithin(xs, 0.0, 10.0);
  }

  // ---------------------------------------------------------------------------
  // Virtual fields
  // ---------------------------------------------------------------------------

  /** `natural_science_average`: mean of the present physics, chemistry and biology scores. */
  function NaturalScienceVirtual(s: Student): Option<real>
  {
    Mean([s.vatLi, s.hoaHoc, s.sinhHoc])
  }

  /** `social_science_average`: mean of the present history, geography and civics scores. */
  function SocialScienceVirtual(s: Student): Option<real>
  {
    Mean([s.lichSu, s.diaLi, s.gdcd])
  }

  lemma NaturalScienceVirtualAgrees(s: Student)
    ensures NaturalScienceVirtual(s).None? <==> s.vatLi.None? && s.hoaHoc.None? && s.sinhHoc.None?
    ensures var xs := [s.vatLi, s.hoaHoc, s.sinhHoc];
      PresentCount(xs) > 0 ==> NaturalScienceVirtual(s) == Some(PresentTotal(xs) / PresentCount(xs) as real)
    ensures NaturalScienceVirtual(s) == NaturalScienceAverage(s)
  {
    var xs := [s.vatLi, s.hoaHoc, s.sinhHoc];
    MeanNoneIff(xs);
    assert xs[0] == s.vatLi && xs[1] == s.hoaHoc && xs[2] == s.sinhHoc;
    MeanIsRatio(xs);
    assert ScoresOf(s, NaturalSciences) == xs;
  }

  lemma SocialScienceVirtualAgrees(s: Student)
    ensures SocialScienceVirtual(s).None? <==> s.lichSu.None? && s.diaLi.None? && s.gdcd.None?
    ensures var xs := [s.lichSu, s.diaLi, s.gdcd];
      PresentCount(xs) > 0 ==> SocialScienceVirtual(s) == Some(PresentTotal(xs) / PresentCount(xs) as real)
    ensures SocialScienceVirtual(s) == SocialScienceAverage(s)
  {
    var xs := [s.lichSu, s.diaLi, s.gdcd];
    MeanNoneIff(xs);
    assert xs[0] == s.lichSu && xs[1] == s.diaLi && xs[2] == s.gdcd;
    MeanIsRatio(xs);
    assert ScoresOf(s, SocialSciences) == xs;
  }
}
