/** The view model the score endpoint renders, and its mapper. */
module Presentation {
  import opened Wrappers
  import opened Students
  import opened StudentSchema
  import opened UseCases

  datatype StudentScoreView = StudentScoreView(
    sbd: string,
    toan: Option<real>,
    nguVan: Option<real>,
    ngoaiNgu: Option<real>,
    maNgoaiNgu: Option<string>,
    vatLi: Option<real>,
    hoaHoc: Option<real>,
    sinhHoc: Option<real>,
    lichSu: Option<real>,
    diaLi: Option<real>,
    gdcd: Option<real>)

  function ViewScore(v: StudentScoreView, subject: Subject): Option<real>
  {
    match subject
    case Toan => v.toan
    case NguVan => v.nguVan
    case NgoaiNgu => v.ngoaiNgu
    case VatLi => v.vatLi
    case HoaHoc => v.hoaHoc
    case SinhHoc => v.sinhHoc
    case LichSu => v.lichSu
    case DiaLi => v.diaLi
    case Gdcd => v.gdcd
  }

  /** `StudentScoreViewModelMapper.toViewModel`: a field-for-field copy. */
  function ToViewModel(data: ScoreOutput): (r: StudentScoreView)
    ensures r.sbd == data.sbd && r.maNgoaiNgu == data.maNgoaiNgu
    ensures forall subject: Subject :: ViewScore(r, subject) == OutputScore(data, subject)
  {
    StudentScoreView(data.sbd, data.toan, data.nguVan, data.ngoaiNgu, data.maNgoaiNgu,
      data.vatLi, data.hoaHoc, data.sinhHoc, data.lichSu, data.diaLi, data.gdcd)
  }

  /** Reads a view back as a student record. */
  function ViewAsStudent(v: StudentScoreView): Student
  {
    Student(v.sbd, v.toan, v.nguVan, v.ngoaiNgu, v.maNgoaiNgu,
      v.vatLi, v.hoaHoc, v.sinhHoc, v.lichSu, v.diaLi, v.gdcd)
  }

  /**
    Lookup followed by the mapper loses and changes nothing: the view reads back
    as exactly the stored record, and a missing registration number yields null.
  */
  lemma LookupThenViewIsStoredRecord(store: seq<Student>, registrationNumber: string)
    requires UniqueSbd(store)
    ensures var r := GetStudentScore(store, registrationNumber);
      && (r.None? <==> forall i :: 0 <= i < |store| ==> store[i].sbd != registrationNumber)
      && forall i :: 0 <= i < |store| && store[i].sbd == registrationNumber ==>
           r.Some? && ViewAsStudent(ToViewModel(r.value)) == store[i]
  {
    forall i | 0 <= i < |store| && store[i].sbd == registrationNumber
      ensures GetStudentScore(store, registrationNumber).Some?
      ensures ViewAsStudent(ToViewModel(GetStudentScore(store, registrationNumber).value)) == store[i]
    {
      Queries.FindByIdUnique(store, registrationNumber, i);
    }
  }
}
