/**
  The data-load script's pure parts: turning a raw CSV cell into a score,
  turning a row into a document, and cutting the rows into insertion batches.
*/
module Seed {
  import opened Wrappers
  import opened Numbers
  import opened Students
  import opened StudentSchema

  // ---------------------------------------------------------------------------
  // parseScore
  // ---------------------------------------------------------------------------

  /** The characters `String.prototype.trim` removes: white space and line terminators. */
  predicate IsTrimmable(c: char)
  {
    var n := c as int;
    || n == 0x09 || n == 0x0B || n == 0x0C || n == 0x20 || n == 0xA0 || n == 0xFEFF
    || n == 0x0A || n == 0x0D || n == 0x2028 || n == 0x2029
    || n == 0x1680 || (0x2000 <= n <= 0x200A) || n == 0x202F || n == 0x205F || n == 0x3000
  }

  /** `value.trim() === ''`. */
  predicate Blank(s: string)
  {
    forall i :: 0 <= i < |s| ==> IsTrimmable(s[i])
  }

  /** Index of the first comma in `s`, or `|s|` when there is none. */
  function FirstComma(s: string): (k: nat)
    ensures k <= |s|
    ensures k < |s| ==> s[k] == ','
    ensures forall j :: 0 <= j < k ==> s[j] != ','
  {
    if |s| == 0 then 0 else if s[0] == ',' then 0 else 1 + FirstComma(s[1..])
  }

  /** `s.replace(',', '.')`: only the first comma becomes a dot. */
  function ReplaceFirstComma(s: string): (r: string)
    ensures |r| == |s|
    ensures forall j :: 0 <= j < |s| ==> r[j] == if j == FirstComma(s) then '.' else s[j]
  {
    if |s| == 0 then ""
    else if s[0] == ',' then "." + s[1..]
    else [s[0]] + ReplaceFirstComma(s[1..])
  }

  /**
    `parseScore`: undefined, empty and blank cells are null; otherwise the cell
    with its first comma turned into a dot is parsed, and a falsy result (0 or
    NaN, here `None`) becomes null. `parseFloat` is the decimal parser.
  */
  function ParseScore(value: Option<string>, parseFloat: string -> Option<real>): (r: Option<real>)
    ensures value.None? || Blank(value.value) ==> r.None?
    ensures r.Some? ==> r.value != 0.0 && parseFloat(ReplaceFirstComma(value.value)) == r
    ensures value.Some? && !Blank(value.value) ==>
      (r.Some? <==> parseFloat(ReplaceFirstComma(value.value)).Some? && parseFloat(ReplaceFirstComma(value.value)).value != 0.0)
  {
    if value.None? || |value.value| == 0 || Blank(value.value) then None
    else
      var parsed := parseFloat(ReplaceFirstComma(value.value));
      if parsed.None? || parsed.value == 0.0 then None else parsed
  }

  /** A decimal comma reaches the parser as a dot: "8,25" is parsed as "8.25". */
  lemma ParseScoreDecimalComma(parseFloat: string -> Option<real>)
    ensures ParseScore(Some("8,25"), parseFloat) ==
      if parseFloat("8.25").Some? && parseFloat("8.25").value != 0.0 then parseFloat("8.25") else None
  {
    assert !IsTrimmable("8,25"[0]);
    assert FirstComma("8,25") == 1 by {
      assert "8,25"[1..] == ",25";
    }
    assert ReplaceFirstComma("8,25") == "8.25";
  }

  /** A genuine score of 0 is stored as absent. */
  lemma ParseScoreDropsZero(value: string, parseFloat: string -> Option<real>)
    requires parseFloat(ReplaceFirstComma(value)) == Some(0.0)
    ensures ParseScore(Some(value), parseFloat).None?
  {
  }

  // ---------------------------------------------------------------------------
  // Rows to documents
  // ---------------------------------------------------------------------------

  /** One CSV row; a column the file lacks is `None`. */
  datatype Row = Row(
    sbd: Option<string>,
    toan: Option<string>,
    nguVan: Option<string>,
    ngoaiNgu: Option<string>,
    vatLi: Option<string>,
    hoaHoc: Option<string>,
    sinhHoc: Option<string>,
    lichSu: Option<string>,
    diaLi: Option<string>,
    gdcd: Option<string>,
    maNgoaiNgu: Option<string>)

  function RowCell(row: Row, subject: Subject): Option<string>
  {
    match subject
    case Toan => row.toan
    case NguVan => row.nguVan
    case NgoaiNgu => row.ngoaiNgu
    case VatLi => row.vatLi
    case HoaHoc => row.hoaHoc
    case SinhHoc => row.sinhHoc
    case LichSu => row.lichSu
    case DiaLi => row.diaLi
    case Gdcd => row.gdcd
  }

  /** A parsed score as a document field: null or a number. */
  function ScoreField(x: Option<real>): Field<real>
  {
    if x.Some? then Value(x.value) else Null
  }

  /** The object literal each row is mapped to before insertion. */
  function RowToDocument(row: Row, parseFloat: string -> Option<real>): (d: Document)
    ensures d.sbd == (if row.sbd.Some? then Value(row.sbd.value) else Missing)
    ensures d.maNgoaiNgu == (if row.maNgoaiNgu.Some? && |row.maNgoaiNgu.value| > 0 then Value(row.maNgoaiNgu.value) else Null)
  {
    Document(
      if row.sbd.Some? then Value(row.sbd.value) else Missing,
      ScoreField(ParseScore(row.toan, parseFloat)),
      ScoreField(ParseScore(row.nguVan, parseFloat)),
      ScoreField(ParseScore(row.ngoaiNgu, parseFloat)),
      if row.maNgoaiNgu.Some? && |row.maNgoaiNgu.value| > 0 then Value(row.maNgoaiNgu.value) else Null,
      ScoreField(ParseScore(row.vatLi, parseFloat)),
      ScoreField(ParseScore(row.hoaHoc, parseFloat)),
      ScoreField(ParseScore(row.sinhHoc, parseFloat)),
      ScoreField(ParseScore(row.lichSu, parseFloat)),
      ScoreField(ParseScore(row.diaLi, parseFloat)),
      ScoreField(ParseScore(row.gdcd, parseFloat)))
  }

  /** Every score field of the document is given: the parsed score, or null. */
  lemma RowToDocumentScores(row: Row, parseFloat: string -> Option<real>, subject: Subject)
    ensures var d := RowToDocument(row, parseFloat);
      && !FieldOf(d, subject).Missing?
      && WithDefault(FieldOf(d, subject)) == ParseScore(RowCell(row, subject), parseFloat)
  {
  }

  /**
    A mapped row is accepted by the schema exactly when it has a non-empty
    `sbd` and every parsed score is in [0, 10]; the stored record then holds
    the row's `sbd`, its non-empty language code and the parsed scores.
  */
  lemma RowToDocumentValidates(row: Row, parseFloat: string -> Option<real>)
    ensures var r := Validate(RowToDocument(row, parseFloat));
      r.Success? <==>
        && row.sbd.Some? && |row.sbd.value| > 0
        && forall subject: Subject :: ValidScore(ParseScore(RowCell(row, subject), parseFloat))
    ensures var r := Validate(RowToDocument(row, parseFloat));
      r.Success? ==>
        && r.value.sbd == row.sbd.value
        && r.value.maNgoaiNgu == (if row.maNgoaiNgu.Some? && |row.maNgoaiNgu.value| > 0 then row.maNgoaiNgu else None)
        && forall subject: Subject :: ScoreOf(r.value, subject) == ParseScore(RowCell(row, subject), parseFloat)
  {
    forall subject: Subject
      ensures WithDefault(FieldOf(RowToDocument(row, parseFloat), subject)) == ParseScore(RowCell(row, subject), parseFloat)
    {
      RowToDocumentScores(row, parseFloat, subject);
    }
  }

  // ---------------------------------------------------------------------------
  // Batches
  // ---------------------------------------------------------------------------

  const BatchSize: nat := 1000

  /** `Math.ceil(rows.length / BATCH_SIZE)`. */
  function BatchCount(n: nat): (r: nat)
    ensures r * BatchSize >= n
    ensures r == 0 || (r - 1) * BatchSize < n
  {
    (n + BatchSize - 1) / BatchSize
  }

  /** `rows.slice(start, end)` with `start = i * BATCH_SIZE` and `end = min(start + BATCH_SIZE, rows.length)`. */
  function Batch(rows: seq<Row>, i: nat): seq<Row>
    requires i < BatchCount(|rows|)
  {
    rows[i * BatchSize .. Min(i * BatchSize + BatchSize, |rows|)]
  }

  function Batches(rows: seq<Row>): (bs: seq<seq<Row>>)
    ensures |bs| == BatchCount(|rows|)
    ensures forall i :: 0 <= i < |bs| ==> bs[i] == Batch(rows, i)
  {
    seq(BatchCount(|rows|), i requires 0 <= i < BatchCount(|rows|) => Batch(rows, i))
  }

  function Flatten(bs: seq<seq<Row>>): seq<Row>
  {
    if |bs| == 0 then [] else Flatten(bs[..|bs| - 1]) + bs[|bs| - 1]
  }

  lemma {:induction false} FlattenBatchesPrefix(rows: seq<Row>, k: nat)
    requires k <= BatchCount(|rows|)
    ensures Flatten(Batches(rows)[..k]) == rows[..Min(k * BatchSize, |rows|)]
  {
    if k > 0 {
      var bs := Batches(rows)[..k];
      assert bs[..k - 1] == Batches(rows)[..k - 1];
      FlattenBatchesPrefix(rows, k - 1);
      var start := (k - 1) * BatchSize;
      assert start < |rows|;
      assert Min(start, |rows|) == start;
      assert bs[k - 1] == rows[start .. Min(start + BatchSize, |rows|)];
      assert rows[..Min(k * BatchSize, |rows|)] == rows[..start] + rows[start .. Min(start + BatchSize, |rows|)];
    }
  }

  /**
    The batches are non-empty, hold at most 1000 rows each, begin at multiples
    of 1000, and laid end to end give back every row once, in order.
  */
  lemma BatchesPartitionRows(rows: seq<Row>)
    ensures Flatten(Batches(rows)) == rows
    ensures forall i :: 0 <= i < |Batches(rows)| ==> 0 < |Batches(rows)[i]| <= BatchSize
    ensures forall i :: 0 <= i < |Batches(rows)| ==>
      Batches(rows)[i] == rows[i * BatchSize .. Min(i * BatchSize + BatchSize, |rows|)]
  {
    var bs := Batches(rows);
    FlattenBatchesPrefix(rows, |bs|);
    assert bs[..|bs|] == bs;
    forall i | 0 <= i < |bs|
      ensures 0 < |bs[i]| <= BatchSize
    {
      assert i * BatchSize <= (|bs| - 1) * BatchSize;
    }
  }
}
