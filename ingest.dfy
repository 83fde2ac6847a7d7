/**
 * Reading one DVF file (`_read_one_csv` of utils/io.py): a sniffing read,
 * the fallback grid of encodings and separators, the last-chance read, and
 * the standardisation of the resulting table (snake-case labels, parsed
 * dates and year, the Paris filter, numeric coercion).
 */
module Ingest {
  import opened Wrappers
  import opened Strings
  import opened Sorting
  import opened Frames
  import opened FieldNormalizer

  datatype Encoding = Utf8Sig | Utf8 | Latin1
  datatype Sep = Semicolon | Comma | Tab

  /** What one `pd.read_csv` call gives: an exception, or a table of cells. */
  datatype ParseOutcome = Raised | Parsed(frame: Frame)

  /**
   * A file on disk, known through what each way of reading it yields: the
   * separator-sniffing read, the read with an explicit encoding and
   * separator, and the bare `pd.read_csv(path)`.
   */
  datatype CsvFile = CsvFile(auto: ParseOutcome, explicit: ((Encoding, Sep)) -> ParseOutcome, plain: ParseOutcome)

  /** ParseFailed is the exception of the last-chance read; DuplicateHeader is a label clash after normalisation. */
  datatype ReadError = ParseFailed | DuplicateHeader

  function Encodings(): seq<Encoding> { [Utf8Sig, Utf8, Latin1] }

  function Seps(): seq<Sep> { [Semicolon, Comma, Tab] }

  /** The fallback attempts in the order of the two nested loops, encodings outermost. */
  function Candidates(): seq<(Encoding, Sep)> {
    [(Utf8Sig, Semicolon), (Utf8Sig, Comma), (Utf8Sig, Tab),
     (Utf8, Semicolon), (Utf8, Comma), (Utf8, Tab),
     (Latin1, Semicolon), (Latin1, Comma), (Latin1, Tab)]
  }

  lemma CandidateAt(i: nat, j: nat)
    requires i < 3 && j < 3
    ensures 3 * i + j < |Candidates()| && Candidates()[3 * i + j] == (Encodings()[i], Seps()[j])
  {
    if i == 0 {
    } else if i == 1 {
    } else {
    }
  }

  /** An attempt that succeeds with more than one column. */
  predicate Wide(o: ParseOutcome) {
    o.Parsed? && |o.frame.columns| > 1
  }

  /** The table of the first fallback attempt, from position `k` on, that is wide. */
  function FirstWideFrom(file: CsvFile, k: nat): Option<Frame>
    decreases |Candidates()| - k
  {
    if k >= |Candidates()| then None
    else
      var o := file.explicit(Candidates()[k]);
      if Wide(o) then Some(o.frame) else FirstWideFrom(file, k + 1)
  }

  /** The fallback keeps the first wide attempt, and gives nothing only when no attempt is wide. */
  lemma {:induction false} FirstWideMeaning(file: CsvFile, k: nat)
    decreases |Candidates()| - k
    ensures FirstWideFrom(file, k).None? <==> forall i :: k <= i < |Candidates()| ==> !Wide(file.explicit(Candidates()[i]))
    ensures FirstWideFrom(file, k).Some? ==>
              exists i :: k <= i < |Candidates()| && file.explicit(Candidates()[i]) == Parsed(FirstWideFrom(file, k).value)
                && |FirstWideFrom(file, k).value.columns| > 1
                && forall j :: k <= j < i ==> !Wide(file.explicit(Candidates()[j]))
  {
    if k < |Candidates()| {
      FirstWideMeaning(file, k + 1);
    }
  }

  lemma FirstWideStep(file: CsvFile, i: nat, j: nat)
    requires i < 3 && j < 3
    ensures var o := file.explicit((Encodings()[i], Seps()[j]));
            FirstWideFrom(file, 3 * i + j) == if Wide(o) then Some(o.frame) else FirstWideFrom(file, 3 * i + j + 1)
  {
    CandidateAt(i, j);
  }

  /** The sniffing read is kept unless it raised or gave a single column. */
  predicate AutoUsable(file: CsvFile) {
    file.auto.Parsed? && |file.auto.frame.columns| != 1
  }

  /** Lines 59-98: the table as read, before any standardisation. */
  function RawRead(file: CsvFile): Result<Frame, ReadError> {
    if AutoUsable(file) then Ok(file.auto.frame)
    else match FirstWideFrom(file, 0)
      case Some(f) => Ok(f)
      case None => match file.plain { case Parsed(f) => Ok(f) case Raised => Err(ParseFailed) }
  }

  /**
   * The read fails only when every attempt failed; a single-column table is
   * only ever the last-chance read, after no explicit attempt was wide.
   */
  lemma RawReadOutcome(file: CsvFile)
    ensures var r := RawRead(file);
            && (r.Err? <==> !AutoUsable(file) && (forall i :: 0 <= i < |Candidates()| ==> !Wide(file.explicit(Candidates()[i]))) && file.plain.Raised?)
            && (AutoUsable(file) ==> r == Ok(file.auto.frame))
            && (r.Ok? && |r.value.columns| == 1 ==>
                  file.plain == Parsed(r.value) && forall i :: 0 <= i < |Candidates()| ==> !Wide(file.explicit(Candidates()[i])))
  {
    FirstWideMeaning(file, 0);
  }

  /** A row relabelled: the cell under `labels[k]` becomes the cell under `names[k]`. */
  function RenameRow(r: Row, labels: seq<string>, names: seq<string>): (r': Row)
    requires |labels| == |names| && Distinct(names)
    ensures forall k :: 0 <= k < |names| ==> Get(r', names[k]) == Get(r, labels[k])
    ensures r'.Keys == set k | 0 <= k < |names| :: names[k]
  {
    var m := map k | 0 <= k < |names| :: names[k] := Get(r, labels[k]);
    assert forall k :: 0 <= k < |names| ==> names[k] in m && m[names[k]] == Get(r, labels[k]);
    m
  }

  /** Line 101: `df.columns = [_snake(c) for c in df.columns]`. */
  function SnakeHeaders(f: Frame): (r: Result<Frame, ReadError>)
    ensures r.Err? <==> !Distinct(MapSeq(f.columns, Snake))
    ensures r.Ok? ==> r.value.columns == MapSeq(f.columns, Snake) && |r.value.rows| == |f.rows|
    ensures r.Ok? ==> forall i, k :: 0 <= i < |f.rows| && 0 <= k < |f.columns| ==>
                        Get(r.value.rows[i], Snake(f.columns[k])) == Get(f.rows[i], f.columns[k])
  {
    var names := MapSeq(f.columns, Snake);
    if !Distinct(names) then Err(DuplicateHeader)
    else Ok(Frame(names, seq(|f.rows|, i requires 0 <= i < |f.rows| => RenameRow(f.rows[i], f.columns, names))))
  }

  /** `pd.to_datetime(errors="coerce")` on one cell, with the date recogniser supplied by the caller. */
  function ToDateTime(c: Cell, parseDate: string -> Option<Date>): (r: Cell)
    ensures r.NA? || r.When?
  {
    match c
    case Str(s) => (match parseDate(s) { case Some(d) => When(d) case None => NA })
    case When(_) => c
    case _ => NA
  }

  /** `.dt.year`, missing for a missing date. */
  function YearOf(c: Cell): Cell {
    match c
    case When(d) => Int(d.year)
    case _ => NA
  }

  /** Lines 104-106. */
  function ParseDates(f: Frame, parseDate: string -> Option<Date>): (g: Frame)
    ensures "date_mutation" !in f.columns ==> g == f
  {
    if "date_mutation" in f.columns then
      var d := SetColumn(f, "date_mutation", r => ToDateTime(Get(r, "date_mutation"), parseDate));
      SetColumn(d, "annee", r => YearOf(Get(r, "date_mutation")))
    else f
  }

  /** `astype(str).str.strip()` on the department code. */
  function StripDepartement(r: Row): Row {
    r["code_departement" := Str(Strip(AsText(Get(r, "code_departement"))))]
  }

  predicate InParis(r: Row) {
    Get(r, "code_departement") == Str("75")
  }

  /** Lines 109-111: rows whose stripped department code is exactly "75", in their order. */
  function RegionFilter(f: Frame): (g: Frame)
    ensures g.columns == f.columns
    ensures "code_departement" in f.columns ==> g.rows == Filter(MapSeq(f.rows, StripDepartement), InParis)
    ensures "code_departement" !in f.columns ==> g == f
  {
    if "code_departement" in f.columns then
      var s := SetColumn(f, "code_departement", r => Str(Strip(AsText(Get(r, "code_departement")))));
      assert s.rows == MapSeq(f.rows, StripDepartement);
      Where(s, InParis)
    else f
  }

  /** The columns `_coerce_numeric` is applied to (line 114). */
  function NumericColumns(): seq<string> {
    ["valeur_fonciere", "surface_reelle_bati", "nombre_pieces_principales", "surface_terrain"]
  }

  function CoerceColumn(f: Frame, c: string): Frame {
    SetColumn(f, c, r => CoerceNumeric(Get(r, c)))
  }

  /** One pass of the loop at lines 114-116 for each label of `cs`, in order. */
  function CoerceColumns(f: Frame, cs: seq<string>): (g: Frame)
    ensures g.columns == f.columns && |g.rows| == |f.rows|
    ensures forall i, c :: 0 <= i < |f.rows| && c in cs && c in f.columns ==>
              Get(g.rows[i], c) == CoerceNumeric(Get(f.rows[i], c))
    ensures forall i, c :: 0 <= i < |f.rows| && !(c in cs && c in f.columns) ==>
              Get(g.rows[i], c) == Get(f.rows[i], c)
  {
    if cs == [] then f
    else
      var h := CoerceColumns(f, cs[..|cs| - 1]);
      var c := cs[|cs| - 1];
      assert forall x :: x in cs <==> x in cs[..|cs| - 1] || x == c;
      if c in h.columns then CoerceColumn(h, c) else h
  }

  /** Lines 100-116 applied to a table as read. */
  function Standardise(f: Frame, parseDate: string -> Option<Date>): Result<Frame, ReadError> {
    match SnakeHeaders(f)
    case Err(e) => Err(e)
    case Ok(g) => Ok(CoerceColumns(RegionFilter(ParseDates(g, parseDate)), NumericColumns()))
  }

  /** The table `_read_one_csv` returns for a file, or the error it raises. */
  function CsvTable(file: CsvFile, parseDate: string -> Option<Date>): Result<Frame, ReadError> {
    match RawRead(file)
    case Err(e) => Err(e)
    case Ok(f) => Standardise(f, parseDate)
  }

  /** Lines 59-98, with the two nested attempt loops, `read_ok` and the `break`s of the source. */
  method ReadAttempts(file: CsvFile) returns (r: Result<Frame, ReadError>)
    ensures r == RawRead(file)
  {
    var df: Option<Frame> := if file.auto.Parsed? then Some(file.auto.frame) else None;
    if df.Some? && |df.value.columns| != 1 {
      return Ok(df.value);
    }
    var encodings, seps := Encodings(), Seps();
    var readOk := false;
    var i := 0;
    while i < |encodings|
      invariant 0 <= i <= 3 && !readOk
      invariant FirstWideFrom(file, 0) == FirstWideFrom(file, 3 * i)
    {
      var j := 0;
      while j < |seps|
        invariant 0 <= j <= 3 && !readOk
        invariant FirstWideFrom(file, 0) == FirstWideFrom(file, 3 * i + j)
      {
        FirstWideStep(file, i, j);
        var attempt := file.explicit((encodings[i], seps[j]));
        if attempt.Parsed? && |attempt.frame.columns| > 1 {
          df := Some(attempt.frame);
          readOk := true;
          break;
        }
        j := j + 1;
      }
      if readOk {
        break;
      }
      i := i + 1;
    }
    if readOk {
      assert df == FirstWideFrom(file, 0);
      return Ok(df.value);
    }
    if file.plain.Raised? {
      return Err(ParseFailed);
    }
    r := Ok(file.plain.frame);
  }

  /** Lines 114-116: the coercion loop over the listed columns that are present. */
  method CoerceNumericColumns(t0: Frame, cols: seq<string>) returns (t: Frame)
    ensures t == CoerceColumns(t0, cols)
  {
    t := t0;
    for k := 0 to |cols|
      invariant t == CoerceColumns(t0, cols[..k])
    {
      assert cols[..k + 1][..k] == cols[..k];
      if cols[k] in t.columns {
        t := CoerceColumn(t, cols[k]);
      }
    }
    assert cols[..|cols|] == cols;
  }

  /** `_read_one_csv`. */
  method ReadOneCsv(file: CsvFile, parseDate: string -> Option<Date>) returns (r: Result<Frame, ReadError>)
    ensures r == CsvTable(file, parseDate)
  {
    var raw := ReadAttempts(file);
    if raw.Err? {
      return Err(raw.error);
    }
    var snake := SnakeHeaders(raw.value);
    if snake.Err? {
      return Err(snake.error);
    }
    var t := CoerceNumericColumns(RegionFilter(ParseDates(snake.value, parseDate)), NumericColumns());
    r := Ok(t);
  }

  /** The stages a successful read went through. */
  lemma CsvTableStages(file: CsvFile, parseDate: string -> Option<Date>) returns (g: Frame)
    requires CsvTable(file, parseDate).Ok?
    ensures RawRead(file).Ok? && SnakeHeaders(RawRead(file).value) == Ok(g)
    ensures CsvTable(file, parseDate).value == CoerceColumns(RegionFilter(ParseDates(g, parseDate)), NumericColumns())
  {
    g := SnakeHeaders(RawRead(file).value).value;
  }

  // Properties of the standardised table.

  /** A row whose date cell is parsed or missing and whose year cell agrees with it. */
  predicate DateRowOk(r: Row) {
    var d := Get(r, "date_mutation");
    (d.NA? || d.When?) && Get(r, "annee") == YearOf(d)
  }

  /** When a date column exists, every row satisfies `DateRowOk`. */
  predicate DatesParsed(f: Frame) {
    "date_mutation" in f.columns ==>
      "annee" in f.columns && forall i :: 0 <= i < |f.rows| ==> DateRowOk(f.rows[i])
  }

  /** Every label is a distinct snake-case label. */
  predicate SnakeLabels(f: Frame) {
    Distinct(f.columns) && forall c :: c in f.columns ==> IsSnake(c)
  }

  lemma SnakeHeadersLabels(f: Frame)
    requires SnakeHeaders(f).Ok?
    ensures SnakeLabels(SnakeHeaders(f).value)
  {
    forall c | c in SnakeHeaders(f).value.columns ensures IsSnake(c) {
      var k :| 0 <= k < |f.columns| && MapSeq(f.columns, Snake)[k] == c;
      SnakeShape(f.columns[k]);
    }
  }

  lemma ParseDatesEffect(f: Frame, parseDate: string -> Option<Date>)
    requires SnakeLabels(f)
    ensures SnakeLabels(ParseDates(f, parseDate)) && DatesParsed(ParseDates(f, parseDate))
  {
    var g := ParseDates(f, parseDate);
    if "date_mutation" in f.columns && "annee" !in f.columns {
      var cs := f.columns + ["annee"];
      assert g.columns == cs;
      forall i, j | 0 <= i < j < |cs| ensures cs[i] != cs[j] {
        if j == |f.columns| {
          assert cs[i] in f.columns;
        }
      }
      assert IsSnake("annee");
    }
  }

  lemma StripDepartementKeepsDates(r: Row)
    requires DateRowOk(r)
    ensures DateRowOk(StripDepartement(r))
  {
    var v := Str(Strip(AsText(Get(r, "code_departement"))));
    assert StripDepartement(r) == r["code_departement" := v];
    OtherCellKept(r, "code_departement", v, "date_mutation");
    OtherCellKept(r, "code_departement", v, "annee");
  }

  /** Writing one cell of a row leaves every other cell as it was. */
  lemma OtherCellKept(r: Row, k: string, v: Cell, c: string)
    requires k != c
    ensures Get(r[k := v], c) == Get(r, c)
  {
  }

  lemma RegionFilterParis(f: Frame)
    requires "code_departement" in f.columns
    ensures forall i :: 0 <= i < |RegionFilter(f).rows| ==> InParis(RegionFilter(f).rows[i])
  {
  }

  lemma FilterKeepsDates(s: seq<Row>)
    requires forall k :: 0 <= k < |s| ==> DateRowOk(s[k])
    ensures forall i :: 0 <= i < |Filter(s, InParis)| ==> DateRowOk(Filter(s, InParis)[i])
  {
    var g := Filter(s, InParis);
    forall i | 0 <= i < |g| ensures DateRowOk(g[i]) {
      assert g[i] in s;
    }
  }

  lemma RegionFilterEffect(f: Frame)
    requires DatesParsed(f)
    ensures RegionFilter(f).columns == f.columns && DatesParsed(RegionFilter(f))
  {
    if "code_departement" in f.columns && "date_mutation" in f.columns {
      var s := MapSeq(f.rows, StripDepartement);
      forall k | 0 <= k < |s| ensures DateRowOk(s[k]) {
        StripDepartementKeepsDates(f.rows[k]);
      }
      FilterKeepsDates(s);
    }
  }

  lemma CoerceEffect(f: Frame)
    requires DatesParsed(f)
    ensures DatesParsed(CoerceColumns(f, NumericColumns()))
  {
    var g := CoerceColumns(f, NumericColumns());
    if "date_mutation" in f.columns {
      forall i | 0 <= i < |g.rows| ensures DateRowOk(g.rows[i]) {
        assert DateRowOk(f.rows[i]);
        assert "date_mutation" !in NumericColumns() && "annee" !in NumericColumns();
      }
    }
  }

  /** Every label of a table `_read_one_csv` returns is snake case, and no two are equal. */
  lemma CsvTableLabels(file: CsvFile, parseDate: string -> Option<Date>)
    requires CsvTable(file, parseDate).Ok?
    ensures SnakeLabels(CsvTable(file, parseDate).value)
  {
    var g := CsvTableStages(file, parseDate);
    SnakeHeadersLabels(RawRead(file).value);
    ParseDatesEffect(g, parseDate);
    RegionFilterEffect(ParseDates(g, parseDate));
  }

  /**
   * When a date column exists, each of its cells is a parsed date or
   * missing, and "annee" holds that date's year (missing with it).
   */
  lemma CsvTableDates(file: CsvFile, parseDate: string -> Option<Date>)
    requires CsvTable(file, parseDate).Ok?
    ensures DatesParsed(CsvTable(file, parseDate).value)
  {
    var g := CsvTableStages(file, parseDate);
    SnakeHeadersLabels(RawRead(file).value);
    ParseDatesEffect(g, parseDate);
    RegionFilterEffect(ParseDates(g, parseDate));
    CoerceEffect(RegionFilter(ParseDates(g, parseDate)));
  }

  /** When a department column exists, every row kept has the code "75". */
  lemma CoerceKeepsParis(t: Frame)
    requires forall i :: 0 <= i < |t.rows| ==> InParis(t.rows[i])
    ensures forall i :: 0 <= i < |CoerceColumns(t, NumericColumns()).rows| ==> InParis(CoerceColumns(t, NumericColumns()).rows[i])
  {
    assert "code_departement" !in NumericColumns();
  }

  lemma CsvTableParis(file: CsvFile, parseDate: string -> Option<Date>)
    requires CsvTable(file, parseDate).Ok? && "code_departement" in CsvTable(file, parseDate).value.columns
    ensures forall i :: 0 <= i < |CsvTable(file, parseDate).value.rows| ==>
              Get(CsvTable(file, parseDate).value.rows[i], "code_departement") == Str("75")
  {
    var g := CsvTableStages(file, parseDate);
    var p := ParseDates(g, parseDate);
    assert RegionFilter(p).columns == p.columns;
    RegionFilterParis(p);
    CoerceKeepsParis(RegionFilter(p));
  }

  /** The four numeric columns, when present, hold only numbers, infinities or missing values. */
  lemma CsvTableNumeric(file: CsvFile, parseDate: string -> Option<Date>, c: string)
    requires CsvTable(file, parseDate).Ok? && c in NumericColumns() && c in CsvTable(file, parseDate).value.columns
    ensures forall i :: 0 <= i < |CsvTable(file, parseDate).value.rows| ==>
              var x := Get(CsvTable(file, parseDate).value.rows[i], c);
              x.NA? || x.Num? || x.Inf?
  {
    var g := CsvTableStages(file, parseDate);
    var t := RegionFilter(ParseDates(g, parseDate));
    var h := CoerceColumns(t, NumericColumns());
    forall i | 0 <= i < |h.rows| ensures var x := Get(h.rows[i], c); x.NA? || x.Num? || x.Inf? {
      assert Get(h.rows[i], c) == CoerceNumeric(Get(t.rows[i], c));
    }
  }

  /** A department code is kept exactly when its text, stripped, is "75" (so " 75 " is kept and "75.0" or a missing code is not). */
  lemma RegionFilterKeeps(f: Frame, r: Row)
    requires "code_departement" in f.columns && r in f.rows
    ensures StripDepartement(r) in RegionFilter(f).rows <==> Strip(AsText(Get(r, "code_departement"))) == "75"
  {
    var k :| 0 <= k < |f.rows| && f.rows[k] == r;
    var s := MapSeq(f.rows, StripDepartement);
    assert s[k] == StripDepartement(r) && s[k] in s;
    assert InParis(StripDepartement(r)) <==> Strip(AsText(Get(r, "code_departement"))) == "75";
  }
}
