/**
 * The data rules of the deep-dive page (sections/deep_dives.py): period
 * labelling of the cleaned table, the column-presence test that guards each
 * chart, and the surface and room buckets the mix charts count.
 */
module DeepDives {
  import opened Wrappers
  import opened Frames
  import opened FieldNormalizer
  import opened Buckets
  import opened Prep
  import opened CleanGuarantees

  /** The errors pandas raises on these paths: a missing year column, and a cast to Int64 that does not fit. */
  datatype DeepDiveError = MissingYear | YearCast | RoomsCast64

  /** A period given as `(first year, last year)`, both included. */
  type Window = (int, int)

  predicate IsInt64(n: int) { -0x8000_0000_0000_0000 <= n < 0x8000_0000_0000_0000 }

  /** `pd.to_numeric(errors="coerce")` on one cell: unparsable text and dates become missing. */
  function ToNumeric(c: Cell): (r: Cell)
    ensures r.NA? || r.Num? || r.Int? || r.Inf?
    ensures c.NA? || c.Num? || c.Int? || c.Inf? ==> r == c
    ensures c.Str? && ParseNumber(c.s).Some? ==> r == Num(ParseNumber(c.s).value)
    ensures c.Str? && ParseNumber(c.s).None? ==> r.NA?
    ensures c.When? ==> r.NA?
  {
    match c
    case Str(s) => match ParseNumber(s) { case Some(x) => Num(x) case None => NA }
    case When(_) => NA
    case _ => c
  }

  /** `astype("Int64")`: a whole number in range becomes an integer; a fraction, an infinity or an overflow raises. */
  function ToInt64(c: Cell, err: DeepDiveError): (r: Result<Cell, DeepDiveError>)
    requires c.NA? || c.Num? || c.Int? || c.Inf?
    ensures r.Ok? ==> r.value.NA? || (r.value.Int? && IsInt64(r.value.i))
    ensures r.Ok? && c.Num? ==> r.value.Int? && r.value.i as real == c.x
    ensures r.Ok? && !c.Num? ==> r.value == c
    ensures r.Err? <==> c.Inf? || (c.Int? && !IsInt64(c.i)) || (c.Num? && !(c.x == c.x.Floor as real && IsInt64(c.x.Floor)))
    ensures r.Err? ==> r.error == err
  {
    match c
    case NA => Ok(NA)
    case Int(i) => if IsInt64(i) then Ok(c) else Err(err)
    case Num(x) => if x == x.Floor as real && IsInt64(x.Floor) then Ok(Int(x.Floor)) else Err(err)
    case Inf(_) => Err(err)
  }

  /** Line 14 on one cell: `pd.to_numeric(..., errors="coerce").astype("Int64")`. */
  function ToYear(c: Cell): Result<Cell, DeepDiveError> {
    ToInt64(ToNumeric(c), YearCast)
  }

  /** Line 196 on one cell: `pd.to_numeric(..., errors="coerce").round().astype("Int64")`. */
  function ToRooms(c: Cell): Result<Cell, DeepDiveError> {
    var n := ToNumeric(c);
    ToInt64(if n.Num? then Num(RoundHalfEven(n.x) as real) else n, RoomsCast64)
  }

  /** A cast applied to a whole column: the cast values, or the first error. */
  function CastAll(col: seq<Cell>, cast: Cell -> Result<Cell, DeepDiveError>): (r: Result<seq<Cell>, DeepDiveError>)
    ensures r.Ok? ==> |r.value| == |col| && forall i :: 0 <= i < |col| ==> cast(col[i]) == Ok(r.value[i])
    ensures r.Err? <==> exists i :: 0 <= i < |col| && cast(col[i]).Err?
  {
    if col == [] then Ok([])
    else
      match CastAll(col[..|col| - 1], cast)
      case Err(e) => Err(e)
      case Ok(init) =>
        match cast(col[|col| - 1])
        case Err(e) => Err(e)
        case Ok(last) =>
          assert forall i :: 0 <= i < |col| - 1 ==> col[..|col| - 1][i] == col[i];
          Ok(init + [last])
  }

  // ---------- period labels (lines 11-21) ----------

  /** `(annee >= lo) & (annee <= hi)` as a mask: a missing year is not selected. */
  predicate InWindow(year: Cell, w: Window) {
    year.Int? && w.0 <= year.i <= w.1
  }

  /** The label lines 17-19 leave for one year: P2 written last, so it wins over P1. */
  function PeriodLabel(year: Cell, p1: Window, p2: Window): Cell {
    if InWindow(year, p2) then Str("P2") else if InWindow(year, p1) then Str("P1") else NA
  }

  /** The label of each year, in order. */
  function Labels(years: seq<Cell>, p1: Window, p2: Window): (ls: seq<Cell>)
    ensures |ls| == |years| && forall i :: 0 <= i < |years| ==> ls[i] == PeriodLabel(years[i], p1, p2)
  {
    seq(|years|, i requires 0 <= i < |years| => PeriodLabel(years[i], p1, p2))
  }

  /** The table `_periodize` returns: the year column cast, and a "periode2" column; or the error it raises. */
  function Periodized(f: Frame, p1: Window, p2: Window): Result<Frame, DeepDiveError> {
    if "annee" !in f.columns then Err(MissingYear)
    else
      match CastAll(Column(f, "annee"), ToYear)
      case Err(e) => Err(e)
      case Ok(years) =>
        var g := SetColumnValues(f, "annee", years);
        Ok(SetColumnValues(g, "periode2", Labels(years, p1, p2)))
  }

  /**
   * Lines 17-19: start from an all-missing label series, write "P1" through
   * the first mask, then "P2" through the second.
   */
  method LabelPeriods(years: seq<Cell>, p1: Window, p2: Window) returns (ls: seq<Cell>)
    ensures ls == Labels(years, p1, p2)
  {
    var periode := new Cell[|years|](_ => NA);
    for i := 0 to periode.Length
      invariant forall k :: 0 <= k < i ==> periode[k] == (if InWindow(years[k], p1) then Str("P1") else NA)
      invariant forall k :: i <= k < periode.Length ==> periode[k] == NA
    {
      if InWindow(years[i], p1) {
        periode[i] := Str("P1");
      }
    }
    for i := 0 to periode.Length
      invariant forall k :: 0 <= k < i ==> periode[k] == PeriodLabel(years[k], p1, p2)
      invariant forall k :: i <= k < periode.Length ==> periode[k] == (if InWindow(years[k], p1) then Str("P1") else NA)
    {
      if InWindow(years[i], p2) {
        periode[i] := Str("P2");
      }
    }
    ls := periode[..];
  }

  /** `_periodize` as the page runs it: the cast year column, then the labels. */
  method Periodize(f: Frame, p1: Window, p2: Window) returns (r: Result<Frame, DeepDiveError>)
    ensures r == Periodized(f, p1, p2)
  {
    if "annee" !in f.columns {
      return Err(MissingYear);
    }
    var cast := CastAll(Column(f, "annee"), ToYear);
    if cast.Err? {
      return Err(cast.error);
    }
    var years := cast.value;
    var periode := LabelPeriods(years, p1, p2);
    PeriodizedUnfold(f, p1, p2, years);
    r := Ok(SetColumnValues(SetColumnValues(f, "annee", years), "periode2", periode));
  }

  lemma PeriodizedUnfold(f: Frame, p1: Window, p2: Window, years: seq<Cell>)
    requires "annee" in f.columns && CastAll(Column(f, "annee"), ToYear) == Ok(years)
    ensures Periodized(f, p1, p2) == Ok(SetColumnValues(SetColumnValues(f, "annee", years), "periode2", Labels(years, p1, p2)))
  {
  }

  /** A year in the second window is labelled P2, one only in the first P1, and any other year, missing or not, has no label. */
  lemma PeriodLabelRule(year: Cell, p1: Window, p2: Window)
    ensures PeriodLabel(year, p1, p2) == Str("P2") <==> InWindow(year, p2)
    ensures PeriodLabel(year, p1, p2) == Str("P1") <==> InWindow(year, p1) && !InWindow(year, p2)
    ensures PeriodLabel(year, p1, p2) == NA <==> !InWindow(year, p1) && !InWindow(year, p2)
    ensures year.NA? ==> PeriodLabel(year, p1, p2) == NA
  {
  }

  /** When the windows overlap, a year in both is labelled P2. */
  lemma OverlapIsP2(y: int, p1: Window, p2: Window)
    requires p1.0 <= y <= p1.1 && p2.0 <= y <= p2.1
    ensures PeriodLabel(Int(y), p1, p2) == Str("P2")
  {
  }

  /** `_periodize` fails exactly when the year column is absent or some year does not cast to Int64. */
  lemma PeriodizedFails(f: Frame, p1: Window, p2: Window)
    ensures Periodized(f, p1, p2).Err? <==>
              "annee" !in f.columns || exists i :: 0 <= i < |f.rows| && ToYear(Get(f.rows[i], "annee")).Err?
  {
    if "annee" in f.columns {
      var col := Column(f, "annee");
      if exists i :: 0 <= i < |f.rows| && ToYear(Get(f.rows[i], "annee")).Err? {
        var i :| 0 <= i < |f.rows| && ToYear(Get(f.rows[i], "annee")).Err?;
        assert ToYear(col[i]).Err?;
      }
    }
  }

  /**
   * A successful `_periodize` keeps the rows and their other columns, casts
   * each year, and labels each row by its cast year.
   */
  lemma PeriodizedRows(f: Frame, p1: Window, p2: Window)
    requires Periodized(f, p1, p2).Ok?
    ensures var g := Periodized(f, p1, p2).value;
            && |g.rows| == |f.rows|
            && (forall c :: c in g.columns <==> c in f.columns || c == "periode2")
            && (forall i :: 0 <= i < |f.rows| ==> ToYear(Get(f.rows[i], "annee")) == Ok(Get(g.rows[i], "annee")))
            && (forall i :: 0 <= i < |f.rows| ==>
                  Get(g.rows[i], "periode2") == PeriodLabel(Get(g.rows[i], "annee"), p1, p2))
            && (forall i, c :: 0 <= i < |f.rows| && c != "annee" && c != "periode2" ==> Get(g.rows[i], c) == Get(f.rows[i], c))
  {
    var col := Column(f, "annee");
    var years := CastAll(col, ToYear).value;
    var g := Periodized(f, p1, p2).value;
    forall i | 0 <= i < |f.rows| ensures ToYear(Get(f.rows[i], "annee")) == Ok(Get(g.rows[i], "annee")) {
      assert ToYear(col[i]) == Ok(years[i]);
    }
  }

  /** A year column as the cleaning pipeline leaves it (missing or whole years) is kept as it is. */
  lemma CleanYearKept(c: Cell)
    requires c.NA? || (c.Int? && IsInt64(c.i))
    ensures ToYear(c) == Ok(c)
  {
  }

  // ---------- the column guard (lines 24-29) ----------

  /** The required columns the table lacks: `cols - set(df.columns)`. */
  function Missing(cols: set<string>, f: Frame): (m: set<string>)
    ensures forall c :: c in m <==> c in cols && c !in f.columns
  {
    cols - set c | c in f.columns
  }

  /** `_needs`: true exactly when every required column is present. */
  function Needs(cols: set<string>, f: Frame): (ok: bool)
    ensures ok <==> forall c :: c in cols ==> c in f.columns
  {
    var m := Missing(cols, f);
    assert m != {} ==> exists c :: c in m;
    m == {}
  }

  // ---------- the mix buckets (lines 171-176 and 196-200) ----------

  predicate HasSurfaceAndPeriod(r: Row) {
    Get(r, "surface_reelle_bati") != NA && Get(r, "periode2") != NA
  }

  predicate HasRoomsAndPeriod(r: Row) {
    Get(r, "nombre_pieces_principales") != NA && Get(r, "periode2") != NA
  }

  /** Lines 171-176: rows with an area and a period, each with its surface bin (left-closed, no include_lowest). */
  function SurfaceMix(f: Frame): Frame {
    SetColumn(Where(f, HasSurfaceAndPeriod), "bin", r => SurfaceClass(Get(r, "surface_reelle_bati"), false))
  }

  /** Lines 196-200: rows with a room count and a period, the count cast to Int64 ("nbp") and its class; or the cast error. */
  function RoomMix(f: Frame): Result<Frame, DeepDiveError> {
    var d := Where(f, HasRoomsAndPeriod);
    match CastAll(Column(d, "nombre_pieces_principales"), ToRooms)
    case Err(e) => Err(e)
    case Ok(nbp) =>
      var g := SetColumnValues(d, "nbp", nbp);
      Ok(SetColumn(g, "classe", r => RoomClass(Get(r, "nbp"))))
  }

  /** Every surface bin is the pipeline's area class of the row's area, and every counted row has an area and a period. */
  lemma SurfaceMixBins(f: Frame)
    ensures forall y :: y in SurfaceMix(f).rows ==>
              HasSurfaceAndPeriod(y) && Get(y, "bin") == SurfaceClass(Get(y, "surface_reelle_bati"), true)
  {
    var d := Where(f, HasSurfaceAndPeriod);
    var g := SurfaceMix(f);
    forall y | y in g.rows ensures HasSurfaceAndPeriod(y) && Get(y, "bin") == SurfaceClass(Get(y, "surface_reelle_bati"), true) {
      var i :| 0 <= i < |g.rows| && g.rows[i] == y;
      assert d.rows[i] in d.rows;
      SurfaceClassesAgree(Get(d.rows[i], "surface_reelle_bati"));
    }
  }

  /** On the cleaned table the surface bin of every counted row is the row's "classe_surface_m2". */
  lemma SurfaceMixMatchesClean(f: Frame)
    requires forall x :: x in f.rows ==> SurfaceClassed(x)
    ensures forall y :: y in SurfaceMix(f).rows ==> Get(y, "bin") == Get(y, "classe_surface_m2")
  {
    var d := Where(f, HasSurfaceAndPeriod);
    var g := SurfaceMix(f);
    SurfaceMixBins(f);
    forall y | y in g.rows ensures Get(y, "bin") == Get(y, "classe_surface_m2") {
      var i :| 0 <= i < |g.rows| && g.rows[i] == y;
      assert d.rows[i] in f.rows;
      assert Get(y, "classe_surface_m2") == Get(d.rows[i], "classe_surface_m2");
    }
  }

  /** A room count as the cleaning pipeline leaves it casts to itself. */
  lemma CleanRoomsKept(c: Cell)
    requires c.NA? || (c.Int? && IsInt16(c.i))
    ensures ToRooms(c) == Ok(c)
  {
  }

  /** A fractional count rounds half to even before the class is taken, as in the pipeline. */
  lemma ToRoomsRounds(x: real)
    requires IsInt64(RoundHalfEven(x))
    ensures ToRooms(Num(x)) == Ok(Int(RoundHalfEven(x)))
  {
    RoundInteger(RoundHalfEven(x));
  }

  /** A column every cell of which casts to itself casts as a whole to itself. */
  lemma CastAllKeeps(col: seq<Cell>, cast: Cell -> Result<Cell, DeepDiveError>)
    requires forall i :: 0 <= i < |col| ==> cast(col[i]) == Ok(col[i])
    ensures CastAll(col, cast) == Ok(col)
  {
    var r := CastAll(col, cast);
    assert r.Ok?;
    assert r.value == col;
  }

  /** The room mix of rows whose counts cast to themselves. */
  function RoomsKeptMix(d: Frame): Frame {
    var g := SetColumnValues(d, "nbp", Column(d, "nombre_pieces_principales"));
    SetColumn(g, "classe", r => RoomClass(Get(r, "nbp")))
  }

  lemma RoomMixUnfold(f: Frame)
    requires forall x :: x in f.rows ==> RoomsClassed(x)
    ensures RoomMix(f) == Ok(RoomsKeptMix(Where(f, HasRoomsAndPeriod)))
  {
    var d := Where(f, HasRoomsAndPeriod);
    var col := Column(d, "nombre_pieces_principales");
    forall i | 0 <= i < |col| ensures ToRooms(col[i]) == Ok(col[i]) {
      assert d.rows[i] in f.rows;
      CleanRoomsKept(col[i]);
    }
    CastAllKeeps(col, ToRooms);
  }

  lemma RoomsKeptMixRows(d: Frame)
    requires forall x :: x in d.rows ==> RoomsClassed(x) && HasRoomsAndPeriod(x)
    ensures forall y :: y in RoomsKeptMix(d).rows ==>
              HasRoomsAndPeriod(y) && Get(y, "nbp") == Get(y, "nombre_pieces_principales") && Get(y, "classe") == Get(y, "classe_pieces")
  {
    var col := Column(d, "nombre_pieces_principales");
    var g := RoomsKeptMix(d);
    forall y | y in g.rows
      ensures HasRoomsAndPeriod(y) && Get(y, "nbp") == Get(y, "nombre_pieces_principales") && Get(y, "classe") == Get(y, "classe_pieces")
    {
      var i :| 0 <= i < |g.rows| && g.rows[i] == y;
      assert d.rows[i] in d.rows;
      assert y == d.rows[i]["nbp" := col[i]]["classe" := RoomClass(col[i])];
    }
  }

  /**
   * On the cleaned table the room mix never fails, "nbp" is the room count,
   * and the class of every counted row is the row's "classe_pieces".
   */
  lemma RoomMixMatchesClean(f: Frame)
    requires forall x :: x in f.rows ==> RoomsClassed(x)
    ensures RoomMix(f).Ok?
    ensures forall y :: y in RoomMix(f).value.rows ==>
              HasRoomsAndPeriod(y) && Get(y, "nbp") == Get(y, "nombre_pieces_principales") && Get(y, "classe") == Get(y, "classe_pieces")
  {
    var d := Where(f, HasRoomsAndPeriod);
    RoomMixUnfold(f);
    RoomsKeptMixRows(d);
  }
}
