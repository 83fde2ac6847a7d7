/**
 * `make_df_clean` of utils/prep.py: the cleaning pipeline from the raw
 * table to the analysis table, stage by stage, and its best-effort
 * persistence.
 */
module Prep {
  import opened Wrappers
  import opened Strings
  import opened Sorting
  import opened Frames
  import opened FieldNormalizer
  import opened Ingest
  import opened Buckets
  import opened Json

  /** MissingDate: sorting on an absent "date_mutation" (a KeyError); RoomsCast: a room count that is not a 16-bit integer. */
  datatype CleanError = MissingDate | RoomsCast

  /**
   * `Series.quantile(p)` on a column's cells, as the caller's numeric
   * routine computes it; None where pandas gives NaN (no values).
   */
  type Quantile = (seq<Cell>, real) -> Option<real>

  function Column(f: Frame, c: string): (col: seq<Cell>)
    ensures |col| == |f.rows| && forall i :: 0 <= i < |f.rows| ==> col[i] == Get(f.rows[i], c)
  {
    seq(|f.rows|, i requires 0 <= i < |f.rows| => Get(f.rows[i], c))
  }

  // ---------- coercion (lines 40-42) ----------

  function CleanNumericColumns(): seq<string> {
    ["valeur_fonciere", "surface_reelle_bati", "nombre_pieces_principales"]
  }

  // ---------- deduplication (lines 44-52) ----------

  /** `sort_values(..., na_position="last")` on dates: ascending, missing values last. */
  predicate DateCellLe(a: Cell, b: Cell) {
    if a.When? then !b.When? || DateLe(a.d, b.d) else !b.When?
  }

  predicate RowDateLe(x: Row, y: Row) {
    DateCellLe(Get(x, "date_mutation"), Get(y, "date_mutation"))
  }

  lemma RowDateLeTotalPreorder()
    ensures TotalPreorder(RowDateLe)
  {
  }

  function SortByDate(rows: seq<Row>): (r: seq<Row>)
    ensures SortedBy(r, RowDateLe) && multiset(r) == multiset(rows)
  {
    RowDateLeTotalPreorder();
    SortSorted(rows, RowDateLe);
    SortPermutes(rows, RowDateLe);
    Sort(rows, RowDateLe)
  }

  /** The key tuple of a row. */
  function KeyOf(r: Row, keys: seq<string>): seq<Cell> {
    seq(|keys|, k requires 0 <= k < |keys| => Get(r, keys[k]))
  }

  /** `drop_duplicates(subset=keys, keep="first")`: each row whose key tuple was not seen earlier. */
  function KeepFirst(rows: seq<Row>, keys: seq<string>, seen: set<seq<Cell>>): (r: seq<Row>)
    ensures multiset(r) <= multiset(rows)
  {
    if rows == [] then []
    else
      assert rows == [rows[0]] + rows[1..];
      var k := KeyOf(rows[0], keys);
      if k in seen then KeepFirst(rows[1..], keys, seen)
      else [rows[0]] + KeepFirst(rows[1..], keys, seen + {k})
  }

  /** The key columns present, in the listed order. */
  function DedupKeys(f: Frame): seq<string> {
    KeepIf(["id_mutation", "numero_disposition"], f.columns, true)
  }

  function Dedup(f: Frame): Result<Frame, CleanError> {
    var keys := DedupKeys(f);
    if keys != [] then
      if "date_mutation" !in f.columns then Err(MissingDate)
      else Ok(Frame(f.columns, KeepFirst(SortByDate(f.rows), keys, {})))
    else Ok(Frame(f.columns, KeepFirst(f.rows, f.columns, {})))
  }

  lemma KeepFirstUnfold(rows: seq<Row>, keys: seq<string>, seen: set<seq<Cell>>)
    requires rows != []
    ensures var k := KeyOf(rows[0], keys);
            KeepFirst(rows, keys, seen) ==
              if k in seen then KeepFirst(rows[1..], keys, seen) else [rows[0]] + KeepFirst(rows[1..], keys, seen + {k})
  {
  }

  /** No row of `r` has its key in `seen`. */
  predicate KeysFresh(r: seq<Row>, keys: seq<string>, seen: set<seq<Cell>>) {
    forall i :: 0 <= i < |r| ==> KeyOf(r[i], keys) !in seen
  }

  /** No two rows of `r` share a key. */
  predicate KeysDistinct(r: seq<Row>, keys: seq<string>) {
    forall i, j :: 0 <= i < j < |r| ==> KeyOf(r[i], keys) != KeyOf(r[j], keys)
  }

  /** One step of `KeepFirst` keeps the kept keys fresh and distinct. */
  lemma DistinctStep(rows: seq<Row>, keys: seq<string>, seen: set<seq<Cell>>, r': seq<Row>)
    requires rows != []
    requires var k := KeyOf(rows[0], keys);
             KeysFresh(r', keys, if k in seen then seen else seen + {k}) && KeysDistinct(r', keys)
    ensures var k := KeyOf(rows[0], keys);
            var r := if k in seen then r' else [rows[0]] + r';
            KeysFresh(r, keys, seen) && KeysDistinct(r, keys)
  {
    var k := KeyOf(rows[0], keys);
    if k !in seen {
      var r := [rows[0]] + r';
      assert forall i :: 1 <= i < |r| ==> r[i] == r'[i - 1];
    }
  }

  lemma {:induction false} KeepFirstDistinct(rows: seq<Row>, keys: seq<string>, seen: set<seq<Cell>>)
    ensures var r := KeepFirst(rows, keys, seen);
            && (forall i :: 0 <= i < |r| ==> KeyOf(r[i], keys) !in seen)
            && (forall i, j :: 0 <= i < j < |r| ==> KeyOf(r[i], keys) != KeyOf(r[j], keys))
  {
    if rows != [] {
      var k := KeyOf(rows[0], keys);
      KeepFirstUnfold(rows, keys, seen);
      var seen' := if k in seen then seen else seen + {k};
      KeepFirstDistinct(rows[1..], keys, seen');
      DistinctStep(rows, keys, seen, KeepFirst(rows[1..], keys, seen'));
      assert KeysFresh(KeepFirst(rows, keys, seen), keys, seen);
      assert KeysDistinct(KeepFirst(rows, keys, seen), keys);
    }
  }

  /** Every row of `rows` has its key in `seen` or shares it with a row of `r`. */
  predicate Covers(rows: seq<Row>, keys: seq<string>, seen: set<seq<Cell>>, r: seq<Row>) {
    forall j :: 0 <= j < |rows| ==> KeyOf(rows[j], keys) in seen || exists i :: 0 <= i < |r| && KeyOf(r[i], keys) == KeyOf(rows[j], keys)
  }

  /** One step of `KeepFirst` keeps the covering. */
  lemma CoversStep(rows: seq<Row>, keys: seq<string>, seen: set<seq<Cell>>, r': seq<Row>)
    requires rows != []
    requires var k := KeyOf(rows[0], keys);
             Covers(rows[1..], keys, if k in seen then seen else seen + {k}, r')
    ensures var k := KeyOf(rows[0], keys);
            Covers(rows, keys, seen, if k in seen then r' else [rows[0]] + r')
  {
    var k := KeyOf(rows[0], keys);
    var seen' := if k in seen then seen else seen + {k};
    var r := if k in seen then r' else [rows[0]] + r';
    forall j | 0 <= j < |rows| && KeyOf(rows[j], keys) !in seen
      ensures exists i :: 0 <= i < |r| && KeyOf(r[i], keys) == KeyOf(rows[j], keys)
    {
      if k !in seen && KeyOf(rows[j], keys) == k {
        assert r[0] == rows[0];
      } else {
        assert rows[j] == rows[1..][j - 1];
        var i :| 0 <= i < |r'| && KeyOf(r'[i], keys) == KeyOf(rows[j], keys);
        if k in seen {
          assert r[i] == r'[i];
        } else {
          assert r[i + 1] == r'[i];
        }
      }
    }
  }

  lemma {:induction false} KeepFirstCovers(rows: seq<Row>, keys: seq<string>, seen: set<seq<Cell>>)
    ensures var r := KeepFirst(rows, keys, seen);
            forall j :: 0 <= j < |rows| ==> KeyOf(rows[j], keys) in seen || exists i :: 0 <= i < |r| && KeyOf(r[i], keys) == KeyOf(rows[j], keys)
  {
    if rows != [] {
      var k := KeyOf(rows[0], keys);
      KeepFirstUnfold(rows, keys, seen);
      var seen' := if k in seen then seen else seen + {k};
      KeepFirstCovers(rows[1..], keys, seen');
      CoversStep(rows, keys, seen, KeepFirst(rows[1..], keys, seen'));
      assert Covers(rows, keys, seen, KeepFirst(rows, keys, seen));
    }
  }

  /** The row kept for a key is no later than any row of `rows` with that key. */
  predicate Earliest(rows: seq<Row>, keys: seq<string>, r: seq<Row>) {
    forall i, j :: 0 <= i < |r| && 0 <= j < |rows| && KeyOf(rows[j], keys) == KeyOf(r[i], keys) ==> RowDateLe(r[i], rows[j])
  }

  /** One step of `KeepFirst` over date-sorted rows keeps the earliest row per key. */
  lemma EarliestStep(rows: seq<Row>, keys: seq<string>, seen: set<seq<Cell>>, r': seq<Row>)
    requires rows != [] && SortedBy(rows, RowDateLe)
    requires var k := KeyOf(rows[0], keys);
             var seen' := if k in seen then seen else seen + {k};
             Earliest(rows[1..], keys, r') && KeysFresh(r', keys, seen')
    ensures var k := KeyOf(rows[0], keys);
            Earliest(rows, keys, if k in seen then r' else [rows[0]] + r')
  {
    var k := KeyOf(rows[0], keys);
    var seen' := if k in seen then seen else seen + {k};
    var r := if k in seen then r' else [rows[0]] + r';
    RowDateLeTotalPreorder();
    forall i, j | 0 <= i < |r| && 0 <= j < |rows| && KeyOf(rows[j], keys) == KeyOf(r[i], keys)
      ensures RowDateLe(r[i], rows[j])
    {
      if k !in seen && i == 0 {
        assert r[0] == rows[0];
      } else {
        var i' := if k in seen then i else i - 1;
        assert r[i] == r'[i'];
        assert KeyOf(r'[i'], keys) !in seen';
        assert j >= 1;
        assert rows[j] == rows[1..][j - 1];
      }
    }
  }

  lemma {:induction false} KeepFirstEarliest(rows: seq<Row>, keys: seq<string>, seen: set<seq<Cell>>)
    requires SortedBy(rows, RowDateLe)
    ensures var r := KeepFirst(rows, keys, seen);
            forall i, j :: 0 <= i < |r| && 0 <= j < |rows| && KeyOf(rows[j], keys) == KeyOf(r[i], keys) ==> RowDateLe(r[i], rows[j])
  {
    if rows != [] {
      var k := KeyOf(rows[0], keys);
      KeepFirstUnfold(rows, keys, seen);
      var seen' := if k in seen then seen else seen + {k};
      assert SortedBy(rows[1..], RowDateLe);
      KeepFirstEarliest(rows[1..], keys, seen');
      KeepFirstDistinct(rows[1..], keys, seen');
      EarliestStep(rows, keys, seen, KeepFirst(rows[1..], keys, seen'));
      assert Earliest(rows, keys, KeepFirst(rows, keys, seen));
    }
  }

  /** Dedup keeps columns and picks rows among the input's. */
  lemma DedupRows(f: Frame)
    requires Dedup(f).Ok?
    ensures Dedup(f).value.columns == f.columns && multiset(Dedup(f).value.rows) <= multiset(f.rows)
  {
  }

  /** The key tuple deduplication compares: the present key columns, or every column when neither exists. */
  function DedupKeyColumns(f: Frame): seq<string> {
    if DedupKeys(f) != [] then DedupKeys(f) else f.columns
  }

  function DedupInput(f: Frame): seq<Row> {
    if DedupKeys(f) != [] then SortByDate(f.rows) else f.rows
  }

  lemma DedupShape(f: Frame)
    requires Dedup(f).Ok?
    ensures Dedup(f).value.rows == KeepFirst(DedupInput(f), DedupKeyColumns(f), {})
    ensures multiset(DedupInput(f)) == multiset(f.rows)
  {
  }

  /** After deduplication no two rows share a key tuple. */
  lemma DedupKeysUnique(f: Frame)
    requires Dedup(f).Ok?
    ensures var g := Dedup(f).value;
            forall i, j :: 0 <= i < j < |g.rows| ==> KeyOf(g.rows[i], DedupKeyColumns(f)) != KeyOf(g.rows[j], DedupKeyColumns(f))
  {
    DedupShape(f);
    KeepFirstDistinct(DedupInput(f), DedupKeyColumns(f), {});
  }

  /** Every key tuple of the input still has a row after deduplication. */
  lemma DedupKeepsEveryKey(f: Frame)
    requires Dedup(f).Ok?
    ensures var g := Dedup(f).value;
            forall j :: 0 <= j < |f.rows| ==> exists i :: 0 <= i < |g.rows| && KeyOf(g.rows[i], DedupKeyColumns(f)) == KeyOf(f.rows[j], DedupKeyColumns(f))
  {
    var keys, rows := DedupKeyColumns(f), DedupInput(f);
    DedupShape(f);
    KeepFirstCovers(rows, keys, {});
    var g := Dedup(f).value;
    forall j | 0 <= j < |f.rows| ensures exists i :: 0 <= i < |g.rows| && KeyOf(g.rows[i], keys) == KeyOf(f.rows[j], keys) {
      assert f.rows[j] in multiset(rows);
      var j' :| 0 <= j' < |rows| && rows[j'] == f.rows[j];
    }
  }

  /** Being earliest against a list of rows depends only on its multiset of rows. */
  lemma EarliestPermuted(rows: seq<Row>, other: seq<Row>, keys: seq<string>, r: seq<Row>)
    requires multiset(rows) == multiset(other) && Earliest(rows, keys, r)
    ensures Earliest(other, keys, r)
  {
    forall i, j | 0 <= i < |r| && 0 <= j < |other| && KeyOf(other[j], keys) == KeyOf(r[i], keys)
      ensures RowDateLe(r[i], other[j])
    {
      assert other[j] in multiset(rows);
      var j' :| 0 <= j' < |rows| && rows[j'] == other[j];
    }
  }

  /** With key columns, the row kept for a key has the earliest date among the input rows with that key. */
  lemma DedupKeepsEarliest(f: Frame)
    requires Dedup(f).Ok? && DedupKeys(f) != []
    ensures var g := Dedup(f).value;
            forall i, j :: 0 <= i < |g.rows| && 0 <= j < |f.rows| && KeyOf(f.rows[j], DedupKeys(f)) == KeyOf(g.rows[i], DedupKeys(f)) ==>
              RowDateLe(g.rows[i], f.rows[j])
  {
    var keys, rows := DedupKeys(f), SortByDate(f.rows);
    var g := Dedup(f).value;
    assert g.rows == KeepFirst(rows, keys, {});
    KeepFirstEarliest(rows, keys, {});
    assert Earliest(rows, keys, g.rows);
    EarliestPermuted(rows, f.rows, keys, g.rows);
    assert Earliest(f.rows, keys, g.rows);
  }


  // ---------- scope filters (lines 55-63) ----------

  /** `astype(str).str.strip().str.lower() == "vente"`. */
  predicate IsSale(r: Row) {
    Lower(Strip(AsText(Get(r, "nature_mutation")))) == "vente"
  }

  function NatureFilter(f: Frame): Frame {
    if "nature_mutation" in f.columns then Where(f, IsSale) else f
  }

  /** `isin(["Appartement", "Maison"])`: exact labels only. */
  predicate IsDwelling(r: Row) {
    Get(r, "type_local") == Str("Appartement") || Get(r, "type_local") == Str("Maison")
  }

  function TypeFilter(f: Frame): Frame {
    if "type_local" in f.columns then Where(f, IsDwelling) else f
  }

  function NeededColumns(f: Frame): seq<string> {
    KeepIf(["valeur_fonciere", "surface_reelle_bati", "date_mutation"], f.columns, true)
  }

  predicate Complete(r: Row, cols: seq<string>) {
    forall c :: c in cols ==> Get(r, c) != NA
  }

  /** `dropna(subset=needed)`. */
  function Completeness(f: Frame): Frame {
    var needed := NeededColumns(f);
    if needed != [] then Where(f, r => Complete(r, needed)) else f
  }

  // ---------- postal code (lines 66-69) ----------

  /** Five digits start at position `i` of `s`. */
  predicate DigitsAt(s: string, i: nat) {
    i + 5 <= |s| && AllDigits(s[i..i + 5])
  }

  lemma DigitsAtTail(s: string)
    requires s != []
    ensures forall i: nat :: DigitsAt(s[1..], i) == DigitsAt(s, i + 1)
  {
    forall i: nat ensures DigitsAt(s[1..], i) == DigitsAt(s, i + 1) {
      if i + 6 <= |s| {
        assert s[1..][i..i + 5] == s[i + 1..i + 6];
      }
    }
  }

  /** `str.extract(r"(\d{5})")`: the leftmost run of five digits. */
  function FirstFiveDigits(s: string): (r: Option<string>)
    ensures r.Some? ==> |r.value| == 5 && AllDigits(r.value)
    ensures r.Some? ==> exists i: nat :: DigitsAt(s, i) && s[i..i + 5] == r.value && forall j: nat :: j < i ==> !DigitsAt(s, j)
    ensures r.None? <==> forall i: nat :: !DigitsAt(s, i)
  {
    if |s| < 5 then None
    else if AllDigits(s[..5]) then
      assert DigitsAt(s, 0) && s[0..5] == s[..5];
      Some(s[..5])
    else
      DigitsAtTail(s);
      assert !DigitsAt(s, 0);
      var t := FirstFiveDigits(s[1..]);
      assert t.Some? ==> exists i: nat :: DigitsAt(s, i) && s[i..i + 5] == t.value && forall j: nat :: j < i ==> !DigitsAt(s, j) by {
        if t.Some? {
          var i: nat :| DigitsAt(s[1..], i) && s[1..][i..i + 5] == t.value && forall j: nat :: j < i ==> !DigitsAt(s[1..], j);
          assert s[i + 1..i + 6] == t.value;
          forall j: nat | j < i + 1 ensures !DigitsAt(s, j) {
            if j > 0 {
              assert !DigitsAt(s[1..], j - 1);
            }
          }
        }
      }
      assert t.None? ==> forall i: nat :: !DigitsAt(s, i) by {
        if t.None? {
          forall i: nat ensures !DigitsAt(s, i) {
            if i > 0 {
              assert !DigitsAt(s[1..], i - 1);
            }
          }
        }
      }
      t
  }

  function ExtractCode(c: Cell): Cell {
    match FirstFiveDigits(AsText(c))
    case Some(d) => Str(d)
    case None => NA
  }

  /** `str.startswith("75", na=False)`. */
  predicate ParisCode(r: Row) {
    var c := Get(r, "code_postal");
    c.Str? && |c.s| >= 2 && c.s[..2] == "75"
  }

  /** `str[-2:].astype("Int16")` on a code of digits. */
  function Arrondissement(c: Cell): Cell {
    if c.Str? && |c.s| >= 2 && AllDigits(c.s[|c.s| - 2..]) then Int(DigitsValue(c.s[|c.s| - 2..])) else NA
  }

  function PostalStage(f: Frame): Frame {
    if "code_postal" in f.columns then
      var e := SetColumn(f, "code_postal", r => ExtractCode(Get(r, "code_postal")));
      var p := Where(e, ParisCode);
      SetColumn(p, "arrondissement", r => Arrondissement(Get(r, "code_postal")))
    else f
  }

  // ---------- price per square metre (lines 72-73) ----------

  /** Float division `a / b` on numeric cells, with the IEEE infinities for a zero divisor. */
  function Divide(a: Cell, b: Cell): (r: Cell)
    ensures a.Num? && b.Num? && b.x != 0.0 ==> r == Num(a.x / b.x)
    ensures r.Num? && a.Num? && b.Num? ==> r.x * b.x == a.x
    ensures a.Num? && a.x != 0.0 && b == Num(0.0) ==> r.Inf? && r.positive == (a.x > 0.0)
    ensures a == Num(0.0) && b == Num(0.0) ==> r.NA?
    ensures a.NA? || b.NA? ==> r.NA?
  {
    match (a, b)
    case (Num(v), Num(w)) =>
      if w != 0.0 then Num(v / w) else if v > 0.0 then Inf(true) else if v < 0.0 then Inf(false) else NA
    case (Num(_), Inf(_)) => Num(0.0)
    case (Inf(p), Num(w)) => if w < 0.0 then Inf(!p) else Inf(p)
    case _ => NA
  }

  function PriceStage(f: Frame): Frame {
    if "valeur_fonciere" in f.columns && "surface_reelle_bati" in f.columns then
      SetColumn(f, "prix_m2", r => Divide(Get(r, "valeur_fonciere"), Get(r, "surface_reelle_bati")))
    else f
  }

  // ---------- guard rails (lines 76-88) ----------

  const MinArea: real := 9.0
  const MinPlausible: real := 1000.0
  const MaxPlausible: real := 50000.0

  /** `surface_reelle_bati >= 9`. */
  predicate LargeEnough(r: Row) {
    AtLeast(Get(r, "surface_reelle_bati"), MinArea)
  }

  function AreaCensor(f: Frame, q: Quantile): Frame {
    if "surface_reelle_bati" in f.columns then
      var g := Where(f, LargeEnough);
      match q(Column(g, "surface_reelle_bati"), 0.999)
      case Some(s) => Where(g, r => AtMost(Get(r, "surface_reelle_bati"), s))
      case None => g
    else f
  }

  function BandLow(f: Frame, q: Quantile): (lo: real)
    ensures lo >= MinPlausible
    ensures q(Column(f, "prix_m2"), 0.001).Some? ==> lo >= q(Column(f, "prix_m2"), 0.001).value
    ensures lo == MinPlausible || q(Column(f, "prix_m2"), 0.001) == Some(lo)
  {
    match q(Column(f, "prix_m2"), 0.001)
    case Some(p) => if p > MinPlausible then p else MinPlausible
    case None => MinPlausible
  }

  function BandHigh(f: Frame, q: Quantile): (hi: real)
    ensures hi <= MaxPlausible
    ensures q(Column(f, "prix_m2"), 0.999).Some? ==> hi <= q(Column(f, "prix_m2"), 0.999).value
    ensures hi == MaxPlausible || q(Column(f, "prix_m2"), 0.999) == Some(hi)
  {
    match q(Column(f, "prix_m2"), 0.999)
    case Some(p) => if p < MaxPlausible then p else MaxPlausible
    case None => MaxPlausible
  }

  predicate InBand(r: Row, lo: real, hi: real) {
    AtLeast(Get(r, "prix_m2"), lo) && AtMost(Get(r, "prix_m2"), hi)
  }

  function PriceBand(f: Frame, q: Quantile): Frame {
    if "prix_m2" in f.columns then
      var lo, hi := BandLow(f, q), BandHigh(f, q);
      Where(f, r => InBand(r, lo, hi))
    else f
  }

  // ---------- periods (lines 91-93) ----------

  function Quarter(month: int): int {
    (month - 1) / 3 + 1
  }

  /** `dt.to_period("Q").astype(str)`: "2021Q3"; a missing date renders as "NaT". */
  function QuarterLabel(c: Cell): Cell {
    match c
    case When(d) => Str(IntToString(d.year) + "Q" + IntToString(Quarter(d.month)))
    case _ => Str("NaT")
  }

  function Temporal(f: Frame): Frame {
    if "date_mutation" in f.columns then
      var a := SetColumn(f, "annee", r => YearOf(Get(r, "date_mutation")));
      SetColumn(a, "trimestre", r => QuarterLabel(Get(r, "date_mutation")))
    else f
  }

  // ---------- classes (lines 96-113) ----------

  predicate IsInt16(n: int) { -32768 <= n <= 32767 }

  /** `round().astype("Int16")` on one cell; a value outside the 16-bit range or infinite raises. */
  function RoundRooms(c: Cell): (r: Result<Cell, CleanError>)
    ensures r.Ok? ==> r.value.NA? || (r.value.Int? && IsInt16(r.value.i))
    ensures c.NA? ==> r == Ok(NA)
    ensures c.Num? && IsInt16(RoundHalfEven(c.x)) ==> r == Ok(Int(RoundHalfEven(c.x)))
    ensures c.Int? && IsInt16(c.i) ==> r == Ok(c)
    ensures r.Err? <==> !(c.NA? || (c.Num? && IsInt16(RoundHalfEven(c.x))) || (c.Int? && IsInt16(c.i)))
  {
    match c
    case NA => Ok(NA)
    case Num(x) => if IsInt16(RoundHalfEven(x)) then Ok(Int(RoundHalfEven(x))) else Err(RoomsCast)
    case Int(i) => if IsInt16(i) then Ok(c) else Err(RoomsCast)
    case _ => Err(RoomsCast)
  }

  function RoundAll(col: seq<Cell>): (r: Result<seq<Cell>, CleanError>)
    ensures r.Ok? ==> |r.value| == |col| && forall i :: 0 <= i < |col| ==> RoundRooms(col[i]) == Ok(r.value[i])
    ensures r.Err? <==> exists i :: 0 <= i < |col| && RoundRooms(col[i]).Err?
  {
    if col == [] then Ok([])
    else
      match RoundAll(col[..|col| - 1])
      case Err(e) => Err(e)
      case Ok(init) =>
        match RoundRooms(col[|col| - 1])
        case Err(e) => Err(e)
        case Ok(last) =>
          assert forall i :: 0 <= i < |col| - 1 ==> col[..|col| - 1][i] == col[i];
          Ok(init + [last])
  }

  function RoomStage(f: Frame): Result<Frame, CleanError> {
    if "nombre_pieces_principales" in f.columns then
      match RoundAll(Column(f, "nombre_pieces_principales"))
      case Err(e) => Err(e)
      case Ok(rooms) =>
        var g := SetColumnValues(f, "nombre_pieces_principales", rooms);
        Ok(SetColumn(g, "classe_pieces", r => RoomClass(Get(r, "nombre_pieces_principales"))))
    else Ok(f)
  }

  function SurfaceStage(f: Frame): Frame {
    if "surface_reelle_bati" in f.columns then
      SetColumn(f, "classe_surface_m2", r => SurfaceClass(Get(r, "surface_reelle_bati"), true))
    else f
  }

  // ---------- final columns and order (lines 121-135) ----------

  function FinalColumns(): seq<string> {
    ["id_mutation", "date_mutation", "annee", "trimestre", "nature_mutation", "type_local",
     "valeur_fonciere", "surface_reelle_bati", "prix_m2", "nombre_pieces_principales",
     "classe_pieces", "classe_surface_m2", "code_postal", "arrondissement", "nom_commune",
     "adresse_nom_voie", "longitude", "latitude"]
  }

  function Project(f: Frame): Frame {
    Select(f, KeepIf(FinalColumns(), f.columns, true))
  }

  /** `sort_values("date_mutation", na_position="last").reset_index(drop=True)`. */
  function FinalSort(f: Frame): Result<Frame, CleanError> {
    if "date_mutation" in f.columns then Ok(Frame(f.columns, SortByDate(f.rows))) else Err(MissingDate)
  }

  // ---------- the pipeline ----------

  /** Lines 55-93: the filters and derived columns between deduplication and the classes. */
  function Refine(d: Frame, q: Quantile): Frame {
    Temporal(PriceBand(AreaCensor(PriceStage(PostalStage(Completeness(TypeFilter(NatureFilter(d))))), q), q))
  }

  /** Lines 96-135 after the eight steps: classes, projection and sort. */
  function Finish(e: Frame): Result<Frame, CleanError> {
    match RoomStage(e)
    case Err(err) => Err(err)
    case Ok(b) => FinalSort(Project(SurfaceStage(b)))
  }

  /** The table `make_df_clean` returns for a raw table, or the error it raises. */
  function Clean(raw: Frame, q: Quantile): Result<Frame, CleanError> {
    match Dedup(CoerceColumns(raw, CleanNumericColumns()))
    case Err(e) => Err(e)
    case Ok(d) => Finish(Refine(d, q))
  }

  /** The cleaning steps of `make_df_clean`, one assignment per stage (lines 40-135). */
  method CleanTable(raw: Frame, q: Quantile) returns (r: Result<Frame, CleanError>)
    ensures r == Clean(raw, q)
  {
    var df := CoerceNumericColumns(raw, CleanNumericColumns());
    var dedup := Dedup(df);
    if dedup.Err? {
      return Err(dedup.error);
    }
    df := dedup.value;
    df := NatureFilter(df);
    df := TypeFilter(df);
    df := Completeness(df);
    df := PostalStage(df);
    df := PriceStage(df);
    df := AreaCensor(df, q);
    df := PriceBand(df, q);
    df := Temporal(df);
    var rooms := RoomStage(df);
    if rooms.Err? {
      return Err(rooms.error);
    }
    df := SurfaceStage(rooms.value);
    r := FinalSort(Project(df));
  }

  /** The summary written beside the snapshot (lines 143-147). */
  function CleanMeta(t: Frame): Json {
    JObj([("rows", JInt(|t.rows|)), ("cols", JInt(|t.columns|)),
          ("columns", JArr(MapSeq(t.columns, (c: string) => JStr(c))))])
  }

  /** The cache directory's clean snapshot and its summary, and whether writing each would succeed. */
  class CleanArtifacts {
    var snapshot: Option<Frame>
    var meta: Option<Json>
    var snapshotWritable: bool
    var metaWritable: bool

    constructor(snapshotWritable: bool, metaWritable: bool)
      ensures snapshot == None && meta == None
      ensures this.snapshotWritable == snapshotWritable && this.metaWritable == metaWritable
    {
      snapshot := None;
      meta := None;
      this.snapshotWritable := snapshotWritable;
      this.metaWritable := metaWritable;
    }

    /** Lines 137-153: write the snapshot and then its summary, each only when writing it works. */
    method Persist(t: Frame, saveParquet: bool)
      modifies this
      ensures snapshotWritable == old(snapshotWritable) && metaWritable == old(metaWritable)
      ensures snapshot == (if saveParquet && snapshotWritable then Some(t) else old(snapshot))
      ensures meta == (if saveParquet && snapshotWritable && metaWritable then Some(CleanMeta(t)) else old(meta))
    {
      if saveParquet && snapshotWritable {
        snapshot := Some(t);
        if metaWritable {
          meta := Some(CleanMeta(t));
        }
      }
    }

    /** `make_df_clean`: the returned table never depends on whether persistence succeeds. */
    method MakeDfClean(raw: Frame, q: Quantile, saveParquet: bool) returns (r: Result<Frame, CleanError>)
      modifies this
      ensures r == Clean(raw, q)
      ensures snapshotWritable == old(snapshotWritable) && metaWritable == old(metaWritable)
      ensures var wrote := r.Ok? && saveParquet && snapshotWritable;
              && snapshot == (if wrote then Some(r.value) else old(snapshot))
              && meta == (if wrote && metaWritable then Some(CleanMeta(r.value)) else old(meta))
    {
      r := CleanTable(raw, q);
      if r.Ok? {
        Persist(r.value, saveParquet);
      }
    }
  }
}
