/**
 * What the table `make_df_clean` returns guarantees (utils/prep.py), traced
 * back through its stages: every row of the clean table comes from a row of
 * each earlier stage that it matches on the columns no later stage rewrites,
 * so a property one stage establishes survives to the end.
 */
module CleanGuarantees {
  import opened Wrappers
  import opened Sorting
  import opened Frames
  import opened FieldNormalizer
  import opened Ingest
  import opened Buckets
  import opened Prep

  // ---------- rows that descend from rows ----------

  /** `y` holds the same cells as `x` in every column of `cols`. */
  predicate Agree(y: Row, x: Row, cols: set<string>) {
    forall c :: c in cols ==> Get(y, c) == Get(x, c)
  }

  /** Every row of `g` matches, on `cols`, some row of `f`. */
  predicate Descends(g: Frame, f: Frame, cols: set<string>) {
    forall y :: y in g.rows ==> exists x :: x in f.rows && Agree(y, x, cols)
  }

  /** Every column of `f` is still a column of `g`. */
  predicate Grows(f: Frame, g: Frame) {
    forall c :: c in f.columns ==> c in g.columns
  }

  lemma DescendsRefl(f: Frame, cols: set<string>)
    ensures Descends(f, f, cols)
  {
    forall y | y in f.rows ensures exists x :: x in f.rows && Agree(y, x, cols) {
      assert Agree(y, y, cols);
    }
  }

  lemma DescendsTrans(h: Frame, g: Frame, f: Frame, cols: set<string>)
    requires Descends(h, g, cols) && Descends(g, f, cols)
    ensures Descends(h, f, cols)
  {
    forall y | y in h.rows ensures exists x :: x in f.rows && Agree(y, x, cols) {
      var m :| m in g.rows && Agree(y, m, cols);
      var x :| x in f.rows && Agree(m, x, cols);
      assert Agree(y, x, cols);
    }
  }

  lemma WhereDescends(f: Frame, keep: Row -> bool, cols: set<string>)
    ensures Descends(Where(f, keep), f, cols)
  {
    forall y | y in Where(f, keep).rows ensures exists x :: x in f.rows && Agree(y, x, cols) {
      assert Agree(y, y, cols);
    }
  }

  lemma SetColumnDescends(f: Frame, c: string, v: Row -> Cell, cols: set<string>)
    requires c !in cols
    ensures Descends(SetColumn(f, c, v), f, cols)
  {
    var g := SetColumn(f, c, v);
    forall y | y in g.rows ensures exists x :: x in f.rows && Agree(y, x, cols) {
      var i :| 0 <= i < |g.rows| && g.rows[i] == y;
      assert Agree(y, f.rows[i], cols);
    }
  }

  lemma SetColumnValuesDescends(f: Frame, c: string, vals: seq<Cell>, cols: set<string>)
    requires |vals| == |f.rows| && c !in cols
    ensures Descends(SetColumnValues(f, c, vals), f, cols)
  {
    var g := SetColumnValues(f, c, vals);
    forall y | y in g.rows ensures exists x :: x in f.rows && Agree(y, x, cols) {
      var i :| 0 <= i < |g.rows| && g.rows[i] == y;
      assert Agree(y, f.rows[i], cols);
    }
  }

  lemma SelectDescends(f: Frame, s: seq<string>, cols: set<string>)
    requires forall c :: c in cols ==> c in s
    ensures Descends(Select(f, s), f, cols)
  {
    var g := Select(f, s);
    forall y | y in g.rows ensures exists x :: x in f.rows && Agree(y, x, cols) {
      var i :| 0 <= i < |g.rows| && g.rows[i] == y;
      assert Agree(y, f.rows[i], cols);
    }
  }

  lemma PermutedDescends(g: Frame, f: Frame, cols: set<string>)
    requires multiset(g.rows) == multiset(f.rows)
    ensures Descends(g, f, cols)
  {
    forall y | y in g.rows ensures exists x :: x in f.rows && Agree(y, x, cols) {
      assert y in multiset(f.rows);
      assert Agree(y, y, cols);
    }
  }

  // ---------- the stages of lines 55-93, one by one ----------

  /** The columns step `n` of lines 55-93 rewrites; the other steps only drop rows. */
  function Touches(n: nat): set<string> {
    if n == 4 then {"code_postal", "arrondissement"}
    else if n == 5 then {"prix_m2"}
    else if n == 8 then {"annee", "trimestre"}
    else {}
  }

  /** No column of `touched` is one of `cols`. */
  predicate Avoids(cols: set<string>, touched: set<string>) {
    forall c :: c in touched ==> c !in cols
  }

  /** The deduplicated table and the table after each of the eight steps of lines 55-93. */
  datatype Stages = Stages(deduped: Frame, sales: Frame, dwellings: Frame, complete: Frame,
                           located: Frame, priced: Frame, sized: Frame, banded: Frame, dated: Frame)

  function StagesOf(d: Frame, q: Quantile): (t: Stages)
    ensures t.deduped == d && t.dated == Refine(d, q)
    ensures t.sales == NatureFilter(t.deduped) && t.dwellings == TypeFilter(t.sales)
    ensures t.complete == Completeness(t.dwellings) && t.located == PostalStage(t.complete)
    ensures t.priced == PriceStage(t.located) && t.sized == AreaCensor(t.priced, q)
    ensures t.banded == PriceBand(t.sized, q) && t.dated == Temporal(t.banded)
  {
    var s1 := NatureFilter(d);
    var s2 := TypeFilter(s1);
    var s3 := Completeness(s2);
    var s4 := PostalStage(s3);
    var s5 := PriceStage(s4);
    var s6 := AreaCensor(s5, q);
    var s7 := PriceBand(s6, q);
    Stages(d, s1, s2, s3, s4, s5, s6, s7, Temporal(s7))
  }

  /** The table after step `k`. */
  function At(t: Stages, k: nat): Frame
    requires k <= 8
  {
    match k
    case 0 => t.deduped
    case 1 => t.sales
    case 2 => t.dwellings
    case 3 => t.complete
    case 4 => t.located
    case 5 => t.priced
    case 6 => t.sized
    case 7 => t.banded
    case _ => t.dated
  }

  lemma AtFields(t: Stages)
    ensures At(t, 0) == t.deduped && At(t, 1) == t.sales && At(t, 2) == t.dwellings
    ensures At(t, 3) == t.complete && At(t, 4) == t.located && At(t, 5) == t.priced
    ensures At(t, 6) == t.sized && At(t, 7) == t.banded && At(t, 8) == t.dated
  {
  }

  lemma FilterStepDescends(f: Frame, keep: Row -> bool, g: Frame, cols: set<string>)
    requires g == f || g == Where(f, keep)
    ensures Descends(g, f, cols) && Grows(f, g)
  {
    DescendsRefl(f, cols);
    WhereDescends(f, keep, cols);
  }

  lemma PostalStageDescends(f: Frame, cols: set<string>)
    requires "code_postal" !in cols && "arrondissement" !in cols
    ensures Descends(PostalStage(f), f, cols) && Grows(f, PostalStage(f))
  {
    if "code_postal" in f.columns {
      var e := SetColumn(f, "code_postal", r => ExtractCode(Get(r, "code_postal")));
      var p := Where(e, ParisCode);
      SetColumnDescends(f, "code_postal", r => ExtractCode(Get(r, "code_postal")), cols);
      WhereDescends(e, ParisCode, cols);
      SetColumnDescends(p, "arrondissement", r => Arrondissement(Get(r, "code_postal")), cols);
      DescendsTrans(p, e, f, cols);
      DescendsTrans(PostalStage(f), p, f, cols);
    } else {
      DescendsRefl(f, cols);
    }
  }

  lemma PriceStageDescends(f: Frame, cols: set<string>)
    requires "prix_m2" !in cols
    ensures Descends(PriceStage(f), f, cols) && Grows(f, PriceStage(f))
  {
    if "valeur_fonciere" in f.columns && "surface_reelle_bati" in f.columns {
      SetColumnDescends(f, "prix_m2", r => Divide(Get(r, "valeur_fonciere"), Get(r, "surface_reelle_bati")), cols);
    } else {
      DescendsRefl(f, cols);
    }
  }

  lemma AreaCensorDescends(f: Frame, q: Quantile, cols: set<string>)
    ensures Descends(AreaCensor(f, q), f, cols) && Grows(f, AreaCensor(f, q))
  {
    DescendsRefl(f, cols);
    if "surface_reelle_bati" in f.columns {
      var g := Where(f, LargeEnough);
      WhereDescends(f, LargeEnough, cols);
      match q(Column(g, "surface_reelle_bati"), 0.999)
      case Some(s) =>
        WhereDescends(g, r => AtMost(Get(r, "surface_reelle_bati"), s), cols);
        DescendsTrans(AreaCensor(f, q), g, f, cols);
      case None =>
    }
  }

  lemma PriceBandDescends(f: Frame, q: Quantile, cols: set<string>)
    ensures Descends(PriceBand(f, q), f, cols) && Grows(f, PriceBand(f, q))
  {
    DescendsRefl(f, cols);
    if "prix_m2" in f.columns {
      var lo, hi := BandLow(f, q), BandHigh(f, q);
      WhereDescends(f, r => InBand(r, lo, hi), cols);
    }
  }

  lemma TemporalDescends(f: Frame, cols: set<string>)
    requires "annee" !in cols && "trimestre" !in cols
    ensures Descends(Temporal(f), f, cols) && Grows(f, Temporal(f))
  {
    if "date_mutation" in f.columns {
      var a := SetColumn(f, "annee", r => YearOf(Get(r, "date_mutation")));
      SetColumnDescends(f, "annee", r => YearOf(Get(r, "date_mutation")), cols);
      SetColumnDescends(a, "trimestre", r => QuarterLabel(Get(r, "date_mutation")), cols);
      DescendsTrans(Temporal(f), a, f, cols);
    } else {
      DescendsRefl(f, cols);
    }
  }

  /** Step `k` keeps, for every row, the columns it does not rewrite. */
  lemma StepDescends(d: Frame, q: Quantile, k: nat, cols: set<string>)
    requires 1 <= k <= 8 && Avoids(cols, Touches(k))
    ensures var t := StagesOf(d, q); Descends(At(t, k), At(t, k - 1), cols) && Grows(At(t, k - 1), At(t, k))
  {
    var t := StagesOf(d, q);
    if k == 1 {
      FilterStepDescends(t.deduped, IsSale, t.sales, cols);
    } else if k == 2 {
      FilterStepDescends(t.sales, IsDwelling, t.dwellings, cols);
    } else if k == 3 {
      var needed := NeededColumns(t.dwellings);
      FilterStepDescends(t.dwellings, r => Complete(r, needed), t.complete, cols);
    } else if k == 4 {
      assert "code_postal" in Touches(k) && "arrondissement" in Touches(k);
      PostalStageDescends(t.complete, cols);
    } else if k == 5 {
      assert "prix_m2" in Touches(k);
      PriceStageDescends(t.located, cols);
    } else if k == 6 {
      AreaCensorDescends(t.priced, q, cols);
    } else if k == 7 {
      PriceBandDescends(t.sized, q, cols);
    } else {
      assert "annee" in Touches(k) && "trimestre" in Touches(k);
      TemporalDescends(t.banded, cols);
    }
  }

  lemma {:induction false} ChainDescends(t: Stages, i: nat, j: nat, cols: set<string>)
    requires i <= j <= 8
    requires forall k :: i < k <= j ==> Descends(At(t, k), At(t, k - 1), cols) && Grows(At(t, k - 1), At(t, k))
    ensures Descends(At(t, j), At(t, i), cols) && Grows(At(t, i), At(t, j))
    decreases j
  {
    if i == j {
      DescendsRefl(At(t, i), cols);
    } else {
      ChainDescends(t, i, j - 1, cols);
      DescendsTrans(At(t, j), At(t, j - 1), At(t, i), cols);
    }
  }

  lemma StagesDescend(d: Frame, q: Quantile, i: nat, j: nat, cols: set<string>)
    requires i <= j <= 8
    requires forall k :: i < k <= j ==> Avoids(cols, Touches(k))
    ensures var t := StagesOf(d, q); Descends(At(t, j), At(t, i), cols) && Grows(At(t, i), At(t, j))
  {
    var t := StagesOf(d, q);
    forall k | i < k <= j ensures Descends(At(t, k), At(t, k - 1), cols) && Grows(At(t, k - 1), At(t, k)) {
      StepDescends(d, q, k, cols);
    }
    ChainDescends(t, i, j, cols);
  }

  // ---------- from the classes to the returned table ----------

  /** Lines 40-52: the table deduplication produces, or its error. */
  function Deduplicated(raw: Frame): Result<Frame, CleanError> {
    Dedup(CoerceColumns(raw, CleanNumericColumns()))
  }

  /** Lines 96-104 rewrite the room count and add its class. */
  lemma RoomStageDescends(f: Frame, cols: set<string>)
    requires RoomStage(f).Ok?
    requires "nombre_pieces_principales" !in cols && "classe_pieces" !in cols
    ensures Descends(RoomStage(f).value, f, cols) && Grows(f, RoomStage(f).value)
  {
    if "nombre_pieces_principales" in f.columns {
      var rooms := RoundAll(Column(f, "nombre_pieces_principales")).value;
      var g := SetColumnValues(f, "nombre_pieces_principales", rooms);
      SetColumnValuesDescends(f, "nombre_pieces_principales", rooms, cols);
      SetColumnDescends(g, "classe_pieces", r => RoomClass(Get(r, "nombre_pieces_principales")), cols);
      DescendsTrans(RoomStage(f).value, g, f, cols);
    } else {
      DescendsRefl(f, cols);
    }
  }

  lemma SurfaceStageDescends(f: Frame, cols: set<string>)
    requires "classe_surface_m2" !in cols
    ensures Descends(SurfaceStage(f), f, cols) && Grows(f, SurfaceStage(f))
  {
    if "surface_reelle_bati" in f.columns {
      SetColumnDescends(f, "classe_surface_m2", r => SurfaceClass(Get(r, "surface_reelle_bati"), true), cols);
    } else {
      DescendsRefl(f, cols);
    }
  }

  /** Lines 121-135: the projection and the sort keep every listed column a row had. */
  lemma FinishDescends(s: Frame, cols: set<string>)
    requires FinalSort(Project(s)).Ok?
    requires forall c :: c in cols ==> c in FinalColumns() && c in s.columns
    ensures Descends(FinalSort(Project(s)).value, s, cols)
  {
    var p := Project(s);
    SelectDescends(s, KeepIf(FinalColumns(), s.columns, true), cols);
    PermutedDescends(FinalSort(p).value, p, cols);
    DescendsTrans(FinalSort(p).value, p, s, cols);
  }

  lemma FinishTrace(e: Frame, cols: set<string>)
    requires Finish(e).Ok?
    requires Avoids(cols, {"nombre_pieces_principales", "classe_pieces", "classe_surface_m2"})
    requires forall c :: c in cols ==> c in FinalColumns() && c in e.columns
    ensures Descends(Finish(e).value, e, cols)
  {
    var b := RoomStage(e).value;
    RoomStageDescends(e, cols);
    SurfaceStageDescends(b, cols);
    FinishDescends(SurfaceStage(b), cols);
    DescendsTrans(SurfaceStage(b), b, e, cols);
    DescendsTrans(Finish(e).value, SurfaceStage(b), e, cols);
  }

  /** A successful clean is the finishing of the refined deduplicated table. */
  lemma CleanViaFinish(raw: Frame, q: Quantile)
    requires Clean(raw, q).Ok?
    ensures Deduplicated(raw).Ok? && Clean(raw, q) == Finish(Refine(Deduplicated(raw).value, q))
  {
  }

  /** A successful clean deduplicates, runs the eight steps, then finishes. */
  lemma CleanStages(raw: Frame, q: Quantile) returns (d: Frame)
    requires Clean(raw, q).Ok?
    ensures Deduplicated(raw) == Ok(d)
    ensures Clean(raw, q) == Finish(StagesOf(d, q).dated)
    ensures Grows(raw, d)
  {
    CleanViaFinish(raw, q);
    d := Deduplicated(raw).value;
    DedupRows(CoerceColumns(raw, CleanNumericColumns()));
    var t := StagesOf(d, q);
  }

  /** A row after the eight steps matches a row after step `n` on columns the later steps do not rewrite. */
  lemma RefineTrace(d: Frame, q: Quantile, n: nat, cols: set<string>)
    requires n <= 8
    requires forall k :: n < k <= 8 ==> Avoids(cols, Touches(k))
    ensures Descends(StagesOf(d, q).dated, At(StagesOf(d, q), n), cols)
    ensures Grows(At(StagesOf(d, q), n), StagesOf(d, q).dated)
  {
    var t := StagesOf(d, q);
    StagesDescend(d, q, n, 8, cols);
    AtFields(t);
  }

  /** The same for the finished table, on columns it keeps. */
  lemma FinishTraceFrom(e: Frame, f: Frame, cols: set<string>)
    requires Finish(e).Ok?
    requires Avoids(cols, {"nombre_pieces_principales", "classe_pieces", "classe_surface_m2"})
    requires forall c :: c in cols ==> c in FinalColumns() && c in f.columns
    requires Descends(e, f, cols) && Grows(f, e)
    ensures Descends(Finish(e).value, f, cols)
  {
    FinishTrace(e, cols);
    DescendsTrans(Finish(e).value, e, f, cols);
  }

  /** Columns that the finished table keeps and that neither the steps after `n` nor the classes rewrite. */
  predicate Traceable(cols: set<string>, n: nat) {
    && (forall k :: n < k <= 8 ==> Avoids(cols, Touches(k)))
    && Avoids(cols, {"nombre_pieces_principales", "classe_pieces", "classe_surface_m2"})
    && (forall c :: c in cols ==> c in FinalColumns())
  }

  /** A row of the finished table matches a row of the table after step `n` on columns no later step rewrites. */
  lemma TraceBack(d: Frame, q: Quantile, n: nat, cols: set<string>)
    requires Finish(StagesOf(d, q).dated).Ok? && n <= 8
    requires Traceable(cols, n)
    requires forall c :: c in cols ==> c in At(StagesOf(d, q), n).columns
    ensures Descends(Finish(StagesOf(d, q).dated).value, At(StagesOf(d, q), n), cols)
  {
    RefineTrace(d, q, n, cols);
    FinishTraceFrom(StagesOf(d, q).dated, At(StagesOf(d, q), n), cols);
  }

  // ---------- what each stage establishes ----------

  lemma NatureFilterSales(f: Frame)
    requires "nature_mutation" in f.columns
    ensures forall y :: y in NatureFilter(f).rows ==> IsSale(y)
  {
  }

  lemma TypeFilterDwellings(f: Frame)
    requires "type_local" in f.columns
    ensures forall y :: y in TypeFilter(f).rows ==> IsDwelling(y)
  {
  }

  /** A postal code of the clean table: five digits starting "75", and its arrondissement is the last two. */
  predicate ParisPostal(r: Row) {
    var c := Get(r, "code_postal");
    && c.Str? && |c.s| == 5 && AllDigits(c.s) && c.s[..2] == "75"
    && Get(r, "arrondissement") == Int(DigitsValue(c.s[3..]))
  }

  /** After the extraction and the "75" filter, every code is five digits starting "75". */
  lemma ParisCodesExtracted(f: Frame)
    ensures var e := SetColumn(f, "code_postal", r => ExtractCode(Get(r, "code_postal")));
            forall x :: x in Where(e, ParisCode).rows ==>
              var c := Get(x, "code_postal"); c.Str? && |c.s| == 5 && AllDigits(c.s) && c.s[..2] == "75"
  {
    var e := SetColumn(f, "code_postal", r => ExtractCode(Get(r, "code_postal")));
    forall x | x in Where(e, ParisCode).rows
      ensures var c := Get(x, "code_postal"); c.Str? && |c.s| == 5 && AllDigits(c.s) && c.s[..2] == "75"
    {
      assert x in e.rows && ParisCode(x);
      var j :| 0 <= j < |e.rows| && e.rows[j] == x;
      var c := Get(x, "code_postal");
      assert c == ExtractCode(Get(f.rows[j], "code_postal"));
      var t := FirstFiveDigits(AsText(Get(f.rows[j], "code_postal")));
      assert t.Some? && c == Str(t.value);
    }
  }

  /** A five-digit code starting "75". */
  predicate ParisDigits(r: Row) {
    var c := Get(r, "code_postal");
    c.Str? && |c.s| == 5 && AllDigits(c.s) && c.s[..2] == "75"
  }

  /** The arrondissement of a five-digit code is the number its last two digits spell. */
  lemma ArrondissementOfCode(x: Row)
    requires ParisDigits(x)
    ensures ParisPostal(x["arrondissement" := Arrondissement(Get(x, "code_postal"))])
  {
    var c := Get(x, "code_postal");
    assert c.s[|c.s| - 2..] == c.s[3..];
    assert AllDigits(c.s[3..]);
    var y := x["arrondissement" := Arrondissement(c)];
    assert Get(y, "code_postal") == c;
  }

  lemma ArrondissementAdded(p: Frame)
    requires forall x :: x in p.rows ==> ParisDigits(x)
    ensures forall y :: y in SetColumn(p, "arrondissement", r => Arrondissement(Get(r, "code_postal"))).rows ==> ParisPostal(y)
  {
    var g := SetColumn(p, "arrondissement", r => Arrondissement(Get(r, "code_postal")));
    forall y | y in g.rows ensures ParisPostal(y) {
      var i :| 0 <= i < |g.rows| && g.rows[i] == y;
      assert p.rows[i] in p.rows;
      ArrondissementOfCode(p.rows[i]);
    }
  }

  lemma PostalStageCodes(f: Frame)
    requires "code_postal" in f.columns
    ensures forall y :: y in PostalStage(f).rows ==> ParisPostal(y)
  {
    var e := SetColumn(f, "code_postal", r => ExtractCode(Get(r, "code_postal")));
    ParisCodesExtracted(f);
    var p := Where(e, ParisCode);
    assert forall x :: x in p.rows ==> ParisDigits(x);
    ArrondissementAdded(p);
  }

  lemma PriceStageRatio(f: Frame)
    requires "valeur_fonciere" in f.columns && "surface_reelle_bati" in f.columns
    ensures forall y :: y in PriceStage(f).rows ==>
              Get(y, "prix_m2") == Divide(Get(y, "valeur_fonciere"), Get(y, "surface_reelle_bati"))
  {
    var g := PriceStage(f);
    forall y | y in g.rows ensures Get(y, "prix_m2") == Divide(Get(y, "valeur_fonciere"), Get(y, "surface_reelle_bati")) {
      var i :| 0 <= i < |g.rows| && g.rows[i] == y;
      assert Get(y, "valeur_fonciere") == Get(f.rows[i], "valeur_fonciere");
    }
  }

  /** Lines 76-80: every surviving area is at least 9 m², and at most the 99.9% quantile of those when it exists. */
  lemma AreaCensorBounds(f: Frame, q: Quantile)
    requires "surface_reelle_bati" in f.columns
    ensures forall y :: y in AreaCensor(f, q).rows ==> LargeEnough(y)
    ensures var g := Where(f, LargeEnough);
            match q(Column(g, "surface_reelle_bati"), 0.999)
            case Some(s) => forall y :: y in AreaCensor(f, q).rows ==> AtMost(Get(y, "surface_reelle_bati"), s)
            case None => AreaCensor(f, q) == g
  {
  }

  /** A surviving price per square metre is a number inside the band of lines 82-88. */
  lemma PriceBandBounds(f: Frame, q: Quantile)
    requires "prix_m2" in f.columns
    ensures forall y :: y in PriceBand(f, q).rows ==>
              Get(y, "prix_m2").Num? && BandLow(f, q) <= Get(y, "prix_m2").x <= BandHigh(f, q)
  {
  }

  lemma TemporalLabels(f: Frame)
    requires "date_mutation" in f.columns
    ensures forall y :: y in Temporal(f).rows ==>
              Get(y, "annee") == YearOf(Get(y, "date_mutation")) && Get(y, "trimestre") == QuarterLabel(Get(y, "date_mutation"))
  {
    var a := SetColumn(f, "annee", r => YearOf(Get(r, "date_mutation")));
    var g := Temporal(f);
    forall y | y in g.rows ensures Get(y, "annee") == YearOf(Get(y, "date_mutation")) {
      var i :| 0 <= i < |g.rows| && g.rows[i] == y;
      assert Get(y, "date_mutation") == Get(a.rows[i], "date_mutation") == Get(f.rows[i], "date_mutation");
    }
  }

  /** A room count of the output is the input count rounded to a 16-bit integer, and the class is that count's. */
  predicate RoomsClassed(r: Row) {
    var n := Get(r, "nombre_pieces_principales");
    (n.NA? || (n.Int? && IsInt16(n.i))) && Get(r, "classe_pieces") == RoomClass(n)
  }

  lemma RoomStageClasses(f: Frame)
    requires RoomStage(f).Ok? && "nombre_pieces_principales" in f.columns
    ensures |RoomStage(f).value.rows| == |f.rows|
    ensures forall i :: 0 <= i < |f.rows| ==>
              RoundRooms(Get(f.rows[i], "nombre_pieces_principales")) == Ok(Get(RoomStage(f).value.rows[i], "nombre_pieces_principales"))
    ensures forall y :: y in RoomStage(f).value.rows ==> RoomsClassed(y)
  {
    var col := Column(f, "nombre_pieces_principales");
    var rooms := RoundAll(col).value;
    var g := SetColumnValues(f, "nombre_pieces_principales", rooms);
    var b := RoomStage(f).value;
    forall i | 0 <= i < |f.rows|
      ensures RoundRooms(Get(f.rows[i], "nombre_pieces_principales")) == Ok(Get(b.rows[i], "nombre_pieces_principales"))
    {
      assert RoundRooms(col[i]) == Ok(rooms[i]);
      assert Get(b.rows[i], "nombre_pieces_principales") == Get(g.rows[i], "nombre_pieces_principales");
    }
    forall y | y in b.rows ensures RoomsClassed(y) {
      var i :| 0 <= i < |b.rows| && b.rows[i] == y;
      assert RoundRooms(col[i]) == Ok(rooms[i]);
      assert Get(y, "nombre_pieces_principales") == rooms[i];
    }
  }

  lemma SurfaceStageClasses(f: Frame)
    requires "surface_reelle_bati" in f.columns
    ensures forall y :: y in SurfaceStage(f).rows ==>
              Get(y, "classe_surface_m2") == SurfaceClass(Get(y, "surface_reelle_bati"), true)
  {
    var g := SurfaceStage(f);
    forall y | y in g.rows ensures Get(y, "classe_surface_m2") == SurfaceClass(Get(y, "surface_reelle_bati"), true) {
      var i :| 0 <= i < |g.rows| && g.rows[i] == y;
      assert Get(y, "surface_reelle_bati") == Get(f.rows[i], "surface_reelle_bati");
    }
  }

  /** The labels `dropna` requires, when present (lines 61-63). */
  predicate Essential(c: string) {
    c == "valeur_fonciere" || c == "surface_reelle_bati" || c == "date_mutation"
  }

  lemma CompletenessHolds(f: Frame, c: string)
    requires Essential(c) && c in f.columns
    ensures forall y :: y in Completeness(f).rows ==> Get(y, c) != NA
  {
    var needed := NeededColumns(f);
    assert c in needed;
  }

  // ---------- the returned table ----------

  lemma EssentialTraceable(c: string)
    requires Essential(c)
    ensures Traceable({c}, 3)
  {
  }

  lemma RoomsKept()
    ensures "classe_surface_m2" !in {"nombre_pieces_principales", "classe_pieces"}
    ensures forall c :: c in {"nombre_pieces_principales", "classe_pieces"} ==> c in FinalColumns()
  {
  }

  lemma SurfacesKept()
    ensures forall c :: c in {"surface_reelle_bati", "classe_surface_m2"} ==> c in FinalColumns()
  {
  }

  lemma SalesTraceable()
    ensures Traceable({"nature_mutation"}, 1)
  {
  }

  lemma DwellingsTraceable()
    ensures Traceable({"type_local"}, 2)
  {
  }

  /** The columns each guarantee of the returned table is about. */
  function ParisCols(): set<string> { {"code_postal", "arrondissement"} }
  function RatioCols(): set<string> { {"prix_m2", "valeur_fonciere", "surface_reelle_bati"} }
  function AreaCols(): set<string> { {"surface_reelle_bati"} }
  function PriceCols(): set<string> { {"prix_m2"} }
  function PeriodCols(): set<string> { {"annee", "trimestre", "date_mutation"} }
  function RoomCols(): set<string> { {"nombre_pieces_principales", "classe_pieces"} }
  function SurfaceCols(): set<string> { {"surface_reelle_bati", "classe_surface_m2"} }

  lemma ParisTraceable()
    ensures Traceable(ParisCols(), 4)
  {
  }

  lemma PriceRatioTraceable()
    ensures Traceable(RatioCols(), 5)
  {
  }

  lemma AreaTraceable()
    ensures Traceable(AreaCols(), 6)
  {
  }

  lemma PriceBandTraceable()
    ensures Traceable(PriceCols(), 7)
  {
  }

  lemma PeriodsTraceable()
    ensures Traceable(PeriodCols(), 8)
  {
  }

  lemma StagesGrow(d: Frame, q: Quantile, n: nat)
    requires n <= 8
    ensures Grows(d, At(StagesOf(d, q), n))
  {
    StagesDescend(d, q, 0, n, {});
    AtFields(StagesOf(d, q));
  }

  /** The finished table's columns are the final labels the classed table has, in the final order. */
  lemma FinishColumns(e: Frame)
    requires Finish(e).Ok?
    ensures var s := SurfaceStage(RoomStage(e).value);
            Grows(e, s) && Finish(e).value.columns == KeepIf(FinalColumns(), s.columns, true)
  {
    var b := RoomStage(e).value;
    RoomStageDescends(e, {});
    SurfaceStageDescends(b, {});
  }

  lemma FinishTraceRooms(e: Frame, cols: set<string>)
    requires Finish(e).Ok? && "classe_surface_m2" !in cols
    requires forall c :: c in cols ==> c in FinalColumns() && c in RoomStage(e).value.columns
    ensures Descends(Finish(e).value, RoomStage(e).value, cols)
  {
    var b := RoomStage(e).value;
    SurfaceStageDescends(b, cols);
    FinishDescends(SurfaceStage(b), cols);
    DescendsTrans(Finish(e).value, SurfaceStage(b), b, cols);
  }

  /** The table `make_df_clean` returns is sorted by transaction date, missing dates last. */
  lemma FinishSorted(e: Frame)
    requires Finish(e).Ok?
    ensures SortedBy(Finish(e).value.rows, RowDateLe)
  {
  }

  lemma CleanSorted(raw: Frame, q: Quantile)
    requires Clean(raw, q).Ok?
    ensures SortedBy(Clean(raw, q).value.rows, RowDateLe)
  {
    CleanViaFinish(raw, q);
    FinishSorted(Refine(Deduplicated(raw).value, q));
  }

  lemma FinalColumnsDistinct()
    ensures Distinct(FinalColumns())
  {
  }

  /** The finished table's columns are distinct final labels, and every final label of the table after the steps is among them. */
  lemma FinishedColumns(e: Frame)
    requires Finish(e).Ok?
    ensures Distinct(Finish(e).value.columns)
    ensures forall c :: c in Finish(e).value.columns ==> c in FinalColumns()
    ensures forall c :: c in e.columns && c in FinalColumns() ==> c in Finish(e).value.columns
  {
    FinishColumns(e);
    FinalColumnsDistinct();
  }

  /** The labels of `t` are distinct final columns in the final-list order, include the date, and include every final column of `src`. */
  predicate FinalLabels(src: Frame, t: Frame) {
    && Distinct(t.columns)
    && InOrderOf(t.columns, FinalColumns())
    && (forall c :: c in t.columns ==> c in FinalColumns())
    && (forall c :: c in src.columns && c in FinalColumns() ==> c in t.columns)
    && "date_mutation" in t.columns
  }

  /** `t` has each label the eight steps derive from columns of `src`. */
  predicate StepsDerived(src: Frame, t: Frame) {
    && ("date_mutation" in src.columns ==> "annee" in t.columns && "trimestre" in t.columns)
    && ("valeur_fonciere" in src.columns && "surface_reelle_bati" in src.columns ==> "prix_m2" in t.columns)
    && ("code_postal" in src.columns ==> "arrondissement" in t.columns)
  }

  /** `t` has each class whose binned column `src` has. */
  predicate ClassesDerived(src: Frame, t: Frame) {
    && ("nombre_pieces_principales" in src.columns ==> "classe_pieces" in t.columns)
    && ("surface_reelle_bati" in src.columns ==> "classe_surface_m2" in t.columns)
  }

  /** The projection lists the labels in the final order, and the date is among them. */
  lemma FinishOrder(e: Frame)
    requires Finish(e).Ok?
    ensures "date_mutation" in Finish(e).value.columns && InOrderOf(Finish(e).value.columns, FinalColumns())
  {
    var b := RoomStage(e).value;
    FinishColumns(e);
    FinalColumnsDistinct();
    KeepIfOrder(FinalColumns(), SurfaceStage(b).columns, true);
  }

  lemma FinishLabels(e: Frame)
    requires Finish(e).Ok?
    ensures FinalLabels(e, Finish(e).value)
  {
    FinishedColumns(e);
    FinishOrder(e);
  }

  lemma RoomStageAddsClass(e: Frame)
    requires RoomStage(e).Ok?
    ensures Grows(e, RoomStage(e).value)
    ensures "nombre_pieces_principales" in e.columns ==> "classe_pieces" in RoomStage(e).value.columns
  {
    RoomStageDescends(e, {});
    if "nombre_pieces_principales" in e.columns {
      RoomColumns(e);
      assert "classe_pieces" in RoomCols();
    }
  }

  lemma SurfaceStageAddsClass(b: Frame)
    ensures Grows(b, SurfaceStage(b))
    ensures "surface_reelle_bati" in b.columns ==> "classe_surface_m2" in SurfaceStage(b).columns
  {
    SurfaceStageDescends(b, {});
    if "surface_reelle_bati" in b.columns {
      SurfaceColumns(b);
      assert "classe_surface_m2" in SurfaceCols();
    }
  }

  lemma ClassesThrough(e: Frame, b: Frame, s: Frame, t: Frame)
    requires Grows(e, b) && ("nombre_pieces_principales" in e.columns ==> "classe_pieces" in b.columns)
    requires Grows(b, s) && ("surface_reelle_bati" in b.columns ==> "classe_surface_m2" in s.columns)
    requires t.columns == KeepIf(FinalColumns(), s.columns, true)
    ensures ClassesDerived(e, t)
  {
    assert "classe_pieces" in FinalColumns() && "classe_surface_m2" in FinalColumns();
  }

  /** The classes exist when the columns they bin do. */
  lemma FinishClasses(e: Frame)
    requires Finish(e).Ok?
    ensures ClassesDerived(e, Finish(e).value)
  {
    var b := RoomStage(e).value;
    FinishColumns(e);
    RoomStageAddsClass(e);
    SurfaceStageAddsClass(b);
    ClassesThrough(e, b, SurfaceStage(b), Finish(e).value);
  }

  lemma LocatedAddsArrondissement(d: Frame, q: Quantile)
    ensures "code_postal" in d.columns ==> "arrondissement" in Refine(d, q).columns
  {
    var t := StagesOf(d, q);
    StagesDescend(d, q, 0, 3, {});
    StagesDescend(d, q, 4, 8, {});
    AtFields(t);
    if "code_postal" in d.columns {
      ParisColumns(t.complete);
      assert "arrondissement" in ParisCols();
    }
  }

  lemma PricedAddsRatio(d: Frame, q: Quantile)
    ensures "valeur_fonciere" in d.columns && "surface_reelle_bati" in d.columns ==> "prix_m2" in Refine(d, q).columns
  {
    var t := StagesOf(d, q);
    StagesDescend(d, q, 0, 4, {});
    StagesDescend(d, q, 5, 8, {});
    AtFields(t);
    PriceAddsColumn(t.located);
  }

  lemma DatedAddsPeriods(d: Frame, q: Quantile)
    ensures "date_mutation" in d.columns ==> "annee" in Refine(d, q).columns && "trimestre" in Refine(d, q).columns
  {
    var t := StagesOf(d, q);
    StagesDescend(d, q, 0, 7, {});
    AtFields(t);
    if "date_mutation" in d.columns {
      PeriodColumns(t.banded);
      assert "annee" in PeriodCols() && "trimestre" in PeriodCols();
    }
  }

  lemma RefineDerives(d: Frame, q: Quantile)
    ensures StepsDerived(d, Refine(d, q)) && Grows(d, Refine(d, q))
  {
    LocatedAddsArrondissement(d, q);
    PricedAddsRatio(d, q);
    DatedAddsPeriods(d, q);
    StagesGrow(d, q, 8);
    AtFields(StagesOf(d, q));
  }

  lemma FinalListsDerived()
    ensures "annee" in FinalColumns() && "trimestre" in FinalColumns()
    ensures "prix_m2" in FinalColumns() && "arrondissement" in FinalColumns()
  {
  }

  /** What the finished table `t` of the refined table `e` of `d` keeps is kept for the raw table `raw` that `d` grew from. */
  lemma LabelsFromRaw(raw: Frame, d: Frame, e: Frame, t: Frame)
    requires Grows(raw, d) && Grows(d, e) && StepsDerived(d, e)
    requires FinalLabels(e, t) && ClassesDerived(e, t)
    ensures FinalLabels(raw, t) && StepsDerived(raw, t) && ClassesDerived(raw, t)
  {
    FinalListsDerived();
  }

  /**
   * Its columns are distinct final labels in the final-list order and include
   * the date; every final label of the raw table is among them, and so is
   * every label the pipeline derives from columns the raw table has.
   */
  lemma CleanColumns(raw: Frame, q: Quantile)
    requires Clean(raw, q).Ok?
    ensures FinalLabels(raw, Clean(raw, q).value)
    ensures StepsDerived(raw, Clean(raw, q).value) && ClassesDerived(raw, Clean(raw, q).value)
  {
    var d := CleanStages(raw, q);
    var e := Refine(d, q);
    FinishLabels(e);
    FinishClasses(e);
    RefineDerives(d, q);
    LabelsFromRaw(raw, d, e, Finish(e).value);
  }

  lemma SalesFinished(d: Frame, q: Quantile)
    requires Finish(StagesOf(d, q).dated).Ok? && "nature_mutation" in d.columns
    ensures forall y :: y in Finish(StagesOf(d, q).dated).value.rows ==> IsSale(y)
  {
    var t := StagesOf(d, q);
    var cols := {"nature_mutation"};
    StagesGrow(d, q, 1);
    AtFields(t);
    NatureFilterSales(t.deduped);
    SalesTraceable();
    TraceBack(d, q, 1, cols);
    forall y | y in Finish(StagesOf(d, q).dated).value.rows ensures IsSale(y) {
      var x :| x in t.sales.rows && Agree(y, x, cols);
      assert Get(y, "nature_mutation") == Get(x, "nature_mutation");
    }
  }

  /** With a "nature_mutation" column every returned row is a sale (lines 55-56). */
  lemma CleanSales(raw: Frame, q: Quantile)
    requires Clean(raw, q).Ok? && "nature_mutation" in raw.columns
    ensures forall y :: y in Clean(raw, q).value.rows ==> IsSale(y)
  {
    var d := CleanStages(raw, q);
    SalesFinished(d, q);
  }

  lemma DwellingsFinished(d: Frame, q: Quantile)
    requires Finish(StagesOf(d, q).dated).Ok? && "type_local" in d.columns
    ensures forall y :: y in Finish(StagesOf(d, q).dated).value.rows ==> IsDwelling(y)
  {
    var t := StagesOf(d, q);
    var cols := {"type_local"};
    StagesGrow(d, q, 2);
    StagesGrow(d, q, 1);
    AtFields(t);
    TypeFilterDwellings(t.sales);
    DwellingsTraceable();
    TraceBack(d, q, 2, cols);
    forall y | y in Finish(StagesOf(d, q).dated).value.rows ensures IsDwelling(y) {
      var x :| x in t.dwellings.rows && Agree(y, x, cols);
      assert Get(y, "type_local") == Get(x, "type_local");
    }
  }

  /** With a "type_local" column every returned row is a flat or a house (lines 57-58). */
  lemma CleanDwellings(raw: Frame, q: Quantile)
    requires Clean(raw, q).Ok? && "type_local" in raw.columns
    ensures forall y :: y in Clean(raw, q).value.rows ==> IsDwelling(y)
  {
    var d := CleanStages(raw, q);
    DwellingsFinished(d, q);
  }

  lemma CompleteFinished(d: Frame, q: Quantile, c: string)
    requires Finish(StagesOf(d, q).dated).Ok? && Essential(c) && c in d.columns
    ensures forall y :: y in Finish(StagesOf(d, q).dated).value.rows ==> Get(y, c) != NA
  {
    var t := StagesOf(d, q);
    var cols := {c};
    StagesGrow(d, q, 3);
    StagesGrow(d, q, 2);
    AtFields(t);
    CompletenessHolds(t.dwellings, c);
    EssentialTraceable(c);
    TraceBack(d, q, 3, cols);
    forall y | y in Finish(StagesOf(d, q).dated).value.rows ensures Get(y, c) != NA {
      var x :| x in t.complete.rows && Agree(y, x, cols);
    }
  }

  /** Price, area and date are never missing when the raw table has them (lines 61-63). */
  lemma CleanComplete(raw: Frame, q: Quantile, c: string)
    requires Clean(raw, q).Ok? && Essential(c) && c in raw.columns
    ensures forall y :: y in Clean(raw, q).value.rows ==> Get(y, c) != NA
  {
    var d := CleanStages(raw, q);
    CompleteFinished(d, q, c);
  }

  lemma ParisFinished(d: Frame, q: Quantile)
    requires Finish(StagesOf(d, q).dated).Ok? && "code_postal" in d.columns
    ensures forall y :: y in Finish(StagesOf(d, q).dated).value.rows ==> ParisPostal(y)
  {
    var t := StagesOf(d, q);
    StagesGrow(d, q, 3);
    AtFields(t);
    ParisColumns(t.complete);
    PostalStageCodes(t.complete);
    ParisTraceable();
    TraceBack(d, q, 4, ParisCols());
    TransferParis(Finish(t.dated).value, t.located);
  }

  /** With a "code_postal" column every returned code is a Paris code and the arrondissement is its last two digits (lines 66-69). */
  lemma CleanParis(raw: Frame, q: Quantile)
    requires Clean(raw, q).Ok? && "code_postal" in raw.columns
    ensures forall y :: y in Clean(raw, q).value.rows ==> ParisPostal(y)
  {
    var d := CleanStages(raw, q);
    ParisFinished(d, q);
  }

  lemma PriceRatioFinished(d: Frame, q: Quantile)
    requires Finish(StagesOf(d, q).dated).Ok? && "valeur_fonciere" in d.columns && "surface_reelle_bati" in d.columns
    ensures forall y :: y in Finish(StagesOf(d, q).dated).value.rows ==> PriceIsRatio(y)
  {
    var t := StagesOf(d, q);
    StagesGrow(d, q, 4);
    AtFields(t);
    RatioColumns(t.located);
    PriceStageRatio(t.located);
    PriceRatioTraceable();
    TraceBack(d, q, 5, RatioCols());
    TransferPriceRatio(Finish(t.dated).value, t.priced);
  }

  /** The price per square metre is the price divided by the area (lines 72-73). */
  lemma CleanPriceRatio(raw: Frame, q: Quantile)
    requires Clean(raw, q).Ok? && "valeur_fonciere" in raw.columns && "surface_reelle_bati" in raw.columns
    ensures forall y :: y in Clean(raw, q).value.rows ==> PriceIsRatio(y)
  {
    var d := CleanStages(raw, q);
    PriceRatioFinished(d, q);
  }

  lemma AreaFinished(d: Frame, q: Quantile)
    requires Finish(StagesOf(d, q).dated).Ok? && "surface_reelle_bati" in d.columns
    ensures forall y :: y in Finish(StagesOf(d, q).dated).value.rows ==> AreaWithin(y, AreaCap(StagesOf(d, q).priced, q))
  {
    var t := StagesOf(d, q);
    StagesGrow(d, q, 5);
    StagesGrow(d, q, 6);
    AtFields(t);
    AreaColumns(t.sized);
    AreaCensorWithin(t.priced, q);
    AreaTraceable();
    TraceBack(d, q, 6, AreaCols());
    TransferAreaWithin(Finish(t.dated).value, t.sized, AreaCap(t.priced, q));
  }

  /**
   * With an area column every returned area is at least 9 m² (line 77), and at
   * most the 99.9% quantile of the areas left by that floor, when it exists (lines 78-80).
   */
  lemma CleanArea(raw: Frame, q: Quantile)
    requires Clean(raw, q).Ok? && "surface_reelle_bati" in raw.columns
    ensures Deduplicated(raw).Ok?
    ensures var cap := AreaCap(StagesOf(Deduplicated(raw).value, q).priced, q);
            forall y :: y in Clean(raw, q).value.rows ==> LargeEnough(y) && (cap.Some? ==> AtMost(Get(y, "surface_reelle_bati"), cap.value))
  {
    var d := CleanStages(raw, q);
    AreaFinished(d, q);
  }

  lemma PriceBandFinished(d: Frame, q: Quantile)
    requires Finish(StagesOf(d, q).dated).Ok? && "valeur_fonciere" in d.columns && "surface_reelle_bati" in d.columns
    ensures var f := StagesOf(d, q).sized;
            forall y :: y in Finish(StagesOf(d, q).dated).value.rows ==> PriceWithin(y, BandLow(f, q), BandHigh(f, q))
  {
    var t := StagesOf(d, q);
    StagesGrow(d, q, 4);
    StagesGrow(d, q, 7);
    AtFields(t);
    PriceAddsColumn(t.located);
    StagesGrow(d, q, 5);
    StagesDescend(d, q, 5, 6, {});
    AtFields(t);
    PriceBandWithin(t.sized, q);
    PriceColumns(t.banded);
    PriceBandTraceable();
    TraceBack(d, q, 7, PriceCols());
    TransferPriceWithin(Finish(t.dated).value, t.banded, BandLow(t.sized, q), BandHigh(t.sized, q));
  }

  /**
   * With price and area columns every returned price per square metre is a number
   * between BandLow and BandHigh of the area-censored table, so between 1000 and 50000 (lines 82-88).
   */
  lemma CleanPriceBand(raw: Frame, q: Quantile)
    requires Clean(raw, q).Ok? && "valeur_fonciere" in raw.columns && "surface_reelle_bati" in raw.columns
    ensures Deduplicated(raw).Ok?
    ensures var f := StagesOf(Deduplicated(raw).value, q).sized;
            forall y :: y in Clean(raw, q).value.rows ==> PriceWithin(y, BandLow(f, q), BandHigh(f, q))
    ensures forall y :: y in Clean(raw, q).value.rows ==> PricePlausible(y)
  {
    var d := CleanStages(raw, q);
    PriceBandFinished(d, q);
    var f := StagesOf(d, q).sized;
    WithinPlausible(Clean(raw, q).value.rows, BandLow(f, q), BandHigh(f, q));
  }

  lemma PeriodsFinished(d: Frame, q: Quantile)
    requires Finish(StagesOf(d, q).dated).Ok? && "date_mutation" in d.columns
    ensures forall y :: y in Finish(StagesOf(d, q).dated).value.rows ==> PeriodsOfDate(y)
  {
    var t := StagesOf(d, q);
    StagesGrow(d, q, 7);
    AtFields(t);
    PeriodColumns(t.banded);
    TemporalLabels(t.banded);
    PeriodsTraceable();
    TraceBack(d, q, 8, PeriodCols());
    TransferPeriods(Finish(t.dated).value, t.dated);
  }

  /** With a date column the year and quarter columns are the date's (lines 91-93). */
  lemma CleanPeriods(raw: Frame, q: Quantile)
    requires Clean(raw, q).Ok? && "date_mutation" in raw.columns
    ensures forall y :: y in Clean(raw, q).value.rows ==> PeriodsOfDate(y)
  {
    var d := CleanStages(raw, q);
    PeriodsFinished(d, q);
  }

  lemma RoomsFinished(d: Frame, q: Quantile)
    requires Finish(StagesOf(d, q).dated).Ok? && "nombre_pieces_principales" in d.columns
    ensures forall y :: y in Finish(StagesOf(d, q).dated).value.rows ==> RoomsClassed(y)
  {
    var t := StagesOf(d, q);
    StagesGrow(d, q, 8);
    AtFields(t);
    RoomsFromClasses(t.dated);
  }

  /** The room count of `y` is the `round().astype("Int16")` of the count of some row of `f`. */
  predicate RoomsRoundedFrom(y: Row, f: Frame) {
    exists x :: x in f.rows && RoundRooms(Get(x, "nombre_pieces_principales")) == Ok(Get(y, "nombre_pieces_principales"))
  }

  /** Lines 96-135 on the table after the eight steps: each finished count is a rounded count of that table. */
  lemma RoomsRoundedThrough(e: Frame)
    requires Finish(e).Ok? && "nombre_pieces_principales" in e.columns
    ensures forall y :: y in Finish(e).value.rows ==> RoomsRoundedFrom(y, e)
  {
    RoomStageClasses(e);
    RoomColumns(e);
    FinishTraceRooms(e, RoomCols());
    TransferRounded(Finish(e).value, RoomStage(e).value, e);
  }

  /** Rows matching, on the room columns, the rows of a table whose counts are the rounded counts of `e`, row by row. */
  lemma TransferRounded(g: Frame, b: Frame, e: Frame)
    requires Descends(g, b, RoomCols()) && |b.rows| == |e.rows|
    requires forall i :: 0 <= i < |e.rows| ==>
               RoundRooms(Get(e.rows[i], "nombre_pieces_principales")) == Ok(Get(b.rows[i], "nombre_pieces_principales"))
    ensures forall y :: y in g.rows ==> RoomsRoundedFrom(y, e)
  {
    forall y | y in g.rows ensures RoomsRoundedFrom(y, e) {
      var z :| z in b.rows && Agree(y, z, RoomCols());
      var i :| 0 <= i < |b.rows| && b.rows[i] == z;
      assert Get(y, "nombre_pieces_principales") == Get(z, "nombre_pieces_principales");
      assert e.rows[i] in e.rows;
    }
  }

  lemma RoomsRoundedFinished(d: Frame, q: Quantile)
    requires Finish(StagesOf(d, q).dated).Ok? && "nombre_pieces_principales" in d.columns
    ensures forall y :: y in Finish(StagesOf(d, q).dated).value.rows ==> RoomsRoundedFrom(y, Refine(d, q))
  {
    var t := StagesOf(d, q);
    StagesGrow(d, q, 8);
    AtFields(t);
    RoomsRoundedThrough(t.dated);
  }

  /**
   * With a room-count column every count is missing or a 16-bit integer and
   * its class follows it (lines 96-104), and it is the rounded count of a row
   * of the table the classes are computed on (line 97).
   */
  lemma CleanRooms(raw: Frame, q: Quantile)
    requires Clean(raw, q).Ok? && "nombre_pieces_principales" in raw.columns
    ensures Deduplicated(raw).Ok?
    ensures forall y :: y in Clean(raw, q).value.rows ==> RoomsClassed(y)
    ensures forall y :: y in Clean(raw, q).value.rows ==> RoomsRoundedFrom(y, Refine(Deduplicated(raw).value, q))
  {
    var d := CleanStages(raw, q);
    RoomsFinished(d, q);
    RoomsRoundedFinished(d, q);
  }

  lemma SurfacesFinished(d: Frame, q: Quantile)
    requires Finish(StagesOf(d, q).dated).Ok? && "surface_reelle_bati" in d.columns
    ensures forall y :: y in Finish(StagesOf(d, q).dated).value.rows ==> SurfaceClassed(y)
  {
    var t := StagesOf(d, q);
    StagesGrow(d, q, 8);
    AtFields(t);
    SurfacesFromClasses(t.dated);
  }

  /** With an area column the area class follows the area (lines 106-113). */
  lemma CleanSurfaces(raw: Frame, q: Quantile)
    requires Clean(raw, q).Ok? && "surface_reelle_bati" in raw.columns
    ensures forall y :: y in Clean(raw, q).value.rows ==> SurfaceClassed(y)
  {
    var d := CleanStages(raw, q);
    SurfacesFinished(d, q);
  }

  // ---------- the columns each guarantee needs, and carrying it along matching rows ----------

  lemma ParisColumns(f: Frame)
    requires "code_postal" in f.columns
    ensures forall c :: c in ParisCols() ==> c in PostalStage(f).columns
  {
  }

  lemma RatioColumns(f: Frame)
    requires "valeur_fonciere" in f.columns && "surface_reelle_bati" in f.columns
    ensures forall c :: c in RatioCols() ==> c in PriceStage(f).columns
  {
  }

  lemma AreaColumns(f: Frame)
    requires "surface_reelle_bati" in f.columns
    ensures forall c :: c in AreaCols() ==> c in f.columns
  {
  }

  lemma PriceColumns(f: Frame)
    requires "prix_m2" in f.columns
    ensures forall c :: c in PriceCols() ==> c in f.columns
  {
  }

  lemma PeriodColumns(f: Frame)
    requires "date_mutation" in f.columns
    ensures forall c :: c in PeriodCols() ==> c in Temporal(f).columns
  {
  }

  lemma PriceAddsColumn(f: Frame)
    ensures "valeur_fonciere" in f.columns && "surface_reelle_bati" in f.columns ==> "prix_m2" in PriceStage(f).columns
  {
  }

  /** The room columns are in the classed table, kept by the projection, and not rewritten by the area class. */
  lemma RoomColumns(f: Frame)
    requires RoomStage(f).Ok? && "nombre_pieces_principales" in f.columns
    ensures "classe_surface_m2" !in RoomCols()
    ensures forall c :: c in RoomCols() ==> c in FinalColumns() && c in RoomStage(f).value.columns
  {
  }

  lemma SurfaceColumns(f: Frame)
    requires "surface_reelle_bati" in f.columns
    ensures forall c :: c in SurfaceCols() ==> c in FinalColumns() && c in SurfaceStage(f).columns
  {
  }

  /** The 99.9% quantile of the areas left by the 9 m² floor (lines 78-79), if it exists. */
  function AreaCap(f: Frame, q: Quantile): Option<real> {
    q(Column(Where(f, LargeEnough), "surface_reelle_bati"), 0.999)
  }

  /** The area of a row is at least 9 m² and at most the cap, when there is one. */
  predicate AreaWithin(r: Row, cap: Option<real>) {
    LargeEnough(r) && (cap.Some? ==> AtMost(Get(r, "surface_reelle_bati"), cap.value))
  }

  lemma AreaCensorWithin(f: Frame, q: Quantile)
    requires "surface_reelle_bati" in f.columns
    ensures forall y :: y in AreaCensor(f, q).rows ==> AreaWithin(y, AreaCap(f, q))
  {
    AreaCensorBounds(f, q);
  }

  /** The price per square metre of a row is a number between `lo` and `hi`. */
  predicate PriceWithin(r: Row, lo: real, hi: real) {
    Get(r, "prix_m2").Num? && lo <= Get(r, "prix_m2").x <= hi
  }

  lemma PriceBandWithin(f: Frame, q: Quantile)
    requires "prix_m2" in f.columns
    ensures forall y :: y in PriceBand(f, q).rows ==> PriceWithin(y, BandLow(f, q), BandHigh(f, q))
  {
    PriceBandBounds(f, q);
  }

  lemma WithinPlausible(rows: seq<Row>, lo: real, hi: real)
    requires MinPlausible <= lo && hi <= MaxPlausible
    requires forall y :: y in rows ==> PriceWithin(y, lo, hi)
    ensures forall y :: y in rows ==> PricePlausible(y)
  {
  }

  /** The price per square metre of a row is its price divided by its area. */
  predicate PriceIsRatio(r: Row) {
    Get(r, "prix_m2") == Divide(Get(r, "valeur_fonciere"), Get(r, "surface_reelle_bati"))
  }

  /** The price per square metre of a row is a number between the plausibility bounds. */
  predicate PricePlausible(r: Row) {
    Get(r, "prix_m2").Num? && MinPlausible <= Get(r, "prix_m2").x <= MaxPlausible
  }

  /** The year and quarter of a row are those of its transaction date. */
  predicate PeriodsOfDate(r: Row) {
    Get(r, "annee") == YearOf(Get(r, "date_mutation")) && Get(r, "trimestre") == QuarterLabel(Get(r, "date_mutation"))
  }

  /** The area class of a row is its area's. */
  predicate SurfaceClassed(r: Row) {
    Get(r, "classe_surface_m2") == SurfaceClass(Get(r, "surface_reelle_bati"), true)
  }

  lemma TransferParis(g: Frame, f: Frame)
    requires Descends(g, f, ParisCols()) && forall x :: x in f.rows ==> ParisPostal(x)
    ensures forall y :: y in g.rows ==> ParisPostal(y)
  {
    forall y | y in g.rows ensures ParisPostal(y) {
      var x :| x in f.rows && Agree(y, x, ParisCols());
      assert Get(y, "code_postal") == Get(x, "code_postal");
      assert Get(y, "arrondissement") == Get(x, "arrondissement");
    }
  }

  lemma TransferPriceRatio(g: Frame, f: Frame)
    requires Descends(g, f, RatioCols()) && forall x :: x in f.rows ==> PriceIsRatio(x)
    ensures forall y :: y in g.rows ==> PriceIsRatio(y)
  {
    forall y | y in g.rows ensures PriceIsRatio(y) {
      var x :| x in f.rows && Agree(y, x, RatioCols());
      assert Get(y, "prix_m2") == Get(x, "prix_m2");
      assert Get(y, "valeur_fonciere") == Get(x, "valeur_fonciere");
      assert Get(y, "surface_reelle_bati") == Get(x, "surface_reelle_bati");
    }
  }

  lemma TransferAreaWithin(g: Frame, f: Frame, cap: Option<real>)
    requires Descends(g, f, AreaCols()) && forall x :: x in f.rows ==> AreaWithin(x, cap)
    ensures forall y :: y in g.rows ==> AreaWithin(y, cap)
  {
    forall y | y in g.rows ensures AreaWithin(y, cap) {
      var x :| x in f.rows && Agree(y, x, AreaCols());
      assert Get(y, "surface_reelle_bati") == Get(x, "surface_reelle_bati");
    }
  }

  lemma TransferPriceWithin(g: Frame, f: Frame, lo: real, hi: real)
    requires Descends(g, f, PriceCols()) && forall x :: x in f.rows ==> PriceWithin(x, lo, hi)
    ensures forall y :: y in g.rows ==> PriceWithin(y, lo, hi)
  {
    forall y | y in g.rows ensures PriceWithin(y, lo, hi) {
      var x :| x in f.rows && Agree(y, x, PriceCols());
      assert Get(y, "prix_m2") == Get(x, "prix_m2");
    }
  }

  lemma TransferPeriods(g: Frame, f: Frame)
    requires Descends(g, f, PeriodCols()) && forall x :: x in f.rows ==> PeriodsOfDate(x)
    ensures forall y :: y in g.rows ==> PeriodsOfDate(y)
  {
    forall y | y in g.rows ensures PeriodsOfDate(y) {
      var x :| x in f.rows && Agree(y, x, PeriodCols());
      assert Get(y, "annee") == Get(x, "annee");
      assert Get(y, "trimestre") == Get(x, "trimestre");
      assert Get(y, "date_mutation") == Get(x, "date_mutation");
    }
  }

  lemma TransferRooms(g: Frame, f: Frame)
    requires Descends(g, f, RoomCols()) && forall x :: x in f.rows ==> RoomsClassed(x)
    ensures forall y :: y in g.rows ==> RoomsClassed(y)
  {
    forall y | y in g.rows ensures RoomsClassed(y) {
      var x :| x in f.rows && Agree(y, x, RoomCols());
      assert Get(y, "nombre_pieces_principales") == Get(x, "nombre_pieces_principales");
      assert Get(y, "classe_pieces") == Get(x, "classe_pieces");
    }
  }

  lemma TransferSurfaces(g: Frame, f: Frame)
    requires Descends(g, f, SurfaceCols()) && forall x :: x in f.rows ==> SurfaceClassed(x)
    ensures forall y :: y in g.rows ==> SurfaceClassed(y)
  {
    forall y | y in g.rows ensures SurfaceClassed(y) {
      var x :| x in f.rows && Agree(y, x, SurfaceCols());
      assert Get(y, "classe_surface_m2") == Get(x, "classe_surface_m2");
      assert Get(y, "surface_reelle_bati") == Get(x, "surface_reelle_bati");
    }
  }

  /** Lines 96-135 on the table after the eight steps: the room classes reach the finished table. */
  lemma RoomsFromClasses(e: Frame)
    requires Finish(e).Ok? && "nombre_pieces_principales" in e.columns
    ensures forall y :: y in Finish(e).value.rows ==> RoomsClassed(y)
  {
    RoomStageClasses(e);
    RoomColumns(e);
    FinishTraceRooms(e, RoomCols());
    TransferRooms(Finish(e).value, RoomStage(e).value);
  }

  /** The same for the area classes. */
  lemma SurfacesFromClasses(e: Frame)
    requires Finish(e).Ok? && "surface_reelle_bati" in e.columns
    ensures forall y :: y in Finish(e).value.rows ==> SurfaceClassed(y)
  {
    var b := RoomStage(e).value;
    RoomStageDescends(e, {});
    SurfaceStageClasses(b);
    SurfaceColumns(b);
    FinishDescends(SurfaceStage(b), SurfaceCols());
    TransferSurfaces(Finish(e).value, SurfaceStage(b));
  }
}
