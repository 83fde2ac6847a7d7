/**
 * `load_data` of utils/io.py: the artifact cache (a table snapshot plus a
 * metadata document holding the directory signature), its fast path, the
 * rebuild from every matching file, and the best-effort write-back.
 */
module Loader {
  import opened Wrappers
  import opened Strings
  import opened Sorting
  import opened Frames
  import opened Json
  import opened Signature
  import opened Ingest

  /** A matching file: what `stat` reports and what reading it yields. */
  datatype DirEntry = DirEntry(stat: FileStat, file: CsvFile)

  /** The snapshot file as `read_parquet` sees it. */
  datatype Snapshot = Unreadable | Table(table: Frame)

  /** The metadata file: unparsable, or the document it holds, repeated keys included. */
  datatype MetaFile = Garbled | Document(doc: Json)

  datatype LoadError = NoFiles | ReadFailed(cause: ReadError)

  function StatOf(e: DirEntry): FileStat { e.stat }

  predicate EntryLe(a: DirEntry, b: DirEntry) { LexLe(a.stat.name, b.stat.name) }

  /** `old_meta.get("signature", {})`, for a document that is an object. */
  function StoredSignature(ms: seq<(string, Json)>): Json {
    match Lookup(ms, "signature")
    case Some(v) => v
    case None => JObj([])
  }

  /**
   * Lines 141-154: the cached table, when the cache is enabled and not
   * bypassed, both artifacts exist, the metadata parses as an object whose
   * signature matches the current one, and the snapshot reads.
   */
  function CachedTable(useCache: bool, force: bool, snapshot: Option<Snapshot>, meta: Option<MetaFile>, current: Json): (r: Option<Frame>)
    ensures r.Some? ==> useCache && !force && snapshot == Some(Table(r.value))
    ensures r.Some? ==> meta.Some? && meta.value.Document? && meta.value.doc.JObj?
                        && SameSignature(StoredSignature(meta.value.doc.members), current)
  {
    if useCache && !force && snapshot.Some? && meta.Some? then
      match meta.value
      case Document(JObj(ms)) =>
        if SameSignature(StoredSignature(ms), current) && snapshot.value.Table? then Some(snapshot.value.table) else None
      case _ => None
    else None
  }

  /** The tables of the files in order, or the error of the first one that fails. */
  function ReadAll(files: seq<DirEntry>, parseDate: string -> Option<Date>): Result<seq<Frame>, ReadError> {
    if files == [] then Ok([])
    else
      match ReadAll(files[..|files| - 1], parseDate)
      case Err(e) => Err(e)
      case Ok(ds) =>
        match CsvTable(files[|files| - 1].file, parseDate)
        case Err(e) => Err(e)
        case Ok(d) => Ok(ds + [d])
  }

  /** A successful read holds, position by position, the table of each file. */
  lemma {:induction false} ReadAllTables(files: seq<DirEntry>, parseDate: string -> Option<Date>)
    requires ReadAll(files, parseDate).Ok?
    ensures |ReadAll(files, parseDate).value| == |files|
    ensures forall i :: 0 <= i < |files| ==> CsvTable(files[i].file, parseDate) == Ok(ReadAll(files, parseDate).value[i])
  {
    if files != [] {
      var init := files[..|files| - 1];
      ReadAllTables(init, parseDate);
      forall i | 0 <= i < |files| - 1 ensures CsvTable(files[i].file, parseDate) == Ok(ReadAll(files, parseDate).value[i]) {
        assert init[i] == files[i];
      }
    }
  }

  lemma {:induction false} ReadAllFailure(files: seq<DirEntry>, k: nat, parseDate: string -> Option<Date>)
    requires k <= |files| && ReadAll(files[..k], parseDate).Err?
    ensures ReadAll(files, parseDate) == ReadAll(files[..k], parseDate)
    decreases |files| - k
  {
    if k < |files| {
      assert files[..k + 1][..k] == files[..k];
      ReadAllFailure(files, k + 1, parseDate);
    } else {
      assert files[..k] == files;
    }
  }

  /** The labels of `cols` followed by those of `more` not already present, in order of first appearance. */
  function AddColumns(cols: seq<string>, more: seq<string>): (r: seq<string>)
    ensures |r| >= |cols| && r[..|cols|] == cols
    ensures forall c :: c in r <==> c in cols || c in more
    ensures Distinct(cols) ==> Distinct(r)
    decreases |more|
  {
    if more == [] then cols
    else
      var next := if more[0] in cols then cols else cols + [more[0]];
      assert forall c :: c in more <==> c == more[0] || c in more[1..];
      assert Distinct(cols) ==> Distinct(next) by {
        if Distinct(cols) && more[0] !in cols {
          forall i, j | 0 <= i < j < |next| ensures next[i] != next[j] {
            if j == |cols| {
              assert next[i] in cols;
            }
          }
        }
      }
      var r := AddColumns(next, more[1..]);
      assert r[..|cols|] == r[..|next|][..|cols|];
      r
  }

  /** The column labels of `pd.concat(..., sort=False)`: the union, in order of first appearance. */
  function ConcatColumns(ds: seq<Frame>): (r: seq<string>)
    ensures Distinct(r)
    ensures forall c :: c in r <==> exists i :: 0 <= i < |ds| && c in ds[i].columns
  {
    if ds == [] then []
    else
      var prev := ConcatColumns(ds[..|ds| - 1]);
      var r := AddColumns(prev, ds[|ds| - 1].columns);
      assert forall c :: c in r <==> exists i :: 0 <= i < |ds| && c in ds[i].columns by {
        forall c | c in r ensures exists i :: 0 <= i < |ds| && c in ds[i].columns {
          if c !in ds[|ds| - 1].columns {
            var i :| 0 <= i < |ds| - 1 && c in ds[..|ds| - 1][i].columns;
          }
        }
        forall c, i | 0 <= i < |ds| && c in ds[i].columns ensures c in r {
          if i < |ds| - 1 {
            assert c in ds[..|ds| - 1][i].columns;
          }
        }
      }
      r
  }

  /** Each further table only appends labels: the labels of the first `k` tables stay a prefix, in their order. */
  lemma {:induction false} ConcatColumnsPrefix(ds: seq<Frame>, k: nat)
    requires k <= |ds|
    ensures var p := ConcatColumns(ds[..k]);
            |p| <= |ConcatColumns(ds)| && ConcatColumns(ds)[..|p|] == p
    decreases |ds|
  {
    if k < |ds| {
      var init := ds[..|ds| - 1];
      assert ds[..k] == init[..k];
      ConcatColumnsPrefix(init, k);
      assert ConcatColumns(ds) == AddColumns(ConcatColumns(init), ds[|ds| - 1].columns);
    } else {
      assert ds[..k] == ds;
    }
  }

  /** All rows, frame after frame; a cell a frame lacks reads as missing. */
  function ConcatRows(ds: seq<Frame>): (r: seq<Row>)
    ensures |ds| > 0 ==> r == ConcatRows(ds[..|ds| - 1]) + ds[|ds| - 1].rows
  {
    if ds == [] then [] else ConcatRows(ds[..|ds| - 1]) + ds[|ds| - 1].rows
  }

  /** `pd.concat(dfs, ignore_index=True, sort=False)`. */
  function Concat(ds: seq<Frame>): Frame {
    Frame(ConcatColumns(ds), ConcatRows(ds))
  }

  /** The labels moved to the front, in this order, when present (lines 165-169). */
  function Preferred(): seq<string> {
    ["annee", "date_mutation", "nature_mutation", "valeur_fonciere",
     "type_local", "nombre_pieces_principales", "surface_reelle_bati",
     "adresse_nom_voie", "code_postal", "nom_commune", "longitude", "latitude"]
  }

  /** Line 170: the labels of `pref` present first, in that order, then the others in their order. */
  function ReorderBy(pref: seq<string>, cols: seq<string>): (r: seq<string>)
    ensures forall c :: c in r <==> c in cols
  {
    KeepIf(pref, cols, true) + KeepIf(cols, pref, false)
  }

  function Reorder(cols: seq<string>): seq<string> {
    ReorderBy(Preferred(), cols)
  }

  lemma DistinctDisjointConcat(a: seq<string>, b: seq<string>)
    requires Distinct(a) && Distinct(b) && forall c :: c in a ==> c !in b
    ensures Distinct(a + b)
  {
    var r := a + b;
    forall i, j | 0 <= i < j < |r| ensures r[i] != r[j] {
      if j < |a| {
        assert r[i] == a[i] && r[j] == a[j];
      } else if i >= |a| {
        assert r[i] == b[i - |a|] && r[j] == b[j - |a|];
      } else {
        assert r[i] in a && r[j] == b[j - |a|];
      }
    }
  }

  /** The reordering is a permutation of the labels. */
  lemma ReorderPermutes(pref: seq<string>, cols: seq<string>)
    requires Distinct(pref) && Distinct(cols)
    ensures Distinct(ReorderBy(pref, cols)) && multiset(ReorderBy(pref, cols)) == multiset(cols)
  {
    var a, b := KeepIf(pref, cols, true), KeepIf(cols, pref, false);
    DistinctDisjointConcat(a, b);
    DistinctSameElements(ReorderBy(pref, cols), cols);
  }

  /** Every present preferred label comes before every other label. */
  lemma ReorderPreferredFirst(pref: seq<string>, cols: seq<string>, i: nat, j: nat)
    requires i < |ReorderBy(pref, cols)| && j < |ReorderBy(pref, cols)|
    requires ReorderBy(pref, cols)[i] in pref && ReorderBy(pref, cols)[j] !in pref
    ensures i < j
  {
    var a, b := KeepIf(pref, cols, true), KeepIf(cols, pref, false);
    var r := ReorderBy(pref, cols);
    assert forall k :: 0 <= k < |a| ==> r[k] == a[k] && r[k] in pref;
    assert forall k :: |a| <= k < |r| ==> r[k] == b[k - |a|] && r[k] !in pref;
  }

  /** Two groups, preferred labels then the others, each in its own order. */
  lemma GroupsPairOrder(a: seq<string>, b: seq<string>, pref: seq<string>, cols: seq<string>, i: nat, j: nat)
    requires InOrderOf(a, pref) && InOrderOf(b, cols)
    requires forall k :: 0 <= k < |a| ==> a[k] in pref
    requires forall k :: 0 <= k < |b| ==> b[k] !in pref
    requires i < j < |a + b|
    ensures var r := a + b;
            && (r[i] in pref && r[j] in pref ==> Pos(pref, r[i]) < Pos(pref, r[j]))
            && (r[i] !in pref && r[j] !in pref ==> Pos(cols, r[i]) < Pos(cols, r[j]))
  {
    var r := a + b;
    if j < |a| {
      assert r[i] == a[i] && r[j] == a[j];
    } else if i >= |a| {
      assert r[i] == b[i - |a|] && r[j] == b[j - |a|];
    } else {
      assert r[i] == a[i] && r[j] == b[j - |a|];
    }
  }

  /** The present preferred labels keep the preferred order, and the other labels keep their original order. */
  lemma ReorderKeepsOrder(pref: seq<string>, cols: seq<string>)
    requires Distinct(pref) && Distinct(cols)
    ensures var r := ReorderBy(pref, cols);
            forall i, j :: 0 <= i < j < |r| ==>
              && (r[i] in pref && r[j] in pref ==> Pos(pref, r[i]) < Pos(pref, r[j]))
              && (r[i] !in pref && r[j] !in pref ==> Pos(cols, r[i]) < Pos(cols, r[j]))
  {
    var a, b := KeepIf(pref, cols, true), KeepIf(cols, pref, false);
    KeepIfOrder(pref, cols, true);
    KeepIfOrder(cols, pref, false);
    assert forall k :: 0 <= k < |a| ==> a[k] in pref;
    assert forall k :: 0 <= k < |b| ==> b[k] !in pref;
    var r := ReorderBy(pref, cols);
    assert r == a + b;
    forall i, j | 0 <= i < j < |r|
      ensures r[i] in pref && r[j] in pref ==> Pos(pref, r[i]) < Pos(pref, r[j])
      ensures r[i] !in pref && r[j] !in pref ==> Pos(cols, r[i]) < Pos(cols, r[j])
    {
      GroupsPairOrder(a, b, pref, cols, i, j);
    }
  }

  lemma PreferredDistinct()
    ensures Distinct(Preferred())
  {
  }

  /** The metadata document of lines 177-181. */
  function MetaDoc(now: int, sig: DirSig, parquetPath: string): Json {
    JObj([("created_at", JInt(now)), ("signature", SigJson(sig)), ("parquet_path", JStr(parquetPath))])
  }

  /** `_dir_signature` of the directory's matching files. */
  function CurrentSignature(listing: seq<DirEntry>, pattern: string): DirSig {
    DirSignature(MapSeq(listing, StatOf), pattern)
  }

  /** The metadata file as `json.dump(..., sort_keys=True)` leaves it for the next `json.load`. */
  function WrittenMeta(now: int, sig: DirSig, parquetPath: string): MetaFile {
    Document(Canon(MetaDoc(now, sig, parquetPath)))
  }

  /** Lines 156-171: the table rebuilt from the files. */
  function Rebuild(listing: seq<DirEntry>, parseDate: string -> Option<Date>): (r: Result<Frame, LoadError>)
    ensures r == Err(NoFiles) <==> listing == []
  {
    var files := Sort(listing, EntryLe);
    SortPermutesLength(listing);
    if files == [] then Err(NoFiles)
    else match ReadAll(files, parseDate)
      case Err(e) => Err(ReadFailed(e))
      case Ok(ds) =>
        var raw := Concat(ds);
        Ok(Select(raw, Reorder(raw.columns)))
  }

  lemma SortPermutesLength(listing: seq<DirEntry>)
    ensures |Sort(listing, EntryLe)| == |listing|
  {
    SortLength(listing, EntryLe);
  }

  lemma {:induction false} SortLength<T>(s: seq<T>, le: (T, T) -> bool)
    ensures |Sort(s, le)| == |s|
  {
    if s != [] {
      SortLength(s[1..], le);
      InsertLength(s[0], Sort(s[1..], le), le);
    }
  }

  lemma {:induction false} InsertLength<T>(x: T, s: seq<T>, le: (T, T) -> bool)
    ensures |Insert(x, s, le)| == |s| + 1
  {
    if s != [] && !le(x, s[0]) {
      InsertLength(x, s[1..], le);
    }
  }

  /** What `load_data` returns for a directory and the cache as it stands. */
  function Loaded(listing: seq<DirEntry>, pattern: string, useCache: bool, force: bool,
                  snapshot: Option<Snapshot>, meta: Option<MetaFile>, parseDate: string -> Option<Date>): Result<Frame, LoadError> {
    var current := SigJson(CurrentSignature(listing, pattern));
    match CachedTable(useCache, force, snapshot, meta, current)
    case Some(t) => Ok(t)
    case None => Rebuild(listing, parseDate)
  }

  /**
   * The cache directory's two artifacts, and whether writing each would
   * succeed (a failed write raises inside the guarded block and is ignored).
   */
  class ArtifactCache {
    var snapshot: Option<Snapshot>
    var meta: Option<MetaFile>
    var snapshotWritable: bool
    var metaWritable: bool

    constructor(snapshot: Option<Snapshot>, meta: Option<MetaFile>, snapshotWritable: bool, metaWritable: bool)
      ensures this.snapshot == snapshot && this.meta == meta
      ensures this.snapshotWritable == snapshotWritable && this.metaWritable == metaWritable
    {
      this.snapshot := snapshot;
      this.meta := meta;
      this.snapshotWritable := snapshotWritable;
      this.metaWritable := metaWritable;
    }

    /** `load_data`. */
    method LoadData(listing: seq<DirEntry>, pattern: string, useCache: bool, force: bool, now: int,
                    parquetPath: string, parseDate: string -> Option<Date>) returns (r: Result<Frame, LoadError>)
      modifies this
      ensures r == Loaded(listing, pattern, useCache, force, old(snapshot), old(meta), parseDate)
      ensures snapshotWritable == old(snapshotWritable) && metaWritable == old(metaWritable)
      ensures var rebuilt := r.Ok? && CachedTable(useCache, force, old(snapshot), old(meta),
                                                  SigJson(CurrentSignature(listing, pattern))).None?;
              var wrote := rebuilt && useCache && snapshotWritable;
              && snapshot == (if wrote then Some(Table(r.value)) else old(snapshot))
              && meta == (if wrote && metaWritable then Some(WrittenMeta(now, CurrentSignature(listing, pattern), parquetPath))
                          else old(meta))
    {
      var sig := CurrentSignature(listing, pattern);
      var cached := CachedTable(useCache, force, snapshot, meta, SigJson(sig));
      if cached.Some? {
        return Ok(cached.value);
      }
      r := RebuildTable(listing, parseDate);
      if r.Err? {
        return r;
      }
      WriteCache(r.value, sig, useCache, now, parquetPath);
    }

    /**
     * Lines 173-186: with the cache enabled, write the snapshot and then the
     * metadata; a write that fails leaves that artifact, and the ones after
     * it, as they were.
     */
    method WriteCache(raw: Frame, sig: DirSig, useCache: bool, now: int, parquetPath: string)
      modifies this
      ensures snapshotWritable == old(snapshotWritable) && metaWritable == old(metaWritable)
      ensures var wrote := useCache && snapshotWritable;
              && snapshot == (if wrote then Some(Table(raw)) else old(snapshot))
              && meta == (if wrote && metaWritable then Some(WrittenMeta(now, sig, parquetPath)) else old(meta))
    {
      if useCache && snapshotWritable {
        snapshot := Some(Table(raw));
        if metaWritable {
          meta := Some(WrittenMeta(now, sig, parquetPath));
        }
      }
    }
  }

  method RebuildTable(listing: seq<DirEntry>, parseDate: string -> Option<Date>) returns (r: Result<Frame, LoadError>)
    ensures r == Rebuild(listing, parseDate)
  {
    var files := Sort(listing, EntryLe);
    SortPermutesLength(listing);
    if files == [] {
      return Err(NoFiles);
    }
    var dfs: seq<Frame> := [];
    for k := 0 to |files|
      invariant ReadAll(files[..k], parseDate) == Ok(dfs)
    {
      var d := ReadOneCsv(files[k].file, parseDate);
      ReadAllStep(files, k, parseDate);
      if d.Err? {
        ReadAllFailure(files, k + 1, parseDate);
        RebuildFails(listing, parseDate);
        return Err(ReadFailed(d.error));
      }
      dfs := dfs + [d.value];
    }
    assert files[..|files|] == files;
    RebuildSucceeds(listing, parseDate, dfs);
    var raw := Concat(dfs);
    r := Ok(Select(raw, Reorder(raw.columns)));
  }

  lemma ReadAllStep(files: seq<DirEntry>, k: nat, parseDate: string -> Option<Date>)
    requires k < |files|
    ensures ReadAll(files[..k + 1], parseDate) ==
              match ReadAll(files[..k], parseDate)
              case Err(e) => Err(e)
              case Ok(ds) => (match CsvTable(files[k].file, parseDate) case Err(e) => Err(e) case Ok(d) => Ok(ds + [d]))
  {
    assert files[..k + 1][..k] == files[..k];
  }

  lemma RebuildFails(listing: seq<DirEntry>, parseDate: string -> Option<Date>)
    requires Sort(listing, EntryLe) != [] && ReadAll(Sort(listing, EntryLe), parseDate).Err?
    ensures Rebuild(listing, parseDate) == Err(ReadFailed(ReadAll(Sort(listing, EntryLe), parseDate).error))
  {
  }

  lemma RebuildSucceeds(listing: seq<DirEntry>, parseDate: string -> Option<Date>, ds: seq<Frame>)
    requires Sort(listing, EntryLe) != [] && ReadAll(Sort(listing, EntryLe), parseDate) == Ok(ds)
    ensures Rebuild(listing, parseDate) == Ok(Select(Concat(ds), Reorder(Concat(ds).columns)))
  {
  }

  // Properties of the cache.

  /** The signature read back from written metadata is the canonical form of the one written. */
  lemma WrittenSignature(now: int, sig: DirSig, parquetPath: string)
    ensures Canon(MetaDoc(now, sig, parquetPath)).JObj?
    ensures StoredSignature(Canon(MetaDoc(now, sig, parquetPath)).members) == Canon(SigJson(sig))
  {
    var ms := MetaDoc(now, sig, parquetPath).members;
    assert DistinctKeys(ms);
    CanonLookup(ms, "signature");
    LookupFinds(ms, "signature", SigJson(sig));
  }

  /**
   * Round trip: once a rebuilt table and its metadata are written, loading
   * the same directory again takes the fast path and returns that table.
   */
  lemma CacheRoundTrip(listing: seq<DirEntry>, pattern: string, now: int, parquetPath: string, t: Frame,
                       parseDate: string -> Option<Date>)
    ensures var sig := CurrentSignature(listing, pattern);
            Loaded(listing, pattern, true, false, Some(Table(t)), Some(WrittenMeta(now, sig, parquetPath)), parseDate) == Ok(t)
  {
    var sig := CurrentSignature(listing, pattern);
    WrittenSignature(now, sig, parquetPath);
    CanonIdempotent(SigJson(sig));
  }

  /**
   * Invalidation: metadata written for one signature never serves a
   * directory whose signature differs.
   */
  lemma CacheInvalidated(sig: DirSig, current: DirSig, now: int, parquetPath: string, snapshot: Option<Snapshot>, useCache: bool, force: bool)
    requires sig != current
    ensures CachedTable(useCache, force, snapshot, Some(WrittenMeta(now, sig, parquetPath)), SigJson(current)).None?
  {
    WrittenSignature(now, sig, parquetPath);
    CanonIdempotent(SigJson(sig));
    SameSignatureExact(sig, current);
  }

  /** The reordered concatenation has each table's labels exactly once and every row of every table, with the same cells. */
  lemma ConcatShape(ds: seq<Frame>)
    ensures var t := Select(Concat(ds), Reorder(Concat(ds).columns));
            && Distinct(t.columns)
            && (forall c :: c in t.columns <==> exists i :: 0 <= i < |ds| && c in ds[i].columns)
            && |t.rows| == |ConcatRows(ds)|
            && forall i, c :: 0 <= i < |t.rows| && c in t.columns ==> Get(t.rows[i], c) == Get(ConcatRows(ds)[i], c)
  {
    PreferredDistinct();
    ReorderPermutes(Preferred(), Concat(ds).columns);
  }

  /** A rebuilt table has each file's labels exactly once, preferred ones first, and every row of every file. */
  lemma RebuildShape(listing: seq<DirEntry>, parseDate: string -> Option<Date>)
    requires Rebuild(listing, parseDate).Ok?
    ensures var t := Rebuild(listing, parseDate).value;
            var ds := ReadAll(Sort(listing, EntryLe), parseDate).value;
            && Distinct(t.columns)
            && (forall c :: c in t.columns <==> exists i :: 0 <= i < |ds| && c in ds[i].columns)
            && |t.rows| == |ConcatRows(ds)|
            && forall i, c :: 0 <= i < |t.rows| && c in t.columns ==> Get(t.rows[i], c) == Get(ConcatRows(ds)[i], c)
  {
    var files := Sort(listing, EntryLe);
    SortPermutesLength(listing);
    assert files != [] && ReadAll(files, parseDate).Ok?;
    var ds := ReadAll(files, parseDate).value;
    RebuildSucceeds(listing, parseDate, ds);
    ConcatShape(ds);
  }
}
