/**
 * Directory signature of utils/io.py: a fingerprint made of the names, byte
 * sizes and whole-second modification times of the files matching the
 * source pattern, compared through its canonical JSON form.
 */
module Signature {
  import opened Wrappers
  import opened Strings
  import opened Sorting
  import opened Json

  /** What `stat` reports for one matching file; `mtime` is in fractional seconds. */
  datatype FileStat = FileStat(name: string, size: nat, mtime: real)

  /** One element of the signature's "files" list. */
  datatype Entry = Entry(name: string, size: nat, mtime: int)

  datatype DirSig = DirSig(pattern: string, files: seq<Entry>, count: nat, totalSize: nat)

  /** Python's `int()` on a float: truncation toward zero. */
  function Trunc(x: real): (n: int)
    ensures x >= 0.0 ==> n as real <= x < n as real + 1.0
    ensures x < 0.0 ==> n as real - 1.0 < x <= n as real
  {
    if x >= 0.0 then x.Floor else -((-x).Floor)
  }

  function ToEntry(f: FileStat): Entry {
    Entry(f.name, f.size, Trunc(f.mtime))
  }

  /** `sorted()` on paths of one directory compares their names. */
  predicate ByName(a: FileStat, b: FileStat) {
    LexLe(a.name, b.name)
  }

  predicate EntryByName(a: Entry, b: Entry) {
    LexLe(a.name, b.name)
  }

  lemma EntryByNameTotalPreorder()
    ensures TotalPreorder(EntryByName)
  {
    forall x: Entry, y: Entry ensures EntryByName(x, y) || EntryByName(y, x) {
      LexLeTotal(x.name, y.name);
    }
    forall x: Entry, y: Entry, z: Entry | EntryByName(x, y) && EntryByName(y, z)
      ensures EntryByName(x, z)
    {
      LexLeTransitive(x.name, y.name, z.name);
    }
  }

  function SumSizes(fs: seq<FileStat>): nat {
    if fs == [] then 0 else fs[0].size + SumSizes(fs[1..])
  }

  function EntrySizes(es: seq<Entry>): nat {
    if es == [] then 0 else es[0].size + EntrySizes(es[1..])
  }

  lemma {:induction false} SumSizesEntries(fs: seq<FileStat>)
    ensures SumSizes(fs) == EntrySizes(MapSeq(fs, ToEntry))
  {
    if fs != [] {
      SumSizesEntries(fs[1..]);
      assert MapSeq(fs, ToEntry)[1..] == MapSeq(fs[1..], ToEntry);
    }
  }

  /** `_dir_signature` over the files the pattern matched, listed in any order. */
  function DirSignature(listing: seq<FileStat>, pattern: string): (sig: DirSig)
    ensures sig.pattern == pattern
    ensures sig.count == |sig.files| == |listing|
    ensures sig.totalSize == EntrySizes(sig.files)
    ensures SortedBy(sig.files, EntryByName)
    ensures multiset(sig.files) == multiset(MapSeq(listing, ToEntry))
  {
    var files := Sort(listing, ByName);
    SortPermutes(listing, ByName);
    SumSizesEntries(files);
    SortMap(listing, ByName, ToEntry, EntryByName);
    SortPermutes(MapSeq(listing, ToEntry), EntryByName);
    EntryByNameTotalPreorder();
    SortSorted(MapSeq(listing, ToEntry), EntryByName);
    DirSig(pattern, MapSeq(files, ToEntry), |files|, SumSizes(files))
  }

  function EntryJson(e: Entry): Json {
    JObj([("name", JStr(e.name)), ("size", JInt(e.size)), ("mtime", JInt(e.mtime))])
  }

  /** The signature as the dict `_dir_signature` builds, keys in insertion order. */
  function SigJson(s: DirSig): Json {
    JObj([("pattern", JStr(s.pattern)), ("files", JArr(MapSeq(s.files, EntryJson))),
          ("count", JInt(s.count)), ("total_size", JInt(s.totalSize))])
  }

  /** `_same_signature`: equal `json.dumps(..., sort_keys=True)` texts. */
  predicate SameSignature(a: Json, b: Json) {
    Canon(a) == Canon(b)
  }

  lemma SameSignatureEquivalence(a: Json, b: Json, c: Json)
    ensures SameSignature(a, a)
    ensures SameSignature(a, b) == SameSignature(b, a)
    ensures SameSignature(a, b) && SameSignature(b, c) ==> SameSignature(a, c)
  {
  }

  /** Equal canonical objects give equal canonical values for every key. */
  lemma CanonMemberAgrees(ms1: seq<(string, Json)>, ms2: seq<(string, Json)>, k: string, v1: Json, v2: Json)
    requires DistinctKeys(ms1) && DistinctKeys(ms2)
    requires Canon(JObj(ms1)) == Canon(JObj(ms2))
    requires (k, v1) in ms1 && (k, v2) in ms2
    ensures Canon(v1) == Canon(v2)
  {
    LookupFinds(ms1, k, v1);
    LookupFinds(ms2, k, v2);
    CanonLookup(ms1, k);
    CanonLookup(ms2, k);
  }

  lemma EntryKeysDistinct(e: Entry)
    ensures DistinctKeys(EntryJson(e).members)
  {
  }

  /** Equal canonical objects agree, up to canonical form, on the value at a position where their keys agree. */
  lemma CanonMemberAt(ms1: seq<(string, Json)>, ms2: seq<(string, Json)>, i: nat)
    requires DistinctKeys(ms1) && DistinctKeys(ms2)
    requires Canon(JObj(ms1)) == Canon(JObj(ms2))
    requires i < |ms1| && i < |ms2| && ms1[i].0 == ms2[i].0
    ensures Canon(ms1[i].1) == Canon(ms2[i].1)
  {
    CanonMemberAgrees(ms1, ms2, ms1[i].0, ms1[i].1, ms2[i].1);
  }

  lemma EntryJsonInjective(e1: Entry, e2: Entry)
    requires Canon(EntryJson(e1)) == Canon(EntryJson(e2))
    ensures e1 == e2
  {
    var m1, m2 := EntryJson(e1).members, EntryJson(e2).members;
    EntryKeysDistinct(e1);
    EntryKeysDistinct(e2);
    CanonMemberAt(m1, m2, 0);
    CanonMemberAt(m1, m2, 1);
    CanonMemberAt(m1, m2, 2);
  }

  lemma FilesJsonInjective(f1: seq<Entry>, f2: seq<Entry>)
    requires Canon(JArr(MapSeq(f1, EntryJson))) == Canon(JArr(MapSeq(f2, EntryJson)))
    ensures f1 == f2
  {
    var a1, a2 := MapSeq(f1, EntryJson), MapSeq(f2, EntryJson);
    assert |f1| == |f2|;
    forall i | 0 <= i < |f1| ensures f1[i] == f2[i] {
      assert Canon(JArr(a1)).items[i] == Canon(JArr(a2)).items[i];
      EntryJsonInjective(f1[i], f2[i]);
    }
  }

  lemma SigKeysDistinct(s: DirSig)
    ensures DistinctKeys(SigJson(s).members)
  {
  }

  /** A signature is determined by its canonical form. */
  lemma SigJsonInjective(s1: DirSig, s2: DirSig)
    requires Canon(SigJson(s1)) == Canon(SigJson(s2))
    ensures s1 == s2
  {
    var m1, m2 := SigJson(s1).members, SigJson(s2).members;
    SigKeysDistinct(s1);
    SigKeysDistinct(s2);
    CanonMemberAt(m1, m2, 0);
    CanonMemberAt(m1, m2, 1);
    CanonMemberAt(m1, m2, 2);
    CanonMemberAt(m1, m2, 3);
    FilesJsonInjective(s1.files, s2.files);
  }

  /** Two signatures compare equal exactly when they are the same signature. */
  lemma SameSignatureExact(s1: DirSig, s2: DirSig)
    ensures SameSignature(SigJson(s1), SigJson(s2)) <==> s1 == s2
  {
    if SameSignature(SigJson(s1), SigJson(s2)) {
      SigJsonInjective(s1, s2);
    }
  }

  /** The signature depends on the listing only through each file's entry, whatever the listing order. */
  lemma {:induction false} SignatureOfEntries(l1: seq<FileStat>, l2: seq<FileStat>, pattern: string)
    requires MapSeq(l1, ToEntry) == MapSeq(l2, ToEntry)
    ensures DirSignature(l1, pattern) == DirSignature(l2, pattern)
  {
    SortMap(l1, ByName, ToEntry, EntryByName);
    SortMap(l2, ByName, ToEntry, EntryByName);
  }

  /**
   * The documented limitation: rewriting a file without changing its size or
   * the whole second of its modification time leaves the signature unchanged.
   */
  lemma SameSecondTouchUndetected(l: seq<FileStat>, i: nat, mtime: real, pattern: string)
    requires i < |l| && Trunc(mtime) == Trunc(l[i].mtime)
    ensures SameSignature(SigJson(DirSignature(l, pattern)),
                          SigJson(DirSignature(l[i := l[i].(mtime := mtime)], pattern)))
  {
    SignatureOfEntries(l, l[i := l[i].(mtime := mtime)], pattern);
  }

  /** Touching one file so that its whole-second modification time changes is detected. */
  lemma TouchDetected(l: seq<FileStat>, i: nat, mtime: real, pattern: string)
    requires i < |l| && Trunc(mtime) != Trunc(l[i].mtime)
    requires forall a, b :: 0 <= a < b < |l| ==> l[a].name != l[b].name
    ensures !SameSignature(SigJson(DirSignature(l, pattern)),
                           SigJson(DirSignature(l[i := l[i].(mtime := mtime)], pattern)))
  {
    var l2 := l[i := l[i].(mtime := mtime)];
    var e1 := ToEntry(l[i]);
    var m1, m2 := MapSeq(l, ToEntry), MapSeq(l2, ToEntry);
    assert e1 in multiset(m1) by { assert m1[i] == e1; }
    forall j | 0 <= j < |m2| ensures m2[j] != e1 {
      if j != i {
        assert m2[j].name == l[j].name != l[i].name;
      }
    }
    assert e1 !in multiset(m2);
    var s1, s2 := DirSignature(l, pattern), DirSignature(l2, pattern);
    assert multiset(s1.files) != multiset(s2.files);
    SameSignatureExact(s1, s2);
  }
}
