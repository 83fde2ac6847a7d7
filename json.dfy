/**
 * JSON documents as member lists (a top-level lookup takes the last member
 * with a key, as the dict `json.load` builds does), and the canonical form that
 * `json.dumps(..., sort_keys=True)` serialises: every object's members sorted
 * by key, recursively. Two documents dump to the same text exactly when their
 * canonical forms are equal.
 */
module Json {
  import opened Wrappers
  import opened Strings
  import opened Sorting

  datatype Json =
    | JNull
    | JBool(b: bool)
    | JInt(i: int)
    | JStr(s: string)
    | JArr(items: seq<Json>)
    | JObj(members: seq<(string, Json)>)

  function Keys(ms: seq<(string, Json)>): (ks: seq<string>)
    ensures |ks| == |ms| && forall i :: 0 <= i < |ms| ==> ks[i] == ms[i].0
  {
    seq(|ms|, i requires 0 <= i < |ms| => ms[i].0)
  }

  /** The members of a Python dict: no key occurs twice. */
  predicate DistinctKeys(ms: seq<(string, Json)>) {
    Distinct(Keys(ms))
  }

  predicate MemberLe(a: (string, Json), b: (string, Json)) {
    LexLe(a.0, b.0)
  }

  lemma MemberLeTotalPreorder()
    ensures TotalPreorder(MemberLe)
  {
    forall x: (string, Json), y: (string, Json) ensures MemberLe(x, y) || MemberLe(y, x) {
      LexLeTotal(x.0, y.0);
    }
    forall x: (string, Json), y: (string, Json), z: (string, Json) | MemberLe(x, y) && MemberLe(y, z)
      ensures MemberLe(x, z)
    {
      LexLeTransitive(x.0, y.0, z.0);
    }
  }

  /** The canonical form: members sorted by key at every level. */
  function Canon(j: Json): Json
    decreases j
  {
    match j
    case JArr(items) => JArr(seq(|items|, i requires 0 <= i < |items| => Canon(items[i])))
    case JObj(ms) => JObj(Sort(CanonValues(ms, j), MemberLe))
    case _ => j
  }

  /** The members with every value in canonical form, in their original order. */
  function CanonValues(ms: seq<(string, Json)>, ghost parent: Json): (r: seq<(string, Json)>)
    requires forall i :: 0 <= i < |ms| ==> ms[i].1 < parent
    ensures |r| == |ms| && forall i :: 0 <= i < |ms| ==> r[i] == (ms[i].0, Canon(ms[i].1))
    decreases parent, 0
  {
    seq(|ms|, i requires 0 <= i < |ms| => (ms[i].0, Canon(ms[i].1)))
  }

  /** `d[k]` for the dict `json.load` builds: the last member with that key wins. */
  function Lookup(ms: seq<(string, Json)>, k: string): Option<Json> {
    if ms == [] then None
    else if ms[|ms| - 1].0 == k then Some(ms[|ms| - 1].1)
    else Lookup(ms[..|ms| - 1], k)
  }

  lemma {:induction false} LookupFinds(ms: seq<(string, Json)>, k: string, v: Json)
    requires DistinctKeys(ms)
    ensures Lookup(ms, k) == Some(v) <==> (k, v) in ms
  {
    if ms != [] {
      var last := ms[|ms| - 1];
      var init := ms[..|ms| - 1];
      assert ms == init + [last];
      assert Keys(init) == Keys(ms)[..|ms| - 1];
      LookupFinds(init, k, v);
      if last.0 == k {
        forall p | p in init ensures p.0 != k {
          var i :| 0 <= i < |init| && init[i] == p;
          assert Keys(ms)[i] != Keys(ms)[|ms| - 1];
        }
      }
    }
  }

  lemma {:induction false} LookupAbsent(ms: seq<(string, Json)>, k: string)
    requires forall i :: 0 <= i < |ms| ==> ms[i].0 != k
    ensures Lookup(ms, k) == None
  {
    if ms != [] {
      LookupAbsent(ms[..|ms| - 1], k);
    }
  }

  lemma CanonValuesDistinct(ms: seq<(string, Json)>, parent: Json)
    requires forall i :: 0 <= i < |ms| ==> ms[i].1 < parent
    requires DistinctKeys(ms)
    ensures DistinctKeys(CanonValues(ms, parent))
    ensures Distinct(CanonValues(ms, parent))
  {
    var c := CanonValues(ms, parent);
    assert Keys(c) == Keys(ms);
  }

  function First(p: (string, Json)): string { p.0 }

  lemma KeysAsMap(ms: seq<(string, Json)>)
    ensures Keys(ms) == MapSeq(ms, First)
  {
  }

  /** Sorting a member list with distinct keys keeps its keys distinct and its members. */
  lemma SortKeepsDistinct(ms: seq<(string, Json)>)
    requires DistinctKeys(ms)
    ensures DistinctKeys(Sort(ms, MemberLe))
    ensures forall p :: p in Sort(ms, MemberLe) <==> p in ms
  {
    var s := Sort(ms, MemberLe);
    SortPermutes(ms, MemberLe);
    assert forall p :: p in s <==> p in multiset(s);
    assert forall p :: p in ms <==> p in multiset(ms);
    KeysAsMap(ms);
    KeysAsMap(s);
    SortMap(ms, MemberLe, First, LexLe);
    SortPermutes(Keys(ms), LexLe);
    PermutationKeepsDistinct(Keys(ms), Keys(s));
  }

  /** With distinct keys no member occurs twice. */
  lemma MembersDistinct(ms: seq<(string, Json)>)
    requires DistinctKeys(ms)
    ensures Distinct(ms)
  {
    forall i, j | 0 <= i < j < |ms| ensures ms[i] != ms[j] {
      assert Keys(ms)[i] != Keys(ms)[j];
    }
  }

  /** Within a member list with distinct keys a key identifies its member. */
  lemma KeyDeterminesMember(ms: seq<(string, Json)>, p: (string, Json), q: (string, Json))
    requires DistinctKeys(ms) && p in ms && q in ms && p.0 == q.0
    ensures p == q
  {
    var a :| 0 <= a < |ms| && ms[a] == p;
    var b :| 0 <= b < |ms| && ms[b] == q;
    assert Keys(ms)[a] == Keys(ms)[b];
  }

  /** Looking a key up in the canonical form finds the canonical value. */
  lemma CanonLookup(ms: seq<(string, Json)>, k: string)
    requires DistinctKeys(ms)
    ensures Canon(JObj(ms)).members == Sort(CanonValues(ms, JObj(ms)), MemberLe)
    ensures Lookup(Canon(JObj(ms)).members, k) == match Lookup(ms, k) { case Some(v) => Some(Canon(v)) case None => None }
  {
    var j := JObj(ms);
    var c := CanonValues(ms, j);
    CanonValuesDistinct(ms, j);
    SortKeepsDistinct(c);
    var s := Sort(c, MemberLe);
    match Lookup(ms, k)
    case Some(v) =>
      LookupFinds(ms, k, v);
      var i :| 0 <= i < |ms| && ms[i] == (k, v);
      assert c[i] == (k, Canon(v));
      LookupFinds(s, k, Canon(v));
    case None =>
      forall i | 0 <= i < |s| ensures s[i].0 != k {
        assert s[i] in c;
        var a :| 0 <= a < |c| && c[a] == s[i];
        LookupFinds(ms, ms[a].0, ms[a].1);
      }
      LookupAbsent(s, k);
  }

  /** Canonicalising twice changes nothing more. */
  lemma {:induction false} CanonIdempotent(j: Json)
    ensures Canon(Canon(j)) == Canon(j)
    decreases j
  {
    match j
    case JArr(items) =>
      forall i | 0 <= i < |items| ensures Canon(Canon(items[i])) == Canon(items[i]) {
        CanonIdempotent(items[i]);
      }
    case JObj(ms) =>
      var c := CanonValues(ms, j);
      var s := Sort(c, MemberLe);
      SortPermutes(c, MemberLe);
      var cj := JObj(s);
      var cc := CanonValues(s, cj);
      forall i | 0 <= i < |s| ensures cc[i] == s[i] {
        assert s[i] in multiset(c);
        var a :| 0 <= a < |c| && c[a] == s[i];
        CanonIdempotent(ms[a].1);
      }
      assert cc == s;
      MemberLeTotalPreorder();
      SortSorted(c, MemberLe);
      SortOfSorted(s, MemberLe);
    case _ =>
  }

  lemma PermutedDistinctKeys(ms1: seq<(string, Json)>, ms2: seq<(string, Json)>)
    requires DistinctKeys(ms1) && multiset(ms1) == multiset(ms2)
    ensures DistinctKeys(ms2)
  {
    MembersDistinct(ms1);
    PermutationKeepsDistinct(ms1, ms2);
    forall i, j | 0 <= i < j < |ms2| ensures Keys(ms2)[i] != Keys(ms2)[j] {
      assert ms2[i] != ms2[j];
      assert ms2[i] in multiset(ms1) && ms2[j] in multiset(ms1);
      if ms2[i].0 == ms2[j].0 {
        KeyDeterminesMember(ms1, ms2[i], ms2[j]);
      }
    }
  }

  lemma CanonValuesPermuted(ms1: seq<(string, Json)>, ms2: seq<(string, Json)>)
    requires DistinctKeys(ms1) && multiset(ms1) == multiset(ms2)
    ensures multiset(CanonValues(ms1, JObj(ms1))) == multiset(CanonValues(ms2, JObj(ms2)))
  {
    var c1 := CanonValues(ms1, JObj(ms1));
    var c2 := CanonValues(ms2, JObj(ms2));
    PermutedDistinctKeys(ms1, ms2);
    CanonValuesDistinct(ms1, JObj(ms1));
    CanonValuesDistinct(ms2, JObj(ms2));
    forall p ensures p in c1 <==> p in c2 {
      if p in c1 {
        var a :| 0 <= a < |c1| && c1[a] == p;
        assert ms1[a] in multiset(ms2);
        var b :| 0 <= b < |ms2| && ms2[b] == ms1[a];
        assert c2[b] == p;
      }
      if p in c2 {
        var b :| 0 <= b < |c2| && c2[b] == p;
        assert ms2[b] in multiset(ms1);
        var a :| 0 <= a < |ms1| && ms1[a] == ms2[b];
        assert c1[a] == p;
      }
    }
    DistinctSameElements(c1, c2);
  }

  /** Sorting by key determines a member list with distinct keys from its members alone. */
  lemma SortDeterminedByMembers(c1: seq<(string, Json)>, c2: seq<(string, Json)>)
    requires DistinctKeys(c1) && multiset(c1) == multiset(c2)
    ensures Sort(c1, MemberLe) == Sort(c2, MemberLe)
  {
    var s1 := Sort(c1, MemberLe);
    var s2 := Sort(c2, MemberLe);
    SortPermutes(c1, MemberLe);
    SortPermutes(c2, MemberLe);
    MemberLeTotalPreorder();
    SortSorted(c1, MemberLe);
    SortSorted(c2, MemberLe);
    SortKeepsDistinct(c1);
    forall x, y | x in s1 && y in s1 && MemberLe(x, y) && MemberLe(y, x) ensures x == y {
      LexLeAntisymmetric(x.0, y.0);
      KeyDeterminesMember(s1, x, y);
    }
    SortedUnique(s1, s2, MemberLe);
  }

  /** Canonical forms ignore the order in which an object lists its members. */
  lemma CanonIgnoresMemberOrder(ms1: seq<(string, Json)>, ms2: seq<(string, Json)>)
    requires DistinctKeys(ms1)
    requires multiset(ms1) == multiset(ms2)
    ensures Canon(JObj(ms1)) == Canon(JObj(ms2))
  {
    CanonValuesPermuted(ms1, ms2);
    CanonValuesDistinct(ms1, JObj(ms1));
    SortDeterminedByMembers(CanonValues(ms1, JObj(ms1)), CanonValues(ms2, JObj(ms2)));
  }
}
