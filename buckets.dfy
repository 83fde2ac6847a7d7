/**
 * Binning as `pd.cut` performs it (a `searchsorted` on the bin edges), the
 * half-to-even rounding of `Series.round()`, and the two bucketings the
 * pipeline and the deep-dive page use: rooms and surface classes.
 */
module Buckets {
  import opened Wrappers
  import opened Frames

  predicate Increasing(bins: seq<real>) {
    forall i, j :: 0 <= i < j < |bins| ==> bins[i] < bins[j]
  }

  /** Edge `b` lies to the left of `x`: strictly for right-closed bins, or not after it for left-closed ones. */
  predicate Below(b: real, x: real, right: bool) {
    if right then b < x else b <= x
  }

  /** `bins.searchsorted(x, side="left" if right else "right")`: how many edges lie to the left of `x`. */
  function Position(bins: seq<real>, x: real, right: bool): (n: nat)
    ensures n <= |bins|
  {
    if bins == [] then 0 else (if Below(bins[0], x, right) then 1 else 0) + Position(bins[1..], x, right)
  }

  /** The 0-based bin of `x`, or None when it falls outside every bin. */
  function CutIndex(x: real, bins: seq<real>, right: bool, includeLowest: bool): Option<nat> {
    var p := if includeLowest && |bins| > 0 && x == bins[0] then 1 else Position(bins, x, right);
    if p == 0 || p == |bins| then None else Some(p - 1)
  }

  /** `pd.cut(series, bins, labels, right, include_lowest)` on one cell; missing and infinite values get no label. */
  function Cut(c: Cell, bins: seq<real>, labels: seq<string>, right: bool, includeLowest: bool): (r: Cell)
    requires |labels| + 1 == |bins|
    ensures r.NA? || (r.Str? && r.s in labels)
  {
    var x := match c { case Num(x) => Some(x) case Int(i) => Some(i as real) case _ => None };
    if x.None? then NA
    else match CutIndex(x.value, bins, right, includeLowest)
      case Some(k) => Str(labels[k])
      case None => NA
  }

  lemma {:induction false} PositionAbove(bins: seq<real>, x: real, right: bool, k: nat)
    requires Increasing(bins) && k < |bins|
    ensures Position(bins, x, right) > k <==> Below(bins[k], x, right)
  {
    if k == 0 {
      if !Below(bins[0], x, right) {
        PositionNone(bins, x, right);
      }
    } else {
      PositionAbove(bins[1..], x, right, k - 1);
      if Below(bins[k], x, right) {
        assert Below(bins[0], x, right);
      }
    }
  }

  lemma {:induction false} PositionNone(bins: seq<real>, x: real, right: bool)
    requires Increasing(bins) && (bins == [] || !Below(bins[0], x, right))
    ensures Position(bins, x, right) == 0
  {
    if bins != [] {
      if |bins| > 1 {
        assert bins[0] < bins[1];
      }
      PositionNone(bins[1..], x, right);
    }
  }

  /**
   * The bin `pd.cut` assigns: bin k is (bins[k], bins[k+1]] when right-closed,
   * widened to include bins[0] for the first bin under include_lowest, and
   * [bins[k], bins[k+1]) when left-closed.
   */
  lemma CutIndexInterval(x: real, bins: seq<real>, right: bool, includeLowest: bool, k: nat)
    requires Increasing(bins) && k + 1 < |bins|
    ensures right ==> (CutIndex(x, bins, right, includeLowest) == Some(k) <==>
                       bins[k] < x <= bins[k + 1] || (includeLowest && k == 0 && x == bins[0]))
    ensures !right ==> (CutIndex(x, bins, right, includeLowest) == Some(k) <==> bins[k] <= x < bins[k + 1])
  {
    PositionAbove(bins, x, right, k);
    PositionAbove(bins, x, right, k + 1);
    if k > 0 {
      PositionAbove(bins, x, right, k - 1);
      assert bins[0] < bins[k];
    }
    if k + 2 < |bins| {
      PositionAbove(bins, x, right, k + 2);
    }
    if x == bins[0] {
      PositionAbove(bins, x, right, 0);
      if |bins| > 1 {
        PositionAbove(bins, x, right, 1);
      }
    }
  }

  /** With left-closed bins, include_lowest changes nothing. */
  lemma IncludeLowestLeftClosed(x: real, bins: seq<real>)
    requires Increasing(bins) && |bins| >= 2
    ensures CutIndex(x, bins, false, true) == CutIndex(x, bins, false, false)
  {
    if x == bins[0] {
      PositionAbove(bins, x, false, 0);
      PositionAbove(bins, x, false, 1);
    }
  }

  /** `Series.round()`: the nearest integer, ties to the even one. */
  function RoundHalfEven(x: real): (n: int)
    ensures n as real - 0.5 <= x <= n as real + 0.5
    ensures (x - x.Floor as real == 0.5) ==> n % 2 == 0
  {
    var f := x.Floor;
    var frac := x - f as real;
    if frac < 0.5 then f
    else if frac > 0.5 then f + 1
    else if f % 2 == 0 then f else f + 1
  }

  lemma RoundInteger(n: int)
    ensures RoundHalfEven(n as real) == n
  {
  }

  // The room classes (utils/prep.py:98-104, sections/deep_dives.py:197-200).

  function RoomBins(): seq<real> { [0.0, 1.0, 2.0, 3.0, 4.0, 100.0] }

  function RoomLabels(): seq<string> { ["T1", "T2", "T3", "T4", "T5+"] }

  /** Right-closed bins with the lowest edge included. */
  function RoomClass(c: Cell): Cell {
    Cut(c, RoomBins(), RoomLabels(), true, true)
  }

  /** [0,1] is T1, (1,2] T2, (2,3] T3, (3,4] T4, (4,100] T5+, anything else no class. */
  lemma RoomClassRule(x: real)
    ensures RoomClass(Num(x)) == Str("T1") <==> 0.0 <= x <= 1.0
    ensures RoomClass(Num(x)) == Str("T2") <==> 1.0 < x <= 2.0
    ensures RoomClass(Num(x)) == Str("T3") <==> 2.0 < x <= 3.0
    ensures RoomClass(Num(x)) == Str("T4") <==> 3.0 < x <= 4.0
    ensures RoomClass(Num(x)) == Str("T5+") <==> 4.0 < x <= 100.0
    ensures RoomClass(Num(x)) == NA <==> x < 0.0 || x > 100.0
  {
    var bins := RoomBins();
    assert Increasing(bins);
    CutIndexInterval(x, bins, true, true, 0);
    CutIndexInterval(x, bins, true, true, 1);
    CutIndexInterval(x, bins, true, true, 2);
    CutIndexInterval(x, bins, true, true, 3);
    CutIndexInterval(x, bins, true, true, 4);
  }

  // The surface classes (utils/prep.py:106-113, sections/deep_dives.py:171-176).

  function SurfaceBins(): seq<real> { [0.0, 25.0, 40.0, 60.0, 80.0, 120.0, 10000.0] }

  function SurfaceLabels(): seq<string> {
    ["<25", "25\U{2013}40", "40\U{2013}60", "60\U{2013}80", "80\U{2013}120", "120+"]
  }

  /** Left-closed bins; the pipeline passes include_lowest, the deep-dive page does not. */
  function SurfaceClass(c: Cell, includeLowest: bool): Cell {
    Cut(c, SurfaceBins(), SurfaceLabels(), false, includeLowest)
  }

  /** [0,25) is "<25", [25,40) "25–40", …, [120,10000) "120+", anything else no class. */
  lemma SurfaceClassRule(x: real)
    ensures SurfaceClass(Num(x), true) == Str("<25") <==> 0.0 <= x < 25.0
    ensures SurfaceClass(Num(x), true) == Str("25\U{2013}40") <==> 25.0 <= x < 40.0
    ensures SurfaceClass(Num(x), true) == Str("40\U{2013}60") <==> 40.0 <= x < 60.0
    ensures SurfaceClass(Num(x), true) == Str("60\U{2013}80") <==> 60.0 <= x < 80.0
    ensures SurfaceClass(Num(x), true) == Str("80\U{2013}120") <==> 80.0 <= x < 120.0
    ensures SurfaceClass(Num(x), true) == Str("120+") <==> 120.0 <= x < 10000.0
    ensures SurfaceClass(Num(x), true) == NA <==> x < 0.0 || x >= 10000.0
  {
    var bins := SurfaceBins();
    assert Increasing(bins);
    CutIndexInterval(x, bins, false, true, 0);
    CutIndexInterval(x, bins, false, true, 1);
    CutIndexInterval(x, bins, false, true, 2);
    CutIndexInterval(x, bins, false, true, 3);
    CutIndexInterval(x, bins, false, true, 4);
    CutIndexInterval(x, bins, false, true, 5);
  }

  /** The deep-dive page's surface classes are the pipeline's, although it omits include_lowest. */
  lemma SurfaceClassesAgree(c: Cell)
    ensures SurfaceClass(c, false) == SurfaceClass(c, true)
  {
    assert Increasing(SurfaceBins());
    match c {
      case Num(x) => IncludeLowestLeftClosed(x, SurfaceBins());
      case Int(i) => IncludeLowestLeftClosed(i as real, SurfaceBins());
      case _ =>
    }
  }
}
