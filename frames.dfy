/**
 * The tabular model shared by every stage: a data frame is an ordered list of
 * column labels and a sequence of rows, each row mapping labels to cells.
 * A cell missing from a row reads as NA, like a missing value in a frame.
 */
module Frames {
  import opened Wrappers
  import opened Strings
  import opened Sorting

  /** A calendar day; its components are compared lexicographically. */
  datatype Date = Date(year: int, month: int, day: int)

  predicate DateLe(a: Date, b: Date) {
    a.year < b.year || (a.year == b.year && (a.month < b.month || (a.month == b.month && a.day <= b.day)))
  }

  /**
   * A frame cell. NA stands for every missing marker (NaN, NaT, <NA>);
   * Inf is a float infinity, produced by dividing by a zero area.
   */
  datatype Cell = NA | Str(s: string) | Num(x: real) | Int(i: int) | When(d: Date) | Inf(positive: bool)

  type Row = map<string, Cell>

  datatype Frame = Frame(columns: seq<string>, rows: seq<Row>)

  function Get(r: Row, c: string): Cell {
    if c in r then r[c] else NA
  }

  /**
   * `series.astype(str)` on a text column: a missing value becomes the
   * text "nan"; cells that are neither text nor missing never occur in the
   * text columns this is applied to and render as their integer digits or "".
   */
  function AsText(c: Cell): string {
    match c
    case Str(s) => s
    case NA => "nan"
    case Int(i) => IntToString(i)
    case _ => ""
  }

  /** Numeric comparison `series >= t` (a missing value compares false). */
  predicate AtLeast(c: Cell, t: real) {
    match c
    case Num(x) => x >= t
    case Inf(positive) => positive
    case _ => false
  }

  /** Numeric comparison `series <= t` (a missing value compares false). */
  predicate AtMost(c: Cell, t: real) {
    match c
    case Num(x) => x <= t
    case Inf(positive) => !positive
    case _ => false
  }

  /** Boolean-mask selection `rows[keep]`, keeping the original order. */
  function Filter(rows: seq<Row>, keep: Row -> bool): (r: seq<Row>)
    ensures |r| <= |rows|
    ensures forall i :: 0 <= i < |r| ==> keep(r[i])
    ensures forall x :: x in r <==> x in rows && keep(x)
    ensures multiset(r) <= multiset(rows)
  {
    if rows == [] then []
    else
      assert rows == [rows[0]] + rows[1..];
      (if keep(rows[0]) then [rows[0]] else []) + Filter(rows[1..], keep)
  }

  function Where(f: Frame, keep: Row -> bool): (g: Frame)
    ensures g.columns == f.columns
    ensures forall i :: 0 <= i < |g.rows| ==> keep(g.rows[i])
    ensures forall x :: x in g.rows <==> x in f.rows && keep(x)
    ensures multiset(g.rows) <= multiset(f.rows)
  {
    Frame(f.columns, Filter(f.rows, keep))
  }

  /** Column assignment `df[c] = v`: overwrites `c` in place or appends it. */
  function SetColumn(f: Frame, c: string, v: Row -> Cell): (g: Frame)
    ensures g.columns == if c in f.columns then f.columns else f.columns + [c]
    ensures |g.rows| == |f.rows|
    ensures forall i :: 0 <= i < |f.rows| ==> g.rows[i] == f.rows[i][c := v(f.rows[i])]
  {
    Frame(if c in f.columns then f.columns else f.columns + [c],
          seq(|f.rows|, i requires 0 <= i < |f.rows| => f.rows[i][c := v(f.rows[i])]))
  }

  function Restrict(r: Row, cols: seq<string>): (r': Row)
    ensures r'.Keys == r.Keys * set c | c in cols
    ensures forall c :: c in cols ==> Get(r', c) == Get(r, c)
  {
    map c | c in r.Keys && c in cols :: r[c]
  }

  /** Column selection `df[cols]`. */
  function Select(f: Frame, cols: seq<string>): (g: Frame)
    ensures g.columns == cols && |g.rows| == |f.rows|
    ensures forall i :: 0 <= i < |f.rows| ==> g.rows[i] == Restrict(f.rows[i], cols)
  {
    Frame(cols, seq(|f.rows|, i requires 0 <= i < |f.rows| => Restrict(f.rows[i], cols)))
  }

  /** Every row holds exactly the frame's columns, and no label repeats. */
  predicate WellFormed(f: Frame) {
    Distinct(f.columns) && forall i :: 0 <= i < |f.rows| ==> f.rows[i].Keys == set c | c in f.columns
  }

  /** The labels of `s`, in order, that are (or are not) among `among`: `[c for c in s if c in among]`. */
  function KeepIf(s: seq<string>, among: seq<string>, present: bool): (r: seq<string>)
    ensures forall c :: c in r <==> c in s && (c in among) == present
    ensures Distinct(s) ==> Distinct(r)
    ensures multiset(r) <= multiset(s)
  {
    if s == [] then []
    else
      var rest := KeepIf(s[1..], among, present);
      assert s == [s[0]] + s[1..];
      if (s[0] in among) == present then
        assert Distinct(s) ==> s[0] !in s[1..];
        [s[0]] + rest
      else rest
  }

  /** Filtering a list without repetitions keeps its order. */
  lemma {:induction false} KeepIfOrder(s: seq<string>, among: seq<string>, present: bool)
    requires Distinct(s)
    ensures InOrderOf(KeepIf(s, among, present), s)
  {
    if s != [] {
      var rest := KeepIf(s[1..], among, present);
      assert Distinct(s[1..]);
      KeepIfOrder(s[1..], among, present);
      forall x | x in s[1..] ensures x in s && Pos(s, x) == 1 + Pos(s[1..], x) {
        var k :| 0 <= k < |s[1..]| && s[1..][k] == x;
        assert s[k + 1] == x;
      }
    }
  }

  /** Column assignment from a sequence of values, one per row. */
  function SetColumnValues(f: Frame, c: string, vals: seq<Cell>): (g: Frame)
    requires |vals| == |f.rows|
    ensures g.columns == if c in f.columns then f.columns else f.columns + [c]
    ensures |g.rows| == |f.rows|
    ensures forall i :: 0 <= i < |f.rows| ==> g.rows[i] == f.rows[i][c := vals[i]]
  {
    Frame(if c in f.columns then f.columns else f.columns + [c],
          seq(|f.rows|, i requires 0 <= i < |f.rows| => f.rows[i][c := vals[i]]))
  }
}
