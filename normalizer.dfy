/**
 * Field normaliser of utils/io.py: canonical snake_case headers and
 * locale-formatted numbers (thousands separated by spaces, decimal comma).
 */
module FieldNormalizer {
  import opened Wrappers
  import opened Strings
  import opened Frames

  // ---------- header normalisation ----------

  /** `replace("(", " ").replace(")", " ").replace("/", " ")`. */
  function BlankBrackets(s: string): (r: string)
    ensures |r| == |s|
    ensures forall i :: 0 <= i < |s| ==> r[i] == if s[i] in "()/" then ' ' else s[i]
  {
    seq(|s|, i requires 0 <= i < |s| => if s[i] in "()/" then ' ' else s[i])
  }

  function DropNonAlnum(s: string): (r: string)
    ensures |r| <= |s| && r == s[|s| - |r|..]
    ensures r == [] || IsAsciiAlnum(r[0])
  {
    if s != [] && !IsAsciiAlnum(s[0]) then DropNonAlnum(s[1..]) else s
  }

  predicate SnakeChar(c: char) { IsAsciiAlnum(c) || c == '_' }

  predicate NoDoubleUnderscore(s: string) {
    forall i :: 0 <= i < |s| - 1 ==> !(s[i] == '_' && s[i + 1] == '_')
  }

  /** `re.sub(r"[^0-9a-zA-Z]+", "_", s)`: each maximal run of other characters becomes one `_`. */
  function CollapseNonAlnum(s: string): (r: string)
    ensures forall i :: 0 <= i < |r| ==> SnakeChar(r[i])
    ensures NoDoubleUnderscore(r)
    ensures s == [] <==> r == []
    ensures s != [] && IsAsciiAlnum(s[0]) ==> r[0] == s[0]
    decreases |s|
  {
    if s == [] then []
    else if IsAsciiAlnum(s[0]) then [s[0]] + CollapseNonAlnum(s[1..])
    else "_" + CollapseNonAlnum(DropNonAlnum(s[1..]))
  }

  function DropUnderscores(s: string): (r: string)
    ensures |r| <= |s| && r == s[|s| - |r|..]
    ensures r == [] || r[0] != '_'
  {
    if s != [] && s[0] == '_' then DropUnderscores(s[1..]) else s
  }

  /** `re.sub(r"_+", "_", s)`. */
  function SqueezeUnderscores(s: string): (r: string)
    decreases |s|
  {
    if s == [] then []
    else if s[0] == '_' then "_" + SqueezeUnderscores(DropUnderscores(s[1..]))
    else [s[0]] + SqueezeUnderscores(s[1..])
  }

  function StripLeadingUnderscores(s: string): (r: string)
    ensures |r| <= |s| && r == s[|s| - |r|..]
    ensures r == [] || r[0] != '_'
  {
    DropUnderscores(s)
  }

  function StripTrailingUnderscores(s: string): (r: string)
    ensures |r| <= |s| && r == s[..|r|]
    ensures r == [] || r[|r| - 1] != '_'
  {
    if s != [] && s[|s| - 1] == '_' then StripTrailingUnderscores(s[..|s| - 1]) else s
  }

  /** `s.strip("_")`. */
  function StripUnderscores(s: string): string {
    StripTrailingUnderscores(StripLeadingUnderscores(s))
  }

  /** `_snake`: the canonical column label for a raw header. */
  function Snake(s: string): string {
    Lower(StripUnderscores(SqueezeUnderscores(CollapseNonAlnum(BlankBrackets(Strip(s))))))
  }

  /** The shape of every normalised label. */
  predicate IsSnake(s: string) {
    && (forall i :: 0 <= i < |s| ==> IsLower(s[i]) || IsDigit(s[i]) || s[i] == '_')
    && (s != [] ==> s[0] != '_' && s[|s| - 1] != '_')
    && NoDoubleUnderscore(s)
  }

  lemma {:induction false} SqueezeKeeps(s: string)
    requires NoDoubleUnderscore(s)
    ensures SqueezeUnderscores(s) == s
    decreases |s|
  {
    if s != [] {
      assert NoDoubleUnderscore(s[1..]);
      SqueezeKeeps(s[1..]);
      if s[0] == '_' {
        assert s[1..] == [] || s[1] != '_';
        assert DropUnderscores(s[1..]) == s[1..];
      }
      assert s == [s[0]] + s[1..];
    }
  }

  lemma {:induction false} CollapseKeeps(s: string)
    requires forall i :: 0 <= i < |s| ==> SnakeChar(s[i])
    requires NoDoubleUnderscore(s)
    ensures CollapseNonAlnum(s) == s
    decreases |s|
  {
    if s != [] {
      assert NoDoubleUnderscore(s[1..]);
      CollapseKeeps(s[1..]);
      if !IsAsciiAlnum(s[0]) {
        assert s[1..] == [] || IsAsciiAlnum(s[1]);
        assert DropNonAlnum(s[1..]) == s[1..];
      }
      assert s == [s[0]] + s[1..];
    }
  }

  /** Any contiguous piece of a string keeps its characters and has no new `__`. */
  lemma {:induction false} SliceKeeps(s: string, lo: nat, hi: nat)
    requires lo <= hi <= |s|
    requires forall i :: 0 <= i < |s| ==> SnakeChar(s[i])
    requires NoDoubleUnderscore(s)
    ensures forall i :: 0 <= i < hi - lo ==> SnakeChar(s[lo..hi][i])
    ensures NoDoubleUnderscore(s[lo..hi])
  {
    var t := s[lo..hi];
    forall i | 0 <= i < |t| - 1 ensures !(t[i] == '_' && t[i + 1] == '_') {
      assert t[i] == s[lo + i] && t[i + 1] == s[lo + i + 1];
    }
  }

  lemma {:induction false} SliceOfSlice(s: string, lo: nat, n: nat)
    requires lo + n <= |s|
    ensures s[lo..][..n] == s[lo..lo + n]
  {
  }

  lemma {:induction false} StripUnderscoresShape(s: string)
    requires forall i :: 0 <= i < |s| ==> SnakeChar(s[i])
    requires NoDoubleUnderscore(s)
    ensures var r := StripUnderscores(s);
      && (forall i :: 0 <= i < |r| ==> SnakeChar(r[i]))
      && NoDoubleUnderscore(r)
      && (r != [] ==> r[0] != '_' && r[|r| - 1] != '_')
  {
    var a := StripLeadingUnderscores(s);
    var r := StripTrailingUnderscores(a);
    var lo := |s| - |a|;
    SliceOfSlice(s, lo, |r|);
    assert r == s[lo..lo + |r|];
    SliceKeeps(s, lo, lo + |r|);
    assert StripUnderscores(s) == r;
    if r != [] {
      assert r[0] == a[0];
    }
  }

  lemma {:induction false} LowerShape(t: string)
    requires forall i :: 0 <= i < |t| ==> SnakeChar(t[i])
    requires NoDoubleUnderscore(t)
    requires t != [] ==> t[0] != '_' && t[|t| - 1] != '_'
    ensures IsSnake(Lower(t))
  {
    var r := Lower(t);
    assert forall i :: 0 <= i < |r| ==> (r[i] == '_' <==> t[i] == '_');
  }

  /** `_snake` yields only lower-case letters, digits and single, inner underscores. */
  lemma {:induction false} SnakeShape(s: string)
    ensures IsSnake(Snake(s))
  {
    var c := CollapseNonAlnum(BlankBrackets(Strip(s)));
    SqueezeKeeps(c);
    StripUnderscoresShape(c);
    LowerShape(StripUnderscores(c));
  }

  lemma {:induction false} SnakeCharNotSpace(c: char)
    requires IsLower(c) || IsDigit(c) || c == '_'
    ensures !IsSpace(c)
  {
  }

  /** A string whose ends are not white space is its own strip. */
  lemma {:induction false} StripUnpadded(s: string)
    requires s != [] ==> !IsSpace(s[0]) && !IsSpace(s[|s| - 1])
    ensures Strip(s) == s
  {
    assert TrimStart(s) == s;
  }

  lemma {:induction false} StripKeepsSnake(s: string)
    requires IsSnake(s)
    ensures Strip(s) == s
  {
    if s != [] {
      SnakeCharNotSpace(s[0]);
      SnakeCharNotSpace(s[|s| - 1]);
    }
    StripUnpadded(s);
  }

  lemma {:induction false} LowerKeepsSnake(s: string)
    requires IsSnake(s)
    ensures Lower(s) == s
  {
  }

  /** A label already in normal form is left unchanged. */
  lemma {:induction false} SnakeFixesSnake(s: string)
    requires IsSnake(s)
    ensures Snake(s) == s
  {
    StripKeepsSnake(s);
    assert BlankBrackets(s) == s;
    CollapseKeeps(s);
    SqueezeKeeps(s);
    if s != [] {
      assert StripLeadingUnderscores(s) == s;
      assert StripTrailingUnderscores(s) == s;
    }
    LowerKeepsSnake(s);
  }

  /** `_snake(_snake(s)) == _snake(s)`. */
  lemma {:induction false} SnakeIdempotent(s: string)
    ensures Snake(Snake(s)) == Snake(s)
  {
    SnakeShape(s);
    SnakeFixesSnake(Snake(s));
  }

  // ---------- numeric coercion ----------

  /** A space, an NBSP or a comma: the characters the replacements rewrite. */
  predicate LocaleMark(c: char) {
    c == ' ' || c == '\U{A0}' || c == ','
  }

  /** What one character becomes. */
  function DelocaliseChar(c: char): (r: string)
    ensures c == ',' ==> r == "."
    ensures c == ' ' || c == '\U{A0}' ==> r == ""
    ensures !LocaleMark(c) ==> r == [c]
  {
    if c == ' ' || c == '\U{A0}' then "" else if c == ',' then "." else [c]
  }

  /**
   * The three textual replacements: NBSP to space, spaces removed, comma to
   * point. Every other character is kept, in order.
   */
  function Delocalise(s: string): (r: string)
    ensures forall i :: 0 <= i < |r| ==> r[i] != ' ' && r[i] != '\U{A0}' && r[i] != ','
  {
    if s == [] then []
    else
      DelocaliseChar(s[0]) + Delocalise(s[1..])
  }

  /** One step of the replacements: the head character's share, then the rest. */
  lemma {:induction false} DelocaliseStep(s: string)
    requires s != []
    ensures multiset(Delocalise(s)) == multiset(DelocaliseChar(s[0])) + multiset(Delocalise(s[1..]))
    ensures multiset(s) == multiset{s[0]} + multiset(s[1..])
  {
    assert Delocalise(s) == DelocaliseChar(s[0]) + Delocalise(s[1..]);
    assert s == [s[0]] + s[1..];
  }

  /** Each comma becomes a point, and the points already there stay. */
  lemma {:induction false} DelocalisePoints(s: string)
    ensures multiset(Delocalise(s))['.'] == multiset(s)['.'] + multiset(s)[',']
  {
    if s != [] {
      DelocaliseStep(s);
      DelocalisePoints(s[1..]);
    }
  }

  /** Every character other than a space, an NBSP, a comma or a point occurs as often as before. */
  lemma {:induction false} DelocaliseOthers(s: string, c: char)
    requires !LocaleMark(c) && c != '.'
    ensures multiset(Delocalise(s))[c] == multiset(s)[c]
  {
    if s != [] {
      DelocaliseStep(s);
      DelocaliseOthers(s[1..], c);
    }
  }

  /** Text without a space, an NBSP or a comma is returned as it is. */
  lemma {:induction false} DelocaliseUnchanged(s: string)
    requires forall i :: 0 <= i < |s| ==> !LocaleMark(s[i])
    ensures Delocalise(s) == s
  {
    if s != [] {
      assert forall i :: 0 <= i < |s[1..]| ==> !LocaleMark(s[1..][i]) by {
        forall i | 0 <= i < |s[1..]| ensures !LocaleMark(s[1..][i]) {
          assert s[1..][i] == s[i + 1];
        }
      }
      DelocaliseUnchanged(s[1..]);
      assert s == [s[0]] + s[1..];
    }
  }

  /** What the replacements keep, in one statement. */
  lemma {:induction false} DelocaliseKeeps(s: string)
    ensures multiset(Delocalise(s))['.'] == multiset(s)['.'] + multiset(s)[',']
    ensures forall c :: !LocaleMark(c) && c != '.' ==> multiset(Delocalise(s))[c] == multiset(s)[c]
    ensures (forall i :: 0 <= i < |s| ==> !LocaleMark(s[i])) ==> Delocalise(s) == s
  {
    DelocalisePoints(s);
    forall c | !LocaleMark(c) && c != '.' ensures multiset(Delocalise(s))[c] == multiset(s)[c] {
      DelocaliseOthers(s, c);
    }
    if forall i :: 0 <= i < |s| ==> !LocaleMark(s[i]) {
      DelocaliseUnchanged(s);
    }
  }

  predicate AllDigits(s: string) {
    forall i :: 0 <= i < |s| ==> IsDigit(s[i])
  }

  function DigitsValue(s: string): (n: nat)
    requires AllDigits(s)
  {
    if s == [] then 0 else DigitsValue(s[..|s| - 1]) * 10 + DigitValue(s[|s| - 1])
  }

  function Pow10(n: nat): (r: real)
    ensures r >= 1.0
  {
    if n == 0 then 1.0 else 10.0 * Pow10(n - 1)
  }

  /** The value of the digits after a decimal point: "25" is 0.25. */
  function FractionValue(s: string): (r: real)
    requires AllDigits(s)
    ensures 0.0 <= r < 1.0
  {
    if s == [] then 0.0 else (DigitValue(s[0]) as real + FractionValue(s[1..])) / 10.0
  }

  /** First index of a character in `cs`, or `|s|` when there is none. */
  function FindAny(s: string, cs: string): (k: nat)
    ensures k <= |s|
    ensures forall i :: 0 <= i < k ==> s[i] !in cs
    ensures k < |s| ==> s[k] in cs
  {
    if s == [] then 0 else if s[0] in cs then 0 else 1 + FindAny(s[1..], cs)
  }

  /** A mantissa `d+`, `d+.`, `.d+` or `d+.d+`. */
  function ParseMantissa(m: string): Option<real> {
    var k := FindAny(m, ".");
    var ip := m[..k];
    var fp := if k < |m| then m[k + 1..] else "";
    if AllDigits(ip) && AllDigits(fp) && |ip| + |fp| > 0 then
      Some(DigitsValue(ip) as real + FractionValue(fp))
    else None
  }

  /** A signed decimal exponent `[+-]?d+`. */
  function ParseExponent(t: string): Option<int> {
    var neg := t != [] && t[0] == '-';
    var digits := if t != [] && t[0] in "+-" then t[1..] else t;
    if digits != [] && AllDigits(digits) then
      var v: int := DigitsValue(digits);
      Some(if neg then -v else v)
    else None
  }

  function Scale(x: real, e: int): real {
    if e >= 0 then x * Pow10(e) else x / Pow10(-e)
  }

  /** The characters a parsable number can contain. */
  predicate NumberChar(c: char) {
    IsDigit(c) || c in "+-.eE"
  }

  /** An unsigned literal: a mantissa and an optional exponent. */
  function ParseUnsigned(body: string): Option<real> {
    var e := FindAny(body, "eE");
    var mant := ParseMantissa(body[..e]);
    var exp := if e < |body| then ParseExponent(body[e + 1..]) else Some(0);
    if mant.None? || exp.None? then None else Some(Scale(mant.value, exp.value))
  }

  /** `pd.to_numeric` of one text value: a decimal float literal, else None. */
  function ParseNumber(s: string): Option<real> {
    if s != [] && s[0] in "+-" then
      match ParseUnsigned(s[1..])
      case Some(x) => Some(if s[0] == '-' then -x else x)
      case None => None
    else ParseUnsigned(s)
  }

  lemma {:induction false} MantissaAlphabet(m: string)
    requires ParseMantissa(m).Some?
    ensures forall i :: 0 <= i < |m| ==> NumberChar(m[i])
  {
    var k := FindAny(m, ".");
    forall i | 0 <= i < |m| ensures NumberChar(m[i]) {
      if i < k {
        assert m[i] == m[..k][i];
      } else if i > k {
        assert m[i] == m[k + 1..][i - k - 1];
      }
    }
  }

  lemma {:induction false} ExponentAlphabet(t: string)
    requires ParseExponent(t).Some?
    ensures forall i :: 0 <= i < |t| ==> NumberChar(t[i])
  {
    forall i | 0 <= i < |t| ensures NumberChar(t[i]) {
      if i > 0 || t[0] !in "+-" {
        var digits := if t[0] in "+-" then t[1..] else t;
        assert t[i] == digits[i - (|t| - |digits|)];
      }
    }
  }

  /** A parsed literal splits at its first exponent marker into a mantissa and an exponent that parse. */
  lemma {:induction false} UnsignedParts(body: string)
    requires ParseUnsigned(body).Some?
    ensures var e := FindAny(body, "eE");
            ParseMantissa(body[..e]).Some? && (e < |body| ==> ParseExponent(body[e + 1..]).Some?)
  {
  }

  /** A literal whose mantissa and exponent use the number alphabet uses it throughout. */
  lemma {:induction false} JoinAlphabet(body: string, e: nat, mant: string, t: string)
    requires e <= |body| && mant == body[..e]
    requires e < |body| ==> body[e] in "eE" && t == body[e + 1..]
    requires forall i :: 0 <= i < |mant| ==> NumberChar(mant[i])
    requires e < |body| ==> forall i :: 0 <= i < |t| ==> NumberChar(t[i])
    ensures forall i :: 0 <= i < |body| ==> NumberChar(body[i])
  {
    forall i | 0 <= i < |body| ensures NumberChar(body[i]) {
      if i < e {
        assert body[i] == mant[i];
      } else if i > e {
        assert body[i] == t[i - e - 1];
      }
    }
  }

  lemma {:induction false} UnsignedAlphabet(body: string)
    requires ParseUnsigned(body).Some?
    ensures forall i :: 0 <= i < |body| ==> NumberChar(body[i])
  {
    UnsignedParts(body);
    var e := FindAny(body, "eE");
    var mant := body[..e];
    MantissaAlphabet(mant);
    var t := if e < |body| then body[e + 1..] else "";
    if e < |body| {
      ExponentAlphabet(t);
    }
    JoinAlphabet(body, e, mant, t);
  }

  /** Text holding any character outside digits, signs, `.` and `e`/`E` never parses. */
  lemma {:induction false} ParseNumberAlphabet(s: string)
    requires ParseNumber(s).Some?
    ensures forall i :: 0 <= i < |s| ==> NumberChar(s[i])
  {
    if s != [] && s[0] in "+-" {
      UnsignedAlphabet(s[1..]);
      assert forall i :: 1 <= i < |s| ==> s[i] == s[1..][i - 1];
    } else {
      UnsignedAlphabet(s);
    }
  }

  /** `_coerce_numeric` on one cell: `astype(str)`, the replacements, then `pd.to_numeric(errors="coerce")`. */
  function CoerceNumeric(c: Cell): (r: Cell)
    ensures r.NA? || r.Num? || r.Inf?
    ensures c.Num? ==> r == c
    ensures c.Str? && ParseNumber(Delocalise(c.s)).Some? ==> r == Num(ParseNumber(Delocalise(c.s)).value)
    ensures c.Str? && ParseNumber(Delocalise(c.s)).None? ==> r == NA
  {
    match c
    case Str(s) => match ParseNumber(Delocalise(s)) { case Some(x) => Num(x) case None => NA }
    case Num(_) => c
    case Int(i) => Num(i as real)
    case Inf(_) => c
    case _ => NA
  }

  /**
   * Text holding a character that is neither part of a number nor a locale
   * mark survives the replacements and cannot be parsed, so it becomes missing:
   * "abc" and "12 m2" are missing.
   */
  lemma {:induction false} CoerceNonNumeric(s: string, i: nat)
    requires i < |s| && !NumberChar(s[i]) && !LocaleMark(s[i])
    ensures CoerceNumeric(Str(s)) == NA
  {
    var c := s[i];
    assert c != '.';
    DelocaliseOthers(s, c);
    assert c in multiset(s);
    var t := Delocalise(s);
    assert c in multiset(t);
    var k :| 0 <= k < |t| && t[k] == c;
    if ParseNumber(t).Some? {
      ParseNumberAlphabet(t);
    }
  }

  lemma {:induction false} DelocaliseConcat(x: string, y: string)
    ensures Delocalise(x + y) == Delocalise(x) + Delocalise(y)
  {
    if x != [] {
      assert (x + y)[1..] == x[1..] + y;
      DelocaliseConcat(x[1..], y);
    } else {
      assert x + y == y;
    }
  }

  lemma {:induction false} DelocaliseDigits(a: string)
    requires AllDigits(a)
    ensures Delocalise(a) == a
  {
    if a != [] {
      DelocaliseDigits(a[1..]);
      assert a == [a[0]] + a[1..];
    }
  }

  /** Digit groups written with thousands separators between them: `groups[0] seps[0] groups[1] ...`. */
  function Grouped(groups: seq<string>, seps: seq<char>): string
    requires |seps| + 1 == |groups|
  {
    if |seps| == 0 then groups[0]
    else Grouped(groups[..|groups| - 1], seps[..|seps| - 1]) + [seps[|seps| - 1]] + groups[|groups| - 1]
  }

  /** The groups run together. */
  function JoinGroups(groups: seq<string>): string {
    if groups == [] then [] else JoinGroups(groups[..|groups| - 1]) + groups[|groups| - 1]
  }

  predicate ThousandsSeparator(c: char) { c == ' ' || c == '\U{A0}' }

  /** Dropping one separator before a digit group. */
  lemma {:induction false} DelocaliseSeparator(sep: char)
    requires ThousandsSeparator(sep)
    ensures Delocalise([sep]) == []
  {
    assert [sep][1..] == [];
  }

  lemma {:induction false} DelocaliseGroupStep(x: string, sep: char, g: string)
    requires AllDigits(g) && ThousandsSeparator(sep)
    ensures Delocalise(x + [sep] + g) == Delocalise(x) + g
  {
    var y := x + [sep];
    DelocaliseConcat(y, g);
    DelocaliseConcat(x, [sep]);
    DelocaliseSeparator(sep);
    assert Delocalise(y) == Delocalise(x);
    DelocaliseDigits(g);
  }

  lemma {:induction false} AllDigitsConcat(a: string, b: string)
    requires AllDigits(a) && AllDigits(b)
    ensures AllDigits(a + b)
  {
    forall i | 0 <= i < |a + b| ensures IsDigit((a + b)[i]) {
      if i >= |a| {
        assert (a + b)[i] == b[i - |a|];
      }
    }
  }

  /** Removing the space or NBSP separators between digit groups joins the groups. */
  lemma {:induction false} DelocaliseGrouped(groups: seq<string>, seps: seq<char>)
    requires |seps| + 1 == |groups|
    requires forall i :: 0 <= i < |groups| ==> AllDigits(groups[i])
    requires forall i :: 0 <= i < |seps| ==> ThousandsSeparator(seps[i])
    ensures Delocalise(Grouped(groups, seps)) == JoinGroups(groups) && AllDigits(JoinGroups(groups))
    decreases |seps|
  {
    var g := groups[|groups| - 1];
    if |seps| == 0 {
      DelocaliseDigits(g);
      assert groups == [g];
      assert JoinGroups(groups) == JoinGroups([]) + g;
    } else {
      var gs, ss := groups[..|groups| - 1], seps[..|seps| - 1];
      assert forall i :: 0 <= i < |gs| ==> gs[i] == groups[i];
      assert forall i :: 0 <= i < |ss| ==> ss[i] == seps[i];
      DelocaliseGrouped(gs, ss);
      assert Grouped(groups, seps) == Grouped(gs, ss) + [seps[|seps| - 1]] + g;
      assert JoinGroups(groups) == JoinGroups(gs) + g;
      DelocaliseGroupStep(Grouped(gs, ss), seps[|seps| - 1], g);
      AllDigitsConcat(JoinGroups(gs), g);
    }
  }

  /** The decimal comma tail `,digits` when there is one. */
  function CommaTail(frac: Option<string>): string {
    if frac.Some? then "," + frac.value else ""
  }

  /** The plain decimal `ab.digits`, or `ab`, that the replacements turn a comma tail into. */
  function PointDecimal(ab: string, frac: Option<string>): string {
    if frac.Some? then ab + "." + frac.value else ab
  }

  /** A decimal comma tail becomes a decimal point tail. */
  lemma {:induction false} DelocaliseCommaTail(f: string)
    requires AllDigits(f)
    ensures Delocalise("," + f) == "." + f
  {
    DelocaliseConcat(",", f);
    assert Delocalise(",") == ".";
    DelocaliseDigits(f);
  }

  lemma {:induction false} DelocaliseLocale(groups: seq<string>, seps: seq<char>, frac: Option<string>)
    requires |seps| + 1 == |groups|
    requires forall i :: 0 <= i < |groups| ==> AllDigits(groups[i])
    requires forall i :: 0 <= i < |seps| ==> ThousandsSeparator(seps[i])
    requires frac.Some? ==> AllDigits(frac.value)
    ensures Delocalise(Grouped(groups, seps) + CommaTail(frac))
         == PointDecimal(JoinGroups(groups), frac)
    ensures AllDigits(JoinGroups(groups))
  {
    DelocaliseGrouped(groups, seps);
    DelocaliseTail(Grouped(groups, seps), JoinGroups(groups), frac);
  }

  /** Text that delocalises to `ab`, followed by a comma tail, delocalises to the plain decimal. */
  lemma {:induction false} DelocaliseTail(x: string, ab: string, frac: Option<string>)
    requires Delocalise(x) == ab && (frac.Some? ==> AllDigits(frac.value))
    ensures Delocalise(x + CommaTail(frac)) == PointDecimal(ab, frac)
  {
    DelocaliseConcat(x, CommaTail(frac));
    if frac.Some? {
      DelocaliseCommaTail(frac.value);
      assert ab + ("." + frac.value) == ab + "." + frac.value;
    } else {
      assert Delocalise("") == "";
    }
  }

  /** A literal that starts with a digit has no sign to strip. */
  lemma {:induction false} ParseUnsignedLead(m: string)
    requires m != [] && IsDigit(m[0])
    ensures ParseNumber(m) == ParseUnsigned(m)
  {
    assert m[0] !in "+-";
  }

  /** A literal without an exponent marker is its mantissa. */
  lemma {:induction false} ParseNoExponent(m: string)
    requires FindAny(m, "eE") == |m|
    ensures ParseUnsigned(m) == ParseMantissa(m)
  {
    assert m[..|m|] == m;
    if ParseMantissa(m).Some? {
      assert Scale(ParseMantissa(m).value, 0) == ParseMantissa(m).value;
    }
  }

  /** A mantissa whose first point is at `k`, with digits on both sides. */
  lemma {:induction false} MantissaAt(m: string, k: nat, ip: string, fp: string)
    requires FindAny(m, ".") == k && k < |m|
    requires ip == m[..k] && fp == m[k + 1..] && AllDigits(ip) && AllDigits(fp) && |ip| + |fp| > 0
    ensures ParseMantissa(m) == Some(DigitsValue(ip) as real + FractionValue(fp))
  {
  }

  /** The mantissa `ab.c` of digit strings. */
  lemma {:induction false} MantissaFraction(ab: string, c: string)
    requires AllDigits(ab) && AllDigits(c) && |ab| + |c| > 0
    ensures ParseMantissa(ab + "." + c) == Some(DigitsValue(ab) as real + FractionValue(c))
  {
    var m := ab + "." + c;
    assert FindAny(m, ".") == |ab| by {
      forall i | 0 <= i < |ab| ensures m[i] !in "." { assert m[i] == ab[i]; }
      FindAnyFirst(m, ".", |ab|);
    }
    assert m[..|ab|] == ab;
    assert m[|ab| + 1..] == c;
    MantissaAt(m, |ab|, ab, c);
  }

  /** The mantissa `ab` of a digit string. */
  lemma {:induction false} MantissaWhole(ab: string)
    requires AllDigits(ab) && |ab| > 0
    ensures ParseMantissa(ab) == Some(DigitsValue(ab) as real)
  {
    assert FindAny(ab, ".") == |ab| by {
      forall i | 0 <= i < |ab| ensures ab[i] !in "." {
        assert IsDigit(ab[i]);
      }
      FindAnyNone(ab, ".");
    }
    var ip := ab[..FindAny(ab, ".")];
    assert ip == ab;
    var fp: string := "";
    assert AllDigits(ip) && AllDigits(fp) && |ip| + |fp| > 0;
    assert FractionValue(fp) == 0.0;
  }

  /** The value of the plain decimal `ab` or `ab.frac`. */
  function DecimalValue(ab: string, frac: Option<string>): real
    requires AllDigits(ab) && (frac.Some? ==> AllDigits(frac.value))
  {
    DigitsValue(ab) as real + if frac.Some? then FractionValue(frac.value) else 0.0
  }

  lemma {:induction false} PlainFraction(ab: string, c: string)
    requires AllDigits(ab) && |ab| > 0 && AllDigits(c)
    ensures ParseNumber(PointDecimal(ab, Some(c))) == Some(DecimalValue(ab, Some(c)))
  {
    var m := ab + "." + c;
    assert m[0] == ab[0];
    assert FindAny(m, "eE") == |m| by {
      forall i | 0 <= i < |m| ensures m[i] !in "eE" {
        if i < |ab| { assert m[i] == ab[i]; }
        else if i > |ab| { assert m[i] == c[i - |ab| - 1]; }
      }
      FindAnyNone(m, "eE");
    }
    ParseUnsignedLead(m);
    ParseNoExponent(m);
    MantissaFraction(ab, c);
  }

  lemma {:induction false} PlainWhole(ab: string)
    requires AllDigits(ab) && |ab| > 0
    ensures ParseNumber(PointDecimal(ab, None)) == Some(DecimalValue(ab, None))
  {
    assert FindAny(ab, "eE") == |ab| by {
      forall i | 0 <= i < |ab| ensures ab[i] !in "eE" {
        assert IsDigit(ab[i]);
      }
      FindAnyNone(ab, "eE");
    }
    ParseUnsignedLead(ab);
    ParseNoExponent(ab);
    MantissaWhole(ab);
  }

  lemma {:induction false} PlainValue(ab: string, frac: Option<string>)
    requires AllDigits(ab) && |ab| > 0 && (frac.Some? ==> AllDigits(frac.value))
    ensures ParseNumber(PointDecimal(ab, frac)) == Some(DecimalValue(ab, frac))
  {
    if frac.Some? {
      PlainFraction(ab, frac.value);
    } else {
      PlainWhole(ab);
    }
  }

  lemma {:induction false} CoerceText(t: string, x: real)
    requires ParseNumber(Delocalise(t)) == Some(x)
    ensures CoerceNumeric(Str(t)) == Num(x)
  {
  }

  /**
   * A number written as digit groups separated by spaces or NBSPs, with an
   * optional decimal comma tail, is read as the plain decimal:
   * "1 234 567,5" is 1234567.5 and "1 234" is 1234.
   */
  lemma {:induction false} LocaleNumber(groups: seq<string>, seps: seq<char>, frac: Option<string>)
    requires |seps| + 1 == |groups|
    requires forall i :: 0 <= i < |groups| ==> AllDigits(groups[i])
    requires forall i :: 0 <= i < |seps| ==> ThousandsSeparator(seps[i])
    requires frac.Some? ==> AllDigits(frac.value)
    requires |JoinGroups(groups)| > 0
    ensures AllDigits(JoinGroups(groups))
    ensures CoerceNumeric(Str(Grouped(groups, seps) + CommaTail(frac)))
         == Num(DecimalValue(JoinGroups(groups), frac))
  {
    DelocaliseLocale(groups, seps, frac);
    var ab := JoinGroups(groups);
    PlainValue(ab, frac);
    CoerceText(Grouped(groups, seps) + CommaTail(frac), DecimalValue(ab, frac));
  }

  lemma {:induction false} ExampleText()
    ensures Grouped(["1", "234", "567"], [' ', ' ']) + CommaTail(Some("5")) == "1 234 567,5"
  {
    var groups, seps := ["1", "234", "567"], [' ', ' '];
    assert groups[..2] == ["1", "234"] && seps[..1] == [' '];
    assert groups[..2][..1] == ["1"] && seps[..1][..0] == [];
    assert Grouped(["1"], []) == "1";
    assert Grouped(["1", "234"], [' ']) == "1 234";
  }

  lemma {:induction false} ExampleJoin()
    ensures JoinGroups(["1", "234", "567"]) == "1234567"
  {
    var groups := ["1", "234", "567"];
    assert groups[..2] == ["1", "234"] && groups[..2][..1] == ["1"] && groups[..2][..1][..0] == [];
    assert JoinGroups(["1"]) == "1";
    assert JoinGroups(["1", "234"]) == "1234";
  }

  lemma {:induction false} ExampleDigits()
    ensures DigitsValue("1234567") == 1234567
  {
    assert "1234567"[..6] == "123456" && "123456"[..5] == "12345" && "12345"[..4] == "1234";
    assert "1234"[..3] == "123" && "123"[..2] == "12" && "12"[..1] == "1" && "1"[..0] == "";
  }

  /** The motivating case: "1 234 567,5" reads as 1234567.5. */
  lemma {:induction false} LocaleNumberExample()
    ensures CoerceNumeric(Str("1 234 567,5")) == Num(1234567.5)
  {
    var groups, seps := ["1", "234", "567"], [' ', ' '];
    ExampleText();
    ExampleJoin();
    ExampleDigits();
    assert AllDigits("1") && AllDigits("234") && AllDigits("567") && AllDigits("5");
    assert forall i :: 0 <= i < |groups| ==> AllDigits(groups[i]);
    assert forall i :: 0 <= i < |seps| ==> ThousandsSeparator(seps[i]);
    assert DecimalValue("1234567", Some("5")) == 1234567.5 by {
      assert "5"[1..] == "" && FractionValue("5") == 0.5;
    }
    LocaleNumber(groups, seps, Some("5"));
  }

  lemma {:induction false} FindAnyNone(s: string, cs: string)
    requires forall i :: 0 <= i < |s| ==> s[i] !in cs
    ensures FindAny(s, cs) == |s|
  {
    if s != [] {
      FindAnyNone(s[1..], cs);
    }
  }

  lemma {:induction false} FindAnyFirst(s: string, cs: string, k: nat)
    requires k < |s| && s[k] in cs
    requires forall i :: 0 <= i < k ==> s[i] !in cs
    ensures FindAny(s, cs) == k
  {
    if k > 0 {
      FindAnyFirst(s[1..], cs, k - 1);
    }
  }
}
