/** JavaScript's `parseFloat`, as monitor.js uses it: the longest prefix of
    the (left-trimmed) text that is a decimal literal, read as an exact
    rational number. `None` stands for NaN. */
module PriceParsing {
  import opened Wrappers
  import opened JsText

  function Pow10(n: nat): (r: nat)
    ensures r >= 1
  {
    if n == 0 then 1 else 10 * Pow10(n - 1)
  }

  predicate AllDigits(s: string) {
    forall k :: 0 <= k < |s| ==> IsDigit(s[k])
  }

  /** The value of a string of decimal digits, most significant first. */
  function DigitsValue(ds: string): (v: nat)
    requires AllDigits(ds)
    ensures v < Pow10(|ds|)
  {
    if ds == [] then 0
    else 10 * DigitsValue(ds[..|ds| - 1]) + (ds[|ds| - 1] as int - '0' as int)
  }

  /** `10^e` for an exponent of either sign. */
  function Scale(e: int): (r: real)
    ensures r > 0.0
  {
    if e >= 0 then Pow10(e) as real else 1.0 / Pow10(-e) as real
  }

  /** The value of `int.frac`, with either part possibly empty. */
  function Mantissa(intPart: string, fracPart: string): (m: real)
    requires AllDigits(intPart) && AllDigits(fracPart)
    ensures 0.0 <= m
    ensures DigitsValue(intPart) as real <= m < DigitsValue(intPart) as real + 1.0
  {
    var frac := DigitsValue(fracPart) as real / Pow10(|fracPart|) as real;
    FractionBelowOne(DigitsValue(fracPart) as real, Pow10(|fracPart|) as real);
    DigitsValue(intPart) as real + frac
  }

  /** `m * 10^e` */
  function Scaled(m: real, e: int): (r: real)
    requires 0.0 <= m
    ensures 0.0 <= r
    ensures e == 0 ==> r == m
  {
    ProductNonNegative(m, Scale(e));
    m * Scale(e)
  }

  lemma ProductNonNegative(x: real, y: real)
    requires 0.0 <= x && 0.0 <= y
    ensures 0.0 <= x * y
  {
  }

  lemma FractionBelowOne(x: real, d: real)
    requires 0.0 <= x < d
    ensures 0.0 <= x / d < 1.0
  {
  }

  predicate IsSign(c: char) {
    c == '+' || c == '-'
  }

  /** The optional exponent part `(e|E)(+|-)?digits` at `j`: where it ends and
      its value; `(j, 0)` when there is none (a bare `e` is not consumed). */
  function ExponentAt(t: string, j: nat): (r: (nat, int))
    requires j <= |t|
    ensures j <= r.0 <= |t|
    ensures r.0 == j ==> r.1 == 0
  {
    if j < |t| && (t[j] == 'e' || t[j] == 'E') then
      var k := if j + 1 < |t| && IsSign(t[j + 1]) then j + 2 else j + 1;
      var d := RunEnd(t, k, IsDigit);
      if d == k then (j, 0)
      else
        var v: int := DigitsValue(t[k..d]);
        (d, if t[j + 1] == '-' then -v else v)
    else (j, 0)
  }

  /** The text, once leading whitespace is gone, begins a decimal literal:
      an optional sign, then a digit, or a point followed by a digit. */
  ghost predicate StartsNumber(t: string) {
    var p := if |t| > 0 && IsSign(t[0]) then 1 else 0;
    || (p < |t| && IsDigit(t[p]))
    || (p + 1 < |t| && t[p] == '.' && IsDigit(t[p + 1]))
  }

  /** The parts of the longest decimal literal at the start of a text. */
  datatype Literal = Literal(neg: bool, intPart: string, fracPart: string, exponent: int)

  /** The longest decimal literal `(+|-)?digits(.digits)?(exponent)?` at the
      start of `t`, if there is one with at least one digit before the
      exponent. */
  function ScanLiteral(t: string): (r: Option<Literal>)
    ensures r.Some? <==> StartsNumber(t)
    ensures r.Some? ==> AllDigits(r.value.intPart) && AllDigits(r.value.fracPart)
    ensures r.Some? && r.value.neg ==> t[0] == '-'
  {
    var p := if |t| > 0 && IsSign(t[0]) then 1 else 0;
    var intEnd := RunEnd(t, p, IsDigit);
    var dot := intEnd < |t| && t[intEnd] == '.';
    var fracEnd := if dot then RunEnd(t, intEnd + 1, IsDigit) else intEnd;
    var intPart := t[p..intEnd];
    var fracPart := if dot then t[intEnd + 1..fracEnd] else "";
    assert |intPart| > 0 <==> p < |t| && IsDigit(t[p]);
    assert |intPart| == 0 ==> (|fracPart| > 0 <==> p + 1 < |t| && t[p] == '.' && IsDigit(t[p + 1]));
    if |intPart| + |fracPart| == 0 then None
    else Some(Literal(p == 1 && t[0] == '-', intPart, fracPart, ExponentAt(t, fracEnd).1))
  }

  /** `parseFloat(s)`: `None` is NaN. */
  function ParseFloat(s: string): (r: Option<real>)
    ensures r.Some? <==> StartsNumber(TrimStart(s))
    ensures r.Some? && (forall k :: 0 <= k < |s| ==> s[k] != '-') ==> r.value >= 0.0
  {
    var t := TrimStart(s);
    match ScanLiteral(t)
    case None => None
    case Some(lit) =>
      var m := Scaled(Mantissa(lit.intPart, lit.fracPart), lit.exponent);
      assert lit.neg ==> s[|s| - |t|] == '-';
      Some(if lit.neg then -m else m)
  }

  /** `int.frac` followed by anything that cannot continue the literal reads as
      exactly `int + frac / 10^|frac|`: the trailing text is ignored. */
  lemma ParseDecimal(intPart: string, fracPart: string, rest: string)
    requires AllDigits(intPart) && AllDigits(fracPart)
    requires |intPart| + |fracPart| > 0
    requires rest == [] || (!IsDigit(rest[0]) && rest[0] != 'e' && rest[0] != 'E')
    ensures ParseFloat(intPart + "." + fracPart + rest) == Some(Mantissa(intPart, fracPart))
  {
    var t := intPart + "." + fracPart + rest;
    ScanDecimal(intPart, fracPart, rest);
    assert ParseFloat(t) == Some(Scaled(Mantissa(intPart, fracPart), 0));
  }

  lemma ScanDecimal(intPart: string, fracPart: string, rest: string)
    requires AllDigits(intPart) && AllDigits(fracPart)
    requires |intPart| + |fracPart| > 0
    requires rest == [] || (!IsDigit(rest[0]) && rest[0] != 'e' && rest[0] != 'E')
    ensures var t := intPart + "." + fracPart + rest;
            TrimStart(t) == t && ScanLiteral(t) == Some(Literal(false, intPart, fracPart, 0))
  {
    var t := intPart + "." + fracPart + rest;
    var i := |intPart|;
    var f := i + 1 + |fracPart|;
    assert t[i] == '.';
    assert !IsWhitespace(t[0]) && !IsSign(t[0]);
    assert TrimStart(t) == t;
    RunEndUnique(t, 0, i, IsDigit);
    RunEndUnique(t, i + 1, f, IsDigit);
    assert t[0..i] == intPart;
    assert t[i + 1..f] == fracPart;
    assert ExponentAt(t, f) == (f, 0);
  }

  /** A run of digits followed by anything that cannot continue the literal
      reads as the integer the digits spell. */
  lemma ParseInteger(intPart: string, rest: string)
    requires AllDigits(intPart) && |intPart| > 0
    requires rest == [] || (!IsDigit(rest[0]) && rest[0] != '.' && rest[0] != 'e' && rest[0] != 'E')
    ensures ParseFloat(intPart + rest) == Some(DigitsValue(intPart) as real)
  {
    ScanInteger(intPart, rest);
    assert ParseFloat(intPart + rest) == Some(Scaled(Mantissa(intPart, ""), 0));
    MantissaOfWhole(intPart);
  }

  lemma ScanInteger(intPart: string, rest: string)
    requires AllDigits(intPart) && |intPart| > 0
    requires rest == [] || (!IsDigit(rest[0]) && rest[0] != '.' && rest[0] != 'e' && rest[0] != 'E')
    ensures var t := intPart + rest;
            TrimStart(t) == t && ScanLiteral(t) == Some(Literal(false, intPart, "", 0))
  {
    var t := intPart + rest;
    var i := |intPart|;
    assert t[0] == intPart[0];
    assert !IsWhitespace(t[0]);
    assert TrimStart(t) == t;
    assert t[..i] == intPart;
    assert forall k :: 0 <= k < i ==> t[k] == intPart[k];
    assert i < |t| ==> t[i] == rest[0];
    ScanWhole(t, i);
  }

  /** A text whose first `i` characters are digits, followed by nothing that
      can continue a literal, scans as the integer literal of those digits. */
  lemma ScanWhole(t: string, i: nat)
    requires 0 < i <= |t| && forall k :: 0 <= k < i ==> IsDigit(t[k])
    requires i == |t| || (!IsDigit(t[i]) && t[i] != '.' && t[i] != 'e' && t[i] != 'E')
    ensures ScanLiteral(t) == Some(Literal(false, t[..i], "", 0))
  {
    assert !IsSign(t[0]);
    RunEndUnique(t, 0, i, IsDigit);
    assert t[0..i] == t[..i];
    assert ExponentAt(t, i) == (i, 0);
  }

  lemma MantissaOfWhole(intPart: string)
    requires AllDigits(intPart)
    ensures Mantissa(intPart, "") == DigitsValue(intPart) as real
  {
    assert DigitsValue("") == 0 && Pow10(0) == 1;
  }
}
