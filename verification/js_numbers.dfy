/**
  JavaScript numbers as the highlighter uses them: a finite value or NaN
  (the global `Number` conversion of a string, the ordered comparisons that
  are false whenever NaN is involved, `Math.floor` and the truncating `%`).
*/
module JsNumbers {
  import opened JsText

  /** A finite double, idealised as a real, or NaN. */
  datatype JsNumber = Num(value: real) | NaN

  function Pow10(n: nat): (r: nat)
    ensures r >= 1
  {
    if n == 0 then 1 else 10 * Pow10(n - 1)
  }

  /**
    `Number(s)` for strings made of decimal digits and at most one point:
    the empty string is 0, `"5"`, `"5."`, `".5"` and `"5.60"` are numbers,
    anything else (a second point, a lone point, any other character) is NaN.
  */
  function ParseNumber(s: string): (r: JsNumber)
    ensures s == "" ==> r == Num(0.0)
    ensures r.Num? ==> r.value >= 0.0
  {
    if s == "" then Num(0.0)
    else
      var parts := Split(s, '.');
      if |parts| == 1 then
        if AllDigits(s) then Num(DigitsValue(s) as real) else NaN
      else if |parts| == 2 && AllDigits(parts[0]) && AllDigits(parts[1]) && |parts[0]| + |parts[1]| > 0 then
        Num(DigitsValue(parts[0]) as real + DigitsValue(parts[1]) as real / Pow10(|parts[1]|) as real)
      else NaN
  }

  lemma DigitsHaveNoPoint(s: string)
    requires AllDigits(s)
    ensures '.' !in s && multiset(s)['.'] == 0
  {
    assert forall i :: 0 <= i < |s| ==> s[i] != '.' by {
      forall i | 0 <= i < |s| ensures s[i] != '.' {
        assert IsDigit(s[i]);
      }
    }
  }

  /** Only digits and points can make a number: any other character gives NaN. */
  lemma {:induction false} NumberOnlyFromDigitsAndPoint(s: string)
    ensures ParseNumber(s).Num? ==> forall i :: 0 <= i < |s| ==> IsDigit(s[i]) || s[i] == '.'
  {
    var parts := Split(s, '.');
    JoinSplit(s, '.');
    if s != "" && |parts| == 2 && AllDigits(parts[0]) && AllDigits(parts[1]) {
      assert s == parts[0] + ['.'] + parts[1];
      forall i | 0 <= i < |s| ensures IsDigit(s[i]) || s[i] == '.' {
        if i < |parts[0]| {
          assert s[i] == parts[0][i];
        } else if i > |parts[0]| {
          assert s[i] == parts[1][i - |parts[0]| - 1];
        }
      }
    }
  }

  /** `Number` reads back what `toString` writes for a non-negative integer. */
  lemma NumberOfNatToString(n: nat)
    ensures ParseNumber(NatToString(n)) == Num(n as real)
  {
    DigitsHaveNoPoint(NatToString(n));
    DigitsOfNatToString(n);
  }

  /** A decimal literal `ip.fp` is read as integer part plus scaled fraction. */
  lemma NumberOfDecimal(ip: string, fp: string)
    requires AllDigits(ip) && AllDigits(fp) && |ip| + |fp| > 0
    ensures ParseNumber(ip + ['.'] + fp) ==
            Num(DigitsValue(ip) as real + DigitsValue(fp) as real / Pow10(|fp|) as real)
  {
    var s := ip + ['.'] + fp;
    DigitsHaveNoPoint(ip);
    DigitsHaveNoPoint(fp);
    assert Join([ip, fp], '.') == s by {
      assert [ip, fp][1..] == [fp];
    }
    SplitJoin([ip, fp], '.');
    NumberOfTwoParts(s, ip, fp);
  }

  lemma NumberOfTwoParts(s: string, ip: string, fp: string)
    requires Split(s, '.') == [ip, fp] && s != ""
    requires AllDigits(ip) && AllDigits(fp) && |ip| + |fp| > 0
    ensures ParseNumber(s) == Num(DigitsValue(ip) as real + DigitsValue(fp) as real / Pow10(|fp|) as real)
  {
  }

  /** `Math.floor`. */
  function Floor(x: real): (f: int)
    ensures f as real <= x < f as real + 1.0
  {
    x.Floor
  }

  /** Truncation toward zero, as the `%` operator of JavaScript uses it. */
  function Trunc(x: real): (t: int)
    ensures x >= 0.0 ==> 0.0 <= t as real <= x < t as real + 1.0
    ensures x < 0.0 ==> t as real - 1.0 < x <= t as real <= 0.0
  {
    if x >= 0.0 then x.Floor else -((-x).Floor)
  }

  /**
    `x % m` of JavaScript: `x` minus a whole multiple of `m`, carrying the
    sign of `x` (the dividend), not of `m`, and smaller than `m` in
    magnitude. Together these fix the value.
  */
  function Rem(x: real, m: real): (r: real)
    requires m != 0.0
    ensures exists k: int :: x - r == Multiple(k, m)
    ensures m > 0.0 && x >= 0.0 ==> 0.0 <= r < m
    ensures m > 0.0 && x < 0.0 ==> -m < r <= 0.0
  {
    var q := Trunc(x / m);
    var r := x - m * q as real;
    assert x - r == Multiple(q, m);
    if m > 0.0 && x >= 0.0 then
      QuotientBelow(x, m, q as real);
      r
    else if m > 0.0 then
      QuotientAbove(x, m, q as real);
      r
    else
      r
  }

  /** The `k`-th whole multiple of `m`. */
  function Multiple(k: int, m: real): real {
    k as real * m
  }

  /** Multiplying `q <= x / m < q + 1` through by a positive `m`. */
  lemma QuotientBelow(x: real, m: real, q: real)
    requires m > 0.0 && q <= x / m < q + 1.0
    ensures q * m <= x
    ensures x < q * m + m
  {
    var y := x / m;
    assert y * m == x;
    var a := y - q;
    SignOfProduct(a, m);
    assert a * m == y * m - q * m;
    var b := q + 1.0 - y;
    SignOfProduct(b, m);
    assert b * m == q * m + m - y * m;
    assert q * m + m - x > 0.0;
  }

  /** Multiplying `q - 1 < x / m <= q` through by a positive `m`. */
  lemma QuotientAbove(x: real, m: real, q: real)
    requires m > 0.0 && q - 1.0 < x / m <= q
    ensures q * m - m < x
    ensures x <= q * m
  {
    var y := x / m;
    assert y * m == x;
    var a := q - y;
    SignOfProduct(a, m);
    assert a * m == q * m - y * m;
    var b := y - q + 1.0;
    SignOfProduct(b, m);
    assert b * m == y * m - q * m + m;
    assert x - q * m + m > 0.0;
  }

  lemma SignOfProduct(a: real, m: real)
    requires m > 0.0
    ensures a >= 0.0 ==> a * m >= 0.0
    ensures a > 0.0 ==> a * m > 0.0
  {
  }

  /** A negative dividend gives a negative remainder: `-65 % 60` is `-5`, not `55`. */
  lemma RemTakesSignOfDividend()
    ensures Rem(-65.0, 60.0) == -5.0
  {
    assert Trunc(-65.0 / 60.0) == -1;
  }

  /** `t >= b` with a number on the left: false whenever `b` is NaN. */
  predicate AtLeast(t: real, b: JsNumber) {
    b.Num? && t >= b.value
  }

  /** `t < b` with a number on the left: false whenever `b` is NaN. */
  predicate Below(t: real, b: JsNumber) {
    b.Num? && t < b.value
  }
}
