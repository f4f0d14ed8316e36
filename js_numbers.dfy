/**
 * The JavaScript number conversions the forecast engine relies on, on exact
 * reals: `parseFloat` (ECMAScript section 21.1.2.12), `Number.prototype.toFixed(2)`
 * read back as a number (section 21.1.3.3), and the decimal rendering of a
 * natural number used in template strings.
 */
module JsNumbers {
  import opened Wrappers

  predicate IsDigit(c: char) { '0' <= c <= '9' }

  predicate AllDigits(s: string) { forall i :: 0 <= i < |s| ==> IsDigit(s[i]) }

  function DigitValue(c: char): (d: nat)
    requires IsDigit(c)
    ensures d < 10
  {
    c as int - '0' as int
  }

  function DigitChar(d: nat): (c: char)
    requires d < 10
    ensures IsDigit(c) && DigitValue(c) == d
  {
    ('0' as int + d) as char
  }

  /** Value of a digit string, most significant digit first. */
  function DigitsValue(s: string): nat
    requires AllDigits(s)
    decreases |s|
  {
    if s == [] then 0 else 10 * DigitsValue(s[..|s| - 1]) + DigitValue(s[|s| - 1])
  }

  /** Value of the digits after a decimal point. */
  function FractionValue(s: string): (r: real)
    requires AllDigits(s)
    ensures 0.0 <= r < 1.0
    decreases |s|
  {
    if s == [] then 0.0 else (DigitValue(s[0]) as real + FractionValue(s[1..])) / 10.0
  }

  function Pow(x: real, k: nat): (r: real)
    ensures x > 0.0 ==> r > 0.0
    ensures x >= 1.0 ==> r >= 1.0
  {
    if k == 0 then 1.0 else x * Pow(x, k - 1)
  }

  function Pow10(e: int): (r: real)
    ensures r > 0.0
  {
    if e >= 0 then Pow(10.0, e) else 1.0 / Pow(10.0, -e)
  }

  /** Decimal rendering of a natural number, as `${n}` produces it. */
  function NatToString(n: nat): (s: string)
    ensures |s| > 0 && AllDigits(s)
    ensures n > 0 ==> s[0] != '0'
  {
    if n < 10 then [DigitChar(n)] else NatToString(n / 10) + [DigitChar(n % 10)]
  }

  // ---------------------------------------------------------------------------
  // parseFloat

  /** WhiteSpace and LineTerminator code points, which parseFloat skips first. */
  predicate IsJsWhitespace(c: char) {
    c == '\t' || c == '\n' || c == '\U{000B}' || c == '\U{000C}' || c == '\r' || c == ' '
    || c == '\U{00A0}' || c == '\U{1680}' || ('\U{2000}' <= c <= '\U{200A}')
    || c == '\U{2028}' || c == '\U{2029}' || c == '\U{202F}' || c == '\U{205F}'
    || c == '\U{3000}' || c == '\U{FEFF}'
  }

  /** `s` without its leading white space. */
  function TrimStart(s: string): (t: string)
    ensures |t| <= |s|
    ensures t != [] ==> !IsJsWhitespace(t[0])
  {
    if s != [] && IsJsWhitespace(s[0]) then TrimStart(s[1..]) else s
  }

  /** Length of the run of decimal digits at the start of `s`. */
  function DigitRun(s: string): (n: nat)
    ensures n <= |s|
    ensures forall i :: 0 <= i < n ==> IsDigit(s[i])
    ensures n < |s| ==> !IsDigit(s[n])
  {
    if s != [] && IsDigit(s[0]) then 1 + DigitRun(s[1..]) else 0
  }

  /** An optional sign split off the front: whether it was `-`, and the rest. */
  function SplitSign(t: string): (bool, string)
  {
    if |t| > 0 && (t[0] == '-' || t[0] == '+') then (t[0] == '-', t[1..]) else (false, t)
  }

  /** The pieces of the longest prefix that is a decimal literal. */
  datatype Numeral = Numeral(negative: bool, whole: string, fraction: string, exponent: int)

  /** Value of an optional ExponentPart at the start of `s`; 0 when there is none. */
  function ExponentOf(s: string): int
  {
    if |s| > 0 && (s[0] == 'e' || s[0] == 'E') then
      var (negative, u) := SplitSign(s[1..]);
      var d := DigitRun(u);
      if d == 0 then 0 else if negative then -(DigitsValue(u[..d]) as int) else DigitsValue(u[..d])
    else 0
  }

  /** The leading digits of `s`: its longest prefix made of digits only. */
  function LeadingDigits(s: string): (p: string)
    ensures AllDigits(p) && p <= s
    ensures |p| < |s| ==> !IsDigit(s[|p|])
  {
    s[..DigitRun(s)]
  }

  /**
   * The longest prefix of `s`, after leading white space, of the form
   * [sign] digits [. [digits]] [exponent] or [sign] . digits [exponent].
   */
  function ScanNumeral(s: string): (r: Option<Numeral>)
    ensures r.Some? ==> AllDigits(r.value.whole) && AllDigits(r.value.fraction)
    ensures r.Some? ==> |r.value.whole| + |r.value.fraction| > 0
  {
    var (negative, u) := SplitSign(TrimStart(s));
    var whole := LeadingDigits(u);
    var afterWhole := u[|whole|..];
    if |afterWhole| > 0 && afterWhole[0] == '.' then
      var fraction := LeadingDigits(afterWhole[1..]);
      if |whole| + |fraction| == 0 then None
      else Some(Numeral(negative, whole, fraction, ExponentOf(afterWhole[1 + |fraction|..])))
    else if |whole| == 0 then None
    else Some(Numeral(negative, whole, [], ExponentOf(afterWhole)))
  }

  function NumeralValue(n: Numeral): real
    requires AllDigits(n.whole) && AllDigits(n.fraction)
  {
    (if n.negative then -1.0 else 1.0)
      * (DigitsValue(n.whole) as real + FractionValue(n.fraction)) * Pow10(n.exponent)
  }

  /** `parseFloat(s)`: None stands for NaN. */
  function ParseFloat(s: string): Option<real>
  {
    match ScanNumeral(s)
    case None => None
    case Some(n) => Some(NumeralValue(n))
  }

  /** What parseFloat needs to see after white space and sign: a digit, or a point and a digit. */
  predicate StartsNumeral(u: string)
  {
    |u| > 0 && (IsDigit(u[0]) || (u[0] == '.' && |u| > 1 && IsDigit(u[1])))
  }

  // ---------------------------------------------------------------------------
  // toFixed(2)

  /** Above this magnitude toFixed prints the number unchanged. */
  const FixedLimit: real := 1000000000000000000000.0

  /** Nearest multiple of 0.01 to a non-negative `m`, ties to the larger one. */
  function RoundCents(m: real): (r: real)
    requires m >= 0.0
    ensures 0.0 <= r && m - 0.005 < r <= m + 0.005
    ensures (r * 100.0).Floor as real == r * 100.0
  {
    (m * 100.0 + 0.5).Floor as real / 100.0
  }

  /** `parseFloat(x.toFixed(2))`: the sign is set aside and the magnitude rounded. */
  function ToFixed2(x: real): (r: real)
    ensures x - 0.005 <= r <= x + 0.005
    ensures (x >= 0.0 ==> r >= 0.0) && (x <= 0.0 ==> r <= 0.0)
    ensures -FixedLimit < x < FixedLimit ==> (r * 100.0).Floor as real == r * 100.0
  {
    if x < 0.0 then
      var m := FixedMagnitude(-x);
      assert -FixedLimit < x ==> ((-m) * 100.0).Floor as real == (-m) * 100.0 by {
        if -FixedLimit < x {
          NegatedCents(m);
        }
      }
      -m
    else FixedMagnitude(x)
  }

  /** A whole number of cents stays one when negated. */
  lemma NegatedCents(m: real)
    requires (m * 100.0).Floor as real == m * 100.0
    ensures ((-m) * 100.0).Floor as real == (-m) * 100.0
  {
    var k := (m * 100.0).Floor;
    assert (-m) * 100.0 == (-k) as real;
  }

  function FixedMagnitude(m: real): (r: real)
    requires m >= 0.0
    ensures 0.0 <= r && m - 0.005 < r <= m + 0.005
    ensures m < FixedLimit ==> (r * 100.0).Floor as real == r * 100.0
  {
    if m >= FixedLimit then m else RoundCents(m)
  }

  // ---------------------------------------------------------------------------
  // Properties

  /** The rendering of `n` reads back as `n`. */
  lemma {:induction false} NatToStringValue(n: nat)
    ensures DigitsValue(NatToString(n)) == n
  {
    if n >= 10 {
      var s := NatToString(n);
      assert s[..|s| - 1] == NatToString(n / 10);
      NatToStringValue(n / 10);
    }
  }

  /** Distinct numbers have distinct renderings. */
  lemma NatToStringInjective(a: nat, b: nat)
    ensures NatToString(a) == NatToString(b) ==> a == b
  {
    NatToStringValue(a);
    NatToStringValue(b);
  }

  /** Trimming removes a prefix of white space and keeps the rest as it is. */
  lemma {:induction false} TrimStartDropsWhitespace(s: string)
    ensures s[|s| - |TrimStart(s)|..] == TrimStart(s)
    ensures forall i :: 0 <= i < |s| - |TrimStart(s)| ==> IsJsWhitespace(s[i])
    decreases |s|
  {
    if s != [] && IsJsWhitespace(s[0]) {
      TrimStartDropsWhitespace(s[1..]);
      assert s[1..][|s| - 1 - |TrimStart(s)|..] == s[|s| - |TrimStart(s)|..];
      assert forall i :: 1 <= i < |s| - |TrimStart(s)| ==> s[i] == s[1..][i - 1];
    }
  }

  lemma {:induction false} DigitRunAll(s: string)
    requires AllDigits(s)
    ensures DigitRun(s) == |s|
    decreases |s|
  {
    if s != [] {
      DigitRunAll(s[1..]);
    }
  }

  /** A digit string without sign or white space scans as a whole number with no exponent. */
  lemma ScanDigits(s: string)
    requires |s| > 0 && AllDigits(s)
    ensures ScanNumeral(s) == Some(Numeral(false, s, [], 0))
  {
    assert !IsJsWhitespace(s[0]);
    assert TrimStart(s) == s;
    assert SplitSign(s) == (false, s);
    DigitRunAll(s);
    assert LeadingDigits(s) == s;
    assert s[|s|..] == [];
  }

  /** parseFloat reads a plain digit string as its decimal value. */
  lemma {:induction false} ParseFloatDigits(s: string)
    requires |s| > 0 && AllDigits(s)
    ensures ParseFloat(s) == Some(DigitsValue(s) as real)
  {
    var n := Numeral(false, s, [], 0);
    assert ScanNumeral(s) == Some(n) by {
      ScanDigits(s);
    }
    assert NumeralValue(n) == DigitsValue(s) as real by {
      assert FractionValue([]) == 0.0;
      assert Pow10(0) == 1.0;
    }
  }

  /** parseFloat reads the rendering of a natural number back as that number. */
  lemma ParseFloatNat(n: nat)
    ensures ParseFloat(NatToString(n)) == Some(n as real)
  {
    ParseFloatDigits(NatToString(n));
    NatToStringValue(n);
  }

  lemma ScanNegatedDigits(d: string)
    requires |d| > 0 && AllDigits(d)
    ensures ScanNumeral("-" + d) == Some(Numeral(true, d, [], 0))
  {
    var s := "-" + d;
    assert !IsJsWhitespace(s[0]);
    assert TrimStart(s) == s;
    assert s[1..] == d;
    assert SplitSign(s) == (true, d);
    DigitRunAll(d);
    assert LeadingDigits(d) == d;
    assert d[|d|..] == [];
  }

  /** A leading minus sign negates what follows. */
  lemma ParseFloatNegatedNat(n: nat)
    ensures ParseFloat("-" + NatToString(n)) == Some(-(n as real))
  {
    var d := NatToString(n);
    ScanNegatedDigits(d);
    NatToStringValue(n);
    assert FractionValue([]) == 0.0;
    assert Pow10(0) == 1.0;
    assert NumeralValue(Numeral(true, d, [], 0)) == -1.0 * (n as real + 0.0) * 1.0;
  }

  /** parseFloat yields a number exactly when a digit, or a point and a digit, follows the white space and sign. */
  lemma ParseFloatDefined(s: string)
    ensures ParseFloat(s).Some? <==> StartsNumeral(SplitSign(TrimStart(s)).1)
  {
    var u := SplitSign(TrimStart(s)).1;
    var whole := LeadingDigits(u);
    if |whole| == 0 && |u| > 1 && u[0] == '.' {
      assert u[|whole|..] == u;
      assert |LeadingDigits(u[1..])| > 0 <==> IsDigit(u[1]);
    }
  }

  lemma {:induction false} PowMonotone(x: real, j: nat, k: nat)
    requires x >= 1.0 && j <= k
    ensures Pow(x, j) <= Pow(x, k)
    decreases k
  {
    if j < k {
      PowMonotone(x, j, k - 1);
      assert Pow(x, k) == x * Pow(x, k - 1);
    }
  }

  lemma FixedMagnitudeMonotone(a: real, b: real)
    requires 0.0 <= a <= b
    ensures FixedMagnitude(a) <= FixedMagnitude(b)
  {
    if b < FixedLimit {
      assert (a * 100.0 + 0.5).Floor <= (b * 100.0 + 0.5).Floor;
    } else if a < FixedLimit {
      assert (a * 100.0 + 0.5).Floor <= 100000000000000000000000;
    }
  }

  /** Rounding to cents never reverses the order of two numbers. */
  lemma ToFixed2Monotone(x: real, y: real)
    requires x <= y
    ensures ToFixed2(x) <= ToFixed2(y)
  {
    if 0.0 <= x {
      FixedMagnitudeMonotone(x, y);
    } else if y < 0.0 {
      FixedMagnitudeMonotone(-y, -x);
    }
  }

  /** Rounding is symmetric about zero and fixes zero. */
  lemma ToFixed2Symmetric(x: real)
    ensures ToFixed2(-x) == -ToFixed2(x)
    ensures ToFixed2(0.0) == 0.0
  {
  }
}
