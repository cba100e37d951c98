/** The parts of JavaScript's number semantics the core relies on: the
    `Number(string)` conversion (StringToNumber of ECMA-262, section 7.1.4.1.1),
    `Number.isFinite`, and whitespace as matched by `trim()` and `/\s/`.
    Finite values are exact reals: IEEE-754 rounding is not modelled, but the
    overflow of a literal to Infinity is. */
module JsNumber {
  import opened Wrappers
  import opened Digits

  /** A JavaScript number: finite, NaN, or an infinity. */
  datatype Num = Finite(value: real) | NaN | Infinity(negative: bool)

  /** Magnitudes at or above 2^1024 - 2^970 round to Infinity in binary64. */
  const OverflowMagnitude: real := 179769313486231580793728971405303415079934132710037826936173778980444968292764750946649017977587207096330286416692887910946555547851940402630657488671505820681908902000708383676273854845817711531764475730270069855571366959622842914819860834936475292719074168444365510704342711559699508093042880177904174497792.0

  /** WhiteSpace and LineTerminator code points (ECMA-262, sections 12.2 and 12.3):
      what `trim()` strips and what `/\s/` matches. */
  predicate IsSpace(c: char) {
    var k := c as int;
    (0x09 <= k <= 0x0D) || k == 0x20 || k == 0xA0 || k == 0x1680 || (0x2000 <= k <= 0x200A)
    || k == 0x2028 || k == 0x2029 || k == 0x202F || k == 0x205F || k == 0x3000 || k == 0xFEFF
  }

  predicate NotSpace(c: char) {
    !IsSpace(c)
  }

  /** Index of the first element satisfying `p`, or |s| when there is none. */
  function FirstIndex(s: string, p: char -> bool): (n: nat)
    ensures n <= |s|
    ensures forall k :: 0 <= k < n ==> !p(s[k])
    ensures n < |s| ==> p(s[n])
  {
    if |s| == 0 then 0
    else if p(s[0]) then 0
    else 1 + FirstIndex(s[1..], p)
  }

  /** The first index is the one before which nothing satisfies `p`. */
  lemma {:induction false} FirstIndexAt(s: string, p: char -> bool, i: nat)
    requires i <= |s| && (i < |s| ==> p(s[i]))
    requires forall k :: 0 <= k < i ==> !p(s[k])
    ensures FirstIndex(s, p) == i
  {
    if i > 0 {
      assert !p(s[0]);
      FirstIndexAt(s[1..], p, i - 1);
    }
  }

  /** Number of trailing elements satisfying `p`. */
  function TrailingCount(s: string, p: char -> bool): (n: nat)
    ensures n <= |s|
    ensures forall k :: |s| - n <= k < |s| ==> p(s[k])
    ensures n < |s| ==> !p(s[|s| - n - 1])
  {
    if |s| == 0 then 0
    else if p(s[|s| - 1]) then 1 + TrailingCount(s[..|s| - 1], p)
    else 0
  }

  /** `String.prototype.trim`: the input without leading and trailing whitespace. */
  function Trim(s: string): (r: string)
    ensures |r| <= |s|
    ensures r == [] || (NotSpace(r[0]) && NotSpace(r[|r| - 1]))
  {
    var i := FirstIndex(s, NotSpace);
    var t := s[i..];
    var n := TrailingCount(t, IsSpace);
    var r := s[i..|s| - n];
    assert r != [] ==> r[0] == s[i] && r[|r| - 1] == t[|t| - n - 1];
    r
  }

  /** What `trim()` removes is whitespace at either end and nothing else. */
  lemma TrimParts(s: string) returns (i: nat, j: nat)
    ensures i <= j <= |s| && Trim(s) == s[i..j]
    ensures forall k :: 0 <= k < i ==> IsSpace(s[k])
    ensures forall k :: j <= k < |s| ==> IsSpace(s[k])
  {
    i := FirstIndex(s, NotSpace);
    LeadingSpaces(s, i);
    var n := TrailingCount(s[i..], IsSpace);
    j := |s| - n;
    SpacesAtEnd(s[i..], i, n, s);
  }

  lemma LeadingSpaces(s: string, i: nat)
    requires i == FirstIndex(s, NotSpace)
    ensures forall k :: 0 <= k < i ==> IsSpace(s[k])
  {
    forall k | 0 <= k < i ensures IsSpace(s[k]) {
      assert !NotSpace(s[k]);
    }
  }

  lemma SpacesAtEnd(t: string, i: nat, n: nat, s: string)
    requires i <= |s| && t == s[i..] && n == TrailingCount(t, IsSpace)
    ensures forall k :: |s| - n <= k < |s| ==> IsSpace(s[k])
  {
    forall k | |s| - n <= k < |s| ensures IsSpace(s[k]) {
      assert s[k] == t[k - i];
    }
  }

  /** A string without whitespace is its own trim. */
  lemma TrimOfNoSpace(s: string)
    requires forall k :: 0 <= k < |s| ==> NotSpace(s[k])
    ensures Trim(s) == s
  {
    FirstIndexAt(s, NotSpace, 0);
    assert s[0..] == s;
    if |s| > 0 {
      assert !IsSpace(s[|s| - 1]);
    }
  }

  predicate IsExponentMark(c: char) {
    c == 'e' || c == 'E'
  }

  predicate IsDot(c: char) {
    c == '.'
  }

  /** 10^k for any integer k. */
  function Scale(k: int): (r: real)
    ensures r > 0.0
  {
    if k >= 0 then Pow10(k) as real else 1.0 / Pow10(-k) as real
  }

  /** A non-negative magnitude as binary64 would hold it: Infinity on overflow. */
  function FromMagnitude(v: real): (n: Num)
    requires v >= 0.0
    ensures n.Finite? <==> v < OverflowMagnitude
    ensures n.Finite? ==> n.value == v
    ensures n.Infinity? ==> !n.negative
  {
    if v >= OverflowMagnitude then Infinity(false) else Finite(v)
  }

  /** Unary minus. */
  function Negate(n: Num): Num {
    match n
    case Finite(v) => Finite(-v)
    case NaN => NaN
    case Infinity(neg) => Infinity(!neg)
  }

  /** `n / d` for a positive divisor. */
  function DivideBy(n: Num, d: real): (r: Num)
    requires d > 0.0
    ensures r.Finite? <==> n.Finite?
    ensures r.NaN? <==> n.NaN?
    ensures n.Finite? ==> r.value * d == n.value
  {
    match n
    case Finite(v) => Finite(v / d)
    case NaN => NaN
    case Infinity(neg) => Infinity(neg)
  }

  /** ExponentPart after its 'e': an optional sign, then at least one digit. */
  function ExponentValue(e: string): Option<int> {
    var signed := |e| > 0 && (e[0] == '+' || e[0] == '-');
    var ds := if signed then e[1..] else e;
    if |ds| == 0 || !AllDigits(ds) then None
    else
      var v: int := DigitsValue(ds);
      Some(if signed && e[0] == '-' then -v else v)
  }

  /** The part before any exponent: digits with an optional point and
      fraction, at least one digit on some side of the point. */
  function MantissaValue(m: string): (r: Option<real>)
    ensures r.Some? ==> r.value >= 0.0
  {
    var d := FirstIndex(m, IsDot);
    var whole := m[..d];
    var fraction := if d < |m| then m[d + 1..] else "";
    if AllDigits(whole) && AllDigits(fraction) && (|whole| > 0 || |fraction| > 0)
    then Some(DecimalValue(whole, fraction))
    else None
  }

  /** The value of `whole + "." + fraction` for digit strings. */
  function DecimalValue(whole: string, fraction: string): (r: real)
    requires AllDigits(whole) && AllDigits(fraction)
    ensures DigitsValue(whole) as real <= r < (DigitsValue(whole) + 1) as real
    ensures fraction == "" ==> r == DigitsValue(whole) as real
  {
    DigitsValue(whole) as real + FractionValue(fraction)
  }

  /** The value of the digits after a decimal point. */
  function FractionValue(fraction: string): (r: real)
    requires AllDigits(fraction)
    ensures 0.0 <= r < 1.0
    ensures fraction == "" ==> r == 0.0
  {
    DigitsValueBound(fraction);
    var d := DigitsValue(fraction) as real;
    var p := Pow10(|fraction|) as real;
    assert fraction == "" ==> d == 0.0;
    QuotientBelowOne(d, p);
    d / p
  }

  lemma QuotientBelowOne(d: real, p: real)
    requires 0.0 <= d < p
    ensures 0.0 <= d / p < 1.0
  {
  }

  /** m * 10^k. */
  function Scaled(m: real, k: int): (r: real)
    requires m >= 0.0
    ensures r >= 0.0
    ensures k == 0 ==> r == m
  {
    assert Scale(0) == 1.0;
    m * Scale(k)
  }

  /** StrUnsignedDecimalLiteral other than "Infinity": a mantissa, then an
      optional exponent; anything else is NaN. */
  function UnsignedDecimalValue(u: string): Num {
    var e := FirstIndex(u, IsExponentMark);
    var mantissa := MantissaValue(u[..e]);
    var exponent := if e == |u| then Some(0) else ExponentValue(u[e + 1..]);
    if mantissa.Some? && exponent.Some? then FromMagnitude(Scaled(mantissa.value, exponent.value)) else NaN
  }

  function UnsignedValue(u: string): Num {
    if u == "Infinity" then Infinity(false) else UnsignedDecimalValue(u)
  }

  /** Value of one digit in base 2, 8 or 16 (either letter case), if it is one. */
  function BaseDigit(c: char, base: nat): Option<nat> {
    var d :=
      if '0' <= c <= '9' then c as int - '0' as int
      else if 'a' <= c <= 'f' then c as int - 'a' as int + 10
      else if 'A' <= c <= 'F' then c as int - 'A' as int + 10
      else 16;
    if d < base then Some(d) else None
  }

  predicate AllBaseDigits(s: string, base: nat) {
    forall i :: 0 <= i < |s| ==> BaseDigit(s[i], base).Some?
  }

  function BaseValue(s: string, base: nat): nat
    requires AllBaseDigits(s, base)
  {
    if |s| == 0 then 0 else BaseValue(s[..|s| - 1], base) * base + BaseDigit(s[|s| - 1], base).value
  }

  /** NonDecimalIntegerLiteral after its "0x"/"0o"/"0b" prefix. */
  function BaseIntegerValue(s: string, base: nat): Num {
    if |s| > 0 && AllBaseDigits(s, base) then FromMagnitude(BaseValue(s, base) as real) else NaN
  }

  /** `Number(s)` for a string `s`. */
  function ToNumber(s: string): Num {
    TrimmedNumber(Trim(s))
  }

  /** StringNumericLiteral without its surrounding whitespace: empty is 0,
      then a base prefix, a sign or an unsigned decimal literal. */
  function TrimmedNumber(t: string): Num {
    if |t| == 0 then Finite(0.0)
    else if |t| >= 2 && t[0] == '0' && (t[1] == 'x' || t[1] == 'X') then BaseIntegerValue(t[2..], 16)
    else if |t| >= 2 && t[0] == '0' && (t[1] == 'o' || t[1] == 'O') then BaseIntegerValue(t[2..], 8)
    else if |t| >= 2 && t[0] == '0' && (t[1] == 'b' || t[1] == 'B') then BaseIntegerValue(t[2..], 2)
    else if t[0] == '-' then Negate(UnsignedValue(t[1..]))
    else if t[0] == '+' then UnsignedValue(t[1..])
    else UnsignedValue(t)
  }

  lemma Pow10Fifteen()
    ensures Pow10(15) == 1000000000000000
  {
    assert Pow10(5) == 100000;
    assert Pow10(10) == 10000000000;
  }

  lemma {:induction false} PowMonotone(a: nat, b: nat)
    requires a <= b
    ensures Pow10(a) <= Pow10(b)
  {
    if a < b {
      PowMonotone(a, b - 1);
    }
  }

  /** Below 10^15 there is no overflow. */
  lemma SmallMagnitude(v: real, n: nat)
    requires 0.0 <= v < Pow10(n) as real && n <= 15
    ensures v < OverflowMagnitude
  {
    PowMonotone(n, 15);
    Pow10Fifteen();
  }

  /** `whole + "." + fraction` (or `whole` alone) read as a mantissa. */
  lemma MantissaOfDigits(whole: string, fraction: string, m: string)
    requires AllDigits(whole) && AllDigits(fraction) && |whole| >= 1
    requires m == whole + "." + fraction || (m == whole && fraction == "")
    ensures MantissaValue(m) == Some(DecimalValue(whole, fraction))
  {
    assert FirstIndex(m, IsDot) == |whole| by {
      forall k | 0 <= k < |whole| ensures !IsDot(m[k]) { assert m[k] == whole[k]; }
      if |whole| < |m| {
        assert m[|whole|] == '.';
      }
    }
    assert m[..|whole|] == whole;
    if m != whole {
      assert m[|whole| + 1..] == fraction;
    } else {
      assert DigitsValue(fraction) == 0;
    }
  }

  /** A trimmed string starting with a digit and without a base prefix
      is read as an unsigned literal. */
  lemma UnsignedLiteral(t: string)
    requires |t| >= 1 && IsDigit(t[0])
    requires |t| >= 2 ==> t[1] != 'x' && t[1] != 'X' && t[1] != 'o' && t[1] != 'O' && t[1] != 'b' && t[1] != 'B'
    ensures TrimmedNumber(t) == UnsignedValue(t)
  {
  }

  /** A mantissa that starts with neither a digit nor a point is not one. */
  lemma NoMantissa(m: string)
    requires |m| >= 1 && !IsDigit(m[0]) && m[0] != '.'
    ensures MantissaValue(m).None?
  {
    var d := FirstIndex(m, IsDot);
    assert m[..d][0] == m[0];
  }

  /** A string without white space that starts with anything but a digit,
      a point, a sign, an exponent mark or the "I" of "Infinity" is NaN. */
  lemma NotANumber(t: string)
    requires |t| >= 1 && forall k :: 0 <= k < |t| ==> NotSpace(t[k])
    requires !IsDigit(t[0]) && t[0] != '.' && t[0] != '-' && t[0] != '+'
    requires !IsExponentMark(t[0]) && t[0] != 'I'
    ensures ToNumber(t) == NaN
  {
    TrimOfNoSpace(t);
    assert t != "Infinity" by {
      assert "Infinity"[0] == 'I';
    }
    var e := FirstIndex(t, IsExponentMark);
    NoMantissa(t[..e]);
  }

  /** A string of digits, points and commas that starts with a digit is
      not trimmed, has no prefix, sign or exponent, and is not "Infinity". */
  lemma PlainLiteral(s: string)
    requires |s| >= 1 && IsDigit(s[0])
    requires forall k :: 0 <= k < |s| ==> IsDigit(s[k]) || s[k] == '.' || s[k] == ','
    ensures ToNumber(s) == UnsignedDecimalValue(s)
    ensures FirstIndex(s, IsExponentMark) == |s|
  {
    PlainCharacters(s);
    TrimOfNoSpace(s);
    FirstIndexAt(s, IsExponentMark, |s|);
    if |s| >= 2 {
      assert IsDigit(s[1]) || s[1] == '.' || s[1] == ',';
    }
    UnsignedLiteral(s);
    assert s != "Infinity" by {
      assert "Infinity"[0] == 'I';
    }
  }

  lemma PlainCharacters(s: string)
    requires forall k :: 0 <= k < |s| ==> IsDigit(s[k]) || s[k] == '.' || s[k] == ','
    ensures forall k :: 0 <= k < |s| ==> NotSpace(s[k]) && !IsExponentMark(s[k])
  {
    forall k | 0 <= k < |s| ensures NotSpace(s[k]) && !IsExponentMark(s[k]) {
      assert IsDigit(s[k]) || s[k] == '.' || s[k] == ',';
    }
  }

  /** A literal without exponent is read as its mantissa. */
  lemma WithoutExponent(s: string, m: real)
    requires FirstIndex(s, IsExponentMark) == |s|
    requires MantissaValue(s) == Some(m) && m < OverflowMagnitude
    ensures UnsignedDecimalValue(s) == Finite(m)
  {
    assert s[..|s|] == s;
    var v := Scaled(m, 0);
    assert v == m;
    assert FromMagnitude(v) == Finite(m);
  }

  /** A digit string with a decimal point, `whole + "." + fraction`, as
      `Number` reads it: the exact decimal value, when it has at most 15 digits. */
  lemma DecimalLiteral(whole: string, fraction: string)
    requires AllDigits(whole) && AllDigits(fraction) && |whole| >= 1 && |whole| + |fraction| <= 15
    ensures ToNumber(whole + "." + fraction) == Finite(DecimalValue(whole, fraction))
  {
    var s := whole + "." + fraction;
    forall k | 0 <= k < |s| ensures IsDigit(s[k]) || s[k] == '.' || s[k] == ',' {
      if k < |whole| { assert s[k] == whole[k]; }
      else if k > |whole| { assert s[k] == fraction[k - |whole| - 1]; }
    }
    assert s[0] == whole[0];
    PlainLiteral(s);
    MantissaOfDigits(whole, fraction, s);
    DigitsValueBound(whole);
    SmallMagnitude(DecimalValue(whole, fraction), |whole|);
    WithoutExponent(s, DecimalValue(whole, fraction));
  }

  /** A digit string without a point, as `Number` reads it, when it has at most 15 digits. */
  lemma IntegerLiteral(ds: string)
    requires AllDigits(ds) && 1 <= |ds| <= 15
    ensures ToNumber(ds) == Finite(DigitsValue(ds) as real)
  {
    PlainLiteral(ds);
    MantissaOfDigits(ds, "", ds);
    assert DecimalValue(ds, "") == DigitsValue(ds) as real;
    DigitsValueBound(ds);
    SmallMagnitude(DigitsValue(ds) as real, |ds|);
    WithoutExponent(ds, DigitsValue(ds) as real);
  }

  /** A non-empty digit string is never NaN: it is a number or, when too
      long, Infinity. */
  lemma DigitsNotNaN(ds: string)
    requires AllDigits(ds) && |ds| >= 1
    ensures !ToNumber(ds).NaN?
  {
    PlainLiteral(ds);
    MantissaOfDigits(ds, "", ds);
    assert ds[..|ds|] == ds;
  }
}
