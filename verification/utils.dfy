/** The string and number helpers of `Utils` (js/utils.js) that do not
    depend on the clock, randomness or locale formatting. */
module Utils {
  import opened Wrappers
  import opened Digits
  import opened JsNumber
  import opened Seqs

  /** A JavaScript argument: a string, or any value that is not one. */
  datatype Input = Text(s: string) | NotText

  /** `String(n).padStart(2, "0")` for the string form `s` of `n`. */
  function Pad2(s: string): (r: string)
    ensures |r| == if |s| >= 2 then |s| else 2
    ensures r[|r| - |s|..] == s
    ensures forall i :: 0 <= i < |r| - |s| ==> r[i] == '0'
  {
    if |s| >= 2 then s else if |s| == 1 then "0" + s else "00"
  }

  /** Padding a number below 100 gives two digits that read back as the number. */
  lemma Pad2Number(n: nat)
    requires n < 100
    ensures |Pad2(NatToString(n))| == 2 && AllDigits(Pad2(NatToString(n)))
    ensures DigitsValue(Pad2(NatToString(n))) == n
  {
    var s := NatToString(n);
    if n < 10 {
      NatToStringLength(n, 1);
      var r := Pad2(s);
      assert r == "0" + s;
      assert r[..1] == "0";
      assert DigitsValue(r[..1]) == 0 by { assert r[..1][..0] == []; }
    } else {
      NatToStringLength(n, 2);
    }
  }

  /** `monthKeyFromDate`: the first seven characters ("YYYY-MM") of a date,
      or null when the argument is empty or not a string. */
  function MonthKeyFromDate(date: Input): (r: Option<string>)
    ensures r.Some? <==> date.Text? && date.s != ""
    ensures r.Some? ==> r.value <= date.s && |r.value| == if |date.s| < 7 then |date.s| else 7
  {
    match date
    case NotText => None
    case Text(s) => if s == "" then None else Some(if |s| < 7 then s else s[..7])
  }

  predicate NotDot(c: char) {
    c != '.'
  }

  predicate IsComma(c: char) {
    c == ','
  }

  /** Characters that survive the cleaning: neither whitespace nor '.'. */
  predicate Kept(c: char) {
    NotSpace(c) && NotDot(c)
  }

  /** `.replace(",", ".")`: only the first comma becomes a point. */
  function ReplaceFirstComma(s: string): (r: string)
    ensures |r| == |s|
    ensures forall k :: 0 <= k < |s| ==> r[k] == if k == FirstIndex(s, IsComma) then '.' else s[k]
  {
    var i := FirstIndex(s, IsComma);
    if i == |s| then s else s[i := '.']
  }

  /** The cleaning pipeline of `parseBRLToNumber`: trim, drop all whitespace,
      drop every '.', turn the first ',' into '.'. */
  function CleanBRL(s: string): string {
    ReplaceFirstComma(Filter(Filter(Trim(s), NotSpace), NotDot))
  }

  /** Removing whitespace after trimming removes the same as removing it
      from the untrimmed text. */
  lemma TrimThenDropSpaces(s: string)
    ensures Filter(Trim(s), NotSpace) == Filter(s, NotSpace)
  {
    var i, j := TrimParts(s);
    FilterOfThree(s, i, j, NotSpace);
    LeadingSpacesFilterAway(s, i);
    TrailingSpacesFilterAway(s, j);
  }

  lemma LeadingSpacesFilterAway(s: string, i: nat)
    requires i <= |s| && forall k :: 0 <= k < i ==> IsSpace(s[k])
    ensures Filter(s[..i], NotSpace) == []
  {
    SpacesFilterAway(s[..i]);
  }

  lemma TrailingSpacesFilterAway(s: string, j: nat)
    requires j <= |s| && forall k :: j <= k < |s| ==> IsSpace(s[k])
    ensures Filter(s[j..], NotSpace) == []
  {
    SpacesFilterAway(s[j..]);
  }

  /** Whitespace alone filters away to nothing. */
  lemma SpacesFilterAway(t: string)
    requires forall k :: 0 <= k < |t| ==> IsSpace(t[k])
    ensures Filter(t, NotSpace) == []
  {
    FilterNone(t, NotSpace);
  }

  /** The cleaning removes every whitespace character and every '.', wherever
      they are, then replaces only the first ',': trimming adds nothing. */
  lemma CleanBRLOnePass(s: string)
    ensures CleanBRL(s) == ReplaceFirstComma(Filter(s, Kept))
  {
    TrimThenDropSpaces(s);
    FilterFilter(s, NotSpace, NotDot, Kept);
  }

  /** The cleaned text holds no whitespace. */
  lemma CleanBRLNoSpace(s: string)
    ensures forall k :: 0 <= k < |CleanBRL(s)| ==> NotSpace(CleanBRL(s)[k])
  {
    CleanBRLOnePass(s);
    var k := Filter(s, Kept);
    forall n | 0 <= n < |k| ensures NotSpace(k[n]) {
      assert k[n] in k;
    }
  }

  /** `parseBRLToNumber`: NaN for a non-string; otherwise `Number` of the
      cleaned text, with every non-finite result reported as NaN. */
  function ParseBRL(input: Input): (n: Num)
    ensures input.NotText? ==> n == NaN
    ensures !n.Infinity?
  {
    match input
    case NotText => NaN
    case Text(s) =>
      var v := ToNumber(CleanBRL(s));
      if v.Finite? then v else NaN
  }

  /** Points never matter to the parser: removing them first changes nothing. */
  lemma ParseBRLIgnoresPoints(s: string)
    ensures ParseBRL(Text(s)) == ParseBRL(Text(Filter(s, NotDot)))
  {
    CleanBRLOnePass(s);
    CleanBRLOnePass(Filter(s, NotDot));
    FilterFilter(s, NotDot, Kept, Kept);
  }

  /** A digit string has nothing to clean. */
  lemma KeptDigits(s: string)
    requires forall k :: 0 <= k < |s| ==> IsDigit(s[k]) || s[k] == ','
    ensures Filter(s, Kept) == s
  {
    forall k | 0 <= k < |s| ensures Kept(s[k]) {
      assert IsDigit(s[k]) || s[k] == ',';
    }
    FilterAll(s, Kept);
  }

  /** The first comma of `whole + "," + fraction` becomes the point. */
  lemma ReplaceDecimalComma(whole: string, fraction: string)
    requires AllDigits(whole)
    ensures ReplaceFirstComma(whole + "," + fraction) == whole + "." + fraction
  {
    var s := whole + "," + fraction;
    forall k | 0 <= k < |whole| ensures !IsComma(s[k]) { assert s[k] == whole[k]; }
    FirstIndexAt(s, IsComma, |whole|);
    var r := ReplaceFirstComma(s);
    var t := whole + "." + fraction;
    forall k | 0 <= k < |t| ensures r[k] == t[k] {
      if k < |whole| { assert s[k] == whole[k]; }
      else if k > |whole| { assert s[k] == fraction[k - |whole| - 1]; }
    }
  }

  /** Cleaning turns the decimal comma of `whole + "," + fraction` into a point. */
  lemma CleanDecimalComma(whole: string, fraction: string)
    requires AllDigits(whole) && AllDigits(fraction)
    ensures CleanBRL(whole + "," + fraction) == whole + "." + fraction
  {
    var s := whole + "," + fraction;
    forall k | 0 <= k < |s| ensures IsDigit(s[k]) || s[k] == ',' {
      if k < |whole| { assert s[k] == whole[k]; }
      else if k > |whole| { assert s[k] == fraction[k - |whole| - 1]; }
    }
    KeptDigits(s);
    CleanBRLOnePass(s);
    ReplaceDecimalComma(whole, fraction);
  }

  /** Brazilian decimal comma: "1234,56" reads as 1234.56. */
  lemma ParseBRLDecimalComma(whole: string, fraction: string)
    requires AllDigits(whole) && AllDigits(fraction) && |whole| >= 1 && |whole| + |fraction| <= 15
    ensures ParseBRL(Text(whole + "," + fraction)) == Finite(DecimalValue(whole, fraction))
  {
    CleanDecimalComma(whole, fraction);
    DecimalLiteral(whole, fraction);
  }

  /** Whitespace and points may sit anywhere: a text that keeps, once they
      are removed, digits, a comma and digits reads as that decimal. */
  lemma ParseBRLScattered(s: string, whole: string, fraction: string)
    requires AllDigits(whole) && AllDigits(fraction) && |whole| >= 1 && |whole| + |fraction| <= 15
    requires Filter(s, Kept) == whole + "," + fraction
    ensures ParseBRL(Text(s)) == Finite(DecimalValue(whole, fraction))
  {
    var d := whole + "," + fraction;
    forall k | 0 <= k < |d| ensures IsDigit(d[k]) || d[k] == ',' {
      if k < |whole| { assert d[k] == whole[k]; }
      else if k > |whole| { assert d[k] == fraction[k - |whole| - 1]; }
    }
    KeptDigits(d);
    CleanBRLOnePass(s);
    CleanBRLOnePass(d);
    ParseBRLDecimalComma(whole, fraction);
  }

  /** Cleaning leaves a digit string as it is. */
  lemma CleanDigits(ds: string)
    requires AllDigits(ds)
    ensures CleanBRL(ds) == ds
  {
    KeptDigits(ds);
    CleanBRLOnePass(ds);
    forall k | 0 <= k < |ds| ensures !IsComma(ds[k]) { assert IsDigit(ds[k]); }
    FirstIndexAt(ds, IsComma, |ds|);
  }

  /** A plain digit string reads as its integer value. */
  lemma ParseBRLInteger(ds: string)
    requires AllDigits(ds) && 1 <= |ds| <= 15
    ensures ParseBRL(Text(ds)) == Finite(DigitsValue(ds) as real)
  {
    CleanDigits(ds);
    IntegerLiteral(ds);
  }

  /** Concrete digit values used by the examples below. */
  lemma DigitsValue56()
    ensures DigitsValue("56") == 56
  {
    assert "56"[..1] == "5";
    assert "5"[..0] == "";
  }

  lemma DigitsValue1234()
    ensures DigitsValue("1234") == 1234
  {
    assert "1234"[..3] == "123";
    assert "123"[..2] == "12";
    assert "12"[..1] == "1";
    assert "1"[..0] == "";
  }

  lemma DigitsValue123456()
    ensures DigitsValue("123456") == 123456
  {
    assert "123456"[..5] == "12345";
    assert "12345"[..4] == "1234";
    DigitsValue1234();
  }

  /** A text without points is left alone by the point filter. */
  lemma NoPoints(s: string)
    requires forall k :: 0 <= k < |s| ==> NotDot(s[k])
    ensures Filter(s, NotDot) == s
  {
    FilterAll(s, NotDot);
  }

  lemma DropPoint()
    ensures Filter(".", NotDot) == []
  {
    FilterNone(".", NotDot);
  }

  lemma DropLeadingPoint(b: string)
    ensures Filter("." + b, NotDot) == Filter(b, NotDot)
  {
    FilterConcat(".", b, NotDot);
    DropPoint();
  }

  /** Removing the one point between two point-free texts joins them. */
  lemma DropOnePoint(a: string, b: string)
    requires forall k :: 0 <= k < |a| ==> NotDot(a[k])
    requires forall k :: 0 <= k < |b| ==> NotDot(b[k])
    ensures Filter(a + "." + b, NotDot) == a + b
  {
    assert a + "." + b == a + ("." + b);
    FilterConcat(a, "." + b, NotDot);
    DropLeadingPoint(b);
    NoPoints(a);
    NoPoints(b);
  }

  /** Dropping the points of "1.234,56" leaves "1234,56". */
  lemma DropThousandsPoint()
    ensures Filter("1.234,56", NotDot) == "1234,56"
  {
    DropPointBetween("1.234,56", "1", "234,56", "1234,56");
  }

  lemma DropPointBetween(s: string, a: string, b: string, r: string)
    requires s == a + "." + b && r == a + b
    requires forall k :: 0 <= k < |a| ==> NotDot(a[k])
    requires forall k :: 0 <= k < |b| ==> NotDot(b[k])
    ensures Filter(s, NotDot) == r
  {
    DropOnePoint(a, b);
  }

  lemma DecimalValue1234Comma56()
    ensures DecimalValue("1234", "56") == 1234.56
  {
    DigitsValue1234();
    DigitsValue56();
    assert Pow10(2) == 100;
    assert FractionValue("56") == 0.56;
  }

  /** Brazilian format: "1234,56" reads as 1234.56. */
  lemma ParseBRLComma()
    ensures ParseBRL(Text("1234,56")) == Finite(1234.56)
  {
    assert "1234,56" == "1234" + "," + "56";
    ParseBRLDecimalComma("1234", "56");
    DecimalValue1234Comma56();
  }

  /** Thousands separators: "1.234,56" reads as 1234.56. */
  lemma ParseBRLThousands()
    ensures ParseBRL(Text("1.234,56")) == Finite(1234.56)
  {
    ParseBRLIgnoresPoints("1.234,56");
    DropThousandsPoint();
    ParseBRLComma();
  }

  /** Removing the points of `whole + "." + fraction` joins the digits. */
  lemma DropDecimalPoint(whole: string, fraction: string)
    requires AllDigits(whole) && AllDigits(fraction)
    ensures Filter(whole + "." + fraction, NotDot) == whole + fraction
  {
    forall k | 0 <= k < |whole| ensures NotDot(whole[k]) { assert IsDigit(whole[k]); }
    forall k | 0 <= k < |fraction| ensures NotDot(fraction[k]) { assert IsDigit(fraction[k]); }
    DropOnePoint(whole, fraction);
  }

  lemma AllDigitsConcat(a: string, b: string)
    requires AllDigits(a) && AllDigits(b)
    ensures AllDigits(a + b)
  {
    var ds := a + b;
    forall k | 0 <= k < |ds| ensures IsDigit(ds[k]) {
      if k < |a| { assert ds[k] == a[k]; } else { assert ds[k] == b[k - |a|]; }
    }
  }

  /** A '.' between digits is dropped with the other points, so
      `whole + "." + fraction` reads as the digits run together. */
  lemma ParseBRLPointAsWritten(whole: string, fraction: string)
    requires AllDigits(whole) && AllDigits(fraction) && |whole| >= 1 && |whole| + |fraction| <= 15
    ensures ParseBRL(Text(whole + "." + fraction)) == Finite(DigitsValue(whole + fraction) as real)
  {
    ParseBRLIgnoresPoints(whole + "." + fraction);
    DropDecimalPoint(whole, fraction);
    AllDigitsConcat(whole, fraction);
    ParseBRLInteger(whole + fraction);
  }

  /** The source's own example "1234.56" reads as 123456, not 1234.56. */
  lemma ParseBRLPointCounterexample()
    ensures ParseBRL(Text("1234.56")) == Finite(123456.0)
  {
    assert "1234.56" == "1234" + "." + "56";
    assert "1234" + "56" == "123456";
    ParseBRLPointAsWritten("1234", "56");
    DigitsValue123456();
  }

  /** The parser the comment at js/utils.js:26 describes: a text with a comma
      is Brazilian (points group thousands, the comma is the decimal mark);
      a text without one keeps its '.' as the decimal point. */
  function ParseBRLIntended(input: Input): (n: Num)
    ensures input.NotText? ==> n == NaN
    ensures !n.Infinity?
  {
    match input
    case NotText => NaN
    case Text(s) =>
      if FirstIndex(s, IsComma) < |s| then ParseBRL(input)
      else
        var v := ToNumber(Filter(s, NotSpace));
        if v.Finite? then v else NaN
  }

  /** The intended parser reads "1234.56" as 1234.56. */
  lemma ParseBRLIntendedPoint(whole: string, fraction: string)
    requires AllDigits(whole) && AllDigits(fraction) && |whole| >= 1 && |whole| + |fraction| <= 15
    ensures ParseBRLIntended(Text(whole + "." + fraction)) == Finite(DecimalValue(whole, fraction))
  {
    var s := whole + "." + fraction;
    forall k | 0 <= k < |s| ensures IsDigit(s[k]) || s[k] == '.' {
      if k < |whole| { assert s[k] == whole[k]; }
      else if k > |whole| { assert s[k] == fraction[k - |whole| - 1]; }
    }
    forall k | 0 <= k < |s| ensures !IsComma(s[k]) { assert IsDigit(s[k]) || s[k] == '.'; }
    FirstIndexAt(s, IsComma, |s|);
    forall k | 0 <= k < |s| ensures NotSpace(s[k]) { assert IsDigit(s[k]) || s[k] == '.'; }
    FilterAll(s, NotSpace);
    DecimalLiteral(whole, fraction);
  }

  /** On Brazilian input (anything with a comma) the intended parser agrees
      with the parser as written. */
  lemma ParseBRLIntendedAgrees(s: string)
    requires exists k :: 0 <= k < |s| && s[k] == ','
    ensures ParseBRLIntended(Text(s)) == ParseBRL(Text(s))
  {
  }

  /** The digits->cents step of `moneyMaskBRL`: the ASCII digits of the raw
      text, read as a whole number of cents. */
  function MaskDigits(raw: string): (ds: string)
    ensures AllDigits(ds)
  {
    var ds := Filter(raw, IsDigit);
    assert forall k :: 0 <= k < |ds| ==> IsDigit(ds[k]) by {
      forall k | 0 <= k < |ds| ensures IsDigit(ds[k]) { assert ds[k] in ds; }
    }
    ds
  }

  /** `moneyMaskBRL` before locale formatting: nothing (the empty string)
      when the text has no digit, otherwise `Number(digits) / 100`. */
  function MaskCents(raw: string): (r: Option<Num>)
    ensures r.None? <==> forall k :: 0 <= k < |raw| ==> !IsDigit(raw[k])
    ensures r.Some? ==> !r.value.NaN?
    ensures r.Some? && |MaskDigits(raw)| <= 15 ==> r.value == Finite(DigitsValue(MaskDigits(raw)) as real / 100.0)
  {
    var ds := MaskDigits(raw);
    NoMaskDigits(raw);
    if ds == [] then None
    else
      CentsNumber(ds);
      Some(DivideBy(ToNumber(ds), 100.0))
  }

  /** The text yields no digit exactly when it holds none. */
  lemma NoMaskDigits(raw: string)
    ensures MaskDigits(raw) == [] <==> forall k :: 0 <= k < |raw| ==> !IsDigit(raw[k])
  {
    var ds := MaskDigits(raw);
    if ds != [] {
      assert ds[0] in ds;
    } else {
      forall k | 0 <= k < |raw| ensures !IsDigit(raw[k]) { assert raw[k] in raw && raw[k] !in ds; }
    }
  }

  /** A digit string divided into cents is a number, exact up to 15 digits. */
  lemma CentsNumber(ds: string)
    requires AllDigits(ds) && |ds| >= 1
    ensures !DivideBy(ToNumber(ds), 100.0).NaN?
    ensures |ds| <= 15 ==> DivideBy(ToNumber(ds), 100.0) == Finite(DigitsValue(ds) as real / 100.0)
  {
    CentsNotNaN(ds);
    if |ds| <= 15 {
      CentsExact(ds);
    }
  }

  lemma CentsNotNaN(ds: string)
    requires AllDigits(ds) && |ds| >= 1
    ensures !DivideBy(ToNumber(ds), 100.0).NaN?
  {
    DigitsNotNaN(ds);
  }

  lemma CentsExact(ds: string)
    requires AllDigits(ds) && 1 <= |ds| <= 15
    ensures DivideBy(ToNumber(ds), 100.0) == Finite(DigitsValue(ds) as real / 100.0)
  {
    IntegerLiteral(ds);
    DivideFinite(ToNumber(ds), DigitsValue(ds) as real, 100.0);
  }

  lemma DivideFinite(n: Num, v: real, d: real)
    requires d > 0.0 && n == Finite(v)
    ensures DivideBy(n, d) == Finite(v / d)
  {
  }
}
