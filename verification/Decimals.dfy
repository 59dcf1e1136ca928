/**
 * Finite decimals, their canonical spelling and its parser. A `Decimal` is sign, integer
 * coefficient and power of ten, as Python's; several of them can share one value.
 */
module Decimals {
  import opened Wrappers

  datatype Decimal = Decimal(negative: bool, coefficient: nat, exponent: int)

  function Pow10(n: nat): (r: nat)
    ensures r > 0
  {
    if n == 0 then 1 else 10 * Pow10(n - 1)
  }

  function Power(e: int): (r: real)
    ensures r > 0.0
  {
    if e >= 0 then Pow10(e) as real else 1.0 / Pow10(-e) as real
  }

  function Value(d: Decimal): real {
    (if d.negative then -1.0 else 1.0) * (d.coefficient as real * Power(d.exponent))
  }

  // ---------------------------------------------------------------- spelling

  const DIGITS := "0123456789"

  predicate IsDigit(c: char) { '0' <= c <= '9' }

  predicate AllDigits(s: string) { forall i | 0 <= i < |s| :: IsDigit(s[i]) }

  function DigitChar(n: nat): (c: char)
    requires n < 10
    ensures IsDigit(c) && DigitOf(c) == n
  {
    DIGITS[n]
  }

  function DigitOf(c: char): nat
    requires IsDigit(c)
  {
    c as int - '0' as int
  }

  function Digits(n: nat): (s: string)
    ensures s != [] && AllDigits(s)
  {
    if n < 10 then [DigitChar(n)] else Digits(n / 10) + [DigitChar(n % 10)]
  }

  function Zeros(n: nat): (s: string)
    ensures |s| == n && AllDigits(s)
  {
    if n == 0 then "" else Zeros(n - 1) + "0"
  }

  function StripEnd(s: string, c: char): string {
    if s != [] && s[|s| - 1] == c then StripEnd(s[..|s| - 1], c) else s
  }

  /** Digits before the point when the last `k` digits of `n` are the fraction. */
  function WholePart(n: nat, k: nat): string {
    var s := Digits(n);
    if |s| > k then s[..|s| - k] else "0"
  }

  function FractionPart(n: nat, k: nat): string {
    var s := Digits(n);
    if |s| > k then s[|s| - k..] else Zeros(k - |s|) + s
  }

  /** Python's `format(value, "f")` of the magnitude. */
  function Fixed(n: nat, exponent: int): string {
    if exponent >= 0 then Digits(n) + Zeros(exponent)
    else WholePart(n, -exponent) + "." + FractionPart(n, -exponent)
  }

  function Trim(text: string): string {
    if '.' in text then StripEnd(StripEnd(text, '0'), '.') else text
  }

  /** `decimal_text`. */
  function Text(d: Decimal): string {
    if d.coefficient == 0 then "0"
    else Trim((if d.negative then "-" else "") + Fixed(d.coefficient, d.exponent))
  }

  // ---------------------------------------------------------------- parsing

  function Number(s: string): nat
    requires AllDigits(s)
  {
    if s == [] then 0 else 10 * Number(s[..|s| - 1]) + DigitOf(s[|s| - 1])
  }

  /** Index of the first of `marks` in `s`, or its length. */
  function Find(s: string, marks: set<char>): (i: nat)
    ensures i <= |s| && (i < |s| ==> s[i] in marks) && forall j | 0 <= j < i :: s[j] !in marks
  {
    if s == [] then 0 else if s[0] in marks then 0 else 1 + Find(s[1..], marks)
  }

  function ParseExponent(s: string): Option<int> {
    var digits := if s != [] && s[0] in {'+', '-'} then s[1..] else s;
    if digits == [] || !AllDigits(digits) then None
    else Some(if s[0] == '-' then -(Number(digits) as int) else Number(digits))
  }

  function ParseMantissa(s: string): Option<(nat, nat)> {
    var point := Find(s, {'.'});
    var whole, fraction := s[..point], if point < |s| then s[point + 1..] else "";
    if !AllDigits(whole + fraction) || whole + fraction == "" then None
    else Some((Number(whole + fraction), |fraction|))
  }

  function ParseUnsigned(body: string): Option<(nat, int)> {
    var e := Find(body, {'e', 'E'});
    var exponent := if e < |body| then ParseExponent(body[e + 1..]) else Some(0);
    var mantissa := ParseMantissa(body[..e]);
    if exponent.None? || mantissa.None? then None
    else Some((mantissa.value.0, exponent.value - mantissa.value.1))
  }

  /** The finite plain and scientific spellings that `Decimal(str)` accepts. */
  function Parse(text: string): Option<Decimal> {
    var signed := text != [] && text[0] in {'+', '-'};
    var r := ParseUnsigned(if signed then text[1..] else text);
    if r.None? then None else Some(Decimal(signed && text[0] == '-', r.value.0, r.value.1))
  }

  // ---------------------------------------------------------------- powers of ten

  lemma PowerNext(e: int)
    ensures Power(e + 1) == 10.0 * Power(e)
  {
  }

  lemma {:induction false} PowerAdd(e: int, k: nat)
    ensures Power(e + k) == Pow10(k) as real * Power(e)
  {
    hide Power;
    if k > 0 {
      PowerAdd(e, k - 1);
      PowerNext(e + k - 1);
      assert Pow10(k) as real == 10.0 * Pow10(k - 1) as real;
    }
  }

  // ---------------------------------------------------------------- one value, one text

  lemma {:induction false} StripZeros(s: string)
    ensures StripEnd(s + "0", '0') == StripEnd(s, '0')
  {
    assert (s + "0")[..|s|] == s;
  }

  lemma DigitsTimesTen(c: nat)
    requires c > 0
    ensures Digits(10 * c) == Digits(c) + "0"
  {
  }

  lemma WholeDigitsOnly(n: nat, k: nat)
    ensures AllDigits(WholePart(n, k)) && AllDigits(FractionPart(n, k)) && WholePart(n, k) != ""
  {
  }

  /** One more fraction digit, a zero. */
  lemma PartsShift(c: nat, k: nat)
    requires c > 0
    ensures WholePart(10 * c, k + 1) == WholePart(c, k)
    ensures FractionPart(10 * c, k + 1) == FractionPart(c, k) + "0"
  {
    hide Digits, Zeros;
    var s := Digits(c);
    DigitsTimesTen(c);
    var t := s + "0";
    if |s| > k {
      assert t[..|t| - (k + 1)] == s[..|s| - k];
      assert t[|t| - (k + 1)..] == s[|s| - k..] + "0";
    } else {
      assert Zeros(k + 1 - |t|) + t == Zeros(k - |s|) + s + "0";
    }
  }

  lemma NoPoint(s: string)
    requires AllDigits(s)
    ensures '.' !in s && '.' !in "-" + s
  {
  }

  lemma WholeShift(c: nat, e: nat)
    requires c > 0
    ensures Fixed(10 * c, e) == Fixed(c, e + 1)
  {
    hide Digits;
    DigitsTimesTen(c);
    ZerosCommute(e);
    assert Digits(c) + "0" + Zeros(e) == Digits(c) + ("0" + Zeros(e));
  }

  lemma PointShift(c: nat, k: int)
    requires c > 0 && k > 0
    ensures Fixed(10 * c, -k - 1) == Fixed(c, -k) + "0"
    ensures '.' in Fixed(c, -k)
  {
    hide WholePart, FractionPart;
    PartsShift(c, k);
    assert Fixed(c, -k)[|WholePart(c, k)|] == '.';
  }

  /** Moving a trailing zero from the coefficient to the exponent keeps the spelling. */
  lemma TextShift(negative: bool, c: nat, e: int)
    requires c > 0
    ensures Text(Decimal(negative, 10 * c, e)) == Text(Decimal(negative, c, e + 1))
  {
    hide Fixed, Trim;
    var sign := if negative then "-" else "";
    if e >= 0 {
      WholeShift(c, e);
    } else if e == -1 {
      OnePlaceShift(c);
      OnePlace(sign, Digits(c));
    } else {
      PointShift(c, -e - 1);
      var raw := sign + Fixed(c, e + 1);
      assert sign + Fixed(10 * c, e) == raw + "0";
      TrimZero(raw);
    }
  }

  lemma OnePlaceShift(c: nat)
    requires c > 0
    ensures Fixed(10 * c, -1) == Digits(c) + "." + "0" && Fixed(c, 0) == Digits(c)
  {
    hide Digits;
    PartsShift(c, 0);
    assert WholePart(c, 0) == Digits(c);
  }

  lemma TrimZero(raw: string)
    requires '.' in raw
    ensures Trim(raw + "0") == Trim(raw)
  {
    StripZeros(raw);
  }

  lemma {:induction false} ZerosCommute(n: nat)
    ensures "0" + Zeros(n) == Zeros(n) + "0" == Zeros(n + 1)
  {
    if n > 0 {
      ZerosCommute(n - 1);
      assert "0" + Zeros(n) == ("0" + Zeros(n - 1)) + "0";
    }
  }

  lemma OnePlace(sign: string, s: string)
    requires (sign == "" || sign == "-") && AllDigits(s)
    ensures Trim(sign + (s + "." + "0")) == sign + s && Trim(sign + s) == sign + s
  {
    hide Trim, StripEnd;
    assert '.' !in sign + s by { NoPoint(s); assert "" + s == s; }
    assert sign + (s + "." + "0") == (sign + s + ".") + "0";
    StripPointZero(sign + s);
  }

  lemma StripPointZero(x: string)
    requires '.' !in x
    ensures Trim(x + "." + "0") == x && Trim(x) == x
  {
    var p := x + ".";
    assert (p + "0")[..|p|] == p;
    assert p[|x|] == '.' && (p + "0")[|x|] == '.';
    assert StripEnd(p + "0", '0') == StripEnd(p, '0') == p;
    assert p[..|x|] == x;
    assert StripEnd(p, '.') == StripEnd(x, '.') == x;
  }

  lemma {:induction false} TextScale(negative: bool, c: nat, e: int, k: nat)
    requires c > 0
    ensures Text(Decimal(negative, c * Pow10(k), e)) == Text(Decimal(negative, c, e + k))
    decreases k
  {
    hide Text;
    if k > 0 {
      var c' := c * Pow10(k - 1);
      assert c * Pow10(k) == 10 * c';
      TextShift(negative, c', e);
      TextScale(negative, c, e + 1, k - 1);
    }
  }

  lemma ValueZero(d: Decimal)
    ensures Value(d) == 0.0 <==> d.coefficient == 0
    ensures d.coefficient > 0 ==> (Value(d) < 0.0 <==> d.negative)
  {
  }

  lemma ZeroText(d: Decimal)
    ensures d.coefficient == 0 ==> Text(d) == "0"
  {
  }

  lemma CancelFactor(x: real, y: real, p: real)
    requires p > 0.0 && x * p == y * p
    ensures x == y
  {
  }

  lemma SameCoefficient(a: Decimal, b: Decimal)
    requires a.exponent <= b.exponent && a.negative == b.negative && Value(a) == Value(b)
    ensures a.coefficient == b.coefficient * Pow10(b.exponent - a.exponent)
  {
    hide Power;
    var k := b.exponent - a.exponent;
    PowerAdd(a.exponent, k);
    var x, y, p := a.coefficient as real, b.coefficient as real, Power(a.exponent);
    assert x * p == y * (Pow10(k) as real * p);
    assert y * (Pow10(k) as real * p) == (y * Pow10(k) as real) * p;
    CancelFactor(x, y * Pow10(k) as real, p);
    assert (b.coefficient * Pow10(k)) as real == y * Pow10(k) as real;
  }

  /** Equal values are spelled the same, whatever their coefficients and exponents. */
  lemma SameValueSameText(a: Decimal, b: Decimal)
    requires Value(a) == Value(b)
    ensures Text(a) == Text(b)
    decreases a.exponent > b.exponent
  {
    ZeroText(a);
    ZeroText(b);
    ValueZero(a);
    ValueZero(b);
    hide Text, Value;
    if a.exponent > b.exponent {
      SameValueSameText(b, a);
    } else if a.coefficient > 0 {
      SameCoefficient(a, b);
      TextScale(a.negative, b.coefficient, a.exponent, b.exponent - a.exponent);
    }
  }

  // ---------------------------------------------------------------- round trip

  lemma {:induction false} NumberDigits(n: nat)
    ensures Number(Digits(n)) == n
  {
    if n >= 10 {
      NumberDigits(n / 10);
      assert Digits(n)[..|Digits(n)| - 1] == Digits(n / 10);
    } else {
      assert Digits(n)[..0] == "";
    }
  }

  lemma {:induction false} NumberZeros(k: nat)
    ensures Number(Zeros(k)) == 0
  {
    if k > 0 {
      NumberZeros(k - 1);
      assert Zeros(k)[..k - 1] == Zeros(k - 1);
    }
  }

  lemma {:induction false} NumberPadded(k: nat, s: string)
    requires AllDigits(s)
    ensures AllDigits(Zeros(k) + s) && Number(Zeros(k) + s) == Number(s)
  {
    if s == "" {
      assert Zeros(k) + s == Zeros(k);
      NumberZeros(k);
    } else {
      NumberPadded(k, s[..|s| - 1]);
      assert (Zeros(k) + s)[..k + |s| - 1] == Zeros(k) + s[..|s| - 1];
    }
  }

  lemma {:induction false} NumberScaled(s: string, k: nat)
    requires AllDigits(s)
    ensures AllDigits(s + Zeros(k)) && Number(s + Zeros(k)) == Number(s) * Pow10(k)
  {
    if k == 0 {
      assert s + Zeros(k) == s;
    } else {
      NumberScaled(s, k - 1);
      assert (s + Zeros(k))[..|s| + k - 1] == s + Zeros(k - 1);
      MoveTen(Number(s), Pow10(k - 1));
    }
  }

  lemma MoveTen(n: nat, p: nat)
    ensures n * (10 * p) == 10 * (n * p)
  {
  }

  lemma NumberParts(n: nat, k: nat)
    ensures AllDigits(WholePart(n, k) + FractionPart(n, k))
    ensures Number(WholePart(n, k) + FractionPart(n, k)) == n
    ensures |FractionPart(n, k)| == k
  {
    hide Number, Digits, Zeros, AllDigits;
    var s := Digits(n);
    NumberDigits(n);
    if |s| > k {
      assert s[..|s| - k] + s[|s| - k..] == s;
    } else {
      var j := k - |s|;
      ZerosCommute(j);
      NumberPadded(j + 1, s);
      assert "0" + (Zeros(j) + s) == ("0" + Zeros(j)) + s;
    }
  }

  lemma ParseSigned(s: string)
    requires s != "" && IsDigit(s[0]) && ParseUnsigned(s).Some?
    ensures var (n, e) := ParseUnsigned(s).value;
            Parse(s) == Some(Decimal(false, n, e)) && Parse("-" + s) == Some(Decimal(true, n, e))
  {
    hide ParseUnsigned;
    assert ("-" + s)[1..] == s;
  }

  lemma ParseWhole(s: string)
    requires AllDigits(s) && s != ""
    ensures Parse(s) == Some(Decimal(false, Number(s), 0)) && Parse("-" + s) == Some(Decimal(true, Number(s), 0))
  {
    hide Number, Parse;
    assert Find(s, {'e', 'E'}) == |s| && Find(s, {'.'}) == |s|;
    assert s[..|s|] == s && s + "" == s;
    ParseSigned(s);
  }

  lemma FindPoint(whole: string, fraction: string)
    requires AllDigits(whole + fraction)
    ensures var text := whole + "." + fraction;
            Find(text, {'e', 'E'}) == |text| && Find(text, {'.'}) == |whole|
  {
    hide Find;
    var text, all := whole + "." + fraction, whole + fraction;
    forall i | 0 <= i < |text| && i != |whole| ensures IsDigit(text[i]) {
      assert text[i] == if i < |whole| then all[i] else all[i - 1];
    }
    assert text[|whole|] == '.';
  }

  lemma MantissaPoint(whole: string, fraction: string)
    requires AllDigits(whole + fraction) && whole != ""
    ensures ParseMantissa(whole + "." + fraction) == Some((Number(whole + fraction), |fraction|))
  {
    hide Number, Find, AllDigits;
    FindPoint(whole, fraction);
    var text := whole + "." + fraction;
    assert text[..|whole|] == whole && text[|whole| + 1..] == fraction;
  }

  lemma FirstIsDigit(whole: string, fraction: string)
    requires AllDigits(whole + fraction) && whole != ""
    ensures IsDigit((whole + "." + fraction)[0])
  {
    assert IsDigit((whole + fraction)[0]);
  }

  lemma UnsignedPoint(whole: string, fraction: string)
    requires AllDigits(whole + fraction) && whole != ""
    ensures ParseUnsigned(whole + "." + fraction) == Some((Number(whole + fraction), -|fraction|))
  {
    hide Number, Find, AllDigits, ParseMantissa;
    var text := whole + "." + fraction;
    FindPoint(whole, fraction);
    MantissaPoint(whole, fraction);
    assert text[..|text|] == text;
  }

  lemma LastDigit(n: nat, k: nat)
    requires n % 10 != 0 && k > 0
    ensures FractionPart(n, k) != "" && FractionPart(n, k)[|FractionPart(n, k)| - 1] != '0'
  {
    var s := Digits(n);
    assert s[|s| - 1] == DigitChar(n % 10);
  }

  lemma NothingToTrim(text: string)
    requires text != "" && text[|text| - 1] != '0' && text[|text| - 1] != '.'
    ensures Trim(text) == text
  {
  }

  /** Parsing the canonical text of a decimal gives back its value. */
  lemma {:induction false} RoundTrip(d: Decimal)
    ensures Parse(Text(d)).Some? && Value(Parse(Text(d)).value) == Value(d)
    decreases d.coefficient
  {
    hide Text, Value, Parse;
    if d.coefficient == 0 {
      RoundTripZero(d);
    } else if d.exponent >= 0 {
      RoundTripWhole(d);
    } else if d.coefficient % 10 == 0 {
      var c := Decimal(d.negative, d.coefficient / 10, d.exponent + 1);
      assert d.coefficient == 10 * c.coefficient;
      TextShift(d.negative, c.coefficient, d.exponent);
      ValueShift(c);
      RoundTrip(c);
    } else {
      RoundTripPoint(d);
    }
  }

  lemma RoundTripZero(d: Decimal)
    requires d.coefficient == 0
    ensures Parse(Text(d)).Some? && Value(Parse(Text(d)).value) == Value(d)
  {
    hide Value;
    ParseWhole("0");
    ValueZero(d);
    ValueZero(Decimal(false, 0, 0));
    assert Number("0") == 0 by { assert "0"[..0] == ""; }
  }

  lemma ValueShift(c: Decimal)
    ensures Value(Decimal(c.negative, 10 * c.coefficient, c.exponent - 1)) == Value(c)
  {
    hide Power;
    PowerNext(c.exponent - 1);
    var x, p := c.coefficient as real, Power(c.exponent - 1);
    assert (10 * c.coefficient) as real == 10.0 * x;
    assert (10.0 * x) * p == x * (10.0 * p);
  }

  lemma RoundTripWhole(d: Decimal)
    requires d.coefficient > 0 && d.exponent >= 0
    ensures Parse(Text(d)).Some? && Value(Parse(Text(d)).value) == Value(d)
  {
    hide Parse, Number, Digits, Zeros, Trim;
    var n, e := d.coefficient, d.exponent;
    var s := Digits(n) + Zeros(e);
    NumberDigits(n);
    NumberScaled(Digits(n), e);
    ParseWhole(s);
    OnePlace("", s);
    OnePlace("-", s);
    assert "" + s == s;
    assert Number(s) as real == n as real * Pow10(e) as real;
    assert Power(0) == 1.0;
  }

  lemma RoundTripPoint(d: Decimal)
    requires d.coefficient % 10 != 0 && d.exponent < 0
    ensures Parse(Text(d)) == Some(d)
  {
    hide Parse, ParseUnsigned, Number, Digits, Zeros, Trim, WholePart, FractionPart;
    var n, k := d.coefficient, -d.exponent;
    var whole, fraction := WholePart(n, k), FractionPart(n, k);
    WholeDigitsOnly(n, k);
    NumberParts(n, k);
    UnsignedPoint(whole, fraction);
    FirstIsDigit(whole, fraction);
    LastDigit(n, k);
    var text := whole + "." + fraction;
    ParseSigned(text);
    assert text[|text| - 1] == fraction[|fraction| - 1];
    assert fraction[|fraction| - 1] != '.' by { assert IsDigit(fraction[|fraction| - 1]); }
    NothingToTrim(text);
    NothingToTrim("-" + text);
    assert "" + text == text;
  }

  /** Two decimals are equal exactly when their canonical texts are. */
  lemma TextIdentifiesValue(a: Decimal, b: Decimal)
    ensures Text(a) == Text(b) <==> Value(a) == Value(b)
  {
    hide Text, Value, Parse;
    RoundTrip(a);
    RoundTrip(b);
    if Value(a) == Value(b) {
      SameValueSameText(a, b);
    }
  }

  /** Normalising an already canonical text changes nothing. */
  lemma NormaliseAgain(d: Decimal)
    ensures Parse(Text(d)).Some? && Text(Parse(Text(d)).value) == Text(d)
  {
    hide Text, Value, Parse;
    RoundTrip(d);
    SameValueSameText(Parse(Text(d)).value, d);
  }

  // ---------------------------------------------------------------- which texts are decimals

  /** The parts of a decimal's spelling: sign, digits around an optional point, optional exponent. */
  datatype Spelling = Spelling(
    sign: string, whole: string, point: string, fraction: string, mark: string, exponentSign: string, exponent: string)
  {
    predicate Valid() {
      && sign in {"", "+", "-"} && point in {"", "."} && mark in {"", "e", "E"} && exponentSign in {"", "+", "-"}
      && AllDigits(whole + fraction) && whole + fraction != "" && (point == "" ==> fraction == "")
      && AllDigits(exponent)
      && (if mark == "" then exponentSign == exponent == "" else exponent != "")
    }

    function Mantissa(): string { whole + point + fraction }
    function Tail(): string { exponentSign + exponent }
    function Body(): string { Mantissa() + mark + Tail() }
    function Text(): string { sign + Body() }

    function Scale(): int
      requires Valid()
    {
      if exponentSign == "-" then -(Number(exponent) as int) else Number(exponent)
    }
  }

  lemma FindAfter(s: string, mark: string, rest: string, marks: set<char>)
    requires (forall c | c in s :: c !in marks) && (if mark == "" then rest == "" else |mark| == 1 && mark[0] in marks)
    ensures Find(s + mark + rest, marks) == |s|
  {
    hide Find;
    var text := s + mark + rest;
    assert forall i | 0 <= i < |s| :: text[i] == s[i];
    assert mark != "" ==> text[|s|] == mark[0];
  }

  lemma DigitsApart(a: string, b: string)
    requires AllDigits(a + b)
    ensures forall c | c in a || c in b :: IsDigit(c)
  {
    forall c | c in a || c in b ensures IsDigit(c) {
      assert c in a + b;
    }
  }

  lemma MantissaParses(p: Spelling)
    requires p.Valid()
    ensures ParseMantissa(p.Mantissa()) == Some((Number(p.whole + p.fraction), |p.fraction|))
    ensures 'e' !in p.Mantissa() && 'E' !in p.Mantissa() && p.Mantissa()[0] !in {'+', '-'}
  {
    hide Number, Find, AllDigits;
    var text := p.Mantissa();
    DigitsApart(p.whole, p.fraction);
    FindAfter(p.whole, p.point, p.fraction, {'.'});
    assert text[..|p.whole|] == p.whole;
    if p.point != "" {
      assert text[|p.whole| + 1..] == p.fraction;
    }
    assert text[0] in text;
  }

  lemma ExponentParses(p: Spelling)
    requires p.Valid() && p.mark != ""
    ensures ParseExponent(p.Tail()) == Some(p.Scale())
  {
    hide Number;
    if p.exponentSign == "" {
      assert p.Tail() == p.exponent;
      assert IsDigit(p.exponent[0]);
    } else {
      assert p.Tail()[1..] == p.exponent;
    }
  }

  lemma BodyParses(p: Spelling)
    requires p.Valid()
    ensures ParseUnsigned(p.Body()) == Some((Number(p.whole + p.fraction), p.Scale() - |p.fraction|))
    ensures p.Body() != "" && p.Body()[0] !in {'+', '-'}
  {
    hide Number, Find, ParseMantissa, ParseExponent, AllDigits, Spelling.Mantissa, Spelling.Tail;
    MantissaParses(p);
    var m, body := p.Mantissa(), p.Body();
    assert m != "" by { NoMantissa(); }
    TailAfter(p);
    FindAfter(m, p.mark, p.Tail(), {'e', 'E'});
    assert body[..|m|] == m && body[0] == m[0];
    if p.mark != "" {
      assert body[|m| + 1..] == p.Tail();
      ExponentParses(p);
    } else {
      NumberOfNothing();
    }
  }

  lemma TailAfter(p: Spelling)
    requires p.Valid()
    ensures p.mark == "" ==> p.Tail() == ""
    ensures p.mark != "" ==> |p.mark| == 1 && p.mark[0] in {'e', 'E'}
  {
    hide Number;
  }

  lemma NoMantissa()
    ensures ParseMantissa("").None?
  {
  }

  /** Every spelling is read as the number it spells. */
  lemma SpellingParses(p: Spelling)
    requires p.Valid()
    ensures Parse(p.Text()) ==
            Some(Decimal(p.sign == "-", Number(p.whole + p.fraction), p.Scale() - |p.fraction|))
  {
    hide Number, ParseUnsigned, Spelling.Body, Spelling.Scale, AllDigits;
    BodyParses(p);
    if p.sign == "" {
      assert p.Text() == p.Body();
    } else {
      assert p.Text()[1..] == p.Body();
    }
  }

  lemma NumberOfNothing()
    ensures Number("") == 0
  {
  }

  lemma SplitExponent(tail: string) returns (sign: string, digits: string)
    requires ParseExponent(tail).Some?
    ensures tail == sign + digits && sign in {"", "+", "-"} && AllDigits(digits) && digits != ""
  {
    hide Number;
    if tail[0] in {'+', '-'} {
      sign, digits := [tail[0]], tail[1..];
    } else {
      sign, digits := "", tail;
    }
  }

  lemma SplitMantissa(m: string) returns (whole: string, point: string, fraction: string)
    requires ParseMantissa(m).Some?
    ensures m == whole + point + fraction && point in {"", "."} && (point == "" ==> fraction == "")
    ensures AllDigits(whole + fraction) && whole + fraction != ""
  {
    hide Number, Find;
    var i := Find(m, {'.'});
    whole := m[..i];
    if i < |m| {
      point, fraction := ".", m[i + 1..];
    } else {
      point, fraction := "", "";
    }
  }

  lemma SplitBody(body: string) returns (p: Spelling)
    requires ParseUnsigned(body).Some?
    ensures p.Valid() && p.Body() == body && p.sign == ""
  {
    hide Number, Find, ParseMantissa, ParseExponent, AllDigits;
    var e := Find(body, {'e', 'E'});
    var whole, point, fraction := SplitMantissa(body[..e]);
    if e < |body| {
      var exponentSign, exponent := SplitExponent(body[e + 1..]);
      p := Spelling("", whole, point, fraction, [body[e]], exponentSign, exponent);
      assert body == body[..e] + [body[e]] + body[e + 1..];
    } else {
      p := Spelling("", whole, point, fraction, "", "", "");
      NoDigits();
    }
  }

  /** And nothing else is read at all. */
  lemma OnlySpellingsParse(text: string) returns (p: Spelling)
    requires Parse(text).Some?
    ensures p.Valid() && p.Text() == text
  {
    hide ParseUnsigned, AllDigits;
    if text != [] && text[0] in {'+', '-'} {
      p := SplitBody(text[1..]);
      p := p.(sign := [text[0]]);
    } else {
      p := SplitBody(text);
    }
  }

  lemma NoDigits()
    ensures AllDigits("")
  {
  }
}
