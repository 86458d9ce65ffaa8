/**
 * JavaScript numbers as the site's code uses them: the `Number(...)` coercion of
 * a string (the StringNumericLiteral grammar of section 7.1.4.1.1 of ECMA-262),
 * `String(n)` (Number::toString, section 6.1.6.1.20, radix 10), comparisons and
 * `Math.min`/`Math.max`. Finite values are kept exact as mantissa * 10^exponent,
 * so rounding to the nearest IEEE double is not modelled.
 */
module JsNumber {
  import opened Wrappers
  import opened JsText

  datatype Number = NaN | Infinity(negative: bool) | Finite(mantissa: int, exponent: int)

  function Pow10(n: nat): (r: nat)
    ensures r >= 1
  {
    if n == 0 then 1 else 10 * Pow10(n - 1)
  }

  /** The exact mathematical value of a finite number. */
  function Magnitude(x: Number): real
    requires x.Finite?
  {
    if x.exponent >= 0 then (x.mantissa * Pow10(x.exponent)) as real
    else x.mantissa as real / Pow10(-x.exponent) as real
  }

  function FromInt(i: int): Number { Finite(i, 0) }

  lemma MagnitudeOfInt(i: int)
    ensures Magnitude(FromInt(i)) == i as real
  {
  }

  /** The relational operator `a < b` on two numbers (false whenever NaN is involved). */
  predicate Less(a: Number, b: Number) {
    match (a, b)
    case (NaN, _) => false
    case (_, NaN) => false
    case (Infinity(na), Infinity(nb)) => na && !nb
    case (Infinity(na), Finite(_, _)) => na
    case (Finite(_, _), Infinity(nb)) => !nb
    case (Finite(_, _), Finite(_, _)) => Magnitude(a) < Magnitude(b)
  }

  /** `a === b` on numbers (NaN equals nothing). */
  predicate StrictEquals(a: Number, b: Number) {
    match (a, b)
    case (Finite(_, _), Finite(_, _)) => Magnitude(a) == Magnitude(b)
    case (Infinity(na), Infinity(nb)) => na == nb
    case _ => false
  }

  /** The number is a zero (both +0 and -0), which JavaScript treats as falsy. */
  predicate IsZero(x: Number) { x.Finite? && x.mantissa == 0 }

  /** `Math.min(a, b)` for operands that are not NaN. */
  function Min(a: Number, b: Number): Number
    requires !a.NaN? && !b.NaN?
  {
    if Less(b, a) then b else a
  }

  /** `Math.max(a, b)` for operands that are not NaN. */
  function Max(a: Number, b: Number): Number
    requires !a.NaN? && !b.NaN?
  {
    if Less(a, b) then b else a
  }

  // ---------------------------------------------------------------------------
  // Digits

  predicate IsDecimalDigit(c: char) { '0' <= c <= '9' }

  /** The value of `c` as a digit in the given radix, or -1 when it is not one. */
  function DigitIn(c: char, radix: nat): (d: int)
    ensures d == -1 || 0 <= d < radix
  {
    var v :=
      if '0' <= c <= '9' then c as int - '0' as int
      else if 'a' <= c <= 'z' then c as int - 'a' as int + 10
      else if 'A' <= c <= 'Z' then c as int - 'A' as int + 10
      else -1;
    if 0 <= v < radix then v else -1
  }

  predicate AllDigits(s: string, radix: nat) {
    forall i :: 0 <= i < |s| ==> DigitIn(s[i], radix) >= 0
  }

  /** The value of a digit string read most significant digit first. */
  function DigitsValue(s: string, radix: nat): nat
    requires AllDigits(s, radix)
  {
    if s == [] then 0
    else DigitsValue(s[..|s| - 1], radix) * radix + DigitIn(s[|s| - 1], radix)
  }

  /** The end of the run of decimal digits that starts at `i`. */
  function DigitRunEnd(s: string, i: nat): (j: nat)
    requires i <= |s|
    ensures i <= j <= |s|
    ensures AllDigits(s[i..j], 10)
    ensures j == |s| || !IsDecimalDigit(s[j])
    decreases |s| - i
  {
    if i < |s| && IsDecimalDigit(s[i]) then
      var j := DigitRunEnd(s, i + 1);
      assert s[i..j] == [s[i]] + s[i + 1..j];
      j
    else i
  }

  // ---------------------------------------------------------------------------
  // String -> Number

  /** An ExponentPart (`e`/`E`, optional sign, digits), or the empty string for exponent 0. */
  function ParseExponent(p: string): Option<int>
  {
    if p == [] then Some(0)
    else if p[0] != 'e' && p[0] != 'E' then None
    else
      var rest := p[1..];
      var neg := rest != [] && rest[0] == '-';
      var digits := if rest != [] && (rest[0] == '+' || rest[0] == '-') then rest[1..] else rest;
      if digits != [] && AllDigits(digits, 10) then
        var v: int := DigitsValue(digits, 10);
        Some(if neg then -v else v)
      else None
  }

  /** A StrDecimalLiteral: optional sign, then `Infinity` or digits with optional fraction and exponent. */
  function ParseDecimal(t: string): Number
  {
    var signed := t != [] && (t[0] == '+' || t[0] == '-');
    var neg := t != [] && t[0] == '-';
    var body := if signed then t[1..] else t;
    if body == "Infinity" then Infinity(neg)
    else
      var j1 := DigitRunEnd(body, 0);
      var hasDot := j1 < |body| && body[j1] == '.';
      var fracStart := if hasDot then j1 + 1 else j1;
      var j2 := DigitRunEnd(body, fracStart);
      var intDigits := body[..j1];
      var fracDigits := body[fracStart..j2];
      if |intDigits| + |fracDigits| == 0 then NaN
      else
        match ParseExponent(body[j2..])
        case None => NaN
        case Some(x) =>
          assert AllDigits(intDigits + fracDigits, 10) by {
            var d := intDigits + fracDigits;
            forall i | 0 <= i < |d| ensures DigitIn(d[i], 10) >= 0 {
              if i < |intDigits| { assert d[i] == intDigits[i]; }
              else { assert d[i] == fracDigits[i - |intDigits|]; }
            }
          }
          var m: int := DigitsValue(intDigits + fracDigits, 10);
          Finite(if neg then -m else m, x - |fracDigits|)
  }

  /** The radix a `0x`/`0o`/`0b` prefix selects, or 0 when there is none. */
  function PrefixRadix(t: string): nat
  {
    if |t| >= 2 && t[0] == '0' then
      if t[1] == 'x' || t[1] == 'X' then 16
      else if t[1] == 'o' || t[1] == 'O' then 8
      else if t[1] == 'b' || t[1] == 'B' then 2
      else 0
    else 0
  }

  /**
   * `Number(s)` for a string: white space around the literal is ignored, the
   * empty string is 0, and anything outside the StringNumericLiteral grammar is NaN.
   */
  function StringToNumber(s: string): Number
  {
    var t := Trim(s);
    if t == [] then Finite(0, 0)
    else
      var radix := PrefixRadix(t);
      if radix != 0 then
        var digits := t[2..];
        if digits != [] && AllDigits(digits, radix) then Finite(DigitsValue(digits, radix), 0) else NaN
      else ParseDecimal(t)
  }

  // ---------------------------------------------------------------------------
  // Number -> String

  function DigitChar(d: nat): char
    requires d < 10
  {
    ('0' as int + d) as char
  }

  /** The decimal representation of a natural number, without leading zeros. */
  function NatToDecimal(n: nat): (r: string)
    ensures |r| >= 1 && AllDigits(r, 10)
    ensures r[0] == '0' ==> n == 0
  {
    if n < 10 then [DigitChar(n)]
    else
      var p := NatToDecimal(n / 10);
      var r := p + [DigitChar(n % 10)];
      assert forall i :: 0 <= i < |p| ==> r[i] == p[i];
      r
  }

  /** Reading back the decimal representation of `n` gives `n`. */
  lemma {:induction false} NatToDecimalRoundTrip(n: nat)
    ensures DigitsValue(NatToDecimal(n), 10) == n
  {
    if n >= 10 {
      var r := NatToDecimal(n);
      NatToDecimalRoundTrip(n / 10);
      assert r[..|r| - 1] == NatToDecimal(n / 10);
    }
  }

  /** The decimal representation of an integer, with a leading `-` when negative. */
  function IntToDecimal(i: int): string
  {
    if i < 0 then "-" + NatToDecimal(-i) else NatToDecimal(i)
  }

  /** Removes trailing zero digits from `m`, raising the exponent so the value is kept. */
  function StripTrailingZeros(m: nat, e: int): (r: (nat, int))
    requires m > 0
    ensures r.0 > 0 && r.0 % 10 != 0
    ensures r.1 >= e && r.0 * Pow10(r.1 - e) == m
    decreases m
  {
    if m % 10 == 0 then
      var r := StripTrailingZeros(m / 10, e + 1);
      assert Pow10(r.1 - e) == 10 * Pow10(r.1 - (e + 1));
      r
    else (m, e)
  }

  /** Number::toString for a positive finite value m * 10^e. */
  function PositiveToString(m: nat, e: int): string
    requires m > 0
  {
    var (s, e1) := StripTrailingZeros(m, e);
    var digits := NatToDecimal(s);
    var k := |digits|;
    var n := k + e1;
    if k <= n <= 21 then digits + Repeat('0', n - k)
    else if 0 < n <= 21 then digits[..n] + "." + digits[n..]
    else if -6 < n <= 0 then "0." + Repeat('0', -n) + digits
    else
      var x := n - 1;
      var expText := (if x >= 0 then "+" else "-") + NatToDecimal(if x >= 0 then x else -x);
      if k == 1 then digits + "e" + expText
      else digits[..1] + "." + digits[1..] + "e" + expText
  }

  /** `String(n)` for a number. */
  function NumberToString(x: Number): string
  {
    match x
    case NaN => "NaN"
    case Infinity(neg) => if neg then "-Infinity" else "Infinity"
    case Finite(m, e) =>
      if m == 0 then "0"
      else if m < 0 then "-" + PositiveToString(-m, e)
      else PositiveToString(m, e)
  }

  /** Multiplying a positive number by ten appends a zero digit. */
  lemma NatToDecimalTimesTen(m: nat)
    requires m >= 1
    ensures NatToDecimal(m * 10) == NatToDecimal(m) + ['0']
  {
    assert (m * 10) / 10 == m;
    assert (m * 10) % 10 == 0;
  }

  lemma MulShift(s: nat, p: nat)
    ensures s * (10 * p) == (s * 10) * p
  {
  }

  /** Multiplying a positive number by 10^z appends z zero digits. */
  lemma {:induction false} NatToDecimalShift(s: nat, z: nat)
    requires s > 0
    ensures NatToDecimal(s * Pow10(z)) == NatToDecimal(s) + Repeat('0', z)
    decreases z
  {
    if z > 0 {
      var p := Pow10(z - 1);
      var t := s * 10;
      NatToDecimalShift(t, z - 1);
      MulShift(s, p);
      NatToDecimalTimesTen(s);
    }
  }

  /** A natural number below 10^d has at most d decimal digits. */
  lemma {:induction false} NatToDecimalLength(n: nat, d: nat)
    requires 1 <= d && n < Pow10(d)
    ensures |NatToDecimal(n)| <= d
  {
    if n >= 10 {
      assert d >= 2;
      assert n / 10 < Pow10(d - 1);
      NatToDecimalLength(n / 10, d - 1);
    }
  }

  /** Integers from 1 to below 10^21 print as their plain decimal digits. */
  lemma SmallNaturalToString(n: nat)
    requires 0 < n < Pow10(21)
    ensures NumberToString(FromInt(n)) == NatToDecimal(n)
  {
    var (s, e1) := StripTrailingZeros(n, 0);
    NatToDecimalShift(s, e1);
    NatToDecimalLength(n, 21);
  }

  /** A run of digits reaching the end of the string ends at the end. */
  lemma {:induction false} DigitRunEndAll(s: string, i: nat)
    requires i <= |s|
    requires forall k :: i <= k < |s| ==> IsDecimalDigit(s[k])
    ensures DigitRunEnd(s, i) == |s|
    decreases |s| - i
  {
    if i < |s| { DigitRunEndAll(s, i + 1); }
  }

  /** Reading the decimal representation of a natural number with `Number(...)` gives it back. */
  lemma ParsePrintedNatural(n: nat)
    ensures StringToNumber(NatToDecimal(n)) == FromInt(n)
  {
    var t := NatToDecimal(n);
    DecimalDigitsOf(t);
    ParseDigitString(t);
    NatToDecimalRoundTrip(n);
  }

  /** The digits of a decimal representation are the characters '0' to '9'. */
  lemma DecimalDigitsOf(t: string)
    requires AllDigits(t, 10)
    ensures forall k :: 0 <= k < |t| ==> IsDecimalDigit(t[k])
  {
    forall k | 0 <= k < |t| ensures IsDecimalDigit(t[k]) { assert DigitIn(t[k], 10) >= 0; }
  }

  /** A non-empty string of decimal digits reads as the integer it spells. */
  lemma ParseDigitString(t: string)
    requires t != [] && forall k :: 0 <= k < |t| ==> IsDecimalDigit(t[k])
    ensures AllDigits(t, 10) && StringToNumber(t) == Finite(DigitsValue(t, 10), 0)
  {
    assert forall k :: 0 <= k < |t| ==> !IsSpace(t[k]);
    TrimNoSpace(t);
    assert PrefixRadix(t) == 0;
    ParseDecimalDigits(t);
  }

  /** The StrDecimalLiteral branch on a plain digit string: no sign, no fraction, no exponent. */
  lemma ParseDecimalDigits(t: string)
    requires t != [] && forall k :: 0 <= k < |t| ==> IsDecimalDigit(t[k])
    ensures AllDigits(t, 10) && ParseDecimal(t) == Finite(DigitsValue(t, 10), 0)
  {
    DigitRunsOf(t);
    NotInfinity(t);
  }

  /** The digit runs of a plain digit string: the integer part is all of it, the fraction and exponent are empty. */
  lemma DigitRunsOf(t: string)
    requires forall k :: 0 <= k < |t| ==> IsDecimalDigit(t[k])
    ensures DigitRunEnd(t, 0) == |t| && DigitRunEnd(t, |t|) == |t|
    ensures t[..|t|] == t && t[|t|..|t|] == [] && t[|t|..] == [] && t + [] == t
  {
    DigitRunEndAll(t, 0);
  }

  lemma NotInfinity(t: string)
    requires t != [] && IsDecimalDigit(t[0])
    ensures t != "Infinity" && t[0] != '+' && t[0] != '-'
  {
    assert !IsDecimalDigit("Infinity"[0]);
  }

  // ---------------------------------------------------------------------------
  // The characters a printed number can contain

  /** The characters `String(x)` can produce for a number: digits, sign, point, exponent, and the letters of NaN and Infinity. */
  predicate NumeralChar(c: char) {
    || IsDecimalDigit(c) || c == '.' || c == '-' || c == '+' || c == 'e'
    || c == 'N' || c == 'a' || c == 'I' || c == 'n' || c == 'f' || c == 'i' || c == 't' || c == 'y'
  }

  predicate Numeral(s: string) { forall i :: 0 <= i < |s| ==> NumeralChar(s[i]) }

  /** A printed number consists of numeral characters only. */
  lemma NumberToStringNumeral(x: Number)
    ensures Numeral(NumberToString(x))
  {
    if !x.Finite? { SpecialNumeral(x); }
    else if x.mantissa == 0 { ZeroNumeral(x); }
    else if x.mantissa > 0 { PositiveNumeral(x); }
    else { NegativeNumeral(x); }
  }

  lemma SpecialNumeral(x: Number)
    requires !x.Finite?
    ensures Numeral(NumberToString(x))
  {
    LettersNumeral();
  }

  lemma ZeroNumeral(x: Number)
    requires x.Finite? && x.mantissa == 0
    ensures Numeral(NumberToString(x))
  {
  }

  lemma NegativeNumeral(x: Number)
    requires x.Finite? && x.mantissa < 0
    ensures Numeral(NumberToString(x))
  {
    var y := Finite(-x.mantissa, x.exponent);
    NegatedPrinted(x.mantissa, x.exponent);
    PositiveNumeral(y);
    MinusNumeral(NumberToString(x), NumberToString(y));
  }

  lemma PositiveNumeral(x: Number)
    requires x.Finite? && x.mantissa > 0
    ensures Numeral(NumberToString(x))
  {
    PositiveToStringNumeral(x.mantissa, x.exponent);
    PositivePrinted(x);
  }

  /** `String(-x)` is `"-" + String(x)` for a positive `x`. */
  lemma NegatedPrinted(m: int, e: int)
    requires m < 0
    ensures NumberToString(Finite(m, e)) == "-" + NumberToString(Finite(-m, e))
  {
  }

  lemma PositivePrinted(x: Number)
    requires x.Finite? && x.mantissa > 0
    ensures NumberToString(x) == PositiveToString(x.mantissa, x.exponent)
  {
  }

  lemma MinusNumeral(s: string, t: string)
    requires s == "-" + t && Numeral(t)
    ensures Numeral(s)
  {
    NumeralConcat("-", t);
  }

  lemma LettersNumeral()
    ensures Numeral("NaN") && Numeral("Infinity") && Numeral("-Infinity")
  {
  }

  lemma NumeralConcat(a: string, b: string)
    ensures Numeral(a + b) <==> Numeral(a) && Numeral(b)
  {
    if Numeral(a) && Numeral(b) {
      forall i | 0 <= i < |a + b| ensures NumeralChar((a + b)[i]) {
        if i < |a| { assert (a + b)[i] == a[i]; } else { assert (a + b)[i] == b[i - |a|]; }
      }
    }
    if Numeral(a + b) {
      assert forall i :: 0 <= i < |a| ==> a[i] == (a + b)[i];
      assert forall i :: 0 <= i < |b| ==> b[i] == (a + b)[|a| + i];
    }
  }

  lemma NumeralSlices(s: string, n: nat)
    requires Numeral(s) && n <= |s|
    ensures Numeral(s[..n]) && Numeral(s[n..])
  {
    assert forall i :: 0 <= i < n ==> s[..n][i] == s[i];
    assert forall i :: 0 <= i < |s| - n ==> s[n..][i] == s[n + i];
  }

  lemma DecimalNumeral(n: nat)
    ensures Numeral(NatToDecimal(n))
  {
    var d := NatToDecimal(n);
    forall i | 0 <= i < |d| ensures NumeralChar(d[i]) { assert DigitIn(d[i], 10) >= 0; }
  }

  lemma ZerosNumeral(k: nat)
    ensures Numeral(Repeat('0', k))
  {
  }

  /** Every branch of the positive-number printer writes digits, '.', 'e' and a sign only. */
  lemma PositiveToStringNumeral(m: nat, e: int)
    requires m > 0
    ensures Numeral(PositiveToString(m, e))
  {
    var (s, e1) := StripTrailingZeros(m, e);
    var digits := NatToDecimal(s);
    DecimalNumeral(s);
    PrintedLayoutsNumeral(digits, |digits| + e1);
  }

  /** The four layouts `Number::toString` chooses between, for digits `digits` and point position `n`. */
  lemma PrintedLayoutsNumeral(digits: string, n: int)
    requires Numeral(digits) && |digits| >= 1
    ensures var k := |digits|;
      && (k <= n ==> Numeral(digits + Repeat('0', n - k)))
      && (0 < n < k ==> Numeral(digits[..n] + "." + digits[n..]))
      && (n <= 0 ==> Numeral("0." + Repeat('0', -n) + digits))
      && (var x := n - 1;
          var expText := (if x >= 0 then "+" else "-") + NatToDecimal(if x >= 0 then x else -x);
          Numeral(digits + "e" + expText) && Numeral(digits[..1] + "." + digits[1..] + "e" + expText))
  {
    var k := |digits|;
    if k <= n { PlainLayoutNumeral(digits, n - k); }
    if 0 < n < k { PointLayoutNumeral(digits, n); }
    if n <= 0 { FractionLayoutNumeral(digits, -n); }
    ExponentNumeral(n - 1);
    ScientificNumeral(digits, n - 1);
  }

  lemma PlainLayoutNumeral(digits: string, z: nat)
    requires Numeral(digits)
    ensures Numeral(digits + Repeat('0', z))
  {
    ZerosNumeral(z);
    NumeralConcat(digits, Repeat('0', z));
  }

  lemma PointLayoutNumeral(digits: string, n: nat)
    requires Numeral(digits) && n <= |digits|
    ensures Numeral(digits[..n] + "." + digits[n..])
  {
    NumeralSlices(digits, n);
    NumeralConcat(digits[..n], ".");
    NumeralConcat(digits[..n] + ".", digits[n..]);
  }

  lemma FractionLayoutNumeral(digits: string, z: nat)
    requires Numeral(digits)
    ensures Numeral("0." + Repeat('0', z) + digits)
  {
    ZerosNumeral(z);
    NumeralConcat("0.", Repeat('0', z));
    NumeralConcat("0." + Repeat('0', z), digits);
  }

  lemma ExponentNumeral(x: int)
    ensures Numeral((if x >= 0 then "+" else "-") + NatToDecimal(if x >= 0 then x else -x))
  {
    DecimalNumeral(if x >= 0 then x else -x);
    NumeralConcat(if x >= 0 then "+" else "-", NatToDecimal(if x >= 0 then x else -x));
  }

  lemma ScientificNumeral(digits: string, x: int)
    requires Numeral(digits) && |digits| >= 1
    requires Numeral((if x >= 0 then "+" else "-") + NatToDecimal(if x >= 0 then x else -x))
    ensures var expText := (if x >= 0 then "+" else "-") + NatToDecimal(if x >= 0 then x else -x);
      Numeral(digits + "e" + expText) && Numeral(digits[..1] + "." + digits[1..] + "e" + expText)
  {
    var expText := (if x >= 0 then "+" else "-") + NatToDecimal(if x >= 0 then x else -x);
    NumeralConcat(digits, "e");
    NumeralConcat(digits + "e", expText);
    NumeralSlices(digits, 1);
    NumeralConcat(digits[..1], ".");
    NumeralConcat(digits[..1] + ".", digits[1..]);
    NumeralConcat(digits[..1] + "." + digits[1..], "e");
    NumeralConcat(digits[..1] + "." + digits[1..] + "e", expText);
  }
}
