/** `hhmmss` and `yyyymmdd` numbers and their text. */
module ScheduleText {
  import opened Wrappers
  import opened Decimal
  import opened Strings
  import opened Numerals
  import opened Doubles
  import opened NumberTexts

  /** `Math.max(0, Math.trunc(x)).toString().padStart(width, '0')`. */
  function Padded(x: Double, width: nat): (s: string)
    ensures |s| >= width
  {
    PadStart(ClampedText(x), width, '0')
  }

  /** `${w.slice(0, 2)}:${w.slice(2, 4)}:${w.slice(4, 6)}`. */
  function Colons(w: string): string
    requires |w| >= 6
  {
    w[..2] + ":" + w[2..4] + ":" + w[4..6]
  }

  function Dashes(w: string): string
    requires |w| >= 8
  {
    w[..4] + "-" + w[4..6] + "-" + w[6..8]
  }

  function DecodeTime(t: Double): string { Colons(Padded(t, 6)) }

  /** The parts of `HH:MM:SS`; a missing part is 0, a fourth one is ignored. */
  function FromParts(parts: seq<string>): Double
    requires |parts| >= 1
  {
    var h := NumberOf(parts[0]);
    var m := if |parts| > 1 then NumberOf(parts[1]) else Finite(0.0);
    var s := if |parts| > 2 then NumberOf(parts[2]) else Finite(0.0);
    Plus(Plus(Times(h, 10000), Times(m, 100)), s)
  }

  function EncodeTime(text: string): Double { FromParts(Split(text, ':')) }

  function DecodeDate(d: Double): string { Dashes(Padded(d, 8)) }

  function EncodeDate(text: string): Double { NumberOf(Without(text, '-')) }

  // ---- the texts that survive ----------------------------------------------

  /** Two-digit fields. */
  predicate IsTime(text: string) {
    |text| == 8 && text[2] == ':' && text[5] == ':' && AllDigits(text[..2]) && AllDigits(text[3..5])
    && AllDigits(text[6..])
  }

  predicate IsDate(text: string) {
    |text| == 10 && text[4] == '-' && text[7] == '-' && AllDigits(text[..4]) && AllDigits(text[5..7])
    && AllDigits(text[8..])
  }

  /** Not a number, padded with zeros, is one too. */
  predicate SurvivingTime(text: string) { IsTime(text) || text == "00:0N:aN" }

  ghost predicate SurvivingDate(text: string) {
    IsDate(text) || text == "Infi-ni-ty" || text == "0000-0N-aN" ||
    (|text| == 10 && text[4] == '-' && text[7] == '-' && IsExponential(text[..4] + text[5..7] + text[8..]))
  }

  /** Zeros, then the numeral of a double from 10^21 on, such as `1e+21` or `1.5e+300`. */
  ghost predicate IsExponential(w: string) {
    exists digits: string, x: nat :: IsExponentialOf(w, digits, x)
  }

  predicate IsExponentialOf(w: string, digits: string, x: nat) {
    && AllDigits(digits) && digits != "" && digits[0] != '0' && digits[|digits| - 1] != '0'
    && x >= 21 && Scaled(NatValue(digits), x + 1 - |digits|) < OVERFLOW as real
    && var numeral := Literal(digits[..1], digits[1..], Some(x));
       |numeral| <= |w| && w == Repeat('0', |w| - |numeral|) + numeral
  }

  lemma ThreeParts(a: string, b: string, c: string)
    ensures AllDigits(a + b + c) <==> AllDigits(a) && AllDigits(b) && AllDigits(c)
  {
    var t := a + b + c;
    assert a == t[..|a|] && b == t[|a|..|a| + |b|] && c == t[|a| + |b|..];
  }

  // ---- padded numbers ------------------------------------------------------

  function PaddedNat(n: nat, width: nat): (s: string)
    ensures |s| >= width
  {
    PadStart(NatToString(n), width, '0')
  }

  lemma PaddedNatDigits(n: nat, width: nat)
    ensures AllDigits(PaddedNat(n, width)) && NatValue(PaddedNat(n, width)) == n
  {
    var digits := NatToString(n);
    NatRoundTrip(n);
    if |digits| < width { LeadingZeros(digits, width - |digits|); }
  }

  lemma PaddedExactly(n: nat, width: nat)
    requires width >= 1
    ensures |PaddedNat(n, width)| == width <==> n < Pow10(width)
  {
    PaddedNatDigits(n, width);
    if n < Pow10(width) { NatToStringLength(n, width); } else { NatValueBound(PaddedNat(n, width)); }
  }

  lemma PaddedValue(digits: string)
    requires AllDigits(digits) && digits != ""
    ensures PaddedNat(NatValue(digits), |digits|) == digits
  {
    NatValueBound(digits);
    PaddedExactly(NatValue(digits), |digits|);
    PaddedNatDigits(NatValue(digits), |digits|);
    DigitsDetermined(PaddedNat(NatValue(digits), |digits|), digits);
  }

  lemma PlainPadded(n: nat, width: nat)
    requires n < PLAIN_LIMIT
    ensures Padded(Finite(n as real), width) == PaddedNat(n, width)
  {
    PlainText(n);
    assert (n as real).Floor == n;
  }

  /** The first digits of a padded integer give it back exactly when it fits and is not negative. */
  lemma PrefixValue(n: int, width: nat)
    requires width >= 1 && n < PLAIN_LIMIT
    ensures var s := Padded(Finite(n as real), width)[..width];
            AllDigits(s) && (NatValue(s) == n <==> 0 <= n < Pow10(width))
  {
    var k: nat := if n < 0 then 0 else n;
    var s := PaddedNat(k, width)[..width];
    PlainPadded(k, width);
    assert Padded(Finite(n as real), width) == PaddedNat(k, width);
    PaddedNatDigits(k, width);
    PaddedExactly(k, width);
    NatValueBound(s);
    if k < Pow10(width) { assert s == PaddedNat(k, width); }
  }

  // ---- what a number's text is made of -------------------------------------

  /** Kinds of text a number can print as. */
  lemma TextCases(x: Double) returns (m: nat, z: nat)
    ensures var t := ClampedText(x);
      || (x.NaN? && t == "NaN") || (x.PlusInfinity? && t == "Infinity") || (t != "" && AllDigits(t))
      || (x.Finite? && m % 10 != 0 && |NatToString(m)| + z > 21 && (TimesTen(m, z)) as real <= x.value
          && t == Exponential(m, |NatToString(m)| + z - 1))
  {
    m, z := 0, 0;
    if x.Finite? && x.value >= 1.0 {
      var n := x.value.Floor;
      if n < PLAIN_LIMIT { PlainText(n); } else { m, z := LargeText(n); }
    }
  }

  lemma DigitsHaveNone(s: string, c: char)
    requires AllDigits(s) && !IsDigit(c)
    ensures c !in s
  {}

  lemma NoSeparators(x: Double, c: char)
    requires c == ':' || c == '-'
    ensures c !in ClampedText(x)
  {
    hide ClampedText, NatToString;
    var m, z := TextCases(x);
    DigitsHaveNone(NatToString(m), c);
    DigitsHaveNone(NatToString(|NatToString(m)| + z - 1), c);
  }

  lemma NumberIsBounded(t: string)
    ensures var x := NumberOf(t); x.Finite? ==> x.value < OVERFLOW as real
  {}

  /** The whole numbers that are not negative. */
  predicate IsWhole(x: Double) { x.Finite? && x.value >= 0.0 && x.value == x.value.Floor as real }

  lemma ZerosAreNaN(zeros: string, width: nat)
    requires zeros != "" && zeros == Repeat('0', |zeros|) && width == |zeros| + 3
    ensures NumberOf(zeros + "NaN") == NaN && Padded(NaN, width) == zeros + "NaN"
  {
    var t := zeros + "NaN";
    assert IsSolid(t) && t != "Infinity" by { assert t[1] == if |zeros| > 1 then '0' else 'N'; }
    assert Scan(t) == Some(Scanned(zeros, false, "", 0, "NaN")) by {
      ScanMantissa(zeros, "", "NaN");
      assert Mantissa(zeros, "") == zeros;
    }
    NotReadWhole(t, Scanned(zeros, false, "", 0, "NaN"));
  }

  lemma NotReadWhole(t: string, s: Scanned)
    requires IsSolid(t) && t != "Infinity" && Scan(t) == Some(s) && s.rest != ""
    ensures NumberOf(t) == NaN
  {
    NumberOfSolid(t);
  }

  lemma LastDigitOf(digits: string)
    requires AllDigits(digits) && digits != ""
    ensures NatValue(digits) % 10 == DigitValue(digits[|digits| - 1])
  {}

  lemma PaddedHasNone(x: Double, width: nat, c: char)
    requires c == ':' || c == '-'
    ensures c !in Padded(x, width)
  {
    NoSeparators(x, c);
  }

  lemma SameTruncated(x: Double, n: nat)
    requires x.Finite? && if x.value < 0.0 then n == 0 else n == x.value.Floor
    ensures ClampedText(x) == ClampedText(Finite(n as real))
  {
    assert (n as real).Floor == n;
    assert x.value < 1.0 ==> n == 0;
    assert ClampedText(Finite(0.0)) == "0";
  }
}
