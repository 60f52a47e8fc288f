/** Which dates survive decoding and encoding. */
module DateTexts {
  import opened Wrappers
  import opened Decimal
  import opened Strings
  import opened Numerals
  import opened Doubles
  import opened NumberTexts
  import opened ScheduleText

  lemma DigitsFixed(w: string)
    requires AllDigits(w) && 1 <= |w| <= 8
    ensures Padded(NumberOf(w), |w|) == w
  {
    NatValueBound(w);
    Pow10Grows(|w|, 8);
    assert Pow10(8) == 100000000;
    NumberOfDigits(w);
    PlainPadded(NatValue(w), |w|);
    PaddedValue(w);
  }

  lemma ZerosJoin(zeros: string, d: string, f: string, x: nat)
    ensures zeros + Literal(d, f, Some(x)) == Literal(zeros + d, f, Some(x))
  {
    var tail := (if f == "" then "" else "." + f) + ExponentText(x);
    assert Literal(d, f, Some(x)) == d + tail && Literal(zeros + d, f, Some(x)) == zeros + d + tail;
  }

  lemma ZerosRead(zeros: nat, digits: string, x: nat, v: real)
    requires AllDigits(digits) && digits != ""
    requires v == Scaled(NatValue(digits), x + 1 - |digits|) && v < OVERFLOW as real
    ensures NumberOf(Literal(Repeat('0', zeros) + digits[..1], digits[1..], Some(x))) == Finite(v)
  {
    var d, f := digits[..1], digits[1..];
    LeadingZeros(digits, zeros);
    assert (Repeat('0', zeros) + d) + f == Repeat('0', zeros) + digits;
    NumberOfLiteral(Repeat('0', zeros) + d, f, Some(x), v);
  }

  lemma ExponentialRead(w: string, digits: string, x: nat)
    requires IsExponentialOf(w, digits, x)
    ensures NumberOf(w) == Finite(Scaled(NatValue(digits), x + 1 - |digits|))
  {
    var zeros := |w| - |Literal(digits[..1], digits[1..], Some(x))|;
    ZerosJoin(Repeat('0', zeros), digits[..1], digits[1..], x);
    ZerosRead(zeros, digits, x, Scaled(NatValue(digits), x + 1 - |digits|));
  }

  lemma ClampedWhole(n: nat)
    requires n >= 1
    ensures ClampedText(Finite(n as real)) == NatText(n)
  {
    assert (n as real).Floor == n;
  }

  lemma ExponentialWritten(digits: string, x: nat, m: nat, z: nat)
    requires AllDigits(digits) && digits != "" && digits[0] != '0' && digits[|digits| - 1] != '0'
    requires x >= 21 && z == x + 1 - |digits| && m == NatValue(digits)
    ensures ClampedText(Finite((TimesTen(m, z)) as real)) == Literal(digits[..1], digits[1..], Some(x))
  {
    hide NatText, ClampedText, NatToString, NatValue, Literal;
    StringRoundTrip(digits);
    LastDigitOf(digits);
    ExponentialText(m, z);
    LargeEnough(m, z);
    ClampedWhole(TimesTen(m, z));
  }

  lemma ExponentialFixed(w: string, digits: string, x: nat)
    requires IsExponentialOf(w, digits, x) && |w| <= 20
    ensures Padded(NumberOf(w), |w|) == w
  {
    hide NumberOf, ClampedText, Literal, NatValue;
    LiteralLength(digits, x);
    ExponentialRead(w, digits, x);
    ExponentialWritten(digits, x, NatValue(digits), x + 1 - |digits|);
  }

  lemma LiteralLength(digits: string, x: nat)
    requires digits != ""
    ensures |digits| <= |Literal(digits[..1], digits[1..], Some(x))|
  {}

  /** Eight characters that a number's padded text starts with, and that read as that number. */
  lemma DateFixed(w: string)
    requires |w| == 8
    ensures Padded(NumberOf(w), 8)[..8] == w <==>
            AllDigits(w) || w == "Infinity" || w == "00000NaN" || IsExponential(w)
  {
    hide NumberOf, Padded;
    assert w[..8] == w;
    if Padded(NumberOf(w), 8)[..8] == w {
      DateFixedOnly(w);
    } else if AllDigits(w) {
      DigitsFixed(w);
    } else if w == "00000NaN" || w == "Infinity" {
      PaddedNames();
    } else if IsExponential(w) {
      var digits, x :| IsExponentialOf(w, digits, x);
      ExponentialFixed(w, digits, x);
    }
  }


  lemma DateFixedOnly(w: string)
    requires |w| == 8 && Padded(NumberOf(w), 8)[..8] == w
    ensures AllDigits(w) || w == "Infinity" || w == "00000NaN" || IsExponential(w)
  {
    var x := NumberOf(w);
    var t := ClampedText(x);
    var m, z := TextCases(x);
    NumberIsBounded(w);
    if x.NaN? {
      ZerosAreNaN("00000", 8);
    } else if !x.PlusInfinity? && !AllDigits(t) {
      if |t| > 8 {
        CutShort(m, z, 8);
      } else {
        ExponentialFound(w, m, z);
      }
    }
  }

  lemma ExponentialFound(w: string, m: nat, z: nat)
    requires m % 10 != 0 && |NatToString(m)| + z > 21 && (TimesTen(m, z)) as real < OVERFLOW as real
    requires var t := Exponential(m, |NatToString(m)| + z - 1); |t| <= |w| && w == PadStart(t, |w|, '0')
    ensures IsExponential(w)
  {
    var digits := NatToString(m);
    NatRoundTrip(m);
    LastDigitOf(digits);
    assert IsExponentialOf(w, digits, |digits| + z - 1);
  }

  lemma WithoutDashes(w: string)
    requires |w| >= 8 && '-' !in w
    ensures Without(Dashes(w), '-') == w[..8]
  {
    DropDash(w[..4], w[4..6] + "-" + w[6..8]);
    DropDash(w[4..6], w[6..8]);
    WithoutAbsent(w[6..8], '-');
    assert Dashes(w) == w[..4] + "-" + (w[4..6] + "-" + w[6..8]);
    assert w[..4] + (w[4..6] + w[6..8]) == w[..8];
  }

  lemma DropDash(front: string, rest: string)
    requires '-' !in front
    ensures Without(front + "-" + rest, '-') == front + Without(rest, '-')
  {
    var tail := "-" + rest;
    assert tail[1..] == rest;
    assert Without(tail, '-') == Without(rest, '-');
    WithoutAbsent(front, '-');
    WithoutConcat(front, tail, '-');
    assert front + "-" + rest == front + tail;
  }

  /** Dates and the eight characters they hold. */
  lemma DateCharacters(text: string, w: string)
    requires |text| == 10 && text[4] == '-' && text[7] == '-' && w == text[..4] + text[5..7] + text[8..]
    ensures |w| == 8 && text == Dashes(w)
    ensures AllDigits(w) <==> IsDate(text)
    ensures (w == "Infinity" <==> text == "Infi-ni-ty") && (w == "00000NaN" <==> text == "0000-0N-aN")
  {
    assert w[..4] == text[..4] && w[4..6] == text[5..7] && w[6..8] == text[8..];
    ThreeParts(text[..4], text[5..7], text[8..]);
    assert Dashes("Infinity") == "Infi-ni-ty" && Dashes("00000NaN") == "0000-0N-aN";
    DashesDetermine(w, "Infinity");
    DashesDetermine(w, "00000NaN");
    assert w[..8] == w && "Infinity"[..8] == "Infinity" && "00000NaN"[..8] == "00000NaN";
  }

  lemma DashesDetermine(u: string, w: string)
    requires |u| >= 8 && |w| >= 8
    ensures Dashes(u) == Dashes(w) <==> u[..8] == w[..8]
  {
    var s, t := Dashes(u), Dashes(w);
    assert s[..4] == u[..4] && s[5..7] == u[4..6] && s[8..] == u[6..8];
    assert t[..4] == w[..4] && t[5..7] == w[4..6] && t[8..] == w[6..8];
    assert u[..8] == u[..4] + u[4..6] + u[6..8] && w[..8] == w[..4] + w[4..6] + w[6..8];
  }

  /** Decoding undoes encoding exactly on these texts. */
  lemma DateTextRoundTrip(text: string)
    ensures DecodeDate(EncodeDate(text)) == text <==> SurvivingDate(text)
  {
    if DecodeDate(EncodeDate(text)) == text { SurvivesOnly(text); }
    if SurvivingDate(text) { Survives(text); }
  }

  /** A number from 10^21 on, infinity and NaN: texts that are no dates and survive. */
  lemma OddDatesSurvive(text: string)
    requires text in {"0001-e+-21", "Infi-ni-ty", "0000-0N-aN"}
    ensures !IsDate(text) && DecodeDate(EncodeDate(text)) == text
  {
    hide DecodeDate, EncodeDate, IsExponential;
    if text == "0001-e+-21" { SmallestExponential(); }
    DateTextRoundTrip(text);
    NotDigits(text);
  }

  lemma NotDigits(text: string)
    requires |text| == 10 && !(IsDigit(text[5]) && IsDigit(text[8]))
    ensures !IsDate(text)
  {
    assert text[5..7][0] == text[5];
    assert text[8..][0] == text[8];
  }

  lemma SmallestExponential()
    ensures SurvivingDate("0001-e+-21")
  {
    var text := "0001-e+-21";
    assert text[..4] + text[5..7] + text[8..] == "0001e+21";
    SmallestNumeral();
  }

  lemma SmallestNumeral()
    ensures IsExponentialOf("0001e+21", "1", 21)
  {
    hide Scaled;
    assert NatToString(21) == "21" && Literal("1", "", Some(21)) == "1e+21";
    assert Repeat('0', 3) == "000" && "0001e+21" == "000" + "1e+21";
    OneAtLimit();
  }

  lemma OneAtLimit()
    ensures NatValue("1") == 1 && Scaled(1, 21) < OVERFLOW as real
  {
    TenTo(21);
    PlainLimit();
  }

  lemma SurvivesOnly(text: string)
    requires DecodeDate(EncodeDate(text)) == text
    ensures SurvivingDate(text)
  {
    hide NumberOf, Padded, IsExponential;
    var s := Padded(EncodeDate(text), 8);
    var w := s[..8];
    PaddedHasNone(EncodeDate(text), 8, '-');
    WithoutDashes(s);
    assert text[..4] == s[..4] && text[5..7] == s[4..6] && text[8..] == s[6..8];
    assert s[..4] + s[4..6] + s[6..8] == w;
    DateCharacters(text, w);
    DateFixed(w);
  }

  lemma Survives(text: string)
    requires SurvivingDate(text)
    ensures DecodeDate(EncodeDate(text)) == text
  {
    hide NumberOf, Padded, IsExponential;
    var w := text[..4] + text[5..7] + text[8..];
    DateCharacters(text, w);
    DateFixed(w);
    PaddedHasNone(NumberOf(w), 8, '-');
    WithoutDashes(w);
    DashesDetermine(Padded(NumberOf(w), 8), w);
  }

  /** The date encodings that survive: NaN, infinity and whole numbers whose text has at most eight characters. */
  predicate SurvivingDateNumber(d: Double) {
    d.NaN? || d.PlusInfinity? || (IsWhole(d) && |ClampedText(d)| <= 8)
  }

  lemma PlainDateRead(n: nat)
    requires n < PLAIN_LIMIT
    ensures NumberOf(Padded(Finite(n as real), 8)[..8]) == Finite(n as real) <==> n < Pow10(8)
    ensures IsWhole(NumberOf(Padded(Finite(n as real), 8)[..8]))
  {
    hide NumberOf, Padded;
    var w := Padded(Finite(n as real), 8)[..8];
    PrefixValue(n, 8);
    NatValueBound(w);
    assert Pow10(8) == 100000000;
    NumberOfDigits(w);
    assert (NatValue(w) as real).Floor == NatValue(w);
  }

  lemma PlainLength(n: nat)
    requires n < PLAIN_LIMIT
    ensures |ClampedText(Finite(n as real))| <= 8 <==> n < Pow10(8)
  {
    PlainText(n);
    assert (n as real).Floor == n;
    assert Padded(Finite(n as real), 8) == PaddedNat(n, 8) by { PlainPadded(n, 8); }
    PaddedExactly(n, 8);
  }

  lemma ShortLargeRead(m: nat, z: nat, t: string)
    requires m % 10 != 0 && |NatToString(m)| + z > 21 && TimesTen(m, z) < OVERFLOW
    requires t == Exponential(m, |NatToString(m)| + z - 1) && |t| <= 8
    ensures NumberOf(PadStart(t, 8, '0')[..8]) == Finite(TimesTen(m, z) as real)
  {
    hide NumberOf, NatToString, NatValue;
    var w, digits := PadStart(t, 8, '0'), NatToString(m);
    assert w[..8] == w;
    NatRoundTrip(m);
    LastDigitOf(digits);
    assert IsExponentialOf(w, digits, |digits| + z - 1);
    ExponentialRead(w, digits, |digits| + z - 1);
  }

  lemma LargeDateRead(n: nat)
    requires n >= PLAIN_LIMIT && n < OVERFLOW
    ensures var t := ClampedText(Finite(n as real)); var x := NumberOf(PadStart(t, 8, '0')[..8]);
            if |t| <= 8 then x == Finite(n as real) else x == NaN || (x.Finite? && x.value < n as real)
  {
    hide NumberOf, NatToString, NatValue, ClampedText, Exponential;
    ClampedWhole(n);
    var m, z := LargeText(n);
    var t := NatText(n);
    if |t| > 8 {
      CutShort(m, z, 8);
      assert PadStart(t, 8, '0') == t;
    } else {
      ShortLargeRead(m, z, t);
    }
  }

  /** What the first eight characters of a padded date read as. */
  lemma FiniteDateFixed(d: Double, n: nat)
    requires d.Finite? && d.value < OVERFLOW as real && if d.value < 0.0 then n == 0 else n == d.value.Floor
    ensures NumberOf(Padded(d, 8)[..8]) == d <==> SurvivingDateNumber(d)
  {
    hide NumberOf, ClampedText;
    SameTruncated(d, n);
    assert Padded(d, 8) == Padded(Finite(n as real), 8);
    assert IsWhole(d) <==> d.value == n as real;
    if n < PLAIN_LIMIT {
      PlainDateRead(n);
      PlainLength(n);
      assert Pow10(8) == 100000000;
    } else {
      LargeDateRead(n);
    }
  }

  /** What the first eight characters of a padded date read as. */
  lemma DateNumberFixed(d: Double)
    requires d.Finite? ==> d.value < OVERFLOW as real
    ensures NumberOf(Padded(d, 8)[..8]) == d <==> SurvivingDateNumber(d)
  {
    hide NumberOf, Padded;
    if d.Finite? {
      FiniteDateFixed(d, if d.value < 0.0 then 0 else d.value.Floor);
    } else {
      PaddedNames();
      NegativeInfinityReadsZero();
    }
  }

  lemma PaddedNames()
    ensures Padded(NaN, 8)[..8] == "00000NaN" && Padded(PlusInfinity, 8)[..8] == "Infinity"
    ensures NumberOf("00000NaN") == NaN && NumberOf("Infinity") == PlusInfinity
  {
    ZerosAreNaN("00000", 8);
    assert "00000" + "NaN" == "00000NaN";
    TrimSolid("Infinity");
  }

  lemma NegativeInfinityReadsZero()
    ensures NumberOf(Padded(MinusInfinity, 8)[..8]) != MinusInfinity
  {
    assert ClampedText(MinusInfinity) == ClampedText(Finite(0.0));
    assert (0 as real).Floor == 0;
    PlainDateRead(0);
  }

  /** Encoding undoes decoding exactly on these numbers. */
  lemma DateRoundTrip(d: Double)
    requires d.Finite? ==> d.value < OVERFLOW as real
    ensures EncodeDate(DecodeDate(d)) == d <==> SurvivingDateNumber(d)
  {
    hide NumberOf, Padded, SurvivingDateNumber;
    PaddedHasNone(d, 8, '-');
    WithoutDashes(Padded(d, 8));
    DateNumberFixed(d);
  }

  /** Among the integers below 10^21 those are the ones with at most eight digits that are not negative. */
  lemma IntegerDateRoundTrip(d: int)
    requires d < PLAIN_LIMIT
    ensures EncodeDate(DecodeDate(Finite(d as real))) == Finite(d as real) <==> 0 <= d <= 99999999
  {
    hide EncodeDate, DecodeDate, ClampedText;
    var x := Finite(d as real);
    assert OVERFLOW > PLAIN_LIMIT;
    DateRoundTrip(x);
    assert x.value.Floor == d;
    assert Pow10(8) == 100000000;
    if d >= 0 { PlainLength(d); }
  }
}
