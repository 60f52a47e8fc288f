/** Which times survive decoding and encoding. */
module TimeTexts {
  import opened Wrappers
  import opened Decimal
  import opened Strings
  import opened Numerals
  import opened Doubles
  import opened ScheduleText

  /** Two characters read as a number below a hundred, or as none. */
  lemma TwoCharacters(p: string)
    requires |p| == 2
    ensures var x := NumberOf(p); x == NaN || (x.Finite? && -100.0 < x.value < 100.0)
  {
    hide UnsignedNumber, TrimStart, TrimEnd;
    var t := TrimEnd(TrimStart(p));
    assert |t| <= 2 by { TrimShortens(p); }
    UnsignedIsSmall(t);
    if t != "" { UnsignedIsSmall(t[1..]); }
  }

  lemma {:induction false} TrimShortens(t: string)
    ensures |TrimStart(t)| <= |t| && |TrimEnd(t)| <= |t| && |TrimEnd(TrimStart(t))| <= |t|
  {
    if t != "" {
      TrimShortens(t[1..]);
      TrimShortens(t[..|t| - 1]);
    }
  }

  lemma UnsignedIsSmall(t: string)
    requires |t| <= 2
    ensures var x := UnsignedNumber(t); x == NaN || (x.Finite? && 0.0 <= x.value < 100.0)
  {
    hide Scan, Scaled, NatValue;
    var r := Scan(t);
    if r.Some? && r.value.whole + r.value.frac != "" {
      FewDigits(r.value.whole + r.value.frac, |r.value.frac|);
    }
  }

  lemma FewDigits(digits: string, k: nat)
    requires AllDigits(digits) && |digits| <= 2
    ensures 0.0 <= Scaled(NatValue(digits), -(k as int)) < 100.0
  {
    NatValueBound(digits);
    Pow10Grows(|digits|, 2);
    assert Pow10(2) == 100;
    ScaledShrinks(NatValue(digits), k);
  }

  lemma {:induction false} ScaledShrinks(m: nat, k: nat)
    ensures Scaled(m, -(k as int)) <= m as real
  {
    if k > 0 { ScaledShrinks(m, k - 1); }
  }

  /** The three fields of six characters. */
  function Fields(w: string): seq<string>
    requires |w| >= 6
  {
    [w[..2], w[2..4], w[4..6]]
  }

  lemma FieldsOfPrefix(s: string)
    requires |s| >= 6
    ensures Fields(s) == Fields(s[..6])
  {
    var w := s[..6];
    assert s[..2] == w[..2] && s[2..4] == w[2..4] && s[4..6] == w[4..6];
  }

  lemma SplitColons(w: string)
    requires |w| >= 6 && ':' !in w
    ensures Split(Colons(w), ':') == Fields(w)
  {
    var h, m, s := w[..2], w[2..4], w[4..6];
    SplitOne(s, ':');
    SplitMore(m, s, ':');
    SplitMore(h, m + ":" + s, ':');
    assert h + ":" + (m + ":" + s) == Colons(w);
  }

  lemma FieldsAreSmall(w: string)
    requires |w| >= 6
    ensures var x := FromParts(Fields(w)); x == NaN || (x.Finite? && x.value < 1010100.0)
  {
    TwoCharacters(w[..2]);
    TwoCharacters(w[2..4]);
    TwoCharacters(w[4..6]);
    SumIsSmall(NumberOf(w[..2]), NumberOf(w[2..4]), NumberOf(w[4..6]));
  }

  lemma SumIsSmall(h: Double, m: Double, s: Double)
    requires h == NaN || (h.Finite? && -100.0 < h.value < 100.0)
    requires m == NaN || (m.Finite? && -100.0 < m.value < 100.0)
    requires s == NaN || (s.Finite? && -100.0 < s.value < 100.0)
    ensures var x := Plus(Plus(Times(h, 10000), Times(m, 100)), s);
            if h.NaN? || m.NaN? || s.NaN? then x == NaN
            else x == Finite(h.value * 10000.0 + m.value * 100.0 + s.value) && x.value < 1010100.0
  {}

  lemma PairDigits(p: string)
    requires |p| == 2 && AllDigits(p)
    ensures NumberOf(p) == Finite(NatValue(p) as real) && NatValue(p) < 100
  {
    NatValueBound(p);
    assert Pow10(2) == 100;
    NumberOfDigits(p);
  }

  lemma FieldsValue(w: string)
    requires |w| == 6 && AllDigits(w)
    ensures NatValue(w) == NatValue(w[..2]) * 10000 + NatValue(w[2..4]) * 100 + NatValue(w[4..6])
  {
    assert Pow10(2) == 100;
    NatValueConcat(w[..2], w[2..4]);
    NatValueConcat(w[..2] + w[2..4], w[4..6]);
    assert w == w[..2] + w[2..4] + w[4..6];
  }

  lemma DigitsTime(w: string)
    requires |w| == 6 && AllDigits(w)
    ensures FromParts(Fields(w)) == Finite(NatValue(w) as real)
  {
    hide NumberOf, NatValue;
    PairDigits(w[..2]);
    PairDigits(w[2..4]);
    PairDigits(w[4..6]);
    SumIsSmall(NumberOf(w[..2]), NumberOf(w[2..4]), NumberOf(w[4..6]));
    FieldsValue(w);
  }

  lemma ZeroNIsNaN()
    ensures NumberOf("0N") == NaN
  {
    var s := Scanned("0", false, "", 0, "N");
    ScanMantissa("0", "", "N");
    assert Mantissa("0", "") + "N" == "0N";
    NotReadWhole("0N", s);
  }

  lemma NaNFields()
    ensures FromParts(Fields("000NaN")) == NaN
  {
    hide NumberOf, Times, Plus;
    var w := "000NaN";
    assert w[..2] == "00" && w[2..4] == "0N" && w[4..6] == "aN";
    ZeroNIsNaN();
    TwoCharacters("00");
    TwoCharacters("aN");
    SumIsSmall(NumberOf("00"), NaN, NumberOf("aN"));
  }

  lemma NaNTime()
    ensures FromParts(Fields("000NaN")) == NaN && Padded(NaN, 6) == "000NaN"
  {
    hide NumberOf, FromParts, Padded;
    NaNFields();
    ZerosAreNaN("000", 6);
    assert "000" + "NaN" == "000NaN";
  }

  lemma TimeFixedOnly(w: string)
    requires |w| == 6 && Padded(FromParts(Fields(w)), 6)[..6] == w
    ensures AllDigits(w) || w == "000NaN"
  {
    var x := FromParts(Fields(w));
    FieldsAreSmall(w);
    var m, z := TextCases(x);
    if x.NaN? {
      NaNTime();
    } else if !AllDigits(ClampedText(x)) {
      DigitsBoundBelow(m, z);
    }
  }

  lemma DigitsBoundBelow(m: nat, z: nat)
    requires m % 10 != 0 && |NatToString(m)| + z > 21
    ensures TimesTen(m, z) >= PLAIN_LIMIT
  {
    DigitsAtLeast(m);
    TimesTenAtLeast(m, z, |NatToString(m)| - 1);
    Pow10Grows(21, |NatToString(m)| - 1 + z);
    PlainLimit();
  }

  lemma {:induction false} DigitsAtLeast(m: nat)
    requires m > 0
    ensures m >= Pow10(|NatToString(m)| - 1)
  {
    if m >= 10 { DigitsAtLeast(m / 10); }
  }

  lemma {:induction false} TimesTenAtLeast(m: nat, z: nat, k: nat)
    requires m >= Pow10(k)
    ensures TimesTen(m, z) >= Pow10(k + z)
  {
    if z > 0 { TimesTenAtLeast(m, z - 1, k); }
  }

  /** Six characters that a time's padded text starts with, and that read as that time. */
  lemma TimeFixed(w: string)
    requires |w| == 6
    ensures Padded(FromParts(Fields(w)), 6)[..6] == w <==> AllDigits(w) || w == "000NaN"
  {
    hide FromParts, Padded;
    if Padded(FromParts(Fields(w)), 6)[..6] == w { TimeFixedOnly(w); }
    if w == "000NaN" { NaNTime(); }
    if AllDigits(w) { DigitsTimeFixed(w); }
  }

  lemma DigitsTimeFixed(w: string)
    requires |w| == 6 && AllDigits(w)
    ensures Padded(FromParts(Fields(w)), 6) == w
  {
    DigitsTime(w);
    NatValueBound(w);
    assert Pow10(6) == 1000000;
    PlainPadded(NatValue(w), 6);
    PaddedValue(w);
  }

  lemma TimeCharacters(text: string, w: string)
    requires |text| == 8 && text[2] == ':' && text[5] == ':' && w == text[..2] + text[3..5] + text[6..]
    ensures |w| == 6 && text == Colons(w)
    ensures AllDigits(w) <==> IsTime(text)
    ensures w == "000NaN" <==> text == "00:0N:aN"
  {
    assert w[..2] == text[..2] && w[2..4] == text[3..5] && w[4..6] == text[6..];
    ThreeParts(text[..2], text[3..5], text[6..]);
    if text == "00:0N:aN" { assert w == "00" + "0N" + "aN"; }
    assert Colons("000NaN") == "00:0N:aN";
  }

  lemma TimeSurvivesOnly(text: string)
    requires DecodeTime(EncodeTime(text)) == text
    ensures SurvivingTime(text)
  {
    hide FromParts, Padded, Split;
    var s := Padded(EncodeTime(text), 6);
    var w := s[..6];
    PaddedHasNone(EncodeTime(text), 6, ':');
    SplitColons(s);
    FieldsOfPrefix(s);
    assert text[..2] == s[..2] && text[3..5] == s[2..4] && text[6..] == s[4..6];
    assert s[..2] + s[2..4] + s[4..6] == w;
    TimeCharacters(text, w);
    TimeFixed(w);
  }

  lemma TimeSurvives(text: string)
    requires SurvivingTime(text)
    ensures DecodeTime(EncodeTime(text)) == text
  {
    hide FromParts, Padded, Split;
    var w := text[..2] + text[3..5] + text[6..];
    TimeCharacters(text, w);
    TimeFixed(w);
    PaddedHasNone(FromParts(Fields(w)), 6, ':');
    SplitColons(w);
    var s := Padded(FromParts(Fields(w)), 6);
    assert s[..2] == s[..6][..2] && s[2..4] == s[..6][2..4] && s[4..6] == s[..6][4..6];
  }

  /** Decoding undoes encoding exactly on two-digit fields and on the text of NaN. */
  lemma TimeTextRoundTrip(text: string)
    ensures DecodeTime(EncodeTime(text)) == text <==> SurvivingTime(text)
  {
    hide EncodeTime, DecodeTime, SurvivingTime;
    if DecodeTime(EncodeTime(text)) == text { TimeSurvivesOnly(text); }
    if SurvivingTime(text) { TimeSurvives(text); }
  }

  lemma WholeTimeRead(n: nat)
    ensures var x := FromParts(Fields(Padded(Finite(n as real), 6)[..6]));
            (x == Finite(n as real) <==> n <= 999999) && (x == NaN || (x.Finite? && x.value < 1010100.0))
    ensures n < PLAIN_LIMIT ==> IsWhole(FromParts(Fields(Padded(Finite(n as real), 6)[..6])))
  {
    hide FromParts, Padded;
    var w := Padded(Finite(n as real), 6)[..6];
    FieldsAreSmall(w);
    if n < PLAIN_LIMIT {
      PrefixValue(n, 6);
      assert Pow10(6) == 1000000;
      DigitsTime(w);
      assert (NatValue(w) as real).Floor == NatValue(w);
    }
  }

  /** The time encodings that survive: NaN and whole numbers of at most six digits. */
  predicate SurvivingTimeNumber(t: Double) { t.NaN? || (IsWhole(t) && t.value <= 999999.0) }

  lemma TimeNumberFixed(t: Double)
    ensures FromParts(Fields(Padded(t, 6)[..6])) == t <==> SurvivingTimeNumber(t)
  {
    hide FromParts, Fields, ClampedText;
    if t.Finite? {
      var n: nat := if t.value < 0.0 then 0 else t.value.Floor;
      SameTruncated(t, n);
      assert Padded(t, 6) == Padded(Finite(n as real), 6);
      WholeTimeRead(n);
    } else {
      NaNTime();
      assert Padded(NaN, 6)[..6] == "000NaN";
      FieldsAreSmall(Padded(t, 6)[..6]);
    }
  }

  /** A time survives exactly when it is NaN or a whole number of at most six digits. */
  lemma TimeRoundTrip(t: Double)
    ensures EncodeTime(DecodeTime(t)) == t <==> SurvivingTimeNumber(t)
  {
    hide FromParts, Padded, Split, SurvivingTimeNumber;
    var s := Padded(t, 6);
    PaddedHasNone(t, 6, ':');
    SplitColons(s);
    FieldsOfPrefix(s);
    TimeNumberFixed(t);
  }
}
