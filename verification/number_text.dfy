/** The text of natural numbers: plain digits below 10^21, an exponent from there on; and reading it cut short. */
module NumberTexts {
  import opened Wrappers
  import opened Decimal
  import opened Strings
  import opened Numerals
  import opened Doubles

  /** A number with `z` more zeros is below the power of ten of its length. */
  lemma DigitsBound(m: nat, z: nat)
    ensures TimesTen(m, z) < Pow10(|NatToString(m)| + z)
  {
    NatRoundTrip(m);
    NatValueBound(NatToString(m));
    TimesTenBound(m, z, |NatToString(m)|);
  }

  lemma PlainText(n: nat)
    requires n < PLAIN_LIMIT
    ensures NatText(n) == NatToString(n)
  {
    var d := Normalised(false, n, 0);
    var s := NatToString(d.m);
    NormalisedKeeps(false, n, 0);
    if n > 0 {
      ShortDigits(n, d.m, d.e);
      assert Literal(s + Repeat('0', d.e), "", None) == s + Repeat('0', d.e);
    }
  }

  lemma ShortDigits(n: nat, m: nat, z: nat)
    requires 0 < n < PLAIN_LIMIT && n == TimesTen(m, z)
    ensures NatToString(m) + Repeat('0', z) == NatToString(n) && |NatToString(n)| <= 21
  {
    var s := NatToString(m);
    NatRoundTrip(m);
    TrailingZeros(s, z);
    if m == 0 { ZeroTimesTen(z); }
    assert m > 0 && (s + Repeat('0', z))[0] == s[0];
    StringRoundTrip(s + Repeat('0', z));
    PlainLimit();
    NatToStringLength(n, 21);
  }

  /** The numeral with an exponent: the digits of `m`, a point after the first. */
  function Exponential(m: nat, x: int): string {
    var s := NatToString(m);
    Literal(s[..1], s[1..], Some(x))
  }

  lemma ExponentialText(m: nat, z: nat)
    requires m % 10 != 0 && |NatToString(m)| + z > 21
    ensures NatText(TimesTen(m, z)) == Exponential(m, |NatToString(m)| + z - 1)
  {
    NormalisedShift(false, m, z, 0);
  }

  /** From 10^21 on the text is such a numeral. */
  lemma LargeText(n: nat) returns (m: nat, z: nat)
    requires n >= PLAIN_LIMIT
    ensures m % 10 != 0 && n == TimesTen(m, z) && |NatToString(m)| + z > 21
    ensures NatText(n) == Exponential(m, |NatToString(m)| + z - 1)
  {
    var d := Normalised(false, n, 0);
    NormalisedKeeps(false, n, 0);
    m, z := d.m, d.e;
    DigitsBound(m, z);
    PlainLimit();
    if |NatToString(m)| + z <= 21 { Pow10Grows(|NatToString(m)| + z, 21); }
    ExponentialText(m, z);
  }

  // ---- numerals cut short --------------------------------------------------

  lemma CutMantissa(d: string, f: string, k: nat)
    requires |d| == 1 && AllDigits(d) && AllDigits(f) && 3 <= k <= |Mantissa(d, f)|
    ensures Mantissa(d, f)[..k] == Mantissa(d, f[..k - 2]) && f[..k - 2] != ""
  {}

  lemma {:induction false} ScaledBound(m: nat, k: nat, q: nat)
    requires m < TimesTen(q, k)
    ensures Scaled(m, -(k as int)) < q as real
  {
    if k > 0 {
      TimesTenInner(q, k - 1);
      ScaledBound(m, k - 1, 10 * q);
    }
  }

  lemma {:induction false} TenTo(k: nat)
    ensures Pow10(k) == TimesTen(1, k)
  {
    if k > 0 { TenTo(k - 1); }
  }

  lemma OneDigitValue(d: string, f: string)
    requires |d| == 1 && AllDigits(d) && AllDigits(f) && AllDigits(d + f)
    ensures Scaled(NatValue(d + f), -|f|) < 10.0
  {
    NatValueBound(d + f);
    TenTo(|f| + 1);
    TimesTenInner(1, |f|);
    ScaledBound(NatValue(d + f), |f|, 10);
  }

  /** Cut inside the mantissa, a numeral reads as less than ten. */
  lemma CutInMantissa(d: string, f: string, k: nat)
    requires |d| == 1 && AllDigits(d) && AllDigits(f) && 3 <= k <= |Mantissa(d, f)|
    ensures var x := NumberOf(Mantissa(d, f)[..k]); x.Finite? && x.value < 10.0
  {
    var g := f[..k - 2];
    CutMantissa(d, f, k);
    var v := Scaled(NatValue(d + g), -|g|);
    OneDigitValue(d, g);
    assert Literal(d, g, None) == Mantissa(d, g);
    NumberOfLiteral(d, g, None, v);
  }

  /** Cut right after its `e` or its sign, it does not read as a number. */
  lemma CutAtExponent(d: string, f: string, tail: string)
    requires |d| == 1 && AllDigits(d) && AllDigits(f) && (tail == "e" || tail == "e+")
    ensures NumberOf(Mantissa(d, f) + tail) == NaN
  {
    var t := Mantissa(d, f) + tail;
    ScanMantissa(d, f, tail);
    assert TakeDigits("") == ("", "") && ScanExponent(tail) == None;
    assert t[0] == d[0] && (t[1] == '.' || t[1] == 'e');
    NumberOfSolid(t);
  }

  lemma {:induction false} ScaledRises(m: nat, low: int, high: int)
    requires m > 0 && low < high
    ensures Scaled(m, low) < Scaled(m, high)
    decreases high - low
  {
    if low >= 0 {
      TimesTenGrows(m, low, high);
    } else if low + 1 < high {
      ScaledRises(m, low + 1, high);
    }
  }

  lemma Larger(m: nat, p: nat)
    requires m > 0 && p > 1
    ensures m < m * p
  {}

  /** A proper beginning of a number's digits is a smaller number. */
  lemma PrefixIsSmaller(x: nat, k: nat)
    requires 0 < k < |NatToString(x)|
    ensures var cut := NatToString(x)[..k]; NatToString(NatValue(cut)) == cut && NatValue(cut) < x
  {
    var e := NatToString(x);
    var cut, rest := e[..k], e[k..];
    assert cut + rest == e && cut[0] == e[0];
    NatRoundTrip(x);
    NatValueConcat(cut, rest);
    StringRoundTrip(cut);
    assert Pow10(|rest|) == 10 * Pow10(|rest| - 1);
    Larger(NatValue(cut), Pow10(|rest|));
  }

  lemma CutOfTwo(s: string, t: string, k: nat)
    requires |s| <= k <= |s + t|
    ensures (s + t)[..k] == s + t[..k - |s|]
  {}

  lemma LiteralJoins(d: string, f: string, x: nat)
    ensures Literal(d, f, Some(x)) == (Mantissa(d, f) + "e+") + NatToString(x)
  {
    assert Mantissa(d, f) + ("e+" + NatToString(x)) == (Mantissa(d, f) + "e+") + NatToString(x);
  }

  lemma ExponentCut(d: string, f: string, x: nat, k: nat) returns (y: nat)
    requires |Mantissa(d, f)| + 2 < k < |Literal(d, f, Some(x))|
    ensures y < x && Literal(d, f, Some(x))[..k] == Literal(d, f, Some(y))
  {
    var front, digits := Mantissa(d, f) + "e+", NatToString(x);
    LiteralJoins(d, f, x);
    CutOfTwo(front, digits, k);
    PrefixIsSmaller(x, k - |front|);
    y := NatValue(digits[..k - |front|]);
    LiteralJoins(d, f, y);
  }

  lemma SmallerRead(d: string, f: string, m: nat, y: nat, x: nat)
    requires d != "" && AllDigits(d) && AllDigits(f) && AllDigits(d + f) && NatValue(d + f) == m && m > 0
    requires x >= |f| && TimesTen(m, x - |f|) < OVERFLOW && y < x
    ensures var v := NumberOf(Literal(d, f, Some(y))); v.Finite? && v.value < Scaled(m, x - |f|)
  {
    hide NumberOf, Literal, NatValue;
    NumberOfLiteral(d, f, Some(y), Scaled(m, y - |f|));
    ScaledRises(m, y - |f|, x - |f|);
  }

  lemma CutInExponent(d: string, f: string, m: nat, x: nat, k: nat)
    requires |d| == 1 && AllDigits(d) && AllDigits(f) && AllDigits(d + f) && NatValue(d + f) == m && m > 0
    requires x >= |f| && TimesTen(m, x - |f|) < OVERFLOW
    requires |Mantissa(d, f)| + 2 < k < |Literal(d, f, Some(x))|
    ensures var v := NumberOf(Literal(d, f, Some(x))[..k]); v.Finite? && v.value < Scaled(m, x - |f|)
  {
    var y := ExponentCut(d, f, x, k);
    SmallerRead(d, f, m, y, x);
  }

  /** No proper beginning of a large number's text reads as that number or more. */
  lemma CutShort(m: nat, z: nat, k: nat)
    requires m % 10 != 0 && |NatToString(m)| + z > 21 && TimesTen(m, z) < OVERFLOW
    requires 3 <= k < |Exponential(m, |NatToString(m)| + z - 1)|
    ensures var v := NumberOf(Exponential(m, |NatToString(m)| + z - 1)[..k]);
            v == NaN || (v.Finite? && v.value < (TimesTen(m, z)) as real)
  {
    hide NumberOf, Literal, Mantissa, NatToString, NatValue, TimesTen;
    var s, x := NatToString(m), |NatToString(m)| + z - 1;
    var d, f := s[..1], s[1..];
    NatRoundTrip(m);
    assert d + f == s;
    LiteralJoins(d, f, x);
    if k <= |Mantissa(d, f)| {
      CutInMantissa(d, f, k);
      assert Literal(d, f, Some(x))[..k] == Mantissa(d, f)[..k];
      LargeEnough(m, z);
    } else if k <= |Mantissa(d, f)| + 2 {
      var tail := "e+"[..k - |Mantissa(d, f)|];
      CutAtExponent(d, f, tail);
      assert Literal(d, f, Some(x))[..k] == Mantissa(d, f) + tail;
    } else {
      CutInExponent(d, f, m, x, k);
    }
  }

  lemma LargeEnough(m: nat, z: nat)
    requires m > 0 && |NatToString(m)| + z > 21
    ensures TimesTen(m, z) >= 10
  {
    if z > 0 { TimesTenGrows(m, 0, z); }
  }
}
