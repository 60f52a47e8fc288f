/**
 * JavaScript's text of a finite number, and the numerals it reads. A number is
 * named by its shortest decimal, which is what `Number::toString` prints.
 */
module Numerals {
  import opened Wrappers
  import opened Decimal
  import opened Strings

  /** `m * 10^e`, or its negation. */
  datatype Scientific = Scientific(neg: bool, m: nat, e: int)

  /** No trailing zero in `m`; zero is written one way. */
  predicate Normal(d: Scientific) {
    if d.m == 0 then d == ZERO else d.m % 10 != 0
  }

  const ZERO := Scientific(false, 0, 0)

  type Number = d: Scientific | Normal(d) witness Scientific(false, 0, 0)

  function Normalised(neg: bool, m: nat, e: int): Number {
    if m == 0 then ZERO
    else if m % 10 == 0 then Normalised(neg, m / 10, e + 1)
    else Scientific(neg, m, e)
  }

  // ---- printing ------------------------------------------------------------

  function ExponentText(x: int): string {
    (if x < 0 then "e-" else "e+") + NatToString(if x < 0 then -x else x)
  }

  function Mantissa(whole: string, frac: string): string {
    whole + if frac == "" then "" else "." + frac
  }

  function Literal(whole: string, frac: string, exponent: Option<int>): string {
    Mantissa(whole, frac) + match exponent case None => "" case Some(x) => ExponentText(x)
  }

  /** `Number::toString`: the parts of the numeral of a number, its sign aside. */
  function NumeralParts(d: Number): (string, string, Option<int>) {
    var s := NatToString(d.m);
    var n := |s| + d.e;
    if |s| <= n <= 21 then (s + Repeat('0', d.e), "", None)
    else if 0 < n <= 21 then (s[..n], s[n..], None)
    else if -6 < n <= 0 then ("0", Repeat('0', -n) + s, None)
    else (s[..1], s[1..], Some(n - 1))
  }

  function Unsigned(d: Number): string {
    var (whole, frac, exponent) := NumeralParts(d);
    Literal(whole, frac, exponent)
  }

  function NumberText(d: Number): string {
    if d.neg then "-" + Unsigned(d) else Unsigned(d)
  }

  // ---- scanning ------------------------------------------------------------

  datatype Scanned = Scanned(whole: string, dot: bool, frac: string, exponent: int, rest: string)
  {
    function Value(neg: bool): Number
      requires AllDigits(whole + frac)
    {
      Normalised(neg, NatValue(whole + frac), exponent - |frac|)
    }
  }

  /** An exponent if there is one; `None` where its digits are missing. */
  function ScanExponent(t: string): (r: Option<(int, string)>)
    ensures r.Some? ==> |r.value.1| <= |t| && (r.value.0 != 0 ==> |r.value.1| + 2 <= |t|)
  {
    if t == "" || (t[0] != 'e' && t[0] != 'E') then Some((0, t))
    else
      var signed := |t| > 1 && (t[1] == '-' || t[1] == '+');
      var (d, rest) := TakeDigits(if signed then t[2..] else t[1..]);
      if d == "" then None
      else Some((if signed && t[1] == '-' then -(NatValue(d) as int) else NatValue(d), rest))
  }

  function HexValue(c: char): (r: Option<int>)
    ensures r.Some? ==> 0 <= r.value < 16
  {
    if '0' <= c <= '9' then Some(c as int - '0' as int)
    else if 'a' <= c <= 'f' then Some(c as int - 'a' as int + 10)
    else if 'A' <= c <= 'F' then Some(c as int - 'A' as int + 10)
    else None
  }

  /** The longest decimal numeral at the head of a text. */
  function Scan(t: string): (r: Option<Scanned>)
    ensures r.Some? ==> AllDigits(r.value.whole) && AllDigits(r.value.frac) && AllDigits(r.value.whole + r.value.frac)
    ensures r.Some? ==> |r.value.whole| + |r.value.frac| + |r.value.rest| <= |t|
    ensures r.Some? && r.value.exponent != 0 ==> |r.value.whole| + |r.value.frac| + 2 <= |t|
  {
    var (whole, u) := TakeDigits(t);
    var dot := u != "" && u[0] == '.';
    var (frac, v) := if dot then TakeDigits(u[1..]) else ("", u);
    match ScanExponent(v)
    case None => None
    case Some((x, rest)) => Some(Scanned(whole, dot, frac, x, rest))
  }

  /** Nothing that could continue a numeral comes next. */
  predicate EndsNumber(tail: string) {
    EndsMantissa(tail) && (tail != "" ==> tail[0] != 'e' && tail[0] != 'E')
  }

  predicate EndsMantissa(tail: string) {
    tail != "" ==> !IsDigit(tail[0]) && tail[0] != '.'
  }

  /** Scanning takes exactly the mantissa, then looks for an exponent. */
  lemma ScanMantissa(whole: string, frac: string, tail: string)
    requires AllDigits(whole) && AllDigits(frac) && EndsMantissa(tail)
    ensures Scan(Mantissa(whole, frac) + tail) ==
            match ScanExponent(tail)
            case None => None
            case Some((x, rest)) => Some(Scanned(whole, frac != "", frac, x, rest))
  {
    var t := Mantissa(whole, frac) + tail;
    if frac == "" {
      assert t == whole + tail;
      DigitsTaken(whole, tail);
    } else {
      var u := "." + (frac + tail);
      assert t == whole + u && u[1..] == frac + tail;
      DigitsTaken(whole, u);
      DigitsTaken(frac, tail);
    }
  }

  lemma ScanExponentText(x: int, tail: string)
    requires EndsNumber(tail)
    ensures ScanExponent(ExponentText(x) + tail) == Some((x, tail))
  {
    var t, digits := ExponentText(x) + tail, NatToString(if x < 0 then -x else x);
    assert t[2..] == digits + tail;
    DigitsTaken(digits, tail);
    NatRoundTrip(if x < 0 then -x else x);
  }

  lemma ScanLiteral(whole: string, frac: string, exponent: Option<int>, tail: string)
    requires AllDigits(whole) && AllDigits(frac) && EndsNumber(tail)
    ensures Scan(Literal(whole, frac, exponent) + tail) ==
            Some(Scanned(whole, frac != "", frac, exponent.GetOr(0), tail))
  {
    match exponent {
      case None =>
        ScanMantissa(whole, frac, tail);
        assert Literal(whole, frac, exponent) + tail == Mantissa(whole, frac) + tail;
      case Some(x) =>
        ScanMantissa(whole, frac, ExponentText(x) + tail);
        ScanExponentText(x, tail);
        assert Literal(whole, frac, exponent) + tail == Mantissa(whole, frac) + (ExponentText(x) + tail);
    }
  }

  // ---- a numeral names its number ------------------------------------------

  lemma {:induction false} NormalisedShift(neg: bool, m: nat, z: nat, e: int)
    requires m % 10 != 0
    ensures Normalised(neg, TimesTen(m, z), e) == Scientific(neg, m, e + z)
  {
    if z > 0 {
      NormalisedShift(neg, m, z - 1, e + 1);
      DropZero(neg, TimesTen(m, z - 1), e);
    }
  }

  lemma DropZero(neg: bool, m: nat, e: int)
    requires m > 0
    ensures Normalised(neg, 10 * m, e) == Normalised(neg, m, e + 1)
  {
    assert (10 * m) % 10 == 0 && (10 * m) / 10 == m;
  }

  /** Zeros before digits do not count. */
  lemma LeadingZeros(digits: string, z: nat)
    requires AllDigits(digits)
    ensures AllDigits(Repeat('0', z) + digits) && NatValue(Repeat('0', z) + digits) == NatValue(digits)
  {
    ZerosValue(Repeat('0', z));
    NatValueConcat(Repeat('0', z), digits);
  }

  /** Each zero after digits counts ten. */
  lemma {:induction false} TrailingZeros(digits: string, z: nat)
    requires AllDigits(digits)
    ensures AllDigits(digits + Repeat('0', z)) && NatValue(digits + Repeat('0', z)) == TimesTen(NatValue(digits), z)
  {
    if z == 0 {
      assert digits + "" == digits;
    } else {
      var t := digits + Repeat('0', z);
      TrailingZeros(digits, z - 1);
      assert t[..|t| - 1] == digits + Repeat('0', z - 1);
    }
  }

  /** A numeral's parts are digits, start as JSON wants, and their value is the number. */
  predicate NamedBy(d: Number, whole: string, frac: string, x: int) {
    && AllDigits(whole) && AllDigits(frac) && AllDigits(whole + frac) && whole != ""
    && (whole[0] == '0' ==> whole == "0")
    && Normalised(d.neg, NatValue(whole + frac), x - |frac|) == d
  }

  lemma NormalNormalised(d: Number)
    ensures Normalised(d.neg, d.m, d.e) == d
  {}

  lemma WholeNames(d: Number, s: string)
    requires s == NatToString(d.m) && d.e >= 0
    ensures NamedBy(d, s + Repeat('0', d.e), "", 0)
  {
    var whole := s + Repeat('0', d.e);
    NatRoundTrip(d.m);
    TrailingZeros(s, d.e);
    assert whole + "" == whole && whole[0] == s[0];
    if d.m > 0 {
      NormalisedShift(d.neg, d.m, d.e, 0);
    } else {
      assert d == ZERO && Repeat('0', d.e) == "" && whole == "0";
    }
  }

  lemma PointNames(d: Number, s: string, n: nat)
    requires s == NatToString(d.m) && 0 < n < |s|
    ensures NamedBy(d, s[..n], s[n..], d.e + |s| - n)
  {
    NatRoundTrip(d.m);
    NormalNormalised(d);
    assert s[..n] + s[n..] == s && s[..n][0] == s[0];
  }

  lemma SmallNames(d: Number, s: string, z: nat)
    requires s == NatToString(d.m) && d.m > 0
    ensures NamedBy(d, "0", Repeat('0', z) + s, d.e + z + |s|)
  {
    var frac := Repeat('0', z) + s;
    NatRoundTrip(d.m);
    NormalNormalised(d);
    LeadingZeros(s, z);
    LeadingZeros(frac, 1);
    assert Repeat('0', 1) == "0";
  }

  lemma DigitNames(d: Number, s: string)
    requires s == NatToString(d.m) && |s| == 1
    ensures NamedBy(d, s[..1], s[1..], d.e)
  {
    NatRoundTrip(d.m);
    NormalNormalised(d);
    assert s[..1] + s[1..] == s;
  }

  lemma PartsName(d: Number)
    ensures var (whole, frac, exponent) := NumeralParts(d); NamedBy(d, whole, frac, exponent.GetOr(0))
  {
    hide NamedBy, NatToString, Repeat;
    var s := NatToString(d.m);
    var n := |s| + d.e;
    if |s| <= n <= 21 {
      WholeNames(d, s);
    } else if 0 < n <= 21 {
      PointNames(d, s, n);
    } else if -6 < n <= 0 {
      SmallNames(d, s, -n);
    } else if |s| > 1 {
      PointNames(d, s, 1);
    } else {
      DigitNames(d, s);
    }
  }

  // ---- integers ------------------------------------------------------------

  function OfInt(n: int): Number { Normalised(n < 0, if n < 0 then -n else n, 0) }

  /** The integer a number is, if it is one. */
  function ToInt(d: Number): Option<int> {
    if d.e < 0 then None else Some(if d.neg then -(TimesTen(d.m, d.e) as int) else TimesTen(d.m, d.e))
  }

  lemma {:induction false} TimesTenInner(m: nat, k: nat)
    ensures TimesTen(10 * m, k) == 10 * TimesTen(m, k)
  {
    if k > 0 { TimesTenInner(m, k - 1); }
  }

  lemma {:induction false} NormalisedKeeps(neg: bool, m: nat, e: nat)
    ensures var d := Normalised(neg, m, e);
            d.e >= 0 && TimesTen(d.m, d.e) == TimesTen(m, e) && (m > 0 ==> d.neg == neg && d.m > 0)
  {
    if m == 0 {
      ZeroTimesTen(e);
    } else if m % 10 == 0 {
      NormalisedKeeps(neg, m / 10, e + 1);
      TimesTenInner(m / 10, e);
    }
  }

  lemma {:induction false} ZeroTimesTen(k: nat)
    ensures TimesTen(0, k) == 0
  {
    if k > 0 { ZeroTimesTen(k - 1); }
  }

  lemma IntReadsBack(n: int)
    ensures ToInt(OfInt(n)) == Some(n)
  {
    NormalisedKeeps(n < 0, if n < 0 then -n else n, 0);
  }
}
