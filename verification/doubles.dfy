/**
 * JavaScript's `Number(text)`, the arithmetic of times, and the text of a
 * truncated number. Values are exact: rounding to 53 bits is not modelled,
 * overflow to infinity is.
 */
module Doubles {
  import opened Wrappers
  import opened Decimal
  import opened Numerals

  datatype Double = NaN | PlusInfinity | MinusInfinity | Finite(value: real)

  /** The least value that rounds to infinity, 2^1024 - 2^970: 54 binary ones, then 970 zeros. */
  const OVERFLOW: nat := 0xFFFFFFFFFFFFFC00000000000000000000000000000000000000000000000000000000000000000000000000000000000000000000000000000000000000000000000000000000000000000000000000000000000000000000000000000000000000000000000000000000000000000000000000000000000000000000000000

  function Bounded(v: real): Double {
    if v >= OVERFLOW as real then PlusInfinity
    else if v <= -(OVERFLOW as real) then MinusInfinity
    else Finite(v)
  }

  /** `m * 10^e`. */
  function Scaled(m: nat, e: int): (v: real)
    ensures v >= 0.0 && (m > 0 ==> v > 0.0)
    decreases if e < 0 then -e else 0
  {
    if e < 0 then Scaled(m, e + 1) / 10.0 else TimesTen(m, e) as real
  }

  // ---- Number(text) --------------------------------------------------------

  predicate IsWhite(c: char) {
    var n := c as int;
    9 <= n <= 13 || n == 0x20 || n == 0xA0 || n == 0x1680 || 0x2000 <= n <= 0x200A || n == 0x2028 || n == 0x2029 ||
    n == 0x202F || n == 0x205F || n == 0x3000 || n == 0xFEFF
  }

  function TrimStart(t: string): string {
    if t != "" && IsWhite(t[0]) then TrimStart(t[1..]) else t
  }

  function TrimEnd(t: string): string {
    if t != "" && IsWhite(t[|t| - 1]) then TrimEnd(t[..|t| - 1]) else t
  }

  function Radix(c: char): Option<int> {
    if c == 'x' || c == 'X' then Some(16)
    else if c == 'o' || c == 'O' then Some(8)
    else if c == 'b' || c == 'B' then Some(2)
    else None
  }

  /** The value of digits in some base. */
  function RadixValue(digits: string, radix: int): Option<nat>
    requires radix >= 0
  {
    if digits == "" then Some(0)
    else
      var high, low := RadixValue(digits[..|digits| - 1], radix), HexValue(digits[|digits| - 1]);
      if high.None? || low.None? || low.value >= radix then None else Some(high.value * radix + low.value)
  }

  function UnsignedNumber(t: string): Double {
    if t == "Infinity" then PlusInfinity
    else
      match Scan(t)
      case None => NaN
      case Some(s) =>
        if s.whole + s.frac == "" || s.rest != "" then NaN
        else Bounded(Scaled(NatValue(s.whole + s.frac), s.exponent - |s.frac|))
  }

  function Negated(x: Double): Double {
    match x
    case NaN => NaN
    case PlusInfinity => MinusInfinity
    case MinusInfinity => PlusInfinity
    case Finite(v) => Finite(-v)
  }

  function NumberOf(text: string): Double {
    var t := TrimEnd(TrimStart(text));
    if t == "" then Finite(0.0)
    else if |t| > 2 && t[0] == '0' && Radix(t[1]).Some? then
      match RadixValue(t[2..], Radix(t[1]).value) { case None => NaN case Some(n) => Bounded(n as real) }
    else if t[0] == '-' then Negated(UnsignedNumber(t[1..]))
    else UnsignedNumber(if t[0] == '+' then t[1..] else t)
  }

  // ---- arithmetic and text -------------------------------------------------

  function Times(x: Double, k: int): Double
    requires k > 0
  {
    if x.Finite? then Bounded(x.value * k as real) else x
  }

  function Plus(x: Double, y: Double): Double {
    if x.NaN? || y.NaN? then NaN
    else if x.Finite? && y.Finite? then Bounded(x.value + y.value)
    else if x.Finite? then y
    else if y.Finite? || x == y then x
    else NaN
  }

  /** `String(n)`. */
  function NatText(n: nat): string { Unsigned(Normalised(false, n, 0)) }

  /** `Math.max(0, Math.trunc(x)).toString()`. */
  function ClampedText(x: Double): string {
    match x
    case NaN => "NaN"
    case PlusInfinity => "Infinity"
    case MinusInfinity => "0"
    case Finite(v) => if v < 1.0 then "0" else NatText(v.Floor)
  }

  const PLAIN_LIMIT := 1000000000000000000000

  lemma PlainLimit()
    ensures Pow10(21) == PLAIN_LIMIT
  {
    assert Pow10(7) == 10000000;
    assert Pow10(14) == 100000000000000;
  }

  // ---- what plain digits and numerals read as ------------------------------

  lemma TrimSolid(t: string)
    requires t != "" && !IsWhite(t[0]) && !IsWhite(t[|t| - 1])
    ensures TrimEnd(TrimStart(t)) == t
  {}

  /** Starts with a digit, does not end with a blank, and is no radix literal. */
  predicate IsSolid(t: string) {
    t != "" && IsDigit(t[0]) && !IsWhite(t[|t| - 1]) && (|t| > 1 ==> Radix(t[1]).None?)
  }

  lemma NumberOfSolid(t: string)
    requires IsSolid(t)
    ensures NumberOf(t) == UnsignedNumber(t)
  {
    TrimSolid(t);
  }

  lemma NumberOfScanned(t: string, whole: string, frac: string, x: int, v: real)
    requires IsSolid(t) && AllDigits(whole + frac) && v == Scaled(NatValue(whole + frac), x - |frac|)
    requires Scan(t) == Some(Scanned(whole, frac != "", frac, x, "")) && whole != ""
    ensures NumberOf(t) == Bounded(v)
  {
    NumberOfSolid(t);
  }

  /** A numeral that starts with a digit, read whole. */
  lemma NumberOfLiteral(whole: string, frac: string, exponent: Option<int>, v: real)
    requires AllDigits(whole) && whole != "" && AllDigits(frac) && AllDigits(whole + frac)
    requires v == Scaled(NatValue(whole + frac), exponent.GetOr(0) - |frac|)
    ensures NumberOf(Literal(whole, frac, exponent)) == Bounded(v)
  {
    hide *;
    var t := Literal(whole, frac, exponent);
    LiteralIsSolid(whole, frac, exponent);
    LiteralIsScanned(t, whole, frac, exponent);
    NumberOfScanned(t, whole, frac, exponent.GetOr(0), v);
  }

  lemma LiteralIsScanned(t: string, whole: string, frac: string, exponent: Option<int>)
    requires AllDigits(whole) && AllDigits(frac) && t == Literal(whole, frac, exponent)
    ensures Scan(t) == Some(Scanned(whole, frac != "", frac, exponent.GetOr(0), ""))
  {
    ScanLiteral(whole, frac, exponent, "");
    assert t + "" == t;
  }

  lemma LiteralIsSolid(whole: string, frac: string, exponent: Option<int>)
    requires AllDigits(whole) && whole != "" && AllDigits(frac)
    ensures IsSolid(Literal(whole, frac, exponent))
  {
    var t := Literal(whole, frac, exponent);
    if exponent.Some? {
      var x := exponent.value;
      var digits := NatToString(if x < 0 then -x else x);
      assert t[|t| - 1] == digits[|digits| - 1];
    }
    assert t[0] == whole[0];
  }

  lemma NumberOfDigits(digits: string)
    requires AllDigits(digits) && digits != "" && NatValue(digits) < OVERFLOW
    ensures NumberOf(digits) == Finite(NatValue(digits) as real)
  {
    assert digits + "" == digits && Literal(digits, "", None) == digits;
    NumberOfLiteral(digits, "", None, NatValue(digits) as real);
  }
}
