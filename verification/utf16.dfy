/**
 * JavaScript strings: sequences of UTF-16 code units, surrogates paired or not.
 * Strings that only carry whole characters are Dafny's own.
 */
module Utf16 {

  type Unit = u: int | 0 <= u < 0x10000

  type Text = seq<Unit>

  predicate IsHigh(u: Unit) { 0xD800 <= u < 0xDC00 }

  predicate IsLow(u: Unit) { 0xDC00 <= u < 0xE000 }

  /** One unit below U+10000, a surrogate pair above. */
  function CharUnits(c: char): (u: Text)
    ensures |u| == 1 || |u| == 2
  {
    var n := c as int;
    if n < 0x10000 then [n] else [0xD800 + (n - 0x10000) / 0x400, 0xDC00 + (n - 0x10000) % 0x400]
  }

  /** The character a surrogate pair spells. */
  function PairChar(high: Unit, low: Unit): char
    requires IsHigh(high) && IsLow(low)
  {
    (0x10000 + (high - 0xD800) * 0x400 + (low - 0xDC00)) as char
  }

  lemma PairUnits(high: Unit, low: Unit)
    requires IsHigh(high) && IsLow(low)
    ensures CharUnits(PairChar(high, low)) == [high, low]
  {}

  function Units(s: string): Text {
    if s == "" then [] else CharUnits(s[0]) + Units(s[1..])
  }

  /** The first unit tells how many there are, and the units tell the character. */
  lemma CharUnitsDetermine(c: char, d: char, u: Text, v: Text)
    requires CharUnits(c) + u == CharUnits(d) + v
    ensures c == d && u == v
  {
    var x, y := CharUnits(c), CharUnits(d);
    assert (x + u)[0] == x[0] && (y + v)[0] == y[0];
    assert |x| == |y|;
    assert (x + u)[..|x|] == x && (y + v)[..|y|] == y;
    assert (x + u)[|x|..] == u && (y + v)[|y|..] == v;
  }

  lemma {:induction false} UnitsInjective(s: string, t: string)
    requires Units(s) == Units(t)
    ensures s == t
  {
    if s != "" && t != "" {
      CharUnitsDetermine(s[0], t[0], Units(s[1..]), Units(t[1..]));
      UnitsInjective(s[1..], t[1..]);
      assert s == [s[0]] + s[1..] && t == [t[0]] + t[1..];
    }
  }

  /** ASCII text, unit by unit; any other unit reads as U+FFFD. */
  function Ascii(t: Text): (s: string)
    ensures |s| == |t| && forall i :: 0 <= i < |t| ==> s[i] == if t[i] < 0x80 then t[i] as char else '\U{FFFD}'
  {
    seq(|t|, i requires 0 <= i < |t| => if t[i] < 0x80 then t[i] as char else '\U{FFFD}')
  }

  lemma {:induction false} AsciiUnits(s: string)
    requires forall i :: 0 <= i < |s| ==> s[i] as int < 0x80
    ensures Ascii(Units(s)) == s
  {
    if s != "" {
      AsciiUnits(s[1..]);
      assert Units(s) == [s[0] as int] + Units(s[1..]);
      assert s == [s[0]] + s[1..];
    }
  }

  /** `!(s > t)`. */
  predicate TextLe(u: Text, v: Text) {
    u == [] || (v != [] && (u[0] < v[0] || (u[0] == v[0] && TextLe(u[1..], v[1..]))))
  }

  lemma {:induction false} TextLeTotal(u: Text, v: Text)
    ensures TextLe(u, v) || TextLe(v, u)
  {
    if u != [] && v != [] && u[0] == v[0] { TextLeTotal(u[1..], v[1..]); }
  }

  lemma {:induction false} TextLeAntisymmetric(u: Text, v: Text)
    requires TextLe(u, v) && TextLe(v, u)
    ensures u == v
  {
    if u != [] && v != [] {
      TextLeAntisymmetric(u[1..], v[1..]);
      assert u == [u[0]] + u[1..] && v == [v[0]] + v[1..];
    }
  }

  lemma {:induction false} TextLeTransitive(u: Text, v: Text, w: Text)
    requires TextLe(u, v) && TextLe(v, w)
    ensures TextLe(u, w)
  {
    if u != [] && u[0] == v[0] && v[0] == w[0] { TextLeTransitive(u[1..], v[1..], w[1..]); }
  }
}
