/** The decimal text of an integer, and the value of a string of digits. */
module Decimal {

  predicate IsDigit(c: char) { '0' <= c <= '9' }

  function DigitChar(d: int): (c: char)
    requires 0 <= d < 10
    ensures IsDigit(c)
  {
    ('0' as int + d) as char
  }

  function DigitValue(c: char): (d: int)
    requires IsDigit(c)
    ensures 0 <= d < 10
  {
    c as int - '0' as int
  }

  predicate AllDigits(s: string) {
    forall i :: 0 <= i < |s| ==> IsDigit(s[i])
  }

  function NatToString(n: nat): (s: string)
    ensures AllDigits(s) && |s| >= 1
    ensures s[0] == '0' ==> n == 0 && s == "0"
  {
    if n < 10 then [DigitChar(n)] else NatToString(n / 10) + [DigitChar(n % 10)]
  }

  /** `Number(s)` on a string of digits. */
  function NatValue(s: string): (n: nat)
    requires AllDigits(s)
  {
    if s == "" then 0 else NatValue(s[..|s| - 1]) * 10 + DigitValue(s[|s| - 1])
  }

  function IntToString(n: int): string {
    if n < 0 then "-" + NatToString(-n) else NatToString(n)
  }

  lemma {:induction false} NatRoundTrip(n: nat)
    ensures NatValue(NatToString(n)) == n
  {
    if n >= 10 {
      var s := NatToString(n);
      assert s[..|s| - 1] == NatToString(n / 10);
      NatRoundTrip(n / 10);
    } else {
      assert NatToString(n)[..0] == "";
    }
  }

  lemma LastDigit(n: nat, c: char)
    requires IsDigit(c)
    ensures NatToString(n * 10 + DigitValue(c)) == (if n == 0 then "" else NatToString(n)) + [c]
  {
    var m := n * 10 + DigitValue(c);
    assert m / 10 == n && m % 10 == DigitValue(c) && DigitChar(DigitValue(c)) == c;
  }

  /** One more digit at the end. */
  lemma ValueStep(s: string)
    requires AllDigits(s) && s != ""
    ensures NatValue(s) == NatValue(s[..|s| - 1]) * 10 + DigitValue(s[|s| - 1])
    ensures NatToString(NatValue(s)) ==
            (if NatValue(s[..|s| - 1]) == 0 then "" else NatToString(NatValue(s[..|s| - 1]))) + [s[|s| - 1]]
  {
    LastDigit(NatValue(s[..|s| - 1]), s[|s| - 1]);
  }

  lemma {:induction false} StringRoundTrip(s: string)
    requires AllDigits(s) && s != "" && (s[0] == '0' ==> s == "0")
    ensures NatToString(NatValue(s)) == s
    ensures s[0] != '0' ==> NatValue(s) > 0
  {
    hide NatToString;
    var init, last := s[..|s| - 1], s[|s| - 1];
    ValueStep(s);
    assert s == init + [last];
    if init != "" {
      assert init[0] == s[0];
      StringRoundTrip(init);
    }
  }

  lemma NatToStringInjective(m: nat, n: nat)
    requires NatToString(m) == NatToString(n)
    ensures m == n
  {
    NatRoundTrip(m);
    NatRoundTrip(n);
  }

  lemma IntToStringInjective(m: int, n: int)
    requires IntToString(m) == IntToString(n)
    ensures m == n
  {
    var s, t := IntToString(m), IntToString(n);
    assert (m < 0) == (s[0] == '-') && (n < 0) == (t[0] == '-');
    if m < 0 {
      assert s[1..] == NatToString(-m) && t[1..] == NatToString(-n);
      NatToStringInjective(-m, -n);
    } else {
      NatToStringInjective(m, n);
    }
  }

  // ---- fixed widths --------------------------------------------------------

  function Pow10(k: nat): (p: nat)
    ensures p >= 1
  {
    if k == 0 then 1 else 10 * Pow10(k - 1)
  }

  lemma MoreDigits(x: nat, p: nat, y: nat, d: nat)
    ensures (x * p + y) * 10 + d == x * (10 * p) + (y * 10 + d)
  {}

  lemma {:induction false} NatValueConcat(s: string, t: string)
    requires AllDigits(s) && AllDigits(t)
    ensures AllDigits(s + t) && NatValue(s + t) == NatValue(s) * Pow10(|t|) + NatValue(t)
  {
    if t == "" {
      assert s + t == s;
    } else {
      var init, last := t[..|t| - 1], t[|t| - 1];
      assert (s + t)[..|s + t| - 1] == s + init && (s + t)[|s + t| - 1] == last;
      NatValueConcat(s, init);
      MoreDigits(NatValue(s), Pow10(|init|), NatValue(init), DigitValue(last));
    }
  }

  lemma {:induction false} NatValueBound(s: string)
    requires AllDigits(s)
    ensures NatValue(s) < Pow10(|s|)
  {
    if s != "" { NatValueBound(s[..|s| - 1]); }
  }

  /** Digits of one width are determined by their value. */
  lemma {:induction false} DigitsDetermined(s: string, t: string)
    requires AllDigits(s) && AllDigits(t) && |s| == |t| && NatValue(s) == NatValue(t)
    ensures s == t
  {
    if s != "" {
      DigitsDetermined(s[..|s| - 1], t[..|t| - 1]);
      assert s == s[..|s| - 1] + [s[|s| - 1]] && t == t[..|t| - 1] + [t[|t| - 1]];
    }
  }

  /** `m * 10^k`. */
  function TimesTen(m: nat, k: nat): (n: nat)
    ensures n >= m
  {
    if k == 0 then m else 10 * TimesTen(m, k - 1)
  }

  lemma {:induction false} TimesTenBound(m: nat, k: nat, width: nat)
    requires m < Pow10(width)
    ensures TimesTen(m, k) < Pow10(width + k)
  {
    if k > 0 { TimesTenBound(m, k - 1, width); }
  }

  lemma {:induction false} TimesTenGrows(m: nat, low: nat, high: nat)
    requires low < high && m > 0
    ensures TimesTen(m, low) < TimesTen(m, high)
  {
    if low + 1 < high { TimesTenGrows(m, low, high - 1); }
  }

  lemma {:induction false} Pow10Grows(a: nat, b: nat)
    requires a <= b
    ensures Pow10(a) <= Pow10(b)
  {
    if a < b { Pow10Grows(a, b - 1); }
  }

  lemma {:induction false} NatToStringLength(n: nat, width: nat)
    requires width >= 1 && n < Pow10(width)
    ensures |NatToString(n)| <= width
  {
    if n >= 10 { NatToStringLength(n / 10, width - 1); }
  }

  lemma {:induction false} ZerosValue(zeros: string)
    requires forall i :: 0 <= i < |zeros| ==> zeros[i] == '0'
    ensures NatValue(zeros) == 0
  {
    if zeros != "" { ZerosValue(zeros[..|zeros| - 1]); }
  }

  // ---- digits at the head of a text ----------------------------------------

  /** The digits at the head of the text, and what follows them. */
  function TakeDigits(t: string): (r: (string, string))
    ensures AllDigits(r.0) && |r.0| + |r.1| == |t|
  {
    if t != "" && IsDigit(t[0]) then var (d, rest) := TakeDigits(t[1..]); ([t[0]] + d, rest) else ("", t)
  }

  lemma {:induction false} DigitsTaken(d: string, tail: string)
    requires AllDigits(d) && (tail != "" ==> !IsDigit(tail[0]))
    ensures TakeDigits(d + tail) == (d, tail)
  {
    if d == "" {
      assert d + tail == tail;
    } else {
      assert (d + tail)[1..] == d[1..] + tail;
      DigitsTaken(d[1..], tail);
      assert d == [d[0]] + d[1..];
    }
  }
}
