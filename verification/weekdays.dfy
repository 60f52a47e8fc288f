/** Weekdays as bit flags: Sunday 1 to Saturday 64. */
module Weekdays {

  datatype Weekday = Sunday | Monday | Tuesday | Wednesday | Thursday | Friday | Saturday
  {
    function Index(): (i: nat)
      ensures i < 7
    {
      match this
      case Sunday => 0 case Monday => 1 case Tuesday => 2 case Wednesday => 3
      case Thursday => 4 case Friday => 5 case Saturday => 6
    }
  }

  function Power(k: nat): (p: int)
    ensures p >= 1
  {
    if k == 0 then 1 else 2 * Power(k - 1)
  }

  const WEEK: seq<Weekday> := [Sunday, Monday, Tuesday, Wednesday, Thursday, Friday, Saturday]

  /** `(n & (1 << k)) !== 0`, two's complement below zero. */
  predicate Has(n: int, k: nat)
    decreases k
  {
    if k == 0 then n % 2 == 1 else Has(n / 2, k - 1)
  }

  /** `acc | (1 << k)`. */
  function Or(acc: int, k: nat): int
    decreases k
  {
    if k == 0 then acc / 2 * 2 + 1 else 2 * Or(acc / 2, k - 1) + acc % 2
  }

  /** The days from the `k`th on whose flag is set, in week order. */
  function DaysFrom(n: int, k: nat): seq<Weekday>
    requires k <= 7
    decreases 7 - k
  {
    if k == 7 then [] else (if Has(n, k) then [WEEK[k]] else []) + DaysFrom(n, k + 1)
  }

  function FlagsOf(days: seq<Weekday>, acc: int): int {
    if days == [] then acc else FlagsOf(days[1..], Or(acc, days[0].Index()))
  }

  /** Distinct, and in week order. */
  ghost predicate InWeekOrder(days: seq<Weekday>) {
    forall i, j :: 0 <= i < j < |days| ==> days[i].Index() < days[j].Index()
  }

  // ---- flags to days and back ----------------------------------------------

  /** Setting one flag sets that flag and no other. */
  lemma {:induction false} OrSetsOne(acc: int, k: nat, m: nat)
    ensures Has(Or(acc, k), m) <==> Has(acc, m) || m == k
    decreases k
  {
    assert k > 0 ==> Or(acc, k) / 2 == Or(acc / 2, k - 1) && Or(acc, k) % 2 == acc % 2;
    assert k == 0 ==> Or(acc, k) / 2 == acc / 2 && Or(acc, k) % 2 == 1;
    if k > 0 && m > 0 { OrSetsOne(acc / 2, k - 1, m - 1); }
  }

  lemma {:induction false} OrBounded(acc: int, k: nat, width: nat)
    requires k < width && 0 <= acc < Power(width)
    ensures 0 <= Or(acc, k) < Power(width)
  {
    if k > 0 { OrBounded(acc / 2, k - 1, width - 1); }
  }

  lemma {:induction false} ZeroHasNone(k: nat)
    ensures !Has(0, k)
  {
    if k > 0 { ZeroHasNone(k - 1); }
  }

  /** Numbers below 2^width are equal when their bits are. */
  lemma {:induction false} BitsDetermine(m: int, n: int, width: nat)
    requires 0 <= m < Power(width) && 0 <= n < Power(width)
    requires forall k: nat :: k < width ==> (Has(m, k) <==> Has(n, k))
    ensures m == n
  {
    if width > 0 {
      forall k: nat | k < width - 1 ensures Has(m / 2, k) <==> Has(n / 2, k) {
        assert Has(m, k + 1) <==> Has(n, k + 1);
      }
      BitsDetermine(m / 2, n / 2, width - 1);
      assert Has(m, 0) <==> Has(n, 0);
    }
  }

  lemma {:induction false} FlagsSetTheirDays(days: seq<Weekday>, acc: int, d: Weekday)
    ensures Has(FlagsOf(days, acc), d.Index()) <==> Has(acc, d.Index()) || d in days
  {
    if days != [] {
      OrSetsOne(acc, days[0].Index(), d.Index());
      FlagsSetTheirDays(days[1..], Or(acc, days[0].Index()), d);
      assert days[0].Index() == d.Index() <==> days[0] == d;
    }
  }

  /** The listed days are those with a flag, and they are in week order. */
  lemma {:induction false} DaysInOrder(n: int, k: nat)
    requires k <= 7
    ensures forall d :: d in DaysFrom(n, k) <==> k <= d.Index() && Has(n, d.Index())
    ensures InWeekOrder(DaysFrom(n, k))
    decreases 7 - k
  {
    if k < 7 {
      var rest := DaysFrom(n, k + 1);
      DaysInOrder(n, k + 1);
      forall d ensures d in DaysFrom(n, k) <==> k <= d.Index() && Has(n, d.Index()) {
        IndexOfDay(d, k);
        assert d in DaysFrom(n, k) <==> (Has(n, k) && d == WEEK[k]) || d in rest;
      }
      FirstDayFirst(WEEK[k], rest);
    }
  }

  lemma IndexOfDay(d: Weekday, k: nat)
    requires k < 7
    ensures d.Index() == k <==> d == WEEK[k]
  {}

  lemma FirstDayFirst(first: Weekday, rest: seq<Weekday>)
    requires InWeekOrder(rest) && forall d :: d in rest ==> first.Index() < d.Index()
    ensures InWeekOrder([first] + rest)
  {
    var days := [first] + rest;
    forall i, j | 0 <= i < j < |days| ensures days[i].Index() < days[j].Index() {
      if i == 0 { assert days[j] in rest; }
    }
  }

  /** Days in week order are determined by which they are. */
  lemma {:induction false} InOrderUnique(s: seq<Weekday>, t: seq<Weekday>)
    requires InWeekOrder(s) && InWeekOrder(t) && forall d :: d in s <==> d in t
    ensures s == t
  {
    assert (s != [] ==> s[0] in s) && (t != [] ==> t[0] in t);
    if s != [] && t != [] {
      assert s[0] == t[0];
      TailMembers(s, t);
      TailMembers(t, s);
      InOrderUnique(s[1..], t[1..]);
      assert s == [s[0]] + s[1..] && t == [t[0]] + t[1..];
    }
  }

  lemma TailMembers(s: seq<Weekday>, t: seq<Weekday>)
    requires s != [] && t != [] && s[0] == t[0] && InWeekOrder(s) && forall d :: d in s ==> d in t
    ensures forall d :: d in s[1..] ==> d in t[1..]
  {
    forall d | d in s[1..] ensures d in t[1..] {
      var i :| 0 < i < |s| && s[i] == d;
      assert d in s;
      var j :| 0 <= j < |t| && t[j] == d;
      assert t[1..][j - 1] == d;
    }
  }

  /** Reading back the flags of days gives those days exactly when they were distinct and in week order. */
  lemma DaysOfFlags(days: seq<Weekday>)
    ensures DaysFrom(FlagsOf(days, 0), 0) == days <==> InWeekOrder(days)
  {
    var read := DaysFrom(FlagsOf(days, 0), 0);
    DaysInOrder(FlagsOf(days, 0), 0);
    forall d: Weekday ensures d in read <==> d in days {
      FlagsSetTheirDays(days, 0, d);
      ZeroHasNone(d.Index());
    }
    if InWeekOrder(days) { InOrderUnique(read, days); }
  }

  lemma {:induction false} FlagsBounded(days: seq<Weekday>, acc: int)
    requires 0 <= acc < Power(7)
    ensures 0 <= FlagsOf(days, acc) < Power(7)
  {
    if days != [] {
      OrBounded(acc, days[0].Index(), 7);
      FlagsBounded(days[1..], Or(acc, days[0].Index()));
    }
  }

  /** Flags read as days and set again are unchanged exactly when there are no others. */
  lemma FlagsOfDays(n: int)
    ensures FlagsOf(DaysFrom(n, 0), 0) == n <==> 0 <= n <= 127
  {
    var m := FlagsOf(DaysFrom(n, 0), 0);
    assert Power(7) == 128;
    FlagsBounded(DaysFrom(n, 0), 0);
    if 0 <= n <= 127 {
      forall k: nat | k < 7 ensures Has(m, k) <==> Has(n, k) {
        IndexOfDay(WEEK[k], k);
        FlagsSetTheirDays(DaysFrom(n, 0), 0, WEEK[k]);
        ZeroHasNone(k);
        DaysInOrder(n, 0);
      }
      BitsDetermine(m, n, 7);
    }
  }
}
