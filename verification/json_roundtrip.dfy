/** Printing a JSON value loses nothing: the parser reads it back, so equal texts mean equal values. */
module JsonRoundTrip {
  import opened Wrappers
  import Decimal
  import opened Numerals
  import opened Utf16
  import opened Json

  /** No object names a key twice, at any depth. */
  ghost predicate ProperKeys(v: Json)
    decreases v
  {
    match v
    case Arr(items) => forall i :: 0 <= i < |items| ==> ProperKeys(items[i])
    case Obj(members) => DistinctKeys(members) && forall i :: 0 <= i < |members| ==> ProperKeys(members[i].value)
    case _ => true
  }

  ghost predicate DistinctKeys(members: seq<Member>) {
    forall i, j :: 0 <= i < j < |members| ==> members[i].key != members[j].key
  }

  // ---- strings -------------------------------------------------------------

  lemma HexDigits(n: int)
    requires 0 <= n < 16
    ensures HexValue(HEX[n]) == Some(n)
  {}

  lemma HexSum(u: Unit)
    ensures ((u / 4096 * 16 + u / 256 % 16) * 16 + u / 16 % 16) * 16 + u % 16 == u
  {
    assert u / 256 == u / 4096 * 16 + u / 256 % 16;
    assert u / 16 == u / 256 * 16 + u / 16 % 16;
  }

  lemma HexReads(u: Unit)
    ensures Hex4(HEX[u / 4096], HEX[u / 256 % 16], HEX[u / 16 % 16], HEX[u % 16]) == Some(u)
  {
    hide HexValue;
    HexDigits(u / 4096);
    HexDigits(u / 256 % 16);
    HexDigits(u / 16 % 16);
    HexDigits(u % 16);
    HexSum(u);
  }

  lemma HexRoundTrip(u: Unit, tail: string)
    ensures ParseChar(HexEscape(u) + tail) == Some(([u], tail))
  {
    hide Hex4;
    var t := HexEscape(u) + tail;
    HexReads(u);
    assert t[6..] == tail;
  }

  lemma UnitRoundTrip(u: Unit, tail: string)
    ensures var t := EscapeUnit(u, tail); t != "" && t[0] != '"' && ParseChar(t) == Some(([u], tail))
  {
    hide HexEscape;
    HexRoundTrip(u, tail);
    HexStarts(u);
  }

  lemma HexStarts(u: Unit)
    ensures |HexEscape(u)| == 6 && HexEscape(u)[0] == '\\'
  {}

  lemma PairRoundTrip(high: Unit, low: Unit, tail: string)
    requires IsHigh(high) && IsLow(low)
    ensures ParseChar([PairChar(high, low)] + tail) == Some(([high, low], tail)) && PairChar(high, low) != '"'
  {
    PairUnits(high, low);
  }

  /** A character or escape in front of a body that reads back. */
  lemma BodyStep(t: string, units: Text, rest: string, s: Text, tail: string)
    requires t != "" && t[0] != '"' && ParseChar(t) == Some((units, rest)) && ParseBody(rest) == Some((s, tail))
    ensures ParseBody(t) == Some((units + s, tail))
  {}

  lemma {:induction false} BodyRoundTrip(s: Text, tail: string)
    ensures ParseBody(Escape(s, ['"'] + tail)) == Some((s, tail))
  {
    hide ParseBody, ParseChar, EscapeUnit, PairChar;
    var end := ['"'] + tail;
    if s == [] {
      EmptyBody(tail);
    } else if |s| >= 2 && IsHigh(s[0]) && IsLow(s[1]) {
      BodyRoundTrip(s[2..], tail);
      PairRoundTrip(s[0], s[1], Escape(s[2..], end));
      BodyStep(Escape(s, end), [s[0], s[1]], Escape(s[2..], end), s[2..], tail);
      assert s == [s[0], s[1]] + s[2..];
    } else {
      BodyRoundTrip(s[1..], tail);
      UnitRoundTrip(s[0], Escape(s[1..], end));
      BodyStep(Escape(s, end), [s[0]], Escape(s[1..], end), s[1..], tail);
      assert s == [s[0]] + s[1..];
    }
  }

  lemma EmptyBody(tail: string)
    ensures ParseBody(['"'] + tail) == Some(([], tail))
  {
    assert (['"'] + tail)[1..] == tail;
  }

  lemma QuoteRoundTrip(s: Text, tail: string)
    ensures var t := Quote(s, tail); t != "" && t[0] == '"' && ParseBody(t[1..]) == Some((s, tail))
  {
    assert Quote(s, tail)[1..] == Escape(s, ['"'] + tail);
    BodyRoundTrip(s, tail);
  }

  // ---- numbers -------------------------------------------------------------

  lemma UnsignedParsed(n: Number, tail: string)
    requires EndsNumber(tail)
    ensures var t := Unsigned(n) + tail;
            && Decimal.IsDigit(t[0]) && Scan(t).Some? && Scan(t).value.rest == tail
            && Scan(t).value.Value(n.neg) == n && ParseNumber(t) == Some((Scan(t).value.Value(false), tail))
  {
    hide NumeralParts, Scan;
    var (whole, frac, exponent) := NumeralParts(n);
    PartsName(n);
    ScanLiteral(whole, frac, exponent, tail);
    assert (Unsigned(n) + tail)[0] == whole[0];
  }

  lemma NumberRoundTrip(n: Number, tail: string)
    requires EndsNumber(tail)
    ensures var t := NumberText(n) + tail;
            ParseNumber(t) == Some((n, tail)) && (t[0] == '-' || Decimal.IsDigit(t[0]))
  {
    hide Unsigned, Scan;
    UnsignedParsed(n, tail);
    if n.neg { assert (NumberText(n) + tail)[1..] == Unsigned(n) + tail; }
  }

  // ---- values --------------------------------------------------------------

  predicate StartsValue(c: char) {
    c == 'n' || c == 't' || c == 'f' || c == '"' || c == '[' || c == '{' || c == '-' || Decimal.IsDigit(c)
  }

  lemma PrintStarts(v: Json, tail: string)
    ensures |Printed(v, tail)| >= 1 && StartsValue(Printed(v, tail)[0])
  {}

  lemma {:induction false} PutNew(members: seq<Member>, m: Member)
    requires forall i :: 0 <= i < |members| ==> members[i].key != m.key
    ensures Put(members, m) == members + [m]
  {
    if members != [] {
      PutNew(members[1..], m);
      assert members + [m] == [members[0]] + (members[1..] + [m]);
    }
  }

  lemma {:induction false} PutAllDistinct(members: seq<Member>)
    requires DistinctKeys(members)
    ensures PutAll(members) == members
  {
    if members != [] {
      var init, last := members[..|members| - 1], members[|members| - 1];
      PutAllDistinct(init);
      PutNew(init, last);
      assert members == init + [last];
    }
  }

  lemma NoSpace(t: string)
    requires t != "" && !IsSpace(t[0])
    ensures SkipSpace(t) == t
  {}

  lemma KeywordRead(v: Json, tail: string)
    requires v.Null? || v.Bool?
    ensures ParseValue(Printed(v, tail)) == Some((v, tail))
  {
    var t := Printed(v, tail);
    var k := if v.Null? || v.b then 4 else 5;
    NoSpace(t);
    assert t[k..] == tail;
  }

  lemma NumberRead(n: Number, tail: string)
    requires EndsNumber(tail)
    ensures ParseValue(NumberText(n) + tail) == Some((Num(n), tail))
  {
    hide NumberText, ParseNumber;
    var t := NumberText(n) + tail;
    NumberRoundTrip(n, tail);
    NoSpace(t);
  }

  lemma TextRead(s: Text, tail: string)
    ensures ParseValue(Quote(s, tail)) == Some((Str(s), tail))
  {
    hide Quote, ParseBody;
    QuoteRoundTrip(s, tail);
    NoSpace(Quote(s, tail));
  }

  lemma EmptyRead(open: char, close: char, tail: string)
    requires (open == '[' && close == ']') || (open == '{' && close == '}')
    ensures ParseValue([open] + ([close] + tail)) == Some((if open == '[' then Arr([]) else Obj([]), tail))
  {
    var t := [open] + ([close] + tail);
    NoSpace(t);
    NoSpace([close] + tail);
    assert t[1..] == [close] + tail && t[1..][1..] == tail;
  }

  /** What the parser does with `[` and a first item. */
  lemma ArrayOpened(body: string, items: seq<Json>, tail: string)
    requires body != "" && !IsSpace(body[0]) && body[0] != ']' && ParseItems(body) == Some((items, tail))
    ensures ParseValue(['['] + body) == Some((Arr(items), tail))
  {
    var t := ['['] + body;
    NoSpace(t);
    NoSpace(body);
    assert t[1..] == body;
  }

  lemma {:induction false} ValueRoundTrip(v: Json, tail: string)
    requires ProperKeys(v) && EndsNumber(tail)
    ensures ParseValue(Printed(v, tail)) == Some((v, tail))
    decreases v, 0
  {
    hide ParseValue, Quote, NumberText;
    match v {
      case Null => KeywordRead(v, tail);
      case Bool(_) => KeywordRead(v, tail);
      case Num(n) => NumberRead(n, tail);
      case Str(s) => TextRead(s, tail);
      case Arr(items) => ArrayRoundTrip(items, tail);
      case Obj(members) => ObjectRoundTrip(members, tail);
    }
  }

  lemma ArrayRoundTrip(items: seq<Json>, tail: string)
    requires ProperKeys(Arr(items))
    ensures ParseValue(Printed(Arr(items), tail)) == Some((Arr(items), tail))
    decreases items, 2
  {
    hide ParseValue, ParseItems;
    if items == [] {
      EmptyRead('[', ']', tail);
    } else {
      ItemsRoundTrip(items, tail);
      PrintStarts(items[0], if |items| == 1 then [']'] + tail else [','] + PrintedItems(items[1..], [']'] + tail));
      ArrayOpened(PrintedItems(items, [']'] + tail), items, tail);
    }
  }

  lemma LastItem(t: string, v: Json, tail: string)
    requires ParseValue(t) == Some((v, [']'] + tail))
    ensures ParseItems(t) == Some(([v], tail))
  {
    assert ([']'] + tail)[1..] == tail;
  }

  lemma AnotherItem(t: string, v: Json, rest: string, items: seq<Json>, tail: string)
    requires ParseValue(t) == Some((v, [','] + rest)) && ParseItems(rest) == Some((items, tail))
    ensures ParseItems(t) == Some(([v] + items, tail))
  {
    assert ([','] + rest)[1..] == rest;
  }

  lemma ItemsRoundTrip(items: seq<Json>, tail: string)
    requires items != [] && ProperKeys(Arr(items))
    ensures ParseItems(PrintedItems(items, [']'] + tail)) == Some((items, tail))
    decreases items, 1
  {
    hide ParseValue, ParseItems, Printed;
    var t := PrintedItems(items, [']'] + tail);
    if |items| == 1 {
      ValueRoundTrip(items[0], [']'] + tail);
      LastItem(t, items[0], tail);
      assert items == [items[0]];
    } else {
      var rest := PrintedItems(items[1..], [']'] + tail);
      ValueRoundTrip(items[0], [','] + rest);
      assert ProperKeys(Arr(items[1..]));
      ItemsRoundTrip(items[1..], tail);
      AnotherItem(t, items[0], rest, items[1..], tail);
      assert items == [items[0]] + items[1..];
    }
  }

  /** What the parser does with `{` and a first member. */
  lemma ObjectOpened(body: string, members: seq<Member>, tail: string)
    requires body != "" && body[0] == '"' && ParseMembers(body) == Some((members, tail)) && DistinctKeys(members)
    ensures ParseValue(['{'] + body) == Some((Obj(members), tail))
  {
    var t := ['{'] + body;
    PutAllDistinct(members);
    NoSpace(t);
    NoSpace(body);
    assert t[1..] == body;
  }

  lemma ObjectRoundTrip(members: seq<Member>, tail: string)
    requires ProperKeys(Obj(members))
    ensures ParseValue(Printed(Obj(members), tail)) == Some((Obj(members), tail))
    decreases members, 2
  {
    hide ParseValue, ParseMembers;
    if members == [] {
      EmptyRead('{', '}', tail);
    } else {
      var body := PrintedMembers(members, ['}'] + tail);
      MembersRoundTrip(members, tail);
      ObjectOpened(body, members, tail);
    }
  }

  lemma KeyRoundTrip(key: Text, tail: string)
    ensures ParseKey(Quote(key, [':'] + tail)) == Some((key, tail))
  {
    var t := Quote(key, [':'] + tail);
    QuoteRoundTrip(key, [':'] + tail);
    assert SkipSpace(t) == t && ([':'] + tail)[1..] == tail;
  }

  lemma LastMember(t: string, u: string, m: Member, tail: string)
    requires ParseKey(t) == Some((m.key, u)) && ParseValue(u) == Some((m.value, ['}'] + tail))
    ensures ParseMembers(t) == Some(([m], tail))
  {
    assert (['}'] + tail)[1..] == tail;
  }

  lemma AnotherMember(t: string, u: string, m: Member, rest: string, members: seq<Member>, tail: string)
    requires ParseKey(t) == Some((m.key, u)) && ParseValue(u) == Some((m.value, [','] + rest))
    requires ParseMembers(rest) == Some((members, tail))
    ensures ParseMembers(t) == Some(([m] + members, tail))
  {
    assert ([','] + rest)[1..] == rest;
  }

  lemma MoreMembers(m: Member, members: seq<Member>, rest: string, tail: string)
    requires members != [] && rest == PrintedMembers(members, ['}'] + tail)
    requires ParseValue(Printed(m.value, [','] + rest)) == Some((m.value, [','] + rest))
    requires ParseMembers(rest) == Some((members, tail))
    ensures ParseMembers(PrintedMembers([m] + members, ['}'] + tail)) == Some(([m] + members, tail))
  {
    var value := Printed(m.value, [','] + rest);
    KeyRoundTrip(m.key, value);
    assert ([m] + members)[1..] == members;
    AnotherMember(Quote(m.key, [':'] + value), value, m, rest, members, tail);
  }

  lemma MembersRoundTrip(members: seq<Member>, tail: string)
    requires members != [] && ProperKeys(Obj(members))
    ensures ParseMembers(PrintedMembers(members, ['}'] + tail)) == Some((members, tail))
    decreases members, 1
  {
    hide ParseValue, ParseKey, ParseMembers, Printed, Quote;
    var m := members[0];
    if |members| == 1 {
      KeyRoundTrip(m.key, Printed(m.value, ['}'] + tail));
      ValueRoundTrip(m.value, ['}'] + tail);
      LastMember(PrintedMembers(members, ['}'] + tail), Printed(m.value, ['}'] + tail), m, tail);
      assert members == [m];
    } else {
      var rest := PrintedMembers(members[1..], ['}'] + tail);
      ValueRoundTrip(m.value, [','] + rest);
      assert ProperKeys(Obj(members[1..]));
      MembersRoundTrip(members[1..], tail);
      MoreMembers(m, members[1..], rest, tail);
      assert members == [m] + members[1..];
    }
  }

  /** `JSON.parse` undoes `JSON.stringify`. */
  lemma ParsePrint(v: Json)
    requires ProperKeys(v)
    ensures Parse(Print(v)) == Some(v)
  {
    ValueRoundTrip(v, "");
  }

  lemma PrintInjective(v: Json, w: Json)
    requires ProperKeys(v) && ProperKeys(w) && Print(v) == Print(w)
    ensures v == w
  {
    ParsePrint(v);
    ParsePrint(w);
  }
}
