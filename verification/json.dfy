/**
 * JSON text (RFC 8259): the printer `JSON.stringify` without indentation, and
 * the parser `JSON.parse`. The text itself is made of whole characters; the
 * strings it stands for are sequences of code units, lone surrogates included.
 */
module Json {
  import opened Wrappers
  import opened Numerals
  import opened Utf16

  datatype Json =
    | Null
    | Bool(b: bool)
    | Num(n: Number)
    | Str(s: Text)
    | Arr(items: seq<Json>)
    | Obj(members: seq<Member>)

  datatype Member = Member(key: Text, value: Json)

  // ---- printing ------------------------------------------------------------
  //
  // Each printer puts the text of its value in front of `tail`.

  const HEX := "0123456789abcdef"

  function HexEscape(u: Unit): string {
    ['\\', 'u', HEX[u / 4096], HEX[u / 256 % 16], HEX[u / 16 % 16], HEX[u % 16]]
  }

  /** Section 7: the two-character escapes, `\uxxxx` for other controls and lone surrogates, itself otherwise. */
  function EscapeUnit(u: Unit, tail: string): string {
    if u == '"' as int then "\\\"" + tail
    else if u == '\\' as int then "\\\\" + tail
    else if u == 8 then "\\b" + tail
    else if u == 9 then "\\t" + tail
    else if u == 10 then "\\n" + tail
    else if u == 12 then "\\f" + tail
    else if u == 13 then "\\r" + tail
    else if u < 32 || IsHigh(u) || IsLow(u) then HexEscape(u) + tail
    else [u as char] + tail
  }

  /** A surrogate pair is printed as the character it spells. */
  function Escape(s: Text, tail: string): string {
    if s == [] then tail
    else if |s| >= 2 && IsHigh(s[0]) && IsLow(s[1]) then [PairChar(s[0], s[1])] + Escape(s[2..], tail)
    else EscapeUnit(s[0], Escape(s[1..], tail))
  }

  function Quote(s: Text, tail: string): string {
    ['"'] + Escape(s, ['"'] + tail)
  }

  function Printed(v: Json, tail: string): string
    decreases v, 0
  {
    match v
    case Null => "null" + tail
    case Bool(b) => if b then "true" + tail else "false" + tail
    case Num(n) => NumberText(n) + tail
    case Str(s) => Quote(s, tail)
    case Arr(items) => ['['] + (if items == [] then [']'] + tail else PrintedItems(items, [']'] + tail))
    case Obj(members) => ['{'] + (if members == [] then ['}'] + tail else PrintedMembers(members, ['}'] + tail))
  }

  function PrintedItems(items: seq<Json>, tail: string): string
    requires items != []
    decreases items, 1
  {
    Printed(items[0], if |items| == 1 then tail else [','] + PrintedItems(items[1..], tail))
  }

  function PrintedMembers(members: seq<Member>, tail: string): string
    requires members != []
    decreases members, 1
  {
    Quote(members[0].key,
          [':'] + Printed(members[0].value,
                          if |members| == 1 then tail else [','] + PrintedMembers(members[1..], tail)))
  }

  /** `JSON.stringify`. */
  function Print(v: Json): string { Printed(v, "") }

  // ---- parsing -------------------------------------------------------------
  //
  // Each parser returns what it read and the text after it.

  predicate IsSpace(c: char) { c == ' ' || c == '\t' || c == '\n' || c == '\r' }

  function SkipSpace(t: string): (r: string)
    ensures |r| <= |t|
  {
    if t != "" && IsSpace(t[0]) then SkipSpace(t[1..]) else t
  }

  /** Four hex digits. */
  function Hex4(w: char, x: char, y: char, z: char): Option<Unit> {
    var a, b, c, d := HexValue(w), HexValue(x), HexValue(y), HexValue(z);
    if a.None? || b.None? || c.None? || d.None? then None
    else Some(((a.value * 16 + b.value) * 16 + c.value) * 16 + d.value)
  }

  /** The unit one letter after a backslash stands for. */
  function ShortEscape(c: char): Option<Unit> {
    if c == '"' || c == '\\' || c == '/' then Some(c as int)
    else if c == 'b' then Some(8)
    else if c == 't' then Some(9)
    else if c == 'n' then Some(10)
    else if c == 'f' then Some(12)
    else if c == 'r' then Some(13)
    else None
  }

  /** One character or escape of a string body. */
  function ParseChar(t: string): (r: Option<(Text, string)>)
    requires t != ""
    ensures r.Some? ==> |r.value.1| < |t|
  {
    if t[0] != '\\' then (if (t[0] as int) < 32 then None else Some((CharUnits(t[0]), t[1..])))
    else if |t| == 1 then None
    else if t[1] == 'u' then
      if |t| < 6 then None
      else match Hex4(t[2], t[3], t[4], t[5]) { case None => None case Some(u) => Some(([u], t[6..])) }
    else match ShortEscape(t[1]) { case None => None case Some(u) => Some(([u], t[2..])) }
  }

  /** A string body, from just after its opening quote to just after the closing one. */
  function ParseBody(t: string): (r: Option<(Text, string)>)
    ensures r.Some? ==> |r.value.1| < |t|
    decreases |t|
  {
    if t == "" then None
    else if t[0] == '"' then Some(([], t[1..]))
    else
      match ParseChar(t)
      case None => None
      case Some((units, u)) =>
        match ParseBody(u)
        case None => None
        case Some((s, rest)) => Some((units + s, rest))
  }

  /** Section 6: a leading zero stands alone, and a point has digits on both sides. */
  function ParseNumber(t: string): (r: Option<(Number, string)>)
    ensures r.Some? ==> |r.value.1| < |t|
  {
    var neg := t != "" && t[0] == '-';
    match Scan(if neg then t[1..] else t)
    case None => None
    case Some(s) =>
      if s.whole == "" || (s.whole[0] == '0' && |s.whole| > 1) || (s.dot && s.frac == "") then None
      else Some((s.Value(neg), s.rest))
  }

  /** An object member is set, not appended: a repeated key keeps its place and takes the last value. */
  function Put(members: seq<Member>, m: Member): seq<Member> {
    if members == [] then [m]
    else if members[0].key == m.key then [m] + members[1..]
    else [members[0]] + Put(members[1..], m)
  }

  function PutAll(members: seq<Member>): seq<Member> {
    if members == [] then [] else Put(PutAll(members[..|members| - 1]), members[|members| - 1])
  }

  predicate Word4(t: string, a: char, b: char, c: char, d: char) {
    |t| >= 4 && t[0] == a && t[1] == b && t[2] == c && t[3] == d
  }

  function ParseValue(t: string): (r: Option<(Json, string)>)
    ensures r.Some? ==> |r.value.1| < |t|
    decreases |t|, 1
  {
    var t := SkipSpace(t);
    if t == "" then None
    else if Word4(t, 'n', 'u', 'l', 'l') then Some((Null, t[4..]))
    else if Word4(t, 't', 'r', 'u', 'e') then Some((Bool(true), t[4..]))
    else if Word4(t, 'f', 'a', 'l', 's') && |t| >= 5 && t[4] == 'e' then Some((Bool(false), t[5..]))
    else if t[0] == '"' then
      match ParseBody(t[1..]) { case None => None case Some((s, rest)) => Some((Str(s), rest)) }
    else if t[0] == '[' then
      var u := SkipSpace(t[1..]);
      if u != "" && u[0] == ']' then Some((Arr([]), u[1..]))
      else match ParseItems(u) { case None => None case Some((items, rest)) => Some((Arr(items), rest)) }
    else if t[0] == '{' then
      var u := SkipSpace(t[1..]);
      if u != "" && u[0] == '}' then Some((Obj([]), u[1..]))
      else match ParseMembers(u) { case None => None case Some((members, rest)) => Some((Obj(PutAll(members)), rest)) }
    else
      match ParseNumber(t) { case None => None case Some((n, rest)) => Some((Num(n), rest)) }
  }

  function ParseItems(t: string): (r: Option<(seq<Json>, string)>)
    ensures r.Some? ==> |r.value.1| < |t|
    decreases |t|, 2
  {
    match ParseValue(t)
    case None => None
    case Some((v, u)) =>
      var u := SkipSpace(u);
      if u != "" && u[0] == ']' then Some(([v], u[1..]))
      else if u != "" && u[0] == ',' then
        match ParseItems(u[1..]) { case None => None case Some((items, rest)) => Some(([v] + items, rest)) }
      else None
  }

  /** A member's name and its colon. */
  function ParseKey(t: string): (r: Option<(Text, string)>)
    ensures r.Some? ==> |r.value.1| < |t|
  {
    var t := SkipSpace(t);
    if t == "" || t[0] != '"' then None
    else
      match ParseBody(t[1..])
      case None => None
      case Some((key, u)) =>
        var u := SkipSpace(u);
        if u == "" || u[0] != ':' then None else Some((key, u[1..]))
  }

  function ParseMembers(t: string): (r: Option<(seq<Member>, string)>)
    ensures r.Some? ==> |r.value.1| < |t|
    decreases |t|, 2
  {
    match ParseKey(t)
    case None => None
    case Some((key, u)) =>
      match ParseValue(u)
      case None => None
      case Some((v, w)) =>
        var w := SkipSpace(w);
        if w != "" && w[0] == '}' then Some(([Member(key, v)], w[1..]))
        else if w != "" && w[0] == ',' then
          match ParseMembers(w[1..]) { case None => None case Some((m, rest)) => Some(([Member(key, v)] + m, rest)) }
        else None
  }

  /** `JSON.parse`: one value and nothing but space around it. */
  function Parse(t: string): Option<Json> {
    match ParseValue(t)
    case None => None
    case Some((v, rest)) => if SkipSpace(rest) == "" then Some(v) else None
  }
}
