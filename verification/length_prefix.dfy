/** UTF-8 and the length-prefixed encoding of a list of texts. */
module LengthPrefix {
  import opened Wrappers

  type Byte = b: int | 0 <= b < 256

  // ---- UTF-8 ---------------------------------------------------------------

  function CharBytes(c: char): (u: seq<Byte>)
    ensures 1 <= |u| <= 4
  {
    var n := c as int;
    if n < 0x80 then [n]
    else if n < 0x800 then [0xC0 + n / 64, 0x80 + n % 64]
    else if n < 0x10000 then [0xE0 + n / 4096, 0x80 + n / 64 % 64, 0x80 + n % 64]
    else [0xF0 + n / 262144, 0x80 + n / 4096 % 64, 0x80 + n / 64 % 64, 0x80 + n % 64]
  }

  /** `Buffer.from(s, 'utf8')`. */
  function Utf8(s: string): seq<Byte> {
    if s == "" then [] else CharBytes(s[0]) + Utf8(s[1..])
  }

  /** How many bytes the first one announces. */
  function Announced(b: Byte): (n: nat)
    ensures 1 <= n <= 4
  {
    if b < 0x80 then 1 else if b < 0xE0 then 2 else if b < 0xF0 then 3 else 4
  }

  lemma FirstByte(c: char)
    ensures Announced(CharBytes(c)[0]) == |CharBytes(c)|
  {}

  /** The scalar value the bytes of one character stand for. */
  function CodeOf(u: seq<Byte>): int
    requires 1 <= |u| <= 4
  {
    var first, length := u[0] as int, |u|;
    if length == 1 then first
    else if length == 2 then (first - 0xC0) * 64 + Low(u[1])
    else if length == 3 then ((first - 0xE0) * 64 + Low(u[1])) * 64 + Low(u[2])
    else (((first - 0xF0) * 64 + Low(u[1])) * 64 + Low(u[2])) * 64 + Low(u[3])
  }

  /** The six bits of a continuation byte. */
  function Low(b: Byte): int { b as int - 0x80 }

  lemma CodeOfChar(c: char)
    ensures CodeOf(CharBytes(c)) == c as int
  {
    var n := c as int;
    assert n / 4096 == n / 64 / 64;
    assert n / 262144 == n / 4096 / 64;
  }

  lemma {:induction false} Utf8Injective(s: string, t: string)
    requires Utf8(s) == Utf8(t)
    ensures s == t
  {
    if s != "" && t != "" {
      var u, v := CharBytes(s[0]), CharBytes(t[0]);
      FirstByte(s[0]);
      FirstByte(t[0]);
      assert Utf8(s)[0] == u[0] && Utf8(t)[0] == v[0];
      assert Utf8(s)[..|u|] == u && Utf8(t)[..|v|] == v;
      CodeOfChar(s[0]);
      CodeOfChar(t[0]);
      assert s[0] as int == t[0] as int;
      assert Utf8(s)[|u|..] == Utf8(s[1..]) && Utf8(t)[|v|..] == Utf8(t[1..]);
      Utf8Injective(s[1..], t[1..]);
      assert s == [s[0]] + s[1..] && t == [t[0]] + t[1..];
    }
  }

  // ---- lengths -------------------------------------------------------------

  const LENGTH_LIMIT := 4294967296

  /** `writeUInt32BE`. */
  function BigEndian(n: nat): (b: seq<Byte>)
    requires n < LENGTH_LIMIT
    ensures |b| == 4
  {
    [n / 16777216, n / 65536 % 256, n / 256 % 256, n % 256]
  }

  function FromBigEndian(b: seq<Byte>): nat
    requires |b| == 4
  {
    ((b[0] as int * 256 + b[1] as int) * 256 + b[2] as int) * 256 + b[3] as int
  }

  lemma Digit256(q: nat, r: nat)
    requires r < 256
    ensures (q * 256 + r) / 256 == q && (q * 256 + r) % 256 == r
  {}

  lemma Quotients(n: nat)
    ensures n / 65536 == n / 256 / 256 && n / 16777216 == n / 65536 / 256
  {}

  lemma BigEndianRoundTrip(n: nat)
    requires n < LENGTH_LIMIT
    ensures FromBigEndian(BigEndian(n)) == n
  {
    Quotients(n);
    assert n / 65536 == n / 16777216 * 256 + n / 65536 % 256;
    assert n / 256 == n / 65536 * 256 + n / 256 % 256;
  }

  lemma FromBigEndianRoundTrip(b: seq<Byte>)
    requires |b| == 4
    ensures FromBigEndian(b) < LENGTH_LIMIT && BigEndian(FromBigEndian(b)) == b
  {
    var x := b[0] as int * 256 + b[1] as int;
    var y := x * 256 + b[2] as int;
    var n := y * 256 + b[3] as int;
    Digit256(b[0] as int, b[1] as int);
    Digit256(x, b[2] as int);
    Digit256(y, b[3] as int);
    Quotients(n);
    assert BigEndian(n) == [b[0], b[1], b[2], b[3]];
  }

  // ---- lists ---------------------------------------------------------------

  ghost predicate Short(parts: seq<seq<Byte>>) {
    forall i :: 0 <= i < |parts| ==> |parts[i]| < LENGTH_LIMIT
  }

  /** Each part after its four-byte length. */
  function Prefixed(parts: seq<seq<Byte>>): seq<Byte>
    requires Short(parts)
  {
    if parts == [] then [] else BigEndian(|parts[0]|) + parts[0] + Prefixed(parts[1..])
  }

  /** The parts of an encoding, if it is one. */
  function Parts(bytes: seq<Byte>): Option<seq<seq<Byte>>>
    decreases |bytes|
  {
    if bytes == [] then Some([])
    else if |bytes| < 4 || |bytes| < 4 + FromBigEndian(bytes[..4]) then None
    else
      var end := 4 + FromBigEndian(bytes[..4]);
      match Parts(bytes[end..]) case None => None case Some(rest) => Some([bytes[4..end]] + rest)
  }

  lemma PartsStep(head: seq<Byte>, rest: seq<Byte>, parts: seq<seq<Byte>>)
    requires |head| < LENGTH_LIMIT && Parts(rest) == Some(parts)
    ensures Parts(BigEndian(|head|) + head + rest) == Some([head] + parts)
  {
    hide BigEndian, FromBigEndian;
    var bytes := BigEndian(|head|) + head + rest;
    BigEndianRoundTrip(|head|);
    assert bytes == BigEndian(|head|) + (head + rest);
    assert bytes[..4] == BigEndian(|head|) && bytes[4..4 + |head|] == head && bytes[4 + |head|..] == rest;
  }

  lemma {:induction false} PartsOfPrefixed(parts: seq<seq<Byte>>)
    requires Short(parts)
    ensures Parts(Prefixed(parts)) == Some(parts)
  {
    if parts != [] {
      var head, rest := parts[0], Prefixed(parts[1..]);
      PartsOfPrefixed(parts[1..]);
      PartsStep(head, rest, parts[1..]);
      assert parts == [head] + parts[1..];
    }
  }

  /** Nothing else decodes: bytes with parts are the encoding of those parts. */
  lemma {:induction false} PrefixedOfParts(bytes: seq<Byte>)
    requires Parts(bytes).Some?
    ensures Short(Parts(bytes).value) && Prefixed(Parts(bytes).value) == bytes
    decreases |bytes|
  {
    if bytes != [] {
      var end := 4 + FromBigEndian(bytes[..4]);
      FromBigEndianRoundTrip(bytes[..4]);
      PrefixedOfParts(bytes[end..]);
      var parts := Parts(bytes).value;
      assert parts[1..] == Parts(bytes[end..]).value && |parts[0]| == end - 4;
      assert bytes == bytes[..4] + bytes[4..end] + bytes[end..];
    }
  }

  lemma PrefixedInjective(s: seq<seq<Byte>>, t: seq<seq<Byte>>)
    requires Short(s) && Short(t) && Prefixed(s) == Prefixed(t)
    ensures s == t
  {
    PartsOfPrefixed(s);
    PartsOfPrefixed(t);
  }

  // ---- texts ---------------------------------------------------------------

  function Encoded(texts: seq<string>): (parts: seq<seq<Byte>>)
    ensures |parts| == |texts| && forall i :: 0 <= i < |parts| ==> parts[i] == Utf8(texts[i])
  {
    seq(|texts|, i requires 0 <= i < |texts| => Utf8(texts[i]))
  }

  lemma EncodedInjective(s: seq<string>, t: seq<string>)
    requires Encoded(s) == Encoded(t)
    ensures s == t
  {
    assert |Encoded(s)| == |Encoded(t)|;
    forall i | 0 <= i < |s| ensures s[i] == t[i] {
      assert Encoded(s)[i] == Encoded(t)[i];
      Utf8Injective(s[i], t[i]);
    }
  }

  /** The bytes of a list of texts; `None` where a length does not fit and the source throws. */
  ghost function TextBytes(texts: seq<string>): Option<seq<Byte>> {
    if Short(Encoded(texts)) then Some(Prefixed(Encoded(texts))) else None
  }

  lemma TextBytesInjective(s: seq<string>, t: seq<string>)
    requires TextBytes(s).Some? && TextBytes(s) == TextBytes(t)
    ensures s == t
  {
    PrefixedInjective(Encoded(s), Encoded(t));
    EncodedInjective(s, t);
  }

  // ---- the loop ------------------------------------------------------------

  function Concat(chunks: seq<seq<Byte>>): seq<Byte> {
    if chunks == [] then [] else chunks[0] + Concat(chunks[1..])
  }

  lemma {:induction false} ConcatMore(chunks: seq<seq<Byte>>, more: seq<seq<Byte>>)
    ensures Concat(chunks + more) == Concat(chunks) + Concat(more)
  {
    if chunks == [] {
      assert chunks + more == more;
    } else {
      assert (chunks + more)[1..] == chunks[1..] + more;
      ConcatMore(chunks[1..], more);
    }
  }

  lemma {:induction false} PrefixedMore(parts: seq<seq<Byte>>, last: seq<Byte>)
    requires Short(parts) && |last| < LENGTH_LIMIT
    ensures Short(parts + [last]) && Prefixed(parts + [last]) == Prefixed(parts) + BigEndian(|last|) + last
  {
    hide BigEndian;
    var all := parts + [last];
    if parts == [] {
      assert all == [last] && Prefixed([]) == [] && [last][1..] == [];
    } else {
      var head := BigEndian(|parts[0]|) + parts[0];
      PrefixedMore(parts[1..], last);
      assert all[1..] == parts[1..] + [last];
      Regroup(head, Prefixed(parts[1..]), BigEndian(|last|), last);
    }
  }

  lemma Regroup(a: seq<Byte>, b: seq<Byte>, c: seq<Byte>, d: seq<Byte>)
    ensures a + (b + c + d) == a + b + c + d
  {}

  lemma PushPart(chunks: seq<seq<Byte>>, parts: seq<seq<Byte>>, bytes: seq<Byte>)
    requires Short(parts) && Concat(chunks) == Prefixed(parts) && |bytes| < LENGTH_LIMIT
    ensures Short(parts + [bytes])
    ensures Concat(chunks + [BigEndian(|bytes|), bytes]) == Prefixed(parts + [bytes])
  {
    PrefixedMore(parts, bytes);
    ConcatMore(chunks, [BigEndian(|bytes|), bytes]);
    assert Concat([bytes]) == bytes + Concat([]);
    assert [BigEndian(|bytes|), bytes][1..] == [bytes];
  }

  /** `lengthPrefixed`. */
  method LengthPrefixed(texts: seq<string>) returns (r: Option<seq<Byte>>)
    ensures r == TextBytes(texts)
  {
    var chunks: seq<seq<Byte>> := [];
    ghost var parts := Encoded(texts);
    for i := 0 to |texts|
      invariant Short(parts[..i]) && Concat(chunks) == Prefixed(parts[..i])
    {
      var bytes := Utf8(texts[i]);
      assert bytes == parts[i];
      if |bytes| >= LENGTH_LIMIT { return None; }
      assert parts[..i + 1] == parts[..i] + [bytes];
      PushPart(chunks, parts[..i], bytes);
      chunks := chunks + [BigEndian(|bytes|), bytes];
    }
    assert parts[..|texts|] == parts;
    return Some(Concat(chunks));
  }
}
