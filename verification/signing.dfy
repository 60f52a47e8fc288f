/** The bytes a command's signature covers. SHA-256 is an arbitrary function of its input text. */
module Signing {
  import opened Wrappers
  import opened Decimal
  import opened JsValues
  import opened SortKeys
  import opened LengthPrefix

  datatype Timestamp = Timestamp(seconds: int, nanos: int)

  /** The set member of the payload `oneof`. */
  datatype Payload = Payload(kind: string, inner: JsValue)

  datatype Command = Command(id: string, issuedAt: Option<Timestamp>, instanceName: string, payload: Option<Payload>)

  function CommandKind(c: Command): string {
    if c.payload.Some? then c.payload.value.kind else "unknown"
  }

  /** What is hashed; `None` where the payload cannot be canonicalised. */
  function PayloadText(c: Command): Option<string> {
    match c.payload
    case None => Some("")
    case Some(p) => match CanonicalText(p.inner) case None => None case Some(t) => Some(p.kind + ":" + t)
  }

  function IssuedAtText(c: Command): string {
    match c.issuedAt
    case None => "0.0"
    case Some(t) => IntToString(t.seconds) + "." + IntToString(t.nanos)
  }

  function SignedTexts(c: Command, payloadHash: string): seq<string> {
    [c.id, CommandKind(c), payloadHash, IssuedAtText(c), c.instanceName]
  }

  /** `commandSigningBytes`. */
  ghost function SigningBytes(c: Command, sha256: string -> string): Option<seq<Byte>> {
    match PayloadText(c) case None => None case Some(t) => TextBytes(SignedTexts(c, sha256(t)))
  }

  // ---- issue times ---------------------------------------------------------

  lemma NoDot(n: int)
    ensures '.' !in IntToString(n)
  {}

  lemma SplitAtDot(s: string, t: string, u: string, v: string)
    requires '.' !in s && '.' !in u && s + "." + t == u + "." + v
    ensures s == u && t == v
  {
    var w, x := s + "." + t, u + "." + v;
    assert w[|s|] == '.' && x[|u|] == '.';
    assert (forall i :: 0 <= i < |s| ==> w[i] == s[i]) && (forall i :: 0 <= i < |u| ==> x[i] == u[i]);
    assert |s| == |u|;
    assert s == w[..|s|] && u == x[..|u|] && t == w[|s| + 1..] && v == x[|u| + 1..];
  }

  function EffectiveIssuedAt(c: Command): Timestamp { c.issuedAt.GetOr(Timestamp(0, 0)) }

  lemma IssuedAtTextIs(c: Command)
    ensures var t := EffectiveIssuedAt(c); IssuedAtText(c) == IntToString(t.seconds) + "." + IntToString(t.nanos)
  {
    assert IntToString(0) == "0";
  }

  /** The text tells issue times apart, except that an absent one reads as the epoch. */
  lemma IssuedAtDecides(a: Command, b: Command)
    ensures IssuedAtText(a) == IssuedAtText(b) <==> EffectiveIssuedAt(a) == EffectiveIssuedAt(b)
  {
    var s, t := EffectiveIssuedAt(a), EffectiveIssuedAt(b);
    IssuedAtTextIs(a);
    IssuedAtTextIs(b);
    if IssuedAtText(a) == IssuedAtText(b) {
      NoDot(s.seconds);
      NoDot(t.seconds);
      SplitAtDot(IntToString(s.seconds), IntToString(s.nanos), IntToString(t.seconds), IntToString(t.nanos));
      IntToStringInjective(s.seconds, t.seconds);
      IntToStringInjective(s.nanos, t.nanos);
    }
  }

  // ---- what the bytes determine --------------------------------------------

  /** Equal bytes exactly for equal id, kind, payload hash, issue time and instance name. */
  lemma SigningBytesDecide(a: Command, b: Command, sha256: string -> string)
    requires SigningBytes(a, sha256).Some? && SigningBytes(b, sha256).Some?
    ensures SigningBytes(a, sha256) == SigningBytes(b, sha256) <==>
            && a.id == b.id && CommandKind(a) == CommandKind(b)
            && sha256(PayloadText(a).value) == sha256(PayloadText(b).value)
            && EffectiveIssuedAt(a) == EffectiveIssuedAt(b) && a.instanceName == b.instanceName
  {
    var s := SignedTexts(a, sha256(PayloadText(a).value));
    var t := SignedTexts(b, sha256(PayloadText(b).value));
    IssuedAtDecides(a, b);
    if SigningBytes(a, sha256) == SigningBytes(b, sha256) {
      TextBytesInjective(s, t);
      assert s[0] == t[0] && s[1] == t[1] && s[2] == t[2] && s[3] == t[3] && s[4] == t[4];
    }
  }

  ghost predicate SamePayload(a: Option<Payload>, b: Option<Payload>) {
    a.Some? == b.Some? &&
    (a.Some? && b.Some? ==> a.value.kind == b.value.kind && SameValue(a.value.inner, b.value.inner))
  }

  ghost predicate ProperPayload(c: Command) { c.payload.Some? ==> Proper(c.payload.value.inner) }

  lemma PayloadTextDecides(a: Command, b: Command)
    requires ProperPayload(a) && ProperPayload(b) && PayloadText(a).Some? && PayloadText(b).Some?
    requires CommandKind(a) == CommandKind(b)
    ensures PayloadText(a) == PayloadText(b) <==> SamePayload(a.payload, b.payload)
  {
    if a.payload.Some? && b.payload.Some? {
      var k := a.payload.value.kind;
      var x, y := a.payload.value.inner, b.payload.value.inner;
      CanonicalTextDecides(x, y);
      var s, t := CanonicalText(x).value, CanonicalText(y).value;
      assert (k + ":" + s)[|k| + 1..] == s && (k + ":" + t)[|k| + 1..] == t;
    }
  }

  /**
   * Where the hash does not collide on the two payloads, equal bytes mean the
   * same command: payload key order, -0 and undefined members aside, and with
   * an absent issue time standing for the epoch.
   */
  lemma SigningBytesMeanSameCommand(a: Command, b: Command, sha256: string -> string)
    requires ProperPayload(a) && ProperPayload(b)
    requires SigningBytes(a, sha256).Some? && SigningBytes(b, sha256).Some?
    requires sha256(PayloadText(a).value) == sha256(PayloadText(b).value) ==> PayloadText(a) == PayloadText(b)
    ensures SigningBytes(a, sha256) == SigningBytes(b, sha256) <==>
            && a.id == b.id && CommandKind(a) == CommandKind(b) && SamePayload(a.payload, b.payload)
            && EffectiveIssuedAt(a) == EffectiveIssuedAt(b) && a.instanceName == b.instanceName
  {
    SigningBytesDecide(a, b, sha256);
    if CommandKind(a) == CommandKind(b) { PayloadTextDecides(a, b); }
  }
}
