/** The payload a tunnel channel is opened with, in the data types of section 5
    of RFC 4251. */
module TunnelPayload {
  import opened Prelude

  type uint32 = n: int | 0 <= n < 0x1_0000_0000

  datatype Request = Request(version: uint32, extra: seq<byte>)

  const PROTOCOL_VERSION: uint32 := 1
  const LEGACY := Request(0, [])

  /** uint32, most significant octet first. */
  function Uint32(n: uint32): (b: seq<byte>)
    ensures |b| == 4
  {
    [n / 0x100 / 0x100 / 0x100, n / 0x100 / 0x100 % 0x100, n / 0x100 % 0x100, n % 0x100]
  }

  function FromUint32(b: seq<byte>): uint32
    requires |b| == 4
  {
    b[0] as int * 0x100_0000 + b[1] as int * 0x1_0000 + b[2] as int * 0x100 + b[3] as int
  }

  /** A string: its length, then its octets. */
  function Str(s: seq<byte>): seq<byte>
    requires |s| < 0x1_0000_0000
  {
    Uint32(|s|) + s
  }

  predicate Encodable(t: Request) { |t.extra| < 0x1_0000_0000 }

  /** ssh.Marshal of the request. */
  function Encode(t: Request): seq<byte>
    requires Encodable(t)
  {
    Uint32(t.version) + Str(t.extra)
  }

  /** parseString of golang.org/x/crypto/ssh: the octets and what follows them.
      The length is compared with the remaining length cut to 32 bits. */
  function ParseString(b: seq<byte>): Option<(seq<byte>, seq<byte>)> {
    if |b| < 4 then None
    else
      var n, rest := FromUint32(b[..4]), b[4..];
      if |rest| % 0x1_0000_0000 < n then None else Some((rest[..n], rest[n..]))
  }

  /** ssh.Unmarshal into the request: no field may be short, nothing may be left. */
  function Unmarshal(b: seq<byte>): Option<Request> {
    if |b| < 4 then None
    else
      var extra := ParseString(b[4..]);
      if extra.None? || extra.value.1 != [] then None
      else Some(Request(FromUint32(b[..4]), extra.value.0))
  }

  /** ParseTunnelRequest. */
  function ParseTunnelRequest(payload: seq<byte>): Request {
    var t := Unmarshal(payload);
    if payload == [] || t.None? then LEGACY else t.value
  }

  function MarshalTunnelRequest(): seq<byte> {
    Encode(Request(PROTOCOL_VERSION, []))
  }

  lemma Uint32RoundTrip(n: uint32)
    ensures FromUint32(Uint32(n)) == n
  {}

  lemma FromUint32Injective(b: seq<byte>)
    requires |b| == 4
    ensures Uint32(FromUint32(b)) == b
  {
    var n: int := FromUint32(b);
    assert n / 0x100 == b[0] as int * 0x1_0000 + b[1] as int * 0x100 + b[2] as int;
    assert n / 0x100 / 0x100 == b[0] as int * 0x100 + b[1] as int;
  }

  lemma ParseStringOf(s: seq<byte>, tail: seq<byte>)
    requires |s| + |tail| < 0x1_0000_0000
    ensures ParseString(Str(s) + tail) == Some((s, tail))
  {
    var b := Str(s) + tail;
    Uint32RoundTrip(|s|);
    assert b[..4] == Uint32(|s|) && b[4..] == s + tail;
    assert (s + tail)[..|s|] == s && (s + tail)[|s|..] == tail;
  }

  /** Every encodable request comes back as sent, whatever its Extra holds. */
  lemma ParseInvertsEncode(t: Request)
    requires Encodable(t)
    ensures ParseTunnelRequest(Encode(t)) == t
  {
    var b := Encode(t);
    Uint32RoundTrip(t.version);
    assert b[..4] == Uint32(t.version) && b[4..] == Str(t.extra) + [];
    ParseStringOf(t.extra, []);
  }

  /** What is read as something comes from nothing but its own encoding. */
  lemma UnmarshalOnlyEncodings(b: seq<byte>)
    requires Unmarshal(b).Some?
    ensures Encodable(Unmarshal(b).value) && b == Encode(Unmarshal(b).value)
  {
    var t := Unmarshal(b).value;
    var rest := b[4..][4..];
    FromUint32Injective(b[..4]);
    FromUint32Injective(b[4..][..4]);
    var n := FromUint32(b[4..][..4]);
    assert rest[n..] == [] && t.extra == rest[..n];
    assert |rest| == n && rest[..n] == rest;
    assert b[4..] == b[4..][..4] + rest;
    assert b == b[..4] + b[4..];
  }

  /** The payload of some request. */
  ghost predicate IsEncoding(b: seq<byte>) {
    exists t :: Encodable(t) && b == Encode(t)
  }

  /** The parser, completely: an encoding gives its request, and every other
      octet string reads as version 0. */
  lemma ParseTunnelRequestMeans(b: seq<byte>)
    ensures forall t :: Encodable(t) && b == Encode(t) ==> ParseTunnelRequest(b) == t
    ensures !IsEncoding(b) ==> ParseTunnelRequest(b) == LEGACY
  {
    forall t | Encodable(t) && b == Encode(t) ensures ParseTunnelRequest(b) == t { ParseInvertsEncode(t); }
    if Unmarshal(b).Some? { UnmarshalOnlyEncodings(b); }
  }

  /** Appending a field, however short, to the payload of any version makes it
      unreadable: it falls back to legacy. Nesting it in Extra does not. */
  lemma AppendedFieldReadsAsLegacy(t: Request, field: seq<byte>)
    requires Encodable(t) && field != []
    ensures ParseTunnelRequest(Encode(t) + field) == LEGACY
  {
    var b := Encode(t) + field;
    if Unmarshal(b).Some? {
      UnmarshalOnlyEncodings(b);
      EncodingsArePrefixFree(t, Unmarshal(b).value, field);
    }
  }

  lemma EncodingsArePrefixFree(t: Request, u: Request, field: seq<byte>)
    requires Encodable(t) && Encodable(u) && Encode(t) + field == Encode(u)
    ensures field == []
  {
    Uint32RoundTrip(|t.extra|);
    Uint32RoundTrip(|u.extra|);
    assert (Encode(t) + field)[4..8] == Encode(t)[4..8] == Uint32(|t.extra|);
    assert Encode(u)[4..8] == Uint32(|u.extra|);
    assert |Encode(u)| == 8 + |u.extra| && |Encode(t)| == 8 + |t.extra|;
  }

  lemma NestedFieldSurvives(version: uint32, field: seq<byte>)
    requires |field| < 0x1_0000_0000
    ensures ParseTunnelRequest(Encode(Request(version, field))).extra == field
    ensures ParseTunnelRequest(MarshalTunnelRequest()) == Request(PROTOCOL_VERSION, [])
  {
    ParseInvertsEncode(Request(version, field));
    ParseInvertsEncode(Request(PROTOCOL_VERSION, []));
  }

  // ---- The layout, octet by octet ----

  /** The number octets write, the first being the most significant. */
  function Number(b: seq<byte>): nat {
    if b == [] then 0 else 256 * Number(b[..|b| - 1]) + b[|b| - 1] as int
  }

  lemma Uint32IsTheNumber(n: uint32)
    ensures Number(Uint32(n)) == n
  {
    var b := Uint32(n);
    assert b[..3][..2] == b[..2] && b[..2][..1] == b[..1] && b[..1][..0] == [];
    assert Number(b[..1]) == b[0];
    assert Number(b[..2]) == 256 * Number(b[..1]) + b[1];
    assert Number(b[..3]) == 256 * Number(b[..2]) + b[2];
  }

  /** A payload is the version in four octets, the length of Extra in four, and
      then Extra, with nothing behind it. */
  lemma EncodingIsLaidOut(t: Request)
    requires Encodable(t)
    ensures var b := Encode(t);
      && |b| == 8 + |t.extra| && Number(b[..4]) == t.version && Number(b[4..8]) == |t.extra| && b[8..] == t.extra
  {
    var b := Encode(t);
    Uint32IsTheNumber(t.version);
    Uint32IsTheNumber(|t.extra|);
    assert b[..4] == Uint32(t.version) && b[4..8] == Uint32(|t.extra|);
  }
}
