/** Base 64 of section 4 of RFC 4648, padded as encoding/base64.StdEncoding and
    unpadded as RawStdEncoding. */
module Base64 {
  import opened Prelude

  type sextet = i: int | 0 <= i < 64

  /** The alphabet of table 1. */
  function Digit(i: sextet): char {
    if i < 26 then ('A' as int + i) as char
    else if i < 52 then ('a' as int + (i - 26)) as char
    else if i < 62 then ('0' as int + (i - 52)) as char
    else if i == 62 then '+' else '/'
  }

  function Value(c: char): Option<sextet> {
    if 'A' <= c <= 'Z' then Some(c as int - 'A' as int)
    else if 'a' <= c <= 'z' then Some(c as int - 'a' as int + 26)
    else if '0' <= c <= '9' then Some(c as int - '0' as int + 52)
    else if c == '+' then Some(62)
    else if c == '/' then Some(63)
    else None
  }

  predicate IsDigit(c: char) { Value(c).Some? }

  function Quad(a: byte, b: byte, c: byte): string {
    [Digit(a / 4), Digit(a % 4 * 16 + b / 16), Digit(b % 16 * 4 + c / 64), Digit(c % 64)]
  }

  /** The last one or two octets. */
  function One(a: byte): string {
    [Digit(a / 4), Digit(a % 4 * 16)]
  }

  function Two(a: byte, b: byte): string {
    [Digit(a / 4), Digit(a % 4 * 16 + b / 16), Digit(b % 16 * 4)]
  }

  /** RawStdEncoding.EncodeToString. */
  function RawEncode(b: seq<byte>): string {
    if |b| == 0 then ""
    else if |b| == 1 then One(b[0])
    else if |b| == 2 then Two(b[0], b[1])
    else Quad(b[0], b[1], b[2]) + RawEncode(b[3..])
  }

  /** StdEncoding.EncodeToString. */
  function Encode(b: seq<byte>): string {
    if |b| == 0 then ""
    else if |b| == 1 then One(b[0]) + "=="
    else if |b| == 2 then Two(b[0], b[1]) + "="
    else Quad(b[0], b[1], b[2]) + Encode(b[3..])
  }

  /** The octets four digits stand for. */
  function Octets(p: sextet, q: sextet, r: sextet, s: sextet): seq<byte> {
    [p * 4 + q / 16, q % 16 * 16 + r / 4, r % 4 * 64 + s]
  }

  /** The octets a group of four characters stands for; padding may close the
      last group only. */
  function DecodeGroup(g: string, last: bool): Option<seq<byte>>
    requires |g| == 4
  {
    var p, q := Value(g[0]), Value(g[1]);
    if p.None? || q.None? then None
    else if last && g[2] == '=' && g[3] == '=' then Some(Octets(p.value, q.value, 0, 0)[..1])
    else
      var r := Value(g[2]);
      if r.None? then None
      else if last && g[3] == '=' then Some(Octets(p.value, q.value, r.value, 0)[..2])
      else
        var s := Value(g[3]);
        if s.None? then None else Some(Octets(p.value, q.value, r.value, s.value))
  }

  function Decode(s: string): Option<seq<byte>> {
    if s == "" then Some([])
    else if |s| < 4 then None
    else
      var head := DecodeGroup(s[..4], |s| == 4);
      var tail := Decode(s[4..]);
      if head.None? || tail.None? then None else Some(head.value + tail.value)
  }

  lemma ValueOfDigit(i: sextet)
    ensures Value(Digit(i)) == Some(i) && Digit(i) != '='
  {}

  lemma OctetsOfQuad(a: byte, b: byte, c: byte)
    ensures Octets(a / 4, a % 4 * 16 + b / 16, b % 16 * 4 + c / 64, c % 64) == [a, b, c]
  {}

  lemma QuadDigits(a: byte, b: byte, c: byte)
    ensures forall d :: d in Quad(a, b, c) ==> IsDigit(d)
    ensures DecodeGroup(Quad(a, b, c), true) == DecodeGroup(Quad(a, b, c), false) == Some([a, b, c])
  {
    ValueOfDigit(a / 4); ValueOfDigit(a % 4 * 16 + b / 16);
    ValueOfDigit(b % 16 * 4 + c / 64); ValueOfDigit(c % 64);
    OctetsOfQuad(a, b, c);
  }

  lemma OneDigits(a: byte)
    ensures forall d :: d in One(a) ==> IsDigit(d)
    ensures DecodeGroup(One(a) + "==", true) == Some([a])
  {
    ValueOfDigit(a / 4); ValueOfDigit(a % 4 * 16);
    OctetsOfQuad(a, 0, 0);
    assert Octets(a / 4, a % 4 * 16, 0, 0)[..1] == [a];
  }

  lemma TwoDigits(a: byte, b: byte)
    ensures forall d :: d in Two(a, b) ==> IsDigit(d)
    ensures DecodeGroup(Two(a, b) + "=", true) == Some([a, b])
  {
    ValueOfDigit(a / 4); ValueOfDigit(a % 4 * 16 + b / 16); ValueOfDigit(b % 16 * 4);
    OctetsOfQuad(a, b, 0);
    assert Octets(a / 4, a % 4 * 16 + b / 16, b % 16 * 4, 0)[..2] == [a, b];
  }

  /** Decoding undoes encoding, for every octet string. */
  lemma {:induction false} DecodeEncode(b: seq<byte>)
    ensures Decode(Encode(b)) == Some(b)
  {
    if |b| == 1 {
      OneDigits(b[0]);
      assert b == [b[0]];
      DecodeLast(One(b[0]) + "==");
    } else if |b| == 2 {
      TwoDigits(b[0], b[1]);
      assert b == [b[0], b[1]];
      DecodeLast(Two(b[0], b[1]) + "=");
    } else if |b| > 2 {
      DecodeEncode(b[3..]);
      DecodeQuadThen(b[0], b[1], b[2], Encode(b[3..]));
      assert b == [b[0], b[1], b[2]] + b[3..];
    }
  }

  lemma DecodeLast(s: string)
    requires |s| == 4 && DecodeGroup(s, true).Some?
    ensures Decode(s) == DecodeGroup(s, true)
  {
    assert s[..4] == s && s[4..] == "";
    assert DecodeGroup(s, true).value + [] == DecodeGroup(s, true).value;
  }

  lemma DecodeQuadThen(a: byte, b: byte, c: byte, rest: string)
    requires Decode(rest).Some?
    ensures Decode(Quad(a, b, c) + rest) == Some([a, b, c] + Decode(rest).value)
  {
    var s := Quad(a, b, c) + rest;
    QuadDigits(a, b, c);
    assert s[..4] == Quad(a, b, c) && s[4..] == rest;
  }

  /** Encoded text is whole groups over the alphabet, with at most two pads, at
      the very end. */
  predicate PaddedText(s: string) {
    |s| % 4 == 0 && forall i :: 0 <= i < |s| ==> IsDigit(s[i]) || (s[i] == '=' && |s| - 2 <= i)
  }

  lemma {:induction false} EncodeShape(b: seq<byte>)
    ensures PaddedText(Encode(b))
  {
    if |b| == 1 {
      OneDigits(b[0]);
    } else if |b| == 2 {
      TwoDigits(b[0], b[1]);
    } else if |b| > 2 {
      QuadDigits(b[0], b[1], b[2]);
      EncodeShape(b[3..]);
      PaddedBehind(Quad(b[0], b[1], b[2]), Encode(b[3..]));
    }
  }

  lemma PaddedBehind(q: string, s: string)
    requires |q| == 4 && PaddedText(s) && forall d :: d in q ==> IsDigit(d)
    ensures PaddedText(q + s)
  {
    forall i | 0 <= i < |q + s| ensures IsDigit((q + s)[i]) || ((q + s)[i] == '=' && |q + s| - 2 <= i) {
      if i < 4 { assert (q + s)[i] in q; } else { assert (q + s)[i] == s[i - 4]; }
    }
  }

  lemma {:induction false} RawEncodeShape(b: seq<byte>)
    ensures |RawEncode(b)| == (|b| * 4 + 2) / 3
    ensures forall c :: c in RawEncode(b) ==> IsDigit(c)
  {
    if |b| == 1 {
      OneDigits(b[0]);
    } else if |b| == 2 {
      TwoDigits(b[0], b[1]);
    } else if |b| > 2 {
      QuadDigits(b[0], b[1], b[2]);
      RawEncodeShape(b[3..]);
    }
  }

  // ---- The alphabet, and what the digits are worth ----

  const UPPER := "ABCDEFGHIJKLMNOPQRSTUVWXYZ"
  const LOWER := "abcdefghijklmnopqrstuvwxyz"
  const OTHER := "0123456789+/"

  lemma DigitsAreTheAlphabet(i: sextet)
    ensures |UPPER| == |LOWER| == 26 && |OTHER| == 12
    ensures Digit(i) == if i < 26 then UPPER[i] else if i < 52 then LOWER[i - 26] else OTHER[i - 52]
  {}

  /** The number that digits write, the first being the most significant. */
  function Worth(digits: string): nat
    requires forall c :: c in digits ==> IsDigit(c)
  {
    if digits == "" then 0
    else
      var n := |digits| - 1;
      assert digits[n] in digits && IsDigit(digits[n]);
      64 * Worth(digits[..n]) + Value(digits[n]).value
  }

  /** Three octets and their four digits write one number, of 24 bits. */
  lemma QuadIsTheNumber(a: byte, b: byte, c: byte)
    ensures (forall d :: d in Quad(a, b, c) ==> IsDigit(d))
    ensures Worth(Quad(a, b, c)) == a * 0x1_0000 + b * 0x100 + c
  {
    QuadDigits(a, b, c);
    var q := Quad(a, b, c);
    ValueOfDigit(a / 4); ValueOfDigit(a % 4 * 16 + b / 16);
    ValueOfDigit(b % 16 * 4 + c / 64); ValueOfDigit(c % 64);
    assert q[..3][..2] == q[..2] && q[..2][..1] == q[..1] && q[..1][..0] == "";
    assert Worth(q[..1]) == a / 4;
    assert Worth(q[..2]) == 64 * (a / 4) + (a % 4 * 16 + b / 16);
    assert Worth(q[..3]) == 64 * Worth(q[..2]) + (b % 16 * 4 + c / 64);
  }

  // ---- With and without the padding ----

  function Pads(n: nat): string { if n % 3 == 1 then "==" else if n % 3 == 2 then "=" else "" }

  /** The unpadded form is the padded one without its pads. */
  lemma {:induction false} RawIsEncodeUnpadded(b: seq<byte>)
    ensures Encode(b) == RawEncode(b) + Pads(|b|)
  {
    if |b| > 2 {
      RawIsEncodeUnpadded(b[3..]);
      Regrouped(Quad(b[0], b[1], b[2]), RawEncode(b[3..]), Pads(|b| - 3));
    }
  }

  lemma Regrouped(x: string, y: string, z: string)
    ensures x + (y + z) == x + y + z
  {}

  /** So it too can be undone: no two octet strings of one length share it. */
  lemma RawEncodeInjective(a: seq<byte>, b: seq<byte>)
    requires |a| == |b| && RawEncode(a) == RawEncode(b)
    ensures a == b
  {
    RawIsEncodeUnpadded(a);
    RawIsEncodeUnpadded(b);
    DecodeEncode(a);
    DecodeEncode(b);
  }
}
