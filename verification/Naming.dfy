/** Canonical and friendly names. SHA-256 is a parameter: nothing here depends
    on which function to 32 octets it is. A host key is its wire form, the
    octets PublicKey.Marshal gives. */
module Naming {
  import opened Prelude
  import opened GoText
  import Base64

  type Digest = d: seq<byte> | |d| == 32 witness seq(32, _ => 0)

  type Key = seq<byte>

  type Hash = seq<byte> -> Digest

  const HASH_LEN := 12

  // ---- The name predicates ----

  predicate LowerAlnum(c: char) { 'a' <= c <= 'z' || '0' <= c <= '9' }

  /** ^[a-z0-9][a-z0-9-]{0,62}$ */
  predicate ValidFriendlyName(s: string) {
    1 <= |s| <= 63 && LowerAlnum(s[0]) && forall c :: c in s ==> LowerAlnum(c) || c == '-'
  }

  /** A dot is the whole distinction between the two kinds of name. */
  predicate IsCanonicalName(s: string) { '.' in s }

  /** [a-z2-7] */
  predicate Base32Char(c: char) { 'a' <= c <= 'z' || '2' <= c <= '7' }

  /** ^[a-z0-9][a-z0-9-]{0,62}\.[a-z2-7]{12}$ */
  predicate ValidCanonicalName(s: string) {
    && |s| > HASH_LEN && s[|s| - HASH_LEN - 1] == '.'
    && ValidFriendlyName(s[..|s| - HASH_LEN - 1])
    && forall c :: c in s[|s| - HASH_LEN..] ==> Base32Char(c)
  }

  // ---- Lowercase base 32 without padding, section 6 of RFC 4648 ----

  type quintet = i: int | 0 <= i < 32

  function Digit32(i: quintet): char {
    if i < 26 then ('a' as int + i) as char else ('2' as int + (i - 26)) as char
  }

  function Group(a: byte, b: byte, c: byte, d: byte, e: byte): string {
    [Digit32(a / 8), Digit32(a % 8 * 4 + b / 64), Digit32(b / 2 % 32), Digit32(b % 2 * 16 + c / 16),
     Digit32(c % 16 * 2 + d / 128), Digit32(d / 4 % 32), Digit32(d % 4 * 8 + e / 32), Digit32(e % 32)]
  }

  /** b32.EncodeToString: a short last group keeps the digits its bits reach. */
  function Encode32(b: seq<byte>): string {
    if |b| == 0 then ""
    else if |b| == 1 then Group(b[0], 0, 0, 0, 0)[..2]
    else if |b| == 2 then Group(b[0], b[1], 0, 0, 0)[..4]
    else if |b| == 3 then Group(b[0], b[1], b[2], 0, 0)[..5]
    else if |b| == 4 then Group(b[0], b[1], b[2], b[3], 0)[..7]
    else Group(b[0], b[1], b[2], b[3], b[4]) + Encode32(b[5..])
  }

  lemma {:induction false} Encode32Length(b: seq<byte>)
    ensures |Encode32(b)| == (8 * |b| + 4) / 5
  {
    if |b| >= 5 { Encode32Length(b[5..]); }
  }

  // ---- Deriving and checking ----

  const NAME_DOMAIN := "multissh-canonical-name-v1"

  predicate Ascii(s: string) { forall c :: c in s ==> c as int < 128 }

  function ByteAt(s: string, i: nat): byte
    requires Ascii(s) && i < |s|
  {
    assert s[i] in s;
    s[i] as int
  }

  function Bytes(s: string): seq<byte>
    requires Ascii(s)
  {
    seq(|s|, i requires 0 <= i < |s| => ByteAt(s, i))
  }

  lemma NamesAreAscii(s: string)
    requires ValidFriendlyName(s)
    ensures Ascii(s)
  {}

  lemma DomainIsAscii()
    ensures Ascii(NAME_DOMAIN)
  {}

  /** What is hashed: domain, NUL, label, NUL, key. */
  function HashInput(base: string, key: Key): seq<byte>
    requires ValidFriendlyName(base)
  {
    NamesAreAscii(base);
    DomainIsAscii();
    Bytes(NAME_DOMAIN) + [0] + Bytes(base) + [0] + key
  }

  function CanonicalName(sha: Hash, base: string, key: Key): Option<string> {
    if !ValidFriendlyName(base) then None
    else
      var digest := sha(HashInput(base, key));
      Encode32Length(digest);
      Some(base + "." + Encode32(digest)[..HASH_LEN])
  }

  predicate VerifyCanonicalName(sha: Hash, name: string, key: Key) {
    var cut := Cut(name, '.');
    cut.found && CanonicalName(sha, cut.before, key) == Some(name)
  }

  // ---- The hash input says which label and which key ----

  /** The framing is injective: labels have no NUL. */
  lemma HashInputInjective(b1: string, k1: Key, b2: string, k2: Key)
    requires ValidFriendlyName(b1) && ValidFriendlyName(b2)
    ensures HashInput(b1, k1) == HashInput(b2, k2) <==> b1 == b2 && k1 == k2
  {
    NamesAreAscii(b1); NamesAreAscii(b2); DomainIsAscii();
    if HashInput(b1, k1) == HashInput(b2, k2) {
      var d := Bytes(NAME_DOMAIN) + [0];
      assert HashInput(b1, k1) == d + (Bytes(b1) + [0] + k1);
      assert HashInput(b2, k2) == d + (Bytes(b2) + [0] + k2);
      var x, y := Bytes(b1) + [0] + k1, Bytes(b2) + [0] + k2;
      assert x == (d + x)[|d|..] && y == (d + y)[|d|..];
      LabelHasNoNul(b1, x, k1);
      LabelHasNoNul(b2, y, k2);
      FirstNul(b1, b2, x);
      assert x[|b1| + 1..] == k1 && y[|b2| + 1..] == k2;
      SameBytes(b1, b2);
    }
  }

  lemma LabelHasNoNul(b: string, x: seq<byte>, k: Key)
    requires ValidFriendlyName(b) && Ascii(b) && x == Bytes(b) + [0] + k
    ensures x[..|b|] == Bytes(b) && x[|b|] == 0
    ensures forall i :: 0 <= i < |b| ==> x[i] != 0
  {
    forall i | 0 <= i < |b| ensures x[i] != 0 {
      assert b[i] in b && x[i] == Bytes(b)[i];
    }
  }

  lemma FirstNul(b1: string, b2: string, x: seq<byte>)
    requires |b1| < |x| && |b2| < |x| && x[|b1|] == 0 && x[|b2|] == 0
    requires forall i :: 0 <= i < |b1| ==> x[i] != 0
    requires forall i :: 0 <= i < |b2| ==> x[i] != 0
    ensures |b1| == |b2|
  {}

  lemma SameBytes(a: string, b: string)
    requires Ascii(a) && Ascii(b) && Bytes(a) == Bytes(b)
    ensures a == b
  {
    assert |Bytes(a)| == |a| && |Bytes(b)| == |b|;
    forall i | 0 <= i < |a| ensures a[i] == b[i] {
      assert Bytes(a)[i] == Bytes(b)[i];
    }
  }

  // ---- Twelve digits are sixty bits ----

  /** Bit i of an octet string, most significant first. */
  function Bit(d: seq<byte>, i: nat): bool
    requires i < 8 * |d|
  {
    BitOf(d[i / 8], i % 8)
  }

  /** Bit k of an octet; bit 7 is the least significant. */
  function BitOf(b: byte, k: nat): bool
    requires k < 8
    decreases 8 - k
  {
    if k == 7 then b % 2 == 1 else BitOf(b / 2, k + 1)
  }

  predicate FirstBitsAgree(d: Digest, e: Digest, n: nat)
    requires n <= 256
  {
    forall i :: 0 <= i < n ==> Bit(d, i) == Bit(e, i)
  }

  /** A number of 8 - k bits is determined by the bits from k on. */
  lemma {:induction false} LowBitsDetermine(a: byte, b: byte, k: nat)
    requires k <= 8 && a < Power(8 - k) && b < Power(8 - k)
    requires forall i :: k <= i < 8 ==> BitOf(a, i) == BitOf(b, i)
    ensures a == b
    decreases 8 - k
  {
    if k < 8 {
      assert BitOf(a, 7) == BitOf(b, 7);
      forall i | k + 1 <= i < 8 ensures BitOf(a / 2, i) == BitOf(b / 2, i) {
        assert BitOf(a, i - 1) == BitOf(b, i - 1);
      }
      LowBitsDetermine(a / 2, b / 2, k + 1);
    }
  }

  function Power(n: nat): nat { if n == 0 then 1 else 2 * Power(n - 1) }

  lemma OctetFromBits(a: byte, b: byte)
    requires forall k :: 0 <= k < 8 ==> BitOf(a, k) == BitOf(b, k)
    ensures a == b
  {
    assert Power(8) == 256 by { assert Power(4) == 16; }
    LowBitsDetermine(a, b, 0);
  }

  lemma HighBits(a: byte, k: nat)
    requires k < 4
    ensures BitOf(a, k) == BitOf(a / 16, k + 4)
  {
    assert a / 2 / 2 / 2 / 2 == a / 16;
    assert BitOf(a, k) == BitOf(a / 2 / 2, k + 2);
  }

  lemma BitsFromNibble(a: byte, b: byte, k: nat)
    requires a / 16 == b / 16 && k < 4
    ensures BitOf(a, k) == BitOf(b, k)
  {
    HighBits(a, k);
    HighBits(b, k);
  }

  lemma NibbleFromBits(a: byte, b: byte)
    requires forall k :: 0 <= k < 4 ==> BitOf(a, k) == BitOf(b, k)
    ensures a / 16 == b / 16
  {
    assert Power(4) == 16;
    forall i | 4 <= i < 8 ensures BitOf(a / 16, i) == BitOf(b / 16, i) {
      HighBits(a, i - 4);
      HighBits(b, i - 4);
      assert BitOf(a, i - 4) == BitOf(b, i - 4);
    }
    LowBitsDetermine(a / 16, b / 16, 4);
  }

  /** Seven octets and half of the eighth. */
  predicate Agree60(d: Digest, e: Digest) {
    d[..7] == e[..7] && d[7] / 16 == e[7] / 16
  }

  lemma BitAt(d: Digest, j: nat, k: nat)
    requires j < 32 && k < 8
    ensures Bit(d, 8 * j + k) == BitOf(d[j], k)
  {}

  lemma BitsGiveAgree60(d: Digest, e: Digest)
    requires FirstBitsAgree(d, e, 60)
    ensures Agree60(d, e)
  {
    forall j, k | 0 <= j < 8 && 0 <= k < 8 && 8 * j + k < 60 ensures BitOf(d[j], k) == BitOf(e[j], k) {
      BitAt(d, j, k);
      BitAt(e, j, k);
    }
    forall j | 0 <= j < 7 ensures d[j] == e[j] { OctetFromBits(d[j], e[j]); }
    NibbleFromBits(d[7], e[7]);
  }

  lemma Agree60GivesBits(d: Digest, e: Digest)
    requires Agree60(d, e)
    ensures FirstBitsAgree(d, e, 60)
  {
    forall i | 0 <= i < 60 ensures Bit(d, i) == Bit(e, i) {
      if i < 56 {
        assert d[i / 8] == d[..7][i / 8] && e[i / 8] == e[..7][i / 8];
      } else {
        BitsFromNibble(d[7], e[7], i - 56);
      }
    }
  }

  lemma Digit32Injective(i: quintet, j: quintet)
    ensures Digit32(i) == Digit32(j) <==> i == j
    ensures Base32Char(Digit32(i))
  {}

  // Where one octet ends within a digit, that digit completes it and gives the
  // top of the next.
  lemma After3(x: byte, y: byte, x': byte, y': byte)
    ensures x / 8 == x' / 8 && x % 8 * 4 + y / 64 == x' % 8 * 4 + y' / 64 <==> x == x' && y / 64 == y' / 64
  {}

  lemma After7(x: byte, y: byte, x': byte, y': byte)
    ensures x / 64 == x' / 64 && x / 2 % 32 == x' / 2 % 32 && x % 2 * 16 + y / 16 == x' % 2 * 16 + y' / 16
      <==> x == x' && y / 16 == y' / 16
  {
    Parts7(x); Parts7(x');
  }

  lemma Parts7(x: byte)
    ensures x == x / 64 * 64 + x / 2 % 32 * 2 + x % 2
  {}

  lemma After4(x: byte, y: byte, x': byte, y': byte)
    ensures x / 16 == x' / 16 && x % 16 * 2 + y / 128 == x' % 16 * 2 + y' / 128 <==> x == x' && y / 128 == y' / 128
  {}

  lemma After6(x: byte, y: byte, x': byte, y': byte)
    ensures x / 128 == x' / 128 && x / 4 % 32 == x' / 4 % 32 && x % 4 * 8 + y / 32 == x' % 4 * 8 + y' / 32
      <==> x == x' && y / 32 == y' / 32
  {
    Parts6(x); Parts6(x');
  }

  lemma Parts6(x: byte)
    ensures x == x / 128 * 128 + x / 4 % 32 * 4 + x % 4
  {}

  function Digits(a: byte, b: byte, c: byte, d: byte, e: byte): seq<quintet> {
    [a / 8, a % 8 * 4 + b / 64, b / 2 % 32, b % 2 * 16 + c / 16,
     c % 16 * 2 + d / 128, d / 4 % 32, d % 4 * 8 + e / 32, e % 32]
  }

  lemma GroupDigits(a: byte, b: byte, c: byte, d: byte, e: byte)
    ensures |Group(a, b, c, d, e)| == |Digits(a, b, c, d, e)| == 8
    ensures forall i :: 0 <= i < 8 ==>
      Group(a, b, c, d, e)[i] == Digit32(Digits(a, b, c, d, e)[i]) && Base32Char(Group(a, b, c, d, e)[i])
  {
    forall i | 0 <= i < 8 ensures Base32Char(Digit32(Digits(a, b, c, d, e)[i])) {
      Digit32Injective(Digits(a, b, c, d, e)[i], 0);
    }
  }

  /** Equal characters are equal digits. */
  lemma SameDigits(a: byte, b: byte, c: byte, d: byte, e: byte,
                   a': byte, b': byte, c': byte, d': byte, e': byte, n: nat)
    requires n <= 8
    ensures Group(a, b, c, d, e)[..n] == Group(a', b', c', d', e')[..n] <==>
      forall i :: 0 <= i < n ==> Digits(a, b, c, d, e)[i] == Digits(a', b', c', d', e')[i]
  {
    GroupDigits(a, b, c, d, e);
    GroupDigits(a', b', c', d', e');
    var g, g' := Group(a, b, c, d, e), Group(a', b', c', d', e');
    var v, v' := Digits(a, b, c, d, e), Digits(a', b', c', d', e');
    if g[..n] == g'[..n] {
      forall i | 0 <= i < n ensures v[i] == v'[i] {
        assert g[i] == g[..n][i] == g'[..n][i] == g'[i];
        Digit32Injective(v[i], v'[i]);
      }
    }
    if forall i :: 0 <= i < n ==> v[i] == v'[i] {
      forall i | 0 <= i < n ensures g[i] == g'[i] {
        assert v[i] == v'[i];
      }
    }
  }

  /** Eight digits determine their five octets. */
  lemma GroupInjective(a: byte, b: byte, c: byte, d: byte, e: byte,
                       a': byte, b': byte, c': byte, d': byte, e': byte)
    requires Group(a, b, c, d, e) == Group(a', b', c', d', e')
    ensures a == a' && b == b' && c == c' && d == d' && e == e'
  {
    SameDigits(a, b, c, d, e, a', b', c', d', e', 8);
    var v, v' := Digits(a, b, c, d, e), Digits(a', b', c', d', e');
    assert v[0] == v'[0] && v[1] == v'[1] && v[2] == v'[2] && v[3] == v'[3];
    assert v[4] == v'[4] && v[5] == v'[5] && v[6] == v'[6] && v[7] == v'[7];
    After3(a, b, a', b');
    After7(b, c, b', c');
    After4(c, d, c', d');
    After6(d, e, d', e');
  }

  /** The first four digits are two octets and half of a third. */
  lemma HalfGroup(a: byte, b: byte, c: byte, d: byte, e: byte,
                  a': byte, b': byte, c': byte, d': byte, e': byte)
    ensures Group(a, b, c, d, e)[..4] == Group(a', b', c', d', e')[..4]
      <==> a == a' && b == b' && c / 16 == c' / 16
  {
    SameDigits(a, b, c, d, e, a', b', c', d', e', 4);
    var v, v' := Digits(a, b, c, d, e), Digits(a', b', c', d', e');
    assert (forall i :: 0 <= i < 4 ==> v[i] == v'[i])
      <==> v[0] == v'[0] && v[1] == v'[1] && v[2] == v'[2] && v[3] == v'[3];
    After3(a, b, a', b');
    After7(b, c, b', c');
  }

  lemma TwelveDigits(d: Digest)
    ensures |Encode32(d)| >= HASH_LEN
    ensures Encode32(d)[..HASH_LEN]
         == Group(d[0], d[1], d[2], d[3], d[4]) + Group(d[5], d[6], d[7], d[8], d[9])[..4]
  {
    Encode32Length(d);
    var g, h := Group(d[0], d[1], d[2], d[3], d[4]), Group(d[5], d[6], d[7], d[8], d[9]);
    assert d[5..][5..] == d[10..];
    assert Encode32(d[5..]) == h + Encode32(d[10..]);
    assert Encode32(d) == g + (h + Encode32(d[10..]));
  }

  lemma TwelveDigitsAreSixtyBits(d: Digest, e: Digest)
    requires |Encode32(d)| >= HASH_LEN && |Encode32(e)| >= HASH_LEN
    ensures Encode32(d)[..HASH_LEN] == Encode32(e)[..HASH_LEN] <==> FirstBitsAgree(d, e, 60)
  {
    TwelveDigits(d);
    TwelveDigits(e);
    var g, h := Group(d[0], d[1], d[2], d[3], d[4]), Group(d[5], d[6], d[7], d[8], d[9]);
    var g', h' := Group(e[0], e[1], e[2], e[3], e[4]), Group(e[5], e[6], e[7], e[8], e[9]);
    if Agree60(d, e) { Agree60GivesBits(d, e); }
    if FirstBitsAgree(d, e, 60) { BitsGiveAgree60(d, e); }
    HalfGroup(d[5], d[6], d[7], d[8], d[9], e[5], e[6], e[7], e[8], e[9]);
    assert (g + h[..4])[..8] == g && (g' + h'[..4])[..8] == g';
    assert (g + h[..4])[8..] == h[..4] && (g' + h'[..4])[8..] == h'[..4];
    if g == g' {
      GroupInjective(d[0], d[1], d[2], d[3], d[4], e[0], e[1], e[2], e[3], e[4]);
    }
    FirstSeven(d, e);
  }

  lemma FirstSeven(d: Digest, e: Digest)
    ensures d[..7] == e[..7] <==>
      d[0] == e[0] && d[1] == e[1] && d[2] == e[2] && d[3] == e[3] && d[4] == e[4] && d[5] == e[5] && d[6] == e[6]
  {
    assert forall j :: 0 <= j < 7 ==> d[..7][j] == d[j] && e[..7][j] == e[j];
  }

  /** What is hashed begins with the domain and a NUL, so that no other use of the
      key is mistaken for it, and ends with the label, a NUL and the key. */
  lemma HashInputIsFramed(base: string, key: Key)
    requires ValidFriendlyName(base)
    ensures var b, n := HashInput(base, key), |NAME_DOMAIN|;
      && |b| == n + 1 + |base| + 1 + |key|
      && (forall i :: 0 <= i < n ==> b[i] as int == NAME_DOMAIN[i] as int) && b[n] == 0
      && (forall i :: 0 <= i < |base| ==> b[n + 1 + i] as int == base[i] as int) && b[n + 1 + |base|] == 0
      && b[n + |base| + 2..] == key
  {
    NamesAreAscii(base);
    DomainIsAscii();
  }

  // ---- What the digits of a name are worth ----

  const ALPHABET := "abcdefghijklmnopqrstuvwxyz234567"

  lemma DigitsAreTheAlphabet(i: quintet)
    ensures |ALPHABET| == 32 && Digit32(i) == ALPHABET[i]
  {}

  /** The place of a character in the alphabet. */
  function Value32(c: char): quintet
    requires Base32Char(c)
  {
    if c >= 'a' then c as int - 'a' as int else c as int - '2' as int + 26
  }

  /** The number that base 32 digits write, the first being the most significant. */
  function Worth32(digits: string): nat
    requires forall c :: c in digits ==> Base32Char(c)
  {
    if digits == "" then 0
    else
      var n := |digits| - 1;
      assert digits[n] in digits;
      32 * Worth32(digits[..n]) + Value32(digits[n])
  }

  /** The number that octets write. */
  function Number(b: seq<byte>): nat {
    if b == [] then 0 else 256 * Number(b[..|b| - 1]) + b[|b| - 1]
  }

  lemma Worth32Snoc(digits: string, i: quintet)
    requires forall c :: c in digits ==> Base32Char(c)
    ensures forall c :: c in digits + [Digit32(i)] ==> Base32Char(c)
    ensures Worth32(digits + [Digit32(i)]) == 32 * Worth32(digits) + i
  {
    assert (digits + [Digit32(i)])[..|digits|] == digits;
    assert Value32(Digit32(i)) == i;
  }

  lemma NumberSnoc(b: seq<byte>, x: byte)
    ensures Number(b + [x]) == 256 * Number(b) + x
  {
    assert (b + [x])[..|b|] == b;
  }

  /** What digits are worth behind others, digit by digit. */
  function Shifted(before: nat, digits: seq<quintet>): nat {
    if digits == [] then before
    else 32 * Shifted(before, digits[..|digits| - 1]) + digits[|digits| - 1]
  }

  function Chars(digits: seq<quintet>): string {
    seq(|digits|, i requires 0 <= i < |digits| => Digit32(digits[i]))
  }

  lemma {:induction false} WorthBehind(before: string, digits: seq<quintet>)
    requires forall c :: c in before ==> Base32Char(c)
    ensures forall c :: c in before + Chars(digits) ==> Base32Char(c)
    ensures Worth32(before + Chars(digits)) == Shifted(Worth32(before), digits)
  {
    if digits == [] {
      assert before + Chars(digits) == before;
    } else {
      var n := |digits| - 1;
      WorthBehind(before, digits[..n]);
      Worth32Snoc(before + Chars(digits[..n]), digits[n]);
      assert before + Chars(digits) == before + Chars(digits[..n]) + [Digit32(digits[n])];
    }
  }

  /** Eight digits are worth five octets. */
  lemma ShiftedGroup(before: nat, a: byte, b: byte, c: byte, d: byte, e: byte)
    ensures Shifted(before, Digits(a, b, c, d, e)) ==
      before * 0x100_0000_0000 + a * 0x1_0000_0000 + b * 0x100_0000 + c * 0x1_0000 + d * 0x100 + e
  {
    var x := Digits(a, b, c, d, e);
    assert x[..7][..6] == x[..6] && x[..6][..5] == x[..5] && x[..5][..4] == x[..4];
    assert x[..4][..3] == x[..3] && x[..3][..2] == x[..2] && x[..2][..1] == x[..1] && x[..1][..0] == [];
    ShiftedHalf(before, a, b, c, d, e);
    assert Shifted(before, x[..5]) == 32 * Shifted(before, x[..4]) + (c % 16 * 2 + d / 128);
    assert Shifted(before, x[..6]) == 32 * Shifted(before, x[..5]) + d / 4 % 32;
    assert Shifted(before, x[..7]) == 32 * Shifted(before, x[..6]) + (d % 4 * 8 + e / 32);
    assert x[..8] == x;
    Parts6(d);
  }

  /** Four digits are worth two octets and a half. */
  lemma ShiftedHalf(before: nat, a: byte, b: byte, c: byte, d: byte, e: byte)
    ensures Shifted(before, Digits(a, b, c, d, e)[..4]) ==
      before * 0x10_0000 + a * 0x1000 + b * 0x10 + c / 16
  {
    var x := Digits(a, b, c, d, e);
    assert x[..4][..3] == x[..3] && x[..3][..2] == x[..2] && x[..2][..1] == x[..1] && x[..1][..0] == [];
    assert Shifted(before, x[..1]) == 32 * before + a / 8;
    assert Shifted(before, x[..2]) == 32 * Shifted(before, x[..1]) + (a % 8 * 4 + b / 64);
    assert Shifted(before, x[..3]) == 32 * Shifted(before, x[..2]) + b / 2 % 32;
    Parts7(b);
  }

  /** The twelve digits of a name, read as a number, are the first sixty bits of
      the digest, read as a number. */
  lemma TwelveDigitsAreWorthSixtyBits(d: Digest)
    ensures |Encode32(d)| >= HASH_LEN && forall c :: c in Encode32(d)[..HASH_LEN] ==> Base32Char(c)
    ensures Worth32(Encode32(d)[..HASH_LEN]) == Number(d[..8]) / 16
  {
    TwelveDigits(d);
    Encode32Length(d);
    var x, y := Digits(d[0], d[1], d[2], d[3], d[4]), Digits(d[5], d[6], d[7], d[8], d[9]);
    GroupDigits(d[0], d[1], d[2], d[3], d[4]);
    GroupDigits(d[5], d[6], d[7], d[8], d[9]);
    assert Group(d[0], d[1], d[2], d[3], d[4]) == Chars(x);
    assert Group(d[5], d[6], d[7], d[8], d[9])[..4] == Chars(y[..4]);
    WorthBehind("", x);
    assert "" + Chars(x) == Chars(x);
    WorthBehind(Chars(x), y[..4]);
    ShiftedGroup(0, d[0], d[1], d[2], d[3], d[4]);
    ShiftedHalf(Worth32(Chars(x)), d[5], d[6], d[7], d[8], d[9]);
    EightOctets(d);
  }

  lemma EightOctets(d: Digest)
    ensures Number(d[..8]) ==
      Number(d[..5]) * 0x100_0000 + d[5] as int * 0x1_0000 + d[6] as int * 0x100 + d[7] as int
    ensures Number(d[..5]) ==
      d[0] as int * 0x1_0000_0000 + d[1] as int * 0x100_0000 + d[2] as int * 0x1_0000 + d[3] as int * 0x100
      + d[4] as int
  {
    assert d[..8] == d[..7] + [d[7]] && d[..7] == d[..6] + [d[6]] && d[..6] == d[..5] + [d[5]];
    assert d[..5] == d[..4] + [d[4]] && d[..4] == d[..3] + [d[3]] && d[..3] == d[..2] + [d[2]];
    assert d[..2] == d[..1] + [d[1]] && d[..1] == [] + [d[0]];
    NumberSnoc(d[..7], d[7]); NumberSnoc(d[..6], d[6]); NumberSnoc(d[..5], d[5]);
    NumberSnoc(d[..4], d[4]); NumberSnoc(d[..3], d[3]); NumberSnoc(d[..2], d[2]);
    NumberSnoc(d[..1], d[1]); NumberSnoc([], d[0]);
  }

  // ---- What a canonical name commits to ----

  /** Two derivations give one name exactly when the labels are equal and the
      digests share their first sixty bits. */
  lemma CanonicalNamesAgree(sha: Hash, b1: string, k1: Key, b2: string, k2: Key)
    requires ValidFriendlyName(b1) && ValidFriendlyName(b2)
    ensures CanonicalName(sha, b1, k1) == CanonicalName(sha, b2, k2)
      <==> b1 == b2 && FirstBitsAgree(sha(HashInput(b1, k1)), sha(HashInput(b2, k2)), 60)
  {
    var d, e := sha(HashInput(b1, k1)), sha(HashInput(b2, k2));
    Encode32Length(d); Encode32Length(e);
    var x, y := Encode32(d)[..HASH_LEN], Encode32(e)[..HASH_LEN];
    var n1, n2 := b1 + "." + x, b2 + "." + y;
    if n1 == n2 {
      assert |b1| == |b2|;
      assert n1[..|b1|] == b1 && n2[..|b2|] == b2;
      assert n1[|b1| + 1..] == x && n2[|b2| + 1..] == y;
    }
    TwelveDigitsAreSixtyBits(d, e);
  }

  /** Every derived name is a well-formed canonical name, and never a friendly
      one; its label is what stands before its only dot. */
  lemma DerivedNamesAreCanonical(sha: Hash, base: string, key: Key)
    requires ValidFriendlyName(base)
    ensures var name := CanonicalName(sha, base, key).value;
      && ValidCanonicalName(name) && IsCanonicalName(name) && !ValidFriendlyName(name)
      && Cut(name, '.').before == base && Cut(name, '.').found
  {
    var d := sha(HashInput(base, key));
    TwelveDigits(d);
    var h := Encode32(d)[..HASH_LEN];
    GroupDigits(d[0], d[1], d[2], d[3], d[4]);
    GroupDigits(d[5], d[6], d[7], d[8], d[9]);
    var name := base + "." + h;
    assert name[..|base|] == base && name[|name| - HASH_LEN..] == h;
    assert name[|base|] == '.';
    CutAt(base, '.', h);
    assert name == base + ['.'] + h;
  }

  /** A key verifies against a name exactly when the name is derived from it
      under some label. */
  lemma VerifiesWhenDerived(sha: Hash, name: string, key: Key)
    ensures VerifyCanonicalName(sha, name, key)
      <==> exists base :: ValidFriendlyName(base) && CanonicalName(sha, base, key) == Some(name)
  {
    if VerifyCanonicalName(sha, name, key) {
      assert ValidFriendlyName(Cut(name, '.').before);
    }
    if base :| ValidFriendlyName(base) && CanonicalName(sha, base, key) == Some(name) {
      DerivedNamesAreCanonical(sha, base, key);
    }
  }

  /** The two namespaces are disjoint. */
  lemma NamespacesAreDisjoint(name: string)
    ensures ValidCanonicalName(name) ==> IsCanonicalName(name)
    ensures ValidFriendlyName(name) ==> !IsCanonicalName(name)
  {}

  // ---- Fingerprints ----

  /** ssh.FingerprintSHA256. */
  function FingerprintSHA256(sha: Hash, key: Key): string {
    "SHA256:" + Base64.RawEncode(sha(key))
  }
}
