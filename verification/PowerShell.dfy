/** encodeForPowerShell: UTF-16, little-endian, in base 64, and the decoding
    that -EncodedCommand performs on the other side. A command is a sequence of
    Unicode scalar values, which is what []rune leaves of any Go string. */
module PowerShell {
  import opened Prelude
  import Base64

  type unit = u: int | 0 <= u < 0x10000

  /** One character in UTF-16, section 2.1 of RFC 2781. */
  function Units(c: char): seq<unit> {
    var u := c as int;
    if u < 0x10000 then [u]
    else
      var v := u - 0x10000;
      [0xD800 + v / 0x400, 0xDC00 + v % 0x400]
  }

  /** utf16.Encode. */
  function Utf16(s: string): seq<unit> {
    if s == "" then [] else Units(s[0]) + Utf16(s[1..])
  }

  /** Decoding, section 2.2 of RFC 2781: a high surrogate must be followed by a
      low one, and a low one must not come first. */
  function FromUtf16(units: seq<unit>): Option<string> {
    if units == [] then Some("")
    else
      var u := units[0];
      if u < 0xD800 || u >= 0xE000 then
        var rest := FromUtf16(units[1..]);
        if rest.None? then None else Some([u as char] + rest.value)
      else if u < 0xDC00 && |units| > 1 && 0xDC00 <= units[1] < 0xE000 then
        var rest := FromUtf16(units[2..]);
        var c := 0x10000 + (u as int - 0xD800) * 0x400 + (units[1] as int - 0xDC00);
        if rest.None? then None else Some([c as char] + rest.value)
      else None
  }

  function LittleEndian(units: seq<unit>): seq<byte> {
    if units == [] then [] else [units[0] % 256, units[0] / 256] + LittleEndian(units[1..])
  }

  function FromLittleEndian(b: seq<byte>): Option<seq<unit>> {
    if b == [] then Some([])
    else if |b| == 1 then None
    else
      var rest := FromLittleEndian(b[2..]);
      if rest.None? then None else Some([b[0] as int + 256 * (b[1] as int)] + rest.value)
  }

  /** What the receiving shell makes of the argument. */
  function Received(argument: string): Option<string> {
    var bytes := Base64.Decode(argument);
    if bytes.None? then None
    else
      var units := FromLittleEndian(bytes.value);
      if units.None? then None else FromUtf16(units.value)
  }

  method EncodeForPowerShell(command: string) returns (argument: string)
    ensures argument == Base64.Encode(LittleEndian(Utf16(command)))
    ensures Received(argument) == Some(command)
  {
    var units := Utf16(command);
    var buf := new byte[|units| * 2](_ => 0);
    for i := 0 to |units|
      invariant buf[..2 * i] == LittleEndian(units[..i])
    {
      buf[i * 2] := units[i] % 256;
      buf[i * 2 + 1] := units[i] / 256;
      LittleEndianSnoc(units[..i], units[i]);
      assert units[..i + 1] == units[..i] + [units[i]];
      assert buf[..2 * (i + 1)] == buf[..2 * i] + [units[i] % 256, units[i] / 256];
    }
    assert units[..|units|] == units && buf[..] == buf[..2 * |units|];
    argument := Base64.Encode(buf[..]);
    ArgumentDecodes(command);
  }

  lemma {:induction false} LittleEndianSnoc(units: seq<unit>, u: unit)
    ensures LittleEndian(units + [u]) == LittleEndian(units) + [u % 256, u / 256]
  {
    if units != [] {
      LittleEndianSnoc(units[1..], u);
      assert (units + [u])[1..] == units[1..] + [u];
    }
  }

  lemma {:induction false} FromLittleEndianOf(units: seq<unit>)
    ensures FromLittleEndian(LittleEndian(units)) == Some(units)
  {
    if units != [] {
      FromLittleEndianOf(units[1..]);
      assert LittleEndian(units)[2..] == LittleEndian(units[1..]);
      assert units == [units[0]] + units[1..];
    }
  }

  /** UTF-16 is undone, surrogate pairs included. */
  lemma {:induction false} FromUtf16Of(s: string)
    ensures FromUtf16(Utf16(s)) == Some(s)
  {
    if s != "" {
      FromUtf16Of(s[1..]);
      var u := s[0] as int;
      var units := Utf16(s);
      assert units[|Units(s[0])|..] == Utf16(s[1..]);
      assert s == [s[0]] + s[1..];
    }
  }

  /** The shell at the other end receives the command that was asked for. */
  lemma ArgumentDecodes(command: string)
    ensures Received(Base64.Encode(LittleEndian(Utf16(command)))) == Some(command)
  {
    Base64.DecodeEncode(LittleEndian(Utf16(command)));
    FromLittleEndianOf(Utf16(command));
    FromUtf16Of(command);
  }

  /** The argument needs no quoting: it is alphabet characters in whole groups
      of four, with at most two closing pads. */
  lemma ArgumentNeedsNoQuoting(command: string)
    ensures Base64.PaddedText(Base64.Encode(LittleEndian(Utf16(command))))
  {
    Base64.EncodeShape(LittleEndian(Utf16(command)));
  }

  // ---- The encoding, unit by unit and octet by octet ----

  /** Section 2.1 of RFC 2781: a character of the first plane stands for itself;
      any other is a high and a low surrogate that carry ten bits each of what
      it exceeds the plane by. */
  lemma UnitsOfOneCharacter(c: char)
    ensures var u, units := c as int, Units(c);
      if u < 0x10000 then units == [u]
      else
        && |units| == 2 && 0xD800 <= units[0] < 0xDC00 && 0xDC00 <= units[1] < 0xE000
        && u - 0x10000 == (units[0] as int - 0xD800) * 1024 + (units[1] as int - 0xDC00)
  {}

  /** The low octet of each unit comes first. */
  lemma {:induction false} OctetsOfUnits(units: seq<unit>, i: nat)
    requires i < |units|
    ensures |LittleEndian(units)| == 2 * |units|
    ensures var b := LittleEndian(units); b[2 * i] as int + 256 * (b[2 * i + 1] as int) == units[i]
  {
    if i > 0 {
      OctetsOfUnits(units[1..], i - 1);
    } else if |units| > 1 {
      OctetsOfUnits(units[1..], 0);
    }
  }
}
