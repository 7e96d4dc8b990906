/** The SSH identification strings the agent and the proxy announce themselves
    with, and what each reads out of the other's. */
module Identification {
  import opened Prelude
  import opened GoText

  const AGENT_PREFIX := "SSH-2.0-multissh_agent_"
  const PROXY_PREFIX := "SSH-2.0-multissh_proxy_"

  const PROTOCOL_VERSION := 1
  const LEGACY_PROTOCOL := 0

  /** Go's int is 64 bits wide on every platform the agent is built for. */
  const MAX_INT := 0x7FFF_FFFF_FFFF_FFFF

  // ---- strconv ----

  predicate IsDecimal(c: char) { '0' <= c <= '9' }

  predicate AllDecimal(s: string) { forall c :: c in s ==> IsDecimal(c) }

  function DigitChar(d: nat): char
    requires d < 10
  {
    ('0' as int + d) as char
  }

  /** strconv.Itoa, of a number that is not negative. */
  function Itoa(n: nat): string {
    if n < 10 then [DigitChar(n)] else Itoa(n / 10) + [DigitChar(n % 10)]
  }

  function Decimal(s: string): nat
    requires AllDecimal(s)
  {
    if s == "" then 0
    else
      assert s[|s| - 1] in s;
      Decimal(s[..|s| - 1]) * 10 + (s[|s| - 1] as int - '0' as int)
  }

  /** strconv.Atoi: an optional sign, at least one digit, and a value that fits. */
  function Atoi(s: string): Option<int> {
    var signed := s != "" && (s[0] == '-' || s[0] == '+');
    var digits := if signed then s[1..] else s;
    if digits == "" || !AllDecimal(digits) then None
    else
      var value: int := Decimal(digits);
      var n := if signed && s[0] == '-' then -value else value;
      if -MAX_INT - 1 <= n <= MAX_INT then Some(n) else None
  }

  // ---- Announcing ----

  /** "<protocol>[_<build>[_<platform>]]". */
  function Fields(n: nat, build: string, platform: string): string {
    if build == "" then Itoa(n)
    else if platform == "" then Itoa(n) + "_" + build
    else Itoa(n) + "_" + build + "_" + platform
  }

  function Format(prefix: string, n: nat, build: string, platform: string): string {
    prefix + Fields(n, build, platform)
  }

  function AgentVersion(build: string, platform: string): string {
    Format(AGENT_PREFIX, PROTOCOL_VERSION, build, platform)
  }

  function ProxyVersion(): string {
    PROXY_PREFIX + Itoa(PROTOCOL_VERSION)
  }

  // ---- Reading ----

  /** ^[0-9a-f]{1,32}$ */
  predicate ValidBuild(s: string) {
    1 <= |s| <= 32 && forall c :: c in s ==> '0' <= c <= '9' || 'a' <= c <= 'f'
  }

  /** ^[a-z0-9]{1,32}$ */
  predicate ValidPlatform(s: string) {
    1 <= |s| <= 32 && forall c :: c in s ==> 'a' <= c <= 'z' || '0' <= c <= '9'
  }

  datatype Peer = Peer(proto: int, build: string, platform: string)

  const LEGACY := Peer(LEGACY_PROTOCOL, "", "")

  function ParseVersion(id: string, prefix: string): Peer {
    if !HasPrefix(id, prefix) then LEGACY
    else
      var version := Cut(id[|prefix|..], ' ').before;
      var fields := Cut(version, '_');
      var n := Atoi(fields.before);
      if n.None? || n.value < 0 then LEGACY
      else
        var build, platform := Cut(fields.after, '_').before, Cut(fields.after, '_').after;
        Peer(n.value, if ValidBuild(build) then build else "",
             if ValidPlatform(platform) then platform else "")
  }

  // ---- Numbers come back ----

  lemma {:induction false} ItoaDigits(n: nat)
    ensures Itoa(n) != "" && AllDecimal(Itoa(n)) && Decimal(Itoa(n)) == n
  {
    if n >= 10 {
      ItoaDigits(n / 10);
      var s := Itoa(n);
      assert s[..|s| - 1] == Itoa(n / 10);
    } else {
      assert Itoa(n)[..0] == "";
    }
  }

  lemma AtoiItoa(n: nat)
    requires n <= MAX_INT
    ensures Atoi(Itoa(n)) == Some(n)
  {
    ItoaDigits(n);
    assert Itoa(n)[0] in Itoa(n);
  }

  // ---- Reading inverts announcing ----

  predicate IsComment(s: string) { s == "" || s[0] == ' ' }

  lemma CutComment(version: string, comment: string)
    requires ' ' !in version && IsComment(comment)
    ensures Cut(version + comment, ' ').before == version
  {
    if comment == "" {
      assert version + comment == version;
      CutAbsent(version, ' ');
    } else {
      assert version + comment == version + [' '] + comment[1..];
      CutAt(version, ' ', comment[1..]);
    }
  }

  /** The fields after the prefix, cut apart again. */
  lemma CutFields(num: string, build: string, platform: string, version: string)
    requires '_' !in num && '_' !in build && '_' !in platform
    requires build == "" ==> platform == ""
    requires version == if build == "" then num
                        else if platform == "" then num + "_" + build
                        else num + "_" + build + "_" + platform
    ensures var fields := Cut(version, '_');
      && fields.before == num
      && Cut(fields.after, '_').before == build && Cut(fields.after, '_').after == platform
  {
    if build == "" {
      CutAbsent(num, '_');
    } else if platform == "" {
      CutAt(num, '_', build);
      assert version == num + ['_'] + build;
      CutAbsent(build, '_');
    } else {
      CutAt(num, '_', build + ['_'] + platform);
      CutAt(build, '_', platform);
      Reassociated(num, build, platform);
    }
  }

  lemma Reassociated(num: string, build: string, platform: string)
    ensures num + "_" + build + "_" + platform == num + ['_'] + (build + ['_'] + platform)
  {}

  /** Whatever announced itself in the format is read back field by field, with
      or without a comment behind it; with no build there is no platform. */
  lemma ParseInvertsFormat(prefix: string, n: nat, build: string, platform: string, comment: string)
    requires n <= MAX_INT && IsComment(comment)
    requires build == "" || ValidBuild(build)
    requires platform == "" || ValidPlatform(platform)
    ensures ParseVersion(Format(prefix, n, build, platform) + comment, prefix)
         == Peer(n, build, if build == "" then "" else platform)
  {
    var version := Fields(n, build, platform);
    FieldsReadBack(n, build, platform);
    assert Format(prefix, n, build, platform) + comment == prefix + (version + comment);
    AfterPrefix(prefix, version + comment);
    CutComment(version, comment);
  }

  lemma AfterPrefix(prefix: string, rest: string)
    ensures HasPrefix(prefix + rest, prefix) && (prefix + rest)[|prefix|..] == rest
  {}

  lemma FieldsReadBack(n: nat, build: string, platform: string)
    requires n <= MAX_INT
    requires build == "" || ValidBuild(build)
    requires platform == "" || ValidPlatform(platform)
    ensures ' ' !in Fields(n, build, platform)
    ensures var fields := Cut(Fields(n, build, platform), '_');
      && Atoi(fields.before) == Some(n)
      && Cut(fields.after, '_').before == build
      && Cut(fields.after, '_').after == if build == "" then "" else platform
  {
    ItoaDigits(n);
    AtoiItoa(n);
    assert !IsDecimal('_') && !IsDecimal(' ');
    CutFields(Itoa(n), build, if build == "" then "" else platform, Fields(n, build, platform));
  }

  /** The proxy learns exactly what an agent built from a real binary sends. */
  lemma AgentIsReadBack(build: string, platform: string, comment: string)
    requires IsComment(comment)
    requires build == "" || ValidBuild(build)
    requires platform == "" || ValidPlatform(platform)
    ensures ParseVersion(AgentVersion(build, platform) + comment, AGENT_PREFIX)
         == Peer(PROTOCOL_VERSION, build, if build == "" then "" else platform)
  {
    ParseInvertsFormat(AGENT_PREFIX, PROTOCOL_VERSION, build, platform, comment);
  }

  lemma ProxyIsReadBack(comment: string)
    requires IsComment(comment)
    ensures ParseVersion(ProxyVersion() + comment, PROXY_PREFIX) == Peer(PROTOCOL_VERSION, "", "")
  {
    assert ProxyVersion() == Format(PROXY_PREFIX, PROTOCOL_VERSION, "", "");
    ParseInvertsFormat(PROXY_PREFIX, PROTOCOL_VERSION, "", "", comment);
  }

  /** Any text in the fields, behind any number: the number counts, and a field
      that is not of the expected shape is dropped by itself. */
  lemma MalformedFieldsAreDropped(prefix: string, num: string, build: string, platform: string, comment: string)
    requires '_' !in num && ' ' !in num && '_' !in build && ' ' !in build && ' ' !in platform && IsComment(comment)
    ensures ParseVersion(prefix + (num + "_" + build + "_" + platform + comment), prefix) ==
      if Atoi(num).None? || Atoi(num).value < 0 then LEGACY
      else Peer(Atoi(num).value, if ValidBuild(build) then build else "",
                if ValidPlatform(platform) then platform else "")
  {
    var version := num + "_" + build + "_" + platform;
    AfterPrefix(prefix, version + comment);
    CutComment(version, comment);
    Reassociated(num, build, platform);
    CutAt(num, '_', build + ['_'] + platform);
    CutAt(build, '_', platform);
  }

  /** Which texts are numbers: an optional sign and digits, within range. */
  lemma AtoiMeans(digits: string)
    requires digits != "" && AllDecimal(digits)
    ensures Atoi(digits) == Atoi("+" + digits) == if Decimal(digits) <= MAX_INT then Some(Decimal(digits)) else None
    ensures Atoi("-" + digits) == if Decimal(digits) <= MAX_INT + 1 then Some(-(Decimal(digits) as int)) else None
  {
    assert ("+" + digits)[1..] == digits && ("-" + digits)[1..] == digits;
    assert IsDecimal(digits[0]);
  }

  /** Neither end can be taken for the other. */
  lemma PrefixesDoNotMix(rest: string)
    ensures ParseVersion(AGENT_PREFIX + rest, PROXY_PREFIX) == LEGACY
    ensures ParseVersion(PROXY_PREFIX + rest, AGENT_PREFIX) == LEGACY
  {
    assert AGENT_PREFIX[17] != PROXY_PREFIX[17];
    DifferAt(AGENT_PREFIX, rest, PROXY_PREFIX, 17);
    DifferAt(PROXY_PREFIX, rest, AGENT_PREFIX, 17);
  }

  lemma DifferAt(a: string, rest: string, prefix: string, i: nat)
    requires i < |a| && i < |prefix| && a[i] != prefix[i]
    ensures !HasPrefix(a + rest, prefix)
  {
    assert (a + rest)[i] == a[i];
  }

  /** Whatever a peer sends, what is kept of it is a number that fits an int
      and fields of the expected shape: nothing else can reach a terminal. */
  lemma ReadingIsAlwaysClean(id: string, prefix: string)
    ensures var r := ParseVersion(id, prefix);
      && 0 <= r.proto <= MAX_INT
      && (r.build == "" || ValidBuild(r.build))
      && (r.platform == "" || ValidPlatform(r.platform))
      && (!HasPrefix(id, prefix) ==> r == LEGACY)
  {}

  // ---- Section 4.2 of RFC 4253 ----

  predicate SoftwareVersionChar(c: char) {
    0x21 <= c as int <= 0x7E && c != '-'
  }

  /** "SSH-2.0-softwareversion", short enough with its CR and LF. */
  predicate LegalIdentification(v: string) {
    && "SSH-2.0-" <= v && |v| > 8 && |v| + 2 <= 255
    && forall i :: 8 <= i < |v| ==> SoftwareVersionChar(v[i])
  }

  lemma AnnouncementsAreLegal(build: string, platform: string)
    requires build == "" || ValidBuild(build)
    requires platform == "" || ValidPlatform(platform)
    ensures LegalIdentification(AgentVersion(build, platform))
    ensures LegalIdentification(ProxyVersion())
  {
    AgentIsLegal(build, platform);
    ProxyIsLegal();
  }

  lemma AgentIsLegal(build: string, platform: string)
    requires build == "" || ValidBuild(build)
    requires platform == "" || ValidPlatform(platform)
    ensures LegalIdentification(AgentVersion(build, platform))
  {
    LegalFields(build, platform);
    ProgramNamesAreLegal();
    LegalBehind("multissh_agent_", Fields(PROTOCOL_VERSION, build, platform));
    AgentVersionParts(Fields(PROTOCOL_VERSION, build, platform));
  }

  lemma AgentVersionParts(fields: string)
    ensures AGENT_PREFIX + fields == "SSH-2.0-" + ("multissh_agent_" + fields)
  {
    assert AGENT_PREFIX == "SSH-2.0-" + "multissh_agent_";
  }

  lemma ProxyIsLegal()
    ensures LegalIdentification(ProxyVersion())
  {
    LegalFields("", "");
    ProgramNamesAreLegal();
    var fields := Fields(PROTOCOL_VERSION, "", "");
    LegalBehind("multissh_proxy_", fields);
    assert ProxyVersion() == "SSH-2.0-" + ("multissh_proxy_" + fields);
  }

  predicate AllLegal(s: string) { forall c :: c in s ==> SoftwareVersionChar(c) }

  lemma ProgramNamesAreLegal()
    ensures AllLegal("multissh_agent_") && AllLegal("multissh_proxy_")
  {}

  lemma LegalFields(build: string, platform: string)
    requires build == "" || ValidBuild(build)
    requires platform == "" || ValidPlatform(platform)
    ensures var f := Fields(PROTOCOL_VERSION, build, platform); AllLegal(f) && 1 <= |f| <= 67
    ensures var f := Fields(PROTOCOL_VERSION, "", ""); AllLegal(f) && |f| == 1
  {
    ItoaDigits(PROTOCOL_VERSION);
    assert forall c :: IsDecimal(c) ==> SoftwareVersionChar(c);
  }

  lemma LegalBehind(name: string, fields: string)
    requires AllLegal(name) && AllLegal(fields) && |name| == 15 && 1 <= |fields| <= 67
    ensures LegalIdentification("SSH-2.0-" + (name + fields))
  {
    var body := name + fields;
    var v := "SSH-2.0-" + body;
    assert |"SSH-2.0-"| == 8;
    forall i | 8 <= i < |v| ensures SoftwareVersionChar(v[i]) {
      assert v[i] == body[i - 8] && body[i - 8] in body;
    }
  }
}
