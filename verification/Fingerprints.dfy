/** Where the three modules meet: the fingerprints the proxy computes are ones
    -revoke accepts, and both files can hold them. */
module Fingerprints {
  import opened GoText
  import opened Naming
  import Base64
  import KeyedLines
  import RevocationFile
  import Ledger

  lemma DigitsAreText(c: char)
    requires Base64.IsDigit(c)
    ensures !IsSpace(c) && c != '\n' && c != ' ' && Utf8Size(c) == 1
  {}

  lemma {:induction false} DigitsByteLen(s: string)
    requires forall c :: c in s ==> Base64.IsDigit(c)
    ensures ByteLen(s) == |s|
  {
    if s != "" {
      assert s[0] in s;
      DigitsAreText(s[0]);
      DigitsByteLen(s[1..]);
    }
  }

  lemma FingerprintText(sha: Hash, key: Key)
    ensures var fp := FingerprintSHA256(sha, key);
      && RevocationFile.ValidFingerprint(fp) && ' ' !in fp && '\n' !in fp
      && !IsSpace(fp[|fp| - 1]) && ByteLen(fp) == 50 && Trimmed(fp)
  {
    var body := Base64.RawEncode(sha(key));
    Base64.RawEncodeShape(sha(key));
    DigitsByteLen(body);
    var fp := FingerprintSHA256(sha, key);
    assert fp[|RevocationFile.PREFIX|..] == body;
    RevocationFile.ValidFingerprintStart(fp);
    forall c | c in body ensures !IsSpace(c) && c != '\n' && c != ' ' { DigitsAreText(c); }
    assert fp[|fp| - 1] == body[42] && body[42] in body;
  }

  /** Revoking a fingerprint the proxy shows, with a trimmed one-line note that
      fits, is always recorded. */
  lemma ComputedFingerprintIsRecordable(sha: Hash, key: Key, note: string)
    ensures RevocationFile.Recordable(FingerprintSHA256(sha, key), note)
      <==> '\n' !in note && Trimmed(note) && ByteLen(note) < MAX_SCAN_TOKEN - 51
  {
    var fp := FingerprintSHA256(sha, key);
    FingerprintText(sha, key);
    ByteLenConcat(fp + " ", note);
    ByteLenConcat(fp, " ");
    assert ByteLen(" ") == 1;
    assert KeyedLines.EntryLine(fp, note) == fp + " " + note;
  }

  /** Every claim a registering agent can make is one the ledger file keeps. */
  lemma EveryClaimIsRecordable(sha: Hash, key: Key, name: string)
    requires ValidFriendlyName(name)
    ensures Ledger.Recordable(name, FingerprintSHA256(sha, key))
  {
    var fp := FingerprintSHA256(sha, key);
    FingerprintText(sha, key);
    KeyedLines.ByteLenAtMost(name);
    ByteLenConcat(name + " ", fp);
    ByteLenConcat(name, " ");
    assert ByteLen(" ") == 1;
    assert KeyedLines.EntryLine(name, fp) == name + " " + fp;
    assert LowerAlnum(name[0]) && !IsSpace(name[0]);
  }

  /** Two keys have one fingerprint if and only if they have one digest. */
  lemma FingerprintsAgree(sha: Hash, k: Key, k': Key)
    ensures FingerprintSHA256(sha, k) == FingerprintSHA256(sha, k') <==> sha(k) == sha(k')
  {
    var fp, fp' := FingerprintSHA256(sha, k), FingerprintSHA256(sha, k');
    assert fp[7..] == Base64.RawEncode(sha(k)) && fp'[7..] == Base64.RawEncode(sha(k'));
    if fp == fp' { Base64.RawEncodeInjective(sha(k), sha(k')); }
  }
}
