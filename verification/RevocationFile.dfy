/** The revocation file: how it is read, how it is written, and exactly which
    sets survive being written and read back. */
module RevocationFile {
  import opened Prelude
  import opened GoText
  import opened SortedNames
  import opened KeyedLines

  datatype Error = Malformed | LineTooLong | NotRevoked

  type RevokedSet = map<string, string>

  const PREFIX := "SHA256:"

  /** validFingerprint: the shape of what OpenSSH prints. The length is in bytes. */
  predicate ValidFingerprint(fp: string) {
    HasPrefix(fp, PREFIX) && ByteLen(fp[|PREFIX|..]) == 43
  }

  datatype Line = Blank | Entry(fp: string, note: string) | Bad

  /** One cleaned line, as the reader's loop body sees it. */
  function ReadLine(line: string): Line {
    if line == "" || HasPrefix(line, "#") then Blank
    else
      var r := Cut(line, ' ');
      if ValidFingerprint(r.before) then Entry(r.before, TrimSpace(r.after)) else Bad
  }

  function ReadFrom(lines: seq<string>, m: RevokedSet): Result<RevokedSet, Error> {
    if lines == [] then Ok(m)
    else if ByteLen(lines[0]) >= MAX_SCAN_TOKEN then Err(LineTooLong)
    else match ReadLine(CleanLine(lines[0])) {
      case Blank => ReadFrom(lines[1..], m)
      case Entry(fp, note) => ReadFrom(lines[1..], m[fp := note])
      case Bad => Err(Malformed)
    }
  }

  /** What the file on the path means; a missing file bars nobody. */
  function Parse(file: Option<string>): Result<RevokedSet, Error> {
    match file
    case None => Ok(map[])
    case Some(content) => ReadFrom(RawLines(content), map[])
  }

  /** readRevocations. */
  method ReadRevocations(file: Option<string>) returns (r: Result<RevokedSet, Error>)
    ensures r == Parse(file)
  {
    var m: RevokedSet := map[];
    if file.None? { return Ok(m); }
    var lines := RawLines(file.value);
    var i := 0;
    while i < |lines|
      invariant 0 <= i <= |lines|
      invariant Parse(file) == ReadFrom(lines[i..], m)
    {
      if ByteLen(lines[i]) >= MAX_SCAN_TOKEN { return Err(LineTooLong); }
      assert lines[i..][1..] == lines[i + 1..];
      var line := CleanLine(lines[i]);
      if !(line == "" || HasPrefix(line, "#")) {
        var cut := Cut(line, ' ');
        if !ValidFingerprint(cut.before) { return Err(Malformed); }
        m := m[cut.before := TrimSpace(cut.after)];
      }
      i := i + 1;
    }
    return Ok(m);
  }

  /** writeRevocations, up to the bytes it hands to the atomic file writer. */
  method WriteRevocations(header: Header, m: RevokedSet) returns (content: string)
    ensures content == Render(header, m)
  {
    content := BuildTable(header, m);
  }

  /** Entries that survive the file: nothing in them can be taken for the
      separator, the line end or surrounding white space, and the line fits the
      scanner. */
  predicate Recordable(fp: string, note: string) {
    && ValidFingerprint(fp)
    && ' ' !in fp && OneLine(fp, note) && Trimmed(note)
    && (note == "" ==> !IsSpace(fp[|fp| - 1]))
    && ByteLen(EntryLine(fp, note)) < MAX_SCAN_TOKEN
  }

  predicate AllRecordable(m: RevokedSet) {
    forall fp :: fp in m ==> Recordable(fp, m[fp])
  }

  lemma ValidFingerprintStart(fp: string)
    requires ValidFingerprint(fp)
    ensures fp != "" && fp[0] == 'S' && ByteLen(fp) == 50
  {
    assert fp == PREFIX + fp[|PREFIX|..];
    ByteLenConcat(PREFIX, fp[|PREFIX|..]);
    assert ByteLen("SHA256:") == 7 by {
      assert ByteLen("256:") == 4;
    }
  }

  /** A recordable entry's line reads back as that entry. */
  lemma RecordableReadsBack(fp: string, note: string)
    requires Recordable(fp, note)
    ensures ReadLine(CleanLine(EntryLine(fp, note))) == Entry(fp, note)
  {
    ValidFingerprintStart(fp);
    var raw := EntryLine(fp, note);
    assert !IsSpace('S') && IsSpace(' ');
    if note == "" {
      assert raw == fp + [' '];
      TrimTrailingSpace(fp, ' ');
      assert TrimRight(fp) == fp;
      assert DropCR(raw) == raw;
      CutAbsent(fp, ' ');
      assert fp[0] != '#';
    } else {
      assert raw[0] == 'S' && raw[|raw| - 1] == note[|note| - 1];
      CleanLineOfTrimmed(raw);
      assert raw == fp + [' '] + note;
      CutAt(fp, ' ', note);
      TrimSpaceOfTrimmed(note);
      assert raw[0] != '#';
    }
  }

  /** Whatever a line says, the entry read from it is recordable. */
  lemma ReadLineYieldsRecordable(raw: string)
    requires '\n' !in raw && ByteLen(raw) < MAX_SCAN_TOKEN
    ensures var l := ReadLine(CleanLine(raw)); l.Entry? ==> Recordable(l.fp, l.note)
  {
    var line := CleanLine(raw);
    var l := ReadLine(line);
    if l.Entry? {
      CleanLineFacts(raw);
      CutParts(line, ' ');
      if Cut(line, ' ').found { NotedLine(line, l.fp, Cut(line, ' ').after); }
      else { BareLine(l.fp); }
    }
  }

  lemma NotedLine(line: string, fp: string, after: string)
    requires Trimmed(line) && '\n' !in line && ByteLen(line) < MAX_SCAN_TOKEN
    requires line == fp + [' '] + after && ValidFingerprint(fp) && ' ' !in fp
    ensures Recordable(fp, TrimSpace(after))
  {
    NoteIsText(after);
    ValueFits(line, fp, after);
    AfterSpaceIsText(line, fp, after);
  }

  lemma BareLine(fp: string)
    requires Trimmed(fp) && '\n' !in fp && ValidFingerprint(fp) && ' ' !in fp
    ensures Recordable(fp, TrimSpace(""))
  {
    ValidFingerprintStart(fp);
    BareFits(fp);
  }

  lemma NoteIsText(after: string)
    ensures Trimmed(TrimSpace(after)) && forall c :: c in TrimSpace(after) ==> c in after
  {
    var i, j := TrimSpacePart(after);
  }

  lemma BareFits(fp: string)
    requires ValidFingerprint(fp)
    ensures ByteLen(EntryLine(fp, "")) == 51
  {
    ValidFingerprintStart(fp);
    ByteLenConcat(fp, " ");
    assert EntryLine(fp, "") == fp + " ";
    assert ByteLen(" ") == 1;
  }

  /** Everything a file can be read as is recordable: reading is onto the
      recordable sets. */
  lemma {:induction false} ReadYieldsRecordable(lines: seq<string>, m: RevokedSet)
    requires AllRecordable(m) && (forall l :: l in lines ==> '\n' !in l)
    requires ReadFrom(lines, m).Ok?
    ensures AllRecordable(ReadFrom(lines, m).value)
  {
    if lines != [] {
      ReadLineYieldsRecordable(lines[0]);
      match ReadLine(CleanLine(lines[0])) {
        case Blank => ReadYieldsRecordable(lines[1..], m);
        case Entry(fp, note) => ReadYieldsRecordable(lines[1..], m[fp := note]);
        case Bad =>
      }
    }
  }

  lemma ParseYieldsRecordable(file: Option<string>)
    requires Parse(file).Ok?
    ensures AllRecordable(Parse(file).value)
  {
    if file.Some? {
      RawLinesHaveNoNewline(file.value);
      ReadYieldsRecordable(RawLines(file.value), map[]);
    }
  }

  /** Reading the lines of a body adds exactly its entries. */
  lemma {:induction false} ReadBody(keys: seq<string>, m: RevokedSet, acc: RevokedSet)
    requires forall k :: k in keys ==> k in m && Recordable(k, m[k])
    ensures ReadFrom(BodyLines(keys, m), acc) == Ok(AddAll(keys, m, acc))
  {
    if keys != [] {
      var k := keys[0];
      RecordableReadsBack(k, m[k]);
      ReadBody(keys[1..], m, acc[k := m[k]]);
      assert BodyLines(keys, m)[1..] == BodyLines(keys[1..], m);
    }
  }

  lemma SkipComment(line: string, rest: seq<string>, m: RevokedSet)
    requires CommentLine(line)
    ensures ReadFrom([line] + rest, m) == ReadFrom(rest, m)
  {
    CommentLineCleaned(line);
    assert ReadLine(line) == Blank;
    assert ([line] + rest)[1..] == rest;
  }

  /** The comment header changes nothing. */
  lemma {:induction false} SkipComments(comments: Header, rest: seq<string>, m: RevokedSet)
    ensures ReadFrom(comments + rest, m) == ReadFrom(rest, m)
  {
    if comments == [] {
      assert comments + rest == rest;
    } else {
      SkipComments(comments[1..], rest, m);
      SkipComment(comments[0], comments[1..] + rest, m);
      assert comments + rest == [comments[0]] + (comments[1..] + rest);
    }
  }

  /** A set's rendering reads back as the set, when its entries are recordable. */
  lemma RecordableRoundTrip(header: Header, m: RevokedSet)
    requires AllRecordable(m)
    ensures Parse(Some(Render(header, m))) == Ok(m)
  {
    var keys := InOrder(m.Keys);
    assert forall k :: k in keys <==> k in Elements(keys);
    CommentsAreTheirLines(header);
    RawLinesConcat(Comments(header), Body(keys, m));
    BodyIsItsLines(keys, m);
    SkipComments(header, BodyLines(keys, m), map[]);
    ReadBody(keys, m, map[]);
    AddAllIsAll(m);
  }

  /** Writing a set and reading it back gives the set exactly when every entry
      is recordable. */
  lemma WriteThenRead(header: Header, m: RevokedSet)
    ensures Parse(Some(Render(header, m))) == Ok(m) <==> AllRecordable(m)
  {
    if AllRecordable(m) {
      RecordableRoundTrip(header, m);
    }
    if Parse(Some(Render(header, m))) == Ok(m) {
      ParseYieldsRecordable(Some(Render(header, m)));
    }
  }

  // ---- The command line ----

  datatype Command = List | Unrevoke(fp: string) | Revoke(fp: string, note: string)

  function NoteOr(note: string, today: string): string {
    if note == "" then today + " revoked" else note
  }

  /** What -revoke and -unrevoke do to the set the file holds; None is a run
      that leaves the file alone. */
  function Managed(m: RevokedSet, command: Command, today: string): Result<Option<RevokedSet>, Error> {
    match command
    case List => Ok(None)
    case Unrevoke(fp) => if fp in m then Ok(Some(m - {fp})) else Err(NotRevoked)
    case Revoke(fp, note) =>
      if !ValidFingerprint(fp) then Err(Malformed)
      else if fp in m then Ok(None)
      else Ok(Some(m[fp := NoteOr(note, today)]))
  }

  /** The set a command that writes must leave, in terms of the set it found: one
      fingerprint is gone, or one is there with its note, and every other keeps
      its presence and its note. */
  ghost predicate Intended(m: RevokedSet, command: Command, today: string, m': RevokedSet) {
    match command
    case List => false
    case Unrevoke(fp) =>
      fp in m && fp !in m' && forall k :: k != fp ==> SameFor(m, m', k)
    case Revoke(fp, note) =>
      && ValidFingerprint(fp) && fp !in m && fp in m'
      && (if note != "" then m'[fp] == note else m'[fp] == today + " revoked")
      && forall k :: k != fp ==> SameFor(m, m', k)
  }

  predicate SameFor(m: RevokedSet, m': RevokedSet, k: string) {
    if k in m then k in m' && m'[k] == m[k] else k !in m'
  }

  /** Commands that succeed without writing. */
  predicate LeavesAlone(m: RevokedSet, command: Command) {
    command.List? || (command.Revoke? && ValidFingerprint(command.fp) && command.fp in m)
  }

  /** Commands that fail. */
  predicate Fails(m: RevokedSet, command: Command) {
    (command.Unrevoke? && command.fp !in m) || (command.Revoke? && !ValidFingerprint(command.fp))
  }

  lemma ManagedIsIntended(m: RevokedSet, command: Command, today: string)
    ensures forall m' :: Managed(m, command, today) == Ok(Some(m')) <==> Intended(m, command, today, m')
    ensures Managed(m, command, today) == Ok(None) <==> LeavesAlone(m, command)
    ensures Managed(m, command, today).Err? <==> Fails(m, command)
  {
    forall m' | Intended(m, command, today, m') ensures Managed(m, command, today) == Ok(Some(m')) {
      var want := if command.Unrevoke? then m - {command.fp} else m[command.fp := NoteOr(command.note, today)];
      forall k ensures SameFor(want, m', k) {
        if k != command.fp { assert SameFor(m, m', k); }
      }
      SameForAll(want, m');
    }
    forall m' | Managed(m, command, today) == Ok(Some(m')) ensures Intended(m, command, today, m') {
      assert forall k :: k != command.fp ==> SameFor(m, m', k);
    }
  }

  lemma SameForAll(a: RevokedSet, b: RevokedSet)
    requires forall k :: SameFor(a, b, k)
    ensures a == b
  {
    assert forall k :: k in a ==> k in b && b[k] == a[k] by {
      forall k | k in a ensures k in b && b[k] == a[k] { assert SameFor(a, b, k); }
    }
    assert forall k :: k in b ==> k in a by {
      forall k | k in b ensures k in a { assert SameFor(a, b, k); }
    }
  }

  /** manageRevocations: the text to write, if any. */
  method ManageRevocations(header: Header, file: Option<string>, command: Command, today: string)
    returns (r: Result<Option<string>, Error>)
    ensures match Parse(file)
      case Err(e) => r == Err(e)
      case Ok(m) =>
        match Managed(m, command, today)
        case Err(e) => r == Err(e)
        case Ok(None) => r == Ok(None)
        case Ok(Some(m')) => r == Ok(Some(Render(header, m')))
    ensures Parse(file).Ok? && Fails(Parse(file).value, command) ==> r.Err?
    ensures Parse(file).Ok? && LeavesAlone(Parse(file).value, command) ==> r == Ok(None)
    ensures forall m' | Parse(file).Ok? && Intended(Parse(file).value, command, today, m')
              :: r == Ok(Some(Render(header, m')))
  {
    if Parse(file).Ok? { ManagedIsIntended(Parse(file).value, command, today); }
    var read := ReadRevocations(file);
    if read.Err? { return Err(read.error); }
    var m := read.value;
    match command
    case List => return Ok(None);
    case Unrevoke(fp) =>
      if fp !in m { return Err(NotRevoked); }
      var content := WriteRevocations(header, m - {fp});
      return Ok(Some(content));
    case Revoke(fp, note) =>
      if !ValidFingerprint(fp) { return Err(Malformed); }
      if fp in m { return Ok(None); }
      var content := WriteRevocations(header, m[fp := NoteOr(note, today)]);
      return Ok(Some(content));
  }

  /** After a command that writes, the file reads back as the set intended --
      always after an un-revoke, and after a revoke exactly when the entry it
      adds is recordable. */
  lemma CommandTakesEffect(header: Header, file: Option<string>, m: RevokedSet, command: Command, today: string,
                           m': RevokedSet)
    requires Parse(file) == Ok(m)
    requires Intended(m, command, today, m')
    ensures (Parse(Some(Render(header, m'))) == Ok(m'))
         == (command.Revoke? ==> Recordable(command.fp, m'[command.fp]))
  {
    ManagedIsIntended(m, command, today);
    ParseYieldsRecordable(file);
    WriteThenRead(header, m');
    OnlyTheNewEntryCounts(m, command, today, m');
  }

  lemma OnlyTheNewEntryCounts(m: RevokedSet, command: Command, today: string, m': RevokedSet)
    requires AllRecordable(m) && Managed(m, command, today) == Ok(Some(m'))
    ensures AllRecordable(m') == (command.Revoke? ==> Recordable(command.fp, NoteOr(command.note, today)))
  {
    if command.Revoke? {
      assert forall fp :: fp in m' && fp != command.fp ==> m'[fp] == m[fp];
      assert m'[command.fp] == NoteOr(command.note, today);
    }
  }

  /** validFingerprint counts bytes and looks at no others, so it lets a
      fingerprint with a space in it through. Revoking such a one leaves a file
      that no longer loads at all. */
  lemma SpacedFingerprintSpoilsTheFile(header: Header, m: RevokedSet, fp: string, note: string)
    requires AllRecordable(m) && ValidFingerprint(fp) && ' ' in fp && OneLine(fp, note)
    ensures Parse(Some(Render(header, m[fp := note]))).Err?
  {
    var m' := m[fp := note];
    var keys := InOrder(m'.Keys);
    assert forall k :: k in keys <==> k in Elements(keys);
    CommentsAreTheirLines(header);
    RawLinesConcat(Comments(header), Body(keys, m'));
    BodyIsItsLines(keys, m');
    SkipComments(header, BodyLines(keys, m'), map[]);
    BodyLinesContain(keys, m', fp);
    SpacedLineIsBad(fp, note);
    BadLineSpoils(BodyLines(keys, m'), EntryLine(fp, note), map[]);
  }

  /** One malformed line rejects the whole file, wherever it stands. */
  lemma {:induction false} BadLineSpoils(lines: seq<string>, line: string, m: RevokedSet)
    requires line in lines && ReadLine(CleanLine(line)).Bad?
    ensures ReadFrom(lines, m).Err?
  {
    if lines[0] != line {
      assert line in lines[1..];
      match ReadLine(CleanLine(lines[0]))
      case Blank => BadLineSpoils(lines[1..], line, m);
      case Entry(fp, note) => BadLineSpoils(lines[1..], line, m[fp := note]);
      case Bad =>
    }
  }

  lemma {:induction false} BodyLinesContain(keys: seq<string>, m: RevokedSet, k: string)
    requires k in keys && forall x :: x in keys ==> x in m
    ensures EntryLine(k, m[k]) in BodyLines(keys, m)
  {
    if keys[0] != k { BodyLinesContain(keys[1..], m, k); }
  }

  lemma SpacedLineIsBad(fp: string, note: string)
    requires ValidFingerprint(fp) && ' ' in fp
    ensures ReadLine(CleanLine(EntryLine(fp, note))).Bad?
  {
    var raw := EntryLine(fp, note);
    ValidFingerprintStart(fp);
    assert raw[0] == 'S' && !IsSpace('S');
    CleanLinePrefix(raw);
    CutsShort(CleanLine(raw), fp, note);
    ShorterIsInvalid(Cut(CleanLine(raw), ' ').before, fp);
  }

  lemma CutsShort(line: string, fp: string, note: string)
    requires ' ' in fp && line <= EntryLine(fp, note)
    ensures var c := Cut(line, ' ').before; c <= fp && c != fp
  {
    CutParts(fp, ' ');
    var cut := Cut(fp, ' ');
    var rest := cut.after + " " + note;
    assert EntryLine(fp, note) == cut.before + [' '] + rest;
    CutPrefix(line, EntryLine(fp, note), cut.before, rest);
  }

  /** Cleaning a line that starts with text only cuts its end off. */
  lemma CleanLinePrefix(raw: string)
    requires raw != "" && !IsSpace(raw[0])
    ensures CleanLine(raw) != "" && CleanLine(raw) <= raw
  {
    assert IsSpace('\r');
    var i, j := TrimSpacePart(DropCR(raw));
  }

  /** Cutting a prefix of a text yields a prefix of the text's first piece. */
  lemma CutPrefix(line: string, raw: string, a: string, b: string)
    requires line <= raw && raw == a + [' '] + b && ' ' !in a
    ensures Cut(line, ' ').before <= a
  {
    CutParts(line, ' ');
    var c := Cut(line, ' ').before;
    assert c == raw[..|c|];
    assert raw[|a|] == ' ';
    assert forall i :: 0 <= i < |c| ==> raw[i] == c[i] && c[i] in c;
  }

  lemma ShorterIsInvalid(a: string, fp: string)
    requires ValidFingerprint(fp) && a <= fp && a != fp
    ensures !ValidFingerprint(a)
  {
    assert fp == a + fp[|a|..];
    ByteLenConcat(a, fp[|a|..]);
    ValidFingerprintStart(fp);
    if ValidFingerprint(a) { ValidFingerprintStart(a); }
  }

  // ---- What a file means, line by line ----

  /** A line that says nothing: white space, or a comment. */
  predicate Ignored(raw: string) {
    var l := TrimSpace(raw);
    l == "" || l[0] == '#'
  }

  /** A line that bars fp: fp is its first word and has the shape of a fingerprint. */
  predicate Bars(raw: string, fp: string) {
    !Ignored(raw) && FirstWord(TrimSpace(raw), fp) && ValidFingerprint(fp)
  }

  /** A line that rejects the file: it says something, and its first word is no
      fingerprint. */
  ghost predicate Rejects(raw: string) {
    !Ignored(raw) && forall w :: FirstWord(TrimSpace(raw), w) ==> !ValidFingerprint(w)
  }

  lemma LineMeans(raw: string)
    ensures var l := ReadLine(CleanLine(raw));
      && (l.Blank? <==> Ignored(raw)) && (l.Bad? <==> Rejects(raw))
      && (l.Entry? ==> Bars(raw, l.fp) && l.note == TrimSpace(TrimSpace(raw)[|l.fp|..]))
      && (forall fp :: Bars(raw, fp) ==> l.Entry? && l.fp == fp)
  {
    CleanLineIsTrimmed(raw);
    FirstWordIsCut(TrimSpace(raw));
  }

  /** A file loads if and only if none of its lines is too long for the scanner
      or rejects it. */
  lemma {:induction false} LoadsUnlessALineRejects(lines: seq<string>, m: RevokedSet)
    ensures ReadFrom(lines, m).Ok? <==> forall l :: l in lines ==> ByteLen(l) < MAX_SCAN_TOKEN && !Rejects(l)
  {
    if lines != [] {
      LineMeans(lines[0]);
      assert lines == [lines[0]] + lines[1..];
      var l := ReadLine(CleanLine(lines[0]));
      LoadsUnlessALineRejects(lines[1..], if l.Entry? then m[l.fp := l.note] else m);
    }
  }

  /** The last line for a fingerprint counts. */
  ghost predicate LastFor(lines: seq<string>, fp: string, i: int) {
    0 <= i < |lines| && Bars(lines[i], fp) && forall j :: i < j < |lines| ==> !Bars(lines[j], fp)
  }

  /** What a file that loads means: a fingerprint is barred if and only if some
      line bars it, with the note of the last such line. */
  lemma {:induction false} LastLineCounts(lines: seq<string>, m: RevokedSet, fp: string)
    requires ReadFrom(lines, m).Ok?
    ensures var r := ReadFrom(lines, m).value;
      && (fp in r <==> fp in m || exists i :: 0 <= i < |lines| && Bars(lines[i], fp))
      && (forall i :: LastFor(lines, fp, i) ==> r[fp] == TrimSpace(TrimSpace(lines[i])[|fp|..]))
      && ((forall i :: 0 <= i < |lines| ==> !Bars(lines[i], fp)) && fp in m ==> r[fp] == m[fp])
  {
    if lines != [] {
      LineMeans(lines[0]);
      var l := ReadLine(CleanLine(lines[0]));
      var m' := if l.Entry? then m[l.fp := l.note] else m;
      var rest := lines[1..];
      LastLineCounts(rest, m', fp);
      forall i | LastFor(lines, fp, i)
        ensures ReadFrom(lines, m).value[fp] == TrimSpace(TrimSpace(lines[i])[|fp|..])
      {
        if i > 0 {
          assert LastFor(rest, fp, i - 1);
        } else {
          assert forall j :: 0 <= j < |rest| ==> !Bars(rest[j], fp) by {
            forall j | 0 <= j < |rest| ensures !Bars(rest[j], fp) { assert rest[j] == lines[j + 1]; }
          }
        }
      }
      if i :| 0 <= i < |rest| && Bars(rest[i], fp) { assert Bars(lines[i + 1], fp); }
      if i :| 0 <= i < |lines| && Bars(lines[i], fp) { if i > 0 { assert Bars(rest[i - 1], fp); } }
    }
  }

  /** The meaning of a file, in terms of its lines alone. */
  lemma FileMeans(content: string)
    ensures var lines := RawLines(content);
      && (Parse(Some(content)).Ok? <==> forall l :: l in lines ==> ByteLen(l) < MAX_SCAN_TOKEN && !Rejects(l))
      && (Parse(Some(content)).Ok? ==> forall fp :: var m := Parse(Some(content)).value;
            && (fp in m <==> exists i :: 0 <= i < |lines| && Bars(lines[i], fp))
            && (forall i :: LastFor(lines, fp, i) ==> m[fp] == TrimSpace(TrimSpace(lines[i])[|fp|..])))
  {
    var lines := RawLines(content);
    LoadsUnlessALineRejects(lines, map[]);
    if Parse(Some(content)).Ok? {
      forall fp
        ensures var m := Parse(Some(content)).value;
          && (fp in m <==> exists i :: 0 <= i < |lines| && Bars(lines[i], fp))
          && (forall i :: LastFor(lines, fp, i) ==> m[fp] == TrimSpace(TrimSpace(lines[i])[|fp|..]))
      {
        LastLineCounts(lines, map[], fp);
      }
    }
  }
}
