/** The friendly-name ledger: an in-memory binding of names to identity
    fingerprints, kept in step with a file that is appended to on a claim and
    rewritten in sorted order on a forget. */
module Ledger {
  import opened Prelude
  import opened GoText
  import opened SortedNames
  import opened KeyedLines

  datatype Error = LineTooLong

  type Bindings = map<string, string>

  datatype Line = Skipped | Entry(name: string, fp: string)

  function ReadLine(line: string): Line {
    if line == "" || HasPrefix(line, "#") then Skipped
    else
      var r := Cut(line, ' ');
      if r.found then Entry(r.before, TrimSpace(r.after)) else Skipped
  }

  function ReadFrom(lines: seq<string>, m: Bindings): Result<Bindings, Error> {
    if lines == [] then Ok(m)
    else if ByteLen(lines[0]) >= MAX_SCAN_TOKEN then Err(LineTooLong)
    else match ReadLine(CleanLine(lines[0])) {
      case Skipped => ReadFrom(lines[1..], m)
      case Entry(name, fp) => ReadFrom(lines[1..], m[name := fp])
    }
  }

  function Parse(file: Option<string>): Result<Bindings, Error> {
    match file
    case None => Ok(map[])
    case Some(content) => ReadFrom(RawLines(content), map[])
  }

  /** openLedger. */
  method OpenLedger(file: Option<string>) returns (r: Result<Bindings, Error>)
    ensures r == Parse(file)
  {
    var m: Bindings := map[];
    if file.None? { return Ok(m); }
    var lines := RawLines(file.value);
    var i := 0;
    while i < |lines|
      invariant 0 <= i <= |lines|
      invariant Parse(file) == ReadFrom(lines[i..], m)
    {
      if ByteLen(lines[i]) >= MAX_SCAN_TOKEN { return Err(LineTooLong); }
      assert lines[i..][1..] == lines[i + 1..];
      var line := CleanLine(lines[i]);
      if !(line == "" || HasPrefix(line, "#")) {
        var cut := Cut(line, ' ');
        if cut.found {
          m := m[cut.before := TrimSpace(cut.after)];
        }
      }
      i := i + 1;
    }
    return Ok(m);
  }

  // ---- Claims and releases, as functions of the bindings and the file ----

  predicate Granted(m: Bindings, name: string, fp: string) {
    name in m ==> m[name] == fp
  }

  function Bound(m: Bindings, name: string, fp: string): Bindings {
    if name in m then m else m[name := fp]
  }

  /** What became of a write: the file could not be opened, or this many
      characters of the text got into it, all of them if there are fewer. */
  datatype Write = NotOpened | Put(n: nat)

  function Part(text: string, n: nat): string {
    if n < |text| then text[..n] else text
  }

  function Content(file: Option<string>): string {
    if file.Some? then file.value else ""
  }

  /** After appending text, as far as that went. */
  function Extended(file: Option<string>, text: string, write: Write): Option<string> {
    if write.NotOpened? then file else Some(Content(file) + Part(text, write.n))
  }

  /** os.WriteFile empties the file before it writes. */
  function Overwritten(file: Option<string>, text: string, write: Write): Option<string> {
    if write.NotOpened? then file else Some(Part(text, write.n))
  }

  /** The ledger object. `file` is what is on its path; the outcomes of file
      operations are inputs. */
  class Book {
    const header: Header
    var m: Bindings
    var file: Option<string>

    constructor (header: Header, m: Bindings, file: Option<string>)
      ensures this.header == header && this.m == m && this.file == file
    {
      this.header, this.m, this.file := header, m, file;
    }

    method Claim(name: string, fp: string, write: Write) returns (granted: bool)
      modifies this
      ensures granted == Granted(old(m), name, fp)
      ensures (m, file) == Step(header, old(m), old(file), Op.Claim(name, fp, write))
    {
      if name in m { return m[name] == fp; }
      m := m[name := fp];
      AppendLine(name, fp, write);
      return true;
    }

    /** What was there stays, and the file grows by the line or a part of it. */
    method AppendLine(name: string, fp: string, write: Write)
      modifies `file
      ensures Content(old(file)) <= Content(file)
      ensures Content(file)[|Content(old(file))|..] <= EntryLine(name, fp) + "\n"
      ensures write.Put? && write.n > |EntryLine(name, fp)| ==>
                file == Some(Content(old(file)) + EntryLine(name, fp) + "\n")
      ensures file == Extended(old(file), EntryLine(name, fp) + "\n", write)
    {
      match write
      case NotOpened =>
      case Put(n) =>
        var content := if file.Some? then file.value else "";
        var line := EntryLine(name, fp) + "\n";
        assert content + EntryLine(name, fp) + "\n" == content + line;
        file := Some(content + if n < |line| then line[..n] else line);
    }

    /** closes: closing the file reports no error. */
    method Forget(name: string, write: Write, closes: bool) returns (released: bool)
      modifies this
      ensures released ==> name in old(m) && file == Some(Render(header, m))
      ensures name in old(m) && closes && write.Put? && write.n >= |Render(header, m)| ==> released
      ensures (m, file) == Step(header, old(m), old(file), Op.Forget(name, write))
    {
      if name !in m {
        assert m == m - {name};
        return false;
      }
      m := m - {name};
      released := Rewrite(write, closes);
    }

    method Rewrite(write: Write, closes: bool) returns (ok: bool)
      modifies `file
      ensures file == Overwritten(old(file), Render(header, m), write)
      ensures ok <==> write.Put? && write.n >= |Render(header, m)| && closes
    {
      var content := BuildTable(header, m);
      match write
      case NotOpened => return false;
      case Put(n) =>
        file := Some(if n < |content| then content[..n] else content);
        return n >= |content| && closes;
    }
  }

  // ---- Which bindings the file can hold ----

  /** Entries that survive the file: the name cannot be taken for a comment or
      be split, and nothing is trimmed off either end. */
  predicate Recordable(name: string, fp: string) {
    && name != "" && name[0] != '#' && !IsSpace(name[0]) && ' ' !in name
    && fp != "" && Trimmed(fp) && OneLine(name, fp)
    && ByteLen(EntryLine(name, fp)) < MAX_SCAN_TOKEN
  }

  predicate AllRecordable(m: Bindings) {
    forall name :: name in m ==> Recordable(name, m[name])
  }

  lemma RecordableReadsBack(name: string, fp: string)
    requires Recordable(name, fp)
    ensures ReadLine(CleanLine(EntryLine(name, fp))) == Entry(name, fp)
  {
    var raw := EntryLine(name, fp);
    assert raw[0] == name[0] && raw[|raw| - 1] == fp[|fp| - 1];
    CleanLineOfTrimmed(raw);
    assert raw == name + [' '] + fp;
    CutAt(name, ' ', fp);
    TrimSpaceOfTrimmed(fp);
  }

  lemma ReadLineYieldsRecordable(raw: string)
    requires '\n' !in raw && ByteLen(raw) < MAX_SCAN_TOKEN
    ensures var l := ReadLine(CleanLine(raw)); l.Entry? ==> Recordable(l.name, l.fp)
  {
    var line := CleanLine(raw);
    var l := ReadLine(line);
    if l.Entry? {
      CleanLineFacts(raw);
      CutParts(line, ' ');
      var after := Cut(line, ' ').after;
      var i, j := TrimSpacePart(after);
      assert forall c :: c in l.fp ==> c in after;
      ValueFits(line, l.name, after);
      AfterSpaceIsText(line, l.name, after);
      assert l.name != "" by { assert IsSpace(' '); }
      assert l.name[0] == line[0];
    }
  }

  lemma {:induction false} ReadYieldsRecordable(lines: seq<string>, m: Bindings)
    requires AllRecordable(m) && (forall l :: l in lines ==> '\n' !in l)
    requires ReadFrom(lines, m).Ok?
    ensures AllRecordable(ReadFrom(lines, m).value)
  {
    if lines != [] {
      ReadLineYieldsRecordable(lines[0]);
      match ReadLine(CleanLine(lines[0])) {
        case Skipped => ReadYieldsRecordable(lines[1..], m);
        case Entry(name, fp) => ReadYieldsRecordable(lines[1..], m[name := fp]);
      }
    }
  }

  lemma ParseYieldsRecordable(file: Option<string>)
    requires Parse(file).Ok?
    ensures AllRecordable(Parse(file).value)
  {
    if file.Some? {
      RawLinesHaveNoNewline(file.value);
      ReadYieldsRecordable(RawLines(file.value), map[]);
    }
  }

  lemma {:induction false} ReadBody(keys: seq<string>, m: Bindings, acc: Bindings)
    requires forall k :: k in keys ==> k in m && Recordable(k, m[k])
    ensures ReadFrom(BodyLines(keys, m), acc) == Ok(AddAll(keys, m, acc))
  {
    if keys != [] {
      var k := keys[0];
      RecordableReadsBack(k, m[k]);
      ReadBody(keys[1..], m, acc[k := m[k]]);
      assert BodyLines(keys, m)[1..] == BodyLines(keys[1..], m);
    }
  }

  /** A rewrite reads back as the bindings it wrote. */
  lemma RewriteReadsBack(header: Header, m: Bindings)
    requires AllRecordable(m)
    ensures Parse(Some(Render(header, m))) == Ok(m) && WholeLines(Render(header, m))
  {
    var keys := InOrder(m.Keys);
    assert forall k :: k in keys ==> k in Elements(keys);
    CommentsSayNothing(header);
    ReadBehind(Comments(header), Body(keys, m));
    BodyReadsBack(keys, m);
    AddAllIsAll(m);
    WholeLinesConcat(Comments(header), Body(keys, m));
  }

  lemma BodyReadsBack(keys: seq<string>, m: Bindings)
    requires forall k :: k in keys ==> k in m && Recordable(k, m[k])
    ensures ReadFrom(RawLines(Body(keys, m)), map[]) == Ok(AddAll(keys, m, map[])) && WholeLines(Body(keys, m))
  {
    BodyIsItsLines(keys, m);
    BodyIsWholeLines(keys, m);
    ReadBody(keys, m, map[]);
  }

  lemma WholeLinesConcat(a: string, b: string)
    requires WholeLines(a) && WholeLines(b)
    ensures WholeLines(a + b)
  {}

  // ---- Reading an appended line ----

  lemma {:induction false} ReadConcat(a: seq<string>, b: seq<string>, m: Bindings)
    ensures ReadFrom(a + b, m) ==
      if ReadFrom(a, m).Err? then ReadFrom(a, m) else ReadFrom(b, ReadFrom(a, m).value)
  {
    if a == [] {
      assert a + b == b;
    } else {
      assert (a + b)[1..] == a[1..] + b;
      match ReadLine(CleanLine(a[0]))
      case Skipped => ReadConcat(a[1..], b, m);
      case Entry(name, fp) => ReadConcat(a[1..], b, m[name := fp]);
    }
  }

  function ReadOne(raw: string, m: Bindings): Result<Bindings, Error> {
    if ByteLen(raw) >= MAX_SCAN_TOKEN then Err(LineTooLong)
    else match ReadLine(CleanLine(raw))
      case Skipped => Ok(m)
      case Entry(name, fp) => Ok(m[name := fp])
  }

  lemma ReadRaw(last: string, m: Bindings)
    requires '\n' !in last
    ensures ReadFrom(RawLines(last), m) == ReadFrom([last], m) == ReadOne(last, m)
  {
    RawLinesOfLine(last);
    assert [last][1..] == [];
    assert CleanLine("") == "";
  }

  /** A last line reads the same with its newline or without. */
  lemma ReadLast(whole: string, last: string, m: Bindings)
    requires WholeLines(whole) && '\n' !in last
    ensures var before := ReadFrom(RawLines(whole), m);
      && ReadFrom(RawLines(whole + last), m) == (if before.Err? then before else ReadOne(last, before.value))
      && ReadFrom(RawLines(whole + last + "\n"), m) == ReadFrom(RawLines(whole + last), m)
  {
    RawLinesConcat(whole, last);
    RawLinesConcat(whole, last + "\n");
    ConcatAssociates(whole, last, "\n");
    RawLinesOfLine(last);
    ReadConcat(RawLines(whole), RawLines(last), m);
    ReadConcat(RawLines(whole), [last], m);
    if ReadFrom(RawLines(whole), m).Ok? { ReadRaw(last, ReadFrom(RawLines(whole), m).value); }
  }

  /** An entry needs room for its name, the space and the fingerprint. */
  lemma EntryNeedsRoom(raw: string)
    ensures var l := ReadLine(CleanLine(raw)); l.Entry? ==> |EntryLine(l.name, l.fp)| <= |TrimSpace(raw)| <= |raw|
  {
    CleanLineIsTrimmed(raw);
    var i, j := TrimSpacePart(raw);
    CutParts(CleanLine(raw), ' ');
    var k, n := TrimSpacePart(Cut(CleanLine(raw), ' ').after);
  }

  // ---- What an unfinished last line does to what is appended ----

  /** The one odd way in: the last line is the name and white space, a space
      first, and what was put behind it reads as the fingerprint. */
  predicate Stutters(tail: string, name: string, fp: string, put: string) {
    var r := Cut(TrimLeft(tail), ' ');
    r.found && r.before == name && AllSpace(r.after) && TrimSpace(put) == fp
  }

  /** The line behind a blank tail. */
  lemma BehindBlank(tail: string, put: string, name: string, fp: string)
    requires Recordable(name, fp) && put <= EntryLine(name, fp) && AllSpace(tail)
    ensures ReadLine(CleanLine(tail + put)) == Entry(name, fp) <==> put == EntryLine(name, fp)
  {
    CleanLineIsTrimmed(tail + put);
    CleanLineIsTrimmed(put);
    TrimLeftConcat(tail, put);
    EntryNeedsRoom(put);
    if put == EntryLine(name, fp) { RecordableReadsBack(name, fp); }
  }

  /** The line behind other text. */
  lemma BehindText(tail: string, put: string, name: string, fp: string)
    requires Recordable(name, fp) && put <= EntryLine(name, fp) && !AllSpace(tail)
    requires var l := ReadLine(CleanLine(tail)); l.Entry? ==> l.name != name
    ensures ReadLine(CleanLine(tail + put)) == Entry(name, fp) <==> Stutters(tail, name, fp, put)
  {
    CleanLineIsTrimmed(tail + put);
    TrimLeftConcat(tail, put);
    TrimAllSpace(tail);
    var u := TrimLeft(tail);
    var i := TrimLeftPart(tail);
    assert u != "" && !IsSpace(u[0]);
    CutParts(u, ' ');
    if Cut(u, ' ').found { BehindSpaced(tail, u, put, name, fp); }
    else { BehindWord(u, put, name, fp); }
  }

  lemma BehindWord(u: string, put: string, name: string, fp: string)
    requires Recordable(name, fp) && put <= EntryLine(name, fp)
    requires u != "" && !IsSpace(u[0]) && ' ' !in u
    ensures ReadLine(TrimRight(u + put)) != Entry(name, fp)
  {
    var clean := TrimRight(u + put);
    var j := TrimRightPart(u + put);
    var r := Cut(clean, ' ');
    CutParts(clean, ' ');
    assert r.found && r.before == name ==> clean[|name|] == ' ' && |name| < j;
    NoSpaceThere(u, put, name, fp);
  }

  lemma NoSpaceThere(u: string, put: string, name: string, fp: string)
    requires ' ' !in name && put <= EntryLine(name, fp) && u != "" && ' ' !in u
    ensures |name| < |u + put| ==> (u + put)[|name|] != ' '
  {
    var k := |name| - |u|;
    if |name| < |u| {
      assert u[|name|] in u;
    } else if k < |put| {
      assert put[k] == EntryLine(name, fp)[k] == name[k] && name[k] in name;
    }
  }

  lemma BehindSpaced(tail: string, u: string, put: string, name: string, fp: string)
    requires Recordable(name, fp) && put <= EntryLine(name, fp)
    requires u == TrimLeft(tail) && u != "" && !IsSpace(u[0]) && Cut(u, ' ').found
    requires var l := ReadLine(CleanLine(tail)); l.Entry? ==> l.name != name
    ensures ReadLine(TrimRight(u + put)) == Entry(name, fp) <==> Stutters(tail, name, fp, put)
  {
    var r := Cut(u, ' ');
    SpacedReadsBehind(u, put);
    SpacedReadsBehind(u, "");
    assert u + "" == u && r.after + "" == r.after;
    CleanLineIsTrimmed(tail);
    TrimLeftConcat(r.after, put);
    TrimAllSpace(put);
    assert AllSpace(r.after + put) ==> AllSpace(r.after) by {
      assert forall c :: c in r.after ==> c in r.after + put;
    }
    assert AllSpace(r.after) && AllSpace(r.after + put) ==> AllSpace(put) by {
      assert forall c :: c in put ==> c in r.after + put;
    }
  }

  lemma SpacedReadsBehind(u: string, put: string)
    requires u != "" && !IsSpace(u[0]) && Cut(u, ' ').found
    ensures var r := Cut(u, ' ');
      && r.before != "" && r.before[0] == u[0]
      && ReadLine(TrimRight(u + put)) ==
        if AllSpace(r.after + put) || r.before[0] == '#' then Skipped else Entry(r.before, TrimSpace(r.after + put))
  {
    var r := Cut(u, ' ');
    CutParts(u, ' ');
    assert IsSpace(' ');
    assert u + put == r.before + [' '] + (r.after + put);
    SpacedReads(r.before, r.after + put);
  }

  /** Text with a space in it reads as an entry when there is text behind the space. */
  lemma SpacedReads(before: string, after: string)
    requires before != "" && !IsSpace(before[0]) && ' ' !in before
    ensures ReadLine(TrimRight(before + [' '] + after)) ==
      if AllSpace(after) || before[0] == '#' then Skipped else Entry(before, TrimSpace(after))
  {
    var head := before + [' '];
    TrimRightConcat(head, after);
    TrimRightConcat(before, [' ']);
    assert IsSpace(' ');
    if AllSpace(after) {
      var j := TrimRightPart(before);
      CutAbsent(before[..j], ' ');
    } else {
      var rest := TrimRight(after);
      CutAt(before, ' ', rest);
      assert (head + rest)[0] == before[0];
      TrimRightThenAll(after);
    }
  }

  lemma TrimRightThenAll(s: string)
    ensures TrimSpace(TrimRight(s)) == TrimSpace(s)
  {
    var kept := TrimRight(s);
    var j := TrimRightPart(s);
    TrimRightRest(s);
    var rest := s[|kept|..];
    assert s == kept + rest;
    TrimLeftConcat(kept, rest);
    TrimRightConcat(TrimLeft(kept), rest);
    TrimAllSpace(kept);
    TrimAllSpace(rest);
  }

  lemma {:induction false} TrimRightRest(s: string)
    ensures |TrimRight(s)| <= |s| && AllSpace(s[|TrimRight(s)|..])
  {
    if s != "" && IsSpace(s[|s| - 1]) {
      var t := s[..|s| - 1];
      TrimRightRest(t);
      assert s[|TrimRight(t)|..] == t[|TrimRight(t)|..] + [s[|s| - 1]];
    }
  }

  // ---- The file and the memory stay in step ----

  /** Re-opening the file would give exactly the bindings in memory. */
  predicate InStep(m: Bindings, file: Option<string>) {
    Parse(file) == Ok(m)
  }

  /** What was put of a line, without the newline. */
  function Unended(put: string): string {
    if put != "" && put[|put| - 1] == '\n' then put[..|put| - 1] else put
  }

  /** When a claim, of which put got into the file, will be read back. */
  predicate ReadsBack(content: string, name: string, fp: string, put: string) {
    && Recordable(name, fp)
    && ByteLen(Tail(content) + Unended(put)) < MAX_SCAN_TOKEN
    && (|| (AllSpace(Tail(content)) && EntryLine(name, fp) <= put)
        || Stutters(Tail(content), name, fp, put))
  }

  /** An appended claim is read back if and only if its entry is recordable, it
      got into the file, and the last line there was blank, with room for it. */
  lemma ClaimReadsBack(m: Bindings, file: Option<string>, name: string, fp: string, n: nat)
    requires InStep(m, file) && name !in m
    ensures var put := Part(EntryLine(name, fp) + "\n", n);
      InStep(m[name := fp], Some(Content(file) + put)) <==> ReadsBack(Content(file), name, fp, put)
  {
    var put := Part(EntryLine(name, fp) + "\n", n);
    assert m[name := fp][name] == fp;
    if Recordable(name, fp) {
      UnendedPart(EntryLine(name, fp), n);
      var before := ReadByLastLine(Content(file), Unended(put), put);
      LastLineReadsBack(before.value, Tail(Content(file)), m, name, fp, put);
    } else if InStep(m[name := fp], Some(Content(file) + put)) {
      ParseYieldsRecordable(Some(Content(file) + put));
    }
  }

  /** Appending affects the reading of the last line only. */
  lemma ReadByLastLine(content: string, body: string, put: string) returns (before: Result<Bindings, Error>)
    requires '\n' !in body && (put == body || put == body + "\n")
    ensures Parse(Some(content)) == if before.Err? then before else ReadOne(Tail(content), before.value)
    ensures Parse(Some(content + put)) == if before.Err? then before else ReadOne(Tail(content) + body, before.value)
  {
    var whole := TailPart(content);
    var tail := Tail(content);
    before := ReadFrom(RawLines(whole), map[]);
    ReadLast(whole, tail, map[]);
    ReadLast(whole, tail + body, map[]);
    ConcatAssociates(whole, tail, body);
    ConcatAssociates(content, body, "\n");
  }

  lemma UnendedPart(line: string, n: nat)
    requires '\n' !in line
    ensures var put := Part(line + "\n", n); var body := Unended(put);
      && body <= line && (put == body || put == body + "\n") && (line <= put <==> body == line)
      && TrimSpace(put) == TrimSpace(body)
  {
    var put := Part(line + "\n", n);
    if n <= |line| {
      assert put == line[..n];
      assert put != "" ==> put[|put| - 1] in line;
    } else {
      assert put == line + "\n" && Unended(put) == line;
      assert IsSpace('\n') && AllSpace("\n");
      TrimLeftConcat(line, "\n");
      TrimRightConcat(TrimLeft(line), "\n");
      TrimAllSpace(line);
    }
  }

  /** The last line, read on top of what the lines before it gave. */
  lemma LastLineReadsBack(before: Bindings, tail: string, m: Bindings, name: string, fp: string, put: string)
    requires Recordable(name, fp) && ReadOne(tail, before) == Ok(m) && name !in m
    requires Unended(put) <= EntryLine(name, fp) && TrimSpace(put) == TrimSpace(Unended(put))
    requires EntryLine(name, fp) <= put <==> Unended(put) == EntryLine(name, fp)
    ensures ReadOne(tail + Unended(put), before) == Ok(m[name := fp])
      <==> && ByteLen(tail + Unended(put)) < MAX_SCAN_TOKEN
           && ((AllSpace(tail) && EntryLine(name, fp) <= put) || Stutters(tail, name, fp, put))
  {
    var l := ReadLine(CleanLine(tail));
    var l' := ReadLine(CleanLine(tail + Unended(put)));
    assert name !in before;
    if AllSpace(tail) {
      BehindBlank(tail, Unended(put), name, fp);
      BlankTail(tail);
    } else {
      BehindText(tail, Unended(put), name, fp);
      if Stutters(tail, name, fp, put) { StutteringTail(tail, name, fp, put); }
    }
    if ReadOne(tail + Unended(put), before) == Ok(m[name := fp]) {
      assert l'.Entry? ==> before[l'.name := l'.fp][name] == fp;
      assert l' == Entry(name, fp);
    }
  }

  lemma BlankTail(tail: string)
    requires AllSpace(tail)
    ensures ReadLine(CleanLine(tail)) == Skipped && !Cut(TrimLeft(tail), ' ').found
  {
    CleanLineIsTrimmed(tail);
    TrimAllSpace(tail);
  }

  lemma StutteringTail(tail: string, name: string, fp: string, put: string)
    requires !AllSpace(tail) && Stutters(tail, name, fp, put)
    ensures ReadLine(CleanLine(tail)) == Skipped
  {
    CleanLineIsTrimmed(tail);
    TrimAllSpace(tail);
    var i := TrimLeftPart(tail);
    var u := TrimLeft(tail);
    SpacedReadsBehind(u, "");
    assert u + "" == u && Cut(u, ' ').after + "" == Cut(u, ' ').after;
  }

  /** A claim written in full: the two ways it can be lost are an entry that
      cannot be recorded and an unfinished last line that is not blank. */
  lemma ClaimInStep(m: Bindings, file: Option<string>, name: string, fp: string)
    requires InStep(m, file) && name !in m
    ensures InStep(m[name := fp], Some(Content(file) + (EntryLine(name, fp) + "\n")))
      <==> && Recordable(name, fp) && AllSpace(Tail(Content(file)))
           && ByteLen(Tail(Content(file)) + EntryLine(name, fp)) < MAX_SCAN_TOKEN
  {
    var line := EntryLine(name, fp);
    ClaimReadsBack(m, file, name, fp, |line| + 1);
    assert Part(line + "\n", |line| + 1) == line + "\n";
    assert Unended(line + "\n") == line;
    if Recordable(name, fp) {
      UnendedPart(line, |line| + 1);
      assert Trimmed(line) && TrimSpace(line) == line;
    }
  }

  /** A short write, or an editor, leaves a line without its newline; the next
      claim is granted and joined to it, and both bindings are lost: any two
      that are recordable, alone and joined. */
  lemma UnfinishedLineLosesBoth(a: string, x: string, b: string, y: string)
    requires Recordable(a, x) && Recordable(b, y) && a != b
    requires ByteLen(EntryLine(a, x) + EntryLine(b, y)) < MAX_SCAN_TOKEN
    ensures InStep(map[a := x], Some(EntryLine(a, x))) && Granted(map[a := x], b, y)
    ensures Parse(Some(EntryLine(a, x) + (EntryLine(b, y) + "\n"))) == Ok(map[a := x + EntryLine(b, y)])
    ensures x + EntryLine(b, y) != x
  {
    JoinedIsRecordable(a, x, b, y);
    ReadsAs(a, x);
    ReadsAs(a, x + EntryLine(b, y));
  }

  lemma JoinedIsRecordable(a: string, x: string, b: string, y: string)
    requires Recordable(a, x) && Recordable(b, y)
    requires ByteLen(EntryLine(a, x) + EntryLine(b, y)) < MAX_SCAN_TOKEN
    ensures Recordable(a, x + EntryLine(b, y))
    ensures EntryLine(a, x) + (EntryLine(b, y) + "\n") == EntryLine(a, x + EntryLine(b, y)) + "\n"
  {
    var joined := x + EntryLine(b, y);
    assert EntryLine(a, x) + EntryLine(b, y) == EntryLine(a, joined);
    assert joined[|joined| - 1] == y[|y| - 1] && joined[0] == x[0];
  }

  /** A file of one recordable entry, with its newline or without. */
  lemma ReadsAs(name: string, fp: string)
    requires Recordable(name, fp)
    ensures Parse(Some(EntryLine(name, fp))) == Parse(Some(EntryLine(name, fp) + "\n")) == Ok(map[name := fp])
  {
    RecordableReadsBack(name, fp);
    RawLinesOfLine(EntryLine(name, fp));
    ReadRaw(EntryLine(name, fp), map[]);
  }

  // ---- A rewrite, and one that was cut short ----

  /** A prefix of comment lines says nothing. */
  lemma {:induction false} ShortComments(lines: Header, n: nat, m: Bindings)
    requires n <= |Comments(lines)|
    ensures ReadFrom(RawLines(Comments(lines)[..n]), m) == Ok(m)
    decreases |lines|, 0
  {
    if lines != [] {
      assert lines[0] in lines;
      ShortComment(lines[0], lines[1..], n, m);
    }
  }

  lemma {:induction false} ShortComment(line: string, others: Header, n: nat, m: Bindings)
    requires CommentLine(line) && n <= |line + "\n" + Comments(others)|
    ensures ReadFrom(RawLines((line + "\n" + Comments(others))[..n]), m) == Ok(m)
    decreases |others|, 1
  {
    if n <= |line| {
      CutInComment(line, Comments(others), n, m);
    } else {
      CutBehindComment(line, Comments(others), n, m);
      ShortComments(others, n - |line| - 1, m);
    }
  }

  lemma CutInComment(line: string, rest: string, n: nat, m: Bindings)
    requires CommentLine(line) && n <= |line|
    ensures ReadFrom(RawLines((line + "\n" + rest)[..n]), m) == Ok(m)
  {
    PrefixOfLines(line, rest, n);
    CommentPart(line, n);
    ReadRaw(line[..n], m);
  }

  lemma CutBehindComment(line: string, rest: string, n: nat, m: Bindings)
    requires CommentLine(line) && |line| < n <= |line + "\n" + rest|
    ensures ReadFrom(RawLines((line + "\n" + rest)[..n]), m) == ReadFrom(RawLines(rest[..n - |line| - 1]), m)
  {
    var left := rest[..n - |line| - 1];
    PrefixOfLines(line, rest, n);
    SkipCommentThen(line, left, m);
  }

  lemma PrefixOfLines(line: string, rest: string, n: nat)
    requires n <= |line + "\n" + rest|
    ensures (line + "\n" + rest)[..n] == if n <= |line| then line[..n] else line + "\n" + rest[..n - |line| - 1]
  {}

  lemma SkipCommentThen(line: string, left: string, m: Bindings)
    requires CommentLine(line)
    ensures ReadFrom(RawLines(line + "\n" + left), m) == ReadFrom(RawLines(left), m)
  {
    RawLinesCons(line, left);
    CommentLineCleaned(line);
    assert ([line] + RawLines(left))[1..] == RawLines(left);
  }

  lemma CommentPart(line: string, n: nat)
    requires CommentLine(line) && n <= |line|
    ensures '\n' !in line[..n] && ReadOne(line[..n], map[]) == Ok(map[])
    ensures ReadLine(CleanLine(line[..n])) == Skipped && ByteLen(line[..n]) < MAX_SCAN_TOKEN
  {
    ByteLenAtMost(line[..n]);
    CleanLineIsTrimmed(line[..n]);
    var i, j := TrimSpacePart(line[..n]);
  }

  /** Text no part of which, from its start, says anything. */
  ghost predicate SaysNothing(head: string) {
    WholeLines(head) && forall n :: 0 <= n <= |head| ==> Parse(Some(head[..n])) == Ok(map[])
  }

  lemma CommentsSayNothing(lines: Header)
    ensures SaysNothing(Comments(lines))
  {
    CommentsAreTheirLines(lines);
    forall n | 0 <= n <= |Comments(lines)| ensures Parse(Some(Comments(lines)[..n])) == Ok(map[]) {
      ShortComments(lines, n, map[]);
    }
  }

  predicate AllFit(keys: seq<string>, m: Bindings) {
    forall k :: k in keys ==> k in m && Recordable(k, m[k])
  }

  lemma TailFits(keys: seq<string>, m: Bindings)
    requires keys != [] && AllFit(keys, m) && NoDuplicates(keys)
    ensures AllFit(keys[1..], m) && NoDuplicates(keys[1..]) && keys[0] !in keys[1..]
    ensures keys[0] in m && Recordable(keys[0], m[keys[0]])
  {}

  /** A body that was cut short of its last entry does not give that entry. */
  lemma {:induction false} ShortBody(keys: seq<string>, m: Bindings, acc: Bindings, n: nat)
    requires NoDuplicates(keys) && keys != [] && AllFit(keys, m)
    requires n + 1 < |Body(keys, m)| && keys[|keys| - 1] !in acc
    ensures var k := keys[|keys| - 1]; Misses(ReadFrom(RawLines(Body(keys, m)[..n]), acc), k, m[k])
    decreases |keys|, 0
  {
    TailFits(keys, m);
    if n <= |EntryLine(keys[0], m[keys[0]])| {
      CutInFirst(keys, m, acc, n);
    } else {
      CutBehindFirst(keys, m, acc, n);
      assert |keys| > 1;
      ShortRest(keys[0], keys[1..], m, acc, n - |EntryLine(keys[0], m[keys[0]])| - 1);
    }
  }

  lemma {:induction false} ShortRest(k: string, keys: seq<string>, m: Bindings, acc: Bindings, n: nat)
    requires NoDuplicates(keys) && keys != [] && AllFit(keys, m) && k !in keys && k in m
    requires n + 1 < |Body(keys, m)| && keys[|keys| - 1] !in acc
    ensures var last := keys[|keys| - 1];
      Misses(ReadFrom(RawLines(Body(keys, m)[..n]), acc[k := m[k]]), last, m[last])
    decreases |keys|, 1
  {
    assert keys[|keys| - 1] in keys;
    ShortBody(keys, m, acc[k := m[k]], n);
  }

  lemma CutInFirst(keys: seq<string>, m: Bindings, acc: Bindings, n: nat)
    requires keys != [] && keys[0] in m && Recordable(keys[0], m[keys[0]]) && forall k :: k in keys ==> k in m
    requires n + 1 < |Body(keys, m)| && n <= |EntryLine(keys[0], m[keys[0]])|
    requires keys[|keys| - 1] !in acc && (|keys| > 1 ==> keys[|keys| - 1] != keys[0])
    ensures var k := keys[|keys| - 1]; Misses(ReadFrom(RawLines(Body(keys, m)[..n]), acc), k, m[k])
  {
    PrefixOfLines(EntryLine(keys[0], m[keys[0]]), Body(keys[1..], m), n);
    ShortLine(keys[0], m[keys[0]], acc, n);
  }

  lemma CutBehindFirst(keys: seq<string>, m: Bindings, acc: Bindings, n: nat)
    requires keys != [] && keys[0] in m && Recordable(keys[0], m[keys[0]]) && forall k :: k in keys ==> k in m
    requires |EntryLine(keys[0], m[keys[0]])| < n <= |Body(keys, m)|
    ensures var i := n - |EntryLine(keys[0], m[keys[0]])| - 1;
      && i <= |Body(keys[1..], m)| && |Body(keys, m)| - n == |Body(keys[1..], m)| - i
      && ReadFrom(RawLines(Body(keys, m)[..n]), acc)
      == ReadFrom(RawLines(Body(keys[1..], m)[..i]), acc[keys[0] := m[keys[0]]])
  {
    var line, rest := EntryLine(keys[0], m[keys[0]]), Body(keys[1..], m);
    PrefixOfLines(line, rest, n);
    ReadEntryThen(keys[0], m[keys[0]], rest[..n - |line| - 1], acc);
  }

  predicate Misses(r: Result<Bindings, Error>, name: string, fp: string) {
    r.Ok? ==> name !in r.value || r.value[name] != fp
  }

  lemma ShortLine(name: string, fp: string, acc: Bindings, n: nat)
    requires Recordable(name, fp) && n <= |EntryLine(name, fp)|
    ensures var r := ReadFrom(RawLines(EntryLine(name, fp)[..n]), acc);
      r.Ok? ==> && (forall k :: k != name ==> (k in r.value <==> k in acc))
                && (n < |EntryLine(name, fp)| && name !in acc ==> name !in r.value || r.value[name] != fp)
  {
    ShortEntry(name, fp, n);
    ReadRaw(EntryLine(name, fp)[..n], acc);
  }

  lemma ReadEntryThen(name: string, fp: string, left: string, acc: Bindings)
    requires Recordable(name, fp)
    ensures ReadFrom(RawLines(EntryLine(name, fp) + "\n" + left), acc) == ReadFrom(RawLines(left), acc[name := fp])
  {
    var line := EntryLine(name, fp);
    RawLinesCons(line, left);
    RecordableReadsBack(name, fp);
    assert ([line] + RawLines(left))[1..] == RawLines(left);
  }

  /** Part of an entry's line gives no other name, and short of all of it not
      the entry. */
  lemma ShortEntry(name: string, fp: string, n: nat)
    requires Recordable(name, fp) && n <= |EntryLine(name, fp)|
    ensures '\n' !in EntryLine(name, fp)[..n]
    ensures var l := ReadLine(CleanLine(EntryLine(name, fp)[..n]));
      l.Entry? ==> l.name == name && (n < |EntryLine(name, fp)| ==> l.fp != fp)
  {
    var raw := EntryLine(name, fp)[..n];
    EntryNeedsRoom(raw);
    CleanLineIsTrimmed(raw);
    if n > |name| {
      assert raw == name + [' '] + fp[..n - |name| - 1];
      SpacedReads(name, fp[..n - |name| - 1]);
    } else {
      assert EntryLine(name, fp) == name + (" " + fp);
      PrefixOfConcat(name, " " + fp, n);
      var j := TrimRightPart(raw);
      CutAbsent(TrimRight(raw), ' ');
    }
  }

  /** A table cut short of its last entry does not give it. */
  lemma ShortTable(head: string, keys: seq<string>, m: Bindings, n: nat)
    requires SaysNothing(head) && NoDuplicates(keys) && keys != [] && AllFit(keys, m)
    requires n + 1 < |head| + |Body(keys, m)|
    ensures Parse(Some((head + Body(keys, m))[..n])) != Ok(m)
  {
    if n <= |head| { CutInHead(head, Body(keys, m), m, keys[0], n); }
    else { CutBehindHead(head, keys, m, n); }
  }

  lemma CutInHead(head: string, body: string, m: Bindings, k: string, n: nat)
    requires SaysNothing(head) && n <= |head| && k in m
    ensures Parse(Some((head + body)[..n])) != Ok(m)
  {
    PrefixOfConcat(head, body, n);
  }

  lemma CutBehindHead(head: string, keys: seq<string>, m: Bindings, n: nat)
    requires SaysNothing(head) && NoDuplicates(keys) && keys != [] && AllFit(keys, m)
    requires |head| < n && n + 1 < |head| + |Body(keys, m)|
    ensures Parse(Some((head + Body(keys, m))[..n])) != Ok(m)
  {
    PrefixOfConcat(head, Body(keys, m), n);
    ShortBehind(head, keys, m, n - |head|, (head + Body(keys, m))[..n]);
  }

  lemma ShortBehind(head: string, keys: seq<string>, m: Bindings, n: nat, text: string)
    requires SaysNothing(head) && NoDuplicates(keys) && keys != [] && AllFit(keys, m)
    requires n + 1 < |Body(keys, m)| && text == head + Body(keys, m)[..n]
    ensures Parse(Some(text)) != Ok(m)
  {
    ShortBody(keys, m, map[], n);
    ReadMisses(head, Body(keys, m)[..n], m, keys[|keys| - 1]);
  }

  lemma PrefixOfConcat(head: string, body: string, n: nat)
    requires n <= |head + body|
    ensures (head + body)[..n] == if n <= |head| then head[..n] else head + body[..n - |head|]
  {}

  lemma ReadMisses(head: string, left: string, m: Bindings, k: string)
    requires SaysNothing(head) && k in m
    requires Misses(ReadFrom(RawLines(left), map[]), k, m[k])
    ensures Parse(Some(head + left)) != Ok(m)
  {
    ReadBehind(head, left);
  }

  lemma ReadBehind(head: string, left: string)
    requires SaysNothing(head)
    ensures Parse(Some(head + left)) == ReadFrom(RawLines(left), map[])
  {
    RawLinesConcat(head, left);
    ReadConcat(RawLines(head), RawLines(left), map[]);
    assert head[..|head|] == head;
  }

  /** However far a rewrite got, the file gives the bindings if and only if all
      but the last newline is there, or there is nothing to give. */
  lemma ShortRewrite(header: Header, m: Bindings, n: nat)
    requires AllRecordable(m)
    ensures InStep(m, Some(Part(Render(header, m), n))) <==> n + 1 >= |Render(header, m)| || m == map[]
  {
    var keys := InOrder(m.Keys);
    assert forall k :: k in keys <==> k in Elements(keys);
    CommentsSayNothing(header);
    if n + 1 >= |Render(header, m)| {
      RewriteReadsBack(header, m);
      AlmostAll(Render(header, m), m, n);
    } else if m == map[] {
      assert keys == [] by { NoElements(keys); }
      assert Render(header, m) == Comments(header);
      assert Part(Comments(header), n) == Comments(header)[..n];
    } else {
      SortedHasNoDuplicates(keys);
      assert keys != [];
      ShortTable(Comments(header), keys, m, n);
    }
  }

  lemma AlmostAll(text: string, m: Bindings, n: nat)
    requires Parse(Some(text)) == Ok(m) && WholeLines(text) && n + 1 >= |text|
    ensures InStep(m, Some(Part(text, n)))
  {
    if n < |text| { AllButNewline(text, text[..n], m); }
  }

  lemma AllButNewline(text: string, most: string, m: Bindings)
    requires Parse(Some(text)) == Ok(m) && text == most + "\n"
    ensures InStep(m, Some(most))
  {
    LastNewline(most);
  }

  lemma LastNewline(text: string)
    ensures Parse(Some(text + "\n")) == Parse(Some(text))
  {
    var whole := TailPart(text);
    ReadLast(whole, Tail(text), map[]);
  }

  // ---- Runs, whatever becomes of their writes ----

  datatype Op = Claim(name: string, fp: string, write: Write) | Forget(name: string, write: Write)

  ghost function Step(header: Header, m: Bindings, file: Option<string>, op: Op): (Bindings, Option<string>) {
    match op
    case Claim(name, fp, write) =>
      (Bound(m, name, fp), if name in m then file else Extended(file, EntryLine(name, fp) + "\n", write))
    case Forget(name, write) =>
      (m - {name}, if name in m then Overwritten(file, Render(header, m - {name}), write) else file)
  }

  /** What an operation needs, to leave the file in step. */
  ghost predicate Needs(header: Header, m: Bindings, file: Option<string>, op: Op) {
    match op
    case Claim(name, fp, write) =>
      name !in m ==>
        write.Put? && ReadsBack(Content(file), name, fp, Part(EntryLine(name, fp) + "\n", write.n))
    case Forget(name, write) =>
      name in m ==>
        write.Put? && (write.n + 1 >= |Render(header, m - {name})| || m - {name} == map[])
  }

  lemma StepInStep(header: Header, m: Bindings, file: Option<string>, op: Op)
    requires InStep(m, file)
    ensures var (m', file') := Step(header, m, file, op); InStep(m', file') <==> Needs(header, m, file, op)
  {
    match op
    case Claim(name, fp, write) =>
      if name !in m {
        assert name in m[name := fp];
        if write.Put? { ClaimReadsBack(m, file, name, fp, write.n); }
      }
    case Forget(name, write) =>
      if name in m {
        ParseYieldsRecordable(file);
        if write.Put? { ShortRewrite(header, m - {name}, write.n); }
        assert name !in m - {name};
      } else {
        assert m - {name} == m;
      }
  }

  ghost predicate AllNeeds(header: Header, m: Bindings, file: Option<string>, ops: seq<Op>)
    decreases |ops|
  {
    ops == [] ||
      var (m', file') := Step(header, m, file, ops[0]);
      Needs(header, m, file, ops[0]) && AllNeeds(header, m', file', ops[1..])
  }

  ghost predicate AlwaysInStep(header: Header, m: Bindings, file: Option<string>, ops: seq<Op>)
    decreases |ops|
  {
    && InStep(m, file)
    && (ops == [] || var (m', file') := Step(header, m, file, ops[0]); AlwaysInStep(header, m', file', ops[1..]))
  }

  /** Over any run of claims and releases, on any file to begin with and
      whatever becomes of each write, re-opening gives exactly the bindings in
      memory at every moment if and only if each operation had what it needs. */
  lemma {:induction false} ReopeningGivesTheBindings(header: Header, m: Bindings, file: Option<string>, ops: seq<Op>)
    requires InStep(m, file)
    ensures AlwaysInStep(header, m, file, ops) <==> AllNeeds(header, m, file, ops)
    decreases |ops|
  {
    if ops != [] {
      var (m', file') := Step(header, m, file, ops[0]);
      StepInStep(header, m, file, ops[0]);
      if InStep(m', file') { ReopeningGivesTheBindings(header, m', file', ops[1..]); }
    }
  }

  /** A write that succeeds, of something that can be recorded. */
  ghost predicate Succeeds(header: Header, m: Bindings, op: Op) {
    match op
    case Claim(name, fp, write) =>
      name !in m ==> Recordable(name, fp) && write.Put? && write.n > |EntryLine(name, fp)|
    case Forget(name, write) =>
      name in m ==> write.Put? && write.n >= |Render(header, m - {name})|
  }

  ghost predicate AllSucceed(header: Header, m: Bindings, file: Option<string>, ops: seq<Op>)
    decreases |ops|
  {
    ops == [] ||
      var (m', file') := Step(header, m, file, ops[0]);
      Succeeds(header, m, ops[0]) && AllSucceed(header, m', file', ops[1..])
  }

  /** In particular when every write succeeds, on a file of whole lines. */
  lemma {:induction false} SuccessfulWritesStayInStep(header: Header, m: Bindings, file: Option<string>, ops: seq<Op>)
    requires InStep(m, file) && WholeLines(Content(file)) && AllSucceed(header, m, file, ops)
    ensures AlwaysInStep(header, m, file, ops)
    decreases |ops|
  {
    if ops != [] {
      var (m', file') := Step(header, m, file, ops[0]);
      SuccessHasWhatItNeeds(header, m, file, ops[0]);
      StepInStep(header, m, file, ops[0]);
      SuccessfulWritesStayInStep(header, m', file', ops[1..]);
    }
  }

  lemma SuccessHasWhatItNeeds(header: Header, m: Bindings, file: Option<string>, op: Op)
    requires InStep(m, file) && WholeLines(Content(file)) && Succeeds(header, m, op)
    ensures Needs(header, m, file, op) && WholeLines(Content(Step(header, m, file, op).1))
  {
    match op
    case Claim(name, fp, write) =>
      if name !in m { FullLineReadsBack(Content(file), name, fp, write.n); }
    case Forget(name, write) =>
      if name in m { FullRewriteIsWhole(header, m, file, name); }
  }

  lemma FullRewriteIsWhole(header: Header, m: Bindings, file: Option<string>, name: string)
    requires InStep(m, file)
    ensures WholeLines(Render(header, m - {name}))
  {
    ParseYieldsRecordable(file);
    RewriteReadsBack(header, m - {name});
  }

  lemma FullLineReadsBack(content: string, name: string, fp: string, n: nat)
    requires WholeLines(content) && Recordable(name, fp) && n > |EntryLine(name, fp)|
    ensures var put := Part(EntryLine(name, fp) + "\n", n);
      ReadsBack(content, name, fp, put) && WholeLines(content + put)
  {
    var line := EntryLine(name, fp);
    assert Part(line + "\n", n) == line + "\n" && Unended(line + "\n") == line;
    assert Tail(content) + line == line;
  }

  /** A rewrite that succeeds mends whatever came before: the file is in step
      again if and only if the remaining bindings are recordable. */
  lemma ForgetInStep(header: Header, m: Bindings, name: string)
    ensures InStep(m - {name}, Some(Render(header, m - {name}))) <==> AllRecordable(m - {name})
  {
    if AllRecordable(m - {name}) { RewriteReadsBack(header, m - {name}); }
    if InStep(m - {name}, Some(Render(header, m - {name}))) {
      ParseYieldsRecordable(Some(Render(header, m - {name})));
    }
  }

  /** A name that reads as a comment is granted, and gone after a restart. */
  lemma CommentNameIsLost(name: string, fp: string)
    requires name != "" && name[0] == '#'
    ensures Granted(map[], name, fp)
    ensures !InStep(map[name := fp], Some(EntryLine(name, fp) + "\n"))
  {
    ClaimInStep(map[], None, name, fp);
    assert map[][name := fp] == map[name := fp];
    assert Content(None) + (EntryLine(name, fp) + "\n") == EntryLine(name, fp) + "\n";
  }

  // ---- What a file means, line by line ----

  /** A line that binds name: it is no comment, has a space in it, and name is
      its first word. */
  predicate Binds(raw: string, name: string) {
    var l := TrimSpace(raw);
    l != "" && l[0] != '#' && ' ' in l && FirstWord(l, name)
  }

  lemma LineMeans(raw: string)
    ensures var l := ReadLine(CleanLine(raw));
      && (l.Entry? ==> Binds(raw, l.name) && l.fp == TrimSpace(TrimSpace(raw)[|l.name|..]))
      && (forall name :: Binds(raw, name) ==> l.Entry? && l.name == name)
  {
    CleanLineIsTrimmed(raw);
    FirstWordIsCut(TrimSpace(raw));
  }

  lemma {:induction false} LoadsUnlessALineIsTooLong(lines: seq<string>, m: Bindings)
    ensures ReadFrom(lines, m).Ok? <==> forall l :: l in lines ==> ByteLen(l) < MAX_SCAN_TOKEN
  {
    if lines != [] {
      assert lines[0] in lines && forall l :: l in lines ==> l == lines[0] || l in lines[1..];
      var l := ReadLine(CleanLine(lines[0]));
      LoadsUnlessALineIsTooLong(lines[1..], if l.Entry? then m[l.name := l.fp] else m);
    }
  }

  ghost predicate LastFor(lines: seq<string>, name: string, i: int) {
    0 <= i < |lines| && Binds(lines[i], name) && forall j :: i < j < |lines| ==> !Binds(lines[j], name)
  }

  lemma {:induction false} LastLineCounts(lines: seq<string>, m: Bindings, name: string)
    requires ReadFrom(lines, m).Ok?
    ensures var r := ReadFrom(lines, m).value;
      && (name in r <==> name in m || exists i :: 0 <= i < |lines| && Binds(lines[i], name))
      && (forall i :: LastFor(lines, name, i) ==> r[name] == TrimSpace(TrimSpace(lines[i])[|name|..]))
      && ((forall i :: 0 <= i < |lines| ==> !Binds(lines[i], name)) && name in m ==> r[name] == m[name])
  {
    if lines != [] {
      LineMeans(lines[0]);
      var l := ReadLine(CleanLine(lines[0]));
      var m' := if l.Entry? then m[l.name := l.fp] else m;
      var rest := lines[1..];
      LastLineCounts(rest, m', name);
      forall i | LastFor(lines, name, i)
        ensures ReadFrom(lines, m).value[name] == TrimSpace(TrimSpace(lines[i])[|name|..])
      {
        if i > 0 {
          assert LastFor(rest, name, i - 1);
        } else {
          assert forall j :: 0 <= j < |rest| ==> !Binds(rest[j], name) by {
            forall j | 0 <= j < |rest| ensures !Binds(rest[j], name) { assert rest[j] == lines[j + 1]; }
          }
        }
      }
      if i :| 0 <= i < |rest| && Binds(rest[i], name) { assert Binds(lines[i + 1], name); }
      if i :| 0 <= i < |lines| && Binds(lines[i], name) { if i > 0 { assert Binds(rest[i - 1], name); } }
    }
  }

  /** The meaning of a file, in terms of its lines alone: it loads unless a line
      is too long for the scanner; a name is bound if and only if some line binds
      it, to what the last such line says. */
  lemma FileMeans(content: string)
    ensures var lines := RawLines(content);
      && (Parse(Some(content)).Ok? <==> forall l :: l in lines ==> ByteLen(l) < MAX_SCAN_TOKEN)
      && (Parse(Some(content)).Ok? ==> forall name :: var m := Parse(Some(content)).value;
            && (name in m <==> exists i :: 0 <= i < |lines| && Binds(lines[i], name))
            && (forall i :: LastFor(lines, name, i) ==> m[name] == TrimSpace(TrimSpace(lines[i])[|name|..])))
  {
    var lines := RawLines(content);
    LoadsUnlessALineIsTooLong(lines, map[]);
    if Parse(Some(content)).Ok? {
      forall name
        ensures var m := Parse(Some(content)).value;
          && (name in m <==> exists i :: 0 <= i < |lines| && Binds(lines[i], name))
          && (forall i :: LastFor(lines, name, i) ==> m[name] == TrimSpace(TrimSpace(lines[i])[|name|..]))
      {
        LastLineCounts(lines, map[], name);
      }
    }
  }
}
