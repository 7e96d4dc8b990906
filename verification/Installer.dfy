/** Replacing the agent's binary: update and rollback as the installer does them
    with cp, mv and rm, each of which may fail, and any run of which may be cut
    off after any of its effects. */
module Installer {
  import opened Prelude
  import opened GoText
  import opened FileSystem

  datatype Name = Bin | New | Prev | PrevTmp | RollbackTmp | Manifest | ManifestTmp

  type Host = Machine<Name>

  /** want: the hash the script expects, "" when it has none for the platform. */
  datatype Source = Pushed(file: Option<string>) | Fetched(want: string, served: string)

  /** version: what the manifest is to say. sameCA, current: what sourcing the
      manifest has told the script about a fetched update. */
  datatype Command =
    | Update(source: Source, version: string, sameCA: bool, current: bool)
    | Rollback

  type Hash = string -> string

  function Offered(source: Source): Option<string> {
    match source
    case Pushed(file) => file
    case Fetched(_, served) => Some(served)
  }

  /** Brought by the operator, or of the hash expected. */
  predicate Vouched(hash: Hash, source: Source, content: string) {
    match source
    case Pushed(file) => file == Some(content)
    case Fetched(want, _) => want != "" && hash(content) == want
  }

  predicate Acceptable(hash: Hash, source: Source) {
    Offered(source).Some? && Vouched(hash, source, Offered(source).value)
  }

  // ---- The manifest ----

  const VERSION_KEY := "M_VERSION="
  const ROLLED_BACK := "rolled-back"

  function StampLine(line: string, v: string): string {
    if HasPrefix(line, VERSION_KEY) then VERSION_KEY + "'" + v + "'" else line
  }

  /** The manifest, line by line, with another version. */
  function Stamped(text: string, v: string): string
    decreases |text|
  {
    var r := Cut(text, '\n');
    if r.found then StampLine(r.before, v) + ['\n'] + Stamped(r.after, v) else StampLine(r.before, v)
  }

  function Lines(text: string): seq<string>
    decreases |text|
  {
    var r := Cut(text, '\n');
    [r.before] + if r.found then Lines(r.after) else []
  }

  /** Lines are the text cut at its newlines, and nothing else. */
  lemma {:induction false} LinesAreTheText(text: string)
    ensures Joined(Lines(text)) == text && forall l :: l in Lines(text) ==> '\n' !in l
    decreases |text|
  {
    var r := Cut(text, '\n');
    CutParts(text, '\n');
    if r.found { LinesAreTheText(r.after); }
  }

  function Joined(lines: seq<string>): string
    requires lines != []
  {
    if |lines| == 1 then lines[0] else lines[0] + ['\n'] + Joined(lines[1..])
  }

  lemma StampLineIsOneLine(line: string, v: string)
    requires '\n' !in line && '\n' !in v
    ensures '\n' !in StampLine(line, v)
  {}

  /** A line of the manifest, before and after its version is set to v: a line
      that begins with the key is replaced, any other is as it was. */
  predicate LineFits(line: string, line': string, v: string) {
    line' == if "M_VERSION=" <= line then "M_VERSION='" + v + "'" else line
  }

  predicate Restamped(text: string, text': string, v: string) {
    && |Lines(text')| == |Lines(text)|
    && forall i :: 0 <= i < |Lines(text)| ==> LineFits(Lines(text)[i], Lines(text')[i], v)
  }

  lemma StampLineFits(line: string, v: string)
    ensures LineFits(line, StampLine(line, v), v)
  {
    assert VERSION_KEY + "'" == "M_VERSION='";
  }

  /** Just the version lines are rewritten; all others stand where they stood. */
  lemma {:induction false} StampedLineByLine(text: string, v: string)
    requires '\n' !in v
    ensures Restamped(text, Stamped(text, v), v)
    decreases |text|
  {
    CutParts(text, '\n');
    var r := Cut(text, '\n');
    var line := StampLine(r.before, v);
    StampLineIsOneLine(r.before, v);
    StampLineFits(r.before, v);
    if r.found {
      StampedLineByLine(r.after, v);
      CutAt(line, '\n', Stamped(r.after, v));
      assert Lines(line + ['\n'] + Stamped(r.after, v)) == [line] + Lines(Stamped(r.after, v));
    } else {
      CutAbsent(line, '\n');
    }
  }

  // ---- Single operations ----

  /** Every name has an inode of its own, so that writing through one changes no other. */
  ghost predicate Good(d: Disk<Name>) {
    && Sound(d)
    && forall m, n :: m in d.entries && n in d.entries && m != n ==> d.entries[m] != d.entries[n]
  }

  ghost predicate SameBut(was: Disk<Name>, d: Disk<Name>, name: Name) {
    forall n :: n != name ==> File(d, n) == File(was, n)
  }

  /** The trail ends where the disk is. */
  predicate Shown(host: Host)
    reads host
  {
    |host.trail| > 0 && host.trail[|host.trail| - 1] == host.disk
  }

  lemma PartWrittenIsGood(was: Disk<Name>, name: Name, text: string, d: Disk<Name>)
    requires Good(was) && name in was.entries && PartWritten(was, was.entries[name], text, d)
    ensures Good(d) && SameBut(was, d, name)
  {}

  /** cp, curl -o or a shell redirection: the target is emptied, or made, and
      then filled bit by bit. */
  method Fill(host: Host, name: Name, text: string) returns (ok: bool)
    requires Good(host.disk) && Shown(host)
    modifies host
    ensures old(host.trail) <= host.trail && Good(host.disk) && Shown(host)
    ensures SameBut(old(host.disk), host.disk, name)
    ensures forall k :: |old(host.trail)| <= k < |host.trail| ==>
              Good(host.trail[k]) && SameBut(old(host.disk), host.trail[k], name)
    ensures ok ==> File(host.disk, name) == Some(text)
    ensures ok <==> host.faults == old(host.faults)
    ensures host.faults >= old(host.faults)
  {
    ghost var was := host.disk;
    ok := host.OpenEmpty(name);
    if !ok { return; }
    ghost var emptied, before := host.disk, |host.trail|;
    assert Good(emptied) && SameBut(was, emptied, name);
    var i := host.disk.entries[name];
    assert emptied.data[i] + text == text;
    ok := host.Write(i, text);
    PartWrittenIsGood(emptied, name, text, host.disk);
    forall k | before <= k < |host.trail|
      ensures Good(host.trail[k]) && SameBut(was, host.trail[k], name)
    {
      PartWrittenIsGood(emptied, name, text, host.trail[k]);
    }
  }

  /** mv within a directory. */
  method Move(host: Host, from: Name, to: Name) returns (ok: bool)
    requires Good(host.disk) && Shown(host) && from != to
    modifies host
    ensures Good(host.disk) && Shown(host)
    ensures ok ==> host.trail == old(host.trail) + [host.disk]
    ensures ok ==> File(host.disk, from) == None && File(host.disk, to) == File(old(host.disk), from)
    ensures ok ==> forall n :: n != from && n != to ==> File(host.disk, n) == File(old(host.disk), n)
    ensures !ok ==> host.disk == old(host.disk) && host.trail == old(host.trail)
    ensures host.faults == old(host.faults) + if ok || from !in old(host.disk.entries) then 0 else 1
  {
    ok := host.Rename(from, to);
  }

  method Discard(host: Host, name: Name)
    requires Good(host.disk) && Shown(host)
    modifies host
    ensures old(host.trail) <= host.trail && Good(host.disk) && Shown(host)
    ensures SameBut(old(host.disk), host.disk, name)
    ensures forall k :: |old(host.trail)| <= k < |host.trail| ==> host.trail[k] == host.disk
    ensures host.faults >= old(host.faults)
  {
    var ok := host.Remove(name);
  }

  // ---- What a run may show at any moment ----

  function Version(cmd: Command): string {
    if cmd.Update? then cmd.version else ROLLED_BACK
  }

  predicate BinaryFits(hash: Hash, was: Disk<Name>, d: Disk<Name>, cmd: Command) {
    || File(d, Bin) == File(was, Bin)
    || (&& File(d, Bin).Some?
        && match cmd
           case Update(source, _, _, _) => File(d, Bin) == Offered(source) && Vouched(hash, source, File(d, Bin).value)
           case Rollback => File(d, Bin) == File(was, Prev))
  }

  predicate PreviousFits(was: Disk<Name>, d: Disk<Name>, cmd: Command) {
    || File(d, Prev) == File(was, Prev)
    || (cmd.Update? && File(d, Prev) == File(was, Bin))
  }

  predicate NewManifest(was: Disk<Name>, d: Disk<Name>, v: string) {
    && File(was, Manifest).Some? && File(d, Manifest) == Some(Stamped(File(was, Manifest).value, v))
    && ('\n' !in v ==> Restamped(File(was, Manifest).value, File(d, Manifest).value, v))
  }

  predicate ManifestFits(was: Disk<Name>, d: Disk<Name>, cmd: Command) {
    || File(d, Manifest) == File(was, Manifest)
    || NewManifest(was, d, Version(cmd))
  }

  /** d can be met during a run of cmd that found the disk as was. */
  ghost predicate During(hash: Hash, was: Disk<Name>, d: Disk<Name>, cmd: Command) {
    && Good(d) && BinaryFits(hash, was, d, cmd) && PreviousFits(was, d, cmd) && ManifestFits(was, d, cmd)
  }

  ghost predicate AllDuring(hash: Hash, was: Disk<Name>, trail: seq<Disk<Name>>, from: nat, cmd: Command) {
    forall k :: from <= k < |trail| ==> During(hash, was, trail[k], cmd)
  }

  // ---- The steps of an update ----

  /** There is something installed, and an update to apply. */
  predicate Applies(d: Disk<Name>, cmd: Command) {
    File(d, Manifest).Some? && cmd.Update? && (cmd.source.Fetched? ==> cmd.sameCA && !cmd.current)
  }

  /** The new binary, checked, under its scratch name. */
  method Obtain(host: Host, hash: Hash, source: Source) returns (ok: bool)
    requires Good(host.disk) && Shown(host)
    modifies host
    ensures old(host.trail) <= host.trail && Good(host.disk) && Shown(host)
    ensures SameBut(old(host.disk), host.disk, New)
    ensures forall k :: |old(host.trail)| <= k < |host.trail| ==>
              Good(host.trail[k]) && SameBut(old(host.disk), host.trail[k], New)
    ensures ok ==> File(host.disk, New) == Offered(source) && Offered(source).Some?
    ensures ok ==> Vouched(hash, source, Offered(source).value)
    ensures host.faults >= old(host.faults)
    ensures host.faults == old(host.faults) ==> ok == Acceptable(hash, source)
  {
    match source
    case Pushed(file) =>
      if file.None? { return false; }
      ok := Fill(host, New, file.value);
      if !ok { Discard(host, New); }
    case Fetched(want, served) =>
      if want == "" { return false; }
      ok := Fill(host, New, served);
      if !ok { Discard(host, New); return; }
      var got := Hashed(host, hash);
      if got == "" { Discard(host, New); return false; }
      if got != want { Discard(host, New); return false; }
  }

  /** sha256_of: empty when the machine has no hasher. */
  method Hashed(host: Host, hash: Hash) returns (got: string)
    requires File(host.disk, New).Some?
    modifies host
    ensures host.disk == old(host.disk) && host.trail == old(host.trail)
    ensures host.faults >= old(host.faults)
    ensures got != "" || host.faults == old(host.faults) ==>
              File(host.disk, New).Some? && got == hash(File(host.disk, New).value)
  {
    got := "";
    var hasher := host.Attempt();
    var file := File(host.disk, New);
    if hasher && file.Some? { got := hash(file.value); }
  }

  /** Keeping the outgoing binary. A failed copy is passed over; a failed rename is not. */
  method SaveOutgoing(host: Host) returns (ok: bool, saved: bool)
    requires Good(host.disk) && Shown(host)
    modifies host
    ensures old(host.trail) <= host.trail && Good(host.disk) && Shown(host)
    ensures forall n :: n != Prev && n != PrevTmp ==> File(host.disk, n) == File(old(host.disk), n)
    ensures forall k :: |old(host.trail)| <= k < |host.trail| ==>
              && Good(host.trail[k])
              && forall n :: n != Prev && n != PrevTmp ==> File(host.trail[k], n) == File(old(host.disk), n)
    ensures forall k :: |old(host.trail)| <= k < |host.trail| ==>
              || File(host.trail[k], Prev) == File(old(host.disk), Prev)
              || File(host.trail[k], Prev) == File(old(host.disk), Bin)
    ensures File(host.disk, Prev) == File(old(host.disk), if saved then Bin else Prev)
    ensures host.faults >= old(host.faults)
    ensures host.faults == old(host.faults) ==> ok && saved == File(old(host.disk), Bin).Some?
  {
    saved := false;
    var outgoing := File(host.disk, Bin);
    if outgoing.None? { return true, false; }
    var copied := Fill(host, PrevTmp, outgoing.value);
    if !copied { return true, false; }
    ok := Move(host, PrevTmp, Prev);
    saved := ok;
  }

  /** The outgoing binary is saved before the new one takes its name. */
  method PutInPlace(host: Host) returns (ok: bool, saved: bool)
    requires Good(host.disk) && Shown(host) && File(host.disk, New).Some?
    modifies host
    ensures old(host.trail) <= host.trail && Good(host.disk) && Shown(host)
    ensures forall k :: |old(host.trail)| <= k < |host.trail| ==> SwapFits(old(host.disk), host.trail[k])
    ensures SwapFits(old(host.disk), host.disk)
    ensures File(host.disk, Prev) == File(old(host.disk), if saved then Bin else Prev)
    ensures File(host.disk, Bin) == File(old(host.disk), if ok then New else Bin)
    ensures host.faults >= old(host.faults)
    ensures host.faults == old(host.faults) ==> ok && saved == File(old(host.disk), Bin).Some?
  {
    ok, saved := SaveOutgoing(host);
    if !ok { return; }
    ok := Move(host, New, Bin);
  }

  ghost predicate SwapFits(was: Disk<Name>, d: Disk<Name>) {
    && Good(d) && File(d, Manifest) == File(was, Manifest)
    && (File(d, Bin) == File(was, Bin) || File(d, Bin) == File(was, New))
    && (File(d, Prev) == File(was, Prev) || File(d, Prev) == File(was, Bin))
  }

  /** download_binary. saved: the outgoing binary is at its .prev name now. */
  method DownloadBinary(host: Host, hash: Hash, cmd: Command) returns (ok: bool, saved: bool)
    requires Good(host.disk) && Shown(host) && cmd.Update?
    modifies host
    ensures old(host.trail) <= host.trail && Shown(host) && During(hash, old(host.disk), host.disk, cmd)
    ensures AllDuring(hash, old(host.disk), host.trail, |old(host.trail)|, cmd)
    ensures File(host.disk, Manifest) == File(old(host.disk), Manifest)
    ensures File(host.disk, Prev) == File(old(host.disk), if saved then Bin else Prev)
    ensures ok ==> File(host.disk, Bin) == Offered(cmd.source) && Acceptable(hash, cmd.source)
    ensures !ok ==> File(host.disk, Bin) == File(old(host.disk), Bin)
    ensures host.faults >= old(host.faults)
    ensures host.faults == old(host.faults) ==> ok == Acceptable(hash, cmd.source)
    ensures host.faults == old(host.faults) && ok ==> saved == File(old(host.disk), Bin).Some?
  {
    saved := false;
    ok := Obtain(host, hash, cmd.source);
    if !ok { return; }
    ok := host.Attempt();  // chmod
    if !ok { return; }
    ok, saved := PutInPlace(host);
  }

  /** set_manifest_version. */
  method SetManifestVersion(host: Host, v: string) returns (ok: bool)
    requires Good(host.disk) && Shown(host)
    modifies host
    ensures old(host.trail) <= host.trail && Good(host.disk) && Shown(host)
    ensures forall n :: n != Manifest && n != ManifestTmp ==> File(host.disk, n) == File(old(host.disk), n)
    ensures forall k :: |old(host.trail)| <= k < |host.trail| ==>
              && Good(host.trail[k])
              && forall n :: n != Manifest && n != ManifestTmp ==> File(host.trail[k], n) == File(old(host.disk), n)
    ensures forall k :: |old(host.trail)| <= k < |host.trail| ==>
              || File(host.trail[k], Manifest) == File(old(host.disk), Manifest)
              || NewManifest(old(host.disk), host.trail[k], v)
    ensures ok ==> NewManifest(old(host.disk), host.disk, v)
    ensures !ok ==> File(host.disk, Manifest) == File(old(host.disk), Manifest)
    ensures host.faults >= old(host.faults)
    ensures host.faults == old(host.faults) ==> ok == File(old(host.disk), Manifest).Some?
  {
    var text := File(host.disk, Manifest);
    if text.None? { return false; }
    if '\n' !in v { StampedLineByLine(text.value, v); }
    ok := Fill(host, ManifestTmp, Stamped(text.value, v));
    if !ok { return; }
    ok := Move(host, ManifestTmp, Manifest);
  }

  // ---- Whole runs ----

  /** The update block. installed: it put another binary in place. saved: it
      left the outgoing one at its .prev name. */
  method RunUpdate(host: Host, hash: Hash, cmd: Command) returns (ok: bool, installed: bool, saved: bool)
    requires Good(host.disk) && Shown(host) && cmd.Update?
    modifies host
    ensures old(host.trail) <= host.trail && Shown(host) && During(hash, old(host.disk), host.disk, cmd)
    ensures AllDuring(hash, old(host.disk), host.trail, |old(host.trail)|, cmd)
    ensures File(host.disk, Prev) == File(old(host.disk), if saved then Bin else Prev)
    ensures File(host.disk, Bin) == if installed then Offered(cmd.source) else File(old(host.disk), Bin)
    ensures installed ==> Applies(old(host.disk), cmd) && Acceptable(hash, cmd.source)
    ensures installed && cmd.source.Fetched? ==>
              && cmd.sameCA && !cmd.current
              && cmd.source.want != "" && hash(cmd.source.served) == cmd.source.want
    ensures installed ==>
              && File(old(host.disk), Manifest).Some?
              && File(host.disk, Bin) == if cmd.source.Pushed? then cmd.source.file else Some(cmd.source.served)
    ensures ok ==> Applies(old(host.disk), cmd) || (cmd.source.Fetched? && cmd.current)
    ensures ok && Applies(old(host.disk), cmd) ==> installed && NewManifest(old(host.disk), host.disk, cmd.version)
    ensures host.faults >= old(host.faults)
    ensures host.faults == old(host.faults) && Applies(old(host.disk), cmd)
            ==> ok == installed == Acceptable(hash, cmd.source)
    ensures host.faults == old(host.faults) && installed ==> saved == File(old(host.disk), Bin).Some?
  {
    ok, installed, saved := false, false, false;
    var manifest := File(host.disk, Manifest);
    if manifest.None? { return; }
    if cmd.source.Fetched? {
      if !cmd.sameCA { return; }
      if cmd.current { ok := true; return; }
    }
    installed, saved := DownloadBinary(host, hash, cmd);
    if !installed { return; }
    ok := SetManifestVersion(host, cmd.version);
  }

  /** The saved binary goes back by way of a copy, so it stays saved. */
  method SwapBack(host: Host) returns (ok: bool)
    requires Good(host.disk) && Shown(host)
    modifies host
    ensures old(host.trail) <= host.trail && Shown(host) && Good(host.disk)
    ensures forall k :: |old(host.trail)| <= k < |host.trail| ==> Good(host.trail[k])
    ensures forall k, n :: |old(host.trail)| <= k < |host.trail| && n != Bin && n != RollbackTmp ==>
              File(host.trail[k], n) == File(old(host.disk), n)
    ensures forall k :: |old(host.trail)| <= k < |host.trail| ==>
              || File(host.trail[k], Bin) == File(old(host.disk), Bin)
              || (File(host.trail[k], Bin) == File(old(host.disk), Prev) && File(host.trail[k], Bin).Some?)
    ensures forall n :: n != Bin && n != RollbackTmp ==> File(host.disk, n) == File(old(host.disk), n)
    ensures File(host.disk, Bin) == File(old(host.disk), if ok then Prev else Bin)
    ensures ok ==> File(host.disk, Bin).Some?
    ensures host.faults >= old(host.faults)
    ensures host.faults == old(host.faults) ==> ok == File(old(host.disk), Prev).Some?
  {
    var prev := File(host.disk, Prev);
    if prev.None? { return false; }
    ok := Fill(host, RollbackTmp, prev.value);
    if !ok { return; }
    ok := Move(host, RollbackTmp, Bin);
  }

  /** The rollback block. */
  method RunRollback(host: Host, hash: Hash) returns (ok: bool, installed: bool)
    requires Good(host.disk) && Shown(host)
    modifies host
    ensures old(host.trail) <= host.trail && Shown(host) && During(hash, old(host.disk), host.disk, Rollback)
    ensures AllDuring(hash, old(host.disk), host.trail, |old(host.trail)|, Rollback)
    ensures File(host.disk, Prev) == File(old(host.disk), Prev)
    ensures File(host.disk, Bin) == File(old(host.disk), if installed then Prev else Bin)
    ensures installed ==> File(host.disk, Bin).Some?
    ensures ok ==> installed && NewManifest(old(host.disk), host.disk, ROLLED_BACK)
    ensures host.faults >= old(host.faults)
    ensures host.faults == old(host.faults) ==>
              ok == (File(old(host.disk), Manifest).Some? && File(old(host.disk), Prev).Some?)
  {
    ok, installed := false, false;
    if File(host.disk, Manifest).None? || File(host.disk, Prev).None? { return; }
    installed := SwapBack(host);
    if !installed { return; }
    ok := SetManifestVersion(host, ROLLED_BACK);
  }

  // ---- Any number of runs, each cut off anywhere ----

  /** Pushed, or of the hash a script expected. */
  ghost predicate Brought(hash: Hash, source: Source, x: string) {
    || source == Pushed(Some(x))
    || (source.Fetched? && source.want != "" && hash(x) == source.want)
  }

  /** Came with the machine, or was brought by one of the commands. */
  ghost predicate Known(hash: Hash, start: Disk<Name>, cmds: seq<Command>, x: Option<string>) {
    && x.Some?
    && (|| x == File(start, Bin)
        || x == File(start, Prev)
        || exists cmd :: cmd in cmds && cmd.Update? && Brought(hash, cmd.source, x.value))
  }

  /** Was the binary at some moment from the start on. */
  ghost predicate Former(trail: seq<Disk<Name>>, from: nat, k: nat, x: Option<string>)
    requires k < |trail|
  {
    exists j :: from <= j <= k && File(trail[j], Bin) == x
  }

  /** The binary is there, whole and known; a .prev is one that was in place once,
      if it is not the one found at the start; a manifest does not disappear. */
  ghost predicate Sane(hash: Hash, cmds: seq<Command>, trail: seq<Disk<Name>>, from: nat, k: nat)
    requires from < |trail| && k < |trail|
  {
    && Good(trail[k])
    && Known(hash, trail[from], cmds, File(trail[k], Bin))
    && (File(trail[k], Prev) == File(trail[from], Prev) || Former(trail, from, k, File(trail[k], Prev)))
    && (File(trail[k], Manifest).Some? <==> File(trail[from], Manifest).Some?)
  }

  ghost predicate AllSane(hash: Hash, cmds: seq<Command>, trail: seq<Disk<Name>>, from: nat)
    requires from < |trail|
  {
    forall k :: from <= k < |trail| ==> Sane(hash, cmds, trail, from, k)
  }

  lemma DuringIsSane(hash: Hash, cmds: seq<Command>, cmd: Command, trail: seq<Disk<Name>>, from: nat, mid: nat, k: nat)
    requires from <= mid < k < |trail| && cmd in cmds
    requires forall j :: from <= j <= mid ==> Sane(hash, cmds, trail, from, j)
    requires During(hash, trail[mid], trail[k], cmd)
    ensures Sane(hash, cmds, trail, from, k)
  {
    assert Sane(hash, cmds, trail, from, mid);
    if File(trail[mid], Prev) != File(trail[from], Prev) {
      var j :| from <= j <= mid && File(trail[j], Bin) == File(trail[mid], Prev);
      assert Sane(hash, cmds, trail, from, j);
      assert Former(trail, from, k, File(trail[mid], Prev));
    }
    assert Former(trail, from, k, File(trail[mid], Bin));
  }

  lemma SanityOfPrefixes(hash: Hash, cmds: seq<Command>, was: seq<Disk<Name>>, now: seq<Disk<Name>>, from: nat, k: nat)
    requires from <= k < |was| && k < |now| && (was <= now || now <= was) && Sane(hash, cmds, was, from, k)
    ensures Sane(hash, cmds, now, from, k)
  {
    if Former(was, from, k, File(was[k], Prev)) {
      var j :| from <= j <= k && File(was[j], Bin) == File(was[k], Prev);
      assert File(now[j], Bin) == File(now[k], Prev);
    }
  }

  method Run(host: Host, hash: Hash, cmd: Command) returns (ok: bool)
    requires Good(host.disk) && Shown(host)
    modifies host
    ensures old(host.trail) <= host.trail && Shown(host)
    ensures AllDuring(hash, old(host.disk), host.trail, |old(host.trail)|, cmd)
  {
    var installed, saved;
    if cmd.Update? { ok, installed, saved := RunUpdate(host, hash, cmd); }
    else { ok, installed := RunRollback(host, hash); }
  }

  /** A run that was cut off after any of its effects, or not at all. */
  method CutOff(host: Host, from: nat)
    requires from < |host.trail|
    modifies host
    ensures host.trail <= old(host.trail) && |host.trail| > from && Shown(host)
    ensures host.faults == old(host.faults)
  {
    var last :| from <= last < |host.trail|;
    host.disk, host.trail := host.trail[last], host.trail[..last + 1];
  }

  /** Whatever is run, whatever fails and wherever each run is cut off: at no
      moment is the machine without a whole, known binary. */
  method Life(host: Host, hash: Hash, cmds: seq<Command>)
    requires Good(host.disk) && Shown(host) && File(host.disk, Bin).Some?
    modifies host
    ensures old(host.trail) <= host.trail && Shown(host)
    ensures AllSane(hash, cmds, host.trail, |old(host.trail)| - 1)
  {
    ghost var from := |host.trail| - 1;
    assert Former(host.trail, from, from, File(host.disk, Bin));
    assert Sane(hash, cmds, host.trail, from, from);
    for n := 0 to |cmds|
      invariant old(host.trail) <= host.trail && Shown(host)
      invariant AllSane(hash, cmds, host.trail, from)
    {
      OneRun(host, hash, cmds, cmds[n], from);
    }
  }

  method OneRun(host: Host, hash: Hash, ghost cmds: seq<Command>, cmd: Command, ghost from: nat)
    requires from < |host.trail| && Shown(host) && AllSane(hash, cmds, host.trail, from) && cmd in cmds
    modifies host
    ensures old(host.trail) <= host.trail && Shown(host)
    ensures AllSane(hash, cmds, host.trail, from)
  {
    ghost var before := host.trail;
    var mid := |host.trail| - 1;
    assert Sane(hash, cmds, host.trail, from, mid);
    var ok := Run(host, hash, cmd);
    ghost var after := host.trail;
    forall k | from <= k <= mid ensures Sane(hash, cmds, after, from, k) {
      SanityOfPrefixes(hash, cmds, before, after, from, k);
    }
    forall k | mid < k < |after| ensures Sane(hash, cmds, after, from, k) {
      DuringIsSane(hash, cmds, cmd, after, from, mid, k);
    }
    CutOff(host, mid);
    forall k | from <= k < |host.trail| ensures Sane(hash, cmds, host.trail, from, k) {
      SanityOfPrefixes(hash, cmds, after, host.trail, from, k);
    }
  }

  // ---- There and back ----

  /** An update and then a rollback: what is in place afterwards is the binary
      there was, if the update saved it, and else the one saved before it. When
      nothing fails, an update that applies saves it. */
  method ThereAndBack(host: Host, hash: Hash, cmd: Command) returns (up: bool, saved: bool, down: bool)
    requires Good(host.disk) && Shown(host) && cmd.Update? && File(host.disk, Bin).Some?
    modifies host
    ensures down ==> File(host.disk, Bin) == File(old(host.disk), if saved then Bin else Prev)
    ensures host.faults == old(host.faults) && Applies(old(host.disk), cmd)
            ==> up == Acceptable(hash, cmd.source) && (up ==> saved && down)
  {
    var installed;
    up, installed, saved := RunUpdate(host, hash, cmd);
    down, installed := RunRollback(host, hash);
  }

  /** An update cut off at any moment, and then run again with the same binary.
      inPlace and kept: what the cut left in place, and at the .prev name. If the
      second run saves, .prev then holds the original binary if and only if that
      was still in place, an offered binary that equals it included; if it does
      not save, if and only if .prev held it already. When it saves another, both
      names hold the offered one, and the original is gone. */
  method RerunAfterACut(host: Host, hash: Hash, cmd: Command, again: Command)
    returns (inPlace: Option<string>, kept: Option<string>, ok: bool, saved: bool)
    requires Good(host.disk) && Shown(host) && cmd.Update? && File(host.disk, Bin).Some?
    requires again.Update? && again.source == cmd.source
    modifies host
    ensures inPlace == File(old(host.disk), Bin) || inPlace == Offered(cmd.source)
    ensures kept == File(old(host.disk), Prev) || kept == File(old(host.disk), Bin)
    ensures File(host.disk, Prev) == File(old(host.disk), Bin)
            <==> (if saved then inPlace else kept) == File(old(host.disk), Bin)
    ensures saved && inPlace != File(old(host.disk), Bin) ==>
              File(host.disk, Prev) == Offered(cmd.source) && File(host.disk, Bin) == Offered(cmd.source)
    ensures !saved ==> File(host.disk, Prev) == kept
    ensures ok && (again.source.Fetched? ==> !again.current) ==> File(host.disk, Bin) == Offered(cmd.source)
    ensures host.faults == old(host.faults) && Applies(old(host.disk), again) && Acceptable(hash, cmd.source)
            ==> ok && saved
  {
    ghost var was, from := host.disk, |host.trail|;
    var mid := |host.trail| - 1;
    var installed;
    ok, installed, saved := RunUpdate(host, hash, cmd);
    CutOff(host, mid);
    assert host.trail[mid] == was;
    assert |host.trail| > from ==> During(hash, was, host.disk, cmd);
    inPlace, kept := File(host.disk, Bin), File(host.disk, Prev);
    ok, installed, saved := RunUpdate(host, hash, again);
  }
}
