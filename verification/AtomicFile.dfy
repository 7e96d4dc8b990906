/** Replacing a file so that neither a reader nor a crash at any moment finds
    anything but the whole old file or the whole new one. */
module AtomicFile {
  import opened Prelude
  import opened FileSystem

  /** os.CreateTemp, in the file's own directory. */
  function TempName(base: string, random: string): (tmp: string)
    ensures tmp != base
  {
    ".tmp-" + base + "-" + random
  }

  /** Nothing that was on the disk has been written to. */
  ghost predicate OldDataKept(was: Disk<string>, d: Disk<string>) {
    && was.data <= d.data
    && forall i :: 0 <= i < |was.data| ==> (i in d.dirty <==> i in was.dirty)
  }

  ghost predicate Untouched(was: Disk<string>, d: Disk<string>, name: string) {
    && OldDataKept(was, d)
    && Entry(d, name) == Entry(was, name)
    && MayBe(d, name) == MayBe(was, name)
  }

  /** The name stands for a new inode, synced, that holds text. */
  ghost predicate Replaced(was: Disk<string>, d: Disk<string>, name: string, text: string) {
    && OldDataKept(was, d)
    && name in d.entries
    && |was.data| <= d.entries[name] < |d.data|
    && d.entries[name] !in d.dirty
    && d.data[d.entries[name]] == text
    && MayBe(d, name) <= MayBe(was, name) + {Some(d.entries[name])}
  }

  /** Old or new, for readers now and after a crash now. */
  ghost predicate Safe(was: Disk<string>, d: Disk<string>, name: string, text: string) {
    && (File(d, name) == File(was, name) || File(d, name) == Some(text))
    && (forall x :: CouldLeave(d, name, x) ==> CouldLeave(was, name, x) || x == Some(text))
  }

  lemma UntouchedOrReplacedIsSafe(was: Disk<string>, d: Disk<string>, name: string, text: string)
    requires Sound(was)
    requires Untouched(was, d, name) || Replaced(was, d, name, text)
    ensures Safe(was, d, name, text)
  {
    forall x | CouldLeave(d, name, x)
      ensures CouldLeave(was, name, x) || x == Some(text)
    {
      var e :| e in MayBe(d, name) && Holds(d, e, x);
      if e in MayBe(was, name) {
        assert Holds(was, e, x);
      }
    }
  }

  /** At most inode i differs. */
  ghost predicate OnlyInode(was: Disk<string>, d: Disk<string>, i: nat) {
    && d.entries == was.entries && d.past == was.past && |d.data| == |was.data|
    && (forall j :: 0 <= j < |was.data| && j != i ==> d.data[j] == was.data[j])
    && (forall j :: 0 <= j < |was.data| && j != i ==> (j in d.dirty <==> j in was.dirty))
  }

  lemma NewInodeOnly(was: Disk<string>, tmp: string, d: Disk<string>, name: string)
    requires name != tmp && OnlyInode(Created(was, tmp), d, |was.data|)
    ensures Untouched(was, d, name)
  {
    assert forall i :: 0 <= i < |was.data| ==> d.data[i] == Created(was, tmp).data[i];
  }

  lemma RenamedReplaces(was: Disk<string>, d: Disk<string>, tmp: string, name: string, text: string)
    requires name != tmp && Untouched(was, d, name)
    requires tmp in d.entries && |was.data| <= d.entries[tmp] < |d.data|
    requires d.entries[tmp] !in d.dirty && d.data[d.entries[tmp]] == text
    ensures Replaced(was, Renamed(d, tmp, name), name, text)
  {}

  lemma DurableMeansSettled(was: Disk<string>, d: Disk<string>, name: string, text: string)
    requires Replaced(was, d, name, text) && name !in d.past
    ensures forall x :: CouldLeave(d, name, x) <==> x == Some(text)
  {
    assert Holds(d, Entry(d, name), Some(text));
  }

  /** What happens to the new file before it is renamed: its mode is set, it is
      written, synced and closed. */
  method FillAndSync(fs: Machine<string>, i: nat, text: string) returns (ok: bool)
    requires i < |fs.disk.data| && i in fs.disk.dirty && fs.disk.data[i] == ""
    modifies fs
    ensures old(fs.trail) <= fs.trail
    ensures forall k :: |old(fs.trail)| <= k < |fs.trail| ==> OnlyInode(old(fs.disk), fs.trail[k], i)
    ensures OnlyInode(old(fs.disk), fs.disk, i)
    ensures ok ==> i !in fs.disk.dirty && fs.disk.data[i] == text
    ensures ok <==> fs.faults == old(fs.faults)
    ensures fs.faults >= old(fs.faults)
  {
    ok := fs.Attempt();  // Chmod
    if !ok { return; }
    ok := fs.Write(i, text);
    if !ok { return; }
    ok := fs.Sync(i);
    if !ok { return; }
    ok := fs.Attempt();  // Close
  }

  /** The rename, and syncing the directory if that can be done. */
  method SwapIn(fs: Machine<string>, ghost was: Disk<string>, tmp: string, base: string, text: string)
    returns (ok: bool, durable: bool)
    requires Sound(was) && base != tmp && Untouched(was, fs.disk, base)
    requires tmp in fs.disk.entries && |was.data| <= fs.disk.entries[tmp] < |fs.disk.data|
    requires fs.disk.entries[tmp] !in fs.disk.dirty && fs.disk.data[fs.disk.entries[tmp]] == text
    modifies fs
    ensures old(fs.trail) <= fs.trail
    ensures forall k :: |old(fs.trail)| <= k < |fs.trail| ==> Safe(was, fs.trail[k], base, text)
    ensures fs.disk.entries ==
      if ok then (old(fs.disk.entries) - {tmp})[base := old(fs.disk.entries[tmp])] else old(fs.disk.entries)
    ensures ok ==> Replaced(was, fs.disk, base, text)
    ensures ok && durable ==> base !in fs.disk.past
    ensures !ok ==> fs.disk == old(fs.disk) && !durable
    ensures ok && durable <==> fs.faults == old(fs.faults)
    ensures fs.faults >= old(fs.faults)
  {
    durable := false;
    RenamedReplaces(was, fs.disk, tmp, base, text);
    ok := fs.Rename(tmp, base);
    if !ok { return; }
    UntouchedOrReplacedIsSafe(was, fs.disk, base, text);
    durable := fs.SyncDirectory();
    UntouchedOrReplacedIsSafe(was, fs.disk, base, text);
  }

  /** The file has been replaced whole, or not at all. Other names are as they were. */
  ghost predicate Outcome(was: Disk<string>, d: Disk<string>, base: string, tmp: string, text: string, ok: bool) {
    && (if ok then Replaced(was, d, base, text) && tmp !in d.entries else Untouched(was, d, base))
    && forall n :: n != base && n != tmp ==> Entry(d, n) == Entry(was, n)
  }

  /** WriteFileAtomic. durable: the directory was synced too, which the caller
      never learns. */
  method WriteFileAtomic(fs: Machine<string>, base: string, random: string, text: string)
    returns (ok: bool, durable: bool)
    requires Sound(fs.disk)
    modifies fs
    ensures old(fs.trail) <= fs.trail
    ensures forall k :: |old(fs.trail)| <= k < |fs.trail| ==> Safe(old(fs.disk), fs.trail[k], base, text)
    ensures Outcome(old(fs.disk), fs.disk, base, TempName(base, random), text, ok)
    ensures ok ==> File(fs.disk, base) == Some(text)
    ensures ok && durable ==> forall x :: CouldLeave(fs.disk, base, x) <==> x == Some(text)
    ensures fs.faults == old(fs.faults) && TempName(base, random) !in old(fs.disk.entries) ==> ok && durable
  {
    ghost var was := fs.disk;
    durable := false;
    var tmp := TempName(base, random);
    ok := fs.CreateNew(tmp);
    if !ok { return; }
    var i := fs.disk.entries[tmp];
    NewInodeOnly(was, tmp, fs.disk, base);
    UntouchedOrReplacedIsSafe(was, fs.disk, base, text);
    ok := FillAndSync(fs, i, text);
    forall k | |old(fs.trail)| < k < |fs.trail| ensures Safe(was, fs.trail[k], base, text) {
      NewInodeOnly(was, tmp, fs.trail[k], base);
      UntouchedOrReplacedIsSafe(was, fs.trail[k], base, text);
    }
    NewInodeOnly(was, tmp, fs.disk, base);
    if ok { ok, durable := SwapIn(fs, was, tmp, base, text); }
    CleanUp(fs, was, base, tmp, text, ok);
    if ok && durable { DurableMeansSettled(was, fs.disk, base, text); }
  }

  /** The deferred removal. After the rename it finds nothing to remove. */
  method CleanUp(fs: Machine<string>, ghost was: Disk<string>, base: string, tmp: string, text: string, ghost ok: bool)
    requires Sound(was) && base != tmp
    requires if ok then Replaced(was, fs.disk, base, text) && tmp !in fs.disk.entries else Untouched(was, fs.disk, base)
    requires forall n :: n != base && n != tmp ==> Entry(fs.disk, n) == Entry(was, n)
    modifies fs
    ensures old(fs.trail) <= fs.trail
    ensures forall k :: |old(fs.trail)| <= k < |fs.trail| ==> Safe(was, fs.trail[k], base, text)
    ensures Outcome(was, fs.disk, base, tmp, text, ok)
    ensures ok ==> fs.disk == old(fs.disk)
    ensures fs.faults >= old(fs.faults)
  {
    var removed := fs.Remove(tmp);
    UntouchedOrReplacedIsSafe(was, fs.disk, base, text);
  }
}
