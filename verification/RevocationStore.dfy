/** Changing the revocation file on a disk: what readers and a crash find at
    each moment of a -revoke or -unrevoke. */
module RevocationStore {
  import opened Prelude
  import opened KeyedLines
  import opened RevocationFile
  import opened FileSystem
  import opened AtomicFile

  /** The command writes m', and the file can hold it. */
  ghost predicate Writes(file: Option<string>, command: Command, today: string, m': RevokedSet) {
    && Parse(file).Ok? && Intended(Parse(file).value, command, today, m')
    && (command.Revoke? ==> Recordable(command.fp, m'[command.fp]))
  }

  /** Now, and after a crash now, the file means what it meant, or m'. */
  ghost predicate OldOrNew(was: Disk<string>, d: Disk<string>, path: string, m': RevokedSet) {
    && (Parse(File(d, path)) == Parse(File(was, path)) || Parse(File(d, path)) == Ok(m'))
    && (forall x :: CouldLeave(d, path, x) ==> CouldLeave(was, path, x) || Parse(x) == Ok(m'))
  }

  lemma SafeMeansOldOrNew(header: Header, was: Disk<string>, d: Disk<string>, path: string, m': RevokedSet)
    requires Parse(Some(Render(header, m'))) == Ok(m')
    requires Safe(was, d, path, Render(header, m'))
    ensures OldOrNew(was, d, path, m')
  {}

  /** If all that a crash could have left before was the file as it stood, then a
      crash leaves that set or the new one, never a part of either. */
  lemma CrashLeavesAWholeSet(was: Disk<string>, d: Disk<string>, path: string, m': RevokedSet, x: Option<string>)
    requires OldOrNew(was, d, path, m') && CouldLeave(d, path, x)
    requires forall y :: CouldLeave(was, path, y) ==> y == File(was, path)
    ensures Parse(x) == Parse(File(was, path)) || Parse(x) == Ok(m')
  {}

  /** manageRevocations with its file. */
  method RunCommand(fs: Machine<string>, header: Header, path: string, random: string, command: Command,
                    today: string)
    returns (ok: bool)
    requires Sound(fs.disk)
    modifies fs
    ensures old(fs.trail) <= fs.trail
    ensures forall m', k | Writes(File(old(fs.disk), path), command, today, m') && |old(fs.trail)| <= k < |fs.trail|
              :: OldOrNew(old(fs.disk), fs.trail[k], path, m')
    ensures forall m' | Writes(File(old(fs.disk), path), command, today, m')
              :: if ok then Parse(File(fs.disk, path)) == Ok(m') else File(fs.disk, path) == File(old(fs.disk), path)
    ensures (match Parse(File(old(fs.disk), path))
              case Err(_) => true
              case Ok(m) => Fails(m, command) || LeavesAlone(m, command))
            ==> fs.disk == old(fs.disk)
    ensures match Parse(File(old(fs.disk), path))
              case Err(_) => !ok
              case Ok(m) => (Fails(m, command) ==> !ok) && (LeavesAlone(m, command) ==> ok)
  {
    ghost var was := fs.disk;
    var file := File(fs.disk, path);
    var r := ManageRevocations(header, file, command, today);
    if r.Err? { return false; }
    if r.value.None? { return true; }
    var durable;
    ok, durable := WriteFileAtomic(fs, path, random, r.value.value);
    forall m' | Writes(file, command, today, m')
      ensures r.value.value == Render(header, m')
      ensures Parse(Some(Render(header, m'))) == Ok(m')
    {
      CommandTakesEffect(header, file, Parse(file).value, command, today, m');
    }
    forall m', k | Writes(file, command, today, m') && |old(fs.trail)| <= k < |fs.trail|
      ensures OldOrNew(was, fs.trail[k], path, m')
    {
      SafeMeansOldOrNew(header, was, fs.trail[k], path, m');
    }
  }
}
