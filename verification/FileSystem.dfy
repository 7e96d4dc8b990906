/** A disk as a program sees it and as a crash may leave it, and a machine that
    keeps the trail of every state its disk has passed through. Any operation
    may fail at any time. */
module FileSystem {
  import opened Prelude

  /** entries: the directory. data: the inodes, by number; numbers are never used
      again. dirty: inodes changed since they were last synced. past: for a name,
      what it stood for since the directory was last synced. */
  datatype Disk<N> =
    Disk(entries: map<N, nat>, data: seq<string>, dirty: set<nat>, past: map<N, set<Option<nat>>>)

  function Entry<N(==)>(d: Disk<N>, name: N): Option<nat> {
    if name in d.entries then Some(d.entries[name]) else None
  }

  predicate Sound<N(!new)>(d: Disk<N>) {
    && (forall n :: n in d.entries ==> d.entries[n] < |d.data|)
    && (forall n, e :: n in d.past && e in d.past[n] ==> (e.Some? ==> e.value < |d.data|))
  }

  /** What a reader gets from a name. */
  function File<N(==)>(d: Disk<N>, name: N): Option<string> {
    if name in d.entries && d.entries[name] < |d.data| then Some(d.data[d.entries[name]]) else None
  }

  // ---- What a crash may leave ----

  /** What a name may stand for after a crash: all it has stood for since the
      directory was synced, in no order. */
  function MayBe<N(==)>(d: Disk<N>, name: N): set<Option<nat>> {
    (if name in d.past then d.past[name] else {}) + {Entry(d, name)}
  }

  /** An inode not synced may hold anything at all. */
  predicate Holds<N>(d: Disk<N>, e: Option<nat>, x: Option<string>) {
    match e
    case None => x == None
    case Some(i) => x.Some? && (i in d.dirty || (i < |d.data| && x.value == d.data[i]))
  }

  ghost predicate CouldLeave<N>(d: Disk<N>, name: N, x: Option<string>) {
    exists e :: e in MayBe(d, name) && Holds(d, e, x)
  }

  // ---- The operations, when they succeed ----

  function Created<N(==)>(d: Disk<N>, name: N): Disk<N> {
    Disk(d.entries[name := |d.data|], d.data + [""], d.dirty + {|d.data|}, d.past[name := MayBe(d, name)])
  }

  function Filled<N>(d: Disk<N>, i: nat, text: string): Disk<N>
    requires i < |d.data|
  {
    d.(data := d.data[i := text], dirty := d.dirty + {i})
  }

  function Synced<N>(d: Disk<N>, i: nat): Disk<N> {
    d.(dirty := d.dirty - {i})
  }

  function Renamed<N(==)>(d: Disk<N>, from: N, to: N): Disk<N>
    requires from in d.entries
  {
    d.(entries := (d.entries - {from})[to := d.entries[from]],
       past := d.past[from := MayBe(d, from)][to := MayBe(d, to)])
  }

  function Unlinked<N(==)>(d: Disk<N>, name: N): Disk<N> {
    d.(entries := d.entries - {name}, past := d.past[name := MayBe(d, name)])
  }

  function DirectorySynced<N>(d: Disk<N>): Disk<N> {
    d.(past := map[])
  }

  /** A write to inode i of disk was that got as far as some part of text. */
  ghost predicate PartWritten<N>(was: Disk<N>, i: nat, text: string, d: Disk<N>)
    requires i < |was.data|
  {
    exists n: nat :: n <= |text| && d == Filled(was, i, was.data[i] + text[..n])
  }

  class Machine<N(==,!new)> {
    var disk: Disk<N>
    var trail: seq<Disk<N>>
    var faults: nat  // operations that failed for reasons outside the model

    constructor (d: Disk<N>)
      ensures disk == d && trail == [d] && faults == 0
    {
      disk, trail, faults := d, [d], 0;
    }

    /** An operation that changes nothing modelled here, such as chmod or close. */
    method Attempt() returns (ok: bool)
      modifies this
      ensures disk == old(disk) && trail == old(trail)
      ensures faults == old(faults) + if ok then 0 else 1
    {
      ok := *;
      if !ok { faults := faults + 1; }
    }

    /** Made with O_EXCL: never an existing file. */
    method CreateNew(name: N) returns (ok: bool)
      modifies this
      ensures ok ==> name !in old(disk.entries) && disk == Created(old(disk), name) && trail == old(trail) + [disk]
      ensures !ok ==> disk == old(disk) && trail == old(trail)
      ensures faults == old(faults) + if ok || name in old(disk.entries) then 0 else 1
    {
      if name in disk.entries { return false; }
      ok := Attempt();
      if ok {
        disk := Created(disk, name);
        trail := trail + [disk];
      }
    }

    /** Opened for writing from the start: an existing file is emptied in place. */
    method OpenEmpty(name: N) returns (ok: bool)
      requires Sound(disk)
      modifies this
      ensures ok ==> trail == old(trail) + [disk]
      ensures ok && name in old(disk.entries) ==> disk == Filled(old(disk), old(disk.entries[name]), "")
      ensures ok && name !in old(disk.entries) ==> disk == Created(old(disk), name)
      ensures !ok ==> disk == old(disk) && trail == old(trail)
      ensures faults == old(faults) + if ok then 0 else 1
    {
      ok := Attempt();
      if ok {
        disk := if name in disk.entries then Filled(disk, disk.entries[name], "") else Created(disk, name);
        trail := trail + [disk];
      }
    }

    /** Appends text piece by piece, of any sizes, stopping early on an error. */
    method Write(i: nat, text: string) returns (ok: bool)
      requires i < |disk.data| && i in disk.dirty
      modifies this
      ensures ok ==> disk == Filled(old(disk), i, old(disk.data[i]) + text)
      ensures PartWritten(old(disk), i, text, disk)
      ensures old(trail) <= trail
      ensures forall k :: |old(trail)| <= k < |trail| ==> PartWritten(old(disk), i, text, trail[k])
      ensures if trail == old(trail) then disk == old(disk) else trail[|trail| - 1] == disk
      ensures faults == old(faults) + if ok then 0 else 1
    {
      ghost var was := disk;
      var n := 0;
      assert was.data[i] + text[..0] == was.data[i];
      assert disk == Filled(was, i, was.data[i] + text[..0]);
      while n < |text|
        invariant 0 <= n <= |text|
        invariant disk == Filled(was, i, was.data[i] + text[..n])
        invariant old(trail) <= trail
        invariant forall k :: |old(trail)| <= k < |trail| ==> PartWritten(was, i, text, trail[k])
        invariant if trail == old(trail) then disk == was else trail[|trail| - 1] == disk
        invariant faults == old(faults)
        decreases |text| - n
      {
        ok := Attempt();
        if !ok { return; }
        var m :| n < m <= |text|;
        assert text[..m] == text[..n] + text[n..m];
        assert was.data[i] + text[..n] + text[n..m] == was.data[i] + text[..m];
        disk := Filled(disk, i, disk.data[i] + text[n..m]);
        assert disk.data == was.data[i := was.data[i] + text[..m]];
        assert disk == Filled(was, i, was.data[i] + text[..m]);
        trail := trail + [disk];
        n := m;
      }
      assert text[..n] == text;
      ok := true;
    }

    method Sync(i: nat) returns (ok: bool)
      modifies this
      ensures ok ==> disk == Synced(old(disk), i) && trail == old(trail) + [disk]
      ensures !ok ==> disk == old(disk) && trail == old(trail)
      ensures faults == old(faults) + if ok then 0 else 1
    {
      ok := Attempt();
      if ok {
        disk := Synced(disk, i);
        trail := trail + [disk];
      }
    }

    method Rename(from: N, to: N) returns (ok: bool)
      modifies this
      ensures ok ==> from in old(disk.entries) && disk == Renamed(old(disk), from, to) && trail == old(trail) + [disk]
      ensures !ok ==> disk == old(disk) && trail == old(trail)
      ensures faults == old(faults) + if ok || from !in old(disk.entries) then 0 else 1
    {
      if from !in disk.entries { return false; }
      ok := Attempt();
      if ok {
        disk := Renamed(disk, from, to);
        trail := trail + [disk];
      }
    }

    method Remove(name: N) returns (ok: bool)
      modifies this
      ensures ok ==> name in old(disk.entries) && disk == Unlinked(old(disk), name) && trail == old(trail) + [disk]
      ensures !ok ==> disk == old(disk) && trail == old(trail)
      ensures faults == old(faults) + if ok || name !in old(disk.entries) then 0 else 1
    {
      if name !in disk.entries { return false; }
      ok := Attempt();
      if ok {
        disk := Unlinked(disk, name);
        trail := trail + [disk];
      }
    }

    method SyncDirectory() returns (ok: bool)
      modifies this
      ensures ok ==> disk == DirectorySynced(old(disk)) && trail == old(trail) + [disk]
      ensures !ok ==> disk == old(disk) && trail == old(trail)
      ensures faults == old(faults) + if ok then 0 else 1
    {
      ok := Attempt();
      if ok {
        disk := DirectorySynced(disk);
        trail := trail + [disk];
      }
    }
  }
}
