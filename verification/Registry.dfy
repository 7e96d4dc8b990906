/** The registry of connected agents: what each locked section does to the map,
    and the object whose methods they are. Connections are numbered. */
module Registry {
  import opened Prelude
  import opened Naming
  import opened SortedNames

  type Conn = nat

  datatype Registration =
    Registration(conn: Conn, fp: string, proto: int, build: string, platform: string, hostFP: string)

  type Table = map<string, Registration>

  // ---- The locked sections, on values ----

  /** add: refused only when a different machine holds the name. */
  predicate AddRefused(m: Table, name: string, r: Registration) {
    name in m && m[name].fp != r.fp
  }

  function Added(m: Table, name: string, r: Registration): Table {
    if AddRefused(m, name, r) then m else m[name := r]
  }

  /** The connection an add pushes out, which is closed once the lock is free. */
  function Displaced(m: Table, name: string, r: Registration): Option<Conn> {
    if name in m && m[name].fp == r.fp && m[name].conn != r.conn then Some(m[name].conn) else None
  }

  /** remove: only while the name still points at this connection. */
  function Removed(m: Table, name: string, conn: Conn): Table {
    if name in m && m[name].conn == conn then m - {name} else m
  }

  /** setHostFP: every name the connection holds. */
  function WithHostFP(m: Table, conn: Conn, fp: string): Table {
    map n | n in m :: if m[n].conn == conn then m[n].(hostFP := fp) else m[n]
  }

  /** connections: each distinct connection with a fingerprint it registered. */
  ghost predicate IsConnections(m: Table, out: map<Conn, string>) {
    && (forall n :: n in m ==> m[n].conn in out)
    && (forall c :: c in out ==> exists n :: n in m && m[n].conn == c && m[n].fp == out[c])
  }

  datatype Target = Target(friendly: string, canonical: string, reg: Registration)

  function CanonicalNames(m: Table): set<string> {
    set n | n in m && IsCanonicalName(n)
  }

  /** What a listing promises, whatever order the map was visited in. */
  ghost predicate IsListing(m: Table, rows: seq<Target>) {
    && |rows| == |InOrder(CanonicalNames(m))|
    && forall i :: 0 <= i < |rows| ==> IsRow(m, InOrder(CanonicalNames(m))[i], rows[i])
  }

  ghost predicate IsRow(m: Table, canonical: string, row: Target) {
    && canonical in m && row.canonical == canonical && row.reg == m[canonical]
    && (|| (row.friendly in m && !IsCanonicalName(row.friendly) && m[row.friendly].conn == row.reg.conn)
        || (row.friendly == "" && forall n :: n in m && m[n].conn == row.reg.conn ==> IsCanonicalName(n)))
  }

  /** A connection under at most one friendly name. */
  ghost predicate OneFriendlyName(m: Table) {
    forall a, b :: a in m && b in m && !IsCanonicalName(a) && !IsCanonicalName(b) && m[a].conn == m[b].conn ==> a == b
  }

  /** Where no connection has two friendly names, there is only one listing. */
  lemma ListingIsDetermined(m: Table, rows: seq<Target>, rows': seq<Target>)
    requires IsListing(m, rows) && IsListing(m, rows') && OneFriendlyName(m)
    ensures rows == rows'
  {
    var names := InOrder(CanonicalNames(m));
    forall i | 0 <= i < |rows| ensures rows[i] == rows'[i] {
      assert IsRow(m, names[i], rows[i]) && IsRow(m, names[i], rows'[i]);
    }
  }

  /** A departing connection takes out its own entries and no others; and it does
      not matter whether it does so before its successor comes or after. */
  lemma DepartureSparesTheSuccessor(m: Table, name: string, leaving: Conn, r: Registration)
    requires leaving != r.conn && !AddRefused(m, name, r)
    ensures Removed(Added(m, name, r), name, leaving) == Added(m, name, r) == Added(Removed(m, name, leaving), name, r)
    ensures Displaced(m, name, r) == Some(leaving) ==> Displaced(Removed(m, name, leaving), name, r) == None
    ensures name !in m ==> Removed(Added(m, name, r), name, r.conn) == m
    ensures forall n :: n in m && (n != name || m[n].conn != leaving) ==>
      n in Removed(m, name, leaving) && Removed(m, name, leaving)[n] == m[n]
  {
    if name in m && m[name].conn == leaving {
      assert (m - {name})[name := r] == m[name := r];
    }
    assert name !in m ==> m[name := r] - {name} == m;
  }

  // ---- The object ----

  class Registry {
    var m: Table

    constructor ()
      ensures m == map[]
    {
      m := map[];
    }

    /** add. The displaced connection is the caller's to close, after the lock. */
    method Add(name: string, conn: Conn, fp: string, proto: int, build: string, platform: string)
      returns (refused: bool, displaced: Option<Conn>)
      modifies this
      ensures var r := Registration(conn, fp, proto, build, platform, "");
        && refused == AddRefused(old(m), name, r)
        && m == Added(old(m), name, r) && displaced == Displaced(old(m), name, r)
    {
      var existed := name in m;
      if existed && m[name].fp != fp { return true, None; }
      displaced := if existed && m[name].conn != conn then Some(m[name].conn) else None;
      m := m[name := Registration(conn, fp, proto, build, platform, "")];
      return false, displaced;
    }

    method Remove(name: string, conn: Conn)
      modifies this
      ensures m == Removed(old(m), name, conn)
    {
      if name in m && m[name].conn == conn {
        m := m - {name};
      }
    }

    method Lookup(name: string) returns (r: Option<Conn>)
      ensures r == if name in m then Some(m[name].conn) else None
    {
      if name in m { return Some(m[name].conn); }
      return None;
    }

    /** setHostFP: the map is visited in any order, and updated on the way. */
    method SetHostFP(conn: Conn, fp: string)
      modifies this
      ensures m == WithHostFP(old(m), conn, fp) && m.Keys == old(m).Keys
      ensures forall n :: n in m && old(m)[n].conn == conn ==> m[n] == old(m)[n].(hostFP := fp)
      ensures forall n :: n in m && old(m)[n].conn != conn ==> m[n] == old(m)[n]
    {
      var todo := m.Keys;
      while todo != {}
        invariant todo <= m.Keys == old(m).Keys
        invariant forall n :: n in m ==>
          m[n] == if n in todo then old(m)[n] else WithHostFP(old(m), conn, fp)[n]
        decreases todo
      {
        var name :| name in todo;
        if m[name].conn == conn { m := m[name := m[name].(hostFP := fp)]; }
        todo := todo - {name};
      }
    }

    /** connections. */
    method Connections() returns (out: map<Conn, string>)
      ensures IsConnections(m, out)
    {
      out := map[];
      var todo := m.Keys;
      while todo != {}
        invariant todo <= m.Keys
        invariant forall n :: n in m && n !in todo ==> m[n].conn in out
        invariant forall c :: c in out ==> exists n :: n in m && m[n].conn == c && m[n].fp == out[c]
        decreases todo
      {
        var name :| name in todo;
        out := out[m[name].conn := m[name].fp];
        todo := todo - {name};
      }
    }

    /** The first loop of listing: names sorted into the two kinds, the friendly
        ones keyed by connection, the last one visited winning. */
    method FriendlyNames() returns (friendly: map<Conn, string>)
      ensures forall c :: c in friendly ==>
        friendly[c] in m && !IsCanonicalName(friendly[c]) && m[friendly[c]].conn == c
      ensures forall n :: n in m && !IsCanonicalName(n) ==> m[n].conn in friendly
    {
      friendly := map[];
      var todo := m.Keys;
      while todo != {}
        invariant todo <= m.Keys
        invariant forall c :: c in friendly ==>
          friendly[c] in m && !IsCanonicalName(friendly[c]) && m[friendly[c]].conn == c
        invariant forall n :: n in m && n !in todo && !IsCanonicalName(n) ==> m[n].conn in friendly
        decreases todo
      {
        var name :| name in todo;
        if !IsCanonicalName(name) { friendly := friendly[m[name].conn := name]; }
        todo := todo - {name};
      }
    }

    method Listing() returns (rows: seq<Target>)
      ensures IsListing(m, rows)
    {
      var friendly := FriendlyNames();
      var canonical := CollectSorted(CanonicalNames(m));
      assert forall n :: n in canonical ==> n in Elements(canonical);
      rows := ListRows(canonical, friendly);
    }

    method ListRows(canonical: seq<string>, friendly: map<Conn, string>) returns (rows: seq<Target>)
      requires forall n :: n in canonical ==> n in m && IsCanonicalName(n)
      requires forall c :: c in friendly ==>
        friendly[c] in m && !IsCanonicalName(friendly[c]) && m[friendly[c]].conn == c
      requires forall n :: n in m && !IsCanonicalName(n) ==> m[n].conn in friendly
      ensures |rows| == |canonical| && forall i :: 0 <= i < |rows| ==> IsRow(m, canonical[i], rows[i])
    {
      rows := [];
      for i := 0 to |canonical|
        invariant |rows| == i
        invariant forall j :: 0 <= j < i ==> IsRow(m, canonical[j], rows[j])
      {
        var reg := m[canonical[i]];
        var name := if reg.conn in friendly then friendly[reg.conn] else "";
        rows := rows + [Target(name, canonical[i], reg)];
      }
    }
  }
}
