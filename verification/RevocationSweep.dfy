/** Revocation reaches live connections: what a sweep leaves, once it is over,
    of the machines barred when it began. */
module RevocationSweep {
  import opened Prelude
  import opened Registry
  import opened AgentProtocol
  import opened AgentInvariants

  /** A connection of a machine barred now. */
  predicate Barred(s: State, c: Conn) {
    c in s.handlers && s.handlers[c].id.fp in s.revoked
  }

  // ---- Nothing is undone ----

  lemma DoomIsForever(env: Env, s: State, a: Step, c: Conn)
    requires Inv(s) && Enabled(env, s, a) && Doomed(s, c)
    ensures Doomed(Do(env, s, a), c)
  {
    if e :| e in s.handlers && s.handlers[e].owes == Some(c) {
      assert HandlerFits(s, e);
      DebtStays(env, s, a, e);
      assert e in Do(env, s, a).handlers;
    } else {
      ClosingGoesOn(env, s, a, c);
    }
  }

  lemma ClosingGoesOn(env: Env, s: State, a: Step, c: Conn)
    requires Enabled(env, s, a) && (c in s.closed || (s.watch.Sweeping? && s.watch.closing == Some(c)))
    ensures var s' := Do(env, s, a);
      c in s'.closed || (s'.watch.Sweeping? && s'.watch.closing == Some(c))
  {}

  lemma DebtStays(env: Env, s: State, a: Step, e: Conn)
    requires Enabled(env, s, a) && e in s.handlers && s.handlers[e].owes.Some?
    ensures var s' := Do(env, s, a);
      e in s'.handlers && (s'.handlers[e].owes == s.handlers[e].owes || s.handlers[e].owes.value in s'.closed)
  {}

  // ---- The sweep ----

  /** During a sweep, a barred connection it saw is doomed or still on its list. */
  ghost predicate Pursued(s: State, c: Conn) {
    Doomed(s, c)
    || (s.watch.Sweeping? && c in s.watch.todo && s.watch.todo[c] in s.revoked)
  }

  lemma SnapshotPursues(env: Env, s: State, conns: map<Conn, string>, c: Conn)
    requires Inv(s) && Enabled(env, s, Snapshot(conns))
    requires Barred(s, c) && Registered(s.handlers[c])
    ensures Pursued(Do(env, s, Snapshot(conns)), c)
  {
    var s' := Do(env, s, Snapshot(conns));
    assert Reached(s, c);
    if Doomed(s, c) {
      DoomIsForever(env, s, Snapshot(conns), c);
    } else {
      StepKeepsInv(env, s, Snapshot(conns));
      assert SweepFits(s');
    }
  }

  lemma PursuitGoesOn(env: Env, s: State, a: Step, c: Conn)
    requires Inv(s) && Enabled(env, s, a) && Pursued(s, c)
    ensures Pursued(Do(env, s, a), c)
  {
    if Doomed(s, c) { DoomIsForever(env, s, a, c); }
  }

  lemma PursuitNext(env: Env, states: seq<State>, steps: seq<Step>, i: nat, c: Conn)
    requires IsRun(env, states, steps) && i < |steps| && Pursued(states[i], c)
    ensures Pursued(states[i + 1], c)
  {
    RunKeepsInv(env, states, steps, i);
    assert StepAt(env, states, steps, i);
    PursuitGoesOn(env, states[i], steps[i], c);
  }

  lemma {:induction false} PursuitLasts(env: Env, states: seq<State>, steps: seq<Step>, i: nat, j: nat, c: Conn)
    requires IsRun(env, states, steps) && i <= j < |states| && Pursued(states[i], c)
    ensures Pursued(states[j], c)
    decreases j - i
  {
    if i < j {
      PursuitLasts(env, states, steps, i, j - 1, c);
      PursuitNext(env, states, steps, j - 1, c);
    }
  }

  /** Once a sweep is over, every connection of a machine that was barred when
      the sweep took its snapshot, and that had registered by then, is closed or
      about to be. */
  lemma SweepIsComplete(env: Env, states: seq<State>, steps: seq<Step>, j: nat, k: nat, c: Conn)
    requires IsRun(env, states, steps) && j < k < |states|
    requires steps[j].Snapshot? && !states[k].watch.Sweeping?
    requires Barred(states[j], c) && Registered(states[j].handlers[c])
    ensures Doomed(states[k], c)
  {
    RunKeepsInv(env, states, steps, j);
    assert StepAt(env, states, steps, j);
    SnapshotPursues(env, states[j], steps[j].conns, c);
    PursuitLasts(env, states, steps, j + 1, k, c);
  }

  // ---- New connections of a barred machine ----

  /** No key check lets a barred machine in. */
  lemma KeyCheckBars(env: Env, s: State, a: Step, c: Conn)
    requires Enabled(env, s, a) && c in Do(env, s, a).handlers
    ensures c in s.handlers ==> Do(env, s, a).handlers[c].id == s.handlers[c].id
    ensures c !in s.handlers ==> a.Connect? && Do(env, s, a).handlers[c].id.fp !in s.revoked
  {
    if a.Connect? { KeyCheckIsValid(env, s.revoked, a.offer); }
  }

  lemma BarredIsNotNew(env: Env, states: seq<State>, steps: seq<Step>, i: nat, fp: string, c: Conn)
    requires IsRun(env, states, steps) && i < |steps| && fp in states[i].revoked
    requires c in states[i + 1].handlers && states[i + 1].handlers[c].id.fp == fp
    ensures c in states[i].handlers && states[i].handlers[c].id.fp == fp
  {
    assert StepAt(env, states, steps, i);
    KeyCheckBars(env, states[i], steps[i], c);
  }

  /** While a fingerprint stays barred, no connection of it is added: any there
      is passed its key check before. */
  lemma {:induction false} BarredConnectionsAreOld(env: Env, states: seq<State>, steps: seq<Step>, i: nat, j: nat,
                                                   fp: string, c: Conn)
    requires IsRun(env, states, steps) && i <= j < |states|
    requires forall k :: i <= k <= j ==> fp in states[k].revoked
    requires c in states[j].handlers && states[j].handlers[c].id.fp == fp
    ensures c in states[i].handlers && states[i].handlers[c].id.fp == fp
    decreases j - i
  {
    if i < j {
      BarredIsNotNew(env, states, steps, j - 1, fp, c);
      BarredConnectionsAreOld(env, states, steps, i, j - 1, fp, c);
    }
  }

  // ---- From installing a set to the end of its sweep ----

  /** Where the watcher can be after installing a set that bars somebody: it
      does not rest before it has taken a snapshot. */
  lemma {:induction false} NoRestWithoutASnapshot(env: Env, states: seq<State>, steps: seq<Step>, i: nat, k: nat,
                                                  fp: string)
    returns (j: nat)
    requires IsRun(env, states, steps) && i < k < |states|
    requires steps[i].Install? && fp in steps[i].revoked
    requires forall m :: i < m < k ==> states[m].watch != Idle
    ensures forall m :: i < m <= k ==> states[m].revoked == steps[i].revoked
    ensures states[k].watch.Sweeping? || states[k].watch == Idle ==> i < j < k && steps[j].Snapshot?
    decreases k - i
  {
    assert StepAt(env, states, steps, k - 1);
    if k == i + 1 {
      j := 0;
    } else {
      j := NoRestWithoutASnapshot(env, states, steps, i, k - 1, fp);
      WatchMovesOn(env, states[k - 1], steps[k - 1], fp);
      if steps[k - 1].Snapshot? { j := k - 1; }
    }
  }

  /** A watcher that has started on a set that bars somebody keeps the set, and
      rests only from a sweep. */
  lemma WatchMovesOn(env: Env, s: State, a: Step, fp: string)
    requires Enabled(env, s, a) && s.watch != Idle && fp in s.revoked
    ensures var s' := Do(env, s, a);
      && s'.revoked == s.revoked
      && (s'.watch == Idle ==> s.watch.Sweeping?)
      && (s'.watch.Sweeping? ==> s.watch.Sweeping? || a.Snapshot?)
  {
    assert |s.revoked| > 0;
  }

  /** Revocation is complete. After a set barring fp is installed, the watcher
      goes through a snapshot before it rests. When it first rests, every
      connection of fp passed its key check before the set was installed, and is
      closed or about to be -- unless it had not registered by the snapshot. */
  lemma RevocationIsComplete(env: Env, states: seq<State>, steps: seq<Step>, i: nat, k: nat, fp: string)
    returns (j: nat)
    requires IsRun(env, states, steps) && i < k < |states|
    requires steps[i].Install? && fp in steps[i].revoked
    requires states[k].watch == Idle && forall m :: i < m < k ==> states[m].watch != Idle
    ensures i < j < k && steps[j].Snapshot?
    ensures forall c :: c in states[k].handlers && states[k].handlers[c].id.fp == fp ==>
      && c in states[i + 1].handlers
      && c in states[j].handlers
      && (Registered(states[j].handlers[c]) ==> Doomed(states[k], c))
  {
    j := NoRestWithoutASnapshot(env, states, steps, i, k, fp);
    forall c | c in states[k].handlers && states[k].handlers[c].id.fp == fp
      ensures c in states[i + 1].handlers && c in states[j].handlers
      ensures Registered(states[j].handlers[c]) ==> Doomed(states[k], c)
    {
      BarredConnectionsAreOld(env, states, steps, i + 1, k, fp, c);
      BarredConnectionsAreOld(env, states, steps, j, k, fp, c);
      if Registered(states[j].handlers[c]) {
        assert Barred(states[j], c);
        SweepIsComplete(env, states, steps, j, k, c);
      }
    }
  }

  /** And only barred machines are swept: a connection the sweep closes belongs
      to a fingerprint in the set. */
  lemma SweepSparesTheRest(env: Env, states: seq<State>, steps: seq<Step>, i: nat)
    requires IsRun(env, states, steps) && i < |steps| && steps[i] == SweepClose
    ensures var s := states[i]; s.watch.Sweeping? && s.watch.closing.Some? && Barred(s, s.watch.closing.value)
  {
    RunKeepsInv(env, states, steps, i);
    assert StepAt(env, states, steps, i);
  }
}
