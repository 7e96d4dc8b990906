/** What every reachable state of the registration protocol satisfies. */
module AgentInvariants {
  import opened Prelude
  import opened Naming
  import opened Registry
  import opened AgentProtocol

  /** A close of c that is decided on but not done: by the handler that
      displaced it, or by the sweep. */
  ghost predicate PendingClose(s: State, c: Conn) {
    || (exists d :: d in s.handlers && s.handlers[d].owes == Some(c))
    || (s.watch.Sweeping? && s.watch.closing == Some(c))
  }

  ghost predicate Doomed(s: State, c: Conn) {
    c in s.closed || PendingClose(s, c)
  }

  predicate ValidIdentity(id: Identity) {
    ValidCanonicalName(id.canonical) && FriendlyFits(id)
  }

  /** The two names of an identity are of different kinds. */
  predicate KindsFit(id: Identity) {
    IsCanonicalName(id.canonical) && !IsCanonicalName(id.friendly)
  }

  predicate FriendlyFits(id: Identity) {
    id.friendly == "" || ValidFriendlyName(id.friendly)
  }

  predicate NamesFit(h: Handler) {
    && KindsFit(h.id) && FriendlyFits(h.id)
    && (forall n :: n in h.names ==> n == h.id.canonical || (n == h.id.friendly && h.id.friendly != ""))
    && (h.phase in {Checked, Refused, Finished} ==> h.names == [])
    && (h.phase in {Named, Granted} ==> h.names == [h.id.canonical])
    && (h.phase == Granted ==> h.id.friendly != "")
    && (h.phase in {Checked, Refused, Granted, Leaving, Finished} ==> h.owes == None)
  }

  ghost predicate HandlerFits(s: State, c: Conn) {
    c in s.handlers
      && NamesFit(s.handlers[c])
      && (s.handlers[c].phase in {Leaving, Finished} ==> c in s.closed)
  }

  ghost predicate HandlersFit(s: State) {
    forall c :: c in s.handlers ==> HandlerFits(s, c)
  }

  /** An entry is the work of a handler that will take it out again. */
  ghost predicate EntryFits(s: State, n: string) {
    n in s.reg && var r := s.reg[n];
      && r.conn in s.handlers
      && n in s.handlers[r.conn].names
      && r.(hostFP := "") == RegistrationOf(r.conn, s.handlers[r.conn].id)
  }

  ghost predicate EntriesFit(s: State) {
    forall n :: n in s.reg ==> EntryFits(s, n)
  }

  predicate Registered(h: Handler) {
    h.phase !in {Checked, Refused}
  }

  /** A registered connection nobody has closed or is about to close is the one
      its canonical name leads to. */
  ghost predicate Reached(s: State, c: Conn) {
    c in s.handlers && Registered(s.handlers[c]) && !Doomed(s, c) ==>
      s.handlers[c].id.canonical in s.reg && s.reg[s.handlers[c].id.canonical].conn == c
  }

  ghost predicate AllReached(s: State) {
    forall c :: c in s.handlers ==> Reached(s, c)
  }

  /** Only connections of the same machine are ever displaced. */
  ghost predicate DebtsFit(s: State) {
    forall c :: c in s.handlers && s.handlers[c].owes.Some? ==>
      var d := s.handlers[c].owes.value;
      d in s.handlers && d != c && s.handlers[d].id.fp == s.handlers[c].id.fp
  }

  ghost predicate SweepFits(s: State) {
    s.watch.Sweeping? ==>
      && (forall c :: c in s.watch.todo ==> c in s.handlers && s.watch.todo[c] == s.handlers[c].id.fp)
      && (s.watch.closing.Some? ==>
            s.watch.closing.value in s.handlers && s.handlers[s.watch.closing.value].id.fp in s.revoked)
  }

  ghost predicate Inv(s: State) {
    HandlersFit(s) && EntriesFit(s) && AllReached(s) && DebtsFit(s) && SweepFits(s)
  }

  // ---- Each part is kept by every step ----

  lemma KeyCheckIsValid(env: Env, revoked: map<string, string>, o: Offer)
    requires KeyCheck(env, revoked, o).Some?
    ensures ValidIdentity(KeyCheck(env, revoked, o).value) && KindsFit(KeyCheck(env, revoked, o).value)
    ensures KeyCheck(env, revoked, o).value.fp !in revoked
  {
    FriendlyPrincipalIsValid(o.principals);
    NamespacesAreDisjoint(o.user);
    NamespacesAreDisjoint(FriendlyPrincipal(o.principals));
  }

  lemma {:induction false} FriendlyPrincipalIsValid(principals: seq<string>)
    ensures FriendlyPrincipal(principals) == "" || ValidFriendlyName(FriendlyPrincipal(principals))
  {
    if principals != [] { FriendlyPrincipalIsValid(principals[1..]); }
  }

  /** Steps that touch neither the registry nor a handler. */
  lemma QuietStepKeeps(s: State, s': State)
    requires Inv(s) && SweepFits(s')
    requires s'.reg == s.reg && s'.handlers == s.handlers && s.closed <= s'.closed
    requires s.watch.Sweeping? && s.watch.closing.Some? ==>
      s.watch.closing.value in s'.closed || (s'.watch.Sweeping? && s'.watch.closing == s.watch.closing)
    ensures Inv(s')
  {
    forall c | c in s'.handlers ensures HandlerFits(s', c) && Reached(s', c) {
      assert HandlerFits(s, c) && Reached(s, c);
      if Doomed(s, c) { assert Doomed(s', c); }
    }
    forall n | n in s'.reg ensures EntryFits(s', n) {
      assert EntryFits(s, n);
    }
  }

  /** Steps in which a handler moves on without touching the registry. */
  lemma LocalStepKeeps(s: State, c: Conn, h: Handler, closed: set<Conn>)
    requires Inv(s) && c in s.handlers && s.closed <= closed
    requires h.id == s.handlers[c].id && h.names == s.handlers[c].names && NamesFit(h)
    requires h.phase in {Leaving, Finished} ==> c in closed
    requires Registered(h) ==> Registered(s.handlers[c]) || c in closed
    requires h.owes == s.handlers[c].owes
      || (h.owes == None && s.handlers[c].owes.value in closed)
    ensures Inv(With(s, c, h).(closed := closed))
  {
    var s' := With(s, c, h).(closed := closed);
    LocalStepHandlers(s, c, h, closed);
    LocalStepReached(s, c, h, closed);
    LocalStepEntries(s, c, h, closed);
  }

  lemma LocalStepHandlers(s: State, c: Conn, h: Handler, closed: set<Conn>)
    requires HandlersFit(s) && s.closed <= closed && NamesFit(h)
    requires h.phase in {Leaving, Finished} ==> c in closed
    ensures HandlersFit(With(s, c, h).(closed := closed))
  {
    var s' := With(s, c, h).(closed := closed);
    forall d | d in s'.handlers ensures HandlerFits(s', d) {
      if d != c { assert HandlerFits(s, d); }
    }
  }

  lemma LocalStepEntries(s: State, c: Conn, h: Handler, closed: set<Conn>)
    requires EntriesFit(s) && c in s.handlers && h.id == s.handlers[c].id && h.names == s.handlers[c].names
    ensures EntriesFit(With(s, c, h).(closed := closed))
  {
    var s' := With(s, c, h).(closed := closed);
    forall n | n in s'.reg ensures EntryFits(s', n) { assert EntryFits(s, n); }
  }

  lemma LocalStepReached(s: State, c: Conn, h: Handler, closed: set<Conn>)
    requires AllReached(s) && c in s.handlers && s.closed <= closed && h.id == s.handlers[c].id
    requires Registered(h) ==> Registered(s.handlers[c]) || c in closed
    requires h.owes == s.handlers[c].owes
      || (h.owes == None && s.handlers[c].owes.value in closed)
    ensures AllReached(With(s, c, h).(closed := closed))
  {
    var s' := With(s, c, h).(closed := closed);
    forall d | d in s'.handlers ensures Reached(s', d) {
      assert Reached(s, d);
      if Doomed(s, d) { DoomStays(s, s', c, d); }
    }
  }

  /** A close that is due stays due until it is done. */
  lemma DoomStays(s: State, s': State, c: Conn, d: Conn)
    requires Doomed(s, d) && s.closed <= s'.closed && s.watch == s'.watch
    requires c in s.handlers && c in s'.handlers
    requires s'.handlers == s.handlers[c := s'.handlers[c]]
    requires s.handlers[c].owes.Some? ==>
      s'.handlers[c].owes == s.handlers[c].owes || s.handlers[c].owes.value in s'.closed
    ensures Doomed(s', d)
  {
    if e :| e in s.handlers && s.handlers[e].owes == Some(d) {
      assert e in s'.handlers;
    }
  }

  lemma ConnectKeeps(env: Env, s: State, c: Conn, offer: Offer)
    requires Inv(s) && Enabled(env, s, Connect(c, offer))
    ensures Inv(Do(env, s, Connect(c, offer)))
  {
    KeyCheckIsValid(env, s.revoked, offer);
    NewHandlerKeeps(s, c, Handler(KeyCheck(env, s.revoked, offer).value, Checked, [], None));
  }

  lemma NewHandlerKeeps(s: State, c: Conn, h: Handler)
    requires Inv(s) && c !in s.handlers && h.phase == Checked && h.owes == None && NamesFit(h)
    ensures Inv(With(s, c, h))
  {
    var s' := With(s, c, h);
    forall d | d in s'.handlers ensures HandlerFits(s', d) {
      if d != c { assert HandlerFits(s, d); }
    }
    NewHandlerReached(s, c, h);
    NewHandlerEntries(s, c, h);
  }

  lemma NewHandlerEntries(s: State, c: Conn, h: Handler)
    requires EntriesFit(s) && c !in s.handlers
    ensures EntriesFit(With(s, c, h))
  {
    forall n | n in s.reg ensures EntryFits(With(s, c, h), n) { assert EntryFits(s, n); }
  }

  lemma NewHandlerReached(s: State, c: Conn, h: Handler)
    requires AllReached(s) && c !in s.handlers && h.phase == Checked && h.owes == None
    ensures AllReached(With(s, c, h))
  {
    var s' := With(s, c, h);
    forall d | d in s'.handlers ensures Reached(s', d) {
      if d != c {
        assert Reached(s, d);
        if e :| e in s.handlers && s.handlers[e].owes == Some(d) { assert e in s'.handlers; }
      }
    }
  }

  /** A successful add, under either name. */
  function Adding(s: State, c: Conn, name: string, phase: Phase): State
    requires c in s.handlers
  {
    var h := s.handlers[c];
    var r := RegistrationOf(c, h.id);
    With(s, c, Handler(h.id, phase, h.names + [name], Displaced(s.reg, name, r))).(reg := Added(s.reg, name, r))
  }

  predicate CanAdd(s: State, c: Conn, name: string, phase: Phase) {
    && c in s.handlers && s.handlers[c].owes == None
    && !AddRefused(s.reg, name, RegistrationOf(c, s.handlers[c].id))
    && NamesFit(s.handlers[c].(names := s.handlers[c].names + [name], phase := phase))
    && phase in {Named, Parked}
    && (name != s.handlers[c].id.canonical ==> Registered(s.handlers[c]))
  }

  lemma AddHandlers(s: State, c: Conn, name: string, phase: Phase)
    requires HandlersFit(s) && CanAdd(s, c, name, phase)
    ensures HandlersFit(Adding(s, c, name, phase))
  {
    var s' := Adding(s, c, name, phase);
    forall d | d in s'.handlers ensures HandlerFits(s', d) {
      if d != c { assert HandlerFits(s, d); }
    }
  }

  lemma AddEntries(s: State, c: Conn, name: string, phase: Phase)
    requires EntriesFit(s) && CanAdd(s, c, name, phase)
    ensures EntriesFit(Adding(s, c, name, phase))
  {
    var s' := Adding(s, c, name, phase);
    forall n | n in s'.reg ensures EntryFits(s', n) {
      if n != name { assert EntryFits(s, n); }
    }
  }

  lemma AddReached(s: State, c: Conn, name: string, phase: Phase)
    requires Inv(s) && CanAdd(s, c, name, phase)
    ensures AllReached(Adding(s, c, name, phase))
  {
    var s' := Adding(s, c, name, phase);
    forall d | d in s'.handlers ensures Reached(s', d) {
      assert Reached(s, d) && c in s'.handlers;
      if Doomed(s, d) { DoomStays(s, s', c, d); }
    }
  }

  lemma AddDebts(s: State, c: Conn, name: string, phase: Phase)
    requires EntriesFit(s) && DebtsFit(s) && CanAdd(s, c, name, phase)
    ensures DebtsFit(Adding(s, c, name, phase))
  {
    if name in s.reg { assert EntryFits(s, name); }
  }

  lemma AddSweep(s: State, c: Conn, name: string, phase: Phase)
    requires SweepFits(s) && CanAdd(s, c, name, phase)
    ensures SweepFits(Adding(s, c, name, phase))
  {}

  lemma AddKeeps(s: State, c: Conn, name: string, phase: Phase)
    requires Inv(s) && CanAdd(s, c, name, phase)
    ensures Inv(Adding(s, c, name, phase))
  {
    AddHandlers(s, c, name, phase);
    AddEntries(s, c, name, phase);
    AddReached(s, c, name, phase);
    AddDebts(s, c, name, phase);
    AddSweep(s, c, name, phase);
  }

  lemma TakeCanonicalKeeps(s: State, c: Conn)
    requires Inv(s) && In(s, c, Checked)
    ensures Inv(DoTakeCanonical(s, c))
  {
    assert HandlerFits(s, c);
    var h := s.handlers[c];
    if AddRefused(s.reg, h.id.canonical, RegistrationOf(c, h.id)) {
      LocalStepKeeps(s, c, h.(phase := Refused), s.closed);
    } else {
      assert h.names + [h.id.canonical] == [h.id.canonical];
      AddKeeps(s, c, h.id.canonical, Named);
    }
  }

  lemma TakeFriendlyKeeps(s: State, c: Conn)
    requires Inv(s) && In(s, c, Granted)
    ensures Inv(DoTakeFriendly(s, c))
  {
    assert HandlerFits(s, c);
    var h := s.handlers[c];
    if AddRefused(s.reg, h.id.friendly, RegistrationOf(c, h.id)) {
      LocalStepKeeps(s, c, h.(phase := Parked), s.closed);
    } else {
      AddKeeps(s, c, h.id.friendly, Parked);
    }
  }

  function Dropping(s: State, c: Conn): State
    requires c in s.handlers && s.handlers[c].names != []
  {
    var h := s.handlers[c];
    With(s, c, h.(names := h.names[1..])).(reg := Removed(s.reg, h.names[0], c))
  }

  lemma DropHandlers(s: State, c: Conn)
    requires HandlersFit(s) && In(s, c, Leaving) && s.handlers[c].names != []
    ensures HandlersFit(Dropping(s, c))
  {
    var names := s.handlers[c].names;
    assert names == [names[0]] + names[1..];
    assert forall n :: n in names[1..] ==> n in names;
    forall d | d in Dropping(s, c).handlers ensures HandlerFits(Dropping(s, c), d) { assert HandlerFits(s, d); }
  }

  lemma DropEntries(s: State, c: Conn)
    requires EntriesFit(s) && In(s, c, Leaving) && s.handlers[c].names != []
    ensures EntriesFit(Dropping(s, c))
  {
    var names := s.handlers[c].names;
    assert names == [names[0]] + names[1..];
    forall n | n in Dropping(s, c).reg ensures EntryFits(Dropping(s, c), n) { assert EntryFits(s, n); }
  }

  lemma DropReached(s: State, c: Conn)
    requires HandlersFit(s) && AllReached(s) && In(s, c, Leaving) && s.handlers[c].names != []
    ensures AllReached(Dropping(s, c))
  {
    var s' := Dropping(s, c);
    assert HandlerFits(s, c);
    forall d | d in s'.handlers ensures Reached(s', d) {
      assert Reached(s, d);
      if Doomed(s, d) { DoomStays(s, s', c, d); }
    }
  }

  lemma DropKeeps(s: State, c: Conn)
    requires Inv(s) && In(s, c, Leaving) && s.handlers[c].names != []
    ensures Inv(Dropping(s, c))
  {
    DropHandlers(s, c);
    DropEntries(s, c);
    DropReached(s, c);
  }

  lemma ReportKeeps(env: Env, s: State, c: Conn, key: Key)
    requires Inv(s) && c in s.handlers
    ensures Inv(DoReport(env, s, c, key))
  {
    WithHostFPKeeps(s, c, FingerprintSHA256(env.sha, key));
  }

  lemma WithHostFPKeeps(s: State, c: Conn, fp: string)
    requires Inv(s)
    ensures Inv(s.(reg := WithHostFP(s.reg, c, fp)))
  {
    var s' := s.(reg := WithHostFP(s.reg, c, fp));
    WithHostFPLeavesTheRest(s.reg, c, fp);
    WithHostFPEntries(s, s');
    WithHostFPReached(s, s');
    SameHandlersFit(s, s');
  }

  lemma WithHostFPLeavesTheRest(m: Table, c: Conn, fp: string)
    ensures WithHostFP(m, c, fp).Keys == m.Keys
    ensures forall n :: n in m ==> WithHostFP(m, c, fp)[n].(hostFP := "") == m[n].(hostFP := "")
    ensures forall n :: n in m ==> WithHostFP(m, c, fp)[n].conn == m[n].conn
  {}

  lemma SameHandlersFit(s: State, s': State)
    requires HandlersFit(s) && s'.handlers == s.handlers && s'.closed == s.closed
    ensures HandlersFit(s')
  {
    forall d | d in s'.handlers ensures HandlerFits(s', d) { assert HandlerFits(s, d); }
  }

  lemma WithHostFPReached(s: State, s': State)
    requires AllReached(s) && s' == s.(reg := s'.reg) && s'.reg.Keys == s.reg.Keys
    requires forall n :: n in s.reg ==> s'.reg[n].conn == s.reg[n].conn
    ensures AllReached(s')
  {
    forall d | d in s'.handlers ensures Reached(s', d) {
      assert Reached(s, d);
      if Doomed(s, d) { assert Doomed(s', d); }
    }
  }

  lemma WithHostFPEntries(s: State, s': State)
    requires EntriesFit(s) && s'.handlers == s.handlers && s'.reg.Keys == s.reg.Keys
    requires forall n :: n in s.reg ==> s'.reg[n].(hostFP := "") == s.reg[n].(hostFP := "")
    ensures EntriesFit(s')
  {
    forall n | n in s'.reg ensures EntryFits(s', n) {
      assert EntryFits(s, n);
      assert s'.reg[n].(hostFP := "").conn == s.reg[n].(hostFP := "").conn;
    }
  }

  lemma SnapshotFits(s: State, conns: map<Conn, string>)
    requires Inv(s) && IsConnections(s.reg, conns)
    ensures SweepFits(s.(watch := Sweeping(conns, None)))
  {
    forall c | c in conns ensures c in s.handlers && conns[c] == s.handlers[c].id.fp {
      var n :| n in s.reg && s.reg[n].conn == c && s.reg[n].fp == conns[c];
      assert EntryFits(s, n);
    }
  }

  lemma ClaimKeeps(s: State, c: Conn)
    requires Inv(s) && In(s, c, Named)
    ensures Inv(DoClaim(s, c))
  {
    assert HandlerFits(s, c);
    var s' := DoClaim(s, c);
    LocalStepKeeps(s, c, s'.handlers[c], s.closed);
    QuietStepKeeps(s'.(ledger := s.ledger), s');
  }

  lemma HandlerStepKeeps(env: Env, s: State, c: Conn, a: Step)
    requires Inv(s) && Enabled(env, s, a)
    requires a in {CloseSelf(c), PayClose(c), Claim(c), Wake(c), Finish(c)}
    ensures Inv(Do(env, s, a))
  {
    assert HandlerFits(s, c);
    var h := s.handlers[c];
    match a
    case CloseSelf(_) => LocalStepKeeps(s, c, h.(phase := Finished), s.closed + {c});
    case PayClose(_) => LocalStepKeeps(s, c, h.(owes := None), s.closed + {h.owes.value});
    case Claim(_) => ClaimKeeps(s, c);
    case Wake(_) => LocalStepKeeps(s, c, h.(phase := Leaving), s.closed);
    case Finish(_) => LocalStepKeeps(s, c, h.(phase := Finished), s.closed);
  }

  predicate Quiet(a: Step) {
    a.Die? || a.ReloadLedger? || a.ReloadFails? || a.ReloadSame? || a.Install? || a.Count?
    || a.Snapshot? || a.Check? || a.SweepClose? || a.SweepEnd?
  }

  lemma WatchStepKeeps(env: Env, s: State, a: Step)
    requires Inv(s) && Enabled(env, s, a) && Quiet(a)
    ensures Inv(Do(env, s, a))
  {
    if a.Snapshot? { SnapshotFits(s, a.conns); }
    QuietStepKeeps(s, Do(env, s, a));
  }

  lemma StepKeepsInv(env: Env, s: State, a: Step)
    requires Inv(s) && Enabled(env, s, a)
    ensures Inv(Do(env, s, a))
  {
    match a
    case Connect(c, offer) => ConnectKeeps(env, s, c, offer);
    case TakeCanonical(c) => TakeCanonicalKeeps(s, c);
    case TakeFriendly(c) => TakeFriendlyKeeps(s, c);
    case Drop(c) => DropKeeps(s, c);
    case Report(c, key) => ReportKeeps(env, s, c, key);
    case CloseSelf(c) => HandlerStepKeeps(env, s, c, a);
    case PayClose(c) => HandlerStepKeeps(env, s, c, a);
    case Claim(c) => HandlerStepKeeps(env, s, c, a);
    case Wake(c) => HandlerStepKeeps(env, s, c, a);
    case Finish(c) => HandlerStepKeeps(env, s, c, a);
    case _ => WatchStepKeeps(env, s, a);
  }

  // ---- Every state of every run ----

  lemma {:induction false} InvGoesOn(env: Env, states: seq<State>, steps: seq<Step>, i: nat)
    requires Steps(env, states, steps) && Inv(states[0]) && i < |states|
    ensures Inv(states[i])
  {
    if i > 0 {
      InvGoesOn(env, states, steps, i - 1);
      assert StepAt(env, states, steps, i - 1);
      StepKeepsInv(env, states[i - 1], steps[i - 1]);
    }
  }

  lemma RunKeepsInv(env: Env, states: seq<State>, steps: seq<Step>, i: nat)
    requires IsRun(env, states, steps) && i < |states|
    ensures Inv(states[i])
  {
    InvGoesOn(env, states, steps, i);
  }
}
