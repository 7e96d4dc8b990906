/** Ledger reloads: exactly which of them can make the registry refuse a name the
    ledger has granted. */
module AgentReloads {
  import opened Prelude
  import opened Naming
  import opened Registry
  import opened AgentProtocol
  import opened AgentInvariants
  import opened AgentTheorems
  import opened AgentLimits
  import Ledger

  // ---- What a state can lead to without another ledger reload ----

  predicate HasReload(steps: seq<Step>) { exists a :: a in steps && a.ReloadLedger? }

  ghost predicate Path(env: Env, states: seq<State>, steps: seq<Step>, s: State, t: State) {
    Steps(env, states, steps) && states[0] == s && states[|steps|] == t && !HasReload(steps)
  }

  ghost predicate Leads(env: Env, s: State, t: State) {
    exists states, steps :: Path(env, states, steps, s, t)
  }

  lemma LeadsNowhere(env: Env, s: State)
    ensures Leads(env, s, s)
  {
    assert Path(env, [s], [], s, s);
  }

  lemma LeadsByStep(env: Env, s: State, a: Step, t: State)
    requires Next(env, s, a, t) && !a.ReloadLedger?
    ensures Leads(env, s, t)
  {
    assert StepAt(env, [s, t], [a], 0);
    assert Path(env, [s, t], [a], s, t);
  }

  lemma LeadsOn(env: Env, s: State, t: State, u: State)
    requires Leads(env, s, t) && Leads(env, t, u)
    ensures Leads(env, s, u)
  {
    var states, steps :| Path(env, states, steps, s, t);
    var states', steps' :| Path(env, states', steps', t, u);
    JoinRuns(env, states, steps, states', steps');
    assert Path(env, states + states'[1..], steps + steps', s, u);
  }

  // ---- The watcher can be brought to rest ----

  lemma ConnectionsExist(s: State) returns (conns: map<Conn, string>)
    requires Inv(s)
    ensures IsConnections(s.reg, conns)
  {
    var registered := set n | n in s.reg :: s.reg[n].conn;
    forall n | n in s.reg ensures s.reg[n].conn in s.handlers && s.reg[n].fp == s.handlers[s.reg[n].conn].id.fp {
      EntryIsAuthentic(s, n);
    }
    conns := map c | c in registered :: s.handlers[c].id.fp;
  }

  /** Only the watcher, and what it closes, differ. */
  predicate SameButWatcher(s: State, t: State) {
    t == s.(closed := t.closed, watch := t.watch)
  }

  lemma {:induction false} SweepEnds(env: Env, s: State) returns (t: State)
    requires s.watch.Sweeping?
    ensures Leads(env, s, t) && SameButWatcher(s, t) && t.watch == Idle
    decreases |s.watch.todo|, s.watch.closing.Some?
  {
    var a := NextOfSweep(s);
    var s' := Do(env, s, a);
    LeadsByStep(env, s, a, s');
    if s'.watch == Idle {
      t := s';
    } else {
      t := SweepEnds(env, s');
      LeadsOn(env, s, s', t);
    }
  }

  ghost function NextOfSweep(s: State): (a: Step)
    requires s.watch.Sweeping?
    ensures a == SweepEnd || a == SweepClose || a.Check?
    ensures forall env :: Enabled(env, s, a)
  {
    if s.watch.closing.Some? then SweepClose
    else if s.watch.todo == map[] then SweepEnd
    else
      var c :| c in s.watch.todo;
      Check(c)
  }

  lemma WatcherRests(env: Env, s: State) returns (t: State)
    requires Inv(s)
    ensures Leads(env, s, t) && SameButWatcher(s, t) && t.watch == Idle
  {
    match s.watch
    case Idle =>
      LeadsNowhere(env, s);
      t := s;
    case Due =>
      var s' := Do(env, s, Count);
      LeadsByStep(env, s, Count, s');
      if s'.watch == Idle {
        t := s';
      } else {
        t := CountedRests(env, s, s');
        LeadsOn(env, s, s', t);
      }
    case Counted => t := CountedRests(env, s, s);
    case Sweeping(_, _) => t := SweepEnds(env, s);
  }

  lemma CountedRests(env: Env, was: State, s: State) returns (t: State)
    requires Inv(was) && s.watch == Counted && s.reg == was.reg
    ensures Leads(env, s, t) && SameButWatcher(s, t) && t.watch == Idle
  {
    var conns := ConnectionsExist(was);
    var s' := Do(env, s, Snapshot(conns));
    LeadsByStep(env, s, Snapshot(conns), s');
    t := SweepEnds(env, s');
    LeadsOn(env, s, s', t);
  }

  /** And then nobody need be barred. */
  lemma NobodyBarred(env: Env, s: State) returns (t: State)
    requires Inv(s)
    ensures Leads(env, s, t) && SameButWatcher(s.(revoked := map[]), t)
  {
    var resting := WatcherRests(env, s);
    t := Do(env, resting, Install(map[]));
    LeadsByStep(env, resting, Install(map[]), t);
    LeadsOn(env, s, resting, t);
  }

  // ---- Another machine takes the name ----

  lemma UnusedConn(s: State) returns (d: Conn)
    ensures d !in s.handlers && d !in s.closed
  {
    d := Above(s.handlers.Keys + s.closed);
  }

  lemma {:induction false} Above(conns: set<Conn>) returns (d: Conn)
    ensures forall c :: c in conns ==> c < d
    decreases conns
  {
    d := 0;
    if conns != {} {
      var c :| c in conns;
      var e := Above(conns - {c});
      assert forall x :: x in conns ==> x == c || x in conns - {c};
      d := if c < e then e else c + 1;
    }
  }

  /** A machine of this fingerprint, under a canonical name nobody holds, that
      asks for the friendly name n. */
  function Taker(env: Env, fp: string, free: string, n: string): Offer {
    Offer(free, [n], fp, env.minProto, "", "", true)
  }

  function TakerId(env: Env, fp: string, free: string, n: string): Identity {
    Identity(fp, free, n, env.minProto, "", "")
  }

  lemma TakerIsLetIn(env: Env, fp: string, free: string, n: string)
    requires ValidCanonicalName(free) && ValidFriendlyName(n)
    ensures KeyCheck(env, map[], Taker(env, fp, free, n)) == Some(TakerId(env, fp, free, n))
    ensures KindsFit(TakerId(env, fp, free, n)) && n != ""
  {
    NamespacesAreDisjoint(free);
    NamespacesAreDisjoint(n);
  }

  // The stages of the taker's connection d, from a state s in which nobody is barred.

  function Came(s: State, d: Conn, y: Identity): State {
    With(s, d, Handler(y, Checked, [], None))
  }

  function Took(s: State, d: Conn, y: Identity): State {
    With(s, d, Handler(y, Named, [y.canonical], None))
      .(reg := s.reg[y.canonical := RegistrationOf(d, y)])
  }

  function Got(s: State, d: Conn, y: Identity): State {
    Took(s, d, y).(handlers := s.handlers[d := Handler(y, Granted, [y.canonical], None)],
                   ledger := Ledger.Bound(s.ledger, y.friendly, y.fp))
  }

  lemma TakerComes(env: Env, s: State, d: Conn, o: Offer, y: Identity)
    requires d !in s.handlers && d !in s.closed && KeyCheck(env, s.revoked, o) == Some(y)
    ensures Leads(env, s, Came(s, d, y))
  {
    LeadsByStep(env, s, Connect(d, o), Came(s, d, y));
  }

  lemma TakerTakesCanonical(env: Env, s: State, d: Conn, y: Identity)
    requires y.canonical !in s.reg
    ensures Leads(env, Came(s, d, y), Took(s, d, y))
  {
    assert Came(s, d, y).handlers[d := Handler(y, Named, [y.canonical], None)] == Took(s, d, y).handlers;
    LeadsByStep(env, Came(s, d, y), TakeCanonical(d), Took(s, d, y));
  }

  lemma TakerClaims(env: Env, s: State, d: Conn, y: Identity)
    requires y.friendly != "" && Ledger.Granted(s.ledger, y.friendly, y.fp)
    ensures Leads(env, Took(s, d, y), Got(s, d, y))
  {
    assert Took(s, d, y).handlers[d := Handler(y, Granted, [y.canonical], None)] == Got(s, d, y).handlers;
    LeadsByStep(env, Took(s, d, y), Claim(d), Got(s, d, y));
  }

  lemma TakerGetsGrant(env: Env, s: State, d: Conn, fp: string, free: string, n: string)
    requires d !in s.handlers && d !in s.closed && s.revoked == map[]
    requires ValidCanonicalName(free) && free !in s.reg && ValidFriendlyName(n) && Ledger.Granted(s.ledger, n, fp)
    ensures Leads(env, s, Got(s, d, TakerId(env, fp, free, n)))
  {
    var y := TakerId(env, fp, free, n);
    TakerIsLetIn(env, fp, free, n);
    TakerComes(env, s, d, Taker(env, fp, free, n), y);
    TakerTakesCanonical(env, s, d, y);
    TakerClaims(env, s, d, y);
    LeadsOn(env, s, Came(s, d, y), Took(s, d, y));
    LeadsOn(env, s, Took(s, d, y), Got(s, d, y));
  }

  // ---- And its holder is in the way ----

  lemma HeldNameIsValid(s: State, n: string)
    requires Inv(s) && LedgerFits(s) && HeldName(s, n)
    ensures ValidFriendlyName(n) && !IsCanonicalName(n) && n in s.ledger
  {
    if n in s.reg && !IsCanonicalName(n) {
      assert EntryFits(s, n) && HandlerFits(s, s.reg[n].conn);
    } else {
      var c :| c in s.handlers && s.handlers[c].phase == Granted && s.handlers[c].id.friendly == n;
      assert HandlerFits(s, c);
    }
  }

  lemma HolderIsThere(s: State, u: State, n: string, d: Conn, y: Identity)
    requires LedgerFits(s) && n in s.reg && n in s.ledger && !IsCanonicalName(n) && u.reg == s.reg
    requires y.friendly == n && y.fp != s.ledger[n] && KindsFit(y)
    ensures GrantRefused(Got(u, d, y), d)
  {}

  lemma HolderComesFirst(env: Env, s: State, u: State, n: string, d: Conn, y: Identity) returns (t: State)
    requires Inv(s) && LedgerFits(s) && HeldName(s, n) && n !in s.reg && n in s.ledger
    requires u.reg == s.reg && u.handlers == s.handlers && d !in u.handlers
    requires y.friendly == n && y.fp != s.ledger[n] && KindsFit(y)
    ensures Leads(env, Got(u, d, y), t) && GrantRefused(t, d)
  {
    var c :| c in s.handlers && s.handlers[c].phase == Granted && s.handlers[c].id.friendly == n;
    assert HandlerFits(s, c);
    t := DoTakeFriendly(Got(u, d, y), c);
    LeadsByStep(env, Got(u, d, y), TakeFriendly(c), t);
  }

  /** If fresh bindings do not agree on a held name, then some run comes to a
      refused grant: whoever is barred can be un-barred, and another machine,
      the one bound afresh or else any, asks for the name. */
  lemma DisagreementRefusesAGrant(env: Env, s: State, bindings: map<string, string>, n: string, free: string)
    returns (t: State, d: Conn)
    requires Inv(s) && LedgerFits(s) && HeldName(s, n) && !AgreesOn(s, bindings, n)
    requires ValidCanonicalName(free) && free !in s.reg
    ensures Leads(env, s.(ledger := bindings), t) && GrantRefused(t, d)
  {
    HeldNameIsValid(s, n);
    var start := s.(ledger := bindings);
    StepKeepsInv(env, s, ReloadLedger(bindings));
    var u := NobodyBarred(env, start);
    d := UnusedConn(u);
    var fp := if n in bindings then bindings[n] else s.ledger[n] + "x";
    var y := TakerId(env, fp, free, n);
    TakerIsLetIn(env, fp, free, n);
    TakerGetsGrant(env, u, d, fp, free, n);
    LeadsOn(env, start, u, Got(u, d, y));
    if n in s.reg {
      HolderIsThere(s, u, n, d, y);
      t := Got(u, d, y);
    } else {
      t := HolderComesFirst(env, s, u, n, d, y);
      LeadsOn(env, start, Got(u, d, y), t);
    }
  }

  // ---- Which reloads are harmless ----

  /** No run from here on, without another reload, comes to a refused grant. */
  ghost predicate NeverRefused(env: Env, s: State) {
    forall t, c :: Leads(env, s, t) ==> !GrantRefused(t, c)
  }

  lemma AgreementRefusesNoGrant(env: Env, s: State, t: State, c: Conn)
    requires Inv(s) && LedgerFits(s) && Leads(env, s, t)
    ensures !GrantRefused(t, c)
  {
    var states, steps :| Path(env, states, steps, s, t);
    InvGoesOn(env, states, steps, |steps|);
    LedgerGoesOn(env, states, steps, |steps|);
    FittingGrantIsNotRefused(t, c);
  }

  /** A reload is followed by no refused grant, in any run without another
      reload, if and only if the fresh bindings agree on every held name; as long
      as one well-formed canonical name is free. */
  lemma ReloadIsHarmlessExactlyWhenItAgrees(env: Env, s: State, bindings: map<string, string>, free: string)
    requires Inv(s) && LedgerFits(s) && ValidCanonicalName(free) && free !in s.reg
    ensures NeverRefused(env, s.(ledger := bindings)) <==> ReloadAgrees(s, bindings)
  {
    var start := s.(ledger := bindings);
    if ReloadAgrees(s, bindings) {
      ReloadFitsWhenItAgrees(s, bindings);
      StepKeepsInv(env, s, ReloadLedger(bindings));
      forall t, c | Leads(env, start, t) ensures !GrantRefused(t, c) { AgreementRefusesNoGrant(env, start, t, c); }
    } else {
      var n :| HeldName(s, n) && !AgreesOn(s, bindings, n);
      var t, d := DisagreementRefusesAGrant(env, s, bindings, n, free);
    }
  }

  // ---- A run from the start ----

  lemma FirstRun(env: Env, a: Offer, x: Identity) returns (states: seq<State>, steps: seq<Step>)
    requires Acceptable(env, a, x)
    ensures IsRun(env, states, steps) && states[|steps|] == HasBoth(x)
    ensures ReloadsAgree(states, steps, |steps|)
  {
    FirstConnection(env, a, x);
    steps := [Connect(0, a), TakeCanonical(0), Claim(0), TakeFriendly(0)];
    states := [EMPTY, Arrived(x), HasName(x), HasGrant(x), HasBoth(x)];
    ThreeSteps(env, states[..4], steps[..3]);
    OneMore(env, states[..4], steps[..3], steps[3], HasBoth(x));
    assert states == states[..4] + [HasBoth(x)] && steps == steps[..3] + [steps[3]];
  }

  lemma OneMore(env: Env, states: seq<State>, steps: seq<Step>, a: Step, end: State)
    requires Steps(env, states, steps) && Next(env, states[|steps|], a, end)
    ensures Steps(env, states + [end], steps + [a])
  {
    forall i | 0 <= i <= |steps| ensures StepAt(env, states + [end], steps + [a], i) {
      if i < |steps| { assert StepAt(env, states, steps, i); }
    }
  }

  /** Disagreement happens: a machine registers with a friendly name, and the
      ledger is emptied. */
  lemma ReloadDefeatsAGrant(env: Env, a: Offer, x: Identity, free: string)
    returns (states: seq<State>, steps: seq<Step>, d: Conn)
    requires Acceptable(env, a, x) && ValidCanonicalName(free) && free != x.canonical
    ensures IsRun(env, states, steps) && GrantRefused(states[|steps|], d)
  {
    var s := HasBoth(x);
    var begun, before := FirstRun(env, a, x);
    RunKeepsInv(env, begun, before, |before|);
    RunKeepsLedger(env, begun, before, |before|);
    KeyCheckIsValid(env, map[], a);
    NamespacesAreDisjoint(free);
    assert HeldName(s, x.friendly);
    var t;
    t, d := DisagreementRefusesAGrant(env, s, map[], x.friendly, free);
    OneMore(env, begun, before, ReloadLedger(map[]), s.(ledger := map[]));
    var after, done :| Path(env, after, done, s.(ledger := map[]), t);
    JoinRuns(env, begun + [s.(ledger := map[])], before + [ReloadLedger(map[])], after, done);
    states, steps := begun + [s.(ledger := map[])] + after[1..], before + [ReloadLedger(map[])] + done;
  }
}
