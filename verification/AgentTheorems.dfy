/** What holds in every run of the registration protocol. */
module AgentTheorems {
  import opened Naming
  import opened SortedNames
  import opened Registry
  import opened AgentProtocol
  import opened AgentInvariants

  // ---- What a lookup finds ----

  /** A connection whose handler did its first add, and which is neither closed
      nor about to be, is exactly what its canonical name leads to. */
  lemma LookupFindsTheLiveConnection(env: Env, states: seq<State>, steps: seq<Step>, i: nat, c: Conn)
    requires IsRun(env, states, steps) && i < |states|
    requires c in states[i].handlers && Registered(states[i].handlers[c]) && !Doomed(states[i], c)
    ensures var s := states[i]; var name := s.handlers[c].id.canonical;
      name in s.reg && s.reg[name].conn == c
  {
    RunKeepsInv(env, states, steps, i);
    assert Reached(states[i], c);
  }

  /** Every entry leads to a connection that authenticated the entry's name, and
      carries that connection's fingerprint and version. */
  lemma EntriesAreAuthentic(env: Env, states: seq<State>, steps: seq<Step>, i: nat, n: string)
    requires IsRun(env, states, steps) && i < |states| && n in states[i].reg
    ensures var s, r := states[i], states[i].reg[n];
      && r.conn in s.handlers && (var id := s.handlers[r.conn].id;
      && (n == id.canonical || (n == id.friendly && id.friendly != ""))
      && r.fp == id.fp && r.proto == id.proto && r.build == id.build && r.platform == id.platform)
  {
    RunKeepsInv(env, states, steps, i);
    EntryIsAuthentic(states[i], n);
  }

  lemma EntryIsAuthentic(s: State, n: string)
    requires Inv(s) && n in s.reg
    ensures var r := s.reg[n]; r.conn in s.handlers && (var id := s.handlers[r.conn].id;
      && (n == id.canonical || (n == id.friendly && id.friendly != ""))
      && r.(hostFP := "") == RegistrationOf(r.conn, id)
      && r.fp == id.fp && r.proto == id.proto && r.build == id.build && r.platform == id.platform)
  {
    var r := s.reg[n];
    assert EntryFits(s, n) && HandlerFits(s, r.conn);
    assert r.(hostFP := "").fp == r.fp && r.(hostFP := "").proto == r.proto;
    assert r.(hostFP := "").build == r.build && r.(hostFP := "").platform == r.platform;
  }

  /** A finished handler, and one that was refused, leave nothing behind. */
  lemma FinishedLeavesNothing(env: Env, states: seq<State>, steps: seq<Step>, i: nat, c: Conn)
    requires IsRun(env, states, steps) && i < |states|
    requires c in states[i].handlers && states[i].handlers[c].phase in {Refused, Finished}
    ensures forall n :: n in states[i].reg ==> states[i].reg[n].conn != c
    ensures states[i].handlers[c].phase == Finished ==> c in states[i].closed
  {
    RunKeepsInv(env, states, steps, i);
    var s := states[i];
    assert HandlerFits(s, c);
    forall n | n in s.reg ensures s.reg[n].conn != c { assert EntryFits(s, n); }
  }

  // ---- What one step can do to an entry ----

  predicate Adds(a: Step) { a.TakeCanonical? || a.TakeFriendly? }

  /** An entry that a step leaves is the same but for its host fingerprint, or
      new from an add by the same machine; one that goes is taken out by the
      handler of its own connection. */
  lemma EntryChanges(env: Env, s: State, a: Step, n: string)
    requires Enabled(env, s, a)
    ensures var s' := Do(env, s, a);
      n in s'.reg ==>
        || (n in s.reg && s'.reg[n].(hostFP := "") == s.reg[n].(hostFP := ""))
        || (&& Adds(a) && a.c in s.handlers && s'.reg[n] == RegistrationOf(a.c, s.handlers[a.c].id)
            && (n in s.reg ==> s.reg[n].fp == s.handlers[a.c].id.fp))
    ensures n in s.reg && n !in Do(env, s, a).reg ==> a == Drop(s.reg[n].conn)
  {}

  lemma IdentitiesStay(env: Env, s: State, a: Step, c: Conn)
    requires Enabled(env, s, a) && c in s.handlers
    ensures var s' := Do(env, s, a); c in s'.handlers && s'.handlers[c].id == s.handlers[c].id
  {}

  // ---- Machines do not disturb each other ----

  /** A step replaces an entry only by one of the same fingerprint, removes one
      only from the entry's own handler, and closes a displaced connection only
      for the machine it belongs to. */
  lemma MachinesDoNotDisturb(env: Env, states: seq<State>, steps: seq<Step>, i: nat, n: string)
    requires IsRun(env, states, steps) && i < |steps|
    ensures var s, a, s' := states[i], steps[i], states[i + 1];
      && (n in s.reg && n in s'.reg ==> s'.reg[n].fp == s.reg[n].fp)
      && (n in s.reg && n !in s'.reg ==> a == Drop(s.reg[n].conn))
      && (a.PayClose? ==> a.c in s.handlers && s.handlers[a.c].owes.Some? && var d := s.handlers[a.c].owes.value;
            d in s.handlers && s.handlers[d].id.fp == s.handlers[a.c].id.fp)
  {
    RunKeepsInv(env, states, steps, i);
    var s, a, s' := states[i], steps[i], states[i + 1];
    assert StepAt(env, states, steps, i);
    EntryChanges(env, s, a, n);
    if n in s.reg && n in s'.reg && s'.reg[n].(hostFP := "") == s.reg[n].(hostFP := "") {
      assert s'.reg[n].(hostFP := "").fp == s'.reg[n].fp && s.reg[n].(hostFP := "").fp == s.reg[n].fp;
    }
  }

  /** While a name stays registered, it stays with one fingerprint: it can only
      pass to another machine through a state in which it is absent. */
  lemma {:induction false} NamesChangeHandsOnlyWhenFree(env: Env, states: seq<State>, steps: seq<Step>,
                                                        i: nat, j: nat, n: string)
    requires IsRun(env, states, steps) && i <= j < |states|
    requires forall k :: i <= k <= j ==> n in states[k].reg
    ensures states[j].reg[n].fp == states[i].reg[n].fp
    decreases j - i
  {
    if i < j {
      NamesChangeHandsOnlyWhenFree(env, states, steps, i, j - 1, n);
      MachinesDoNotDisturb(env, states, steps, j - 1, n);
      assert n in states[j - 1].reg && n in states[j].reg;
    }
  }

  // ---- The ledger and the registry agree ----

  /** Friendly entries and standing grants are bound to their machine. */
  ghost predicate LedgerFits(s: State) {
    && (forall n :: n in s.reg && !IsCanonicalName(n) ==> n in s.ledger && s.ledger[n] == s.reg[n].fp)
    && (forall c :: c in s.handlers && s.handlers[c].phase == Granted ==>
          s.handlers[c].id.friendly in s.ledger
          && s.ledger[s.handlers[c].id.friendly] == s.handlers[c].id.fp)
  }

  /** A friendly name that an entry or a standing grant depends on. */
  ghost predicate HeldName(s: State, n: string) {
    || (n in s.reg && !IsCanonicalName(n))
    || exists c :: c in s.handlers && s.handlers[c].phase == Granted && s.handlers[c].id.friendly == n
  }

  /** What a ledger file must leave alone while the proxy runs: the held names
      are bound in it as they are in memory. */
  ghost predicate ReloadAgrees(s: State, bindings: map<string, string>) {
    forall n :: HeldName(s, n) ==> AgreesOn(s, bindings, n)
  }

  predicate AgreesOn(s: State, bindings: map<string, string>, n: string) {
    n in bindings && n in s.ledger && bindings[n] == s.ledger[n]
  }

  lemma ReloadFitsWhenItAgrees(s: State, bindings: map<string, string>)
    requires LedgerFits(s)
    ensures LedgerFits(s.(ledger := bindings)) <==> ReloadAgrees(s, bindings)
  {
    var s' := s.(ledger := bindings);
    if ReloadAgrees(s, bindings) {
      forall n | n in s.reg && !IsCanonicalName(n) ensures n in bindings && bindings[n] == s.reg[n].fp {
        assert HeldName(s, n) && AgreesOn(s, bindings, n);
      }
      forall c | c in s.handlers && s.handlers[c].phase == Granted
        ensures s.handlers[c].id.friendly in bindings
        ensures bindings[s.handlers[c].id.friendly] == s.handlers[c].id.fp
      {
        assert HeldName(s, s.handlers[c].id.friendly) && AgreesOn(s, bindings, s.handlers[c].id.friendly);
      }
    }
    if LedgerFits(s') {
      forall n | HeldName(s, n) ensures AgreesOn(s, bindings, n) {}
    }
  }

  lemma ClaimKeepsLedger(env: Env, s: State, c: Conn)
    requires Inv(s) && LedgerFits(s) && In(s, c, Named)
    ensures LedgerFits(DoClaim(s, c))
  {
    var s' := DoClaim(s, c);
    forall n | n in s'.reg && !IsCanonicalName(n) ensures n in s'.ledger && s'.ledger[n] == s'.reg[n].fp {
      assert n in s.reg;
    }
    forall d | d in s'.handlers && s'.handlers[d].phase == Granted
      ensures s'.handlers[d].id.friendly in s'.ledger
      ensures s'.ledger[s'.handlers[d].id.friendly] == s'.handlers[d].id.fp
    {
      if d != c { assert s.handlers[d] == s'.handlers[d]; }
    }
  }

  /** Only a claim makes a grant, and only a claim or a reload binds names. */
  lemma GrantsComeFromClaims(env: Env, s: State, a: Step, c: Conn)
    requires Enabled(env, s, a) && !a.ReloadLedger? && !a.Claim?
    ensures var s' := Do(env, s, a);
      && s'.ledger == s.ledger
      && (c in s'.handlers && s'.handlers[c].phase == Granted ==>
           c in s.handlers && s.handlers[c].phase == Granted && s'.handlers[c].id == s.handlers[c].id)
  {}

  lemma StepKeepsLedger(env: Env, s: State, a: Step)
    requires Inv(s) && LedgerFits(s) && Enabled(env, s, a)
    ensures LedgerFits(Do(env, s, a)) <==> (a.ReloadLedger? ==> ReloadAgrees(s, a.bindings))
  {
    if a.ReloadLedger? {
      ReloadFitsWhenItAgrees(s, a.bindings);
    } else if a.Claim? {
      ClaimKeepsLedger(env, s, a.c);
    } else {
      var s' := Do(env, s, a);
      GrantsComeFromClaims(env, s, a, 0);
      forall n | n in s'.reg && !IsCanonicalName(n) ensures n in s'.ledger && s'.ledger[n] == s'.reg[n].fp {
        FriendlyEntryKeepsLedger(env, s, a, n);
      }
      forall c | c in s'.handlers && s'.handlers[c].phase == Granted
        ensures s'.handlers[c].id.friendly in s'.ledger
        ensures s'.ledger[s'.handlers[c].id.friendly] == s'.handlers[c].id.fp
      {
        GrantsComeFromClaims(env, s, a, c);
      }
    }
  }

  lemma FriendlyEntryKeepsLedger(env: Env, s: State, a: Step, n: string)
    requires Inv(s) && LedgerFits(s) && Enabled(env, s, a) && !a.ReloadLedger? && !a.Claim?
    requires n in Do(env, s, a).reg && !IsCanonicalName(n)
    ensures n in s.ledger && s.ledger[n] == Do(env, s, a).reg[n].fp
  {
    FriendlyEntryComesFrom(env, s, a, n);
    if !(n in s.reg && Do(env, s, a).reg[n].fp == s.reg[n].fp) { assert HandlerFits(s, a.c); }
  }

  /** A friendly entry after a step was there before, for the same machine, or is
      the work of a second add. */
  lemma FriendlyEntryComesFrom(env: Env, s: State, a: Step, n: string)
    requires Inv(s) && Enabled(env, s, a) && n in Do(env, s, a).reg && !IsCanonicalName(n)
    ensures var s' := Do(env, s, a);
      || (n in s.reg && s'.reg[n].fp == s.reg[n].fp)
      || (&& a.TakeFriendly? && In(s, a.c, Granted) && n == s.handlers[a.c].id.friendly
          && s'.reg[n].fp == s.handlers[a.c].id.fp)
  {
    if a.TakeCanonical? { CanonicalAddLeavesFriendly(s, a.c, n); }
    else if a.TakeFriendly? { FriendlyAddLeavesOthers(s, a.c, n); }
    else { NoAddLeavesMachine(env, s, a, n); }
  }

  lemma CanonicalAddLeavesFriendly(s: State, c: Conn, n: string)
    requires Inv(s) && In(s, c, Checked) && n in DoTakeCanonical(s, c).reg && !IsCanonicalName(n)
    ensures n in s.reg && DoTakeCanonical(s, c).reg[n] == s.reg[n]
  {
    assert HandlerFits(s, c);
  }

  lemma FriendlyAddLeavesOthers(s: State, c: Conn, n: string)
    requires In(s, c, Granted) && n in DoTakeFriendly(s, c).reg
    ensures var s' := DoTakeFriendly(s, c);
      || (n in s.reg && s'.reg[n] == s.reg[n])
      || (n == s.handlers[c].id.friendly && s'.reg[n].fp == s.handlers[c].id.fp)
  {}

  lemma NoAddLeavesMachine(env: Env, s: State, a: Step, n: string)
    requires Enabled(env, s, a) && !Adds(a) && n in Do(env, s, a).reg
    ensures n in s.reg && Do(env, s, a).reg[n].fp == s.reg[n].fp
  {}

  /** Every reload so far, if any, agreed with the state it found. */
  ghost predicate ReloadsAgree(states: seq<State>, steps: seq<Step>, i: nat)
    requires i <= |steps| && |steps| <= |states|
  {
    forall k :: 0 <= k < i && steps[k].ReloadLedger? ==> ReloadAgrees(states[k], steps[k].bindings)
  }

  lemma {:induction false} LedgerGoesOn(env: Env, states: seq<State>, steps: seq<Step>, i: nat)
    requires Steps(env, states, steps) && i < |states|
    requires Inv(states[0]) && LedgerFits(states[0]) && ReloadsAgree(states, steps, i)
    ensures LedgerFits(states[i])
  {
    if i > 0 {
      LedgerGoesOn(env, states, steps, i - 1);
      InvGoesOn(env, states, steps, i - 1);
      assert StepAt(env, states, steps, i - 1);
      StepKeepsLedger(env, states[i - 1], steps[i - 1]);
    }
  }

  /** In every run, the ledger fits at every moment up to i if and only if every
      ledger reload before i agreed. */
  lemma RunKeepsLedger(env: Env, states: seq<State>, steps: seq<Step>, i: nat)
    requires IsRun(env, states, steps) && i < |states|
    ensures (forall k :: 0 <= k <= i ==> LedgerFits(states[k])) <==> ReloadsAgree(states, steps, i)
  {
    if ReloadsAgree(states, steps, i) {
      forall k | 0 <= k <= i ensures LedgerFits(states[k]) { LedgerGoesOn(env, states, steps, k); }
    }
    if forall k :: 0 <= k <= i ==> LedgerFits(states[k]) {
      forall k | 0 <= k < i && steps[k].ReloadLedger? ensures ReloadAgrees(states[k], steps[k].bindings) {
        assert StepAt(env, states, steps, k);
        RunKeepsInv(env, states, steps, k);
        StepKeepsLedger(env, states[k], steps[k]);
        assert LedgerFits(states[k + 1]);
      }
    }
  }

  /** A handler with a grant, whose add the registry would refuse. */
  predicate GrantRefused(s: State, c: Conn) {
    In(s, c, Granted) && AddRefused(s.reg, s.handlers[c].id.friendly, RegistrationOf(c, s.handlers[c].id))
  }

  lemma FittingGrantIsNotRefused(s: State, c: Conn)
    requires Inv(s) && LedgerFits(s)
    ensures !GrantRefused(s, c)
  {
    if In(s, c, Granted) { assert HandlerFits(s, c); }
  }

  /** As long as every ledger reload agrees, what the ledger granted the
      registry never refuses: the second add of a handler always succeeds. */
  lemma GrantedNamesAreNeverRefused(env: Env, states: seq<State>, steps: seq<Step>, i: nat, c: Conn)
    requires IsRun(env, states, steps) && i < |states| && ReloadsAgree(states, steps, i)
    requires In(states[i], c, Granted)
    ensures var s := states[i]; var h := s.handlers[c];
      && !GrantRefused(s, c)
      && DoTakeFriendly(s, c).reg[h.id.friendly] == RegistrationOf(c, h.id)
  {
    RunKeepsLedger(env, states, steps, i);
    RunKeepsInv(env, states, steps, i);
    FittingGrantIsNotRefused(states[i], c);
  }

  // ---- The listing ----

  /** A host fingerprint worth showing for a canonical name: none, or that of a
      key the name was derived from. */
  ghost predicate GoodHostFP(env: Env, canonical: string, hostFP: string) {
    hostFP == "" || exists key ::
      VerifyCanonicalName(env.sha, canonical, key) && hostFP == FingerprintSHA256(env.sha, key)
  }

  ghost predicate HostFPsFit(env: Env, s: State) {
    forall n :: n in s.reg ==>
      s.reg[n].conn in s.handlers && GoodHostFP(env, s.handlers[s.reg[n].conn].id.canonical, s.reg[n].hostFP)
  }

  lemma ReportKeepsHostFPs(env: Env, s: State, c: Conn, key: Key)
    requires HostFPsFit(env, s) && c in s.handlers
    ensures HostFPsFit(env, DoReport(env, s, c, key))
  {
    if VerifyCanonicalName(env.sha, s.handlers[c].id.canonical, key) {
      assert GoodHostFP(env, s.handlers[c].id.canonical, FingerprintSHA256(env.sha, key));
    }
  }

  lemma OtherEntriesKeepHostFP(env: Env, s: State, a: Step, n: string)
    requires Enabled(env, s, a) && !a.Report? && n in Do(env, s, a).reg
    ensures var s' := Do(env, s, a);
      (n in s.reg && s'.reg[n] == s.reg[n]) || (s'.reg[n].hostFP == "" && s'.reg[n].conn in s'.handlers)
  {}

  lemma StepKeepsHostFPs(env: Env, s: State, a: Step)
    requires Inv(s) && HostFPsFit(env, s) && Enabled(env, s, a)
    ensures HostFPsFit(env, Do(env, s, a))
  {
    if a.Report? {
      ReportKeepsHostFPs(env, s, a.c, a.key);
    } else {
      var s' := Do(env, s, a);
      forall n | n in s'.reg
        ensures s'.reg[n].conn in s'.handlers
        ensures GoodHostFP(env, s'.handlers[s'.reg[n].conn].id.canonical, s'.reg[n].hostFP)
      {
        OtherEntriesKeepHostFP(env, s, a, n);
        if n in s.reg && s'.reg[n] == s.reg[n] { IdentitiesStay(env, s, a, s.reg[n].conn); }
      }
    }
  }

  lemma {:induction false} RunKeepsHostFPs(env: Env, states: seq<State>, steps: seq<Step>, i: nat)
    requires IsRun(env, states, steps) && i < |states|
    ensures HostFPsFit(env, states[i])
  {
    if i > 0 {
      RunKeepsHostFPs(env, states, steps, i - 1);
      RunKeepsInv(env, states, steps, i - 1);
      assert StepAt(env, states, steps, i - 1);
      StepKeepsHostFPs(env, states[i - 1], steps[i - 1]);
    }
  }

  lemma FriendlyNamesAreSingle(s: State)
    requires Inv(s)
    ensures OneFriendlyName(s.reg)
  {
    forall a, b | a in s.reg && b in s.reg && !IsCanonicalName(a) && !IsCanonicalName(b)
      ensures s.reg[a].conn == s.reg[b].conn ==> a == b
    {
      EntryIsAuthentic(s, a);
      EntryIsAuthentic(s, b);
      assert HandlerFits(s, s.reg[a].conn);
    }
  }

  /** A row as a user reads it: the canonical name an agent authenticated, the
      friendly name of the same connection if it holds one, that connection's
      fingerprint, and a host fingerprint that re-derives the name. */
  ghost predicate RowIsTrue(env: Env, s: State, row: Target) {
    && row.canonical in s.reg && row.reg == s.reg[row.canonical]
    && row.reg.conn in s.handlers && (var id := s.handlers[row.reg.conn].id;
    && row.canonical == id.canonical && row.reg.fp == id.fp
    && row.friendly == (if id.friendly in s.reg && s.reg[id.friendly].conn == row.reg.conn then id.friendly else ""))
    && GoodHostFP(env, row.canonical, row.reg.hostFP)
  }

  function Canonicals(rows: seq<Target>): seq<string> {
    seq(|rows|, k requires 0 <= k < |rows| => rows[k].canonical)
  }

  lemma ListingNames(m: Table, rows: seq<Target>)
    requires IsListing(m, rows)
    ensures ListsInOrder(Canonicals(rows), CanonicalNames(m))
  {
    var names := InOrder(CanonicalNames(m));
    forall k | 0 <= k < |rows| ensures Canonicals(rows)[k] == names[k] {
      assert IsRow(m, names[k], rows[k]);
    }
    assert Canonicals(rows) == names;
  }

  /** In every reachable state, any two listings -- whatever order the map was
      visited in -- are the same rows, one for each canonical name in strict
      order, and every row is true. */
  lemma ListingIsTrueAndUnique(env: Env, states: seq<State>, steps: seq<Step>, i: nat,
                               rows: seq<Target>, rows': seq<Target>)
    requires IsRun(env, states, steps) && i < |states|
    requires IsListing(states[i].reg, rows) && IsListing(states[i].reg, rows')
    ensures rows == rows'
    ensures ListsInOrder(Canonicals(rows), CanonicalNames(states[i].reg))
    ensures forall k :: 0 <= k < |rows| ==> RowIsTrue(env, states[i], rows[k])
  {
    var s := states[i];
    RunKeepsInv(env, states, steps, i);
    RunKeepsHostFPs(env, states, steps, i);
    FriendlyNamesAreSingle(s);
    ListingIsDetermined(s.reg, rows, rows');
    ListingNames(s.reg, rows);
    ListingRowsAreTrue(env, s, rows);
  }

  lemma ListingRowsAreTrue(env: Env, s: State, rows: seq<Target>)
    requires Inv(s) && HostFPsFit(env, s) && IsListing(s.reg, rows)
    ensures forall k :: 0 <= k < |rows| ==> RowIsTrue(env, s, rows[k])
  {
    var names := InOrder(CanonicalNames(s.reg));
    forall k | 0 <= k < |rows| ensures RowIsTrue(env, s, rows[k]) {
      assert IsRow(s.reg, names[k], rows[k]);
      assert names[k] in Elements(names);
      RowOfListingIsTrue(env, s, names[k], rows[k]);
    }
  }

  lemma RowOfListingIsTrue(env: Env, s: State, canonical: string, row: Target)
    requires Inv(s) && HostFPsFit(env, s) && IsRow(s.reg, canonical, row) && IsCanonicalName(canonical)
    ensures RowIsTrue(env, s, row)
  {
    EntryIsAuthentic(s, canonical);
    assert HandlerFits(s, row.reg.conn);
    if row.friendly in s.reg { EntryIsAuthentic(s, row.friendly); }
  }
}
