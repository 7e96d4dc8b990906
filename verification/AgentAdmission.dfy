/** Who is let in, and under what: what a connection's offer must be, that every
    handler in a run came from such an offer, and when its names are refused. */
module AgentAdmission {
  import opened Prelude
  import opened Naming
  import opened Registry
  import opened AgentProtocol
  import opened AgentTheorems

  // ---- The offer ----

  /** An agent that must be let in, and the only kind that may be: its
      certificate was accepted, its protocol is not too old, its key is not
      barred and it connects under a well-formed canonical name. */
  ghost predicate Welcome(env: Env, s: State, o: Offer) {
    o.certified && o.proto >= env.minProto && o.fp !in s.revoked && ValidCanonicalName(o.user)
  }

  /** The friendly name an identity carries is the first valid one among the
      principals, or none is valid. */
  ghost predicate FirstValid(principals: seq<string>, friendly: string) {
    if friendly == "" then forall p :: p in principals ==> !ValidFriendlyName(p)
    else exists i :: IsFirstValid(principals, friendly, i)
  }

  predicate IsFirstValid(principals: seq<string>, friendly: string, i: int) {
    && 0 <= i < |principals| && principals[i] == friendly && ValidFriendlyName(friendly)
    && forall j :: 0 <= j < i ==> !ValidFriendlyName(principals[j])
  }

  lemma {:induction false} PrincipalIsFirstValid(principals: seq<string>)
    ensures FirstValid(principals, FriendlyPrincipal(principals))
  {
    if principals != [] {
      var p, rest := principals[0], principals[1..];
      NamespacesAreDisjoint(p);
      if ValidFriendlyName(p) {
        assert IsFirstValid(principals, p, 0);
      } else {
        PrincipalIsFirstValid(rest);
        var friendly := FriendlyPrincipal(rest);
        if friendly != "" {
          var i :| IsFirstValid(rest, friendly, i);
          assert IsFirstValid(principals, friendly, i + 1);
        }
      }
    }
  }

  /** What a handler takes over from the offer it came from. */
  ghost predicate CameFrom(id: Identity, o: Offer) {
    && id.fp == o.fp && id.canonical == o.user && id.proto == o.proto
    && id.build == o.build && id.platform == o.platform && FirstValid(o.principals, id.friendly)
  }

  /** A new connection is let in if and only if its agent is welcome, and its
      handler then starts with what was offered, and with no name. */
  lemma ConnectingIsForTheWelcome(env: Env, s: State, c: Conn, o: Offer)
    requires c !in s.handlers && c !in s.closed
    ensures Enabled(env, s, Connect(c, o)) <==> Welcome(env, s, o)
    ensures Enabled(env, s, Connect(c, o)) ==>
      var s' := Do(env, s, Connect(c, o));
      c in s'.handlers && s'.handlers[c].phase == Checked && s'.handlers[c].names == []
      && CameFrom(s'.handlers[c].id, o)
  {
    PrincipalIsFirstValid(o.principals);
  }

  // ---- Over runs ----

  ghost predicate LetInAt(env: Env, states: seq<State>, steps: seq<Step>, j: nat, c: Conn, id: Identity)
    requires j < |steps| <= |states|
  {
    steps[j].Connect? && steps[j].c == c && Welcome(env, states[j], steps[j].offer) && CameFrom(id, steps[j].offer)
  }

  /** Every handler in a run is there because, earlier, its connection presented
      an offer that was welcome then, and it is still who that offer said. */
  lemma {:induction false} EveryHandlerWasLetIn(env: Env, states: seq<State>, steps: seq<Step>, i: nat, c: Conn)
    returns (j: nat)
    requires IsRun(env, states, steps) && i < |states| && c in states[i].handlers
    ensures j < i && LetInAt(env, states, steps, j, c, states[i].handlers[c].id)
  {
    assert StepAt(env, states, steps, i - 1);
    if c in states[i - 1].handlers {
      j := EveryHandlerWasLetIn(env, states, steps, i - 1, c);
      IdentitiesStay(env, states[i - 1], steps[i - 1], c);
    } else {
      j := i - 1;
      OnlyConnectBringsHandlers(env, states[j], steps[j], c);
      ConnectingIsForTheWelcome(env, states[j], c, steps[j].offer);
    }
  }

  lemma OnlyConnectBringsHandlers(env: Env, s: State, a: Step, c: Conn)
    requires Enabled(env, s, a) && c !in s.handlers && c in Do(env, s, a).handlers
    ensures a.Connect? && a.c == c && c !in s.closed
  {}

  // ---- And under which names ----

  /** A name is refused only while another machine holds it: never to its own
      machine, however its agent, its protocol or its platform has changed. */
  lemma CanonicalNameIsRefusedOnlyToOthers(env: Env, s: State, c: Conn)
    requires In(s, c, Checked)
    ensures var s' := Do(env, s, TakeCanonical(c)); var id := s.handlers[c].id;
      if id.canonical in s.reg && s.reg[id.canonical].fp != id.fp
      then s'.reg == s.reg && s'.handlers[c].phase == Refused && s'.handlers[c].owes == None
      else s'.reg == s.reg[id.canonical := RegistrationOf(c, id)] && s'.handlers[c].phase == Named
  {}

  lemma FriendlyNameIsRefusedOnlyToOthers(env: Env, s: State, c: Conn)
    requires In(s, c, Granted)
    ensures var s' := Do(env, s, TakeFriendly(c)); var id := s.handlers[c].id;
      && s'.handlers[c].phase == Parked
      && s'.reg == if id.friendly in s.reg && s.reg[id.friendly].fp != id.fp then s.reg
                   else s.reg[id.friendly := RegistrationOf(c, id)]
  {}

  /** A claim goes on to the second add if and only if the name is this machine's
      in the ledger or nobody's, and then it is this machine's. */
  lemma ClaimIsForTheHolder(env: Env, s: State, c: Conn)
    requires In(s, c, Named)
    ensures var s' := Do(env, s, Claim(c)); var id := s.handlers[c].id;
      if id.friendly != "" && (id.friendly in s.ledger ==> s.ledger[id.friendly] == id.fp)
      then s'.handlers[c].phase == Granted && s'.ledger == s.ledger[id.friendly := id.fp]
      else s'.handlers[c].phase == Parked && s'.ledger == s.ledger
  {}

  /** Which connection an add leaves to be closed: the one it displaced, if that
      is another, and it is always one of the same machine. */
  lemma AddsDisplaceTheirOwn(env: Env, s: State, c: Conn)
    requires In(s, c, Checked)
    ensures var s' := Do(env, s, TakeCanonical(c)); var id := s.handlers[c].id;
      s'.handlers[c].owes ==
        if id.canonical in s.reg && s.reg[id.canonical].fp == id.fp && s.reg[id.canonical].conn != c
        then Some(s.reg[id.canonical].conn) else None
  {}
}
