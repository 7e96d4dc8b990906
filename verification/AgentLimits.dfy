/** What the registration protocol does not promise: the newest connection of a
    machine need not keep both of its names. */
module AgentLimits {
  import opened Prelude
  import opened Registry
  import opened AgentProtocol
  import opened AgentInvariants
  import opened AgentTheorems

  const EMPTY := State(map[], map[], map[], map[], {}, Idle)

  /** An offer that is let in while nobody is barred, and asks for a friendly
      name. */
  ghost predicate Acceptable(env: Env, o: Offer, id: Identity) {
    KeyCheck(env, map[], o) == Some(id) && id.friendly != ""
  }

  // The stages of a first connection, numbered 0, on an empty registry.

  function Waiting(id: Identity): Handler { Handler(id, Checked, [], None) }
  function Holding(id: Identity): Handler { Handler(id, Named, [id.canonical], None) }
  function Allowed(id: Identity): Handler { Handler(id, Granted, [id.canonical], None) }
  function Settled(id: Identity): Handler { Handler(id, Parked, [id.canonical, id.friendly], None) }

  function Arrived(x: Identity): State { EMPTY.(handlers := map[0 := Waiting(x)]) }

  function HasName(x: Identity): State {
    EMPTY.(handlers := map[0 := Holding(x)], reg := map[x.canonical := RegistrationOf(0, x)])
  }

  function HasGrant(x: Identity): State {
    HasName(x).(handlers := map[0 := Allowed(x)], ledger := map[x.friendly := x.fp])
  }

  function HasBoth(x: Identity): State {
    HasGrant(x).(handlers := map[0 := Settled(x)],
                 reg := map[x.canonical := RegistrationOf(0, x), x.friendly := RegistrationOf(0, x)])
  }

  lemma FirstConnection(env: Env, o: Offer, x: Identity)
    requires Acceptable(env, o, x)
    ensures KindsFit(x) && x.canonical != x.friendly
    ensures Next(env, EMPTY, Connect(0, o), Arrived(x))
    ensures Next(env, Arrived(x), TakeCanonical(0), HasName(x))
    ensures Next(env, HasName(x), Claim(0), HasGrant(x))
    ensures Next(env, HasGrant(x), TakeFriendly(0), HasBoth(x))
  {
    KeyCheckIsValid(env, map[], o);
    assert [x.canonical] + [x.friendly] == [x.canonical, x.friendly];
    assert DoTakeFriendly(HasGrant(x), 0).reg == HasBoth(x).reg;
  }

  lemma ThreeSteps(env: Env, states: seq<State>, steps: seq<Step>)
    requires |states| == 4 && |steps| == 3
    requires Next(env, states[0], steps[0], states[1]) && Next(env, states[1], steps[1], states[2])
    requires Next(env, states[2], steps[2], states[3])
    ensures Steps(env, states, steps)
  {}

  // ---- The newest connection need not keep both names ----

  function Back(x: Identity): State {
    HasGrant(x).(handlers := map[0 := Allowed(x), 1 := Waiting(x)])
  }

  function Displacing(x: Identity): State {
    HasGrant(x).(handlers := map[0 := Allowed(x), 1 := Handler(x, Named, [x.canonical], Some(0))],
                 reg := map[x.canonical := RegistrationOf(1, x)])
  }

  function Displaced0(x: Identity): State {
    Displacing(x).(handlers := map[0 := Allowed(x), 1 := Holding(x)], closed := {0})
  }

  function BothGranted(x: Identity): State {
    Displaced0(x).(handlers := map[0 := Allowed(x), 1 := Allowed(x)])
  }

  function NewHasBoth(x: Identity): State {
    BothGranted(x).(handlers := map[0 := Allowed(x), 1 := Settled(x)],
                    reg := map[x.canonical := RegistrationOf(1, x), x.friendly := RegistrationOf(1, x)])
  }

  function OldTookItBack(x: Identity): State {
    NewHasBoth(x).(handlers := map[0 := Settled(x).(owes := Some(1)), 1 := Settled(x)],
                   reg := map[x.canonical := RegistrationOf(1, x), x.friendly := RegistrationOf(0, x)])
  }

  function BothClosed(x: Identity): State {
    OldTookItBack(x).(handlers := map[0 := Settled(x), 1 := Settled(x)], closed := {0, 1})
  }

  lemma ComesBack(env: Env, o: Offer, x: Identity)
    requires Acceptable(env, o, x)
    ensures Next(env, HasGrant(x), Connect(1, o), Back(x))
  {}

  lemma TakesCanonicalBack(env: Env, x: Identity)
    ensures Next(env, Back(x), TakeCanonical(1), Displacing(x))
  {}

  lemma ClosesOld(env: Env, x: Identity)
    ensures Next(env, Displacing(x), PayClose(1), Displaced0(x))
  {}

  lemma ClaimsAgain(env: Env, x: Identity)
    requires x.friendly != ""
    ensures Next(env, Displaced0(x), Claim(1), BothGranted(x))
  {}

  lemma TakeFriendlyNew(env: Env, x: Identity)
    requires KindsFit(x)
    ensures Next(env, BothGranted(x), TakeFriendly(1), NewHasBoth(x))
  {
    assert [x.canonical] + [x.friendly] == [x.canonical, x.friendly];
    assert DoTakeFriendly(BothGranted(x), 1).reg == NewHasBoth(x).reg;
  }

  lemma TakeFriendlyBack(env: Env, x: Identity)
    requires KindsFit(x)
    ensures Next(env, NewHasBoth(x), TakeFriendly(0), OldTookItBack(x))
  {
    OldsHandlers(x);
    OldsEntries(x);
  }

  lemma OldsHandlers(x: Identity)
    requires KindsFit(x)
    ensures DoTakeFriendly(NewHasBoth(x), 0).handlers == OldTookItBack(x).handlers
  {
    assert [x.canonical] + [x.friendly] == [x.canonical, x.friendly];
  }

  lemma OldsEntries(x: Identity)
    requires KindsFit(x)
    ensures DoTakeFriendly(NewHasBoth(x), 0).reg == OldTookItBack(x).reg
  {}

  /** A machine that reconnects displaces its old connection -- but the old
      connection's handler, if it was between its two adds, then takes the
      friendly name back and closes the new connection. Both end up closed. */
  lemma DisplacedHandlerCanCloseItsSuccessor(env: Env, o: Offer, x: Identity)
    returns (states: seq<State>, steps: seq<Step>)
    requires Acceptable(env, o, x)
    ensures IsRun(env, states, steps) && |steps| == 10
    ensures forall i :: 0 <= i < 10 ==> !steps[i].Die?
    ensures states[8].closed == {0} && states[10].closed == {0, 1}
    ensures states[8].reg == map[x.canonical := RegistrationOf(1, x), x.friendly := RegistrationOf(1, x)]
    ensures states[10].reg == map[x.canonical := RegistrationOf(1, x), x.friendly := RegistrationOf(0, x)]
  {
    var begun := [Connect(0, o), TakeCanonical(0), Claim(0), Connect(1, o), TakeCanonical(1)];
    var done := [PayClose(1), Claim(1), TakeFriendly(1), TakeFriendly(0), PayClose(0)];
    var before := [EMPTY, Arrived(x), HasName(x), HasGrant(x), Back(x), Displacing(x)];
    var after := [Displacing(x), Displaced0(x), BothGranted(x), NewHasBoth(x), OldTookItBack(x), BothClosed(x)];
    UpToDisplacing(env, o, x, before, begun);
    FromDisplacing(env, o, x, after, done);
    states, steps := before + after[1..], begun + done;
    JoinRuns(env, before, begun, after, done);
  }

  lemma OldClosesNew(env: Env, x: Identity)
    ensures Next(env, OldTookItBack(x), PayClose(0), BothClosed(x))
  {}

  lemma UpToDisplacing(env: Env, o: Offer, x: Identity, states: seq<State>, steps: seq<Step>)
    requires Acceptable(env, o, x)
    requires steps == [Connect(0, o), TakeCanonical(0), Claim(0), Connect(1, o), TakeCanonical(1)]
    requires states == [EMPTY, Arrived(x), HasName(x), HasGrant(x), Back(x), Displacing(x)]
    ensures Steps(env, states, steps)
  {
    FirstConnection(env, o, x);
    ComesBack(env, o, x);
    TakesCanonicalBack(env, x);
    FiveSteps(env, states, steps);
  }

  lemma FromDisplacing(env: Env, o: Offer, x: Identity, states: seq<State>, steps: seq<Step>)
    requires Acceptable(env, o, x)
    requires steps == [PayClose(1), Claim(1), TakeFriendly(1), TakeFriendly(0), PayClose(0)]
    requires states == [Displacing(x), Displaced0(x), BothGranted(x), NewHasBoth(x), OldTookItBack(x), BothClosed(x)]
    ensures Steps(env, states, steps)
  {
    NewGetsBoth(env, o, x, states[..4], steps[..3]);
    OldTakesBack(env, o, x, states[3..], steps[3..]);
    JoinRuns(env, states[..4], steps[..3], states[3..], steps[3..]);
    assert states == states[..4] + states[3..][1..] && steps == steps[..3] + steps[3..];
  }

  lemma NewGetsBoth(env: Env, o: Offer, x: Identity, states: seq<State>, steps: seq<Step>)
    requires Acceptable(env, o, x)
    requires steps == [PayClose(1), Claim(1), TakeFriendly(1)]
    requires states == [Displacing(x), Displaced0(x), BothGranted(x), NewHasBoth(x)]
    ensures Steps(env, states, steps)
  {
    KeyCheckIsValid(env, map[], o);
    ClosesOld(env, x);
    ClaimsAgain(env, x);
    TakeFriendlyNew(env, x);
    ThreeSteps(env, states, steps);
  }

  lemma OldTakesBack(env: Env, o: Offer, x: Identity, states: seq<State>, steps: seq<Step>)
    requires Acceptable(env, o, x)
    requires steps == [TakeFriendly(0), PayClose(0)]
    requires states == [NewHasBoth(x), OldTookItBack(x), BothClosed(x)]
    ensures Steps(env, states, steps)
  {
    KeyCheckIsValid(env, map[], o);
    TakeFriendlyBack(env, x);
    OldClosesNew(env, x);
  }

  lemma FiveSteps(env: Env, states: seq<State>, steps: seq<Step>)
    requires |states| == 6 && |steps| == 5
    requires Next(env, states[0], steps[0], states[1]) && Next(env, states[1], steps[1], states[2])
    requires Next(env, states[2], steps[2], states[3]) && Next(env, states[3], steps[3], states[4])
    requires Next(env, states[4], steps[4], states[5])
    ensures Steps(env, states, steps)
  {}

  lemma JoinRuns(env: Env, before: seq<State>, begun: seq<Step>, after: seq<State>, done: seq<Step>)
    requires Steps(env, before, begun) && Steps(env, after, done) && before[|begun|] == after[0]
    ensures Steps(env, before + after[1..], begun + done)
  {
    var states, steps := before + after[1..], begun + done;
    forall i | 0 <= i < |steps| ensures StepAt(env, states, steps, i) {
      if i < |begun| {
        assert StepAt(env, before, begun, i);
      } else {
        var j := i - |begun|;
        assert StepAt(env, after, done, j);
        assert states[i] == after[j] && states[i + 1] == after[j + 1];
      }
    }
  }

  /** When a live connection keeps its friendly name: in every step but the
      second add of another connection of its own machine. */
  lemma FriendlyNameIsKept(env: Env, s: State, a: Step, c: Conn)
    requires Inv(s) && Enabled(env, s, a) && c in s.handlers && c !in s.closed
    requires s.handlers[c].id.friendly in s.reg && s.reg[s.handlers[c].id.friendly].conn == c
    ensures var n := s.handlers[c].id.friendly; var s' := Do(env, s, a);
      (n in s'.reg && s'.reg[n].conn == c)
        <==> !(&& a.TakeFriendly? && a.c != c && s.handlers[a.c].id.friendly == n
               && s.handlers[a.c].id.fp == s.handlers[c].id.fp)
  {
    var n := s.handlers[c].id.friendly;
    assert HandlerFits(s, c) && EntryFits(s, n);
    assert s.reg[n].(hostFP := "").fp == s.reg[n].fp;
    if Adds(a) {
      assert HandlerFits(s, a.c);
      AddAtFriendlyEntry(env, s, a, n, s.handlers[c].id);
    } else {
      OthersLeaveEntries(env, s, a, n);
    }
  }

  lemma AddAtFriendlyEntry(env: Env, s: State, a: Step, n: string, id: Identity)
    requires Enabled(env, s, a) && Adds(a) && n in s.reg && s.reg[n].fp == id.fp
    requires n == id.friendly && KindsFit(id) && KindsFit(s.handlers[a.c].id)
    ensures var s' := Do(env, s, a);
      n in s'.reg && s'.reg[n].conn ==
        if a.TakeFriendly? && s.handlers[a.c].id.friendly == n && s.handlers[a.c].id.fp == id.fp
        then a.c else s.reg[n].conn
  {}

  lemma OthersLeaveEntries(env: Env, s: State, a: Step, n: string)
    requires Enabled(env, s, a) && n in s.reg && !Adds(a) && a != Drop(s.reg[n].conn)
    ensures var s' := Do(env, s, a); n in s'.reg && s'.reg[n].conn == s.reg[n].conn
  {}
}
