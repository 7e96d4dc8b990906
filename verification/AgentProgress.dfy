/** Handlers do not get stuck: once its connection is closed, a handler always
    has a step of its own to take until it has finished, and few of them. */
module AgentProgress {
  import opened Registry
  import opened AgentProtocol
  import opened AgentInvariants

  /** The steps of connection c's own handler. */
  predicate Own(a: Step, c: Conn) {
    a in {TakeCanonical(c), CloseSelf(c), PayClose(c), Claim(c), TakeFriendly(c), Wake(c), Drop(c), Finish(c)}
  }

  /** More steps than the handler can still take. */
  function Left(h: Handler): nat {
    (match h.phase
     case Checked => 14
     case Named => 11
     case Granted => 9
     case Parked => 5
     case Leaving => 3
     case Refused => 1
     case Finished => 0)
    + |h.names| + if h.owes.Some? then 1 else 0
  }

  /** Whatever the others do, and whichever of its waits it is in: a handler that
      has not finished can move, if its connection is closed. */
  lemma ClosedHandlerCanMove(env: Env, s: State, c: Conn) returns (a: Step)
    requires Inv(s) && c in s.handlers && c in s.closed && s.handlers[c].phase != Finished
    ensures Own(a, c) && Enabled(env, s, a)
  {
    assert HandlerFits(s, c);
    var h := s.handlers[c];
    if h.owes.Some? { return PayClose(c); }
    match h.phase
    case Checked => a := TakeCanonical(c);
    case Refused => a := CloseSelf(c);
    case Named => a := Claim(c);
    case Granted => a := TakeFriendly(c);
    case Parked => a := Wake(c);
    case Leaving => a := if h.names != [] then Drop(c) else Finish(c);
  }

  /** Only a handler's own steps move it, and each brings it nearer its end. */
  lemma OwnStepsCount(env: Env, s: State, a: Step, c: Conn)
    requires Enabled(env, s, a) && c in s.handlers
    ensures c in Do(env, s, a).handlers
    ensures var h, h' := s.handlers[c], Do(env, s, a).handlers[c];
      if Own(a, c) then Left(h') < Left(h) else h' == h
  {
    if a == TakeCanonical(c) { TakingCanonicalCounts(s, c); }
    else if a == TakeFriendly(c) { TakingFriendlyCounts(s, c); }
    else if Own(a, c) { OtherOwnStepsCount(env, s, a, c); }
    else { OthersLeaveHandler(env, s, a, c); }
  }

  lemma TakingCanonicalCounts(s: State, c: Conn)
    requires In(s, c, Checked)
    ensures Left(DoTakeCanonical(s, c).handlers[c]) < Left(s.handlers[c])
  {}

  lemma TakingFriendlyCounts(s: State, c: Conn)
    requires In(s, c, Granted)
    ensures Left(DoTakeFriendly(s, c).handlers[c]) < Left(s.handlers[c])
  {}

  lemma OtherOwnStepsCount(env: Env, s: State, a: Step, c: Conn)
    requires Enabled(env, s, a) && Own(a, c) && !a.TakeCanonical? && !a.TakeFriendly?
    ensures Left(Do(env, s, a).handlers[c]) < Left(s.handlers[c])
  {}

  lemma OthersLeaveHandler(env: Env, s: State, a: Step, c: Conn)
    requires Enabled(env, s, a) && c in s.handlers && !Own(a, c)
    ensures var s' := Do(env, s, a); c in s'.handlers && s'.handlers[c] == s.handlers[c]
  {}

  // ---- Over runs ----

  /** How many of the first n steps are c's handler's own. */
  function Moves(steps: seq<Step>, c: Conn, n: nat): nat
    requires n <= |steps|
  {
    if n == 0 then 0 else Moves(steps, c, n - 1) + if Own(steps[n - 1], c) then 1 else 0
  }

  /** Every step of its own uses up some of what the handler has left, from any
      moment i of a run to any later one. */
  lemma {:induction false} HandlersTakeFewSteps(env: Env, states: seq<State>, steps: seq<Step>, i: nat, j: nat, c: Conn)
    requires IsRun(env, states, steps) && i <= j < |states| && c in states[i].handlers
    ensures c in states[j].handlers
    ensures Moves(steps, c, j) - Moves(steps, c, i) + Left(states[j].handlers[c]) <= Left(states[i].handlers[c])
    decreases j - i
  {
    if i < j {
      HandlersTakeFewSteps(env, states, steps, i, j - 1, c);
      assert StepAt(env, states, steps, j - 1);
      OwnStepsCount(env, states[j - 1], steps[j - 1], c);
    }
  }

  /** A closed connection's handler takes at most fourteen more steps of its own
      from its key check on, and whenever it stops it has finished, or can move:
      so a handler that is let run comes to its end and takes its names out. */
  lemma ClosedHandlersFinish(env: Env, states: seq<State>, steps: seq<Step>, i: nat, j: nat, c: Conn)
    requires IsRun(env, states, steps) && i <= j < |states|
    requires c in states[i].handlers && states[i].handlers[c].phase == Checked && c in states[j].closed
    ensures c in states[j].handlers && Moves(steps, c, j) - Moves(steps, c, i) <= 14
    ensures states[j].handlers[c].phase == Finished || exists a :: Own(a, c) && Enabled(env, states[j], a)
  {
    RunKeepsInv(env, states, steps, i);
    assert HandlerFits(states[i], c);
    HandlersTakeFewSteps(env, states, steps, i, j, c);
    RunKeepsInv(env, states, steps, j);
    if states[j].handlers[c].phase != Finished {
      var a := ClosedHandlerCanMove(env, states[j], c);
    }
  }
}
