/** Handing over a tunnel channel: the goroutine that asks the agent for it, the
    caller that gives up after a while, the drainer it leaves behind, and
    serveJump, which uses the channel. Any order of reply and timeout, including
    both being ready at once. */
module TunnelOpen {

  datatype Opener = Asking | Sending(ok: bool) | Sent

  datatype Caller =
    | Selecting
    | Holding    // openTunnel returned the channel; serveJump has yet to accept the client
    | Piping
    | Discarding // accepting the client failed; the channel is about to be closed
    | Finished

  datatype Drainer = NoDrainer | Waiting | Closing | Drained

  /** there: the tunnel channel was opened. buffer: the contents of the result
      channel, which has room for one: whether the open succeeded. closes: how
      often the tunnel channel was closed. */
  datatype State =
    State(opener: Opener, buffer: seq<bool>, caller: Caller, drainer: Drainer, there: bool, closes: nat)

  const START := State(Asking, [], Selecting, NoDrainer, false, 0)

  datatype Step =
    | Answer(ok: bool)
    | Send
    | Receive
    | TimeOut
    | Drain
    | DrainClose
    | Accept
    | AcceptFails
    | Discard
    | PipeEnds

  const CAPACITY := 1

  predicate Enabled(s: State, a: Step) {
    match a
    case Answer(_) => s.opener == Asking
    case Send => s.opener.Sending? && |s.buffer| < CAPACITY
    case Receive => s.caller == Selecting && s.buffer != []
    case TimeOut => s.caller == Selecting
    case Drain => s.drainer == Waiting && s.buffer != []
    case DrainClose => s.drainer == Closing
    case Accept => s.caller == Holding
    case AcceptFails => s.caller == Holding
    case Discard => s.caller == Discarding
    case PipeEnds => s.caller == Piping
  }

  function Do(s: State, a: Step): State
    requires Enabled(s, a)
  {
    match a
    case Answer(answer) => s.(opener := Sending(answer), there := answer)
    case Send => s.(opener := Sent, buffer := s.buffer + [s.opener.ok])
    case Receive => s.(buffer := s.buffer[1..], caller := if s.buffer[0] then Holding else Finished)
    case TimeOut => s.(caller := Finished, drainer := Waiting)
    case Drain => s.(buffer := s.buffer[1..], drainer := if s.buffer[0] then Closing else Drained)
    case DrainClose => s.(drainer := Drained, closes := s.closes + 1)
    case Accept => s.(caller := Piping)
    case AcceptFails => s.(caller := Discarding)
    case Discard => s.(caller := Finished, closes := s.closes + 1)
    case PipeEnds => s.(caller := Finished, closes := s.closes + 1)
  }

  /** The state after each step of a run. */
  ghost predicate IsRun(states: seq<State>, steps: seq<Step>) {
    && |states| == |steps| + 1 && states[0] == START
    && forall i :: 0 <= i < |steps| ==> StepAt(states, steps, i)
  }

  ghost predicate StepAt(states: seq<State>, steps: seq<Step>, i: nat) {
    i < |steps| && i + 1 < |states| && Enabled(states[i], steps[i]) && states[i + 1] == Do(states[i], steps[i])
  }

  function One(b: bool): nat { if b then 1 else 0 }

  /** Those who could close the channel now, or pass it on. */
  function Owners(s: State): nat {
    One(s.opener == Sending(true)) + One(s.buffer != [] && s.buffer[0])
    + One(s.caller in {Holding, Piping, Discarding}) + One(s.drainer == Closing)
  }

  predicate Inv(s: State) {
    && Owners(s) + s.closes == One(s.there)
    && |s.buffer| <= CAPACITY
    && (s.opener != Sent ==> s.buffer == [])
    && (s.opener == Asking ==> !s.there)
    && (s.caller in {Selecting, Holding, Piping, Discarding} ==> s.drainer == NoDrainer)
    && (s.opener.Sending? ==> s.opener.ok == s.there)
    && ((s.opener != Sent || s.buffer != []) <==> (s.caller == Selecting || s.drainer == Waiting))
  }

  lemma StepKeepsInv(s: State, a: Step)
    requires Inv(s) && Enabled(s, a)
    ensures Inv(Do(s, a))
  {}

  lemma {:induction false} RunKeepsInv(states: seq<State>, steps: seq<Step>, i: nat)
    requires IsRun(states, steps) && i < |states|
    ensures Inv(states[i])
  {
    if i > 0 {
      RunKeepsInv(states, steps, i - 1);
      assert StepAt(states, steps, i - 1);
      StepKeepsInv(states[i - 1], steps[i - 1]);
    }
  }

  /** The goroutine that opened the channel can always send its result, whether
      or not anyone still waits for it. */
  lemma OpenerNeverBlocks(states: seq<State>, steps: seq<Step>, i: nat)
    requires IsRun(states, steps) && i < |states| && states[i].opener.Sending?
    ensures Enabled(states[i], Send)
  {
    RunKeepsInv(states, steps, i);
  }

  /** An opened channel is at all times in exactly one pair of hands, or closed
      once; one that never opened is in none. So it is never both returned and
      closed by the drainer, and never closed twice. */
  lemma ChannelIsConserved(states: seq<State>, steps: seq<Step>, i: nat)
    requires IsRun(states, steps) && i < |states|
    ensures Owners(states[i]) + states[i].closes == One(states[i].there)
    ensures states[i].closes <= 1
  {
    RunKeepsInv(states, steps, i);
  }

  lemma {:induction false} DrainerMeansNotReturned(states: seq<State>, steps: seq<Step>, i: nat, j: nat)
    requires IsRun(states, steps) && i <= j < |states| && states[i].drainer != NoDrainer
    ensures states[j].drainer != NoDrainer && states[j].caller == Finished
    decreases j - i
  {
    RunKeepsInv(states, steps, i);
    if i < j {
      DrainerMeansNotReturned(states, steps, i, j - 1);
      assert StepAt(states, steps, j - 1);
    }
  }

  predicate Quiet(s: State) {
    && !Enabled(s, Send) && !Enabled(s, Receive) && !Enabled(s, TimeOut) && !Enabled(s, Drain)
    && !Enabled(s, DrainClose) && !Enabled(s, Accept) && !Enabled(s, AcceptFails)
    && !Enabled(s, Discard) && !Enabled(s, PipeEnds)
  }

  /** When nothing is left to do but wait for the agent, the caller has returned,
      and a channel that was opened has been closed, exactly once. */
  lemma QuietMeansClosed(states: seq<State>, steps: seq<Step>, i: nat)
    requires IsRun(states, steps) && i < |states| && Quiet(states[i])
    ensures states[i].caller == Finished && states[i].closes == One(states[i].there)
  {
    RunKeepsInv(states, steps, i);
  }

  /** A channel that was received in time is handed on: as long as accepting the
      client has not failed, it is held or piped, and it is closed only by the
      end of the piping. */
  lemma {:induction false} ReceivedChannelIsPiped(states: seq<State>, steps: seq<Step>, i: nat, j: nat)
    requires IsRun(states, steps) && i < j < |states| && steps[i] == Receive && states[i].buffer == [true]
    requires forall k :: i < k < j ==> steps[k] != AcceptFails
    ensures states[j].drainer == NoDrainer
    ensures var ended := exists k :: i < k < j && steps[k] == PipeEnds;
      var accepted := exists k :: i < k < j && steps[k] == Accept;
      && states[j].closes == (if ended then 1 else 0)
      && states[j].caller == (if ended then Finished else if accepted then Piping else Holding)
    decreases j
  {
    RunKeepsInv(states, steps, j - 1);
    assert StepAt(states, steps, j - 1);
    if j > i + 1 { ReceivedChannelIsPiped(states, steps, i, j - 1); }
  }

  /** What the caller gets is what the agent answered, unless it gave up first. */
  lemma CallerGetsTheAnswer(states: seq<State>, steps: seq<Step>, i: nat)
    requires IsRun(states, steps) && i < |steps| && steps[i] == Receive
    ensures states[i].opener == Sent && states[i].buffer == [states[i].there]
    ensures states[i + 1].caller == if states[i].there then Holding else Finished
  {
    RunKeepsInv(states, steps, i);
    BufferIsTheAnswer(states, steps, i);
    assert StepAt(states, steps, i);
  }

  lemma {:induction false} BufferIsTheAnswer(states: seq<State>, steps: seq<Step>, i: nat)
    requires IsRun(states, steps) && i < |states|
    ensures states[i].buffer == [] || states[i].buffer == [states[i].there]
  {
    if i > 0 {
      BufferIsTheAnswer(states, steps, i - 1);
      RunKeepsInv(states, steps, i - 1);
      assert StepAt(states, steps, i - 1);
    }
  }

  /** Steps still possible, at most. */
  function Remaining(s: State): nat {
    (match s.opener case Asking => 8 case Sending(_) => 4 case Sent => 0)
    + |s.buffer|
    + (match s.caller case Selecting => 4 case Holding => 2 case Piping => 1 case Discarding => 1 case Finished => 0)
    + (match s.drainer case NoDrainer => 0 case Waiting => 2 case Closing => 1 case Drained => 0)
  }

  lemma {:induction false} RunsAreShort(states: seq<State>, steps: seq<Step>, i: nat)
    requires IsRun(states, steps) && i < |states|
    ensures Remaining(states[i]) + i <= Remaining(START)
  {
    if i > 0 {
      RunsAreShort(states, steps, i - 1);
      assert StepAt(states, steps, i - 1);
      RunKeepsInv(states, steps, i - 1);
    }
  }
}
