/** Pipe: two copy loops between two channels, in any interleaving and any
    chunking. The channels are sides A and B; the direction to a side copies
    what is read from the other side into it. */
module Pipe {
  import opened Prelude

  datatype Side = A | B

  /** What the channels are told, in order. */
  datatype Event = Wrote(side: Side, data: seq<byte>) | HalfClosed(side: Side) | Closed(side: Side)

  datatype Stage =
    | Reading
    | Writing(chunk: seq<byte>, ended: bool)  // ended: the read also reported the end, or an error
    | Ending                                  // io.Copy has returned; CloseWrite is next
    | Done

  /** One copy loop. input: everything the other side will ever send. read: how
      much of it has been read. written: what this side has been given. clean:
      nothing went wrong in this direction. */
  datatype Direction =
    Direction(stage: Stage, input: seq<byte>, read: nat, written: seq<byte>, clean: bool)

  /** closed: how many of the two final Close calls have been made. */
  datatype State = State(toA: Direction, toB: Direction, log: seq<Event>, closed: nat)

  function To(s: State, x: Side): Direction {
    if x == A then s.toA else s.toB
  }

  function With(s: State, x: Side, d: Direction): State {
    if x == A then s.(toA := d) else s.(toB := d)
  }

  // ---- The copy loop of one direction ----

  datatype Move =
    | Read(n: nat, ended: bool)  // n octets arrive, perhaps with the end
    | ReadFails(n: nat)          // n octets arrive with an error
    | Write                      // the whole chunk is taken
    | WriteFails(n: nat)         // n octets of it are taken, then an error or a short write
    | CloseWrite

  predicate CanMove(d: Direction, m: Move) {
    match m
    case Read(n, ended) => d.stage == Reading && d.read + n <= |d.input| && (ended ==> d.read + n == |d.input|)
    case ReadFails(n) => d.stage == Reading && d.read + n <= |d.input|
    case Write => d.stage.Writing?
    case WriteFails(n) => d.stage.Writing? && n <= |d.stage.chunk|
    case CloseWrite => d.stage == Ending
  }

  /** After a read: an empty chunk is not written. */
  function AfterRead(chunk: seq<byte>, ended: bool): Stage {
    if chunk != [] then Writing(chunk, ended) else if ended then Ending else Reading
  }

  function Moved(d: Direction, m: Move): Direction
    requires CanMove(d, m)
  {
    match m
    case Read(n, ended) =>
      d.(stage := AfterRead(d.input[d.read..d.read + n], ended), read := d.read + n)
    case ReadFails(n) =>
      d.(stage := AfterRead(d.input[d.read..d.read + n], true), read := d.read + n, clean := false)
    case Write => d.(stage := if d.stage.ended then Ending else Reading, written := d.written + d.stage.chunk)
    case WriteFails(n) => d.(stage := Ending, written := d.written + d.stage.chunk[..n], clean := false)
    case CloseWrite => d.(stage := Done)
  }

  /** What the channel is told by a move. */
  function Told(d: Direction, x: Side, m: Move): seq<Event>
    requires CanMove(d, m)
  {
    match m
    case Read(_, _) => []
    case ReadFails(_) => []
    case Write => [Wrote(x, d.stage.chunk)]
    case WriteFails(n) => [Wrote(x, d.stage.chunk[..n])]
    case CloseWrite => [HalfClosed(x)]
  }

  /** Whatever was given to the side is a prefix of what was read from the
      other, with nothing missing unless something went wrong. */
  predicate DirectionFits(d: Direction) {
    && d.read <= |d.input|
    && d.written <= d.input[..d.read]
    && (d.stage == Reading ==> d.written == d.input[..d.read])
    && (d.stage.Writing? ==> d.written + d.stage.chunk == d.input[..d.read])
    && (d.clean && d.stage.Writing? && d.stage.ended ==> d.read == |d.input|)
    && (d.clean && d.stage in {Ending, Done} ==> d.written == d.input)
  }

  lemma MoveFits(d: Direction, m: Move)
    requires DirectionFits(d) && CanMove(d, m)
    ensures DirectionFits(Moved(d, m)) && Moved(d, m).input == d.input && d.written <= Moved(d, m).written
  {
    if m.Read? || m.ReadFails? {
      assert d.input[..d.read] + d.input[d.read..d.read + m.n] == d.input[..d.read + m.n];
    }
    if m.WriteFails? {
      assert d.stage.chunk == d.stage.chunk[..m.n] + d.stage.chunk[m.n..];
      assert d.input[..d.read] == d.written + d.stage.chunk[..m.n] + d.stage.chunk[m.n..];
    }
  }

  // ---- Both directions ----

  datatype Step = Copy(to: Side, move: Move) | Close

  predicate Enabled(s: State, a: Step) {
    match a
    case Copy(x, m) => CanMove(To(s, x), m)
    case Close => s.toA.stage == Done && s.toB.stage == Done && s.closed < 2
  }

  function Do(s: State, a: Step): State
    requires Enabled(s, a)
  {
    match a
    case Copy(x, m) => With(s, x, Moved(To(s, x), m)).(log := s.log + Told(To(s, x), x, m))
    case Close => s.(log := s.log + [Closed(if s.closed == 0 then A else B)], closed := s.closed + 1)
  }

  predicate Fresh(d: Direction) {
    d.stage == Reading && d.read == 0 && d.written == [] && d.clean
  }

  predicate Init(s: State) {
    Fresh(s.toA) && Fresh(s.toB) && s.log == [] && s.closed == 0
  }

  ghost predicate StepAt(states: seq<State>, steps: seq<Step>, i: nat) {
    i < |steps| && i + 1 < |states| && Enabled(states[i], steps[i]) && states[i + 1] == Do(states[i], steps[i])
  }

  ghost predicate IsRun(states: seq<State>, steps: seq<Step>) {
    && |states| == |steps| + 1 && Init(states[0])
    && forall i :: 0 <= i < |steps| ==> StepAt(states, steps, i)
  }

  // ---- What the channels see ----

  /** The octets a side was given, going by the log. */
  function Received(log: seq<Event>, x: Side): seq<byte> {
    if log == [] then []
    else
      var e := log[|log| - 1];
      Received(log[..|log| - 1], x) + (if e.Wrote? && e.side == x then e.data else [])
  }

  /** An event that may follow these: no write after a half-close, one half-close
      a side, and both closes, A's first, after both half-closes. */
  predicate MayFollow(log: seq<Event>, e: Event) {
    match e
    case Wrote(x, _) => HalfClosed(x) !in log
    case HalfClosed(x) => HalfClosed(x) !in log
    case Closed(x) =>
      && HalfClosed(A) in log && HalfClosed(B) in log && Closed(x) !in log
      && (x == B ==> Closed(A) in log)
  }

  predicate WellOrdered(log: seq<Event>) {
    log == [] || (WellOrdered(log[..|log| - 1]) && MayFollow(log[..|log| - 1], log[|log| - 1]))
  }

  lemma {:induction false} OrderedAt(log: seq<Event>, i: nat)
    requires WellOrdered(log) && i < |log|
    ensures MayFollow(log[..i], log[i])
  {
    if i < |log| - 1 {
      OrderedAt(log[..|log| - 1], i);
      assert log[..|log| - 1][..i] == log[..i];
    }
  }

  /** The log says of a side what its direction has done. */
  predicate SideFits(log: seq<Event>, x: Side, d: Direction) {
    Received(log, x) == d.written && (HalfClosed(x) in log <==> d.stage == Done)
  }

  predicate LogFits(s: State) {
    && WellOrdered(s.log) && s.closed <= 2
    && SideFits(s.log, A, s.toA) && SideFits(s.log, B, s.toB)
    && (Closed(A) in s.log <==> s.closed >= 1) && (Closed(B) in s.log <==> s.closed == 2)
  }

  predicate Inv(s: State) {
    DirectionFits(s.toA) && DirectionFits(s.toB) && LogFits(s)
  }

  lemma AppendEvent(log: seq<Event>, e: Event)
    requires WellOrdered(log) && MayFollow(log, e)
    ensures WellOrdered(log + [e])
    ensures forall x :: Received(log + [e], x) == Received(log, x) + (if e.Wrote? && e.side == x then e.data else [])
  {
    assert (log + [e])[..|log|] == log;
  }

  lemma CopyKeepsInv(s: State, x: Side, m: Move)
    requires Inv(s) && CanMove(To(s, x), m)
    ensures Inv(Do(s, Copy(x, m)))
  {
    MoveFits(To(s, x), m);
    if m.Read? || m.ReadFails? {
      assert s.log + [] == s.log;
    } else {
      TellingKeepsLog(s, x, m);
    }
  }

  lemma TellingKeepsLog(s: State, x: Side, m: Move)
    requires LogFits(s) && CanMove(To(s, x), m) && !m.Read? && !m.ReadFails?
    ensures LogFits(Do(s, Copy(x, m)))
  {
    var d := To(s, x);
    var e := Told(d, x, m)[0];
    assert Told(d, x, m) == [e];
    AppendEvent(s.log, e);
    TellingFits(s.log, d, x, m, e);
    OtherSideFits(s.log, e, B, s.toB);
    OtherSideFits(s.log, e, A, s.toA);
    assert Closed(A) in s.log + [e] <==> Closed(A) in s.log;
    assert Closed(B) in s.log + [e] <==> Closed(B) in s.log;
  }

  lemma TellingFits(log: seq<Event>, d: Direction, x: Side, m: Move, e: Event)
    requires SideFits(log, x, d) && WellOrdered(log) && CanMove(d, m) && Told(d, x, m) == [e] && MayFollow(log, e)
    ensures SideFits(log + [e], x, Moved(d, m))
  {
    AppendEvent(log, e);
  }

  lemma OtherSideFits(log: seq<Event>, e: Event, y: Side, d: Direction)
    requires SideFits(log, y, d) && WellOrdered(log) && MayFollow(log, e)
    ensures e.side != y ==> SideFits(log + [e], y, d)
  {
    AppendEvent(log, e);
  }

  lemma CloseKeepsInv(s: State)
    requires Inv(s) && Enabled(s, Close)
    ensures Inv(Do(s, Close))
  {
    AppendEvent(s.log, Closed(if s.closed == 0 then A else B));
  }

  lemma {:induction false} RunKeepsInv(states: seq<State>, steps: seq<Step>, i: nat)
    requires IsRun(states, steps) && i < |states|
    ensures Inv(states[i])
    ensures states[i].toA.input == states[0].toA.input && states[i].toB.input == states[0].toB.input
  {
    if i > 0 {
      RunKeepsInv(states, steps, i - 1);
      assert StepAt(states, steps, i - 1);
      match steps[i - 1]
      case Copy(x, m) =>
        CopyKeepsInv(states[i - 1], x, m);
        MoveFits(To(states[i - 1], x), m);
      case Close => CloseKeepsInv(states[i - 1]);
    }
  }

  // ---- What Pipe promises ----

  /** At all times, what a side has received is a prefix of what has been read
      from the other side, which is a prefix of what that side sends. */
  lemma ReceivedIsAPrefixOfRead(states: seq<State>, steps: seq<Step>, i: nat, x: Side)
    requires IsRun(states, steps) && i < |states|
    ensures var d := To(states[i], x);
      d.read <= |To(states[0], x).input| && Received(states[i].log, x) <= To(states[0], x).input[..d.read]
  {
    RunKeepsInv(states, steps, i);
  }

  /** Nothing is written to a side after its half-close, and nothing is closed
      before both half-closes. */
  lemma EndsComeInOrder(states: seq<State>, steps: seq<Step>, k: nat, i: nat, j: nat)
    requires IsRun(states, steps) && k < |states| && i < j < |states[k].log|
    ensures var log := states[k].log;
      && (log[i].HalfClosed? ==> log[j] != log[i] && !(log[j].Wrote? && log[j].side == log[i].side))
      && (log[i].Closed? ==> log[i] == Closed(A) && log[j] == Closed(B))
      && (log[j].Closed? ==>
            exists a, b :: 0 <= a < j && 0 <= b < j && log[a] == HalfClosed(A) && log[b] == HalfClosed(B))
  {
    RunKeepsInv(states, steps, k);
    var log := states[k].log;
    OrderedAt(log, i);
    OrderedAt(log, j);
    assert log[i] in log[..j] by { assert log[..j][i] == log[i]; }
    if log[j].Closed? {
      var a :| 0 <= a < j && log[..j][a] == HalfClosed(A);
      var b :| 0 <= b < j && log[..j][b] == HalfClosed(B);
      assert log[a] == HalfClosed(A) && log[b] == HalfClosed(B);
    }
    if log[i].Closed? { NothingAfterCloses(log, i, j); }
  }

  /** Both half-closes come before any close, so only the other close follows. */
  lemma NothingAfterCloses(log: seq<Event>, i: nat, j: nat)
    requires WellOrdered(log) && i < j < |log| && log[i].Closed?
    ensures log[i] == Closed(A) && log[j] == Closed(B)
  {
    OrderedAt(log, i);
    OrderedAt(log, j);
    assert log[i] in log[..j] by { assert log[..j][i] == log[i]; }
    var x, y := log[i].side, log[j].side;
    assert (x == A || x == B) && (y == A || y == B);
    assert forall e :: e in log[..i] ==> e in log[..j] by {
      forall e | e in log[..i] ensures e in log[..j] {
        var k :| 0 <= k < i && log[..i][k] == e;
        assert log[..j][k] == e;
      }
    }
  }

  /** A direction in which nothing went wrong has delivered everything by the
      time its side is half-closed, and the half-close cuts nothing off; so an error-free Pipe delivers both streams
      in full before either channel is closed. */
  lemma ErrorFreePipeDeliversEverything(states: seq<State>, steps: seq<Step>, i: nat, x: Side)
    requires IsRun(states, steps) && i < |states| && To(states[i], x).clean
    requires HalfClosed(x) in states[i].log || states[i].closed > 0
    ensures Received(states[i].log, x) == To(states[0], x).input
  {
    RunKeepsInv(states, steps, i);
    assert states[i].closed > 0 ==> Closed(A) in states[i].log;
    if states[i].closed > 0 {
      var k :| 0 <= k < |states[i].log| && states[i].log[k] == Closed(A);
      OrderedAt(states[i].log, k);
      assert HalfClosed(x) in states[i].log[..k];
    }
  }

  // ---- How a Pipe ends ----

  /** Nothing is left to do: no copy loop can move, and no close is due. */
  ghost predicate Over(s: State) {
    forall a :: !Enabled(s, a)
  }

  /** A Pipe that has come to its end has half-closed both sides and then closed
      both, A first; and it can come to no other. */
  lemma OverMeansClosed(states: seq<State>, steps: seq<Step>, i: nat)
    requires IsRun(states, steps) && i < |states|
    ensures Over(states[i]) <==> states[i].closed == 2
    ensures states[i].closed == 2 ==>
      var log := states[i].log;
      && |log| >= 4 && log[|log| - 2..] == [Closed(A), Closed(B)] && HalfClosed(A) in log && HalfClosed(B) in log
  {
    RunKeepsInv(states, steps, i);
    var s := states[i];
    if Over(s) {
      LoopIsOver(s, A);
      LoopIsOver(s, B);
      assert !Enabled(s, Close);
    }
    ClosesComeLast(states, steps, i);
    if s.closed == 2 { AllClosedMeansOver(s); FourEvents(s.log); }
  }

  lemma FourEvents(log: seq<Event>)
    requires HalfClosed(A) in log && HalfClosed(B) in log && Closed(A) in log && Closed(B) in log
    ensures |log| >= 4
  {
    var a :| 0 <= a < |log| && log[a] == HalfClosed(A);
    var b :| 0 <= b < |log| && log[b] == HalfClosed(B);
    var c :| 0 <= c < |log| && log[c] == Closed(A);
    var d :| 0 <= d < |log| && log[d] == Closed(B);
  }

  lemma LoopIsOver(s: State, x: Side)
    requires Inv(s) && Over(s)
    ensures To(s, x).stage == Done
  {
    var d := To(s, x);
    assert !Enabled(s, Copy(x, Read(0, false))) && !Enabled(s, Copy(x, Write)) && !Enabled(s, Copy(x, CloseWrite));
  }

  lemma AllClosedMeansOver(s: State)
    requires Inv(s) && s.closed == 2 && s.toA.stage == Done && s.toB.stage == Done
    ensures Over(s)
  {
    forall a ensures !Enabled(s, a) {
      if a.Copy? { assert To(s, a.to).stage == Done; }
    }
  }

  lemma {:induction false} ClosesComeLast(states: seq<State>, steps: seq<Step>, i: nat)
    requires IsRun(states, steps) && i < |states|
    ensures var s := states[i];
      && (s.closed > 0 ==> s.toA.stage == Done && s.toB.stage == Done)
      && (s.closed == 1 ==> s.log != [] && s.log[|s.log| - 1] == Closed(A))
      && (s.closed == 2 ==> |s.log| >= 2 && s.log[|s.log| - 2..] == [Closed(A), Closed(B)])
  {
    if i > 0 {
      ClosesComeLast(states, steps, i - 1);
      assert StepAt(states, steps, i - 1);
      RunKeepsInv(states, steps, i - 1);
    }
  }

  /** What a copy loop has left to do, counting octets still to be read. */
  function LoopLeft(d: Direction): int {
    3 * (|d.input| - d.read)
    + (match d.stage case Reading => 2 case Writing(_, ended) => if ended then 2 else 4 case Ending => 1 case Done => 0)
  }

  function Left(s: State): int {
    LoopLeft(s.toA) + LoopLeft(s.toB) + 2 - s.closed
  }

  /** A read that brings nothing and does not end changes nothing; every other
      step uses up something of what is left. */
  predicate Idles(a: Step) {
    a.Copy? && a.move == Read(0, false)
  }

  lemma StepUsesUp(s: State, a: Step)
    requires Inv(s) && Enabled(s, a)
    ensures if Idles(a) then Do(s, a) == s else Left(Do(s, a)) < Left(s)
  {
    if a.Copy? { MoveUsesUp(To(s, a.to), a.move); }
    if Idles(a) { assert s.log + [] == s.log; }
  }

  lemma MoveUsesUp(d: Direction, m: Move)
    requires DirectionFits(d) && CanMove(d, m)
    ensures if m == Read(0, false) then Moved(d, m) == d else LoopLeft(Moved(d, m)) < LoopLeft(d)
  {}

  function Busy(steps: seq<Step>, i: nat): nat
    requires i <= |steps|
  {
    if i == 0 then 0 else Busy(steps, i - 1) + if Idles(steps[i - 1]) then 0 else 1
  }

  /** So every run ends, but for reads that bring nothing: the other steps are at
      most three for each octet the two sides send, and six more. */
  lemma {:induction false} RunsEnd(states: seq<State>, steps: seq<Step>, i: nat)
    requires IsRun(states, steps) && i < |states|
    ensures Busy(steps, i) + Left(states[i]) <= 3 * (|states[0].toA.input| + |states[0].toB.input|) + 6
    ensures Left(states[i]) >= 0
  {
    LeftIsNotNegative(states, steps, i);
    if i > 0 {
      RunsEnd(states, steps, i - 1);
      OneStepLess(states, steps, i - 1);
    }
  }

  lemma LeftIsNotNegative(states: seq<State>, steps: seq<Step>, i: nat)
    requires IsRun(states, steps) && i < |states|
    ensures Left(states[i]) >= 0
  {
    RunKeepsInv(states, steps, i);
  }

  lemma OneStepLess(states: seq<State>, steps: seq<Step>, i: nat)
    requires IsRun(states, steps) && i < |steps|
    ensures Busy(steps, i + 1) + Left(states[i + 1]) <= Busy(steps, i) + Left(states[i])
  {
    RunKeepsInv(states, steps, i);
    assert StepAt(states, steps, i);
    StepUsesUp(states[i], steps[i]);
  }
}
