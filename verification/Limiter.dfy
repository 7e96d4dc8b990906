/** The sliding-window limiter of /enroll and of failed handshakes. Times are
    integers counted from Go's zero time, and never go back. */
module Limiter {
  import GoText

  type Times = seq<int>

  // ---- What one call does, on values ----

  datatype State = State(seen: map<string, Times>, lastSweep: int)

  datatype Config = Config(window: int, burst: int)

  /** The events after the cutoff, in order. */
  function Fresh(times: Times, cutoff: int): Times {
    if times == [] then []
    else if times[0] > cutoff then [times[0]] + Fresh(times[1..], cutoff)
    else Fresh(times[1..], cutoff)
  }

  /** Whether any event is after the cutoff. */
  predicate AnyFresh(times: Times, cutoff: int) {
    times != [] && (times[0] > cutoff || AnyFresh(times[1..], cutoff))
  }

  function Get(m: map<string, Times>, key: string): Times {
    if key in m then m[key] else []
  }

  /** The keys with an event after the cutoff. */
  function Live(seen: map<string, Times>, cutoff: int): map<string, Times> {
    map k | k in seen && AnyFresh(seen[k], cutoff) :: seen[k]
  }

  function Swept(c: Config, s: State, now: int): State {
    if now - s.lastSweep < c.window then s else State(Live(s.seen, now - c.window), now)
  }

  datatype Verdict = Verdict(allowed: bool, after: State)

  /** An attempt, after any sweep that is due: refused without being recorded
      when the window already holds a burst. */
  function Recording(c: Config, s: State, key: string, now: int): Verdict {
    Deciding(c, s, key, now, Fresh(Get(s.seen, key), now - c.window))
  }

  function Deciding(c: Config, s: State, key: string, now: int, kept: Times): Verdict {
    if |kept| >= c.burst then Verdict(false, State(s.seen[key := kept], s.lastSweep))
    else Verdict(true, State(s.seen[key := kept + [now]], s.lastSweep))
  }

  function Allowing(c: Config, s: State, key: string, now: int): Verdict {
    Recording(c, Swept(c, s, now), key, now)
  }

  function Counting(c: Config, s: State, key: string, now: int): nat {
    |Fresh(Get(s.seen, key), now - c.window)|
  }

  // ---- The object: every key's events in a backing array of its own ----

  /** A Go slice: the first len elements of an array that may be longer. */
  datatype Slice = Slice(buf: array<int>, len: nat)

  class Bucket {
    var seen: map<string, Slice>
    var lastSweep: int
    const config: Config

    /** The events of every key, as values. */
    ghost var Events: map<string, Times>

    ghost function Buffers(): set<object>
      reads this
    {
      set k | k in seen :: seen[k].buf
    }

    ghost predicate Valid()
      reads this, Buffers()
    {
      && Events.Keys == seen.Keys
      && (forall k :: k in seen ==>
            seen[k].len <= seen[k].buf.Length && seen[k].buf[..seen[k].len] == Events[k])
      && (forall j, k :: j in seen && k in seen && j != k ==> seen[j].buf != seen[k].buf)
    }

    ghost function Contents(): State
      reads this
    {
      State(Events, lastSweep)
    }

    constructor (window: int, burst: int)
      ensures Valid() && Buffers() == {}
      ensures config == Config(window, burst) && Contents() == State(map[], 0)
    {
      config := Config(window, burst);
      seen, Events := map[], map[];
      lastSweep := 0;
    }

    /** sweepLocked. */
    method SweepLocked(now: int)
      requires Valid()
      modifies this
      ensures Valid() && Buffers() <= old(Buffers())
      ensures Contents() == Swept(config, old(Contents()), now)
    {
      if now - lastSweep < config.window { return; }
      lastSweep := now;
      DropStale(now - config.window);
    }

    /** Keys are visited, and deleted, in any order. */
    method DropStale(cutoff: int)
      requires Valid()
      modifies `seen, `Events
      ensures Valid() && Buffers() <= old(Buffers())
      ensures Events == Live(old(Events), cutoff)
    {
      var todo := seen.Keys;
      ghost var before := Events;
      while todo != {}
        invariant Valid() && todo <= seen.Keys && Buffers() <= old(Buffers())
        invariant LiveBut(before, Events, todo, cutoff)
        decreases todo
      {
        var k :| k in todo;
        var live := ScanForFresh(seen[k], cutoff);
        LiveButOneLess(before, Events, todo, cutoff, k);
        if !live { Delete(k); }
        todo := todo - {k};
      }
      LiveButNone(before, Events, cutoff);
    }

    /** delete(l.seen, key). */
    method Delete(key: string)
      requires Valid() && key in seen
      modifies `seen, `Events
      ensures Valid() && Buffers() <= old(Buffers())
      ensures Events == old(Events) - {key}
    {
      seen, Events := seen - {key}, Events - {key};
    }

    method ScanForFresh(s: Slice, cutoff: int) returns (live: bool)
      requires s.len <= s.buf.Length
      ensures live == AnyFresh(s.buf[..s.len], cutoff)
    {
      for i := 0 to s.len
        invariant AnyFresh(s.buf[..s.len], cutoff) == AnyFresh(s.buf[i..s.len], cutoff)
      {
        assert s.buf[i..s.len][1..] == s.buf[i + 1..s.len];
        if s.buf[i] > cutoff { return true; }
      }
      return false;
    }

    /** count: nothing is recorded. */
    method Count(key: string, now: int) returns (n: nat)
      requires Valid()
      ensures n == Counting(config, Contents(), key, now)
    {
      var cutoff := now - config.window;
      n := 0;
      if key in seen {
        var s := seen[key];
        for i := 0 to s.len
          invariant n == |Fresh(s.buf[..i], cutoff)|
        {
          assert s.buf[..i + 1] == s.buf[..i] + [s.buf[i]];
          FreshSnoc(s.buf[..i], s.buf[i], cutoff);
          if s.buf[i] > cutoff { n := n + 1; }
        }
      }
    }

    /** Filters a slice within its own array, through kept := s[:0]. */
    method Compact(s: Slice, cutoff: int) returns (kept: nat)
      requires s.len <= s.buf.Length
      modifies s.buf
      ensures kept <= s.len
      ensures s.buf[..kept] == Fresh(old(s.buf[..s.len]), cutoff)
    {
      kept := 0;
      ghost var was := s.buf[..];
      for i := 0 to s.len
        invariant kept <= i
        invariant forall j :: i <= j < s.buf.Length ==> s.buf[j] == was[j]
        invariant s.buf[..kept] == Fresh(was[..i], cutoff)
      {
        var t := s.buf[i];
        FreshSnoc(was[..i], t, cutoff);
        assert was[..i + 1] == was[..i] + [t];
        if t > cutoff {
          s.buf[kept] := t;
          assert s.buf[..kept + 1] == s.buf[..kept] + [t];
          kept := kept + 1;
        }
      }
      assert was[..s.len] == old(s.buf[..s.len]);
    }

    /** A slice whose array no other key uses, while the other keys' events are
        still in place; key's own may have been overwritten. */
    ghost predicate OthersInPlace(key: string, s: Slice)
      reads this, Buffers()
    {
      && s.len <= s.buf.Length && Events.Keys == seen.Keys
      && (forall k :: k in seen && k != key ==>
            && seen[k].buf != s.buf && seen[k].len <= seen[k].buf.Length
            && seen[k].buf[..seen[k].len] == Events[k])
      && (forall j, k :: j in seen && k in seen && j != k ==> seen[j].buf != seen[k].buf)
    }

    /** seen[key] = s. */
    method Store(key: string, s: Slice)
      requires OthersInPlace(key, s)
      modifies `seen, `Events
      ensures Valid() && seen == old(seen)[key := s]
      ensures Events == old(Events)[key := s.buf[..s.len]]
    {
      seen, Events := seen[key := s], Events[key := s.buf[..s.len]];
    }

    /** The key's events after the cutoff, in the key's own array. */
    method Kept(key: string, cutoff: int) returns (s: Slice, ghost kept: Times)
      requires Valid()
      modifies Buffers()
      ensures OthersInPlace(key, s) && ((key in seen && s.buf == seen[key].buf) || fresh(s.buf))
      ensures kept == s.buf[..s.len] && kept == Fresh(Get(old(Events), key), cutoff)
    {
      if key in seen {
        var n := Compact(seen[key], cutoff);
        s := Slice(seen[key].buf, n);
      } else {
        var none := new int[0];
        s := Slice(none, 0);
      }
      kept := s.buf[..s.len];
    }

    /** append(s, t): in place while the array has room, else in a copy. */
    method Append(key: string, s: Slice, t: int) returns (r: Slice)
      requires OthersInPlace(key, s)
      modifies s.buf
      ensures OthersInPlace(key, r) && (r.buf == s.buf || fresh(r.buf))
      ensures r.buf[..r.len] == old(s.buf[..s.len]) + [t]
    {
      if s.len < s.buf.Length {
        s.buf[s.len] := t;
        r := Slice(s.buf, s.len + 1);
      } else {
        var grown := new int[2 * s.len + 1];
        forall i | 0 <= i < s.len { grown[i] := s.buf[i]; }
        grown[s.len] := t;
        r := Slice(grown, s.len + 1);
      }
    }

    method Allow(key: string, now: int) returns (allowed: bool)
      requires Valid()
      modifies this, Buffers()
      ensures Valid() && forall k :: k in seen ==> seen[k].buf in old(Buffers()) || fresh(seen[k].buf)
      ensures Verdict(allowed, Contents()) == Allowing(config, old(Contents()), key, now)
    {
      SweepLocked(now);
      allowed := Record(key, now);
    }

    /** The rest of allow, after the sweep. */
    method Record(key: string, now: int) returns (allowed: bool)
      requires Valid()
      modifies `seen, `Events, Buffers()
      ensures Valid() && forall k :: k in seen ==> seen[k].buf in old(Buffers()) || fresh(seen[k].buf)
      ensures Verdict(allowed, Contents()) == Recording(config, old(Contents()), key, now)
    {
      ghost var was, kept := Contents(), [];
      allowed, kept := Admit(key, now);
      assert Contents() == State(was.seen[key := if allowed then kept + [now] else kept], was.lastSweep);
      DecidedLikeThat(config, was, key, now, kept, allowed, Contents());
    }

    /** What allow keeps of the key's events, and what it adds. */
    method Admit(key: string, now: int) returns (allowed: bool, ghost kept: Times)
      requires Valid()
      modifies `seen, `Events, Buffers()
      ensures Valid() && forall k :: k in seen ==> seen[k].buf in old(Buffers()) || fresh(seen[k].buf)
      ensures kept == Fresh(Get(old(Events), key), now - config.window) && allowed == (|kept| < config.burst)
      ensures Events == old(Events)[key := if allowed then kept + [now] else kept]
    {
      ghost var mine := Buffers();
      var s;
      s, kept := KeptOf(key, now, mine);
      allowed := Decide(key, s, now, kept, mine + {s.buf});
    }

    /** mine: the arrays in use before the call. */
    method KeptOf(key: string, now: int, ghost mine: set<object>) returns (s: Slice, ghost kept: Times)
      requires Valid() && mine == Buffers()
      modifies Buffers()
      ensures OthersInPlace(key, s) && kept == s.buf[..s.len]
      ensures kept == Fresh(Get(old(Events), key), now - config.window)
      ensures s.buf in mine || fresh(s.buf)
      ensures forall k :: k in seen ==> seen[k].buf in mine
    {
      s, kept := Kept(key, now - config.window);
    }

    /** Storing what was kept, and the event if there is room for it. */
    method Decide(key: string, s: Slice, now: int, ghost kept: Times, ghost mine: set<object>) returns (allowed: bool)
      requires OthersInPlace(key, s) && kept == s.buf[..s.len]
      requires s.buf in mine && forall k :: k in seen ==> seen[k].buf in mine
      modifies `seen, `Events, s.buf
      ensures Valid() && allowed == (|kept| < config.burst)
      ensures Events == old(Events)[key := if allowed then kept + [now] else kept]
      ensures forall k :: k in seen ==> seen[k].buf in mine || fresh(seen[k].buf)
    {
      allowed := s.len < config.burst;
      if allowed { Push(key, s, now); } else { Store(key, s); }
    }

    /** seen[key] = append(s, now). */
    method Push(key: string, s: Slice, now: int)
      requires OthersInPlace(key, s)
      modifies `seen, `Events, s.buf
      ensures Valid() && Events == old(Events)[key := old(s.buf[..s.len]) + [now]]
      ensures forall k :: k in seen ==>
        seen[k].buf == s.buf || (k in old(seen) && seen[k] == old(seen[k])) || fresh(seen[k].buf)
    {
      var grown := Append(key, s, now);
      Store(key, grown);
    }
  }

  lemma DecidedLikeThat(c: Config, s: State, key: string, now: int, kept: Times, allowed: bool, after: State)
    requires kept == Fresh(Get(s.seen, key), now - c.window) && allowed == (|kept| < c.burst)
    requires after == State(s.seen[key := if allowed then kept + [now] else kept], s.lastSweep)
    ensures Verdict(allowed, after) == Recording(c, s, key, now)
  {}

  /** now is before less the keys that have been visited and are not live. */
  ghost predicate LiveBut(before: map<string, Times>, now: map<string, Times>, todo: set<string>, cutoff: int) {
    && (forall k :: k in now ==> k in before && now[k] == before[k])
    && (forall k :: k in before ==> (k in now <==> k in todo || AnyFresh(before[k], cutoff)))
  }

  lemma LiveButOneLess(before: map<string, Times>, now: map<string, Times>, todo: set<string>, cutoff: int, k: string)
    requires LiveBut(before, now, todo, cutoff) && k in todo && k in now
    ensures LiveBut(before, if AnyFresh(now[k], cutoff) then now else now - {k}, todo - {k}, cutoff)
  {}

  lemma LiveButNone(before: map<string, Times>, now: map<string, Times>, cutoff: int)
    requires LiveBut(before, now, {}, cutoff)
    ensures now == Live(before, cutoff)
  {}

  lemma {:induction false} FreshSnoc(times: Times, t: int, cutoff: int)
    ensures Fresh(times + [t], cutoff) == Fresh(times, cutoff) + (if t > cutoff then [t] else [])
  {
    if times == [] {
      assert times + [t] == [t];
    } else {
      assert (times + [t])[1..] == times[1..] + [t];
      FreshSnoc(times[1..], t, cutoff);
    }
  }

  // ---- Runs of calls, and the limiter that remembers everything ----

  datatype Call = Allow(key: string, at: int) | Count(key: string, at: int)

  datatype Answer = Allowed(yes: bool) | Counted(n: nat)

  /** Times do not go back. */
  predicate InOrder(since: int, calls: seq<Call>)
    decreases |calls|
  {
    calls == [] || (since <= calls[0].at && InOrder(calls[0].at, calls[1..]))
  }

  function Step(c: Config, s: State, call: Call): (State, Answer) {
    match call
    case Allow(key, now) => var v := Allowing(c, s, key, now); (v.after, Allowed(v.allowed))
    case Count(key, now) => (s, Counted(Counting(c, s, key, now)))
  }

  function After(c: Config, s: State, calls: seq<Call>): State
    decreases |calls|
  {
    if calls == [] then s else After(c, Step(c, s, calls[0]).0, calls[1..])
  }

  function Answers(c: Config, s: State, calls: seq<Call>): (answers: seq<Answer>)
    ensures |answers| == |calls|
    decreases |calls|
  {
    if calls == [] then [] else [Step(c, s, calls[0]).1] + Answers(c, Step(c, s, calls[0]).0, calls[1..])
  }

  /** The reference: every accepted event is kept for ever, nothing is swept. */
  function RefStep(c: Config, h: map<string, Times>, call: Call): (map<string, Times>, Answer) {
    match call
    case Allow(key, now) =>
      if |Fresh(Get(h, key), now - c.window)| >= c.burst then (h, Allowed(false))
      else (h[key := Get(h, key) + [now]], Allowed(true))
    case Count(key, now) => (h, Counted(|Fresh(Get(h, key), now - c.window)|))
  }

  function RefAnswers(c: Config, h: map<string, Times>, calls: seq<Call>): (answers: seq<Answer>)
    ensures |answers| == |calls|
    decreases |calls|
  {
    if calls == [] then [] else [RefStep(c, h, calls[0]).1] + RefAnswers(c, RefStep(c, h, calls[0]).0, calls[1..])
  }

  // ---- The limiter refines the reference ----

  /** From time t on, no window can tell the two apart. */
  ghost predicate Agrees(c: Config, s: State, h: map<string, Times>, t: int) {
    forall key, cutoff :: cutoff >= t - c.window ==> Fresh(Get(s.seen, key), cutoff) == Fresh(Get(h, key), cutoff)
  }

  lemma {:induction false} FreshFresh(times: Times, c1: int, c2: int)
    requires c1 <= c2
    ensures Fresh(Fresh(times, c1), c2) == Fresh(times, c2)
  {
    if times != [] {
      FreshFresh(times[1..], c1, c2);
      if times[0] > c1 { assert Fresh(times, c1)[1..] == Fresh(times[1..], c1); }
    }
  }

  lemma {:induction false} NoneFresh(times: Times, c1: int, c2: int)
    requires !AnyFresh(times, c1) && c1 <= c2
    ensures Fresh(times, c2) == []
  {
    if times != [] { NoneFresh(times[1..], c1, c2); }
  }

  lemma SweepAgrees(c: Config, s: State, h: map<string, Times>, now: int)
    requires Agrees(c, s, h, now)
    ensures Agrees(c, Swept(c, s, now), h, now)
  {
    forall key, cutoff | cutoff >= now - c.window
      ensures Fresh(Get(Swept(c, s, now).seen, key), cutoff) == Fresh(Get(h, key), cutoff)
    {
      assert Fresh(Get(s.seen, key), cutoff) == Fresh(Get(h, key), cutoff);
      if key in s.seen && !AnyFresh(s.seen[key], now - c.window) {
        NoneFresh(s.seen[key], now - c.window, cutoff);
      }
    }
  }

  lemma RecordAgrees(c: Config, s: State, h: map<string, Times>, key: string, now: int)
    requires Agrees(c, s, h, now)
    ensures var r := RefStep(c, h, Allow(key, now));
      var v := Recording(c, s, key, now);
      r.1 == Allowed(v.allowed) && Agrees(c, v.after, r.0, now)
  {
    var v := Recording(c, s, key, now);
    var h' := RefStep(c, h, Allow(key, now)).0;
    var mine := Get(s.seen, key);
    assert Fresh(mine, now - c.window) == Fresh(Get(h, key), now - c.window);
    forall k, cutoff | cutoff >= now - c.window
      ensures Fresh(Get(v.after.seen, k), cutoff) == Fresh(Get(h', k), cutoff)
    {
      assert Fresh(Get(s.seen, k), cutoff) == Fresh(Get(h, k), cutoff);
      if k == key {
        FreshFresh(mine, now - c.window, cutoff);
        FreshSnoc(Fresh(mine, now - c.window), now, cutoff);
        FreshSnoc(Get(h, key), now, cutoff);
      }
    }
  }

  /** Every answer, to allow and to count, is the one the reference gives: the
      sweep and the filtering never show. */
  lemma {:induction false} Refines(c: Config, s: State, h: map<string, Times>, t: int, calls: seq<Call>)
    requires Agrees(c, s, h, t) && InOrder(t, calls)
    ensures Answers(c, s, calls) == RefAnswers(c, h, calls)
    decreases |calls|
  {
    if calls != [] {
      var call := calls[0];
      var now := call.at;
      assert Agrees(c, s, h, now);
      if call.Allow? {
        SweepAgrees(c, s, h, now);
        RecordAgrees(c, Swept(c, s, now), h, call.key, now);
      } else {
        assert Fresh(Get(s.seen, call.key), now - c.window) == Fresh(Get(h, call.key), now - c.window);
      }
      Refines(c, Step(c, s, call).0, RefStep(c, h, call).0, now, calls[1..]);
    }
  }

  const START := State(map[], 0)

  lemma LimiterRefinesFullHistory(c: Config, calls: seq<Call>)
    requires InOrder(0, calls)
    ensures Answers(c, START, calls) == RefAnswers(c, map[], calls)
  {
    Refines(c, START, map[], 0, calls);
  }

  // ---- At most a burst in any window ----

  /** The events in the interval (lo, hi]. */
  function Within(times: Times, lo: int, hi: int): Times {
    if times == [] then []
    else if lo < times[0] <= hi then [times[0]] + Within(times[1..], lo, hi)
    else Within(times[1..], lo, hi)
  }

  /** When a key was let through, going by the answers it was given. */
  function Accepted(key: string, calls: seq<Call>, answers: seq<Answer>): Times
    requires |calls| == |answers|
  {
    if calls == [] then []
    else
      (if calls[0].key == key && answers[0] == Allowed(true) then [calls[0].at] else [])
      + Accepted(key, calls[1..], answers[1..])
  }

  lemma {:induction false} WithinSnoc(times: Times, t: int, lo: int, hi: int)
    ensures Within(times + [t], lo, hi) == Within(times, lo, hi) + (if lo < t <= hi then [t] else [])
  {
    if times == [] {
      assert times + [t] == [t];
    } else {
      assert (times + [t])[1..] == times[1..] + [t];
      WithinSnoc(times[1..], t, lo, hi);
    }
  }

  lemma {:induction false} WithinAtMostFresh(times: Times, lo: int, hi: int, cutoff: int)
    requires cutoff <= lo
    ensures |Within(times, lo, hi)| <= |Fresh(times, cutoff)|
  {
    if times != [] { WithinAtMostFresh(times[1..], lo, hi, cutoff); }
  }

  function AtLeastZero(n: int): nat { if n < 0 then 0 else n }

  /** How many of the events fall in (t - window, t]. */
  function InWindow(c: Config, times: Times, t: int): nat {
    |Within(times, t - c.window, t)|
  }

  ghost predicate Bounded(c: Config, times: Times) {
    forall t :: InWindow(c, times, t) <= AtLeastZero(c.burst)
  }

  lemma AcceptingKeepsBound(c: Config, times: Times, now: int)
    requires Bounded(c, times) && |Fresh(times, now - c.window)| < c.burst
    ensures Bounded(c, times + [now])
  {
    forall t ensures InWindow(c, times + [now], t) <= AtLeastZero(c.burst) {
      WithinSnoc(times, now, t - c.window, t);
      assert InWindow(c, times, t) <= AtLeastZero(c.burst);
      if now <= t { WithinAtMostFresh(times, t - c.window, t, now - c.window); }
    }
  }

  lemma {:induction false} AcceptedIsBounded(c: Config, h: map<string, Times>, calls: seq<Call>, key: string)
    requires Bounded(c, Get(h, key))
    ensures Bounded(c, Get(h, key) + Accepted(key, calls, RefAnswers(c, h, calls)))
    decreases |calls|
  {
    if calls == [] {
      assert Get(h, key) + [] == Get(h, key);
    } else {
      var r := RefStep(c, h, calls[0]);
      RefStepHistory(c, h, calls[0], key);
      AcceptedIsBounded(c, r.0, calls[1..], key);
      AcceptedUnfolds(c, h, calls, key);
    }
  }

  lemma AcceptedUnfolds(c: Config, h: map<string, Times>, calls: seq<Call>, key: string)
    requires calls != []
    ensures var r := RefStep(c, h, calls[0]);
      Get(h, key) + Accepted(key, calls, RefAnswers(c, h, calls))
      == Get(r.0, key) + Accepted(key, calls[1..], RefAnswers(c, r.0, calls[1..]))
  {
    PastUnfolds(c, h, calls, key, RefAnswers(c, RefStep(c, h, calls[0]).0, calls[1..]));
  }

  lemma AcceptedCons(key: string, calls: seq<Call>, answer: Answer, answers: seq<Answer>)
    requires |calls| == |answers| + 1
    ensures Accepted(key, calls, [answer] + answers)
      == (if calls[0].key == key && answer == Allowed(true) then [calls[0].at] else [])
         + Accepted(key, calls[1..], answers)
  {
    assert ([answer] + answers)[1..] == answers;
  }

  lemma RefStepRecords(c: Config, h: map<string, Times>, call: Call, key: string)
    ensures var r := RefStep(c, h, call);
      Get(r.0, key) == Get(h, key) + (if call.key == key && r.1 == Allowed(true) then [call.at] else [])
  {}

  /** The reference's history of a key is the times it was let through. */
  lemma RefStepHistory(c: Config, h: map<string, Times>, call: Call, key: string)
    requires Bounded(c, Get(h, key))
    ensures var r := RefStep(c, h, call);
      && Get(r.0, key) == Get(h, key) + (if call.key == key && r.1 == Allowed(true) then [call.at] else [])
      && Bounded(c, Get(r.0, key))
  {
    RefStepRecords(c, h, call, key);
    if call.key == key && RefStep(c, h, call).1 == Allowed(true) {
      AcceptingKeepsBound(c, Get(h, key), call.at);
    }
  }

  /** In every interval (t - window, t], whatever t, each key is let through at
      most burst times. */
  lemma AtMostBurstPerWindow(c: Config, calls: seq<Call>, key: string, t: int)
    requires InOrder(0, calls)
    ensures InWindow(c, Accepted(key, calls, Answers(c, START, calls)), t) <= AtLeastZero(c.burst)
  {
    LimiterRefinesFullHistory(c, calls);
    forall u ensures InWindow(c, Get(map[], key), u) <= AtLeastZero(c.burst) {}
    AcceptedIsBounded(c, map[], calls, key);
    var accepted := Accepted(key, calls, Answers(c, START, calls));
    assert Get(map[], key) + accepted == accepted;
  }

  // ---- Every answer is the right one ----

  /** What the reference has recorded of a call's key when the call is made. */
  function Past(c: Config, h: map<string, Times>, calls: seq<Call>, i: nat): Times
    requires i < |calls|
  {
    Get(h, calls[i].key) + Accepted(calls[i].key, calls[..i], RefAnswers(c, h, calls)[..i])
  }

  lemma PastStep(c: Config, h: map<string, Times>, calls: seq<Call>, i: nat)
    requires 0 < i < |calls|
    ensures Past(c, h, calls, i) == Past(c, RefStep(c, h, calls[0]).0, calls[1..], i - 1)
  {
    var r := RefStep(c, h, calls[0]);
    var later := RefAnswers(c, r.0, calls[1..]);
    assert RefAnswers(c, h, calls)[..i] == [r.1] + later[..i - 1];
    PastUnfolds(c, h, calls[..i], calls[i].key, later[..i - 1]);
    assert calls[..i][1..] == calls[1..][..i - 1];
  }

  /** What the reference answers to call i depends on what it let through before. */
  lemma {:induction false} RefAnswerAt(c: Config, h: map<string, Times>, calls: seq<Call>, i: nat)
    requires i < |calls|
    ensures RefAnswers(c, h, calls)[i] == AnswerTo(c, calls[i], |Fresh(Past(c, h, calls, i), calls[i].at - c.window)|)
    decreases i
  {
    var r := RefStep(c, h, calls[0]);
    if i == 0 {
      assert Past(c, h, calls, 0) == Get(h, calls[0].key);
    } else {
      RefAnswerAt(c, r.0, calls[1..], i - 1);
      PastStep(c, h, calls, i);
      assert RefAnswers(c, h, calls)[i] == RefAnswers(c, r.0, calls[1..])[i - 1];
    }
  }

  lemma PastUnfolds(c: Config, h: map<string, Times>, calls: seq<Call>, key: string, later: seq<Answer>)
    requires calls != [] && |calls| == |later| + 1
    ensures var r := RefStep(c, h, calls[0]);
      Get(h, key) + Accepted(key, calls, [r.1] + later) == Get(r.0, key) + Accepted(key, calls[1..], later)
  {
    var r := RefStep(c, h, calls[0]);
    var first := if calls[0].key == key && r.1 == Allowed(true) then [calls[0].at] else [];
    AcceptedCons(key, calls, r.1, later);
    RefStepRecords(c, h, calls[0], key);
    GoText.ConcatAssociates(Get(h, key), first, Accepted(key, calls[1..], later));
  }

  /** The right answer, when n events of the key are in the window. */
  function AnswerTo(c: Config, call: Call, n: nat): Answer {
    if call.Allow? then Allowed(n < c.burst) else Counted(n)
  }

  lemma {:induction false} FreshIsWithin(times: Times, lo: int, t: int)
    requires forall x :: x in times ==> x <= t
    ensures Fresh(times, lo) == Within(times, lo, t)
  {
    if times != [] {
      assert times[0] in times && forall x :: x in times[1..] ==> x in times;
      FreshIsWithin(times[1..], lo, t);
    }
  }

  lemma {:induction false} AcceptedIsPast(since: int, key: string, calls: seq<Call>, answers: seq<Answer>, i: nat)
    requires InOrder(since, calls) && |answers| == |calls| && i < |calls|
    ensures since <= calls[i].at && forall x :: x in Accepted(key, calls[..i], answers[..i]) ==> x <= calls[i].at
    decreases i
  {
    if i > 0 {
      AcceptedIsPast(calls[0].at, key, calls[1..], answers[1..], i - 1);
      assert calls[..i][1..] == calls[1..][..i - 1] && answers[..i][1..] == answers[1..][..i - 1];
    }
  }

  /** Going by the answers alone: an attempt is let through if and only if fewer
      than burst attempts of its key were let through in the window that ends
      with it, and a count is how many were. */
  lemma {:induction false} EveryAnswerIsRight(c: Config, calls: seq<Call>, i: nat)
    requires InOrder(0, calls) && i < |calls|
    ensures var answers := Answers(c, START, calls); var call := calls[i];
      var n := InWindow(c, Accepted(call.key, calls[..i], answers[..i]), call.at);
      if call.Allow? then answers[i] == Allowed(n < c.burst) else answers[i] == Counted(n)
  {
    var call := calls[i];
    LimiterRefinesFullHistory(c, calls);
    RefAnswerAt(c, map[], calls, i);
    var past := Accepted(call.key, calls[..i], Answers(c, START, calls)[..i]);
    assert Get(map[], call.key) + past == past;
    AcceptedIsPast(0, call.key, calls, Answers(c, START, calls), i);
    FreshIsWithin(past, call.at - c.window, call.at);
  }

  /** A pass over the keys is made only when a window has gone by since the last,
      and drops exactly the keys without an event in the window. */
  lemma SweepsAreRareAndExact(c: Config, s: State, now: int)
    ensures var s' := Swept(c, s, now);
      if now - s.lastSweep < c.window then s' == s
      else
        && s'.lastSweep == now
        && (forall k :: k in s'.seen <==> k in s.seen && exists t :: t in s.seen[k] && t > now - c.window)
        && (forall k :: k in s'.seen ==> s'.seen[k] == s.seen[k])
  {
    forall k | k in s.seen
      ensures AnyFresh(s.seen[k], now - c.window) <==> exists t :: t in s.seen[k] && t > now - c.window
    {
      AnyFreshMeans(s.seen[k], now - c.window);
    }
  }

  lemma {:induction false} AnyFreshMeans(times: Times, cutoff: int)
    ensures AnyFresh(times, cutoff) <==> exists t :: t in times && t > cutoff
  {
    if times != [] {
      AnyFreshMeans(times[1..], cutoff);
      assert times[0] in times && forall t :: t in times <==> t == times[0] || t in times[1..];
    }
  }

  // ---- The sweep bounds what is kept ----

  /** Every key stored has an event newer than one window before the last sweep. */
  ghost predicate Lively(c: Config, s: State) {
    forall k :: k in s.seen ==> AnyFresh(s.seen[k], s.lastSweep - c.window)
  }

  lemma {:induction false} AnyFreshEarlier(times: Times, c1: int, c2: int)
    requires AnyFresh(times, c1) && c2 <= c1
    ensures AnyFresh(times, c2)
  {
    if times[0] <= c1 { AnyFreshEarlier(times[1..], c1, c2); }
  }

  lemma {:induction false} FreshIsFresh(times: Times, cutoff: int)
    ensures Fresh(times, cutoff) != [] ==> AnyFresh(Fresh(times, cutoff), cutoff)
    ensures AnyFresh(Fresh(times, cutoff) + [cutoff + 1], cutoff)
  {
    if times != [] && times[0] <= cutoff { FreshIsFresh(times[1..], cutoff); }
  }

  lemma {:induction false} AnyFreshSnoc(times: Times, t: int, cutoff: int)
    requires t > cutoff
    ensures AnyFresh(times + [t], cutoff)
  {
    if times != [] {
      assert (times + [t])[1..] == times[1..] + [t];
      AnyFreshSnoc(times[1..], t, cutoff);
    }
  }

  lemma AllowKeepsLively(c: Config, s: State, key: string, now: int)
    requires c.burst > 0 && c.window > 0 && s.lastSweep <= now && Lively(c, s)
    ensures var s' := Allowing(c, s, key, now).after;
      && Lively(c, s') && s'.lastSweep <= now
      && forall k :: k in s'.seen ==> AnyFresh(s'.seen[k], now - 2 * c.window)
  {
    var swept := Swept(c, s, now);
    var s' := Allowing(c, s, key, now).after;
    assert swept.lastSweep > now - c.window;
    assert Lively(c, swept);
    forall k | k in s'.seen
      ensures AnyFresh(s'.seen[k], s'.lastSweep - c.window) && AnyFresh(s'.seen[k], now - 2 * c.window)
    {
      if k == key {
        var kept := Fresh(Get(swept.seen, key), now - c.window);
        FreshIsFresh(Get(swept.seen, key), now - c.window);
        AnyFreshSnoc(kept, now, now - c.window);
        AnyFreshEarlier(s'.seen[k], now - c.window, s'.lastSweep - c.window);
      }
      AnyFreshEarlier(s'.seen[k], s'.lastSweep - c.window, now - 2 * c.window);
    }
  }

  lemma {:induction false} RunKeepsLively(c: Config, s: State, t: int, calls: seq<Call>)
    requires c.burst > 0 && c.window > 0 && s.lastSweep <= t && Lively(c, s) && InOrder(t, calls)
    ensures Lively(c, After(c, s, calls))
    ensures After(c, s, calls).lastSweep <= if calls == [] then t else calls[|calls| - 1].at
    decreases |calls|
  {
    if calls != [] {
      if calls[0].Allow? { AllowKeepsLively(c, s, calls[0].key, calls[0].at); }
      RunKeepsLively(c, Step(c, s, calls[0]).0, calls[0].at, calls[1..]);
    }
  }

  lemma {:induction false} LastAt(since: int, calls: seq<Call>, call: Call)
    requires InOrder(since, calls + [call])
    ensures InOrder(since, calls) && (if calls == [] then since else calls[|calls| - 1].at) <= call.at
    decreases |calls|
  {
    if calls == [] {
      assert calls + [call] == [call];
    } else {
      assert (calls + [call])[1..] == calls[1..] + [call];
      LastAt(calls[0].at, calls[1..], call);
    }
  }

  /** Right after an allow that follows these calls, every stored key has an
      event newer than two windows ago. */
  ghost predicate AllRecent(c: Config, calls: seq<Call>, key: string, now: int) {
    var s := Allowing(c, After(c, START, calls), key, now).after;
    forall k :: k in s.seen ==> AnyFresh(s.seen[k], now - 2 * c.window)
  }

  lemma PositiveLimiterIsRecent(c: Config, calls: seq<Call>, key: string, now: int)
    requires c.burst > 0 && c.window > 0 && InOrder(0, calls + [Allow(key, now)])
    ensures AllRecent(c, calls, key, now)
  {
    LastAt(0, calls, Allow(key, now));
    RunKeepsLively(c, START, 0, calls);
    AllowKeepsLively(c, After(c, START, calls), key, now);
  }

  lemma FirstAttemptStoresDeadKey(c: Config)
    requires c.burst <= 0 || c.window <= 0
    ensures !AllRecent(c, [], "", 0)
  {
    var s := Allowing(c, After(c, START, []), "", 0).after;
    assert Get(Swept(c, START, 0).seen, "") == [];
    assert "" in s.seen && !AnyFresh(s.seen[""], 0 - 2 * c.window);
  }

  /** What the sweep is for, over all runs, holds exactly when burst and window
      are positive; otherwise the first attempt already stores a dead key. */
  lemma KeysAreRecentExactlyWhenPositive(c: Config)
    ensures (forall calls, key, now :: InOrder(0, calls + [Allow(key, now)]) ==> AllRecent(c, calls, key, now))
      <==> c.burst > 0 && c.window > 0
  {
    if c.burst > 0 && c.window > 0 {
      forall calls, key, now | InOrder(0, calls + [Allow(key, now)]) ensures AllRecent(c, calls, key, now) {
        PositiveLimiterIsRecent(c, calls, key, now);
      }
    } else {
      var first := [] + [Allow("", 0)];
      assert first[1..] == [];
      assert InOrder(0, first);
      FirstAttemptStoresDeadKey(c);
    }
  }
}
