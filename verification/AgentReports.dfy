/** Host key reports: what an accepted one changes, and that what the registry
    shows of a host key is always the last accepted report. */
module AgentReports {
  import opened Naming
  import opened Registry
  import opened AgentProtocol
  import opened AgentTheorems

  /** The report is of a key the connection's canonical name is derived from. */
  predicate Accepted(env: Env, s: State, c: Conn, key: Key) {
    c in s.handlers && VerifyCanonicalName(env.sha, s.handlers[c].id.canonical, key)
  }

  /** An accepted report is recorded under every name the connection holds, and
      changes nothing else; any other changes nothing. */
  lemma ReportIsRecorded(env: Env, s: State, c: Conn, key: Key)
    requires Enabled(env, s, Report(c, key))
    ensures var s' := Do(env, s, Report(c, key));
      && s' == s.(reg := s'.reg) && s'.reg.Keys == s.reg.Keys
      && forall n :: n in s.reg ==>
           s'.reg[n] == if Accepted(env, s, c, key) && s.reg[n].conn == c
                        then s.reg[n].(hostFP := FingerprintSHA256(env.sha, key)) else s.reg[n]
  {}

  // ---- What an entry shows ----

  /** The step puts a new entry under n. */
  predicate Enters(s: State, a: Step, n: string) {
    && Adds(a) && a.c in s.handlers
    && n == (if a.TakeCanonical? then s.handlers[a.c].id.canonical else s.handlers[a.c].id.friendly)
    && (n in s.reg ==> s.reg[n].fp == s.handlers[a.c].id.fp)
  }

  /** The step is an accepted report by the connection n leads to. */
  predicate Reports(env: Env, s: State, a: Step, n: string) {
    a.Report? && n in s.reg && s.reg[n].conn == a.c && Accepted(env, s, a.c, a.key)
  }

  /** What the run so far makes n show: nothing since it was last entered, or the
      key of the last accepted report since. */
  function Shown(env: Env, states: seq<State>, steps: seq<Step>, n: string, i: nat): string
    requires i < |states| && |states| == |steps| + 1
  {
    if i == 0 || Enters(states[i - 1], steps[i - 1], n) then ""
    else if Reports(env, states[i - 1], steps[i - 1], n) then FingerprintSHA256(env.sha, steps[i - 1].key)
    else Shown(env, states, steps, n, i - 1)
  }

  lemma StepShows(env: Env, s: State, a: Step, n: string)
    requires Enabled(env, s, a) && n in Do(env, s, a).reg
    ensures var r' := Do(env, s, a).reg[n];
      if Enters(s, a, n) then r'.hostFP == ""
      else if Reports(env, s, a, n) then r'.hostFP == FingerprintSHA256(env.sha, a.key)
      else n in s.reg && r'.hostFP == s.reg[n].hostFP
  {
    if a.Report? { ReportIsRecorded(env, s, a.c, a.key); }
  }

  /** At every moment of every run, each entry shows exactly that. */
  lemma {:induction false} EntriesShowTheLastReport(env: Env, states: seq<State>, steps: seq<Step>, i: nat, n: string)
    requires IsRun(env, states, steps) && i < |states| && n in states[i].reg
    ensures states[i].reg[n].hostFP == Shown(env, states, steps, n, i)
  {
    if i > 0 {
      assert StepAt(env, states, steps, i - 1);
      StepShows(env, states[i - 1], steps[i - 1], n);
      if !Enters(states[i - 1], steps[i - 1], n) && !Reports(env, states[i - 1], steps[i - 1], n) {
        EntriesShowTheLastReport(env, states, steps, i - 1, n);
      }
    }
  }
}
