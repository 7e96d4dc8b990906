/** From the file to the connections: the watcher's tick as one protocol, in
    which the stages of a reload, replacements of the file, the sweep and the
    agents' handlers all interleave. */
module RevocationWatch {
  import opened Prelude
  import opened Registry
  import opened AgentProtocol
  import opened AgentInvariants
  import opened RevocationSweep
  import File = RevocationReload

  /** agents: the registration protocol, with the set that is enforced. reload:
      the file and the reload, with the set as it holds it. */
  datatype Joint = Joint(agents: State, reload: File.State)

  datatype Act =
    | Agents(step: Step)   // any step that is not part of a reload
    | Replace(file: Option<File.File>)
    | Stat
    | StatFails
    | Compare
    | Read
    | ReadFails
    | Install

  /** Steps of the registration protocol that stand for a reload as a whole. */
  predicate OfReload(a: Step) {
    a.ReloadFails? || a.ReloadSame? || a.Install?
  }

  function FileStep(a: Act): File.Step
    requires !a.Agents?
  {
    match a
    case Replace(file) => File.Replace(file)
    case Stat => File.DoStat
    case StatFails => File.StatError
    case Compare => File.Compare
    case Read => File.DoRead
    case ReadFails => File.ReadError
    case Install => File.Install
  }

  /** A tick starts when the watcher rests, and its reload comes before its sweep. */
  ghost predicate Can(env: Env, s: Joint, a: Act) {
    if a.Agents? then !OfReload(a.step) && Enabled(env, s.agents, a.step)
    else
      && File.Enabled(s.reload, FileStep(a))
      && (a.Stat? || a.StatFails? ==> s.agents.watch == Idle)
  }

  /** What a step of the reload means for the watcher: found the same, or
      installed, it goes on to the sweep; failed, it rests. */
  function AgentsAfter(s: Joint, a: Act): State
    requires !a.Agents? && File.Enabled(s.reload, FileStep(a))
  {
    match a
    case Compare => if s.reload.stage.stamp == s.reload.held.stamp then s.agents.(watch := Due) else s.agents
    case Install => s.agents.(revoked := s.reload.stage.m, watch := Due)
    case _ => s.agents
  }

  ghost function After(env: Env, s: Joint, a: Act): Joint
    requires Can(env, s, a)
  {
    if a.Agents? then s.(agents := Do(env, s.agents, a.step))
    else Joint(AgentsAfter(s, a), File.Do(s.reload, FileStep(a)))
  }

  ghost predicate ActAt(env: Env, states: seq<Joint>, acts: seq<Act>, i: nat) {
    i < |acts| && i + 1 < |states| && Can(env, states[i], acts[i]) && states[i + 1] == After(env, states[i], acts[i])
  }

  predicate Starts(s: Joint) {
    Init(s.agents) && File.Init(s.reload) && s.agents.revoked == s.reload.held.m
  }

  ghost predicate IsJointRun(env: Env, states: seq<Joint>, acts: seq<Act>) {
    && |states| == |acts| + 1 && Starts(states[0])
    && forall i :: 0 <= i < |acts| ==> ActAt(env, states, acts, i)
  }

  // ---- The two protocols keep what they keep alone ----

  /** During a reload the watcher does nothing else; the sets agree. */
  ghost predicate Joined(s: Joint, w: File.Marks) {
    && Inv(s.agents) && File.HeldFits(s.reload, w) && File.StageFits(s.reload, w)
    && s.agents.revoked == s.reload.held.m
    && (s.reload.stage != File.Resting ==> s.agents.watch == Idle)
  }

  /** A step of the reload is a step of the registration protocol, or none. */
  lemma ReloadIsAgentStep(env: Env, s: Joint, a: Act)
    requires Can(env, s, a) && !a.Agents? && (s.reload.stage != File.Resting ==> s.agents.watch == Idle)
    ensures var t := AgentsAfter(s, a);
      || t == s.agents
      || (a == Compare && Enabled(env, s.agents, ReloadSame) && t == Do(env, s.agents, ReloadSame))
      || (a == Act.Install && var b := Step.Install(s.reload.stage.m);
          Enabled(env, s.agents, b) && t == Do(env, s.agents, b))
  {}

  lemma ActKeepsJoined(env: Env, s: Joint, a: Act, w: File.Marks) returns (w': File.Marks)
    requires Joined(s, w) && Can(env, s, a)
    ensures Joined(After(env, s, a), w')
  {
    if a.Agents? {
      StepKeepsInv(env, s.agents, a.step);
      w' := w;
      AgentStepKeepsSet(env, s.agents, a.step);
    } else {
      ReloadIsAgentStep(env, s, a);
      if AgentsAfter(s, a) != s.agents {
        StepKeepsInv(env, s.agents, if a == Compare then ReloadSame else Step.Install(s.reload.stage.m));
      }
      File.StepKeepsMarks(s.reload, FileStep(a), w);
      w' := File.NextMarks(s.reload, FileStep(a), w);
    }
  }

  /** Outside a reload the set stays, and a resting watcher rests. */
  lemma AgentStepKeepsSet(env: Env, s: State, a: Step)
    requires Enabled(env, s, a) && !OfReload(a)
    ensures Do(env, s, a).revoked == s.revoked && (s.watch == Idle ==> Do(env, s, a).watch == Idle)
  {}

  lemma {:induction false} RunStaysJoined(env: Env, states: seq<Joint>, acts: seq<Act>, i: nat) returns (w: File.Marks)
    requires IsJointRun(env, states, acts) && i < |states|
    ensures Joined(states[i], w)
  {
    if i == 0 {
      w := File.Marks(false, 0, 0, 0, 0);
    } else {
      w := RunStaysJoined(env, states, acts, i - 1);
      assert ActAt(env, states, acts, i - 1);
      w := ActKeepsJoined(env, states[i - 1], acts[i - 1], w);
    }
  }

  // ---- One tick ----

  /** The file can be read now, and bars the fingerprint. */
  predicate Bars(s: Joint, fp: string) {
    File.Meaning(File.Now(s.reload)).Ok? && fp in File.Meaning(File.Now(s.reload)).value
  }

  predicate AtRest(s: Joint) {
    s.reload.stage == File.Resting && s.agents.watch == Idle
  }

  /** How far a tick has come for fp, which was barred in the file when it
      started: its reload is under way and will install fp or find it held; or
      the set bars fp, and the snapshot, act j, is still to come or has been
      taken. */
  ghost predicate Reloading(s: Joint, fp: string) {
    && s.reload.stage != File.Resting
    && match s.reload.stage
       case Statted(stamp) => stamp == s.reload.held.stamp ==> fp in s.reload.held.m
       case Read(_, m) => fp in m
       case _ => true
  }

  predicate Enforcing(s: Joint, fp: string) {
    s.reload.stage == File.Resting && s.agents.watch in {Due, Counted} && fp in s.agents.revoked
  }

  ghost predicate Swept(states: seq<Joint>, acts: seq<Act>, j: nat, i: nat, fp: string)
    requires i < |states| <= |acts| + 1
  {
    && j < i && acts[j].Agents? && acts[j].step.Snapshot? && fp in states[i].agents.revoked
    && states[i].reload.stage == File.Resting
    && (states[i].agents.watch.Sweeping? || states[i].agents.watch == Idle)
    && (forall c :: RegisteredOf(states[j], fp, c) ==> Pursued(states[i].agents, c))
    && (forall c :: Of(states[i], fp, c) ==> Of(states[j], fp, c))
  }

  /** A connection of the machine. */
  predicate Of(s: Joint, fp: string, c: Conn) {
    c in s.agents.handlers && s.agents.handlers[c].id.fp == fp
  }

  predicate RegisteredOf(s: Joint, fp: string, c: Conn) {
    Of(s, fp, c) && Registered(s.agents.handlers[c])
  }

  lemma ReloadingGoesOn(env: Env, s: Joint, a: Act, w: File.Marks, fp: string)
    requires Joined(s, w) && Can(env, s, a) && Reloading(s, fp) && Bars(s, fp) && a != ReadFails
    ensures var t := After(env, s, a); Reloading(t, fp) || Enforcing(t, fp)
  {
    if a.Agents? { AgentStepKeepsSet(env, s.agents, a.step); }
  }

  /** The sweep's own steps, once the set bars fp. */
  lemma EnforcingGoesOn(env: Env, s: Joint, a: Act, w: File.Marks, fp: string)
    requires Joined(s, w) && Can(env, s, a) && Enforcing(s, fp)
    requires !(a.Agents? && a.step.Snapshot?)
    ensures Enforcing(After(env, s, a), fp)
  {
    if a.Agents? { BeforeSnapshot(env, s.agents, a.step, fp); } else { OnlyReplacements(env, s, a, w); }
  }

  lemma BeforeSnapshot(env: Env, s: State, a: Step, fp: string)
    requires Enabled(env, s, a) && !OfReload(a) && !a.Snapshot?
    requires s.watch in {Due, Counted} && fp in s.revoked
    ensures Do(env, s, a).revoked == s.revoked && Do(env, s, a).watch in {Due, Counted}
  {
    assert |s.revoked| > 0;
  }

  lemma InSweep(env: Env, s: State, a: Step)
    requires Enabled(env, s, a) && !OfReload(a) && s.watch.Sweeping?
    ensures Do(env, s, a).revoked == s.revoked
    ensures Do(env, s, a).watch.Sweeping? || Do(env, s, a).watch == Idle
  {}

  /** While the watcher enforces, the file may change, but nothing is reloaded. */
  lemma OnlyReplacements(env: Env, s: Joint, a: Act, w: File.Marks)
    requires Joined(s, w) && Can(env, s, a) && s.agents.watch != Idle && !a.Agents?
    ensures After(env, s, a).agents == s.agents && After(env, s, a).reload.stage == File.Resting
  {}

  lemma SnapshotSees(env: Env, s: Joint, conns: map<Conn, string>, w: File.Marks, fp: string, c: Conn)
    requires Joined(s, w) && Can(env, s, Agents(Snapshot(conns))) && Enforcing(s, fp) && RegisteredOf(s, fp, c)
    ensures Pursued(After(env, s, Agents(Snapshot(conns))).agents, c)
  {
    SnapshotPursues(env, s.agents, conns, c);
  }

  lemma SweepGoesOn(env: Env, s: Joint, a: Act, w: File.Marks, c: Conn)
    requires Joined(s, w) && Can(env, s, a) && s.agents.watch.Sweeping? && Pursued(s.agents, c)
    ensures Pursued(After(env, s, a).agents, c)
  {
    if a.Agents? { PursuitGoesOn(env, s.agents, a.step, c); } else { OnlyReplacements(env, s, a, w); }
  }

  lemma SweepStaysSweep(env: Env, s: Joint, a: Act, w: File.Marks)
    requires Joined(s, w) && Can(env, s, a) && s.agents.watch.Sweeping?
    ensures var t := After(env, s, a);
      && t.reload.stage == File.Resting && t.agents.revoked == s.agents.revoked
      && (t.agents.watch.Sweeping? || t.agents.watch == Idle)
  {
    if a.Agents? { InSweep(env, s.agents, a.step); } else { OnlyReplacements(env, s, a, w); }
  }

  lemma NoNewcomers(env: Env, s: Joint, a: Act, w: File.Marks, fp: string, c: Conn)
    requires Joined(s, w) && Can(env, s, a) && fp in s.agents.revoked && Of(After(env, s, a), fp, c)
    ensures Of(s, fp, c)
  {
    if a.Agents? { KeyCheckBars(env, s.agents, a.step, c); }
  }

  lemma StatStarts(env: Env, s: Joint, w: File.Marks, fp: string)
    requires Joined(s, w) && Can(env, s, Stat) && Bars(s, fp) && File.Faithful(s.reload.files)
    ensures Reloading(After(env, s, Stat), fp)
  {
    File.FaithfulMeansCurrent(s.reload, w);
  }

  lemma SnapshotStarts(env: Env, states: seq<Joint>, acts: seq<Act>, j: nat, fp: string)
    requires IsJointRun(env, states, acts) && j < |acts|
    requires acts[j].Agents? && acts[j].step.Snapshot? && Enforcing(states[j], fp)
    ensures Swept(states, acts, j, j + 1, fp)
  {
    var w := RunStaysJoined(env, states, acts, j);
    assert ActAt(env, states, acts, j);
    forall c | RegisteredOf(states[j], fp, c) ensures Pursued(states[j + 1].agents, c) {
      SnapshotSees(env, states[j], acts[j].step.conns, w, fp, c);
    }
    forall c | Of(states[j + 1], fp, c) ensures Of(states[j], fp, c) {
      NoNewcomers(env, states[j], acts[j], w, fp, c);
    }
  }

  lemma SweptGoesOn(env: Env, states: seq<Joint>, acts: seq<Act>, j: nat, i: nat, fp: string)
    requires IsJointRun(env, states, acts) && i < |acts| && Swept(states, acts, j, i, fp)
    requires !AtRest(states[i])
    ensures Swept(states, acts, j, i + 1, fp)
  {
    var w := RunStaysJoined(env, states, acts, i);
    assert ActAt(env, states, acts, i);
    SweepStaysSweep(env, states[i], acts[i], w);
    forall c | RegisteredOf(states[j], fp, c) ensures Pursued(states[i + 1].agents, c) {
      SweepGoesOn(env, states[i], acts[i], w, c);
    }
    forall c | Of(states[i + 1], fp, c) ensures Of(states[j], fp, c) {
      NoNewcomers(env, states[i], acts[i], w, fp, c);
    }
  }

  /** Act i is the stat of a tick that has not come to rest before m and has not
      failed, and all the while the file bars fp. */
  ghost predicate TickFor(states: seq<Joint>, acts: seq<Act>, i: nat, m: nat, fp: string)
    requires m < |states| <= |acts| + 1
  {
    && i < m && acts[i] == Stat && Bars(states[i], fp) && File.Faithful(states[i].reload.files)
    && forall l :: i < l < m ==> Ticking(states[l], acts[l], fp)
  }

  predicate Ticking(s: Joint, a: Act, fp: string) {
    !AtRest(s) && a != ReadFails && Bars(s, fp)
  }

  /** How far the tick has come at m. */
  ghost predicate Come(states: seq<Joint>, acts: seq<Act>, i: nat, j: nat, m: nat, fp: string)
    requires m < |states| <= |acts| + 1
  {
    Reloading(states[m], fp) || Enforcing(states[m], fp) || (i < j && Swept(states, acts, j, m, fp))
  }

  lemma TickBegins(env: Env, states: seq<Joint>, acts: seq<Act>, i: nat, fp: string)
    requires IsJointRun(env, states, acts) && i < |acts| && acts[i] == Stat
    requires Bars(states[i], fp) && File.Faithful(states[i].reload.files)
    ensures Reloading(states[i + 1], fp)
  {
    var w := RunStaysJoined(env, states, acts, i);
    assert ActAt(env, states, acts, i);
    StatStarts(env, states[i], w, fp);
  }

  lemma ReloadingStep(env: Env, states: seq<Joint>, acts: seq<Act>, m: nat, fp: string)
    requires IsJointRun(env, states, acts) && m < |acts| && Reloading(states[m], fp)
    requires Bars(states[m], fp) && acts[m] != ReadFails
    ensures Reloading(states[m + 1], fp) || Enforcing(states[m + 1], fp)
  {
    var w := RunStaysJoined(env, states, acts, m);
    assert ActAt(env, states, acts, m);
    ReloadingGoesOn(env, states[m], acts[m], w, fp);
  }

  lemma TickStep(env: Env, states: seq<Joint>, acts: seq<Act>, i: nat, j: nat, m: nat, fp: string) returns (j': nat)
    requires IsJointRun(env, states, acts) && i < m < |acts| && Come(states, acts, i, j, m, fp)
    requires Ticking(states[m], acts[m], fp)
    ensures Come(states, acts, i, j', m + 1, fp)
  {
    j' := j;
    if Reloading(states[m], fp) { ReloadingStep(env, states, acts, m, fp); }
    else if Enforcing(states[m], fp) { j' := EnforcingStep(env, states, acts, m, fp); }
    else { SweptGoesOn(env, states, acts, j, m, fp); }
  }

  lemma {:induction false} TickGoesOn(env: Env, states: seq<Joint>, acts: seq<Act>, i: nat, m: nat, fp: string)
    returns (j: nat)
    requires IsJointRun(env, states, acts) && m < |states| && TickFor(states, acts, i, m, fp)
    ensures Come(states, acts, i, j, m, fp)
  {
    if m == i + 1 {
      j := 0;
      TickBegins(env, states, acts, i, fp);
    } else {
      assert Ticking(states[m - 1], acts[m - 1], fp);
      j := TickGoesOn(env, states, acts, i, m - 1, fp);
      j := TickStep(env, states, acts, i, j, m - 1, fp);
    }
  }

  lemma EnforcingStep(env: Env, states: seq<Joint>, acts: seq<Act>, i: nat, fp: string) returns (j: nat)
    requires IsJointRun(env, states, acts) && i < |acts| && Enforcing(states[i], fp)
    ensures Enforcing(states[i + 1], fp) || (j == i && Swept(states, acts, j, i + 1, fp))
  {
    var w := RunStaysJoined(env, states, acts, i);
    assert ActAt(env, states, acts, i);
    j := i;
    if acts[i].Agents? && acts[i].step.Snapshot? { SnapshotStarts(env, states, acts, i, fp); }
    else { EnforcingGoesOn(env, states[i], acts[i], w, fp); }
  }

  /** A revocation in the file reaches the connections. If a tick's stat finds a
      file that bars fp, which it then does until the watcher rests again, the
      history of the file up to the stat is faithful, and reading does not fail,
      then in that tick a snapshot was taken, and when the watcher rests no
      connection of fp is newer than the snapshot, and each that had registered
      by then is closed or about to be -- whatever else went on in between. */
  lemma RevokedInTheFileIsSwept(env: Env, states: seq<Joint>, acts: seq<Act>, i: nat, k: nat, fp: string)
    returns (j: nat)
    requires IsJointRun(env, states, acts) && k < |states| && TickFor(states, acts, i, k, fp) && AtRest(states[k])
    ensures i < j < k && acts[j].Agents? && acts[j].step.Snapshot?
    ensures forall c :: Of(states[k], fp, c) ==> Of(states[j], fp, c)
    ensures forall c :: RegisteredOf(states[j], fp, c) ==> Doomed(states[k].agents, c)
  {
    j := TickGoesOn(env, states, acts, i, k, fp);
  }
}
