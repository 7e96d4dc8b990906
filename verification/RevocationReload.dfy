/** Keeping the revocation set current: the object that holds it, and the
    stat-then-read protocol by which it follows a file that others replace at
    any moment. */
module RevocationReload {
  import opened Prelude
  import opened RevocationFile
  import opened Registry

  /** Size and modification time as one string; "" stands for no file. */
  type Stamp = string

  datatype Stat = Found(stamp: Stamp) | NoFile | StatFails

  datatype Opened = Content(text: string) | Missing | OpenFails

  function StampSeen(stat: Stat): Stamp
    requires !stat.StatFails?
  {
    if stat.Found? then stat.stamp else ""
  }

  /** What opening and reading the file yields. */
  function ReadOutcome(got: Opened): Option<RevokedSet> {
    match got
    case OpenFails => None
    case Missing => Some(map[])
    case Content(text) => if Parse(Some(text)).Ok? then Some(Parse(Some(text)).value) else None
  }

  datatype Held = Held(m: RevokedSet, stamp: Stamp)

  datatype Report = Changed | Same | Failed

  /** reload, with what its two file operations returned. */
  function Reloaded(held: Held, stat: Stat, got: Opened): (Held, Report) {
    if stat.StatFails? then (held, Failed)
    else if StampSeen(stat) == held.stamp then (held, Same)
    else if ReadOutcome(got).None? then (held, Failed)
    else (Held(ReadOutcome(got).value, StampSeen(stat)), Changed)
  }

  class Revocations {
    var m: RevokedSet
    var stamp: Stamp

    constructor ()
      ensures m == map[] && stamp == ""
    {
      m, stamp := map[], "";
    }

    method Reload(stat: Stat, got: Opened) returns (report: Report)
      modifies this
      ensures (Held(m, stamp), report) == Reloaded(old(Held(m, stamp)), stat, got)
      ensures stat.StatFails? || got.OpenFails? || report.Failed? ==> m == old(m) && stamp == old(stamp)
      ensures report.Changed? ==>
        && (got.Missing? ==> m == map[]) && (got.Content? ==> Parse(Some(got.text)) == Ok(m))
        && stamp == (if stat.Found? then stat.stamp else "")
    {
      var seen := "";
      match stat {
        case Found(s) => seen := s;
        case NoFile =>
        case StatFails => return Failed;
      }
      if seen == stamp { return Same; }
      match got
      case OpenFails => return Failed;
      case Missing =>
        m, stamp := map[], seen;
        return Changed;
      case Content(text) =>
        var read := ReadRevocations(Some(text));
        if read.Err? { return Failed; }
        m, stamp := read.value, seen;
        return Changed;
    }

    /** sweep, over a registry at rest: the connections it closes are those of
        barred fingerprints, in whatever order they come. */
    method Sweep(conns: map<Conn, string>) returns (closed: set<Conn>)
      ensures closed == set c | c in conns && conns[c] in m
    {
      closed := {};
      if |m| == 0 { return; }
      var todo := conns.Keys;
      while todo != {}
        invariant todo <= conns.Keys
        invariant closed == set c | c in conns && c !in todo && conns[c] in m
        decreases todo
      {
        var c :| c in todo;
        if conns[c] in m { closed := closed + {c}; }
        todo := todo - {c};
      }
    }
  }

  // ---- The protocol: reload's stages, and others replacing the file ----

  datatype File = File(stamp: Stamp, text: string)

  predicate Stamped(file: Option<File>) {
    file.Some? ==> file.value.stamp != ""
  }

  /** What the path has held, a missing file included; the last is what it
      holds now. */
  type History = files: seq<Option<File>> | files != [] && forall f :: f in files ==> Stamped(f)
    witness [None]

  datatype Stage =
    | Resting
    | Statted(stamp: Stamp)            // stat has returned; not yet compared
    | Differs(stamp: Stamp)            // the stamp is new; not yet read
    | Read(stamp: Stamp, m: RevokedSet) // read and parsed; not yet installed

  datatype State = State(files: History, held: Held, stage: Stage)

  function Now(s: State): Option<File> {
    s.files[|s.files| - 1]
  }

  function StampOf(file: Option<File>): Stamp {
    if file.Some? then file.value.stamp else ""
  }

  function Meaning(file: Option<File>): Result<RevokedSet, Error> {
    Parse(if file.Some? then Some(file.value.text) else None)
  }

  datatype Step =
    | Replace(file: Option<File>)  // by rename or unlink, in one step
    | DoStat
    | StatError
    | Compare
    | DoRead
    | ReadError
    | Install

  predicate Enabled(s: State, a: Step) {
    match a
    case Replace(file) => Stamped(file)
    case DoStat => s.stage == Resting
    case StatError => s.stage == Resting
    case Compare => s.stage.Statted?
    case DoRead => s.stage.Differs?
    case ReadError => s.stage.Differs?
    case Install => s.stage.Read?
  }

  function Do(s: State, a: Step): State
    requires Enabled(s, a)
  {
    match a
    case Replace(file) => s.(files := s.files + [file])
    case DoStat => s.(stage := Statted(StampOf(Now(s))))
    case StatError => s
    case Compare => s.(stage := if s.stage.stamp == s.held.stamp then Resting else Differs(s.stage.stamp))
    case DoRead =>
      s.(stage := if Meaning(Now(s)).Ok? then Read(s.stage.stamp, Meaning(Now(s)).value) else Resting)
    case ReadError => s.(stage := Resting)
    case Install => s.(held := Held(s.stage.m, s.stage.stamp), stage := Resting)
  }

  predicate Init(s: State) {
    s.held == Held(map[], "") && s.stage == Resting && |s.files| == 1
  }

  ghost predicate StepAt(states: seq<State>, steps: seq<Step>, i: nat) {
    i < |steps| && i + 1 < |states| && Enabled(states[i], steps[i]) && states[i + 1] == Do(states[i], steps[i])
  }

  ghost predicate Steps(states: seq<State>, steps: seq<Step>) {
    |states| == |steps| + 1 && forall i :: 0 <= i < |steps| ==> StepAt(states, steps, i)
  }

  ghost predicate IsRun(states: seq<State>, steps: seq<Step>) {
    Steps(states, steps) && Init(states[0])
  }

  // ---- What a history must be like ----

  /** The set in memory is what the file means, whenever the stamps agree. */
  predicate Current(s: State) {
    s.held.stamp == StampOf(Now(s)) ==> Meaning(Now(s)) == Ok(s.held.m)
  }

  /** A reload that takes its stamp at moment i can find that stamp new. That of
      a missing file is new only after another has been installed. */
  predicate CanDiffer(files: History, i: nat)
    requires i < |files|
  {
    files[i].Some? || exists a :: 0 <= a < i && files[a].Some?
  }

  /** A stamp taken at moment i, and contents read at j, tell the truth about
      moment k. */
  predicate Truthful(files: History, i: nat, j: nat, k: nat)
    requires i <= j <= k < |files|
  {
    (CanDiffer(files, i) && StampOf(files[i]) == StampOf(files[k]) && Meaning(files[j]).Ok?)
      ==> Meaning(files[j]) == Meaning(files[k])
  }

  /** Whenever a stamp comes back, no readable contents since then meant
      anything but what the file means now. */
  ghost predicate Faithful(files: History) {
    forall i, j, k :: 0 <= i <= j <= k < |files| ==> Truthful(files, i, j, k)
  }

  // ---- Faithful histories are followed ----

  /** The moments at which what is held, and what the stage has, were taken. */
  datatype Marks = Marks(installed: bool, heldStat: nat, heldRead: nat, stat: nat, read: nat)

  predicate HeldFits(s: State, w: Marks) {
    if !w.installed then s.held == Held(map[], "")
    else
      && w.heldStat <= w.heldRead < |s.files| && CanDiffer(s.files, w.heldStat)
      && s.held.stamp == StampOf(s.files[w.heldStat]) && Meaning(s.files[w.heldRead]) == Ok(s.held.m)
  }

  predicate StageFits(s: State, w: Marks) {
    s.stage != Resting ==>
      && w.stat < |s.files| && s.stage.stamp == StampOf(s.files[w.stat])
      && (w.installed ==> w.heldRead <= w.stat)
      && (!s.stage.Statted? ==> CanDiffer(s.files, w.stat))
      && (s.stage.Read? ==> w.stat <= w.read < |s.files| && Meaning(s.files[w.read]) == Ok(s.stage.m))
  }

  function NextMarks(s: State, a: Step, w: Marks): Marks {
    var last := |s.files| - 1;
    if a.DoStat? then w.(stat := last)
    else if a.DoRead? then w.(read := last)
    else if a.Install? then Marks(true, w.stat, w.read, w.stat, w.read)
    else w
  }

  /** More history changes nothing about the moments before. */
  lemma CanDifferStays(files: History, file: Option<File>, i: nat)
    requires i < |files| && Stamped(file) && CanDiffer(files, i)
    ensures CanDiffer(files + [file], i)
  {
    if !files[i].Some? {
      var a :| 0 <= a < i && files[a].Some?;
      assert (files + [file])[a].Some?;
    }
  }

  lemma StepKeepsMarks(s: State, a: Step, w: Marks)
    requires HeldFits(s, w) && StageFits(s, w) && Enabled(s, a)
    ensures HeldFits(Do(s, a), NextMarks(s, a, w)) && StageFits(Do(s, a), NextMarks(s, a, w))
  {
    if a.Replace? {
      if w.installed { CanDifferStays(s.files, a.file, w.heldStat); }
      if s.stage.Differs? || s.stage.Read? { CanDifferStays(s.files, a.file, w.stat); }
    }
    if a.Compare? && s.stage.stamp != s.held.stamp && s.files[w.stat].None? {
      assert s.files[w.heldStat].Some?;
    }
  }

  lemma {:induction false} RunHasMarks(states: seq<State>, steps: seq<Step>, t: nat) returns (w: Marks)
    requires IsRun(states, steps) && t < |states|
    ensures HeldFits(states[t], w) && StageFits(states[t], w)
  {
    if t == 0 {
      w := Marks(false, 0, 0, 0, 0);
    } else {
      w := RunHasMarks(states, steps, t - 1);
      assert StepAt(states, steps, t - 1);
      StepKeepsMarks(states[t - 1], steps[t - 1], w);
      w := NextMarks(states[t - 1], steps[t - 1], w);
    }
  }

  /** Taking the stamp before reading loses no update: in any interleaving with
      replacements of the file that make a faithful history, an equal stamp
      means an equal set, at every moment. */
  lemma EqualStampsMeanEqualSets(states: seq<State>, steps: seq<Step>, t: nat)
    requires IsRun(states, steps) && t < |states| && Faithful(states[t].files)
    ensures states[t].held.stamp == StampOf(Now(states[t])) ==> Meaning(Now(states[t])) == Ok(states[t].held.m)
  {
    var w := RunHasMarks(states, steps, t);
    FaithfulMeansCurrent(states[t], w);
  }

  lemma FaithfulMeansCurrent(s: State, w: Marks)
    requires HeldFits(s, w) && Faithful(s.files)
    ensures Current(s)
  {
    if w.installed { assert Truthful(s.files, w.heldStat, w.heldRead, |s.files| - 1); }
    assert Now(s) in s.files;
  }

  // ---- Histories that are not faithful ----

  ghost predicate Path(states: seq<State>, steps: seq<Step>, s: State, s': State) {
    Steps(states, steps) && states[0] == s && states[|steps|] == s'
  }

  ghost predicate Leads(s: State, s': State) {
    exists states, steps :: Path(states, steps, s, s')
  }

  lemma LeadsByStep(s: State, a: Step)
    requires Enabled(s, a)
    ensures Leads(s, Do(s, a))
  {
    assert StepAt([s, Do(s, a)], [a], 0);
    assert Path([s, Do(s, a)], [a], s, Do(s, a));
  }

  lemma LeadsOn(s: State, t: State, u: State)
    requires Leads(s, t) && Leads(t, u)
    ensures Leads(s, u)
  {
    var states, steps :| Path(states, steps, s, t);
    var states', steps' :| Path(states', steps', t, u);
    var all, acts := states + states'[1..], steps + steps';
    forall i | 0 <= i < |acts| ensures StepAt(all, acts, i) {
      if i < |steps| {
        assert StepAt(states, steps, i);
      } else {
        assert StepAt(states', steps', i - |steps|);
        assert all[i] == states'[i - |steps|] && all[i + 1] == states'[i - |steps| + 1];
      }
    }
    assert Path(all, acts, s, u);
  }

  /** The file can go through any history while the reload stands still. */
  lemma {:induction false} LeadsThroughFiles(s: State, files: History)
    requires s.files <= files
    ensures Leads(s, s.(files := files))
    decreases |files|
  {
    if s.files == files {
      assert Path([s], [], s, s);
    } else {
      var n := |files| - 1;
      var before := s.(files := files[..n]);
      assert files[n] in files && files == files[..n] + [files[n]];
      LeadsThroughFiles(s, files[..n]);
      LeadsByStep(before, Replace(files[n]));
      LeadsOn(s, before, s.(files := files));
    }
  }

  /** A reload that takes its stamp at moment i and reads at moment j. */
  lemma LeadsByReload(s: State, files: History, i: nat, j: nat)
    requires i <= j < |files| && s.files == files[..i + 1] && s.stage == Resting
    requires s.held.stamp != StampOf(files[i]) && Meaning(files[j]).Ok?
    ensures Leads(s, State(files[..j + 1], Held(Meaning(files[j]).value, StampOf(files[i])), Resting))
  {
    var m, stamp := Meaning(files[j]).value, StampOf(files[i]);
    var statted := s.(stage := Statted(stamp));
    var differs := s.(stage := Differs(stamp));
    var late := State(files[..j + 1], s.held, Differs(stamp));
    var read := late.(stage := Read(stamp, m));
    LeadsByStep(s, DoStat);
    LeadsByStep(statted, Compare);
    LeadsThroughFiles(differs, files[..j + 1]);
    LeadsByStep(late, DoRead);
    LeadsByStep(read, Install);
    LeadsOn(s, statted, differs);
    LeadsOn(s, differs, late);
    LeadsOn(s, late, read);
    LeadsOn(s, read, State(files[..j + 1], Held(m, stamp), Resting));
  }

  /** From the start to a reload at rest, at moment i, that will find the stamp
      there new. */
  lemma LeadsToNewStamp(files: History, i: nat) returns (s: State)
    requires i < |files| && CanDiffer(files, i)
    ensures Leads(State(files[..1], Held(map[], ""), Resting), s)
    ensures s.files == files[..i + 1] && s.stage == Resting && s.held.stamp != StampOf(files[i])
  {
    var start := State(files[..1], Held(map[], ""), Resting);
    if files[i].Some? {
      s := start.(files := files[..i + 1]);
      assert files[i] in files;
      LeadsThroughFiles(start, s.files);
    } else {
      var a :| 0 <= a < i && files[a].Some?;
      var before := start.(files := files[..a + 1]);
      assert files[a] in files;
      LeadsThroughFiles(start, before.files);
      LeadsByReload(before, files, a, i);
      s := State(files[..i + 1], Held(map[], StampOf(files[a])), Resting);
      LeadsOn(start, before, s);
    }
  }

  /** If a stamp comes back although readable contents in between meant
      something else, some reload loses the update: it ends with the stamp of
      the file and the set of other contents. */
  lemma RecurringStampHidesAnUpdate(files: History, i: nat, j: nat, k: nat)
    returns (states: seq<State>, steps: seq<Step>)
    requires i <= j <= k < |files| && !Truthful(files, i, j, k)
    ensures IsRun(states, steps) && states[|steps|].files == files[..k + 1]
    ensures states[|steps|].stage == Resting && !Current(states[|steps|])
  {
    var start := State(files[..1], Held(map[], ""), Resting);
    var end := State(files[..k + 1], Held(Meaning(files[j]).value, StampOf(files[i])), Resting);
    LeadsToStale(files, i, j, k);
    states, steps :| Path(states, steps, start, end);
    assert Now(end) == files[k];
  }

  /** From the start to the stamp of moment i and the set of moment j, at moment k. */
  lemma LeadsToStale(files: History, i: nat, j: nat, k: nat)
    requires i <= j <= k < |files| && CanDiffer(files, i) && Meaning(files[j]).Ok?
    ensures Leads(State(files[..1], Held(map[], ""), Resting),
                  State(files[..k + 1], Held(Meaning(files[j]).value, StampOf(files[i])), Resting))
  {
    var start := State(files[..1], Held(map[], ""), Resting);
    var s := LeadsToNewStamp(files, i);
    LeadsByReload(s, files, i, j);
    var installed := State(files[..j + 1], Held(Meaning(files[j]).value, StampOf(files[i])), Resting);
    LeadsThroughFiles(installed, files[..k + 1]);
    LeadsOn(start, s, installed);
    LeadsOn(start, installed, installed.(files := files[..k + 1]));
  }

  /** In every run over this history, or a beginning of it, the set in memory is
      right whenever the stamps agree. */
  ghost predicate IsFollowed(files: History) {
    forall states: seq<State>, steps: seq<Step> ::
      IsRun(states, steps) && states[|steps|].files <= files ==> Current(states[|steps|])
  }

  /** Which histories of the file are followed: exactly the faithful ones. */
  lemma FollowedExactlyWhenFaithful(files: History)
    ensures IsFollowed(files) <==> Faithful(files)
  {
    if Faithful(files) {
      forall states: seq<State>, steps: seq<Step> | IsRun(states, steps) && states[|steps|].files <= files
        ensures Current(states[|steps|])
      {
        FaithfulBeginning(files, states[|steps|].files);
        EqualStampsMeanEqualSets(states, steps, |steps|);
      }
    } else {
      var i, j, k :| 0 <= i <= j <= k < |files| && !Truthful(files, i, j, k);
      var states, steps := RecurringStampHidesAnUpdate(files, i, j, k);
    }
  }

  lemma FaithfulBeginning(files: History, beginning: History)
    requires Faithful(files) && beginning <= files
    ensures Faithful(beginning)
  {
    forall i, j, k | 0 <= i <= j <= k < |beginning| ensures Truthful(beginning, i, j, k) {
      assert Truthful(files, i, j, k);
      if beginning[i].None? && CanDiffer(beginning, i) {
        var a :| 0 <= a < i && beginning[a].Some?;
        assert files[a].Some?;
      }
    }
  }

  /** If no stamp ever comes back, the history is faithful. */
  lemma DistinctStampsAreFaithful(files: History)
    requires forall i, k :: 0 <= i < k < |files| ==> StampOf(files[i]) != StampOf(files[k])
    ensures Faithful(files)
  {
    forall i, j, k | 0 <= i <= j <= k < |files| ensures Truthful(files, i, j, k) {}
  }

  /** Other contents of the same size and time, put in place at once, are missed. */
  lemma OverwriteUnderOneStamp(stamp: Stamp, was: string, now: string)
    requires stamp != "" && Parse(Some(was)).Ok? && Parse(Some(was)) != Parse(Some(now))
    ensures !IsFollowed([Some(File(stamp, was)), Some(File(stamp, now))])
  {
    var files: History := [Some(File(stamp, was)), Some(File(stamp, now))];
    assert !Truthful(files, 0, 0, 1);
    FollowedExactlyWhenFaithful(files);
  }

  // ---- One reload by itself ----

  function StatOf(file: Option<File>): Stat {
    if file.Some? then Found(file.value.stamp) else NoFile
  }

  function OpenOf(file: Option<File>): Opened {
    if file.Some? then Content(file.value.text) else Missing
  }

  /** One undisturbed reload converges: afterwards the set is what the file means
      and the stamps agree, or the file cannot be read and nothing has changed. */
  lemma UndisturbedReloadConverges(s: State)
    requires Current(s)
    ensures var r := Reloaded(s.held, StatOf(Now(s)), OpenOf(Now(s)));
      if Meaning(Now(s)).Ok? then r.0 == Held(Meaning(Now(s)).value, StampOf(Now(s))) && !r.1.Failed?
      else r == (s.held, Failed)
  {}

  /** What each outcome of the stat and the open leads to, whatever is held: a
      failed stat, a failed open and contents that do not parse change nothing,
      and are reported unless the stamp was the same; a missing file bars nobody. */
  lemma EveryOutcomeOfReload(held: Held, stat: Stat, got: Opened)
    ensures var (after, report) := Reloaded(held, stat, got);
      var seen := if stat.Found? then stat.stamp else "";
      if stat.StatFails? then after == held && report == Failed
      else if seen == held.stamp then after == held && report == Same
      else match got
        case OpenFails => after == held && report == Failed
        case Missing => after == Held(map[], seen) && report == Changed
        case Content(text) =>
          if Parse(Some(text)).Ok? then after == Held(Parse(Some(text)).value, seen) && report == Changed
          else after == held && report == Failed
  {}

  /** The stages of reload, one after the other, with or without errors. */
  function Stages(s: State, statFails: bool, openFails: bool): State
    requires s.stage == Resting
  {
    if statFails then Do(s, StatError)
    else
      var compared := Do(Do(s, DoStat), Compare);
      if compared.stage == Resting then compared
      else if openFails then Do(compared, ReadError)
      else
        var read := Do(compared, DoRead);
        if read.stage == Resting then read else Do(read, Install)
  }

  /** Run without a replacement in between, the stages are the reload method, on
      every outcome of its stat and its open. */
  lemma StagesAreReload(s: State, statFails: bool, openFails: bool)
    requires s.stage == Resting
    ensures var stat := if statFails then StatFails else StatOf(Now(s));
      var got := if openFails then OpenFails else OpenOf(Now(s));
      Stages(s, statFails, openFails) == s.(held := Reloaded(s.held, stat, got).0)
  {}
}
