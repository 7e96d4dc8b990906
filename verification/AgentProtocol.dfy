/** The agent registration protocol, as a state machine. Every agent connection
    has a handler of its own; the steps are the sections that run under a lock,
    and the effects between them. Host key reports, the ledger, the revocation
    reload and its sweep interleave with the handlers in any order. */
module AgentProtocol {
  import opened Prelude
  import opened Naming
  import opened Registry
  import Ledger

  // ---- What a key check lets in ----

  /** The identity a connection authenticated: fixed for its lifetime. The
      friendly name is "" when there is none. */
  datatype Identity =
    Identity(fp: string, canonical: string, friendly: string, proto: int, build: string, platform: string)

  /** What an agent presents; `certified` is the certificate checker's answer. */
  datatype Offer =
    Offer(user: string, principals: seq<string>, fp: string,
          proto: int, build: string, platform: string, certified: bool)

  /** The first principal that is a valid friendly name. */
  function FriendlyPrincipal(principals: seq<string>): string {
    if principals == [] then ""
    else if !IsCanonicalName(principals[0]) && ValidFriendlyName(principals[0]) then principals[0]
    else FriendlyPrincipal(principals[1..])
  }

  /** The loop over cert.ValidPrincipals. */
  method ChooseFriendly(principals: seq<string>) returns (friendly: string)
    ensures friendly == FriendlyPrincipal(principals)
    ensures friendly == "" || (friendly in principals && ValidFriendlyName(friendly))
    ensures friendly == "" ==> forall p :: p in principals ==> !ValidFriendlyName(p)
  {
    for i := 0 to |principals|
      invariant FriendlyPrincipal(principals) == FriendlyPrincipal(principals[i..])
      invariant forall j :: 0 <= j < i ==> !ValidFriendlyName(principals[j])
    {
      var p := principals[i];
      if !IsCanonicalName(p) && ValidFriendlyName(p) { return p; }
      NamespacesAreDisjoint(p);
    }
    return "";
  }

  datatype Env = Env(sha: Hash, minProto: int)

  /** The agent listener's PublicKeyCallback. */
  function KeyCheck(env: Env, revoked: map<string, string>, o: Offer): Option<Identity> {
    if o.proto < env.minProto then None
    else if o.fp in revoked then None
    else if !o.certified then None
    else if !ValidCanonicalName(o.user) then None
    else Some(Identity(o.fp, o.user, FriendlyPrincipal(o.principals), o.proto, o.build, o.platform))
  }

  // ---- States ----

  datatype Phase =
    | Checked   // the key check passed; nothing registered yet
    | Refused   // the canonical name is another machine's; about to close itself
    | Named     // holds the canonical name
    | Granted   // the ledger granted the friendly name; second add to come
    | Parked    // waiting for the connection to die
    | Leaving   // taking its names out
    | Finished

  /** names: what the handler will remove. owes: the connection its last add
      displaced and it has yet to close. */
  datatype Handler = Handler(id: Identity, phase: Phase, names: seq<string>, owes: Option<Conn>)

  /** The revocation watcher between ticks, and in its three stages of a sweep. */
  datatype Watch =
    | Idle
    | Due
    | Counted
    | Sweeping(todo: map<Conn, string>, closing: Option<Conn>)

  datatype State =
    State(reg: Table, ledger: map<string, string>, revoked: map<string, string>,
          handlers: map<Conn, Handler>, closed: set<Conn>, watch: Watch)

  function RegistrationOf(c: Conn, id: Identity): Registration {
    Registration(c, id.fp, id.proto, id.build, id.platform, "")
  }

  // ---- Steps ----

  datatype Step =
    | Connect(c: Conn, offer: Offer)
    | TakeCanonical(c: Conn)
    | CloseSelf(c: Conn)
    | PayClose(c: Conn)
    | Claim(c: Conn)
    | TakeFriendly(c: Conn)
    | Die(c: Conn)
    | Wake(c: Conn)
    | Drop(c: Conn)
    | Finish(c: Conn)
    | Report(c: Conn, key: Key)
    | ReloadLedger(bindings: map<string, string>)
    | ReloadFails
    | ReloadSame
    | Install(revoked: map<string, string>)
    | Count
    | Snapshot(conns: map<Conn, string>)
    | Check(c: Conn)
    | SweepClose
    | SweepEnd

  predicate In(s: State, c: Conn, phase: Phase) {
    c in s.handlers && s.handlers[c].phase == phase && s.handlers[c].owes == None
  }

  ghost predicate Enabled(env: Env, s: State, a: Step) {
    match a
    case Connect(c, offer) => c !in s.handlers && c !in s.closed && KeyCheck(env, s.revoked, offer).Some?
    case TakeCanonical(c) => In(s, c, Checked)
    case CloseSelf(c) => In(s, c, Refused)
    case PayClose(c) => c in s.handlers && s.handlers[c].owes.Some?
    case Claim(c) => In(s, c, Named)
    case TakeFriendly(c) => In(s, c, Granted)
    case Die(c) => c in s.handlers
    case Wake(c) => In(s, c, Parked) && c in s.closed
    case Drop(c) => In(s, c, Leaving) && s.handlers[c].names != []
    case Finish(c) => In(s, c, Leaving) && s.handlers[c].names == []
    case Report(c, _) => c in s.handlers
    case ReloadLedger(_) => true
    case ReloadFails => s.watch == Idle
    case ReloadSame => s.watch == Idle
    case Install(_) => s.watch == Idle
    case Count => s.watch == Due
    case Snapshot(conns) => s.watch == Counted && IsConnections(s.reg, conns)
    case Check(c) => s.watch.Sweeping? && s.watch.closing == None && c in s.watch.todo
    case SweepClose => s.watch.Sweeping? && s.watch.closing.Some?
    case SweepEnd => s.watch == Sweeping(map[], None)
  }

  function With(s: State, c: Conn, h: Handler): State {
    s.(handlers := s.handlers[c := h])
  }

  function DoTakeCanonical(s: State, c: Conn): State
    requires c in s.handlers
  {
    var h := s.handlers[c];
    var r := RegistrationOf(c, h.id);
    if AddRefused(s.reg, h.id.canonical, r) then With(s, c, h.(phase := Refused))
    else
      With(s, c, Handler(h.id, Named, [h.id.canonical], Displaced(s.reg, h.id.canonical, r)))
        .(reg := Added(s.reg, h.id.canonical, r))
  }

  function DoClaim(s: State, c: Conn): State
    requires c in s.handlers
  {
    var h := s.handlers[c];
    if h.id.friendly == "" || !Ledger.Granted(s.ledger, h.id.friendly, h.id.fp)
    then With(s, c, h.(phase := Parked))
    else With(s, c, h.(phase := Granted)).(ledger := Ledger.Bound(s.ledger, h.id.friendly, h.id.fp))
  }

  function DoTakeFriendly(s: State, c: Conn): State
    requires c in s.handlers
  {
    var h := s.handlers[c];
    var r := RegistrationOf(c, h.id);
    if AddRefused(s.reg, h.id.friendly, r) then With(s, c, h.(phase := Parked))
    else
      With(s, c, Handler(h.id, Parked, h.names + [h.id.friendly], Displaced(s.reg, h.id.friendly, r)))
        .(reg := Added(s.reg, h.id.friendly, r))
  }

  function DoReport(env: Env, s: State, c: Conn, key: Key): State
    requires c in s.handlers
  {
    if VerifyCanonicalName(env.sha, s.handlers[c].id.canonical, key)
    then s.(reg := WithHostFP(s.reg, c, FingerprintSHA256(env.sha, key)))
    else s
  }

  function DoCheck(s: State, c: Conn): State
    requires s.watch.Sweeping? && c in s.watch.todo
  {
    s.(watch := Sweeping(s.watch.todo - {c}, if s.watch.todo[c] in s.revoked then Some(c) else None))
  }

  ghost function Do(env: Env, s: State, a: Step): State
    requires Enabled(env, s, a)
  {
    match a
    case Connect(c, offer) => With(s, c, Handler(KeyCheck(env, s.revoked, offer).value, Checked, [], None))
    case TakeCanonical(c) => DoTakeCanonical(s, c)
    case CloseSelf(c) => With(s, c, s.handlers[c].(phase := Finished)).(closed := s.closed + {c})
    case PayClose(c) =>
      With(s, c, s.handlers[c].(owes := None)).(closed := s.closed + {s.handlers[c].owes.value})
    case Claim(c) => DoClaim(s, c)
    case TakeFriendly(c) => DoTakeFriendly(s, c)
    case Die(c) => s.(closed := s.closed + {c})
    case Wake(c) => With(s, c, s.handlers[c].(phase := Leaving))
    case Drop(c) =>
      var h := s.handlers[c];
      With(s, c, h.(names := h.names[1..])).(reg := Removed(s.reg, h.names[0], c))
    case Finish(c) => With(s, c, s.handlers[c].(phase := Finished))
    case Report(c, key) => DoReport(env, s, c, key)
    case ReloadLedger(bindings) => s.(ledger := bindings)
    case ReloadFails => s
    case ReloadSame => s.(watch := Due)
    case Install(revoked) => s.(revoked := revoked, watch := Due)
    case Count => s.(watch := if |s.revoked| == 0 then Idle else Counted)
    case Snapshot(conns) => s.(watch := Sweeping(conns, None))
    case Check(c) => DoCheck(s, c)
    case SweepClose => s.(closed := s.closed + {s.watch.closing.value}, watch := s.watch.(closing := None))
    case SweepEnd => s.(watch := Idle)
  }

  // ---- Runs ----

  predicate Init(s: State) {
    s.reg == map[] && s.handlers == map[] && s.closed == {} && s.watch == Idle
  }

  ghost predicate Next(env: Env, s: State, a: Step, s': State) {
    Enabled(env, s, a) && s' == Do(env, s, a)
  }

  ghost predicate StepAt(env: Env, states: seq<State>, steps: seq<Step>, i: nat) {
    i < |steps| && i + 1 < |states| && Next(env, states[i], steps[i], states[i + 1])
  }

  /** States, from any on, and the step between each and the next. */
  ghost predicate Steps(env: Env, states: seq<State>, steps: seq<Step>) {
    |states| == |steps| + 1 && forall i :: 0 <= i < |steps| ==> StepAt(env, states, steps, i)
  }

  ghost predicate IsRun(env: Env, states: seq<State>, steps: seq<Step>) {
    Steps(env, states, steps) && Init(states[0])
  }
}
