/** Activation, replacement, cancellation and cleanup of connections, run together with the
    live-authorization monitor and the registry. Each step is what one thread does between
    two points where others may interfere, under the documented lock order. */
module Sessions {
  import opened Bytes
  import opened TrustTables
  import opened TrustHistory
  import opened Registry
  import LiveMonitor

  /** What the holder of a connection's write lock is doing. Activation also holds the
      lifecycle lock, from `Locked` to the point where it ends. */
  datatype Stage =
    | Idle
    | Locked(peer: Snapshot, preferred: bool)
    | Checked(peer: Snapshot, preferred: bool)
    | Registered(peer: Snapshot, preferred: bool)
    | Refused(peer: Snapshot)
    | Published(peer: Snapshot, preferred: bool)
    | CleaningLive
    | CleaningRegistry
  {
    predicate InActivation() {
      Locked? || Checked? || Registered? || Refused? || Published?
    }
  }

  /** `expired` means the last reference is gone, so weak references no longer resolve. */
  datatype Connection = Connection(
    ready: bool, stopping: bool, cleaned: bool, expired: bool, peer: Option<Snapshot>, stage: Stage)
  {
    predicate Running() {
      !stopping && !expired
    }
    predicate Usable() {
      ready && Running()
    }
  }

  const FRESH := Connection(false, false, false, false, None, Idle)

  /** `replaced` holds displaced sessions whose disconnect is still to be requested. */
  datatype State = State(
    monitor: LiveMonitor.State,
    connections: map<SessionId, Connection>,
    registry: seq<Device>,
    replaced: set<SessionId>,
    nextId: SessionId)

  function Running(s: State): (r: set<SessionId>) {
    set x | x in s.connections && s.connections[x].Running()
  }

  /** The entry activation offers to the registry. */
  function Candidate(session: SessionId, peer: Snapshot, preferred: bool): (d: Device) {
    Device(DeviceIdOf(peer), session, preferred, Authenticated,
           peer.publicKey, peer.authorization.revision, peer.authorization.permissions)
  }

  // ---- Steps ----

  datatype Step =
    | Background(step: LiveMonitor.Step)
    | RunCallback
    | Open
    | Lock(session: SessionId, peer: Snapshot, preferred: bool)
    | Check(session: SessionId)
    | FailCheck(session: SessionId)
    | Register(session: SessionId)
    | Publish(session: SessionId, throws: bool)
    | Withdraw(session: SessionId)
    | MakeReady(session: SessionId)
    | DisconnectReplaced(session: SessionId)
    | RequestDisconnect(session: SessionId)
    | Expire(session: SessionId)
    | BeginCleanup(session: SessionId)
    | CleanLive(session: SessionId)
    | CleanRegistry(session: SessionId)

  function With(s: State, session: SessionId, c: Connection): (s': State) {
    s.(connections := s.connections[session := c])
  }

  /** `request_disconnect` on a session, which may be gone already. It waits for the
      lifecycle lock, so it never runs in the middle of an activation. */
  ghost predicate Disconnects(s: State, s': State, session: SessionId) {
    if session in s.connections && !s.connections[session].expired then
      && !s.connections[session].stage.InActivation()
      && s' == With(s, session, s.connections[session].(stopping := true))
    else s' == s
  }

  ghost predicate Next(s: State, s': State, step: Step) {
    match step
    case Background(m) =>
      && (m.CommitOp? || (LiveMonitor.IsMonitor(m) && !m.Invoke?))
      && LiveMonitor.Next(s.monitor, s'.monitor, m) && s' == s.(monitor := s'.monitor)
    case RunCallback =>
      && s.monitor.pc.Invoking? && LiveMonitor.Next(s.monitor, s'.monitor, LiveMonitor.Invoke)
      && Disconnects(s.(monitor := s'.monitor), s', s.monitor.pc.session)
    case Open => s' == With(s, s.nextId, FRESH).(nextId := s.nextId + 1)
    case Lock(x, peer, preferred) =>
      && x in s.connections && var c := s.connections[x];
      && c.stage.Idle? && c.Running() && !c.ready
      && s' == With(s, x, c.(stage := Locked(peer, preferred)))
    case Check(x) =>
      && x in s.connections && var c := s.connections[x];
      && c.stage.Locked?
      && LiveMonitor.Next(s.monitor, s'.monitor, LiveMonitor.CheckRegistration(x, c.stage.peer))
      && s' == With(s, x, c.(stage := Checked(c.stage.peer, c.stage.preferred))).(monitor := s'.monitor)
    case FailCheck(x) =>
      && x in s.connections && s.connections[x].stage.Locked?
      && s' == With(s, x, s.connections[x].(stage := Idle))
    case Register(x) =>
      && x in s.connections && var c := s.connections[x];
      && c.stage.Checked?
      && LiveMonitor.Next(s.monitor, s'.monitor, LiveMonitor.InsertRegistration(x))
      && s' == With(s, x, c.(stage := Registered(c.stage.peer, c.stage.preferred))).(monitor := s'.monitor)
    case Publish(x, throws) =>
      && x in s.connections && var c := s.connections[x];
      && c.stage.Registered?
      && var r := Publication(s.registry, Candidate(x, c.stage.peer, c.stage.preferred), Running(s));
      if throws || r.Rejected? then s' == With(s, x, c.(stage := Refused(c.stage.peer)))
      else s' == With(s, x, c.(stage := Published(c.stage.peer, c.stage.preferred)))
                 .(registry := r.devices,
                   replaced := s.replaced + if r.replaced.Some? then {r.replaced.value.sessionId} else {})
    case Withdraw(x) =>
      && x in s.connections && s.connections[x].stage.Refused?
      && LiveMonitor.Next(s.monitor, s'.monitor, LiveMonitor.Unregister(x))
      && s' == With(s, x, s.connections[x].(stage := Idle)).(monitor := s'.monitor)
    case MakeReady(x) =>
      && x in s.connections && var c := s.connections[x];
      && c.stage.Published?
      && s' == With(s, x, c.(stage := Idle, ready := true, peer := Some(c.stage.peer)))
    case DisconnectReplaced(x) =>
      && x in s.replaced && Disconnects(s.(replaced := s.replaced - {x}), s', x)
    case RequestDisconnect(x) => Disconnects(s, s', x)
    case Expire(x) =>
      && x in s.connections && s.connections[x].stage.Idle?
      && s' == With(s, x, s.connections[x].(expired := true))
    case BeginCleanup(x) =>
      && x in s.connections && var c := s.connections[x];
      && c.stage.Idle? && !c.cleaned
      && s' == With(s, x, c.(stopping := true, cleaned := true, stage := CleaningLive))
    case CleanLive(x) =>
      && x in s.connections && s.connections[x].stage.CleaningLive?
      && LiveMonitor.Next(s.monitor, s'.monitor, LiveMonitor.Unregister(x))
      && s' == With(s, x, s.connections[x].(stage := CleaningRegistry)).(monitor := s'.monitor)
    case CleanRegistry(x) =>
      && x in s.connections && s.connections[x].stage.CleaningRegistry?
      && s' == With(s, x, s.connections[x].(stage := Idle)).(registry := Removal(s.registry, x))
  }

  ghost predicate Init(s: State) {
    LiveMonitor.Init(s.monitor) && s.connections == map[] && s.registry == [] && s.replaced == {}
  }

  // ---- The invariant, one connection at a time ----

  /** Everything outside a connection that mentions it. */
  datatype View = View(live: Option<Snapshot>, callback: bool, pending: Option<Snapshot>, entry: Option<Device>, displaced: bool)

  ghost function ViewOf(s: State, x: SessionId): (v: View) {
    View(if x in s.monitor.live then Some(s.monitor.live[x]) else None,
         s.monitor.pc.Invoking? && s.monitor.pc.session == x,
         if x in s.monitor.pending then Some(s.monitor.pending[x]) else None,
         Entry(s.registry, x),
         x in s.replaced)
  }

  /** A session for `peer` is watched: it is in the live table, or its callback is due. */
  predicate Watched(v: View, peer: Snapshot) {
    v.live == Some(peer) || (v.live.None? && v.callback)
  }

  /** It owns its registry entry, or its disconnect for being displaced is due. */
  predicate Enrolled(v: View, peer: Snapshot) {
    (v.entry.Some? && v.entry.value.deviceId == DeviceIdOf(peer)) || (v.entry.None? && v.displaced)
  }

  predicate AtRest(c: Connection, v: View) {
    if c.ready && c.peer.Some? then
      && (v.live.Some? ==> v.live == c.peer)
      && (c.Running() ==> Watched(v, c.peer.value) && Enrolled(v, c.peer.value))
    else v.live.None? && v.entry.None?
  }

  predicate Coherent(c: Connection, v: View) {
    && (c.ready ==> c.peer.Some? && !c.stage.InActivation())
    && (c.stage.InActivation() ==> c.Running() && !c.cleaned)
    && (c.cleaned ==> c.stopping)
    && (v.pending.Some? <==> c.stage.Checked?)
    && match c.stage
       case Idle => AtRest(c, v) && (c.cleaned ==> v.live.None? && v.entry.None?)
       case Locked(_, _) => v.live.None? && v.entry.None?
       case Checked(peer, _) => v.live.None? && v.entry.None? && v.pending == Some(peer)
       case Registered(peer, _) => Watched(v, peer) && v.entry.None?
       case Refused(_) => v.entry.None?
       case Published(peer, _) => Watched(v, peer) && Enrolled(v, peer)
       case CleaningLive => AtRest(c, v) && c.cleaned
       case CleaningRegistry => v.live.None? && c.cleaned
  }

  ghost predicate Inv(s: State) {
    && LiveMonitor.Inv(s.monitor) && Unique(s.registry)
    && (forall x :: x in s.connections ==> x < s.nextId && Coherent(s.connections[x], ViewOf(s, x)))
    && (forall x :: x !in s.connections ==> ViewOf(s, x).live.None? && ViewOf(s, x).pending.None? && ViewOf(s, x).entry.None?)
  }

  // ---- Every step keeps the invariant ----

  /** Nothing but connection `x` and what mentions it changed. */
  ghost predicate OnlyChanges(s: State, s': State, x: SessionId) {
    && s'.nextId == s.nextId && s'.connections.Keys == s.connections.Keys
    && forall y :: y != x ==>
         ViewOf(s', y) == ViewOf(s, y) && (y in s.connections ==> s'.connections[y] == s.connections[y])
  }

  lemma LocalChangeKeepsInv(s: State, s': State, x: SessionId)
    requires Inv(s) && OnlyChanges(s, s', x) && x in s.connections
    requires LiveMonitor.Inv(s'.monitor) && Unique(s'.registry) && Coherent(s'.connections[x], ViewOf(s', x))
    ensures Inv(s')
  {
  }

  lemma BackgroundView(s: State, s': State, m: LiveMonitor.Step, x: SessionId)
    requires Next(s, s', Background(m))
    ensures ViewOf(s', x) == ViewOf(s, x) || ViewOf(s', x) == ViewOf(s, x).(live := None, callback := true)
  {
  }

  lemma BackgroundKeepsInv(s: State, s': State, step: Step)
    requires Inv(s) && Next(s, s', step) && step.Background?
    ensures Inv(s')
  {
    var m := step.step;
    LiveMonitor.StepKeepsInv(s.monitor, s'.monitor, m);
    forall x: SessionId
      ensures x in s'.connections ==> Coherent(s'.connections[x], ViewOf(s', x))
      ensures x !in s'.connections ==> ViewOf(s', x).live.None? && ViewOf(s', x).pending.None? && ViewOf(s', x).entry.None?
    {
      BackgroundView(s, s', m, x);
      if x in s.connections { assert Coherent(s.connections[x], ViewOf(s, x)); }
    }
  }

  /** A disconnect request settles whatever was due for the session. */
  lemma StoppedIsCoherent(c: Connection, v: View, v': View)
    requires Coherent(c, v) && !c.stage.InActivation()
    requires v' == v || v' == v.(callback := false) || v' == v.(displaced := false)
    ensures Coherent(c.(stopping := true), v')
    ensures c.expired ==> Coherent(c, v')
  {
  }

  lemma DisconnectKeepsInv(s: State, mid: State, s': State, x: SessionId)
    requires Inv(s) && LiveMonitor.Inv(mid.monitor) && Disconnects(mid, s', x)
    requires mid.connections == s.connections && mid.registry == s.registry && mid.nextId == s.nextId
    requires forall y :: y != x ==> ViewOf(mid, y) == ViewOf(s, y)
    requires var v, v' := ViewOf(s, x), ViewOf(mid, x); v' == v || v' == v.(callback := false) || v' == v.(displaced := false)
    ensures Inv(s')
  {
    assert forall y :: ViewOf(s', y) == ViewOf(mid, y);
    if x in s.connections {
      assert Coherent(s.connections[x], ViewOf(s, x));
      StoppedIsCoherent(s.connections[x], ViewOf(s, x), ViewOf(mid, x));
      LocalChangeKeepsInv(s, s', x);
    } else {
      forall y | y in s'.connections
        ensures y < s'.nextId && Coherent(s'.connections[y], ViewOf(s', y))
      {
        assert Coherent(s.connections[y], ViewOf(s, y));
      }
      assert forall y :: y !in s'.connections ==> ViewOf(s, y).live.None? && ViewOf(s, y).pending.None? && ViewOf(s, y).entry.None?;
    }
  }

  lemma RequestKeepsInv(s: State, s': State, step: Step)
    requires Inv(s) && Next(s, s', step) && (step.DisconnectReplaced? || step.RequestDisconnect?)
    ensures Inv(s')
  {
    var x := step.session;
    DisconnectKeepsInv(s, if step.DisconnectReplaced? then s.(replaced := s.replaced - {x}) else s, s', x);
  }

  lemma CallbackKeepsInv(s: State, s': State, step: Step)
    requires Inv(s) && Next(s, s', step) && step.RunCallback?
    ensures Inv(s')
  {
    LiveMonitor.StepKeepsInv(s.monitor, s'.monitor, LiveMonitor.Invoke);
    DisconnectKeepsInv(s, s.(monitor := s'.monitor), s', s.monitor.pc.session);
  }

  lemma OpenKeepsInv(s: State, s': State, step: Step)
    requires Inv(s) && Next(s, s', step) && step.Open?
    ensures Inv(s')
  {
    assert s.nextId !in s.connections;
    assert forall y :: ViewOf(s', y) == ViewOf(s, y);
    forall y | y in s'.connections
      ensures y < s'.nextId && Coherent(s'.connections[y], ViewOf(s', y))
    {
      if y != s.nextId { assert Coherent(s.connections[y], ViewOf(s, y)); }
    }
  }

  /** A change to the flags or the stage of one connection and to nothing else. */
  lemma FlagChangeKeepsInv(s: State, s': State, x: SessionId, c: Connection)
    requires Inv(s) && x in s.connections && s' == With(s, x, c) && Coherent(c, ViewOf(s, x))
    ensures Inv(s')
  {
    assert forall y :: ViewOf(s', y) == ViewOf(s, y);
    LocalChangeKeepsInv(s, s', x);
  }

  lemma ActivationFlagKeepsInv(s: State, s': State, step: Step)
    requires Inv(s) && Next(s, s', step) && (step.Lock? || step.FailCheck? || step.MakeReady?)
    ensures Inv(s')
  {
    var x := step.session;
    var c := s.connections[x];
    assert Coherent(c, ViewOf(s, x));
    FlagChangeKeepsInv(s, s', x, s'.connections[x]);
  }

  lemma EndingFlagKeepsInv(s: State, s': State, step: Step)
    requires Inv(s) && Next(s, s', step) && (step.Expire? || step.BeginCleanup?)
    ensures Inv(s')
  {
    var x := step.session;
    assert Coherent(s.connections[x], ViewOf(s, x));
    FlagChangeKeepsInv(s, s', x, s'.connections[x]);
  }

  /** A change to one connection and to what the monitor holds for it. */
  lemma TableChangeIsLocal(s: State, s': State, x: SessionId, m: LiveMonitor.Step)
    requires x in s.connections && LiveMonitor.Next(s.monitor, s'.monitor, m)
    requires m == LiveMonitor.InsertRegistration(x) || m == LiveMonitor.Unregister(x)
          || (m.CheckRegistration? && m.session == x)
    requires x in s'.connections && s' == With(s, x, s'.connections[x]).(monitor := s'.monitor)
    ensures OnlyChanges(s, s', x)
  {
  }

  lemma TableChangeKeepsInv(s: State, s': State, x: SessionId, m: LiveMonitor.Step)
    requires Inv(s) && x in s.connections && LiveMonitor.Next(s.monitor, s'.monitor, m)
    requires m == LiveMonitor.InsertRegistration(x) || m == LiveMonitor.Unregister(x)
          || (m.CheckRegistration? && m.session == x)
    requires x in s'.connections && s' == With(s, x, s'.connections[x]).(monitor := s'.monitor)
    requires Coherent(s'.connections[x], ViewOf(s', x))
    ensures Inv(s')
  {
    LiveMonitor.StepKeepsInv(s.monitor, s'.monitor, m);
    TableChangeIsLocal(s, s', x, m);
    LocalChangeKeepsInv(s, s', x);
  }

  lemma EnterTableKeepsInv(s: State, s': State, step: Step)
    requires Inv(s) && Next(s, s', step) && (step.Check? || step.Register?)
    ensures Inv(s')
  {
    var x := step.session;
    var c := s.connections[x];
    assert Coherent(c, ViewOf(s, x));
    if step.Check? {
      TableChangeKeepsInv(s, s', x, LiveMonitor.CheckRegistration(x, c.stage.peer));
    } else {
      TableChangeKeepsInv(s, s', x, LiveMonitor.InsertRegistration(x));
    }
  }

  lemma LeaveTableKeepsInv(s: State, s': State, step: Step)
    requires Inv(s) && Next(s, s', step) && (step.Withdraw? || step.CleanLive?)
    ensures Inv(s')
  {
    var x := step.session;
    assert Coherent(s.connections[x], ViewOf(s, x));
    TableChangeKeepsInv(s, s', x, LiveMonitor.Unregister(x));
  }

  lemma AcceptedPublishKeepsInv(s: State, s': State, x: SessionId)
    requires Inv(s) && Next(s, s', Publish(x, false)) && s'.connections[x].stage.Published?
    ensures Inv(s')
  {
    var c := s.connections[x];
    assert Coherent(c, ViewOf(s, x));
    var d := Candidate(x, c.stage.peer, c.stage.preferred);
    PublicationKeepsUnique(s.registry, d, Running(s));
    forall y: SessionId
      ensures y in s'.connections ==> y < s'.nextId && Coherent(s'.connections[y], ViewOf(s', y))
      ensures y !in s'.connections ==> ViewOf(s', y).live.None? && ViewOf(s', y).pending.None? && ViewOf(s', y).entry.None?
    {
      if y != x {
        PublicationKeepsOthers(s.registry, d, Running(s), y);
        DisplacedIsCoherent(s, s', y);
      }
    }
  }

  lemma PublishKeepsInv(s: State, s': State, step: Step)
    requires Inv(s) && Next(s, s', step) && step.Publish?
    ensures Inv(s')
  {
    var x := step.session;
    if s'.connections[x].stage.Published? {
      AcceptedPublishKeepsInv(s, s', x);
    } else {
      assert Coherent(s.connections[x], ViewOf(s, x));
      FlagChangeKeepsInv(s, s', x, s'.connections[x]);
    }
  }

  lemma DisplacedIsCoherent(s: State, s': State, y: SessionId)
    requires Inv(s) && s'.monitor == s.monitor && s'.nextId == s.nextId && s.replaced <= s'.replaced
    requires y in s'.connections <==> y in s.connections
    requires y in s.connections ==> s'.connections[y] == s.connections[y]
    requires Entry(s'.registry, y) == Entry(s.registry, y) || (Entry(s'.registry, y).None? && y in s'.replaced)
    ensures y in s'.connections ==> y < s'.nextId && Coherent(s'.connections[y], ViewOf(s', y))
    ensures y !in s'.connections ==> ViewOf(s', y).live.None? && ViewOf(s', y).pending.None? && ViewOf(s', y).entry.None?
  {
  }

  lemma CleanRegistryIsLocal(s: State, s': State, x: SessionId)
    requires Next(s, s', CleanRegistry(x)) && Unique(s.registry)
    ensures OnlyChanges(s, s', x) && ViewOf(s', x) == ViewOf(s, x).(entry := None)
  {
    forall y: SessionId
      ensures Entry(s'.registry, y) == if y == x then None else Entry(s.registry, y)
    {
      RemovalIsExact(s.registry, x, y);
    }
  }

  lemma CleanRegistryKeepsInv(s: State, s': State, step: Step)
    requires Inv(s) && Next(s, s', step) && step.CleanRegistry?
    ensures Inv(s')
  {
    var x := step.session;
    assert Coherent(s.connections[x], ViewOf(s, x));
    RemovalKeepsUnique(s.registry, x);
    CleanRegistryIsLocal(s, s', x);
    LocalChangeKeepsInv(s, s', x);
  }

  predicate ChangesTables(step: Step) {
    step.Check? || step.Register? || step.Withdraw? || step.CleanLive? || step.CleanRegistry? || step.Publish?
  }

  lemma TableStepKeepsInv(s: State, s': State, step: Step)
    requires Inv(s) && Next(s, s', step) && ChangesTables(step)
    ensures Inv(s')
  {
    if step.Publish? {
      PublishKeepsInv(s, s', step);
    } else if step.CleanRegistry? {
      CleanRegistryKeepsInv(s, s', step);
    } else if step.Check? || step.Register? {
      EnterTableKeepsInv(s, s', step);
    } else {
      LeaveTableKeepsInv(s, s', step);
    }
  }

  lemma FlagStepKeepsInv(s: State, s': State, step: Step)
    requires Inv(s) && Next(s, s', step) && !ChangesTables(step) && !step.Background? && !step.Open?
    ensures Inv(s')
  {
    if step.RunCallback? {
      CallbackKeepsInv(s, s', step);
    } else if step.DisconnectReplaced? || step.RequestDisconnect? {
      RequestKeepsInv(s, s', step);
    } else if step.Expire? || step.BeginCleanup? {
      EndingFlagKeepsInv(s, s', step);
    } else {
      ActivationFlagKeepsInv(s, s', step);
    }
  }

  lemma StepKeepsInv(s: State, s': State, step: Step)
    requires Inv(s) && Next(s, s', step)
    ensures Inv(s')
  {
    if ChangesTables(step) {
      TableStepKeepsInv(s, s', step);
    } else if step.Background? {
      BackgroundKeepsInv(s, s', step);
    } else if step.Open? {
      OpenKeepsInv(s, s', step);
    } else {
      FlagStepKeepsInv(s, s', step);
    }
  }

  // ---- Whole runs ----

  ghost predicate IsRun(states: seq<State>, steps: seq<Step>) {
    && |states| == |steps| + 1 && Init(states[0])
    && forall i :: 0 <= i < |steps| ==> StepAt(states, steps, i)
  }

  ghost predicate StepAt(states: seq<State>, steps: seq<Step>, i: nat)
    requires i < |steps| && |states| == |steps| + 1
  {
    Next(states[i], states[i + 1], steps[i])
  }

  lemma InitIsCoherent(s: State)
    requires Init(s)
    ensures Inv(s)
  {
  }

  lemma {:induction false} ReachableInv(states: seq<State>, steps: seq<Step>, i: nat)
    requires IsRun(states, steps) && i <= |steps|
    ensures Inv(states[i])
  {
    if i == 0 {
      InitIsCoherent(states[0]);
    } else {
      ReachableInv(states, steps, i - 1);
      assert StepAt(states, steps, i - 1);
      StepKeepsInv(states[i - 1], states[i], steps[i - 1]);
    }
  }

  /** In every reachable state a usable connection is in the live table under exactly the
      authorization it was activated with, or its callback is due; and it owns the registry
      entry of its peer, or its disconnect for being displaced is due. No two entries share
      a device or a session. */
  lemma TablesAgreeWithSessions(states: seq<State>, steps: seq<Step>, i: nat, x: SessionId)
    requires IsRun(states, steps) && i <= |steps|
    requires x in states[i].connections && states[i].connections[x].Usable()
    ensures var s, c := states[i], states[i].connections[x];
            && c.peer.Some?
            && ((x in s.monitor.live && s.monitor.live[x] == c.peer.value) || (s.monitor.pc.Invoking? && s.monitor.pc.session == x))
            && ((exists k :: 0 <= k < |s.registry| && s.registry[k].sessionId == x && s.registry[k].deviceId == DeviceIdOf(c.peer.value))
                || x in s.replaced)
    ensures Unique(states[i].registry)
  {
    ReachableInv(states, steps, i);
    assert Coherent(states[i].connections[x], ViewOf(states[i], x));
  }

  /** Whenever the monitor has caught up with the store, every usable connection holds an
      authorization that the store still grants. */
  lemma SettledSessionsAreAuthorized(states: seq<State>, steps: seq<Step>, i: nat, x: SessionId)
    requires IsRun(states, steps) && i <= |steps| && LiveMonitor.Settled(states[i].monitor)
    requires x in states[i].connections && states[i].connections[x].Usable()
    ensures states[i].connections[x].peer.Some? && Current(states[i].monitor.store.db, states[i].connections[x].peer.value)
  {
    TablesAgreeWithSessions(states, steps, i, x);
    ReachableInv(states, steps, i);
    LiveMonitor.SettledMeansCurrent(states[i].monitor);
  }

  lemma OnlyCommitsChangeStore(s: State, s': State, step: Step)
    requires Next(s, s', step)
    ensures if step.Background? && step.step.CommitOp?
            then Effect(step.step.commit.op, s.monitor.store.db) == Some(s'.monitor.store.db)
            else s'.monitor.store == s.monitor.store
  {
  }

  /** A session that became ready stays so, with the peer it was activated for. */
  lemma ReadyStays(s: State, s': State, step: Step, x: SessionId)
    requires Next(s, s', step) && x in s.connections && x < s.nextId
    requires s.connections[x].ready && !s.connections[x].stage.InActivation()
    ensures x in s'.connections && s'.connections[x].ready && s'.connections[x].peer == s.connections[x].peer
  {
  }

  lemma ReadyIsActivated(s: State, x: SessionId)
    requires Inv(s) && x in s.connections && s.connections[x].ready
    ensures x < s.nextId && !s.connections[x].stage.InActivation()
  {
    assert Coherent(s.connections[x], ViewOf(s, x));
  }

  predicate Finalized(c: Connection) {
    c.cleaned && c.stage.Idle?
  }

  lemma FinalizedStays(s: State, s': State, step: Step, x: SessionId)
    requires Inv(s) && Next(s, s', step) && x in s.connections && Finalized(s.connections[x])
    ensures x in s'.connections && Finalized(s'.connections[x])
  {
    assert Coherent(s.connections[x], ViewOf(s, x));
  }

  lemma {:induction false} FinalizedForGood(states: seq<State>, steps: seq<Step>, i: nat, j: nat, x: SessionId)
    requires IsRun(states, steps) && i <= j <= |steps|
    requires x in states[i].connections && Finalized(states[i].connections[x])
    ensures x in states[j].connections && Finalized(states[j].connections[x])
  {
    if i < j {
      FinalizedForGood(states, steps, i, j - 1, x);
      ReachableInv(states, steps, j - 1);
      assert StepAt(states, steps, j - 1);
      FinalizedStays(states[j - 1], states[j], steps[j - 1], x);
    }
  }

  lemma FinalizedIsNowhere(s: State, x: SessionId)
    requires Inv(s) && x in s.connections && Finalized(s.connections[x])
    ensures x !in s.monitor.live && Entry(s.registry, x).None?
  {
  }

  /** A session that was finalized is in neither table, and never comes back. */
  lemma FinalizedNeverReturns(states: seq<State>, steps: seq<Step>, i: nat, j: nat, x: SessionId)
    requires IsRun(states, steps) && i <= j <= |steps|
    requires x in states[i].connections && Finalized(states[i].connections[x])
    ensures x !in states[j].monitor.live && Entry(states[j].registry, x).None?
  {
    FinalizedForGood(states, steps, i, j, x);
    ReachableInv(states, steps, j);
    FinalizedIsNowhere(states[j], x);
  }

  /** A running preferred owner keeps its entry through every step that leaves it running. */
  lemma PreferredOwnerIsNeverDisplaced(s: State, s': State, step: Step, x: SessionId)
    requires Inv(s) && Next(s, s', step)
    requires x in s.connections && s.connections[x].Running()
    requires Entry(s.registry, x).Some? && Entry(s.registry, x).value.preferred
    ensures Entry(s'.registry, x) == Entry(s.registry, x)
  {
    assert Coherent(s.connections[x], ViewOf(s, x));
    var k :| 0 <= k < |s.registry| && s.registry[k] == Entry(s.registry, x).value;
    match step
    case Publish(y, throws) =>
      var c := s.connections[y];
      assert Coherent(c, ViewOf(s, y));
      var d := Candidate(y, c.stage.peer, c.stage.preferred);
      if !throws && Publication(s.registry, d, Running(s)).Accepted? {
        PreferredOwnerStays(s.registry, d, Running(s), k);
        PublicationKeepsUnique(s.registry, d, Running(s));
        EntryAt(s'.registry, k);
      }
    case CleanRegistry(y) => RemovalIsExact(s.registry, y, x);
    case _ =>
  }
}
