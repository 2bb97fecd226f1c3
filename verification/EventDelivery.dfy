/** Events over whole runs: the receive threads of all sessions, the event queue and its
    consumers, interleaved with every step of the session system and so with every commit to
    the trust store. */
module EventDelivery {
  import opened Bytes
  import opened TrustTables
  import opened TrustHistory
  import opened Registry
  import opened Events
  import LiveMonitor
  import Sessions

  /** How far a session's receive thread is with the record at hand. */
  datatype Reception =
    | Resting
    | Arrived(size: nat, record: Option<Incoming>)
    | Timely(size: nat, record: Option<Incoming>)
    | Sized(size: nat, record: Option<Incoming>)
    | Checking(packet: Incoming)
    | Approved(packet: Incoming)
    | Ending
    | Ended
  {
    /** The record being handled, if any. */
    function Handled(): (r: Option<Incoming>) {
      match this
      case Arrived(_, record) => record
      case Timely(_, record) => record
      case Sized(_, record) => record
      case Checking(packet) => Some(packet)
      case Approved(packet) => Some(packet)
      case _ => None
    }
  }

  /** `greeted` holds the sessions whose setup hello was accepted. */
  datatype State = State(
    system: Sessions.State,
    reception: map<SessionId, Reception>,
    greeted: set<SessionId>,
    events: seq<Event>)

  function At(s: State, x: SessionId): (r: Reception) {
    if x in s.reception then s.reception[x] else Resting
  }

  function Moved(s: State, x: SessionId, r: Reception): (s': State) {
    s.(reception := s.reception[x := r])
  }

  function Stored(s: State): (db: Database) {
    s.system.monitor.store.db
  }

  predicate IsReady(s: State, x: SessionId) {
    x in s.system.connections && s.system.connections[x].ready
  }

  function PeerOf(s: State, x: SessionId): (peer: Option<Snapshot>) {
    if x in s.system.connections then s.system.connections[x].peer else None
  }

  // ---- Steps ----

  datatype Step =
    | System(step: Sessions.Step)
    | Arrive(session: SessionId, size: nat, record: Option<Incoming>)
    | CheckDeadline(session: SessionId, late: bool)
    | CheckSetupSize(session: SessionId)
    | Examine(session: SessionId)
    | CheckAuthorization(session: SessionId, failed: bool)
    | Dispatch(session: SessionId)
    | EndReception(session: SessionId)
    | Consume

  function AfterExamine(s: State, x: SessionId, size: nat, record: Option<Incoming>): (s': State) {
    match Classify(IsReady(s, x), x in s.greeted, size, record, PeerOf(s, x).Some?)
    case Refuse => Moved(s, x, Ending)
    case Greet => Moved(s, x, Resting).(greeted := s.greeted + {x})
    case Check => Moved(s, x, Checking(record.value))
    case Admit => Moved(s, x, Approved(record.value))
  }

  ghost predicate Next(s: State, s': State, step: Step) {
    match step
    case System(m) => Sessions.Next(s.system, s'.system, m) && s' == s.(system := s'.system)
    case Arrive(x, size, record) =>
      && x in s.system.connections && At(s, x).Resting?
      && s' == Moved(s, x, if s.system.connections[x].stopping then Ended else Arrived(size, record))
    case CheckDeadline(x, late) =>
      && At(s, x).Arrived? && var r := At(s, x);
      s' == Moved(s, x, if TooLate(IsReady(s, x), late) then Ending else Timely(r.size, r.record))
    case CheckSetupSize(x) =>
      && At(s, x).Timely? && var r := At(s, x);
      s' == Moved(s, x, if OversizedSetup(IsReady(s, x), x in s.greeted, r.size) then Ending else Sized(r.size, r.record))
    case Examine(x) => At(s, x).Sized? && s' == AfterExamine(s, x, At(s, x).size, At(s, x).record)
    case CheckAuthorization(x, failed) =>
      && At(s, x).Checking? && PeerOf(s, x).Some?
      && s' == Moved(s, x, if !failed && Current(Stored(s), PeerOf(s, x).value) then Approved(At(s, x).packet) else Ending)
    case Dispatch(x) =>
      && At(s, x).Approved? && var packet := At(s, x).packet;
      s' == Moved(s, x, if RouteAction(packet, PeerOf(s, x).Some?) == Continue then Resting else Ending)
            .(events := Last(s.events + Emission(packet, PeerOf(s, x)), MAX_STORED_EVENTS))
    case EndReception(x) =>
      && At(s, x).Ending? && Sessions.Next(s.system, s'.system, Sessions.RequestDisconnect(x))
      && s' == Moved(s, x, Ended).(system := s'.system)
    case Consume => s' == s.(events := [])
  }

  ghost predicate Init(s: State) {
    Sessions.Init(s.system) && s.reception == map[] && s.greeted == {} && s.events == []
  }

  ghost predicate IsRun(states: seq<State>, steps: seq<Step>) {
    && |states| == |steps| + 1 && Init(states[0])
    && forall i :: 0 <= i < |steps| ==> StepAt(states, steps, i)
  }

  ghost predicate StepAt(states: seq<State>, steps: seq<Step>, i: nat)
    requires i < |steps| && |states| == |steps| + 1
  {
    Next(states[i], states[i + 1], steps[i])
  }

  // ---- Ready sessions keep their peer ----

  /** A packet past the setup checks belongs to a ready session. */
  ghost predicate Inv(s: State) {
    && Sessions.Inv(s.system)
    && forall x :: At(s, x).Checking? || At(s, x).Approved? ==> IsReady(s, x) && PeerOf(s, x).Some?
  }

  lemma ReadyKeepsPeer(s: State, s': State, step: Step, x: SessionId)
    requires Sessions.Inv(s.system) && Next(s, s', step) && IsReady(s, x)
    ensures IsReady(s', x) && PeerOf(s', x) == PeerOf(s, x)
  {
    Sessions.ReadyIsActivated(s.system, x);
    match step
    case System(m) => Sessions.ReadyStays(s.system, s'.system, m, x);
    case EndReception(y) => Sessions.ReadyStays(s.system, s'.system, Sessions.RequestDisconnect(y), x);
    case _ =>
  }

  lemma SystemKeepsInv(s: State, s': State, step: Step)
    requires Sessions.Inv(s.system) && Next(s, s', step)
    ensures Sessions.Inv(s'.system)
  {
    match step
    case System(m) => Sessions.StepKeepsInv(s.system, s'.system, m);
    case EndReception(x) => Sessions.StepKeepsInv(s.system, s'.system, Sessions.RequestDisconnect(x));
    case _ =>
  }

  /** Only a session's own receive thread moves its reception. */
  lemma OthersRest(s: State, s': State, step: Step, x: SessionId)
    requires Next(s, s', step) && (step.System? || step.Consume? || step.session != x)
    ensures At(s', x) == At(s, x)
  {
  }

  lemma StepKeepsInv(s: State, s': State, step: Step)
    requires Inv(s) && Next(s, s', step)
    ensures Inv(s')
  {
    SystemKeepsInv(s, s', step);
    forall x | At(s', x).Checking? || At(s', x).Approved?
      ensures IsReady(s', x) && PeerOf(s', x).Some?
    {
      if step.System? || step.Consume? || step.session != x { OthersRest(s, s', step, x); }
      assert IsReady(s, x) && PeerOf(s, x).Some?;
      ReadyKeepsPeer(s, s', step, x);
    }
  }

  lemma InitIsSafe(s: State)
    requires Init(s)
    ensures Inv(s)
  {
    Sessions.InitIsCoherent(s.system);
  }

  lemma {:induction false} ReachableInv(states: seq<State>, steps: seq<Step>, i: nat)
    requires IsRun(states, steps) && i <= |steps|
    ensures Inv(states[i])
  {
    if i == 0 {
      InitIsSafe(states[0]);
    } else {
      ReachableInv(states, steps, i - 1);
      assert StepAt(states, steps, i - 1);
      StepKeepsInv(states[i - 1], states[i], steps[i - 1]);
    }
  }

  // ---- Where a packet at the router came from ----

  /** Session `x` is ready and its authorization is the one the store grants now. */
  ghost predicate Authorized(s: State, x: SessionId) {
    IsReady(s, x) && PeerOf(s, x).Some? && Current(Stored(s), PeerOf(s, x).value)
  }

  /** From step `a` to state `j` session `x` is busy with the one record that arrived at `a`,
      when the session was not stopping. */
  ghost predicate HandledSince(states: seq<State>, steps: seq<Step>, a: nat, j: nat, x: SessionId)
    requires |states| == |steps| + 1 && a < j <= |steps|
  {
    && steps[a].Arrive? && steps[a].session == x && steps[a].record == At(states[j], x).Handled()
    && x in states[a].system.connections && !states[a].system.connections[x].stopping
    && forall k :: a < k <= j ==> At(states[k], x).Handled() == steps[a].record && !At(states[k], x).Resting?
  }

  predicate Busy(r: Reception) {
    r.Arrived? || r.Timely? || r.Sized? || r.Checking? || r.Approved?
  }

  /** A record is handed on by its own thread, from its arrival on. */
  ghost predicate HandsOn(s: State, s': State, step: Step, x: SessionId) {
    || (Busy(At(s, x)) && At(s, x).Handled() == At(s', x).Handled())
    || (&& step.Arrive? && step.session == x && step.record == At(s', x).Handled()
        && x in s.system.connections && !s.system.connections[x].stopping)
  }

  lemma BusyIsHandedOn(s: State, s': State, step: Step, x: SessionId)
    requires Next(s, s', step) && Busy(At(s', x))
    ensures HandsOn(s, s', step, x)
  {
    if step.System? || step.Consume? || step.session != x { OthersRest(s, s', step, x); }
  }

  lemma RecordStep(states: seq<State>, steps: seq<Step>, j: nat, x: SessionId)
    requires IsRun(states, steps) && j < |steps| && Busy(At(states[j + 1], x))
    ensures HandsOn(states[j], states[j + 1], steps[j], x)
  {
    assert StepAt(states, steps, j);
    BusyIsHandedOn(states[j], states[j + 1], steps[j], x);
  }

  lemma {:induction false} RecordArrived(states: seq<State>, steps: seq<Step>, j: nat, x: SessionId) returns (a: nat)
    requires IsRun(states, steps) && j <= |steps| && Busy(At(states[j], x))
    ensures a < j && HandledSince(states, steps, a, j, x)
  {
    assert At(states[0], x).Resting?;
    RecordStep(states, steps, j - 1, x);
    if Busy(At(states[j - 1], x)) && At(states[j - 1], x).Handled() == At(states[j], x).Handled() {
      a := RecordArrived(states, steps, j - 1, x);
    } else {
      a := j - 1;
    }
  }

  /** At step `i` the store was asked about session `x`, which was ready, and granted its
      authorization; up to state `j` the packet then waited to be routed. */
  ghost predicate ApprovedSince(states: seq<State>, steps: seq<Step>, i: nat, j: nat, x: SessionId)
    requires |states| == |steps| + 1 && i < j <= |steps|
  {
    && steps[i] == CheckAuthorization(x, false) && Authorized(states[i], x)
    && PeerOf(states[j], x) == PeerOf(states[i], x)
    && At(states[j], x).Approved? && forall k :: i < k <= j ==> At(states[k], x) == At(states[j], x)
  }

  lemma ApprovalStep(states: seq<State>, steps: seq<Step>, j: nat, x: SessionId)
    requires IsRun(states, steps) && j < |steps|
    requires At(states[j + 1], x).Approved? && At(states[j + 1], x).packet.HasText()
    ensures IsReady(states[j], x) && PeerOf(states[j + 1], x) == PeerOf(states[j], x)
    ensures At(states[j], x) == At(states[j + 1], x)
         || (steps[j] == CheckAuthorization(x, false) && Authorized(states[j], x) && At(states[j], x).Checking?)
  {
    assert StepAt(states, steps, j);
    ReachableInv(states, steps, j);
    var step := steps[j];
    if step.System? || step.Consume? || step.session != x { OthersRest(states[j], states[j + 1], step, x); }
    assert At(states[j], x).Checking? || At(states[j], x).Approved?;
    ReadyKeepsPeer(states[j], states[j + 1], step, x);
  }

  lemma {:induction false} ApprovalWasChecked(states: seq<State>, steps: seq<Step>, j: nat, x: SessionId) returns (i: nat)
    requires IsRun(states, steps) && j <= |steps|
    requires At(states[j], x).Approved? && At(states[j], x).packet.HasText()
    ensures i < j && ApprovedSince(states, steps, i, j, x) && At(states[i], x).Checking?
  {
    assert At(states[0], x).Resting?;
    ApprovalStep(states, steps, j - 1, x);
    if At(states[j - 1], x) == At(states[j], x) {
      i := ApprovalWasChecked(states, steps, j - 1, x);
    } else {
      i := j - 1;
    }
  }

  // ---- Provenance of every event ----

  ghost predicate Emits(s: State, step: Step) {
    step.Dispatch? && At(s, step.session).Approved? && Emission(At(s, step.session).packet, PeerOf(s, step.session)) != []
  }

  ghost function EventOf(s: State, step: Step): (e: Event)
    requires Emits(s, step)
  {
    Emission(At(s, step.session).packet, PeerOf(s, step.session))[0]
  }

  /** The event queued at `j` is the text of the record that arrived at `a`, under the id of
      the peer for which the store vouched at `i`. */
  ghost predicate Vouched(states: seq<State>, steps: seq<Step>, a: nat, i: nat, j: nat)
    requires |states| == |steps| + 1 && a < i < j < |steps|
  {
    && Emits(states[j], steps[j]) && var x := steps[j].session;
    && HandledSince(states, steps, a, j, x) && ApprovedSince(states, steps, i, j, x)
    && steps[a].record.Some? && steps[a].record.value.HasText()
    && EventOf(states[j], steps[j]) == Event(DeviceIdOf(PeerOf(states[i], x).value), steps[a].record.value.field.text)
  }

  lemma RestedBeforeArrival(states: seq<State>, steps: seq<Step>, a: nat)
    requires IsRun(states, steps) && a < |steps| && steps[a].Arrive?
    ensures At(states[a], steps[a].session).Resting?
  {
    assert StepAt(states, steps, a);
  }

  lemma EveryEmissionIsVouched(states: seq<State>, steps: seq<Step>, j: nat) returns (a: nat, i: nat)
    requires IsRun(states, steps) && j < |steps| && Emits(states[j], steps[j])
    ensures a < i < j && Vouched(states, steps, a, i, j)
  {
    var x := steps[j].session;
    a := RecordArrived(states, steps, j, x);
    i := ApprovalWasChecked(states, steps, j, x);
    RestedBeforeArrival(states, steps, a);
  }

  /** One record and one answer of the store stand behind at most one event. */
  lemma EventsHaveTheirOwnOrigins(states: seq<State>, steps: seq<Step>, a: nat, i: nat, j: nat, a': nat, i': nat, j': nat)
    requires IsRun(states, steps) && a < i < j < j' < |steps| && a' < i' < j'
    requires Vouched(states, steps, a, i, j) && Vouched(states, steps, a', i', j')
    ensures a != a' && i != i'
  {
    assert StepAt(states, steps, j);
  }

  // ---- What a consumer receives ----

  ghost function OpOf(s: State, step: Step): (op: BusOp) {
    if Emits(s, step) then Put(EventOf(s, step)) else if step.Consume? then Drain else Skip
  }

  /** The run as the event bus sees it. */
  ghost function BusOps(states: seq<State>, steps: seq<Step>): (ops: seq<BusOp>)
    requires |states| == |steps| + 1
    ensures |ops| == |steps|
  {
    seq(|steps|, k requires 0 <= k < |steps| => OpOf(states[k], steps[k]))
  }

  lemma QueueStep(s: State, s': State, step: Step)
    requires Next(s, s', step) && |s.events| <= MAX_STORED_EVENTS
    ensures s'.events == match OpOf(s, step)
                         case Put(event) => Last(s.events + [event], MAX_STORED_EVENTS)
                         case Drain => []
                         case Skip => s.events
  {
  }

  lemma {:induction false} RunFollowsQueue(states: seq<State>, steps: seq<Step>, k: nat)
    requires IsRun(states, steps) && k <= |steps|
    ensures states[k].events == QueueAfter(BusOps(states, steps), k) && |states[k].events| <= MAX_STORED_EVENTS
  {
    if k > 0 {
      RunFollowsQueue(states, steps, k - 1);
      assert StepAt(states, steps, k - 1);
      QueueStep(states[k - 1], states[k], steps[k - 1]);
    }
  }

  /** At every moment of every run the queue is the last 256 of the events emitted since it
      was last consumed, in the order of their emission. */
  lemma QueueHoldsLastEmissions(states: seq<State>, steps: seq<Step>, k: nat)
    requires IsRun(states, steps) && k <= |steps|
    ensures var ops := BusOps(states, steps);
            states[k].events == Last(EventsAt(ops, Puts(ops, k)), MAX_STORED_EVENTS)
  {
    RunFollowsQueue(states, steps, k);
    QueueIsLastPuts(BusOps(states, steps), k);
  }

  lemma QueuedAt(states: seq<State>, steps: seq<Step>, k: nat, n: nat) returns (j: nat)
    requires IsRun(states, steps) && k <= |steps| && n < |states[k].events|
    ensures j < k && OpOf(states[j], steps[j]) == Put(states[k].events[n]) && Undrained(BusOps(states, steps), j, k)
  {
    RunFollowsQueue(states, steps, k);
    j := QueuedBy(BusOps(states, steps), k, n);
  }

  /** Every event a consumer receives was queued since the previous consumption, from a record
      that arrived on a running session, after the store had granted the authorization of
      that ready session; it carries that peer's id and that record's text. */
  lemma EveryConsumedEventHasAnOrigin(states: seq<State>, steps: seq<Step>, k: nat, n: nat) returns (a: nat, i: nat, j: nat)
    requires IsRun(states, steps) && k < |steps| && steps[k].Consume? && n < |states[k].events|
    ensures a < i < j < k && Vouched(states, steps, a, i, j) && EventOf(states[j], steps[j]) == states[k].events[n]
    ensures forall c :: j < c < k ==> !steps[c].Consume?
  {
    j := QueuedAt(states, steps, k, n);
    a, i := EveryEmissionIsVouched(states, steps, j);
    forall c | j < c < k
      ensures !steps[c].Consume?
    {
      assert BusOps(states, steps)[c] == OpOf(states[c], steps[c]);
    }
  }

  // ---- The window between the store's answer and the queue ----

  /** The step commits a change to the trust record of device `u`. */
  predicate Touches(step: Step, u: Uuid) {
    step.System? && step.step.Background? && step.step.step.CommitOp? && Rewrites(step.step.step.commit.op) == Some(u)
  }

  lemma StepKeepsStore(s: State, s': State, step: Step)
    requires Next(s, s', step)
    ensures if step.System? && step.step.Background? && step.step.step.CommitOp?
            then Effect(step.step.step.commit.op, Stored(s)) == Some(Stored(s'))
            else Stored(s') == Stored(s)
  {
    match step
    case System(m) => Sessions.OnlyCommitsChangeStore(s.system, s'.system, m);
    case EndReception(x) => Sessions.OnlyCommitsChangeStore(s.system, s'.system, Sessions.RequestDisconnect(x));
    case _ =>
  }

  lemma TouchedIsStale(op: Op, db: Database, p: Snapshot)
    requires Effect(op, db).Some? && LiveMonitor.WasCurrent(db, p)
    ensures Current(Effect(op, db).value, p) <==> Current(db, p) && Rewrites(op) != Some(p.uuid)
  {
    LiveMonitor.CommitKeepsPast(op, db, p);
    CommitAdvancesDevice(op, db, p.uuid);
  }

  lemma TrustStep(states: seq<State>, steps: seq<Step>, j: nat, p: Snapshot)
    requires IsRun(states, steps) && j < |steps| && LiveMonitor.WasCurrent(Stored(states[j]), p)
    ensures LiveMonitor.WasCurrent(Stored(states[j + 1]), p)
    ensures Current(Stored(states[j + 1]), p) <==> Current(Stored(states[j]), p) && !Touches(steps[j], p.uuid)
  {
    assert StepAt(states, steps, j);
    var step := steps[j];
    StepKeepsStore(states[j], states[j + 1], step);
    if step.System? && step.step.Background? && step.step.step.CommitOp? {
      TouchedIsStale(step.step.step.commit.op, Stored(states[j]), p);
      LiveMonitor.CommitKeepsPast(step.step.step.commit.op, Stored(states[j]), p);
    }
  }

  lemma {:induction false} PastSince(states: seq<State>, steps: seq<Step>, i: nat, j: nat, p: Snapshot)
    requires IsRun(states, steps) && i <= j <= |steps| && LiveMonitor.WasCurrent(Stored(states[i]), p)
    ensures LiveMonitor.WasCurrent(Stored(states[j]), p)
  {
    if i < j {
      PastSince(states, steps, i, j - 1, p);
      TrustStep(states, steps, j - 1, p);
    }
  }

  ghost predicate Untouched(steps: seq<Step>, i: nat, j: nat, u: Uuid)
    requires j <= |steps|
  {
    forall k :: i <= k < j ==> !Touches(steps[k], u)
  }

  /** What each stop ends for good holds until the first stop. */
  lemma {:induction false} HoldsUntilStopped(holds: seq<bool>, stops: seq<bool>, i: nat, j: nat)
    requires |holds| == |stops| + 1 && i <= j <= |stops| && holds[i]
    requires forall k :: i <= k < j ==> (holds[k + 1] <==> holds[k] && !stops[k])
    ensures holds[j] <==> forall k :: i <= k < j ==> !stops[k]
  {
    if i < j { HoldsUntilStopped(holds, stops, i, j - 1); }
  }

  ghost function Grants(states: seq<State>, p: Snapshot): (holds: seq<bool>)
    ensures |holds| == |states|
  {
    seq(|states|, k requires 0 <= k < |states| => Current(Stored(states[k]), p))
  }

  function Touchings(steps: seq<Step>, u: Uuid): (stops: seq<bool>)
    ensures |stops| == |steps|
  {
    seq(|steps|, k requires 0 <= k < |steps| => Touches(steps[k], u))
  }

  lemma GrantStep(states: seq<State>, steps: seq<Step>, i: nat, k: nat, p: Snapshot)
    requires IsRun(states, steps) && i <= k < |steps| && Current(Stored(states[i]), p)
    ensures Grants(states, p)[k + 1] <==> Grants(states, p)[k] && !Touchings(steps, p.uuid)[k]
  {
    PastSince(states, steps, i, k, p);
    TrustStep(states, steps, k, p);
  }

  lemma UntouchedMeansNoStop(steps: seq<Step>, i: nat, j: nat, u: Uuid)
    requires i <= j <= |steps|
    ensures Untouched(steps, i, j, u) <==> forall k :: i <= k < j ==> !Touchings(steps, u)[k]
  {
    assert forall k :: i <= k < j ==> Touchings(steps, u)[k] == Touches(steps[k], u);
  }

  lemma TrustSince(states: seq<State>, steps: seq<Step>, i: nat, j: nat, p: Snapshot)
    requires IsRun(states, steps) && i <= j <= |steps| && Current(Stored(states[i]), p)
    ensures Current(Stored(states[j]), p) <==> Untouched(steps, i, j, p.uuid)
  {
    var holds, stops := Grants(states, p), Touchings(steps, p.uuid);
    forall k | i <= k < j
      ensures holds[k + 1] <==> holds[k] && !stops[k]
    {
      GrantStep(states, steps, i, k, p);
    }
    HoldsUntilStopped(holds, stops, i, j);
    UntouchedMeansNoStop(steps, i, j, p.uuid);
  }

  /** The store still grants the peer's authorization when its event is queued exactly when
      no commit between the store's answer and the queueing touched the peer's record. */
  lemma AuthorizedWhenQueuedIff(states: seq<State>, steps: seq<Step>, a: nat, i: nat, j: nat)
    requires IsRun(states, steps) && a < i < j < |steps| && Vouched(states, steps, a, i, j)
    ensures Authorized(states[j], steps[j].session) <==> Untouched(steps, i, j, PeerOf(states[i], steps[j].session).value.uuid)
  {
    var x := steps[j].session;
    TrustSince(states, steps, i, j, PeerOf(states[i], x).value);
    ReachableInv(states, steps, j);
  }

  // ---- A run in which the window matters ----

  lemma Take(states: seq<State>, steps: seq<Step>, step: Step, next: State) returns (states': seq<State>, steps': seq<Step>)
    requires IsRun(states, steps) && Next(states[|steps|], next, step)
    ensures IsRun(states', steps') && |steps'| == |steps| + 1 && steps'[|steps|] == step
    ensures states'[0] == states[0] && states'[|steps|] == states[|steps|] && states'[|steps'|] == next
  {
    states', steps' := states + [next], steps + [step];
    forall i | 0 <= i < |steps'|
      ensures StepAt(states', steps', i)
    {
      if i < |steps| { assert StepAt(states, steps, i); }
    }
  }

  lemma TakeSystem(states: seq<State>, steps: seq<Step>, m: Sessions.Step, system: Sessions.State)
    returns (states': seq<State>, steps': seq<Step>)
    requires IsRun(states, steps) && Sessions.Next(states[|steps|].system, system, m)
    ensures IsRun(states', steps') && |steps'| == |steps| + 1
    ensures states'[0] == states[0] && states'[|steps'|] == states[|steps|].(system := system)
  {
    states', steps' := Take(states, steps, System(m), states[|steps|].(system := system));
  }

  /** The first session of the process, at the given stage of its activation. */
  function Activating(s0: Sessions.State, stage: Sessions.Stage): (s: Sessions.State) {
    var x := s0.nextId;
    s0.(connections := map[x := Sessions.FRESH.(stage := stage)], nextId := x + 1)
  }

  lemma SessionLocks(s0: State, peer: Snapshot) returns (states: seq<State>, steps: seq<Step>)
    requires Init(s0)
    ensures IsRun(states, steps) && states[0] == s0
    ensures states[|steps|] == s0.(system := Activating(s0.system, Sessions.Locked(peer, true)))
  {
    var x := s0.system.nextId;
    states, steps := [s0], [];
    states, steps := TakeSystem(states, steps, Sessions.Open, Activating(s0.system, Sessions.Idle));
    states, steps := TakeSystem(states, steps, Sessions.Lock(x, peer, true), Activating(s0.system, Sessions.Locked(peer, true)));
  }

  function Watching(s0: Sessions.State, peer: Snapshot): (m: LiveMonitor.State) {
    s0.monitor.(live := map[s0.nextId := peer], forceScan := true)
  }

  lemma SessionIsChecked(s0: State, peer: Snapshot) returns (states: seq<State>, steps: seq<Step>)
    requires Init(s0) && Current(Stored(s0), peer)
    ensures IsRun(states, steps) && states[0] == s0
    ensures var m := s0.system.monitor.(pending := map[s0.system.nextId := peer]);
            states[|steps|] == s0.(system := Activating(s0.system, Sessions.Checked(peer, true)).(monitor := m))
  {
    var x, m := s0.system.nextId, s0.system.monitor;
    states, steps := SessionLocks(s0, peer);
    var s := Activating(s0.system, Sessions.Checked(peer, true)).(monitor := m.(pending := map[x := peer]));
    states, steps := TakeSystem(states, steps, Sessions.Check(x), s);
  }

  lemma SessionRegisters(s0: State, peer: Snapshot) returns (states: seq<State>, steps: seq<Step>)
    requires Init(s0) && Current(Stored(s0), peer)
    ensures IsRun(states, steps) && states[0] == s0
    ensures states[|steps|] == s0.(system := Activating(s0.system, Sessions.Registered(peer, true)).(monitor := Watching(s0.system, peer)))
  {
    var x := s0.system.nextId;
    states, steps := SessionIsChecked(s0, peer);
    assert map[x := peer] - {x} == map[];
    var s := Activating(s0.system, Sessions.Registered(peer, true)).(monitor := Watching(s0.system, peer));
    states, steps := TakeSystem(states, steps, Sessions.Register(x), s);
  }

  lemma FirstPublication(states: seq<State>, steps: seq<Step>, x: SessionId, peer: Snapshot)
    returns (states': seq<State>, steps': seq<Step>)
    requires IsRun(states, steps) && var s := states[|steps|].system;
             s.registry == [] && x in s.connections && s.connections[x].stage == Sessions.Registered(peer, true)
    ensures IsRun(states', steps') && states'[0] == states[0]
    ensures var s := states[|steps|].system;
            var c := s.connections[x].(stage := Sessions.Published(peer, true));
            states'[|steps'|] == states[|steps|].(system := Sessions.With(s, x, c)
                                   .(registry := [Sessions.Candidate(x, peer, true).(state := Ready)]))
  {
    var s := states[|steps|].system;
    var d := Sessions.Candidate(x, peer, true);
    assert Publication(s.registry, d, Sessions.Running(s)) == Accepted([d.(state := Ready)], None);
    assert s.replaced + {} == s.replaced;
    var c := s.connections[x].(stage := Sessions.Published(peer, true));
    states', steps' := TakeSystem(states, steps, Sessions.Publish(x, false),
                                  Sessions.With(s, x, c).(registry := [d.(state := Ready)]));
  }

  lemma SessionPublishes(s0: State, peer: Snapshot) returns (states: seq<State>, steps: seq<Step>)
    requires Init(s0) && Current(Stored(s0), peer)
    ensures IsRun(states, steps) && states[0] == s0
    ensures states[|steps|] == s0.(system := Activating(s0.system, Sessions.Published(peer, true))
                                             .(monitor := Watching(s0.system, peer),
                                               registry := [Sessions.Candidate(s0.system.nextId, peer, true).(state := Ready)]))
  {
    var x := s0.system.nextId;
    states, steps := SessionRegisters(s0, peer);
    states, steps := FirstPublication(states, steps, x, peer);
  }

  /** Any peer that the store grants can become the peer of a ready session. */
  lemma SessionBecomesReady(s0: State, peer: Snapshot) returns (states: seq<State>, steps: seq<Step>)
    requires Init(s0) && Current(Stored(s0), peer)
    ensures IsRun(states, steps) && states[0] == s0
    ensures var s, x := states[|steps|], s0.system.nextId;
            && IsReady(s, x) && !s.system.connections[x].stopping && PeerOf(s, x) == Some(peer)
            && s.reception == map[] && s.events == [] && s.system.monitor == Watching(s0.system, peer)
  {
    var x := s0.system.nextId;
    states, steps := SessionPublishes(s0, peer);
    var s := states[|steps|].system;
    s := s.(connections := s.connections[x := Sessions.FRESH.(ready := true, peer := Some(peer))]);
    states, steps := TakeSystem(states, steps, Sessions.MakeReady(x), s);
  }

  lemma RecordIsSized(states: seq<State>, steps: seq<Step>, x: SessionId, packet: Incoming)
    returns (states': seq<State>, steps': seq<Step>)
    requires IsRun(states, steps) && var s := states[|steps|];
             IsReady(s, x) && !s.system.connections[x].stopping && At(s, x).Resting?
    ensures IsRun(states', steps') && states'[0] == states[0]
    ensures states'[|steps'|] == Moved(states[|steps|], x, Sized(0, Some(packet)))
  {
    var s := states[|steps|];
    states', steps' := Take(states, steps, Arrive(x, 0, Some(packet)), Moved(s, x, Arrived(0, Some(packet))));
    states', steps' := Take(states', steps', CheckDeadline(x, false), Moved(s, x, Timely(0, Some(packet))));
    states', steps' := Take(states', steps', CheckSetupSize(x), Moved(s, x, Sized(0, Some(packet))));
  }

  /** A record with text on a ready session whose peer is current gets to the router. */
  lemma MessageIsApproved(states: seq<State>, steps: seq<Step>, x: SessionId, packet: Incoming)
    returns (states': seq<State>, steps': seq<Step>)
    requires IsRun(states, steps) && packet.HasText() && var s := states[|steps|];
             Authorized(s, x) && !s.system.connections[x].stopping && At(s, x).Resting?
    ensures IsRun(states', steps') && states'[0] == states[0]
    ensures states'[|steps'|] == Moved(states[|steps|], x, Approved(packet))
  {
    var s := states[|steps|];
    states', steps' := RecordIsSized(states, steps, x, packet);
    states', steps' := Take(states', steps', Examine(x), Moved(s, x, Checking(packet)));
    states', steps' := Take(states', steps', CheckAuthorization(x, false), Moved(s, x, Approved(packet)));
  }

  /** Another writer revokes `peer`. */
  lemma PeerIsRevoked(states: seq<State>, steps: seq<Step>, peer: Snapshot, revokedAt: Int64)
    returns (states': seq<State>, steps': seq<Step>)
    requires IsRun(states, steps) && var s := states[|steps|]; var m := s.system.monitor;
             && Consistent(Stored(s)) && Current(Stored(s), peer) && peer.authorization.revision < INT64_MAX
             && revokedAt >= Stored(s).devices[peer.uuid].pairedAt
             && m.store.local == m.readLocal && m.store.external == m.readExternal
    ensures IsRun(states', steps') && states'[0] == states[0] && !Current(Stored(states'[|steps'|]), peer)
    ensures var s, s' := states[|steps|], states'[|steps'|];
            s' == s.(system := s.system.(monitor := s'.system.monitor))
  {
    var s := states[|steps|];
    var m := s.system.monitor;
    var commit := Commit(Revoke(peer.uuid, peer.authorization.revision, revokedAt), false);
    RevisionIsPositive(Stored(s), peer);
    var store := LiveMonitor.Counted(m.store, commit, Effect(commit.op, Stored(s)).value);
    states', steps' := TakeSystem(states, steps, Sessions.Background(LiveMonitor.CommitOp(commit)),
                                  s.system.(monitor := m.(store := store)));
  }

  /** Authorization when the event is queued is not guaranteed: for every peer that the store
      grants, and every text, there is a run in which another writer revokes the peer right
      before its event is queued, and the event is queued all the same. */
  lemma RevocationCanComeTooLate(s0: State, peer: Snapshot, packet: Incoming, revokedAt: Int64)
    returns (states: seq<State>, steps: seq<Step>)
    requires Init(s0) && Current(Stored(s0), peer) && packet.HasText()
    requires peer.authorization.revision < INT64_MAX && revokedAt >= Stored(s0).devices[peer.uuid].pairedAt
    ensures IsRun(states, steps) && states[0] == s0 && |steps| > 0
    ensures var n := |steps|;
            && Emits(states[n - 1], steps[n - 1]) && !Current(Stored(states[n - 1]), peer)
            && states[n].events == [Event(DeviceIdOf(peer), packet.field.text)]
  {
    var x := s0.system.nextId;
    states, steps := SessionBecomesReady(s0, peer);
    states, steps := MessageIsApproved(states, steps, x, packet);
    states, steps := PeerIsRevoked(states, steps, peer, revokedAt);
    var s := states[|steps|];
    states, steps := Take(states, steps, Dispatch(x), Moved(s, x, Resting).(events := [Event(DeviceIdOf(peer), packet.field.text)]));
  }

  lemma RevisionIsPositive(db: Database, peer: Snapshot)
    requires Consistent(db) && Current(db, peer)
    ensures peer.uuid in db.devices && 0 < db.devices[peer.uuid].revision == peer.authorization.revision
  {
  }
}
