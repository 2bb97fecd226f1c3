/** Live-authorization invalidation as a step relation. Registrars, the background monitor
    and trust-store writers interleave freely; each step is one lock region or one call
    into the store, which serializes its calls. */
module LiveMonitor {
  import opened Bytes
  import opened TrustTables
  import opened TrustHistory

  /** The store with its commit counters before truncation to machine words. */
  datatype StoreState = StoreState(db: Database, local: nat, external: nat) {
    function Token(): (t: ChangeToken) {
      TrustHistory.Token(local, external)
    }
  }

  /** Where the monitor thread is. A scan keeps the table it copied and the sessions it has
      yet to examine; `failed` remembers that the lookup threw. */
  datatype Pc =
    | Waiting
    | Woken(force: bool)
    | Snapshotting
    | Scanning(table: map<SessionId, Snapshot>, todo: set<SessionId>)
    | Evicting(table: map<SessionId, Snapshot>, todo: set<SessionId>, session: SessionId, failed: bool)
    | Invoking(table: map<SessionId, Snapshot>, todo: set<SessionId>, session: SessionId)
  {
    predicate InScan() {
      Scanning? || Evicting? || Invoking?
    }
  }

  /** `pending` holds registrations whose check has passed and whose insert is still to come;
      `readLocal` and `readExternal` are the counters when the monitor last read the token. */
  datatype State = State(
    store: StoreState,
    live: map<SessionId, Snapshot>,
    forceScan: bool,
    pending: map<SessionId, Snapshot>,
    pc: Pc,
    lastToken: Option<ChangeToken>,
    readLocal: nat,
    readExternal: nat)

  predicate SameBinding(a: Snapshot, b: Snapshot) {
    a.authorization.revision == b.authorization.revision && a.uuid == b.uuid && a.publicKey == b.publicKey
  }

  // ---- Steps ----

  datatype Step =
    | CommitOp(commit: Commit)
    | CheckRegistration(session: SessionId, peer: Snapshot)
    | InsertRegistration(session: SessionId)
    | DropRegistration(session: SessionId)
    | Unregister(session: SessionId)
    | Wake
    | ReadToken(failed: bool)
    | TakeSnapshot
    | Examine(session: SessionId, failed: bool)
    | Evict
    | Invoke
    | FinishScan

  /** Counters do not go all the way round between two readings of the token. */
  predicate WithinRange(store: StoreState, readLocal: nat, readExternal: nat) {
    store.local < readLocal + TWO_64 && store.external < readExternal + TWO_32
  }

  function Counted(store: StoreState, c: Commit, db: Database): (r: StoreState) {
    StoreState(db, store.local + (if c.isLocal && ChangesTrust(c.op) then 1 else 0),
               store.external + (if c.isLocal then 0 else 1))
  }

  ghost predicate CommitStep(s: State, s': State, c: Commit) {
    && Effect(c.op, s.store.db).Some?
    && s' == s.(store := Counted(s.store, c, Effect(c.op, s.store.db).value))
    && WithinRange(s'.store, s.readLocal, s.readExternal)
  }

  ghost predicate Next(s: State, s': State, step: Step) {
    match step
    case CommitOp(c) => CommitStep(s, s', c)
    case CheckRegistration(session, peer) =>
      && session !in s.pending && Current(s.store.db, peer)
      && s' == s.(pending := s.pending[session := peer])
    case InsertRegistration(session) =>
      && session in s.pending && session !in s.live
      && s' == s.(live := s.live[session := s.pending[session]], pending := s.pending - {session}, forceScan := true)
    case DropRegistration(session) =>
      && session in s.pending && session in s.live
      && s' == s.(pending := s.pending - {session})
    case Unregister(session) => s' == s.(live := s.live - {session})
    case Wake =>
      && s.pc.Waiting?
      && s' == s.(pc := Woken(s.forceScan), forceScan := false)
    case ReadToken(failed) =>
      && s.pc.Woken?
      && var scan := s.pc.force || failed || s.lastToken != Some(s.store.Token());
      s' == s.(pc := if scan then Snapshotting else Waiting,
               lastToken := if failed then None else Some(s.store.Token()),
               readLocal := s.store.local, readExternal := s.store.external)
    case TakeSnapshot =>
      && s.pc.Snapshotting?
      && s' == s.(pc := Scanning(s.live, s.live.Keys))
    case Examine(session, failed) =>
      && s.pc.Scanning? && session in s.pc.todo && session in s.pc.table
      && var todo := s.pc.todo - {session};
      s' == s.(pc := if !failed && Current(s.store.db, s.pc.table[session]) then Scanning(s.pc.table, todo)
                     else Evicting(s.pc.table, todo, session, failed))
    case Evict =>
      && s.pc.Evicting? && s.pc.session in s.pc.table
      && var x := s.pc.session;
      if x in s.live && SameBinding(s.live[x], s.pc.table[x])
      then s' == s.(live := s.live - {x}, pc := Invoking(s.pc.table, s.pc.todo, x))
      else s' == s.(pc := Scanning(s.pc.table, s.pc.todo))
    case Invoke => s.pc.Invoking? && s' == s.(pc := Scanning(s.pc.table, s.pc.todo))
    case FinishScan => s.pc.Scanning? && s.pc.todo == {} && s' == s.(pc := Waiting)
  }

  /** The monitor starts before any session is registered. */
  ghost predicate Init(s: State) {
    && Consistent(s.store.db) && s.live == map[] && s.pending == map[] && !s.forceScan
    && s.pc == Waiting && s.lastToken == None
    && s.readLocal == s.store.local && s.readExternal == s.store.external
  }

  // ---- The invariant ----

  /** A commit may have happened since the token was last read. */
  predicate Changed(s: State) {
    s.store.local != s.readLocal || s.store.external != s.readExternal
  }

  ghost predicate Stale(s: State, session: SessionId)
    requires session in s.live
  {
    !Current(s.store.db, s.live[session])
  }

  /** The scan in progress will still examine this entry. */
  predicate WillExamine(s: State, session: SessionId)
    requires session in s.live
  {
    match s.pc
    case Waiting => false
    case Woken(force) => force
    case Snapshotting => true
    case Scanning(table, todo) => session in todo && session in table && table[session] == s.live[session]
    case Evicting(table, todo, x, _) => (session in todo || session == x) && session in table && table[session] == s.live[session]
    case Invoking(table, todo, _) => session in todo && session in table && table[session] == s.live[session]
  }

  /** No invalidation is lost: a stale entry is covered by the force flag, by a token that
      differs from the last one read, or by the scan in progress. */
  ghost predicate Covered(s: State) {
    forall session :: session in s.live && Stale(s, session) ==>
      s.forceScan || Changed(s) || WillExamine(s, session)
  }

  ghost predicate TokenInSync(s: State) {
    && s.readLocal <= s.store.local && s.readExternal <= s.store.external
    && WithinRange(s.store, s.readLocal, s.readExternal)
    && (s.lastToken.Some? ==> s.lastToken.value == TrustHistory.Token(s.readLocal, s.readExternal))
  }

  /** The snapshot was current once: it still is, or its device has moved past it. */
  ghost predicate WasCurrent(db: Database, p: Snapshot) {
    && p.uuid in db.devices && db.devices[p.uuid].publicKey == p.publicKey
    && (p.authorization.revision < db.devices[p.uuid].revision || Current(db, p))
  }

  ghost predicate AllWereCurrent(db: Database, table: map<SessionId, Snapshot>) {
    forall session :: session in table ==> WasCurrent(db, table[session])
  }

  ghost predicate ScanSound(s: State) {
    s.pc.InScan() ==>
      && s.pc.todo <= s.pc.table.Keys && AllWereCurrent(s.store.db, s.pc.table)
      && (s.pc.Evicting? ==>
            s.pc.session in s.pc.table && (s.pc.failed || !Current(s.store.db, s.pc.table[s.pc.session])))
  }

  ghost predicate Inv(s: State) {
    && TokenInSync(s) && Covered(s) && ScanSound(s)
    && AllWereCurrent(s.store.db, s.live) && AllWereCurrent(s.store.db, s.pending)
  }

  // ---- Commits ----

  /** A commit never turns a stale snapshot current. */
  lemma CommitKeepsPast(op: Op, db: Database, p: Snapshot)
    requires Effect(op, db).Some? && WasCurrent(db, p)
    ensures WasCurrent(Effect(op, db).value, p)
    ensures !Current(db, p) ==> !Current(Effect(op, db).value, p)
  {
    CommitAdvancesDevice(op, db, p.uuid);
  }

  lemma CommitKeepsAllPast(op: Op, db: Database, table: map<SessionId, Snapshot>)
    requires Effect(op, db).Some? && AllWereCurrent(db, table)
    ensures AllWereCurrent(Effect(op, db).value, table)
  {
    forall session | session in table
      ensures WasCurrent(Effect(op, db).value, table[session])
    {
      CommitKeepsPast(op, db, table[session]);
    }
  }

  /** A commit that moves neither counter changes no authorization. */
  lemma UncountedCommitIsQuiet(c: Commit, db: Database, p: Snapshot)
    requires Effect(c.op, db).Some? && c.isLocal && !ChangesTrust(c.op)
    ensures Current(Effect(c.op, db).value, p) <==> Current(db, p)
  {
  }

  lemma CommitKeepsCovered(s: State, s': State, c: Commit)
    requires Inv(s) && CommitStep(s, s', c)
    ensures Covered(s')
  {
    if c.isLocal && !ChangesTrust(c.op) {
      forall session | session in s'.live && Stale(s', session)
        ensures s'.forceScan || Changed(s') || WillExamine(s', session)
      {
        UncountedCommitIsQuiet(c, s.store.db, s.live[session]);
        assert Stale(s, session);
      }
    } else {
      assert Changed(s');
    }
  }

  lemma CommitKeepsInv(s: State, s': State, c: Commit)
    requires Inv(s) && CommitStep(s, s', c)
    ensures Inv(s')
  {
    CommitKeepsCovered(s, s', c);
    CommitKeepsAllPast(c.op, s.store.db, s.live);
    CommitKeepsAllPast(c.op, s.store.db, s.pending);
    if s.pc.InScan() {
      CommitKeepsAllPast(c.op, s.store.db, s.pc.table);
      if s.pc.Evicting? { CommitKeepsPast(c.op, s.store.db, s.pc.table[s.pc.session]); }
    }
  }

  // ---- Every step keeps the invariant ----

  lemma TokenTellsChange(s: State)
    requires TokenInSync(s) && s.lastToken == Some(s.store.Token())
    ensures !Changed(s)
  {
  }

  lemma ReadTokenKeepsInv(s: State, s': State, failed: bool)
    requires Inv(s) && Next(s, s', ReadToken(failed))
    ensures Inv(s')
  {
    if s'.pc.Waiting? { TokenTellsChange(s); }
    assert forall session :: session in s'.live && Stale(s', session) ==> session in s.live && Stale(s, session);
  }

  predicate IsRegistration(step: Step) {
    step.CheckRegistration? || step.InsertRegistration? || step.DropRegistration? || step.Unregister?
  }

  predicate IsMonitor(step: Step) {
    !step.CommitOp? && !IsRegistration(step)
  }

  lemma RegistrationKeepsInv(s: State, s': State, step: Step)
    requires Inv(s) && Next(s, s', step) && IsRegistration(step)
    ensures Inv(s')
  {
    if !step.InsertRegistration? {
      forall session | session in s'.live && Stale(s', session)
        ensures s'.forceScan || Changed(s') || WillExamine(s', session)
      {
        assert Stale(s, session);
      }
    }
  }

  lemma ScanBoundaryKeepsInv(s: State, s': State, step: Step)
    requires Inv(s) && Next(s, s', step) && (step.Wake? || step.TakeSnapshot? || step.FinishScan?)
    ensures Inv(s')
  {
  }

  lemma ExamineKeepsCovered(s: State, s': State, session: SessionId, failed: bool)
    requires Inv(s) && Next(s, s', Examine(session, failed))
    ensures Covered(s')
  {
    assert s'.live == s.live && s'.store == s.store;
    forall x | x in s'.live && Stale(s', x)
      ensures s'.forceScan || Changed(s') || WillExamine(s', x)
    {
      assert Stale(s, x);
    }
  }

  lemma ExamineKeepsInv(s: State, s': State, session: SessionId, failed: bool)
    requires Inv(s) && Next(s, s', Examine(session, failed))
    ensures Inv(s')
  {
    ExamineKeepsCovered(s, s', session, failed);
    assert s'.live == s.live && s'.store == s.store && s'.pending == s.pending && s'.pc.table == s.pc.table;
  }

  lemma EvictionCovers(s: State, s': State, step: Step, x: SessionId)
    requires Next(s, s', step) && (step.Evict? || step.Invoke?) && x in s'.live
    requires x in s.live ==> s.forceScan || Changed(s) || WillExamine(s, x)
    requires s.pc.Evicting? ==> s.pc.session in s.pc.table
    ensures x in s.live && s'.live[x] == s.live[x] && s'.store == s.store
    ensures s'.forceScan || Changed(s') || WillExamine(s', x)
  {
  }

  lemma EvictionKeepsCovered(s: State, s': State, step: Step)
    requires Inv(s) && Next(s, s', step) && (step.Evict? || step.Invoke?)
    ensures Covered(s')
  {
    assert s'.store == s.store;
    forall x | x in s'.live && Stale(s', x)
      ensures s'.forceScan || Changed(s') || WillExamine(s', x)
    {
      assert x in s.live && Stale(s, x);
      EvictionCovers(s, s', step, x);
    }
  }

  lemma EvictionKeepsInv(s: State, s': State, step: Step)
    requires Inv(s) && Next(s, s', step) && (step.Evict? || step.Invoke?)
    ensures Inv(s')
  {
    EvictionKeepsCovered(s, s', step);
    assert s'.store == s.store && s'.pending == s.pending && s'.pc.table == s.pc.table;
  }

  lemma StepKeepsInv(s: State, s': State, step: Step)
    requires Inv(s) && Next(s, s', step)
    ensures Inv(s')
  {
    match step
    case CommitOp(c) => CommitKeepsInv(s, s', c);
    case ReadToken(failed) => ReadTokenKeepsInv(s, s', failed);
    case Examine(session, failed) => ExamineKeepsInv(s, s', session, failed);
    case Evict => EvictionKeepsInv(s, s', step);
    case Invoke => EvictionKeepsInv(s, s', step);
    case Wake => ScanBoundaryKeepsInv(s, s', step);
    case TakeSnapshot => ScanBoundaryKeepsInv(s, s', step);
    case FinishScan => ScanBoundaryKeepsInv(s, s', step);
    case _ => RegistrationKeepsInv(s, s', step);
  }

  // ---- Whole runs ----

  /** A run: `states[i + 1]` follows `states[i]` by `steps[i]`. */
  ghost predicate IsRun(states: seq<State>, steps: seq<Step>) {
    && |states| == |steps| + 1
    && forall i :: 0 <= i < |steps| ==> StepAt(states, steps, i)
  }

  ghost predicate StepAt(states: seq<State>, steps: seq<Step>, i: nat)
    requires i < |steps| && |states| == |steps| + 1
  {
    Next(states[i], states[i + 1], steps[i])
  }

  lemma {:induction false} InvAlong(states: seq<State>, steps: seq<Step>, i: nat)
    requires IsRun(states, steps) && Inv(states[0]) && i <= |steps|
    ensures Inv(states[i])
  {
    if i > 0 {
      InvAlong(states, steps, i - 1);
      assert StepAt(states, steps, i - 1);
      StepKeepsInv(states[i - 1], states[i], steps[i - 1]);
    }
  }

  /** In every reachable state, whatever the interleaving, each live entry that no longer
      matches the store is still covered: a scan is forced, the monitor's last token is not
      the store's, or the scan in progress will examine the entry. */
  lemma NoLostInvalidation(states: seq<State>, steps: seq<Step>, i: nat, session: SessionId)
    requires IsRun(states, steps) && Init(states[0]) && i <= |steps|
    requires session in states[i].live && Stale(states[i], session)
    ensures var s := states[i];
            s.forceScan || s.lastToken != Some(s.store.Token()) || WillExamine(s, session)
  {
    InvAlong(states, steps, i);
    if states[i].lastToken == Some(states[i].store.Token()) { TokenTellsChange(states[i]); }
  }

  /** Nothing is waiting to be noticed. */
  predicate Settled(s: State) {
    s.pc.Waiting? && !s.forceScan && !Changed(s)
  }

  lemma SettledMeansCurrent(s: State)
    requires Inv(s) && Settled(s)
    ensures forall session :: session in s.live ==> Current(s.store.db, s.live[session])
  {
  }

  /** No commit and no registration interferes; sessions may still go away. */
  ghost predicate QuietRun(states: seq<State>, steps: seq<Step>) {
    IsRun(states, steps) && forall i :: 0 <= i < |steps| ==> IsMonitor(steps[i]) || steps[i].Unregister?
  }

  lemma {:induction false} QuietRunSettles(states: seq<State>, steps: seq<Step>, i: nat)
    requires QuietRun(states, steps) && steps != [] && steps[0].Wake? && 1 <= i <= |steps|
    ensures !states[i].forceScan && (states[i].pc.Woken? || !Changed(states[i]))
  {
    assert StepAt(states, steps, i - 1);
    if i > 1 { QuietRunSettles(states, steps, i - 1); }
  }

  /** One monitor pass that no commit or registration disturbs, from wake-up to the next
      wait, leaves only entries that match the store. */
  lemma QuietPassLeavesOnlyCurrent(states: seq<State>, steps: seq<Step>)
    requires QuietRun(states, steps) && Inv(states[0]) && steps != [] && steps[0].Wake?
    requires states[|steps|].pc.Waiting?
    ensures var s := states[|steps|];
            forall session :: session in s.live ==> Current(s.store.db, s.live[session])
  {
    InvAlong(states, steps, |steps|);
    QuietRunSettles(states, steps, |steps|);
    SettledMeansCurrent(states[|steps|]);
  }

  /** The scan's copy agrees with the table on what is still live. */
  ghost predicate CopyAgrees(s: State) {
    s.pc.InScan() ==> forall x :: x in s.live ==> x in s.pc.table && s.pc.table[x] == s.live[x]
  }

  lemma {:induction false} CopyAgreesAlong(states: seq<State>, steps: seq<Step>, i: nat)
    requires QuietRun(states, steps) && steps != [] && steps[0].Wake? && i <= |steps|
    ensures CopyAgrees(states[i])
  {
    if i == 0 {
      assert StepAt(states, steps, 0);
    } else {
      CopyAgreesAlong(states, steps, i - 1);
      assert StepAt(states, steps, i - 1);
    }
  }

  /** Session `x` is gone from the table or about to be taken out of it. */
  predicate Doomed(s: State, x: SessionId) {
    x in s.live ==> s.pc.Evicting? && s.pc.session == x
  }

  lemma {:induction false} DoomedStays(states: seq<State>, steps: seq<Step>, i: nat, j: nat, x: SessionId)
    requires QuietRun(states, steps) && steps != [] && steps[0].Wake? && i <= j <= |steps| && Doomed(states[i], x)
    ensures Doomed(states[j], x)
  {
    if i < j {
      DoomedStays(states, steps, i, j - 1, x);
      CopyAgreesAlong(states, steps, j - 1);
      assert StepAt(states, steps, j - 1);
    }
  }

  /** A lookup that fails counts against the session: in an undisturbed pass every session
      whose lookup failed, or found something else, is out of the table at the end. */
  lemma FailedLookupIsEvicted(states: seq<State>, steps: seq<Step>, i: nat, x: SessionId, failed: bool)
    requires QuietRun(states, steps) && steps != [] && steps[0].Wake? && states[|steps|].pc.Waiting?
    requires i < |steps| && steps[i] == Examine(x, failed) && states[i].pc.Scanning? && x in states[i].pc.table
    requires failed || !Current(states[i].store.db, states[i].pc.table[x])
    ensures x !in states[|steps|].live
  {
    assert StepAt(states, steps, i);
    DoomedStays(states, steps, i + 1, |steps|, x);
  }

  /** An entry is evicted only after a failed lookup or when it is stale, and a stale one
      stays stale whatever commits follow. */
  lemma OnlyStaleIsEvicted(s: State, s': State, session: SessionId)
    requires Inv(s) && Next(s, s', Evict) && session in s.live && session !in s'.live
    ensures s.pc.failed || Stale(s, session)
    ensures s.pc.failed || s.live[session].authorization.revision < s.store.db.devices[s.live[session].uuid].revision
  {
  }
}
