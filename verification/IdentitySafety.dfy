/** What holds of the identity over any sequence of calls, failures and crashes. `d0` is the
    directory the machine started with. */
module IdentitySafety {
  import opened Bytes
  import opened UuidCodec
  import opened IdentityFiles

  // ---- Directories in which nothing is ever created ----

  ghost predicate Frozen(d0: Disk, derive: Derivation) {
    forall random :: !Inspection(d0, derive, random).Create?
  }

  ghost predicate FrozenInv(d0: Disk, derive: Derivation, s: State) {
    && s.disk == d0 && (s.pc.Outside? || s.pc.Inspecting?) && s.generated == []
    && forall i :: 0 <= i < |s.returned| ==> forall random :: Inspection(d0, derive, random) == Load(s.returned[i])
  }

  // ---- Directories without keys: the identity may be created ----

  /** The UUID of a migrated file, which must be kept. */
  function Legacy(d0: Disk): (u: Option<Text>) {
    if IdentityName in d0.entries then
      match ParseIdentity(Read(d0, IdentityName))
      case Unmarked(uuid) => Some(uuid)
      case _ => None
    else None
  }

  ghost predicate MayUse(d0: Disk, uuid: Text) {
    IsUuidText(uuid) && (Legacy(d0).Some? ==> uuid == Legacy(d0).value)
  }

  /** The entry is a synchronized file with exactly this content. */
  predicate HoldsFile(d: Disk, e: Option<nat>, content: Text) {
    e.Some? && e.value in d.files && d.files[e.value] == Inode(content, true)
  }

  ghost predicate IsMarkedEntry(d0: Disk, d: Disk, e: Option<nat>) {
    exists uuid :: MayUse(d0, uuid) && HoldsFile(d, e, Manifest(uuid))
  }

  /** The identity entry is still the original one or a complete, marked file. */
  ghost predicate IdentityEntryOk(d0: Disk, d: Disk, e: Option<nat>) {
    e == Lookup(d0.entries, IdentityName) || IsMarkedEntry(d0, d, e)
  }

  ghost predicate OriginalKept(d0: Disk, d: Disk) {
    IdentityName in d0.entries ==>
      HoldsFile(d, Some(d0.entries[IdentityName]), Read(d0, IdentityName))
  }

  predicate NoKeys(m: map<Name, nat>) {
    KeysName !in m && KeysTemporary !in m
  }

  predicate BeingWritten(d: Disk, job: Job, file: nat) {
    && file in d.files && !d.files[file].synced && d.files[file].content <= job.Data()
    && Lookup(d.entries, job.Temporary()) == Some(file)
  }

  ghost predicate StageBeforeKeys(d0: Disk, s: State) {
    match s.pc
    case Outside => true
    case Inspecting => true
    case Opening(job) => job.WriteIdentity? && MayUse(d0, job.uuid)
    case Writing(job, file) => job.WriteIdentity? && MayUse(d0, job.uuid) && BeingWritten(s.disk, job, file)
    case Renaming(job, file) => job.WriteIdentity? && MayUse(d0, job.uuid) && HoldsFile(s.disk, Some(file), job.Data())
    case SyncingDirectory(job) =>
      && job.WriteIdentity? && MayUse(d0, job.uuid) && IdentityTemporary !in s.disk.entries
      && HoldsFile(s.disk, Lookup(s.disk.entries, IdentityName), job.Data())
    case Generating(uuid) => MayUse(d0, uuid) && MarkerDurable(s.disk, uuid)
  }

  /** The marked identity is in the directory and a crash cannot take it away. */
  ghost predicate MarkerDurable(d: Disk, uuid: Text) {
    && HoldsFile(d, Lookup(d.entries, IdentityName), Manifest(uuid))
    && Lookup(d.durable, IdentityName) == Lookup(d.entries, IdentityName)
    && IdentityTemporary !in d.entries && IdentityTemporary !in d.durable
  }

  ghost predicate BeforeKeys(d0: Disk, s: State) {
    && s.generated == [] && s.returned == []
    && NoKeys(s.disk.entries) && NoKeys(s.disk.durable) && OriginalKept(d0, s.disk)
    && IdentityEntryOk(d0, s.disk, Lookup(s.disk.entries, IdentityName))
    && IdentityEntryOk(d0, s.disk, Lookup(s.disk.durable, IdentityName))
    && StageBeforeKeys(d0, s)
  }

  predicate KeysEntryOk(d: Disk, e: Option<nat>, identity: Identity) {
    e.None? || HoldsFile(d, e, KeyRecord(identity.uuid, identity.pair))
  }

  predicate Unpublished(d: Disk) {
    KeysName !in d.entries && KeysName !in d.durable
  }

  predicate StageAfterKeys(s: State, identity: Identity) {
    var job := WriteKeys(identity.uuid, identity.pair);
    match s.pc
    case Outside => true
    case Inspecting => true
    case Opening(j) => j == job && Unpublished(s.disk)
    case Writing(j, file) => j == job && Unpublished(s.disk) && BeingWritten(s.disk, job, file)
    case Renaming(j, file) => j == job && Unpublished(s.disk) && HoldsFile(s.disk, Some(file), job.Data())
    case SyncingDirectory(j) =>
      j == job && KeysTemporary !in s.disk.entries && HoldsFile(s.disk, Lookup(s.disk.entries, KeysName), job.Data())
    case Generating(_) => false
  }

  /** Exactly one key pair was made; only it can be found or handed out. */
  ghost predicate AfterKeys(d0: Disk, derive: Derivation, s: State) {
    && |s.generated| == 1 && var identity := s.generated[0];
    && MayUse(d0, identity.uuid) && Genuine(derive, identity.pair) && MarkerDurable(s.disk, identity.uuid)
    && KeysEntryOk(s.disk, Lookup(s.disk.entries, KeysName), identity)
    && KeysEntryOk(s.disk, Lookup(s.disk.durable, KeysName), identity)
    && (forall i :: 0 <= i < |s.returned| ==> s.returned[i] == identity)
    && StageAfterKeys(s, identity)
  }

  ghost predicate Inv(d0: Disk, derive: Derivation, s: State) {
    || (Frozen(d0, derive) && FrozenInv(d0, derive, s))
    || (!Frozen(d0, derive) && (BeforeKeys(d0, s) || AfterKeys(d0, derive, s)))
  }

  // ---- Every step keeps the invariant ----

  lemma InitIsSafe(derive: Derivation, s: State)
    requires Init(s)
    ensures Inv(s.disk, derive, s)
  {
  }

  lemma MixOfSame(m: map<Name, nat>, a: map<Name, nat>)
    requires Mixes(m, a, a)
    ensures m == a
  {
    forall n: Name
      ensures n in m <==> n in a
      ensures n in a ==> m[n] == a[n]
    {
      assert Lookup(m, n) == Lookup(a, n);
    }
  }

  lemma FrozenStep(d0: Disk, derive: Derivation, s: State, s': State, step: Step)
    requires Frozen(d0, derive) && FrozenInv(d0, derive, s) && Next(derive, s, s', step)
    requires d0.durable == d0.entries && forall i :: i in d0.files ==> d0.files[i].synced
    ensures FrozenInv(d0, derive, s')
  {
    match step
    case Inspect(random) =>
      var f := Inspection(d0, derive, random);
      assert !f.Create?;
      if f.Load? {
        assert forall r :: Inspection(d0, derive, r) == f;
      }
    case Writeback => MixOfSame(s'.disk.durable, d0.entries);
    case Crash =>
      MixOfSame(s'.disk.entries, d0.entries);
      assert s'.disk.files == d0.files;
    case _ =>
  }

  /** Synchronized files are never rewritten. */
  ghost predicate SyncedKept(d: Disk, d': Disk) {
    forall i :: i in d.files && d.files[i].synced ==> i in d'.files && d'.files[i] == d.files[i]
  }

  lemma EntryStaysOk(d0: Disk, d: Disk, d': Disk, e: Option<nat>)
    requires SyncedKept(d, d') && IdentityEntryOk(d0, d, e)
    ensures IdentityEntryOk(d0, d', e)
  {
  }

  /** Whatever part of the directory survives, its identity entry is acceptable. */
  lemma BeforeKeysDisk(d0: Disk, s: State, d': Disk)
    requires BeforeKeys(d0, s) && SyncedKept(s.disk, d')
    requires Mixes(d'.entries, s.disk.entries, s.disk.durable) && Mixes(d'.durable, s.disk.entries, s.disk.durable)
    ensures BeforeKeys(d0, State(d', Outside, [], [], {}))
  {
    var d := s.disk;
    assert Lookup(d'.entries, KeysName).None? && Lookup(d'.entries, KeysTemporary).None?;
    assert Lookup(d'.durable, KeysName).None? && Lookup(d'.durable, KeysTemporary).None?;
    EntryStaysOk(d0, d, d', Lookup(d'.entries, IdentityName));
    EntryStaysOk(d0, d, d', Lookup(d'.durable, IdentityName));
  }

  lemma InspectBeforeKeys(d0: Disk, derive: Derivation, s: State, s': State, random: Uuid)
    requires !Frozen(d0, derive) && BeforeKeys(d0, s) && Next(derive, s, s', Inspect(random))
    ensures BeforeKeys(d0, s')
  {
  }

  lemma WriteBeforeKeys(d0: Disk, derive: Derivation, s: State, s': State, step: Step)
    requires BeforeKeys(d0, s) && Next(derive, s, s', step)
    requires step.OpenTemporary? || step.WriteSome? || step.SyncTemporary?
    ensures BeforeKeys(d0, s')
  {
  }

  lemma PublishBeforeKeys(d0: Disk, derive: Derivation, s: State, s': State, step: Step)
    requires BeforeKeys(d0, s) && Next(derive, s, s', step) && (step.Rename? || step.SyncDirectory?)
    ensures BeforeKeys(d0, s')
  {
  }

  lemma DisturbedBeforeKeys(d0: Disk, derive: Derivation, s: State, s': State, step: Step)
    requires BeforeKeys(d0, s) && Next(derive, s, s', step) && (step.Flush? || step.Writeback? || step.Crash?)
    ensures BeforeKeys(d0, s')
  {
    BeforeKeysDisk(d0, s, s'.disk);
    if !step.Crash? && s.pc.Generating? {
      assert Lookup(s'.disk.durable, IdentityName) == Lookup(s.disk.entries, IdentityName);
      assert Lookup(s'.disk.durable, IdentityTemporary).None?;
    }
  }

  lemma StepBeforeKeys(d0: Disk, derive: Derivation, s: State, s': State, step: Step)
    requires !Frozen(d0, derive) && BeforeKeys(d0, s) && Next(derive, s, s', step)
    ensures BeforeKeys(d0, s') || AfterKeys(d0, derive, s')
  {
    match step
    case Inspect(random) => InspectBeforeKeys(d0, derive, s, s', random);
    case OpenTemporary(_) => WriteBeforeKeys(d0, derive, s, s', step);
    case WriteSome(_) => WriteBeforeKeys(d0, derive, s, s', step);
    case SyncTemporary => WriteBeforeKeys(d0, derive, s, s', step);
    case Rename => PublishBeforeKeys(d0, derive, s, s', step);
    case SyncDirectory => PublishBeforeKeys(d0, derive, s, s', step);
    case Flush(_) => DisturbedBeforeKeys(d0, derive, s, s', step);
    case Writeback => DisturbedBeforeKeys(d0, derive, s, s', step);
    case Crash => DisturbedBeforeKeys(d0, derive, s, s', step);
    case _ =>
  }

  /** Once keys exist a call finds the one identity or refuses; it never creates. */
  lemma InspectionAfterKeys(d0: Disk, derive: Derivation, s: State, random: Uuid)
    requires AfterKeys(d0, derive, s)
    ensures Inspection(s.disk, derive, random) in {Refuse, Load(s.generated[0])}
  {
    var identity := s.generated[0];
    ManifestIsMarked(identity.uuid);
    KeyRecordIsReadBack(identity.uuid, identity.pair, derive);
  }

  lemma DisturbedAfterKeys(d0: Disk, derive: Derivation, s: State, s': State, step: Step)
    requires AfterKeys(d0, derive, s) && Next(derive, s, s', step) && (step.Flush? || step.Writeback? || step.Crash?)
    ensures AfterKeys(d0, derive, s')
  {
    var d' := s'.disk;
    assert Mixes(d'.durable, s.disk.entries, s.disk.durable);
    assert Lookup(d'.durable, IdentityName) == Lookup(s.disk.entries, IdentityName) == Lookup(d'.entries, IdentityName);
    assert Lookup(d'.durable, IdentityTemporary).None? && Lookup(d'.entries, IdentityTemporary).None?;
    assert KeysEntryOk(d', Lookup(d'.durable, KeysName), s.generated[0]);
    assert KeysEntryOk(d', Lookup(d'.entries, KeysName), s.generated[0]);
  }

  lemma WriteAfterKeys(d0: Disk, derive: Derivation, s: State, s': State, step: Step)
    requires AfterKeys(d0, derive, s) && Next(derive, s, s', step)
    requires step.OpenTemporary? || step.WriteSome? || step.SyncTemporary?
    ensures AfterKeys(d0, derive, s')
  {
  }

  lemma PublishAfterKeys(d0: Disk, derive: Derivation, s: State, s': State, step: Step)
    requires AfterKeys(d0, derive, s) && Next(derive, s, s', step) && (step.Rename? || step.SyncDirectory?)
    ensures AfterKeys(d0, derive, s')
  {
  }

  lemma StepAfterKeys(d0: Disk, derive: Derivation, s: State, s': State, step: Step)
    requires AfterKeys(d0, derive, s) && Next(derive, s, s', step)
    ensures AfterKeys(d0, derive, s') && s'.generated == s.generated
  {
    match step
    case Inspect(random) => InspectionAfterKeys(d0, derive, s, random);
    case OpenTemporary(_) => WriteAfterKeys(d0, derive, s, s', step);
    case WriteSome(_) => WriteAfterKeys(d0, derive, s, s', step);
    case SyncTemporary => WriteAfterKeys(d0, derive, s, s', step);
    case Rename => PublishAfterKeys(d0, derive, s, s', step);
    case SyncDirectory => PublishAfterKeys(d0, derive, s, s', step);
    case Flush(_) => DisturbedAfterKeys(d0, derive, s, s', step);
    case Writeback => DisturbedAfterKeys(d0, derive, s, s', step);
    case Crash => DisturbedAfterKeys(d0, derive, s, s', step);
    case _ =>
  }

  lemma StepKeepsInv(d0: Disk, derive: Derivation, s: State, s': State, step: Step)
    requires Inv(d0, derive, s) && Next(derive, s, s', step)
    requires d0.durable == d0.entries && forall i :: i in d0.files ==> d0.files[i].synced
    ensures Inv(d0, derive, s')
  {
    if Frozen(d0, derive) {
      FrozenStep(d0, derive, s, s', step);
    } else if BeforeKeys(d0, s) {
      StepBeforeKeys(d0, derive, s, s', step);
    } else {
      StepAfterKeys(d0, derive, s, s', step);
    }
  }

  // ---- Whole runs ----

  ghost predicate IsRun(derive: Derivation, states: seq<State>, steps: seq<Step>) {
    && |states| == |steps| + 1 && Init(states[0])
    && forall i :: 0 <= i < |steps| ==> StepAt(derive, states, steps, i)
  }

  ghost predicate StepAt(derive: Derivation, states: seq<State>, steps: seq<Step>, i: nat)
    requires i < |steps| && |states| == |steps| + 1
  {
    Next(derive, states[i], states[i + 1], steps[i])
  }

  lemma {:induction false} ReachableInv(derive: Derivation, states: seq<State>, steps: seq<Step>, i: nat)
    requires IsRun(derive, states, steps) && i <= |steps|
    ensures Inv(states[0].disk, derive, states[i])
  {
    if i == 0 {
      InitIsSafe(derive, states[0]);
    } else {
      ReachableInv(derive, states, steps, i - 1);
      assert StepAt(derive, states, steps, i - 1);
      StepKeepsInv(states[0].disk, derive, states[i - 1], states[i], steps[i - 1]);
    }
  }

  /** Over any sequence of calls, failures and crashes, from any directory: every call that
      succeeds returns the same UUID and key pair, at most one key pair is ever made, and
      what is returned is that one if it was made in this run. */
  lemma OneIdentity(derive: Derivation, states: seq<State>, steps: seq<Step>, i: nat)
    requires IsRun(derive, states, steps) && i <= |steps|
    ensures forall a, b :: 0 <= a < |states[i].returned| && 0 <= b < |states[i].returned| ==>
              states[i].returned[a] == states[i].returned[b]
    ensures |states[i].generated| <= 1
    ensures states[i].generated != [] ==>
              forall a :: 0 <= a < |states[i].returned| ==> states[i].returned[a] == states[i].generated[0]
  {
    ReachableInv(derive, states, steps, i);
    var d0, s := states[0].disk, states[i];
    if Frozen(d0, derive) {
      var random: Uuid := seq(16, _ => 0);
      forall a | 0 <= a < |s.returned|
        ensures Load(s.returned[a]) == Inspection(d0, derive, random)
      {
      }
    }
  }

  /** A migrated UUID is kept: no identity with another UUID is made or returned. */
  lemma LegacyUuidIsKept(derive: Derivation, states: seq<State>, steps: seq<Step>, i: nat)
    requires IsRun(derive, states, steps) && i <= |steps| && Legacy(states[0].disk).Some?
    ensures forall a :: 0 <= a < |states[i].returned| ==> states[i].returned[a].uuid == Legacy(states[0].disk).value
    ensures forall a :: 0 <= a < |states[i].generated| ==> states[i].generated[a].uuid == Legacy(states[0].disk).value
  {
    ReachableInv(derive, states, steps, i);
    var d0, s := states[0].disk, states[i];
    var random: Uuid := seq(16, _ => 0);
    assert !Inspection(d0, derive, random).Load?;
  }

  /** Keys are made only under a durable marker, and only if none were made before. */
  lemma MarkerPrecedesKeys(derive: Derivation, states: seq<State>, steps: seq<Step>, i: nat)
    requires IsRun(derive, states, steps) && i < |steps| && steps[i].Generate?
    ensures states[i].pc.Generating? && MarkerDurable(states[i].disk, states[i].pc.uuid) && states[i].generated == []
  {
    ReachableInv(derive, states, steps, i);
    assert StepAt(derive, states, steps, i);
  }

  /** A directory that starts out marked, with keys or without, never gets new keys. */
  lemma EstablishedIsNeverRekeyed(derive: Derivation, states: seq<State>, steps: seq<Step>, i: nat)
    requires IsRun(derive, states, steps) && i <= |steps|
    requires IdentityName in states[0].disk.entries && ParseIdentity(Read(states[0].disk, IdentityName)).Marked?
    ensures states[i].generated == []
  {
    ReachableInv(derive, states, steps, i);
  }

  // ---- What survives a crash ----

  /** Both files are in place and a crash can undo neither. */
  ghost predicate Permanent(d: Disk, identity: Identity) {
    && MarkerDurable(d, identity.uuid)
    && HoldsFile(d, Lookup(d.entries, KeysName), KeyRecord(identity.uuid, identity.pair))
    && HoldsFile(d, Lookup(d.durable, KeysName), KeyRecord(identity.uuid, identity.pair))
    && KeysTemporary !in d.entries && KeysTemporary !in d.durable
  }

  lemma PermanentIsFound(d: Disk, derive: Derivation, identity: Identity, random: Uuid)
    requires Permanent(d, identity) && IsUuidText(identity.uuid) && Genuine(derive, identity.pair)
    ensures Inspection(d, derive, random) == Load(identity)
  {
    ManifestIsMarked(identity.uuid);
    KeyRecordIsReadBack(identity.uuid, identity.pair, derive);
  }

  lemma MixKeepsPermanent(d: Disk, d': Disk, identity: Identity)
    requires Permanent(d, identity) && SyncedKept(d, d')
    requires Mixes(d'.entries, d.entries, d.durable) && Mixes(d'.durable, d.entries, d.durable)
    ensures Permanent(d', identity)
  {
    forall n: Name
      ensures Lookup(d'.entries, n) == Lookup(d.entries, n) || Lookup(d'.entries, n) == Lookup(d.durable, n)
      ensures Lookup(d'.durable, n) == Lookup(d.entries, n) || Lookup(d'.durable, n) == Lookup(d.durable, n)
    {
    }
    assert Lookup(d'.entries, KeysTemporary).None? && Lookup(d'.durable, KeysTemporary).None?;
    assert Lookup(d'.entries, IdentityTemporary).None? && Lookup(d'.durable, IdentityTemporary).None?;
    assert Lookup(d'.entries, IdentityName) == Lookup(d.entries, IdentityName) == Lookup(d'.durable, IdentityName);
  }

  ghost predicate Settled(d0: Disk, derive: Derivation, s: State) {
    AfterKeys(d0, derive, s) && Permanent(s.disk, s.generated[0]) && (s.pc.Outside? || s.pc.Inspecting?)
  }

  lemma StepKeepsSettled(d0: Disk, derive: Derivation, s: State, s': State, step: Step)
    requires Settled(d0, derive, s) && Next(derive, s, s', step)
    ensures Settled(d0, derive, s') && s'.generated == s.generated
  {
    StepAfterKeys(d0, derive, s, s', step);
    match step
    case Inspect(random) => InspectionAfterKeys(d0, derive, s, random);
    case Flush(_) => MixKeepsPermanent(s.disk, s'.disk, s.generated[0]);
    case Writeback => MixKeepsPermanent(s.disk, s'.disk, s.generated[0]);
    case Crash => MixKeepsPermanent(s.disk, s'.disk, s.generated[0]);
    case _ =>
  }

  lemma {:induction false} SettledForGood(derive: Derivation, states: seq<State>, steps: seq<Step>, i: nat, j: nat)
    requires IsRun(derive, states, steps) && i <= j <= |steps| && Settled(states[0].disk, derive, states[i])
    ensures Settled(states[0].disk, derive, states[j]) && states[j].generated == states[i].generated
  {
    if i < j {
      SettledForGood(derive, states, steps, i, j - 1);
      assert StepAt(derive, states, steps, j - 1);
      StepKeepsSettled(states[0].disk, derive, states[j - 1], states[j], steps[j - 1]);
    }
  }

  /** A call that creates an identity returns it only once nothing can take it away: every
      later call, after any failures and crashes, finds exactly that identity. */
  lemma CreatedIdentityIsPermanent(derive: Derivation, states: seq<State>, steps: seq<Step>, i: nat, j: nat, random: Uuid)
    requires IsRun(derive, states, steps) && i < j <= |steps|
    requires steps[i].SyncDirectory? && states[i].pc.SyncingDirectory? && states[i].pc.job.WriteKeys?
    ensures Inspection(states[j].disk, derive, random) == Load(Identity(states[i].pc.job.uuid, states[i].pc.job.pair))
  {
    ReachableInv(derive, states, steps, i);
    assert StepAt(derive, states, steps, i);
    StepAfterKeys(states[0].disk, derive, states[i], states[i + 1], steps[i]);
    SettledForGood(derive, states, steps, i + 1, j);
    PermanentIsFound(states[j].disk, derive, states[j].generated[0], random);
  }

  lemma RunExtends(derive: Derivation, states: seq<State>, steps: seq<Step>, step: Step, next: State)
    requires IsRun(derive, states, steps) && Next(derive, states[|steps|], next, step)
    ensures IsRun(derive, states + [next], steps + [step])
  {
    forall i | 0 <= i < |steps + [step]|
      ensures StepAt(derive, states + [next], steps + [step], i)
    {
      if i < |steps| { assert StepAt(derive, states, steps, i); }
    }
  }
}
