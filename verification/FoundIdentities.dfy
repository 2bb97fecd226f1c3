/** Identities that a call merely finds. Every call flushes the directory, but does so before
    it takes the lock; this module says exactly when the identity it then finds can be relied
    on, and shows the overlap of two calls in which it cannot. */
module FoundIdentities {
  import opened Bytes
  import opened UuidCodec
  import opened IdentityFiles
  import opened IdentitySafety

  /** After these steps the directory that processes see is the one a crash respects. */
  predicate IsSync(step: Step) {
    step.Flush? || step.SyncDirectory? || step.Crash?
  }

  /** Among the first `i` steps every rename was followed by such a step. For a call that
      inspects at `i` this means that its own flush, or a directory sync after it, came after
      the last rename. */
  ghost predicate Secured(steps: seq<Step>, i: nat)
    requires i <= |steps|
  {
    forall k :: 0 <= k < i && steps[k].Rename? ==> exists f :: k < f < i && IsSync(steps[f])
  }

  /** Whatever a crash leaves of the directory, the identity is found in it. */
  ghost predicate Survives(d: Disk, derive: Derivation, identity: Identity) {
    forall d', random :: AfterCrash(d, d') ==> Inspection(d', derive, random) == Load(identity)
  }

  /** Nothing is at stake in a crash, or an interrupted write is visible. */
  predicate InSync(d: Disk) {
    d.durable == d.entries || IdentityTemporary in d.entries || KeysTemporary in d.entries
  }

  lemma StepKeepsInSync(derive: Derivation, s: State, s': State, step: Step)
    requires Next(derive, s, s', step) && !step.Rename? && (InSync(s.disk) || IsSync(step))
    ensures InSync(s'.disk)
  {
    if step.Writeback? && s.disk.durable == s.disk.entries {
      MixOfSame(s'.disk.durable, s.disk.entries);
    }
  }

  lemma {:induction false} SecuredIsInSync(derive: Derivation, states: seq<State>, steps: seq<Step>, i: nat)
    requires IsRun(derive, states, steps) && i <= |steps| && Secured(steps, i)
    ensures InSync(states[i].disk)
  {
    if i > 0 {
      assert StepAt(derive, states, steps, i - 1);
      assert !steps[i - 1].Rename?;
      if !IsSync(steps[i - 1]) { SecuredIsInSync(derive, states, steps, i - 1); }
      StepKeepsInSync(derive, states[i - 1], states[i], steps[i - 1]);
    }
  }

  /** An identity found in a directory that is in sync survives every crash. */
  lemma FoundInSyncSurvives(d0: Disk, derive: Derivation, s: State, random: Uuid)
    requires Inv(d0, derive, s) && d0.durable == d0.entries && forall i :: i in d0.files ==> d0.files[i].synced
    requires Inspection(s.disk, derive, random).Load? && InSync(s.disk)
    ensures Survives(s.disk, derive, Inspection(s.disk, derive, random).identity)
  {
    var d := s.disk;
    if !Frozen(d0, derive) { InspectionFindsKeys(d0, derive, s, random); }
    forall d', r | AfterCrash(d, d')
      ensures Inspection(d', derive, r) == Inspection(d, derive, random)
    {
      MixOfSame(d'.entries, d.entries);
      assert Read(d', IdentityName) == Read(d, IdentityName) && Read(d', KeysName) == Read(d, KeysName);
    }
  }

  /** Outside frozen directories only the one key pair made can be found. */
  lemma InspectionFindsKeys(d0: Disk, derive: Derivation, s: State, random: Uuid)
    requires !Frozen(d0, derive) && Inv(d0, derive, s) && Inspection(s.disk, derive, random).Load?
    ensures AfterKeys(d0, derive, s) && Inspection(s.disk, derive, random) == Load(s.generated[0])
  {
    if AfterKeys(d0, derive, s) { InspectionAfterKeys(d0, derive, s, random); }
  }

  /** A secured identity is there for good: every later inspection finds it. */
  lemma SecuredIdentityIsPermanent(derive: Derivation, states: seq<State>, steps: seq<Step>, i: nat, j: nat, random: Uuid, later: Uuid)
    requires IsRun(derive, states, steps) && i <= j <= |steps| && Secured(steps, i)
    requires Inspection(states[i].disk, derive, random).Load? && states[i].pc.Inspecting?
    ensures Inspection(states[j].disk, derive, later) == Inspection(states[i].disk, derive, random)
  {
    var d0 := states[0].disk;
    ReachableInv(derive, states, steps, i);
    ReachableInv(derive, states, steps, j);
    SecuredIsInSync(derive, states, steps, i);
    if !Frozen(d0, derive) {
      InspectionFindsKeys(d0, derive, states[i], random);
      SettledForGood(derive, states, steps, i, j);
      PermanentIsFound(states[j].disk, derive, states[j].generated[0], later);
    }
  }

  // ---- Runs that look the same but leave less behind ----

  function WithDurable(s: State, durable: map<Name, nat>): (s': State) {
    s.(disk := s.disk.(durable := durable))
  }

  /** `other` is a run by the same steps in which processes see the same up to `i`; only what
      reached the disk on its own may differ. */
  ghost predicate LooksLike(derive: Derivation, states: seq<State>, other: seq<State>, steps: seq<Step>, i: nat)
    requires i < |states| && i <= |steps|
  {
    && IsRun(derive, other, steps[..i])
    && forall k :: 0 <= k <= i ==> other[k] == WithDurable(states[k], other[k].disk.durable)
  }

  lemma StepWithoutWriteback(derive: Derivation, s: State, s': State, step: Step, durable: map<Name, nat>)
    requires Next(derive, s, s', step) && !IsSync(step)
    ensures Next(derive, WithDurable(s, durable), WithDurable(s', durable), step)
  {
  }

  /** The run in which nothing is written back from step `r` on. */
  function Unwritten(states: seq<State>, r: nat, i: nat): (other: seq<State>)
    requires r <= i < |states|
    ensures |other| == i + 1
  {
    seq(i + 1, k requires 0 <= k <= i => if k <= r then states[k] else WithDurable(states[k], states[r].disk.durable))
  }

  lemma UnwrittenLooksLike(derive: Derivation, states: seq<State>, steps: seq<Step>, r: nat, i: nat)
    requires IsRun(derive, states, steps) && r < i <= |steps|
    requires forall f :: r <= f < i ==> !IsSync(steps[f])
    ensures LooksLike(derive, states, Unwritten(states, r, i), steps, i)
  {
    var other, first := Unwritten(states, r, i), steps[..i];
    forall k | 0 <= k < i
      ensures StepAt(derive, other, first, k)
    {
      assert StepAt(derive, states, steps, k);
      if k >= r { StepWithoutWriteback(derive, states[k], states[k + 1], steps[k], states[r].disk.durable); }
    }
  }

  /** Before a rename is under way no durable directory holds keys. */
  lemma NoDurableKeysAtRename(derive: Derivation, states: seq<State>, steps: seq<Step>, r: nat)
    requires IsRun(derive, states, steps) && r < |steps| && steps[r].Rename?
    ensures KeysName !in states[r].disk.durable
  {
    ReachableInv(derive, states, steps, r);
    assert StepAt(derive, states, steps, r);
  }

  lemma UnsecuredCanBeLost(derive: Derivation, states: seq<State>, steps: seq<Step>, i: nat, identity: Identity)
    requires IsRun(derive, states, steps) && i <= |steps| && !Secured(steps, i)
    ensures exists other: seq<State> :: LooksLike(derive, states, other, steps, i) && !Survives(other[i].disk, derive, identity)
  {
    var r :| 0 <= r < i && steps[r].Rename? && forall f :: r < f < i ==> !IsSync(steps[f]);
    UnwrittenLooksLike(derive, states, steps, r, i);
    NoDurableKeysAtRename(derive, states, steps, r);
    var other := Unwritten(states, r, i);
    DurableMayBeAllThatIsLeft(other[i].disk);
    var random: Uuid := seq(16, _ => 0);
    assert !Inspection(Worst(other[i].disk), derive, random).Load?;
    assert !Survives(other[i].disk, derive, identity);
  }

  function Worst(d: Disk): (d': Disk) {
    Disk(map i | i in d.files :: d.files[i].(synced := true), d.durable, d.durable)
  }

  lemma DurableMayBeAllThatIsLeft(d: Disk)
    ensures AfterCrash(d, Worst(d))
  {
  }

  /** A call that finds an identity can rely on it exactly when its own flush, or a directory
      sync after that, followed the last rename: then the identity survives every crash of
      every run that looks the same, and otherwise some crash of such a run loses it. */
  lemma FoundIdentitySurvivesIff(derive: Derivation, states: seq<State>, steps: seq<Step>, i: nat, random: Uuid)
    requires IsRun(derive, states, steps) && i < |steps| && steps[i] == Inspect(random)
    requires Inspection(states[i].disk, derive, random).Load?
    ensures Secured(steps, i) <==>
              forall other: seq<State> :: LooksLike(derive, states, other, steps, i) ==>
                Survives(other[i].disk, derive, Inspection(states[i].disk, derive, random).identity)
  {
    var identity := Inspection(states[i].disk, derive, random).identity;
    if Secured(steps, i) {
      forall other: seq<State> | LooksLike(derive, states, other, steps, i)
        ensures Survives(other[i].disk, derive, identity)
      {
        assert Secured(steps[..i], i) by { SecuredPrefix(steps, i); }
        SecuredIsInSync(derive, other, steps[..i], i);
        ReachableInv(derive, other, steps[..i], i);
        FoundInSyncSurvives(other[0].disk, derive, other[i], random);
      }
    } else {
      UnsecuredCanBeLost(derive, states, steps, i, identity);
    }
  }

  lemma SecuredPrefix(steps: seq<Step>, i: nat)
    requires i <= |steps| && Secured(steps, i)
    ensures Secured(steps[..i], i)
  {
    forall k | 0 <= k < i && steps[..i][k].Rename?
      ensures exists f :: k < f < i && IsSync(steps[..i][f])
    {
      var f :| k < f < i && IsSync(steps[f]);
      assert IsSync(steps[..i][f]);
    }
  }

  // ---- Two overlapping calls that lose an identity ----

  const EMPTY_DISK := Disk(map[], map[], map[])

  lemma Take(derive: Derivation, states: seq<State>, steps: seq<Step>, step: Step, next: State)
    returns (states': seq<State>, steps': seq<Step>)
    requires IsRun(derive, states, steps) && Next(derive, states[|steps|], next, step)
    ensures IsRun(derive, states', steps') && states' == states + [next] && steps' == steps + [step]
  {
    RunExtends(derive, states, steps, step, next);
    states', steps' := states + [next], steps + [step];
  }

  /** The directory after a write that got as far as its rename. */
  function Renamed(d: Disk, job: Job, file: nat): (d': Disk) {
    d.(files := d.files[file := Inode(job.Data(), true)], entries := d.entries[job.Target() := file])
  }

  lemma WriteAndRename(derive: Derivation, states: seq<State>, steps: seq<Step>, file: nat)
    returns (states': seq<State>, steps': seq<Step>)
    requires IsRun(derive, states, steps) && var s := states[|steps|];
             s.pc.Opening? && s.pc.job.Temporary() !in s.disk.entries && file !in s.disk.files
    ensures IsRun(derive, states', steps') && steps <= steps'
    ensures var s := states[|steps|];
            states'[|steps'|] == s.(pc := SyncingDirectory(s.pc.job), disk := Renamed(s.disk, s.pc.job, file))
  {
    var s := states[|steps|];
    var job, d := s.pc.job, s.disk;
    var entries := d.entries[job.Temporary() := file];
    var empty := d.(files := d.files[file := Inode([], false)], entries := entries);
    states', steps' := Take(derive, states, steps, OpenTemporary(file), s.(pc := Writing(job, file), disk := empty));
    var full := d.(files := d.files[file := Inode(job.Data(), false)], entries := entries);
    assert [] + job.Data()[0..|job.Data()|] == job.Data();
    states', steps' := Take(derive, states', steps', WriteSome(|job.Data()|), s.(pc := Writing(job, file), disk := full));
    var synced := d.(files := d.files[file := Inode(job.Data(), true)], entries := entries);
    states', steps' := Take(derive, states', steps', SyncTemporary, s.(pc := Renaming(job, file), disk := synced));
    assert entries - {job.Temporary()} == d.entries;
    states', steps' := Take(derive, states', steps', Rename, s.(pc := SyncingDirectory(job), disk := Renamed(d, job, file)));
  }

  /** Two calls flush the empty directory and the first takes the lock. */
  lemma CreatorStarts(derive: Derivation, random: Uuid) returns (states: seq<State>, steps: seq<Step>)
    ensures IsRun(derive, states, steps)
    ensures states[|steps|] == State(EMPTY_DISK, Opening(WriteIdentity(ToText(GeneratedUuid(random)))), [], [], {2})
  {
    var s0 := State(EMPTY_DISK, Outside, [], [], {});
    states, steps := [s0], [];
    states, steps := Take(derive, states, steps, Flush(1), s0.(waiting := {1}));
    states, steps := Take(derive, states, steps, Flush(2), s0.(waiting := {1, 2}));
    var s := s0.(waiting := {2});
    assert {1, 2} - {1} == {2};
    states, steps := Take(derive, states, steps, Enter(1), s.(pc := Inspecting));
    states, steps := Take(derive, states, steps, Inspect(random), s.(pc := Opening(WriteIdentity(ToText(GeneratedUuid(random))))));
  }

  /** The first call creates the identity and is killed right after it renamed the key file, while
      the second still waits with its flush done. */
  lemma CreatorIsKilled(derive: Derivation, random: Uuid, pair: KeyPair) returns (states: seq<State>, steps: seq<Step>)
    requires Genuine(derive, pair)
    ensures IsRun(derive, states, steps)
    ensures var uuid := ToText(GeneratedUuid(random));
            var marked := Renamed(EMPTY_DISK, WriteIdentity(uuid), 0);
            var keyed := Renamed(marked.(durable := marked.entries), WriteKeys(uuid, pair), 1);
            states[|steps|] == State(keyed, Outside, [Identity(uuid, pair)], [], {2})
  {
    var uuid := ToText(GeneratedUuid(random));
    states, steps := CreatorStarts(derive, random);
    states, steps := WriteAndRename(derive, states, steps, 0);
    states, steps := KeysAreRenamed(derive, states, steps, uuid, pair);
    var s := states[|steps|];
    states, steps := Take(derive, states, steps, Fail, s.(pc := Outside));
  }

  lemma KeysAreRenamed(derive: Derivation, states: seq<State>, steps: seq<Step>, uuid: Text, pair: KeyPair)
    returns (states': seq<State>, steps': seq<Step>)
    requires Genuine(derive, pair) && IsRun(derive, states, steps) && var s := states[|steps|];
             s.pc == SyncingDirectory(WriteIdentity(uuid)) && s.disk.files.Keys == {0} && s.disk.entries == map[IdentityName := 0]
    ensures IsRun(derive, states', steps')
    ensures var s := states[|steps|]; var job := WriteKeys(uuid, pair);
            states'[|steps'|] == s.(pc := SyncingDirectory(job), generated := s.generated + [Identity(uuid, pair)],
                                    disk := Renamed(s.disk.(durable := s.disk.entries), job, 1))
  {
    var s := states[|steps|];
    s := s.(pc := Generating(uuid), disk := s.disk.(durable := s.disk.entries));
    states', steps' := Take(derive, states, steps, SyncDirectory, s);
    s := s.(pc := Opening(WriteKeys(uuid, pair)), generated := s.generated + [Identity(uuid, pair)]);
    states', steps' := Take(derive, states', steps', Generate(pair), s);
    states', steps' := WriteAndRename(derive, states', steps', 1);
  }

  /** The second call finds the identity in the directory as it is, and returns it. */
  lemma OtherCallReturns(derive: Derivation, random: Uuid, pair: KeyPair) returns (states: seq<State>, steps: seq<Step>)
    requires Genuine(derive, pair)
    ensures IsRun(derive, states, steps) && |steps| >= 1 && steps[|steps| - 1] == Inspect(random)
    ensures var uuid := ToText(GeneratedUuid(random));
            var marked := Renamed(EMPTY_DISK, WriteIdentity(uuid), 0);
            var keyed := Renamed(marked.(durable := marked.entries), WriteKeys(uuid, pair), 1);
            states[|steps|] == State(keyed, Outside, [Identity(uuid, pair)], [Identity(uuid, pair)], {})
  {
    var identity := Identity(ToText(GeneratedUuid(random)), pair);
    states, steps := CreatorIsKilled(derive, random, pair);
    var s := states[|steps|];
    ManifestIsMarked(identity.uuid);
    KeyRecordIsReadBack(identity.uuid, pair, derive);
    states, steps := Take(derive, states, steps, Enter(2), s.(pc := Inspecting, waiting := {}));
    states, steps := Take(derive, states, steps, Inspect(random), s.(waiting := {}, returned := [identity]));
  }

  /** The flush can come too early: in this run the second call returns the identity it finds,
      and a crash then leaves a directory in which every call is refused. */
  lemma FoundIdentityCanBeLost(derive: Derivation, random: Uuid, pair: KeyPair) returns (states: seq<State>, steps: seq<Step>)
    requires Genuine(derive, pair)
    ensures IsRun(derive, states, steps) && |steps| >= 2
    ensures var n := |steps|;
            && steps[n - 2] == Inspect(random) && steps[n - 1] == Crash
            && states[n - 1].returned == [Identity(ToText(GeneratedUuid(random)), pair)]
            && forall later :: Inspection(states[n].disk, derive, later) == Refuse
  {
    states, steps := OtherCallReturns(derive, random, pair);
    var s := states[|steps|];
    DurableMayBeAllThatIsLeft(s.disk);
    ManifestIsMarked(ToText(GeneratedUuid(random)));
    states, steps := Take(derive, states, steps, Crash, s.(disk := Worst(s.disk)));
  }
}
