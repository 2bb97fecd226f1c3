/** `load_or_create` as a program over the directory. Every system call it makes is recorded
    as a step of the protocol, so what holds of all runs holds of it. */
module DeviceIdentity {
  import opened Bytes
  import opened UuidCodec
  import opened IdentityFiles
  import opened IdentitySafety
  import opened FoundIdentities

  /** Recognizes the contents of the identity file. */
  method ReadIdentityFile(contents: Text) returns (f: IdentityFile)
    ensures f == ParseIdentity(contents)
  {
    if |contents| > IDENTITY_CAPACITY { return Malformed; }
    var text := contents;
    if |text| == UUID_SIZE + |IDENTITY_MARKER| && text[UUID_SIZE..] == IDENTITY_MARKER {
      var valid := IsValidUuid(text[..UUID_SIZE]);
      return if valid then Marked(text[..UUID_SIZE]) else Malformed;
    }
    while text != [] && (text[|text| - 1] == 10 || text[|text| - 1] == 13)
      invariant StripNewlines(text) == StripNewlines(contents)
      decreases |text|
    {
      text := text[..|text| - 1];
    }
    var valid := IsValidUuid(text);
    f := if valid then Unmarked(text) else Malformed;
  }

  lemma FreshFile(files: set<nat>) returns (file: nat)
    ensures forall i :: i in files ==> i < file
  {
    if files == {} {
      file := 0;
    } else {
      var i :| i in files;
      var below := FreshFile(files - {i});
      file := if below > i then below else i + 1;
      assert forall j :: j in files ==> j == i || j in files - {i};
    }
  }

  /** Write calls that take these many bytes each get `size` bytes out; zero is a failed one. */
  predicate Completes(accepted: seq<nat>, size: nat) {
    size == 0 || (accepted != [] && accepted[0] > 0 && (size <= accepted[0] || Completes(accepted[1..], size - accepted[0])))
  }

  function Total(accepted: seq<nat>): (n: nat) {
    if accepted == [] then 0 else accepted[0] + Total(accepted[1..])
  }

  /** Calls that never fail and take enough between them complete the write. */
  lemma {:induction false} SteadyWritesComplete(accepted: seq<nat>, size: nat)
    requires (forall i :: 0 <= i < |accepted| ==> accepted[i] > 0) && Total(accepted) >= size
    ensures Completes(accepted, size)
  {
    if accepted != [] && size > accepted[0] {
      SteadyWritesComplete(accepted[1..], size - accepted[0]);
    }
  }

  /** Neither flushing the directory nor taking the lock fails. */
  predicate Opens(fault: Faults) {
    !fault(0) && !fault(1)
  }

  /** None of the calls of a write fails: creating, synchronizing and renaming the temporary,
      synchronizing the directory, and the write calls, which take all `size` bytes. */
  predicate Succeeds(fault: Faults, accepted: seq<nat>, size: nat) {
    !fault(0) && !fault(1) && !fault(2) && !fault(3) && Completes(accepted, size)
  }

  const MANIFEST_SIZE := 48

  /** Both files can be written. */
  predicate CanCreate(faultId: Faults, writesId: seq<nat>, faultKeys: Faults, writesKeys: seq<nat>) {
    Succeeds(faultId, writesId, MANIFEST_SIZE) && Succeeds(faultKeys, writesKeys, KEY_FILE_SIZE)
  }

  class Machine {
    const derive: Derivation
    var disk: Disk
    ghost var states: seq<State>
    ghost var steps: seq<Step>

    ghost predicate Valid()
      reads this
    {
      IsRun(derive, states, steps) && Now().disk == disk
    }

    ghost function Now(): (s: State)
      requires |states| == |steps| + 1
      reads this
    {
      states[|steps|]
    }

    constructor (derive: Derivation, disk: Disk)
      requires Init(State(disk, Outside, [], [], {}))
      ensures Valid() && this.derive == derive && this.disk == disk && Now() == State(disk, Outside, [], [], {})
    {
      this.derive, this.disk := derive, disk;
      states, steps := [State(disk, Outside, [], [], {})], [];
    }

    ghost method Advance(step: Step, next: State)
      requires IsRun(derive, states, steps) && Next(derive, Now(), next, step) && next.disk == disk
      modifies this`states, this`steps
      ensures Valid() && Now() == next && states == old(states) + [next] && steps == old(steps) + [step]
    {
      RunExtends(derive, states, steps, step, next);
      states, steps := states + [next], steps + [step];
    }

    /** Power loss, or the machine dying at any other point of a call. */
    method LosePower(after: Disk)
      requires Valid() && AfterCrash(disk, after)
      modifies this
      ensures Valid() && disk == after && Now() == old(Now()).(pc := Outside, disk := after, waiting := {})
    {
      disk := after;
      Advance(Crash, Now().(pc := Outside, disk := after, waiting := {}));
    }

    /** Gives up; whatever was written so far stays behind. */
    ghost method GiveUp()
      requires Valid()
      modifies this`states, this`steps
      ensures Valid() && Now() == old(Now()).(pc := Outside)
    {
      Advance(Fail, Now().(pc := Outside));
    }

    /** The write loop; each `accepted` value is what one write call takes, and zero is a
        failed one. */
    method WriteData(job: Job, file: nat, accepted: seq<nat>) returns (ok: bool)
      requires Valid() && Now().pc == Writing(job, file) && file in disk.files && disk.files[file].content == []
      modifies this
      ensures Valid() && disk.entries == old(disk.entries)
      ensures Now().generated == old(Now().generated) && Now().returned == old(Now().returned)
      ensures ok <==> Completes(accepted, |job.Data()|)
      ensures ok ==> Now().pc == Writing(job, file) && file in disk.files && |disk.files[file].content| == |job.Data()|
      ensures !ok ==> Now().pc.Outside?
    {
      var data, written, next := job.Data(), 0, 0;
      while written < |data|
        invariant Valid() && Now().pc == Writing(job, file) && next <= |accepted| && disk.entries == old(disk.entries)
        invariant Now().generated == old(Now().generated) && Now().returned == old(Now().returned)
        invariant file in disk.files && |disk.files[file].content| == written <= |data|
        invariant Completes(accepted, |data|) <==> Completes(accepted[next..], |data| - written)
        decreases |accepted| - next
      {
        if next == |accepted| || accepted[next] == 0 { GiveUp(); return false; }
        var count := if accepted[next] < |data| - written then accepted[next] else |data| - written;
        disk := disk.(files := disk.files[file := Inode(disk.files[file].content + data[written..written + count], false)]);
        Advance(WriteSome(count), Now().(disk := disk));
        written := written + count;
        next := next + 1;
      }
      ok := true;
    }

    /** Creates the temporary exclusively, writes it and synchronizes it. */
    method WriteTemporary(job: Job, fault: Faults, accepted: seq<nat>) returns (ok: bool, file: nat)
      requires Valid() && Now().pc == Opening(job)
      modifies this
      ensures Valid() && Now().generated == old(Now().generated) && Now().returned == old(Now().returned)
      ensures ok <==> !fault(0) && !fault(1) && job.Temporary() !in old(disk.entries) && Completes(accepted, |job.Data()|)
      ensures ok ==> Now().pc == Renaming(job, file) && disk.entries == old(disk.entries)[job.Temporary() := file]
      ensures !ok ==> Now().pc.Outside?
    {
      file := 0;
      if fault(0) || job.Temporary() in disk.entries { GiveUp(); return false, file; }
      ghost var unused := FreshFile(disk.files.Keys);
      assert unused !in disk.files;
      file :| file !in disk.files;
      disk := disk.(files := disk.files[file := Inode([], false)], entries := disk.entries[job.Temporary() := file]);
      Advance(OpenTemporary(file), Now().(pc := Writing(job, file), disk := disk));
      var written := WriteData(job, file, accepted);
      if !written { return false, file; }
      if fault(1) { GiveUp(); return false, file; }
      disk := disk.(files := disk.files[file := disk.files[file].(synced := true)]);
      Advance(SyncTemporary, Now().(pc := Renaming(job, file), disk := disk));
      ok := true;
    }

    /** Temporary, synchronize, rename, synchronize the directory. */
    method AtomicWrite(job: Job, fault: Faults, accepted: seq<nat>) returns (ok: bool)
      requires Valid() && Now().pc == Opening(job)
      modifies this
      ensures Valid() && Now().generated == old(Now().generated)
      ensures ok <==> job.Temporary() !in old(disk.entries) && Succeeds(fault, accepted, |job.Data()|)
      ensures ok ==> job.Temporary() !in disk.entries &&
                     forall n :: n != job.Temporary() && n != job.Target() ==> (n in disk.entries <==> n in old(disk.entries))
      ensures !ok ==> Now().pc.Outside? && Now().returned == old(Now().returned)
      ensures ok && job.WriteIdentity? ==> Now().pc == Generating(job.uuid) && Now().returned == old(Now().returned)
      ensures ok && job.WriteKeys? ==>
                && Now().pc.Outside? && Now().returned == old(Now().returned) + [Identity(job.uuid, job.pair)]
                && disk.durable == disk.entries && forall random :: Inspection(disk, derive, random) == Load(Identity(job.uuid, job.pair))
    {
      var written, file := WriteTemporary(job, fault, accepted);
      if !written { return false; }
      if fault(2) { GiveUp(); return false; }
      disk := disk.(entries := (disk.entries - {job.Temporary()})[job.Target() := file]);
      Advance(Rename, Now().(pc := SyncingDirectory(job), disk := disk));
      if fault(3) { GiveUp(); return false; }
      disk := disk.(durable := disk.entries);
      if job.WriteIdentity? {
        Advance(SyncDirectory, Now().(pc := Generating(job.uuid), disk := disk));
      } else {
        Advance(SyncDirectory, Now().(pc := Outside, disk := disk, returned := Now().returned + [Identity(job.uuid, job.pair)]));
        LastSyncIsPermanent(derive, states, steps, job);
      }
      ok := true;
    }

    /** What the directory calls for, as the source decides it. */
    method Examine(random: Uuid) returns (f: Finding)
      ensures f == Inspection(disk, derive, random)
    {
      if IdentityTemporary in disk.entries || KeysTemporary in disk.entries { return Refuse; }
      var file := Unmarked([]);
      if IdentityName in disk.entries {
        file := ReadIdentityFile(Read(disk, IdentityName));
        if file.Malformed? { return Refuse; }
      }
      var keysExist, keysRequired := KeysName in disk.entries, file.Marked?;
      if keysExist != keysRequired { return Refuse; }
      if keysRequired {
        var keys := ParseKeys(Read(disk, KeysName), file.uuid, derive);
        return if keys.None? then Refuse else Load(Identity(file.uuid, keys.value));
      }
      f := Create(if IdentityName in disk.entries then file.uuid else ToText(GeneratedUuid(random)));
    }

    /** Flushes the directory and takes the lock, which nobody else holds. */
    method OpenAndLock(caller: Caller, fault: Faults) returns (ok: bool)
      requires Valid() && Now().pc.Outside?
      modifies this
      ensures Valid() && Now().generated == old(Now().generated) && Now().returned == old(Now().returned)
      ensures ok <==> Opens(fault)
      ensures disk.entries == old(disk.entries) && disk.files == old(disk.files)
      ensures ok ==> Now().pc.Inspecting? && disk.durable == disk.entries
      ensures !ok ==> Now().pc.Outside?
    {
      if fault(0) { return false; }
      disk := disk.(durable := disk.entries);
      Advance(Flush(caller), Now().(disk := disk, waiting := Now().waiting + {caller}));
      if fault(1) {
        Advance(Leave(caller), Now().(waiting := Now().waiting - {caller}));
        return false;
      }
      Advance(Enter(caller), Now().(pc := Inspecting, waiting := Now().waiting - {caller}));
      ok := true;
    }

    /** Writes the marked identity and then the keys made for it. */
    method CreateIdentity(uuid: Text, pair: KeyPair, faultId: Faults, faultKeys: Faults, writesId: seq<nat>, writesKeys: seq<nat>)
      returns (identity: Option<Identity>)
      requires Valid() && Now().pc == Opening(WriteIdentity(uuid)) && |uuid| == UUID_SIZE && Genuine(derive, pair) && NoTemporaries(disk)
      modifies this
      ensures Valid() && Now().pc.Outside?
      ensures identity == if CanCreate(faultId, writesId, faultKeys, writesKeys) then Some(Identity(uuid, pair)) else None
      ensures identity.None? ==> Now().returned == old(Now().returned)
      ensures identity.Some? ==>
                && Now().returned == old(Now().returned) + [identity.value] && disk.durable == disk.entries
                && forall random :: Inspection(disk, derive, random) == Load(identity.value)
    {
      var marked := AtomicWrite(WriteIdentity(uuid), faultId, writesId);
      if !marked { return None; }
      Advance(Generate(pair), Now().(pc := Opening(WriteKeys(uuid, pair)), generated := Now().generated + [Identity(uuid, pair)]));
      var keyed := AtomicWrite(WriteKeys(uuid, pair), faultKeys, writesKeys);
      identity := if keyed then Some(Identity(uuid, pair)) else None;
    }

    /** Loads the identity or creates it, in one undisturbed call. `random` and `pair` are
        what the random source and the key generator yield, should they be needed. An
        established identity is returned, a legacy UUID gets keys, a blank directory gets an
        identity, and nothing else succeeds. A result is the same identity as every one
        returned before, and no crash can take it away. */
    method LoadOrCreate(caller: Caller, random: Uuid, pair: KeyPair, faultOpen: Faults, faultId: Faults, faultKeys: Faults,
                        writesId: seq<nat>, writesKeys: seq<nat>)
      returns (identity: Option<Identity>)
      requires Valid() && Now().pc.Outside? && Genuine(derive, pair)
      modifies this
      ensures Valid() && Now().pc.Outside?
      ensures identity.None? ==> Now().returned == old(Now().returned)
      ensures identity.Some? ==> Now().returned == old(Now().returned) + [identity.value]
      ensures identity.Some? ==> forall earlier :: earlier in old(Now().returned) ==> earlier == identity.value
      ensures identity.Some? ==> Survives(disk, derive, identity.value) && Establishes(disk, derive, identity.value)
      ensures forall known :: Opens(faultOpen) && Establishes(old(disk), derive, known) ==> identity == Some(known)
      ensures forall uuid :: Opens(faultOpen) && CanCreate(faultId, writesId, faultKeys, writesKeys) && IsLegacy(old(disk), uuid) ==>
                identity == Some(Identity(uuid, pair))
      ensures Opens(faultOpen) && CanCreate(faultId, writesId, faultKeys, writesKeys) && IsBlank(old(disk)) ==>
                identity == Some(Identity(ToText(GeneratedUuid(random)), pair))
      ensures identity.Some? ==> Opens(faultOpen)
      ensures identity.Some? ==>
                || Establishes(old(disk), derive, identity.value)
                || (&& CanCreate(faultId, writesId, faultKeys, writesKeys) && identity.value.pair == pair
                    && (|| IsLegacy(old(disk), identity.value.uuid)
                        || (IsBlank(old(disk)) && identity.value.uuid == ToText(GeneratedUuid(random)))))
    {
      ghost var before := disk;
      var locked := OpenAndLock(caller, faultOpen);
      if !locked { return None; }
      var finding := Examine(random);
      FindingMeans(before, disk, derive, random);
      match finding {
        case Refuse =>
          Advance(Inspect(random), Now().(pc := Outside));
          return None;
        case Load(found) =>
          Advance(Inspect(random), Now().(pc := Outside, returned := Now().returned + [found]));
          identity := Some(found);
        case Create(uuid) =>
          Advance(Inspect(random), Now().(pc := Opening(WriteIdentity(uuid))));
          identity := CreateIdentity(uuid, pair, faultId, faultKeys, writesId, writesKeys);
          if identity.None? { return; }
      }
      LoadsIffEstablished(disk, derive, random, identity.value);
      LastIsLikeAll(derive, states, steps);
      ReachableInv(derive, states, steps, |steps|);
      FoundInSyncSurvives(states[0].disk, derive, Now(), random);
      assert forall earlier :: earlier in old(Now().returned) ==> earlier in Now().returned;
    }
  }

  /** The finding in a directory that was only flushed, in terms of what was there before. */
  lemma FindingMeans(before: Disk, d: Disk, derive: Derivation, random: Uuid)
    requires d.entries == before.entries && d.files == before.files
    ensures forall known :: Inspection(d, derive, random) == Load(known) <==> Establishes(before, derive, known)
    ensures forall uuid :: Inspection(d, derive, random) == Create(uuid) <==>
              IsLegacy(before, uuid) || (IsBlank(before) && uuid == ToText(GeneratedUuid(random)))
    ensures Inspection(d, derive, random).Create? ==> NoTemporaries(d) && |Inspection(d, derive, random).uuid| == UUID_SIZE
  {
    forall known: Identity {
      LoadsIffEstablished(d, derive, random, known);
    }
    forall uuid: Text {
      CreatesIffBlankOrLegacy(d, derive, random, uuid);
    }
  }

  lemma LastSyncIsPermanent(derive: Derivation, states: seq<State>, steps: seq<Step>, job: Job)
    requires IsRun(derive, states, steps) && job.WriteKeys? && steps != []
    requires var n := |steps|; steps[n - 1].SyncDirectory? && states[n - 1].pc == SyncingDirectory(job)
    ensures forall random :: Inspection(states[|steps|].disk, derive, random) == Load(Identity(job.uuid, job.pair))
  {
    forall random: Uuid {
      CreatedIdentityIsPermanent(derive, states, steps, |steps| - 1, |steps|, random);
    }
  }

  lemma LastIsLikeAll(derive: Derivation, states: seq<State>, steps: seq<Step>)
    requires IsRun(derive, states, steps) && states[|steps|].returned != []
    ensures var all := states[|steps|].returned;
            forall earlier :: earlier in all ==> earlier == all[|all| - 1]
  {
    OneIdentity(derive, states, steps, |steps|);
  }
}
