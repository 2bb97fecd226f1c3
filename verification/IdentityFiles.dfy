/** The identity and key files: their formats, the crash-prone directory that holds them and
    the creation protocol, one step per system call. */
module IdentityFiles {
  import opened Bytes
  import opened UuidCodec

  // ---- File formats ----

  const IDENTITY_MARKER: Text := [10, 101, 100, 50, 53, 53, 49, 57, 45, 118, 49, 10]
  const KEY_MAGIC: Text := [71, 65, 83, 79, 76, 73, 78, 69, 45, 69, 68, 50, 53, 53, 49, 57, 45, 86, 49, 10]
  const PUBLIC_KEY_SIZE := 32
  const PRIVATE_KEY_SIZE := 64
  const KEY_FILE_SIZE := 152
  const IDENTITY_CAPACITY := 64

  datatype KeyPair = KeyPair(publicKey: Text, privateKey: Text) {
    predicate HasSizes() {
      |publicKey| == PUBLIC_KEY_SIZE && |privateKey| == PRIVATE_KEY_SIZE
    }
  }

  /** The key pair that the signature library derives from the seed inside a private key. */
  type Derivation = Text -> KeyPair

  predicate Genuine(derive: Derivation, pair: KeyPair) {
    pair.HasSizes() && derive(pair.privateKey) == pair
  }

  datatype Identity = Identity(uuid: Text, pair: KeyPair)

  datatype IdentityFile = Malformed | Unmarked(uuid: Text) | Marked(uuid: Text)

  function StripNewlines(t: Text): (r: Text)
    ensures r <= t
  {
    if t != [] && (t[|t| - 1] == 10 || t[|t| - 1] == 13) then StripNewlines(t[..|t| - 1]) else t
  }

  function ParseIdentity(t: Text): (f: IdentityFile)
    ensures f.Unmarked? || f.Marked? ==> IsUuidText(f.uuid) && f.uuid <= t
  {
    if |t| > IDENTITY_CAPACITY then Malformed
    else if |t| == UUID_SIZE + |IDENTITY_MARKER| && t[UUID_SIZE..] == IDENTITY_MARKER then
      if IsUuidText(t[..UUID_SIZE]) then Marked(t[..UUID_SIZE]) else Malformed
    else
      var u := StripNewlines(t);
      if IsUuidText(u) then Unmarked(u) else Malformed
  }

  function Manifest(uuid: Text): (t: Text) {
    uuid + IDENTITY_MARKER
  }

  function KeyRecord(uuid: Text, pair: KeyPair): (t: Text) {
    KEY_MAGIC + uuid + pair.publicKey + pair.privateKey
  }

  function ParseKeys(t: Text, uuid: Text, derive: Derivation): (pair: Option<KeyPair>)
    requires |uuid| == UUID_SIZE
  {
    if |t| != KEY_FILE_SIZE || t[..20] != KEY_MAGIC || t[20..56] != uuid then None else
      var pair := KeyPair(t[56..88], t[88..152]);
      if Genuine(derive, pair) then Some(pair) else None
  }

  lemma ManifestIsMarked(uuid: Text)
    requires IsUuidText(uuid)
    ensures ParseIdentity(Manifest(uuid)) == Marked(uuid)
  {
  }

  lemma KeyRecordIsReadBack(uuid: Text, pair: KeyPair, derive: Derivation)
    requires IsUuidText(uuid) && Genuine(derive, pair)
    ensures ParseKeys(KeyRecord(uuid, pair), uuid, derive) == Some(pair)
  {
    var t := KeyRecord(uuid, pair);
    assert t[..20] == KEY_MAGIC && t[20..56] == uuid && t[56..88] == pair.publicKey && t[88..152] == pair.privateKey;
  }

  // ---- The directory ----

  datatype Name = IdentityName | IdentityTemporary | KeysName | KeysTemporary

  /** `synced` files keep their contents across a crash. */
  datatype Inode = Inode(content: Text, synced: bool)

  /** `entries` is the directory as processes see it, `durable` what a crash must respect. */
  datatype Disk = Disk(files: map<nat, Inode>, entries: map<Name, nat>, durable: map<Name, nat>)

  function Lookup(m: map<Name, nat>, n: Name): (r: Option<nat>) {
    if n in m then Some(m[n]) else None
  }

  /** Each entry of `m` is the one in `a` or the one in `b`. */
  ghost predicate Mixes(m: map<Name, nat>, a: map<Name, nat>, b: map<Name, nat>) {
    forall n :: Lookup(m, n) == Lookup(a, n) || Lookup(m, n) == Lookup(b, n)
  }

  /** After a crash every entry is old or new, whatever the order of the updates, and files
      that were never synchronized hold anything. */
  ghost predicate AfterCrash(d: Disk, d': Disk) {
    && Mixes(d'.entries, d.entries, d.durable) && d'.durable == d'.entries
    && d'.files.Keys == d.files.Keys
    && forall i :: i in d.files ==> d'.files[i].synced && (d.files[i].synced ==> d'.files[i] == d.files[i])
  }

  function Read(d: Disk, n: Name): (t: Text) {
    if n in d.entries && d.entries[n] in d.files then d.files[d.entries[n]].content else []
  }

  // ---- The protocol ----

  /** One `atomic_write`: of the marked identity, or of the key record. */
  datatype Job = WriteIdentity(uuid: Text) | WriteKeys(uuid: Text, pair: KeyPair) {
    function Target(): Name {
      if WriteIdentity? then IdentityName else KeysName
    }
    function Temporary(): Name {
      if WriteIdentity? then IdentityTemporary else KeysTemporary
    }
    function Data(): Text {
      if WriteIdentity? then Manifest(uuid) else KeyRecord(uuid, pair)
    }
  }

  /** Where the holder of the lock file is. */
  datatype Pc =
    | Outside
    | Inspecting
    | Opening(job: Job)
    | Writing(job: Job, file: nat)
    | Renaming(job: Job, file: nat)
    | SyncingDirectory(job: Job)
    | Generating(uuid: Text)

  type Caller = nat

  /** `generated` records every key pair made, with the UUID it was made for, and `returned`
      every identity handed out. `waiting` holds the calls that have flushed the directory and
      wait for the lock file. */
  datatype State = State(disk: Disk, pc: Pc, generated: seq<Identity>, returned: seq<Identity>, waiting: set<Caller>)

  datatype Finding = Refuse | Load(identity: Identity) | Create(uuid: Text)

  /** What a call decides from the directory before it writes anything. */
  function Inspection(d: Disk, derive: Derivation, random: Uuid): (f: Finding) {
    if IdentityTemporary in d.entries || KeysTemporary in d.entries then Refuse
    else if IdentityName in d.entries then
      match ParseIdentity(Read(d, IdentityName))
      case Malformed => Refuse
      case Unmarked(uuid) => if KeysName in d.entries then Refuse else Create(uuid)
      case Marked(uuid) =>
        if KeysName !in d.entries then Refuse else
          var keys := ParseKeys(Read(d, KeysName), uuid, derive);
          if keys.None? then Refuse else Load(Identity(uuid, keys.value))
    else if KeysName in d.entries then Refuse
    else Create(ToText(GeneratedUuid(random)))
  }

  // ---- What the decision means, in terms of the files ----

  predicate NoTemporaries(d: Disk) {
    IdentityTemporary !in d.entries && KeysTemporary !in d.entries
  }

  /** Exactly the two files of an established identity, nothing half done. */
  predicate Establishes(d: Disk, derive: Derivation, identity: Identity) {
    && NoTemporaries(d) && IdentityName in d.entries && KeysName in d.entries
    && IsUuidText(identity.uuid) && Genuine(derive, identity.pair)
    && Read(d, IdentityName) == Manifest(identity.uuid) && Read(d, KeysName) == KeyRecord(identity.uuid, identity.pair)
  }

  predicate IsNewlines(t: Text) {
    forall i :: 0 <= i < |t| ==> t[i] == 10 || t[i] == 13
  }

  /** Only an identity file from before there were keys: a UUID and any newlines. */
  predicate IsLegacy(d: Disk, uuid: Text) {
    && NoTemporaries(d) && IdentityName in d.entries && KeysName !in d.entries && IsUuidText(uuid)
    && var t := Read(d, IdentityName);
    |t| <= IDENTITY_CAPACITY && uuid <= t && IsNewlines(t[|uuid|..])
  }

  predicate IsBlank(d: Disk) {
    NoTemporaries(d) && IdentityName !in d.entries && KeysName !in d.entries
  }

  lemma {:induction false} NewlinesAreStripped(uuid: Text, newlines: Text)
    requires IsUuidText(uuid) && IsNewlines(newlines)
    ensures StripNewlines(uuid + newlines) == uuid
  {
    var t := uuid + newlines;
    if newlines == [] {
      assert t == uuid;
    } else {
      assert t[..|t| - 1] == uuid + newlines[..|newlines| - 1];
      NewlinesAreStripped(uuid, newlines[..|newlines| - 1]);
    }
  }

  lemma {:induction false} OnlyNewlinesAreStripped(t: Text)
    ensures IsNewlines(t[|StripNewlines(t)|..])
  {
    var r := StripNewlines(t);
    if r != t {
      var front := t[..|t| - 1];
      OnlyNewlinesAreStripped(front);
      assert t[|r|..] == front[|r|..] + [t[|t| - 1]];
    }
  }

  lemma LegacyIsUnmarked(uuid: Text, t: Text)
    requires IsUuidText(uuid) && |t| <= IDENTITY_CAPACITY && uuid <= t && IsNewlines(t[|uuid|..])
    ensures ParseIdentity(t) == Unmarked(uuid)
  {
    assert t == uuid + t[|uuid|..];
    NewlinesAreStripped(uuid, t[|uuid|..]);
    assert IDENTITY_MARKER[1] == 101 && !IsNewlines(IDENTITY_MARKER);
  }

  lemma UnmarkedIsLegacy(t: Text)
    requires ParseIdentity(t).Unmarked?
    ensures var uuid := ParseIdentity(t).uuid;
            IsUuidText(uuid) && |t| <= IDENTITY_CAPACITY && uuid <= t && IsNewlines(t[|uuid|..])
  {
    OnlyNewlinesAreStripped(t);
  }

  lemma MarkedIsManifest(t: Text)
    requires ParseIdentity(t).Marked?
    ensures IsUuidText(ParseIdentity(t).uuid) && t == Manifest(ParseIdentity(t).uuid)
  {
  }

  lemma KeysAreRecord(t: Text, uuid: Text, derive: Derivation)
    requires |uuid| == UUID_SIZE && ParseKeys(t, uuid, derive).Some?
    ensures var pair := ParseKeys(t, uuid, derive).value;
            Genuine(derive, pair) && t == KeyRecord(uuid, pair)
  {
    assert t == t[..20] + t[20..56] + t[56..88] + t[88..152];
  }

  /** A call loads exactly an established identity, and a directory has at most one. */
  lemma LoadsIffEstablished(d: Disk, derive: Derivation, random: Uuid, identity: Identity)
    ensures Inspection(d, derive, random) == Load(identity) <==> Establishes(d, derive, identity)
  {
    if Establishes(d, derive, identity) {
      ManifestIsMarked(identity.uuid);
      KeyRecordIsReadBack(identity.uuid, identity.pair, derive);
    }
    if Inspection(d, derive, random) == Load(identity) {
      MarkedIsManifest(Read(d, IdentityName));
      KeysAreRecord(Read(d, KeysName), identity.uuid, derive);
    }
  }

  /** A call creates exactly in a blank directory, under a fresh UUID, and next to a legacy
      file, under its UUID. */
  lemma CreatesIffBlankOrLegacy(d: Disk, derive: Derivation, random: Uuid, uuid: Text)
    ensures Inspection(d, derive, random) == Create(uuid) <==>
              IsLegacy(d, uuid) || (IsBlank(d) && uuid == ToText(GeneratedUuid(random)))
  {
    var t := Read(d, IdentityName);
    if IsLegacy(d, uuid) { LegacyIsUnmarked(uuid, t); }
    if IdentityName in d.entries && ParseIdentity(t).Unmarked? { UnmarkedIsLegacy(t); }
  }

  datatype Step =
    | Flush(caller: Caller)
    | Leave(caller: Caller)
    | Enter(caller: Caller)
    | Inspect(random: Uuid)
    | OpenTemporary(file: nat)
    | WriteSome(count: nat)
    | SyncTemporary
    | Rename
    | SyncDirectory
    | Generate(pair: KeyPair)
    | Fail
    | Writeback
    | Crash

  ghost predicate Next(derive: Derivation, s: State, s': State, step: Step) {
    match step
    case Flush(caller) =>
      s' == s.(disk := s.disk.(durable := s.disk.entries), waiting := s.waiting + {caller})
    case Leave(caller) => s' == s.(waiting := s.waiting - {caller})
    case Enter(caller) =>
      s.pc.Outside? && caller in s.waiting && s' == s.(pc := Inspecting, waiting := s.waiting - {caller})
    case Inspect(random) =>
      && s.pc.Inspecting?
      && (match Inspection(s.disk, derive, random)
          case Refuse => s' == s.(pc := Outside)
          case Load(identity) => s' == s.(pc := Outside, returned := s.returned + [identity])
          case Create(uuid) => s' == s.(pc := Opening(WriteIdentity(uuid))))
    case OpenTemporary(file) =>
      && s.pc.Opening? && file !in s.disk.files && s.pc.job.Temporary() !in s.disk.entries
      && s' == s.(pc := Writing(s.pc.job, file),
                  disk := s.disk.(files := s.disk.files[file := Inode([], false)],
                                  entries := s.disk.entries[s.pc.job.Temporary() := file]))
    case WriteSome(count) =>
      && s.pc.Writing? && s.pc.file in s.disk.files
      && var written := |s.disk.files[s.pc.file].content|;
      && 0 < count && written + count <= |s.pc.job.Data()|
      && s' == s.(disk := s.disk.(files := s.disk.files[s.pc.file :=
                    Inode(s.disk.files[s.pc.file].content + s.pc.job.Data()[written..written + count], false)]))
    case SyncTemporary =>
      && s.pc.Writing? && s.pc.file in s.disk.files && |s.disk.files[s.pc.file].content| == |s.pc.job.Data()|
      && s' == s.(pc := Renaming(s.pc.job, s.pc.file),
                  disk := s.disk.(files := s.disk.files[s.pc.file := s.disk.files[s.pc.file].(synced := true)]))
    case Rename =>
      && s.pc.Renaming?
      && s' == s.(pc := SyncingDirectory(s.pc.job),
                  disk := s.disk.(entries := (s.disk.entries - {s.pc.job.Temporary()})[s.pc.job.Target() := s.pc.file]))
    case SyncDirectory =>
      && s.pc.SyncingDirectory?
      && var disk := s.disk.(durable := s.disk.entries);
      if s.pc.job.WriteIdentity? then s' == s.(pc := Generating(s.pc.job.uuid), disk := disk)
      else s' == s.(pc := Outside, disk := disk, returned := s.returned + [Identity(s.pc.job.uuid, s.pc.job.pair)])
    case Generate(pair) =>
      && s.pc.Generating? && Genuine(derive, pair)
      && s' == s.(pc := Opening(WriteKeys(s.pc.uuid, pair)), generated := s.generated + [Identity(s.pc.uuid, pair)])
    case Fail => s' == s.(pc := Outside)
    case Writeback =>
      && Mixes(s'.disk.durable, s.disk.entries, s.disk.durable)
      && s' == s.(disk := s.disk.(durable := s'.disk.durable))
    case Crash => AfterCrash(s.disk, s'.disk) && s' == s.(pc := Outside, disk := s'.disk, waiting := {})
  }

  /** A machine that has just started, with any directory contents. */
  ghost predicate Init(s: State) {
    && s.pc.Outside? && s.generated == [] && s.returned == [] && s.waiting == {} && s.disk.durable == s.disk.entries
    && (forall i :: i in s.disk.files ==> s.disk.files[i].synced)
    && (forall n :: n in s.disk.entries ==> s.disk.entries[n] in s.disk.files)
  }
}
