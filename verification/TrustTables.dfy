/** The trust database: its four tables, the constraints of its schema and the effect each
    store operation has when it commits. */
module TrustTables {
  import opened Bytes

  const INT64_MAX := 0x7fff_ffff_ffff_ffff
  type Int64 = x: int | -INT64_MAX - 1 <= x <= INT64_MAX

  datatype Status = Active | Revoked
  datatype AttemptStatus = Pending | Confirmed | Cancelled | Expired

  datatype Labels = Labels(localAlias: Text, peerName: Text, peerPlatform: Text, pairingMethod: Text)

  datatype DeviceRow = DeviceRow(
    publicKey: Key, status: Status, revision: Int64, labels: Labels,
    pairedAt: Int64, revokedAt: Option<Int64>, lastAuthenticatedAt: Option<Int64>)

  datatype AttemptRow = AttemptRow(
    peerUuid: Uuid, peerPublicKey: Key, status: AttemptStatus, revision: Int64,
    localConfirmed: bool, peerConfirmed: bool, createdAt: Int64, updatedAt: Int64, expiresAt: Int64)

  datatype TrustedDevice = TrustedDevice(uuid: Uuid, row: DeviceRow, permissions: seq<Text>)
  datatype PairingAttempt = PairingAttempt(id: Uuid, row: AttemptRow, proposedPermissions: seq<Text>)
  datatype PairingFinalization = PairingFinalization(peerUuid: Uuid, peerPublicKey: Key, labels: Labels)

  datatype Database = Database(
    devices: map<Uuid, DeviceRow>,
    devicePermissions: set<(Uuid, Text)>,
    attempts: map<Uuid, AttemptRow>,
    attemptPermissions: set<(Uuid, Text)>)

  // ---- Schema constraints ----

  /** SQL `length` of well-formed UTF-8 text: bytes that continue a character do not count. */
  function Characters(t: Text): (n: nat) {
    if t == [] then 0 else (if 128 <= t[0] < 192 then 0 else 1) + Characters(t[1..])
  }

  /** What the statement wrapper accepts as a text parameter. */
  predicate Bindable(t: Text) {
    |t| <= 4096 && 0 !in t
  }

  predicate LabelsBindable(l: Labels) {
    Bindable(l.localAlias) && Bindable(l.peerName) && Bindable(l.peerPlatform) && Bindable(l.pairingMethod)
  }

  predicate LabelChecks(l: Labels) {
    && Characters(l.localAlias) <= 256 && Characters(l.peerName) <= 256
    && Characters(l.peerPlatform) <= 64 && 1 <= Characters(l.pairingMethod) <= 64
  }

  predicate DeviceChecks(d: DeviceRow) {
    && d.revision >= 1 && LabelChecks(d.labels) && d.pairedAt >= 0
    && (d.status.Active? ==> d.revokedAt.None?)
    && (d.status.Revoked? ==> d.revokedAt.Some? && d.revokedAt.value >= d.pairedAt)
    && (d.lastAuthenticatedAt.Some? ==> d.lastAuthenticatedAt.value >= d.pairedAt)
  }

  predicate AttemptChecks(a: AttemptRow) {
    && a.revision >= 1 && 0 <= a.createdAt <= a.updatedAt <= a.expiresAt
    && (a.status.Confirmed? ==> a.localConfirmed && a.peerConfirmed)
  }

  predicate PermissionChecks(p: Text) {
    1 <= Characters(p) <= 64
  }

  predicate KeyInUse(db: Database, key: Key) {
    exists u :: u in db.devices && db.devices[u].publicKey == key
  }

  // ---- Permission lists ----

  function PermissionsOf(table: set<(Uuid, Text)>, id: Uuid): (s: set<Text>)
    ensures forall p :: p in s <==> (id, p) in table
  {
    set r | r in table && r.0 == id :: r.1
  }

  function RowsOf(id: Uuid, permissions: seq<Text>): (rows: set<(Uuid, Text)>)
    ensures forall r :: r in rows <==> r.0 == id && r.1 in permissions
  {
    set p | p in permissions :: (id, p)
  }

  function Without(table: set<(Uuid, Text)>, id: Uuid): (rest: set<(Uuid, Text)>) {
    set r | r in table && r.0 != id
  }

  predicate Distinct(s: seq<Text>) {
    forall i, j :: 0 <= i < j < |s| ==> s[i] != s[j]
  }

  /** A list that can be written as the permissions of one parent row. */
  predicate Writable(permissions: seq<Text>) {
    && |permissions| <= 128 && Distinct(permissions)
    && forall i :: 0 <= i < |permissions| ==> Bindable(permissions[i]) && PermissionChecks(permissions[i])
  }

  ghost predicate StrictlySorted(s: seq<Text>) {
    forall i, j :: 0 <= i < j < |s| ==> Less(s[i], s[j])
  }

  predicate IsLeast(m: Text, s: set<Text>) {
    m in s && forall x :: x in s && x != m ==> Less(m, x)
  }

  lemma LeastIsBelow(m: Text, s: set<Text>, x: Text)
    requires IsLeast(m, s) && x in s && x != m
    ensures Less(m, x)
  {
  }

  lemma LeastExists(s: set<Text>) returns (m: Text)
    requires s != {}
    ensures IsLeast(m, s)
    decreases |s|
  {
    var x :| x in s;
    if s == {x} {
      m := x;
    } else {
      var y := LeastExists(s - {x});
      Trichotomy(x, y);
      m := if Less(x, y) then x else y;
      forall z | z in s && z != m
        ensures Less(m, z)
      {
        if m == x && z != y { Transitive(x, y, z); }
      }
    }
  }

  lemma LeastFirst(m: Text, s: set<Text>, rest: seq<Text>)
    requires IsLeast(m, s) && StrictlySorted(rest) && Distinct(rest)
    requires forall x :: x in rest <==> x in s - {m}
    ensures StrictlySorted([m] + rest) && Distinct([m] + rest)
    ensures forall x :: x in [m] + rest <==> x in s
  {
    var r := [m] + rest;
    forall i, j | 0 <= i < j < |r|
      ensures Less(r[i], r[j]) && r[i] != r[j]
    {
      assert r[j] == rest[j - 1] && rest[j - 1] in rest;
    }
  }

  /** The rows of an `ORDER BY permission` query. */
  ghost function Sorted(s: set<Text>): (r: seq<Text>)
    ensures StrictlySorted(r) && Distinct(r) && |r| == |s|
    ensures forall x :: x in r <==> x in s
    decreases |s|
  {
    if s == {} then [] else
      assert exists m :: IsLeast(m, s) by { var m := LeastExists(s); }
      var m :| IsLeast(m, s);
      LeastFirst(m, s, Sorted(s - {m}));
      [m] + Sorted(s - {m})
  }

  /** A set of permissions has one sorted, duplicate-free listing. */
  lemma {:induction false} SortedIsUnique(a: seq<Text>, b: seq<Text>)
    requires StrictlySorted(a) && StrictlySorted(b)
    requires forall x :: x in a <==> x in b
    ensures a == b
  {
    assert a != [] ==> a[0] in b;
    assert b != [] ==> b[0] in a;
    if a != [] {
      Trichotomy(a[0], b[0]);
      forall x ensures x in a[1..] <==> x in b[1..] {
        Trichotomy(a[0], a[0]);
        Trichotomy(b[0], b[0]);
        if x in a[1..] { assert x in b && x != a[0]; }
        if x in b[1..] { assert x in a && x != b[0]; }
      }
      SortedIsUnique(a[1..], b[1..]);
    }
  }

  // ---- Authorization lookup ----

  datatype Authorization = Authorization(revision: Int64, permissions: seq<Text>)

  ghost function FindActive(db: Database, uuid: Uuid, key: Key): (a: Option<Authorization>) {
    if uuid in db.devices && db.devices[uuid].publicKey == key && db.devices[uuid].status.Active?
    then Some(Authorization(db.devices[uuid].revision, Sorted(PermissionsOf(db.devicePermissions, uuid))))
    else None
  }

  // ---- The store invariant ----

  ghost predicate DevicesConsistent(db: Database) {
    && (forall u :: u in db.devices ==> DeviceChecks(db.devices[u]))
    && (forall u, v :: u in db.devices && v in db.devices && db.devices[u].publicKey == db.devices[v].publicKey ==> u == v)
    && (forall r :: r in db.devicePermissions ==> r.0 in db.devices && db.devices[r.0].status.Active?)
    && (forall r :: r in db.devicePermissions ==> Bindable(r.1) && PermissionChecks(r.1))
  }

  ghost predicate AttemptsConsistent(db: Database) {
    && (forall a :: a in db.attempts ==> AttemptChecks(db.attempts[a]))
    && (forall a :: a in db.attempts ==> |PermissionsOf(db.attemptPermissions, a)| <= 128)
    && (forall r :: r in db.attemptPermissions ==> r.0 in db.attempts)
    && (forall r :: r in db.attemptPermissions ==> Bindable(r.1) && PermissionChecks(r.1))
  }

  ghost predicate Consistent(db: Database) {
    DevicesConsistent(db) && AttemptsConsistent(db)
  }

  // ---- Committed effect of each operation ----

  datatype Op =
    | Import(device: TrustedDevice)
    | UpdateDevice(device: TrustedDevice, expected: Int64)
    | Revoke(uuid: Uuid, expected: Int64, revokedAt: Int64)
    | CreateAttempt(attempt: PairingAttempt)
    | UpdateAttempt(attempt: PairingAttempt, expected: Int64)
    | DeleteAttempt(id: Uuid, expected: Int64)
    | Finalize(id: Uuid, expected: Int64, finalization: PairingFinalization, now: Int64, completion: Int64)

  predicate NextRevision(revision: Int64, expected: Int64) {
    0 < expected < INT64_MAX && revision == expected + 1
  }

  predicate DeviceBindable(d: TrustedDevice) {
    (d.row.status.Revoked? ==> d.permissions == []) && LabelsBindable(d.row.labels)
  }

  function WithDevice(db: Database, uuid: Uuid, row: DeviceRow, permissions: seq<Text>): (db': Database) {
    db.(devices := db.devices[uuid := row],
        devicePermissions := Without(db.devicePermissions, uuid) + RowsOf(uuid, permissions))
  }

  function WithAttempt(db: Database, id: Uuid, row: AttemptRow, permissions: seq<Text>): (db': Database) {
    db.(attempts := db.attempts[id := row],
        attemptPermissions := Without(db.attemptPermissions, id) + RowsOf(id, permissions))
  }

  function WithoutAttempt(db: Database, id: Uuid): (db': Database) {
    db.(attempts := db.attempts - {id}, attemptPermissions := Without(db.attemptPermissions, id))
  }

  /** The attempt can be finalized at time `now` under this revision and identity. */
  predicate Finalizable(a: AttemptRow, expected: Int64, f: PairingFinalization, now: Int64) {
    && a.revision == expected && a.status.Confirmed? && a.localConfirmed && a.peerConfirmed
    && a.expiresAt >= now && a.peerUuid == f.peerUuid && a.peerPublicKey == f.peerPublicKey
  }

  /** The row `finalize_pairing` writes. */
  function FinalRow(f: PairingFinalization, revision: Int64, now: Int64): (row: DeviceRow) {
    DeviceRow(f.peerPublicKey, Active, revision, f.labels, now, None, None)
  }

  /** The peer is unknown, or known under the same key and revoked. */
  predicate MayBecomeActive(db: Database, f: PairingFinalization) {
    if f.peerUuid in db.devices then
      var known := db.devices[f.peerUuid];
      known.publicKey == f.peerPublicKey && known.status.Revoked? && 0 < known.revision < INT64_MAX
    else
      !KeyInUse(db, f.peerPublicKey)
  }

  function FinalRevision(db: Database, f: PairingFinalization): (r: Int64)
    requires MayBecomeActive(db, f)
  {
    if f.peerUuid in db.devices then db.devices[f.peerUuid].revision + 1 else 1
  }

  /** The peer trusted under the attempt's permissions, the attempt still there. */
  ghost function WithFinalizedPeer(db: Database, id: Uuid, f: PairingFinalization, now: Int64): (db': Database)
    requires MayBecomeActive(db, f)
  {
    WithDevice(db, f.peerUuid, FinalRow(f, FinalRevision(db, f), now), Sorted(PermissionsOf(db.attemptPermissions, id)))
  }

  /** The database after `op` commits, or `None` if it must fail. */
  ghost function Effect(op: Op, db: Database): (r: Option<Database>) {
    match op
    case Import(d) =>
      if d.row.revision == 1 && DeviceBindable(d) && DeviceChecks(d.row) && Writable(d.permissions)
         && d.uuid !in db.devices && !KeyInUse(db, d.row.publicKey)
      then Some(WithDevice(db, d.uuid, d.row, d.permissions)) else None
    case UpdateDevice(d, expected) =>
      if NextRevision(d.row.revision, expected) && DeviceBindable(d) && DeviceChecks(d.row) && Writable(d.permissions)
         && d.uuid in db.devices && db.devices[d.uuid].publicKey == d.row.publicKey
         && db.devices[d.uuid].status == d.row.status && db.devices[d.uuid].revision == expected
      then Some(WithDevice(db, d.uuid, d.row, d.permissions)) else None
    case Revoke(uuid, expected, revokedAt) =>
      if 0 < expected < INT64_MAX && uuid in db.devices && db.devices[uuid].revision == expected
         && revokedAt >= db.devices[uuid].pairedAt
      then Some(WithDevice(db, uuid,
             db.devices[uuid].(status := Revoked, revision := expected + 1, revokedAt := Some(revokedAt)), []))
      else None
    case CreateAttempt(a) =>
      if a.row.revision == 1 && AttemptChecks(a.row) && Writable(a.proposedPermissions) && a.id !in db.attempts
      then Some(WithAttempt(db, a.id, a.row, a.proposedPermissions)) else None
    case UpdateAttempt(a, expected) =>
      if NextRevision(a.row.revision, expected) && AttemptChecks(a.row) && Writable(a.proposedPermissions)
         && a.id in db.attempts && db.attempts[a.id].revision == expected
         && db.attempts[a.id].peerUuid == a.row.peerUuid && db.attempts[a.id].peerPublicKey == a.row.peerPublicKey
         && db.attempts[a.id].createdAt == a.row.createdAt
      then Some(WithAttempt(db, a.id, a.row, a.proposedPermissions)) else None
    case DeleteAttempt(id, expected) =>
      if id in db.attempts && db.attempts[id].revision == expected
      then Some(WithoutAttempt(db, id)) else None
    case Finalize(id, expected, f, now, completion) =>
      if expected > 0 && now >= 0 && completion >= 0 && id in db.attempts
         && Finalizable(db.attempts[id], expected, f, now) && db.attempts[id].expiresAt >= completion
         && MayBecomeActive(db, f) && LabelsBindable(f.labels) && LabelChecks(f.labels)
      then Some(WithoutAttempt(WithFinalizedPeer(db, id, f, now), id)) else None
  }

  // ---- Every operation keeps the store consistent ----

  lemma DeviceWriteKeepsConsistent(db: Database, uuid: Uuid, row: DeviceRow, permissions: seq<Text>)
    requires Consistent(db) && DeviceChecks(row) && Writable(permissions)
    requires row.status.Revoked? ==> permissions == []
    requires if uuid in db.devices then db.devices[uuid].publicKey == row.publicKey else !KeyInUse(db, row.publicKey)
    ensures Consistent(WithDevice(db, uuid, row, permissions))
  {
    var db' := WithDevice(db, uuid, row, permissions);
    assert forall u, v :: u in db'.devices && v in db'.devices && db'.devices[u].publicKey == db'.devices[v].publicKey ==> u == v;
    forall r | r in db'.devicePermissions
      ensures r.0 in db'.devices && db'.devices[r.0].status.Active? && Bindable(r.1) && PermissionChecks(r.1)
    {
      if r.0 == uuid { assert r.1 in permissions; } else { assert r in db.devicePermissions; }
    }
    assert AttemptsConsistent(db') by { AttemptsFrame(db, db'); }
  }

  lemma AttemptsFrame(db: Database, db': Database)
    requires AttemptsConsistent(db) && db'.attempts == db.attempts && db'.attemptPermissions == db.attemptPermissions
    ensures AttemptsConsistent(db')
  {
  }

  lemma {:induction false} ListingBoundsSet(s: set<Text>, list: seq<Text>)
    requires forall x :: x in s ==> x in list
    ensures |s| <= |list|
    decreases |list|
  {
    if list == [] {
      assert s == {};
    } else {
      ListingBoundsSet(s - {list[0]}, list[1..]);
      assert s <= (s - {list[0]}) + {list[0]};
    }
  }

  lemma AttemptWriteKeepsConsistent(db: Database, id: Uuid, row: AttemptRow, permissions: seq<Text>)
    requires Consistent(db) && AttemptChecks(row) && Writable(permissions)
    ensures Consistent(WithAttempt(db, id, row, permissions))
  {
    var db' := WithAttempt(db, id, row, permissions);
    forall a | a in db'.attempts
      ensures |PermissionsOf(db'.attemptPermissions, a)| <= 128
    {
      if a == id {
        ListingBoundsSet(PermissionsOf(db'.attemptPermissions, a), permissions);
      } else {
        assert PermissionsOf(db'.attemptPermissions, a) == PermissionsOf(db.attemptPermissions, a);
      }
    }
    forall r | r in db'.attemptPermissions
      ensures r.0 in db'.attempts && Bindable(r.1) && PermissionChecks(r.1)
    {
      if r.0 == id { assert r.1 in permissions; } else { assert r in db.attemptPermissions; }
    }
  }

  lemma AttemptDeleteKeepsConsistent(db: Database, id: Uuid)
    requires Consistent(db)
    ensures Consistent(WithoutAttempt(db, id))
  {
    var db' := WithoutAttempt(db, id);
    forall a | a in db'.attempts
      ensures |PermissionsOf(db'.attemptPermissions, a)| <= 128
    {
      assert PermissionsOf(db'.attemptPermissions, a) == PermissionsOf(db.attemptPermissions, a);
    }
  }

  /** The copy of an attempt's permissions can always be written: it has at most 128
      distinct entries that already passed the same checks. */
  lemma AttemptPermissionsAreWritable(db: Database, id: Uuid)
    requires Consistent(db) && id in db.attempts
    ensures Writable(Sorted(PermissionsOf(db.attemptPermissions, id)))
  {
    var list := Sorted(PermissionsOf(db.attemptPermissions, id));
    forall i | 0 <= i < |list|
      ensures Bindable(list[i]) && PermissionChecks(list[i])
    {
      assert list[i] in list;
      assert (id, list[i]) in db.attemptPermissions;
    }
  }

  lemma FinalizeKeepsConsistent(op: Op, db: Database)
    requires Consistent(db) && op.Finalize? && Effect(op, db).Some?
    ensures Consistent(Effect(op, db).value)
  {
    var id, f := op.id, op.finalization;
    AttemptPermissionsAreWritable(db, id);
    var permissions := Sorted(PermissionsOf(db.attemptPermissions, id));
    var row := FinalRow(f, FinalRevision(db, f), op.now);
    DeviceWriteKeepsConsistent(db, f.peerUuid, row, permissions);
    AttemptDeleteKeepsConsistent(WithDevice(db, f.peerUuid, row, permissions), id);
  }

  lemma EffectKeepsConsistent(op: Op, db: Database)
    requires Consistent(db) && Effect(op, db).Some?
    ensures Consistent(Effect(op, db).value)
  {
    match op
    case Import(d) => DeviceWriteKeepsConsistent(db, d.uuid, d.row, d.permissions);
    case UpdateDevice(d, expected) => DeviceWriteKeepsConsistent(db, d.uuid, d.row, d.permissions);
    case Revoke(uuid, expected, revokedAt) =>
      var row := db.devices[uuid].(status := Revoked, revision := expected + 1, revokedAt := Some(revokedAt));
      DeviceWriteKeepsConsistent(db, uuid, row, []);
    case CreateAttempt(a) => AttemptWriteKeepsConsistent(db, a.id, a.row, a.proposedPermissions);
    case UpdateAttempt(a, expected) => AttemptWriteKeepsConsistent(db, a.id, a.row, a.proposedPermissions);
    case DeleteAttempt(id, expected) => AttemptDeleteKeepsConsistent(db, id);
    case Finalize(_, _, _, _, _) => FinalizeKeepsConsistent(op, db);
  }
}
