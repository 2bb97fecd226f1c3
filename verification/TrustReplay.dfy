/** What the database says after any run, told by the run's operations alone: a device or an
    attempt is what the last operation on it made it. And when an operation commits: when it
    names the current revision and what it asks for satisfies the schema. */
module TrustReplay {
  import opened Bytes
  import opened TrustTables
  import opened TrustHistory

  // ---- Devices ----

  datatype DeviceRecord = DeviceRecord(row: DeviceRow, permissions: set<Text>)

  ghost function DeviceAt(db: Database, u: Uuid): (r: Option<DeviceRecord>) {
    if u in db.devices then Some(DeviceRecord(db.devices[u], Granted(db, u))) else None
  }

  function Listed(permissions: seq<Text>): (s: set<Text>) {
    set p | p in permissions
  }

  /** The device an operation writes. */
  function WrittenDevice(op: Op): (u: Option<Uuid>) {
    if op.Import? then Some(op.device.uuid) else Rewrites(op)
  }

  /** The revision of a device, zero while it is unknown. */
  function RevisionOf(db: Database, u: Uuid): (n: int) {
    if u in db.devices then db.devices[u].revision else 0
  }

  /** What an operation leaves of the device it writes, given the database it found. */
  ghost predicate Leaves(op: Op, before: Database, r: DeviceRecord) {
    match op
    case Import(d) => r == DeviceRecord(d.row, Listed(d.permissions))
    case UpdateDevice(d, _) => r == DeviceRecord(d.row, Listed(d.permissions))
    case Revoke(u, _, revokedAt) =>
      && u in before.devices && var known := before.devices[u];
      && r.row.status.Revoked? && r.row.revokedAt == Some(revokedAt) && r.permissions == {}
      && r.row.revision == known.revision + 1 && r.row.publicKey == known.publicKey && r.row.labels == known.labels
      && r.row.pairedAt == known.pairedAt && r.row.lastAuthenticatedAt == known.lastAuthenticatedAt
    case Finalize(id, _, f, now, _) =>
      && r.row.status.Active? && r.row.publicKey == f.peerPublicKey && r.row.labels == f.labels
      && r.row.revision == RevisionOf(before, f.peerUuid) + 1 && r.row.pairedAt == now
      && r.row.revokedAt == None && r.row.lastAuthenticatedAt == None
      && r.permissions == PermissionsOf(before.attemptPermissions, id)
    case _ => false
  }

  /** The last of the first `j` commits that writes device `u`. */
  function LastWrite(h: History, j: nat, u: Uuid): (k: Option<nat>)
    requires j <= |h.commits|
    ensures k.Some? ==> k.value < j && WrittenDevice(h.commits[k.value].op) == Some(u)
    ensures forall i :: 0 <= i < j && (k.Some? ==> k.value < i) ==> WrittenDevice(h.commits[i].op) != Some(u)
  {
    if j == 0 then None
    else if WrittenDevice(h.commits[j - 1].op) == Some(u) then Some(j - 1)
    else LastWrite(h, j - 1, u)
  }

  lemma RowsReadBack(table: set<(Uuid, Text)>, u: Uuid, permissions: seq<Text>, v: Uuid)
    ensures PermissionsOf(Without(table, u) + RowsOf(u, permissions), v) ==
            if v == u then Listed(permissions) else PermissionsOf(table, v)
  {
  }

  lemma DeviceWriteReadsBack(db: Database, u: Uuid, row: DeviceRow, permissions: seq<Text>, v: Uuid)
    ensures DeviceAt(WithDevice(db, u, row, permissions), v) ==
            if v == u then Some(DeviceRecord(row, Listed(permissions))) else DeviceAt(db, v)
  {
    RowsReadBack(db.devicePermissions, u, permissions, v);
  }

  lemma FinalizeWritesPeer(op: Op, db: Database, u: Uuid)
    requires op.Finalize? && Effect(op, db).Some?
    ensures var after := DeviceAt(Effect(op, db).value, u);
            if op.finalization.peerUuid == u then after.Some? && Leaves(op, db, after.value) else after == DeviceAt(db, u)
  {
    var f, list := op.finalization, Sorted(PermissionsOf(db.attemptPermissions, op.id));
    DeviceWriteReadsBack(db, f.peerUuid, FinalRow(f, FinalRevision(db, f), op.now), list, u);
    assert Listed(list) == PermissionsOf(db.attemptPermissions, op.id);
    var mid := WithFinalizedPeer(db, op.id, f, op.now);
    assert DeviceAt(WithoutAttempt(mid, op.id), u) == DeviceAt(mid, u);
  }

  lemma CommitWritesDevice(op: Op, db: Database, u: Uuid)
    requires Effect(op, db).Some?
    ensures var after := DeviceAt(Effect(op, db).value, u);
            if WrittenDevice(op) == Some(u) then after.Some? && Leaves(op, db, after.value) else after == DeviceAt(db, u)
  {
    match op
    case Import(d) => DeviceWriteReadsBack(db, d.uuid, d.row, d.permissions, u);
    case UpdateDevice(d, _) => DeviceWriteReadsBack(db, d.uuid, d.row, d.permissions, u);
    case Revoke(v, expected, revokedAt) =>
      var row := db.devices[v].(status := Revoked, revision := expected + 1, revokedAt := Some(revokedAt));
      DeviceWriteReadsBack(db, v, row, [], u);
    case Finalize(_, _, _, _, _) => FinalizeWritesPeer(op, db, u);
    case _ =>
  }

  lemma NextDevice(h: History, j: nat, u: Uuid)
    requires Legal(h) && j < |h.commits|
    ensures var after := DeviceAt(h.states[j + 1], u);
            if WrittenDevice(h.commits[j].op) == Some(u) then after.Some? && Leaves(h.commits[j].op, h.states[j], after.value)
            else after == DeviceAt(h.states[j], u)
  {
    assert Follows(h.commits[j], h.states[j], h.states[j + 1]);
    CommitWritesDevice(h.commits[j].op, h.states[j], u);
  }

  /** Row and permissions of a device are what the last operation on it left, or what the run
      began with if there was none. */
  lemma {:induction false} DeviceFollowsLastWrite(h: History, j: nat, u: Uuid)
    requires Legal(h) && j <= |h.commits|
    ensures match LastWrite(h, j, u)
            case None => DeviceAt(h.states[j], u) == DeviceAt(h.states[0], u)
            case Some(k) => DeviceAt(h.states[j], u).Some? && Leaves(h.commits[k].op, h.states[k], DeviceAt(h.states[j], u).value)
  {
    if j > 0 {
      NextDevice(h, j - 1, u);
      DeviceFollowsLastWrite(h, j - 1, u);
    }
  }

  /** The answer of the authorization lookup that an operation settles. */
  ghost predicate Settles(op: Op, before: Database, key: Key, answer: Option<Authorization>) {
    match op
    case Import(d) => answer == if d.row.status.Active? && d.row.publicKey == key
                                then Some(Authorization(d.row.revision, Sorted(Listed(d.permissions)))) else None
    case UpdateDevice(d, _) => answer == if d.row.status.Active? && d.row.publicKey == key
                                         then Some(Authorization(d.row.revision, Sorted(Listed(d.permissions)))) else None
    case Revoke(_, _, _) => answer == None
    case Finalize(id, _, f, _, _) =>
      && (answer.Some? <==> key == f.peerPublicKey)
      && (answer.Some? ==> && answer.value.revision == RevisionOf(before, f.peerUuid) + 1
                           && answer.value.permissions == Sorted(PermissionsOf(before.attemptPermissions, id)))
    case _ => false
  }

  lemma LeavesSettles(op: Op, before: Database, after: Database, u: Uuid, key: Key)
    requires DeviceAt(after, u).Some? && Leaves(op, before, DeviceAt(after, u).value)
    ensures Settles(op, before, key, FindActive(after, u, key))
  {
  }

  /** At every moment of every run the lookup answers what the last operation on the device
      settled, whatever else was committed. */
  lemma LookupFollowsLastWrite(h: History, j: nat, u: Uuid, key: Key)
    requires Legal(h) && j <= |h.commits|
    ensures match LastWrite(h, j, u)
            case None => FindActive(h.states[j], u, key) == FindActive(h.states[0], u, key)
            case Some(k) => Settles(h.commits[k].op, h.states[k], key, FindActive(h.states[j], u, key))
  {
    DeviceFollowsLastWrite(h, j, u);
    var k := LastWrite(h, j, u);
    if k.Some? { LeavesSettles(h.commits[k.value].op, h.states[k.value], h.states[j], u, key); }
  }

  // ---- Revocation ----

  predicate IsRevoked(db: Database, u: Uuid) {
    u in db.devices && db.devices[u].status.Revoked?
  }

  predicate FinalizesPeer(op: Op, u: Uuid) {
    op.Finalize? && op.finalization.peerUuid == u
  }

  /** Updates keep the status and imports are for unknown devices only. */
  lemma OnlyFinalizeLiftsRevocation(op: Op, db: Database, r: DeviceRecord)
    requires Effect(op, db).Some? && Leaves(op, db, r) && !op.Finalize? && IsRevoked(db, WrittenDevice(op).value)
    ensures r.row.status.Revoked?
  {
  }

  lemma RevokedUnlessFinalized(h: History, i: nat, u: Uuid)
    requires Legal(h) && i < |h.commits| && IsRevoked(h.states[i], u) && !FinalizesPeer(h.commits[i].op, u)
    ensures IsRevoked(h.states[i + 1], u)
  {
    NextDevice(h, i, u);
    if WrittenDevice(h.commits[i].op) == Some(u) {
      assert Follows(h.commits[i], h.states[i], h.states[i + 1]);
      OnlyFinalizeLiftsRevocation(h.commits[i].op, h.states[i], DeviceAt(h.states[i + 1], u).value);
    }
  }

  lemma RevokedHoldsNothing(db: Database, u: Uuid, key: Key)
    requires Consistent(db) && IsRevoked(db, u)
    ensures Granted(db, u) == {} && FindActive(db, u, key) == None
  {
    assert forall p :: (u, p) !in db.devicePermissions;
  }

  /** A revoked device is trusted under no key until a new pairing with it is finalized. */
  lemma {:induction false} RevokedIsNotTrusted(h: History, i: nat, j: nat, u: Uuid, key: Key)
    requires Legal(h) && i < j <= |h.commits| && h.commits[i].op.Revoke? && h.commits[i].op.uuid == u
    requires forall k :: i < k < j ==> !FinalizesPeer(h.commits[k].op, u)
    ensures IsRevoked(h.states[j], u) && Granted(h.states[j], u) == {} && FindActive(h.states[j], u, key) == None
    decreases j
  {
    if j == i + 1 {
      NextDevice(h, i, u);
    } else {
      RevokedIsNotTrusted(h, i, j - 1, u, key);
      RevokedUnlessFinalized(h, j - 1, u);
    }
    ReachableIsConsistent(h, j);
    RevokedHoldsNothing(h.states[j], u, key);
  }

  // ---- Attempts ----

  datatype AttemptRecord = AttemptRecord(row: AttemptRow, permissions: set<Text>)

  ghost function AttemptAt(db: Database, id: Uuid): (r: Option<AttemptRecord>) {
    if id in db.attempts then Some(AttemptRecord(db.attempts[id], PermissionsOf(db.attemptPermissions, id))) else None
  }

  /** The attempt an operation writes or removes. */
  function Handles(op: Op): (id: Option<Uuid>) {
    match op
    case CreateAttempt(a) => Some(a.id)
    case UpdateAttempt(a, _) => Some(a.id)
    case DeleteAttempt(id, _) => Some(id)
    case Finalize(id, _, _, _, _) => Some(id)
    case _ => None
  }

  function LeavesAttempt(op: Op): (r: Option<AttemptRecord>) {
    match op
    case CreateAttempt(a) => Some(AttemptRecord(a.row, Listed(a.proposedPermissions)))
    case UpdateAttempt(a, _) => Some(AttemptRecord(a.row, Listed(a.proposedPermissions)))
    case _ => None
  }

  /** The last of the first `j` commits that handles attempt `id`. */
  function LastHandling(h: History, j: nat, id: Uuid): (k: Option<nat>)
    requires j <= |h.commits|
    ensures k.Some? ==> k.value < j && Handles(h.commits[k.value].op) == Some(id)
    ensures forall i :: 0 <= i < j && (k.Some? ==> k.value < i) ==> Handles(h.commits[i].op) != Some(id)
  {
    if j == 0 then None
    else if Handles(h.commits[j - 1].op) == Some(id) then Some(j - 1)
    else LastHandling(h, j - 1, id)
  }

  lemma AttemptWriteReadsBack(db: Database, id: Uuid, row: AttemptRow, permissions: seq<Text>, v: Uuid)
    ensures AttemptAt(WithAttempt(db, id, row, permissions), v) ==
            if v == id then Some(AttemptRecord(row, Listed(permissions))) else AttemptAt(db, v)
  {
    RowsReadBack(db.attemptPermissions, id, permissions, v);
  }

  lemma AttemptDeleteReadsBack(db: Database, id: Uuid, v: Uuid)
    ensures AttemptAt(WithoutAttempt(db, id), v) == if v == id then None else AttemptAt(db, v)
  {
    if v != id {
      assert PermissionsOf(Without(db.attemptPermissions, id), v) == PermissionsOf(db.attemptPermissions, v);
    }
  }

  lemma NextAttempt(h: History, j: nat, id: Uuid)
    requires Legal(h) && j < |h.commits|
    ensures AttemptAt(h.states[j + 1], id) ==
            if Handles(h.commits[j].op) == Some(id) then LeavesAttempt(h.commits[j].op) else AttemptAt(h.states[j], id)
  {
    assert Follows(h.commits[j], h.states[j], h.states[j + 1]);
    CommitHandlesAttempt(h.commits[j].op, h.states[j], id);
  }

  lemma CommitHandlesAttempt(op: Op, db: Database, id: Uuid)
    requires Effect(op, db).Some?
    ensures AttemptAt(Effect(op, db).value, id) == if Handles(op) == Some(id) then LeavesAttempt(op) else AttemptAt(db, id)
  {
    match op
    case CreateAttempt(a) => AttemptWriteReadsBack(db, a.id, a.row, a.proposedPermissions, id);
    case UpdateAttempt(a, _) => AttemptWriteReadsBack(db, a.id, a.row, a.proposedPermissions, id);
    case DeleteAttempt(v, _) => AttemptDeleteReadsBack(db, v, id);
    case Finalize(v, _, f, now, _) => AttemptDeleteReadsBack(WithFinalizedPeer(db, v, f, now), v, id);
    case _ =>
  }

  /** An attempt is what the last operation on it left: the row and permissions it was created
      or updated with, or nothing once it was deleted or consumed. */
  lemma {:induction false} AttemptFollowsLastHandling(h: History, j: nat, id: Uuid)
    requires Legal(h) && j <= |h.commits|
    ensures AttemptAt(h.states[j], id) ==
            match LastHandling(h, j, id)
            case None => AttemptAt(h.states[0], id)
            case Some(k) => LeavesAttempt(h.commits[k].op)
  {
    if j > 0 {
      NextAttempt(h, j - 1, id);
      AttemptFollowsLastHandling(h, j - 1, id);
    }
  }

  // ---- When an operation commits ----

  /** The caller saw the current revision of the row and asks for the next one. */
  predicate Advances(stored: int, expected: int, next: int) {
    0 < stored == expected && next == expected + 1
  }

  /** The operation is in turn, its texts can be stored and the schema accepts the result. */
  ghost predicate Acceptable(op: Op, db: Database) {
    match op
    case Import(d) =>
      && d.row.revision == 1 && d.uuid !in db.devices && DeviceBindable(d) && Writable(d.permissions)
      && Consistent(WithDevice(db, d.uuid, d.row, d.permissions))
    case UpdateDevice(d, expected) =>
      && d.uuid in db.devices && var known := db.devices[d.uuid];
      && Advances(known.revision, expected, d.row.revision) && d.row.status == known.status && d.row.publicKey == known.publicKey
      && DeviceBindable(d) && Writable(d.permissions) && Consistent(WithDevice(db, d.uuid, d.row, d.permissions))
    case Revoke(u, expected, revokedAt) =>
      && u in db.devices && Advances(db.devices[u].revision, expected, expected + 1) && expected < INT64_MAX
      && db.devices[u].pairedAt <= revokedAt
    case CreateAttempt(a) =>
      && a.row.revision == 1 && a.id !in db.attempts && Writable(a.proposedPermissions)
      && Consistent(WithAttempt(db, a.id, a.row, a.proposedPermissions))
    case UpdateAttempt(a, expected) =>
      && a.id in db.attempts && var known := db.attempts[a.id];
      && Advances(known.revision, expected, a.row.revision) && SameIdentity(known, a.row) && known.createdAt == a.row.createdAt
      && Writable(a.proposedPermissions) && Consistent(WithAttempt(db, a.id, a.row, a.proposedPermissions))
    case DeleteAttempt(id, expected) => id in db.attempts && db.attempts[id].revision == expected
    case Finalize(id, expected, f, now, completion) =>
      && id in db.attempts && var a := db.attempts[id];
      && a.revision == expected && a.status.Confirmed? && a.peerUuid == f.peerUuid && a.peerPublicKey == f.peerPublicKey
      && 0 <= now <= a.expiresAt && 0 <= completion <= a.expiresAt
      && (f.peerUuid in db.devices ==>
            && IsRevoked(db, f.peerUuid) && db.devices[f.peerUuid].publicKey == f.peerPublicKey
            && db.devices[f.peerUuid].revision < INT64_MAX)
      && (f.peerUuid !in db.devices ==> forall u :: u in db.devices ==> db.devices[u].publicKey != f.peerPublicKey)
      && LabelsBindable(f.labels) && LabelChecks(f.labels)
  }

  lemma KeyIsFree(db: Database, u: Uuid, row: DeviceRow, permissions: seq<Text>)
    requires u !in db.devices && Consistent(WithDevice(db, u, row, permissions))
    ensures !KeyInUse(db, row.publicKey)
  {
    var db' := WithDevice(db, u, row, permissions);
    assert u in db'.devices && db'.devices[u] == row;
    assert forall v :: v in db.devices ==> v in db'.devices && db'.devices[v] == db.devices[v];
  }

  lemma WrittenRowIsChecked(db: Database, u: Uuid, row: DeviceRow, permissions: seq<Text>)
    requires Consistent(WithDevice(db, u, row, permissions))
    ensures DeviceChecks(row)
  {
    assert WithDevice(db, u, row, permissions).devices[u] == row;
  }

  lemma DeviceOpCommitsIff(op: Op, db: Database)
    requires Consistent(db) && (op.Import? || op.UpdateDevice?)
    ensures Effect(op, db).Some? <==> Acceptable(op, db)
  {
    var d := op.device;
    if Acceptable(op, db) {
      WrittenRowIsChecked(db, d.uuid, d.row, d.permissions);
      if op.Import? { KeyIsFree(db, d.uuid, d.row, d.permissions); }
    } else if Effect(op, db).Some? {
      DeviceWriteKeepsConsistent(db, d.uuid, d.row, d.permissions);
    }
  }

  lemma AttemptOpCommitsIff(op: Op, db: Database)
    requires Consistent(db) && (op.CreateAttempt? || op.UpdateAttempt?)
    ensures Effect(op, db).Some? <==> Acceptable(op, db)
  {
    var a := op.attempt;
    if Acceptable(op, db) {
      var db' := WithAttempt(db, a.id, a.row, a.proposedPermissions);
      assert a.id in db'.attempts && db'.attempts[a.id] == a.row;
    } else if Effect(op, db).Some? {
      AttemptWriteKeepsConsistent(db, a.id, a.row, a.proposedPermissions);
    }
  }

  /** An operation commits exactly when it is acceptable, and is refused otherwise. */
  lemma CommitsIffAcceptable(op: Op, db: Database)
    requires Consistent(db)
    ensures Effect(op, db).Some? <==> Acceptable(op, db)
  {
    match op
    case Import(_) => DeviceOpCommitsIff(op, db);
    case UpdateDevice(_, _) => DeviceOpCommitsIff(op, db);
    case CreateAttempt(_) => AttemptOpCommitsIff(op, db);
    case UpdateAttempt(_, _) => AttemptOpCommitsIff(op, db);
    case Revoke(u, _, _) => assert u in db.devices ==> DeviceChecks(db.devices[u]);
    case Finalize(id, _, f, _, _) =>
      assert id in db.attempts ==> AttemptChecks(db.attempts[id]);
      assert f.peerUuid in db.devices ==> DeviceChecks(db.devices[f.peerUuid]);
    case DeleteAttempt(_, _) =>
  }

  /** The generation counts exactly the commits that change a trust record. */
  lemma GenerationCountsTrustChanges(op: Op, db: Database)
    requires Effect(op, db).Some?
    ensures ChangesTrust(op) <==> Effect(op, db).value.devices != db.devices
  {
    var db' := Effect(op, db).value;
    if ChangesTrust(op) {
      var u := WrittenDevice(op).value;
      assert u in db'.devices && (u in db.devices ==> db'.devices[u].revision != db.devices[u].revision);
    }
  }

  /** A commit moves the change token exactly when another connection made it or it changed a
      trust record, so the monitor is not woken by this instance's own pairing attempts. */
  lemma TokenMovesIff(h: History, i: nat)
    requires Legal(h) && i < |h.commits|
    ensures TokenAt(h, i + 1) != TokenAt(h, i) <==> !h.commits[i].isLocal || h.states[i + 1].devices != h.states[i].devices
  {
    assert Follows(h.commits[i], h.states[i], h.states[i + 1]);
    GenerationCountsTrustChanges(h.commits[i].op, h.states[i]);
    if TokenAt(h, i + 1) == TokenAt(h, i) {
      EqualTokensMeanEqualCounters(LocalCommits(h, i), ExternalCommits(h, i), LocalCommits(h, i + 1), ExternalCommits(h, i + 1));
    }
  }
}
