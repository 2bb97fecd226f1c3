/** The trust store itself: each operation runs its SQL statements one by one on a working
    copy of the tables and publishes that copy only when the transaction commits. */
module TrustStore {
  import opened Bytes
  import opened TrustTables
  import opened TrustHistory

  /** The storage layer (file checks, locking, each statement, the commit) never fails; a
      failure aborts the transaction. */
  ghost predicate NoFault(fault: Faults) {
    forall n :: !fault(n)
  }

  // ---- Single statements; `None` is a constraint violation ----

  function InsertDevice(db: Database, uuid: Uuid, row: DeviceRow): (r: Option<Database>) {
    if uuid in db.devices || KeyInUse(db, row.publicKey) || !DeviceChecks(row) then None
    else Some(db.(devices := db.devices[uuid := row]))
  }

  /** An UPDATE of the device row `uuid`; its WHERE clause has been evaluated already. */
  function ReplaceDevice(db: Database, uuid: Uuid, row: DeviceRow): (r: Option<Database>)
    requires uuid in db.devices && db.devices[uuid].publicKey == row.publicKey
  {
    if !DeviceChecks(row) then None else Some(db.(devices := db.devices[uuid := row]))
  }

  function ClearDevicePermissions(db: Database, uuid: Uuid): (r: Database) {
    db.(devicePermissions := Without(db.devicePermissions, uuid))
  }

  function InsertPermission(table: set<(Uuid, Text)>, parents: set<Uuid>, id: Uuid, p: Text): (r: Option<set<(Uuid, Text)>>) {
    if !Bindable(p) || !PermissionChecks(p) || id !in parents || (id, p) in table then None
    else Some(table + {(id, p)})
  }

  /** Inserts permissions one row at a time. */
  method WritePermissions(table: set<(Uuid, Text)>, parents: set<Uuid>, id: Uuid, permissions: seq<Text>, fault: Faults, step: nat)
    returns (r: Option<set<(Uuid, Text)>>)
    requires id in parents && Without(table, id) == table
    ensures r.Some? ==> Writable(permissions) && r.value == table + RowsOf(id, permissions)
    ensures NoFault(fault) && Writable(permissions) ==> r.Some?
  {
    if |permissions| > 128 { return None; }
    assert forall p :: (id, p) !in Without(table, id);
    var rows := table;
    for i := 0 to |permissions|
      invariant rows == table + RowsOf(id, permissions[..i])
      invariant forall k :: 0 <= k < i ==> Bindable(permissions[k]) && PermissionChecks(permissions[k])
      invariant Distinct(permissions[..i])
    {
      var p := permissions[i];
      assert (id, p) in rows <==> p in permissions[..i];
      assert permissions[..i + 1] == permissions[..i] + [p];
      var next := InsertPermission(rows, parents, id, p);
      if fault(step + i) || next.None? { return None; }
      rows := next.value;
    }
    assert permissions[..|permissions|] == permissions;
    r := Some(rows);
  }

  /** Fetches the permissions of an attempt, or of an ACTIVE device, in `ORDER BY` order. */
  method ReadPermissions(db: Database, id: Uuid, attempt: bool) returns (result: seq<Text>)
    ensures attempt ==> result == Sorted(PermissionsOf(db.attemptPermissions, id))
    ensures !attempt ==> result == if IsActive(db, id) then Sorted(PermissionsOf(db.devicePermissions, id)) else []
  {
    if !attempt && !IsActive(db, id) { return []; }
    var rows := PermissionsOf(if attempt then db.attemptPermissions else db.devicePermissions, id);
    var unread := rows;
    result := [];
    while unread != {}
      invariant unread <= rows && StrictlySorted(result)
      invariant forall x :: x in result <==> x in rows - unread
      invariant forall y, x :: y in result && x in unread ==> Less(y, x)
      decreases |unread|
    {
      ghost var least := LeastExists(unread);
      var next :| next in unread && IsLeast(next, unread);
      Trichotomy(next, next);
      ghost var seen, left := result, unread;
      result := result + [next];
      unread := unread - {next};
      forall y, x | y in result && x in unread
        ensures Less(y, x)
      {
        if y == next { LeastIsBelow(next, left, x); } else { assert y in seen; }
      }
    }
    SortedIsUnique(result, Sorted(rows));
  }

  // ---- The statements of each operation, on a working copy ----

  method RunImport(db: Database, device: TrustedDevice, fault: Faults) returns (r: Option<Database>)
    requires Consistent(db)
    ensures r.Some? ==> r == Effect(Import(device), db)
    ensures NoFault(fault) && Effect(Import(device), db).Some? ==> r.Some?
  {
    if device.row.revision != 1 || fault(0) || !DeviceBindable(device) { return None; }
    var inserted := InsertDevice(db, device.uuid, device.row);
    if fault(1) || inserted.None? { return None; }
    var working := inserted.value;
    NoRowsForStrangers(db, device.uuid);
    var rows := WritePermissions(working.devicePermissions, working.devices.Keys, device.uuid, device.permissions, fault, 3);
    if rows.None? || fault(2) { return None; }
    r := Some(working.(devicePermissions := rows.value));
  }

  method RunUpdateDevice(db: Database, device: TrustedDevice, expected: Int64, fault: Faults) returns (r: Option<Database>)
    requires Consistent(db)
    ensures r.Some? ==> r == Effect(UpdateDevice(device, expected), db)
    ensures NoFault(fault) && Effect(UpdateDevice(device, expected), db).Some? ==> r.Some?
  {
    if !NextRevision(device.row.revision, expected) || fault(0) || !DeviceBindable(device) || fault(1) { return None; }
    if device.uuid !in db.devices { return None; }
    var stored := db.devices[device.uuid];
    if stored.publicKey != device.row.publicKey || stored.status != device.row.status || stored.revision != expected {
      return None;
    }
    var replaced := ReplaceDevice(db, device.uuid, device.row);
    if replaced.None? || fault(2) { return None; }
    var working := ClearDevicePermissions(replaced.value, device.uuid);
    var rows := WritePermissions(working.devicePermissions, working.devices.Keys, device.uuid, device.permissions, fault, 4);
    if rows.None? || fault(3) { return None; }
    r := Some(working.(devicePermissions := rows.value));
  }

  method RunRevoke(db: Database, uuid: Uuid, expected: Int64, revokedAt: Int64, fault: Faults) returns (r: Option<Database>)
    requires Consistent(db)
    ensures r.Some? ==> r == Effect(Revoke(uuid, expected, revokedAt), db)
    ensures NoFault(fault) && Effect(Revoke(uuid, expected, revokedAt), db).Some? ==> r.Some?
  {
    if expected <= 0 || expected >= INT64_MAX || fault(0) || fault(1) { return None; }
    if uuid !in db.devices || db.devices[uuid].revision != expected { return None; }
    var row := db.devices[uuid].(status := Revoked, revision := expected + 1, revokedAt := Some(revokedAt));
    var replaced := ReplaceDevice(db, uuid, row);
    if replaced.None? || fault(2) { return None; }
    var working := ClearDevicePermissions(replaced.value, uuid);
    assert working == WithDevice(db, uuid, row, []);
    if fault(3) { return None; }
    r := Some(working);
  }

  method RunCreateAttempt(db: Database, attempt: PairingAttempt, fault: Faults) returns (r: Option<Database>)
    requires Consistent(db)
    ensures r.Some? ==> r == Effect(CreateAttempt(attempt), db)
    ensures NoFault(fault) && Effect(CreateAttempt(attempt), db).Some? ==> r.Some?
  {
    if attempt.row.revision != 1 || fault(0) || fault(1) { return None; }
    if attempt.id in db.attempts || !AttemptChecks(attempt.row) { return None; }
    var working := db.(attempts := db.attempts[attempt.id := attempt.row]);
    NoRowsForStrangers(db, attempt.id);
    var rows := WritePermissions(working.attemptPermissions, working.attempts.Keys, attempt.id, attempt.proposedPermissions, fault, 3);
    if rows.None? || fault(2) { return None; }
    r := Some(working.(attemptPermissions := rows.value));
  }

  method RunUpdateAttempt(db: Database, attempt: PairingAttempt, expected: Int64, fault: Faults) returns (r: Option<Database>)
    requires Consistent(db)
    ensures r.Some? ==> r == Effect(UpdateAttempt(attempt, expected), db)
    ensures NoFault(fault) && Effect(UpdateAttempt(attempt, expected), db).Some? ==> r.Some?
  {
    if !NextRevision(attempt.row.revision, expected) || fault(0) || fault(1) { return None; }
    if attempt.id !in db.attempts { return None; }
    var stored := db.attempts[attempt.id];
    if stored.peerUuid != attempt.row.peerUuid || stored.peerPublicKey != attempt.row.peerPublicKey
       || stored.createdAt != attempt.row.createdAt || stored.revision != expected || !AttemptChecks(attempt.row) {
      return None;
    }
    var working := db.(attempts := db.attempts[attempt.id := attempt.row]);
    if fault(2) { return None; }
    working := working.(attemptPermissions := Without(working.attemptPermissions, attempt.id));
    var rows := WritePermissions(working.attemptPermissions, working.attempts.Keys, attempt.id, attempt.proposedPermissions, fault, 4);
    if rows.None? || fault(3) { return None; }
    r := Some(working.(attemptPermissions := rows.value));
  }

  /** Deleting an attempt deletes its permissions with it. */
  method RunDeleteAttempt(db: Database, id: Uuid, expected: Int64, fault: Faults) returns (r: Option<Database>)
    ensures r.Some? ==> r == Effect(DeleteAttempt(id, expected), db)
    ensures NoFault(fault) && Effect(DeleteAttempt(id, expected), db).Some? ==> r.Some?
  {
    if fault(0) || fault(1) || id !in db.attempts || db.attempts[id].revision != expected || fault(2) { return None; }
    r := Some(WithoutAttempt(db, id));
  }

  /** Writes the peer's row and copies the attempt's permissions to it; the copy itself
      can fail only through the storage layer. */
  method GrantTrust(db: Database, id: Uuid, f: PairingFinalization, now: Int64, fault: Faults) returns (r: Option<Database>)
    requires Consistent(db) && id in db.attempts && now >= 0
    ensures r.Some? ==> MayBecomeActive(db, f) && LabelsBindable(f.labels) && LabelChecks(f.labels)
    ensures r.Some? ==> r.value == WithFinalizedPeer(db, id, f, now)
    ensures NoFault(fault) && MayBecomeActive(db, f) && LabelsBindable(f.labels) && LabelChecks(f.labels) ==> r.Some?
  {
    var permissions := ReadPermissions(db, id, true);
    AttemptPermissionsAreWritable(db, id);
    if fault(2) || !LabelsBindable(f.labels) { return None; }
    var written := ActivatePeer(db, f, now);
    if written.None? || fault(3) { return None; }
    var working := ClearDevicePermissions(written.value, f.peerUuid);
    var rows := WritePermissions(working.devicePermissions, working.devices.Keys, f.peerUuid, permissions, fault, 6);
    if rows.None? { return None; }
    r := Some(working.(devicePermissions := rows.value));
  }

  /** `now` and `completion` are the two clock readings of the transaction. */
  method RunFinalize(db: Database, id: Uuid, expected: Int64, f: PairingFinalization, now: Int64, completion: Int64, fault: Faults)
    returns (r: Option<Database>)
    requires Consistent(db)
    ensures r.Some? ==> r == Effect(Finalize(id, expected, f, now, completion), db)
    ensures NoFault(fault) && Effect(Finalize(id, expected, f, now, completion), db).Some? ==> r.Some?
  {
    if expected <= 0 || fault(0) || now < 0 || fault(1) { return None; }
    if id !in db.attempts || !Finalizable(db.attempts[id], expected, f, now) { return None; }
    var working := GrantTrust(db, id, f, now, fault);
    if working.None? || completion < 0 || fault(4) || db.attempts[id].expiresAt < completion || fault(5) { return None; }
    r := Some(WithoutAttempt(working.value, id));
  }

  // ---- The store ----

  class Store {
    var db: Database
    var localGeneration: nat
    var dataVersion: nat
    /** Every commit to the database since this instance opened it. */
    ghost var history: History

    ghost predicate Valid()
      reads this
    {
      Consistent(db) && Records(history, db, localGeneration, dataVersion)
    }

    /** Opens a database that holds `base`; the counters start at zero. */
    constructor (base: Database)
      requires Consistent(base)
      ensures Valid() && history == History([base], [])
    {
      db, localGeneration, dataVersion, history := base, 0, 0, History([base], []);
    }

    /** Ends a transaction: publishes the working copy if there is one, rolls back if not. */
    method Conclude(ghost op: Op, working: Option<Database>, bump: bool)
      requires Valid() && bump == ChangesTrust(op) && (working.Some? ==> working == Effect(op, db))
      modifies this
      ensures Valid() && dataVersion == old(dataVersion)
      ensures working.Some? ==>
                && Some(db) == working && history == Extended(old(history), Commit(op, true), db)
                && localGeneration == Bumped(old(localGeneration), bump, TWO_64)
      ensures working.None? ==> unchanged(this)
    {
      if working.Some? {
        CommitIsRecorded(history, db, localGeneration, dataVersion, Commit(op, true), working.value);
        db, history := working.value, Extended(history, Commit(op, true), working.value);
        localGeneration := Bumped(localGeneration, bump, TWO_64);
      }
    }

    /** A commit made through another connection. */
    method ExternalCommit(ghost op: Op, working: Database)
      requires Valid() && Some(working) == Effect(op, db)
      modifies this
      ensures Valid() && db == working && localGeneration == old(localGeneration)
      ensures history == Extended(old(history), Commit(op, false), working)
    {
      CommitIsRecorded(history, db, localGeneration, dataVersion, Commit(op, false), working);
      db, history := working, Extended(history, Commit(op, false), working);
      dataVersion := Bumped(dataVersion, true, TWO_32);
    }

    /** What a store operation promises: it either commits the whole effect of `op` or
        leaves the tables, the counters and the history alone. */
    twostate predicate Atomic(op: Op, ok: bool)
      reads this
    {
      if ok then
        && Effect(op, old(db)) == Some(db) && dataVersion == old(dataVersion)
        && history == Extended(old(history), Commit(op, true), db)
        && localGeneration == Bumped(old(localGeneration), ChangesTrust(op), TWO_64)
      else unchanged(this)
    }

    method ImportDeviceForAdmin(device: TrustedDevice, fault: Faults) returns (ok: bool)
      requires Valid()
      modifies this
      ensures Valid() && Atomic(Op.Import(device), ok)
      ensures NoFault(fault) && Effect(Op.Import(device), old(db)).Some? ==> ok
    {
      var working := RunImport(db, device, fault);
      ok := working.Some?;
      Conclude(Op.Import(device), working, true);
    }

    method UpdateDevice(device: TrustedDevice, expected: Int64, fault: Faults) returns (ok: bool)
      requires Valid()
      modifies this
      ensures Valid() && Atomic(Op.UpdateDevice(device, expected), ok)
      ensures NoFault(fault) && Effect(Op.UpdateDevice(device, expected), old(db)).Some? ==> ok
    {
      var working := RunUpdateDevice(db, device, expected, fault);
      ok := working.Some?;
      Conclude(Op.UpdateDevice(device, expected), working, true);
    }

    method RevokeDevice(uuid: Uuid, expected: Int64, revokedAt: Int64, fault: Faults) returns (ok: bool)
      requires Valid()
      modifies this
      ensures Valid() && Atomic(Op.Revoke(uuid, expected, revokedAt), ok)
      ensures ok ==> forall key :: FindActive(db, uuid, key) == None
      ensures NoFault(fault) && Effect(Op.Revoke(uuid, expected, revokedAt), old(db)).Some? ==> ok
    {
      var working := RunRevoke(db, uuid, expected, revokedAt, fault);
      ok := working.Some?;
      Conclude(Op.Revoke(uuid, expected, revokedAt), working, true);
    }

    method CreateAttempt(attempt: PairingAttempt, fault: Faults) returns (ok: bool)
      requires Valid()
      modifies this
      ensures Valid() && Atomic(Op.CreateAttempt(attempt), ok)
      ensures NoFault(fault) && Effect(Op.CreateAttempt(attempt), old(db)).Some? ==> ok
    {
      var working := RunCreateAttempt(db, attempt, fault);
      ok := working.Some?;
      Conclude(Op.CreateAttempt(attempt), working, false);
    }

    method UpdateAttempt(attempt: PairingAttempt, expected: Int64, fault: Faults) returns (ok: bool)
      requires Valid()
      modifies this
      ensures Valid() && Atomic(Op.UpdateAttempt(attempt, expected), ok)
      ensures NoFault(fault) && Effect(Op.UpdateAttempt(attempt, expected), old(db)).Some? ==> ok
    {
      var working := RunUpdateAttempt(db, attempt, expected, fault);
      ok := working.Some?;
      Conclude(Op.UpdateAttempt(attempt, expected), working, false);
    }

    method DeleteAttempt(id: Uuid, expected: Int64, fault: Faults) returns (ok: bool)
      requires Valid()
      modifies this
      ensures Valid() && Atomic(Op.DeleteAttempt(id, expected), ok)
      ensures NoFault(fault) && Effect(Op.DeleteAttempt(id, expected), old(db)).Some? ==> ok
    {
      var working := RunDeleteAttempt(db, id, expected, fault);
      ok := working.Some?;
      Conclude(Op.DeleteAttempt(id, expected), working, false);
    }

    method FinalizePairing(id: Uuid, expected: Int64, f: PairingFinalization, now: Int64, completion: Int64, fault: Faults) returns (ok: bool)
      requires Valid()
      modifies this
      ensures Valid() && Atomic(Op.Finalize(id, expected, f, now, completion), ok)
      ensures NoFault(fault) && Effect(Op.Finalize(id, expected, f, now, completion), old(db)).Some? ==> ok
    {
      var working := RunFinalize(db, id, expected, f, now, completion, fault);
      ok := working.Some?;
      Conclude(Op.Finalize(id, expected, f, now, completion), working, true);
    }

    method FindActiveAuthorization(uuid: Uuid, key: Key) returns (result: Option<Authorization>)
      requires Valid()
      ensures result == FindActive(db, uuid, key)
    {
      if uuid !in db.devices || db.devices[uuid].publicKey != key || db.devices[uuid].status != Active { return None; }
      var permissions := ReadPermissions(db, uuid, false);
      result := Some(Authorization(db.devices[uuid].revision, permissions));
    }

    method ReadChangeToken() returns (token: ChangeToken)
      requires Valid()
      ensures token == TokenAt(history, |history.commits|)
    {
      token := ChangeToken(localGeneration, dataVersion);
    }
  }

  /** The insert of a new peer or the update that reactivates a revoked one. */
  function ActivatePeer(db: Database, f: PairingFinalization, now: Int64): (r: Option<Database>)
    requires now >= 0
    ensures r.Some? <==> MayBecomeActive(db, f) && LabelChecks(f.labels)
    ensures r.Some? ==> r.value == db.(devices := db.devices[f.peerUuid := FinalRow(f, FinalRevision(db, f), now)])
  {
    if f.peerUuid in db.devices then
      var known := db.devices[f.peerUuid];
      if known.publicKey != f.peerPublicKey || known.status != Revoked then None
      else if known.revision <= 0 || known.revision >= INT64_MAX then None
      else ReplaceDevice(db, f.peerUuid, FinalRow(f, known.revision + 1, now))
    else InsertDevice(db, f.peerUuid, FinalRow(f, 1, now))
  }

  lemma NoRowsForStrangers(db: Database, id: Uuid)
    requires Consistent(db)
    ensures id !in db.devices ==> Without(db.devicePermissions, id) == db.devicePermissions
    ensures id !in db.attempts ==> Without(db.attemptPermissions, id) == db.attemptPermissions
  {
  }

  ghost function Extended(h: History, c: Commit, db: Database): (h': History) {
    History(h.states + [db], h.commits + [c])
  }

  /** `h` is a run that ends in `db`, with the counters it accounts for. */
  ghost predicate Records(h: History, db: Database, local: nat, external: nat) {
    && Legal(h) && h.states[|h.commits|] == db
    && ChangeToken(local, external) == TokenAt(h, |h.commits|)
  }

  function Bumped(n: nat, bump: bool, m: nat): (r: nat)
    requires m > 0
  {
    if bump then (n + 1) % m else n
  }

  lemma CommitIsRecorded(h: History, db: Database, local: nat, external: nat, c: Commit, db': Database)
    requires Records(h, db, local, external) && Consistent(db) && Effect(c.op, db) == Some(db')
    ensures Consistent(db')
    ensures Records(Extended(h, c, db'), db',
                    Bumped(local, c.isLocal && ChangesTrust(c.op), TWO_64), Bumped(external, !c.isLocal, TWO_32))
  {
    EffectKeepsConsistent(c.op, db);
    assert Follows(c, db, db');
    ExtendedIsLegal(h, c, db');
    ExtendedCounts(h, c, db', local, external);
  }

  lemma ExtendedIsLegal(h: History, c: Commit, db: Database)
    requires Legal(h) && Follows(c, h.states[|h.commits|], db)
    ensures Legal(Extended(h, c, db))
  {
  }

  lemma NextGeneration(a: nat)
    ensures (a % TWO_64 + 1) % TWO_64 == (a + 1) % TWO_64
  {
  }

  lemma NextVersion(a: nat)
    ensures (a % TWO_32 + 1) % TWO_32 == (a + 1) % TWO_32
  {
  }

  lemma ExtendedCounts(h: History, c: Commit, db: Database, local: nat, external: nat)
    requires ChangeToken(local, external) == TokenAt(h, |h.commits|)
    ensures TokenAt(Extended(h, c, db), |h.commits| + 1) ==
            ChangeToken(Bumped(local, c.isLocal && ChangesTrust(c.op), TWO_64), Bumped(external, !c.isLocal, TWO_32))
  {
    CountersAgree(h, Extended(h, c, db), |h.commits|);
    NextGeneration(LocalCommits(h, |h.commits|));
    NextVersion(ExternalCommits(h, |h.commits|));
  }

  lemma {:induction false} CountersAgree(h: History, h': History, i: nat)
    requires i <= |h.commits| && h.commits <= h'.commits
    ensures LocalCommits(h', i) == LocalCommits(h, i) && ExternalCommits(h', i) == ExternalCommits(h, i)
  {
    if i > 0 { CountersAgree(h, h', i - 1); }
  }
}
