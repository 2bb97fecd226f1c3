/** Runs of the trust store: what any sequence of commits, local or by other connections,
    keeps true of the database. */
module TrustHistory {
  import opened Bytes
  import opened TrustTables

  /** A committed operation; `isLocal` tells this store instance from other connections. */
  datatype Commit = Commit(op: Op, isLocal: bool)

  /** A run: the database before and after each commit. */
  datatype History = History(states: seq<Database>, commits: seq<Commit>)

  ghost predicate Legal(h: History) {
    && |h.states| == |h.commits| + 1 && Consistent(h.states[0])
    && forall i :: 0 <= i < |h.commits| ==> Follows(h.commits[i], h.states[i], h.states[i + 1])
  }

  ghost predicate Follows(c: Commit, db: Database, db': Database) {
    Effect(c.op, db) == Some(db')
  }

  /** Every reachable database satisfies the store invariant. */
  lemma {:induction false} ReachableIsConsistent(h: History, i: nat)
    requires Legal(h) && i <= |h.commits|
    ensures Consistent(h.states[i])
  {
    if i > 0 {
      ReachableIsConsistent(h, i - 1);
      CommitKeepsConsistent(h, i - 1);
    }
  }

  lemma CommitKeepsConsistent(h: History, i: nat)
    requires Legal(h) && i < |h.commits| && Consistent(h.states[i])
    ensures Consistent(h.states[i + 1])
  {
    assert Follows(h.commits[i], h.states[i], h.states[i + 1]);
    EffectKeepsConsistent(h.commits[i].op, h.states[i]);
  }

  // ---- Trust records only move forward ----

  /** The known device whose row an operation rewrites, if any. */
  function Rewrites(op: Op): (u: Option<Uuid>) {
    match op
    case UpdateDevice(d, _) => Some(d.uuid)
    case Revoke(uuid, _, _) => Some(uuid)
    case Finalize(_, _, f, _, _) => Some(f.peerUuid)
    case _ => None
  }

  ghost function Granted(db: Database, u: Uuid): (s: set<Text>) {
    PermissionsOf(db.devicePermissions, u)
  }

  /** A known device keeps its row and its key; it and its permissions are left alone or it
      is rewritten under the next revision. */
  ghost predicate KeepsDevice(op: Op, db: Database, db': Database, u: Uuid) {
    u in db.devices ==>
      && u in db'.devices && db'.devices[u].publicKey == db.devices[u].publicKey
      && (if Rewrites(op) == Some(u) then db'.devices[u].revision == db.devices[u].revision + 1
          else db'.devices[u] == db.devices[u] && Granted(db', u) == Granted(db, u))
  }

  lemma CommitAdvancesDevice(op: Op, db: Database, u: Uuid)
    requires Effect(op, db).Some?
    ensures KeepsDevice(op, db, Effect(op, db).value, u)
  {
    var db' := Effect(op, db).value;
    if u in db.devices && Rewrites(op) != Some(u) {
      assert forall p :: (u, p) in db'.devicePermissions <==> (u, p) in db.devicePermissions;
      assert Granted(db', u) == Granted(db, u);
    }
  }

  /** The part of a run that concerns one device. */
  ghost predicate DeviceRun(h: History, u: Uuid) {
    && |h.states| == |h.commits| + 1
    && forall i :: 0 <= i < |h.commits| ==> KeepsDevice(h.commits[i].op, h.states[i], h.states[i + 1], u)
  }

  lemma LegalRunKeepsDevice(h: History, u: Uuid)
    requires Legal(h)
    ensures DeviceRun(h, u)
  {
    forall i | 0 <= i < |h.commits|
      ensures KeepsDevice(h.commits[i].op, h.states[i], h.states[i + 1], u)
    {
      assert Follows(h.commits[i], h.states[i], h.states[i + 1]);
      CommitAdvancesDevice(h.commits[i].op, h.states[i], u);
    }
  }

  /** Commits in `i .. j` that rewrite device `u`. */
  function Writes(h: History, i: nat, j: nat, u: Uuid): (n: nat)
    requires i <= j <= |h.commits|
    decreases j
  {
    if i == j then 0 else Writes(h, i, j - 1, u) + if Rewrites(h.commits[j - 1].op) == Some(u) then 1 else 0
  }

  lemma {:induction false} DeviceRunCountsWrites(h: History, i: nat, j: nat, u: Uuid)
    requires DeviceRun(h, u) && i <= j <= |h.commits| && u in h.states[i].devices
    ensures u in h.states[j].devices
    ensures h.states[j].devices[u].publicKey == h.states[i].devices[u].publicKey
    ensures h.states[j].devices[u].revision == h.states[i].devices[u].revision + Writes(h, i, j, u)
    ensures Writes(h, i, j, u) == 0 ==> h.states[j].devices[u] == h.states[i].devices[u]
    ensures Writes(h, i, j, u) == 0 ==> Granted(h.states[j], u) == Granted(h.states[i], u)
    decreases j
  {
    if i < j {
      DeviceRunCountsWrites(h, i, j - 1, u);
      assert KeepsDevice(h.commits[j - 1].op, h.states[j - 1], h.states[j], u);
    }
  }

  /** Over any stretch of any run a device keeps its row and its key, its revision grows by
      exactly one per commit that rewrites it, and with no such commit nothing about it changes. */
  lemma RevisionCountsWrites(h: History, i: nat, j: nat, u: Uuid)
    requires Legal(h) && i <= j <= |h.commits| && u in h.states[i].devices
    ensures u in h.states[j].devices
    ensures h.states[j].devices[u].publicKey == h.states[i].devices[u].publicKey
    ensures h.states[j].devices[u].revision == h.states[i].devices[u].revision + Writes(h, i, j, u)
    ensures Writes(h, i, j, u) == 0 ==> h.states[j].devices[u] == h.states[i].devices[u]
    ensures Writes(h, i, j, u) == 0 ==> Granted(h.states[j], u) == Granted(h.states[i], u)
  {
    LegalRunKeepsDevice(h, u);
    DeviceRunCountsWrites(h, i, j, u);
  }

  /** A snapshot of an authorization, as live sessions hold it. */
  datatype Snapshot = Snapshot(uuid: Uuid, publicKey: Key, authorization: Authorization)

  ghost predicate Current(db: Database, s: Snapshot) {
    FindActive(db, s.uuid, s.publicKey) == Some(s.authorization)
  }

  /** Equal revisions mean equal trust: nothing about the device changed in between. */
  lemma EqualRevisionsMeanEqualTrust(h: History, i: nat, j: nat, u: Uuid)
    requires Legal(h) && i <= j <= |h.commits| && u in h.states[i].devices && u in h.states[j].devices
    requires h.states[i].devices[u].revision == h.states[j].devices[u].revision
    ensures h.states[i].devices[u] == h.states[j].devices[u] && Granted(h.states[i], u) == Granted(h.states[j], u)
    ensures forall key :: FindActive(h.states[i], u, key) == FindActive(h.states[j], u, key)
  {
    RevisionCountsWrites(h, i, j, u);
  }

  /** A snapshot that stops being current never becomes current again. */
  lemma StaleStaysStale(h: History, i: nat, j: nat, k: nat, s: Snapshot)
    requires Legal(h) && i <= j <= k <= |h.commits|
    requires Current(h.states[i], s) && !Current(h.states[j], s)
    ensures !Current(h.states[k], s)
  {
    if Current(h.states[k], s) {
      RevisionCountsWrites(h, i, j, s.uuid);
      RevisionCountsWrites(h, j, k, s.uuid);
      EqualRevisionsMeanEqualTrust(h, i, j, s.uuid);
    }
  }

  // ---- The change token ----

  const TWO_64 := 0x1_0000_0000_0000_0000
  const TWO_32 := 0x1_0000_0000

  /** Operations that advance the instance's own generation counter. */
  predicate ChangesTrust(op: Op) {
    op.Import? || op.UpdateDevice? || op.Revoke? || op.Finalize?
  }

  /** Trust-changing commits of this instance among the first `i`. */
  function LocalCommits(h: History, i: nat): (n: nat)
    requires i <= |h.commits|
  {
    if i == 0 then 0 else
      LocalCommits(h, i - 1) + if h.commits[i - 1].isLocal && ChangesTrust(h.commits[i - 1].op) then 1 else 0
  }

  /** Commits of other connections among the first `i`. */
  function ExternalCommits(h: History, i: nat): (n: nat)
    requires i <= |h.commits|
  {
    if i == 0 then 0 else ExternalCommits(h, i - 1) + if h.commits[i - 1].isLocal then 0 else 1
  }

  /** The 64-bit generation and the 32-bit `data_version` that SQLite advances once per
      commit of another connection. */
  datatype ChangeToken = ChangeToken(local: int, external: int)

  function Token(local: nat, external: nat): (t: ChangeToken) {
    ChangeToken(local % TWO_64, external % TWO_32)
  }

  function TokenAt(h: History, i: nat): (t: ChangeToken)
    requires i <= |h.commits|
  {
    Token(LocalCommits(h, i), ExternalCommits(h, i))
  }

  /** Equal tokens mean equal counters unless one of them went all the way round. */
  lemma EqualTokensMeanEqualCounters(local: nat, external: nat, local': nat, external': nat)
    requires local <= local' < local + TWO_64 && external <= external' < external + TWO_32
    requires Token(local, external) == Token(local', external')
    ensures local == local' && external == external'
  {
  }

  lemma QuietCommitChangesNoTrust(h: History, i: nat)
    requires Legal(h) && i < |h.commits| && !ChangesTrust(h.commits[i].op)
    ensures h.states[i + 1].devices == h.states[i].devices
    ensures h.states[i + 1].devicePermissions == h.states[i].devicePermissions
  {
  }

  lemma {:induction false} CountersBoundChange(h: History, i: nat, j: nat)
    requires Legal(h) && i <= j <= |h.commits|
    ensures LocalCommits(h, i) <= LocalCommits(h, j) && ExternalCommits(h, i) <= ExternalCommits(h, j)
    ensures LocalCommits(h, i) == LocalCommits(h, j) && ExternalCommits(h, i) == ExternalCommits(h, j) ==>
              && h.states[i].devices == h.states[j].devices
              && h.states[i].devicePermissions == h.states[j].devicePermissions
    decreases j
  {
    if i < j {
      CountersBoundChange(h, i, j - 1);
      if !ChangesTrust(h.commits[j - 1].op) { QuietCommitChangesNoTrust(h, j - 1); }
    }
  }

  /** Two equal tokens mean that no authorization changed between the readings, unless a
      counter went all the way round in between. */
  lemma EqualTokensMeanEqualTrust(h: History, i: nat, j: nat)
    requires Legal(h) && i <= j <= |h.commits| && TokenAt(h, i) == TokenAt(h, j)
    requires LocalCommits(h, j) - LocalCommits(h, i) < TWO_64
    requires ExternalCommits(h, j) - ExternalCommits(h, i) < TWO_32
    ensures forall u, key :: FindActive(h.states[i], u, key) == FindActive(h.states[j], u, key)
  {
    CountersBoundChange(h, i, j);
    EqualTokensMeanEqualCounters(LocalCommits(h, i), ExternalCommits(h, i), LocalCommits(h, j), ExternalCommits(h, j));
  }

  // ---- Trust is conserved ----

  predicate IsActive(db: Database, u: Uuid) {
    u in db.devices && db.devices[u].status.Active?
  }

  /** Devices that one commit turned ACTIVE. */
  function Activated(db: Database, db': Database): (s: set<Uuid>) {
    set u | u in db'.devices && IsActive(db', u) && !IsActive(db, u)
  }

  /** Outside the administrative import, a commit activates a device exactly when it
      finalizes a pairing, and then just the peer of that pairing. */
  lemma OnlyFinalizeActivates(op: Op, db: Database)
    requires Effect(op, db).Some? && !op.Import?
    ensures Activated(db, Effect(op, db).value) == if op.Finalize? then {op.finalization.peerUuid} else {}
  {
  }

  lemma NextActivations(h: History, i: nat)
    requires Legal(h) && i < |h.commits| && !h.commits[i].op.Import?
    ensures |Activated(h.states[i], h.states[i + 1])| == if h.commits[i].op.Finalize? then 1 else 0
  {
    assert Follows(h.commits[i], h.states[i], h.states[i + 1]);
    OnlyFinalizeActivates(h.commits[i].op, h.states[i]);
  }

  /** Devices the first `i` commits turned ACTIVE, administrative imports left out. */
  ghost function Activations(h: History, i: nat): (n: nat)
    requires Legal(h) && i <= |h.commits|
  {
    if i == 0 then 0 else
      Activations(h, i - 1) + if h.commits[i - 1].op.Import? then 0 else |Activated(h.states[i - 1], h.states[i])|
  }

  function Finalizations(h: History, i: nat): (n: nat)
    requires i <= |h.commits|
  {
    if i == 0 then 0 else Finalizations(h, i - 1) + if h.commits[i - 1].op.Finalize? then 1 else 0
  }

  /** As many devices became ACTIVE, other than by import, as attempts were consumed. */
  lemma {:induction false} TrustIsConserved(h: History, i: nat)
    requires Legal(h) && i <= |h.commits|
    ensures Activations(h, i) == Finalizations(h, i)
  {
    if i > 0 {
      TrustIsConserved(h, i - 1);
      if !h.commits[i - 1].op.Import? { NextActivations(h, i - 1); }
    }
  }

  /** A consumed attempt was CONFIRMED by both sides, unexpired at both clock readings and
      bound to the activated UUID and key; it is gone afterwards, and the peer holds its
      permissions, sorted and without duplicates. */
  lemma ConsumedAttemptWasConfirmed(h: History, i: nat)
    requires Legal(h) && i < |h.commits| && h.commits[i].op.Finalize?
    ensures var op, before, after := h.commits[i].op, h.states[i], h.states[i + 1];
            && op.id in before.attempts && op.id !in after.attempts
            && var a := before.attempts[op.id];
            && a.status.Confirmed? && a.localConfirmed && a.peerConfirmed
            && a.expiresAt >= op.now && a.expiresAt >= op.completion
            && FindActive(after, a.peerUuid, a.peerPublicKey) == Some(Authorization(
                 if a.peerUuid in before.devices then before.devices[a.peerUuid].revision + 1 else 1,
                 Sorted(PermissionsOf(before.attemptPermissions, op.id))))
  {
    var op, before, after := h.commits[i].op, h.states[i], h.states[i + 1];
    assert Follows(h.commits[i], before, after);
    var a := before.attempts[op.id];
    var list := Sorted(PermissionsOf(before.attemptPermissions, op.id));
    assert Granted(after, a.peerUuid) == PermissionsOf(before.attemptPermissions, op.id) by {
      assert forall p :: (a.peerUuid, p) in after.devicePermissions <==> p in list;
    }
  }

  /** The last of the first `i` commits that created an attempt with this id. */
  function Creation(h: History, i: nat, id: Uuid): (c: Option<nat>)
    requires i <= |h.commits|
    ensures c.Some? ==> c.value < i && Creates(h.commits[c.value].op, id)
    ensures forall k :: 0 <= k < i && (c.Some? ==> c.value < k) ==> !Creates(h.commits[k].op, id)
  {
    if i == 0 then None
    else if Creates(h.commits[i - 1].op, id) then Some(i - 1)
    else Creation(h, i - 1, id)
  }

  predicate Creates(op: Op, id: Uuid) {
    op.CreateAttempt? && op.attempt.id == id
  }

  predicate SameIdentity(a: AttemptRow, b: AttemptRow) {
    a.peerUuid == b.peerUuid && a.peerPublicKey == b.peerPublicKey
  }

  lemma CommitKeepsAttempt(op: Op, db: Database, id: Uuid)
    requires Effect(op, db).Some? && id in Effect(op, db).value.attempts
    ensures var row := Effect(op, db).value.attempts[id];
            if Creates(op, id) then row == op.attempt.row else id in db.attempts && SameIdentity(db.attempts[id], row)
  {
  }

  lemma NextAttemptState(h: History, i: nat, id: Uuid)
    requires Legal(h) && i < |h.commits| && id in h.states[i + 1].attempts
    ensures if Creates(h.commits[i].op, id) then h.states[i + 1].attempts[id] == h.commits[i].op.attempt.row
            else id in h.states[i].attempts && SameIdentity(h.states[i].attempts[id], h.states[i + 1].attempts[id])
  {
    assert Follows(h.commits[i], h.states[i], h.states[i + 1]);
    CommitKeepsAttempt(h.commits[i].op, h.states[i], id);
  }

  /** An attempt has been there since it was last created, or from the start if it never was,
      with the identity it was created or found with. */
  lemma {:induction false} AttemptKeepsIdentity(h: History, i: nat, id: Uuid)
    requires Legal(h) && i <= |h.commits| && id in h.states[i].attempts
    ensures match Creation(h, i, id)
            case Some(c) =>
              && SameIdentity(h.commits[c].op.attempt.row, h.states[i].attempts[id])
              && forall k :: c < k <= i ==> id in h.states[k].attempts
            case None =>
              && id in h.states[0].attempts && SameIdentity(h.states[0].attempts[id], h.states[i].attempts[id])
              && forall k :: 0 <= k <= i ==> id in h.states[k].attempts
  {
    if i > 0 {
      NextAttemptState(h, i - 1, id);
      if !Creates(h.commits[i - 1].op, id) { AttemptKeepsIdentity(h, i - 1, id); }
    }
  }

  /** No attempt is ever consumed twice, whether it was created in this run or stored before
      it, and even when its id is reused: two finalizations differ in the id or in which
      creation of that id they consume. */
  lemma NoCreationConsumedTwice(h: History, i: nat, j: nat)
    requires Legal(h) && i < j < |h.commits|
    requires h.commits[i].op.Finalize? && h.commits[j].op.Finalize?
    ensures h.commits[i].op.id != h.commits[j].op.id
         || Creation(h, i, h.commits[i].op.id) != Creation(h, j, h.commits[j].op.id)
  {
    ConsumedAttemptWasConfirmed(h, i);
    ConsumedAttemptWasConfirmed(h, j);
    AttemptKeepsIdentity(h, i, h.commits[i].op.id);
    AttemptKeepsIdentity(h, j, h.commits[j].op.id);
  }
}
