/** `SessionAuthentication` as an object: registration, removal and one undisturbed round of
    its monitor loop. Interleavings of these are the subject of `LiveMonitor`. */
module SessionAuthentication {
  import opened Bytes
  import opened TrustTables
  import opened TrustHistory
  import opened TrustStore

  class Authenticator {
    const store: Store
    var live: map<SessionId, Snapshot>
    var forceScan: bool
    var lastToken: Option<ChangeToken>
    var stopping: bool
    /** How many commits the store had seen when the token was last read. */
    ghost var readAt: nat

    /** Unless a scan is due, everything live was current when the token was last read. */
    ghost predicate Valid()
      reads this, store
    {
      && store.Valid() && readAt <= |store.history.commits|
      && (lastToken.Some? ==> lastToken.value == TokenAt(store.history, readAt))
      && (lastToken.Some? && !forceScan ==> AllCurrent(store.history.states[readAt], live))
    }

    /** Neither counter went all the way round since the token was last read. */
    ghost predicate WithinRange()
      requires Valid()
      reads this, store
    {
      var now := |store.history.commits|;
      && LocalCommits(store.history, now) - LocalCommits(store.history, readAt) < TWO_64
      && ExternalCommits(store.history, now) - ExternalCommits(store.history, readAt) < TWO_32
    }

    ghost predicate ScanIsDue(tokenThrows: bool)
      requires Valid()
      reads this, store
    {
      forceScan || tokenThrows || lastToken != Some(TokenAt(store.history, |store.history.commits|))
    }

    constructor (store: Store)
      requires store.Valid()
      ensures Valid() && this.store == store && live == map[] && !forceScan && lastToken == None && !stopping
    {
      this.store := store;
      live, forceScan, lastToken, stopping, readAt := map[], false, None, false, 0;
    }

    /** A lookup that throws counts as an answer that trust is gone. */
    method AuthorizationIsCurrent(peer: Snapshot, throws: bool) returns (current: bool)
      requires Valid()
      ensures current <==> !throws && Current(store.db, peer)
    {
      current := StillGranted(peer, throws);
    }

    /** `callback` tells whether an invalidation callback was given. */
    method RegisterLiveSession(session: SessionId, peer: Snapshot, callback: bool, throws: bool) returns (ok: bool)
      requires Valid()
      modifies this
      ensures Valid() && stopping == old(stopping)
      ensures ok <==> callback && !throws && Current(store.db, peer) && !stopping && session !in old(live)
      ensures ok ==> live == old(live)[session := peer] && forceScan
      ensures !ok ==> unchanged(this)
    {
      if !callback { return false; }
      var current := AuthorizationIsCurrent(peer, throws);
      if !current || stopping || session in live { return false; }
      live := live[session := peer];
      forceScan := true;
      ok := true;
    }

    method UnregisterLiveSession(session: SessionId)
      requires Valid()
      modifies this`live
      ensures Valid() && live == old(live) - {session}
    {
      live := live - {session};
    }

    /** One round of the monitor: afterwards only entries that match the store are left, and
        `invalidated` lists the sessions whose callback ran. Without lookup failures those
        are exactly the ones that no longer matched. During shutdown it does nothing. */
    method MonitorRound(tokenThrows: bool, lookupThrows: set<SessionId>) returns (invalidated: set<SessionId>)
      requires Valid() && WithinRange()
      modifies this`live, this`forceScan, this`lastToken, this`readAt
      ensures Valid()
      ensures stopping ==> unchanged(this) && invalidated == {}
      ensures !stopping ==> !forceScan && AllCurrent(store.db, live)
      ensures live == Kept(old(live), invalidated)
      ensures !stopping ==> invalidated == if old(ScanIsDue(tokenThrows)) then Failing(store.db, old(live), lookupThrows) else {}
    {
      invalidated := {};
      if stopping { return; }
      invalidated := ScanIfDue(tokenThrows, lookupThrows);
    }

    method ScanIfDue(tokenThrows: bool, lookupThrows: set<SessionId>) returns (invalidated: set<SessionId>)
      requires Valid() && WithinRange()
      modifies this`live, this`forceScan, this`lastToken, this`readAt
      ensures Valid() && !forceScan && AllCurrent(store.db, live)
      ensures live == Kept(old(live), invalidated)
      ensures invalidated == if old(ScanIsDue(tokenThrows)) then Failing(store.db, old(live), lookupThrows) else {}
    {
      invalidated := {};
      var scan := DecideScan(tokenThrows);
      if scan {
        invalidated := Scan(lookupThrows);
      } else {
        assert live == Kept(live, {});
      }
      CaughtUp();
    }

    /** Takes the force flag and reads the token; a scan is skipped only when nothing live
        can have changed. */
    method DecideScan(tokenThrows: bool) returns (scan: bool)
      requires Valid() && WithinRange()
      modifies this`forceScan, this`lastToken, this`readAt
      ensures !forceScan && readAt == |store.history.commits|
      ensures lastToken == if tokenThrows then None else Some(TokenAt(store.history, readAt))
      ensures scan == old(ScanIsDue(tokenThrows))
      ensures !scan ==> AllCurrent(store.db, live)
    {
      var token := store.ReadChangeToken();
      scan := forceScan || tokenThrows || lastToken != Some(token);
      if !scan {
        NothingChanged(store.history, readAt, live);
      }
      forceScan := false;
      lastToken := if tokenThrows then None else Some(token);
      readAt := |store.history.commits|;
    }

    /** Examines a copy of the table and drops what no longer matches the store. */
    method Scan(lookupThrows: set<SessionId>) returns (invalidated: set<SessionId>)
      requires store.Valid()
      modifies this`live
      ensures live == Kept(old(live), invalidated)
      ensures AllCurrent(store.db, live)
      ensures invalidated == Failing(store.db, old(live), lookupThrows)
    {
      var snapshot := live;
      var todo := snapshot.Keys;
      invalidated := {};
      ghost var failing := Failing(store.db, snapshot, lookupThrows);
      while todo != {}
        invariant todo <= snapshot.Keys && snapshot == old(live)
        invariant live == Kept(snapshot, invalidated) && invalidated == failing - todo
        decreases |todo|
      {
        var session :| session in todo;
        todo := todo - {session};
        var current := StillGranted(snapshot[session], session in lookupThrows);
        assert current <==> session !in failing;
        if !current {
          KeptWithoutOne(snapshot, invalidated, session);
          live := live - {session};
          invalidated := invalidated + {session};
        }
      }
      assert invalidated == failing;
      KeptAreCurrent(store.db, snapshot, lookupThrows);
    }

    method StillGranted(peer: Snapshot, throws: bool) returns (current: bool)
      requires store.Valid()
      ensures current <==> !throws && Current(store.db, peer)
    {
      if throws { return false; }
      var stored := store.FindActiveAuthorization(peer.uuid, peer.publicKey);
      current := stored.Some? && stored.value.revision == peer.authorization.revision
                 && stored.value.permissions == peer.authorization.permissions;
    }

    lemma CaughtUp()
      requires store.Valid() && readAt == |store.history.commits| && !forceScan && AllCurrent(store.db, live)
      requires lastToken.Some? ==> lastToken.value == TokenAt(store.history, readAt)
      ensures Valid()
    {
    }
  }

  /** What is left of a table when the `gone` sessions are dropped. */
  function Kept(table: map<SessionId, Snapshot>, gone: set<SessionId>): (r: map<SessionId, Snapshot>) {
    map session | session in table && session !in gone :: table[session]
  }

  lemma KeptWithoutOne(table: map<SessionId, Snapshot>, gone: set<SessionId>, session: SessionId)
    ensures Kept(table, gone) - {session} == Kept(table, gone + {session})
  {
  }

  lemma KeptAreCurrent(db: Database, table: map<SessionId, Snapshot>, throws: set<SessionId>)
    ensures AllCurrent(db, Kept(table, Failing(db, table, throws)))
  {
  }

  /** The entries whose lookup fails or no longer gives what they hold. */
  ghost function Failing(db: Database, table: map<SessionId, Snapshot>, throws: set<SessionId>): (gone: set<SessionId>) {
    set session | session in table && (session in throws || !Current(db, table[session]))
  }

  ghost predicate AllCurrent(db: Database, table: map<SessionId, Snapshot>) {
    forall session :: session in table ==> Current(db, table[session])
  }

  lemma NothingChanged(h: History, i: nat, table: map<SessionId, Snapshot>)
    requires Legal(h) && i <= |h.commits| && AllCurrent(h.states[i], table)
    requires TokenAt(h, i) == TokenAt(h, |h.commits|)
    requires LocalCommits(h, |h.commits|) - LocalCommits(h, i) < TWO_64
    requires ExternalCommits(h, |h.commits|) - ExternalCommits(h, i) < TWO_32
    ensures AllCurrent(h.states[|h.commits|], table)
  {
    EqualTokensMeanEqualTrust(h, i, |h.commits|);
    forall session | session in table
      ensures Current(h.states[|h.commits|], table[session])
    {
      assert Current(h.states[i], table[session]);
    }
  }
}
