/** The registry of READY devices and the arbitration between duplicate connections. */
module Registry {
  import opened Bytes
  import opened TrustTables
  import opened TrustHistory
  import opened UuidCodec

  datatype DeviceState = Connecting | HandshakeDone | Authenticated | Ready | Disconnected

  datatype Device = Device(
    deviceId: Text, sessionId: SessionId, preferred: bool, state: DeviceState,
    publicKey: Key, trustRevision: Int64, permissions: seq<Text>)

  function DeviceIdOf(peer: Snapshot): (id: Text) {
    ToText(peer.uuid)
  }

  /** The candidate entry carries exactly what was authorized. */
  predicate MatchesAuthorization(d: Device, peer: Snapshot) {
    && d.deviceId == DeviceIdOf(peer) && d.publicKey == peer.publicKey
    && d.trustRevision == peer.authorization.revision && d.permissions == peer.authorization.permissions
    && d.state == Authenticated
  }

  // ---- Specification ----

  /** Position of the first entry for `id`, or the length if there is none. */
  function Find(devices: seq<Device>, id: Text): (k: nat)
    ensures k <= |devices|
    ensures forall i :: 0 <= i < k ==> devices[i].deviceId != id
    ensures k < |devices| ==> devices[k].deviceId == id
  {
    if devices == [] || devices[0].deviceId == id then 0 else 1 + Find(devices[1..], id)
  }

  /** At most one entry per device and per session. */
  ghost predicate Unique(devices: seq<Device>) {
    && (forall i, j :: 0 <= i < j < |devices| ==> devices[i].deviceId != devices[j].deviceId)
    && (forall i, j :: 0 <= i < j < |devices| ==> devices[i].sessionId != devices[j].sessionId)
  }

  /** The entry a session holds, if any. */
  ghost function Entry(devices: seq<Device>, session: SessionId): (e: Option<Device>)
    ensures e.Some? ==> e.value in devices && e.value.sessionId == session
    ensures e.None? ==> forall i :: 0 <= i < |devices| ==> devices[i].sessionId != session
  {
    if exists i :: 0 <= i < |devices| && devices[i].sessionId == session then
      var i :| 0 <= i < |devices| && devices[i].sessionId == session;
      Some(devices[i])
    else None
  }

  lemma EntryAt(devices: seq<Device>, i: nat)
    requires Unique(devices) && i < |devices|
    ensures Entry(devices, devices[i].sessionId) == Some(devices[i])
  {
  }

  datatype Registration = Rejected | Accepted(devices: seq<Device>, replaced: Option<Device>)

  /** `running` holds the sessions that still exist and are not stopping. An incumbent that
      runs gives way only to a preferred candidate when it is not preferred itself. */
  function Publication(devices: seq<Device>, d: Device, running: set<SessionId>): (r: Registration) {
    var k := Find(devices, d.deviceId);
    if k == |devices| then Accepted(devices + [d.(state := Ready)], None)
    else if devices[k].sessionId in running && (devices[k].preferred || !d.preferred) then Rejected
    else Accepted(devices[k := d.(state := Ready)], Some(devices[k]))
  }

  /** Entry `i` is the one that stands for `id`. */
  ghost predicate StandsFor(devices: seq<Device>, i: int, id: Text) {
    0 <= i < |devices| && devices[i].deviceId == id && forall k :: 0 <= k < i ==> devices[k].deviceId != id
  }

  /** A running connection holds the slot of `id` and would not give way to this one. */
  ghost predicate Blocked(devices: seq<Device>, id: Text, preferred: bool, running: set<SessionId>) {
    exists i :: StandsFor(devices, i, id) && devices[i].sessionId in running && (devices[i].preferred || !preferred)
  }

  /** A candidate is refused exactly when it is blocked; otherwise it is in place, READY, and
      just the entry that stood for its device is gone. */
  lemma RefusedIffBlocked(devices: seq<Device>, d: Device, running: set<SessionId>)
    ensures var r := Publication(devices, d, running);
            && (r.Rejected? <==> Blocked(devices, d.deviceId, d.preferred, running))
            && (r.Accepted? ==>
                  && (forall i :: StandsFor(devices, i, d.deviceId) ==>
                        r.replaced == Some(devices[i]) && r.devices == devices[i := d.(state := Ready)])
                  && ((forall i :: 0 <= i < |devices| ==> devices[i].deviceId != d.deviceId) ==>
                        r.replaced == None && r.devices == devices + [d.(state := Ready)]))
  {
    var k := Find(devices, d.deviceId);
    assert k < |devices| ==> StandsFor(devices, k, d.deviceId);
    assert forall i :: StandsFor(devices, i, d.deviceId) ==> i == k;
  }

  function Removal(devices: seq<Device>, session: SessionId): (r: seq<Device>) {
    if devices == [] then [] else
      var last := devices[|devices| - 1];
      Removal(devices[..|devices| - 1], session) + if last.sessionId == session then [] else [last]
  }

  // ---- The source's loops ----

  class DeviceRegistry {
    var devices: seq<Device>

    /** `candidate` is the session behind the entry's weak reference, if it still exists. */
    method PublishAuthenticatedDevice(d: Device, peer: Snapshot, candidate: Option<SessionId>, running: set<SessionId>)
      returns (accepted: bool, replaced: Option<Device>)
      modifies this
      ensures if candidate == Some(d.sessionId) && d.sessionId in running && MatchesAuthorization(d, peer) then
                match Publication(old(devices), d, running)
                case Rejected => !accepted && replaced == None && devices == old(devices)
                case Accepted(devices', gone) => accepted && replaced == gone && devices == devices'
              else !accepted && replaced == None && devices == old(devices)
      ensures candidate == Some(d.sessionId) && d.sessionId in running && MatchesAuthorization(d, peer) ==>
                (accepted <==> !Blocked(old(devices), d.deviceId, d.preferred, running))
      ensures accepted ==> d.(state := Ready) in devices
      ensures forall i :: accepted && StandsFor(old(devices), i, d.deviceId) ==>
                replaced == Some(old(devices)[i]) && devices == old(devices)[i := d.(state := Ready)]
      ensures accepted && (forall i :: 0 <= i < |old(devices)| ==> old(devices)[i].deviceId != d.deviceId) ==>
                replaced == None && devices == old(devices) + [d.(state := Ready)]
    {
      RefusedIffBlocked(devices, d, running);
      if candidate.None? || candidate.value != d.sessionId || d.sessionId !in running || !MatchesAuthorization(d, peer) {
        return false, None;
      }
      var i := 0;
      while i < |devices|
        invariant 0 <= i <= |devices| && devices == old(devices)
        invariant forall k :: 0 <= k < i ==> devices[k].deviceId != d.deviceId
      {
        if devices[i].deviceId == d.deviceId {
          assert Find(devices, d.deviceId) == i;
          if devices[i].sessionId in running && (devices[i].preferred || !d.preferred) { return false, None; }
          replaced := Some(devices[i]);
          devices := devices[i := d.(state := Ready)];
          assert devices[i] == d.(state := Ready);
          return true, replaced;
        }
        i := i + 1;
      }
      devices := devices + [d.(state := Ready)];
      assert devices[i] == d.(state := Ready);
      return true, None;
    }

    method RemoveDevice(session: SessionId)
      modifies this
      ensures devices == Removal(old(devices), session)
    {
      var kept: seq<Device> := [];
      var i := 0;
      while i < |devices|
        invariant 0 <= i <= |devices| && devices == old(devices)
        invariant kept == Removal(devices[..i], session)
      {
        assert devices[..i + 1][..i] == devices[..i];
        if devices[i].sessionId != session { kept := kept + [devices[i]]; }
        i := i + 1;
      }
      assert devices[..i] == devices;
      devices := kept;
    }
  }

  // ---- Ownership ----

  lemma PublicationKeepsUnique(devices: seq<Device>, d: Device, running: set<SessionId>)
    requires Unique(devices) && Entry(devices, d.sessionId).None? && Publication(devices, d, running).Accepted?
    ensures Unique(Publication(devices, d, running).devices)
    ensures Entry(Publication(devices, d, running).devices, d.sessionId) == Some(d.(state := Ready))
  {
    var devices', k := Publication(devices, d, running).devices, Find(devices, d.deviceId);
    assert devices'[k] == d.(state := Ready);
    assert forall i :: 0 <= i < |devices'| && i != k ==> devices'[i] == devices[i];
    EntryAt(devices', k);
  }

  /** Publishing touches no other entry than the one it reports as replaced. */
  lemma PublicationKeepsOthers(devices: seq<Device>, d: Device, running: set<SessionId>, session: SessionId)
    requires Unique(devices) && Entry(devices, d.sessionId).None? && Publication(devices, d, running).Accepted?
    requires session != d.sessionId
    ensures var r := Publication(devices, d, running);
            Entry(r.devices, session) ==
              if r.replaced.Some? && r.replaced.value.sessionId == session then None else Entry(devices, session)
  {
    PublicationKeepsUnique(devices, d, running);
    var devices', k := Publication(devices, d, running).devices, Find(devices, d.deviceId);
    assert forall i :: 0 <= i < |devices'| && i != k ==> devices'[i] == devices[i];
    if Entry(devices, session).Some? {
      var i :| 0 <= i < |devices| && devices[i] == Entry(devices, session).value;
      if i != k { EntryAt(devices', i); }
    }
  }

  lemma {:induction false} RemovalMembers(devices: seq<Device>, session: SessionId, d: Device)
    ensures d in Removal(devices, session) <==> d in devices && d.sessionId != session
  {
    if devices != [] {
      var front, last := devices[..|devices| - 1], devices[|devices| - 1];
      assert devices == front + [last];
      RemovalMembers(front, session, d);
    }
  }

  /** Removal works entry by entry, so the others stay in order. */
  lemma {:induction false} RemovalSplits(a: seq<Device>, b: seq<Device>, session: SessionId)
    ensures Removal(a + b, session) == Removal(a, session) + Removal(b, session)
    decreases |b|
  {
    if b == [] {
      assert a + b == a;
    } else {
      var front, last := b[..|b| - 1], b[|b| - 1];
      assert (a + b)[..|a + b| - 1] == a + front;
      RemovalSplits(a, front, session);
    }
  }

  lemma {:induction false} RemovalKeepsUnique(devices: seq<Device>, session: SessionId)
    requires Unique(devices)
    ensures Unique(Removal(devices, session))
  {
    if devices != [] {
      var front, last := devices[..|devices| - 1], devices[|devices| - 1];
      RemovalKeepsUnique(front, session);
      var r := Removal(front, session);
      forall i | 0 <= i < |r|
        ensures r[i].deviceId != last.deviceId && r[i].sessionId != last.sessionId
      {
        assert r[i] in r;
        RemovalMembers(front, session, r[i]);
      }
    }
  }

  /** A late removal takes away its own session's entry and no one else's. */
  lemma RemovalIsExact(devices: seq<Device>, session: SessionId, other: SessionId)
    requires Unique(devices)
    ensures Entry(Removal(devices, session), other) == if other == session then None else Entry(devices, other)
  {
    RemovalKeepsUnique(devices, session);
    var r := Removal(devices, session);
    if Entry(r, other).Some? {
      var e := Entry(r, other).value;
      RemovalMembers(devices, session, e);
      var i :| 0 <= i < |devices| && devices[i] == e;
      EntryAt(devices, i);
    } else if Entry(devices, other).Some? {
      RemovalMembers(devices, session, Entry(devices, other).value);
    }
  }

  /** A running preferred owner is never displaced by a publication. */
  lemma PreferredOwnerStays(devices: seq<Device>, d: Device, running: set<SessionId>, k: nat)
    requires Unique(devices) && k < |devices| && devices[k].preferred && devices[k].sessionId in running
    requires Publication(devices, d, running).Accepted?
    ensures k < |Publication(devices, d, running).devices| && Publication(devices, d, running).devices[k] == devices[k]
  {
  }
}
