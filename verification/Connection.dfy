/** One connection as an object over the shared authenticator and registry: authorization,
    activation, cancellation and cleanup. How these interleave with other connections and
    the monitor is the subject of `Sessions`. */
module Connection {
  import opened Bytes
  import opened UuidCodec
  import opened TrustTables
  import opened TrustHistory
  import opened Registry
  import opened EndpointAgreement
  import opened SessionAuthentication

  /** `session` holds the READY entry of `peer`. */
  ghost predicate Enrolled(devices: seq<Device>, session: SessionId, peer: Snapshot, preferred: bool) {
    var entry := Entry(devices, session);
    entry.Some? && entry.value.deviceId == DeviceIdOf(peer) && entry.value.state == Ready && entry.value.preferred == preferred
  }

  /** Apart from `session`, only the entry of `replaced` is gone. */
  ghost predicate OthersKept(before: seq<Device>, after: seq<Device>, session: SessionId, replaced: Option<SessionId>) {
    forall other :: other != session ==>
      Entry(after, other) == if replaced == Some(other) then None else Entry(before, other)
  }

  class Session {
    const sessionId: SessionId
    const outgoing: bool
    const authentication: Authenticator
    const registry: DeviceRegistry
    var ready: bool
    var stopping: bool
    var cleanedUp: bool
    var authorizedPeer: Option<Snapshot>

    ghost predicate Valid()
      reads this, authentication, authentication.store, registry
    {
      && authentication.Valid() && Unique(registry.devices)
      && (!ready ==> Entry(registry.devices, sessionId).None?)
      && (cleanedUp ==> stopping && sessionId !in authentication.live && Entry(registry.devices, sessionId).None?)
    }

    constructor (sessionId: SessionId, outgoing: bool, authentication: Authenticator, registry: DeviceRegistry)
      requires authentication.Valid() && Unique(registry.devices) && Entry(registry.devices, sessionId).None?
      ensures Valid() && !ready && !stopping && !cleanedUp && authorizedPeer == None
      ensures this.sessionId == sessionId && this.outgoing == outgoing
      ensures this.authentication == authentication && this.registry == registry
    {
      this.sessionId, this.outgoing, this.authentication, this.registry := sessionId, outgoing, authentication, registry;
      ready, stopping, cleanedUp, authorizedPeer := false, false, false, None;
    }

    /** `late` tells whether the handshake deadline has passed. A peer that proved it holds
        the key of `uuid` is authorized exactly when the store trusts that pair now and the
        printed UUID is not the text of this device's identity file. The device's own UUID
        is refused for that reason exactly when the file is canonical. */
    method AuthorizeVerifiedIdentity(uuid: Uuid, key: Key, myId: Text, late: bool) returns (peer: Option<Snapshot>)
      requires Valid()
      ensures peer.Some? <==> !stopping && !ready && !late
                              && FindActive(authentication.store.db, uuid, key).Some? && ToText(uuid) != myId
      ensures IsUuidText(myId) && uuid == FromText(myId) && IsCanonical(myId) ==> peer.None?
      ensures IsUuidText(myId) && uuid == FromText(myId) && !IsCanonical(myId) ==>
                (peer.Some? <==> !stopping && !ready && !late && FindActive(authentication.store.db, uuid, key).Some?)
      ensures peer.Some? ==> peer.value.uuid == uuid && peer.value.publicKey == key && Current(authentication.store.db, peer.value)
    {
      if IsUuidText(myId) { OwnUuidMatchesFileIff(myId); }
      if stopping || ready || late { return None; }
      var authorization := authentication.store.FindActiveAuthorization(uuid, key);
      if authorization.None? { return None; }
      var snapshot := Snapshot(uuid, key, authorization.value);
      if DeviceIdOf(snapshot) == myId { return None; }
      peer := Some(snapshot);
    }

    /** Offers this session to the registry as the connection of `peer`. */
    method PublishSelf(peer: Snapshot, preferred: bool, running: set<SessionId>) returns (accepted: bool, replaced: Option<SessionId>)
      requires Unique(registry.devices) && Entry(registry.devices, sessionId).None? && sessionId in running
      modifies registry
      ensures Unique(registry.devices)
      ensures accepted <==> !Blocked(old(registry.devices), DeviceIdOf(peer), preferred, running)
      ensures accepted ==> Enrolled(registry.devices, sessionId, peer, preferred)
      ensures accepted ==> OthersKept(old(registry.devices), registry.devices, sessionId, replaced)
      ensures !accepted ==> replaced == None && registry.devices == old(registry.devices)
    {
      var device := Device(DeviceIdOf(peer), sessionId, preferred, Authenticated,
                           peer.publicKey, peer.authorization.revision, peer.authorization.permissions);
      ghost var before := registry.devices;
      var gone;
      accepted, gone := registry.PublishAuthenticatedDevice(device, peer, Some(sessionId), running);
      replaced := if gone.Some? then Some(gone.value.sessionId) else None;
      if accepted {
        PublicationKeepsUnique(before, device, running);
        forall other: SessionId | other != sessionId
          ensures Entry(registry.devices, other) == if replaced == Some(other) then None else Entry(before, other)
        {
          PublicationKeepsOthers(before, device, running, other);
        }
      }
    }

    /** Enters both tables, or neither. */
    method EnterTables(peer: Snapshot, preferred: bool, throws: bool, others: set<SessionId>)
      returns (ok: bool, replaced: Option<SessionId>)
      requires authentication.Valid() && Unique(registry.devices) && Entry(registry.devices, sessionId).None?
      modifies authentication, registry
      ensures authentication.Valid() && Unique(registry.devices)
      ensures ok <==> !throws && Current(authentication.store.db, peer) && !authentication.stopping && sessionId !in old(authentication.live)
                      && !Blocked(old(registry.devices), DeviceIdOf(peer), preferred, others + {sessionId})
      ensures ok ==>
                && Current(authentication.store.db, peer)
                && authentication.live == old(authentication.live)[sessionId := peer]
                && Enrolled(registry.devices, sessionId, peer, preferred)
                && OthersKept(old(registry.devices), registry.devices, sessionId, replaced)
      ensures !ok ==> replaced == None && authentication.live == old(authentication.live)
                      && registry.devices == old(registry.devices)
    {
      ghost var table := authentication.live;
      var registered := authentication.RegisterLiveSession(sessionId, peer, true, throws);
      if !registered { return false, None; }
      ok, replaced := PublishSelf(peer, preferred, others + {sessionId});
      if !ok {
        authentication.UnregisterLiveSession(sessionId);
        assert authentication.live == table;
      }
    }

    /** Registers, publishes and becomes READY, or leaves no trace. `others` are the other
        sessions that exist and are not stopping; `replaced` is one to disconnect. */
    method ActivateAuthorizedPeer(peer: Snapshot, myId: Text, late: bool, throws: bool, others: set<SessionId>)
      returns (ok: bool, replaced: Option<SessionId>)
      requires Valid()
      modifies this, authentication, registry
      ensures Valid() && stopping == old(stopping) && cleanedUp == old(cleanedUp)
      ensures ok <==> !stopping && !old(ready) && !late && !throws && Current(authentication.store.db, peer)
                      && !authentication.stopping && sessionId !in old(authentication.live)
                      && !Blocked(old(registry.devices), DeviceIdOf(peer), Preferred(myId, DeviceIdOf(peer), outgoing), others + {sessionId})
      ensures ok ==>
                && !old(ready) && ready && !stopping && authorizedPeer == Some(peer)
                && Current(authentication.store.db, peer)
                && authentication.live == old(authentication.live)[sessionId := peer]
                && Enrolled(registry.devices, sessionId, peer, Preferred(myId, DeviceIdOf(peer), outgoing))
                && OthersKept(old(registry.devices), registry.devices, sessionId, replaced)
      ensures !ok ==> replaced == None && ready == old(ready) && authorizedPeer == old(authorizedPeer)
                      && authentication.live == old(authentication.live) && registry.devices == old(registry.devices)
    {
      if stopping || ready || late { return false, None; }
      ok, replaced := EnterTables(peer, Preferred(myId, DeviceIdOf(peer), outgoing), throws, others);
      if ok { authorizedPeer, ready := Some(peer), true; }
    }

    method RequestDisconnect()
      requires Valid()
      modifies this`stopping
      ensures Valid() && stopping
    {
      stopping := true;
    }

    /** Idempotent cleanup: this session leaves both tables and no other one is touched. */
    method FinalizeDisconnect()
      requires Valid()
      modifies this`stopping, this`cleanedUp, authentication`live, registry
      ensures Valid() && stopping && cleanedUp
      ensures authentication.live == old(authentication.live) - {sessionId}
      ensures forall other :: Entry(registry.devices, other) ==
                if other == sessionId then None else old(Entry(registry.devices, other))
      ensures old(cleanedUp) ==> registry.devices == old(registry.devices)
    {
      stopping := true;
      if cleanedUp { return; }
      cleanedUp := true;
      authentication.UnregisterLiveSession(sessionId);
      ghost var before := registry.devices;
      registry.RemoveDevice(sessionId);
      RemovalKeepsUnique(before, sessionId);
      forall other: SessionId
        ensures Entry(registry.devices, other) == if other == sessionId then None else Entry(before, other)
      {
        RemovalIsExact(before, sessionId, other);
      }
    }
  }
}
