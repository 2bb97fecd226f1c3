# Verification of the Gasoline daemon core

Gasoline connects trusted devices on a local network. This project models the parts of its
daemon that decide who is trusted and which bytes, sessions and events may exist, and proves
what they promise over all inputs, interleavings and crashes.

- `Bytes`, `UuidCodec`: byte strings in `std::string` order and the text form of UUIDs
  (section 4 of RFC 9562).
- `Framing`, `Outgoing`: protocol v2 framing. The incremental `RecordParser` is proved to
  refine a one-shot decoder, encoder and decoder to be inverse, and the sending half of a
  connection to put nothing on the wire that the peer's parser could reject.
- `TrustTables`, `TrustHistory`, `TrustReplay`, `TrustStore`: the trust database. `Effect` is
  the atomic meaning of each operation; `TrustStore` runs the SQL statements one by one on a
  working copy, with a storage fault possible at every step; `TrustHistory` is about runs of
  commits by this instance and by other connections; `TrustReplay` tells every later answer of
  the database from the operations of the run.
- `LiveMonitor`, `SessionAuthentication`: invalidation of live sessions, once as a step
  relation in which registrars, the monitor and writers interleave freely, once as the object
  whose round runs undisturbed.
- `Registry`, `EndpointAgreement`, `Connection`, `Sessions`: the registry of READY devices,
  duplicate arbitration between two endpoints, a connection as an object, and the whole system
  of connections, registry, monitor and store as one step relation.
- `IdentityFiles`, `IdentitySafety`, `FoundIdentities`, `DeviceIdentity`: creation of the
  persistent identity by any number of overlapping calls on a directory that can crash at any
  point.
- `Events`, `EventDelivery`: from a received record to the bounded event queue, once as objects
  that run undisturbed, once as runs in which the receive threads interleave with every step of
  `Sessions` and with every commit.

`dafny verify dfyconfig.toml` checks everything.

## How the system is read

- Text is a sequence of bytes. Shifts and masks on bytes are written as division and remainder.
- A step of `LiveMonitor`, `Sessions` and `EventDelivery` is one lock region, one reading of a
  shared flag or one call into the store, which serializes its calls. A connection's `stage` says
  what the holder of its write lock is doing; `request_disconnect` waits while an activation
  holds the lifecycle lock.
- SQLite is read as atomic transactions over four tables. Other writers use the same
  operations, and `data_version` advances once per commit of another connection.
- In the identity protocol a crash leaves each directory entry old or new independently of the
  others, and a file that was never synchronized holds anything. Killing a process is the step
  `Fail`. Each call flushes the directory, then waits for the lock; `Writeback` is whatever the
  system writes back on its own.
- Key generation is any pair that the signature library derives back from its own private key;
  the derivation is a parameter.
- Clocks, random bytes, socket results, storage faults and failing lookups are parameters.

## Where code and documentation part

- The lower UUID's connection is documented to win. The code compares the raw text of the own
  identity file with the printed form of the peer's UUID, and a migrated file may hold
  upper-case digits. `AgreeIff` says exactly which pairs of files disagree,
  `UpperCaseFileCanDisagree` gives one, and `GeneratedEndpointsAgree` excludes it for
  identities the program made itself.
- The check against the device's own identity compares the same two texts, so it recognises the
  own UUID exactly when the file is canonical (`OwnUuidMatchesFileIff`,
  `UpperCaseFileHidesOwnUuid`).
- The directory is flushed before the identity lock is taken, so of two overlapping calls one
  can find and return an identity whose rename is not durable. `FoundIdentityCanBeLost` is such
  a run; `FoundIdentitySurvivesIff` says that it takes a rename that no flush, directory sync or
  crash followed. No run ever returns a different identity either way (`OneIdentity`).
- A message is queued after the store was asked about its peer, not while. A revocation can
  commit in between (`RevocationCanComeTooLate`); `AuthorizedWhenQueuedIff` says that only such
  a commit can make a queued event's peer unauthorized.

## Model

| member | source | states |
|---|---|---|
| `UuidCodec.TrustUuidToString` | core/trust/trust_store.cpp:279-288 | the printing loop yields the positional text form: hyphens at 8, 13, 18, 23 and two lower-case digits per byte |
| `UuidCodec.TrustUuidFromString` | core/trust/trust_store.cpp:261-277 | parsing succeeds exactly on the strings the recogniser accepts, and then every byte is the value of its two digits |
| `UuidCodec.IsValidUuid` | core/identity/device_identity.cpp:81-93 | the recogniser loop accepts exactly 36 characters with hyphens at the four places and hex digits of either case elsewhere |
| `UuidCodec.GeneratedUuid` | core/identity/device_identity.cpp:95-109 | version and variant bits are set and every other random byte is kept |
| `UuidCodec.ParseInvertsPrint` | core/trust/trust_store.cpp:261-288 | printing any 16 bytes gives a parsable text, and parsing gives the bytes back |
| `UuidCodec.PrintAfterParseIsLowerCase` | core/trust/trust_store.cpp:261-288 | printing a parsed text is lower-casing it |
| `UuidCodec.PrintPreservesOrder` | core/trust/trust_store.cpp:279-288 | two UUIDs compare as bytes exactly as their printed forms compare as strings |
| `Framing.EncodeRecord` | core/protocol/v2_framing.cpp:21-31 | payloads up to 65535 bytes become a big-endian length and the payload, longer ones are refused |
| `Framing.CreateParser` | core/protocol/v2_framing.cpp:40-45 | a limit above 65535 is refused; otherwise the parser starts in the preface with nothing pending |
| `Framing.RecordParser.Consume` | core/protocol/v2_framing.cpp:52-121 | for every fragment, limit and handler, what is delivered, the verdict and the bytes still pending are those of the one-shot decoder on pending bytes plus fragment; the bounds of `Valid` are strict, so each round of the loop takes a byte |
| `Framing.RecordParser.PrefaceRound` | core/protocol/v2_framing.cpp:58-71 | one preface round takes at least one byte and keeps the meaning of the stream, or fails exactly when the stream can no longer start with the preface |
| `Framing.RecordParser.HeaderRound` | core/protocol/v2_framing.cpp:73-103 | one header round keeps the meaning of the stream: oversized lengths fail, empty records are delivered, others open a payload |
| `Framing.RecordParser.PayloadRound` | core/protocol/v2_framing.cpp:105-118 | one payload round keeps the meaning of the stream and delivers the payload when it is complete |
| `Framing.RecordParser.Finish` | core/protocol/v2_framing.cpp:123-140 | end of input is clean exactly past the preface at a record boundary; each kind of truncation has its own error, and a failed parser reports ParserFinished |
| `Framing.ResumeComposes` | core/protocol/v2_framing.cpp:52-121 | decoding any stream in two pieces, cut anywhere, gives what decoding it at once gives |
| `Framing.ParseStream` | core/protocol/v2_framing.cpp:52-140 | a parser fed any fragmentation of any stream delivers the records, the first error or stop and the end-of-input result of the whole stream |
| `Framing.RoundTrip` | core/protocol/v2_framing.cpp:21-31 | preface plus the encodings of any records within the limit decodes to exactly those records with nothing left |
| `Framing.DecodingAccountsForInput` | core/protocol/v2_framing.cpp:52-121 | past the preface every stream is the encoding of what was delivered followed by what is left, whatever the handler and the outcome |
| `Framing.CleanEndIffEncoding` | core/protocol/v2_framing.cpp:123-140 | with an accepting handler end of input is clean if and only if the whole input is the preface followed by whole records within the limit, and those are the records delivered |
| `Framing.DecodingEndsForCause` | core/protocol/v2_framing.cpp:52-121 | for every limit, handler and stream: a refusal ends delivery with the refused record and nothing is delivered after it; InvalidPreface is reported exactly when the stream and the preface part, OversizedRecord exactly when a length above the limit follows records that were all accepted |
| `Framing.DecodingIsDescribed` | core/protocol/v2_framing.cpp:52-121 | what was delivered, what is left and the verdict account for the whole stream |
| `Framing.DescriptionIsDecoding` | core/protocol/v2_framing.cpp:52-121 | there is only one such account of a stream, and it is what decoding gives |
| `Framing.EndOfInputTells` | core/protocol/v2_framing.cpp:123-140 | end of input is clean exactly after whole accepted records; TruncatedPreface, TruncatedHeader and TruncatedPayload each name what the stream was cut in |
| `Framing.PrefixDecodesCleanly` | core/protocol/v2_framing.cpp:52-121 | any prefix of a well-formed stream decodes without error to a prefix of its records |
| `Outgoing.Serialize` | core/networking/connection.cpp:34-61 | serialization yields the whole text or nothing, and nothing exactly when the text exceeds the limit |
| `Outgoing.Writer.SendAll` | core/networking/connection.cpp:342-368 | whatever the socket, the deadline and cancellation do, the bytes sent grow by a prefix of the data; all of it goes out exactly when the session is not stopping and some first rounds, interruptions and waits among them, all go on and take it all |
| `Outgoing.Writer.SendPreface` | core/networking/connection.cpp:242-258 | the preface goes out at most once and first; it succeeds exactly when the session runs and it was sent before or the socket takes it, and a cut preface stops the session |
| `Outgoing.Writer.SendInitialHello` | core/networking/connection.cpp:227-240 | the hello goes out exactly on a running session after the preface, within its limit, when the socket takes it |
| `Outgoing.Writer.SendPacket` | core/networking/connection.cpp:306-318 | a packet goes out exactly on a running, ready session, within its limit, when the socket takes it, and for an application packet only under a current authorization; without one the session stops |
| `Outgoing.Writer.SendPacketLocked` | core/networking/connection.cpp:320-340 | a frame within its limit is appended whole, exactly when the socket takes it, or cut short with the session stopping; one beyond its limit sends nothing |
| `Outgoing.PeerReceivesWholeFrames` | core/networking/connection.cpp:306-368 | at every moment the peer's decoder sees no framing error and has every frame that was begun except possibly the last; while the session is not stopping it has all of them |
| `TrustTables.SortedIsUnique` | core/trust/trust_store.cpp:194-203 | a set of permissions has exactly one strictly sorted listing, so equal sets are equal lists |
| `TrustTables.AttemptPermissionsAreWritable` | core/trust/trust_store.cpp:181-192 | the permissions of any stored attempt pass every check of a device's permissions, so copying them cannot fail |
| `TrustTables.EffectKeepsConsistent` | core/trust/trust_schema.hpp:7-53 | every committed operation keeps keys unique across active and revoked rows, revoked rows without permissions, times consistent, CONFIRMED attempts confirmed by both sides and no orphaned permission |
| `TrustHistory.ReachableIsConsistent` | core/trust/trust_schema.hpp:7-53 | the store invariant holds in every state of every run of local and external commits |
| `TrustHistory.CommitAdvancesDevice` | core/trust/trust_store.cpp:476-515 | one commit keeps every device and its key, and either leaves a device and its permissions alone or raises its revision by exactly one |
| `TrustHistory.RevisionCountsWrites` | core/trust/trust_store.cpp:172-179 | over any stretch of any run a device's revision grows by exactly the number of commits that rewrite it, its key never changes, and without such a commit neither row nor permissions change |
| `TrustHistory.EqualRevisionsMeanEqualTrust` | core/trust/trust_store.cpp:408-515 | equal revisions at two moments of a run mean equal row, equal permissions, active or revoked, and equal authorization answers |
| `TrustHistory.StaleStaysStale` | core/trust/trust_store.cpp:446-467 | an authorization snapshot that stops being current never becomes current again |
| `TrustHistory.EqualTokensMeanEqualTrust` | core/trust/trust_store.cpp:469-474 | two equal change tokens mean that the authorization lookup answers the same for every UUID and key, unless the 64-bit or 32-bit counter went all the way round in between |
| `TrustHistory.OnlyFinalizeActivates` | core/trust/trust_store.cpp:616-701 | apart from imports a commit turns devices ACTIVE exactly when it finalizes a pairing, and then only the peer of that pairing |
| `TrustHistory.TrustIsConserved` | core/trust/trust_store.cpp:616-701 | over any run, activations other than imports equal consumed attempts |
| `TrustHistory.ConsumedAttemptWasConfirmed` | core/trust/trust_store.cpp:627-701 | a consumed attempt was CONFIRMED by both sides, unexpired at both clock readings and bound to the activated UUID and key; it is gone afterwards and the peer holds its sorted, duplicate-free permissions |
| `TrustHistory.AttemptKeepsIdentity` | core/trust/trust_store.cpp:584-601 | an attempt has been there since it was last created, or from the start of the run if it never was, with the UUID and key it was created or found with |
| `TrustHistory.NoCreationConsumedTwice` | core/trust/trust_store.cpp:691-698 | from any stored database, two finalizations never consume the same attempt: they differ in the id or in which creation of that id they consume |
| `TrustReplay.DeviceFollowsLastWrite` | core/trust/trust_store.cpp:408-515 | at every moment of every run a device has the row and permissions that the last operation on it left, or those the run began with |
| `TrustReplay.LookupFollowsLastWrite` | core/trust/trust_store.cpp:446-467 | the authorization lookup answers what the last import, update, revocation or finalization of the device settled: its revision and sorted permissions if it left the device ACTIVE under that key, nothing otherwise |
| `TrustReplay.RevokedIsNotTrusted` | core/trust/trust_store.cpp:497-515 | after a revocation the device is REVOKED, holds no permission and is trusted under no key until a pairing with it is finalized |
| `TrustReplay.AttemptFollowsLastHandling` | core/trust/trust_store.cpp:538-614 | an attempt has the row and permissions it was last created or updated with, and is gone once deleted or consumed |
| `TrustReplay.CommitsIffAcceptable` | core/trust/trust_store.cpp:408-701 | an operation commits if and only if it names the current revision, is in turn and its result satisfies the schema |
| `TrustReplay.GenerationCountsTrustChanges` | core/trust/trust_store.cpp:476-515 | the operations counted by the generation are exactly those that change a device row |
| `TrustReplay.TokenMovesIff` | core/trust/trust_store.cpp:469-474 | a commit moves the change token exactly when another connection made it or a device row changed |
| `TrustStore.WritePermissions` | core/trust/trust_store.cpp:181-192 | the insert loop succeeds on sound storage exactly for lists of at most 128 distinct, valid permissions and then adds exactly their rows |
| `TrustStore.ReadPermissions` | core/trust/trust_store.cpp:194-203 | the fetch loop returns the strictly sorted listing of an attempt's permissions, or of a device's if the device is ACTIVE |
| `TrustStore.GrantTrust` | core/trust/trust_store.cpp:640-686 | the peer's row and permission copy are written exactly when the peer is new under an unused key or revoked under the same key; otherwise, or on a storage failure, nothing is |
| `TrustStore.RunFinalize` | core/trust/trust_store.cpp:616-701 | the statements of a finalization yield the full atomic effect or none, and on sound storage fail only when the effect is not allowed |
| `TrustStore.Store.ImportDeviceForAdmin` | core/trust/trust_store.cpp:408-420 | commits the whole import or leaves tables, counters and history alone, for any storage fault |
| `TrustStore.Store.UpdateDevice` | core/trust/trust_store.cpp:476-495 | compare-and-swap update of row and permissions, atomic under any storage fault |
| `TrustStore.Store.RevokeDevice` | core/trust/trust_store.cpp:497-515 | revocation, of an active or revoked row, is atomic, clears the permissions and leaves the device trusted under no key |
| `TrustStore.Store.CreateAttempt` | core/trust/trust_store.cpp:538-549 | creation is atomic and does not advance the generation |
| `TrustStore.Store.UpdateAttempt` | core/trust/trust_store.cpp:584-601 | any status change is allowed under the expected revision and the same identity; atomic |
| `TrustStore.Store.DeleteAttempt` | core/trust/trust_store.cpp:603-614 | deletion takes the attempt's permissions with it; atomic |
| `TrustStore.Store.FinalizePairing` | core/trust/trust_store.cpp:616-701 | atomic under any storage fault, with the run's history and generation extended by exactly this commit |
| `TrustStore.Store.FindActiveAuthorization` | core/trust/trust_store.cpp:446-467 | the lookup matches UUID, key and ACTIVE status together and returns revision and sorted permissions |
| `TrustStore.Store.ReadChangeToken` | core/trust/trust_store.cpp:469-474 | the token is the truncated count of local trust commits and of external commits in the run |
| `SessionAuthentication.Authenticator.AuthorizationIsCurrent` | core/auth/session_authentication.cpp:46-56 | true exactly when the lookup succeeds and the store grants exactly this snapshot |
| `SessionAuthentication.Authenticator.RegisterLiveSession` | core/auth/session_authentication.cpp:58-79 | registers exactly a current snapshot with a callback, of a session not yet registered and outside shutdown, and forces a scan; otherwise changes nothing |
| `SessionAuthentication.Authenticator.UnregisterLiveSession` | core/auth/session_authentication.cpp:81-84 | removes this session and no other |
| `SessionAuthentication.Authenticator.DecideScan` | core/auth/session_authentication.cpp:110-123 | a scan is due exactly when it is forced, the token cannot be read or differs from the last one; a scan is skipped only when everything live still matches the store |
| `SessionAuthentication.Authenticator.Scan` | core/auth/session_authentication.cpp:125-162 | exactly the entries that do not match the store, or whose lookup failed, are invalidated; what remains matches |
| `SessionAuthentication.Authenticator.MonitorRound` | core/auth/session_authentication.cpp:90-163 | after an undisturbed round every live entry matches the store, and if a scan was due exactly the failing entries were invalidated; during shutdown nothing changes |
| `LiveMonitor.StepKeepsInv` | core/auth/session_authentication.cpp:58-164 | every lock region and store call of registrars, monitor and writers keeps the coverage invariant |
| `LiveMonitor.NoLostInvalidation` | core/auth/session_authentication.cpp:58-164 | in every reachable interleaving a live entry that no longer matches the store is covered by the force flag, by a last token that is not the store's, or by the scan in progress |
| `LiveMonitor.QuietPassLeavesOnlyCurrent` | core/auth/session_authentication.cpp:90-163 | a pass that no commit or registration disturbs ends with only current entries, even if token or lookup calls fail |
| `LiveMonitor.OnlyStaleIsEvicted` | core/auth/session_authentication.cpp:146-158 | an entry is evicted only after a failed lookup or when its device has moved past its revision, although permissions are not compared again |
| `LiveMonitor.FailedLookupIsEvicted` | core/auth/session_authentication.cpp:129-158 | in an undisturbed pass every session whose lookup failed or found another authorization is out of the table at the end |
| `LiveMonitor.CommitKeepsPast` | core/auth/session_authentication.cpp:131-141 | no commit makes a stale snapshot current |
| `Registry.DeviceRegistry.PublishAuthenticatedDevice` | core/device/device_registry.cpp:12-49 | an entry that does not match its authorization, or whose session is gone or stopping, changes nothing; any other is refused if and only if the entry for its device has a running session and is preferred or the candidate is not, and otherwise takes that place or a new one, READY, with exactly the entry it displaced reported |
| `Registry.RefusedIffBlocked` | core/device/device_registry.cpp:27-48 | the arbitration rule refuses exactly blocked candidates; a sole connection of either direction is accepted |
| `EndpointAgreement.OfferedDeviceHasOwner` | core/device/device_registry.cpp:27-48 | after any attempts in which some running connection of a device was offered, that device has an owner |
| `Registry.DeviceRegistry.RemoveDevice` | core/device/device_registry.cpp:53-63 | the erase loop keeps the other entries in order |
| `Registry.PublicationKeepsUnique` | core/device/device_registry.cpp:27-48 | publishing keeps one entry per device and per session and makes the candidate the READY owner |
| `Registry.PublicationKeepsOthers` | core/device/device_registry.cpp:27-48 | publishing touches no other session's entry than the one it reports as replaced |
| `Registry.RemovalIsExact` | core/device/device_registry.cpp:53-63 | a removal, however late, takes away its own session's entry and no newer owner's |
| `Registry.RemovalSplits` | core/device/device_registry.cpp:53-63 | removal works entry by entry, so the remaining entries keep their order |
| `Registry.PreferredOwnerStays` | core/device/device_registry.cpp:32-37 | a running preferred owner is never displaced by a publication |
| `EndpointAgreement.AgreeIff` | core/networking/connection.cpp:164-165 | for all distinct identity texts of either case, the two ends of a socket disagree if and only if the first character in which the higher UUID's file differs from the printed lower UUID is one of A-F against a letter; otherwise both prefer the lower UUID's socket |
| `EndpointAgreement.CanonicalEndpointsAgree` | core/networking/connection.cpp:164-165 | canonical ids always agree, and the preferred socket is the one opened by the lower UUID |
| `EndpointAgreement.UpperCaseFileCanDisagree` | core/networking/connection.cpp:164-165 | a migrated upper-case id can make each end prefer the socket it opened itself |
| `EndpointAgreement.GeneratedEndpointsAgree` | core/identity/device_identity.cpp:95-109 | two identities that the program generated always agree, on the lower UUID's socket |
| `EndpointAgreement.OwnUuidMatchesFileIff` | core/networking/connection.cpp:133-136 | the printed own UUID is the text of the identity file if and only if the file is canonical |
| `EndpointAgreement.UpperCaseFileHidesOwnUuid` | core/networking/connection.cpp:133-136 | an accepted upper-case file differs from its own printed UUID |
| `EndpointAgreement.PreferredConnectionWins` | core/device/device_registry.cpp:27-48 | in any order and number of attempts, the preferred of two connections to one peer ends as the owner |
| `EndpointAgreement.BothKeepTheLowerSocket` | core/device/device_registry.cpp:27-48 | when the ends agree, both registries end owning the socket opened by the lower UUID |
| `Connection.Session.AuthorizeVerifiedIdentity` | core/networking/connection.cpp:126-138 | authorizes exactly a pair the store trusts now whose printed UUID is not the text of the own identity file, on a session that is neither stopping, ready nor late; the own UUID is therefore refused when the file is canonical and treated like any other when it is not |
| `Connection.Session.ActivateAuthorizedPeer` | core/networking/connection.cpp:151-208 | activation succeeds if and only if the session runs, is neither ready nor late, its authorization is current, its live slot is free and no connection blocks it in the registry; it then enters both tables, and otherwise leaves no trace in either |
| `Connection.Session.FinalizeDisconnect` | core/networking/connection.cpp:370-383 | cleanup is idempotent, removes this session from both tables and touches no other session |
| `Sessions.StepKeepsInv` | core/networking/connection.cpp:151-208 | every step of activation, replacement, cancellation, cleanup, expiry and monitoring keeps tables and sessions coherent |
| `Sessions.TablesAgreeWithSessions` | core/networking/connection.cpp:174-206 | in every reachable state a usable connection is live under exactly its authorization or its callback is due, and owns its entry or its replacement disconnect is due |
| `Sessions.SettledSessionsAreAuthorized` | core/networking/connection.cpp:179-200 | whenever the monitor has caught up, every usable connection of every reachable state holds an authorization the store still grants |
| `Sessions.FinalizedNeverReturns` | core/networking/connection.cpp:370-383 | a finalized session is in neither table then or at any later point of the run |
| `Sessions.PreferredOwnerIsNeverDisplaced` | core/device/device_registry.cpp:34-37 | no step of the whole system takes the entry from a running preferred owner |
| `IdentityFiles.ManifestIsMarked` | core/identity/device_identity.cpp:302-302 | the file written for a UUID is read back as that UUID with the key-required marker |
| `IdentityFiles.KeyRecordIsReadBack` | core/identity/device_identity.cpp:309-313 | a key record written for a UUID and a genuine pair is read back as that pair |
| `IdentityFiles.LoadsIffEstablished` | core/identity/device_identity.cpp:252-299 | a call loads an identity if and only if the directory holds exactly its marked UUID and its genuine key record, with no temporary |
| `IdentityFiles.CreatesIffBlankOrLegacy` | core/identity/device_identity.cpp:252-301 | a call creates if and only if the directory is blank, under a fresh UUID, or holds only a UUID with newlines, under that UUID |
| `DeviceIdentity.ReadIdentityFile` | core/identity/device_identity.cpp:258-271 | the file is marked, a legacy UUID with trailing newlines stripped, or malformed |
| `DeviceIdentity.Machine.Examine` | core/identity/device_identity.cpp:252-299 | the checks of temporaries, identity, key presence and key contents decide between refusing, loading and creating |
| `DeviceIdentity.Machine.WriteData` | core/identity/device_identity.cpp:211-217 | short writes are continued; the loop completes exactly when no write call fails before all bytes are taken |
| `DeviceIdentity.SteadyWritesComplete` | core/identity/device_identity.cpp:211-217 | any write calls that do not fail and take enough between them complete |
| `DeviceIdentity.Machine.AtomicWrite` | core/identity/device_identity.cpp:208-225 | short writes and failures at any call leave a run of the protocol; it succeeds exactly when no call fails and no temporary is in the way, and only after the directory is synchronized |
| `DeviceIdentity.Machine.OpenAndLock` | core/identity/device_identity.cpp:131-187 | a call that gets the lock has flushed the directory, which nothing changed since |
| `DeviceIdentity.Machine.LoadOrCreate` | core/identity/device_identity.cpp:244-317 | without faults an established identity is returned as it is, a directory with only a legacy UUID yields that UUID with the new keys, a blank one a fresh identity, and nothing else succeeds; the result is established on disk, equals every earlier result and no crash can take it away |
| `IdentitySafety.StepKeepsInv` | core/identity/device_identity.cpp:208-317 | every system call, flush, failure, kill, writeback and crash, by any number of calls, keeps the protocol invariant |
| `IdentitySafety.OneIdentity` | core/identity/device_identity.cpp:244-317 | from any directory and over any run all successful calls return one identity, and at most one key pair is ever made |
| `IdentitySafety.LegacyUuidIsKept` | core/identity/device_identity.cpp:266-270 | a migrated UUID is the only one ever made keys for or returned |
| `IdentitySafety.MarkerPrecedesKeys` | core/identity/device_identity.cpp:303-308 | keys are generated only under a durable marker and only if none were generated before |
| `IdentitySafety.EstablishedIsNeverRekeyed` | core/identity/device_identity.cpp:273-277 | a directory that starts out marked never gets new keys |
| `IdentitySafety.CreatedIdentityIsPermanent` | core/identity/device_identity.cpp:314-316 | an identity returned by the call that created it is found by every later call after any failures and crashes |
| `FoundIdentities.FoundIdentitySurvivesIff` | core/identity/device_identity.cpp:111-145 | for every run, an identity that a call finds survives every crash, whatever else the system wrote back, if and only if its own flush or a later sync followed the last rename; otherwise a run with the same system calls can lose it |
| `FoundIdentities.SecuredIdentityIsPermanent` | core/identity/device_identity.cpp:244-299 | an identity found after such a flush is found by every later call after any failures and crashes |
| `FoundIdentities.FoundIdentityCanBeLost` | core/identity/device_identity.cpp:249-250 | two overlapping calls for every UUID and key pair: the first is killed after its last rename, the second returns the identity, and a crash leaves a directory every call refuses |
| `Events.EventBus.EmitMessage` | core/events/event_bus.cpp:16-26 | after every append, of any id and text, the queue is the last 256 of all events since it was consumed |
| `Events.EventBus.ConsumeEvents` | core/events/event_bus.cpp:28-33 | returns in order the last 256 events since the previous call and empties the queue |
| `Events.QueueIsLastPuts` | core/events/event_bus.cpp:16-33 | over any history of appends and consumptions, trimming at each append leaves the last 256 appended since the last consumption |
| `Events.PutsAreExact` | core/events/event_bus.cpp:16-33 | those are all appends since the last consumption, each once and in order |
| `Events.Route` | core/protocol/router/packet_router.cpp:15-53 | only a message with text from an authenticated peer queues an event, under the authorized peer's id; each other kind of packet and each defect of a message has its own action |
| `Events.Classify` | core/networking/connection.cpp:385-425 | before a session is ready exactly the first well-formed hello with an id and of control size is greeted; on a ready session with a peer exactly pings and pongs of control size are routed unasked and exactly application packets are checked with the store |
| `Events.Receiver.AdmitRecord` | core/networking/connection.cpp:385-425 | the checks in front of the router give the stated verdict and stop the session exactly on refusal |
| `Events.Receiver.DispatchRecord` | core/networking/connection.cpp:426-438 | routing queues the packet's event under the peer's id without asking the store again |
| `Events.Receiver.HandleRecord` | core/networking/connection.cpp:385-438 | undisturbed, a record keeps the session alive if and only if it is the timely first setup hello, or the session is ready with a peer and it is a control packet within its limit or an application packet under a current authorization whose text is not a non-string; an event is queued if and only if such a message has text, under the authorized peer's id whatever the packet claims |
| `EventDelivery.StepKeepsInv` | core/networking/connection.cpp:385-438 | under every interleaving a packet past the setup checks belongs to a ready session with a peer |
| `EventDelivery.EveryConsumedEventHasAnOrigin` | core/networking/connection.cpp:385-438 | every event consumed in any run comes from a record that arrived earlier in that run on a session not stopping, after a later step at which that session was ready and the store of that moment granted its peer; it has that peer's id and that record's text |
| `EventDelivery.EventsHaveTheirOwnOrigins` | core/networking/connection.cpp:385-438 | no two events share a record or an answer of the store |
| `EventDelivery.QueueHoldsLastEmissions` | core/events/event_bus.cpp:16-33 | at every moment of every run the queue is the last 256 of the events emitted since it was last consumed, in order |
| `EventDelivery.AuthorizedWhenQueuedIff` | core/networking/connection.cpp:420-427 | the peer of an event is still authorized when the event is queued if and only if no commit since the store's answer rewrote its record |
| `EventDelivery.RevocationCanComeTooLate` | core/networking/connection.cpp:420-427 | for every granted peer and every text there is a run, from opening the session on, that queues the event right after the peer was revoked |

## Left out

- LiveMonitor.NoLostInvalidation: commits that would carry a counter all the way round (2^64 local or 2^32 external) between two readings of the token are not steps of the model.
- Outgoing.Writer.BecomeReady: requires that the local preface was sent; activation itself does not look at that flag, the order comes from the protocol.
- Events.Receiver.HandleRecord: runs undisturbed and leaves out the pong that a ping is answered with; `EventDelivery` has a step for each reading of `stopping`, `ready` and the store.
- EventDelivery.EveryConsumedEventHasAnOrigin: does not say that the session is still running when the event is queued, because the code looks at `stopping` only when the record arrives.
- Registry.DeviceRegistry.PublishAuthenticatedDevice: display names, device type and socket number of an entry carry no decision and are not modelled.
- TrustTables.EffectKeepsConsistent: `length` of text counts characters of well-formed UTF-8; malformed text is counted the same way.
- Sockets, polling, wall-clock deadlines, threads and condition variables appear only as nondeterministic steps or parameters; that the monitor is eventually woken is not stated.
- Shutdown of the process and of the monitor thread, apart from the refusals it causes.
- SQLite itself: opening, migration, pragmas, write-ahead logging, file modes and ownership, and a commit that reports failure but took effect.
- Administrative lookups (`find_device`, `find_by_public_key`, `state`, `permissions`, `configuration`).
- JSON parsing and printing; a packet is its type, claimed id, text field and serialized pieces.
- The Noise wrapper and the cryptography behind key pairs and proofs of possession.
- Discovery, the HTTP control API, services, logging and packet monitoring.
