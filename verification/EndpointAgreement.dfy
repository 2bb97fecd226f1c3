/** Two endpoints that dial each other at the same time: when they agree on which of the two
    sockets to keep, and that both registries then end up with it. */
module EndpointAgreement {
  import opened Bytes
  import opened UuidCodec
  import opened Registry

  /** The preference an endpoint computes: its own id is the text of its identity file, the
      peer's the printed form of the UUID it authenticated as. */
  predicate Preferred(myId: Text, peerId: Text, outgoing: bool) {
    Less(myId, peerId) == outgoing
  }

  /** Two endpoints, named by the texts of their identity files, which may be migrated
      files with upper-case digits. */
  ghost predicate DistinctEndpoints(a: Text, b: Text) {
    IsUuidText(a) && IsUuidText(b) && FromText(a) != FromText(b)
  }

  /** Both ends of the socket that `a` opened compute the same preference. */
  predicate Agree(a: Text, b: Text) {
    Preferred(a, LowerCase(b), true) == Preferred(b, LowerCase(a), false)
  }

  lemma DistinctPrintedForms(a: Text, b: Text)
    requires DistinctEndpoints(a, b)
    ensures LowerCase(a) != LowerCase(b)
  {
    PrintAfterParseIsLowerCase(a);
    PrintAfterParseIsLowerCase(b);
    ParseInvertsPrint(FromText(a));
    ParseInvertsPrint(FromText(b));
  }

  lemma BelowLowerCase(a: Text, c: Text)
    requires Less(LowerCase(a), c)
    ensures Less(a, c)
  {
    LowerCaseIsAbove(a);
    if a != LowerCase(a) { Transitive(a, LowerCase(a), c); }
  }

  /** Let `low` be the endpoint with the lower UUID. The ends agree exactly when the other
      endpoint computes the documented preference; then so does `low`. */
  lemma AgreeIfHigherDoes(low: Text, high: Text)
    requires DistinctEndpoints(low, high) && Less(FromText(low), FromText(high))
    ensures Agree(low, high) <==> !Less(high, LowerCase(low))
    ensures Agree(low, high) ==> Preferred(low, LowerCase(high), true) && Preferred(high, LowerCase(low), false)
    ensures Agree(low, high) <==> Agree(high, low)
  {
    PrintAfterParseIsLowerCase(low);
    PrintAfterParseIsLowerCase(high);
    PrintPreservesOrder(FromText(low), FromText(high));
    BelowLowerCase(low, LowerCase(high));
  }

  /** Where the file of the higher endpoint first differs from the printed lower UUID it
      holds an upper-case digit, and the printed UUID a letter. */
  ghost predicate Misleads(high: Text, low: Text)
    requires DistinctEndpoints(low, high)
  {
    DistinctPrintedForms(low, high);
    var p := FirstDifference(high, LowerCase(low));
    65 <= high[p] <= 70 && 97 <= LowerCase(low)[p]
  }

  lemma MisleadingSortsBelow(low: Text, high: Text)
    requires DistinctEndpoints(low, high) && Less(LowerCase(low), LowerCase(high))
    ensures Less(high, LowerCase(low)) <==> Misleads(high, low)
  {
    DistinctPrintedForms(low, high);
    var printed := LowerCase(low);
    var p := FirstDifference(high, printed);
    Trichotomy(high, printed);
    if high[p] < printed[p] {
      FirstDifferenceDecides(high, printed, p);
      if Lower(high[p]) < printed[p] {
        assert LowerCase(high)[..p] == printed[..p] by {
          assert forall r :: 0 <= r < p ==> high[r] == high[..p][r] == printed[..p][r];
        }
        FirstDifferenceDecides(LowerCase(high), printed, p);
        Trichotomy(printed, LowerCase(high));
      }
    } else {
      FirstDifferenceDecides(printed, high, p);
    }
  }

  /** Let `low` be the endpoint with the lower UUID. The ends disagree exactly when the first
      character in which the other file differs from the printed form of `low` is one of A-F
      against a letter; otherwise both prefer the socket opened by `low`. */
  lemma AgreeIff(low: Text, high: Text)
    requires DistinctEndpoints(low, high) && Less(FromText(low), FromText(high))
    ensures Agree(low, high) <==> !Misleads(high, low)
    ensures Agree(low, high) ==> Preferred(low, LowerCase(high), true) && Preferred(high, LowerCase(low), false)
    ensures Agree(low, high) <==> Agree(high, low)
  {
    AgreeIfHigherDoes(low, high);
    PrintAfterParseIsLowerCase(low);
    PrintAfterParseIsLowerCase(high);
    PrintPreservesOrder(FromText(low), FromText(high));
    MisleadingSortsBelow(low, high);
  }

  /** Canonical ids always agree. */
  lemma CanonicalEndpointsAgree(a: Text, b: Text)
    requires DistinctEndpoints(a, b) && IsCanonical(a) && IsCanonical(b)
    ensures Agree(a, b) && Agree(b, a)
    ensures Less(FromText(a), FromText(b)) <==> Preferred(a, b, true)
  {
    Trichotomy(FromText(a), FromText(b));
    PrintAfterParseIsLowerCase(a);
    PrintAfterParseIsLowerCase(b);
    PrintPreservesOrder(FromText(a), FromText(b));
    Trichotomy(a, b);
    DistinctPrintedForms(a, b);
  }

  /** Identities that the program generates itself are canonical, so they always agree. */
  lemma GeneratedEndpointsAgree(random: Uuid, random': Uuid)
    requires GeneratedUuid(random) != GeneratedUuid(random')
    ensures var a, b := ToText(GeneratedUuid(random)), ToText(GeneratedUuid(random'));
            && Agree(a, b) && Agree(b, a)
            && (Preferred(a, b, true) <==> Less(GeneratedUuid(random), GeneratedUuid(random')))
  {
    var u, v := GeneratedUuid(random), GeneratedUuid(random');
    PrintedIsCanonical(u);
    PrintedIsCanonical(v);
    ParseInvertsPrint(u);
    ParseInvertsPrint(v);
    CanonicalEndpointsAgree(ToText(u), ToText(v));
  }

  const LOWER_B: Text := seq(UUID_SIZE, p => if IsHyphenPosition(p) then HYPHEN else 98)
  const UPPER_C: Text := seq(UUID_SIZE, p => if IsHyphenPosition(p) then HYPHEN else 67)

  lemma ExampleIds()
    ensures IsUuidText(LOWER_B) && IsUuidText(UPPER_C) && LowerCase(LOWER_B) == LOWER_B
    ensures FromText(LOWER_B)[0] == 0xBB && FromText(UPPER_C)[0] == 0xCC
  {
  }

  /** An upper-case identity file can break the agreement: with the files bbbbbbbb-... and
      CCCCCCCC-... each end prefers the socket it opened itself. */
  lemma UpperCaseFileCanDisagree()
    ensures DistinctEndpoints(LOWER_B, UPPER_C) && !Agree(LOWER_B, UPPER_C)
    ensures Preferred(LOWER_B, LowerCase(UPPER_C), true) && Preferred(UPPER_C, LowerCase(LOWER_B), true)
  {
    ExampleIds();
    assert Less(FromText(LOWER_B), FromText(UPPER_C));
    assert LOWER_B[0] == 98 && UPPER_C[0] == 67;
    AgreeIfHigherDoes(LOWER_B, UPPER_C);
  }

  /** The device's own UUID, printed, is the text of its identity file exactly when that file
      is canonical. */
  lemma OwnUuidMatchesFileIff(myId: Text)
    requires IsUuidText(myId)
    ensures ToText(FromText(myId)) == myId <==> IsCanonical(myId)
  {
    PrintAfterParseIsLowerCase(myId);
  }

  lemma UpperCaseFileHidesOwnUuid()
    ensures IsUuidText(UPPER_C) && ToText(FromText(UPPER_C)) != UPPER_C
  {
    ExampleIds();
    OwnUuidMatchesFileIff(UPPER_C);
    assert LowerCase(UPPER_C)[0] == 99;
  }

  // ---- Both registries end up with the same socket ----

  /** One endpoint's attempts to publish its two connections to the same peer. Sessions in
      `running` are neither stopping nor gone at that moment. */
  datatype Attempt = Attempt(device: Device, running: set<SessionId>)

  function PublishAll(devices: seq<Device>, attempts: seq<Attempt>): (r: seq<Device>)
    decreases |attempts|
  {
    if attempts == [] then devices else
      var d, running := attempts[0].device, attempts[0].running;
      var p := if d.sessionId in running then Publication(devices, d, running) else Registry.Rejected;
      PublishAll(if p.Accepted? then p.devices else devices, attempts[1..])
  }

  /** The entry of `d.deviceId` is held by `d`'s session, as a preferred connection. */
  ghost predicate OwnedBy(devices: seq<Device>, d: Device) {
    var k := Find(devices, d.deviceId);
    k < |devices| && devices[k].sessionId == d.sessionId && devices[k].preferred
  }

  /** Whoever holds the entry of `other.deviceId` is `other` itself or no longer runs. */
  ghost predicate Displaceable(devices: seq<Device>, other: Device, attempts: seq<Attempt>) {
    var k := Find(devices, other.deviceId);
    k < |devices| ==>
      || (devices[k].sessionId == other.sessionId && !devices[k].preferred)
      || forall i :: 0 <= i < |attempts| ==> devices[k].sessionId !in attempts[i].running
  }

  /** Every attempt publishes one of the two connections, and the first one always runs. */
  ghost predicate Competing(attempts: seq<Attempt>, good: Device, other: Device) {
    && good.preferred && !other.preferred && good.deviceId == other.deviceId && good.sessionId != other.sessionId
    && forall i :: 0 <= i < |attempts| ==>
         (attempts[i].device == good || attempts[i].device == other) && good.sessionId in attempts[i].running
  }

  lemma {:induction false} FindAfterUpdate(devices: seq<Device>, id: Text, k: nat, d: Device)
    requires k == Find(devices, id) && d.deviceId == id
    ensures k < |devices| ==> Find(devices[k := d], id) == k
    ensures k == |devices| ==> Find(devices + [d], id) == k
  {
    if devices != [] && devices[0].deviceId != id {
      FindAfterUpdate(devices[1..], id, k - 1, d);
      if k < |devices| { assert devices[k := d][1..] == devices[1..][k - 1 := d]; }
      assert (devices + [d])[1..] == devices[1..] + [d];
    }
  }

  lemma PublishedIsFound(devices: seq<Device>, d: Device, running: set<SessionId>)
    requires Publication(devices, d, running).Accepted?
    ensures var devices' := Publication(devices, d, running).devices;
            var k := Find(devices', d.deviceId);
            k < |devices'| && devices'[k] == d.(state := Ready)
  {
    FindAfterUpdate(devices, d.deviceId, Find(devices, d.deviceId), d.(state := Ready));
  }

  /** One attempt either makes the preferred connection the owner or keeps that possible. */
  lemma AttemptFavoursPreferred(devices: seq<Device>, attempts: seq<Attempt>, good: Device, other: Device)
    requires Competing(attempts, good, other) && attempts != []
    requires OwnedBy(devices, good) || Displaceable(devices, other, attempts)
    ensures var devices' := PublishAll(devices, attempts[..1]);
            if OwnedBy(devices, good) || attempts[0].device == good then OwnedBy(devices', good)
            else Displaceable(devices', other, attempts[1..])
  {
    var d, running := attempts[0].device, attempts[0].running;
    assert attempts[..1][1..] == [];
    if d.sessionId in running && Publication(devices, d, running).Accepted? {
      PublishedIsFound(devices, d, running);
    }
  }

  lemma {:induction false} PublishAllSplits(devices: seq<Device>, attempts: seq<Attempt>)
    requires attempts != []
    ensures PublishAll(devices, attempts) == PublishAll(PublishAll(devices, attempts[..1]), attempts[1..])
  {
  }

  /** In whatever order, and however often, an endpoint tries to publish a preferred and a
      nonpreferred connection to one peer, the preferred one ends up owning the entry as
      long as it keeps running; the other may be disconnected at any point. */
  lemma {:induction false} PreferredConnectionWins(devices: seq<Device>, attempts: seq<Attempt>, good: Device, other: Device)
    requires Competing(attempts, good, other)
    requires OwnedBy(devices, good) ||
             (Displaceable(devices, other, attempts) && exists i :: 0 <= i < |attempts| && attempts[i].device == good)
    ensures OwnedBy(PublishAll(devices, attempts), good)
    decreases |attempts|
  {
    if attempts != [] {
      AttemptFavoursPreferred(devices, attempts, good, other);
      PublishAllSplits(devices, attempts);
      var devices' := PublishAll(devices, attempts[..1]);
      if !OwnedBy(devices', good) {
        var i :| 0 <= i < |attempts| && attempts[i].device == good;
        assert attempts[1..][i - 1].device == good;
      }
      PreferredConnectionWins(devices', attempts[1..], good, other);
    }
  }

  lemma {:induction false} OwnedStaysOwned(devices: seq<Device>, attempts: seq<Attempt>, id: Text)
    requires Find(devices, id) < |devices|
    ensures Find(PublishAll(devices, attempts), id) < |PublishAll(devices, attempts)|
    decreases |attempts|
  {
    if attempts != [] {
      PublishAllSplits(devices, attempts);
      var d := attempts[0].device;
      var devices' := PublishAll(devices, attempts[..1]);
      assert attempts[..1][1..] == [];
      var k := Find(devices, id);
      assert k < |devices'| && devices'[k].deviceId == id;
      OwnedStaysOwned(devices', attempts[1..], id);
    }
  }

  /** Whatever the direction of a connection, once it was offered while it ran its device has
      an owner, and no later attempt takes the last one away. */
  lemma {:induction false} OfferedDeviceHasOwner(devices: seq<Device>, attempts: seq<Attempt>, i: nat)
    requires i < |attempts| && attempts[i].device.sessionId in attempts[i].running
    ensures exists d :: d in PublishAll(devices, attempts) && d.deviceId == attempts[i].device.deviceId
    decreases |attempts|
  {
    PublishAllSplits(devices, attempts);
    var devices' := PublishAll(devices, attempts[..1]);
    assert attempts[..1][1..] == [];
    if i > 0 {
      OfferedDeviceHasOwner(devices', attempts[1..], i - 1);
    } else {
      var d, running, id := attempts[0].device, attempts[0].running, attempts[0].device.deviceId;
      RefusedIffBlocked(devices, d, running);
      if Publication(devices, d, running).Accepted? { PublishedIsFound(devices, d, running); }
      OwnedStaysOwned(devices', attempts[1..], id);
      var all := PublishAll(devices', attempts[1..]);
      assert all[Find(all, id)] in all;
    }
  }

  /** A connection of endpoint `myId` to `peerId`, as activation would publish it. */
  ghost predicate IsConnection(d: Device, myId: Text, peerId: Text, outgoing: bool) {
    d.deviceId == LowerCase(peerId) && d.preferred == Preferred(myId, LowerCase(peerId), outgoing)
  }

  /** Endpoints that agree and each publish both sockets, in any order at either end, both
      end with the socket opened by the lower UUID. */
  lemma BothKeepTheLowerSocket(
      low: Text, high: Text,
      atLow: seq<Device>, lowAttempts: seq<Attempt>, lowOut: Device, lowIn: Device,
      atHigh: seq<Device>, highAttempts: seq<Attempt>, highOut: Device, highIn: Device)
    requires DistinctEndpoints(low, high) && Less(FromText(low), FromText(high)) && Agree(low, high)
    requires IsConnection(lowOut, low, high, true) && IsConnection(lowIn, low, high, false)
    requires IsConnection(highOut, high, low, true) && IsConnection(highIn, high, low, false)
    requires lowOut.sessionId != lowIn.sessionId && highOut.sessionId != highIn.sessionId
    requires forall i :: 0 <= i < |lowAttempts| ==>
               (lowAttempts[i].device == lowOut || lowAttempts[i].device == lowIn) && lowOut.sessionId in lowAttempts[i].running
    requires forall i :: 0 <= i < |highAttempts| ==>
               (highAttempts[i].device == highIn || highAttempts[i].device == highOut) && highIn.sessionId in highAttempts[i].running
    requires Displaceable(atLow, lowIn, lowAttempts) && exists i :: 0 <= i < |lowAttempts| && lowAttempts[i].device == lowOut
    requires Displaceable(atHigh, highOut, highAttempts) && exists i :: 0 <= i < |highAttempts| && highAttempts[i].device == highIn
    ensures OwnedBy(PublishAll(atLow, lowAttempts), lowOut)
    ensures OwnedBy(PublishAll(atHigh, highAttempts), highIn)
  {
    AgreeIff(low, high);
    PreferredConnectionWins(atLow, lowAttempts, lowOut, lowIn);
    PreferredConnectionWins(atHigh, highAttempts, highIn, highOut);
  }
}
