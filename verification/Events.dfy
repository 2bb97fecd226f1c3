/** From an incoming record to the event queue: the checks of `handle_record`, the packet
    router, the message handler and the bounded event bus, as one thread runs them. How they
    interleave with commits and other sessions is the subject of `EventDelivery`. */
module Events {
  import opened Bytes
  import opened TrustTables
  import opened TrustHistory
  import opened Registry
  import opened Connection
  import opened Outgoing

  const MAX_STORED_EVENTS := 256

  datatype Event = Event(deviceId: Text, message: Text)

  /** The last `n` elements, or all of them. */
  function Last<T>(s: seq<T>, n: nat): (r: seq<T>) {
    if |s| <= n then s else s[|s| - n..]
  }

  /** Trimming after every append keeps what trimming once at the end would keep. */
  lemma LastAfterAppend<T>(s: seq<T>, x: T, n: nat)
    requires n > 0
    ensures Last(Last(s, n) + [x], n) == Last(s + [x], n)
  {
  }

  // ---- The queue over a history of operations ----

  datatype BusOp = Put(event: Event) | Drain | Skip

  /** What the queue holds after the first `k` operations. */
  function QueueAfter(ops: seq<BusOp>, k: nat): (events: seq<Event>)
    requires k <= |ops|
  {
    if k == 0 then [] else
      match ops[k - 1]
      case Put(event) => Last(QueueAfter(ops, k - 1) + [event], MAX_STORED_EVENTS)
      case Drain => []
      case Skip => QueueAfter(ops, k - 1)
  }

  /** No operation between `j` and `k` drains the queue. */
  ghost predicate Undrained(ops: seq<BusOp>, j: nat, k: nat)
    requires k <= |ops|
  {
    forall c :: j < c < k ==> !ops[c].Drain?
  }

  /** The operations since the last drain before `k` that put an event, in order. */
  function Puts(ops: seq<BusOp>, k: nat): (js: seq<nat>)
    requires k <= |ops|
    ensures forall m :: 0 <= m < |js| ==> js[m] < k && ops[js[m]].Put?
  {
    if k == 0 || ops[k - 1].Drain? then []
    else if ops[k - 1].Put? then Puts(ops, k - 1) + [k - 1]
    else Puts(ops, k - 1)
  }

  /** They are all of them, each once. */
  lemma {:induction false} PutsAreExact(ops: seq<BusOp>, k: nat)
    requires k <= |ops|
    ensures var js := Puts(ops, k);
            && (forall m, n :: 0 <= m < n < |js| ==> js[m] < js[n])
            && (forall j :: j in js <==> 0 <= j < k && ops[j].Put? && Undrained(ops, j, k))
  {
    if k > 0 {
      PutsAreExact(ops, k - 1);
      forall j: nat
        ensures j in Puts(ops, k) <==> j < k && ops[j].Put? && Undrained(ops, j, k)
      {
        assert j < k - 1 ==> (Undrained(ops, j, k) <==> Undrained(ops, j, k - 1) && !ops[k - 1].Drain?);
      }
    }
  }

  function EventsAt(ops: seq<BusOp>, js: seq<nat>): (events: seq<Event>)
    requires forall m :: 0 <= m < |js| ==> js[m] < |ops| && ops[js[m]].Put?
    ensures |events| == |js|
  {
    seq(|js|, m requires 0 <= m < |js| => ops[js[m]].event)
  }

  /** The queue is the last 256 of the events put since it was last drained, in order. */
  lemma {:induction false} QueueIsLastPuts(ops: seq<BusOp>, k: nat)
    requires k <= |ops|
    ensures QueueAfter(ops, k) == Last(EventsAt(ops, Puts(ops, k)), MAX_STORED_EVENTS)
  {
    if k > 0 {
      QueueIsLastPuts(ops, k - 1);
      if ops[k - 1].Put? {
        var js := Puts(ops, k - 1);
        LastAfterAppend(EventsAt(ops, js), ops[k - 1].event, MAX_STORED_EVENTS);
        assert EventsAt(ops, js + [k - 1]) == EventsAt(ops, js) + [ops[k - 1].event];
      }
    }
  }

  /** Which operation put the `n`-th event of the queue there. */
  lemma QueuedBy(ops: seq<BusOp>, k: nat, n: nat) returns (j: nat)
    requires k <= |ops| && n < |QueueAfter(ops, k)|
    ensures j < k && ops[j] == Put(QueueAfter(ops, k)[n]) && Undrained(ops, j, k)
  {
    QueueIsLastPuts(ops, k);
    PutsAreExact(ops, k);
    var js := Puts(ops, k);
    j := js[|js| - |QueueAfter(ops, k)| + n];
    assert j in js;
  }

  class EventBus {
    var events: seq<Event>
    /** Everything emitted since the queue was last consumed. */
    ghost var emitted: seq<Event>

    ghost predicate Valid()
      reads this
    {
      events == Last(emitted, MAX_STORED_EVENTS)
    }

    constructor ()
      ensures Valid() && events == [] && emitted == []
    {
      events, emitted := [], [];
    }

    method EmitMessage(deviceId: Text, message: Text)
      requires Valid()
      modifies this
      ensures Valid() && emitted == old(emitted) + [Event(deviceId, message)]
    {
      LastAfterAppend(emitted, Event(deviceId, message), MAX_STORED_EVENTS);
      events := events + [Event(deviceId, message)];
      if |events| > MAX_STORED_EVENTS {
        events := events[|events| - MAX_STORED_EVENTS..];
      }
      emitted := emitted + [Event(deviceId, message)];
    }

    /** Hands over, in order, the last 256 of the events since the previous call. */
    method ConsumeEvents() returns (out: seq<Event>)
      requires Valid()
      modifies this
      ensures Valid() && events == [] && emitted == []
      ensures out == Last(old(emitted), MAX_STORED_EVENTS)
    {
      out := events;
      events, emitted := [], [];
    }
  }

  // ---- Packets ----

  datatype Kind = Hello | Ping | Pong | Message | Unknown

  /** The `text` member of a packet's payload. */
  datatype TextField = Missing | NotAString | Present(text: Text)

  /** A packet that parsed; `deviceId` is what the sender claims to be. */
  datatype Incoming = Incoming(kind: Kind, deviceId: Text, wellFormedHello: bool, field: TextField) {
    predicate IsControl() {
      kind.Hello? || kind.Ping? || kind.Pong?
    }

    /** A message whose text can be delivered. */
    predicate HasText() {
      kind.Message? && field.Present?
    }
  }

  datatype Action = Continue | Disconnect | Throw

  function RouteAction(packet: Incoming, authenticated: bool): (a: Action) {
    match packet.kind
    case Hello => if packet.wellFormedHello && packet.deviceId != [] then Continue else Disconnect
    case Message =>
      if !authenticated then Disconnect else if packet.field.NotAString? then Throw else Continue
    case _ => Continue
  }

  /** The event a routed packet queues, under the authorized peer's id. */
  function Emission(packet: Incoming, peer: Option<Snapshot>): (e: seq<Event>) {
    if packet.HasText() && peer.Some? then [Event(DeviceIdOf(peer.value), packet.field.text)] else []
  }

  /** The handlers behind the router. */
  method Route(packet: Incoming, peer: Option<Snapshot>, bus: EventBus) returns (action: Action)
    requires bus.Valid()
    modifies bus
    ensures bus.Valid() && bus.emitted == old(bus.emitted) + Emission(packet, peer)
    ensures action == RouteAction(packet, peer.Some?)
  {
    match packet.kind
    case Hello => action := if packet.wellFormedHello && packet.deviceId != [] then Continue else Disconnect;
    case Message =>
      if peer.None? { return Disconnect; }
      match packet.field {
        case Missing => action := Continue;
        case NotAString => action := Throw;
        case Present(text) =>
          bus.EmitMessage(DeviceIdOf(peer.value), text);
          action := Continue;
      }
    case _ => action := Continue;
  }

  // ---- What happens to a record before it is routed ----

  /** `Refuse` ends the session, `Greet` accepts the one setup hello, `Check` asks the trust
      store first and `Admit` goes straight to the router. */
  datatype Verdict = Refuse | Greet | Check | Admit

  predicate TooLate(ready: bool, late: bool) {
    !ready && late
  }

  predicate OversizedSetup(ready: bool, greeted: bool, size: nat) {
    !ready && !greeted && size > MAX_CONTROL_RECORD_SIZE
  }

  /** The one record that is welcome before a session is ready. */
  predicate IsSetupHello(size: nat, record: Option<Incoming>) {
    && record.Some? && record.value.kind.Hello? && record.value.wellFormedHello && record.value.deviceId != []
    && size <= MAX_CONTROL_RECORD_SIZE
  }

  /** The verdict on a record of `size` bytes; `record` is what it parses to, if it does. */
  function Classify(ready: bool, greeted: bool, size: nat, record: Option<Incoming>, hasPeer: bool): (v: Verdict)
    ensures v.Greet? <==> !ready && !greeted && IsSetupHello(size, record)
    ensures v.Check? <==> ready && hasPeer && record.Some? && !record.value.IsControl()
    ensures v.Admit? <==> ready && hasPeer && record.Some? && size <= MAX_CONTROL_RECORD_SIZE
                          && (record.value.kind.Ping? || record.value.kind.Pong?)
  {
    if record.None? || (record.value.IsControl() && size > MAX_CONTROL_RECORD_SIZE) then Refuse
    else if !ready then
      if !record.value.kind.Hello? || greeted || RouteAction(record.value, false) == Disconnect then Refuse else Greet
    else if record.value.kind.Hello? || !hasPeer then Refuse
    else if record.value.IsControl() then Admit
    else Check
  }

  /** The receiving side of a connection. */
  class Receiver {
    const session: Session
    const bus: EventBus
    var peerHelloReceived: bool

    constructor (session: Session, bus: EventBus)
      ensures this.session == session && this.bus == bus && !peerHelloReceived
    {
      this.session, this.bus, peerHelloReceived := session, bus, false;
    }

    /** Everything up to the router. `late` tells whether the handshake deadline has passed,
        `throws` whether the authorization lookup fails. `Admit` means that the packet may
        be routed. */
    method AdmitRecord(size: nat, record: Option<Incoming>, late: bool, throws: bool) returns (verdict: Verdict)
      requires session.authentication.Valid() && bus.Valid()
      modifies this, bus, session`stopping
      ensures bus.Valid() && bus.emitted == old(bus.emitted)
      ensures session.stopping <==> verdict.Refuse?
      ensures peerHelloReceived == (old(peerHelloReceived) || verdict.Greet?)
      ensures verdict ==
              if old(session.stopping) || TooLate(session.ready, late)
                 || OversizedSetup(session.ready, old(peerHelloReceived), size) then Refuse
              else match Classify(session.ready, old(peerHelloReceived), size, record, session.authorizedPeer.Some?)
                   case Check => if !throws && Current(session.authentication.store.db, session.authorizedPeer.value) then Admit else Refuse
                   case other => other
    {
      if session.stopping { return Refuse; }
      if !session.ready && late { session.stopping := true; return Refuse; }
      if !session.ready && !peerHelloReceived && size > MAX_CONTROL_RECORD_SIZE { session.stopping := true; return Refuse; }
      if record.None? || (record.value.IsControl() && size > MAX_CONTROL_RECORD_SIZE) { session.stopping := true; return Refuse; }
      if !session.ready {
        if !record.value.kind.Hello? || peerHelloReceived { session.stopping := true; return Refuse; }
        var result := Route(record.value, None, bus);
        if result == Disconnect { session.stopping := true; return Refuse; }
        peerHelloReceived := true;
        return Greet;
      }
      if record.value.kind.Hello? || session.authorizedPeer.None? { session.stopping := true; return Refuse; }
      if !record.value.IsControl() {
        var current := session.authentication.AuthorizationIsCurrent(session.authorizedPeer.value, throws);
        if !current { session.stopping := true; return Refuse; }
      }
      verdict := Admit;
    }

    /** Routes an admitted packet; the store is not asked again. */
    method DispatchRecord(packet: Incoming) returns (keep: bool)
      requires session.authorizedPeer.Some? && bus.Valid()
      modifies bus, session`stopping
      ensures bus.Valid() && bus.emitted == old(bus.emitted) + Emission(packet, session.authorizedPeer)
      ensures session.stopping == (old(session.stopping) || RouteAction(packet, true) != Continue) && keep == !session.stopping
    {
      var result := Route(packet, session.authorizedPeer, bus);
      if result != Continue { session.stopping := true; }
      keep := !session.stopping;
    }

    /** Handles one record undisturbed. An event is queued exactly for a message with text
        that arrives on a ready session whose authorization is current, under the id of the
        authorized peer and whatever id the packet claims. */
    method HandleRecord(size: nat, record: Option<Incoming>, late: bool, throws: bool) returns (keep: bool)
      requires session.authentication.Valid() && bus.Valid()
      modifies this, bus, session`stopping
      ensures bus.Valid() && keep == !session.stopping
      ensures if old(session.ready && !session.stopping) && session.authorizedPeer.Some? && record.Some? && record.value.HasText()
                 && !throws && Current(session.authentication.store.db, session.authorizedPeer.value)
              then keep && bus.emitted == old(bus.emitted) + [Event(DeviceIdOf(session.authorizedPeer.value), record.value.field.text)]
              else bus.emitted == old(bus.emitted)
      ensures !session.ready ==>
                (keep <==> !old(session.stopping) && !late && !old(peerHelloReceived) && IsSetupHello(size, record))
      ensures session.ready ==>
                (keep <==>
                   && !old(session.stopping) && session.authorizedPeer.Some? && record.Some? && !record.value.kind.Hello?
                   && (if record.value.IsControl() then size <= MAX_CONTROL_RECORD_SIZE
                       else !throws && Current(session.authentication.store.db, session.authorizedPeer.value))
                   && (record.value.kind.Message? ==> !record.value.field.NotAString?))
      ensures peerHelloReceived == (old(peerHelloReceived) || (keep && !session.ready))
    {
      var verdict := AdmitRecord(size, record, late, throws);
      if verdict.Admit? {
        keep := DispatchRecord(record.value);
      } else {
        keep := verdict.Greet?;
      }
    }
  }
}
