/** The sending half of a connection. Every write happens under `write_mutex_`, so a run of
    any number of concurrent senders is a sequence of the calls below; the socket, the clock
    and a concurrent `request_disconnect` act through `Attempt` values. */
module Outgoing {
  import opened Bytes
  import opened Framing

  const MAX_CONTROL_RECORD_SIZE := 4096

  /** What one `send` call does. */
  datatype SendResult = Interrupted | WouldBlock(writable: bool) | Refused | Accepted(count: nat)

  /** One round of the write loop: whether another thread cancelled the session or the
      deadline passed by then, and what the socket did. */
  datatype Attempt = Attempt(cancelled: bool, timedOut: bool, result: SendResult)

  /** The loop goes on after this round. */
  predicate Goes(a: Attempt) {
    && !a.cancelled && !a.timedOut
    && match a.result
       case Interrupted => true
       case WouldBlock(writable) => writable
       case Refused => false
       case Accepted(count) => count > 0
  }

  /** How many bytes the socket would take in these rounds. */
  function Capacity(attempts: seq<Attempt>): (n: nat) {
    if attempts == [] then 0 else
      Capacity(attempts[..|attempts| - 1]) +
      var last := attempts[|attempts| - 1].result;
      if last.Accepted? then last.count else 0
  }

  /** Some first rounds all go on and take `size` bytes between them. */
  ghost predicate Delivers(attempts: seq<Attempt>, size: nat) {
    exists k :: 0 <= k <= |attempts| && AllGo(attempts[..k]) && Capacity(attempts[..k]) >= size
  }

  ghost predicate AllGo(attempts: seq<Attempt>) {
    forall i :: 0 <= i < |attempts| ==> Goes(attempts[i])
  }

  lemma {:induction false} CapacityGrows(attempts: seq<Attempt>, i: nat, j: nat)
    requires i <= j <= |attempts|
    ensures Capacity(attempts[..i]) <= Capacity(attempts[..j])
    decreases j
  {
    if i < j {
      CapacityGrows(attempts, i, j - 1);
      assert attempts[..j][..j - 1] == attempts[..j - 1];
    }
  }

  /** Once a round ends the loop short of `size`, no longer stretch of rounds delivers. */
  lemma EndedEarly(attempts: seq<Attempt>, size: nat, k: nat)
    requires k <= |attempts| && Capacity(attempts[..k]) < size && (k < |attempts| ==> !Goes(attempts[k]))
    ensures !Delivers(attempts, size)
  {
    forall j | 0 <= j <= |attempts|
      ensures !AllGo(attempts[..j]) || Capacity(attempts[..j]) < size
    {
      if j <= k { CapacityGrows(attempts, j, k); } else { assert attempts[..j][k] == attempts[k]; }
    }
  }

  /** A packet as its serializer presents it: a type and the pieces of its text, in order. */
  datatype Packet = Packet(isControl: bool, pieces: seq<Text>) {
    function Size(): nat {
      |Flatten(pieces)|
    }
    predicate WithinLimit() {
      Size() <= if isControl then MAX_CONTROL_RECORD_SIZE else MAX_RECORD_SIZE
    }
  }

  datatype Frame = Frame(isControl: bool, payload: Record) {
    ghost predicate WithinLimit() {
      |payload| <= if isControl then MAX_CONTROL_RECORD_SIZE else MAX_RECORD_SIZE
    }
  }

  ghost predicate AllFramesWithin(frames: seq<Frame>) {
    forall i :: 0 <= i < |frames| ==> frames[i].WithinLimit()
  }

  ghost function Payloads(frames: seq<Frame>): (records: seq<Record>)
    requires AllFramesWithin(frames)
    ensures |records| == |frames| && AllWithin(records, MAX_RECORD_SIZE)
    ensures forall i :: 0 <= i < |frames| ==> records[i] == frames[i].payload
  {
    seq(|frames|, i requires 0 <= i < |frames| => frames[i].payload)
  }

  /** The stream that carries all of `frames`. */
  ghost function Stream(frames: seq<Frame>): (s: Text)
    requires AllFramesWithin(frames)
  {
    PREFACE + EncodeAll(Payloads(frames))
  }

  lemma StreamSnoc(frames: seq<Frame>, frame: Frame)
    requires AllFramesWithin(frames) && frame.WithinLimit()
    ensures Stream(frames + [frame]) == Stream(frames) + Encode(frame.payload)
  {
    assert Payloads(frames + [frame]) == Payloads(frames) + [frame.payload];
    EncodeAllSnoc(Payloads(frames), frame.payload);
  }

  /** Part of one more frame still leaves a prefix of a longer stream. */
  lemma PartialFrame(frames: seq<Frame>, frame: Frame, count: nat)
    requires AllFramesWithin(frames) && frame.WithinLimit() && count <= |Encode(frame.payload)|
    ensures AllFramesWithin(frames + [frame]) && (frames + [frame])[..|frames|] == frames
    ensures var sent := Stream(frames) + Encode(frame.payload)[..count];
            && Stream(frames) <= sent <= Stream(frames + [frame])
            && (count == |Encode(frame.payload)| ==> sent == Stream(frames + [frame]))
  {
    StreamSnoc(frames, frame);
  }

  /** Bounded serialization: all of the text, or nothing once it would exceed the limit. */
  method Serialize(pieces: seq<Text>, limit: nat) returns (data: Option<Text>)
    ensures data.Some? <==> |Flatten(pieces)| <= limit
    ensures data.Some? ==> data.value == Flatten(pieces)
  {
    var buffer: Text := [];
    for i := 0 to |pieces|
      invariant |buffer| <= limit && buffer == Flatten(pieces[..i])
    {
      assert pieces[..i + 1][..i] == pieces[..i];
      if |pieces[i]| > limit - |buffer| {
        FlattenGrows(pieces, i + 1);
        return None;
      }
      buffer := buffer + pieces[i];
    }
    assert pieces[..|pieces|] == pieces;
    data := Some(buffer);
  }

  lemma {:induction false} FlattenGrows(pieces: seq<Text>, i: nat)
    requires i <= |pieces|
    ensures Flatten(pieces[..i]) <= Flatten(pieces)
  {
    if i < |pieces| {
      FlattenGrows(pieces[..|pieces| - 1], i);
      assert pieces[..|pieces| - 1][..i] == pieces[..i];
    } else {
      assert pieces[..i] == pieces;
    }
  }

  class Writer {
    var sent: Text
    var localPrefaceSent: bool
    var ready: bool
    var stopping: bool
    /** Frames whose transmission began, in order. */
    ghost var frames: seq<Frame>

    /** The bytes on the wire are a prefix of the preface and whole frames; only the last
        frame can be cut short, and then the session is already stopping. */
    ghost predicate Valid()
      reads this
    {
      && AllFramesWithin(frames)
      && sent <= Stream(frames)
      && (frames != [] ==> Stream(frames[..|frames| - 1]) <= sent)
      && (!localPrefaceSent ==> frames == [])
      && (!stopping ==> sent == if localPrefaceSent then Stream(frames) else [])
      && (ready ==> localPrefaceSent)
    }

    constructor ()
      ensures Valid() && sent == [] && frames == [] && !stopping && !ready && !localPrefaceSent
    {
      sent, localPrefaceSent, ready, stopping, frames := [], false, false, false, [];
    }

    /** Authentication completes. The protocol sends the preface before any record. */
    method BecomeReady()
      requires Valid() && localPrefaceSent
      modifies this`ready
      ensures Valid() && ready
    {
      ready := true;
    }

    method RequestDisconnect()
      requires Valid()
      modifies this`stopping
      ensures Valid() && stopping
    {
      stopping := true;
    }

    /** The write loop: `count` bytes of `data` reach the wire, all of them exactly when the
        attempts deliver. Attempts that run out stand for the write deadline. */
    method SendAll(data: Text, attempts: seq<Attempt>) returns (ok: bool, count: nat)
      modifies this`sent, this`stopping
      ensures count <= |data| && sent == old(sent) + data[..count]
      ensures ok <==> data == [] || (!old(stopping) && Delivers(attempts, |data|))
      ensures ok ==> count == |data| && stopping == old(stopping)
      ensures old(stopping) ==> stopping && (data != [] ==> !ok && count == 0)
    {
      count := 0;
      var next := 0;
      while count < |data|
        invariant count <= |data| && next <= |attempts| && stopping == old(stopping)
        invariant sent == old(sent) + data[..count]
        invariant AllGo(attempts[..next])
        invariant count == if Capacity(attempts[..next]) < |data| then Capacity(attempts[..next]) else |data|
        invariant old(stopping) ==> count == 0
        decreases |attempts| - next
      {
        if next == |attempts| || !Goes(attempts[next]) { EndedEarly(attempts, |data|, next); }
        if next == |attempts| { return false, count; }
        var attempt := attempts[next];
        assert attempts[..next + 1][..next] == attempts[..next];
        next := next + 1;
        if attempt.cancelled { stopping := true; }
        if stopping || attempt.timedOut { return false, count; }
        match attempt.result
        case Interrupted =>
        case WouldBlock(writable) => if !writable { return false, count; }
        case Refused => return false, count;
        case Accepted(n) =>
          if n == 0 { return false, count; }
          var taken := if n < |data| - count then n else |data| - count;
          assert data[..count + taken] == data[..count] + data[count..count + taken];
          sent := sent + data[count..count + taken];
          count := count + taken;
      }
      assert data == [] || Capacity(attempts[..next]) >= |data|;
      ok := true;
    }

    method SendPreface(attempts: seq<Attempt>) returns (result: int)
      requires Valid()
      modifies this`sent, this`stopping, this`localPrefaceSent
      ensures Valid() && (result < 0 ==> stopping && localPrefaceSent == old(localPrefaceSent))
      ensures result >= 0 <==> !old(stopping) && (old(localPrefaceSent) || Delivers(attempts, PREFACE_SIZE))
      ensures result >= 0 ==> localPrefaceSent && !stopping && result == if old(localPrefaceSent) then 0 else PREFACE_SIZE
      ensures old(localPrefaceSent) || old(stopping) ==> sent == old(sent)
    {
      if stopping { return -1; }
      if localPrefaceSent { return 0; }
      var ok, count := SendAll(PREFACE, attempts);
      assert Stream([]) == PREFACE;
      if !ok {
        stopping := true;
        return -1;
      }
      localPrefaceSent := true;
      result := count;
    }

    method SendInitialHello(packet: Packet, attempts: seq<Attempt>) returns (result: int)
      requires Valid() && packet.isControl
      modifies this`sent, this`stopping, this`frames
      ensures Valid() && old(frames) <= frames
      ensures old(stopping) || !localPrefaceSent ==> result == -1 && sent == old(sent) && frames == old(frames)
      ensures result >= 0 <==> !old(stopping) && localPrefaceSent && packet.WithinLimit() && Delivers(attempts, 2 + packet.Size())
      ensures result >= 0 ==> frames == old(frames) + [Frame(true, Flatten(packet.pieces))] && sent == Stream(frames)
    {
      if stopping || !localPrefaceSent { return -1; }
      result := SendPacketLocked(packet, attempts);
    }

    /** `current` is the answer of the trust store to the authorization check. */
    method SendPacket(packet: Packet, current: bool, attempts: seq<Attempt>) returns (result: int)
      requires Valid()
      modifies this`sent, this`stopping, this`frames
      ensures Valid() && old(frames) <= frames
      ensures old(stopping) || !ready || (!packet.isControl && !current) ==>
                result == -1 && sent == old(sent) && frames == old(frames)
      ensures ready && !packet.isControl && !current ==> stopping
      ensures result >= 0 <==> !old(stopping) && ready && (packet.isControl || current)
                               && packet.WithinLimit() && Delivers(attempts, 2 + packet.Size())
      ensures result >= 0 ==> frames == old(frames) + [Frame(packet.isControl, Flatten(packet.pieces))] && sent == Stream(frames)
    {
      if stopping || !ready { return -1; }
      if !packet.isControl && !current {
        stopping := true;
        return -1;
      }
      result := SendPacketLocked(packet, attempts);
    }

    method SendPacketLocked(packet: Packet, attempts: seq<Attempt>) returns (result: int)
      requires Valid() && !stopping && localPrefaceSent
      modifies this`sent, this`stopping, this`frames
      ensures Valid() && old(frames) <= frames
      ensures result >= 0 <==> packet.WithinLimit() && Delivers(attempts, 2 + packet.Size())
      ensures !packet.WithinLimit() ==> result == -1 && sent == old(sent) && frames == old(frames) && !stopping
      ensures packet.WithinLimit() ==> frames == old(frames) + [Frame(packet.isControl, Flatten(packet.pieces))]
      ensures packet.WithinLimit() && result < 0 ==> result == -1 && stopping
      ensures result >= 0 ==> result == 2 + packet.Size() && sent == Stream(frames) && !stopping
    {
      var data := Serialize(packet.pieces, if packet.isControl then MAX_CONTROL_RECORD_SIZE else MAX_RECORD_SIZE);
      if data.None? { return -1; }
      var record := EncodeRecord(data.value);
      assert record.Some?;
      ghost var frame := Frame(packet.isControl, data.value);
      var ok, count := SendAll(record.value, attempts);
      PartialFrame(frames, frame, count);
      frames := frames + [frame];
      if !ok {
        stopping := true;
        return -1;
      }
      result := count;
    }
  }

  /** What the peer makes of the wire at any moment: no framing error, and every frame that
      was begun has arrived except possibly the last. */
  lemma PeerReceivesWholeFrames(w: Writer)
    requires w.Valid()
    ensures var d := Decode(MAX_RECORD_SIZE, Accept, w.sent);
            && d.verdict == More
            && d.delivered <= Payloads(w.frames)
            && |w.frames| <= |d.delivered| + 1
            && (!w.stopping && w.localPrefaceSent ==> d.delivered == Payloads(w.frames) && EndOfInput(d.inPreface, d.rest).None?)
  {
    PrefixDecodesCleanly(MAX_RECORD_SIZE, Payloads(w.frames), w.sent);
    if w.frames != [] {
      var complete := w.frames[..|w.frames| - 1];
      var s := Stream(complete);
      RoundTrip(MAX_RECORD_SIZE, Accept, Payloads(complete));
      assert w.sent == s + w.sent[|s|..];
      ResumeComposes(MAX_RECORD_SIZE, Accept, [], true, s, w.sent[|s|..]);
      DecodedRecordsAccountForInput(MAX_RECORD_SIZE, Accept, Payloads(complete), [] + w.sent[|s|..]);
    }
    if !w.stopping && w.localPrefaceSent {
      RoundTrip(MAX_RECORD_SIZE, Accept, Payloads(w.frames));
    }
  }
}
