/** Protocol v2 framing: the record encoder, the incremental `RecordParser` and a one-shot
    decoder of whole byte streams that the parser is proved to refine. */
module Framing {
  import opened Bytes

  const MAX_RECORD_SIZE := 65535
  const PREFACE_SIZE := 10
  const PREFACE: Text := [71, 65, 83, 79, 76, 73, 78, 69, 0, 2]

  type Record = Text

  /** A record callback, seen as a function of every record it was handed so far,
      the newest last; `false` stops the parser. */
  type Handler = seq<Record> -> bool

  datatype ErrorCode =
    InvalidPreface | OversizedRecord | TruncatedPreface | TruncatedHeader | TruncatedPayload | ParserFinished

  /** How a `consume` call ends: it wants more input, the handler refused a record,
      or a framing error is thrown. */
  datatype Verdict = More | Stopped | Failed(code: ErrorCode)

  // ---- Encoding ----

  function Encode(payload: Record): (e: Text)
    requires |payload| <= MAX_RECORD_SIZE
  {
    [|payload| / 256, |payload| % 256] + payload
  }

  method EncodeRecord(payload: Record) returns (encoded: Option<Text>)
    ensures encoded.Some? <==> |payload| <= MAX_RECORD_SIZE
    ensures encoded.Some? ==> encoded.value == Encode(payload)
    ensures encoded.Some? ==>
              var e := encoded.value;
              |e| == 2 + |payload| && e[0] == |payload| / 256 && e[1] == |payload| % 256 && e[2..] == payload
  {
    if |payload| > MAX_RECORD_SIZE { return None; }
    var buffer: Text := [];
    buffer := buffer + [(|payload| / 256) % 256];
    buffer := buffer + [|payload| % 256];
    buffer := buffer + payload;
    return Some(buffer);
  }

  ghost predicate AllWithin(records: seq<Record>, limit: nat) {
    forall i :: 0 <= i < |records| ==> |records[i]| <= limit
  }

  function EncodeAll(records: seq<Record>): (e: Text)
    requires forall i :: 0 <= i < |records| ==> |records[i]| <= MAX_RECORD_SIZE
  {
    if records == [] then [] else Encode(records[0]) + EncodeAll(records[1..])
  }

  lemma {:induction false} EncodeAllSnoc(records: seq<Record>, last: Record)
    requires AllWithin(records, MAX_RECORD_SIZE) && |last| <= MAX_RECORD_SIZE
    ensures EncodeAll(records + [last]) == EncodeAll(records) + Encode(last)
  {
    var all := records + [last];
    if records != [] {
      assert all[1..] == records[1..] + [last];
      EncodeAllSnoc(records[1..], last);
    }
  }

  // ---- One-shot decoding ----

  /** The payload length in a header, most significant byte first. */
  function LengthOf(high: byte, low: byte): (n: nat) {
    var h: int, l: int := high, low;
    256 * h + l
  }

  /** `delivered` lists every record handed to the handler; `rest` holds the bytes of the
      unit still incomplete, which is the preface itself while `inPreface`. */
  datatype Decoding = Decoding(delivered: seq<Record>, verdict: Verdict, inPreface: bool, rest: Text)

  function DecodeRecords(limit: nat, h: Handler, delivered: seq<Record>, s: Text): (d: Decoding)
    ensures !d.inPreface
    decreases |s|
  {
    if |s| < 2 then Decoding(delivered, More, false, s) else
    var size := LengthOf(s[0], s[1]);
    if size > limit then Decoding(delivered, Failed(OversizedRecord), false, s) else
    if |s| < 2 + size then Decoding(delivered, More, false, s) else
    var delivered' := delivered + [s[2..2 + size]];
    if !h(delivered') then Decoding(delivered', Stopped, false, s[2 + size..]) else
    DecodeRecords(limit, h, delivered', s[2 + size..])
  }

  /** Decodes from a point where `delivered` was already handed over. */
  function Resume(limit: nat, h: Handler, delivered: seq<Record>, inPreface: bool, s: Text): (d: Decoding) {
    if !inPreface then DecodeRecords(limit, h, delivered, s) else
    if PREFACE <= s then DecodeRecords(limit, h, delivered, s[PREFACE_SIZE..]) else
    if s <= PREFACE then Decoding(delivered, More, true, s) else
    Decoding(delivered, Failed(InvalidPreface), true, s)
  }

  function Decode(limit: nat, h: Handler, s: Text): (d: Decoding) {
    Resume(limit, h, [], true, s)
  }

  // ---- The incremental parser ----

  datatype Phase = Preface | Header | Payload

  class RecordParser {
    const maximumRecordSize: nat
    var phase: Phase
    var prefaceOffset: nat
    const header: array<byte>
    var headerOffset: nat
    var expectedPayloadSize: nat
    var payload: Text
    var failed: bool
    var finished: bool

    /** Bounds that hold between calls of a parser that has not failed. Each is strict, so
        every round of `Consume` takes at least one byte. */
    ghost predicate Valid()
      reads this, header
    {
      && header.Length == 2
      && maximumRecordSize <= MAX_RECORD_SIZE
      && (!failed ==> match phase
          case Preface => prefaceOffset < PREFACE_SIZE && headerOffset == 0
          case Header => headerOffset < 2
          case Payload =>
            && headerOffset == 0
            && |payload| < expectedPayloadSize <= maximumRecordSize
            && expectedPayloadSize == LengthOf(header[0], header[1]))
    }

    ghost predicate InPreface()
      reads this
    {
      phase.Preface?
    }

    /** The bytes of the unfinished unit the parser is holding. */
    ghost function Pending(): (s: Text)
      requires Valid() && !failed
      reads this, header
    {
      match phase
      case Preface => PREFACE[..prefaceOffset]
      case Header => header[..headerOffset]
      case Payload => header[..] + payload
    }

    constructor (limit: nat)
      requires limit <= MAX_RECORD_SIZE
      ensures Valid() && fresh(header) && maximumRecordSize == limit
      ensures !failed && !finished && InPreface() && Pending() == []
    {
      maximumRecordSize := limit;
      phase, prefaceOffset, headerOffset, expectedPayloadSize := Preface, 0, 0, 0;
      payload, failed, finished := [], false, false;
      header := new byte[2](_ => 0);
    }

    /** Matches preface bytes until the input or the preface is used up. */
    method ConsumePreface(input: Text) returns (rest: Text, mismatch: bool)
      requires Valid() && !failed && phase.Preface? && input != []
      modifies this`prefaceOffset, this`phase, this`failed
      ensures mismatch <==> failed
      ensures mismatch ==> !(PREFACE <= old(Pending()) + input) && !(old(Pending()) + input <= PREFACE)
      ensures !mismatch ==> Valid() && !phase.Payload? && |rest| < |input|
      ensures !mismatch && phase.Preface? ==> rest == [] && Pending() == old(Pending()) + input
      ensures !mismatch && phase.Header? ==>
                headerOffset == 0 && PREFACE + rest == old(Pending()) + input
    {
      rest := input;
      ghost var stream := Pending() + input;
      while rest != [] && prefaceOffset < PREFACE_SIZE
        invariant prefaceOffset <= PREFACE_SIZE && PREFACE[..prefaceOffset] + rest == stream
        invariant rest == input || |rest| < |input|
        invariant !failed && phase.Preface?
        invariant rest == input ==> prefaceOffset < PREFACE_SIZE
        decreases |rest|
      {
        if rest[0] != PREFACE[prefaceOffset] {
          assert stream[prefaceOffset] == rest[0];
          PrefaceIsWrong(stream, prefaceOffset);
          failed := true;
          return rest, true;
        }
        PrefaceAdvances(prefaceOffset, rest);
        prefaceOffset := prefaceOffset + 1;
        rest := rest[1..];
      }
      if prefaceOffset == PREFACE_SIZE {
        phase := Header;
      }
      mismatch := false;
    }

    /** Collects length bytes until the input or the two-byte header is used up. */
    method ConsumeHeader(input: Text) returns (rest: Text)
      requires Valid() && !failed && phase.Header? && input != []
      modifies this`headerOffset, header
      ensures |rest| < |input| && headerOffset <= 2
      ensures header[..headerOffset] + rest == old(Pending()) + input
      ensures headerOffset < 2 ==> rest == []
    {
      rest := input;
      ghost var stream := Pending() + input;
      while rest != [] && headerOffset < 2
        invariant headerOffset <= 2 && header[..headerOffset] + rest == stream
        invariant rest == input || |rest| < |input|
        invariant rest == input ==> headerOffset < 2
        decreases |rest|
      {
        header[headerOffset] := rest[0];
        headerOffset := headerOffset + 1;
        assert header[..headerOffset] == header[..headerOffset - 1] + [rest[0]];
        assert rest == [rest[0]] + rest[1..];
        rest := rest[1..];
      }
    }

    /** What one round of `Consume` achieves: either it ends the call as the whole stream
        would, or it hands on a shorter input with the same meaning. */
    ghost predicate RoundOutcome(goal: Decoding, h: Handler, delivered: seq<Record>, verdict: Verdict, rest: Text)
      reads this, header
    {
      && Valid()
      && (failed <==> verdict != More)
      && (failed ==> goal.delivered == delivered && goal.verdict == verdict)
      && (!failed ==> goal == Resume(maximumRecordSize, h, delivered, InPreface(), Pending() + rest))
    }

    /** Prefaces are matched before any record is read. */
    method PrefaceRound(input: Text, h: Handler, delivered: seq<Record>) returns (rest: Text, verdict: Verdict)
      requires Valid() && !failed && phase.Preface? && input != []
      modifies this`prefaceOffset, this`phase, this`failed
      ensures RoundOutcome(old(Resume(maximumRecordSize, h, delivered, true, Pending() + input)), h, delivered, verdict, rest)
      ensures verdict == More ==> |rest| < |input|
    {
      ghost var stream := Pending() + input;
      var mismatch;
      rest, mismatch := ConsumePreface(input);
      if mismatch { return rest, Failed(InvalidPreface); }
      if phase == Header {
        assert stream[PREFACE_SIZE..] == rest == Pending() + rest;
      } else {
        assert stream == Pending() + rest;
      }
      verdict := More;
    }

    /** Reads length bytes; a complete length is checked, and an empty record delivered. */
    method HeaderRound(input: Text, h: Handler, delivered: seq<Record>)
      returns (rest: Text, all: seq<Record>, verdict: Verdict)
      requires Valid() && !failed && phase.Header? && input != []
      modifies this`headerOffset, this`expectedPayloadSize, this`payload, this`phase, this`failed, header
      ensures RoundOutcome(old(Resume(maximumRecordSize, h, delivered, false, Pending() + input)), h, all, verdict, rest)
      ensures verdict == More ==> |rest| < |input|
    {
      ghost var stream := Pending() + input;
      rest := ConsumeHeader(input);
      all, verdict := delivered, More;
      if headerOffset != 2 { return; }
      expectedPayloadSize := LengthOf(header[0], header[1]);
      headerOffset := 0;
      assert header[..2] == header[..] && header[..] + rest == stream && stream[2..] == rest;
      if expectedPayloadSize > maximumRecordSize {
        failed := true;
        return rest, all, Failed(OversizedRecord);
      }
      payload := [];
      if expectedPayloadSize == 0 {
        assert stream[2..2] == [];
        all := all + [[]];
        if !h(all) {
          failed := true;
          return rest, all, Stopped;
        }
        assert header[..0] + rest == rest;
        return;
      }
      phase := Payload;
      assert header[..] + payload + rest == stream;
    }

    /** Buffers payload bytes; a complete payload is delivered. */
    method PayloadRound(input: Text, h: Handler, delivered: seq<Record>)
      returns (rest: Text, all: seq<Record>, verdict: Verdict)
      requires Valid() && !failed && phase.Payload? && input != []
      modifies this`expectedPayloadSize, this`payload, this`phase, this`failed
      ensures RoundOutcome(old(Resume(maximumRecordSize, h, delivered, false, Pending() + input)), h, all, verdict, rest)
      ensures verdict == More ==> |rest| < |input|
    {
      ghost var stream := Pending() + input;
      all, verdict := delivered, More;
      var remaining := expectedPayloadSize - |payload|;
      var count := if remaining < |input| then remaining else |input|;
      payload := payload + input[..count];
      rest := input[count..];
      assert header[..] + payload + rest == stream;
      if |payload| == expectedPayloadSize {
        assert stream[2..2 + expectedPayloadSize] == payload && stream[2 + expectedPayloadSize..] == rest;
        phase := Header;
        expectedPayloadSize := 0;
        all := all + [payload];
        var keepProcessing := h(all);
        payload := [];
        if !keepProcessing {
          failed := true;
          return rest, all, Stopped;
        }
        assert header[..0] + rest == rest;
      }
    }

    /** Consumes one fragment. `delivered` is what the handler received before this call,
        `all` what it has received after it. */
    method Consume(fragment: Text, h: Handler, delivered: seq<Record>) returns (all: seq<Record>, verdict: Verdict)
      requires Valid()
      modifies this, header
      ensures Valid() && finished == old(finished)
      ensures old(failed || finished) ==> failed && all == delivered && verdict == Failed(ParserFinished)
      ensures !old(failed || finished) ==>
                var d := Resume(maximumRecordSize, h, delivered, old(InPreface()), old(Pending()) + fragment);
                && all == d.delivered
                && verdict == d.verdict
                && (failed <==> verdict != More)
                && (!failed ==> InPreface() == d.inPreface && Pending() == d.rest)
    {
      all, verdict := delivered, More;
      if failed || finished {
        failed := true;
        return all, Failed(ParserFinished);
      }
      var input := fragment;
      ghost var goal := Resume(maximumRecordSize, h, delivered, InPreface(), Pending() + fragment);
      while input != []
        invariant !failed && finished == old(finished) && verdict == More
        invariant RoundOutcome(goal, h, all, verdict, input)
        decreases |input|
      {
        if phase == Preface {
          input, verdict := PrefaceRound(input, h, all);
        } else if phase == Header {
          input, all, verdict := HeaderRound(input, h, all);
        } else {
          input, all, verdict := PayloadRound(input, h, all);
        }
        if verdict != More { return; }
      }
      assert Pending() + input == Pending();
      ResumeIsIdle(maximumRecordSize, h, all, this);
    }

    /** Marks end of input; `None` means it was clean. */
    method Finish() returns (error: Option<ErrorCode>)
      requires Valid()
      modifies this
      ensures Valid() && (failed <==> error.Some?)
      ensures old(failed) ==> error == Some(ParserFinished)
      ensures !old(failed) && old(finished) ==> error == None && finished
      ensures !old(failed) && !old(finished) ==> error == EndOfInput(old(InPreface()), old(Pending())) && (finished <==> error.None?)
    {
      if failed { return Some(ParserFinished); }
      if finished { return None; }
      if phase == Preface { failed := true; return Some(TruncatedPreface); }
      if phase == Payload { failed := true; return Some(TruncatedPayload); }
      if headerOffset != 0 { failed := true; return Some(TruncatedHeader); }
      finished := true;
      error := None;
    }
  }

  /** A limit above the protocol maximum is refused. */
  method CreateParser(limit: nat) returns (parser: Option<RecordParser>)
    ensures parser.Some? <==> limit <= MAX_RECORD_SIZE
    ensures parser.Some? ==>
              && fresh(parser.value) && fresh(parser.value.header) && parser.value.Valid()
              && parser.value.maximumRecordSize == limit && !parser.value.failed && !parser.value.finished
              && parser.value.InPreface() && parser.value.Pending() == []
  {
    if limit > MAX_RECORD_SIZE { return None; }
    var p := new RecordParser(limit);
    return Some(p);
  }

  lemma PrefaceIsWrong(stream: Text, k: nat)
    requires k < PREFACE_SIZE && k < |stream| && stream[k] != PREFACE[k]
    ensures !(PREFACE <= stream) && !(stream <= PREFACE)
  {
  }

  lemma PrefaceAdvances(k: nat, rest: Text)
    requires k < PREFACE_SIZE && rest != [] && rest[0] == PREFACE[k]
    ensures PREFACE[..k + 1] + rest[1..] == PREFACE[..k] + rest
  {
  }

  /** What end of input means at a point of the stream. */
  function EndOfInput(inPreface: bool, rest: Text): (error: Option<ErrorCode>) {
    if inPreface then Some(TruncatedPreface)
    else if |rest| >= 2 then Some(TruncatedPayload)
    else if |rest| == 1 then Some(TruncatedHeader)
    else None
  }

  lemma ResumeIsIdle(limit: nat, h: Handler, delivered: seq<Record>, parser: RecordParser)
    requires parser.Valid() && !parser.failed && limit == parser.maximumRecordSize
    ensures Resume(limit, h, delivered, parser.InPreface(), parser.Pending())
         == Decoding(delivered, More, parser.InPreface(), parser.Pending())
  {
  }

  // ---- Fragmentation does not matter ----

  function Flatten(fragments: seq<Text>): (s: Text) {
    if fragments == [] then [] else Flatten(fragments[..|fragments| - 1]) + fragments[|fragments| - 1]
  }

  /** Decoding a stream in two pieces gives what decoding it at once gives. */
  lemma {:induction false} ResumeComposes(limit: nat, h: Handler, delivered: seq<Record>, inPreface: bool, s: Text, t: Text)
    ensures var a := Resume(limit, h, delivered, inPreface, s);
            var b := Resume(limit, h, delivered, inPreface, s + t);
            if a.verdict == More then b == Resume(limit, h, a.delivered, a.inPreface, a.rest + t)
            else b.delivered == a.delivered && b.verdict == a.verdict
    decreases |s|
  {
    if inPreface {
      if PREFACE <= s {
        assert (s + t)[PREFACE_SIZE..] == s[PREFACE_SIZE..] + t;
        ResumeComposes(limit, h, delivered, false, s[PREFACE_SIZE..], t);
      }
    } else if |s| >= 2 {
      var size := LengthOf(s[0], s[1]);
      if size <= limit && |s| >= 2 + size {
        var record := s[2..2 + size];
        assert (s + t)[2..2 + size] == record && (s + t)[2 + size..] == s[2 + size..] + t;
        if h(delivered + [record]) {
          ResumeComposes(limit, h, delivered + [record], false, s[2 + size..], t);
        }
      }
    }
  }

  /** Feeds fragments to a fresh parser until it ends or the input does, then marks the end
      of input: records, first error or stop, and clean end are those of the whole stream. */
  method ParseStream(limit: nat, h: Handler, fragments: seq<Text>)
    returns (delivered: seq<Record>, verdict: Verdict, end: Option<ErrorCode>)
    requires limit <= MAX_RECORD_SIZE
    ensures var d := Decode(limit, h, Flatten(fragments));
            && delivered == d.delivered
            && verdict == d.verdict
            && end == if d.verdict == More then EndOfInput(d.inPreface, d.rest) else Some(ParserFinished)
  {
    var parser := new RecordParser(limit);
    delivered, verdict := [], More;
    var i := 0;
    ghost var stream := Flatten(fragments);
    assert fragments[..|fragments|] == fragments;
    while i < |fragments| && verdict == More
      invariant 0 <= i <= |fragments|
      invariant parser.Valid() && parser.maximumRecordSize == limit && !parser.finished
      invariant fresh(parser) && fresh(parser.header)
      invariant parser.failed <==> verdict != More
      invariant var d := Decode(limit, h, Flatten(fragments[..i]));
                && delivered == d.delivered && verdict == d.verdict
                && (verdict == More ==> parser.InPreface() == d.inPreface && parser.Pending() == d.rest)
    {
      ResumeComposes(limit, h, [], true, Flatten(fragments[..i]), fragments[i]);
      assert fragments[..i + 1][..i] == fragments[..i];
      delivered, verdict := parser.Consume(fragments[i], h, delivered);
      i := i + 1;
    }
    end := parser.Finish();
    FirstVerdictStands(limit, h, fragments, i);
  }

  /** Whatever ends the decoding of the first fragments ends that of all of them. */
  lemma {:induction false} FirstVerdictStands(limit: nat, h: Handler, fragments: seq<Text>, i: nat)
    requires i <= |fragments|
    ensures var d := Decode(limit, h, Flatten(fragments[..i]));
            var whole := Decode(limit, h, Flatten(fragments));
            d.verdict != More ==> whole.delivered == d.delivered && whole.verdict == d.verdict
    decreases |fragments|
  {
    if i == |fragments| {
      assert fragments[..i] == fragments;
    } else {
      var shorter := fragments[..|fragments| - 1];
      assert shorter[..i] == fragments[..i];
      FirstVerdictStands(limit, h, shorter, i);
      ResumeComposes(limit, h, [], true, Flatten(shorter), fragments[|fragments| - 1]);
    }
  }

  // ---- Encoding and decoding are inverse ----

  /** A handler that accepts every record. */
  const Accept: Handler := _ => true

  lemma FirstRecordIsRead(limit: nat, h: Handler, delivered: seq<Record>, first: Record, s: Text)
    requires limit <= MAX_RECORD_SIZE && |first| <= limit && h(delivered + [first])
    ensures DecodeRecords(limit, h, delivered, Encode(first) + s) == DecodeRecords(limit, h, delivered + [first], s)
  {
  }

  /** Every list of records within the limit survives encoding and decoding. */
  lemma RoundTrip(limit: nat, h: Handler, records: seq<Record>)
    requires limit <= MAX_RECORD_SIZE && AllWithin(records, limit)
    requires forall n :: 1 <= n <= |records| ==> h(records[..n])
    ensures Decode(limit, h, PREFACE + EncodeAll(records)) == Decoding(records, More, false, [])
  {
    assert PREFACE + EncodeAll(records) + [] == PREFACE + EncodeAll(records);
    DescriptionIsDecoding(limit, h, PREFACE + EncodeAll(records), Decoding(records, More, false, []));
  }

  // ---- What a decoding means, without decoding ----

  /** The handler was content with every record. */
  ghost predicate AllAccepted(h: Handler, records: seq<Record>) {
    forall n :: 1 <= n <= |records| ==> h(records[..n])
  }

  /** A whole header with a length the limit forbids. */
  predicate Oversized(limit: nat, rest: Text) {
    |rest| >= 2 && 256 * rest[0] + rest[1] > limit
  }

  /** The start of a record that is allowed but not complete, or nothing at all. */
  predicate Incomplete(limit: nat, rest: Text) {
    |rest| < 2 || |rest| - 2 < 256 * rest[0] + rest[1] <= limit
  }

  /** The verdict says why delivery ended where it did. */
  ghost predicate EndsForCause(limit: nat, h: Handler, d: Decoding) {
    match d.verdict
    case Stopped => d.delivered != [] && AllAccepted(h, d.delivered[..|d.delivered| - 1]) && !h(d.delivered)
    case Failed(code) => code == OversizedRecord && AllAccepted(h, d.delivered) && Oversized(limit, d.rest)
    case More => AllAccepted(h, d.delivered) && Incomplete(limit, d.rest)
  }

  /** `d` accounts for the stream `s`: it is the preface, the encoding of what was delivered
      and the rest, and delivery ended for cause. */
  ghost predicate Describes(limit: nat, h: Handler, s: Text, d: Decoding)
    requires limit <= MAX_RECORD_SIZE
  {
    if d.inPreface then
      && d.delivered == [] && d.rest == s && !(PREFACE <= s)
      && d.verdict == if s <= PREFACE then More else Failed(InvalidPreface)
    else
      AllWithin(d.delivered, limit) && s == PREFACE + EncodeAll(d.delivered) + d.rest && EndsForCause(limit, h, d)
  }

  lemma {:induction false} RecordsAreRead(limit: nat, h: Handler, delivered: seq<Record>, records: seq<Record>, t: Text)
    requires limit <= MAX_RECORD_SIZE && AllWithin(records, limit)
    requires forall n :: |delivered| < n <= |delivered + records| ==> h((delivered + records)[..n])
    ensures DecodeRecords(limit, h, delivered, EncodeAll(records) + t) == DecodeRecords(limit, h, delivered + records, t)
    decreases |records|
  {
    if records == [] {
      assert delivered + records == delivered && EncodeAll(records) + t == t;
    } else {
      var delivered' := delivered + [records[0]];
      assert delivered' + records[1..] == delivered + records;
      assert (delivered + records)[..|delivered'|] == delivered';
      assert EncodeAll(records) + t == Encode(records[0]) + (EncodeAll(records[1..]) + t);
      FirstRecordIsRead(limit, h, delivered, records[0], EncodeAll(records[1..]) + t);
      RecordsAreRead(limit, h, delivered', records[1..], t);
    }
  }

  lemma RefusedRecordStops(limit: nat, h: Handler, delivered: seq<Record>, last: Record, t: Text)
    requires limit <= MAX_RECORD_SIZE && |last| <= limit && !h(delivered + [last])
    ensures DecodeRecords(limit, h, delivered, Encode(last) + t) == Decoding(delivered + [last], Stopped, false, t)
  {
    var s := Encode(last) + t;
    assert s[2..2 + |last|] == last && s[2 + |last|..] == t;
  }

  lemma Regroup(a: Text, b: Text, c: Text)
    ensures a + b + c == a + (b + c)
  {
  }

  lemma StopIsDecoded(limit: nat, h: Handler, records: seq<Record>, last: Record, rest: Text)
    requires limit <= MAX_RECORD_SIZE && AllWithin(records, limit) && |last| <= limit
    requires AllAccepted(h, records) && !h(records + [last])
    ensures DecodeRecords(limit, h, [], EncodeAll(records + [last]) + rest) == Decoding(records + [last], Stopped, false, rest)
  {
    EncodeAllSnoc(records, last);
    Regroup(EncodeAll(records), Encode(last), rest);
    assert [] + records == records;
    RecordsAreRead(limit, h, [], records, Encode(last) + rest);
    RefusedRecordStops(limit, h, records, last, rest);
  }

  lemma EndIsDecoded(limit: nat, h: Handler, d: Decoding)
    requires EndsForCause(limit, h, d) && !d.verdict.Stopped? && !d.inPreface
    ensures DecodeRecords(limit, h, d.delivered, d.rest) == d
  {
  }

  lemma BodyIsDecoded(limit: nat, h: Handler, d: Decoding)
    requires limit <= MAX_RECORD_SIZE && AllWithin(d.delivered, limit) && EndsForCause(limit, h, d) && !d.inPreface
    ensures DecodeRecords(limit, h, [], EncodeAll(d.delivered) + d.rest) == d
  {
    if d.verdict.Stopped? {
      var records, last := d.delivered[..|d.delivered| - 1], d.delivered[|d.delivered| - 1];
      assert d.delivered == records + [last];
      StopIsDecoded(limit, h, records, last, d.rest);
    } else {
      assert [] + d.delivered == d.delivered;
      RecordsAreRead(limit, h, [], d.delivered, d.rest);
      EndIsDecoded(limit, h, d);
    }
  }

  lemma PastPreface(limit: nat, h: Handler, body: Text)
    ensures Decode(limit, h, PREFACE + body) == DecodeRecords(limit, h, [], body)
  {
    assert (PREFACE + body)[PREFACE_SIZE..] == body;
  }

  /** There is only one way to account for a stream, and decoding finds it. */
  lemma DescriptionIsDecoding(limit: nat, h: Handler, s: Text, d: Decoding)
    requires limit <= MAX_RECORD_SIZE && Describes(limit, h, s, d)
    ensures Decode(limit, h, s) == d
  {
    if !d.inPreface {
      Regroup(PREFACE, EncodeAll(d.delivered), d.rest);
      PastPreface(limit, h, EncodeAll(d.delivered) + d.rest);
      BodyIsDecoded(limit, h, d);
    }
  }

  lemma {:induction false} HandlerGoverns(limit: nat, h: Handler, delivered: seq<Record>, s: Text)
    requires AllAccepted(h, delivered)
    ensures EndsForCause(limit, h, DecodeRecords(limit, h, delivered, s))
    decreases |s|
  {
    if |s| >= 2 {
      var size := LengthOf(s[0], s[1]);
      if size <= limit && |s| >= 2 + size {
        var delivered' := delivered + [s[2..2 + size]];
        assert delivered'[..|delivered|] == delivered;
        if h(delivered') {
          assert forall n :: 1 <= n <= |delivered| ==> delivered'[..n] == delivered[..n];
          assert delivered'[..|delivered'|] == delivered';
          HandlerGoverns(limit, h, delivered', s[2 + size..]);
        }
      }
    }
  }

  lemma DecodingIsDescribed(limit: nat, h: Handler, s: Text)
    requires limit <= MAX_RECORD_SIZE
    ensures Describes(limit, h, s, Decode(limit, h, s))
  {
    DecodingAccountsForInput(limit, h, s);
    if PREFACE <= s { HandlerGoverns(limit, h, [], s[PREFACE_SIZE..]); }
  }

  /** A refusal ends delivery at once, nothing else does, and each error has its cause. */
  lemma DecodingEndsForCause(limit: nat, h: Handler, s: Text)
    requires limit <= MAX_RECORD_SIZE
    ensures var d := Decode(limit, h, s);
            && (forall n :: 1 <= n < |d.delivered| ==> h(d.delivered[..n]))
            && (d.verdict == Stopped <==> d.delivered != [] && !h(d.delivered))
            && (d.verdict == Failed(InvalidPreface) <==> !(s <= PREFACE) && !(PREFACE <= s))
            && (d.verdict == Failed(OversizedRecord) <==>
                  exists records, rest :: AllWithin(records, limit) && AllAccepted(h, records)
                                          && s == PREFACE + EncodeAll(records) + rest && Oversized(limit, rest))
            && (d.verdict.Failed? ==> d.verdict.code == InvalidPreface || d.verdict.code == OversizedRecord)
  {
    var d := Decode(limit, h, s);
    DecodingIsDescribed(limit, h, s);
    assert d.delivered[..|d.delivered|] == d.delivered;
    if d.verdict.Stopped? {
      var front := d.delivered[..|d.delivered| - 1];
      assert forall n :: 1 <= n < |d.delivered| ==> front[..n] == d.delivered[..n];
    }
    forall records, rest | AllWithin(records, limit) && AllAccepted(h, records)
                           && s == PREFACE + EncodeAll(records) + rest && Oversized(limit, rest)
      ensures d.verdict == Failed(OversizedRecord)
    {
      DescriptionIsDecoding(limit, h, s, Decoding(records, Failed(OversizedRecord), false, rest));
    }
  }

  /** `s` is the preface, records the handler accepted, and `rest`. */
  ghost predicate EndsWith(limit: nat, h: Handler, s: Text, rest: Text)
    requires limit <= MAX_RECORD_SIZE
  {
    exists records :: AllWithin(records, limit) && AllAccepted(h, records) && s == PREFACE + EncodeAll(records) + rest
  }

  lemma OnlyOneEnd(limit: nat, h: Handler, s: Text, rest: Text)
    requires limit <= MAX_RECORD_SIZE && EndsWith(limit, h, s, rest) && Incomplete(limit, rest)
    ensures !Decode(limit, h, s).inPreface && Decode(limit, h, s).rest == rest
  {
    var records :| AllWithin(records, limit) && AllAccepted(h, records) && s == PREFACE + EncodeAll(records) + rest;
    DescriptionIsDecoding(limit, h, s, Decoding(records, More, false, rest));
  }

  /** What end of input reports, in terms of the stream: nothing after whole records, and
      otherwise what was cut short. */
  lemma EndOfInputTells(limit: nat, h: Handler, s: Text)
    requires limit <= MAX_RECORD_SIZE && Decode(limit, h, s).verdict == More
    ensures var d := Decode(limit, h, s);
            match EndOfInput(d.inPreface, d.rest)
            case None => EndsWith(limit, h, s, [])
            case Some(code) =>
              || (code == TruncatedPreface && s < PREFACE)
              || (code == TruncatedHeader && EndsWith(limit, h, s, d.rest) && |d.rest| == 1)
              || (code == TruncatedPayload && EndsWith(limit, h, s, d.rest) && |d.rest| >= 2 && Incomplete(limit, d.rest))
    ensures var d := Decode(limit, h, s); var end := EndOfInput(d.inPreface, d.rest);
            && (s < PREFACE ==> end == Some(TruncatedPreface))
            && (EndsWith(limit, h, s, []) ==> end == None)
            && (forall b :: EndsWith(limit, h, s, [b]) ==> end == Some(TruncatedHeader))
            && (forall rest :: |rest| >= 2 && Incomplete(limit, rest) && EndsWith(limit, h, s, rest) ==> end == Some(TruncatedPayload))
  {
    var d := Decode(limit, h, s);
    DecodingIsDescribed(limit, h, s);
    if EndsWith(limit, h, s, []) { OnlyOneEnd(limit, h, s, []); }
    forall b | EndsWith(limit, h, s, [b])
      ensures EndOfInput(d.inPreface, d.rest) == Some(TruncatedHeader)
    {
      OnlyOneEnd(limit, h, s, [b]);
    }
    forall rest | |rest| >= 2 && Incomplete(limit, rest) && EndsWith(limit, h, s, rest)
      ensures EndOfInput(d.inPreface, d.rest) == Some(TruncatedPayload)
    {
      OnlyOneEnd(limit, h, s, rest);
    }
  }

  /** Delivering the first record moves its encoding from the input to the output. */
  lemma RecordMovesAcross(delivered: seq<Record>, s: Text)
    requires AllWithin(delivered, MAX_RECORD_SIZE) && |s| >= 2 && |s| >= 2 + LengthOf(s[0], s[1])
    ensures var size := LengthOf(s[0], s[1]);
            && AllWithin(delivered + [s[2..2 + size]], MAX_RECORD_SIZE)
            && EncodeAll(delivered) + s == EncodeAll(delivered + [s[2..2 + size]]) + s[2 + size..]
  {
    var size := LengthOf(s[0], s[1]);
    var record := s[2..2 + size];
    EncodeAllSnoc(delivered, record);
    assert s == Encode(record) + s[2 + size..];
  }

  lemma {:induction false} DecodedRecordsAccountForInput(limit: nat, h: Handler, delivered: seq<Record>, s: Text)
    requires limit <= MAX_RECORD_SIZE && AllWithin(delivered, limit)
    ensures var d := DecodeRecords(limit, h, delivered, s);
            && AllWithin(d.delivered, limit)
            && delivered <= d.delivered
            && EncodeAll(delivered) + s == EncodeAll(d.delivered) + d.rest
    decreases |s|
  {
    if |s| >= 2 {
      var size := LengthOf(s[0], s[1]);
      if size <= limit && |s| >= 2 + size {
        RecordMovesAcross(delivered, s);
        var delivered' := delivered + [s[2..2 + size]];
        if h(delivered') {
          DecodedRecordsAccountForInput(limit, h, delivered', s[2 + size..]);
        }
      }
    }
  }

  /** No input byte is lost or invented: past the preface, the stream is the encoding of
      what was delivered followed by what is left. */
  lemma DecodingAccountsForInput(limit: nat, h: Handler, s: Text)
    requires limit <= MAX_RECORD_SIZE
    ensures var d := Decode(limit, h, s);
            if d.inPreface then d.delivered == [] && d.rest == s
            else AllWithin(d.delivered, limit) && s == PREFACE + EncodeAll(d.delivered) + d.rest
  {
    if PREFACE <= s {
      DecodedRecordsAccountForInput(limit, h, [], s[PREFACE_SIZE..]);
      var d := Decode(limit, h, s);
      assert s == PREFACE + s[PREFACE_SIZE..];
      assert s[PREFACE_SIZE..] == [] + s[PREFACE_SIZE..] == EncodeAll(d.delivered) + d.rest;
    }
  }

  /** With a handler that accepts everything, end of input is clean exactly on a preface
      followed by whole records within the limit, and those are the records delivered. */
  lemma CleanEndIffEncoding(limit: nat, s: Text)
    requires limit <= MAX_RECORD_SIZE
    ensures var d := Decode(limit, Accept, s);
            var clean := d.verdict == More && EndOfInput(d.inPreface, d.rest).None?;
            && (clean ==> AllWithin(d.delivered, limit) && s == PREFACE + EncodeAll(d.delivered))
            && (forall records :: AllWithin(records, limit) && s == PREFACE + EncodeAll(records) ==>
                  clean && records == d.delivered)
  {
    DecodingAccountsForInput(limit, Accept, s);
    var d := Decode(limit, Accept, s);
    if !d.inPreface && d.rest == [] {
      assert PREFACE + EncodeAll(d.delivered) + [] == PREFACE + EncodeAll(d.delivered);
    }
    forall records | AllWithin(records, limit) && s == PREFACE + EncodeAll(records)
      ensures d == Decoding(records, More, false, [])
    {
      RoundTrip(limit, Accept, records);
    }
  }

  /** A receiver that has seen only part of a well-formed stream has met no error and has
      been handed a prefix of its records. */
  lemma PrefixDecodesCleanly(limit: nat, records: seq<Record>, s: Text)
    requires limit <= MAX_RECORD_SIZE && AllWithin(records, limit)
    requires s <= PREFACE + EncodeAll(records)
    ensures var d := Decode(limit, Accept, s);
            d.verdict == More && d.delivered <= records
  {
    var whole := PREFACE + EncodeAll(records);
    var t := whole[|s|..];
    assert whole == s + t;
    RoundTrip(limit, Accept, records);
    ResumeComposes(limit, Accept, [], true, s, t);
    var d := Decode(limit, Accept, s);
    DecodingAccountsForInput(limit, Accept, s);
    if !d.inPreface {
      DecodedRecordsAccountForInput(limit, Accept, d.delivered, d.rest + t);
    }
  }
}
