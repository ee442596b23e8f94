/** The capture loop (src/acquisition/CaptureWorker.cpp): chunks from the native source are
    processed, flushed, sealed and published. Each turn of the loop is one Poll of the
    environment. */
module CaptureWorker {
  import opened Machine
  import opened Binary
  import opened Pcap
  import opened PcapParsing
  import opened CaptureSteps
  import opened CapturePipeline
  import opened DevicePcapWriter

  datatype Reason =
    | InvalidConfiguration
    | QueueOrByteLoss
    | NativeOrDeviceLoss
    | DeviceIdentityChanged
    | PcapFraming
    | WriterFailure

  datatype Delivery = Delivery(bytes: seq<byte>, observedQpc: int64)

  datatype Poll = Poll(
    stopRequested: bool,
    received: Option<Delivery>,
    flushDue: bool,
    nativeFault: Option<Reason>,
    readerFinished: bool)

  datatype Outcome = Running | Clean | Failed(reason: Reason)

  function ReasonFor(failure: Failure): Reason {
    match failure
    case Framing => PcapFraming
    case WrongDevice => DeviceIdentityChanged
    case Writing => WriterFailure
    case Misuse => WriterFailure
  }

  /** The source bytes that a run of polls delivers. */
  function Fed(polls: seq<Poll>): seq<byte> {
    if polls == [] then []
    else
      var last := polls[|polls| - 1];
      Fed(polls[..|polls| - 1]) + (if last.received.Some? then last.received.value.bytes else [])
  }

  lemma FedGrows(polls: seq<Poll>, i: nat)
    requires i < |polls|
    ensures Fed(polls[..i + 1])
         == Fed(polls[..i]) + (if polls[i].received.Some? then polls[i].received.value.bytes else [])
  {
    assert polls[..i + 1][..i] == polls[..i];
  }

  lemma {:induction false} FedPrefix(polls: seq<Poll>, i: nat) returns (others: seq<byte>)
    requires i <= |polls|
    ensures Fed(polls) == Fed(polls[..i]) + others
    decreases |polls|
  {
    if i == |polls| {
      others := [];
      assert polls[..i] == polls;
    } else {
      var k := |polls| - 1;
      assert polls[..k][..i] == polls[..i];
      var middle := FedPrefix(polls[..k], i);
      others := middle + (if polls[k].received.Some? then polls[k].received.value.bytes else []);
    }
  }

  // ---------------------------------------------------------------------
  // When a capture can succeed
  // ---------------------------------------------------------------------

  /** The source is a whole PCAP file of the certified device. */
  ghost predicate Acceptable(bus: uint16, device: uint16, file: seq<byte>) {
    |file| <= MAX_UINT64 && ReadPcap(file).Ok? && FirstRefusal(bus, device, ReadPcap(file).value.1).None?
  }

  lemma PrefixRefused(bus: uint16, device: uint16, a: seq<Record>, b: seq<Record>)
    requires a <= b && FirstRefusal(bus, device, a).Some?
    ensures FirstRefusal(bus, device, b).Some?
  {
    hide FirstRefusal, Verdict;
    RefusalIff(bus, device, a);
    RefusalIff(bus, device, b);
  }

  /** A refused chunk dooms every continuation of the source. */
  lemma RefusalIsFinal(bus: uint16, device: uint16, source: seq<byte>, delivered: seq<Record>, s: ParserState,
                       chunk: seq<byte>, others: seq<byte>)
    requires Reached(source, delivered, s) && |chunk| <= SAFE_CHUNK
    requires ChunkVerdict(bus, device, s, |source|, chunk).Some?
    ensures !Acceptable(bus, device, source + chunk + others)
  {
    hide Take, ReadPcap, FirstRefusal, Reached;
    var all := source + chunk + others;
    if |source| + |chunk| <= MAX_UINT64 {
      ReachedIdle(source, delivered, s);
      ResidueBound(s);
      AppendIsMore(s, chunk);
      ReachedStep(source, delivered, s, chunk);
      OneShotAgrees(all);
      if Take(More(s, chunk)).Err? {
        FaultIsFinal(source + chunk, others);
      } else {
        var taken := Take(More(s, chunk)).value;
        DeliveredStays(source + chunk, delivered + taken.0, taken.1, others);
        RefusedInside(bus, device, delivered, taken.0);
        if Take(More(PcapParsing.START, all)).Ok? {
          PrefixRefused(bus, device, delivered + taken.0, Take(More(PcapParsing.START, all)).value.0);
        }
      }
    }
  }

  lemma RefusedInside(bus: uint16, device: uint16, a: seq<Record>, b: seq<Record>)
    requires FirstRefusal(bus, device, b).Some?
    ensures FirstRefusal(bus, device, a + b).Some?
  {
    hide FirstRefusal, Verdict;
    RefusalIff(bus, device, b);
    RefusalIff(bus, device, a + b);
    var i :| 0 <= i < |b| && Verdict(bus, device, b[i]).Some?;
    assert (a + b)[|a| + i] == b[i];
  }

  /** A source that ends inside a record, or before its header, is not acceptable. */
  lemma UnfinishedUnacceptable(bus: uint16, device: uint16, source: seq<byte>, delivered: seq<Record>, s: ParserState)
    requires Reached(source, delivered, s) && !Finished(s)
    ensures !Acceptable(bus, device, source)
  {
    hide Take, ReadPcap;
    OneShotAgrees(source);
  }

  // ---------------------------------------------------------------------
  // Exact-device records before a failure
  // ---------------------------------------------------------------------

  /** All the records that the source holds before it goes wrong. */
  function CompleteRecords(source: seq<byte>): seq<Record> {
    if |source| < GLOBAL_HEADER || HeaderOf(source[..GLOBAL_HEADER]).Err? then []
    else ParseRecords(HeaderOf(source[..GLOBAL_HEADER]).value, source[GLOBAL_HEADER..], 0).records
  }

  /** The record with which the parser would begin when it is given a chunk, if it is whole. */
  function FirstCompleted(s: ParserState, chunk: seq<byte>): Option<Record> {
    var ready := TakeHeader(More(s, chunk));
    if ready.Err? || ready.value.header.None? then None
    else
      match FrontOf(ready.value.header.value, ready.value.unparsed, ready.value.sequence)
      case Complete(record, _) => Some(record)
      case _ => None
  }

  /** When a chunk is refused, by the parser or because it does not fit in the buffer, what has
      been delivered are all the complete records before the fault exactly when the chunk had
      completed none. */
  lemma AllDeliveredIff(source: seq<byte>, delivered: seq<Record>, s: ParserState, chunk: seq<byte>)
    requires Reached(source, delivered, s) && Completed(s, chunk).Err?
    ensures delivered == CompleteRecords(source + chunk) <==> FirstCompleted(s, chunk).None?
    ensures delivered <= CompleteRecords(source + chunk)
  {
    hide Reached, Completed, CompleteRecords;
    CompletedLater(source, delivered, s, chunk);
    CompleteGrow(source, chunk);
  }

  /** The loop means to keep every complete record of the device that came before a framing or
      identity fault (src/acquisition/CaptureWorker.cpp:671-673). When a chunk is refused, what
      has been kept are the records delivered before; these are all the complete ones before the
      first refusal exactly when the chunk had completed none, or first of all one that is itself
      refused. */
  lemma PreservedIff(bus: uint16, device: uint16, source: seq<byte>, delivered: seq<Record>, s: ParserState,
                     chunk: seq<byte>)
    requires Reached(source, delivered, s) && Completed(s, chunk).Err?
    requires FirstRefusal(bus, device, delivered).None?
    ensures Kept(bus, device, s, |source|, chunk) == []
    ensures var first, all := FirstCompleted(s, chunk), CompleteRecords(source + chunk);
            && delivered <= Accepted(bus, device, all)
            && (delivered == Accepted(bus, device, all) <==>
                  first.None? || Verdict(bus, device, first.value).Some?)
  {
    hide Reached, Completed, CompleteRecords, FirstCompleted, FirstRefusal, Verdict;
    AllDeliveredIff(source, delivered, s, chunk);
    CompletedLater(source, delivered, s, chunk);
    var all := CompleteRecords(source + chunk);
    var more := all[|delivered|..];
    assert all == delivered + more;
    AcceptedJoin(bus, device, delivered, more);
    assert more != [] ==> more[0] == all[|delivered|];
  }

  lemma HeaderTaken(source: seq<byte>, delivered: seq<Record>, s: ParserState)
    requires Reached(source, delivered, s) && s.header.None?
    ensures |source| < GLOBAL_HEADER
  {
    hide ParseRecords, HeaderOf;
    assert [] + source == source;
  }

  /** What a chunk adds to the complete records of the source before it. */
  lemma CompletedLater(source: seq<byte>, delivered: seq<Record>, s: ParserState, chunk: seq<byte>)
    requires Reached(source, delivered, s)
    ensures delivered == CompleteRecords(source)
    ensures var first, all := FirstCompleted(s, chunk), CompleteRecords(source + chunk);
            && (first.None? ==> all == delivered)
            && (first.Some? ==> |all| > |delivered| && all[|delivered|] == first.value)
  {
    hide HeaderOf, ParseRecords, FrontOf, Reached;
    ReachedParse(source, delivered, s);
    var all := source + chunk;
    if s.header.None? {
      HeaderTaken(source, delivered, s);
    }
    if s.header.Some? {
      var h := s.header.value;
      assert all[..GLOBAL_HEADER] == source[..GLOBAL_HEADER];
      assert all[GLOBAL_HEADER..] == source[GLOBAL_HEADER..] + chunk;
      ParseResumes(h, source[GLOBAL_HEADER..], chunk, 0);
      FirstComplete(h, s.unparsed + chunk, s.sequence);
    } else if |all| >= GLOBAL_HEADER && HeaderOf(all[..GLOBAL_HEADER]).Ok? {
      FirstComplete(HeaderOf(all[..GLOBAL_HEADER]).value, all[GLOBAL_HEADER..], 0);
    }
  }

  lemma FirstComplete(h: Header, rest: seq<byte>, sequence: nat)
    ensures var records, front := ParseRecords(h, rest, sequence).records, FrontOf(h, rest, sequence);
            && (records == [] <==> !front.Complete?)
            && (front.Complete? ==> records[0] == front.record)
  {
    hide FrontOf;
  }

  /** One chunk: a global header, a whole record holding a packet of device 2 on bus 1, and
      the header of a record that claims more captured bytes than it had. */
  const HEADER_PART: seq<byte> :=
    [0xd4, 0xc3, 0xb2, 0xa1, 2, 0, 4, 0, 0, 0, 0, 0, 0, 0, 0, 0, 27, 0, 0, 0, 249, 0, 0, 0]
  const GOOD_HEADER: seq<byte> := [0, 0, 0, 0, 0, 0, 0, 0, 27, 0, 0, 0, 27, 0, 0, 0]
  const GOOD_PACKET: seq<byte> :=
    [27, 0, 0, 0, 0, 0, 0, 0, 0, 0, 0, 0, 0, 0, 0, 0, 0, 1, 0, 2, 0, 0x81, 1, 0, 0, 0, 0]
  const BAD_HEADER: seq<byte> := [0, 0, 0, 0, 0, 0, 0, 0, 1, 0, 0, 0, 0, 0, 0, 0]
  const LOSING_CHUNK: seq<byte> := HEADER_PART + (GOOD_HEADER + (GOOD_PACKET + BAD_HEADER))

  lemma {:induction false} FirstByteOnly(bytes: seq<byte>)
    requires forall i :: 0 < i < |bytes| ==> bytes[i] == 0
    ensures FromFixed(bytes, true) == (if bytes == [] then 0 else bytes[0])
  {
    if bytes != [] {
      FirstByteOnly(bytes[1..]);
    }
  }

  lemma LosingHeader()
    ensures HeaderOf(HEADER_PART) == Ok(Header(true, Microseconds, 2, 4, 27, 249))
  {
    hide FromFixed;
    assert HEADER_PART[0..4] == Magic(true, Microseconds);
    FirstByteOnly(HEADER_PART[4..6]);
    FirstByteOnly(HEADER_PART[6..8]);
    FirstByteOnly(HEADER_PART[16..20]);
    FirstByteOnly(HEADER_PART[20..24]);
  }

  const LOST := Record(0, 0, 0, Microseconds, 27, GOOD_PACKET)

  lemma GoodFront(h: Header)
    requires h == Header(true, Microseconds, 2, 4, 27, 249)
    ensures FrontOf(h, GOOD_HEADER + (GOOD_PACKET + BAD_HEADER), 0) == Complete(LOST, 43)
  {
    hide FromFixed;
    var rest := GOOD_HEADER + (GOOD_PACKET + BAD_HEADER);
    assert rest[0..4] == [0, 0, 0, 0] && rest[4..8] == [0, 0, 0, 0];
    assert rest[8..12] == [27, 0, 0, 0] && rest[12..16] == [27, 0, 0, 0];
    FirstByteOnly(rest[0..4]);
    FirstByteOnly(rest[8..12]);
    assert rest[16..43] == GOOD_PACKET;
  }

  lemma BadFront(h: Header)
    requires h == Header(true, Microseconds, 2, 4, 27, 249)
    ensures FrontOf(h, BAD_HEADER, 1) == Bad(UnsafeLength)
  {
    hide FromFixed;
    FirstByteOnly(BAD_HEADER[8..12]);
    FirstByteOnly(BAD_HEADER[12..16]);
  }

  lemma LosingRecords(h: Header)
    requires h == Header(true, Microseconds, 2, 4, 27, 249)
    ensures ParseRecords(h, GOOD_HEADER + (GOOD_PACKET + BAD_HEADER), 0)
         == Parsed([LOST], BAD_HEADER, Some(UnsafeLength))
  {
    hide FrontOf;
    GoodFront(h);
    BadFront(h);
    var rest := GOOD_HEADER + (GOOD_PACKET + BAD_HEADER);
    assert rest[43..] == BAD_HEADER;
    assert ParseRecords(h, BAD_HEADER, 1) == Parsed([], BAD_HEADER, Some(UnsafeLength));
    assert [LOST] + [] == [LOST];
  }

  lemma GoodPacketAccepted()
    ensures Verdict(1, 2, LOST).None?
  {
    hide FromLittleEndian;
    var bytes := GOOD_PACKET;
    FirstByteOnly(bytes[0..2]);
    FirstByteOnly(bytes[17..19]);
    FirstByteOnly(bytes[19..21]);
    FirstByteOnly(bytes[23..27]);
  }

  /** So a complete record of the device can be lost: here the source holds one, the worker
      stops at the fault after it, and no record has been delivered. */
  lemma CompleteRecordLost()
    ensures Reached([], [], PcapParsing.START)
    ensures Take(More(PcapParsing.START, LOSING_CHUNK)).Err?
    ensures CompleteRecords([] + LOSING_CHUNK) == [LOST] && Verdict(1, 2, LOST).None?
    ensures Kept(1, 2, PcapParsing.START, 0, LOSING_CHUNK) == []
  {
    hide HeaderOf, ParseRecords, Verdict;
    ReachedAtStart();
    LosingHeader();
    GoodPacketAccepted();
    LosingRecords(Header(true, Microseconds, 2, 4, 27, 249));
    assert [] + LOSING_CHUNK == LOSING_CHUNK;
    assert LOSING_CHUNK[..GLOBAL_HEADER] == HEADER_PART;
    assert LOSING_CHUNK[GLOBAL_HEADER..] == GOOD_HEADER + (GOOD_PACKET + BAD_HEADER);
  }

  // ---------------------------------------------------------------------
  // What a failed run leaves
  // ---------------------------------------------------------------------

  /** Whether the parser goes on after `taken` when it is given `chunk`. */
  predicate GoesOn(taken: seq<byte>, chunk: seq<byte>) {
    var before := Take(More(PcapParsing.START, taken));
    before.Ok? && |taken| + |chunk| <= MAX_UINT64 && Completed(before.value.1, chunk).Ok?
  }

  /** The records kept when a run has taken some bytes and breaks off at a chunk, or at none:
      the complete ones before the first that is refused, those of the last chunk included if
      the parser could take it. */
  function Retained(bus: uint16, device: uint16, taken: seq<byte>, chunk: seq<byte>): seq<Record> {
    Accepted(bus, device, CompleteRecords(if GoesOn(taken, chunk) then taken + chunk else taken))
  }

  lemma {:induction false} AcceptedJoin(bus: uint16, device: uint16, a: seq<Record>, b: seq<Record>)
    requires FirstRefusal(bus, device, a).None?
    ensures Accepted(bus, device, a + b) == a + Accepted(bus, device, b)
  {
    hide Verdict;
    if a == [] {
      assert [] + b == b;
      NothingInFront<Record>();
    } else {
      AcceptedJoin(bus, device, a[1..], b);
      assert (a + b)[1..] == a[1..] + b;
      Assoc([a[0]], a[1..], Accepted(bus, device, b));
      assert [a[0]] + a[1..] == a;
    }
  }

  lemma KeptIsRetained(bus: uint16, device: uint16, taken: seq<byte>, delivered: seq<Record>, s: ParserState,
                       chunk: seq<byte>)
    requires Reached(taken, delivered, s) && FirstRefusal(bus, device, delivered).None?
    ensures delivered + Kept(bus, device, s, |taken|, chunk) == Retained(bus, device, taken, chunk)
  {
    assert Take(More(PcapParsing.START, taken)) == Ok((delivered, s));
    hide Take, FirstRefusal, Accepted, CompleteRecords, Reached;
    assert delivered + [] == delivered;
    CompletedLater(taken, delivered, s, []);
    AcceptedJoin(bus, device, delivered, []);
    NothingAccepted(bus, device);
    if chunk == [] {
      assert taken + [] == taken;
    } else if Completed(s, chunk).Ok? {
      assert |s.unparsed| + |chunk| <= MAX_BUFFER;
      ReachedStep(taken, delivered, s, chunk);
      var records := Completed(s, chunk).value;
      CompletedLater(taken + chunk, delivered + records, Take(More(s, chunk)).value.1, []);
      AcceptedJoin(bus, device, delivered, records);
    }
  }

  lemma NothingAccepted(bus: uint16, device: uint16)
    ensures Accepted(bus, device, []) == []
  {
  }

  /** The device file is then a front part of the canonical copy of the source. */
  lemma RetainedCopy(bus: uint16, device: uint16, taken: seq<byte>, chunk: seq<byte>, h: Header)
    requires |taken + chunk| >= GLOBAL_HEADER && HeaderOf((taken + chunk)[..GLOBAL_HEADER]) == Ok(h)
    ensures FileBytes(h, Retained(bus, device, taken, chunk)) <= CanonicalFile(taken + chunk)
  {
    hide HeaderOf, ParseRecords, Accepted, RecordsBytes, HeaderBytes, CanonicalFile, GoesOn;
    var all := taken + chunk;
    CompleteGrow(taken, chunk);
    var records := CompleteRecords(all);
    AcceptedIsPrefix(bus, device, records);
    AcceptedIsPrefix(bus, device, CompleteRecords(taken));
    FrontOfFile(h, Retained(bus, device, taken, chunk), records);
    RecordsRestore(h, all[GLOBAL_HEADER..], 0);
    HeaderRestores(all[..GLOBAL_HEADER]);
    CanonicalSplits(all);
    Assoc(HeaderBytes(h), RecordsBytes(h, records), ParseRecords(h, all[GLOBAL_HEADER..], 0).rest);
  }

  /** The complete records of a source stay in front of those of any continuation. */
  lemma CompleteGrow(source: seq<byte>, more: seq<byte>)
    ensures CompleteRecords(source) <= CompleteRecords(source + more)
  {
    hide HeaderOf, ParseRecords;
    if |source| >= GLOBAL_HEADER && HeaderOf(source[..GLOBAL_HEADER]).Ok? {
      assert (source + more)[..GLOBAL_HEADER] == source[..GLOBAL_HEADER];
      assert (source + more)[GLOBAL_HEADER..] == source[GLOBAL_HEADER..] + more;
      ParseResumes(HeaderOf(source[..GLOBAL_HEADER]).value, source[GLOBAL_HEADER..], more, 0);
    }
  }

  lemma FrontOfFile(h: Header, a: seq<Record>, b: seq<Record>)
    requires a <= b
    ensures FileBytes(h, a) <= FileBytes(h, b)
  {
    hide RecordsBytes, HeaderBytes;
    assert b == a + b[|a|..];
    RecordsBytesAppend(h, a, b[|a|..]);
    Assoc(HeaderBytes(h), RecordsBytes(h, a), RecordsBytes(h, b[|a|..]));
  }

  // ---------------------------------------------------------------------
  // Why a run fails
  // ---------------------------------------------------------------------

  /** A packet of another device, or on another bus. */
  predicate Foreign(bus: uint16, device: uint16, r: Record) {
    PacketOf(r).Ok? && (PacketOf(r).value.bus != bus || PacketOf(r).value.device != device)
  }

  /** The record is the first that is no packet of the device. */
  predicate FirstUnfit(bus: uint16, device: uint16, records: seq<Record>, i: nat) {
    && i < |records| && (PacketOf(records[i]).Err? || Foreign(bus, device, records[i]))
    && forall j :: 0 <= j < i ==> PacketOf(records[j]).Ok? && !Foreign(bus, device, records[j])
  }

  /** The parser can go on with the chunk, and the first record that is no packet of the device
      is one of another device. */
  ghost predicate IdentityChanges(bus: uint16, device: uint16, taken: seq<byte>, chunk: seq<byte>) {
    && GoesOn(taken, chunk)
    && var all := CompleteRecords(taken + chunk);
       exists i: nat :: FirstUnfit(bus, device, all, i) && PacketOf(all[i]).Ok?
  }

  lemma VerdictIs(bus: uint16, device: uint16, r: Record)
    ensures Verdict(bus, device, r) == Some(WrongDevice) <==> Foreign(bus, device, r)
    ensures Verdict(bus, device, r) == Some(Framing) <==> PacketOf(r).Err?
  {
  }

  lemma FirstRefusalIs(bus: uint16, device: uint16, a: seq<Record>, b: seq<Record>)
    requires FirstRefusal(bus, device, a).None? && FirstRefusal(bus, device, b).Some?
    ensures FirstRefusal(bus, device, b) == Some(WrongDevice) <==>
            exists i: nat :: FirstUnfit(bus, device, a + b, i) && PacketOf((a + b)[i]).Ok?
  {
    hide Verdict, FirstRefusal, Foreign, PacketOf;
    RefusalIff(bus, device, a);
    AcceptedIsPrefix(bus, device, b);
    var n, all := |Accepted(bus, device, b)|, a + b;
    forall r: Record
      ensures Verdict(bus, device, r) == Some(WrongDevice) <==> Foreign(bus, device, r)
      ensures Verdict(bus, device, r) == Some(Framing) <==> PacketOf(r).Err?
    {
      VerdictIs(bus, device, r);
    }
    assert forall i :: 0 <= i < |a| ==> all[i] == a[i];
    assert forall i :: 0 <= i < |b| ==> all[|a| + i] == b[i];
    assert all[|a| + n] == b[n];
    FirstUnfitAt(bus, device, all, |a| + n);
  }

  lemma FirstUnfitAt(bus: uint16, device: uint16, records: seq<Record>, n: nat)
    requires FirstUnfit(bus, device, records, n)
    ensures forall i: nat :: FirstUnfit(bus, device, records, i) ==> i == n
  {
    hide Foreign, PacketOf;
  }

  /** Whether a chunk is refused for its framing or for a changed device, in terms of the bytes. */
  lemma ReasonOfChunk(bus: uint16, device: uint16, taken: seq<byte>, delivered: seq<Record>, s: ParserState,
                      chunk: seq<byte>)
    requires Reached(taken, delivered, s) && FirstRefusal(bus, device, delivered).None?
    requires ChunkVerdict(bus, device, s, |taken|, chunk).Some?
    ensures ChunkVerdict(bus, device, s, |taken|, chunk) == Some(WrongDevice) <==>
            IdentityChanges(bus, device, taken, chunk)
  {
    assert Take(More(PcapParsing.START, taken)) == Ok((delivered, s));
    hide Take, FirstRefusal, CompleteRecords, Reached, FirstUnfit;
    if |taken| + |chunk| <= MAX_UINT64 && Completed(s, chunk).Ok? {
      ReachedStep(taken, delivered, s, chunk);
      var records := Completed(s, chunk).value;
      CompletedLater(taken + chunk, delivered + records, Take(More(s, chunk)).value.1, []);
      FirstRefusalIs(bus, device, delivered, records);
    }
  }

  predicate StopAsked(polls: seq<Poll>, turns: nat)
    requires turns <= |polls|
  {
    exists i :: 0 <= i < turns && polls[i].stopRequested
  }

  predicate Sound(polls: seq<Poll>, turns: nat)
    requires turns <= |polls|
  {
    forall i :: 0 <= i < turns ==> polls[i].nativeFault.None?
  }

  ghost predicate FirstFault(polls: seq<Poll>, turns: nat, reason: Reason)
    requires turns <= |polls|
  {
    exists i :: 0 <= i < turns && polls[i].nativeFault == Some(reason) && Sound(polls, i)
  }

  /** The reason for which a run fails whose reader has ended after so many turns: the first
      native fault; or that nobody had asked for the end; or a source that ends before its header
      or inside a record; or the native side's objection to the evidence of a whole one. */
  ghost predicate EndsFor(polls: seq<Poll>, turns: nat, drain: DrainEvidence -> Option<Reason>, reason: Reason)
    requires turns <= |polls|
  {
    var fed := Fed(polls[..turns]);
    if !Sound(polls, turns) then FirstFault(polls, turns, reason)
    else if !StopAsked(polls, turns) then reason == NativeOrDeviceLoss
    else if ReadPcap(fed).Err? then reason == PcapFraming
    else drain(DrainEvidence(true, true, |fed|)) == Some(reason)
  }

  // ---------------------------------------------------------------------
  // The loop
  // ---------------------------------------------------------------------

  /** What the pipeline will have stored when a chunk breaks the run, in terms of the source. */
  lemma StoredIsRetained(pipeline: CapturePipeline, chunk: seq<byte>)
    requires pipeline.Valid()
    ensures pipeline.Stored() + Kept(pipeline.bus, pipeline.device, pipeline.parser.State(), |pipeline.source|, chunk)
         == Retained(pipeline.bus, pipeline.device, pipeline.source, chunk)
  {
    assert FirstRefusal(pipeline.bus, pipeline.device, pipeline.Stored()).None? by {
      StoredAccepted(pipeline);
    }
    hide Reached, FirstRefusal, Kept, Retained, CapturePipeline.Usable;
    KeptIsRetained(pipeline.bus, pipeline.device, pipeline.source, pipeline.delivered, pipeline.parser.State(), chunk);
  }

  /** When a run ends between two chunks, everything accepted has been stored. */
  lemma StoredWhole(pipeline: CapturePipeline)
    requires pipeline.Valid()
    ensures Preserved(pipeline, pipeline.source, [])
  {
    hide CapturePipeline.Valid, CapturePipeline.Holds, Retained;
    pipeline.ValidHolds([]);
    StoredIsRetained(pipeline, []);
    assert pipeline.Stored() + [] == pipeline.Stored();
  }

  /** The device file holds the header of the source and the records that a run which has taken
      some bytes and broken off at a chunk is to keep. */
  ghost predicate Preserved(pipeline: CapturePipeline, taken: seq<byte>, chunk: seq<byte>)
    reads pipeline, pipeline.devicePcap
  {
    pipeline.Holds(taken + chunk, Retained(pipeline.bus, pipeline.device, taken, chunk))
  }

  /** Process one delivery; after a fault of the source itself, flush what there is. */
  method Deliver(pipeline: CapturePipeline, delivery: Delivery) returns (failure: Option<Reason>)
    requires pipeline.Valid() && !pipeline.snapshot.sealed
    modifies pipeline, pipeline.parser, pipeline.devicePcap, pipeline.reports, pipeline.extractor
    ensures pipeline.devicePcap == old(pipeline.devicePcap)
            || (old(pipeline.devicePcap) == null && fresh(pipeline.devicePcap))
    ensures pipeline.reports == old(pipeline.reports) || pipeline.reports == null
    ensures failure.None? ==>
              pipeline.Valid() && !pipeline.snapshot.sealed && pipeline.source == old(pipeline.source) + delivery.bytes
    ensures failure == Some(WriterFailure) ==> !pipeline.DiskWorks()
    ensures failure.None? ==>
              ChunkVerdict(pipeline.bus, pipeline.device, old(pipeline.parser.State()), |old(pipeline.source)|,
                           delivery.bytes).None?
    ensures failure.Some? && failure != Some(WriterFailure) ==>
              && ChunkVerdict(pipeline.bus, pipeline.device, old(pipeline.parser.State()), |old(pipeline.source)|,
                              delivery.bytes).Some?
              && pipeline.Stored() == old(pipeline.Stored())
                 + Kept(pipeline.bus, pipeline.device, old(pipeline.parser.State()), |old(pipeline.source)|,
                        delivery.bytes)
              && Preserved(pipeline, old(pipeline.source), delivery.bytes)
    ensures failure.Some? && failure != Some(WriterFailure) ==>
              && delivery.bytes != []
              && failure == Some(if IdentityChanges(pipeline.bus, pipeline.device, old(pipeline.source), delivery.bytes)
                                 then DeviceIdentityChanged else PcapFraming)
  {
    hide CapturePipeline.Usable, ChunkVerdict, Kept, Reached, Retained, CapturePipeline.Holds, IdentityChanges;
    StoredIsRetained(pipeline, delivery.bytes);
    ReasonOf(pipeline, delivery.bytes);
    pipeline.NotPublished();
    var processed := pipeline.ProcessChunk(delivery.bytes, delivery.observedQpc);
    if processed.Ok? {
      return None;
    }
    if processed.error.Framing? || processed.error.WrongDevice? {
      var _ := pipeline.Checkpoint();
    }
    return Some(ReasonFor(processed.error));
  }

  lemma ReasonOf(pipeline: CapturePipeline, chunk: seq<byte>)
    requires pipeline.Valid()
    ensures var s := pipeline.parser.State();
            var verdict := ChunkVerdict(pipeline.bus, pipeline.device, s, |pipeline.source|, chunk);
            verdict.Some? ==>
              && chunk != []
              && (verdict == Some(WrongDevice) <==>
                    IdentityChanges(pipeline.bus, pipeline.device, pipeline.source, chunk))
              && (verdict != Some(WrongDevice) ==> verdict == Some(Framing))
  {
    assert FirstRefusal(pipeline.bus, pipeline.device, pipeline.Stored()).None? by {
      StoredAccepted(pipeline);
    }
    ChunkVerdictKinds(pipeline.bus, pipeline.device, pipeline.parser.State(), |pipeline.source|, chunk);
    hide Reached, FirstRefusal, ChunkVerdict, IdentityChanges, CapturePipeline.Usable;
    if ChunkVerdict(pipeline.bus, pipeline.device, pipeline.parser.State(), |pipeline.source|, chunk).Some? {
      ReasonOfChunk(pipeline.bus, pipeline.device, pipeline.source, pipeline.delivered, pipeline.parser.State(), chunk);
    }
  }

  lemma ChunkVerdictKinds(bus: uint16, device: uint16, s: ParserState, accounted: nat, chunk: seq<byte>)
    ensures var verdict := ChunkVerdict(bus, device, s, accounted, chunk);
            verdict.Some? ==> chunk != [] && (verdict.value.Framing? || verdict.value.WrongDevice?)
  {
    hide FirstRefusal, Completed;
  }

  /** The objects a run may change besides the pipeline itself. */
  twostate predicate SameParts(pipeline: CapturePipeline)
    reads pipeline
  {
    && (pipeline.devicePcap == old(pipeline.devicePcap)
        || (old(pipeline.devicePcap) == null && pipeline.devicePcap != null && fresh(pipeline.devicePcap)))
    && (pipeline.reports == old(pipeline.reports) || pipeline.reports == null)
  }

  /** Nothing but the source's own bytes can stop such a run: no fault is reported, no chunk
      is too long for the parser's buffer, and the reader ends in the last poll only. */
  ghost predicate Quiet(polls: seq<Poll>) {
    && polls != []
    && (exists i :: 0 <= i < |polls| && polls[i].stopRequested)
    && (forall i :: 0 <= i < |polls| ==>
          && polls[i].nativeFault.None?
          && (polls[i].received.Some? ==> |polls[i].received.value.bytes| <= SAFE_CHUNK)
          && (polls[i].received.None? && polls[i].readerFinished <==> i == |polls| - 1))
  }

  /** What is known between two turns of the loop. */
  ghost predicate Underway(pipeline: CapturePipeline, fed: seq<byte>)
    reads pipeline, pipeline.parser, pipeline.devicePcap, pipeline.reports, pipeline.extractor
  {
    !pipeline.snapshot.sealed && pipeline.source == fed && pipeline.Valid()
  }

  /** How the loop ends: with a failure at a chunk that is returned at once, or at the end of
      the reader, with the failure pending if there is one. */
  datatype LoopEnd = Unfinished | Broken(reason: Reason, chunk: seq<byte>) | Ended(pending: Option<Reason>)

  /** The chunk of a poll, or none. */
  function ChunkOf(poll: Poll): seq<byte> {
    if poll.received.Some? then poll.received.value.bytes else []
  }

  lemma QuietPoll(polls: seq<Poll>, i: nat)
    requires Quiet(polls) && i < |polls|
    ensures polls[i].nativeFault.None?
    ensures polls[i].received.Some? ==> |polls[i].received.value.bytes| <= SAFE_CHUNK
    ensures polls[i].received.None? && polls[i].readerFinished <==> i == |polls| - 1
  {
  }

  /** Processing and flushing in one turn of the loop. */
  method Turn(pipeline: CapturePipeline, polls: seq<Poll>, i: nat) returns (failure: Option<Reason>)
    requires i < |polls| && Underway(pipeline, Fed(polls[..i]))
    modifies pipeline, pipeline.parser, pipeline.devicePcap, pipeline.reports, pipeline.extractor
    ensures SameParts(pipeline)
    ensures failure.None? ==> Underway(pipeline, Fed(polls[..i + 1]))
    ensures failure.Some? && failure != Some(WriterFailure) ==>
              && polls[i].received.Some? && polls[i].received.value.bytes != []
              && Preserved(pipeline, Fed(polls[..i]), polls[i].received.value.bytes)
              && failure == Some(if IdentityChanges(pipeline.bus, pipeline.device, Fed(polls[..i]),
                                                    polls[i].received.value.bytes)
                                 then DeviceIdentityChanged else PcapFraming)
    ensures failure == Some(WriterFailure) ==> !pipeline.DiskWorks()
    ensures failure.Some? && Quiet(polls) && pipeline.DiskWorks() ==>
              !Acceptable(pipeline.bus, pipeline.device, Fed(polls))
  {
    hide ChunkVerdict, Acceptable, Fed, Kept, CapturePipeline.Valid, Quiet, Preserved, IdentityChanges;
    var poll := polls[i];
    FedGrows(polls, i);
    if Quiet(polls) {
      QuietPoll(polls, i);
    }
    if poll.received.Some? {
      ghost var others := FedPrefix(polls, i + 1);
      RefusalOfFed(pipeline, poll.received.value.bytes, Fed(polls), others);
      failure := Deliver(pipeline, poll.received.value);
      if failure.Some? {
        return failure;
      }
    } else {
      assert pipeline.source + [] == pipeline.source;
    }
    if poll.flushDue {
      var flushed := Flush(pipeline);
      if flushed.Err? {
        return Some(WriterFailure);
      }
    }
    return None;
  }

  method Loop(pipeline: CapturePipeline, polls: seq<Poll>) returns (end: LoopEnd, turns: nat)
    requires Underway(pipeline, [])
    modifies pipeline, pipeline.parser, pipeline.devicePcap, pipeline.reports, pipeline.extractor
    ensures turns <= |polls|
    ensures SameParts(pipeline)
    ensures end.Ended? ==> Underway(pipeline, Fed(polls[..turns]))
    ensures end.Broken? ==> turns < |polls| && end.chunk == ChunkOf(polls[turns])
    ensures end.Broken? && end.reason != WriterFailure ==>
              && end.chunk != [] && Preserved(pipeline, Fed(polls[..turns]), end.chunk)
              && end.reason == if IdentityChanges(pipeline.bus, pipeline.device, Fed(polls[..turns]), end.chunk)
                               then DeviceIdentityChanged else PcapFraming
    ensures end.Broken? && end.reason == WriterFailure ==> !pipeline.DiskWorks()
    ensures end.Ended? && end.pending.None? ==> StopAsked(polls, turns) && Sound(polls, turns)
    ensures end.Ended? && end.pending.Some? ==>
              if Sound(polls, turns) then !StopAsked(polls, turns) && end.pending == Some(NativeOrDeviceLoss)
              else FirstFault(polls, turns, end.pending.value)
    ensures Quiet(polls) && pipeline.DiskWorks() ==>
              && !end.Unfinished?
              && (end.Broken? ==> !Acceptable(pipeline.bus, pipeline.device, Fed(polls)))
              && (end.Ended? ==> end.pending.None? && turns == |polls|)
  {
    hide Acceptable, Fed, Underway, Preserved, IdentityChanges;
    turns := 0;
    var pending: Option<Reason> := None;
    var stopForwarded := false;
    assert Fed(polls[..0]) == [] by { NothingFed(polls[..0]); }
    while turns < |polls|
      invariant turns <= |polls|
      invariant SameParts(pipeline)
      invariant Underway(pipeline, Fed(polls[..turns]))
      invariant pending.None? ==> Sound(polls, turns) && (stopForwarded <==> StopAsked(polls, turns))
      invariant pending.Some? ==> FirstFault(polls, turns, pending.value) && stopForwarded
      invariant StopAsked(polls, turns) ==> stopForwarded
      invariant Quiet(polls) ==> pending.None? && turns < |polls|
    {
      var poll := polls[turns];
      if poll.stopRequested && !stopForwarded {
        stopForwarded := true;
      }
      var failure := Turn(pipeline, polls, turns);
      if failure.Some? {
        return Broken(failure.value, ChunkOf(poll)), turns;
      }
      if poll.nativeFault.Some? && pending.None? {
        pending := poll.nativeFault;
        stopForwarded := true;
      }
      turns := turns + 1;
      if poll.received.None? && poll.readerFinished {
        if !stopForwarded && pending.None? {
          pending := Some(NativeOrDeviceLoss);
        }
        return Ended(pending), turns;
      }
    }
    return Unfinished, turns;
  }

  lemma NothingFed(polls: seq<Poll>)
    requires polls == []
    ensures Fed(polls) == []
  {
  }

  lemma RefusalOfFed(pipeline: CapturePipeline, chunk: seq<byte>, all: seq<byte>, others: seq<byte>)
    requires pipeline.Valid() && all == pipeline.source + chunk + others
    ensures |chunk| <= SAFE_CHUNK
            && ChunkVerdict(pipeline.bus, pipeline.device, pipeline.parser.State(), |pipeline.source|, chunk).Some?
            ==> !Acceptable(pipeline.bus, pipeline.device, all)
  {
    hide Acceptable, ChunkVerdict, CapturePipeline.Usable, Reached;
    if |chunk| <= SAFE_CHUNK
       && ChunkVerdict(pipeline.bus, pipeline.device, pipeline.parser.State(), |pipeline.source|, chunk).Some? {
      RefusalIsFinal(pipeline.bus, pipeline.device, pipeline.source, pipeline.delivered, pipeline.parser.State(), chunk,
                     others);
    }
  }

  method Flush(pipeline: CapturePipeline) returns (result: Result<(), Failure>)
    requires pipeline.Valid() && !pipeline.snapshot.sealed
    modifies pipeline, pipeline.reports
    ensures pipeline.devicePcap == old(pipeline.devicePcap)
    ensures pipeline.reports == old(pipeline.reports) || pipeline.reports == null
    ensures result.Ok? ==>
              pipeline.Valid() && !pipeline.snapshot.sealed && pipeline.source == old(pipeline.source)
    ensures result.Err? ==> !pipeline.DiskWorks()
  {
    hide CapturePipeline.Usable, Reached;
    pipeline.NotPublished();
    result := pipeline.Checkpoint();
  }

  /** The native side finds nothing wrong when the pipeline's evidence accounts for `bytes`. */
  ghost predicate DrainsClean(drain: DrainEvidence -> Option<Reason>, bytes: nat) {
    drain(DrainEvidence(true, true, bytes)).None?
  }

  /** Sealing, draining and publishing after the reader has ended. */
  method Finish(pipeline: CapturePipeline, drain: DrainEvidence -> Option<Reason>, before: Option<Reason>)
    returns (outcome: Outcome)
    requires pipeline.Valid() && !pipeline.snapshot.sealed
    modifies pipeline, pipeline.reports, pipeline.devicePcap
    ensures SameParts(pipeline)
    ensures outcome.Clean? ==> before.None? && pipeline.Published() && pipeline.source == old(pipeline.source)
    ensures outcome.Clean? ==> Acceptable(pipeline.bus, pipeline.device, pipeline.source)
    ensures outcome.Clean? ==> DrainsClean(drain, |old(pipeline.source)|)
    ensures !outcome.Running?
    ensures before.Some? ==> outcome == Failed(before.value)
    ensures before.None? && outcome.Failed? && (outcome.reason != WriterFailure || pipeline.DiskWorks()) ==>
              if ReadPcap(old(pipeline.source)).Err? then outcome.reason == PcapFraming
              else drain(DrainEvidence(true, true, |old(pipeline.source)|)) == Some(outcome.reason)
    ensures outcome.Failed? && outcome.reason != WriterFailure ==> Preserved(pipeline, old(pipeline.source), [])
    ensures before.None? && pipeline.DiskWorks() && DrainsClean(drain, |old(pipeline.source)|) ==>
            Acceptable(pipeline.bus, pipeline.device, old(pipeline.source)) ==>
              outcome.Clean?
  {
    hide CapturePipeline.Usable, Reached, ReadPcap, FirstRefusal, CanonicalFile, Finished, CapturePipeline.Published;
    hide CapturePipeline.Holds, Retained;
    StoredWhole(pipeline);
    var pending := before;
    UnfinishedNotAcceptable(pipeline);
    FinishedIsWhole(pipeline);
    pipeline.NotPublished();
    var sealed := pipeline.Seal();
    if sealed.Err? && pending.None? {
      pending := Some(if sealed.error.Writing? then WriterFailure else PcapFraming);
    }
    if sealed.Ok? {
      pipeline.EvidenceIsTruthful();
      SealedAcceptable(pipeline);
    }
    var drained := drain(pipeline.Evidence());
    if drained.Some? && pending.None? {
      pending := drained;
    }
    if pending.None? {
      pipeline.NotPublished();
      var published := pipeline.Publish();
      if published.Err? {
        pending := Some(WriterFailure);
      }
    }
    return if pending.None? then Clean else Failed(pending.value);
  }

  lemma FinishedIsWhole(pipeline: CapturePipeline)
    requires pipeline.Valid()
    ensures Finished(pipeline.parser.State()) <==> ReadPcap(pipeline.source).Ok?
  {
    hide CapturePipeline.Usable, Take, ReadPcap;
    OneShotAgrees(pipeline.source);
  }

  lemma UnfinishedNotAcceptable(pipeline: CapturePipeline)
    requires pipeline.Valid()
    ensures !Finished(pipeline.parser.State()) ==> !Acceptable(pipeline.bus, pipeline.device, pipeline.source)
  {
    hide CapturePipeline.Usable, Reached, Acceptable, Finished;
    if !Finished(pipeline.parser.State()) {
      UnfinishedUnacceptable(pipeline.bus, pipeline.device, pipeline.source, pipeline.delivered,
                             pipeline.parser.State());
    }
  }

  lemma SealedAcceptable(pipeline: CapturePipeline)
    requires pipeline.Valid() && pipeline.snapshot.sealed
    ensures Acceptable(pipeline.bus, pipeline.device, pipeline.source)
  {
    hide Reached, ReadPcap, FirstRefusal, CanonicalFile;
    pipeline.SealedCopy();
    StoredAccepted(pipeline);
  }

  lemma StoredAccepted(pipeline: CapturePipeline)
    requires pipeline.DeviceReady()
    ensures FirstRefusal(pipeline.bus, pipeline.device, pipeline.Stored()).None?
  {
  }

  /** A whole run. It ends clean only after a stop was asked for and with the published
      device file equal to the source, global-header bytes 8..15 zeroed. If the disk works
      and nothing outside the source goes wrong, it ends clean exactly when the source is a
      whole file of the certified device. A run that fails for another reason than a write has
      a device file that is a front part of the canonical copy: the source's header and the
      records accepted before the fault. `faulty` is the chunk at which it broke off, if any: then
      the reason is a changed device exactly when the bytes so far parse and their first unfit
      record is a packet of another device, and the framing otherwise. The other reasons are the
      options, the start, and those of EndsFor. */
  method Run(pipeline: CapturePipeline, optionsValid: bool, startFault: Option<Reason>, polls: seq<Poll>,
             drain: DrainEvidence -> Option<Reason>)
    returns (outcome: Outcome, turns: nat, faulty: seq<byte>)
    requires Underway(pipeline, [])
    modifies pipeline, pipeline.parser, pipeline.devicePcap, pipeline.reports, pipeline.extractor
    ensures turns <= |polls|
    ensures outcome.Clean? ==>
              && pipeline.Published() && pipeline.source == Fed(polls[..turns])
              && Acceptable(pipeline.bus, pipeline.device, Fed(polls[..turns]))
              && exists i :: 0 <= i < turns && polls[i].stopRequested
    ensures faulty != [] ==> turns < |polls| && faulty == ChunkOf(polls[turns])
    ensures outcome.Failed? && outcome.reason != WriterFailure ==>
              && Preserved(pipeline, Fed(polls[..turns]), faulty)
              && (pipeline.devicePcap != null ==>
                    pipeline.devicePcap.output <= CanonicalFile(Fed(polls[..turns]) + faulty))
    ensures !optionsValid ==> outcome == Failed(InvalidConfiguration)
    ensures optionsValid && startFault.Some? ==> outcome == Failed(startFault.value)
    ensures outcome.Clean? ==>
              && optionsValid && startFault.None? && Sound(polls, turns)
              && DrainsClean(drain, |Fed(polls[..turns])|)
    ensures optionsValid && startFault.None? && outcome.Failed?
            && (outcome.reason != WriterFailure || pipeline.DiskWorks()) ==>
              if faulty == [] then EndsFor(polls, turns, drain, outcome.reason)
              else outcome.reason == if IdentityChanges(pipeline.bus, pipeline.device, Fed(polls[..turns]), faulty)
                                     then DeviceIdentityChanged else PcapFraming
    ensures optionsValid && startFault.None? && Quiet(polls) ==>
            pipeline.DiskWorks() && DrainsClean(drain, |Fed(polls)|) ==>
              (outcome.Clean? <==> Acceptable(pipeline.bus, pipeline.device, Fed(polls)))
  {
    hide Acceptable, Fed, Quiet, CapturePipeline.Valid, CapturePipeline.Published, Preserved, CanonicalFile;
    hide IdentityChanges, ReadPcap;
    turns, faulty := 0, [];
    NothingFed(polls[..0]);
    StoredWhole(pipeline);
    if !optionsValid {
      outcome := Failed(InvalidConfiguration);
    } else if startFault.Some? {
      outcome := Failed(startFault.value);
    } else {
      var end: LoopEnd;
      end, turns := Loop(pipeline, polls);
      match end {
        case Unfinished =>
          outcome := Running;
        case Broken(reason, chunk) =>
          outcome, faulty := Failed(reason), chunk;
        case Ended(pending) =>
          assert polls[..|polls|] == polls;
          outcome := Finish(pipeline, drain, pending);
      }
    }
    if Preserved(pipeline, Fed(polls[..turns]), faulty) {
      PreservedCopy(pipeline, Fed(polls[..turns]), faulty);
    }
  }

  lemma PreservedCopy(pipeline: CapturePipeline, taken: seq<byte>, chunk: seq<byte>)
    requires Preserved(pipeline, taken, chunk)
    ensures pipeline.devicePcap != null ==> pipeline.devicePcap.output <= CanonicalFile(taken + chunk)
  {
    hide HeaderOf, FileBytes, CanonicalFile, Retained;
    if pipeline.devicePcap != null {
      RetainedCopy(pipeline.bus, pipeline.device, taken, chunk, pipeline.devicePcap.header);
    }
  }
}
