/** From the completions of one mouse endpoint to reports
    (src/capture/MouseReportExtractor.cpp). */
module MouseReportExtractor {
  import opened Machine
  import opened Pcap
  import opened UsbPcapPacket
  import opened HidMouseDecoder
  import opened ReportCodec
  import Inspector

  const QUALITY_REGRESSED: uint32 := 1
  const QUALITY_DUPLICATE: uint32 := 2
  const MAX_TRANSFER_REPORTS := 65535

  datatype AnomalyCode =
    | FailedTransfer
    | EmptyCompletion
    | DecodeFailed
    | TimestampRegressed
    | DuplicateLike

  datatype Config = Config(bus: uint16, device: uint16, endpoint: byte, decoder: Decoder)

  /** The constructor's check. */
  predicate CertifiedEndpoint(c: Config) {
    c.bus != 0 && c.device != 0 && c.endpoint >= 0x80 && c.endpoint % 16 != 0
  }

  datatype Counters = Counters(
    endpointRecords: nat,
    requests: nat,
    completions: nat,
    decodedTransfers: nat,
    decodedReports: nat,
    failedTransfers: nat,
    emptyCompletions: nat,
    decodeFailures: nat,
    timestampRegressions: nat,
    duplicateLikeRecords: nat)

  const NO_COUNTS := Counters(0, 0, 0, 0, 0, 0, 0, 0, 0, 0)

  /** The completion before, to which the next is compared. */
  datatype Completion = Completion(irpId: uint64, timestamp: int64, payload: seq<byte>)

  datatype State = State(
    counters: Counters,
    nextSequence: uint64,
    maximumTimestamp: Option<int64>,
    last: Option<Completion>)

  const START := State(NO_COUNTS, 0, None, None)

  datatype Extraction = Extraction(reports: seq<Report>, anomalies: seq<AnomalyCode>)

  const NOTHING := Extraction([], [])

  predicate ForEndpoint(c: Config, packet: Packet) {
    packet.bus == c.bus && packet.device == c.device && packet.endpoint == c.endpoint && packet.transfer == INTERRUPT
  }

  // ---------------------------------------------------------------------
  // One record
  // ---------------------------------------------------------------------

  predicate Regressed(s: State, timestamp: int64) {
    s.maximumTimestamp.Some? && timestamp < s.maximumTimestamp.value
  }

  predicate Repeats(s: State, packet: Packet, timestamp: int64) {
    s.last == Some(Completion(packet.irpId, timestamp, packet.payload))
  }

  function Quality(s: State, packet: Packet, timestamp: int64): (flags: uint32)
    ensures flags <= 3
  {
    (if Regressed(s, timestamp) then QUALITY_REGRESSED else 0)
      + (if Repeats(s, packet, timestamp) then QUALITY_DUPLICATE else 0)
  }

  function Warnings(s: State, packet: Packet, timestamp: int64): seq<AnomalyCode> {
    (if Regressed(s, timestamp) then [TimestampRegressed] else [])
      + (if Repeats(s, packet, timestamp) then [DuplicateLike] else [])
  }

  /** The state once a completion has been counted, timed and remembered. */
  function Remembered(s: State, packet: Packet, timestamp: int64): State {
    var c := s.counters;
    s.(counters := c.(endpointRecords := c.endpointRecords + 1,
                      completions := c.completions + 1,
                      timestampRegressions := c.timestampRegressions + (if Regressed(s, timestamp) then 1 else 0),
                      duplicateLikeRecords := c.duplicateLikeRecords
                                              + (if Repeats(s, packet, timestamp) then 1 else 0)),
       maximumTimestamp := Some(if Regressed(s, timestamp) then s.maximumTimestamp.value else timestamp),
       last := Some(Completion(packet.irpId, timestamp, packet.payload)))
  }

  /** Report `index` of the `count` decoded from one transfer. */
  function ReportOf(record: Record, qpc: int64, packet: Packet, timestamp: int64, flags: uint32,
                    decoded: Decoded, sequence: uint64, index: uint16, count: uint16): Report
  {
    Report(sequence, record.sequence % TWO_64, index, count, timestamp, qpc, packet.irpId, packet.status,
           packet.urbFunction, packet.bus, packet.device, packet.endpoint, packet.transfer, packet.info,
           decoded.reportId, decoded.dx, decoded.dy, decoded.wheel, decoded.horizontalWheel, decoded.buttons,
           flags, decoded.payload)
  }

  function ReportsOf(record: Record, qpc: int64, packet: Packet, timestamp: int64, flags: uint32,
                     decoded: seq<Decoded>, sequence: uint64): (reports: seq<Report>)
    requires |decoded| <= MAX_TRANSFER_REPORTS
    ensures |reports| == |decoded|
  {
    seq(|decoded|, i requires 0 <= i < |decoded| =>
          ReportOf(record, qpc, packet, timestamp, flags, decoded[i], AddUInt64(sequence, i), i, |decoded|))
  }

  /** What a completion yields once it has been remembered: reports, or one anomaly. */
  function Interpret(c: Config, record: Record, qpc: int64, packet: Packet, timestamp: int64, flags: uint32,
                     warnings: seq<AnomalyCode>, s: State): (Extraction, State)
    requires ValidDecoder(c.decoder)
  {
    var k := s.counters;
    if packet.status != 0 then
      (Extraction([], warnings + [FailedTransfer]), s.(counters := k.(failedTransfers := k.failedTransfers + 1)))
    else if packet.payload == [] then
      (Extraction([], warnings + [EmptyCompletion]), s.(counters := k.(emptyCompletions := k.emptyCompletions + 1)))
    else
      var batch := DecodeBatch(c.decoder, packet.payload);
      if batch.Err? || |batch.value| > MAX_TRANSFER_REPORTS then
        (Extraction([], warnings + [DecodeFailed]), s.(counters := k.(decodeFailures := k.decodeFailures + 1)))
      else
        var count := |batch.value|;
        (Extraction(ReportsOf(record, qpc, packet, timestamp, flags, batch.value, s.nextSequence), warnings),
         s.(counters := k.(decodedTransfers := k.decodedTransfers + 1, decodedReports := k.decodedReports + count),
            nextSequence := AddUInt64(s.nextSequence, count)))
  }

  /** One call of Process: its answer and the state it leaves. */
  function Process(c: Config, s: State, record: Record, qpc: int64, packet: Packet)
    : (Result<Extraction, Fault>, State)
    requires ValidDecoder(c.decoder)
  {
    if !ForEndpoint(c, packet) then (Err(OutsideEndpoint), s)
    else if qpc <= 0 then (Err(NoObservation), s)
    else
      var k := s.counters;
      if !packet.IsCompletion() then
        (Ok(NOTHING), s.(counters := k.(endpointRecords := k.endpointRecords + 1, requests := k.requests + 1)))
      else
        match record.UnixNanoseconds()
        case Err(fault) =>
          (Err(fault), s.(counters := k.(endpointRecords := k.endpointRecords + 1, completions := k.completions + 1)))
        case Ok(timestamp) =>
          var result := Interpret(c, record, qpc, packet, timestamp, Quality(s, packet, timestamp),
                                  Warnings(s, packet, timestamp), Remembered(s, packet, timestamp));
          (Ok(result.0), result.1)
  }

  lemma AddNothing(a: uint64)
    ensures AddUInt64(a, 0) == a
  {
  }

  lemma AddOneMore(a: uint64, i: uint32)
    ensures AddUInt64(AddUInt64(a, i), 1) == AddUInt64(a, i + 1)
  {
  }

  // ---------------------------------------------------------------------
  // The class
  // ---------------------------------------------------------------------

  class Extractor {
    const config: Config
    var counters: Counters
    var logicalSequence: uint64
    var maximumTimestamp: Option<int64>
    var lastIrpId: Option<uint64>
    var lastTimestamp: Option<int64>
    var lastPayload: seq<byte>

    /** The last IRP and the last timestamp are known together. */
    ghost predicate Valid()
      reads `lastIrpId, `lastTimestamp
    {
      && ValidDecoder(config.decoder)
      && (lastIrpId.Some? <==> lastTimestamp.Some?)
    }

    ghost function Current(): State
      reads this
      requires Valid()
    {
      State(counters, logicalSequence, maximumTimestamp,
            if lastIrpId.Some? then Some(Completion(lastIrpId.value, lastTimestamp.value, lastPayload)) else None)
    }

    constructor (c: Config)
      requires ValidDecoder(c.decoder)
      ensures Valid() && config == c && Current() == START && counters == NO_COUNTS
    {
      config := c;
      counters, logicalSequence, maximumTimestamp := NO_COUNTS, 0, None;
      lastIrpId, lastTimestamp, lastPayload := None, None, [];
    }

    /** Count, time and remember a completion. */
    method Remember(packet: Packet, timestamp: int64) returns (flags: uint32, warnings: seq<AnomalyCode>)
      requires Valid()
      modifies this
      ensures Valid()
      ensures flags == Quality(old(Current()), packet, timestamp)
      ensures warnings == Warnings(old(Current()), packet, timestamp)
      ensures Current() == Remembered(old(Current()), packet, timestamp)
    {
      flags, warnings := 0, [];
      counters := counters.(endpointRecords := counters.endpointRecords + 1, completions := counters.completions + 1);
      if maximumTimestamp.Some? && timestamp < maximumTimestamp.value {
        flags := flags + QUALITY_REGRESSED;
        counters := counters.(timestampRegressions := counters.timestampRegressions + 1);
        warnings := warnings + [TimestampRegressed];
      }
      maximumTimestamp := Some(if maximumTimestamp.Some? && maximumTimestamp.value > timestamp
                               then maximumTimestamp.value else timestamp);
      if lastIrpId == Some(packet.irpId) && lastTimestamp == Some(timestamp) && lastPayload == packet.payload {
        flags := flags + QUALITY_DUPLICATE;
        counters := counters.(duplicateLikeRecords := counters.duplicateLikeRecords + 1);
        warnings := warnings + [DuplicateLike];
      }
      lastIrpId, lastTimestamp, lastPayload := Some(packet.irpId), Some(timestamp), packet.payload;
    }

    /** The loop over the decoded reports of one transfer. */
    method Emit(record: Record, qpc: int64, packet: Packet, timestamp: int64, flags: uint32, decoded: seq<Decoded>)
      returns (reports: seq<Report>)
      requires |decoded| <= MAX_TRANSFER_REPORTS
      modifies `logicalSequence, `counters
      ensures reports == ReportsOf(record, qpc, packet, timestamp, flags, decoded, old(logicalSequence))
      ensures logicalSequence == AddUInt64(old(logicalSequence), |decoded|)
      ensures counters == old(counters).(decodedReports := old(counters.decodedReports) + |decoded|)
    {
      hide ReportOf, AddUInt64;
      reports := [];
      AddNothing(logicalSequence);
      for i := 0 to |decoded|
        invariant |reports| == i
        invariant logicalSequence == AddUInt64(old(logicalSequence), i)
        invariant counters == old(counters).(decodedReports := old(counters.decodedReports) + i)
        invariant forall j :: 0 <= j < i ==>
                    reports[j] == ReportOf(record, qpc, packet, timestamp, flags, decoded[j],
                                           AddUInt64(old(logicalSequence), j), j, |decoded|)
      {
        reports := reports + [ReportOf(record, qpc, packet, timestamp, flags, decoded[i], logicalSequence, i,
                                       |decoded|)];
        AddOneMore(old(logicalSequence), i);
        logicalSequence := AddUInt64(logicalSequence, 1);
        counters := counters.(decodedReports := counters.decodedReports + 1);
      }
    }

    method ProcessRecord(record: Record, qpc: int64, packet: Packet) returns (result: Result<Extraction, Fault>)
      requires Valid()
      modifies this
      ensures Valid()
      ensures (result, Current()) == Process(config, old(Current()), record, qpc, packet)
    {
      hide DecodeBatch, ReportsOf, Quality, Warnings, Remembered;
      if !ForEndpoint(config, packet) {
        return Err(OutsideEndpoint);
      }
      if qpc <= 0 {
        return Err(NoObservation);
      }
      if !packet.IsCompletion() {
        counters := counters.(endpointRecords := counters.endpointRecords + 1, requests := counters.requests + 1);
        return Ok(NOTHING);
      }
      var stamped := record.UnixNanoseconds();
      if stamped.Err? {
        counters := counters.(endpointRecords := counters.endpointRecords + 1, completions := counters.completions + 1);
        return Err(stamped.error);
      }
      var flags, warnings := Remember(packet, stamped.value);
      if packet.status != 0 {
        counters := counters.(failedTransfers := counters.failedTransfers + 1);
        return Ok(Extraction([], warnings + [FailedTransfer]));
      }
      if packet.payload == [] {
        counters := counters.(emptyCompletions := counters.emptyCompletions + 1);
        return Ok(Extraction([], warnings + [EmptyCompletion]));
      }
      var batch := DecodeTransfer(config.decoder, packet.payload);
      if batch.Err? || |batch.value| > MAX_TRANSFER_REPORTS {
        counters := counters.(decodeFailures := counters.decodeFailures + 1);
        return Ok(Extraction([], warnings + [DecodeFailed]));
      }
      counters := counters.(decodedTransfers := counters.decodedTransfers + 1);
      var reports := Emit(record, qpc, packet, stamped.value, flags, batch.value);
      return Ok(Extraction(reports, warnings));
    }
  }

  // ---------------------------------------------------------------------
  // What every run keeps
  // ---------------------------------------------------------------------

  datatype Input = Input(record: Record, qpc: int64, packet: Packet)

  /** Every record's timestamp can be computed, as it can for all a parser delivers. */
  ghost predicate AllTimed(inputs: seq<Input>) {
    forall i :: 0 <= i < |inputs| ==> inputs[i].record.UnixNanoseconds().Ok?
  }

  function Run(c: Config, s: State, inputs: seq<Input>): (seq<Report>, State)
    requires ValidDecoder(c.decoder)
    decreases |inputs|
  {
    if inputs == [] then ([], s)
    else
      var first := Process(c, s, inputs[0].record, inputs[0].qpc, inputs[0].packet);
      var others := Run(c, first.1, inputs[1..]);
      ((if first.0.Ok? then first.0.value.reports else []) + others.0, others.1)
  }

  /** Each record is counted once as a request or a completion, each completion once by how
      it ended, and the report numbers are the reports counted. */
  ghost predicate Balanced(s: State) {
    var k := s.counters;
    && k.endpointRecords == k.requests + k.completions
    && k.completions == k.failedTransfers + k.emptyCompletions + k.decodedTransfers + k.decodeFailures
    && k.timestampRegressions <= k.completions && k.duplicateLikeRecords <= k.completions
    && k.decodedTransfers <= k.decodedReports
    && s.nextSequence == k.decodedReports % TWO_64
    && (s.last.Some? ==> s.maximumTimestamp.Some? && s.last.value.timestamp <= s.maximumTimestamp.value)
  }

  lemma SumWraps(a: nat, b: nat)
    requires b < TWO_64
    ensures AddUInt64(a % TWO_64, b) == (a + b) % TWO_64
  {
  }

  lemma BatchCounts(d: Decoder, payload: seq<byte>)
    requires ValidDecoder(d) && DecodeBatch(d, payload).Ok?
    ensures 0 < |DecodeBatch(d, payload).value| <= |payload|
    ensures PayloadsSized(DecodeBatch(d, payload).value)
  {
    hide DecodeOne, LayoutFor, PayloadsSized;
    BatchSplitsTransfer(d, payload, 0);
  }

  lemma ProcessKeepsBalance(c: Config, s: State, record: Record, qpc: int64, packet: Packet)
    requires ValidDecoder(c.decoder) && Balanced(s) && record.UnixNanoseconds().Ok?
    ensures Balanced(Process(c, s, record, qpc, packet).1)
    ensures var result := Process(c, s, record, qpc, packet);
            result.1.counters.decodedReports
              == s.counters.decodedReports + (if result.0.Ok? then |result.0.value.reports| else 0)
    ensures var result := Process(c, s, record, qpc, packet);
            result.0.Ok? ==> |result.0.value.reports| <= |packet.payload|
  {
    hide DecodeBatch, ReportOf;
    var batch := DecodeBatch(c.decoder, packet.payload);
    if batch.Ok? && |batch.value| <= MAX_TRANSFER_REPORTS {
      BatchCounts(c.decoder, packet.payload);
      SumWraps(s.counters.decodedReports, |batch.value|);
    } else if batch.Ok? {
      BatchCounts(c.decoder, packet.payload);
    }
  }

  lemma CountsOne(c: Config, s: State, record: Record, qpc: int64, packet: Packet)
    requires ValidDecoder(c.decoder)
    ensures var result := Process(c, s, record, qpc, packet);
            result.0.Ok? ==> result.1.counters.endpointRecords == s.counters.endpointRecords + 1
  {
    hide DecodeBatch, ReportsOf, Quality, Warnings;
  }

  lemma {:induction false} RunBalances(c: Config, s: State, inputs: seq<Input>)
    requires ValidDecoder(c.decoder) && Balanced(s) && AllTimed(inputs)
    ensures var run := Run(c, s, inputs);
            && Balanced(run.1)
            && run.1.counters.decodedReports == s.counters.decodedReports + |run.0|
    decreases |inputs|
  {
    hide Process, Balanced;
    if inputs != [] {
      ProcessKeepsBalance(c, s, inputs[0].record, inputs[0].qpc, inputs[0].packet);
      var first := Process(c, s, inputs[0].record, inputs[0].qpc, inputs[0].packet);
      forall i | 0 <= i < |inputs[1..]|
        ensures inputs[1..][i].record.UnixNanoseconds().Ok?
      {
        assert inputs[1..][i] == inputs[i + 1];
      }
      RunBalances(c, first.1, inputs[1..]);
    }
  }

  // ---------------------------------------------------------------------
  // The report stream takes everything that is emitted
  // ---------------------------------------------------------------------

  predicate Timed(timestamp: int64) {
    0 <= timestamp < 0x1_0000_0000 * BILLION
  }

  /** A stream whose last report is `previous` can take reports from here on: numbers,
      records and observations to come are not behind it. */
  predicate Follows(previous: Option<Previous>, nextSequence: uint64, pcapSequence: nat, qpc: int64) {
    previous.Some? ==>
      && previous.value.captureSequence < nextSequence
      && previous.value.pcapSequence <= pcapSequence
      && 0 < previous.value.observedQpc <= qpc
      && Timed(previous.value.captureUnixNs)
  }

  lemma ReportsOfAt(record: Record, qpc: int64, packet: Packet, timestamp: int64, flags: uint32,
                    decoded: seq<Decoded>, sequence: uint64, i: nat)
    requires |decoded| <= MAX_TRANSFER_REPORTS && i < |decoded|
    ensures ReportsOf(record, qpc, packet, timestamp, flags, decoded, sequence)[i]
         == ReportOf(record, qpc, packet, timestamp, flags, decoded[i], AddUInt64(sequence, i), i, |decoded|)
  {
  }

  predicate MatchesIdentity(c: Config, id: Identity) {
    id.bus == c.bus && id.device == c.device && id.endpoint == c.endpoint
  }

  /** What the stream needs to know of a transfer besides the reports in it. */
  ghost predicate TransferFits(id: Identity, record: Record, qpc: int64, packet: Packet, timestamp: int64,
                               flags: uint32) {
    && packet.bus == id.bus && packet.device == id.device && packet.endpoint == id.endpoint
    && id.endpoint >= 0x80 && packet.transfer == INTERRUPT && packet.info == 1 && packet.status == 0
    && qpc > 0 && Timed(timestamp) && flags <= 3 && record.sequence < TWO_64
  }

  lemma ReportFollowed(record: Record, qpc: int64, packet: Packet, timestamp: int64, flags: uint32,
                       decoded: Decoded, sequence: uint64, index: uint16, count: uint16, next: uint64)
    requires qpc > 0 && Timed(timestamp) && sequence < next && record.sequence < TWO_64
    ensures Follows(Some(Remember(ReportOf(record, qpc, packet, timestamp, flags, decoded, sequence, index, count))),
                    next, record.sequence, qpc)
  {
  }

  lemma ReportAccepted(id: Identity, previous: Option<Previous>, record: Record, qpc: int64, packet: Packet,
                       timestamp: int64, flags: uint32, decoded: Decoded, sequence: uint64, index: uint16,
                       count: uint16)
    requires TransferFits(id, record, qpc, packet, timestamp, flags)
    requires 0 < |decoded.payload| <= MAX_PAYLOAD && index < count
    requires Follows(previous, sequence, record.sequence, qpc)
    ensures var r := ReportOf(record, qpc, packet, timestamp, flags, decoded, sequence, index, count);
            Accepts(id, previous, r) && Inspector.Plain(r)
  {
  }

  lemma ReportAtAccepted(id: Identity, previous: Option<Previous>, record: Record, qpc: int64, packet: Packet,
                         timestamp: int64, flags: uint32, decoded: seq<Decoded>, sequence: uint64, i: nat)
    requires TransferFits(id, record, qpc, packet, timestamp, flags)
    requires i < |decoded| <= MAX_TRANSFER_REPORTS && PayloadsSized(decoded)
    requires sequence + |decoded| < TWO_64
    requires Follows(previous, sequence, record.sequence, qpc)
    ensures var reports := ReportsOf(record, qpc, packet, timestamp, flags, decoded, sequence);
            && Accepts(id, PreviousAt(previous, reports, i), reports[i])
            && Inspector.Plain(reports[i])
            && Follows(PreviousAt(previous, reports, i + 1), AddUInt64(sequence, i + 1), record.sequence, qpc)
  {
    hide ReportsOf, ReportOf, Accepts, Inspector.Plain, Follows, Timed;
    var count := |decoded|;
    ReportsOfAt(record, qpc, packet, timestamp, flags, decoded, sequence, i);
    ReportFollowed(record, qpc, packet, timestamp, flags, decoded[i], sequence + i, i, count, sequence + i + 1);
    if i > 0 {
      ReportsOfAt(record, qpc, packet, timestamp, flags, decoded, sequence, i - 1);
      ReportFollowed(record, qpc, packet, timestamp, flags, decoded[i - 1], sequence + i - 1, i - 1, count,
                     sequence + i);
    }
    ReportAccepted(id, PreviousAt(previous, ReportsOf(record, qpc, packet, timestamp, flags, decoded, sequence), i),
                   record, qpc, packet, timestamp, flags, decoded[i], sequence + i, i, count);
  }

  /** The reports of one transfer pass every check the stream makes of order, identity,
      position and payload, and every check its other reader makes. */
  lemma TransferAccepted(id: Identity, previous: Option<Previous>, record: Record, qpc: int64, packet: Packet,
                         timestamp: int64, flags: uint32, decoded: seq<Decoded>, sequence: uint64)
    requires TransferFits(id, record, qpc, packet, timestamp, flags)
    requires 0 < |decoded| <= MAX_TRANSFER_REPORTS && PayloadsSized(decoded)
    requires sequence + |decoded| < TWO_64
    requires Follows(previous, sequence, record.sequence, qpc)
    ensures var reports := ReportsOf(record, qpc, packet, timestamp, flags, decoded, sequence);
            && AcceptsRun(id, previous, reports)
            && Inspector.AllPlain(reports)
            && Follows(Last(previous, reports), AddUInt64(sequence, |decoded|), record.sequence, qpc)
  {
    hide ReportsOf, ReportOf, Accepts, Inspector.Plain, Follows, TransferFits, PayloadsSized, PreviousAt;
    var reports := ReportsOf(record, qpc, packet, timestamp, flags, decoded, sequence);
    forall i | 0 <= i < |decoded|
      ensures Accepts(id, PreviousAt(previous, reports, i), reports[i]) && Inspector.Plain(reports[i])
    {
      ReportAtAccepted(id, previous, record, qpc, packet, timestamp, flags, decoded, sequence, i);
    }
    ReportAtAccepted(id, previous, record, qpc, packet, timestamp, flags, decoded, sequence, |decoded| - 1);
  }

  /** One record of a certified endpoint: whatever the extractor emits for it, the stream
      writer accepts after what it has, and so does the inspector. */
  lemma EmittedAccepted(c: Config, s: State, record: Record, qpc: int64, packet: Packet, id: Identity,
                        previous: Option<Previous>)
    requires ValidDecoder(c.decoder) && CertifiedEndpoint(c) && MatchesIdentity(c, id)
    requires record.UnixNanoseconds().Ok? && packet.info <= 1 && qpc > 0
    requires record.sequence < TWO_64 && s.nextSequence + |packet.payload| < TWO_64
    requires Follows(previous, s.nextSequence, record.sequence, qpc)
    ensures var result := Process(c, s, record, qpc, packet);
            result.0.Ok? ==>
              var reports := result.0.value.reports;
              && AcceptsRun(id, previous, reports)
              && Inspector.AllPlain(reports)
              && Follows(Last(previous, reports), result.1.nextSequence, record.sequence, qpc)
              && s.nextSequence <= result.1.nextSequence <= s.nextSequence + |packet.payload|
  {
    hide DecodeBatch, ReportsOf, Remembered, AcceptsRun, Inspector.AllPlain, Last, PayloadsSized;
    NothingAccepted(id, previous);
    var result := Process(c, s, record, qpc, packet);
    if result.0.Ok? && result.0.value.reports != [] {
      var timestamp := record.UnixNanoseconds().value;
      TimestampRange(record);
      var batch := DecodeBatch(c.decoder, packet.payload);
      RememberedKeepsNumber(s, packet, timestamp);
      BatchCounts(c.decoder, packet.payload);
      TransferAccepted(id, previous, record, qpc, packet, timestamp, Quality(s, packet, timestamp), batch.value,
                       s.nextSequence);
    } else if result.0.Ok? && packet.IsCompletion() {
      RememberedKeepsNumber(s, packet, record.UnixNanoseconds().value);
      if DecodeBatch(c.decoder, packet.payload).Ok? {
        BatchCounts(c.decoder, packet.payload);
      }
    }
  }

  lemma RememberedKeepsNumber(s: State, packet: Packet, timestamp: int64)
    ensures Remembered(s, packet, timestamp).nextSequence == s.nextSequence
  {
  }

  lemma NothingAccepted(id: Identity, previous: Option<Previous>)
    ensures AcceptsRun(id, previous, []) && Inspector.AllPlain([]) && Last(previous, []) == previous
  {
  }
}
