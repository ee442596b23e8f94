/** The exact-address certification probe (src/acquisition/CertificationProbe.cpp): bounded
    evidence about the interrupt endpoints of one device, and counters that account for
    every record, completion and decoded report. */
module CertificationProbe {
  import opened Machine
  import opened Pcap
  import opened PcapParsing
  import opened UsbPcapPacket
  import opened HidMouseDecoder
  import CaptureSteps
  import MillisecondGrid

  datatype Options = Options(
    selectedBus: uint16,
    selectedDevice: uint16,
    maximumSamples: nat,
    maximumIntervals: nat,
    maximumReportsPerTransfer: nat,
    maximumPayload: nat,
    maximumChunk: nat,
    maximumSourceBytes: nat,
    maximumSourceRecords: nat)

  /** The limits that ValidateCertificationProbe allows. */
  predicate Supported(o: Options) {
    && 0 < o.selectedDevice <= 127
    && 0 < o.maximumSamples <= 2_000_000 && 0 < o.maximumIntervals <= 2_000_000
    && 0 < o.maximumReportsPerTransfer <= 65536
    && 0 < o.maximumPayload <= 0x10_0000 && 0 < o.maximumChunk <= 0x10_0000
    && 0 < o.maximumSourceBytes <= 0x1_0000_0000 && 0 < o.maximumSourceRecords <= 10_000_000
  }

  datatype Counters = Counters(
    endpointRecords: nat,
    requests: nat,
    completions: nat,
    successful: nat,
    payloadChanges: nat,
    decodedTransfers: nat,
    decodedReports: nat,
    failedTransfers: nat,
    emptyCompletions: nat,
    decodeFailures: nat,
    timestampRegressions: nat,
    duplicateLike: nat,
    nonpositiveIntervals: nat,
    samplesOmitted: nat,
    intervalsOmitted: nat)

  datatype Sample = Sample(relativeNs: int, dx: int32, dy: int32, leftDown: bool, leftUp: bool)

  datatype Totals = Totals(dx: int64, dy: int64, downEdges: nat, upEdges: nat, packets: nat, motion: nat)

  // ---------------------------------------------------------------------
  // What a record is to a route
  // ---------------------------------------------------------------------

  datatype Outcome = Request | FailedTransfer | EmptyCompletion | Undecodable | Reports(reports: seq<Decoded>)

  /** The smallest layout of a decoder; without one, or without layouts, there is none. */
  function MinimumBytes(layouts: seq<Layout>): Option<nat> {
    if layouts == [] then None
    else
      var k := |layouts| - 1;
      match MinimumBytes(layouts[..k])
      case None => Some(layouts[k].byteLength)
      case Some(least) => Some(if layouts[k].byteLength < least then layouts[k].byteLength else least)
  }

  function Decodable(decoder: Option<Decoder>, o: Options, packet: Packet): bool {
    && decoder.Some? && !packet.payloadTruncated && |packet.payload| <= o.maximumPayload
    && var least := MinimumBytes(decoder.value.layouts);
       least.Some? && least.value > 0 && |packet.payload| / least.value <= o.maximumReportsPerTransfer
  }

  function OutcomeOf(decoder: Option<Decoder>, o: Options, packet: Packet): Outcome
    requires decoder.Some? ==> ValidDecoder(decoder.value)
  {
    if !packet.IsCompletion() then Request
    else if packet.status != 0 then FailedTransfer
    else if packet.payload == [] then EmptyCompletion
    else if !Decodable(decoder, o, packet) then Undecodable
    else
      var batch := DecodeBatch(decoder.value, packet.payload);
      if batch.Err? || |batch.value| > o.maximumReportsPerTransfer then Undecodable else Reports(batch.value)
  }

  /** The counters that say what became of a record. */
  function Counted(k: Counters, outcome: Outcome, kept: nat): Counters
    requires outcome.Reports? ==> kept <= |outcome.reports|
  {
    var c := k.(endpointRecords := k.endpointRecords + 1);
    match outcome
    case Request => c.(requests := k.requests + 1)
    case FailedTransfer => c.(completions := k.completions + 1, failedTransfers := k.failedTransfers + 1)
    case EmptyCompletion => c.(completions := k.completions + 1, emptyCompletions := k.emptyCompletions + 1)
    case Undecodable =>
      c.(completions := k.completions + 1, successful := k.successful + 1, decodeFailures := k.decodeFailures + 1)
    case Reports(reports) =>
      c.(completions := k.completions + 1, successful := k.successful + 1,
         decodedTransfers := k.decodedTransfers + 1,
         decodedReports := k.decodedReports + |reports|,
         samplesOmitted := k.samplesOmitted + (|reports| - kept))
  }

  /** Equal in all the counters of which Counted speaks. */
  predicate SameAccount(a: Counters, b: Counters) {
    && a.endpointRecords == b.endpointRecords && a.requests == b.requests && a.completions == b.completions
    && a.successful == b.successful && a.failedTransfers == b.failedTransfers
    && a.emptyCompletions == b.emptyCompletions && a.decodeFailures == b.decodeFailures
    && a.decodedTransfers == b.decodedTransfers && a.decodedReports == b.decodedReports
    && a.samplesOmitted == b.samplesOmitted
  }

  /** Every record is a request or a completion, every completion failed, was empty or was
      successful, every successful one was decoded or was not, and every decoded report was
      kept or left out. */
  predicate Balanced(k: Counters, kept: nat) {
    && k.endpointRecords == k.requests + k.completions
    && k.completions == k.failedTransfers + k.emptyCompletions + k.successful
    && k.successful == k.decodedTransfers + k.decodeFailures
    && k.decodedReports == kept + k.samplesOmitted
  }

  lemma CountedBalances(k: Counters, outcome: Outcome, before: nat, kept: nat, after: Counters)
    requires Balanced(k, before) && (outcome.Reports? ==> kept <= |outcome.reports|)
    requires !outcome.Reports? ==> kept == 0
    requires SameAccount(after, Counted(k, outcome, kept))
    ensures Balanced(after, before + kept)
    ensures after.endpointRecords == k.endpointRecords + 1
  {
  }

  // ---------------------------------------------------------------------
  // Samples
  // ---------------------------------------------------------------------

  function Pressed(report: Decoded): bool {
    report.buttons % 2 == 1
  }

  function SampleOf(report: Decoded, timestamp: int64, origin: int64, pressed: bool): Sample {
    Sample(timestamp - origin, report.dx, report.dy, !pressed && Pressed(report), pressed && !Pressed(report))
  }

  /** The samples kept so far, the time of the first, and whether the button is held. */
  datatype Trace = Trace(samples: seq<Sample>, origin: Option<int64>, pressed: bool)

  const NO_TRACE := Trace([], None, false)

  function WithSample(t: Trace, report: Decoded, timestamp: int64): Trace {
    var origin := if t.origin.Some? then t.origin.value else timestamp;
    Trace(t.samples + [SampleOf(report, timestamp, origin, t.pressed)], Some(origin), Pressed(report))
  }

  function WithReports(t: Trace, reports: seq<Decoded>, timestamp: int64): (after: Trace)
    ensures |after.samples| == |t.samples| + |reports|
  {
    if reports == [] then t
    else WithSample(WithReports(t, reports[..|reports| - 1], timestamp), reports[|reports| - 1], timestamp)
  }

  function Magnitude(x: int32): nat {
    if x < 0 then 0 - x else x
  }

  function Added(f: (int, int, nat, nat, nat), s: Sample): (int, int, nat, nat, nat) {
    (f.0 + s.dx, f.1 + s.dy, f.2 + (if s.leftDown then 1 else 0), f.3 + (if s.leftUp then 1 else 0),
     f.4 + Magnitude(s.dx) + Magnitude(s.dy))
  }

  function Fold(samples: seq<Sample>): (int, int, nat, nat, nat) {
    if samples == [] then (0, 0, 0, 0, 0) else Added(Fold(samples[..|samples| - 1]), samples[|samples| - 1])
  }

  /** The totals are the fold of the samples that were kept. */
  predicate TotalsHold(samples: seq<Sample>, t: Totals) {
    t.packets == |samples| && (t.dx as int, t.dy as int, t.downEdges, t.upEdges, t.motion) == Fold(samples)
  }

  lemma {:induction false} FoldBound(samples: seq<Sample>)
    ensures -0x8000_0000 * |samples| <= Fold(samples).0 <= 0x7fff_ffff * |samples|
    ensures -0x8000_0000 * |samples| <= Fold(samples).1 <= 0x7fff_ffff * |samples|
    ensures Fold(samples).4 <= 0x1_0000_0000 * |samples|
  {
    if samples != [] {
      FoldBound(samples[..|samples| - 1]);
    }
  }

  lemma FoldGrows(samples: seq<Sample>, s: Sample)
    ensures Fold(samples + [s]) == Added(Fold(samples), s)
  {
    hide Added;
    var all := samples + [s];
    assert all[..|all| - 1] == samples && all[|all| - 1] == s;
  }

  const NO_COUNTS := Counters(0, 0, 0, 0, 0, 0, 0, 0, 0, 0, 0, 0, 0, 0, 0)
  const NO_TOTALS := Totals(0, 0, 0, 0, 0, 0)

  lemma NothingCounted()
    ensures Balanced(NO_COUNTS, 0) && TotalsHold([], NO_TOTALS)
  {
    hide Fold;
    NothingFolded();
  }

  lemma NothingFolded()
    ensures Fold([]) == (0, 0, 0, 0, 0)
  {
  }

  lemma LimitsPositive(o: Options)
    requires Supported(o)
    ensures 0 < o.maximumSamples && 0 < o.maximumIntervals
  {
  }

  /** The payload last kept for an endpoint; a missing one and an empty one are the same. */
  function LastPayload(payloads: map<byte, seq<byte>>, endpoint: byte): seq<byte> {
    if endpoint in payloads then payloads[endpoint] else []
  }

  // ---------------------------------------------------------------------
  // Observations
  // ---------------------------------------------------------------------

  datatype Completion = Completion(irpId: uint64, timestamp: int64, payload: seq<byte>)

  /** What a route notes of its completions besides their account: the five counters, the latest
      time, the last completion if its payload was not too long, the last payload of each
      endpoint, and the time between successful transfers. */
  datatype Notes = Notes(
    regressions: nat,
    duplicates: nat,
    changes: nat,
    nonpositive: nat,
    omitted: nat,
    latest: Option<int64>,
    last: Option<Completion>,
    payloads: map<byte, seq<byte>>,
    intervals: seq<int>,
    lastInterval: Option<int64>)

  const NO_NOTES := Notes(0, 0, 0, 0, 0, None, None, map[], [], None)

  function Bounded(o: Options, payload: seq<byte>): seq<byte> {
    if |payload| <= o.maximumPayload then payload else []
  }

  /** A completion is compared with the latest time and with the completion before it. */
  function Observed(n: Notes, o: Options, packet: Packet, timestamp: int64): Notes {
    var regressed := n.latest.Some? && timestamp < n.latest.value;
    var bounded := |packet.payload| <= o.maximumPayload;
    var completion := Completion(packet.irpId, timestamp, packet.payload);
    n.(regressions := n.regressions + (if regressed then 1 else 0),
       latest := Some(if regressed then n.latest.value else timestamp),
       duplicates := n.duplicates + (if bounded && n.last == Some(completion) then 1 else 0),
       last := if bounded then Some(completion) else None)
  }

  /** A successful transfer's payload is compared with the one before it at its endpoint. */
  function Compared(n: Notes, o: Options, packet: Packet): Notes {
    var before := LastPayload(n.payloads, packet.endpoint);
    n.(changes := n.changes + (if before != [] && before != packet.payload then 1 else 0),
       payloads := n.payloads[packet.endpoint := Bounded(o, packet.payload)])
  }

  /** The time since the last later transfer is kept if it is positive and there is room. */
  function Spaced(n: Notes, o: Options, timestamp: int64): Notes {
    if n.lastInterval.None? then n.(lastInterval := Some(timestamp))
    else if timestamp <= n.lastInterval.value then n.(nonpositive := n.nonpositive + 1)
    else if |n.intervals| < o.maximumIntervals then
      n.(intervals := n.intervals + [timestamp - n.lastInterval.value], lastInterval := Some(timestamp))
    else n.(omitted := n.omitted + 1, lastInterval := Some(timestamp))
  }

  predicate Successful(packet: Packet) {
    packet.IsCompletion() && packet.status == 0 && packet.payload != []
  }

  function Noted(n: Notes, o: Options, packet: Packet, timestamp: int64): Notes {
    if !packet.IsCompletion() then n
    else
      var observed := Observed(n, o, packet, timestamp);
      if !Successful(packet) then observed else Spaced(Compared(observed, o, packet), o, timestamp)
  }

  /** How many of an outcome's reports there is room for. */
  function Kept(o: Options, outcome: Outcome, samples: nat): (kept: nat)
    ensures outcome.Reports? ==> kept <= |outcome.reports|
  {
    if !outcome.Reports? || samples >= o.maximumSamples then 0
    else if |outcome.reports| <= o.maximumSamples - samples then |outcome.reports|
    else o.maximumSamples - samples
  }

  /** The reports of an outcome that become samples. */
  function Sampled(o: Options, outcome: Outcome, samples: nat): seq<Decoded> {
    if outcome.Reports? then outcome.reports[..Kept(o, outcome, samples)] else []
  }

  // ---------------------------------------------------------------------
  // One route
  // ---------------------------------------------------------------------

  class Route {
    const endpoint: byte
    const decoder: Option<Decoder>
    const options: Options
    var counters: Counters
    var samples: seq<Sample>
    var intervals: seq<int>
    var totals: Totals
    var maximumTimestamp: Option<int64>
    var lastInterval: Option<int64>
    var origin: Option<int64>
    var lastIrp: uint64
    var lastTimestamp: int64
    var lastPayload: seq<byte>
    var lastValid: bool
    var successfulByEndpoint: map<byte, seq<byte>>
    var leftPressed: bool

    ghost function Tracing(): Trace
      reads `samples, `origin, `leftPressed
    {
      Trace(samples, origin, leftPressed)
    }

    ghost function Noting(): Notes
      reads `counters, `maximumTimestamp, `lastIrp, `lastTimestamp, `lastPayload, `lastValid
      reads `successfulByEndpoint, `intervals, `lastInterval
    {
      Notes(counters.timestampRegressions, counters.duplicateLike, counters.payloadChanges,
            counters.nonpositiveIntervals, counters.intervalsOmitted, maximumTimestamp,
            if lastValid then Some(Completion(lastIrp, lastTimestamp, lastPayload)) else None,
            successfulByEndpoint, intervals, lastInterval)
    }

    ghost predicate Valid()
      reads `counters, `samples, `intervals, `totals, `leftPressed
    {
      && Supported(options)
      && (decoder.Some? ==> ValidDecoder(decoder.value))
      && Balanced(counters, |samples|)
      && TotalsHold(samples, totals)
      && totals.downEdges - totals.upEdges == (if leftPressed then 1 else 0)
      && |samples| <= options.maximumSamples && |intervals| <= options.maximumIntervals
    }

    constructor (endpoint: byte, decoder: Option<Decoder>, options: Options)
      requires Supported(options) && (decoder.Some? ==> ValidDecoder(decoder.value))
      ensures Valid() && this.endpoint == endpoint && this.decoder == decoder && this.options == options
      ensures samples == [] && counters == NO_COUNTS && Tracing() == NO_TRACE && Noting() == NO_NOTES
    {
      hide ValidDecoder, Supported, TotalsHold, Balanced;
      this.endpoint, this.decoder, this.options := endpoint, decoder, options;
      counters := NO_COUNTS;
      samples, intervals, totals := [], [], NO_TOTALS;
      maximumTimestamp, lastInterval, origin := None, None, None;
      lastIrp, lastTimestamp, lastPayload, lastValid := 0, 0, [], false;
      successfulByEndpoint, leftPressed := map[], false;
      NothingCounted();
      new;
      assert 0 < options.maximumSamples by { LimitsPositive(options); }
      assert 0 < options.maximumIntervals by { LimitsPositive(options); }
    }

    /** Timestamps and repetitions are noted; what became of the record is not. */
    method Observe(packet: Packet, timestamp: int64)
      modifies `counters, `maximumTimestamp, `lastIrp, `lastTimestamp, `lastValid, `lastPayload
      ensures SameAccount(counters, old(counters))
      ensures counters.timestampRegressions
           == old(counters).timestampRegressions
              + (if old(maximumTimestamp).Some? && timestamp < old(maximumTimestamp).value then 1 else 0)
      ensures maximumTimestamp.Some? && maximumTimestamp.value >= timestamp
      ensures old(maximumTimestamp).Some? ==> maximumTimestamp.value >= old(maximumTimestamp).value
      ensures maximumTimestamp == Some(timestamp) || maximumTimestamp == old(maximumTimestamp)
      ensures counters.duplicateLike
           == old(counters).duplicateLike
              + (if old(lastValid) && old(lastIrp) == packet.irpId && old(lastTimestamp) == timestamp
                    && |packet.payload| <= options.maximumPayload && old(lastPayload) == packet.payload then 1 else 0)
      ensures lastValid <==> |packet.payload| <= options.maximumPayload
      ensures lastValid ==> lastPayload == packet.payload
      ensures lastIrp == packet.irpId && lastTimestamp == timestamp
      ensures Noting() == Observed(old(Noting()), options, packet, timestamp)
    {
      if maximumTimestamp.Some? && timestamp < maximumTimestamp.value {
        counters := counters.(timestampRegressions := counters.timestampRegressions + 1);
      }
      maximumTimestamp := Some(if maximumTimestamp.Some? && maximumTimestamp.value > timestamp
                               then maximumTimestamp.value else timestamp);
      var bounded := |packet.payload| <= options.maximumPayload;
      if lastValid && lastIrp == packet.irpId && lastTimestamp == timestamp
         && bounded && lastPayload == packet.payload {
        counters := counters.(duplicateLike := counters.duplicateLike + 1);
      }
      lastIrp, lastTimestamp, lastValid := packet.irpId, timestamp, bounded;
      lastPayload := if bounded then packet.payload else [];
    }

    /** A payload is compared with the one before it at the same endpoint. */
    method NotePayload(packet: Packet)
      modifies `counters, `successfulByEndpoint
      ensures SameAccount(counters, old(counters))
      ensures var before := LastPayload(old(successfulByEndpoint), packet.endpoint);
              counters.payloadChanges
                == old(counters).payloadChanges + (if before != [] && before != packet.payload then 1 else 0)
      ensures LastPayload(successfulByEndpoint, packet.endpoint)
           == if |packet.payload| <= options.maximumPayload then packet.payload else []
      ensures forall e :: e != packet.endpoint ==>
                LastPayload(successfulByEndpoint, e) == LastPayload(old(successfulByEndpoint), e)
      ensures Noting() == Compared(old(Noting()), options, packet)
    {
      var before := LastPayload(successfulByEndpoint, packet.endpoint);
      if before != [] && before != packet.payload {
        counters := counters.(payloadChanges := counters.payloadChanges + 1);
      }
      var kept := if |packet.payload| <= options.maximumPayload then packet.payload else [];
      successfulByEndpoint := successfulByEndpoint[packet.endpoint := kept];
    }

    /** The time since the last transfer is kept, up to the limit, if it is positive. */
    method NoteInterval(timestamp: int64)
      requires |intervals| <= options.maximumIntervals
      modifies `counters, `intervals, `lastInterval
      ensures SameAccount(counters, old(counters))
      ensures |intervals| <= options.maximumIntervals
      ensures |intervals| + counters.intervalsOmitted + counters.nonpositiveIntervals
           == |old(intervals)| + old(counters).intervalsOmitted + old(counters).nonpositiveIntervals
              + (if old(lastInterval).Some? then 1 else 0)
      ensures intervals != old(intervals) ==>
                old(lastInterval).Some? && intervals == old(intervals) + [timestamp - old(lastInterval).value]
                && timestamp > old(lastInterval).value
      ensures Noting() == Spaced(old(Noting()), options, timestamp)
    {
      if lastInterval.None? {
        lastInterval := Some(timestamp);
      } else if timestamp > lastInterval.value {
        if |intervals| < options.maximumIntervals {
          intervals := intervals + [timestamp - lastInterval.value];
        } else {
          counters := counters.(intervalsOmitted := counters.intervalsOmitted + 1);
        }
        lastInterval := Some(timestamp);
      } else {
        counters := counters.(nonpositiveIntervals := counters.nonpositiveIntervals + 1);
      }
    }

    /** Keep one sample. The source's numeric bounds cannot be exceeded under the supported
        limits, so its failure for that is not modelled as reachable. */
    method KeepSample(report: Decoded, timestamp: int64)
      requires Supported(options) && |samples| < options.maximumSamples
      requires TotalsHold(samples, totals) && totals.downEdges - totals.upEdges == (if leftPressed then 1 else 0)
      modifies `samples, `totals, `leftPressed, `origin
      ensures TotalsHold(samples, totals) && totals.downEdges - totals.upEdges == (if leftPressed then 1 else 0)
      ensures origin == Some(if old(origin).Some? then old(origin).value else timestamp)
      ensures samples == old(samples) + [SampleOf(report, timestamp, origin.value, old(leftPressed))]
      ensures leftPressed == Pressed(report)
      ensures Tracing() == WithSample(old(Tracing()), report, timestamp)
    {
      hide Fold, MillisecondGrid.CheckedAdd;
      if origin.None? {
        origin := Some(timestamp);
      }
      var sample := SampleOf(report, timestamp, origin.value, leftPressed);
      FoldGrows(samples, sample);
      FoldBound(samples + [sample]);
      MillisecondGrid.CheckedAddExact(totals.dx, report.dx);
      MillisecondGrid.CheckedAddExact(totals.dy, report.dy);
      var dx := MillisecondGrid.CheckedAdd(totals.dx, report.dx);
      var dy := MillisecondGrid.CheckedAdd(totals.dy, report.dy);
      assert totals.motion + Magnitude(report.dx) + Magnitude(report.dy) <= MAX_UINT64;
      totals := Totals(dx.value, dy.value,
                       totals.downEdges + (if sample.leftDown then 1 else 0),
                       totals.upEdges + (if sample.leftUp then 1 else 0),
                       totals.packets + 1,
                       totals.motion + Magnitude(report.dx) + Magnitude(report.dy));
      samples := samples + [sample];
      leftPressed := Pressed(report);
    }

    /** The loop over the decoded reports: as many as there is room for become samples. */
    method KeepSamples(reports: seq<Decoded>, timestamp: int64) returns (kept: nat)
      requires Supported(options) && |samples| <= options.maximumSamples
      requires TotalsHold(samples, totals) && totals.downEdges - totals.upEdges == (if leftPressed then 1 else 0)
      modifies `samples, `totals, `leftPressed, `origin, `counters
      ensures TotalsHold(samples, totals) && totals.downEdges - totals.upEdges == (if leftPressed then 1 else 0)
      ensures kept == Kept(options, Reports(reports), |old(samples)|)
      ensures Tracing() == WithReports(old(Tracing()), reports[..kept], timestamp)
      ensures counters == old(counters).(samplesOmitted := old(counters).samplesOmitted + (|reports| - kept))
    {
      hide TotalsHold, WithSample, WithReports;
      kept := 0;
      NoReports(Tracing(), timestamp);
      for i := 0 to |reports|
        invariant TotalsHold(samples, totals) && totals.downEdges - totals.upEdges == (if leftPressed then 1 else 0)
        invariant kept == (if i <= options.maximumSamples - |old(samples)| then i
                           else options.maximumSamples - |old(samples)|)
        invariant |samples| == |old(samples)| + kept
        invariant Tracing() == WithReports(old(Tracing()), reports[..kept], timestamp)
        invariant counters == old(counters).(samplesOmitted := old(counters).samplesOmitted + (i - kept))
      {
        if |samples| >= options.maximumSamples {
          counters := counters.(samplesOmitted := counters.samplesOmitted + 1);
        } else {
          KeepSample(reports[i], timestamp);
          OneMoreReport(old(Tracing()), reports, i, timestamp);
          kept := kept + 1;
        }
      }
    }

    /** A successful transfer with data is counted and noted. */
    method NoteSuccess(packet: Packet, timestamp: int64)
      requires |intervals| <= options.maximumIntervals
      modifies `counters, `intervals, `lastInterval, `successfulByEndpoint
      ensures |intervals| <= options.maximumIntervals
      ensures SameAccount(counters, old(counters).(successful := old(counters).successful + 1))
      ensures Noting() == Spaced(Compared(old(Noting()), options, packet), options, timestamp)
    {
      hide LastPayload, Compared, Spaced;
      counters := counters.(successful := counters.successful + 1);
      NotePayload(packet);
      NoteInterval(timestamp);
    }

    /** What the data of a successful transfer comes to. */
    method DecodeSuccess(packet: Packet, timestamp: int64)
      requires Supported(options) && (decoder.Some? ==> ValidDecoder(decoder.value))
      requires Successful(packet)
      requires TotalsHold(samples, totals) && totals.downEdges - totals.upEdges == (if leftPressed then 1 else 0)
      requires |samples| <= options.maximumSamples
      modifies `counters, `samples, `totals, `leftPressed, `origin
      ensures TotalsHold(samples, totals) && totals.downEdges - totals.upEdges == (if leftPressed then 1 else 0)
      ensures var outcome := OutcomeOf(decoder, options, packet);
              && Tracing() == WithReports(old(Tracing()), Sampled(options, outcome, |old(samples)|), timestamp)
              && Settled(old(counters), counters, outcome, Kept(options, outcome, |old(samples)|))
      ensures Noting() == old(Noting())
    {
      hide TotalsHold, DecodeBatch, ValidDecoder, Decodable, Supported, WithReports, Kept;
      NoReports(Tracing(), timestamp);
      if !Decodable(decoder, options, packet) {
        counters := counters.(decodeFailures := counters.decodeFailures + 1);
        return;
      }
      HasDecoder(decoder, options, packet);
      var batch := DecodeTransfer(decoder.value, packet.payload);
      if batch.Err? || |batch.value| > options.maximumReportsPerTransfer {
        counters := counters.(decodeFailures := counters.decodeFailures + 1);
        return;
      }
      counters := counters.(decodedTransfers := counters.decodedTransfers + 1,
                            decodedReports := counters.decodedReports + |batch.value|);
      var kept := KeepSamples(batch.value, timestamp);
    }

    /** A successful transfer with data is counted, noted and decoded. */
    method Succeed(packet: Packet, timestamp: int64)
      requires Successful(packet)
      requires Supported(options) && (decoder.Some? ==> ValidDecoder(decoder.value))
      requires TotalsHold(samples, totals) && totals.downEdges - totals.upEdges == (if leftPressed then 1 else 0)
      requires |samples| <= options.maximumSamples && |intervals| <= options.maximumIntervals
      modifies this
      ensures TotalsHold(samples, totals) && totals.downEdges - totals.upEdges == (if leftPressed then 1 else 0)
      ensures |intervals| <= options.maximumIntervals
      ensures var outcome := OutcomeOf(decoder, options, packet);
              && Settled(old(counters).(successful := old(counters).successful + 1), counters, outcome,
                         Kept(options, outcome, |old(samples)|))
              && Tracing() == WithReports(old(Tracing()), Sampled(options, outcome, |old(samples)|), timestamp)
      ensures Noting() == Spaced(Compared(old(Noting()), options, packet), options, timestamp)
    {
      hide TotalsHold, OutcomeOf, ValidDecoder, Supported, WithReports, Kept, Sampled, Compared, Spaced;
      NoteSuccess(packet, timestamp);
      DecodeSuccess(packet, timestamp);
    }

    /** A completion is noted, and its data looked at. */
    method Complete(packet: Packet, timestamp: int64)
      requires packet.IsCompletion()
      requires Supported(options) && (decoder.Some? ==> ValidDecoder(decoder.value))
      requires TotalsHold(samples, totals) && totals.downEdges - totals.upEdges == (if leftPressed then 1 else 0)
      requires |samples| <= options.maximumSamples && |intervals| <= options.maximumIntervals
      modifies this
      ensures TotalsHold(samples, totals) && totals.downEdges - totals.upEdges == (if leftPressed then 1 else 0)
      ensures |intervals| <= options.maximumIntervals
      ensures var outcome := OutcomeOf(decoder, options, packet);
              && Closed(old(counters), counters, outcome, Kept(options, outcome, |old(samples)|))
              && Tracing() == WithReports(old(Tracing()), Sampled(options, outcome, |old(samples)|), timestamp)
      ensures Noting() == Noted(old(Noting()), options, packet, timestamp)
    {
      hide TotalsHold, DecodeBatch, ValidDecoder, Decodable, Supported, WithReports, Kept;
      hide Observed, Compared, Spaced, LastPayload;
      ghost var outcome := OutcomeOf(decoder, options, packet);
      KeptFits(options, outcome, |samples|);
      counters := counters.(completions := counters.completions + 1);
      NoReports(Tracing(), timestamp);
      Observe(packet, timestamp);
      if packet.status != 0 {
        counters := counters.(failedTransfers := counters.failedTransfers + 1);
      } else if packet.payload == [] {
        counters := counters.(emptyCompletions := counters.emptyCompletions + 1);
      } else {
        Succeed(packet, timestamp);
      }
    }

    /** One record of the route. */
    method Process(record: Record, packet: Packet)
      requires Valid() && record.UnixNanoseconds().Ok?
      modifies this
      ensures Valid()
      ensures counters.endpointRecords == old(counters).endpointRecords + 1
      ensures var outcome := OutcomeOf(decoder, options, packet);
              && SameAccount(counters, Counted(old(counters), outcome, Kept(options, outcome, |old(samples)|)))
              && Tracing() == WithReports(old(Tracing()), Sampled(options, outcome, |old(samples)|),
                                          record.UnixNanoseconds().value)
      ensures Noting() == Noted(old(Noting()), options, packet, record.UnixNanoseconds().value)
    {
      hide TotalsHold, Balanced, DecodeBatch, ValidDecoder, Decodable, Supported, WithReports, Kept;
      hide Counted, SameAccount, Closed, Noted, Sampled;
      ghost var before, start := counters, |samples|;
      ghost var outcome := OutcomeOf(decoder, options, packet);
      KeptFits(options, outcome, start);
      counters := counters.(endpointRecords := counters.endpointRecords + 1);
      if !packet.IsCompletion() {
        counters := counters.(requests := counters.requests + 1);
        RequestCounted(before, decoder, options, packet);
        NoReports(Tracing(), record.UnixNanoseconds().value);
        NothingNoted(Noting(), options, packet, record.UnixNanoseconds().value);
      } else {
        Complete(packet, record.UnixNanoseconds().value);
        RecordClosed(before, counters, outcome, Kept(options, outcome, start));
      }
      CountedBalances(before, outcome, start, Kept(options, outcome, start), counters);
    }
  }

  /** What is counted of a successful transfer when its data is looked at. */
  predicate Settled(before: Counters, after: Counters, outcome: Outcome, kept: nat)
    requires outcome.Reports? ==> kept <= |outcome.reports|
  {
    match outcome
    case Undecodable => SameAccount(after, before.(decodeFailures := before.decodeFailures + 1))
    case Reports(reports) =>
      SameAccount(after, before.(decodedTransfers := before.decodedTransfers + 1,
                                 decodedReports := before.decodedReports + |reports|,
                                 samplesOmitted := before.samplesOmitted + (|reports| - kept)))
    case _ => false
  }

  /** What is counted of a completion that was already counted as a record. */
  predicate Closed(before: Counters, after: Counters, outcome: Outcome, kept: nat)
    requires outcome.Reports? ==> kept <= |outcome.reports|
  {
    SameAccount(after, Counted(before, outcome, kept).(endpointRecords := before.endpointRecords))
  }

  lemma RecordClosed(before: Counters, after: Counters, outcome: Outcome, kept: nat)
    requires outcome.Reports? ==> kept <= |outcome.reports|
    requires Closed(before.(endpointRecords := before.endpointRecords + 1), after, outcome, kept)
    ensures SameAccount(after, Counted(before, outcome, kept))
  {
  }

  lemma RequestCounted(before: Counters, decoder: Option<Decoder>, o: Options, packet: Packet)
    requires decoder.Some? ==> ValidDecoder(decoder.value)
    requires !packet.IsCompletion()
    ensures OutcomeOf(decoder, o, packet) == Request
    ensures forall samples: nat :: Sampled(o, Request, samples) == []
    ensures forall kept: nat ::
              SameAccount(before.(endpointRecords := before.endpointRecords + 1, requests := before.requests + 1),
                          Counted(before, Request, kept))
  {
  }

  lemma NothingNoted(n: Notes, o: Options, packet: Packet, timestamp: int64)
    requires !packet.IsCompletion()
    ensures Noted(n, o, packet, timestamp) == n
  {
  }

  lemma KeptFits(o: Options, outcome: Outcome, samples: nat)
    requires samples <= o.maximumSamples
    ensures samples + Kept(o, outcome, samples) <= o.maximumSamples
    ensures !outcome.Reports? ==> Kept(o, outcome, samples) == 0
    ensures |Sampled(o, outcome, samples)| == Kept(o, outcome, samples)
  {
  }

  lemma NoReports(t: Trace, timestamp: int64)
    ensures WithReports(t, [], timestamp) == t
  {
  }

  lemma OneMoreReport(t: Trace, reports: seq<Decoded>, i: nat, timestamp: int64)
    requires i < |reports|
    ensures WithReports(t, reports[..i + 1], timestamp)
         == WithSample(WithReports(t, reports[..i], timestamp), reports[i], timestamp)
  {
    assert reports[..i + 1][..i] == reports[..i];
  }

  lemma HasDecoder(decoder: Option<Decoder>, o: Options, packet: Packet)
    ensures Decodable(decoder, o, packet) ==> decoder.Some?
  {
  }

  // ---------------------------------------------------------------------
  // What a route makes of a list of records
  // ---------------------------------------------------------------------

  /** Whether a route takes part in a record. */
  predicate Takes(endpoint: byte, packet: Packet) {
    packet.transfer == INTERRUPT && packet.endpoint >= 0x80 && (endpoint == 0 || endpoint == packet.endpoint)
  }

  predicate RouteTakes(endpoint: byte, r: Record) {
    match CaptureSteps.PacketOf(r)
    case Err(_) => false
    case Ok(packet) => Takes(endpoint, packet)
  }

  /** How many of the records a route takes. */
  function TakenBy(endpoint: byte, records: seq<Record>): nat {
    if records == [] then 0
    else
      var k := |records| - 1;
      TakenBy(endpoint, records[..k]) + (if RouteTakes(endpoint, records[k]) then 1 else 0)
  }

  function OutcomeOfRecord(decoder: Option<Decoder>, o: Options, r: Record): Outcome
    requires decoder.Some? ==> ValidDecoder(decoder.value)
    requires CaptureSteps.PacketOf(r).Ok?
  {
    OutcomeOf(decoder, o, CaptureSteps.PacketOf(r).value)
  }

  /** The account of the records that a route takes, and how many samples it keeps. */
  function Account(endpoint: byte, decoder: Option<Decoder>, o: Options, records: seq<Record>): (Counters, nat)
    requires decoder.Some? ==> ValidDecoder(decoder.value)
  {
    if records == [] then (NO_COUNTS, 0)
    else
      var k := |records| - 1;
      var a := Account(endpoint, decoder, o, records[..k]);
      if !RouteTakes(endpoint, records[k]) then a
      else
        var outcome := OutcomeOfRecord(decoder, o, records[k]);
        var kept := Kept(o, outcome, a.1);
        (Counted(a.0, outcome, kept), a.1 + kept)
  }

  /** Whatever the records are, the account balances and is of exactly the records taken. */
  lemma {:induction false} AccountBalances(
    endpoint: byte, decoder: Option<Decoder>, o: Options, records: seq<Record>)
    requires decoder.Some? ==> ValidDecoder(decoder.value)
    ensures var a := Account(endpoint, decoder, o, records);
            Balanced(a.0, a.1) && a.0.endpointRecords == TakenBy(endpoint, records) && a.1 <= o.maximumSamples
  {
    hide ValidDecoder, OutcomeOfRecord, Takes, CaptureSteps.PacketOf, Balanced, Counted;
    if records == [] {
      NothingCounted();
    } else {
      var before, r := records[..|records| - 1], records[|records| - 1];
      AccountBalances(endpoint, decoder, o, before);
      if RouteTakes(endpoint, r) {
        var a, outcome := Account(endpoint, decoder, o, before), OutcomeOfRecord(decoder, o, r);
        CountedBalances(a.0, outcome, a.1, Kept(o, outcome, a.1), Counted(a.0, outcome, Kept(o, outcome, a.1)));
      }
    }
  }

  lemma AccountGrows(endpoint: byte, decoder: Option<Decoder>, o: Options, records: seq<Record>, r: Record)
    requires decoder.Some? ==> ValidDecoder(decoder.value)
    ensures var a := Account(endpoint, decoder, o, records);
            Account(endpoint, decoder, o, records + [r])
              == if !RouteTakes(endpoint, r) then a
                 else
                   var outcome := OutcomeOfRecord(decoder, o, r);
                   (Counted(a.0, outcome, Kept(o, outcome, a.1)), a.1 + Kept(o, outcome, a.1))
  {
    hide ValidDecoder, OutcomeOfRecord, RouteTakes, Counted, Kept;
    assert (records + [r])[..|records|] == records;
  }

  /** Counting is the same on equal accounts. */
  lemma CountedAlike(a: Counters, b: Counters, outcome: Outcome, kept: nat, after: Counters)
    requires SameAccount(a, b) && (outcome.Reports? ==> kept <= |outcome.reports|)
    requires SameAccount(after, Counted(a, outcome, kept))
    ensures SameAccount(after, Counted(b, outcome, kept))
  {
  }

  /** A decoded report and the time of its transfer. */
  datatype Timed = Timed(report: Decoded, timestamp: int64)

  function TimedReports(reports: seq<Decoded>, timestamp: int64): (timed: seq<Timed>)
    ensures |timed| == |reports|
  {
    seq(|reports|, i requires 0 <= i < |reports| => Timed(reports[i], timestamp))
  }

  function TimeOf(r: Record): int64 {
    if r.UnixNanoseconds().Ok? then r.UnixNanoseconds().value else 0
  }

  /** All the reports decoded from the records that a route takes, in order. */
  function AllReports(endpoint: byte, decoder: Option<Decoder>, o: Options, records: seq<Record>): seq<Timed>
    requires decoder.Some? ==> ValidDecoder(decoder.value)
  {
    if records == [] then []
    else
      var k := |records| - 1;
      AllReports(endpoint, decoder, o, records[..k]) + ReportsIn(endpoint, decoder, o, records[k])
  }

  function ReportsIn(endpoint: byte, decoder: Option<Decoder>, o: Options, r: Record): seq<Timed>
    requires decoder.Some? ==> ValidDecoder(decoder.value)
  {
    if !RouteTakes(endpoint, r) then []
    else
      var outcome := OutcomeOfRecord(decoder, o, r);
      if outcome.Reports? then TimedReports(outcome.reports, TimeOf(r)) else []
  }

  function TraceOf(timed: seq<Timed>): (t: Trace)
    ensures |t.samples| == |timed|
  {
    if timed == [] then NO_TRACE
    else
      var k := |timed| - 1;
      WithSample(TraceOf(timed[..k]), timed[k].report, timed[k].timestamp)
  }

  /** A report's motion, its time relative to the first one, and the button's edge since the
      report before it. */
  function SampleAt(timed: seq<Timed>, k: nat): Sample
    requires k < |timed|
  {
    var pressed := k > 0 && Pressed(timed[k - 1].report);
    SampleOf(timed[k].report, timed[k].timestamp, timed[0].timestamp, pressed)
  }

  lemma SampleStays(timed: seq<Timed>, n: nat, k: nat)
    requires k < n <= |timed|
    ensures SampleAt(timed[..n], k) == SampleAt(timed, k)
  {
  }

  lemma {:induction false} TraceExact(timed: seq<Timed>)
    ensures var t := TraceOf(timed);
            && t.origin == (if timed == [] then None else Some(timed[0].timestamp))
            && t.pressed == (timed != [] && Pressed(timed[|timed| - 1].report))
            && forall k :: 0 <= k < |timed| ==> t.samples[k] == SampleAt(timed, k)
  {
    if timed != [] {
      var last := |timed| - 1;
      TraceExact(timed[..last]);
      forall k | 0 <= k < last
        ensures TraceOf(timed).samples[k] == SampleAt(timed, k)
      {
        SampleStays(timed, last, k);
      }
    }
  }

  function Front(timed: seq<Timed>, n: nat): (front: seq<Timed>)
    ensures |front| <= n
  {
    if |timed| <= n then timed else timed[..n]
  }

  lemma {:induction false} TraceJoins(timed: seq<Timed>, reports: seq<Decoded>, timestamp: int64)
    ensures TraceOf(timed + TimedReports(reports, timestamp)) == WithReports(TraceOf(timed), reports, timestamp)
  {
    hide WithSample;
    if reports == [] {
      assert timed + TimedReports(reports, timestamp) == timed;
    } else {
      var k := |reports| - 1;
      TraceJoins(timed, reports[..k], timestamp);
      var all := timed + TimedReports(reports, timestamp);
      assert all[..|all| - 1] == timed + TimedReports(reports[..k], timestamp);
    }
  }

  /** The notes of the records that a route takes. */
  function NotesOf(endpoint: byte, o: Options, records: seq<Record>): Notes {
    if records == [] then NO_NOTES
    else
      var k := |records| - 1;
      var before := NotesOf(endpoint, o, records[..k]);
      if RouteTakes(endpoint, records[k])
      then Noted(before, o, CaptureSteps.PacketOf(records[k]).value, TimeOf(records[k])) else before
  }

  lemma ReportsGrow(endpoint: byte, decoder: Option<Decoder>, o: Options, records: seq<Record>, r: Record)
    requires decoder.Some? ==> ValidDecoder(decoder.value)
    ensures AllReports(endpoint, decoder, o, records + [r])
         == AllReports(endpoint, decoder, o, records) + ReportsIn(endpoint, decoder, o, r)
    ensures NotesOf(endpoint, o, records + [r])
         == if RouteTakes(endpoint, r)
            then Noted(NotesOf(endpoint, o, records), o, CaptureSteps.PacketOf(r).value, TimeOf(r))
            else NotesOf(endpoint, o, records)
  {
    hide ValidDecoder, ReportsIn, RouteTakes, Noted;
    assert (records + [r])[..|records|] == records;
  }

  /** The reports that become samples are the first ones, as many as there is room for, and every
      report is counted. */
  lemma {:induction false} SamplesAreFirst(endpoint: byte, decoder: Option<Decoder>, o: Options, records: seq<Record>)
    requires decoder.Some? ==> ValidDecoder(decoder.value)
    ensures var a, all := Account(endpoint, decoder, o, records), AllReports(endpoint, decoder, o, records);
            a.1 == |Front(all, o.maximumSamples)| && a.0.decodedReports == |all|
  {
    hide ValidDecoder, OutcomeOfRecord, Takes, CaptureSteps.PacketOf;
    if records != [] {
      SamplesAreFirst(endpoint, decoder, o, records[..|records| - 1]);
    }
  }

  /** Every successful transfer but the first is a positive interval that was kept or left out,
      or a nonpositive one; and no more than the limit are kept. */
  lemma {:induction false} IntervalsCount(endpoint: byte, decoder: Option<Decoder>, o: Options, records: seq<Record>)
    requires decoder.Some? ==> ValidDecoder(decoder.value)
    ensures var k, n := Account(endpoint, decoder, o, records).0, NotesOf(endpoint, o, records);
            && |n.intervals| + n.omitted + n.nonpositive == (if k.successful == 0 then 0 else k.successful - 1)
            && (n.lastInterval.Some? <==> k.successful > 0)
            && |n.intervals| <= o.maximumIntervals
            && (forall i :: 0 <= i < |n.intervals| ==> n.intervals[i] > 0)
            && n.regressions <= k.completions && n.duplicates <= k.completions && n.changes <= k.successful
  {
    hide ValidDecoder, Takes, CaptureSteps.PacketOf, DecodeBatch, Decodable, LastPayload;
    if records != [] {
      var before, r := records[..|records| - 1], records[|records| - 1];
      IntervalsCount(endpoint, decoder, o, before);
      if RouteTakes(endpoint, r) {
        var packet := CaptureSteps.PacketOf(r).value;
        SuccessCounted(decoder, o, packet);
        NotedCounts(NotesOf(endpoint, o, before), o, packet, TimeOf(r));
      }
    }
  }

  lemma SuccessCounted(decoder: Option<Decoder>, o: Options, packet: Packet)
    requires decoder.Some? ==> ValidDecoder(decoder.value)
    ensures var outcome := OutcomeOf(decoder, o, packet);
            && (outcome.Request? <==> !packet.IsCompletion())
            && (outcome.Undecodable? || outcome.Reports? <==> Successful(packet))
  {
    hide ValidDecoder, DecodeBatch, Decodable;
  }

  lemma NotedCounts(n: Notes, o: Options, packet: Packet, timestamp: int64)
    requires |n.intervals| <= o.maximumIntervals
    ensures var m, successes := Noted(n, o, packet, timestamp), if Successful(packet) then 1 else 0;
            && |m.intervals| + m.omitted + m.nonpositive
               == |n.intervals| + n.omitted + n.nonpositive + (if n.lastInterval.Some? then successes else 0)
            && (m.lastInterval.Some? <==> n.lastInterval.Some? || Successful(packet))
            && |m.intervals| <= o.maximumIntervals
            && (forall i :: |n.intervals| <= i < |m.intervals| ==> m.intervals[i] > 0) && n.intervals <= m.intervals
            && m.regressions <= n.regressions + (if packet.IsCompletion() then 1 else 0)
            && m.duplicates <= n.duplicates + (if packet.IsCompletion() then 1 else 0)
            && m.changes <= n.changes + successes
  {
    hide LastPayload;
  }

  /** A sound route that has made of some records exactly what they come to: their account, the
      samples of the first reports in them, and the notes of their completions. */
  ghost predicate CountedFor(route: Route, records: seq<Record>)
    reads route
  {
    && route.Valid()
    && var a := Account(route.endpoint, route.decoder, route.options, records);
       var all := AllReports(route.endpoint, route.decoder, route.options, records);
       && SameAccount(route.counters, a.0) && |route.samples| == a.1
       && route.Tracing() == TraceOf(Front(all, route.options.maximumSamples))
       && route.Noting() == NotesOf(route.endpoint, route.options, records)
  }

  /** What that means for a reader: the samples are those of the first reports decoded from the
      records taken, as many as there is room for; every report is counted; and every successful
      transfer but the first is accounted for as an interval. */
  lemma RouteExact(route: Route, records: seq<Record>)
    requires CountedFor(route, records)
    ensures var all := AllReports(route.endpoint, route.decoder, route.options, records);
            && route.counters.endpointRecords == TakenBy(route.endpoint, records)
            && route.counters.decodedReports == |all|
            && |route.samples| == |Front(all, route.options.maximumSamples)|
            && forall k :: 0 <= k < |route.samples| ==> route.samples[k] == SampleAt(all, k)
    ensures var c := route.counters;
            && |route.intervals| + c.intervalsOmitted + c.nonpositiveIntervals
               == (if c.successful == 0 then 0 else c.successful - 1)
            && (forall k :: 0 <= k < |route.intervals| ==> route.intervals[k] > 0)
            && c.timestampRegressions <= c.completions && c.duplicateLike <= c.completions
            && c.payloadChanges <= c.successful
  {
    hide Account, AllReports, NotesOf, SampleAt, TraceOf, Balanced, TotalsHold, ValidDecoder, Supported, TakenBy;
    AccountBalances(route.endpoint, route.decoder, route.options, records);
    SamplesAreFirst(route.endpoint, route.decoder, route.options, records);
    IntervalsCount(route.endpoint, route.decoder, route.options, records);
    var all := AllReports(route.endpoint, route.decoder, route.options, records);
    var front := Front(all, route.options.maximumSamples);
    TraceExact(front);
    assert route.Tracing() == TraceOf(front) && route.Noting() == NotesOf(route.endpoint, route.options, records);
    forall k | 0 <= k < |front|
      ensures route.samples[k] == SampleAt(all, k)
    {
      assert route.samples[k] == SampleAt(front, k);
      SampleStays(all, |front|, k);
    }
  }

  /** The next record's reports join the first ones. */
  lemma TraceGrows(endpoint: byte, decoder: Option<Decoder>, o: Options, records: seq<Record>, r: Record)
    requires decoder.Some? ==> ValidDecoder(decoder.value)
    requires RouteTakes(endpoint, r)
    ensures var front := Front(AllReports(endpoint, decoder, o, records), o.maximumSamples);
            var sampled := Sampled(o, OutcomeOfRecord(decoder, o, r), |front|);
            WithReports(TraceOf(front), sampled, TimeOf(r))
              == TraceOf(Front(AllReports(endpoint, decoder, o, records + [r]), o.maximumSamples))
  {
    hide ValidDecoder, OutcomeOfRecord, Takes, CaptureSteps.PacketOf, AllReports, TraceOf, WithReports;
    ReportsGrow(endpoint, decoder, o, records, r);
    var all, outcome := AllReports(endpoint, decoder, o, records), OutcomeOfRecord(decoder, o, r);
    var front := Front(all, o.maximumSamples);
    var sampled := Sampled(o, outcome, |front|);
    TraceJoins(front, sampled, TimeOf(r));
    var longer := all + ReportsIn(endpoint, decoder, o, r);
    assert Front(longer, o.maximumSamples) == front + TimedReports(sampled, TimeOf(r));
  }

  /** Let a route have the record, if it takes it. */
  method Offer(route: Route, record: Record, packet: Packet, ghost records: seq<Record>) returns (taken: bool)
    requires CountedFor(route, records) && record.UnixNanoseconds().Ok? && CaptureSteps.PacketOf(record) == Ok(packet)
    modifies route
    ensures CountedFor(route, records + [record])
    ensures taken <==> RouteTakes(route.endpoint, record)
  {
    hide ValidDecoder, OutcomeOf, Counted, SameAccount, Account, UsbPcapPacket.Parse, Takes, Balanced, TotalsHold,
         Supported, AllReports, TraceOf, Front, WithReports, NotesOf, Noted, ReportsIn, Kept, Sampled, Route.Noting;
    AccountGrows(route.endpoint, route.decoder, route.options, records, record);
    ReportsGrow(route.endpoint, route.decoder, route.options, records, record);
    SamplesAreFirst(route.endpoint, route.decoder, route.options, records);
    taken := Takes(route.endpoint, packet);
    if taken {
      TraceGrows(route.endpoint, route.decoder, route.options, records, record);
      ghost var a := Account(route.endpoint, route.decoder, route.options, records);
      ghost var before, start := route.counters, |route.samples|;
      ghost var outcome := OutcomeOf(route.decoder, route.options, packet);
      KeptFits(route.options, outcome, start);
      route.Process(record, packet);
      CountedAlike(before, a.0, outcome, Kept(route.options, outcome, start), route.counters);
    } else {
      NothingIn(route.endpoint, route.decoder, route.options, record);
    }
  }

  lemma NothingIn(endpoint: byte, decoder: Option<Decoder>, o: Options, r: Record)
    requires decoder.Some? ==> ValidDecoder(decoder.value)
    ensures !RouteTakes(endpoint, r) ==> ReportsIn(endpoint, decoder, o, r) == []
    ensures forall timed: seq<Timed> :: timed + [] == timed
  {
    hide RouteTakes;
  }

  // ---------------------------------------------------------------------
  // The probe
  // ---------------------------------------------------------------------

  datatype Fatal = SourceBoundExceeded | BadFraming | WrongIdentity

  predicate Candidate(endpoints: seq<byte>, r: Record) {
    exists i :: 0 <= i < |endpoints| && RouteTakes(endpoints[i], r)
  }

  /** How many of the records any of the routes takes. */
  function Candidates(endpoints: seq<byte>, records: seq<Record>): nat {
    if records == [] then 0
    else
      var k := |records| - 1;
      Candidates(endpoints, records[..k]) + (if Candidate(endpoints, records[k]) then 1 else 0)
  }

  lemma CandidatesGrow(endpoints: seq<byte>, records: seq<Record>, r: Record)
    ensures Candidates(endpoints, records + [r])
         == Candidates(endpoints, records) + (if Candidate(endpoints, r) then 1 else 0)
  {
    hide Candidate;
    assert (records + [r])[..|records|] == records;
  }

  /** A packet from the selected device, on a bus that can be its. */
  predicate FromDevice(o: Options, r: Record) {
    match CaptureSteps.PacketOf(r)
    case Err(_) => false
    case Ok(packet) =>
      && packet.bus != 0 && packet.device == o.selectedDevice
      && (o.selectedBus != 0 ==> packet.bus == o.selectedBus)
  }

  predicate SameBus(a: Record, b: Record) {
    && CaptureSteps.PacketOf(a).Ok? && CaptureSteps.PacketOf(b).Ok?
    && CaptureSteps.PacketOf(a).value.bus == CaptureSteps.PacketOf(b).value.bus
  }

  /** All records are of one address: packets of the selected device, and from the first
      candidate on all of the same bus. Before it, when no bus was selected, the bus is not
      looked at. */
  ghost predicate OneAddress(o: Options, endpoints: seq<byte>, records: seq<Record>) {
    && (forall i :: 0 <= i < |records| ==> FromDevice(o, records[i]))
    && (forall i, j :: 0 <= i < j < |records| && Candidate(endpoints, records[i]) ==> SameBus(records[i], records[j]))
  }

  /** The bus observed is the selected one, or else that of some candidate. */
  ghost predicate BusIs(o: Options, endpoints: seq<byte>, records: seq<Record>, observed: Option<uint16>) {
    match observed
    case None => o.selectedBus == 0 && forall i :: 0 <= i < |records| ==> !Candidate(endpoints, records[i])
    case Some(bus) =>
      if o.selectedBus != 0 then bus == o.selectedBus
      else exists i :: 0 <= i < |records| && Candidate(endpoints, records[i]) && OnBus(records[i], bus)
  }

  predicate OnBus(r: Record, bus: uint16) {
    CaptureSteps.PacketOf(r).Ok? && CaptureSteps.PacketOf(r).value.bus == bus
  }

  predicate Identified(o: Options, observed: Option<uint16>, packet: Packet) {
    packet.bus != 0 && packet.device == o.selectedDevice && (observed.Some? ==> packet.bus == observed.value)
  }

  /** The check against the bus observed so far decides whether all records are of one address. */
  lemma AddressStep(o: Options, endpoints: seq<byte>, records: seq<Record>, observed: Option<uint16>, r: Record)
    requires OneAddress(o, endpoints, records) && BusIs(o, endpoints, records, observed)
    ensures var packet := CaptureSteps.PacketOf(r);
            OneAddress(o, endpoints, records + [r]) <==> packet.Ok? && Identified(o, observed, packet.value)
  {
    hide UsbPcapPacket.Parse, Candidate;
    var all, packet := records + [r], CaptureSteps.PacketOf(r);
    assert all[|records|] == r;
    if packet.Ok? && Identified(o, observed, packet.value) {
      forall i, j | 0 <= i < j < |all| && Candidate(endpoints, all[i])
        ensures SameBus(all[i], all[j])
      {
        assert all[i] == records[i] && FromDevice(o, records[i]);
        if j < |records| {
          assert all[j] == records[j];
        } else {
          CandidatesAgree(o, endpoints, records, observed, i);
        }
      }
    }
    if OneAddress(o, endpoints, all) {
      assert FromDevice(o, all[|records|]);
      if observed.Some? && o.selectedBus == 0 {
        var i :| 0 <= i < |records| && Candidate(endpoints, records[i]) && OnBus(records[i], observed.value);
        assert all[i] == records[i] && SameBus(all[i], all[|records|]);
      }
    }
  }

  /** Any candidate so far is on the bus observed. */
  lemma CandidatesAgree(o: Options, endpoints: seq<byte>, records: seq<Record>, observed: Option<uint16>, i: nat)
    requires OneAddress(o, endpoints, records) && BusIs(o, endpoints, records, observed)
    requires i < |records| && Candidate(endpoints, records[i])
    ensures observed.Some? && OnBus(records[i], observed.value)
  {
    hide UsbPcapPacket.Parse, Candidate;
    assert FromDevice(o, records[i]);
    if observed.Some? && o.selectedBus == 0 {
      var k :| 0 <= k < |records| && Candidate(endpoints, records[k]) && OnBus(records[k], observed.value);
      if k < i {
        assert SameBus(records[k], records[i]);
      } else if i < k {
        assert SameBus(records[i], records[k]);
      }
    }
  }

  lemma BusStep(o: Options, endpoints: seq<byte>, records: seq<Record>, observed: Option<uint16>, r: Record)
    requires BusIs(o, endpoints, records, observed) && CaptureSteps.PacketOf(r).Ok?
    ensures var bus := CaptureSteps.PacketOf(r).value.bus;
            BusIs(o, endpoints, records + [r],
                  if Candidate(endpoints, r) && observed.None? then Some(bus) else observed)
  {
    hide UsbPcapPacket.Parse, Candidate;
    var all := records + [r];
    assert all[|records|] == r;
    if observed.Some? && o.selectedBus == 0 {
      var i :| 0 <= i < |records| && Candidate(endpoints, records[i]) && OnBus(records[i], observed.value);
      assert all[i] == records[i];
    }
  }

  lemma AddressOfPrefix(o: Options, endpoints: seq<byte>, a: seq<Record>, b: seq<Record>)
    requires a <= b && OneAddress(o, endpoints, b)
    ensures OneAddress(o, endpoints, a)
  {
    hide FromDevice, SameBus, Candidate;
    assert forall i :: 0 <= i < |a| ==> a[i] == b[i];
  }

  /** The source so far breaks no bound, parses, and is of one address. */
  ghost predicate Fine(o: Options, endpoints: seq<byte>, source: seq<byte>) {
    && |source| <= o.maximumSourceBytes
    && var taken := Take(More(PcapParsing.START, source));
       taken.Ok? && |taken.value.0| <= o.maximumSourceRecords && OneAddress(o, endpoints, taken.value.0)
  }

  lemma FineOfPrefix(o: Options, endpoints: seq<byte>, source: seq<byte>, others: seq<byte>)
    requires Fine(o, endpoints, source + others)
    ensures Fine(o, endpoints, source)
  {
    hide Take, OneAddress;
    if Take(More(PcapParsing.START, source)).Err? {
      CaptureSteps.FaultIsFinal(source, others);
    } else {
      var taken := Take(More(PcapParsing.START, source)).value;
      var all := Take(More(PcapParsing.START, source + others)).value;
      assert CaptureSteps.Reached(source, taken.0, taken.1);
      CaptureSteps.DeliveredStays(source, taken.0, taken.1, others);
      AddressOfPrefix(o, endpoints, taken.0, all.0);
    }
  }

  /** The record after those before it is the first to be refused, and for this reason. */
  ghost predicate RefusedAt(o: Options, endpoints: seq<byte>, before: seq<Record>, r: Record, failure: Fatal) {
    && |before| <= o.maximumSourceRecords && OneAddress(o, endpoints, before)
    && match failure
       case SourceBoundExceeded => |before| == o.maximumSourceRecords
       case BadFraming => |before| < o.maximumSourceRecords && CaptureSteps.PacketOf(r).Err?
       case WrongIdentity =>
         && |before| < o.maximumSourceRecords && CaptureSteps.PacketOf(r).Ok?
         && !OneAddress(o, endpoints, before + [r])
  }

  ghost predicate FirstRefused(o: Options, endpoints: seq<byte>, records: seq<Record>, failure: Fatal) {
    exists i :: 0 <= i < |records| && RefusedAt(o, endpoints, records[..i], records[i], failure)
  }

  /** Why a chunk is refused: for its length or that of the source, else for its framing, else
      for the first record that is. */
  ghost predicate Objection(o: Options, endpoints: seq<byte>, source: seq<byte>, chunk: seq<byte>, failure: Fatal) {
    if |chunk| > o.maximumChunk || |source| + |chunk| > o.maximumSourceBytes then failure == SourceBoundExceeded
    else
      var taken := Take(More(PcapParsing.START, source + chunk));
      if taken.Err? then failure == BadFraming else FirstRefused(o, endpoints, taken.value.0, failure)
  }

  /** Chunk k is the first to be refused. */
  ghost predicate StoppedAt(o: Options, endpoints: seq<byte>, chunks: seq<seq<byte>>, k: nat, failure: Fatal) {
    && k < |chunks| && Fine(o, endpoints, Concat(chunks[..k]))
    && Objection(o, endpoints, Concat(chunks[..k]), chunks[k], failure)
  }

  class Probe {
    const options: Options
    const parser: StreamingPcapParser
    const routes: seq<Route>
    var sourceBytes: nat
    var sourceRecords: nat
    var candidateRecords: nat
    var ignoredRecords: nat
    var observedBus: Option<uint16>

    /** The bytes parsed and the records processed. */
    ghost var source: seq<byte>
    ghost var seen: seq<Record>

    ghost function Endpoints(): seq<byte> {
      seq(|routes|, i requires 0 <= i < |routes| => routes[i].endpoint)
    }

    ghost predicate RoutesHold(records: seq<Record>)
      reads routes
    {
      forall i :: 0 <= i < |routes| ==> CountedFor(routes[i], records) && routes[i].options == options
    }

    ghost predicate Distinct() {
      forall i, j :: 0 <= i < j < |routes| ==> routes[i] != routes[j]
    }

    /** Every record processed was a candidate or was ignored, and all are of one address. */
    ghost predicate Valid()
      reads this, routes
    {
      && Supported(options) && Distinct()
      && sourceRecords == |seen| == candidateRecords + ignoredRecords
      && candidateRecords == Candidates(Endpoints(), seen)
      && sourceRecords <= options.maximumSourceRecords
      && OneAddress(options, Endpoints(), seen)
      && BusIs(options, Endpoints(), seen, observedBus)
      && RoutesHold(seen)
    }

    /** All that was parsed has been processed. */
    ghost predicate AtRest()
      reads this, parser
    {
      && sourceBytes == |source|
      && Fine(options, Endpoints(), source)
      && parser.Valid()
      && CaptureSteps.Reached(source, seen, parser.State())
    }

    constructor (options: Options, routes: seq<Route>)
      requires Supported(options)
      requires forall i, j :: 0 <= i < j < |routes| ==> routes[i] != routes[j]
      requires forall i :: 0 <= i < |routes| ==>
                 && routes[i].Valid() && routes[i].options == options
                 && routes[i].counters == NO_COUNTS && routes[i].Tracing() == NO_TRACE && routes[i].Noting() == NO_NOTES
      ensures Valid() && AtRest() && this.options == options && this.routes == routes && seen == [] && source == []
      ensures fresh(parser)
    {
      hide Supported, Route.Valid, SameAccount, Take;
      this.options, this.routes := options, routes;
      parser := new StreamingPcapParser();
      sourceBytes, sourceRecords, candidateRecords, ignoredRecords := 0, 0, 0, 0;
      observedBus := if options.selectedBus != 0 then Some(options.selectedBus) else None;
      source, seen := [], [];
      CaptureSteps.ReachedAtStart();
      new;
      SourceLimits(options);
      forall i | 0 <= i < |routes|
        ensures CountedFor(routes[i], [])
      {
        NothingTaken(routes[i]);
      }
    }

    /** The routes that take the record process it. */
    method ProcessRoutes(record: Record, packet: Packet) returns (candidate: bool)
      requires RoutesHold(seen) && record.UnixNanoseconds().Ok? && CaptureSteps.PacketOf(record) == Ok(packet)
      requires Distinct()
      modifies routes
      ensures candidate <==> Candidate(Endpoints(), record)
      ensures RoutesHold(seen + [record])
    {
      hide CountedFor, RouteTakes, UsbPcapPacket.Parse;
      candidate := false;
      for i := 0 to |routes|
        invariant forall k :: i <= k < |routes| ==> CountedFor(routes[k], seen)
        invariant forall k :: 0 <= k < i ==> CountedFor(routes[k], seen + [record])
        invariant candidate <==> exists k :: 0 <= k < i && RouteTakes(routes[k].endpoint, record)
      {
        var taken := Offer(routes[i], record, packet, seen);
        candidate := candidate || taken;
      }
      assert forall k :: 0 <= k < |routes| ==> Endpoints()[k] == routes[k].endpoint;
    }

    /** One record. It is refused if and only if it is one too many, or is not of the one
        address; and only a refused record leaves the probe in a state that is not a sound
        account of what it was given. */
    method ProcessRecord(record: Record) returns (failure: Option<Fatal>)
      requires Valid() && record.UnixNanoseconds().Ok?
      modifies `sourceRecords, `candidateRecords, `ignoredRecords, `observedBus, `seen, routes
      ensures failure.None? ==> Valid() && seen == old(seen) + [record]
      ensures failure.None? <==>
                |old(seen)| < options.maximumSourceRecords && OneAddress(options, Endpoints(), old(seen) + [record])
      ensures failure == Some(SourceBoundExceeded) <==> |old(seen)| == options.maximumSourceRecords
      ensures failure == Some(BadFraming) <==>
                |old(seen)| != options.maximumSourceRecords && CaptureSteps.PacketOf(record).Err?
      ensures failure.Some? ==> RefusedAt(options, Endpoints(), old(seen), record, failure.value)
    {
      hide Supported, UsbPcapPacket.Parse, Candidates, Candidate, CountedFor, OneAddress, BusIs;
      if sourceRecords == options.maximumSourceRecords {
        return Some(SourceBoundExceeded);
      }
      sourceRecords := sourceRecords + 1;
      AddressStep(options, Endpoints(), seen, observedBus, record);
      var parsed := UsbPcapPacket.Parse(record.data, Some(record.originalLength));
      if parsed.Err? {
        return Some(BadFraming);
      }
      var packet := parsed.value;
      if packet.bus == 0 || packet.device != options.selectedDevice
         || (observedBus.Some? && packet.bus != observedBus.value) {
        return Some(WrongIdentity);
      }
      CandidatesGrow(Endpoints(), seen, record);
      BusStep(options, Endpoints(), seen, observedBus, record);
      var candidate := ProcessRoutes(record, packet);
      if candidate {
        observedBus := if observedBus.None? then Some(packet.bus) else observedBus;
        candidateRecords := candidateRecords + 1;
      } else {
        ignoredRecords := ignoredRecords + 1;
      }
      seen := seen + [record];
      return None;
    }

    /** The records of one chunk. */
    method ProcessRecords(records: seq<Record>) returns (failure: Option<Fatal>)
      requires Valid() && forall i :: 0 <= i < |records| ==> records[i].UnixNanoseconds().Ok?
      modifies `sourceRecords, `candidateRecords, `ignoredRecords, `observedBus, `seen, routes
      ensures failure.None? ==> Valid() && seen == old(seen) + records
      ensures failure.None? <==>
                && |old(seen)| + |records| <= options.maximumSourceRecords
                && OneAddress(options, Endpoints(), old(seen) + records)
      ensures failure.Some? ==> FirstRefused(options, Endpoints(), old(seen) + records, failure.value)
    {
      hide Supported, Candidates, Candidate, OneAddress, BusIs, RoutesHold, Record.UnixNanoseconds,
           CaptureSteps.PacketOf;
      assert old(seen) + records[..0] == old(seen);
      for i := 0 to |records|
        invariant Valid() && seen == old(seen) + records[..i]
      {
        ghost var next := seen + [records[i]];
        assert next == old(seen) + records[..i + 1] && next <= old(seen) + records;
        assert (old(seen) + records)[..|old(seen)| + i] == seen;
        failure := ProcessRecord(records[i]);
        if failure.Some? {
          RefusedIsFirst(options, Endpoints(), old(seen) + records, |old(seen)| + i, failure.value);
          if OneAddress(options, Endpoints(), old(seen) + records) {
            AddressOfPrefix(options, Endpoints(), next, old(seen) + records);
          }
          return;
        }
      }
      assert records[..|records|] == records;
      return None;
    }

    /** A chunk is taken if and only if it is not too long and all of the source so far, this
        chunk included, is fine. */
    method ProcessChunk(chunk: seq<byte>) returns (failure: Option<Fatal>)
      requires Valid() && AtRest()
      modifies this, parser, routes
      ensures failure.None? ==> Valid() && AtRest() && source == old(source) + chunk
      ensures failure.None? <==>
                |chunk| <= options.maximumChunk && Fine(options, Endpoints(), old(source) + chunk)
      ensures failure.Some? ==> Objection(options, Endpoints(), old(source), chunk, failure.value)
    {
      hide Supported, Take, Candidates, Candidate, OneAddress, BusIs, RoutesHold, Record.UnixNanoseconds,
           CaptureSteps.Reached, StreamingPcapParser.State, StreamingPcapParser.Valid, AppendChunk, Distinct;
      if |chunk| > options.maximumChunk {
        return Some(SourceBoundExceeded);
      }
      if sourceBytes + |chunk| > options.maximumSourceBytes {
        return Some(SourceBoundExceeded);
      }
      sourceBytes := sourceBytes + |chunk|;
      ChunkIsTaken(options, source, seen, parser.State(), chunk);
      var appended := parser.Append(chunk);
      var taken := parser.TakeRecords();
      if appended.Err? || taken.Err? {
        return Some(BadFraming);
      }
      source := source + chunk;
      failure := ProcessRecords(taken.value);
    }

    method Finalize() returns (failure: Option<Fatal>)
      requires AtRest()
      ensures failure == (if ReadPcap(source).Ok? then None else Some(BadFraming))
      ensures failure.None? ==> ReadPcap(source).value.1 == seen
    {
      hide Take, ReadPcap, Fine, StreamingPcapParser.Valid, StreamingPcapParser.State;
      OneShotAgrees(source);
      var finished := parser.Finalize();
      return if finished.Err? then Some(BadFraming) else None;
    }
  }

  lemma RefusedIsFirst(o: Options, endpoints: seq<byte>, records: seq<Record>, i: nat, failure: Fatal)
    requires i < |records| && RefusedAt(o, endpoints, records[..i], records[i], failure)
    ensures FirstRefused(o, endpoints, records, failure)
  {
  }

  lemma {:induction false} ConcatOneMore(chunks: seq<seq<byte>>, i: nat)
    requires i < |chunks|
    ensures Concat(chunks[..i + 1]) == Concat(chunks[..i]) + chunks[i]
  {
    if i == 0 {
      assert chunks[..1] == [chunks[0]] && chunks[..1][1..] == [];
    } else {
      assert chunks[..i + 1][1..] == chunks[1..][..i] && chunks[..i][1..] == chunks[1..][..i - 1];
      ConcatOneMore(chunks[1..], i - 1);
    }
  }

  lemma NothingTaken(route: Route)
    requires route.Valid() && route.counters == NO_COUNTS && route.Tracing() == NO_TRACE && route.Noting() == NO_NOTES
    ensures CountedFor(route, [])
  {
    hide Balanced, TotalsHold, ValidDecoder, Supported;
  }

  /** The parser never refuses a chunk for its length; it delivers the records of the longer
      source, or finds the fault in it. */
  lemma ChunkIsTaken(o: Options, source: seq<byte>, seen: seq<Record>, s: ParserState, chunk: seq<byte>)
    requires CaptureSteps.Reached(source, seen, s) && Supported(o) && |chunk| <= o.maximumChunk
    ensures AppendChunk(s, chunk) == Ok(More(s, chunk))
    ensures Take(More(s, chunk)).Err? ==> Take(More(PcapParsing.START, source + chunk)).Err?
    ensures Take(More(s, chunk)).Ok? ==>
              var taken := Take(More(s, chunk)).value;
              && Take(More(PcapParsing.START, source + chunk)) == Ok((seen + taken.0, taken.1))
              && CaptureSteps.Reached(source + chunk, seen + taken.0, taken.1)
              && forall i :: 0 <= i < |taken.0| ==> taken.0[i].UnixNanoseconds().Ok?
  {
    hide Take;
    assert s.unparsed + [] == s.unparsed;
    CaptureSteps.ReachedIdle(source, seen, s);
    ResidueBound(s);
    CaptureSteps.ReachedStep(source, seen, s, chunk);
    if Take(More(s, chunk)).Ok? {
      var taken := Take(More(s, chunk)).value;
      RecordsHaveTimes(source + chunk, seen + taken.0, taken.1);
      forall i | 0 <= i < |taken.0|
        ensures taken.0[i].UnixNanoseconds().Ok?
      {
        assert (seen + taken.0)[|seen| + i] == taken.0[i];
      }
    }
  }

  lemma RecordsHaveTimes(source: seq<byte>, seen: seq<Record>, s: ParserState)
    requires CaptureSteps.Reached(source, seen, s)
    ensures forall i :: 0 <= i < |seen| ==> seen[i].UnixNanoseconds().Ok?
  {
    hide CaptureSteps.Reached, Record.UnixNanoseconds;
    CaptureSteps.ReachedRecords(source, seen, s);
  }

  lemma SourceLimits(o: Options)
    requires Supported(o)
    ensures o.maximumSourceBytes > 0 && o.maximumSourceRecords > 0
  {
  }

  /** A whole run of the probe over a source that comes in chunks. It succeeds if and only if
      no chunk is too long and the source is within its bounds, a whole PCAP file, and of one
      address; and then every route has made of the file's records exactly what they come to:
      all its counters, samples and intervals, however the file was cut. A failure has the
      reason of the first chunk refused, or else of a file that is not whole. */
  method Examine(options: Options, routes: seq<Route>, chunks: seq<seq<byte>>)
    returns (failure: Option<Fatal>, probe: Probe)
    requires Supported(options)
    requires forall i, j :: 0 <= i < j < |routes| ==> routes[i] != routes[j]
    requires forall i :: 0 <= i < |routes| ==>
               && routes[i].Valid() && routes[i].options == options
               && routes[i].counters == NO_COUNTS && routes[i].Tracing() == NO_TRACE && routes[i].Noting() == NO_NOTES
    modifies routes
    ensures probe.routes == routes && probe.options == options
    ensures failure.None? <==>
              && (forall i :: 0 <= i < |chunks| ==> |chunks[i]| <= options.maximumChunk)
              && Fine(options, probe.Endpoints(), Concat(chunks)) && ReadPcap(Concat(chunks)).Ok?
    ensures failure.Some? ==>
              || (exists k: nat :: StoppedAt(options, probe.Endpoints(), chunks, k, failure.value))
              || (&& failure.value == BadFraming
                  && (forall i :: 0 <= i < |chunks| ==> |chunks[i]| <= options.maximumChunk)
                  && Fine(options, probe.Endpoints(), Concat(chunks)) && ReadPcap(Concat(chunks)).Err?)
    ensures failure.None? ==>
              var records := ReadPcap(Concat(chunks)).value.1;
              && probe.sourceBytes == |Concat(chunks)|
              && probe.sourceRecords == |records| == probe.candidateRecords + probe.ignoredRecords
              && probe.candidateRecords == Candidates(probe.Endpoints(), records)
              && forall i :: 0 <= i < |routes| ==> CountedFor(routes[i], records)
  {
    hide Supported, Fine, Take, ReadPcap, Candidates, OneAddress, BusIs, CountedFor, CaptureSteps.Reached, Route.Valid;
    probe := new Probe(options, routes);
    ghost var file := Concat(chunks);
    assert probe.source + Concat(chunks[0..]) == file;
    for i := 0 to |chunks|
      invariant probe.Valid() && probe.AtRest() && probe.routes == routes && probe.options == options
      invariant fresh(probe) && fresh(probe.parser)
      invariant probe.source + Concat(chunks[i..]) == file
      invariant probe.source == Concat(chunks[..i])
      invariant forall k :: 0 <= k < i ==> |chunks[k]| <= options.maximumChunk
    {
      ghost var longer, others := probe.source + chunks[i], Concat(chunks[i + 1..]);
      assert chunks[i..][0] == chunks[i] && chunks[i..][1..] == chunks[i + 1..];
      assert longer + others == file;
      ConcatOneMore(chunks, i);
      failure := probe.ProcessChunk(chunks[i]);
      if failure.Some? {
        assert StoppedAt(options, probe.Endpoints(), chunks, i, failure.value);
        if Fine(options, probe.Endpoints(), file) {
          FineOfPrefix(options, probe.Endpoints(), longer, others);
        }
        return;
      }
    }
    assert probe.source == file;
    failure := probe.Finalize();
  }
}
