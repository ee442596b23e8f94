/** The capture pipeline (src/acquisition/CaptureWorker.cpp): source chunks go through the
    incremental parser, every record is written to the device file, and then, if it can be,
    decoded into the report stream. `disk` holds the operating system's answers to writes,
    in the order in which they are asked for. */
module CapturePipeline {
  import opened Machine
  import opened Pcap
  import opened PcapParsing
  import opened UsbPcapPacket
  import opened DevicePcapWriter
  import opened HidMouseDecoder
  import opened ReportCodec
  import opened ReportReading
  import opened ReportStream
  import opened CaptureSteps
  import CaptureMeaning
  import Extraction = MouseReportExtractor
  import Inspector

  const BLOCK_RECORDS := 4096

  /** The longest payload with which a full block can never reach the block limit. */
  const SAFE_PAYLOAD := 3944

  datatype Code =
    | SnaplenTruncated
    | ObservationAdjusted
    | Extracted(code: Extraction.AnomalyCode)

  datatype Note = Note(code: Code, pcapSequence: nat, irpId: uint64)

  datatype Snapshot = Snapshot(
    sourceBytes: nat,
    sourceRecords: nat,
    rawDeviceRecords: nat,
    decodedEndpointRecords: nat,
    decodedReports: nat,
    anomalies: nat,
    derivativeFailures: nat,
    decoderAvailable: bool,
    reportStreamAvailable: bool,
    anomalyJournalAvailable: bool,
    pcapHeaderReady: bool,
    parserAtRecordBoundary: bool,
    sealed: bool,
    published: bool)

  /** The fields that the handling of one record leaves to the handling of its chunk. */
  predicate SameChunk(a: Snapshot, b: Snapshot) {
    && a.sourceBytes == b.sourceBytes
    && a.pcapHeaderReady == b.pcapHeaderReady && a.parserAtRecordBoundary == b.parserAtRecordBoundary
    && a.sealed == b.sealed && a.published == b.published
  }

  predicate SameRecords(a: Snapshot, b: Snapshot) {
    && a.sourceRecords == b.sourceRecords && a.rawDeviceRecords == b.rawDeviceRecords
    && a.sealed == b.sealed && a.published == b.published
  }

  predicate SameSource(a: Snapshot, b: Snapshot) {
    SameChunk(a, b) && a.sourceRecords == b.sourceRecords && a.rawDeviceRecords == b.rawDeviceRecords
  }

  /** The change when records have been taken from the source, and some of them stored. */
  predicate Progress(before: Snapshot, after: Snapshot, taken: nat, stored: nat) {
    && SameChunk(before, after)
    && after.sourceRecords == before.sourceRecords + taken
    && after.rawDeviceRecords == before.rawDeviceRecords + stored
  }

  lemma NoProgress(s: Snapshot)
    ensures Progress(s, s, 0, 0)
  {
  }

  lemma ProgressAdds(a: Snapshot, b: Snapshot, c: Snapshot, d: Snapshot, n: nat)
    requires Progress(a, b, n, n) && Progress(b, c, 1, 0) && Progress(c, d, 0, 1)
    ensures Progress(a, d, n + 1, n + 1)
  {
  }

  datatype DrainEvidence = DrainEvidence(
    parserAtRecordBoundary: bool,
    authoritativeWriterClean: bool,
    accountedBytes: nat)

  ghost predicate AllSmall(reports: seq<Report>) {
    forall i :: 0 <= i < |reports| ==> |reports[i].payload| <= SAFE_PAYLOAD
  }

  /** A report the stream's checks accept is stored, unless the disk fails or it overfills
      the block, which takes a payload longer than SAFE_PAYLOAD. */
  lemma AppendFailsOnlyFor(writer: ReportStreamWriter, report: Report, diskOk: bool)
    requires writer.Valid() && !writer.finalized && writer.blockRecords == BLOCK_RECORDS
    requires Accepts(writer.identity, writer.previous, report)
    ensures match writer.AppendOutcome(report, diskOk)
            case Ok(_) => true
            case Err(fault) =>
              (fault == WriteFailed && !diskOk) || (fault == BlockLimit && !AllSmall(writer.Reports() + [report]))
  {
    hide ReportStreamWriter.Consistent, EncodeReport, ReportStreamWriter.Reports;
    if AllSmall(writer.Reports() + [report]) {
      assert BlocksStaySmall(writer.Reports() + [report], writer.blockRecords, SAFE_PAYLOAD);
      PendingStaysSmall(writer, report, SAFE_PAYLOAD);
    }
  }

  lemma SmallPrefix(a: seq<Report>, b: seq<Report>)
    requires AllSmall(a + b)
    ensures AllSmall(a)
  {
    forall i | 0 <= i < |a|
      ensures |a[i].payload| <= SAFE_PAYLOAD
    {
      assert (a + b)[i] == a[i];
    }
  }

  /** Entries are added at the end of the journal, or it has been given up. */
  predicate Journaled(before: Option<seq<Note>>, after: Option<seq<Note>>, notes: seq<Note>) {
    after.Some? ==> before.Some? && after.value == before.value + notes
  }

  function NotesFor(record: Record, packet: Packet, codes: seq<Extraction.AnomalyCode>): seq<Note> {
    seq(|codes|, i requires 0 <= i < |codes| => Note(Extracted(codes[i]), record.sequence, packet.irpId))
  }

  /** What the journal says of a stored record: that its payload was cut short, or that its
      observation time was adjusted and what the extractor found odd. */
  function NotesOf(e: Option<Endpoint>, s: Extraction.State, record: Record, packet: Packet, qpc: int64,
                   adjusted: bool): seq<Note>
    requires e.Some? ==> ValidDecoder(e.value.config.decoder)
  {
    if packet.payloadTruncated then [Note(SnaplenTruncated, record.sequence, packet.irpId)]
    else if e.None? || !Interpretable(e.value, packet) then []
    else
      (if adjusted then [Note(ObservationAdjusted, record.sequence, packet.irpId)] else [])
      + NotesFor(record, packet, AnomaliesOf(Extraction.Process(e.value.config, s, record, qpc, packet).0))
  }

  function AnomaliesOf(result: Result<Extraction.Extraction, Fault>): seq<Extraction.AnomalyCode> {
    if result.Ok? then result.value.anomalies else []
  }

  class CapturePipeline {
    const bus: uint16
    const device: uint16
    const endpoint: Option<Endpoint>
    const disk: nat -> bool
    const parser: StreamingPcapParser
    const extractor: Extraction.Extractor?
    var devicePcap: DeviceWriter?
    var reports: ReportStreamWriter?
    var journal: Option<seq<Note>>
    var snapshot: Snapshot
    var lastObservedQpc: Option<int64>
    var writerFailed: bool
    var asked: nat

    /** The source bytes taken, the records the parser has delivered, the times at which
        the stored ones were observed, and the reports these have yielded. */
    ghost var source: seq<byte>
    ghost var delivered: seq<Record>
    ghost var observed: seq<int64>
    ghost var emitted: seq<Report>

    /** Why there is no report stream although there is a decoder. */
    ghost var streamLoss: Option<Fault>

    ghost predicate DiskWorks() {
      forall n: nat :: disk(n)
    }

    /** The records in the device file. */
    ghost function Stored(): seq<Record>
      reads `devicePcap, devicePcap
    {
      if devicePcap == null then [] else devicePcap.records
    }

    /** The device file holds only whole packets of the certified device. */
    ghost predicate DeviceReady()
      reads `devicePcap, devicePcap, `observed
    {
      && FirstRefusal(bus, device, Stored()).None?
      && |observed| == |Stored()| && (forall k :: 0 <= k < |observed| ==> observed[k] > 0)
      && (devicePcap != null ==>
            devicePcap.Valid() && !devicePcap.finalized && devicePcap.bus == bus && devicePcap.device == device)
    }

    /** The extractor's state and the reports emitted are what the stored records yield. */
    ghost predicate DerivedReady()
      reads `devicePcap, devicePcap, `observed, `emitted, `lastObservedQpc, extractor
    {
      && (endpoint.Some? <==> extractor != null)
      && (endpoint.None? ==> emitted == [])
      && (lastObservedQpc.Some? ==> lastObservedQpc.value > 0)
      && (extractor != null ==>
            && extractor.Valid() && extractor.config == endpoint.value.config
            && EndpointMatches(bus, device, endpoint.value)
            && Interpreted(endpoint.value, Stored(), observed, emitted, extractor.Current(), lastObservedQpc))
    }

    /** The stream, while there is one, holds exactly the reports emitted, and it is given up
        only for a refused identity, a failed write, or a block over the limit, which takes
        a payload longer than SAFE_PAYLOAD. */
    ghost predicate StreamReady()
      reads `reports, reports, `emitted, `streamLoss
    {
      && (reports != null ==>
            && endpoint.Some? && reports.Valid() && !reports.finalized
            && reports.identity == endpoint.value.identity && reports.blockRecords == BLOCK_RECORDS
            && reports.Reports() == emitted)
      && (endpoint.Some? ==> (reports == null <==> streamLoss.Some?))
      && (streamLoss.Some? ==> streamLoss.value in {InvalidArgument, WriteFailed, BlockLimit})
      && (streamLoss == Some(InvalidArgument) ==> endpoint.Some? && !ValidIdentity(endpoint.value.identity))
      && (streamLoss == Some(BlockLimit) ==> !AllSmall(emitted))
      && (streamLoss == Some(WriteFailed) ==> !DiskWorks())
    }

    /** The counters that the snapshot shows for the derived side. */
    ghost predicate Counted()
      reads `reports, `journal, `snapshot, `emitted
    {
      && snapshot.decoderAvailable == endpoint.Some?
      && snapshot.reportStreamAvailable == (reports != null)
      && snapshot.anomalyJournalAvailable == journal.Some?
      && snapshot.derivativeFailures
           == (if endpoint.Some? && reports == null then 1 else 0) + (if journal.None? then 1 else 0)
      && (journal.Some? ==> snapshot.anomalies == |journal.value|)
      && (journal.None? ==> !DiskWorks())
      && (reports != null ==> snapshot.decodedReports == |emitted|)
    }

    ghost predicate EndpointCounted()
      reads `snapshot, extractor
    {
      extractor != null ==> snapshot.decodedEndpointRecords == extractor.counters.endpointRecords
    }

    /** The device file, once it is open, holds these records behind the header of `bytes`. */
    ghost predicate Holds(bytes: seq<byte>, records: seq<Record>)
      reads `devicePcap, devicePcap
    {
      if devicePcap == null then records == []
      else
        && |bytes| >= GLOBAL_HEADER && HeaderOf(bytes[..GLOBAL_HEADER]) == Ok(devicePcap.header)
        && devicePcap.output == FileBytes(devicePcap.header, records)
    }

    /** What holds as long as the device writer has not failed. */
    ghost predicate Usable()
      reads `devicePcap, devicePcap, `observed, `emitted, `lastObservedQpc, extractor
      reads `reports, reports, `streamLoss, `journal, `snapshot, `writerFailed
    {
      && !writerFailed && !snapshot.published
      && DeviceReady() && StreamReady() && Counted() && EndpointCounted()
      && DerivedReady()
    }

    /** What holds as long as no chunk has been refused: the device file exists once the
        global header has come, and holds every record delivered. */
    ghost predicate Valid()
      reads this, parser, devicePcap, reports, extractor
    {
      && parser.Valid()
      && Reached(source, delivered, parser.State())
      && (devicePcap != null <==> parser.headerReady)
      && (devicePcap != null ==> devicePcap.header == parser.header)
      && Stored() == delivered
      && |source| <= MAX_UINT64
      && snapshot.sourceBytes == |source|
      && snapshot.sourceRecords == snapshot.rawDeviceRecords == |delivered|
      && (snapshot.sealed ==> Finished(parser.State()))
      && Usable()
    }

    constructor (bus: uint16, device: uint16, endpoint: Option<Endpoint>, disk: nat -> bool)
      requires endpoint.Some? ==> EndpointMatches(bus, device, endpoint.value)
                                  && ValidDecoder(endpoint.value.config.decoder)
      ensures this.bus == bus && this.device == device && this.endpoint == endpoint && this.disk == disk
      ensures Valid() && source == [] && !snapshot.sealed && devicePcap == null
      ensures fresh(parser) && (extractor != null ==> fresh(extractor)) && (reports != null ==> fresh(reports))
    {
      hide EndpointMatches, ValidDecoder, ValidIdentity, Valid, Usable, Extraction.Extractor.Current;
      hide ReportStreamWriter.Valid, ReportStreamWriter.Reports, Extraction.Extractor.Valid;
      hide StreamingPcapParser.State, StreamingPcapParser.Valid;
      this.bus, this.device, this.endpoint, this.disk := bus, device, endpoint, disk;
      parser := new StreamingPcapParser();
      devicePcap, lastObservedQpc, writerFailed := null, None, false;
      source, delivered, observed, emitted, streamLoss := [], [], [], [], None;
      var failures, stream: ReportStreamWriter? := 0, null;
      if endpoint.Some? {
        extractor := new Extraction.Extractor(endpoint.value.config);
        if !ValidIdentity(endpoint.value.identity) {
          failures, streamLoss := 1, Some(InvalidArgument);
        } else if !disk(0) {
          failures, streamLoss := 1, Some(WriteFailed);
        } else {
          stream := new ReportStreamWriter(endpoint.value.identity, BLOCK_RECORDS);
        }
      } else {
        extractor := null;
      }
      reports := stream;
      journal := if disk(1) then Some([]) else None;
      failures := if disk(1) then failures else failures + 1;
      asked := 2;
      snapshot := Snapshot(0, 0, 0, 0, 0, 0, failures, endpoint.Some?, stream != null, disk(1),
                           false, false, false, false);
      new;
      StartIsValid();
    }

    lemma StartIsValid()
      requires parser.Valid() && parser.State() == PcapParsing.START && !parser.headerReady
      requires endpoint.Some? ==> EndpointMatches(bus, device, endpoint.value)
                                  && ValidDecoder(endpoint.value.config.decoder)
      requires endpoint.Some? <==> extractor != null
      requires extractor != null ==>
                 extractor.Valid() && extractor.config == endpoint.value.config
                 && extractor.Current() == Extraction.START && extractor.counters == Extraction.NO_COUNTS
      requires reports != null ==>
                 endpoint.Some? && reports.Valid() && !reports.finalized && reports.Reports() == []
                 && reports.identity == endpoint.value.identity && reports.blockRecords == BLOCK_RECORDS
      requires endpoint.Some? ==> (reports == null <==> streamLoss.Some?)
      requires streamLoss.Some? ==> streamLoss.value in {InvalidArgument, WriteFailed}
      requires streamLoss == Some(InvalidArgument) ==> endpoint.Some? && !ValidIdentity(endpoint.value.identity)
      requires streamLoss == Some(WriteFailed) ==> !DiskWorks()
      requires journal == Some([]) || (journal == None && !DiskWorks())
      requires devicePcap == null && lastObservedQpc == None && !writerFailed
      requires source == [] && delivered == [] && observed == [] && emitted == []
      requires snapshot == Snapshot(0, 0, 0, 0, 0, 0,
                                    (if endpoint.Some? && reports == null then 1 else 0)
                                    + (if journal.None? then 1 else 0),
                                    endpoint.Some?, reports != null, journal.Some?, false, false, false, false)
      ensures Valid()
    {
      hide Interpreted, Reached, EndpointMatches, ValidDecoder, ValidIdentity, ReportStreamWriter.Valid, DiskWorks;
      hide ReportStreamWriter.Reports, Extraction.Extractor.Current, StreamingPcapParser.State, AllSmall;
      hide Extraction.Extractor.Valid, StreamingPcapParser.Valid;
      ReachedAtStart();
      if endpoint.Some? {
        InterpretedAtStart(endpoint.value);
      }
    }

    method Ask() returns (ok: bool)
      modifies `asked
      ensures DiskWorks() ==> ok
    {
      ok := disk(asked);
      asked := asked + 1;
    }

    method DisableJournal()
      requires Counted() && !DiskWorks()
      modifies `journal, `snapshot
      ensures Counted()
      ensures snapshot == old(snapshot).(anomalyJournalAvailable := false,
                                         derivativeFailures := snapshot.derivativeFailures)
    {
      if journal.None? {
        return;
      }
      journal := None;
      snapshot := snapshot.(anomalyJournalAvailable := false, derivativeFailures := snapshot.derivativeFailures + 1);
    }

    method AppendAnomaly(note: Note)
      requires Counted()
      modifies `journal, `snapshot, `asked
      ensures Counted()
      ensures SameSource(snapshot, old(snapshot))
      ensures snapshot.decodedEndpointRecords == old(snapshot).decodedEndpointRecords
      ensures DiskWorks() ==> old(journal).Some? && journal == Some(old(journal).value + [note])
      ensures Journaled(old(journal), journal, [note])
    {
      if journal.None? {
        return;
      }
      var ok := Ask();
      if ok {
        journal := Some(journal.value + [note]);
        snapshot := snapshot.(anomalies := snapshot.anomalies + 1);
      } else {
        DisableJournal();
      }
    }

    /** Drop the stream; `after` is what had been emitted when it was lost. */
    method DisableReportStream(ghost why: Fault, ghost after: seq<Report>)
      requires Counted() && endpoint.Some? && reports != null
      requires why in {WriteFailed, BlockLimit}
      requires why == BlockLimit ==> !AllSmall(after)
      requires why == WriteFailed ==> !DiskWorks()
      modifies `reports, `snapshot, `streamLoss, `emitted
      ensures StreamReady() && Counted() && reports == null && emitted == after
      ensures snapshot == old(snapshot).(reportStreamAvailable := false,
                                         derivativeFailures := snapshot.derivativeFailures)
    {
      hide AllSmall, DiskWorks;
      reports := null;
      streamLoss := Some(why);
      emitted := after;
      snapshot := snapshot.(reportStreamAvailable := false, derivativeFailures := snapshot.derivativeFailures + 1);
    }

    /** The device file is opened when the global header is known. */
    method EnsureDeviceWriter() returns (result: Result<(), Failure>)
      requires Usable() && parser.Valid()
      requires parser.headerReady ==> WritableHeader(parser.header)
      modifies `devicePcap, `writerFailed, `asked
      ensures result.Ok? ==> Usable() && Stored() == old(Stored())
      ensures old(devicePcap) != null || !parser.headerReady ==> result.Ok? && devicePcap == old(devicePcap)
      ensures result.Ok? && parser.headerReady ==> devicePcap != null
      ensures old(devicePcap) == null && devicePcap != null ==> fresh(devicePcap) && devicePcap.header == parser.header
      ensures result.Err? ==> result == Err(Writing) && !DiskWorks()
    {
      hide Interpreted, EndpointMatches, StreamReady, Counted, Extraction.Extractor.Current, WritableHeader;
      hide DeviceWriter.Valid;
      if devicePcap != null || !parser.headerReady {
        return Ok(());
      }
      var ok := Ask();
      if !ok {
        writerFailed := true;
        return Err(Writing);
      }
      devicePcap := new DeviceWriter(parser.header, bus, device);
      return Ok(());
    }

    /** Account for a report that is not stored because there is no stream any more. */
    lemma LossStays(extra: seq<Report>)
      requires StreamReady() && reports == null
      ensures streamLoss == Some(BlockLimit) ==> !AllSmall(emitted + extra)
    {
      hide DiskWorks;
      if AllSmall(emitted + extra) {
        SmallPrefix(emitted, extra);
      }
    }

    /** One turn of the loop that stores reports. */
    method StoreReport(report: Report)
      requires StreamReady() && Counted() && reports != null
      requires Accepts(endpoint.value.identity, Last(None, emitted), report)
      modifies `reports, reports, `snapshot, `streamLoss, `emitted, `asked
      ensures StreamReady() && Counted()
      ensures emitted == old(emitted) + [report]
      ensures reports == old(reports) || reports == null
      ensures SameSource(snapshot, old(snapshot))
      ensures snapshot.decodedEndpointRecords == old(snapshot).decodedEndpointRecords
    {
      hide Accepts, AllSmall, Last, DiskWorks, ReportStreamWriter.AppendOutcome, ReportStreamWriter.Reports;
      hide AcceptsBlocks, AcceptsRun, EncodeFile, EncodeRun, ValidIdentity;
      var diskOk := Ask();
      AppendFailsOnlyFor(reports, report, diskOk);
      DeltaDefined(endpoint.value.identity, Last(None, emitted), report);
      var outcome := reports.Append(report, diskOk);
      if outcome.Ok? {
        emitted := emitted + [report];
        snapshot := snapshot.(decodedReports := snapshot.decodedReports + 1);
      } else {
        DisableReportStream(outcome.error, emitted + [report]);
      }
    }

    /** Once the stream is gone, reports are only accounted for. */
    ghost method PassOver(list: seq<Report>)
      requires StreamReady() && Counted() && reports == null
      modifies `emitted
      ensures StreamReady() && Counted() && emitted == old(emitted) + list
    {
      hide AllSmall, DiskWorks;
      LossStays(list);
      emitted := emitted + list;
    }

    /** The loop that stores the reports of one record. */
    method StoreReports(list: seq<Report>)
      requires StreamReady() && Counted() && endpoint.Some?
      requires AcceptsRun(endpoint.value.identity, None, emitted + list)
      modifies `reports, reports, `snapshot, `streamLoss, `emitted, `asked
      ensures StreamReady() && Counted()
      ensures emitted == old(emitted) + list
      ensures reports == old(reports) || reports == null
      ensures SameSource(snapshot, old(snapshot))
      ensures snapshot.decodedEndpointRecords == old(snapshot).decodedEndpointRecords
    {
      hide StreamReady, Counted, AcceptsRun, Accepts, Last;
      ghost var start := emitted;
      assert start + list[..0] == start;
      for i := 0 to |list|
        invariant StreamReady() && Counted()
        invariant emitted == start + list[..i]
        invariant reports == old(reports) || reports == null
        invariant SameSource(snapshot, old(snapshot))
        invariant snapshot.decodedEndpointRecords == old(snapshot).decodedEndpointRecords
      {
        if reports == null {
          PassOver(list[i..]);
          assert start + list[..i] + list[i..] == start + list;
          return;
        }
        NextAccepted(endpoint.value.identity, start, list, i);
        StoreReport(list[i]);
        assert start + list[..i] + [list[i]] == start + list[..i + 1];
      }
      assert list[..|list|] == list;
    }

    method AppendAnomalies(record: Record, packet: Packet, codes: seq<Extraction.AnomalyCode>)
      requires Counted()
      modifies `journal, `snapshot, `asked
      ensures Counted() && SameSource(snapshot, old(snapshot))
      ensures snapshot.decodedEndpointRecords == old(snapshot).decodedEndpointRecords
      ensures Journaled(old(journal), journal, NotesFor(record, packet, codes))
    {
      hide Counted;
      NothingNoted(journal);
      for i := 0 to |codes|
        invariant Counted() && SameSource(snapshot, old(snapshot))
        invariant Journaled(old(journal), journal, NotesFor(record, packet, codes)[..i])
        invariant snapshot.decodedEndpointRecords == old(snapshot).decodedEndpointRecords
      {
        ghost var before := journal;
        AppendAnomaly(Note(Extracted(codes[i]), record.sequence, packet.irpId));
        ghost var notes := NotesFor(record, packet, codes);
        NotesJoin(old(journal), before, journal, notes[..i], [notes[i]]);
        assert notes[..i] + [notes[i]] == notes[..i + 1];
      }
      assert NotesFor(record, packet, codes)[..|codes|] == NotesFor(record, packet, codes);
    }

    method CountRawRecord()
      requires Counted() && EndpointCounted()
      modifies `snapshot
      ensures Counted() && EndpointCounted()
      ensures snapshot == old(snapshot).(rawDeviceRecords := old(snapshot).rawDeviceRecords + 1)
    {
      hide DiskWorks;
      snapshot := snapshot.(rawDeviceRecords := snapshot.rawDeviceRecords + 1);
    }

    method CountEndpointRecord()
      requires Counted()
      modifies `snapshot
      ensures Counted() && SameSource(snapshot, old(snapshot))
      ensures snapshot.decodedEndpointRecords == old(snapshot).decodedEndpointRecords + 1
    {
      hide DiskWorks;
      snapshot := snapshot.(decodedEndpointRecords := snapshot.decodedEndpointRecords + 1);
    }

    /** Which of the records reach the extractor, and that it then does not fail. */
    lemma DeriveCases(record: Record, qpc: int64)
      requires extractor != null ==>
                 && endpoint.Some? && extractor.Valid() && extractor.config == endpoint.value.config
                 && EndpointMatches(bus, device, endpoint.value)
      requires Verdict(bus, device, record).None? && record.UnixNanoseconds().Ok? && qpc > 0
      ensures extractor != null ==>
                var packet := PacketOf(record).value;
                var d := Derive(endpoint.value, extractor.Current(), record, qpc);
                if packet.payloadTruncated || packet.endpoint != endpoint.value.config.endpoint
                   || packet.transfer != INTERRUPT
                then d == ([], extractor.Current())
                else
                  var processed := Extraction.Process(endpoint.value.config, extractor.Current(), record, qpc, packet);
                  processed.0.Ok? && d == (processed.0.value.reports, processed.1)
    {
      hide Extraction.Process, UsbPcapPacket.Parse, EndpointMatches, Extraction.Extractor.Current;
      if extractor != null && Interpretable(endpoint.value, PacketOf(record).value) {
        ExtractionSucceeds(endpoint.value, extractor.Current(), record, qpc, bus, device);
      }
    }

    ghost function ExtractorState(): Extraction.State
      reads extractor
      requires extractor != null ==> extractor.Valid()
    {
      if extractor == null then Extraction.START else extractor.Current()
    }

    /** What follows the device write: optional decoding. */
    method InterpretRecord(record: Record, packet: Packet, qpc: int64, adjusted: bool)
      requires StreamReady() && Counted() && EndpointCounted()
      requires endpoint.Some? <==> extractor != null
      requires extractor != null ==>
                 && endpoint.Some? && extractor.Valid() && extractor.config == endpoint.value.config
                 && EndpointMatches(bus, device, endpoint.value)
                 && AcceptsRun(endpoint.value.identity, None,
                               emitted + Derive(endpoint.value, extractor.Current(), record, qpc).0)
      requires PacketOf(record) == Ok(packet) && Verdict(bus, device, record).None?
      requires record.UnixNanoseconds().Ok? && qpc > 0
      modifies `reports, reports, `journal, `snapshot, `streamLoss, `emitted, `asked, extractor
      ensures StreamReady() && Counted() && EndpointCounted() && SameSource(snapshot, old(snapshot))
      ensures reports == old(reports) || reports == null
      ensures extractor == null ==> emitted == old(emitted)
      ensures extractor != null ==>
                && extractor.Valid()
                && old(extractor.Valid())
                && (emitted, extractor.Current())
                   == (var d := Derive(endpoint.value, old(extractor.Current()), record, qpc);
                       (old(emitted) + d.0, d.1))
      ensures Journaled(old(journal), journal,
                        NotesOf(endpoint, old(ExtractorState()), record, packet, qpc, adjusted))
    {
      hide Extraction.Process, UsbPcapPacket.Parse, AcceptsRun, EndpointMatches, Last, Accepts, ValidDecoder;
      hide StreamReady, Counted, Derive, Journaled, NotesFor;
      DeriveCases(record, qpc);
      NothingNoted(journal);
      ghost var before := journal;
      if packet.payloadTruncated {
        assert emitted + [] == emitted;
        AppendAnomaly(Note(SnaplenTruncated, record.sequence, packet.irpId));
        return;
      }
      if extractor == null || packet.endpoint != endpoint.value.config.endpoint || packet.transfer != INTERRUPT {
        assert emitted + [] == emitted;
        return;
      }
      CountEndpointRecord();
      if adjusted {
        AppendAnomaly(Note(ObservationAdjusted, record.sequence, packet.irpId));
      }
      // The source also catches a failure of Process here; ExtractionSucceeds shows there is none.
      Extraction.CountsOne(endpoint.value.config, extractor.Current(), record, qpc, packet);
      var extracted := extractor.ProcessRecord(record, qpc, packet);
      ghost var noted := journal;
      AppendAnomalies(record, packet, extracted.value.anomalies);
      NotesJoin(before, noted, journal,
                if adjusted then [Note(ObservationAdjusted, record.sequence, packet.irpId)] else [],
                NotesFor(record, packet, extracted.value.anomalies));
      StoreReports(extracted.value.reports);
    }

    /** Give a record its observation time. */
    method Observe(supplied: int64) returns (qpc: int64, adjusted: bool)
      requires DerivedReady()
      modifies `lastObservedQpc
      ensures DerivedReady()
      ensures qpc == Observation(old(lastObservedQpc), supplied) > 0
      ensures adjusted == Adjusted(old(lastObservedQpc), supplied)
      ensures lastObservedQpc == Some(qpc)
    {
      hide Interpreted, EndpointMatches, Extraction.Extractor.Current;
      var minimum := if lastObservedQpc.Some? then lastObservedQpc.value else 1;
      qpc := if supplied > 0 then (if supplied > minimum then supplied else minimum) else minimum;
      adjusted := supplied <= 0 || (lastObservedQpc.Some? && supplied < lastObservedQpc.value);
      if extractor != null {
        ObservedLater(endpoint.value, Stored(), observed, emitted, extractor.Current(), lastObservedQpc, supplied);
      }
      lastObservedQpc := Some(qpc);
    }

    /** What the derived side needs to know to take a record, and what it is left with. */
    lemma StepIsSafe(record: Record, qpc: int64)
      requires DerivedReady() && extractor != null && lastObservedQpc == Some(qpc)
      requires Verdict(bus, device, record).None? && record.UnixNanoseconds().Ok?
      requires record.sequence == |Stored()| < TWO_64 && DataBytes(Stored()) + |record.data| < TWO_64
      ensures var d := Derive(endpoint.value, extractor.Current(), record, qpc);
              && AcceptsRun(endpoint.value.identity, None, emitted + d.0)
              && Interpreted(endpoint.value, Stored() + [record], observed + [qpc], emitted + d.0, d.1, lastObservedQpc)
    {
      hide Interpreted, EndpointMatches, AcceptsRun, Derive, Verdict, Extraction.Extractor.Current, DataBytes;
      InterpretedStep(endpoint.value, Stored(), observed, emitted, extractor.Current(), lastObservedQpc, record, bus,
                      device);
    }

    /** The device write. */
    method StoreRecord(record: Record, packet: Packet) returns (result: Result<(), Failure>)
      requires DeviceReady() && Counted() && EndpointCounted() && devicePcap != null
      requires Verdict(bus, device, record).None? && packet.bus == bus && packet.device == device
      requires RecordFits(devicePcap.header, record) && record.UnixNanoseconds().Ok?
      modifies `snapshot, `asked, `writerFailed, devicePcap
      ensures result.Ok? ==>
                && Stored() == old(Stored()) + [record] && FirstRefusal(bus, device, Stored()).None?
                && devicePcap.Valid() && !devicePcap.finalized
                && Counted() && EndpointCounted() && writerFailed == old(writerFailed)
                && snapshot == old(snapshot).(rawDeviceRecords := old(snapshot).rawDeviceRecords + 1)
      ensures result.Err? ==> result == Err(Writing) && writerFailed && !DiskWorks()
    {
      hide Counted, Verdict, UsbPcapPacket.Parse, DeviceWriter.Valid, RecordFits, FirstRefusal;
      AcceptedGrows(bus, device, Stored(), record);
      var diskOk := Ask();
      var appended := devicePcap.Append(record, packet, diskOk);
      if appended.Err? {
        writerFailed := true;
        return Err(Writing);
      }
      CountRawRecord();
      return Ok(());
    }

    /** The device write and what follows it. */
    method KeepRecord(record: Record, packet: Packet, qpc: int64, adjusted: bool)
      returns (result: Result<(), Failure>)
      requires Usable() && devicePcap != null && lastObservedQpc == Some(qpc) && qpc > 0
      requires PacketOf(record) == Ok(packet) && Verdict(bus, device, record).None?
      requires packet.bus == bus && packet.device == device
      requires RecordFits(devicePcap.header, record) && record.UnixNanoseconds().Ok?
      requires record.sequence == |Stored()| < TWO_64 && DataBytes(Stored()) + |record.data| < TWO_64
      modifies `snapshot, `reports, `journal, `streamLoss, `emitted, `observed, `asked, `writerFailed
      modifies devicePcap, reports, extractor
      ensures reports == old(reports) || reports == null
      ensures result.Ok? ==> Usable() && Stored() == old(Stored()) + [record] && observed == old(observed) + [qpc]
      ensures result.Ok? ==> Progress(old(snapshot), snapshot, 0, 1)
      ensures result.Ok? ==>
                Journaled(old(journal), journal,
                          NotesOf(endpoint, old(ExtractorState()), record, packet, qpc, adjusted))
      ensures result.Err? ==> result == Err(Writing) && writerFailed && !DiskWorks()
    {
      hide Interpreted, EndpointMatches, AcceptsRun, Derive, StreamReady, Counted, Accepts, Verdict;
      hide UsbPcapPacket.Parse, DataBytes, DeviceWriter.Valid, RecordFits, Extraction.Extractor.Current, FirstRefusal;
      hide Journaled, NotesOf, Interpretable;
      if extractor != null {
        StepIsSafe(record, qpc);
      }
      var stored := StoreRecord(record, packet);
      if stored.Err? {
        return stored;
      }
      InterpretRecord(record, packet, qpc, adjusted);
      observed := observed + [qpc];
      return Ok(());
    }

    /** One record: refused, or stored and then interpreted. The order is the durability
        contract: nothing is decoded that has not been written. */
    method ProcessRecord(record: Record, supplied: int64) returns (result: Result<(), Failure>)
      requires Usable() && devicePcap != null
      requires RecordFits(devicePcap.header, record) && record.UnixNanoseconds().Ok?
      requires record.sequence == |Stored()| < TWO_64 && DataBytes(Stored()) + |record.data| < TWO_64
      modifies `snapshot, `lastObservedQpc, `reports, `journal, `streamLoss, `emitted, `observed, `asked, `writerFailed
      modifies devicePcap, reports, extractor
      ensures reports == old(reports) || reports == null
      ensures match Verdict(bus, device, record)
              case Some(failure) =>
                result == Err(failure) && Usable() && Stored() == old(Stored())
                && SameSource(snapshot, old(snapshot))
              case None =>
                && (result.Ok? ==> Usable() && Stored() == old(Stored()) + [record]
                                   && observed == old(observed) + [Observation(old(lastObservedQpc), supplied)]
                                   && Progress(old(snapshot), snapshot, 0, 1)
                                   && Journaled(old(journal), journal,
                                                NotesOf(endpoint, old(ExtractorState()), record, PacketOf(record).value,
                                                        Observation(old(lastObservedQpc), supplied),
                                                        Adjusted(old(lastObservedQpc), supplied))))
                && (result.Err? ==> result == Err(Writing) && writerFailed && !DiskWorks())
    {
      hide Interpreted, EndpointMatches, AcceptsRun, Derive, StreamReady, Counted, Accepts;
      hide UsbPcapPacket.Parse, DataBytes, DeviceWriter.Valid, RecordFits, Extraction.Extractor.Current;
      hide Journaled, NotesOf;
      var qpc, adjusted := Observe(supplied);
      var parsed := UsbPcapPacket.Parse(record.data, Some(record.originalLength));
      if parsed.Err? {
        return Err(Framing);
      }
      var packet := parsed.value;
      if packet.bus != bus || packet.device != device {
        return Err(WrongDevice);
      }
      result := KeepRecord(record, packet, qpc, adjusted);
    }

    /** The loop over the records that a chunk completes. */
    method ProcessRecords(records: seq<Record>, supplied: int64) returns (result: Result<(), Failure>)
      requires Usable() && devicePcap != null
      requires Numbered(devicePcap.header, records, |Stored()|)
      requires |Stored()| + |records| < TWO_64 && DataBytes(Stored() + records) < TWO_64
      modifies `snapshot, `lastObservedQpc, `reports, `journal, `streamLoss, `emitted, `observed, `asked, `writerFailed
      modifies devicePcap, reports, extractor
      ensures reports == old(reports) || reports == null
      ensures result.Err? && result != Err(Writing) ==>
                && Usable()
                && Some(result.error) == FirstRefusal(bus, device, records)
                && Stored() == old(Stored()) + Accepted(bus, device, records)
      ensures result == Err(Writing) ==> writerFailed && !DiskWorks()
      ensures result.Ok? ==>
                && Usable()
                && FirstRefusal(bus, device, records) == None
                && Stored() == old(Stored()) + records
                && Progress(old(snapshot), snapshot, |records|, |records|)
    {
      hide Usable, Verdict, RecordFits, DataBytes, FirstRefusal, Accepted, Numbered, SameSource;
      ghost var start := Stored();
      assert start + records[..0] == start;
      assert Progress(snapshot, snapshot, 0, 0) by { NoProgress(snapshot); }
      for i := 0 to |records|
        invariant Usable() && devicePcap == old(devicePcap)
        invariant reports == old(reports) || reports == null
        invariant Stored() == start + records[..i]
        invariant forall j :: 0 <= j < i ==> Verdict(bus, device, records[j]).None?
        invariant Progress(old(snapshot), snapshot, i, i)
      {
        NextRecord(devicePcap.header, start, records, i);
        ghost var before := snapshot;
        CountSourceRecord();
        ghost var counted := snapshot;
        result := ProcessRecord(records[i], supplied);
        if result.Err? {
          if Verdict(bus, device, records[i]).Some? {
            RefusalAt(bus, device, records, i);
          }
          return result;
        }
        ProgressAdds(old(snapshot), before, counted, snapshot, i);
      }
      assert records[..|records|] == records;
      RefusalIff(bus, device, records);
      return Ok(());
    }

    method CountSourceRecord()
      requires Usable()
      modifies `snapshot
      ensures Usable()
      ensures Progress(old(snapshot), snapshot, 1, 0)
    {
      hide DiskWorks, DeviceReady, StreamReady, DerivedReady;
      snapshot := snapshot.(sourceRecords := snapshot.sourceRecords + 1);
    }

    /** The parser's step: the records a chunk completes, or why it completes none. */
    method TakeChunk(chunk: seq<byte>) returns (result: Result<seq<Record>, Failure>)
      requires parser.Valid() && Reached(source, delivered, parser.State())
      modifies parser, `source, `delivered
      ensures parser.Valid()
      ensures match Completed(old(parser.State()), chunk)
              case Err(_) => result == Err(Framing) && source == old(source) && delivered == old(delivered)
              case Ok(records) =>
                && result == Ok(records)
                && source == old(source) + chunk && delivered == old(delivered) + records
                && Reached(source, delivered, parser.State())
                && (old(parser.headerReady) ==> parser.headerReady && parser.header == old(parser.header))
    {
      if parser.headerReady && Completed(parser.State(), chunk).Ok? {
        HeaderStays(AppendChunk(parser.State(), chunk).value);
      }
      assert parser.headerReady ==> parser.State().header == Some(parser.header);
      hide Take, AppendChunk, StreamingPcapParser.State, StreamingPcapParser.Valid;
      ReachedStep(source, delivered, parser.State(), chunk);
      AppendIsMore(parser.State(), chunk);
      var appended := parser.Append(chunk);
      if appended.Err? {
        return Err(Framing);
      }
      var taken := parser.TakeRecords();
      if taken.Err? {
        return Err(Framing);
      }
      source, delivered := source + chunk, delivered + taken.value;
      return Ok(taken.value);
    }

    method CountBytes(n: nat)
      requires Usable()
      modifies `snapshot
      ensures Usable()
      ensures snapshot.sourceBytes == old(snapshot).sourceBytes + n && SameRecords(old(snapshot), snapshot)
    {
      hide DiskWorks, DeviceReady, StreamReady, DerivedReady;
      snapshot := snapshot.(sourceBytes := snapshot.sourceBytes + n);
    }

    method NoteParser()
      requires Usable()
      modifies `snapshot
      ensures Usable()
      ensures snapshot.sourceBytes == old(snapshot).sourceBytes && SameRecords(old(snapshot), snapshot)
      ensures snapshot.pcapHeaderReady == parser.headerReady
      ensures snapshot.parserAtRecordBoundary <==> parser.headerReady && |parser.buffer| == parser.offset
    {
      hide DiskWorks, DeviceReady, StreamReady, DerivedReady;
      snapshot := snapshot.(pcapHeaderReady := parser.headerReady,
                            parserAtRecordBoundary := parser.headerReady && |parser.buffer| == parser.offset);
    }

    /** The records of a chunk meet what ProcessRecords asks of them. */
    lemma ChunkIsSafe(stored: seq<Record>, records: seq<Record>)
      requires parser.Valid() && Reached(source, stored + records, parser.State()) && |source| <= MAX_UINT64
      ensures !parser.headerReady ==> stored == [] && records == []
      ensures parser.headerReady ==>
                && WritableHeader(parser.header)
                && Numbered(parser.header, records, |stored|)
                && |stored| + |records| < TWO_64 && DataBytes(stored + records) < TWO_64
    {
      hide Reached, WritableHeader, Numbered, DataBytes, FileBytes;
      ReachedRecords(source, stored + records, parser.State());
      if parser.headerReady {
        NumberedTail(parser.header, stored, records);
      }
    }

    /** Open the device file if need be and store what the chunk has completed. */
    method StoreChunk(records: seq<Record>, supplied: int64, ghost stored: seq<Record>)
      returns (result: Result<(), Failure>)
      requires parser.Valid() && Reached(source, stored + records, parser.State())
      requires Stored() == stored && |source| <= MAX_UINT64
      requires devicePcap != null ==> parser.headerReady && devicePcap.header == parser.header
      requires Usable()
      modifies `snapshot, `lastObservedQpc, `reports, `journal, `streamLoss, `emitted, `observed, `asked, `writerFailed
      modifies `devicePcap, devicePcap, reports, extractor
      ensures devicePcap == old(devicePcap) || (old(devicePcap) == null && fresh(devicePcap))
      ensures reports == old(reports) || reports == null
      ensures result == Err(Writing) ==> !DiskWorks()
      ensures result.Err? && result != Err(Writing) ==>
                && Some(result.error) == FirstRefusal(bus, device, records)
                && Stored() == stored + Accepted(bus, device, records)
                && (devicePcap != null ==> parser.headerReady && devicePcap.header == parser.header)
                && Usable()
      ensures result.Ok? ==>
                && FirstRefusal(bus, device, records) == None
                && Stored() == stored + records
                && (devicePcap != null <==> parser.headerReady)
                && (devicePcap != null ==> devicePcap.header == parser.header)
                && Progress(old(snapshot), snapshot, |records|, |records|)
                && Usable()
    {
      hide Usable, Reached, FirstRefusal, Accepted, DataBytes, Numbered, StreamingPcapParser.State;
      hide StreamingPcapParser.Valid, WritableHeader, Progress;
      ChunkIsSafe(stored, records);
      result := EnsureDeviceWriter();
      if result.Err? {
        return result;
      }
      if records == [] {
        NoProgress(snapshot);
        NothingRefused(bus, device);
        assert stored + [] == stored;
      } else {
        result := ProcessRecords(records, supplied);
      }
    }

    /** The header that the parser has read is that of the source, and of all it may become. */
    lemma HeaderSeen(more: seq<byte>)
      requires parser.Valid() && Reached(source, delivered, parser.State())
      ensures parser.headerReady ==>
                |source| >= GLOBAL_HEADER && HeaderOf((source + more)[..GLOBAL_HEADER]) == Ok(parser.header)
    {
      hide Reached, HeaderOf, ParseRecords;
      ReachedParse(source, delivered, parser.State());
      if parser.headerReady {
        assert (source + more)[..GLOBAL_HEADER] == source[..GLOBAL_HEADER];
      }
    }

    lemma UsableHolds(bytes: seq<byte>)
      requires Usable()
      requires devicePcap != null ==>
                 |bytes| >= GLOBAL_HEADER && HeaderOf(bytes[..GLOBAL_HEADER]) == Ok(devicePcap.header)
      ensures Holds(bytes, Stored())
    {
      hide HeaderOf, FileBytes, FirstRefusal, StreamReady, Counted, DerivedReady, EndpointCounted;
    }

    /** At every moment the device file holds what the parser has delivered. */
    lemma ValidHolds(more: seq<byte>)
      requires Valid()
      ensures Holds(source + more, Stored()) && Stored() == delivered
    {
      hide Usable, Reached, HeaderOf, FileBytes, Finished;
      HeaderSeen(more);
      UsableHolds(source + more);
    }

    /** The records that a chunk has completed are stored, and the snapshot brought up to date. */
    method StoreTaken(records: seq<Record>, supplied: int64, ghost stored: seq<Record>)
      returns (result: Result<(), Failure>)
      requires parser.Valid() && Reached(source, delivered, parser.State()) && |source| <= MAX_UINT64
      requires delivered == stored + records && Stored() == stored && !snapshot.sealed
      requires snapshot.sourceBytes == |source| && snapshot.sourceRecords == snapshot.rawDeviceRecords == |stored|
      requires devicePcap != null ==> parser.headerReady && devicePcap.header == parser.header
      requires Usable()
      modifies `snapshot, `lastObservedQpc, `reports, `journal, `streamLoss, `emitted, `observed, `asked, `writerFailed
      modifies `devicePcap, devicePcap, reports, extractor
      ensures devicePcap == old(devicePcap) || (old(devicePcap) == null && fresh(devicePcap))
      ensures reports == old(reports) || reports == null
      ensures result == Err(Writing) ==> !DiskWorks()
      ensures result.Ok? ==> Valid() && !snapshot.sealed
      ensures result != Err(Writing) ==>
                && Usable()
                && result == Answer(FirstRefusal(bus, device, records))
                && Stored() == stored + (if result.Ok? then records else Accepted(bus, device, records))
                && Holds(source, Stored())
    {
      hide Usable, Reached, FirstRefusal, Accepted, StreamingPcapParser.State, StreamingPcapParser.Valid, Stored;
      hide Holds, HeaderOf, WritableHeader;
      HeaderSeen([]);
      assert source + [] == source;
      NoteParser();
      result := StoreChunk(records, supplied, stored);
      if result == Err(Writing) {
        return result;
      }
      UsableHolds(source);
      if result.Err? {
        return result;
      }
      NoteParser();
      return Ok(());
    }

    /** A chunk that can be accounted for is parsed and stored. */
    method AcceptChunk(chunk: seq<byte>, supplied: int64) returns (result: Result<(), Failure>)
      requires Valid() && !snapshot.sealed && chunk != [] && |source| + |chunk| <= MAX_UINT64
      modifies this, parser, devicePcap, reports, extractor
      ensures devicePcap == old(devicePcap) || (old(devicePcap) == null && fresh(devicePcap))
      ensures reports == old(reports) || reports == null
      ensures result.Ok? ==> Valid() && source == old(source) + chunk && !snapshot.sealed
      ensures result.Err? ==> result.error in {Framing, WrongDevice, Writing}
      ensures result == Err(Writing) ==> !DiskWorks()
      ensures result != Err(Writing) ==>
                && Usable()
                && result == Answer(ChunkVerdict(bus, device, old(parser.State()), |old(source)|, chunk))
                && Stored() == old(Stored()) + Kept(bus, device, old(parser.State()), |old(source)|, chunk)
                && Holds(old(source) + chunk, Stored())
    {
      hide Usable, Completed, Reached, FirstRefusal, Accepted, DataBytes, Numbered, StreamingPcapParser.State;
      hide StreamingPcapParser.Valid, WritableHeader, Stored, ChunkVerdict, Kept, Holds, HeaderOf;
      ValidHolds(chunk);
      TakenChunk(bus, device, parser.State(), |source|, chunk);
      CountBytes(|chunk|);
      ghost var stored := delivered;
      var records := TakeChunk(chunk);
      if records.Err? {
        assert Stored() + [] == Stored();
        return Err(Framing);
      }
      result := StoreTaken(records.value, supplied, stored);
    }

    /** Nothing that the pipeline owns has changed. */
    twostate predicate Untouched()
      reads this, parser, devicePcap, reports, extractor
    {
      && unchanged(this) && unchanged(parser)
      && (devicePcap != null ==> unchanged(devicePcap)) && (reports != null ==> unchanged(reports))
      && (extractor != null ==> unchanged(extractor))
    }

    lemma NotPublished()
      requires Usable()
      ensures !snapshot.published
    {
      hide DeviceReady, StreamReady, Counted, DerivedReady;
    }

    /** One chunk of source bytes. */
    method ProcessChunk(chunk: seq<byte>, supplied: int64) returns (result: Result<(), Failure>)
      requires Valid() || snapshot.published
      modifies this, parser, devicePcap, reports, extractor
      ensures devicePcap == old(devicePcap) || (old(devicePcap) == null && fresh(devicePcap))
      ensures reports == old(reports) || reports == null
      ensures result.Ok? ==> Valid() && source == old(source) + chunk && !snapshot.sealed
      ensures old(snapshot).sealed || old(snapshot).published <==> result == Err(Misuse)
      ensures result == Err(Misuse) ==> Untouched()
      ensures result == Err(Writing) ==> !DiskWorks()
      ensures result != Err(Misuse) && result != Err(Writing) ==>
                && Usable()
                && result == Answer(ChunkVerdict(bus, device, old(parser.State()), |old(source)|, chunk))
                && Stored() == old(Stored()) + Kept(bus, device, old(parser.State()), |old(source)|, chunk)
                && Holds(old(source) + chunk, Stored())
    {
      hide Usable, Completed, Reached, FirstRefusal, Accepted, StreamingPcapParser.State;
      hide StreamingPcapParser.Valid, Stored, Holds;
      if snapshot.sealed || snapshot.published {
        return Err(Misuse);
      }
      ValidHolds(chunk);
      if chunk == [] {
        assert source + [] == source && Stored() + [] == Stored();
        return Ok(());
      }
      if |chunk| > MAX_UINT64 - snapshot.sourceBytes {
        assert Stored() + [] == Stored();
        return Err(Framing);
      }
      result := AcceptChunk(chunk, supplied);
    }

    // Flushing, sealing and publishing.

    method CheckpointDerivatives()
      requires StreamReady() && Counted()
      modifies `reports, reports, `journal, `snapshot, `streamLoss, `emitted, `asked
      ensures StreamReady() && Counted() && SameSource(snapshot, old(snapshot)) && emitted == old(emitted)
      ensures snapshot.decodedEndpointRecords == old(snapshot).decodedEndpointRecords
      ensures reports == old(reports) || reports == null
      ensures reports != null ==> ReadFile(reports.output) == Ok((endpoint.value.identity, emitted))
    {
      hide AllSmall, DiskWorks, ReadFile, ReportStreamWriter.Valid, ReportStreamWriter.Reports;
      if reports != null {
        var diskOk := Ask();
        var flushed := reports.Checkpoint(diskOk);
        if flushed.Err? {
          DisableReportStream(WriteFailed, emitted);
        }
      }
      if journal.Some? {
        var diskOk := Ask();
        if !diskOk {
          DisableJournal();
        }
      }
    }

    /** Everything taken so far is on disk afterwards, and the report file by itself reads
        back to everything emitted so far. */
    method Checkpoint() returns (result: Result<(), Failure>)
      requires Usable() || snapshot.published
      modifies `reports, reports, `journal, `snapshot, `streamLoss, `emitted, `asked, `writerFailed
      ensures reports == old(reports) || reports == null
      ensures result.Ok? ==> Usable() && SameSource(snapshot, old(snapshot)) && emitted == old(emitted)
      ensures result.Ok? && reports != null ==> ReadFile(reports.output) == Ok((endpoint.value.identity, emitted))
      ensures result == Err(Misuse) <==> old(snapshot).published
      ensures result == Err(Misuse) ==> Untouched()
      ensures result.Err? && result != Err(Misuse) ==> result == Err(Writing) && !DiskWorks()
    {
      hide StreamReady, Counted, DerivedReady, ReadFile, DeviceReady;
      if snapshot.published {
        return Err(Misuse);
      }
      if devicePcap != null {
        var diskOk := Ask();
        var flushed := devicePcap.Checkpoint(diskOk);
        if flushed.Err? {
          writerFailed := true;
          return Err(Writing);
        }
      }
      ghost var before := snapshot;
      CheckpointDerivatives();
      return Ok(());
    }

    method MarkSealed()
      requires Usable()
      modifies `snapshot
      ensures Usable() && snapshot.sealed
      ensures snapshot.sourceBytes == old(snapshot).sourceBytes
      ensures snapshot.sourceRecords == old(snapshot).sourceRecords
      ensures snapshot.rawDeviceRecords == old(snapshot).rawDeviceRecords
    {
      hide DiskWorks, DeviceReady, StreamReady, DerivedReady;
      snapshot := snapshot.(sealed := true);
    }

    /** The end of the source. The source's second EnsureDeviceWriter is not repeated here:
        once the header is ready the writer is there. */
    method Seal() returns (result: Result<(), Failure>)
      requires Valid() || snapshot.published
      modifies `reports, reports, `journal, `snapshot, `streamLoss, `emitted, `asked, `writerFailed
      ensures reports == old(reports) || reports == null
      ensures result.Ok? && !old(snapshot).published ==> Valid() && snapshot.sealed && emitted == old(emitted)
      ensures result == Err(Misuse) <==> !old(snapshot).sealed && old(snapshot).published
      ensures old(snapshot).published ==> (result.Ok? || result == Err(Misuse)) && Untouched()
      ensures result == Err(Framing) <==>
                !old(snapshot).sealed && !old(snapshot).published && !Finished(old(parser.State()))
      ensures result == Err(Framing) ==> Valid()
      ensures result.Err? ==> result.error in {Framing, Misuse, Writing}
      ensures result == Err(Writing) ==> !DiskWorks()
    {
      hide Usable, Reached, Stored;
      if snapshot.sealed {
        return Ok(());
      }
      if snapshot.published {
        return Err(Misuse);
      }
      var finished := parser.Finalize();
      if finished.Err? {
        return Err(Framing);
      }
      result := Checkpoint();
      if result.Err? {
        return result;
      }
      NoteParser();
      MarkSealed();
      return Ok(());
    }

    /** At every moment the device file and the bytes not yet parsed make up the source. */
    lemma CopySoFar()
      requires Valid() && devicePcap != null
      ensures devicePcap.output + parser.State().unparsed == CanonicalFile(source)
    {
      hide FileBytes, CanonicalFile, Reached, DerivedReady, StreamReady, Counted;
      ReachedRecords(source, delivered, parser.State());
    }

    /** A sealed file is a copy of the whole source, and reads the same. */
    lemma SealedCopy()
      requires Valid() && snapshot.sealed
      ensures devicePcap != null && devicePcap.output == CanonicalFile(source)
      ensures ReadPcap(source) == Ok((parser.header, delivered)) && ReadPcap(devicePcap.output) == ReadPcap(source)
      ensures snapshot.sourceBytes == |devicePcap.output|
    {
      hide Usable, CanonicalFile, Reached, Take, ReadPcap;
      CopySoFar();
      assert devicePcap.output + [] == devicePcap.output;
      SealedReads(source, delivered, parser.State());
    }

    function Evidence(): DrainEvidence
      reads parser, `snapshot, `writerFailed
    {
      DrainEvidence(parser.headerReady && |parser.buffer| == parser.offset, snapshot.sealed && !writerFailed,
                    snapshot.sourceBytes)
    }

    /** The evidence handed to the native side is clean exactly when the pipeline is sealed,
        and then it accounts for every byte of a file that has been copied whole. */
    lemma EvidenceIsTruthful()
      requires Valid()
      ensures snapshot.sealed <==> Evidence().parserAtRecordBoundary && Evidence().authoritativeWriterClean
      ensures Evidence().accountedBytes == |source|
      ensures Evidence().authoritativeWriterClean ==> devicePcap != null && devicePcap.output == CanonicalFile(source)
    {
      hide CanonicalFile, Reached, DerivedReady, StreamReady, Counted, DeviceReady;
      if snapshot.sealed {
        SealedCopy();
      }
    }

    method PublishDerivatives()
      requires StreamReady() && Counted()
      requires endpoint.Some? ==> Inspector.AllPlain(emitted)
      modifies `reports, reports, `journal, `snapshot, `streamLoss, `emitted, `asked
      ensures SameSource(snapshot, old(snapshot)) && emitted == old(emitted)
      ensures reports == old(reports) || reports == null
      ensures reports != null ==>
                && endpoint.Some? && reports.identity == endpoint.value.identity && reports.Reports() == emitted
                && ReadFile(reports.output) == Ok((endpoint.value.identity, emitted))
                && (|emitted| <= Inspector.MAX_REPORTS ==>
                      Inspector.Sees(endpoint.value.identity, reports.output, emitted))
      ensures DiskWorks() && old(reports) != null ==> reports != null
      ensures DiskWorks() ==> journal == old(journal)
    {
      hide AllSmall, ReadFile, ReportStreamWriter.Valid, ReportStreamWriter.Reports, Inspector.AllPlain, Inspector.Sees;
      if reports != null {
        var diskOk := Ask();
        var finished := reports.Finalize(diskOk);
        if finished.Err? {
          DisableReportStream(WriteFailed, emitted);
        } else if |emitted| <= Inspector.MAX_REPORTS {
          FinishedFile(reports);
        }
      }
      if journal.Some? {
        var diskOk := Ask();
        if !diskOk {
          DisableJournal();
        }
      }
    }

    /** The published products: the device file is the source, and the report file, unless
        it has been given up, reads back to the reports that the records in the device file
        yield, and the second reader sees them too, up to its limit. */
    ghost predicate Published()
      reads this, parser, devicePcap, reports
    {
      && snapshot.published && snapshot.sourceBytes == |source|
      && devicePcap != null && devicePcap.finalized && devicePcap.output == CanonicalFile(source)
      && ReadPcap(devicePcap.output) == Ok((parser.header, delivered))
      && (reports != null ==>
            && endpoint.Some? && reports.identity == endpoint.value.identity && reports.Reports() == emitted
            && ReadFile(reports.output) == Ok((endpoint.value.identity, emitted))
            && (|emitted| <= Inspector.MAX_REPORTS ==>
                  Inspector.Sees(endpoint.value.identity, reports.output, emitted)))
      && (endpoint.Some? ==>
            && ValidDecoder(endpoint.value.config.decoder) && |observed| == |delivered|
            && emitted == Interpretation(endpoint.value, delivered, observed).0
            && CaptureMeaning.TellRecords(endpoint.value, delivered, observed, emitted, |delivered|))
      && (endpoint.Some? && ValidIdentity(endpoint.value.identity) && DiskWorks() && AllSmall(emitted) ==>
            reports != null)
    }

    /** With a usable identity and a working disk, only a payload longer than SAFE_PAYLOAD can
        have cost the report stream. */
    lemma StreamSurvives()
      requires StreamReady()
      ensures endpoint.Some? && ValidIdentity(endpoint.value.identity) && DiskWorks() && AllSmall(emitted) ==>
                reports != null
    {
      hide ReportStreamWriter.Valid, ReportStreamWriter.Reports, AllSmall, ValidIdentity, DiskWorks;
    }

    /** Both readers take a finished report file. */
    lemma FinishedFile(writer: ReportStreamWriter)
      requires writer.Valid() && writer.pending == [] && Inspector.AllPlain(writer.Reports())
      requires |writer.Reports()| <= Inspector.MAX_REPORTS
      ensures Inspector.Sees(writer.identity, writer.output, writer.Reports())
    {
      hide AcceptsBlocks, AcceptsRun, EncodeRun, EncodeFile, Inspector.AllPlain, Inspector.Sees, Last, ValidIdentity,
           Concat;
      assert Concat(writer.blocks) + [] == Concat(writer.blocks);
      Inspector.FileSeen(writer.identity, writer.blocks);
    }

    lemma EmittedIsInterpretation()
      requires DerivedReady()
      ensures endpoint.Some? ==>
                && ValidDecoder(endpoint.value.config.decoder) && |observed| == |Stored()|
                && emitted == Interpretation(endpoint.value, Stored(), observed).0
                && Inspector.AllPlain(emitted)
    {
      hide AcceptsRun, Interpretation, Inspector.AllPlain, Extraction.Balanced, Extraction.Follows, EndpointMatches;
      hide Extraction.Extractor.Current, ValidDecoder, DataBytes;
    }

    /** Every stored record is a packet of the device with its time. */
    lemma StoredFit()
      requires Valid() && endpoint.Some?
      ensures CaptureMeaning.AllFit(endpoint.value, delivered, observed)
    {
      hide Reached, StreamReady, Counted, EndpointCounted, FirstRefusal, Verdict, Interpreted, DeviceWriter.Valid,
           Extraction.Extractor.Current, Record.UnixNanoseconds, UsbPcapPacket.Parse;
      RefusalIff(bus, device, delivered);
      ReachedRecords(source, delivered, parser.State());
      forall k | 0 <= k < |delivered|
        ensures PacketOf(delivered[k]).Ok? && PacketOf(delivered[k]).value.bus == bus
                && PacketOf(delivered[k]).value.device == device
      {
        KeptIsOfDevice(bus, device, delivered[k]);
      }
    }

    /** The reports emitted are told by the records stored. */
    lemma EmittedTells()
      requires Valid() && endpoint.Some?
      ensures ValidDecoder(endpoint.value.config.decoder) && |observed| == |delivered|
      ensures CaptureMeaning.TellRecords(endpoint.value, delivered, observed, emitted, |delivered|)
    {
      hide CaptureMeaning.AllFit, CaptureMeaning.TellRecords, Interpretation, ValidDecoder, Reached;
      assert DerivedReady() && Stored() == delivered by {
        hide Reached, StreamReady, Counted, EndpointCounted, DeviceReady;
      }
      StoredFit();
      EmittedIsInterpretation();
      CaptureMeaning.InterpretationTells(endpoint.value, delivered, observed, |delivered|);
      assert delivered[..|delivered|] == delivered && observed[..|delivered|] == observed;
    }

    /** Publication. The device file is the source, and the report file, unless it has been
        given up, holds what the records of the device file yield. */
    method Publish() returns (result: Result<(), Failure>)
      requires Valid() || snapshot.published
      modifies this, devicePcap, reports
      ensures source == old(source) && delivered == old(delivered) && devicePcap == old(devicePcap)
      ensures reports == old(reports) || reports == null
      ensures result == Err(Misuse) <==> !old(snapshot).sealed || old(snapshot).published
      ensures result == Err(Misuse) ==> Untouched()
      ensures result.Err? && result != Err(Misuse) ==> result == Err(Writing) && !DiskWorks()
      ensures result.Ok? ==> Published() && emitted == old(emitted) && observed == old(observed)
      ensures result.Ok? && DiskWorks() ==> (reports == null <==> old(reports) == null)
    {
      hide CanonicalFile, Reached, DerivedReady, StreamReady, Counted, ReadPcap, ReadFile, Finished, DeviceWriter.Valid;
      hide ReportStreamWriter.Valid, ReportStreamWriter.Reports, StreamingPcapParser.State, Interpretation;
      hide Inspector.AllPlain, Inspector.Sees, ValidDecoder, ValidIdentity, AllSmall, CaptureMeaning.TellRecords;
      if !snapshot.sealed || snapshot.published {
        return Err(Misuse);
      }
      SealedCopy();
      EmittedIsInterpretation();
      if endpoint.Some? {
        EmittedTells();
      }
      StreamSurvives();
      var diskOk := Ask();
      var finished := devicePcap.Finalize(diskOk);
      if finished.Err? {
        writerFailed := true;
        return Err(Writing);
      }
      PublishDerivatives();
      snapshot := snapshot.(published := true);
      return Ok(());
    }
  }

  lemma NothingNoted(journal: Option<seq<Note>>)
    ensures Journaled(journal, journal, [])
    ensures forall notes: seq<Note> :: notes[..0] == []
  {
  }

  lemma NotesJoin(a: Option<seq<Note>>, b: Option<seq<Note>>, c: Option<seq<Note>>, first: seq<Note>,
                  second: seq<Note>)
    requires Journaled(a, b, first) && Journaled(b, c, second)
    ensures Journaled(a, c, first + second)
  {
    if c.Some? {
      assert (a.value + first) + second == a.value + (first + second);
    }
  }

  /** A parser at the end of its input has delivered what the one-shot reader reads. */
  lemma SealedReads(source: seq<byte>, delivered: seq<Record>, s: ParserState)
    requires Reached(source, delivered, s) && Finished(s)
    ensures ReadPcap(source) == Ok((s.header.value, delivered)) && ReadPcap(CanonicalFile(source)) == ReadPcap(source)
    ensures |CanonicalFile(source)| == |source|
  {
    hide Take, ReadPcap;
    OneShotAgrees(source);
    ReachedRecords(source, delivered, s);
    CanonicalReadsSame(source);
  }

  /** The constructor's checks: output paths, device and optional endpoint. */
  method Open(pathsUsable: bool, bus: uint16, device: uint16, endpoint: Option<Endpoint>, disk: nat -> bool)
    returns (result: Result<CapturePipeline, Failure>)
    requires endpoint.Some? ==> ValidDecoder(endpoint.value.config.decoder)
    ensures result.Ok? <==>
              pathsUsable && bus != 0 && device != 0
              && (endpoint.Some? ==> EndpointMatches(bus, device, endpoint.value))
    ensures !pathsUsable ==> result == Err(Writing)
    ensures pathsUsable && result.Err? ==> result == Err(Misuse)
    ensures result.Ok? ==> fresh(result.value) && result.value.Valid() && result.value.source == []
  {
    if !pathsUsable {
      return Err(Writing);
    }
    if bus == 0 || device == 0 {
      return Err(Misuse);
    }
    if endpoint.Some? && !EndpointMatches(bus, device, endpoint.value) {
      return Err(Misuse);
    }
    var pipeline := new CapturePipeline(bus, device, endpoint, disk);
    return Ok(pipeline);
  }

  function Answer(verdict: Option<Failure>): Result<(), Failure> {
    if verdict.Some? then Err(verdict.value) else Ok(())
  }

  lemma NothingRefused(bus: uint16, device: uint16)
    ensures FirstRefusal(bus, device, []) == None
  {
  }

  lemma AppendIsMore(s: ParserState, chunk: seq<byte>)
    ensures AppendChunk(s, chunk).Ok? ==> AppendChunk(s, chunk) == Ok(More(s, chunk))
  {
    assert s.unparsed + [] == s.unparsed;
  }

  lemma NextAccepted(id: Identity, start: seq<Report>, list: seq<Report>, i: nat)
    requires AcceptsRun(id, None, start + list) && i < |list|
    ensures Accepts(id, Last(None, start + list[..i]), list[i])
  {
    hide Accepts;
    var all, k := start + list, |start| + i;
    assert all[..k] == start + list[..i] && all[k] == list[i];
    assert PreviousAt(None, all, k) == Last(None, all[..k]);
  }


  lemma DeltaDefined(id: Identity, previous: Option<Previous>, report: Report)
    requires Accepts(id, previous, report)
    ensures TimestampDeltaDefined(previous, report)
  {
  }

  lemma KeptIsOfDevice(bus: uint16, device: uint16, r: Record)
    requires Verdict(bus, device, r).None?
    ensures PacketOf(r).Ok? && PacketOf(r).value.bus == bus && PacketOf(r).value.device == device
  {
    hide PacketOf;
  }
}
