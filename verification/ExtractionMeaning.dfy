/** What the extraction of one record says, field by field, in terms of the record, its packet and
    what its payload decodes to (src/capture/MouseReportExtractor.cpp). */
module ExtractionMeaning {
  import opened Machine
  import opened Pcap
  import opened UsbPcapPacket
  import opened HidMouseDecoder
  import opened ReportCodec
  import opened MouseReportExtractor

  /** The record is a completion that carries decodable data. */
  ghost predicate Carries(c: Config, packet: Packet)
    requires ValidDecoder(c.decoder)
  {
    && packet.info % 2 == 1 && packet.status == 0 && packet.payload != []
    && DecodeBatch(c.decoder, packet.payload).Ok? && |DecodeBatch(c.decoder, packet.payload).value| <= 65535
  }

  /** The completion is earlier than the latest one so far. */
  predicate Late(s: State, time: int64) {
    s.maximumTimestamp.Some? && time < s.maximumTimestamp.value
  }

  /** The completion is the one before it again. */
  predicate Again(s: State, packet: Packet, time: int64) {
    && s.last.Some? && s.last.value.irpId == packet.irpId && s.last.value.timestamp == time
    && s.last.value.payload == packet.payload
  }

  /** The report is the one decoded at `index` from the record's payload. */
  ghost predicate Tells(report: Report, r: Record, packet: Packet, decoded: seq<Decoded>, index: nat)
    requires index < |decoded|
  {
    var d := decoded[index];
    && report.dx == d.dx && report.dy == d.dy && report.wheel == d.wheel && report.horizontalWheel == d.horizontalWheel
    && report.buttons == d.buttons && report.reportId == d.reportId && report.payload == d.payload
    && report.indexInTransfer == index && report.reportsInTransfer == |decoded|
    && report.pcapSequence == r.sequence % TWO_64 && Ok(report.captureUnixNs) == r.UnixNanoseconds()
    && report.irpId == packet.irpId && report.status == packet.status && report.urbFunction == packet.urbFunction
    && report.bus == packet.bus && report.device == packet.device && report.endpoint == packet.endpoint
    && report.transfer == packet.transfer && report.info == packet.info
  }

  /** A record is refused if it is of another endpoint, if there is no observation time, or if it
      is a completion whose time is out of range. */
  lemma ProcessAnswers(c: Config, s: State, r: Record, qpc: int64, packet: Packet)
    requires ValidDecoder(c.decoder)
    ensures Process(c, s, r, qpc, packet).0.Ok? <==>
            && packet.bus == c.bus && packet.device == c.device && packet.endpoint == c.endpoint
            && packet.transfer == INTERRUPT
            && qpc > 0 && (packet.info % 2 == 1 ==> r.UnixNanoseconds().Ok?)
  {
    hide Interpret, Record.UnixNanoseconds;
  }

  /** The reports answered for a record: one for each that its payload decodes to, numbered on
      from those before, with the motion, the buttons, the times, the address and the place of it,
      and flagged exactly if the completion is late or comes again. */
  lemma ProcessMeans(c: Config, s: State, r: Record, qpc: int64, packet: Packet)
    requires ValidDecoder(c.decoder) && Process(c, s, r, qpc, packet).0.Ok?
    ensures var reports := Process(c, s, r, qpc, packet).0.value.reports;
            if !Carries(c, packet) then reports == []
            else
              var decoded, time := DecodeBatch(c.decoder, packet.payload).value, r.UnixNanoseconds();
              && time.Ok? && |reports| == |decoded|
              && (forall i :: 0 <= i < |decoded| ==> Tells(reports[i], r, packet, decoded, i))
              && (forall i :: 0 <= i < |decoded| ==>
                    && reports[i].observedQpc == qpc
                    && reports[i].captureSequence == (s.nextSequence + i) % TWO_64
                    && reports[i].qualityFlags == (if Late(s, time.value) then 1 else 0)
                                                  + (if Again(s, packet, time.value) then 2 else 0))
  {
    hide DecodeBatch, ValidDecoder, Remembered, Quality, ReportsOf, Tells;
    RememberedSequence(s, packet, r);
    if Carries(c, packet) {
      var decoded, time := DecodeBatch(c.decoder, packet.payload).value, r.UnixNanoseconds().value;
      QualityIs(s, packet, time);
      forall i | 0 <= i < |decoded|
        ensures var report := Process(c, s, r, qpc, packet).0.value.reports[i];
                && Tells(report, r, packet, decoded, i) && report.observedQpc == qpc
                && report.captureSequence == (s.nextSequence + i) % TWO_64
                && report.qualityFlags == Quality(s, packet, time)
      {
        ReportIs(r, qpc, packet, time, Quality(s, packet, time), decoded, s.nextSequence, i);
      }
    }
  }

  lemma RememberedSequence(s: State, packet: Packet, r: Record)
    ensures r.UnixNanoseconds().Ok? ==>
              Remembered(s, packet, r.UnixNanoseconds().value).nextSequence == s.nextSequence
  {
  }

  lemma QualityIs(s: State, packet: Packet, time: int64)
    ensures Quality(s, packet, time) == (if Late(s, time) then 1 else 0) + (if Again(s, packet, time) then 2 else 0)
  {
  }

  lemma ReportIs(r: Record, qpc: int64, packet: Packet, time: int64, flags: uint32, decoded: seq<Decoded>,
                 sequence: uint64, i: nat)
    requires i < |decoded| <= 65535 && r.UnixNanoseconds() == Ok(time)
    ensures var report := ReportsOf(r, qpc, packet, time, flags, decoded, sequence)[i];
            && Tells(report, r, packet, decoded, i) && report.observedQpc == qpc
            && report.captureSequence == (sequence + i) % TWO_64 && report.qualityFlags == flags
  {
    hide Record.UnixNanoseconds;
  }

  /** The objections journaled for a record. */
  lemma ProcessObjects(c: Config, s: State, r: Record, qpc: int64, packet: Packet)
    requires ValidDecoder(c.decoder) && Process(c, s, r, qpc, packet).0.Ok?
    ensures var anomalies, time := Process(c, s, r, qpc, packet).0.value.anomalies, r.UnixNanoseconds();
            if packet.info % 2 == 0 then anomalies == []
            else
              time.Ok?
              && anomalies
                 == (if Late(s, time.value) then [TimestampRegressed] else [])
                    + (if Again(s, packet, time.value) then [DuplicateLike] else [])
                    + (if packet.status != 0 then [FailedTransfer]
                       else if packet.payload == [] then [EmptyCompletion]
                       else if !Carries(c, packet) then [DecodeFailed] else [])
  {
    hide DecodeBatch, ValidDecoder, Remembered, ReportsOf;
    var time := r.UnixNanoseconds();
    if packet.info % 2 == 1 && Carries(c, packet) {
      assert Warnings(s, packet, time.value) + [] == Warnings(s, packet, time.value);
    }
  }

  /** What is remembered of a record, and what is counted. */
  lemma ProcessRemembers(c: Config, s: State, r: Record, qpc: int64, packet: Packet)
    requires ValidDecoder(c.decoder) && Process(c, s, r, qpc, packet).0.Ok?
    ensures var after, count := Process(c, s, r, qpc, packet).1, |Process(c, s, r, qpc, packet).0.value.reports|;
            && after.nextSequence == (s.nextSequence + count) % TWO_64
            && (packet.info % 2 == 0 ==> after.maximumTimestamp == s.maximumTimestamp && after.last == s.last)
            && (packet.info % 2 == 1 ==>
                  var time := r.UnixNanoseconds().value;
                  && after.maximumTimestamp == Some(if Late(s, time) then s.maximumTimestamp.value else time)
                  && after.last == Some(Completion(packet.irpId, time, packet.payload)))
    ensures var k, m := s.counters, Process(c, s, r, qpc, packet).1.counters;
            var reports := |Process(c, s, r, qpc, packet).0.value.reports|;
            var completion := packet.info % 2 == 1;
            && m.endpointRecords == k.endpointRecords + 1
            && m.requests == k.requests + (if completion then 0 else 1)
            && m.completions == k.completions + (if completion then 1 else 0)
            && m.failedTransfers == k.failedTransfers + (if completion && packet.status != 0 then 1 else 0)
            && m.emptyCompletions
               == k.emptyCompletions + (if completion && packet.status == 0 && packet.payload == [] then 1 else 0)
            && m.decodedTransfers == k.decodedTransfers + (if Carries(c, packet) then 1 else 0)
            && m.decodeFailures
               == k.decodeFailures + (if completion && packet.status == 0 && packet.payload != []
                                         && !Carries(c, packet) then 1 else 0)
            && m.decodedReports == k.decodedReports + reports
            && (!completion ==> m.timestampRegressions == k.timestampRegressions
                                && m.duplicateLikeRecords == k.duplicateLikeRecords)
            && (completion ==>
                  var time := r.UnixNanoseconds().value;
                  && m.timestampRegressions == k.timestampRegressions + (if Late(s, time) then 1 else 0)
                  && m.duplicateLikeRecords == k.duplicateLikeRecords + (if Again(s, packet, time) then 1 else 0))
  {
    hide DecodeBatch, ValidDecoder, Quality, Warnings;
  }
}
