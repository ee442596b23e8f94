/** What the reports of a capture say, in terms of the stored records: which record each one comes
    from, and what the payloads decode to. */
module CaptureMeaning {
  import opened Machine
  import opened Pcap
  import opened UsbPcapPacket
  import opened HidMouseDecoder
  import opened ReportCodec
  import opened CaptureSteps
  import opened ExtractionMeaning
  import Extraction = MouseReportExtractor

  /** A whole interrupt packet of the decoded endpoint. */
  predicate Concerns(e: Endpoint, r: Record) {
    && PacketOf(r).Ok? && !PacketOf(r).value.payloadTruncated
    && PacketOf(r).value.endpoint == e.config.endpoint && PacketOf(r).value.transfer == INTERRUPT
  }

  /** What a record's payload decodes to, if it is a successful completion with data. */
  function DecodedFrom(e: Endpoint, r: Record): seq<Decoded>
    requires ValidDecoder(e.config.decoder)
  {
    if !Concerns(e, r) then []
    else
      var packet := PacketOf(r).value;
      if packet.info % 2 == 0 || packet.status != 0 || packet.payload == [] then []
      else
        match DecodeBatch(e.config.decoder, packet.payload)
        case Err(_) => []
        case Ok(decoded) => if |decoded| > 65535 then [] else decoded
  }

  /** Where a report comes from: the place of its record, all that its payload decodes to, and
      the place of the report in that. */
  datatype Source = Source(record: nat, decoded: seq<Decoded>, index: nat)

  function SourcesIn(decoded: seq<Decoded>, record: nat): (sources: seq<Source>)
    ensures |sources| == |decoded|
  {
    seq(|decoded|, i requires 0 <= i < |decoded| => Source(record, decoded, i))
  }

  /** The sources of all reports of the first n records, in order. */
  function Sources(e: Endpoint, records: seq<Record>, n: nat): seq<Source>
    requires ValidDecoder(e.config.decoder) && n <= |records|
  {
    if n == 0 then [] else Sources(e, records, n - 1) + SourcesIn(DecodedFrom(e, records[n - 1]), n - 1)
  }

  /** The records that have been stored: packets of the certified device, with their times. */
  ghost predicate AllFit(e: Endpoint, records: seq<Record>, observed: seq<int64>) {
    && |observed| == |records|
    && forall k :: 0 <= k < |records| ==>
         && PacketOf(records[k]).Ok? && records[k].UnixNanoseconds().Ok? && observed[k] > 0
         && PacketOf(records[k]).value.bus == e.config.bus && PacketOf(records[k]).value.device == e.config.device
  }

  predicate Completes(e: Endpoint, r: Record) {
    Concerns(e, r) && PacketOf(r).value.info % 2 == 1
  }

  function TimeOf(r: Record): int64 {
    if r.UnixNanoseconds().Ok? then r.UnixNanoseconds().value else 0
  }

  /** An earlier completion of the endpoint has a later time. */
  ghost predicate IsLate(e: Endpoint, records: seq<Record>, k: nat)
    requires k < |records|
  {
    exists j :: 0 <= j < k && Completes(e, records[j]) && TimeOf(records[j]) > TimeOf(records[k])
  }

  /** The record is the last completion of the endpoint among the first n. */
  ghost predicate IsLast(e: Endpoint, records: seq<Record>, n: nat, j: nat)
    requires n <= |records|
  {
    j < n && Completes(e, records[j]) && forall m :: j < m < n ==> !Completes(e, records[m])
  }

  predicate SameTransfer(a: Record, b: Record) {
    && PacketOf(a).Ok? && PacketOf(b).Ok? && TimeOf(a) == TimeOf(b)
    && PacketOf(a).value.irpId == PacketOf(b).value.irpId && PacketOf(a).value.payload == PacketOf(b).value.payload
  }

  /** The completion of the endpoint before it was the same. */
  ghost predicate ComesAgain(e: Endpoint, records: seq<Record>, k: nat)
    requires k < |records|
  {
    exists j: nat :: IsLast(e, records, k, j) && SameTransfer(records[j], records[k])
  }

  /** The report has its source's motion, buttons, place, times and address, is numbered, and is
      flagged exactly if its record is late or comes again. */
  ghost predicate ComesFrom(e: Endpoint, records: seq<Record>, observed: seq<int64>, report: Report, number: nat,
                            s: Source)
    requires |observed| == |records|
  {
    && s.record < |records| && s.index < |s.decoded| && PacketOf(records[s.record]).Ok?
    && Tells(report, records[s.record], PacketOf(records[s.record]).value, s.decoded, s.index)
    && report.observedQpc == observed[s.record] && report.captureSequence == number % TWO_64
    && report.qualityFlags == (if IsLate(e, records, s.record) then 1 else 0)
                              + (if ComesAgain(e, records, s.record) then 2 else 0)
  }

  /** The reports are those of the records: one for each source, in order. */
  ghost predicate TellRecords(e: Endpoint, records: seq<Record>, observed: seq<int64>, reports: seq<Report>, n: nat)
    requires ValidDecoder(e.config.decoder) && n <= |records| == |observed|
  {
    var sources := Sources(e, records, n);
    && |reports| == |sources|
    && forall i :: 0 <= i < |reports| ==> ComesFrom(e, records, observed, reports[i], i, sources[i])
  }

  // ---------------------------------------------------------------------
  // The extractor's memory
  // ---------------------------------------------------------------------

  ghost predicate RemembersTime(e: Endpoint, records: seq<Record>, n: nat, maximum: Option<int64>)
    requires n <= |records|
  {
    && (maximum.Some? ==>
          && (exists j :: 0 <= j < n && Completes(e, records[j]) && TimeOf(records[j]) == maximum.value)
          && (forall j :: 0 <= j < n && Completes(e, records[j]) ==> TimeOf(records[j]) <= maximum.value))
    && (maximum.None? ==> forall j :: 0 <= j < n ==> !Completes(e, records[j]))
  }

  ghost predicate RemembersLast(e: Endpoint, records: seq<Record>, n: nat, last: Option<Extraction.Completion>)
    requires n <= |records|
  {
    && (last.Some? ==>
          exists j: nat :: IsLast(e, records, n, j) && PacketOf(records[j]).Ok?
                      && last.value == Extraction.Completion(PacketOf(records[j]).value.irpId, TimeOf(records[j]),
                                                             PacketOf(records[j]).value.payload))
    && (last.None? ==> forall j :: 0 <= j < n ==> !Completes(e, records[j]))
  }

  lemma TimeStep(e: Endpoint, records: seq<Record>, n: nat, maximum: Option<int64>)
    requires n < |records| && RemembersTime(e, records, n, maximum)
    ensures Completes(e, records[n]) ==>
              var time := TimeOf(records[n]);
              && RemembersTime(e, records, n + 1,
                               Some(if maximum.Some? && time < maximum.value then maximum.value else time))
              && (IsLate(e, records, n) <==> maximum.Some? && time < maximum.value)
    ensures !Completes(e, records[n]) ==> RemembersTime(e, records, n + 1, maximum)
  {
    hide Completes, TimeOf;
    if Completes(e, records[n]) && maximum.Some? {
      var j :| 0 <= j < n && Completes(e, records[j]) && TimeOf(records[j]) == maximum.value;
      assert TimeOf(records[n]) <= maximum.value || TimeOf(records[n]) > maximum.value;
    }
  }

  lemma LastStep(e: Endpoint, records: seq<Record>, n: nat, last: Option<Extraction.Completion>)
    requires n < |records| && RemembersLast(e, records, n, last) && PacketOf(records[n]).Ok?
    ensures var packet, time := PacketOf(records[n]).value, TimeOf(records[n]);
            Completes(e, records[n]) ==>
              && RemembersLast(e, records, n + 1, Some(Extraction.Completion(packet.irpId, time, packet.payload)))
              && (ComesAgain(e, records, n) <==>
                    last == Some(Extraction.Completion(packet.irpId, time, packet.payload)))
    ensures !Completes(e, records[n]) ==> RemembersLast(e, records, n + 1, last)
  {
    hide Completes, TimeOf, PacketOf;
    if Completes(e, records[n]) {
      assert IsLast(e, records, n + 1, n);
      if last.Some? {
        var j: nat :| IsLast(e, records, n, j) && PacketOf(records[j]).Ok?
                 && last.value == Extraction.Completion(PacketOf(records[j]).value.irpId, TimeOf(records[j]),
                                                        PacketOf(records[j]).value.payload);
        assert forall i: nat :: IsLast(e, records, n, i) ==> i == j;
      }
    } else if last.Some? {
      var j: nat :| IsLast(e, records, n, j) && PacketOf(records[j]).Ok?
               && last.value == Extraction.Completion(PacketOf(records[j]).value.irpId, TimeOf(records[j]),
                                                      PacketOf(records[j]).value.payload);
      assert IsLast(e, records, n + 1, j);
    }
  }

  // ---------------------------------------------------------------------
  // One record
  // ---------------------------------------------------------------------

  /** What the extractor's state says of the first n records. */
  ghost predicate Remembers(e: Endpoint, records: seq<Record>, n: nat, s: Extraction.State, reports: nat)
    requires n <= |records|
  {
    && RemembersTime(e, records, n, s.maximumTimestamp) && RemembersLast(e, records, n, s.last)
    && s.nextSequence == reports % TWO_64
  }

  /** A record that does not concern the endpoint, or is a request, changes nothing. */
  lemma QuietRecord(e: Endpoint, s: Extraction.State, r: Record, qpc: int64)
    requires ValidDecoder(e.config.decoder) && PacketOf(r).Ok? && !Completes(e, r)
    ensures var derived := Derive(e, s, r, qpc);
            && derived.0 == [] && DecodedFrom(e, r) == []
            && derived.1.maximumTimestamp == s.maximumTimestamp && derived.1.last == s.last
            && derived.1.nextSequence == s.nextSequence
  {
    hide ValidDecoder, UsbPcapPacket.Parse, DecodeBatch, Record.UnixNanoseconds, Extraction.Interpret;
  }

  lemma CompletionRecord(e: Endpoint, s: Extraction.State, r: Record, qpc: int64)
    requires ValidDecoder(e.config.decoder) && PacketOf(r).Ok? && Completes(e, r)
    requires r.UnixNanoseconds().Ok? && qpc > 0
    requires PacketOf(r).value.bus == e.config.bus && PacketOf(r).value.device == e.config.device
    ensures var derived, packet, time := Derive(e, s, r, qpc), PacketOf(r).value, TimeOf(r);
            var decoded := DecodedFrom(e, r);
            && |derived.0| == |decoded|
            && (forall i :: 0 <= i < |decoded| ==>
                  && Tells(derived.0[i], r, packet, decoded, i) && derived.0[i].observedQpc == qpc
                  && derived.0[i].captureSequence == (s.nextSequence + i) % TWO_64
                  && derived.0[i].qualityFlags == (if Late(s, time) then 1 else 0)
                                                  + (if ExtractionMeaning.Again(s, packet, time) then 2 else 0))
            && derived.1.maximumTimestamp == Some(if Late(s, time) then s.maximumTimestamp.value else time)
            && derived.1.last == Some(Extraction.Completion(packet.irpId, time, packet.payload))
            && derived.1.nextSequence == (s.nextSequence + |decoded|) % TWO_64
  {
    hide ValidDecoder, UsbPcapPacket.Parse, DecodeBatch, Record.UnixNanoseconds, Extraction.Process, Tells;
    var packet := PacketOf(r).value;
    ProcessAnswers(e.config, s, r, qpc, packet);
    ProcessMeans(e.config, s, r, qpc, packet);
    ProcessRemembers(e.config, s, r, qpc, packet);
  }

  lemma SourcesGrow(e: Endpoint, records: seq<Record>, observed: seq<int64>, n: nat, reports: seq<Report>,
                    more: seq<Report>)
    requires ValidDecoder(e.config.decoder) && n < |records| == |observed|
    requires TellRecords(e, records, observed, reports, n) && |more| == |DecodedFrom(e, records[n])|
    requires forall i :: 0 <= i < |more| ==>
               ComesFrom(e, records, observed, more[i], |reports| + i, Source(n, DecodedFrom(e, records[n]), i))
    ensures TellRecords(e, records, observed, reports + more, n + 1)
  {
    hide ValidDecoder, ComesFrom, DecodedFrom;
    var before, all := Sources(e, records, n), Sources(e, records, n + 1);
    forall i | 0 <= i < |reports + more|
      ensures ComesFrom(e, records, observed, (reports + more)[i], i, all[i])
    {
      if i < |reports| {
        assert all[i] == before[i];
      } else {
        assert all[i] == Source(n, DecodedFrom(e, records[n]), i - |reports|);
      }
    }
  }

  lemma NumbersAdd(a: nat, b: nat)
    ensures (a % TWO_64 + b) % TWO_64 == (a + b) % TWO_64
  {
  }

  lemma QuietStep(e: Endpoint, records: seq<Record>, observed: seq<int64>, n: nat, s: Extraction.State,
                  reports: seq<Report>)
    requires ValidDecoder(e.config.decoder) && |observed| == |records| && n < |records|
    requires PacketOf(records[n]).Ok? && !Completes(e, records[n])
    requires TellRecords(e, records, observed, reports, n) && Remembers(e, records, n, s, |reports|)
    ensures var derived := Derive(e, s, records[n], observed[n]);
            && TellRecords(e, records, observed, reports + derived.0, n + 1)
            && Remembers(e, records, n + 1, derived.1, |reports| + |derived.0|)
  {
    hide ValidDecoder, Derive, DecodedFrom, PacketOf, RemembersTime, RemembersLast, TellRecords, Completes;
    TimeStep(e, records, n, s.maximumTimestamp);
    LastStep(e, records, n, s.last);
    QuietRecord(e, s, records[n], observed[n]);
    SourcesGrow(e, records, observed, n, reports, []);
  }

  /** The extractor's memory knows which completions are late and which come again. */
  lemma FlagsMean(e: Endpoint, records: seq<Record>, n: nat, s: Extraction.State)
    requires n < |records| && PacketOf(records[n]).Ok? && Completes(e, records[n])
    requires RemembersTime(e, records, n, s.maximumTimestamp) && RemembersLast(e, records, n, s.last)
    ensures Late(s, TimeOf(records[n])) <==> IsLate(e, records, n)
    ensures ExtractionMeaning.Again(s, PacketOf(records[n]).value, TimeOf(records[n])) <==> ComesAgain(e, records, n)
  {
    hide RemembersTime, RemembersLast, Completes, TimeOf, PacketOf, IsLate, ComesAgain;
    TimeStep(e, records, n, s.maximumTimestamp);
    LastStep(e, records, n, s.last);
  }

  lemma CompletionStep(e: Endpoint, records: seq<Record>, observed: seq<int64>, n: nat, s: Extraction.State,
                       reports: seq<Report>)
    requires ValidDecoder(e.config.decoder) && |observed| == |records| && n < |records|
    requires PacketOf(records[n]).Ok? && Completes(e, records[n])
    requires records[n].UnixNanoseconds().Ok? && observed[n] > 0
    requires PacketOf(records[n]).value.bus == e.config.bus && PacketOf(records[n]).value.device == e.config.device
    requires TellRecords(e, records, observed, reports, n) && Remembers(e, records, n, s, |reports|)
    ensures var derived := Derive(e, s, records[n], observed[n]);
            && TellRecords(e, records, observed, reports + derived.0, n + 1)
            && Remembers(e, records, n + 1, derived.1, |reports| + |derived.0|)
  {
    hide ValidDecoder, Derive, DecodedFrom, PacketOf, RemembersTime, RemembersLast, TellRecords, Completes, Tells,
         IsLate, ComesAgain, TimeOf, Record.UnixNanoseconds;
    var r, derived, decoded := records[n], Derive(e, s, records[n], observed[n]), DecodedFrom(e, records[n]);
    CompletionRecord(e, s, r, observed[n]);
    FlagsMean(e, records, n, s);
    TimeStep(e, records, n, s.maximumTimestamp);
    LastStep(e, records, n, s.last);
    hide Late, ExtractionMeaning.Again;
    forall i | 0 <= i < |decoded|
      ensures ComesFrom(e, records, observed, derived.0[i], |reports| + i, Source(n, decoded, i))
    {
      NumbersAdd(|reports|, i);
    }
    NumbersAdd(|reports|, |decoded|);
    SourcesGrow(e, records, observed, n, reports, derived.0);
  }

  lemma OneRecord(e: Endpoint, records: seq<Record>, observed: seq<int64>, n: nat, s: Extraction.State,
                  reports: seq<Report>)
    requires ValidDecoder(e.config.decoder) && AllFit(e, records, observed) && n < |records|
    requires TellRecords(e, records, observed, reports, n) && Remembers(e, records, n, s, |reports|)
    ensures var derived := Derive(e, s, records[n], observed[n]);
            && TellRecords(e, records, observed, reports + derived.0, n + 1)
            && Remembers(e, records, n + 1, derived.1, |reports| + |derived.0|)
  {
    hide ValidDecoder, Derive, PacketOf, TellRecords, Remembers, Completes, Record.UnixNanoseconds;
    if Completes(e, records[n]) {
      CompletionStep(e, records, observed, n, s, reports);
    } else {
      QuietStep(e, records, observed, n, s, reports);
    }
  }

  /** What the pipeline emits for stored records, in terms of these records alone. */
  lemma {:induction false} InterpretationTells(e: Endpoint, records: seq<Record>, observed: seq<int64>, n: nat)
    requires ValidDecoder(e.config.decoder) && AllFit(e, records, observed) && n <= |records|
    ensures |observed| == |records|
    ensures var all := Interpretation(e, records[..n], observed[..n]);
            && TellRecords(e, records, observed, all.0, n)
            && Remembers(e, records, n, all.1, |all.0|)
  {
    hide ValidDecoder, Derive, TellRecords, Remembers;
    assert |observed| == |records|;
    hide AllFit;
    if n == 0 {
      NothingTold(e, records, observed);
    } else {
      InterpretationTells(e, records, observed, n - 1);
      assert records[..n][..n - 1] == records[..n - 1] && observed[..n][..n - 1] == observed[..n - 1];
      assert |records[..n]| == n && records[..n][n - 1] == records[n - 1] && observed[..n][n - 1] == observed[n - 1];
      var before := Interpretation(e, records[..n - 1], observed[..n - 1]);
      OneRecord(e, records, observed, n - 1, before.1, before.0);
    }
  }

  lemma NothingTold(e: Endpoint, records: seq<Record>, observed: seq<int64>)
    requires ValidDecoder(e.config.decoder) && |observed| == |records|
    ensures TellRecords(e, records, observed, [], 0) && Remembers(e, records, 0, Extraction.START, 0)
  {
    hide ValidDecoder;
  }
}
