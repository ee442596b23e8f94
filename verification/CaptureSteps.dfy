/** The steps of the capture pipeline (src/acquisition/CaptureWorker.cpp) on values: what
    has been parsed from the source so far, which records are refused, when they are taken
    to have been observed, and which reports they yield. */
module CaptureSteps {
  import opened Machine
  import opened Pcap
  import opened PcapParsing
  import opened UsbPcapPacket
  import opened DevicePcapWriter
  import opened HidMouseDecoder
  import opened ReportCodec
  import opened ReportStream
  import Extraction = MouseReportExtractor
  import Inspector

  datatype Failure = Framing | WrongDevice | Writing | Misuse

  // ---------------------------------------------------------------------
  // What has been parsed
  // ---------------------------------------------------------------------

  /** The parser has been fed `source`, has delivered `delivered` and is in state `s`. */
  ghost predicate Reached(source: seq<byte>, delivered: seq<Record>, s: ParserState) {
    Take(More(PcapParsing.START, source)) == Ok((delivered, s))
  }

  lemma ReachedAtStart()
    ensures Reached([], [], PcapParsing.START)
  {
    StartIsIdle();
    assert More(PcapParsing.START, []) == PcapParsing.START;
  }

  lemma ReachedIdle(source: seq<byte>, delivered: seq<Record>, s: ParserState)
    requires Reached(source, delivered, s)
    ensures Idle(s) && HeaderChecked(s)
  {
    hide Take;
    TakeLeavesIdle(More(PcapParsing.START, source));
    TakeKeepsHeaderChecked(More(PcapParsing.START, source));
  }

  /** A chunk more: either the parse goes on, or no continuation of the source parses. */
  lemma ReachedStep(source: seq<byte>, delivered: seq<Record>, s: ParserState, chunk: seq<byte>)
    requires Reached(source, delivered, s)
    ensures match Take(More(s, chunk))
            case Ok(taken) => Reached(source + chunk, delivered + taken.0, taken.1)
            case Err(fault) => Take(More(PcapParsing.START, source + chunk)) == Err(fault)
  {
    hide Take;
    TakeResumes(More(PcapParsing.START, source), chunk);
    MoreTwice(PcapParsing.START, source, chunk);
  }

  lemma FaultIsFinal(source: seq<byte>, others: seq<byte>)
    requires Take(More(PcapParsing.START, source)).Err?
    ensures Take(More(PcapParsing.START, source + others)).Err?
  {
    hide Take;
    TakeResumes(More(PcapParsing.START, source), others);
    MoreTwice(PcapParsing.START, source, others);
  }

  /** What is delivered stays at the front of everything delivered later. */
  lemma DeliveredStays(source: seq<byte>, delivered: seq<Record>, s: ParserState, others: seq<byte>)
    requires Reached(source, delivered, s)
    ensures var all := Take(More(PcapParsing.START, source + others));
            all.Ok? ==> delivered <= all.value.0
  {
    hide Take;
    ReachedStep(source, delivered, s, others);
  }

  /** The parser's header and what it has delivered, in terms of the source. */
  lemma ReachedParse(source: seq<byte>, delivered: seq<Record>, s: ParserState)
    requires Reached(source, delivered, s)
    ensures s.header.None? ==> delivered == [] && s.unparsed == source && s.sequence == 0
    ensures s.header.Some? ==>
              && |source| >= GLOBAL_HEADER
              && HeaderOf(source[..GLOBAL_HEADER]) == Ok(s.header.value)
              && ParseRecords(s.header.value, source[GLOBAL_HEADER..], 0) == Parsed(delivered, s.unparsed, None)
              && s.sequence == |delivered|
  {
    hide ParseRecords, HeaderOf;
    assert [] + source == source;
  }

  /** The records delivered are numbered from zero, fit the header, take up the source
      bytes they came from, and written out give those bytes back. */
  lemma ReachedRecords(source: seq<byte>, delivered: seq<Record>, s: ParserState)
    requires Reached(source, delivered, s)
    ensures s.sequence == |delivered|
    ensures s.header.None? ==> delivered == [] && s.unparsed == source
    ensures s.header.Some? ==>
              && WritableHeader(s.header.value)
              && Numbered(s.header.value, delivered, 0)
              && FileBytes(s.header.value, delivered) + s.unparsed == CanonicalFile(source)
              && GLOBAL_HEADER + DataBytes(delivered) + RECORD_HEADER * |delivered| + |s.unparsed| == |source|
  {
    hide Reached, ParseRecords, HeaderOf, HeaderBytes, RecordsBytes, Numbered, CanonicalFile, DataBytes;
    ReachedParse(source, delivered, s);
    if s.header.Some? {
      var h, rest := s.header.value, source[GLOBAL_HEADER..];
      HeaderOfIsValid(source[..GLOBAL_HEADER]);
      ParsedRecordsFit(h, rest, 0);
      RecordsRestore(h, rest, 0);
      HeaderRestores(source[..GLOBAL_HEADER]);
      CanonicalSplits(source);
      assert HeaderBytes(h) + RecordsBytes(h, delivered) + s.unparsed
          == HeaderBytes(h) + (RecordsBytes(h, delivered) + s.unparsed);
    }
  }

  lemma {:induction false} DataBytesOfPrefix(records: seq<Record>, n: nat)
    requires n <= |records|
    ensures DataBytes(records[..n]) <= DataBytes(records)
  {
    if n > 0 {
      assert records[..n][1..] == records[1..][..n - 1];
      DataBytesOfPrefix(records[1..], n - 1);
    }
  }

  // ---------------------------------------------------------------------
  // Which records are refused
  // ---------------------------------------------------------------------

  function PacketOf(r: Record): Result<Packet, Fault> {
    UsbPcapPacket.Parse(r.data, Some(r.originalLength))
  }

  /** Why a record stops the capture, if it does. */
  function Verdict(bus: uint16, device: uint16, r: Record): (refusal: Option<Failure>)
    ensures refusal.Some? ==> refusal.value.Framing? || refusal.value.WrongDevice?
  {
    match PacketOf(r)
    case Err(_) => Some(Framing)
    case Ok(packet) => if packet.bus != bus || packet.device != device then Some(WrongDevice) else None
  }

  /** The first refusal in a list of records. */
  function FirstRefusal(bus: uint16, device: uint16, records: seq<Record>): (refusal: Option<Failure>)
    ensures refusal.Some? ==> refusal.value.Framing? || refusal.value.WrongDevice?
  {
    if records == [] then None
    else
      var first := Verdict(bus, device, records[0]);
      if first.Some? then first else FirstRefusal(bus, device, records[1..])
  }

  /** The records before the first refusal. */
  function Accepted(bus: uint16, device: uint16, records: seq<Record>): seq<Record> {
    if records == [] || Verdict(bus, device, records[0]).Some? then []
    else [records[0]] + Accepted(bus, device, records[1..])
  }

  lemma {:induction false} AcceptedIsPrefix(bus: uint16, device: uint16, records: seq<Record>)
    ensures var accepted := Accepted(bus, device, records);
            && accepted <= records
            && (FirstRefusal(bus, device, records).None? <==> accepted == records)
            && (|accepted| < |records| ==>
                  FirstRefusal(bus, device, records) == Verdict(bus, device, records[|accepted|]))
            && (|accepted| < |records| ==> Verdict(bus, device, records[|accepted|]).Some?)
            && (forall i :: 0 <= i < |accepted| ==> Verdict(bus, device, records[i]).None?)
  {
    hide Verdict;
    if records != [] && Verdict(bus, device, records[0]).None? {
      AcceptedIsPrefix(bus, device, records[1..]);
      var others := Accepted(bus, device, records[1..]);
      assert forall i :: 0 < i <= |others| ==> records[i] == records[1..][i - 1];
      assert |others| < |records[1..]| ==> records[1..][|others|] == records[|others| + 1];
    }
  }

  /** A list of records holds a refusal exactly when one of its records is refused. */
  lemma {:induction false} RefusalIff(bus: uint16, device: uint16, records: seq<Record>)
    ensures FirstRefusal(bus, device, records).None? <==>
            forall i :: 0 <= i < |records| ==> Verdict(bus, device, records[i]).None?
  {
    hide Verdict;
    if records != [] {
      RefusalIff(bus, device, records[1..]);
      assert forall i :: 0 <= i < |records[1..]| ==> records[1..][i] == records[i + 1];
      if forall i :: 0 <= i < |records[1..]| ==> Verdict(bus, device, records[1..][i]).None? {
        forall i | 0 < i < |records|
          ensures Verdict(bus, device, records[i]).None?
        {
          assert records[1..][i - 1] == records[i];
        }
      }
    }
  }

  lemma AcceptedGrows(bus: uint16, device: uint16, records: seq<Record>, r: Record)
    requires FirstRefusal(bus, device, records).None? && Verdict(bus, device, r).None?
    ensures FirstRefusal(bus, device, records + [r]).None?
  {
    hide Verdict, FirstRefusal;
    RefusalIff(bus, device, records);
    RefusalIff(bus, device, records + [r]);
  }

  lemma {:induction false} RefusalAt(bus: uint16, device: uint16, records: seq<Record>, i: nat)
    requires i < |records| && Verdict(bus, device, records[i]).Some?
    requires forall j :: 0 <= j < i ==> Verdict(bus, device, records[j]).None?
    ensures FirstRefusal(bus, device, records) == Verdict(bus, device, records[i])
    ensures Accepted(bus, device, records) == records[..i]
  {
    hide Verdict;
    AcceptedIsPrefix(bus, device, records);
    var n := |Accepted(bus, device, records)|;
    assert n < |records| ==> Verdict(bus, device, records[n]).Some?;
  }

  /** What there is to know of the next of a list of records. */
  lemma NextRecord(h: Header, start: seq<Record>, records: seq<Record>, i: nat)
    requires i < |records| && Numbered(h, records, |start|)
    requires DataBytes(start + records) < TWO_64
    ensures records[i].sequence == |start| + i && RecordFits(h, records[i]) && records[i].UnixNanoseconds().Ok?
    ensures DataBytes(start + records[..i]) + |records[i].data| < TWO_64
    ensures start + records[..i] + [records[i]] == start + records[..i + 1]
  {
    hide RecordFits, DataBytes;
    assert (start + records)[..|start| + i + 1] == start + records[..i] + [records[i]];
    DataBytesOfPrefix(start + records, |start| + i + 1);
    DataBytesGrow(start + records[..i], records[i]);
  }

  lemma NumberedTail(h: Header, a: seq<Record>, b: seq<Record>)
    requires Numbered(h, a + b, 0)
    ensures Numbered(h, b, |a|)
  {
    hide RecordFits;
    forall i | 0 <= i < |b|
      ensures b[i].sequence == |a| + i && RecordFits(h, b[i]) && b[i].UnixNanoseconds().Ok?
    {
      assert (a + b)[|a| + i] == b[i];
    }
  }

  /** The records a chunk completes, when it is taken at all. */
  function Completed(s: ParserState, chunk: seq<byte>): Result<seq<Record>, Fault> {
    var appended :- AppendChunk(s, chunk);
    var taken :- Take(appended);
    Ok(taken.0)
  }

  /** Why a chunk stops the capture when the disk works. */
  function ChunkVerdict(bus: uint16, device: uint16, s: ParserState, accounted: nat, chunk: seq<byte>)
    : Option<Failure>
  {
    if chunk == [] then None
    else if accounted + |chunk| > MAX_UINT64 then Some(Framing)
    else
      match Completed(s, chunk)
      case Err(_) => Some(Framing)
      case Ok(records) => FirstRefusal(bus, device, records)
  }

  /** The records of a chunk that are stored when the disk works. */
  function Kept(bus: uint16, device: uint16, s: ParserState, accounted: nat, chunk: seq<byte>): seq<Record> {
    if chunk == [] || accounted + |chunk| > MAX_UINT64 || Completed(s, chunk).Err? then []
    else Accepted(bus, device, Completed(s, chunk).value)
  }

  lemma TakenChunk(bus: uint16, device: uint16, s: ParserState, accounted: nat, chunk: seq<byte>)
    requires chunk != [] && accounted + |chunk| <= MAX_UINT64
    ensures Completed(s, chunk).Err? ==>
              && ChunkVerdict(bus, device, s, accounted, chunk) == Some(Framing)
              && Kept(bus, device, s, accounted, chunk) == []
    ensures Completed(s, chunk).Ok? ==>
              && ChunkVerdict(bus, device, s, accounted, chunk)
                 == FirstRefusal(bus, device, Completed(s, chunk).value)
              && Kept(bus, device, s, accounted, chunk) == Accepted(bus, device, Completed(s, chunk).value)
    ensures Completed(s, chunk).Ok? && FirstRefusal(bus, device, Completed(s, chunk).value).None? ==>
              Accepted(bus, device, Completed(s, chunk).value) == Completed(s, chunk).value
  {
    hide Completed;
    if Completed(s, chunk).Ok? {
      AcceptedIsPrefix(bus, device, Completed(s, chunk).value);
    }
  }

  lemma HeaderStays(s: ParserState)
    requires s.header.Some? && Take(s).Ok?
    ensures Take(s).value.1.header == s.header
  {
    hide ParseRecords;
  }

  // ---------------------------------------------------------------------
  // Observation times
  // ---------------------------------------------------------------------

  function NotBefore(last: Option<int64>): int64 {
    if last.Some? then last.value else 1
  }

  /** The counter value a record is given: never zero or negative, never going back. */
  function Observation(last: Option<int64>, supplied: int64): (qpc: int64)
    ensures qpc >= NotBefore(last)
    ensures qpc >= supplied
  {
    if supplied > NotBefore(last) then supplied else NotBefore(last)
  }

  predicate Adjusted(last: Option<int64>, supplied: int64) {
    supplied <= 0 || (last.Some? && supplied < last.value)
  }

  /** A supplied time is kept exactly when it is not flagged as adjusted. */
  lemma AdjustedIff(last: Option<int64>, supplied: int64)
    requires last.Some? ==> last.value > 0
    ensures Observation(last, supplied) == supplied <==> !Adjusted(last, supplied)
  {
  }

  // ---------------------------------------------------------------------
  // The reports that records yield
  // ---------------------------------------------------------------------

  datatype Endpoint = Endpoint(config: Extraction.Config, identity: Identity)

  /** What the pipeline's constructor demands of the optional endpoint. */
  predicate EndpointMatches(bus: uint16, device: uint16, e: Endpoint) {
    && Extraction.CertifiedEndpoint(e.config)
    && e.config.bus == bus && e.config.device == device
    && Extraction.MatchesIdentity(e.config, e.identity)
  }

  predicate Interpretable(e: Endpoint, packet: Packet) {
    !packet.payloadTruncated && packet.endpoint == e.config.endpoint && packet.transfer == INTERRUPT
  }

  /** The reports of one record, and the extractor's state after it. */
  function Derive(e: Endpoint, s: Extraction.State, r: Record, qpc: int64): (seq<Report>, Extraction.State)
    requires ValidDecoder(e.config.decoder)
  {
    match PacketOf(r)
    case Err(_) => ([], s)
    case Ok(packet) =>
      if !Interpretable(e, packet) then ([], s)
      else
        var processed := Extraction.Process(e.config, s, r, qpc, packet);
        (if processed.0.Ok? then processed.0.value.reports else [], processed.1)
  }

  /** The reports of a list of records, each with the time it was observed. */
  function Interpretation(e: Endpoint, records: seq<Record>, observed: seq<int64>): (seq<Report>, Extraction.State)
    requires ValidDecoder(e.config.decoder) && |observed| == |records|
    decreases |records|
  {
    if records == [] then ([], Extraction.START)
    else
      var k := |records| - 1;
      var before := Interpretation(e, records[..k], observed[..k]);
      var last := Derive(e, before.1, records[k], observed[k]);
      (before.0 + last.0, last.1)
  }

  lemma InterpretationGrows(e: Endpoint, records: seq<Record>, observed: seq<int64>, r: Record, qpc: int64)
    requires ValidDecoder(e.config.decoder) && |observed| == |records|
    ensures var before := Interpretation(e, records, observed);
            var last := Derive(e, before.1, r, qpc);
            Interpretation(e, records + [r], observed + [qpc]) == (before.0 + last.0, last.1)
  {
    hide Derive;
    assert (records + [r])[..|records|] == records;
    assert (observed + [qpc])[..|records|] == observed;
  }

  /** The state of the derived side: the reports and the extractor's state are what the
      stored records yield, and both readers of the report stream accept those reports and
      any that can come next. */
  ghost predicate Interpreted(e: Endpoint, records: seq<Record>, observed: seq<int64>, emitted: seq<Report>,
                              s: Extraction.State, last: Option<int64>)
  {
    && ValidDecoder(e.config.decoder)
    && |observed| == |records|
    && (emitted, s) == Interpretation(e, records, observed)
    && AcceptsRun(e.identity, None, emitted)
    && Inspector.AllPlain(emitted)
    && Extraction.Balanced(s)
    && Extraction.Follows(Last(None, emitted), s.nextSequence, |records|, NotBefore(last))
    && s.nextSequence <= DataBytes(records)
    && (last.Some? ==> last.value > 0)
  }

  lemma InterpretedAtStart(e: Endpoint)
    requires ValidDecoder(e.config.decoder)
    ensures Interpreted(e, [], [], [], Extraction.START, None)
  {
    hide ValidDecoder, AcceptsRun, Inspector.AllPlain, DataBytes, Interpretation;
    Extraction.NothingAccepted(e.identity, None);
    NothingInterpreted(e);
  }

  lemma NothingInterpreted(e: Endpoint)
    requires ValidDecoder(e.config.decoder)
    ensures Interpretation(e, [], []) == ([], Extraction.START) && DataBytes([]) == 0
  {
  }

  lemma FollowsLater(previous: Option<Previous>, sequence: uint64, pcap: nat, qpc: int64, laterPcap: nat,
                     laterQpc: int64)
    requires Extraction.Follows(previous, sequence, pcap, qpc) && pcap <= laterPcap && qpc <= laterQpc
    ensures Extraction.Follows(previous, sequence, laterPcap, laterQpc)
  {
  }

  lemma ObservedLater(e: Endpoint, records: seq<Record>, observed: seq<int64>, emitted: seq<Report>,
                      s: Extraction.State, last: Option<int64>, supplied: int64)
    requires Interpreted(e, records, observed, emitted, s, last)
    ensures Interpreted(e, records, observed, emitted, s, Some(Observation(last, supplied)))
  {
    hide AcceptsRun, Interpretation, Inspector.AllPlain, Extraction.Balanced, Extraction.Follows;
    FollowsLater(Last(None, emitted), s.nextSequence, |records|, NotBefore(last), |records|,
                 Observation(last, supplied));
  }

  lemma RunsJoin(id: Identity, previous: Option<Previous>, a: seq<Report>, b: seq<Report>)
    requires AcceptsRun(id, previous, a) && AcceptsRun(id, Last(previous, a), b)
    ensures AcceptsRun(id, previous, a + b)
    ensures Last(Last(previous, a), b) == Last(previous, a + b)
  {
    hide Accepts;
    forall i | 0 <= i < |a + b|
      ensures Accepts(id, PreviousAt(previous, a + b, i), (a + b)[i])
    {
      if i < |a| {
        assert Accepts(id, PreviousAt(previous, a, i), a[i]);
      } else {
        assert Accepts(id, PreviousAt(Last(previous, a), b, i - |a|), b[i - |a|]);
      }
    }
  }

  /** The part of Derive that the extractor does never fails: its own checks have all been
      made before it is called. */
  lemma ExtractionSucceeds(e: Endpoint, s: Extraction.State, r: Record, qpc: int64, bus: uint16, device: uint16)
    requires ValidDecoder(e.config.decoder) && EndpointMatches(bus, device, e)
    requires Verdict(bus, device, r).None? && r.UnixNanoseconds().Ok? && qpc > 0
    requires Interpretable(e, PacketOf(r).value)
    ensures var processed := Extraction.Process(e.config, s, r, qpc, PacketOf(r).value);
            processed.0.Ok? && (processed.0.value.reports, processed.1) == Derive(e, s, r, qpc)
  {
    hide UsbPcapPacket.Parse, Extraction.Interpret;
  }

  lemma DerivedAccepted(e: Endpoint, s: Extraction.State, r: Record, qpc: int64, bus: uint16, device: uint16,
                        previous: Option<Previous>)
    requires ValidDecoder(e.config.decoder) && EndpointMatches(bus, device, e)
    requires Verdict(bus, device, r).None? && r.UnixNanoseconds().Ok? && qpc > 0
    requires r.sequence < TWO_64 && s.nextSequence + |r.data| < TWO_64
    requires Extraction.Balanced(s)
    requires Extraction.Follows(previous, s.nextSequence, r.sequence, qpc)
    ensures var d := Derive(e, s, r, qpc);
            && AcceptsRun(e.identity, previous, d.0)
            && Inspector.AllPlain(d.0)
            && Extraction.Balanced(d.1)
            && Extraction.Follows(Last(previous, d.0), d.1.nextSequence, r.sequence, qpc)
            && d.1.nextSequence <= s.nextSequence + |r.data|
  {
    hide UsbPcapPacket.Parse, Extraction.Process, AcceptsRun, Inspector.AllPlain, Extraction.Balanced,
         Extraction.Follows, Last;
    Extraction.NothingAccepted(e.identity, previous);
    var packet := PacketOf(r).value;
    AcceptedPacket(r.data, Some(r.originalLength));
    if Interpretable(e, packet) {
      ExtractionSucceeds(e, s, r, qpc, bus, device);
      Extraction.ProcessKeepsBalance(e.config, s, r, qpc, packet);
      Extraction.EmittedAccepted(e.config, s, r, qpc, packet, e.identity, previous);
    }
  }

  /** One accepted record more keeps the derived side in order. */
  lemma InterpretedStep(e: Endpoint, records: seq<Record>, observed: seq<int64>, emitted: seq<Report>,
                        s: Extraction.State, last: Option<int64>, r: Record, bus: uint16, device: uint16)
    requires Interpreted(e, records, observed, emitted, s, last) && last.Some?
    requires EndpointMatches(bus, device, e)
    requires Verdict(bus, device, r).None? && r.UnixNanoseconds().Ok? && r.sequence == |records| < TWO_64
    requires DataBytes(records) + |r.data| < TWO_64
    ensures var d := Derive(e, s, r, last.value);
            && AcceptsRun(e.identity, None, emitted + d.0)
            && Interpreted(e, records + [r], observed + [last.value], emitted + d.0, d.1, last)
  {
    hide Derive, Verdict, AcceptsRun, Interpretation, Inspector.AllPlain, Extraction.Balanced, Extraction.Follows;
    hide Last, EndpointMatches, DataBytes;
    var d := Derive(e, s, r, last.value);
    DerivedAccepted(e, s, r, last.value, bus, device, Last(None, emitted));
    RunsJoin(e.identity, None, emitted, d.0);
    Inspector.AllPlainAppend(emitted, d.0);
    InterpretationGrows(e, records, observed, r, last.value);
    DataBytesGrow(records, r);
    FollowsLater(Last(None, emitted + d.0), d.1.nextSequence, |records|, last.value, |records| + 1, last.value);
  }
}
