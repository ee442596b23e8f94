/** The second reader of report streams (tools/inspect_capture_session.py), written in
    Python, with unbounded integers and stricter checks than the collector's own. */
module Inspector {
  import opened Machine
  import opened Binary
  import opened ReportCodec
  import opened ReportRoundTrip
  import opened ReportReading
  import Crc32

  const MAX_REPORTS := 5_000_000

  /** What the inspector keeps of a report. */
  datatype Seen = Seen(qpc: int64, dx: int32, dy: int32, buttons: uint32)

  function View(r: Report): Seen {
    Seen(r.observedQpc, r.dx, r.dy, r.buttons)
  }

  function Views(reports: seq<Report>): seq<Seen> {
    seq(|reports|, i requires 0 <= i < |reports| => View(reports[i]))
  }

  /** Running totals in Python integers, which do not wrap. */
  datatype Totals = Totals(sequence: int, pcap: int, capture: int, qpc: int)

  function TotalsOf(previous: Option<Previous>): Option<Totals> {
    match previous
    case None => None
    case Some(p) => Some(Totals(p.captureSequence, p.pcapSequence, p.captureUnixNs, p.observedQpc))
  }

  function Advance(previous: Option<Totals>, d: Deltas): Totals {
    match previous
    case None => Totals(d.sequence, d.pcap, d.timestamp, d.qpc)
    case Some(p) => Totals(p.sequence + d.sequence, p.pcap + d.pcap, p.capture + d.timestamp, p.qpc + d.qpc)
  }

  predicate Ordered(previous: Option<Totals>, t: Totals, o: Order) {
    && (previous.Some? ==> t.sequence > previous.value.sequence)
    && (previous.Some? ==> t.pcap >= previous.value.pcap)
    && (previous.Some? ==> t.qpc >= previous.value.qpc)
    && t.qpc > 0 && o.count >= 1 && o.index < o.count
  }

  datatype RawTail = RawTail(buttons: uint64, quality: uint64, size: uint64)

  function DecodeRawTail(block: seq<byte>, offset: nat): Result<(RawTail, nat), Fault> {
    var buttons :- DecodeVarUIntAs(block, offset, true);
    var quality :- DecodeVarUIntAs(block, buttons.1, true);
    var size :- DecodeVarUIntAs(block, quality.1, true);
    Ok((RawTail(buttons.0, quality.0, size.0), size.1))
  }

  /** The checks made once a record has been read, all rejecting alike. */
  predicate Contract(id: Identity, f: FixedPart, m: Motion, t: RawTail, available: int) {
    && FitsInt32(m.dx) && FitsInt32(m.dy)
    && t.buttons <= MAX_UINT32 && t.quality <= 3
    && 1 <= t.size <= MAX_PAYLOAD && t.size <= available
    && f.status == 0 && f.transfer == 1 && f.info == 1
    && f.bus == id.bus && f.device == id.device && f.endpoint == id.endpoint
  }

  /** The body of the record loop in parse_reports. */
  function InspectReport(id: Identity, previous: Option<Totals>, block: seq<byte>, offset: nat)
    : Result<(Seen, Totals, nat), Fault>
  {
    var order :- DecodeOrder(block, offset, true);
    var totals := Advance(previous, order.0.deltas);
    if !Ordered(previous, totals, order.0) then Err(Rejected)
    else
      var fixed :- DecodeFixed(block, order.1);
      var motion :- DecodeMotion(block, fixed.1, true);
      var tail :- DecodeRawTail(block, motion.1);
      if !Contract(id, fixed.0, motion.0, tail.0, |block| - tail.1) then Err(Rejected)
      else if !FitsInt64(totals.qpc) then Err(ValueOverflow)
      else Ok((Seen(totals.qpc, motion.0.dx, motion.0.dy, tail.0.buttons), totals, tail.1 + tail.0.size))
  }

  /** The record loop over one block, with `total` reports already kept. */
  function InspectRun(id: Identity, previous: Option<Totals>, block: seq<byte>, offset: nat, count: nat, total: nat)
    : Result<(seq<Seen>, Option<Totals>), Fault>
    decreases count
  {
    if count == 0 then
      if offset != |block| then Err(TrailingBytes) else Ok(([], previous))
    else
      var first :- InspectReport(id, previous, block, offset);
      if total + 1 > MAX_REPORTS then Err(Rejected)
      else
        var others :- InspectRun(id, Some(first.1), block, first.2, count - 1, total + 1);
        Ok(([first.0] + others.0, others.1))
  }

  /** One block: what it holds, and the bytes after it. */
  function InspectFrame(id: Identity, previous: Option<Totals>, rest: seq<byte>, total: nat)
    : (r: Result<(seq<Seen>, Option<Totals>, seq<byte>), Fault>)
    ensures r.Ok? ==> |r.value.2| < |rest|
  {
    if |rest| < 4 then Err(Truncated)
    else if rest[..4] != BLOCK_MAGIC then Err(Rejected)
    else if |rest| < 16 then Err(Truncated)
    else
      var size := FromLittleEndian(rest[4..8]);
      var count := FromLittleEndian(rest[8..12]);
      var expected := FromLittleEndian(rest[12..16]);
      if size < 1 || size > MAX_BLOCK || count < 1 || count > MAX_BLOCK_RECORDS then Err(Rejected)
      else if |rest| < 16 + size then Err(Truncated)
      else if Crc32.Checksum(rest[16..16 + size]) != expected then Err(Rejected)
      else
        var run :- InspectRun(id, previous, rest[16..16 + size], 0, count, total);
        Ok((run.0, run.1, rest[16 + size..]))
  }

  /** The block loop. */
  function InspectBlocks(id: Identity, previous: Option<Totals>, rest: seq<byte>, total: nat): Result<seq<Seen>, Fault>
    decreases |rest|
  {
    if rest == [] then Ok([])
    else
      var frame :- InspectFrame(id, previous, rest, total);
      var others :- InspectBlocks(id, frame.1, frame.2, total + |frame.0|);
      Ok(frame.0 + others)
  }

  // ---------------------------------------------------------------------
  // Agreement with the writer
  // ---------------------------------------------------------------------

  /** What the inspector asks of a report beyond what the writer asks. */
  predicate Plain(r: Report) {
    r.info == 1 && r.qualityFlags <= 3
  }

  lemma RawTailRoundTrip(r: Report, block: seq<byte>, offset: nat, rest: seq<byte>) returns (end: nat)
    requires 0 < |r.payload| <= MAX_PAYLOAD
    requires offset <= |block| && block[offset..] == TailFields(r, rest)
    ensures DecodeRawTail(block, offset) == Ok((RawTail(r.buttons, r.qualityFlags, |r.payload|), end))
    ensures offset < end && end + |r.payload| <= |block| && block[end + |r.payload|..] == rest
  {
    hide VarUInt, DecodeVarUIntAs;
    var t3 := r.payload + rest;
    var t2 := VarUInt(|r.payload|) + t3;
    var t1 := VarUInt(r.qualityFlags) + t2;
    VarUIntPrefixAs(block, offset, r.buttons, t1, true);
    var o1 := offset + |VarUInt(r.buttons)|;
    VarUIntPrefixAs(block, o1, r.qualityFlags, t2, true);
    var o2 := o1 + |VarUInt(r.qualityFlags)|;
    VarUIntPrefixAs(block, o2, |r.payload|, t3, true);
    end := o2 + |VarUInt(|r.payload|)|;
    Skip(block, end, r.payload, rest);
  }

  /** One stored report: the inspector takes it exactly when it is plain. */
  lemma InspectsOne(id: Identity, previous: Option<Previous>, r: Report, block: seq<byte>, offset: nat, rest: seq<byte>)
    returns (end: nat)
    requires Accepts(id, previous, r)
    requires offset <= |block| && block[offset..] == ReportFields(DeltasOf(id, previous, r), r, rest)
    ensures offset < end <= |block| && block[end..] == rest
    ensures var result := InspectReport(id, TotalsOf(previous), block, offset);
            if Plain(r) then result == Ok((View(r), TotalsOf(Some(Remember(r))).value, end)) else result.Err?
  {
    hide OrderFields, FixedFields, MotionFields, TailFields, DecodeOrder, DecodeFixed, DecodeMotion, DecodeRawTail;
    var d := DeltasOf(id, previous, r);
    var t3 := TailFields(r, rest);
    var t2 := MotionFields(r, t3);
    var o1 := OrderRoundTrip(d, r, block, offset, FixedFields(r, t2), true);
    FixedPartRoundTrip(r, block, o1, t2);
    var o2 := MotionRoundTrip(r, block, o1 + 22, t3, true);
    var o3 := RawTailRoundTrip(r, block, o2, rest);
    end := o3 + |r.payload|;
    assert Advance(TotalsOf(previous), d) == TotalsOf(Some(Remember(r))).value;
  }

  lemma ViewsOfTail(reports: seq<Report>)
    requires reports != []
    ensures Views(reports) == [View(reports[0])] + Views(reports[1..])
  {
  }

  ghost predicate AllPlain(reports: seq<Report>) {
    forall i :: 0 <= i < |reports| ==> Plain(reports[i])
  }

  lemma AllPlainTail(reports: seq<Report>)
    requires reports != []
    ensures AllPlain(reports) <==> Plain(reports[0]) && AllPlain(reports[1..])
  {
    if Plain(reports[0]) && AllPlain(reports[1..]) {
      forall i | 0 <= i < |reports|
        ensures Plain(reports[i])
      {
        if i > 0 {
          assert Plain(reports[1..][i - 1]);
        }
      }
    }
  }

  /** What the inspector makes of a run of reports when `total` came before. */
  ghost predicate Takes(reports: seq<Report>, total: nat) {
    AllPlain(reports) && (reports == [] || total + |reports| <= MAX_REPORTS)
  }

  /** One stored block. */
  lemma {:induction false} InspectsRun(id: Identity, previous: Option<Previous>, reports: seq<Report>,
                                       block: seq<byte>, offset: nat, total: nat)
    requires AcceptsRun(id, previous, reports)
    requires offset <= |block| && block[offset..] == EncodeRun(id, previous, reports)
    ensures var result := InspectRun(id, TotalsOf(previous), block, offset, |reports|, total);
            if Takes(reports, total)
            then result == Ok((Views(reports), TotalsOf(Last(previous, reports))))
            else result.Err?
    decreases |reports|
  {
    hide InspectReport, EncodeReport, ReportFields, Accepts, Plain, DeltasOf;
    if reports != [] {
      RunTail(id, previous, reports);
      var next := Some(Remember(reports[0]));
      var others := EncodeRun(id, next, reports[1..]);
      EncodedInFront(id, previous, reports[0], others);
      var end := InspectsOne(id, previous, reports[0], block, offset, others);
      InspectsRun(id, next, reports[1..], block, end, total + 1);
      ViewsOfTail(reports);
      AllPlainTail(reports);
    } else {
      NoViews(total);
      assert offset == |block|;
    }
  }

  lemma ViewsAppend(a: seq<Report>, b: seq<Report>)
    ensures Views(a + b) == Views(a) + Views(b)
  {
  }

  lemma AllPlainAppend(a: seq<Report>, b: seq<Report>)
    ensures AllPlain(a + b) <==> AllPlain(a) && AllPlain(b)
  {
    hide Plain;
    if AllPlain(a + b) {
      assert forall i :: 0 <= i < |a| ==> a[i] == (a + b)[i];
      forall i | 0 <= i < |b|
        ensures Plain(b[i])
      {
        assert b[i] == (a + b)[|a| + i];
      }
    }
  }

  lemma InspectsFrame(id: Identity, previous: Option<Totals>, payload: seq<byte>, count: nat, rest: seq<byte>,
                      total: nat)
    requires 0 < |payload| <= MAX_BLOCK && 0 < count <= MAX_BLOCK_RECORDS
    ensures InspectFrame(id, previous, Frame(payload, count) + rest, total)
         == (match InspectRun(id, previous, payload, 0, count, total)
             case Err(fault) => Err(fault)
             case Ok(run) => Ok((run.0, run.1, rest)))
    ensures Frame(payload, count) + rest != [] && payload[0..] == payload
  {
    hide Frame, FromLittleEndian, InspectRun, Crc32.Checksum;
    FrameHeader(payload, count, rest);
  }

  lemma TakesAppend(a: seq<Report>, b: seq<Report>, total: nat)
    requires a != []
    ensures Takes(a + b, total) <==> Takes(a, total) && Takes(b, total + |a|)
    ensures Views(a + b) == Views(a) + Views(b) && |Views(a)| == |a|
  {
    hide AllPlain, Views;
    AllPlainAppend(a, b);
    ViewsAppend(a, b);
    ViewsLength(a);
  }

  /** The inspector accepts the blocks of a finished stream exactly when every report is
      plain and there are not too many of them; then it sees every report's observation
      time, motion and buttons, in order. */
  lemma {:induction false} InspectsBlocks(id: Identity, previous: Option<Previous>, blocks: seq<seq<Report>>,
                                          total: nat)
    requires AcceptsBlocks(id, previous, blocks)
    ensures var result := InspectBlocks(id, TotalsOf(previous), EncodeBlocks(id, previous, blocks), total);
            if Takes(Concat(blocks), total) then result == Ok(Views(Concat(blocks))) else result.Err?
    decreases |blocks|
  {
    hide InspectRun, InspectFrame, Frame, AcceptsRun, EncodeRun, AllPlain, Views, TotalsOf, Takes, Last;
    if blocks != [] {
      var payload := EncodeRun(id, previous, blocks[0]);
      var after := Last(previous, blocks[0]);
      var rest := EncodeBlocks(id, after, blocks[1..]);
      EncodedNonEmpty(id, previous, blocks[0]);
      InspectsFrame(id, TotalsOf(previous), payload, |blocks[0]|, rest, total);
      InspectsRun(id, previous, blocks[0], payload, 0, total);
      InspectsBlocks(id, after, blocks[1..], total + |blocks[0]|);
      TakesAppend(blocks[0], Concat(blocks[1..]), total);
    } else {
      NoViews(total);
    }
  }

  // ---------------------------------------------------------------------
  // Whole files
  // ---------------------------------------------------------------------

  /** "abdc.hid.decoder.v1" and a line feed. */
  const SPEC_START: seq<byte> :=
    [0x61, 0x62, 0x64, 0x63, 0x2e, 0x68, 0x69, 0x64, 0x2e, 0x64, 0x65, 0x63, 0x6f, 0x64, 0x65, 0x72, 0x2e, 0x76, 0x31,
     0x0a]

  /** What the session's manifest says, and its descriptor artifact. A field that is missing or
      of another type is None. `sha256` is the hexadecimal digest of some bytes, in ASCII. */
  datatype Session = Session(
    bus: Option<int>,
    device: Option<int>,
    endpoint: Option<int>,
    qpcFrequency: Option<int>,
    descriptorSha256: Option<seq<byte>>,
    decodedReports: Option<int>,
    descriptor: seq<byte>,
    sha256: seq<byte> -> seq<byte>)

  predicate Ascii(text: seq<byte>) {
    forall i :: 0 <= i < |text| ==> text[i] < 0x80
  }

  /** The address and the clock are those of the manifest. */
  predicate Addressed(session: Session, bus: nat, device: nat, endpoint: nat, frequency: nat) {
    && session.bus == Some(bus) && session.device == Some(device) && session.endpoint == Some(endpoint)
    && session.qpcFrequency == Some(frequency)
  }

  /** Digest, descriptor and decoder specification fit together and fit the manifest. */
  predicate Evidenced(session: Session, id: Identity) {
    && session.descriptorSha256 == Some(id.descriptorSha256)
    && session.sha256(id.descriptorEvidence) == id.descriptorSha256
    && id.descriptorEvidence == session.descriptor
    && SPEC_START <= id.decoderSpec && 0 !in id.decoderSpec
  }

  /** The fixed fields after the magic. */
  datatype Leading = Leading(
    bus: uint16,
    device: uint16,
    endpoint: byte,
    evidenceLength: nat,
    specLength: nat,
    frequency: uint64)

  function LeadingOf(session: Session, fields: seq<byte>): Result<Leading, Fault>
    requires |fields| == 24
  {
    Widths();
    FixedBound(fields[2..4], true);
    FixedBound(fields[4..6], true);
    FixedBound(fields[16..24], true);
    var l := Leading(FromLittleEndian(fields[2..4]), FromLittleEndian(fields[4..6]), fields[6],
                     FromLittleEndian(fields[8..12]), FromLittleEndian(fields[12..16]),
                     FromLittleEndian(fields[16..24]));
    if FromLittleEndian(fields[0..2]) != VERSION || fields[7] != 0
       || l.evidenceLength < 1 || l.evidenceLength > MAX_EVIDENCE || l.specLength < 1 || l.specLength > MAX_SPEC
       || !Addressed(session, l.bus, l.device, l.endpoint, l.frequency)
    then Err(Rejected)
    else Ok(l)
  }

  /** The part of parse_reports before the block loop: the identity, and the bytes after it.
      The clock frequency is unsigned here; of the identity only the address is used later. */
  function InspectHeader(session: Session, file: seq<byte>): Result<(Identity, seq<byte>), Fault> {
    if |file| < 8 then Err(Truncated)
    else if file[..8] != MAGIC then Err(Rejected)
    else if |file| < 32 then Err(Truncated)
    else
      var l :- LeadingOf(session, file[8..32]);
      if |file| < 96 then Err(Truncated)
      else if !Ascii(file[32..96]) then Err(Rejected)
      else if |file| < 96 + l.evidenceLength + l.specLength then Err(Truncated)
      else
        var spec := 96 + l.evidenceLength;
        var id := Identity(l.bus, l.device, l.endpoint, file[32..96], file[96..spec], file[spec..spec + l.specLength],
                           WrapInt64(l.frequency));
        if Evidenced(session, id) then Ok((id, file[spec + l.specLength..])) else Err(Rejected)
  }

  /** parse_reports: the header, the blocks, and the count that the manifest promises. */
  function InspectFile(session: Session, file: seq<byte>): Result<seq<Seen>, Fault> {
    var header :- InspectHeader(session, file);
    var seen :- InspectBlocks(header.0, None, header.1, 0);
    if session.decodedReports == Some(|seen|) then Ok(seen) else Err(Rejected)
  }

  /** The manifest is one for a stream of this identity. */
  predicate Certifies(session: Session, id: Identity) {
    && id.qpcFrequency >= 0 && Addressed(session, id.bus, id.device, id.endpoint, id.qpcFrequency)
    && Ascii(id.descriptorSha256) && Evidenced(session, id)
  }

  /** A written header passes exactly when the manifest is one for its identity. */
  lemma HeaderInspected(session: Session, id: Identity, body: seq<byte>)
    requires ValidIdentity(id)
    ensures InspectHeader(session, HeaderFields(id, body))
         == if Certifies(session, id) then Ok((id, body)) else Err(Rejected)
  {
    hide HeaderFields, FromLittleEndian, WrapInt64, Evidenced, Ascii;
    FrequencyKept(id.qpcFrequency);
    HeaderParts(id, body);
    HeaderSlices(HeaderFields(id, body));
  }

  /** With any manifest for its identity and its number of reports, the inspector sees exactly
      these reports in the file. */
  ghost predicate Sees(id: Identity, file: seq<byte>, reports: seq<Report>) {
    forall session: Session :: Certifies(session, id) && session.decodedReports == Some(|reports|) ==>
      InspectFile(session, file) == Ok(Views(reports))
  }

  /** The time, the motion and the buttons. */
  predicate ShowsReport(seen: Seen, r: Report) {
    seen.qpc == r.observedQpc && seen.dx == r.dx && seen.dy == r.dy && seen.buttons == r.buttons
  }

  lemma WhatIsTaken(reports: seq<Report>)
    ensures Takes(reports, 0) <==>
              (forall r: Report :: r in reports ==> r.info == 1 && r.qualityFlags <= 3) && |reports| <= 5_000_000
    ensures forall i :: 0 <= i < |reports| ==> ShowsReport(Views(reports)[i], reports[i])
  {
    assert forall i :: 0 <= i < |reports| ==> reports[i] in reports;
  }

  /** The inspector accepts a finished file exactly when the manifest is one for its identity,
      every report is plain, and there are as many as the manifest says and not too many. */
  lemma FileInspected(session: Session, id: Identity, blocks: seq<seq<Report>>)
    requires ValidIdentity(id) && AcceptsBlocks(id, None, blocks)
    ensures var reports, result := Concat(blocks), InspectFile(session, EncodeFile(id, blocks));
            if Certifies(session, id) && Takes(reports, 0) && session.decodedReports == Some(|reports|)
            then result == Ok(Views(reports))
            else result.Err?
    ensures var reports, result := Concat(blocks), InspectFile(session, EncodeFile(id, blocks));
            && (result.Ok? <==>
                  && Certifies(session, id) && session.decodedReports == Some(|reports|)
                  && (forall r: Report :: r in reports ==> r.info == 1 && r.qualityFlags <= 3)
                  && |reports| <= 5_000_000)
            && (result.Ok? ==>
                  && |result.value| == |reports|
                  && forall i :: 0 <= i < |reports| ==> ShowsReport(result.value[i], reports[i]))
  {
    WhatIsTaken(Concat(blocks));
    hide InspectHeader, InspectBlocks, AcceptsBlocks, EncodeBlocks, Takes, Views, HeaderFields, Certifies;
    InspectsBlocks(id, None, blocks, 0);
    HeaderInspected(session, id, EncodeBlocks(id, None, blocks));
    assert EncodeFile(id, blocks) == HeaderFields(id, EncodeBlocks(id, None, blocks));
    ViewsLength(Concat(blocks));
  }

  lemma FileSeen(id: Identity, blocks: seq<seq<Report>>)
    requires ValidIdentity(id) && AcceptsBlocks(id, None, blocks) && Takes(Concat(blocks), 0)
    ensures Sees(id, EncodeFile(id, blocks), Concat(blocks))
  {
    hide InspectFile, AcceptsBlocks, EncodeFile, Takes, Views, Certifies;
    forall session: Session | Certifies(session, id) && session.decodedReports == Some(|Concat(blocks)|)
      ensures InspectFile(session, EncodeFile(id, blocks)) == Ok(Views(Concat(blocks)))
    {
      FileInspected(session, id, blocks);
    }
  }

  lemma ViewsLength(reports: seq<Report>)
    ensures |Views(reports)| == |reports|
  {
  }

  lemma NoViews(total: nat)
    ensures Views([]) == [] && AllPlain([]) && Takes([], total)
  {
  }

  // ---------------------------------------------------------------------
  // Reading the stream in chunks of any size
  // ---------------------------------------------------------------------

  class ChunkReader {
    var chunks: seq<seq<byte>>
    var buffer: seq<byte>
    var offset: nat
    var eof: bool

    ghost predicate Valid()
      reads this
    {
      offset <= |buffer| && (eof ==> chunks == [])
    }

    /** The bytes not yet returned by Read. */
    ghost function Remaining(): seq<byte>
      reads this
      requires Valid()
    {
      buffer[offset..] + Concat(chunks)
    }

    constructor (chunks: seq<seq<byte>>)
      ensures Valid() && Remaining() == Concat(chunks)
    {
      this.chunks, buffer, offset, eof := chunks, [], 0, false;
    }

    /** Pull chunks until `count` bytes are buffered or the chunks run out. */
    method Fill(count: nat)
      requires Valid()
      modifies this
      ensures Valid() && Remaining() == old(Remaining())
      ensures |buffer| - offset >= count || eof
    {
      while |buffer| - offset < count && !eof
        invariant Valid() && Remaining() == old(Remaining())
        decreases |chunks|, !eof
      {
        if chunks == [] {
          eof := true;
          break;
        }
        ghost var before := buffer[offset..];
        var chunk := chunks[0];
        chunks := chunks[1..];
        if offset > 0 && (offset > 0x10_0000 || offset * 2 > |buffer|) {
          buffer := buffer[offset..];
          offset := 0;
        }
        assert buffer[offset..] == before;
        buffer := buffer + chunk;
        assert buffer[offset..] == before + chunk;
        assert before + (chunk + Concat(chunks)) == (before + chunk) + Concat(chunks);
      }
    }

    /** However the stream was chunked, Read takes the next `count` bytes of it, fails when
        fewer are left, and at its end returns nothing if that is allowed. */
    method Read(count: nat, allowEof: bool) returns (result: Result<seq<byte>, Fault>)
      requires Valid() && count > 0
      modifies this
      ensures Valid()
      ensures var before := old(Remaining());
              if allowEof && before == [] then result == Ok([]) && Remaining() == []
              else if |before| < count then result == Err(Truncated)
              else result == Ok(before[..count]) && Remaining() == before[count..]
    {
      Fill(count);
      hide Concat;
      ghost var before, others := buffer[offset..], Concat(chunks);
      assert eof ==> others == [] by { NoChunks(); }
      if allowEof && |buffer| - offset == 0 && eof {
        return Ok([]);
      }
      if |buffer| - offset < count {
        return Err(Truncated);
      }
      SplitFront(before, others, count);
      var taken := buffer[offset..offset + count];
      assert taken == before[..count];
      offset := offset + count;
      assert buffer[offset..] == before[count..];
      return Ok(taken);
    }

    method Finish() returns (result: Result<(), Fault>)
      requires Valid()
      modifies this
      ensures Valid() && Remaining() == old(Remaining())
      ensures result == if Remaining() == [] then Ok(()) else Err(TrailingBytes)
    {
      Fill(1);
      hide Concat;
      assert eof ==> Concat(chunks) == [] by { NoChunks(); }
      return if |buffer| - offset > 0 then Err(TrailingBytes) else Ok(());
    }
  }

  lemma NoChunks()
    ensures Concat<byte>([]) == []
  {
  }

  lemma SplitFront(a: seq<byte>, b: seq<byte>, count: nat)
    requires count <= |a|
    ensures (a + b)[..count] == a[..count] && (a + b)[count..] == a[count..] + b
  {
  }

  /** One turn of the block loop of parse_reports, after its magic has been read. */
  method ParseFrame(id: Identity, reader: ChunkReader, previous: Option<Totals>, magic: seq<byte>, total: nat)
    returns (result: Result<(seq<Seen>, Option<Totals>), Fault>)
    requires reader.Valid() && |magic| == 4
    modifies reader
    ensures reader.Valid()
    ensures match InspectFrame(id, previous, magic + old(reader.Remaining()), total)
            case Err(fault) => result == Err(fault)
            case Ok(frame) => result == Ok((frame.0, frame.1)) && reader.Remaining() == frame.2
  {
    hide InspectRun, FromLittleEndian, Crc32.Checksum, Concat;
    ghost var rest := magic + reader.Remaining();
    assert rest[..4] == magic;
    if magic != BLOCK_MAGIC {
      return Err(Rejected);
    }
    var header :- reader.Read(12, false);
    assert header == rest[4..16] && reader.Remaining() == rest[16..];
    HeaderFieldsOf(rest);
    var size := ReadAvailable(header, 0, 4, true);
    var count := ReadAvailable(header, 4, 4, true);
    var expected := ReadAvailable(header, 8, 4, true);
    if size < 1 || size > MAX_BLOCK || count < 1 || count > MAX_BLOCK_RECORDS {
      return Err(Rejected);
    }
    var block :- reader.Read(size, false);
    assert block == rest[16..16 + size] && reader.Remaining() == rest[16 + size..];
    var checksum := Crc32.Compute(block);
    if checksum != expected {
      return Err(Rejected);
    }
    result := ParseBlock(id, previous, block, count, total);
  }

  /** The block loop of parse_reports, reading through the chunks. */
  method ParseBlocks(id: Identity, reader: ChunkReader) returns (result: Result<seq<Seen>, Fault>)
    requires reader.Valid()
    modifies reader
    ensures result == InspectBlocks(id, None, old(reader.Remaining()), 0)
    ensures reader.Valid() && (result.Ok? ==> reader.Remaining() == [])
  {
    hide InspectFrame, Concat, ChunkReader.Remaining;
    ghost var whole := InspectBlocks(id, None, reader.Remaining(), 0);
    var seen: seq<Seen> := [];
    var previous: Option<Totals> := None;
    NothingInFront<Seen>();
    while true
      invariant reader.Valid()
      invariant match InspectBlocks(id, previous, reader.Remaining(), |seen|)
                case Err(fault) => whole == Err(fault)
                case Ok(others) => whole == Ok(seen + others)
      decreases |reader.Remaining()|
    {
      ghost var rest := reader.Remaining();
      ShortFrame(id, previous, rest, |seen|);
      var magic :- reader.Read(4, true);
      if magic == [] {
        assert seen + [] == seen;
        return Ok(seen);
      }
      assert magic + reader.Remaining() == rest;
      var frame :- ParseFrame(id, reader, previous, magic, |seen|);
      InFront(seen, frame.0);
      seen := seen + frame.0;
      previous := frame.1;
    }
  }

  method ParseLeading(session: Session, fields: seq<byte>) returns (result: Result<Leading, Fault>)
    requires |fields| == 24
    ensures result == LeadingOf(session, fields)
  {
    hide FromLittleEndian, Addressed;
    Widths();
    FixedBound(fields[2..4], true);
    FixedBound(fields[4..6], true);
    FixedBound(fields[16..24], true);
    var version := ReadAvailable(fields, 0, 2, true);
    var bus := ReadAvailable(fields, 2, 2, true);
    var device := ReadAvailable(fields, 4, 2, true);
    var endpoint, reserved := fields[6], fields[7];
    var evidenceLength := ReadAvailable(fields, 8, 4, true);
    var specLength := ReadAvailable(fields, 12, 4, true);
    var frequency := ReadAvailable(fields, 16, 8, true);
    if version != VERSION || reserved != 0
       || evidenceLength < 1 || evidenceLength > MAX_EVIDENCE || specLength < 1 || specLength > MAX_SPEC
       || !Addressed(session, bus, device, endpoint, frequency) {
      return Err(Rejected);
    }
    return Ok(Leading(bus, device, endpoint, evidenceLength, specLength, frequency));
  }

  /** Reading the header and checking it against the manifest. */
  method ParseHeader(session: Session, reader: ChunkReader) returns (result: Result<Identity, Fault>)
    requires reader.Valid()
    modifies reader
    ensures reader.Valid()
    ensures match InspectHeader(session, old(reader.Remaining()))
            case Err(fault) => result == Err(fault)
            case Ok(header) => result == Ok(header.0) && reader.Remaining() == header.1
  {
    hide ChunkReader.Remaining, LeadingOf, WrapInt64, Ascii, Evidenced;
    ghost var file := reader.Remaining();
    var magic :- reader.Read(8, false);
    if magic != MAGIC {
      return Err(Rejected);
    }
    var fields :- reader.Read(24, false);
    assert fields == file[8..32];
    var l :- ParseLeading(session, fields);
    LeadingLengths(session, fields);
    var sha :- reader.Read(64, false);
    assert sha == file[32..96];
    if !Ascii(sha) {
      return Err(Rejected);
    }
    var evidence :- reader.Read(l.evidenceLength, false);
    assert evidence == file[96..96 + l.evidenceLength];
    var spec :- reader.Read(l.specLength, false);
    assert spec == file[96 + l.evidenceLength..96 + l.evidenceLength + l.specLength];
    var id := Identity(l.bus, l.device, l.endpoint, sha, evidence, spec, WrapInt64(l.frequency));
    return if Evidenced(session, id) then Ok(id) else Err(Rejected);
  }

  lemma LeadingLengths(session: Session, fields: seq<byte>)
    requires |fields| == 24 && LeadingOf(session, fields).Ok?
    ensures var l := LeadingOf(session, fields).value; l.evidenceLength > 0 && l.specLength > 0
  {
  }

  lemma HeaderSlices(file: seq<byte>)
    requires |file| >= 32
    ensures var fields := file[8..32];
            && fields[0..2] == file[8..10] && fields[2..4] == file[10..12] && fields[4..6] == file[12..14]
            && fields[8..12] == file[16..20] && fields[12..16] == file[20..24] && fields[16..24] == file[24..32]
  {
  }

  /** parse_reports as a whole, reading through the chunks. */
  method ParseReports(session: Session, reader: ChunkReader) returns (result: Result<seq<Seen>, Fault>)
    requires reader.Valid()
    modifies reader
    ensures result == InspectFile(session, old(reader.Remaining()))
  {
    hide InspectHeader, InspectBlocks, ChunkReader.Remaining;
    var id :- ParseHeader(session, reader);
    var seen :- ParseBlocks(id, reader);
    // The block loop stops at the end of the stream only, so this finds nothing left.
    var finished := reader.Finish();
    assert finished.Ok?;
    return if session.decodedReports == Some(|seen|) then Ok(seen) else Err(Rejected);
  }

  lemma ShortFrame(id: Identity, previous: Option<Totals>, rest: seq<byte>, total: nat)
    ensures |rest| < 4 ==> InspectFrame(id, previous, rest, total) == Err(Truncated)
  {
  }

  lemma HeaderFieldsOf(rest: seq<byte>)
    requires |rest| >= 16
    ensures rest[4..16][0..4] == rest[4..8]
    ensures rest[4..16][4..8] == rest[8..12]
    ensures rest[4..16][8..12] == rest[12..16]
  {
    SliceOfSlice(rest, 4, 16, 0, 4);
    SliceOfSlice(rest, 4, 16, 4, 8);
    SliceOfSlice(rest, 4, 16, 8, 12);
  }

  /** The record loop of parse_reports over one block. */
  method ParseBlock(id: Identity, start: Option<Totals>, block: seq<byte>, count: nat, total: nat)
    returns (result: Result<(seq<Seen>, Option<Totals>), Fault>)
    ensures result == InspectRun(id, start, block, 0, count, total)
  {
    hide InspectReport;
    ghost var whole := InspectRun(id, start, block, 0, count, total);
    var seen: seq<Seen> := [];
    var offset, previous := 0, start;
    NothingInFront<Seen>();
    for i := 0 to count
      invariant |seen| == i
      invariant match InspectRun(id, previous, block, offset, count - i, total + i)
                case Err(fault) => whole == Err(fault)
                case Ok(others) => whole == Ok((seen + others.0, others.1))
    {
      var record :- InspectReport(id, previous, block, offset);
      ItemInFront(seen, record.0);
      seen := seen + [record.0];
      if total + |seen| > MAX_REPORTS {
        return Err(Rejected);
      }
      offset, previous := record.2, Some(record.1);
    }
    if offset != |block| {
      return Err(TrailingBytes);
    }
    assert seen + [] == seen;
    return Ok((seen, previous));
  }
}
