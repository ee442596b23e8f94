/** The report stream format (src/capture/ReportStream.cpp): what bytes a run of reports
    becomes, and what reports a run of bytes denotes. */
module ReportCodec {
  import opened Machine
  import opened Binary
  import Crc32

  const MAGIC: seq<byte> := [0x41, 0x42, 0x43, 0x52, 0x50, 0x54, 0x32, 0]
  const BLOCK_MAGIC: seq<byte> := [0x52, 0x42, 0x4c, 0x4b]
  const VERSION: uint16 := 2
  const MAX_EVIDENCE := 0x10_0000
  const MAX_SPEC := 0x10_0000
  const MAX_BLOCK := 0x100_0000
  const MAX_BLOCK_RECORDS := 65536
  const MAX_PAYLOAD := 4096

  datatype Identity = Identity(
    bus: uint16,
    device: uint16,
    endpoint: byte,
    descriptorSha256: seq<byte>,
    descriptorEvidence: seq<byte>,
    decoderSpec: seq<byte>,
    qpcFrequency: int64)

  datatype Report = Report(
    captureSequence: uint64,
    pcapSequence: uint64,
    indexInTransfer: uint16,
    reportsInTransfer: uint16,
    captureUnixNs: int64,
    observedQpc: int64,
    irpId: uint64,
    status: uint32,
    urbFunction: uint16,
    bus: uint16,
    device: uint16,
    endpoint: byte,
    transfer: byte,
    info: byte,
    reportId: byte,
    dx: int32,
    dy: int32,
    wheel: int32,
    horizontalWheel: int32,
    buttons: uint32,
    qualityFlags: uint32,
    payload: seq<byte>)

  /** What both sides remember of the report before: deltas are taken against it. */
  datatype Previous = Previous(
    captureSequence: uint64,
    pcapSequence: uint64,
    captureUnixNs: int64,
    observedQpc: int64)

  function Remember(r: Report): Previous {
    Previous(r.captureSequence, r.pcapSequence, r.captureUnixNs, r.observedQpc)
  }

  predicate ValidIdentity(id: Identity) {
    && id.endpoint >= 0x80
    && |id.descriptorSha256| == 64
    && 0 < |id.descriptorEvidence| <= MAX_EVIDENCE
    && 0 < |id.decoderSpec| <= MAX_SPEC
    && id.qpcFrequency > 0
  }

  // ---------------------------------------------------------------------
  // Which reports the writer takes
  // ---------------------------------------------------------------------

  /** The checks made before the first byte of a report is pushed. */
  function EarlyFault(id: Identity, previous: Option<Previous>, r: Report): Option<Fault> {
    if r.bus != id.bus || r.device != id.device || r.endpoint != id.endpoint then
      Some(IdentityMismatch)
    else if r.transfer != 1 || r.info % 2 == 0 || r.endpoint < 0x80 || r.status != 0
            || r.payload == [] || |r.payload| > MAX_PAYLOAD then
      Some(NotSuccessfulCompletion)
    else if previous.Some? && r.captureSequence <= previous.value.captureSequence then
      Some(SequenceRegression)
    else if r.observedQpc <= 0 || (previous.Some? && r.observedQpc < previous.value.observedQpc) then
      Some(ClockRegression)
    else None
  }

  /** The checks made after it, when the pending block is already spoilt. */
  function LateFault(previous: Option<Previous>, r: Report): Option<Fault> {
    if r.reportsInTransfer == 0 || r.indexInTransfer >= r.reportsInTransfer then Some(InvalidPosition)
    else if previous.Some? && r.pcapSequence < previous.value.pcapSequence then Some(PcapSequenceRegression)
    else None
  }

  /** The int64 subtraction of timestamps in Append; overflowing it is undefined in C++. */
  predicate TimestampDeltaDefined(previous: Option<Previous>, r: Report) {
    previous.Some? ==> FitsInt64(r.captureUnixNs - previous.value.captureUnixNs)
  }

  predicate Accepts(id: Identity, previous: Option<Previous>, r: Report) {
    && EarlyFault(id, previous, r).None?
    && LateFault(previous, r).None?
    && TimestampDeltaDefined(previous, r)
    && (previous.Some? ==> previous.value.observedQpc > 0)
  }

  function PreviousAt(previous: Option<Previous>, reports: seq<Report>, i: nat): Option<Previous>
    requires i <= |reports|
  {
    if i == 0 then previous else Some(Remember(reports[i - 1]))
  }

  function Last(previous: Option<Previous>, reports: seq<Report>): Option<Previous> {
    PreviousAt(previous, reports, |reports|)
  }

  ghost predicate AcceptsRun(id: Identity, previous: Option<Previous>, reports: seq<Report>) {
    forall i :: 0 <= i < |reports| ==> Accepts(id, PreviousAt(previous, reports, i), reports[i])
  }

  // ---------------------------------------------------------------------
  // Encoding. Each function puts its fields in front of the bytes that follow.
  // ---------------------------------------------------------------------

  datatype Deltas = Deltas(sequence: uint64, pcap: uint64, timestamp: int64, qpc: int64)

  function DeltasOf(id: Identity, previous: Option<Previous>, r: Report): Deltas
    requires Accepts(id, previous, r)
  {
    match previous
    case None => Deltas(r.captureSequence, r.pcapSequence, r.captureUnixNs, r.observedQpc)
    case Some(p) => Deltas(r.captureSequence - p.captureSequence, r.pcapSequence - p.pcapSequence,
                           r.captureUnixNs - p.captureUnixNs, r.observedQpc - p.observedQpc)
  }

  function OrderFields(d: Deltas, r: Report, rest: seq<byte>): seq<byte> {
    VarUInt(d.sequence) + (VarUInt(d.pcap) + (VarUInt(r.indexInTransfer) + (VarUInt(r.reportsInTransfer)
      + (VarInt(d.timestamp) + (VarInt(d.qpc) + rest)))))
  }

  function FixedFields(r: Report, rest: seq<byte>): seq<byte> {
    LittleEndian(r.irpId, 8) + (LittleEndian(r.status, 4) + (LittleEndian(r.urbFunction, 2)
      + (LittleEndian(r.bus, 2) + (LittleEndian(r.device, 2)
      + ([r.endpoint, r.transfer, r.info, r.reportId] + rest)))))
  }

  function MotionFields(r: Report, rest: seq<byte>): seq<byte> {
    VarInt(r.dx) + (VarInt(r.dy) + (VarInt(r.wheel) + (VarInt(r.horizontalWheel) + rest)))
  }

  function TailFields(r: Report, rest: seq<byte>): seq<byte> {
    VarUInt(r.buttons) + (VarUInt(r.qualityFlags) + (VarUInt(|r.payload|) + (r.payload + rest)))
  }

  function ReportFields(d: Deltas, r: Report, rest: seq<byte>): seq<byte> {
    OrderFields(d, r, FixedFields(r, MotionFields(r, TailFields(r, rest))))
  }

  function EncodeReport(id: Identity, previous: Option<Previous>, r: Report): seq<byte>
    requires Accepts(id, previous, r)
  {
    ReportFields(DeltasOf(id, previous, r), r, [])
  }

  lemma RunTail(id: Identity, previous: Option<Previous>, reports: seq<Report>)
    requires AcceptsRun(id, previous, reports) && reports != []
    ensures Accepts(id, previous, reports[0])
    ensures AcceptsRun(id, Some(Remember(reports[0])), reports[1..])
    ensures Last(Some(Remember(reports[0])), reports[1..]) == Last(previous, reports)
  {
    assert Accepts(id, PreviousAt(previous, reports, 0), reports[0]);
    forall i | 0 <= i < |reports[1..]|
      ensures Accepts(id, PreviousAt(Some(Remember(reports[0])), reports[1..], i), reports[1..][i])
    {
      assert Accepts(id, PreviousAt(previous, reports, i + 1), reports[i + 1]);
    }
  }

  /** The payload of a block holding `reports`. */
  ghost function EncodeRun(id: Identity, previous: Option<Previous>, reports: seq<Report>): seq<byte>
    requires AcceptsRun(id, previous, reports)
    decreases |reports|
  {
    if reports == [] then []
    else
      RunTail(id, previous, reports);
      EncodeReport(id, previous, reports[0]) + EncodeRun(id, Some(Remember(reports[0])), reports[1..])
  }

  function Frame(payload: seq<byte>, count: nat): seq<byte> {
    BLOCK_MAGIC + (LittleEndian(|payload|, 4) + (LittleEndian(count, 4)
      + (LittleEndian(Crc32.Checksum(payload), 4) + payload)))
  }

  function FixedHeader(id: Identity, rest: seq<byte>): seq<byte> {
    LittleEndian(VERSION, 2) + (LittleEndian(id.bus, 2) + (LittleEndian(id.device, 2)
      + ([id.endpoint, 0] + (LittleEndian(|id.descriptorEvidence|, 4) + (LittleEndian(|id.decoderSpec|, 4)
      + (LittleEndian(ToUInt64(id.qpcFrequency), 8) + rest))))))
  }

  function HeaderFields(id: Identity, rest: seq<byte>): seq<byte> {
    MAGIC + FixedHeader(id, id.descriptorSha256 + (id.descriptorEvidence + (id.decoderSpec + rest)))
  }

  /** Blocks whose reports form one accepted run and which respect the size limits. */
  ghost predicate AcceptsBlocks(id: Identity, previous: Option<Previous>, blocks: seq<seq<Report>>)
    decreases |blocks|
  {
    blocks == [] ||
    (&& 0 < |blocks[0]| <= MAX_BLOCK_RECORDS
     && AcceptsRun(id, previous, blocks[0])
     && |EncodeRun(id, previous, blocks[0])| <= MAX_BLOCK
     && AcceptsBlocks(id, Last(previous, blocks[0]), blocks[1..]))
  }

  ghost function EncodeBlocks(id: Identity, previous: Option<Previous>, blocks: seq<seq<Report>>): seq<byte>
    requires AcceptsBlocks(id, previous, blocks)
    decreases |blocks|
  {
    if blocks == [] then []
    else Frame(EncodeRun(id, previous, blocks[0]), |blocks[0]|)
         + EncodeBlocks(id, Last(previous, blocks[0]), blocks[1..])
  }

  // ---------------------------------------------------------------------
  // Decoding
  // ---------------------------------------------------------------------

  datatype Order = Order(deltas: Deltas, index: uint64, count: uint64)

  function DecodeOrder(block: seq<byte>, offset: nat, canonicalOnly: bool): Result<(Order, nat), Fault> {
    var sequence :- DecodeVarUIntAs(block, offset, canonicalOnly);
    var pcap :- DecodeVarUIntAs(block, sequence.1, canonicalOnly);
    var index :- DecodeVarUIntAs(block, pcap.1, canonicalOnly);
    var count :- DecodeVarUIntAs(block, index.1, canonicalOnly);
    var timestamp :- DecodeVarIntAs(block, count.1, canonicalOnly);
    var qpc :- DecodeVarIntAs(block, timestamp.1, canonicalOnly);
    Ok((Order(Deltas(sequence.0, pcap.0, timestamp.0, qpc.0), index.0, count.0), qpc.1))
  }

  datatype FixedPart = FixedPart(irpId: nat, status: nat, urbFunction: nat, bus: nat, device: nat,
                                 endpoint: byte, transfer: byte, info: byte, reportId: byte)

  function DecodeFixed(block: seq<byte>, offset: nat): Result<(FixedPart, nat), Fault> {
    var irpId :- ReadFixed(block, offset, 8, true);
    var status :- ReadFixed(block, offset + 8, 4, true);
    var urbFunction :- ReadFixed(block, offset + 12, 2, true);
    var bus :- ReadFixed(block, offset + 14, 2, true);
    var device :- ReadFixed(block, offset + 16, 2, true);
    if offset + 22 > |block| then Err(Truncated)
    else Ok((FixedPart(irpId, status, urbFunction, bus, device,
                       block[offset + 18], block[offset + 19], block[offset + 20], block[offset + 21]), offset + 22))
  }

  /** Four varints, in the order dx, dy, wheel, horizontal wheel. */
  datatype Motion = Motion(dx: int64, dy: int64, wheel: int64, horizontalWheel: int64)

  predicate FitsInt32(x: int) {
    MIN_INT32 <= x <= MAX_INT32
  }

  predicate MotionFits(m: Motion) {
    FitsInt32(m.dx) && FitsInt32(m.dy) && FitsInt32(m.wheel) && FitsInt32(m.horizontalWheel)
  }

  function DecodeMotion(block: seq<byte>, offset: nat, canonicalOnly: bool): Result<(Motion, nat), Fault> {
    var dx :- DecodeVarIntAs(block, offset, canonicalOnly);
    var dy :- DecodeVarIntAs(block, dx.1, canonicalOnly);
    var wheel :- DecodeVarIntAs(block, dy.1, canonicalOnly);
    var horizontal :- DecodeVarIntAs(block, wheel.1, canonicalOnly);
    Ok((Motion(dx.0, dy.0, wheel.0, horizontal.0), horizontal.1))
  }

  datatype TailPart = TailPart(buttons: uint32, qualityFlags: uint32, payload: seq<byte>)

  function DecodeTail(block: seq<byte>, offset: nat, canonicalOnly: bool): Result<(TailPart, nat), Fault> {
    var buttons :- DecodeVarUIntAs(block, offset, canonicalOnly);
    if buttons.0 > MAX_UINT32 then Err(ValueOverflow)
    else
      var quality :- DecodeVarUIntAs(block, buttons.1, canonicalOnly);
      if quality.0 > MAX_UINT32 then Err(ValueOverflow)
      else
        var size :- DecodeVarUIntAs(block, quality.1, canonicalOnly);
        if size.0 == 0 || size.0 > MAX_PAYLOAD then Err(UnsafeLength)
        else if size.0 > |block| - size.1 then Err(Truncated)
        else Ok((TailPart(buttons.0, quality.0, block[size.1..size.1 + size.0]), size.1 + size.0))
  }

  predicate PositionStored(o: Order) {
    o.index <= MAX_UINT16 && 0 < o.count <= MAX_UINT16 && o.index < o.count
  }

  /** Put a report together from its parts, undoing the deltas in machine arithmetic. */
  function Assemble(previous: Option<Previous>, o: Order, f: FixedPart, m: Motion, t: TailPart): Report
    requires PositionStored(o) && MotionFits(m)
    requires f.irpId <= MAX_UINT64 && f.status <= MAX_UINT32
    requires f.urbFunction <= MAX_UINT16 && f.bus <= MAX_UINT16 && f.device <= MAX_UINT16
  {
    var base := match previous case Some(p) => p case None => Previous(0, 0, 0, 0);
    Report(AddUInt64(base.captureSequence, o.deltas.sequence), AddUInt64(base.pcapSequence, o.deltas.pcap),
           o.index, o.count,
           WrapInt64(base.captureUnixNs + o.deltas.timestamp), WrapInt64(base.observedQpc + o.deltas.qpc),
           f.irpId, f.status, f.urbFunction, f.bus, f.device, f.endpoint, f.transfer, f.info, f.reportId,
           m.dx, m.dy, m.wheel, m.horizontalWheel, t.buttons, t.qualityFlags, t.payload)
  }

  /** The reader's own checks of a complete report. */
  function StoredFault(id: Identity, previous: Option<Previous>, r: Report): Option<Fault> {
    if previous.Some? && r.captureSequence <= previous.value.captureSequence then Some(SequenceRegression)
    else if r.observedQpc <= 0 || (previous.Some? && r.observedQpc < previous.value.observedQpc) then
      Some(ClockRegression)
    else if r.bus != id.bus || r.device != id.device || r.endpoint != id.endpoint
            || r.status != 0 || r.transfer != 1 || r.info % 2 == 0 then Some(IdentityMismatch)
    else None
  }

  lemma DecodeFixedBounds(block: seq<byte>, offset: nat)
    ensures var r := DecodeFixed(block, offset);
            r.Ok? ==>
              var f := r.value.0;
              && f.irpId <= MAX_UINT64 && f.status <= MAX_UINT32
              && f.urbFunction <= MAX_UINT16 && f.bus <= MAX_UINT16 && f.device <= MAX_UINT16
  {
    if DecodeFixed(block, offset).Ok? {
      Widths();
      FixedBound(block[offset..offset + 8], true);
      FixedBound(block[offset + 8..offset + 8 + 4], true);
      FixedBound(block[offset + 12..offset + 12 + 2], true);
      FixedBound(block[offset + 14..offset + 14 + 2], true);
      FixedBound(block[offset + 16..offset + 16 + 2], true);
    }
  }

  /** Assemble the parts and make the reader's checks. */
  function Finish(id: Identity, previous: Option<Previous>, o: Order, f: FixedPart, m: Motion, t: TailPart)
    : Result<Report, Fault>
    requires PositionStored(o) && MotionFits(m)
    requires f.irpId <= MAX_UINT64 && f.status <= MAX_UINT32
    requires f.urbFunction <= MAX_UINT16 && f.bus <= MAX_UINT16 && f.device <= MAX_UINT16
  {
    var report := Assemble(previous, o, f, m, t);
    match StoredFault(id, previous, report)
    case Some(fault) => Err(fault)
    case None => Ok(report)
  }

  /** Next, once a block is loaded: decode one report and check it. */
  function DecodeReport(id: Identity, previous: Option<Previous>, block: seq<byte>, offset: nat)
    : (result: Result<(Report, nat), Fault>)
  {
    var order :- DecodeOrder(block, offset, false);
    if !PositionStored(order.0) then Err(InvalidPosition)
    else
      var fixed :- DecodeFixed(block, order.1);
      var motion :- DecodeMotion(block, fixed.1, false);
      if !MotionFits(motion.0) then Err(ValueOverflow)
      else
        var tail :- DecodeTail(block, motion.1, false);
        DecodeFixedBounds(block, order.1);
        var report :- Finish(id, previous, order.0, fixed.0, motion.0, tail.0);
        Ok((report, tail.1))
  }

  lemma PartsAdvance(block: seq<byte>, offset: nat, canonicalOnly: bool)
    ensures DecodeOrder(block, offset, canonicalOnly).Ok? ==>
              offset < DecodeOrder(block, offset, canonicalOnly).value.1
    ensures DecodeFixed(block, offset).Ok? ==> offset < DecodeFixed(block, offset).value.1
    ensures DecodeMotion(block, offset, canonicalOnly).Ok? ==>
              offset < DecodeMotion(block, offset, canonicalOnly).value.1
    ensures DecodeTail(block, offset, canonicalOnly).Ok? ==>
              offset < DecodeTail(block, offset, canonicalOnly).value.1 <= |block|
  {
    hide DecodeVarUIntAs, DecodeVarIntAs, ReadFixed;
  }

  /** Decoding a report consumes something and stays inside the block. */
  lemma DecodeReportAdvances(id: Identity, previous: Option<Previous>, block: seq<byte>, offset: nat)
    ensures var r := DecodeReport(id, previous, block, offset);
            r.Ok? ==> offset < r.value.1 <= |block|
  {
    hide Finish, DecodeOrder, DecodeFixed, DecodeMotion, DecodeTail;
    PartsAdvance(block, offset, false);
    if DecodeReport(id, previous, block, offset).Ok? {
      var o1 := DecodeOrder(block, offset, false).value.1;
      PartsAdvance(block, o1, false);
      var o2 := DecodeFixed(block, o1).value.1;
      PartsAdvance(block, o2, false);
      PartsAdvance(block, DecodeMotion(block, o2, false).value.1, false);
    }
  }
}
