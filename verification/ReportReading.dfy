/** The report stream reader as a function of its state, and the proof that a finished
    stream reads back to the reports it was written from. */
module ReportReading {
  import opened Machine
  import opened Binary
  import opened ReportCodec
  import opened ReportRoundTrip
  import Crc32

  /** `rest` is what the input stream has yet to yield. */
  datatype ReaderState = ReaderState(
    rest: seq<byte>,
    block: seq<byte>,
    blockOffset: nat,
    blockRemaining: nat,
    previous: Option<Previous>)
  {
    predicate Valid() {
      blockOffset <= |block|
    }

    /** Bytes not yet turned into reports. */
    function Pending(): nat
      requires Valid()
    {
      |rest| + |block| - blockOffset
    }
  }

  /** LoadBlock: at the end of the input, leave the state alone. */
  function LoadBlock(s: ReaderState): Result<ReaderState, Fault> {
    if s.rest == [] then Ok(s)
    else if |s.rest| < 4 || s.rest[..4] != BLOCK_MAGIC then Err(BadMagic)
    else
      var size :- ReadFixed(s.rest, 4, 4, true);
      var count :- ReadFixed(s.rest, 8, 4, true);
      var expected :- ReadFixed(s.rest, 12, 4, true);
      if size == 0 || size > MAX_BLOCK || count == 0 || count > MAX_BLOCK_RECORDS then Err(UnsafeLength)
      else if |s.rest| < 16 + size then Err(Truncated)
      else
        var block := s.rest[16..16 + size];
        if Crc32.Checksum(block) != expected then Err(ChecksumMismatch)
        else Ok(s.(rest := s.rest[16 + size..], block := block, blockOffset := 0, blockRemaining := count))
  }

  /** One call of Next: the report read, or None at the end of the stream. */
  function Next(id: Identity, s: ReaderState): Result<(Option<Report>, ReaderState), Fault> {
    if s.blockRemaining == 0 && s.blockOffset != |s.block| then Err(TrailingBytes)
    else
      var loaded :- if s.blockRemaining == 0 then LoadBlock(s) else Ok(s);
      if loaded.blockRemaining == 0 then Ok((None, loaded))
      else
        var read :- DecodeReport(id, loaded.previous, loaded.block, loaded.blockOffset);
        Ok((Some(read.0), loaded.(blockOffset := read.1, blockRemaining := loaded.blockRemaining - 1,
                                  previous := Some(Remember(read.0)))))
  }

  lemma NextAdvances(id: Identity, s: ReaderState)
    requires s.Valid()
    ensures var r := Next(id, s);
            r.Ok? ==> r.value.1.Valid() && (r.value.0.Some? ==> r.value.1.Pending() < s.Pending())
  {
    hide DecodeReport;
    if s.blockRemaining == 0 {
      if s.blockOffset == |s.block| && LoadBlock(s).Ok? {
        var loaded := LoadBlock(s).value;
        DecodeReportAdvances(id, loaded.previous, loaded.block, loaded.blockOffset);
      }
    } else {
      DecodeReportAdvances(id, s.previous, s.block, s.blockOffset);
    }
  }

  /** Call Next until it reports the end of the stream. */
  function ReadAll(id: Identity, s: ReaderState): Result<seq<Report>, Fault>
    requires s.Valid()
    decreases s.Pending()
  {
    NextAdvances(id, s);
    var step :- Next(id, s);
    if step.0.None? then Ok([])
    else
      var others :- ReadAll(id, step.1);
      Ok([step.0.value] + others)
  }

  // ---------------------------------------------------------------------
  // Fields and runs put in front of other bytes
  // ---------------------------------------------------------------------

  lemma OrderFieldsAppend(d: Deltas, r: Report, a: seq<byte>, b: seq<byte>)
    ensures OrderFields(d, r, a) + b == OrderFields(d, r, a + b)
  {
    hide VarUInt, VarInt;
    var t5 := VarInt(d.qpc) + a;
    var t4 := VarInt(d.timestamp) + t5;
    var t3 := VarUInt(r.reportsInTransfer) + t4;
    var t2 := VarUInt(r.indexInTransfer) + t3;
    var t1 := VarUInt(d.pcap) + t2;
    Assoc(VarUInt(d.sequence), t1, b);
    Assoc(VarUInt(d.pcap), t2, b);
    Assoc(VarUInt(r.indexInTransfer), t3, b);
    Assoc(VarUInt(r.reportsInTransfer), t4, b);
    Assoc(VarInt(d.timestamp), t5, b);
    Assoc(VarInt(d.qpc), a, b);
  }

  lemma FixedFieldsAppend(r: Report, a: seq<byte>, b: seq<byte>)
    ensures FixedFields(r, a) + b == FixedFields(r, a + b)
  {
    hide LittleEndian;
    var ids := [r.endpoint, r.transfer, r.info, r.reportId];
    var t5 := ids + a;
    var t4 := LittleEndian(r.device, 2) + t5;
    var t3 := LittleEndian(r.bus, 2) + t4;
    var t2 := LittleEndian(r.urbFunction, 2) + t3;
    var t1 := LittleEndian(r.status, 4) + t2;
    Assoc(LittleEndian(r.irpId, 8), t1, b);
    Assoc(LittleEndian(r.status, 4), t2, b);
    Assoc(LittleEndian(r.urbFunction, 2), t3, b);
    Assoc(LittleEndian(r.bus, 2), t4, b);
    Assoc(LittleEndian(r.device, 2), t5, b);
    Assoc(ids, a, b);
  }

  lemma MotionFieldsAppend(r: Report, a: seq<byte>, b: seq<byte>)
    ensures MotionFields(r, a) + b == MotionFields(r, a + b)
  {
    hide VarInt;
    var t3 := VarInt(r.horizontalWheel) + a;
    var t2 := VarInt(r.wheel) + t3;
    var t1 := VarInt(r.dy) + t2;
    Assoc(VarInt(r.dx), t1, b);
    Assoc(VarInt(r.dy), t2, b);
    Assoc(VarInt(r.wheel), t3, b);
    Assoc(VarInt(r.horizontalWheel), a, b);
  }

  lemma TailFieldsAppend(r: Report, a: seq<byte>, b: seq<byte>)
    ensures TailFields(r, a) + b == TailFields(r, a + b)
  {
    hide VarUInt;
    var t3 := r.payload + a;
    var t2 := VarUInt(|r.payload|) + t3;
    var t1 := VarUInt(r.qualityFlags) + t2;
    Assoc(VarUInt(r.buttons), t1, b);
    Assoc(VarUInt(r.qualityFlags), t2, b);
    Assoc(VarUInt(|r.payload|), t3, b);
    Assoc(r.payload, a, b);
  }

  lemma ReportFieldsAppend(d: Deltas, r: Report, a: seq<byte>, b: seq<byte>)
    ensures ReportFields(d, r, a) + b == ReportFields(d, r, a + b)
  {
    hide OrderFields, FixedFields, MotionFields, TailFields;
    var t3 := TailFields(r, a);
    var t2 := MotionFields(r, t3);
    OrderFieldsAppend(d, r, FixedFields(r, t2), b);
    FixedFieldsAppend(r, t2, b);
    MotionFieldsAppend(r, t3, b);
    TailFieldsAppend(r, a, b);
  }

  /** The bytes of one report in front of `rest`. */
  lemma EncodedInFront(id: Identity, previous: Option<Previous>, r: Report, rest: seq<byte>)
    requires Accepts(id, previous, r)
    ensures EncodeReport(id, previous, r) + rest == ReportFields(DeltasOf(id, previous, r), r, rest)
  {
    hide ReportFields;
    ReportFieldsAppend(DeltasOf(id, previous, r), r, [], rest);
    assert [] + rest == rest;
  }

  // ---------------------------------------------------------------------
  // Whole streams
  // ---------------------------------------------------------------------

  lemma FrameHeader(payload: seq<byte>, count: nat, rest: seq<byte>)
    requires |payload| <= MAX_BLOCK && count <= MAX_BLOCK_RECORDS
    ensures var bytes := Frame(payload, count) + rest;
            && |bytes| == 16 + |payload| + |rest|
            && bytes[..4] == BLOCK_MAGIC
            && ReadFixed(bytes, 4, 4, true) == Ok(|payload|)
            && ReadFixed(bytes, 8, 4, true) == Ok(count)
            && ReadFixed(bytes, 12, 4, true) == Ok(Crc32.Checksum(payload))
            && FromLittleEndian(bytes[4..8]) == |payload|
            && FromLittleEndian(bytes[8..12]) == count
            && FromLittleEndian(bytes[12..16]) == Crc32.Checksum(payload)
            && bytes[16..16 + |payload|] == payload
            && bytes[16 + |payload|..] == rest
  {
    hide LittleEndian, FromLittleEndian, ReadFixed, Crc32.Checksum;
    Widths();
    var bytes := Frame(payload, count) + rest;
    var t3 := payload + rest;
    var t2 := LittleEndian(Crc32.Checksum(payload), 4) + t3;
    var t1 := LittleEndian(count, 4) + t2;
    assert bytes[4..] == LittleEndian(|payload|, 4) + t1;
    ReadFixedPrefix(bytes, 4, |payload|, 4, t1);
    ReadFixedPrefix(bytes, 8, count, 4, t2);
    ReadFixedPrefix(bytes, 12, Crc32.Checksum(payload), 4, t3);
    assert bytes[16..] == t3;
    assert bytes[16..16 + |payload|] == t3[..|payload|];
    assert bytes[16 + |payload|..] == t3[|payload|..];
  }

  /** A framed block loads: magic, lengths, count and checksum all pass. */
  lemma FrameLoads(payload: seq<byte>, count: nat, s: ReaderState, rest: seq<byte>)
    requires 0 < |payload| <= MAX_BLOCK && 0 < count <= MAX_BLOCK_RECORDS
    requires s.rest == Frame(payload, count) + rest
    ensures LoadBlock(s)
         == Ok(s.(rest := rest, block := payload, blockOffset := 0, blockRemaining := count))
  {
    hide ReadFixed, Frame;
    FrameHeader(payload, count, rest);
  }

  lemma EncodedNonEmpty(id: Identity, previous: Option<Previous>, reports: seq<Report>)
    requires AcceptsRun(id, previous, reports) && reports != []
    ensures EncodeRun(id, previous, reports) != []
  {
    RunTail(id, previous, reports);
    assert VarUInt(DeltasOf(id, previous, reports[0]).sequence) != [];
  }

  /** Reading one encoded report leaves the reader in front of the ones after it. */
  lemma ReadsOne(id: Identity, s: ReaderState, reports: seq<Report>) returns (after: ReaderState)
    requires s.Valid() && reports != [] && s.blockRemaining == |reports|
    requires AcceptsRun(id, s.previous, reports)
    requires s.block[s.blockOffset..] == EncodeRun(id, s.previous, reports)
    ensures after.Valid() && Next(id, s) == Ok((Some(reports[0]), after))
    ensures after.rest == s.rest && after.blockRemaining == |reports| - 1
    ensures after.previous == Some(Remember(reports[0])) && AcceptsRun(id, after.previous, reports[1..])
    ensures after.block[after.blockOffset..] == EncodeRun(id, after.previous, reports[1..])
    ensures Last(after.previous, reports[1..]) == Last(s.previous, reports)
  {
    hide DecodeReport, EncodeReport, Accepts, ReportFields, DeltasOf;
    RunTail(id, s.previous, reports);
    var next := Some(Remember(reports[0]));
    var others := EncodeRun(id, next, reports[1..]);
    EncodedInFront(id, s.previous, reports[0], others);
    var end := ReportReadsBack(id, s.previous, reports[0], s.block, s.blockOffset, others);
    after := s.(blockOffset := end, blockRemaining := |reports| - 1, previous := next);
  }

  /** At a block boundary, the next call of Next loads the next block. */
  lemma LoadsNext(id: Identity, s: ReaderState, blocks: seq<seq<Report>>) returns (loaded: ReaderState)
    requires s.Valid() && s.blockRemaining == 0 && s.blockOffset == |s.block|
    requires blocks != [] && AcceptsBlocks(id, s.previous, blocks)
    requires s.rest == EncodeBlocks(id, s.previous, blocks)
    ensures loaded.Valid() && loaded.blockRemaining == |blocks[0]| && loaded.previous == s.previous
    ensures loaded.block[loaded.blockOffset..] == EncodeRun(id, s.previous, blocks[0])
    ensures loaded.rest == EncodeBlocks(id, Last(s.previous, blocks[0]), blocks[1..])
    ensures ReadAll(id, s) == ReadAll(id, loaded)
  {
    hide LoadBlock, Next, Frame, ReadAll, AcceptsRun;
    var payload := EncodeRun(id, s.previous, blocks[0]);
    var rest := EncodeBlocks(id, Last(s.previous, blocks[0]), blocks[1..]);
    hide EncodeRun;
    EncodedNonEmpty(id, s.previous, blocks[0]);
    FrameLoads(payload, |blocks[0]|, s, rest);
    loaded := s.(rest := rest, block := payload, blockOffset := 0, blockRemaining := |blocks[0]|);
    LoadingIsReading(id, s, loaded);
    assert payload[0..] == payload;
  }

  /** A reader inside a block, about to read `reports` and then `blocks`, reads exactly
      those and then the end of the stream. */
  lemma {:induction false} ReadsBack(id: Identity, s: ReaderState, reports: seq<Report>, blocks: seq<seq<Report>>)
    requires s.Valid() && s.blockRemaining == |reports|
    requires AcceptsRun(id, s.previous, reports)
    requires s.block[s.blockOffset..] == EncodeRun(id, s.previous, reports)
    requires AcceptsBlocks(id, Last(s.previous, reports), blocks)
    requires s.rest == EncodeBlocks(id, Last(s.previous, reports), blocks)
    ensures ReadAll(id, s) == Ok(reports + Concat(blocks))
    decreases |blocks|, |reports|
  {
    hide LoadBlock, Next, Frame, AcceptsRun, EncodeRun;
    assert EncodeRun(id, s.previous, []) == [] by { EmptyRun(id, s.previous); }
    if reports != [] {
      var after := ReadsOne(id, s, reports);
      ReadsBack(id, after, reports[1..], blocks);
      assert [reports[0]] + (reports[1..] + Concat(blocks)) == reports + Concat(blocks);
    } else if blocks != [] {
      var loaded := LoadsNext(id, s, blocks);
      ReadsBack(id, loaded, blocks[0], blocks[1..]);
      assert reports + (blocks[0] + Concat(blocks[1..])) == blocks[0] + Concat(blocks[1..]);
    } else {
      EndsAtEmpty(id, s);
    }
  }

  lemma EmptyRun(id: Identity, previous: Option<Previous>)
    ensures AcceptsRun(id, previous, []) && EncodeRun(id, previous, []) == []
  {
  }

  lemma EndsAtEmpty(id: Identity, s: ReaderState)
    requires s.Valid() && s.rest == [] && s.blockRemaining == 0 && s.blockOffset == |s.block|
    ensures ReadAll(id, s) == Ok([])
  {
  }

  /** Reading from a block boundary is reading from the loaded block. */
  lemma LoadingIsReading(id: Identity, s: ReaderState, loaded: ReaderState)
    requires s.Valid() && s.blockRemaining == 0 && s.blockOffset == |s.block|
    requires LoadBlock(s) == Ok(loaded) && loaded.Valid() && loaded.blockRemaining > 0
    ensures ReadAll(id, s) == ReadAll(id, loaded)
  {
    hide DecodeReport, LoadBlock;
    assert Next(id, s) == Next(id, loaded);
  }

  // ---------------------------------------------------------------------
  // The file header
  // ---------------------------------------------------------------------

  /** The reader's constructor: check the header and leave the reader at the first block. */
  function ReadHeader(file: seq<byte>): Result<(Identity, ReaderState), Fault> {
    if |file| < 8 then Err(Truncated)
    else if file[..8] != MAGIC then Err(BadMagic)
    else if |file| < 32 then Err(Truncated)
    else
      Widths();
      FixedBound(file[10..12], true);
      FixedBound(file[12..14], true);
      var version := FromLittleEndian(file[8..10]);
      var bus := FromLittleEndian(file[10..12]);
      var device := FromLittleEndian(file[12..14]);
      var evidence := FromLittleEndian(file[16..20]);
      var spec := FromLittleEndian(file[20..24]);
      var frequency := WrapInt64(FromLittleEndian(file[24..32]));
      if version != VERSION then Err(UnsupportedVersion)
      else if file[15] != 0 then Err(ReservedByte)
      else if evidence == 0 || evidence > MAX_EVIDENCE || spec == 0 || spec > MAX_SPEC then Err(UnsafeLength)
      else if frequency <= 0 then Err(InvalidClock)
      else if |file| < 96 + evidence + spec then Err(Truncated)
      else Ok((Identity(bus, device, file[14], file[32..96], file[96..96 + evidence],
                        file[96 + evidence..96 + evidence + spec], frequency),
               ReaderState(file[96 + evidence + spec..], [], 0, 0, None)))
  }

  lemma Skip(file: seq<byte>, offset: nat, piece: seq<byte>, rest: seq<byte>)
    requires offset <= |file| && file[offset..] == piece + rest
    ensures offset + |piece| <= |file|
    ensures file[offset..offset + |piece|] == piece && file[offset + |piece|..] == rest
  {
    var tail := file[offset..];
    assert |tail| == |file| - offset;
    assert file[offset..offset + |piece|] == tail[..|piece|];
    assert file[offset + |piece|..] == tail[|piece|..];
  }

  /** Where the fields of a written header lie. */
  lemma HeaderParts(id: Identity, body: seq<byte>)
    requires ValidIdentity(id)
    ensures var file := HeaderFields(id, body);
            var evidence, spec := |id.descriptorEvidence|, |id.decoderSpec|;
            && |file| >= 96 + evidence + spec
            && file[..8] == MAGIC && FromLittleEndian(file[8..10]) == VERSION
            && FromLittleEndian(file[10..12]) == id.bus && FromLittleEndian(file[12..14]) == id.device
            && file[14] == id.endpoint && file[15] == 0
            && FromLittleEndian(file[16..20]) == evidence && FromLittleEndian(file[20..24]) == spec
            && FromLittleEndian(file[24..32]) == ToUInt64(id.qpcFrequency)
            && file[32..96] == id.descriptorSha256
            && file[96..96 + evidence] == id.descriptorEvidence
            && file[96 + evidence..96 + evidence + spec] == id.decoderSpec
            && file[96 + evidence + spec..] == body
  {
    hide LittleEndian, FromLittleEndian, ReadFixed, ToUInt64;
    Widths();
    var file := HeaderFields(id, body);
    var t9 := id.decoderSpec + body;
    var t8 := id.descriptorEvidence + t9;
    var t7 := id.descriptorSha256 + t8;
    var t6 := LittleEndian(ToUInt64(id.qpcFrequency), 8) + t7;
    var t5 := LittleEndian(|id.decoderSpec|, 4) + t6;
    var t4 := LittleEndian(|id.descriptorEvidence|, 4) + t5;
    var t3 := [id.endpoint, 0] + t4;
    var t2 := LittleEndian(id.device, 2) + t3;
    var t1 := LittleEndian(id.bus, 2) + t2;
    assert file[0..] == file;
    Skip(file, 0, MAGIC, LittleEndian(VERSION, 2) + t1);
    ReadFixedPrefix(file, 8, VERSION, 2, t1);
    ReadFixedPrefix(file, 10, id.bus, 2, t2);
    ReadFixedPrefix(file, 12, id.device, 2, t3);
    Skip(file, 14, [id.endpoint, 0], t4);
    assert file[14] == file[14..16][0] && file[15] == file[14..16][1];
    ReadFixedPrefix(file, 16, |id.descriptorEvidence|, 4, t5);
    ReadFixedPrefix(file, 20, |id.decoderSpec|, 4, t6);
    ReadFixedPrefix(file, 24, ToUInt64(id.qpcFrequency), 8, t7);
    Skip(file, 32, id.descriptorSha256, t8);
    Skip(file, 96, id.descriptorEvidence, t9);
    Skip(file, 96 + |id.descriptorEvidence|, id.decoderSpec, body);
    assert file[..8] == file[0..8];
  }

  lemma HeaderReadsBack(id: Identity, body: seq<byte>)
    requires ValidIdentity(id)
    ensures ReadHeader(HeaderFields(id, body)) == Ok((id, ReaderState(body, [], 0, 0, None)))
  {
    hide HeaderFields, FromLittleEndian, ToUInt64, WrapInt64;
    FrequencyKept(id.qpcFrequency);
    HeaderParts(id, body);
  }

  lemma FrequencyKept(x: int64)
    ensures WrapInt64(ToUInt64(x)) == x
  {
  }

  /** The bytes of a finished stream. */
  ghost function EncodeFile(id: Identity, blocks: seq<seq<Report>>): seq<byte>
    requires AcceptsBlocks(id, None, blocks)
  {
    HeaderFields(id, EncodeBlocks(id, None, blocks))
  }

  function ReadFile(file: seq<byte>): Result<(Identity, seq<Report>), Fault> {
    var header :- ReadHeader(file);
    var reports :- ReadAll(header.0, header.1);
    Ok((header.0, reports))
  }

  /** However the reports were cut into blocks, the file reads back to its identity and to
      exactly those reports in order, with no reader check failing. */
  lemma FileReadsBack(id: Identity, blocks: seq<seq<Report>>)
    requires ValidIdentity(id) && AcceptsBlocks(id, None, blocks)
    ensures ReadFile(EncodeFile(id, blocks)) == Ok((id, Concat(blocks)))
  {
    hide ReadHeader, HeaderFields, ReadAll;
    var body := EncodeBlocks(id, None, blocks);
    HeaderReadsBack(id, body);
    var start := ReaderState(body, [], 0, 0, None);
    assert AcceptsRun(id, None, []);
    ReadsBack(id, start, [], blocks);
    assert [] + Concat(blocks) == Concat(blocks);
  }

  /** Changing one payload byte of a block is caught by LoadBlock, whatever follows it. */
  lemma CorruptionDetected(payload: seq<byte>, damaged: seq<byte>, count: nat, at: nat, s: ReaderState, rest: seq<byte>)
    requires 0 < |payload| <= MAX_BLOCK && 0 < count <= MAX_BLOCK_RECORDS
    requires |damaged| == |payload| && at < |payload| && damaged[at] != payload[at]
    requires forall i :: 0 <= i < |payload| && i != at ==> damaged[i] == payload[i]
    requires s.rest == Frame(payload, count)[..16] + damaged + rest
    ensures LoadBlock(s) == Err(ChecksumMismatch)
  {
    hide ReadFixed, Crc32.Checksum, Frame;
    Crc32.DetectsOneByte(payload, damaged, at);
    FrameHeader(payload, count, rest);
    var bytes := Frame(payload, count) + rest;
    assert s.rest[..16] == bytes[..16];
    SamePrefixReads(s.rest, bytes, 4);
    SamePrefixReads(s.rest, bytes, 8);
    SamePrefixReads(s.rest, bytes, 12);
    assert s.rest[..4] == bytes[..16][..4];
    assert s.rest[16..16 + |payload|] == damaged;
  }

  lemma SamePrefixReads(a: seq<byte>, b: seq<byte>, offset: nat)
    requires offset <= 12 && |a| >= 16 && |b| >= 16 && a[..16] == b[..16]
    ensures ReadFixed(a, offset, 4, true) == ReadFixed(b, offset, 4, true)
  {
    SliceOfSlice(a, 0, 16, offset, offset + 4);
    SliceOfSlice(b, 0, 16, offset, offset + 4);
    assert a[0..16] == a[..16] && b[0..16] == b[..16];
  }
}
