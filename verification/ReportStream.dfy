/** The report stream writer and reader (src/capture/ReportStream.cpp). The file is the
    byte sequence `output`; `diskOk` is the operating system's answer to a write. */
module ReportStream {
  import opened Machine
  import opened Binary
  import opened ReportCodec
  import opened ReportReading
  import Crc32

  // ---------------------------------------------------------------------
  // Growing a run and a list of blocks at the end
  // ---------------------------------------------------------------------

  lemma RunGrows(id: Identity, previous: Option<Previous>, reports: seq<Report>, r: Report)
    requires AcceptsRun(id, previous, reports)
    requires Accepts(id, Last(previous, reports), r)
    ensures AcceptsRun(id, previous, reports + [r])
    ensures EncodeRun(id, previous, reports + [r])
         == EncodeRun(id, previous, reports) + EncodeReport(id, Last(previous, reports), r)
    decreases |reports|
  {
    hide Accepts, EncodeReport;
    var grown := reports + [r];
    forall i | 0 <= i < |grown|
      ensures Accepts(id, PreviousAt(previous, grown, i), grown[i])
    {
      if i < |reports| {
        assert Accepts(id, PreviousAt(previous, reports, i), reports[i]);
      }
    }
    RunTail(id, previous, grown);
    if reports == [] {
      assert grown[1..] == [];
      assert EncodeRun(id, Some(Remember(r)), []) == [];
    } else {
      RunTail(id, previous, reports);
      var next := Some(Remember(reports[0]));
      RunGrows(id, next, reports[1..], r);
      assert grown[1..] == reports[1..] + [r];
      Assoc(EncodeReport(id, previous, reports[0]), EncodeRun(id, next, reports[1..]),
            EncodeReport(id, Last(previous, reports), r));
    }
  }

  lemma ConcatGrows(blocks: seq<seq<Report>>, block: seq<Report>)
    ensures Concat(blocks + [block]) == Concat(blocks) + block
  {
    if blocks == [] {
      assert [block][1..] == [];
    } else {
      ConcatGrows(blocks[1..], block);
      assert (blocks + [block])[1..] == blocks[1..] + [block];
      assert blocks[0] + (Concat(blocks[1..]) + block) == blocks[0] + Concat(blocks[1..]) + block;
    }
  }

  lemma LastOfConcat(previous: Option<Previous>, first: seq<Report>, others: seq<Report>)
    ensures Last(Last(previous, first), others) == Last(previous, first + others)
  {
  }

  lemma BlocksGrow(id: Identity, previous: Option<Previous>, blocks: seq<seq<Report>>, block: seq<Report>)
    requires AcceptsBlocks(id, previous, blocks)
    requires 0 < |block| <= MAX_BLOCK_RECORDS
    requires AcceptsRun(id, Last(previous, Concat(blocks)), block)
    requires |EncodeRun(id, Last(previous, Concat(blocks)), block)| <= MAX_BLOCK
    ensures AcceptsBlocks(id, previous, blocks + [block])
    ensures EncodeBlocks(id, previous, blocks + [block])
         == EncodeBlocks(id, previous, blocks)
            + Frame(EncodeRun(id, Last(previous, Concat(blocks)), block), |block|)
    decreases |blocks|
  {
    hide AcceptsRun, EncodeRun, Frame;
    var grown := blocks + [block];
    if blocks == [] {
      assert grown[1..] == [];
    } else {
      LastOfConcat(previous, blocks[0], Concat(blocks[1..]));
      BlocksGrow(id, Last(previous, blocks[0]), blocks[1..], block);
      assert grown[1..] == blocks[1..] + [block];
      Assoc(Frame(EncodeRun(id, previous, blocks[0]), |blocks[0]|),
            EncodeBlocks(id, Last(previous, blocks[0]), blocks[1..]),
            Frame(EncodeRun(id, Last(previous, Concat(blocks)), block), |block|));
    }
  }

  lemma HeaderInFront(id: Identity, a: seq<byte>, b: seq<byte>)
    ensures HeaderFields(id, a) + b == HeaderFields(id, a + b)
  {
    hide LittleEndian, ToUInt64;
    var t9 := id.decoderSpec + a;
    var t8 := id.descriptorEvidence + t9;
    var t7 := id.descriptorSha256 + t8;
    var t6 := LittleEndian(ToUInt64(id.qpcFrequency), 8) + t7;
    var t5 := LittleEndian(|id.decoderSpec|, 4) + t6;
    var t4 := LittleEndian(|id.descriptorEvidence|, 4) + t5;
    var t3 := [id.endpoint, 0] + t4;
    var t2 := LittleEndian(id.device, 2) + t3;
    var t1 := LittleEndian(id.bus, 2) + t2;
    Assoc(MAGIC, LittleEndian(VERSION, 2) + t1, b);
    Assoc(LittleEndian(VERSION, 2), t1, b);
    Assoc(LittleEndian(id.bus, 2), t2, b);
    Assoc(LittleEndian(id.device, 2), t3, b);
    Assoc([id.endpoint, 0], t4, b);
    Assoc(LittleEndian(|id.descriptorEvidence|, 4), t5, b);
    Assoc(LittleEndian(|id.decoderSpec|, 4), t6, b);
    Assoc(LittleEndian(ToUInt64(id.qpcFrequency), 8), t7, b);
    Assoc(id.descriptorSha256, t8, b);
    Assoc(id.descriptorEvidence, t9, b);
    Assoc(id.decoderSpec, a, b);
  }

  /** Writing a block's magic, header and payload extends the file by one block. */
  lemma FlushedFile(id: Identity, blocks: seq<seq<Report>>, block: seq<Report>, header: seq<byte>)
    requires AcceptsBlocks(id, None, blocks)
    requires 0 < |block| <= MAX_BLOCK_RECORDS
    requires AcceptsRun(id, Last(None, Concat(blocks)), block)
    requires var payload := EncodeRun(id, Last(None, Concat(blocks)), block);
             && |payload| <= MAX_BLOCK
             && header == [] + LittleEndian(|payload|, 4) + LittleEndian(|block|, 4)
                          + LittleEndian(Crc32.Checksum(payload), 4)
    ensures AcceptsBlocks(id, None, blocks + [block])
    ensures EncodeFile(id, blocks) + BLOCK_MAGIC + header + EncodeRun(id, Last(None, Concat(blocks)), block)
         == EncodeFile(id, blocks + [block])
    ensures Concat(blocks + [block]) == Concat(blocks) + block
  {
    hide LittleEndian, Crc32.Checksum, EncodeRun, AcceptsRun, HeaderFields;
    BlocksGrow(id, None, blocks, block);
    ConcatGrows(blocks, block);
    var payload := EncodeRun(id, Last(None, Concat(blocks)), block);
    var size, count := LittleEndian(|payload|, 4), LittleEndian(|block|, 4);
    var checksum := LittleEndian(Crc32.Checksum(payload), 4);
    Assoc(size + count, checksum, payload);
    Assoc(size, count, checksum + payload);
    assert header == size + count + checksum;
    assert header + payload == size + (count + (checksum + payload));
    var file := EncodeFile(id, blocks);
    Assoc(file + BLOCK_MAGIC, header, payload);
    Assoc(file, BLOCK_MAGIC, header + payload);
    HeaderInFront(id, EncodeBlocks(id, None, blocks), Frame(payload, |block|));
  }

  // ---------------------------------------------------------------------
  // The writer
  // ---------------------------------------------------------------------

  class ReportStreamWriter {
    const identity: Identity
    const blockRecords: nat
    var output: seq<byte>
    var block: seq<byte>
    var blockCount: nat
    var recordCount: nat
    var previous: Option<Previous>
    var finalized: bool

    /** The blocks already in the file, and the reports encoded in `block`. */
    ghost var blocks: seq<seq<Report>>
    ghost var pending: seq<Report>

    /** The reports successfully appended, in order. */
    ghost function Reports(): seq<Report>
      reads `blocks, `pending
    {
      Concat(blocks) + pending
    }

    /** The state after every step of Append that succeeds so far; the pending block may be
        full or too long. */
    ghost predicate Consistent()
      reads `output, `block, `blockCount, `recordCount, `previous, `blocks, `pending
    {
      && ValidIdentity(identity) && 0 < blockRecords <= MAX_BLOCK_RECORDS
      && AcceptsBlocks(identity, None, blocks)
      && output == EncodeFile(identity, blocks)
      && AcceptsRun(identity, Last(None, Concat(blocks)), pending)
      && block == EncodeRun(identity, Last(None, Concat(blocks)), pending)
      && blockCount == |pending| <= blockRecords
      && recordCount == |Reports()|
      && previous == Last(None, Reports())
      && (previous.Some? ==> previous.value.observedQpc > 0)
    }

    /** What the file and the pending block hold, as long as no append has failed late. */
    ghost predicate Valid()
      reads `output, `block, `blockCount, `recordCount, `previous, `blocks, `pending
    {
      && Consistent()
      && |block| <= MAX_BLOCK
      && blockCount < blockRecords
    }

    constructor (id: Identity, blockRecords: nat)
      requires ValidIdentity(id) && 0 < blockRecords <= MAX_BLOCK_RECORDS
      ensures Valid() && Reports() == [] && !finalized
      ensures identity == id && this.blockRecords == blockRecords
    {
      identity, this.blockRecords := id, blockRecords;
      block, blockCount, recordCount, previous, finalized := [], 0, 0, None, false;
      blocks, pending := [], [];
      new;
      WriteHeader();
    }

    method FixedHeaderBytes(ghost rest: seq<byte>) returns (fixed: seq<byte>)
      ensures fixed + rest == FixedHeader(identity, rest)
    {
      hide LittleEndian, ToUInt64;
      ghost var t6 := LittleEndian(ToUInt64(identity.qpcFrequency), 8) + rest;
      ghost var t5 := LittleEndian(|identity.decoderSpec|, 4) + t6;
      ghost var t4 := LittleEndian(|identity.descriptorEvidence|, 4) + t5;
      ghost var t3 := [identity.endpoint, 0] + t4;
      ghost var t2 := LittleEndian(identity.device, 2) + t3;
      fixed := AppendUnsigned([], VERSION, 2);
      assert [] + LittleEndian(VERSION, 2) == LittleEndian(VERSION, 2);
      Assoc(fixed, LittleEndian(identity.bus, 2), t2);
      fixed := AppendUnsigned(fixed, identity.bus, 2);
      Assoc(fixed, LittleEndian(identity.device, 2), t3);
      fixed := AppendUnsigned(fixed, identity.device, 2);
      Assoc(fixed, [identity.endpoint, 0], t4);
      Assoc(fixed, [identity.endpoint], [0]);
      fixed := fixed + [identity.endpoint];
      fixed := fixed + [0];
      Assoc(fixed, LittleEndian(|identity.descriptorEvidence|, 4), t5);
      fixed := AppendUnsigned(fixed, |identity.descriptorEvidence|, 4);
      Assoc(fixed, LittleEndian(|identity.decoderSpec|, 4), t6);
      fixed := AppendUnsigned(fixed, |identity.decoderSpec|, 4);
      Assoc(fixed, LittleEndian(ToUInt64(identity.qpcFrequency), 8), rest);
      fixed := AppendUnsigned(fixed, ToUInt64(identity.qpcFrequency), 8);
    }

    method WriteHeader()
      modifies `output
      ensures output == HeaderFields(identity, [])
    {
      hide FixedHeader;
      ghost var t9 := identity.decoderSpec + [];
      ghost var t8 := identity.descriptorEvidence + t9;
      ghost var t7 := identity.descriptorSha256 + t8;
      var fixed := FixedHeaderBytes(t7);
      output := MAGIC;
      Assoc(output, fixed, t7);
      output := output + fixed;
      Assoc(output, identity.descriptorSha256, t8);
      output := output + identity.descriptorSha256;
      Assoc(output, identity.descriptorEvidence, t9);
      output := output + identity.descriptorEvidence;
      Assoc(output, identity.decoderSpec, []);
      output := output + identity.decoderSpec;
    }

    method FlushBlock(diskOk: bool) returns (result: Result<(), Fault>)
      requires ValidIdentity(identity) && 0 < blockRecords <= MAX_BLOCK_RECORDS
      requires AcceptsBlocks(identity, None, blocks) && output == EncodeFile(identity, blocks)
      requires AcceptsRun(identity, Last(None, Concat(blocks)), pending)
      requires block == EncodeRun(identity, Last(None, Concat(blocks)), pending) && |block| <= MAX_BLOCK
      requires blockCount == |pending| <= blockRecords
      modifies `output, `block, `blockCount, `blocks, `pending
      ensures result == (if old(blockCount) == 0 || diskOk then Ok(()) else Err(WriteFailed))
      ensures result.Ok? ==>
                && AcceptsBlocks(identity, None, blocks) && output == EncodeFile(identity, blocks)
                && pending == [] && block == [] && blockCount == 0
                && Concat(blocks) == old(Concat(blocks) + pending)
    {
      hide *;
      if blockCount == 0 {
        assert pending == [] && Concat(blocks) + [] == Concat(blocks);
        EmptyRun(identity, Last(None, Concat(blocks)));
        return Ok(());
      }
      if !diskOk {
        return Err(WriteFailed);
      }
      var checksum := Crc32.Compute(block);
      var header := AppendUnsigned([], |block|, 4);
      header := AppendUnsigned(header, blockCount, 4);
      header := AppendUnsigned(header, checksum, 4);
      FlushedFile(identity, blocks, pending, header);
      output := output + BLOCK_MAGIC;
      output := output + header;
      output := output + block;
      blocks, pending := blocks + [pending], [];
      block := [];
      blockCount := 0;
      return Ok(());
    }

    // Append pushes a report's fields in four groups.

    method PushOrder(d: Deltas, report: Report)
      modifies `block
      ensures block == old(block) + OrderFields(d, report, [])
    {
      hide VarUInt, VarInt;
      ghost var t5 := VarInt(d.qpc) + [];
      ghost var t4 := VarInt(d.timestamp) + t5;
      ghost var t3 := VarUInt(report.reportsInTransfer) + t4;
      ghost var t2 := VarUInt(report.indexInTransfer) + t3;
      ghost var t1 := VarUInt(d.pcap) + t2;
      Assoc(block, VarUInt(d.sequence), t1);
      block := AppendVarUInt(block, d.sequence);
      Assoc(block, VarUInt(d.pcap), t2);
      block := AppendVarUInt(block, d.pcap);
      Assoc(block, VarUInt(report.indexInTransfer), t3);
      block := AppendVarUInt(block, report.indexInTransfer);
      Assoc(block, VarUInt(report.reportsInTransfer), t4);
      block := AppendVarUInt(block, report.reportsInTransfer);
      Assoc(block, VarInt(d.timestamp), t5);
      block := AppendVarInt(block, d.timestamp);
      Assoc(block, VarInt(d.qpc), []);
      block := AppendVarInt(block, d.qpc);
    }

    method PushFixed(report: Report)
      modifies `block
      ensures block == old(block) + FixedFields(report, [])
    {
      hide LittleEndian;
      ghost var ids := [report.endpoint, report.transfer, report.info, report.reportId];
      ghost var t5 := ids + [];
      ghost var t4 := LittleEndian(report.device, 2) + t5;
      ghost var t3 := LittleEndian(report.bus, 2) + t4;
      ghost var t2 := LittleEndian(report.urbFunction, 2) + t3;
      ghost var t1 := LittleEndian(report.status, 4) + t2;
      Assoc(block, LittleEndian(report.irpId, 8), t1);
      block := AppendUnsigned(block, report.irpId, 8);
      Assoc(block, LittleEndian(report.status, 4), t2);
      block := AppendUnsigned(block, report.status, 4);
      Assoc(block, LittleEndian(report.urbFunction, 2), t3);
      block := AppendUnsigned(block, report.urbFunction, 2);
      Assoc(block, LittleEndian(report.bus, 2), t4);
      block := AppendUnsigned(block, report.bus, 2);
      Assoc(block, LittleEndian(report.device, 2), t5);
      block := AppendUnsigned(block, report.device, 2);
      Assoc(block + [report.endpoint] + [report.transfer], [report.info], [report.reportId]);
      Assoc(block + [report.endpoint], [report.transfer], [report.info, report.reportId]);
      Assoc(block, [report.endpoint], [report.transfer, report.info, report.reportId]);
      block := block + [report.endpoint];
      block := block + [report.transfer];
      block := block + [report.info];
      block := block + [report.reportId];
    }

    method PushMotion(report: Report)
      modifies `block
      ensures block == old(block) + MotionFields(report, [])
    {
      hide VarInt;
      ghost var t3 := VarInt(report.horizontalWheel) + [];
      ghost var t2 := VarInt(report.wheel) + t3;
      ghost var t1 := VarInt(report.dy) + t2;
      Assoc(block, VarInt(report.dx), t1);
      block := AppendVarInt(block, report.dx);
      Assoc(block, VarInt(report.dy), t2);
      block := AppendVarInt(block, report.dy);
      Assoc(block, VarInt(report.wheel), t3);
      block := AppendVarInt(block, report.wheel);
      Assoc(block, VarInt(report.horizontalWheel), []);
      block := AppendVarInt(block, report.horizontalWheel);
    }

    method PushTail(report: Report)
      requires |report.payload| <= MAX_PAYLOAD
      modifies `block
      ensures block == old(block) + TailFields(report, [])
    {
      hide VarUInt;
      ghost var t3 := report.payload + [];
      ghost var t2 := VarUInt(|report.payload|) + t3;
      ghost var t1 := VarUInt(report.qualityFlags) + t2;
      Assoc(block, VarUInt(report.buttons), t1);
      block := AppendVarUInt(block, report.buttons);
      Assoc(block, VarUInt(report.qualityFlags), t2);
      block := AppendVarUInt(block, report.qualityFlags);
      Assoc(block, VarUInt(|report.payload|), t3);
      block := AppendVarUInt(block, |report.payload|);
      Assoc(block, report.payload, []);
      block := block + report.payload;
    }

    method PushReport(report: Report)
      requires Accepts(identity, previous, report)
      modifies `block
      ensures block == old(block) + EncodeReport(identity, previous, report)
    {
      hide OrderFields, FixedFields, MotionFields, TailFields;
      var d := DeltasOf(identity, previous, report);
      ghost var start := block;
      ghost var tail := TailFields(report, []);
      ghost var motion := MotionFields(report, []);
      ghost var fixed := FixedFields(report, []);
      ghost var order := OrderFields(d, report, []);
      PushOrder(d, report);
      PushFixed(report);
      PushMotion(report);
      PushTail(report);
      MotionFieldsAppend(report, [], tail);
      FixedFieldsAppend(report, [], motion + tail);
      OrderFieldsAppend(d, report, [], fixed + (motion + tail));
      assert [] + tail == tail && [] + (motion + tail) == motion + tail;
      assert [] + (fixed + (motion + tail)) == fixed + (motion + tail);
      Assoc(start + order + fixed, motion, tail);
      Assoc(start + order, fixed, motion + tail);
      Assoc(start, order, fixed + (motion + tail));
    }

    /** Push an accepted report and move the state on past it. */
    method Commit(report: Report)
      requires Consistent() && blockCount < blockRecords
      requires Accepts(identity, previous, report)
      modifies `block, `previous, `recordCount, `blockCount, `pending
      ensures Consistent() && Reports() == old(Reports()) + [report]
      ensures blockCount == old(blockCount) + 1
      ensures block == old(block + EncodeReport(identity, previous, report))
    {
      hide AcceptsBlocks, EncodeFile, AcceptsRun, EncodeRun, EncodeReport, Concat, ValidIdentity;
      LastOfConcat(None, Concat(blocks), pending);
      RunGrows(identity, Last(None, Concat(blocks)), pending, report);
      PushReport(report);
      assert Concat(blocks) + (pending + [report]) == Reports() + [report];
      assert report.observedQpc > 0;
      hide Accepts;
      previous := Some(Remember(report));
      recordCount := recordCount + 1;
      blockCount := blockCount + 1;
      pending := pending + [report];
    }

    /** The reason an append fails once `report` has been pushed, if it does. */
    ghost function PushedFault(report: Report, diskOk: bool): Option<Fault>
      reads this
      requires Accepts(identity, previous, report)
    {
      if |block| + |EncodeReport(identity, previous, report)| > MAX_BLOCK then Some(BlockLimit)
      else if blockCount + 1 >= blockRecords && !diskOk then Some(WriteFailed)
      else None
    }

    /** What an append answers, as a function of the state before it. */
    ghost function AppendOutcome(report: Report, diskOk: bool): Result<(), Fault>
      reads this
      requires TimestampDeltaDefined(previous, report)
      requires previous.Some? ==> previous.value.observedQpc > 0
    {
      var early := EarlyFault(identity, previous, report);
      var late := LateFault(previous, report);
      if finalized then Err(Finalized)
      else if early.Some? then Err(early.value)
      else if late.Some? then Err(late.value)
      else
        match PushedFault(report, diskOk)
        case Some(fault) => Err(fault)
        case None => Ok(())
    }

    /** An append either adds the report or says why not. After a failure that comes later
        than the early checks the writer is unusable, and callers drop it. */
    method Append(report: Report, diskOk: bool) returns (result: Result<(), Fault>)
      requires Valid() && TimestampDeltaDefined(previous, report)
      modifies this
      ensures result == old(AppendOutcome(report, diskOk))
      ensures result.Ok? ==> Valid() && Reports() == old(Reports()) + [report] && !finalized
      ensures old(finalized) || old(EarlyFault(identity, previous, report)).Some? ==> unchanged(this)
    {
      hide AcceptsBlocks, EncodeFile, AcceptsRun, EncodeRun, EncodeReport, Concat, Last;
      if finalized {
        return Err(Finalized);
      }
      var early := EarlyFault(identity, previous, report);
      if early.Some? {
        return Err(early.value);
      }
      var late := LateFault(previous, report);
      if late.Some? {
        block := AppendVarUInt(block, if previous.Some? then report.captureSequence - previous.value.captureSequence
                                      else report.captureSequence);
        return Err(late.value);
      }
      hide EarlyFault, LateFault;
      ghost var pushed := PushedFault(report, diskOk);
      Commit(report);
      if |block| > MAX_BLOCK {
        return Err(BlockLimit);
      }
      if blockCount >= blockRecords {
        result := FlushBlock(diskOk);
        assert result.Ok? ==> Concat(blocks) + [] == Concat(blocks);
        assert result.Ok? ==> AcceptsRun(identity, Last(None, Concat(blocks)), []) by {
          EmptyRun(identity, Last(None, Concat(blocks)));
        }
        if result.Ok? {
          EmptyRun(identity, Last(None, Concat(blocks)));
        }
        return result;
      }
      return Ok(());
    }

    /** Flush the pending block and force the file to disk. From then on the file by itself
        reads back to everything appended so far. */
    method Checkpoint(diskOk: bool) returns (result: Result<(), Fault>)
      requires Valid()
      modifies this
      ensures result == (if diskOk then Ok(()) else Err(WriteFailed))
      ensures result.Ok? ==> Valid() && Reports() == old(Reports()) && pending == [] && finalized == old(finalized)
      ensures result.Ok? ==> ReadFile(output) == Ok((identity, old(Reports())))
    {
      hide AcceptsBlocks, EncodeFile, AcceptsRun, EncodeRun, EncodeReport, Concat, Last, ReadFile;
      result := FlushBlock(diskOk);
      if result.Ok? {
        EmptyRun(identity, Last(None, Concat(blocks)));
        assert Concat(blocks) + [] == Concat(blocks);
        FileReadsBack(identity, blocks);
      }
      return if diskOk then Ok(()) else Err(WriteFailed);
    }

    method Finalize(diskOk: bool) returns (result: Result<(), Fault>)
      requires Valid()
      modifies this
      ensures result == (if old(finalized) then Err(Finalized) else if diskOk then Ok(()) else Err(WriteFailed))
      ensures result.Ok? ==> Valid() && finalized && Reports() == old(Reports()) && pending == []
      ensures result.Ok? ==> ReadFile(output) == Ok((identity, old(Reports())))
    {
      if finalized {
        return Err(Finalized);
      }
      hide *;
      result := Checkpoint(diskOk);
      if result.Err? {
        return result;
      }
      finalized := true;
    }
  }

  // ---------------------------------------------------------------------
  // The reader
  // ---------------------------------------------------------------------

  class ReportStreamReader {
    const identity: Identity
    var rest: seq<byte>
    var block: seq<byte>
    var blockOffset: nat
    var blockRemaining: nat
    var previous: Option<Previous>

    ghost function State(): ReaderState
      reads this
    {
      ReaderState(rest, block, blockOffset, blockRemaining, previous)
    }

    constructor (id: Identity, start: ReaderState)
      ensures identity == id && State() == start
    {
      identity := id;
      rest, block, blockOffset, blockRemaining := start.rest, start.block, start.blockOffset, start.blockRemaining;
      previous := start.previous;
    }

    method LoadBlock() returns (result: Result<(), Fault>)
      modifies `rest, `block, `blockOffset, `blockRemaining
      ensures match ReportReading.LoadBlock(old(State()))
              case Err(fault) => result == Err(fault)
              case Ok(loaded) => result == Ok(()) && State() == loaded
    {
      hide ReadFixed, Crc32.Checksum;
      if rest == [] {
        return Ok(());
      }
      if |rest| < 4 || rest[..4] != BLOCK_MAGIC {
        return Err(BadMagic);
      }
      var size :- ReadUnsigned(rest, 4, 4, true);
      var count :- ReadUnsigned(rest, 8, 4, true);
      var expected :- ReadUnsigned(rest, 12, 4, true);
      if size == 0 || size > MAX_BLOCK || count == 0 || count > MAX_BLOCK_RECORDS {
        return Err(UnsafeLength);
      }
      if |rest| < 16 + size {
        return Err(Truncated);
      }
      var loaded := rest[16..16 + size];
      var checksum := Crc32.Compute(loaded);
      if checksum != expected {
        return Err(ChecksumMismatch);
      }
      block, rest := loaded, rest[16 + size..];
      blockOffset, blockRemaining := 0, count;
      return Ok(());
    }

    method ReadOrder() returns (result: Result<Order, Fault>)
      modifies `blockOffset
      ensures match DecodeOrder(block, old(blockOffset), false)
              case Err(fault) => result == Err(fault)
              case Ok(decoded) => result == Ok(decoded.0) && blockOffset == decoded.1
    {
      hide DecodeVarUInt;
      var sequence :- ReadVarUInt(block, blockOffset);
      blockOffset := sequence.1;
      var pcap :- ReadVarUInt(block, blockOffset);
      blockOffset := pcap.1;
      var index :- ReadVarUInt(block, blockOffset);
      blockOffset := index.1;
      var count :- ReadVarUInt(block, blockOffset);
      blockOffset := count.1;
      var timestamp :- ReadVarInt(block, blockOffset);
      blockOffset := timestamp.1;
      var qpc :- ReadVarInt(block, blockOffset);
      blockOffset := qpc.1;
      return Ok(Order(Deltas(sequence.0, pcap.0, timestamp.0, qpc.0), index.0, count.0));
    }

    method ReadFixedPart() returns (result: Result<FixedPart, Fault>)
      modifies `blockOffset
      ensures match DecodeFixed(block, old(blockOffset))
              case Err(fault) => result == Err(fault)
              case Ok(decoded) => result == Ok(decoded.0) && blockOffset == decoded.1
    {
      hide ReadFixed;
      var irpId :- ReadUnsigned(block, blockOffset, 8, true);
      blockOffset := blockOffset + 8;
      var status :- ReadUnsigned(block, blockOffset, 4, true);
      blockOffset := blockOffset + 4;
      var urbFunction :- ReadUnsigned(block, blockOffset, 2, true);
      blockOffset := blockOffset + 2;
      var bus :- ReadUnsigned(block, blockOffset, 2, true);
      blockOffset := blockOffset + 2;
      var device :- ReadUnsigned(block, blockOffset, 2, true);
      blockOffset := blockOffset + 2;
      if blockOffset + 4 > |block| {
        return Err(Truncated);
      }
      var endpoint, transfer := block[blockOffset], block[blockOffset + 1];
      var info, reportId := block[blockOffset + 2], block[blockOffset + 3];
      blockOffset := blockOffset + 4;
      return Ok(FixedPart(irpId, status, urbFunction, bus, device, endpoint, transfer, info, reportId));
    }

    method ReadMotion() returns (result: Result<Motion, Fault>)
      modifies `blockOffset
      ensures match DecodeMotion(block, old(blockOffset), false)
              case Err(fault) => result == Err(fault)
              case Ok(decoded) => result == Ok(decoded.0) && blockOffset == decoded.1
    {
      hide DecodeVarUInt;
      var dx :- ReadVarInt(block, blockOffset);
      blockOffset := dx.1;
      var dy :- ReadVarInt(block, blockOffset);
      blockOffset := dy.1;
      var wheel :- ReadVarInt(block, blockOffset);
      blockOffset := wheel.1;
      var horizontal :- ReadVarInt(block, blockOffset);
      blockOffset := horizontal.1;
      return Ok(Motion(dx.0, dy.0, wheel.0, horizontal.0));
    }

    method ReadTail() returns (result: Result<TailPart, Fault>)
      modifies `blockOffset
      ensures match DecodeTail(block, old(blockOffset), false)
              case Err(fault) => result == Err(fault)
              case Ok(decoded) => result == Ok(decoded.0) && blockOffset == decoded.1
    {
      hide DecodeVarUInt;
      var buttons :- ReadVarUInt(block, blockOffset);
      blockOffset := buttons.1;
      if buttons.0 > MAX_UINT32 {
        return Err(ValueOverflow);
      }
      var quality :- ReadVarUInt(block, blockOffset);
      blockOffset := quality.1;
      if quality.0 > MAX_UINT32 {
        return Err(ValueOverflow);
      }
      var size :- ReadVarUInt(block, blockOffset);
      blockOffset := size.1;
      if size.0 == 0 || size.0 > MAX_PAYLOAD {
        return Err(UnsafeLength);
      }
      if size.0 > |block| - blockOffset {
        return Err(Truncated);
      }
      var payload := block[blockOffset..blockOffset + size.0];
      blockOffset := blockOffset + size.0;
      return Ok(TailPart(buttons.0, quality.0, payload));
    }

    /** Read and check one report of the loaded block. */
    method ReadReport() returns (result: Result<Report, Fault>)
      modifies `blockOffset
      ensures match DecodeReport(identity, previous, block, old(blockOffset))
              case Err(fault) => result == Err(fault)
              case Ok(decoded) => result == Ok(decoded.0) && blockOffset == decoded.1
    {
      hide DecodeOrder, DecodeFixed, DecodeMotion, DecodeTail, Assemble;
      ghost var start := blockOffset;
      var order :- ReadOrder();
      if !PositionStored(order) {
        return Err(InvalidPosition);
      }
      DecodeFixedBounds(block, blockOffset);
      var fixed :- ReadFixedPart();
      var motion :- ReadMotion();
      if !MotionFits(motion) {
        return Err(ValueOverflow);
      }
      var tail :- ReadTail();
      result := Finish(identity, previous, order, fixed, motion, tail);
    }

    method Next() returns (result: Result<Option<Report>, Fault>)
      modifies this
      ensures match ReportReading.Next(identity, old(State()))
              case Err(fault) => result == Err(fault)
              case Ok(step) => result == Ok(step.0) && State() == step.1
    {
      hide DecodeReport, ReportReading.LoadBlock;
      if blockRemaining == 0 {
        if blockOffset != |block| {
          return Err(TrailingBytes);
        }
        var _ :- LoadBlock();
        if blockRemaining == 0 {
          return Ok(None);
        }
      }
      var report :- ReadReport();
      previous := Some(Remember(report));
      blockRemaining := blockRemaining - 1;
      return Ok(Some(report));
    }
  }

  /** Open a finished file and read it to the end. */
  method ReadReports(file: seq<byte>) returns (result: Result<(Identity, seq<Report>), Fault>)
    ensures result == ReadFile(file)
  {
    hide ReadHeader, Next;
    var header :- ReadHeader(file);
    HeaderLeavesValid(file);
    var reader := new ReportStreamReader(header.0, header.1);
    var reports: seq<Report> := [];
    NothingInFront<Report>();
    while true
      invariant reader.identity == header.0 && reader.State().Valid()
      invariant match ReadAll(header.0, reader.State())
                case Err(fault) => ReadAll(header.0, header.1) == Err(fault)
                case Ok(others) => ReadAll(header.0, header.1) == Ok(reports + others)
      decreases reader.State().Pending()
    {
      NextAdvances(header.0, reader.State());
      var next :- reader.Next();
      if next.None? {
        assert reports + [] == reports;
        return Ok((header.0, reports));
      }
      ItemInFront(reports, next.value);
      reports := reports + [next.value];
    }
  }

  lemma HeaderLeavesValid(file: seq<byte>)
    ensures ReadHeader(file).Ok? ==> ReadHeader(file).value.1.Valid()
  {
  }

  // ---------------------------------------------------------------------
  // Whole runs
  // ---------------------------------------------------------------------

  datatype Operation = AppendReport(report: Report) | TakeCheckpoint

  ghost predicate TimestampDeltasDefined(reports: seq<Report>) {
    forall i :: 0 <= i < |reports| - 1 ==> FitsInt64(reports[i + 1].captureUnixNs - reports[i].captureUnixNs)
  }

  /** Beyond its payload a report takes at most 152 bytes. */
  const OVERHEAD := 152

  lemma ReportLength(id: Identity, previous: Option<Previous>, r: Report)
    requires Accepts(id, previous, r)
    ensures |EncodeReport(id, previous, r)| <= OVERHEAD + |r.payload|
  {
    hide VarUInt, ZigZag;
    var d := DeltasOf(id, previous, r);
    VarUIntLength(d.sequence);
    VarUIntLength(d.pcap);
    VarUIntLength(r.indexInTransfer);
    VarUIntLength(r.reportsInTransfer);
    VarUIntLength(ZigZag(d.timestamp));
    VarUIntLength(ZigZag(d.qpc));
    VarUIntLength(ZigZag(r.dx));
    VarUIntLength(ZigZag(r.dy));
    VarUIntLength(ZigZag(r.wheel));
    VarUIntLength(ZigZag(r.horizontalWheel));
    VarUIntLength(r.buttons);
    VarUIntLength(r.qualityFlags);
    VarUIntLength(|r.payload|);
  }

  /** A bound on a block from a bound on its payloads. */
  lemma {:induction false} RunLength(id: Identity, previous: Option<Previous>, reports: seq<Report>, limit: nat)
    requires AcceptsRun(id, previous, reports)
    requires forall i :: 0 <= i < |reports| ==> |reports[i].payload| <= limit
    ensures |EncodeRun(id, previous, reports)| <= |reports| * (OVERHEAD + limit)
    decreases |reports|
  {
    hide EncodeReport, Accepts;
    if reports != [] {
      RunTail(id, previous, reports);
      ReportLength(id, previous, reports[0]);
      RunLength(id, Some(Remember(reports[0])), reports[1..], limit);
    }
  }

  function Effect(operation: Operation): seq<Report> {
    match operation
    case AppendReport(report) => [report]
    case TakeCheckpoint => []
  }

  /** No report can overfill a block: payloads are bounded, and so is their number. */
  ghost predicate BlocksStaySmall(reports: seq<Report>, blockRecords: nat, limit: nat) {
    && (forall i :: 0 <= i < |reports| ==> |reports[i].payload| <= limit)
    && blockRecords * (OVERHEAD + limit) <= MAX_BLOCK
  }

  lemma Scales(count: nat, records: nat, each: nat)
    requires count <= records
    ensures count * each <= records * each
  {
  }

  lemma BlockStaysSmall(id: Identity, previous: Option<Previous>, flushed: seq<Report>, pending: seq<Report>,
                        report: Report, blockRecords: nat, limit: nat)
    requires AcceptsRun(id, previous, pending) && |pending| < blockRecords
    requires Accepts(id, Last(previous, pending), report)
    requires BlocksStaySmall(flushed + pending + [report], blockRecords, limit)
    ensures |EncodeRun(id, previous, pending)| + |EncodeReport(id, Last(previous, pending), report)| <= MAX_BLOCK
  {
    hide EncodeReport, Accepts, AcceptsRun, EncodeRun, Last;
    var all := flushed + pending + [report];
    forall i | 0 <= i < |pending|
      ensures |pending[i].payload| <= limit
    {
      assert pending[i] == all[|flushed| + i];
    }
    assert all[|all| - 1] == report;
    RunLength(id, previous, pending, limit);
    ReportLength(id, Last(previous, pending), report);
    Scales(|pending| + 1, blockRecords, OVERHEAD + limit);
  }

  lemma PendingStaysSmall(writer: ReportStreamWriter, report: Report, limit: nat)
    requires writer.Valid() && Accepts(writer.identity, writer.previous, report)
    requires BlocksStaySmall(writer.Reports() + [report], writer.blockRecords, limit)
    ensures |writer.block| + |EncodeReport(writer.identity, writer.previous, report)| <= MAX_BLOCK
  {
    hide AcceptsBlocks, EncodeFile, AcceptsRun, EncodeRun, EncodeReport, Last, Accepts, BlocksStaySmall, Concat;
    var flushed := Concat(writer.blocks);
    LastOfConcat(None, flushed, writer.pending);
    BlockStaysSmall(writer.identity, Last(None, flushed), flushed, writer.pending, report, writer.blockRecords, limit);
  }

  method Perform(writer: ReportStreamWriter, operation: Operation, diskOk: bool, ghost limit: nat)
    returns (outcome: Result<(), Fault>)
    requires writer.Valid() && !writer.finalized
    requires operation.AppendReport? ==> TimestampDeltaDefined(Last(None, writer.Reports()), operation.report)
    modifies writer
    ensures outcome.Ok? ==> writer.Valid() && !writer.finalized
    ensures outcome.Ok? ==> writer.Reports() == old(writer.Reports()) + Effect(operation)
    ensures diskOk && BlocksStaySmall(old(writer.Reports()) + Effect(operation), writer.blockRecords, limit)
            && (operation.AppendReport? ==>
                  Accepts(writer.identity, Last(None, old(writer.Reports())), operation.report))
            ==> outcome.Ok?
  {
    match operation {
      case AppendReport(report) =>
        if Accepts(writer.identity, writer.previous, report)
           && BlocksStaySmall(writer.Reports() + [report], writer.blockRecords, limit) {
          PendingStaysSmall(writer, report, limit);
        }
        outcome := writer.Append(report, diskOk);
      case TakeCheckpoint =>
        outcome := writer.Checkpoint(diskOk);
        assert writer.Reports() + [] == writer.Reports();
    }
  }

  function Appended(script: seq<Operation>): seq<Report> {
    if script == [] then [] else Appended(script[..|script| - 1]) + Effect(script[|script| - 1])
  }

  lemma {:induction false} AppendedPrefix(script: seq<Operation>, n: nat)
    requires n <= |script|
    ensures Appended(script[..n]) <= Appended(script)
    decreases |script|
  {
    if n < |script| {
      AppendedPrefix(script[..|script| - 1], n);
      assert script[..|script| - 1][..n] == script[..n];
    } else {
      assert script[..n] == script;
    }
  }

  /** What holds of a whole run holds where its next operation starts. */
  lemma NextOperation(id: Identity, script: seq<Operation>, i: nat, blockRecords: nat, limit: nat)
    requires i < |script|
    ensures Appended(script[..i + 1]) == Appended(script[..i]) + Effect(script[i])
    ensures TimestampDeltasDefined(Appended(script)) && script[i].AppendReport? ==>
              TimestampDeltaDefined(Last(None, Appended(script[..i])), script[i].report)
    ensures AcceptsRun(id, None, Appended(script)) && script[i].AppendReport? ==>
              Accepts(id, Last(None, Appended(script[..i])), script[i].report)
    ensures BlocksStaySmall(Appended(script), blockRecords, limit) ==>
              BlocksStaySmall(Appended(script[..i + 1]), blockRecords, limit)
  {
    hide Accepts;
    var after := script[..i + 1];
    assert after[..|after| - 1] == script[..i];
    AppendedPrefix(script, i + 1);
    var before, all := Appended(script[..i]), Appended(script);
    if script[i].AppendReport? {
      var k := |before|;
      assert all[k] == Appended(after)[k] == script[i].report;
      assert PreviousAt(None, all, k) == Last(None, before);
      if k > 0 && TimestampDeltasDefined(all) {
        assert FitsInt64(all[k - 1 + 1].captureUnixNs - all[k - 1].captureUnixNs);
      }
    }
  }

  /** The constructor's checks in their order: block size, identity, and then the file. */
  method OpenStream(id: Identity, blockRecords: nat, created: bool) returns (result: Result<ReportStreamWriter, Fault>)
    ensures result == Err(InvalidArgument) <==> !(0 < blockRecords <= MAX_BLOCK_RECORDS && ValidIdentity(id))
    ensures result.Err? && result.error != InvalidArgument ==> result.error == WriteFailed && !created
    ensures result.Ok? ==> created && fresh(result.value) && result.value.Valid() && result.value.Reports() == []
    ensures result.Ok? ==>
              result.value.identity == id && result.value.blockRecords == blockRecords && !result.value.finalized
  {
    if blockRecords == 0 || blockRecords > MAX_BLOCK_RECORDS {
      return Err(InvalidArgument);
    }
    if !ValidIdentity(id) {
      return Err(InvalidArgument);
    }
    if !created {
      return Err(WriteFailed);
    }
    var writer := new ReportStreamWriter(id, blockRecords);
    return Ok(writer);
  }

  /** For any identity, any block size and any placement of checkpoints among the appends:
      if no call fails, the finished file reads back to the identity and to exactly the
      reports appended, in order. No call fails when the file can be created, the disk works,
      identity and block size are usable, every report is one the writer accepts and no block
      can be overfilled. */
  method WriteThenRead(id: Identity, blockRecords: nat, script: seq<Operation>, created: bool, diskOk: nat -> bool,
                       ghost limit: nat)
    returns (finished: bool, read: Result<(Identity, seq<Report>), Fault>)
    requires TimestampDeltasDefined(Appended(script))
    ensures finished ==> read == Ok((id, Appended(script)))
    ensures finished ==> created && ValidIdentity(id) && 0 < blockRecords <= MAX_BLOCK_RECORDS
    ensures created && (forall i :: 0 <= i <= |script| ==> diskOk(i)) ==>
            ValidIdentity(id) && 0 < blockRecords <= MAX_BLOCK_RECORDS ==>
            AcceptsRun(id, None, Appended(script)) ==>
            BlocksStaySmall(Appended(script), blockRecords, limit) ==>
              finished
  {
    hide AcceptsRun, BlocksStaySmall, TimestampDeltasDefined, Appended, ReadFile, Accepts, Last, ValidIdentity;
    hide ReportStreamWriter.Valid, ReportStreamWriter.Reports;
    read := Err(WriteFailed);
    var stream := OpenStream(id, blockRecords, created);
    if stream.Err? {
      return false, Err(stream.error);
    }
    var writer := stream.value;
    assert Appended(script[..0]) == [] by { NothingAppended(script[..0]); }
    for i := 0 to |script|
      invariant fresh(writer) && writer.Valid() && writer.identity == id && !writer.finalized
      invariant writer.blockRecords == blockRecords
      invariant writer.Reports() == Appended(script[..i])
    {
      NextOperation(id, script, i, blockRecords, limit);
      var outcome := Perform(writer, script[i], diskOk(i), limit);
      if outcome.Err? {
        return false, read;
      }
    }
    assert script[..|script|] == script;
    var outcome := writer.Finalize(diskOk(|script|));
    if outcome.Err? {
      return false, read;
    }
    finished := true;
    read := ReadReports(writer.output);
  }

  lemma NothingAppended(script: seq<Operation>)
    requires script == []
    ensures Appended(script) == []
  {
  }
}
