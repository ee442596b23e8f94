/** Reading a report stream back: every encoding decodes to what was encoded. */
module ReportRoundTrip {
  import opened Machine
  import opened Binary
  import opened ReportCodec

  lemma OrderRoundTrip(d: Deltas, r: Report, block: seq<byte>, offset: nat, rest: seq<byte>,
    canonicalOnly: bool)
    returns (end: nat)
    requires offset <= |block| && block[offset..] == OrderFields(d, r, rest)
    ensures DecodeOrder(block, offset, canonicalOnly) == Ok((Order(d, r.indexInTransfer, r.reportsInTransfer), end))
    ensures offset < end <= |block| && block[end..] == rest
  {
    hide VarUInt, VarInt, DecodeVarUIntAs, DecodeVarIntAs;
    var t5 := VarInt(d.qpc) + rest;
    var t4 := VarInt(d.timestamp) + t5;
    var t3 := VarUInt(r.reportsInTransfer) + t4;
    var t2 := VarUInt(r.indexInTransfer) + t3;
    var t1 := VarUInt(d.pcap) + t2;
    VarUIntPrefixAs(block, offset, d.sequence, t1, canonicalOnly);
    var o1 := offset + |VarUInt(d.sequence)|;
    VarUIntPrefixAs(block, o1, d.pcap, t2, canonicalOnly);
    var o2 := o1 + |VarUInt(d.pcap)|;
    VarUIntPrefixAs(block, o2, r.indexInTransfer, t3, canonicalOnly);
    var o3 := o2 + |VarUInt(r.indexInTransfer)|;
    VarUIntPrefixAs(block, o3, r.reportsInTransfer, t4, canonicalOnly);
    var o4 := o3 + |VarUInt(r.reportsInTransfer)|;
    VarIntPrefixAs(block, o4, d.timestamp, t5, canonicalOnly);
    var o5 := o4 + |VarInt(d.timestamp)|;
    VarIntPrefixAs(block, o5, d.qpc, rest, canonicalOnly);
    end := o5 + |VarInt(d.qpc)|;
  }

  function FixedPartOf(r: Report): FixedPart {
    FixedPart(r.irpId, r.status, r.urbFunction, r.bus, r.device, r.endpoint, r.transfer, r.info, r.reportId)
  }

  lemma FixedPartRoundTrip(r: Report, block: seq<byte>, offset: nat, rest: seq<byte>)
    requires offset <= |block| && block[offset..] == FixedFields(r, rest)
    ensures DecodeFixed(block, offset) == Ok((FixedPartOf(r), offset + 22))
    ensures offset + 22 <= |block| && block[offset + 22..] == rest
  {
    Widths();
    var t5 := [r.endpoint, r.transfer, r.info, r.reportId] + rest;
    var t4 := LittleEndian(r.device, 2) + t5;
    var t3 := LittleEndian(r.bus, 2) + t4;
    var t2 := LittleEndian(r.urbFunction, 2) + t3;
    var t1 := LittleEndian(r.status, 4) + t2;
    ReadFixedPrefix(block, offset, r.irpId, 8, t1);
    ReadFixedPrefix(block, offset + 8, r.status, 4, t2);
    ReadFixedPrefix(block, offset + 12, r.urbFunction, 2, t3);
    ReadFixedPrefix(block, offset + 14, r.bus, 2, t4);
    ReadFixedPrefix(block, offset + 16, r.device, 2, t5);
    var ids := block[offset + 18..];
    assert ids == t5;
    assert block[offset + 18] == ids[0] && block[offset + 19] == ids[1];
    assert block[offset + 20] == ids[2] && block[offset + 21] == ids[3];
    assert block[offset + 22..] == ids[4..] == rest;
  }

  lemma MotionRoundTrip(r: Report, block: seq<byte>, offset: nat, rest: seq<byte>,
    canonicalOnly: bool)
    returns (end: nat)
    requires offset <= |block| && block[offset..] == MotionFields(r, rest)
    ensures DecodeMotion(block, offset, canonicalOnly) == Ok((Motion(r.dx, r.dy, r.wheel, r.horizontalWheel), end))
    ensures offset < end <= |block| && block[end..] == rest
  {
    hide VarUInt, VarInt, DecodeVarUIntAs, DecodeVarIntAs;
    var t3 := VarInt(r.horizontalWheel) + rest;
    var t2 := VarInt(r.wheel) + t3;
    var t1 := VarInt(r.dy) + t2;
    VarIntPrefixAs(block, offset, r.dx, t1, canonicalOnly);
    var o1 := offset + |VarInt(r.dx)|;
    VarIntPrefixAs(block, o1, r.dy, t2, canonicalOnly);
    var o2 := o1 + |VarInt(r.dy)|;
    VarIntPrefixAs(block, o2, r.wheel, t3, canonicalOnly);
    var o3 := o2 + |VarInt(r.wheel)|;
    VarIntPrefixAs(block, o3, r.horizontalWheel, rest, canonicalOnly);
    end := o3 + |VarInt(r.horizontalWheel)|;
  }

  lemma TailRoundTrip(r: Report, block: seq<byte>, offset: nat, rest: seq<byte>,
    canonicalOnly: bool)
    returns (end: nat)
    requires 0 < |r.payload| <= MAX_PAYLOAD
    requires offset <= |block| && block[offset..] == TailFields(r, rest)
    ensures DecodeTail(block, offset, canonicalOnly) == Ok((TailPart(r.buttons, r.qualityFlags, r.payload), end))
    ensures offset < end <= |block| && block[end..] == rest
  {
    hide VarUInt, DecodeVarUIntAs;
    var t3 := r.payload + rest;
    var t2 := VarUInt(|r.payload|) + t3;
    var t1 := VarUInt(r.qualityFlags) + t2;
    VarUIntPrefixAs(block, offset, r.buttons, t1, canonicalOnly);
    var o1 := offset + |VarUInt(r.buttons)|;
    VarUIntPrefixAs(block, o1, r.qualityFlags, t2, canonicalOnly);
    var o2 := o1 + |VarUInt(r.qualityFlags)|;
    VarUIntPrefixAs(block, o2, |r.payload|, t3, canonicalOnly);
    var o3 := o2 + |VarUInt(|r.payload|)|;
    end := o3 + |r.payload|;
    assert |block[o3..]| == |t3|;
    assert block[o3..end] == block[o3..][..|r.payload|] == r.payload;
    assert block[end..] == block[o3..][|r.payload|..] == rest;
  }

  /** Undoing the deltas gives back the report, in wrapping arithmetic as well. */
  lemma AssembleUndoesDeltas(id: Identity, previous: Option<Previous>, r: Report)
    requires Accepts(id, previous, r)
    ensures var d := DeltasOf(id, previous, r);
            var o := Order(d, r.indexInTransfer, r.reportsInTransfer);
            PositionStored(o)
            && Assemble(previous, o, FixedPartOf(r), Motion(r.dx, r.dy, r.wheel, r.horizontalWheel),
                        TailPart(r.buttons, r.qualityFlags, r.payload)) == r
  {
  }

  /** One report, encoded against what came before, is read back exactly, and reading
      stops where it ends. */
  lemma ReportReadsBack(id: Identity, previous: Option<Previous>, r: Report, block: seq<byte>, offset: nat,
                        rest: seq<byte>)
    returns (end: nat)
    requires Accepts(id, previous, r)
    requires offset <= |block| && block[offset..] == ReportFields(DeltasOf(id, previous, r), r, rest)
    ensures DecodeReport(id, previous, block, offset) == Ok((r, end))
    ensures offset < end <= |block| && block[end..] == rest
  {
    hide OrderFields, FixedFields, MotionFields, TailFields, DecodeOrder, DecodeFixed, DecodeMotion, DecodeTail,
         Assemble, DeltasOf;
    var d := DeltasOf(id, previous, r);
    var t3 := TailFields(r, rest);
    var t2 := MotionFields(r, t3);
    var o1 := OrderRoundTrip(d, r, block, offset, FixedFields(r, t2), false);
    FixedPartRoundTrip(r, block, o1, t2);
    var o2 := MotionRoundTrip(r, block, o1 + 22, t3, false);
    end := TailRoundTrip(r, block, o2, rest, false);
    AssembleUndoesDeltas(id, previous, r);
    DecodeFixedBounds(block, o1);
  }
}
