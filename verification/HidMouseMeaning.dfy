/** What the numbers decoded from a transfer mean, in terms of the fields that the descriptor
    declares (src/capture/HidDescriptor.cpp). */
module HidMouseMeaning {
  import opened Machine
  import opened Bitwise
  import opened HidDescriptor
  import opened HidMouseDecoder

  // ---------------------------------------------------------------------
  // One field
  // ---------------------------------------------------------------------

  /** Bit i of a report: bits are counted from the lowest of the first byte. */
  predicate ReportBit(report: seq<byte>, i: nat)
    requires i / 8 < |report|
  {
    Bit(report[i / 8], i % 8)
  }

  /** The bits of the field are the low ones of the number, in two's complement. */
  predicate Stores(f: Field, report: seq<byte>, value: int)
    requires f.bitOffset + f.bitSize <= 8 * |report|
  {
    forall k: nat :: k < f.bitSize ==> (ReportBit(report, f.bitOffset + k) <==> Bit(value % Pow2(f.bitSize), k))
  }

  /** The numbers that a field of its width can hold: signed if its minimum is negative. */
  predicate Holds(f: Field, value: int)
    requires f.bitSize > 0
  {
    if f.logicalMinimum < 0 then 0 - Pow2(f.bitSize - 1) <= value < Pow2(f.bitSize - 1)
    else 0 <= value < Pow2(f.bitSize)
  }

  lemma FieldBitIs(f: Field, report: seq<byte>, k: nat)
    requires f.bitOffset + f.bitSize <= 8 * |report| && k < f.bitSize
    ensures (f.bitOffset + k) / 8 < |report|
    ensures FieldBits(report, f)[k] <==> ReportBit(report, f.bitOffset + k)
  {
    hide FieldBits, Bits, Bit;
    FieldBitAt(report, f, k);
    BitIs(report[(f.bitOffset + k) / 8], 8, (f.bitOffset + k) % 8);
  }

  lemma StoresIff(f: Field, report: seq<byte>, value: int)
    requires f.bitOffset + f.bitSize <= 8 * |report|
    ensures Stores(f, report, value) <==> FieldBits(report, f) == Bits(value % Pow2(f.bitSize), f.bitSize)
  {
    hide FieldBits, Bits, Bit, ReportBit;
    var stored := Bits(value % Pow2(f.bitSize), f.bitSize);
    FieldBitsLength(f, report);
    forall k: nat | k < f.bitSize
      ensures FieldBits(report, f)[k] <==> ReportBit(report, f.bitOffset + k)
      ensures stored[k] <==> Bit(value % Pow2(f.bitSize), k)
    {
      FieldBitIs(f, report, k);
      BitIs(value % Pow2(f.bitSize), f.bitSize, k);
    }
    if Stores(f, report, value) {
      assert forall k :: 0 <= k < f.bitSize ==> FieldBits(report, f)[k] == stored[k];
    }
  }

  lemma FieldBitsLength(f: Field, report: seq<byte>)
    requires f.bitOffset + f.bitSize <= 8 * |report|
    ensures |FieldBits(report, f)| == f.bitSize
  {
  }

  lemma WrapIs(value: int, p: nat)
    requires p > 0
    ensures 0 <= value < p ==> value % p == value
    ensures 0 - p <= value < 0 ==> value % p == value + p
  {
  }

  lemma NumberOfBits(bits: seq<bool>)
    ensures Value(bits) % Pow2(|bits|) == Value(bits)
    ensures bits != [] ==> SignedValue(bits) % Pow2(|bits|) == Value(bits)
    ensures bits != [] ==> 0 - Pow2(|bits| - 1) <= SignedValue(bits) < Pow2(|bits| - 1)
  {
    hide Value;
    ValueBound(bits);
    WrapIs(Value(bits), Pow2(|bits|));
    if bits != [] {
      TopBitWeight(bits);
      assert Pow2(|bits|) == 2 * Pow2(|bits| - 1);
      WrapIs(SignedValue(bits), Pow2(|bits|));
    }
  }

  /** A field reads as a number if and only if its bits lie in the report and are those of the
      number, and the number can be held, is in the declared range and fits 32 bits. */
  lemma DecodeValueIff(f: Field, report: seq<byte>, value: int32)
    ensures DecodeValue(f, report) == Ok(value) <==>
            && 0 < f.bitSize <= 32 && f.bitOffset + f.bitSize <= 8 * |report|
            && f.logicalMinimum <= value <= f.logicalMaximum
            && Holds(f, value) && Stores(f, report, value)
  {
    hide FieldBits, Bits, Stores, Value, Pow2, SignedValue;
    if 0 < f.bitSize <= 32 && f.bitOffset + f.bitSize <= 8 * |report| {
      var bits := FieldBits(report, f);
      FieldBitsLength(f, report);
      StoresIff(f, report, value);
      NumberOfBits(bits);
      BitsOfValue(bits);
      ValueBound(bits);
      if Holds(f, value) && Stores(f, report, value) {
        StoredNumber(f, report, value);
      }
    }
  }

  lemma StoredNumber(f: Field, report: seq<byte>, value: int)
    requires 0 < f.bitSize <= 32 && f.bitOffset + f.bitSize <= 8 * |report|
    requires Holds(f, value) && FieldBits(report, f) == Bits(value % Pow2(f.bitSize), f.bitSize)
    ensures value == if f.logicalMinimum < 0 then SignedValue(FieldBits(report, f)) else Value(FieldBits(report, f))
  {
    hide FieldBits, Bits, Value, SignedValue;
    assert Pow2(f.bitSize) == 2 * Pow2(f.bitSize - 1);
    WrapIs(value, Pow2(f.bitSize));
    if f.logicalMinimum < 0 {
      SignedRoundTrip(value, f.bitSize);
    } else {
      ValueOfBits(value, f.bitSize);
    }
  }

  // ---------------------------------------------------------------------
  // Which field plays which part
  // ---------------------------------------------------------------------

  predicate HasUsage(f: Field, page: uint16, usage: uint16) {
    f.usagePage == page && f.usage == usage
  }

  lemma {:induction false} SelectFinds(fields: seq<Field>, wanted: Field -> bool, f: Field)
    ensures f in Select(fields, wanted) <==> f in fields && wanted(f)
  {
    if fields != [] {
      SelectFinds(fields[..|fields| - 1], wanted, f);
      assert fields == fields[..|fields| - 1] + [fields[|fields| - 1]];
    }
  }

  lemma UsageFinds(fields: seq<Field>, id: byte, page: uint16, usage: uint16, f: Field)
    ensures f in WithUsage(fields, id, page, usage) <==> f in fields && f.reportId == id && HasUsage(f, page, usage)
  {
    SelectFinds(fields, f => IsUsage(f, id, page, usage), f);
  }

  /** The field, if there is one, is the only one of its report with the usage; and if there is
      none, no field has it. */
  ghost predicate PlaysPart(fields: seq<Field>, id: byte, page: uint16, usage: uint16, part: Option<Field>) {
    forall f: Field :: (f in fields && f.reportId == id && HasUsage(f, page, usage)) <==> part == Some(f)
  }

  lemma PartOf(fields: seq<Field>, id: byte, page: uint16, usage: uint16)
    requires |WithUsage(fields, id, page, usage)| <= 1
    ensures PlaysPart(fields, id, page, usage, FirstOf(WithUsage(fields, id, page, usage)))
  {
    hide WithUsage;
    forall f: Field
      ensures (f in fields && f.reportId == id && HasUsage(f, page, usage))
              <==> FirstOf(WithUsage(fields, id, page, usage)) == Some(f)
    {
      UsageFinds(fields, id, page, usage, f);
    }
  }

  /** A layout of a report of the descriptor. */
  ghost predicate LayoutFits(d: Descriptor, l: Layout) {
    && l.reportId in d.reportBits && l.byteLength == (d.reportBits[l.reportId] as int + 7) / 8
    && PlaysPart(d.fields, l.reportId, 0x01, 0x30, Some(l.x))
    && PlaysPart(d.fields, l.reportId, 0x01, 0x31, Some(l.y))
    && PlaysPart(d.fields, l.reportId, 0x01, 0x38, l.wheel)
    && PlaysPart(d.fields, l.reportId, 0x0c, 0x0238, l.horizontalWheel)
    && forall f: Field ::
         f in l.buttons <==> f in d.fields && f.reportId == l.reportId && f.usagePage == 0x09 && 1 <= f.usage <= 32
  }

  lemma LayoutOfFits(d: Descriptor, id: byte)
    requires id in d.reportBits && LayoutOf(d, id).Ok? && LayoutOf(d, id).value.Some?
    ensures LayoutFits(d, LayoutOf(d, id).value.value)
  {
    hide WithUsage, Buttons, PlaysPart, HasLeftButton;
    PartOf(d.fields, id, 0x01, 0x30);
    PartOf(d.fields, id, 0x01, 0x31);
    PartOf(d.fields, id, 0x01, 0x38);
    PartOf(d.fields, id, 0x0c, 0x0238);
    forall f: Field
      ensures f in Buttons(d.fields, id) <==>
              f in d.fields && f.reportId == id && f.usagePage == 0x09 && 1 <= f.usage <= 32
    {
      ButtonFinds(d.fields, id, f);
    }
  }

  lemma ButtonFinds(fields: seq<Field>, id: byte, f: Field)
    ensures f in Buttons(fields, id) <==>
            f in fields && f.reportId == id && f.usagePage == 0x09 && 1 <= f.usage <= 32
  {
    SelectFinds(fields, f => IsButton(f, id), f);
  }

  lemma {:induction false} LayoutsFit(d: Descriptor, id: nat)
    requires id <= 256 && LayoutsFrom(d, id).Ok?
    ensures forall l :: l in LayoutsFrom(d, id).value ==> LayoutFits(d, l)
    decreases 256 - id
  {
    hide LayoutOf, LayoutFits;
    if id < 256 {
      if id in d.reportBits && LayoutOf(d, id).Ok? && LayoutOf(d, id).value.Some? {
        LayoutOfFits(d, id);
      }
      LayoutsFit(d, id + 1);
    }
  }

  lemma DecoderFits(descriptor: seq<byte>)
    requires DecoderFor(descriptor).Ok?
    ensures Parse(descriptor).Ok?
    ensures forall l :: l in DecoderFor(descriptor).value.layouts ==> LayoutFits(Parse(descriptor).value, l)
  {
    hide Parse, LayoutsFrom, MakeDecoder, LayoutFits;
    var d := Parse(descriptor).value;
    LayoutsFit(d, 0);
    MadeDecoder(RelativeMouseLayouts(d).value);
    var kept, given := DecoderFor(descriptor).value.layouts, RelativeMouseLayouts(d).value;
    forall l | l in kept
      ensures LayoutFits(d, l)
    {
      assert multiset(kept)[l] > 0;
      assert l in given;
    }
  }

  // ---------------------------------------------------------------------
  // Every report of a transfer
  // ---------------------------------------------------------------------

  /** What a decoder built from a descriptor makes of a transfer. */
  function BatchOf(descriptor: seq<byte>, payload: seq<byte>): Result<seq<Decoded>, Fault> {
    var decoder :- DecoderFor(descriptor);
    DecoderForReadable(descriptor);
    DecodeBatch(decoder, payload)
  }

  /** The report is what its layout makes of its bytes. */
  ghost predicate DecodedBy(d: Decoder, r: Decoded)
    requires ValidDecoder(d)
  {
    exists l :: l in d.layouts && l.reportId == r.reportId && |r.payload| == l.byteLength
                && ButtonsInRange(l.buttons) && DecodeOne(l, r.reportId, r.payload) == Ok(r)
                && r.reportId == (if d.usesReportIds then r.payload[0] else 0)
  }

  lemma {:induction false} BatchDecoded(d: Decoder, payload: seq<byte>, offset: nat)
    requires ValidDecoder(d) && offset <= |payload| && DecodeFrom(d, payload, offset).Ok?
    ensures forall r :: r in DecodeFrom(d, payload, offset).value ==> DecodedBy(d, r)
    decreases |payload| - offset
  {
    hide DecodeOne, LayoutFor, DecodedBy;
    if offset < |payload| {
      var id := if d.usesReportIds then payload[offset] else 0;
      LayoutForFinds(d.layouts, id);
      var layout := LayoutFor(d.layouts, id).value;
      var end := offset + layout.byteLength;
      BatchDecoded(d, payload, end);
      OneDecoded(d, layout, id, payload[offset..end]);
    }
  }

  lemma OneDecoded(d: Decoder, l: Layout, id: byte, report: seq<byte>)
    requires ValidDecoder(d) && l in d.layouts && l.reportId == id && |report| == l.byteLength > 0
    requires ButtonsInRange(l.buttons) && id == (if d.usesReportIds then report[0] else 0)
    ensures DecodeOne(l, id, report).Ok? ==> DecodedBy(d, DecodeOne(l, id, report).value)
  {
    hide DecodeValue, PressedMask, MaskValue;
  }

  lemma OneReads(l: Layout, id: byte, report: seq<byte>)
    requires ButtonsInRange(l.buttons) && DecodeOne(l, id, report).Ok?
    ensures var r := DecodeOne(l, id, report).value;
            && DecodeValue(l.x, report) == Ok(r.dx) && DecodeValue(l.y, report) == Ok(r.dy)
            && (if l.wheel.Some? then DecodeValue(l.wheel.value, report) == Ok(r.wheel) else r.wheel == 0)
            && (if l.horizontalWheel.Some? then DecodeValue(l.horizontalWheel.value, report) == Ok(r.horizontalWheel)
                else r.horizontalWheel == 0)
            && PressedMask(l.buttons, report).Ok? && r.buttons == MaskValue(PressedMask(l.buttons, report).value)
  {
    hide DecodeValue, PressedMask, MaskValue;
  }

  /** The number decoded for a usage is the reading of the one field that has it, or 0 if the
      report has none. */
  ghost predicate ReadsAs(fields: seq<Field>, r: Decoded, page: uint16, usage: uint16, value: int32) {
    && (forall f: Field :: f in fields && f.reportId == r.reportId && HasUsage(f, page, usage) ==>
          DecodeValue(f, r.payload) == Ok(value))
    && ((forall f: Field :: f in fields && f.reportId == r.reportId ==> !HasUsage(f, page, usage)) ==> value == 0)
  }

  lemma PartReads(fields: seq<Field>, r: Decoded, page: uint16, usage: uint16, part: Option<Field>, value: int32)
    requires PlaysPart(fields, r.reportId, page, usage, part)
    requires if part.Some? then DecodeValue(part.value, r.payload) == Ok(value) else value == 0
    ensures ReadsAs(fields, r, page, usage, value)
  {
    hide DecodeValue, HasUsage;
    if part.Some? {
      assert part == Some(part.value);
    }
  }

  /** A button of the report that is pressed. */
  predicate Presses(f: Field, r: Decoded, button: nat) {
    && f.reportId == r.reportId && f.usagePage == 0x09 && f.usage == button
    && ExtractBits(r.payload, f).Ok? && ExtractBits(r.payload, f).value != 0
  }

  lemma MaskBit(mask: Mask, k: nat)
    requires k < 32
    ensures mask[k] <==> Bit(MaskValue(mask), k)
  {
    hide Value, Bits, Bit;
    BitsOfValue(mask);
    BitIs(Value(mask), 32, k);
  }

  lemma ButtonsRead(fields: seq<Field>, buttons: seq<Field>, r: Decoded, k: nat)
    requires ButtonsInRange(buttons) && k < 32
    requires forall f: Field ::
               f in buttons <==> f in fields && f.reportId == r.reportId && f.usagePage == 0x09 && 1 <= f.usage <= 32
    requires PressedMask(buttons, r.payload).Ok? && r.buttons == MaskValue(PressedMask(buttons, r.payload).value)
    ensures Bit(r.buttons, k) <==> exists f: Field :: f in fields && Presses(f, r, k + 1)
  {
    hide PressedMask, MaskValue, ExtractBits, Bit;
    PressedMaskExact(buttons, r.payload, k);
    MaskBit(PressedMask(buttons, r.payload).value, k);
    if f: Field :| f in fields && Presses(f, r, k + 1) {
      assert f in buttons;
      var i :| 0 <= i < |buttons| && buttons[i] == f;
    }
    if Bit(r.buttons, k) {
      var i :| 0 <= i < |buttons| && buttons[i].usage == k + 1 && ExtractBits(r.payload, buttons[i]).Ok?
               && ExtractBits(r.payload, buttons[i]).value != 0;
      assert buttons[i] in fields && Presses(buttons[i], r, k + 1);
    }
  }

  /** Every report decoded from a transfer, in terms of the fields of the descriptor: its motion,
      its wheels and its buttons are what the fields of its ID with the usages for them read, and
      its bytes are as many as the descriptor says and begin with its ID if it has one. */
  lemma TransferMeans(descriptor: seq<byte>, payload: seq<byte>, i: nat, k: nat)
    requires BatchOf(descriptor, payload).Ok? && i < |BatchOf(descriptor, payload).value| && k < 32
    ensures Parse(descriptor).Ok?
    ensures var d, r := Parse(descriptor).value, BatchOf(descriptor, payload).value[i];
            && ReadsAs(d.fields, r, 0x01, 0x30, r.dx) && ReadsAs(d.fields, r, 0x01, 0x31, r.dy)
            && ReadsAs(d.fields, r, 0x01, 0x38, r.wheel) && ReadsAs(d.fields, r, 0x0c, 0x0238, r.horizontalWheel)
            && (Bit(r.buttons, k) <==> exists f: Field :: f in d.fields && Presses(f, r, k + 1))
            && r.reportId in d.reportBits && |r.payload| == (d.reportBits[r.reportId] as int + 7) / 8
            && (r.reportId != 0 ==> r.payload != [] && r.payload[0] == r.reportId)
  {
    hide Parse, DecoderFor, DecodeFrom, DecodeOne, LayoutFits, ReadsAs, PlaysPart, Bit, Presses, PressedMask, MaskValue;
    DecoderForReadable(descriptor);
    DecoderFits(descriptor);
    var decoder, d := DecoderFor(descriptor).value, Parse(descriptor).value;
    BatchDecoded(decoder, payload, 0);
    var r := BatchOf(descriptor, payload).value[i];
    assert DecodedBy(decoder, r);
    var l :| l in decoder.layouts && l.reportId == r.reportId && |r.payload| == l.byteLength
             && ButtonsInRange(l.buttons) && DecodeOne(l, r.reportId, r.payload) == Ok(r)
             && r.reportId == (if decoder.usesReportIds then r.payload[0] else 0);
    OneReads(l, r.reportId, r.payload);
    FitReads(d, l, r, k);
  }

  lemma FitReads(d: Descriptor, l: Layout, r: Decoded, k: nat)
    requires LayoutFits(d, l) && l.reportId == r.reportId && ButtonsInRange(l.buttons) && k < 32
    requires DecodeValue(l.x, r.payload) == Ok(r.dx) && DecodeValue(l.y, r.payload) == Ok(r.dy)
    requires if l.wheel.Some? then DecodeValue(l.wheel.value, r.payload) == Ok(r.wheel) else r.wheel == 0
    requires if l.horizontalWheel.Some?
             then DecodeValue(l.horizontalWheel.value, r.payload) == Ok(r.horizontalWheel) else r.horizontalWheel == 0
    requires PressedMask(l.buttons, r.payload).Ok? && r.buttons == MaskValue(PressedMask(l.buttons, r.payload).value)
    ensures ReadsAs(d.fields, r, 0x01, 0x30, r.dx) && ReadsAs(d.fields, r, 0x01, 0x31, r.dy)
    ensures ReadsAs(d.fields, r, 0x01, 0x38, r.wheel) && ReadsAs(d.fields, r, 0x0c, 0x0238, r.horizontalWheel)
    ensures Bit(r.buttons, k) <==> exists f: Field :: f in d.fields && Presses(f, r, k + 1)
    ensures r.reportId in d.reportBits && l.byteLength == (d.reportBits[r.reportId] as int + 7) / 8
  {
    hide DecodeValue, ReadsAs, PlaysPart, Bit, Presses, PressedMask, MaskValue;
    PartReads(d.fields, r, 0x01, 0x30, Some(l.x), r.dx);
    PartReads(d.fields, r, 0x01, 0x31, Some(l.y), r.dy);
    PartReads(d.fields, r, 0x01, 0x38, l.wheel, r.wheel);
    PartReads(d.fields, r, 0x0c, 0x0238, l.horizontalWheel, r.horizontalWheel);
    ButtonsRead(d.fields, l.buttons, r, k);
  }

  // ---------------------------------------------------------------------
  // Which transfers decode
  // ---------------------------------------------------------------------

  /** A field whose number is part of a decoded report. */
  predicate Moves(f: Field) {
    HasUsage(f, 0x01, 0x30) || HasUsage(f, 0x01, 0x31) || HasUsage(f, 0x01, 0x38) || HasUsage(f, 0x0c, 0x0238)
  }

  /** The bytes of one report with an ID: the ID in front if it is not 0, as many as the descriptor
      says, a pointer's position among the fields, and numbers in the declared ranges. */
  ghost predicate WellFormed(d: Descriptor, id: byte, report: seq<byte>) {
    && id in d.reportBits && 0 < |report| == (d.reportBits[id] as int + 7) / 8
    && (id != 0 ==> report[0] == id)
    && (exists f: Field :: f in d.fields && f.reportId == id && HasUsage(f, 0x01, 0x30))
    && (forall f: Field :: f in d.fields && f.reportId == id && Moves(f) ==> DecodeValue(f, report).Ok?)
  }

  lemma {:induction false} LayoutOfReport(d: Descriptor, from: nat, id: byte, f: Field)
    requires from <= id < 256 && id in d.reportBits && LayoutsFrom(d, from).Ok?
    requires f in d.fields && f.reportId == id && HasUsage(f, 0x01, 0x30)
    ensures exists l :: l in LayoutsFrom(d, from).value && l.reportId == id
    decreases 256 - from
  {
    hide WithUsage, Buttons;
    if from == id {
      UsageFinds(d.fields, id, 0x01, 0x30, f);
      var l := LayoutOf(d, id).value.value;
      assert l == LayoutsFrom(d, from).value[0];
    } else {
      LayoutOfReport(d, from + 1, id, f);
    }
  }

  lemma ReportHasLayout(descriptor: seq<byte>, id: byte, report: seq<byte>) returns (l: Layout)
    requires DecoderFor(descriptor).Ok? && Parse(descriptor).Ok? && WellFormed(Parse(descriptor).value, id, report)
    ensures var d := DecoderFor(descriptor).value;
            && l in d.layouts && LayoutFor(d.layouts, id) == Some(l) && l.reportId == id
            && ValidDecoder(d) && LayoutReadable(l) && LayoutFits(Parse(descriptor).value, l)
            && (d.usesReportIds <==> id != 0)
  {
    hide Parse, LayoutsFrom, LayoutFits, LayoutReadable, ValidDecoder, SortById;
    var d, decoder := Parse(descriptor).value, DecoderFor(descriptor).value;
    var f: Field :| f in d.fields && f.reportId == id && HasUsage(f, 0x01, 0x30);
    LayoutOfReport(d, 0, id, f);
    l :| l in LayoutsFrom(d, 0).value && l.reportId == id;
    MadeDecoder(RelativeMouseLayouts(d).value);
    assert multiset(decoder.layouts)[l] > 0;
    var i :| 0 <= i < |decoder.layouts| && decoder.layouts[i] == l;
    LayoutForExact(decoder.layouts, id);
    DecoderForReadable(descriptor);
    DecoderFits(descriptor);
    assert OneConvention(decoder.layouts, decoder.usesReportIds);
  }

  lemma WellFormedDecodes(d: Descriptor, l: Layout, id: byte, report: seq<byte>)
    requires LayoutFits(d, l) && LayoutReadable(l) && l.reportId == id && WellFormed(d, id, report)
    ensures DecodeOne(l, id, report).Ok? && DecodeOne(l, id, report).value.payload == report
  {
    PartsMove(d, l);
    MaskReads(l, report);
    hide DecodeValue, LayoutReadable, LayoutFits, PressedMask, MaskValue;
  }

  lemma PartsMove(d: Descriptor, l: Layout)
    requires LayoutFits(d, l)
    ensures l.x in d.fields && l.x.reportId == l.reportId && Moves(l.x)
    ensures l.y in d.fields && l.y.reportId == l.reportId && Moves(l.y)
    ensures l.wheel.Some? ==>
              l.wheel.value in d.fields && l.wheel.value.reportId == l.reportId && Moves(l.wheel.value)
    ensures var pan := l.horizontalWheel;
            pan.Some? ==> pan.value in d.fields && pan.value.reportId == l.reportId && Moves(pan.value)
  {
    assert Some(l.x) == Some(l.x) && Some(l.y) == Some(l.y);
    if l.wheel.Some? {
      assert l.wheel == Some(l.wheel.value);
    }
    if l.horizontalWheel.Some? {
      assert l.horizontalWheel == Some(l.horizontalWheel.value);
    }
  }

  lemma MaskReads(l: Layout, report: seq<byte>)
    requires LayoutReadable(l) && |report| == l.byteLength
    ensures ButtonsInRange(l.buttons) && PressedMask(l.buttons, report).Ok?
  {
    MaskInRange(l.buttons, l.reportId, report);
  }

  /** The bytes of some reports in a row. */
  ghost predicate AllWellFormed(d: Descriptor, ids: seq<byte>, reports: seq<seq<byte>>) {
    |ids| == |reports| && forall i :: 0 <= i < |ids| ==> WellFormed(d, ids[i], reports[i])
  }

  lemma ReportDecodes(descriptor: seq<byte>, id: byte, report: seq<byte>) returns (l: Layout)
    requires DecoderFor(descriptor).Ok? && Parse(descriptor).Ok? && WellFormed(Parse(descriptor).value, id, report)
    ensures var d := DecoderFor(descriptor).value;
            && ValidDecoder(d) && LayoutFor(d.layouts, id) == Some(l) && (d.usesReportIds <==> id != 0)
    ensures ButtonsInRange(l.buttons) && l.byteLength == |report| > 0 && (id != 0 ==> report[0] == id)
    ensures var one := DecodeOne(l, id, report);
            one.Ok? && one.value.reportId == id && one.value.payload == report
  {
    assert id != 0 ==> report[0] == id;
    hide Parse, DecoderFor, DecodeOne, LayoutFor, ValidDecoder, LayoutReadable, LayoutFits, WellFormed;
    var d := Parse(descriptor).value;
    l := ReportHasLayout(descriptor, id, report);
    LayoutLength(d, l);
    WellFormedLength(d, id, report);
    ReadableButtons(l);
    WellFormedDecodes(d, l, id, report);
    DecodedId(l, id, report);
  }

  /** The first report of what is left of a transfer. */
  lemma FirstDecodes(descriptor: seq<byte>, id: byte, report: seq<byte>, payload: seq<byte>, offset: nat)
    requires DecoderFor(descriptor).Ok? && Parse(descriptor).Ok? && ValidDecoder(DecoderFor(descriptor).value)
    requires WellFormed(Parse(descriptor).value, id, report)
    requires offset + |report| <= |payload| && payload[offset..offset + |report|] == report
    ensures var d := DecoderFor(descriptor).value;
            var all, others := DecodeFrom(d, payload, offset), DecodeFrom(d, payload, offset + |report|);
            others.Ok? ==>
              && all.Ok? && all.value != [] && all.value[1..] == others.value
              && all.value[0].reportId == id && all.value[0].payload == report
  {
    hide *;
    var l := ReportDecodes(descriptor, id, report);
    assert payload[offset] == payload[offset..offset + |report|][0];
    DecodeStep(DecoderFor(descriptor).value, l, id, payload, offset);
  }

  lemma DecodeStep(d: Decoder, l: Layout, id: byte, payload: seq<byte>, offset: nat)
    requires ValidDecoder(d) && ButtonsInRange(l.buttons) && LayoutFor(d.layouts, id) == Some(l)
    requires 0 < l.byteLength && offset + l.byteLength <= |payload|
    requires id == (if d.usesReportIds then payload[offset] else 0)
    requires DecodeOne(l, id, payload[offset..offset + l.byteLength]).Ok?
    ensures var all, others := DecodeFrom(d, payload, offset), DecodeFrom(d, payload, offset + l.byteLength);
            others.Ok? ==>
              && all.Ok? && all.value != [] && all.value[1..] == others.value
              && all.value[0] == DecodeOne(l, id, payload[offset..offset + l.byteLength]).value
  {
    hide DecodeOne, LayoutFor, ValidDecoder;
  }

  lemma WellFormedLength(d: Descriptor, id: byte, report: seq<byte>)
    requires WellFormed(d, id, report)
    ensures id in d.reportBits && |report| == (d.reportBits[id] as int + 7) / 8 > 0
  {
    hide DecodeValue;
  }

  lemma {:induction false} ReportsDecode(descriptor: seq<byte>, ids: seq<byte>, reports: seq<seq<byte>>,
                                         payload: seq<byte>, offset: nat)
    requires DecoderFor(descriptor).Ok? && Parse(descriptor).Ok? && ValidDecoder(DecoderFor(descriptor).value)
    requires AllWellFormed(Parse(descriptor).value, ids, reports)
    requires offset <= |payload| && payload[offset..] == Concat(reports)
    ensures var decoded := DecodeFrom(DecoderFor(descriptor).value, payload, offset);
            && decoded.Ok? && |decoded.value| == |reports|
            && (forall i :: 0 <= i < |reports| ==>
                  decoded.value[i].reportId == ids[i] && decoded.value[i].payload == reports[i])
    decreases |reports|
  {
    hide Parse, DecoderFor, DecodeOne, LayoutFor, ValidDecoder, WellFormed;
    if reports != [] {
      var d, id, report, rest := Parse(descriptor).value, ids[0], reports[0], Concat(reports[1..]);
      WellFormedLength(d, id, report);
      FrontOfRest(payload, offset, report, rest);
      assert AllWellFormed(d, ids[1..], reports[1..]);
      ReportsDecode(descriptor, ids[1..], reports[1..], payload, offset + |report|);
      hide DecodeFrom;
      FirstDecodes(descriptor, id, report, payload, offset);
    }
  }

  lemma FrontOfRest(payload: seq<byte>, offset: nat, front: seq<byte>, rest: seq<byte>)
    requires offset <= |payload| && payload[offset..] == front + rest
    ensures offset + |front| <= |payload| && payload[offset..offset + |front|] == front
    ensures payload[offset + |front|..] == rest
  {
    assert payload[offset..][..|front|] == front && payload[offset..][|front|..] == rest;
  }

  lemma LayoutLength(d: Descriptor, l: Layout)
    requires LayoutFits(d, l)
    ensures l.reportId in d.reportBits && l.byteLength == (d.reportBits[l.reportId] as int + 7) / 8
  {
    hide PlaysPart;
  }

  lemma DecodedId(l: Layout, id: byte, report: seq<byte>)
    requires ButtonsInRange(l.buttons) && DecodeOne(l, id, report).Ok?
    ensures DecodeOne(l, id, report).value.reportId == id
  {
    hide DecodeValue, PressedMask, MaskValue;
  }

  /** A transfer of well-formed reports decodes to exactly these reports. */
  lemma WellFormedTransfer(descriptor: seq<byte>, ids: seq<byte>, reports: seq<seq<byte>>)
    requires DecoderFor(descriptor).Ok? && Parse(descriptor).Ok?
    requires AllWellFormed(Parse(descriptor).value, ids, reports) && reports != []
    ensures var decoded := BatchOf(descriptor, Concat(reports));
            && decoded.Ok? && |decoded.value| == |reports|
            && (forall i :: 0 <= i < |reports| ==>
                  decoded.value[i].reportId == ids[i] && decoded.value[i].payload == reports[i])
  {
    assert WellFormed(Parse(descriptor).value, ids[0], reports[0]);
    assert Concat(reports) != [] && Concat(reports)[0..] == Concat(reports);
    hide Parse, DecoderFor, WellFormed, ValidDecoder;
    DecoderForReadable(descriptor);
    ReportsDecode(descriptor, ids, reports, Concat(reports), 0);
  }
}
