/** Mouse layouts chosen from a descriptor, and the decoding of transfers by them
    (RelativeMouseLayouts and HidMouseDecoder in src/capture/HidDescriptor.cpp). */
module HidMouseDecoder {
  import opened Machine
  import opened Bitwise
  import opened HidDescriptor

  const MAX_LAYOUT_BYTES := 4096

  datatype Layout = Layout(
    reportId: byte,
    byteLength: nat,
    x: Field,
    y: Field,
    wheel: Option<Field>,
    horizontalWheel: Option<Field>,
    buttons: seq<Field>)

  // ---------------------------------------------------------------------
  // Choosing layouts
  // ---------------------------------------------------------------------

  predicate IsUsage(f: Field, id: byte, page: uint16, usage: uint16) {
    f.reportId == id && f.usagePage == page && f.usage == usage
  }

  predicate IsButton(f: Field, id: byte) {
    f.reportId == id && f.usagePage == 0x09 && 1 <= f.usage <= 32
  }

  /** The fields of one report that match, in descriptor order. */
  function Select(fields: seq<Field>, wanted: Field -> bool): seq<Field> {
    if fields == [] then []
    else
      Select(fields[..|fields| - 1], wanted)
      + (if wanted(fields[|fields| - 1]) then [fields[|fields| - 1]] else [])
  }

  function WithUsage(fields: seq<Field>, id: byte, page: uint16, usage: uint16): seq<Field> {
    Select(fields, f => IsUsage(f, id, page, usage))
  }

  function Buttons(fields: seq<Field>, id: byte): seq<Field> {
    Select(fields, f => IsButton(f, id))
  }

  predicate HasLeftButton(buttons: seq<Field>) {
    exists i :: 0 <= i < |buttons| && buttons[i].usage == 1
  }

  function FirstOf(fields: seq<Field>): Option<Field> {
    if fields == [] then None else Some(fields[0])
  }

  /** The layout of one report, or None when it does not move a pointer. */
  function LayoutOf(d: Descriptor, id: byte): Result<Option<Layout>, Fault>
    requires id in d.reportBits
  {
    var xs, ys := WithUsage(d.fields, id, 0x01, 0x30), WithUsage(d.fields, id, 0x01, 0x31);
    var wheels, pans := WithUsage(d.fields, id, 0x01, 0x38), WithUsage(d.fields, id, 0x0c, 0x0238);
    var buttons := Buttons(d.fields, id);
    if xs == [] && ys == [] then Ok(None)
    else if |xs| != 1 || |ys| != 1 then Err(AmbiguousField)
    else if !xs[0].relative || !ys[0].relative then Err(AbsoluteCoordinates)
    else if |wheels| > 1 || |pans| > 1 then Err(AmbiguousField)
    else if !HasLeftButton(buttons) then Err(NoLeftButton)
    else
      var bits: nat := d.reportBits[id];
      Ok(Some(Layout(id, (bits + 7) / 8, xs[0], ys[0], FirstOf(wheels), FirstOf(pans), buttons)))
  }

  /** The layouts of reports `id`, `id + 1`, ... in order. */
  function LayoutsFrom(d: Descriptor, id: nat): Result<seq<Layout>, Fault>
    requires id <= 256
    decreases 256 - id
  {
    if id == 256 then Ok([])
    else if id !in d.reportBits then LayoutsFrom(d, id + 1)
    else
      var layout :- LayoutOf(d, id);
      var others :- LayoutsFrom(d, id + 1);
      Ok((if layout.Some? then [layout.value] else []) + others)
  }

  function RelativeMouseLayouts(d: Descriptor): Result<seq<Layout>, Fault> {
    var layouts :- LayoutsFrom(d, 0);
    if layouts == [] then Err(NoMouseLayout) else Ok(layouts)
  }

  /** The fields of one report sorted into the vectors RelativeMouseLayouts keeps. */
  method CollectFields(fields: seq<Field>, id: byte)
    returns (xs: seq<Field>, ys: seq<Field>, wheels: seq<Field>, pans: seq<Field>, buttons: seq<Field>)
    ensures xs == WithUsage(fields, id, 0x01, 0x30) && ys == WithUsage(fields, id, 0x01, 0x31)
    ensures wheels == WithUsage(fields, id, 0x01, 0x38) && pans == WithUsage(fields, id, 0x0c, 0x0238)
    ensures buttons == Buttons(fields, id)
  {
    xs, ys, wheels, pans, buttons := [], [], [], [], [];
    for i := 0 to |fields|
      invariant xs == WithUsage(fields[..i], id, 0x01, 0x30) && ys == WithUsage(fields[..i], id, 0x01, 0x31)
      invariant wheels == WithUsage(fields[..i], id, 0x01, 0x38)
      invariant pans == WithUsage(fields[..i], id, 0x0c, 0x0238)
      invariant buttons == Buttons(fields[..i], id)
    {
      var f := fields[i];
      assert fields[..i + 1][..i] == fields[..i];
      if f.reportId == id {
        if f.usagePage == 0x01 && f.usage == 0x30 {
          xs := xs + [f];
        }
        if f.usagePage == 0x01 && f.usage == 0x31 {
          ys := ys + [f];
        }
        if f.usagePage == 0x01 && f.usage == 0x38 {
          wheels := wheels + [f];
        }
        if f.usagePage == 0x0c && f.usage == 0x0238 {
          pans := pans + [f];
        }
        if f.usagePage == 0x09 && 1 <= f.usage <= 32 {
          buttons := buttons + [f];
        }
      }
    }
    assert fields[..|fields|] == fields;
  }

  /** The body of the loop over the reports. */
  method ChooseLayout(d: Descriptor, id: byte) returns (result: Result<Option<Layout>, Fault>)
    requires id in d.reportBits
    ensures result == LayoutOf(d, id)
  {
    hide WithUsage, Buttons;
    var xs, ys, wheels, pans, buttons := CollectFields(d.fields, id);
    if xs == [] && ys == [] {
      return Ok(None);
    }
    if |xs| != 1 || |ys| != 1 {
      return Err(AmbiguousField);
    }
    if !xs[0].relative || !ys[0].relative {
      return Err(AbsoluteCoordinates);
    }
    if |wheels| > 1 || |pans| > 1 {
      return Err(AmbiguousField);
    }
    if !HasLeftButton(buttons) {
      return Err(NoLeftButton);
    }
    var bits: nat := d.reportBits[id];
    return Ok(Some(Layout(id, (bits + 7) / 8, xs[0], ys[0], FirstOf(wheels), FirstOf(pans), buttons)));
  }

  /** The loop over the reports, in the order of their IDs. */
  method ChooseLayouts(d: Descriptor) returns (result: Result<seq<Layout>, Fault>)
    ensures result == RelativeMouseLayouts(d)
  {
    hide LayoutOf;
    var layouts: seq<Layout> := [];
    NothingInFront<Layout>();
    for id := 0 to 256
      invariant match LayoutsFrom(d, id)
                case Err(fault) => LayoutsFrom(d, 0) == Err(fault)
                case Ok(others) => LayoutsFrom(d, 0) == Ok(layouts + others)
    {
      if id in d.reportBits {
        var layout :- ChooseLayout(d, id);
        if layout.Some? {
          ItemInFront(layouts, layout.value);
          layouts := layouts + [layout.value];
        } else {
          NothingInFront<Layout>();
        }
      }
    }
    assert layouts + [] == layouts;
    return if layouts == [] then Err(NoMouseLayout) else Ok(layouts);
  }

  // ---------------------------------------------------------------------
  // Decoding one report
  // ---------------------------------------------------------------------

  function FieldBits(report: seq<byte>, f: Field): seq<bool>
    requires f.bitOffset + f.bitSize <= 8 * |report|
  {
    ByteBits(report)[f.bitOffset..f.bitOffset + f.bitSize]
  }

  function ExtractBits(report: seq<byte>, f: Field): Result<nat, Fault> {
    if f.bitSize == 0 || f.bitSize > 32 then Err(UnsupportedWidth)
    else if f.bitOffset + f.bitSize > 8 * |report| then Err(PartialReport)
    else Ok(Value(FieldBits(report, f)))
  }

  lemma FieldBitAt(report: seq<byte>, f: Field, bit: nat)
    requires f.bitOffset + f.bitSize <= 8 * |report| && bit < f.bitSize
    ensures var source := f.bitOffset + bit;
            source / 8 < |report| && FieldBits(report, f)[bit] == Bits(report[source / 8], 8)[source % 8]
  {
    hide Bits, ByteBits;
    ByteBitsAt(report, f.bitOffset + bit);
  }

  method ExtractFieldBits(report: seq<byte>, f: Field) returns (result: Result<nat, Fault>)
    ensures result == ExtractBits(report, f)
  {
    if f.bitSize == 0 || f.bitSize > 32 {
      return Err(UnsupportedWidth);
    }
    if f.bitOffset + f.bitSize > 8 * |report| {
      return Err(PartialReport);
    }
    hide Bits, ByteBits, FieldBits;
    ghost var bits := FieldBits(report, f);
    var value, weight := 0, 1;
    for bit := 0 to f.bitSize
      invariant weight == Pow2(bit)
      invariant value == Value(bits[..bit])
    {
      var source := f.bitOffset + bit;
      FieldBitAt(report, f, bit);
      ValueAppend(bits[..bit], bits[bit]);
      assert bits[..bit] + [bits[bit]] == bits[..bit + 1];
      if Bits(report[source / 8], 8)[source % 8] {
        value := value + weight;
      }
      weight := weight * 2;
    }
    assert bits[..f.bitSize] == bits;
    return Ok(value);
  }

  lemma {:induction false} ValueAppend(bits: seq<bool>, top: bool)
    ensures Value(bits + [top]) == Value(bits) + (if top then Pow2(|bits|) else 0)
  {
    if bits != [] {
      ValueAppend(bits[1..], top);
      assert (bits + [top])[1..] == bits[1..] + [top];
    }
  }

  /** A field is signed when its logical minimum is negative. */
  function DecodeValue(f: Field, report: seq<byte>): Result<int32, Fault> {
    var raw :- ExtractBits(report, f);
    var value := if f.logicalMinimum < 0 then SignedValue(FieldBits(report, f)) else raw;
    if value < f.logicalMinimum || value > f.logicalMaximum then Err(LogicalRange)
    else if value < MIN_INT32 || value > MAX_INT32 then Err(ValueOverflow)
    else Ok(value)
  }

  method DecodeField(f: Field, report: seq<byte>) returns (result: Result<int32, Fault>)
    ensures result == DecodeValue(f, report)
  {
    var raw :- ExtractFieldBits(report, f);
    var value: int := raw;
    ghost var bits := FieldBits(report, f);
    TopBitWeight(bits);
    if f.logicalMinimum < 0 && raw >= Pow2(f.bitSize - 1) {
      value := raw - Pow2(f.bitSize);
    }
    if value < f.logicalMinimum || value > f.logicalMaximum {
      return Err(LogicalRange);
    }
    if value < MIN_INT32 || value > MAX_INT32 {
      return Err(ValueOverflow);
    }
    return Ok(value);
  }

  /** A number the device stored in two's complement, inside the declared logical range,
      is the number decoded. */
  lemma DecodesStoredNumber(f: Field, report: seq<byte>, value: int32)
    requires 0 < f.bitSize <= 32 && f.bitOffset + f.bitSize <= 8 * |report|
    requires f.logicalMinimum <= value <= f.logicalMaximum
    requires if f.logicalMinimum < 0 then 0 - Pow2(f.bitSize - 1) <= value < Pow2(f.bitSize - 1)
             else value < Pow2(f.bitSize)
    requires FieldBits(report, f) == Bits(if value < 0 then value + Pow2(f.bitSize) else value, f.bitSize)
    ensures DecodeValue(f, report) == Ok(value)
  {
    if f.logicalMinimum < 0 {
      SignedRoundTrip(value, f.bitSize);
    } else {
      ValueOfBits(value, f.bitSize);
    }
  }

  /** The pressed buttons, as a mask with bit `usage - 1` for each. */
  predicate ButtonsInRange(buttons: seq<Field>) {
    forall i :: 0 <= i < |buttons| ==> 1 <= buttons[i].usage <= 32
  }

  function PressedMask(buttons: seq<Field>, report: seq<byte>): Result<Mask, Fault>
    requires ButtonsInRange(buttons)
  {
    if buttons == [] then Ok(Bits(0, 32))
    else
      var last := |buttons| - 1;
      var earlier :- PressedMask(buttons[..last], report);
      var state :- ExtractBits(report, buttons[last]);
      Ok(if state != 0 then earlier[buttons[last].usage - 1 := true] else earlier)
  }

  lemma {:induction false} NoBits(width: nat)
    ensures forall i :: 0 <= i < width ==> !Bits(0, width)[i]
  {
    if width > 0 {
      NoBits(width - 1);
    }
  }

  /** Bit `k` of the mask is set exactly when some button of usage `k + 1` reads nonzero. */
  lemma {:induction false} PressedMaskExact(buttons: seq<Field>, report: seq<byte>, k: nat)
    requires ButtonsInRange(buttons) && k < 32 && PressedMask(buttons, report).Ok?
    ensures PressedMask(buttons, report).value[k] <==>
            exists i :: 0 <= i < |buttons| && buttons[i].usage == k + 1
                        && ExtractBits(report, buttons[i]).Ok? && ExtractBits(report, buttons[i]).value != 0
    decreases |buttons|
  {
    hide ExtractBits;
    if buttons == [] {
      NoBits(32);
    } else {
      var last := |buttons| - 1;
      var earlier := buttons[..last];
      PressedMaskExact(earlier, report, k);
      if exists i :: 0 <= i < |earlier| && earlier[i].usage == k + 1
                     && ExtractBits(report, earlier[i]).Ok? && ExtractBits(report, earlier[i]).value != 0 {
        var i :| 0 <= i < |earlier| && earlier[i].usage == k + 1
                 && ExtractBits(report, earlier[i]).Ok? && ExtractBits(report, earlier[i]).value != 0;
        assert buttons[i] == earlier[i];
      }
      assert forall i :: 0 <= i < last ==> buttons[i] == earlier[i];
    }
  }

  datatype Decoded = Decoded(
    reportId: byte,
    dx: int32,
    dy: int32,
    wheel: int32,
    horizontalWheel: int32,
    buttons: uint32,
    payload: seq<byte>)

  function DecodeOptional(f: Option<Field>, report: seq<byte>): Result<int32, Fault> {
    if f.None? then Ok(0) else DecodeValue(f.value, report)
  }

  function DecodeOne(layout: Layout, id: byte, report: seq<byte>): Result<Decoded, Fault>
    requires ButtonsInRange(layout.buttons)
  {
    var dx :- DecodeValue(layout.x, report);
    var dy :- DecodeValue(layout.y, report);
    var wheel :- DecodeOptional(layout.wheel, report);
    var pan :- DecodeOptional(layout.horizontalWheel, report);
    var pressed :- PressedMask(layout.buttons, report);
    Ok(Decoded(id, dx, dy, wheel, pan, MaskValue(pressed), report))
  }

  // ---------------------------------------------------------------------
  // Decoding a transfer
  // ---------------------------------------------------------------------

  datatype Decoder = Decoder(layouts: seq<Layout>, usesReportIds: bool)

  /** std::sort by report ID. */
  function InsertById(layout: Layout, sorted: seq<Layout>): seq<Layout> {
    if sorted == [] || layout.reportId < sorted[0].reportId then [layout] + sorted
    else [sorted[0]] + InsertById(layout, sorted[1..])
  }

  function SortById(layouts: seq<Layout>): seq<Layout> {
    if layouts == [] then [] else InsertById(layouts[|layouts| - 1], SortById(layouts[..|layouts| - 1]))
  }

  ghost predicate SortedById(layouts: seq<Layout>) {
    forall i, j :: 0 <= i < j < |layouts| ==> layouts[i].reportId < layouts[j].reportId
  }

  predicate LengthsSupported(layouts: seq<Layout>) {
    forall i :: 0 <= i < |layouts| ==> 0 < layouts[i].byteLength <= MAX_LAYOUT_BYTES
  }

  predicate NeighboursDiffer(layouts: seq<Layout>) {
    forall i :: 1 <= i < |layouts| ==> layouts[i - 1].reportId != layouts[i].reportId
  }

  predicate OneConvention(layouts: seq<Layout>, usesReportIds: bool) {
    forall i :: 0 <= i < |layouts| ==> (layouts[i].reportId != 0) == usesReportIds
  }

  function MakeDecoder(layouts: seq<Layout>): Result<Decoder, Fault> {
    var sorted := SortById(layouts);
    if layouts == [] || sorted == [] then Err(InvalidArgument)
    else if !LengthsSupported(sorted) || !NeighboursDiffer(sorted) then Err(InvalidArgument)
    else
      var usesReportIds := sorted[0].reportId != 0;
      if !OneConvention(sorted, usesReportIds) then Err(InvalidArgument)
      else Ok(Decoder(sorted, usesReportIds))
  }

  /** The first layout that is not below an ID, if it has that ID. */
  function LayoutFor(layouts: seq<Layout>, id: byte): Option<Layout> {
    if layouts == [] then None
    else if layouts[0].reportId < id then LayoutFor(layouts[1..], id)
    else if layouts[0].reportId == id then Some(layouts[0])
    else None
  }

  ghost predicate ValidDecoder(d: Decoder) {
    && LengthsSupported(d.layouts) && SortedById(d.layouts)
    && forall i :: 0 <= i < |d.layouts| ==> ButtonsInRange(d.layouts[i].buttons)
  }

  lemma {:induction false} LayoutForFinds(layouts: seq<Layout>, id: byte)
    ensures LayoutFor(layouts, id).Some? ==>
              LayoutFor(layouts, id).value in layouts && LayoutFor(layouts, id).value.reportId == id
    decreases |layouts|
  {
    if layouts != [] && layouts[0].reportId < id {
      LayoutForFinds(layouts[1..], id);
    }
  }

  /** A layout is found for an ID exactly when there is one, and it is the one. */
  lemma {:induction false} LayoutForExact(layouts: seq<Layout>, id: byte)
    requires SortedById(layouts)
    ensures LayoutFor(layouts, id).Some? <==> exists i :: 0 <= i < |layouts| && layouts[i].reportId == id
    ensures forall i :: 0 <= i < |layouts| && layouts[i].reportId == id ==> LayoutFor(layouts, id) == Some(layouts[i])
    decreases |layouts|
  {
    if layouts != [] && layouts[0].reportId < id {
      assert SortedById(layouts[1..]);
      LayoutForExact(layouts[1..], id);
      assert forall i :: 1 <= i < |layouts| ==> layouts[i] == layouts[1..][i - 1];
    }
  }

  /** std::lower_bound and the test that follows it. */
  method FindLayout(layouts: seq<Layout>, id: byte) returns (found: Option<Layout>)
    requires SortedById(layouts)
    ensures found == LayoutFor(layouts, id)
  {
    hide LayoutFor;
    LayoutForExact(layouts, id);
    var low, count := 0, |layouts|;
    while count > 0
      invariant 0 <= low <= low + count <= |layouts|
      invariant forall i :: 0 <= i < low ==> layouts[i].reportId < id
      invariant forall i :: low + count <= i < |layouts| ==> layouts[i].reportId >= id
    {
      var half := count / 2;
      if layouts[low + half].reportId < id {
        low, count := low + half + 1, count - half - 1;
      } else {
        count := half;
      }
    }
    return if low == |layouts| || layouts[low].reportId != id then None else Some(layouts[low]);
  }

  function DecodeFrom(d: Decoder, payload: seq<byte>, offset: nat): Result<seq<Decoded>, Fault>
    requires ValidDecoder(d) && offset <= |payload|
    decreases |payload| - offset
  {
    if offset == |payload| then Ok([])
    else
      var id := if d.usesReportIds then payload[offset] else 0;
      match LayoutFor(d.layouts, id)
      case None => Err(UnknownReportId)
      case Some(layout) =>
        LayoutForFinds(d.layouts, id);
        if layout.byteLength > |payload| - offset then Err(PartialTransfer)
        else
          var end := offset + layout.byteLength;
          var item :- DecodeOne(layout, id, payload[offset..end]);
          var others :- DecodeFrom(d, payload, end);
          Ok([item] + others)
  }

  function DecodeBatch(d: Decoder, payload: seq<byte>): Result<seq<Decoded>, Fault>
    requires ValidDecoder(d)
  {
    if payload == [] then Err(EmptyTransfer) else DecodeFrom(d, payload, 0)
  }

  function Payloads(reports: seq<Decoded>): seq<byte> {
    if reports == [] then [] else reports[0].payload + Payloads(reports[1..])
  }

  ghost predicate PayloadsSized(reports: seq<Decoded>) {
    forall i :: 0 <= i < |reports| ==> 0 < |reports[i].payload| <= MAX_LAYOUT_BYTES
  }

  lemma DecodeOneKeepsPayload(layout: Layout, id: byte, report: seq<byte>)
    requires ButtonsInRange(layout.buttons) && DecodeOne(layout, id, report).Ok?
    ensures DecodeOne(layout, id, report).value.payload == report
  {
  }

  lemma PayloadsInFront(item: Decoded, others: seq<Decoded>)
    requires 0 < |item.payload| <= MAX_LAYOUT_BYTES && PayloadsSized(others)
    ensures Payloads([item] + others) == item.payload + Payloads(others)
    ensures PayloadsSized([item] + others)
  {
    assert ([item] + others)[1..] == others;
  }

  /** The reports decoded from a transfer split it without loss, gap or overlap. */
  lemma {:induction false} BatchSplitsTransfer(d: Decoder, payload: seq<byte>, offset: nat)
    requires ValidDecoder(d) && offset <= |payload| && DecodeFrom(d, payload, offset).Ok?
    ensures var reports := DecodeFrom(d, payload, offset).value;
            && Payloads(reports) == payload[offset..]
            && PayloadsSized(reports)
            && |reports| <= |payload| - offset
    decreases |payload| - offset
  {
    hide LayoutFor, DecodeOne, Payloads, PayloadsSized;
    if offset < |payload| {
      var id := if d.usesReportIds then payload[offset] else 0;
      LayoutForFinds(d.layouts, id);
      var layout := LayoutFor(d.layouts, id).value;
      var end := offset + layout.byteLength;
      BatchSplitsTransfer(d, payload, end);
      var others := DecodeFrom(d, payload, end).value;
      DecodeOneKeepsPayload(layout, id, payload[offset..end]);
      PayloadsInFront(DecodeOne(layout, id, payload[offset..end]).value, others);
      assert payload[offset..] == payload[offset..end] + payload[end..];
    } else {
      assert Payloads([]) == [] && PayloadsSized([]) by { NoPayloads(); }
    }
  }

  lemma NoPayloads()
    ensures Payloads([]) == [] && PayloadsSized([])
  {
  }

  method DecodeTransfer(d: Decoder, payload: seq<byte>) returns (result: Result<seq<Decoded>, Fault>)
    requires ValidDecoder(d)
    ensures result == DecodeBatch(d, payload)
  {
    hide DecodeOne, LayoutFor;
    if payload == [] {
      return Err(EmptyTransfer);
    }
    var decoded: seq<Decoded> := [];
    var offset := 0;
    NothingInFront<Decoded>();
    while offset < |payload|
      invariant offset <= |payload|
      invariant match DecodeFrom(d, payload, offset)
                case Err(fault) => DecodeFrom(d, payload, 0) == Err(fault)
                case Ok(others) => DecodeFrom(d, payload, 0) == Ok(decoded + others)
    {
      var id := if d.usesReportIds then payload[offset] else 0;
      var found := FindLayout(d.layouts, id);
      if found.None? {
        return Err(UnknownReportId);
      }
      LayoutForFinds(d.layouts, id);
      var layout := found.value;
      if layout.byteLength > |payload| - offset {
        return Err(PartialTransfer);
      }
      var item :- DecodeReport(layout, id, payload[offset..offset + layout.byteLength]);
      ItemInFront(decoded, item);
      decoded := decoded + [item];
      offset := offset + layout.byteLength;
    }
    assert decoded + [] == decoded;
    return Ok(decoded);
  }

  method DecodeReport(layout: Layout, id: byte, report: seq<byte>) returns (result: Result<Decoded, Fault>)
    requires ButtonsInRange(layout.buttons)
    ensures result == DecodeOne(layout, id, report)
  {
    hide DecodeValue, ExtractBits;
    var dx :- DecodeField(layout.x, report);
    var dy :- DecodeField(layout.y, report);
    var wheel: int32, pan: int32 := 0, 0;
    if layout.wheel.Some? {
      wheel :- DecodeField(layout.wheel.value, report);
    }
    if layout.horizontalWheel.Some? {
      pan :- DecodeField(layout.horizontalWheel.value, report);
    }
    var pressed :- PressedButtons(layout.buttons, report);
    return Ok(Decoded(id, dx, dy, wheel, pan, MaskValue(pressed), report));
  }

  method PressedButtons(buttons: seq<Field>, report: seq<byte>) returns (result: Result<Mask, Fault>)
    requires ButtonsInRange(buttons)
    ensures result == PressedMask(buttons, report)
  {
    hide ExtractBits;
    var pressed := Bits(0, 32);
    for i := 0 to |buttons|
      invariant |pressed| == 32 && PressedMask(buttons[..i], report) == Ok(pressed)
    {
      var state := ExtractFieldBits(report, buttons[i]);
      assert buttons[..i + 1][..i] == buttons[..i];
      if state.Err? {
        FaultStays(buttons, report, i);
        return Err(state.error);
      }
      if state.value != 0 {
        pressed := pressed[buttons[i].usage - 1 := true];
      }
    }
    assert buttons[..|buttons|] == buttons;
    return Ok(pressed);
  }

  lemma {:induction false} FaultStays(buttons: seq<Field>, report: seq<byte>, i: nat)
    requires ButtonsInRange(buttons) && i < |buttons|
    requires PressedMask(buttons[..i], report).Ok? && ExtractBits(report, buttons[i]).Err?
    ensures PressedMask(buttons, report) == Err(ExtractBits(report, buttons[i]).error)
    decreases |buttons|
  {
    hide ExtractBits;
    var last := |buttons| - 1;
    if i < last {
      assert buttons[..last][..i] == buttons[..i];
      FaultStays(buttons[..last], report, i);
    }
  }

  // ---------------------------------------------------------------------
  // Decoders built from accepted descriptors
  // ---------------------------------------------------------------------

  ghost predicate FieldReadable(f: Field, id: byte, bytes: nat) {
    && f.reportId == id
    && 0 < f.bitSize <= 32
    && f.bitOffset + f.bitSize <= 8 * bytes
    && (id != 0 ==> f.bitOffset >= 8)
  }

  /** Every field of the layout can be read from a report of its length, clear of the ID. */
  ghost predicate LayoutReadable(l: Layout) {
    && FieldReadable(l.x, l.reportId, l.byteLength)
    && FieldReadable(l.y, l.reportId, l.byteLength)
    && (l.wheel.Some? ==> FieldReadable(l.wheel.value, l.reportId, l.byteLength))
    && (l.horizontalWheel.Some? ==> FieldReadable(l.horizontalWheel.value, l.reportId, l.byteLength))
    && (forall i :: 0 <= i < |l.buttons| ==> FieldReadable(l.buttons[i], l.reportId, l.byteLength))
    && ButtonsInRange(l.buttons)
  }

  lemma {:induction false} SelectPicks(fields: seq<Field>, wanted: Field -> bool)
    ensures forall i :: 0 <= i < |Select(fields, wanted)| ==>
              wanted(Select(fields, wanted)[i]) && Select(fields, wanted)[i] in fields
    decreases |fields|
  {
    if fields != [] {
      SelectPicks(fields[..|fields| - 1], wanted);
    }
  }

  lemma InsideIsReadable(d: Descriptor, f: Field, id: byte)
    requires FieldsLaidOut(d.fields, d.reportBits) && f in d.fields && f.reportId == id && id in d.reportBits
    ensures FieldReadable(f, id, (d.reportBits[id] as int + 7) / 8)
  {
    var i :| 0 <= i < |d.fields| && d.fields[i] == f;
    assert FieldInside(d.fields[i], d.reportBits);
  }

  lemma LayoutOfReadable(d: Descriptor, id: byte)
    requires FieldsLaidOut(d.fields, d.reportBits) && id in d.reportBits
    ensures LayoutOf(d, id).Ok? && LayoutOf(d, id).value.Some? ==>
              LayoutReadable(LayoutOf(d, id).value.value) && LayoutOf(d, id).value.value.reportId == id
  {
    hide Select, FieldReadable, FieldsLaidOut;
    SelectPicks(d.fields, f => IsUsage(f, id, 0x01, 0x30));
    SelectPicks(d.fields, f => IsUsage(f, id, 0x01, 0x31));
    SelectPicks(d.fields, f => IsUsage(f, id, 0x01, 0x38));
    SelectPicks(d.fields, f => IsUsage(f, id, 0x0c, 0x0238));
    SelectPicks(d.fields, f => IsButton(f, id));
    forall f | f in d.fields && f.reportId == id
      ensures FieldReadable(f, id, (d.reportBits[id] as int + 7) / 8)
    {
      InsideIsReadable(d, f, id);
    }
  }

  ghost predicate AllReadable(layouts: seq<Layout>) {
    forall i :: 0 <= i < |layouts| ==> LayoutReadable(layouts[i])
  }

  lemma {:induction false} LayoutsFromReadable(d: Descriptor, id: nat)
    requires FieldsLaidOut(d.fields, d.reportBits) && id <= 256
    ensures LayoutsFrom(d, id).Ok? ==> AllReadable(LayoutsFrom(d, id).value)
    decreases 256 - id
  {
    hide LayoutOf, FieldsLaidOut, LayoutReadable;
    if id < 256 {
      if id in d.reportBits {
        LayoutOfReadable(d, id);
      }
      LayoutsFromReadable(d, id + 1);
    }
  }

  lemma {:induction false} InsertKeeps(layout: Layout, sorted: seq<Layout>)
    ensures multiset(InsertById(layout, sorted)) == multiset(sorted) + multiset{layout}
    decreases |sorted|
  {
    if sorted != [] && layout.reportId >= sorted[0].reportId {
      InsertKeeps(layout, sorted[1..]);
      assert sorted == [sorted[0]] + sorted[1..];
    }
  }

  /** Sorting keeps exactly the layouts given. */
  lemma {:induction false} SortKeeps(layouts: seq<Layout>)
    ensures multiset(SortById(layouts)) == multiset(layouts)
    decreases |layouts|
  {
    if layouts != [] {
      var last := |layouts| - 1;
      hide InsertById;
      SortKeeps(layouts[..last]);
      InsertKeeps(layouts[last], SortById(layouts[..last]));
      SplitLast(layouts);
    }
  }

  ghost predicate Ascending(layouts: seq<Layout>) {
    forall i :: 1 <= i < |layouts| ==> layouts[i - 1].reportId <= layouts[i].reportId
  }

  lemma {:induction false} InsertAscending(layout: Layout, sorted: seq<Layout>)
    requires Ascending(sorted)
    ensures Ascending(InsertById(layout, sorted))
    ensures InsertById(layout, sorted) != []
    ensures InsertById(layout, sorted)[0].reportId == layout.reportId
            || (sorted != [] && InsertById(layout, sorted)[0] == sorted[0])
    decreases |sorted|
  {
    if sorted != [] && layout.reportId >= sorted[0].reportId {
      assert Ascending(sorted[1..]) by {
        assert forall i :: 1 <= i < |sorted[1..]| ==>
                 sorted[1..][i - 1] == sorted[i] && sorted[1..][i] == sorted[i + 1];
      }
      InsertAscending(layout, sorted[1..]);
    }
  }

  lemma {:induction false} SortAscending(layouts: seq<Layout>)
    ensures Ascending(SortById(layouts))
    decreases |layouts|
  {
    if layouts != [] {
      SortAscending(layouts[..|layouts| - 1]);
      InsertAscending(layouts[|layouts| - 1], SortById(layouts[..|layouts| - 1]));
    }
  }

  lemma {:induction false} StrictFromNeighbours(layouts: seq<Layout>, i: nat, j: nat)
    requires Ascending(layouts) && NeighboursDiffer(layouts) && i < j < |layouts|
    ensures layouts[i].reportId < layouts[j].reportId
    decreases j - i
  {
    if i + 1 < j {
      StrictFromNeighbours(layouts, i, j - 1);
    }
    assert layouts[j - 1].reportId < layouts[j].reportId;
  }

  lemma MadeDecoder(layouts: seq<Layout>)
    requires MakeDecoder(layouts).Ok?
    ensures var d := MakeDecoder(layouts).value;
            && SortedById(d.layouts)
            && multiset(d.layouts) == multiset(layouts)
            && (AllReadable(layouts) ==> AllReadable(d.layouts) && ValidDecoder(d))
  {
    hide SortById, LayoutReadable;
    SortKeeps(layouts);
    SortAscending(layouts);
    var sorted := SortById(layouts);
    forall i, j | 0 <= i < j < |sorted|
      ensures sorted[i].reportId < sorted[j].reportId
    {
      StrictFromNeighbours(sorted, i, j);
    }
    if AllReadable(layouts) {
      forall i | 0 <= i < |sorted|
        ensures LayoutReadable(sorted[i]) && ButtonsInRange(sorted[i].buttons)
      {
        assert sorted[i] in multiset(sorted);
        assert sorted[i] in layouts;
        ReadableButtons(sorted[i]);
      }
    }
  }

  lemma ReadableButtons(l: Layout)
    ensures LayoutReadable(l) ==> ButtonsInRange(l.buttons)
  {
  }

  /** The whole way from descriptor bytes to a decoder. */
  function DecoderFor(descriptor: seq<byte>): Result<Decoder, Fault> {
    var d :- Parse(descriptor);
    var layouts :- RelativeMouseLayouts(d);
    MakeDecoder(layouts)
  }

  lemma DecoderForReadable(descriptor: seq<byte>)
    requires DecoderFor(descriptor).Ok?
    ensures ValidDecoder(DecoderFor(descriptor).value) && AllReadable(DecoderFor(descriptor).value.layouts)
  {
    hide Parse, LayoutsFrom, MakeDecoder, FieldsLaidOut, LayoutReadable, ValidDecoder;
    ParsedDescriptor(descriptor);
    LayoutsFromReadable(Parse(descriptor).value, 0);
    MadeDecoder(RelativeMouseLayouts(Parse(descriptor).value).value);
  }

  predicate OutOfRange<T>(r: Result<T, Fault>) {
    r == Err(PartialReport) || r == Err(UnsupportedWidth)
  }

  lemma ValueInRange(f: Field, id: byte, report: seq<byte>)
    requires FieldReadable(f, id, |report|)
    ensures !OutOfRange(DecodeValue(f, report)) && ExtractBits(report, f).Ok?
  {
  }

  lemma {:induction false} MaskInRange(buttons: seq<Field>, id: byte, report: seq<byte>)
    requires ButtonsInRange(buttons)
    requires forall i :: 0 <= i < |buttons| ==> FieldReadable(buttons[i], id, |report|)
    ensures PressedMask(buttons, report).Ok?
    decreases |buttons|
  {
    hide ExtractBits, FieldReadable;
    if buttons != [] {
      MaskInRange(buttons[..|buttons| - 1], id, report);
      ValueInRange(buttons[|buttons| - 1], id, report);
    }
  }

  lemma OneInRange(l: Layout, id: byte, report: seq<byte>)
    requires LayoutReadable(l) && |report| == l.byteLength
    ensures !OutOfRange(DecodeOne(l, id, report))
  {
    hide DecodeValue, PressedMask, FieldReadable, ExtractBits;
    ValueInRange(l.x, l.reportId, report);
    ValueInRange(l.y, l.reportId, report);
    if l.wheel.Some? {
      ValueInRange(l.wheel.value, l.reportId, report);
    }
    if l.horizontalWheel.Some? {
      ValueInRange(l.horizontalWheel.value, l.reportId, report);
    }
    MaskInRange(l.buttons, l.reportId, report);
  }

  /** A decoder built from any accepted descriptor never reads beyond a report, whatever
      bytes a transfer holds. */
  lemma {:induction false} NeverOutOfRange(d: Decoder, payload: seq<byte>, offset: nat)
    requires ValidDecoder(d) && AllReadable(d.layouts) && offset <= |payload|
    ensures !OutOfRange(DecodeFrom(d, payload, offset))
    decreases |payload| - offset
  {
    hide DecodeOne, LayoutFor, LayoutReadable;
    if offset < |payload| {
      var id := if d.usesReportIds then payload[offset] else 0;
      LayoutForFinds(d.layouts, id);
      var found := LayoutFor(d.layouts, id);
      if found.Some? && found.value.byteLength <= |payload| - offset {
        var end := offset + found.value.byteLength;
        OneInRange(found.value, id, payload[offset..end]);
        NeverOutOfRange(d, payload, end);
      }
    }
  }
}
