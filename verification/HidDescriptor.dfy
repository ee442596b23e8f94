/** HID report descriptors and the mouse decoder built from them
    (src/capture/HidDescriptor.cpp; USB Device Class Definition for HID 1.11, section 6.2.2). */
module HidDescriptor {
  import opened Machine
  import opened Binary

  const MAX_DESCRIPTOR := 0x1_0000
  const MAX_REPORT_SIZE := 32
  const MAX_REPORT_COUNT := 1024

  /** The most bits one Input item can add to a report. */
  const ITEM_BITS := 32768

  datatype Globals = Globals(
    usagePage: uint32,
    logicalMinimum: int64,
    logicalMaximum: int64,
    reportSize: uint32,
    reportCount: uint32,
    reportId: byte)

  datatype Locals = Locals(usages: seq<uint32>, usageMinimum: uint32, usageMaximum: uint32, hasUsageRange: bool)

  datatype Field = Field(
    reportId: byte,
    usagePage: uint16,
    usage: uint16,
    bitOffset: uint32,
    bitSize: byte,
    logicalMinimum: int64,
    logicalMaximum: int64,
    relative: bool)

  datatype Collection = Collection(usagePage: uint16, usage: uint16)

  datatype Descriptor = Descriptor(
    fields: seq<Field>,
    collections: seq<Collection>,
    reportBits: map<byte, uint32>,
    usesReportIds: bool)

  datatype ParseState = ParseState(
    parsed: Descriptor,
    globals: Globals,
    locals: Locals,
    stack: seq<Globals>,
    depth: nat)

  const NO_LOCALS := Locals([], 0, 0, false)
  const START := ParseState(Descriptor([], [], map[0 := 0], false), Globals(0, 0, 0, 0, 0, 0), NO_LOCALS, [], 0)

  // ---------------------------------------------------------------------
  // One item
  // ---------------------------------------------------------------------

  function ReadUnsigned(data: seq<byte>): uint32
    requires |data| <= 4
  {
    FixedBound(data, true);
    PowerBound(|data|);
    FromLittleEndian(data)
  }

  lemma PowerBound(k: nat)
    requires k <= 4
    ensures Pow256(k) <= 0x1_0000_0000
  {
    Widths();
    assert Pow256(3) == 0x100_0000;
  }

  function ReadSigned(data: seq<byte>): int64
    requires |data| <= 4
  {
    if data == [] then 0
    else
      var value := ReadUnsigned(data);
      Widths();
      assert Pow256(3) == 0x100_0000;
      FixedBound(data, true);
      if 2 * value >= Pow256(|data|) then value - Pow256(|data|) else value
  }

  function UsageForIndex(locals: Locals, index: nat): uint32 {
    if index < |locals.usages| then locals.usages[index]
    else
      var usage := (locals.usageMinimum + index) % 0x1_0000_0000;
      if locals.hasUsageRange && usage <= locals.usageMaximum then usage
      else if locals.usages != [] then locals.usages[|locals.usages| - 1]
      else 0
  }

  /** A 32-bit usage carries its page in the high half; a 16-bit one takes the global page. */
  function PageOf(usage: uint32, globals: Globals): uint16 {
    (if usage > 0xffff then usage / 0x1_0000 else globals.usagePage) % 0x1_0000
  }

  function GlobalItem(s: ParseState, tag: nat, data: seq<byte>): Result<ParseState, Fault>
    requires |data| <= 4
  {
    var value := ReadUnsigned(data);
    var g := s.globals;
    if tag == 0 then Ok(s.(globals := g.(usagePage := value)))
    else if tag == 1 then Ok(s.(globals := g.(logicalMinimum := ReadSigned(data))))
    else if tag == 2 then
      Ok(s.(globals := g.(logicalMaximum := if g.logicalMinimum < 0 then ReadSigned(data) else value)))
    else if tag == 7 then Ok(s.(globals := g.(reportSize := value)))
    else if tag == 8 then
      if value == 0 || value > 255 then Err(HidError)
      else
        var bits := s.parsed.reportBits;
        Ok(s.(globals := g.(reportId := value),
              parsed := s.parsed.(usesReportIds := true,
                                  reportBits := if value in bits then bits else bits[value := 8])))
    else if tag == 9 then Ok(s.(globals := g.(reportCount := value)))
    else if tag == 10 then Ok(s.(stack := s.stack + [g]))
    else if tag == 11 then
      if s.stack == [] then Err(HidError)
      else Ok(s.(globals := s.stack[|s.stack| - 1], stack := s.stack[..|s.stack| - 1]))
    else Ok(s)
  }

  function LocalItem(s: ParseState, tag: nat, data: seq<byte>): ParseState
    requires |data| <= 4
  {
    var value := ReadUnsigned(data);
    var l := s.locals;
    if tag == 0 then s.(locals := l.(usages := l.usages + [value]))
    else if tag == 1 then s.(locals := l.(usageMinimum := value, hasUsageRange := true))
    else if tag == 2 then s.(locals := l.(usageMaximum := value, hasUsageRange := true))
    else s
  }

  predicate InputDimensionsSafe(g: Globals) {
    0 < g.reportSize <= MAX_REPORT_SIZE && 0 < g.reportCount <= MAX_REPORT_COUNT
  }

  /** The field that an Input item declares at `index`, which starts at bit `offset`. */
  function FieldAt(s: ParseState, flags: uint32, index: nat, offset: uint32): Field
    requires InputDimensionsSafe(s.globals)
  {
    var usage := UsageForIndex(s.locals, index);
    Field(s.globals.reportId, PageOf(usage, s.globals), usage % 0x1_0000, offset, s.globals.reportSize,
          s.globals.logicalMinimum, s.globals.logicalMaximum, flags / 4 % 2 == 1)
  }

  /** The loop over report_count: fields from `index` on, and the report's final length. */
  function AddFields(s: ParseState, flags: uint32, index: nat, fields: seq<Field>, offset: uint32)
    : Result<(seq<Field>, uint32), Fault>
    requires InputDimensionsSafe(s.globals) && index <= s.globals.reportCount
    decreases s.globals.reportCount - index
  {
    if index == s.globals.reportCount then Ok((fields, offset))
    else
      var wanted := flags % 2 == 0 && flags / 2 % 2 == 1;
      var grown := if wanted then fields + [FieldAt(s, flags, index, offset)] else fields;
      if offset > MAX_UINT32 - s.globals.reportSize then Err(ValueOverflow)
      else AddFields(s, flags, index + 1, grown, offset + s.globals.reportSize)
  }

  function BitsUsed(d: Descriptor, id: byte): uint32 {
    if id in d.reportBits then d.reportBits[id] else 0
  }

  function MainItem(s: ParseState, tag: nat, data: seq<byte>): Result<ParseState, Fault>
    requires |data| <= 4
  {
    var value := ReadUnsigned(data);
    var cleared := s.(locals := NO_LOCALS);
    if tag == 10 then
      if data == [] then Err(HidError)
      else
        var usage := UsageForIndex(s.locals, 0);
        var found := if s.depth == 0 && value % 256 == 1
                     then [Collection(PageOf(usage, s.globals), usage % 0x1_0000)] else [];
        Ok(cleared.(depth := s.depth + 1, parsed := s.parsed.(collections := s.parsed.collections + found)))
    else if tag == 12 then
      if s.depth == 0 then Err(HidError) else Ok(cleared.(depth := s.depth - 1))
    else if tag == 8 then
      if !InputDimensionsSafe(s.globals) then Err(HidError)
      else if s.parsed.usesReportIds && s.globals.reportId == 0 then Err(HidError)
      else
        var added :- AddFields(s, value, 0, s.parsed.fields, BitsUsed(s.parsed, s.globals.reportId));
        Ok(cleared.(parsed := s.parsed.(fields := added.0,
                                        reportBits := s.parsed.reportBits[s.globals.reportId := added.1])))
    else Ok(cleared)
  }

  /** A short item: its prefix byte and its 0, 1, 2 or 4 data bytes. */
  function Item(s: ParseState, prefix: byte, data: seq<byte>): Result<ParseState, Fault>
    requires |data| <= 4
  {
    var kind, tag := prefix / 4 % 4, prefix / 16;
    if kind == 1 then GlobalItem(s, tag, data)
    else if kind == 2 then Ok(LocalItem(s, tag, data))
    else if kind == 0 then MainItem(s, tag, data)
    else Ok(s)
  }

  function DataSize(prefix: byte): nat {
    if prefix % 4 == 3 then 4 else prefix % 4
  }

  function ParseFrom(s: ParseState, descriptor: seq<byte>, offset: nat): Result<ParseState, Fault>
    requires offset <= |descriptor|
    decreases |descriptor| - offset
  {
    if offset == |descriptor| then Ok(s)
    else
      var prefix := descriptor[offset];
      var end := offset + 1 + DataSize(prefix);
      if prefix == 0xfe then Err(HidError)
      else if end > |descriptor| then Err(Truncated)
      else
        var next :- Item(s, prefix, descriptor[offset + 1..end]);
        ParseFrom(next, descriptor, end)
  }

  function Parse(descriptor: seq<byte>): Result<Descriptor, Fault> {
    if descriptor == [] || |descriptor| > MAX_DESCRIPTOR then Err(HidError)
    else
      var s :- ParseFrom(START, descriptor, 0);
      if s.stack != [] || s.depth != 0 || s.parsed.fields == [] then Err(HidError) else Ok(s.parsed)
  }

  // ---------------------------------------------------------------------
  // What parsing guarantees
  // ---------------------------------------------------------------------

  /** Fields of one report lie one after another inside it. */
  ghost predicate FieldsLaidOut(fields: seq<Field>, bits: map<byte, uint32>) {
    && (forall i :: 0 <= i < |fields| ==> FieldInside(fields[i], bits))
    && (forall i, j :: 0 <= i < j < |fields| && fields[i].reportId == fields[j].reportId ==>
          fields[i].bitOffset + fields[i].bitSize <= fields[j].bitOffset)
  }

  ghost predicate FieldInside(f: Field, bits: map<byte, uint32>) {
    && f.reportId in bits
    && 0 < f.bitSize <= MAX_REPORT_SIZE
    && f.bitOffset + f.bitSize <= bits[f.reportId]
    && (f.reportId != 0 ==> f.bitOffset >= 8)
  }

  /** A report's length is bounded by what the descriptor bytes read so far can add. */
  ghost predicate LengthsBounded(bits: map<byte, uint32>, offset: nat) {
    && 0 in bits
    && (forall id :: id in bits ==> bits[id] <= 8 + ITEM_BITS * offset)
    && (forall id :: id in bits && id != 0 ==> bits[id] >= 8)
  }

  ghost predicate Consistent(s: ParseState, offset: nat) {
    && FieldsLaidOut(s.parsed.fields, s.parsed.reportBits)
    && LengthsBounded(s.parsed.reportBits, offset)
    && s.globals.reportId in s.parsed.reportBits
    && (forall i :: 0 <= i < |s.stack| ==> s.stack[i].reportId in s.parsed.reportBits)
  }

  lemma GlobalItemConsistent(s: ParseState, tag: nat, data: seq<byte>, offset: nat)
    requires |data| <= 4 && Consistent(s, offset)
    ensures GlobalItem(s, tag, data).Ok? ==> Consistent(GlobalItem(s, tag, data).value, offset + 1)
  {
    hide ReadUnsigned, ReadSigned, FieldsLaidOut;
    NewReportId(s.parsed.fields, s.parsed.reportBits);
  }

  lemma NewReportId(fields: seq<Field>, bits: map<byte, uint32>)
    requires FieldsLaidOut(fields, bits)
    ensures forall id: byte :: id !in bits ==> FieldsLaidOut(fields, bits[id := 8])
  {
  }

  /** A report may grow, and a field placed where it ended is inside it and after the others. */
  lemma FieldPlaced(fields: seq<Field>, bits: map<byte, uint32>, f: Field, end: uint32)
    requires FieldsLaidOut(fields, bits) && f.reportId in bits
    requires f.bitOffset == bits[f.reportId] && 0 < f.bitSize <= MAX_REPORT_SIZE
    requires end == f.bitOffset + f.bitSize && (f.reportId != 0 ==> f.bitOffset >= 8)
    ensures FieldsLaidOut(fields, bits[f.reportId := end])
    ensures FieldsLaidOut(fields + [f], bits[f.reportId := end])
  {
    var grown := bits[f.reportId := end];
    forall i | 0 <= i < |fields|
      ensures FieldInside(fields[i], grown)
    {
      assert FieldInside(fields[i], bits);
    }
    forall i, j | 0 <= i < j < |fields + [f]| && (fields + [f])[i].reportId == (fields + [f])[j].reportId
      ensures (fields + [f])[i].bitOffset + (fields + [f])[i].bitSize <= (fields + [f])[j].bitOffset
    {
      assert FieldInside(fields[i], bits);
    }
  }

  /** Adding fields never overflows the 32-bit report length. */
  lemma {:induction false} AddFieldsInside(s: ParseState, flags: uint32, index: nat, fields: seq<Field>, offset: uint32,
                                           bits: map<byte, uint32>, start: uint32)
    requires InputDimensionsSafe(s.globals) && index <= s.globals.reportCount
    requires start <= 8 + ITEM_BITS * MAX_DESCRIPTOR && (s.globals.reportId != 0 ==> start >= 8)
    requires start <= offset <= start + MAX_REPORT_SIZE * index
    requires FieldsLaidOut(fields, bits[s.globals.reportId := offset])
    ensures var r := AddFields(s, flags, index, fields, offset);
            && r.Ok? && start <= r.value.1 <= start + ITEM_BITS
            && FieldsLaidOut(r.value.0, bits[s.globals.reportId := r.value.1])
    decreases s.globals.reportCount - index
  {
    hide UsageForIndex, PageOf, FieldsLaidOut;
    if index < s.globals.reportCount {
      var size, id := s.globals.reportSize, s.globals.reportId;
      var field := FieldAt(s, flags, index, offset);
      FieldPlaced(fields, bits[id := offset], field, offset + size);
      assert bits[id := offset][id := offset + size] == bits[id := offset + size];
      var wanted := flags % 2 == 0 && flags / 2 % 2 == 1;
      var grown := if wanted then fields + [field] else fields;
      AddFieldsInside(s, flags, index + 1, grown, offset + size, bits, start);
    }
  }

  lemma InputConsistent(s: ParseState, flags: uint32, offset: nat)
    requires Consistent(s, offset) && offset < MAX_DESCRIPTOR && InputDimensionsSafe(s.globals)
    ensures var bits, id := s.parsed.reportBits, s.globals.reportId;
            var added := AddFields(s, flags, 0, s.parsed.fields, BitsUsed(s.parsed, id));
            && added.Ok?
            && FieldsLaidOut(added.value.0, bits[id := added.value.1])
            && LengthsBounded(bits[id := added.value.1], offset + 1)
  {
    hide AddFields, FieldsLaidOut;
    var bits, id := s.parsed.reportBits, s.globals.reportId;
    assert bits[id := bits[id]] == bits;
    AddFieldsInside(s, flags, 0, s.parsed.fields, bits[id], bits, bits[id]);
  }

  lemma MainItemConsistent(s: ParseState, tag: nat, data: seq<byte>, offset: nat)
    requires |data| <= 4 && Consistent(s, offset) && offset < MAX_DESCRIPTOR
    ensures MainItem(s, tag, data).Ok? ==> Consistent(MainItem(s, tag, data).value, offset + 1)
    ensures MainItem(s, tag, data) != Err(ValueOverflow)
  {
    hide ReadUnsigned, AddFields, FieldsLaidOut, UsageForIndex, PageOf;
    if InputDimensionsSafe(s.globals) {
      InputConsistent(s, ReadUnsigned(data), offset);
    }
  }

  lemma ItemConsistent(s: ParseState, prefix: byte, data: seq<byte>, offset: nat)
    requires |data| <= 4 && Consistent(s, offset) && offset < MAX_DESCRIPTOR
    ensures Item(s, prefix, data).Ok? ==> Consistent(Item(s, prefix, data).value, offset + 1)
    ensures Item(s, prefix, data) != Err(ValueOverflow)
  {
    hide GlobalItem, MainItem, FieldsLaidOut;
    GlobalItemConsistent(s, prefix / 16, data, offset);
    MainItemConsistent(s, prefix / 16, data, offset);
    GlobalItemFaults(s, prefix / 16, data);
  }

  lemma GlobalItemFaults(s: ParseState, tag: nat, data: seq<byte>)
    requires |data| <= 4
    ensures GlobalItem(s, tag, data).Err? ==> GlobalItem(s, tag, data).error == HidError
  {
  }

  lemma LengthsGrow(s: ParseState, a: nat, b: nat)
    requires Consistent(s, a) && a <= b
    ensures Consistent(s, b)
  {
  }

  lemma {:induction false} ParseFromConsistent(s: ParseState, descriptor: seq<byte>, offset: nat)
    requires offset <= |descriptor| <= MAX_DESCRIPTOR && Consistent(s, offset)
    ensures ParseFrom(s, descriptor, offset).Ok? ==>
              Consistent(ParseFrom(s, descriptor, offset).value, MAX_DESCRIPTOR)
    ensures ParseFrom(s, descriptor, offset) != Err(ValueOverflow)
    decreases |descriptor| - offset
  {
    hide Item, Consistent;
    if offset == |descriptor| {
      LengthsGrow(s, offset, MAX_DESCRIPTOR);
    } else {
      var prefix := descriptor[offset];
      var end := offset + 1 + DataSize(prefix);
      if prefix != 0xfe && end <= |descriptor| {
        var data := descriptor[offset + 1..end];
        ItemConsistent(s, prefix, data, offset);
        if Item(s, prefix, data).Ok? {
          var next := Item(s, prefix, data).value;
          LengthsGrow(next, offset + 1, end);
          ParseFromConsistent(next, descriptor, end);
        }
      }
    }
  }

  /** Every accepted descriptor has fields that are disjoint and in increasing order within
      each report, inside the report's length, and clear of the ID byte when there is one;
      and the report-length overflow check never fires. */
  lemma ParsedDescriptor(descriptor: seq<byte>)
    ensures Parse(descriptor).Ok? ==>
              var d := Parse(descriptor).value;
              && FieldsLaidOut(d.fields, d.reportBits)
              && LengthsBounded(d.reportBits, MAX_DESCRIPTOR)
              && d.fields != []
    ensures Parse(descriptor) != Err(ValueOverflow)
  {
    hide ParseFrom, FieldsLaidOut;
    if 0 < |descriptor| <= MAX_DESCRIPTOR {
      NothingLaidOut(map[0 := 0]);
      ParseFromConsistent(START, descriptor, 0);
    }
  }

  lemma NothingLaidOut(bits: map<byte, uint32>)
    ensures FieldsLaidOut([], bits)
  {
  }

  // ---------------------------------------------------------------------
  // The parsing loop
  // ---------------------------------------------------------------------

  method AddInputFields(s: ParseState, flags: uint32) returns (result: Result<(seq<Field>, uint32), Fault>)
    requires InputDimensionsSafe(s.globals)
    ensures result == AddFields(s, flags, 0, s.parsed.fields, BitsUsed(s.parsed, s.globals.reportId))
  {
    hide UsageForIndex, PageOf;
    var fields := s.parsed.fields;
    var offset: uint32 := BitsUsed(s.parsed, s.globals.reportId);
    var constant, variable := flags % 2 == 1, flags / 2 % 2 == 1;
    for i := 0 to s.globals.reportCount
      invariant AddFields(s, flags, 0, s.parsed.fields, BitsUsed(s.parsed, s.globals.reportId))
             == AddFields(s, flags, i, fields, offset)
    {
      if !constant && variable {
        fields := fields + [FieldAt(s, flags, i, offset)];
      }
      if offset > MAX_UINT32 - s.globals.reportSize {
        return Err(ValueOverflow);
      }
      offset := offset + s.globals.reportSize;
    }
    return Ok((fields, offset));
  }

  /** The item loop of Parse. */
  method ParseDescriptor(descriptor: seq<byte>) returns (result: Result<Descriptor, Fault>)
    ensures result == Parse(descriptor)
  {
    hide GlobalItem, LocalItem, AddFields, UsageForIndex, PageOf;
    if descriptor == [] || |descriptor| > MAX_DESCRIPTOR {
      return Err(HidError);
    }
    var s := START;
    var offset := 0;
    while offset < |descriptor|
      invariant offset <= |descriptor|
      invariant ParseFrom(START, descriptor, 0) == ParseFrom(s, descriptor, offset)
    {
      var prefix := descriptor[offset];
      if prefix == 0xfe {
        return Err(HidError);
      }
      var end := offset + 1 + DataSize(prefix);
      if end > |descriptor| {
        return Err(Truncated);
      }
      var data := descriptor[offset + 1..end];
      var next;
      if prefix / 4 % 4 == 0 && prefix / 16 == 8 {
        next := InputItem(s, data);
      } else {
        next := Item(s, prefix, data);
      }
      if next.Err? {
        return Err(next.error);
      }
      s := next.value;
      offset := end;
    }
    if s.stack != [] || s.depth != 0 || s.parsed.fields == [] {
      return Err(HidError);
    }
    return Ok(s.parsed);
  }

  method InputItem(s: ParseState, data: seq<byte>) returns (result: Result<ParseState, Fault>)
    requires |data| <= 4
    ensures result == MainItem(s, 8, data)
  {
    hide AddFields, ReadUnsigned;
    if !InputDimensionsSafe(s.globals) {
      return Err(HidError);
    }
    if s.parsed.usesReportIds && s.globals.reportId == 0 {
      return Err(HidError);
    }
    var added :- AddInputFields(s, ReadUnsigned(data));
    return Ok(s.(locals := NO_LOCALS,
                 parsed := s.parsed.(fields := added.0,
                                     reportBits := s.parsed.reportBits[s.globals.reportId := added.1])));
  }
}
