/** Descriptors as a device's author declares them: fields, collections and saved settings, written
    as the short items of HID 1.11 (section 6.2.2) and read back by the parser. */
module HidDeclarations {
  import opened Machine
  import opened Binary
  import opened HidDescriptor

  // ---------------------------------------------------------------------
  // Short items
  // ---------------------------------------------------------------------

  /** The prefix byte without its size bits, and the data. */
  datatype PrefixAndData = PrefixAndData(prefix: byte, data: seq<byte>)

  predicate Writable(i: PrefixAndData) {
    i.prefix % 4 == 0 && i.prefix <= 0xf0 && (|i.data| <= 2 || |i.data| == 4)
  }

  type ShortItem = i: PrefixAndData | Writable(i) witness PrefixAndData(0, [])

  function ItemBytes(i: ShortItem): seq<byte> {
    [i.prefix + (if |i.data| == 4 then 3 else |i.data|)] + i.data
  }

  /** The value in as few of 1, 2 or 4 bytes as will hold it. */
  function Unsigned(prefix: byte, value: uint32): ShortItem
    requires prefix % 4 == 0 && prefix <= 0xf0
  {
    PrefixAndData(prefix, LittleEndian(value, if value < 0x100 then 1 else if value < 0x1_0000 then 2 else 4))
  }

  /** The same in two's complement. */
  function Signed(prefix: byte, value: int32): ShortItem
    requires prefix % 4 == 0 && prefix <= 0xf0
  {
    if -0x80 <= value < 0x80 then PrefixAndData(prefix, LittleEndian(value % 0x100, 1))
    else if -0x8000 <= value < 0x8000 then PrefixAndData(prefix, LittleEndian(value % 0x1_0000, 2))
    else PrefixAndData(prefix, LittleEndian(value % 0x1_0000_0000, 4))
  }

  function Bytes(items: seq<ShortItem>): seq<byte> {
    if items == [] then [] else ItemBytes(items[0]) + Bytes(items[1..])
  }

  // ---------------------------------------------------------------------
  // Declarations
  // ---------------------------------------------------------------------

  /** An Input item with all that bears on it. The usages listed come first, then those of the
      range, if there is one; a report ID of 0 stands for none. */
  datatype Input = Input(
    page: uint16,
    usages: seq<uint32>,
    range: Option<(uint32, uint32)>,
    minimum: int32,
    maximum: int64,
    size: uint32,
    count: uint32,
    reportId: byte,
    flags: uint32)

  predicate Declarable(d: Input) {
    && 1 <= d.size <= 32 && 1 <= d.count <= 1024
    && (if d.minimum < 0 then MIN_INT32 <= d.maximum <= MAX_INT32 else 0 <= d.maximum <= MAX_UINT32)
  }

  type Declaration = d: Input | Declarable(d) witness Input(0, [], None, 0, 0, 1, 1, 0, 0)

  datatype Step =
    | Declare(d: Declaration)
    | Open(page: uint16, usage: uint32, kind: byte)
    | Close
    | Save
    | Restore

  /** What a step writes under the settings in force: only the settings that change. */
  function StepItems(step: Step, g: Globals): seq<ShortItem> {
    match step
    case Declare(d) => SettingItems(d, g) + UsageItems(d) + [Unsigned(0x80, d.flags)]
    case Open(page, usage, kind) => PageItem(page, g) + [Unsigned(0x08, usage), Unsigned(0xa0, kind)]
    case Close => [PrefixAndData(0xc0, [])]
    case Save => [PrefixAndData(0xa4, [])]
    case Restore => [PrefixAndData(0xb4, [])]
  }

  function PageItem(page: uint16, g: Globals): seq<ShortItem> {
    if g.usagePage == page then [] else [Unsigned(0x04, page)]
  }

  function MinimumItem(d: Declaration, g: Globals): seq<ShortItem> {
    if g.logicalMinimum == d.minimum then [] else [Signed(0x14, d.minimum)]
  }

  function MaximumItem(d: Declaration, g: Globals): seq<ShortItem> {
    if g.logicalMaximum == d.maximum then []
    else if d.minimum < 0 then [Signed(0x24, d.maximum)]
    else [Unsigned(0x24, d.maximum)]
  }

  function SizeItem(d: Declaration, g: Globals): seq<ShortItem> {
    if g.reportSize == d.size then [] else [Unsigned(0x74, d.size)]
  }

  function CountItem(d: Declaration, g: Globals): seq<ShortItem> {
    if g.reportCount == d.count then [] else [Unsigned(0x94, d.count)]
  }

  function IdItem(d: Declaration, g: Globals): seq<ShortItem> {
    if g.reportId == d.reportId then [] else [Unsigned(0x84, d.reportId)]
  }

  function SettingItems(d: Declaration, g: Globals): seq<ShortItem> {
    PageItem(d.page, g) + MinimumItem(d, g) + MaximumItem(d, g) + SizeItem(d, g) + CountItem(d, g) + IdItem(d, g)
  }

  function UsageItems(d: Declaration): seq<ShortItem> {
    ListItems(d.usages) + (if d.range.Some? then [Unsigned(0x18, d.range.value.0), Unsigned(0x28, d.range.value.1)]
                           else [])
  }

  function ListItems(usages: seq<uint32>): (items: seq<ShortItem>)
    ensures |items| == |usages|
  {
    seq(|usages|, i requires 0 <= i < |usages| => Unsigned(0x08, usages[i]))
  }

  /** The settings in force after a step, and those saved. */
  function NextSettings(step: Step, g: Globals, saved: seq<Globals>): Globals {
    match step
    case Declare(d) => Globals(d.page, d.minimum, d.maximum, d.size, d.count, d.reportId)
    case Open(page, _, _) => g.(usagePage := page)
    case Close => g
    case Save => g
    case Restore => if saved == [] then g else saved[|saved| - 1]
  }

  function NextSaved(step: Step, g: Globals, saved: seq<Globals>): seq<Globals> {
    match step
    case Save => saved + [g]
    case Restore => if saved == [] then [] else saved[..|saved| - 1]
    case _ => saved
  }

  function NextDepth(step: Step, depth: nat): nat {
    match step
    case Open(_, _, _) => depth + 1
    case Close => if depth == 0 then 0 else depth - 1
    case _ => depth
  }

  predicate Permitted(step: Step, saved: nat, depth: nat) {
    match step
    case Close => depth > 0
    case Restore => saved > 0
    case _ => true
  }

  /** Every step is permitted where it stands, and nothing is left open or saved at the end. */
  predicate Balanced(steps: seq<Step>, g: Globals, saved: seq<Globals>, depth: nat) {
    if steps == [] then saved == [] && depth == 0
    else
      && Permitted(steps[0], |saved|, depth)
      && Balanced(steps[1..], NextSettings(steps[0], g, saved), NextSaved(steps[0], g, saved),
                  NextDepth(steps[0], depth))
  }

  function Write(steps: seq<Step>, g: Globals, saved: seq<Globals>): seq<byte> {
    if steps == [] then []
    else
      Bytes(StepItems(steps[0], g)) + Write(steps[1..], NextSettings(steps[0], g, saved), NextSaved(steps[0], g, saved))
  }

  /** Before the first item every setting is 0. */
  const INITIAL := Globals(0, 0, 0, 0, 0, 0)

  // ---------------------------------------------------------------------
  // What is declared
  // ---------------------------------------------------------------------

  /** One of the `count` values of an Input item; `field` if it is data and variable. */
  datatype Slot = Slot(
    reportId: byte,
    usagePage: nat,
    usage: nat,
    size: nat,
    minimum: int,
    maximum: int,
    relative: bool,
    field: bool)

  /** Usage i of a declaration: from the list, then from the range, and then the last listed. */
  function UsageAt(d: Declaration, i: nat): nat {
    if i < |d.usages| then d.usages[i]
    else if d.range.Some? && (d.range.value.0 + i) % 0x1_0000_0000 <= d.range.value.1
    then (d.range.value.0 + i) % 0x1_0000_0000
    else if d.usages != [] then d.usages[|d.usages| - 1]
    else 0
  }

  /** A usage of more than 16 bits brings its own page. */
  function SlotAt(d: Declaration, i: nat): Slot {
    var u := UsageAt(d, i);
    Slot(d.reportId, if u > 0xffff then u / 0x1_0000 else d.page, u % 0x1_0000, d.size, d.minimum, d.maximum,
         d.flags / 4 % 2 == 1, d.flags % 2 == 0 && d.flags / 2 % 2 == 1)
  }

  function SlotsIn(d: Declaration): (slots: seq<Slot>)
    ensures |slots| == d.count
  {
    seq(d.count, i requires 0 <= i < d.count => SlotAt(d, i))
  }

  function SlotsOf(steps: seq<Step>): seq<Slot> {
    if steps == [] then []
    else (if steps[0].Declare? then SlotsIn(steps[0].d) else []) + SlotsOf(steps[1..])
  }

  /** The bits of a report that some slots take up, and where its fields begin. */
  function SizeOf(slots: seq<Slot>, id: byte): nat {
    if slots == [] then 0
    else
      var k := |slots| - 1;
      SizeOf(slots[..k], id) + (if slots[k].reportId == id then slots[k].size else 0)
  }

  function BitsOf(slots: seq<Slot>, id: byte): nat {
    (if id == 0 then 0 else 8) + SizeOf(slots, id)
  }

  /** The slots that are fields, each with the bits of its report before it. */
  function Placed(slots: seq<Slot>): seq<(Slot, nat)> {
    if slots == [] then []
    else
      var k := |slots| - 1;
      Placed(slots[..k]) + (if slots[k].field then [(slots[k], BitsOf(slots[..k], slots[k].reportId))] else [])
  }

  predicate Fits(f: Field, s: Slot, offset: nat) {
    && f.reportId == s.reportId && f.usagePage == s.usagePage && f.usage == s.usage
    && f.bitOffset == offset && f.bitSize == s.size
    && f.logicalMinimum == s.minimum && f.logicalMaximum == s.maximum && f.relative == s.relative
  }

  /** The fields are those of the slots, one after the other. */
  predicate AllFit(fields: seq<Field>, slots: seq<Slot>) {
    var placed := Placed(slots);
    |fields| == |placed| && forall i :: 0 <= i < |fields| ==> Fits(fields[i], placed[i].0, placed[i].1)
  }

  /** The applications among the outermost collections. */
  function Applications(steps: seq<Step>, depth: nat): seq<Collection> {
    if steps == [] then []
    else
      (if steps[0].Open? && depth == 0 && steps[0].kind == 1
       then [Collection(if steps[0].usage > 0xffff then steps[0].usage / 0x1_0000 else steps[0].page,
                        steps[0].usage % 0x1_0000)]
       else [])
      + Applications(steps[1..], NextDepth(steps[0], depth))
  }

  predicate Mentions(slots: seq<Slot>, id: byte) {
    exists i :: 0 <= i < |slots| && slots[i].reportId == id
  }

  // ---------------------------------------------------------------------
  // Reading one item
  // ---------------------------------------------------------------------

  /** What the parser does with some items. */
  function Run(s: ParseState, items: seq<ShortItem>): Result<ParseState, Fault>
    decreases |items|
  {
    if items == [] then Ok(s)
    else
      var next :- Item(s, items[0].prefix, items[0].data);
      Run(next, items[1..])
  }

  lemma {:induction false} RunJoin(s: ParseState, a: seq<ShortItem>, b: seq<ShortItem>)
    requires Run(s, a).Ok?
    ensures Run(s, a + b) == Run(Run(s, a).value, b)
    decreases |a|
  {
    hide Item;
    if a == [] {
      assert [] + b == b;
    } else {
      assert (a + b)[1..] == a[1..] + b;
      RunJoin(Item(s, a[0].prefix, a[0].data).value, a[1..], b);
    }
  }

  lemma RunOne(s: ParseState, i: ShortItem)
    ensures Run(s, [i]) == Item(s, i.prefix, i.data)
  {
    hide Item;
    assert [i][1..] == [];
  }

  /** The size bits of the prefix say how many bytes follow and nothing else. */
  lemma SizeBits(s: ParseState, i: ShortItem)
    ensures var prefix := ItemBytes(i)[0];
            && DataSize(prefix) == |i.data| && prefix != 0xfe
            && Item(s, prefix, i.data) == Item(s, i.prefix, i.data)
  {
    hide GlobalItem, LocalItem, MainItem;
    var prefix := ItemBytes(i)[0];
    assert prefix / 4 % 4 == i.prefix / 4 % 4 && prefix / 16 == i.prefix / 16;
  }

  lemma ParseOne(s: ParseState, i: ShortItem, bytes: seq<byte>, offset: nat, rest: seq<byte>)
    requires offset <= |bytes| && bytes[offset..] == ItemBytes(i) + rest && Item(s, i.prefix, i.data).Ok?
    ensures |ItemBytes(i)| == 1 + |i.data|
    ensures offset + 1 + |i.data| <= |bytes| && bytes[offset + 1 + |i.data|..] == rest
    ensures ParseFrom(s, bytes, offset)
         == ParseFrom(Item(s, i.prefix, i.data).value, bytes, offset + 1 + |i.data|)
  {
    hide Item, ItemBytes, DataSize;
    SizeBits(s, i);
    FrontOf(bytes, offset, i, rest);
  }

  lemma {:induction false} ParseItems(s: ParseState, items: seq<ShortItem>, bytes: seq<byte>, offset: nat,
                                      rest: seq<byte>)
    requires offset <= |bytes| && bytes[offset..] == Bytes(items) + rest && Run(s, items).Ok?
    ensures offset + |Bytes(items)| <= |bytes| && bytes[offset + |Bytes(items)|..] == rest
    ensures ParseFrom(s, bytes, offset) == ParseFrom(Run(s, items).value, bytes, offset + |Bytes(items)|)
    decreases |items|
  {
    hide Item, ItemBytes, DataSize, ParseFrom;
    if items == [] {
      assert [] + rest == rest;
    } else {
      var i, others := items[0], Bytes(items[1..]);
      Assoc(ItemBytes(i), others, rest);
      ParseOne(s, i, bytes, offset, others + rest);
      ParseItems(Item(s, i.prefix, i.data).value, items[1..], bytes, offset + 1 + |i.data|, rest);
    }
  }

  lemma FrontOf(bytes: seq<byte>, offset: nat, i: ShortItem, rest: seq<byte>)
    ensures |ItemBytes(i)| == 1 + |i.data|
    ensures offset <= |bytes| && bytes[offset..] == ItemBytes(i) + rest ==>
              var end := offset + 1 + |i.data|;
              && end <= |bytes| && bytes[offset] == ItemBytes(i)[0] && bytes[offset + 1..end] == i.data
              && bytes[end..] == rest
  {
    if offset <= |bytes| && bytes[offset..] == ItemBytes(i) + rest {
      var end := offset + 1 + |i.data|;
      var tail := bytes[offset..];
      assert bytes[offset] == tail[0] && bytes[end..] == tail[1 + |i.data|..];
      assert tail[1..1 + |i.data|] == i.data;
      assert bytes[offset..|bytes|] == tail;
      SliceOfSlice(bytes, offset, |bytes|, 1, 1 + |i.data|);
    }
  }

  lemma UnsignedReads(prefix: byte, value: uint32)
    requires prefix % 4 == 0 && prefix <= 0xf0
    ensures Unsigned(prefix, value).prefix == prefix && |Unsigned(prefix, value).data| > 0
    ensures HidDescriptor.ReadUnsigned(Unsigned(prefix, value).data) == value
  {
    hide LittleEndian, FromLittleEndian;
    Widths();
    FixedRoundTrip(value, if value < 0x100 then 1 else if value < 0x1_0000 then 2 else 4, true);
  }

  lemma SignedReads(prefix: byte, value: int32)
    requires prefix % 4 == 0 && prefix <= 0xf0
    ensures Signed(prefix, value).prefix == prefix && ReadSigned(Signed(prefix, value).data) == value
  {
    hide LittleEndian, FromLittleEndian;
    Widths();
    FixedRoundTrip(value % 0x100, 1, true);
    FixedRoundTrip(value % 0x1_0000, 2, true);
    FixedRoundTrip(value % 0x1_0000_0000, 4, true);
  }

  // ---------------------------------------------------------------------
  // Reading the settings and usages of a declaration
  // ---------------------------------------------------------------------

  function SettingsOf(d: Declaration): Globals {
    Globals(d.page, d.minimum, d.maximum, d.size, d.count, d.reportId)
  }

  function LocalsOf(d: Declaration): Locals {
    if d.range.Some? then Locals(d.usages, d.range.value.0, d.range.value.1, true) else Locals(d.usages, 0, 0, false)
  }

  /** A report ID that is not the one in force is made known. */
  function Registered(parsed: Descriptor, current: byte, id: byte): Descriptor {
    if current == id then parsed
    else
      parsed.(usesReportIds := true,
              reportBits := if id in parsed.reportBits then parsed.reportBits else parsed.reportBits[id := 8])
  }

  lemma PageRuns(s: ParseState, g: Globals, page: uint16)
    requires s.globals.usagePage == g.usagePage
    ensures Run(s, PageItem(page, g)) == Ok(s.(globals := s.globals.(usagePage := page)))
  {
    if g.usagePage != page {
      RunOne(s, Unsigned(0x04, page));
      UnsignedReads(0x04, page);
    }
  }

  lemma MinimumRuns(s: ParseState, g: Globals, d: Declaration)
    requires s.globals.logicalMinimum == g.logicalMinimum
    ensures Run(s, MinimumItem(d, g)) == Ok(s.(globals := s.globals.(logicalMinimum := d.minimum)))
  {
    if g.logicalMinimum != d.minimum {
      RunOne(s, Signed(0x14, d.minimum));
      SignedReads(0x14, d.minimum);
    }
  }

  lemma MaximumRuns(s: ParseState, g: Globals, d: Declaration)
    requires s.globals.logicalMaximum == g.logicalMaximum && s.globals.logicalMinimum == d.minimum
    ensures Run(s, MaximumItem(d, g)) == Ok(s.(globals := s.globals.(logicalMaximum := d.maximum)))
  {
    if g.logicalMaximum != d.maximum {
      RunOne(s, MaximumItem(d, g)[0]);
      if d.minimum < 0 {
        SignedReads(0x24, d.maximum);
      } else {
        UnsignedReads(0x24, d.maximum);
      }
    }
  }

  lemma SizeRuns(s: ParseState, g: Globals, d: Declaration)
    requires s.globals.reportSize == g.reportSize
    ensures Run(s, SizeItem(d, g)) == Ok(s.(globals := s.globals.(reportSize := d.size)))
  {
    if g.reportSize != d.size {
      RunOne(s, Unsigned(0x74, d.size));
      UnsignedReads(0x74, d.size);
    }
  }

  lemma CountRuns(s: ParseState, g: Globals, d: Declaration)
    requires s.globals.reportCount == g.reportCount
    ensures Run(s, CountItem(d, g)) == Ok(s.(globals := s.globals.(reportCount := d.count)))
  {
    if g.reportCount != d.count {
      RunOne(s, Unsigned(0x94, d.count));
      UnsignedReads(0x94, d.count);
    }
  }

  lemma IdRuns(s: ParseState, g: Globals, d: Declaration)
    requires s.globals.reportId == g.reportId && (g.reportId == d.reportId || d.reportId != 0)
    ensures Run(s, IdItem(d, g))
         == Ok(s.(globals := s.globals.(reportId := d.reportId),
                  parsed := Registered(s.parsed, g.reportId, d.reportId)))
  {
    if g.reportId != d.reportId {
      RunOne(s, Unsigned(0x84, d.reportId));
      UnsignedReads(0x84, d.reportId);
    }
  }

  lemma SettingsRun(s: ParseState, d: Declaration)
    requires s.globals.reportId == d.reportId || d.reportId != 0
    ensures Run(s, SettingItems(d, s.globals))
         == Ok(s.(globals := SettingsOf(d), parsed := Registered(s.parsed, s.globals.reportId, d.reportId)))
  {
    hide Run, PageItem, MinimumItem, MaximumItem, SizeItem, CountItem, IdItem, Registered;
    var g := s.globals;
    var s1 := s.(globals := g.(usagePage := d.page));
    var s2 := s1.(globals := s1.globals.(logicalMinimum := d.minimum));
    var s3 := s2.(globals := s2.globals.(logicalMaximum := d.maximum));
    var s4 := s3.(globals := s3.globals.(reportSize := d.size));
    var s5 := s4.(globals := s4.globals.(reportCount := d.count));
    PageRuns(s, g, d.page);
    MinimumRuns(s1, g, d);
    MaximumRuns(s2, g, d);
    SizeRuns(s3, g, d);
    CountRuns(s4, g, d);
    IdRuns(s5, g, d);
    var i1 := PageItem(d.page, g);
    var i2 := i1 + MinimumItem(d, g);
    var i3 := i2 + MaximumItem(d, g);
    var i4 := i3 + SizeItem(d, g);
    var i5 := i4 + CountItem(d, g);
    RunJoin(s, i1, MinimumItem(d, g));
    RunJoin(s, i2, MaximumItem(d, g));
    RunJoin(s, i3, SizeItem(d, g));
    RunJoin(s, i4, CountItem(d, g));
    RunJoin(s, i5, IdItem(d, g));
  }

  lemma UsageRuns(s: ParseState, u: uint32)
    ensures var i := Unsigned(0x08, u);
            Item(s, i.prefix, i.data) == Ok(s.(locals := s.locals.(usages := s.locals.usages + [u])))
  {
    UnsignedReads(0x08, u);
  }

  lemma {:induction false} ListRuns(s: ParseState, usages: seq<uint32>)
    ensures Run(s, ListItems(usages)) == Ok(s.(locals := s.locals.(usages := s.locals.usages + usages)))
    decreases |usages|
  {
    hide Item, Unsigned;
    if usages == [] {
      assert s.locals.usages + [] == s.locals.usages;
    } else {
      var next := s.(locals := s.locals.(usages := s.locals.usages + [usages[0]]));
      UsageRuns(s, usages[0]);
      ListRuns(next, usages[1..]);
      assert ListItems(usages)[1..] == ListItems(usages[1..]);
      assert s.locals.usages + [usages[0]] + usages[1..] == s.locals.usages + usages;
    }
  }

  lemma RangeRuns(s: ParseState, first: uint32, last: uint32)
    ensures Run(s, [Unsigned(0x18, first), Unsigned(0x28, last)])
         == Ok(s.(locals := s.locals.(usageMinimum := first, usageMaximum := last, hasUsageRange := true)))
  {
    UnsignedReads(0x18, first);
    UnsignedReads(0x28, last);
    var a, b := Unsigned(0x18, first), Unsigned(0x28, last);
    var next := s.(locals := s.locals.(usageMinimum := first, hasUsageRange := true));
    assert Item(s, a.prefix, a.data) == Ok(next);
    assert [a, b][1..] == [b];
    RunOne(next, b);
  }

  lemma UsagesRun(s: ParseState, d: Declaration)
    requires s.locals == NO_LOCALS
    ensures Run(s, UsageItems(d)) == Ok(s.(locals := LocalsOf(d)))
  {
    hide Run, Unsigned, ListItems;
    ListRuns(s, d.usages);
    var listed := s.(locals := s.locals.(usages := s.locals.usages + d.usages));
    assert s.locals.usages + d.usages == d.usages;
    if d.range.Some? {
      RangeRuns(listed, d.range.value.0, d.range.value.1);
      RunJoin(s, ListItems(d.usages), [Unsigned(0x18, d.range.value.0), Unsigned(0x28, d.range.value.1)]);
    } else {
      assert ListItems(d.usages) + [] == ListItems(d.usages);
    }
  }

  // ---------------------------------------------------------------------
  // Reading an Input item
  // ---------------------------------------------------------------------

  lemma SizeGrows(slots: seq<Slot>, slot: Slot, id: byte)
    ensures SizeOf(slots + [slot], id) == SizeOf(slots, id) + (if slot.reportId == id then slot.size else 0)
  {
    assert (slots + [slot])[..|slots|] == slots;
  }

  lemma AllFitGrows(fields: seq<Field>, slots: seq<Slot>, f: Field, slot: Slot)
    requires AllFit(fields, slots)
    ensures !slot.field ==> AllFit(fields, slots + [slot])
    ensures slot.field && Fits(f, slot, BitsOf(slots, slot.reportId)) ==> AllFit(fields + [f], slots + [slot])
  {
    hide Fits, BitsOf;
    assert (slots + [slot])[..|slots|] == slots;
  }

  lemma FieldAtFits(s: ParseState, d: Declaration, i: nat, offset: uint32)
    requires s.globals == SettingsOf(d) && s.locals == LocalsOf(d) && i < d.count
    ensures InputDimensionsSafe(s.globals) && Fits(FieldAt(s, d.flags, i, offset), SlotAt(d, i), offset)
  {
  }

  /** The loop over the count adds exactly the declared fields, where the report's bits end. */
  lemma {:induction false} AddFieldsFit(s: ParseState, d: Declaration, slots: seq<Slot>, index: nat, fields: seq<Field>,
                                        offset: uint32)
    requires s.globals == SettingsOf(d) && s.locals == LocalsOf(d) && index <= d.count
    requires AllFit(fields, slots + SlotsIn(d)[..index])
    requires offset == BitsOf(slots + SlotsIn(d)[..index], d.reportId)
    requires offset + 32 * (d.count - index) <= MAX_UINT32
    ensures var added := AddFields(s, d.flags, index, fields, offset);
            && added.Ok? && AllFit(added.value.0, slots + SlotsIn(d))
            && added.value.1 == BitsOf(slots + SlotsIn(d), d.reportId)
    decreases d.count - index
  {
    hide UsageForIndex, PageOf, AllFit, Fits, UsageAt, SizeOf;
    assert SlotsIn(d)[..d.count] == SlotsIn(d);
    if index < d.count {
      var before, slot := slots + SlotsIn(d)[..index], SlotAt(d, index);
      assert slots + SlotsIn(d)[..index + 1] == before + [slot];
      FieldAtFits(s, d, index, offset);
      var field := FieldAt(s, d.flags, index, offset);
      AllFitGrows(fields, before, field, slot);
      SizeGrows(before, slot, d.reportId);
      AddFieldsFit(s, d, slots, index + 1, if slot.field then fields + [field] else fields, offset + d.size);
    }
  }

  // ---------------------------------------------------------------------
  // Reading the steps
  // ---------------------------------------------------------------------

  /** The lengths of the reports are those of their slots, and exactly the reports of slots, and
      report 0, have one. */
  ghost predicate LengthsFit(bits: map<byte, uint32>, slots: seq<Slot>) {
    forall id: byte ::
      && (id in bits <==> id == 0 || Mentions(slots, id))
      && (id in bits ==> bits[id] == BitsOf(slots, id))
  }

  /** Either all slots have report IDs or none has. */
  predicate OneKind(slots: seq<Slot>, ids: bool) {
    forall i :: 0 <= i < |slots| ==> (slots[i].reportId != 0) == ids
  }

  /** What has been parsed is what has been declared. */
  ghost predicate Reflects(parsed: Descriptor, slots: seq<Slot>, applications: seq<Collection>, ids: bool) {
    && AllFit(parsed.fields, slots) && LengthsFit(parsed.reportBits, slots) && OneKind(slots, ids)
    && parsed.collections == applications && (parsed.usesReportIds <==> ids && slots != [])
  }

  ghost predicate SettingsKnown(g: Globals, slots: seq<Slot>) {
    g.reportId != 0 ==> Mentions(slots, g.reportId)
  }

  /** The parser is where the writer is. */
  ghost predicate Tracks(s: ParseState, g: Globals, saved: seq<Globals>, depth: nat, slots: seq<Slot>,
                         applications: seq<Collection>, ids: bool)
  {
    && s.globals == g && s.stack == saved && s.depth == depth && s.locals == NO_LOCALS
    && SettingsKnown(g, slots) && (forall i :: 0 <= i < |saved| ==> SettingsKnown(saved[i], slots))
    && Reflects(s.parsed, slots, applications, ids)
  }

  ghost predicate Short(slots: seq<Slot>, n: nat) {
    forall id: byte :: SizeOf(slots, id) <= 32768 * n
  }

  lemma {:induction false} SizeJoins(a: seq<Slot>, b: seq<Slot>, id: byte)
    ensures SizeOf(a + b, id) == SizeOf(a, id) + SizeOf(b, id)
    decreases |b|
  {
    if b == [] {
      assert a + [] == a;
    } else {
      var k := |b| - 1;
      assert a + b == a + b[..k] + [b[k]];
      SizeGrows(a + b[..k], b[k], id);
      SizeJoins(a, b[..k], id);
    }
  }

  lemma {:induction false} SizeBound(slots: seq<Slot>, id: byte)
    requires forall i :: 0 <= i < |slots| ==> slots[i].size <= 32
    ensures SizeOf(slots, id) <= 32 * |slots|
  {
    if slots != [] {
      SizeBound(slots[..|slots| - 1], id);
    }
  }

  lemma StaysShort(slots: seq<Slot>, d: Declaration, n: nat)
    requires Short(slots, n)
    ensures Short(slots + SlotsIn(d), n + 1)
  {
    hide UsageAt;
    forall id: byte
      ensures SizeOf(slots + SlotsIn(d), id) <= 32768 * (n + 1)
    {
      SizeJoins(slots, SlotsIn(d), id);
      SizeBound(SlotsIn(d), id);
    }
  }

  lemma SlotsHaveId(d: Declaration)
    ensures forall i :: 0 <= i < |SlotsIn(d)| ==> SlotsIn(d)[i].reportId == d.reportId
    ensures SlotsIn(d) != []
  {
    hide UsageAt;
  }

  lemma MentionsJoin(slots: seq<Slot>, d: Declaration, id: byte)
    ensures Mentions(slots + SlotsIn(d), id) <==> Mentions(slots, id) || id == d.reportId
  {
    SlotsHaveId(d);
    hide SlotsIn;
    var all := slots + SlotsIn(d);
    if i :| 0 <= i < |slots| && slots[i].reportId == id {
      assert all[i].reportId == id;
    }
    assert all[|slots|].reportId == d.reportId;
    if Mentions(all, id) {
      var i :| 0 <= i < |all| && all[i].reportId == id;
      assert i < |slots| ==> slots[i].reportId == id;
      assert i >= |slots| ==> SlotsIn(d)[i - |slots|].reportId == id;
    }
  }

  lemma {:induction false} NotMentioned(slots: seq<Slot>, id: byte)
    requires !Mentions(slots, id)
    ensures SizeOf(slots, id) == 0
  {
    if slots != [] {
      var k := |slots| - 1;
      assert slots[k].reportId != id;
      assert forall i :: 0 <= i < k ==> slots[..k][i] == slots[i];
      NotMentioned(slots[..k], id);
    }
  }

  lemma OneKindJoins(slots: seq<Slot>, d: Declaration, ids: bool)
    requires OneKind(slots, ids) && (d.reportId != 0) == ids
    ensures OneKind(slots + SlotsIn(d), ids) && slots + SlotsIn(d) != []
  {
    SlotsHaveId(d);
  }

  /** The report is known, and its bits so far are those of its slots. */
  lemma RegisteredBits(parsed: Descriptor, g: Globals, d: Declaration, slots: seq<Slot>, applications: seq<Collection>,
                       ids: bool)
    requires Reflects(parsed, slots, applications, ids) && SettingsKnown(g, slots) && (d.reportId != 0) == ids
    requires g.reportId == d.reportId || d.reportId != 0
    ensures var known := Registered(parsed, g.reportId, d.reportId);
            && known.fields == parsed.fields && known.collections == parsed.collections
            && (known.usesReportIds <==> ids)
            && BitsUsed(known, d.reportId) == BitsOf(slots, d.reportId)
            && (forall id :: id in known.reportBits <==> id in parsed.reportBits || id == d.reportId)
            && (forall id :: id in parsed.reportBits ==> known.reportBits[id] == parsed.reportBits[id])
    ensures !ids ==> !Registered(parsed, g.reportId, d.reportId).usesReportIds
  {
    hide AllFit, SizeOf;
    if d.reportId !in parsed.reportBits {
      NotMentioned(slots, d.reportId);
    }
    if g.reportId == d.reportId && ids {
      assert slots != [];
    }
    if !ids && slots != [] {
      assert slots[0].reportId == 0;
    }
  }

  lemma LengthsGrow(bits: map<byte, uint32>, known: map<byte, uint32>, slots: seq<Slot>, d: Declaration, total: uint32)
    requires LengthsFit(bits, slots) && total == BitsOf(slots + SlotsIn(d), d.reportId)
    requires forall id :: id in known <==> id in bits || id == d.reportId
    requires forall id :: id in bits ==> known[id] == bits[id]
    ensures LengthsFit(known[d.reportId := total], slots + SlotsIn(d))
  {
    hide SizeOf, SlotsIn, Mentions;
    forall id: byte
      ensures id in known[d.reportId := total] <==> id == 0 || Mentions(slots + SlotsIn(d), id)
      ensures id in known[d.reportId := total] ==> known[d.reportId := total][id] == BitsOf(slots + SlotsIn(d), id)
    {
      MentionsJoin(slots, d, id);
      SizeJoins(slots, SlotsIn(d), id);
      if id != d.reportId {
        OtherSize(d, id);
      }
    }
  }

  lemma OtherSize(d: Declaration, id: byte)
    requires id != d.reportId
    ensures SizeOf(SlotsIn(d), id) == 0
  {
    SlotsHaveId(d);
    NotMentioned(SlotsIn(d), id);
  }

  lemma InputRuns(s: ParseState, d: Declaration, slots: seq<Slot>)
    requires s.globals == SettingsOf(d) && s.locals == LocalsOf(d)
    requires AllFit(s.parsed.fields, slots) && BitsUsed(s.parsed, d.reportId) == BitsOf(slots, d.reportId)
    requires BitsOf(slots, d.reportId) + 32768 <= MAX_UINT32 && !(s.parsed.usesReportIds && d.reportId == 0)
    ensures var r := Run(s, [Unsigned(0x80, d.flags)]);
            && r.Ok?
            && r.value == s.(locals := NO_LOCALS, parsed := r.value.parsed)
            && r.value.parsed.usesReportIds == s.parsed.usesReportIds
            && r.value.parsed.collections == s.parsed.collections
            && AllFit(r.value.parsed.fields, slots + SlotsIn(d))
            && d.reportId in r.value.parsed.reportBits
            && r.value.parsed.reportBits == s.parsed.reportBits[d.reportId := r.value.parsed.reportBits[d.reportId]]
            && r.value.parsed.reportBits[d.reportId] == BitsOf(slots + SlotsIn(d), d.reportId)
  {
    hide AllFit, BitsOf, SlotsIn, AddFields;
    RunOne(s, Unsigned(0x80, d.flags));
    UnsignedReads(0x80, d.flags);
    assert slots + SlotsIn(d)[..0] == slots;
    AddFieldsFit(s, d, slots, 0, s.parsed.fields, BitsOf(slots, d.reportId));
  }

  lemma DeclareTracks(s: ParseState, g: Globals, saved: seq<Globals>, depth: nat, slots: seq<Slot>,
                      applications: seq<Collection>, ids: bool, d: Declaration, n: nat)
    requires Tracks(s, g, saved, depth, slots, applications, ids) && (d.reportId != 0) == ids
    requires Short(slots, n) && n < 65536
    ensures var r := Run(s, StepItems(Declare(d), g));
            r.Ok? && Tracks(r.value, SettingsOf(d), saved, depth, slots + SlotsIn(d), applications, ids)
  {
    assert SizeOf(slots, d.reportId) <= 32768 * n;
    SameKind(g, slots, ids);
    hide Run, AllFit, SizeOf, SlotsIn, SettingItems, UsageItems, Short, LengthsFit, Mentions;
    RegisteredBits(s.parsed, g, d, slots, applications, ids);
    var known := Registered(s.parsed, g.reportId, d.reportId);
    hide Registered;
    var s1 := s.(globals := SettingsOf(d), parsed := known);
    var s2 := s1.(locals := LocalsOf(d));
    SettingsRun(s, d);
    UsagesRun(s1, d);
    InputRuns(s2, d, slots);
    RunJoin(s, SettingItems(d, g), UsageItems(d));
    RunJoin(s, SettingItems(d, g) + UsageItems(d), [Unsigned(0x80, d.flags)]);
    var r := Run(s2, [Unsigned(0x80, d.flags)]).value;
    LengthsGrow(s.parsed.reportBits, known.reportBits, slots, d, r.parsed.reportBits[d.reportId]);
    OneKindJoins(slots, d, ids);
    KnownJoin(g, saved, slots, d);
  }

  lemma SameKind(g: Globals, slots: seq<Slot>, ids: bool)
    requires SettingsKnown(g, slots) && OneKind(slots, ids)
    ensures !ids ==> g.reportId == 0
  {
  }

  lemma KnownJoin(g: Globals, saved: seq<Globals>, slots: seq<Slot>, d: Declaration)
    requires forall i :: 0 <= i < |saved| ==> SettingsKnown(saved[i], slots)
    ensures SettingsKnown(SettingsOf(d), slots + SlotsIn(d))
    ensures forall i :: 0 <= i < |saved| ==> SettingsKnown(saved[i], slots + SlotsIn(d))
  {
    hide Mentions, SlotsIn;
    forall id: byte
      ensures Mentions(slots + SlotsIn(d), id) <==> Mentions(slots, id) || id == d.reportId
    {
      MentionsJoin(slots, d, id);
    }
  }

  function ApplicationOf(page: uint16, usage: uint32): Collection {
    Collection(if usage > 0xffff then usage / 0x1_0000 else page, usage % 0x1_0000)
  }

  lemma CollectionRuns(s: ParseState, usage: uint32, kind: byte)
    requires s.locals.usages == [usage] && s.globals.usagePage <= 0xffff
    ensures var i := Unsigned(0xa0, kind);
            var found := if s.depth == 0 && kind == 1 then [ApplicationOf(s.globals.usagePage, usage)] else [];
            Item(s, i.prefix, i.data)
              == Ok(s.(locals := NO_LOCALS, depth := s.depth + 1,
                       parsed := s.parsed.(collections := s.parsed.collections + found)))
  {
    UnsignedReads(0xa0, kind);
    hide Unsigned, HidDescriptor.ReadUnsigned;
    assert UsageForIndex(s.locals, 0) == usage;
  }

  lemma OpenRuns(s: ParseState, g: Globals, page: uint16, usage: uint32, kind: byte)
    requires s.globals == g && s.locals == NO_LOCALS
    ensures var r := Run(s, StepItems(Open(page, usage, kind), g));
            var found := if s.depth == 0 && kind == 1 then [ApplicationOf(page, usage)] else [];
            r == Ok(s.(globals := g.(usagePage := page), depth := s.depth + 1,
                       parsed := s.parsed.(collections := s.parsed.collections + found)))
  {
    var s1 := s.(globals := s.globals.(usagePage := page));
    var s2 := s1.(locals := s1.locals.(usages := s1.locals.usages + [usage]));
    var items := [Unsigned(0x08, usage), Unsigned(0xa0, kind)];
    assert s2.locals.usages == [usage] && items == [items[0]] + [items[1]];
    hide Run, Unsigned, PageItem, Item, ApplicationOf;
    PageRuns(s, g, page);
    UsageRuns(s1, usage);
    RunOne(s1, items[0]);
    CollectionRuns(s2, usage, kind);
    RunOne(s2, items[1]);
    RunJoin(s1, [items[0]], [items[1]]);
    RunJoin(s, PageItem(page, g), items);
  }

  lemma OpenTracks(s: ParseState, g: Globals, saved: seq<Globals>, depth: nat, slots: seq<Slot>,
                   applications: seq<Collection>, ids: bool, page: uint16, usage: uint32, kind: byte)
    requires Tracks(s, g, saved, depth, slots, applications, ids)
    ensures var r := Run(s, StepItems(Open(page, usage, kind), g));
            var found := if depth == 0 && kind == 1 then [ApplicationOf(page, usage)] else [];
            r.Ok? && Tracks(r.value, g.(usagePage := page), saved, depth + 1, slots, applications + found, ids)
  {
    hide Run, StepItems, AllFit, LengthsFit, Mentions;
    OpenRuns(s, g, page, usage, kind);
  }

  lemma CloseTracks(s: ParseState, g: Globals, saved: seq<Globals>, depth: nat, slots: seq<Slot>,
                    applications: seq<Collection>, ids: bool)
    requires Tracks(s, g, saved, depth, slots, applications, ids)
    ensures var r := Run(s, [PrefixAndData(0xc0, [])]);
            depth > 0 ==> r.Ok? && Tracks(r.value, g, saved, depth - 1, slots, applications, ids)
    ensures var r := Run(s, [PrefixAndData(0xa4, [])]);
            r.Ok? && Tracks(r.value, g, saved + [g], depth, slots, applications, ids)
    ensures var r := Run(s, [PrefixAndData(0xb4, [])]);
            saved != [] ==>
              r.Ok? && Tracks(r.value, saved[|saved| - 1], saved[..|saved| - 1], depth, slots, applications, ids)
  {
    hide AllFit, LengthsFit, Mentions;
    RunOne(s, PrefixAndData(0xc0, []));
    RunOne(s, PrefixAndData(0xa4, []));
    RunOne(s, PrefixAndData(0xb4, []));
  }

  /** What one step adds. */
  function Added(step: Step): seq<Slot> {
    if step.Declare? then SlotsIn(step.d) else []
  }

  function Found(step: Step, depth: nat): seq<Collection> {
    if step.Open? && depth == 0 && step.kind == 1 then [ApplicationOf(step.page, step.usage)] else []
  }

  predicate StepKind(step: Step, ids: bool) {
    step.Declare? ==> (step.d.reportId != 0) == ids
  }

  lemma StepTracks(s: ParseState, g: Globals, saved: seq<Globals>, depth: nat, slots: seq<Slot>,
                   applications: seq<Collection>, ids: bool, step: Step, n: nat)
    requires Tracks(s, g, saved, depth, slots, applications, ids) && StepKind(step, ids)
    requires Permitted(step, |saved|, depth) && Short(slots, n) && n < 65536
    ensures var r := Run(s, StepItems(step, g));
            r.Ok? && Tracks(r.value, NextSettings(step, g, saved), NextSaved(step, g, saved), NextDepth(step, depth),
                            slots + Added(step), applications + Found(step, depth), ids)
  {
    hide Tracks, Run, SlotsIn, Short;
    assert slots + [] == slots && applications + [] == applications;
    match step {
      case Declare(d) => DeclareTracks(s, g, saved, depth, slots, applications, ids, d, n);
      case Open(page, usage, kind) => OpenTracks(s, g, saved, depth, slots, applications, ids, page, usage, kind);
      case _ => CloseTracks(s, g, saved, depth, slots, applications, ids);
    }
  }

  lemma ShortStep(slots: seq<Slot>, step: Step, n: nat)
    requires Short(slots, n)
    ensures Short(slots + Added(step), n + 1)
  {
    if step.Declare? {
      StaysShort(slots, step.d, n);
    } else {
      assert slots + [] == slots;
    }
  }

  lemma FirstStep(steps: seq<Step>, g: Globals, saved: seq<Globals>, depth: nat)
    requires steps != [] && Balanced(steps, g, saved, depth)
    ensures var step, others := steps[0], steps[1..];
            var g', saved' := NextSettings(step, g, saved), NextSaved(step, g, saved);
            && Permitted(step, |saved|, depth) && Balanced(others, g', saved', NextDepth(step, depth))
            && Write(steps, g, saved) == Bytes(StepItems(step, g)) + Write(others, g', saved')
            && SlotsOf(steps) == Added(step) + SlotsOf(others)
            && Applications(steps, depth) == Found(step, depth) + Applications(others, NextDepth(step, depth))
  {
    hide StepItems, NextSettings, NextSaved, NextDepth, SlotsIn, Bytes, Permitted;
  }

  lemma NoSteps(g: Globals, saved: seq<Globals>, depth: nat)
    requires Balanced([], g, saved, depth)
    ensures Write([], g, saved) == [] && SlotsOf([]) == [] && Applications([], depth) == [] && saved == [] && depth == 0
  {
  }

  lemma TracksFacts(s: ParseState, g: Globals, saved: seq<Globals>, depth: nat, slots: seq<Slot>,
                    applications: seq<Collection>, ids: bool)
    requires Tracks(s, g, saved, depth, slots, applications, ids)
    ensures s.stack == saved && s.depth == depth && Reflects(s.parsed, slots, applications, ids)
  {
    hide Reflects, SettingsKnown;
  }

  lemma AtEnd(s: ParseState, bytes: seq<byte>)
    ensures ParseFrom(s, bytes, |bytes|) == Ok(s)
  {
  }

  lemma {:induction false} StepsRead(steps: seq<Step>, g: Globals, saved: seq<Globals>, depth: nat, slots: seq<Slot>,
                                     applications: seq<Collection>, ids: bool, s: ParseState, bytes: seq<byte>,
                                     offset: nat, n: nat)
    requires offset <= |bytes| && bytes[offset..] == Write(steps, g, saved)
    requires Tracks(s, g, saved, depth, slots, applications, ids) && Balanced(steps, g, saved, depth)
    requires (forall i :: 0 <= i < |steps| ==> StepKind(steps[i], ids)) && Short(slots, n) && n + |steps| <= 65536
    ensures var end := ParseFrom(s, bytes, offset);
            && end.Ok? && end.value.stack == [] && end.value.depth == 0
            && Reflects(end.value.parsed, slots + SlotsOf(steps), applications + Applications(steps, depth), ids)
    decreases |steps|
  {
    hide *;
    if steps == [] {
      NoSteps(g, saved, depth);
      TracksFacts(s, g, saved, depth, slots, applications, ids);
      AtEnd(s, bytes);
      assert slots + [] == slots && applications + [] == applications;
    } else {
      var step, others := steps[0], steps[1..];
      FirstStep(steps, g, saved, depth);
      var items, g', saved' := StepItems(step, g), NextSettings(step, g, saved), NextSaved(step, g, saved);
      StepTracks(s, g, saved, depth, slots, applications, ids, step, n);
      ParseItems(s, items, bytes, offset, Write(others, g', saved'));
      ShortStep(slots, step, n);
      StepsRead(others, g', saved', NextDepth(step, depth), slots + Added(step), applications + Found(step, depth), ids,
                Run(s, items).value, bytes, offset + |Bytes(items)|, n + 1);
      Assoc(slots, Added(step), SlotsOf(others));
      Assoc(applications, Found(step, depth), Applications(others, NextDepth(step, depth)));
    }
  }

  lemma {:induction false} WriteLength(steps: seq<Step>, g: Globals, saved: seq<Globals>)
    ensures |Write(steps, g, saved)| >= |steps|
    decreases |steps|
  {
    hide NextSettings, NextSaved, SettingItems, UsageItems, PageItem, Unsigned;
    if steps != [] {
      WriteLength(steps[1..], NextSettings(steps[0], g, saved), NextSaved(steps[0], g, saved));
      assert StepItems(steps[0], g) != [];
    }
  }

  /** A descriptor written from declarations is read back as what they declare: the fields in
      order, each with its page, usage, range, size and kind, and at the bit where those before it
      in its report end; constant and array items take up bits and give no field. */
  lemma DescriptorReadsBack(steps: seq<Step>, ids: bool)
    requires Balanced(steps, INITIAL, [], 0) && Placed(SlotsOf(steps)) != []
    requires forall i :: 0 <= i < |steps| && steps[i].Declare? ==> (steps[i].d.reportId != 0) == ids
    requires |Write(steps, INITIAL, [])| <= 65536
    ensures var r, slots := Parse(Write(steps, INITIAL, [])), SlotsOf(steps);
            && r.Ok? && AllFit(r.value.fields, slots) && LengthsFit(r.value.reportBits, slots)
            && r.value.collections == Applications(steps, 0) && r.value.usesReportIds == ids
  {
    hide ParseFrom, Write, SlotsOf, Placed, BitsOf, Applications;
    var bytes := Write(steps, INITIAL, []);
    WriteLength(steps, INITIAL, []);
    SlotsThere(steps);
    assert bytes[0..] == bytes;
    NothingTracked(ids);
    StepsRead(steps, INITIAL, [], 0, [], [], ids, START, bytes, 0, 0);
    assert [] + SlotsOf(steps) == SlotsOf(steps) && [] + Applications(steps, 0) == Applications(steps, 0);
  }

  lemma SlotsThere(steps: seq<Step>)
    ensures Placed(SlotsOf(steps)) != [] ==> SlotsOf(steps) != [] && steps != []
  {
  }

  lemma NothingTracked(ids: bool)
    ensures Tracks(START, INITIAL, [], 0, [], [], ids) && Short([], 0)
  {
  }
}
