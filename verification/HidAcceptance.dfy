/** Which byte strings are accepted as report descriptors: a condition on the items that the
    bytes split into, each judged by the items before it (HID 1.11, section 6.2.2). */
module HidAcceptance {
  import opened Machine
  import opened Binary
  import opened HidDescriptor

  // ---------------------------------------------------------------------
  // Items
  // ---------------------------------------------------------------------

  datatype Raw = Raw(prefix: byte, data: seq<byte>) {
    predicate IsMain(tag: nat) {
      prefix / 4 % 4 == 0 && prefix / 16 == tag
    }

    predicate IsGlobal(tag: nat) {
      prefix / 4 % 4 == 1 && prefix / 16 == tag
    }

    function Number(): nat {
      FromLittleEndian(data)
    }
  }

  const INPUT := 8
  const OPEN := 10
  const CLOSE := 12
  const SIZE := 7
  const ID := 8
  const COUNT := 9
  const PUSH := 10
  const POP := 11

  /** How many data bytes the low two bits of a prefix announce. */
  function Announced(prefix: byte): nat {
    [0, 1, 2, 4][prefix % 4]
  }

  /** The items of a byte string; none if there is a long item or the last one is cut short. */
  function Split(bytes: seq<byte>): Option<seq<Raw>> {
    if bytes == [] then Some([])
    else
      var size := Announced(bytes[0]);
      if bytes[0] == 0xfe || 1 + size > |bytes| then None
      else
        match Split(bytes[1 + size..])
        case None => None
        case Some(others) => Some([Raw(bytes[0], bytes[1..1 + size])] + others)
  }

  // ---------------------------------------------------------------------
  // What the items before an item have brought about
  // ---------------------------------------------------------------------

  /** Collections opened and not closed. */
  function Depth(items: seq<Raw>): int {
    if items == [] then 0
    else
      var last := items[|items| - 1];
      Depth(items[..|items| - 1]) + (if last.IsMain(OPEN) then 1 else if last.IsMain(CLOSE) then -1 else 0)
  }

  /** Settings pushed and not popped. */
  function Pushed(items: seq<Raw>): int {
    if items == [] then 0
    else
      var last := items[|items| - 1];
      Pushed(items[..|items| - 1]) + (if last.IsGlobal(PUSH) then 1 else if last.IsGlobal(POP) then -1 else 0)
  }

  /** The setting of a tag after some items: its last value, where a pop brings back what was in
      force at the push it undoes. */
  function InForce(items: seq<Raw>, tag: nat): nat {
    if items == [] then 0
    else
      var front, last := items[..|items| - 1], items[|items| - 1];
      if last.IsGlobal(tag) then last.Number()
      else if last.IsGlobal(POP) then TopOf(Kept(front, tag))
      else InForce(front, tag)
  }

  /** The settings of a tag at the pushes not yet undone. */
  function Kept(items: seq<Raw>, tag: nat): seq<nat> {
    if items == [] then []
    else
      var front, last := items[..|items| - 1], items[|items| - 1];
      if last.IsGlobal(PUSH) then Kept(front, tag) + [InForce(front, tag)]
      else if last.IsGlobal(POP) then ButLast(Kept(front, tag))
      else Kept(front, tag)
  }

  function TopOf(values: seq<nat>): nat {
    if values == [] then 0 else values[|values| - 1]
  }

  function ButLast<T>(values: seq<T>): seq<T> {
    if values == [] then [] else values[..|values| - 1]
  }

  /** Some item gives a report ID. */
  function Numbered(items: seq<Raw>): bool {
    exists i :: 0 <= i < |items| && items[i].IsGlobal(ID)
  }

  /** An Input item that declares data, as variables. */
  predicate GivesFields(item: Raw) {
    item.IsMain(INPUT) && item.Number() % 2 == 0 && item.Number() / 2 % 2 == 1
  }

  /** What an item asks of itself and of those before it. */
  predicate Proper(before: seq<Raw>, item: Raw) {
    && (item.IsMain(OPEN) ==> item.data != [])
    && (item.IsMain(CLOSE) ==> Depth(before) > 0)
    && (item.IsGlobal(POP) ==> Pushed(before) > 0)
    && (item.IsGlobal(ID) ==> 1 <= item.Number() <= 255)
    && (item.IsMain(INPUT) ==>
          && 1 <= InForce(before, SIZE) <= 32 && 1 <= InForce(before, COUNT) <= 1024
          && (Numbered(before) ==> InForce(before, ID) != 0))
  }

  ghost predicate AllProper(items: seq<Raw>, from: nat) {
    forall i :: from <= i < |items| ==> Proper(items[..i], items[i])
  }

  // ---------------------------------------------------------------------
  // The parser keeps account of all this
  // ---------------------------------------------------------------------

  ghost predicate StackHolds(stack: seq<Globals>, items: seq<Raw>) {
    && |stack| == |Kept(items, SIZE)| == |Kept(items, COUNT)| == |Kept(items, ID)| == Pushed(items)
    && forall i :: 0 <= i < |stack| ==>
         && stack[i].reportSize == Kept(items, SIZE)[i]
         && stack[i].reportCount == Kept(items, COUNT)[i]
         && stack[i].reportId == Kept(items, ID)[i]
  }

  ghost predicate SettingsHold(g: Globals, items: seq<Raw>) {
    && g.reportSize == InForce(items, SIZE)
    && g.reportCount == InForce(items, COUNT)
    && g.reportId == InForce(items, ID)
  }

  ghost predicate Accounts(s: ParseState, items: seq<Raw>) {
    && s.depth == Depth(items)
    && SettingsHold(s.globals, items) && StackHolds(s.stack, items)
    && (s.parsed.usesReportIds <==> Numbered(items))
    && (s.parsed.fields != [] <==> exists i :: 0 <= i < |items| && GivesFields(items[i]))
  }

  lemma {:induction false} FieldsAdded(s: ParseState, flags: uint32, index: nat, fields: seq<Field>, offset: uint32)
    requires InputDimensionsSafe(s.globals) && index <= s.globals.reportCount
    requires AddFields(s, flags, index, fields, offset).Ok?
    ensures var after := AddFields(s, flags, index, fields, offset).value.0;
            && |after| >= |fields|
            && (flags % 2 == 0 && flags / 2 % 2 == 1 && index < s.globals.reportCount ==> after != [])
            && (!(flags % 2 == 0 && flags / 2 % 2 == 1) ==> after == fields)
    decreases s.globals.reportCount - index
  {
    hide FieldAt;
    if index < s.globals.reportCount {
      var wanted := flags % 2 == 0 && flags / 2 % 2 == 1;
      var grown := if wanted then fields + [FieldAt(s, flags, index, offset)] else fields;
      FieldsAdded(s, flags, index + 1, grown, offset + s.globals.reportSize);
    }
  }

  lemma Histories(items: seq<Raw>, item: Raw)
    ensures var all := items + [item];
            && Depth(all) == Depth(items) + (if item.IsMain(OPEN) then 1 else if item.IsMain(CLOSE) then -1 else 0)
            && Pushed(all) == Pushed(items) + (if item.IsGlobal(PUSH) then 1 else if item.IsGlobal(POP) then -1 else 0)
            && (Numbered(all) <==> Numbered(items) || item.IsGlobal(ID))
            && ((exists i :: 0 <= i < |all| && GivesFields(all[i])) <==>
                  (exists i :: 0 <= i < |items| && GivesFields(items[i])) || GivesFields(item))
  {
    hide GivesFields, Raw.IsMain, Raw.IsGlobal;
    var all := items + [item];
    assert all[..|items|] == items && all[|items|] == item;
    assert forall i :: 0 <= i < |items| ==> all[i] == items[i];
  }

  lemma Settings(items: seq<Raw>, item: Raw, tag: nat)
    ensures var all := items + [item];
            && InForce(all, tag) == (if item.IsGlobal(tag) then item.Number()
                                     else if item.IsGlobal(POP) then TopOf(Kept(items, tag))
                                     else InForce(items, tag))
            && Kept(all, tag) == (if item.IsGlobal(PUSH) then Kept(items, tag) + [InForce(items, tag)]
                                  else if item.IsGlobal(POP) then ButLast(Kept(items, tag))
                                  else Kept(items, tag))
  {
    hide Raw.IsGlobal;
    var all := items + [item];
    assert all[..|all| - 1] == items && all[|all| - 1] == item;
  }

  lemma PushHolds(stack: seq<Globals>, g: Globals, items: seq<Raw>, item: Raw)
    requires StackHolds(stack, items) && SettingsHold(g, items) && item.IsGlobal(PUSH)
    ensures StackHolds(stack + [g], items + [item]) && SettingsHold(g, items + [item])
  {
    assert !item.IsGlobal(SIZE) && !item.IsGlobal(COUNT) && !item.IsGlobal(ID) && !item.IsGlobal(POP);
    hide InForce, Kept, Pushed, Depth, Numbered, GivesFields, Raw.IsGlobal, Raw.IsMain, Raw.Number;
    Histories(items, item);
    Settings(items, item, SIZE);
    Settings(items, item, COUNT);
    Settings(items, item, ID);
  }

  lemma PopHolds(stack: seq<Globals>, items: seq<Raw>, item: Raw)
    requires StackHolds(stack, items) && stack != [] && item.IsGlobal(POP)
    ensures StackHolds(stack[..|stack| - 1], items + [item]) && SettingsHold(stack[|stack| - 1], items + [item])
  {
    assert !item.IsGlobal(SIZE) && !item.IsGlobal(COUNT) && !item.IsGlobal(ID) && !item.IsGlobal(PUSH);
    hide InForce, Kept, Pushed, Depth, Numbered, GivesFields, Raw.IsGlobal, Raw.IsMain, Raw.Number;
    Histories(items, item);
    Settings(items, item, SIZE);
    Settings(items, item, COUNT);
    Settings(items, item, ID);
  }

  lemma StackHeight(stack: seq<Globals>, items: seq<Raw>)
    requires StackHolds(stack, items)
    ensures |stack| == Pushed(items)
  {
  }

  /** Push and pop keep account of the stack. */
  lemma StackStep(s: ParseState, items: seq<Raw>, item: Raw)
    requires Accounts(s, items) && |item.data| <= 4 && (item.IsGlobal(PUSH) || item.IsGlobal(POP))
    ensures var r := GlobalItem(s, item.prefix / 16, item.data);
            (r.Ok? <==> Proper(items, item)) && (r.Ok? ==> Accounts(r.value, items + [item]))
  {
    Histories(items, item);
    StackHeight(s.stack, items);
    if item.IsGlobal(PUSH) {
      PushHolds(s.stack, s.globals, items, item);
    } else if s.stack != [] {
      PopHolds(s.stack, items, item);
    }
    hide InForce, Kept, Depth, Pushed, Numbered, GivesFields, HidDescriptor.ReadUnsigned, HidDescriptor.ReadSigned,
         StackHolds, SettingsHold;
  }

  lemma SettingStep(s: ParseState, items: seq<Raw>, item: Raw)
    requires Accounts(s, items) && |item.data| <= 4 && item.prefix / 4 % 4 == 1
    requires !item.IsGlobal(PUSH) && !item.IsGlobal(POP)
    ensures var r := GlobalItem(s, item.prefix / 16, item.data);
            (r.Ok? <==> Proper(items, item)) && (r.Ok? ==> Accounts(r.value, items + [item]))
  {
    Histories(items, item);
    Settings(items, item, SIZE);
    Settings(items, item, COUNT);
    Settings(items, item, ID);
    assert HidDescriptor.ReadUnsigned(item.data) == item.Number();
    hide InForce, Kept, Depth, Pushed, Numbered, GivesFields, HidDescriptor.ReadUnsigned, HidDescriptor.ReadSigned,
         StackHolds, Raw.Number;
    SameStack(s.stack, items, items + [item]);
  }

  lemma SameStack(stack: seq<Globals>, a: seq<Raw>, b: seq<Raw>)
    requires Kept(a, SIZE) == Kept(b, SIZE) && Kept(a, COUNT) == Kept(b, COUNT) && Kept(a, ID) == Kept(b, ID)
    requires Pushed(a) == Pushed(b)
    ensures StackHolds(stack, a) == StackHolds(stack, b)
  {
  }

  lemma MainStep(s: ParseState, items: seq<Raw>, item: Raw, offset: nat)
    requires Accounts(s, items) && |item.data| <= 4 && item.prefix / 4 % 4 == 0
    requires Consistent(s, offset) && offset < MAX_DESCRIPTOR
    ensures var r := MainItem(s, item.prefix / 16, item.data);
            (r.Ok? <==> Proper(items, item)) && (r.Ok? ==> Accounts(r.value, items + [item]))
  {
    Histories(items, item);
    Settings(items, item, SIZE);
    Settings(items, item, COUNT);
    Settings(items, item, ID);
    if item.IsMain(INPUT) && InputDimensionsSafe(s.globals) {
      var bits, flags := BitsUsed(s.parsed, s.globals.reportId), HidDescriptor.ReadUnsigned(item.data);
      InputConsistent(s, flags, offset);
      FieldsAdded(s, flags, 0, s.parsed.fields, bits);
    }
    hide InForce, Kept, Depth, Pushed, Numbered, FromLittleEndian, AddFields, Consistent, UsageForIndex, PageOf;
  }

  lemma OtherStep(s: ParseState, items: seq<Raw>, item: Raw)
    requires Accounts(s, items) && |item.data| <= 4 && item.prefix / 4 % 4 >= 2
    ensures var r := Item(s, item.prefix, item.data);
            r.Ok? && Proper(items, item) && Accounts(r.value, items + [item])
  {
    hide InForce, Kept, Depth, Pushed, Numbered, FromLittleEndian, StackHolds, HidDescriptor.ReadUnsigned;
    Histories(items, item);
    Settings(items, item, SIZE);
    Settings(items, item, COUNT);
    Settings(items, item, ID);
    SameStack(s.stack, items, items + [item]);
  }

  lemma ItemStep(s: ParseState, items: seq<Raw>, item: Raw, offset: nat)
    requires Accounts(s, items) && |item.data| <= 4 && Consistent(s, offset) && offset < MAX_DESCRIPTOR
    ensures var r := Item(s, item.prefix, item.data);
            (r.Ok? <==> Proper(items, item)) && (r.Ok? ==> Accounts(r.value, items + [item]))
  {
    hide Accounts, Proper, Consistent, GlobalItem, MainItem, LocalItem;
    if item.prefix / 4 % 4 == 1 {
      if item.prefix / 16 == PUSH || item.prefix / 16 == POP {
        StackStep(s, items, item);
      } else {
        SettingStep(s, items, item);
      }
    } else if item.prefix / 4 % 4 == 0 {
      MainStep(s, items, item, offset);
    } else {
      OtherStep(s, items, item);
    }
  }

  lemma ProperFrom(done: seq<Raw>, item: Raw, others: seq<Raw>)
    ensures AllProper(done + ([item] + others), |done|) <==>
              Proper(done, item) && AllProper(done + [item] + others, |done| + 1)
    ensures done + ([item] + others) == done + [item] + others
  {
    hide Proper;
    var all := done + [item] + others;
    assert done + ([item] + others) == all;
    assert all[..|done|] == done && all[|done|] == item;
  }

  /** The parser gets through the rest of the bytes exactly if they split into proper items. */
  lemma {:induction false} RestAccepted(s: ParseState, done: seq<Raw>, descriptor: seq<byte>, offset: nat)
    requires offset <= |descriptor| <= MAX_DESCRIPTOR && Consistent(s, offset) && Accounts(s, done)
    ensures var r, items := ParseFrom(s, descriptor, offset), Split(descriptor[offset..]);
            && (r.Ok? <==> items.Some? && AllProper(done + items.value, |done|))
            && (r.Ok? ==> Accounts(r.value, done + items.value))
    decreases |descriptor| - offset
  {
    hide Consistent, Accounts, Item, AllProper, Split, DataSize;
    NextItem(descriptor, offset);
    if offset == |descriptor| {
      assert done + [] == done;
      NoneImproper(done);
    } else {
      var prefix := descriptor[offset];
      var end := offset + 1 + DataSize(prefix);
      if prefix != 0xfe && end <= |descriptor| {
        var item := Raw(prefix, descriptor[offset + 1..end]);
        ItemStep(s, done, item, offset);
        if Split(descriptor[end..]).Some? {
          ProperFrom(done, item, Split(descriptor[end..]).value);
        }
        if Item(s, prefix, item.data).Ok? {
          ItemConsistent(s, prefix, item.data, offset);
          var next := Item(s, prefix, item.data).value;
          LengthsGrow(next, offset + 1, end);
          RestAccepted(next, done + [item], descriptor, end);
        }
      }
    }
  }

  /** The first item of what is left. */
  lemma NextItem(descriptor: seq<byte>, offset: nat)
    requires offset <= |descriptor|
    ensures var items := Split(descriptor[offset..]);
            if offset == |descriptor| then items == Some([])
            else
              var prefix := descriptor[offset];
              var end := offset + 1 + DataSize(prefix);
              && DataSize(prefix) <= 4
              && (items.Some? <==> prefix != 0xfe && end <= |descriptor| && Split(descriptor[end..]).Some?)
              && (items.Some? ==>
                    items.value == [Raw(prefix, descriptor[offset + 1..end])] + Split(descriptor[end..]).value)
  {
    var rest := descriptor[offset..];
    if rest != [] {
      var size := Announced(rest[0]);
      assert size == DataSize(descriptor[offset]);
      if 1 + size <= |rest| {
        assert rest[1..1 + size] == descriptor[offset + 1..offset + 1 + size];
        assert rest[1 + size..] == descriptor[offset + 1 + size..];
      }
    }
  }

  lemma NoneImproper(items: seq<Raw>)
    ensures AllProper(items, |items|)
  {
  }

  lemma NothingAccounted()
    ensures Accounts(START, []) && Consistent(START, 0)
  {
    NothingLaidOut(map[0 := 0]);
  }

  /** A descriptor is accepted if and only if it has 1 to 65536 bytes that split into short items,
      every item is proper where it stands, nothing is left open or pushed at the end, and some
      Input item gives fields. */
  lemma AcceptedIff(descriptor: seq<byte>)
    ensures var items := Split(descriptor);
            Parse(descriptor).Ok? <==>
              && 0 < |descriptor| <= 65536
              && items.Some? && AllProper(items.value, 0)
              && Depth(items.value) == 0 && Pushed(items.value) == 0
              && exists i :: 0 <= i < |items.value| && GivesFields(items.value[i])
  {
    hide ParseFrom, Split, AllProper, Depth, Pushed, Kept, InForce, Numbered, GivesFields, Consistent;
    if 0 < |descriptor| <= 65536 {
      NothingAccounted();
      assert descriptor[0..] == descriptor;
      RestAccepted(START, [], descriptor, 0);
      if Split(descriptor).Some? {
        assert [] + Split(descriptor).value == Split(descriptor).value;
      }
    }
  }
}
