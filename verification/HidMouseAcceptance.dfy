/** Which descriptors a mouse decoder can be built from (src/capture/HidDescriptor.cpp). */
module HidMouseAcceptance {
  import opened Machine
  import opened HidDescriptor
  import opened HidMouseDecoder

  // ---------------------------------------------------------------------
  // What is asked of the reports
  // ---------------------------------------------------------------------

  predicate Has(f: Field, id: byte, page: uint16, usage: uint16) {
    f.reportId == id && f.usagePage == page && f.usage == usage
  }

  /** How many fields of a report have a usage. */
  function HowMany(fields: seq<Field>, id: byte, page: uint16, usage: uint16): nat {
    if fields == [] then 0
    else
      var k := |fields| - 1;
      HowMany(fields[..k], id, page, usage) + (if Has(fields[k], id, page, usage) then 1 else 0)
  }

  function Xs(d: Descriptor, id: byte): nat {
    HowMany(d.fields, id, 0x01, 0x30)
  }

  function Ys(d: Descriptor, id: byte): nat {
    HowMany(d.fields, id, 0x01, 0x31)
  }

  /** A report that moves a pointer. */
  predicate Points(d: Descriptor, id: byte) {
    id in d.reportBits && (Xs(d, id) > 0 || Ys(d, id) > 0)
  }

  ghost predicate Relative(d: Descriptor, id: byte) {
    forall f :: f in d.fields && (Has(f, id, 0x01, 0x30) || Has(f, id, 0x01, 0x31)) ==> f.relative
  }

  /** One relative X, one relative Y, at most one of each wheel, and a left button. */
  ghost predicate Clear(d: Descriptor, id: byte) {
    && Xs(d, id) == 1 && Ys(d, id) == 1 && Relative(d, id)
    && HowMany(d.fields, id, 0x01, 0x38) <= 1 && HowMany(d.fields, id, 0x0c, 0x0238) <= 1
    && HowMany(d.fields, id, 0x09, 1) > 0
  }

  function Length(d: Descriptor, id: byte): nat
    requires id in d.reportBits
  {
    (d.reportBits[id] as int + 7) / 8
  }

  // ---------------------------------------------------------------------
  // One report
  // ---------------------------------------------------------------------

  lemma {:induction false} SelectCounts(fields: seq<Field>, wanted: Field -> bool, id: byte, page: uint16,
                                        usage: uint16)
    requires forall f: Field :: wanted(f) <==> Has(f, id, page, usage)
    ensures |Select(fields, wanted)| == HowMany(fields, id, page, usage)
    ensures forall f :: f in Select(fields, wanted) <==> f in fields && Has(f, id, page, usage)
  {
    if fields != [] {
      var k := |fields| - 1;
      SelectCounts(fields[..k], wanted, id, page, usage);
      assert fields == fields[..k] + [fields[k]];
    }
  }

  lemma UsageCounts(fields: seq<Field>, id: byte, page: uint16, usage: uint16)
    ensures |WithUsage(fields, id, page, usage)| == HowMany(fields, id, page, usage)
    ensures forall f :: f in WithUsage(fields, id, page, usage) <==> f in fields && Has(f, id, page, usage)
  {
    SelectCounts(fields, f => IsUsage(f, id, page, usage), id, page, usage);
  }

  lemma {:induction false} SelectKeeps(fields: seq<Field>, wanted: Field -> bool)
    ensures forall f :: f in Select(fields, wanted) <==> f in fields && wanted(f)
  {
    if fields != [] {
      var k := |fields| - 1;
      SelectKeeps(fields[..k], wanted);
      assert fields == fields[..k] + [fields[k]];
    }
  }

  lemma {:induction false} CountedIsThere(fields: seq<Field>, id: byte, page: uint16, usage: uint16)
    ensures HowMany(fields, id, page, usage) > 0 <==> exists f :: f in fields && Has(f, id, page, usage)
  {
    if fields != [] {
      var k := |fields| - 1;
      CountedIsThere(fields[..k], id, page, usage);
      assert fields == fields[..k] + [fields[k]];
    }
  }

  lemma LeftButtonIff(fields: seq<Field>, id: byte)
    ensures HasLeftButton(Buttons(fields, id)) <==> HowMany(fields, id, 0x09, 1) > 0
  {
    var buttons := Buttons(fields, id);
    SelectKeeps(fields, f => IsButton(f, id));
    CountedIsThere(fields, id, 0x09, 1);
    if f :| f in fields && Has(f, id, 0x09, 1) {
      assert f in buttons;
      var i :| 0 <= i < |buttons| && buttons[i] == f;
    }
    if HasLeftButton(buttons) {
      var i :| 0 <= i < |buttons| && buttons[i].usage == 1;
      assert buttons[i] in fields && Has(buttons[i], id, 0x09, 1);
    }
  }

  lemma LayoutIff(d: Descriptor, id: byte)
    requires id in d.reportBits
    ensures LayoutOf(d, id).Ok? <==> (Points(d, id) ==> Clear(d, id))
    ensures LayoutOf(d, id).Ok? ==> (LayoutOf(d, id).value.Some? <==> Points(d, id))
    ensures LayoutOf(d, id).Ok? && LayoutOf(d, id).value.Some? ==>
              var l := LayoutOf(d, id).value.value;
              l.reportId == id && l.byteLength == Length(d, id)
  {
    hide WithUsage, Buttons, HowMany, HasLeftButton;
    var xs, ys := WithUsage(d.fields, id, 0x01, 0x30), WithUsage(d.fields, id, 0x01, 0x31);
    UsageCounts(d.fields, id, 0x01, 0x30);
    UsageCounts(d.fields, id, 0x01, 0x31);
    UsageCounts(d.fields, id, 0x01, 0x38);
    UsageCounts(d.fields, id, 0x0c, 0x0238);
    LeftButtonIff(d.fields, id);
    if |xs| == 1 && |ys| == 1 {
      assert xs[0] in xs && ys[0] in ys;
      assert Relative(d, id) <==> xs[0].relative && ys[0].relative;
    }
  }

  // ---------------------------------------------------------------------
  // All reports
  // ---------------------------------------------------------------------

  /** One layout for each pointing report from an ID on, in the order of their IDs. */
  ghost predicate ForPointing(d: Descriptor, from: nat, layouts: seq<Layout>) {
    && (forall i :: 0 <= i < |layouts| ==> FitsReport(d, from, layouts[i]))
    && (forall id: byte :: from <= id && Points(d, id) ==> exists i :: 0 <= i < |layouts| && layouts[i].reportId == id)
    && SortedById(layouts)
  }

  ghost predicate FitsReport(d: Descriptor, from: nat, l: Layout) {
    from <= l.reportId && Points(d, l.reportId) && l.byteLength == Length(d, l.reportId)
  }

  lemma {:induction false} LayoutsIff(d: Descriptor, from: nat)
    requires from <= 256
    ensures LayoutsFrom(d, from).Ok? <==> forall id: byte :: from <= id && Points(d, id) ==> Clear(d, id)
    ensures LayoutsFrom(d, from).Ok? ==> ForPointing(d, from, LayoutsFrom(d, from).value)
    decreases 256 - from
  {
    hide LayoutOf, Points, Clear, Length, ForPointing;
    if from == 256 {
      NonePoint(d);
    } else {
      LayoutsIff(d, from + 1);
      if from !in d.reportBits {
        DoesNotPoint(d, from);
      } else {
        LayoutIff(d, from);
      }
      if LayoutsFrom(d, from).Ok? {
        var others := LayoutsFrom(d, from + 1).value;
        if from in d.reportBits && LayoutOf(d, from).value.Some? {
          InFrontFits(d, from, LayoutOf(d, from).value.value, others);
        } else {
          assert LayoutsFrom(d, from).value == others;
          SkippedFits(d, from, others);
        }
      }
    }
  }

  lemma NonePoint(d: Descriptor)
    ensures ForPointing(d, 256, [])
  {
  }

  lemma DoesNotPoint(d: Descriptor, id: byte)
    requires id !in d.reportBits
    ensures !Points(d, id)
  {
  }

  lemma InFrontFits(d: Descriptor, from: byte, l: Layout, others: seq<Layout>)
    requires ForPointing(d, from + 1, others) && Points(d, from)
    requires l.reportId == from && from in d.reportBits && l.byteLength == Length(d, from)
    ensures ForPointing(d, from, [l] + others)
  {
    hide Points, Length;
    var all := [l] + others;
    assert all[0] == l && forall i :: 0 < i < |all| ==> all[i] == others[i - 1];
    forall i | 0 <= i < |all|
      ensures FitsReport(d, from, all[i])
    {
      if i > 0 {
        assert FitsReport(d, from + 1, others[i - 1]);
      }
    }
    forall id: byte | from <= id && Points(d, id)
      ensures exists i :: 0 <= i < |all| && all[i].reportId == id
    {
      if id == from {
        assert all[0].reportId == id;
      } else {
        var i :| 0 <= i < |others| && others[i].reportId == id;
        assert all[i + 1].reportId == id;
      }
    }
    forall i, j | 0 <= i < j < |all|
      ensures all[i].reportId < all[j].reportId
    {
      assert FitsReport(d, from + 1, others[j - 1]);
    }
  }

  lemma SkippedFits(d: Descriptor, from: byte, others: seq<Layout>)
    requires ForPointing(d, from + 1, others) && !Points(d, from)
    ensures ForPointing(d, from, others)
  {
    hide Points, Length;
    forall i | 0 <= i < |others|
      ensures FitsReport(d, from, others[i])
    {
      assert FitsReport(d, from + 1, others[i]);
    }
  }

  // ---------------------------------------------------------------------
  // The decoder
  // ---------------------------------------------------------------------

  lemma {:induction false} InsertedLast(l: Layout, sorted: seq<Layout>)
    requires forall i :: 0 <= i < |sorted| ==> sorted[i].reportId < l.reportId
    ensures InsertById(l, sorted) == sorted + [l]
    decreases |sorted|
  {
    if sorted != [] {
      InsertedLast(l, sorted[1..]);
      assert sorted == [sorted[0]] + sorted[1..];
    }
  }

  /** Layouts that are in order already stay as they are. */
  lemma {:induction false} SortedStays(layouts: seq<Layout>)
    requires SortedById(layouts)
    ensures SortById(layouts) == layouts
    decreases |layouts|
  {
    if layouts != [] {
      var k := |layouts| - 1;
      SortedStays(layouts[..k]);
      InsertedLast(layouts[k], layouts[..k]);
      assert layouts == layouts[..k] + [layouts[k]];
    }
  }

  lemma LengthsIff(d: Descriptor, layouts: seq<Layout>)
    requires ForPointing(d, 0, layouts)
    ensures LengthsSupported(layouts) <==> forall id: byte :: Points(d, id) ==> 0 < Length(d, id) <= 4096
  {
    hide Points;
    assert forall i :: 0 <= i < |layouts| ==> FitsReport(d, 0, layouts[i]);
  }

  lemma ConventionIff(d: Descriptor, layouts: seq<Layout>)
    requires ForPointing(d, 0, layouts) && layouts != []
    ensures OneConvention(layouts, layouts[0].reportId != 0) <==>
              !(Points(d, 0) && exists id :: id > 0 && Points(d, id))
  {
    hide Points, Length;
    assert forall i :: 0 <= i < |layouts| ==> FitsReport(d, 0, layouts[i]);
    assert forall i :: 0 <= i < |layouts| ==> layouts[0].reportId <= layouts[i].reportId;
    if id :| id > 0 && Points(d, id) {
      var i :| 0 <= i < |layouts| && layouts[i].reportId == id;
      assert layouts[0].reportId == 0 ==> i > 0;
    }
  }

  lemma SomePoints(d: Descriptor, layouts: seq<Layout>)
    requires ForPointing(d, 0, layouts)
    ensures layouts != [] <==> exists id :: Points(d, id)
  {
    hide Points, Length;
    if layouts != [] {
      assert FitsReport(d, 0, layouts[0]);
    }
  }

  /** A decoder can be built if and only if the descriptor is accepted, some report points, every
      report that does is clear and has 1 to 4096 bytes, and not both a report without an ID and one
      with an ID point; and then it has one layout for each that does. */
  lemma DecoderIff(descriptor: seq<byte>)
    ensures DecoderFor(descriptor).Ok? <==>
              && Parse(descriptor).Ok?
              && var d := Parse(descriptor).value;
                 && (exists id :: Points(d, id))
                 && (forall id :: Points(d, id) ==> Clear(d, id) && 0 < Length(d, id) <= 4096)
                 && !(Points(d, 0) && exists id :: id > 0 && Points(d, id))
    ensures DecoderFor(descriptor).Ok? ==> ForPointing(Parse(descriptor).value, 0, DecoderFor(descriptor).value.layouts)
  {
    hide Parse, LayoutsFrom, SortById, Points, Clear, Length, ForPointing, OneConvention, LengthsSupported;
    if Parse(descriptor).Ok? {
      var d := Parse(descriptor).value;
      LayoutsIff(d, 0);
      if LayoutsFrom(d, 0).Ok? {
        var layouts := LayoutsFrom(d, 0).value;
        SomePoints(d, layouts);
        InOrder(d, layouts);
        SortedStays(layouts);
        LengthsIff(d, layouts);
        if layouts != [] {
          ConventionIff(d, layouts);
        }
      }
    }
  }

  lemma InOrder(d: Descriptor, layouts: seq<Layout>)
    requires ForPointing(d, 0, layouts)
    ensures SortedById(layouts)
  {
    hide FitsReport, Points;
  }
}
