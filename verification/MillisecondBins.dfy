/** What the dense 1 ms bins of a list of reports hold (src/derive/MillisecondDeriver.cpp),
    stated for each bin from the reports that fall into it, and what follows from that. */
module MillisecondBins {
  import opened Machine
  import opened Bitwise
  import opened ReportCodec
  import opened MillisecondGrid

  /** A bit mask, as the set of its bits. Bits 0 to 31 are the reports' own flags. */
  type BitSet = set<nat>

  const REGRESSED_BIT := 32
  const NOT_INCREASING_BIT := 33
  const UNCERTAIN_BIT := 34

  function BitsOf(value: uint32): BitSet {
    set i: nat | i < 32 && Bits(value, 32)[i]
  }

  datatype Convention = LegacyDeviceNativeY | CountSpaceYUp

  datatype Delta = Delta(deviceDx: int64, deviceDy: int64, derivedDx: int64, derivedDy: int64)

  datatype Position = Position(x: int64, y: int64)

  datatype Edge = Edge(
    captureSequence: uint64,
    captureUnixNs: int64,
    ordinal: nat,
    before: BitSet,
    after: BitSet,
    down: BitSet,
    up: BitSet)

  datatype Bin = Bin(
    index: int64,
    begin: int64,
    end: int64,
    delta: Delta,
    wheelSum: int64,
    horizontalWheelSum: int64,
    reportCount: nat,
    zeroDeltaCount: nat,
    firstSequence: Option<uint64>,
    lastSequence: Option<uint64>,
    buttonsAtStart: BitSet,
    buttonsAtEnd: BitSet,
    buttonsDown: BitSet,
    buttonsUp: BitSet,
    edges: seq<Edge>,
    pre: Position,
    post: Position,
    quality: BitSet)

  datatype Options = Options(convention: Convention, crosshair: Position, buttons: BitSet)

  datatype Binning = Binning(
    bins: seq<Bin>,
    quality: BitSet,
    timestampRegressions: nat,
    sequenceRegressions: nat)

  // ---------------------------------------------------------------------
  // The reports of a bin and their sums
  // ---------------------------------------------------------------------

  predicate InBin(r: Report, origin: int64, index: int) {
    IndexOf(origin, r.captureUnixNs) == index
  }

  /** The reports of one bin, in input order. */
  function Group(reports: seq<Report>, origin: int64, index: int): (group: seq<Report>)
    ensures |group| <= |reports|
  {
    if reports == [] then []
    else
      var k := |reports| - 1;
      Group(reports[..k], origin, index) + (if InBin(reports[k], origin, index) then [reports[k]] else [])
  }

  datatype Axis = X | Y | Wheel | HorizontalWheel

  function Along(r: Report, axis: Axis): int32 {
    match axis
    case X => r.dx
    case Y => r.dy
    case Wheel => r.wheel
    case HorizontalWheel => r.horizontalWheel
  }

  function Total(reports: seq<Report>, axis: Axis): int {
    if reports == [] then 0
    else
      var k := |reports| - 1;
      Total(reports[..k], axis) + Along(reports[k], axis)
  }

  predicate ZeroDelta(r: Report) {
    r.dx == 0 && r.dy == 0
  }

  function ZeroCount(reports: seq<Report>): (n: nat)
    ensures n <= |reports|
  {
    if reports == [] then 0
    else
      var k := |reports| - 1;
      ZeroCount(reports[..k]) + (if ZeroDelta(reports[k]) then 1 else 0)
  }

  function SourceQuality(reports: seq<Report>): BitSet {
    if reports == [] then {}
    else
      var k := |reports| - 1;
      SourceQuality(reports[..k]) + BitsOf(reports[k].qualityFlags)
  }

  /** A sum of n int32 values takes n * 2^31 at most; so with a uint32 count neither the sums
      of a bin nor the negated Y sum can leave int64. */
  lemma {:induction false} TotalBound(reports: seq<Report>, axis: Axis)
    ensures -0x8000_0000 * |reports| <= Total(reports, axis) <= 0x7fff_ffff * |reports|
  {
    if reports != [] {
      TotalBound(reports[..|reports| - 1], axis);
    }
  }

  lemma SumsFit(reports: seq<Report>, axis: Axis)
    requires |reports| <= 0x1_0000_0000
    ensures FitsInt64(Total(reports, axis))
    ensures |reports| <= MAX_UINT32 ==> FitsInt64(0 - Total(reports, axis))
  {
    hide Total;
    TotalBound(reports, axis);
  }

  function DeriveAxes(dx: int64, dy: int64, convention: Convention): Delta
    requires convention.CountSpaceYUp? ==> dy != MIN_INT64
  {
    Delta(dx, dy, dx, if convention.CountSpaceYUp? then 0 - dy else dy)
  }

  // ---------------------------------------------------------------------
  // Chronological order within a bin
  // ---------------------------------------------------------------------

  /** After all elements that are not later. */
  function InsertStable(sorted: seq<Report>, r: Report): seq<Report> {
    if sorted == [] then [r]
    else
      var k := |sorted| - 1;
      if r.captureSequence < sorted[k].captureSequence then InsertStable(sorted[..k], r) + [sorted[k]]
      else sorted + [r]
  }

  /** std::stable_sort by capture sequence. */
  function StableSort(group: seq<Report>): seq<Report> {
    if group == [] then []
    else
      var k := |group| - 1;
      InsertStable(StableSort(group[..k]), group[k])
  }

  ghost predicate Ordered(reports: seq<Report>) {
    forall i, j :: 0 <= i < j < |reports| ==> reports[i].captureSequence <= reports[j].captureSequence
  }

  /** The reports of `a` with one sequence number, in order: what stability is about. */
  function SameNumber(a: seq<Report>, sequence: uint64): seq<Report> {
    if a == [] then []
    else
      var k := |a| - 1;
      SameNumber(a[..k], sequence) + (if a[k].captureSequence == sequence then [a[k]] else [])
  }

  lemma {:induction false} InsertHolds(sorted: seq<Report>, r: Report)
    ensures multiset(InsertStable(sorted, r)) == multiset(sorted) + multiset{r}
    ensures |InsertStable(sorted, r)| == |sorted| + 1
  {
    if sorted != [] {
      var k := |sorted| - 1;
      assert sorted == sorted[..k] + [sorted[k]];
      InsertHolds(sorted[..k], r);
    }
  }

  ghost predicate NoLater(reports: seq<Report>, sequence: uint64) {
    forall i :: 0 <= i < |reports| ==> reports[i].captureSequence <= sequence
  }

  lemma {:induction false} InsertNoLater(sorted: seq<Report>, r: Report, sequence: uint64)
    requires NoLater(sorted, sequence) && r.captureSequence <= sequence
    ensures NoLater(InsertStable(sorted, r), sequence)
  {
    if sorted != [] && r.captureSequence < sorted[|sorted| - 1].captureSequence {
      InsertNoLater(sorted[..|sorted| - 1], r, sequence);
    }
  }

  lemma OrderedAppend(front: seq<Report>, last: Report)
    requires Ordered(front) && NoLater(front, last.captureSequence)
    ensures Ordered(front + [last])
  {
  }

  lemma OrderedFront(sorted: seq<Report>)
    requires Ordered(sorted) && sorted != []
    ensures var k := |sorted| - 1;
            Ordered(sorted[..k]) && NoLater(sorted[..k], sorted[k].captureSequence)
  {
  }

  lemma {:induction false} InsertSorts(sorted: seq<Report>, r: Report)
    requires Ordered(sorted)
    ensures Ordered(InsertStable(sorted, r))
  {
    if sorted == [] {
    } else {
      var k := |sorted| - 1;
      OrderedFront(sorted);
      if r.captureSequence < sorted[k].captureSequence {
        InsertSorts(sorted[..k], r);
        InsertNoLater(sorted[..k], r, sorted[k].captureSequence);
        OrderedAppend(InsertStable(sorted[..k], r), sorted[k]);
      } else {
        assert NoLater(sorted, r.captureSequence);
        OrderedAppend(sorted, r);
      }
    }
  }

  lemma {:induction false} InsertKeepsTies(sorted: seq<Report>, r: Report, sequence: uint64)
    requires Ordered(sorted)
    ensures SameNumber(InsertStable(sorted, r), sequence)
         == SameNumber(sorted, sequence) + (if r.captureSequence == sequence then [r] else [])
  {
    if sorted == [] {
      assert [r][..0] == [];
    } else {
      var k := |sorted| - 1;
      if r.captureSequence < sorted[k].captureSequence {
        InsertKeepsTies(sorted[..k], r, sequence);
        var front := InsertStable(sorted[..k], r);
        assert (front + [sorted[k]])[..|front|] == front;
      } else {
        assert (sorted + [r])[..|sorted|] == sorted;
      }
    }
  }

  /** Sorted, the same reports, and those with equal numbers in the order they came. */
  lemma {:induction false} StableSortSorts(group: seq<Report>, sequence: uint64)
    ensures Ordered(StableSort(group)) && multiset(StableSort(group)) == multiset(group)
    ensures |StableSort(group)| == |group|
    ensures SameNumber(StableSort(group), sequence) == SameNumber(group, sequence)
  {
    hide InsertStable;
    if group != [] {
      var k := |group| - 1;
      StableSortSorts(group[..k], sequence);
      InsertSorts(StableSort(group[..k]), group[k]);
      InsertHolds(StableSort(group[..k]), group[k]);
      InsertKeepsTies(StableSort(group[..k]), group[k], sequence);
      assert group == group[..k] + [group[k]];
    }
  }

  // ---------------------------------------------------------------------
  // Buttons
  // ---------------------------------------------------------------------

  datatype Replayed = Replayed(edges: seq<Edge>, down: BitSet, up: BitSet, buttons: BitSet)

  function EdgeOf(r: Report, ordinal: nat, before: BitSet): Edge {
    var after := BitsOf(r.buttons);
    Edge(r.captureSequence, r.captureUnixNs, ordinal, before, after, after - before, before - after)
  }

  /** The buttons of one bin's reports, in chronological order, from those held at its start. */
  function Replay(sorted: seq<Report>, buttons: BitSet): Replayed {
    if sorted == [] then Replayed([], {}, {}, buttons)
    else
      var k := |sorted| - 1;
      var so := Replay(sorted[..k], buttons);
      var edge := EdgeOf(sorted[k], k, so.buttons);
      Replayed(so.edges + (if edge.down != {} || edge.up != {} then [edge] else []),
               so.down + edge.down, so.up + edge.up, edge.after)
  }

  /** Edges lead from one set of buttons to another without a gap, each recording exactly
      what it changed. */
  ghost predicate Chain(start: BitSet, edges: seq<Edge>, end: BitSet) {
    && (edges == [] ==> start == end)
    && (edges != [] ==> edges[0].before == start && edges[|edges| - 1].after == end)
    && (forall i :: 0 <= i < |edges| ==>
          && edges[i].before != edges[i].after
          && edges[i].down == edges[i].after - edges[i].before
          && edges[i].up == edges[i].before - edges[i].after)
    && (forall i :: 0 < i < |edges| ==> edges[i - 1].after == edges[i].before)
  }

  lemma ChainsJoin(a: BitSet, left: seq<Edge>, b: BitSet, right: seq<Edge>, c: BitSet)
    requires Chain(a, left, b) && Chain(b, right, c)
    ensures Chain(a, left + right, c)
  {
    var all := left + right;
    forall i | 0 < i < |all|
      ensures all[i - 1].after == all[i].before
    {
      if i < |left| {
      } else if i == |left| {
        assert all[i - 1] == left[|left| - 1] || left == [];
      } else {
        assert all[i - 1] == right[i - 1 - |left|] && all[i] == right[i - |left|];
      }
    }
  }

  lemma {:induction false} ReplayChains(sorted: seq<Report>, buttons: BitSet)
    ensures var so := Replay(sorted, buttons);
            && Chain(buttons, so.edges, so.buttons)
            && (forall i :: 0 <= i < |so.edges| ==> so.edges[i].ordinal < |sorted|)
            && (forall i :: 0 < i < |so.edges| ==> so.edges[i - 1].ordinal < so.edges[i].ordinal)
  {
    if sorted != [] {
      var k := |sorted| - 1;
      ReplayChains(sorted[..k], buttons);
      var so := Replay(sorted[..k], buttons);
      var edge := EdgeOf(sorted[k], k, so.buttons);
      if edge.down != {} || edge.up != {} {
        assert edge.before != edge.after;
        ChainsJoin(buttons, so.edges, so.buttons, [edge], edge.after);
      } else {
        SameBits(edge.before, edge.after);
      }
    }
  }

  lemma SameBits(a: BitSet, b: BitSet)
    requires a - b == {} && b - a == {}
    ensures a == b
  {
    assert forall i :: i in a && i !in b ==> i in a - b;
    assert forall i :: i in b && i !in a ==> i in b - a;
  }

  // ---------------------------------------------------------------------
  // Regressions
  // ---------------------------------------------------------------------

  predicate TimeRegresses(reports: seq<Report>, j: nat)
    requires j < |reports|
  {
    j > 0 && reports[j].captureUnixNs < reports[j - 1].captureUnixNs
  }

  predicate SequenceRegresses(reports: seq<Report>, j: nat)
    requires j < |reports|
  {
    j > 0 && reports[j].captureSequence <= reports[j - 1].captureSequence
  }

  /** Between two bins, ends included, whichever comes first. */
  predicate Spanned(a: int, b: int, index: int) {
    a <= index <= b || b <= index <= a
  }

  /** The marks that report `j` puts on a bin. */
  function MarksOf(reports: seq<Report>, origin: int64, j: nat, index: int): BitSet
    requires j < |reports|
  {
    if j == 0
       || !Spanned(IndexOf(origin, reports[j - 1].captureUnixNs), IndexOf(origin, reports[j].captureUnixNs), index)
    then {}
    else
      (if TimeRegresses(reports, j) then {REGRESSED_BIT, UNCERTAIN_BIT} else {})
        + (if SequenceRegresses(reports, j) then {NOT_INCREASING_BIT, UNCERTAIN_BIT} else {})
  }

  function Marks(reports: seq<Report>, origin: int64, n: nat, index: int): BitSet
    requires n <= |reports|
  {
    if n == 0 then {} else Marks(reports, origin, n - 1, index) + MarksOf(reports, origin, n - 1, index)
  }

  function TimeRegressions(reports: seq<Report>, n: nat): nat
    requires n <= |reports|
  {
    if n == 0 then 0 else TimeRegressions(reports, n - 1) + (if TimeRegresses(reports, n - 1) then 1 else 0)
  }

  function SequenceRegressions(reports: seq<Report>, n: nat): nat
    requires n <= |reports|
  {
    if n == 0 then 0 else SequenceRegressions(reports, n - 1) + (if SequenceRegresses(reports, n - 1) then 1 else 0)
  }

  /** A bin is marked as crossed by a regression exactly when one crossed it. */
  lemma {:induction false} MarkedIff(reports: seq<Report>, origin: int64, n: nat, index: int)
    requires n <= |reports|
    ensures var marks := Marks(reports, origin, n, index);
            && (REGRESSED_BIT in marks <==>
                  exists j :: 0 < j < n && TimeRegresses(reports, j)
                    && Spanned(IndexOf(origin, reports[j - 1].captureUnixNs),
                               IndexOf(origin, reports[j].captureUnixNs), index))
            && (NOT_INCREASING_BIT in marks <==>
                  exists j :: 0 < j < n && SequenceRegresses(reports, j)
                    && Spanned(IndexOf(origin, reports[j - 1].captureUnixNs),
                               IndexOf(origin, reports[j].captureUnixNs), index))
            && (UNCERTAIN_BIT in marks <==> REGRESSED_BIT in marks || NOT_INCREASING_BIT in marks)
            && marks <= {REGRESSED_BIT, NOT_INCREASING_BIT, UNCERTAIN_BIT}
  {
    hide Spanned, IndexOf, TimeRegresses, SequenceRegresses;
    if n > 0 {
      MarkedIff(reports, origin, n - 1, index);
    }
  }
}
