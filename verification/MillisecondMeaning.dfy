/** What a derived bin says, in terms of the reports alone: the bits of their masks, their times
    and their sums (src/derive/MillisecondDeriver.cpp). */
module MillisecondMeaning {
  import opened Machine
  import opened Bitwise
  import opened ReportCodec
  import opened MillisecondGrid
  import opened MillisecondBins
  import opened MillisecondLaws

  // ---------------------------------------------------------------------
  // Which reports
  // ---------------------------------------------------------------------

  /** The reports of bin `index`, in the order of their numbers. */
  function Chronological(reports: seq<Report>, origin: int64, index: int): seq<Report> {
    StableSort(Group(reports, origin, index))
  }

  /** Whole milliseconds since the origin, rounded down. */
  function Millisecond(origin: int64, time: int64): int {
    (time - origin) / 1_000_000
  }

  lemma {:induction false} GroupTies(reports: seq<Report>, origin: int64, index: int, sequence: uint64)
    ensures SameNumber(Group(reports, origin, index), sequence)
         == Group(SameNumber(reports, sequence), origin, index)
  {
    hide InBin;
    if reports != [] {
      var k := |reports| - 1;
      var r, group, same := reports[k], Group(reports[..k], origin, index), SameNumber(reports[..k], sequence);
      GroupTies(reports[..k], origin, index, sequence);
      assert (group + [r])[..|group|] == group && group + [] == group;
      assert (same + [r])[..|same|] == same && same + [] == same;
    }
  }

  /** They are ordered, they are exactly the reports whose time is in the bin, each as often as in
      the input, and those with equal numbers are in input order. */
  lemma ChronologicalExact(reports: seq<Report>, origin: int64, index: int, sequence: uint64)
    ensures var sorted := Chronological(reports, origin, index);
            && (forall i, j :: 0 <= i < j < |sorted| ==> sorted[i].captureSequence <= sorted[j].captureSequence)
            && (forall r: Report ::
                  multiset(sorted)[r]
                  == if Millisecond(origin, r.captureUnixNs) == index then multiset(reports)[r] else 0)
            && SameNumber(sorted, sequence) == Group(SameNumber(reports, sequence), origin, index)
  {
    hide StableSort, Group, SameNumber;
    StableSortSorts(Group(reports, origin, index), sequence);
    GroupTies(reports, origin, index, sequence);
    forall r: Report
      ensures multiset(Group(reports, origin, index))[r]
           == if Millisecond(origin, r.captureUnixNs) == index then multiset(reports)[r] else 0
    {
      GroupMultiset(reports, origin, index, r);
    }
  }

  // ---------------------------------------------------------------------
  // Sums
  // ---------------------------------------------------------------------

  function SumOver(reports: seq<Report>, f: Report -> int): int {
    if reports == [] then 0 else SumOver(reports[..|reports| - 1], f) + f(reports[|reports| - 1])
  }

  lemma {:induction false} TotalIsSum(reports: seq<Report>, axis: Axis, f: Report -> int)
    requires forall r: Report :: f(r) == Along(r, axis)
    ensures Total(reports, axis) == SumOver(reports, f)
  {
    hide Along;
    if reports != [] {
      TotalIsSum(reports[..|reports| - 1], axis, f);
    }
  }

  lemma {:induction false} ZerosAreSum(reports: seq<Report>)
    ensures ZeroCount(reports) == SumOver(reports, (r: Report) => if r.dx == 0 && r.dy == 0 then 1 else 0)
  {
    if reports != [] {
      ZerosAreSum(reports[..|reports| - 1]);
    }
  }

  /** The sums of a bin are those of its reports; Y counts upwards only in the other convention;
      and the crosshair moves by them from where the bin before left it. */
  lemma BinSums(reports: seq<Report>, origin: int64, range: Range, options: Options, b: Binning, k: nat)
    requires Derived(reports, origin, range, options, b) && k < |b.bins|
    ensures var bin, sorted := b.bins[k], Chronological(reports, origin, range.first + k);
            var dx, dy := SumOver(sorted, (r: Report) => r.dx), SumOver(sorted, (r: Report) => r.dy);
            var up := options.convention.CountSpaceYUp?;
            && bin.delta == Delta(bin.delta.deviceDx, bin.delta.deviceDy, bin.delta.deviceDx, bin.delta.derivedDy)
            && bin.delta.deviceDx == dx && bin.delta.deviceDy == dy
            && bin.delta.derivedDy == (if up then 0 - dy else dy)
            && bin.wheelSum == SumOver(sorted, (r: Report) => r.wheel)
            && bin.horizontalWheelSum == SumOver(sorted, (r: Report) => r.horizontalWheel)
            && bin.reportCount == |sorted|
            && bin.zeroDeltaCount == SumOver(sorted, (r: Report) => if r.dx == 0 && r.dy == 0 then 1 else 0)
    ensures var bin := b.bins[k];
            && bin.pre == (if k == 0 then options.crosshair else b.bins[k - 1].post)
            && bin.post.x == bin.pre.x + bin.delta.derivedDx && bin.post.y == bin.pre.y + bin.delta.derivedDy
            && bin.begin == origin + (range.first + k) * 1_000_000 && bin.end == bin.begin + 1_000_000
  {
    var sorted := Chronological(reports, origin, range.first + k);
    assert SumsHold(Group(reports, origin, range.first + k), b.bins[k], options.convention)
        && PlaceHolds(b.bins[k], origin, range.first + k, PreOf(b.bins, k, options)) by {
      BinOfDerived(reports, origin, range, options, b, k);
    }
    TotalIsSum(sorted, X, (r: Report) => r.dx);
    TotalIsSum(sorted, Y, (r: Report) => r.dy);
    TotalIsSum(sorted, Wheel, (r: Report) => r.wheel);
    TotalIsSum(sorted, HorizontalWheel, (r: Report) => r.horizontalWheel);
    ZerosAreSum(sorted);
    hide Group, StableSort, Total, ZeroCount, SumOver;
    var group := Group(reports, origin, range.first + k);
    StableSortSorts(group, 0);
    TotalsPermute(sorted, group, X);
    TotalsPermute(sorted, group, Y);
    TotalsPermute(sorted, group, Wheel);
    TotalsPermute(sorted, group, HorizontalWheel);
  }

  // ---------------------------------------------------------------------
  // Buttons
  // ---------------------------------------------------------------------

  /** Whether button i is held once n of the reports have come. */
  predicate HeldAfter(sorted: seq<Report>, start: BitSet, n: nat, i: nat)
    requires n <= |sorted|
  {
    if n == 0 then i in start else Bit(sorted[n - 1].buttons, i)
  }

  predicate SwitchedOn(sorted: seq<Report>, start: BitSet, m: nat, i: nat)
    requires m < |sorted|
  {
    !HeldAfter(sorted, start, m, i) && HeldAfter(sorted, start, m + 1, i)
  }

  predicate SwitchedOff(sorted: seq<Report>, start: BitSet, m: nat, i: nat)
    requires m < |sorted|
  {
    HeldAfter(sorted, start, m, i) && !HeldAfter(sorted, start, m + 1, i)
  }

  lemma BitsOfExact(value: uint32, i: nat)
    ensures i in BitsOf(value) <==> Bit(value, i)
  {
    hide Bits, Bit;
    if i < 32 {
      BitIs(value, 32, i);
    } else {
      Powers();
      BitBeyond(value, 32, i);
    }
  }

  /** The buttons held once n reports have come, as a set. */
  function HeldSet(sorted: seq<Report>, start: BitSet, n: nat): BitSet
    requires n <= |sorted|
  {
    if n == 0 then start else BitsOf(sorted[n - 1].buttons)
  }

  lemma HeldSetExact(sorted: seq<Report>, start: BitSet, n: nat, i: nat)
    requires n <= |sorted|
    ensures i in HeldSet(sorted, start, n) <==> HeldAfter(sorted, start, n, i)
  {
    hide BitsOf, Bit;
    if n > 0 {
      BitsOfExact(sorted[n - 1].buttons, i);
    }
  }

  predicate Changed(sorted: seq<Report>, start: BitSet, k: nat)
    requires k < |sorted|
  {
    HeldSet(sorted, start, k) != HeldSet(sorted, start, k + 1)
  }

  /** The edge is that of report k. */
  ghost predicate EdgeAt(e: Edge, sorted: seq<Report>, start: BitSet, k: nat) {
    && k < |sorted| && e.ordinal == k
    && e.captureSequence == sorted[k].captureSequence && e.captureUnixNs == sorted[k].captureUnixNs
    && e.before == HeldSet(sorted, start, k) && e.after == HeldSet(sorted, start, k + 1)
    && e.down == e.after - e.before && e.up == e.before - e.after
  }

  /** Every edge is the one of its report, they are in order, and every change has one. */
  ghost predicate EdgesPlay(edges: seq<Edge>, sorted: seq<Report>, start: BitSet, n: nat)
    requires n <= |sorted|
  {
    && (forall j :: 0 <= j < |edges| ==>
          && edges[j].ordinal < n && edges[j].before != edges[j].after
          && EdgeAt(edges[j], sorted, start, edges[j].ordinal))
    && (forall j, l :: 0 <= j < l < |edges| ==> edges[j].ordinal < edges[l].ordinal)
    && (forall k: nat :: k < n && Changed(sorted, start, k) ==> exists j :: 0 <= j < |edges| && edges[j].ordinal == k)
  }

  /** The masks are the unions of those of the edges. */
  ghost predicate MasksPlay(so: Replayed) {
    && (forall i :: i in so.down <==> exists j :: 0 <= j < |so.edges| && i in so.edges[j].down)
    && (forall i :: i in so.up <==> exists j :: 0 <= j < |so.edges| && i in so.edges[j].up)
  }

  ghost predicate Plays(so: Replayed, sorted: seq<Report>, start: BitSet, n: nat)
    requires n <= |sorted|
  {
    so.buttons == HeldSet(sorted, start, n) && EdgesPlay(so.edges, sorted, start, n) && MasksPlay(so)
  }

  lemma {:induction false} ReplayPlays(sorted: seq<Report>, start: BitSet, n: nat)
    requires n <= |sorted|
    ensures Plays(Replay(sorted[..n], start), sorted, start, n)
  {
    hide BitsOf, EdgesPlay, MasksPlay;
    if n == 0 {
      NothingPlays(sorted, start);
    } else {
      ReplayPlays(sorted, start, n - 1);
      assert sorted[..n][..n - 1] == sorted[..n - 1];
      var so, edge := Replay(sorted[..n - 1], start), EdgeOf(sorted[n - 1], n - 1, HeldSet(sorted, start, n - 1));
      if edge.down != {} || edge.up != {} {
        OneMoreEdge(so.edges, sorted, start, n, edge);
        OneMoreSet(so, edge, HeldSet(sorted, start, n));
      } else {
        SameBits(edge.before, edge.after);
        NoEdge(so.edges, sorted, start, n);
        SameMasks(so, HeldSet(sorted, start, n));
        assert so.edges + [] == so.edges && so.down + {} == so.down && so.up + {} == so.up;
      }
    }
  }

  lemma NothingPlays(sorted: seq<Report>, start: BitSet)
    ensures EdgesPlay([], sorted, start, 0) && MasksPlay(Replayed([], {}, {}, start))
  {
  }

  lemma SameMasks(so: Replayed, buttons: BitSet)
    requires MasksPlay(so)
    ensures MasksPlay(so.(buttons := buttons))
  {
  }

  lemma OneMoreEdge(edges: seq<Edge>, sorted: seq<Report>, start: BitSet, n: nat, edge: Edge)
    requires 0 < n <= |sorted| && EdgesPlay(edges, sorted, start, n - 1)
    requires edge.before != edge.after && edge.ordinal == n - 1 && EdgeAt(edge, sorted, start, n - 1)
    ensures EdgesPlay(edges + [edge], sorted, start, n)
  {
    hide EdgeAt, Changed;
    var all, last := edges + [edge], |edges|;
    assert all[last] == edge && forall j :: 0 <= j < last ==> all[j] == edges[j];
    forall k: nat | k < n && Changed(sorted, start, k)
      ensures exists j :: 0 <= j < |all| && all[j].ordinal == k
    {
      if k < n - 1 {
        var j :| 0 <= j < last && edges[j].ordinal == k;
        assert all[j].ordinal == k;
      } else {
        assert all[last].ordinal == k;
      }
    }
  }

  lemma NoEdge(edges: seq<Edge>, sorted: seq<Report>, start: BitSet, n: nat)
    requires 0 < n <= |sorted| && EdgesPlay(edges, sorted, start, n - 1) && !Changed(sorted, start, n - 1)
    ensures EdgesPlay(edges, sorted, start, n)
  {
    hide EdgeAt, Changed;
  }

  lemma OneMoreSet(so: Replayed, edge: Edge, buttons: BitSet)
    requires MasksPlay(so)
    ensures MasksPlay(Replayed(so.edges + [edge], so.down + edge.down, so.up + edge.up, buttons))
  {
    var all := so.edges + [edge];
    assert all[|so.edges|] == edge;
    assert forall j :: 0 <= j < |so.edges| ==> all[j] == so.edges[j];
  }

  /** A bin starts with the buttons that the bin before it ended with, and ends with those of its
      last report; it has an edge for every report at which a button changes, with the report's
      number, time and rank and the buttons before and after it; and its down and up masks hold
      the buttons that some report switches on or off. */
  lemma BinButtons(reports: seq<Report>, origin: int64, range: Range, options: Options, b: Binning, k: nat, i: nat)
    requires Derived(reports, origin, range, options, b) && k < |b.bins|
    ensures var bin, sorted := b.bins[k], Chronological(reports, origin, range.first + k);
            var start, n := bin.buttonsAtStart, |sorted|;
            && start == (if k == 0 then options.buttons else b.bins[k - 1].buttonsAtEnd)
            && bin.firstSequence == (if n == 0 then None else Some(sorted[0].captureSequence))
            && bin.lastSequence == (if n == 0 then None else Some(sorted[n - 1].captureSequence))
            && (i in bin.buttonsAtEnd <==> HeldAfter(sorted, start, n, i))
            && (i in bin.buttonsDown <==>
                  exists m :: 0 <= m < n && SwitchedOn(sorted, start, m, i))
            && (i in bin.buttonsUp <==>
                  exists m :: 0 <= m < n && SwitchedOff(sorted, start, m, i))
  {
    var bin, sorted := b.bins[k], Chronological(reports, origin, range.first + k);
    assert ReplayHolds(sorted, bin, StartOf(b.bins, k, options)) by {
      BinOfDerived(reports, origin, range, options, b, k);
    }
    hide Group, StableSort, Replay, Chronological, HeldSet, HeldAfter, EdgeAt;
    assert sorted[..|sorted|] == sorted;
    ReplayPlays(sorted, bin.buttonsAtStart, |sorted|);
    HeldSetExact(sorted, bin.buttonsAtStart, |sorted|, i);
    Switched(Replayed(bin.edges, bin.buttonsDown, bin.buttonsUp, bin.buttonsAtEnd), sorted, bin.buttonsAtStart, i);
  }

  lemma Switched(so: Replayed, sorted: seq<Report>, start: BitSet, i: nat)
    requires Plays(so, sorted, start, |sorted|)
    ensures i in so.down <==>
            exists m :: 0 <= m < |sorted| && SwitchedOn(sorted, start, m, i)
    ensures i in so.up <==>
            exists m :: 0 <= m < |sorted| && SwitchedOff(sorted, start, m, i)
  {
    hide HeldSet, HeldAfter;
    forall m | 0 <= m <= |sorted|
      ensures i in HeldSet(sorted, start, m) <==> HeldAfter(sorted, start, m, i)
    {
      HeldSetExact(sorted, start, m, i);
    }
    if j :| 0 <= j < |so.edges| && i in so.edges[j].down {
      var m := so.edges[j].ordinal;
      assert SwitchedOn(sorted, start, m, i);
    }
    if j :| 0 <= j < |so.edges| && i in so.edges[j].up {
      var m := so.edges[j].ordinal;
      assert SwitchedOff(sorted, start, m, i);
    }
    forall m: nat | m < |sorted| && (SwitchedOn(sorted, start, m, i) || SwitchedOff(sorted, start, m, i))
      ensures exists j :: 0 <= j < |so.edges| && so.edges[j].ordinal == m
    {
      assert Changed(sorted, start, m);
    }
  }

  /** The edges of a bin: where the mask of a report differs from the buttons before it there is
      one, and every edge is the one of its report. */
  lemma BinEdges(reports: seq<Report>, origin: int64, range: Range, options: Options, b: Binning, k: nat, m: nat)
    requires Derived(reports, origin, range, options, b) && k < |b.bins|
    requires m < |Chronological(reports, origin, range.first + k)|
    ensures var edges, sorted := b.bins[k].edges, Chronological(reports, origin, range.first + k);
            var start := b.bins[k].buttonsAtStart;
            && ((exists j :: 0 <= j < |edges| && edges[j].ordinal == m) <==>
                exists i: nat :: HeldAfter(sorted, start, m, i) != HeldAfter(sorted, start, m + 1, i))
            && (forall j, l :: 0 <= j < l < |edges| ==> edges[j].ordinal < edges[l].ordinal < |sorted|)
            && (forall j :: 0 <= j < |edges| && edges[j].ordinal == m ==>
                  && edges[j].captureSequence == sorted[m].captureSequence
                  && edges[j].captureUnixNs == sorted[m].captureUnixNs
                  && (forall i: nat ::
                        && (i in edges[j].before <==> HeldAfter(sorted, start, m, i))
                        && (i in edges[j].after <==> HeldAfter(sorted, start, m + 1, i))
                        && (i in edges[j].down <==> i in edges[j].after && i !in edges[j].before)
                        && (i in edges[j].up <==> i in edges[j].before && i !in edges[j].after)))
  {
    var bin, sorted := b.bins[k], Chronological(reports, origin, range.first + k);
    assert ReplayHolds(sorted, bin, StartOf(b.bins, k, options)) by {
      BinOfDerived(reports, origin, range, options, b, k);
    }
    hide Group, StableSort, Replay, Chronological, HeldSet, HeldAfter;
    var start := bin.buttonsAtStart;
    assert sorted[..|sorted|] == sorted;
    ReplayPlays(sorted, start, |sorted|);
    forall n: nat, i: nat | n <= |sorted|
      ensures i in HeldSet(sorted, start, n) <==> HeldAfter(sorted, start, n, i)
    {
      HeldSetExact(sorted, start, n, i);
    }
    SetsDiffer(HeldSet(sorted, start, m), HeldSet(sorted, start, m + 1));
    assert Changed(sorted, start, m) <==> HeldSet(sorted, start, m) != HeldSet(sorted, start, m + 1);
  }

  lemma SetsDiffer(a: BitSet, b: BitSet)
    ensures a != b <==> exists i: nat :: (i in a) != (i in b)
  {
  }

  // ---------------------------------------------------------------------
  // Quality
  // ---------------------------------------------------------------------

  lemma {:induction false} SourceQualityExact(reports: seq<Report>, i: nat)
    ensures i in SourceQuality(reports) <==> exists r: Report :: r in reports && Bit(r.qualityFlags, i)
  {
    hide BitsOf, Bit;
    if reports != [] {
      var k := |reports| - 1;
      SourceQualityExact(reports[..k], i);
      BitsOfExact(reports[k].qualityFlags, i);
      assert reports == reports[..k] + [reports[k]];
    }
  }

  /** Two neighbours in the input of which the later one runs backwards. */
  predicate Backwards(reports: seq<Report>, j: nat)
    requires 0 < j < |reports|
  {
    reports[j].captureUnixNs < reports[j - 1].captureUnixNs
  }

  /** Two neighbours in the input of which the later one has no greater number. */
  predicate Again(reports: seq<Report>, j: nat)
    requires 0 < j < |reports|
  {
    reports[j].captureSequence <= reports[j - 1].captureSequence
  }

  /** Bin `index` is between those of two neighbours in the input. */
  predicate Crosses(reports: seq<Report>, origin: int64, j: nat, index: int)
    requires 0 < j < |reports|
  {
    var a, b := Millisecond(origin, reports[j - 1].captureUnixNs), Millisecond(origin, reports[j].captureUnixNs);
    a <= index <= b || b <= index <= a
  }

  lemma MarksMean(reports: seq<Report>, origin: int64, index: int)
    ensures var marks := Marks(reports, origin, |reports|, index);
            var back := exists j :: 0 < j < |reports| && Backwards(reports, j) && Crosses(reports, origin, j, index);
            var again := exists j :: 0 < j < |reports| && Again(reports, j) && Crosses(reports, origin, j, index);
            && (32 in marks <==> back) && (33 in marks <==> again) && (34 in marks <==> back || again)
            && (forall i: nat :: i < 32 ==> i !in marks)
  {
    hide Marks, IndexOf;
    MarkedIff(reports, origin, |reports|, index);
    forall j | 0 < j < |reports|
      ensures Crosses(reports, origin, j, index) <==>
              Spanned(IndexOf(origin, reports[j - 1].captureUnixNs), IndexOf(origin, reports[j].captureUnixNs), index)
      ensures Backwards(reports, j) <==> TimeRegresses(reports, j)
      ensures Again(reports, j) <==> SequenceRegresses(reports, j)
    {
    }
    hide Crosses, Spanned, Backwards, TimeRegresses, Again, SequenceRegresses;
  }

  lemma GroupMembers(reports: seq<Report>, origin: int64, index: int, r: Report)
    ensures r in Group(reports, origin, index) <==> r in reports && Millisecond(origin, r.captureUnixNs) == index
  {
    hide Group;
    var group := Group(reports, origin, index);
    GroupMultiset(reports, origin, index, r);
    assert (r in group <==> multiset(group)[r] > 0) && (r in reports <==> multiset(reports)[r] > 0);
  }

  lemma QualityOf(reports: seq<Report>, origin: int64, range: Range, options: Options, b: Binning, k: nat)
    requires Derived(reports, origin, range, options, b) && k < |b.bins|
    ensures var group := Group(reports, origin, range.first + k);
            b.bins[k].quality == SourceQuality(group) + Marks(reports, origin, |reports|, range.first + k)
  {
    BinOfDerived(reports, origin, range, options, b, k);
  }

  /** The flags of a bin are those of its reports. */
  lemma BinFlags(reports: seq<Report>, origin: int64, range: Range, options: Options, b: Binning, k: nat, i: nat)
    requires Derived(reports, origin, range, options, b) && k < |b.bins| && i < 32
    ensures i in b.bins[k].quality <==>
            exists r: Report :: r in reports && Millisecond(origin, r.captureUnixNs) == range.first + k
                                && Bit(r.qualityFlags, i)
  {
    hide Derived, Group, SourceQuality, Marks, Bit, Millisecond, Backwards, Again, Crosses;
    var index := range.first + k;
    QualityOf(reports, origin, range, options, b, k);
    SourceQualityExact(Group(reports, origin, index), i);
    forall r: Report
      ensures r in Group(reports, origin, index) <==> r in reports && Millisecond(origin, r.captureUnixNs) == index
    {
      GroupMembers(reports, origin, index, r);
    }
    MarksMean(reports, origin, index);
  }

  /** Three more bits say where the input runs backwards in time, or not forwards in number,
      across the bin. */
  lemma BinMarks(reports: seq<Report>, origin: int64, range: Range, options: Options, b: Binning, k: nat)
    requires Derived(reports, origin, range, options, b) && k < |b.bins|
    ensures var quality, index := b.bins[k].quality, range.first + k;
            var back := exists j :: 0 < j < |reports| && Backwards(reports, j) && Crosses(reports, origin, j, index);
            var again := exists j :: 0 < j < |reports| && Again(reports, j) && Crosses(reports, origin, j, index);
            && (32 in quality <==> back) && (33 in quality <==> again) && (34 in quality <==> back || again)
  {
    hide Derived, Group, SourceQuality, Marks, Bit, Millisecond, Backwards, Again, Crosses;
    QualityOf(reports, origin, range, options, b, k);
    MarksMean(reports, origin, range.first + k);
    NoHighFlags(Group(reports, origin, range.first + k));
  }

  lemma NoHighFlags(group: seq<Report>)
    ensures 32 !in SourceQuality(group) && 33 !in SourceQuality(group) && 34 !in SourceQuality(group)
  {
    hide SourceQuality, Bit;
    forall i: nat | i >= 32
      ensures i !in SourceQuality(group)
    {
      SourceQualityExact(group, i);
      Powers();
      forall r: Report | r in group
        ensures !Bit(r.qualityFlags, i)
      {
        BitBeyond(r.qualityFlags, 32, i);
      }
    }
  }

  // ---------------------------------------------------------------------
  // The whole derivation
  // ---------------------------------------------------------------------

  lemma SameRegressions(reports: seq<Report>, j: nat)
    requires j < |reports|
    ensures TimeRegresses(reports, j) <==> j > 0 && Backwards(reports, j)
    ensures SequenceRegresses(reports, j) <==> j > 0 && Again(reports, j)
  {
  }

  lemma {:induction false} BackwardsCounted(reports: seq<Report>, n: nat)
    requires n <= |reports|
    ensures TimeRegressions(reports, n) == |set j | 0 < j < n && Backwards(reports, j)|
  {
    hide Backwards, TimeRegresses;
    if n > 0 {
      BackwardsCounted(reports, n - 1);
      SameRegressions(reports, n - 1);
      var all, before := set j | 0 < j < n && Backwards(reports, j), set j | 0 < j < n - 1 && Backwards(reports, j);
      assert all == before + (if n > 1 && Backwards(reports, n - 1) then {n - 1} else {});
    }
  }

  lemma {:induction false} AgainCounted(reports: seq<Report>, n: nat)
    requires n <= |reports|
    ensures SequenceRegressions(reports, n) == |set j | 0 < j < n && Again(reports, j)|
  {
    hide Again, SequenceRegresses;
    if n > 0 {
      AgainCounted(reports, n - 1);
      SameRegressions(reports, n - 1);
      var all, before := set j | 0 < j < n && Again(reports, j), set j | 0 < j < n - 1 && Again(reports, j);
      assert all == before + (if n > 1 && Again(reports, n - 1) then {n - 1} else {});
    }
  }

  lemma {:induction false} QualityUnion(bins: seq<Bin>, i: nat)
    ensures i in AllQuality(bins) <==> exists k :: 0 <= k < |bins| && i in bins[k].quality
  {
    if bins != [] {
      QualityUnion(bins[..|bins| - 1], i);
    }
  }

  /** The flags of the whole derivation are those of its bins, and the regressions are counted. */
  lemma BinningTotals(reports: seq<Report>, origin: int64, range: Range, options: Options, b: Binning, i: nat)
    requires Derived(reports, origin, range, options, b)
    ensures i in b.quality <==> exists k :: 0 <= k < |b.bins| && i in b.bins[k].quality
    ensures b.timestampRegressions == |set j | 0 < j < |reports| && Backwards(reports, j)|
    ensures b.sequenceRegressions == |set j | 0 < j < |reports| && Again(reports, j)|
    ensures range.first + |b.bins| == range.endExclusive
  {
    hide AllQuality, BinHolds, TimeRegressions, SequenceRegressions;
    QualityUnion(b.bins, i);
    BackwardsCounted(reports, |reports|);
    AgainCounted(reports, |reports|);
  }
}
