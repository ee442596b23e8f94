/** Laws of the dense derivation: what is conserved, what chains from bin to bin, and what
    does not depend on the order of the input. */
module MillisecondLaws {
  import opened Machine
  import opened ReportCodec
  import opened MillisecondGrid
  import opened MillisecondBins

  // ---------------------------------------------------------------------
  // A derivation, bin by bin
  // ---------------------------------------------------------------------

  function StartOf(bins: seq<Bin>, k: nat, options: Options): BitSet
    requires k <= |bins|
  {
    if k == 0 then options.buttons else bins[k - 1].buttonsAtEnd
  }

  function PreOf(bins: seq<Bin>, k: nat, options: Options): Position
    requires k <= |bins|
  {
    if k == 0 then options.crosshair else bins[k - 1].post
  }

  /** What one bin sums up from its reports. */
  ghost predicate SumsHold(group: seq<Report>, bin: Bin, convention: Convention) {
    && bin.delta.deviceDx == Total(group, X) && bin.delta.deviceDy == Total(group, Y)
    && bin.delta.derivedDx == Total(group, X)
    && bin.delta.derivedDy == (if convention.CountSpaceYUp? then 0 - Total(group, Y) else Total(group, Y))
    && bin.wheelSum == Total(group, Wheel) && bin.horizontalWheelSum == Total(group, HorizontalWheel)
    && bin.reportCount == |group| <= MAX_UINT32
    && bin.zeroDeltaCount == ZeroCount(group)
  }

  /** What one bin replays from its reports in chronological order. */
  ghost predicate ReplayHolds(sorted: seq<Report>, bin: Bin, start: BitSet) {
    && bin.buttonsAtStart == start
    && Replayed(bin.edges, bin.buttonsDown, bin.buttonsUp, bin.buttonsAtEnd) == Replay(sorted, start)
    && bin.firstSequence == (if sorted == [] then None else Some(sorted[0].captureSequence))
    && bin.lastSequence == (if sorted == [] then None else Some(sorted[|sorted| - 1].captureSequence))
  }

  ghost predicate PlaceHolds(bin: Bin, origin: int64, index: int, pre: Position) {
    && bin.index == index
    && bin.begin == origin + index * MILLISECOND && bin.end == bin.begin + MILLISECOND
    && bin.pre == pre
    && bin.post.x == pre.x + bin.delta.derivedDx && bin.post.y == pre.y + bin.delta.derivedDy
  }

  ghost predicate BinHolds(reports: seq<Report>, origin: int64, index: int, convention: Convention, bin: Bin,
                           start: BitSet, pre: Position)
  {
    var group := Group(reports, origin, index);
    && SumsHold(group, bin, convention)
    && ReplayHolds(StableSort(group), bin, start)
    && PlaceHolds(bin, origin, index, pre)
    && bin.quality == SourceQuality(group) + Marks(reports, origin, |reports|, index)
  }

  function AllQuality(bins: seq<Bin>): BitSet {
    if bins == [] then {} else AllQuality(bins[..|bins| - 1]) + bins[|bins| - 1].quality
  }

  ghost predicate AllInRange(reports: seq<Report>, origin: int64, range: Range) {
    forall i :: 0 <= i < |reports| ==> range.Contains(IndexOf(origin, reports[i].captureUnixNs))
  }

  ghost predicate Derived(reports: seq<Report>, origin: int64, range: Range, options: Options, b: Binning) {
    && range.first + |b.bins| == range.endExclusive
    && AllInRange(reports, origin, range)
    && (forall k :: 0 <= k < |b.bins| ==>
          BinHolds(reports, origin, range.first + k, options.convention, b.bins[k], StartOf(b.bins, k, options),
                   PreOf(b.bins, k, options)))
    && b.quality == AllQuality(b.bins)
    && b.timestampRegressions == TimeRegressions(reports, |reports|)
    && b.sequenceRegressions == SequenceRegressions(reports, |reports|)
  }

  lemma BinOfDerived(reports: seq<Report>, origin: int64, range: Range, options: Options, b: Binning, k: nat)
    requires Derived(reports, origin, range, options, b) && k < |b.bins|
    ensures BinHolds(reports, origin, range.first + k, options.convention, b.bins[k], StartOf(b.bins, k, options),
                     PreOf(b.bins, k, options))
  {
    hide BinHolds;
  }

  // ---------------------------------------------------------------------
  // Conservation
  // ---------------------------------------------------------------------

  function BinMotion(bin: Bin, axis: Axis): int {
    match axis
    case X => bin.delta.deviceDx
    case Y => bin.delta.deviceDy
    case Wheel => bin.wheelSum
    case HorizontalWheel => bin.horizontalWheelSum
  }

  function BinsMotion(bins: seq<Bin>, axis: Axis): int {
    if bins == [] then 0 else BinsMotion(bins[..|bins| - 1], axis) + BinMotion(bins[|bins| - 1], axis)
  }

  function BinsCount(bins: seq<Bin>): nat {
    if bins == [] then 0 else BinsCount(bins[..|bins| - 1]) + bins[|bins| - 1].reportCount
  }

  function BinsZeroCount(bins: seq<Bin>): nat {
    if bins == [] then 0 else BinsZeroCount(bins[..|bins| - 1]) + bins[|bins| - 1].zeroDeltaCount
  }

  /** The sums over the first n groups: motion, reports and zero-motion reports. */
  function GroupsMotion(reports: seq<Report>, origin: int64, first: int, n: nat, axis: Axis): int {
    if n == 0 then 0
    else GroupsMotion(reports, origin, first, n - 1, axis) + Total(Group(reports, origin, first + n - 1), axis)
  }

  function GroupsCount(reports: seq<Report>, origin: int64, first: int, n: nat): nat {
    if n == 0 then 0 else GroupsCount(reports, origin, first, n - 1) + |Group(reports, origin, first + n - 1)|
  }

  function GroupsZeroCount(reports: seq<Report>, origin: int64, first: int, n: nat): nat {
    if n == 0 then 0
    else GroupsZeroCount(reports, origin, first, n - 1) + ZeroCount(Group(reports, origin, first + n - 1))
  }

  lemma OneMore(group: seq<Report>, r: Report, axis: Axis)
    ensures Total(group + [r], axis) == Total(group, axis) + Along(r, axis)
    ensures ZeroCount(group + [r]) == ZeroCount(group) + (if ZeroDelta(r) then 1 else 0)
    ensures SourceQuality(group + [r]) == SourceQuality(group) + BitsOf(r.qualityFlags)
  {
    hide BitsOf;
    assert (group + [r])[..|group|] == group;
  }

  lemma GroupGrows(reports: seq<Report>, r: Report, origin: int64, index: int, axis: Axis)
    ensures var inside := InBin(r, origin, index);
            var before, after := Group(reports, origin, index), Group(reports + [r], origin, index);
            && Total(after, axis) == Total(before, axis) + (if inside then Along(r, axis) else 0)
            && |after| == |before| + (if inside then 1 else 0)
            && ZeroCount(after) == ZeroCount(before) + (if inside && ZeroDelta(r) then 1 else 0)
  {
    hide InBin, Total, ZeroCount, SourceQuality, Along, ZeroDelta;
    assert (reports + [r])[..|reports|] == reports;
    var before := Group(reports, origin, index);
    OneMore(before, r, axis);
    assert before + [] == before;
  }

  /** A report adds to exactly one of the groups, if its bin is among them. */
  lemma {:induction false} GroupsGrow(reports: seq<Report>, r: Report, origin: int64, first: int, n: nat, axis: Axis)
    ensures var inside := first <= IndexOf(origin, r.captureUnixNs) < first + n;
            && GroupsMotion(reports + [r], origin, first, n, axis)
               == GroupsMotion(reports, origin, first, n, axis) + (if inside then Along(r, axis) else 0)
            && GroupsCount(reports + [r], origin, first, n)
               == GroupsCount(reports, origin, first, n) + (if inside then 1 else 0)
            && GroupsZeroCount(reports + [r], origin, first, n)
               == GroupsZeroCount(reports, origin, first, n) + (if inside && ZeroDelta(r) then 1 else 0)
  {
    hide IndexOf, Total, ZeroCount, Group, Along, ZeroDelta;
    if n > 0 {
      GroupsGrow(reports, r, origin, first, n - 1, axis);
      GroupGrows(reports, r, origin, first + n - 1, axis);
    }
  }

  lemma {:induction false} NoGroups(origin: int64, first: int, n: nat, axis: Axis)
    ensures GroupsMotion([], origin, first, n, axis) == 0 && GroupsCount([], origin, first, n) == 0
    ensures GroupsZeroCount([], origin, first, n) == 0
  {
    if n > 0 {
      NoGroups(origin, first, n - 1, axis);
    }
  }

  lemma {:induction false} GroupsPartition(reports: seq<Report>, origin: int64, range: Range, n: nat, axis: Axis)
    requires AllInRange(reports, origin, range) && range.first + n == range.endExclusive
    ensures GroupsMotion(reports, origin, range.first, n, axis) == Total(reports, axis)
    ensures GroupsCount(reports, origin, range.first, n) == |reports|
    ensures GroupsZeroCount(reports, origin, range.first, n) == ZeroCount(reports)
    decreases |reports|
  {
    hide IndexOf, Group, GroupsMotion, GroupsCount, GroupsZeroCount;
    if reports == [] {
      NoGroups(origin, range.first, n, axis);
    } else {
      var k := |reports| - 1;
      GroupsPartition(reports[..k], origin, range, n, axis);
      GroupsGrow(reports[..k], reports[k], origin, range.first, n, axis);
      assert reports[..k] + [reports[k]] == reports;
    }
  }

  lemma {:induction false} BinsAreGroups(reports: seq<Report>, origin: int64, range: Range, options: Options,
                                         b: Binning, n: nat, axis: Axis)
    requires Derived(reports, origin, range, options, b) && n <= |b.bins|
    ensures BinsMotion(b.bins[..n], axis) == GroupsMotion(reports, origin, range.first, n, axis)
    ensures BinsCount(b.bins[..n]) == GroupsCount(reports, origin, range.first, n)
    ensures BinsZeroCount(b.bins[..n]) == GroupsZeroCount(reports, origin, range.first, n)
  {
    hide Derived, Total, ZeroCount, Group, StableSort, ReplayHolds, PlaceHolds, Marks, SourceQuality;
    if n > 0 {
      BinsAreGroups(reports, origin, range, options, b, n - 1, axis);
      assert b.bins[..n][..n - 1] == b.bins[..n - 1];
      BinOfDerived(reports, origin, range, options, b, n - 1);
    }
  }

  /** Motion, wheel movement and reports are neither lost nor counted twice. */
  lemma Conservation(reports: seq<Report>, origin: int64, range: Range, options: Options, b: Binning, axis: Axis)
    requires Derived(reports, origin, range, options, b)
    ensures BinsMotion(b.bins, axis) == Total(reports, axis)
    ensures BinsCount(b.bins) == |reports| && BinsZeroCount(b.bins) == ZeroCount(reports)
  {
    BinsAreGroups(reports, origin, range, options, b, |b.bins|, axis);
    GroupsPartition(reports, origin, range, |b.bins|, axis);
    assert b.bins[..|b.bins|] == b.bins;
  }

  // ---------------------------------------------------------------------
  // Chaining
  // ---------------------------------------------------------------------

  /** The position at the end of a prefix of the bins is the initial one plus all derived
      motion so far; so each bin starts where the one before it ended. */
  lemma {:induction false} Telescoping(reports: seq<Report>, origin: int64, range: Range, options: Options, b: Binning,
                                       n: nat)
    requires Derived(reports, origin, range, options, b) && n <= |b.bins|
    ensures var end := PreOf(b.bins, n, options);
            && end.x == options.crosshair.x + BinsMotion(b.bins[..n], X)
            && end.y == options.crosshair.y
                        + (if options.convention.CountSpaceYUp? then 0 - BinsMotion(b.bins[..n], Y)
                           else BinsMotion(b.bins[..n], Y))
    ensures n < |b.bins| ==> b.bins[n].pre == PreOf(b.bins, n, options)
                             && b.bins[n].buttonsAtStart == StartOf(b.bins, n, options)
  {
    hide Derived, Total, ZeroCount, Group, StableSort, Marks, SourceQuality, Replay;
    if n < |b.bins| {
      BinOfDerived(reports, origin, range, options, b, n);
    }
    if n > 0 {
      Telescoping(reports, origin, range, options, b, n - 1);
      assert b.bins[..n][..n - 1] == b.bins[..n - 1];
      BinOfDerived(reports, origin, range, options, b, n - 1);
    }
  }

  /** So the last position is the initial one plus the motion of all reports. */
  lemma FinalPosition(reports: seq<Report>, origin: int64, range: Range, options: Options, b: Binning)
    requires Derived(reports, origin, range, options, b)
    ensures var end := PreOf(b.bins, |b.bins|, options);
            && end.x == options.crosshair.x + Total(reports, X)
            && end.y == options.crosshair.y
                        + (if options.convention.CountSpaceYUp? then 0 - Total(reports, Y) else Total(reports, Y))
  {
    hide Derived;
    Telescoping(reports, origin, range, options, b, |b.bins|);
    Conservation(reports, origin, range, options, b, X);
    Conservation(reports, origin, range, options, b, Y);
    assert b.bins[..|b.bins|] == b.bins;
  }

  function AllEdges(bins: seq<Bin>): seq<Edge> {
    if bins == [] then [] else AllEdges(bins[..|bins| - 1]) + bins[|bins| - 1].edges
  }

  /** The button edges of all bins in a row lead from the initial buttons to the last ones. */
  lemma {:induction false} EdgesChain(reports: seq<Report>, origin: int64, range: Range, options: Options, b: Binning,
                                      n: nat)
    requires Derived(reports, origin, range, options, b) && n <= |b.bins|
    ensures Chain(options.buttons, AllEdges(b.bins[..n]), StartOf(b.bins, n, options))
  {
    hide Derived, Total, ZeroCount, Group, StableSort, Marks, SourceQuality, Replay, Chain, SumsHold, PlaceHolds;
    if n == 0 {
      EmptyChain(options.buttons);
    } else {
      EdgesChain(reports, origin, range, options, b, n - 1);
      assert b.bins[..n][..n - 1] == b.bins[..n - 1];
      var bin := b.bins[n - 1];
      BinOfDerived(reports, origin, range, options, b, n - 1);
      ReplayChains(StableSort(Group(reports, origin, range.first + (n - 1))), bin.buttonsAtStart);
      ChainsJoin(options.buttons, AllEdges(b.bins[..n - 1]), bin.buttonsAtStart, bin.edges, bin.buttonsAtEnd);
    }
  }

  lemma EmptyChain(buttons: BitSet)
    ensures Chain(buttons, [], buttons)
  {
  }

  // ---------------------------------------------------------------------
  // Order independence
  // ---------------------------------------------------------------------

  ghost predicate DistinctNumbers(reports: seq<Report>) {
    forall i, j :: 0 <= i < j < |reports| ==> reports[i].captureSequence != reports[j].captureSequence
  }

  ghost predicate StrictlyOrdered(reports: seq<Report>) {
    forall i, j :: 0 <= i < j < |reports| ==> reports[i].captureSequence < reports[j].captureSequence
  }

  /** Distinct numbers, said of the multiset, so that it survives permutation. */
  ghost predicate DistinctIn(m: multiset<Report>) {
    && (forall r :: r in m ==> m[r] == 1)
    && (forall r, s :: r in m && s in m && r.captureSequence == s.captureSequence ==> r == s)
  }

  lemma {:induction false} DistinctInMultiset(reports: seq<Report>)
    requires DistinctNumbers(reports)
    ensures DistinctIn(multiset(reports))
  {
    if reports != [] {
      var k := |reports| - 1;
      assert reports == reports[..k] + [reports[k]];
      DistinctInMultiset(reports[..k]);
      forall r | r in reports[..k]
        ensures r.captureSequence != reports[k].captureSequence
      {
        var i :| 0 <= i < k && reports[..k][i] == r;
      }
    }
  }

  lemma {:induction false} GroupMultiset(reports: seq<Report>, origin: int64, index: int, r: Report)
    ensures multiset(Group(reports, origin, index))[r]
         == if InBin(r, origin, index) then multiset(reports)[r] else 0
  {
    hide InBin;
    if reports != [] {
      var k := |reports| - 1;
      assert reports == reports[..k] + [reports[k]];
      GroupMultiset(reports[..k], origin, index, r);
    }
  }

  lemma GroupsPermute(a: seq<Report>, b: seq<Report>, origin: int64, index: int)
    requires multiset(a) == multiset(b)
    ensures multiset(Group(a, origin, index)) == multiset(Group(b, origin, index))
  {
    hide InBin;
    forall r: Report
      ensures multiset(Group(a, origin, index))[r] == multiset(Group(b, origin, index))[r]
    {
      GroupMultiset(a, origin, index, r);
      GroupMultiset(b, origin, index, r);
    }
  }

  lemma SortedIsStrict(reports: seq<Report>)
    requires Ordered(reports) && DistinctIn(multiset(reports))
    ensures StrictlyOrdered(reports)
  {
    forall i, j | 0 <= i < j < |reports|
      ensures reports[i].captureSequence < reports[j].captureSequence
    {
      if reports[i].captureSequence == reports[j].captureSequence {
        assert reports[i] in multiset(reports) && reports[j] in multiset(reports);
        Twice(reports, i, j);
      }
    }
  }

  lemma Twice(reports: seq<Report>, i: nat, j: nat)
    requires i < j < |reports| && reports[i] == reports[j]
    ensures multiset(reports)[reports[i]] >= 2
  {
    assert reports == reports[..j] + [reports[j]] + reports[j + 1..];
    assert reports[..j][i] == reports[i];
    assert reports[i] in multiset(reports[..j]);
  }

  /** Two strictly ascending lists of the same reports are the same list. */
  lemma {:induction false} SortedUnique(a: seq<Report>, b: seq<Report>)
    requires StrictlyOrdered(a) && StrictlyOrdered(b) && multiset(a) == multiset(b)
    ensures a == b
  {
    SameLength(a, b);
    if a != [] {
      var k := |a| - 1;
      LastIsLargest(a, b);
      LastIsLargest(b, a);
      WithoutLast(a, b);
      SortedUnique(a[..k], b[..k]);
      assert a == a[..k] + [a[k]] && b == b[..k] + [b[k]];
    }
  }

  lemma SameLength(a: seq<Report>, b: seq<Report>)
    requires multiset(a) == multiset(b)
    ensures |a| == |b|
  {
    assert |a| == |multiset(a)| == |multiset(b)| == |b|;
  }

  lemma WithoutLast(a: seq<Report>, b: seq<Report>)
    requires multiset(a) == multiset(b) && a != [] && b != [] && a[|a| - 1] == b[|b| - 1]
    ensures multiset(a[..|a| - 1]) == multiset(b[..|b| - 1])
  {
    SplitLast(a);
    SplitLast(b);
    assert multiset(a[..|a| - 1]) == multiset(a) - multiset{a[|a| - 1]};
    assert multiset(b[..|b| - 1]) == multiset(b) - multiset{b[|b| - 1]};
  }

  lemma LastIsLargest(a: seq<Report>, b: seq<Report>)
    requires a != [] && b != [] && StrictlyOrdered(a) && StrictlyOrdered(b) && multiset(a) == multiset(b)
    ensures a[|a| - 1].captureSequence <= b[|b| - 1].captureSequence
    ensures a[|a| - 1].captureSequence == b[|b| - 1].captureSequence ==> a[|a| - 1] == b[|b| - 1]
  {
    assert a[|a| - 1] in multiset(b);
    var i :| 0 <= i < |b| && b[i] == a[|a| - 1];
  }

  lemma SortsAgree(a: seq<Report>, b: seq<Report>)
    requires multiset(a) == multiset(b) && DistinctIn(multiset(a))
    ensures StableSort(a) == StableSort(b)
  {
    hide StableSort, DistinctIn;
    StableSortSorts(a, 0);
    StableSortSorts(b, 0);
    SortedIsStrict(StableSort(a));
    SortedIsStrict(StableSort(b));
    SortedUnique(StableSort(a), StableSort(b));
  }

  lemma {:induction false} InsertTotals(sorted: seq<Report>, r: Report, axis: Axis)
    ensures Total(InsertStable(sorted, r), axis) == Total(sorted, axis) + Along(r, axis)
    ensures ZeroCount(InsertStable(sorted, r)) == ZeroCount(sorted) + (if ZeroDelta(r) then 1 else 0)
    ensures SourceQuality(InsertStable(sorted, r)) == SourceQuality(sorted) + BitsOf(r.qualityFlags)
  {
    hide BitsOf, Along, ZeroDelta, Total, ZeroCount, SourceQuality;
    if sorted == [] {
      OneMore([], r, axis);
      assert [] + [r] == [r];
    } else {
      var k := |sorted| - 1;
      assert sorted == sorted[..k] + [sorted[k]];
      OneMore(sorted[..k], sorted[k], axis);
      if r.captureSequence < sorted[k].captureSequence {
        InsertTotals(sorted[..k], r, axis);
        OneMore(InsertStable(sorted[..k], r), sorted[k], axis);
      } else {
        OneMore(sorted, r, axis);
      }
    }
  }

  lemma {:induction false} SortKeepsTotals(group: seq<Report>, axis: Axis)
    ensures Total(StableSort(group), axis) == Total(group, axis)
    ensures ZeroCount(StableSort(group)) == ZeroCount(group)
    ensures SourceQuality(StableSort(group)) == SourceQuality(group)
  {
    hide InsertStable, BitsOf;
    if group != [] {
      var k := |group| - 1;
      SortKeepsTotals(group[..k], axis);
      InsertTotals(StableSort(group[..k]), group[k], axis);
    }
  }

  /** Everything a bin takes from its group is the same for both inputs. */
  lemma GroupsAgree(a: seq<Report>, b: seq<Report>, origin: int64, index: int, axis: Axis)
    requires multiset(a) == multiset(b) && DistinctIn(multiset(a))
    ensures var ga, gb := Group(a, origin, index), Group(b, origin, index);
            && StableSort(ga) == StableSort(gb) && |ga| == |gb|
            && Total(ga, axis) == Total(gb, axis) && ZeroCount(ga) == ZeroCount(gb)
            && SourceQuality(ga) == SourceQuality(gb)
  {
    hide StableSort, Total, ZeroCount, SourceQuality, Group;
    var ga, gb := Group(a, origin, index), Group(b, origin, index);
    GroupsPermute(a, b, origin, index);
    assert DistinctIn(multiset(ga)) by {
      forall r: Report
        ensures r in multiset(ga) ==> r in multiset(a) && multiset(ga)[r] == multiset(a)[r]
      {
        GroupMultiset(a, origin, index, r);
      }
    }
    SortsAgree(ga, gb);
    SortKeepsTotals(ga, axis);
    SortKeepsTotals(gb, axis);
    assert |ga| == |multiset(ga)| == |multiset(gb)| == |gb|;
  }

  /** All of a bin but the bits that record how the input was ordered. */
  function Unmarked(bin: Bin): Bin {
    bin.(quality := bin.quality - {REGRESSED_BIT, NOT_INCREASING_BIT, UNCERTAIN_BIT})
  }

  lemma BinsAgree(a: seq<Report>, b: seq<Report>, origin: int64, index: int, convention: Convention, p: Bin, q: Bin,
                  start: BitSet, pre: Position)
    requires multiset(a) == multiset(b) && DistinctIn(multiset(a))
    requires BinHolds(a, origin, index, convention, p, start, pre)
    requires BinHolds(b, origin, index, convention, q, start, pre)
    ensures Unmarked(p) == Unmarked(q)
  {
    hide StableSort, Total, ZeroCount, SourceQuality, Group, DistinctIn, Replay, Marks;
    GroupsAgree(a, b, origin, index, X);
    GroupsAgree(a, b, origin, index, Y);
    GroupsAgree(a, b, origin, index, Wheel);
    GroupsAgree(a, b, origin, index, HorizontalWheel);
    MarkedIff(a, origin, |a|, index);
    MarkedIff(b, origin, |b|, index);
    var marks: BitSet := {REGRESSED_BIT, NOT_INCREASING_BIT, UNCERTAIN_BIT};
    assert p.quality - marks == SourceQuality(Group(a, origin, index)) - marks;
    assert q.quality - marks == SourceQuality(Group(b, origin, index)) - marks;
  }

  /** Permuting reports with distinct sequence numbers changes no bin, except for the bits
      that say a regression was seen in the input. */
  lemma {:induction false} OrderIndependent(a: seq<Report>, b: seq<Report>, origin: int64, range: Range,
                                            options: Options, p: Binning, q: Binning, k: nat)
    requires multiset(a) == multiset(b) && DistinctNumbers(a)
    requires Derived(a, origin, range, options, p) && Derived(b, origin, range, options, q)
    requires k < |p.bins|
    ensures |p.bins| == |q.bins| && Unmarked(p.bins[k]) == Unmarked(q.bins[k])
  {
    hide BinHolds, AllInRange, AllQuality;
    DistinctInMultiset(a);
    if k > 0 {
      OrderIndependent(a, b, origin, range, options, p, q, k - 1);
    }
    BinsAgree(a, b, origin, range.first + k, options.convention, p.bins[k], q.bins[k], StartOf(p.bins, k, options),
              PreOf(p.bins, k, options));
  }

  // ---------------------------------------------------------------------
  // Sums of permuted reports, whatever their numbers
  // ---------------------------------------------------------------------

  lemma {:induction false} TotalsJoin(a: seq<Report>, b: seq<Report>, axis: Axis)
    ensures Total(a + b, axis) == Total(a, axis) + Total(b, axis)
    ensures ZeroCount(a + b) == ZeroCount(a) + ZeroCount(b)
    ensures SourceQuality(a + b) == SourceQuality(a) + SourceQuality(b)
    decreases |b|
  {
    hide BitsOf, Along, ZeroDelta, Total, ZeroCount, SourceQuality;
    if b == [] {
      assert a + [] == a;
      NothingSummed(axis);
    } else {
      var k := |b| - 1;
      SplitLast(b);
      Assoc(a, b[..k], [b[k]]);
      TotalsJoin(a, b[..k], axis);
      OneMore(a + b[..k], b[k], axis);
      OneMore(b[..k], b[k], axis);
    }
  }

  lemma NothingSummed(axis: Axis)
    ensures Total([], axis) == 0 && ZeroCount([]) == 0 && SourceQuality([]) == {}
  {
  }

  lemma SplitAt(b: seq<Report>, i: nat)
    requires i < |b|
    ensures b == (b[..i] + [b[i]]) + b[i + 1..]
    ensures multiset(b) == multiset(b[..i] + b[i + 1..]) + multiset{b[i]}
  {
    assert b == (b[..i] + [b[i]]) + b[i + 1..];
  }

  /** Sums, counts and quality bits do not depend on the order. */
  lemma {:induction false} TotalsPermute(a: seq<Report>, b: seq<Report>, axis: Axis)
    requires multiset(a) == multiset(b)
    ensures Total(a, axis) == Total(b, axis) && ZeroCount(a) == ZeroCount(b) && SourceQuality(a) == SourceQuality(b)
    decreases |a|
  {
    hide BitsOf, Along, ZeroDelta, Total, ZeroCount, SourceQuality;
    SameLength(a, b);
    if a == [] {
      assert b == [];
    } else {
      var k := |a| - 1;
      assert a[k] in multiset(b);
      var i :| 0 <= i < |b| && b[i] == a[k];
      SplitLast(a);
      SplitAt(b, i);
      assert multiset(a[..k]) == multiset(a) - multiset{a[k]};
      assert multiset(b[..i] + b[i + 1..]) == multiset(b) - multiset{b[i]};
      TotalsPermute(a[..k], b[..i] + b[i + 1..], axis);
      TotalsJoin(b[..i], b[i + 1..], axis);
      TotalsJoin(b[..i] + [b[i]], b[i + 1..], axis);
      OneMore(b[..i], b[i], axis);
      OneMore(a[..k], a[k], axis);
    }
  }

  /** So neither do the motions over the first bins. */
  lemma {:induction false} MotionPermutes(a: seq<Report>, b: seq<Report>, origin: int64, first: int, n: nat, axis: Axis)
    requires multiset(a) == multiset(b)
    ensures GroupsMotion(a, origin, first, n, axis) == GroupsMotion(b, origin, first, n, axis)
  {
    hide Group, Total;
    if n > 0 {
      MotionPermutes(a, b, origin, first, n - 1, axis);
      GroupsPermute(a, b, origin, first + n - 1);
      TotalsPermute(Group(a, origin, first + n - 1), Group(b, origin, first + n - 1), axis);
    }
  }

  /** Nor whether all reports are inside a range. */
  lemma RangePermutes(a: seq<Report>, b: seq<Report>, origin: int64, range: Range)
    requires multiset(a) == multiset(b) && AllInRange(a, origin, range)
    ensures AllInRange(b, origin, range)
  {
    forall i | 0 <= i < |b|
      ensures range.Contains(IndexOf(origin, b[i].captureUnixNs))
    {
      assert b[i] in multiset(a);
      var j :| 0 <= j < |a| && a[j] == b[i];
    }
  }
}
