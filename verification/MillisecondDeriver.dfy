/** The loops of the dense derivation (src/derive/MillisecondDeriver.cpp): lay out the bins,
    add every report to its bin, then replay each bin in chronological order. */
module MillisecondDeriver {
  import opened Machine
  import opened ReportCodec
  import opened MillisecondGrid
  import opened MillisecondBins
  import opened MillisecondLaws

  const ORIGIN := Position(0, 0)

  function EmptyBin(interval: Interval): Bin {
    Bin(interval.index, interval.begin, interval.end, Delta(0, 0, 0, 0), 0, 0, 0, 0, None, None, {}, {}, {}, {}, [],
        ORIGIN, ORIGIN, {})
  }

  // ---------------------------------------------------------------------
  // Covering range
  // ---------------------------------------------------------------------

  /** The smallest range of bins that holds all the reports. The source's overflow check
      cannot fire: indices stay far below the largest int64. */
  method CoveringBinRange(reports: seq<Report>, origin: int64) returns (covering: Option<Range>)
    ensures covering.None? <==> reports == []
    ensures covering.Some? ==>
              && AllInRange(reports, origin, covering.value)
              && (exists i :: 0 <= i < |reports| && IndexOf(origin, reports[i].captureUnixNs) == covering.value.first)
              && (exists i :: 0 <= i < |reports|
                    && IndexOf(origin, reports[i].captureUnixNs) == covering.value.endExclusive - 1)
  {
    if reports == [] {
      return None;
    }
    var minimum := IndexOf(origin, reports[0].captureUnixNs);
    var maximum := minimum;
    for i := 1 to |reports|
      invariant forall j :: 0 <= j < i ==> minimum <= IndexOf(origin, reports[j].captureUnixNs) <= maximum
      invariant exists j :: 0 <= j < i && IndexOf(origin, reports[j].captureUnixNs) == minimum
      invariant exists j :: 0 <= j < i && IndexOf(origin, reports[j].captureUnixNs) == maximum
    {
      var index := IndexOf(origin, reports[i].captureUnixNs);
      minimum := if index < minimum then index else minimum;
      maximum := if index > maximum then index else maximum;
    }
    assert maximum < MAX_INT64;
    return Some(Range(minimum, maximum + 1));
  }

  // ---------------------------------------------------------------------
  // Layout
  // ---------------------------------------------------------------------

  ghost predicate LaidBin(bin: Bin, origin: int64, index: int64) {
    IntervalAt(origin, index).Ok? && bin == EmptyBin(IntervalAt(origin, index).value)
  }

  ghost predicate LaidOut(bins: seq<Bin>, origin: int64, range: Range) {
    && range.first + |bins| == range.endExclusive
    && (forall k :: 0 <= k < |bins| ==> LaidBin(bins[k], origin, range.first + k))
  }

  ghost predicate EdgeFails(origin: int64, range: Range) {
    exists index: int64 :: range.Contains(index) && IntervalAt(origin, index).Err?
  }

  method LayOut(origin: int64, range: Range) returns (result: Result<seq<Bin>, DeriveFault>)
    ensures result.Ok? ==> LaidOut(result.value, origin, range)
    ensures result.Err? ==>
              (result.error == RangeInverted && range.endExclusive < range.first)
              || (result.error == EdgeOverflow && EdgeFails(origin, range))
  {
    hide IntervalAt, EmptyBin;
    var size := range.Size();
    if size.Err? {
      return Err(RangeInverted);
    }
    SizeExact(range);
    var bins: seq<Bin> := [];
    for offset := 0 to size.value
      invariant |bins| == offset
      invariant forall k :: 0 <= k < offset ==> LaidBin(bins[k], origin, range.first + k)
    {
      // The index is below the range's end, so the source's checked addition succeeds.
      var index := range.first + offset;
      var interval := IntervalAt(origin, index);
      if interval.Err? {
        return Err(EdgeOverflow);
      }
      assert LaidBin(EmptyBin(interval.value), origin, index);
      bins := bins + [EmptyBin(interval.value)];
    }
    return Ok(bins);
  }

  // ---------------------------------------------------------------------
  // Adding reports
  // ---------------------------------------------------------------------

  /** A bin to which the reports of `group` have been added. */
  ghost predicate Added(bin: Bin, group: seq<Report>, marks: BitSet) {
    && bin.delta.deviceDx == Total(group, X) && bin.delta.deviceDy == Total(group, Y)
    && bin.wheelSum == Total(group, Wheel) && bin.horizontalWheelSum == Total(group, HorizontalWheel)
    && bin.reportCount == |group| <= MAX_UINT32
    && bin.zeroDeltaCount == ZeroCount(group)
    && bin.quality == SourceQuality(group) + marks
    && bin.edges == [] && bin.buttonsDown == {} && bin.buttonsUp == {}
    && bin.firstSequence.None? && bin.lastSequence.None?
  }

  ghost predicate Placed(bin: Bin, origin: int64, index: int) {
    bin.index == index && bin.begin == origin + index * MILLISECOND && bin.end == bin.begin + MILLISECOND
  }

  /** One report is added to its bin. Its sums cannot overflow: a full bin holds at most
      2^32 - 1 reports. */
  method AddReport(bin: Bin, ghost group: seq<Report>, ghost marks: BitSet, report: Report)
    returns (result: Result<Bin, DeriveFault>)
    requires Added(bin, group, marks)
    ensures result.Err? ==> result.error == CountOverflow && |group| == MAX_UINT32
    ensures result.Ok? ==>
              && Added(result.value, group + [report], marks)
              && result.value.index == bin.index && result.value.begin == bin.begin && result.value.end == bin.end
              && result.value.quality == bin.quality + BitsOf(report.qualityFlags)
  {
    hide Total, ZeroCount, SourceQuality, CheckedAdd, BitsOf;
    OneMore(group, report, X);
    OneMore(group, report, Y);
    OneMore(group, report, Wheel);
    OneMore(group, report, HorizontalWheel);
    SumsFit(group + [report], X);
    SumsFit(group + [report], Y);
    SumsFit(group + [report], Wheel);
    SumsFit(group + [report], HorizontalWheel);
    CheckedAddExact(bin.delta.deviceDx, report.dx);
    CheckedAddExact(bin.delta.deviceDy, report.dy);
    CheckedAddExact(bin.wheelSum, report.wheel);
    CheckedAddExact(bin.horizontalWheelSum, report.horizontalWheel);
    var dx := CheckedAdd(bin.delta.deviceDx, report.dx);
    var dy := CheckedAdd(bin.delta.deviceDy, report.dy);
    var wheel := CheckedAdd(bin.wheelSum, report.wheel);
    var pan := CheckedAdd(bin.horizontalWheelSum, report.horizontalWheel);
    if bin.reportCount == MAX_UINT32 {
      return Err(CountOverflow);
    }
    var zero := if ZeroDelta(report) then bin.zeroDeltaCount + 1 else bin.zeroDeltaCount;
    return Ok(bin.(delta := bin.delta.(deviceDx := dx.value, deviceDy := dy.value),
                   wheelSum := wheel.value,
                   horizontalWheelSum := pan.value,
                   reportCount := bin.reportCount + 1,
                   zeroDeltaCount := zero,
                   quality := bin.quality + BitsOf(report.qualityFlags)));
  }

  function Mark(bin: Bin, mask: BitSet): Bin {
    bin.(quality := bin.quality + mask)
  }

  /** Every bin between two bins, ends included, is marked. */
  method MarkInclusiveBinSpan(bins: seq<Bin>, range: Range, a: int64, b: int64, mask: BitSet) returns (marked: seq<Bin>)
    requires range.first + |bins| == range.endExclusive && range.Contains(a) && range.Contains(b)
    ensures |marked| == |bins|
    ensures forall k :: 0 <= k < |bins| ==>
              marked[k] == if Spanned(a, b, range.first + k) then Mark(bins[k], mask) else bins[k]
  {
    hide Mark;
    var first, last := if b < a then b else a, if b < a then a else b;
    marked := bins;
    var index := first;
    while true
      invariant first <= index <= last && |marked| == |bins|
      invariant forall k :: 0 <= k < |bins| ==>
                  marked[k] == if first <= range.first + k < index then Mark(bins[k], mask) else bins[k]
      decreases last - index
    {
      marked := marked[index - range.first := Mark(marked[index - range.first], mask)];
      if index == last {
        break;
      }
      index := index + 1;
    }
  }

  lemma {:induction false} QualityOfMarked(bins: seq<Bin>, marked: seq<Bin>, mask: BitSet)
    requires |marked| == |bins|
    requires forall k :: 0 <= k < |bins| ==>
               marked[k].quality == bins[k].quality || marked[k].quality == bins[k].quality + mask
    ensures (exists k :: 0 <= k < |bins| && marked[k].quality == bins[k].quality + mask) ==>
              AllQuality(marked) == AllQuality(bins) + mask
    ensures AllQuality(marked) == AllQuality(bins) || AllQuality(marked) == AllQuality(bins) + mask
  {
    if bins != [] {
      QualityOfMarked(bins[..|bins| - 1], marked[..|bins| - 1], mask);
      var k := |bins| - 1;
      if exists i :: 0 <= i < |bins| && marked[i].quality == bins[i].quality + mask {
        var i :| 0 <= i < |bins| && marked[i].quality == bins[i].quality + mask;
        if i < k {
          assert marked[..k][i] == marked[i] && bins[..k][i] == bins[i];
        }
      }
    }
  }

  /** The state after `taken` reports have been added and the marks of the first `marked` of
      them made. */
  ghost predicate Summed(reports: seq<Report>, taken: nat, marked: nat, origin: int64, range: Range, bins: seq<Bin>,
                         groups: seq<seq<Report>>)
    requires taken <= |reports| && marked <= |reports|
  {
    && range.first + |bins| == range.endExclusive && |groups| == |bins|
    && (forall k :: 0 <= k < |bins| ==>
          && groups[k] == Group(reports[..taken], origin, range.first + k)
          && Added(bins[k], groups[k], Marks(reports, origin, marked, range.first + k))
          && Placed(bins[k], origin, range.first + k))
  }

  ghost predicate TooMany(reports: seq<Report>, origin: int64, range: Range) {
    exists index: int64 :: range.Contains(index) && |Group(reports, origin, index)| > MAX_UINT32
  }

  lemma NextGroup(reports: seq<Report>, n: nat, origin: int64, index: int)
    requires n < |reports|
    ensures Group(reports[..n + 1], origin, index)
         == Group(reports[..n], origin, index) + (if InBin(reports[n], origin, index) then [reports[n]] else [])
  {
    assert reports[..n + 1][..n] == reports[..n];
  }

  lemma {:induction false} GroupOfPrefix(reports: seq<Report>, n: nat, origin: int64, index: int)
    requires n <= |reports|
    ensures |Group(reports[..n], origin, index)| <= |Group(reports, origin, index)|
    decreases |reports| - n
  {
    if n < |reports| {
      GroupOfPrefix(reports, n + 1, origin, index);
      NextGroup(reports, n, origin, index);
    } else {
      assert reports[..n] == reports;
    }
  }

  /** The next report joins its group and adds to its bin. */
  method TakeReport(reports: seq<Report>, n: nat, origin: int64, range: Range, bins: seq<Bin>, groups: seq<seq<Report>>)
    returns (result: Result<(seq<Bin>, seq<seq<Report>>), DeriveFault>)
    requires n < |reports| && Summed(reports, n, n, origin, range, bins, groups)
    ensures result.Err? ==>
              (result.error == OutsideRange && !range.Contains(IndexOf(origin, reports[n].captureUnixNs)))
              || (result.error == CountOverflow && TooMany(reports, origin, range))
    ensures result.Ok? ==>
              && range.Contains(IndexOf(origin, reports[n].captureUnixNs))
              && Summed(reports, n + 1, n, origin, range, result.value.0, result.value.1)
              && AllQuality(result.value.0) == AllQuality(bins) + BitsOf(reports[n].qualityFlags)
  {
    hide Group, Added, Marks, AllQuality, BitsOf;
    var report := reports[n];
    var index := IndexOf(origin, report.captureUnixNs);
    if !range.Contains(index) {
      return Err(OutsideRange);
    }
    var offset := index - range.first;
    ghost var marks := Marks(reports, origin, n, index);
    assert Added(bins[offset], groups[offset], marks) && Placed(bins[offset], origin, index);
    var added := AddReport(bins[offset], groups[offset], marks, report);
    NextGroup(reports, n, origin, index);
    if added.Err? {
      GroupOfPrefix(reports, n + 1, origin, index);
      return Err(CountOverflow);
    }
    var grown := bins[offset := added.value];
    var joined := groups[offset := groups[offset] + [report]];
    forall k | 0 <= k < |bins|
      ensures joined[k] == Group(reports[..n + 1], origin, range.first + k)
    {
      NextGroup(reports, n, origin, range.first + k);
      assert groups[k] + [] == groups[k];
    }
    UnionWithNothing(bins);
    QualityOfMarked(bins, grown, BitsOf(report.qualityFlags));
    assert grown[offset].quality == bins[offset].quality + BitsOf(report.qualityFlags);
    return Ok((grown, joined));
  }

  lemma UnionWithNothing(bins: seq<Bin>)
    ensures forall k :: 0 <= k < |bins| ==> bins[k].quality + {} == bins[k].quality
  {
  }

  lemma MarkedAdded(bin: Bin, group: seq<Report>, marks: BitSet, mask: BitSet)
    requires Added(bin, group, marks)
    ensures Added(Mark(bin, mask), group, marks + mask)
    ensures Mark(bin, mask).index == bin.index && Mark(bin, mask).begin == bin.begin && Mark(bin, mask).end == bin.end
    ensures Mark(bin, mask).quality == bin.quality + mask
  {
    hide Total, ZeroCount, SourceQuality;
  }

  /** Mark the span from the bin of the report before to that of report `n`. */
  method MarkSpan(reports: seq<Report>, n: nat, origin: int64, range: Range, bins: seq<Bin>, mask: BitSet)
    returns (marked: seq<Bin>)
    requires 0 < n < |reports| && range.first + |bins| == range.endExclusive
    requires range.Contains(IndexOf(origin, reports[n - 1].captureUnixNs))
    requires range.Contains(IndexOf(origin, reports[n].captureUnixNs))
    ensures |marked| == |bins|
    ensures forall k :: 0 <= k < |bins| ==>
              marked[k] == if Spanned(IndexOf(origin, reports[n - 1].captureUnixNs),
                                      IndexOf(origin, reports[n].captureUnixNs), range.first + k)
                           then Mark(bins[k], mask) else bins[k]
    ensures AllQuality(marked) == AllQuality(bins) + mask
  {
    hide IndexOf, AllQuality;
    marked := MarkInclusiveBinSpan(bins, range, IndexOf(origin, reports[n - 1].captureUnixNs),
                                   IndexOf(origin, reports[n].captureUnixNs), mask);
    QualityOfMarked(bins, marked, mask);
    ghost var k := IndexOf(origin, reports[n].captureUnixNs) - range.first;
    assert marked[k].quality == bins[k].quality + mask;
  }

  lemma NextMarks(reports: seq<Report>, n: nat, origin: int64, index: int, mask: BitSet)
    requires n < |reports|
    requires mask == (if TimeRegresses(reports, n) then {REGRESSED_BIT, UNCERTAIN_BIT} else {})
                     + (if SequenceRegresses(reports, n) then {NOT_INCREASING_BIT, UNCERTAIN_BIT} else {})
    ensures n > 0
            && Spanned(IndexOf(origin, reports[n - 1].captureUnixNs), IndexOf(origin, reports[n].captureUnixNs), index)
            ==> Marks(reports, origin, n + 1, index) == Marks(reports, origin, n, index) + mask
    ensures n == 0
            || !Spanned(IndexOf(origin, reports[n - 1].captureUnixNs), IndexOf(origin, reports[n].captureUnixNs), index)
            ==> Marks(reports, origin, n + 1, index) == Marks(reports, origin, n, index)
  {
    hide IndexOf, Spanned, TimeRegresses, SequenceRegresses;
  }

  /** The regressions that report `n` shows are marked, one after the other. */
  method MarkRegressions(reports: seq<Report>, n: nat, origin: int64, range: Range, bins: seq<Bin>,
                         ghost groups: seq<seq<Report>>)
    returns (marked: seq<Bin>, mask: BitSet)
    requires n < |reports| && AllInRange(reports[..n + 1], origin, range)
    requires Summed(reports, n + 1, n, origin, range, bins, groups)
    ensures Summed(reports, n + 1, n + 1, origin, range, marked, groups)
    ensures AllQuality(marked) == AllQuality(bins) + mask
  {
    hide IndexOf, Group, Added, Marks, AllQuality, Mark, Spanned;
    marked, mask := bins, {};
    assert AllQuality(bins) + {} == AllQuality(bins);
    if n > 0 {
      assert reports[..n + 1][n] == reports[n] && reports[..n + 1][n - 1] == reports[n - 1];
      if reports[n].captureUnixNs < reports[n - 1].captureUnixNs {
        marked := MarkSpan(reports, n, origin, range, marked, {REGRESSED_BIT, UNCERTAIN_BIT});
        mask := mask + {REGRESSED_BIT, UNCERTAIN_BIT};
      }
      ghost var once := marked;
      if reports[n].captureSequence <= reports[n - 1].captureSequence {
        marked := MarkSpan(reports, n, origin, range, marked, {NOT_INCREASING_BIT, UNCERTAIN_BIT});
        mask := mask + {NOT_INCREASING_BIT, UNCERTAIN_BIT};
      }
    }
    forall k | 0 <= k < |bins|
      ensures Added(marked[k], groups[k], Marks(reports, origin, n + 1, range.first + k))
              && Placed(marked[k], origin, range.first + k)
    {
      var index := range.first + k;
      var marks := Marks(reports, origin, n, index);
      assert Added(bins[k], groups[k], marks) && Placed(bins[k], origin, index);
      NextMarks(reports, n, origin, index, mask);
      MarkedAdded(bins[k], groups[k], marks, {REGRESSED_BIT, UNCERTAIN_BIT});
      MarkedAdded(bins[k], groups[k], marks, {NOT_INCREASING_BIT, UNCERTAIN_BIT});
      MarkedAdded(Mark(bins[k], {REGRESSED_BIT, UNCERTAIN_BIT}), groups[k], marks + {REGRESSED_BIT, UNCERTAIN_BIT},
                  {NOT_INCREASING_BIT, UNCERTAIN_BIT});
      Unions(marks, {REGRESSED_BIT, UNCERTAIN_BIT}, {NOT_INCREASING_BIT, UNCERTAIN_BIT});
    }
  }

  lemma Unions(a: BitSet, b: BitSet, c: BitSet)
    ensures (a + b) + c == a + (b + c)
    ensures a + {} == a && {} + b == b && {} + c == c && b + {} == b
  {
  }

  datatype Sums = Sums(bins: seq<Bin>, groups: seq<seq<Report>>, quality: BitSet, timestampRegressions: nat,
                       sequenceRegressions: nat)

  lemma {:induction false} LaidOutIsSummed(reports: seq<Report>, origin: int64, range: Range, bins: seq<Bin>,
                                           groups: seq<seq<Report>>)
    requires LaidOut(bins, origin, range) && |groups| == |bins|
    requires forall k :: 0 <= k < |groups| ==> groups[k] == []
    ensures Summed(reports, 0, 0, origin, range, bins, groups)
    ensures AllQuality(bins) == {}
  {
    hide IntervalAt;
    forall k | 0 <= k < |bins|
      ensures bins[k].quality == {} && Placed(bins[k], origin, range.first + k)
    {
      assert LaidBin(bins[k], origin, range.first + k);
      IntervalExact(origin, range.first + k);
    }
    NoQuality(bins);
    assert reports[..0] == [];
  }

  lemma {:induction false} NoQuality(bins: seq<Bin>)
    requires forall k :: 0 <= k < |bins| ==> bins[k].quality == {}
    ensures AllQuality(bins) == {}
  {
    if bins != [] {
      NoQuality(bins[..|bins| - 1]);
    }
  }

  lemma InRangeGrows(reports: seq<Report>, n: nat, origin: int64, range: Range)
    requires n < |reports| && AllInRange(reports[..n], origin, range)
    requires range.Contains(IndexOf(origin, reports[n].captureUnixNs))
    ensures AllInRange(reports[..n + 1], origin, range)
  {
    hide IndexOf;
    assert reports[..n + 1] == reports[..n] + [reports[n]];
  }

  /** The loop over the reports. The source's checks that its regression counters do not
      overflow are left out: each is at most the number of reports. */
  method AddReports(reports: seq<Report>, origin: int64, range: Range, laid: seq<Bin>)
    returns (result: Result<Sums, DeriveFault>)
    requires LaidOut(laid, origin, range)
    ensures result.Err? ==>
              (result.error == OutsideRange && !AllInRange(reports, origin, range))
              || (result.error == CountOverflow && TooMany(reports, origin, range))
    ensures result.Ok? ==>
              var sums := result.value;
              && AllInRange(reports, origin, range)
              && Summed(reports, |reports|, |reports|, origin, range, sums.bins, sums.groups)
              && sums.quality == AllQuality(sums.bins)
              && sums.timestampRegressions == TimeRegressions(reports, |reports|)
              && sums.sequenceRegressions == SequenceRegressions(reports, |reports|)
  {
    hide IndexOf, Summed, AllQuality, BitsOf, LaidOut, TooMany;
    var bins := laid;
    var groups: seq<seq<Report>> := seq(|laid|, _ => []);
    var quality: BitSet := {};
    var timestampRegressions, sequenceRegressions := 0, 0;
    LaidOutIsSummed(reports, origin, range, bins, groups);
    for n := 0 to |reports|
      invariant AllInRange(reports[..n], origin, range)
      invariant Summed(reports, n, n, origin, range, bins, groups)
      invariant quality == AllQuality(bins)
      invariant timestampRegressions == TimeRegressions(reports, n)
      invariant sequenceRegressions == SequenceRegressions(reports, n)
    {
      var taken := TakeReport(reports, n, origin, range, bins, groups);
      if taken.Err? {
        return Err(taken.error);
      }
      bins, groups := taken.value.0, taken.value.1;
      quality := quality + BitsOf(reports[n].qualityFlags);
      if n > 0 && reports[n].captureUnixNs < reports[n - 1].captureUnixNs {
        timestampRegressions := timestampRegressions + 1;
      }
      if n > 0 && reports[n].captureSequence <= reports[n - 1].captureSequence {
        sequenceRegressions := sequenceRegressions + 1;
      }
      InRangeGrows(reports, n, origin, range);
      var mask: BitSet;
      bins, mask := MarkRegressions(reports, n, origin, range, bins, groups);
      quality := quality + mask;
    }
    assert reports[..|reports|] == reports;
    return Ok(Sums(bins, groups, quality, timestampRegressions, sequenceRegressions));
  }

  // ---------------------------------------------------------------------
  // Replaying bins
  // ---------------------------------------------------------------------

  datatype ButtonRun = ButtonRun(edges: seq<Edge>, down: BitSet, up: BitSet, buttons: BitSet,
                                 first: Option<uint64>, last: Option<uint64>)

  /** The loop over one bin's reports in chronological order. */
  method ReplayReports(sorted: seq<Report>, buttons: BitSet) returns (run: ButtonRun)
    ensures Replayed(run.edges, run.down, run.up, run.buttons) == Replay(sorted, buttons)
    ensures run.first == (if sorted == [] then None else Some(sorted[0].captureSequence))
    ensures run.last == (if sorted == [] then None else Some(sorted[|sorted| - 1].captureSequence))
  {
    hide BitsOf;
    var edges: seq<Edge>, down: BitSet, up: BitSet, current := [], {}, {}, buttons;
    var first: Option<uint64>, last: Option<uint64> := None, None;
    for ordinal := 0 to |sorted|
      invariant Replayed(edges, down, up, current) == Replay(sorted[..ordinal], buttons)
      invariant first == (if ordinal == 0 then None else Some(sorted[0].captureSequence))
      invariant last == (if ordinal == 0 then None else Some(sorted[ordinal - 1].captureSequence))
    {
      var report := sorted[ordinal];
      assert sorted[..ordinal + 1][..ordinal] == sorted[..ordinal];
      if first.None? {
        first := Some(report.captureSequence);
      }
      last := Some(report.captureSequence);
      var after := BitsOf(report.buttons);
      var pressed, released := after - current, current - after;
      down := down + pressed;
      up := up + released;
      if pressed != {} || released != {} {
        edges := edges + [Edge(report.captureSequence, report.captureUnixNs, ordinal, current, after, pressed,
                               released)];
      } else {
        assert edges + [] == edges;
      }
      current := after;
    }
    assert sorted[..|sorted|] == sorted;
    return ButtonRun(edges, down, up, current, first, last);
  }

  /** Where the crosshair is after the first n bins, as true integers. */
  ghost function PositionAfter(reports: seq<Report>, origin: int64, first: int, options: Options, n: nat): (int, int) {
    (options.crosshair.x + GroupsMotion(reports, origin, first, n, X),
     if options.convention.CountSpaceYUp? then options.crosshair.y - GroupsMotion(reports, origin, first, n, Y)
     else options.crosshair.y + GroupsMotion(reports, origin, first, n, Y))
  }

  ghost predicate PositionFails(reports: seq<Report>, origin: int64, range: Range, options: Options) {
    exists n: nat ::
      && range.first + n <= range.endExclusive
      && var p := PositionAfter(reports, origin, range.first, options, n);
         !FitsInt64(p.0) || !FitsInt64(p.1)
  }

  /** One bin is finished: axes, buttons and crosshair. Negating the Y sum cannot overflow. */
  method FinishBin(reports: seq<Report>, origin: int64, index: int64, options: Options, bin: Bin, group: seq<Report>,
                   start: BitSet, pre: Position)
    returns (result: Result<Bin, DeriveFault>)
    requires group == Group(reports, origin, index)
    requires Added(bin, group, Marks(reports, origin, |reports|, index)) && Placed(bin, origin, index)
    ensures result.Ok? ==>
              && BinHolds(reports, origin, index, options.convention, result.value, start, pre)
              && result.value.quality == bin.quality
    ensures result.Err? ==>
              && result.error == PositionOverflow
              && var dy := if options.convention.CountSpaceYUp? then 0 - Total(group, Y) else Total(group, Y);
                 !FitsInt64(pre.x + Total(group, X)) || !FitsInt64(pre.y + dy)
  {
    hide Total, ZeroCount, SourceQuality, Marks, Group, StableSort, Replay, CheckedAdd;
    SumsFit(group, Y);
    var sorted := StableSort(group);
    var delta := DeriveAxes(bin.delta.deviceDx, bin.delta.deviceDy, options.convention);
    var run := ReplayReports(sorted, start);
    CheckedAddExact(pre.x, delta.derivedDx);
    CheckedAddExact(pre.y, delta.derivedDy);
    var x := CheckedAdd(pre.x, delta.derivedDx);
    if x.Err? {
      return Err(PositionOverflow);
    }
    var y := CheckedAdd(pre.y, delta.derivedDy);
    if y.Err? {
      return Err(PositionOverflow);
    }
    return Ok(bin.(delta := delta,
                   buttonsAtStart := start,
                   firstSequence := run.first,
                   lastSequence := run.last,
                   buttonsDown := run.down,
                   buttonsUp := run.up,
                   edges := run.edges,
                   buttonsAtEnd := run.buttons,
                   pre := pre,
                   post := Position(x.value, y.value)));
  }

  /** Bins that are finished, each from where the one before it ended. */
  ghost predicate Finished(reports: seq<Report>, origin: int64, range: Range, options: Options, bins: seq<Bin>,
                           summed: seq<Bin>)
  {
    && |bins| <= |summed| && range.first + |summed| == range.endExclusive
    && (forall k :: 0 <= k < |bins| ==>
          && BinHolds(reports, origin, range.first + k, options.convention, bins[k], StartOf(bins, k, options),
                      PreOf(bins, k, options))
          && bins[k].quality == summed[k].quality)
  }

  lemma FinishedGrows(reports: seq<Report>, origin: int64, range: Range, options: Options, bins: seq<Bin>,
                      summed: seq<Bin>, bin: Bin)
    requires Finished(reports, origin, range, options, bins, summed) && |bins| < |summed|
    requires BinHolds(reports, origin, range.first + |bins|, options.convention, bin, StartOf(bins, |bins|, options),
                      PreOf(bins, |bins|, options))
    requires bin.quality == summed[|bins|].quality
    ensures Finished(reports, origin, range, options, bins + [bin], summed)
    ensures StartOf(bins + [bin], |bins| + 1, options) == bin.buttonsAtEnd
    ensures PreOf(bins + [bin], |bins| + 1, options) == bin.post
  {
    hide BinHolds;
    var grown := bins + [bin];
    forall k | 0 <= k < |grown|
      ensures BinHolds(reports, origin, range.first + k, options.convention, grown[k], StartOf(grown, k, options),
                       PreOf(grown, k, options))
              && grown[k].quality == summed[k].quality
    {
      assert StartOf(grown, k, options) == StartOf(bins, k, options);
      assert PreOf(grown, k, options) == PreOf(bins, k, options);
    }
  }

  lemma SummedBin(reports: seq<Report>, origin: int64, range: Range, sums: Sums, k: nat)
    requires Summed(reports, |reports|, |reports|, origin, range, sums.bins, sums.groups) && k < |sums.bins|
    ensures sums.groups[k] == Group(reports, origin, range.first + k)
    ensures Added(sums.bins[k], sums.groups[k], Marks(reports, origin, |reports|, range.first + k))
    ensures Placed(sums.bins[k], origin, range.first + k)
  {
    hide Added, Group, Marks;
    assert reports[..|reports|] == reports;
  }

  /** The loop over the bins. */
  method ReplayBins(reports: seq<Report>, origin: int64, range: Range, options: Options, sums: Sums)
    returns (result: Result<seq<Bin>, DeriveFault>)
    requires Summed(reports, |reports|, |reports|, origin, range, sums.bins, sums.groups)
    ensures result.Err? ==> result.error == PositionOverflow && PositionFails(reports, origin, range, options)
    ensures result.Ok? ==>
              |result.value| == |sums.bins| && Finished(reports, origin, range, options, result.value, sums.bins)
  {
    hide BinHolds, Added, Group, Total, Marks, Finished, Placed, StartOf, PreOf;
    var bins: seq<Bin> := [];
    var buttons, crosshair := options.buttons, options.crosshair;
    NothingFinished(reports, origin, range, options, sums.bins);
    for offset := 0 to |sums.bins|
      invariant |bins| == offset
      invariant buttons == StartOf(bins, offset, options) && crosshair == PreOf(bins, offset, options)
      invariant PositionAfter(reports, origin, range.first, options, offset) == (crosshair.x as int, crosshair.y as int)
      invariant Finished(reports, origin, range, options, bins, sums.bins)
    {
      var index := range.first + offset;
      SummedBin(reports, origin, range, sums, offset);
      var finished := FinishBin(reports, origin, index, options, sums.bins[offset], sums.groups[offset], buttons,
                                crosshair);
      if finished.Err? {
        ghost var p := PositionAfter(reports, origin, range.first, options, offset + 1);
        assert !FitsInt64(p.0) || !FitsInt64(p.1);
        return Err(finished.error);
      }
      FinishedBin(reports, origin, index, options.convention, finished.value, buttons, crosshair);
      FinishedGrows(reports, origin, range, options, bins, sums.bins, finished.value);
      bins := bins + [finished.value];
      buttons, crosshair := finished.value.buttonsAtEnd, finished.value.post;
    }
    return Ok(bins);
  }

  lemma NothingFinished(reports: seq<Report>, origin: int64, range: Range, options: Options, summed: seq<Bin>)
    requires range.first + |summed| == range.endExclusive
    ensures Finished(reports, origin, range, options, [], summed)
    ensures StartOf([], 0, options) == options.buttons && PreOf([], 0, options) == options.crosshair
  {
  }

  lemma FinishedBin(reports: seq<Report>, origin: int64, index: int64, convention: Convention, bin: Bin, start: BitSet,
                    pre: Position)
    requires BinHolds(reports, origin, index, convention, bin, start, pre)
    ensures var group := Group(reports, origin, index);
            && bin.post.x == pre.x + Total(group, X)
            && bin.post.y == (if convention.CountSpaceYUp? then pre.y - Total(group, Y) else pre.y + Total(group, Y))
  {
    hide Total, Group, StableSort, Replay, ZeroCount, SourceQuality, Marks;
  }

  lemma {:induction false} QualitiesAgree(a: seq<Bin>, b: seq<Bin>)
    requires |a| == |b| && forall k :: 0 <= k < |a| ==> a[k].quality == b[k].quality
    ensures AllQuality(a) == AllQuality(b)
  {
    if a != [] {
      QualitiesAgree(a[..|a| - 1], b[..|b| - 1]);
    }
  }

  lemma LaidOutHasEdges(origin: int64, range: Range, bins: seq<Bin>)
    requires LaidOut(bins, origin, range)
    ensures !EdgeFails(origin, range)
  {
    hide IntervalAt;
    forall index: int64 | range.Contains(index)
      ensures IntervalAt(origin, index).Ok?
    {
      assert LaidBin(bins[index - range.first], origin, range.first + (index - range.first));
    }
  }

  /** Where there is a derivation, none of the other obstacles is there. */
  lemma DerivedIsUnobstructed(reports: seq<Report>, origin: int64, range: Range, options: Options, b: Binning)
    requires Derived(reports, origin, range, options, b)
    ensures range.first <= range.endExclusive && AllInRange(reports, origin, range)
    ensures !TooMany(reports, origin, range) && !PositionFails(reports, origin, range, options)
  {
    hide BinHolds, AllInRange, AllQuality, TimeRegressions, SequenceRegressions, GroupsMotion, Group;
    forall index: int64 | range.Contains(index)
      ensures |Group(reports, origin, index)| <= MAX_UINT32
    {
      BinOfDerived(reports, origin, range, options, b, index - range.first);
      CountOfBin(reports, origin, index, options.convention, b.bins[index - range.first],
                 StartOf(b.bins, index - range.first, options), PreOf(b.bins, index - range.first, options));
    }
    forall n: nat | range.first + n <= range.endExclusive
      ensures var p := PositionAfter(reports, origin, range.first, options, n);
              FitsInt64(p.0) && FitsInt64(p.1)
    {
      Telescoping(reports, origin, range, options, b, n);
      BinsAreGroups(reports, origin, range, options, b, n, X);
      BinsAreGroups(reports, origin, range, options, b, n, Y);
    }
  }

  lemma CountOfBin(reports: seq<Report>, origin: int64, index: int64, convention: Convention, bin: Bin, start: BitSet,
                   pre: Position)
    requires BinHolds(reports, origin, index, convention, bin, start, pre)
    ensures |Group(reports, origin, index)| <= MAX_UINT32
  {
    hide Group, Total, ZeroCount, StableSort, Replay, SourceQuality, Marks;
  }

  /** Nothing is in the way of a derivation. */
  ghost predicate Unobstructed(reports: seq<Report>, origin: int64, range: Range, options: Options) {
    && range.first <= range.endExclusive && !EdgeFails(origin, range)
    && AllInRange(reports, origin, range) && !TooMany(reports, origin, range)
    && !PositionFails(reports, origin, range, options)
  }

  /** The whole derivation. It succeeds exactly when nothing is in its way: the range does
      not run backwards, all its edges are int64 times, every report lies inside it, no bin
      has more than 2^32 - 1 reports, and the crosshair stays in int64. */
  method DeriveMillisecondBins(reports: seq<Report>, origin: int64, range: Range, options: Options)
    returns (result: Result<Binning, DeriveFault>)
    ensures result.Ok? <==> Unobstructed(reports, origin, range, options)
    ensures result.Ok? ==> Derived(reports, origin, range, options, result.value)
    ensures result.Err? ==>
              match result.error
              case RangeInverted => range.endExclusive < range.first
              case EdgeOverflow => EdgeFails(origin, range)
              case OutsideRange => !AllInRange(reports, origin, range)
              case CountOverflow => TooMany(reports, origin, range)
              case PositionOverflow => PositionFails(reports, origin, range, options)
              case _ => false
  {
    hide AllInRange, EdgeFails, TooMany, PositionFails, BinHolds, LaidOut, AllQuality, TimeRegressions,
         SequenceRegressions, Added;
    var laid := LayOut(origin, range);
    if laid.Err? {
      return Err(laid.error);
    }
    LaidOutHasEdges(origin, range, laid.value);
    var sums := AddReports(reports, origin, range, laid.value);
    if sums.Err? {
      return Err(sums.error);
    }
    var bins := ReplayBins(reports, origin, range, options, sums.value);
    if bins.Err? {
      return Err(bins.error);
    }
    QualitiesAgree(bins.value, sums.value.bins);
    var b := Binning(bins.value, sums.value.quality, sums.value.timestampRegressions, sums.value.sequenceRegressions);
    DerivedIsUnobstructed(reports, origin, range, options, b);
    return Ok(b);
  }

  // ---------------------------------------------------------------------
  // Permuted reports
  // ---------------------------------------------------------------------

  lemma UnobstructedPermutes(a: seq<Report>, b: seq<Report>, origin: int64, range: Range, options: Options)
    requires multiset(a) == multiset(b) && Unobstructed(a, origin, range, options)
    ensures Unobstructed(b, origin, range, options)
  {
    hide EdgeFails, AllInRange, Group, GroupsMotion;
    RangePermutes(a, b, origin, range);
    forall index: int64 | range.Contains(index)
      ensures |Group(b, origin, index)| <= MAX_UINT32
    {
      GroupsPermute(a, b, origin, index);
      SameLength(Group(a, origin, index), Group(b, origin, index));
    }
    forall n: nat | range.first + n <= range.endExclusive
      ensures var p := PositionAfter(b, origin, range.first, options, n);
              FitsInt64(p.0) && FitsInt64(p.1)
    {
      MotionPermutes(a, b, origin, range.first, n, X);
      MotionPermutes(a, b, origin, range.first, n, Y);
      assert PositionAfter(a, origin, range.first, options, n) == PositionAfter(b, origin, range.first, options, n);
    }
  }

  /** Whether a derivation succeeds does not depend on the order of the reports. */
  lemma SuccessPermutes(a: seq<Report>, b: seq<Report>, origin: int64, range: Range, options: Options)
    requires multiset(a) == multiset(b)
    ensures Unobstructed(a, origin, range, options) <==> Unobstructed(b, origin, range, options)
  {
    hide Unobstructed;
    if Unobstructed(a, origin, range, options) {
      UnobstructedPermutes(a, b, origin, range, options);
    }
    if Unobstructed(b, origin, range, options) {
      UnobstructedPermutes(b, a, origin, range, options);
    }
  }

  /** Deriving from reports and from a permutation of them: either both fail or both succeed,
      and then, if the numbers are distinct, they agree bin by bin apart from the regression
      bits. */
  method DeriveBoth(a: seq<Report>, b: seq<Report>, origin: int64, range: Range, options: Options)
    returns (p: Result<Binning, DeriveFault>, q: Result<Binning, DeriveFault>)
    requires multiset(a) == multiset(b)
    ensures p.Ok? <==> q.Ok?
    ensures p.Ok? ==> Derived(a, origin, range, options, p.value) && Derived(b, origin, range, options, q.value)
    ensures p.Ok? && DistinctNumbers(a) ==>
              && |p.value.bins| == |q.value.bins|
              && forall k :: 0 <= k < |p.value.bins| ==> Unmarked(p.value.bins[k]) == Unmarked(q.value.bins[k])
  {
    hide Unobstructed, Derived, DistinctNumbers, Unmarked;
    SuccessPermutes(a, b, origin, range, options);
    p := DeriveMillisecondBins(a, origin, range, options);
    q := DeriveMillisecondBins(b, origin, range, options);
    if p.Ok? && DistinctNumbers(a) {
      SameBins(a, b, origin, range, options, p.value, q.value);
    }
  }

  lemma SameBins(a: seq<Report>, b: seq<Report>, origin: int64, range: Range, options: Options, p: Binning, q: Binning)
    requires multiset(a) == multiset(b) && DistinctNumbers(a)
    requires Derived(a, origin, range, options, p) && Derived(b, origin, range, options, q)
    ensures |p.bins| == |q.bins|
    ensures forall k :: 0 <= k < |p.bins| ==> Unmarked(p.bins[k]) == Unmarked(q.bins[k])
  {
    assert |p.bins| == |q.bins|;
    hide Derived, Unmarked, DistinctNumbers;
    forall k | 0 <= k < |p.bins|
      ensures Unmarked(p.bins[k]) == Unmarked(q.bins[k])
    {
      OrderIndependent(a, b, origin, range, options, p, q, k);
    }
  }
}
