/** What a route of the certification probe reports, in terms of the packets alone
    (src/acquisition/CertificationProbe.cpp): its counters, intervals, samples and totals. */
module CertificationMeaning {
  import opened Machine
  import opened Pcap
  import opened UsbPcapPacket
  import opened HidMouseDecoder
  import opened CertificationProbe
  import Bitwise
  import CaptureSteps

  // ---------------------------------------------------------------------
  // The completions of a route
  // ---------------------------------------------------------------------

  /** A packet and the time of its record. */
  datatype Seen = Seen(packet: Packet, time: int64)

  /** An interrupt transfer from the device, at the route's endpoint or, if it names none, at any. */
  predicate OnRoute(endpoint: byte, packet: Packet) {
    packet.transfer == 1 && packet.endpoint >= 0x80 && (endpoint != 0 ==> packet.endpoint == endpoint)
  }

  /** The packets on the route, in order. */
  function SeenOn(endpoint: byte, records: seq<Record>): seq<Seen> {
    if records == [] then []
    else
      var k := |records| - 1;
      var before, packet := SeenOn(endpoint, records[..k]), Parse(records[k].data, Some(records[k].originalLength));
      if packet.Ok? && OnRoute(endpoint, packet.value) then before + [Seen(packet.value, TimeOf(records[k]))]
      else before
  }

  datatype Kind = Requested | Completed | Failed | Empty | Successful | Decoded | Undecoded

  /** What of a packet makes it be of a kind. */
  ghost predicate Is(kind: Kind, decoder: Option<Decoder>, o: Options, p: Packet)
    requires decoder.Some? ==> ValidDecoder(decoder.value)
  {
    match kind
    case Requested => p.info % 2 == 0
    case Completed => p.info % 2 == 1
    case Failed => p.info % 2 == 1 && p.status != 0
    case Empty => p.info % 2 == 1 && p.status == 0 && p.payload == []
    case Successful => Succeeded(p)
    case Decoded => Succeeded(p) && Decodes(decoder, o, p)
    case Undecoded => Succeeded(p) && !Decodes(decoder, o, p)
  }

  predicate Succeeded(p: Packet) {
    p.info % 2 == 1 && p.status == 0 && p.payload != []
  }

  /** A whole payload within the limits that the decoder accepts. */
  ghost predicate Decodes(decoder: Option<Decoder>, o: Options, p: Packet)
    requires decoder.Some? ==> ValidDecoder(decoder.value)
  {
    && decoder.Some? && !p.payloadTruncated && |p.payload| <= o.maximumPayload
    && (exists l :: l in decoder.value.layouts && Shortest(decoder.value.layouts, l)
                    && 0 < l.byteLength && |p.payload| / l.byteLength <= o.maximumReportsPerTransfer)
    && DecodeBatch(decoder.value, p.payload).Ok?
    && |DecodeBatch(decoder.value, p.payload).value| <= o.maximumReportsPerTransfer
  }

  predicate Shortest(layouts: seq<Layout>, l: Layout) {
    forall m :: m in layouts ==> l.byteLength <= m.byteLength
  }

  ghost function HowMany(kind: Kind, decoder: Option<Decoder>, o: Options, seen: seq<Seen>): nat
    requires decoder.Some? ==> ValidDecoder(decoder.value)
  {
    if seen == [] then 0
    else
      var k := |seen| - 1;
      HowMany(kind, decoder, o, seen[..k]) + (if Is(kind, decoder, o, seen[k].packet) then 1 else 0)
  }

  // ---------------------------------------------------------------------
  // The counters
  // ---------------------------------------------------------------------

  /** Every counter of the account is the number of packets of its kind. */
  ghost predicate CountsShow(c: Counters, decoder: Option<Decoder>, o: Options, seen: seq<Seen>)
    requires decoder.Some? ==> ValidDecoder(decoder.value)
  {
    && c.endpointRecords == |seen|
    && c.requests == HowMany(Requested, decoder, o, seen)
    && c.completions == HowMany(Completed, decoder, o, seen)
    && c.failedTransfers == HowMany(Failed, decoder, o, seen)
    && c.emptyCompletions == HowMany(Empty, decoder, o, seen)
    && c.successful == HowMany(Kind.Successful, decoder, o, seen)
    && c.decodedTransfers == HowMany(Kind.Decoded, decoder, o, seen)
    && c.decodeFailures == HowMany(Undecoded, decoder, o, seen)
  }

  lemma {:induction false} MinimumIsShortest(layouts: seq<Layout>, l: Layout)
    requires l in layouts && Shortest(layouts, l)
    ensures MinimumBytes(layouts) == Some(l.byteLength)
  {
    var k := |layouts| - 1;
    var front := layouts[..k];
    assert layouts == front + [layouts[k]];
    if k > 0 {
      var least := ShortestOf(front);
      MinimumIsShortest(front, least);
    }
  }

  lemma {:induction false} ShortestOf(layouts: seq<Layout>) returns (l: Layout)
    requires layouts != []
    ensures l in layouts && Shortest(layouts, l)
  {
    var k := |layouts| - 1;
    var front := layouts[..k];
    assert layouts == front + [layouts[k]];
    l := layouts[k];
    if k > 0 {
      var least := ShortestOf(front);
      if least.byteLength < l.byteLength {
        l := least;
      }
    }
  }

  lemma DecodableExact(decoder: Option<Decoder>, o: Options, p: Packet)
    requires decoder.Some? ==> ValidDecoder(decoder.value)
    ensures Decodes(decoder, o, p) <==>
              && Decodable(decoder, o, p) && DecodeBatch(decoder.value, p.payload).Ok?
              && |DecodeBatch(decoder.value, p.payload).value| <= o.maximumReportsPerTransfer
  {
    hide ValidDecoder, DecodeBatch, Shortest;
    if decoder.Some? && decoder.value.layouts != [] {
      var l := ShortestOf(decoder.value.layouts);
      MinimumIsShortest(decoder.value.layouts, l);
      forall m | m in decoder.value.layouts && Shortest(decoder.value.layouts, m)
        ensures m.byteLength == l.byteLength
      {
        MinimumIsShortest(decoder.value.layouts, m);
      }
    }
  }

  lemma KindOfOutcome(decoder: Option<Decoder>, o: Options, p: Packet)
    requires decoder.Some? ==> ValidDecoder(decoder.value)
    ensures var outcome := OutcomeOf(decoder, o, p);
            && (outcome.Request? <==> Is(Requested, decoder, o, p))
            && (!outcome.Request? <==> Is(Completed, decoder, o, p))
            && (outcome.FailedTransfer? <==> Is(Failed, decoder, o, p))
            && (outcome.EmptyCompletion? <==> Is(Empty, decoder, o, p))
            && (outcome.Undecodable? || outcome.Reports? <==> Is(Kind.Successful, decoder, o, p))
            && (outcome.Reports? <==> Is(Kind.Decoded, decoder, o, p))
            && (outcome.Undecodable? <==> Is(Undecoded, decoder, o, p))
            && (outcome.Reports? ==> Ok(outcome.reports) == DecodeBatch(decoder.value, p.payload))
  {
    hide ValidDecoder, DecodeBatch, Decodes, Decodable;
    DecodableExact(decoder, o, p);
  }

  lemma OneMoreSeen(kind: Kind, decoder: Option<Decoder>, o: Options, seen: seq<Seen>, s: Seen)
    requires decoder.Some? ==> ValidDecoder(decoder.value)
    ensures HowMany(kind, decoder, o, seen + [s])
         == HowMany(kind, decoder, o, seen) + (if Is(kind, decoder, o, s.packet) then 1 else 0)
  {
    hide ValidDecoder, Is;
    assert (seen + [s])[..|seen|] == seen;
  }

  lemma CountsStep(c: Counters, decoder: Option<Decoder>, o: Options, seen: seq<Seen>, s: Seen, kept: nat)
    requires decoder.Some? ==> ValidDecoder(decoder.value)
    requires CountsShow(c, decoder, o, seen)
    requires OutcomeOf(decoder, o, s.packet).Reports? ==> kept <= |OutcomeOf(decoder, o, s.packet).reports|
    ensures CountsShow(Counted(c, OutcomeOf(decoder, o, s.packet), kept), decoder, o, seen + [s])
  {
    hide ValidDecoder, Is, HowMany, OutcomeOf;
    KindOfOutcome(decoder, o, s.packet);
    OneMoreSeen(Requested, decoder, o, seen, s);
    OneMoreSeen(Completed, decoder, o, seen, s);
    OneMoreSeen(Failed, decoder, o, seen, s);
    OneMoreSeen(Empty, decoder, o, seen, s);
    OneMoreSeen(Kind.Successful, decoder, o, seen, s);
    OneMoreSeen(Kind.Decoded, decoder, o, seen, s);
    OneMoreSeen(Undecoded, decoder, o, seen, s);
  }

  lemma RouteIsRoute(endpoint: byte, r: Record)
    ensures var packet := Parse(r.data, Some(r.originalLength));
            && CaptureSteps.PacketOf(r) == packet
            && (RouteTakes(endpoint, r) <==> packet.Ok? && OnRoute(endpoint, packet.value))
  {
    hide Parse;
  }

  lemma NoCountsShow(decoder: Option<Decoder>, o: Options)
    requires decoder.Some? ==> ValidDecoder(decoder.value)
    ensures CountsShow(NO_COUNTS, decoder, o, [])
  {
    hide ValidDecoder, Is;
  }

  lemma {:induction false} CountersMean(endpoint: byte, decoder: Option<Decoder>, o: Options, records: seq<Record>)
    requires decoder.Some? ==> ValidDecoder(decoder.value)
    ensures CountsShow(Account(endpoint, decoder, o, records).0, decoder, o, SeenOn(endpoint, records))
  {
    hide ValidDecoder, OutcomeOf, RouteTakes, OnRoute, CaptureSteps.PacketOf, Parse, Counted, Kept, CountsShow, TimeOf;
    if records == [] {
      NoCountsShow(decoder, o);
    } else {
      var k := |records| - 1;
      CountersMean(endpoint, decoder, o, records[..k]);
      RouteIsRoute(endpoint, records[k]);
      if RouteTakes(endpoint, records[k]) {
        var a := Account(endpoint, decoder, o, records[..k]);
        var packet := CaptureSteps.PacketOf(records[k]).value;
        var kept := Kept(o, OutcomeOf(decoder, o, packet), a.1);
        CountsStep(a.0, decoder, o, SeenOn(endpoint, records[..k]), Seen(packet, TimeOf(records[k])), kept);
      }
    }
  }

  // ---------------------------------------------------------------------
  // Times and repetitions
  // ---------------------------------------------------------------------

  function Completions(seen: seq<Seen>): seq<Seen> {
    if seen == [] then []
    else
      var k := |seen| - 1;
      Completions(seen[..k]) + (if seen[k].packet.info % 2 == 1 then [seen[k]] else [])
  }

  function Successes(seen: seq<Seen>): seq<Seen> {
    if seen == [] then []
    else
      var k := |seen| - 1;
      Successes(seen[..k]) + (if Succeeded(seen[k].packet) then [seen[k]] else [])
  }

  /** Some completion before the k-th has a later time. */
  ghost predicate Backwards(c: seq<Seen>, k: nat)
    requires k < |c|
  {
    exists j :: 0 <= j < k && c[k].time < c[j].time
  }

  ghost function Regressions(c: seq<Seen>): nat {
    if c == [] then 0
    else Regressions(c[..|c| - 1]) + (if Backwards(c, |c| - 1) then 1 else 0)
  }

  /** The k-th completion is the one before it once more: IRP, time and a bounded payload. */
  predicate Repeats(o: Options, c: seq<Seen>, k: nat)
    requires k < |c|
  {
    && k > 0 && c[k - 1].packet.irpId == c[k].packet.irpId && c[k - 1].time == c[k].time
    && c[k - 1].packet.payload == c[k].packet.payload && |c[k].packet.payload| <= o.maximumPayload
  }

  function Repetitions(o: Options, c: seq<Seen>): nat {
    if c == [] then 0
    else Repetitions(o, c[..|c| - 1]) + (if Repeats(o, c, |c| - 1) then 1 else 0)
  }

  ghost predicate TimesShow(n: Notes, o: Options, c: seq<Seen>) {
    && n.regressions == Regressions(c)
    && (n.latest.Some? <==> c != [])
    && (n.latest.Some? ==> LatestIs(c, n.latest.value))
    && n.duplicates == Repetitions(o, c)
    && n.last == (if c == [] || |c[|c| - 1].packet.payload| > o.maximumPayload then None
                  else
                    var s := c[|c| - 1];
                    Some(Completion(s.packet.irpId, s.time, s.packet.payload)))
  }

  ghost predicate LatestIs(c: seq<Seen>, time: int64) {
    (exists j :: 0 <= j < |c| && c[j].time == time) && (forall j :: 0 <= j < |c| ==> c[j].time <= time)
  }

  lemma BackwardsIff(c: seq<Seen>, s: Seen, latest: int64)
    requires LatestIs(c, latest)
    ensures Backwards(c + [s], |c|) <==> s.time < latest
    ensures LatestIs(c + [s], if s.time < latest then latest else s.time)
  {
    var all := c + [s];
    assert all[|c|] == s;
    var j :| 0 <= j < |c| && c[j].time == latest;
    assert all[j].time == latest;
    assert forall i :: 0 <= i < |c| ==> all[i] == c[i];
  }

  lemma OneIsLatest(s: Seen)
    ensures !Backwards([s], 0) && LatestIs([s], s.time)
  {
    assert [s][0].time == s.time;
  }

  lemma TimesStep(n: Notes, o: Options, c: seq<Seen>, s: Seen)
    requires TimesShow(n, o, c)
    ensures TimesShow(Observed(n, o, s.packet, s.time), o, c + [s])
  {
    var all := c + [s];
    assert all[..|all| - 1] == c && all[|all| - 1] == s;
    hide Backwards, LatestIs;
    if c == [] {
      OneIsLatest(s);
      assert all == [s];
    } else {
      BackwardsIff(c, s, n.latest.value);
      assert all[|c| - 1] == c[|c| - 1];
    }
  }

  // ---------------------------------------------------------------------
  // Payload changes
  // ---------------------------------------------------------------------

  /** The j-th success is the last before the k-th at the same endpoint. */
  predicate JustBefore(s: seq<Seen>, j: nat, k: nat)
    requires k < |s|
  {
    && j < k && s[j].packet.endpoint == s[k].packet.endpoint
    && forall m :: j < m < k ==> s[m].packet.endpoint != s[k].packet.endpoint
  }

  /** The k-th payload differs from the bounded one before it at its endpoint. */
  ghost predicate Changes(o: Options, s: seq<Seen>, k: nat)
    requires k < |s|
  {
    exists j: nat :: && JustBefore(s, j, k) && |s[j].packet.payload| <= o.maximumPayload
                     && s[j].packet.payload != s[k].packet.payload
  }

  ghost function ChangeCount(o: Options, s: seq<Seen>): nat {
    if s == [] then 0
    else ChangeCount(o, s[..|s| - 1]) + (if Changes(o, s, |s| - 1) then 1 else 0)
  }

  ghost predicate Absent(s: seq<Seen>, e: byte) {
    forall j :: 0 <= j < |s| ==> s[j].packet.endpoint != e
  }

  /** The j-th success is the last one at endpoint e. */
  ghost predicate LastAt(s: seq<Seen>, j: nat, e: byte) {
    j < |s| && s[j].packet.endpoint == e && forall m :: j < m < |s| ==> s[m].packet.endpoint != e
  }

  /** The payload that the route remembers for an endpoint, and where it comes from. */
  ghost predicate Remembers(payloads: map<byte, seq<byte>>, o: Options, s: seq<Seen>, e: byte) {
    if Absent(s, e) then LastPayload(payloads, e) == []
    else exists j: nat :: LastAt(s, j, e) && LastPayload(payloads, e) == Bounded(o, s[j].packet.payload)
  }

  ghost predicate ChangesShow(n: Notes, o: Options, s: seq<Seen>) {
    n.changes == ChangeCount(o, s) && forall e :: Remembers(n.payloads, o, s, e)
  }

  ghost predicate NoneEmpty(s: seq<Seen>) {
    forall j :: 0 <= j < |s| ==> s[j].packet.payload != []
  }

  lemma JustBeforeIsLast(s: seq<Seen>, next: Seen, j: nat)
    ensures JustBefore(s + [next], j, |s|) <==> LastAt(s, j, next.packet.endpoint)
    ensures j < |s| ==> (s + [next])[j] == s[j]
  {
    var all := s + [next];
    assert all[|s|] == next && forall i :: 0 <= i < |s| ==> all[i] == s[i];
  }

  lemma LastIsOne(s: seq<Seen>, i: nat, j: nat, e: byte)
    requires LastAt(s, i, e)
    ensures !Absent(s, e) && (LastAt(s, j, e) ==> i == j)
  {
  }

  lemma ChangesIff(payloads: map<byte, seq<byte>>, o: Options, s: seq<Seen>, next: Seen)
    requires Remembers(payloads, o, s, next.packet.endpoint) && NoneEmpty(s)
    ensures var before := LastPayload(payloads, next.packet.endpoint);
            Changes(o, s + [next], |s|) <==> before != [] && before != next.packet.payload
  {
    var e, all := next.packet.endpoint, s + [next];
    assert all[|s|] == next;
    if !Absent(s, e) {
      var j: nat :| LastAt(s, j, e) && LastPayload(payloads, e) == Bounded(o, s[j].packet.payload);
      hide LastPayload, Absent, LastAt, JustBefore;
      JustBeforeIsLast(s, next, j);
      LastIsIndex(s, j, e);
      forall i: nat | JustBefore(all, i, |s|)
        ensures i == j
      {
        JustBeforeIsLast(s, next, i);
        LastIsOne(s, j, i, e);
      }
    } else {
      forall i: nat
        ensures !JustBefore(all, i, |s|)
      {
        JustBeforeIsLast(s, next, i);
      }
    }
  }

  lemma LastIsIndex(s: seq<Seen>, j: nat, e: byte)
    requires LastAt(s, j, e)
    ensures j < |s|
  {
  }

  lemma EndpointsStep(s: seq<Seen>, next: Seen, e: byte, j: nat)
    ensures Absent(s + [next], e) <==> Absent(s, e) && next.packet.endpoint != e
    ensures next.packet.endpoint == e ==> LastAt(s + [next], |s|, e)
    ensures next.packet.endpoint != e && LastAt(s, j, e) ==> LastAt(s + [next], j, e)
  {
    var all := s + [next];
    assert all[|s|] == next && forall i :: 0 <= i < |s| ==> all[i] == s[i];
  }

  lemma RemembersStep(payloads: map<byte, seq<byte>>, o: Options, s: seq<Seen>, next: Seen, e: byte)
    requires Remembers(payloads, o, s, e)
    ensures Remembers(payloads[next.packet.endpoint := Bounded(o, next.packet.payload)], o, s + [next], e)
  {
    var all := s + [next];
    var after := payloads[next.packet.endpoint := Bounded(o, next.packet.payload)];
    EndpointsStep(s, next, e, 0);
    if next.packet.endpoint == e {
      assert all[|s|] == next && LastPayload(after, e) == Bounded(o, next.packet.payload);
    } else {
      assert LastPayload(after, e) == LastPayload(payloads, e);
      hide LastPayload, Absent;
      if !Absent(s, e) {
        var j: nat :| LastAt(s, j, e) && LastPayload(payloads, e) == Bounded(o, s[j].packet.payload);
        EndpointsStep(s, next, e, j);
        assert all[j] == s[j];
      }
    }
  }

  lemma ChangesStep(n: Notes, o: Options, s: seq<Seen>, next: Seen)
    requires ChangesShow(n, o, s) && NoneEmpty(s)
    ensures ChangesShow(Compared(n, o, next.packet), o, s + [next])
  {
    hide Remembers, Changes, LastPayload, Bounded, NoneEmpty;
    assert (s + [next])[..|s|] == s;
    ChangesIff(n.payloads, o, s, next);
    forall e
      ensures Remembers(Compared(n, o, next.packet).payloads, o, s + [next], e)
    {
      RemembersStep(n.payloads, o, s, next, e);
    }
  }

  // ---------------------------------------------------------------------
  // Intervals
  // ---------------------------------------------------------------------

  /** The times of the successes that are later than all before them. */
  ghost function Advances(s: seq<Seen>): (times: seq<int64>)
    ensures |times| <= |s|
  {
    if s == [] then []
    else
      var k := |s| - 1;
      Advances(s[..k]) + (if AfterAll(s[..k], s[k].time) then [s[k].time] else [])
  }

  predicate AfterAll(s: seq<Seen>, time: int64) {
    forall j :: 0 <= j < |s| ==> s[j].time < time
  }

  predicate IsGap(times: seq<int64>, i: nat, gap: int) {
    i + 1 < |times| && gap == times[i + 1] as int - times[i]
  }

  function Least(a: int, b: int): int {
    if a < b then a else b
  }

  /** The intervals kept are the first gaps between advances; later gaps were left out, and a
      success that was no advance was not positive. */
  ghost predicate IntervalsShow(n: Notes, o: Options, s: seq<Seen>) {
    var times := Advances(s);
    && n.nonpositive == |s| - |times|
    && n.lastInterval == (if times == [] then None else Some(times[|times| - 1]))
    && (s != [] ==> times != [] && forall j :: 0 <= j < |s| ==> s[j].time <= times[|times| - 1])
    && |n.intervals| + n.omitted == (if times == [] then 0 else |times| - 1)
    && |n.intervals| == Least(o.maximumIntervals, |n.intervals| + n.omitted)
    && forall i :: 0 <= i < |n.intervals| ==> IsGap(times, i, n.intervals[i])
  }

  lemma AdvanceIff(s: seq<Seen>, next: Seen)
    ensures Advances(s + [next])
         == Advances(s) + (if AfterAll(s, next.time) then [next.time] else [])
  {
    hide AfterAll;
    var all := s + [next];
    assert all[..|s|] == s && all[|s|] == next;
  }

  lemma {:induction false} TopIsThere(s: seq<Seen>)
    ensures var times := Advances(s);
            times != [] ==> exists j :: 0 <= j < |s| && s[j].time == times[|times| - 1]
  {
    if s != [] {
      var k := |s| - 1;
      TopIsThere(s[..k]);
      var times := Advances(s[..k]);
      if times != [] {
        var j :| 0 <= j < k && s[..k][j].time == times[|times| - 1];
        assert s[j].time == times[|times| - 1];
      }
    }
  }

  lemma IntervalsStep(n: Notes, o: Options, s: seq<Seen>, next: Seen)
    requires IntervalsShow(n, o, s)
    ensures IntervalsShow(Spaced(n, o, next.time), o, s + [next])
  {
    var times := Advances(s);
    AdvanceIff(s, next);
    TopIsThere(s);
    var m := Spaced(n, o, next.time);
    hide Advances;
    var all := s + [next];
    assert forall j :: 0 <= j < |s| ==> all[j] == s[j];
    if s != [] && next.time > times[|times| - 1] {
      assert Advances(all) == times + [next.time];
      forall i | 0 <= i < |m.intervals|
        ensures IsGap(times + [next.time], i, m.intervals[i])
      {
        if i < |n.intervals| {
          assert m.intervals[i] == n.intervals[i];
        }
      }
    } else if s != [] {
      assert Advances(all) == times + [];
    }
  }

  // ---------------------------------------------------------------------
  // All notes
  // ---------------------------------------------------------------------

  ghost predicate NotesShow(n: Notes, o: Options, seen: seq<Seen>) {
    && TimesShow(n, o, Completions(seen))
    && ChangesShow(n, o, Successes(seen))
    && IntervalsShow(n, o, Successes(seen))
  }

  lemma {:induction false} SuccessesNotEmpty(seen: seq<Seen>)
    ensures NoneEmpty(Successes(seen))
  {
    if seen != [] {
      SuccessesNotEmpty(seen[..|seen| - 1]);
    }
  }

  lemma ListsGrow(seen: seq<Seen>, s: Seen)
    ensures Completions(seen + [s]) == (if s.packet.IsCompletion() then Completions(seen) + [s] else Completions(seen))
    ensures Successes(seen + [s])
         == (if CertificationProbe.Successful(s.packet) then Successes(seen) + [s] else Successes(seen))
  {
    assert (seen + [s])[..|seen|] == seen;
    assert Completions(seen) + [] == Completions(seen) && Successes(seen) + [] == Successes(seen);
  }

  /** Each step changes only its own notes. */
  lemma OtherNotes(n: Notes, m: Notes, o: Options, c: seq<Seen>, s: seq<Seen>)
    ensures TimesShow(n, o, c) && m.regressions == n.regressions && m.latest == n.latest
            && m.duplicates == n.duplicates && m.last == n.last ==>
              TimesShow(m, o, c)
    ensures ChangesShow(n, o, s) && m.changes == n.changes && m.payloads == n.payloads ==> ChangesShow(m, o, s)
    ensures IntervalsShow(n, o, s) && m.nonpositive == n.nonpositive && m.omitted == n.omitted
            && m.intervals == n.intervals && m.lastInterval == n.lastInterval ==>
              IntervalsShow(m, o, s)
  {
    hide Regressions, Repetitions, ChangeCount, Remembers, Advances, LatestIs;
  }

  lemma NotesStep(n: Notes, o: Options, seen: seq<Seen>, s: Seen)
    requires NotesShow(n, o, seen)
    ensures NotesShow(Noted(n, o, s.packet, s.time), o, seen + [s])
  {
    hide TimesShow, ChangesShow, IntervalsShow, Completions, Successes, LastPayload, Bounded;
    ListsGrow(seen, s);
    var c, w := Completions(seen), Successes(seen);
    if s.packet.IsCompletion() {
      var observed := Observed(n, o, s.packet, s.time);
      TimesStep(n, o, c, s);
      OtherNotes(n, observed, o, c, w);
      if CertificationProbe.Successful(s.packet) {
        var compared := Compared(observed, o, s.packet);
        SuccessesNotEmpty(seen);
        ChangesStep(observed, o, w, s);
        OtherNotes(observed, compared, o, c + [s], w);
        IntervalsStep(compared, o, w, s);
        OtherNotes(compared, Spaced(compared, o, s.time), o, c + [s], w + [s]);
      }
    }
  }

  lemma NoNotesShow(o: Options)
    ensures NotesShow(NO_NOTES, o, [])
  {
  }

  lemma {:induction false} NotesMean(endpoint: byte, o: Options, records: seq<Record>)
    ensures NotesShow(NotesOf(endpoint, o, records), o, SeenOn(endpoint, records))
  {
    hide RouteTakes, OnRoute, CaptureSteps.PacketOf, Parse, Noted, NotesShow, TimeOf;
    if records == [] {
      NoNotesShow(o);
    } else {
      var k := |records| - 1;
      NotesMean(endpoint, o, records[..k]);
      RouteIsRoute(endpoint, records[k]);
      if RouteTakes(endpoint, records[k]) {
        var packet := CaptureSteps.PacketOf(records[k]).value;
        NotesStep(NotesOf(endpoint, o, records[..k]), o, SeenOn(endpoint, records[..k]),
                  Seen(packet, TimeOf(records[k])));
      }
    }
  }

  // ---------------------------------------------------------------------
  // Samples
  // ---------------------------------------------------------------------

  /** All reports of the transfers that decode, each with the time of its transfer. */
  ghost function ReportsOf(decoder: Option<Decoder>, o: Options, seen: seq<Seen>): seq<Timed>
    requires decoder.Some? ==> ValidDecoder(decoder.value)
  {
    if seen == [] then []
    else
      var k := |seen| - 1;
      var p := seen[k].packet;
      ReportsOf(decoder, o, seen[..k])
        + (if Succeeded(p) && Decodes(decoder, o, p)
           then Stamped(DecodeBatch(decoder.value, p.payload).value, seen[k].time) else [])
  }

  function Stamped(reports: seq<HidMouseDecoder.Decoded>, time: int64): seq<Timed> {
    seq(|reports|, i requires 0 <= i < |reports| => Timed(reports[i], time))
  }

  lemma SameStamps(reports: seq<HidMouseDecoder.Decoded>, time: int64)
    ensures TimedReports(reports, time) == Stamped(reports, time)
  {
  }

  lemma {:induction false} ReportsMean(endpoint: byte, decoder: Option<Decoder>, o: Options, records: seq<Record>)
    requires decoder.Some? ==> ValidDecoder(decoder.value)
    ensures AllReports(endpoint, decoder, o, records) == ReportsOf(decoder, o, SeenOn(endpoint, records))
  {
    hide ValidDecoder, RouteTakes, OnRoute, CaptureSteps.PacketOf, Parse, TimeOf, DecodeBatch, Decodes, OutcomeOf;
    if records != [] {
      var k := |records| - 1;
      ReportsMean(endpoint, decoder, o, records[..k]);
      RouteIsRoute(endpoint, records[k]);
      if RouteTakes(endpoint, records[k]) {
        var packet := CaptureSteps.PacketOf(records[k]).value;
        KindOfOutcome(decoder, o, packet);
        var before, s := SeenOn(endpoint, records[..k]), Seen(packet, TimeOf(records[k]));
        assert (before + [s])[..|before|] == before;
        if OutcomeOf(decoder, o, packet).Reports? {
          SameStamps(OutcomeOf(decoder, o, packet).reports, s.time);
        }
      }
    }
  }

  /** The left button, bit 0 of the mask, is down in the k-th report. */
  predicate LeftDown(reports: seq<Timed>, k: int)
    requires k < |reports|
  {
    k >= 0 && Bitwise.Bit(reports[k].report.buttons, 0)
  }

  /** The k-th report's motion, its time since the first report, and whether the left button went
      down or up since the report before it. */
  ghost predicate Shows(s: Sample, reports: seq<Timed>, k: nat)
    requires k < |reports|
  {
    && s.relativeNs == reports[k].timestamp - reports[0].timestamp
    && s.dx == reports[k].report.dx && s.dy == reports[k].report.dy
    && (s.leftDown <==> LeftDown(reports, k) && !LeftDown(reports, k - 1))
    && (s.leftUp <==> !LeftDown(reports, k) && LeftDown(reports, k - 1))
  }

  lemma SampleShows(reports: seq<Timed>, k: nat)
    requires k < |reports|
    ensures Shows(SampleAt(reports, k), reports, k)
  {
  }

  function SumOver(samples: seq<Sample>, f: Sample -> int): int {
    if samples == [] then 0 else SumOver(samples[..|samples| - 1], f) + f(samples[|samples| - 1])
  }

  function Count(holds: bool): int {
    if holds then 1 else 0
  }

  ghost predicate TotalsShow(t: Totals, samples: seq<Sample>) {
    && t.packets == |samples|
    && t.dx == SumOver(samples, (s: Sample) => s.dx)
    && t.dy == SumOver(samples, (s: Sample) => s.dy)
    && t.downEdges == SumOver(samples, (s: Sample) => Count(s.leftDown))
    && t.upEdges == SumOver(samples, (s: Sample) => Count(s.leftUp))
    && t.motion == SumOver(samples, (s: Sample) => Absolute(s.dx) + Absolute(s.dy))
  }

  function Absolute(x: int): nat {
    if x < 0 then 0 - x else x
  }

  lemma {:induction false} FoldIsSums(samples: seq<Sample>)
    ensures Fold(samples).0 == SumOver(samples, (s: Sample) => s.dx)
    ensures Fold(samples).1 == SumOver(samples, (s: Sample) => s.dy)
    ensures Fold(samples).2 == SumOver(samples, (s: Sample) => Count(s.leftDown))
    ensures Fold(samples).3 == SumOver(samples, (s: Sample) => Count(s.leftUp))
    ensures Fold(samples).4 == SumOver(samples, (s: Sample) => Absolute(s.dx) + Absolute(s.dy))
  {
    if samples != [] {
      FoldIsSums(samples[..|samples| - 1]);
    }
  }

  // ---------------------------------------------------------------------
  // The route
  // ---------------------------------------------------------------------

  /** What a route that has gone through some records shows of them: each counter is the number
      of packets on the route of its kind; regressions, repetitions and payload changes are
      found by comparing completions with those before; the intervals are the first gaps
      between advancing transfers; the samples are the first decoded reports, as many as there
      is room for; and the totals are sums over the samples. */
  lemma RouteMeans(route: Route, records: seq<Record>)
    requires CountedFor(route, records)
    ensures var seen := SeenOn(route.endpoint, records);
            && CountsShow(route.counters, route.decoder, route.options, seen)
            && NotesShow(route.Noting(), route.options, seen)
    ensures var reports := ReportsOf(route.decoder, route.options, SeenOn(route.endpoint, records));
            && route.counters.decodedReports == |reports|
            && route.counters.samplesOmitted == |reports| - |route.samples|
            && |route.samples| == Least(route.options.maximumSamples, |reports|)
            && forall k :: 0 <= k < |route.samples| ==> Shows(route.samples[k], reports, k)
    ensures TotalsShow(route.totals, route.samples)
  {
    hide Account, AllReports, NotesOf, SampleAt, TraceOf, Fold, ValidDecoder, Supported, SeenOn, ReportsOf, Shows,
         HowMany, NotesShow, SumOver, Parse, TakenBy;
    CountersMean(route.endpoint, route.decoder, route.options, records);
    NotesMean(route.endpoint, route.options, records);
    ReportsMean(route.endpoint, route.decoder, route.options, records);
    RouteExact(route, records);
    var reports := AllReports(route.endpoint, route.decoder, route.options, records);
    forall k | 0 <= k < |route.samples|
      ensures Shows(route.samples[k], reports, k)
    {
      SampleShows(reports, k);
    }
    FoldIsSums(route.samples);
  }
}
