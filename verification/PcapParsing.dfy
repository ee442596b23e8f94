/** The incremental PCAP parser (src/capture/StreamingPcapParser.cpp) and the one-shot
    reader (src/capture/PcapReader.cpp), and that they agree on every chunking. */
module PcapParsing {
  import opened Machine
  import opened Binary
  import opened Pcap

  const MAX_BUFFER := 0x200_0000

  /** Chunks up to this size can never overfill the buffer. */
  const SAFE_CHUNK := 0x100_0000 - 15

  /** The parser's state, apart from how much parsed data its buffer still holds. */
  datatype ParserState = ParserState(unparsed: seq<byte>, header: Option<Header>, sequence: nat)

  const START := ParserState([], None, 0)

  function AppendChunk(s: ParserState, bytes: seq<byte>): Result<ParserState, Fault> {
    if bytes == [] then Ok(s)
    else if |s.unparsed| + |bytes| > MAX_BUFFER then Err(BufferLimit)
    else Ok(s.(unparsed := s.unparsed + bytes))
  }

  /** Read the global header if it is complete and has not been read. */
  function TakeHeader(s: ParserState): Result<ParserState, Fault> {
    if s.header.Some? || |s.unparsed| < GLOBAL_HEADER then Ok(s)
    else
      var h :- HeaderOf(s.unparsed[..GLOBAL_HEADER]);
      Ok(s.(unparsed := s.unparsed[GLOBAL_HEADER..], header := Some(h)))
  }

  /** One call of TakeRecords: the records that have become complete. */
  function Take(s: ParserState): Result<(seq<Record>, ParserState), Fault> {
    var ready :- TakeHeader(s);
    match ready.header
    case None => Ok(([], ready))
    case Some(h) =>
      var p := ParseRecords(h, ready.unparsed, ready.sequence);
      if p.fault.Some? then Err(p.fault.value)
      else Ok((p.records, ready.(unparsed := p.rest, sequence := ready.sequence + |p.records|)))
  }

  /** Append and TakeRecords for one chunk after another. */
  function FeedAll(s: ParserState, chunks: seq<seq<byte>>): Result<(seq<Record>, ParserState), Fault>
    decreases |chunks|
  {
    if chunks == [] then Ok(([], s))
    else
      var appended :- AppendChunk(s, chunks[0]);
      var taken :- Take(appended);
      var others :- FeedAll(taken.1, chunks[1..]);
      Ok((taken.0 + others.0, others.1))
  }

  /** Finalize: the input ended at a record boundary. */
  predicate Finished(s: ParserState) {
    s.header.Some? && s.unparsed == []
  }

  // ---------------------------------------------------------------------
  // Chunking does not matter
  // ---------------------------------------------------------------------

  function More(s: ParserState, bytes: seq<byte>): ParserState {
    s.(unparsed := s.unparsed + bytes)
  }

  lemma TakeHeaderResumes(s: ParserState, bytes: seq<byte>)
    ensures TakeHeader(s).Err? ==> TakeHeader(More(s, bytes)) == TakeHeader(s)
    ensures TakeHeader(s).Ok? && TakeHeader(s).value.header.Some? ==>
              TakeHeader(More(s, bytes)) == Ok(More(TakeHeader(s).value, bytes))
    ensures TakeHeader(s).Ok? && TakeHeader(s).value.header.None? ==> TakeHeader(s).value == s
  {
    hide HeaderOf;
    if s.header.None? && |s.unparsed| >= GLOBAL_HEADER {
      var all := s.unparsed + bytes;
      assert all[..GLOBAL_HEADER] == s.unparsed[..GLOBAL_HEADER];
      assert all[GLOBAL_HEADER..] == s.unparsed[GLOBAL_HEADER..] + bytes;
    }
  }

  /** Taking now and again after more bytes is taking once after all of them. */
  lemma TakeResumes(s: ParserState, bytes: seq<byte>)
    ensures Take(s).Err? ==> Take(More(s, bytes)) == Err(Take(s).error)
    ensures Take(s).Ok? ==>
              var first := Take(s).value;
              match Take(More(first.1, bytes))
              case Err(fault) => Take(More(s, bytes)) == Err(fault)
              case Ok(second) => Take(More(s, bytes)) == Ok((first.0 + second.0, second.1))
  {
    hide TakeHeader, ParseRecords;
    TakeHeaderResumes(s, bytes);
    if TakeHeader(s).Ok? {
      var ready := TakeHeader(s).value;
      if ready.header.Some? {
        ParseResumes(ready.header.value, ready.unparsed, bytes, ready.sequence);
        var p := ParseRecords(ready.header.value, ready.unparsed, ready.sequence);
        assert TakeHeader(ready.(unparsed := p.rest + bytes, sequence := ready.sequence + |p.records|))
            == Ok(ready.(unparsed := p.rest + bytes, sequence := ready.sequence + |p.records|)) by {
          HeaderTakenOnce(ready.(unparsed := p.rest + bytes, sequence := ready.sequence + |p.records|));
        }
      } else {
        NothingInFront<Record>();
      }
    }
  }

  lemma HeaderTakenOnce(s: ParserState)
    requires s.header.Some?
    ensures TakeHeader(s) == Ok(s)
  {
  }

  /** Nothing is left to take until more bytes come. */
  ghost predicate Idle(s: ParserState) {
    Take(s) == Ok(([], s))
  }

  lemma TakeLeavesIdle(s: ParserState)
    requires Take(s).Ok?
    ensures Idle(Take(s).value.1)
  {
    hide ParseRecords;
    var ready := TakeHeader(s).value;
    if ready.header.Some? {
      ParseLeavesNothing(ready.header.value, ready.unparsed, ready.sequence);
    }
  }

  /** Headers taken from a stream are valid ones. */
  predicate HeaderChecked(s: ParserState) {
    s.header.Some? ==> ValidHeader(s.header.value)
  }

  lemma TakeKeepsHeaderChecked(s: ParserState)
    requires HeaderChecked(s) && Take(s).Ok?
    ensures HeaderChecked(Take(s).value.1)
  {
    hide ParseRecords, HeaderOf, ValidHeader;
    if s.header.None? && |s.unparsed| >= GLOBAL_HEADER {
      HeaderOfIsValid(s.unparsed[..GLOBAL_HEADER]);
    }
  }

  /** After TakeRecords less than a record's worth of bytes is waiting. */
  lemma ResidueBound(s: ParserState)
    requires Idle(s) && HeaderChecked(s)
    ensures |s.unparsed| <= MAX_SNAP_LENGTH + 15
    ensures s.header.Some? ==> |s.unparsed| <= s.header.value.snapLength + 15
  {
    hide ParseRecords;
    if s.header.Some? {
      ResidueIsShort(s.header.value, s.unparsed, s.sequence);
    }
  }

  ghost predicate ChunksSafe(chunks: seq<seq<byte>>) {
    forall i :: 0 <= i < |chunks| ==> |chunks[i]| <= SAFE_CHUNK
  }

  /** For every way of cutting a stream into chunks: if no call throws, the records are
      those of the uncut stream; and if no chunk is over 16 MiB - 15 bytes, no call throws
      exactly when the uncut stream parses without a fault. */
  lemma {:induction false} ChunkingIrrelevant(s: ParserState, chunks: seq<seq<byte>>)
    requires Idle(s) && HeaderChecked(s)
    ensures FeedAll(s, chunks).Ok? ==> FeedAll(s, chunks) == Take(More(s, Concat(chunks)))
    ensures ChunksSafe(chunks) ==> (FeedAll(s, chunks).Ok? <==> Take(More(s, Concat(chunks))).Ok?)
    decreases |chunks|
  {
    hide Take;
    if chunks == [] {
      assert More(s, []) == s by { assert s.unparsed + [] == s.unparsed; }
      assert Take(s) == Ok(([], s)) by { IdleTakesNothing(s); }
    } else {
      var first, others := chunks[0], chunks[1..];
      ResidueBound(s);
      MoreTwice(s, first, Concat(others));
      TakeResumes(More(s, first), Concat(others));
      assert first == [] ==> More(s, first) == s by { assert s.unparsed + [] == s.unparsed; }
      if Take(More(s, first)).Ok? {
        TakeLeavesIdle(More(s, first));
        TakeKeepsHeaderChecked(More(s, first));
        ChunkingIrrelevant(Take(More(s, first)).value.1, others);
        assert ChunksSafe(chunks) ==> ChunksSafe(others);
      }
    }
  }

  lemma IdleTakesNothing(s: ParserState)
    requires Idle(s)
    ensures Take(s) == Ok(([], s))
  {
  }

  lemma MoreTwice(s: ParserState, a: seq<byte>, b: seq<byte>)
    ensures More(More(s, a), b) == More(s, a + b)
  {
    assert (s.unparsed + a) + b == s.unparsed + (a + b);
  }

  // ---------------------------------------------------------------------
  // The one-shot reader
  // ---------------------------------------------------------------------

  /** One call of Next on what is left of the file. */
  function ReadNext(h: Header, rest: seq<byte>, sequence: nat): Result<Option<(Record, nat)>, Fault> {
    if rest == [] then Ok(None)
    else
      match FrontOf(h, rest, sequence)
      case NeedMore => Err(Truncated)
      case Bad(fault) => Err(fault)
      case Complete(record, length) => Ok(Some((record, length)))
  }

  function ReadRecords(h: Header, rest: seq<byte>, sequence: nat): Result<seq<Record>, Fault>
    decreases |rest|
  {
    var next :- ReadNext(h, rest, sequence);
    match next
    case None => Ok([])
    case Some(read) =>
      var others :- ReadRecords(h, rest[read.1..], sequence + 1);
      Ok([read.0] + others)
  }

  /** Open a file and read it to its end. */
  function ReadPcap(file: seq<byte>): Result<(Header, seq<Record>), Fault> {
    if |file| < GLOBAL_HEADER then Err(Truncated)
    else
      var h :- HeaderOf(file[..GLOBAL_HEADER]);
      var records :- ReadRecords(h, file[GLOBAL_HEADER..], 0);
      Ok((h, records))
  }

  lemma {:induction false} ReadingIsParsing(h: Header, rest: seq<byte>, sequence: nat)
    ensures var p := ParseRecords(h, rest, sequence);
            if p.fault.None? && p.rest == [] then ReadRecords(h, rest, sequence) == Ok(p.records)
            else ReadRecords(h, rest, sequence).Err?
    decreases |rest|
  {
    hide FrontOf;
    assert rest == [] ==> FrontOf(h, rest, sequence).NeedMore? by { EmptyNeedsMore(h, sequence); }
    var front := FrontOf(h, rest, sequence);
    if front.Complete? {
      ReadingIsParsing(h, rest[front.length..], sequence + 1);
    }
  }

  lemma EmptyNeedsMore(h: Header, sequence: nat)
    ensures FrontOf(h, [], sequence).NeedMore?
  {
  }

  /** A file that the one-shot reader accepts is one the streaming parser accepts whole,
      from the same header and with the same records, and the other way round. */
  lemma OneShotAgrees(file: seq<byte>)
    ensures var taken := Take(More(START, file));
            if taken.Ok? && Finished(taken.value.1)
            then ReadPcap(file) == Ok((taken.value.1.header.value, taken.value.0))
            else ReadPcap(file).Err?
  {
    hide ParseRecords, ReadRecords, HeaderOf;
    assert [] + file == file;
    if |file| >= GLOBAL_HEADER && HeaderOf(file[..GLOBAL_HEADER]).Ok? {
      ReadingIsParsing(HeaderOf(file[..GLOBAL_HEADER]).value, file[GLOBAL_HEADER..], 0);
    }
  }

  /** The streaming parser refines the one-shot reader on every chunking. */
  lemma StreamingRefinesOneShot(chunks: seq<seq<byte>>)
    requires ChunksSafe(chunks)
    ensures var fed := FeedAll(START, chunks);
            if fed.Ok? && Finished(fed.value.1)
            then ReadPcap(Concat(chunks)) == Ok((fed.value.1.header.value, fed.value.0))
            else ReadPcap(Concat(chunks)).Err?
  {
    hide Take, ReadPcap, FeedAll;
    assert Idle(START) by { StartIsIdle(); }
    ChunkingIrrelevant(START, chunks);
    OneShotAgrees(Concat(chunks));
  }

  lemma StartIsIdle()
    ensures Idle(START) && HeaderChecked(START)
  {
  }

  // ---------------------------------------------------------------------
  // The classes
  // ---------------------------------------------------------------------

  const NO_HEADER := Header(true, Microseconds, 0, 0, 0, 0)

  method ReadGlobalHeader(bytes: seq<byte>) returns (result: Result<Header, Fault>)
    requires |bytes| == GLOBAL_HEADER
    ensures result == HeaderOf(bytes)
  {
    hide FromFixed, Magic;
    var kind := MagicOf(bytes[0..4]);
    if kind.None? {
      return Err(BadMagic);
    }
    var little := kind.value.0;
    var major := ReadAvailable(bytes, 4, 2, little);
    var minor := ReadAvailable(bytes, 6, 2, little);
    var snapLength := ReadAvailable(bytes, 16, 4, little);
    var linkType := ReadAvailable(bytes, 20, 4, little);
    Widths();
    FixedBound(bytes[4..6], little);
    FixedBound(bytes[6..8], little);
    FixedBound(bytes[16..20], little);
    FixedBound(bytes[20..24], little);
    if major != 2 || minor != 4 {
      return Err(UnsupportedVersion);
    }
    if snapLength < MIN_SNAP_LENGTH || snapLength > MAX_SNAP_LENGTH {
      return Err(UnsafeLength);
    }
    if linkType != USBPCAP_LINK_TYPE {
      return Err(BadMagic);
    }
    return Ok(Header(little, kind.value.1, major, minor, snapLength, linkType));
  }

  method ReadField(bytes: seq<byte>, at: nat, littleEndian: bool) returns (value: uint32)
    requires at + 4 <= |bytes|
    ensures value == Field(bytes, at, littleEndian)
  {
    Widths();
    FixedBound(bytes[at..at + 4], littleEndian);
    value := ReadAvailable(bytes, at, 4, littleEndian);
  }

  /** What the front of the bytes says of parsing them after `out`. */
  lemma ParseStep(h: Header, rest: seq<byte>, sequence: nat, out: seq<Record>)
    ensures var front, p := FrontOf(h, rest, sequence), ParseRecords(h, rest, sequence);
            && (front.NeedMore? ==> out + p.records == out && p.rest == rest && p.fault.None?)
            && (front.Bad? ==> out + p.records == out && p.rest == rest && p.fault == Some(front.fault))
            && (front.Complete? ==>
                  var others := ParseRecords(h, rest[front.length..], sequence + 1);
                  && out + p.records == (out + [front.record]) + others.records
                  && p.rest == others.rest && p.fault == others.fault)
  {
    hide FrontOf;
    assert out + [] == out;
    var front := FrontOf(h, rest, sequence);
    if front.Complete? {
      ItemInFront(out, front.record);
    }
  }

  class StreamingPcapParser {
    var buffer: seq<byte>
    var offset: nat
    var header: Header
    var headerReady: bool
    var sequence: nat

    ghost predicate Valid()
      reads this
    {
      offset <= |buffer|
    }

    ghost function State(): ParserState
      reads this
      requires Valid()
    {
      ParserState(buffer[offset..], if headerReady then Some(header) else None, sequence)
    }

    constructor ()
      ensures Valid() && State() == START && !headerReady
    {
      buffer, offset, header, headerReady, sequence := [], 0, NO_HEADER, false, 0;
    }

    /** Compaction drops parsed bytes from the buffer; what is unparsed only grows. */
    method Append(bytes: seq<byte>) returns (result: Result<(), Fault>)
      requires Valid()
      modifies `buffer, `offset
      ensures Valid()
      ensures match AppendChunk(old(State()), bytes)
              case Err(fault) => result == Err(fault) && State() == old(State())
              case Ok(after) => result == Ok(()) && State() == after
    {
      if bytes == [] {
        return Ok(());
      }
      if |buffer| - offset + |bytes| > MAX_BUFFER {
        return Err(BufferLimit);
      }
      ghost var unparsed := buffer[offset..];
      if offset != 0 && (offset > 0x10_0000 || offset == |buffer|) {
        buffer := buffer[offset..];
        offset := 0;
      }
      assert buffer[offset..] == unparsed;
      buffer := buffer + bytes;
      assert buffer[offset..] == unparsed + bytes;
      return Ok(());
    }

    /** The header step of ParseAvailable. */
    method TakeGlobalHeader() returns (result: Result<(), Fault>)
      requires Valid()
      modifies `offset, `header, `headerReady
      ensures Valid()
      ensures match TakeHeader(old(State()))
              case Err(fault) => result == Err(fault) && State() == old(State())
              case Ok(after) => result == Ok(()) && State() == after
    {
      hide HeaderOf;
      if headerReady || |buffer| - offset < GLOBAL_HEADER {
        return Ok(());
      }
      ghost var unparsed := buffer[offset..];
      assert buffer[offset..offset + GLOBAL_HEADER] == unparsed[..GLOBAL_HEADER];
      var read := ReadGlobalHeader(buffer[offset..offset + GLOBAL_HEADER]);
      if read.Err? {
        return Err(read.error);
      }
      assert buffer[offset + GLOBAL_HEADER..] == unparsed[GLOBAL_HEADER..];
      header := read.value;
      offset := offset + GLOBAL_HEADER;
      headerReady := true;
      return Ok(());
    }

    /** One complete record at the front of the unparsed bytes, if there is one. */
    method ParseFront() returns (front: Front)
      requires Valid()
      ensures front == FrontOf(header, buffer[offset..], sequence)
    {
      hide Field;
      ghost var rest := buffer[offset..];
      if |buffer| - offset < RECORD_HEADER {
        return NeedMore;
      }
      var h := buffer[offset..offset + RECORD_HEADER];
      assert rest == h + rest[RECORD_HEADER..];
      FieldOfPrefix(h, rest[RECORD_HEADER..], 0, header.littleEndian);
      FieldOfPrefix(h, rest[RECORD_HEADER..], 4, header.littleEndian);
      FieldOfPrefix(h, rest[RECORD_HEADER..], 8, header.littleEndian);
      FieldOfPrefix(h, rest[RECORD_HEADER..], 12, header.littleEndian);
      var included := ReadField(h, 8, header.littleEndian);
      var original := ReadField(h, 12, header.littleEndian);
      if included > header.snapLength || included > original {
        return Bad(UnsafeLength);
      }
      if |buffer| - offset - RECORD_HEADER < included {
        return NeedMore;
      }
      var seconds := ReadField(h, 0, header.littleEndian);
      var fraction := ReadField(h, 4, header.littleEndian);
      var data := buffer[offset + RECORD_HEADER..offset + RECORD_HEADER + included];
      assert data == rest[RECORD_HEADER..RECORD_HEADER + included];
      var record := Record(sequence, seconds, fraction, header.resolution, original, data);
      if record.UnixNanoseconds().Err? {
        return Bad(InvalidTimestamp);
      }
      return Complete(record, RECORD_HEADER + included);
    }

    /** Move complete records from the front of the buffer to `out`. On a fault the records
        before it have been taken out of the buffer all the same. */
    method ParseAvailable() returns (out: seq<Record>, fault: Option<Fault>)
      requires Valid() && headerReady
      modifies `offset, `sequence
      ensures Valid()
      ensures var p := ParseRecords(header, old(State()).unparsed, old(sequence));
              && out == p.records && State().unparsed == p.rest && fault == p.fault
              && (fault.None? ==> sequence == old(sequence) + |p.records|)
    {
      hide FrontOf, ParseRecords;
      out := [];
      ghost var p := ParseRecords(header, buffer[offset..], sequence);
      NothingInFront<Record>();
      while true
        invariant Valid() && headerReady
        invariant var q := ParseRecords(header, buffer[offset..], sequence);
                  p == Parsed(out + q.records, q.rest, q.fault)
        invariant sequence == old(sequence) + |out|
        decreases |buffer| - offset
      {
        ParseStep(header, buffer[offset..], sequence, out);
        var front := ParseFront();
        match front {
          case NeedMore =>
            return out, None;
          case Bad(f) =>
            if f == InvalidTimestamp {
              sequence := sequence + 1;
            }
            return out, Some(f);
          case Complete(record, length) =>
            assert buffer[offset..][length..] == buffer[offset + length..];
            out := out + [record];
            sequence := sequence + 1;
            offset := offset + length;
        }
      }
    }

    /** All records that are complete, or the first fault found; in that case the records
        parsed before it in the same call are lost. */
    method TakeRecords() returns (result: Result<seq<Record>, Fault>)
      requires Valid()
      modifies `offset, `header, `headerReady, `sequence
      ensures Valid()
      ensures match Take(old(State()))
              case Err(fault) => result == Err(fault)
              case Ok(taken) => result == Ok(taken.0) && State() == taken.1
      ensures headerReady == (old(headerReady) || (result.Ok? && |old(State()).unparsed| >= GLOBAL_HEADER)
                              || (result.Err? && TakeHeader(old(State())).Ok?))
    {
      hide ParseRecords;
      var _ :- TakeGlobalHeader();
      if !headerReady {
        return Ok([]);
      }
      var out, fault := ParseAvailable();
      if fault.Some? {
        return Err(fault.value);
      }
      return Ok(out);
    }

    method Finalize() returns (result: Result<(), Fault>)
      requires Valid()
      ensures result.Ok? <==> Finished(State())
    {
      if !headerReady {
        return Err(NotReady);
      }
      if |buffer| != offset {
        return Err(Truncated);
      }
      return Ok(());
    }
  }

  class PcapReader {
    const header: Header
    var input: seq<byte>
    var sequence: nat

    constructor (h: Header, input: seq<byte>)
      ensures header == h && this.input == input && sequence == 0
    {
      header := h;
      this.input, sequence := input, 0;
    }

    method Next() returns (result: Result<Option<Record>, Fault>)
      modifies this
      ensures match ReadNext(header, old(input), old(sequence))
              case Err(fault) => result == Err(fault)
              case Ok(None) => result == Ok(None) && unchanged(this)
              case Ok(Some(read)) =>
                result == Ok(Some(read.0)) && input == old(input)[read.1..] && sequence == old(sequence) + 1
    {
      hide Field;
      if input == [] {
        return Ok(None);
      }
      if |input| < RECORD_HEADER {
        return Err(Truncated);
      }
      var seconds := ReadField(input, 0, header.littleEndian);
      var fraction := ReadField(input, 4, header.littleEndian);
      var included := ReadField(input, 8, header.littleEndian);
      var original := ReadField(input, 12, header.littleEndian);
      if included > header.snapLength || included > original {
        return Err(UnsafeLength);
      }
      if |input| - RECORD_HEADER < included {
        return Err(Truncated);
      }
      var record := Record(sequence, seconds, fraction, header.resolution, original,
                           input[RECORD_HEADER..RECORD_HEADER + included]);
      if record.UnixNanoseconds().Err? {
        return Err(InvalidTimestamp);
      }
      sequence := sequence + 1;
      input := input[RECORD_HEADER + included..];
      return Ok(Some(record));
    }
  }

  /** Open a file with PcapReader and call Next until the end. */
  method ReadAllRecords(file: seq<byte>) returns (result: Result<(Header, seq<Record>), Fault>)
    ensures result == ReadPcap(file)
  {
    hide ReadNext, HeaderOf;
    if |file| < GLOBAL_HEADER {
      return Err(Truncated);
    }
    var h :- ReadGlobalHeader(file[..GLOBAL_HEADER]);
    var reader := new PcapReader(h, file[GLOBAL_HEADER..]);
    var records: seq<Record> := [];
    ghost var whole := ReadRecords(h, reader.input, 0);
    NothingInFront<Record>();
    while true
      invariant reader.header == h && reader.sequence == |records|
      invariant match ReadRecords(h, reader.input, reader.sequence)
                case Err(fault) => whole == Err(fault)
                case Ok(others) => whole == Ok(records + others)
      decreases |reader.input|
    {
      ReadingAdvances(h, reader.input, reader.sequence);
      var next :- reader.Next();
      if next.None? {
        assert records + [] == records;
        return Ok((h, records));
      }
      ItemInFront(records, next.value);
      records := records + [next.value];
    }
  }

  lemma ReadingAdvances(h: Header, rest: seq<byte>, sequence: nat)
    ensures var next := ReadNext(h, rest, sequence);
            next.Ok? && next.value.Some? ==> 0 < next.value.value.1 <= |rest|
  {
  }
}
