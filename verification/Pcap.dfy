/** Classic PCAP files of link type USBPCAP (draft-ietf-opsawg-pcap, sections 4 and 5):
    headers, records, and what a run of bytes parses to. */
module Pcap {
  import opened Machine
  import opened Binary

  const USBPCAP_LINK_TYPE: uint32 := 249
  const MIN_SNAP_LENGTH := 27
  const MAX_SNAP_LENGTH := 0x100_0000
  const GLOBAL_HEADER := 24
  const RECORD_HEADER := 16
  const BILLION := 1_000_000_000

  datatype Resolution = Microseconds | Nanoseconds

  datatype Header = Header(
    littleEndian: bool,
    resolution: Resolution,
    major: uint16,
    minor: uint16,
    snapLength: uint32,
    linkType: uint32)

  datatype Record = Record(
    sequence: nat,
    seconds: uint32,
    fraction: uint32,
    resolution: Resolution,
    originalLength: uint32,
    data: seq<byte>)
  {
    /** The source's guard on seconds is left out: a 32-bit count never reaches it. */
    function UnixNanoseconds(): Result<int64, Fault> {
      var nanoseconds := if resolution.Nanoseconds? then fraction else fraction * 1000;
      if nanoseconds >= BILLION then Err(InvalidTimestamp)
      else
        assert seconds <= MAX_INT64 / BILLION;
        Ok(seconds * BILLION + nanoseconds)
    }
  }

  /** Every timestamp is between 0 and the last nanosecond of second 2^32 - 1, so the
      difference of two of them is always an int64. */
  lemma TimestampRange(r: Record)
    ensures r.UnixNanoseconds().Ok? ==> 0 <= r.UnixNanoseconds().value < 0x1_0000_0000 * BILLION
  {
  }

  // ---------------------------------------------------------------------
  // The global header
  // ---------------------------------------------------------------------

  function Magic(littleEndian: bool, resolution: Resolution): (bytes: seq<byte>)
    ensures |bytes| == 4
  {
    match resolution
    case Microseconds => if littleEndian then [0xd4, 0xc3, 0xb2, 0xa1] else [0xa1, 0xb2, 0xc3, 0xd4]
    case Nanoseconds => if littleEndian then [0x4d, 0x3c, 0xb2, 0xa1] else [0xa1, 0xb2, 0x3c, 0x4d]
  }

  function MagicOf(magic: seq<byte>): Option<(bool, Resolution)> {
    if magic == Magic(true, Microseconds) then Some((true, Microseconds))
    else if magic == Magic(false, Microseconds) then Some((false, Microseconds))
    else if magic == Magic(true, Nanoseconds) then Some((true, Nanoseconds))
    else if magic == Magic(false, Nanoseconds) then Some((false, Nanoseconds))
    else None
  }

  /** What a global header says; bytes 8..15 are not looked at. */
  function HeaderOf(bytes: seq<byte>): Result<Header, Fault>
    requires |bytes| == GLOBAL_HEADER
  {
    match MagicOf(bytes[0..4])
    case None => Err(BadMagic)
    case Some(kind) =>
      Widths();
      FixedBound(bytes[4..6], kind.0);
      FixedBound(bytes[6..8], kind.0);
      FixedBound(bytes[16..20], kind.0);
      FixedBound(bytes[20..24], kind.0);
      var h := Header(kind.0, kind.1, FromFixed(bytes[4..6], kind.0), FromFixed(bytes[6..8], kind.0),
                      FromFixed(bytes[16..20], kind.0), FromFixed(bytes[20..24], kind.0));
      if h.major != 2 || h.minor != 4 then Err(UnsupportedVersion)
      else if h.snapLength < MIN_SNAP_LENGTH || h.snapLength > MAX_SNAP_LENGTH then Err(UnsafeLength)
      else if h.linkType != USBPCAP_LINK_TYPE then Err(BadMagic)
      else Ok(h)
  }

  predicate ValidHeader(h: Header) {
    && h.major == 2 && h.minor == 4
    && MIN_SNAP_LENGTH <= h.snapLength <= MAX_SNAP_LENGTH
    && h.linkType == USBPCAP_LINK_TYPE
  }

  lemma HeaderOfIsValid(bytes: seq<byte>)
    requires |bytes| == GLOBAL_HEADER && HeaderOf(bytes).Ok?
    ensures ValidHeader(HeaderOf(bytes).value)
  {
  }

  // ---------------------------------------------------------------------
  // Records
  // ---------------------------------------------------------------------

  /** What the front of the unparsed bytes holds. */
  datatype Front = NeedMore | Bad(fault: Fault) | Complete(record: Record, length: nat)

  function Field(rest: seq<byte>, at: nat, littleEndian: bool): uint32
    requires at + 4 <= |rest|
  {
    Widths();
    FixedBound(rest[at..at + 4], littleEndian);
    FromFixed(rest[at..at + 4], littleEndian)
  }

  function FrontOf(h: Header, rest: seq<byte>, sequence: nat): (front: Front)
    ensures front.Complete? ==> RECORD_HEADER <= front.length <= |rest|
  {
    if |rest| < RECORD_HEADER then NeedMore
    else
      var included := Field(rest, 8, h.littleEndian);
      var original := Field(rest, 12, h.littleEndian);
      if included > h.snapLength || included > original then Bad(UnsafeLength)
      else if |rest| - RECORD_HEADER < included then NeedMore
      else
        var r := Record(sequence, Field(rest, 0, h.littleEndian), Field(rest, 4, h.littleEndian), h.resolution,
                        original, rest[RECORD_HEADER..RECORD_HEADER + included]);
        if r.UnixNanoseconds().Err? then Bad(InvalidTimestamp)
        else Complete(r, RECORD_HEADER + included)
  }

  /** The complete records at the front, what is left after them, and what is wrong with
      that if anything is. */
  datatype Parsed = Parsed(records: seq<Record>, rest: seq<byte>, fault: Option<Fault>)

  function ParseRecords(h: Header, rest: seq<byte>, sequence: nat): Parsed
    decreases |rest|
  {
    match FrontOf(h, rest, sequence)
    case NeedMore => Parsed([], rest, None)
    case Bad(fault) => Parsed([], rest, Some(fault))
    case Complete(record, length) =>
      var others := ParseRecords(h, rest[length..], sequence + 1);
      Parsed([record] + others.records, others.rest, others.fault)
  }

  lemma FieldOfPrefix(a: seq<byte>, b: seq<byte>, at: nat, littleEndian: bool)
    requires at + 4 <= |a|
    ensures Field(a + b, at, littleEndian) == Field(a, at, littleEndian)
  {
    assert (a + b)[at..at + 4] == a[at..at + 4];
  }

  /** Once the front can be decided, more bytes do not change it. */
  lemma FrontIsStable(h: Header, a: seq<byte>, b: seq<byte>, sequence: nat)
    requires !FrontOf(h, a, sequence).NeedMore?
    ensures FrontOf(h, a + b, sequence) == FrontOf(h, a, sequence)
  {
    hide Field;
    FieldOfPrefix(a, b, 0, h.littleEndian);
    FieldOfPrefix(a, b, 4, h.littleEndian);
    FieldOfPrefix(a, b, 8, h.littleEndian);
    FieldOfPrefix(a, b, 12, h.littleEndian);
    var included := Field(a, 8, h.littleEndian);
    if RECORD_HEADER + included <= |a| {
      assert (a + b)[RECORD_HEADER..RECORD_HEADER + included] == a[RECORD_HEADER..RECORD_HEADER + included];
    }
  }

  /** Parsing can stop anywhere and be taken up again when more bytes have come. */
  lemma {:induction false} ParseResumes(h: Header, a: seq<byte>, b: seq<byte>, sequence: nat)
    ensures var p := ParseRecords(h, a, sequence);
            var q := ParseRecords(h, p.rest + b, sequence + |p.records|);
            && (p.fault.Some? ==> ParseRecords(h, a + b, sequence) == p.(rest := p.rest + b))
            && (p.fault.None? ==> ParseRecords(h, a + b, sequence) == q.(records := p.records + q.records))
    decreases |a|
  {
    hide FrontOf;
    match FrontOf(h, a, sequence) {
      case NeedMore =>
        var q := ParseRecords(h, a + b, sequence);
        assert [] + q.records == q.records;
      case Bad(_) =>
        FrontIsStable(h, a, b, sequence);
      case Complete(record, length) =>
        FrontIsStable(h, a, b, sequence);
        assert (a + b)[length..] == a[length..] + b;
        ParseResumes(h, a[length..], b, sequence + 1);
        var others := ParseRecords(h, a[length..], sequence + 1);
        if others.fault.None? {
          var q := ParseRecords(h, others.rest + b, sequence + 1 + |others.records|);
          assert [record] + (others.records + q.records) == ([record] + others.records) + q.records;
        }
    }
  }

  /** Nothing more can be parsed from what parsing leaves. */
  lemma {:induction false} ParseLeavesNothing(h: Header, rest: seq<byte>, sequence: nat)
    ensures var p := ParseRecords(h, rest, sequence);
            ParseRecords(h, p.rest, sequence + |p.records|) == Parsed([], p.rest, p.fault)
    decreases |rest|
  {
    hide FrontOf;
    var front := FrontOf(h, rest, sequence);
    if front.Complete? {
      ParseLeavesNothing(h, rest[front.length..], sequence + 1);
    }
  }

  /** What parsing leaves is less than one whole record. */
  lemma {:induction false} ResidueIsShort(h: Header, rest: seq<byte>, sequence: nat)
    ensures var p := ParseRecords(h, rest, sequence);
            p.fault.None? ==> |p.rest| < RECORD_HEADER + (if h.snapLength == 0 then 1 else h.snapLength)
    decreases |rest|
  {
    var front := FrontOf(h, rest, sequence);
    if front.Complete? {
      ResidueIsShort(h, rest[front.length..], sequence + 1);
    }
  }

  // ---------------------------------------------------------------------
  // Writing the same bytes back
  // ---------------------------------------------------------------------

  function HeaderBytes(h: Header): (bytes: seq<byte>)
    ensures |bytes| == GLOBAL_HEADER
  {
    Magic(h.littleEndian, h.resolution) + Fixed(h.major, 2, h.littleEndian) + Fixed(h.minor, 2, h.littleEndian)
      + Fixed(0, 4, h.littleEndian) + Fixed(0, 4, h.littleEndian)
      + Fixed(h.snapLength, 4, h.littleEndian) + Fixed(h.linkType, 4, h.littleEndian)
  }

  function RecordBytes(h: Header, r: Record): seq<byte> {
    Fixed(r.seconds, 4, h.littleEndian) + Fixed(r.fraction, 4, h.littleEndian)
      + Fixed(|r.data|, 4, h.littleEndian) + Fixed(r.originalLength, 4, h.littleEndian) + r.data
  }

  function RecordsBytes(h: Header, records: seq<Record>): seq<byte> {
    if records == [] then [] else RecordBytes(h, records[0]) + RecordsBytes(h, records[1..])
  }

  function FileBytes(h: Header, records: seq<Record>): seq<byte> {
    HeaderBytes(h) + RecordsBytes(h, records)
  }

  /** The same file with global-header bytes 8..15 (time zone and accuracy) set to zero. */
  function CanonicalFile(file: seq<byte>): seq<byte> {
    if |file| < 16 then file else file[..8] + [0, 0, 0, 0, 0, 0, 0, 0] + file[16..]
  }

  lemma ZeroBytes(littleEndian: bool)
    ensures Fixed(0, 4, littleEndian) == [0, 0, 0, 0]
  {
    assert LittleEndian(0, 1) == [0] && BigEndian(0, 1) == [0];
    assert LittleEndian(0, 2) == [0, 0] && BigEndian(0, 2) == [0, 0];
    assert LittleEndian(0, 3) == [0, 0, 0] && BigEndian(0, 3) == [0, 0, 0];
  }

  lemma MagicRestores(magic: seq<byte>)
    requires MagicOf(magic).Some?
    ensures Magic(MagicOf(magic).value.0, MagicOf(magic).value.1) == magic
  {
  }

  lemma HeaderRestores(bytes: seq<byte>)
    requires |bytes| == GLOBAL_HEADER && HeaderOf(bytes).Ok?
    ensures HeaderBytes(HeaderOf(bytes).value) == CanonicalFile(bytes)
  {
    hide Fixed, FromFixed, Magic, MagicOf;
    var h := HeaderOf(bytes).value;
    MagicRestores(bytes[0..4]);
    FixedRestores(bytes[4..6], h.littleEndian);
    FixedRestores(bytes[6..8], h.littleEndian);
    FixedRestores(bytes[16..20], h.littleEndian);
    FixedRestores(bytes[20..24], h.littleEndian);
    ZeroBytes(h.littleEndian);
    assert bytes[..8] == bytes[0..4] + bytes[4..6] + bytes[6..8];
    assert bytes[16..] == bytes[16..20] + bytes[20..24];
  }

  lemma FieldRestores(rest: seq<byte>, at: nat, littleEndian: bool)
    requires at + 4 <= |rest|
    ensures Fixed(Field(rest, at, littleEndian), 4, littleEndian) == rest[at..at + 4]
  {
    FixedRestores(rest[at..at + 4], littleEndian);
  }

  lemma FrontRestores(h: Header, rest: seq<byte>, sequence: nat)
    requires FrontOf(h, rest, sequence).Complete?
    ensures var front := FrontOf(h, rest, sequence);
            RecordBytes(h, front.record) == rest[..front.length]
  {
    hide Fixed, Field;
    FieldRestores(rest, 0, h.littleEndian);
    FieldRestores(rest, 4, h.littleEndian);
    FieldRestores(rest, 8, h.littleEndian);
    FieldRestores(rest, 12, h.littleEndian);
    var length := FrontOf(h, rest, sequence).length;
    assert rest[..length] == rest[0..4] + rest[4..8] + rest[8..12] + rest[12..16] + rest[16..length];
  }

  lemma RecordsBytesFirst(h: Header, r: Record, others: seq<Record>, rest: seq<byte>)
    ensures RecordsBytes(h, [r] + others) + rest == RecordBytes(h, r) + (RecordsBytes(h, others) + rest)
  {
    hide RecordBytes;
    assert ([r] + others)[1..] == others;
  }

  /** Writing out the parsed records gives back exactly the bytes they were parsed from. */
  lemma {:induction false} RecordsRestore(h: Header, rest: seq<byte>, sequence: nat)
    ensures var p := ParseRecords(h, rest, sequence);
            RecordsBytes(h, p.records) + p.rest == rest
    decreases |rest|
  {
    hide FrontOf, RecordBytes, RecordsBytes;
    var front := FrontOf(h, rest, sequence);
    if front.Complete? {
      FrontRestores(h, rest, sequence);
      RecordsRestore(h, rest[front.length..], sequence + 1);
      var others := ParseRecords(h, rest[front.length..], sequence + 1);
      RecordsBytesFirst(h, front.record, others.records, others.rest);
      Halves(rest, front.length);
    } else {
      assert RecordsBytes(h, []) == [] by { NoRecordsBytes(h); }
    }
  }

  lemma Halves(bytes: seq<byte>, at: nat)
    requires at <= |bytes|
    ensures bytes[..at] + bytes[at..] == bytes
  {
  }

  lemma NoRecordsBytes(h: Header)
    ensures RecordsBytes(h, []) == []
  {
  }

  lemma {:induction false} RecordsBytesAppend(h: Header, a: seq<Record>, b: seq<Record>)
    ensures RecordsBytes(h, a + b) == RecordsBytes(h, a) + RecordsBytes(h, b)
  {
    hide RecordBytes;
    if a == [] {
      assert [] + b == b;
    } else {
      assert (a + b)[1..] == a[1..] + b;
      RecordsBytesAppend(h, a[1..], b);
    }
  }
}
