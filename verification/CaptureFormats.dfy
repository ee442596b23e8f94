/** The two capture formats by their own documents: the fields of a PCAP file
    (draft-ietf-opsawg-pcap, sections 4 and 5) and of a USBPcap packet, written down in
    order, and what the readers make of bytes laid out so. */
module CaptureFormats {
  import opened Machine
  import opened Binary
  import opened Pcap
  import opened PcapParsing
  import U = UsbPcapPacket

  // ---------------------------------------------------------------------
  // Fields in a row
  // ---------------------------------------------------------------------

  /** Where a part of a concatenation lies. */
  lemma PartAt<T>(before: seq<T>, part: seq<T>, after: seq<T>)
    ensures (before + part + after)[|before|..|before| + |part|] == part
    ensures (before + part + after)[|before| + |part|..] == after
  {
  }

  lemma FieldAt(before: seq<byte>, value: nat, width: nat, after: seq<byte>, littleEndian: bool)
    requires value < Pow256(width)
    ensures var bytes := before + Fixed(value, width, littleEndian) + after;
            FromFixed(bytes[|before|..|before| + width], littleEndian) == value
  {
    PartAt(before, Fixed(value, width, littleEndian), after);
    FixedRoundTrip(value, width, littleEndian);
  }

  // ---------------------------------------------------------------------
  // PCAP records
  // ---------------------------------------------------------------------

  /** Section 5: seconds, fraction, captured length, original length, then the data. */
  function RecordLayout(littleEndian: bool, r: Record): (bytes: seq<byte>)
    ensures |bytes| == RECORD_HEADER + |r.data|
  {
    Fixed(r.seconds, 4, littleEndian) + Fixed(r.fraction, 4, littleEndian)
      + Fixed(|r.data|, 4, littleEndian) + Fixed(r.originalLength, 4, littleEndian) + r.data
  }

  function UnitsPerSecond(resolution: Resolution): nat {
    if resolution == Microseconds then 1_000_000 else 1_000_000_000
  }

  /** The captured bytes are within both limits. */
  predicate LengthsFit(h: Header, r: Record) {
    |r.data| <= h.snapLength && |r.data| <= r.originalLength
  }

  predicate FractionFits(r: Record) {
    r.fraction < UnitsPerSecond(r.resolution)
  }

  /** A record of the file whose header is `h`. */
  predicate Plausible(h: Header, r: Record) {
    r.resolution == h.resolution && LengthsFit(h, r) && FractionFits(r)
  }

  /** A record has a time exactly when its fraction is less than a second, and that time is
      the number of units since 1970, a thousand nanoseconds or one nanosecond each. */
  lemma TimeExact(r: Record)
    ensures r.UnixNanoseconds().Ok? <==> FractionFits(r)
    ensures r.UnixNanoseconds().Ok? && r.resolution == Microseconds ==>
              r.UnixNanoseconds().value == (r.seconds * 1_000_000 + r.fraction) * 1_000
    ensures r.UnixNanoseconds().Ok? && r.resolution == Nanoseconds ==>
              r.UnixNanoseconds().value == r.seconds * 1_000_000_000 + r.fraction
  {
  }

  lemma FieldIs(rest: seq<byte>, before: seq<byte>, value: uint32, after: seq<byte>, littleEndian: bool)
    requires rest == before + Fixed(value, 4, littleEndian) + after
    ensures |before| + 4 <= |rest| && Field(rest, |before|, littleEndian) == value
  {
    hide Fixed, FromFixed, Pow256;
    Widths();
    FieldAt(before, value, 4, after, littleEndian);
  }

  lemma RecordFields(littleEndian: bool, r: Record, tail: seq<byte>)
    requires |r.data| <= MAX_UINT32
    ensures var rest := RecordLayout(littleEndian, r) + tail;
            && Field(rest, 0, littleEndian) == r.seconds
            && Field(rest, 4, littleEndian) == r.fraction
            && Field(rest, 8, littleEndian) == |r.data|
            && Field(rest, 12, littleEndian) == r.originalLength
            && rest[RECORD_HEADER..RECORD_HEADER + |r.data|] == r.data
            && rest[RECORD_HEADER + |r.data|..] == tail
  {
    hide Fixed, Field;
    var a, b := Fixed(r.seconds, 4, littleEndian), Fixed(r.fraction, 4, littleEndian);
    var c, d := Fixed(|r.data|, 4, littleEndian), Fixed(r.originalLength, 4, littleEndian);
    var rest := RecordLayout(littleEndian, r) + tail;
    var back := r.data + tail;
    assert rest == a + b + c + d + back;
    FieldIs(rest, [], r.seconds, b + c + d + back, littleEndian);
    FieldIs(rest, a, r.fraction, c + d + back, littleEndian);
    FieldIs(rest, a + b, |r.data|, d + back, littleEndian);
    FieldIs(rest, a + b + c, r.originalLength, back, littleEndian);
    PartAt(a + b + c + d, r.data, tail);
  }

  /** What the parser sees at the front of a record's bytes: the record, or why it is refused. */
  lemma FrontOfLayout(h: Header, r: Record, tail: seq<byte>)
    requires r.resolution == h.resolution && |r.data| <= MAX_UINT32
    ensures FrontOf(h, RecordLayout(h.littleEndian, r) + tail, r.sequence)
         == (if !LengthsFit(h, r) then Bad(UnsafeLength)
             else if !FractionFits(r) then Bad(InvalidTimestamp)
             else Complete(r, RECORD_HEADER + |r.data|))
  {
    hide Field, RecordLayout;
    RecordFields(h.littleEndian, r, tail);
    TimeExact(r);
  }

  function RecordsLayout(littleEndian: bool, records: seq<Record>): seq<byte> {
    if records == [] then [] else RecordLayout(littleEndian, records[0]) + RecordsLayout(littleEndian, records[1..])
  }

  /** Records as a reader numbers them, of one resolution and of a length that 32 bits hold. */
  ghost predicate InOrder(h: Header, records: seq<Record>, first: nat) {
    forall i :: 0 <= i < |records| ==>
      && records[i].sequence == first + i
      && records[i].resolution == h.resolution
      && |records[i].data| <= MAX_UINT32
  }

  lemma InOrderRest(h: Header, records: seq<Record>, first: nat)
    requires InOrder(h, records, first) && records != []
    ensures InOrder(h, records[1..], first + 1)
  {
    forall i | 0 <= i < |records[1..]|
      ensures records[1..][i].sequence == first + 1 + i
              && records[1..][i].resolution == h.resolution && |records[1..][i].data| <= MAX_UINT32
    {
      assert records[1..][i] == records[1 + i];
    }
  }

  /** The first record that is out of bounds, or their number. */
  ghost function FirstImplausible(h: Header, records: seq<Record>): (n: nat)
    ensures n <= |records|
    ensures forall i :: 0 <= i < n ==> Plausible(h, records[i])
    ensures n < |records| ==> !Plausible(h, records[n])
  {
    if records == [] || !Plausible(h, records[0]) then 0
    else
      var n := FirstImplausible(h, records[1..]);
      assert forall i :: 0 < i < n + 1 ==> records[i] == records[1..][i - 1];
      n + 1
  }

  /** One step of parsing. */
  lemma FirstParsed(h: Header, records: seq<Record>, first: nat)
    requires InOrder(h, records, first) && records != []
    ensures var r, tail := records[0], RecordsLayout(h.littleEndian, records[1..]);
            var p, others := ParseRecords(h, RecordsLayout(h.littleEndian, records), first),
                             ParseRecords(h, tail, first + 1);
            p == (if Plausible(h, r) then others.(records := [r] + others.records)
                  else
                    Parsed([], RecordsLayout(h.littleEndian, records),
                           Some(if !LengthsFit(h, r) then UnsafeLength else InvalidTimestamp)))
  {
    hide FrontOf, RecordLayout, LengthsFit, FractionFits;
    var r, tail := records[0], RecordsLayout(h.littleEndian, records[1..]);
    FrontOfLayout(h, r, tail);
    assert (RecordLayout(h.littleEndian, r) + tail)[RECORD_HEADER + |r.data|..] == tail;
  }

  /** Any records laid out one after the other parse to exactly those before the first
      implausible one, and that one is refused for its lengths or else its fraction. */
  lemma {:induction false} RecordsReadBack(h: Header, records: seq<Record>, first: nat)
    requires InOrder(h, records, first)
    ensures var p := ParseRecords(h, RecordsLayout(h.littleEndian, records), first);
            var n := FirstImplausible(h, records);
            && p.records == records[..n]
            && p.rest == RecordsLayout(h.littleEndian, records[n..])
            && p.fault == (if n == |records| then None
                           else if !LengthsFit(h, records[n]) then Some(UnsafeLength)
                           else Some(InvalidTimestamp))
  {
    hide LengthsFit, FractionFits, Plausible, FrontOf, RecordLayout;
    if records == [] {
      EmptyNeedsMore(h, first);
    } else {
      FirstParsed(h, records, first);
      InOrderRest(h, records, first);
      hide ParseRecords, RecordsLayout, InOrder;
      RecordsReadBack(h, records[1..], first + 1);
      if Plausible(h, records[0]) {
        var n := FirstImplausible(h, records[1..]);
        assert records[..n + 1] == [records[0]] + records[1..][..n];
        assert records[n + 1..] == records[1..][n..];
      } else {
        assert records[..0] == [] && records[0..] == records;
      }
    }
  }

  // ---------------------------------------------------------------------
  // PCAP files
  // ---------------------------------------------------------------------

  /** The magic number as a value: the byte order is which end of it comes first. */
  function MagicNumber(resolution: Resolution): uint32 {
    if resolution == Microseconds then 0xa1b2_c3d4 else 0xa1b2_3c4d
  }

  /** Section 4: magic, version, two reserved words, snapshot length, link type. */
  function HeaderLayout(h: Header): (bytes: seq<byte>)
    ensures |bytes| == GLOBAL_HEADER
  {
    Fixed(MagicNumber(h.resolution), 4, h.littleEndian) + Fixed(h.major, 2, h.littleEndian)
      + Fixed(h.minor, 2, h.littleEndian) + Fixed(0, 4, h.littleEndian) + Fixed(0, 4, h.littleEndian)
      + Fixed(h.snapLength, 4, h.littleEndian) + Fixed(h.linkType, 4, h.littleEndian)
  }

  function FileLayout(h: Header, records: seq<Record>): seq<byte> {
    HeaderLayout(h) + RecordsLayout(h.littleEndian, records)
  }

  lemma MagicBytes(h: Header)
    ensures Fixed(MagicNumber(h.resolution), 4, h.littleEndian) == Magic(h.littleEndian, h.resolution)
  {
    FourLittle(0xa1b2_c3d4, 0xd4, 0xc3, 0xb2, 0xa1);
    FourLittle(0xa1b2_3c4d, 0x4d, 0x3c, 0xb2, 0xa1);
  }

  lemma FourLittle(value: uint32, a: byte, b: byte, c: byte, d: byte)
    requires value == a + 256 * (b + 256 * (c + 256 * d))
    ensures LittleEndian(value, 4) == [a, b, c, d] && BigEndian(value, 4) == [d, c, b, a]
  {
    assert value / 256 == b + 256 * (c + 256 * d);
    assert value / 256 / 256 == c + 256 * d;
    assert LittleEndian(d, 1) == [d] == BigEndian(d, 1);
    assert LittleEndian(c + 256 * d, 2) == [c, d] && BigEndian(c + 256 * d, 2) == [d, c];
    assert LittleEndian(value / 256, 3) == [b, c, d] && BigEndian(value / 256, 3) == [d, c, b];
  }

  lemma MagicOfMagic(littleEndian: bool, resolution: Resolution)
    ensures MagicOf(Magic(littleEndian, resolution)) == Some((littleEndian, resolution))
  {
  }

  lemma HeaderFields(h: Header)
    ensures var bytes := HeaderLayout(h);
            && MagicOf(bytes[0..4]) == Some((h.littleEndian, h.resolution))
            && FromFixed(bytes[4..6], h.littleEndian) == h.major
            && FromFixed(bytes[6..8], h.littleEndian) == h.minor
            && FromFixed(bytes[16..20], h.littleEndian) == h.snapLength
            && FromFixed(bytes[20..24], h.littleEndian) == h.linkType
  {
    hide Fixed, FromFixed, Pow256, Magic, MagicOf, MagicNumber;
    MagicBytes(h);
    MagicOfMagic(h.littleEndian, h.resolution);
    Widths();
    var bytes := HeaderLayout(h);
    var little := h.littleEndian;
    var m, a, b := Fixed(MagicNumber(h.resolution), 4, little), Fixed(h.major, 2, little), Fixed(h.minor, 2, little);
    var z, s, l := Fixed(0, 4, little), Fixed(h.snapLength, 4, little), Fixed(h.linkType, 4, little);
    assert bytes == m + a + b + z + z + s + l;
    assert bytes[0..4] == m;
    assert bytes == m + a + (b + z + z + s + l);
    assert bytes == (m + a) + b + (z + z + s + l);
    assert bytes == (m + a + b + z + z) + s + l;
    assert bytes == (m + a + b + z + z + s) + l + [];
    FieldAt(m, h.major, 2, b + z + z + s + l, little);
    FieldAt(m + a, h.minor, 2, z + z + s + l, little);
    FieldAt(m + a + b + z + z, h.snapLength, 4, l, little);
    FieldAt(m + a + b + z + z + s, h.linkType, 4, [], little);
  }

  /** A header is read back exactly when it is a valid one; version, snapshot length and
      link type are refused in this order. */
  lemma HeaderReadsBack(h: Header)
    ensures HeaderOf(HeaderLayout(h))
         == (if h.major != 2 || h.minor != 4 then Err(UnsupportedVersion)
             else if !(MIN_SNAP_LENGTH <= h.snapLength <= MAX_SNAP_LENGTH) then Err(UnsafeLength)
             else if h.linkType != USBPCAP_LINK_TYPE then Err(BadMagic)
             else Ok(h))
  {
    hide MagicOf, FromFixed, HeaderLayout;
    HeaderFields(h);
  }

  lemma NoRecordsLaidOut(littleEndian: bool, records: seq<Record>)
    requires records == []
    ensures RecordsLayout(littleEndian, records) == []
  {
  }

  /** A PCAP file reads back to its header and records exactly when the header is valid and
      every record is plausible: no more is lost, nothing less is let through. */
  lemma FileReadsBack(h: Header, records: seq<Record>)
    requires InOrder(h, records, 0)
    ensures ReadPcap(FileLayout(h, records)) == Ok((h, records)) <==>
              ValidHeader(h) && forall r :: r in records ==> Plausible(h, r)
  {
    hide HeaderOf, HeaderLayout, ParseRecords, ReadRecords, RecordsLayout, Plausible;
    var file := FileLayout(h, records);
    assert file[..GLOBAL_HEADER] == HeaderLayout(h);
    assert file[GLOBAL_HEADER..] == RecordsLayout(h.littleEndian, records);
    HeaderReadsBack(h);
    ReadingIsParsing(h, RecordsLayout(h.littleEndian, records), 0);
    RecordsReadBack(h, records, 0);
    var n := FirstImplausible(h, records);
    if n == |records| {
      assert records[..n] == records;
      NoRecordsLaidOut(h.littleEndian, records[n..]);
    } else {
      assert records[n] in records;
    }
  }

  lemma {:induction false} RecordsWritten(h: Header, records: seq<Record>)
    ensures RecordsBytes(h, records) == RecordsLayout(h.littleEndian, records)
  {
    if records == [] {
    } else {
      RecordsWritten(h, records[1..]);
    }
  }

  /** The device writer's bytes are the format's. */
  lemma WrittenIsLayout(h: Header, records: seq<Record>)
    ensures FileBytes(h, records) == FileLayout(h, records)
  {
    hide Magic, Fixed;
    MagicBytes(h);
    RecordsWritten(h, records);
  }

  // ---------------------------------------------------------------------
  // USBPcap packets
  // ---------------------------------------------------------------------

  /** USBPCAP_BUFFER_PACKET_HEADER, little-endian and packed, then whatever else the header
      length covers, then the data. */
  function PacketLayout(p: U.Packet, extra: seq<byte>): (bytes: seq<byte>)
    ensures |bytes| == U.BASE_HEADER + |extra| + |p.payload|
  {
    LittleEndian(p.headerLength, 2) + LittleEndian(p.irpId, 8) + LittleEndian(p.status, 4)
      + LittleEndian(p.urbFunction, 2) + [p.info] + LittleEndian(p.bus, 2) + LittleEndian(p.device, 2)
      + [p.endpoint, p.transfer] + LittleEndian(p.declaredDataLength, 4) + extra + p.payload
  }

  lemma LittleAt(bytes: seq<byte>, before: seq<byte>, value: nat, width: nat, after: seq<byte>)
    requires bytes == before + LittleEndian(value, width) + after
    requires value < Pow256(width)
    ensures FromLittleEndian(bytes[|before|..|before| + width]) == value
  {
    FieldAt(before, value, width, after, true);
  }

  lemma PacketFields(p: U.Packet, extra: seq<byte>)
    ensures var bytes := PacketLayout(p, extra);
            && U.BaseHeader(bytes) == p.(payloadTruncated := false, payload := [])
            && bytes[U.BASE_HEADER + |extra|..] == p.payload
  {
    hide LittleEndian, FromLittleEndian, Pow256;
    Widths();
    var bytes := PacketLayout(p, extra);
    var a, b, c := LittleEndian(p.headerLength, 2), LittleEndian(p.irpId, 8), LittleEndian(p.status, 4);
    var d, e, f := LittleEndian(p.urbFunction, 2), LittleEndian(p.bus, 2), LittleEndian(p.device, 2);
    var i, g, n := [p.info], [p.endpoint, p.transfer], LittleEndian(p.declaredDataLength, 4);
    var tail := extra + p.payload;
    assert bytes == a + b + c + d + i + e + f + g + n + tail;
    var front := a + b + c + d + i;
    var back := e + f + g + n + tail;
    assert bytes == front + back;
    assert bytes == [] + a + (b + c + d + i + back);
    assert bytes == a + b + (c + d + i + back);
    assert bytes == (a + b) + c + (d + i + back);
    assert bytes == (a + b + c) + d + (i + back);
    assert bytes == front + e + (f + g + n + tail);
    assert bytes == (front + e) + f + (g + n + tail);
    assert bytes == (front + e + f + g) + n + tail;
    LittleAt(bytes, [], p.headerLength, 2, b + c + d + i + back);
    LittleAt(bytes, a, p.irpId, 8, c + d + i + back);
    LittleAt(bytes, a + b, p.status, 4, d + i + back);
    LittleAt(bytes, a + b + c, p.urbFunction, 2, i + back);
    LittleAt(bytes, front, p.bus, 2, f + g + n + tail);
    LittleAt(bytes, front + e, p.device, 2, g + n + tail);
    LittleAt(bytes, front + e + f + g, p.declaredDataLength, 4, tail);
  }

  /** A packet in the layout reads back whole exactly when its info byte is 0 or 1, its
      payload is at most the declared data, it says truthfully whether the payload was cut,
      and the PCAP original length is that of the uncut packet. */
  lemma PacketReadsBack(p: U.Packet, extra: seq<byte>, original: uint32)
    requires p.headerLength == U.BASE_HEADER + |extra|
    ensures U.Parse(PacketLayout(p, extra), Some(original)) == Ok(p) <==>
              && p.info <= 1
              && |p.payload| <= p.declaredDataLength
              && (p.payloadTruncated <==> |p.payload| < p.declaredDataLength)
              && original == p.headerLength + p.declaredDataLength
    ensures U.Parse(PacketLayout(p, extra), None) == Ok(p) <==>
              p.info <= 1 && |p.payload| == p.declaredDataLength && !p.payloadTruncated
  {
    hide PacketLayout, U.BaseHeader;
    PacketFields(p, extra);
    var bytes := PacketLayout(p, extra);
    if |p.payload| == p.declaredDataLength {
      assert bytes[p.headerLength..p.headerLength + p.declaredDataLength] == bytes[p.headerLength..];
    }
  }

  lemma BytesInRow(bytes: seq<byte>, at: nat)
    requires U.BASE_HEADER <= at <= |bytes|
    ensures bytes == bytes[0..2] + bytes[2..10] + bytes[10..14] + bytes[14..16] + [bytes[16]] + bytes[17..19]
                     + bytes[19..21] + [bytes[21], bytes[22]] + bytes[23..27] + bytes[27..at] + bytes[at..]
  {
  }

  lemma AcceptedHeader(bytes: seq<byte>, original: Option<uint32>)
    requires U.Parse(bytes, original).Ok?
    ensures var p := U.Parse(bytes, original).value;
            && U.BASE_HEADER <= p.headerLength <= |bytes|
            && p == U.BaseHeader(bytes).(payloadTruncated := p.payloadTruncated, payload := p.payload)
            && p.payload == bytes[p.headerLength..]
  {
    hide U.BaseHeader;
  }

  /** Nothing else is accepted: every accepted record is the layout of the packet it was
      parsed to. */
  lemma PacketRestores(bytes: seq<byte>, original: Option<uint32>)
    requires U.Parse(bytes, original).Ok?
    ensures var p := U.Parse(bytes, original).value;
            && U.BASE_HEADER <= p.headerLength <= |bytes|
            && PacketLayout(p, bytes[U.BASE_HEADER..p.headerLength]) == bytes
  {
    hide LittleEndian, FromLittleEndian, Pow256, U.Parse;
    AcceptedHeader(bytes, original);
    LittleRestores(bytes, 0, 2);
    LittleRestores(bytes, 2, 8);
    LittleRestores(bytes, 10, 4);
    LittleRestores(bytes, 14, 2);
    LittleRestores(bytes, 17, 2);
    LittleRestores(bytes, 19, 2);
    LittleRestores(bytes, 23, 4);
    BytesInRow(bytes, U.Parse(bytes, original).value.headerLength);
  }

  lemma LittleRestores(bytes: seq<byte>, at: nat, width: nat)
    requires at + width <= |bytes|
    ensures LittleEndian(FromLittleEndian(bytes[at..at + width]), width) == bytes[at..at + width]
  {
    FixedRestores(bytes[at..at + width], true);
  }
}
