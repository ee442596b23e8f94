/** The authoritative capture file (src/capture/DevicePcapWriter.cpp): every record of one
    USB device address, written back in the source's own byte order. */
module DevicePcapWriter {
  import opened Machine
  import opened Binary
  import opened Pcap
  import opened PcapParsing
  import opened UsbPcapPacket

  /** The constructor's checks of a header. */
  predicate WritableHeader(h: Header) {
    h.major == 2 && h.minor == 4 && h.linkType == USBPCAP_LINK_TYPE && h.snapLength >= MIN_SNAP_LENGTH
  }

  predicate RecordFits(h: Header, r: Record) {
    && r.resolution == h.resolution
    && |r.data| <= h.snapLength
    && |r.data| <= r.originalLength
  }

  /** Append's answer for a record, as far as the disk has no say in it. */
  function RecordFault(h: Header, bus: uint16, device: uint16, r: Record, packet: Packet): Option<Fault> {
    if packet.bus != bus || packet.device != device then Some(IdentityMismatch)
    else if !RecordFits(h, r) then Some(LengthMismatch)
    else if r.UnixNanoseconds().Err? then Some(InvalidTimestamp)
    else None
  }

  class DeviceWriter {
    const header: Header
    const bus: uint16
    const device: uint16
    var output: seq<byte>
    var recordCount: nat
    var payloadBytes: nat
    var finalized: bool

    /** The records written, in order. */
    ghost var records: seq<Record>

    /** What the file holds as long as no write has failed. */
    ghost predicate Valid()
      reads `output, `recordCount, `payloadBytes, `records
    {
      && WritableHeader(header)
      && output == FileBytes(header, records)
      && recordCount == |records|
      && payloadBytes == DataBytes(records)
    }

    constructor (h: Header, bus: uint16, device: uint16)
      requires WritableHeader(h)
      ensures Valid() && records == [] && !finalized
      ensures header == h && this.bus == bus && this.device == device
    {
      header, this.bus, this.device := h, bus, device;
      output, recordCount, payloadBytes, finalized := [], 0, 0, false;
      records := [];
      new;
      WriteHeader();
    }

    method WriteU16(value: uint16)
      modifies `output
      ensures output == old(output) + Fixed(value, 2, header.littleEndian)
    {
      TwoBytes(value);
      var low: byte, high: byte := value % 0x100, value / 0x100;
      output := output + (if header.littleEndian then [low, high] else [high, low]);
    }

    method WriteU32(value: uint32)
      modifies `output
      ensures output == old(output) + Fixed(value, 4, header.littleEndian)
    {
      FourBytes(value);
      var b0: byte, b1: byte := value % 0x100, value / 0x100 % 0x100;
      var b2: byte, b3: byte := value / 0x1_0000 % 0x100, value / 0x100_0000;
      output := output + (if header.littleEndian then [b0, b1, b2, b3] else [b3, b2, b1, b0]);
    }

    method WriteHeader()
      modifies `output
      requires output == []
      ensures output == FileBytes(header, [])
    {
      hide Fixed;
      output := output + Magic(header.littleEndian, header.resolution);
      WriteU16(header.major);
      WriteU16(header.minor);
      WriteU32(0);
      WriteU32(0);
      WriteU32(header.snapLength);
      WriteU32(header.linkType);
      assert [] + Magic(header.littleEndian, header.resolution) == Magic(header.littleEndian, header.resolution);
      assert HeaderBytes(header) + [] == HeaderBytes(header);
    }

    /** The five writes of one record. */
    method WriteRecord(record: Record)
      requires |record.data| <= MAX_UINT32
      modifies `output
      ensures output == old(output) + RecordBytes(header, record)
    {
      hide Fixed;
      ghost var start := output;
      var little := header.littleEndian;
      WriteU32(record.seconds);
      WriteU32(record.fraction);
      WriteU32(|record.data|);
      WriteU32(record.originalLength);
      output := output + record.data;
      Regroup(start, Fixed(record.seconds, 4, little), Fixed(record.fraction, 4, little),
              Fixed(|record.data|, 4, little), Fixed(record.originalLength, 4, little), record.data);
    }

    method Append(record: Record, packet: Packet, diskOk: bool) returns (result: Result<(), Fault>)
      requires Valid()
      modifies this
      ensures finalized == old(finalized)
      ensures result == (if old(finalized) then Err(Finalized)
                         else
                           match RecordFault(header, bus, device, record, packet)
                           case Some(fault) => Err(fault)
                           case None => if diskOk then Ok(()) else Err(WriteFailed))
      ensures result.Ok? ==> Valid() && records == old(records) + [record]
      ensures result.Err? && result != Err(WriteFailed) ==> unchanged(this)
    {
      hide RecordBytes, FileBytes, DataBytes;
      if finalized {
        return Err(Finalized);
      }
      if packet.bus != bus || packet.device != device {
        return Err(IdentityMismatch);
      }
      if record.resolution != header.resolution || |record.data| > header.snapLength
         || |record.data| > record.originalLength || |record.data| > MAX_UINT32 {
        return Err(LengthMismatch);
      }
      if record.UnixNanoseconds().Err? {
        return Err(InvalidTimestamp);
      }
      if !diskOk {
        return Err(WriteFailed);
      }
      WriteRecord(record);
      FileGrows(header, records, record);
      DataBytesGrow(records, record);
      recordCount := recordCount + 1;
      payloadBytes := payloadBytes + |record.data|;
      records := records + [record];
      return Ok(());
    }

    /** Flush to disk; the file's bytes are not touched. */
    method Checkpoint(diskOk: bool) returns (result: Result<(), Fault>)
      ensures result == (if diskOk then Ok(()) else Err(WriteFailed))
    {
      return if diskOk then Ok(()) else Err(WriteFailed);
    }

    method Finalize(diskOk: bool) returns (result: Result<(), Fault>)
      requires Valid()
      modifies `finalized
      ensures result == (if old(finalized) then Err(Finalized) else if diskOk then Ok(()) else Err(WriteFailed))
      ensures finalized == (old(finalized) || result.Ok?)
    {
      if finalized {
        return Err(Finalized);
      }
      if !diskOk {
        return Err(WriteFailed);
      }
      finalized := true;
      return Ok(());
    }
  }

  lemma TwoBytes(value: uint16)
    ensures LittleEndian(value, 2) == [value % 0x100, value / 0x100]
    ensures BigEndian(value, 2) == [value / 0x100, value % 0x100]
  {
  }

  /** The fourth byte is what is left of the value after three shifts by eight bits. */
  lemma FourBytes(value: uint32)
    ensures LittleEndian(value, 4)
         == [value % 0x100, value / 0x100 % 0x100, value / 0x1_0000 % 0x100, value / 0x100_0000]
    ensures BigEndian(value, 4)
         == [value / 0x100_0000, value / 0x1_0000 % 0x100, value / 0x100 % 0x100, value % 0x100]
  {
    var second := value / 0x100;
    var third := second / 0x100;
    var fourth := third / 0x100;
    assert third == value / 0x1_0000 && fourth == value / 0x100_0000 < 0x100;
    assert LittleEndian(fourth, 1) == [fourth] == BigEndian(fourth, 1);
    assert LittleEndian(third, 2) == [third % 0x100, fourth] && BigEndian(third, 2) == [fourth, third % 0x100];
    assert LittleEndian(second, 3) == [second % 0x100, third % 0x100, fourth];
    assert BigEndian(second, 3) == [fourth, third % 0x100, second % 0x100];
  }

  lemma FileGrows(h: Header, records: seq<Record>, r: Record)
    ensures FileBytes(h, records + [r]) == FileBytes(h, records) + RecordBytes(h, r)
  {
    hide RecordBytes, HeaderBytes;
    RecordsBytesAppend(h, records, [r]);
    assert [r][1..] == [];
    assert RecordBytes(h, r) + [] == RecordBytes(h, r);
    assert HeaderBytes(h) + RecordsBytes(h, records) + RecordBytes(h, r)
        == HeaderBytes(h) + (RecordsBytes(h, records) + RecordBytes(h, r));
  }

  lemma Regroup(start: seq<byte>, a: seq<byte>, b: seq<byte>, c: seq<byte>, d: seq<byte>, e: seq<byte>)
    ensures ((((start + a) + b) + c) + d) + e == start + ((((a + b) + c) + d) + e)
  {
    Assoc(start, a, b);
    Assoc(start, a + b, c);
    Assoc(start, a + b + c, d);
    Assoc(start, a + b + c + d, e);
  }

  // ---------------------------------------------------------------------
  // What the parser delivers, the writer takes
  // ---------------------------------------------------------------------

  /** A parsed record passes every check Append makes of it besides the device address. */
  lemma ParsedRecordFits(h: Header, rest: seq<byte>, sequence: nat)
    requires FrontOf(h, rest, sequence).Complete?
    ensures RecordFits(h, FrontOf(h, rest, sequence).record)
    ensures FrontOf(h, rest, sequence).record.UnixNanoseconds().Ok?
    ensures FrontOf(h, rest, sequence).record.sequence == sequence
    ensures |FrontOf(h, rest, sequence).record.data| + RECORD_HEADER == FrontOf(h, rest, sequence).length
  {
  }

  /** Records numbered from `first`, each writable under `h`. */
  ghost predicate Numbered(h: Header, records: seq<Record>, first: nat) {
    forall i :: 0 <= i < |records| ==>
      records[i].sequence == first + i && RecordFits(h, records[i]) && records[i].UnixNanoseconds().Ok?
  }

  function DataBytes(records: seq<Record>): nat {
    if records == [] then 0 else |records[0].data| + DataBytes(records[1..])
  }

  lemma {:induction false} DataBytesGrow(records: seq<Record>, r: Record)
    ensures DataBytes(records + [r]) == DataBytes(records) + |r.data|
  {
    if records == [] {
      assert [r][1..] == [];
    } else {
      assert (records + [r])[1..] == records[1..] + [r];
      DataBytesGrow(records[1..], r);
    }
  }

  lemma {:induction false} ParsedRecordsFit(h: Header, rest: seq<byte>, sequence: nat)
    ensures var p := ParseRecords(h, rest, sequence);
            && Numbered(h, p.records, sequence)
            && DataBytes(p.records) + RECORD_HEADER * |p.records| + |p.rest| == |rest|
    decreases |rest|
  {
    hide FrontOf, RecordFits;
    var front := FrontOf(h, rest, sequence);
    if front.Complete? {
      ParsedRecordFits(h, rest, sequence);
      ParsedRecordsFit(h, rest[front.length..], sequence + 1);
      var others := ParseRecords(h, rest[front.length..], sequence + 1).records;
      assert ([front.record] + others)[1..] == others;
      forall i | 0 <= i < |[front.record] + others|
        ensures ([front.record] + others)[i].sequence == sequence + i
                && RecordFits(h, ([front.record] + others)[i])
                && ([front.record] + others)[i].UnixNanoseconds().Ok?
      {
        if i > 0 {
          assert ([front.record] + others)[i] == others[i - 1];
        }
      }
    }
  }

  // ---------------------------------------------------------------------
  // The copy theorem
  // ---------------------------------------------------------------------

  /** Writing out all the records of a file that parses to its end gives the file back, byte
      for byte, with global-header bytes 8..15 zeroed. */
  lemma WholeFileCopied(file: seq<byte>)
    requires ReadPcap(file).Ok?
    ensures FileBytes(ReadPcap(file).value.0, ReadPcap(file).value.1) == CanonicalFile(file)
  {
    hide HeaderOf, ParseRecords, ReadRecords, HeaderBytes, RecordsBytes;
    var h := ReadPcap(file).value.0;
    var rest := file[GLOBAL_HEADER..];
    HeaderRestores(file[..GLOBAL_HEADER]);
    ReadingIsParsing(h, rest, 0);
    RecordsRestore(h, rest, 0);
    var p := ParseRecords(h, rest, 0);
    assert RecordsBytes(h, p.records) + [] == RecordsBytes(h, p.records);
    CanonicalSplits(file);
  }

  lemma CanonicalSplits(file: seq<byte>)
    requires |file| >= GLOBAL_HEADER
    ensures CanonicalFile(file) == CanonicalFile(file[..GLOBAL_HEADER]) + file[GLOBAL_HEADER..]
  {
    var head := file[..GLOBAL_HEADER];
    assert head[..8] == file[..8] && head[16..] + file[GLOBAL_HEADER..] == file[16..];
  }

  /** Zeroing those bytes changes nothing a reader sees. */
  lemma CanonicalReadsSame(file: seq<byte>)
    requires |file| >= GLOBAL_HEADER
    ensures ReadPcap(CanonicalFile(file)) == ReadPcap(file)
  {
    hide MagicOf, FromFixed, ReadRecords;
    var copy := CanonicalFile(file);
    var a, b := file[..GLOBAL_HEADER], copy[..GLOBAL_HEADER];
    forall i | 0 <= i < GLOBAL_HEADER && !(8 <= i < 16)
      ensures a[i] == b[i]
    {
      assert a[i] == file[i] && b[i] == copy[i];
      assert i >= 16 ==> copy[i] == file[16..][i - 16];
    }
    assert a[0..4] == b[0..4];
    assert a[4..6] == b[4..6];
    assert a[6..8] == b[6..8];
    assert a[16..20] == b[16..20];
    assert a[20..24] == b[20..24];
    assert copy[GLOBAL_HEADER..] == file[GLOBAL_HEADER..];
  }
}
