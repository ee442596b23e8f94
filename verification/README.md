# Verified model of the mouse-capture data path

This project models, in Dafny, the part of the collector that turns a USB packet capture
into the products of a recording session, and the pure algorithms and protocols around it.
`dafny verify dfyconfig.toml` checks the whole project.

## What is modelled

**The capture path, bytes in to bytes out.** The native source delivers a classic PCAP
file of link type USBPCAP (draft-ietf-opsawg-pcap, sections 4 and 5) in chunks of any size.
`PcapParsing` holds the incremental parser and the one-shot reader, `DevicePcapWriter` the
authoritative copy of one device's records, `UsbPcapPacket`, `HidDescriptor` and
`HidMouseDecoder` (USB HID 1.11, section 6.2.2) the interpretation of interrupt transfers,
`MouseReportExtractor` the numbering and quality flags of the reports, and `ReportCodec`,
`ReportReading` and `ReportStream` the delta, varint and zigzag coded stream of CRC-framed
blocks (RFC 1952, section 8, in `Crc32`). `Inspector` is the second reader of that stream,
written in Python. `CapturePipeline` is the object that ties these together and
`CaptureWorker` its loop; `CaptureSteps` describes both on values.

Beside the functions that compute stand modules that say what the results mean, in terms of
the bytes and fields alone. `CaptureFormats` has the PCAP and USBPcap layouts field by field;
`HidDeclarations` writes what a device declares as HID items and reads it back;
`HidAcceptance` and `HidMouseAcceptance` say exactly which descriptors are accepted and which
make a mouse; `HidMouseMeaning` tells every decoded number by the declared fields;
`ExtractionMeaning` and `CaptureMeaning` tell the reports of one record and of a whole file.

The results build on each other: parsing does not depend on the chunking, every parsed
record passes the checks of the device writer, every extracted report passes those of the
stream writer and of the inspector, a finished stream reads back to what was appended, and
so a run of the worker that ends clean has published a byte-for-byte copy of the source
(global-header bytes 8 to 15 zeroed) and a report file that both readers read as exactly
what the records of that copy yield. When the disk works and nothing outside the source
goes wrong, a run ends clean if and only if the source is a whole file of the certified
device.

**Two printers with their parsers.** `Json`, `JsonRoundTrip` and `JsonText` hold the JSON
parser and the canonical dumper; `JsonGrammar` and `JsonNumbers` are the grammar of RFC 8259,
sections 2 to 7, as syntax trees, and `JsonReading` proves that the parser reads exactly the
texts of this grammar. `CommandLine` is the quoting of the helper process's arguments, with
the Microsoft splitting rule as its specification.

**The dense 1 ms derivation.** `MillisecondGrid` is its exact int64 arithmetic,
`MillisecondBins` and `MillisecondLaws` say what every bin holds and what follows
(conservation, telescoping, chained button edges, independence of the input order), and
`MillisecondDeriver` has the loops that compute it and the exact conditions under which
they succeed. `MillisecondMeaning` tells every number, button, edge and flag of a bin by the
reports alone.

**State machines and protocols.** `LiveReportMirror` is a file that one process appends to
while another follows it, `ParticipantFlow` the participant's way through a session and
`ParticipantHistory` the same told by the events taken, `CaptureHelperClient` the life of the
elevated helper process under arbitrary answers of the operating system, and
`CertificationProbe` the evidence of the exact-address certification probe, which
`CertificationMeaning` tells by the packets alone.

## How it is modelled

- An integer of the source is a mathematical integer with its range as a subset type
  (`Machine`); wrapping, truncating division and unsigned images are written out.
- An object whose methods update its fields is a class with those fields; its methods are
  proved against functions of the old state, and the lemmas are about those functions.
- A file is a sequence of bytes. Foreign calls appear as parameters that can be anything:
  the disk's answers to writes, the polls of the capture source, the platform's answers
  about a process, how many bytes of a file another process sees.
- An exception is a `Result` with a code. Message texts are not kept.

## Where code and documentation disagree

- src/acquisition/CaptureWorker.cpp:671-673 says that at a framing or identity fault every
  complete record of the device before it is preserved. The parser throws away the records it
  has parsed in the same call (src/capture/StreamingPcapParser.cpp:15, 30-37), and a chunk that
  does not fit in its buffer is refused in the same way. So at a refused chunk this holds if and
  only if the chunk completes no record, or first of all one that is itself refused, such as one
  of another device (`CaptureWorker.PreservedIff`); `CaptureWorker.CompleteRecordLost` is a
  source for which it does not.
- src/capture/LiveReportMirror.cpp:208-213 is the final check of a followed file. It reads
  the frames that are still there but hands them to nobody, so passing it does not mean that
  all reports were delivered (`LiveReportMirror.CleanButUndelivered`). `LiveReportMirror.Follow`
  proves when they are: if and only if some take before it saw the last frame whole, and, what
  a caller can look at just before the check, if and only if less than a frame is unread.
- src/capture/LiveReportMirror.cpp:95-129 does not refuse an append after one that failed in
  the middle of a frame. The frames after the bytes left behind are then read at the wrong
  places: `LiveReportMirror.TornScript` has inputs for which a take fails, and inputs for which
  it hands on a report whose append had failed. `LiveReportMirror.Follow` proves that neither
  happens as long as no take sees a frame's worth of bytes there.
- The collector's varint reader accepts encodings with empty high groups, the inspector's
  refuses them (`Binary.ReadersDiffer`; `Binary.ReadersAgreeIff` says exactly when they agree).
  They agree on everything the writer produces, which is what the theorems on `Inspector` are
  about.
- src/capture/ReportStream.cpp:101-141 can throw after bytes of the report have been pushed.
  `ReportStreamWriter.Append` promises nothing about the writer's state after such a failure;
  the pipeline drops the writer then.

## Model

| member | source | states |
|---|---|---|
| Binary.FixedRoundTrip | src/base/Binary.cpp:14-66 | a fixed-width integer of either byte order reads back to the value written, for every width |
| Binary.FixedRestores | src/base/Binary.cpp:14-66 | writing what was read restores the same bytes |
| Binary.ReadAvailable | src/base/Binary.cpp:14-53 | the loop that accumulates shifted bytes computes the integer that the bytes denote, in either byte order |
| Binary.ReadUnsigned | src/base/Binary.cpp:7-53 | the bounds check comes first: reading past the end is refused, anything inside is read exactly |
| Binary.AppendUnsigned | src/base/Binary.cpp:55-66 | appends exactly the low bytes of the value, least significant first |
| Binary.ReadFixedPrefix | src/base/Binary.cpp:14-66 | a field inside a longer byte string is read back and reading stops where the field ends |
| Binary.AppendVarUInt | src/base/Binary.cpp:72-79 | the loop of seven-bit groups appends the variable-width encoding and nothing else |
| Binary.ReadVarUInt | src/base/Binary.cpp:87-97 | the ten-group loop, with its shift and its limits, decodes exactly what the recursive reading of groups decodes, with the same errors |
| Binary.VarUIntPrefix | src/base/Binary.cpp:72-97 | for every uint64, decoding at the start of its encoding gives the value back and stops where the encoding ends |
| Binary.VarUIntLength | src/base/Binary.cpp:72-79 | an encoding is at most ten bytes long |
| Binary.TenGroupsAre64Bits | src/base/Binary.cpp:87-97 | ten groups of which the last has one bit are exactly 64 bits, so no value is lost or wrapped |
| Binary.CanonicalOnlyInvertsAppend | tools/inspect_capture_session.py:555-570 | read_varuint accepts a byte string whole exactly when AppendVarUInt produces it, and then returns the value it came from |
| Binary.ReadersAgreeIff | tools/inspect_capture_session.py:555-570 | read_varuint and the collector's reader give the same answer if and only if the latter fails, or the encoding is one byte long, or its last byte is not zero |
| Binary.ReadersDiffer | tools/inspect_capture_session.py:555-570 | on the bytes 0x80 0x00 the collector's reader reads zero and read_varuint refuses |
| Binary.VarUIntPrefixAs | tools/inspect_capture_session.py:555-570 | both readers, with and without the overlong check, read every written integer back |
| Binary.ZigZagBijection | src/base/Binary.cpp:81-85 | the zigzag maps are inverse bijections between int64 and uint64 |
| Binary.ZigZagBits | src/base/Binary.cpp:81-103 | the arithmetic form of zigzag is what the shifts and exclusive-ors compute on 64 bits |
| Binary.VarIntPrefixAs | src/base/Binary.cpp:81-103 | for every int64, both readers give the value back and stop where its encoding ends |
| Binary.AppendVarInt | src/base/Binary.cpp:81-85 | appends the variable-width encoding of the zigzag image |
| Binary.ReadVarInt | src/base/Binary.cpp:99-103 | decodes it, or fails as the unsigned reader does |
| Crc32.MakeTable | src/base/Crc32.cpp:8-18 | entry i of the table is byte i shifted eight times through the register |
| Crc32.TableStep | src/base/Crc32.cpp:24-30 | one table look-up does the work of eight bit steps |
| Crc32.ComputeSeeded | src/base/Crc32.cpp:24-30 | the table-driven loop equals the bit-serial reflected CRC with polynomial 0xEDB88320, for every seed |
| Crc32.Compute | src/base/Crc32.cpp:24-30 | the same with the seed zero, as a 32-bit integer |
| Crc32.Chains | src/base/Crc32.cpp:24-30 | checksumming b seeded with the checksum of a is checksumming a followed by b |
| Crc32.PolynomialIsStandard | src/base/Crc32.cpp:8-18 | the generator is x^32 + x^26 + x^23 + x^22 + x^16 + x^12 + x^11 + x^10 + x^8 + x^7 + x^5 + x^4 + x^2 + x + 1, reflected |
| Crc32.ShiftBitInjective | src/base/Crc32.cpp:8-18 | a bit step can be run backwards, so no two register states are merged |
| Crc32.FeedAllInjective | src/base/Crc32.cpp:24-30 | nor does feeding any bytes merge two states |
| Crc32.FeedFour | src/base/Crc32.cpp:24-30 | four bytes are fed by exclusive-oring one word into the register and shifting 32 times |
| Crc32.DetectsOneByte | src/base/Crc32.cpp:24-30 | buffers of one length that differ in exactly one byte have different checksums |
| Crc32.DetectsFourByteBurst | src/base/Crc32.cpp:24-30 | any damage within four consecutive bytes changes the checksum |
| ReportRoundTrip.AssembleUndoesDeltas | src/capture/ReportStream.cpp:91-139 | undoing the deltas of an accepted report gives the report back although the reader adds modulo 2^64 |
| ReportRoundTrip.ReportReadsBack | src/capture/ReportStream.cpp:91-303 | one report, encoded against the one before it, is read back field for field, passes every check of the reader, and reading stops where it ends |
| ReportReading.FrameLoads | src/capture/ReportStream.cpp:145-222 | a written block passes the magic, size, count and checksum checks of LoadBlock |
| ReportReading.HeaderReadsBack | src/capture/ReportStream.cpp:68-83 | a written file header reads back to the identity and leaves the reader at the first block |
| ReportReading.ReadsBack | src/capture/ReportStream.cpp:224-305 | a reader in the middle of a block yields the rest of that block and then all further blocks, and then the end of the stream |
| ReportReading.FileReadsBack | src/capture/ReportStream.cpp:68-305 | for any division into blocks, the file reads back to its identity and exactly its reports in order, with no reader check failing |
| ReportReading.CorruptionDetected | src/capture/ReportStream.cpp:207-222 | changing one payload byte of a stored block makes LoadBlock refuse it |
| ReportStream.OpenStream | src/capture/ReportStream.cpp:48-62 | an unusable block size or identity is an argument error, whatever the disk does; then a file that cannot be created is a write error; otherwise the writer is new |
| ReportStream.ReportStreamWriter.constructor | src/capture/ReportStream.cpp:48-62 | a new writer holds the file of no reports |
| ReportStream.ReportStreamWriter.WriteHeader | src/capture/ReportStream.cpp:68-83 | writes the header bytes of the identity |
| ReportStream.ReportStreamWriter.FlushBlock | src/capture/ReportStream.cpp:145-156 | moves the pending reports into the file as one framed block, or fails without the disk |
| ReportStream.ReportStreamWriter.PushReport | src/capture/ReportStream.cpp:101-138 | pushes exactly the encoding of the report, in the order of the format |
| ReportStream.ReportStreamWriter.Append | src/capture/ReportStream.cpp:85-143 | answers as the checks, the block limit and the disk decide, in that order; on success the reports grow by this one; on an early refusal nothing changes |
| ReportStream.ReportStreamWriter.Checkpoint | src/capture/ReportStream.cpp:158-168 | after a checkpoint the file by itself reads back to everything appended so far |
| ReportStream.ReportStreamWriter.Finalize | src/capture/ReportStream.cpp:170-179 | a finished file reads back to everything appended; finishing twice is refused |
| ReportStream.ReportStreamReader.LoadBlock | src/capture/ReportStream.cpp:207-222 | the reader object loads the next block or reports why not, as the function of its state says |
| ReportStream.ReportStreamReader.ReadReport | src/capture/ReportStream.cpp:224-302 | the reader object decodes and checks one report as the function of its state says |
| ReportStream.ReportStreamReader.Next | src/capture/ReportStream.cpp:224-305 | one call of Next moves the state as the reading function says |
| ReportStream.ReadReports | src/capture/ReportStream.cpp:181-305 | opening a file and calling Next to the end yields what the bytes denote, or the first fault |
| ReportStream.ReportLength | src/capture/ReportStream.cpp:85-143 | beyond its payload a report takes at most 152 bytes |
| ReportStream.RunLength | src/capture/ReportStream.cpp:85-143 | a block is bounded by its report count times 152 plus the longest payload |
| ReportStream.WriteThenRead | src/capture/ReportStream.cpp:48-305 | for any identity, block size and placement of checkpoints: if no call fails, the finished file reads back to the identity and exactly the reports appended; and no call fails when the file can be created, the disk works, identity and block size are usable, the reports are acceptable and no block can be overfilled |
| Inspector.InspectsOne | tools/inspect_capture_session.py:718-772 | the inspector takes a stored report exactly when its info byte is 1 and its quality flags are at most 3; then it sees the same time, motion and buttons |
| Inspector.InspectsRun | tools/inspect_capture_session.py:718-773 | the same for all reports of a block, with the limit on their number |
| Inspector.InspectsBlocks | tools/inspect_capture_session.py:708-774 | the inspector accepts the blocks of a finished stream exactly when every report is plain and they are not too many, and sees them all in order |
| Inspector.HeaderInspected | tools/inspect_capture_session.py:669-699 | the header of a written file is taken exactly when the manifest certifies its identity: address, endpoint, clock, descriptor digest and bytes, decoder specification; then what is left is the blocks |
| Inspector.FileInspected | tools/inspect_capture_session.py:669-783 | a whole file is inspected successfully if and only if the manifest certifies the header's identity and has the number of reports, every report has info byte 1 and quality flags of at most 3, and there are at most 5000000; then as many are seen, each with its report's time, motion and buttons |
| Inspector.FileSeen | tools/inspect_capture_session.py:669-783 | for plain reports that are not too many, every certifying manifest with their number sees exactly them |
| Inspector.ChunkReader.Fill | tools/inspect_capture_session.py:494-504 | filling moves bytes from the chunks to the buffer and loses none |
| Inspector.ChunkReader.Read | tools/inspect_capture_session.py:506-514 | however the stream is chunked, Read takes the next bytes of it, fails when there are too few, and may return nothing at its end |
| Inspector.ParseBlock | tools/inspect_capture_session.py:722-773 | the record loop over one block computes what the inspecting function says |
| Inspector.ParseFrame | tools/inspect_capture_session.py:709-773 | one turn of the block loop takes one frame off the stream |
| Inspector.ParseBlocks | tools/inspect_capture_session.py:708-774 | the whole loop, through any chunks, sees what the uncut bytes hold |
| Inspector.ChunkReader.Finish | tools/inspect_capture_session.py:516-519 | the end check passes exactly when no byte is left, in the buffer or in the chunks |
| Inspector.ParseHeader | tools/inspect_capture_session.py:669-699 | the header loop through any chunks answers as the bytes do, and leaves the bytes after the header |
| Inspector.ParseReports | tools/inspect_capture_session.py:669-783 | parse_reports as a whole, through any chunks, answers as its uncut bytes do |
| Pcap.FrontIsStable | src/capture/StreamingPcapParser.cpp:17-38 | once the front of the input can be decided, more bytes do not change the decision |
| Pcap.ParseResumes | src/capture/StreamingPcapParser.cpp:17-38 | parsing can stop anywhere and be resumed when more bytes have come |
| Pcap.RecordsRestore | src/capture/DevicePcapWriter.cpp:95-116 | writing out the records parsed gives back the bytes they were parsed from |
| Pcap.HeaderRestores | src/capture/DevicePcapWriter.cpp:78-93 | writing out the header parsed gives back the header bytes with bytes 8 to 15 zeroed |
| PcapParsing.StreamingPcapParser.Append | src/capture/StreamingPcapParser.cpp:9-13 | compaction never loses an unparsed byte, and the buffer limit refuses without changing anything |
| PcapParsing.StreamingPcapParser.TakeGlobalHeader | src/capture/StreamingPcapParser.cpp:17-29 | the header is read once, when all 24 bytes are there |
| PcapParsing.StreamingPcapParser.ParseFront | src/capture/StreamingPcapParser.cpp:30-37 | one record is looked at exactly as the record rules say |
| PcapParsing.StreamingPcapParser.ParseAvailable | src/capture/StreamingPcapParser.cpp:17-38 | the loop takes exactly the complete records in front of the first incomplete or faulty one |
| PcapParsing.StreamingPcapParser.TakeRecords | src/capture/StreamingPcapParser.cpp:15-38 | the records that have become complete, or the first fault, in which case those before it in the same call are lost |
| PcapParsing.StreamingPcapParser.Finalize | src/capture/StreamingPcapParser.cpp:40 | the input must have ended at a record boundary after a header |
| PcapParsing.TakeResumes | src/capture/StreamingPcapParser.cpp:15-38 | taking now and again after more bytes is taking once after all of them |
| PcapParsing.ResidueBound | src/capture/StreamingPcapParser.cpp:9-38 | after a call at most snap_length + 15 bytes are waiting |
| PcapParsing.ChunkingIrrelevant | src/capture/StreamingPcapParser.cpp:9-38 | for every way of cutting a stream: if no call throws, the records are those of the uncut stream; and with chunks of at most 16 MiB - 15 bytes, calls throw exactly when the uncut stream has a fault |
| PcapParsing.PcapReader.Next | src/capture/PcapReader.cpp:64-86 | one call yields the next record, the end, or the fault there, and advances past it |
| PcapParsing.ReadAllRecords | src/capture/PcapReader.cpp:35-86 | opening a file and calling Next to the end yields its records or the first fault |
| PcapParsing.OneShotAgrees | src/capture/PcapReader.cpp:35-86 | the streaming parser and the one-shot reader accept the same whole files, with the same header and records |
| PcapParsing.StreamingRefinesOneShot | src/capture/StreamingPcapParser.cpp:9-40 | for every chunking, streaming the file to its end is reading it in one shot |
| DevicePcapWriter.DeviceWriter.WriteU16 | src/capture/DevicePcapWriter.cpp:50-60 | the two bytes, shifted out in either order, are the encoding of the value |
| DevicePcapWriter.DeviceWriter.WriteU32 | src/capture/DevicePcapWriter.cpp:62-76 | the four bytes, shifted out in either order, are the encoding of the value |
| DevicePcapWriter.DeviceWriter.WriteHeader | src/capture/DevicePcapWriter.cpp:78-93 | writes the 24 header bytes in the source's byte order |
| DevicePcapWriter.DeviceWriter.WriteRecord | src/capture/DevicePcapWriter.cpp:109-113 | the five writes of a record make up its bytes |
| DevicePcapWriter.DeviceWriter.Append | src/capture/DevicePcapWriter.cpp:95-116 | a record of another device, of the wrong length or time, or after the end is refused and changes nothing; otherwise the file grows by exactly this record, and the counters are the number of records and the sum of their lengths |
| DevicePcapWriter.DeviceWriter.Finalize | src/capture/DevicePcapWriter.cpp:135-147 | finishing twice is refused |
| DevicePcapWriter.ParsedRecordsFit | src/capture/DevicePcapWriter.cpp:95-116 | every record that a parse yields passes the writer's own checks, and records and data add up to the bytes parsed |
| DevicePcapWriter.WholeFileCopied | src/capture/DevicePcapWriter.cpp:50-116 | writing out all records of a file that parses to its end gives the file back byte for byte, with global-header bytes 8 to 15 zeroed |
| DevicePcapWriter.CanonicalReadsSame | src/capture/DevicePcapWriter.cpp:78-93 | zeroing those bytes changes nothing a reader sees |
| CaptureFormats.TimeExact | src/capture/PcapReader.cpp:23-33 | a record has a time exactly when its fraction is less than a second, and it is seconds and fraction in units of 1000 or of 1 nanosecond |
| CaptureFormats.FrontOfLayout | src/capture/StreamingPcapParser.cpp:30-37 | a record laid out as the format says (seconds, fraction, captured and original length, data) is read as exactly these, or refused for its lengths, or else for its fraction |
| CaptureFormats.RecordsReadBack | src/capture/StreamingPcapParser.cpp:17-38 | any records laid out in a row are read as those before the first that is out of bounds, and that one gives the reason |
| CaptureFormats.HeaderReadsBack | src/capture/PcapReader.cpp:35-62 | a header laid out as the format says is read back exactly if version, snapshot length and link type are supported, which are checked in this order |
| CaptureFormats.FileReadsBack | src/capture/PcapReader.cpp:35-86 | a PCAP file, laid out by sections 4 and 5 of the format, is read back to its header and records if and only if the header is valid and every record is of its resolution, within both length limits and with a fraction below a second |
| CaptureFormats.WrittenIsLayout | src/capture/DevicePcapWriter.cpp:78-116 | what the device writer writes is this layout |
| UsbPcapPacket.AcceptedIff | src/capture/UsbPcapPacket.cpp:11-69 | with the original length at hand a packet is accepted if and only if header and declared data add up to it and the captured bytes do not exceed it; it is marked truncated exactly when they stop short |
| UsbPcapPacket.AcceptedPacket | src/capture/UsbPcapPacket.cpp:11-69 | accepted packets have an info byte of 0 or 1, a payload inside the record, and unless truncated all of the declared data |
| CaptureFormats.PacketReadsBack | src/capture/UsbPcapPacket.cpp:11-69 | a packet laid out field by field, little-endian, with any extra header, is read back whole if and only if its info byte is 0 or 1, its payload is no longer than declared, it says whether it is cut, and the original length is that of the uncut packet |
| CaptureFormats.PacketRestores | src/capture/UsbPcapPacket.cpp:11-69 | and nothing else is accepted: every accepted record is the layout of the packet it is parsed to |
| HidDescriptor.AddInputFields | src/capture/HidDescriptor.cpp:178-197 | the loop over report_count adds the fields that the recursive rule adds |
| HidDescriptor.ParseDescriptor | src/capture/HidDescriptor.cpp:92-206 | the item loop parses what the item rules say (HID 1.11, section 6.2.2) |
| HidDescriptor.AddFieldsInside | src/capture/HidDescriptor.cpp:178-197 | adding fields keeps all fields of a report disjoint, in order and inside it, and never overflows the 32-bit length |
| HidDescriptor.ParsedDescriptor | src/capture/HidDescriptor.cpp:92-206 | for every accepted descriptor, the fields of each report are disjoint, in increasing order, inside the report, and past the ID byte when there is one; the length-overflow exception is unreachable |
| HidDeclarations.DescriptorReadsBack | src/capture/HidDescriptor.cpp:92-206 | for every list of declarations (Input items with page, usages or usage range, signed or unsigned logical range, size, count, report ID and flags; collections; saved and restored settings), the short items of HID 1.11 that write it, leaving out settings already in force, are parsed to exactly the declared fields: page, usage, range, size, relative flag, and as offset the bits before it in its report; constant and array items give no field |
| HidAcceptance.AcceptedIff | src/capture/HidDescriptor.cpp:92-206 | a byte string is accepted if and only if it is not empty or too long, splits into short items, every item is proper where it stands (a close or pop undoes something, report IDs are 1 to 255, a collection has data, an Input item has a size of 1 to 32, a count of 1 to 1024 and, once report IDs are used, one), nothing is left open or pushed, and some Input item gives fields |
| HidMouseDecoder.CollectFields | src/capture/HidDescriptor.cpp:211-226 | one pass sorts the fields of a report by what they measure |
| HidMouseDecoder.ChooseLayouts | src/capture/HidDescriptor.cpp:208-256 | the loop over the reports yields the layouts, or the first objection |
| HidMouseDecoder.ExtractFieldBits | src/capture/HidDescriptor.cpp:58-71 | the bit loop extracts the integer whose bits lie at the field's offset |
| HidMouseDecoder.DecodeField | src/capture/HidDescriptor.cpp:73-88 | sign extension, the logical range and the int32 range, in this order |
| HidMouseDecoder.DecodesStoredNumber | src/capture/HidDescriptor.cpp:73-88 | a number the device stored in two's complement, inside the declared range, is the number decoded |
| HidMouseDecoder.PressedMaskExact | src/capture/HidDescriptor.cpp:333-336 | bit k of the button mask is set exactly when a button of usage k + 1 reads nonzero |
| HidMouseDecoder.PressedButtons | src/capture/HidDescriptor.cpp:333-336 | the loop over the buttons computes that mask or the first fault |
| HidMouseDecoder.DecodeReport | src/capture/HidDescriptor.cpp:325-338 | the calls for one report of a layout decode it as the function for one report does, whose motion, wheels and buttons HidMouseMeaning.TransferMeans tells |
| HidMouseDecoder.DecodeTransfer | src/capture/HidDescriptor.cpp:316-342 | the loop over a transfer decodes report after report as that function does, or reports the first fault |
| HidMouseDecoder.BatchSplitsTransfer | src/capture/HidDescriptor.cpp:316-342 | the payloads of the decoded reports concatenate to the transfer, without gap or overlap |
| HidMouseDecoder.MadeDecoder | src/capture/HidDescriptor.cpp:288-305 | an accepted decoder keeps exactly its layouts, sorted by strictly increasing report ID |
| HidMouseAcceptance.LayoutIff | src/capture/HidDescriptor.cpp:208-252 | a report with an X or Y field gets a layout if and only if it has exactly one X and one Y, both relative, at most one of each wheel, and a left button; one without gets none |
| HidMouseAcceptance.DecoderIff | src/capture/HidDescriptor.cpp:208-305 | a decoder can be built if and only if the descriptor is accepted, some report points, every one that does is clear in this way and 1 to 4096 bytes long, and not both a report without an ID and one with an ID point; it then has one layout for each that does, by ID |
| HidMouseDecoder.LayoutForExact | src/capture/HidDescriptor.cpp:307-314 | looking up an ID finds a layout exactly when there is one with that ID, and finds that one |
| HidMouseDecoder.FindLayout | src/capture/HidDescriptor.cpp:307-314 | the binary search of std::lower_bound, with the test after it, finds what looking through the layouts finds |
| HidMouseDecoder.DecoderForReadable | src/capture/HidDescriptor.cpp:92-305 | every decoder built from an accepted descriptor has only fields that can be read from a report of its length |
| HidMouseDecoder.NeverOutOfRange | src/capture/HidDescriptor.cpp:58-342 | such a decoder never reads beyond a report, whatever bytes a transfer holds |
| HidMouseMeaning.DecodeValueIff | src/capture/HidDescriptor.cpp:58-88 | a field reads as a number if and only if its bits lie in the report and are those of the number in two's complement, and the number can be held by its width, is in the declared range and fits 32 bits |
| HidMouseMeaning.LayoutOfFits | src/capture/HidDescriptor.cpp:208-252 | a layout takes as X, Y, wheel and pan the only fields of its report with the usages for them, and as buttons all fields of the button page with usages 1 to 32 |
| HidMouseMeaning.TransferMeans | src/capture/HidDescriptor.cpp:92-342 | for a decoder built from descriptor bytes and every report of a decoded transfer: dx, dy, wheel and pan are what the parsed fields of its report ID with usages 0x30, 0x31, 0x38 of page 1 and 0x238 of page 0x0c read, 0 for a wheel without a field; bit k of the buttons is set exactly when a field of page 9 and usage k + 1 reads nonzero; length and ID byte are as declared |
| HidMouseMeaning.WellFormedTransfer | src/capture/HidDescriptor.cpp:92-342 | a transfer of reports that are well formed by the descriptor decodes to exactly these reports, with these IDs and bytes |
| MouseReportExtractor.Extractor.Remember | src/capture/MouseReportExtractor.cpp:63-91 | counting, timing, duplicate detection and quality flags of a completion |
| MouseReportExtractor.Extractor.Emit | src/capture/MouseReportExtractor.cpp:125-154 | the loop numbers the reports of a transfer one after the other and counts them; ExtractionMeaning.ProcessMeans tells what each says |
| MouseReportExtractor.Extractor.ProcessRecord | src/capture/MouseReportExtractor.cpp:47-156 | one record answers and changes the state as the extraction function says |
| ExtractionMeaning.ProcessAnswers | src/capture/MouseReportExtractor.cpp:47-64 | a record is refused if and only if it is of another endpoint, has no observation time, or is a completion without a valid time |
| ExtractionMeaning.ProcessMeans | src/capture/MouseReportExtractor.cpp:47-156 | a record that is a successful completion with decodable data answers one report for each that its payload decodes to, in order: the decoded motion, wheels, buttons, ID and bytes, the record's number and time, the packet's IRP, status, function and address, its index and their count, the next numbers, and flags 1 and 2 exactly if the completion is late or comes again; any other record answers none |
| ExtractionMeaning.ProcessObjects | src/capture/MouseReportExtractor.cpp:65-125 | which anomalies a record answers, and in which order |
| ExtractionMeaning.ProcessRemembers | src/capture/MouseReportExtractor.cpp:47-156 | what is remembered of a record, and that each counter grows exactly for the records of its kind |
| MouseReportExtractor.ProcessKeepsBalance | src/capture/MouseReportExtractor.cpp:47-156 | records = requests + completions, and completions = failed + empty + decoded + undecodable, are kept by every record |
| MouseReportExtractor.RunBalances | src/capture/MouseReportExtractor.cpp:47-156 | over any run these balances hold and the reports emitted are the reports counted |
| MouseReportExtractor.TransferAccepted | src/capture/ReportStream.cpp:85-141 | the reports of one transfer pass every order, identity, position and payload check of the stream writer, and those of the inspector |
| MouseReportExtractor.EmittedAccepted | src/capture/ReportStream.cpp:85-141 | whatever the extractor emits for a record, the writer accepts after what it has, and the next record will find it so again |
| CaptureSteps.ReachedRecords | src/capture/StreamingPcapParser.cpp:9-38 | the records delivered so far, written out, plus the bytes still waiting are the source so far with header bytes 8 to 15 zeroed; they are numbered from zero |
| CaptureSteps.FaultIsFinal | src/capture/StreamingPcapParser.cpp:17-38 | a fault found in a source is found in every continuation of it |
| CaptureSteps.DeliveredStays | src/capture/StreamingPcapParser.cpp:15-38 | what has been delivered stays at the front of all that is delivered later |
| CaptureSteps.AcceptedIsPrefix | src/acquisition/CaptureWorker.cpp:233-264 | the records stored are those before the first refused one, and the failure is that record's |
| CaptureSteps.RefusalIff | src/acquisition/CaptureWorker.cpp:233-264 | a list of records is refused exactly when one of its records is |
| CaptureSteps.AdjustedIff | src/acquisition/CaptureWorker.cpp:233-242 | a supplied observation time is kept exactly when it is not flagged as adjusted |
| CaptureSteps.ExtractionSucceeds | src/acquisition/CaptureWorker.cpp:291-301 | a record that reaches the extractor never makes it throw |
| CaptureSteps.InterpretedStep | src/acquisition/CaptureWorker.cpp:233-319 | one stored record more keeps the derived side in order: the reports are those its records yield, both stream readers accept them, and any that can come next |
| CaptureMeaning.InterpretationTells | src/acquisition/CaptureWorker.cpp:233-319 | the reports that a list of stored records yields, told by the records alone: in order, one for each report that the payload of a decodable completion of the endpoint decodes to, with its motion, wheels, buttons and bytes, the record's time, number and observation time, and flags for completions that are earlier than one before or the same as the one before |
| CapturePipeline.Open | src/acquisition/CaptureWorker.cpp:129-171 | the constructor accepts exactly usable paths, a nonzero address and a matching endpoint |
| CapturePipeline.CapturePipeline.constructor | src/acquisition/CaptureWorker.cpp:129-171 | a new pipeline has taken nothing |
| CapturePipeline.AppendFailsOnlyFor | src/capture/ReportStream.cpp:85-143 | an acceptable report is stored unless the disk fails or the block is overfilled, which takes a payload of more than 3944 bytes |
| CapturePipeline.CapturePipeline.StoreReports | src/acquisition/CaptureWorker.cpp:309-318 | after the loop the stream holds all reports emitted, or has been given up for a recorded reason |
| CapturePipeline.CapturePipeline.AppendAnomalies | src/acquisition/CaptureWorker.cpp:304-308 | the anomalies of one record are journaled in order, or the journal is given up |
| CapturePipeline.CapturePipeline.InterpretRecord | src/acquisition/CaptureWorker.cpp:275-319 | what the record yields is appended to the derived side, the journal gains exactly the entries for it or is given up, and nothing on the raw side changes |
| CapturePipeline.CapturePipeline.StoreRecord | src/acquisition/CaptureWorker.cpp:266-274 | a record of the certified device is added to the device file and counted; only the disk can prevent it |
| CapturePipeline.CapturePipeline.KeepRecord | src/acquisition/CaptureWorker.cpp:266-319 | the record is in the device file before it is interpreted; only the disk can prevent it |
| CapturePipeline.CapturePipeline.ProcessRecord | src/acquisition/CaptureWorker.cpp:233-319 | a refused record leaves the device file as it was; any other is stored with the observation time it is given and journaled accordingly |
| CapturePipeline.CapturePipeline.ProcessRecords | src/acquisition/CaptureWorker.cpp:370-373 | the loop stores the records before the first refused one, in order |
| CapturePipeline.CapturePipeline.TakeChunk | src/acquisition/CaptureWorker.cpp:355-365 | the records a chunk completes, or none when the parser finds a fault |
| CapturePipeline.CapturePipeline.ProcessChunk | src/acquisition/CaptureWorker.cpp:342-375 | a chunk is answered and stored as its bytes decide; only a failing disk answers otherwise; a sealed or published pipeline takes nothing |
| CapturePipeline.CapturePipeline.Checkpoint | src/acquisition/CaptureWorker.cpp:377-403 | nothing is lost, and the report file by itself reads back to everything emitted so far; a published pipeline refuses and stays as it is |
| CapturePipeline.CapturePipeline.Seal | src/acquisition/CaptureWorker.cpp:405-422 | sealing fails with a framing error exactly when the source ended before its header or inside a record; a sealed pipeline stays as it is |
| CapturePipeline.CapturePipeline.CopySoFar | src/acquisition/CaptureWorker.cpp:342-375 | at every moment the device file and the bytes waiting in the parser make up the source, header bytes 8 to 15 zeroed |
| CapturePipeline.CapturePipeline.ValidHolds | src/acquisition/CaptureWorker.cpp:342-375 | at every moment the device file, if there is one, has the header of the source and exactly the records that the parser has delivered, and this stays true of every continuation of the source |
| CapturePipeline.CapturePipeline.SealedCopy | src/acquisition/CaptureWorker.cpp:405-422 | a sealed device file is a byte-for-byte copy of the source with those bytes zeroed, has its length, and reads the same |
| CapturePipeline.CapturePipeline.EvidenceIsTruthful | src/acquisition/CaptureWorker.cpp:457-469 | the drain evidence is clean exactly when the pipeline is sealed, and accounts for every byte of the source |
| CapturePipeline.CapturePipeline.Publish | src/acquisition/CaptureWorker.cpp:424-454 | published products: the device file is the source, and the report file, unless given up, reads back in both readers to reports of which each has the motion, buttons and times that the payload of its stored record decodes to, and no others; publishing before sealing or twice is refused |
| CapturePipeline.CapturePipeline.EmittedTells | src/acquisition/CaptureWorker.cpp:275-319 | at any time before, the reports emitted are told in this way by the records in the device file |
| CapturePipeline.CapturePipeline.StreamSurvives | src/acquisition/CaptureWorker.cpp:309-318 | with a usable identity and a working disk only a payload of more than 3944 bytes can have cost the report stream |
| CaptureWorker.RefusalIsFinal | src/acquisition/CaptureWorker.cpp:648-687 | a refused chunk means that no continuation of the source could have succeeded |
| CaptureWorker.AllDeliveredIff | src/capture/StreamingPcapParser.cpp:15-38 | the records delivered before a refused chunk are all the complete ones of the source, of whatever device, if and only if the chunk completes none |
| CaptureWorker.PreservedIff | src/acquisition/CaptureWorker.cpp:670-677 | when a chunk is refused, by the parser or because it does not fit in its buffer, exactly the records delivered before it are kept; these are all the complete records before the first framing or identity fault of the source if and only if the chunk completes no record, or first of all one that is itself refused |
| CaptureWorker.CompleteRecordLost | src/acquisition/CaptureWorker.cpp:670-677 | a source in one chunk for which it does not hold: a complete record of the device, accepted by every check, is not stored |
| CaptureWorker.KeptIsRetained | src/acquisition/CaptureWorker.cpp:640-691 | what one more chunk leaves in the device file is decided by the source alone: the records before the first refused one, or, for a chunk that the parser refuses, those delivered before it |
| CaptureWorker.ReasonOfChunk | src/acquisition/CaptureWorker.cpp:640-691 | a refused chunk is answered with device_identity_changed if and only if the source including it still parses and its first unacceptable record is a packet of another bus or device, and with pcap_framing otherwise |
| CaptureWorker.RetainedCopy | src/acquisition/CaptureWorker.cpp:640-691 | written out, what is kept is a front part of the copy of the source, the refused chunk included |
| CaptureWorker.Deliver | src/acquisition/CaptureWorker.cpp:647-693 | one delivery is stored as its bytes decide; a fault is answered with its reason: the changed device or the framing, as the bytes decide, or the writer; the device file is then the copy of what the source lets it keep |
| CaptureWorker.Turn | src/acquisition/CaptureWorker.cpp:635-730 | one turn keeps the pipeline in order; on a quiet run it fails only for a source that is not acceptable; a failure has the reason of the native fault, of the device loss, or of the chunk |
| CaptureWorker.Loop | src/acquisition/CaptureWorker.cpp:635-731 | the loop ends with the reader, and without a pending reason only if a stop was asked for; a failure has the reason of the turn it ends at; when it breaks off, the device file holds the records accepted before the fault |
| CaptureWorker.Finish | src/acquisition/CaptureWorker.cpp:733-790 | sealing, draining and publishing succeed for an acceptable source, and success means publication; a failure leaves the records stored in the device file and keeps the first reason, which for a source that ends before its header or inside a record is the framing |
| CaptureWorker.Run | src/acquisition/CaptureWorker.cpp:592-790 | a clean run was asked to stop, met no fault and has published an exact copy; when nothing outside the source goes wrong, it is clean if and only if the source is a whole PCAP file of the certified device, however it came in chunks; a failed run names the cause: the options, the start, the first native fault, a reader that ended unasked, the framing or the changed device as the first refused record decides, the drain's objection, or the writer; it leaves in the device file a front part of that copy, the records accepted before the fault, unless writing itself failed |
| Json.KeyOrder | src/base/Json.cpp:157-175 | std::string's order of keys is a strict total order |
| Json.InsertSorts | src/base/Json.cpp:157-175 | emplacing a new key keeps an object sorted by key |
| JsonRoundTrip.CharsReadBack | src/base/Json.cpp:102-141 | every byte string, escaped, is read back exactly |
| JsonRoundTrip.NumberReadsBack | src/base/Json.cpp:177-212 | every int64 is read back exactly |
| JsonRoundTrip.ValueReadsBack | src/base/Json.cpp:44-57 | every value without doubles is read back from the middle of a text, at any indentation |
| JsonRoundTrip.DumpReadsBack | src/base/Json.cpp:303-310 | Parse(DumpCanonical(v, pretty)) = v for every value of null, booleans, int64, byte strings, arrays and objects, indented or not |
| JsonRoundTrip.TextDetermines | src/base/Json.cpp:305-310 | different values have different canonical texts |
| JsonRoundTrip.ParsedReadsBack | src/base/Json.cpp:303-310 | whatever a text parses to is a well-formed value that is written and read back as itself, if it has no doubles |
| JsonRoundTrip.UnicodeReadsBack | src/base/Json.cpp:121-135 | every code point, escaped as one or two units (RFC 8259, section 7), is read as its UTF-8 bytes |
| JsonRoundTrip.Utf8RoundTrip | src/base/Json.cpp:82-100 | those bytes stand for that code point |
| JsonNumbers.NumberIsRead | src/base/Json.cpp:177-212 | a number of RFC 8259, section 6, is read as an int64 if and only if it has neither fraction nor exponent and fits; any other is the double that strtod finds, and refused if that is not finite |
| JsonNumbers.OnlyNumbersAreRead | src/base/Json.cpp:177-212 | only such numbers are read, each up to where it cannot go on |
| JsonReading.ValueReads | src/base/Json.cpp:44-212 | every value of the RFC 8259 grammar, with any spacing and any escapes, is read as what it stands for, wherever it stands |
| JsonReading.DocumentParsed | src/base/Json.cpp:14-212 | every text that is read is one of the grammar, and stands for the value read |
| JsonReading.ParseIff | src/base/Json.cpp:14-212 | a text is read as a value if and only if it is a JSON text of RFC 8259 that stands for it, with different keys in each object and finite numbers |
| JsonReading.ArrangedExact | src/base/Json.cpp:157-175 | an object's members are its entries, sorted by key |
| JsonText.Parser.SkipWhitespace | src/base/Json.cpp:31-37 | moves to the next byte that is not white space |
| JsonText.Parser.TakeUnicode | src/base/Json.cpp:121-135 | the surrogate rules, on the parser's position |
| JsonText.Parser.TakeString | src/base/Json.cpp:102-141 | the loop over a string's bytes |
| JsonText.Parser.TakeNumber | src/base/Json.cpp:177-212 | the number grammar, and int64 or double |
| JsonText.Parser.TakeValue | src/base/Json.cpp:44-57 | the recursive parser consumes and returns what the grammar functions say |
| JsonText.Parser.TakeArray | src/base/Json.cpp:143-155 | the array loop |
| JsonText.Parser.TakeObject | src/base/Json.cpp:157-175 | the object loop, with the duplicate-key check |
| JsonText.ParseText | src/base/Json.cpp:14-25 | the parser with its position computes the parse of the text, or its first fault |
| JsonText.EscapeText | src/base/Json.cpp:217-235 | the escaping loop writes the escaped string |
| JsonText.Dump | src/base/Json.cpp:237-274 | the printer that appends to a stream writes the canonical text |
| JsonText.DumpArray | src/base/Json.cpp:250-260 | the same for the array loop, with its commas and indentation |
| JsonText.DumpObject | src/base/Json.cpp:261-272 | and for the object loop |
| JsonText.DumpText | src/base/Json.cpp:305-310 | the canonical text, with a final line feed when indented |
| CommandLine.QuoteCaptureHelperArgument | src/acquisition/CaptureHelperClient.cpp:343-367 | the loop with its backslash counter quotes as the rule by recursion does |
| CommandLine.SerializeCaptureHelperArguments | src/acquisition/CaptureHelperClient.cpp:369-377 | arguments are quoted and joined by single spaces |
| CommandLine.ArgumentReadsBack | src/acquisition/CaptureHelperClient.cpp:343-367 | one quoted argument is taken back whole, wherever it stands |
| CommandLine.SplitReadsBack | src/acquisition/CaptureHelperClient.cpp:343-377 | for every list of wide strings, splitting the serialized text by the Microsoft rule gives exactly the list back, with empty strings, quotes and trailing backslashes, under either reading of doubled quotes |
| MillisecondGrid.FloorPartsExact | src/derive/MillisecondDeriver.cpp:16-24 | the corrected truncating division is floor division for every int64 |
| MillisecondGrid.CheckedAddExact | src/derive/MillisecondDeriver.cpp:26-35 | it throws exactly when the true sum leaves int64, and its own guards do not overflow |
| MillisecondGrid.CheckedMultiplyExact | src/derive/MillisecondDeriver.cpp:37-50 | it throws exactly when the true product leaves int64 |
| MillisecondGrid.IndexOf | src/derive/MillisecondDeriver.cpp:107-116 | the bin is floor((time - origin) / 10^6) for every pair of int64 values, with no intermediate overflow |
| MillisecondGrid.IntervalExact | src/derive/MillisecondDeriver.cpp:118-138 | an interval is given exactly when its edges are int64 times, and is then the true one |
| MillisecondGrid.IntervalContains | src/derive/MillisecondDeriver.cpp:107-138 | an interval contains a time if and only if it is the interval of that time's bin |
| MillisecondGrid.FloorExact | src/derive/MillisecondDeriver.cpp:99-105 | flooring is refused only below the first whole millisecond of int64 |
| MillisecondGrid.SizeExact | src/derive/MillisecondDeriver.cpp:140-146 | the unsigned subtraction is the true size of the range |
| MillisecondBins.TotalBound | src/derive/MillisecondDeriver.cpp:213-224 | a sum of n int32 values is within n times 2^31, so the sums of a bin and the negated Y sum cannot leave int64 |
| MillisecondBins.SumsFit | src/derive/MillisecondDeriver.cpp:213-285 | so the overflow exceptions there are unreachable with a 32-bit count |
| MillisecondBins.StableSortSorts | src/derive/MillisecondDeriver.cpp:270-280 | the sort orders by capture sequence, keeps all reports and leaves equal ones in input order |
| MillisecondBins.ReplayChains | src/derive/MillisecondDeriver.cpp:286-313 | the button edges of a bin lead without a gap from its starting buttons to its last, each recording exactly what it changed |
| MillisecondBins.MarkedIff | src/derive/MillisecondDeriver.cpp:233-259 | a bin is marked as crossed by a regression exactly when one crossed it |
| MillisecondDeriver.CoveringBinRange | src/derive/MillisecondDeriver.cpp:148-164 | the range holds all reports and both its ends are needed |
| MillisecondDeriver.LayOut | src/derive/MillisecondDeriver.cpp:178-200 | bins cover the range one after the other; it fails only for a range that runs backwards or an edge outside int64 |
| MillisecondDeriver.AddReport | src/derive/MillisecondDeriver.cpp:213-231 | a report is added to its bin's sums; only a count of 2^32 - 1 prevents it |
| MillisecondDeriver.MarkInclusiveBinSpan | src/derive/MillisecondDeriver.cpp:81-97 | exactly the bins between two bins, ends included, are marked |
| MillisecondDeriver.AddReports | src/derive/MillisecondDeriver.cpp:202-263 | after the loop every bin holds the sums of the reports that fall into it and the marks of the regressions that cross it |
| MillisecondDeriver.ReplayReports | src/derive/MillisecondDeriver.cpp:286-313 | the loop over a bin's sorted reports computes its edges, masks and sequence ends as the replay of these reports says, which MillisecondMeaning.BinButtons tells |
| MillisecondDeriver.FinishBin | src/derive/MillisecondDeriver.cpp:282-327 | one bin gets its axes, buttons and positions; only a crosshair outside int64 prevents it |
| MillisecondDeriver.DeriveMillisecondBins | src/derive/MillisecondDeriver.cpp:166-331 | the derivation succeeds if and only if the range is forward, its edges are int64, all reports lie inside it, no bin has more than 2^32 - 1 reports and the crosshair stays in int64; each exception has its cause; the result is what the reports of each bin determine |
| MillisecondMeaning.ChronologicalExact | src/derive/MillisecondDeriver.cpp:202-280 | the reports of a bin are exactly those whose time is in its millisecond, each as often as given, ordered by capture sequence, equal ones in input order |
| MillisecondMeaning.BinSums | src/derive/MillisecondDeriver.cpp:213-328 | the motion, wheel sums and counts of a bin are sums over its reports, Y with the sign of the convention; the crosshair moves by them from where the bin before left it |
| MillisecondMeaning.BinButtons | src/derive/MillisecondDeriver.cpp:286-313 | button i is held at a bin's end exactly when bit i of its last report's mask is set, or if it has none when it was held at its start; the down and up masks have i exactly when between two neighbouring reports bit i goes on or off |
| MillisecondMeaning.BinEdges | src/derive/MillisecondDeriver.cpp:286-313 | a bin has an edge for a report exactly when its mask differs from the buttons before it, in order, with its number, time and rank and the buttons before and after |
| MillisecondMeaning.BinFlags | src/derive/MillisecondDeriver.cpp:213-231 | the low quality bits of a bin are those of its reports |
| MillisecondMeaning.BinMarks | src/derive/MillisecondDeriver.cpp:232-259 | the three high ones say whether the input runs back in time, or does not run on in number, across the bin |
| MillisecondMeaning.BinningTotals | src/derive/MillisecondDeriver.cpp:202-331 | the flags of the whole are those of its bins, and the regressions are counted |
| MillisecondLaws.Conservation | src/derive/MillisecondDeriver.cpp:202-328 | motion, wheel, report and zero-motion totals over the bins equal those over the reports |
| MillisecondLaws.Telescoping | src/derive/MillisecondDeriver.cpp:282-326 | each bin starts at the position and buttons where the one before it ended; the position is the initial one plus the motion so far |
| MillisecondLaws.FinalPosition | src/derive/MillisecondDeriver.cpp:282-326 | the last position is the initial one plus the motion of all reports, with the Y sign of the convention |
| MillisecondLaws.EdgesChain | src/derive/MillisecondDeriver.cpp:286-313 | the button edges of all bins in a row lead from the initial buttons to the last ones |
| MillisecondLaws.OrderIndependent | src/derive/MillisecondDeriver.cpp:202-328 | with distinct sequence numbers, permuting the input changes no bin of two successful derivations except the bits that record a regression |
| MillisecondLaws.TotalsPermute | src/derive/MillisecondDeriver.cpp:202-231 | the sums of a list of reports do not depend on its order |
| MillisecondDeriver.SuccessPermutes | src/derive/MillisecondDeriver.cpp:166-331 | nor does whether their derivation succeeds |
| MillisecondDeriver.DeriveBoth | src/derive/MillisecondDeriver.cpp:166-331 | deriving from reports and from a permutation of them: both fail or both succeed, and then, with distinct sequence numbers, their bins agree except for the regression bits |
| LiveReportMirror.FrameReadsBack | src/capture/LiveReportMirror.cpp:95-206 | a frame reads back to the fields that the mirror keeps, for all their values |
| LiveReportMirror.DamagedFrameRefused | src/capture/LiveReportMirror.cpp:171-200 | a frame with one payload byte changed is refused |
| LiveReportMirror.MirrorHeaderReadsBack | src/capture/LiveReportMirror.cpp:52-165 | the header reads back to bus, device, endpoint and descriptor digest |
| LiveReportMirror.TakesWritten | src/capture/LiveReportMirror.cpp:171-206 | from any prefix of what has been written the reader takes exactly the whole frames, and no check of its fails |
| LiveReportMirror.OpenWriter | src/capture/LiveReportMirror.cpp:52-89 | a mirror is created exactly for an absolute path, a file that can be created new and a usable identity, checked in this order |
| LiveReportMirror.OpenReader | src/capture/LiveReportMirror.cpp:145-165 | opening needs the whole header, sound |
| LiveReportMirror.EncodeFrame | src/capture/LiveReportMirror.cpp:106-123 | the field by field encoding is the frame |
| LiveReportMirror.Writer.Append | src/capture/LiveReportMirror.cpp:95-129 | the order of the refusals; the bytes that reach the file are appended, whole frame or part of one; success adds the report to those in whole frames, unless bytes of a failed write stand before it |
| LiveReportMirror.Writer.Finalize | src/capture/LiveReportMirror.cpp:137-143 | finishing twice is refused |
| LiveReportMirror.Reader.TakeFrame | src/capture/LiveReportMirror.cpp:174-204 | one frame is taken if it is sound and in order |
| LiveReportMirror.Reader.TakeAvailable | src/capture/LiveReportMirror.cpp:171-206 | all whole frames up to the size seen when the call was made |
| LiveReportMirror.Reader.RequireCleanFinalTail | src/capture/LiveReportMirror.cpp:208-213 | passes exactly when no part of a frame is left; the frames it still finds are read but not handed to anyone |
| LiveReportMirror.NextTake | src/capture/LiveReportMirror.cpp:171-206 | a reader of the first frames that sees less than a frame behind the whole ones is not refused, and takes exactly the whole frames it sees and has not taken |
| LiveReportMirror.MisreadIff | src/capture/LiveReportMirror.cpp:171-206 | a take that sees a frame or more behind the whole frames is refused exactly when the bytes there are refused as frames; otherwise it takes all whole frames and those |
| LiveReportMirror.ReadsFront | src/capture/LiveReportMirror.cpp:95-206 | over any script of appends, failed writes and takes: unless a take is refused, what has been handed on is the front part of the appended reports that some take saw, or all of them and something from behind; and none is refused when no take sees a frame's worth of bytes behind the whole frames |
| LiveReportMirror.ShortTailAligned | src/capture/LiveReportMirror.cpp:95-129 | none does when less than a frame of bytes stands behind the whole frames at the end, as when nothing is appended after a failed write or failed writes leave no bytes |
| LiveReportMirror.Write | src/capture/LiveReportMirror.cpp:95-129 | an append, whole or torn, keeps writer, file and reader where the script of operations leaves them |
| LiveReportMirror.Watch | src/capture/LiveReportMirror.cpp:171-206 | a take hands on what the script says, or is refused exactly when the script says so |
| LiveReportMirror.Perform | src/capture/LiveReportMirror.cpp:95-206 | any script of appends and takes leaves writer, file and reader where its specification says, or stops at the first take that is refused |
| LiveReportMirror.DeliveredIff | src/capture/LiveReportMirror.cpp:171-206 | at least n reports have been handed on if and only if some take saw n frames whole |
| LiveReportMirror.AllDelivered | src/capture/LiveReportMirror.cpp:171-213 | all whole frames have been handed on if and only if there are none or some take saw the last one; with less than a frame behind them, if and only if less than a frame of the file is unread |
| LiveReportMirror.CheckTail | src/capture/LiveReportMirror.cpp:208-213 | after a script that leaves less than a frame behind the whole frames, the final check passes if and only if nothing is left there; what was unread before it is counted |
| LiveReportMirror.Follow | src/capture/LiveReportMirror.cpp:95-213 | for every interleaving of writes, failed writes, visible prefixes and takes: what has been handed on and what has been appended in whole frames agree as far as both go, each with its report's numbers, time, motion and buttons; as long as no take sees a frame's worth of bytes behind the whole frames, no take fails, what has been handed on is, once and in order, the front part that some take saw whole, and it is all if and only if some take saw the last frame; with less than a frame left behind the whole frames, the final check passes if and only if nothing is, and all has been handed on if and only if less than a frame is unread before it |
| LiveReportMirror.CleanButUndelivered | src/capture/LiveReportMirror.cpp:208-213 | a concrete file of one whole frame, of which a reader has read nothing, passes the final check although the report was never delivered |
| LiveReportMirror.FollowUndelivered | src/capture/LiveReportMirror.cpp:95-213 | the same as a run: the final check passes and nothing has been handed on |
| LiveReportMirror.TornFrame | src/capture/LiveReportMirror.cpp:176-182 | a frame of which up to three, or all but up to four, bytes were written, read together with the frame after it, is refused, unless 44 bytes were written of a report with ID 40: then it reads as that report |
| LiveReportMirror.TornScript | src/capture/LiveReportMirror.cpp:95-206 | so an append after such a failed write makes the next take that sees a frame fail, or hand on a report whose append had failed |
| ParticipantFlow.Flow.Apply | src/app/ParticipantFlow.cpp:208-217 | a rejected event changes nothing; a discarded active event is exactly an accepted step from Playing to Paused |
| ParticipantFlow.ReachableIsSound | src/app/ParticipantFlow.cpp:219-507 | in every reachable state: paused exactly when paused by hand or blocked outside Ready; Ready knows only the input blocker; pending exactly while preserving; a failure exactly while preserving or in Error; an archive to send exactly in Complete or in Error with one |
| ParticipantFlow.TerminalIff | src/app/ParticipantFlow.cpp:251-507 | a reachable state accepts no event if and only if it is terminal |
| ParticipantFlow.DiscardedCountsInterruptions | src/app/ParticipantFlow.cpp:219-345 | the discarded-event counter equals the number of steps from Playing to Paused, modulo 2^32 |
| ParticipantFlow.WarningsCounted | src/app/ParticipantFlow.cpp:53-64 | each kind of warning is counted as often as it was accepted, modulo 2^32 |
| ParticipantFlow.ConsentComesFirst | src/app/ParticipantFlow.cpp:251-345 | no run gets past privacy, certification or the start of capture without the accepted event for it |
| ParticipantFlow.NoWayBack | src/app/ParticipantFlow.cpp:251-507 | a capture once begun ends only through saving or preserving |
| ParticipantHistory.TakenIff | src/app/ParticipantFlow.cpp:251-507 | the exact stages and conditions in which each event is accepted |
| ParticipantHistory.HistoryTells | src/app/ParticipantFlow.cpp:219-507 | after any events, the state follows from the accepted ones: the stage is where the last one that moves leads (to Playing only from a finished countdown, to the resume countdown when the last blocker goes and nobody has paused by hand); sensitivity, run length, problem, failure, preservation, sending and manual pause are what the last event about them says; a blocker is there exactly when it was lost and not restored since; attempts are counted modulo 2^32 |
| CaptureHelperClient.ClosedOnce | src/acquisition/CaptureHelperClient.cpp:651-961 | over a disciplined list of actions a process is closed at most once, and not at all while it is held |
| CaptureHelperClient.Client.FinishExited | src/acquisition/CaptureHelperClient.cpp:918-935 | the handle is closed; the capture is complete exactly for exit code 0 without forced termination |
| CaptureHelperClient.Client.TerminateFailedStart | src/acquisition/CaptureHelperClient.cpp:937-950 | the process is gone, or still held and marked as forced |
| CaptureHelperClient.Client.CleanupControls | src/acquisition/CaptureHelperClient.cpp:952-961 | control files go only when no process is held |
| CaptureHelperClient.Client.AwaitReady | src/acquisition/CaptureHelperClient.cpp:724-800 | the waiting loop ends with a running helper or with a settled failure, and the first decisive thing it hears decides which: the ready file with the right process IDs, an error file or exit, a failing wait, or the end of the time, with or without a wrong ready file seen |
| CaptureHelperClient.Client.PrepareAndLaunch | src/acquisition/CaptureHelperClient.cpp:662-722 | everything before the wait: the configuration, the executable, the control files and the launch, each with its own failure |
| CaptureHelperClient.Client.CheckFiles | src/acquisition/CaptureHelperClient.cpp:726-764 | one look at the error and ready files keeps waiting exactly when nothing decisive is found |
| CaptureHelperClient.Client.WaitSlice | src/acquisition/CaptureHelperClient.cpp:766-782 | one wait on the process keeps waiting exactly when it still runs |
| CaptureHelperClient.Client.Start | src/acquisition/CaptureHelperClient.cpp:651-801 | start is single-shot; it answers success exactly when the helper runs; a failure before the wait is the one that the platform's answers and the launch give, and one in the wait is decided by the first decisive thing heard |
| CaptureHelperClient.Client.Snapshot | src/acquisition/CaptureHelperClient.cpp:803-821 | a snapshot changes the state only by finding that the process has exited, and then completes the capture exactly for exit code 0 without force |
| CaptureHelperClient.Client.RequestStop | src/acquisition/CaptureHelperClient.cpp:840-854 | true exactly when the capture is complete, a stop is already requested, or the stop file of a ready helper could be written; only that changes the state |
| CaptureHelperClient.Client.StopAndWait | src/acquisition/CaptureHelperClient.cpp:856-916 | stopped exactly when the process is gone, by itself or by force, and the answer says which |
| CaptureHelperClient.Client.ObserveHealthAndError | src/acquisition/CaptureHelperClient.cpp:823-838 | a status once read is never lost again, and nothing is read without control files |
| CaptureHelperClient.Client.AwaitExit | src/acquisition/CaptureHelperClient.cpp:878-894 | the graceful wait ends with the exit of the process or leaves the state as it was |
| CaptureHelperClient.Client.ForceExit | src/acquisition/CaptureHelperClient.cpp:896-916 | after force the process is gone, or it is kept together with its control files |
| CaptureHelperClient.Use | src/acquisition/CaptureHelperClient.cpp:651-961 | over all sequences of calls and all answers of the platform: one launch at most; the handle is used only while held and closed at most once; control files are never removed while it is held; a running or stopping client holds it; and once a picture shows a completed capture, with exit code 0, all later ones do |
| CaptureHelperClient.MappedConsistently | src/acquisition/CaptureHelperRecordingControl.cpp:35-84 | a reachable snapshot maps to running exactly while the process is held and to stopped for good exactly once it is gone after a start; a stop is clean if and only if a helper that had become ready ended by itself with code 0 and its last health says completed without a fatal reason; the fatal issue is that of the error file's reason, else of the health's, else a lost helper after a failure |
| CaptureHelperClient.RecordingControl.BeginCapture | src/acquisition/CaptureHelperRecordingControl.cpp:105-138 | begin works once and answers true exactly when the client runs; a failed one is shown as a stop with a lost helper |
| CaptureHelperClient.RecordingControl.RequestStop | src/acquisition/CaptureHelperRecordingControl.cpp:140-151 | only the first stop after a begin does anything; it shows the client's picture with the stop requested |
| CaptureHelperClient.RecordingControl.FinishStop | src/acquisition/CaptureHelperRecordingControl.cpp:140-165 | when the background stop is over, the picture shown meanwhile is dropped and the flags stay; a process still held was forced |
| CaptureHelperClient.RecordingControl.Snapshot | src/acquisition/CaptureHelperRecordingControl.cpp:152-166 | no snapshot shown is ever running and stopped for good at once |
| CertificationProbe.CountedBalances | src/acquisition/CertificationProbe.cpp:134-288 | counting one more record keeps every balance |
| CertificationProbe.AccountBalances | src/acquisition/CertificationProbe.cpp:134-288 | for all lists of records: records = requests + completions, completions = failed + empty + successful, successful = decoded + undecodable, decoded reports = kept + omitted samples, and exactly the records of the endpoint are counted |
| CertificationProbe.Route.Observe | src/acquisition/CertificationProbe.cpp:147-170 | regressions, the latest time and repetitions are noted and no other counter moves |
| CertificationProbe.Route.NotePayload | src/acquisition/CertificationProbe.cpp:181-193 | payload changes are counted against the last payload of the same endpoint |
| CertificationProbe.Route.NoteInterval | src/acquisition/CertificationProbe.cpp:198-220 | every later transfer is one kept, omitted or non-positive interval |
| CertificationProbe.Route.KeepSample | src/acquisition/CertificationProbe.cpp:249-285 | one sample is kept, the totals stay the fold of the samples, and left-down minus left-up edges is 1 if pressed and 0 if not; the numeric-bound failure is unreachable |
| CertificationProbe.Route.KeepSamples | src/acquisition/CertificationProbe.cpp:243-286 | as many samples are kept as there is room for, from the front, and the others are counted as omitted |
| CertificationProbe.Route.NoteSuccess | src/acquisition/CertificationProbe.cpp:180-221 | a successful transfer is counted, compared with the last payload of its endpoint, and its interval noted |
| CertificationProbe.Route.DecodeSuccess | src/acquisition/CertificationProbe.cpp:223-287 | its data is counted as decoded or undecodable, and its reports become samples as far as there is room |
| CertificationProbe.Route.Complete | src/acquisition/CertificationProbe.cpp:146-287 | a completion of any kind is noted, counted and sampled as its packet says |
| CertificationProbe.Route.Process | src/acquisition/CertificationProbe.cpp:134-288 | one record of a route is accounted for, its samples are gained, and repetitions, regressions, payload changes and intervals are noted as the record says |
| CertificationProbe.TraceExact | src/acquisition/CertificationProbe.cpp:243-286 | the samples of a list of reports: each has its report's motion, its time relative to the first one, and the edge of the button since the report before it |
| CertificationProbe.SamplesAreFirst | src/acquisition/CertificationProbe.cpp:243-286 | over any records, the reports that become samples are the first ones, as many as there is room for, and every report is counted |
| CertificationProbe.IntervalsCount | src/acquisition/CertificationProbe.cpp:147-220 | over any records: kept, omitted and nonpositive intervals are together the successful transfers but the first; kept ones are positive and not too many; regressions and repetitions are at most the completions, payload changes at most the successes |
| CertificationProbe.RouteExact | src/acquisition/CertificationProbe.cpp:134-288 | after a run, a route's samples are those of the first reports decoded from the records it takes, every report is counted, and every successful transfer but the first is accounted for as an interval |
| CertificationProbe.AddressStep | src/acquisition/CertificationProbe.cpp:501-530 | the check against the bus observed so far decides whether all records are of one address (every packet of the selected device, and from the first candidate on all of one bus; without a selected bus the bus is not looked at before that) |
| CertificationProbe.Probe.ProcessRecord | src/acquisition/CertificationProbe.cpp:400-424 | a record is refused if and only if it is one too many, or does not parse, or is not of the one address, and with that reason |
| CertificationProbe.Probe.ProcessChunk | src/acquisition/CertificationProbe.cpp:378-425 | a chunk is taken if and only if it is not too long and the source including it is within its bounds, parses and is of one address; otherwise the reason is its length, the framing, or that of the first record refused |
| CertificationProbe.Examine | src/acquisition/CertificationProbe.cpp:378-537 | a whole run succeeds if and only if the source is within its bounds, a whole PCAP file and of one address (every packet of the selected device, and from the first candidate on all of one bus; without a selected bus the bus is not looked at before that); then source = candidate + ignored records and all counters, samples and intervals of every route are what the file's records come to, however it was cut into chunks; a failure has the reason of the first chunk refused, or else of a file that is not whole |
| CertificationMeaning.CountersMean | src/acquisition/CertificationProbe.cpp:134-288 | each counter of a route is the number of packets of its kind: on the route, requests, completions, failed, empty, successful, decodable and undecodable |
| CertificationMeaning.NotesMean | src/acquisition/CertificationProbe.cpp:147-220 | regressions are the completions with a later one before them, repetitions those equal to the one before, payload changes the successes that differ from the last one at their endpoint; kept intervals are the first gaps between successes later than all before, nonpositive ones the other successes |
| CertificationMeaning.RouteMeans | src/acquisition/CertificationProbe.cpp:134-288 | what a route shows after any records: these counters and notes; samples of the first decoded reports, as many as there is room for, each with its report's motion, its time since the first report, and left-down and left-up exactly when bit 0 of the buttons changes; and totals that are sums over the samples |

## Left out

- ReportStream.ReportStreamWriter.Append: it requires the difference of consecutive timestamps to fit int64, because its overflow is undefined in the source; the pipeline is proved always to meet this.
- ReportStream.WriteThenRead: the same requirement on the appended timestamps.
- JsonRoundTrip.DumpReadsBack: it does not cover doubles, because a double with an integral value prints as an integer and parses back as one.
- JsonText.Parser.TakeNumber: what strtod makes of a token is a parameter, and a double is known only by the digits it is shown with.
- JsonText.Parser.TakeValue: the depth of recursion is not bounded, as it is not in the source; running out of stack is not modelled.
- JsonReading.ParseIff: for a text that is refused it does not say which of the parser's messages is given; JsonText.ParseText ties these to the grammar functions.
- HidDeclarations.DescriptorReadsBack: its declarations all have a report ID or none has; that Input items may stand before the first report ID is part of HidAcceptance.AcceptedIff.
- CommandLine.SplitReadsBack: it is about the text handed to the helper; that Windows ends an argument at a zero character is not modelled.
- LiveReportMirror.Reader.TakeAvailable: the report it returns is modelled by the fields the mirror stores; the others are constants of the reader.
- ParticipantFlow.ReachableIsSound: a sensitivity that is not finite is an event without a number; presentation texts are left out.
- CaptureWorker.Run: the native side's verdict on the drain evidence, its status and the operator's stop are parameters; the snapshots published for the user interface are left out.
- CaptureHelperClient.Use: each call is one step, because the client holds one lock for it; the contents of status files are the platform's answers, already parsed.
- CaptureHelperClient.RecordingControl.Snapshot: the background thread's wait is the separate step FinishStop.
- DevicePcapWriter.DeviceWriter.Finalize: its checkpoint, its refusal to overwrite and its rename are one answer of the disk.
- CapturePipeline.Open: the rules for output paths are one flag.
- CapturePipeline.CapturePipeline.ProcessRecord: a journal entry is its code, record number and IRP; its times and detail text are left out.
- MillisecondDeriver.DeriveMillisecondBins: the limits that memory sets to the number of bins and the checks that 64-bit regression counters do not overflow are left out.
- CertificationProbe.Examine: the flags for a reached sample or interval limit and the drain evidence are left out.
- The buffering of output streams, and what a failed write leaves in a PCAP or report file, of which nothing is claimed then. A failed flush is taken to leave the bytes written before it, so what is said of the device file after a framing or identity fault holds whether or not the checkpoint that follows the fault succeeds.
- Counters that the source keeps in uint64 are natural numbers here where the bytes of a source bound them.
- Win32, BCrypt, SetupAPI and USBPcap driver calls, durable flushing and atomic renaming.
- SHA-256, Deflate, the archive reader and the line reader of the inspector; of its manifest only what parse_reports looks up is there, as a `Session`, and the digest of the evidence is a parameter in it.
- CanonicalDecoderSpec and MaximumInputReportByteLength of the HID descriptor.
- The whole-root mode of the certification probe with its choice of a stream, the certification flow, activity correlation and the clock fit.
- Rendering, audio, settings, highscores, inventory and the inspector's window.
