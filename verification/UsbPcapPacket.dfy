/** USBPcap record payloads (src/capture/UsbPcapPacket.cpp). */
module UsbPcapPacket {
  import opened Machine
  import opened Binary

  const BASE_HEADER := 27
  const INTERRUPT: byte := 1

  datatype Packet = Packet(
    headerLength: uint16,
    irpId: uint64,
    status: uint32,
    urbFunction: uint16,
    info: byte,
    bus: uint16,
    device: uint16,
    endpoint: byte,
    transfer: byte,
    declaredDataLength: uint32,
    payloadTruncated: bool,
    payload: seq<byte>)
  {
    predicate IsCompletion() {
      info % 2 == 1
    }
  }

  /** The fixed part, read before anything is checked. */
  function BaseHeader(bytes: seq<byte>): Packet
    requires |bytes| >= BASE_HEADER
  {
    Widths();
    FixedBound(bytes[0..2], true);
    FixedBound(bytes[2..10], true);
    FixedBound(bytes[10..14], true);
    FixedBound(bytes[14..16], true);
    FixedBound(bytes[17..19], true);
    FixedBound(bytes[19..21], true);
    FixedBound(bytes[23..27], true);
    Packet(FromLittleEndian(bytes[0..2]), FromLittleEndian(bytes[2..10]), FromLittleEndian(bytes[10..14]),
           FromLittleEndian(bytes[14..16]), bytes[16], FromLittleEndian(bytes[17..19]),
           FromLittleEndian(bytes[19..21]), bytes[21], bytes[22], FromLittleEndian(bytes[23..27]), false, [])
  }

  function Parse(bytes: seq<byte>, originalLength: Option<uint32>): Result<Packet, Fault> {
    if |bytes| < BASE_HEADER then Err(Truncated)
    else
      var packet := BaseHeader(bytes);
      if packet.info >= 2 then Err(ReservedBits)
      else if packet.headerLength < BASE_HEADER || packet.headerLength > |bytes| then Err(UnsafeLength)
      else
        var captured := |bytes| - packet.headerLength;
        var expected := packet.headerLength + packet.declaredDataLength;
        if packet.declaredDataLength > captured then
          if originalLength.None? || originalLength.value != expected || originalLength.value <= |bytes| then
            Err(Truncated)
          else Ok(packet.(payloadTruncated := true, payload := bytes[packet.headerLength..]))
        else if packet.declaredDataLength != captured then Err(TrailingPayload)
        else if originalLength.Some? && originalLength.value != |bytes| then Err(LengthMismatch)
        else Ok(packet.(payload := bytes[packet.headerLength..packet.headerLength + packet.declaredDataLength]))
  }

  /** With the PCAP original length at hand the two branches are one rule: the record is
      accepted when header and declared data add up to that length and the captured bytes
      do not go beyond it, and it is marked truncated when they stop short of it. */
  lemma AcceptedIff(bytes: seq<byte>, original: uint32)
    requires |bytes| >= BASE_HEADER
    ensures var base := BaseHeader(bytes);
            var result := Parse(bytes, Some(original));
            && (result.Ok? <==>
                  && base.info < 2
                  && BASE_HEADER <= base.headerLength <= |bytes|
                  && original == base.headerLength + base.declaredDataLength
                  && |bytes| <= original)
            && (result.Ok? ==> (result.value.payloadTruncated <==> |bytes| < original))
            && (result.Ok? ==> result.value.payload == bytes[base.headerLength..])
            && (result.Ok? && result.value.IsCompletion() ==> result.value.info == 1)
  {
    var base := BaseHeader(bytes);
    if base.headerLength <= |bytes| && base.declaredDataLength == |bytes| - base.headerLength {
      assert bytes[base.headerLength..] == bytes[base.headerLength..base.headerLength + base.declaredDataLength];
    }
  }

  /** What every accepted packet satisfies, with or without an original length. */
  lemma AcceptedPacket(bytes: seq<byte>, original: Option<uint32>)
    requires Parse(bytes, original).Ok?
    ensures var packet := Parse(bytes, original).value;
            && packet.info <= 1
            && |packet.payload| + BASE_HEADER <= |bytes|
            && (!packet.payloadTruncated ==> |packet.payload| == packet.declaredDataLength)
  {
  }
}
