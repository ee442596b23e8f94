/** The live mirror (src/capture/LiveReportMirror.cpp): one process appends fixed-size frames
    to a file while another reads it. The reader sees some prefix of the bytes written. */
module LiveReportMirror {
  import opened Machine
  import opened Binary
  import opened ReportCodec
  import opened ReportReading
  import Crc32

  const LIVE_MAGIC: seq<byte> := [0x41, 0x42, 0x44, 0x43, 0x4c, 0x49, 0x56, 0x31]
  const LIVE_VERSION := 1
  const PAYLOAD := 40
  const FRAME := 48
  const HEADER := 88
  const TWO_32: int := 0x1_0000_0000

  function ToUInt32(x: int32): uint32 {
    if x >= 0 then x else x + TWO_32
  }

  function WrapInt32(x: uint32): int32 {
    if x <= MAX_INT32 then x else x - TWO_32
  }

  /** What the mirror keeps of a report; the rest of the reader's report is constant. */
  datatype Mirrored = Mirrored(
    captureSequence: uint64,
    pcapSequence: uint64,
    captureUnixNs: int64,
    dx: int32,
    dy: int32,
    buttons: uint32,
    reportId: byte)

  function Project(r: Report): Mirrored {
    Mirrored(r.captureSequence, r.pcapSequence, r.captureUnixNs, r.dx, r.dy, r.buttons, r.reportId)
  }

  function Projected(reports: seq<Report>): (mirrored: seq<Mirrored>)
    ensures |mirrored| == |reports|
  {
    seq(|reports|, i requires 0 <= i < |reports| => Project(reports[i]))
  }

  /** The frame has the numbers, the time, the motion and the buttons of the report. */
  predicate Mirrors(m: Mirrored, r: Report) {
    && m.captureSequence == r.captureSequence && m.pcapSequence == r.pcapSequence
    && m.captureUnixNs == r.captureUnixNs && m.dx == r.dx && m.dy == r.dy
    && m.buttons == r.buttons && m.reportId == r.reportId
  }

  /** As far as both go. */
  ghost predicate AllMirror(mirrored: seq<Mirrored>, reports: seq<Report>) {
    forall i :: 0 <= i < |mirrored| && i < |reports| ==> Mirrors(mirrored[i], reports[i])
  }

  // ---------------------------------------------------------------------
  // Header and frames
  // ---------------------------------------------------------------------

  predicate MirrorIdentity(id: Identity) {
    id.bus != 0 && id.device != 0 && id.endpoint >= 0x80 && |id.descriptorSha256| == 64
  }

  function HeaderBody(id: Identity): seq<byte> {
    LIVE_MAGIC + (LittleEndian(LIVE_VERSION, 2) + (LittleEndian(PAYLOAD, 2) + (LittleEndian(id.bus, 2)
      + (LittleEndian(id.device, 2) + ([id.endpoint, 0] + (LittleEndian(0, 2) + id.descriptorSha256))))))
  }

  function HeaderBytes(id: Identity): seq<byte> {
    HeaderBody(id) + LittleEndian(Crc32.Checksum(HeaderBody(id)), 4)
  }

  function PayloadBytes(m: Mirrored): (bytes: seq<byte>)
    ensures |bytes| == PAYLOAD
  {
    LittleEndian(m.captureSequence, 8) + (LittleEndian(m.pcapSequence, 8) + (LittleEndian(ToUInt64(m.captureUnixNs), 8)
      + (LittleEndian(ToUInt32(m.dx), 4) + (LittleEndian(ToUInt32(m.dy), 4) + (LittleEndian(m.buttons, 4)
      + [m.reportId, 0, 0, 0])))))
  }

  function FrameBytes(m: Mirrored): (bytes: seq<byte>)
    ensures |bytes| == FRAME
  {
    LittleEndian(PAYLOAD, 4) + LittleEndian(Crc32.Checksum(PayloadBytes(m)), 4) + PayloadBytes(m)
  }

  function Frames(mirrored: seq<Mirrored>): (bytes: seq<byte>)
    ensures |bytes| == FRAME * |mirrored|
  {
    if mirrored == [] then [] else Frames(mirrored[..|mirrored| - 1]) + FrameBytes(mirrored[|mirrored| - 1])
  }

  /** The payload of a frame that passes the checks. */
  function DecodePayload(payload: seq<byte>): Mirrored
    requires |payload| == PAYLOAD
  {
    Widths();
    FixedBound(payload[0..8], true);
    FixedBound(payload[8..16], true);
    FixedBound(payload[24..28], true);
    FixedBound(payload[28..32], true);
    FixedBound(payload[32..36], true);
    Mirrored(FromLittleEndian(payload[0..8]), FromLittleEndian(payload[8..16]),
             WrapInt64(FromLittleEndian(payload[16..24])), WrapInt32(FromLittleEndian(payload[24..28])),
             WrapInt32(FromLittleEndian(payload[28..32])), FromLittleEndian(payload[32..36]), payload[36])
  }

  function ReadFrame(frame: seq<byte>): Result<Mirrored, Fault>
    requires |frame| == FRAME
  {
    if FromLittleEndian(frame[0..4]) != PAYLOAD || Crc32.Checksum(frame[8..]) != FromLittleEndian(frame[4..8]) then
      Err(ChecksumMismatch)
    else Ok(DecodePayload(frame[8..]))
  }

  function ReadMirrorHeader(bytes: seq<byte>): Result<Identity, Fault>
    requires |bytes| == HEADER
  {
    if bytes[..8] != LIVE_MAGIC || FromLittleEndian(bytes[8..10]) != LIVE_VERSION
       || FromLittleEndian(bytes[10..12]) != PAYLOAD
       || Crc32.Checksum(bytes[..84]) != FromLittleEndian(bytes[84..88])
    then Err(Rejected)
    else
      Widths();
      FixedBound(bytes[12..14], true);
      FixedBound(bytes[14..16], true);
      Ok(Identity(FromLittleEndian(bytes[12..14]), FromLittleEndian(bytes[14..16]), bytes[16], bytes[20..84],
                  [], [], 0))
  }

  /** The part of an identity that the header keeps. */
  function Short(id: Identity): Identity {
    Identity(id.bus, id.device, id.endpoint, id.descriptorSha256, [], [], 0)
  }

  lemma Signed(x: int32, y: int64)
    ensures WrapInt32(ToUInt32(x)) == x && WrapInt64(ToUInt64(y)) == y
  {
  }

  lemma PayloadReadsBack(m: Mirrored)
    ensures DecodePayload(PayloadBytes(m)) == m
  {
    hide LittleEndian, FromLittleEndian, ReadFixed, ToUInt64, ToUInt32, WrapInt32, WrapInt64;
    Widths();
    Signed(m.dx, m.captureUnixNs);
    Signed(m.dy, 0);
    var payload := PayloadBytes(m);
    var t6 := [m.reportId, 0, 0, 0];
    var t5 := LittleEndian(m.buttons, 4) + t6;
    var t4 := LittleEndian(ToUInt32(m.dy), 4) + t5;
    var t3 := LittleEndian(ToUInt32(m.dx), 4) + t4;
    var t2 := LittleEndian(ToUInt64(m.captureUnixNs), 8) + t3;
    var t1 := LittleEndian(m.pcapSequence, 8) + t2;
    assert payload[0..] == payload;
    ReadFixedPrefix(payload, 0, m.captureSequence, 8, t1);
    ReadFixedPrefix(payload, 8, m.pcapSequence, 8, t2);
    ReadFixedPrefix(payload, 16, ToUInt64(m.captureUnixNs), 8, t3);
    ReadFixedPrefix(payload, 24, ToUInt32(m.dx), 4, t4);
    ReadFixedPrefix(payload, 28, ToUInt32(m.dy), 4, t5);
    ReadFixedPrefix(payload, 32, m.buttons, 4, t6);
    assert payload[36] == payload[36..][0];
  }

  lemma FrameReadsBack(m: Mirrored)
    ensures ReadFrame(FrameBytes(m)) == Ok(m)
  {
    hide LittleEndian, FromLittleEndian, Crc32.Checksum, PayloadBytes, DecodePayload;
    Widths();
    var frame, payload := FrameBytes(m), PayloadBytes(m);
    var size, checksum := LittleEndian(PAYLOAD, 4), LittleEndian(Crc32.Checksum(payload), 4);
    Assoc(size, checksum, payload);
    assert frame[0..] == frame;
    ReadFixedPrefix(frame, 0, PAYLOAD, 4, checksum + payload);
    ReadFixedPrefix(frame, 4, Crc32.Checksum(payload), 4, payload);
    PayloadReadsBack(m);
  }

  /** A frame whose payload has one byte changed is refused. */
  lemma DamagedFrameRefused(m: Mirrored, damaged: seq<byte>, at: nat)
    requires |damaged| == FRAME && 8 <= at < FRAME && damaged[at] != FrameBytes(m)[at]
    requires forall i :: 0 <= i < FRAME && i != at ==> damaged[i] == FrameBytes(m)[i]
    ensures ReadFrame(damaged) == Err(ChecksumMismatch)
  {
    hide LittleEndian, FromLittleEndian, Crc32.Checksum, PayloadBytes;
    var frame := FrameBytes(m);
    FrameReadsBack(m);
    assert damaged[4..8] == frame[4..8];
    assert forall i :: 0 <= i < PAYLOAD ==> damaged[8..][i] == damaged[i + 8] && frame[8..][i] == frame[i + 8];
    Crc32.DetectsOneByte(frame[8..], damaged[8..], at - 8);
  }

  function BodyTail(id: Identity): seq<byte> {
    [id.endpoint, 0] + (LittleEndian(0, 2) + id.descriptorSha256)
  }

  lemma BodyStart(id: Identity)
    ensures var body := HeaderBody(id);
            && |body| >= 16 && body[0..8] == LIVE_MAGIC
            && FromLittleEndian(body[8..10]) == LIVE_VERSION && FromLittleEndian(body[10..12]) == PAYLOAD
            && FromLittleEndian(body[12..14]) == id.bus && FromLittleEndian(body[14..16]) == id.device
            && body[16..] == BodyTail(id)
  {
    hide LittleEndian, FromLittleEndian, ReadFixed, BodyTail;
    Widths();
    var body, t5 := HeaderBody(id), BodyTail(id);
    var t4 := LittleEndian(id.device, 2) + t5;
    var t3 := LittleEndian(id.bus, 2) + t4;
    var t2 := LittleEndian(PAYLOAD, 2) + t3;
    var t1 := LittleEndian(LIVE_VERSION, 2) + t2;
    assert body == LIVE_MAGIC + t1 by { BodyTailIs(id); }
    assert body[0..] == body;
    Skip(body, 0, LIVE_MAGIC, t1);
    ReadFixedPrefix(body, 8, LIVE_VERSION, 2, t2);
    ReadFixedPrefix(body, 10, PAYLOAD, 2, t3);
    ReadFixedPrefix(body, 12, id.bus, 2, t4);
    ReadFixedPrefix(body, 14, id.device, 2, t5);
  }

  lemma BodyTailIs(id: Identity)
    ensures HeaderBody(id)
         == LIVE_MAGIC + (LittleEndian(LIVE_VERSION, 2) + (LittleEndian(PAYLOAD, 2) + (LittleEndian(id.bus, 2)
            + (LittleEndian(id.device, 2) + BodyTail(id)))))
  {
    hide LittleEndian;
  }

  lemma BodyReadsBack(id: Identity)
    requires MirrorIdentity(id)
    ensures var body := HeaderBody(id);
            |body| == 84 && body[16] == id.endpoint && body[20..84] == id.descriptorSha256
  {
    hide LittleEndian, HeaderBody, FromLittleEndian;
    BodyStart(id);
    var body, tail := HeaderBody(id), BodyTail(id);
    assert body[16] == tail[0];
    assert body[20..] == tail[4..] == id.descriptorSha256;
    assert |body| == 16 + |tail|;
    assert body[20..84] == body[20..];
  }

  /** What a reader that opens the file learns of it. */
  lemma MirrorHeaderReadsBack(id: Identity)
    requires MirrorIdentity(id)
    ensures |HeaderBytes(id)| == HEADER && ReadMirrorHeader(HeaderBytes(id)) == Ok(Short(id))
  {
    hide LittleEndian, FromLittleEndian, ReadFixed, Crc32.Checksum, HeaderBody;
    Widths();
    BodyStart(id);
    BodyReadsBack(id);
    var file, body := HeaderBytes(id), HeaderBody(id);
    var checksum := LittleEndian(Crc32.Checksum(body), 4);
    assert checksum + [] == checksum && file[84..] == checksum;
    ReadFixedPrefix(file, 84, Crc32.Checksum(body), 4, []);
    assert file[..84] == body && file[..8] == body[0..8];
    assert file[8..10] == body[8..10] && file[10..12] == body[10..12];
    assert file[12..14] == body[12..14] && file[14..16] == body[14..16];
    assert file[20..84] == body[20..84];
  }

  // ---------------------------------------------------------------------
  // Frames in a row
  // ---------------------------------------------------------------------

  lemma FramesLast(mirrored: seq<Mirrored>)
    requires mirrored != []
    ensures Frames(mirrored) == Frames(mirrored[..|mirrored| - 1]) + FrameBytes(mirrored[|mirrored| - 1])
  {
    hide FrameBytes;
  }

  lemma {:induction false} FramesFirst(mirrored: seq<Mirrored>)
    requires mirrored != []
    ensures Frames(mirrored) == FrameBytes(mirrored[0]) + Frames(mirrored[1..])
  {
    hide FrameBytes, Frames;
    var k := |mirrored| - 1;
    FramesLast(mirrored);
    if k == 0 {
      NoFrames();
      assert mirrored[..0] == [] && mirrored[1..] == [];
      assert [] + FrameBytes(mirrored[0]) == FrameBytes(mirrored[0]) + [];
    } else {
      FramesFirst(mirrored[..k]);
      FramesLast(mirrored[1..]);
      assert mirrored[..k][1..] == mirrored[1..][..k - 1];
      Assoc(FrameBytes(mirrored[0]), Frames(mirrored[1..][..k - 1]), FrameBytes(mirrored[k]));
    }
  }

  /** A frame that may come after `previous`. */
  predicate InOrder(previous: Option<Mirrored>, m: Mirrored) {
    previous.Some? ==> previous.value.captureSequence < m.captureSequence
                       && previous.value.captureUnixNs <= m.captureUnixNs
  }

  function Latest(previous: Option<Mirrored>, mirrored: seq<Mirrored>): Option<Mirrored> {
    if mirrored == [] then previous else Some(mirrored[|mirrored| - 1])
  }

  ghost predicate AllInOrder(previous: Option<Mirrored>, mirrored: seq<Mirrored>) {
    forall i :: 0 <= i < |mirrored| ==> InOrder(Latest(previous, mirrored[..i]), mirrored[i])
  }

  /** One call of TakeAvailable on the bytes from the reader's offset to the visible end. */
  function TakeFrames(bytes: seq<byte>, previous: Option<Mirrored>): Result<seq<Mirrored>, Fault>
    decreases |bytes|
  {
    if |bytes| < FRAME then Ok([])
    else
      var m :- ReadFrame(bytes[..FRAME]);
      if !InOrder(previous, m) then Err(SequenceRegression)
      else
        var others :- TakeFrames(bytes[FRAME..], Some(m));
        Ok([m] + others)
  }

  lemma TakeOne(bytes: seq<byte>, previous: Option<Mirrored>)
    ensures |bytes| < FRAME ==> TakeFrames(bytes, previous) == Ok([])
    ensures |bytes| >= FRAME ==>
              var first := ReadFrame(bytes[..FRAME]);
              && (first.Err? ==> TakeFrames(bytes, previous) == Err(first.error))
              && (first.Ok? && !InOrder(previous, first.value) ==>
                    TakeFrames(bytes, previous) == Err(SequenceRegression))
              && (first.Ok? && InOrder(previous, first.value) ==>
                    var others := TakeFrames(bytes[FRAME..], Some(first.value));
                    && (others.Err? ==> TakeFrames(bytes, previous) == Err(others.error))
                    && (others.Ok? ==> TakeFrames(bytes, previous) == Ok([first.value] + others.value)))
  {
    hide ReadFrame, InOrder;
  }

  lemma TakeNone(previous: Option<Mirrored>)
    ensures TakeFrames([], previous) == Ok([])
  {
  }

  lemma OrderTail(previous: Option<Mirrored>, mirrored: seq<Mirrored>)
    requires mirrored != [] && AllInOrder(previous, mirrored)
    ensures InOrder(previous, mirrored[0]) && AllInOrder(Some(mirrored[0]), mirrored[1..])
  {
    hide InOrder;
    assert mirrored[..0] == [];
    forall i | 0 <= i < |mirrored[1..]|
      ensures InOrder(Latest(Some(mirrored[0]), mirrored[1..][..i]), mirrored[1..][i])
    {
      assert InOrder(Latest(previous, mirrored[..i + 1]), mirrored[i + 1]);
      assert i > 0 ==> mirrored[1..][..i][i - 1] == mirrored[..i + 1][i];
    }
  }

  /** From any prefix of what has been written, the reader takes the whole frames in it, and
      no check of its fails. */
  lemma {:induction false} TakesWritten(mirrored: seq<Mirrored>, previous: Option<Mirrored>, visible: seq<byte>,
                                        partial: seq<byte>)
    requires AllInOrder(previous, mirrored) && |partial| < FRAME
    requires visible <= Frames(mirrored) + partial
    ensures |visible| / FRAME <= |mirrored|
    ensures TakeFrames(visible, previous) == Ok(mirrored[..|visible| / FRAME])
    decreases |mirrored|
  {
    hide FrameBytes, Frames, ReadFrame, InOrder, AllInOrder;
    NoFrames();
    if |visible| >= FRAME {
      var m, others := mirrored[0], mirrored[1..];
      FramesFirst(mirrored);
      OrderTail(previous, mirrored);
      FrameReadsBack(m);
      var all := Frames(mirrored) + partial;
      Assoc(FrameBytes(m), Frames(others), partial);
      assert all[..FRAME] == FrameBytes(m) && all[FRAME..] == Frames(others) + partial;
      assert visible[..FRAME] == all[..FRAME];
      assert visible[FRAME..] <= all[FRAME..];
      TakesWritten(others, Some(m), visible[FRAME..], partial);
      assert mirrored[..|visible| / FRAME] == [m] + others[..|visible| / FRAME - 1];
    }
  }

  lemma NoFrames()
    ensures Frames([]) == []
  {
  }

  // ---------------------------------------------------------------------
  // Writer and reader over one file
  // ---------------------------------------------------------------------

  /** A successful completion of the mirrored endpoint. */
  predicate Belongs(id: Identity, report: Report) {
    && report.bus == id.bus && report.device == id.device && report.endpoint == id.endpoint
    && report.transfer == 1 && report.info % 2 == 1 && report.status == 0
  }

  class MirrorFile {
    var bytes: seq<byte>

    constructor ()
      ensures bytes == []
    {
      bytes := [];
    }
  }

  /** A report that may be appended to some others. */
  predicate Suits(id: Identity, appended: seq<Report>, report: Report) {
    && Belongs(id, report)
    && (appended != [] ==>
          && appended[|appended| - 1].captureSequence < report.captureSequence
          && appended[|appended| - 1].captureUnixNs <= report.captureUnixNs)
  }

  function Smaller(a: nat, b: nat): nat {
    if a < b then a else b
  }

  /** What a writer leaves behind the header: the reports appended in whole frames; the bytes
      after these, which begin with those of a write that failed; and the reports whose frames
      are somewhere in these bytes, although appending them succeeded. */
  datatype Written = Written(appended: seq<Report>, tail: seq<byte>, lost: seq<Report>) {
    function Length(): nat {
      HEADER + FRAME * |appended| + |tail|
    }
  }

  const NOTHING := Written([], [], [])

  function FileOf(id: Identity, w: Written): seq<byte> {
    HeaderBytes(id) + Frames(Projected(w.appended)) + w.tail
  }

  /** One append, of which `written` bytes reach the file. */
  function After(id: Identity, w: Written, report: Report, written: nat): Written {
    if !Suits(id, w.appended + w.lost, report) then w
    else
      var frame := FrameBytes(Project(report));
      if written < FRAME then w.(tail := w.tail + frame[..written])
      else if w.tail == [] then w.(appended := w.appended + [report])
      else w.(tail := w.tail + frame, lost := w.lost + [report])
  }

  ghost predicate Sound(w: Written) {
    (w.tail == [] ==> w.lost == []) && AllInOrder(None, Projected(w.appended))
  }

  lemma AfterSound(id: Identity, w: Written, report: Report, written: nat)
    requires Sound(w)
    ensures Sound(After(id, w, report, written))
  {
    hide AllInOrder, FrameBytes, Projected;
    if Suits(id, w.appended + w.lost, report) && w.tail == [] {
      assert w.appended + [] == w.appended;
      AppendedOrder(w.appended, report);
    }
  }

  lemma GrownFile(id: Identity, w: Written, report: Report, written: nat)
    requires Suits(id, w.appended + w.lost, report) && written <= FRAME
    ensures FileOf(id, After(id, w, report, written)) == FileOf(id, w) + FrameBytes(Project(report))[..written]
  {
    hide HeaderBytes, Frames, FrameBytes, Suits, Projected;
    var frame, front := FrameBytes(Project(report)), HeaderBytes(id) + Frames(Projected(w.appended));
    assert frame[..FRAME] == frame;
    if written == FRAME && w.tail == [] {
      AppendedFile(id, w.appended, report);
    } else {
      Assoc(front, w.tail, frame[..written]);
    }
  }

  class Writer {
    const file: MirrorFile
    const identity: Identity
    var previousSequence: Option<uint64>
    var previousTimestamp: Option<int64>
    var recordCount: nat
    var finalized: bool

    /** What has been left in the file so far. */
    ghost var left: Written

    ghost predicate Valid()
      reads this, file
    {
      && MirrorIdentity(identity)
      && file.bytes == FileOf(identity, left)
      && Sound(left)
      && Remembers(left.appended + left.lost)
    }

    /** The fields are those of these reports, appended one after the other. */
    ghost predicate Remembers(accepted: seq<Report>)
      reads `previousSequence, `previousTimestamp, `recordCount
    {
      && recordCount == |accepted|
      && (previousSequence.Some? <==> accepted != []) && (previousTimestamp.Some? <==> accepted != [])
      && (accepted != [] ==>
            && previousSequence.value == accepted[|accepted| - 1].captureSequence
            && previousTimestamp.value == accepted[|accepted| - 1].captureUnixNs)
    }

    constructor (file: MirrorFile, id: Identity)
      requires MirrorIdentity(id) && file.bytes == []
      modifies file
      ensures Valid() && this.file == file && identity == id && left == NOTHING && !finalized
      ensures file.bytes == HeaderBytes(id)
    {
      this.file, identity := file, id;
      previousSequence, previousTimestamp, recordCount, finalized := None, None, 0, false;
      left := NOTHING;
      new;
      hide HeaderBytes;
      file.bytes := HeaderBytes(id);
      assert HeaderBytes(id) + [] + [] == HeaderBytes(id);
    }

    predicate Regresses(report: Report)
      reads `previousSequence, `previousTimestamp
    {
      || (previousSequence.Some? && report.captureSequence <= previousSequence.value)
      || (previousTimestamp.Some? && report.captureUnixNs < previousTimestamp.value)
    }

    /** What the writer's own fields say of a report. */
    lemma SuitsIff(accepted: seq<Report>, report: Report)
      requires Remembers(accepted)
      ensures Suits(identity, accepted, report) <==> Belongs(identity, report) && !Regresses(report)
    {
      hide Belongs;
    }

    /** `written` says how many of the frame's bytes reach the file. After a failed write the
        file may end in part of a frame, but nothing keeps the writer from being used again. */
    method Append(report: Report, written: nat) returns (result: Result<(), Fault>)
      requires Valid() && written <= FRAME
      modifies this, file
      ensures Valid() && finalized == old(finalized)
      ensures result == (if old(finalized) then Err(Finalized)
                         else if !Belongs(identity, report) then Err(NotSuccessfulCompletion)
                         else if old(Regresses(report)) then Err(SequenceRegression)
                         else if written < FRAME then Err(WriteFailed)
                         else Ok(()))
      ensures left == if old(finalized) then old(left) else After(identity, old(left), report, written)
      ensures result.Ok? || result == Err(WriteFailed) ==>
                file.bytes == old(file.bytes) + FrameBytes(Project(report))[..written]
      ensures result.Err? && result != Err(WriteFailed) ==> file.bytes == old(file.bytes) && left == old(left)
    {
      hide HeaderBytes, FrameBytes, Frames, FileOf, Suits, Sound, After, Belongs;
      ghost var accepted, before := left.appended + left.lost, left;
      SuitsIff(accepted, report);
      AfterSound(identity, left, report, written);
      AcceptedAfter(identity, left, report, written);
      if finalized {
        return Err(Finalized);
      }
      if !Belongs(identity, report) {
        return Err(NotSuccessfulCompletion);
      }
      if Regresses(report) {
        return Err(SequenceRegression);
      }
      var frame := EncodeFrame(report);
      GrownFile(identity, left, report, written);
      file.bytes := file.bytes + frame[..written];
      left := After(identity, left, report, written);
      if written < FRAME {
        return Err(WriteFailed);
      }
      previousSequence, previousTimestamp := Some(report.captureSequence), Some(report.captureUnixNs);
      recordCount := recordCount + 1;
      return Ok(());
    }

    method Finalize(diskOk: bool) returns (result: Result<(), Fault>)
      requires Valid()
      modifies `finalized
      ensures Valid() && finalized == (old(finalized) || result.Ok?)
      ensures result == (if old(finalized) then Err(Finalized) else if diskOk then Ok(()) else Err(WriteFailed))
    {
      if finalized {
        return Err(Finalized);
      }
      if !diskOk {
        return Err(WriteFailed);
      }
      finalized := true;
      return Ok(());
    }
  }

  lemma AcceptedAfter(id: Identity, w: Written, report: Report, written: nat)
    requires Sound(w)
    ensures var after := After(id, w, report, written);
            && (!Suits(id, w.appended + w.lost, report) ==> after == w)
            && (Suits(id, w.appended + w.lost, report) ==>
                  after.appended + after.lost
                  == (if written < FRAME then w.appended + w.lost else w.appended + w.lost + [report]))
  {
    hide FrameBytes, Suits;
    assert w.appended + (w.lost + [report]) == w.appended + w.lost + [report];
    assert w.lost == [] ==> w.appended + [report] + w.lost == w.appended + w.lost + [report];
  }

  /** The frame of a report, field after field. */
  method EncodeFrame(report: Report) returns (frame: seq<byte>)
    ensures frame == FrameBytes(Project(report))
  {
    hide LittleEndian, ToUInt32, ToUInt64, Crc32.Checksum;
    ghost var m := Project(report);
    ghost var t6: seq<byte> := [m.reportId, 0, 0, 0];
    ghost var t5 := LittleEndian(m.buttons, 4) + t6;
    ghost var t4 := LittleEndian(ToUInt32(m.dy), 4) + t5;
    ghost var t3 := LittleEndian(ToUInt32(m.dx), 4) + t4;
    ghost var t2 := LittleEndian(ToUInt64(m.captureUnixNs), 8) + t3;
    ghost var t1 := LittleEndian(m.pcapSequence, 8) + t2;
    var payload := AppendUnsigned([], report.captureSequence, 8);
    assert [] + LittleEndian(m.captureSequence, 8) == LittleEndian(m.captureSequence, 8);
    Assoc(payload, LittleEndian(m.pcapSequence, 8), t2);
    payload := AppendUnsigned(payload, report.pcapSequence, 8);
    Assoc(payload, LittleEndian(ToUInt64(m.captureUnixNs), 8), t3);
    payload := AppendUnsigned(payload, ToUInt64(report.captureUnixNs), 8);
    Assoc(payload, LittleEndian(ToUInt32(m.dx), 4), t4);
    payload := AppendUnsigned(payload, ToUInt32(report.dx), 4);
    Assoc(payload, LittleEndian(ToUInt32(m.dy), 4), t5);
    payload := AppendUnsigned(payload, ToUInt32(report.dy), 4);
    Assoc(payload, LittleEndian(m.buttons, 4), t6);
    payload := AppendUnsigned(payload, report.buttons, 4);
    payload := payload + [report.reportId, 0, 0, 0];
    assert payload == PayloadBytes(m);
    var checksum := Crc32.Compute(payload);
    frame := AppendUnsigned([], PAYLOAD, 4);
    assert [] + LittleEndian(PAYLOAD, 4) == LittleEndian(PAYLOAD, 4);
    frame := AppendUnsigned(frame, checksum, 4);
    frame := frame + payload;
  }

  lemma AppendedFile(id: Identity, appended: seq<Report>, report: Report)
    ensures HeaderBytes(id) + Frames(Projected(appended)) + [] + FrameBytes(Project(report))
         == HeaderBytes(id) + Frames(Projected(appended + [report])) + []
  {
    hide HeaderBytes, FrameBytes;
    var grown := Projected(appended + [report]);
    assert grown[..|appended|] == Projected(appended);
    assert grown[|appended|] == Project(report);
    Assoc(HeaderBytes(id), Frames(Projected(appended)), FrameBytes(Project(report)));
  }

  lemma AppendedOrder(appended: seq<Report>, report: Report)
    requires AllInOrder(None, Projected(appended))
    requires appended != [] ==>
               && appended[|appended| - 1].captureSequence < report.captureSequence
               && appended[|appended| - 1].captureUnixNs <= report.captureUnixNs
    ensures AllInOrder(None, Projected(appended + [report]))
  {
    var grown := Projected(appended + [report]);
    forall i | 0 <= i < |grown|
      ensures InOrder(Latest(None, grown[..i]), grown[i])
    {
      if i < |appended| {
        assert InOrder(Latest(None, Projected(appended)[..i]), Projected(appended)[i]);
        assert grown[..i] == Projected(appended)[..i];
      }
    }
  }

  class Reader {
    const file: MirrorFile
    const identity: Identity
    var offset: nat
    var previousSequence: Option<uint64>
    var previousTimestamp: Option<int64>
    var recordCount: nat

    /** The frames read so far, whether or not they were handed on. */
    ghost var read: seq<Mirrored>

    ghost predicate Valid()
      reads this
    {
      && offset == HEADER + FRAME * |read| && recordCount == |read|
      && (previousSequence.Some? <==> read != []) && (previousTimestamp.Some? <==> read != [])
      && (read != [] ==>
            && previousSequence.value == read[|read| - 1].captureSequence
            && previousTimestamp.value == read[|read| - 1].captureUnixNs)
    }

    constructor (file: MirrorFile, identity: Identity)
      ensures Valid() && this.file == file && this.identity == identity && read == []
    {
      this.file, this.identity := file, identity;
      offset, previousSequence, previousTimestamp, recordCount, read := HEADER, None, None, 0, [];
    }

    /** The frame at the offset, if it is sound and in order. */
    method TakeFrame() returns (result: Result<Mirrored, Fault>)
      requires Valid() && offset + FRAME <= |file.bytes|
      modifies this
      ensures Valid()
      ensures var first := ReadFrame(file.bytes[old(offset)..old(offset) + FRAME]);
              && (first.Err? ==> result == Err(first.error))
              && (first.Ok? && !InOrder(Latest(None, old(read)), first.value) ==> result == Err(SequenceRegression))
              && (first.Ok? && InOrder(Latest(None, old(read)), first.value) ==> result == first)
      ensures result.Ok? ==> read == old(read) + [result.value] && offset == old(offset) + FRAME
    {
      hide ReadFrame;
      var decoded := CheckFrame(file.bytes[offset..offset + FRAME]);
      if decoded.Err? {
        return Err(decoded.error);
      }
      var m := decoded.value;
      if (previousSequence.Some? && m.captureSequence <= previousSequence.value)
         || (previousTimestamp.Some? && m.captureUnixNs < previousTimestamp.value) {
        return Err(SequenceRegression);
      }
      previousSequence, previousTimestamp := Some(m.captureSequence), Some(m.captureUnixNs);
      recordCount := recordCount + 1;
      offset := offset + FRAME;
      read := read + [m];
      return Ok(m);
    }

    /** All whole frames between the offset and `size`, the size of the file when the call
        was made. */
    method TakeAvailable(size: nat) returns (result: Result<seq<Mirrored>, Fault>)
      requires Valid() && size <= |file.bytes|
      modifies this
      ensures Valid()
      ensures var taken := TakeFrames(Unread(file.bytes, old(offset), size), Latest(None, old(read)));
              && (taken.Err? ==> result == Err(taken.error))
              && (taken.Ok? ==> result == taken && read == old(read) + taken.value)
    {
      hide ReadFrame, TakeFrames, InOrder, Valid, Unread, Latest;
      var reports: seq<Mirrored> := [];
      ghost var whole := TakeFrames(Unread(file.bytes, offset, size), Latest(None, read));
      assert read + [] == read;
      NothingInFront<Mirrored>();
      while size >= offset && size - offset >= FRAME
        invariant Valid() && read == old(read) + reports
        invariant var more := TakeFrames(Unread(file.bytes, offset, size), Latest(None, read));
                  && (more.Err? ==> whole == Err(more.error))
                  && (more.Ok? ==> whole == Ok(reports + more.value))
        decreases size - offset
      {
        UnreadFront(file.bytes, offset, size);
        TakeOne(Unread(file.bytes, offset, size), Latest(None, read));
        var m := TakeFrame();
        if m.Err? {
          return Err(m.error);
        }
        ItemInFront(reports, m.value);
        LatestGrows(old(read) + reports, m.value);
        assert old(read) + reports + [m.value] == old(read) + (reports + [m.value]);
        reports := reports + [m.value];
      }
      UnreadEnd(file.bytes, offset, size);
      TakeOne(Unread(file.bytes, offset, size), Latest(None, read));
      assert reports + [] == reports;
      return Ok(reports);
    }

    /** What is still there is read and checked, but not handed to anyone. */
    method RequireCleanFinalTail() returns (result: Result<(), Fault>)
      requires Valid() && offset <= |file.bytes|
      modifies this
      ensures Valid()
      ensures var taken := TakeFrames(file.bytes[old(offset)..], Latest(None, old(read)));
              && (taken.Err? ==> result == Err(taken.error))
              && (taken.Ok? ==> read == old(read) + taken.value && offset == old(offset) + FRAME * |taken.value|)
      ensures result.Ok? <==> PassesFinalCheck(file.bytes, old(offset), Latest(None, old(read)))
    {
      hide TakeFrames, Latest;
      assert file.bytes[offset..|file.bytes|] == file.bytes[offset..];
      var taken := TakeAvailable(|file.bytes|);
      if taken.Err? {
        return Err(taken.error);
      }
      if |file.bytes| != offset {
        return Err(TrailingBytes);
      }
      return Ok(());
    }
  }

  /** The final check's answer to a reader at `offset`: every frame that is left is sound and
      in order, and they reach the end of the file. */
  predicate PassesFinalCheck(bytes: seq<byte>, offset: nat, previous: Option<Mirrored>)
    requires offset <= |bytes|
  {
    var taken := TakeFrames(bytes[offset..], previous);
    taken.Ok? && offset + FRAME * |taken.value| == |bytes|
  }

  /** The bytes from an offset up to a size, if there are any. */
  function Unread(bytes: seq<byte>, offset: nat, size: nat): seq<byte>
    requires size <= |bytes|
  {
    if size < offset then [] else bytes[offset..size]
  }

  lemma UnreadFront(bytes: seq<byte>, offset: nat, size: nat)
    requires offset + FRAME <= size <= |bytes|
    ensures var unread := Unread(bytes, offset, size);
            && |unread| >= FRAME && unread[..FRAME] == bytes[offset..offset + FRAME]
            && unread[FRAME..] == Unread(bytes, offset + FRAME, size)
  {
  }

  lemma UnreadEnd(bytes: seq<byte>, offset: nat, size: nat)
    requires size <= |bytes| && size < offset + FRAME
    ensures |Unread(bytes, offset, size)| < FRAME
  {
  }

  lemma LatestGrows(read: seq<Mirrored>, m: Mirrored)
    ensures Latest(None, read + [m]) == Some(m)
  {
  }

  method CheckFrame(frame: seq<byte>) returns (result: Result<Mirrored, Fault>)
    requires |frame| == FRAME
    ensures result == ReadFrame(frame)
  {
    hide Crc32.Checksum, FromLittleEndian;
    var size := ReadAvailable(frame, 0, 4, true);
    var expected := ReadAvailable(frame, 4, 4, true);
    var checksum := Crc32.Compute(frame[8..]);
    if size != PAYLOAD || checksum != expected {
      return Err(ChecksumMismatch);
    }
    return Ok(DecodePayload(frame[8..]));
  }

  /** Create the mirror: its path must be absolute, the file new, and the identity usable. */
  method OpenWriter(file: MirrorFile, absolute: bool, created: bool, id: Identity)
    returns (result: Result<Writer, Fault>)
    requires file.bytes == []
    modifies file
    ensures result.Ok? <==> absolute && created && MirrorIdentity(id)
    ensures result.Ok? ==>
              && fresh(result.value) && result.value.Valid() && result.value.file == file && result.value.identity == id
              && result.value.left == NOTHING && !result.value.finalized
    ensures result == Err(WriteFailed) <==> absolute && !created
    ensures result.Err? ==> result.error in {InvalidArgument, WriteFailed} && file.bytes == []
  {
    if !absolute {
      return Err(InvalidArgument);
    }
    if !created {
      return Err(WriteFailed);
    }
    if !MirrorIdentity(id) {
      return Err(InvalidArgument);
    }
    var writer := new Writer(file, id);
    return Ok(writer);
  }

  /** Open the mirror with `size` of its bytes there: the whole header must be, and sound. */
  method OpenReader(file: MirrorFile, size: nat) returns (result: Result<Reader, Fault>)
    requires size <= |file.bytes|
    ensures result == Err(Truncated) <==> size < HEADER
    ensures size >= HEADER ==>
              var header := ReadMirrorHeader(file.bytes[..HEADER]);
              && (result.Ok? <==> header.Ok?)
              && (result.Ok? ==> fresh(result.value) && result.value.Valid() && result.value.file == file
                                 && result.value.identity == header.value && result.value.read == [])
  {
    hide Crc32.Checksum, FromLittleEndian;
    if size < HEADER {
      return Err(Truncated);
    }
    var header := ReadMirrorHeader(file.bytes[..HEADER]);
    if header.Err? {
      return Err(header.error);
    }
    var reader := new Reader(file, header.value);
    return Ok(reader);
  }

  // ---------------------------------------------------------------------
  // What a take finds
  // ---------------------------------------------------------------------

  lemma OrderFrom(mirrored: seq<Mirrored>, n: nat)
    requires AllInOrder(None, mirrored) && n <= |mirrored|
    ensures AllInOrder(Latest(None, mirrored[..n]), mirrored[n..])
  {
    hide InOrder;
    forall i | 0 <= i < |mirrored[n..]|
      ensures InOrder(Latest(Latest(None, mirrored[..n]), mirrored[n..][..i]), mirrored[n..][i])
    {
      assert InOrder(Latest(None, mirrored[..n + i]), mirrored[n + i]);
      assert i > 0 ==> mirrored[n..][..i][i - 1] == mirrored[..n + i][n + i - 1];
      assert i == 0 ==> mirrored[..n + i] == mirrored[..n];
    }
  }

  lemma {:induction false} FramesFrom(mirrored: seq<Mirrored>, n: nat)
    requires n <= |mirrored|
    ensures Frames(mirrored) == Frames(mirrored[..n]) + Frames(mirrored[n..])
    decreases |mirrored|
  {
    hide FrameBytes;
    var k := |mirrored| - 1;
    if n == |mirrored| {
      assert mirrored[..n] == mirrored && mirrored[n..] == [];
      assert Frames(mirrored) + [] == Frames(mirrored);
    } else {
      FramesFrom(mirrored[..k], n);
      assert mirrored[..k][..n] == mirrored[..n] && mirrored[..k][n..] == mirrored[n..][..k - n];
      Assoc(Frames(mirrored[..n]), Frames(mirrored[n..][..k - n]), FrameBytes(mirrored[k]));
    }
  }

  lemma DropFront(front: seq<byte>, rest: seq<byte>)
    ensures (front + rest)[|front|..] == rest
  {
  }

  lemma FileFrom(header: seq<byte>, mirrored: seq<Mirrored>, partial: seq<byte>, n: nat)
    requires |header| == HEADER && n <= |mirrored|
    ensures (header + Frames(mirrored) + partial)[HEADER + FRAME * n..] == Frames(mirrored[n..]) + partial
  {
    hide Frames;
    FramesFrom(mirrored, n);
    var front, others := Frames(mirrored[..n]), Frames(mirrored[n..]);
    Assoc(header, front, others);
    Assoc(header + front, others, partial);
    DropFront(header + front, others + partial);
  }

  /** What a reader takes from the first `length` bytes that it has not read. */
  lemma TakesNext(mirrored: seq<Mirrored>, partial: seq<byte>, n: nat, length: nat)
    requires |partial| < FRAME && n <= |mirrored| && AllInOrder(None, mirrored)
    requires length <= FRAME * (|mirrored| - n) + |partial|
    ensures n + length / FRAME <= |mirrored|
    ensures TakeFrames((Frames(mirrored[n..]) + partial)[..length], Latest(None, mirrored[..n]))
         == Ok(mirrored[n..][..length / FRAME])
  {
    hide Frames, TakeFrames, AllInOrder, Latest;
    OrderFrom(mirrored, n);
    TakesWritten(mirrored[n..], Latest(None, mirrored[..n]), (Frames(mirrored[n..]) + partial)[..length], partial);
  }

  lemma Visible(file: seq<byte>, from: nat, to: nat)
    requires from <= to <= |file|
    ensures file[from..to] == file[from..][..to - from]
  {
  }

  lemma NextTakeOf(file: seq<byte>, offset: nat, mirrored: seq<Mirrored>, partial: seq<byte>, n: nat, size: nat)
    requires |partial| < FRAME && n <= |mirrored| && AllInOrder(None, mirrored)
    requires offset <= size <= |file| && file[offset..] == Frames(mirrored[n..]) + partial
    ensures n + (size - offset) / FRAME <= |mirrored|
    ensures TakeFrames(Unread(file, offset, size), Latest(None, mirrored[..n]))
         == Ok(mirrored[n..][..(size - offset) / FRAME])
  {
    hide Frames, TakeFrames, AllInOrder, Latest;
    Visible(file, offset, size);
    assert |file[offset..]| == FRAME * (|mirrored| - n) + |partial|;
    TakesNext(mirrored, partial, n, size - offset);
  }

  /** What a reader of the first n frames takes when it sees `size` bytes. */
  lemma TakesUnread(file: seq<byte>, header: seq<byte>, mirrored: seq<Mirrored>, partial: seq<byte>, n: nat,
                    size: nat)
    requires |header| == HEADER && |partial| < FRAME && n <= |mirrored| && AllInOrder(None, mirrored)
    requires file == header + Frames(mirrored) + partial && size <= |file|
    ensures HEADER + FRAME * n <= |file| && n + Gained(n, size) <= |mirrored|
    ensures TakeFrames(Unread(file, HEADER + FRAME * n, size), Latest(None, mirrored[..n]))
         == Ok(mirrored[n..n + Gained(n, size)])
  {
    hide Frames, TakeFrames, AllInOrder, Latest, Unread;
    FileFrom(header, mirrored, partial, n);
    if size >= HEADER + FRAME * n {
      NextTakeOf(file, HEADER + FRAME * n, mirrored, partial, n, size);
      assert mirrored[n..][..Gained(n, size)] == mirrored[n..n + Gained(n, size)];
    } else {
      NothingUnread(file, HEADER + FRAME * n, size, Latest(None, mirrored[..n]));
      assert mirrored[n..n + Gained(n, size)] == [];
    }
  }

  /** How many more frames are whole among `size` bytes. */
  function Gained(n: nat, size: nat): nat {
    if size >= HEADER + FRAME * n then (size - HEADER - FRAME * n) / FRAME else 0
  }

  lemma NothingUnread(bytes: seq<byte>, offset: nat, size: nat, previous: Option<Mirrored>)
    requires size < offset && size <= |bytes|
    ensures TakeFrames(Unread(bytes, offset, size), previous) == Ok([])
  {
    TakeNone(previous);
  }

  lemma FileLength(id: Identity, w: Written)
    requires MirrorIdentity(id)
    ensures |HeaderBytes(id)| == HEADER && |FileOf(id, w)| == w.Length()
  {
    hide HeaderBytes, Frames, Projected;
    MirrorHeaderReadsBack(id);
  }

  /** A reader of the first n frames that sees less than a frame behind the whole ones is not
      refused, and takes the whole frames that it sees and has not taken. */
  lemma NextTake(id: Identity, w: Written, n: nat, size: nat)
    requires MirrorIdentity(id) && Sound(w) && n <= |w.appended| && size <= w.Length()
    requires size < HEADER + FRAME * (|w.appended| + 1)
    ensures var mirrored := Projected(w.appended);
            && |FileOf(id, w)| == w.Length() && n + Gained(n, size) <= |mirrored|
            && TakeFrames(Unread(FileOf(id, w), HEADER + FRAME * n, size), Latest(None, mirrored[..n]))
               == Ok(mirrored[n..n + Gained(n, size)])
  {
    hide HeaderBytes, Frames, TakeFrames, AllInOrder, Projected, Latest, Gained;
    FileLength(id, w);
    var mirrored, partial := Projected(w.appended), w.tail[..Smaller(|w.tail|, FRAME - 1)];
    var front := HeaderBytes(id) + Frames(mirrored);
    TakesUnread(front + partial, HeaderBytes(id), mirrored, partial, n, size);
    assert front + partial <= FileOf(id, w);
    SameUnread(front + partial, FileOf(id, w), HEADER + FRAME * n, size);
  }

  lemma SameUnread(a: seq<byte>, b: seq<byte>, offset: nat, size: nat)
    requires a <= b && size <= |a|
    ensures Unread(a, offset, size) == Unread(b, offset, size)
  {
  }

  /** Behind whole frames a take goes on with whatever stands there. */
  lemma {:induction false} PastTheFrames(mirrored: seq<Mirrored>, previous: Option<Mirrored>, rest: seq<byte>)
    requires AllInOrder(previous, mirrored)
    ensures var all := TakeFrames(Frames(mirrored) + rest, previous);
            var more := TakeFrames(rest, Latest(previous, mirrored));
            && (more.Err? ==> all == Err(more.error))
            && (more.Ok? ==> all == Ok(mirrored + more.value))
    decreases |mirrored|
  {
    hide FrameBytes, Frames, ReadFrame, InOrder, AllInOrder;
    if mirrored == [] {
      NoFrames();
      assert [] + rest == rest;
      NothingInFront<Mirrored>();
    } else {
      var m, others := mirrored[0], mirrored[1..];
      FramesFirst(mirrored);
      OrderTail(previous, mirrored);
      FrameReadsBack(m);
      Assoc(FrameBytes(m), Frames(others), rest);
      var bytes := FrameBytes(m) + (Frames(others) + rest);
      assert bytes[..FRAME] == FrameBytes(m) && bytes[FRAME..] == Frames(others) + rest;
      PastTheFrames(others, Some(m), rest);
      assert Latest(Some(m), others) == Latest(previous, mirrored);
      var more := TakeFrames(rest, Latest(previous, mirrored));
      if more.Ok? {
        Assoc([m], others, more.value);
        assert [m] + others == mirrored;
      }
    }
  }

  /** A take that sees a frame or more behind the whole frames is refused exactly when what it
      sees there is no sound frame, or one out of order; otherwise it takes that too. */
  lemma MisreadIff(id: Identity, w: Written, n: nat, size: nat)
    requires MirrorIdentity(id) && Sound(w) && n <= |w.appended|
    requires HEADER + FRAME * (|w.appended| + 1) <= size <= w.Length()
    ensures |FileOf(id, w)| == w.Length()
    ensures var mirrored := Projected(w.appended);
            var taken := TakeFrames(Unread(FileOf(id, w), HEADER + FRAME * n, size), Latest(None, mirrored[..n]));
            var behind := TakeFrames(w.tail[..size - HEADER - FRAME * |w.appended|], Latest(None, mirrored));
            && (behind.Err? ==> taken == Err(behind.error))
            && (behind.Ok? ==> taken == Ok(mirrored[n..] + behind.value))
  {
    hide HeaderBytes, Frames, TakeFrames, AllInOrder, Projected;
    FileLength(id, w);
    var mirrored, seen := Projected(w.appended), w.tail[..size - HEADER - FRAME * |w.appended|];
    FileFrom(HeaderBytes(id), mirrored, w.tail, n);
    Visible(FileOf(id, w), HEADER + FRAME * n, size);
    assert (Frames(mirrored[n..]) + w.tail)[..size - HEADER - FRAME * n] == Frames(mirrored[n..]) + seen;
    OrderFrom(mirrored, n);
    PastTheFrames(mirrored[n..], Latest(None, mirrored[..n]), seen);
    LatestJoins(mirrored, n);
  }

  lemma LatestJoins(mirrored: seq<Mirrored>, n: nat)
    requires n <= |mirrored|
    ensures Latest(Latest(None, mirrored[..n]), mirrored[n..]) == Latest(None, mirrored)
  {
    assert n == |mirrored| ==> mirrored[..n] == mirrored;
  }

  lemma {:induction false} TakesFit(bytes: seq<byte>, previous: Option<Mirrored>)
    ensures TakeFrames(bytes, previous).Ok? ==> FRAME * |TakeFrames(bytes, previous).value| <= |bytes|
    decreases |bytes|
  {
    hide ReadFrame, InOrder;
    if |bytes| >= FRAME && ReadFrame(bytes[..FRAME]).Ok? {
      TakesFit(bytes[FRAME..], Some(ReadFrame(bytes[..FRAME]).value));
    }
  }

  // ---------------------------------------------------------------------
  // Every interleaving
  // ---------------------------------------------------------------------

  datatype Operation = AppendReport(report: Report, written: nat) | TakeVisible(size: nat)

  /** What a script leaves in the file. */
  function WrittenBy(id: Identity, script: seq<Operation>): Written {
    if script == [] then NOTHING
    else
      var before := WrittenBy(id, script[..|script| - 1]);
      match script[|script| - 1]
      case TakeVisible(_) => before
      case AppendReport(report, written) => After(id, before, report, written)
  }

  /** What a reader that follows the script has read and handed on, unless a take was refused. */
  function ReadBy(id: Identity, script: seq<Operation>): Option<seq<Mirrored>> {
    if script == [] then Some([])
    else
      var before := ReadBy(id, script[..|script| - 1]);
      match script[|script| - 1]
      case AppendReport(_, _) => before
      case TakeVisible(size) =>
        if before.None? then None
        else NextRead(FileOf(id, WrittenBy(id, script[..|script| - 1])), before.value, size)
  }

  function NextRead(file: seq<byte>, read: seq<Mirrored>, size: nat): Option<seq<Mirrored>> {
    match TakeFrames(Unread(file, HEADER + FRAME * |read|, Smaller(size, |file|)), Latest(None, read))
    case Err(_) => None
    case Ok(taken) => Some(read + taken)
  }

  /** The whole frames among the first `seen` bytes of a file. */
  function WholeFrames(seen: nat): nat {
    if seen < HEADER then 0 else (seen - HEADER) / FRAME
  }

  /** How many of the reports appended in whole frames have been visible at some take. */
  function Delivered(id: Identity, script: seq<Operation>): (n: nat)
    ensures n <= |WrittenBy(id, script).appended|
  {
    if script == [] then 0
    else
      var before := Delivered(id, script[..|script| - 1]);
      match script[|script| - 1]
      case AppendReport(_, _) => before
      case TakeVisible(size) =>
        var w := WrittenBy(id, script);
        var whole := Smaller(WholeFrames(Smaller(size, w.Length())), |w.appended|);
        if whole > before then whole else before
  }

  /** A reader that has read n frames and sees `seen` bytes takes those it has not read. */
  lemma TakenFrames(n: nat, seen: nat)
    ensures n + Gained(n, seen) == if WholeFrames(seen) > n then WholeFrames(seen) else n
  {
  }

  lemma WrittenStep(id: Identity, script: seq<Operation>, operation: Operation)
    ensures operation.TakeVisible? ==> WrittenBy(id, script + [operation]) == WrittenBy(id, script)
    ensures operation.AppendReport? ==>
              WrittenBy(id, script + [operation])
              == After(id, WrittenBy(id, script), operation.report, operation.written)
  {
    hide After;
    assert (script + [operation])[..|script|] == script;
  }

  lemma ReadStep(id: Identity, script: seq<Operation>, operation: Operation)
    ensures var before, after := ReadBy(id, script), ReadBy(id, script + [operation]);
            && (before.None? || operation.AppendReport? ==> after == before)
            && (before.Some? && operation.TakeVisible? ==>
                  after == NextRead(FileOf(id, WrittenBy(id, script)), before.value, operation.size))
  {
    hide WrittenBy, NextRead;
    assert (script + [operation])[..|script|] == script;
  }

  lemma DeliveredStep(id: Identity, script: seq<Operation>, operation: Operation)
    ensures var before, after := Delivered(id, script), Delivered(id, script + [operation]);
            && (operation.AppendReport? ==> after == before)
            && (operation.TakeVisible? ==>
                  var w := WrittenBy(id, script);
                  var whole := Smaller(WholeFrames(Smaller(operation.size, w.Length())), |w.appended|);
                  after == if whole > before then whole else before)
  {
    hide WholeFrames, After;
    WrittenStep(id, script, operation);
    assert (script + [operation])[..|script|] == script;
  }

  lemma {:induction false} WrittenSound(id: Identity, script: seq<Operation>)
    ensures Sound(WrittenBy(id, script))
  {
    hide After, Sound;
    if script == [] {
      assert Sound(NOTHING) by { NothingSound(); }
    } else {
      var k := |script| - 1;
      WrittenSound(id, script[..k]);
      match script[k] {
        case TakeVisible(_) =>
        case AppendReport(report, written) =>
          AfterSound(id, WrittenBy(id, script[..k]), report, written);
      }
    }
  }

  lemma NothingSound()
    ensures Sound(NOTHING)
  {
  }

  /** What is in whole frames, and what is behind them, only grows; and behind anything else
      no whole frame is counted. */
  lemma {:induction false} WrittenGrows(id: Identity, script: seq<Operation>, i: nat)
    requires i <= |script|
    ensures var before, after := WrittenBy(id, script[..i]), WrittenBy(id, script);
            && before.appended <= after.appended && before.tail <= after.tail
            && (before.tail != [] ==> after.appended == before.appended)
    decreases |script|
  {
    hide Suits;
    if i == |script| {
      assert script[..i] == script;
    } else {
      WrittenGrows(id, script[..|script| - 1], i);
      assert script[..|script| - 1][..i] == script[..i];
    }
  }

  /** A take of the script sees as much as a frame behind the whole frames. */
  predicate SeesTail(id: Identity, script: seq<Operation>, i: nat)
    requires i < |script|
  {
    var w := WrittenBy(id, script[..i]);
    script[i].TakeVisible? && Smaller(script[i].size, w.Length()) >= HEADER + FRAME * (|w.appended| + 1)
  }

  ghost predicate Aligned(id: Identity, script: seq<Operation>) {
    forall i :: 0 <= i < |script| ==> !SeesTail(id, script, i)
  }

  /** None does as long as less than a frame is there: nothing has been appended after a failed
      write, unless none of its bytes were left. */
  lemma ShortTailAligned(id: Identity, script: seq<Operation>)
    requires |WrittenBy(id, script).tail| < FRAME
    ensures Aligned(id, script)
  {
    hide WrittenBy;
    forall i | 0 <= i < |script|
      ensures !SeesTail(id, script, i)
    {
      WrittenGrows(id, script, i);
    }
  }

  lemma AlignedBefore(id: Identity, script: seq<Operation>, operation: Operation)
    requires Aligned(id, script + [operation])
    ensures Aligned(id, script)
    ensures !SeesTail(id, script + [operation], |script|)
  {
    hide WrittenBy;
    var longer := script + [operation];
    forall i | 0 <= i < |script|
      ensures !SeesTail(id, script, i)
    {
      assert longer[..i] == script[..i] && longer[i] == script[i] && !SeesTail(id, longer, i);
    }
  }

  /** What a reader has read, in terms of what has been written: the front part of the reports
      in whole frames that some take has seen, or all of these and something from behind them. */
  ghost predicate Reads(w: Written, n: nat, read: seq<Mirrored>) {
    var mirrored := Projected(w.appended);
    && n <= |mirrored| && HEADER + FRAME * |read| <= w.Length()
    && (read == mirrored[..n] || (w.tail != [] && mirrored <= read))
  }

  lemma NextFits(file: seq<byte>, read: seq<Mirrored>, size: nat)
    requires HEADER + FRAME * |read| <= |file|
    ensures var next := NextRead(file, read, size);
            next.Some? ==> read <= next.value && HEADER + FRAME * |next.value| <= |file|
  {
    hide TakeFrames;
    TakesFit(Unread(file, HEADER + FRAME * |read|, Smaller(size, |file|)), Latest(None, read));
  }

  lemma NextFront(id: Identity, w: Written, n: nat, size: nat)
    requires MirrorIdentity(id) && Sound(w) && n <= |w.appended|
    requires Smaller(size, w.Length()) < HEADER + FRAME * (|w.appended| + 1)
    ensures var mirrored, whole := Projected(w.appended), WholeFrames(Smaller(size, w.Length()));
            && whole <= |mirrored|
            && NextRead(FileOf(id, w), mirrored[..n], size) == Some(mirrored[..if whole > n then whole else n])
  {
    hide TakeFrames, FileOf, Sound, Projected, Unread, Gained, Latest;
    var mirrored, seen := Projected(w.appended), Smaller(size, w.Length());
    NextTake(id, w, n, seen);
    TakenFrames(n, seen);
    assert mirrored[..n] + mirrored[n..n + Gained(n, seen)] == mirrored[..n + Gained(n, seen)];
  }

  lemma NextBehind(id: Identity, w: Written, n: nat, size: nat)
    requires MirrorIdentity(id) && Sound(w) && n <= |w.appended|
    requires HEADER + FRAME * (|w.appended| + 1) <= Smaller(size, w.Length())
    ensures WholeFrames(Smaller(size, w.Length())) > |w.appended|
    ensures var mirrored, seen := Projected(w.appended), Smaller(size, w.Length());
            var next := NextRead(FileOf(id, w), mirrored[..n], size);
            var behind := TakeFrames(w.tail[..seen - HEADER - FRAME * |w.appended|], Latest(None, mirrored));
            && (behind.Err? ==> next.None?)
            && (behind.Ok? ==> next == Some(mirrored + behind.value))
  {
    hide TakeFrames, FileOf, Sound, Projected, Unread, Latest;
    var mirrored, seen := Projected(w.appended), Smaller(size, w.Length());
    MisreadIff(id, w, n, seen);
    var behind := TakeFrames(w.tail[..seen - HEADER - FRAME * |w.appended|], Latest(None, mirrored));
    if behind.Ok? {
      Assoc(mirrored[..n], mirrored[n..], behind.value);
      assert mirrored[..n] + mirrored[n..] == mirrored;
    }
  }

  /** One more take. */
  lemma ReadsNext(id: Identity, w: Written, n: nat, read: seq<Mirrored>, size: nat)
    requires MirrorIdentity(id) && Sound(w) && Reads(w, n, read)
    ensures var next, whole := NextRead(FileOf(id, w), read, size), WholeFrames(Smaller(size, w.Length()));
            next.Some? ==>
              Reads(w, if Smaller(whole, |w.appended|) > n then Smaller(whole, |w.appended|) else n, next.value)
  {
    hide NextRead, FileOf, Sound, Projected, WholeFrames, TakeFrames, Latest;
    FileLength(id, w);
    NextFits(FileOf(id, w), read, size);
    if read == Projected(w.appended)[..n] {
      if Smaller(size, w.Length()) < HEADER + FRAME * (|w.appended| + 1) {
        NextFront(id, w, n, size);
      } else {
        NextBehind(id, w, n, size);
      }
    }
  }

  /** Over any script: as long as no take is refused, what has been handed on is the front part
      of what was appended, as far as it goes; and none is while no take sees a frame's worth
      behind the whole frames. */
  lemma {:induction false} ReadsFront(id: Identity, script: seq<Operation>)
    requires MirrorIdentity(id)
    ensures var w, n, read := WrittenBy(id, script), Delivered(id, script), ReadBy(id, script);
            && (read.Some? ==> Reads(w, n, read.value))
            && (Aligned(id, script) ==> read == Some(Projected(w.appended)[..n]))
    decreases |script|
  {
    hide WrittenBy, ReadBy, Delivered, Sound, Reads, NextRead, FileOf, Projected, WholeFrames, Aligned;
    if script == [] {
      ReadsNothing(id, script);
    } else {
      var k := |script| - 1;
      var before, operation := script[..k], script[k];
      assert before + [operation] == script;
      ReadsFront(id, before);
      WrittenStep(id, before, operation);
      ReadStep(id, before, operation);
      DeliveredStep(id, before, operation);
      WrittenSound(id, before);
      var w, n := WrittenBy(id, before), Delivered(id, before);
      if Aligned(id, script) {
        AlignedBefore(id, before, operation);
      }
      match operation {
        case TakeVisible(size) =>
          if ReadBy(id, before).Some? {
            ReadsNext(id, w, n, ReadBy(id, before).value, size);
          }
          if Aligned(id, script) {
            NextFront(id, w, n, size);
          }
        case AppendReport(report, written) =>
          ReadsAfter(id, w, n, report, written);
      }
    }
  }

  lemma ReadsNothing(id: Identity, script: seq<Operation>)
    requires script == []
    ensures WrittenBy(id, script) == NOTHING && Delivered(id, script) == 0 && ReadBy(id, script) == Some([])
    ensures Reads(NOTHING, 0, []) && Projected([])[..0] == []
  {
  }

  /** An append leaves what has been read where it is. */
  lemma ReadsAfter(id: Identity, w: Written, n: nat, report: Report, written: nat)
    requires n <= |w.appended|
    ensures var after := After(id, w, report, written);
            && (forall read :: Reads(w, n, read) ==> Reads(after, n, read))
            && Projected(after.appended)[..n] == Projected(w.appended)[..n]
  {
    hide Suits, FrameBytes;
  }

  /** A take of the script sees n whole frames. */
  predicate SeesWhole(id: Identity, script: seq<Operation>, i: nat, n: nat)
    requires i < |script|
  {
    var w := WrittenBy(id, script[..i]);
    script[i].TakeVisible? && n <= |w.appended| && WholeFrames(Smaller(script[i].size, w.Length())) >= n
  }

  /** At least n frames have been delivered exactly when some take saw n frames whole. */
  lemma {:induction false} DeliveredIff(id: Identity, script: seq<Operation>, n: nat)
    requires n > 0
    ensures Delivered(id, script) >= n <==> exists i :: 0 <= i < |script| && SeesWhole(id, script, i, n)
    decreases |script|
  {
    if script != [] {
      var k := |script| - 1;
      var before, operation := script[..k], script[k];
      assert before + [operation] == script;
      hide WholeFrames, WrittenBy;
      DeliveredIff(id, before, n);
      DeliveredStep(id, before, operation);
      hide Delivered;
      forall i | 0 <= i < k
        ensures SeesWhole(id, script, i, n) <==> SeesWhole(id, before, i, n)
      {
        assert script[..i] == before[..i] && script[i] == before[i];
      }
      var w := WrittenBy(id, before);
      assert SeesWhole(id, script, k, n) <==>
             operation.TakeVisible? && n <= |w.appended| && WholeFrames(Smaller(operation.size, w.Length())) >= n;
    }
  }

  /** Everything that a script appends in whole frames has been seen by some take. */
  ghost predicate LastSeenWhole(id: Identity, script: seq<Operation>) {
    var count := |WrittenBy(id, script).appended|;
    count == 0 || exists i :: 0 <= i < |script| && SeesWhole(id, script, i, count)
  }

  /** All whole frames have been delivered exactly when some take saw the last one, which, with
      less than a frame behind them, is when less than a frame of the file is unread. */
  lemma AllDelivered(id: Identity, script: seq<Operation>)
    ensures var w, n := WrittenBy(id, script), Delivered(id, script);
            && (Projected(w.appended)[..n] == Projected(w.appended) <==> LastSeenWhole(id, script))
            && w.Length() >= HEADER + FRAME * n
            && (|w.tail| < FRAME ==>
                  (LastSeenWhole(id, script) <==> w.Length() - HEADER - FRAME * n < FRAME))
  {
    hide WrittenBy, Delivered, Projected, SeesWhole;
    var w, n := WrittenBy(id, script), Delivered(id, script);
    if |w.appended| > 0 {
      DeliveredIff(id, script, |w.appended|);
    }
    assert Projected(w.appended)[..n] == Projected(w.appended) <==> n == |w.appended|;
  }

  // ---------------------------------------------------------------------
  // Writer and reader at work
  // ---------------------------------------------------------------------

  /** The writer and the reader are where a script leaves them. */
  ghost predicate Agrees(reader: Reader, writer: Writer, script: seq<Operation>)
    reads reader, writer, writer.file
  {
    && reader.file == writer.file && !writer.finalized
    && writer.left == WrittenBy(writer.identity, script)
    && ReadBy(writer.identity, script) == Some(reader.read)
    && reader.Valid() && writer.Valid()
  }

  /** An append, whole or torn, keeps writer, file and reader where the script leaves them. */
  method Write(reader: Reader, writer: Writer, ghost script: seq<Operation>, report: Report, written: nat)
    returns (result: Result<(), Fault>)
    requires Agrees(reader, writer, script)
    modifies writer, writer.file
    ensures Agrees(reader, writer, script + [AppendReport(report, written)])
    ensures result.Err? <==>
              !Suits(writer.identity, old(writer.left.appended + writer.left.lost), report) || written < FRAME
  {
    WrittenStep(writer.identity, script, AppendReport(report, written));
    ReadStep(writer.identity, script, AppendReport(report, written));
    WholeAppend(writer.identity, writer.left, report, written);
    hide Writer.Remembers, Reader.Valid, WrittenBy, ReadBy, Suits, Belongs, FileOf, Sound, After, FrameBytes;
    writer.SuitsIff(writer.left.appended + writer.left.lost, report);
    result := writer.Append(report, Smaller(written, FRAME));
  }

  lemma WholeAppend(id: Identity, w: Written, report: Report, written: nat)
    ensures After(id, w, report, Smaller(written, FRAME)) == After(id, w, report, written)
  {
    hide Suits, FrameBytes;
  }

  /** A take hands on what the script says, or is refused. */
  method Watch(reader: Reader, writer: Writer, ghost script: seq<Operation>, size: nat)
    returns (taken: Result<seq<Mirrored>, Fault>)
    requires Agrees(reader, writer, script)
    modifies reader
    ensures taken.Err? <==> ReadBy(writer.identity, script + [TakeVisible(size)]).None?
    ensures taken.Ok? ==>
              Agrees(reader, writer, script + [TakeVisible(size)]) && reader.read == old(reader.read) + taken.value
  {
    hide Writer.Remembers, WrittenBy, ReadBy, TakeFrames, Latest, FileOf, Sound;
    WrittenStep(writer.identity, script, TakeVisible(size));
    ReadStep(writer.identity, script, TakeVisible(size));
    taken := reader.TakeAvailable(Smaller(size, |reader.file.bytes|));
  }

  lemma {:induction false} RefusedForGood(id: Identity, script: seq<Operation>, n: nat)
    requires n <= |script| && ReadBy(id, script[..n]).None?
    ensures ReadBy(id, script).None?
    decreases |script|
  {
    hide WrittenBy, NextRead;
    if n == |script| {
      assert script[..n] == script;
    } else {
      assert script[..|script| - 1][..n] == script[..n];
      RefusedForGood(id, script[..|script| - 1], n);
    }
  }

  /** The whole script, from a mirror just opened, or as far as the first take that is refused. */
  method Perform(reader: Reader, writer: Writer, script: seq<Operation>)
    returns (handedOn: seq<Mirrored>, turns: nat)
    requires Agrees(reader, writer, []) && reader.read == []
    modifies reader, writer, writer.file
    ensures turns <= |script| && ReadBy(writer.identity, script[..turns]) == Some(handedOn)
    ensures turns == |script| <==> ReadBy(writer.identity, script).Some?
    ensures turns == |script| ==> Agrees(reader, writer, script) && handedOn == reader.read
  {
    hide Writer.Valid, Reader.Valid, WrittenBy, ReadBy, Suits;
    handedOn, turns := [], 0;
    assert script[..0] == [];
    while turns < |script|
      invariant turns <= |script| && Agrees(reader, writer, script[..turns]) && handedOn == reader.read
    {
      assert script[..turns + 1] == script[..turns] + [script[turns]];
      match script[turns] {
        case AppendReport(report, written) =>
          var _ := Write(reader, writer, script[..turns], report, written);
        case TakeVisible(size) =>
          var taken := Watch(reader, writer, script[..turns], size);
          if taken.Err? {
            RefusedForGood(writer.identity, script, turns + 1);
            return;
          }
          handedOn := handedOn + taken.value;
      }
      turns := turns + 1;
    }
    assert script[..turns] == script;
  }

  /** The final check after a script, and how much was unread before it. */
  method CheckTail(reader: Reader, writer: Writer, ghost script: seq<Operation>) returns (clean: bool, unread: nat)
    requires Agrees(reader, writer, script)
    modifies reader
    ensures var w := WrittenBy(writer.identity, script);
            && unread == w.Length() - HEADER - FRAME * |old(reader.read)|
            && (Aligned(writer.identity, script) && |w.tail| < FRAME ==> (clean <==> w.tail == []))
  {
    hide Writer.Remembers, TakeFrames, Projected, WrittenBy, ReadBy, Latest, FileOf, Sound, Aligned, PassesFinalCheck;
    TailAfter(writer.identity, script);
    unread := |reader.file.bytes| - reader.offset;
    var checked := reader.RequireCleanFinalTail();
    clean := checked.Ok?;
  }

  lemma TailAfter(id: Identity, script: seq<Operation>)
    requires MirrorIdentity(id) && ReadBy(id, script).Some?
    ensures var w, read := WrittenBy(id, script), ReadBy(id, script).value;
            && HEADER + FRAME * |read| <= |FileOf(id, w)| == w.Length()
            && (Aligned(id, script) && |w.tail| < FRAME ==>
                  (PassesFinalCheck(FileOf(id, w), HEADER + FRAME * |read|, Latest(None, read)) <==> w.tail == []))
  {
    hide WrittenBy, ReadBy, Delivered, Aligned, PassesFinalCheck, FileOf, Latest, Sound, Projected;
    var w := WrittenBy(id, script);
    ReadsFront(id, script);
    WrittenSound(id, script);
    FileLength(id, w);
    if |w.tail| < FRAME {
      TailOf(id, w, Delivered(id, script));
    }
  }

  lemma PassesWhen(bytes: seq<byte>, offset: nat, previous: Option<Mirrored>, taken: seq<Mirrored>)
    requires offset <= |bytes| && TakeFrames(bytes[offset..], previous) == Ok(taken)
    ensures PassesFinalCheck(bytes, offset, previous) <==> offset + FRAME * |taken| == |bytes|
  {
    hide TakeFrames;
  }

  /** What is left for the final check. */
  lemma TailOf(id: Identity, w: Written, n: nat)
    requires MirrorIdentity(id) && Sound(w) && n <= |w.appended| && |w.tail| < FRAME
    ensures |FileOf(id, w)| == w.Length() >= HEADER + FRAME * n
    ensures PassesFinalCheck(FileOf(id, w), HEADER + FRAME * n, Latest(None, Projected(w.appended)[..n]))
            <==> w.tail == []
  {
    hide TakeFrames, Projected, Latest, FileOf, Sound, Unread, Gained, PassesFinalCheck;
    FileLength(id, w);
    NextTake(id, w, n, w.Length());
    UnreadAll(FileOf(id, w), HEADER + FRAME * n);
    var mirrored := Projected(w.appended);
    PassesWhen(FileOf(id, w), HEADER + FRAME * n, Latest(None, mirrored[..n]),
               mirrored[n..n + Gained(n, w.Length())]);
    FramesLeft(n, |w.appended|, |w.tail|);
  }

  lemma UnreadAll(bytes: seq<byte>, offset: nat)
    requires offset <= |bytes|
    ensures Unread(bytes, offset, |bytes|) == bytes[offset..]
  {
  }

  lemma FramesLeft(n: nat, whole: nat, tail: nat)
    requires n <= whole && tail < FRAME
    ensures var size := HEADER + FRAME * whole + tail;
            HEADER + FRAME * n + FRAME * Gained(n, size) == size <==> tail == 0
  {
  }

  /** Two lists that agree as far as both go. */
  predicate Alike(a: seq<Mirrored>, b: seq<Mirrored>) {
    a <= b || b <= a
  }

  lemma AlikeLater(id: Identity, script: seq<Operation>, turns: nat)
    requires MirrorIdentity(id) && turns <= |script| && ReadBy(id, script[..turns]).Some?
    ensures Alike(ReadBy(id, script[..turns]).value, Projected(WrittenBy(id, script).appended))
  {
    hide WrittenBy, ReadBy, Delivered, Aligned;
    ReadsFront(id, script[..turns]);
    WrittenGrows(id, script, turns);
    ProjectedGrows(WrittenBy(id, script[..turns]).appended, WrittenBy(id, script).appended);
  }

  /** A writer appending and a reader following it, in any order; a take sees any number of the
      bytes written so far, and a write can fail after any number of bytes, after which appends
      may go on. As far as both go, what has been handed on and what has been appended in whole
      frames agree. As long as no take sees a frame's worth of bytes behind the whole frames, no
      take is refused, what has been handed on is, each report once and in order, the part that
      some take saw whole, and it is all exactly when some take saw the last frame whole. With
      less than a frame left behind the whole frames this is so; then the final check passes
      exactly when nothing is left there, and all has been handed on exactly when less than a
      frame is unread before the check. */
  method Follow(id: Identity, script: seq<Operation>)
    returns (handedOn: seq<Mirrored>, refused: bool, clean: bool, unread: nat)
    requires MirrorIdentity(id)
    ensures refused <==> ReadBy(id, script).None?
    ensures Alike(handedOn, Projected(WrittenBy(id, script).appended))
    ensures AllMirror(handedOn, WrittenBy(id, script).appended)
    ensures Aligned(id, script) ==>
              var mirrored := Projected(WrittenBy(id, script).appended);
              && !refused && handedOn == mirrored[..Delivered(id, script)]
              && (handedOn == mirrored <==> LastSeenWhole(id, script))
    ensures |WrittenBy(id, script).tail| < FRAME ==>
              var w := WrittenBy(id, script);
              && Aligned(id, script)
              && (clean <==> w.tail == [])
              && (handedOn == Projected(w.appended) <==> unread < FRAME)
              && unread == w.Length() - HEADER - FRAME * |handedOn|
  {
    hide Writer.Valid, Reader.Valid, TakeFrames, HeaderBytes, Projected, WrittenBy, Delivered, ReadBy, LastSeenWhole;
    hide Aligned, Alike;
    var file := new MirrorFile();
    var created := OpenWriter(file, true, true, id);
    var writer := created.value;
    StartOfFile(writer);
    var found := OpenReader(file, |file.bytes|);
    var reader := found.value;
    NothingWritten(reader, writer);
    var turns;
    handedOn, turns := Perform(reader, writer, script);
    AlikeLater(id, script, turns);
    AlikeMirrors(handedOn, WrittenBy(id, script).appended);
    ReadsFront(id, script);
    AllDelivered(id, script);
    if |WrittenBy(id, script).tail| < FRAME {
      ShortTailAligned(id, script);
    }
    refused, clean, unread := turns < |script|, false, 0;
    if !refused {
      assert script[..turns] == script;
      clean, unread := CheckTail(reader, writer, script);
    }
  }

  lemma AlikeMirrors(mirrored: seq<Mirrored>, reports: seq<Report>)
    requires Alike(mirrored, Projected(reports))
    ensures AllMirror(mirrored, reports)
  {
    forall i | 0 <= i < |mirrored| && i < |reports|
      ensures Mirrors(mirrored[i], reports[i])
    {
      assert mirrored[i] == Projected(reports)[i];
    }
  }

  lemma NothingWritten(reader: Reader, writer: Writer)
    requires writer.Valid() && reader.Valid() && reader.file == writer.file
    requires writer.left == NOTHING && !writer.finalized && reader.read == []
    ensures Agrees(reader, writer, [])
  {
    hide HeaderBytes, Frames, AllInOrder;
  }

  /** A new mirror can be opened at once. */
  lemma StartOfFile(writer: Writer)
    requires writer.Valid()
    ensures |writer.file.bytes| >= HEADER
    ensures ReadMirrorHeader(writer.file.bytes[..HEADER]) == Ok(Short(writer.identity))
  {
    hide HeaderBytes, Frames, AllInOrder, Projected, Crc32.Checksum, FromLittleEndian, ReadMirrorHeader;
    MirrorHeaderReadsBack(writer.identity);
    var header := HeaderBytes(writer.identity);
    assert writer.file.bytes[..HEADER] == header;
  }

  lemma ProjectedGrows(a: seq<Report>, b: seq<Report>)
    ensures a <= b ==> Projected(a) <= Projected(b)
  {
  }

  // ---------------------------------------------------------------------
  // What passing the final check does not mean
  // ---------------------------------------------------------------------

  const MOUSE := Identity(1, 2, 0x81, seq(64, _ => 0x30), [0], [0], 1)
  const MOTION := Report(0, 0, 0, 1, 0, 1, 0, 0, 9, 1, 2, 0x81, 1, 1, 0, 1, 0, 0, 0, 0, 0, [0])

  /** So the final check can pass although a report was never delivered: here one report is
      appended whole, no take comes after it, and the check passes for the reader that has
      read nothing of the resulting file. */
  lemma CleanButUndelivered()
    ensures var script := [AppendReport(MOTION, FRAME)];
            && MirrorIdentity(MOUSE)
            && WrittenBy(MOUSE, script) == Written([MOTION], [], []) && Delivered(MOUSE, script) == 0
    ensures var bytes := HeaderBytes(MOUSE) + Frames([Project(MOTION)]);
            |HeaderBytes(MOUSE)| == HEADER && PassesFinalCheck(bytes, HEADER, None)
  {
    hide HeaderBytes, Frames, PassesFinalCheck, WrittenBy, Delivered;
    OneAppended();
    OneFrameTaken();
  }

  lemma OneAppended()
    ensures var script := [AppendReport(MOTION, FRAME)];
            WrittenBy(MOUSE, script) == Written([MOTION], [], []) && Delivered(MOUSE, script) == 0
  {
    var script := [AppendReport(MOTION, FRAME)];
    assert script[..0] == [];
    assert WrittenBy(MOUSE, script[..0]) == NOTHING && Delivered(MOUSE, script[..0]) == 0;
    assert Suits(MOUSE, [], MOTION);
  }

  lemma OneFrameTaken()
    ensures var bytes := HeaderBytes(MOUSE) + Frames([Project(MOTION)]);
            |HeaderBytes(MOUSE)| == HEADER && PassesFinalCheck(bytes, HEADER, None)
  {
    hide HeaderBytes, Frames, TakeFrames;
    var mirrored := [Project(MOTION)];
    MirrorHeaderReadsBack(MOUSE);
    DropFront(HeaderBytes(MOUSE), Frames(mirrored));
    assert Frames(mirrored) + [] == Frames(mirrored);
    TakesWritten(mirrored, None, Frames(mirrored), []);
    assert mirrored[..1] == mirrored;
  }

  /** The same with writer and reader at work: the check passes and nothing was handed on. */
  method FollowUndelivered() returns (handedOn: seq<Mirrored>, clean: bool)
    ensures clean && handedOn == []
    ensures handedOn != Projected(WrittenBy(MOUSE, [AppendReport(MOTION, FRAME)]).appended)
  {
    hide WrittenBy, Delivered, LastSeenWhole, ReadBy, Aligned;
    CleanButUndelivered();
    var refused, unread;
    handedOn, refused, clean, unread := Follow(MOUSE, [AppendReport(MOTION, FRAME)]);
  }

  // ---------------------------------------------------------------------
  // What an append after a failed write does
  // ---------------------------------------------------------------------

  lemma SizeBytes()
    ensures LittleEndian(PAYLOAD, 4) == [40, 0, 0, 0]
  {
    assert LittleEndian(0, 1) == [0] && LittleEndian(0, 2) == [0, 0] && LittleEndian(0, 3) == [0, 0, 0];
  }

  lemma FrameEnds(m: Mirrored)
    ensures FrameBytes(m)[..4] == [40, 0, 0, 0] && FrameBytes(m)[44..] == [m.reportId, 0, 0, 0]
  {
    hide LittleEndian, Crc32.Checksum;
    SizeBytes();
    assert PayloadBytes(m)[36..] == [m.reportId, 0, 0, 0] by { PayloadEnd(m); }
    assert FrameBytes(m)[44..] == PayloadBytes(m)[36..];
  }

  lemma PayloadEnd(m: Mirrored)
    ensures PayloadBytes(m)[36..] == [m.reportId, 0, 0, 0]
  {
    hide LittleEndian, ToUInt32, ToUInt64;
  }

  /** A torn frame followed by another, read as one: with up to three bytes of the first, the size
      is wrong; with all but up to four, only the last bytes differ from those of the first, which
      the checksum tells, unless they do not differ. */
  lemma TornFrame(a: Mirrored, b: Mirrored, torn: nat)
    requires 0 < torn < 4 || 44 <= torn < FRAME
    ensures ReadFrame((FrameBytes(a)[..torn] + FrameBytes(b))[..FRAME])
         == if torn == 44 && a.reportId == 40 then Ok(a) else Err(ChecksumMismatch)
  {
    hide LittleEndian, FromLittleEndian, Crc32.Checksum, PayloadBytes, DecodePayload, FrameBytes;
    FrameEnds(a);
    FrameEnds(b);
    var frame := (FrameBytes(a)[..torn] + FrameBytes(b))[..FRAME];
    if torn < 4 {
      assert frame[0..4] == [40, 0, 0, 0][..torn] + [40, 0, 0, 0][..4 - torn];
      WrongSize(torn);
    } else {
      TornEnd(a, b, torn);
    }
  }

  lemma WrongSize(torn: nat)
    requires 0 < torn < 4
    ensures FromLittleEndian([40, 0, 0, 0][..torn] + [40, 0, 0, 0][..4 - torn]) != PAYLOAD
  {
    var size: seq<byte> := [40, 0, 0, 0][..torn] + [40, 0, 0, 0][..4 - torn];
    assert size[torn] == 40;
    SizeBytes();
    FixedRestores(size, true);
  }

  lemma FrameSplits(frame: seq<byte>)
    requires |frame| == FRAME
    ensures frame[8..] == frame[8..44] + frame[44..] + []
  {
  }

  lemma SameFront(a: seq<byte>, b: seq<byte>)
    requires |a| == |b| == FRAME && a[..44] == b[..44]
    ensures a[0..4] == b[0..4] && a[4..8] == b[4..8] && a[8..44] == b[8..44]
  {
    assert forall i :: 0 <= i < 44 ==> a[i] == a[..44][i] && b[i] == b[..44][i];
  }

  lemma TornEnd(a: Mirrored, b: Mirrored, torn: nat)
    requires 44 <= torn < FRAME
    ensures ReadFrame((FrameBytes(a)[..torn] + FrameBytes(b))[..FRAME])
         == if torn == 44 && a.reportId == 40 then Ok(a) else Err(ChecksumMismatch)
  {
    hide LittleEndian, FromLittleEndian, Crc32.Checksum, PayloadBytes, DecodePayload, FrameBytes;
    FrameEnds(a);
    FrameEnds(b);
    FrameReadsBack(a);
    var frame, whole := (FrameBytes(a)[..torn] + FrameBytes(b))[..FRAME], FrameBytes(a);
    var end := frame[44..];
    assert end == [a.reportId, 0, 0, 0][..torn - 44] + [40, 0, 0, 0][..FRAME - torn];
    assert whole == whole[..44] + whole[44..] && frame == whole[..44] + end;
    if torn == 44 && a.reportId == 40 {
      assert frame == whole;
    } else {
      assert end[torn - 44] == 40 && whole[44..][torn - 44] != 40;
      FrameSplits(frame);
      FrameSplits(whole);
      SameFront(frame, whole);
      Crc32.DetectsFourByteBurst(whole[8..44], whole[44..], end, []);
    }
  }

  /** A write that fails after a few bytes, or short of a few, an append after it, and a take that
      sees a frame: the take is refused, or it hands on the report whose append had failed. */
  lemma TornScript(id: Identity, first: Report, second: Report, torn: nat)
    requires MirrorIdentity(id) && Suits(id, [], first) && Suits(id, [], second)
    requires 0 < torn < 4 || 44 <= torn < FRAME
    ensures var script := [AppendReport(first, torn), AppendReport(second, FRAME), TakeVisible(HEADER + FRAME)];
            && WrittenBy(id, script).appended == [] && WrittenBy(id, script).lost == [second]
            && ReadBy(id, script) == if torn == 44 && first.reportId == 40 then Some([Project(first)]) else None
  {
    hide FrameBytes, Suits, NextRead, FileOf;
    var tail := FrameBytes(Project(first))[..torn] + FrameBytes(Project(second));
    TornLeft(id, first, second, torn);
    var script := [AppendReport(first, torn), AppendReport(second, FRAME), TakeVisible(HEADER + FRAME)];
    var before := script[..2];
    assert before + [script[2]] == script;
    WrittenStep(id, before, script[2]);
    ReadStep(id, before, script[2]);
    TornRead(id, Written([], tail, [second]), first, second, torn);
  }

  lemma TornLeft(id: Identity, first: Report, second: Report, torn: nat)
    requires Suits(id, [], first) && Suits(id, [], second) && 0 < torn < FRAME
    ensures var script := [AppendReport(first, torn), AppendReport(second, FRAME), TakeVisible(HEADER + FRAME)];
            && WrittenBy(id, script[..2])
               == Written([], FrameBytes(Project(first))[..torn] + FrameBytes(Project(second)), [second])
            && ReadBy(id, script[..2]) == Some([])
  {
    hide FrameBytes, Suits, NextRead, WrittenBy, ReadBy, Delivered, Reads;
    var one, two := AppendReport(first, torn), AppendReport(second, FRAME);
    var script := [one, two, TakeVisible(HEADER + FRAME)];
    ReadsNothing(id, []);
    assert [] + [one] == [one] && [one] + [two] == script[..2];
    WrittenStep(id, [], one);
    ReadStep(id, [], one);
    WrittenStep(id, [one], two);
    ReadStep(id, [one], two);
    var no: seq<Report> := [];
    assert no + no == no && [] + FrameBytes(Project(first))[..torn] == FrameBytes(Project(first))[..torn];
  }

  lemma TornRead(id: Identity, w: Written, first: Report, second: Report, torn: nat)
    requires MirrorIdentity(id) && w.appended == [] && (0 < torn < 4 || 44 <= torn < FRAME)
    requires w.tail == FrameBytes(Project(first))[..torn] + FrameBytes(Project(second))
    ensures NextRead(FileOf(id, w), [], HEADER + FRAME)
         == if torn == 44 && first.reportId == 40 then Some([Project(first)]) else None
  {
    hide FrameBytes, FileOf, ReadFrame, NextRead;
    var seen := w.tail[..FRAME];
    assert Sound(w);
    assert Projected(w.appended) == [] == Projected(w.appended)[..0];
    NextBehind(id, w, 0, HEADER + FRAME);
    TornFrame(Project(first), Project(second), torn);
    assert seen[..FRAME] == seen && seen[FRAME..] == [];
    TakeOne(seen, None);
    TakeNone(Some(Project(first)));
    var none: seq<Mirrored> := [];
    assert none + none == none && none + ([Project(first)] + none) == [Project(first)] + none == [Project(first)];
  }
}
