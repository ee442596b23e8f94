/** Fixed-width integers and result types shared by the whole model.
    Every C++ integer is a mathematical integer with its range written out. */
module Machine {

  type byte = x: int | 0 <= x < 0x100
  type uint16 = x: int | 0 <= x < 0x1_0000
  type uint32 = x: int | 0 <= x < 0x1_0000_0000
  type uint64 = x: int | 0 <= x < 0x1_0000_0000_0000_0000
  type int32 = x: int | -0x8000_0000 <= x < 0x8000_0000
  type int64 = x: int | -0x8000_0000_0000_0000 <= x < 0x8000_0000_0000_0000

  const MAX_UINT16: int := 0xffff
  const MAX_UINT32: int := 0xffff_ffff
  const MAX_UINT64: int := 0xffff_ffff_ffff_ffff
  const MIN_INT32: int := -0x8000_0000
  const MAX_INT32: int := 0x7fff_ffff
  const MIN_INT64: int := -0x8000_0000_0000_0000
  const MAX_INT64: int := 0x7fff_ffff_ffff_ffff
  const TWO_64: int := 0x1_0000_0000_0000_0000

  datatype Option<+T> = None | Some(value: T)

  datatype Result<+T, +E> = Ok(value: T) | Err(error: E) {
    predicate IsFailure() {
      Err?
    }

    function PropagateFailure<U>(): Result<U, E>
      requires Err?
    {
      Err(error)
    }

    function Extract(): T
      requires Ok?
    {
      value
    }
  }

  /** Why a capture-format operation throws; message texts are not kept. */
  datatype Fault =
    | Truncated
    | VarUIntOverflow
    | VarUIntOverlong
    | InvalidArgument
    | Finalized
    | BadMagic
    | UnsupportedVersion
    | ReservedByte
    | UnsafeLength
    | InvalidClock
    | IdentityMismatch
    | NotSuccessfulCompletion
    | SequenceRegression
    | ClockRegression
    | InvalidPosition
    | PcapSequenceRegression
    | BlockLimit
    | ChecksumMismatch
    | TrailingBytes
    | ValueOverflow
    | WriteFailed
    | Rejected
    | InvalidTimestamp
    | BufferLimit
    | NotReady
    | ReservedBits
    | TrailingPayload
    | LengthMismatch
    | HidError
    | AmbiguousField
    | AbsoluteCoordinates
    | NoLeftButton
    | NoMouseLayout
    | UnsupportedWidth
    | PartialReport
    | PartialTransfer
    | UnknownReportId
    | LogicalRange
    | EmptyTransfer
    | OutsideEndpoint
    | NoObservation

  predicate FitsInt64(x: int) {
    MIN_INT64 <= x <= MAX_INT64
  }

  function Concat<T>(parts: seq<seq<T>>): seq<T> {
    if parts == [] then [] else parts[0] + Concat(parts[1..])
  }

  lemma Assoc<T>(a: seq<T>, b: seq<T>, c: seq<T>)
    ensures (a + b) + c == a + (b + c)
  {
  }

  // What a loop that appends to a sequence needs to know of all that may still follow.

  lemma NothingInFront<T>()
    ensures forall others: seq<T> :: [] + others == others
  {
  }

  lemma InFront<T>(done: seq<T>, next: seq<T>)
    ensures forall others: seq<T> :: done + (next + others) == (done + next) + others
  {
  }

  lemma ItemInFront<T>(done: seq<T>, item: T)
    ensures forall others: seq<T> :: done + ([item] + others) == (done + [item]) + others
  {
    InFront(done, [item]);
  }

  lemma SplitLast<T>(s: seq<T>)
    requires s != []
    ensures s == s[..|s| - 1] + [s[|s| - 1]]
    ensures multiset(s) == multiset(s[..|s| - 1]) + multiset{s[|s| - 1]}
  {
    assert s == s[..|s| - 1] + [s[|s| - 1]];
  }

  /** uint64 addition, which wraps. */
  function AddUInt64(a: uint64, b: uint64): uint64 {
    (a + b) % TWO_64
  }

  /** The int64 with the same residue modulo 2^64. */
  function WrapInt64(x: int): int64 {
    var residue := x % TWO_64;
    if residue <= MAX_INT64 then residue else residue - TWO_64
  }

  /** static_cast<uint64_t> of an int64. */
  function ToUInt64(x: int64): uint64 {
    if x >= 0 then x else x + TWO_64
  }
}
