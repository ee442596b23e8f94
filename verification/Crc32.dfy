/** The CRC-32 of RFC 1952, section 8 (src/base/Crc32.cpp).
    A 32-bit register is the sequence of its bits, least significant first. */
module Crc32 {
  import opened Machine
  import opened Bitwise

  type Register = bits: seq<bool> | |bits| == 32 witness Bits(0, 32)

  const POLYNOMIAL: uint32 := 0xedb8_8320

  // ---------------------------------------------------------------------
  // The definition: a shift register fed one bit at a time
  // ---------------------------------------------------------------------

  function Xor(a: Register, b: Register): Register {
    seq(32, i requires 0 <= i < 32 => a[i] != b[i])
  }

  function Not(a: Register): Register {
    seq(32, i requires 0 <= i < 32 => !a[i])
  }

  function ShiftRight(a: Register, count: nat): Register {
    seq(32, i requires 0 <= i < 32 => i + count < 32 && a[i + count])
  }

  function ByteRegister(b: byte): Register {
    Bits(b, 32)
  }

  function ShiftBit(crc: Register): Register {
    if crc[0] then Xor(ShiftRight(crc, 1), Bits(POLYNOMIAL, 32)) else ShiftRight(crc, 1)
  }

  function ShiftBits(crc: Register, count: nat): Register {
    if count == 0 then crc else ShiftBit(ShiftBits(crc, count - 1))
  }

  function Feed(crc: Register, b: byte): Register {
    ShiftBits(Xor(crc, ByteRegister(b)), 8)
  }

  function FeedAll(crc: Register, bytes: seq<byte>): Register
    decreases |bytes|
  {
    if bytes == [] then crc else FeedAll(Feed(crc, bytes[0]), bytes[1..])
  }

  function ChecksumBits(bytes: seq<byte>, seed: Register): Register {
    Not(FeedAll(Not(seed), bytes))
  }

  const ZERO: Register := Bits(0, 32)

  function Checksum(bytes: seq<byte>): uint32 {
    var crc := ChecksumBits(bytes, ZERO);
    ValueBound(crc);
    Powers();
    Value(crc)
  }

  // ---------------------------------------------------------------------
  // The generator
  // ---------------------------------------------------------------------

  lemma BitOfByte(value: nat, i: nat)
    ensures Bit(value, i + 8) == Bit(value / 0x100, i)
  {
    var quarter := value / 2 / 2;
    var sixteenth := quarter / 2 / 2;
    assert Bit(value, i + 8) == Bit(quarter, i + 6) == Bit(sixteenth, i + 4);
    assert Bit(sixteenth, i + 4) == Bit(sixteenth / 2 / 2, i + 2) == Bit(sixteenth / 2 / 2 / 2 / 2, i);
    assert sixteenth / 2 / 2 / 2 / 2 == value / 0x100;
  }

  /** The low eight bits of a number, by halving it. */
  lemma EightBits(value: nat)
    ensures Bit(value, 0) <==> value % 2 == 1
    ensures Bit(value, 1) <==> value / 2 % 2 == 1
    ensures Bit(value, 2) <==> value / 2 / 2 % 2 == 1
    ensures Bit(value, 3) <==> value / 2 / 2 / 2 % 2 == 1
    ensures Bit(value, 4) <==> value / 2 / 2 / 2 / 2 % 2 == 1
    ensures Bit(value, 5) <==> value / 2 / 2 / 2 / 2 / 2 % 2 == 1
    ensures Bit(value, 6) <==> value / 2 / 2 / 2 / 2 / 2 / 2 % 2 == 1
    ensures Bit(value, 7) <==> value / 2 / 2 / 2 / 2 / 2 / 2 / 2 % 2 == 1
  {
    var half := value / 2 / 2 / 2 / 2;
    FourDown(value, 0);
    FourDown(value, 1);
    FourDown(value, 2);
    FourDown(value, 3);
    FirstFour(value);
    FirstFour(half);
    hide Bit;
  }

  lemma FirstFour(value: nat)
    ensures Bit(value, 0) <==> value % 2 == 1
    ensures Bit(value, 1) <==> value / 2 % 2 == 1
    ensures Bit(value, 2) <==> value / 2 / 2 % 2 == 1
    ensures Bit(value, 3) <==> value / 2 / 2 / 2 % 2 == 1
  {
    BitHalved(value, 0);
    BitHalved(value, 1);
    BitHalved(value / 2, 0);
    BitHalved(value, 2);
    BitHalved(value / 2, 1);
    BitHalved(value / 2 / 2, 0);
  }

  lemma BitHalved(value: nat, i: nat)
    ensures Bit(value, i + 1) == Bit(value / 2, i)
  {
  }

  lemma FourDown(value: nat, i: nat)
    ensures Bit(value, i + 4) == Bit(value / 2 / 2 / 2 / 2, i)
  {
    hide Bit;
    BitHalved(value, i + 3);
    BitHalved(value / 2, i + 2);
    BitHalved(value / 2 / 2, i + 1);
    BitHalved(value / 2 / 2 / 2, i);
  }

  lemma Byte20(j: nat)
    requires j < 8
    ensures Bit(0xedb8_8320, j) <==> j == 5
  {
    hide Bit;
    EightBits(0xedb8_8320);
  }

  lemma Byte83(j: nat)
    requires j < 8
    ensures Bit(0xed_b883, j) <==> j in {0, 1, 7}
  {
    hide Bit;
    EightBits(0xed_b883);
  }

  lemma ByteB8(j: nat)
    requires j < 8
    ensures Bit(0xedb8, j) <==> j in {3, 4, 5, 7}
  {
    hide Bit;
    EightBits(0xedb8);
  }

  lemma ByteEd(j: nat)
    requires j < 8
    ensures Bit(0xed, j) <==> j in {0, 2, 3, 5, 6, 7}
  {
    hide Bit;
    EightBits(0xed);
  }

  lemma PolynomialBits(i: nat)
    requires i < 32
    ensures Bit(0xedb8_8320, i) <==> i in {5, 8, 9, 15, 19, 20, 21, 23, 24, 26, 27, 29, 30, 31}
  {
    hide Bit;
    Byte20(i % 8);
    Byte83(i % 8);
    ByteB8(i % 8);
    ByteEd(i % 8);
    if i >= 8 {
      BitOfByte(0xedb8_8320, i - 8);
    }
    if i >= 16 {
      BitOfByte(0xed_b883, i - 16);
    }
    if i >= 24 {
      BitOfByte(0xedb8, i - 24);
    }
  }

  /** The generator is x^32 + x^26 + x^23 + x^22 + x^16 + x^12 + x^11 + x^10 + x^8 + x^7 + x^5 + x^4
      + x^2 + x + 1: bit i of the register stands for the power 31 - i. */
  lemma PolynomialIsStandard(i: nat)
    requires i < 32
    ensures Bits(POLYNOMIAL, 32)[i] <==> 31 - i in {26, 23, 22, 16, 12, 11, 10, 8, 7, 5, 4, 2, 1, 0}
  {
    hide Bits, Bit;
    BitIs(POLYNOMIAL, 32, i);
    PolynomialBits(i);
  }

  // ---------------------------------------------------------------------
  // The table-driven form
  // ---------------------------------------------------------------------

  /** Shifting is linear over exclusive or, so the parts of a register separate. */
  lemma ShiftBitLinear(a: Register, b: Register)
    ensures ShiftBit(Xor(a, b)) == Xor(ShiftBit(a), ShiftBit(b))
  {
  }

  lemma {:induction false} ShiftBitsLinear(a: Register, b: Register, count: nat)
    ensures ShiftBits(Xor(a, b), count) == Xor(ShiftBits(a, count), ShiftBits(b, count))
  {
    hide ShiftBit, Xor;
    if count != 0 {
      ShiftBitsLinear(a, b, count - 1);
      ShiftBitLinear(ShiftBits(a, count - 1), ShiftBits(b, count - 1));
    }
  }

  lemma ShiftBitOfZero(crc: Register, count: nat)
    requires count < 32 && !crc[count]
    ensures ShiftBit(ShiftRight(crc, count)) == ShiftRight(crc, count + 1)
  {
    assert !ShiftRight(crc, count)[0];
  }

  /** While the bits shifted out are zero, the polynomial is never applied. */
  lemma {:induction false} ShiftBitsOfZeros(crc: Register, count: nat)
    requires count <= 32 && forall i :: 0 <= i < count ==> !crc[i]
    ensures ShiftBits(crc, count) == ShiftRight(crc, count)
  {
    hide ShiftBit;
    if count == 0 {
      assert ShiftRight(crc, 0) == crc;
    } else {
      ShiftBitsOfZeros(crc, count - 1);
      ShiftBitOfZero(crc, count - 1);
    }
  }

  function LowByte(crc: Register): byte {
    ValueBound(crc[..8]);
    Powers();
    Value(crc[..8])
  }

  lemma LowByteBits(crc: Register)
    ensures ByteRegister(LowByte(crc)) == crc[..8] + seq(24, _ => false)
  {
    ValueBound(crc[..8]);
    BitsPadded(LowByte(crc), 8, 32);
    BitsOfValue(crc[..8]);
  }

  lemma TableStep(crc: Register)
    ensures ShiftBits(crc, 8) == Xor(ShiftBits(ByteRegister(LowByte(crc)), 8), ShiftRight(crc, 8))
  {
    LowByteBits(crc);
    var low := ByteRegister(LowByte(crc));
    var high: Register := seq(8, _ => false) + crc[8..];
    assert crc == Xor(low, high);
    ShiftBitsLinear(low, high, 8);
    ShiftBitsOfZeros(high, 8);
    assert ShiftRight(high, 8) == ShiftRight(crc, 8);
  }

  method MakeTable() returns (table: seq<Register>)
    ensures |table| == 256
    ensures forall i: byte :: table[i] == ShiftBits(ByteRegister(i), 8)
  {
    hide ShiftBit, ByteRegister;
    table := [];
    for i := 0 to 256
      invariant |table| == i
      invariant forall j: byte :: j < i ==> table[j] == ShiftBits(ByteRegister(j), 8)
    {
      var value := ByteRegister(i);
      for bit := 0 to 8
        invariant value == ShiftBits(ByteRegister(i), bit)
      {
        value := ShiftBit(value);
      }
      table := table + [value];
    }
  }

  /** Feeding a byte leaves the bytes above the lowest where they were. */
  lemma FeedKeepsHighBytes(crc: Register, b: byte)
    ensures ShiftRight(Xor(crc, ByteRegister(b)), 8) == ShiftRight(crc, 8)
  {
    Powers();
    BitsPadded(b, 8, 32);
  }

  method ComputeSeeded(bytes: seq<byte>, seed: Register) returns (result: Register)
    ensures result == ChecksumBits(bytes, seed)
  {
    var table := MakeTable();
    var crc := Not(seed);
    for i := 0 to |bytes|
      invariant FeedAll(crc, bytes[i..]) == FeedAll(Not(seed), bytes)
    {
      assert bytes[i..][1..] == bytes[i + 1..];
      var mixed := Xor(crc, ByteRegister(bytes[i]));
      TableStep(mixed);
      FeedKeepsHighBytes(crc, bytes[i]);
      crc := Xor(table[LowByte(mixed)], ShiftRight(crc, 8));
    }
    result := Not(crc);
  }

  method Compute(bytes: seq<byte>) returns (result: uint32)
    ensures result == Checksum(bytes)
  {
    var crc := ComputeSeeded(bytes, ZERO);
    ValueBound(crc);
    Powers();
    result := Value(crc);
  }

  // ---------------------------------------------------------------------
  // What the checksum is for
  // ---------------------------------------------------------------------

  lemma {:induction false} FeedAllAppend(crc: Register, a: seq<byte>, b: seq<byte>)
    ensures FeedAll(crc, a + b) == FeedAll(FeedAll(crc, a), b)
    decreases |a|
  {
    if a == [] {
      assert a + b == b;
    } else {
      assert (a + b)[1..] == a[1..] + b;
      FeedAllAppend(Feed(crc, a[0]), a[1..], b);
    }
  }

  /** Checksumming in pieces, each seeded with the one before, checksums the whole. */
  lemma Chains(a: seq<byte>, b: seq<byte>, seed: Register)
    ensures ChecksumBits(b, ChecksumBits(a, seed)) == ChecksumBits(a + b, seed)
  {
    FeedAllAppend(Not(seed), a, b);
    assert Not(Not(FeedAll(Not(seed), a))) == FeedAll(Not(seed), a);
  }

  lemma PolynomialHasTopBit()
    ensures Bits(POLYNOMIAL, 32)[31]
  {
    Powers();
    assert Pow2(32) == 2 * Pow2(31);
    TopBit(POLYNOMIAL, 32);
  }

  /** Bit `i + 1` of a register, recovered from what shifting made of it. */
  lemma ShiftBitAt(crc: Register, i: nat)
    requires i < 31
    ensures ShiftBit(crc)[31] == crc[0]
    ensures crc[i + 1] == (ShiftBit(crc)[i] != (crc[0] && Bits(POLYNOMIAL, 32)[i]))
  {
    PolynomialHasTopBit();
  }

  /** The register can be run backwards, so no two states are ever merged. */
  lemma ShiftBitInjective(a: Register, b: Register)
    requires ShiftBit(a) == ShiftBit(b)
    ensures a == b
  {
    forall i: nat | i < 32
      ensures a[i] == b[i]
    {
      if i == 0 {
        ShiftBitAt(a, 0);
        ShiftBitAt(b, 0);
      } else {
        ShiftBitAt(a, i - 1);
        ShiftBitAt(b, i - 1);
      }
    }
  }

  lemma {:induction false} ShiftBitsInjective(a: Register, b: Register, count: nat)
    requires ShiftBits(a, count) == ShiftBits(b, count)
    ensures a == b
  {
    hide ShiftBit;
    if count != 0 {
      ShiftBitInjective(ShiftBits(a, count - 1), ShiftBits(b, count - 1));
      ShiftBitsInjective(a, b, count - 1);
    }
  }

  lemma XorCancels(a: Register, b: Register)
    ensures Xor(a, Xor(a, b)) == b && Xor(a, Xor(b, a)) == b
  {
  }

  lemma FeedInjective(a: Register, b: Register, value: byte)
    requires Feed(a, value) == Feed(b, value)
    ensures a == b
  {
    var mask := ByteRegister(value);
    ShiftBitsInjective(Xor(a, mask), Xor(b, mask), 8);
    XorCancels(mask, a);
    XorCancels(mask, b);
  }

  lemma {:induction false} FeedAllInjective(a: Register, b: Register, bytes: seq<byte>)
    requires FeedAll(a, bytes) == FeedAll(b, bytes)
    ensures a == b
    decreases |bytes|
  {
    if bytes != [] {
      FeedAllInjective(Feed(a, bytes[0]), Feed(b, bytes[0]), bytes[1..]);
      FeedInjective(a, b, bytes[0]);
    }
  }

  lemma ByteRegisterInjective(a: byte, b: byte)
    requires ByteRegister(a) == ByteRegister(b)
    ensures a == b
  {
    Powers();
    ValueOfBits(a, 32);
    ValueOfBits(b, 32);
  }

  // Four consecutive bytes fill the register exactly: feeding them is the same as
  // exclusive-oring one 32-bit word into it and shifting 32 times.

  function Word(bytes: seq<byte>): Register
    requires |bytes| == 4
  {
    Bits(bytes[0], 8) + Bits(bytes[1], 8) + Bits(bytes[2], 8) + Bits(bytes[3], 8)
  }

  lemma WordInjective(a: seq<byte>, b: seq<byte>)
    requires |a| == |b| == 4 && Word(a) == Word(b)
    ensures a == b
  {
    hide Bits;
    Powers();
    forall k: nat | k < 4
      ensures a[k] == b[k]
    {
      assert Word(a)[8 * k..8 * k + 8] == Bits(a[k], 8);
      assert Word(b)[8 * k..8 * k + 8] == Bits(b[k], 8);
      ValueOfBits(a[k], 8);
      ValueOfBits(b[k], 8);
    }
  }

  lemma {:induction false} ShiftBitsAdd(crc: Register, a: nat, b: nat)
    ensures ShiftBits(crc, a + b) == ShiftBits(ShiftBits(crc, a), b)
  {
    hide ShiftBit;
    if b != 0 {
      ShiftBitsAdd(crc, a, b - 1);
    }
  }

  /** A byte that will be fed after `8 * k` shifts, placed in the register now. */
  function PlacedByte(b: byte, k: nat): Register
    requires k < 4
  {
    seq(8 * k, _ => false) + Bits(b, 8) + seq(24 - 8 * k, _ => false)
  }

  lemma PlacedByteArrives(b: byte, k: nat)
    requires k < 4
    ensures ShiftBits(PlacedByte(b, k), 8 * k) == ByteRegister(b)
  {
    hide ShiftBits;
    Powers();
    ShiftBitsOfZeros(PlacedByte(b, k), 8 * k);
    BitsPadded(b, 8, 32);
    assert ShiftRight(PlacedByte(b, k), 8 * k) == ByteRegister(b);
  }

  /** Feeding one more byte to a register that has been shifted `8 * k` times. */
  lemma FeedPlaced(start: Register, b: byte, k: nat)
    requires k < 4
    ensures Feed(ShiftBits(start, 8 * k), b) == ShiftBits(Xor(start, PlacedByte(b, k)), 8 * k + 8)
  {
    hide PlacedByte, ShiftBits, Xor;
    PlacedByteArrives(b, k);
    ShiftBitsLinear(start, PlacedByte(b, k), 8 * k);
    ShiftBitsAdd(Xor(start, PlacedByte(b, k)), 8 * k, 8);
  }

  lemma WordPlaced(crc: Register, bytes: seq<byte>)
    requires |bytes| == 4
    ensures Xor(Xor(Xor(Xor(crc, PlacedByte(bytes[0], 0)), PlacedByte(bytes[1], 1)), PlacedByte(bytes[2], 2)),
                PlacedByte(bytes[3], 3)) == Xor(crc, Word(bytes))
  {
    hide Bits;
  }

  lemma NoShift(crc: Register)
    ensures ShiftBits(crc, 0) == crc
  {
  }

  lemma FeedFour(crc: Register, bytes: seq<byte>)
    requires |bytes| == 4
    ensures FeedAll(crc, bytes) == ShiftBits(Xor(crc, Word(bytes)), 32)
  {
    hide Xor, Word, PlacedByte, Feed, FeedAll, ShiftBits, ShiftBit, Bits;
    assert ShiftBits(crc, 0) == crc by { NoShift(crc); }
    var s1 := Xor(crc, PlacedByte(bytes[0], 0));
    var s2 := Xor(s1, PlacedByte(bytes[1], 1));
    var s3 := Xor(s2, PlacedByte(bytes[2], 2));
    FeedPlaced(crc, bytes[0], 0);
    FeedPlaced(s1, bytes[1], 1);
    FeedPlaced(s2, bytes[2], 2);
    FeedPlaced(s3, bytes[3], 3);
    WordPlaced(crc, bytes);
    FeedsOneByOne(crc, bytes);
  }

  lemma FeedNext(crc: Register, bytes: seq<byte>, i: nat)
    requires i < |bytes|
    ensures FeedAll(crc, bytes[i..]) == FeedAll(Feed(crc, bytes[i]), bytes[i + 1..])
  {
    assert bytes[i..][1..] == bytes[i + 1..];
  }

  lemma FeedsOneByOne(crc: Register, bytes: seq<byte>)
    requires |bytes| == 4
    ensures FeedAll(crc, bytes) == Feed(Feed(Feed(Feed(crc, bytes[0]), bytes[1]), bytes[2]), bytes[3])
  {
    hide Feed;
    assert bytes[0..] == bytes;
    FeedNext(crc, bytes, 0);
    FeedNext(Feed(crc, bytes[0]), bytes, 1);
    FeedNext(Feed(Feed(crc, bytes[0]), bytes[1]), bytes, 2);
    FeedNext(Feed(Feed(Feed(crc, bytes[0]), bytes[1]), bytes[2]), bytes, 3);
  }

  lemma ChecksumInjective(a: seq<byte>, b: seq<byte>)
    requires Checksum(a) == Checksum(b)
    ensures FeedAll(Not(ZERO), a) == FeedAll(Not(ZERO), b)
  {
    var x, y := ChecksumBits(a, ZERO), ChecksumBits(b, ZERO);
    BitsOfValue(x);
    BitsOfValue(y);
    assert Not(x) == Not(y);
    assert Not(x) == FeedAll(Not(ZERO), a) && Not(y) == FeedAll(Not(ZERO), b);
  }

  /** Damage confined to four consecutive bytes always changes the checksum. */
  lemma DetectsFourByteBurst(prefix: seq<byte>, a: seq<byte>, b: seq<byte>, suffix: seq<byte>)
    requires |a| == |b| == 4 && a != b
    ensures Checksum(prefix + a + suffix) != Checksum(prefix + b + suffix)
  {
    if Checksum(prefix + a + suffix) == Checksum(prefix + b + suffix) {
      ChecksumInjective(prefix + a + suffix, prefix + b + suffix);
      var start := FeedAll(Not(ZERO), prefix);
      FeedAllAppend(Not(ZERO), prefix + a, suffix);
      FeedAllAppend(Not(ZERO), prefix + b, suffix);
      FeedAllAppend(Not(ZERO), prefix, a);
      FeedAllAppend(Not(ZERO), prefix, b);
      FeedAllInjective(FeedAll(start, a), FeedAll(start, b), suffix);
      FeedFour(start, a);
      FeedFour(start, b);
      ShiftBitsInjective(Xor(start, Word(a)), Xor(start, Word(b)), 32);
      XorCancels(start, Word(a));
      XorCancels(start, Word(b));
      WordInjective(a, b);
    }
  }

  /** Two buffers of one length that differ in exactly one byte have different checksums. */
  lemma DetectsOneByte(a: seq<byte>, b: seq<byte>, at: nat)
    requires |a| == |b| && at < |a| && a[at] != b[at]
    requires forall i :: 0 <= i < |a| && i != at ==> a[i] == b[i]
    ensures Checksum(a) != Checksum(b)
  {
    hide ByteRegister, ShiftBits, Xor;
    if Checksum(a) == Checksum(b) {
      ChecksumInjective(a, b);
      var prefix, suffix := a[..at], a[at + 1..];
      assert a == prefix + ([a[at]] + suffix) && b == prefix + ([b[at]] + suffix);
      var start := FeedAll(Not(ZERO), prefix);
      FeedAllAppend(Not(ZERO), prefix, [a[at]] + suffix);
      FeedAllAppend(Not(ZERO), prefix, [b[at]] + suffix);
      FeedAllInjective(Feed(start, a[at]), Feed(start, b[at]), suffix);
      ShiftBitsInjective(Xor(start, ByteRegister(a[at])), Xor(start, ByteRegister(b[at])), 8);
      XorCancels(start, ByteRegister(a[at]));
      XorCancels(start, ByteRegister(b[at]));
      ByteRegisterInjective(a[at], b[at]);
    }
  }
}
