/** Non-negative integers as sequences of bits, least significant first. */
module Bitwise {
  import opened Machine

  function Bits(value: nat, width: nat): (bits: seq<bool>)
    ensures |bits| == width
  {
    if width == 0 then [] else [value % 2 == 1] + Bits(value / 2, width - 1)
  }

  function Pow2(k: nat): (p: nat)
    ensures p > 0
  {
    if k == 0 then 1 else 2 * Pow2(k - 1)
  }

  function Value(bits: seq<bool>): nat {
    if bits == [] then 0 else (if bits[0] then 1 else 0) + 2 * Value(bits[1..])
  }

  lemma {:induction false} ValueBound(bits: seq<bool>)
    ensures Value(bits) < Pow2(|bits|)
  {
    if bits != [] {
      ValueBound(bits[1..]);
    }
  }

  lemma {:induction false} BitsOfValue(bits: seq<bool>)
    ensures Bits(Value(bits), |bits|) == bits
  {
    if bits != [] {
      BitsOfValue(bits[1..]);
      assert bits == [bits[0]] + bits[1..];
    }
  }

  lemma {:induction false} ValueOfBits(value: nat, width: nat)
    requires value < Pow2(width)
    ensures Value(Bits(value, width)) == value
  {
    if width != 0 {
      ValueOfBits(value / 2, width - 1);
      assert Bits(value, width)[1..] == Bits(value / 2, width - 1);
    }
  }

  /** A value that fits in `low` bits has zeros above them. */
  lemma {:induction false} BitsPadded(value: nat, low: nat, width: nat)
    requires low <= width && value < Pow2(low)
    ensures Bits(value, width) == Bits(value, low) + seq(width - low, _ => false)
  {
    if low == 0 {
      if width != 0 {
        BitsPadded(0, 0, width - 1);
        assert seq(width, _ => false) == [false] + seq(width - 1, _ => false);
      }
    } else {
      BitsPadded(value / 2, low - 1, width - 1);
    }
  }

  /** Bit i of a number: shift it out and look. */
  predicate Bit(value: nat, i: nat) {
    if i == 0 then value % 2 == 1 else Bit(value / 2, i - 1)
  }

  lemma {:induction false} BitIs(value: nat, width: nat, i: nat)
    requires i < width
    ensures Bits(value, width)[i] <==> Bit(value, i)
  {
    if i > 0 {
      BitIs(value / 2, width - 1, i - 1);
    }
  }

  lemma {:induction false} BitBeyond(value: nat, width: nat, i: nat)
    requires value < Pow2(width) && width <= i
    ensures !Bit(value, i)
    decreases i
  {
    if i > 0 {
      BitBeyond(value / 2, if width == 0 then 0 else width - 1, i - 1);
    }
  }

  lemma Powers()
    ensures Pow2(8) == 256 && Pow2(32) == 0x1_0000_0000
  {
    assert Pow2(12) == 0x1000;
    assert Pow2(16) == 0x1_0000;
    assert Pow2(20) == 0x10_0000;
    assert Pow2(24) == 0x100_0000;
    assert Pow2(28) == 0x1000_0000;
  }

  lemma {:induction false} TopBit(value: nat, width: nat)
    requires width > 0 && Pow2(width - 1) <= value < Pow2(width)
    ensures Bits(value, width)[width - 1]
  {
    if width > 1 {
      TopBit(value / 2, width - 1);
    }
  }

  // ---------------------------------------------------------------------
  // Two's complement
  // ---------------------------------------------------------------------

  function SignedValue(bits: seq<bool>): int {
    if bits != [] && bits[|bits| - 1] then Value(bits) - Pow2(|bits|) else Value(bits)
  }

  lemma {:induction false} TopBitWeight(bits: seq<bool>)
    requires bits != []
    ensures bits[|bits| - 1] <==> Value(bits) >= Pow2(|bits| - 1)
  {
    ValueBound(bits);
    if |bits| > 1 {
      TopBitWeight(bits[1..]);
    }
  }

  /** Storing a number that fits in `width` bits and reading it back signed. */
  lemma SignedRoundTrip(value: int, width: nat)
    requires width > 0 && 0 - Pow2(width - 1) <= value < Pow2(width - 1)
    ensures SignedValue(Bits(if value < 0 then value + Pow2(width) else value, width)) == value
  {
    var stored := if value < 0 then value + Pow2(width) else value;
    assert Pow2(width) == 2 * Pow2(width - 1);
    ValueOfBits(stored, width);
    TopBitWeight(Bits(stored, width));
  }

  // ---------------------------------------------------------------------
  // Bytes as bits, and masks
  // ---------------------------------------------------------------------

  function ByteBits(bytes: seq<byte>): (bits: seq<bool>)
    ensures |bits| == 8 * |bytes|
  {
    if bytes == [] then [] else Bits(bytes[0], 8) + ByteBits(bytes[1..])
  }

  /** Bit `i % 8` of byte `i / 8`. */
  lemma {:induction false} ByteBitsAt(bytes: seq<byte>, i: nat)
    requires i < 8 * |bytes|
    ensures ByteBits(bytes)[i] == Bits(bytes[i / 8], 8)[i % 8]
  {
    hide Bits;
    if i >= 8 {
      ByteBitsAt(bytes[1..], i - 8);
      assert bytes[1..][(i - 8) / 8] == bytes[i / 8] && (i - 8) % 8 == i % 8;
    }
  }

  /** A 32-bit mask: bit `k` has weight 2^k. */
  type Mask = bits: seq<bool> | |bits| == 32 witness Bits(0, 32)

  function MaskValue(mask: Mask): uint32 {
    ValueBound(mask);
    Powers();
    Value(mask)
  }
}
