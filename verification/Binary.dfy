/** Fixed-width and variable-width integer encodings (src/base/Binary.cpp). */
module Binary {
  import opened Machine

  lemma SliceOfSlice<T>(s: seq<T>, a: nat, b: nat, c: nat, d: nat)
    requires a <= b <= |s| && c <= d <= b - a
    ensures s[a..b][c..d] == s[a + c..a + d]
  {
    assert s[a..b][c..d] == s[..b][a..][..d][c..];
    assert s[..b][a..][..d] == s[..a + d][a..];
  }

  // ---------------------------------------------------------------------
  // Fixed-width integers
  // ---------------------------------------------------------------------

  function Pow256(k: nat): (p: nat)
    ensures p > 0
  {
    if k == 0 then 1 else 256 * Pow256(k - 1)
  }

  /** The `width` low bytes of a value, least significant first. */
  function LittleEndian(value: nat, width: nat): (bytes: seq<byte>)
    ensures |bytes| == width
  {
    if width == 0 then [] else [value % 256] + LittleEndian(value / 256, width - 1)
  }

  function FromLittleEndian(bytes: seq<byte>): nat {
    if bytes == [] then 0 else bytes[0] + 256 * FromLittleEndian(bytes[1..])
  }

  /** The same, most significant first. */
  function BigEndian(value: nat, width: nat): (bytes: seq<byte>)
    ensures |bytes| == width
  {
    if width == 0 then [] else BigEndian(value / 256, width - 1) + [value % 256]
  }

  function FromBigEndian(bytes: seq<byte>): nat {
    if bytes == [] then 0 else 256 * FromBigEndian(bytes[..|bytes| - 1]) + bytes[|bytes| - 1]
  }

  function Fixed(value: nat, width: nat, littleEndian: bool): (bytes: seq<byte>)
    ensures |bytes| == width
  {
    if littleEndian then LittleEndian(value, width) else BigEndian(value, width)
  }

  function FromFixed(bytes: seq<byte>, littleEndian: bool): nat {
    if littleEndian then FromLittleEndian(bytes) else FromBigEndian(bytes)
  }

  lemma {:induction false} FixedBound(bytes: seq<byte>, littleEndian: bool)
    ensures FromFixed(bytes, littleEndian) < Pow256(|bytes|)
  {
    if bytes == [] {
    } else if littleEndian {
      FixedBound(bytes[1..], littleEndian);
    } else {
      FixedBound(bytes[..|bytes| - 1], littleEndian);
    }
  }

  /** Reading back a fixed-width integer returns the value written. */
  lemma {:induction false} FixedRoundTrip(value: nat, width: nat, littleEndian: bool)
    requires value < Pow256(width)
    ensures FromFixed(Fixed(value, width, littleEndian), littleEndian) == value
  {
    if width == 0 {
    } else {
      FixedRoundTrip(value / 256, width - 1, littleEndian);
      var bytes := Fixed(value, width, littleEndian);
      if littleEndian {
        assert bytes[1..] == LittleEndian(value / 256, width - 1);
      } else {
        assert bytes[..|bytes| - 1] == BigEndian(value / 256, width - 1);
      }
    }
  }

  /** Writing back what was read restores the same bytes. */
  lemma {:induction false} FixedRestores(bytes: seq<byte>, littleEndian: bool)
    ensures Fixed(FromFixed(bytes, littleEndian), |bytes|, littleEndian) == bytes
  {
    if bytes == [] {
    } else if littleEndian {
      FixedRestores(bytes[1..], littleEndian);
      assert [bytes[0]] + bytes[1..] == bytes;
    } else {
      FixedRestores(bytes[..|bytes| - 1], littleEndian);
      assert bytes[..|bytes| - 1] + [bytes[|bytes| - 1]] == bytes;
    }
  }

  lemma Widths()
    ensures Pow256(1) == 0x100
    ensures Pow256(2) == 0x1_0000
    ensures Pow256(4) == 0x1_0000_0000
    ensures Pow256(8) == 0x1_0000_0000_0000_0000
  {
    assert Pow256(0) == 1;
    assert Pow256(3) == 0x100_0000;
    assert Pow256(5) == 0x100_0000_0000;
    assert Pow256(6) == 0x1_0000_0000_0000;
    assert Pow256(7) == 0x100_0000_0000_0000;
  }

  /** ReadU16, ReadU32 and ReadU64: bounds check, then accumulate the bytes. */
  function ReadFixed(bytes: seq<byte>, offset: nat, width: nat, littleEndian: bool): Result<nat, Fault> {
    if offset > |bytes| || width > |bytes| - offset then Err(Truncated)
    else Ok(FromFixed(bytes[offset..offset + width], littleEndian))
  }

  /** `value << 8 * count`. */
  function ShiftBytes(value: nat, count: nat): nat {
    if count == 0 then value else 256 * ShiftBytes(value, count - 1)
  }

  lemma {:induction false} ShiftBytesSplit(low: nat, higher: nat, count: nat)
    ensures ShiftBytes(low + 256 * higher, count) == ShiftBytes(low, count) + ShiftBytes(higher, count + 1)
  {
    if count != 0 {
      ShiftBytesSplit(low, higher, count - 1);
    }
  }

  /** The next byte, shifted into place, is what the bytes from here on denote less the
      bytes after it. */
  lemma ReadNextByte(bytes: seq<byte>, from: nat, end: nat, count: nat)
    requires from < end <= |bytes|
    ensures ShiftBytes(FromLittleEndian(bytes[from..end]), count)
         == ShiftBytes(bytes[from], count) + ShiftBytes(FromLittleEndian(bytes[from + 1..end]), count + 1)
    ensures FromBigEndian(bytes[..from + 1]) == 256 * FromBigEndian(bytes[..from]) + bytes[from]
  {
    assert bytes[from..end][1..] == bytes[from + 1..end];
    assert bytes[..from + 1][..from] == bytes[..from];
    ShiftBytesSplit(bytes[from], FromLittleEndian(bytes[from + 1..end]), count);
  }

  method ReadAvailable(bytes: seq<byte>, offset: nat, width: nat, littleEndian: bool) returns (value: nat)
    requires offset + width <= |bytes|
    ensures value == FromFixed(bytes[offset..offset + width], littleEndian)
  {
    var field := bytes[offset..offset + width];
    value := 0;
    assert field[0..width] == field;
    if littleEndian {
      for i := 0 to width
        invariant value + ShiftBytes(FromLittleEndian(field[i..width]), i) == FromLittleEndian(field)
      {
        ReadNextByte(field, i, width, i);
        value := value + ShiftBytes(field[i], i);
      }
      ShiftBytesZero(width);
    } else {
      for i := 0 to width
        invariant value == FromBigEndian(field[..i])
      {
        ReadNextByte(field, i, width, i);
        value := 256 * value + field[i];
      }
      assert field[..width] == field;
    }
  }

  method ReadUnsigned(bytes: seq<byte>, offset: nat, width: nat, littleEndian: bool)
    returns (result: Result<nat, Fault>)
    ensures result == ReadFixed(bytes, offset, width, littleEndian)
  {
    if offset > |bytes| || width > |bytes| - offset {
      return Err(Truncated);
    }
    var value := ReadAvailable(bytes, offset, width, littleEndian);
    return Ok(value);
  }

  lemma {:induction false} ShiftBytesZero(count: nat)
    ensures ShiftBytes(0, count) == 0
  {
    if count != 0 {
      ShiftBytesZero(count - 1);
    }
  }

  /** AppendU16, AppendU32 and AppendU64. */
  method AppendUnsigned(out: seq<byte>, value: nat, width: nat) returns (result: seq<byte>)
    ensures result == out + LittleEndian(value, width)
  {
    result := out;
    var rest := value;
    for i := 0 to width
      invariant result + LittleEndian(rest, width - i) == out + LittleEndian(value, width)
    {
      var low: byte := rest % 256;
      assert result + ([low] + LittleEndian(rest / 256, width - i - 1))
          == (result + [low]) + LittleEndian(rest / 256, width - i - 1);
      result := result + [low];
      rest := rest / 256;
    }
  }

  /** A field written at `offset` is read back, and reading stops where the field ends. */
  lemma ReadFixedPrefix(bytes: seq<byte>, offset: nat, value: nat, width: nat, rest: seq<byte>)
    requires offset <= |bytes|
    requires value < Pow256(width)
    requires bytes[offset..] == LittleEndian(value, width) + rest
    ensures offset + width <= |bytes| && FromLittleEndian(bytes[offset..offset + width]) == value
    ensures ReadFixed(bytes, offset, width, true) == Ok(value)
    ensures offset + width <= |bytes| && bytes[offset + width..] == rest
  {
    var field := LittleEndian(value, width);
    assert |bytes[offset..]| == |bytes| - offset;
    assert bytes[offset..offset + width] == bytes[offset..][..width] == field;
    assert bytes[offset + width..] == bytes[offset..][width..];
    FixedRoundTrip(value, width, true);
  }

  // ---------------------------------------------------------------------
  // Variable-width unsigned integers: seven bits a byte, low group first
  // ---------------------------------------------------------------------

  const MAX_GROUPS := 10

  function Pow128(k: nat): (p: nat)
    ensures p > 0
  {
    if k == 0 then 1 else 128 * Pow128(k - 1)
  }

  function VarUInt(value: nat): (bytes: seq<byte>)
    ensures bytes != []
  {
    if value < 128 then [value] else [value % 128 + 128] + VarUInt(value / 128)
  }

  /** Read groups `group`, `group + 1`, ... from `offset`: the value they denote, scaled
      so that the first of them has weight one, and the offset after them. */
  function DecodeGroups(bytes: seq<byte>, offset: nat, group: nat): (r: Result<(nat, nat), Fault>)
    requires group < MAX_GROUPS
    ensures r.Ok? ==> offset < r.value.1 <= |bytes|
    ensures r.Ok? ==> r.value.1 - offset <= MAX_GROUPS - group
    decreases MAX_GROUPS - group
  {
    if offset >= |bytes| then Err(Truncated)
    else
      var b := bytes[offset];
      if group == MAX_GROUPS - 1 && b >= 2 then Err(VarUIntOverflow)
      else if b < 128 then Ok((b, offset + 1))
      else
        var higher :- DecodeGroups(bytes, offset + 1, group + 1);
        Ok((b - 128 + 128 * higher.0, higher.1))
  }

  /** Ten groups never exceed 64 bits. */
  lemma {:induction false} DecodeGroupsBound(bytes: seq<byte>, offset: nat, group: nat)
    requires group < MAX_GROUPS
    ensures var r := DecodeGroups(bytes, offset, group);
            r.Ok? ==> r.value.0 < 2 * Pow128(MAX_GROUPS - 1 - group)
    decreases MAX_GROUPS - group
  {
    if offset < |bytes| && bytes[offset] >= 128 && group < MAX_GROUPS - 1 {
      DecodeGroupsBound(bytes, offset + 1, group + 1);
    }
  }

  lemma TenGroupsAre64Bits()
    ensures 2 * Pow128(MAX_GROUPS - 1) == TWO_64
  {
    assert Pow128(1) == 128;
    assert Pow128(3) == 128 * 128 * 128;
    assert Pow128(5) == 128 * 128 * 128 * 128 * 128;
    assert Pow128(7) == 128 * 128 * 128 * 128 * 128 * 128 * 128;
    assert Pow128(9) == 0x8000_0000_0000_0000;
  }

  function DecodeVarUInt(bytes: seq<byte>, offset: nat): (r: Result<(uint64, nat), Fault>)
    ensures r.Ok? ==> offset < r.value.1 <= |bytes|
  {
    DecodeGroupsBound(bytes, offset, 0);
    TenGroupsAre64Bits();
    DecodeGroups(bytes, offset, 0)
  }

  method AppendVarUInt(out: seq<byte>, value: uint64) returns (result: seq<byte>)
    ensures result == out + VarUInt(value)
  {
    result := out;
    var rest := value;
    while true
      invariant rest >= 0
      invariant result + VarUInt(rest) == out + VarUInt(value)
      decreases rest
    {
      var low := rest % 128;
      var higher := rest / 128;
      var b: byte := if higher != 0 then low + 128 else low;
      if higher == 0 {
        result := result + [b];
        break;
      }
      assert result + ([b] + VarUInt(higher)) == (result + [b]) + VarUInt(higher);
      result := result + [b];
      rest := higher;
    }
  }

  /** `value << 7 * groups`. */
  function ShiftGroups(value: nat, groups: nat): nat {
    if groups == 0 then value else 128 * ShiftGroups(value, groups - 1)
  }

  lemma {:induction false} ShiftGroupsSplit(low: nat, higher: nat, groups: nat)
    ensures ShiftGroups(low + 128 * higher, groups) == ShiftGroups(low, groups) + ShiftGroups(higher, groups + 1)
  {
    if groups != 0 {
      ShiftGroupsSplit(low, higher, groups - 1);
    }
  }

  /** Reading the groups from `group` on and adding them to `value` gives `whole`. */
  ghost predicate Accumulated(value: nat, bytes: seq<byte>, position: nat, group: nat,
                              whole: Result<(uint64, nat), Fault>)
    requires group < MAX_GROUPS
  {
    var tail := DecodeGroups(bytes, position, group);
    if tail.Err? then whole == Err(tail.error)
    else whole.Ok? && whole.value == (value + ShiftGroups(tail.value.0, group), tail.value.1)
  }

  lemma AccumulateGroup(value: nat, bytes: seq<byte>, position: nat, group: nat, whole: Result<(uint64, nat), Fault>)
    requires group < MAX_GROUPS - 1 && position < |bytes| && bytes[position] >= 128
    requires Accumulated(value, bytes, position, group, whole)
    ensures Accumulated(value + ShiftGroups(bytes[position] - 128, group), bytes, position + 1, group + 1, whole)
  {
    var tail := DecodeGroups(bytes, position + 1, group + 1);
    if tail.Ok? {
      ShiftGroupsSplit(bytes[position] - 128, tail.value.0, group);
    }
  }

  method ReadVarUInt(bytes: seq<byte>, offset: nat) returns (result: Result<(uint64, nat), Fault>)
    ensures result == DecodeVarUInt(bytes, offset)
  {
    ghost var whole := DecodeVarUInt(bytes, offset);
    var value: nat, position, group := 0, offset, 0;
    while true
      invariant 0 <= group < MAX_GROUPS
      invariant position == offset + group
      invariant Accumulated(value, bytes, position, group, whole)
      decreases MAX_GROUPS - group
    {
      if position >= |bytes| {
        return Err(Truncated);
      }
      var b := bytes[position];
      if group == MAX_GROUPS - 1 && b >= 2 {
        return Err(VarUIntOverflow);
      }
      if b < 128 {
        value := value + ShiftGroups(b, group);
        return Ok((value, position + 1));
      }
      AccumulateGroup(value, bytes, position, group, whole);
      value := value + ShiftGroups(b - 128, group);
      position := position + 1;
      group := group + 1;
    }
  }

  /** Decoding at the start of an encoding gives back the value and the offset after it. */
  lemma {:induction false} DecodeGroupsOfVarUInt(bytes: seq<byte>, offset: nat, group: nat, value: nat, rest: seq<byte>)
    requires group < MAX_GROUPS && offset <= |bytes|
    requires value < 2 * Pow128(MAX_GROUPS - 1 - group)
    requires bytes[offset..] == VarUInt(value) + rest
    ensures DecodeGroups(bytes, offset, group) == Ok((value, offset + |VarUInt(value)|))
    ensures offset + |VarUInt(value)| <= |bytes| && bytes[offset + |VarUInt(value)|..] == rest
    decreases MAX_GROUPS - group
  {
    var code := VarUInt(value);
    assert bytes[offset] == bytes[offset..][0] == code[0];
    assert bytes[offset + |code|..] == bytes[offset..][|code|..];
    if value < 128 {
    } else {
      assert bytes[offset + 1..] == bytes[offset..][1..] == VarUInt(value / 128) + rest;
      DecodeGroupsOfVarUInt(bytes, offset + 1, group + 1, value / 128, rest);
    }
  }

  lemma VarUIntPrefix(bytes: seq<byte>, offset: nat, value: uint64, rest: seq<byte>)
    requires offset <= |bytes|
    requires bytes[offset..] == VarUInt(value) + rest
    ensures DecodeVarUInt(bytes, offset) == Ok((value, offset + |VarUInt(value)|))
    ensures offset + |VarUInt(value)| <= |bytes| && bytes[offset + |VarUInt(value)|..] == rest
  {
    TenGroupsAre64Bits();
    DecodeGroupsOfVarUInt(bytes, offset, 0, value, rest);
  }

  /** An encoded uint64 takes at most ten bytes. */
  lemma VarUIntLength(value: uint64)
    ensures |VarUInt(value)| <= MAX_GROUPS
  {
    VarUIntPrefix(VarUInt(value), 0, value, []);
  }

  // A canonical encoding has no empty high groups. The collector's reader accepts any
  // encoding; the inspector (tools/inspect_capture_session.py) only the canonical one.

  predicate Canonical(value: nat, length: nat) {
    length > 1 ==> value >= Pow128(length - 1)
  }

  function DecodeVarUIntAs(bytes: seq<byte>, offset: nat, canonicalOnly: bool): (r: Result<(uint64, nat), Fault>)
    ensures r.Ok? ==> offset < r.value.1 <= |bytes|
  {
    var decoded :- DecodeVarUInt(bytes, offset);
    if canonicalOnly && !Canonical(decoded.0, decoded.1 - offset) then Err(VarUIntOverlong) else Ok(decoded)
  }

  lemma {:induction false} VarUIntIsCanonical(value: nat)
    ensures Canonical(value, |VarUInt(value)|)
  {
    if value >= 128 {
      VarUIntIsCanonical(value / 128);
    }
  }

  lemma {:induction false} CanonicalIsVarUInt(bytes: seq<byte>, offset: nat, group: nat)
    requires group < MAX_GROUPS
    requires DecodeGroups(bytes, offset, group).Ok?
    requires var r := DecodeGroups(bytes, offset, group).value; Canonical(r.0, r.1 - offset)
    ensures var r := DecodeGroups(bytes, offset, group).value; bytes[offset..r.1] == VarUInt(r.0)
    decreases MAX_GROUPS - group
  {
    var r := DecodeGroups(bytes, offset, group).value;
    if bytes[offset] >= 128 {
      var higher := DecodeGroups(bytes, offset + 1, group + 1).value;
      assert r.0 / 128 == higher.0;
      CanonicalIsVarUInt(bytes, offset + 1, group + 1);
      assert bytes[offset..r.1] == [bytes[offset]] + bytes[offset + 1..r.1];
    }
  }

  /** A group with a value in it leaves a number that needs it. */
  lemma {:induction false} LastGroupDecides(bytes: seq<byte>, offset: nat, group: nat)
    requires group < MAX_GROUPS && DecodeGroups(bytes, offset, group).Ok?
    ensures var r := DecodeGroups(bytes, offset, group).value;
            && offset < r.1 <= |bytes|
            && (Canonical(r.0, r.1 - offset) <==> r.1 - offset == 1 || bytes[r.1 - 1] != 0)
            && (r.0 > 0 <== bytes[r.1 - 1] != 0)
    decreases MAX_GROUPS - group
  {
    if bytes[offset] >= 128 {
      LastGroupDecides(bytes, offset + 1, group + 1);
    }
  }

  /** The two readers differ on an encoding exactly when it is longer than one byte and its last
      group is empty. */
  lemma ReadersAgreeIff(bytes: seq<byte>, offset: nat)
    ensures var lax := DecodeVarUInt(bytes, offset);
            DecodeVarUIntAs(bytes, offset, true) == lax <==>
            lax.Err? || lax.value.1 - offset == 1 || bytes[lax.value.1 - 1] != 0
  {
    hide DecodeGroups, Canonical;
    if DecodeVarUInt(bytes, offset).Ok? {
      LastGroupDecides(bytes, offset, 0);
    }
  }

  /** For instance, zero in two groups. */
  lemma ReadersDiffer()
    ensures DecodeVarUInt([0x80, 0], 0) == Ok((0, 2))
    ensures DecodeVarUIntAs([0x80, 0], 0, true) == Err(VarUIntOverlong)
  {
    hide Canonical;
    assert DecodeGroups([0x80, 0], 1, 1) == Ok((0, 2));
    ReadersAgreeIff([0x80, 0], 0);
  }

  lemma AcceptsCanonical(value: uint64)
    ensures DecodeVarUIntAs(VarUInt(value), 0, true) == Ok((value, |VarUInt(value)|))
  {
    hide VarUInt, DecodeVarUInt, Canonical;
    var bytes := VarUInt(value);
    assert bytes[0..] == bytes + [];
    VarUIntPrefix(bytes, 0, value, []);
    VarUIntIsCanonical(value);
  }

  lemma AcceptsOnlyCanonical(bytes: seq<byte>, value: uint64)
    requires DecodeVarUIntAs(bytes, 0, true) == Ok((value, |bytes|))
    ensures bytes == VarUInt(value)
  {
    hide VarUInt, DecodeGroups, Canonical;
    CanonicalIsVarUInt(bytes, 0, 0);
    assert bytes[0..|bytes|] == bytes;
  }

  /** The inspector's read_varuint accepts a byte string whole exactly when AppendVarUInt
      produces it, and then returns the value it was produced from. */
  lemma CanonicalOnlyInvertsAppend(bytes: seq<byte>, value: uint64)
    ensures DecodeVarUIntAs(bytes, 0, true) == Ok((value, |bytes|)) <==> bytes == VarUInt(value)
  {
    hide VarUInt, DecodeVarUIntAs;
    AcceptsCanonical(value);
    if DecodeVarUIntAs(bytes, 0, true) == Ok((value, |bytes|)) {
      AcceptsOnlyCanonical(bytes, value);
    }
  }

  lemma VarUIntPrefixAs(bytes: seq<byte>, offset: nat, value: uint64, rest: seq<byte>, canonicalOnly: bool)
    requires offset <= |bytes|
    requires bytes[offset..] == VarUInt(value) + rest
    ensures DecodeVarUIntAs(bytes, offset, canonicalOnly) == Ok((value, offset + |VarUInt(value)|))
    ensures offset + |VarUInt(value)| <= |bytes| && bytes[offset + |VarUInt(value)|..] == rest
  {
    VarUIntPrefix(bytes, offset, value, rest);
    VarUIntIsCanonical(value);
  }

  // ---------------------------------------------------------------------
  // Signed integers: zigzag, so that small magnitudes stay short
  // ---------------------------------------------------------------------

  /** `(value << 1) ^ (value >> 63)` over two's complement. */
  function ZigZag(value: int64): uint64 {
    if value >= 0 then 2 * value else -2 * value - 1
  }

  /** `(encoded >> 1) ^ -(encoded & 1)`. */
  function UnZigZag(encoded: uint64): int64 {
    if encoded % 2 == 0 then encoded / 2 else -(encoded / 2) - 1
  }

  /** The two maps are inverse bijections between int64 and uint64. */
  lemma ZigZagBijection(value: int64, encoded: uint64)
    ensures UnZigZag(ZigZag(value)) == value
    ensures ZigZag(UnZigZag(encoded)) == encoded
  {
  }

  /** The arithmetic forms above are the source's bit operations, computed modulo 2^64. */
  lemma ZigZagBits(value: bv64)
    ensures var negative := value >= 0x8000_0000_0000_0000;
            var signs: bv64 := if negative then 0xffff_ffff_ffff_ffff else 0;
            var encoded := (value << 1) ^ signs;
            && encoded == (if negative then (0 - 2 * value) - 1 else 2 * value)
            && (encoded >> 1) ^ (!(encoded & 1) + 1) == value
  {
  }

  function VarInt(value: int64): seq<byte> {
    VarUInt(ZigZag(value))
  }

  function DecodeVarInt(bytes: seq<byte>, offset: nat): (r: Result<(int64, nat), Fault>)
    ensures r.Ok? ==> offset < r.value.1 <= |bytes|
  {
    var encoded :- DecodeVarUInt(bytes, offset);
    Ok((UnZigZag(encoded.0), encoded.1))
  }

  function DecodeVarIntAs(bytes: seq<byte>, offset: nat, canonicalOnly: bool): (r: Result<(int64, nat), Fault>)
    ensures r.Ok? ==> offset < r.value.1 <= |bytes|
  {
    var encoded :- DecodeVarUIntAs(bytes, offset, canonicalOnly);
    Ok((UnZigZag(encoded.0), encoded.1))
  }

  method AppendVarInt(out: seq<byte>, value: int64) returns (result: seq<byte>)
    ensures result == out + VarInt(value)
  {
    result := AppendVarUInt(out, ZigZag(value));
  }

  method ReadVarInt(bytes: seq<byte>, offset: nat) returns (result: Result<(int64, nat), Fault>)
    ensures result == DecodeVarInt(bytes, offset)
  {
    var encoded := ReadVarUInt(bytes, offset);
    if encoded.Err? {
      return Err(encoded.error);
    }
    return Ok((UnZigZag(encoded.value.0), encoded.value.1));
  }

  lemma VarIntPrefixAs(bytes: seq<byte>, offset: nat, value: int64, rest: seq<byte>, canonicalOnly: bool)
    requires offset <= |bytes|
    requires bytes[offset..] == VarInt(value) + rest
    ensures DecodeVarIntAs(bytes, offset, canonicalOnly) == Ok((value, offset + |VarInt(value)|))
    ensures offset + |VarInt(value)| <= |bytes| && bytes[offset + |VarInt(value)|..] == rest
  {
    VarUIntPrefixAs(bytes, offset, ZigZag(value), rest, canonicalOnly);
    ZigZagBijection(value, 0);
  }
}
