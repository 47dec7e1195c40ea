/**
 * CRC-24Q: generator 0x1864CFB, initial value 0, no final exclusive-or. The register is a
 * 24-bit vector: the bit shifted out of the top is the one that brings the generator in.
 */
module Crc24q {
  import opened Wire

  function ShiftBit(crc: bv24): bv24 {
    if crc & 0x800000 != 0 then (crc << 1) ^ 0x864CFB else crc << 1
  }

  function ShiftBits(crc: bv24, n: nat): bv24
    decreases n
  {
    if n == 0 then crc else ShiftBits(ShiftBit(crc), n - 1)
  }

  /** A byte in the highest eight places. */
  function OnTop(b: byte): bv24 { (b as bv24) << 16 }

  function Mix(crc: bv24, b: byte): bv24 {
    crc ^ OnTop(b)
  }

  function AddByte(crc: bv24, b: byte): bv24 {
    ShiftBits(Mix(crc, b), 8)
  }

  function Crc(data: seq<byte>): bv24 {
    if data == [] then 0 else AddByte(Crc(data[..|data| - 1]), data[|data| - 1])
  }

  /** The routine as written: one loop over the bytes, one over the bits of each byte. */
  method Compute(data: seq<byte>) returns (crc: bv24)
    ensures crc == Crc(data)
  {
    crc := 0;
    for i := 0 to |data|
      invariant crc == Crc(data[..i])
    {
      crc := ComputeByte(crc, data[i]);
      assert data[..i + 1][..i] == data[..i];
    }
    assert data[..|data|] == data;
  }

  method ComputeByte(before: bv24, b: byte) returns (crc: bv24)
    ensures crc == AddByte(before, b)
  {
    hide OnTop, ShiftBits;
    crc := before ^ OnTop(b);
    for k := 0 to 8
      invariant ShiftBits(crc, 8 - k) == AddByte(before, b)
    {
      OneShift(crc, 8 - k);
      if crc & 0x800000 != 0 {
        crc := (crc << 1) ^ 0x864CFB;
      } else {
        crc := crc << 1;
      }
    }
    NoShift(crc);
  }

  lemma {:induction false} OneShift(crc: bv24, n: nat)
    requires n > 0
    ensures ShiftBits(crc, n) == ShiftBits(ShiftBit(crc), n - 1)
  {
    hide ShiftBit;
  }

  lemma {:induction false} NoShift(crc: bv24)
    ensures ShiftBits(crc, 0) == crc
  {}

  // One shift can be undone: the generator is odd, so the low bit says whether it came in.

  function Unshift(s: bv24): bv24 {
    if s & 1 == 0 then s >> 1 else ((s ^ 0x864CFB) >> 1) | 0x800000
  }

  lemma UnshiftPlain(a: bv24)
    requires a & 0x800000 == 0
    ensures Unshift(a << 1) == a
  {}

  lemma UnshiftReduced(a: bv24)
    requires a & 0x800000 != 0
    ensures Unshift((a << 1) ^ 0x864CFB) == a
  {}

  lemma UnshiftShift(a: bv24)
    ensures Unshift(ShiftBit(a)) == a
  {
    if a & 0x800000 == 0 {
      UnshiftPlain(a);
    } else {
      UnshiftReduced(a);
    }
  }

  lemma {:induction false} ShiftBitsInjective(a: bv24, b: bv24, n: nat)
    requires ShiftBits(a, n) == ShiftBits(b, n)
    ensures a == b
    decreases n
  {
    if n != 0 {
      ShiftBitsInjective(ShiftBit(a), ShiftBit(b), n - 1);
      UnshiftShift(a);
      UnshiftShift(b);
    }
  }

  // A number below 2^16 goes through one byte time without meeting the generator.

  lemma OneClear(x: bv24, n: nat)
    requires x & 0x800000 == 0 && n > 0
    ensures ShiftBits(x, n) == ShiftBits(x << 1, n - 1)
  {}

  lemma TwoBits(x: bv24)
    requires x & 0xC00000 == 0
    ensures x & 0x800000 == 0 && (x << 1) & 0x800000 == 0 && (x << 1) << 1 == x << 2
  {}

  lemma TwoClear(x: bv24, n: nat)
    requires x & 0xC00000 == 0 && n > 1
    ensures ShiftBits(x, n) == ShiftBits(x << 2, n - 2)
  {
    TwoBits(x);
    OneClear(x, n);
    OneClear(x << 1, n - 1);
  }

  lemma FourBits(x: bv24)
    requires x & 0xF00000 == 0
    ensures x & 0xC00000 == 0 && (x << 2) & 0xC00000 == 0 && (x << 2) << 2 == x << 4
  {}

  lemma FourClear(x: bv24, n: nat)
    requires x & 0xF00000 == 0 && n > 3
    ensures ShiftBits(x, n) == ShiftBits(x << 4, n - 4)
  {
    FourBits(x);
    TwoClear(x, n);
    TwoClear(x << 2, n - 2);
  }

  lemma EightBits(x: bv24)
    requires x & 0xFF0000 == 0
    ensures x & 0xF00000 == 0 && (x << 4) & 0xF00000 == 0 && (x << 4) << 4 == x << 8
  {}

  lemma EightClear(x: bv24)
    requires x & 0xFF0000 == 0
    ensures ShiftBits(x, 8) == x << 8
  {
    EightBits(x);
    FourClear(x, 8);
    FourClear(x << 4, 4);
  }

  lemma MixTwice(x: bv24, b: byte)
    ensures Mix(Mix(x, b), b) == x
  {}

  /** Feeding byte b leaves low << 8 exactly when the register held b above low. */
  lemma AddByteToLow(crc: bv24, b: byte, low: bv24, next: bv24)
    requires low & 0xFF0000 == 0 && next == low << 8
    ensures AddByte(crc, b) == next <==> crc == Mix(low, b)
  {
    EightClear(low);
    if AddByte(crc, b) == next {
      ShiftBitsInjective(Mix(crc, b), low, 8);
    }
    MixTwice(crc, b);
    MixTwice(low, b);
  }

  /** Three bytes read as one big-endian number. */
  function BigEndian24(b0: byte, b1: byte, b2: byte): bv24 {
    ((b0 as bv24) << 16) | ((b1 as bv24) << 8) | (b2 as bv24)
  }

  lemma ClearAbove(b1: byte, b2: byte)
    ensures (((b1 as bv24) << 8) | (b2 as bv24)) & 0xFF0000 == 0 && ((b2 as bv24) << 8) & 0xFF0000 == 0
  {}

  lemma MixLow(b2: byte)
    ensures Mix(0, b2) == ((b2 as bv24) << 8) << 8
  {}

  lemma MixMiddle(b1: byte, b2: byte)
    ensures Mix((b2 as bv24) << 8, b1) == (((b1 as bv24) << 8) | (b2 as bv24)) << 8
  {}

  lemma MixHigh(b0: byte, b1: byte, b2: byte)
    ensures Mix(((b1 as bv24) << 8) | (b2 as bv24), b0) == BigEndian24(b0, b1, b2)
  {}

  lemma TrailerParts(b0: byte, b1: byte, b2: byte) returns (low1: bv24, low2: bv24)
    ensures low1 & 0xFF0000 == 0 && low2 & 0xFF0000 == 0
    ensures Mix(0, b2) == low1 << 8 && Mix(low1, b1) == low2 << 8 && Mix(low2, b0) == BigEndian24(b0, b1, b2)
  {
    low1 := (b2 as bv24) << 8;
    low2 := ((b1 as bv24) << 8) | (b2 as bv24);
    ClearAbove(b1, b2);
    MixLow(b2);
    MixMiddle(b1, b2);
    MixHigh(b0, b1, b2);
  }

  lemma ThreeBytesVia(r: bv24, b0: byte, b1: byte, b2: byte, low1: bv24, low2: bv24)
    requires low1 & 0xFF0000 == 0 && low2 & 0xFF0000 == 0
    requires Mix(0, b2) == low1 << 8 && Mix(low1, b1) == low2 << 8
    ensures AddByte(AddByte(AddByte(r, b0), b1), b2) == 0 <==> r == Mix(low2, b0)
  {
    AddByteToLow(AddByte(AddByte(r, b0), b1), b2, 0, 0);
    AddByteToLow(AddByte(r, b0), b1, low1, Mix(0, b2));
    AddByteToLow(r, b0, low2, Mix(low1, b1));
  }

  lemma ThreeBytesToZero(r: bv24, b0: byte, b1: byte, b2: byte)
    ensures AddByte(AddByte(AddByte(r, b0), b1), b2) == 0 <==> r == BigEndian24(b0, b1, b2)
  {
    var low1, low2 := TrailerParts(b0, b1, b2);
    ThreeBytesVia(r, b0, b1, b2, low1, low2);
  }

  lemma CrcSnoc(data: seq<byte>, b: byte)
    ensures Crc(data + [b]) == AddByte(Crc(data), b)
  {
    assert (data + [b])[..|data|] == data;
  }

  /**
   * The trailer check is the residue check: a body agrees with the three bytes behind it
   * exactly when the register after the whole frame is zero.
   */
  lemma {:induction false} TrailerMatchesIffResidueZero(body: seq<byte>, b0: byte, b1: byte, b2: byte)
    ensures Crc(body) == BigEndian24(b0, b1, b2) <==> Crc(body + [b0, b1, b2]) == 0
  {
    hide Crc, AddByte, BigEndian24;
    CrcSnoc(body, b0);
    CrcSnoc(body + [b0], b1);
    CrcSnoc(body + [b0] + [b1], b2);
    assert body + [b0] + [b1] + [b2] == body + [b0, b1, b2];
    ThreeBytesToZero(Crc(body), b0, b1, b2);
  }
}
