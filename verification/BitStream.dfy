/** Fields of any width packed into bytes, most significant bit first, and read back. */
module BitStream {
  import opened Numbers
  import opened Wire

  function Pow2(n: nat): (p: int)
    ensures p >= 1
  {
    if n == 0 then 1 else 2 * Pow2(n - 1)
  }

  // ----- one number as bits

  function BitsOf(value: nat, width: nat): (bits: seq<bool>)
    ensures |bits| == width
  {
    seq(width, i requires 0 <= i < width => (value / Pow2(width - 1 - i)) % 2 == 1)
  }

  function BitValue(bit: bool): nat { if bit then 1 else 0 }

  function ValueOf(bits: seq<bool>): nat {
    if bits == [] then 0 else 2 * ValueOf(bits[..|bits| - 1]) + BitValue(bits[|bits| - 1])
  }

  lemma QuotientAtMost(a: int, b: int, d: int)
    requires d >= 1 && a * d < b * d + d
    ensures a <= b
  {
    assert (b + 1) * d == b * d + d;
    if a > b {
      TimesKeepsOrder(b + 1, a, d);
    }
  }

  lemma DivideUnique(v: int, d: int, q: int, r: int)
    requires d >= 1 && v == q * d + r && 0 <= r < d
    ensures v / d == q
  {
    assert v == (v / d) * d + v % d;
    QuotientAtMost(v / d, q, d);
    QuotientAtMost(q, v / d, d);
  }

  lemma HalveThenDivide(v: int, p: int)
    requires p >= 1
    ensures v / (2 * p) == (v / 2) / p
  {
    var q, r := (v / 2) / p, (v / 2) % p;
    assert v / 2 == p * q + r;
    assert q * (2 * p) == 2 * (p * q);
    DivideUnique(v, 2 * p, q, 2 * r + v % 2);
  }

  lemma BitsOfSnoc(value: nat, width: nat)
    requires width >= 1
    ensures BitsOf(value, width) == BitsOf(value / 2, width - 1) + [value % 2 == 1]
  {
    var bits := BitsOf(value, width);
    var half := BitsOf(value / 2, width - 1);
    forall i | 0 <= i < width - 1 ensures bits[i] == half[i] {
      var p := Pow2(width - 2 - i);
      assert Pow2(width - 1 - i) == 2 * p;
      HalveThenDivide(value, p);
      assert half[i] == (((value / 2) / p) % 2 == 1);
    }
    assert bits[width - 1] == ((value / Pow2(0)) % 2 == 1);
  }

  lemma {:induction false} ValueOfBitsOf(value: nat, width: nat)
    requires value < Pow2(width)
    ensures ValueOf(BitsOf(value, width)) == value
    decreases width
  {
    if width > 0 {
      BitsOfSnoc(value, width);
      ValueOfBitsOf(value / 2, width - 1);
      var bits := BitsOf(value, width);
      assert bits[..|bits| - 1] == BitsOf(value / 2, width - 1);
    }
  }

  lemma {:induction false} ValueOfBound(bits: seq<bool>)
    ensures ValueOf(bits) < Pow2(|bits|)
  {
    if bits != [] {
      ValueOfBound(bits[..|bits| - 1]);
    }
  }

  // ----- bytes and bits

  function BitAt(b: byte, k: nat): bool
    requires k < 8
  {
    (b >> (7 - k)) & 1 == 1
  }

  function Shifted(b: byte, bit: bool): byte {
    (b << 1) | (if bit then 1 else 0)
  }

  function PackByte(bits: seq<bool>): byte {
    if bits == [] then 0 else Shifted(PackByte(bits[..|bits| - 1]), bits[|bits| - 1])
  }

  function Unpack(data: seq<byte>): (bits: seq<bool>)
    ensures |bits| == 8 * |data|
  {
    seq(8 * |data|, p requires 0 <= p < 8 * |data| => BitAt(data[p / 8], p % 8))
  }

  function Pack(bits: seq<bool>): (data: seq<byte>)
    requires |bits| % 8 == 0
    ensures |data| == |bits| / 8
  {
    seq(|bits| / 8, i requires 0 <= i < |bits| / 8 => PackByte(bits[8 * i..8 * i + 8]))
  }

  /** How many bits the last byte lacks. */
  function Missing(n: nat): (k: nat)
    ensures k < 8 && (n + k) % 8 == 0 && n + k == (n + 7) / 8 * 8
  {
    if n % 8 == 0 then 0 else 8 - n % 8
  }

  /** Zero bits up to the next whole byte. */
  function Pad(bits: seq<bool>): (padded: seq<bool>)
    ensures |padded| == |bits| + Missing(|bits|) && |padded| % 8 == 0 && bits <= padded
    ensures forall i :: |bits| <= i < |padded| ==> !padded[i]
  {
    bits + seq(Missing(|bits|), _ => false)
  }

  lemma ShiftKeepsBits(b: byte, bit: bool, k: nat)
    requires 1 <= k <= 7
    ensures BitAt(Shifted(b, bit), k - 1) == BitAt(b, k)
  {
    assert k == 1 || k == 2 || k == 3 || k == 4 || k == 5 || k == 6 || k == 7;
  }

  lemma ShiftAddsBit(b: byte, bit: bool)
    ensures BitAt(Shifted(b, bit), 7) == bit
  {}

  lemma {:induction false} PackByteBits(bits: seq<bool>, i: nat)
    requires |bits| <= 8 && i < |bits|
    ensures BitAt(PackByte(bits), 8 - |bits| + i) == bits[i]
    decreases |bits|
  {
    hide PackByte, Shifted, BitAt;
    var front, bit := bits[..|bits| - 1], bits[|bits| - 1];
    PackByteSnoc(bits, |bits| - 1);
    assert bits[..|bits|] == bits;
    if i == |bits| - 1 {
      ShiftAddsBit(PackByte(front), bit);
    } else {
      PackByteBits(front, i);
      ShiftKeepsBits(PackByte(front), bit, 9 - |bits| + i);
    }
  }

  lemma {:induction false} ShiftedIs(b: byte, bit: bool)
    requires b < 128
    ensures Shifted(b, bit) as nat == 2 * (b as nat) + if bit then 1 else 0
  {}

  lemma {:induction false} SmallByte(b: byte)
    ensures b < 128 <==> b as nat < 128
  {}

  lemma {:induction false} SmallPower(n: nat)
    requires n <= 7
    ensures Pow2(n) <= 128
    decreases 7 - n
  {
    if n < 7 {
      SmallPower(n + 1);
    } else {
      assert Pow2(1) == 2 && Pow2(2) == 4 && Pow2(3) == 8 && Pow2(4) == 16 && Pow2(5) == 32 && Pow2(6) == 64;
    }
  }

  lemma ValueOfSnoc(bits: seq<bool>, bit: bool)
    ensures ValueOf(bits + [bit]) == 2 * ValueOf(bits) + if bit then 1 else 0
  {
    assert (bits + [bit])[..|bits|] == bits;
  }

  /** A byte is the number that its bits stand for, the highest first. */
  lemma {:induction false} PackByteIs(bits: seq<bool>)
    requires |bits| <= 8
    ensures PackByte(bits) as nat == ValueOf(bits)
  {
    hide PackByte, Shifted, ValueOf, Pow2;
    if bits == [] {
      NoBitsAreZero();
    } else {
      var front, bit := bits[..|bits| - 1], bits[|bits| - 1];
      assert bits == front + [bit] && bits[..|bits|] == bits;
      PackByteIs(front);
      ValueOfBound(front);
      SmallPower(|front|);
      SmallByte(PackByte(front));
      ShiftedIs(PackByte(front), bit);
      PackByteSnoc(bits, |bits| - 1);
      ValueOfSnoc(front, bit);
    }
  }

  lemma NoBitsAreZero()
    ensures PackByte([]) as nat == ValueOf([])
  {}

  function One(bit: bool): nat { if bit then 1 else 0 }

  lemma {:induction false} ValueOfTwoMore(bits: seq<bool>, k: nat)
    requires k + 2 <= |bits|
    ensures ValueOf(bits[..k + 2]) == 4 * ValueOf(bits[..k]) + 2 * One(bits[k]) + One(bits[k + 1])
  {
    hide ValueOf;
    ValueOfSnoc(bits[..k], bits[k]);
    ValueOfSnoc(bits[..k + 1], bits[k + 1]);
    assert bits[..k] + [bits[k]] == bits[..k + 1] && bits[..k + 1] + [bits[k + 1]] == bits[..k + 2];
  }

  lemma {:induction false} ValueOfEight(b: seq<bool>)
    requires |b| == 8
    ensures ValueOf(b) == 128 * One(b[0]) + 64 * One(b[1]) + 32 * One(b[2]) + 16 * One(b[3])
                          + 8 * One(b[4]) + 4 * One(b[5]) + 2 * One(b[6]) + One(b[7])
  {
    hide ValueOf, One;
    NothingIsZero();
    assert b[..0] == [] && b[..8] == b;
    ValueOfTwoMore(b, 0);
    ValueOfTwoMore(b, 2);
    ValueOfTwoMore(b, 4);
    ValueOfTwoMore(b, 6);
  }

  lemma NothingIsZero()
    ensures ValueOf([]) == 0
  {}

  /** Bit 8i of the stream is worth 128 in byte i, and bit 8i + 7 is worth 1. */
  lemma PackIs(bits: seq<bool>, i: nat)
    requires |bits| % 8 == 0 && i < |bits| / 8
    ensures var b := bits[8 * i..8 * i + 8];
            Pack(bits)[i] as nat == 128 * One(b[0]) + 64 * One(b[1]) + 32 * One(b[2]) + 16 * One(b[3])
                                    + 8 * One(b[4]) + 4 * One(b[5]) + 2 * One(b[6]) + One(b[7])
  {
    hide PackByte, ValueOf;
    var b := bits[8 * i..8 * i + 8];
    PackByteIs(b);
    ValueOfEight(b);
  }

  lemma ByteAndBit(p: nat)
    ensures p == 8 * (p / 8) + p % 8
  {}

  lemma UnpackPackAt(bits: seq<bool>, p: nat)
    requires |bits| % 8 == 0 && p < |bits|
    ensures Unpack(Pack(bits))[p] == bits[p]
  {
    hide PackByte, BitAt;
    var i, k := p / 8, p % 8;
    ByteAndBit(p);
    var chunk := bits[8 * i..8 * i + 8];
    PackByteBits(chunk, k);
    assert chunk[k] == bits[8 * i + k];
  }

  lemma UnpackPack(bits: seq<bool>)
    requires |bits| % 8 == 0
    ensures Unpack(Pack(bits)) == bits
  {
    hide Pack, Unpack;
    forall p | 0 <= p < |bits| ensures Unpack(Pack(bits))[p] == bits[p] {
      UnpackPackAt(bits, p);
    }
  }

  // ----- fields

  datatype Field = Field(value: int, width: int, signed: bool)

  predicate Fits(f: Field) {
    f.width >= 1 &&
    if f.signed then -Pow2(f.width - 1) <= f.value < Pow2(f.width - 1)
    else 0 <= f.value < Pow2(f.width)
  }

  /** What bits stand for: the first of a signed field counts negatively. */
  function Worth(bits: seq<bool>, signed: bool): int {
    ValueOf(bits) - if signed && bits != [] && bits[0] then Pow2(|bits|) else 0
  }

  lemma {:induction false} FirstBit(bits: seq<bool>)
    requires bits != []
    ensures if bits[0] then Pow2(|bits| - 1) <= ValueOf(bits) < Pow2(|bits|) else ValueOf(bits) < Pow2(|bits| - 1)
    decreases |bits|
  {
    var n := |bits| - 1;
    assert bits[..n] + [bits[n]] == bits;
    ValueOfSnoc(bits[..n], bits[n]);
    if n > 0 {
      FirstBit(bits[..n]);
    } else {
      NothingIsZero();
      assert bits[..0] == [];
    }
  }

  /** The values that fit are exactly those that some bits of the width stand for. */
  lemma FitsIff(f: Field)
    ensures Fits(f) <==> f.width >= 1 && exists bits: seq<bool> :: |bits| == f.width && Worth(bits, f.signed) == f.value
  {
    hide ValueOf, Pow2;
    if Fits(f) {
      BitsAreWorth(f);
    }
    forall bits: seq<bool> | f.width >= 1 && |bits| == f.width && Worth(bits, f.signed) == f.value ensures Fits(f) {
      FirstBit(bits);
      ValueOfBound(bits);
      DoublePower(f.width);
    }
  }

  lemma DoublePower(n: nat)
    requires n >= 1
    ensures Pow2(n) == 2 * Pow2(n - 1)
  {}

  lemma BitsAreWorth(f: Field)
    requires Fits(f)
    ensures |BitsOf(Raw(f), f.width)| == f.width && Worth(BitsOf(Raw(f), f.width), f.signed) == f.value
  {
    hide ValueOf, Pow2, BitsOf;
    var bits := BitsOf(Raw(f), f.width);
    ValueOfBitsOf(Raw(f), f.width);
    FirstBit(bits);
    DoublePower(f.width);
  }

  /** The unsigned number that stands for a field: two's complement when negative. */
  function Raw(f: Field): (raw: nat)
    requires Fits(f)
    ensures raw < Pow2(f.width)
  {
    if f.value >= 0 then f.value else Pow2(f.width) + f.value
  }

  function Signed(raw: nat, width: nat): int
    requires width >= 1
  {
    if (raw / Pow2(width - 1)) % 2 == 1 then raw - Pow2(width) else raw
  }

  function FieldBits(f: Field): (bits: seq<bool>)
    requires Fits(f)
    ensures |bits| == f.width
  {
    BitsOf(Raw(f), f.width)
  }

  function AllBits(fields: seq<Field>): seq<bool>
    requires forall f <- fields :: Fits(f)
  {
    if fields == [] then [] else FieldBits(fields[0]) + AllBits(fields[1..])
  }

  /** The bits at a position read as a number, when there are enough of them. */
  function ReadAt(bits: seq<bool>, position: nat, width: int): Option<nat> {
    if width < 1 || position + width > |bits| then None else Some(ValueOf(bits[position..position + width]))
  }

  function ReadFields(bits: seq<bool>, position: nat, shapes: seq<Field>): Option<seq<int>>
    decreases |shapes|
  {
    if shapes == [] then Some([])
    else
      var shape := shapes[0];
      match ReadAt(bits, position, shape.width)
      case None => None
      case Some(raw) =>
        match ReadFields(bits, position + shape.width, shapes[1..])
        case None => None
        case Some(rest) => Some([if shape.signed then Signed(raw, shape.width) else raw] + rest)
  }

  function Values(fields: seq<Field>): seq<int> {
    seq(|fields|, i requires 0 <= i < |fields| => fields[i].value)
  }

  lemma SignedRoundTrip(f: Field)
    requires Fits(f)
    ensures (if f.signed then Signed(Raw(f), f.width) else Raw(f)) == f.value
  {
    if f.signed {
      var half := Pow2(f.width - 1);
      assert Pow2(f.width) == 2 * half;
      if f.value >= 0 {
        DivideUnique(Raw(f), half, 0, f.value);
      } else {
        DivideUnique(Raw(f), half, 1, half + f.value);
      }
    }
  }

  lemma {:induction false} FieldsComeBack(bits: seq<bool>, position: nat, fields: seq<Field>)
    requires forall f <- fields :: Fits(f)
    requires position + |AllBits(fields)| <= |bits|
    requires bits[position..position + |AllBits(fields)|] == AllBits(fields)
    ensures ReadFields(bits, position, fields) == Some(Values(fields))
    decreases |fields|
  {
    hide BitsOf, ValueOf, Signed, Raw, Values, Pow2;
    if fields == [] {
      ValuesNil();
    } else {
      var f := fields[0];
      SliceParts(bits, position, FieldBits(f), AllBits(fields[1..]));
      ValueOfBitsOf(Raw(f), f.width);
      SignedRoundTrip(f);
      FieldsComeBack(bits, position + f.width, fields[1..]);
      ValuesCons(fields);
    }
  }

  lemma ValuesNil()
    ensures Values([]) == []
  {}

  lemma ValuesCons(fields: seq<Field>)
    requires fields != []
    ensures Values(fields) == [fields[0].value] + Values(fields[1..])
  {}

  /** Fields that fit their widths, written, packed into bytes and read with the same widths, come back. */
  lemma FieldsRoundTrip(fields: seq<Field>)
    requires forall f <- fields :: Fits(f)
    ensures ReadFields(Unpack(Pack(Pad(AllBits(fields)))), 0, fields) == Some(Values(fields))
  {
    hide AllBits, ReadFields, Pack, Unpack, Fits;
    var bits := AllBits(fields);
    UnpackPack(Pad(bits));
    FieldsComeBack(Pad(bits), 0, fields);
  }

  // ----- the writer and the reader

  lemma PackSnoc(bits: seq<bool>, i: nat)
    requires |bits| % 8 == 0 && i < |bits| / 8
    ensures Pack(bits)[..i + 1] == Pack(bits)[..i] + [PackByte(bits[8 * i..8 * i + 8])]
  {
    hide PackByte;
  }

  lemma PackByteSnoc(chunk: seq<bool>, k: nat)
    requires k < |chunk|
    ensures PackByte(chunk[..k + 1]) == Shifted(PackByte(chunk[..k]), chunk[k])
  {
    hide Shifted;
    assert chunk[..k + 1][..k] == chunk[..k];
  }

  lemma PackByteNone()
    ensures PackByte([]) == 0
  {}

  lemma OneBitMore(data: seq<byte>, start: nat, position: nat)
    requires start <= position < 8 * |data|
    ensures ValueOf(Unpack(data)[start..position + 1])
            == 2 * ValueOf(Unpack(data)[start..position]) + BitValue(BitAt(data[position / 8], position % 8))
  {
    hide BitAt;
    var more := Unpack(data)[start..position + 1];
    assert more[..|more| - 1] == Unpack(data)[start..position];
  }

  class BitWriter {
    const maxBits: nat
    var bits: seq<bool>

    constructor (maxBits: nat)
      requires maxBits >= 1
      ensures this.maxBits == maxBits && bits == []
    {
      this.maxBits := maxBits;
      bits := [];
    }

    /** Refused, with nothing written, when the capacity would be passed. */
    method Append(more: seq<bool>) returns (ok: bool)
      modifies this
      ensures ok <==> |old(bits)| + |more| <= maxBits
      ensures bits == if ok then old(bits) + more else old(bits)
    {
      if |bits| + |more| > maxBits {
        return false;
      }
      bits := bits + more;
      return true;
    }

    method WriteUnsigned(value: int, width: int) returns (ok: bool)
      modifies this
      ensures ok <==> Fits(Field(value, width, false)) && |old(bits)| + width <= maxBits
      ensures bits == if ok then old(bits) + FieldBits(Field(value, width, false)) else old(bits)
    {
      if width < 1 || value < 0 || value >= Pow2(width) {
        return false;
      }
      ok := Append(BitsOf(value, width));
    }

    method WriteSigned(value: int, width: int) returns (ok: bool)
      modifies this
      ensures ok <==> Fits(Field(value, width, true)) && |old(bits)| + width <= maxBits
      ensures bits == if ok then old(bits) + FieldBits(Field(value, width, true)) else old(bits)
    {
      if width < 1 || value < -Pow2(width - 1) || value > Pow2(width - 1) - 1 {
        return false;
      }
      ok := WriteUnsigned(if value >= 0 then value else Pow2(width) + value, width);
    }

    /** Pads in place, so that a second call gives the same bytes; fails only if the padding does not fit. */
    method ToBytes() returns (result: Option<seq<byte>>)
      modifies this
      ensures result.Some? <==> |Pad(old(bits))| <= maxBits || |old(bits)| % 8 == 0
      ensures result.Some? ==> bits == Pad(old(bits)) && result.value == Pack(bits) && Pad(bits) == bits
      ensures result.None? ==> bits == old(bits)
    {
      hide Pack, PackByte, Shifted;
      if |bits| % 8 != 0 {
        var ok := Append(seq(8 - |bits| % 8, _ => false));
        if !ok {
          return None;
        }
      }
      assert bits == Pad(old(bits));
      var output: seq<byte> := [];
      for i := 0 to |bits| / 8
        invariant bits == Pad(old(bits)) && output == Pack(bits)[..i]
      {
        var b: byte := 0;
        PackByteNone();
        ghost var chunk := bits[8 * i..8 * i + 8];
        for k := 0 to 8
          invariant bits == Pad(old(bits)) && b == PackByte(chunk[..k])
        {
          PackByteSnoc(chunk, k);
          b := Shifted(b, bits[8 * i + k]);
        }
        assert chunk[..8] == chunk;
        PackSnoc(bits, i);
        output := output + [b];
      }
      return Some(output);
    }
  }

  class BitReader {
    const data: seq<byte>
    var position: nat

    constructor (data: seq<byte>)
      ensures this.data == data && position == 0
    {
      this.data := data;
      position := 0;
    }

    method ReadUnsigned(width: int) returns (result: Option<nat>)
      modifies this
      ensures result == ReadAt(Unpack(data), old(position), width)
      ensures position == old(position) + if result.Some? then width else 0
    {
      hide BitAt, Unpack;
      if width < 1 || position + width > |data| * 8 {
        return None;
      }
      var value := 0;
      ghost var bits := Unpack(data);
      for i := 0 to width
        invariant position == old(position) + i
        invariant value == ValueOf(bits[old(position)..position])
      {
        OneBitMore(data, old(position), position);
        var b := data[position / 8];
        value := 2 * value + BitValue(BitAt(b, position % 8));
        position := position + 1;
      }
      return Some(value);
    }

    method ReadSigned(width: int) returns (result: Option<int>)
      modifies this
      ensures match ReadAt(Unpack(data), old(position), width)
              case None => result == None && position == old(position)
              case Some(raw) => result == Some(Signed(raw, width)) && position == old(position) + width
    {
      var raw := ReadUnsigned(width);
      match raw
      case None => return None;
      case Some(value) => return Some(if (value / Pow2(width - 1)) % 2 == 1 then value - Pow2(width) else value);
    }
  }

  // ----- quantised fields

  datatype Input = Missing | NotNumeric | NotFinite | Number(value: real)

  datatype FieldSpec = FieldSpec(bits: int, signed: bool, scale: real, minimum: real, maximum: real, required: bool)

  datatype Problem = MissingValue | NumberRequired | FiniteRequired | BitsNotPositive | ScaleNotPositive | OutOfRange

  function Validate(spec: FieldSpec, input: Input): Option<Problem> {
    match input
    case Missing => if spec.required then Some(MissingValue) else None
    case NotNumeric => Some(NumberRequired)
    case NotFinite => Some(FiniteRequired)
    case Number(value) =>
      if spec.bits < 1 then Some(BitsNotPositive)
      else if spec.scale <= 0.0 then Some(ScaleNotPositive)
      else if value < spec.minimum || value > spec.maximum then Some(OutOfRange)
      else None
  }

  function EncodeInteger(spec: FieldSpec, input: Input): Option<int> {
    if Validate(spec, input).Some? || !input.Number? then None
    else Some(Round(input.value / spec.scale))
  }

  lemma RoundIsNearest(x: real)
    ensures -0.5 <= Round(x) as real - x <= 0.5
  {}

  lemma RoundKeepsOrder(x: real, y: real)
    requires x <= y
    ensures Round(x) <= Round(y)
  {
    assert x.Floor <= y.Floor;
  }

  lemma DivideKeepsOrder(x: real, y: real, scale: real)
    requires x <= y && scale > 0.0
    ensures x / scale <= y / scale
  {}

  /** Both ends of the specified range, rounded, fit the width. */
  predicate RangeFits(spec: FieldSpec) {
    && spec.scale > 0.0
    && Fits(Field(Round(spec.minimum / spec.scale), spec.bits, spec.signed))
    && Fits(Field(Round(spec.maximum / spec.scale), spec.bits, spec.signed))
  }

  /** A valid value survives the bits and is decoded to within half a scale step. */
  lemma QuantisedRoundTrip(spec: FieldSpec, value: real)
    requires RangeFits(spec) && Validate(spec, Number(value)) == None
    ensures EncodeInteger(spec, Number(value)).Some?
    ensures var n := EncodeInteger(spec, Number(value)).value;
            var f := Field(n, spec.bits, spec.signed);
            && Fits(f) && ReadFields(Unpack(Pack(Pad(AllBits([f])))), 0, [f]) == Some([n])
            && -spec.scale / 2.0 <= n as real * spec.scale - value <= spec.scale / 2.0
  {
    hide Round, ReadFields, Pack, Unpack, Pad, AllBits;
    var x := value / spec.scale;
    var n := Round(x);
    DivideKeepsOrder(spec.minimum, value, spec.scale);
    DivideKeepsOrder(value, spec.maximum, spec.scale);
    RoundKeepsOrder(spec.minimum / spec.scale, x);
    RoundKeepsOrder(x, spec.maximum / spec.scale);
    var f := Field(n, spec.bits, spec.signed);
    FieldsRoundTrip([f]);
    assert Values([f]) == [n];
    QuantisationError(value, spec.scale);
  }

  lemma QuantisationError(value: real, scale: real)
    requires scale > 0.0
    ensures -scale / 2.0 <= Round(value / scale) as real * scale - value <= scale / 2.0
  {
    var x := value / scale;
    var n := Round(x) as real;
    RoundIsNearest(x);
    NotNegative(0.5 - (n - x), scale);
    NotNegative(0.5 + (n - x), scale);
    assert (n - x) * scale == n * scale - value;
  }

  lemma NotNegative(a: real, b: real)
    requires a >= 0.0 && b >= 0.0
    ensures a * b >= 0.0
  {}
}
