/**
 * What the CRC-24Q register holds: the remainder of the message, as a polynomial over two
 * elements, after division by the generator. A polynomial lists its coefficients from the highest
 * power down.
 */
module Crc24qDivision {
  import opened Crc24q
  import opened Wire

  type Poly = seq<bool>

  /** x^24 + x^23 + x^18 + x^17 + x^14 + x^11 + x^10 + x^7 + x^6 + x^5 + x^4 + x^3 + x + 1. */
  function Generator(): (g: Poly)
    ensures |g| == 25
  {
    [true, true, false, false, false, false, true, true, false, false, true, false, false, true, true,
     false, false, true, true, true, true, true, false, true, true]
  }

  function Zeros(n: nat): (z: Poly)
    ensures |z| == n && forall i :: 0 <= i < n ==> !z[i]
  {
    seq(n, _ => false)
  }

  /** Addition without carries; it is also subtraction. */
  function Sum(a: Poly, b: Poly): (s: Poly)
    requires |a| == |b|
    ensures |s| == |a| && forall i :: 0 <= i < |s| ==> s[i] == (a[i] != b[i])
  {
    seq(|a|, i requires 0 <= i < |a| => a[i] != b[i])
  }

  /** The generator, when a coefficient asks for it. */
  function Multiple(c: bool): (g: Poly)
    ensures |g| == 25
  {
    if c then Generator() else Zeros(25)
  }

  /** A polynomial times the generator. */
  function Product(q: Poly): (p: Poly)
    ensures |p| == |q| + 24
  {
    if q == [] then Zeros(24)
    else
      var n := |q| - 1;
      Sum(Product(q[..n]) + [false], Zeros(n) + Multiple(q[n]))
  }

  /** r has degree below 24 and m * x^24 is a multiple of the generator plus r. */
  ghost predicate IsRemainder(m: Poly, r: Poly) {
    |r| == 24 && exists q: Poly :: DividesWith(m, q, r)
  }

  predicate DividesWith(m: Poly, q: Poly, r: Poly) {
    |r| == 24 && |q| == |m| && m + Zeros(24) == Sum(Product(q), Zeros(|m|) + r)
  }

  // ----- remainders are unique

  lemma ProductSnoc(q: Poly, c: bool)
    ensures Product(q + [c]) == Sum(Product(q) + [false], Zeros(|q|) + Multiple(c))
  {
    assert (q + [c])[..|q|] == q;
  }

  lemma MultipleSum(a: bool, b: bool)
    ensures Multiple(a != b) == Sum(Multiple(a), Multiple(b))
  {
    hide Generator;
  }

  lemma SumSnoc(p: Poly, q: Poly, a: bool, b: bool)
    requires |p| == |q|
    ensures Sum(p + [a], q + [b]) == Sum(p, q) + [a != b]
  {}

  lemma {:induction false} ProductOfSum(p: Poly, q: Poly)
    requires |p| == |q|
    ensures Product(Sum(p, q)) == Sum(Product(p), Product(q))
  {
    hide Product, Multiple;
    if p == [] {
      assert p == q == Sum(p, q) == [];
      NoProduct();
    } else {
      var n := |p| - 1;
      var front, back := p[..n], q[..n];
      assert p == front + [p[n]] && q == back + [q[n]];
      SumSnoc(front, back, p[n], q[n]);
      ProductOfSum(front, back);
      ProductSnoc(front, p[n]);
      ProductSnoc(back, q[n]);
      ProductSnoc(Sum(front, back), p[n] != q[n]);
      MultipleSum(p[n], q[n]);
      SumOfShifted(Product(front), Product(back), n, Multiple(p[n]), Multiple(q[n]));
    }
  }

  lemma NoProduct()
    ensures Product([]) == Zeros(24) && Sum(Zeros(24), Zeros(24)) == Zeros(24)
  {}

  lemma SumOfShifted(a: Poly, b: Poly, n: nat, g: Poly, h: Poly)
    requires |a| == |b| == n + 24 && |g| == |h| == 25
    ensures Sum(Sum(a, b) + [false], Zeros(n) + Sum(g, h))
            == Sum(Sum(a + [false], Zeros(n) + g), Sum(b + [false], Zeros(n) + h))
  {}

  /** The highest power of a product is 24 above that of the factor. */
  lemma {:induction false} ProductLeads(q: Poly, k: nat)
    requires k < |q| && q[k] && forall i :: 0 <= i < k ==> !q[i]
    ensures Product(q)[k]
  {
    hide Multiple;
    var n := |q| - 1;
    MultipleLeads(q[n]);
    if k < n {
      ProductLeads(q[..n], k);
    } else {
      ProductOfZeros(q[..n]);
    }
  }

  lemma MultipleLeads(c: bool)
    ensures Multiple(c)[0] == c && Multiple(c)[24] == c
  {}

  lemma {:induction false} ProductOfZeros(q: Poly)
    requires forall i :: 0 <= i < |q| ==> !q[i]
    ensures Product(q) == Zeros(|q| + 24)
  {
    hide Generator;
    if q != [] {
      ProductOfZeros(q[..|q| - 1]);
    }
  }

  lemma SumTwice(p: Poly, q: Poly, r: Poly, s: Poly, m: Poly)
    requires |p| == |q| == |r| == |s| && m == Sum(p, r) == Sum(q, s)
    ensures Sum(p, q) == Sum(r, s)
  {
    forall i | 0 <= i < |p| ensures Sum(p, q)[i] == Sum(r, s)[i] {
      assert m[i] == (p[i] != r[i]) == (q[i] != s[i]);
    }
  }

  lemma SameDigits(p: Poly, q: Poly)
    requires |p| == |q| && forall i :: 0 <= i < |p| ==> !Sum(p, q)[i]
    ensures p == q
  {
    forall i | 0 <= i < |p| ensures p[i] == q[i] {
      assert !Sum(p, q)[i];
    }
  }

  lemma LowPart(n: nat, r: Poly, s: Poly)
    requires |r| == |s|
    ensures Sum(Zeros(n) + r, Zeros(n) + s) == Zeros(n) + Sum(r, s)
  {}

  lemma FirstTerm(d: Poly, n: nat) returns (k: nat)
    requires n <= |d|
    ensures k <= n && forall i :: 0 <= i < k ==> !d[i]
    ensures k < n ==> d[k]
  {
    k := 0;
    while k < n && !d[k]
      invariant k <= n && forall i :: 0 <= i < k ==> !d[i]
    {
      k := k + 1;
    }
  }

  lemma RemainderIsUnique(m: Poly, p: Poly, r: Poly, q: Poly, s: Poly)
    requires DividesWith(m, p, r) && DividesWith(m, q, s)
    ensures p == q && r == s
  {
    hide Product;
    var n, d := |m|, Sum(p, q);
    SumTwice(Product(p), Product(q), Zeros(n) + r, Zeros(n) + s, m + Zeros(24));
    ProductOfSum(p, q);
    LowPart(n, r, s);
    var low := Zeros(n) + Sum(r, s);
    assert Product(d) == low;
    assert forall i :: 0 <= i < n ==> !low[i];
    var k := FirstTerm(d, n);
    if k < n {
      ProductLeads(d, k);
      assert false;
    }
    SameDigits(p, q);
    ProductOfZeros(d);
    forall i | 0 <= i < 24 ensures !Sum(r, s)[i] {
      assert low[n + i] == Sum(r, s)[i];
    }
    SameDigits(r, s);
  }

  // ----- the register, bit by bit

  predicate TopBit(v: bv24) { v & 0x800000 != 0 }

  function Doubled(v: bv24): bv24 { v << 1 }

  function Xor(a: bv24, b: bv24): bv24 { a ^ b }

  /** The n highest bits. */
  function Bits(v: bv24, n: nat): (bits: Poly)
    ensures |bits| == n
    decreases n
  {
    if n == 0 then [] else [TopBit(v)] + Bits(Doubled(v), n - 1)
  }

  function Shifted(v: bv24, n: nat): bv24
    decreases n
  {
    if n == 0 then v else Shifted(Doubled(v), n - 1)
  }

  function MessageBits(data: seq<byte>): (bits: Poly)
    ensures |bits| == 8 * |data|
  {
    if data == [] then [] else MessageBits(data[..|data| - 1]) + Bits(OnTop(data[|data| - 1]), 8)
  }

  /** One message bit at a time. */
  function Serial(crc: bv24, bit: bool): bv24 {
    ShiftBit(if bit then Xor(crc, 0x800000) else crc)
  }

  function Feed(crc: bv24, bits: Poly): bv24
    decreases |bits|
  {
    if bits == [] then crc else Feed(Serial(crc, bits[0]), bits[1..])
  }

  lemma {:induction false} FeedAppend(crc: bv24, a: Poly, b: Poly)
    ensures Feed(crc, a + b) == Feed(Feed(crc, a), b)
    decreases |a|
  {
    hide Serial;
    if a == [] {
      assert a + b == b;
    } else {
      FeedAppend(Serial(crc, a[0]), a[1..], b);
      assert (a + b)[1..] == a[1..] + b;
    }
  }

  lemma FeedOne(crc: bv24, bit: bool)
    ensures Feed(crc, [bit]) == Serial(crc, bit)
  {
    hide Serial;
    assert Feed(Serial(crc, bit), []) == Serial(crc, bit);
  }

  lemma XorLow(x: bv24, v: bv24)
    requires !TopBit(v)
    ensures TopBit(Xor(x, v)) == TopBit(x)
  {}

  lemma XorHigh(x: bv24, v: bv24)
    requires TopBit(v)
    ensures TopBit(Xor(x, v)) == TopBit(Xor(x, 0x800000)) == !TopBit(x)
  {}

  lemma XorDoubles(x: bv24, v: bv24)
    ensures Doubled(Xor(x, v)) == Xor(Doubled(x), Doubled(v))
  {}

  lemma TopIsDropped(x: bv24)
    ensures Doubled(Xor(x, 0x800000)) == Doubled(x)
  {}

  lemma XorReorders(a: bv24, b: bv24, c: bv24)
    ensures Xor(Xor(a, b), c) == Xor(Xor(a, c), b)
  {
    assert (a ^ b) ^ c == a ^ (b ^ c) && (a ^ c) ^ b == a ^ (c ^ b);
  }

  lemma ShiftBitIs(x: bv24)
    ensures ShiftBit(x) == if TopBit(x) then Xor(Doubled(x), 0x864CFB) else Doubled(x)
  {}

  lemma ShiftMixed(x: bv24, v: bv24)
    ensures ShiftBit(Xor(x, v)) == Xor(Serial(x, TopBit(v)), Doubled(v))
  {
    hide ShiftBit, TopBit, Doubled, Xor;
    ShiftBitIs(Xor(x, v));
    XorDoubles(x, v);
    XorReorders(Doubled(x), Doubled(v), 0x864CFB);
    if TopBit(v) {
      XorHigh(x, v);
      ShiftBitIs(Xor(x, 0x800000));
      TopIsDropped(x);
    } else {
      XorLow(x, v);
      ShiftBitIs(x);
    }
  }

  /** Mixing a word in at once and shifting is feeding its bits, highest first. */
  lemma {:induction false} ShiftBitsFeeds(x: bv24, v: bv24, n: nat)
    ensures ShiftBits(Xor(x, v), n) == Xor(Feed(x, Bits(v, n)), Shifted(v, n))
    decreases n
  {
    hide ShiftBit, Serial, TopBit, Doubled, Xor;
    if n > 0 {
      ShiftMixed(x, v);
      ShiftBitsFeeds(Serial(x, TopBit(v)), Doubled(v), n - 1);
      assert Bits(v, n)[1..] == Bits(Doubled(v), n - 1);
    }
  }

  function Times16(v: bv24): bv24 { v << 4 }

  lemma FourDoublings(v: bv24)
    ensures Doubled(Doubled(Doubled(Doubled(v)))) == Times16(v)
  {}

  lemma FourShifts(v: bv24, n: nat)
    requires n >= 4
    ensures Shifted(v, n) == Shifted(Times16(v), n - 4)
  {
    hide Doubled, Times16;
    var w := Doubled(Doubled(v));
    FourDoublings(v);
    assert Shifted(v, n) == Shifted(Doubled(v), n - 1) == Shifted(w, n - 2);
    assert Shifted(w, n - 2) == Shifted(Doubled(w), n - 3) == Shifted(Doubled(Doubled(w)), n - 4);
  }

  lemma ByteShiftedOut(b: byte)
    ensures Shifted(OnTop(b), 8) == 0
  {
    hide Doubled, Times16, OnTop;
    FourShifts(OnTop(b), 8);
    FourShifts(Times16(OnTop(b)), 4);
    OverTheTop(b);
  }

  lemma OverTheTop(b: byte)
    ensures Times16(Times16(OnTop(b))) == 0
  {}

  lemma AddByteMixes(crc: bv24, b: byte)
    ensures AddByte(crc, b) == ShiftBits(Xor(crc, OnTop(b)), 8)
  {
    hide ShiftBits, Mix, Xor, OnTop;
    MixIsXor(crc, b);
  }

  lemma MixIsXor(crc: bv24, b: byte)
    ensures Mix(crc, b) == Xor(crc, OnTop(b))
  {
    hide OnTop;
  }

  lemma NothingMixed(x: bv24)
    ensures Xor(x, 0) == x
  {}

  lemma AddByteFeeds(crc: bv24, b: byte)
    ensures AddByte(crc, b) == Feed(crc, Bits(OnTop(b), 8))
  {
    hide Feed, ShiftBits, Bits, Shifted, AddByte, Xor, OnTop;
    AddByteMixes(crc, b);
    ShiftBitsFeeds(crc, OnTop(b), 8);
    ByteShiftedOut(b);
    NothingMixed(Feed(crc, Bits(OnTop(b), 8)));
  }

  lemma {:induction false} CrcFeeds(data: seq<byte>)
    ensures Crc(data) == Feed(0, MessageBits(data))
  {
    hide AddByte, Bits, OnTop, Serial;
    if data != [] {
      var front, b := data[..|data| - 1], data[|data| - 1];
      CrcFeeds(front);
      AddByteFeeds(Crc(front), b);
      FeedAppend(0, MessageBits(front), Bits(OnTop(b), 8));
    }
  }

  // ----- one bit is one step of the division

  lemma TopOfXor(a: bv24, b: bv24)
    ensures TopBit(Xor(a, b)) <==> TopBit(a) != TopBit(b)
  {}

  lemma SumCons(x: bool, a: Poly, y: bool, b: Poly)
    requires |a| == |b|
    ensures Sum([x] + a, [y] + b) == [x != y] + Sum(a, b)
  {}

  lemma BitsUnfold(v: bv24, n: nat)
    ensures Bits(v, 0) == [] && Bits(v, n + 1) == [TopBit(v)] + Bits(Doubled(v), n)
  {
    hide TopBit, Doubled;
  }

  lemma {:induction false} BitsOfXor(a: bv24, b: bv24, n: nat)
    ensures Bits(Xor(a, b), n) == Sum(Bits(a, n), Bits(b, n))
    decreases n
  {
    hide TopBit, Xor, Doubled, Bits;
    if n == 0 {
      BitsUnfold(a, 0);
      BitsUnfold(b, 0);
      BitsUnfold(Xor(a, b), 0);
    } else {
      BitsUnfold(a, n - 1);
      BitsUnfold(b, n - 1);
      BitsUnfold(Xor(a, b), n - 1);
      TopOfXor(a, b);
      XorDoubles(a, b);
      BitsOfXor(Doubled(a), Doubled(b), n - 1);
      SumCons(TopBit(a), Bits(Doubled(a), n - 1), TopBit(b), Bits(Doubled(b), n - 1));
    }
  }

  lemma {:induction false} BitsSnoc(v: bv24, n: nat)
    ensures Bits(v, n + 1) == Bits(v, n) + [TopBit(Shifted(v, n))]
    decreases n
  {
    hide TopBit, Doubled;
    if n > 0 {
      BitsSnoc(Doubled(v), n - 1);
    }
  }

  lemma ShiftedOut(v: bv24)
    ensures Shifted(v, 24) == 0
  {
    hide Shifted, Times16;
    var v1 := Times16(v);
    var v2 := Times16(v1);
    var v3 := Times16(v2);
    var v4 := Times16(v3);
    var v5 := Times16(v4);
    FourShifts(v, 24);
    FourShifts(v1, 20);
    FourShifts(v2, 16);
    FourShifts(v3, 12);
    FourShifts(v4, 8);
    FourShifts(v5, 4);
    ShiftedNone(Times16(v5));
    AllOut(v);
  }

  lemma ShiftedNone(v: bv24)
    ensures Shifted(v, 0) == v
  {}

  lemma AllOut(v: bv24)
    ensures Times16(Times16(Times16(Times16(Times16(Times16(v)))))) == 0
  {}

  lemma RegisterShifts(x: bv24)
    ensures Bits(x, 24) + [false] == [TopBit(x)] + Bits(Doubled(x), 24)
  {
    hide TopBit, Doubled;
    BitsSnoc(x, 24);
    ShiftedOut(x);
    NoTopBit();
  }

  lemma NoTopBit()
    ensures !TopBit(0)
  {}

  lemma BitsCons(v: bv24, n: nat)
    requires n >= 1
    ensures Bits(v, n) == [TopBit(v)] + Bits(Doubled(v), n - 1)
  {
    hide TopBit, Doubled;
  }

  lemma FourBits(v: bv24, n: nat)
    requires n >= 4
    ensures Bits(v, n) == [TopBit(v), TopBit(Doubled(v)), TopBit(Doubled(Doubled(v))), TopBit(Doubled(Doubled(Doubled(v))))]
                          + Bits(Times16(v), n - 4)
  {
    hide Bits, TopBit, Doubled, Times16;
    var w := Doubled(Doubled(v));
    FourDoublings(v);
    BitsCons(v, n);
    BitsCons(Doubled(v), n - 1);
    BitsCons(w, n - 2);
    BitsCons(Doubled(w), n - 3);
  }

  /** The constant of the routine is the generator without its highest power. */
  lemma ConstantIsGenerator()
    ensures [true] + Bits(0x864CFB, 24) == Generator()
  {
    hide Bits;
    FourBits(0x864CFB, 24);
    FourBits(0x64CFB0, 20);
    FourBits(0x4CFB00, 16);
    FourBits(0xCFB000, 12);
    FourBits(0xFB0000, 8);
    FourBits(0xB00000, 4);
    assert |Bits(0, 0)| == 0;
  }

  lemma MultipleIs(c: bool)
    ensures Multiple(c) == [c] + if c then Bits(0x864CFB, 24) else Zeros(24)
  {
    hide Bits, Generator;
    ConstantIsGenerator();
  }

  /** The quotient's next coefficient. */
  predicate Meets(crc: bv24, bit: bool) { TopBit(crc) != bit }

  lemma SerialIs(crc: bv24, bit: bool)
    ensures Serial(crc, bit) == if Meets(crc, bit) then Xor(Doubled(crc), 0x864CFB) else Doubled(crc)
  {
    hide ShiftBit, TopBit, Doubled, Xor;
    ConstantTop();
    if bit {
      XorHigh(crc, 0x800000);
      TopIsDropped(crc);
      ShiftBitIs(Xor(crc, 0x800000));
    } else {
      ShiftBitIs(crc);
    }
  }

  lemma ConstantTop()
    ensures TopBit(0x800000)
  {}

  /** Old register and new bit, less a multiple of the generator, is the new register. */
  lemma RegisterStep(crc: bv24, bit: bool)
    ensures Sum(Bits(crc, 24) + [false], [bit] + Zeros(24))
            == Sum(Multiple(Meets(crc, bit)), [false] + Bits(Serial(crc, bit), 24))
  {
    hide Bits, Generator, Multiple, Serial, TopBit, Doubled, Xor;
    RegisterShifts(crc);
    SerialIs(crc, bit);
    MultipleIs(Meets(crc, bit));
    BitsOfXor(Doubled(crc), 0x864CFB, 24);
  }

  lemma ExtendDivision(m: Poly, bit: bool, p: Poly, r: Poly, g: Poly, s: Poly)
    requires |p| == |m| + 24 && |r| == |s| == 24 && |g| == 25
    requires m + Zeros(24) == Sum(p, Zeros(|m|) + r)
    requires Sum(r + [false], [bit] + Zeros(24)) == Sum(g, [false] + s)
    ensures m + [bit] + Zeros(24) == Sum(Sum(p + [false], Zeros(|m|) + g), Zeros(|m| + 1) + s)
  {
    var n := |m|;
    var whole := m + [bit] + Zeros(24);
    var parts := Sum(Sum(p + [false], Zeros(n) + g), Zeros(n + 1) + s);
    var low, next := Sum(r + [false], [bit] + Zeros(24)), Sum(g, [false] + s);
    forall i | 0 <= i < n + 25 ensures whole[i] == parts[i] {
      if i < n + 24 {
        assert (m + Zeros(24))[i] == Sum(p, Zeros(n) + r)[i];
      }
      if i >= n {
        assert low[i - n] == next[i - n];
      }
    }
  }

  lemma {:induction false} FeedDivides(m: Poly) returns (q: Poly)
    ensures DividesWith(m, q, Bits(Feed(0, m), 24))
  {
    hide Feed, Bits, Product, Multiple, Serial, Meets;
    if m == [] {
      q := [];
      NoProduct();
      FeedNone(0);
      BitsOfZero(24);
      assert [] + Zeros(24) == Zeros(24) && Zeros(0) + Zeros(24) == Zeros(24);
    } else {
      var n := |m| - 1;
      var front, bit := m[..n], m[n];
      assert m == front + [bit];
      var crc := Feed(0, front);
      var p := FeedDivides(front);
      FeedAppend(0, front, [bit]);
      FeedOne(crc, bit);
      RegisterStep(crc, bit);
      ExtendDivision(front, bit, Product(p), Bits(crc, 24), Multiple(Meets(crc, bit)), Bits(Serial(crc, bit), 24));
      q := p + [Meets(crc, bit)];
      ProductSnoc(p, Meets(crc, bit));
    }
  }

  lemma FeedNone(crc: bv24)
    ensures Feed(crc, []) == crc
  {}

  lemma {:induction false} BitsOfZero(n: nat)
    ensures Bits(0, n) == Zeros(n)
  {
    hide TopBit, Doubled;
    if n > 0 {
      NoTopBit();
      DoubledZero();
      BitsOfZero(n - 1);
    }
  }

  lemma DoubledZero()
    ensures Doubled(0) == 0
  {}

  /** The checksum of any message is its remainder after division by the generator, and no other is. */
  lemma CrcIsRemainder(data: seq<byte>)
    ensures IsRemainder(MessageBits(data), Bits(Crc(data), 24))
    ensures forall r :: IsRemainder(MessageBits(data), r) ==> r == Bits(Crc(data), 24)
  {
    hide Feed, Bits, DividesWith, MessageBits, Crc;
    var m := MessageBits(data);
    var q := FeedDivides(m);
    CrcFeeds(data);
    forall r | IsRemainder(m, r) ensures r == Bits(Crc(data), 24) {
      var p :| DividesWith(m, p, r);
      RemainderIsUnique(m, p, r, q, Bits(Crc(data), 24));
    }
  }

  // ----- what a zero residue detects

  /** Whether the number of ones is odd. */
  predicate Odd(bits: Poly) {
    bits != [] && Odd(bits[..|bits| - 1]) != bits[|bits| - 1]
  }

  lemma OddSnoc(bits: Poly, bit: bool)
    ensures Odd(bits + [bit]) == (Odd(bits) != bit)
  {
    assert (bits + [bit])[..|bits|] == bits;
  }

  lemma {:induction false} OddAppend(a: Poly, b: Poly)
    ensures Odd(a + b) == (Odd(a) != Odd(b))
  {
    if b == [] {
      assert a + b == a;
    } else {
      var n := |b| - 1;
      OddAppend(a, b[..n]);
      assert (a + b)[..|a| + n] == a + b[..n];
    }
  }

  lemma {:induction false} OddSum(a: Poly, b: Poly)
    requires |a| == |b|
    ensures Odd(Sum(a, b)) == (Odd(a) != Odd(b))
  {
    if a != [] {
      var n := |a| - 1;
      OddSum(a[..n], b[..n]);
      assert Sum(a, b)[..n] == Sum(a[..n], b[..n]);
    }
  }

  lemma {:induction false} ZerosAreEven(n: nat)
    ensures !Odd(Zeros(n))
  {
    if n > 0 {
      ZerosAreEven(n - 1);
      assert Zeros(n)[..n - 1] == Zeros(n - 1);
    }
  }

  /** The generator has fourteen terms. */
  lemma GeneratorIsEven()
    ensures !Odd(Generator())
  {
    hide Odd;
    var a: Poly := [true, true, false, false, false];
    var b: Poly := [false, true, true, false, false];
    var c: Poly := [true, false, false, true, true];
    var d: Poly := [false, false, true, true, true];
    var e: Poly := [true, true, false, true, true];
    assert Generator() == a + b + c + d + e;
    OddAppend(a, b);
    OddAppend(a + b, c);
    OddAppend(a + b + c, d);
    OddAppend(a + b + c + d, e);
    OddOfFive(true, true, false, false, false);
    OddOfFive(false, true, true, false, false);
    OddOfFive(true, false, false, true, true);
    OddOfFive(false, false, true, true, true);
    OddOfFive(true, true, false, true, true);
  }

  lemma OddOfFive(a: bool, b: bool, c: bool, d: bool, e: bool)
    ensures Odd([a, b, c, d, e]) == (a != (b != (c != (d != e))))
  {
    hide Odd;
    OddNone([]);
    OddSnoc([], a);
    OddSnoc([a], b);
    OddSnoc([a, b], c);
    OddSnoc([a, b, c], d);
    OddSnoc([a, b, c, d], e);
    assert [] + [a] == [a] && [a] + [b] == [a, b] && [a, b] + [c] == [a, b, c];
    assert [a, b, c] + [d] == [a, b, c, d] && [a, b, c, d] + [e] == [a, b, c, d, e];
  }

  lemma OddNone(bits: Poly)
    requires bits == []
    ensures !Odd(bits)
  {}

  lemma {:induction false} ProductsAreEven(q: Poly)
    ensures !Odd(Product(q))
  {
    hide Odd, Generator;
    if q == [] {
      ZerosAreEven(24);
    } else {
      var n := |q| - 1;
      ProductsAreEven(q[..n]);
      GeneratorIsEven();
      ZerosAreEven(25);
      ZerosAreEven(n);
      OddSnoc(Product(q[..n]), false);
      OddAppend(Zeros(n), Multiple(q[n]));
      OddSum(Product(q[..n]) + [false], Zeros(n) + Multiple(q[n]));
    }
  }

  lemma ResidueZeroDivides(data: seq<byte>) returns (q: Poly)
    requires Crc(data) == 0
    ensures |q| == |MessageBits(data)| && MessageBits(data) + Zeros(24) == Product(q)
  {
    hide Feed, Bits, MessageBits, Crc, Product;
    q := FeedDivides(MessageBits(data));
    CrcFeeds(data);
    BitsOfZero(24);
    assert Zeros(|q|) + Zeros(24) == Zeros(|q| + 24);
    assert Sum(Product(q), Zeros(|q| + 24)) == Product(q);
  }

  /** A message with residue zero has an even number of ones. */
  lemma ResidueZeroIsEven(data: seq<byte>)
    requires Crc(data) == 0
    ensures !Odd(MessageBits(data))
  {
    hide Odd, Product, MessageBits, Crc;
    var q := ResidueZeroDivides(data);
    ProductsAreEven(q);
    OddAppend(MessageBits(data), Zeros(24));
    ZerosAreEven(24);
  }

  /** No odd number of flipped bits turns one message with residue zero into another. */
  lemma OddErrorsAreCaught(sent: seq<byte>, received: seq<byte>)
    requires Crc(sent) == 0 && |received| == |sent|
    requires Odd(Sum(MessageBits(sent), MessageBits(received)))
    ensures Crc(received) != 0
  {
    hide Odd, MessageBits, Crc;
    OddSum(MessageBits(sent), MessageBits(received));
    ResidueZeroIsEven(sent);
    if Crc(received) == 0 {
      ResidueZeroIsEven(received);
      assert false;
    }
  }

  /** The lowest power of a product is that of the factor. */
  lemma {:induction false} ProductTrails(q: Poly, k: nat)
    requires k < |q| && q[k] && forall i :: k < i < |q| ==> !q[i]
    ensures Product(q)[k + 24]
  {
    hide Generator, Multiple;
    var n := |q| - 1;
    MultipleLeads(q[n]);
    if k < n {
      ProductTrails(q[..n], k);
      NoMultiple();
    }
  }

  lemma NoMultiple()
    ensures Multiple(false) == Zeros(25)
  {}

  lemma LastTerm(d: Poly, k: nat) returns (last: nat)
    requires k < |d| && d[k]
    ensures k <= last < |d| && d[last] && forall i :: last < i < |d| ==> !d[i]
  {
    last := |d| - 1;
    while !d[last]
      invariant k <= last < |d| && forall i :: last < i < |d| ==> !d[i]
      decreases last
    {
      last := last - 1;
    }
  }

  /** A multiple of the generator with ones in fewer than 25 places in a row has none. */
  lemma ShortMultipleIsZero(d: Poly, start: nat)
    requires forall i :: 0 <= i < |d| + 24 && Product(d)[i] ==> start <= i < start + 24
    ensures forall i :: 0 <= i < |d| ==> !d[i]
  {
    hide Product;
    var k := FirstTerm(d, |d|);
    if k < |d| {
      var last := LastTerm(d, k);
      ProductLeads(d, k);
      ProductTrails(d, last);
      assert false;
    }
  }

  /** Nor does any change confined to 24 places in a row. */
  lemma BurstsAreCaught(sent: seq<byte>, received: seq<byte>, start: nat)
    requires Crc(sent) == 0 && |received| == |sent|
    requires var error := Sum(MessageBits(sent), MessageBits(received));
             && (exists i :: 0 <= i < |error| && error[i])
             && forall i :: 0 <= i < |error| && error[i] ==> start <= i < start + 24
    ensures Crc(received) != 0
  {
    hide Product, MessageBits, Crc, Odd;
    if Crc(received) == 0 {
      var m, w := MessageBits(sent), MessageBits(received);
      var p := ResidueZeroDivides(sent);
      var q := ResidueZeroDivides(received);
      ProductOfSum(p, q);
      var d := Sum(p, q);
      var error := Sum(m, w);
      assert Product(d) == error + Zeros(24);
      forall i | 0 <= i < |d| + 24 && Product(d)[i] ensures start <= i < start + 24 {
        assert i < |error| && error[i];
      }
      var i :| 0 <= i < |error| && error[i];
      assert Product(d)[i];
      ShortMultipleIsZero(d, start);
      ProductOfZeros(d);
      assert false;
    }
  }
}
