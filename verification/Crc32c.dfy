/** CRC32C, the polynomial of section 12.1 of RFC 3720, in four strides (util/crc32c.cc, util/crc32c.h). */
module Crc32c {

  /** The polynomial with its bits reversed. */
  const POLYNOMIAL: bv32 := 0x82f63b78

  const ONES: bv32 := 0xffffffff

  function Xor(a: bv32, b: bv32): bv32 {
    a ^ b
  }

  predicate Odd(l: bv32) {
    l & 1 == 1
  }

  function Low(l: bv32): bv32 {
    if Odd(l) then POLYNOMIAL else 0
  }

  function Half(l: bv32): bv32 {
    l >> 1
  }

  /** Dividing out one bit. */
  function Bit(l: bv32): bv32 {
    Xor(Half(l), Low(l))
  }

  function Bits(l: bv32, n: nat): bv32 {
    if n == 0 then l else Bit(Bits(l, n - 1))
  }

  /** Dividing out eight bits; kByteExtensionTable holds its values on the 256 bytes. */
  function Byte(l: bv32): bv32 {
    Bits(l, 8)
  }

  /** Following the register through `k` zero bytes. */
  function Advance(l: bv32, k: nat): bv32 {
    Bits(l, 8 * k)
  }

  function LowByte(l: bv32): bv32 {
    l & 0xff
  }

  function HighPart(l: bv32): bv32 {
    l & 0xffffff00
  }

  /** STEP1: the table is indexed by the low byte of the register and the data byte. */
  function Step(l: bv32, b: bv8): bv32 {
    Xor(Byte(Xor(LowByte(l), b as bv32)), l >> 8)
  }

  /** The register after a string, one byte at a time. */
  function Register(l: bv32, data: seq<bv8>): bv32 {
    if data == [] then l else Step(Register(l, data[..|data| - 1]), data[|data| - 1])
  }

  /** The checksum of a string continued from the checksum of what came before it. */
  function ExtendSpec(crc: bv32, data: seq<bv8>): bv32 {
    Xor(Register(Xor(crc, ONES), data), ONES)
  }

  // ----- algebra of exclusive or -----

  lemma AssocValues(a: bv32, b: bv32, c: bv32, ab: bv32, bc: bv32)
    requires ab == a ^ b && bc == b ^ c
    ensures ab ^ c == a ^ bc
  {
  }

  lemma Assoc(a: bv32, b: bv32, c: bv32)
    ensures Xor(Xor(a, b), c) == Xor(a, Xor(b, c))
  {
    AssocValues(a, b, c, Xor(a, b), Xor(b, c));
  }

  lemma Comm(a: bv32, b: bv32)
    ensures Xor(a, b) == Xor(b, a)
  {
  }

  lemma SelfInverse(a: bv32)
    ensures Xor(a, a) == 0 && Xor(a, 0) == a && Xor(0, a) == a
  {
  }

  lemma LeftComm(x: bv32, y: bv32, z: bv32)
    ensures Xor(x, Xor(y, z)) == Xor(y, Xor(x, z))
  {
    Assoc(x, y, z);
    Comm(x, y);
    Assoc(y, x, z);
  }

  lemma Swap(w: bv32, x: bv32, y: bv32, z: bv32)
    ensures Xor(Xor(w, x), Xor(y, z)) == Xor(Xor(w, y), Xor(x, z))
  {
    Assoc(w, x, Xor(y, z));
    LeftComm(x, y, z);
    Assoc(w, y, Xor(x, z));
  }

  // ----- linearity -----

  lemma HalfLinear(a: bv32, b: bv32)
    ensures Half(Xor(a, b)) == Xor(Half(a), Half(b))
  {
  }

  lemma LowBits(a: bv32, b: bv32)
    ensures (a ^ b) & 1 == (a & 1) ^ (b & 1) && (a & 1 == 0 || a & 1 == 1)
  {
  }

  lemma OddXor(a: bv32, b: bv32)
    ensures Odd(Xor(a, b)) <==> Odd(a) != Odd(b)
  {
    LowBits(a, b);
    LowBits(b, a);
  }

  lemma LowLinear(a: bv32, b: bv32)
    ensures Low(Xor(a, b)) == Xor(Low(a), Low(b))
  {
    OddXor(a, b);
    SelfInverse(POLYNOMIAL);
    SelfInverse(0);
  }

  lemma BitLinear(a: bv32, b: bv32)
    ensures Bit(Xor(a, b)) == Xor(Bit(a), Bit(b))
  {
    HalfLinear(a, b);
    LowLinear(a, b);
    Swap(Half(a), Half(b), Low(a), Low(b));
  }

  lemma {:induction false} BitsLinear(a: bv32, b: bv32, n: nat)
    ensures Bits(Xor(a, b), n) == Xor(Bits(a, n), Bits(b, n))
  {
    if n > 0 {
      BitsLinear(a, b, n - 1);
      BitLinear(Bits(a, n - 1), Bits(b, n - 1));
    }
  }

  lemma {:induction false} BitsTwice(l: bv32, m: nat, n: nat)
    ensures Bits(Bits(l, m), n) == Bits(l, m + n)
  {
    if n > 0 { BitsTwice(l, m, n - 1); }
  }

  lemma ByteLinear(a: bv32, b: bv32)
    ensures Byte(Xor(a, b)) == Xor(Byte(a), Byte(b))
  {
    BitsLinear(a, b, 8);
  }

  lemma AdvanceLinear(a: bv32, b: bv32, k: nat)
    ensures Advance(Xor(a, b), k) == Xor(Advance(a, k), Advance(b, k))
  {
    BitsLinear(a, b, 8 * k);
  }

  lemma AdvanceTwice(l: bv32, j: nat, k: nat)
    ensures Advance(Advance(l, j), k) == Advance(l, j + k)
  {
    BitsTwice(l, 8 * j, 8 * k);
  }

  // ----- bits that only move down -----

  lemma EvenBit(l: bv32)
    requires !Odd(l)
    ensures Bit(l) == Half(l)
  {
    SelfInverse(Half(l));
  }

  /** Four even halvings in a row. */
  lemma EvenNibble(l: bv32)
    requires l & 0xf == 0
    ensures Bits(l, 4) == l >> 4
  {
    var a, b, c := l >> 1, l >> 2, l >> 3;
    EvenFour(l);
    EvenBit(l);
    EvenBit(a);
    EvenBit(b);
    EvenBit(c);
    HalfIs(l, a, b, c);
    FourBits(l);
  }

  lemma FourBits(l: bv32)
    ensures Bits(l, 4) == Bit(Bit(Bit(Bit(l))))
  {
    assert Bits(l, 1) == Bit(Bits(l, 0));
    assert Bits(l, 2) == Bit(Bits(l, 1));
    assert Bits(l, 3) == Bit(Bits(l, 2));
  }

  lemma EvenFour(l: bv32)
    requires l & 0xf == 0
    ensures l & 1 != 1 && (l >> 1) & 1 != 1 && (l >> 2) & 1 != 1 && (l >> 3) & 1 != 1
  {
  }

  lemma HalfIs(l: bv32, a: bv32, b: bv32, c: bv32)
    requires a == l >> 1 && b == l >> 2 && c == l >> 3
    ensures Half(l) == a && Half(a) == b && Half(b) == c && Half(c) == l >> 4
  {
  }

  lemma HighIsEven(l: bv32)
    ensures (l & 0xffffff00) & 0xf == 0 && ((l & 0xffffff00) >> 4) & 0xf == 0 && ((l & 0xffffff00) >> 4) >> 4 == l >> 8
  {
  }

  /** Bits above the low byte only move down. */
  lemma HighBits(l: bv32)
    ensures Byte(HighPart(l)) == l >> 8
  {
    HighIsEven(l);
    EvenNibble(HighPart(l));
    EvenNibble(HighPart(l) >> 4);
    BitsTwice(HighPart(l), 4, 4);
  }

  lemma SplitLow(l: bv32)
    ensures l == Xor(LowByte(l), HighPart(l))
  {
  }

  /** The table step divides the register, with the data byte added, by eight bits. */
  lemma StepIsByte(l: bv32, b: bv8)
    ensures Step(l, b) == Byte(Xor(l, b as bv32))
  {
    var low, high, c := LowByte(l), HighPart(l), b as bv32;
    SplitLow(l);
    Assoc(low, high, c);
    Comm(high, c);
    Assoc(low, c, high);
    ByteLinear(Xor(low, c), high);
    HighBits(l);
  }

  // ----- the table's values -----

  /** Entries 1, 2, 4, ... 128 of kByteExtensionTable; linearity gives the others. */
  lemma ByteTable()
    ensures Byte(1) == 0xf26b8303 && Byte(2) == 0xe13b70f7 && Byte(4) == 0xc79a971f && Byte(8) == 0x8ad958cf
    ensures Byte(16) == 0x105ec76f && Byte(32) == 0x20bd8ede && Byte(64) == 0x417b1dbc && Byte(128) == 0x82f63b78
  {
  }

  // ----- four bytes at once -----

  lemma Shifts(b: bv8)
    ensures ((b as bv32) << 8) & 0xffffff00 == (b as bv32) << 8 && ((b as bv32) << 8) >> 8 == b as bv32
    ensures ((b as bv32) << 16) & 0xffffff00 == (b as bv32) << 16 && ((b as bv32) << 16) >> 8 == (b as bv32) << 8
    ensures ((b as bv32) << 24) & 0xffffff00 == (b as bv32) << 24 && ((b as bv32) << 24) >> 8 == (b as bv32) << 16
  {
  }

  /** A byte that starts `k` bytes up comes down to the bottom after `k` zero bytes. */
  lemma ComesDown1(b: bv8)
    ensures Advance((b as bv32) << 8, 1) == b as bv32
  {
    Shifts(b);
    HighBits((b as bv32) << 8);
  }

  lemma ComesDown2(b: bv8)
    ensures Advance((b as bv32) << 16, 2) == b as bv32
  {
    Shifts(b);
    HighBits((b as bv32) << 16);
    ComesDown1(b);
    AdvanceTwice((b as bv32) << 16, 1, 1);
  }

  lemma ComesDown3(b: bv8)
    ensures Advance((b as bv32) << 24, 3) == b as bv32
  {
    Shifts(b);
    HighBits((b as bv32) << 24);
    ComesDown2(b);
    AdvanceTwice((b as bv32) << 24, 1, 2);
  }

  lemma AdvanceNext(l: bv32, k: nat)
    ensures Advance(l, k + 1) == Byte(Advance(l, k))
  {
    BitsTwice(l, 8 * k, 8);
  }

  lemma StepAdvance(x: bv32, k: nat, c: bv32, b: bv8)
    requires Advance(c, k) == b as bv32
    ensures Step(Advance(x, k), b) == Advance(Xor(x, c), k + 1)
  {
    StepIsByte(Advance(x, k), b);
    AdvanceLinear(x, c, k);
    AdvanceNext(Xor(x, c), k);
  }

  /** ReadUint32LE */
  function Word(b0: bv8, b1: bv8, b2: bv8, b3: bv8): bv32 {
    (b0 as bv32) | ((b1 as bv32) << 8) | ((b2 as bv32) << 16) | ((b3 as bv32) << 24)
  }

  /** Bytes that do not overlap may as well be added without carry. */
  lemma WordIsXors(b0: bv8, b1: bv8, b2: bv8, b3: bv8, c0: bv32, c1: bv32, c2: bv32, c3: bv32)
    requires c0 == b0 as bv32 && c1 == (b1 as bv32) << 8 && c2 == (b2 as bv32) << 16 && c3 == (b3 as bv32) << 24
    ensures Word(b0, b1, b2, b3) == Xor(Xor(Xor(c0, c1), c2), c3)
  {
    BytesApart(b0, b1, b2, b3, c0, c1, c2, c3);
    XorThrice(c0, c1, c2, c3);
  }

  lemma BytesApart(b0: bv8, b1: bv8, b2: bv8, b3: bv8, c0: bv32, c1: bv32, c2: bv32, c3: bv32)
    requires c0 == b0 as bv32 && c1 == (b1 as bv32) << 8 && c2 == (b2 as bv32) << 16 && c3 == (b3 as bv32) << 24
    ensures Word(b0, b1, b2, b3) == ((c0 ^ c1) ^ c2) ^ c3
  {
  }

  lemma XorThrice(a: bv32, b: bv32, c: bv32, d: bv32)
    ensures Xor(Xor(Xor(a, b), c), d) == ((a ^ b) ^ c) ^ d
  {
    XorTwice(a, b, c, d, a ^ b, (a ^ b) ^ c);
  }

  lemma XorTwice(a: bv32, b: bv32, c: bv32, d: bv32, ab: bv32, abc: bv32)
    requires ab == a ^ b && abc == ab ^ c
    ensures Xor(Xor(Xor(a, b), c), d) == abc ^ d
  {
  }

  lemma FourSteps(l: bv32, b0: bv8, b1: bv8, b2: bv8, b3: bv8)
    ensures Step(Step(Step(Step(l, b0), b1), b2), b3) == Advance(Xor(l, Word(b0, b1, b2, b3)), 4)
  {
    var c0, c1, c2, c3 := b0 as bv32, (b1 as bv32) << 8, (b2 as bv32) << 16, (b3 as bv32) << 24;
    ComesDown1(b1);
    ComesDown2(b2);
    ComesDown3(b3);
    StepAdvance(l, 0, c0, b0);
    StepAdvance(Xor(l, c0), 1, c1, b1);
    StepAdvance(Xor(Xor(l, c0), c1), 2, c2, b2);
    StepAdvance(Xor(Xor(Xor(l, c0), c1), c2), 3, c3, b3);
    FiveTerms(l, c0, c1, c2, c3);
    WordIsXors(b0, b1, b2, b3, c0, c1, c2, c3);
  }

  lemma FiveTerms(l: bv32, a: bv32, b: bv32, c: bv32, d: bv32)
    ensures Xor(Xor(Xor(Xor(l, a), b), c), d) == Xor(l, Xor(Xor(Xor(a, b), c), d))
  {
    Assoc(l, a, b);
    Assoc(l, Xor(a, b), c);
    Assoc(l, Xor(Xor(a, b), c), d);
  }

  function WordAt(data: seq<bv8>, p: nat): bv32
    requires p + 4 <= |data|
  {
    Word(data[p], data[p + 1], data[p + 2], data[p + 3])
  }

  /** The register after the first `p` bytes. */
  function After(l: bv32, data: seq<bv8>, p: nat): bv32
    requires p <= |data|
  {
    Register(l, data[..p])
  }

  lemma RegisterNext(l: bv32, data: seq<bv8>, p: nat)
    requires p < |data|
    ensures Register(l, data[..p + 1]) == Step(Register(l, data[..p]), data[p])
  {
    assert data[..p + 1][..p] == data[..p];
  }

  lemma RegisterWord(l: bv32, data: seq<bv8>, p: nat)
    requires p + 4 <= |data|
    ensures Register(l, data[..p + 4]) == Advance(Xor(Register(l, data[..p]), WordAt(data, p)), 4)
  {
    RegisterNext(l, data, p);
    RegisterNext(l, data, p + 1);
    RegisterNext(l, data, p + 2);
    RegisterNext(l, data, p + 3);
    FourSteps(Register(l, data[..p]), data[p], data[p + 1], data[p + 2], data[p + 3]);
  }

  // ----- strides -----

  /**
   * The four kStrideExtensionTables: each byte lane of the register, followed through the sixteen bytes of a
   * stride.
   */
  function Stride(crc: bv32): bv32 {
    Xor(Xor(Xor(Advance(crc & 0xff, 16), Advance(((crc >> 8) & 0xff) << 8, 16)),
        Advance(((crc >> 16) & 0xff) << 16, 16)), Advance((crc >> 24) << 24, 16))
  }

  lemma Lanes(crc: bv32)
    ensures (((crc & 0xff) ^ (((crc >> 8) & 0xff) << 8)) ^ (((crc >> 16) & 0xff) << 16)) ^ ((crc >> 24) << 24) == crc
  {
  }

  lemma LanesXor(crc: bv32, a: bv32, b: bv32, c: bv32, d: bv32)
    requires a == crc & 0xff && b == ((crc >> 8) & 0xff) << 8 && c == ((crc >> 16) & 0xff) << 16
    requires d == (crc >> 24) << 24
    ensures Xor(Xor(Xor(a, b), c), d) == crc
  {
    Lanes(crc);
  }

  lemma StrideIsAdvance(crc: bv32)
    ensures Stride(crc) == Advance(crc, 16)
  {
    var a, b, c, d := crc & 0xff, ((crc >> 8) & 0xff) << 8, ((crc >> 16) & 0xff) << 16, (crc >> 24) << 24;
    LanesXor(crc, a, b, c, d);
    AdvanceLinear(a, b, 16);
    AdvanceLinear(Xor(a, b), c, 16);
    AdvanceLinear(Xor(Xor(a, b), c), d, 16);
  }

  /** The register that four partial results stand for. */
  function Combined(c0: bv32, c1: bv32, c2: bv32, c3: bv32): bv32 {
    Xor(Xor(Xor(Advance(c0, 16), Advance(c1, 12)), Advance(c2, 8)), Advance(c3, 4))
  }

  lemma AdvanceFour(a: bv32, b: bv32, c: bv32, d: bv32, k: nat)
    ensures Advance(Xor(Xor(Xor(a, b), c), d), k)
        == Xor(Xor(Xor(Advance(a, k), Advance(b, k)), Advance(c, k)), Advance(d, k))
  {
    AdvanceLinear(a, b, k);
    AdvanceLinear(Xor(a, b), c, k);
    AdvanceLinear(Xor(Xor(a, b), c), d, k);
  }

  lemma AdvanceSum(c0: bv32, c1: bv32, c2: bv32, c3: bv32, k0: nat, k1: nat, k2: nat, k3: nat, k: nat)
    ensures Advance(Xor(Xor(Xor(Advance(c0, k0), Advance(c1, k1)), Advance(c2, k2)), Advance(c3, k3)), k)
         == Xor(Xor(Xor(Advance(c0, k0 + k), Advance(c1, k1 + k)), Advance(c2, k2 + k)), Advance(c3, k3 + k))
  {
    AdvanceFour(Advance(c0, k0), Advance(c1, k1), Advance(c2, k2), Advance(c3, k3), k);
    AdvanceTwice(c0, k0, k);
    AdvanceTwice(c1, k1, k);
    AdvanceTwice(c2, k2, k);
    AdvanceTwice(c3, k3, k);
  }

  lemma AdvanceCombined(c0: bv32, c1: bv32, c2: bv32, c3: bv32)
    ensures Advance(Combined(c0, c1, c2, c3), 4)
        == Xor(Xor(Xor(Advance(c0, 20), Advance(c1, 16)), Advance(c2, 12)), Advance(c3, 8))
  {
    AdvanceSum(c0, c1, c2, c3, 16, 12, 8, 4, 4);
  }

  lemma FirstLast(a: bv32, b: bv32, c: bv32, d: bv32, w: bv32)
    ensures Xor(Xor(Xor(Xor(a, b), c), d), w) == Xor(Xor(Xor(b, c), d), Xor(w, a))
  {
    FiveTerms(a, b, c, d, w);
    Comm(a, Xor(Xor(Xor(b, c), d), w));
    Assoc(Xor(Xor(b, c), d), w, a);
  }

  /** One word into the oldest partial result, which becomes the newest. */
  lemma RotateIn(c0: bv32, c1: bv32, c2: bv32, c3: bv32, w: bv32)
    ensures Combined(c1, c2, c3, Xor(w, Stride(c0))) == Advance(Xor(Combined(c0, c1, c2, c3), w), 4)
  {
    StrideIsAdvance(c0);
    AdvanceLinear(w, Advance(c0, 16), 4);
    AdvanceTwice(c0, 16, 4);
    AdvanceLinear(Combined(c0, c1, c2, c3), w, 4);
    AdvanceCombined(c0, c1, c2, c3);
    FirstLast(Advance(c0, 20), Advance(c1, 16), Advance(c2, 12), Advance(c3, 8), Advance(w, 4));
  }

  /** STEP4, in the order the tables are added. */
  function Step4(crc: bv32, w: bv32): bv32 {
    Xor(Xor(Xor(Xor(w, Advance(crc & 0xff, 16)), Advance(((crc >> 8) & 0xff) << 8, 16)),
        Advance(((crc >> 16) & 0xff) << 16, 16)), Advance((crc >> 24) << 24, 16))
  }

  lemma Step4IsStride(crc: bv32, w: bv32)
    ensures Step4(crc, w) == Xor(w, Stride(crc))
  {
    FiveTerms(w, Advance(crc & 0xff, 16), Advance(((crc >> 8) & 0xff) << 8, 16),
        Advance(((crc >> 16) & 0xff) << 16, 16), Advance((crc >> 24) << 24, 16));
  }

  /** One word through one stride keeps the register that the partial results stand for. */
  lemma StrideStep(l: bv32, data: seq<bv8>, p: nat, c0: bv32, c1: bv32, c2: bv32, c3: bv32)
    requires p + 4 <= |data|
    requires Combined(c0, c1, c2, c3) == Register(l, data[..p])
    ensures Combined(c1, c2, c3, Step4(c0, WordAt(data, p))) == Register(l, data[..p + 4])
  {
    Step4IsStride(c0, WordAt(data, p));
    RotateIn(c0, c1, c2, c3, WordAt(data, p));
    RegisterWord(l, data, p);
  }

  // ----- loading and combining the partial results -----

  /** Four words added one after another. */
  function Fold(c0: bv32, c1: bv32, c2: bv32, c3: bv32): bv32 {
    Advance(Xor(c3, Advance(Xor(c2, Advance(Xor(c1, Advance(c0, 4)), 4)), 4)), 4)
  }

  /** One more word, `x` being what the words before it have come to. */
  lemma FoldNext(x: bv32, a: bv32, b: bv32, c: bv32, k: nat, a': bv32, b': bv32)
    requires x == Xor(a, b) && a' == Advance(a, k) && b' == Advance(b, k)
    ensures Advance(Xor(c, x), k) == Xor(Xor(a', b'), Advance(c, k))
  {
    AdvanceLinear(c, x, k);
    AdvanceLinear(a, b, k);
    Comm(Advance(c, k), Advance(x, k));
  }

  lemma FoldTwo(c0: bv32, c1: bv32, k: nat)
    ensures Advance(Xor(c1, Advance(c0, k)), k) == Xor(Advance(c0, k + k), Advance(c1, k))
  {
    AdvanceLinear(c1, Advance(c0, k), k);
    AdvanceTwice(c0, k, k);
    Comm(Advance(c1, k), Advance(c0, k + k));
  }

  lemma FoldThree(x: bv32, c0: bv32, c1: bv32, c2: bv32, k: nat)
    requires x == Xor(Advance(c0, k + k), Advance(c1, k))
    ensures Advance(Xor(c2, x), k) == Xor(Xor(Advance(c0, k + k + k), Advance(c1, k + k)), Advance(c2, k))
  {
    AdvanceTwice(c0, k + k, k);
    AdvanceTwice(c1, k, k);
    FoldNext(x, Advance(c0, k + k), Advance(c1, k), c2, k, Advance(c0, k + k + k), Advance(c1, k + k));
  }

  lemma FoldFour(x: bv32, c0: bv32, c1: bv32, c2: bv32, c3: bv32, k: nat)
    requires x == Xor(Xor(Advance(c0, k + k + k), Advance(c1, k + k)), Advance(c2, k))
    ensures Advance(Xor(c3, x), k)
         == Xor(Xor(Xor(Advance(c0, k + k + k + k), Advance(c1, k + k + k)), Advance(c2, k + k)), Advance(c3, k))
  {
    AdvanceTwice(c0, k + k + k, k);
    AdvanceTwice(c1, k + k, k);
    AdvanceTwice(c2, k, k);
    AdvanceLinear(Advance(c0, k + k + k), Advance(c1, k + k), k);
    FoldNext(x, Xor(Advance(c0, k + k + k), Advance(c1, k + k)), Advance(c2, k), c3, k,
             Xor(Advance(c0, k + k + k + k), Advance(c1, k + k + k)), Advance(c2, k + k));
  }

  /** The steps in turn, each from what the one before has come to. */
  lemma FoldSteps(c0: bv32, c1: bv32, c2: bv32, c3: bv32, x: bv32, y: bv32, z: bv32, k: nat)
    requires x == Advance(Xor(c1, Advance(c0, k)), k) && y == Advance(Xor(c2, x), k) && z == Advance(Xor(c3, y), k)
    ensures z == Xor(Xor(Xor(Advance(c0, k + k + k + k), Advance(c1, k + k + k)), Advance(c2, k + k)), Advance(c3, k))
  {
    FoldTwo(c0, c1, k);
    FoldThree(x, c0, c1, c2, k);
    FoldFour(y, c0, c1, c2, c3, k);
  }

  lemma FoldIsCombined(c0: bv32, c1: bv32, c2: bv32, c3: bv32)
    ensures Fold(c0, c1, c2, c3) == Combined(c0, c1, c2, c3)
  {
    var x := Advance(Xor(c1, Advance(c0, 4)), 4);
    var y := Advance(Xor(c2, x), 4);
    FoldSteps(c0, c1, c2, c3, x, y, Advance(Xor(c3, y), 4), 4);
  }

  /** The first sixteen bytes loaded as four partial results. */
  lemma Loaded(l: bv32, data: seq<bv8>, p: nat)
    requires p + 16 <= |data|
    ensures Combined(Xor(WordAt(data, p), Register(l, data[..p])), WordAt(data, p + 4), WordAt(data, p + 8),
        WordAt(data, p + 12))
         == Register(l, data[..p + 16])
  {
    var r := Register(l, data[..p]);
    RegisterWord(l, data, p);
    RegisterWord(l, data, p + 4);
    RegisterWord(l, data, p + 8);
    RegisterWord(l, data, p + 12);
    Comm(WordAt(data, p), r);
    Comm(WordAt(data, p + 4), Register(l, data[..p + 4]));
    Comm(WordAt(data, p + 8), Register(l, data[..p + 8]));
    Comm(WordAt(data, p + 12), Register(l, data[..p + 12]));
    FoldIsCombined(Xor(WordAt(data, p), r), WordAt(data, p + 4), WordAt(data, p + 8), WordAt(data, p + 12));
  }

  lemma FoldByte(w: bv32)
    ensures Xor(w >> 8, Byte(LowByte(w))) == Byte(w)
  {
    SplitLow(w);
    ByteLinear(LowByte(w), HighPart(w));
    HighBits(w);
    Comm(w >> 8, Byte(LowByte(w)));
  }

  /** STEP4W */
  method Step4W(l: bv32, word: bv32) returns (r: bv32)
    ensures r == Advance(Xor(word, l), 4)
  {
    var w := Xor(word, l);
    for i := 0 to 4
      invariant w == Advance(Xor(word, l), i)
    {
      FoldByte(w);
      AdvanceNext(Xor(word, l), i);
      w := Xor(w >> 8, Byte(LowByte(w)));
    }
    r := w;
  }

  // ----- Extend -----

  /** STEP1 from `from` up to `to`. */
  method StepBytes(ghost start: bv32, l: bv32, data: seq<bv8>, from: nat, to: nat) returns (r: bv32)
    requires from <= to <= |data|
    requires l == After(start, data, from)
    ensures r == After(start, data, to)
  {
    r := l;
    var p := from;
    while p != to
      invariant p <= to && r == After(start, data, p)
    {
      RegisterNext(start, data, p);
      r := Step(r, data[p]);
      p := p + 1;
    }
  }

  /** Extend on a buffer whose address is `misalignment` above a multiple of four. */
  method Extend(crc: bv32, data: seq<bv8>, misalignment: nat) returns (result: bv32)
    requires misalignment < 4
    ensures result == ExtendSpec(crc, data)
  {
    var start := Xor(crc, ONES);
    var l := start;
    var p, e := 0, |data|;
    var x := (4 - misalignment) % 4;
    if x <= e {
      l := StepBytes(start, l, data, p, x);
      p := x;
    }
    if e - p >= 16 {
      l, p := Striped(start, l, data, p);
    }
    l := StepBytes(start, l, data, p, e);
    assert data[..e] == data;
    result := Xor(l, ONES);
  }

  /** The part of Extend that keeps four partial results. */
  method Striped(ghost start: bv32, l: bv32, data: seq<bv8>, from: nat) returns (r: bv32, p: nat)
    requires from + 16 <= |data|
    requires l == After(start, data, from)
    ensures p <= |data| < p + 4 && r == After(start, data, p)
  {
    var c0, c1, c2, c3 := Load(start, l, data, from);
    p := from + 16;
    while |data| - p >= 16
      invariant p <= |data|
      invariant Combined(c0, c1, c2, c3) == After(start, data, p)
    {
      c0, c1, c2, c3 := Step16(start, data, p, c0, c1, c2, c3);
      p := p + 16;
    }
    while |data| - p >= 4
      invariant p <= |data|
      invariant Combined(c0, c1, c2, c3) == After(start, data, p)
    {
      c0, c1, c2, c3 := Rotate(start, data, p, c0, c1, c2, c3);
      p := p + 4;
    }
    r := Combine(c0, c1, c2, c3);
  }

  /** Folds the four partial results into the register, which starts at zero. */
  method Combine(c0: bv32, c1: bv32, c2: bv32, c3: bv32) returns (r: bv32)
    ensures r == Combined(c0, c1, c2, c3)
  {
    FoldIsCombined(c0, c1, c2, c3);
    SelfInverse(c0);
    var l0 := Step4W(0, c0);
    var l1 := Step4W(l0, c1);
    var l2 := Step4W(l1, c2);
    r := Step4W(l2, c3);
  }

  /** The first sixteen bytes, with the register added to the first word. */
  method Load(ghost start: bv32, l: bv32, data: seq<bv8>, p: nat)
    returns (d0: bv32, d1: bv32, d2: bv32, d3: bv32)
    requires p + 16 <= |data|
    requires l == After(start, data, p)
    ensures Combined(d0, d1, d2, d3) == After(start, data, p + 16)
  {
    Loaded(start, data, p);
    d0, d1, d2, d3 := Xor(WordAt(data, p), l), WordAt(data, p + 4), WordAt(data, p + 8), WordAt(data, p + 12);
  }

  /** One word into the oldest partial result, and the four moved round by one. */
  method Rotate(ghost start: bv32, data: seq<bv8>, p: nat, c0: bv32, c1: bv32, c2: bv32, c3: bv32)
    returns (d0: bv32, d1: bv32, d2: bv32, d3: bv32)
    requires p + 4 <= |data|
    requires Combined(c0, c1, c2, c3) == After(start, data, p)
    ensures Combined(d0, d1, d2, d3) == After(start, data, p + 4)
  {
    StrideStep(start, data, p, c0, c1, c2, c3);
    d0, d1, d2, d3 := c1, c2, c3, Step4(c0, WordAt(data, p));
  }

  /** STEP16 */
  method Step16(ghost start: bv32, data: seq<bv8>, p: nat, c0: bv32, c1: bv32, c2: bv32, c3: bv32)
    returns (d0: bv32, d1: bv32, d2: bv32, d3: bv32)
    requires p + 16 <= |data|
    requires Combined(c0, c1, c2, c3) == After(start, data, p)
    ensures Combined(d0, d1, d2, d3) == After(start, data, p + 16)
  {
    d0 := Step4(c0, WordAt(data, p));
    StrideStep(start, data, p, c0, c1, c2, c3);
    d1 := Step4(c1, WordAt(data, p + 4));
    StrideStep(start, data, p + 4, c1, c2, c3, d0);
    d2 := Step4(c2, WordAt(data, p + 8));
    StrideStep(start, data, p + 8, c2, c3, d0, d1);
    d3 := Step4(c3, WordAt(data, p + 12));
    StrideStep(start, data, p + 12, c3, d0, d1, d2);
  }

  // ----- continuing a checksum, and masking it -----

  lemma {:induction false} RegisterAppend(l: bv32, a: seq<bv8>, b: seq<bv8>)
    ensures Register(l, a + b) == Register(Register(l, a), b)
  {
    if b == [] {
      assert a + b == a;
    } else {
      RegisterAppend(l, a, b[..|b| - 1]);
      assert (a + b)[..|a + b| - 1] == a + b[..|b| - 1];
    }
  }

  /** The checksum of A continued over B is the checksum of A followed by B. */
  lemma ExtendComposes(crc: bv32, a: seq<bv8>, b: seq<bv8>)
    ensures ExtendSpec(ExtendSpec(crc, a), b) == ExtendSpec(crc, a + b)
  {
    RegisterAppend(Xor(crc, ONES), a, b);
    Assoc(Register(Xor(crc, ONES), a), ONES, ONES);
    SelfInverse(ONES);
    SelfInverse(Register(Xor(crc, ONES), a));
  }

  const MASK_DELTA: bv32 := 0xa282ead8

  function RotateRight(x: bv32): bv32 {
    (x >> 15) | (x << 17)
  }

  function RotateLeft(x: bv32): bv32 {
    (x >> 17) | (x << 15)
  }

  function Mask(crc: bv32): bv32 {
    RotateRight(crc) + MASK_DELTA
  }

  function Unmask(masked: bv32): bv32 {
    RotateLeft(masked - MASK_DELTA)
  }

  lemma Rotations(crc: bv32, rot: bv32)
    requires rot == (crc >> 15) | (crc << 17)
    ensures (rot >> 17) | (rot << 15) == crc
  {
  }

  lemma RotationsBack(rot: bv32, crc: bv32)
    requires crc == (rot >> 17) | (rot << 15)
    ensures (crc >> 15) | (crc << 17) == rot
  {
  }

  lemma LeftOfRight(x: bv32, rot: bv32)
    requires rot == RotateRight(x)
    ensures RotateLeft(rot) == x
  {
    Rotations(x, rot);
  }

  lemma RightOfLeft(rot: bv32, x: bv32)
    requires x == RotateLeft(rot)
    ensures RotateRight(x) == rot
  {
    RotationsBack(rot, x);
  }

  lemma AddSubtract(x: bv32, delta: bv32)
    ensures (x + delta) - delta == x && (x - delta) + delta == x
  {
  }

  /** Masking is a bijection on the 32-bit values, undone by unmasking. */
  lemma MaskRoundTrip(crc: bv32)
    ensures Unmask(Mask(crc)) == crc && Mask(Unmask(crc)) == crc
  {
    LeftOfRight(crc, RotateRight(crc));
    RightOfLeft(crc - MASK_DELTA, Unmask(crc));
    AddSubtract(RotateRight(crc), MASK_DELTA);
    AddSubtract(crc, MASK_DELTA);
  }
}
