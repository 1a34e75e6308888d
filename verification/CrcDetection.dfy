/** What the checksum of a log piece rejects (util/crc32c.cc; db/log_reader.cc, ReadPhysicalRecord). */
module CrcDetection {
  import opened Keys
  import opened Crc32c
  import LogChecksum
  import opened LogFormat
  import opened LogReading

  // ----- no two registers become one -----

  /** The polynomial's top bit tells whether a one was shifted out. */
  lemma BitInjective(a: bv32, b: bv32)
    requires Bit(a) == Bit(b)
    ensures a == b
  {
    TopBit(a);
    TopBit(b);
    HalvesAlike(a, b, Bit(a));
  }

  lemma TopBit(l: bv32)
    ensures Bit(l) == if l & 1 == 1 then (l >> 1) ^ 0x82f63b78 else l >> 1
  {
    SelfInverse(Half(l));
  }

  lemma HalvesAlike(a: bv32, b: bv32, c: bv32)
    requires c == (if a & 1 == 1 then (a >> 1) ^ 0x82f63b78 else a >> 1)
    requires c == (if b & 1 == 1 then (b >> 1) ^ 0x82f63b78 else b >> 1)
    ensures a == b
  {
  }

  lemma {:induction false} BitsInjective(a: bv32, b: bv32, n: nat)
    requires Bits(a, n) == Bits(b, n)
    ensures a == b
  {
    if n > 0 {
      BitInjective(Bits(a, n - 1), Bits(b, n - 1));
      BitsInjective(a, b, n - 1);
    }
  }

  lemma XorInjective(a: bv32, b: bv32, c: bv32)
    requires Xor(a, c) == Xor(b, c)
    ensures a == b
  {
    Assoc(a, c, c);
    Assoc(b, c, c);
    SelfInverse(c);
    SelfInverse(a);
    SelfInverse(b);
  }

  lemma StepInjective(a: bv32, b: bv32, x: bv8)
    requires Step(a, x) == Step(b, x)
    ensures a == b
  {
    StepIsByte(a, x);
    StepIsByte(b, x);
    BitsInjective(Xor(a, x as bv32), Xor(b, x as bv32), 8);
    XorInjective(a, b, x as bv32);
  }

  lemma {:induction false} RegisterInjective(a: bv32, b: bv32, data: seq<bv8>)
    requires Register(a, data) == Register(b, data)
    ensures a == b
  {
    if data != [] {
      var init := data[..|data| - 1];
      StepInjective(Register(a, init), Register(b, init), data[|data| - 1]);
      RegisterInjective(a, b, init);
    }
  }

  // ----- damage of up to four bytes in a row -----

  lemma WordInjective(a0: bv8, a1: bv8, a2: bv8, a3: bv8, b0: bv8, b1: bv8, b2: bv8, b3: bv8)
    requires Word(a0, a1, a2, a3) == Word(b0, b1, b2, b3)
    ensures a0 == b0 && a1 == b1 && a2 == b2 && a3 == b3
  {
  }

  lemma FourRegister(l: bv32, a: seq<bv8>)
    requires |a| == 4
    ensures Register(l, a) == Bits(Xor(l, WordAt(a, 0)), 32)
  {
    RegisterWord(l, a, 0);
    assert a[..4] == a && a[..0] == [];
  }

  lemma WordsDiffer(l: bv32, a: bv32, b: bv32)
    requires Bits(Xor(l, a), 32) == Bits(Xor(l, b), 32)
    ensures a == b
  {
    BitsInjective(Xor(l, a), Xor(l, b), 32);
    Comm(l, a);
    Comm(l, b);
    XorInjective(a, b, l);
  }

  lemma FourInjective(l: bv32, a: seq<bv8>, b: seq<bv8>)
    requires |a| == |b| == 4 && Register(l, a) == Register(l, b)
    ensures a == b
  {
    FourRegister(l, a);
    FourRegister(l, b);
    WordsDiffer(l, WordAt(a, 0), WordAt(b, 0));
    WordInjective(a[0], a[1], a[2], a[3], b[0], b[1], b[2], b[3]);
  }

  lemma UpToFourInjective(l: bv32, a: seq<bv8>, b: seq<bv8>)
    requires |a| == |b| <= 4 && Register(l, a) == Register(l, b)
    ensures a == b
  {
    var more: seq<bv8> := seq(4 - |a|, _ => 0);
    RegisterAppend(l, a, more);
    RegisterAppend(l, b, more);
    FourInjective(l, a + more, b + more);
    assert (a + more)[..|a|] == a && (b + more)[..|a|] == b;
  }

  /** Two strings that differ, but only within four bytes in a row, have different checksums. */
  lemma BurstDetected(crc: bv32, before: seq<bv8>, a: seq<bv8>, b: seq<bv8>, behind: seq<bv8>)
    requires |a| == |b| <= 4
    ensures ExtendSpec(crc, before + a + behind) == ExtendSpec(crc, before + b + behind) <==> a == b
  {
    var l := Xor(crc, ONES);
    if ExtendSpec(crc, before + a + behind) == ExtendSpec(crc, before + b + behind) {
      XorInjective(Register(l, before + a + behind), Register(l, before + b + behind), ONES);
      RegisterAppend(l, before + a, behind);
      RegisterAppend(l, before + b, behind);
      RegisterInjective(Register(l, before + a), Register(l, before + b), behind);
      RegisterAppend(l, before, a);
      RegisterAppend(l, before, b);
      UpToFourInjective(Register(l, before), a, b);
    }
  }

  // ----- what the reader accepts -----

  /** Of all stored checksums the reader accepts the one that the writer stores, and no other. */
  lemma AcceptsExactly(stored: Bytes, covered: Bytes)
    requires covered != []
    ensures LogChecksum.Accept(stored, covered) <==> stored == LogChecksum.Seal(covered)
  {
    LogChecksum.SealAccepted(covered);
    LogChecksum.SealIs(covered);
    if LogChecksum.Accept(stored, covered) {
      MaskRoundTrip(LogChecksum.LoadWord(stored));
      LogChecksum.WordLoaded(stored);
    }
  }

  lemma BitsAlike(a: Bytes, b: Bytes)
    requires LogChecksum.Bits(a) == LogChecksum.Bits(b)
    ensures a == b
  {
    forall i | 0 <= i < |a| ensures a[i] == b[i] {
      assert LogChecksum.Bits(a)[i] == LogChecksum.Bits(b)[i];
      LogChecksum.FromByteAndBack(a[i]);
      LogChecksum.FromByteAndBack(b[i]);
    }
  }

  lemma BitsConcat(a: Bytes, b: Bytes)
    ensures LogChecksum.Bits(a + b) == LogChecksum.Bits(a) + LogChecksum.Bits(b)
  {
    forall i | 0 <= i < |a| + |b|
      ensures LogChecksum.Bits(a + b)[i] == (LogChecksum.Bits(a) + LogChecksum.Bits(b))[i]
    {
      if i < |a| { LogChecksum.SameByte(a + b, i, a, i); } else { LogChecksum.SameByte(a + b, i, b, i - |a|); }
    }
  }

  lemma SealsDiffer(s: Bytes, t: Bytes)
    requires s != [] && t != []
    ensures LogChecksum.Seal(s) == LogChecksum.Seal(t)
       <==> ExtendSpec(0, LogChecksum.Bits(s)) == ExtendSpec(0, LogChecksum.Bits(t))
  {
    LogChecksum.SealIs(s);
    LogChecksum.SealIs(t);
    LogChecksum.StoredSum(ExtendSpec(0, LogChecksum.Bits(s)));
    LogChecksum.StoredSum(ExtendSpec(0, LogChecksum.Bits(t)));
  }

  /** A sealed piece in which up to four bytes in a row have been changed is rejected. */
  lemma DamageRejected(before: Bytes, a: Bytes, b: Bytes, behind: Bytes)
    requires |a| == |b| <= 4 && a != b
    ensures !LogChecksum.Accept(LogChecksum.Seal(before + a + behind), before + b + behind)
  {
    var s, t := before + a + behind, before + b + behind;
    AcceptsExactly(LogChecksum.Seal(s), t);
    SealsDiffer(s, t);
    BitsConcat(before + a, behind);
    BitsConcat(before + b, behind);
    BitsConcat(before, a);
    BitsConcat(before, b);
    BurstDetected(0, LogChecksum.Bits(before), LogChecksum.Bits(a), LogChecksum.Bits(b), LogChecksum.Bits(behind));
    if LogChecksum.Bits(a) == LogChecksum.Bits(b) { BitsAlike(a, b); }
  }

  /** A piece with kind and payload `covered`, under the checksum of other bytes of the same length. */
  function Damaged(written: Bytes, covered: Bytes): (r: Bytes)
    requires 1 <= |covered| == |written| <= 0x1_0000
    ensures |r| == 6 + |covered|
  {
    LogChecksum.Seal(written) + [(|covered| - 1) % 256, (|covered| - 1) / 256] + covered
  }

  lemma UndamagedIsPiece(kind: byte, payload: Bytes)
    requires |payload| <= 0xffff
    ensures Damaged([kind] + payload, [kind] + payload) == Piece(LogChecksum.Crc(), kind, payload)
  {
  }

  /**
   * The reader gives up the block at such a piece and reports it, whatever stands behind. (A piece of kind zero and no
   * length is taken for a part of the file that was never written, and is not reported.)
   */
  lemma DamagedPieceReported(before: Bytes, a: Bytes, b: Bytes, behind: Bytes, more: Bytes, room: nat)
    requires |a| == |b| <= 4 && a != b && 1 <= |before + b + behind| <= 0x1_0000
    requires 6 + |before + b + behind| <= room <= BLOCK
    requires |before + b + behind| > 1 || (before + b + behind)[0] != 0
    ensures var s := Damaged(before + a + behind, before + b + behind) + more;
      var end := if |s| < room then |s| else room;
      && ReadPhysical(LogChecksum.Crc(), s, room) == Found(Bad, s[end..], room - end, 1)
      && ReadLogical(LogChecksum.Crc(), s, room, false, [])
         == Reporting(ReadLogical(LogChecksum.Crc(), s[end..], room - end, false, []), 1)
  {
    var covered := before + b + behind;
    var piece := Damaged(before + a + behind, covered);
    var s := piece + more;
    DamageRejected(before, a, b, behind);
    DamagedFields(before + a + behind, covered, more);
    assert LengthAt(s) == |covered| - 1 && s[..4] == LogChecksum.Seal(before + a + behind) && s[6..|piece|] == covered;
  }

  lemma DamagedFields(written: Bytes, covered: Bytes, more: Bytes)
    requires 1 <= |covered| == |written| <= 0x1_0000
    ensures var s := Damaged(written, covered) + more;
      && LengthAt(s) == |covered| - 1 && s[..4] == LogChecksum.Seal(written) && s[6..6 + |covered|] == covered
      && s[6] == covered[0]
  {
    var s := Damaged(written, covered) + more;
    assert s[4] == (|covered| - 1) % 256 && s[5] == (|covered| - 1) / 256;
  }

  // ----- known values -----

  function NoBits(n: nat): (r: seq<bv8>)
    ensures |r| == n
  {
    seq(n, _ => 0)
  }

  /** One bit, written out. */
  function Once(l: bv32): bv32 {
    if l & 1 == 1 then (l >> 1) ^ 0x82f63b78 else l >> 1
  }

  function Eight(l: bv32): bv32 {
    Once(Once(Once(Once(Once(Once(Once(Once(l))))))))
  }

  lemma {:induction false} OnceIs(l: bv32)
    ensures Bit(l) == Once(l)
  {
    TopBit(l);
  }

  lemma EightIs(l: bv32)
    ensures Byte(l) == Eight(l)
  {
    var l2, l4, l6 := Once(Once(l)), Once(Once(Once(Once(l)))), Once(Once(Once(Once(Once(Once(l))))));
    TwoBits(l);
    TwoBits(l2);
    TwoBits(l4);
    TwoBits(l6);
    BitsTwice(l, 2, 2);
    BitsTwice(l, 4, 2);
    BitsTwice(l, 6, 2);
  }

  lemma TwoBits(l: bv32)
    ensures Bits(l, 2) == Once(Once(l))
  {
    assert Bits(l, 1) == Bit(Bits(l, 0));
    OnceIs(l);
    OnceIs(Once(l));
  }

  lemma OneMore(n: nat, c: bv32, d: bv32)
    requires Register(ONES, NoBits(n)) == c && Eight(c) == d
    ensures Register(ONES, NoBits(n + 1)) == d
  {
    assert NoBits(n + 1)[..n] == NoBits(n);
    StepIsByte(c, 0);
    SelfInverse(c);
    EightIs(c);
  }

  lemma Zeros8()
    ensures Register(ONES, NoBits(8)) == 0x73d74d75
  {
    OneMore(0, 0xffffffff, 0xad82acae);
    OneMore(1, 0xad82acae, 0x0e9e882d);
    OneMore(2, 0x0e9e882d, 0x9f9b5c85);
    OneMore(3, 0x9f9b5c85, 0xb798b438);
    OneMore(4, 0xb798b438, 0xba8d89ca);
    OneMore(5, 0xba8d89ca, 0xa8d58375);
    OneMore(6, 0xa8d58375, 0x44c19592);
    OneMore(7, 0x44c19592, 0x73d74d75);
  }

  lemma Zeros16()
    ensures Register(ONES, NoBits(16)) == 0xbd8f6515
  {
    Zeros8();
    OneMore(8, 0x73d74d75, 0x441a975c);
    OneMore(9, 0x441a975c, 0x1c220f94);
    OneMore(10, 0x1c220f94, 0x552e4907);
    OneMore(11, 0x552e4907, 0xd49f4aa2);
    OneMore(12, 0xd49f4aa2, 0x43a45a1b);
    OneMore(13, 0x43a45a1b, 0x8994c80e);
    OneMore(14, 0x8994c80e, 0xacf12bef);
    OneMore(15, 0xacf12bef, 0xbd8f6515);
  }

  lemma Zeros24()
    ensures Register(ONES, NoBits(24)) == 0x7b041311
  {
    Zeros16();
    OneMore(16, 0xbd8f6515, 0x25125c16);
    OneMore(17, 0x25125c16, 0x36da32db);
    OneMore(18, 0x36da32db, 0x4a6c90a2);
    OneMore(19, 0x4a6c90a2, 0x433aa9c1);
    OneMore(20, 0x433aa9c1, 0x31a59f6e);
    OneMore(21, 0x31a59f6e, 0xcd8f89da);
    OneMore(22, 0xcd8f89da, 0xb8fc461a);
    OneMore(23, 0xb8fc461a, 0x7b041311);
  }

  lemma Zeros32()
    ensures Register(ONES, NoBits(32)) == 0x756ec955
  {
    Zeros24();
    OneMore(24, 0x7b041311, 0xe24e407f);
    OneMore(25, 0xe24e407f, 0x2f692669);
    OneMore(26, 0x2f692669, 0x195b2188);
    OneMore(27, 0x195b2188, 0x08363896);
    OneMore(28, 0x08363896, 0xb4012dc7);
    OneMore(29, 0xb4012dc7, 0x17f34302);
    OneMore(30, 0x17f34302, 0xe12c83b4);
    OneMore(31, 0xe12c83b4, 0x756ec955);
  }

  /** The first example of section B.4 of RFC 3720, and how its checksum is masked and stored. */
  lemma KnownChecksum()
    ensures ExtendSpec(0, NoBits(32)) == 0x8a9136aa && Mask(0x8a9136aa) == 0x0fd7fffa
    ensures LogChecksum.StoredBytes(0x8a9136aa) == [0xfa, 0xff, 0xd7, 0x0f]
  {
    Zeros32();
    SelfInverse(ONES);
  }
}
