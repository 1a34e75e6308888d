/** The 32-bit varints of nanopb, byte by byte (nanopb pb_decode.c): five bytes that fit, or more that extend a sign. */
module LongVarints {
  import opened Keys
  import opened Coding
  import opened ProtoWire

  // ----- signs extended to sixty-four bits -----

  /** The first bytes of a varint hold its low bits, and what follows them is the varint of the others. */
  lemma {:induction false} VarintSplits(low: nat, high: nat, n: nat, rest: Bytes)
    requires low < Power(128, n) && high > 0
    ensures var s := Varint(low + Power(128, n) * high) + rest;
      GoesOn(s, n) && s[n..] == Varint(high) + rest && LowBits(s, n) == low
  {
    if n == 0 {
      assert (Varint(high) + rest)[0..] == Varint(high) + rest;
    } else {
      var p := Power(128, n - 1);
      FirstGroup(low, p, high);
      VarintSplits(low / 128, high, n - 1, rest);
      OneGroup(Varint(low / 128 + p * high) + rest, low, n, Varint(high) + rest);
      FirstByte(low + 128 * p * high, low, low / 128 + p * high, rest);
    }
  }

  lemma FirstByte(v: nat, low: nat, left: nat, rest: Bytes)
    requires v >= 128 && v % 128 == low % 128 && v / 128 == left
    ensures Varint(v) + rest == [low % 128 + 128] + (Varint(left) + rest)
  {
  }

  lemma OneGroup(t: Bytes, low: nat, n: nat, tail: Bytes)
    requires n > 0 && GoesOn(t, n - 1) && t[n - 1..] == tail && LowBits(t, n - 1) == low / 128
    ensures var s := [low % 128 + 128] + t;
      GoesOn(s, n) && s[n..] == tail && LowBits(s, n) == low
  {
    var s := [low % 128 + 128] + t;
    assert s[1..] == t && s[n..] == t[n - 1..];
    forall i | 0 < i < n ensures s[i] >= 128 {
      assert s[i] == t[i - 1];
    }
  }

  lemma FirstGroup(low: nat, p: nat, high: nat)
    requires p > 0 && high > 0
    ensures var w := low + 128 * p * high;
      w >= 128 && w % 128 == low % 128 && w / 128 == low / 128 + p * high
  {
    Multiple(p, high);
    GroupOf(low, p * high);
  }

  lemma Multiple(p: nat, high: nat)
    requires p > 0 && high > 0
    ensures p * high >= 1 && 128 * p * high == 128 * (p * high)
  {
  }

  lemma GroupOf(low: nat, q: nat)
    requires q >= 1
    ensures var w := low + 128 * q;
      w >= 128 && w % 128 == low % 128 && w / 128 == low / 128 + q
  {
  }

  /** A negative number of 32 bits that was extended to 64 bits, and so to ten bytes, reads back as its 32 bits. */
  lemma SignExtensionRead(v: nat, rest: Bytes)
    requires 0x8000_0000 <= v < TWO_32
    ensures DecodeVarint32(Varint(0xffff_ffff_0000_0000 + v) + rest) == Some((v, rest))
  {
    var low: nat := 0x7_0000_0000 + v;
    var s := Varint(0xffff_ffff_0000_0000 + v) + rest;
    FivePower();
    VarintSplits(low, 0x1fff_ffff, 5, rest);
    NoEarlyEnd(s, 5);
    ExtensionRead(s[5..], rest, v);
  }

  lemma FivePower()
    ensures Power(128, 5) == 0x8_0000_0000
  {
    assert Power(128, 2) == 0x4000;
  }

  lemma {:induction false} NoEarlyEnd(s: Bytes, n: nat)
    requires GoesOn(s, n)
    ensures ReadVarint(s, n) == None
  {
    if n > 0 {
      NoEarlyEnd(s[1..], n - 1);
    }
  }

  lemma ExtensionRead(s: Bytes, rest: Bytes, v: nat)
    requires s == Varint(0x1fff_ffff) + rest && 0x8000_0000 <= v < TWO_32
    ensures LongVarint(s, v, 35) == Some((v, rest))
  {
    ExtensionBytes();
    assert s[5..] == rest;
    var t := s[4..];
    assert t[0] == 0x01 && t[1..] == rest;
    assert LongVarint(t, v, 63) == Some((v, rest));
    assert s[3..][1..] == t && LongVarint(s[3..], v, 56) == LongVarint(t, v, 63);
    assert s[2..][1..] == s[3..] && LongVarint(s[2..], v, 49) == LongVarint(s[3..], v, 56);
    assert s[1..][1..] == s[2..] && LongVarint(s[1..], v, 42) == LongVarint(s[2..], v, 49);
  }

  lemma ExtensionBytes()
    ensures Varint(0x1fff_ffff) == [0xff, 0xff, 0xff, 0xff, 0x01]
  {
    assert Varint(1) == [1];
    assert Varint(0xff) == [0xff, 0x01];
    assert Varint(0x7fff) == [0xff, 0xff, 0x01];
    assert Varint(0x3f_ffff) == [0xff, 0xff, 0xff, 0x01];
  }

  // ----- the decoding loop -----

  /** Where the loop stands after `used` bytes. */
  ghost predicate Taken(s: Bytes, used: nat, result: nat, bitpos: nat) {
    && used <= |s|
    && if used < 5 then GoesOn(s, used) && result == LowBits(s, used) && bitpos == 7 * used
       else DecodeVarint32(s) == LongVarint(s[used..], result, bitpos)
  }

  lemma FirstTaken(s: Bytes)
    requires s != [] && s[0] >= 128
    ensures Taken(s, 1, s[0] - 128, 7)
  {
    assert LowBits(s[1..], 0) == 0;
  }

  /** What is read behind `m` bytes that hold `low`, whose weight is below `p`. */
  function Behind(low: nat, p: nat, m: nat, r: Option<(nat, nat)>): Option<(nat, nat)> {
    if r == None then None else Some((low + r.value.0 * p, r.value.1 + m))
  }

  /** Behind bytes that go on, a varint goes on. */
  lemma {:induction false} ReadBehind(s: Bytes, m: nat, n: nat)
    requires GoesOn(s, m) && m <= n
    ensures ReadVarint(s, n) == Behind(LowBits(s, m), Power(128, m), m, ReadVarint(s[m..], n - m))
  {
    if m == 0 {
      assert s[0..] == s;
    } else {
      assert s[1..][m - 1..] == s[m..];
      ReadBehind(s[1..], m - 1, n - 1);
      OneBehind(s, n);
      Nested(s[0] % 128, LowBits(s[1..], m - 1), Power(128, m - 1), m, ReadVarint(s[m..], n - m));
    }
  }

  lemma OneBehind(s: Bytes, n: nat)
    requires n > 0 && s != [] && s[0] >= 128
    ensures var r := ReadVarint(s[1..], n - 1);
      ReadVarint(s, n) == if r == None then None else Some((s[0] % 128 + 128 * r.value.0, r.value.1 + 1))
  {
  }

  lemma Nested(b: nat, low: nat, p: nat, m: nat, r: Option<(nat, nat)>)
    requires m > 0
    ensures var inner := Behind(low, p, m - 1, r);
      Behind(b + 128 * low, 128 * p, m, r)
      == if inner == None then None else Some((b + 128 * inner.value.0, inner.value.1 + 1))
  {
    if r.Some? {
      assert b + 128 * (low + r.value.0 * p) == (b + 128 * low) + r.value.0 * (128 * p);
    }
  }

  lemma NothingMore(s: Bytes, used: nat, result: nat, bitpos: nat)
    requires Taken(s, used, result, bitpos) && used == |s|
    ensures DecodeVarint32(s) == None
  {
    if used < 5 {
      ReadBehind(s, used, 5);
    }
  }

  lemma {:induction false} OrAdds(a: nat, q: nat, p: nat)
    requires a < Power(2, p)
    ensures Or(a, q * Power(2, p)) == a + q * Power(2, p)
  {
    if p > 0 && a > 0 && q > 0 {
      assert q * Power(2, p) == 2 * (q * Power(2, p - 1));
      OrAdds(a / 2, q, p - 1);
    }
  }

  lemma SevenMore(n: nat)
    ensures Power(2, n + 7) == 0x80 * Power(2, n)
  {
    assert Power(2, n + 2) == 2 * Power(2, n + 1) == 4 * Power(2, n);
    assert Power(2, n + 4) == 2 * Power(2, n + 3) == 4 * Power(2, n + 2);
    assert Power(2, n + 6) == 2 * Power(2, n + 5) == 4 * Power(2, n + 4);
  }

  /** The weight of byte `k` of a varint, for the second to the fifth. */
  function Weight(k: nat): nat
    requires 1 <= k <= 4
  {
    if k == 1 then 0x80 else if k == 2 then 0x4000 else if k == 3 then 0x20_0000 else 0x1000_0000
  }

  lemma Weights(k: nat)
    requires 1 <= k <= 4
    ensures Power(2, 7 * k) == Weight(k) == Power(128, k)
  {
    SevenMore(0);
    SevenMore(7);
    SevenMore(14);
    SevenMore(21);
    assert Power(128, 2) == 0x4000;
  }

  lemma BitsTaken(result: nat, bits: nat, bitpos: nat, weight: nat, q: nat)
    requires Power(2, bitpos) == weight && result < weight && bits * weight % TWO_32 == q * weight
    ensures TakeBits(result, bits, bitpos) == result + q * weight
  {
    OrAdds(result, q, bitpos);
  }

  lemma SmallProduct(result: nat, bits: nat, weight: nat)
    requires bits < 128 && weight <= 0x20_0000 && result < weight
    ensures bits * weight % TWO_32 == bits * weight && result + bits * weight < 0x1000_0000
  {
    assert bits * weight <= 127 * weight;
  }

  /** Below the thirty-second bit the groups do not overlap, so that taking one in is adding it. */
  lemma TakeEarly(result: nat, bits: nat, k: nat, weight: nat)
    requires bits < 128 && 1 <= k < 4 && weight == Weight(k) && result < weight
    ensures TakeBits(result, bits, 7 * k) == result + bits * weight < 0x1000_0000
  {
    Weights(k);
    SmallProduct(result, bits, weight);
    BitsTaken(result, bits, 7 * k, weight, bits);
  }

  /** Of the fifth byte only the low half counts. */
  lemma TakeFifth(result: nat, bits: nat)
    requires bits < 128 && result < 0x1000_0000
    ensures TakeBits(result, bits, 28) == (result + bits * 0x1000_0000) % TWO_32
  {
    Weights(4);
    assert bits * 0x1000_0000 == bits / 16 * TWO_32 + bits % 16 * 0x1000_0000;
    BitsTaken(result, bits, 28, 0x1000_0000, bits % 16);
  }

  lemma {:induction false} LowNext(s: Bytes, n: nat)
    requires n < |s|
    ensures LowBits(s, n) < Power(128, n)
    ensures LowBits(s, n + 1) == LowBits(s, n) + s[n] % 128 * Power(128, n)
  {
    if n > 0 {
      LowNext(s[1..], n - 1);
      assert s[n] % 128 * (128 * Power(128, n - 1)) == 128 * (s[n] % 128 * Power(128, n - 1));
    } else {
      assert LowBits(s[1..], 0) == 0;
    }
  }

  lemma LowStep(s: Bytes, k: nat)
    requires 1 <= k <= 4 && k < |s|
    ensures LowBits(s, k) < Weight(k) && LowBits(s, k + 1) == LowBits(s, k) + s[k] % 128 * Weight(k)
  {
    Weights(k);
    LowNext(s, k);
  }

  /** The byte is taken in: what has been taken is a sum, below the thirty-second bit. */
  lemma EarlyTaken(s: Bytes, used: nat, result: nat, result': nat)
    requires 0 < used < 5 && used < |s| && result == LowBits(s, used)
    requires result' == TakeBits(result, s[used] % 128, 7 * used)
    ensures result' == LowBits(s, used + 1) % TWO_32 && (used < 4 ==> result' == LowBits(s, used + 1) < 0x1000_0000)
    ensures LowBits(s, used) < Weight(used) && LowBits(s, used + 1) == LowBits(s, used) + s[used] % 128 * Weight(used)
  {
    LowStep(s, used);
    if used < 4 {
      TakeEarly(result, s[used] % 128, used, Weight(used));
    } else {
      TakeFifth(result, s[used] % 128);
    }
  }

  lemma EarlyMore(s: Bytes, used: nat, result': nat)
    requires 0 < used < 5 && used < |s| && GoesOn(s, used) && s[used] >= 128
    requires result' == LowBits(s, used + 1) % TWO_32 && (used < 4 ==> result' == LowBits(s, used + 1))
    ensures Taken(s, used + 1, result', 7 * used + 7)
  {
    if used == 4 {
      NoEarlyEnd(s, 5);
    }
  }

  lemma EarlyEnd(s: Bytes, used: nat)
    requires 0 < used < 5 && used < |s| && GoesOn(s, used) && s[used] < 128
    ensures ReadVarint(s, 5) == Some((LowBits(s, used) + s[used] * Weight(used), used + 1))
  {
    Weights(used);
    ReadBehind(s, used, 5);
  }

  lemma EarlyLast(s: Bytes, used: nat, result': nat)
    requires 0 < used < 5 && used < |s| && GoesOn(s, used) && s[used] < 128
    requires result' == LowBits(s, used + 1) % TWO_32 && (used < 4 ==> result' == LowBits(s, used + 1))
    requires LowBits(s, used) < Weight(used) && LowBits(s, used + 1) == LowBits(s, used) + s[used] % 128 * Weight(used)
    ensures DecodeVarint32(s) == if used == 4 && s[used] >= 16 then None else Some((result', s[used + 1..]))
  {
    EarlyEnd(s, used);
    EarlyFits(LowBits(s, used), s[used], used, LowBits(s, used + 1));
  }

  /** What has been read fits thirty-two bits unless the fifth byte is too large. */
  lemma EarlyFits(low: nat, b: nat, used: nat, v: nat)
    requires 0 < used < 5 && b < 128 && low < Weight(used) && v == low + b * Weight(used)
    ensures v >= TWO_32 <==> used == 4 && b >= 16
    ensures v < TWO_32 ==> v % TWO_32 == v
  {
  }

  /** What one more byte makes of it. */
  ghost predicate Stepped(s: Bytes, used: nat, result: nat, result': nat, bitpos: nat)
    requires used < |s|
  {
    var b, bitpos' := s[used], (bitpos + 7) % 256;
    if bitpos >= 32 && Overflows(result, b, bitpos) then DecodeVarint32(s) == None
    else if b >= 128 then Taken(s, used + 1, result', bitpos')
    else DecodeVarint32(s) == if bitpos' == 35 && b % 128 >= 16 then None else Some((result', s[used + 1..]))
  }

  lemma LateMore(s: Bytes, used: nat, result: nat, bitpos: nat)
    requires 5 <= used < |s| && Taken(s, used, result, bitpos)
    ensures Stepped(s, used, result, if bitpos >= 32 then result else TakeBits(result, s[used] % 128, bitpos), bitpos)
  {
    assert s[used..][1..] == s[used + 1..];
  }

  /** One round of the loop. */
  lemma OneMore(s: Bytes, used: nat, result: nat, bitpos: nat)
    requires 0 < used < |s| && Taken(s, used, result, bitpos)
    ensures Stepped(s, used, result, if bitpos >= 32 then result else TakeBits(result, s[used] % 128, bitpos), bitpos)
  {
    if used >= 5 {
      LateMore(s, used, result, bitpos);
    } else {
      EarlyStep(s, used, result, TakeBits(result, s[used] % 128, bitpos));
    }
  }

  lemma EarlyStep(s: Bytes, used: nat, result: nat, result': nat)
    requires 0 < used < 5 && used < |s| && GoesOn(s, used) && result == LowBits(s, used)
    requires result' == TakeBits(result, s[used] % 128, 7 * used)
    ensures Stepped(s, used, result, result', 7 * used)
  {
    EarlyTaken(s, used, result, result');
    EarlyStepped(s, used, result, result');
  }

  lemma EarlyStepped(s: Bytes, used: nat, result: nat, result': nat)
    requires 0 < used < 5 && used < |s| && GoesOn(s, used)
    requires result' == LowBits(s, used + 1) % TWO_32 && (used < 4 ==> result' == LowBits(s, used + 1))
    requires LowBits(s, used) < Weight(used) && LowBits(s, used + 1) == LowBits(s, used) + s[used] % 128 * Weight(used)
    ensures Stepped(s, used, result, result', 7 * used)
  {
    assert 7 * used < 32 && (7 * used + 7) % 256 == 7 * (used + 1);
    if s[used] >= 128 {
      EarlyMore(s, used, result');
    } else {
      EarlyLast(s, used, result');
    }
  }
}
