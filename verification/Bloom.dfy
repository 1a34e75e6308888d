/** The Bloom filter (util/bloom.cc), for any hash function. */
module Bloom {
  import opened Keys

  // ----- bits -----

  /** 1 << i */
  function Mask(i: nat): bv8
    requires i < 8
  {
    if i == 0 then 1 else if i == 1 then 2 else if i == 2 then 4 else if i == 3 then 8
    else if i == 4 then 16 else if i == 5 then 32 else if i == 6 then 64 else 128
  }

  lemma OrMask(b: bv8, m: bv8, n: bv8)
    ensures m & n == 0 ==> (b | m) & n == b & n
    ensures m != 0 ==> (b | m) & m != 0
  {
  }

  lemma Masks(i: nat, j: nat)
    requires i < 8 && j < 8
    ensures Mask(i) != 0 && (i != j ==> Mask(i) & Mask(j) == 0)
  {
  }

  predicate IsSet(a: seq<bv8>, p: nat)
    requires p < 8 * |a|
  {
    a[p / 8] & Mask(p % 8) != 0
  }

  function SetBit(a: seq<bv8>, p: nat): (r: seq<bv8>)
    requires p < 8 * |a|
    ensures |r| == |a|
  {
    a[p / 8 := a[p / 8] | Mask(p % 8)]
  }

  lemma SetBitSets(a: seq<bv8>, p: nat, q: nat)
    requires p < 8 * |a| && q < 8 * |a|
    ensures IsSet(SetBit(a, p), q) <==> IsSet(a, q) || p == q
  {
    if p / 8 == q / 8 {
      Masks(p % 8, q % 8);
      OrMask(a[p / 8], Mask(p % 8), Mask(q % 8));
    }
  }

  // ----- probes -----

  type Word = x: int | 0 <= x < 0x1_0000_0000

  /** (h >> 17) | (h << 15) */
  function Delta(h: Word): Word {
    h / 0x2_0000 + h % 0x2_0000 * 0x8000
  }

  /** h += delta, in 32 bits */
  function Add(h: Word, delta: Word): Word {
    (h + delta) % 0x1_0000_0000
  }

  /** The hash after `j` steps of double hashing. */
  function Probe(h: Word, j: nat): Word {
    Stepped(h, Delta(h), j)
  }

  function Stepped(h: Word, delta: Word, j: nat): Word {
    if j == 0 then h else Add(Stepped(h, delta, j - 1), delta)
  }

  /** h % bits */
  function Reduce(h: Word, bits: nat): (r: nat)
    requires bits > 0
    ensures r < bits
  {
    h % bits
  }

  function Spot(h: Word, j: nat, bits: nat): (r: nat)
    requires bits > 0
    ensures r < bits
  {
    Reduce(Probe(h, j), bits)
  }

  /** Rotating right by 17 bits is multiplying by 2 to the 15th, modulo 2 to the 32nd less one. */
  lemma DeltaRotates(h: Word)
    ensures h * 0x8000 == h / 0x2_0000 * 0xffff_ffff + Delta(h)
  {
    assert h == h / 0x2_0000 * 0x2_0000 + h % 0x2_0000;
  }

  lemma AddMore(h: Word, x: nat, y: nat, d: Word, p: Word)
    requires p == (h + x) % 0x1_0000_0000 && y == x + d
    ensures Add(p, d) == (h + y) % 0x1_0000_0000
  {
  }

  function Times(j: nat, d: nat): nat {
    if j == 0 then 0 else Times(j - 1, d) + d
  }

  lemma {:induction false} TimesIs(j: nat, d: nat)
    ensures Times(j, d) == j * d
  {
    if j > 0 {
      TimesIs(j - 1, d);
      OneTimeMore(j, d);
    }
  }

  lemma OneTimeMore(j: nat, d: nat)
    requires j > 0
    ensures (j - 1) * d + d == j * d
  {
  }

  lemma {:induction false} SteppedSum(h: Word, d: Word, j: nat)
    ensures Stepped(h, d, j) == (h + Times(j, d)) % 0x1_0000_0000
  {
    if j > 0 {
      SteppedSum(h, d, j - 1);
      AddMore(h, Times(j - 1, d), Times(j, d), d, Stepped(h, d, j - 1));
    }
  }

  /** Double hashing: probe `j` is the hash and `j` times the rotated hash, in 32 bits. */
  lemma ProbeIs(h: Word, j: nat)
    ensures Probe(h, j) == (h + j * Delta(h)) % 0x1_0000_0000
  {
    SteppedSum(h, Delta(h), j);
    TimesIs(j, Delta(h));
  }

  function SetProbes(a: seq<bv8>, h: Word, k: nat): (r: seq<bv8>)
    requires a != []
    ensures |r| == |a|
  {
    if k == 0 then a else SetBit(SetProbes(a, h, k - 1), Spot(h, k - 1, 8 * |a|))
  }

  function SetKeys(hash: Bytes -> Word, a: seq<bv8>, keys: seq<Bytes>, k: nat): (r: seq<bv8>)
    requires a != []
    ensures |r| == |a|
  {
    if keys == [] then a else SetProbes(SetKeys(hash, a, keys[..|keys| - 1], k), hash(keys[|keys| - 1]), k)
  }

  /** Some key has a probe there. */
  ghost predicate Probed(hash: Bytes -> Word, keys: seq<Bytes>, k: nat, bits: nat, p: nat)
    requires bits > 0
  {
    exists i, j {:trigger Spot(hash(keys[i]), j, bits)} ::
        0 <= i < |keys| && 0 <= j < k && Spot(hash(keys[i]), j, bits) == p
  }

  lemma {:induction false} ProbesSet(a: seq<bv8>, h: Word, k: nat, p: nat)
    requires p < 8 * |a|
    ensures IsSet(SetProbes(a, h, k), p) <==> IsSet(a, p) || exists j :: 0 <= j < k && Spot(h, j, 8 * |a|) == p
  {
    if k > 0 {
      ProbesSet(a, h, k - 1, p);
      SetBitSets(SetProbes(a, h, k - 1), Spot(h, k - 1, 8 * |a|), p);
    }
  }

  /** The bits of a filter are exactly the probed ones. */
  lemma {:induction false} KeysSet(hash: Bytes -> Word, a: seq<bv8>, keys: seq<Bytes>, k: nat, p: nat)
    requires p < 8 * |a|
    ensures IsSet(SetKeys(hash, a, keys, k), p) <==> IsSet(a, p) || Probed(hash, keys, k, 8 * |a|, p)
  {
    if keys != [] {
      var init, last := keys[..|keys| - 1], keys[|keys| - 1];
      var bits := 8 * |a|;
      KeysSet(hash, a, init, k, p);
      ProbesSet(SetKeys(hash, a, init, k), hash(last), k, p);
      if Probed(hash, init, k, bits, p) {
        var i, j :| 0 <= i < |init| && 0 <= j < k && Spot(hash(init[i]), j, bits) == p;
        assert Spot(hash(keys[i]), j, bits) == p;
      }
      if j :| 0 <= j < k && Spot(hash(last), j, bits) == p {
        assert Spot(hash(keys[|keys| - 1]), j, bits) == p;
      }
      if Probed(hash, keys, k, bits, p) {
        var i, j :| 0 <= i < |keys| && 0 <= j < k && Spot(hash(keys[i]), j, bits) == p;
        if i < |init| {
          assert Spot(hash(init[i]), j, bits) == p;
        }
      }
    }
  }

  // ----- filters -----

  function ZeroBits(n: nat): (r: seq<bv8>)
    ensures |r| == n && forall i :: 0 <= i < n ==> r[i] == 0
  {
    seq(n, i => 0)
  }

  /** At least 64 bits, in whole bytes. */
  function FilterBytes(n: nat, bitsPerKey: nat): (r: nat)
    ensures r >= 8 && 8 * r >= n * bitsPerKey
  {
    var bits := n * bitsPerKey;
    ((if bits < 64 then 64 else bits) + 7) / 8
  }

  /**
   * bits_per_key * 0.69, rounded down, within 1 and 30 (below 30 the product is never within rounding of an
   * integer).
   */
  function ProbesFor(bitsPerKey: nat): (k: nat)
    ensures 1 <= k <= 30
  {
    var k := bitsPerKey * 69 / 100;
    if k < 1 then 1 else if k > 30 then 30 else k
  }

  /** The bit array, and the number of probes. */
  function Filter(hash: Bytes -> Word, keys: seq<Bytes>, bitsPerKey: nat): seq<bv8> {
    var k := ProbesFor(bitsPerKey);
    SetKeys(hash, ZeroBits(FilterBytes(|keys|, bitsPerKey)), keys, k) + [k as bv8]
  }

  /**
   * A filter has the fewest bytes that hold 64 bits and so many for each key, and behind them the number of probes,
   * which is 0.69 times the bits for a key, rounded down, within 1 and 30.
   */
  lemma FilterShape(hash: Bytes -> Word, keys: seq<Bytes>, bitsPerKey: nat)
    ensures var filter := Filter(hash, keys, bitsPerKey);
      var n, k := |filter| - 1, ProbeCount(filter[|filter| - 1]);
      && n >= 8 && 8 * n >= |keys| * bitsPerKey && (n > 8 ==> 8 * (n - 1) < |keys| * bitsPerKey)
      && 1 <= k <= 30 && (k > 1 ==> 100 * k <= 69 * bitsPerKey) && (k < 30 ==> 69 * bitsPerKey < 100 * (k + 1))
  {
    CountRoundTrip(ProbesFor(bitsPerKey));
  }

  ghost predicate AllSet(a: seq<bv8>, h: Word, k: nat, bits: nat)
    requires bits == 8 * |a| && bits > 0
  {
    forall j {:trigger Spot(h, j, bits)} :: 0 <= j < k ==> IsSet(a, Spot(h, j, bits))
  }

  function ProbeCount(b: bv8): (r: nat)
    ensures r < 256
  {
    b as nat
  }

  lemma CountRoundTrip(k: nat)
    requires k < 256
    ensures ProbeCount(k as bv8) == k
  {
  }

  ghost predicate MayMatch(hash: Bytes -> Word, key: Bytes, filter: seq<bv8>) {
    var n := |filter| - 1;
    n >= 1 && (ProbeCount(filter[n]) > 30 || AllSet(filter[..n], hash(key), ProbeCount(filter[n]), 8 * n))
  }

  lemma BitIs(hash: Bytes -> Word, keys: seq<Bytes>, n: nat, k: nat, key: Bytes, j: nat)
    requires n > 0 && j < k
    ensures IsSet(SetKeys(hash, ZeroBits(n), keys, k), Spot(hash(key), j, 8 * n))
       <==> Probed(hash, keys, k, 8 * n, Spot(hash(key), j, 8 * n))
    ensures key in keys ==> Probed(hash, keys, k, 8 * n, Spot(hash(key), j, 8 * n))
  {
    var p := Spot(hash(key), j, 8 * n);
    KeysSet(hash, ZeroBits(n), keys, k, p);
    ZeroBit(ZeroBits(n), p);
    if key in keys {
      var i :| 0 <= i < |keys| && keys[i] == key;
      assert Spot(hash(keys[i]), j, 8 * n) == p;
    }
  }

  /**
   * A key matches the filter exactly when each of its probes hits a bit that some key of the filter
   * set; so every key of the filter matches.
   */
  lemma MatchIs(hash: Bytes -> Word, keys: seq<Bytes>, bitsPerKey: nat, key: Bytes)
    ensures var bits, k := 8 * FilterBytes(|keys|, bitsPerKey), ProbesFor(bitsPerKey);
      MayMatch(hash, key, Filter(hash, keys, bitsPerKey))
      <==> forall j {:trigger Spot(hash(key), j, bits)} ::
             0 <= j < k ==> Probed(hash, keys, k, bits, Spot(hash(key), j, bits))
    ensures key in keys ==> MayMatch(hash, key, Filter(hash, keys, bitsPerKey))
  {
    var n, k := FilterBytes(|keys|, bitsPerKey), ProbesFor(bitsPerKey);
    var filter := Filter(hash, keys, bitsPerKey);
    assert filter[..n] == SetKeys(hash, ZeroBits(n), keys, k);
    CountRoundTrip(k);
    forall j | 0 <= j < k
      ensures IsSet(filter[..n], Spot(hash(key), j, 8 * n)) <==> Probed(hash, keys, k, 8 * n, Spot(hash(key), j, 8 * n))
      ensures key in keys ==> Probed(hash, keys, k, 8 * n, Spot(hash(key), j, 8 * n))
    {
      BitIs(hash, keys, n, k, key, j);
    }
  }

  lemma ZeroBit(a: seq<bv8>, p: nat)
    requires p < 8 * |a| && a[p / 8] == 0
    ensures !IsSet(a, p)
  {
    AndZero(Mask(p % 8));
  }

  lemma AndZero(m: bv8)
    ensures 0 & m == 0
  {
  }

  // ----- BloomFilterPolicy -----

  /** CreateFilter: appends the filter of the keys. */
  method CreateFilter(hash: Bytes -> Word, keys: seq<Bytes>, bitsPerKey: nat, dst: seq<bv8>) returns (r: seq<bv8>)
    ensures r == dst + Filter(hash, keys, bitsPerKey)
  {
    var k := ProbesFor(bitsPerKey);
    var bits := |keys| * bitsPerKey;
    if bits < 64 {
      bits := 64;
    }
    var bytes := (bits + 7) / 8;
    bits := bytes * 8;
    var a := new bv8[bytes](i => 0);
    assert a[..] == ZeroBits(FilterBytes(|keys|, bitsPerKey));
    for i := 0 to |keys|
      invariant a[..] == SetKeys(hash, ZeroBits(bytes), keys[..i], k)
    {
      SetProbesInPlace(a, hash(keys[i]), k);
      assert keys[..i + 1][..i] == keys[..i];
    }
    assert keys[..|keys|] == keys;
    r := dst + (a[..] + [k as bv8]);
  }

  method SetBitInPlace(a: array<bv8>, bitpos: nat)
    requires bitpos < 8 * a.Length
    modifies a
    ensures a[..] == SetBit(old(a[..]), bitpos)
  {
    a[bitpos / 8] := a[bitpos / 8] | Mask(bitpos % 8);
  }

  method SetProbesInPlace(a: array<bv8>, hash: Word, k: nat)
    requires a.Length > 0
    modifies a
    ensures a[..] == SetProbes(old(a[..]), hash, k)
  {
    var h := hash;
    var delta := Delta(h);
    var bits := 8 * a.Length;
    for j := 0 to k
      invariant a[..] == SetProbes(old(a[..]), hash, j)
      invariant h == Probe(hash, j)
    {
      var bitpos := Reduce(h, bits);
      SetBitInPlace(a, bitpos);
      h := Add(h, delta);
    }
  }

  /** KeyMayMatch */
  method KeyMayMatch(hash: Bytes -> Word, key: Bytes, filter: seq<bv8>) returns (r: bool)
    ensures r <==> MayMatch(hash, key, filter)
  {
    if |filter| < 2 {
      return false;
    }
    var n := |filter| - 1;
    var k := ProbeCount(filter[n]);
    if k > 30 {
      return true;
    }
    r := TestProbes(filter[..n], hash(key), k);
  }

  method TestProbes(a: seq<bv8>, hash: Word, k: nat) returns (r: bool)
    requires a != []
    ensures r <==> AllSet(a, hash, k, 8 * |a|)
  {
    var h := hash;
    var delta := Delta(h);
    var bits := 8 * |a|;
    for j := 0 to k
      invariant h == Probe(hash, j)
      invariant AllSet(a, hash, j, bits)
    {
      var bitpos := Reduce(h, bits);
      if !IsSet(a, bitpos) {
        assert !IsSet(a, Spot(hash, j, bits));
        return false;
      }
      h := Add(h, delta);
    }
    return true;
  }
}
