/** Little-endian and variable-length numbers (util/coding.cc). */
module Coding {
  import opened Keys

  const TWO_32: nat := 0x1_0000_0000
  const TWO_64: nat := 0x1_0000_0000_0000_0000

  // ----- byte strings -----

  function Zeros(n: nat): (r: Bytes)
    ensures |r| == n && forall i :: 0 <= i < n ==> r[i] == 0
  {
    seq(n, i => 0)
  }

  lemma Regroup(a: Bytes, b: Bytes, c: Bytes)
    ensures (a + b) + c == a + (b + c)
  {
  }

  // ----- fixed length -----

  /** EncodeFixed32 (n = 4) and EncodeFixed64 (n = 8). */
  function Fixed(v: nat, n: nat): (r: Bytes)
    ensures |r| == n
    decreases n, v
  {
    if n == 0 then [] else [v % 256] + Fixed(v / 256, n - 1)
  }

  function DecodeFixed(s: Bytes): nat {
    if s == [] then 0 else s[0] + 256 * DecodeFixed(s[1..])
  }

  function Power(base: nat, n: nat): (r: nat)
    ensures base > 0 ==> r > 0
  {
    if n == 0 then 1 else base * Power(base, n - 1)
  }

  /** A number survives if it fits; otherwise its low bytes do. */
  lemma {:induction false} FixedRoundTrip(v: nat, n: nat)
    ensures v < Power(256, n) <==> DecodeFixed(Fixed(v, n)) == v
  {
    if n > 0 {
      FixedRoundTrip(v / 256, n - 1);
      assert Fixed(v, n)[1..] == Fixed(v / 256, n - 1);
      assert v / 256 < Power(256, n - 1) <==> v < 256 * Power(256, n - 1);
    } else {
      assert Fixed(v, 0) == [];
    }
  }

  lemma Powers()
    ensures Power(256, 4) == TWO_32 && Power(256, 8) == TWO_64
  {
    assert Power(256, 2) == 0x10000;
    assert Power(256, 4) == 256 * (256 * Power(256, 2));
    assert Power(256, 8) == 256 * (256 * (256 * (256 * Power(256, 4))));
  }

  // ----- variable length -----

  function Varint(v: nat): (r: Bytes)
    ensures r != []
  {
    if v < 128 then [v] else [v % 128 + 128] + Varint(v / 128)
  }

  /** What the decoders read from the front of `s`, in at most `n` bytes: a number and how many bytes it took. */
  function ReadVarint(s: Bytes, n: nat): (r: Option<(nat, nat)>)
    ensures r.Some? ==> 0 < r.value.1 <= n && r.value.1 <= |s|
  {
    if s == [] || n == 0 then None
    else if s[0] < 128 then Some((s[0] as nat, 1))
    else
      match ReadVarint(s[1..], n - 1)
      case None => None
      case Some((v, k)) => Some((s[0] - 128 + 128 * v, k + 1))
  }

  /** The decoder reads back every number whose encoding is no longer than its limit, whatever follows. */
  lemma {:induction false} VarintRoundTrip(v: nat, n: nat, rest: Bytes)
    requires n > 0 && v < Power(128, n)
    ensures ReadVarint(Varint(v) + rest, n) == Some((v, |Varint(v)|)) && |Varint(v)| <= n
  {
    if v >= 128 {
      assert v / 128 < Power(128, n - 1);
      VarintRoundTrip(v / 128, n - 1, rest);
      assert (Varint(v) + rest)[1..] == Varint(v / 128) + rest;
    }
  }

  /** Five bytes are enough for 32 bits and ten for 64. */
  lemma VarintLimits()
    ensures Power(128, 5) >= TWO_32 && Power(128, 10) >= TWO_64
  {
    assert Power(128, 2) == 0x4000;
    assert Power(128, 5) == 128 * (128 * (128 * Power(128, 2)));
    assert Power(128, 10) == 128 * (128 * (128 * (128 * (128 * Power(128, 5)))));
  }

  /** A 32-bit number at the front of a string is read back, and leaves the rest. */
  lemma FrontNumber(s: Bytes, v: nat, rest: Bytes)
    requires v < TWO_32 && s == Varint(v) + rest
    ensures ReadVarint(s, 5) == Some((v, |Varint(v)|)) && s[|Varint(v)|..] == rest
    ensures s[0] < 128 ==> s[0] == v && |Varint(v)| == 1
  {
    VarintLimits();
    VarintRoundTrip(v, 5, rest);
  }

  /** EncodeVarint32, with its five cases. */
  method EncodeVarint32(v: nat) returns (r: Bytes)
    requires v < TWO_32
    ensures r == Varint(v)
  {
    var v7 := v / 128;
    var v14 := v7 / 128;
    var v21 := v14 / 128;
    var v28 := v21 / 128;
    assert v >= 0x80 ==> Varint(v) == [v % 128 + 128] + Varint(v7);
    assert v >= 0x4000 ==> Varint(v7) == [v7 % 128 + 128] + Varint(v14);
    assert v >= 0x20_0000 ==> Varint(v14) == [v14 % 128 + 128] + Varint(v21);
    assert v >= 0x1000_0000 ==> Varint(v21) == [v21 % 128 + 128] + Varint(v28);
    if v < 0x80 {
      r := [v];
    } else if v < 0x4000 {
      r := [v % 128 + 128, v7];
    } else if v < 0x20_0000 {
      r := [v % 128 + 128, v7 % 128 + 128, v14];
    } else if v < 0x1000_0000 {
      r := [v % 128 + 128, v7 % 128 + 128, v14 % 128 + 128, v21];
    } else {
      r := [v % 128 + 128, v7 % 128 + 128, v14 % 128 + 128, v21 % 128 + 128, v28];
    }
  }

  method EncodeVarint64(value: nat) returns (r: Bytes)
    ensures r == Varint(value)
  {
    r := [];
    var v := value;
    while v >= 128
      invariant r + Varint(v) == Varint(value)
    {
      assert r + Varint(v) == (r + [v % 128 + 128]) + Varint(v / 128);
      r := r + [v % 128 + 128];
      v := v / 128;
    }
    r := r + [v];
  }

  method VarintLength(value: nat) returns (n: nat)
    ensures n == |Varint(value)|
  {
    n := 1;
    var v := value;
    while v >= 128
      invariant n - 1 + |Varint(v)| == |Varint(value)|
    {
      v := v / 128;
      n := n + 1;
    }
  }

  /** What a decoder that has `result` from the first `used` bytes makes of the rest. */
  function Resumed(result: nat, shift: nat, used: nat, rest: Option<(nat, nat)>): Option<(nat, nat)> {
    match rest
    case None => None
    case Some((v, n)) => Some((result + shift * v, used + n))
  }

  lemma ResumeNext(result: nat, shift: nat, used: nat, s: Bytes, n: nat)
    requires s != [] && n > 0 && s[0] >= 128
    ensures Resumed(result, shift, used, ReadVarint(s, n))
        == Resumed(result + (s[0] - 128) * shift, 128 * shift, used + 1, ReadVarint(s[1..], n - 1))
  {
    match ReadVarint(s[1..], n - 1) {
      case None =>
      case Some((v, _)) => assert shift * (s[0] - 128 + 128 * v) == (s[0] - 128) * shift + (128 * shift) * v;
    }
  }

  lemma ResumeLast(result: nat, shift: nat, used: nat, s: Bytes, n: nat)
    requires s != [] && n > 0 && s[0] < 128
    ensures Resumed(result, shift, used, ReadVarint(s, n)) == Some((result + s[0] * shift, used + 1))
  {
  }

  /** (byte & 0x7f) << bitpos */
  function Shifted(bits: nat, shift: nat): nat {
    bits * shift
  }

  /** One byte more, after `used` bytes that made `result`. */
  lemma TakeByte(s: Bytes, maxBytes: nat, result: nat, shift: nat, used: nat)
    requires used < maxBytes && used < |s|
    requires ReadVarint(s, maxBytes) == Resumed(result, shift, used, ReadVarint(s[used..], maxBytes - used))
    ensures s[used] >= 128 ==>
              ReadVarint(s, maxBytes)
                  == Resumed(result + Shifted(s[used] - 128, shift), 128 * shift, used + 1,
                  ReadVarint(s[used + 1..], maxBytes - used - 1))
    ensures s[used] < 128 ==> ReadVarint(s, maxBytes) == Some((result + Shifted(s[used], shift), used + 1))
  {
    var left := s[used..];
    assert left[1..] == s[used + 1..] && left[0] == s[used];
    if s[used] >= 128 {
      ResumeNext(result, shift, used, left, maxBytes - used);
    } else {
      ResumeLast(result, shift, used, left, maxBytes - used);
    }
  }

  /**
   * GetVarint32Ptr and GetVarint64Ptr, for the number of bytes either may take; high bits beyond the width
   * are cut off.
   */
  method GetVarintPtr(s: Bytes, p: nat, limit: nat, maxBytes: nat, modulus: nat) returns (r: Option<(nat, nat)>)
    requires p <= limit <= |s| && modulus > 0
    ensures match ReadVarint(s[p..limit], maxBytes)
      case None => r == None
      case Some((v, n)) => r == Some((v % modulus, p + n))
  {
    ghost var t := s[p..limit];
    assert t[0..] == t;
    var result: nat, shift: nat, used: nat := 0, 1, 0;
    while used < maxBytes && p + used < limit
      invariant used <= maxBytes && p + used <= limit
      invariant ReadVarint(t, maxBytes) == Resumed(result, shift, used, ReadVarint(t[used..], maxBytes - used))
    {
      var b := s[p + used];
      TakeByte(t, maxBytes, result, shift, used);
      if b < 128 {
        return Some(((result + Shifted(b, shift)) % modulus, p + used + 1));
      }
      result, shift, used := result + Shifted(b - 128, shift), 128 * shift, used + 1;
    }
    return None;
  }

  // ----- strings with their length -----

  function Prefixed(s: Bytes): Bytes {
    Varint(|s|) + s
  }

  /** GetLengthPrefixedSlice: the string, and what follows it. */
  function ReadPrefixed(s: Bytes): (r: Option<(Bytes, Bytes)>)
    ensures r.Some? ==> |r.value.1| < |s|
  {
    match ReadVarint(s, 5)
    case None => None
    case Some((v, n)) =>
      var size := v % TWO_32;
      if n + size <= |s| then Some((s[n..n + size], s[n + size..])) else None
  }

  lemma PrefixedRoundTrip(s: Bytes, rest: Bytes)
    requires |s| < TWO_32
    ensures ReadPrefixed(Prefixed(s) + rest) == Some((s, rest))
  {
    VarintLimits();
    VarintRoundTrip(|s|, 5, s + rest);
    var all, n := Prefixed(s) + rest, |Varint(|s|)|;
    assert all == Varint(|s|) + (s + rest);
    assert all[n..n + |s|] == s && all[n + |s|..] == rest;
  }

  // ----- consuming a slice -----

  /** GetVarint32: the number, and what follows it. */
  function Get32(s: Bytes): (r: Option<(nat, Bytes)>)
    ensures r.Some? ==> |r.value.1| < |s|
  {
    match ReadVarint(s, 5)
    case None => None
    case Some((v, n)) => Some((v % TWO_32, s[n..]))
  }

  /** GetVarint64 */
  function Get64(s: Bytes): (r: Option<(nat, Bytes)>)
    ensures r.Some? ==> |r.value.1| < |s|
  {
    match ReadVarint(s, 10)
    case None => None
    case Some((v, n)) => Some((v % TWO_64, s[n..]))
  }

  lemma Get32RoundTrip(v: nat, rest: Bytes)
    requires v < TWO_32
    ensures Get32(Varint(v) + rest) == Some((v, rest))
  {
    VarintLimits();
    VarintRoundTrip(v, 5, rest);
  }

  lemma Get64RoundTrip(v: nat, rest: Bytes)
    requires v < TWO_64
    ensures Get64(Varint(v) + rest) == Some((v, rest))
  {
    VarintLimits();
    VarintRoundTrip(v, 10, rest);
  }

  // ----- arrays of fixed-length numbers -----

  function FixedArray(values: seq<nat>): (r: Bytes)
    ensures |r| == 4 * |values|
  {
    if values == [] then [] else FixedArray(values[..|values| - 1]) + Fixed(values[|values| - 1], 4)
  }

  lemma FixedArrayNext(values: seq<nat>, i: nat, word: Bytes, front: Bytes)
    requires i < |values| && word == Fixed(values[i], 4)
    ensures front + FixedArray(values[..i]) + word == front + FixedArray(values[..i + 1])
  {
    assert values[..i + 1][..i] == values[..i];
    Regroup(front, FixedArray(values[..i]), word);
  }

  lemma {:induction false} FixedArrayAt(values: seq<nat>, j: nat)
    requires j < |values| && values[j] < TWO_32
    ensures DecodeFixed(FixedArray(values)[4 * j..4 * j + 4]) == values[j]
  {
    var init := values[..|values| - 1];
    if j < |init| {
      FixedArrayAt(init, j);
      assert FixedArray(values)[4 * j..4 * j + 4] == FixedArray(init)[4 * j..4 * j + 4];
    } else {
      Powers();
      FixedRoundTrip(values[j], 4);
      assert FixedArray(values)[4 * j..4 * j + 4] == Fixed(values[j], 4);
    }
  }

  lemma MiddleSlice(a: Bytes, b: Bytes, c: Bytes, x: nat, y: nat)
    requires x <= y <= |b|
    ensures (a + b + c)[|a| + x..|a| + y] == b[x..y]
  {
  }

  lemma DecodeMiddle(contents: Bytes, a: Bytes, all: Bytes, c: Bytes, x: nat)
    requires contents == a + all + c && x + 4 <= |all|
    ensures DecodeFixed(contents[|a| + x..|a| + x + 4]) == DecodeFixed(all[x..x + 4])
  {
    MiddleSlice(a, all, c, x, x + 4);
  }
}
