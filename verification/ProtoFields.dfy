/**
 * A key tells how long the value behind it is, so that a reader can pass over fields that it does not know
 * (nanopb pb_encode.c, pb_encode_tag_for_field; pb_decode.c, pb_skip_field).
 */
module ProtoFields {
  import opened Keys
  import opened Coding
  import opened Descriptors
  import opened ProtoScalars
  import opened ProtoWire
  import opened ProtoRoundTrip

  // ----- what the wire type says -----

  /** All bytes but the last one say that there is one more. */
  predicate IsVarint(s: Bytes) {
    s != [] && s[|s| - 1] < 128 && forall i :: 0 <= i < |s| - 1 ==> s[i] >= 128
  }

  predicate IsPrefixed(s: Bytes) {
    DecodeVarint32(s).Some? && DecodeVarint32(s).value.0 == |DecodeVarint32(s).value.1|
  }

  /** What may stand behind a key of the wire type: a varint, eight bytes, a string with its length, or four bytes. */
  predicate Fits(wireType: nat, s: Bytes) {
    if wireType == 0 then IsVarint(s)
    else if wireType == 1 then |s| == 8
    else if wireType == 2 then IsPrefixed(s)
    else if wireType == 5 then |s| == 4
    else false
  }

  lemma {:induction false} VarintIs(v: nat)
    ensures IsVarint(Varint(v))
  {
    if v >= 128 {
      VarintIs(v / 128);
      var rest := Varint(v / 128);
      assert forall i :: 0 < i < |rest| + 1 ==> Varint(v)[i] == rest[i - 1];
    }
  }

  lemma PrefixedIs(data: Bytes)
    requires |data| < TWO_32
    ensures IsPrefixed(Prefixed(data))
  {
    Varint32RoundTrip(|data|, data);
  }

  /** The key of a field is eight times its tag and the wire type, and what is written behind it fits the wire type. */
  lemma KeyTellsWidth(f: Field, v: Value)
    requires TypeOk(f.kind) && ValueHeld(f.kind, v) && |EncodeValue(f.kind, v)| < TWO_32
    ensures EncodeOne(f, v) == Varint(8 * f.tag + WireType(f.kind)) + EncodeValue(f.kind, v)
    ensures Fits(WireType(f.kind), EncodeValue(f.kind, v))
    ensures WireType(f.kind) == 1 <==> f.kind.Fixed64?
    ensures WireType(f.kind) == 5 <==> f.kind.Fixed32?
    ensures WireType(f.kind) == 0 <==> f.kind.SignedInt? || f.kind.UnsignedInt? || f.kind.ZigzagInt?
  {
    match f.kind
    case SignedInt(_) => VarintIs(ToUnsigned(v.n));
    case UnsignedInt(_) => VarintIs(ToUnsigned(v.n));
    case ZigzagInt(_) => VarintIs(Zigzag(v.n));
    case Fixed32 =>
    case Fixed64 =>
    case Submessage(desc) => PrefixedIs(EncodeFrom(desc, v.slots, 0));
    case _ => PrefixedIs(v.data);
  }

  // ----- skipping -----

  lemma {:induction false} VarintSkipped(s: Bytes)
    ensures var r := SkipVarint(s);
      r.Some? ==> |r.value| < |s| && s[|s| - |r.value|..] == r.value && IsVarint(s[..|s| - |r.value|])
  {
    if s != [] && s[0] >= 128 {
      VarintSkipped(s[1..]);
      var r := SkipVarint(s[1..]);
      if r.Some? {
        var n := |s| - |r.value|;
        assert s[n..] == s[1..][n - 1..] && s[..n] == [s[0]] + s[1..][..n - 1];
      }
    }
  }

  lemma {:induction false} SkipsVarint(value: Bytes, rest: Bytes)
    requires IsVarint(value)
    ensures SkipVarint(value + rest) == Some(rest)
    decreases |value|
  {
    assert (value + rest)[1..] == value[1..] + rest;
    if |value| == 1 {
      assert value[1..] + rest == rest;
    } else {
      SkipsVarint(value[1..], rest);
    }
  }

  /** Reading a number looks at no more bytes than it takes. */
  lemma {:induction false} VarintLocal(s: Bytes, n: nat, rest: Bytes)
    requires ReadVarint(s, n).Some? || |s| >= n
    ensures ReadVarint(s + rest, n) == ReadVarint(s, n)
  {
    if n > 0 {
      assert (s + rest)[0] == s[0] && (s + rest)[1..] == s[1..] + rest;
      if s[0] >= 128 { VarintLocal(s[1..], n - 1, rest); }
    }
  }

  lemma {:induction false} LongVarintLocal(s: Bytes, result: nat, bitpos: nat, rest: Bytes)
    requires LongVarint(s, result, bitpos).Some?
    ensures LongVarint(s + rest, result, bitpos)
         == Some((LongVarint(s, result, bitpos).value.0, LongVarint(s, result, bitpos).value.1 + rest))
    decreases |s|
  {
    assert (s + rest)[0] == s[0] && (s + rest)[1..] == s[1..] + rest;
    if s[0] >= 128 {
      var result' := if bitpos >= 32 then result else TakeBits(result, s[0] % 128, bitpos);
      LongVarintLocal(s[1..], result', (bitpos + 7) % 256, rest);
    }
  }

  lemma {:induction false} LowBitsLocal(s: Bytes, n: nat, rest: Bytes)
    requires n <= |s|
    ensures LowBits(s + rest, n) == LowBits(s, n)
    decreases n
  {
    if n > 0 {
      assert (s + rest)[0] == s[0] && (s + rest)[1..] == s[1..] + rest;
      LowBitsLocal(s[1..], n - 1, rest);
    }
  }

  lemma Varint32Local(s: Bytes, rest: Bytes)
    requires DecodeVarint32(s).Some?
    ensures DecodeVarint32(s + rest) == Some((DecodeVarint32(s).value.0, DecodeVarint32(s).value.1 + rest))
  {
    VarintLocal(s, 5, rest);
    if ReadVarint(s, 5).Some? {
      var n := ReadVarint(s, 5).value.1;
      assert (s + rest)[n..] == s[n..] + rest;
    } else {
      LowBitsLocal(s, 5, rest);
      assert (s + rest)[5..] == s[5..] + rest;
      LongVarintLocal(s[5..], LowBits(s, 5) % TWO_32, 35, rest);
    }
  }

  lemma {:induction false} LongVarintRest(s: Bytes, result: nat, bitpos: nat)
    ensures var r := LongVarint(s, result, bitpos);
      r.Some? ==> |r.value.1| < |s| && s[|s| - |r.value.1|..] == r.value.1
    decreases |s|
  {
    if s != [] {
      var result' := if bitpos >= 32 then result else TakeBits(result, s[0] % 128, bitpos);
      LongVarintRest(s[1..], result', (bitpos + 7) % 256);
    }
  }

  lemma Varint32Rest(s: Bytes)
    ensures var r := DecodeVarint32(s); r.Some? ==> |r.value.1| < |s| && s[|s| - |r.value.1|..] == r.value.1
  {
    if ReadVarint(s, 5).None? && GoesOn(s, 5) { LongVarintRest(s[5..], LowBits(s, 5) % TWO_32, 35); }
  }

  lemma {:induction false} VarintFront(s: Bytes, n: nat, m: nat)
    requires ReadVarint(s, n).Some? && ReadVarint(s, n).value.1 <= m <= |s|
    ensures ReadVarint(s[..m], n) == ReadVarint(s, n)
  {
    if s[0] >= 128 {
      VarintFront(s[1..], n - 1, m - 1);
      assert s[..m][1..] == s[1..][..m - 1];
    }
  }

  lemma {:induction false} LongVarintFront(s: Bytes, result: nat, bitpos: nat, m: nat)
    requires LongVarint(s, result, bitpos).Some? && |s| - |LongVarint(s, result, bitpos).value.1| <= m <= |s|
    ensures LongVarint(s[..m], result, bitpos)
         == Some((LongVarint(s, result, bitpos).value.0, s[|s| - |LongVarint(s, result, bitpos).value.1|..m]))
    decreases |s|
  {
    var result' := if bitpos >= 32 then result else TakeBits(result, s[0] % 128, bitpos);
    assert s[..m][1..] == s[1..][..m - 1];
    if s[0] >= 128 {
      LongVarintFront(s[1..], result', (bitpos + 7) % 256, m - 1);
      var k := |LongVarint(s, result, bitpos).value.1|;
      assert s[1..][|s| - 1 - k..m - 1] == s[|s| - k..m];
    }
  }

  /** Cut off behind the number, it reads the same. */
  lemma Varint32Front(s: Bytes, m: nat)
    requires DecodeVarint32(s).Some? && |s| - |DecodeVarint32(s).value.1| <= m <= |s|
    ensures DecodeVarint32(s[..m])
         == Some((DecodeVarint32(s).value.0, s[|s| - |DecodeVarint32(s).value.1|..m]))
  {
    if ReadVarint(s, 5).Some? {
      VarintFront(s, 5, m);
      var n := ReadVarint(s, 5).value.1;
      assert s[..m][n..] == s[n..m];
    } else {
      LongVarintRest(s[5..], LowBits(s, 5) % TWO_32, 35);
      LongVarintFront(s[5..], LowBits(s, 5) % TWO_32, 35, m - 5);
      LowBitsLocal(s[..m], 5, s[m..]);
      VarintLocal(s[..m], 5, s[m..]);
      assert s[..m] + s[m..] == s && s[..m][5..] == s[5..][..m - 5];
      var k := |DecodeVarint32(s).value.1|;
      assert s[5..][|s| - 5 - k..m - 5] == s[|s| - k..m];
    }
  }

  /** What ReadString takes is a string with its length. */
  lemma StringTaken(s: Bytes)
    ensures var r := ReadString(s);
      r.Some? ==> s[|s| - |r.value.1|..] == r.value.1 && IsPrefixed(s[..|s| - |r.value.1|])
  {
    var r := ReadString(s);
    if r.Some? {
      var (size, rest) := DecodeVarint32(s).value;
      var m := |s| - |r.value.1|;
      Varint32Rest(s);
      Varint32Front(s, m);
      assert s[|s| - |rest|..][size..] == s[m..];
    }
  }

  lemma StringPassed(value: Bytes, rest: Bytes)
    requires IsPrefixed(value)
    ensures ReadString(value + rest) == Some((DecodeVarint32(value).value.1, rest))
  {
    Varint32Local(value, rest);
    var data := DecodeVarint32(value).value.1;
    assert (data + rest)[..|data|] == data && (data + rest)[|data|..] == rest;
  }

  /** Skipping takes a value that fits the wire type, and of any such value all of it and no more. */
  lemma SkipsExactly(wireType: nat, s: Bytes, value: Bytes, rest: Bytes)
    ensures var r := SkipField(wireType, s);
      r.Some? ==> s[|s| - |r.value|..] == r.value && Fits(wireType, s[..|s| - |r.value|])
    ensures Fits(wireType, value) ==> SkipField(wireType, value + rest) == Some(rest)
  {
    VarintSkipped(s);
    StringTaken(s);
    assert |value| <= |value + rest| && (value + rest)[|value|..] == rest;
    if wireType == 0 && IsVarint(value) {
      SkipsVarint(value, rest);
    } else if wireType == 2 && IsPrefixed(value) {
      StringPassed(value, rest);
    }
  }

  // ----- fields that the reader does not know -----

  /** What a field holds, whether or not its strings have terminators, is passed over behind its key. */
  lemma UnknownOne(desc: Descriptor, f: Field, v: Value, slots: seq<Slot>, t: Track, rest: Bytes)
    requires |slots| == |desc.fields| && FindField(desc.fields, f.tag) == None
    requires 0 < f.tag < 0x2000_0000 && TypeOk(f.kind) && ValueHeld(f.kind, v) && |EncodeValue(f.kind, v)| < TWO_32
    ensures DecodeLoop(desc, EncodeOne(f, v) + rest, slots, t) == DecodeLoop(desc, rest, slots, t)
  {
    KeyTellsWidth(f, v);
    UnknownKey(desc, f.tag, WireType(f.kind), EncodeValue(f.kind, v), slots, t, rest);
  }

  lemma UnknownKey(desc: Descriptor, tag: nat, wireType: nat, value: Bytes, slots: seq<Slot>, t: Track, rest: Bytes)
    requires |slots| == |desc.fields| && FindField(desc.fields, tag) == None && 0 < tag < 0x2000_0000
    requires wireType < 8 && Fits(wireType, value)
    ensures DecodeLoop(desc, (TagBytes(wireType, tag) + value) + rest, slots, t) == DecodeLoop(desc, rest, slots, t)
  {
    Regroup(TagBytes(wireType, tag), value, rest);
    TagRead(wireType, tag, value + rest);
    SkipsExactly(wireType, [], value, rest);
  }

  lemma {:induction false} UnknownItems(desc: Descriptor, f: Field, items: seq<Value>, slots: seq<Slot>, t: Track,
                                        rest: Bytes)
    requires |slots| == |desc.fields| && FindField(desc.fields, f.tag) == None
    requires 0 < f.tag < 0x2000_0000 && TypeOk(f.kind) && |EncodeTagged(f, items)| < TWO_32
    requires forall i :: 0 <= i < |items| ==> ValueHeld(f.kind, items[i])
    ensures DecodeLoop(desc, EncodeTagged(f, items) + rest, slots, t) == DecodeLoop(desc, rest, slots, t)
    decreases |items|
  {
    if items == [] {
      assert [] + rest == rest;
    } else {
      var more := EncodeTagged(f, items[1..]);
      Regroup(TagBytes(WireType(f.kind), f.tag), EncodeValue(f.kind, items[0]), more);
      Regroup(EncodeOne(f, items[0]), more, rest);
      UnknownOne(desc, f, items[0], slots, t, more + rest);
      UnknownItems(desc, f, items[1..], slots, t, rest);
    }
  }

  lemma UnknownSlot(desc: Descriptor, f: Field, s: Slot, slots: seq<Slot>, t: Track, rest: Bytes)
    requires |slots| == |desc.fields| && FindField(desc.fields, f.tag) == None
    requires 0 < f.tag < 0x2000_0000 && TypeOk(f.kind) && SlotHeld(f, s) && |EncodeSlot(f, s)| < TWO_32
    ensures DecodeLoop(desc, EncodeSlot(f, s) + rest, slots, t) == DecodeLoop(desc, rest, slots, t)
  {
    match s
    case One(v) => if LeftOut(f, v) { assert [] + rest == rest; } else { UnknownOne(desc, f, v, slots, t, rest); }
    case Maybe(o) =>
      if o == None { assert [] + rest == rest; } else { UnknownOne(desc, f, o.value, slots, t, rest); }
    case Many(items) =>
      if items == [] {
        assert [] + rest == rest;
      } else if Packable(f.kind) {
        PrefixedIs(EncodePacked(f.kind, items));
        UnknownKey(desc, f.tag, WT_STRING, Prefixed(EncodePacked(f.kind, items)), slots, t, rest);
      } else {
        UnknownItems(desc, f, items, slots, t, rest);
      }
  }
}
