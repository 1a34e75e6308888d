/** The encoder as it runs, on streams that write or only count (nanopb pb_encode.c). */
module ProtoEncoder {
  import opened Keys
  import opened Coding
  import opened Descriptors
  import opened ProtoScalars
  import opened ProtoWire

  /** A stream without a callback only counts. */
  datatype Out = Out(sizing: bool, maxSize: nat, written: nat, bytes: Bytes)

  predicate Consistent(o: Out) {
    if o.sizing then o.bytes == [] else o.written == |o.bytes| <= o.maxSize
  }

  /**
   * From `a` to `b` all of `bytes` has been emitted, or the stream was too short for it and an initial part
   * of it has been.
   */
  ghost predicate Emitted(a: Out, b: Out, bytes: Bytes, ok: bool) {
    && a.sizing == b.sizing && a.maxSize == b.maxSize && Consistent(a) && Consistent(b)
    && (if a.sizing then ok && b.written == a.written + |bytes|
        else
          && (ok <==> a.written + |bytes| <= a.maxSize)
          && (if ok then b.bytes == a.bytes + bytes else a.bytes <= b.bytes <= a.bytes + bytes))
  }

  lemma EmittedThen(a: Out, b: Out, c: Out, x: Bytes, y: Bytes, ok: bool)
    requires Emitted(a, b, x, true) && Emitted(b, c, y, ok)
    ensures Emitted(a, c, x + y, ok)
  {
    assert (a.bytes + x) + y == a.bytes + (x + y);
  }

  lemma EmittedStops(a: Out, b: Out, x: Bytes, y: Bytes)
    requires Emitted(a, b, x, false)
    ensures Emitted(a, b, x + y, false)
  {
    assert (a.bytes + x) + y == a.bytes + (x + y);
  }

  lemma EmittedNothing(a: Out)
    requires Consistent(a)
    ensures Emitted(a, a, [], true)
  {
    assert a.bytes + [] == a.bytes;
  }

  class OStream {
    const sizing: bool
    const maxSize: nat
    var written: nat
    var bytes: Bytes

    ghost function State(): Out
      reads this
    {
      Out(sizing, maxSize, written, bytes)
    }

    constructor Sizing()
      ensures State() == Out(true, 0, 0, [])
    {
      sizing, maxSize, written, bytes := true, 0, 0, [];
    }

    constructor ToBuffer(size: nat)
      ensures State() == Out(false, size, 0, [])
    {
      sizing, maxSize, written, bytes := false, size, 0, [];
    }

    /** pb_write */
    method Write(buf: Bytes) returns (ok: bool)
      requires Consistent(State())
      modifies this
      ensures Emitted(old(State()), State(), buf, ok)
    {
      if !sizing {
        if written + |buf| > maxSize {
          return false;
        }
        bytes := bytes + buf;
      }
      written := written + |buf|;
      return true;
    }

    /** pb_write without data, on a stream that only counts. */
    method Count(ghost data: Bytes, size: nat) returns (ok: bool)
      requires Consistent(State()) && sizing && size == |data|
      modifies this
      ensures Emitted(old(State()), State(), data, ok)
    {
      written := written + size;
      return true;
    }
  }

  // ----- scalars -----

  /** pb_encode_varint */
  method EncodeVarint(stream: OStream, value: nat) returns (ok: bool)
    requires Consistent(stream.State())
    modifies stream
    ensures Emitted(old(stream.State()), stream.State(), Varint(value), ok)
  {
    if value <= 0x7f {
      ok := stream.Write([value]);
      return;
    }
    var buffer := VarintBytes(value);
    ok := stream.Write(buffer);
  }

  /** Seven bits at a time, each with the continuation bit; then the last one is cleared. */
  method VarintBytes(value: nat) returns (buffer: Bytes)
    requires value > 0x7f
    ensures buffer == Varint(value)
  {
    buffer := [];
    var v := value;
    while v != 0
      invariant v == 0 ==> buffer != [] && buffer[|buffer| - 1] >= 128
      invariant v == 0 ==> buffer[..|buffer| - 1] + [buffer[|buffer| - 1] - 128] == Varint(value)
      invariant v != 0 ==> buffer + Varint(v) == Varint(value)
    {
      if v / 128 != 0 {
        assert buffer + Varint(v) == (buffer + [v % 128 + 128]) + Varint(v / 128);
      } else {
        assert (buffer + [v % 128 + 128])[..|buffer|] == buffer;
      }
      buffer := buffer + [v % 128 + 128];
      v := v / 128;
    }
    buffer := buffer[..|buffer| - 1] + [buffer[|buffer| - 1] - 128];
  }

  /** pb_encode_string */
  method EncodeString(stream: OStream, data: Bytes) returns (ok: bool)
    requires Consistent(stream.State())
    modifies stream
    ensures Emitted(old(stream.State()), stream.State(), Prefixed(data), ok)
  {
    ghost var before := stream.State();
    ok := EncodeVarint(stream, |data|);
    if !ok {
      EmittedStops(before, stream.State(), Varint(|data|), data);
      return;
    }
    ghost var between := stream.State();
    ok := stream.Write(data);
    EmittedThen(before, between, stream.State(), Varint(|data|), data, ok);
  }

  method EncodeTag(stream: OStream, wireType: nat, tag: nat) returns (ok: bool)
    requires Consistent(stream.State())
    modifies stream
    ensures Emitted(old(stream.State()), stream.State(), TagBytes(wireType, tag), ok)
  {
    ok := EncodeVarint(stream, tag * 8 + wireType);
  }

  /** The integer encoders; a size that is none of an integer is an error, and nothing is written. */
  method EncodeInt(stream: OStream, k: FieldType, n: int) returns (ok: bool)
    requires Consistent(stream.State()) && Packable(k)
    modifies stream
    ensures TypeOk(k) ==> Emitted(old(stream.State()), stream.State(), EncodeScalar(k, n), ok)
    ensures !TypeOk(k) ==> !ok && stream.State() == old(stream.State())
  {
    if !k.Fixed32? && !k.Fixed64? && !IntSize(k.size) {
      return false; // invalid data_size
    }
    match k
    case SignedInt(_) => ok := EncodeVarint(stream, ToUnsigned(n));
    case UnsignedInt(_) => ok := EncodeVarint(stream, ToUnsigned(n));
    case ZigzagInt(_) => ok := EncodeVarint(stream, Zigzag(n));
    case Fixed32 => ok := stream.Write(Fixed(ToUnsigned(n), 4));
    case Fixed64 => ok := stream.Write(Fixed(ToUnsigned(n), 8));
  }

  // ----- arrays -----

  lemma {:induction false} PackedLength(k: FieldType, items: seq<Value>)
    requires (k.Fixed32? || k.Fixed64?) && forall i :: 0 <= i < |items| ==> items[i].Int?
    ensures |EncodePacked(k, items)| == (if k.Fixed32? then 4 else 8) * |items|
  {
    if items != [] { PackedLength(k, items[1..]); }
  }

  lemma {:induction false} PackedSplit(k: FieldType, items: seq<Value>, i: nat)
    requires i <= |items|
    ensures EncodePacked(k, items) == EncodePacked(k, items[..i]) + EncodePacked(k, items[i..])
    decreases i
  {
    if i == 0 {
      assert items[0..] == items && items[..0] == [];
    } else {
      PackedSplit(k, items[1..], i - 1);
      assert items[1..][..i - 1] == items[..i][1..] && items[1..][i - 1..] == items[i..];
      Regroup(EncodeValue(k, items[0]), EncodePacked(k, items[..i][1..]), EncodePacked(k, items[i..]));
    }
  }

  lemma {:induction false} TaggedSplit(f: Field, items: seq<Value>, i: nat)
    requires i <= |items|
    ensures EncodeTagged(f, items) == EncodeTagged(f, items[..i]) + EncodeTagged(f, items[i..])
    decreases i
  {
    if i == 0 {
      assert items[0..] == items && items[..0] == [];
    } else {
      TaggedSplit(f, items[1..], i - 1);
      assert items[1..][..i - 1] == items[..i][1..] && items[1..][i - 1..] == items[i..];
      var tag, v, a, b :=
          TagBytes(WireType(f.kind), f.tag), EncodeValue(f.kind, items[0]), EncodeTagged(f, items[..i][1..]),
          EncodeTagged(f, items[i..]);
      Regroup(v, a, b);
      Regroup(tag, v + a, b);
    }
  }

  /** One more item of an array, of which `x` has been emitted and `z` is still to come. */
  lemma EmittedItem(a: Out, b: Out, c: Out, x: Bytes, y: Bytes, z: Bytes, ok: bool)
    requires Emitted(a, b, x, true) && Emitted(b, c, y, ok)
    ensures ok ==> Emitted(a, c, x + y, true)
    ensures !ok ==> Emitted(a, c, x + (y + z), false)
  {
    EmittedThen(a, b, c, x, y, ok);
    if !ok {
      EmittedStops(a, c, x + y, z);
      Regroup(x, y, z);
    }
  }

  method EncodePackedItems(stream: OStream, k: FieldType, items: seq<Value>) returns (ok: bool)
    requires Consistent(stream.State()) && Packable(k) && TypeOk(k)
    requires forall i :: 0 <= i < |items| ==> items[i].Int?
    modifies stream
    ensures Emitted(old(stream.State()), stream.State(), EncodePacked(k, items), ok)
  {
    EmittedNothing(stream.State());
    ok := true;
    for i := 0 to |items|
      invariant Emitted(old(stream.State()), stream.State(), EncodePacked(k, items[..i]), true)
    {
      ghost var before := stream.State();
      PackedAt(k, items, i);
      ok := EncodeInt(stream, k, items[i].n);
      EmittedItem(old(stream.State()), before, stream.State(), EncodePacked(k, items[..i]), EncodeValue(k, items[i]),
          EncodePacked(k, items[i + 1..]), ok);
      if !ok { return; }
    }
    assert items[..|items|] == items;
  }

  /** The packed items around the next one. */
  lemma PackedAt(k: FieldType, items: seq<Value>, i: nat)
    requires i < |items|
    ensures EncodePacked(k, items[..i + 1]) == EncodePacked(k, items[..i]) + EncodeValue(k, items[i])
    ensures EncodePacked(k, items)
         == EncodePacked(k, items[..i]) + (EncodeValue(k, items[i]) + EncodePacked(k, items[i + 1..]))
  {
    PackedSplit(k, items, i);
    PackedSplit(k, items[..i + 1], i);
    assert items[..i + 1][..i] == items[..i] && items[..i + 1][i..] == [items[i]];
    OnePacked(k, items, i);
  }

  lemma OnePacked(k: FieldType, items: seq<Value>, i: nat)
    requires i < |items|
    ensures EncodePacked(k, [items[i]]) == EncodeValue(k, items[i])
    ensures EncodePacked(k, items[i..]) == EncodeValue(k, items[i]) + EncodePacked(k, items[i + 1..])
  {
    assert [items[i]][1..] == [] && items[i..][1..] == items[i + 1..];
    assert EncodeValue(k, items[i]) + [] == EncodeValue(k, items[i]);
  }

  /** The total size of a packed array. */
  method PackedSize(k: FieldType, items: seq<Value>) returns (size: nat)
    requires Packable(k) && TypeOk(k) && forall i :: 0 <= i < |items| ==> items[i].Int?
    ensures size == |EncodePacked(k, items)|
  {
    if k.Fixed32? {
      PackedLength(k, items);
      size := 4 * |items|;
    } else if k.Fixed64? {
      PackedLength(k, items);
      size := 8 * |items|;
    } else {
      var sizestream := new OStream.Sizing();
      var ok := EncodePackedItems(sizestream, k, items);
      size := sizestream.written;
    }
  }

  lemma HeldSize(k: FieldType, v: Value)
    requires Packable(k) && ValueHeld(k, v)
    ensures TypeOk(k)
  {
  }

  method EncodePackedArray(stream: OStream, f: Field, items: seq<Value>) returns (ok: bool)
    requires Consistent(stream.State()) && Packable(f.kind) && TypeOk(f.kind)
    requires forall i :: 0 <= i < |items| ==> items[i].Int?
    modifies stream
    ensures Emitted(old(stream.State()), stream.State(),
        TagBytes(WT_STRING, f.tag) + Prefixed(EncodePacked(f.kind, items)), ok)
  {
    ghost var s0, tag, data := stream.State(), TagBytes(WT_STRING, f.tag), EncodePacked(f.kind, items);
    ok := EncodeTag(stream, WT_STRING, f.tag);
    if !ok {
      EmittedStops(s0, stream.State(), tag, Prefixed(data));
      return;
    }
    ghost var s1 := stream.State();
    var size := PackedSize(f.kind, items);
    ok := EncodeVarint(stream, size);
    if !ok {
      EmittedStops(s1, stream.State(), Varint(size), data);
      EmittedThen(s0, s1, stream.State(), tag, Prefixed(data), false);
      return;
    }
    ghost var s2 := stream.State();
    if stream.sizing {
      ok := stream.Count(data, size);
    } else {
      ok := EncodePackedItems(stream, f.kind, items);
    }
    EmittedThen(s1, s2, stream.State(), Varint(size), data, ok);
    EmittedThen(s0, s1, stream.State(), tag, Prefixed(data), ok);
  }

  // ----- fields and messages -----

  /** The field encoders. */
  method EncodeAny(stream: OStream, k: FieldType, v: Value) returns (ok: bool)
    requires Consistent(stream.State()) && ValueHeld(k, v)
    modifies stream
    ensures Emitted(old(stream.State()), stream.State(), EncodeValue(k, v), ok)
    decreases k, 1
  {
    match k
    case BytesUpTo(_) => ok := EncodeString(stream, v.data);
    case StringIn(size) =>
      var n := StringLength(v.data, size);
      assert v.data[..n] == v.data;
      ok := EncodeString(stream, v.data[..n]);
    case FixedBytes(_) => ok := EncodeString(stream, v.data);
    case Submessage(desc) => ok := EncodeSubmessage(stream, desc, v.slots);
    case _ => ok := EncodeInt(stream, k, v.n);
  }

  /** The loop that looks for the terminator; the field holds the string and then zeros, if there is room for any. */
  method StringLength(data: Bytes, maxSize: nat) returns (size: nat)
    requires |data| <= maxSize && forall i :: 0 <= i < |data| ==> data[i] != 0
    ensures size == |data|
  {
    size := 0;
    while size < maxSize && (if size < |data| then data[size] else 0) != 0
      invariant size <= |data|
    {
      size := size + 1;
    }
  }

  /** pb_encode_submessage: a first pass counts, a second one writes exactly as much. */
  method EncodeSubmessage(stream: OStream, desc: Descriptor, slots: seq<Slot>) returns (ok: bool)
    requires Consistent(stream.State()) && MessageHeld(desc, slots)
    modifies stream
    ensures Emitted(old(stream.State()), stream.State(), Prefixed(Encode(desc, slots)), ok)
    decreases desc, 3
  {
    ghost var s0, body := stream.State(), Encode(desc, slots);
    var substream := new OStream.Sizing();
    ok := EncodeMessage(substream, desc, slots);
    var size := substream.written;
    ok := EncodeVarint(stream, size);
    if !ok {
      EmittedStops(s0, stream.State(), Varint(size), body);
      return;
    }
    ghost var s1 := stream.State();
    if stream.sizing {
      ok := stream.Count(body, size);
      EmittedThen(s0, s1, stream.State(), Varint(size), body, ok);
      return;
    }
    if stream.written + size > stream.maxSize {
      CutShort(s1, body);
      EmittedThen(s0, s1, s1, Varint(size), body, false);
      return false;
    }
    substream := new OStream.ToBuffer(size);
    ok := EncodeMessage(substream, desc, slots);
    stream.written := stream.written + substream.written;
    stream.bytes := stream.bytes + substream.bytes;
    assert substream.written == size && substream.bytes == body;
    EmittedThen(s0, s1, stream.State(), Varint(size), body, true);
    if substream.written != size {
      ok := false; // submsg size changed
    }
  }

  /** Nothing has been written yet, and all of it does not fit. */
  lemma CutShort(a: Out, bytes: Bytes)
    requires Consistent(a) && !a.sizing && a.written + |bytes| > a.maxSize
    ensures Emitted(a, a, bytes, false)
  {
  }

  method EncodeOneField(stream: OStream, f: Field, v: Value) returns (ok: bool)
    requires Consistent(stream.State()) && ValueHeld(f.kind, v)
    modifies stream
    ensures Emitted(old(stream.State()), stream.State(), EncodeOne(f, v), ok)
    decreases f, 1
  {
    ghost var s0, tag, data := stream.State(), TagBytes(WireType(f.kind), f.tag), EncodeValue(f.kind, v);
    ok := EncodeTag(stream, WireType(f.kind), f.tag);
    if !ok {
      EmittedStops(s0, stream.State(), tag, data);
      return;
    }
    ghost var s1 := stream.State();
    ok := EncodeAny(stream, f.kind, v);
    EmittedThen(s0, s1, stream.State(), tag, data, ok);
  }

  lemma OneTagged(f: Field, items: seq<Value>, i: nat)
    requires i < |items|
    ensures EncodeTagged(f, [items[i]]) == EncodeOne(f, items[i])
    ensures EncodeTagged(f, items[i..]) == EncodeOne(f, items[i]) + EncodeTagged(f, items[i + 1..])
  {
    assert [items[i]][1..] == [] && items[i..][1..] == items[i + 1..];
    assert EncodeValue(f.kind, items[i]) + [] == EncodeValue(f.kind, items[i]);
    Regroup(TagBytes(WireType(f.kind), f.tag), EncodeValue(f.kind, items[i]), EncodeTagged(f, items[i + 1..]));
  }

  method EncodeTaggedItems(stream: OStream, f: Field, items: seq<Value>) returns (ok: bool)
    requires Consistent(stream.State())
    requires forall i :: 0 <= i < |items| ==> ValueHeld(f.kind, items[i])
    modifies stream
    ensures Emitted(old(stream.State()), stream.State(), EncodeTagged(f, items), ok)
    decreases f, 2
  {
    EmittedNothing(stream.State());
    ok := true;
    for i := 0 to |items|
      invariant Emitted(old(stream.State()), stream.State(), EncodeTagged(f, items[..i]), true)
    {
      ghost var before := stream.State();
      TaggedSplit(f, items, i);
      TaggedSplit(f, items[..i + 1], i);
      assert items[..i + 1][..i] == items[..i] && items[..i + 1][i..] == [items[i]];
      OneTagged(f, items, i);
      ok := EncodeOneField(stream, f, items[i]);
      EmittedItem(old(stream.State()), before, stream.State(), EncodeTagged(f, items[..i]), EncodeOne(f, items[i]),
          EncodeTagged(f, items[i + 1..]), ok);
      if !ok { return; }
    }
    assert items[..|items|] == items;
  }

  /** pb_check_proto3_default_value: a value is zero if all fields of it are. */
  method CheckDefault(k: FieldType, v: Value) returns (zero: bool)
    requires ValueHeld(k, v)
    ensures zero == IsZero(k, v)
    decreases k, 0
  {
    match k
    case BytesUpTo(_) => zero := v.data == [];
    case StringIn(_) => zero := v.data == [] || v.data[0] == 0;
    case FixedBytes(size) => zero := size == 0;
    case Submessage(desc) =>
      for i := 0 to |desc.fields|
        invariant forall j :: 0 <= j < i ==> SlotIsZero(desc.fields[j], v.slots[j])
      {
        zero := CheckFieldDefault(desc.fields[i], v.slots[i]);
        if !zero { return; }
      }
      zero := true;
    case _ => zero := v.n == 0;
  }

  method CheckFieldDefault(f: Field, s: Slot) returns (zero: bool)
    requires SlotHeld(f, s)
    ensures zero == SlotIsZero(f, s)
    decreases f, 0
  {
    match f.rule
    case Required => zero := false;
    case Repeated(_, FixedCount(silent)) => zero := s.items in silent;
    case Repeated(_, OwnCount) => zero := s.items == [];
    case OneOf(_) => zero := s.option == None;
    case Optional => zero := s.option == None;
    case Singular => zero := CheckDefault(f.kind, s.value);
  }

  /** encode_basic_field */
  method EncodeBasicField(stream: OStream, f: Field, s: Slot) returns (ok: bool)
    requires Consistent(stream.State()) && SlotHeld(f, s)
    modifies stream
    ensures Emitted(old(stream.State()), stream.State(), EncodeSlot(f, s), ok)
    decreases f, 3
  {
    EmittedNothing(stream.State());
    ok := true;
    match f.rule
    case Required => ok := EncodeOneField(stream, f, s.value);
    case Singular =>
      var zero := CheckDefault(f.kind, s.value);
      if !zero {
        ok := EncodeOneField(stream, f, s.value);
      }
    case Optional =>
      if s.option.Some? {
        ok := EncodeOneField(stream, f, s.option.value);
      }
    case OneOf(_) =>
      if s.option.Some? {
        ok := EncodeOneField(stream, f, s.option.value);
      }
    case Repeated(_, _) =>
      if s.items != [] {
        if Packable(f.kind) {
          HeldSize(f.kind, s.items[0]);
          ok := EncodePackedArray(stream, f, s.items);
        } else {
          ok := EncodeTaggedItems(stream, f, s.items);
        }
      }
  }

  lemma {:induction false} FromSplit(desc: Descriptor, slots: seq<Slot>, i: nat)
    requires i < |desc.fields| == |slots|
    ensures EncodeFrom(desc, slots, i) == EncodeSlot(desc.fields[i], slots[i]) + EncodeFrom(desc, slots, i + 1)
  {
  }

  /** pb_encode: all of the encoding, or as much of it as the stream has room for. */
  method EncodeMessage(stream: OStream, desc: Descriptor, slots: seq<Slot>) returns (ok: bool)
    requires Consistent(stream.State()) && MessageHeld(desc, slots)
    modifies stream
    ensures Emitted(old(stream.State()), stream.State(), Encode(desc, slots), ok)
    decreases desc, 2
  {
    EmittedNothing(stream.State());
    ok := true;
    ghost var done: Bytes := [];
    assert [] + EncodeFrom(desc, slots, 0) == Encode(desc, slots);
    for i := 0 to |desc.fields|
      invariant Emitted(old(stream.State()), stream.State(), done, true)
      invariant done + EncodeFrom(desc, slots, i) == Encode(desc, slots)
    {
      ghost var before, part, rest :=
          stream.State(), EncodeSlot(desc.fields[i], slots[i]), EncodeFrom(desc, slots, i + 1);
      FromSplit(desc, slots, i);
      ok := EncodeBasicField(stream, desc.fields[i], slots[i]);
      EmittedItem(old(stream.State()), before, stream.State(), done, part, rest, ok);
      if !ok { return; }
      Regroup(done, part, rest);
      done := done + part;
    }
    assert done + [] == done;
  }

  /** pb_get_encoded_size */
  method GetEncodedSize(desc: Descriptor, slots: seq<Slot>) returns (size: nat)
    requires MessageHeld(desc, slots)
    ensures size == |Encode(desc, slots)|
  {
    var stream := new OStream.Sizing();
    var ok := EncodeMessage(stream, desc, slots);
    size := stream.written;
  }
}
