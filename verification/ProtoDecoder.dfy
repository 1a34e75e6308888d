/** The decoder as it runs: streams, substreams, the circular field iterator (nanopb pb_decode.c, pb_common.c). */
module ProtoDecoder {
  import opened Keys
  import opened Coding
  import opened Descriptors
  import opened ProtoScalars
  import opened ProtoWire
  import opened LongVarints
  import ProtoRoundTrip

  // ----- streams -----

  class IStream {
    const source: Bytes
    var state: nat
    var bytesLeft: nat

    ghost predicate Valid()
      reads this
    {
      state + bytesLeft <= |source|
    }

    ghost function Left(): (s: Bytes)
      requires Valid()
      reads this
      ensures |s| == bytesLeft
    {
      source[state..state + bytesLeft]
    }

    ghost function End(): nat
      reads this
    {
      state + bytesLeft
    }

    constructor (buf: Bytes)
      ensures Valid() && source == buf && Left() == buf
    {
      source, state, bytesLeft := buf, 0, |buf|;
    }

    /** A copy of a stream, for `size` of its bytes. */
    constructor Limited(parent: IStream, size: nat)
      requires parent.Valid() && size <= parent.bytesLeft
      ensures Valid() && source == parent.source && state == parent.state && bytesLeft == size
      ensures Left() == parent.Left()[..size]
    {
      source, state, bytesLeft := parent.source, parent.state, size;
    }

    /** pb_readbyte */
    method ReadByte() returns (r: Option<byte>)
      requires Valid()
      modifies this
      ensures Valid()
      ensures End() == old(End())
      ensures old(Left()) == [] ==> r == None && bytesLeft == old(bytesLeft)
      ensures old(Left()) != [] ==> r == Some(old(Left())[0]) && Left() == old(Left())[1..]
    {
      if bytesLeft == 0 {
        return None;
      }
      r := Some(source[state]);
      state, bytesLeft := state + 1, bytesLeft - 1;
    }

    /** pb_read */
    method Read(count: nat) returns (r: Option<Bytes>)
      requires Valid()
      modifies this
      ensures Valid()
      ensures End() == old(End())
      ensures count > |old(Left())| ==> r == None && bytesLeft == old(bytesLeft)
      ensures count <= |old(Left())| ==> r == Some(old(Left())[..count]) && Left() == old(Left())[count..]
      ensures count <= |old(Left())| ==> state == old(state) + count && bytesLeft == old(bytesLeft) - count
    {
      if bytesLeft < count {
        return None;
      }
      r := Some(source[state..state + count]);
      assert Left()[..count] == source[state..state + count];
      assert Left()[count..] == source[state + count..state + count + (bytesLeft - count)];
      state, bytesLeft := state + count, bytesLeft - count;
    }
  }

  /** What a decoding method has to leave: the value and the rest of the stream, or an error. */
  ghost predicate Did<T>(spec: Option<(T, Bytes)>, r: Option<T>, left: Bytes) {
    match spec
    case None => r == None
    case Some((v, rest)) => r == Some(v) && left == rest
  }

  // ----- varints -----

  lemma DropOne(s: Bytes, n: nat)
    requires n < |s|
    ensures s[n..][1..] == s[n + 1..]
  {
  }

  /** Seven bits at a time, until a byte without the continuation bit; an error after `maxBytes`. */
  method ReadBits(stream: IStream, maxBytes: nat) returns (r: Option<nat>)
    requires stream.Valid()
    modifies stream
    ensures stream.Valid() && stream.End() == old(stream.End())
    ensures match ReadVarint(old(stream.Left()), maxBytes)
      case None => r == None
      case Some((v, n)) => r == Some(v) && stream.Left() == old(stream.Left())[n..]
  {
    ghost var s := stream.Left();
    assert s[0..] == s;
    var result: nat, shift: nat, used: nat := 0, 1, 0;
    while used < maxBytes
      invariant stream.Valid() && stream.End() == old(stream.End())
      invariant used <= maxBytes && used <= |s| && stream.Left() == s[used..]
      invariant ReadVarint(s, maxBytes) == Resumed(result, shift, used, ReadVarint(s[used..], maxBytes - used))
    {
      var b := stream.ReadByte();
      if b == None {
        return None;
      }
      TakeByte(s, maxBytes, result, shift, used);
      DropOne(s, used);
      if b.value < 128 {
        return Some(result + Shifted(b.value, shift));
      }
      result, shift, used := result + Shifted(b.value - 128, shift), 128 * shift, used + 1;
    }
    return None;
  }

  /** pb_decode_varint; bits beyond the sixty-fourth are lost. */
  method DecodeVarint64(stream: IStream) returns (r: Option<nat>)
    requires stream.Valid()
    modifies stream
    ensures stream.Valid() && stream.End() == old(stream.End())
    ensures Did(DecodeVarint(old(stream.Left())), r, stream.Left())
  {
    var v := ReadBits(stream, 10);
    r := if v == None then None else Some(v.value % TWO_64);
  }

  /** pb_decode_varint32, with its checks for overflow. */
  method DecodeVarint32Bits(stream: IStream) returns (r: Option<nat>)
    requires stream.Valid()
    modifies stream
    ensures stream.Valid() && stream.End() == old(stream.End())
    ensures Did(DecodeVarint32(old(stream.Left())), r, stream.Left())
  {
    ghost var s := stream.Left();
    var b := stream.ReadByte();
    if b == None {
      return None;
    }
    if b.value < 128 {
      return Some(b.value as nat);
    }
    var result: nat, bitpos: nat := b.value - 128, 7;
    ghost var used := 1;
    FirstTaken(s);
    while true
      invariant stream.Valid() && stream.End() == old(stream.End())
      invariant 0 < used <= |s| && stream.Left() == s[used..] && Taken(s, used, result, bitpos)
      decreases |stream.Left()|
    {
      b := stream.ReadByte();
      if b == None {
        NothingMore(s, used, result, bitpos);
        return None;
      }
      OneMore(s, used, result, bitpos);
      if bitpos >= 32 {
        if Overflows(result, b.value, bitpos) {
          return None;
        }
      } else {
        result := TakeBits(result, b.value % 128, bitpos);
      }
      bitpos := (bitpos + 7) % 256;
      used := used + 1;
      if b.value < 128 {
        break;
      }
    }
    r := if bitpos == 35 && b.value % 128 >= 16 then None else Some(result);
  }

  // ----- substreams -----

  /** pb_make_string_substream */
  method MakeSubstream(stream: IStream) returns (r: Option<IStream>)
    requires stream.Valid()
    modifies stream
    ensures stream.Valid() && stream.End() <= old(stream.End())
    ensures match ReadString(old(stream.Left()))
      case None => r == None
      case Some((body, rest)) =>
        && r.Some? && fresh(r.value) && r.value.Valid() && r.value.Left() == body
        && r.value.source == stream.source && r.value.state == stream.state && r.value.bytesLeft == |body|
        && stream.bytesLeft == |rest| && stream.state + |body| + |rest| == old(stream.End())
        && stream.source[stream.state + |body|..stream.state + |body| + |rest|] == rest
  {
    var size := DecodeVarint32Bits(stream);
    if size == None || stream.bytesLeft < size.value {
      return None;
    }
    ghost var left := stream.Left();
    var substream := new IStream.Limited(stream, size.value);
    assert left[size.value..] == stream.source[stream.state + size.value..stream.state + stream.bytesLeft];
    stream.bytesLeft := stream.bytesLeft - size.value;
    r := Some(substream);
  }

  /** pb_close_string_substream: what the substream has left is skipped. */
  method CloseSubstream(stream: IStream, substream: IStream)
    requires stream != substream && substream.Valid() && substream.source == stream.source
    requires substream.End() + stream.bytesLeft <= |stream.source|
    modifies stream, substream
    ensures stream.Valid() && stream.bytesLeft == old(stream.bytesLeft)
    ensures stream.state == old(substream.End())
  {
    if substream.bytesLeft != 0 {
      var skipped := substream.Read(substream.bytesLeft);
    }
    stream.state := substream.state;
  }

  /** A length-prefixed string is read whole. */
  method ReadPrefixedBytes(stream: IStream) returns (r: Option<Bytes>)
    requires stream.Valid()
    modifies stream
    ensures stream.Valid() && stream.End() == old(stream.End()) && Did(ReadString(old(stream.Left())), r, stream.Left())
  {
    var size := DecodeVarint32Bits(stream);
    if size == None {
      return None;
    }
    var data := stream.Read(size.value);
    r := if data == None then None else Some(data.value);
  }

  /** pb_skip_field */
  method Skip(stream: IStream, wireType: nat) returns (ok: bool)
    requires stream.Valid()
    modifies stream
    ensures stream.Valid() && stream.End() == old(stream.End())
    ensures match SkipField(wireType, old(stream.Left()))
      case None => !ok
      case Some(rest) => ok && stream.Left() == rest
  {
    if wireType == WT_VARINT {
      ok := SkipBits(stream);
    } else if wireType == WT_64BIT {
      var r := stream.Read(8);
      ok := r.Some?;
    } else if wireType == WT_STRING {
      var r := ReadPrefixedBytes(stream);
      ok := r.Some?;
    } else if wireType == WT_32BIT {
      var r := stream.Read(4);
      ok := r.Some?;
    } else {
      ok := false;
    }
  }

  /** pb_skip_varint */
  method SkipBits(stream: IStream) returns (ok: bool)
    requires stream.Valid()
    modifies stream
    ensures stream.Valid() && stream.End() == old(stream.End())
    ensures match SkipVarint(old(stream.Left()))
      case None => !ok
      case Some(rest) => ok && stream.Left() == rest
  {
    while true
      invariant stream.Valid() && stream.End() == old(stream.End())
      invariant SkipVarint(old(stream.Left())) == SkipVarint(stream.Left())
      decreases stream.bytesLeft
    {
      var b := stream.ReadByte();
      if b == None {
        return false;
      }
      if b.value < 128 {
        return true;
      }
    }
  }

  // ----- field decoders -----

  method ReadNumber(stream: IStream, n: nat) returns (r: Option<nat>)
    requires stream.Valid() && n > 0
    modifies stream
    ensures stream.Valid() && stream.End() == old(stream.End())
    ensures Did(ReadFixed(old(stream.Left()), n), r, stream.Left())
  {
    var data := stream.Read(n);
    r := if data == None then None else Some(DecodeFixed(data.value));
  }

  method DecodeInt(stream: IStream, k: FieldType) returns (r: Option<Value>)
    requires stream.Valid() && Packable(k)
    modifies stream
    ensures stream.Valid() && stream.End() == old(stream.End())
    ensures Did(DecodeScalar(k, old(stream.Left())), r, stream.Left())
  {
    r := None;
    match k
    case SignedInt(size) =>
      var v := DecodeVarint64(stream);
      if v.Some? && IntSize(size) {
        var svalue := if size == 8 then ToSigned(v.value, 8) else ToSigned(v.value, 4);
        var clamped := ToSigned(ToUnsigned(svalue), size);
        if clamped == svalue { r := Some(Int(svalue)); }
      }
    case UnsignedInt(size) =>
      var v := DecodeVarint64(stream);
      if v.Some? && IntSize(size) {
        var clamped := v.value % Span(size);
        if clamped == v.value { r := Some(Int(v.value)); }
      }
    case ZigzagInt(size) =>
      var v := DecodeVarint64(stream);
      if v.Some? && IntSize(size) {
        var svalue := Unzigzag(v.value);
        var clamped := ToSigned(ToUnsigned(svalue), size);
        if clamped == svalue { r := Some(Int(svalue)); }
      }
    case Fixed32 =>
      var v := ReadNumber(stream, 4);
      if v.Some? { r := Some(Int(v.value)); }
    case Fixed64 =>
      var v := ReadNumber(stream, 8);
      if v.Some? { r := Some(Int(v.value)); }
  }

  method DecodeAny(stream: IStream, k: FieldType, current: Value) returns (r: Option<Value>)
    requires stream.Valid() && TypeOk(k)
    modifies stream
    ensures stream.Valid() && stream.End() <= old(stream.End()) && (r.Some? ==> stream.End() == old(stream.End()))
    ensures Did(DecodeValue(k, old(stream.Left()), current), r, stream.Left())
    decreases k, 1
  {
    match k
    case BytesUpTo(max) =>
      var data := ReadPrefixedBytes(stream);
      r := if data == None || |data.value| > max then None else Some(Raw(data.value));
    case StringIn(size) =>
      var data := ReadPrefixedBytes(stream);
      r := if data == None || |data.value| + 1 > size then None else Some(Raw(data.value));
    case FixedBytes(size) =>
      var data := ReadPrefixedBytes(stream);
      r := if data == None then None
        else if data.value == [] then Some(Raw(Zeros(size)))
        else if |data.value| != size then None
        else Some(Raw(data.value));
    case Submessage(desc) => r := DecodeSubmessage(stream, desc, current);
    case _ => r := DecodeInt(stream, k);
  }

  /** pb_dec_submessage */
  method DecodeSubmessage(stream: IStream, desc: Descriptor, current: Value) returns (r: Option<Value>)
    requires stream.Valid() && DescriptorOk(desc)
    modifies stream
    ensures stream.Valid() && stream.End() <= old(stream.End()) && (r.Some? ==> stream.End() == old(stream.End()))
    ensures Did(DecodeValue(Submessage(desc), old(stream.Left()), current), r, stream.Left())
    decreases desc, 3
  {
    var substream := MakeSubstream(stream);
    if substream == None || !current.Message? || |current.slots| != |desc.fields| {
      return None;
    }
    ghost var body, rest := substream.value.Left(), ReadString(old(stream.Left())).value.1;
    var slots := DecodeNoinit(substream.value, desc, current.slots);
    CloseSubstream(stream, substream.value);
    r := if slots == None then None else Some(Message(slots.value));
    SubmessageIs(desc, old(stream.Left()), current, body, rest, slots);
    if slots != None { assert stream.Left() == rest; }
  }

  lemma SubmessageIs(desc: Descriptor, s: Bytes, current: Value, body: Bytes, rest: Bytes, slots: Option<seq<Slot>>)
    requires ReadString(s) == Some((body, rest)) && current.Message? && |current.slots| == |desc.fields|
    requires slots == DecodeLoop(desc, body, current.slots, Untracked())
    ensures DecodeValue(Submessage(desc), s, current)
         == if slots == None then None else Some((Message(slots.value), rest))
  {
  }

  // ----- the field iterator -----

  /** pb_field_iter_t, over a descriptor that may be searched from any of its fields. */
  class FieldIter {
    const fields: seq<Field>
    var pos: nat
    var requiredFieldIndex: nat

    ghost predicate Valid()
      reads this
    {
      && (if fields == [] then pos == 0 else pos < |fields|)
      && requiredFieldIndex == RequiredBefore(fields, pos)
    }

    /** pb_field_iter_begin */
    constructor (fs: seq<Field>)
      ensures Valid() && fields == fs && pos == 0
    {
      fields, pos, requiredFieldIndex := fs, 0, 0;
    }

    /** pb_field_iter_next: back to the first field after the last one. */
    method Next() returns (more: bool)
      requires Valid()
      modifies this
      ensures Valid()
      ensures more == (old(pos) + 1 < |fields|) && pos == if more then old(pos) + 1 else 0
    {
      if fields == [] {
        return false;
      }
      var required := fields[pos].rule.Required?;
      pos := pos + 1;
      if pos == |fields| {
        pos, requiredFieldIndex := 0, 0;
        return false;
      }
      if required {
        requiredFieldIndex := requiredFieldIndex + 1;
      }
      return true;
    }

    /**
     * pb_field_iter_find: once around, from wherever the last search ended. With no fields there is the end
     * marker, of tag zero.
     */
    method Find(tag: nat) returns (found: bool)
      requires Valid()
      modifies this
      ensures Valid()
      ensures found <==> (fields == [] && tag == 0) || exists i :: 0 <= i < |fields| && fields[i].tag == tag
      ensures found && fields != [] ==> pos < |fields| && fields[pos].tag == tag
    {
      if fields == [] {
        return tag == 0;
      }
      var start := pos;
      ghost var wrapped := false;
      while true
        invariant Valid() && (if wrapped then pos < start else start <= pos)
        invariant forall i :: start <= i < (if wrapped then |fields| else pos) ==> fields[i].tag != tag
        invariant wrapped ==> forall i :: 0 <= i < pos ==> fields[i].tag != tag
        decreases !wrapped, |fields| - pos
      {
        if fields[pos].tag == tag {
          return true;
        }
        var more := Next();
        if !more { wrapped := true; }
        if pos == start {
          return false;
        }
      }
    }
  }

  // ----- messages -----

  method DecodePackedItems(substream: IStream, k: FieldType, items: seq<Value>, max: nat)
    returns (r: Option<seq<Value>>)
    requires substream.Valid() && Packable(k)
    modifies substream
    ensures substream.Valid() && substream.End() == old(substream.End())
    ensures r == DecodePacked(k, old(substream.Left()), items, max)
  {
    var more := items;
    while substream.bytesLeft > 0 && |more| < max
      invariant substream.Valid() && substream.End() == old(substream.End())
      invariant DecodePacked(k, old(substream.Left()), items, max) == DecodePacked(k, substream.Left(), more, max)
      decreases substream.bytesLeft
    {
      ghost var left := substream.Left();
      var v := DecodeInt(substream, k);
      if v == None {
        return None;
      }
      more := more + [v.value];
    }
    if substream.bytesLeft != 0 {
      return None;
    }
    r := Some(more);
  }

  /** fields_seen, one bit for each of the first 64 required fields. */
  ghost predicate Bitmap(bits: seq<bool>, seen: set<nat>) {
    |bits| == MAX_REQUIRED_FIELDS && forall k :: 0 <= k < MAX_REQUIRED_FIELDS ==> (bits[k] <==> k in seen)
  }

  method CheckRequired(iter: FieldIter, bits: seq<bool>, ghost seen: set<nat>) returns (ok: bool)
    requires iter.Valid() && Bitmap(bits, seen)
    modifies iter
    ensures ok <==> AllSeen(iter.fields, seen)
  {
    var count := CountRequired(iter);
    if count > MAX_REQUIRED_FIELDS {
      count := MAX_REQUIRED_FIELDS;
    }
    for i := 0 to count
      invariant forall k :: 0 <= k < i ==> k in seen
    {
      if !bits[i] {
        assert i !in seen;
        return false;
      }
    }
    return true;
  }

  /** The number of required fields, by seeking to the end. */
  method CountRequired(iter: FieldIter) returns (count: nat)
    requires iter.Valid()
    modifies iter
    ensures count == RequiredBefore(iter.fields, |iter.fields|)
  {
    count := iter.requiredFieldIndex;
    var lastRequired := iter.fields != [] && iter.fields[iter.pos].rule.Required?;
    var more := iter.Next();
    while more
      invariant iter.Valid()
      invariant more ==> iter.fields != [] && iter.pos < |iter.fields|
      invariant more ==> RequiredBefore(iter.fields, iter.pos) == count + (if lastRequired then 1 else 0)
      invariant !more ==> RequiredBefore(iter.fields, |iter.fields|) == count + (if lastRequired then 1 else 0)
      decreases more, |iter.fields| - iter.pos
    {
      count := iter.requiredFieldIndex;
      lastRequired := iter.fields[iter.pos].rule.Required?;
      more := iter.Next();
    }
    if lastRequired {
      count := count + 1;
    }
  }

  /** decode_static_field, for the field the iterator has found. */
  method DecodeStaticField(stream: IStream, wireType: nat, desc: Descriptor, i: nat, slots: seq<Slot>)
    returns (r: Option<seq<Slot>>)
    requires stream.Valid() && DescriptorOk(desc) && i < |desc.fields| == |slots|
    modifies stream
    ensures stream.Valid() && stream.End() <= old(stream.End())
    ensures r.Some? ==> stream.End() == old(stream.End()) && |r.value| == |slots|
    ensures Did(DecodeField(desc, i, wireType, old(stream.Left()), slots), r, stream.Left())
    decreases desc, 1
  {
    var f := desc.fields[i];
    match slots[i]
    case One(current) =>
      var v := DecodeAny(stream, f.kind, current);
      r := if v == None then None else Some(slots[i := One(v.value)]);
    case Maybe(o) =>
      var current := if f.rule.Optional? && o.Some? then o.value else Initial(f.kind, f.initial);
      var v := DecodeAny(stream, f.kind, current);
      var cleared := if f.rule.OneOf? then ClearOneof(desc.fields, slots, f.rule) else slots;
      r := if v == None then None else Some(cleared[i := Maybe(Some(v.value))]);
    case Many(items) =>
      var max := if f.rule.Repeated? then f.rule.max else 0;
      if wireType == WT_STRING && Packable(f.kind) {
        r := DecodePackedArray(stream, f.kind, items, max, slots, i);
      } else if |items| >= max {
        r := None;
      } else {
        var v := DecodeAny(stream, f.kind, Initial(f.kind, None));
        r := if v == None then None else Some(slots[i := Many(items + [v.value])]);
      }
  }

  method DecodePackedArray(stream: IStream, k: FieldType, items: seq<Value>, max: nat, slots: seq<Slot>, i: nat)
    returns (r: Option<seq<Slot>>)
    requires stream.Valid() && Packable(k) && i < |slots|
    modifies stream
    ensures stream.Valid() && stream.End() <= old(stream.End())
    ensures r.Some? ==> stream.End() == old(stream.End()) && |r.value| == |slots|
    ensures match ReadString(old(stream.Left()))
      case None => r == None
      case Some((body, rest)) =>
        match DecodePacked(k, body, items, max)
        case None => r == None
        case Some(more) => r == Some(slots[i := Many(more)]) && stream.Left() == rest
  {
    var substream := MakeSubstream(stream);
    if substream == None {
      return None;
    }
    var more := DecodePackedItems(substream.value, k, items, max);
    if more == None {
      return None;
    }
    CloseSubstream(stream, substream.value);
    r := Some(slots[i := Many(more.value)]);
  }

  /** pb_decode_noinit */
  method DecodeNoinit(stream: IStream, desc: Descriptor, slots: seq<Slot>) returns (r: Option<seq<Slot>>)
    requires stream.Valid() && DescriptorOk(desc) && |slots| == |desc.fields|
    modifies stream
    ensures stream.Valid() && stream.End() <= old(stream.End()) && (r.Some? ==> stream.End() == old(stream.End()))
    ensures r == DecodeLoop(desc, old(stream.Left()), slots, Untracked())
    decreases desc, 2
  {
    var dest := slots;
    var bits := seq(MAX_REQUIRED_FIELDS, i => false);
    var counting: Option<nat> := None;
    ghost var seen: set<nat> := {};
    var iter := new FieldIter(desc.fields);
    while stream.bytesLeft != 0
      invariant stream.Valid() && stream.End() == old(stream.End())
      invariant iter.Valid() && iter.fields == desc.fields && |dest| == |slots| && Bitmap(bits, seen)
      invariant DecodeLoop(desc, old(stream.Left()), slots, Untracked())
             == DecodeLoop(desc, stream.Left(), dest, Track(seen, counting))
      decreases stream.bytesLeft
    {
      var key := DecodeVarint32Bits(stream);
      if key == None {
        return None;
      }
      if key.value == 0 {
        break; // a zero byte ends the message
      }
      var tag, wireType := key.value / 8, key.value % 8;
      var found := iter.Find(tag);
      if !found {
        var ok := Skip(stream, wireType);
        if !ok {
          return None;
        }
      } else if desc.fields == [] {
        return None; // the end marker takes a varint of size zero
      } else {
        ProtoRoundTrip.FindIs(desc.fields, iter.pos);
        if IsFixed(desc.fields[iter.pos]) && counting != Some(iter.pos) {
          if !CountDone(desc.fields, dest, counting) {
            return None; // wrong size for fixed count field
          }
          counting := Some(iter.pos);
          dest := dest[iter.pos := Many([])];
        }
        if desc.fields[iter.pos].rule.Required? && iter.requiredFieldIndex < MAX_REQUIRED_FIELDS {
          bits := bits[iter.requiredFieldIndex := true];
        }
        seen := Seen(desc.fields, seen, iter.pos);
        var next := DecodeStaticField(stream, wireType, desc, iter.pos, dest);
        if next == None {
          return None;
        }
        dest := next.value;
      }
    }
    if !CountDone(desc.fields, dest, counting) {
      return None;
    }
    var ok := CheckRequired(iter, bits, seen);
    r := if ok then Some(dest) else None;
  }

  /** pb_decode: defaults first. */
  method DecodeMessage(stream: IStream, desc: Descriptor) returns (r: Option<seq<Slot>>)
    requires stream.Valid() && DescriptorOk(desc)
    modifies stream
    ensures stream.Valid() && r == Decode(desc, old(stream.Left()))
  {
    r := DecodeNoinit(stream, desc, Defaults(desc));
  }
}
