/** Decoding what was encoded rebuilds the message, for any descriptor (nanopb pb_encode.c, pb_decode.c). */
module ProtoRoundTrip {
  import opened Keys
  import opened Coding
  import opened Descriptors
  import opened ProtoScalars
  import opened ProtoWire

  lemma Varint32RoundTrip(v: nat, rest: Bytes)
    requires v < TWO_32
    ensures DecodeVarint32(Varint(v) + rest) == Some((v, rest))
  {
    VarintLimits();
    VarintRoundTrip(v, 5, rest);
    assert (Varint(v) + rest)[|Varint(v)|..] == rest;
  }

  // ----- strings and tags -----

  lemma StringRead(data: Bytes, rest: Bytes)
    requires |data| < TWO_32
    ensures ReadString(Prefixed(data) + rest) == Some((data, rest))
  {
    Regroup(Varint(|data|), data, rest);
    Varint32RoundTrip(|data|, data + rest);
    var s := Prefixed(data) + rest;
    assert s[|Varint(|data|)|..] == data + rest;
    assert (data + rest)[..|data|] == data && (data + rest)[|data|..] == rest;
  }

  lemma TagRead(wireType: nat, tag: nat, rest: Bytes)
    requires wireType < 8 && 0 < tag < 0x2000_0000
    ensures TagBytes(wireType, tag) + rest != []
    ensures DecodeVarint32(TagBytes(wireType, tag) + rest) == Some((tag * 8 + wireType, rest))
    ensures (tag * 8 + wireType) / 8 == tag && (tag * 8 + wireType) % 8 == wireType
  {
    Varint32RoundTrip(tag * 8 + wireType, rest);
  }

  lemma {:induction false} FindIs(fields: seq<Field>, i: nat)
    requires i < |fields| && UniqueTags(fields)
    ensures FindField(fields, fields[i].tag) == Some(i)
    decreases |fields|
  {
    if i < |fields| - 1 {
      FindIs(fields[..|fields| - 1], i);
    }
  }

  /** The loop on a chunk that starts with a field's tag. */
  lemma LoopStep(desc: Descriptor, i: nat, wireType: nat, body: Bytes, slots: seq<Slot>, t: Track, t': Track)
    requires DescriptorOk(desc) && i < |desc.fields| == |slots| && wireType < 8
    requires Enter(desc.fields, slots, t, i) == Some((slots, t'))
    ensures DecodeLoop(desc, TagBytes(wireType, desc.fields[i].tag) + body, slots, t)
         == match DecodeField(desc, i, wireType, body, slots)
            case None => None
            case Some((slots', rest')) => DecodeLoop(desc, rest', slots', Mark(desc.fields, t', i))
  {
    TagRead(wireType, desc.fields[i].tag, body);
    FindIs(desc.fields, i);
  }

  // ----- values -----

  /** The storage a submessage is decoded into holds its defaults. */
  predicate Fresh(k: FieldType, current: Value) {
    k.Submessage? ==> current == Message(Defaults(k.desc))
  }

  lemma {:induction false} ValueRoundTrip(k: FieldType, v: Value, rest: Bytes, current: Value)
    requires TypeOk(k) && ValueHeld(k, v) && ValueReads(k, v) && Fresh(k, current) && |EncodeValue(k, v)| < TWO_32
    ensures DecodeValue(k, EncodeValue(k, v) + rest, current) == Some((KeptValue(k, v), rest))
    decreases k, 2
  {
    match k
    case BytesUpTo(max) => StringRead(v.data, rest);
    case StringIn(size) => StringRead(v.data, rest);
    case FixedBytes(size) =>
      StringRead(v.data, rest);
      if v.data == [] { assert Zeros(size) == []; }
    case Submessage(desc) =>
      var body := Encode(desc, v.slots);
      StringRead(body, rest);
      MessageRoundTrip(desc, v.slots);
    case _ => ScalarRoundTrip(k, v.n, rest);
  }

  lemma {:induction false} PackedRoundTrip(k: FieldType, done: seq<Value>, items: seq<Value>, max: nat)
    requires TypeOk(k) && Packable(k) && |done| + |items| <= max
    requires forall i :: 0 <= i < |items| ==> ValueHeld(k, items[i])
    ensures DecodePacked(k, EncodePacked(k, items), done, max) == Some(done + items)
    decreases |items|
  {
    if items == [] {
      assert done + items == done;
    } else {
      ScalarRoundTrip(k, items[0].n, EncodePacked(k, items[1..]));
      ScalarTakesBytes(k, items[0].n);
      PackedRoundTrip(k, done + [items[0]], items[1..], max);
      DoneGrows(done, items);
    }
  }

  lemma SetTwice(slots: seq<Slot>, i: nat, a: Slot, b: Slot)
    requires i < |slots|
    ensures slots[i := a][i := b] == slots[i := b]
  {
  }

  lemma DoneGrows(done: seq<Value>, items: seq<Value>)
    requires items != []
    ensures (done + [items[0]]) + items[1..] == done + items
  {
  }

  // ----- a message -----

  /** Where decoding stands when the fields before `i` have been read: so much of them as is kept. */
  function Partly(desc: Descriptor, slots: seq<Slot>, i: nat): (r: seq<Slot>)
    requires |slots| == |desc.fields| && i <= |slots|
    ensures |r| == |slots|
  {
    Kept(desc, slots)[..i] + Defaults(desc)[i..]
  }

  lemma PartlyNext(desc: Descriptor, slots: seq<Slot>, i: nat)
    requires |slots| == |desc.fields| && i < |slots|
    ensures Partly(desc, slots, i)[i] == DefaultSlot(desc.fields[i])
    ensures Partly(desc, slots, i)[i := KeptSlot(desc.fields[i], slots[i])] == Partly(desc, slots, i + 1)
  {
  }

  function Range(n: nat): (r: set<nat>)
    ensures forall k :: k in r <==> 0 <= k < n
  {
    if n == 0 then {} else Range(n - 1) + {n - 1}
  }

  /** The required fields before `i` that the bitmap has room for. */
  function SeenBefore(fields: seq<Field>, i: nat): set<nat>
    requires i <= |fields|
  {
    var n := RequiredBefore(fields, i);
    Range(if n < MAX_REQUIRED_FIELDS then n else MAX_REQUIRED_FIELDS)
  }

  /** The last fixed array before `i` that has any items. */
  function LastCounted(fields: seq<Field>, i: nat): (r: Option<nat>)
    requires i <= |fields|
    ensures r.Some? ==> r.value < i && IsFixed(fields[r.value])
  {
    if i == 0 then None
    else if IsFixed(fields[i - 1]) && fields[i - 1].rule.max > 0 then Some(i - 1)
    else LastCounted(fields, i - 1)
  }

  /** What the loop has noted when the fields before `i` have been read. */
  function TrackBefore(fields: seq<Field>, i: nat): Track
    requires i <= |fields|
  {
    Track(SeenBefore(fields, i), LastCounted(fields, i))
  }

  /** The fields of a message, each with all it should have. */
  lemma EntersNext(desc: Descriptor, slots: seq<Slot>, i: nat) returns (t: Track)
    requires MessageHeld(desc, slots) && i < |slots|
    requires IsFixed(desc.fields[i]) ==> desc.fields[i].rule.max > 0
    ensures Enter(desc.fields, Partly(desc, slots, i), TrackBefore(desc.fields, i), i)
         == Some((Partly(desc, slots, i), t))
    ensures Mark(desc.fields, t, i) == TrackBefore(desc.fields, i + 1)
    ensures !desc.fields[i].rule.Required? ==> t == TrackBefore(desc.fields, i + 1)
    ensures IsFixed(desc.fields[i]) ==> t.counting == Some(i)
  {
    var before := Partly(desc, slots, i);
    var last := LastCounted(desc.fields, i);
    PartlyNext(desc, slots, i);
    CountedDone(desc, slots, i);
    t := TrackBefore(desc.fields, i);
    if IsFixed(desc.fields[i]) {
      t := t.(counting := Some(i));
      assert before[i := Many([])] == before;
    }
  }

  lemma CountedDone(desc: Descriptor, slots: seq<Slot>, i: nat)
    requires MessageHeld(desc, slots) && i <= |slots|
    ensures CountDone(desc.fields, Partly(desc, slots, i), LastCounted(desc.fields, i))
  {
    var last := LastCounted(desc.fields, i);
    if last.Some? {
      assert SlotHeld(desc.fields[last.value], slots[last.value]);
      assert Partly(desc, slots, i)[last.value] == KeptSlot(desc.fields[last.value], slots[last.value]);
    }
  }

  lemma SkipNext(fields: seq<Field>, i: nat)
    requires i < |fields| && !fields[i].rule.Required? && (IsFixed(fields[i]) ==> fields[i].rule.max == 0)
    ensures TrackBefore(fields, i + 1) == TrackBefore(fields, i)
  {
  }

  lemma {:induction false} MessageRoundTrip(desc: Descriptor, slots: seq<Slot>)
    requires DescriptorOk(desc) && MessageHeld(desc, slots) && MessageReads(desc, slots)
    requires |Encode(desc, slots)| < TWO_32
    ensures Decode(desc, Encode(desc, slots)) == Some(Kept(desc, slots))
    decreases desc, 2
  {
    FieldsRead(desc, slots, |slots|, 0);
    Ends(desc, slots);
    Completes(desc, slots);
    assert EncodeFrom(desc, slots, |slots|) == [];
  }

  /** With all fields read, nothing is missing. */
  lemma Completes(desc: Descriptor, slots: seq<Slot>)
    requires MessageHeld(desc, slots)
    ensures DecodeLoop(desc, [], Kept(desc, slots), TrackBefore(desc.fields, |slots|)) == Some(Kept(desc, slots))
  {
    Ends(desc, slots);
    CountedDone(desc, slots, |slots|);
  }

  lemma Ends(desc: Descriptor, slots: seq<Slot>)
    requires |slots| == |desc.fields|
    ensures Partly(desc, slots, 0) == Defaults(desc) && TrackBefore(desc.fields, 0) == Untracked()
    ensures Partly(desc, slots, |slots|) == Kept(desc, slots)
  {
  }

  /** Decoding from field `i` on is decoding from field `n` on, once the fields between have been read. */
  lemma {:induction false} FieldsRead(desc: Descriptor, slots: seq<Slot>, n: nat, i: nat)
    requires DescriptorOk(desc) && MessageHeld(desc, slots) && i <= n <= |slots|
    requires forall j :: i <= j < n ==> SlotReads(desc.fields[j], slots[j])
    requires |EncodeFrom(desc, slots, i)| < TWO_32
    ensures DecodeLoop(desc, EncodeFrom(desc, slots, i), Partly(desc, slots, i), TrackBefore(desc.fields, i))
         == DecodeLoop(desc, EncodeFrom(desc, slots, n), Partly(desc, slots, n), TrackBefore(desc.fields, n))
    decreases desc, 1, n - i
  {
    if i < n {
      EncodeStep(desc, slots, i);
      FieldsRead(desc, slots, n, i + 1);
      FieldStep(desc, slots, i, EncodeFrom(desc, slots, i), EncodeFrom(desc, slots, i + 1));
    }
  }

  lemma EncodeStep(desc: Descriptor, slots: seq<Slot>, i: nat)
    requires i < |slots| == |desc.fields|
    ensures EncodeFrom(desc, slots, i) == EncodeSlot(desc.fields[i], slots[i]) + EncodeFrom(desc, slots, i + 1)
    ensures |EncodeSlot(desc.fields[i], slots[i])| <= |EncodeFrom(desc, slots, i)|
    ensures |EncodeFrom(desc, slots, i + 1)| <= |EncodeFrom(desc, slots, i)|
  {
  }

  lemma {:induction false} FieldStep(desc: Descriptor, slots: seq<Slot>, i: nat, s: Bytes, rest: Bytes)
    requires DescriptorOk(desc) && MessageHeld(desc, slots) && i < |slots| && SlotReads(desc.fields[i], slots[i])
    requires s == EncodeSlot(desc.fields[i], slots[i]) + rest && |EncodeSlot(desc.fields[i], slots[i])| < TWO_32
    ensures DecodeLoop(desc, s, Partly(desc, slots, i), TrackBefore(desc.fields, i))
         == DecodeLoop(desc, rest, Partly(desc, slots, i + 1), TrackBefore(desc.fields, i + 1))
    decreases desc, 0, 3
  {
    SlotRead(desc, slots, i, rest);
  }

  /** The loop on the encoding of one field. */
  lemma {:induction false} SlotRead(desc: Descriptor, slots: seq<Slot>, i: nat, rest: Bytes)
    requires DescriptorOk(desc) && MessageHeld(desc, slots) && i < |slots| && SlotReads(desc.fields[i], slots[i])
    requires |EncodeSlot(desc.fields[i], slots[i])| < TWO_32
    ensures DecodeLoop(desc, EncodeSlot(desc.fields[i], slots[i]) + rest, Partly(desc, slots, i),
        TrackBefore(desc.fields, i))
         == DecodeLoop(desc, rest, Partly(desc, slots, i + 1), TrackBefore(desc.fields, i + 1))
    decreases desc, 0, 2
  {
    var f, s, before := desc.fields[i], slots[i], Partly(desc, slots, i);
    PartlyNext(desc, slots, i);
    assert SlotReads(f, s);
    match s
    case Many(items) =>
      if items == [] {
        SkippedSlot(desc, slots, i, rest);
      } else if Packable(f.kind) {
        PackedRead(desc, slots, i, rest);
      } else {
        var t := EntersNext(desc, slots, i);
        TaggedEnters(desc, i, items, before, TrackBefore(desc.fields, i), t, rest);
        TaggedRead(desc, before, i, [], items, t, rest);
        assert [] + KeptItems(f.kind, items) == KeptItems(f.kind, items) && before[i := Many([])] == before;
      }
    case One(v) =>
      if LeftOut(f, v) {
        SkippedSlot(desc, slots, i, rest);
      } else {
        OneRead(desc, slots, i, v, rest);
      }
    case Maybe(o) =>
      if o == None {
        SkippedSlot(desc, slots, i, rest);
      } else {
        OneRead(desc, slots, i, o.value, rest);
      }
  }

  /** A field that is left out is the field that decoding starts with. */
  lemma SkippedSlot(desc: Descriptor, slots: seq<Slot>, i: nat, rest: Bytes)
    requires |slots| == |desc.fields| && i < |slots|
    requires EncodeSlot(desc.fields[i], slots[i]) == []
    requires KeptSlot(desc.fields[i], slots[i]) == DefaultSlot(desc.fields[i])
    requires !desc.fields[i].rule.Required? && (IsFixed(desc.fields[i]) ==> desc.fields[i].rule.max == 0)
    ensures DecodeLoop(desc, EncodeSlot(desc.fields[i], slots[i]) + rest, Partly(desc, slots, i),
        TrackBefore(desc.fields, i))
         == DecodeLoop(desc, rest, Partly(desc, slots, i + 1), TrackBefore(desc.fields, i + 1))
  {
    PartlyNext(desc, slots, i);
    SkipNext(desc.fields, i);
    assert [] + rest == rest;
    assert Partly(desc, slots, i + 1) == Partly(desc, slots, i);
  }

  /** Setting a field of a oneof clears nothing, since no other field of it is present. */
  lemma ClearsNothing(desc: Descriptor, slots: seq<Slot>, i: nat)
    requires MessageHeld(desc, slots) && i < |slots| && desc.fields[i].rule.OneOf? && slots[i].Maybe?
    requires slots[i].option.Some?
    ensures ClearOneof(desc.fields, Partly(desc, slots, i), desc.fields[i].rule) == Partly(desc, slots, i)
  {
    var before, group := Partly(desc, slots, i), desc.fields[i].rule;
    forall j | 0 <= j < |slots| && desc.fields[j].rule == group
      ensures before[j] == Maybe(None)
    {
      if j < i {
        assert SameOneof(desc.fields[j], desc.fields[i]) && SlotHeld(desc.fields[j], slots[j]);
        assert slots[j].option == None && before[j] == KeptSlot(desc.fields[j], slots[j]);
      }
    }
  }

  function PresentValue(s: Slot): Value
    requires s.One? || (s.Maybe? && s.option.Some?)
  {
    if s.One? then s.value else s.option.value
  }

  lemma FieldDecodes(desc: Descriptor, slots: seq<Slot>, i: nat, rest: Bytes)
    requires DescriptorOk(desc) && MessageHeld(desc, slots) && i < |slots| && SlotReads(desc.fields[i], slots[i])
    requires slots[i].One? || (slots[i].Maybe? && slots[i].option.Some?)
    requires slots[i].One? ==> !LeftOut(desc.fields[i], slots[i].value)
    requires |EncodeValue(desc.fields[i].kind, PresentValue(slots[i]))| < TWO_32
    ensures var f := desc.fields[i];
      DecodeField(desc, i, WireType(f.kind), EncodeValue(f.kind, PresentValue(slots[i])) + rest, Partly(desc, slots, i))
      == Some((Partly(desc, slots, i + 1), rest))
    decreases desc, 0, 0
  {
    var f, v := desc.fields[i], PresentValue(slots[i]);
    assert SlotReads(f, slots[i]);
    PartlyNext(desc, slots, i);
    ValueRoundTrip(f.kind, v, rest, Initial(f.kind, f.initial));
    if f.rule.OneOf? {
      ClearsNothing(desc, slots, i);
    }
  }

  lemma OneRead(desc: Descriptor, slots: seq<Slot>, i: nat, v: Value, rest: Bytes)
    requires DescriptorOk(desc) && MessageHeld(desc, slots) && i < |slots| && SlotReads(desc.fields[i], slots[i])
    requires slots[i].One? || (slots[i].Maybe? && slots[i].option.Some?)
    requires slots[i].One? ==> !LeftOut(desc.fields[i], slots[i].value)
    requires v == PresentValue(slots[i]) && EncodeSlot(desc.fields[i], slots[i]) == EncodeOne(desc.fields[i], v)
    requires |EncodeOne(desc.fields[i], v)| < TWO_32
    ensures DecodeLoop(desc, EncodeSlot(desc.fields[i], slots[i]) + rest, Partly(desc, slots, i),
        TrackBefore(desc.fields, i))
         == DecodeLoop(desc, rest, Partly(desc, slots, i + 1), TrackBefore(desc.fields, i + 1))
    decreases desc, 0, 1
  {
    var f := desc.fields[i];
    var tag, body := TagBytes(WireType(f.kind), f.tag), EncodeValue(f.kind, v);
    Regroup(tag, body, rest);
    assert SlotReads(f, slots[i]);
    var t := EntersNext(desc, slots, i);
    FieldDecodes(desc, slots, i, rest);
    LoopStep(desc, i, WireType(f.kind), body + rest, Partly(desc, slots, i), TrackBefore(desc.fields, i), t);
  }

  lemma PackedRead(desc: Descriptor, slots: seq<Slot>, i: nat, rest: Bytes)
    requires DescriptorOk(desc) && MessageHeld(desc, slots) && i < |slots| && SlotReads(desc.fields[i], slots[i])
    requires desc.fields[i].rule.Repeated? && Packable(desc.fields[i].kind) && slots[i].Many? && slots[i].items != []
    requires |EncodeSlot(desc.fields[i], slots[i])| < TWO_32
    ensures DecodeLoop(desc, EncodeSlot(desc.fields[i], slots[i]) + rest, Partly(desc, slots, i),
        TrackBefore(desc.fields, i))
         == DecodeLoop(desc, rest, Partly(desc, slots, i + 1), TrackBefore(desc.fields, i + 1))
  {
    var f, items, before := desc.fields[i], slots[i].items, Partly(desc, slots, i);
    var tag, data := TagBytes(WT_STRING, f.tag), EncodePacked(f.kind, items);
    assert SlotReads(f, slots[i]);
    PartlyNext(desc, slots, i);
    var t := EntersNext(desc, slots, i);
    Regroup(tag, Prefixed(data), rest);
    StringRead(data, rest);
    PackedRoundTrip(f.kind, [], items, f.rule.max);
    assert [] + items == items && KeptItems(f.kind, items) == items;
    LoopStep(desc, i, WT_STRING, Prefixed(data) + rest, before, TrackBefore(desc.fields, i), t);
  }

  lemma ItemDecodes(desc: Descriptor, i: nat, slots: seq<Slot>, done: seq<Value>, v: Value, rest: Bytes)
    requires DescriptorOk(desc) && i < |desc.fields| == |slots| && slots[i] == Many(done)
    requires desc.fields[i].rule.Repeated? && |done| < desc.fields[i].rule.max
    requires ValueHeld(desc.fields[i].kind, v) && ValueReads(desc.fields[i].kind, v)
    requires |EncodeValue(desc.fields[i].kind, v)| < TWO_32
    ensures DecodeField(desc, i, WireType(desc.fields[i].kind), EncodeValue(desc.fields[i].kind, v) + rest, slots)
         == Some((slots[i := Many(done + [KeptValue(desc.fields[i].kind, v)])], rest))
    decreases desc, 0, 0
  {
    ValueRoundTrip(desc.fields[i].kind, v, rest, Initial(desc.fields[i].kind, None));
  }

  /** With its first item the array is the one that is being filled. */
  lemma TaggedEnters(desc: Descriptor, i: nat, items: seq<Value>, slots: seq<Slot>, t: Track, t': Track, rest: Bytes)
    requires DescriptorOk(desc) && i < |desc.fields| == |slots| && items != []
    requires Enter(desc.fields, slots, t, i) == Some((slots, t'))
    requires Enter(desc.fields, slots, t', i) == Some((slots, t'))
    ensures var s := EncodeTagged(desc.fields[i], items) + rest;
      DecodeLoop(desc, s, slots, t) == DecodeLoop(desc, s, slots, t')
  {
    var f := desc.fields[i];
    var tag, body := TagBytes(WireType(f.kind), f.tag), EncodeValue(f.kind, items[0]) + EncodeTagged(f, items[1..]);
    Regroup(tag, body, rest);
    LoopStep(desc, i, WireType(f.kind), body + rest, slots, t, t');
    LoopStep(desc, i, WireType(f.kind), body + rest, slots, t', t');
  }

  lemma KeptRest(k: FieldType, items: seq<Value>)
    requires items != []
    ensures KeptItems(k, items)[0] == KeptValue(k, items[0]) && KeptItems(k, items)[1..] == KeptItems(k, items[1..])
  {
  }

  lemma {:induction false} TaggedRead(desc: Descriptor, slots: seq<Slot>, i: nat, done: seq<Value>, items: seq<Value>,
                                      t: Track, rest: Bytes)
    requires DescriptorOk(desc) && i < |desc.fields| == |slots|
    requires desc.fields[i].rule.Repeated?
    requires |done| + |items| <= desc.fields[i].rule.max
    requires forall j :: 0 <= j < |items| ==>
      ValueHeld(desc.fields[i].kind, items[j]) && ValueReads(desc.fields[i].kind, items[j])
    requires IsFixed(desc.fields[i]) ==> t.counting == Some(i)
    requires |EncodeTagged(desc.fields[i], items)| < TWO_32
    ensures DecodeLoop(desc, EncodeTagged(desc.fields[i], items) + rest, slots[i := Many(done)], t)
         == DecodeLoop(desc, rest, slots[i := Many(done + KeptItems(desc.fields[i].kind, items))], t)
    decreases desc, 0, 1, |items|
  {
    var f := desc.fields[i];
    if items == [] {
      assert [] + rest == rest && done + KeptItems(f.kind, items) == done;
    } else {
      var kept, tag, body, more :=
          KeptItems(f.kind, items), TagBytes(WireType(f.kind), f.tag), EncodeValue(f.kind, items[0]),
          EncodeTagged(f, items[1..]);
      var before := slots[i := Many(done)];
      Regroup(tag, body + more, rest);
      Regroup(body, more, rest);
      ItemDecodes(desc, i, before, done, items[0], more + rest);
      LoopStep(desc, i, WireType(f.kind), body + (more + rest), before, t, t);
      SetTwice(slots, i, Many(done), Many(done + [kept[0]]));
      KeptRest(f.kind, items);
      DoneGrows(done, kept);
      TaggedRead(desc, slots, i, done + [kept[0]], items[1..], t, rest);
    }
  }

  // ----- strings without a terminator -----

  lemma {:induction false} ValueOverflows(k: FieldType, v: Value, rest: Bytes, current: Value)
    requires TypeOk(k) && ValueHeld(k, v) && !ValueReads(k, v) && Fresh(k, current) && |EncodeValue(k, v)| < TWO_32
    ensures DecodeValue(k, EncodeValue(k, v) + rest, current) == None
    decreases k, 2
  {
    match k
    case StringIn(size) => StringRead(v.data, rest);
    case Submessage(desc) =>
      StringRead(Encode(desc, v.slots), rest);
      MessageOverflows(desc, v.slots);
    case _ =>
  }

  /** A message with a string that fills its field is encoded, and cannot be decoded. */
  lemma {:induction false} MessageOverflows(desc: Descriptor, slots: seq<Slot>)
    requires DescriptorOk(desc) && MessageHeld(desc, slots) && !MessageReads(desc, slots)
    requires |Encode(desc, slots)| < TWO_32
    ensures Decode(desc, Encode(desc, slots)) == None
    decreases desc, 2
  {
    var i := FirstFull(desc, slots, 0);
    Ends(desc, slots);
    FieldsRead(desc, slots, i, 0);
    LaterShorter(desc, slots, 0, i);
    EncodeStep(desc, slots, i);
    FieldStops(desc, slots, i, EncodeFrom(desc, slots, i), EncodeFrom(desc, slots, i + 1));
  }

  lemma {:induction false} FieldStops(desc: Descriptor, slots: seq<Slot>, i: nat, s: Bytes, rest: Bytes)
    requires DescriptorOk(desc) && MessageHeld(desc, slots) && i < |slots| && !SlotReads(desc.fields[i], slots[i])
    requires s == EncodeSlot(desc.fields[i], slots[i]) + rest && |EncodeSlot(desc.fields[i], slots[i])| < TWO_32
    ensures DecodeLoop(desc, s, Partly(desc, slots, i), TrackBefore(desc.fields, i)) == None
    decreases desc, 0, 3
  {
    SlotOverflows(desc, slots, i, rest);
  }

  lemma {:induction false} FirstFull(desc: Descriptor, slots: seq<Slot>, from: nat) returns (i: nat)
    requires MessageHeld(desc, slots) && from <= |slots|
    requires exists j :: from <= j < |slots| && !SlotReads(desc.fields[j], slots[j])
    ensures from <= i < |slots| && !SlotReads(desc.fields[i], slots[i])
    ensures forall j :: from <= j < i ==> SlotReads(desc.fields[j], slots[j])
    decreases |slots| - from
  {
    if SlotReads(desc.fields[from], slots[from]) {
      i := FirstFull(desc, slots, from + 1);
    } else {
      i := from;
    }
  }

  lemma {:induction false} LaterShorter(desc: Descriptor, slots: seq<Slot>, i: nat, j: nat)
    requires i <= j <= |slots| == |desc.fields|
    ensures |EncodeFrom(desc, slots, j)| <= |EncodeFrom(desc, slots, i)|
    decreases j - i
  {
    if i < j {
      LaterShorter(desc, slots, i + 1, j);
    }
  }

  /** The loop fails on the encoding of such a field. */
  lemma {:induction false} SlotOverflows(desc: Descriptor, slots: seq<Slot>, i: nat, rest: Bytes)
    requires DescriptorOk(desc) && MessageHeld(desc, slots) && i < |slots|
    requires !SlotReads(desc.fields[i], slots[i]) && |EncodeSlot(desc.fields[i], slots[i])| < TWO_32
    ensures DecodeLoop(desc, EncodeSlot(desc.fields[i], slots[i]) + rest, Partly(desc, slots, i),
        TrackBefore(desc.fields, i))
         == None
    decreases desc, 0, 2
  {
    var f, s, before := desc.fields[i], slots[i], Partly(desc, slots, i);
    PartlyNext(desc, slots, i);
    assert SlotHeld(f, s);
    match s
    case Many(items) =>
      var j :| 0 <= j < |items| && !ValueReads(f.kind, items[j]);
      var t := EntersNext(desc, slots, i);
      TaggedEnters(desc, i, items, before, TrackBefore(desc.fields, i), t, rest);
      TaggedOverflows(desc, before, i, [], items, t, rest);
      assert before[i := Many([])] == before;
    case One(v) =>
      OneOverflows(desc, slots, i, v, rest);
    case Maybe(o) =>
      OneOverflows(desc, slots, i, o.value, rest);
  }

  lemma OneOverflows(desc: Descriptor, slots: seq<Slot>, i: nat, v: Value, rest: Bytes)
    requires DescriptorOk(desc) && MessageHeld(desc, slots) && i < |slots|
    requires slots[i].One? || (slots[i].Maybe? && slots[i].option.Some?)
    requires slots[i].One? ==> !LeftOut(desc.fields[i], slots[i].value)
    requires v == PresentValue(slots[i]) && EncodeSlot(desc.fields[i], slots[i]) == EncodeOne(desc.fields[i], v)
    requires !ValueReads(desc.fields[i].kind, v) && |EncodeOne(desc.fields[i], v)| < TWO_32
    ensures DecodeLoop(desc, EncodeSlot(desc.fields[i], slots[i]) + rest, Partly(desc, slots, i),
        TrackBefore(desc.fields, i))
         == None
    decreases desc, 0, 1
  {
    var f := desc.fields[i];
    var tag, body := TagBytes(WireType(f.kind), f.tag), EncodeValue(f.kind, v);
    assert SlotHeld(f, slots[i]);
    Regroup(tag, body, rest);
    PartlyNext(desc, slots, i);
    ValueOverflows(f.kind, v, rest, Initial(f.kind, f.initial));
    var t := EntersNext(desc, slots, i);
    LoopStep(desc, i, WireType(f.kind), body + rest, Partly(desc, slots, i), TrackBefore(desc.fields, i), t);
  }

  lemma {:induction false} TaggedOverflows(desc: Descriptor, slots: seq<Slot>, i: nat, done: seq<Value>,
                                           items: seq<Value>, t: Track, rest: Bytes)
    requires DescriptorOk(desc) && i < |desc.fields| == |slots|
    requires desc.fields[i].rule.Repeated? && !Packable(desc.fields[i].kind)
    requires |done| + |items| <= desc.fields[i].rule.max
    requires forall j :: 0 <= j < |items| ==> ValueHeld(desc.fields[i].kind, items[j])
    requires exists j :: 0 <= j < |items| && !ValueReads(desc.fields[i].kind, items[j])
    requires IsFixed(desc.fields[i]) ==> t.counting == Some(i)
    requires |EncodeTagged(desc.fields[i], items)| < TWO_32
    ensures DecodeLoop(desc, EncodeTagged(desc.fields[i], items) + rest, slots[i := Many(done)], t) == None
    decreases desc, 0, 1, |items|
  {
    var f, before := desc.fields[i], slots[i := Many(done)];
    var tag, body, more :=
        TagBytes(WireType(f.kind), f.tag), EncodeValue(f.kind, items[0]), EncodeTagged(f, items[1..]);
    Regroup(tag, body + more, rest);
    Regroup(body, more, rest);
    LoopStep(desc, i, WireType(f.kind), body + (more + rest), before, t, t);
    if ValueReads(f.kind, items[0]) {
      ItemDecodes(desc, i, before, done, items[0], more + rest);
      var kept := KeptValue(f.kind, items[0]);
      SetTwice(slots, i, Many(done), Many(done + [kept]));
      TaggedOverflows(desc, slots, i, done + [kept], items[1..], t, rest);
    } else {
      ValueOverflows(f.kind, items[0], more + rest, Initial(f.kind, None));
    }
  }

  /**
   * Whatever the fields hold, decoding fails exactly if a string that was written has no terminator. In storage that
   * was zero before it gives the message back exactly if, moreover, what was left out is zero in all its parts.
   */
  lemma RoundTripExactly(desc: Descriptor, slots: seq<Slot>)
    requires DescriptorOk(desc) && MessageHeld(desc, slots) && |Encode(desc, slots)| < TWO_32
    ensures var r := Decode(desc, Encode(desc, slots));
      && (r == None <==> !MessageReads(desc, slots))
      && (r.Some? && AllOnZeros(desc, r.value) == slots <==> MessageReads(desc, slots) && MessageShows(desc, slots))
  {
    if MessageReads(desc, slots) {
      MessageRoundTrip(desc, slots);
      MessageKeptWhole(desc, slots);
    } else {
      MessageOverflows(desc, slots);
    }
  }

  /** A proto3 submessage that has nothing but an array of fixed count. */
  function Wrapper(silent: set<seq<Value>>): Descriptor {
    Descriptor([Field(1, Singular, Submessage(Descriptor([Pair(silent)])), None)])
  }

  function Pair(silent: set<seq<Value>>): Field {
    Field(1, Repeated(2, FixedCount(silent)), UnsignedInt(4), None)
  }

  function Holding(a: nat, b: nat): seq<Slot> {
    [One(Message([Many([Int(a), Int(b)])]))]
  }

  lemma WrapperOk(silent: set<seq<Value>>)
    ensures DescriptorOk(Wrapper(silent)) && MessageHeld(Wrapper(silent), Holding(0, 7))
  {
    var inner, items := Descriptor([Pair(silent)]), [Int(0), Int(7)];
    assert TypeOk(Submessage(inner)) && SlotHeld(Pair(silent), Many(items));
    assert MessageHeld(inner, [Many(items)]);
    assert ValueHeld(Submessage(inner), Message([Many(items)]));
  }

  lemma WrapperEmpty(silent: set<seq<Value>>)
    requires [Int(0), Int(7)] in silent
    ensures Encode(Wrapper(silent), Holding(0, 7)) == []
  {
    var desc, slots := Wrapper(silent), Holding(0, 7);
    assert SlotIsZero(Pair(silent), Many([Int(0), Int(7)]));
    assert LeftOut(desc.fields[0], slots[0].value);
    assert EncodeSlot(desc.fields[0], slots[0]) == [] && EncodeFrom(desc, slots, 1) == [];
  }

  lemma WrapperZeros(silent: set<seq<Value>>)
    ensures AllOnZeros(Wrapper(silent), Defaults(Wrapper(silent))) == Holding(0, 0)
  {
    var desc, inner := Wrapper(silent), Descriptor([Pair(silent)]);
    var zeros := seq(2, _ => ZeroValue(UnsignedInt(4)));
    assert zeros == [Int(0), Int(0)];
    assert SlotOnZeros(Pair(silent), Many([])) == ZeroSlot(Pair(silent)) == Many(zeros);
    assert AllOnZeros(inner, Defaults(inner)) == [Many(zeros)];
    assert Defaults(desc)[0] == DefaultSlot(desc.fields[0]) == One(Initial(Submessage(inner), None));
    assert SlotOnZeros(desc.fields[0], Defaults(desc)[0]) == Holding(0, 0)[0];
  }

  /** The items 0 and 7 begin with a count of zero: nothing is written, and they come back as 0 and 0. */
  lemma HiddenArray(silent: set<seq<Value>>)
    requires [Int(0), Int(7)] in silent
    ensures var desc := Wrapper(silent);
      && DescriptorOk(desc) && MessageHeld(desc, Holding(0, 7)) && Encode(desc, Holding(0, 7)) == []
      && Decode(desc, []).Some? && AllOnZeros(desc, Decode(desc, []).value) == Holding(0, 0)
  {
    WrapperOk(silent);
    WrapperEmpty(silent);
    WrapperZeros(silent);
    EmptyMessage(Wrapper(silent));
  }

  /** A string decodes back exactly when its field has room for the terminator. */
  lemma StringNeedsTerminator(size: nat, data: Bytes, rest: Bytes, current: Value)
    requires size < TWO_32 && ValueHeld(StringIn(size), Raw(data))
    ensures var read := DecodeValue(StringIn(size), EncodeValue(StringIn(size), Raw(data)) + rest, current);
      (read == Some((Raw(data), rest)) <==> |data| < size) && (read == None <==> |data| == size)
  {
    StringRead(data, rest);
  }

  // ----- arrays of fixed count -----

  /** A fixed array is as it was to begin with, or has all its items. */
  ghost predicate AllOrNothing(f: Field, s: Slot) {
    IsFixed(f) ==> s.Many? && (s.items == [] || |s.items| == f.rule.max)
  }

  /** So are all of them but the one that is being filled. */
  ghost predicate WholeBut(fields: seq<Field>, slots: seq<Slot>, counting: Option<nat>) {
    |slots| == |fields| && forall i :: 0 <= i < |fields| && counting != Some(i) ==> AllOrNothing(fields[i], slots[i])
  }

  lemma EnterKeepsWhole(fields: seq<Field>, slots: seq<Slot>, t: Track, i: nat)
    requires WholeBut(fields, slots, t.counting) && i < |fields|
    ensures var r := Enter(fields, slots, t, i);
      r.Some? ==>
        && WholeBut(fields, r.value.0, r.value.1.counting)
        && (IsFixed(fields[i]) ==> r.value.1.counting == Some(i))
  {
  }

  lemma FieldKeepsWhole(desc: Descriptor, i: nat, wireType: nat, s: Bytes, slots: seq<Slot>, counting: Option<nat>)
    requires i < |desc.fields| && WholeBut(desc.fields, slots, counting)
    requires IsFixed(desc.fields[i]) ==> counting == Some(i)
    ensures var r := DecodeField(desc, i, wireType, s, slots);
      r.Some? ==> WholeBut(desc.fields, r.value.0, counting)
  {
    var r := DecodeField(desc, i, wireType, s, slots);
    if r.Some? {
      forall j | 0 <= j < |desc.fields| && counting != Some(j)
        ensures AllOrNothing(desc.fields[j], r.value.0[j])
      {
        assert IsFixed(desc.fields[j]) ==> r.value.0[j] == slots[j];
      }
    }
  }

  /** Whatever the bytes, a message that decodes has no array of fixed count with only some of its items. */
  lemma {:induction false} FixedAreWhole(desc: Descriptor, s: Bytes, slots: seq<Slot>, t: Track)
    requires WholeBut(desc.fields, slots, t.counting)
    ensures var r := DecodeLoop(desc, s, slots, t);
      r.Some? ==> forall i :: 0 <= i < |desc.fields| ==> AllOrNothing(desc.fields[i], r.value[i])
    decreases |s|
  {
    var key := if s == [] then None else DecodeVarint32(s);
    if key.Some? && key.value.0 != 0 {
      var rest := key.value.1;
      var found := FindField(desc.fields, key.value.0 / 8);
      if found == None {
        var skipped := SkipField(key.value.0 % 8, rest);
        if skipped.Some? {
          FixedAreWhole(desc, skipped.value, slots, t);
        }
      } else {
        EnterKeepsWhole(desc.fields, slots, t, found.value);
        var entered := Enter(desc.fields, slots, t, found.value);
        if entered.Some? {
          var (slots', t') := entered.value;
          FieldKeepsWhole(desc, found.value, key.value.0 % 8, rest, slots', t'.counting);
          var field := DecodeField(desc, found.value, key.value.0 % 8, rest, slots');
          if field.Some? {
            FixedAreWhole(desc, field.value.1, field.value.0, Mark(desc.fields, t', found.value));
          }
        }
      }
    }
  }

  // ----- the empty message -----

  lemma {:induction false} RequiredCount(fields: seq<Field>, n: nat)
    requires n <= |fields|
    ensures RequiredBefore(fields, n) == 0 <==> forall i :: 0 <= i < n ==> !fields[i].rule.Required?
  {
    if n > 0 {
      RequiredCount(fields, n - 1);
    }
  }

  /** No bytes at all are the message of all defaults, exactly if no field is required. */
  lemma EmptyMessage(desc: Descriptor)
    ensures Decode(desc, []) == Some(Defaults(desc)) <==> forall i ::
        0 <= i < |desc.fields| ==> !desc.fields[i].rule.Required?
    ensures Decode(desc, []) == None <==> exists i :: 0 <= i < |desc.fields| && desc.fields[i].rule.Required?
  {
    RequiredCount(desc.fields, |desc.fields|);
    var none: set<nat> := {};
    assert AllSeen(desc.fields, none) && RequiredBefore(desc.fields, |desc.fields|) > 0 ==> 0 in none;
  }
}
