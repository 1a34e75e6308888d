/**
 * Messages without arrays of fixed count come back as they were, and a value that comes again replaces the one before
 * (nanopb pb_decode.c, decode_static_field).
 */
module ProtoPlain {
  import opened Keys
  import opened Coding
  import opened Descriptors
  import opened ProtoScalars
  import opened ProtoWire
  import opened ProtoRoundTrip

  // ----- no arrays of fixed count -----

  predicate NoFixed(desc: Descriptor)
    decreases desc
  {
    forall i :: 0 <= i < |desc.fields| ==>
      !IsFixed(desc.fields[i]) && (desc.fields[i].kind.Submessage? ==> NoFixed(desc.fields[i].kind.desc))
  }

  predicate PlainField(f: Field) {
    !IsFixed(f) && (f.kind.Submessage? ==> NoFixed(f.kind.desc))
  }

  /** Fixed-length bytes are never left out, nor is a submessage with a field that never is. */
  predicate Hides(k: FieldType)
    decreases k
  {
    match k
    case FixedBytes(size) => size == 0
    case Submessage(desc) => forall i :: 0 <= i < |desc.fields| ==> FieldHides(desc.fields[i])
    case _ => true
  }

  predicate FieldHides(f: Field)
    decreases f
  {
    !f.rule.Required? && (f.rule.Singular? ==> Hides(f.kind))
  }

  /** A value is taken for zero exactly if it is what decoding starts with, and may be left out at all. */
  lemma {:induction false} ZeroIsStart(k: FieldType, v: Value)
    requires TypeOk(k) && ValueHeld(k, v) && (k.Submessage? ==> NoFixed(k.desc))
    ensures IsZero(k, v) <==> v == Initial(k, None) && Hides(k)
    decreases k
  {
    match k
    case Submessage(desc) =>
      forall i | 0 <= i < |v.slots|
        ensures SlotIsZero(desc.fields[i], v.slots[i])
           <==> v.slots[i] == Defaults(desc)[i] && FieldHides(desc.fields[i])
      {
        ZeroSlotIsStart(desc.fields[i], v.slots[i]);
      }
      assert v.slots == Defaults(desc) <==> forall i :: 0 <= i < |v.slots| ==> v.slots[i] == Defaults(desc)[i];
    case _ =>
  }

  lemma {:induction false} ZeroSlotIsStart(f: Field, s: Slot)
    requires TypeOk(f.kind) && (f.rule.Singular? ==> f.initial == None) && PlainField(f) && SlotHeld(f, s)
    ensures SlotIsZero(f, s) <==> s == DefaultSlot(f) && FieldHides(f)
    decreases f
  {
    if f.rule.Singular? {
      ZeroIsStart(f.kind, s.value);
    }
  }

  /** So nothing is lost by leaving it out. */
  lemma {:induction false} ValueIsKept(k: FieldType, v: Value)
    requires TypeOk(k) && ValueHeld(k, v) && (k.Submessage? ==> NoFixed(k.desc))
    ensures KeptValue(k, v) == v
    decreases k
  {
    if k.Submessage? {
      AllIsKept(k.desc, v.slots);
    }
  }

  lemma {:induction false} AllIsKept(desc: Descriptor, slots: seq<Slot>)
    requires DescriptorOk(desc) && MessageHeld(desc, slots) && NoFixed(desc)
    ensures Kept(desc, slots) == slots
    decreases desc
  {
    forall i | 0 <= i < |slots| ensures Kept(desc, slots)[i] == slots[i] {
      SlotIsKept(desc.fields[i], slots[i]);
    }
  }

  lemma {:induction false} SlotIsKept(f: Field, s: Slot)
    requires TypeOk(f.kind) && (f.rule.Singular? ==> f.initial == None) && PlainField(f) && SlotHeld(f, s)
    ensures KeptSlot(f, s) == s
    decreases f
  {
    match s
    case One(v) =>
      if LeftOut(f, v) { ZeroIsStart(f.kind, v); } else { ValueIsKept(f.kind, v); }
    case Maybe(o) => if o.Some? { ValueIsKept(f.kind, o.value); }
    case Many(items) =>
      forall i | 0 <= i < |items| ensures KeptItems(f.kind, items)[i] == items[i] {
        ValueIsKept(f.kind, items[i]);
      }
      assert KeptItems(f.kind, items) == items;
  }

  /** A message without arrays of fixed count decodes back exactly if every string of it has a terminator. */
  lemma PlainRoundTrip(desc: Descriptor, slots: seq<Slot>)
    requires DescriptorOk(desc) && MessageHeld(desc, slots) && NoFixed(desc) && |Encode(desc, slots)| < TWO_32
    ensures Decode(desc, Encode(desc, slots)) == if MessageReads(desc, slots) then Some(slots) else None
  {
    if MessageReads(desc, slots) {
      MessageRoundTrip(desc, slots);
      AllIsKept(desc, slots);
    } else {
      MessageOverflows(desc, slots);
    }
  }

  // ----- a value that comes again -----

  /** A field of one value, in storage that has a place for one. */
  predicate HoldsOne(f: Field, s: Slot) {
    match f.rule
    case Required => s.One?
    case Singular => s.One?
    case Optional => s.Maybe?
    case OneOf(_) => s.Maybe?
    case Repeated(_, _) => false
  }

  /** The storage with the value, and without the other fields of its oneof. */
  function WithValue(desc: Descriptor, slots: seq<Slot>, i: nat, v: Value): (r: seq<Slot>)
    requires i < |desc.fields| == |slots|
    ensures |r| == |slots|
  {
    seq(|slots|, j requires 0 <= j < |slots| =>
      if j == i then (if slots[i].One? then One(v) else Maybe(Some(v)))
      else if desc.fields[i].rule.OneOf? && desc.fields[j].rule == desc.fields[i].rule then Maybe(None)
      else slots[j])
  }

  /** The value does not depend on the one before: it is no submessage, or the storage is cleared for it. */
  predicate Replaces(f: Field) {
    !f.kind.Submessage? || f.rule.OneOf?
  }

  lemma ValueTaken(desc: Descriptor, i: nat, v: Value, slots: seq<Slot>, rest: Bytes)
    requires DescriptorOk(desc) && i < |desc.fields| == |slots| && HoldsOne(desc.fields[i], slots[i])
    requires ValueHeld(desc.fields[i].kind, v) && ValueReads(desc.fields[i].kind, v) && Replaces(desc.fields[i])
    requires |EncodeValue(desc.fields[i].kind, v)| < TWO_32
    ensures var f := desc.fields[i];
      DecodeField(desc, i, WireType(f.kind), EncodeValue(f.kind, v) + rest, slots)
      == Some((WithValue(desc, slots, i, KeptValue(f.kind, v)), rest))
  {
    var f, kept := desc.fields[i], KeptValue(desc.fields[i].kind, v);
    match slots[i]
    case One(current) =>
      ValueRoundTrip(f.kind, v, rest, current);
      assert slots[i := One(kept)] == WithValue(desc, slots, i, kept);
    case Maybe(o) =>
      ValueRoundTrip(f.kind, v, rest, if f.rule.Optional? && o.Some? then o.value else Initial(f.kind, f.initial));
      var cleared := if f.rule.OneOf? then ClearOneof(desc.fields, slots, f.rule) else slots;
      assert cleared[i := Maybe(Some(kept))] == WithValue(desc, slots, i, kept);
  }

  lemma OneTaken(desc: Descriptor, i: nat, v: Value, slots: seq<Slot>, t: Track, rest: Bytes)
    requires DescriptorOk(desc) && i < |desc.fields| == |slots| && HoldsOne(desc.fields[i], slots[i])
    requires ValueHeld(desc.fields[i].kind, v) && ValueReads(desc.fields[i].kind, v) && Replaces(desc.fields[i])
    requires |EncodeValue(desc.fields[i].kind, v)| < TWO_32
    ensures var f := desc.fields[i];
      DecodeLoop(desc, EncodeOne(f, v) + rest, slots, t)
      == DecodeLoop(desc, rest, WithValue(desc, slots, i, KeptValue(f.kind, v)), Mark(desc.fields, t, i))
  {
    var f := desc.fields[i];
    Regroup(TagBytes(WireType(f.kind), f.tag), EncodeValue(f.kind, v), rest);
    ValueTaken(desc, i, v, slots, rest);
    LoopStep(desc, i, WireType(f.kind), EncodeValue(f.kind, v) + rest, slots, t, t);
  }

  lemma SetAgain(desc: Descriptor, slots: seq<Slot>, i: nat, v: Value, j: nat, w: Value)
    requires i < |desc.fields| == |slots| && j < |slots| && (i == j || SameOneof(desc.fields[i], desc.fields[j]))
    requires HoldsOne(desc.fields[i], slots[i]) && HoldsOne(desc.fields[j], slots[j])
    ensures WithValue(desc, WithValue(desc, slots, i, v), j, w) == WithValue(desc, slots, j, w)
    ensures HoldsOne(desc.fields[j], WithValue(desc, slots, i, v)[j])
  {
  }

  /** Of two values of the same field, or of two fields of a oneof, the later one is what decoding gives. */
  lemma LaterWins(desc: Descriptor, i: nat, v: Value, j: nat, w: Value, slots: seq<Slot>, t: Track, rest: Bytes)
    requires DescriptorOk(desc) && i < |desc.fields| == |slots| && j < |slots|
    requires i == j || SameOneof(desc.fields[i], desc.fields[j])
    requires HoldsOne(desc.fields[i], slots[i]) && HoldsOne(desc.fields[j], slots[j])
    requires Replaces(desc.fields[i]) && Replaces(desc.fields[j])
    requires ValueHeld(desc.fields[i].kind, v) && ValueReads(desc.fields[i].kind, v)
    requires ValueHeld(desc.fields[j].kind, w) && ValueReads(desc.fields[j].kind, w)
    requires |EncodeValue(desc.fields[i].kind, v)| < TWO_32 && |EncodeValue(desc.fields[j].kind, w)| < TWO_32
    ensures DecodeLoop(desc, EncodeOne(desc.fields[i], v) + (EncodeOne(desc.fields[j], w) + rest), slots, t)
         == DecodeLoop(desc, EncodeOne(desc.fields[j], w) + rest, slots, t)
  {
    var between := WithValue(desc, slots, i, KeptValue(desc.fields[i].kind, v));
    OneTaken(desc, i, v, slots, t, EncodeOne(desc.fields[j], w) + rest);
    SetAgain(desc, slots, i, KeptValue(desc.fields[i].kind, v), j, KeptValue(desc.fields[j].kind, w));
    OneTaken(desc, j, w, between, Mark(desc.fields, t, i), rest);
    OneTaken(desc, j, w, slots, t, rest);
  }

  /** What a submessage is decoded into: what is there, or its defaults if it is absent or comes into a oneof. */
  function Ground(f: Field, s: Slot): Value
    requires f.kind.Submessage? && HoldsOne(f, s)
  {
    if s.One? then s.value
    else if f.rule.Optional? && s.option.Some? then s.option.value
    else Message(Defaults(f.kind.desc))
  }

  lemma BodyTaken(desc: Descriptor, i: nat, body: Bytes, after: seq<Slot>, slots: seq<Slot>, rest: Bytes)
    requires i < |desc.fields| == |slots| && HoldsOne(desc.fields[i], slots[i])
    requires desc.fields[i].kind.Submessage? && |body| < TWO_32
    requires Ground(desc.fields[i], slots[i]).Message?
    requires |Ground(desc.fields[i], slots[i]).slots| == |desc.fields[i].kind.desc.fields|
    requires var f := desc.fields[i];
      DecodeLoop(f.kind.desc, body, Ground(f, slots[i]).slots, Untracked()) == Some(after)
    ensures DecodeField(desc, i, 2, Prefixed(body) + rest, slots)
         == Some((WithValue(desc, slots, i, Message(after)), rest))
  {
    var f := desc.fields[i];
    StringRead(body, rest);
    if slots[i].One? {
      assert slots[i := One(Message(after))] == WithValue(desc, slots, i, Message(after));
    } else {
      var cleared := if f.rule.OneOf? then ClearOneof(desc.fields, slots, f.rule) else slots;
      assert cleared[i := Maybe(Some(Message(after)))] == WithValue(desc, slots, i, Message(after));
    }
  }

  /** A submessage that comes again is merged into the one there is, but not in a oneof. */
  lemma SubmessageMerged(desc: Descriptor, i: nat, body: Bytes, after: seq<Slot>, slots: seq<Slot>, t: Track,
                         rest: Bytes)
    requires DescriptorOk(desc) && i < |desc.fields| == |slots| && HoldsOne(desc.fields[i], slots[i])
    requires desc.fields[i].kind.Submessage? && |body| < TWO_32
    requires Ground(desc.fields[i], slots[i]).Message?
    requires |Ground(desc.fields[i], slots[i]).slots| == |desc.fields[i].kind.desc.fields|
    requires var f := desc.fields[i];
      DecodeLoop(f.kind.desc, body, Ground(f, slots[i]).slots, Untracked()) == Some(after)
    ensures DecodeLoop(desc, TagBytes(2, desc.fields[i].tag) + (Prefixed(body) + rest), slots, t)
         == DecodeLoop(desc, rest, WithValue(desc, slots, i, Message(after)), Mark(desc.fields, t, i))
  {
    BodyTaken(desc, i, body, after, slots, rest);
    LoopStep(desc, i, 2, Prefixed(body) + rest, slots, t, t);
  }

  // ----- arrays that are not packed -----

  lemma PackedTaken(desc: Descriptor, i: nat, items: seq<Value>, slots: seq<Slot>, t: Track, rest: Bytes)
    requires DescriptorOk(desc) && i < |desc.fields| == |slots| && slots[i] == Many([])
    requires desc.fields[i].rule.Repeated? && Packable(desc.fields[i].kind) && |items| <= desc.fields[i].rule.max
    requires forall k :: 0 <= k < |items| ==> ValueHeld(desc.fields[i].kind, items[k])
    requires IsFixed(desc.fields[i]) ==> t.counting == Some(i)
    requires |EncodePacked(desc.fields[i].kind, items)| < TWO_32
    ensures var f := desc.fields[i];
      DecodeLoop(desc, (TagBytes(2, f.tag) + Prefixed(EncodePacked(f.kind, items))) + rest, slots, t)
      == DecodeLoop(desc, rest, slots[i := Many(items)], t)
  {
    var f, data := desc.fields[i], EncodePacked(desc.fields[i].kind, items);
    Regroup(TagBytes(2, f.tag), Prefixed(data), rest);
    StringRead(data, rest);
    PackedRoundTrip(f.kind, [], items, f.rule.max);
    assert [] + items == items;
    LoopStep(desc, i, 2, Prefixed(data) + rest, slots, t, t);
  }

  /** The reader takes an array of numbers packed or one item at a time. */
  lemma PackedOrNot(desc: Descriptor, i: nat, items: seq<Value>, slots: seq<Slot>, t: Track, rest: Bytes)
    requires DescriptorOk(desc) && i < |desc.fields| == |slots| && slots[i] == Many([])
    requires desc.fields[i].rule.Repeated? && Packable(desc.fields[i].kind) && |items| <= desc.fields[i].rule.max
    requires forall k :: 0 <= k < |items| ==> ValueHeld(desc.fields[i].kind, items[k])
    requires IsFixed(desc.fields[i]) ==> t.counting == Some(i)
    requires |EncodePacked(desc.fields[i].kind, items)| < TWO_32 && |EncodeTagged(desc.fields[i], items)| < TWO_32
    ensures var f := desc.fields[i];
      DecodeLoop(desc, (TagBytes(2, f.tag) + Prefixed(EncodePacked(f.kind, items))) + rest, slots, t)
      == DecodeLoop(desc, EncodeTagged(f, items) + rest, slots, t)
  {
    PackedTaken(desc, i, items, slots, t, rest);
    TaggedRead(desc, slots, i, [], items, t, rest);
    assert slots[i := Many([])] == slots && KeptItems(desc.fields[i].kind, items) == items && [] + items == items;
  }
}
