/** Message descriptors, and messages as values (nanopb pb.h, pb_common.c). */
module Descriptors {
  import opened Keys
  import opened Coding

  /** PB_LTYPE, with the size of the field; a submessage has its own descriptor. */
  datatype FieldType =
    | SignedInt(size: nat)
    | UnsignedInt(size: nat)
    | ZigzagInt(size: nat)
    | Fixed32
    | Fixed64
    | BytesUpTo(max: nat)
    | StringIn(size: nat)
    | FixedBytes(size: nat)
    | Submessage(desc: Descriptor)

  /** PB_HTYPE; Singular is an optional field without a has_ flag. */
  datatype Rule = Required | Optional | Singular | Repeated(max: nat, count: Count) | OneOf(group: nat)

  /**
   * The count of an array has a member of its own, or is fixed by the declaration. `silent` are the contents of a
   * fixed array whose first bytes, taken for a count, are zero; widths and byte order say which ones those are.
   */
  datatype Count = OwnCount | FixedCount(silent: set<seq<Value>>)

  datatype Field = Field(tag: nat, rule: Rule, kind: FieldType, initial: Option<Value>)

  datatype Descriptor = Descriptor(fields: seq<Field>)

  datatype Value = Int(n: int) | Raw(data: Bytes) | Message(slots: seq<Slot>)

  /** The storage of a field; what an absent field holds is not told, nor a fixed array before it is filled. */
  datatype Slot = One(value: Value) | Maybe(option: Option<Value>) | Many(items: seq<Value>)

  predicate Packable(k: FieldType) {
    k.SignedInt? || k.UnsignedInt? || k.ZigzagInt? || k.Fixed32? || k.Fixed64?
  }

  // ----- what the descriptor and the message have to satisfy -----

  const TWO_31: nat := 0x8000_0000

  /** The number of values of an integer of `size` bytes. */
  function Span(size: nat): (r: nat)
    ensures r > 0
  {
    if size == 1 then 0x100 else if size == 2 then 0x1_0000 else if size == 4 then TWO_32 else TWO_64
  }

  predicate IntSize(size: nat) {
    size == 1 || size == 2 || size == 4 || size == 8
  }

  predicate InSigned(n: int, size: nat) {
    -(Span(size) as int) <= 2 * n < Span(size)
  }

  /** What a field can hold; a string may fill its field to the last byte, with no terminator. */
  predicate ValueHeld(k: FieldType, v: Value)
    decreases k
  {
    match k
    case SignedInt(size) => IntSize(size) && v.Int? && InSigned(v.n, size)
    case ZigzagInt(size) => IntSize(size) && v.Int? && InSigned(v.n, size)
    case UnsignedInt(size) => IntSize(size) && v.Int? && 0 <= v.n < Span(size)
    case Fixed32 => v.Int? && 0 <= v.n < TWO_32
    case Fixed64 => v.Int? && 0 <= v.n < TWO_64
    case BytesUpTo(max) => v.Raw? && |v.data| <= max
    case StringIn(size) => v.Raw? && |v.data| <= size && forall i :: 0 <= i < |v.data| ==> v.data[i] != 0
    case FixedBytes(size) => v.Raw? && |v.data| == size
    case Submessage(desc) => v.Message? && MessageHeld(desc, v.slots)
  }

  predicate IsFixed(f: Field) {
    f.rule.Repeated? && f.rule.count.FixedCount?
  }

  predicate SlotHeld(f: Field, s: Slot)
    decreases f
  {
    match f.rule
    case Required => s.One? && ValueHeld(f.kind, s.value)
    case Singular => s.One? && ValueHeld(f.kind, s.value)
    case Optional => s.Maybe? && (s.option.Some? ==> ValueHeld(f.kind, s.option.value))
    case OneOf(_) => s.Maybe? && (s.option.Some? ==> ValueHeld(f.kind, s.option.value))
    case Repeated(max, count) =>
      && s.Many? && (if count.FixedCount? then |s.items| == max else |s.items| <= max)
      && forall i :: 0 <= i < |s.items| ==> ValueHeld(f.kind, s.items[i])
  }

  /** At most one field of a oneof is present. */
  predicate OneAtMost(desc: Descriptor, slots: seq<Slot>)
    requires |slots| == |desc.fields|
  {
    forall i, j {:trigger slots[i].option, slots[j].option} ::
      (0 <= i < j < |slots| && SameOneof(desc.fields[i], desc.fields[j]) && slots[i].Maybe? && slots[j].Maybe?)
      ==> slots[i].option == None || slots[j].option == None
  }

  predicate SameOneof(a: Field, b: Field) {
    a.rule.OneOf? && a.rule == b.rule
  }

  predicate MessageHeld(desc: Descriptor, slots: seq<Slot>)
    decreases desc
  {
    && |slots| == |desc.fields|
    && (forall i :: 0 <= i < |slots| ==> SlotHeld(desc.fields[i], slots[i]))
    && OneAtMost(desc, slots)
  }

  predicate TypeOk(k: FieldType)
    decreases k
  {
    match k
    case SignedInt(size) => IntSize(size)
    case ZigzagInt(size) => IntSize(size)
    case UnsignedInt(size) => IntSize(size)
    case BytesUpTo(max) => max < TWO_31
    case StringIn(size) => 0 < size < TWO_31
    case FixedBytes(size) => size < TWO_31
    case Submessage(desc) => DescriptorOk(desc)
    case Fixed32 => true
    case Fixed64 => true
  }

  predicate UniqueTags(fields: seq<Field>) {
    forall i, j {:trigger fields[i].tag, fields[j].tag} :: 0 <= i < j < |fields| ==> fields[i].tag != fields[j].tag
  }

  /** Tags are unique and not zero; a field whose presence is told by its value starts out as zero. */
  predicate DescriptorOk(desc: Descriptor)
    decreases desc
  {
    && UniqueTags(desc.fields)
    && forall i :: 0 <= i < |desc.fields| ==>
         var f := desc.fields[i];
         0 < f.tag < 0x2000_0000 && TypeOk(f.kind) && (f.rule.Singular? ==> f.initial == None)
  }

  // ----- zeros and defaults -----

  /** pb_check_proto3_default_value for one value. */
  predicate IsZero(k: FieldType, v: Value)
    decreases k
  {
    match k
    case BytesUpTo(_) => v == Raw([])
    case StringIn(_) => v.Raw? && (v.data == [] || v.data[0] == 0)
    case FixedBytes(size) => size == 0
    case Submessage(desc) => v.Message? && |v.slots| == |desc.fields|
      && forall i :: 0 <= i < |v.slots| ==> SlotIsZero(desc.fields[i], v.slots[i])
    case SignedInt(_) => v == Int(0)
    case UnsignedInt(_) => v == Int(0)
    case ZigzagInt(_) => v == Int(0)
    case Fixed32 => v == Int(0)
    case Fixed64 => v == Int(0)
  }

  /**
   * The same for a field of a submessage: a required one is never left out, and of an array of fixed count the first
   * bytes are taken for the count that other arrays have.
   */
  predicate SlotIsZero(f: Field, s: Slot)
    decreases f
  {
    match s
    case One(v) => !f.rule.Required? && IsZero(f.kind, v)
    case Maybe(o) => o == None
    case Many(items) => if IsFixed(f) then items in f.rule.count.silent else items == []
  }

  /** Without a has_ flag a value is left out when it is zero. */
  predicate LeftOut(f: Field, v: Value) {
    f.rule.Singular? && IsZero(f.kind, v)
  }

  /** pb_field_set_to_default: the contents a value starts with. */
  function Initial(k: FieldType, initial: Option<Value>): Value
    decreases k
  {
    match k
    case Submessage(desc) => Message(Defaults(desc))
    case BytesUpTo(_) => if initial.Some? then initial.value else Raw([])
    case StringIn(_) => if initial.Some? then initial.value else Raw([])
    case FixedBytes(size) => if initial.Some? then initial.value else Raw(Zeros(size))
    case SignedInt(_) => if initial.Some? then initial.value else Int(0)
    case UnsignedInt(_) => if initial.Some? then initial.value else Int(0)
    case ZigzagInt(_) => if initial.Some? then initial.value else Int(0)
    case Fixed32 => if initial.Some? then initial.value else Int(0)
    case Fixed64 => if initial.Some? then initial.value else Int(0)
  }

  function DefaultSlot(f: Field): Slot
    decreases f
  {
    match f.rule
    case Required => One(Initial(f.kind, f.initial))
    case Singular => One(Initial(f.kind, f.initial))
    case Optional => Maybe(None)
    case OneOf(_) => Maybe(None)
    case Repeated(_, _) => Many([])
  }

  /** pb_message_set_to_defaults */
  function Defaults(desc: Descriptor): (r: seq<Slot>)
    ensures |r| == |desc.fields| && forall i :: 0 <= i < |r| ==> r[i] == DefaultSlot(desc.fields[i])
    decreases desc
  {
    seq(|desc.fields|, i requires 0 <= i < |desc.fields| => DefaultSlot(desc.fields[i]))
  }

  // ----- what is kept of a message -----

  /** Of what is left out, the contents that decoding starts with are kept, and all the rest of the message is. */
  function KeptValue(k: FieldType, v: Value): Value
    decreases k, 0
  {
    if k.Submessage? && v.Message? && |v.slots| == |k.desc.fields| then Message(Kept(k.desc, v.slots)) else v
  }

  function KeptItems(k: FieldType, items: seq<Value>): (r: seq<Value>)
    ensures |r| == |items|
    decreases k, 1
  {
    seq(|items|, i requires 0 <= i < |items| => KeptValue(k, items[i]))
  }

  function KeptSlot(f: Field, s: Slot): Slot
    decreases f
  {
    match s
    case One(v) => if LeftOut(f, v) then DefaultSlot(f) else One(KeptValue(f.kind, v))
    case Maybe(o) => if o == None then s else Maybe(Some(KeptValue(f.kind, o.value)))
    case Many(items) => Many(KeptItems(f.kind, items))
  }

  function Kept(desc: Descriptor, slots: seq<Slot>): (r: seq<Slot>)
    requires |slots| == |desc.fields|
    ensures |r| == |slots|
    decreases desc
  {
    seq(|slots|, i requires 0 <= i < |slots| => KeptSlot(desc.fields[i], slots[i]))
  }

  /** Every string that is written leaves room for its terminator. */
  predicate ValueReads(k: FieldType, v: Value)
    decreases k
  {
    match k
    case StringIn(size) => v.Raw? && |v.data| < size
    case Submessage(desc) => v.Message? && MessageReads(desc, v.slots)
    case _ => true
  }

  predicate SlotReads(f: Field, s: Slot)
    decreases f
  {
    match s
    case One(v) => LeftOut(f, v) || ValueReads(f.kind, v)
    case Maybe(o) => o.Some? ==> ValueReads(f.kind, o.value)
    case Many(items) => forall i :: 0 <= i < |items| ==> ValueReads(f.kind, items[i])
  }

  predicate MessageReads(desc: Descriptor, slots: seq<Slot>)
    decreases desc
  {
    |slots| == |desc.fields| && forall i :: 0 <= i < |slots| ==> SlotReads(desc.fields[i], slots[i])
  }

  // ----- storage that was zero to begin with -----

  /** What zeroed storage holds. */
  function ZeroValue(k: FieldType): Value
    decreases k
  {
    match k
    case Submessage(desc) => Message(ZeroSlots(desc))
    case BytesUpTo(_) => Raw([])
    case StringIn(_) => Raw([])
    case FixedBytes(size) => Raw(Zeros(size))
    case _ => Int(0)
  }

  function ZeroSlot(f: Field): Slot
    decreases f
  {
    match f.rule
    case Required => One(ZeroValue(f.kind))
    case Singular => One(ZeroValue(f.kind))
    case Optional => Maybe(None)
    case OneOf(_) => Maybe(None)
    case Repeated(max, count) => Many(if count.FixedCount? then seq(max, _ => ZeroValue(f.kind)) else [])
  }

  function ZeroSlots(desc: Descriptor): (r: seq<Slot>)
    ensures |r| == |desc.fields|
    decreases desc
  {
    seq(|desc.fields|, i requires 0 <= i < |desc.fields| => ZeroSlot(desc.fields[i]))
  }

  /** A decoded message in such storage: an array of fixed count that decoding has not come to is all zeros. */
  function OnZeros(k: FieldType, v: Value): Value
    decreases k
  {
    if k.Submessage? && v.Message? && |v.slots| == |k.desc.fields| then Message(AllOnZeros(k.desc, v.slots)) else v
  }

  function SlotOnZeros(f: Field, s: Slot): Slot
    decreases f
  {
    match s
    case One(v) => One(OnZeros(f.kind, v))
    case Maybe(o) => if o == None then s else Maybe(Some(OnZeros(f.kind, o.value)))
    case Many(items) =>
      if IsFixed(f) && items == [] then ZeroSlot(f)
      else Many(seq(|items|, i requires 0 <= i < |items| => OnZeros(f.kind, items[i])))
  }

  function AllOnZeros(desc: Descriptor, slots: seq<Slot>): (r: seq<Slot>)
    requires |slots| == |desc.fields|
    ensures |r| == |slots|
    decreases desc
  {
    seq(|slots|, i requires 0 <= i < |slots| => SlotOnZeros(desc.fields[i], slots[i]))
  }

  /** What is left out of the message is zero in all its parts. */
  predicate ValueShows(k: FieldType, v: Value)
    decreases k
  {
    k.Submessage? && v.Message? ==> MessageShows(k.desc, v.slots)
  }

  predicate SlotShows(f: Field, s: Slot)
    decreases f
  {
    match s
    case One(v) => if LeftOut(f, v) then v == ZeroValue(f.kind) else ValueShows(f.kind, v)
    case Maybe(o) => o.Some? ==> ValueShows(f.kind, o.value)
    case Many(items) => forall i :: 0 <= i < |items| ==> ValueShows(f.kind, items[i])
  }

  predicate MessageShows(desc: Descriptor, slots: seq<Slot>)
    decreases desc
  {
    |slots| == |desc.fields| ==> forall i :: 0 <= i < |slots| ==> SlotShows(desc.fields[i], slots[i])
  }

  /** Where a zero was left out, decoding finds zeros. */
  lemma {:induction false} ZeroIsInitial(k: FieldType, v: Value)
    requires TypeOk(k) && ValueHeld(k, v) && IsZero(k, v)
    ensures OnZeros(k, Initial(k, None)) == ZeroValue(k)
    decreases k
  {
    match k
    case Submessage(desc) =>
      forall i | 0 <= i < |v.slots| ensures SlotOnZeros(desc.fields[i], Defaults(desc)[i]) == ZeroSlot(desc.fields[i]) {
        ZeroSlotIsDefault(desc.fields[i], v.slots[i]);
      }
      assert AllOnZeros(desc, Defaults(desc)) == ZeroSlots(desc);
    case _ =>
  }

  lemma {:induction false} ZeroSlotIsDefault(f: Field, s: Slot)
    requires TypeOk(f.kind) && (f.rule.Singular? ==> f.initial == None) && SlotHeld(f, s) && SlotIsZero(f, s)
    ensures SlotOnZeros(f, DefaultSlot(f)) == ZeroSlot(f)
    decreases f
  {
    if f.rule.Singular? {
      ZeroIsInitial(f.kind, s.value);
    }
  }

  /** So in zeroed storage a message is kept whole exactly if what is left out of it is zero in all its parts. */
  lemma {:induction false} KeptWhole(k: FieldType, v: Value)
    requires TypeOk(k) && ValueHeld(k, v)
    ensures OnZeros(k, KeptValue(k, v)) == v <==> ValueShows(k, v)
    decreases k
  {
    if k.Submessage? {
      MessageKeptWhole(k.desc, v.slots);
    }
  }

  lemma {:induction false} MessageKeptWhole(desc: Descriptor, slots: seq<Slot>)
    requires DescriptorOk(desc) && MessageHeld(desc, slots)
    ensures AllOnZeros(desc, Kept(desc, slots)) == slots <==> MessageShows(desc, slots)
    decreases desc
  {
    var r := AllOnZeros(desc, Kept(desc, slots));
    forall i | 0 <= i < |slots| ensures r[i] == slots[i] <==> SlotShows(desc.fields[i], slots[i]) {
      SlotKeptWhole(desc.fields[i], slots[i]);
    }
    assert r == slots <==> forall i :: 0 <= i < |slots| ==> r[i] == slots[i];
  }

  lemma {:induction false} SlotKeptWhole(f: Field, s: Slot)
    requires TypeOk(f.kind) && (f.rule.Singular? ==> f.initial == None) && SlotHeld(f, s)
    ensures SlotOnZeros(f, KeptSlot(f, s)) == s <==> SlotShows(f, s)
    decreases f
  {
    match s
    case One(v) =>
      if LeftOut(f, v) { ZeroIsInitial(f.kind, v); } else { KeptWhole(f.kind, v); }
    case Maybe(o) => if o.Some? { KeptWhole(f.kind, o.value); }
    case Many(items) =>
      var kept := KeptItems(f.kind, items);
      if items != [] {
        var r := SlotOnZeros(f, Many(kept)).items;
        forall i | 0 <= i < |items| ensures r[i] == items[i] <==> ValueShows(f.kind, items[i]) {
          assert kept[i] == KeptValue(f.kind, items[i]) && r[i] == OnZeros(f.kind, kept[i]);
          KeptWhole(f.kind, items[i]);
        }
        assert r == items <==> forall i :: 0 <= i < |items| ==> r[i] == items[i];
      }
  }
}
