/**
 * Whatever the bytes, what the decoder stores fits where it is stored (nanopb pb_decode.c): numbers in the range of
 * their fields, strings with room for their terminators, arrays no longer than declared, one field of a oneof at most.
 */
module ProtoStorage {
  import opened Keys
  import opened Coding
  import opened Descriptors
  import opened ProtoScalars
  import opened ProtoWire

  // ----- what fits -----

  predicate ValueFits(k: FieldType, v: Value)
    decreases k
  {
    match k
    case SignedInt(size) => IntSize(size) && v.Int? && InSigned(v.n, size)
    case ZigzagInt(size) => IntSize(size) && v.Int? && InSigned(v.n, size)
    case UnsignedInt(size) => IntSize(size) && v.Int? && 0 <= v.n < Span(size)
    case Fixed32 => v.Int? && 0 <= v.n < TWO_32
    case Fixed64 => v.Int? && 0 <= v.n < TWO_64
    case BytesUpTo(max) => v.Raw? && |v.data| <= max
    case StringIn(size) => v.Raw? && |v.data| < size
    case FixedBytes(size) => v.Raw? && |v.data| == size
    case Submessage(desc) => v.Message? && MessageFits(desc, v.slots)
  }

  predicate SlotFits(f: Field, s: Slot)
    decreases f
  {
    match f.rule
    case Required => s.One? && ValueFits(f.kind, s.value)
    case Singular => s.One? && ValueFits(f.kind, s.value)
    case Optional => s.Maybe? && (s.option.Some? ==> ValueFits(f.kind, s.option.value))
    case OneOf(_) => s.Maybe? && (s.option.Some? ==> ValueFits(f.kind, s.option.value))
    case Repeated(max, _) =>
      s.Many? && |s.items| <= max && forall i :: 0 <= i < |s.items| ==> ValueFits(f.kind, s.items[i])
  }

  predicate MessageFits(desc: Descriptor, slots: seq<Slot>)
    decreases desc
  {
    && |slots| == |desc.fields|
    && (forall i :: 0 <= i < |slots| ==> SlotFits(desc.fields[i], slots[i]))
    && OneAtMost(desc, slots)
  }

  /** The contents that fields start with fit, too. */
  predicate StartsOk(desc: Descriptor)
    decreases desc
  {
    forall i :: 0 <= i < |desc.fields| ==> FieldStartsOk(desc.fields[i])
  }

  predicate FieldStartsOk(f: Field)
    decreases f
  {
    && TypeOk(f.kind)
    && (match f.kind
        case Submessage(desc) => StartsOk(desc)
        case _ => f.initial.Some? ==> ValueFits(f.kind, f.initial.value))
  }

  lemma {:induction false} InitialFits(k: FieldType, initial: Option<Value>)
    requires TypeOk(k)
    requires if k.Submessage? then StartsOk(k.desc) else initial.Some? ==> ValueFits(k, initial.value)
    ensures ValueFits(k, Initial(k, initial))
    decreases k
  {
    match k
    case Submessage(desc) => DefaultsFit(desc);
    case _ =>
  }

  lemma {:induction false} DefaultsFit(desc: Descriptor)
    requires StartsOk(desc)
    ensures MessageFits(desc, Defaults(desc))
    decreases desc
  {
    forall i | 0 <= i < |desc.fields| ensures SlotFits(desc.fields[i], Defaults(desc)[i]) {
      var f := desc.fields[i];
      assert FieldStartsOk(f);
      if f.rule.Required? || f.rule.Singular? { InitialFits(f.kind, f.initial); }
    }
  }

  // ----- scalars -----

  lemma ClampedFits(svalue: int, size: nat, rest: Bytes)
    requires Clamped(svalue, size, rest).Some?
    ensures IntSize(size) && InSigned(svalue, size) && Clamped(svalue, size, rest) == Some((Int(svalue), rest))
  {
    SignedInRange(ToUnsigned(svalue), size);
  }

  lemma SignedInRange(v: nat, size: nat)
    requires IntSize(size)
    ensures InSigned(ToSigned(v, size), size)
  {
  }

  lemma {:induction false} FixedBelow(s: Bytes)
    ensures DecodeFixed(s) < Power(256, |s|)
  {
    if s != [] {
      FixedBelow(s[1..]);
    }
  }

  /** A number that decodes is in the range of its field. */
  lemma ScalarFits(k: FieldType, s: Bytes)
    requires Packable(k) && DecodeScalar(k, s).Some?
    ensures ValueFits(k, DecodeScalar(k, s).value.0)
  {
    match k
    case SignedInt(size) =>
      var (v, rest) := DecodeVarint(s).value;
      ClampedFits(if size == 8 then ToSigned(v, 8) else ToSigned(v, 4), size, rest);
    case ZigzagInt(size) =>
      var (v, rest) := DecodeVarint(s).value;
      ClampedFits(Unzigzag(v), size, rest);
    case UnsignedInt(size) =>
    case Fixed32 =>
      Powers();
      FixedBelow(s[..4]);
    case Fixed64 =>
      Powers();
      FixedBelow(s[..8]);
  }

  // ----- one field -----

  /** Every field but `i` is as it was, or belongs to the same oneof and is gone. */
  lemma OthersStay(desc: Descriptor, i: nat, wireType: nat, s: Bytes, slots: seq<Slot>, j: nat)
    requires i < |desc.fields| == |slots| && j < |slots| && j != i && DecodeField(desc, i, wireType, s, slots).Some?
    ensures DecodeField(desc, i, wireType, s, slots).value.0[j]
         == if SameOneof(desc.fields[i], desc.fields[j]) && slots[i].Maybe? then Maybe(None) else slots[j]
  {
  }

  lemma FieldKeepsOneof(desc: Descriptor, i: nat, wireType: nat, s: Bytes, slots: seq<Slot>)
    requires i < |desc.fields| == |slots| && DecodeField(desc, i, wireType, s, slots).Some? && OneAtMost(desc, slots)
    requires desc.fields[i].rule.OneOf? ==> slots[i].Maybe?
    ensures OneAtMost(desc, DecodeField(desc, i, wireType, s, slots).value.0)
  {
    var r := DecodeField(desc, i, wireType, s, slots).value.0;
    forall a, b {:trigger r[a].option, r[b].option} | 0 <= a < b < |r| && SameOneof(desc.fields[a], desc.fields[b])
        && r[a].Maybe? && r[b].Maybe?
      ensures r[a].option == None || r[b].option == None
    {
      if a != i { OthersStay(desc, i, wireType, s, slots, a); }
      if b != i { OthersStay(desc, i, wireType, s, slots, b); }
    }
  }

  /** What field `i` holds after decoding one more value of it. */
  lemma {:induction false} FieldFits(desc: Descriptor, i: nat, wireType: nat, s: Bytes, slots: seq<Slot>)
    requires StartsOk(desc) && i < |desc.fields| && MessageFits(desc, slots)
    requires DecodeField(desc, i, wireType, s, slots).Some?
    ensures MessageFits(desc, DecodeField(desc, i, wireType, s, slots).value.0)
    decreases desc, 0, 1
  {
    var r := DecodeField(desc, i, wireType, s, slots).value.0;
    FieldKeepsOneof(desc, i, wireType, s, slots);
    SlotBecomes(desc, i, wireType, s, slots);
    forall j | 0 <= j < |r| ensures SlotFits(desc.fields[j], r[j]) {
      if j != i { OthersStay(desc, i, wireType, s, slots, j); }
    }
  }

  lemma {:induction false} SlotBecomes(desc: Descriptor, i: nat, wireType: nat, s: Bytes, slots: seq<Slot>)
    requires i < |desc.fields| == |slots| && DecodeField(desc, i, wireType, s, slots).Some?
    requires FieldStartsOk(desc.fields[i]) && SlotFits(desc.fields[i], slots[i])
    ensures SlotFits(desc.fields[i], DecodeField(desc, i, wireType, s, slots).value.0[i])
    decreases desc, 0, 0
  {
    var f := desc.fields[i];
    match slots[i]
    case One(current) => DecodedFits(f.kind, s, current);
    case Maybe(o) =>
      InitialFits(f.kind, f.initial);
      DecodedFits(f.kind, s, if f.rule.Optional? && o.Some? then o.value else Initial(f.kind, f.initial));
    case Many(items) =>
      if wireType == WT_STRING && Packable(f.kind) {
        PackedFits(f.kind, ReadString(s).value.0, items, f.rule.max);
      } else {
        InitialFits(f.kind, None);
        DecodedFits(f.kind, s, Initial(f.kind, None));
      }
  }

  lemma {:induction false} PackedFits(k: FieldType, s: Bytes, items: seq<Value>, max: nat)
    requires Packable(k) && DecodePacked(k, s, items, max).Some? && |items| <= max
    requires forall i :: 0 <= i < |items| ==> ValueFits(k, items[i])
    ensures var r := DecodePacked(k, s, items, max).value;
      |r| <= max && forall i :: 0 <= i < |r| ==> ValueFits(k, r[i])
    decreases |s|
  {
    if s != [] {
      ScalarFits(k, s);
      var (v, rest) := DecodeValue(k, s, Int(0)).value;
      PackedFits(k, rest, items + [v], max);
    }
  }

  lemma {:induction false} DecodedFits(k: FieldType, s: Bytes, current: Value)
    requires TypeOk(k) && (k.Submessage? ==> StartsOk(k.desc)) && ValueFits(k, current)
    requires DecodeValue(k, s, current).Some?
    ensures ValueFits(k, DecodeValue(k, s, current).value.0)
    decreases k, 1
  {
    match k
    case Submessage(desc) => LoopFits(desc, ReadString(s).value.0, current.slots, Untracked());
    case BytesUpTo(_) =>
    case StringIn(_) =>
    case FixedBytes(_) =>
    case _ => ScalarFits(k, s);
  }

  lemma EnterFits(desc: Descriptor, slots: seq<Slot>, t: Track, i: nat)
    requires MessageFits(desc, slots) && i < |slots| && Enter(desc.fields, slots, t, i).Some?
    ensures MessageFits(desc, Enter(desc.fields, slots, t, i).value.0)
  {
    var r := Enter(desc.fields, slots, t, i).value.0;
    forall j | 0 <= j < |r| ensures SlotFits(desc.fields[j], r[j]) { assert SlotFits(desc.fields[j], slots[j]); }
  }

  /** On any bytes a message that decodes into storage fits it. */
  lemma {:induction false} LoopFits(desc: Descriptor, s: Bytes, slots: seq<Slot>, t: Track)
    requires StartsOk(desc) && MessageFits(desc, slots) && DecodeLoop(desc, s, slots, t).Some?
    ensures MessageFits(desc, DecodeLoop(desc, s, slots, t).value)
    decreases desc, 1, |s|
  {
    if s != [] && DecodeVarint32(s).value.0 != 0 {
      var (key, body) := DecodeVarint32(s).value;
      var found := FindField(desc.fields, key / 8);
      if found == None {
        LoopFits(desc, SkipField(key % 8, body).value, slots, t);
      } else {
        var i := found.value;
        EnterFits(desc, slots, t, i);
        var (entered, t') := Enter(desc.fields, slots, t, i).value;
        FieldFits(desc, i, key % 8, body, entered);
        var (slots', rest) := DecodeField(desc, i, key % 8, body, entered).value;
        LoopFits(desc, rest, slots', Mark(desc.fields, t', i));
      }
    }
  }

  lemma DecodedMessageFits(desc: Descriptor, s: Bytes)
    requires StartsOk(desc)
    ensures Decode(desc, s).Some? ==> MessageFits(desc, Decode(desc, s).value)
  {
    DefaultsFit(desc);
    if Decode(desc, s).Some? { LoopFits(desc, s, Defaults(desc), Untracked()); }
  }
}
