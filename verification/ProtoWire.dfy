/** What nanopb writes for a message and what it reads back (nanopb pb_encode.c, pb_decode.c). */
module ProtoWire {
  import opened Keys
  import opened Coding
  import opened Descriptors
  import opened ProtoScalars

  const WT_VARINT: nat := 0
  const WT_64BIT: nat := 1
  const WT_STRING: nat := 2
  const WT_32BIT: nat := 5

  const MAX_REQUIRED_FIELDS: nat := 64

  // ----- encoding -----

  /** pb_encode_tag */
  function TagBytes(wireType: nat, tag: nat): (r: Bytes)
    ensures r != []
  {
    Varint(tag * 8 + wireType)
  }

  function WireType(k: FieldType): (r: nat)
    ensures r < 8
  {
    match k
    case SignedInt(_) => WT_VARINT
    case UnsignedInt(_) => WT_VARINT
    case ZigzagInt(_) => WT_VARINT
    case Fixed32 => WT_32BIT
    case Fixed64 => WT_64BIT
    case _ => WT_STRING
  }

  function EncodeValue(k: FieldType, v: Value): Bytes
    decreases k, 0
  {
    match v
    case Int(n) => EncodeScalar(k, n)
    case Raw(data) => Prefixed(data)
    case Message(slots) => if k.Submessage? then Prefixed(EncodeFrom(k.desc, slots, 0)) else []
  }

  /** The data of a packed array. */
  function EncodePacked(k: FieldType, items: seq<Value>): Bytes
    decreases k, 1, |items|
  {
    if items == [] then [] else EncodeValue(k, items[0]) + EncodePacked(k, items[1..])
  }

  /** The items of an array that is not packed, each with its tag. */
  function EncodeTagged(f: Field, items: seq<Value>): Bytes
    decreases f, 0, |items|
  {
    if items == [] then []
    else TagBytes(WireType(f.kind), f.tag) + (EncodeValue(f.kind, items[0]) + EncodeTagged(f, items[1..]))
  }

  function EncodeOne(f: Field, v: Value): Bytes
    decreases f, 0
  {
    TagBytes(WireType(f.kind), f.tag) + EncodeValue(f.kind, v)
  }

  /** encode_basic_field */
  function EncodeSlot(f: Field, s: Slot): Bytes
    decreases f, 1
  {
    match s
    case One(v) => if LeftOut(f, v) then [] else EncodeOne(f, v)
    case Maybe(o) => if o == None then [] else EncodeOne(f, o.value)
    case Many(items) =>
      if items == [] then []
      else if Packable(f.kind) then TagBytes(WT_STRING, f.tag) + Prefixed(EncodePacked(f.kind, items))
      else EncodeTagged(f, items)
  }

  /** pb_encode, from field `i` on. */
  function EncodeFrom(desc: Descriptor, slots: seq<Slot>, i: nat): Bytes
    decreases desc, |desc.fields| - i
  {
    if i >= |desc.fields| || i >= |slots| then []
    else EncodeSlot(desc.fields[i], slots[i]) + EncodeFrom(desc, slots, i + 1)
  }

  // ----- decoding -----

  /** a | b */
  function Or(a: nat, b: nat): nat {
    if a == 0 then b
    else if b == 0 then a
    else (if a % 2 == 1 || b % 2 == 1 then 1 else 0) + 2 * Or(a / 2, b / 2)
  }

  /** result |= (uint32_t)bits << bitpos */
  function TakeBits(result: nat, bits: nat, bitpos: nat): nat {
    Or(result, bits * Power(2, bitpos) % TWO_32)
  }

  /**
   * Past the thirty-second bit nothing is taken any more: a byte may add zeros, or repeat the sign of a negative
   * number. `bitpos` is a byte itself.
   */
  predicate Overflows(result: nat, b: byte, bitpos: nat) {
    b % 128 != 0 && (result < 0x8000_0000 || b != if bitpos < 63 then 0xff else 0x01)
  }

  /** The loop of pb_decode_varint32_eof once five bytes have been taken. */
  function LongVarint(s: Bytes, result: nat, bitpos: nat): (r: Option<(nat, Bytes)>)
    ensures r.Some? ==> |r.value.1| < |s|
  {
    if s == [] || (bitpos >= 32 && Overflows(result, s[0], bitpos)) then None
    else
      var result', bitpos' := if bitpos >= 32 then result else TakeBits(result, s[0] % 128, bitpos), (bitpos + 7) % 256;
      if s[0] >= 128 then LongVarint(s[1..], result', bitpos')
      else if bitpos' == 35 && s[0] % 128 >= 16 then None
      else Some((result', s[1..]))
  }

  /** The low seven bits of the first `n` bytes. */
  function LowBits(s: Bytes, n: nat): nat {
    if s == [] || n == 0 then 0 else s[0] % 128 + 128 * LowBits(s[1..], n - 1)
  }

  /** The first `n` bytes are there, and each says that there is one more. */
  predicate GoesOn(s: Bytes, n: nat) {
    n <= |s| && forall i :: 0 <= i < n ==> s[i] >= 128
  }

  /** pb_decode_varint32: a varint of five bytes at most has to fit, and a longer one may only extend its sign. */
  function DecodeVarint32(s: Bytes): (r: Option<(nat, Bytes)>)
    ensures r.Some? ==> |r.value.1| < |s|
  {
    match ReadVarint(s, 5)
    case Some((v, n)) => if v < TWO_32 then Some((v, s[n..])) else None
    case None => if GoesOn(s, 5) then LongVarint(s[5..], LowBits(s, 5) % TWO_32, 35) else None
  }

  /** pb_make_string_substream: the bytes of the substream, and what follows them. */
  function ReadString(s: Bytes): (r: Option<(Bytes, Bytes)>)
    ensures r.Some? ==> |r.value.0| < |s| && |r.value.1| < |s|
  {
    match DecodeVarint32(s)
    case None => None
    case Some((size, rest)) => if |rest| < size then None else Some((rest[..size], rest[size..]))
  }

  /** pb_skip_field */
  function SkipField(wireType: nat, s: Bytes): (r: Option<Bytes>)
    ensures r.Some? ==> |r.value| <= |s|
  {
    if wireType == WT_VARINT then SkipVarint(s)
    else if wireType == WT_64BIT then (if |s| < 8 then None else Some(s[8..]))
    else if wireType == WT_STRING then (match ReadString(s) case None => None case Some((_, rest)) => Some(rest))
    else if wireType == WT_32BIT then (if |s| < 4 then None else Some(s[4..]))
    else None
  }

  function SkipVarint(s: Bytes): (r: Option<Bytes>)
    ensures r.Some? ==> |r.value| <= |s|
  {
    if s == [] then None else if s[0] < 128 then Some(s[1..]) else SkipVarint(s[1..])
  }

  /** pb_field_iter_find: the field with the tag. */
  function FindField(fields: seq<Field>, tag: nat): (r: Option<nat>)
    ensures r.Some? ==> r.value < |fields| && fields[r.value].tag == tag
    ensures r == None ==> forall i :: 0 <= i < |fields| ==> fields[i].tag != tag
  {
    if fields == [] then None
    else if fields[|fields| - 1].tag == tag then Some(|fields| - 1)
    else FindField(fields[..|fields| - 1], tag)
  }

  /** required_field_index: the number of required fields before field `i`. */
  function RequiredBefore(fields: seq<Field>, i: nat): nat
    requires i <= |fields|
  {
    if i == 0 then 0 else RequiredBefore(fields, i - 1) + (if fields[i - 1].rule.Required? then 1 else 0)
  }

  function Seen(fields: seq<Field>, seen: set<nat>, i: nat): set<nat>
    requires i < |fields|
  {
    if fields[i].rule.Required? && RequiredBefore(fields, i) < MAX_REQUIRED_FIELDS
    then seen + {RequiredBefore(fields, i)} else seen
  }

  /** The check of the fields_seen bitmap: the first 64 required fields are all there. */
  predicate AllSeen(fields: seq<Field>, seen: set<nat>) {
    forall k :: 0 <= k < RequiredBefore(fields, |fields|) && k < MAX_REQUIRED_FIELDS ==> k in seen
  }

  /** The field decoders, into storage that holds `current`. */
  function DecodeValue(k: FieldType, s: Bytes, current: Value): (r: Option<(Value, Bytes)>)
    ensures r.Some? ==> |r.value.1| < |s|
    decreases k, 0
  {
    match k
    case BytesUpTo(max) =>
      (match ReadString(s)
       case None => None
       case Some((data, rest)) => if |data| > max then None else Some((Raw(data), rest)))
    case StringIn(size) =>
      (match ReadString(s)
       case None => None
       case Some((data, rest)) => if |data| + 1 > size then None else Some((Raw(data), rest)))
    case FixedBytes(size) =>
      (match ReadString(s)
       case None => None
       case Some((data, rest)) =>
         if data == [] then Some((Raw(Zeros(size)), rest)) else if |data| != size then None
         else Some((Raw(data), rest)))
    case Submessage(desc) =>
      (match ReadString(s)
       case None => None
       case Some((body, rest)) =>
         if !current.Message? || |current.slots| != |desc.fields| then None
         else
           match DecodeLoop(desc, body, current.slots, Untracked())
           case None => None
           case Some(slots) => Some((Message(slots), rest)))
    case _ => DecodeScalar(k, s)
  }

  /** A packed array, until its substream is empty or the array is full. */
  function DecodePacked(k: FieldType, s: Bytes, items: seq<Value>, max: nat): Option<seq<Value>>
    decreases k, 1, |s|
  {
    if s == [] then Some(items)
    else if |items| >= max then None
    else
      match DecodeValue(k, s, Int(0))
      case None => None
      case Some((v, rest)) => DecodePacked(k, rest, items + [v], max)
  }

  function ClearOneof(fields: seq<Field>, slots: seq<Slot>, group: Rule): (r: seq<Slot>)
    requires |slots| == |fields|
    ensures |r| == |slots|
  {
    seq(|slots|, i requires 0 <= i < |slots| => if fields[i].rule == group then Maybe(None) else slots[i])
  }

  /** decode_static_field, for field `i`. */
  function DecodeField(desc: Descriptor, i: nat, wireType: nat, s: Bytes, slots: seq<Slot>)
    : (r: Option<(seq<Slot>, Bytes)>)
    requires i < |desc.fields| == |slots|
    ensures r.Some? ==> |r.value.0| == |slots| && |r.value.1| <= |s|
    decreases desc, 0
  {
    var f := desc.fields[i];
    match slots[i]
    case One(current) =>
      (match DecodeValue(f.kind, s, current) case None => None case Some((v, rest)) => Some((slots[i := One(v)], rest)))
    case Maybe(o) =>
      var current := if f.rule.Optional? && o.Some? then o.value else Initial(f.kind, f.initial);
      (match DecodeValue(f.kind, s, current)
       case None => None
       case Some((v, rest)) =>
         var cleared := if f.rule.OneOf? then ClearOneof(desc.fields, slots, f.rule) else slots;
         Some((cleared[i := Maybe(Some(v))], rest)))
    case Many(items) =>
      var max := if f.rule.Repeated? then f.rule.max else 0;
      if wireType == WT_STRING && Packable(f.kind) then
        match ReadString(s)
        case None => None
        case Some((body, rest)) =>
          (match DecodePacked(f.kind, body, items, max)
           case None => None
           case Some(more) => Some((slots[i := Many(more)], rest)))
      else if |items| >= max then None
      else
        match DecodeValue(f.kind, s, Initial(f.kind, None))
        case None => None
        case Some((v, rest)) => Some((slots[i := Many(items + [v])], rest))
  }

  /** What the loop keeps track of: the required fields seen, and the fixed array that is being filled. */
  datatype Track = Track(seen: set<nat>, counting: Option<nat>)

  function Untracked(): Track {
    Track({}, None)
  }

  function Mark(fields: seq<Field>, t: Track, i: nat): Track
    requires i < |fields|
  {
    t.(seen := Seen(fields, t.seen, i))
  }

  /** The fixed array that was being filled, if any, has all its items. */
  predicate CountDone(fields: seq<Field>, slots: seq<Slot>, counting: Option<nat>) {
    counting.Some? ==>
      var i := counting.value;
      i < |fields| && i < |slots| && IsFixed(fields[i]) && slots[i].Many? && |slots[i].items| == fields[i].rule.max
  }

  /** Coming to field `i`: another fixed array starts from nothing, once the one before is complete. */
  function Enter(fields: seq<Field>, slots: seq<Slot>, t: Track, i: nat): (r: Option<(seq<Slot>, Track)>)
    requires i < |fields| == |slots|
    ensures r.Some? ==> |r.value.0| == |slots|
  {
    if !IsFixed(fields[i]) || t.counting == Some(i) then Some((slots, t))
    else if !CountDone(fields, slots, t.counting) then None
    else Some((slots[i := Many([])], t.(counting := Some(i))))
  }

  /** pb_decode_noinit, into `slots`. With no fields, a key of tag zero finds the end marker, which is no field. */
  function DecodeLoop(desc: Descriptor, s: Bytes, slots: seq<Slot>, t: Track): (r: Option<seq<Slot>>)
    requires |slots| == |desc.fields|
    ensures r.Some? ==> |r.value| == |desc.fields|
    decreases desc, 1, |s|
  {
    if s == [] then Finished(desc, slots, t)
    else
      match DecodeVarint32(s)
      case None => None
      case Some((key, rest)) =>
        if key == 0 then Finished(desc, slots, t)
        else if desc.fields == [] && key / 8 == 0 then None
        else
          match FindField(desc.fields, key / 8)
          case None =>
            (match SkipField(key % 8, rest) case None => None case Some(rest') => DecodeLoop(desc, rest', slots, t))
          case Some(i) =>
            match Enter(desc.fields, slots, t, i)
            case None => None
            case Some((entered, t')) =>
              (match DecodeField(desc, i, key % 8, rest, entered)
               case None => None
               case Some((slots', rest')) => DecodeLoop(desc, rest', slots', Mark(desc.fields, t', i)))
  }

  function Finished(desc: Descriptor, slots: seq<Slot>, t: Track): Option<seq<Slot>> {
    if CountDone(desc.fields, slots, t.counting) && AllSeen(desc.fields, t.seen) then Some(slots) else None
  }

  /** pb_decode */
  function Decode(desc: Descriptor, s: Bytes): Option<seq<Slot>> {
    DecodeLoop(desc, s, Defaults(desc), Untracked())
  }

  function Encode(desc: Descriptor, slots: seq<Slot>): Bytes {
    EncodeFrom(desc, slots, 0)
  }
}
