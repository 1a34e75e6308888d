/**
 * Readers that lack fields at any depth (nanopb pb_decode.c, pb_decode_noinit and pb_dec_submessage): what they get
 * of an encoded message.
 */
module ProtoViews {
  import opened Keys
  import opened Coding
  import opened Descriptors
  import opened ProtoScalars
  import opened ProtoWire
  import opened ProtoRoundTrip
  import opened ProtoFields

  // ----- what a reader knows -----

  /** The places of the fields that the reader knows, in order. */
  predicate Places(at: seq<nat>, n: nat) {
    (forall j :: 0 <= j < |at| ==> at[j] < n) && forall j, k :: 0 <= j < k < |at| ==> at[j] < at[k]
  }

  /** The places of the fields that the reader knows, and for each that is a submessage what it knows of that. */
  datatype View = View(at: seq<nat>, inner: seq<View>)

  predicate ViewOf(desc: Descriptor, w: View)
    decreases w, 0
  {
    && Places(w.at, |desc.fields|) && |w.inner| == |w.at|
    && forall j :: 0 <= j < |w.at| ==> FieldView(desc.fields[w.at[j]], w.inner[j])
  }

  predicate FieldView(f: Field, w: View)
    decreases w, 1
  {
    f.kind.Submessage? ==> ViewOf(f.kind.desc, w)
  }

  /** The descriptor of the reader. */
  function SeenDesc(desc: Descriptor, w: View): (r: Descriptor)
    requires ViewOf(desc, w)
    ensures |r.fields| == |w.at|
    ensures forall j :: 0 <= j < |w.at| ==> r.fields[j] == SeenField(desc.fields[w.at[j]], w.inner[j])
    decreases w, 0
  {
    Descriptor(seq(|w.at|, j requires 0 <= j < |w.at| => SeenField(desc.fields[w.at[j]], w.inner[j])))
  }

  function SeenField(f: Field, w: View): (r: Field)
    requires FieldView(f, w)
    ensures r.tag == f.tag && r.rule == f.rule && r.initial == f.initial && WireType(r.kind) == WireType(f.kind)
    ensures r.kind.Submessage? <==> f.kind.Submessage?
    ensures !f.kind.Submessage? ==> r == f
    ensures f.kind.Submessage? ==> r.kind == Submessage(SeenDesc(f.kind.desc, w))
    decreases w, 1
  {
    if f.kind.Submessage? then f.(kind := Submessage(SeenDesc(f.kind.desc, w))) else f
  }

  /** What it gets of a message: of what was left out, the contents that decoding starts with. */
  function SeenValue(f: Field, v: Value, w: View): Value
    requires FieldView(f, w)
    decreases w, 1
  {
    if f.kind.Submessage? && v.Message? && |v.slots| == |f.kind.desc.fields|
    then Message(SeenSlots(f.kind.desc, v.slots, w)) else v
  }

  function SeenItems(f: Field, items: seq<Value>, w: View): (r: seq<Value>)
    requires FieldView(f, w)
    ensures |r| == |items| && forall i :: 0 <= i < |items| ==> r[i] == SeenValue(f, items[i], w)
    decreases w, 2
  {
    seq(|items|, i requires 0 <= i < |items| => SeenValue(f, items[i], w))
  }

  function SeenSlot(f: Field, s: Slot, w: View): Slot
    requires FieldView(f, w)
    decreases w, 3
  {
    match s
    case One(v) => if LeftOut(f, v) then DefaultSlot(SeenField(f, w)) else One(SeenValue(f, v, w))
    case Maybe(o) => if o == None then s else Maybe(Some(SeenValue(f, o.value, w)))
    case Many(items) => Many(SeenItems(f, items, w))
  }

  function SeenSlots(desc: Descriptor, slots: seq<Slot>, w: View): (r: seq<Slot>)
    requires ViewOf(desc, w) && |slots| == |desc.fields|
    ensures |r| == |w.at|
    ensures forall j :: 0 <= j < |r| ==> r[j] == SeenSlot(desc.fields[w.at[j]], slots[w.at[j]], w.inner[j])
    decreases w, 0
  {
    seq(|w.at|, j requires 0 <= j < |w.at| => SeenSlot(desc.fields[w.at[j]], slots[w.at[j]], w.inner[j]))
  }

  /** Every string that the reader knows leaves room for its terminator. */
  predicate ValueSeenReads(f: Field, v: Value, w: View)
    requires FieldView(f, w)
    decreases w, 1
  {
    if f.kind.Submessage? then v.Message? && SeenReads(f.kind.desc, v.slots, w) else ValueReads(f.kind, v)
  }

  predicate SlotSeenReads(f: Field, s: Slot, w: View)
    requires FieldView(f, w)
    decreases w, 2
  {
    match s
    case One(v) => LeftOut(f, v) || ValueSeenReads(f, v, w)
    case Maybe(o) => o.Some? ==> ValueSeenReads(f, o.value, w)
    case Many(items) => forall i :: 0 <= i < |items| ==> ValueSeenReads(f, items[i], w)
  }

  predicate SeenReads(desc: Descriptor, slots: seq<Slot>, w: View)
    requires ViewOf(desc, w)
    decreases w, 0
  {
    |slots| == |desc.fields| &&
    forall j :: 0 <= j < |w.at| ==> SlotSeenReads(desc.fields[w.at[j]], slots[w.at[j]], w.inner[j])
  }

  lemma {:induction false} SeenOk(desc: Descriptor, w: View)
    requires DescriptorOk(desc) && ViewOf(desc, w)
    ensures DescriptorOk(SeenDesc(desc, w))
    decreases w, 0
  {
    var r := SeenDesc(desc, w);
    forall j | 0 <= j < |w.at| ensures TypeOk(r.fields[j].kind) {
      var f := desc.fields[w.at[j]];
      if f.kind.Submessage? { SeenOk(f.kind.desc, w.inner[j]); }
    }
  }

  // ----- decoding what is seen -----

  /** What the reader has got when it has come to its `j`-th field. */
  function SeenPartly(desc: Descriptor, slots: seq<Slot>, w: View, j: nat): (r: seq<Slot>)
    requires ViewOf(desc, w) && |slots| == |desc.fields| && j <= |w.at|
    ensures |r| == |w.at|
  {
    SeenSlots(desc, slots, w)[..j] + Defaults(SeenDesc(desc, w))[j..]
  }

  lemma SeenNext(desc: Descriptor, slots: seq<Slot>, w: View, j: nat)
    requires ViewOf(desc, w) && |slots| == |desc.fields| && j < |w.at|
    ensures SeenPartly(desc, slots, w, j)[j] == DefaultSlot(SeenField(desc.fields[w.at[j]], w.inner[j]))
    ensures SeenPartly(desc, slots, w, j)[j := SeenSlot(desc.fields[w.at[j]], slots[w.at[j]], w.inner[j])]
         == SeenPartly(desc, slots, w, j + 1)
  {
  }

  lemma SeenCounted(desc: Descriptor, slots: seq<Slot>, w: View, j: nat)
    requires ViewOf(desc, w) && MessageHeld(desc, slots) && j <= |w.at|
    ensures var r := SeenDesc(desc, w).fields; CountDone(r, SeenPartly(desc, slots, w, j), LastCounted(r, j))
  {
    var last := LastCounted(SeenDesc(desc, w).fields, j);
    if last.Some? {
      var k := w.at[last.value];
      assert SlotHeld(desc.fields[k], slots[k]);
      assert SeenPartly(desc, slots, w, j)[last.value] == SeenSlot(desc.fields[k], slots[k], w.inner[last.value]);
    }
  }

  /** Coming to its next field, the reader finds it as it was to begin with. */
  lemma SeenEnters(desc: Descriptor, slots: seq<Slot>, w: View, j: nat) returns (t: Track)
    requires ViewOf(desc, w) && MessageHeld(desc, slots) && j < |w.at|
    requires IsFixed(desc.fields[w.at[j]]) ==> desc.fields[w.at[j]].rule.max > 0
    ensures var r, before := SeenDesc(desc, w).fields, SeenPartly(desc, slots, w, j);
      && Enter(r, before, TrackBefore(r, j), j) == Some((before, t)) && Mark(r, t, j) == TrackBefore(r, j + 1)
      && (!r[j].rule.Required? ==> t == TrackBefore(r, j + 1)) && (IsFixed(r[j]) ==> t.counting == Some(j))
  {
    var r, before := SeenDesc(desc, w).fields, SeenPartly(desc, slots, w, j);
    SeenNext(desc, slots, w, j);
    SeenCounted(desc, slots, w, j);
    t := TrackBefore(r, j);
    if IsFixed(r[j]) {
      t := t.(counting := Some(j));
      assert before[j := Many([])] == before;
    }
  }

  /** No other field of its oneof is there. */
  lemma SeenClears(desc: Descriptor, slots: seq<Slot>, w: View, j: nat)
    requires ViewOf(desc, w) && MessageHeld(desc, slots) && j < |w.at| && desc.fields[w.at[j]].rule.OneOf?
    requires slots[w.at[j]].Maybe? && slots[w.at[j]].option.Some?
    ensures var before := SeenPartly(desc, slots, w, j);
      ClearOneof(SeenDesc(desc, w).fields, before, desc.fields[w.at[j]].rule) == before
  {
    var before, group := SeenPartly(desc, slots, w, j), desc.fields[w.at[j]].rule;
    forall m | 0 <= m < |w.at| && SeenDesc(desc, w).fields[m].rule == group ensures before[m] == Maybe(None) {
      if m < j {
        var a, b := w.at[m], w.at[j];
        assert a < b && SameOneof(desc.fields[a], desc.fields[b]) && SlotHeld(desc.fields[a], slots[a]);
        assert slots[a].Maybe? && slots[a].option == None;
        assert before[m] == SeenSlot(desc.fields[a], slots[a], w.inner[m]);
      }
    }
  }

  /** Where the loop of the reader stands, with `s` to read. */
  function LoopAt(desc: Descriptor, slots: seq<Slot>, w: View, j: nat, s: Bytes): Option<seq<Slot>>
    requires ViewOf(desc, w) && |slots| == |desc.fields| && j <= |w.at|
  {
    var r := SeenDesc(desc, w);
    DecodeLoop(r, s, SeenPartly(desc, slots, w, j), TrackBefore(r.fields, j))
  }

  lemma SeenSkipped(desc: Descriptor, slots: seq<Slot>, w: View, j: nat, s: Bytes)
    requires ViewOf(desc, w) && |slots| == |desc.fields| && j < |w.at|
    requires var f := desc.fields[w.at[j]];
      && SeenSlot(f, slots[w.at[j]], w.inner[j]) == DefaultSlot(SeenField(f, w.inner[j]))
      && !f.rule.Required? && (IsFixed(f) ==> f.rule.max == 0)
    ensures LoopAt(desc, slots, w, j, s) == LoopAt(desc, slots, w, j + 1, s)
  {
    SeenNext(desc, slots, w, j);
    SkipNext(SeenDesc(desc, w).fields, j);
    assert SeenPartly(desc, slots, w, j + 1) == SeenPartly(desc, slots, w, j);
  }

  lemma {:induction false} ValueSeen(f: Field, v: Value, w: View, rest: Bytes, current: Value)
    requires TypeOk(f.kind) && ValueHeld(f.kind, v) && FieldView(f, w) && ValueSeenReads(f, v, w)
    requires Fresh(SeenField(f, w).kind, current) && |EncodeValue(f.kind, v)| < TWO_32
    ensures DecodeValue(SeenField(f, w).kind, EncodeValue(f.kind, v) + rest, current)
         == Some((SeenValue(f, v, w), rest))
    decreases w, 4
  {
    if f.kind.Submessage? {
      StringRead(Encode(f.kind.desc, v.slots), rest);
      MessageSeen(f.kind.desc, v.slots, w);
    } else {
      ValueRoundTrip(f.kind, v, rest, current);
    }
  }

  /** A field of one value, known to the reader as its `j`-th. */
  lemma {:induction false} FieldSeen(desc: Descriptor, slots: seq<Slot>, w: View, j: nat, v: Value, rest: Bytes)
    requires DescriptorOk(desc) && MessageHeld(desc, slots) && ViewOf(desc, w) && j < |w.at|
    requires slots[w.at[j]].One? || (slots[w.at[j]].Maybe? && slots[w.at[j]].option.Some?)
    requires slots[w.at[j]].One? ==> !LeftOut(desc.fields[w.at[j]], slots[w.at[j]].value)
    requires v == PresentValue(slots[w.at[j]]) && ValueSeenReads(desc.fields[w.at[j]], v, w.inner[j])
    requires |EncodeValue(desc.fields[w.at[j]].kind, v)| < TWO_32
    ensures var f := desc.fields[w.at[j]];
      DecodeField(SeenDesc(desc, w), j, WireType(f.kind), EncodeValue(f.kind, v) + rest, SeenPartly(desc, slots, w, j))
      == Some((SeenPartly(desc, slots, w, j + 1), rest))
    decreases w, 0, 1
  {
    var f, r := desc.fields[w.at[j]], SeenDesc(desc, w);
    assert SlotHeld(f, slots[w.at[j]]);
    SeenNext(desc, slots, w, j);
    ValueSeen(f, v, w.inner[j], rest, Initial(r.fields[j].kind, r.fields[j].initial));
    if f.rule.OneOf? { SeenClears(desc, slots, w, j); }
  }

  lemma {:induction false} OneSeen(desc: Descriptor, slots: seq<Slot>, w: View, j: nat, v: Value, rest: Bytes)
    requires DescriptorOk(desc) && MessageHeld(desc, slots) && ViewOf(desc, w) && j < |w.at|
    requires slots[w.at[j]].One? || (slots[w.at[j]].Maybe? && slots[w.at[j]].option.Some?)
    requires slots[w.at[j]].One? ==> !LeftOut(desc.fields[w.at[j]], slots[w.at[j]].value)
    requires v == PresentValue(slots[w.at[j]]) && ValueSeenReads(desc.fields[w.at[j]], v, w.inner[j])
    requires |EncodeValue(desc.fields[w.at[j]].kind, v)| < TWO_32
    ensures LoopAt(desc, slots, w, j, EncodeOne(desc.fields[w.at[j]], v) + rest) == LoopAt(desc, slots, w, j + 1, rest)
    decreases w, 0, 2
  {
    var f, r, before := desc.fields[w.at[j]], SeenDesc(desc, w), SeenPartly(desc, slots, w, j);
    assert SlotHeld(f, slots[w.at[j]]);
    SeenOk(desc, w);
    Regroup(TagBytes(WireType(f.kind), f.tag), EncodeValue(f.kind, v), rest);
    var t := SeenEnters(desc, slots, w, j);
    FieldSeen(desc, slots, w, j, v, rest);
    LoopStep(r, j, WireType(f.kind), EncodeValue(f.kind, v) + rest, before, TrackBefore(r.fields, j), t);
  }

  /** Packed, an array reads at once. */
  lemma {:induction false} PackedTaken(r: Descriptor, j: nat, f: Field, items: seq<Value>, slots: seq<Slot>,
                                       rest: Bytes)
    requires j < |r.fields| == |slots| && r.fields[j] == f && f.rule.Repeated? && slots[j] == DefaultSlot(f)
    requires TypeOk(f.kind) && SlotHeld(f, Many(items)) && items != [] && Packable(f.kind)
    requires |EncodePacked(f.kind, items)| < TWO_32
    ensures DecodeField(r, j, 2, Prefixed(EncodePacked(f.kind, items)) + rest, slots)
         == Some((slots[j := Many(items)], rest))
  {
    StringRead(EncodePacked(f.kind, items), rest);
    PackedRoundTrip(f.kind, [], items, f.rule.max);
    assert [] + items == items;
  }

  lemma PackedIn(desc: Descriptor, slots: seq<Slot>, w: View, j: nat, items: seq<Value>, rest: Bytes)
    requires DescriptorOk(desc) && MessageHeld(desc, slots) && ViewOf(desc, w) && j < |w.at|
    requires slots[w.at[j]] == Many(items) && items != [] && Packable(desc.fields[w.at[j]].kind)
    requires |EncodePacked(desc.fields[w.at[j]].kind, items)| < TWO_32
    ensures DecodeField(SeenDesc(desc, w), j, 2, Prefixed(EncodePacked(desc.fields[w.at[j]].kind, items)) + rest,
                        SeenPartly(desc, slots, w, j))
         == Some((SeenPartly(desc, slots, w, j + 1), rest))
  {
    var f := desc.fields[w.at[j]];
    assert SlotHeld(f, slots[w.at[j]]) && SeenItems(f, items, w.inner[j]) == items;
    SeenNext(desc, slots, w, j);
    PackedTaken(SeenDesc(desc, w), j, f, items, SeenPartly(desc, slots, w, j), rest);
  }

  lemma PackedSeen(desc: Descriptor, slots: seq<Slot>, w: View, j: nat, items: seq<Value>, rest: Bytes)
    requires DescriptorOk(desc) && MessageHeld(desc, slots) && ViewOf(desc, w) && j < |w.at|
    requires slots[w.at[j]] == Many(items) && items != [] && Packable(desc.fields[w.at[j]].kind)
    requires |EncodePacked(desc.fields[w.at[j]].kind, items)| < TWO_32
    ensures var f := desc.fields[w.at[j]];
      LoopAt(desc, slots, w, j, (TagBytes(2, f.tag) + Prefixed(EncodePacked(f.kind, items))) + rest)
      == LoopAt(desc, slots, w, j + 1, rest)
  {
    var f, r := desc.fields[w.at[j]], SeenDesc(desc, w);
    var value := Prefixed(EncodePacked(f.kind, items));
    assert SlotHeld(f, slots[w.at[j]]);
    SeenOk(desc, w);
    PackedIn(desc, slots, w, j, items, rest);
    var t := SeenEnters(desc, slots, w, j);
    Regroup(TagBytes(2, f.tag), value, rest);
    LoopStep(r, j, 2, value + rest, SeenPartly(desc, slots, w, j), TrackBefore(r.fields, j), t);
  }

  /** Items one by one, into whatever the other fields hold. */
  lemma {:induction false} ItemsSeen(desc: Descriptor, w: View, j: nat, done: seq<Value>, items: seq<Value>,
                                     slots: seq<Slot>, t: Track, rest: Bytes)
    requires DescriptorOk(desc) && ViewOf(desc, w) && j < |w.at| == |slots|
    requires desc.fields[w.at[j]].rule.Repeated? && |done| + |items| <= desc.fields[w.at[j]].rule.max
    requires forall k :: 0 <= k < |items| ==>
      ValueHeld(desc.fields[w.at[j]].kind, items[k]) && ValueSeenReads(desc.fields[w.at[j]], items[k], w.inner[j])
    requires IsFixed(desc.fields[w.at[j]]) ==> t.counting == Some(j)
    requires |EncodeTagged(desc.fields[w.at[j]], items)| < TWO_32
    ensures var f, r := desc.fields[w.at[j]], SeenDesc(desc, w);
      DecodeLoop(r, EncodeTagged(f, items) + rest, slots[j := Many(done)], t)
      == DecodeLoop(r, rest, slots[j := Many(done + SeenItems(f, items, w.inner[j]))], t)
    decreases w, 0, 2, |items|
  {
    var f, r := desc.fields[w.at[j]], SeenDesc(desc, w);
    if items == [] {
      assert [] + rest == rest && done + SeenItems(f, items, w.inner[j]) == done;
    } else {
      var more := EncodeTagged(f, items[1..]);
      TaggedSplit(f, items);
      ItemsSplit(f, items, w.inner[j], done);
      Regroup(EncodeOne(f, items[0]), more, rest);
      ItemSeen(desc, w, j, done, items[0], slots, t, more + rest);
      ItemsSeen(desc, w, j, done + [SeenValue(f, items[0], w.inner[j])], items[1..], slots, t, rest);
    }
  }

  lemma TaggedSplit(f: Field, items: seq<Value>)
    requires items != []
    ensures EncodeTagged(f, items) == EncodeOne(f, items[0]) + EncodeTagged(f, items[1..])
    ensures |EncodeValue(f.kind, items[0])| <= |EncodeTagged(f, items)|
    ensures |EncodeTagged(f, items[1..])| <= |EncodeTagged(f, items)|
  {
    Regroup(TagBytes(WireType(f.kind), f.tag), EncodeValue(f.kind, items[0]), EncodeTagged(f, items[1..]));
  }

  lemma ItemsSplit(f: Field, items: seq<Value>, w: View, done: seq<Value>)
    requires items != [] && FieldView(f, w)
    ensures (done + [SeenValue(f, items[0], w)]) + SeenItems(f, items[1..], w) == done + SeenItems(f, items, w)
  {
  }

  lemma {:induction false} ItemSeen(desc: Descriptor, w: View, j: nat, done: seq<Value>, v: Value, slots: seq<Slot>,
                                    t: Track, rest: Bytes)
    requires DescriptorOk(desc) && ViewOf(desc, w) && j < |w.at| == |slots|
    requires desc.fields[w.at[j]].rule.Repeated? && |done| < desc.fields[w.at[j]].rule.max
    requires ValueHeld(desc.fields[w.at[j]].kind, v) && ValueSeenReads(desc.fields[w.at[j]], v, w.inner[j])
    requires IsFixed(desc.fields[w.at[j]]) ==> t.counting == Some(j)
    requires |EncodeValue(desc.fields[w.at[j]].kind, v)| < TWO_32
    ensures var f, r := desc.fields[w.at[j]], SeenDesc(desc, w);
      DecodeLoop(r, EncodeOne(f, v) + rest, slots[j := Many(done)], t)
      == DecodeLoop(r, rest, slots[j := Many(done + [SeenValue(f, v, w.inner[j])])], t)
    decreases w, 0, 1
  {
    var f, r := desc.fields[w.at[j]], SeenDesc(desc, w);
    SeenOk(desc, w);
    Regroup(TagBytes(WireType(f.kind), f.tag), EncodeValue(f.kind, v), rest);
    ValueSeen(f, v, w.inner[j], rest, Initial(r.fields[j].kind, None));
    SetTwice(slots, j, Many(done), Many(done + [SeenValue(f, v, w.inner[j])]));
    LoopStep(r, j, WireType(f.kind), EncodeValue(f.kind, v) + rest, slots[j := Many(done)], t, t);
  }

  lemma {:induction false} ArraySeen(desc: Descriptor, slots: seq<Slot>, w: View, j: nat, items: seq<Value>,
                                     rest: Bytes)
    requires DescriptorOk(desc) && MessageHeld(desc, slots) && ViewOf(desc, w) && j < |w.at|
    requires slots[w.at[j]] == Many(items) && items != []
    requires SlotSeenReads(desc.fields[w.at[j]], Many(items), w.inner[j])
    requires |EncodeTagged(desc.fields[w.at[j]], items)| < TWO_32
    ensures LoopAt(desc, slots, w, j, EncodeTagged(desc.fields[w.at[j]], items) + rest)
         == LoopAt(desc, slots, w, j + 1, rest)
    decreases w, 0, 3
  {
    var f, r, before := desc.fields[w.at[j]], SeenDesc(desc, w), SeenPartly(desc, slots, w, j);
    assert SlotHeld(f, slots[w.at[j]]);
    SeenOk(desc, w);
    SeenNext(desc, slots, w, j);
    var t := SeenEnters(desc, slots, w, j);
    ArrayEnters(r, j, f, items, before, TrackBefore(r.fields, j), t, rest);
    ItemsSeen(desc, w, j, [], items, before, t, rest);
    assert before[j := Many([])] == before && [] + SeenItems(f, items, w.inner[j]) == SeenItems(f, items, w.inner[j]);
  }

  /** With its first item the array is the one that is being filled. */
  lemma ArrayEnters(r: Descriptor, j: nat, f: Field, items: seq<Value>, slots: seq<Slot>, t: Track, t': Track,
                    rest: Bytes)
    requires DescriptorOk(r) && j < |r.fields| == |slots| && items != [] && r.fields[j].tag == f.tag
    requires Enter(r.fields, slots, t, j) == Some((slots, t')) && Enter(r.fields, slots, t', j) == Some((slots, t'))
    ensures DecodeLoop(r, EncodeTagged(f, items) + rest, slots, t)
         == DecodeLoop(r, EncodeTagged(f, items) + rest, slots, t')
  {
    var tag, body := TagBytes(WireType(f.kind), f.tag), EncodeValue(f.kind, items[0]) + EncodeTagged(f, items[1..]);
    Regroup(tag, body, rest);
    LoopStep(r, j, WireType(f.kind), body + rest, slots, t, t');
    LoopStep(r, j, WireType(f.kind), body + rest, slots, t', t');
  }

  /** A field that the reader knows. */
  lemma {:induction false} SlotSeen(desc: Descriptor, slots: seq<Slot>, w: View, j: nat, rest: Bytes)
    requires DescriptorOk(desc) && MessageHeld(desc, slots) && ViewOf(desc, w) && j < |w.at|
    requires SlotSeenReads(desc.fields[w.at[j]], slots[w.at[j]], w.inner[j])
    requires |EncodeSlot(desc.fields[w.at[j]], slots[w.at[j]])| < TWO_32
    ensures LoopAt(desc, slots, w, j, EncodeSlot(desc.fields[w.at[j]], slots[w.at[j]]) + rest)
         == LoopAt(desc, slots, w, j + 1, rest)
    decreases w, 0, 4
  {
    var f, s := desc.fields[w.at[j]], slots[w.at[j]];
    assert SlotHeld(f, s) && [] + rest == rest;
    match s
    case One(v) =>
      if LeftOut(f, v) { SeenSkipped(desc, slots, w, j, rest); } else { OneSeen(desc, slots, w, j, v, rest); }
    case Maybe(o) =>
      if o == None { SeenSkipped(desc, slots, w, j, rest); } else { OneSeen(desc, slots, w, j, o.value, rest); }
    case Many(items) =>
      if items == [] {
        SeenSkipped(desc, slots, w, j, rest);
      } else if Packable(f.kind) {
        PackedSeen(desc, slots, w, j, items, rest);
      } else {
        ArraySeen(desc, slots, w, j, items, rest);
      }
  }

  // ----- a whole message -----

  lemma {:induction false} KnownSeen(desc: Descriptor, slots: seq<Slot>, w: View, j: nat)
    requires DescriptorOk(desc) && MessageHeld(desc, slots) && ViewOf(desc, w) && |Encode(desc, slots)| < TWO_32
    requires j < |w.at| && SlotSeenReads(desc.fields[w.at[j]], slots[w.at[j]], w.inner[j])
    ensures LoopAt(desc, slots, w, j, EncodeFrom(desc, slots, w.at[j]))
         == LoopAt(desc, slots, w, j + 1, EncodeFrom(desc, slots, w.at[j] + 1))
    decreases w, 0, 5
  {
    LaterShorter(desc, slots, 0, w.at[j]);
    EncodeStep(desc, slots, w.at[j]);
    SlotSeen(desc, slots, w, j, EncodeFrom(desc, slots, w.at[j] + 1));
  }

  lemma NotSeen(desc: Descriptor, w: View, i: nat, j: nat)
    requires UniqueTags(desc.fields) && ViewOf(desc, w) && i < |desc.fields| && Between(w.at, |desc.fields|, i, j)
    ensures FindField(SeenDesc(desc, w).fields, desc.fields[i].tag) == None
  {
    forall k | 0 <= k < |w.at| ensures SeenDesc(desc, w).fields[k].tag != desc.fields[i].tag {
      assert w.at[k] != i;
    }
  }

  lemma UnknownSeen(desc: Descriptor, slots: seq<Slot>, w: View, i: nat, j: nat)
    requires DescriptorOk(desc) && MessageHeld(desc, slots) && ViewOf(desc, w) && |Encode(desc, slots)| < TWO_32
    requires Between(w.at, |slots|, i, j)
    ensures LoopAt(desc, slots, w, j, EncodeFrom(desc, slots, i))
         == LoopAt(desc, slots, w, j, EncodeFrom(desc, slots, i + 1))
  {
    var r := SeenDesc(desc, w);
    NotSeen(desc, w, i, j);
    LaterShorter(desc, slots, 0, i);
    EncodeStep(desc, slots, i);
    assert SlotHeld(desc.fields[i], slots[i]);
    UnknownSlot(r, desc.fields[i], slots[i], SeenPartly(desc, slots, w, j), TrackBefore(r.fields, j),
        EncodeFrom(desc, slots, i + 1));
  }

  lemma SeenStarts(desc: Descriptor, slots: seq<Slot>, w: View, s: Bytes)
    requires |slots| == |desc.fields| && ViewOf(desc, w)
    ensures LoopAt(desc, slots, w, 0, s) == Decode(SeenDesc(desc, w), s)
  {
    assert SeenPartly(desc, slots, w, 0) == Defaults(SeenDesc(desc, w));
  }

  lemma SeenEnds(desc: Descriptor, slots: seq<Slot>, w: View)
    requires MessageHeld(desc, slots) && ViewOf(desc, w)
    ensures LoopAt(desc, slots, w, |w.at|, []) == Some(SeenSlots(desc, slots, w))
  {
    assert SeenPartly(desc, slots, w, |w.at|) == SeenSlots(desc, slots, w);
    SeenCounted(desc, slots, w, |w.at|);
  }

  function PlaceOf(at: seq<nat>, j: nat, n: nat): nat {
    if j < |at| then at[j] else n
  }

  /** Where the writer is at a field that the reader knows as its `j`-th the two go on together, elsewhere one alone. */
  ghost predicate Passes<T(!new)>(f: (nat, nat) -> T, i: nat, j: nat) {
    f(i, j) == f(i + 1, j)
  }

  ghost predicate PassesBoth<T(!new)>(f: (nat, nat) -> T, i: nat, j: nat) {
    f(i, j) == f(i + 1, j + 1)
  }

  predicate Between(at: seq<nat>, n: nat, i: nat, j: nat) {
    j <= |at| && (j > 0 ==> at[j - 1] < i) && i < PlaceOf(at, j, n)
  }

  lemma {:induction false} PassesRun<T(!new)>(f: (nat, nat) -> T, i: nat, to: nat, j: nat)
    requires i <= to && forall k: nat {:trigger Passes(f, k, j)} :: i <= k < to ==> Passes(f, k, j)
    ensures f(i, j) == f(to, j)
  {
    if i < to {
      PassesRun(f, i, to - 1, j);
      assert Passes(f, to - 1, j);
    }
  }

  lemma {:induction false} Walk<T(!new)>(f: (nat, nat) -> T, at: seq<nat>, n: nat, m: nat)
    requires Places(at, n) && m <= |at|
    requires forall i: nat, j: nat {:trigger Passes(f, i, j)} :: Between(at, n, i, j) ==> Passes(f, i, j)
    requires forall j {:trigger PassesBoth(f, at[j], j)} :: 0 <= j < m ==> PassesBoth(f, at[j], j)
    ensures f(0, 0) == f(PlaceOf(at, m, n), m)
  {
    if m == 0 {
      PassesRun(f, 0, PlaceOf(at, 0, n), 0);
    } else {
      Walk(f, at, n, m - 1);
      assert PassesBoth(f, at[m - 1], m - 1);
      PassesRun(f, at[m - 1] + 1, PlaceOf(at, m, n), m);
    }
  }

  /** The writer has come to field `i`, the reader to its `j`-th. */
  function Standing(desc: Descriptor, slots: seq<Slot>, w: View): (nat, nat) -> Option<seq<Slot>>
    requires ViewOf(desc, w) && |slots| == |desc.fields|
  {
    (i: nat, j: nat) => if j <= |w.at| then LoopAt(desc, slots, w, j, EncodeFrom(desc, slots, i)) else None
  }

  lemma StandsAt(desc: Descriptor, slots: seq<Slot>, w: View, i: nat, j: nat)
    requires ViewOf(desc, w) && |slots| == |desc.fields| && j <= |w.at|
    ensures Standing(desc, slots, w)(i, j) == LoopAt(desc, slots, w, j, EncodeFrom(desc, slots, i))
  {
  }

  lemma UnknownPasses(desc: Descriptor, slots: seq<Slot>, w: View, i: nat, j: nat)
    requires DescriptorOk(desc) && MessageHeld(desc, slots) && ViewOf(desc, w) && |Encode(desc, slots)| < TWO_32
    requires Between(w.at, |slots|, i, j)
    ensures Passes(Standing(desc, slots, w), i, j)
  {
    StandsAt(desc, slots, w, i, j);
    StandsAt(desc, slots, w, i + 1, j);
    UnknownSeen(desc, slots, w, i, j);
  }

  lemma {:induction false} KnownPasses(desc: Descriptor, slots: seq<Slot>, w: View, j: nat)
    requires DescriptorOk(desc) && MessageHeld(desc, slots) && ViewOf(desc, w) && |Encode(desc, slots)| < TWO_32
    requires j < |w.at| && SlotSeenReads(desc.fields[w.at[j]], slots[w.at[j]], w.inner[j])
    ensures PassesBoth(Standing(desc, slots, w), w.at[j], j)
    decreases w, 0, 6
  {
    StandsAt(desc, slots, w, w.at[j], j);
    StandsAt(desc, slots, w, w.at[j] + 1, j + 1);
    KnownSeen(desc, slots, w, j);
  }

  /** To the `m`-th field that the reader knows, or to the end. */
  lemma {:induction false} SeenUpTo(desc: Descriptor, slots: seq<Slot>, w: View, m: nat)
    requires DescriptorOk(desc) && MessageHeld(desc, slots) && ViewOf(desc, w) && |Encode(desc, slots)| < TWO_32
    requires m <= |w.at|
    requires forall j :: 0 <= j < m ==> SlotSeenReads(desc.fields[w.at[j]], slots[w.at[j]], w.inner[j])
    ensures Standing(desc, slots, w)(0, 0) == Standing(desc, slots, w)(PlaceOf(w.at, m, |slots|), m)
    decreases w, 1
  {
    var f := Standing(desc, slots, w);
    forall i: nat, j: nat {:trigger Passes(f, i, j)} | Between(w.at, |slots|, i, j) ensures Passes(f, i, j) {
      UnknownPasses(desc, slots, w, i, j);
    }
    forall j {:trigger PassesBoth(f, w.at[j], j)} | 0 <= j < m ensures PassesBoth(f, w.at[j], j) {
      KnownPasses(desc, slots, w, j);
    }
    Walk(f, w.at, |slots|, m);
  }

  lemma {:induction false} MessageSeen(desc: Descriptor, slots: seq<Slot>, w: View)
    requires DescriptorOk(desc) && MessageHeld(desc, slots) && ViewOf(desc, w) && SeenReads(desc, slots, w)
    requires |Encode(desc, slots)| < TWO_32
    ensures Decode(SeenDesc(desc, w), Encode(desc, slots)) == Some(SeenSlots(desc, slots, w))
    decreases w, 3
  {
    SeenUpTo(desc, slots, w, |w.at|);
    StandsAt(desc, slots, w, 0, 0);
    StandsAt(desc, slots, w, |slots|, |w.at|);
    SeenStarts(desc, slots, w, Encode(desc, slots));
    SeenEnds(desc, slots, w);
    assert EncodeFrom(desc, slots, |slots|) == [];
  }

  // ----- strings without a terminator -----

  lemma {:induction false} ValueStops(f: Field, v: Value, w: View, rest: Bytes, current: Value)
    requires TypeOk(f.kind) && ValueHeld(f.kind, v) && FieldView(f, w) && !ValueSeenReads(f, v, w)
    requires Fresh(SeenField(f, w).kind, current) && |EncodeValue(f.kind, v)| < TWO_32
    ensures DecodeValue(SeenField(f, w).kind, EncodeValue(f.kind, v) + rest, current) == None
    decreases w, 4
  {
    if f.kind.Submessage? {
      StringRead(Encode(f.kind.desc, v.slots), rest);
      MessageStops(f.kind.desc, v.slots, w);
    } else {
      ValueOverflows(f.kind, v, rest, current);
    }
  }

  lemma {:induction false} OneStops(desc: Descriptor, slots: seq<Slot>, w: View, j: nat, v: Value, rest: Bytes)
    requires DescriptorOk(desc) && MessageHeld(desc, slots) && ViewOf(desc, w) && j < |w.at|
    requires slots[w.at[j]].One? || (slots[w.at[j]].Maybe? && slots[w.at[j]].option.Some?)
    requires v == PresentValue(slots[w.at[j]]) && !ValueSeenReads(desc.fields[w.at[j]], v, w.inner[j])
    requires |EncodeValue(desc.fields[w.at[j]].kind, v)| < TWO_32
    ensures LoopAt(desc, slots, w, j, EncodeOne(desc.fields[w.at[j]], v) + rest) == None
    decreases w, 0, 2
  {
    var f, r, before := desc.fields[w.at[j]], SeenDesc(desc, w), SeenPartly(desc, slots, w, j);
    assert SlotHeld(f, slots[w.at[j]]);
    SeenOk(desc, w);
    SeenNext(desc, slots, w, j);
    Regroup(TagBytes(WireType(f.kind), f.tag), EncodeValue(f.kind, v), rest);
    var t := SeenEnters(desc, slots, w, j);
    ValueStops(f, v, w.inner[j], rest, Initial(r.fields[j].kind, r.fields[j].initial));
    LoopStep(r, j, WireType(f.kind), EncodeValue(f.kind, v) + rest, before, TrackBefore(r.fields, j), t);
  }

  lemma {:induction false} ItemsStop(desc: Descriptor, w: View, j: nat, done: seq<Value>, items: seq<Value>,
                                     slots: seq<Slot>, t: Track, rest: Bytes)
    requires DescriptorOk(desc) && ViewOf(desc, w) && j < |w.at| == |slots|
    requires desc.fields[w.at[j]].rule.Repeated? && |done| + |items| <= desc.fields[w.at[j]].rule.max
    requires !Packable(desc.fields[w.at[j]].kind)
    requires forall k :: 0 <= k < |items| ==> ValueHeld(desc.fields[w.at[j]].kind, items[k])
    requires exists k :: 0 <= k < |items| && !ValueSeenReads(desc.fields[w.at[j]], items[k], w.inner[j])
    requires IsFixed(desc.fields[w.at[j]]) ==> t.counting == Some(j)
    requires |EncodeTagged(desc.fields[w.at[j]], items)| < TWO_32
    ensures DecodeLoop(SeenDesc(desc, w), EncodeTagged(desc.fields[w.at[j]], items) + rest, slots[j := Many(done)], t)
         == None
    decreases w, 0, 2, |items|
  {
    var f, more := desc.fields[w.at[j]], EncodeTagged(desc.fields[w.at[j]], items[1..]);
    TaggedSplit(f, items);
    Regroup(EncodeOne(f, items[0]), more, rest);
    if ValueSeenReads(f, items[0], w.inner[j]) {
      ItemSeen(desc, w, j, done, items[0], slots, t, more + rest);
      ItemsStop(desc, w, j, done + [SeenValue(f, items[0], w.inner[j])], items[1..], slots, t, rest);
    } else {
      ItemStops(desc, w, j, done, items[0], slots, t, more + rest);
    }
  }

  lemma {:induction false} ItemStops(desc: Descriptor, w: View, j: nat, done: seq<Value>, v: Value, slots: seq<Slot>,
                                     t: Track, rest: Bytes)
    requires DescriptorOk(desc) && ViewOf(desc, w) && j < |w.at| == |slots|
    requires desc.fields[w.at[j]].rule.Repeated? && !Packable(desc.fields[w.at[j]].kind)
    requires ValueHeld(desc.fields[w.at[j]].kind, v) && !ValueSeenReads(desc.fields[w.at[j]], v, w.inner[j])
    requires IsFixed(desc.fields[w.at[j]]) ==> t.counting == Some(j)
    requires |EncodeValue(desc.fields[w.at[j]].kind, v)| < TWO_32
    ensures DecodeLoop(SeenDesc(desc, w), EncodeOne(desc.fields[w.at[j]], v) + rest, slots[j := Many(done)], t) == None
    decreases w, 0, 1
  {
    var f, r := desc.fields[w.at[j]], SeenDesc(desc, w);
    SeenOk(desc, w);
    Regroup(TagBytes(WireType(f.kind), f.tag), EncodeValue(f.kind, v), rest);
    ValueStops(f, v, w.inner[j], rest, Initial(r.fields[j].kind, None));
    LoopStep(r, j, WireType(f.kind), EncodeValue(f.kind, v) + rest, slots[j := Many(done)], t, t);
  }

  lemma {:induction false} ArrayStops(desc: Descriptor, slots: seq<Slot>, w: View, j: nat, items: seq<Value>,
                                      rest: Bytes)
    requires DescriptorOk(desc) && MessageHeld(desc, slots) && ViewOf(desc, w) && j < |w.at|
    requires slots[w.at[j]] == Many(items) && !SlotSeenReads(desc.fields[w.at[j]], Many(items), w.inner[j])
    requires |EncodeSlot(desc.fields[w.at[j]], Many(items))| < TWO_32
    ensures LoopAt(desc, slots, w, j, EncodeSlot(desc.fields[w.at[j]], Many(items)) + rest) == None
    decreases w, 0, 3
  {
    var f, r, before := desc.fields[w.at[j]], SeenDesc(desc, w), SeenPartly(desc, slots, w, j);
    assert SlotHeld(f, slots[w.at[j]]);
    SeenOk(desc, w);
    SeenNext(desc, slots, w, j);
    var t := SeenEnters(desc, slots, w, j);
    ArrayEnters(r, j, f, items, before, TrackBefore(r.fields, j), t, rest);
    ItemsStop(desc, w, j, [], items, before, t, rest);
    assert before[j := Many([])] == before;
  }

  lemma {:induction false} SlotStops(desc: Descriptor, slots: seq<Slot>, w: View, j: nat, rest: Bytes)
    requires DescriptorOk(desc) && MessageHeld(desc, slots) && ViewOf(desc, w) && j < |w.at|
    requires !SlotSeenReads(desc.fields[w.at[j]], slots[w.at[j]], w.inner[j])
    requires |EncodeSlot(desc.fields[w.at[j]], slots[w.at[j]])| < TWO_32
    ensures LoopAt(desc, slots, w, j, EncodeSlot(desc.fields[w.at[j]], slots[w.at[j]]) + rest) == None
    decreases w, 0, 4
  {
    assert SlotHeld(desc.fields[w.at[j]], slots[w.at[j]]);
    match slots[w.at[j]]
    case One(v) => OneStops(desc, slots, w, j, v, rest);
    case Maybe(o) => OneStops(desc, slots, w, j, o.value, rest);
    case Many(items) => ArrayStops(desc, slots, w, j, items, rest);
  }

  lemma {:induction false} FirstStop(desc: Descriptor, slots: seq<Slot>, w: View, from: nat) returns (m: nat)
    requires ViewOf(desc, w) && |slots| == |desc.fields| && from <= |w.at|
    requires exists j :: from <= j < |w.at| && !SlotSeenReads(desc.fields[w.at[j]], slots[w.at[j]], w.inner[j])
    ensures from <= m < |w.at| && !SlotSeenReads(desc.fields[w.at[m]], slots[w.at[m]], w.inner[m])
    ensures forall j :: from <= j < m ==> SlotSeenReads(desc.fields[w.at[j]], slots[w.at[j]], w.inner[j])
    decreases |w.at| - from
  {
    if SlotSeenReads(desc.fields[w.at[from]], slots[w.at[from]], w.inner[from]) {
      m := FirstStop(desc, slots, w, from + 1);
    } else {
      m := from;
    }
  }

  lemma {:induction false} FieldAtStops(desc: Descriptor, slots: seq<Slot>, w: View, m: nat)
    requires DescriptorOk(desc) && MessageHeld(desc, slots) && ViewOf(desc, w) && |Encode(desc, slots)| < TWO_32
    requires m < |w.at| && !SlotSeenReads(desc.fields[w.at[m]], slots[w.at[m]], w.inner[m])
    ensures LoopAt(desc, slots, w, m, EncodeFrom(desc, slots, w.at[m])) == None
    decreases w, 0, 5
  {
    LaterShorter(desc, slots, 0, w.at[m]);
    EncodeStep(desc, slots, w.at[m]);
    SlotStops(desc, slots, w, m, EncodeFrom(desc, slots, w.at[m] + 1));
  }

  lemma {:induction false} MessageStops(desc: Descriptor, slots: seq<Slot>, w: View)
    requires DescriptorOk(desc) && MessageHeld(desc, slots) && ViewOf(desc, w) && !SeenReads(desc, slots, w)
    requires |Encode(desc, slots)| < TWO_32
    ensures Decode(SeenDesc(desc, w), Encode(desc, slots)) == None
    decreases w, 3
  {
    var m := FirstStop(desc, slots, w, 0);
    SeenUpTo(desc, slots, w, m);
    StandsAt(desc, slots, w, 0, 0);
    StandsAt(desc, slots, w, w.at[m], m);
    SeenStarts(desc, slots, w, Encode(desc, slots));
    FieldAtStops(desc, slots, w, m);
  }

  /**
   * A reader that lacks fields of a message, or of its submessages at any depth, gets what is kept of all the others:
   * each field that it does not know is passed over by exactly its value. It fails exactly if a string that it does
   * know has no terminator.
   */
  lemma UnknownFieldsSkipped(desc: Descriptor, slots: seq<Slot>, w: View)
    requires DescriptorOk(desc) && MessageHeld(desc, slots) && ViewOf(desc, w) && |Encode(desc, slots)| < TWO_32
    ensures Decode(SeenDesc(desc, w), Encode(desc, slots))
         == if SeenReads(desc, slots, w) then Some(SeenSlots(desc, slots, w)) else None
  {
    if SeenReads(desc, slots, w) {
      MessageSeen(desc, slots, w);
    } else {
      MessageStops(desc, slots, w);
    }
  }
}
