/**
 * A message decodes only if every required field is there, whatever the bytes and however deep (nanopb pb_decode.c,
 * the check of fields_seen in pb_decode_noinit).
 */
module ProtoRequired {
  import opened Keys
  import opened Coding
  import opened Descriptors
  import opened ProtoScalars
  import opened ProtoWire
  import opened ProtoRoundTrip
  import opened ProtoStorage

  // ----- the keys of a message, read off the bytes -----

  /** What stands behind the value of field `f`. */
  function Behind(f: Field, wireType: nat, s: Bytes): (r: Option<Bytes>)
    ensures r.Some? ==> |r.value| < |s|
  {
    if Packable(f.kind) && !(f.rule.Repeated? && wireType == 2) then
      match DecodeScalar(f.kind, s)
      case None => None
      case Some((_, rest)) => Some(rest)
    else
      match ReadString(s)
      case None => None
      case Some((_, rest)) => Some(rest)
  }

  /** What stands behind the value that follows a key, of a field known or unknown. */
  function BehindKey(desc: Descriptor, key: nat, s: Bytes): (r: Option<Bytes>)
    ensures r.Some? ==> |r.value| <= |s|
  {
    match FindField(desc.fields, key / 8)
    case None => SkipField(key % 8, s)
    case Some(i) => Behind(desc.fields[i], key % 8, s)
  }

  /** The tags of the keys, one value after another, to the end or to a key of zero. */
  function Tags(desc: Descriptor, s: Bytes): set<nat>
    decreases |s|
  {
    match DecodeVarint32(s)
    case None => {}
    case Some((key, rest)) =>
      if key == 0 then {}
      else
        {key / 8} + match BehindKey(desc, key, rest) case None => {} case Some(rest') => Tags(desc, rest')
  }

  /** The bitmap has room for the first 64 required fields. */
  predicate Tracked(fields: seq<Field>, i: nat)
    requires i < |fields|
  {
    fields[i].rule.Required? && RequiredBefore(fields, i) < 64
  }

  predicate AllThere(desc: Descriptor, s: Bytes) {
    forall i :: 0 <= i < |desc.fields| && Tracked(desc.fields, i) ==> desc.fields[i].tag in Tags(desc, s)
  }

  // ----- decoding goes from key to key -----

  /** The storage of a repeated field is an array, that of the others is not. */
  predicate Shaped(desc: Descriptor, slots: seq<Slot>) {
    |slots| == |desc.fields| && forall i :: 0 <= i < |slots| ==> (slots[i].Many? <==> desc.fields[i].rule.Repeated?)
  }

  lemma ValueBehind(k: FieldType, s: Bytes, current: Value)
    requires DecodeValue(k, s, current).Some?
    ensures if Packable(k)
            then DecodeScalar(k, s).Some? && DecodeScalar(k, s).value.1 == DecodeValue(k, s, current).value.1
            else ReadString(s).Some? && ReadString(s).value.1 == DecodeValue(k, s, current).value.1
  {
  }

  lemma FieldBehind(desc: Descriptor, i: nat, wireType: nat, s: Bytes, slots: seq<Slot>)
    requires Shaped(desc, slots) && i < |slots| && DecodeField(desc, i, wireType, s, slots).Some?
    ensures Behind(desc.fields[i], wireType, s) == Some(DecodeField(desc, i, wireType, s, slots).value.1)
    ensures Shaped(desc, DecodeField(desc, i, wireType, s, slots).value.0)
  {
    var f := desc.fields[i];
    match slots[i]
    case One(current) => ValueBehind(f.kind, s, current);
    case Maybe(o) =>
      ValueBehind(f.kind, s, if f.rule.Optional? && o.Some? then o.value else Initial(f.kind, f.initial));
    case Many(items) =>
      if !(wireType == WT_STRING && Packable(f.kind)) { ValueBehind(f.kind, s, Initial(f.kind, None)); }
  }

  lemma EnterShaped(desc: Descriptor, slots: seq<Slot>, t: Track, i: nat)
    requires Shaped(desc, slots) && i < |slots| && Enter(desc.fields, slots, t, i).Some?
    ensures Shaped(desc, Enter(desc.fields, slots, t, i).value.0)
    ensures Enter(desc.fields, slots, t, i).value.1.seen == t.seen
  {
  }

  // ----- the same message with nothing required -----

  function RelaxedField(f: Field): Field {
    if f.rule.Required? then f.(rule := Singular) else f
  }

  function Relaxed(desc: Descriptor): (r: Descriptor)
    ensures |r.fields| == |desc.fields|
  {
    Descriptor(seq(|desc.fields|, i requires 0 <= i < |desc.fields| => RelaxedField(desc.fields[i])))
  }

  function Unseen(t: Track): Track {
    Track({}, t.counting)
  }

  lemma {:induction false} NoneRequired(desc: Descriptor, n: nat)
    requires n <= |desc.fields|
    ensures RequiredBefore(Relaxed(desc).fields, n) == 0
  {
    if n > 0 {
      NoneRequired(desc, n - 1);
    }
  }

  lemma {:induction false} SameFound(fields: seq<Field>, others: seq<Field>, tag: nat)
    requires |fields| == |others| && forall i :: 0 <= i < |fields| ==> fields[i].tag == others[i].tag
    ensures FindField(fields, tag) == FindField(others, tag)
    decreases |fields|
  {
    if fields != [] {
      SameFound(fields[..|fields| - 1], others[..|fields| - 1], tag);
    }
  }

  lemma ClearedAlike(desc: Descriptor, slots: seq<Slot>, group: Rule)
    requires |slots| == |desc.fields| && group.OneOf?
    ensures ClearOneof(Relaxed(desc).fields, slots, group) == ClearOneof(desc.fields, slots, group)
  {
  }

  lemma DecodedAlike(desc: Descriptor, i: nat, wireType: nat, s: Bytes, slots: seq<Slot>)
    requires i < |desc.fields| == |slots|
    ensures DecodeField(Relaxed(desc), i, wireType, s, slots) == DecodeField(desc, i, wireType, s, slots)
  {
    var f := desc.fields[i];
    if f.rule.OneOf? { ClearedAlike(desc, slots, f.rule); }
  }

  lemma EnteredAlike(desc: Descriptor, slots: seq<Slot>, t: Track, i: nat)
    requires i < |desc.fields| == |slots|
    ensures var a, b := Enter(desc.fields, slots, t, i), Enter(Relaxed(desc).fields, slots, Unseen(t), i);
      (a.Some? <==> b.Some?) && (a.Some? ==> b.value == (a.value.0, Unseen(a.value.1)))
  {
  }

  // ----- required fields and their bits -----

  lemma {:induction false} CountsUp(fields: seq<Field>, i: nat, j: nat)
    requires i < j <= |fields| && fields[i].rule.Required?
    ensures RequiredBefore(fields, i) < RequiredBefore(fields, j)
    decreases j
  {
    if i < j - 1 {
      CountsUp(fields, i, j - 1);
    }
  }

  lemma {:induction false} FieldOfBit(fields: seq<Field>, n: nat, bit: nat) returns (i: nat)
    requires n <= |fields| && bit < RequiredBefore(fields, n)
    ensures i < n && fields[i].rule.Required? && RequiredBefore(fields, i) == bit
    decreases n
  {
    if fields[n - 1].rule.Required? && RequiredBefore(fields, n - 1) == bit {
      i := n - 1;
    } else {
      i := FieldOfBit(fields, n - 1, bit);
    }
  }

  predicate ComingIn(fields: seq<Field>, seen: set<nat>, tags: set<nat>, j: nat)
    requires j < |fields|
  {
    Tracked(fields, j) ==> RequiredBefore(fields, j) in seen || fields[j].tag in tags
  }

  /** Each tracked field has been seen already, or its tag is still to come. */
  predicate Coming(desc: Descriptor, seen: set<nat>, s: Bytes) {
    forall j :: 0 <= j < |desc.fields| ==> ComingIn(desc.fields, seen, Tags(desc, s), j)
  }

  predicate SeenAll(desc: Descriptor, seen: set<nat>) {
    forall j :: 0 <= j < |desc.fields| ==> ComingIn(desc.fields, seen, {}, j)
  }

  lemma SeenAllIs(desc: Descriptor, seen: set<nat>)
    ensures AllSeen(desc.fields, seen) <==> SeenAll(desc, seen)
  {
    var n := |desc.fields|;
    forall bit | 0 <= bit < RequiredBefore(desc.fields, n) && bit < MAX_REQUIRED_FIELDS && SeenAll(desc, seen)
      ensures bit in seen
    {
      var i := FieldOfBit(desc.fields, n, bit);
      assert ComingIn(desc.fields, seen, {}, i);
    }
    forall i | 0 <= i < n && Tracked(desc.fields, i)
      ensures RequiredBefore(desc.fields, i) < RequiredBefore(desc.fields, n)
    {
      CountsUp(desc.fields, i, n);
    }
  }

  lemma FinishedAlike(desc: Descriptor, slots: seq<Slot>, t: Track)
    requires |slots| == |desc.fields|
    ensures Finished(desc, slots, t)
         == if SeenAll(desc, t.seen) then Finished(Relaxed(desc), slots, Unseen(t)) else None
  {
    SeenAllIs(desc, t.seen);
    NoneRequired(desc, |desc.fields|);
  }

  /** Marking a field as seen settles that one. */
  lemma MarkedComing(fields: seq<Field>, seen: set<nat>, i: nat, tags: set<nat>, j: nat)
    requires UniqueTags(fields) && i < |fields| && j < |fields|
    ensures ComingIn(fields, seen, {fields[i].tag} + tags, j) <==> ComingIn(fields, Seen(fields, seen, i), tags, j)
  {
    if i < j && fields[i].rule.Required? { CountsUp(fields, i, j); }
    if j < i && fields[j].rule.Required? { CountsUp(fields, j, i); }
    assert fields[i].tag == fields[j].tag ==> i == j;
  }

  lemma ComingAfter(desc: Descriptor, s: Bytes, seen: set<nat>, i: nat, rest: Bytes)
    requires UniqueTags(desc.fields) && i < |desc.fields|
    requires Tags(desc, s) == {desc.fields[i].tag} + Tags(desc, rest)
    ensures Coming(desc, seen, s) <==> Coming(desc, Seen(desc.fields, seen, i), rest)
  {
    forall j | 0 <= j < |desc.fields|
      ensures ComingIn(desc.fields, seen, Tags(desc, s), j)
         <==> ComingIn(desc.fields, Seen(desc.fields, seen, i), Tags(desc, rest), j)
    {
      MarkedComing(desc.fields, seen, i, Tags(desc, rest), j);
    }
  }

  lemma ComingUnknown(desc: Descriptor, s: Bytes, seen: set<nat>, tag: nat, rest: Bytes)
    requires FindField(desc.fields, tag) == None && Tags(desc, s) == {tag} + Tags(desc, rest)
    ensures Coming(desc, seen, s) <==> Coming(desc, seen, rest)
  {
    forall j | 0 <= j < |desc.fields|
      ensures ComingIn(desc.fields, seen, Tags(desc, s), j) <==> ComingIn(desc.fields, seen, Tags(desc, rest), j)
    {
      assert desc.fields[j].tag != tag;
    }
  }

  // ----- one round after another -----

  /** Behind the bytes that were skipped, if they could be. */
  function GoOn(desc: Descriptor, skipped: Option<Bytes>, slots: seq<Slot>, t: Track): Option<seq<Slot>>
    requires |slots| == |desc.fields|
  {
    match skipped
    case None => None
    case Some(rest) => DecodeLoop(desc, rest, slots, t)
  }

  lemma UnknownRound(desc: Descriptor, s: Bytes, slots: seq<Slot>, t: Track, key: nat, body: Bytes)
    requires |slots| == |desc.fields| && s != [] && DecodeVarint32(s) == Some((key, body)) && key != 0
    requires FindField(desc.fields, key / 8) == None
    ensures DecodeLoop(desc, s, slots, t)
         == if desc.fields == [] && key / 8 == 0 then None else GoOn(desc, SkipField(key % 8, body), slots, t)
  {
  }

  /** With field `i`, once the loop has come to it. */
  function GoOnWith(desc: Descriptor, i: nat, wireType: nat, body: Bytes, entered: Option<(seq<Slot>, Track)>)
    : Option<seq<Slot>>
    requires i < |desc.fields| && (entered.Some? ==> |entered.value.0| == |desc.fields|)
  {
    match entered
    case None => None
    case Some((slots, t)) =>
      match DecodeField(desc, i, wireType, body, slots)
      case None => None
      case Some((slots', rest)) => DecodeLoop(desc, rest, slots', Mark(desc.fields, t, i))
  }

  lemma KnownRound(desc: Descriptor, s: Bytes, slots: seq<Slot>, t: Track, key: nat, body: Bytes, i: nat)
    requires |slots| == |desc.fields| && s != [] && DecodeVarint32(s) == Some((key, body)) && key != 0
    requires FindField(desc.fields, key / 8) == Some(i)
    ensures DecodeLoop(desc, s, slots, t) == GoOnWith(desc, i, key % 8, body, Enter(desc.fields, slots, t, i))
  {
  }

  lemma TagsStep(desc: Descriptor, s: Bytes, key: nat, body: Bytes, rest: Bytes)
    requires DecodeVarint32(s) == Some((key, body)) && key != 0 && BehindKey(desc, key, body) == Some(rest)
    ensures Tags(desc, s) == {key / 8} + Tags(desc, rest)
  {
  }

  lemma MarkRelaxed(desc: Descriptor, t: Track, i: nat)
    requires i < |desc.fields|
    ensures Mark(Relaxed(desc).fields, Unseen(t), i) == Unseen(t)
    ensures Unseen(Mark(desc.fields, t, i)) == Unseen(t)
  {
  }

  /**
   * On any bytes the decoder does what it does where nothing is required, and fails besides exactly if a tracked field
   * has neither been seen before nor has its tag among the keys.
   */
  lemma {:induction false} LoopRequires(desc: Descriptor, s: Bytes, slots: seq<Slot>, t: Track)
    requires UniqueTags(desc.fields) && Shaped(desc, slots)
    ensures DecodeLoop(desc, s, slots, t)
         == if Coming(desc, t.seen, s) then DecodeLoop(Relaxed(desc), s, slots, Unseen(t)) else None
    decreases |s|
  {
    var number := DecodeVarint32(s);
    if s == [] || (number.Some? && number.value.0 == 0) {
      FinishedAlike(desc, slots, t);
      assert Tags(desc, s) == {};
    } else if number.Some? {
      var (key, body) := number.value;
      SameFound(desc.fields, Relaxed(desc).fields, key / 8);
      var found := FindField(desc.fields, key / 8);
      if found == None {
        UnknownRequires(desc, s, slots, t, key, body);
      } else {
        KnownRequires(desc, s, slots, t, key, body, found.value);
      }
    }
  }

  lemma {:induction false} UnknownRequires(desc: Descriptor, s: Bytes, slots: seq<Slot>, t: Track, key: nat,
                                           body: Bytes)
    requires UniqueTags(desc.fields) && Shaped(desc, slots) && |body| < |s|
    requires DecodeVarint32(s) == Some((key, body)) && key != 0 && FindField(desc.fields, key / 8) == None
    requires FindField(Relaxed(desc).fields, key / 8) == None
    ensures DecodeLoop(desc, s, slots, t)
         == if Coming(desc, t.seen, s) then DecodeLoop(Relaxed(desc), s, slots, Unseen(t)) else None
    decreases |s|, 0
  {
    UnknownRound(desc, s, slots, t, key, body);
    UnknownRound(Relaxed(desc), s, slots, Unseen(t), key, body);
    var skipped := SkipField(key % 8, body);
    if skipped.Some? {
      TagsStep(desc, s, key, body, skipped.value);
      ComingUnknown(desc, s, t.seen, key / 8, skipped.value);
      LoopRequires(desc, skipped.value, slots, t);
    }
  }

  lemma {:induction false} KnownRequires(desc: Descriptor, s: Bytes, slots: seq<Slot>, t: Track, key: nat, body: Bytes,
                                         i: nat)
    requires UniqueTags(desc.fields) && Shaped(desc, slots) && |body| < |s|
    requires DecodeVarint32(s) == Some((key, body)) && key != 0 && FindField(desc.fields, key / 8) == Some(i)
    requires FindField(Relaxed(desc).fields, key / 8) == Some(i)
    ensures DecodeLoop(desc, s, slots, t)
         == if Coming(desc, t.seen, s) then DecodeLoop(Relaxed(desc), s, slots, Unseen(t)) else None
    decreases |s|, 0
  {
    KnownRound(desc, s, slots, t, key, body, i);
    KnownRound(Relaxed(desc), s, slots, Unseen(t), key, body, i);
    EnteredAlike(desc, slots, t, i);
    var entered := Enter(desc.fields, slots, t, i);
    if entered.Some? {
      EnterShaped(desc, slots, t, i);
      DecodedAlike(desc, i, key % 8, body, entered.value.0);
      var field := DecodeField(desc, i, key % 8, body, entered.value.0);
      if field.Some? {
        var (slots', rest) := field.value;
        FieldBehind(desc, i, key % 8, body, entered.value.0);
        TagsStep(desc, s, key, body, rest);
        MarkRelaxed(desc, entered.value.1, i);
        ComingAfter(desc, s, t.seen, i, rest);
        LoopRequires(desc, rest, slots', Mark(desc.fields, entered.value.1, i));
      }
    }
  }

  /** A message decodes exactly if it would with nothing required and every tracked field has its tag among the keys. */
  lemma RequiredIsPresence(desc: Descriptor, s: Bytes)
    requires UniqueTags(desc.fields)
    ensures Decode(desc, s) == if AllThere(desc, s) then Decode(Relaxed(desc), s) else None
  {
    forall j | 0 <= j < |desc.fields|
      ensures ComingIn(desc.fields, {}, Tags(desc, s), j)
         <==> (Tracked(desc.fields, j) ==> desc.fields[j].tag in Tags(desc, s))
    {
    }
    LoopRequires(desc, s, Defaults(desc), Untracked());
    assert Defaults(Relaxed(desc)) == Defaults(desc);
  }

  // ----- at every depth -----

  /** All tracked fields are there, and in every submessage that is there, too. */
  predicate Complete(desc: Descriptor, s: Bytes)
    decreases desc, 1
  {
    AllThere(desc, s) && BodiesComplete(desc, s)
  }

  predicate FieldComplete(f: Field, s: Bytes)
    decreases f, 0
  {
    f.kind.Submessage? && ReadString(s).Some? ==> Complete(f.kind.desc, ReadString(s).value.0)
  }

  predicate BodiesComplete(desc: Descriptor, s: Bytes)
    decreases desc, 0, |s|
  {
    match DecodeVarint32(s)
    case None => true
    case Some((key, body)) =>
      key == 0 ||
      (&& (match FindField(desc.fields, key / 8) case None => true case Some(i) => FieldComplete(desc.fields[i], body))
       && (match BehindKey(desc, key, body) case None => true case Some(rest) => BodiesComplete(desc, rest)))
  }

  lemma FitsIsShaped(desc: Descriptor, slots: seq<Slot>)
    requires MessageFits(desc, slots)
    ensures Shaped(desc, slots)
  {
    forall i | 0 <= i < |slots| ensures slots[i].Many? <==> desc.fields[i].rule.Repeated? {
      assert SlotFits(desc.fields[i], slots[i]);
    }
  }

  /** A value that decodes into field `i` is complete. */
  lemma {:induction false} ValueComplete(f: Field, s: Bytes, current: Value)
    requires TypeOk(f.kind) && FieldStartsOk(f) && ValueFits(f.kind, current) && DecodeValue(f.kind, s, current).Some?
    ensures FieldComplete(f, s)
    decreases f, 2
  {
    if f.kind.Submessage? {
      LoopComplete(f.kind.desc, ReadString(s).value.0, current.slots, Untracked());
      NothingSeen(f.kind.desc, ReadString(s).value.0);
    }
  }

  lemma NothingSeen(desc: Descriptor, s: Bytes)
    requires Coming(desc, {}, s)
    ensures AllThere(desc, s)
  {
    forall i | 0 <= i < |desc.fields| && Tracked(desc.fields, i) ensures desc.fields[i].tag in Tags(desc, s) {
      assert ComingIn(desc.fields, {}, Tags(desc, s), i);
    }
  }

  lemma {:induction false} FieldIsComplete(desc: Descriptor, i: nat, wireType: nat, s: Bytes, slots: seq<Slot>)
    requires i < |desc.fields| == |slots| && DecodeField(desc, i, wireType, s, slots).Some?
    requires FieldStartsOk(desc.fields[i]) && SlotFits(desc.fields[i], slots[i])
    ensures FieldComplete(desc.fields[i], s)
    decreases desc, 2
  {
    var f := desc.fields[i];
    InitialFits(f.kind, f.initial);
    match slots[i]
    case One(current) => ValueComplete(f, s, current);
    case Maybe(o) => ValueComplete(f, s, if f.rule.Optional? && o.Some? then o.value else Initial(f.kind, f.initial));
    case Many(items) =>
      if f.kind.Submessage? {
        InitialFits(f.kind, None);
        ValueComplete(f, s, Initial(f.kind, None));
      }
  }

  /** Whatever the bytes, of a message that decodes no tracked field is missing at any depth. */
  lemma {:induction false} LoopComplete(desc: Descriptor, s: Bytes, slots: seq<Slot>, t: Track)
    requires DescriptorOk(desc) && StartsOk(desc) && MessageFits(desc, slots) && DecodeLoop(desc, s, slots, t).Some?
    ensures Coming(desc, t.seen, s) && BodiesComplete(desc, s)
    decreases desc, 3, |s|
  {
    FitsIsShaped(desc, slots);
    LoopRequires(desc, s, slots, t);
    if s != [] && DecodeVarint32(s).value.0 != 0 {
      var (key, body) := DecodeVarint32(s).value;
      var found := FindField(desc.fields, key / 8);
      if found == None {
        LoopComplete(desc, SkipField(key % 8, body).value, slots, t);
      } else {
        var i := found.value;
        EnterFits(desc, slots, t, i);
        var (entered, t') := Enter(desc.fields, slots, t, i).value;
        FieldFits(desc, i, key % 8, body, entered);
        FieldIsComplete(desc, i, key % 8, body, entered);
        FitsIsShaped(desc, entered);
        FieldBehind(desc, i, key % 8, body, entered);
        var (slots', rest) := DecodeField(desc, i, key % 8, body, entered).value;
        LoopComplete(desc, rest, slots', Mark(desc.fields, t', i));
      }
    }
  }

  lemma DecodedIsComplete(desc: Descriptor, s: Bytes)
    requires DescriptorOk(desc) && StartsOk(desc)
    ensures Decode(desc, s).Some? ==> Complete(desc, s)
  {
    if Decode(desc, s).Some? {
      DefaultsFit(desc);
      LoopComplete(desc, s, Defaults(desc), Untracked());
      NothingSeen(desc, s);
    }
  }

  // ----- an encoding with the bytes of one required field left out -----

  /** The way to a field of the message, or of a submessage: field `i`, and item `j` of it if that is an array. */
  datatype Path = Here(i: nat) | Inside(i: nat, j: nat, deeper: Path)

  function ItemAt(s: Slot, j: nat): Option<Value> {
    match s
    case One(v) => if j == 0 then Some(v) else None
    case Maybe(o) => if j == 0 then o else None
    case Many(items) => if j < |items| then Some(items[j]) else None
  }

  /** The path leads through submessages that are written to a tracked field. */
  predicate Leads(desc: Descriptor, slots: seq<Slot>, p: Path)
    decreases p
  {
    && |slots| == |desc.fields| && p.i < |slots|
    && match p
       case Here(i) => Tracked(desc.fields, i)
       case Inside(i, j, deeper) =>
         && desc.fields[i].kind.Submessage? && (slots[i].One? ==> !LeftOut(desc.fields[i], slots[i].value))
         && ItemAt(slots[i], j).Some? && ItemAt(slots[i], j).value.Message?
         && Leads(desc.fields[i].kind.desc, ItemAt(slots[i], j).value.slots, deeper)
  }

  /** The encoding of the fields from `k` up to `i`. */
  function EncodeRange(desc: Descriptor, slots: seq<Slot>, k: nat, i: nat): Bytes
    requires i <= |slots| == |desc.fields|
    decreases i - k
  {
    if k >= i then [] else EncodeSlot(desc.fields[k], slots[k]) + EncodeRange(desc, slots, k + 1, i)
  }

  /** The items in front of item `j`, each with its tag, and those behind it. */
  function ItemsBefore(f: Field, s: Slot, j: nat): Bytes {
    if s.Many? && j <= |s.items| then EncodeTagged(f, s.items[..j]) else []
  }

  function ItemsBehind(f: Field, s: Slot, j: nat): Bytes {
    if s.Many? && j < |s.items| then EncodeTagged(f, s.items[j + 1..]) else []
  }

  /** The encoding without the bytes of that field; the submessages around it have the lengths of what is left. */
  function EncodeWithout(desc: Descriptor, slots: seq<Slot>, p: Path): Bytes
    requires Leads(desc, slots, p)
    decreases p
  {
    match p
    case Here(i) => EncodeRange(desc, slots, 0, i) + EncodeFrom(desc, slots, i + 1)
    case Inside(i, j, deeper) =>
      var f := desc.fields[i];
      var body := EncodeWithout(f.kind.desc, ItemAt(slots[i], j).value.slots, deeper);
      EncodeRange(desc, slots, 0, i)
          + (ItemsBefore(f, slots[i], j)
             + ((TagBytes(2, f.tag) + Prefixed(body)) + (ItemsBehind(f, slots[i], j) + EncodeFrom(desc, slots, i + 1))))
  }

  /** One key and its value in front of `rest`. */
  lemma KeyInFront(desc: Descriptor, i: nat, wireType: nat, value: Bytes, rest: Bytes)
    requires DescriptorOk(desc) && i < |desc.fields| && wireType < 8
    requires Behind(desc.fields[i], wireType, value + rest) == Some(rest)
    ensures var s := (TagBytes(wireType, desc.fields[i].tag) + value) + rest;
      && Tags(desc, s) == {desc.fields[i].tag} + Tags(desc, rest)
      && (BodiesComplete(desc, s) <==> FieldComplete(desc.fields[i], value + rest) && BodiesComplete(desc, rest))
  {
    var tag := desc.fields[i].tag;
    Regroup(TagBytes(wireType, tag), value, rest);
    TagRead(wireType, tag, value + rest);
    FindIs(desc.fields, i);
  }

  lemma ValuePassed(f: Field, v: Value, rest: Bytes)
    requires TypeOk(f.kind) && ValueHeld(f.kind, v) && |EncodeValue(f.kind, v)| < TWO_32
    ensures Behind(f, WireType(f.kind), EncodeValue(f.kind, v) + rest) == Some(rest)
  {
    match f.kind
    case Submessage(sub) => StringRead(EncodeFrom(sub, v.slots, 0), rest);
    case BytesUpTo(_) => StringRead(v.data, rest);
    case StringIn(_) => StringRead(v.data, rest);
    case FixedBytes(_) => StringRead(v.data, rest);
    case _ => ScalarRoundTrip(f.kind, v.n, rest);
  }

  /** In front of `rest` stands the encoding of field `i`, or nothing. */
  ghost predicate InFront(desc: Descriptor, i: nat, s: Bytes, rest: Bytes)
    requires i < |desc.fields|
  {
    && Tags(desc, s) <= {desc.fields[i].tag} + Tags(desc, rest)
    && (BodiesComplete(desc, s) ==> BodiesComplete(desc, rest))
  }

  lemma OneInFront(desc: Descriptor, i: nat, v: Value, rest: Bytes)
    requires DescriptorOk(desc) && i < |desc.fields| && ValueHeld(desc.fields[i].kind, v)
    requires |EncodeValue(desc.fields[i].kind, v)| < TWO_32
    ensures InFront(desc, i, EncodeOne(desc.fields[i], v) + rest, rest)
  {
    var f := desc.fields[i];
    ValuePassed(f, v, rest);
    KeyInFront(desc, i, WireType(f.kind), EncodeValue(f.kind, v), rest);
  }

  lemma PackedInFront(desc: Descriptor, i: nat, data: Bytes, rest: Bytes)
    requires DescriptorOk(desc) && i < |desc.fields| && desc.fields[i].rule.Repeated? && |data| < TWO_32
    ensures InFront(desc, i, (TagBytes(2, desc.fields[i].tag) + Prefixed(data)) + rest, rest)
  {
    StringRead(data, rest);
    KeyInFront(desc, i, 2, Prefixed(data), rest);
  }

  lemma {:induction false} ItemsInFront(desc: Descriptor, i: nat, items: seq<Value>, rest: Bytes)
    requires DescriptorOk(desc) && i < |desc.fields| && |EncodeTagged(desc.fields[i], items)| < TWO_32
    requires forall j :: 0 <= j < |items| ==> ValueHeld(desc.fields[i].kind, items[j])
    ensures InFront(desc, i, EncodeTagged(desc.fields[i], items) + rest, rest)
    decreases |items|
  {
    var f := desc.fields[i];
    if items == [] {
      assert [] + rest == rest;
    } else {
      var more := EncodeTagged(f, items[1..]);
      Regroup(TagBytes(WireType(f.kind), f.tag), EncodeValue(f.kind, items[0]), more);
      Regroup(EncodeOne(f, items[0]), more, rest);
      OneInFront(desc, i, items[0], more + rest);
      ItemsInFront(desc, i, items[1..], rest);
    }
  }

  lemma SlotInFront(desc: Descriptor, i: nat, s: Slot, rest: Bytes)
    requires DescriptorOk(desc) && i < |desc.fields| && SlotHeld(desc.fields[i], s)
    requires |EncodeSlot(desc.fields[i], s)| < TWO_32
    ensures InFront(desc, i, EncodeSlot(desc.fields[i], s) + rest, rest)
  {
    var f := desc.fields[i];
    match s
    case One(v) => if LeftOut(f, v) { assert [] + rest == rest; } else { OneInFront(desc, i, v, rest); }
    case Maybe(o) => if o == None { assert [] + rest == rest; } else { OneInFront(desc, i, o.value, rest); }
    case Many(items) =>
      if items == [] {
        assert [] + rest == rest;
      } else if Packable(f.kind) {
        PackedInFront(desc, i, EncodePacked(f.kind, items), rest);
      } else {
        ItemsInFront(desc, i, items, rest);
      }
  }

  /** With the fields from `k` up to `i` in front, no other tag has come and no gap has been filled. */
  lemma {:induction false} RangeInFront(desc: Descriptor, slots: seq<Slot>, k: nat, i: nat, rest: Bytes, tag: nat)
    requires DescriptorOk(desc) && MessageHeld(desc, slots) && i <= |slots| && |EncodeRange(desc, slots, k, i)| < TWO_32
    requires forall m :: k <= m < i ==> desc.fields[m].tag != tag
    ensures var s := EncodeRange(desc, slots, k, i) + rest;
      && (tag in Tags(desc, s) ==> tag in Tags(desc, rest)) && (BodiesComplete(desc, s) ==> BodiesComplete(desc, rest))
    decreases i - k
  {
    if k >= i {
      assert [] + rest == rest;
    } else {
      var head, tail := EncodeSlot(desc.fields[k], slots[k]), EncodeRange(desc, slots, k + 1, i);
      Regroup(head, tail, rest);
      assert SlotHeld(desc.fields[k], slots[k]);
      SlotInFront(desc, k, slots[k], tail + rest);
      RangeInFront(desc, slots, k + 1, i, rest, tag);
    }
  }

  lemma {:induction false} FromIsRange(desc: Descriptor, slots: seq<Slot>, k: nat)
    requires k <= |slots| == |desc.fields|
    ensures EncodeFrom(desc, slots, k) == EncodeRange(desc, slots, k, |slots|)
    decreases |slots| - k
  {
    if k < |slots| {
      FromIsRange(desc, slots, k + 1);
    }
  }

  /** The parts of the encoding around field `i`. */
  lemma {:induction false} EncodeParts(desc: Descriptor, slots: seq<Slot>, k: nat, i: nat)
    requires k <= i <= |slots| == |desc.fields|
    ensures EncodeFrom(desc, slots, k) == EncodeRange(desc, slots, k, i) + EncodeFrom(desc, slots, i)
    decreases i - k
  {
    if k == i {
      assert [] + EncodeFrom(desc, slots, i) == EncodeFrom(desc, slots, i);
    } else {
      EncodeParts(desc, slots, k + 1, i);
      Regroup(EncodeSlot(desc.fields[k], slots[k]), EncodeRange(desc, slots, k + 1, i), EncodeFrom(desc, slots, i));
    }
  }

  lemma WithoutOneIs(desc: Descriptor, slots: seq<Slot>, i: nat)
    requires |slots| == |desc.fields| && i < |slots| && Tracked(desc.fields, i)
    ensures Encode(desc, slots)
         == EncodeRange(desc, slots, 0, i) + (EncodeSlot(desc.fields[i], slots[i]) + EncodeFrom(desc, slots, i + 1))
    ensures EncodeWithout(desc, slots, Here(i)) == EncodeRange(desc, slots, 0, i) + EncodeFrom(desc, slots, i + 1)
  {
    EncodeParts(desc, slots, 0, i);
  }

  /** The tag of a field is not among the keys of the others. */
  lemma TagIsMissing(desc: Descriptor, slots: seq<Slot>, i: nat)
    requires DescriptorOk(desc) && MessageHeld(desc, slots) && i < |slots|
    requires |EncodeRange(desc, slots, 0, i) + EncodeFrom(desc, slots, i + 1)| < TWO_32
    ensures desc.fields[i].tag !in Tags(desc, EncodeRange(desc, slots, 0, i) + EncodeFrom(desc, slots, i + 1))
  {
    var tag, rest := desc.fields[i].tag, EncodeFrom(desc, slots, i + 1);
    FromIsRange(desc, slots, i + 1);
    RangeInFront(desc, slots, i + 1, |slots|, [], tag);
    assert EncodeRange(desc, slots, i + 1, |slots|) + [] == rest;
    RangeInFront(desc, slots, 0, i, rest, tag);
  }

  /** A submessage that is not complete makes the message around it incomplete. */
  lemma BodyMissing(desc: Descriptor, i: nat, body: Bytes, rest: Bytes)
    requires DescriptorOk(desc) && i < |desc.fields| && desc.fields[i].kind.Submessage? && |body| < TWO_32
    requires !Complete(desc.fields[i].kind.desc, body)
    ensures !BodiesComplete(desc, (TagBytes(2, desc.fields[i].tag) + Prefixed(body)) + rest)
  {
    StringRead(body, rest);
    KeyInFront(desc, i, 2, Prefixed(body), rest);
  }

  lemma ItemsBeforeInFront(desc: Descriptor, slots: seq<Slot>, i: nat, j: nat, rest: Bytes)
    requires DescriptorOk(desc) && MessageHeld(desc, slots) && i < |slots|
    requires |ItemsBefore(desc.fields[i], slots[i], j)| < TWO_32
    ensures BodiesComplete(desc, ItemsBefore(desc.fields[i], slots[i], j) + rest) ==> BodiesComplete(desc, rest)
  {
    assert SlotHeld(desc.fields[i], slots[i]);
    if slots[i].Many? && j <= |slots[i].items| {
      ItemsInFront(desc, i, slots[i].items[..j], rest);
    } else {
      assert [] + rest == rest;
    }
  }

  lemma ItemHeld(f: Field, s: Slot, j: nat)
    requires SlotHeld(f, s) && ItemAt(s, j).Some?
    ensures ValueHeld(f.kind, ItemAt(s, j).value)
  {
  }

  lemma {:induction false} WithoutIsIncomplete(desc: Descriptor, slots: seq<Slot>, p: Path)
    requires DescriptorOk(desc) && MessageHeld(desc, slots) && Leads(desc, slots, p)
    requires |EncodeWithout(desc, slots, p)| < TWO_32
    ensures !Complete(desc, EncodeWithout(desc, slots, p))
    decreases p
  {
    match p
    case Here(i) =>
      TagIsMissing(desc, slots, i);
    case Inside(i, j, deeper) =>
      var f := desc.fields[i];
      assert SlotHeld(f, slots[i]);
      ItemHeld(f, slots[i], j);
      var body := EncodeWithout(f.kind.desc, ItemAt(slots[i], j).value.slots, deeper);
      var chunk, rest :=
          TagBytes(2, f.tag) + Prefixed(body), ItemsBehind(f, slots[i], j) + EncodeFrom(desc, slots, i + 1);
      WithoutIsIncomplete(f.kind.desc, ItemAt(slots[i], j).value.slots, deeper);
      BodyMissing(desc, i, body, rest);
      ItemsBeforeInFront(desc, slots, i, j, chunk + rest);
      RangeInFront(desc, slots, 0, i, ItemsBefore(f, slots[i], j) + (chunk + rest), 0);
  }

  /** The encoding of a message without the bytes of one tracked required field, at any depth, does not decode. */
  lemma WithoutOneFails(desc: Descriptor, slots: seq<Slot>, p: Path)
    requires DescriptorOk(desc) && StartsOk(desc) && MessageHeld(desc, slots) && Leads(desc, slots, p)
    requires |EncodeWithout(desc, slots, p)| < TWO_32
    ensures Decode(desc, EncodeWithout(desc, slots, p)) == None
  {
    WithoutIsIncomplete(desc, slots, p);
    DecodedIsComplete(desc, EncodeWithout(desc, slots, p));
  }
}
