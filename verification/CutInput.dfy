/** What decoders make of input that has been cut off (db/write_batch.cc, Iterate; db/version_edit.cc, DecodeFrom). */
module CutInput {
  import opened Keys
  import opened Coding
  import BatchCodec
  import EditCodec

  // ----- numbers and strings -----

  lemma {:induction false} NumberCut(v: nat, m: nat, n: nat)
    requires m < |Varint(v)|
    ensures ReadVarint(Varint(v)[..m], n) == None
    decreases v
  {
    if m > 0 {
      var s := Varint(v);
      assert v >= 128 && s[1..] == Varint(v / 128) && s[..m][1..] == s[1..][..m - 1];
      if n > 0 { NumberCut(v / 128, m - 1, n - 1); }
    }
  }

  /** Cutting `a + b` leaves some of `a`, or all of it and some of `b`. */
  lemma CutOfTwo(a: Bytes, b: Bytes, m: nat)
    requires m <= |a + b|
    ensures (a + b)[..m] == if m < |a| then a[..m] else a + b[..m - |a|]
  {
  }

  lemma StringCut(s: Bytes, m: nat)
    requires |s| < TWO_32 && m < |Prefixed(s)|
    ensures ReadPrefixed(Prefixed(s)[..m]) == None
  {
    CutOfTwo(Varint(|s|), s, m);
    if m < |Varint(|s|)| {
      NumberCut(|s|, m, 5);
    } else {
      VarintLimits();
      VarintRoundTrip(|s|, 5, s[..m - |Varint(|s|)|]);
    }
  }

  // ----- batches -----

  lemma TagThenCut(tag: byte, body: Bytes, m: nat)
    requires 0 < m <= |body| + 1
    ensures ([tag] + body)[..m][0] == tag && ([tag] + body)[..m][1..] == body[..m - 1]
  {
  }

  lemma DeleteCut(key: Bytes, m: nat)
    requires |key| < TWO_32 && 0 < m < |BatchCodec.RecordOf(BatchCodec.Delete(key))|
    ensures BatchCodec.GetOp(BatchCodec.RecordOf(BatchCodec.Delete(key))[..m]).Corruption?
  {
    TagThenCut(BatchCodec.TYPE_DELETION, Prefixed(key), m);
    StringCut(key, m - 1);
  }

  lemma TwoStringsCut(key: Bytes, value: Bytes, m: nat)
    requires |key| < TWO_32 && |value| < TWO_32 && m < |Prefixed(key) + Prefixed(value)|
    ensures var r := ReadPrefixed((Prefixed(key) + Prefixed(value))[..m]); r.None? || ReadPrefixed(r.value.1).None?
  {
    var a, b := Prefixed(key), Prefixed(value);
    CutOfTwo(a, b, m);
    if m < |a| {
      StringCut(key, m);
    } else {
      PrefixedRoundTrip(key, b[..m - |a|]);
      StringCut(value, m - |a|);
    }
  }

  lemma PutCut(key: Bytes, value: Bytes, m: nat)
    requires |key| < TWO_32 && |value| < TWO_32 && 0 < m < |BatchCodec.RecordOf(BatchCodec.Put(key, value))|
    ensures BatchCodec.GetOp(BatchCodec.RecordOf(BatchCodec.Put(key, value))[..m]).Corruption?
  {
    TagThenCut(BatchCodec.TYPE_VALUE, Prefixed(key) + Prefixed(value), m);
    TwoStringsCut(key, value, m - 1);
  }

  /** A record that is cut off is complained about. */
  lemma RecordCut(op: BatchCodec.BatchOp, m: nat)
    requires BatchCodec.OpFits(op) && 0 < m < |BatchCodec.RecordOf(op)|
    ensures BatchCodec.GetOp(BatchCodec.RecordOf(op)[..m]).Corruption?
  {
    match op
    case Delete(key) => DeleteCut(key, m);
    case Put(key, value) => PutCut(key, value, m);
  }

  /** Of records that are cut off fewer are read, or one is complained about. */
  lemma {:induction false} RecordsCut(ops: seq<BatchCodec.BatchOp>, m: nat)
    requires (forall op :: op in ops ==> BatchCodec.OpFits(op)) && m < |BatchCodec.Records(ops)|
    ensures var r := BatchCodec.GetOps(BatchCodec.Records(ops)[..m]); r.Ok? ==> |r.value| < |ops|
    decreases |ops|
  {
    var a, b := BatchCodec.RecordOf(ops[0]), BatchCodec.Records(ops[1..]);
    CutOfTwo(a, b, m);
    if 0 < m < |a| {
      RecordCut(ops[0], m);
    } else if m >= |a| {
      BatchCodec.OpRoundTrip(ops[0], b[..m - |a|]);
      RecordsCut(ops[1..], m - |a|);
    }
  }

  lemma HeaderCut(sequence: nat, ops: seq<BatchCodec.BatchOp>, m: nat)
    requires sequence < TWO_64 && |ops| < TWO_32 && 12 <= m <= |BatchCodec.BatchBytes(sequence, ops)|
    ensures var rep := BatchCodec.BatchBytes(sequence, ops)[..m];
      rep[12..] == BatchCodec.Records(ops)[..m - 12] && DecodeFixed(rep[8..12]) == |ops|
  {
    BatchCodec.HeaderParts(sequence, ops);
    var rep := BatchCodec.BatchBytes(sequence, ops);
    assert rep[..m][8..12] == rep[8..12] && rep[..m][12..] == rep[12..][..m - 12];
  }

  /** No part of a batch is taken for a batch: the count in the header tells when records are missing. */
  lemma CutBatchRejected(sequence: nat, ops: seq<BatchCodec.BatchOp>, m: nat)
    requires sequence < TWO_64 && |ops| < TWO_32 && forall op :: op in ops ==> BatchCodec.OpFits(op)
    requires m < |BatchCodec.BatchBytes(sequence, ops)|
    ensures BatchCodec.Iterated(BatchCodec.BatchBytes(sequence, ops)[..m]).Corruption?
  {
    BatchCodec.HeaderParts(sequence, ops);
    if m >= 12 {
      HeaderCut(sequence, ops, m);
      RecordsCut(ops, m - 12);
    }
  }

  /** Nor is one whose header counts too many or too few. */
  lemma WrongCountRejected(sequence: nat, count: nat, ops: seq<BatchCodec.BatchOp>)
    requires sequence < TWO_64 && count < TWO_32 && forall op :: op in ops ==> BatchCodec.OpFits(op)
    ensures BatchCodec.Iterated(Fixed(sequence, 8) + Fixed(count, 4) + BatchCodec.Records(ops)).Ok? <==> count == |ops|
  {
    var rep := Fixed(sequence, 8) + Fixed(count, 4) + BatchCodec.Records(ops);
    Powers();
    FixedRoundTrip(count, 4);
    BatchCodec.OpsRoundTrip(ops);
    assert rep[8..12] == Fixed(count, 4) && rep[12..] == BatchCodec.Records(ops);
  }

  // ----- version edits -----

  lemma Get64Cut(v: nat, m: nat)
    requires m < |Varint(v)|
    ensures Get64(Varint(v)[..m]) == None && Get32(Varint(v)[..m]) == None
  {
    NumberCut(v, m, 10);
    NumberCut(v, m, 5);
  }

  lemma MetaCut(meta: EditCodec.FileMeta, m: nat)
    requires meta.number < TWO_64 && meta.size < TWO_64 && |meta.smallest| < TWO_32 && |meta.largest| < TWO_32
    requires m < |EditCodec.MetaBytes(meta)|
    ensures EditCodec.GetMeta(EditCodec.MetaBytes(meta)[..m]) == None
  {
    var a, b := Varint(meta.number), Varint(meta.size);
    var keys := Prefixed(meta.smallest) + Prefixed(meta.largest);
    CutOfTwo(a, b + keys, m);
    if m < |a| {
      Get64Cut(meta.number, m);
    } else {
      var n := m - |a|;
      Get64RoundTrip(meta.number, (b + keys)[..n]);
      CutOfTwo(b, keys, n);
      if n < |b| {
        Get64Cut(meta.size, n);
      } else {
        Get64RoundTrip(meta.size, keys[..n - |b|]);
        TwoStringsCut(meta.smallest, meta.largest, n - |b|);
      }
    }
  }

  lemma LevelThenCut(level: nat, body: Bytes, m: nat)
    requires level < NUM_LEVELS && m <= |Varint(level) + body|
    ensures var r := EditCodec.GetLevel((Varint(level) + body)[..m]);
      if m < |Varint(level)| then r == None else r == Some((level, body[..m - |Varint(level)|]))
  {
    CutOfTwo(Varint(level), body, m);
    if m < |Varint(level)| {
      Get64Cut(level, m);
    } else {
      EditCodec.LevelRoundTrip(level, body[..m - |Varint(level)|]);
    }
  }

  lemma PointerCut(level: nat, key: Bytes, m: nat)
    requires level < NUM_LEVELS && |key| < TWO_32 && m < |Varint(level) + Prefixed(key)|
    ensures EditCodec.GetField(5, (Varint(level) + Prefixed(key))[..m]) == None
  {
    LevelThenCut(level, Prefixed(key), m);
    if m >= |Varint(level)| { StringCut(key, m - |Varint(level)|); }
  }

  lemma DeletedCut(level: nat, number: nat, m: nat)
    requires level < NUM_LEVELS && number < TWO_64 && m < |Varint(level) + Varint(number)|
    ensures EditCodec.GetField(6, (Varint(level) + Varint(number))[..m]) == None
  {
    LevelThenCut(level, Varint(number), m);
    if m >= |Varint(level)| { Get64Cut(number, m - |Varint(level)|); }
  }

  lemma NewCut(level: nat, meta: EditCodec.FileMeta, m: nat)
    requires EditCodec.FieldFits(EditCodec.NewFile(level, meta)) && m < |Varint(level) + EditCodec.MetaBytes(meta)|
    ensures EditCodec.GetField(7, (Varint(level) + EditCodec.MetaBytes(meta))[..m]) == None
  {
    LevelThenCut(level, EditCodec.MetaBytes(meta), m);
    if m >= |Varint(level)| { MetaCut(meta, m - |Varint(level)|); }
  }

  lemma NumberFieldCut(tag: nat, number: nat, m: nat)
    requires (tag == 2 || tag == 3 || tag == 4 || tag == 9) && m < |Varint(number)|
    ensures EditCodec.GetField(tag, Varint(number)[..m]) == None
  {
    Get64Cut(number, m);
  }

  /** A field that is cut off is not read. */
  lemma FieldCut(f: EditCodec.Field, m: nat)
    requires EditCodec.FieldFits(f) && m < |EditCodec.BodyOf(f)|
    ensures EditCodec.GetField(EditCodec.TagOf(f), EditCodec.BodyOf(f)[..m]) == None
  {
    match f
    case Comparator(name) => StringCut(name, m);
    case LogNumber(n) => NumberFieldCut(2, n, m);
    case PrevLogNumber(n) => NumberFieldCut(9, n, m);
    case NextFile(n) => NumberFieldCut(3, n, m);
    case LastSequence(n) => NumberFieldCut(4, n, m);
    case CompactPointer(level, key) => PointerCut(level, key, m);
    case DeletedFile(level, number) => DeletedCut(level, number, m);
    case NewFile(level, meta) => NewCut(level, meta, m);
  }

  /** Nor is one of a tag that there is not. */
  lemma UnknownTag(tag: nat, s: Bytes)
    requires tag == 0 || tag == 8 || tag > 9
    ensures EditCodec.GetField(tag, s) == None
  {
  }

  lemma TagIsShort(f: EditCodec.Field)
    ensures |Varint(EditCodec.TagOf(f))| == 1
  {
  }

  function FieldBytes(f: EditCodec.Field): Bytes {
    Varint(EditCodec.TagOf(f)) + EditCodec.BodyOf(f)
  }

  /** How many fields are whole in the first `m` bytes. */
  function WholeFields(fields: seq<EditCodec.Field>, m: nat): (k: nat)
    ensures k <= |fields|
  {
    if fields == [] || m < |FieldBytes(fields[0])| then 0
    else WholeFields(fields[1..], m - |FieldBytes(fields[0])|) + 1
  }

  lemma FieldRead(f: EditCodec.Field, s: Bytes, e: EditCodec.Edit)
    requires EditCodec.FieldFits(f)
    ensures EditCodec.Decoded(Varint(EditCodec.TagOf(f)) + (EditCodec.BodyOf(f) + s), e)
         == EditCodec.Decoded(s, EditCodec.Put(e, f))
  {
    Get32RoundTrip(EditCodec.TagOf(f), EditCodec.BodyOf(f) + s);
    EditCodec.FieldRoundTrip(f, s);
  }

  lemma FieldStops(f: EditCodec.Field, m: nat, e: EditCodec.Edit)
    requires EditCodec.FieldFits(f) && m < |EditCodec.BodyOf(f)|
    ensures EditCodec.Decoded(Varint(EditCodec.TagOf(f)) + EditCodec.BodyOf(f)[..m], e).Corruption?
  {
    Get32RoundTrip(EditCodec.TagOf(f), EditCodec.BodyOf(f)[..m]);
    FieldCut(f, m);
  }

  lemma FrontFields(fields: seq<EditCodec.Field>, k: nat)
    requires 0 < k <= |fields|
    ensures fields[..k] != [] && fields[..k][0] == fields[0] && fields[..k][1..] == fields[1..][..k - 1]
    ensures |EditCodec.Encoded(fields[..k])|
         == |FieldBytes(fields[0])| + |EditCodec.Encoded(fields[1..][..k - 1])|
  {
  }

  /** The first `k` fields end at or before `m`, and are what decoding gives if they end there; otherwise it fails. */
  ghost predicate CutReads(fields: seq<EditCodec.Field>, k: nat, m: nat, e: EditCodec.Edit, r: Result<EditCodec.Edit>) {
    && k <= |fields| && |EditCodec.Encoded(fields[..k])| <= m
    && if m == |EditCodec.Encoded(fields[..k])| then r == Ok(EditCodec.PutAll(e, fields[..k])) else r.Corruption?
  }

  lemma NextReads(fields: seq<EditCodec.Field>, k: nat, m: nat, e: EditCodec.Edit, r: Result<EditCodec.Edit>)
    requires fields != [] && CutReads(fields[1..], k, m, EditCodec.Put(e, fields[0]), r)
    ensures CutReads(fields, k + 1, m + |FieldBytes(fields[0])|, e, r)
  {
    FrontFields(fields, k + 1);
  }

  lemma CutOfField(tag: Bytes, body: Bytes, more: Bytes, m: nat)
    requires |tag| == 1 && 0 < m <= |tag + (body + more)|
    ensures (tag + (body + more))[..m]
         == if m < |tag + body| then tag + body[..m - 1] else tag + (body + more[..m - |tag + body|])
  {
    CutOfTwo(tag, body + more, m);
    CutOfTwo(body, more, m - 1);
  }

  lemma CutInside(fields: seq<EditCodec.Field>, m: nat, e: EditCodec.Edit)
    requires fields != [] && EditCodec.FieldFits(fields[0]) && 0 < m < |FieldBytes(fields[0])|
    ensures m <= |EditCodec.Encoded(fields)| && WholeFields(fields, m) == 0
    ensures CutReads(fields, 0, m, e, EditCodec.Decoded(EditCodec.Encoded(fields)[..m], e))
  {
    var f := fields[0];
    TagIsShort(f);
    CutOfField(Varint(EditCodec.TagOf(f)), EditCodec.BodyOf(f), EditCodec.Encoded(fields[1..]), m);
    FieldStops(f, m - 1, e);
    assert EditCodec.Encoded(fields[..0]) == [];
  }

  lemma CutBehind(fields: seq<EditCodec.Field>, n: nat, m: nat, e: EditCodec.Edit)
    requires fields != [] && EditCodec.FieldFits(fields[0]) && n <= |EditCodec.Encoded(fields[1..])|
    requires m == n + |FieldBytes(fields[0])|
    ensures m <= |EditCodec.Encoded(fields)| && WholeFields(fields, m) == WholeFields(fields[1..], n) + 1
    ensures EditCodec.Decoded(EditCodec.Encoded(fields)[..m], e)
         == EditCodec.Decoded(EditCodec.Encoded(fields[1..])[..n], EditCodec.Put(e, fields[0]))
  {
    var f, more := fields[0], EditCodec.Encoded(fields[1..]);
    TagIsShort(f);
    CutOfField(Varint(EditCodec.TagOf(f)), EditCodec.BodyOf(f), more, m);
    FieldRead(f, more[..n], e);
  }

  lemma EncodedLength(fields: seq<EditCodec.Field>)
    requires fields != []
    ensures |EditCodec.Encoded(fields)| == |FieldBytes(fields[0])| + |EditCodec.Encoded(fields[1..])|
  {
  }

  /** Of an edit that is cut off the whole fields are read, and the rest of one more is complained about. */
  lemma {:induction false} EditCut(fields: seq<EditCodec.Field>, m: nat, e: EditCodec.Edit)
    requires (forall f :: f in fields ==> EditCodec.FieldFits(f)) && m <= |EditCodec.Encoded(fields)|
    ensures CutReads(fields, WholeFields(fields, m), m, e, EditCodec.Decoded(EditCodec.Encoded(fields)[..m], e))
    decreases |fields|
  {
    if fields == [] || m == 0 {
      NothingCut(fields, e);
    } else if m < |FieldBytes(fields[0])| {
      CutInside(fields, m, e);
    } else {
      var n := m - |FieldBytes(fields[0])|;
      EncodedLength(fields);
      EditCut(fields[1..], n, EditCodec.Put(e, fields[0]));
      CutBehind(fields, n, m, e);
      NextReads(fields, WholeFields(fields[1..], n), n, e, EditCodec.Decoded(EditCodec.Encoded(fields)[..m], e));
    }
  }

  lemma NothingCut(fields: seq<EditCodec.Field>, e: EditCodec.Edit)
    ensures CutReads(fields, 0, 0, e, EditCodec.Decoded(EditCodec.Encoded(fields)[..0], e))
    ensures WholeFields(fields, 0) == 0
  {
    assert fields[..0] == [] && EditCodec.Encoded(fields)[..0] == [];
    if fields != [] { TagIsShort(fields[0]); }
  }
}
