/** Version edits as the manifest stores them (db/version_edit.cc). */
module EditCodec {
  import opened Keys
  import opened Coding

  const COMPARATOR: nat := 1
  const LOG_NUMBER: nat := 2
  const NEXT_FILE_NUMBER: nat := 3
  const LAST_SEQUENCE: nat := 4
  const COMPACT_POINTER: nat := 5
  const DELETED_FILE: nat := 6
  const NEW_FILE: nat := 7
  const PREV_LOG_NUMBER: nat := 9

  datatype FileMeta = FileMeta(number: nat, size: nat, smallest: Bytes, largest: Bytes)

  datatype Edit = Edit(
    comparator: Option<Bytes>, logNumber: Option<nat>, prevLogNumber: Option<nat>, nextFile: Option<nat>,
        lastSequence: Option<nat>,
    compactPointers: seq<(nat, Bytes)>, deletedFiles: set<(nat, nat)>, newFiles: seq<(nat, FileMeta)>)

  /** Clear leaves the compaction pointers alone. */
  function Clear(e: Edit): Edit {
    Edit(None, None, None, None, None, e.compactPointers, {}, [])
  }

  /** One tagged field of the encoding. */
  datatype Field =
    | Comparator(name: Bytes)
    | LogNumber(number: nat)
    | PrevLogNumber(number: nat)
    | NextFile(number: nat)
    | LastSequence(number: nat)
    | CompactPointer(level: nat, key: Bytes)
    | DeletedFile(level: nat, number: nat)
    | NewFile(level: nat, meta: FileMeta)

  // ----- encoding -----

  function TagOf(f: Field): (r: nat)
    ensures r < TWO_32
  {
    match f
    case Comparator(_) => COMPARATOR
    case LogNumber(_) => LOG_NUMBER
    case PrevLogNumber(_) => PREV_LOG_NUMBER
    case NextFile(_) => NEXT_FILE_NUMBER
    case LastSequence(_) => LAST_SEQUENCE
    case CompactPointer(_, _) => COMPACT_POINTER
    case DeletedFile(_, _) => DELETED_FILE
    case NewFile(_, _) => NEW_FILE
  }

  function MetaBytes(m: FileMeta): Bytes {
    Varint(m.number) + (Varint(m.size) + (Prefixed(m.smallest) + Prefixed(m.largest)))
  }

  function BodyOf(f: Field): Bytes {
    match f
    case Comparator(name) => Prefixed(name)
    case CompactPointer(level, key) => Varint(level) + Prefixed(key)
    case DeletedFile(level, number) => Varint(level) + Varint(number)
    case NewFile(level, m) => Varint(level) + MetaBytes(m)
    case LogNumber(number) => Varint(number)
    case PrevLogNumber(number) => Varint(number)
    case NextFile(number) => Varint(number)
    case LastSequence(number) => Varint(number)
  }

  function Encoded(fields: seq<Field>): Bytes {
    if fields == [] then [] else Varint(TagOf(fields[0])) + (BodyOf(fields[0]) + Encoded(fields[1..]))
  }

  // ----- decoding -----

  function GetLevel(s: Bytes): (r: Option<(nat, Bytes)>)
    ensures r.Some? ==> |r.value.1| < |s|
  {
    match Get32(s)
    case None => None
    case Some((v, rest)) => if v < NUM_LEVELS then Some((v, rest)) else None
  }

  /** The field after a tag, and what follows it; None when it is cut short or its level does not exist. */
  function GetField(tag: nat, s: Bytes): (r: Option<(Field, Bytes)>)
    ensures r.Some? ==> |r.value.1| < |s|
  {
    if tag == COMPARATOR then
      match ReadPrefixed(s) case None => None case Some((name, rest)) => Some((Comparator(name), rest))
    else if tag == LOG_NUMBER then
      match Get64(s) case None => None case Some((n, rest)) => Some((LogNumber(n), rest))
    else if tag == PREV_LOG_NUMBER then
      match Get64(s) case None => None case Some((n, rest)) => Some((PrevLogNumber(n), rest))
    else if tag == NEXT_FILE_NUMBER then
      match Get64(s) case None => None case Some((n, rest)) => Some((NextFile(n), rest))
    else if tag == LAST_SEQUENCE then
      match Get64(s) case None => None case Some((n, rest)) => Some((LastSequence(n), rest))
    else if tag == COMPACT_POINTER then
      match GetLevel(s)
      case None => None
      case Some((level, s1)) =>
        match ReadPrefixed(s1) case None => None case Some((key, rest)) => Some((CompactPointer(level, key), rest))
    else if tag == DELETED_FILE then
      match GetLevel(s)
      case None => None
      case Some((level, s1)) =>
        match Get64(s1) case None => None case Some((n, rest)) => Some((DeletedFile(level, n), rest))
    else if tag == NEW_FILE then
      match GetLevel(s)
      case None => None
      case Some((level, s1)) =>
        match GetMeta(s1) case None => None case Some((meta, rest)) => Some((NewFile(level, meta), rest))
    else None
  }

  function GetMeta(s: Bytes): (r: Option<(FileMeta, Bytes)>)
    ensures r.Some? ==> |r.value.1| < |s|
  {
    match Get64(s)
    case None => None
    case Some((number, s1)) =>
      match Get64(s1)
      case None => None
      case Some((size, s2)) =>
        match ReadPrefixed(s2)
        case None => None
        case Some((smallest, s3)) =>
          match ReadPrefixed(s3)
          case None => None
          case Some((largest, rest)) => Some((FileMeta(number, size, smallest, largest), rest))
  }

  function MessageFor(tag: nat): string {
    if tag == COMPARATOR then "comparator name"
    else if tag == LOG_NUMBER then "log number"
    else if tag == PREV_LOG_NUMBER then "previous log number"
    else if tag == NEXT_FILE_NUMBER then "next file number"
    else if tag == LAST_SEQUENCE then "last sequence number"
    else if tag == COMPACT_POINTER then "compaction pointer"
    else if tag == DELETED_FILE then "deleted file"
    else if tag == NEW_FILE then "new-file entry"
    else "unknown tag"
  }

  function Put(e: Edit, f: Field): Edit {
    match f
    case Comparator(name) => e.(comparator := Some(name))
    case LogNumber(n) => e.(logNumber := Some(n))
    case PrevLogNumber(n) => e.(prevLogNumber := Some(n))
    case NextFile(n) => e.(nextFile := Some(n))
    case LastSequence(n) => e.(lastSequence := Some(n))
    case CompactPointer(level, key) => e.(compactPointers := e.compactPointers + [(level, key)])
    case DeletedFile(level, number) => e.(deletedFiles := e.deletedFiles + {(level, number)})
    case NewFile(level, meta) => e.(newFiles := e.newFiles + [(level, meta)])
  }

  function PutAll(e: Edit, fields: seq<Field>): Edit
    decreases |fields|
  {
    if fields == [] then e else PutAll(Put(e, fields[0]), fields[1..])
  }

  /** What decoding adds to an edit. */
  function Decoded(s: Bytes, e: Edit): Result<Edit>
    decreases |s|
  {
    match Get32(s)
    case None => if s == [] then Ok(e) else Corruption("invalid tag")
    case Some((tag, body)) =>
      match GetField(tag, body)
      case None => Corruption(MessageFor(tag))
      case Some((f, rest)) => Decoded(rest, Put(e, f))
  }

  // ----- one field -----

  predicate FieldFits(f: Field) {
    match f
    case Comparator(name) => |name| < TWO_32
    case CompactPointer(level, key) => level < NUM_LEVELS && |key| < TWO_32
    case DeletedFile(level, number) => level < NUM_LEVELS && number < TWO_64
    case NewFile(level, m) =>
      level < NUM_LEVELS && m.number < TWO_64 && m.size < TWO_64 && |m.smallest| < TWO_32 && |m.largest| < TWO_32
    case LogNumber(number) => number < TWO_64
    case PrevLogNumber(number) => number < TWO_64
    case NextFile(number) => number < TWO_64
    case LastSequence(number) => number < TWO_64
  }

  lemma LevelRoundTrip(level: nat, rest: Bytes)
    requires level < NUM_LEVELS
    ensures GetLevel(Varint(level) + rest) == Some((level, rest))
  {
    Get32RoundTrip(level, rest);
  }

  lemma MetaRoundTrip(m: FileMeta, rest: Bytes)
    requires m.number < TWO_64 && m.size < TWO_64 && |m.smallest| < TWO_32 && |m.largest| < TWO_32
    ensures GetMeta(MetaBytes(m) + rest) == Some((m, rest))
  {
    var a, b, c, d := Varint(m.number), Varint(m.size), Prefixed(m.smallest), Prefixed(m.largest);
    Regroup(a, b + (c + d), rest);
    Regroup(b, c + d, rest);
    Regroup(c, d, rest);
    Get64RoundTrip(m.number, b + (c + (d + rest)));
    Get64RoundTrip(m.size, c + (d + rest));
    PrefixedRoundTrip(m.smallest, d + rest);
    PrefixedRoundTrip(m.largest, rest);
  }

  lemma PointerRoundTrip(level: nat, key: Bytes, rest: Bytes)
    requires FieldFits(CompactPointer(level, key))
    ensures GetField(COMPACT_POINTER, Varint(level) + Prefixed(key) + rest) == Some((CompactPointer(level, key), rest))
  {
    Regroup(Varint(level), Prefixed(key), rest);
    LevelRoundTrip(level, Prefixed(key) + rest);
    PrefixedRoundTrip(key, rest);
  }

  lemma DeletedRoundTrip(level: nat, number: nat, rest: Bytes)
    requires FieldFits(DeletedFile(level, number))
    ensures GetField(DELETED_FILE, Varint(level) + Varint(number) + rest) == Some((DeletedFile(level, number), rest))
  {
    Regroup(Varint(level), Varint(number), rest);
    LevelRoundTrip(level, Varint(number) + rest);
    Get64RoundTrip(number, rest);
  }

  lemma NewIs(s: Bytes, level: nat, s1: Bytes, m: FileMeta, rest: Bytes)
    requires GetLevel(s) == Some((level, s1)) && GetMeta(s1) == Some((m, rest))
    ensures GetField(NEW_FILE, s) == Some((NewFile(level, m), rest))
  {
  }

  lemma NewRoundTrip(level: nat, m: FileMeta, rest: Bytes)
    requires FieldFits(NewFile(level, m))
    ensures GetField(NEW_FILE, Varint(level) + MetaBytes(m) + rest) == Some((NewFile(level, m), rest))
  {
    Regroup(Varint(level), MetaBytes(m), rest);
    LevelRoundTrip(level, MetaBytes(m) + rest);
    MetaRoundTrip(m, rest);
    NewIs(Varint(level) + MetaBytes(m) + rest, level, MetaBytes(m) + rest, m, rest);
  }

  lemma NumberRoundTrip(number: nat, rest: Bytes)
    requires number < TWO_64
    ensures GetField(LOG_NUMBER, Varint(number) + rest) == Some((LogNumber(number), rest))
    ensures GetField(PREV_LOG_NUMBER, Varint(number) + rest) == Some((PrevLogNumber(number), rest))
    ensures GetField(NEXT_FILE_NUMBER, Varint(number) + rest) == Some((NextFile(number), rest))
    ensures GetField(LAST_SEQUENCE, Varint(number) + rest) == Some((LastSequence(number), rest))
  {
    Get64RoundTrip(number, rest);
  }

  lemma FieldRoundTrip(f: Field, rest: Bytes)
    requires FieldFits(f)
    ensures GetField(TagOf(f), BodyOf(f) + rest) == Some((f, rest))
  {
    match f
    case Comparator(name) => PrefixedRoundTrip(name, rest);
    case CompactPointer(level, key) => PointerRoundTrip(level, key, rest);
    case DeletedFile(level, number) => DeletedRoundTrip(level, number, rest);
    case NewFile(level, m) => NewRoundTrip(level, m, rest);
    case LogNumber(number) => NumberRoundTrip(number, rest);
    case PrevLogNumber(number) => NumberRoundTrip(number, rest);
    case NextFile(number) => NumberRoundTrip(number, rest);
    case LastSequence(number) => NumberRoundTrip(number, rest);
  }

  lemma {:induction false} FieldsRoundTrip(fields: seq<Field>, e: Edit)
    requires forall f :: f in fields ==> FieldFits(f)
    ensures Decoded(Encoded(fields), e) == Ok(PutAll(e, fields))
    decreases |fields|
  {
    if fields != [] {
      var f, rest := fields[0], Encoded(fields[1..]);
      Get32RoundTrip(TagOf(f), BodyOf(f) + rest);
      FieldRoundTrip(f, rest);
      FieldsRoundTrip(fields[1..], Put(e, f));
    }
  }

  // ----- a whole edit -----

  function PointerFields(pointers: seq<(nat, Bytes)>): (r: seq<Field>)
    ensures |r| == |pointers|
  {
    seq(|pointers|, i requires 0 <= i < |pointers| => CompactPointer(pointers[i].0, pointers[i].1))
  }

  function DeletedFields(order: seq<(nat, nat)>): (r: seq<Field>)
    ensures |r| == |order|
  {
    seq(|order|, i requires 0 <= i < |order| => DeletedFile(order[i].0, order[i].1))
  }

  function NewFields(files: seq<(nat, FileMeta)>): (r: seq<Field>)
    ensures |r| == |files|
  {
    seq(|files|, i requires 0 <= i < |files| => NewFile(files[i].0, files[i].1))
  }

  function Single(e: Edit): seq<Field> {
    (if e.comparator.Some? then [Comparator(e.comparator.value)] else [])
    + (if e.logNumber.Some? then [LogNumber(e.logNumber.value)] else [])
    + (if e.prevLogNumber.Some? then [PrevLogNumber(e.prevLogNumber.value)] else [])
    + (if e.nextFile.Some? then [NextFile(e.nextFile.value)] else [])
    + (if e.lastSequence.Some? then [LastSequence(e.lastSequence.value)] else [])
  }

  /** The fields of an edit in the order they are written, the deleted files in the set's own order. */
  function FieldsOf(e: Edit, order: seq<(nat, nat)>): seq<Field> {
    Single(e) + PointerFields(e.compactPointers) + DeletedFields(order) + NewFields(e.newFiles)
  }

  predicate EditFits(e: Edit) {
    && (e.comparator.Some? ==> |e.comparator.value| < TWO_32)
    && (e.logNumber.Some? ==> e.logNumber.value < TWO_64)
    && (e.prevLogNumber.Some? ==> e.prevLogNumber.value < TWO_64)
    && (e.nextFile.Some? ==> e.nextFile.value < TWO_64)
    && (e.lastSequence.Some? ==> e.lastSequence.value < TWO_64)
    && (forall p :: p in e.compactPointers ==> FieldFits(CompactPointer(p.0, p.1)))
    && (forall p :: p in e.deletedFiles ==> FieldFits(DeletedFile(p.0, p.1)))
    && (forall p :: p in e.newFiles ==> FieldFits(NewFile(p.0, p.1)))
  }

  function Members(order: seq<(nat, nat)>): set<(nat, nat)> {
    set p | p in order
  }

  lemma {:induction false} PutAppend(e: Edit, a: seq<Field>, b: seq<Field>)
    ensures PutAll(e, a + b) == PutAll(PutAll(e, a), b)
    decreases |a|
  {
    if a == [] {
      assert a + b == b;
    } else {
      assert (a + b)[1..] == a[1..] + b;
      PutAppend(Put(e, a[0]), a[1..], b);
    }
  }

  lemma {:induction false} PutPointers(e: Edit, pointers: seq<(nat, Bytes)>)
    ensures PutAll(e, PointerFields(pointers)) == e.(compactPointers := e.compactPointers + pointers)
    decreases |pointers|
  {
    if pointers == [] {
      assert e.compactPointers + pointers == e.compactPointers;
    } else {
      assert PointerFields(pointers)[1..] == PointerFields(pointers[1..]);
      PutPointers(Put(e, PointerFields(pointers)[0]), pointers[1..]);
      assert (e.compactPointers + [pointers[0]]) + pointers[1..] == e.compactPointers + pointers;
    }
  }

  lemma {:induction false} PutDeleted(e: Edit, order: seq<(nat, nat)>)
    ensures PutAll(e, DeletedFields(order)) == e.(deletedFiles := e.deletedFiles + Members(order))
    decreases |order|
  {
    if order == [] {
      assert e.deletedFiles + Members(order) == e.deletedFiles;
    } else {
      assert DeletedFields(order)[1..] == DeletedFields(order[1..]);
      PutDeleted(Put(e, DeletedFields(order)[0]), order[1..]);
      assert Members(order) == {order[0]} + Members(order[1..]);
      assert (e.deletedFiles + {order[0]}) + Members(order[1..]) == e.deletedFiles + Members(order);
    }
  }

  lemma {:induction false} PutNew(e: Edit, files: seq<(nat, FileMeta)>)
    ensures PutAll(e, NewFields(files)) == e.(newFiles := e.newFiles + files)
    decreases |files|
  {
    if files == [] {
      assert e.newFiles + files == e.newFiles;
    } else {
      assert NewFields(files)[1..] == NewFields(files[1..]);
      PutNew(Put(e, NewFields(files)[0]), files[1..]);
      assert (e.newFiles + [files[0]]) + files[1..] == e.newFiles + files;
    }
  }

  lemma PutSingle(into: Edit, e: Edit)
    ensures PutAll(Clear(into), Single(e))
         == Edit(e.comparator, e.logNumber, e.prevLogNumber, e.nextFile, e.lastSequence, into.compactPointers, {}, [])
  {
    var a := if e.comparator.Some? then [Comparator(e.comparator.value)] else [];
    var b := if e.logNumber.Some? then [LogNumber(e.logNumber.value)] else [];
    var c := if e.prevLogNumber.Some? then [PrevLogNumber(e.prevLogNumber.value)] else [];
    var d := if e.nextFile.Some? then [NextFile(e.nextFile.value)] else [];
    var f := if e.lastSequence.Some? then [LastSequence(e.lastSequence.value)] else [];
    PutAppend(Clear(into), a + b + c + d, f);
    PutAppend(Clear(into), a + b + c, d);
    PutAppend(Clear(into), a + b, c);
    PutAppend(Clear(into), a, b);
  }

  lemma PutFields(into: Edit, e: Edit, order: seq<(nat, nat)>)
    requires Members(order) == e.deletedFiles
    ensures PutAll(Clear(into), FieldsOf(e, order)) == e.(compactPointers := into.compactPointers + e.compactPointers)
  {
    var a, b, c, d := Single(e), PointerFields(e.compactPointers), DeletedFields(order), NewFields(e.newFiles);
    PutAppend(Clear(into), a + b + c, d);
    PutAppend(Clear(into), a + b, c);
    PutAppend(Clear(into), a, b);
    PutSingle(into, e);
    var e1 := PutAll(Clear(into), a);
    PutPointers(e1, e.compactPointers);
    var e2 := PutAll(e1, b);
    PutDeleted(e2, order);
    PutNew(PutAll(e2, c), e.newFiles);
  }

  lemma FieldsFit(e: Edit, order: seq<(nat, nat)>)
    requires EditFits(e) && Members(order) == e.deletedFiles
    ensures forall f :: f in FieldsOf(e, order) ==> FieldFits(f)
  {
    assert forall f :: f in Single(e) ==> FieldFits(f);
    assert forall f :: f in PointerFields(e.compactPointers) ==> FieldFits(f);
    forall f | f in DeletedFields(order)
      ensures FieldFits(f)
    {
      var i :| 0 <= i < |order| && f == DeletedFile(order[i].0, order[i].1);
      assert order[i] in Members(order);
    }
    assert forall f :: f in NewFields(e.newFiles) ==> FieldFits(f);
  }

  /** An edit decodes back from its encoding; only the compaction pointers of the edit decoded into remain, in front. */
  lemma EditRoundTrip(into: Edit, e: Edit, order: seq<(nat, nat)>)
    requires EditFits(e) && Members(order) == e.deletedFiles
    ensures Decoded(Encoded(FieldsOf(e, order)), Clear(into))
        == Ok(e.(compactPointers := into.compactPointers + e.compactPointers))
  {
    FieldsFit(e, order);
    FieldsRoundTrip(FieldsOf(e, order), Clear(into));
    PutFields(into, e, order);
  }

  // ----- EncodeTo and DecodeFrom -----

  lemma {:induction false} EncodedAppend(a: seq<Field>, b: seq<Field>)
    ensures Encoded(a + b) == Encoded(a) + Encoded(b)
    decreases |a|
  {
    if a == [] {
      assert a + b == b;
    } else {
      assert (a + b)[1..] == a[1..] + b;
      EncodedAppend(a[1..], b);
      Regroup(Varint(TagOf(a[0])), BodyOf(a[0]) + Encoded(a[1..]), Encoded(b));
      Regroup(BodyOf(a[0]), Encoded(a[1..]), Encoded(b));
    }
  }

  function FieldBytes(f: Field): Bytes {
    Varint(TagOf(f)) + BodyOf(f)
  }

  lemma EncodedOne(f: Field)
    ensures Encoded([f]) == FieldBytes(f)
  {
    assert Encoded([f][1..]) == [];
    assert BodyOf(f) + [] == BodyOf(f);
  }

  lemma EncodedSnoc(fields: seq<Field>, f: Field)
    ensures Encoded(fields + [f]) == Encoded(fields) + FieldBytes(f)
  {
    EncodedAppend(fields, [f]);
    EncodedOne(f);
  }

  lemma EncodedNext(fields: seq<Field>, i: nat)
    requires i < |fields|
    ensures Encoded(fields[..i + 1]) == Encoded(fields[..i]) + FieldBytes(fields[i])
  {
    assert fields[..i + 1] == fields[..i] + [fields[i]];
    EncodedSnoc(fields[..i], fields[i]);
  }

  method EncodeOption<T>(o: Option<T>, field: T -> Field) returns (r: Bytes)
    ensures r == Encoded(if o.Some? then [field(o.value)] else [])
  {
    r := [];
    if o.Some? {
      EncodedOne(field(o.value));
      r := FieldBytes(field(o.value));
    }
  }

  method EncodeSingle(e: Edit) returns (r: Bytes)
    ensures r == Encoded(Single(e))
  {
    var a := EncodeOption(e.comparator, x => Comparator(x));
    var b := EncodeOption(e.logNumber, x => LogNumber(x));
    var c := EncodeOption(e.prevLogNumber, x => PrevLogNumber(x));
    var d := EncodeOption(e.nextFile, x => NextFile(x));
    var f := EncodeOption(e.lastSequence, x => LastSequence(x));
    SingleEncoded(e, a, b, c, d, f);
    r := a + b + c + d + f;
  }

  lemma SingleEncoded(e: Edit, a: Bytes, b: Bytes, c: Bytes, d: Bytes, f: Bytes)
    requires a == Encoded(if e.comparator.Some? then [Comparator(e.comparator.value)] else [])
    requires b == Encoded(if e.logNumber.Some? then [LogNumber(e.logNumber.value)] else [])
    requires c == Encoded(if e.prevLogNumber.Some? then [PrevLogNumber(e.prevLogNumber.value)] else [])
    requires d == Encoded(if e.nextFile.Some? then [NextFile(e.nextFile.value)] else [])
    requires f == Encoded(if e.lastSequence.Some? then [LastSequence(e.lastSequence.value)] else [])
    ensures Encoded(Single(e)) == a + b + c + d + f
  {
    var fa := if e.comparator.Some? then [Comparator(e.comparator.value)] else [];
    var fb := if e.logNumber.Some? then [LogNumber(e.logNumber.value)] else [];
    var fc := if e.prevLogNumber.Some? then [PrevLogNumber(e.prevLogNumber.value)] else [];
    var fd := if e.nextFile.Some? then [NextFile(e.nextFile.value)] else [];
    var ff := if e.lastSequence.Some? then [LastSequence(e.lastSequence.value)] else [];
    EncodedAppend(fa, fb);
    EncodedAppend(fa + fb, fc);
    EncodedAppend(fa + fb + fc, fd);
    EncodedAppend(fa + fb + fc + fd, ff);
  }

  method EncodeTo(e: Edit) returns (r: Bytes, ghost order: seq<(nat, nat)>)
    ensures Members(order) == e.deletedFiles && Ascending(order)
    ensures r == Encoded(FieldsOf(e, order))
  {
    r := EncodeSingle(e);
    var pointers := EncodePointers(e.compactPointers);
    EncodedAppend(Single(e), PointerFields(e.compactPointers));
    r := r + pointers;
    var deleted;
    deleted, order := EncodeDeleted(e.deletedFiles);
    EncodedAppend(Single(e) + PointerFields(e.compactPointers), DeletedFields(order));
    r := r + deleted;
    var added := EncodeNew(e.newFiles);
    EncodedAppend(Single(e) + PointerFields(e.compactPointers) + DeletedFields(order), NewFields(e.newFiles));
    r := r + added;
  }

  method EncodePointers(pointers: seq<(nat, Bytes)>) returns (r: Bytes)
    ensures r == Encoded(PointerFields(pointers))
  {
    r := [];
    ghost var fields := PointerFields(pointers);
    for i := 0 to |pointers|
      invariant r == Encoded(fields[..i])
    {
      EncodedNext(fields, i);
      r := r + FieldBytes(CompactPointer(pointers[i].0, pointers[i].1));
    }
    assert fields[..|pointers|] == fields;
  }

  method EncodeNew(files: seq<(nat, FileMeta)>) returns (r: Bytes)
    ensures r == Encoded(NewFields(files))
  {
    r := [];
    ghost var fields := NewFields(files);
    for i := 0 to |files|
      invariant r == Encoded(fields[..i])
    {
      EncodedNext(fields, i);
      r := r + FieldBytes(NewFile(files[i].0, files[i].1));
    }
    assert fields[..|files|] == fields;
  }

  /** The order of the set of deleted files: by level, then by number. */
  predicate PairLess(a: (nat, nat), b: (nat, nat)) {
    a.0 < b.0 || (a.0 == b.0 && a.1 < b.1)
  }

  ghost predicate Ascending(order: seq<(nat, nat)>) {
    forall i, j :: 0 <= i < j < |order| ==> PairLess(order[i], order[j])
  }

  /** The pairs of `order` ascend, and come before those that are left. */
  ghost predicate InFront(order: seq<(nat, nat)>, left: set<(nat, nat)>) {
    Ascending(order) && forall a, b :: a in order && b in left ==> PairLess(a, b)
  }

  lemma FrontGrows(order: seq<(nat, nat)>, left: set<(nat, nat)>, p: (nat, nat))
    requires InFront(order, left) && p in left && forall q :: q in left ==> q == p || PairLess(p, q)
    ensures InFront(order + [p], left - {p})
  {
  }

  lemma LeastExists(s: set<(nat, nat)>)
    requires s != {}
    ensures exists p :: p in s && forall q :: q in s ==> q == p || PairLess(p, q)
  {
    var p :| p in s;
    if s != {p} {
      LeastExists(s - {p});
      var r :| r in s - {p} && forall q :: q in s - {p} ==> q == r || PairLess(r, q);
      var least := if PairLess(p, r) then p else r;
      forall q | q in s ensures q == least || PairLess(least, q) {
        assert q == p || q in s - {p};
      }
    }
  }

  method EncodeDeleted(files: set<(nat, nat)>) returns (r: Bytes, ghost order: seq<(nat, nat)>)
    ensures Members(order) == files && Ascending(order)
    ensures r == Encoded(DeletedFields(order))
  {
    r, order := [], [];
    var left := files;
    while left != {}
      invariant left <= files && Members(order) == files - left
      invariant InFront(order, left)
      invariant r == Encoded(DeletedFields(order))
      decreases |left|
    {
      LeastExists(left);
      var p :| p in left && forall q :: q in left ==> q == p || PairLess(p, q);
      EncodedLast(order, p);
      FrontGrows(order, left, p);
      order := order + [p];
      r := r + FieldBytes(DeletedFile(p.0, p.1));
      left := left - {p};
    }
  }

  lemma EncodedLast(order: seq<(nat, nat)>, p: (nat, nat))
    ensures Encoded(DeletedFields(order + [p])) == Encoded(DeletedFields(order)) + FieldBytes(DeletedFile(p.0, p.1))
    ensures Members(order + [p]) == Members(order) + {p}
  {
    DeletedLast(order, p);
    EncodedSnoc(DeletedFields(order), DeletedFile(p.0, p.1));
    MembersLast(order, p);
  }

  lemma DeletedLast(order: seq<(nat, nat)>, p: (nat, nat))
    ensures DeletedFields(order + [p]) == DeletedFields(order) + [DeletedFile(p.0, p.1)]
  {
  }

  lemma MembersLast(order: seq<(nat, nat)>, p: (nat, nat))
    ensures Members(order + [p]) == Members(order) + {p}
  {
  }

  method DecodeFrom(src: Bytes, into: Edit) returns (r: Result<Edit>)
    ensures r == Decoded(src, Clear(into))
  {
    var e, input := Clear(into), src;
    while true
      invariant Decoded(src, Clear(into)) == Decoded(input, e)
      decreases |input|
    {
      var tag := Get32(input);
      if tag == None { break; }
      var field := GetField(tag.value.0, tag.value.1);
      if field == None {
        return Corruption(MessageFor(tag.value.0));
      }
      e, input := Put(e, field.value.0), field.value.1;
    }
    r := if input == [] then Ok(e) else Corruption("invalid tag");
  }
}
