/** Write batches: a header and the operations, appended to, patched and iterated over in place (db/write_batch.cc). */
module BatchCodec {
  import opened Keys
  import opened Coding

  const HEADER: nat := 12
  const TYPE_DELETION: byte := 0
  const TYPE_VALUE: byte := 1

  datatype BatchOp = Put(key: Bytes, value: Bytes) | Delete(key: Bytes)

  predicate OpFits(op: BatchOp) {
    |op.key| < TWO_32 && (op.Put? ==> |op.value| < TWO_32)
  }

  function RecordOf(op: BatchOp): (r: Bytes)
    ensures r != []
  {
    match op
    case Put(key, value) => [TYPE_VALUE] + (Prefixed(key) + Prefixed(value))
    case Delete(key) => [TYPE_DELETION] + Prefixed(key)
  }

  function Records(ops: seq<BatchOp>): Bytes {
    if ops == [] then [] else RecordOf(ops[0]) + Records(ops[1..])
  }

  /** The representation of a batch: sequence number, count, operations. */
  function BatchBytes(sequence: nat, ops: seq<BatchOp>): Bytes {
    Parts(Fixed(sequence, 8), Fixed(|ops|, 4), Records(ops))
  }

  function Parts(sequence: Bytes, count: Bytes, records: Bytes): Bytes {
    sequence + count + records
  }

  // ----- iterating -----

  /** One operation from the front, or the complaint about it. */
  function GetOp(s: Bytes): (r: Result<(BatchOp, Bytes)>)
    requires s != []
    ensures r.Ok? ==> |r.value.1| < |s|
  {
    if s[0] == TYPE_VALUE then
      match ReadPrefixed(s[1..])
      case None => Corruption("bad WriteBatch Put")
      case Some((key, s1)) =>
        match ReadPrefixed(s1)
        case None => Corruption("bad WriteBatch Put")
        case Some((value, rest)) => Ok((Put(key, value), rest))
    else if s[0] == TYPE_DELETION then
      match ReadPrefixed(s[1..])
      case None => Corruption("bad WriteBatch Delete")
      case Some((key, rest)) => Ok((Delete(key), rest))
    else Corruption("unknown WriteBatch tag")
  }

  function GetOps(s: Bytes): Result<seq<BatchOp>>
    decreases |s|
  {
    if s == [] then Ok([])
    else
      match GetOp(s)
      case Corruption(m) => Corruption(m)
      case Ok((op, rest)) =>
        match GetOps(rest)
        case Corruption(m) => Corruption(m)
        case Ok(ops) => Ok([op] + ops)
  }

  function Iterated(rep: Bytes): Result<seq<BatchOp>> {
    if |rep| < HEADER then Corruption("malformed WriteBatch (too small)")
    else
      match GetOps(rep[HEADER..])
      case Corruption(m) => Corruption(m)
      case Ok(ops) => if |ops| != DecodeFixed(rep[8..12]) then Corruption("WriteBatch has wrong count") else Ok(ops)
  }

  /** The entries that InsertInto adds to a memtable: consecutive sequence numbers from the batch's own. */
  function Inserted(rep: Bytes): Result<seq<(nat, BatchOp)>> {
    match Iterated(rep)
    case Corruption(m) => Corruption(m)
    case Ok(ops) => Ok(Numbered(DecodeFixed(rep[..8]), ops))
  }

  function Numbered(first: nat, ops: seq<BatchOp>): seq<(nat, BatchOp)> {
    seq(|ops|, i requires 0 <= i < |ops| => (first + i, ops[i]))
  }

  // ----- round trips -----

  lemma AfterTag(tag: byte, body: Bytes, rest: Bytes)
    ensures ([tag] + body + rest)[0] == tag && ([tag] + body + rest)[1..] == body + rest
  {
  }

  lemma PutRead(s: Bytes, key: Bytes, s1: Bytes, value: Bytes, rest: Bytes)
    requires s != [] && s[0] == TYPE_VALUE
    requires ReadPrefixed(s[1..]) == Some((key, s1)) && ReadPrefixed(s1) == Some((value, rest))
    ensures GetOp(s) == Ok((Put(key, value), rest))
  {
  }

  lemma PutRoundTrip(key: Bytes, value: Bytes, rest: Bytes)
    requires |key| < TWO_32 && |value| < TWO_32
    ensures GetOp(RecordOf(Put(key, value)) + rest) == Ok((Put(key, value), rest))
  {
    var a, b := Prefixed(key), Prefixed(value);
    AfterTag(TYPE_VALUE, a + b, rest);
    Regroup(a, b, rest);
    PrefixedRoundTrip(key, b + rest);
    PrefixedRoundTrip(value, rest);
    PutRead([TYPE_VALUE] + (a + b) + rest, key, b + rest, value, rest);
  }

  lemma DeleteRoundTrip(key: Bytes, rest: Bytes)
    requires |key| < TWO_32
    ensures GetOp(RecordOf(Delete(key)) + rest) == Ok((Delete(key), rest))
  {
    AfterTag(TYPE_DELETION, Prefixed(key), rest);
    PrefixedRoundTrip(key, rest);
  }

  lemma OpRoundTrip(op: BatchOp, rest: Bytes)
    requires OpFits(op)
    ensures GetOp(RecordOf(op) + rest) == Ok((op, rest))
  {
    match op
    case Put(key, value) => PutRoundTrip(key, value, rest);
    case Delete(key) => DeleteRoundTrip(key, rest);
  }

  lemma {:induction false} OpsRoundTrip(ops: seq<BatchOp>)
    requires forall op :: op in ops ==> OpFits(op)
    ensures GetOps(Records(ops)) == Ok(ops)
  {
    if ops != [] {
      OpRoundTrip(ops[0], Records(ops[1..]));
      OpsRoundTrip(ops[1..]);
      assert [ops[0]] + ops[1..] == ops;
    }
  }

  lemma {:induction false} RecordsAppend(a: seq<BatchOp>, b: seq<BatchOp>)
    ensures Records(a + b) == Records(a) + Records(b)
  {
    if a == [] {
      assert a + b == b;
    } else {
      assert (a + b)[1..] == a[1..] + b;
      RecordsAppend(a[1..], b);
      assert RecordOf(a[0]) + (Records(a[1..]) + Records(b)) == RecordOf(a[0]) + Records(a[1..]) + Records(b);
    }
  }

  lemma HeaderParts(sequence: nat, ops: seq<BatchOp>)
    requires sequence < TWO_64 && |ops| < TWO_32
    ensures var rep := BatchBytes(sequence, ops);
      && |rep| >= HEADER && rep[HEADER..] == Records(ops)
      && DecodeFixed(rep[..8]) == sequence && DecodeFixed(rep[8..12]) == |ops|
  {
    var rep := BatchBytes(sequence, ops);
    Powers();
    FixedRoundTrip(sequence, 8);
    FixedRoundTrip(|ops|, 4);
    assert rep[..8] == Fixed(sequence, 8) && rep[8..12] == Fixed(|ops|, 4);
  }

  /** Iterating over a batch gives back the operations put into it, in order and with their sequence numbers. */
  lemma BatchRoundTrip(sequence: nat, ops: seq<BatchOp>)
    requires sequence < TWO_64 && |ops| < TWO_32 && forall op :: op in ops ==> OpFits(op)
    ensures Iterated(BatchBytes(sequence, ops)) == Ok(ops)
    ensures Inserted(BatchBytes(sequence, ops)) == Ok(Numbered(sequence, ops))
  {
    HeaderParts(sequence, ops);
    OpsRoundTrip(ops);
  }

  // ----- the batch -----

  ghost predicate IsBatch(rep: Bytes, sequence: nat, ops: seq<BatchOp>) {
    && rep == BatchBytes(sequence, ops) && sequence < TWO_64 && |ops| < TWO_32
    && forall op :: op in ops ==> OpFits(op)
  }

  class WriteBatch {
    var rep: Bytes
    ghost var sequence: nat
    ghost var ops: seq<BatchOp>

    ghost predicate Valid()
      reads this
    {
      IsBatch(rep, sequence, ops)
    }

    constructor ()
      ensures Valid() && ops == [] && sequence == 0
    {
      rep := Fixed(0, 8) + Fixed(0, 4);
      sequence, ops := 0, [];
    }

    method Clear()
      modifies this
      ensures Valid() && ops == [] && sequence == 0
    {
      rep := Fixed(0, 8) + Fixed(0, 4);
      sequence, ops := 0, [];
    }

    method Count() returns (n: nat)
      requires Valid()
      ensures n == |ops|
    {
      HeaderParts(sequence, ops);
      n := DecodeFixed(rep[8..12]);
    }

    /** The count is patched and the record appended. */
    method Store(record: Bytes, n: nat, ghost more: seq<BatchOp>)
      requires Valid() && record == Records(more) && n == |more| && |ops| + n < TWO_32
      requires forall op :: op in more ==> OpFits(op)
      modifies this
      ensures Valid() && ops == old(ops) + more && sequence == old(sequence)
    {
      var count := Count();
      var patch := Fixed(count + n, 4);
      MoreRecords(rep, sequence, ops, more, record, count + n, patch);
      rep := rep[..8] + patch + rep[12..];
      rep := rep + record;
      ops := ops + more;
    }

    method Put(key: Bytes, value: Bytes)
      requires Valid() && OpFits(BatchOp.Put(key, value)) && |ops| + 1 < TWO_32
      modifies this
      ensures Valid() && ops == old(ops) + [BatchOp.Put(key, value)] && sequence == old(sequence)
    {
      OneRecord(BatchOp.Put(key, value));
      Store([TYPE_VALUE] + (Prefixed(key) + Prefixed(value)), 1, [BatchOp.Put(key, value)]);
    }

    method Delete(key: Bytes)
      requires Valid() && OpFits(BatchOp.Delete(key)) && |ops| + 1 < TWO_32
      modifies this
      ensures Valid() && ops == old(ops) + [BatchOp.Delete(key)] && sequence == old(sequence)
    {
      OneRecord(BatchOp.Delete(key));
      Store([TYPE_DELETION] + Prefixed(key), 1, [BatchOp.Delete(key)]);
    }

    method Append(source: WriteBatch)
      requires Valid() && source.Valid() && |ops| + |source.ops| < TWO_32
      modifies this
      ensures Valid() && ops == old(ops + source.ops) && sequence == old(sequence)
    {
      var n := source.Count();
      HeaderParts(source.sequence, source.ops);
      Store(source.rep[HEADER..], n, source.ops);
    }

    method SetSequence(value: nat)
      requires Valid() && value < TWO_64
      modifies this
      ensures Valid() && ops == old(ops) && sequence == value
    {
      Renumbered(Fixed(sequence, 8), Fixed(|ops|, 4), Records(ops), Fixed(value, 8));
      rep := Fixed(value, 8) + rep[8..];
      sequence := value;
    }

    /** The operations handed to a handler, in order. */
    method Iterate() returns (r: Result<seq<BatchOp>>)
      requires Valid()
      ensures r == Ok(ops)
    {
      BatchRoundTrip(sequence, ops);
      r := IterateBytes(rep);
    }
  }

  lemma OneRecord(op: BatchOp)
    ensures Records([op]) == RecordOf(op)
  {
    assert Records([op][1..]) == [];
    assert RecordOf(op) + [] == RecordOf(op);
  }

  /** More operations behind those of a batch, with the count patched. */
  lemma MoreRecords(rep: Bytes, sequence: nat, ops: seq<BatchOp>, more: seq<BatchOp>, record: Bytes, count: nat,
                    patch: Bytes)
    requires IsBatch(rep, sequence, ops) && record == Records(more) && count == |ops| + |more| < TWO_32
    requires patch == Fixed(count, 4) && forall op :: op in more ==> OpFits(op)
    ensures |rep| >= HEADER && IsBatch(rep[..8] + patch + rep[12..] + record, sequence, ops + more)
  {
    BothFit(ops, more);
    BytesOfAll(sequence, ops + more, count);
    PatchedRecords(Fixed(sequence, 8), Fixed(|ops|, 4), patch, ops, more, record);
  }

  lemma BytesOfAll(sequence: nat, all: seq<BatchOp>, count: nat)
    requires |all| == count
    ensures BatchBytes(sequence, all) == Parts(Fixed(sequence, 8), Fixed(count, 4), Records(all))
  {
  }

  lemma BothFit(ops: seq<BatchOp>, more: seq<BatchOp>)
    requires (forall op :: op in ops ==> OpFits(op)) && (forall op :: op in more ==> OpFits(op))
    ensures forall op :: op in ops + more ==> OpFits(op)
  {
  }

  lemma PatchedRecords(head: Bytes, count: Bytes, patch: Bytes, ops: seq<BatchOp>, more: seq<BatchOp>, record: Bytes)
    requires |head| == 8 && |count| == 4 && record == Records(more)
    ensures var was := Parts(head, count, Records(ops));
      |was| >= HEADER && was[..8] + patch + was[12..] + record == Parts(head, patch, Records(ops + more))
  {
    RecordsAppend(ops, more);
    PatchedParts(head, count, patch, Records(ops), record);
  }

  lemma PatchedParts(a: Bytes, b: Bytes, b': Bytes, c: Bytes, d: Bytes)
    requires |a| == 8 && |b| == 4
    ensures var was := Parts(a, b, c);
      |was| >= HEADER && was[..8] + b' + was[12..] + d == Parts(a, b', c + d)
  {
    var was := Parts(a, b, c);
    assert was[..8] == a && was[12..] == c;
    Regroup(a + b', c, d);
  }

  lemma Renumbered(a: Bytes, b: Bytes, c: Bytes, a': Bytes)
    requires |a| == 8
    ensures a' + (a + b + c)[8..] == a' + b + c
  {
    assert (a + b + c)[8..] == b + c;
  }

  function Prepended(seen: seq<BatchOp>, r: Result<seq<BatchOp>>): Result<seq<BatchOp>> {
    match r
    case Corruption(m) => Corruption(m)
    case Ok(ops) => Ok(seen + ops)
  }

  lemma GetNext(s: Bytes, seen: seq<BatchOp>)
    requires s != []
    ensures Prepended(seen, GetOps(s)) == match GetOp(s)
      case Corruption(m) => Corruption(m)
      case Ok((op, rest)) => Prepended(seen + [op], GetOps(rest))
  {
    match GetOp(s) {
      case Corruption(m) =>
      case Ok((op, rest)) =>
        match GetOps(rest) {
          case Corruption(m) =>
          case Ok(ops) => assert seen + ([op] + ops) == seen + [op] + ops;
        }
    }
  }

  lemma NothingSeen(s: Bytes)
    ensures Prepended([], GetOps(s)) == GetOps(s)
  {
    match GetOps(s) {
      case Corruption(m) =>
      case Ok(ops) => assert [] + ops == ops;
    }
  }

  /** Iterate, on any bytes. */
  method IterateBytes(rep: Bytes) returns (r: Result<seq<BatchOp>>)
    ensures r == Iterated(rep)
  {
    if |rep| < HEADER {
      return Corruption("malformed WriteBatch (too small)");
    }
    var ops := HandleOps(rep[HEADER..]);
    if ops.Ok? && |ops.value| != DecodeFixed(rep[8..12]) {
      return Corruption("WriteBatch has wrong count");
    }
    r := ops;
  }

  method HandleOps(contents: Bytes) returns (r: Result<seq<BatchOp>>)
    ensures r == GetOps(contents)
  {
    var input, seen: seq<BatchOp> := contents, [];
    NothingSeen(contents);
    while input != []
      invariant GetOps(contents) == Prepended(seen, GetOps(input))
      decreases |input|
    {
      GetNext(input, seen);
      match GetOp(input)
      case Corruption(m) => return Corruption(m);
      case Ok((op, rest)) => seen, input := seen + [op], rest;
    }
    assert seen + [] == seen;
    r := Ok(seen);
  }
}
