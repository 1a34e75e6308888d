/** Comparators on keys as bytes (include/leveldb/comparator.h, util/comparator.cc, db/dbformat.cc). */
module Comparators {
  import opened Keys
  import opened Coding
  import opened Separators

  /** A comparator, and the keys that it may be asked about. */
  datatype Comparator = Comparator(admits: Bytes -> bool, compare: (Bytes, Bytes) -> int)

  ghost predicate OrderedAt(o: Comparator, a: Bytes, b: Bytes, c: Bytes) {
    o.admits(a) && o.admits(b) && o.admits(c) ==>
      && (o.compare(a, b) < 0 <==> o.compare(b, a) > 0)
      && (o.compare(a, b) <= 0 && o.compare(b, c) <= 0 ==> o.compare(a, c) <= 0)
      && (o.compare(a, b) < 0 && o.compare(b, c) <= 0 ==> o.compare(a, c) < 0)
      && (o.compare(a, b) <= 0 && o.compare(b, c) < 0 ==> o.compare(a, c) < 0)
  }

  /** What every comparator promises: a total order on its keys. */
  ghost predicate IsOrder(o: Comparator) {
    forall a, b, c :: OrderedAt(o, a, b, c)
  }

  // ----- bytes -----

  /** BytewiseComparatorImpl */
  function Bytewise(): Comparator {
    Comparator(key => true, (a, b) => Compare(a, b))
  }

  lemma BytewiseIsOrder()
    ensures IsOrder(Bytewise())
  {
    forall a, b, c ensures OrderedAt(Bytewise(), a, b, c) {
      PositionIsFaithful(a, b);
      PositionIsFaithful(b, a);
      PositionIsFaithful(b, c);
      PositionIsFaithful(a, c);
    }
  }

  // ----- internal keys -----

  /** ExtractUserKey */
  function UserPart(key: Bytes): Bytes
    requires |key| >= 8
  {
    key[..|key| - 8]
  }

  function TagPart(key: Bytes): nat
    requires |key| >= 8
  {
    DecodeFixed(key[|key| - 8..])
  }

  /** InternalKeyComparator::Compare over some comparator of user keys. */
  function CompareInternal(user: Comparator, a: Bytes, b: Bytes): int
    requires |a| >= 8 && |b| >= 8
  {
    var r := user.compare(UserPart(a), UserPart(b));
    if r != 0 then r
    else if TagPart(a) > TagPart(b) then -1
    else if TagPart(a) < TagPart(b) then 1
    else 0
  }

  function InternalKeys(user: Comparator): Comparator {
    Comparator(
      key => |key| >= 8 && user.admits(UserPart(key)),
      (a, b) => if |a| >= 8 && |b| >= 8 then CompareInternal(user, a, b) else 0)
  }

  /** Whatever the order of the user keys, internal keys are in order, too. */
  lemma InternalIsOrder(user: Comparator)
    requires IsOrder(user)
    ensures IsOrder(InternalKeys(user))
  {
    forall a, b, c ensures OrderedAt(InternalKeys(user), a, b, c) {
      if |a| >= 8 && |b| >= 8 && |c| >= 8 {
        InternalOrderedAt(user, a, b, c);
      }
    }
  }

  lemma InternalOrderedAt(user: Comparator, a: Bytes, b: Bytes, c: Bytes)
    requires IsOrder(user) && |a| >= 8 && |b| >= 8 && |c| >= 8
    ensures OrderedAt(InternalKeys(user), a, b, c)
  {
    var x, y, z := UserPart(a), UserPart(b), UserPart(c);
    assert OrderedAt(user, x, y, z) && OrderedAt(user, y, x, x);
    assert OrderedAt(user, y, z, x) && OrderedAt(user, z, y, x) && OrderedAt(user, x, z, y);
  }

  // ----- internal keys as bytes -----

  /** AppendInternalKey */
  function EncodeKey(k: TableKey): (r: Bytes)
    ensures |r| == |k.user| + 8
  {
    k.user + Fixed(Tag(Rank(k)), 8)
  }

  /** ParseInternalKey */
  function DecodeKey(key: Bytes): Option<TableKey> {
    if |key| < 8 then None
    else
      var tag := TagPart(key);
      if tag % 256 > 1 || tag / 256 > MAX_SEQUENCE then None
      else Some(TableKey(UserPart(key), tag / 256, if tag % 256 == 1 then Value else Deletion))
  }

  lemma KeyParts(k: TableKey)
    ensures UserPart(EncodeKey(k)) == k.user && TagPart(EncodeKey(k)) == Tag(Rank(k))
  {
    var tag := Tag(Rank(k));
    Powers();
    FixedRoundTrip(tag, 8);
    assert EncodeKey(k)[|k.user|..] == Fixed(tag, 8);
  }

  lemma KeyRoundTrip(k: TableKey)
    ensures DecodeKey(EncodeKey(k)) == Some(k)
  {
    KeyParts(k);
  }

  /** The comparator on the bytes is the order of the engine's keys. */
  lemma EncodedOrder(a: TableKey, b: TableKey)
    ensures InternalKeys(Bytewise()).compare(EncodeKey(a), EncodeKey(b)) == InternalCompare(a, b)
    ensures InternalKeys(Bytewise()).compare(EncodeKey(a), EncodeKey(b)) < 0 <==> Less(a, b)
    ensures InternalKeys(Bytewise()).admits(EncodeKey(a))
  {
    KeyParts(a);
    KeyParts(b);
    LessIsCompare(a, b);
  }

  lemma LowBytes(v: nat)
    ensures Fixed(v, 8)[0] == v % 256 && Fixed(v, 8)[1] == v / 256 % 256
  {
    assert Fixed(v, 8) == [v % 256] + Fixed(v / 256, 7);
  }

  /**
   * Two versions of one key stand in every table with the newer one first; when its sequence number has the
   * larger low byte, their bytes descend.
   */
  lemma NewerMayDescend(user: Bytes, newer: Sequence, older: Sequence, kind: Kind)
    requires newer > older && newer % 256 > older % 256
    ensures var a, b := TableKey(user, newer, kind), TableKey(user, older, kind);
      && InternalKeys(Bytewise()).compare(EncodeKey(a), EncodeKey(b)) < 0
      && Bytewise().compare(EncodeKey(a), EncodeKey(b)) > 0
  {
    var a, b := TableKey(user, newer, kind), TableKey(user, older, kind);
    EncodedOrder(a, b);
    TagBytes(Rank(a));
    TagBytes(Rank(b));
    DescendAt(user, Tag(Rank(a)), Tag(Rank(b)));
  }

  lemma TagBytes(k: InternalKey)
    ensures Tag(k) % 256 == (if k.kind == Value then 1 else 0) && Tag(k) / 256 == k.seqno
  {
  }

  lemma DescendAt(user: Bytes, s: nat, t: nat)
    requires s % 256 == t % 256 && s / 256 % 256 > t / 256 % 256
    ensures Compare(user + Fixed(s, 8), user + Fixed(t, 8)) > 0
  {
    var a, b, n := user + Fixed(s, 8), user + Fixed(t, 8), |user| + 1;
    LowBytes(s);
    LowBytes(t);
    assert a[n] == Fixed(s, 8)[1] && b[n] == Fixed(t, 8)[1];
    assert a[..n] == b[..n] == user + [s % 256];
    CompareDiffers(a, b, n);
  }
}
