/** Short keys between two keys (util/comparator.cc, db/dbformat.cc). */
module Separators {
  import opened Keys

  lemma {:induction false} CompareDiffers(a: Bytes, b: Bytes, i: nat)
    requires i < |a| && i < |b| && a[..i] == b[..i] && a[i] != b[i]
    ensures Compare(a, b) < 0 <==> a[i] < b[i]
  {
    if i > 0 {
      assert a[0] == a[..i][0] == b[..i][0] == b[0];
      assert a[1..][..i - 1] == a[..i][1..] && b[1..][..i - 1] == b[..i][1..];
      CompareDiffers(a[1..], b[1..], i - 1);
    }
  }

  /** The keys first differ at byte `d`, and there is room for a byte between theirs. */
  ghost predicate SplitsAt(start: Bytes, limit: Bytes, d: nat) {
    d < |start| && d < |limit| && start[..d] == limit[..d] && start[d] < 0xff && start[d] + 1 < limit[d]
  }

  lemma EqualBefore(a: Bytes, b: Bytes, n: nat)
    requires n <= |a| && n <= |b| && a[..n] == b[..n]
    ensures forall i :: 0 <= i < n ==> a[i] == b[i]
  {
    forall i | 0 <= i < n ensures a[i] == b[i] {
      assert a[..n][i] == b[..n][i];
    }
  }

  /**
   * BytewiseComparatorImpl::FindShortestSeparator: a key that ends where the two split, strictly between
   * them; the first key if they do not.
   */
  method FindShortestSeparator(start: Bytes, limit: Bytes) returns (r: Bytes)
    ensures r == start || (Compare(start, r) < 0 && Compare(r, limit) < 0 && |r| <= |start|)
    ensures r != start <==> exists d: nat :: SplitsAt(start, limit, d)
    ensures forall d: nat :: SplitsAt(start, limit, d) ==> |r| == d + 1
  {
    var length := if |start| < |limit| then |start| else |limit|;
    var diff := 0;
    while diff < length && start[diff] == limit[diff]
      invariant diff <= length && start[..diff] == limit[..diff]
    {
      diff := diff + 1;
    }
    r := start;
    forall d: nat | SplitsAt(start, limit, d) ensures d == diff {
      EqualBefore(start, limit, d);
      EqualBefore(start, limit, diff);
    }
    if diff < length {
      if start[diff] < 0xff && start[diff] + 1 < limit[diff] {
        r := start[..diff] + [start[diff] + 1];
        assert r[..diff] == start[..diff] && r[diff] != start[diff] && SplitsAt(start, limit, diff);
        CompareDiffers(start, r, diff);
        CompareDiffers(r, limit, diff);
      }
    }
  }

  /**
   * BytewiseComparatorImpl::FindShortSuccessor: a later key that ends at the first byte not 0xff; the key
   * itself if there is none.
   */
  method FindShortSuccessor(key: Bytes) returns (r: Bytes)
    ensures r == key || (Compare(key, r) < 0 && |r| <= |key|)
    ensures r == key <==> forall i :: 0 <= i < |key| ==> key[i] == 0xff
    ensures r != key ==> r != [] && key[|r| - 1] != 0xff && forall i :: 0 <= i < |r| - 1 ==> key[i] == 0xff
  {
    r := key;
    for i := 0 to |key|
      invariant r == key && forall j :: 0 <= j < i ==> key[j] == 0xff
    {
      if key[i] != 0xff {
        r := key[..i] + [key[i] + 1];
        assert r[..i] == key[..i] && r[i] != key[i];
        CompareDiffers(key, r, i);
        return;
      }
    }
  }

  // ----- internal keys -----

  /** An internal key with the bytes of its user key. */
  datatype TableKey = TableKey(user: Bytes, seqno: Sequence, kind: Kind)

  function Rank(k: TableKey): InternalKey {
    InternalKey(Position(k.user), k.seqno, k.kind)
  }

  predicate Less(a: TableKey, b: TableKey) {
    Before(Rank(a), Rank(b))
  }

  /** InternalKeyComparator::Compare */
  function InternalCompare(a: TableKey, b: TableKey): int {
    var r := Compare(a.user, b.user);
    if r != 0 then r
    else if Tag(Rank(a)) > Tag(Rank(b)) then -1
    else if Tag(Rank(a)) < Tag(Rank(b)) then 1
    else 0
  }

  /** The comparator's order is the order of the engine's keys. */
  lemma LessIsCompare(a: TableKey, b: TableKey)
    ensures Less(a, b) <==> InternalCompare(a, b) < 0
    ensures a == b <==> InternalCompare(a, b) == 0
  {
    PositionIsFaithful(a.user, b.user);
  }

  function ForSeek(user: Bytes): TableKey {
    TableKey(user, MAX_SEQUENCE, Value)
  }

  /** Whether `r` may stand in an index between a block that ends with `start` and a block that starts with `limit`. */
  predicate Between(start: TableKey, r: TableKey, limit: TableKey) {
    r == start || (Less(start, r) && Less(r, limit) && Position(r.user) < Position(limit.user))
  }

  method FindShortestInternalSeparator(start: TableKey, limit: TableKey) returns (r: TableKey)
    ensures Between(start, r, limit)
    ensures r != start <==> exists d: nat :: SplitsAt(start.user, limit.user, d) && d + 1 < |start.user|
    ensures r != start ==> r == ForSeek(r.user)
  {
    var tmp := FindShortestSeparator(start.user, limit.user);
    r := start;
    if |tmp| < |start.user| && Compare(start.user, tmp) < 0 {
      r := ForSeek(tmp);
      PositionIsFaithful(start.user, tmp);
      PositionIsFaithful(tmp, limit.user);
    }
  }

  method FindShortInternalSuccessor(key: TableKey) returns (r: TableKey)
    ensures r == key || (Less(key, r) && r == ForSeek(r.user))
    ensures r != key <==> exists i :: 0 <= i < |key.user| - 1 && key.user[i] != 0xff
  {
    var tmp := FindShortSuccessor(key.user);
    r := key;
    if |tmp| < |key.user| && Compare(key.user, tmp) < 0 {
      r := ForSeek(tmp);
      PositionIsFaithful(key.user, tmp);
    }
  }
}
