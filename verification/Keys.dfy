/** User keys, internal keys and their orders (util/comparator.cc, db/dbformat.h). */
module Keys {

  datatype Option<T> = None | Some(value: T)

  datatype Result<T> = Ok(value: T) | Corruption(message: string)

  const NUM_LEVELS: nat := 7

  type byte = b: int | 0 <= b < 256

  type Bytes = seq<byte>

  /** Slice::compare: byte by byte over the common prefix, then the shorter one first. */
  function Compare(a: Bytes, b: Bytes): (r: int)
    ensures r == 0 <==> a == b
  {
    if a == [] && b == [] then 0
    else if a == [] then -1
    else if b == [] then 1
    else if a[0] < b[0] then -1
    else if a[0] > b[0] then 1
    else
      assert a == [a[0]] + a[1..] && b == [b[0]] + b[1..];
      Compare(a[1..], b[1..])
  }

  /** The place of a byte string among all byte strings, as a number in [0, 1). */
  function Position(a: Bytes): (r: real)
    ensures 0.0 <= r < 1.0
  {
    if a == [] then 0.0 else (a[0] as real + 1.0 + Position(a[1..])) / 257.0
  }

  /** The bytewise order embeds in the order of the reals, so the engine may speak of positions. */
  lemma {:induction false} PositionIsFaithful(a: Bytes, b: Bytes)
    ensures Compare(a, b) < 0 <==> Position(a) < Position(b)
    ensures Compare(a, b) > 0 <==> Position(a) > Position(b)
  {
    if a != [] && b != [] && a[0] == b[0] {
      PositionIsFaithful(a[1..], b[1..]);
    }
  }

  /** A user key, standing for its place under the user's comparator. */
  type UserKey = real

  const MAX_SEQUENCE: nat := 0x100_0000_0000_0000 - 1

  type Sequence = n: nat | n <= MAX_SEQUENCE

  /** ValueType, as the low byte of a tag. Seeks use Value, the larger of the two. */
  datatype Kind = Deletion | Value

  datatype InternalKey = InternalKey(user: UserKey, seqno: Sequence, kind: Kind)

  /** PackSequenceAndType */
  function Tag(k: InternalKey): nat {
    k.seqno * 256 + (if k.kind == Value then 1 else 0)
  }

  /** InternalKeyComparator::Compare(a, b) < 0: user key ascending, then tag descending. */
  predicate Before(a: InternalKey, b: InternalKey) {
    a.user < b.user || (a.user == b.user && Tag(a) > Tag(b))
  }

  datatype Entry = Entry(key: InternalKey, value: Bytes)

  predicate Sorted(s: seq<Entry>) {
    forall i, j :: 0 <= i < j < |s| ==> Before(s[i].key, s[j].key)
  }

  /** The internal key a reader at `snapshot` seeks to (LookupKey). */
  function LookupKey(user: UserKey, snapshot: Sequence): InternalKey {
    InternalKey(user, snapshot, Value)
  }

  /** An entry is at or after the lookup key of its own user key exactly when the snapshot sees it. */
  lemma LookupSplitsVersions(e: InternalKey, snapshot: Sequence)
    ensures Before(e, LookupKey(e.user, snapshot)) <==> e.seqno > snapshot
  {
  }

  /** First entry at or after `target` in a sorted run: what a Seek on a table or memtable reaches. */
  function SeekIndex(s: seq<Entry>, target: InternalKey): (r: nat)
    requires Sorted(s)
    ensures r <= |s|
    ensures forall i :: 0 <= i < r ==> Before(s[i].key, target)
    ensures forall i :: r <= i < |s| ==> !Before(s[i].key, target)
  {
    if s == [] then 0
    else if !Before(s[0].key, target) then 0
    else 1 + SeekIndex(s[1..], target)
  }

  lemma SubsetSize<T>(a: set<T>, b: set<T>)
    requires a <= b
    ensures |a| <= |b|
  {
    assert b == a + (b - a);
  }
}
