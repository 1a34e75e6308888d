/** Blocks of key-value pairs with shared key prefixes and restart points (table/block_builder.cc, table/block.cc). */
module Blocks {
  import opened Keys
  import opened Coding
  import opened Comparators

  datatype Pair = Pair(key: Bytes, value: Bytes)

  /** One entry: how much of the previous key it shares, the rest of its key, its value. */
  function EncodeEntry(shared: nat, suffix: Bytes, value: Bytes): Bytes {
    Varint(shared) + (Varint(|suffix|) + (Varint(|value|) + (suffix + value)))
  }

  ghost predicate EntryAt(data: Bytes, off: nat, next: nat, shared: nat, suffix: Bytes, value: Bytes) {
    && off <= next <= |data| && data[off..next] == EncodeEntry(shared, suffix, value)
    && shared < TWO_32 && |suffix| + |value| < TWO_32
  }

  /** The pairs of a block, how much each shares, where each starts, and which of them are restart points. */
  datatype Layout = Layout(pairs: seq<Pair>, shared: seq<nat>, offsets: seq<nat>, marks: seq<nat>)

  ghost predicate SharesPrefix(l: Layout, i: nat)
    requires i < |l.pairs| == |l.shared|
  {
    && l.shared[i] <= |l.pairs[i].key|
    && if i == 0 then l.shared[i] == 0
       else l.shared[i] <= |l.pairs[i - 1].key| && l.pairs[i].key[..l.shared[i]] == l.pairs[i - 1].key[..l.shared[i]]
  }

  ghost predicate EntryOf(data: Bytes, l: Layout, i: nat)
    requires i < |l.pairs| == |l.shared| && |l.offsets| == |l.pairs| + 1
  {
    SharesPrefix(l, i)
        && EntryAt(data, l.offsets[i], l.offsets[i + 1], l.shared[i], l.pairs[i].key[l.shared[i]..], l.pairs[i].value)
  }

  /** The entries fill `data` up to `end`. */
  ghost predicate LaidOut(data: Bytes, end: nat, l: Layout) {
    && |l.shared| == |l.pairs| && |l.offsets| == |l.pairs| + 1
    && l.offsets[0] == 0 && l.offsets[|l.pairs|] == end <= |data|
    && (forall i :: 0 <= i < |l.pairs| ==> EntryOf(data, l, i))
  }

  /** Restart points: the first entry and some others, in order, each with its whole key. */
  ghost predicate Marked(l: Layout) {
    && |l.shared| == |l.pairs| && |l.marks| >= 1 && l.marks[0] == 0
    && (forall j, k :: 0 <= j < k < |l.marks| ==> l.marks[j] < l.marks[k])
    && (forall j :: 0 < j < |l.marks| ==> l.marks[j] < |l.pairs|)
    && (forall j :: 0 <= j < |l.marks| && l.marks[j] < |l.pairs| ==> l.shared[l.marks[j]] == 0)
  }

  /** Keys that the comparator takes, in its order. */
  ghost predicate Ascending(order: Comparator, pairs: seq<Pair>) {
    && (forall i :: 0 <= i < |pairs| ==> order.admits(pairs[i].key))
    && forall i, j :: 0 <= i < j < |pairs| ==> order.compare(pairs[i].key, pairs[j].key) < 0
  }

  /** A finished block: entries, then the restart array, then its length. */
  ghost predicate IsBlock(data: Bytes, l: Layout, restarts: nat) {
    && LaidOut(data, restarts, l) && Marked(l)
    && |data| == restarts + 4 * |l.marks| + 4 && |data| < TWO_32
    && (forall j ::
         0 <= j < |l.marks| ==> DecodeFixed(data[restarts + 4 * j..restarts + 4 * j + 4]) == l.offsets[l.marks[j]])
    && DecodeFixed(data[restarts + 4 * |l.marks|..]) == |l.marks|
  }

  // ----- decoding one entry -----

  /** The part of `data` from `p` on starts with a number that ends at `q`. */
  ghost predicate NumberAt(data: Bytes, p: nat, limit: nat, v: nat, q: nat) {
    && p < q <= limit <= |data|
    && ReadVarint(data[p..limit], 5) == Some((v, q - p)) && (data[p] < 128 ==> data[p] == v && q == p + 1)
  }

  lemma ReadsNumber(data: Bytes, p: nat, limit: nat, v: nat, rest: Bytes) returns (q: nat)
    requires p <= limit <= |data| && v < TWO_32 && data[p..limit] == Varint(v) + rest
    ensures NumberAt(data, p, limit, v, q) && data[q..limit] == rest
  {
    FrontNumber(data[p..limit], v, rest);
    q := p + |Varint(v)|;
    assert data[p..limit][q - p..] == data[q..limit];
  }

  /** The three numbers of an entry, one after the other. */
  ghost predicate Numbers(data: Bytes, p: nat, limit: nat, a: nat, b: nat, c: nat, i: nat, j: nat, k: nat) {
    && NumberAt(data, p, limit, a, i) && NumberAt(data, i, limit, b, j) && NumberAt(data, j, limit, c, k)
    && a < TWO_32 && b < TWO_32 && c < TWO_32
  }

  /** GetVarint32Ptr: the number, in 32 bits, and where it ends. */
  function NextNumber(data: Bytes, p: nat, limit: nat): (r: Option<(nat, nat)>)
    requires p <= limit <= |data|
    ensures r.Some? ==> p < r.value.1 <= limit
  {
    match ReadVarint(data[p..limit], 5)
    case None => None
    case Some((v, n)) => Some((v % TWO_32, p + n))
  }

  /** The three numbers at the front of an entry, and where they end. */
  function NextNumbers(data: Bytes, p: nat, limit: nat): (r: Option<(nat, nat, nat, nat)>)
    requires p <= limit <= |data|
    ensures r.Some? ==> p < r.value.3 <= limit
  {
    var x := NextNumber(data, p, limit);
    if x == None then None
    else
      var y := NextNumber(data, x.value.1, limit);
      if y == None then None
      else
        var z := NextNumber(data, y.value.1, limit);
        if z == None then None else Some((x.value.0, y.value.0, z.value.0, z.value.1))
  }

  /** What DecodeEntry makes of any bytes: three numbers, and room for the lengths as added up in 32 bits. */
  function EntryFront(data: Bytes, p: nat, limit: nat): Option<(nat, nat, nat, nat)>
    requires p <= limit <= |data|
  {
    var r := NextNumbers(data, p, limit);
    if r == None || limit - r.value.3 < (r.value.1 + r.value.2) % TWO_32 then None else r
  }

  /** Where an entry stands that was encoded whole, its three numbers and its two strings are found. */
  lemma EntryFrontIs(data: Bytes, p: nat, limit: nat, next: nat, shared: nat, suffix: Bytes, value: Bytes)
    requires EntryAt(data, p, next, shared, suffix, value) && next <= limit <= |data|
    ensures Decoded(data, p, next, shared, suffix, value, EntryFront(data, p, limit))
  {
    var i, j, k := EntrySlices(data, p, limit, next, shared, suffix, value);
    NextIs(data, p, limit, shared, i);
    NextIs(data, i, limit, |suffix|, j);
    NextIs(data, j, limit, |value|, k);
  }

  lemma NextIs(data: Bytes, p: nat, limit: nat, v: nat, q: nat)
    requires NumberAt(data, p, limit, v, q) && v < TWO_32
    ensures NextNumber(data, p, limit) == Some((v, q))
  {
  }

  lemma OneByte(data: Bytes, p: nat, limit: nat)
    requires p < limit <= |data| && data[p] < 128
    ensures NextNumber(data, p, limit) == Some((data[p] as nat, p + 1))
  {
  }

  /** Three numbers need three bytes. */
  lemma NumbersTakeThree(data: Bytes, p: nat, limit: nat)
    requires p <= limit <= |data| && limit - p < 3
    ensures NextNumbers(data, p, limit) == None
  {
  }

  method GetVarint32(data: Bytes, p: nat, limit: nat) returns (r: Option<(nat, nat)>)
    requires p <= limit <= |data|
    ensures r == NextNumber(data, p, limit)
  {
    r := GetVarintPtr(data, p, limit, 5, TWO_32);
  }

  method DecodeNumbers(data: Bytes, p: nat, limit: nat) returns (r: Option<(nat, nat, nat, nat)>)
    requires p <= limit <= |data| && limit - p >= 3
    ensures r == NextNumbers(data, p, limit)
  {
    var shared, nonShared, valueLength := data[p] as nat, data[p + 1] as nat, data[p + 2] as nat;
    if shared < 128 && nonShared < 128 && valueLength < 128 {
      OneByte(data, p, limit);
      OneByte(data, p + 1, limit);
      OneByte(data, p + 2, limit);
      return Some((shared, nonShared, valueLength, p + 3));
    }
    var x := GetVarint32(data, p, limit);
    if x == None {
      return None;
    }
    var y := GetVarint32(data, x.value.1, limit);
    if y == None {
      return None;
    }
    var z := GetVarint32(data, y.value.1, limit);
    if z == None {
      return None;
    }
    return Some((x.value.0, y.value.0, z.value.0, z.value.1));
  }

  /** DecodeEntry: shared, non-shared and value lengths, and where the key's rest starts; for any bytes. */
  method DecodeEntry(data: Bytes, p: nat, limit: nat) returns (r: Option<(nat, nat, nat, nat)>)
    requires p <= limit <= |data|
    ensures r == EntryFront(data, p, limit)
  {
    if limit - p < 3 {
      NumbersTakeThree(data, p, limit);
      return None;
    }
    r := DecodeNumbers(data, p, limit);
    if r.Some? && limit - r.value.3 < (r.value.1 + r.value.2) % TWO_32 {
      r := None;
    }
  }

  ghost predicate Decoded(data: Bytes, p: nat, next: nat, shared: nat, suffix: Bytes, value: Bytes,
                          r: Option<(nat, nat, nat, nat)>)
  {
    && r.Some? && r.value.0 == shared && r.value.1 == |suffix| && r.value.2 == |value|
    && p <= r.value.3 && r.value.3 + |suffix| + |value| == next <= |data|
    && data[r.value.3..r.value.3 + |suffix|] == suffix && data[r.value.3 + |suffix|..next] == value
  }

  lemma EntrySlices(data: Bytes, p: nat, limit: nat, next: nat, shared: nat, suffix: Bytes, value: Bytes)
    returns (i: nat, j: nat, k: nat)
    requires EntryAt(data, p, next, shared, suffix, value) && next <= limit <= |data|
    ensures p < i < j < k && Numbers(data, p, limit, shared, |suffix|, |value|, i, j, k)
    ensures k + |suffix| + |value| == next
    ensures data[k..k + |suffix|] == suffix && data[k + |suffix|..next] == value
  {
    var after := data[next..limit];
    assert data[p..limit] == data[p..next] + after;
    EntryBefore(shared, suffix, value, after);
    i := ReadsNumber(data, p, limit, shared, Varint(|suffix|) + (Varint(|value|) + ((suffix + value) + after)));
    j := ReadsNumber(data, i, limit, |suffix|, Varint(|value|) + ((suffix + value) + after));
    k := ReadsNumber(data, j, limit, |value|, (suffix + value) + after);
    RestSlices(data, k, next, limit, suffix, value, after);
  }

  lemma EntryBefore(shared: nat, suffix: Bytes, value: Bytes, after: Bytes)
    ensures EncodeEntry(shared, suffix, value) + after
        == Varint(shared) + (Varint(|suffix|) + (Varint(|value|) + ((suffix + value) + after)))
  {
    RegroupRest(Varint(shared), Varint(|suffix|), Varint(|value|), suffix + value, after);
  }

  lemma RegroupRest(a: Bytes, b: Bytes, c: Bytes, d: Bytes, e: Bytes)
    ensures (a + (b + (c + d))) + e == a + (b + (c + (d + e)))
  {
  }

  lemma RestSlices(data: Bytes, k: nat, next: nat, limit: nat, suffix: Bytes, value: Bytes, after: Bytes)
    requires k <= limit <= |data| && next <= limit && data[k..limit] == (suffix + value) + after
    requires |after| == limit - next
    ensures k + |suffix| + |value| == next && data[k..k + |suffix|] == suffix && data[k + |suffix|..next] == value
  {
    assert |data[k..limit]| == limit - k;
    SliceOfSlice(data, k, limit, 0, |suffix|);
    SliceOfSlice(data, k, limit, |suffix|, |suffix| + |value|);
    assert ((suffix + value) + after)[|suffix|..|suffix| + |value|] == value;
  }

  lemma SliceOfSlice(data: Bytes, k: nat, limit: nat, x: nat, y: nat)
    requires k <= limit <= |data| && x <= y <= limit - k
    ensures data[k..limit][x..y] == data[k + x..k + y]
  {
    var a, b := data[k..limit][x..y], data[k + x..k + y];
    assert |a| == |b| && forall t :: 0 <= t < |a| ==> a[t] == b[t];
  }

  // ----- building -----

  lemma CompareTransitive(order: Comparator, a: Bytes, b: Bytes, c: Bytes)
    requires IsOrder(order) && order.admits(a) && order.admits(b) && order.admits(c)
    ensures order.compare(a, b) < 0 && order.compare(b, c) <= 0 ==> order.compare(a, c) < 0
    ensures order.compare(a, b) <= 0 && order.compare(b, c) < 0 ==> order.compare(a, c) < 0
  {
    assert OrderedAt(order, a, b, c);
  }

  lemma AppendAscending(order: Comparator, pairs: seq<Pair>, pair: Pair)
    requires IsOrder(order) && Ascending(order, pairs) && order.admits(pair.key)
    requires pairs != [] ==> order.compare(pairs[|pairs| - 1].key, pair.key) < 0
    ensures Ascending(order, pairs + [pair])
  {
    forall i | 0 <= i < |pairs| ensures order.compare(pairs[i].key, pair.key) < 0 {
      CompareTransitive(order, pairs[i].key, pairs[|pairs| - 1].key, pair.key);
    }
  }

  function WithPair(l: Layout, pair: Pair, shared: nat, restart: bool, end: nat): Layout {
    Layout(l.pairs + [pair], l.shared + [shared], l.offsets + [end], if restart then l.marks + [|l.pairs|] else l.marks)
  }

  lemma AppendEntry(data: Bytes, l: Layout, pair: Pair, shared: nat, restart: bool, entry: Bytes)
    requires LaidOut(data, |data|, l) && shared <= |pair.key| && |pair.key| + |pair.value| < TWO_32
    requires if l.pairs == [] then shared == 0
             else shared <= |l.pairs[|l.pairs| - 1].key| && pair.key[..shared] == l.pairs[|l.pairs| - 1].key[..shared]
    requires entry == EncodeEntry(shared, pair.key[shared..], pair.value)
    ensures LaidOut(data + entry, |data + entry|, WithPair(l, pair, shared, restart, |data + entry|))
  {
    var more, l' := data + entry, WithPair(l, pair, shared, restart, |data + entry|);
    forall i | 0 <= i < |l'.pairs| ensures EntryOf(more, l', i) {
      if i < |l.pairs| {
        assert EntryOf(data, l, i);
        assert more[l.offsets[i]..l.offsets[i + 1]] == data[l.offsets[i]..l.offsets[i + 1]];
      } else {
        assert more[|data|..] == entry && more[|data|..] == more[|data|..|more|];
      }
    }
  }

  ghost predicate RestartsAre(restarts: seq<nat>, l: Layout) {
    |restarts| == |l.marks|
        && forall j :: 0 <= j < |restarts| ==> l.marks[j] < |l.offsets| && restarts[j] == l.offsets[l.marks[j]]
  }

  lemma AppendMarked(l: Layout, pair: Pair, shared: nat, restart: bool, end: nat)
    requires Marked(l) && |l.shared| == |l.pairs| && (restart ==> shared == 0 && l.pairs != [])
    requires l.pairs == [] ==> shared == 0
    ensures Marked(WithPair(l, pair, shared, restart, end))
  {
    var n := |l.pairs|;
    var marks := if restart then l.marks + [n] else l.marks;
    MarksGrow(l.marks, n, marks);
    SharedGrow(l.marks, l.shared, shared, n, marks);
  }

  lemma MarksGrow(marks: seq<nat>, n: nat, more: seq<nat>)
    requires marks != [] && marks[0] == 0 && forall j, k :: 0 <= j < k < |marks| ==> marks[j] < marks[k]
    requires forall j :: 0 < j < |marks| ==> marks[j] < n
    requires more == marks || (n > 0 && more == marks + [n])
    ensures more[0] == 0 && forall j, k :: 0 <= j < k < |more| ==> more[j] < more[k]
    ensures forall j :: 0 < j < |more| ==> more[j] < n + 1
  {
  }

  lemma SharedGrow(marks: seq<nat>, shared: seq<nat>, last: nat, n: nat, more: seq<nat>)
    requires |shared| == n && forall j :: 0 <= j < |marks| && marks[j] < n ==> shared[marks[j]] == 0
    requires (more == marks && forall j :: 0 <= j < |marks| ==> marks[j] < n) || (more == marks + [n] && last == 0)
          || (n == 0 && last == 0)
    ensures forall j :: 0 <= j < |more| && more[j] < n + 1 ==> (shared + [last])[more[j]] == 0
  {
  }

  lemma AppendRestarts(restarts: seq<nat>, l: Layout, pair: Pair, shared: nat, restart: bool, size: nat, end: nat)
    requires RestartsAre(restarts, l) && |l.offsets| == |l.pairs| + 1 && l.offsets[|l.pairs|] == size
    ensures RestartsAre(if restart then restarts + [size] else restarts, WithPair(l, pair, shared, restart, end))
  {
  }

  /** The keys have their first `n` bytes in common, and no more. */
  ghost predicate SharedWith(a: Bytes, b: Bytes, n: nat) {
    n <= |a| && n <= |b| && a[..n] == b[..n] && (n < |a| && n < |b| ==> a[n] != b[n])
  }

  /** A restart point every `interval` entries, the last one `counter` entries ago. */
  ghost predicate Spaced(l: Layout, counter: nat, interval: nat) {
    && l.marks != [] && |l.pairs| == l.marks[|l.marks| - 1] + counter
    && forall j :: 0 < j < |l.marks| ==> l.marks[j] == l.marks[j - 1] + interval
  }

  /** What a builder has written. */
  ghost predicate Built(order: Comparator, buffer: Bytes, restarts: seq<nat>, counter: nat, lastKey: Bytes, l: Layout,
                        interval: nat)
  {
    && interval >= 1 && counter <= interval && IsOrder(order)
    && LaidOut(buffer, |buffer|, l) && Marked(l) && Ascending(order, l.pairs) && RestartsAre(restarts, l)
    && lastKey == (if l.pairs == [] then [] else l.pairs[|l.pairs| - 1].key)
    && Spaced(l, counter, interval)
  }

  /**
   * The entry may follow: a restart point when the interval is over, sharing nothing; otherwise sharing a
   * common prefix.
   */
  ghost predicate MayFollow(order: Comparator, counter: nat, lastKey: Bytes, l: Layout, interval: nat, pair: Pair,
                            shared: nat, restart: bool)
  {
    && restart == (counter >= interval) && (restart ==> shared == 0)
    && shared <= |pair.key| && shared <= |lastKey| && pair.key[..shared] == lastKey[..shared]
    && |pair.key| + |pair.value| < TWO_32 && order.admits(pair.key)
    && (l.pairs != [] ==> order.compare(lastKey, pair.key) < 0)
  }

  lemma FollowsLast(order: Comparator, buffer: Bytes, restarts: seq<nat>, counter: nat, lastKey: Bytes, l: Layout,
                    interval: nat, pair: Pair, shared: nat, restart: bool)
    requires Built(order, buffer, restarts, counter, lastKey, l, interval)
    requires MayFollow(order, counter, lastKey, l, interval, pair, shared, restart)
    ensures restart ==> shared == 0 && l.pairs != []
    ensures if l.pairs == [] then shared == 0
            else shared <= |l.pairs[|l.pairs| - 1].key| && pair.key[..shared] == l.pairs[|l.pairs| - 1].key[..shared]
    ensures l.pairs != [] ==> order.compare(l.pairs[|l.pairs| - 1].key, pair.key) < 0
  {
  }

  lemma AddedBuilt(order: Comparator, buffer: Bytes, restarts: seq<nat>, counter: nat, lastKey: Bytes, l: Layout,
                   interval: nat, pair: Pair, shared: nat, restart: bool, entry: Bytes, restarts': seq<nat>,
                   counter': nat, l': Layout)
    requires Built(order, buffer, restarts, counter, lastKey, l, interval)
    requires MayFollow(order, counter, lastKey, l, interval, pair, shared, restart)
    requires entry == EncodeEntry(shared, pair.key[shared..], pair.value)
    requires restarts' == if restart then restarts + [|buffer|] else restarts
    requires counter' == if restart then 1 else counter + 1
    requires l' == WithPair(l, pair, shared, restart, |buffer + entry|)
    ensures Built(order, buffer + entry, restarts', counter', pair.key, l', interval)
  {
    FollowsLast(order, buffer, restarts, counter, lastKey, l, interval, pair, shared, restart);
    AppendEntry(buffer, l, pair, shared, restart, entry);
    AppendMarked(l, pair, shared, restart, |buffer + entry|);
    AppendRestarts(restarts, l, pair, shared, restart, |buffer|, |buffer + entry|);
    AppendAscending(order, l.pairs, pair);
    AppendSpaced(l, counter, interval, pair, shared, restart, |buffer + entry|);
  }

  lemma KeyFollows(order: Comparator, buffer: Bytes, restarts: seq<nat>, counter: nat, lastKey: Bytes, l: Layout,
                   interval: nat, key: Bytes)
    requires Built(order, buffer, restarts, counter, lastKey, l, interval) && order.admits(key)
    requires l.pairs != [] ==> order.compare(key, lastKey) > 0
    ensures l.pairs != [] ==> order.compare(lastKey, key) < 0
  {
    if l.pairs != [] {
      assert OrderedAt(order, lastKey, key, key);
    }
  }

  lemma AppendSpaced(l: Layout, counter: nat, interval: nat, pair: Pair, shared: nat, restart: bool, end: nat)
    requires Spaced(l, counter, interval) && counter <= interval && restart == (counter >= interval)
    ensures Spaced(WithPair(l, pair, shared, restart, end), if restart then 1 else counter + 1, interval)
  {
  }

  class BlockBuilder {
    const order: Comparator
    const interval: nat
    var buffer: Bytes
    var restarts: seq<nat>
    var counter: nat
    var finished: bool
    var lastKey: Bytes
    ghost var layout: Layout

    ghost predicate Valid()
      reads this
    {
      Built(order, buffer, restarts, counter, lastKey, layout, interval)
    }

    constructor (order: Comparator, interval: nat)
      requires interval >= 1 && IsOrder(order)
      ensures Valid() && !finished && layout.pairs == [] && this.order == order
    {
      this.order, this.interval := order, interval;
      buffer, restarts, counter, finished, lastKey := [], [0], 0, false, [];
      layout := Layout([], [], [0], [0]);
    }

    method Reset()
      requires interval >= 1 && IsOrder(order)
      modifies this
      ensures Valid() && !finished && layout.pairs == []
    {
      buffer, restarts, counter, finished, lastKey := [], [0], 0, false, [];
      layout := Layout([], [], [0], [0]);
    }

    method SharedLength(key: Bytes) returns (shared: nat)
      ensures SharedWith(lastKey, key, shared)
    {
      shared := 0;
      var minLength := if |lastKey| < |key| then |lastKey| else |key|;
      while shared < minLength && lastKey[shared] == key[shared]
        invariant shared <= minLength && key[..shared] == lastKey[..shared]
      {
        assert key[..shared + 1] == key[..shared] + [key[shared]]
            && lastKey[..shared + 1] == lastKey[..shared] + [lastKey[shared]];
        shared := shared + 1;
      }
    }

    method Add(key: Bytes, value: Bytes) returns (ghost kept: nat)
      requires Valid() && !finished && |key| + |value| < TWO_32
      requires order.admits(key) && (layout.pairs != [] ==> order.compare(key, lastKey) > 0)
      modifies this
      ensures Valid() && !finished && layout.pairs == old(layout.pairs) + [Pair(key, value)]
      ensures layout.shared == old(layout.shared) + [kept]
      ensures if old(counter) >= interval then kept == 0 else SharedWith(old(lastKey), key, kept)
    {
      var shared, restart := StartEntry(key, value);
      kept := shared;
      var entry := PutEntry(shared, key[shared..], value);
      ghost var b, rs, n, k, l := buffer, restarts, counter, lastKey, layout;
      ghost var pair := Pair(key, value);
      Store(key, shared, entry, restart, WithPair(layout, pair, shared, restart, |buffer + entry|));
      AddedBuilt(order, b, rs, n, k, l, interval, pair, shared, restart, entry, restarts, counter, layout);
    }

    /** How much of the last key the entry shares; none of it at a restart point. */
    method StartEntry(key: Bytes, value: Bytes) returns (shared: nat, restart: bool)
      requires Valid() && |key| + |value| < TWO_32
      requires order.admits(key) && (layout.pairs != [] ==> order.compare(key, lastKey) > 0)
      ensures MayFollow(order, counter, lastKey, layout, interval, Pair(key, value), shared, restart)
      ensures if counter >= interval then shared == 0 else SharedWith(lastKey, key, shared)
    {
      shared, restart := 0, counter >= interval;
      if !restart {
        shared := SharedLength(key);
      }
      KeyFollows(order, buffer, restarts, counter, lastKey, layout, interval, key);
    }

    method Store(key: Bytes, shared: nat, entry: Bytes, restart: bool, ghost more: Layout)
      requires shared <= |lastKey| && shared <= |key| && key[..shared] == lastKey[..shared]
      modifies `buffer, `restarts, `counter, `lastKey, `layout
      ensures buffer == old(buffer) + entry && layout == more && lastKey == key
      ensures restarts == if restart then old(restarts) + [|old(buffer)|] else old(restarts)
      ensures counter == if restart then 1 else old(counter) + 1
    {
      if restart {
        restarts := restarts + [|buffer|];
        counter := 0;
      }
      buffer := buffer + entry;
      layout := more;
      assert key[..shared] + key[shared..] == key;
      lastKey := lastKey[..shared] + key[shared..];
      counter := counter + 1;
    }

    method Finish() returns (contents: Bytes, ghost blockLayout: Layout)
      requires Valid() && !finished && |buffer| + 4 * |restarts| + 4 < TWO_32
      modifies `buffer, `finished
      ensures finished && blockLayout == layout && IsBlock(contents, layout, |old(buffer)|)
    {
      ghost var data := buffer;
      blockLayout := layout;
      for i := 0 to |restarts|
        invariant buffer == data + FixedArray(restarts[..i])
      {
        var word := Fixed(restarts[i], 4);
        FixedArrayNext(restarts, i, word, data);
        buffer := buffer + word;
      }
      assert restarts[..|restarts|] == restarts;
      buffer := buffer + Fixed(|restarts|, 4);
      finished := true;
      contents := buffer;
      FinishedBlock(data, layout, restarts, contents);
    }
  }

  method PutEntry(shared: nat, suffix: Bytes, value: Bytes) returns (entry: Bytes)
    requires shared < TWO_32 && |suffix| + |value| < TWO_32
    ensures entry == EncodeEntry(shared, suffix, value)
  {
    var a := EncodeVarint32(shared);
    var b := EncodeVarint32(|suffix|);
    var c := EncodeVarint32(|value|);
    entry := a + b + c + suffix + value;
    FourParts(a, b, c, suffix, value);
  }

  lemma FourParts(a: Bytes, b: Bytes, c: Bytes, d: Bytes, e: Bytes)
    ensures a + b + c + d + e == a + (b + (c + (d + e)))
  {
  }

  lemma FinishedBlock(data: Bytes, l: Layout, restarts: seq<nat>, contents: Bytes)
    requires LaidOut(data, |data|, l) && Marked(l) && RestartsAre(restarts, l)
    requires contents == data + FixedArray(restarts) + Fixed(|restarts|, 4) && |contents| < TWO_32
    ensures IsBlock(contents, l, |data|)
  {
    FinishedEntries(data, l, contents);
    FinishedRestarts(data, restarts, contents);
    OffsetsWithin(data, l);
  }

  lemma FinishedEntries(data: Bytes, l: Layout, contents: Bytes)
    requires LaidOut(data, |data|, l) && data <= contents
    ensures LaidOut(contents, |data|, l)
  {
    forall i | 0 <= i < |l.pairs| ensures EntryOf(contents, l, i) {
      assert EntryOf(data, l, i);
      assert contents[l.offsets[i]..l.offsets[i + 1]] == data[l.offsets[i]..l.offsets[i + 1]];
    }
  }

  lemma FinishedRestarts(data: Bytes, restarts: seq<nat>, contents: Bytes)
    requires contents == data + FixedArray(restarts) + Fixed(|restarts|, 4) && |contents| < TWO_32
    ensures forall j ::
        0 <= j < |restarts| && restarts[j] < TWO_32 ==>
        DecodeFixed(contents[|data| + 4 * j..|data| + 4 * j + 4]) == restarts[j]
    ensures DecodeFixed(contents[|data| + 4 * |restarts|..]) == |restarts|
  {
    forall j | 0 <= j < |restarts| && restarts[j] < TWO_32
      ensures DecodeFixed(contents[|data| + 4 * j..|data| + 4 * j + 4]) == restarts[j]
    {
      FixedArrayAt(restarts, j);
      FinishedRestart(data, FixedArray(restarts), Fixed(|restarts|, 4), contents, |restarts|, j, restarts[j]);
    }
    FinishedCount(data, FixedArray(restarts), |restarts|, contents);
  }

  lemma FinishedRestart(data: Bytes, all: Bytes, tail: Bytes, contents: Bytes, n: nat, j: nat, v: nat)
    requires |all| == 4 * n && contents == data + all + tail && j < n && DecodeFixed(all[4 * j..4 * j + 4]) == v
    ensures |data| + 4 * j + 4 <= |contents| && DecodeFixed(contents[|data| + 4 * j..|data| + 4 * j + 4]) == v
  {
    DecodeMiddle(contents, data, all, tail, 4 * j);
  }

  lemma FinishedCount(data: Bytes, all: Bytes, n: nat, contents: Bytes)
    requires contents == data + all + Fixed(n, 4) && n < TWO_32 && |all| == 4 * n
    ensures DecodeFixed(contents[|data| + 4 * n..]) == n
  {
    Powers();
    FixedRoundTrip(n, 4);
    assert contents[|data + all|..] == Fixed(n, 4);
  }

  lemma OffsetsWithin(data: Bytes, l: Layout)
    requires LaidOut(data, |data|, l)
    ensures forall i :: 0 <= i <= |l.pairs| ==> l.offsets[i] <= |data|
  {
    forall i | 0 <= i < |l.pairs| ensures l.offsets[i] <= |data| { assert EntryOf(data, l, i); }
  }

  // ----- iterating -----

  lemma EntryPositive(shared: nat, suffix: Bytes, value: Bytes)
    ensures |EncodeEntry(shared, suffix, value)| > 0
  {
  }

  lemma {:induction false} OffsetsGrow(data: Bytes, end: nat, l: Layout, i: nat, j: nat)
    requires LaidOut(data, end, l) && i <= j <= |l.pairs|
    ensures if i < j then l.offsets[i] < l.offsets[j] else l.offsets[i] == l.offsets[j]
    decreases j - i
  {
    if i < j {
      OffsetsGrow(data, end, l, i, j - 1);
      assert EntryOf(data, l, j - 1);
      EntryPositive(l.shared[j - 1], l.pairs[j - 1].key[l.shared[j - 1]..], l.pairs[j - 1].value);
    }
  }

  /** Which of two entries comes first shows in their offsets. */
  lemma OffsetsOrder(data: Bytes, end: nat, l: Layout, i: nat, j: nat)
    requires LaidOut(data, end, l) && i <= |l.pairs| && j <= |l.pairs|
    ensures l.offsets[i] < l.offsets[j] <==> i < j
    ensures l.offsets[i] <= end
  {
    if i <= j { OffsetsGrow(data, end, l, i, j); } else { OffsetsGrow(data, end, l, j, i); }
    OffsetsGrow(data, end, l, i, |l.pairs|);
  }

  lemma EntryParts(data: Bytes, end: nat, l: Layout, i: nat)
    requires LaidOut(data, end, l) && i < |l.pairs|
    ensures l.shared[i] <= |l.pairs[i].key| && l.offsets[i] <= end
    ensures Decoded(data, l.offsets[i], l.offsets[i + 1], l.shared[i], l.pairs[i].key[l.shared[i]..], l.pairs[i].value,
                    EntryFront(data, l.offsets[i], end))
  {
    assert EntryOf(data, l, i);
    OffsetsOrder(data, end, l, i, |l.pairs|);
    OffsetsOrder(data, end, l, i + 1, |l.pairs|);
    EntryFrontIs(data, l.offsets[i], end, l.offsets[i + 1], l.shared[i], l.pairs[i].key[l.shared[i]..],
        l.pairs[i].value);
  }

  lemma WholeKey(key: Bytes, shared: nat, before: Bytes)
    requires shared <= |key| && shared <= |before| && before[..shared] == key[..shared]
    ensures before[..shared] + key[shared..] == key
  {
  }

  lemma MarksOrder(l: Layout, j: nat, k: nat)
    requires Marked(l) && j <= k < |l.marks|
    ensures l.marks[j] <= l.marks[k] <= |l.pairs|
  {
  }

  /** Block::NumRestarts: the last four bytes. */
  function NumRestarts(data: Bytes): nat
    requires |data| >= 4
  {
    DecodeFixed(data[|data| - 4..])
  }

  /** Block::Block: where the restart array starts; bytes too short for the array they claim are no block. */
  function RestartOffset(data: Bytes): (r: Option<nat>)
    ensures r.Some? ==> |data| >= 4 && r.value + 4 * NumRestarts(data) + 4 == |data|
    ensures r == None ==> |data| < 4 || 4 * NumRestarts(data) + 4 > |data|
  {
    if |data| < 4 || NumRestarts(data) > (|data| - 4) / 4 then None
    else Some(|data| - (1 + NumRestarts(data)) * 4)
  }

  /** On a finished block the bytes themselves tell where its restart array is, and how long. */
  lemma BlockTail(data: Bytes, l: Layout, end: nat)
    requires IsBlock(data, l, end)
    ensures RestartOffset(data) == Some(end) && |data| >= 4 && NumRestarts(data) == |l.marks|
  {
    assert end + 4 * |l.marks| == |data| - 4;
  }

  /** The first `n` keys come before the target. */
  ghost predicate AllBefore(order: Comparator, pairs: seq<Pair>, n: nat, target: Bytes) {
    n <= |pairs| && forall k :: 0 <= k < n ==> order.compare(pairs[k].key, target) < 0
  }

  lemma OneMoreBefore(order: Comparator, pairs: seq<Pair>, n: nat, target: Bytes)
    requires AllBefore(order, pairs, n, target) && n < |pairs| && order.compare(pairs[n].key, target) < 0
    ensures AllBefore(order, pairs, n + 1, target)
  {
  }

  class BlockIter {
    const order: Comparator
    const data: Bytes
    const restarts: nat
    const numRestarts: nat
    ghost const l: Layout
    // the offset of the current entry, at or past the restart array when there is none
    var current: nat
    var restartIndex: nat
    var key: Bytes
    // where the value lies in the block
    var valueStart: nat
    var valueLength: nat
    // the place of the current entry among the pairs; their number when there is none
    ghost var at: nat

    ghost predicate Block() {
      IsBlock(data, l, restarts) && numRestarts == |l.marks| && IsOrder(order) && Ascending(order, l.pairs)
    }

    ghost predicate On(i: nat)
      reads this
    {
      && i < |l.pairs| && |l.offsets| == |l.pairs| + 1 && current == l.offsets[i] && key == l.pairs[i].key
      && valueStart + valueLength == l.offsets[i + 1] <= |data|
           && data[valueStart..valueStart + valueLength] == l.pairs[i].value
      && restartIndex < |l.marks| && l.marks[restartIndex] <= i
           && (restartIndex + 1 < |l.marks| ==> i <= l.marks[restartIndex + 1])
    }

    /** Parsing the next key leads to entry `i`. */
    ghost predicate BeforeEntry(i: nat)
      reads this
    {
      && i <= |l.pairs| == |l.shared| && |l.offsets| == |l.pairs| + 1 && valueStart + valueLength == l.offsets[i]
      && restartIndex < |l.marks| && l.marks[restartIndex] <= i
      && (i < |l.pairs| ==>
           l.shared[i] <= |l.pairs[i].key| && l.shared[i] <= |key|
           && key[..l.shared[i]] == l.pairs[i].key[..l.shared[i]])
    }

    ghost predicate Ready()
      reads this
    {
      && Block() && at <= |l.pairs|
      && if at < |l.pairs| then On(at) else current == restarts && restartIndex == numRestarts
    }

    /** NewIterator on the bytes of a block. */
    constructor (order: Comparator, data: Bytes, ghost l: Layout, ghost end: nat)
      requires IsBlock(data, l, end) && IsOrder(order) && Ascending(order, l.pairs)
      ensures Ready() && at == |l.pairs| && this.l == l && this.data == data && this.order == order
    {
      BlockTail(data, l, end);
      this.order, this.data, this.l := order, data, l;
      numRestarts := NumRestarts(data);
      restarts := RestartOffset(data).value;
      current, restartIndex, key := RestartOffset(data).value, NumRestarts(data), [];
      valueStart, valueLength := 0, 0;
      at := |l.pairs|;
    }

    method Valid() returns (valid: bool)
      requires Ready()
      ensures valid <==> at < |l.pairs|
    {
      OffsetsOrder(data, restarts, l, at, |l.pairs|);
      valid := current < restarts;
    }

    method Current() returns (pair: Pair)
      requires Ready() && at < |l.pairs|
      ensures pair == l.pairs[at]
    {
      pair := Pair(key, data[valueStart..valueStart + valueLength]);
    }

    method GetRestartPoint(index: nat) returns (offset: nat)
      requires Block() && index < numRestarts
      ensures l.marks[index] <= |l.pairs| && offset == l.offsets[l.marks[index]]
    {
      MarksOrder(l, index, |l.marks| - 1);
      offset := DecodeFixed(data[restarts + 4 * index..restarts + 4 * index + 4]);
    }

    method SeekToRestartPoint(index: nat)
      requires Block() && index < numRestarts
      modifies this
      ensures l.marks[index] <= |l.pairs| && BeforeEntry(l.marks[index]) && restartIndex == index
    {
      key := [];
      restartIndex := index;
      var offset := GetRestartPoint(index);
      valueStart, valueLength := offset, 0;
      if l.marks[index] < |l.pairs| { assert EntryOf(data, l, l.marks[index]); }
    }

    /** The step to entry `i`; false at the end. */
    method ParseNextKey(ghost i: nat) returns (more: bool)
      requires Block() && BeforeEntry(i)
      modifies this
      ensures Ready() && at == i && more == (i < |l.pairs|)
    {
      current := valueStart + valueLength;
      at := i;
      OffsetsOrder(data, restarts, l, i, |l.pairs|);
      if current >= restarts {
        current, restartIndex := restarts, numRestarts;
        return false;
      }
      TakeEntry(i);
      AdvanceRestart(i);
      return true;
    }

    /** Decodes the entry at `current`: its key takes the shared part from the key before. */
    method TakeEntry(ghost i: nat)
      requires Block() && BeforeEntry(i) && i < |l.pairs| && current == l.offsets[i]
      modifies `key, `valueStart, `valueLength
      ensures key == l.pairs[i].key
      ensures valueStart + valueLength == l.offsets[i + 1] <= |data|
      ensures data[valueStart..valueStart + valueLength] == l.pairs[i].value
    {
      EntryParts(data, restarts, l, i);
      var entry := DecodeEntry(data, current, restarts);
      var (sharedLength, nonShared, length, p) := entry.value;
      WholeKey(l.pairs[i].key, l.shared[i], key);
      key := key[..sharedLength] + data[p..p + nonShared];
      valueStart, valueLength := p + nonShared, length;
    }

    method AdvanceRestart(ghost i: nat)
      requires Block() && i < |l.pairs| && current == l.offsets[i] && restartIndex < numRestarts
      requires l.marks[restartIndex] <= i
      modifies `restartIndex
      ensures restartIndex < numRestarts && l.marks[restartIndex] <= i
      ensures restartIndex + 1 < numRestarts ==> i <= l.marks[restartIndex + 1]
    {
      while restartIndex + 1 < numRestarts
        invariant restartIndex < numRestarts && l.marks[restartIndex] <= i
        decreases numRestarts - restartIndex
      {
        var offset := GetRestartPoint(restartIndex + 1);
        OffsetsOrder(data, restarts, l, l.marks[restartIndex + 1], i);
        if offset >= current {
          return;
        }
        restartIndex := restartIndex + 1;
      }
    }

    lemma AfterEntry()
      requires Ready() && at < |l.pairs|
      ensures BeforeEntry(at + 1)
    {
      if at + 1 < |l.pairs| { assert EntryOf(data, l, at + 1); }
    }

    /** ParseNextKey from an entry. */
    method ParseFollowing() returns (more: bool)
      requires Ready() && at < |l.pairs|
      modifies this
      ensures Ready() && at == old(at) + 1 && more == (at < |l.pairs|)
    {
      AfterEntry();
      more := ParseNextKey(at + 1);
    }

    method Next()
      requires Ready() && at < |l.pairs|
      modifies this
      ensures Ready() && at == old(at) + 1
    {
      var more := ParseFollowing();
    }

    method Prev()
      requires Ready() && at < |l.pairs|
      modifies this
      ensures Ready() && at == if old(at) == 0 then |l.pairs| else old(at) - 1
    {
      var original := current;
      ghost var from := at;
      var found := RestartBefore(original, from);
      if found {
        SeekToRestartPoint(restartIndex);
        ParseUpTo(l.marks[restartIndex], from, original);
      }
    }

    /** Scans backwards to a restart point before the entry; without one the iterator is at its end. */
    method RestartBefore(original: nat, ghost from: nat) returns (found: bool)
      requires Ready() && at == from < |l.pairs| && original == current
      modifies this
      ensures found ==> from > 0 && restartIndex < numRestarts && l.marks[restartIndex] < from
      ensures !found ==> from == 0 && Ready() && at == |l.pairs|
    {
      found := true;
      while true
        invariant restartIndex < numRestarts && l.marks[restartIndex] <= from
        decreases restartIndex
      {
        var offset := GetRestartPoint(restartIndex);
        OffsetsOrder(data, restarts, l, l.marks[restartIndex], from);
        if offset < original {
          return true;
        }
        if restartIndex == 0 {
          current, restartIndex := restarts, numRestarts;
          at := |l.pairs|;
          return false;
        }
        MarksOrder(l, restartIndex - 1, restartIndex);
        restartIndex := restartIndex - 1;
      }
    }

    /**
     * Parses on until the end of the current entry reaches `limit`, the start of entry `to` or the end of the
     * entries.
     */
    method ParseUpTo(ghost first: nat, ghost to: nat, limit: nat)
      requires Block() && first <= to <= |l.pairs| && BeforeEntry(first) && limit == l.offsets[to]
      requires first < to || to == |l.pairs|
      modifies this
      ensures Ready() && at == if first < to then to - 1 else |l.pairs|
    {
      var more := ParseTowards(first, to, limit);
      while more && valueStart + valueLength < limit
        invariant Ready() && more == (first < to) && (more ==> at < to) && (!more ==> at == |l.pairs|)
        invariant more ==> (valueStart + valueLength < limit <==> at + 1 < to)
        decreases if more then to - at else 0
      {
        AfterEntry();
        more := ParseTowards(at + 1, to, limit);
      }
    }

    /** The step to entry `i`, and whether its end is still in front of entry `to`. */
    method ParseTowards(ghost i: nat, ghost to: nat, limit: nat) returns (more: bool)
      requires Block() && BeforeEntry(i) && to <= |l.pairs| && limit == l.offsets[to]
      modifies this
      ensures Ready() && at == i && more == (i < |l.pairs|)
      ensures more ==> (valueStart + valueLength < limit <==> i + 1 < to)
    {
      more := ParseNextKey(i);
      if more {
        OffsetsOrder(data, restarts, l, i + 1, to);
      }
    }

    method SeekToFirst()
      requires Block()
      modifies this
      ensures Ready() && at == 0
    {
      SeekToRestartPoint(0);
      var more := ParseNextKey(0);
    }

    method SeekToLast()
      requires Block()
      modifies this
      ensures Ready() && at == if l.pairs == [] then 0 else |l.pairs| - 1
    {
      SeekToRestartPoint(numRestarts - 1);
      ParseUpTo(l.marks[numRestarts - 1], |l.pairs|, restarts);
    }

    /** The whole key that stands at a restart point. */
    method RestartKey(index: nat) returns (k: Bytes)
      requires Block() && 0 < index < numRestarts
      ensures l.marks[index] < |l.pairs| && k == l.pairs[l.marks[index]].key
    {
      var offset := GetRestartPoint(index);
      ghost var i := l.marks[index];
      EntryParts(data, restarts, l, i);
      var entry := DecodeEntry(data, offset, restarts);
      k := data[entry.value.3..entry.value.3 + entry.value.1];
    }

    /** Binary search for the last restart point whose key is before the target. */
    method SearchRestarts(target: Bytes) returns (left: nat)
      requires Block() && order.admits(target)
      ensures left < numRestarts && AllBefore(order, l.pairs, l.marks[left], target)
    {
      left := 0;
      var right := numRestarts - 1;
      while left < right
        invariant 0 <= left <= right < numRestarts
        invariant left > 0 ==> l.marks[left] < |l.pairs| && order.compare(l.pairs[l.marks[left]].key, target) < 0
      {
        var mid := (left + right + 1) / 2;
        var midKey := RestartKey(mid);
        if order.compare(midKey, target) < 0 {
          left := mid;
        } else {
          right := mid - 1;
        }
      }
      MarksOrder(l, left, |l.marks| - 1);
      forall k | 0 <= k < l.marks[left] ensures order.compare(l.pairs[k].key, target) < 0 {
        CompareTransitive(order, l.pairs[k].key, l.pairs[l.marks[left]].key, target);
      }
    }

    /** Lands on the first key at or after the target. */
    method Seek(target: Bytes)
      requires Block() && order.admits(target)
      modifies this
      ensures Ready() && AllBefore(order, l.pairs, at, target)
      ensures at < |l.pairs| ==> order.compare(l.pairs[at].key, target) >= 0
    {
      var left := SearchRestarts(target);
      SeekToRestartPoint(left);
      var more := ParseNextKey(l.marks[left]);
      while more && order.compare(key, target) < 0
        invariant Ready() && more == (at < |l.pairs|) && AllBefore(order, l.pairs, at, target)
        decreases |l.pairs| - at
      {
        OneMoreBefore(order, l.pairs, at, target);
        more := ParseFollowing();
      }
    }
  }
}
