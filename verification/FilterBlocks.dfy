/** One filter for every two kilobytes of table, and finding the right one again (table/filter_block.cc). */
module FilterBlocks {
  import opened Keys
  import opened Coding
  import Bloom

  const BASE_LG: nat := 11
  const BASE: nat := 2048

  /** A filter policy: what CreateFilter appends for some keys, and KeyMayMatch. */
  datatype Policy = Policy(create: seq<Bytes> -> Bytes, mayMatch: (Bytes, Bytes) -> bool)

  ghost predicate Sound(p: Policy) {
    forall keys: seq<Bytes>, key: Bytes {:trigger p.mayMatch(key, p.create(keys))} ::
        key in keys ==> p.mayMatch(key, p.create(keys))
  }

  /** A key, and the offset of the data block it was added under. */
  datatype Added = Added(block: nat, key: Bytes)

  // ----- what is built -----

  /** The filter of a group of keys; no keys, no bytes. */
  function FilterOf(p: Policy, keys: seq<Bytes>): Bytes {
    if keys == [] then [] else p.create(keys)
  }

  function FiltersOf(p: Policy, groups: seq<seq<Bytes>>): Bytes {
    if groups == [] then [] else FiltersOf(p, groups[..|groups| - 1]) + FilterOf(p, groups[|groups| - 1])
  }

  /** Where each filter starts, and at the end where the last one ends. */
  ghost predicate Bounds(p: Policy, groups: seq<seq<Bytes>>, bounds: seq<nat>) {
    |bounds| == |groups| + 1 && forall i :: 0 <= i <= |groups| ==> bounds[i] == |FiltersOf(p, groups[..i])|
  }

  lemma {:induction false} FilterAt(p: Policy, groups: seq<seq<Bytes>>, i: nat)
    requires i < |groups|
    ensures |FiltersOf(p, groups[..i])| <= |FiltersOf(p, groups[..i + 1])| <= |FiltersOf(p, groups)|
    ensures FiltersOf(p, groups)[|FiltersOf(p, groups[..i])|..|FiltersOf(p, groups[..i + 1])|] == FilterOf(p, groups[i])
    decreases |groups|
  {
    var init := groups[..|groups| - 1];
    var front, back := FiltersOf(p, init), FilterOf(p, groups[|groups| - 1]);
    assert FiltersOf(p, groups) == front + back;
    if i < |init| {
      FilterAt(p, init, i);
      assert init[..i] == groups[..i] && init[..i + 1] == groups[..i + 1];
      FrontSlice(front, back, |FiltersOf(p, groups[..i])|, |FiltersOf(p, groups[..i + 1])|);
    } else {
      assert groups[..i] == init && groups[..i + 1] == groups;
      BackSlice(front, back);
    }
  }

  lemma FrontSlice(a: Bytes, b: Bytes, x: nat, y: nat)
    requires x <= y <= |a|
    ensures (a + b)[x..y] == a[x..y]
  {
  }

  lemma BackSlice(a: Bytes, b: Bytes)
    ensures (a + b)[|a|..|a + b|] == b
  {
  }

  /** Every key added is in the group of its block's window, or still waiting when that window is the current one. */
  ghost predicate Grouped(groups: seq<seq<Bytes>>, waiting: seq<Bytes>, added: set<Added>) {
    forall a :: a in added ==>
      a.block / BASE <= |groups| && a.key in (if a.block / BASE == |groups| then waiting else groups[a.block / BASE])
  }

  // ----- the flattened keys -----

  function Limit(flat: Bytes, starts: seq<nat>, i: nat): nat {
    if i + 1 < |starts| then starts[i + 1] else |flat|
  }

  /** `starts` cuts `flat` into the keys. */
  ghost predicate Flattened(flat: Bytes, starts: seq<nat>, keys: seq<Bytes>) {
    && |starts| == |keys|
    && forall i :: 0 <= i < |keys| ==>
         starts[i] <= Limit(flat, starts, i) <= |flat| && flat[starts[i]..Limit(flat, starts, i)] == keys[i]
  }

  lemma CutAt(flat: Bytes, starts: seq<nat>, keys: seq<Bytes>, i: nat)
    requires Flattened(flat, starts, keys) && i < |keys|
    ensures var limit := Limit(flat, starts, i);
      starts[i] <= limit <= |flat| && keys[..i + 1] == keys[..i] + [flat[starts[i]..limit]]
  {
    assert keys[..i + 1] == keys[..i] + [keys[i]];
  }

  lemma FlattenedMore(flat: Bytes, starts: seq<nat>, keys: seq<Bytes>, key: Bytes)
    requires Flattened(flat, starts, keys)
    ensures Flattened(flat + key, starts + [|flat|], keys + [key])
  {
    var more, flat' := starts + [|flat|], flat + key;
    forall i | 0 <= i <= |keys|
      ensures more[i] <= Limit(flat', more, i) <= |flat'| && flat'[more[i]..Limit(flat', more, i)] == (keys + [key])[i]
    {
      if i < |keys| {
        var limit := Limit(flat, starts, i);
        assert Limit(flat', more, i) == limit && starts[i] <= limit;
        assert flat'[starts[i]..limit] == flat[starts[i]..limit];
      }
    }
  }

  // ----- reading -----

  function WordOf(s: Bytes, at: nat): nat
    requires at + 4 <= |s|
  {
    DecodeFixed(s[at..at + 4])
  }

  predicate AskFilter(p: Policy, contents: Bytes, arrayOffset: nat, start: nat, limit: nat, key: Bytes)
    requires arrayOffset <= |contents|
  {
    if start <= limit && limit <= arrayOffset then p.mayMatch(key, contents[start..limit]) else start != limit
  }

  function WindowOf(blockOffset: nat, lg: nat): nat {
    blockOffset / Power(2, lg)
  }

  /** The number of offsets in a filter block of `n` bytes; the last one ends the last filter. */
  function FilterCount(n: nat, arrayOffset: nat): (num: nat)
    requires arrayOffset + 5 <= n
    ensures arrayOffset + 4 * num + 5 <= n < arrayOffset + 4 * num + 9
  {
    (n - 5 - arrayOffset) / 4
  }

  /** FilterBlockReader, constructed on `contents`, and its KeyMayMatch. */
  predicate KeyMayMatch(p: Policy, contents: Bytes, blockOffset: nat, key: Bytes) {
    var n := |contents|;
    if n < 5 then true
    else
      var arrayOffset := WordOf(contents, n - 5);
      if arrayOffset > n - 5 then true
      else
        var index := WindowOf(blockOffset, contents[n - 1]);
        index < FilterCount(n, arrayOffset) ==>
          AskFilter(p, contents, arrayOffset, WordOf(contents, arrayOffset + 4 * index),
              WordOf(contents, arrayOffset + 4 * index + 4), key)
  }

  /** What Finish returns: the filters, their bounds, and the width of a window. */
  function Packed(filters: Bytes, bounds: seq<nat>): Bytes {
    filters + FixedArray(bounds) + [BASE_LG]
  }

  lemma PackedFront(filters: Bytes, bounds: seq<nat>, x: nat, y: nat)
    requires x <= y <= |filters|
    ensures Packed(filters, bounds)[x..y] == filters[x..y]
  {
  }

  lemma WordAt(filters: Bytes, bounds: seq<nat>, i: nat, at: nat)
    requires i < |bounds| && bounds[i] < TWO_32 && at == |filters| + 4 * i
    ensures |Packed(filters, bounds)| == |filters| + 4 * |bounds| + 1
    ensures WordOf(Packed(filters, bounds), at) == bounds[i]
  {
    FixedArrayAt(bounds, i);
    DecodeMiddle(Packed(filters, bounds), filters, FixedArray(bounds), [BASE_LG], 4 * i);
  }

  lemma Window()
    ensures Power(2, BASE_LG) == BASE
  {
    assert Power(2, 3) == 8;
    assert Power(2, 7) == 2 * (2 * (2 * (2 * Power(2, 3))));
    assert Power(2, 11) == 2 * (2 * (2 * (2 * Power(2, 7))));
  }

  lemma ReadsAt(p: Policy, contents: Bytes, arrayOffset: nat, num: nat, blockOffset: nat, index: nat, start: nat,
                limit: nat, key: Bytes)
    requires |contents| == arrayOffset + 4 * num + 5 && contents[|contents| - 1] == BASE_LG
    requires WordOf(contents, arrayOffset + 4 * num) == arrayOffset
    requires index == blockOffset / BASE
    requires index < num ==>
               && WordOf(contents, arrayOffset + 4 * index) == start
               && WordOf(contents, arrayOffset + 4 * index + 4) == limit
               && start <= limit <= arrayOffset
    ensures KeyMayMatch(p, contents, blockOffset, key)
       <==> (index < num ==> p.mayMatch(key, contents[start..limit]))
  {
    Window();
    assert FilterCount(|contents|, arrayOffset) == num;
  }

  lemma ReadsPacked(p: Policy, filters: Bytes, bounds: seq<nat>, num: nat, blockOffset: nat, key: Bytes)
    requires |bounds| == num + 1 && bounds[num] == |filters| < TWO_32
    requires forall i {:trigger bounds[i]} :: 0 <= i < num ==> bounds[i] <= bounds[i + 1] <= |filters|
    ensures KeyMayMatch(p, Packed(filters, bounds), blockOffset, key)
       <==> var i := blockOffset / BASE; i < num ==> p.mayMatch(key, filters[bounds[i]..bounds[i + 1]])
  {
    var contents := Packed(filters, bounds);
    WordAt(filters, bounds, num, |filters| + 4 * num);
    var i := blockOffset / BASE;
    if i < num {
      WordAt(filters, bounds, i, |filters| + 4 * i);
      WordAt(filters, bounds, i + 1, |filters| + 4 * i + 4);
      PackedFront(filters, bounds, bounds[i], bounds[i + 1]);
      ReadsAt(p, contents, |filters|, num, blockOffset, i, bounds[i], bounds[i + 1], key);
    } else {
      ReadsAt(p, contents, |filters|, num, blockOffset, i, 0, 0, key);
    }
  }

  /** The reader asks the filter of the group that the block's keys went to. */
  lemma ReadsGroup(p: Policy, groups: seq<seq<Bytes>>, bounds: seq<nat>, blockOffset: nat, key: Bytes)
    requires Bounds(p, groups, bounds) && |FiltersOf(p, groups)| < TWO_32
    ensures KeyMayMatch(p, Packed(FiltersOf(p, groups), bounds), blockOffset, key)
       <==> (blockOffset / BASE < |groups| ==> p.mayMatch(key, FilterOf(p, groups[blockOffset / BASE])))
  {
    assert groups[..|groups|] == groups;
    forall i {:trigger bounds[i]} | 0 <= i < |groups|
      ensures bounds[i] <= bounds[i + 1] <= |FiltersOf(p, groups)|
      ensures FiltersOf(p, groups)[bounds[i]..bounds[i + 1]] == FilterOf(p, groups[i])
    {
      FilterAt(p, groups, i);
    }
    ReadsPacked(p, FiltersOf(p, groups), bounds, |groups|, blockOffset, key);
  }

  /** No key that was added under a block is denied for that block. */
  lemma NoFalseNegatives(p: Policy, groups: seq<seq<Bytes>>, bounds: seq<nat>, added: set<Added>, a: Added)
    requires Sound(p) && Bounds(p, groups, bounds) && |FiltersOf(p, groups)| < TWO_32
    requires Grouped(groups, [], added) && a in added
    ensures KeyMayMatch(p, Packed(FiltersOf(p, groups), bounds), a.block, a.key)
  {
    ReadsGroup(p, groups, bounds, a.block, a.key);
  }

  // ----- building -----

  lemma GroupedMore(groups: seq<seq<Bytes>>, waiting: seq<Bytes>, added: set<Added>)
    requires Grouped(groups, waiting, added)
    ensures Grouped(groups + [waiting], [], added)
  {
    forall a | a in added
      ensures a.block / BASE <= |groups| && a.key in (groups + [waiting])[a.block / BASE]
    {
    }
  }

  lemma FiltersMore(p: Policy, groups: seq<seq<Bytes>>, offsets: seq<nat>, keys: seq<Bytes>)
    requires Offsets(p, groups, offsets)
    ensures FiltersOf(p, groups + [keys]) == FiltersOf(p, groups) + FilterOf(p, keys)
    ensures Offsets(p, groups + [keys], offsets + [|FiltersOf(p, groups)|])
    ensures Bounds(p, groups, offsets + [|FiltersOf(p, groups)|])
  {
    var more := groups + [keys];
    assert more[..|groups|] == groups == groups[..|groups|];
    forall i | 0 <= i <= |groups|
      ensures more[..i] == groups[..i]
    {
    }
  }

  /** Where the filters built so far start. */
  ghost predicate Offsets(p: Policy, groups: seq<seq<Bytes>>, offsets: seq<nat>) {
    |offsets| == |groups| && forall i :: 0 <= i < |groups| ==> offsets[i] == |FiltersOf(p, groups[..i])|
  }

  /** The keys of the finished windows are in their filters, and the others wait. */
  ghost predicate Gathered(p: Policy, keys: Bytes, start: seq<nat>, waiting: seq<Bytes>, result: Bytes,
                           groups: seq<seq<Bytes>>, offsets: seq<nat>, added: set<Added>)
  {
    && Flattened(keys, start, waiting) && result == FiltersOf(p, groups)
    && Offsets(p, groups, offsets) && Grouped(groups, waiting, added)
  }

  lemma GatheredMore(p: Policy, keys: Bytes, start: seq<nat>, waiting: seq<Bytes>, result: Bytes,
                     groups: seq<seq<Bytes>>, offsets: seq<nat>, added: set<Added>)
    requires Gathered(p, keys, start, waiting, result, groups, offsets, added)
    ensures Gathered(p, [], [], [], result + FilterOf(p, waiting), groups + [waiting], offsets + [|result|], added)
  {
    FiltersMore(p, groups, offsets, waiting);
    GroupedMore(groups, waiting, added);
  }

  class FilterBlockBuilder {
    const policy: Policy
    var keys: Bytes
    var start: seq<nat>
    var result: Bytes
    var filterOffsets: seq<nat>
    ghost var groups: seq<seq<Bytes>>
    ghost var waiting: seq<Bytes>
    ghost var added: set<Added>
    ghost var block: nat

    ghost predicate Shape()
      reads this
    {
      Gathered(policy, keys, start, waiting, result, groups, filterOffsets, added)
    }

    /** Keys added now belong to the window of the current block. */
    ghost predicate Valid()
      reads this
    {
      Shape() && block / BASE == |groups|
    }

    constructor (p: Policy)
      ensures Valid() && policy == p && added == {} && block == 0
    {
      policy := p;
      keys, start, result, filterOffsets := [], [], [], [];
      groups, waiting, added, block := [], [], {}, 0;
    }

    method GenerateFilter()
      requires Shape()
      modifies this
      ensures Shape() && groups == old(groups) + [old(waiting)] && waiting == [] && added == old(added)
      ensures block == old(block)
    {
      GatheredMore(policy, keys, start, waiting, result, groups, filterOffsets, added);
      filterOffsets := filterOffsets + [|result|];
      AppendFilter();
      groups, waiting := groups + [waiting], [];
    }

    method AppendFilter()
      requires Flattened(keys, start, waiting)
      modifies `result, `keys, `start
      ensures result == old(result) + FilterOf(policy, waiting) && keys == [] && start == []
    {
      if start != [] {
        var tmpKeys := CutKeys();
        result := result + policy.create(tmpKeys);
      }
      keys, start := [], [];
    }

    /** The list of keys from the flattened key structure. */
    method CutKeys() returns (tmpKeys: seq<Bytes>)
      requires Flattened(keys, start, waiting)
      ensures tmpKeys == waiting
    {
      tmpKeys := [];
      for i := 0 to |start|
        invariant tmpKeys == waiting[..i]
      {
        var limit := if i + 1 < |start| then start[i + 1] else |keys|;
        CutAt(keys, start, waiting, i);
        tmpKeys := tmpKeys + [keys[start[i]..limit]];
      }
    }

    /** From here on keys belong to the data block at `blockOffset`, which may not lie in an earlier window. */
    method StartBlock(blockOffset: nat)
      requires Valid() && blockOffset / BASE >= block / BASE
      modifies this
      ensures Valid() && block == blockOffset && added == old(added)
    {
      var filterIndex := blockOffset / BASE;
      while filterIndex > |filterOffsets|
        invariant Shape() && |filterOffsets| <= filterIndex && added == old(added)
      {
        GenerateFilter();
      }
      block := blockOffset;
    }

    method AddKey(key: Bytes)
      requires Valid()
      modifies this
      ensures Valid() && block == old(block) && added == old(added) + {Added(block, key)}
    {
      FlattenedMore(keys, start, waiting, key);
      start := start + [|keys|];
      keys := keys + key;
      waiting := waiting + [key];
      added := added + {Added(block, key)};
    }

    /**
     * The finished filter block holds the filter of every window, and denies no key under the block it was
     * added for.
     */
    method Finish() returns (contents: Bytes, ghost bounds: seq<nat>)
      requires Valid() && Sound(policy)
      modifies this
      ensures contents == Packed(FiltersOf(policy, groups), bounds) && Bounds(policy, groups, bounds)
      ensures Grouped(groups, [], old(added))
      ensures groups == old(if start == [] then groups else groups + [waiting])
      ensures |result| < TWO_32 ==> forall a :: a in old(added) ==> KeyMayMatch(policy, contents, a.block, a.key)
    {
      if start != [] {
        GenerateFilter();
      }
      FiltersMore(policy, groups, filterOffsets, []);
      var arrayOffset := |result|;
      bounds := filterOffsets + [arrayOffset];
      contents := result;
      var offsets := PutOffsets(filterOffsets + [arrayOffset]);
      contents := contents + offsets;
      contents := contents + [BASE_LG];
      if arrayOffset < TWO_32 {
        forall a | a in added
          ensures KeyMayMatch(policy, contents, a.block, a.key)
        {
          NoFalseNegatives(policy, groups, bounds, added, a);
        }
      }
    }
  }

  method PutOffsets(values: seq<nat>) returns (r: Bytes)
    ensures r == FixedArray(values)
  {
    r := [];
    for i := 0 to |values|
      invariant r == FixedArray(values[..i])
    {
      assert values[..i + 1][..i] == values[..i];
      r := r + Fixed(values[i], 4);
    }
    assert values[..|values|] == values;
  }

  // ----- the Bloom filter as a policy -----

  function ToBytes(s: seq<bv8>): (r: Bytes)
    ensures |r| == |s| && forall i :: 0 <= i < |s| ==> r[i] == s[i] as int
  {
    seq(|s|, i requires 0 <= i < |s| => s[i] as int)
  }

  function ToBits(s: Bytes): (r: seq<bv8>)
    ensures |r| == |s| && forall i :: 0 <= i < |s| ==> r[i] == s[i] as bv8
  {
    seq(|s|, i requires 0 <= i < |s| => s[i] as bv8)
  }

  lemma BitsRoundTrip(s: seq<bv8>)
    ensures ToBits(ToBytes(s)) == s
  {
    forall i | 0 <= i < |s|
      ensures ToBits(ToBytes(s))[i] == s[i]
    {
      ByteRoundTrip(s[i]);
    }
  }

  lemma ByteRoundTrip(b: bv8)
    ensures b as int as bv8 == b
  {
  }

  ghost function BloomPolicy(hash: Bytes -> Bloom.Word, bitsPerKey: nat): Policy {
    Policy(keys => ToBytes(Bloom.Filter(hash, keys, bitsPerKey)),
           (key, filter) => Bloom.MayMatch(hash, key, ToBits(filter)))
  }

  /** The Bloom filter denies none of its keys, whatever the hash function and the number of bits for a key. */
  lemma BloomIsSound(hash: Bytes -> Bloom.Word, bitsPerKey: nat)
    ensures Sound(BloomPolicy(hash, bitsPerKey))
  {
    var p := BloomPolicy(hash, bitsPerKey);
    forall keys: seq<Bytes>, key: Bytes | key in keys
      ensures p.mayMatch(key, p.create(keys))
    {
      Bloom.MatchIs(hash, keys, bitsPerKey, key);
      BitsRoundTrip(Bloom.Filter(hash, keys, bitsPerKey));
    }
  }
}
