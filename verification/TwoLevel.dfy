/** A cursor on the concatenation of blocks, found through an index (table/two_level_iterator.cc). */
module TwoLevel {
  import opened Keys

  function Joined<T>(blocks: seq<seq<T>>): seq<T> {
    if blocks == [] then [] else Joined(blocks[..|blocks| - 1]) + blocks[|blocks| - 1]
  }

  /** Where block `i` starts in the concatenation. */
  function Offset<T>(blocks: seq<seq<T>>, i: nat): nat
    requires i <= |blocks|
  {
    |Joined(blocks[..i])|
  }

  lemma OffsetNext<T>(blocks: seq<seq<T>>, i: nat)
    requires i < |blocks|
    ensures Offset(blocks, i + 1) == Offset(blocks, i) + |blocks[i]|
  {
    assert blocks[..i + 1][..i] == blocks[..i];
  }

  lemma {:induction false} JoinedAt<T>(blocks: seq<seq<T>>, i: nat, j: nat)
    requires i < |blocks| && j < |blocks[i]|
    ensures Offset(blocks, i) + j < |Joined(blocks)| && Joined(blocks)[Offset(blocks, i) + j] == blocks[i][j]
  {
    var init := blocks[..|blocks| - 1];
    if i < |blocks| - 1 {
      JoinedAt(init, i, j);
      assert init[..i] == blocks[..i];
    }
  }

  lemma {:induction false} JoinedFrom<T>(blocks: seq<seq<T>>, k: nat) returns (i: nat, j: nat)
    requires k < |Joined(blocks)|
    ensures i < |blocks| && j < |blocks[i]| && k == Offset(blocks, i) + j && Joined(blocks)[k] == blocks[i][j]
  {
    var init := blocks[..|blocks| - 1];
    if k < |Joined(init)| {
      i, j := JoinedFrom(init, k);
      assert init[..i] == blocks[..i];
    } else {
      i, j := |blocks| - 1, k - |Joined(init)|;
    }
  }

  lemma AllBlocks<T>(blocks: seq<seq<T>>)
    ensures Offset(blocks, |blocks|) == |Joined(blocks)|
  {
    assert blocks[..|blocks|] == blocks;
  }

  /** The index key of a block lies at or after its own keys, and before all keys of later blocks. */
  ghost predicate Indexed(blocks: seq<seq<Entry>>, separators: seq<InternalKey>) {
    && |separators| == |blocks| && Sorted(Joined(blocks))
    && (forall i :: 0 <= i < |blocks| ==> Sorted(blocks[i]))
    && (forall i, j :: 0 <= i < |blocks| && 0 <= j < |blocks[i]| ==> !Before(separators[i], blocks[i][j].key))
    && (forall i, k, j {:trigger separators[i], blocks[k][j]} ::
         0 <= i < k < |blocks| && 0 <= j < |blocks[k]| ==> Before(separators[i], blocks[k][j].key))
  }

  /** The first block whose index key is at or after the target. */
  function SeekBlock(separators: seq<InternalKey>, target: InternalKey): (r: nat)
    ensures r <= |separators|
    ensures forall i :: 0 <= i < r ==> Before(separators[i], target)
    ensures r < |separators| ==> !Before(separators[r], target)
  {
    if separators == [] || !Before(separators[0], target) then 0 else 1 + SeekBlock(separators[1..], target)
  }

  /** Seeking in the chosen block, or going on to the next one, is seeking in the concatenation. */
  lemma SeekSpot(blocks: seq<seq<Entry>>, separators: seq<InternalKey>, target: InternalKey)
    requires Indexed(blocks, separators)
    ensures var i := SeekBlock(separators, target);
      SeekIndex(Joined(blocks), target)
      == if i == |blocks| then |Joined(blocks)| else Offset(blocks, i) + SeekIndex(blocks[i], target)
  {
    var all, i := Joined(blocks), SeekBlock(separators, target);
    AllBlocks(blocks);
    var spot := if i == |blocks| then |all| else Offset(blocks, i) + SeekIndex(blocks[i], target);
    if i < |blocks| {
      OffsetNext(blocks, i);
      OffsetsGrow(blocks, i + 1, |blocks|);
    }
    forall k | 0 <= k < |all| ensures k < spot <==> Before(all[k].key, target) {
      SpotSplits(blocks, separators, target, k);
    }
    SeekIndexIs(all, target, spot);
  }

  lemma SeekIndexIs(s: seq<Entry>, target: InternalKey, spot: nat)
    requires Sorted(s) && spot <= |s| && forall k :: 0 <= k < |s| ==> (k < spot <==> Before(s[k].key, target))
    ensures SeekIndex(s, target) == spot
  {
    var r := SeekIndex(s, target);
    assert r < |s| ==> (r < spot <==> Before(s[r].key, target));
    assert spot < |s| ==> !Before(s[spot].key, target);
  }

  lemma {:induction false} OffsetsGrow<T>(blocks: seq<seq<T>>, i: nat, k: nat)
    requires i <= k <= |blocks|
    ensures Offset(blocks, i) <= Offset(blocks, k)
  {
    if i < k {
      OffsetsGrow(blocks, i, k - 1);
      OffsetNext(blocks, k - 1);
    }
  }

  lemma SpotSplits(blocks: seq<seq<Entry>>, separators: seq<InternalKey>, target: InternalKey, k: nat)
    requires Indexed(blocks, separators) && k < |Joined(blocks)|
    ensures var i := SeekBlock(separators, target);
      var spot := if i == |blocks| then |Joined(blocks)| else Offset(blocks, i) + SeekIndex(blocks[i], target);
      k < spot <==> Before(Joined(blocks)[k].key, target)
  {
    var i := SeekBlock(separators, target);
    var b, j := JoinedFrom(blocks, k);
    if b < i {
      if i < |blocks| {
        OffsetNext(blocks, b);
        OffsetsGrow(blocks, b + 1, i);
      }
      assert !Before(separators[b], blocks[b][j].key) && Before(separators[b], target);
    } else if i < b {
      OffsetNext(blocks, i);
      OffsetsGrow(blocks, i + 1, b);
      assert Before(separators[i], blocks[b][j].key) && !Before(separators[i], target);
    }
  }

  // ----- the iterator -----

  /** data_iter_: none, or an iterator over one block; a position at the block's length is "not valid". */
  datatype DataIter = NoIter | At(block: nat, pos: nat)

  class TwoLevelIterator {
    const blocks: seq<seq<Entry>>
    const separators: seq<InternalKey>
    // the index iterator: the number of blocks when it is not valid
    var index: nat
    var data: DataIter

    ghost predicate Shape()
      reads this
    {
      && Indexed(blocks, separators) && index <= |blocks|
      && (data.At? ==> data.block == index < |blocks| && data.pos <= |blocks[index]|)
    }

    predicate Valid()
      reads this
    {
      data.At? && data.block < |blocks| && data.pos < |blocks[data.block]|
    }

    /** Between operations: a valid position, or nothing at all. */
    ghost predicate Ready()
      reads this
    {
      Shape() && (!Valid() ==> data.NoIter?)
    }

    ghost function Place(): nat
      requires Shape()
      reads this
    {
      if Valid() then Offset(blocks, index) + data.pos else |Joined(blocks)|
    }

    constructor (blocks: seq<seq<Entry>>, separators: seq<InternalKey>)
      requires Indexed(blocks, separators)
      ensures Ready() && !Valid() && this.blocks == blocks && this.separators == separators
    {
      this.blocks := blocks;
      this.separators := separators;
      index := |blocks|;
      data := NoIter;
    }

    method Current() returns (e: Entry)
      requires Ready() && Valid()
      ensures Place() < |Joined(blocks)| && e == Joined(blocks)[Place()]
    {
      JoinedAt(blocks, index, data.pos);
      e := blocks[data.block][data.pos];
    }

    method InitDataBlock()
      requires index <= |blocks|
      modifies this`data
      ensures if index == |blocks| then data == NoIter
              else data.At? && data.block == index && (data == old(data) || data.pos == |blocks[index]|)
    {
      if index == |blocks| {
        data := NoIter;
      } else if data.At? && data.block == index {
        // the iterator over this block is there already
      } else {
        data := At(index, |blocks[index]|);
      }
    }

    method SkipEmptyDataBlocksForward(ghost spot: nat)
      requires Shape()
      requires if data.At? then spot == Offset(blocks, index) + data.pos
               else index == |blocks| && spot == |Joined(blocks)|
      modifies this
      ensures Ready() && Place() == spot
    {
      AllBlocks(blocks);
      while data.NoIter? || !Valid()
        invariant Shape()
        invariant if data.At? then spot == Offset(blocks, index) + data.pos
                  else index == |blocks| && spot == |Joined(blocks)|
        decreases |blocks| - index, data.At?
      {
        if index == |blocks| {
          data := NoIter;
          return;
        }
        OffsetNext(blocks, index);
        index := index + 1;
        InitDataBlock();
        if data.At? {
          data := At(data.block, 0);
        }
      }
    }

    /** `end` is the place just after the entry sought. */
    method SkipEmptyDataBlocksBackward(ghost end: nat)
      requires Shape()
      requires if Valid() then end == Offset(blocks, index) + data.pos + 1
               else if data.At? then end == Offset(blocks, index) else index == |blocks| && end == 0
      modifies this
      ensures Ready() && Place() == if end == 0 then |Joined(blocks)| else end - 1
    {
      while data.NoIter? || !Valid()
        invariant Shape()
        invariant if Valid() then end == Offset(blocks, index) + data.pos + 1
                  else if data.At? then end == Offset(blocks, index) else index == |blocks| && end == 0
        decreases if index == |blocks| then 0 else index + 1
      {
        if index == |blocks| {
          data := NoIter;
          return;
        }
        if index > 0 { OffsetNext(blocks, index - 1); }
        index := if index == 0 then |blocks| else index - 1;
        InitDataBlock();
        if data.At? {
          data := At(data.block, if blocks[index] == [] then 0 else |blocks[index]| - 1);
        }
      }
    }

    method SeekToFirst()
      requires Shape()
      modifies this
      ensures Ready() && Place() == 0
    {
      index := 0;
      InitDataBlock();
      if data.At? {
        data := At(data.block, 0);
      }
      SkipEmptyDataBlocksForward(0);
    }

    method SeekToLast()
      requires Shape()
      modifies this
      ensures Ready() && Place() == if Joined(blocks) == [] then 0 else |Joined(blocks)| - 1
    {
      AllBlocks(blocks);
      if |blocks| > 0 { OffsetNext(blocks, |blocks| - 1); }
      index := if blocks == [] then 0 else |blocks| - 1;
      InitDataBlock();
      if data.At? {
        data := At(data.block, if blocks[index] == [] then 0 else |blocks[index]| - 1);
      }
      SkipEmptyDataBlocksBackward(|Joined(blocks)|);
    }

    method Seek(target: InternalKey)
      requires Shape()
      modifies this
      ensures Ready() && Place() == SeekIndex(Joined(blocks), target)
    {
      SeekSpot(blocks, separators, target);
      index := SeekBlock(separators, target);
      InitDataBlock();
      if data.At? {
        data := At(data.block, SeekIndex(blocks[index], target));
      }
      SkipEmptyDataBlocksForward(SeekIndex(Joined(blocks), target));
    }

    method Next()
      requires Ready() && Valid()
      modifies this
      ensures Ready() && Place() == old(Place()) + 1
    {
      ghost var spot := Place() + 1;
      data := At(data.block, data.pos + 1);
      SkipEmptyDataBlocksForward(spot);
    }

    method Prev()
      requires Ready() && Valid()
      modifies this
      ensures Ready() && Place() == if old(Place()) == 0 then |Joined(blocks)| else old(Place()) - 1
    {
      ghost var end := Place();
      data := At(data.block, if data.pos == 0 then |blocks[data.block]| else data.pos - 1);
      SkipEmptyDataBlocksBackward(end);
    }
  }
}
