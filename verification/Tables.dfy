/**
 * Building a table with deferred index entries, and looking one key up in it (table/table_builder.cc,
 * table/table.cc).
 */
module Tables {
  import opened Keys
  import opened Separators
  import opened TwoLevel
  import opened Coding
  import FilterBlocks

  datatype TableEntry = TableEntry(key: TableKey, value: Bytes)

  /** An index key, and the handle of its block: here the block's number. */
  datatype IndexEntry = IndexEntry(key: TableKey, handle: nat)

  // ----- data blocks in order -----

  ghost predicate Ascending(blocks: seq<seq<TableEntry>>) {
    && (forall i :: 0 <= i < |blocks| ==> blocks[i] != [])
    && forall i, j, k, l {:trigger blocks[i][j], blocks[k][l]} ::
         0 <= i < |blocks| && 0 <= j < |blocks[i]| && 0 <= k < |blocks| && 0 <= l < |blocks[k]|
             && (i < k || (i == k && j < l))
         ==> Less(blocks[i][j].key, blocks[k][l].key)
  }

  function LastKey(block: seq<TableEntry>): TableKey
    requires block != []
  {
    block[|block| - 1].key
  }

  lemma NewBlock(blocks: seq<seq<TableEntry>>, e: TableEntry)
    requires Ascending(blocks)
    requires blocks != [] ==> Less(LastKey(blocks[|blocks| - 1]), e.key)
    ensures Ascending(blocks + [[e]])
  {
    var more: seq<seq<TableEntry>> := blocks + [[e]];
    forall i: int, j: int, k: int, l: int | 0 <= i < |more| && 0 <= j < |more[i]| && 0 <= k < |more|
        && 0 <= l < |more[k]| && (i < k || (i == k && j < l))
      ensures Less(more[i][j].key, more[k][l].key)
    {
      BelowLast(blocks, i, j);
    }
  }

  lemma BelowLast(blocks: seq<seq<TableEntry>>, i: int, j: int)
    requires Ascending(blocks)
    ensures 0 <= i < |blocks| && 0 <= j < |blocks[i]| ==>
              blocks[i][j].key == LastKey(blocks[|blocks| - 1]) || Less(blocks[i][j].key, LastKey(blocks[|blocks| - 1]))
  {
  }

  lemma LongerAt(blocks: seq<seq<TableEntry>>, block: seq<TableEntry>, e: TableEntry, i: int, j: int)
    requires 0 <= i <= |blocks| && 0 <= j < |(blocks + [block + [e]])[i]|
    ensures i == |blocks| && j == |block| ==> (blocks + [block + [e]])[i][j] == e
    ensures !(i == |blocks| && j == |block|) ==>
              j < |(blocks + [block])[i]| && (blocks + [block + [e]])[i][j] == (blocks + [block])[i][j]
  {
  }

  lemma LongerBlock(blocks: seq<seq<TableEntry>>, block: seq<TableEntry>, e: TableEntry)
    requires block != [] && Ascending(blocks + [block]) && Less(LastKey(block), e.key)
    ensures Ascending(blocks + [block + [e]])
  {
    var was: seq<seq<TableEntry>>, more: seq<seq<TableEntry>> := blocks + [block], blocks + [block + [e]];
    assert forall i :: 0 <= i < |more| ==> more[i] == if i < |blocks| then was[i] else block + [e];
    forall i: int, j: int, k: int, l: int | 0 <= i < |more| && 0 <= j < |more[i]| && 0 <= k < |more|
        && 0 <= l < |more[k]| && (i < k || (i == k && j < l))
      ensures Less(more[i][j].key, more[k][l].key)
    {
      BelowLast(was, i, j);
      LongerAt(blocks, block, e, i, j);
      LongerAt(blocks, block, e, k, l);
    }
  }

  // ----- index keys -----

  /** Each index key stands between the end of its block and the start of the next, and leads to its block. */
  ghost predicate Separated(blocks: seq<seq<TableEntry>>, index: seq<IndexEntry>)
    requires forall i :: 0 <= i < |blocks| ==> blocks[i] != []
  {
    && |index| <= |blocks|
    && forall i :: 0 <= i < |index| ==>
         && index[i].handle == i
         && (index[i].key == LastKey(blocks[i]) || Less(LastKey(blocks[i]), index[i].key))
         && (i + 1 < |blocks| ==> Between(LastKey(blocks[i]), index[i].key, blocks[i + 1][0].key))
  }

  ghost predicate IsTable(blocks: seq<seq<TableEntry>>, index: seq<IndexEntry>) {
    Ascending(blocks) && Separated(blocks, index) && |index| == |blocks|
  }

  function WithCurrent(blocks: seq<seq<TableEntry>>, current: seq<TableEntry>): seq<seq<TableEntry>> {
    if current == [] then blocks else blocks + [current]
  }

  /** TableBuilder::Rep, without the file. */
  datatype Rep = Rep(blocks: seq<seq<TableEntry>>, current: seq<TableEntry>, index: seq<IndexEntry>, lastKey: TableKey,
      pending: bool, handle: nat)

  /**
   * Between operations: an index entry is owed exactly when a block has been written and nothing has been
   * added since.
   */
  ghost predicate Building(r: Rep) {
    var whole := WithCurrent(r.blocks, r.current);
    && Ascending(whole) && Separated(whole, r.index)
    && (whole != [] ==> r.lastKey == LastKey(whole[|whole| - 1]))
    && (r.pending <==> r.current == [] && r.blocks != [])
    && (if r.pending then |r.index| == |r.blocks| - 1 == r.handle else |r.index| == |r.blocks|)
  }

  ghost predicate Sound(r: Rep) {
    exists s: Rep {:trigger Building(s)} :: s == r && Building(s)
  }

  lemma AfterFlush(r: Rep)
    requires r.current != [] && Sound(r)
    ensures Sound(Rep(r.blocks + [r.current], [], r.index, r.lastKey, true, |r.blocks|))
  {
    assert Building(Rep(r.blocks + [r.current], [], r.index, r.lastKey, true, |r.blocks|));
  }

  /** The index with the entry that was owed, once the next key is known. */
  ghost predicate Owed(index: seq<IndexEntry>, owed: seq<IndexEntry>, handle: nat, lastKey: TableKey, key: TableKey) {
    |owed| == |index| + 1 && owed[..|index|] == index && owed[|index|].handle == handle
        && Between(lastKey, owed[|index|].key, key)
  }

  lemma SeparatedMore(blocks: seq<seq<TableEntry>>, index: seq<IndexEntry>, owed: seq<IndexEntry>,
                      block: seq<TableEntry>, pending: bool)
    requires Ascending(blocks) && Separated(blocks, index) && block != []
    requires pending ==>
        blocks != [] && |index| == |blocks| - 1 && Owed(index, owed, |index|, LastKey(blocks[|index|]), block[0].key)
    requires !pending ==> index == owed && blocks == []
    requires pending ==> Less(LastKey(blocks[|index|]), block[0].key)
    requires Ascending(blocks + [block])
    ensures Separated(blocks + [block], owed)
  {
    var whole: seq<seq<TableEntry>> := blocks + [block];
    forall i | 0 <= i < |owed|
      ensures owed[i].handle == i
      ensures owed[i].key == LastKey(whole[i]) || Less(LastKey(whole[i]), owed[i].key)
      ensures i + 1 < |whole| ==> Between(LastKey(whole[i]), owed[i].key, whole[i + 1][0].key)
    {
      assert pending;
      if i < |index| {
        assert owed[i] == owed[..|index|][i];
      }
    }
  }

  lemma AfterFirst(r: Rep, owed: seq<IndexEntry>, e: TableEntry)
    requires Sound(r) && r.current == [] && (r.blocks != [] ==> Less(r.lastKey, e.key))
    requires if r.pending then Owed(r.index, owed, r.handle, r.lastKey, e.key) else owed == r.index
    ensures Sound(Rep(r.blocks, [e], owed, e.key, false, r.handle))
  {
    assert Building(r);
    NewBlock(r.blocks, e);
    SeparatedMore(r.blocks, r.index, owed, [e], r.pending);
    assert Building(Rep(r.blocks, [e], owed, e.key, false, r.handle));
  }

  lemma AfterMore(r: Rep, e: TableEntry)
    requires Sound(r) && r.current != [] && Less(r.lastKey, e.key)
    ensures !r.pending && Sound(Rep(r.blocks, r.current + [e], r.index, e.key, false, r.handle))
  {
    assert Building(r);
    LongerBlock(r.blocks, r.current, e);
    LongerSeparated(r.blocks, r.current, e, r.index);
    assert Building(Rep(r.blocks, r.current + [e], r.index, e.key, false, r.handle));
  }

  lemma LongerSeparated(blocks: seq<seq<TableEntry>>, block: seq<TableEntry>, e: TableEntry, index: seq<IndexEntry>)
    requires block != [] && |index| == |blocks| && Ascending(blocks + [block]) && Ascending(blocks + [block + [e]])
    requires Separated(blocks + [block], index)
    ensures Separated(blocks + [block + [e]], index)
  {
    var was: seq<seq<TableEntry>>, whole: seq<seq<TableEntry>> := blocks + [block], blocks + [block + [e]];
    assert forall i :: 0 <= i < |blocks| ==> whole[i] == was[i] == blocks[i];
    assert whole[|blocks|][0] == was[|blocks|][0];
  }

  lemma AfterStore(r: Rep, owed: seq<IndexEntry>, e: TableEntry, after: Rep)
    requires Sound(r) && (r.blocks != [] || r.current != [] ==> Less(r.lastKey, e.key))
    requires if r.pending then Owed(r.index, owed, r.handle, r.lastKey, e.key) else owed == r.index
    requires after == Rep(r.blocks, r.current + [e], owed, e.key, false, r.handle)
    ensures Sound(after)
  {
    if r.current == [] {
      AfterFirst(r, owed, e);
      assert r.current + [e] == [e];
    } else {
      AfterMore(r, e);
    }
  }

  lemma AfterLast(r: Rep, key: TableKey)
    requires Sound(r) && r.current == [] && (key == r.lastKey || Less(r.lastKey, key))
    ensures r.pending ==> IsTable(r.blocks, r.index + [IndexEntry(key, r.handle)])
    ensures !r.pending ==> IsTable(r.blocks, r.index)
  {
    assert Building(r);
  }

  /** TableBuilder. Whether a data block has reached its size is up to the caller. */
  class TableBuilder {
    var blocks: seq<seq<TableEntry>>
    var dataBlock: seq<TableEntry>
    var index: seq<IndexEntry>
    var lastKey: TableKey
    var numEntries: nat
    var pendingIndexEntry: bool
    var pendingHandle: nat
    var closed: bool

    ghost function State(): Rep
      reads this
    {
      Rep(blocks, dataBlock, index, lastKey, pendingIndexEntry, pendingHandle)
    }

    ghost function Contents(): seq<TableEntry>
      reads this
    {
      Joined(WithCurrent(blocks, dataBlock))
    }

    ghost predicate Valid()
      reads this
    {
      !closed && Sound(State()) && (numEntries == 0 <==> blocks == [] && dataBlock == [])
    }

    constructor ()
      ensures Valid() && Contents() == [] && numEntries == 0
    {
      blocks, dataBlock, index := [], [], [];
      lastKey := ForSeek([]);
      numEntries, pendingHandle := 0, 0;
      pendingIndexEntry, closed := false, false;
      new;
      assert Building(State());
    }

    method AddIndexEntry(key: TableKey)
      requires pendingIndexEntry
      modifies `lastKey, `index, `pendingIndexEntry
      ensures !pendingIndexEntry && Owed(old(index), index, pendingHandle, old(lastKey), key)
    {
      lastKey := FindShortestInternalSeparator(lastKey, key);
      index := index + [IndexEntry(lastKey, pendingHandle)];
      pendingIndexEntry := false;
    }

    method PutEntry(key: TableKey, value: Bytes)
      modifies `lastKey, `index, `pendingIndexEntry, `numEntries, `dataBlock
      ensures State() == Rep(blocks, old(dataBlock) + [TableEntry(key, value)], index, key, false, pendingHandle)
      ensures numEntries == old(numEntries) + 1
      ensures if old(pendingIndexEntry) then Owed(old(index), index, pendingHandle, old(lastKey), key)
              else index == old(index)
    {
      if pendingIndexEntry {
        AddIndexEntry(key);
      }
      lastKey := key;
      numEntries := numEntries + 1;
      dataBlock := dataBlock + [TableEntry(key, value)];
    }

    method Store(key: TableKey, value: Bytes)
      requires Valid() && (numEntries > 0 ==> Less(lastKey, key))
      modifies this
      ensures Valid() && numEntries == old(numEntries) + 1
      ensures Contents() == old(Contents()) + [TableEntry(key, value)]
    {
      ghost var was, e := State(), TableEntry(key, value);
      PutEntry(key, value);
      ghost var now := Rep(was.blocks, was.current + [e], index, key, false, was.handle);
      assert State() == now;
      AfterStore(was, index, e, now);
      JoinedStore(was.blocks, was.current, e);
    }

    method Add(key: TableKey, value: Bytes, full: bool)
      requires Valid() && (numEntries > 0 ==> Less(lastKey, key))
      modifies this
      ensures Valid() && numEntries == old(numEntries) + 1
      ensures Contents() == old(Contents()) + [TableEntry(key, value)]
    {
      Store(key, value);
      if full {
        Flush();
      }
    }

    method Flush()
      requires Valid()
      modifies `blocks, `dataBlock, `pendingIndexEntry, `pendingHandle
      ensures Valid() && Contents() == old(Contents()) && dataBlock == []
    {
      if dataBlock == [] {
        return;
      }
      AfterFlush(State());
      pendingHandle := |blocks|;
      blocks := blocks + [dataBlock];
      dataBlock := [];
      pendingIndexEntry := true;
    }

    method Finish()
      requires Valid()
      modifies this
      ensures closed && IsTable(blocks, index) && Joined(blocks) == old(Contents())
    {
      Flush();
      closed := true;
      CloseIndex();
    }

    /** The index entry of the last block: no key comes after it. */
    method CloseIndex()
      requires Sound(State()) && dataBlock == []
      modifies `lastKey, `index, `pendingIndexEntry
      ensures IsTable(blocks, index)
    {
      ghost var was := State();
      if pendingIndexEntry {
        lastKey := FindShortInternalSuccessor(lastKey);
        index := index + [IndexEntry(lastKey, pendingHandle)];
        pendingIndexEntry := false;
      }
      AfterLast(was, lastKey);
    }
  }

  lemma JoinedStore(blocks: seq<seq<TableEntry>>, current: seq<TableEntry>, e: TableEntry)
    ensures Joined(WithCurrent(blocks, current + [e])) == Joined(WithCurrent(blocks, current)) + [e]
  {
    assert (blocks + [current + [e]])[..|blocks|] == blocks;
    assert (blocks + [current])[..|blocks|] == blocks;
    assert Joined(blocks) + (current + [e]) == Joined(blocks) + current + [e];
  }

  // ----- looking up -----

  function Ranked(block: seq<TableEntry>): (r: seq<Entry>)
    ensures |r| == |block| && forall i :: 0 <= i < |block| ==> r[i] == Entry(Rank(block[i].key), block[i].value)
  {
    seq(|block|, i requires 0 <= i < |block| => Entry(Rank(block[i].key), block[i].value))
  }

  function RankedBlocks(blocks: seq<seq<TableEntry>>): (r: seq<seq<Entry>>)
    ensures |r| == |blocks| && forall i :: 0 <= i < |blocks| ==> r[i] == Ranked(blocks[i])
  {
    seq(|blocks|, i requires 0 <= i < |blocks| => Ranked(blocks[i]))
  }

  function RankedIndex(index: seq<IndexEntry>): (r: seq<InternalKey>)
    ensures |r| == |index| && forall i :: 0 <= i < |index| ==> r[i] == Rank(index[i].key)
  {
    seq(|index|, i requires 0 <= i < |index| => Rank(index[i].key))
  }

  lemma {:induction false} RankedJoined(blocks: seq<seq<TableEntry>>)
    ensures Joined(RankedBlocks(blocks)) == Ranked(Joined(blocks))
  {
    if blocks != [] {
      var n := |blocks| - 1;
      RankedJoined(blocks[..n]);
      assert RankedBlocks(blocks)[..n] == RankedBlocks(blocks[..n]);
    }
  }

  lemma RankedSorted(block: seq<TableEntry>)
    requires forall i, j {:trigger block[i], block[j]} :: 0 <= i < j < |block| ==> Less(block[i].key, block[j].key)
    ensures Sorted(Ranked(block))
  {
  }

  lemma JoinedAscending(blocks: seq<seq<TableEntry>>, a: nat, b: nat)
    requires Ascending(blocks) && a < b < |Joined(blocks)|
    ensures Less(Joined(blocks)[a].key, Joined(blocks)[b].key)
  {
    var i, j := JoinedFrom(blocks, a);
    var k, l := JoinedFrom(blocks, b);
    if k < i {
      OffsetNext(blocks, k);
      OffsetsGrow(blocks, k + 1, i);
    }
  }

  /** The index of a finished table meets what the two-level iterator asks of it. */
  lemma TableIsIndexed(blocks: seq<seq<TableEntry>>, index: seq<IndexEntry>)
    requires IsTable(blocks, index)
    ensures Indexed(RankedBlocks(blocks), RankedIndex(index))
  {
    RankedJoined(blocks);
    forall a, b | 0 <= a < b < |Joined(blocks)|
      ensures Less(Joined(blocks)[a].key, Joined(blocks)[b].key)
    {
      JoinedAscending(blocks, a, b);
    }
    RankedSorted(Joined(blocks));
    var ranked, keys := RankedBlocks(blocks), RankedIndex(index);
    forall i | 0 <= i < |blocks|
      ensures Sorted(ranked[i])
    {
      RankedSorted(blocks[i]);
    }
    forall i, j | 0 <= i < |blocks| && 0 <= j < |ranked[i]|
      ensures !Before(keys[i], ranked[i][j].key)
    {
      AtOrBeforeIndex(blocks, index, i, j);
    }
    forall i, k, j | 0 <= i < k < |blocks| && 0 <= j < |ranked[k]|
      ensures Before(keys[i], ranked[k][j].key)
    {
      IndexBeforeLater(blocks, index, i, k, j);
    }
  }

  lemma AtOrBeforeIndex(blocks: seq<seq<TableEntry>>, index: seq<IndexEntry>, i: nat, j: nat)
    requires IsTable(blocks, index) && i < |blocks| && j < |blocks[i]|
    ensures !Less(index[i].key, blocks[i][j].key)
  {
    assert blocks[i][|blocks[i]| - 1].key == LastKey(blocks[i]);
  }

  lemma IndexBeforeLater(blocks: seq<seq<TableEntry>>, index: seq<IndexEntry>, i: nat, k: nat, j: nat)
    requires IsTable(blocks, index) && i < k < |blocks| && j < |blocks[k]|
    ensures Less(index[i].key, blocks[k][j].key)
  {
    assert Between(LastKey(blocks[i]), index[i].key, blocks[i + 1][0].key);
    assert blocks[i][|blocks[i]| - 1].key == LastKey(blocks[i]);
    assert Less(LastKey(blocks[i]), blocks[k][j].key);
    assert blocks[i + 1][0].key == blocks[k][j].key || Less(blocks[i + 1][0].key, blocks[k][j].key);
  }

  predicate Visible(e: TableEntry, user: Bytes, snapshot: Sequence) {
    e.key.user == user && e.key.seqno <= snapshot
  }

  /** The internal key a reader at `snapshot` looks up. */
  function Target(user: Bytes, snapshot: Sequence): TableKey {
    TableKey(user, snapshot, Value)
  }

  lemma VisibleAtTarget(k: TableKey, user: Bytes, snapshot: Sequence)
    requires k.user == user
    ensures k.seqno <= snapshot <==> !Less(k, Target(user, snapshot))
  {
    LookupSplitsVersions(Rank(k), snapshot);
  }

  lemma SameUserBetween(a: TableKey, b: TableKey, c: TableKey)
    requires !Less(b, a) && !Less(c, b) && a.user == c.user
    ensures b.user == a.user
  {
    PositionIsFaithful(a.user, b.user);
    PositionIsFaithful(b.user, a.user);
  }

  /**
   * An entry after the chosen block cannot be the first one that matters: the chosen block has an entry at or
   * after the target.
   */
  lemma ChosenBlockSuffices(blocks: seq<seq<TableEntry>>, index: seq<IndexEntry>, i: nat, b: nat, j: nat, user: Bytes,
                            snapshot: Sequence)
    requires IsTable(blocks, index) && i < b < |blocks| && j < |blocks[b]|
    requires !Less(index[i].key, Target(user, snapshot))
    requires blocks[b][j].key.user == user
    ensures !Less(LastKey(blocks[i]), Target(user, snapshot))
  {
    var next := blocks[i + 1][0].key;
    assert Between(LastKey(blocks[i]), index[i].key, next);
    assert next == blocks[b][j].key || Less(next, blocks[b][j].key);
  }

  /** If the table has a visible entry for the user key, seeking in the chosen block reaches one that is no older. */
  lemma VisibleIsFound(blocks: seq<seq<TableEntry>>, index: seq<IndexEntry>, b: nat, j: nat, user: Bytes,
                       snapshot: Sequence)
    returns (i: nat, at: nat)
    requires IsTable(blocks, index) && b < |blocks| && j < |blocks[b]| && Visible(blocks[b][j], user, snapshot)
    ensures i == SeekBlock(RankedIndex(index), Rank(Target(user, snapshot))) < |blocks|
    ensures Sorted(Ranked(blocks[i])) && at == SeekIndex(Ranked(blocks[i]), Rank(Target(user, snapshot))) < |blocks[i]|
    ensures Visible(blocks[i][at], user, snapshot) && !Less(blocks[b][j].key, blocks[i][at].key)
  {
    var target := Target(user, snapshot);
    i := ChosenBlock(blocks, index, b, j, user, snapshot);
    RankedSorted(blocks[i]);
    var k := j;
    if i < b {
      ChosenBlockSuffices(blocks, index, i, b, j, user, snapshot);
      k := |blocks[i]| - 1;
    }
    VisibleAtTarget(blocks[b][j].key, user, snapshot);
    at := FoundInBlock(blocks[i], target, k);
    NoLater(blocks, i, at, b, j);
    SameUserBetween(target, blocks[i][at].key, blocks[b][j].key);
    VisibleAtTarget(blocks[i][at].key, user, snapshot);
  }

  lemma ChosenBlock(blocks: seq<seq<TableEntry>>, index: seq<IndexEntry>, b: nat, j: nat, user: Bytes,
                    snapshot: Sequence)
    returns (i: nat)
    requires IsTable(blocks, index) && b < |blocks| && j < |blocks[b]| && Visible(blocks[b][j], user, snapshot)
    ensures i == SeekBlock(RankedIndex(index), Rank(Target(user, snapshot))) <= b
    ensures !Less(index[i].key, Target(user, snapshot))
  {
    var target := Target(user, snapshot);
    i := SeekBlock(RankedIndex(index), Rank(target));
    VisibleAtTarget(blocks[b][j].key, user, snapshot);
    AtOrBeforeIndex(blocks, index, b, j);
    assert b < i ==> Before(RankedIndex(index)[b], Rank(target));
    assert !Before(RankedIndex(index)[i], Rank(target));
  }

  lemma FoundInBlock(block: seq<TableEntry>, target: TableKey, k: nat) returns (at: nat)
    requires k < |block| && !Less(block[k].key, target) && Sorted(Ranked(block))
    ensures at == SeekIndex(Ranked(block), Rank(target)) <= k && !Less(block[at].key, target)
  {
    at := SeekIndex(Ranked(block), Rank(target));
    assert !Before(Ranked(block)[k].key, Rank(target));
    assert !Before(Ranked(block)[at].key, Rank(target));
  }

  lemma NoLater(blocks: seq<seq<TableEntry>>, i: nat, at: nat, b: nat, j: nat)
    requires Ascending(blocks) && i <= b < |blocks| && at < |blocks[i]| && j < |blocks[b]| && (i == b ==> at <= j)
    ensures !Less(blocks[b][j].key, blocks[i][at].key)
  {
    if i < b || at < j { assert Less(blocks[i][at].key, blocks[b][j].key); }
  }

  /** What a linear scan of the table would find newest at or below the snapshot. */
  ghost predicate NewestVisible(all: seq<TableEntry>, e: TableEntry, user: Bytes, snapshot: Sequence) {
    e in all && Visible(e, user, snapshot) && forall o :: o in all && Visible(o, user, snapshot) ==> !Less(o.key, e.key)
  }

  /** A filter that never denies a user key of its block. */
  ghost predicate NoFalseNegatives(blocks: seq<seq<TableEntry>>, mayMatch: (nat, Bytes) -> bool) {
    forall i, j :: 0 <= i < |blocks| && 0 <= j < |blocks[i]| ==> mayMatch(i, blocks[i][j].key.user)
  }

  /**
   * Table::InternalGet, with the caller's comparison of user keys: one block is searched, and the answer is
   * that of the whole table.
   */
  method InternalGet(blocks: seq<seq<TableEntry>>, index: seq<IndexEntry>, filter: Option<(nat, Bytes) -> bool>,
                     user: Bytes, snapshot: Sequence)
    returns (r: Option<TableEntry>)
    requires IsTable(blocks, index) && (filter.Some? ==> NoFalseNegatives(blocks, filter.value))
    ensures r.Some? && r.value.key.user == user ==> NewestVisible(Joined(blocks), r.value, user, snapshot)
    ensures !(r.Some? && r.value.key.user == user) ==> forall e :: e in Joined(blocks) ==> !Visible(e, user, snapshot)
  {
    var k := Target(user, snapshot);
    var i := SeekBlock(RankedIndex(index), Rank(k));
    r := None;
    if i < |index| {
      var handle := index[i].handle;
      if filter.Some? && !filter.value(handle, user) {
        // not found
      } else {
        RankedSorted(blocks[handle]);
        var at := SeekIndex(Ranked(blocks[handle]), Rank(k));
        if at < |blocks[handle]| {
          r := Some(blocks[handle][at]);
          JoinedAt(blocks, handle, at);
          assert !Before(Ranked(blocks[handle])[at].key, Rank(k));
          if r.value.key.user == user { VisibleAtTarget(r.value.key, user, snapshot); }
        }
      }
    }
    forall e | e in Joined(blocks) && Visible(e, user, snapshot)
      ensures r.Some? && r.value.key.user == user && !Less(e.key, r.value.key)
    {
      var n :| 0 <= n < |Joined(blocks)| && Joined(blocks)[n] == e;
      var b, j := JoinedFrom(blocks, n);
      var i', at' := VisibleIsFound(blocks, index, b, j, user, snapshot);
    }
  }

  // ----- the filter block as the filter -----

  /** What the filter block says of a data block's keys: it is asked by the offset of the block. */
  function BlockFilter(p: FilterBlocks.Policy, contents: Bytes, offsets: seq<nat>): (nat, Bytes) -> bool {
    (b: nat, key: Bytes) => b < |offsets| ==> FilterBlocks.KeyMayMatch(p, contents, offsets[b], key)
  }

  /** Every user key of the table was added to the filter under the offset of its block. */
  ghost predicate AllAdded(blocks: seq<seq<TableEntry>>, offsets: seq<nat>, added: set<FilterBlocks.Added>) {
    |offsets| == |blocks| && forall i, j :: 0 <= i < |blocks| && 0 <= j < |blocks[i]| ==>
      FilterBlocks.Added(offsets[i], blocks[i][j].key.user) in added
  }

  /** A finished filter block of a sound policy denies no user key of its table. */
  lemma FilterBlockServes(blocks: seq<seq<TableEntry>>, p: FilterBlocks.Policy, offsets: seq<nat>,
                          groups: seq<seq<Bytes>>, bounds: seq<nat>, added: set<FilterBlocks.Added>)
    requires FilterBlocks.Sound(p) && FilterBlocks.Bounds(p, groups, bounds)
    requires |FilterBlocks.FiltersOf(p, groups)| < TWO_32
    requires FilterBlocks.Grouped(groups, [], added) && AllAdded(blocks, offsets, added)
    ensures NoFalseNegatives(blocks,
        BlockFilter(p, FilterBlocks.Packed(FilterBlocks.FiltersOf(p, groups), bounds), offsets))
  {
    forall i, j | 0 <= i < |blocks| && 0 <= j < |blocks[i]|
      ensures BlockFilter(p, FilterBlocks.Packed(FilterBlocks.FiltersOf(p, groups), bounds), offsets)
                (i, blocks[i][j].key.user)
    {
      FilterBlocks.NoFalseNegatives(p, groups, bounds, added, FilterBlocks.Added(offsets[i], blocks[i][j].key.user));
    }
  }

  /**
   * InternalGet with the filter block that FilterBlockBuilder made for the table: still the answer of the
   * whole table.
   */
  method FilteredGet(blocks: seq<seq<TableEntry>>, index: seq<IndexEntry>, p: FilterBlocks.Policy, contents: Bytes,
                     offsets: seq<nat>, ghost groups: seq<seq<Bytes>>, ghost bounds: seq<nat>,
                     ghost added: set<FilterBlocks.Added>, user: Bytes, snapshot: Sequence)
    returns (r: Option<TableEntry>)
    requires IsTable(blocks, index) && AllAdded(blocks, offsets, added) && FilterBlocks.Grouped(groups, [], added)
    requires FilterBlocks.Sound(p) && FilterBlocks.Bounds(p, groups, bounds)
    requires |FilterBlocks.FiltersOf(p, groups)| < TWO_32
    requires contents == FilterBlocks.Packed(FilterBlocks.FiltersOf(p, groups), bounds)
    ensures r.Some? && r.value.key.user == user ==> NewestVisible(Joined(blocks), r.value, user, snapshot)
    ensures !(r.Some? && r.value.key.user == user) ==> forall e :: e in Joined(blocks) ==> !Visible(e, user, snapshot)
  {
    FilterBlockServes(blocks, p, offsets, groups, bounds, added);
    r := InternalGet(blocks, index, Some(BlockFilter(p, contents, offsets)), user, snapshot);
  }
}
