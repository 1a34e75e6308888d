/**
 * The data blocks of the database: internal keys as bytes, built and searched under their own comparator
 * (db/dbformat.cc, db/db_impl.cc, table/table.cc).
 */
module DataBlocks {
  import opened Keys
  import opened Coding
  import opened Separators
  import opened Comparators
  import Blocks
  import Tables

  /** The comparator of every table of the database whose user keys are ordered by their bytes. */
  function TableOrder(): Comparator {
    InternalKeys(Bytewise())
  }

  lemma TableOrderIsOrder()
    ensures IsOrder(TableOrder())
  {
    BytewiseIsOrder();
    InternalIsOrder(Bytewise());
  }

  ghost predicate InOrder(block: seq<Tables.TableEntry>) {
    forall i, j :: 0 <= i < j < |block| ==> Less(block[i].key, block[j].key)
  }

  function Encoded(block: seq<Tables.TableEntry>): (r: seq<Blocks.Pair>)
    ensures |r| == |block|
    ensures forall i :: 0 <= i < |block| ==> r[i] == Blocks.Pair(EncodeKey(block[i].key), block[i].value)
  {
    seq(|block|, i requires 0 <= i < |block| => Blocks.Pair(EncodeKey(block[i].key), block[i].value))
  }

  /** The bytes of a block are in the comparator's order exactly if its entries are in the engine's. */
  lemma EncodedAscends(block: seq<Tables.TableEntry>)
    ensures Blocks.Ascending(TableOrder(), Encoded(block)) <==> InOrder(block)
  {
    var pairs := Encoded(block);
    forall i | 0 <= i < |block|
      ensures TableOrder().admits(pairs[i].key)
    {
      EncodedOrder(block[i].key, block[i].key);
    }
    forall i, j | 0 <= i < j < |block|
      ensures TableOrder().compare(pairs[i].key, pairs[j].key) < 0 <==> Less(block[i].key, block[j].key)
    {
      EncodedOrder(block[i].key, block[j].key);
    }
    if Blocks.Ascending(TableOrder(), pairs) {
      forall i, j | 0 <= i < j < |block|
        ensures Less(block[i].key, block[j].key)
      {
        assert TableOrder().compare(pairs[i].key, pairs[j].key) < 0;
      }
    }
  }

  /** BlockBuilder::Add as TableBuilder::Add calls it: one entry more, whose internal key comes after the last. */
  method AddEntry(builder: Blocks.BlockBuilder, e: Tables.TableEntry, ghost block: seq<Tables.TableEntry>)
    requires builder.Valid() && !builder.finished && builder.order == TableOrder()
    requires builder.layout.pairs == Encoded(block) && InOrder(block + [e])
    requires |e.key.user| + 8 + |e.value| < TWO_32
    modifies builder
    ensures builder.Valid() && !builder.finished && builder.layout.pairs == Encoded(block + [e])
  {
    var key := EncodeKey(e.key);
    EncodedOrder(e.key, e.key);
    if block != [] {
      LastFollowed(block, e);
    }
    var kept := builder.Add(key, e.value);
    assert Encoded(block + [e]) == Encoded(block) + [Blocks.Pair(key, e.value)];
  }

  lemma LastFollowed(block: seq<Tables.TableEntry>, e: Tables.TableEntry)
    requires block != [] && InOrder(block + [e])
    ensures TableOrder().compare(EncodeKey(e.key), Encoded(block)[|block| - 1].key) > 0
  {
    var last := block[|block| - 1];
    assert (block + [e])[|block| - 1] == last && (block + [e])[|block|] == e;
    EncodedOrder(last.key, e.key);
    TableOrderIsOrder();
    assert OrderedAt(TableOrder(), EncodeKey(last.key), EncodeKey(e.key), EncodeKey(e.key)) by {
      EncodedOrder(e.key, e.key);
    }
  }

  lemma SeekMatches(block: seq<Tables.TableEntry>, at: nat, target: TableKey)
    requires InOrder(block) && Blocks.AllBefore(TableOrder(), Encoded(block), at, EncodeKey(target))
    requires at < |block| ==> TableOrder().compare(Encoded(block)[at].key, EncodeKey(target)) >= 0
    ensures Sorted(Tables.Ranked(block)) && at == SeekIndex(Tables.Ranked(block), Rank(target))
  {
    var s := Tables.Ranked(block);
    assert Sorted(s);
    forall i | 0 <= i < at
      ensures Before(s[i].key, Rank(target))
    {
      assert TableOrder().compare(Encoded(block)[i].key, EncodeKey(target)) < 0;
      EncodedOrder(block[i].key, target);
    }
    if at < |block| {
      EncodedOrder(block[at].key, target);
      assert !Before(s[at].key, Rank(target));
    }
    ThePlace(s, at, Rank(target));
  }

  lemma ThePlace(s: seq<Entry>, at: nat, target: InternalKey)
    requires Sorted(s) && at <= |s| && forall i :: 0 <= i < at ==> Before(s[i].key, target)
    requires at < |s| ==> !Before(s[at].key, target)
    ensures at == SeekIndex(s, target)
  {
    var r := SeekIndex(s, target);
    assert r < |s| ==> !Before(s[r].key, target);
  }

  /**
   * Block::Iter::Seek on the bytes of a data block, and what the entry says: the place is that of the engine's
   * own search, and the entry is the one that was added there.
   */
  method SeekInBlock(data: Bytes, target: TableKey, ghost l: Blocks.Layout, ghost end: nat,
                     ghost block: seq<Tables.TableEntry>)
    returns (r: Option<Tables.TableEntry>)
    requires Blocks.IsBlock(data, l, end) && l.pairs == Encoded(block) && InOrder(block)
    ensures Sorted(Tables.Ranked(block))
    ensures var at := SeekIndex(Tables.Ranked(block), Rank(target));
      r == if at < |block| then Some(block[at]) else None
  {
    TableOrderIsOrder();
    EncodedAscends(block);
    EncodedOrder(target, target);
    var iter := new Blocks.BlockIter(TableOrder(), data, l, end);
    iter.Seek(EncodeKey(target));
    SeekMatches(block, iter.at, target);
    var valid := iter.Valid();
    if !valid {
      return None;
    }
    var pair := iter.Current();
    KeyRoundTrip(block[iter.at].key);
    r := Some(Tables.TableEntry(DecodeKey(pair.key).value, pair.value));
  }
}
