/** The chained hash table of the cache (util/cache.cc, HandleTable). */
module HandleTables {
  import opened Rings

  datatype Pointer = Nil | To(addr: Addr)

  /** The key of an entry, and its hash, as they stand in the entry. */
  datatype Name = Name(key: seq<int>, hash: nat)

  predicate PowerOfTwo(n: nat) {
    n == 1 || (n > 1 && n % 2 == 0 && PowerOfTwo(n / 2))
  }

  lemma FourIsPower()
    ensures PowerOfTwo(4)
  {
    assert PowerOfTwo(2);
  }

  /** The first power of two from four up that has room for that many entries. */
  method DoubledLength(elems: nat) returns (newLength: nat)
    ensures PowerOfTwo(newLength) && 4 <= newLength && elems <= newLength
    ensures newLength > 4 ==> newLength / 2 < elems
  {
    newLength := 4;
    FourIsPower();
    while newLength < elems
      invariant 4 <= newLength && PowerOfTwo(newLength)
      invariant newLength > 4 ==> newLength / 2 < elems
      decreases elems - newLength
    {
      newLength := newLength * 2;
    }
  }

  function At(chain: seq<Addr>, i: nat): Pointer {
    if i < |chain| then To(chain[i]) else Nil
  }

  /** Starting at `p` and following next_hash goes through `chain` and ends. */
  ghost predicate Chained(p: Pointer, chain: seq<Addr>, nextHash: map<Addr, Pointer>) {
    p == At(chain, 0) && forall i :: 0 <= i < |chain| ==> chain[i] in nextHash && nextHash[chain[i]] == At(chain, i + 1)
  }

  /** Every chain holds entries of its own bucket, none twice and no two of one name. */
  ghost predicate TableInv(list: seq<Pointer>, chains: seq<seq<Addr>>, nextHash: map<Addr, Pointer>,
                           names: map<Addr, Name>)
  {
    && |list| == |chains| > 0
    && (forall b :: 0 <= b < |list| ==> Chained(list[b], chains[b], nextHash) && NoDuplicates(chains[b]))
    && Hashed(chains, names)
  }

  /** Every member is in the bucket of its hash, and no bucket has a name twice. */
  ghost predicate Hashed(chains: seq<seq<Addr>>, names: map<Addr, Name>) {
    && (forall b, a {:trigger a in chains[b]} ::
         0 <= b < |chains| && a in chains[b] ==> a in names && names[a].hash % |chains| == b)
    && (forall b, a, c {:trigger a in chains[b], c in chains[b]} ::
         0 <= b < |chains| && a in chains[b] && c in chains[b] && names[a] == names[c] ==> a == c)
  }

  ghost function MembersOf(chains: seq<seq<Addr>>): set<Addr> {
    set chain, a | chain in chains && a in chain :: a
  }

  lemma MemberChain(list: seq<Pointer>, chains: seq<seq<Addr>>, nextHash: map<Addr, Pointer>, names: map<Addr, Name>,
                    a: Addr)
    requires TableInv(list, chains, nextHash, names)
    ensures a in MembersOf(chains) <==> a in names && a in chains[names[a].hash % |list|]
  {
    if a in MembersOf(chains) {
      var chain :| chain in chains && a in chain;
      var b :| 0 <= b < |chains| && chains[b] == chain;
    }
  }

  /** Changing one chain changes the members by what that chain gained and lost. */
  lemma MembersUpdate(list: seq<Pointer>, chains: seq<seq<Addr>>, nextHash: map<Addr, Pointer>, names: map<Addr, Name>,
                      b: nat, chain: seq<Addr>)
    requires TableInv(list, chains, nextHash, names) && b < |chains|
    ensures forall a ::
        a in MembersOf(chains[b := chain]) <==> (a in MembersOf(chains) && a !in chains[b]) || a in chain
  {
    var after := chains[b := chain];
    forall a ensures a in MembersOf(after) <==> (a in MembersOf(chains) && a !in chains[b]) || a in chain {
      if a in MembersOf(after) {
        var c :| c in after && a in c;
        var i :| 0 <= i < |after| && after[i] == c;
        if i != b { assert chains[i] in chains && a in chains[i]; }
      }
      if a in MembersOf(chains) && a !in chains[b] {
        var c :| c in chains && a in c;
        var i :| 0 <= i < |chains| && chains[i] == c;
        assert after[i] == c && after[i] in after;
      }
      if a in chain { assert after[b] in after; }
    }
  }

  /** A chain is unaffected by links of entries outside it. */
  lemma ChainStays(p: Pointer, chain: seq<Addr>, nextHash: map<Addr, Pointer>, after: map<Addr, Pointer>)
    requires Chained(p, chain, nextHash)
    requires forall a :: a in chain && a in nextHash ==> a in after && after[a] == nextHash[a]
    ensures Chained(p, chain, after)
  {
  }

  /** Some member of the table carries the name. */
  ghost predicate Named(names: map<Addr, Name>, a: Addr, name: Name) {
    a in names && names[a] == name
  }

  /** The place of the entry of that name in a chain, or the end. */
  ghost predicate PlaceFor(chain: seq<Addr>, names: map<Addr, Name>, name: Name, i: nat) {
    && i <= |chain| && (forall j :: 0 <= j < i ==> !Named(names, chain[j], name))
    && (i < |chain| ==> Named(names, chain[i], name))
  }

  lemma NotFound(list: seq<Pointer>, chains: seq<seq<Addr>>, nextHash: map<Addr, Pointer>, names: map<Addr, Name>,
                 name: Name, b: nat)
    requires TableInv(list, chains, nextHash, names) && b == name.hash % |list|
    requires PlaceFor(chains[b], names, name, |chains[b]|)
    ensures forall a :: a in MembersOf(chains) ==> !Named(names, a, name)
  {
    forall a | a in MembersOf(chains) ensures !Named(names, a, name) { MemberChain(list, chains, nextHash, names, a); }
  }

  // ----- storing into a slot -----

  function StoreList(list: seq<Pointer>, b: nat, before: Pointer, p: Pointer): seq<Pointer>
    requires b < |list|
  {
    if before == Nil then list[b := p] else list
  }

  function StoreNext(nextHash: map<Addr, Pointer>, before: Pointer, p: Pointer): map<Addr, Pointer> {
    if before == Nil then nextHash else nextHash[before.addr := p]
  }

  /** `chain` is `was` up to place `i`, where a slot is about to be stored to, and links on from there. */
  ghost predicate SlotFor(was: seq<Addr>, chain: seq<Addr>, i: nat, before: Pointer, p: Pointer,
                          nextHash: map<Addr, Pointer>)
  {
    LinksOn(was, chain, i, before, p, nextHash) && NoDuplicates(chain)
  }

  ghost predicate LinksOn(was: seq<Addr>, chain: seq<Addr>, i: nat, before: Pointer, p: Pointer,
                          nextHash: map<Addr, Pointer>)
  {
    && i <= |was| && i <= |chain| && (forall k :: 0 <= k < i ==> chain[k] == was[k])
    && before == (if i == 0 then Nil else To(was[i - 1])) && p == At(chain, i)
    && (forall k :: i <= k < |chain| ==> chain[k] in nextHash && nextHash[chain[k]] == At(chain, k + 1))
  }

  lemma OtherSlots(chain: seq<Addr>, i: nat, k: nat)
    requires NoDuplicates(chain) && 0 < i <= |chain| && k < |chain|
    ensures k != i - 1 ==> chain[k] != chain[i - 1]
  {
  }

  /** The store changes the link of the entry before the slot, and no other. */
  lemma StoredLink(nextHash: map<Addr, Pointer>, a: Addr, n: Pointer, before: Pointer, p: Pointer)
    requires if before == To(a) then p == n else a in nextHash && nextHash[a] == n
    ensures a in StoreNext(nextHash, before, p) && StoreNext(nextHash, before, p)[a] == n
  {
  }

  lemma StoredChain(nextHash: map<Addr, Pointer>, was: seq<Addr>, chain: seq<Addr>, i: nat, before: Pointer, p: Pointer,
                    k: nat)
    requires LinksOn(was, chain, i, before, p, nextHash) && k < |chain|
    requires i > 0 && k != i - 1 ==> chain[k] != chain[i - 1]
    requires k < i && k < |was| ==> was[k] in nextHash && nextHash[was[k]] == At(was, k + 1)
    ensures chain[k] in StoreNext(nextHash, before, p) && StoreNext(nextHash, before, p)[chain[k]] == At(chain, k + 1)
  {
    if k + 1 < i {
      assert was[k] == chain[k] && was[k + 1] == chain[k + 1];
    }
    if i > 0 {
      assert before == To(chain[i - 1]);
    }
    StoredLink(nextHash, chain[k], At(chain, k + 1), before, p);
  }

  ghost predicate FitsBucket(chain: seq<Addr>, names: map<Addr, Name>, length: nat, b: nat)
    requires length > 0
  {
    && (forall a :: a in chain ==> a in names && names[a].hash % length == b)
    && (forall a, c {:trigger a in chain, c in chain} :: a in chain && c in chain && names[a] == names[c] ==> a == c)
  }

  /** After the store the bucket's chain is `chain`, and the others are as before. */
  lemma StoredTable(list: seq<Pointer>, chains: seq<seq<Addr>>, nextHash: map<Addr, Pointer>, names: map<Addr, Name>,
                    b: nat, chain: seq<Addr>, i: nat, before: Pointer, p: Pointer)
    requires TableInv(list, chains, nextHash, names) && b < |list|
    requires SlotFor(chains[b], chain, i, before, p, nextHash) && FitsBucket(chain, names, |list|, b)
    ensures TableInv(StoreList(list, b, before, p), chains[b := chain], StoreNext(nextHash, before, p), names)
  {
    StoredHashed(chains, names, b, chain);
    StoredBucket(list, chains[b], nextHash, b, chain, i, before, p);
    forall k | 0 <= k < |list| && k != b
      ensures Chained(StoreList(list, b, before, p)[k], chains[k], StoreNext(nextHash, before, p))
    {
      if i > 0 { assert chains[b][i - 1] in chains[b]; }
      ChainStays(list[k], chains[k], nextHash, StoreNext(nextHash, before, p));
    }
  }

  lemma StoredHashed(chains: seq<seq<Addr>>, names: map<Addr, Name>, b: nat, chain: seq<Addr>)
    requires Hashed(chains, names) && b < |chains| && FitsBucket(chain, names, |chains|, b)
    ensures Hashed(chains[b := chain], names)
  {
  }

  lemma StoredBucket(list: seq<Pointer>, was: seq<Addr>, nextHash: map<Addr, Pointer>, b: nat, chain: seq<Addr>, i: nat,
                     before: Pointer, p: Pointer)
    requires b < |list| && Chained(list[b], was, nextHash) && SlotFor(was, chain, i, before, p, nextHash)
    ensures Chained(StoreList(list, b, before, p)[b], chain, StoreNext(nextHash, before, p))
  {
    forall k | 0 <= k < |chain|
      ensures chain[k] in StoreNext(nextHash, before, p) && StoreNext(nextHash, before, p)[chain[k]] == At(chain, k + 1)
    {
      if i > 0 { OtherSlots(chain, i, k); }
      StoredChain(nextHash, was, chain, i, before, p, k);
    }
    assert i > 0 ==> list[b] == At(was, 0) == At(chain, 0);
  }

  // ----- inserting and removing -----

  /** An entry outside the table may get any name and link. */
  lemma EntryAdded(list: seq<Pointer>, chains: seq<seq<Addr>>, nextHash: map<Addr, Pointer>, names: map<Addr, Name>,
                   h: Addr, name: Name, q: Pointer)
    requires TableInv(list, chains, nextHash, names) && h !in MembersOf(chains)
    ensures TableInv(list, chains, nextHash[h := q], names[h := name])
  {
    forall b | 0 <= b < |chains| ensures h !in chains[b] { assert chains[b] in chains; }
    forall b | 0 <= b < |list| ensures Chained(list[b], chains[b], nextHash[h := q]) {
      ChainStays(list[b], chains[b], nextHash, nextHash[h := q]);
    }
  }

  function Inserted(was: seq<Addr>, i: nat, h: Addr): seq<Addr>
    requires i <= |was|
  {
    if i == |was| then was + [h] else was[i := h]
  }

  lemma InsertedSlot(was: seq<Addr>, nextHash: map<Addr, Pointer>, p: Pointer, h: Addr, i: nat)
    requires Chained(p, was, nextHash) && NoDuplicates(was) && h !in was && i <= |was|
    ensures i < |was| ==> was[i] in nextHash
    ensures var after := nextHash[h := if i == |was| then Nil else nextHash[was[i]]];
      SlotFor(was, Inserted(was, i, h), i, if i == 0 then Nil else To(was[i - 1]), To(h), after)
  {
    var q := if i == |was| then Nil else nextHash[was[i]];
    var chain, after := Inserted(was, i, h), nextHash[h := q];
    forall k | i <= k < |chain| ensures chain[k] in after && after[chain[k]] == At(chain, k + 1) {
      if k > i { InsertedLink(was, nextHash, h, i, k, q); }
    }
    InsertedOnce(was, i, h);
  }

  lemma InsertedLink(was: seq<Addr>, nextHash: map<Addr, Pointer>, h: Addr, i: nat, k: nat, q: Pointer)
    requires h !in was && i < k < |was| && was[k] in nextHash && nextHash[was[k]] == At(was, k + 1)
    ensures var chain, after := Inserted(was, i, h), nextHash[h := q];
      chain[k] in after && after[chain[k]] == At(chain, k + 1)
  {
    assert was[k] in was;
  }

  lemma InsertedOnce(was: seq<Addr>, i: nat, h: Addr)
    requires NoDuplicates(was) && h !in was && i <= |was|
    ensures NoDuplicates(Inserted(was, i, h))
  {
    assert forall k :: 0 <= k < |was| ==> was[k] in was;
  }

  lemma InsertedFrom(was: seq<Addr>, i: nat, h: Addr, a: Addr)
    requires NoDuplicates(was) && i <= |was|
    ensures a in Inserted(was, i, h) <==> a == h || (a in was && (i < |was| ==> a != was[i]))
  {
    var chain := Inserted(was, i, h);
    if a in was && (i < |was| ==> a != was[i]) {
      var k :| 0 <= k < |was| && was[k] == a;
      assert chain[k] == a;
    }
    assert chain[i] == h;
    if a in chain && a != h {
      var k :| 0 <= k < |chain| && chain[k] == a;
      assert was[k] == a;
    }
  }

  lemma InsertedFits(was: seq<Addr>, names: map<Addr, Name>, length: nat, h: Addr, name: Name, i: nat)
    requires length > 0 && FitsBucket(was, names, length, name.hash % length) && NoDuplicates(was) && h !in was
    requires i <= |was|
    requires forall a :: a in was && (i < |was| ==> a != was[i]) ==> !Named(names, a, name)
    ensures FitsBucket(Inserted(was, i, h), names[h := name], length, name.hash % length)
  {
    forall a | a in Inserted(was, i, h)
      ensures a == h || (a in was && (i < |was| ==> a != was[i]))
    {
      InsertedFrom(was, i, h, a);
    }
  }

  lemma OthersNamedOtherwise(was: seq<Addr>, names: map<Addr, Name>, length: nat, b: nat, name: Name, i: nat)
    requires length > 0 && FitsBucket(was, names, length, b) && i <= |was|
    requires forall j :: 0 <= j < i ==> !Named(names, was[j], name)
    requires i < |was| ==> Named(names, was[i], name)
    ensures forall a :: a in was && (i < |was| ==> a != was[i]) ==> !Named(names, a, name)
  {
    if i < |was| { assert was[i] in was; }
  }

  lemma InsertedMembers(chains: seq<seq<Addr>>, after: seq<seq<Addr>>, was: seq<Addr>, chain: seq<Addr>, i: nat,
                        h: Addr)
    requires forall a :: a in MembersOf(after) <==> (a in MembersOf(chains) && a !in was) || a in chain
    requires was in chains && i <= |was| && NoDuplicates(was) && chain == Inserted(was, i, h)
    requires h !in MembersOf(chains)
    ensures MembersOf(after) == (if i == |was| then MembersOf(chains) else MembersOf(chains) - {was[i]}) + {h}
    ensures |MembersOf(after)| == |MembersOf(chains)| + if i == |was| then 1 else 0
  {
    forall a ensures a in chain <==> a == h || (a in was && (i < |was| ==> a != was[i])) { InsertedFrom(was, i, h, a); }
    if i < |was| { assert was[i] in was && was[i] in MembersOf(chains); }
    assert forall a :: a in was ==> a in MembersOf(chains);
  }

  /** `h` in that place of its bucket's chain, linked on to `q`. */
  lemma LinkedIn(list: seq<Pointer>, chains: seq<seq<Addr>>, nextHash: map<Addr, Pointer>, names: map<Addr, Name>,
                 h: Addr, name: Name, b: nat, i: nat, before: Pointer, chain: seq<Addr>, q: Pointer)
    requires TableInv(list, chains, nextHash, names) && h !in MembersOf(chains) && b == name.hash % |list|
    requires PlaceFor(chains[b], names, name, i) && chain == Inserted(chains[b], i, h)
    requires before == if i == 0 then Nil else To(chains[b][i - 1])
    requires if i == |chains[b]| then q == Nil else chains[b][i] in nextHash && q == nextHash[chains[b][i]]
    ensures TableInv(StoreList(list, b, before, To(h)), chains[b := chain], StoreNext(nextHash[h := q], before, To(h)),
                     names[h := name])
    ensures MembersOf(chains[b := chain])
         == (if i == |chains[b]| then MembersOf(chains) else MembersOf(chains) - {chains[b][i]}) + {h}
    ensures |MembersOf(chains[b := chain])| == |MembersOf(chains)| + if i == |chains[b]| then 1 else 0
  {
    var was := chains[b];
    BucketFacts(list, chains, nextHash, names, b);
    InsertedSlot(was, nextHash, list[b], h, i);
    EntryAdded(list, chains, nextHash, names, h, name, q);
    OthersNamedOtherwise(was, names, |list|, b, name, i);
    InsertedFits(was, names, |list|, h, name, i);
    StoredTable(list, chains, nextHash[h := q], names[h := name], b, chain, i, before, To(h));
    MembersUpdate(list, chains, nextHash, names, b, chain);
    InsertedMembers(chains, chains[b := chain], was, chain, i, h);
  }

  lemma RemovedSlot(was: seq<Addr>, nextHash: map<Addr, Pointer>, p: Pointer, i: nat)
    requires Chained(p, was, nextHash) && NoDuplicates(was) && i < |was|
    ensures was[i] in nextHash
    ensures SlotFor(was, was[..i] + was[i + 1..], i, if i == 0 then Nil else To(was[i - 1]), nextHash[was[i]], nextHash)
  {
    var chain := was[..i] + was[i + 1..];
    RemovedAt(was, i);
    assert NoDuplicates(chain);
    forall k | i <= k < |chain|
      ensures chain[k] in nextHash && nextHash[chain[k]] == At(chain, k + 1)
    {
      assert chain[k] == was[k + 1];
    }
  }

  lemma RemovedAt(was: seq<Addr>, i: nat)
    requires i < |was|
    ensures var chain := was[..i] + was[i + 1..];
      forall k :: 0 <= k < |chain| ==> chain[k] == was[if k < i then k else k + 1]
  {
  }

  lemma RemovedFits(was: seq<Addr>, names: map<Addr, Name>, length: nat, b: nat, i: nat)
    requires length > 0 && FitsBucket(was, names, length, b) && i < |was|
    ensures FitsBucket(was[..i] + was[i + 1..], names, length, b)
  {
    var chain := was[..i] + was[i + 1..];
    forall a | a in chain ensures a in was {}
    FewerFit(was, chain, names, length, b);
  }

  lemma FewerFit(was: seq<Addr>, chain: seq<Addr>, names: map<Addr, Name>, length: nat, b: nat)
    requires length > 0 && FitsBucket(was, names, length, b) && forall a :: a in chain ==> a in was
    ensures FitsBucket(chain, names, length, b)
  {
    forall a | a in chain ensures a in names && names[a].hash % length == b { assert a in was; }
  }

  lemma BucketFacts(list: seq<Pointer>, chains: seq<seq<Addr>>, nextHash: map<Addr, Pointer>, names: map<Addr, Name>,
                    b: nat)
    requires TableInv(list, chains, nextHash, names) && b < |list|
    ensures Chained(list[b], chains[b], nextHash) && NoDuplicates(chains[b]) && FitsBucket(chains[b], names, |list|, b)
    ensures forall h :: h !in MembersOf(chains) ==> h !in chains[b]
    ensures chains[b] in chains
  {
  }

  lemma RemovedMembers(chains: seq<seq<Addr>>, after: seq<seq<Addr>>, was: seq<Addr>, chain: seq<Addr>, i: nat)
    requires forall a :: a in MembersOf(after) <==> (a in MembersOf(chains) && a !in was) || a in chain
    requires was in chains && i < |was| && NoDuplicates(was) && chain == was[..i] + was[i + 1..]
    ensures was[i] in MembersOf(chains) && MembersOf(after) == MembersOf(chains) - {was[i]}
    ensures |MembersOf(after)| == |MembersOf(chains)| - 1
  {
    forall a ensures a in chain <==> a in was && a != was[i] { RemovedFrom(was, i, a); }
    assert forall a :: a in was ==> a in MembersOf(chains);
    assert was[i] in was;
  }

  lemma RemovedFrom(was: seq<Addr>, i: nat, a: Addr)
    requires i < |was| && NoDuplicates(was)
    ensures a in was[..i] + was[i + 1..] <==> a in was && a != was[i]
  {
    var chain := was[..i] + was[i + 1..];
    RemovedAt(was, i);
    if a in was && a != was[i] {
      var k :| 0 <= k < |was| && was[k] == a;
      assert chain[if k < i then k else k - 1] == a;
    }
    if a in chain {
      var k :| 0 <= k < |chain| && chain[k] == a;
      assert was[if k < i then k else k + 1] == a;
    }
  }

  /** The entry in place `i` of a chain, out of it. */
  lemma LinkedOut(list: seq<Pointer>, chains: seq<seq<Addr>>, nextHash: map<Addr, Pointer>, names: map<Addr, Name>,
                  b: nat, i: nat, before: Pointer, chain: seq<Addr>)
    requires TableInv(list, chains, nextHash, names) && b < |list| && i < |chains[b]|
    requires before == (if i == 0 then Nil else To(chains[b][i - 1])) && chain == chains[b][..i] + chains[b][i + 1..]
    ensures chains[b][i] in nextHash
    ensures var q := nextHash[chains[b][i]];
      TableInv(StoreList(list, b, before, q), chains[b := chain], StoreNext(nextHash, before, q), names)
    ensures chains[b][i] in MembersOf(chains) && MembersOf(chains[b := chain]) == MembersOf(chains) - {chains[b][i]}
    ensures |MembersOf(chains[b := chain])| == |MembersOf(chains)| - 1
  {
    var was := chains[b];
    BucketFacts(list, chains, nextHash, names, b);
    RemovedSlot(was, nextHash, list[b], i);
    RemovedFits(was, names, |list|, b, i);
    StoredTable(list, chains, nextHash, names, b, chain, i, before, nextHash[was[i]]);
    MembersUpdate(list, chains, nextHash, names, b, chain);
    RemovedMembers(chains, chains[b := chain], was, chain, i);
  }

  // ----- rehashing -----

  /** An entry is moved once its chain is done, or the walk along its chain is past it. */
  ghost predicate Done(chains: seq<seq<Addr>>, i: nat, j: nat, a: Addr) {
    (exists b :: 0 <= b < i && b < |chains| && a in chains[b])
        || (i < |chains| && j <= |chains[i]| && a in chains[i][..j])
  }

  /** The new table holds the entries moved so far; the others are linked as in the old one. */
  ghost predicate Moved(chains: seq<seq<Addr>>, nextHash: map<Addr, Pointer>, names: map<Addr, Name>,
                        now: map<Addr, Pointer>, newList: seq<Pointer>, newChains: seq<seq<Addr>>, i: nat, j: nat) {
    && i <= |chains| && (i < |chains| ==> j <= |chains[i]|)
    && TableInv(newList, newChains, now, names)
    && (forall a :: a in MembersOf(newChains) <==> Done(chains, i, j, a))
    && OldLinks(chains, nextHash, now, i, j)
  }

  ghost predicate OldLinks(chains: seq<seq<Addr>>, nextHash: map<Addr, Pointer>, now: map<Addr, Pointer>, i: nat,
                           j: nat)
  {
    forall a :: a in MembersOf(chains) && !Done(chains, i, j, a) ==> a in now && a in nextHash && now[a] == nextHash[a]
  }

  lemma NothingMoved(newList: seq<Pointer>, newChains: seq<seq<Addr>>, nextHash: map<Addr, Pointer>,
                     names: map<Addr, Name>, chains: seq<seq<Addr>>)
    requires |newList| == |newChains| > 0
    requires forall b :: 0 <= b < |newList| ==> newList[b] == Nil && newChains[b] == []
    ensures TableInv(newList, newChains, nextHash, names) && MembersOf(newChains) == {}
    ensures forall a :: !Done(chains, 0, 0, a)
  {
  }

  lemma LinkedMember(list: seq<Pointer>, chains: seq<seq<Addr>>, nextHash: map<Addr, Pointer>, names: map<Addr, Name>,
                     b: nat, k: nat)
    requires TableInv(list, chains, nextHash, names) && b < |chains| && k < |chains[b]|
    ensures chains[b][k] in nextHash && nextHash[chains[b][k]] == At(chains[b], k + 1)
    ensures chains[b][k] in MembersOf(chains)
    ensures chains[b][k] in names && names[chains[b][k]].hash % |list| == b
  {
    assert Chained(list[b], chains[b], nextHash);
    assert chains[b] in chains && chains[b][k] in chains[b];
  }

  lemma UniqueNames(list: seq<Pointer>, chains: seq<seq<Addr>>, nextHash: map<Addr, Pointer>, names: map<Addr, Name>,
                    a: Addr, c: Addr)
    requires TableInv(list, chains, nextHash, names) && a in MembersOf(chains) && c in MembersOf(chains)
    ensures a in names && c in names && (names[a] == names[c] ==> a == c)
  {
    MemberChain(list, chains, nextHash, names, a);
    MemberChain(list, chains, nextHash, names, c);
  }

  lemma DoneIsMember(list: seq<Pointer>, chains: seq<seq<Addr>>, i: nat, j: nat, a: Addr)
    requires Done(chains, i, j, a)
    ensures a in MembersOf(chains)
  {
    if b: nat :| b < i && b < |chains| && a in chains[b] {
      assert chains[b] in chains;
    } else {
      assert chains[i] in chains && a in chains[i];
    }
  }

  /** The next entry of the walk has not been moved; moving it is the one thing that step does. */
  lemma NextDone(list: seq<Pointer>, chains: seq<seq<Addr>>, nextHash: map<Addr, Pointer>, names: map<Addr, Name>,
                 i: nat, j: nat)
    requires TableInv(list, chains, nextHash, names) && i < |chains| && j < |chains[i]|
    ensures !Done(chains, i, j, chains[i][j])
    ensures forall a :: Done(chains, i, j + 1, a) <==> Done(chains, i, j, a) || a == chains[i][j]
  {
    var h := chains[i][j];
    BucketFacts(list, chains, nextHash, names, i);
    LinkedMember(list, chains, nextHash, names, i, j);
    forall b | 0 <= b < i ensures h !in chains[b] {}
    NotBefore(chains[i], j);
    forall a ensures Done(chains, i, j + 1, a) <==> Done(chains, i, j, a) || a == h { DoneNext(chains, i, j, a); }
  }

  lemma NotBefore(chain: seq<Addr>, j: nat)
    requires NoDuplicates(chain) && j < |chain|
    ensures chain[j] !in chain[..j]
  {
  }

  lemma DoneNext(chains: seq<seq<Addr>>, i: nat, j: nat, a: Addr)
    requires i < |chains| && j < |chains[i]|
    ensures Done(chains, i, j + 1, a) <==> Done(chains, i, j, a) || a == chains[i][j]
  {
    assert chains[i][..j + 1] == chains[i][..j] + [chains[i][j]];
  }

  /** Pushing an entry to the front of its new bucket. */
  lemma PushFront(list: seq<Pointer>, chains: seq<seq<Addr>>, nextHash: map<Addr, Pointer>, names: map<Addr, Name>,
                  h: Addr)
    requires TableInv(list, chains, nextHash, names) && h in names && h !in MembersOf(chains)
    requires forall a :: a in MembersOf(chains) ==> !Named(names, a, names[h])
    ensures var b := names[h].hash % |list|;
      && TableInv(list[b := To(h)], chains[b := [h] + chains[b]], nextHash[h := list[b]], names)
      && forall a :: a in MembersOf(chains[b := [h] + chains[b]]) <==> a in MembersOf(chains) || a == h
  {
    var b := names[h].hash % |list|;
    var was, after := chains[b], nextHash[h := list[b]];
    forall k | 0 <= k < |chains| ensures h !in chains[k] && Chained(list[k], chains[k], after) {
      assert chains[k] in chains;
      ChainStays(list[k], chains[k], nextHash, after);
    }
    assert forall a :: a in [h] + was <==> a == h || a in was;
    forall a | a in was ensures !Named(names, a, names[h]) { assert was in chains && a in MembersOf(chains); }
    MembersUpdate(list, chains, nextHash, names, b, [h] + was);
    FrontChained(was, list[b], after, h);
  }

  lemma FrontChained(was: seq<Addr>, p: Pointer, nextHash: map<Addr, Pointer>, h: Addr)
    requires Chained(p, was, nextHash) && NoDuplicates(was) && h !in was && h in nextHash && nextHash[h] == p
    ensures Chained(To(h), [h] + was, nextHash) && NoDuplicates([h] + was)
  {
    assert forall k :: 0 <= k < |was| ==> was[k] in was;
    forall k | 0 <= k < |[h] + was|
      ensures ([h] + was)[k] in nextHash && nextHash[([h] + was)[k]] == At([h] + was, k + 1)
    {
      if k > 0 { assert ([h] + was)[k] == was[k - 1]; }
    }
  }

  /** The entry about to move has a name no moved entry has. */
  lemma NextIsNew(list: seq<Pointer>, chains: seq<seq<Addr>>, nextHash: map<Addr, Pointer>, names: map<Addr, Name>,
                  newChains: seq<seq<Addr>>, i: nat, j: nat)
    requires TableInv(list, chains, nextHash, names) && i < |chains| && j < |chains[i]|
    requires forall a :: a in MembersOf(newChains) <==> Done(chains, i, j, a)
    ensures var h := chains[i][j];
        h in names && h !in MembersOf(newChains) && forall a :: a in MembersOf(newChains) ==> !Named(names, a, names[h])
  {
    var h := chains[i][j];
    LinkedMember(list, chains, nextHash, names, i, j);
    NextDone(list, chains, nextHash, names, i, j);
    forall a | a in MembersOf(newChains) ensures !Named(names, a, names[h]) {
      DoneIsMember(list, chains, i, j, a);
      UniqueNames(list, chains, nextHash, names, a, h);
    }
  }

  lemma OldLinksStay(chains: seq<seq<Addr>>, nextHash: map<Addr, Pointer>, now: map<Addr, Pointer>, i: nat, j: nat,
                     h: Addr, q: Pointer)
    requires OldLinks(chains, nextHash, now, i, j)
    requires forall a :: Done(chains, i, j + 1, a) <==> Done(chains, i, j, a) || a == h
    ensures OldLinks(chains, nextHash, now[h := q], i, j + 1)
  {
  }

  lemma MoveKeeps(list: seq<Pointer>, chains: seq<seq<Addr>>, nextHash: map<Addr, Pointer>, names: map<Addr, Name>,
                  now: map<Addr, Pointer>, newList: seq<Pointer>, newChains: seq<seq<Addr>>, i: nat, j: nat)
    requires TableInv(list, chains, nextHash, names) && Moved(chains, nextHash, names, now, newList, newChains, i, j)
    requires i < |chains| && j < |chains[i]|
    ensures var h := chains[i][j];
      && h in names && h in now && now[h] == At(chains[i], j + 1)
      && (var b := names[h].hash % |newList|;
          Moved(chains, nextHash, names, now[h := newList[b]], newList[b := To(h)], newChains[b := [h] + newChains[b]],
              i, j + 1))
  {
    LinkedMember(list, chains, nextHash, names, i, j);
    NextDone(list, chains, nextHash, names, i, j);
    NextIsNew(list, chains, nextHash, names, newChains, i, j);
    Pushed(chains, nextHash, names, now, newList, newChains, i, j, chains[i][j]);
  }

  lemma Pushed(chains: seq<seq<Addr>>, nextHash: map<Addr, Pointer>, names: map<Addr, Name>,
               now: map<Addr, Pointer>, newList: seq<Pointer>, newChains: seq<seq<Addr>>, i: nat, j: nat, h: Addr)
    requires i < |chains| && j < |chains[i]| && OldLinks(chains, nextHash, now, i, j)
    requires TableInv(newList, newChains, now, names)
    requires forall a :: a in MembersOf(newChains) <==> Done(chains, i, j, a)
    requires forall a :: Done(chains, i, j + 1, a) <==> Done(chains, i, j, a) || a == h
    requires h in names && h !in MembersOf(newChains)
    requires forall a :: a in MembersOf(newChains) ==> !Named(names, a, names[h])
    ensures var b := names[h].hash % |newList|;
      Moved(chains, nextHash, names, now[h := newList[b]], newList[b := To(h)], newChains[b := [h] + newChains[b]], i,
          j + 1)
  {
    var b := names[h].hash % |newList|;
    PushFront(newList, newChains, now, names, h);
    OldLinksStay(chains, nextHash, now, i, j, h, newList[b]);
    var after := newChains[b := [h] + newChains[b]];
    forall a ensures a in MembersOf(after) <==> Done(chains, i, j + 1, a) {
      assert a in MembersOf(newChains) <==> Done(chains, i, j, a);
    }
  }

  lemma NextChain(chains: seq<seq<Addr>>, nextHash: map<Addr, Pointer>, names: map<Addr, Name>,
                  now: map<Addr, Pointer>, newList: seq<Pointer>, newChains: seq<seq<Addr>>, i: nat)
    requires i < |chains| && Moved(chains, nextHash, names, now, newList, newChains, i, |chains[i]|)
    ensures Moved(chains, nextHash, names, now, newList, newChains, i + 1, 0)
  {
    assert chains[i][..|chains[i]|] == chains[i];
    forall a ensures Done(chains, i + 1, 0, a) <==> Done(chains, i, |chains[i]|, a) {
      if b: nat :| b < i + 1 && a in chains[b] { assert b < i || b == i; }
      if a in chains[i] { assert i < i + 1 && i < |chains|; }
    }
  }

  lemma AllMoved(list: seq<Pointer>, chains: seq<seq<Addr>>, nextHash: map<Addr, Pointer>, names: map<Addr, Name>,
                 now: map<Addr, Pointer>, newList: seq<Pointer>, newChains: seq<seq<Addr>>)
    requires TableInv(list, chains, nextHash, names)
    requires Moved(chains, nextHash, names, now, newList, newChains, |chains|, 0)
    ensures MembersOf(newChains) == MembersOf(chains)
  {
    forall a ensures Done(chains, |chains|, 0, a) <==> a in MembersOf(chains) {
      if a in MembersOf(chains) {
        MemberChain(list, chains, nextHash, names, a);
      }
      if Done(chains, |chains|, 0, a) { DoneIsMember(list, chains, |chains|, 0, a); }
    }
  }

  class HandleTable {
    var elems: nat
    var list: seq<Pointer>
    var nextHash: map<Addr, Pointer>
    var names: map<Addr, Name>
    ghost var chains: seq<seq<Addr>>

    ghost predicate Shape()
      reads this
    {
      TableInv(list, chains, nextHash, names) && PowerOfTwo(|list|)
    }

    ghost predicate Valid()
      reads this
    {
      Shape() && elems == |Members()| && elems <= |list|
    }

    ghost function Members(): set<Addr>
      reads this
    {
      MembersOf(chains)
    }

    constructor ()
      ensures Valid() && Members() == {}
    {
      elems, list, nextHash, names := 0, [Nil, Nil, Nil, Nil], map[], map[];
      chains := [[], [], [], []];
      new;
      FourIsPower();
      assert Members() == {};
    }

    /** No two members have one name. */
    lemma NamedOnce(a: Addr, c: Addr)
      requires Valid() && a in Members() && c in Members()
      ensures a in names && c in names && (names[a] == names[c] ==> a == c)
    {
      UniqueNames(list, chains, nextHash, names, a, c);
    }

    /**
     * The slot that holds the entry of that name, or ends its chain: the entry before the slot, and what the
     * slot holds.
     */
    method FindPointer(name: Name) returns (before: Pointer, p: Pointer, ghost i: nat)
      requires Shape()
      ensures var chain := chains[name.hash % |list|];
        PlaceFor(chain, names, name, i) && p == At(chain, i) && before == (if i == 0 then Nil else To(chain[i - 1]))
    {
      ghost var chain := chains[name.hash % |list|];
      before, p, i := Nil, list[name.hash % |list|], 0;
      assert Chained(p, chain, nextHash);
      while p != Nil && names[p.addr] != name
        invariant i <= |chain| && p == At(chain, i) && before == (if i == 0 then Nil else To(chain[i - 1]))
        invariant p != Nil ==> p.addr in chain && p.addr in names
        invariant forall j :: 0 <= j < i ==> !Named(names, chain[j], name)
        decreases |chain| - i
      {
        before, p, i := p, nextHash[p.addr], i + 1;
        assert i < |chain| ==> chain[i] in chain;
      }
    }

    method Lookup(name: Name) returns (p: Pointer)
      requires Valid()
      ensures p != Nil ==> p.addr in Members() && Named(names, p.addr, name)
      ensures p == Nil ==> forall a :: a in Members() ==> !Named(names, a, name)
    {
      var before;
      ghost var i;
      before, p, i := FindPointer(name);
      ghost var chain := chains[name.hash % |list|];
      if p == Nil {
        NotFound(list, chains, nextHash, names, name, name.hash % |list|);
      } else {
        assert chain in chains && chain[i] in chain;
      }
    }

    /** Enters `h` in the place of the entry of its name, which is returned, or at the end of the chain. */
    method Insert(h: Addr, name: Name) returns (replaced: Pointer)
      requires Valid() && h !in Members()
      modifies this
      ensures Valid() && names == old(names)[h := name]
      ensures replaced != Nil ==> replaced.addr in old(Members()) && Named(old(names), replaced.addr, name)
      ensures replaced == Nil ==> forall a :: a in old(Members()) ==> !Named(old(names), a, name)
      ensures Members() == (if replaced == Nil then old(Members()) else old(Members()) - {replaced.addr}) + {h}
    {
      replaced := LinkIn(h, name);
      if replaced == Nil {
        CountIn();
      }
    }

    method CountIn()
      requires Shape() && elems + 1 == |Members()|
      modifies `elems, `list, `nextHash, `chains
      ensures Valid() && Members() == old(Members())
    {
      elems := elems + 1;
      if elems > |list| {
        Resize();
      }
    }

    method LinkIn(h: Addr, name: Name) returns (p: Pointer)
      requires Shape() && h !in Members()
      modifies `list, `nextHash, `names, `chains
      ensures Shape() && names == old(names)[h := name] && |list| == old(|list|)
      ensures p != Nil ==> p.addr in old(Members()) && Named(old(names), p.addr, name)
      ensures p == Nil ==> forall a :: a in old(Members()) ==> !Named(old(names), a, name)
      ensures Members() == (if p == Nil then old(Members()) else old(Members()) - {p.addr}) + {h}
      ensures |Members()| == |old(Members())| + if p == Nil then 1 else 0
    {
      var before;
      ghost var i;
      before, p, i := FindPointer(name);
      var b := name.hash % |list|;
      if p == Nil { NotFound(list, chains, nextHash, names, name, b); }
      Store(h, name, b, before, p, i);
    }

    /** Stores the new entry into the slot found, linked on to what followed the entry that was there. */
    method Store(h: Addr, name: Name, b: nat, before: Pointer, p: Pointer, ghost i: nat)
      requires Shape() && h !in Members() && b == name.hash % |list| && PlaceFor(chains[b], names, name, i)
      requires p == At(chains[b], i) && before == if i == 0 then Nil else To(chains[b][i - 1])
      modifies `list, `nextHash, `names, `chains
      ensures Shape() && names == old(names)[h := name] && |list| == old(|list|)
      ensures p != Nil ==> p.addr in old(Members()) && Named(old(names), p.addr, name)
      ensures Members() == (if p == Nil then old(Members()) else old(Members()) - {p.addr}) + {h}
      ensures |Members()| == |old(Members())| + if p == Nil then 1 else 0
    {
      if p != Nil { LinkedMember(list, chains, nextHash, names, b, i); }
      var next := if p == Nil then Nil else nextHash[p.addr];
      ghost var chain := Inserted(chains[b], i, h);
      LinkedIn(list, chains, nextHash, names, h, name, b, i, before, chain, next);
      nextHash := StoreNext(nextHash[h := next], before, To(h));
      names := names[h := name];
      list := StoreList(list, b, before, To(h));
      chains := chains[b := chain];
    }

    /** Takes the entry of that name, if any, out of the table. */
    method Remove(name: Name) returns (removed: Pointer)
      requires Valid()
      modifies this
      ensures Valid() && names == old(names)
      ensures removed != Nil ==> removed.addr in old(Members()) && Named(names, removed.addr, name)
      ensures removed == Nil ==> forall a :: a in Members() ==> !Named(names, a, name)
      ensures Members() == if removed == Nil then old(Members()) else old(Members()) - {removed.addr}
    {
      var before;
      ghost var i;
      before, removed, i := FindPointer(name);
      if removed == Nil {
        NotFound(list, chains, nextHash, names, name, name.hash % |list|);
      } else {
        LinkOut(name.hash % |list|, before, removed, i);
        elems := elems - 1;
      }
    }

    method LinkOut(b: nat, before: Pointer, p: Pointer, ghost i: nat)
      requires Shape() && b < |list| && i < |chains[b]|
      requires p == To(chains[b][i]) && before == if i == 0 then Nil else To(chains[b][i - 1])
      modifies `list, `nextHash, `chains
      ensures Shape() && |list| == old(|list|)
      ensures p.addr in old(Members()) && Members() == old(Members()) - {p.addr} && |Members()| == |old(Members())| - 1
    {
      ghost var chain := chains[b][..i] + chains[b][i + 1..];
      LinkedOut(list, chains, nextHash, names, b, i, before, chain);
      var q := nextHash[p.addr];
      list := StoreList(list, b, before, q);
      nextHash := StoreNext(nextHash, before, q);
      chains := chains[b := chain];
    }

    /** Doubles from four up to the number of entries, and moves every entry to its new bucket. */
    method Resize()
      requires Shape() && elems == |Members()|
      modifies `list, `nextHash, `chains
      ensures Valid() && Members() == old(Members())
      ensures elems <= |list| && 4 <= |list| && (|list| > 4 ==> |list| / 2 < elems)
    {
      var newLength := DoubledLength(elems);
      Rehash(newLength);
    }

    method Rehash(newLength: nat)
      requires Shape() && newLength > 0 && PowerOfTwo(newLength)
      modifies `list, `nextHash, `chains
      ensures Shape() && |list| == newLength && Members() == old(Members())
    {
      var newList: seq<Pointer> := seq(newLength, _ => Nil);
      ghost var newChains: seq<seq<Addr>> := seq(newLength, _ => []);
      ghost var nextHash0 := nextHash;
      NothingMoved(newList, newChains, nextHash, names, chains);
      for i := 0 to |list|
        invariant unchanged(`list) && unchanged(`chains) && |newList| == newLength
        invariant Moved(chains, nextHash0, names, nextHash, newList, newChains, i, 0)
      {
        newList, newChains := MoveChain(nextHash0, newList, newChains, i);
      }
      AllMoved(list, chains, nextHash0, names, nextHash, newList, newChains);
      list, chains := newList, newChains;
    }

    method MoveChain(ghost nextHash0: map<Addr, Pointer>, list0: seq<Pointer>, ghost chains0: seq<seq<Addr>>, i: nat)
      returns (newList: seq<Pointer>, ghost newChains: seq<seq<Addr>>)
      requires i < |list| && TableInv(list, chains, nextHash0, names)
      requires Moved(chains, nextHash0, names, nextHash, list0, chains0, i, 0)
      modifies `nextHash
      ensures |newList| == |list0| && Moved(chains, nextHash0, names, nextHash, newList, newChains, i + 1, 0)
    {
      newList, newChains := list0, chains0;
      var h := list[i];
      ghost var j := 0;
      assert Chained(list[i], chains[i], nextHash0);
      while h != Nil
        invariant |newList| == |list0| && j <= |chains[i]| && h == At(chains[i], j)
        invariant Moved(chains, nextHash0, names, nextHash, newList, newChains, i, j)
        decreases |chains[i]| - j
      {
        var a := h.addr;
        MoveKeeps(list, chains, nextHash0, names, nextHash, newList, newChains, i, j);
        var next := nextHash[a];
        var b := names[a].hash % |newList|;
        nextHash := nextHash[a := newList[b]];
        newList := newList[b := h];
        newChains := newChains[b := [a] + newChains[b]];
        h, j := next, j + 1;
      }
      NextChain(chains, nextHash0, names, nextHash, newList, newChains, i);
    }
  }
}
