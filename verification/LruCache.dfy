/** One shard of the block cache (util/cache.cc, LRUCache). */
module LruCache {
  import opened Rings
  import opened HandleTables

  /** LRUHandle, apart from its links. */
  datatype Handle = Handle(name: Name, charge: nat, refs: nat, inCache: bool)

  /**
   * The cache as a value: entries by address, both lists, the entries in the hash table and their names there,
   * the entries whose deleter has run, and how often each entry is held by clients.
   */
  datatype Cache = Cache(capacity: nat, usage: nat, handles: map<Addr, Handle>, lru: seq<Addr>, inUse: seq<Addr>,
                         members: set<Addr>, names: map<Addr, Name>, nextAddr: Addr, deleted: seq<Addr>,
                         held: multiset<Addr>)

  function Total(handles: map<Addr, Handle>, list: seq<Addr>): nat
    requires forall a :: a in list ==> a in handles
  {
    if list == [] then 0
    else
      assert list[|list| - 1] in list;
      Total(handles, list[..|list| - 1]) + handles[list[|list| - 1]].charge
  }

  predicate Cached(handles: map<Addr, Handle>, a: Addr) {
    a in handles && handles[a].inCache
  }

  /** Every entry made so far is alive, or its deleter has run, once. */
  ghost predicate Alive(c: Cache) {
    && (forall a :: a in c.handles ==> 2 <= a < c.nextAddr)
    && (forall a :: a in c.deleted ==> 2 <= a < c.nextAddr && a !in c.handles)
    && (forall a :: 2 <= a < c.nextAddr ==> a in c.handles || a in c.deleted)
    && NoDuplicates(c.deleted) && 2 <= c.nextAddr
  }

  /** An entry lives as long as a client or the cache refers to it, and counts exactly those. */
  ghost predicate Counted(c: Cache) {
    && (forall a ::
         a in c.handles ==>
         c.handles[a].refs >= 1 && c.handles[a].refs == c.held[a] + if c.handles[a].inCache then 1 else 0)
    && (forall a :: a in c.held ==> a in c.handles)
  }

  /** Entries in the cache are in one list: lru_ when only the cache refers to them, in_use_ otherwise. */
  ghost predicate Listed(c: Cache) {
    && NoDuplicates(c.lru) && NoDuplicates(c.inUse)
    && (forall a :: a in c.lru <==> Cached(c.handles, a) && c.handles[a].refs == 1)
    && (forall a :: a in c.inUse <==> Cached(c.handles, a) && c.handles[a].refs >= 2)
  }

  ghost predicate Charged(c: Cache) {
    && (forall a :: a in c.lru || a in c.inUse ==> a in c.handles)
    && c.usage == Total(c.handles, c.lru) + Total(c.handles, c.inUse)
  }

  /** The hash table has the entries in the cache, but for `missing`, which is on its way out. */
  ghost predicate Tabled(c: Cache, missing: set<Addr>) {
    && (forall a :: a in c.members <==> Cached(c.handles, a) && a !in missing)
    && (forall a :: a in missing ==> Cached(c.handles, a))
    && (forall a :: a in c.members ==> a in c.handles && Named(c.names, a, c.handles[a].name))
  }

  ghost predicate CacheInv(c: Cache, missing: set<Addr>) {
    Alive(c) && Counted(c) && Listed(c) && Charged(c) && Tabled(c, missing)
  }

  // ----- sums of charges -----

  lemma {:induction false} TotalSame(handles: map<Addr, Handle>, after: map<Addr, Handle>, list: seq<Addr>)
    requires forall a :: a in list ==> a in handles && a in after && handles[a].charge == after[a].charge
    ensures Total(handles, list) == Total(after, list)
  {
    if list != [] {
      assert list[|list| - 1] in list;
      TotalSame(handles, after, list[..|list| - 1]);
    }
  }

  lemma {:induction false} TotalWithout(handles: map<Addr, Handle>, list: seq<Addr>, a: Addr)
    requires forall x :: x in list ==> x in handles
    requires NoDuplicates(list) && a in list
    ensures Total(handles, Without(list, a)) == Total(handles, list) - handles[a].charge
  {
    var init, last := list[..|list| - 1], list[|list| - 1];
    assert list == init + [last];
    if last == a {
      assert a !in init;
    } else {
      TotalWithout(handles, init, a);
      assert (Without(init, a) + [last])[..|Without(init, a)|] == Without(init, a);
    }
  }

  lemma TotalAppend(handles: map<Addr, Handle>, list: seq<Addr>, a: Addr)
    requires a in handles && forall x :: x in list ==> x in handles
    ensures Total(handles, list + [a]) == Total(handles, list) + handles[a].charge
  {
    assert (list + [a])[..|list|] == list;
  }

  lemma AppendedOnce(list: seq<Addr>, a: Addr)
    requires NoDuplicates(list) && a !in list
    ensures NoDuplicates(list + [a])
  {
  }

  // ----- references -----

  function Referenced(c: Cache, a: Addr): Cache
    requires a in c.handles
  {
    var h := c.handles[a];
    var counted := c.(handles := c.handles[a := h.(refs := h.refs + 1)], held := c.held + multiset{a});
    if h.refs == 1 && h.inCache then counted.(lru := Without(c.lru, a), inUse := Without(c.inUse, a) + [a]) else counted
  }

  /** One reference less; the last one runs the deleter. */
  function Unreferenced(c: Cache, a: Addr): Cache
    requires a in c.handles && c.handles[a].refs > 0
  {
    var h := c.handles[a];
    if h.refs == 1 then c.(handles := c.handles - {a}, deleted := c.deleted + [a])
    else
      var counted := c.(handles := c.handles[a := h.(refs := h.refs - 1)]);
      if h.inCache && h.refs == 2 then counted.(lru := Without(c.lru, a) + [a], inUse := Without(c.inUse, a))
      else counted
  }

  function Released(c: Cache, a: Addr): Cache
    requires a in c.handles && c.handles[a].refs > 0
  {
    Unreferenced(c.(held := c.held - multiset{a}), a)
  }

  /** Out of the list it is in, out of the count, and one reference less; the hash table has let go of it already. */
  function Erased(c: Cache, a: Addr): Cache
    requires a in c.handles && c.handles[a].refs > 0 && c.handles[a].charge <= c.usage
  {
    Unreferenced(Detached(c, a), a)
  }

  function Detached(c: Cache, a: Addr): Cache
    requires a in c.handles && c.handles[a].charge <= c.usage
  {
    var h := c.handles[a];
    c.(lru := Without(c.lru, a), inUse := Without(c.inUse, a),
       handles := c.handles[a := h.(inCache := false)], usage := c.usage - h.charge)
  }

  lemma MoveCharge(c: Cache, c': Cache, a: Addr)
    requires Charged(c) && Listed(c) && a in c.handles && a in c'.handles && c'.usage == c.usage
    requires forall x :: x in c.handles ==> x in c'.handles && c'.handles[x].charge == c.handles[x].charge
    requires c.lru == Without(c.lru, a) || a in c.lru
    requires (a in c.lru && c'.lru == Without(c.lru, a) && c'.inUse == c.inUse + [a])
        || (a in c.inUse && c'.inUse == Without(c.inUse, a) && c'.lru == c.lru + [a])
    ensures Charged(c')
  {
    TotalSame(c.handles, c'.handles, c.lru);
    TotalSame(c.handles, c'.handles, c.inUse);
    if a in c.lru && c'.lru == Without(c.lru, a) && c'.inUse == c.inUse + [a] {
      TotalWithout(c'.handles, c.lru, a);
      TotalAppend(c'.handles, c.inUse, a);
    } else {
      TotalWithout(c'.handles, c.inUse, a);
      TotalAppend(c'.handles, c.lru, a);
    }
  }

  lemma RefListed(c: Cache, a: Addr)
    requires Listed(c) && a in c.handles && c.handles[a].refs >= 1
    ensures Listed(Referenced(c, a))
  {
    WithoutKeepsNoDuplicates(c.lru, a);
    if c.handles[a].refs == 1 && c.handles[a].inCache { AppendedOnce(c.inUse, a); }
  }

  lemma RefCharged(c: Cache, a: Addr)
    requires Listed(c) && Charged(c) && a in c.handles
    ensures Charged(Referenced(c, a))
  {
    if c.handles[a].refs == 1 && c.handles[a].inCache {
      assert a in c.lru && a !in c.inUse;
      MoveCharge(c, Referenced(c, a), a);
    } else {
      TotalSame(c.handles, Referenced(c, a).handles, c.lru);
      TotalSame(c.handles, Referenced(c, a).handles, c.inUse);
    }
  }

  lemma RefKeeps(c: Cache, a: Addr)
    requires CacheInv(c, {}) && a in c.handles
    ensures CacheInv(Referenced(c, a), {})
  {
    RefListed(c, a);
    RefCharged(c, a);
    RefCounted(c, a);
    RefTabled(c, a);
  }

  lemma RefTabled(c: Cache, a: Addr)
    requires Tabled(c, {}) && a in c.handles
    ensures Tabled(Referenced(c, a), {})
  {
  }

  lemma RefCounted(c: Cache, a: Addr)
    requires Alive(c) && Counted(c) && a in c.handles
    ensures Alive(Referenced(c, a)) && Counted(Referenced(c, a))
  {
  }

  // ----- dropping a reference -----

  /** `c.held` is already down by one for `a`, or the cache has just let go of it. */
  ghost predicate OneTooMany(c: Cache, a: Addr) {
    && a in c.handles && c.handles[a].refs >= 1
    && c.handles[a].refs == c.held[a] + (if c.handles[a].inCache then 1 else 0) + 1
    && (forall x ::
         x in c.handles && x != a ==>
         c.handles[x].refs >= 1 && c.handles[x].refs == c.held[x] + if c.handles[x].inCache then 1 else 0)
    && (forall x :: x in c.held ==> x in c.handles)
  }

  lemma UnrefListed(c: Cache, a: Addr)
    requires Listed(c) && OneTooMany(c, a)
    ensures Listed(Unreferenced(c, a))
  {
    WithoutKeepsNoDuplicates(c.inUse, a);
    if c.handles[a].inCache && c.handles[a].refs == 2 { AppendedOnce(c.lru, a); }
  }

  lemma UnrefCharged(c: Cache, a: Addr)
    requires Listed(c) && Charged(c) && OneTooMany(c, a)
    ensures Charged(Unreferenced(c, a))
  {
    var c' := Unreferenced(c, a);
    if c.handles[a].inCache && c.handles[a].refs == 2 {
      assert a in c.inUse && a !in c.lru;
      MoveCharge(c, c', a);
    } else {
      if c.handles[a].refs == 1 { assert a !in c.lru && a !in c.inUse; }
      TotalSame(c.handles, c'.handles, c.lru);
      TotalSame(c.handles, c'.handles, c.inUse);
    }
  }

  lemma UnrefAlive(c: Cache, a: Addr)
    requires Alive(c) && OneTooMany(c, a)
    ensures Alive(Unreferenced(c, a)) && Counted(Unreferenced(c, a))
  {
    AppendedOnce(c.deleted, a);
  }

  lemma UnrefTabled(c: Cache, a: Addr)
    requires Tabled(c, {}) && OneTooMany(c, a)
    ensures Tabled(Unreferenced(c, a), {})
  {
  }

  lemma UnrefKeeps(c: Cache, a: Addr)
    requires Alive(c) && OneTooMany(c, a) && Listed(c) && Charged(c) && Tabled(c, {})
    ensures CacheInv(Unreferenced(c, a), {})
  {
    UnrefAlive(c, a);
    UnrefListed(c, a);
    UnrefCharged(c, a);
    UnrefTabled(c, a);
  }

  lemma ReleaseKeeps(c: Cache, a: Addr)
    requires CacheInv(c, {}) && c.held[a] > 0
    ensures a in c.handles && c.handles[a].refs > 0 && CacheInv(Released(c, a), {})
  {
    assert a in c.held;
    ReleasedOnce(c, a);
    UnrefKeeps(c.(held := c.held - multiset{a}), a);
  }

  lemma ReleasedOnce(c: Cache, a: Addr)
    requires Counted(c) && a in c.held
    ensures OneTooMany(c.(held := c.held - multiset{a}), a)
  {
    assert a in c.handles;
  }

  // ----- taking an entry out of the cache -----

  lemma {:induction false} ChargeWithin(handles: map<Addr, Handle>, list: seq<Addr>, a: Addr)
    requires (forall x :: x in list ==> x in handles) && a in list
    ensures handles[a].charge <= Total(handles, list)
  {
    var init, last := list[..|list| - 1], list[|list| - 1];
    assert list == init + [last];
    if a != last { ChargeWithin(handles, init, a); }
  }

  /** The cache after an entry has left its list and the count. */
  function Uncached(c: Cache, a: Addr): Cache
    requires a in c.handles && c.handles[a].charge <= c.usage
  {
    var h := c.handles[a];
    c.(lru := Without(c.lru, a), inUse := Without(c.inUse, a), handles := c.handles[a := h.(inCache := false)],
        usage := c.usage - h.charge)
  }

  lemma UncachedListed(c: Cache, a: Addr)
    requires Listed(c) && Cached(c.handles, a) && c.handles[a].charge <= c.usage
    ensures Listed(Uncached(c, a))
  {
    WithoutKeepsNoDuplicates(c.lru, a);
    WithoutKeepsNoDuplicates(c.inUse, a);
  }

  lemma UncachedCharged(c: Cache, a: Addr)
    requires Listed(c) && Charged(c) && Cached(c.handles, a) && c.handles[a].refs >= 1
    ensures c.handles[a].charge <= c.usage && Charged(Uncached(c, a))
  {
    if a in c.lru {
      ChargeWithin(c.handles, c.lru, a);
      TotalWithout(c.handles, c.lru, a);
    } else {
      ChargeWithin(c.handles, c.inUse, a);
      TotalWithout(c.handles, c.inUse, a);
    }
    var after := c.handles[a := c.handles[a].(inCache := false)];
    TotalSame(c.handles, after, Without(c.lru, a));
    TotalSame(c.handles, after, Without(c.inUse, a));
  }

  lemma UncachedOnce(c: Cache, a: Addr)
    requires Alive(c) && Counted(c) && Tabled(c, {a}) && c.handles[a].charge <= c.usage
    ensures Alive(Uncached(c, a)) && OneTooMany(Uncached(c, a), a) && Tabled(Uncached(c, a), {})
  {
    assert a in {a};
  }

  lemma FinishEraseKeeps(c: Cache, a: Addr)
    requires CacheInv(c, {a})
    ensures a in c.handles && c.handles[a].refs > 0 && c.handles[a].charge <= c.usage
    ensures CacheInv(Erased(c, a), {})
  {
    assert a in {a};
    UncachedCharged(c, a);
    UncachedListed(c, a);
    UncachedOnce(c, a);
    UnrefKeeps(Uncached(c, a), a);
  }

  /** Taking an entry out of the hash table. */
  lemma UntabledKeeps(c: Cache, a: Addr)
    requires CacheInv(c, {}) && a in c.members
    ensures CacheInv(c.(members := c.members - {a}), {a})
  {
  }

  // ----- inserting -----

  /** The new entry, referred to by the caller and, if the cache is on, by the cache. */
  function NewHandle(capacity: nat, name: Name, charge: nat): Handle {
    if capacity > 0 then Handle(name, charge, 2, true) else Handle(name, charge, 1, false)
  }

  function Created(c: Cache, name: Name, charge: nat): Cache {
    var a := c.nextAddr;
    var made := c.(nextAddr := a + 1, held := c.held + multiset{a});
    if c.capacity > 0 then
      made.(handles := c.handles[a := Handle(name, charge, 2, true)], inUse := c.inUse + [a], usage := c.usage + charge,
          members := c.members + {a}, names := c.names[a := name])
    else made.(handles := c.handles[a := Handle(name, charge, 1, false)])
  }

  /** The table with an entry more, and without the one it replaces. */
  function Renewed(members: set<Addr>, a: Addr, replaced: Pointer): set<Addr> {
    (if replaced == Nil then members else members - {replaced.addr}) + {a}
  }

  lemma RenewedIs(members: set<Addr>, a: Addr, replaced: Pointer)
    ensures Renewed(members, a, replaced) == (if replaced == Nil then members else members - {replaced.addr}) + {a}
  {
  }

  /** The same, when the table had an entry of that name, which is out of the table now. */
  function CreatedInPlace(c: Cache, name: Name, charge: nat, replaced: Pointer): Cache {
    var a := c.nextAddr;
    if c.capacity > 0 then
      Cache(c.capacity, c.usage + charge, c.handles[a := NewHandle(c.capacity, name, charge)], c.lru, c.inUse + [a],
            Renewed(c.members, a, replaced), c.names[a := name], a + 1, c.deleted, c.held + multiset{a})
    else
      Cache(c.capacity, c.usage, c.handles[a := NewHandle(c.capacity, name, charge)], c.lru, c.inUse, c.members,
          c.names, a + 1, c.deleted, c.held + multiset{a})
  }

  lemma MadeInPlace(c: Cache, made: Cache, name: Name, charge: nat, replaced: Pointer)
    requires made.capacity == c.capacity && made.lru == c.lru && made.deleted == c.deleted
    requires made.nextAddr == c.nextAddr + 1 && made.held == c.held + multiset{c.nextAddr}
    requires made.handles == c.handles[c.nextAddr := NewHandle(c.capacity, name, charge)]
    requires c.capacity > 0 ==>
        && made.usage == c.usage + charge && made.inUse == c.inUse + [c.nextAddr]
        && made.names == c.names[c.nextAddr := name] && made.members == Renewed(c.members, c.nextAddr, replaced)
    requires c.capacity == 0 ==>
        made.usage == c.usage && made.inUse == c.inUse && made.names == c.names && made.members == c.members
    ensures made == CreatedInPlace(c, name, charge, replaced)
  {
  }

  lemma InPlaceIsWithout(c: Cache, name: Name, charge: nat, a: Addr)
    requires a in c.members && a != c.nextAddr && c.capacity > 0
    ensures var made := Created(c, name, charge);
      a in made.members && CreatedInPlace(c, name, charge, To(a)) == made.(members := made.members - {a})
  {
    assert (c.members - {a}) + {c.nextAddr} == (c.members + {c.nextAddr}) - {a};
  }

  lemma InPlaceIsCreated(c: Cache, name: Name, charge: nat)
    ensures CreatedInPlace(c, name, charge, Nil) == Created(c, name, charge)
  {
  }

  /** `replaced` is the entry of that name in the cache, if there is one and the cache is on. */
  ghost predicate Takes(c: Cache, name: Name, replaced: Pointer) {
    && (replaced != Nil ==>
         c.capacity > 0 && replaced.addr in c.members && Cached(c.handles, replaced.addr)
         && c.handles[replaced.addr].name == name)
    && (replaced == Nil && c.capacity > 0 ==> forall a :: Cached(c.handles, a) ==> c.handles[a].name != name)
  }

  lemma TakesNamed(c: Cache, name: Name, replaced: Pointer)
    requires CacheInv(c, {})
    requires replaced != Nil ==> c.capacity > 0 && replaced.addr in c.members && Named(c.names, replaced.addr, name)
    requires replaced == Nil && c.capacity > 0 ==> forall x :: x in c.members ==> !Named(c.names, x, name)
    ensures Takes(c, name, replaced)
  {
  }

  /** After inserting there is room to finish the entry that was replaced. */
  ghost predicate Replaces(c: Cache, name: Name, charge: nat, replaced: Pointer) {
    && Takes(c, name, replaced)
    && (replaced != Nil ==>
          var made := CreatedInPlace(c, name, charge, replaced);
          replaced.addr in made.handles && made.handles[replaced.addr].refs > 0
              && made.handles[replaced.addr].charge <= made.usage)
  }

  /** The cache with the new entry, and without the one it replaces. */
  ghost function Entered(c: Cache, name: Name, charge: nat, replaced: Pointer): Cache
    requires Replaces(c, name, charge, replaced)
  {
    var made := CreatedInPlace(c, name, charge, replaced);
    if replaced == Nil then made else Erased(made, replaced.addr)
  }

  lemma CreatedListed(c: Cache, name: Name, charge: nat)
    requires Alive(c) && Listed(c)
    ensures Listed(Created(c, name, charge))
  {
    AppendedOnce(c.inUse, c.nextAddr);
  }

  lemma CreatedCharged(c: Cache, name: Name, charge: nat)
    requires Alive(c) && Charged(c)
    ensures Charged(Created(c, name, charge))
  {
    var c' := Created(c, name, charge);
    TotalSame(c.handles, c'.handles, c.lru);
    TotalSame(c.handles, c'.handles, c.inUse);
    if c.capacity > 0 { TotalAppend(c'.handles, c.inUse, c.nextAddr); }
  }

  lemma CreatedTabled(c: Cache, name: Name, charge: nat)
    requires Alive(c) && Tabled(c, {})
    ensures Tabled(Created(c, name, charge), {})
  {
    assert c.nextAddr !in c.members;
  }

  lemma CreatedAlive(c: Cache, name: Name, charge: nat)
    requires Alive(c)
    ensures Alive(Created(c, name, charge))
  {
  }

  lemma CreatedCounted(c: Cache, name: Name, charge: nat)
    requires Alive(c) && Counted(c)
    ensures Counted(Created(c, name, charge))
  {
    assert c.nextAddr !in c.held;
  }

  lemma CreatedKeeps(c: Cache, name: Name, charge: nat)
    requires CacheInv(c, {})
    ensures CacheInv(Created(c, name, charge), {})
  {
    CreatedListed(c, name, charge);
    CreatedCharged(c, name, charge);
    CreatedTabled(c, name, charge);
    CreatedCounted(c, name, charge);
    CreatedAlive(c, name, charge);
  }

  // ----- evicting -----

  /** The oldest entry of lru_, out of the table, the list and memory. */
  function Evicted(c: Cache, a: Addr): Cache
    requires a in c.handles && c.handles[a].refs > 0 && c.handles[a].charge <= c.usage
  {
    Erased(c.(members := c.members - {a}), a)
  }

  lemma OldestFacts(c: Cache)
    requires Listed(c) && Charged(c) && Tabled(c, {}) && c.lru != []
    ensures var a := c.lru[0];
      && a in c.handles && c.handles[a].refs == 1 && c.handles[a].charge <= c.usage && a in c.members && a !in c.inUse
  {
    assert c.lru[0] in c.lru;
    ChargeWithin(c.handles, c.lru, c.lru[0]);
  }

  lemma EvictedShape(c: Cache, a: Addr)
    requires NoDuplicates(c.lru) && c.lru != [] && a == c.lru[0] && a !in c.inUse
    requires a in c.handles && c.handles[a].refs == 1 && c.handles[a].charge <= c.usage
    ensures var c' := Evicted(c, a);
      && c'.handles == c.handles - {a} && c'.lru == c.lru[1..] && c'.inUse == c.inUse && c'.held == c.held
      && c'.deleted == c.deleted + [a] && c'.usage == c.usage - c.handles[a].charge
  {
    WithoutFirst(c.lru);
  }

  lemma EvictedKeeps(c: Cache)
    requires CacheInv(c, {}) && c.lru != []
    ensures var a := c.lru[0];
      && a in c.handles && c.handles[a].refs == 1 && c.handles[a].charge <= c.usage && a in c.members && a !in c.inUse
      && CacheInv(Evicted(c, a), {})
  {
    OldestFacts(c);
    UntabledKeeps(c, c.lru[0]);
    FinishEraseKeeps(c.(members := c.members - {c.lru[0]}), c.lru[0]);
  }

  /** The oldest entry can be evicted, and is off its list then; it always is in a sound cache. */
  ghost predicate Evictable(c: Cache) {
    && c.lru != [] && c.lru[0] in c.handles && c.handles[c.lru[0]].refs > 0 && c.handles[c.lru[0]].charge <= c.usage
    && |Evicted(c, c.lru[0]).lru| < |c.lru|
  }

  /** The oldest go one after another, until the rest fits or nothing is left to evict. */
  ghost function Trimmed(c: Cache): Cache
    decreases |c.lru|
  {
    if c.usage <= c.capacity || !Evictable(c) then c else Trimmed(Evicted(c, c.lru[0]))
  }

  /** All of lru_ goes, oldest first. */
  ghost function Pruned(c: Cache): Cache
    decreases |c.lru|
  {
    if !Evictable(c) then c else Pruned(Evicted(c, c.lru[0]))
  }

  lemma OldestIsEvictable(c: Cache)
    requires CacheInv(c, {}) && c.lru != []
    ensures Evictable(c)
  {
    OldestFacts(c);
    EvictedShape(c, c.lru[0]);
  }

  /** The oldest `gone` entries have gone, in order, and the last of them had to. */
  ghost predicate TrimmedBy(c: Cache, t: Cache, gone: nat) {
    && gone <= |c.lru| && t.lru == c.lru[gone..] && t.deleted == c.deleted + c.lru[..gone] && t.inUse == c.inUse
    && (gone > 0 ==> NeedsMore(c, gone - 1))
  }

  /** Usage would still be above the capacity if only the oldest `n` went. */
  ghost predicate NeedsMore(c: Cache, n: nat) {
    && n < |c.lru|
    && (forall a :: a in c.lru[..n] ==> a in c.handles)
    && c.usage > c.capacity + Total(c.handles, c.lru[..n])
  }

  /** What trimming leaves fits, or nothing is left to evict. */
  lemma {:induction false} TrimmedShape(c: Cache) returns (gone: nat)
    requires CacheInv(c, {})
    ensures CacheInv(Trimmed(c), {}) && TrimmedBy(c, Trimmed(c), gone)
    ensures Trimmed(c).usage <= c.capacity || gone == |c.lru|
    decreases |c.lru|
  {
    if c.usage <= c.capacity || c.lru == [] {
      gone := 0;
      NoneGone(c.deleted, c.lru);
    } else {
      OldestIsEvictable(c);
      EvictedKeeps(c);
      var next := Evicted(c, c.lru[0]);
      var more := TrimmedShape(next);
      gone := more + 1;
      TrimmedStep(c, next, Trimmed(next), more);
    }
  }

  /** One entry more in front of those that go from the cache without it. */
  lemma TrimmedStep(c: Cache, next: Cache, t: Cache, more: nat)
    requires CacheInv(c, {}) && Evictable(c) && c.usage > c.capacity
    requires next == Evicted(c, c.lru[0]) && TrimmedBy(next, t, more)
    ensures TrimmedBy(c, t, more + 1) && |next.lru| == |c.lru| - 1
  {
    OldestFacts(c);
    EvictedShape(c, c.lru[0]);
    OneMoreTrimmed(c.deleted, c.lru, more);
    if more > 0 {
      TotalFront(c.handles, c.handles - {c.lru[0]}, c.lru, more);
    } else {
      assert c.lru[..0] == [];
    }
    assert NeedsMore(c, more);
  }

  lemma OneMoreTrimmed(deleted: seq<Addr>, lru: seq<Addr>, more: nat)
    requires lru != [] && more <= |lru| - 1
    ensures lru[1..][more..] == lru[more + 1..]
    ensures (deleted + [lru[0]]) + lru[1..][..more] == deleted + lru[..more + 1]
  {
  }

  /** The charges of the first entries, with the very first one on its own. */
  lemma {:induction false} TotalFront(handles: map<Addr, Handle>, after: map<Addr, Handle>, list: seq<Addr>, n: nat)
    requires 0 < n < |list| && NoDuplicates(list) && forall a :: a in list ==> a in handles
    requires after == handles - {list[0]}
    ensures forall a :: a in list[1..][..n - 1] ==> a in after
    ensures Total(handles, list[..n]) == handles[list[0]].charge + Total(after, list[1..][..n - 1])
  {
    forall a | a in list[1..][..n - 1] ensures a in after && a in list {
      var k :| 0 <= k < n - 1 && list[1..][..n - 1][k] == a;
      assert list[k + 1] == a;
    }
    if n == 1 {
      assert list[..1] == [list[0]] && [list[0]][..0] == [];
      assert Total(handles, []) == 0 && list[1..][..0] == [];
    } else {
      TotalFront(handles, after, list, n - 1);
      assert list[..n][..n - 1] == list[..n - 1] && list[1..][..n - 1][..n - 2] == list[1..][..n - 2];
      assert list[1..][..n - 1][n - 2] == list[n - 1];
    }
  }

  lemma WithoutFirst(list: seq<Addr>)
    requires NoDuplicates(list) && list != []
    ensures Without(list, list[0]) == list[1..]
  {
    WithoutAt(list, 0);
    assert list[..0] + list[1..] == list[1..];
  }

  // ----- least recently used -----

  /** When its clients last released each entry, and the time now. They are no part of the state of the code. */
  datatype Ages = Ages(letGo: map<Addr, nat>, now: nat)

  /** lru_ has the entry that was let go first in front. */
  ghost predicate Aged(lru: seq<Addr>, ages: Ages) {
    && (forall a {:trigger Past(ages, a)} :: a in lru ==> Past(ages, a))
    && (forall i, j {:trigger Before(ages, lru[i], lru[j])} :: 0 <= i < j < |lru| ==> Before(ages, lru[i], lru[j]))
  }

  predicate Past(ages: Ages, a: Addr) {
    a in ages.letGo && ages.letGo[a] < ages.now
  }

  /** The first was let go, and that before the second. */
  predicate Before(ages: Ages, a: Addr, b: Addr) {
    a in ages.letGo && b in ages.letGo && ages.letGo[a] < ages.letGo[b]
  }

  ghost predicate InOrder(c: Cache, missing: set<Addr>, ages: Ages) {
    CacheInv(c, missing) && Aged(c.lru, ages)
  }

  function LetGo(ages: Ages, a: Addr): Ages {
    Ages(ages.letGo[a := ages.now], ages.now + 1)
  }

  lemma {:induction false} WithoutAged(lru: seq<Addr>, a: Addr, ages: Ages)
    requires NoDuplicates(lru) && Aged(lru, ages)
    ensures Aged(Without(lru, a), ages)
  {
    if a in lru {
      var k :| 0 <= k < |lru| && lru[k] == a;
      WithoutAt(lru, k);
    }
  }

  /** An entry that is let go now is the youngest. */
  lemma LetGoAged(lru: seq<Addr>, a: Addr, ages: Ages)
    requires Aged(lru, ages) && a !in lru
    ensures Aged(lru + [a], LetGo(ages, a)) && Aged(lru, LetGo(ages, a))
  {
    var next := LetGo(ages, a);
    forall x | x in lru ensures Past(next, x) && Before(next, x, a) { assert Past(ages, x); }
    forall i, j | 0 <= i < j < |lru| ensures Before(next, lru[i], lru[j]) { assert Before(ages, lru[i], lru[j]); }
    forall i, j | 0 <= i < j < |lru| + 1 ensures Before(next, (lru + [a])[i], (lru + [a])[j]) { }
  }

  lemma CreatedAged(c: Cache, name: Name, charge: nat, ages: Ages)
    requires InOrder(c, {}, ages)
    ensures InOrder(Created(c, name, charge), {}, ages)
  {
    CreatedKeeps(c, name, charge);
  }

  /** The new entry is in; one that it replaces is out of the table, and is left to be finished. */
  lemma EnteredAged(c: Cache, name: Name, charge: nat, replaced: Pointer, ages: Ages)
    requires InOrder(c, {}, ages) && (c.capacity == 0 ==> replaced == Nil)
    requires replaced != Nil ==> replaced.addr in c.members && Named(c.names, replaced.addr, name)
    requires replaced == Nil && c.capacity > 0 ==> forall x :: x in c.members ==> !Named(c.names, x, name)
    ensures InOrder(CreatedInPlace(c, name, charge, replaced), if replaced == Nil then {} else {replaced.addr}, ages)
    ensures Takes(c, name, replaced) && (replaced != Nil ==> replaced.addr != c.nextAddr)
    ensures c.nextAddr in CreatedInPlace(c, name, charge, replaced).handles
    ensures CreatedInPlace(c, name, charge, replaced).handles[c.nextAddr] == NewHandle(c.capacity, name, charge)
  {
    CreatedAged(c, name, charge, ages);
    InPlaceIsCreated(c, name, charge);
    TakesNamed(c, name, replaced);
    if replaced != Nil {
      assert replaced.addr in c.handles;
      InPlaceIsWithout(c, name, charge, replaced.addr);
      UntabledAged(Created(c, name, charge), replaced.addr, ages);
    }
  }

  lemma UntabledAged(c: Cache, a: Addr, ages: Ages)
    requires InOrder(c, {}, ages) && a in c.members
    ensures InOrder(c.(members := c.members - {a}), {a}, ages)
  {
    UntabledKeeps(c, a);
  }

  lemma ReferencedAged(c: Cache, a: Addr, ages: Ages)
    requires Listed(c) && a in c.handles && Aged(c.lru, ages)
    ensures Aged(Referenced(c, a).lru, ages)
  {
    WithoutAged(c.lru, a, ages);
  }

  /** Giving up what clients hold puts the entry behind all others, if it goes to lru_ at all. */
  lemma ReleasedAged(c: Cache, a: Addr, ages: Ages)
    requires InOrder(c, {}, ages) && c.held[a] > 0
    ensures a in c.handles && c.handles[a].refs > 0 && InOrder(Released(c, a), {}, LetGo(ages, a))
  {
    ReleaseKeeps(c, a);
    assert a !in c.lru;
    LetGoAged(c.lru, a, ages);
  }

  lemma ErasedAged(c: Cache, a: Addr, ages: Ages)
    requires InOrder(c, {a}, ages)
    ensures a in c.handles && c.handles[a].refs > 0 && c.handles[a].charge <= c.usage
    ensures InOrder(Erased(c, a), {}, ages)
  {
    FinishEraseKeeps(c, a);
    WithoutAged(c.lru, a, ages);
  }

  /** What trimming takes out was let go before everything it leaves in lru_. */
  lemma OldestGoFirst(c: Cache, ages: Ages, x: Addr, y: Addr)
    requires InOrder(c, {}, ages) && Cached(c.handles, x)
    requires !Cached(Trimmed(c).handles, x) && y in Trimmed(c).lru
    ensures x in c.lru && Before(ages, x, y)
  {
    var gone := TrimmedShape(c);
    TrimmedParts(c, Trimmed(c), gone, x, y);
  }

  lemma TrimmedParts(c: Cache, t: Cache, gone: nat, x: Addr, y: Addr)
    requires Listed(c) && Listed(t) && TrimmedBy(c, t, gone)
    requires Cached(c.handles, x) && c.handles[x].refs >= 1 && !Cached(t.handles, x) && y in t.lru
    ensures exists i, j :: 0 <= i < j < |c.lru| && c.lru[i] == x && c.lru[j] == y
  {
    assert x !in t.inUse && x in c.lru && x !in t.lru;
    var i :| 0 <= i < |c.lru| && c.lru[i] == x;
    forall k | gone <= k < |c.lru| ensures c.lru[k] in t.lru { assert t.lru[k - gone] == c.lru[k]; }
    var j :| 0 <= j < |t.lru| && t.lru[j] == y;
    assert c.lru[gone + j] == y;
  }

  /** An entry of another name is in the cache with the new entry as it was without. */
  lemma OthersEntered(c: Cache, name: Name, charge: nat, replaced: Pointer, x: Addr)
    requires CacheInv(c, {}) && Replaces(c, name, charge, replaced)
    requires Cached(c.handles, x) && c.handles[x].name != name
    ensures Cached(Entered(c, name, charge, replaced).handles, x)
  {
    if replaced != Nil {
      ErasedOthers(CreatedInPlace(c, name, charge, replaced), replaced.addr, x);
    }
  }

  /** Clients hold the entry in the cache before and after, and it has not changed. */
  predicate StaysHeld(c: Cache, t: Cache, x: Addr) {
    x in c.handles && x in c.inUse && x in t.inUse && x in t.handles && t.handles[x] == c.handles[x]
  }

  lemma {:induction false} TrimmedKeepsHeld(c: Cache, x: Addr)
    requires CacheInv(c, {}) && x in c.inUse
    ensures StaysHeld(c, Trimmed(c), x)
    decreases |c.lru|
  {
    if c.usage > c.capacity && c.lru != [] {
      OldestIsEvictable(c);
      EvictedKeeps(c);
      EvictedShape(c, c.lru[0]);
      TrimmedKeepsHeld(Evicted(c, c.lru[0]), x);
    }
  }

  /** The caller holds the new entry, and it is in the cache, in use, exactly if the cache is on. */
  lemma NewIsEntered(c: Cache, name: Name, charge: nat, replaced: Pointer)
    requires CacheInv(c, {}) && Replaces(c, name, charge, replaced)
    ensures var e, a := Entered(c, name, charge, replaced), c.nextAddr;
      && a in e.handles && e.handles[a].name == name && e.handles[a].charge == charge && e.held[a] == 1
      && (Cached(e.handles, a) <==> c.capacity > 0) && (a in e.inUse <==> c.capacity > 0)
      && e.held == c.held + multiset{a}
  {
    var made := CreatedInPlace(c, name, charge, replaced);
    assert c.nextAddr !in c.held && c.nextAddr !in c.inUse;
    if replaced != Nil { ErasedOthers(made, replaced.addr, c.nextAddr); }
  }

  lemma EnteredKeepsHeld(c: Cache, name: Name, charge: nat, replaced: Pointer, x: Addr)
    requires CacheInv(c, {}) && Replaces(c, name, charge, replaced)
    requires x in c.inUse && c.handles[x].name != name
    ensures StaysHeld(c, Entered(c, name, charge, replaced), x)
  {
    var made := CreatedInPlace(c, name, charge, replaced);
    assert x != c.nextAddr && x in made.inUse && made.handles[x] == c.handles[x];
    if replaced != Nil { ErasedOthers(made, replaced.addr, x); }
  }

  /**
   * Between `c` and `t` entries of other names left the cache that had been let go before all that `t` has in lru_, and
   * none that clients hold.
   */
  ghost predicate OldestGone(c: Cache, t: Cache, name: Name, ages: Ages) {
    && (forall x, y {:trigger Before(ages, x, y)} ::
         Cached(c.handles, x) && c.handles[x].name != name && !Cached(t.handles, x) && y in t.lru
         ==> Before(ages, x, y))
    && (forall x {:trigger StaysHeld(c, t, x)} ::
         x in c.inUse && x in c.handles && c.handles[x].name != name ==> StaysHeld(c, t, x))
  }

  lemma InsertedAged(c: Cache, name: Name, charge: nat, replaced: Pointer, ages: Ages)
    requires CacheInv(c, {}) && Replaces(c, name, charge, replaced)
    requires InOrder(Entered(c, name, charge, replaced), {}, ages)
    ensures OldestGone(c, Trimmed(Entered(c, name, charge, replaced)), name, ages)
  {
    var e := Entered(c, name, charge, replaced);
    var t := Trimmed(e);
    forall x, y {:trigger Before(ages, x, y)} |
      Cached(c.handles, x) && c.handles[x].name != name && !Cached(t.handles, x) && y in t.lru
      ensures Before(ages, x, y)
    {
      OthersEntered(c, name, charge, replaced, x);
      OldestGoFirst(e, ages, x, y);
    }
    forall x {:trigger StaysHeld(c, t, x)} | x in c.inUse && x in c.handles && c.handles[x].name != name
      ensures StaysHeld(c, t, x)
    {
      EnteredKeepsHeld(c, name, charge, replaced, x);
      TrimmedKeepsHeld(e, x);
    }
  }

  // ----- what the invariant means -----

  /** An entry in the cache is in exactly one list, and which one tells whether clients refer to it. */
  lemma OneListEach(c: Cache, a: Addr)
    requires CacheInv(c, {})
    ensures Cached(c.handles, a) <==> a in c.lru || a in c.inUse
    ensures !(a in c.lru && a in c.inUse)
    ensures Cached(c.handles, a) ==> (a in c.lru <==> c.held[a] == 0)
  {
  }

  lemma NoneIn(s: seq<Addr>)
    ensures (forall a :: a !in s) ==> s == []
  {
    assert |s| > 0 ==> s[0] in s;
  }

  lemma UnheldIsListed(c: Cache, a: Addr)
    requires CacheInv(c, {}) && a in c.handles && c.held[a] == 0
    ensures a in c.lru
  {
  }

  /** Once clients hold nothing and lru_ has been emptied, every entry ever made has been deleted, once. */
  lemma EveryDeleterOnce(c: Cache)
    requires CacheInv(c, {}) && c.held == multiset{} && c.lru == []
    ensures c.handles == map[] && c.usage == 0
    ensures NoDuplicates(c.deleted) && forall a :: a in c.deleted <==> 2 <= a < c.nextAddr
  {
    forall a | a in c.handles ensures a in c.lru { UnheldIsListed(c, a); }
    NoneIn(c.inUse);
  }

  // ----- the cache object -----

  class LRUCache {
    var capacity: nat
    var usage: nat
    var handles: map<Addr, Handle>
    var nextAddr: Addr
    const lists: Lists
    const table: HandleTable
    // the entries whose deleter has been called, in order
    var deleted: seq<Addr>
    // the references clients hold
    ghost var held: multiset<Addr>
    // when they last gave one up
    ghost var ages: Ages

    ghost function State(): Cache
      reads this, lists, table
    {
      Cache(capacity, usage, handles, lists.lru, lists.inUse, table.Members(), table.names, nextAddr, deleted, held)
    }

    ghost predicate Ready(missing: set<Addr>)
      reads this, lists, table
    {
      CacheInv(State(), missing) && Aged(lists.lru, ages) && lists.Valid() && table.Valid()
    }

    constructor (capacity: nat)
      ensures Ready({}) && this.capacity == capacity && handles == map[] && deleted == [] && held == multiset{}
      ensures nextAddr == 2
      ensures fresh(lists) && fresh(table)
    {
      this.capacity := capacity;
      usage, handles, nextAddr, deleted, held, ages := 0, map[], 2, [], multiset{}, Ages(map[], 0);
      lists := new Lists();
      table := new HandleTable();
    }

    // ----- the steps, field by field -----

    method MoveToUse(a: Addr)
      requires lists.Valid() && a in lists.lru && a !in lists.inUse && 2 <= a
      modifies lists
      ensures lists.Valid() && lists.lru == Without(old(lists.lru), a)
      ensures lists.inUse == Without(old(lists.inUse), a) + [a]
    {
      lists.Remove(a);
      lists.Append(IN_USE, a);
    }

    method MoveToLru(a: Addr)
      requires lists.Valid() && a in lists.inUse && a !in lists.lru && 2 <= a
      modifies lists
      ensures lists.Valid() && lists.inUse == Without(old(lists.inUse), a)
      ensures lists.lru == Without(old(lists.lru), a) + [a]
    {
      lists.Remove(a);
      lists.Append(LRU, a);
    }

    method CountRef(a: Addr)
      requires a in handles && lists.Valid()
      requires handles[a].inCache && handles[a].refs == 1 ==> a in lists.lru && a !in lists.inUse && 2 <= a
      modifies `handles, `held, lists
      ensures State() == Referenced(old(State()), a) && lists.Valid()
    {
      var h := handles[a];
      if h.refs == 1 && h.inCache {
        MoveToUse(a);
      }
      AddHeld(a);
    }

    method AddHeld(a: Addr)
      requires a in handles
      modifies `handles, `held
      ensures handles == old(handles)[a := old(handles)[a].(refs := old(handles)[a].refs + 1)]
      ensures held == old(held) + multiset{a}
    {
      handles := handles[a := handles[a].(refs := handles[a].refs + 1)];
      held := held + multiset{a};
    }

    method Unref(a: Addr)
      requires a in handles && handles[a].refs > 0 && lists.Valid()
      requires handles[a].inCache && handles[a].refs == 2 ==> a in lists.inUse && a !in lists.lru && 2 <= a
      modifies `handles, `deleted, lists
      ensures State() == Unreferenced(old(State()), a) && lists.Valid()
    {
      var h := handles[a];
      if h.refs == 1 {
        deleted := deleted + [a];
        handles := handles - {a};
      } else {
        handles := handles[a := h.(refs := h.refs - 1)];
        if h.inCache && h.refs == 2 {
          MoveToLru(a);
        }
      }
    }

    method DropHeld(a: Addr)
      requires a in handles && handles[a].refs > 0 && lists.Valid()
      requires handles[a].inCache && handles[a].refs == 2 ==> a in lists.inUse && a !in lists.lru && 2 <= a
      modifies `handles, `deleted, `held, `ages, lists
      ensures State() == Released(old(State()), a) && lists.Valid()
      ensures ages == LetGo(old(ages), a)
    {
      held, ages := held - multiset{a}, LetGo(ages, a);
      Unref(a);
    }

    method TakeOut(a: Addr)
      requires a in handles && handles[a].refs > 0 && handles[a].charge <= usage && lists.Valid()
      requires a in lists.lru || a in lists.inUse
      modifies `handles, `deleted, `usage, lists
      ensures State() == Erased(old(State()), a) && lists.Valid()
    {
      Detach(a);
      Unref(a);
    }

    method Detach(a: Addr)
      requires a in handles && handles[a].charge <= usage && lists.Valid()
      requires a in lists.lru || a in lists.inUse
      modifies `handles, `usage, lists
      ensures State() == Detached(old(State()), a) && lists.Valid()
    {
      lists.Remove(a);
      handles := handles[a := handles[a].(inCache := false)];
      usage := usage - handles[a].charge;
    }

    // ----- the operations -----

    /** Facts of the invariant that single steps need. */
    lemma EntryFacts(missing: set<Addr>, a: Addr)
      requires Ready(missing) && a in handles
      ensures handles[a].refs >= 1 && 2 <= a
      ensures handles[a].inCache && handles[a].refs == 1 ==> a in lists.lru && a !in lists.inUse
      ensures handles[a].inCache && handles[a].refs >= 2 ==> a in lists.inUse && a !in lists.lru
      ensures a in missing ==> handles[a].inCache
    {
    }

    lemma RefFacts(a: Addr)
      requires Ready({}) && a in handles
      ensures handles[a].inCache && handles[a].refs == 1 ==> a in lists.lru && a !in lists.inUse && 2 <= a
      ensures InOrder(Referenced(State(), a), {}, ages)
    {
      RefKeeps(State(), a);
      ReferencedAged(State(), a, ages);
      EntryFacts({}, a);
    }

    lemma Readied(c: Cache, missing: set<Addr>)
      requires InOrder(c, missing, ages) && State() == c && lists.Valid() && table.Valid()
      ensures Ready(missing)
    {
    }

    method Ref(a: Addr)
      requires Ready({}) && a in handles
      modifies `handles, `held, lists
      ensures Ready({}) && State() == Referenced(old(State()), a)
    {
      RefFacts(a);
      RefInto(a, Referenced(State(), a));
    }

    method RefInto(a: Addr, ghost c: Cache)
      requires a in handles && lists.Valid() && table.Valid()
      requires handles[a].inCache && handles[a].refs == 1 ==> a in lists.lru && a !in lists.inUse && 2 <= a
      requires c == Referenced(State(), a) && InOrder(c, {}, ages)
      modifies `handles, `held, lists
      ensures Ready({}) && State() == c
    {
      CountRef(a);
      Readied(c, {});
    }

    method Lookup(name: Name) returns (p: Pointer)
      requires Ready({})
      modifies `handles, `held, lists
      ensures Ready({})
      ensures p != Nil ==>
          Cached(old(handles), p.addr) && old(handles)[p.addr].name == name
          && State() == Referenced(old(State()), p.addr)
      ensures p == Nil ==> State() == old(State()) && forall a :: Cached(handles, a) ==> handles[a].name != name
    {
      p := table.Lookup(name);
      if p != Nil {
        Ref(p.addr);
      }
    }

    lemma ReleaseFacts(a: Addr)
      requires Ready({}) && held[a] > 0
      ensures a in handles && handles[a].refs > 0
      ensures handles[a].inCache && handles[a].refs == 2 ==> a in lists.inUse && a !in lists.lru && 2 <= a
      ensures InOrder(Released(State(), a), {}, LetGo(ages, a))
    {
      ReleasedAged(State(), a, ages);
      EntryFacts({}, a);
    }

    method Release(a: Addr)
      requires Ready({}) && held[a] > 0
      modifies `handles, `deleted, `held, `ages, lists
      ensures Ready({}) && old(a in handles && handles[a].refs > 0) && State() == Released(old(State()), a)
      ensures ages.now == old(ages).now + 1 && ages.letGo == old(ages).letGo[a := old(ages).now]
    {
      ReleaseFacts(a);
      ReleaseInto(a, Released(State(), a));
    }

    method ReleaseInto(a: Addr, ghost c: Cache)
      requires a in handles && handles[a].refs > 0 && lists.Valid() && table.Valid()
      requires handles[a].inCache && handles[a].refs == 2 ==> a in lists.inUse && a !in lists.lru && 2 <= a
      requires c == Released(State(), a) && InOrder(c, {}, LetGo(ages, a))
      modifies `handles, `deleted, `held, `ages, lists
      ensures Ready({}) && State() == c && ages == LetGo(old(ages), a)
    {
      DropHeld(a);
      Readied(c, {});
    }

    method FinishErase(p: Pointer) returns (erased: bool)
      requires if p == Nil then Ready({}) else Ready({p.addr})
      modifies `handles, `deleted, `usage, lists
      ensures erased == (p != Nil) && Ready({})
      ensures p == Nil ==> State() == old(State())
      ensures p != Nil ==>
          old(p.addr in handles && handles[p.addr].refs > 0 && handles[p.addr].charge <= usage)
          && State() == Erased(old(State()), p.addr)
    {
      if p != Nil {
        Finish(p.addr);
      }
      erased := p != Nil;
    }

    method Finish(a: Addr)
      requires Ready({a})
      modifies `handles, `deleted, `usage, lists
      ensures old(a in handles && handles[a].refs > 0 && handles[a].charge <= usage)
      ensures State() == Erased(old(State()), a)
      ensures Ready({})
    {
      FinishFacts(a);
      FinishInto(a, Erased(State(), a));
    }

    method FinishInto(a: Addr, ghost c: Cache)
      requires a in handles && handles[a].refs > 0 && handles[a].charge <= usage && lists.Valid() && table.Valid()
      requires a in lists.lru || a in lists.inUse
      requires c == Erased(State(), a) && InOrder(c, {}, ages)
      modifies `handles, `deleted, `usage, lists
      ensures Ready({}) && State() == c
    {
      TakeOut(a);
      Readied(c, {});
    }

    lemma FinishFacts(a: Addr)
      requires Ready({a})
      ensures a in handles && handles[a].refs > 0 && handles[a].charge <= usage && lists.Valid() && table.Valid()
      ensures a in lists.lru || a in lists.inUse
      ensures InOrder(Erased(State(), a), {}, ages)
    {
      ErasedAged(State(), a, ages);
      EntryFacts({a}, a);
    }

    /** Takes the entry of that name out of the table. */
    method Untable(name: Name) returns (p: Pointer)
      requires Ready({})
      modifies table
      ensures p == Nil ==> Ready({}) && State() == old(State())
      ensures p == Nil ==> forall a :: Cached(handles, a) ==> handles[a].name != name
      ensures p != Nil ==>
          Ready({p.addr}) && p.addr in old(table.Members()) && Cached(handles, p.addr) && handles[p.addr].name == name
      ensures p != Nil ==> State() == old(State()).(members := old(table.Members()) - {p.addr})
    {
      ghost var c := State();
      p := table.Remove(name);
      if p != Nil {
        UntabledAged(c, p.addr, ages);
      }
    }

    /** After the call no entry of that name is in the cache; what the entry was is left to who still holds it. */
    method Erase(name: Name) returns (ghost p: Pointer)
      requires Ready({})
      modifies `handles, `deleted, `usage, lists, table
      ensures Ready({}) && usage <= old(usage)
      ensures forall a :: Cached(handles, a) <==> Cached(old(handles), a) && old(handles)[a].name != name
      ensures p == Nil ==> State() == old(State())
      ensures p != Nil ==> old(Cached(handles, p.addr) && handles[p.addr].refs > 0 && handles[p.addr].charge <= usage)
      ensures p != Nil ==> old(handles)[p.addr].name == name && State() == Evicted(old(State()), p.addr)
    {
      NamesApart();
      var erasing := Untable(name);
      p := erasing;
      var erased := FinishErase(erasing);
    }

    lemma NamesApart()
      requires Ready({})
      ensures forall a, b :: Cached(handles, a) && Cached(handles, b) && handles[a].name == handles[b].name ==> a == b
    {
      forall a, b | Cached(handles, a) && Cached(handles, b) && handles[a].name == handles[b].name ensures a == b {
        assert a in table.Members() && b in table.Members();
        table.NamedOnce(a, b);
      }
    }

    /** One round of the eviction loop: the oldest unreferenced entry goes. */
    method EvictOldest()
      requires Ready({}) && lists.lru != []
      modifies `handles, `deleted, `usage, lists, table
      ensures Ready({}) && lists.lru == old(lists.lru)[1..] && deleted == old(deleted) + [old(lists.lru)[0]]
      ensures old(lists.lru[0] in handles) && usage == old(usage) - old(handles[lists.lru[0]].charge)
      ensures lists.inUse == old(lists.inUse) && held == old(held) && handles == old(handles) - {old(lists.lru)[0]}
      ensures Evictable(old(State())) && State() == Evicted(old(State()), old(lists.lru)[0])
    {
      ghost var c := State();
      EvictedKeeps(c);
      EvictedShape(c, c.lru[0]);
      OldestIsEvictable(c);
      NamesApart();
      var oldest := lists.Oldest();
      var p := Untable(handles[oldest].name);
      assert p == To(oldest);
      var erased := FinishErase(p);
    }

    /** The new entry, in the table in the place of an older one of its name, which is left to be finished. */
    method AddCached(a: Addr, name: Name, charge: nat) returns (replaced: Pointer)
      requires lists.Valid() && table.Valid() && a >= 2 && a !in table.Members() && a !in lists.lru && a !in lists.inUse
      modifies `handles, `usage, lists, table
      ensures lists.Valid() && table.Valid()
      ensures handles == old(handles)[a := Handle(name, charge, 2, true)] && usage == old(usage) + charge
      ensures lists.lru == old(lists.lru) && lists.inUse == old(lists.inUse) + [a]
      ensures table.names == old(table.names)[a := name]
      ensures table.Members() == Renewed(old(table.Members()), a, replaced)
      ensures replaced != Nil ==> replaced.addr in old(table.Members()) && Named(old(table.names), replaced.addr, name)
      ensures replaced == Nil ==> forall x :: x in old(table.Members()) ==> !Named(old(table.names), x, name)
    {
      handles := handles[a := Handle(name, charge, 2, true)];
      lists.Append(IN_USE, a);
      usage := usage + charge;
      replaced := table.Insert(a, name);
      RenewedIs(old(table.Members()), a, replaced);
    }

    /** The entry is made, and if the cache is on also entered; the caller's reference is not counted yet. */
    method MakeEntry(name: Name, charge: nat) returns (replaced: Pointer)
      requires lists.Valid() && table.Valid() && nextAddr >= 2 && nextAddr !in table.Members() && nextAddr !in lists.lru
      requires nextAddr !in lists.inUse
      modifies `handles, `usage, lists, table
      ensures lists.Valid() && table.Valid() && lists.lru == old(lists.lru)
      ensures handles == old(handles)[nextAddr := NewHandle(capacity, name, charge)]
      ensures capacity > 0 ==>
          && usage == old(usage) + charge && lists.inUse == old(lists.inUse) + [nextAddr]
          && table.names == old(table.names)[nextAddr := name]
          && table.Members() == Renewed(old(table.Members()), nextAddr, replaced)
      ensures capacity == 0 ==>
          && replaced == Nil && usage == old(usage) && lists.inUse == old(lists.inUse)
          && table.names == old(table.names) && table.Members() == old(table.Members())
      ensures replaced != Nil ==> replaced.addr in old(table.Members()) && Named(old(table.names), replaced.addr, name)
      ensures replaced == Nil && capacity > 0 ==> forall x ::
          x in old(table.Members()) ==> !Named(old(table.names), x, name)
    {
      replaced := Nil;
      if capacity > 0 {
        replaced := AddCached(nextAddr, name, charge);
      } else {
        handles := handles[nextAddr := Handle(name, charge, 1, false)];
      }
    }

    method AddEntry(name: Name, charge: nat) returns (replaced: Pointer)
      requires lists.Valid() && table.Valid() && nextAddr >= 2 && nextAddr !in table.Members() && nextAddr !in lists.lru
      requires nextAddr !in lists.inUse
      modifies `handles, `held, `usage, `nextAddr, lists, table
      ensures lists.Valid() && table.Valid()
      ensures replaced != Nil ==> replaced.addr in old(table.Members()) && Named(old(table.names), replaced.addr, name)
      ensures replaced == Nil && capacity > 0 ==> forall x ::
          x in old(table.Members()) ==> !Named(old(table.names), x, name)
      ensures capacity == 0 ==> replaced == Nil
      ensures State() == CreatedInPlace(old(State()), name, charge, replaced) && lists.lru == old(lists.lru)
    {
      ghost var c := State();
      replaced := MakeEntry(name, charge);
      held := held + multiset{nextAddr};
      nextAddr := nextAddr + 1;
      MadeInPlace(c, State(), name, charge, replaced);
    }

    method Enter(name: Name, charge: nat) returns (a: Addr, replaced: Pointer)
      requires Ready({})
      modifies `handles, `held, `usage, `nextAddr, lists, table
      ensures if replaced == Nil then Ready({}) else Ready({replaced.addr})
      ensures a == old(nextAddr) && a in handles && (replaced != Nil ==> replaced.addr != a)
      ensures handles[a] == NewHandle(capacity, name, charge)
      ensures Takes(old(State()), name, replaced) && State() == CreatedInPlace(old(State()), name, charge, replaced)
    {
      NextIsNew();
      ghost var before := State();
      a := nextAddr;
      replaced := AddEntry(name, charge);
      EnteredAged(before, name, charge, replaced, ages);
    }

    lemma NextIsNew()
      requires Ready({})
      ensures nextAddr >= 2 && nextAddr !in table.Members() && nextAddr !in lists.lru && nextAddr !in lists.inUse
      ensures nextAddr !in handles
    {
    }

    method EvictNext(ghost kept: Addr, ghost made: Handle) returns (oldest: Addr)
      requires Ready({}) && lists.lru != [] && kept in handles && handles[kept] == made
      requires kept !in lists.lru
      modifies `handles, `deleted, `usage, lists, table
      ensures Ready({}) && |lists.lru| < old(|lists.lru|)
      ensures Evictable(old(State())) && State() == Evicted(old(State()), old(lists.lru)[0])
      ensures kept in handles && kept !in lists.lru && handles[kept] == made
      ensures oldest == if lists.lru == [] then LRU else lists.lru[0]
    {
      EvictOldest();
      oldest := lists.Oldest();
    }

    /** The oldest entries of lru_ go while the cache is over its capacity. */
    method EvictWhileOver(ghost kept: Addr, ghost made: Handle)
      requires Ready({}) && kept in handles && handles[kept] == made
      requires kept !in lists.lru
      modifies `handles, `deleted, `usage, lists, table
      ensures Ready({}) && (usage <= capacity || lists.lru == [])
      ensures State() == Trimmed(old(State()))
      ensures kept in handles && handles[kept] == made
    {
      var oldest := lists.Oldest();
      while usage > capacity && oldest != LRU
        invariant oldest == if lists.lru == [] then LRU else lists.lru[0]
        invariant Ready({}) && Trimmed(State()) == Trimmed(old(State()))
        invariant kept in handles && handles[kept] == made && kept !in lists.lru
        decreases |lists.lru|
      {
        oldest := EvictNext(kept, made);
      }
    }

    /**
     * The new entry is in use by the caller, and an older one of its name is out; then the oldest
     * unreferenced entries go until the rest fits, or none is left.
     */
    method Insert(name: Name, charge: nat) returns (a: Addr, ghost replaced: Pointer)
      requires Ready({})
      modifies `handles, `deleted, `held, `usage, `nextAddr, lists, table
      ensures Ready({}) && a == old(nextAddr)
      ensures usage <= capacity || lists.lru == []
      ensures a in handles
      ensures handles[a] == NewHandle(capacity, name, charge)
      ensures Replaces(old(State()), name, charge, replaced)
      ensures State() == Trimmed(Entered(old(State()), name, charge, replaced))
      ensures OldestGone(old(State()), State(), name, ages)
    {
      a, replaced := EnterAndFinish(name, charge);
      EvictWhileOver(a, NewHandle(capacity, name, charge));
    }

    lemma EvictsInOrder(c: Cache, name: Name, charge: nat, replaced: Pointer)
      requires Ready({}) && CacheInv(c, {}) && Replaces(c, name, charge, replaced)
      requires State() == Entered(c, name, charge, replaced)
      ensures OldestGone(c, Trimmed(State()), name, ages)
    {
      InsertedAged(c, name, charge, replaced, ages);
    }

    /** The new entry is there, and an older one of its name is finished. */
    method EnterAndFinish(name: Name, charge: nat) returns (a: Addr, ghost replaced: Pointer)
      requires Ready({})
      modifies `handles, `deleted, `held, `usage, `nextAddr, lists, table
      ensures Ready({}) && a == old(nextAddr) && a !in lists.lru
      ensures a in handles
      ensures handles[a] == NewHandle(capacity, name, charge)
      ensures Replaces(old(State()), name, charge, replaced) && State() == Entered(old(State()), name, charge, replaced)
      ensures OldestGone(old(State()), Trimmed(State()), name, ages)
    {
      ghost var before := State();
      var older;
      a, older := Enter(name, charge);
      replaced := older;
      ghost var c := State();
      var erased := FinishErase(older);
      if older != Nil { ErasedOthers(c, older.addr, a); }
      InUseNotLru(a);
      EvictsInOrder(before, name, charge, replaced);
    }

    lemma InUseNotLru(a: Addr)
      requires Ready({}) && a in handles && (handles[a].refs >= 2 || !handles[a].inCache)
      ensures a !in lists.lru
    {
    }

    method Prune()
      requires Ready({})
      modifies `handles, `deleted, `usage, lists, table
      ensures Ready({}) && lists.lru == [] && lists.inUse == old(lists.inUse) && State() == Pruned(old(State()))
    {
      var oldest := lists.Oldest();
      while oldest != LRU
        invariant oldest == if lists.lru == [] then LRU else lists.lru[0]
        invariant Ready({}) && Pruned(State()) == Pruned(old(State())) && lists.inUse == old(lists.inUse)
        decreases |lists.lru|
      {
        EvictOldest();
        oldest := lists.Oldest();
      }
    }
  }

  lemma ErasedOthers(c: Cache, a: Addr, other: Addr)
    requires a in c.handles && c.handles[a].refs > 0 && c.handles[a].charge <= c.usage && other in c.handles
    requires other != a
    ensures other in Erased(c, a).handles && Erased(c, a).handles[other] == c.handles[other]
    ensures Erased(c, a).held == c.held && Erased(c, a).nextAddr == c.nextAddr && Erased(c, a).capacity == c.capacity
  {
  }

  lemma NoneGone(deleted: seq<Addr>, lru: seq<Addr>)
    ensures lru[0..] == lru && deleted + lru[..0] == deleted
  {
  }
}
