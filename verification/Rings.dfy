/** The two circular doubly linked lists of the cache (util/cache.cc, LRU_Remove and LRU_Append). */
module Rings {

  /** Address of a list head or an entry. */
  type Addr = nat

  const LRU: Addr := 0
  const IN_USE: Addr := 1

  ghost predicate NoDuplicates(s: seq<Addr>) {
    forall i, j :: 0 <= i < j < |s| ==> s[i] != s[j]
  }

  /** The `i`-th stop on the way around: the head at both ends, the list in between. */
  function Stop(head: Addr, list: seq<Addr>, i: nat): Addr
    requires i <= |list| + 1
  {
    if i == 0 || i == |list| + 1 then head else list[i - 1]
  }

  /** Following next_ from the head goes through `list` and back to the head, and prev_ the other way. */
  ghost predicate Ring(head: Addr, list: seq<Addr>, next: map<Addr, Addr>, prev: map<Addr, Addr>) {
    forall i :: 0 <= i <= |list| ==> Linked(Stop(head, list, i), Stop(head, list, i + 1), next, prev)
  }

  predicate Linked(a: Addr, b: Addr, next: map<Addr, Addr>, prev: map<Addr, Addr>) {
    a in next && next[a] == b && b in prev && prev[b] == a
  }

  function Without(list: seq<Addr>, e: Addr): (r: seq<Addr>)
    ensures forall x :: x in r <==> x in list && x != e
    ensures e !in list ==> r == list
  {
    if list == [] then []
    else
      var rest := Without(list[..|list| - 1], e);
      assert list == list[..|list| - 1] + [list[|list| - 1]];
      if list[|list| - 1] == e then rest else rest + [list[|list| - 1]]
  }

  lemma {:induction false} WithoutAt(list: seq<Addr>, k: nat)
    requires NoDuplicates(list) && k < |list|
    ensures Without(list, list[k]) == list[..k] + list[k + 1..]
  {
    var init, last := list[..|list| - 1], list[|list| - 1];
    if k == |list| - 1 {
      assert list[k] !in init;
    } else {
      WithoutAt(init, k);
      assert list[k + 1..] == init[k + 1..] + [last];
    }
  }

  lemma {:induction false} WithoutKeepsNoDuplicates(list: seq<Addr>, e: Addr)
    requires NoDuplicates(list)
    ensures NoDuplicates(Without(list, e))
  {
    if list != [] {
      var init := list[..|list| - 1];
      WithoutKeepsNoDuplicates(init, e);
      assert list[|list| - 1] !in init;
    }
  }

  lemma StopsDiffer(head: Addr, list: seq<Addr>, i: nat, j: nat)
    requires NoDuplicates(list) && head !in list && i < j <= |list| + 1 && !(i == 0 && j == |list| + 1)
    ensures Stop(head, list, i) != Stop(head, list, j)
  {
  }

  lemma RingAt(head: Addr, list: seq<Addr>, next: map<Addr, Addr>, prev: map<Addr, Addr>, i: nat)
    requires Ring(head, list, next, prev) && i <= |list|
    ensures Linked(Stop(head, list, i), Stop(head, list, i + 1), next, prev)
  {
  }

  /** Relinking the neighbours of an entry takes it out of its ring. */
  lemma RemoveFromRing(head: Addr, list: seq<Addr>, next: map<Addr, Addr>, prev: map<Addr, Addr>, k: nat)
    requires NoDuplicates(list) && head !in list && Ring(head, list, next, prev) && k < |list|
    ensures var e := list[k];
      && e in next && e in prev
      && Ring(head, list[..k] + list[k + 1..], next[prev[e] := next[e]], prev[next[e] := prev[e]])
  {
    var e, less := list[k], list[..k] + list[k + 1..];
    RingAt(head, list, next, prev, k);
    RingAt(head, list, next, prev, k + 1);
    forall i | 0 <= i <= |less|
      ensures Linked(Stop(head, less, i), Stop(head, less, i + 1), next[prev[e] := next[e]], prev[next[e] := prev[e]])
    {
      if i < k {
        StopsDiffer(head, list, i, k);
        StopsDiffer(head, list, i + 1, k + 2);
        RingAt(head, list, next, prev, i);
      } else if i > k {
        StopsDiffer(head, list, k, i + 1);
        StopsDiffer(head, list, k + 2, i + 2);
        RingAt(head, list, next, prev, i + 1);
      }
    }
  }

  /** A ring none of whose members' links change stays. */
  lemma OtherRing(head: Addr, list: seq<Addr>, next: map<Addr, Addr>, prev: map<Addr, Addr>, next': map<Addr, Addr>,
                  prev': map<Addr, Addr>)
    requires Ring(head, list, next, prev)
    requires forall a :: (a == head || a in list) && a in next ==> a in next' && next'[a] == next[a]
    requires forall a :: (a == head || a in list) && a in prev ==> a in prev' && prev'[a] == prev[a]
    ensures Ring(head, list, next', prev')
  {
    forall i | 0 <= i <= |list| ensures Linked(Stop(head, list, i), Stop(head, list, i + 1), next', prev') {
      RingAt(head, list, next, prev, i);
      assert 0 < i ==> list[i - 1] in list;
      assert i < |list| ==> list[i] in list;
    }
  }

  lemma AppendToRing(head: Addr, list: seq<Addr>, next: map<Addr, Addr>, prev: map<Addr, Addr>, e: Addr)
    requires NoDuplicates(list) && head !in list && Ring(head, list, next, prev) && e !in list && e != head
    ensures head in prev && prev[head] == Stop(head, list, |list|)
    ensures Ring(head, list + [e], next[e := head][prev[head] := e], prev[e := prev[head]][head := e])
  {
    var more, last := list + [e], Stop(head, list, |list|);
    RingAt(head, list, next, prev, |list|);
    forall i | 0 <= i <= |more|
      ensures Linked(Stop(head, more, i), Stop(head, more, i + 1), next[e := head][last := e],
          prev[e := last][head := e])
    {
      if i < |list| {
        RingAt(head, list, next, prev, i);
        StopsDiffer(head, list, i, |list|);
        StopsDiffer(head, list, i + 1, |list| + 1);
        assert list[i] in list && (0 < i ==> list[i - 1] in list);
      }
    }
  }

  class Lists {
    var next: map<Addr, Addr>
    var prev: map<Addr, Addr>
    ghost var lru: seq<Addr>
    ghost var inUse: seq<Addr>

    ghost predicate Valid()
      reads this
    {
      && NoDuplicates(lru) && NoDuplicates(inUse) && (forall a :: a in lru ==> a !in inUse)
      && LRU !in lru && LRU !in inUse && IN_USE !in lru && IN_USE !in inUse
      && Ring(LRU, lru, next, prev) && Ring(IN_USE, inUse, next, prev)
    }

    constructor ()
      ensures Valid() && lru == [] && inUse == []
    {
      next := map[LRU := LRU, IN_USE := IN_USE];
      prev := map[LRU := LRU, IN_USE := IN_USE];
      lru, inUse := [], [];
    }

    /** lru_.next: the oldest unreferenced entry, or the head when there is none. */
    method Oldest() returns (e: Addr)
      requires Valid()
      ensures e == if lru == [] then LRU else lru[0]
    {
      RingAt(LRU, lru, next, prev, 0);
      e := next[LRU];
    }

    method Remove(e: Addr)
      requires Valid() && (e in lru || e in inUse)
      modifies this
      ensures Valid() && lru == Without(old(lru), e) && inUse == Without(old(inUse), e)
    {
      ghost var inLru := e in lru;
      ghost var list := if inLru then lru else inUse;
      ghost var k :| 0 <= k < |list| && list[k] == e;
      RemoveFromRing(if inLru then LRU else IN_USE, list, next, prev, k);
      WithoutAt(list, k);
      NeighboursInRing(k);
      ghost var next0, prev0 := next, prev;
      next, prev := next[prev[e] := next[e]], prev[next[e] := prev[e]];
      if inLru {
        OtherRing(IN_USE, inUse, next0, prev0, next, prev);
      } else {
        OtherRing(LRU, lru, next0, prev0, next, prev);
      }
      WithoutKeepsNoDuplicates(lru, e);
      WithoutKeepsNoDuplicates(inUse, e);
      lru, inUse := Without(lru, e), Without(inUse, e);
    }

    lemma NeighboursInRing(k: nat)
      requires Valid()
      ensures k < |lru| ==>
          lru[k] in next && lru[k] in prev && OnRing(LRU, lru, next[lru[k]]) && OnRing(LRU, lru, prev[lru[k]])
      ensures k < |inUse| ==>
          inUse[k] in next && inUse[k] in prev && OnRing(IN_USE, inUse, next[inUse[k]])
          && OnRing(IN_USE, inUse, prev[inUse[k]])
    {
      if k < |lru| { RingAt(LRU, lru, next, prev, k); RingAt(LRU, lru, next, prev, k + 1); }
      if k < |inUse| { RingAt(IN_USE, inUse, next, prev, k); RingAt(IN_USE, inUse, next, prev, k + 1); }
    }

    ghost predicate OnRing(head: Addr, list: seq<Addr>, a: Addr) {
      a == head || a in list
    }

    method Append(head: Addr, e: Addr)
      requires Valid() && (head == LRU || head == IN_USE) && e != LRU && e != IN_USE && e !in lru && e !in inUse
      modifies this
      ensures Valid()
      ensures lru == (if head == LRU then old(lru) + [e] else old(lru))
      ensures inUse == (if head == IN_USE then old(inUse) + [e] else old(inUse))
    {
      ghost var list := if head == LRU then lru else inUse;
      AppendToRing(head, list, next, prev, e);
      assert list != [] ==> list[|list| - 1] in list;
      ghost var next0, prev0 := next, prev;
      next := next[e := head];
      prev := prev[e := prev[head]];
      next := next[prev[e] := e];
      prev := prev[next[e] := e];
      if head == LRU {
        OtherRing(IN_USE, inUse, next0, prev0, next, prev);
        lru := lru + [e];
      } else {
        OtherRing(LRU, lru, next0, prev0, next, prev);
        inUse := inUse + [e];
      }
    }
  }
}
