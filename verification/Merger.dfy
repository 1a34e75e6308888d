/** Merging sorted children into one two-way cursor on their union (table/merger.cc). */
module Merger {
  import opened Keys
  import opened Cursors

  datatype Choice = NoChild | Child(index: nat)

  /** `union` has every entry of the lists, in order, and no two entries of equal keys. */
  ghost predicate IsUnion(union: seq<Entry>, lists: seq<seq<Entry>>) {
    && Sorted(union)
    && (forall i :: 0 <= i < |lists| ==> Sorted(lists[i]))
    && (forall i, j {:trigger lists[i][j]} :: 0 <= i < |lists| && 0 <= j < |lists[i]| ==> lists[i][j] in union)
    && (forall e :: e in union ==> InSomeList(lists, e))
    && (forall i, j, e {:trigger e in lists[i], e in lists[j]} ::
         0 <= i < j < |lists| ==> !(e in lists[i] && e in lists[j]))
  }

  ghost predicate InSomeList(lists: seq<seq<Entry>>, e: Entry) {
    exists i :: 0 <= i < |lists| && e in lists[i]
  }

  /** The first `n` entries of the list lie before place `p` of the union, the others at or after it. */
  ghost predicate Cut(list: seq<Entry>, n: nat, union: seq<Entry>, p: nat) {
    && n <= |list| && p <= |union|
    && (forall j, m {:trigger list[j], union[m]} ::
         0 <= j < n && p <= m < |union| ==> Before(list[j].key, union[m].key))
    && (forall j, m {:trigger list[j], union[m]} :: n <= j < |list| && 0 <= m < p ==> Before(union[m].key, list[j].key))
  }

  /** Everything from here up lies after the cursor; all of the list when it has run off the front. */
  function Above(list: seq<Entry>, pos: nat): nat {
    if pos < |list| then pos + 1 else 0
  }

  lemma InUnion(union: seq<Entry>, lists: seq<seq<Entry>>, i: nat, j: nat) returns (m: nat)
    requires IsUnion(union, lists) && i < |lists| && j < |lists[i]|
    ensures m < |union| && union[m] == lists[i][j]
  {
    assert lists[i][j] in union;
    m :| 0 <= m < |union| && union[m] == lists[i][j];
  }

  lemma InLists(union: seq<Entry>, lists: seq<seq<Entry>>, m: nat) returns (i: nat, j: nat)
    requires IsUnion(union, lists) && m < |union|
    ensures i < |lists| && j < |lists[i]| && lists[i][j] == union[m]
  {
    assert union[m] in union;
    assert InSomeList(lists, union[m]);
    i :| 0 <= i < |lists| && union[m] in lists[i];
    j :| 0 <= j < |lists[i]| && lists[i][j] == union[m];
  }

  lemma PlacesOrdered(union: seq<Entry>, k: nat, p: nat)
    requires Sorted(union) && k < |union| && p < |union|
    ensures k < p <==> Before(union[k].key, union[p].key)
  {
    if p < k { assert Before(union[p].key, union[k].key); }
  }

  /** Seeking the key at a place of the union cuts every list there. */
  lemma SeekCuts(list: seq<Entry>, union: seq<Entry>, p: nat)
    requires Sorted(list) && Sorted(union) && p < |union|
    requires forall j :: 0 <= j < |list| ==> list[j] in union
    ensures Cut(list, SeekIndex(list, union[p].key), union, p)
  {
    var n := SeekIndex(list, union[p].key);
    forall j, m | 0 <= j < n && p <= m < |union| ensures Before(list[j].key, union[m].key) {
      assert p < m ==> Before(union[p].key, union[m].key);
    }
    forall j, m | n <= j < |list| && 0 <= m < p ensures Before(union[m].key, list[j].key) {
      var k :| 0 <= k < |union| && union[k] == list[j];
      assert Before(union[m].key, union[p].key);
      PlacesOrdered(union, k, p);
      assert m < k;
    }
  }

  /** So does seeking any target, at the place where the union has it. */
  lemma TargetCuts(list: seq<Entry>, union: seq<Entry>, target: InternalKey)
    requires Sorted(list) && Sorted(union)
    requires forall j :: 0 <= j < |list| ==> list[j] in union
    ensures Cut(list, SeekIndex(list, target), union, SeekIndex(union, target))
  {
    var n, p := SeekIndex(list, target), SeekIndex(union, target);
    forall j, m | 0 <= j < n && p <= m < |union| ensures Before(list[j].key, union[m].key) {
      var k :| 0 <= k < |union| && union[k] == list[j];
      assert k < m;
    }
    forall j, m | n <= j < |list| && 0 <= m < p ensures Before(union[m].key, list[j].key) {
      var k :| 0 <= k < |union| && union[k] == list[j];
      assert m < k;
    }
  }

  /** At a cut, the list's next entry lies at or after the place, its previous one before it. */
  lemma CutSides(union: seq<Entry>, lists: seq<seq<Entry>>, i: nat, n: nat, p: nat, j: nat) returns (m: nat)
    requires IsUnion(union, lists) && i < |lists| && Cut(lists[i], n, union, p) && j < |lists[i]|
    ensures m < |union| && union[m] == lists[i][j] && (j < n <==> m < p)
  {
    m := InUnion(union, lists, i, j);
  }

  lemma InOrder(list: seq<Entry>, a: nat, b: nat)
    requires Sorted(list) && a < |list| && b < |list|
    ensures a < b ==> Before(list[a].key, list[b].key)
  {
  }

  /** The entry at a place of the union is the next one of the list that holds it. */
  lemma NextAtCut(union: seq<Entry>, lists: seq<seq<Entry>>, cuts: seq<nat>, p: nat) returns (i: nat)
    requires IsUnion(union, lists) && |cuts| == |lists| && p < |union|
    requires forall k :: 0 <= k < |lists| ==> Cut(lists[k], cuts[k], union, p)
    ensures i < |lists| && cuts[i] < |lists[i]| && lists[i][cuts[i]] == union[p]
  {
    var j;
    i, j := InLists(union, lists, p);
    var m := CutSides(union, lists, i, cuts[i], p, j);
    var m' := CutSides(union, lists, i, cuts[i], p, cuts[i]);
    InOrder(lists[i], cuts[i], j);
  }

  lemma PreviousAtCut(union: seq<Entry>, lists: seq<seq<Entry>>, cuts: seq<nat>, p: nat) returns (i: nat)
    requires IsUnion(union, lists) && |cuts| == |lists| && 0 < p <= |union|
    requires forall k :: 0 <= k < |lists| ==> Cut(lists[k], cuts[k], union, p)
    ensures i < |lists| && 0 < cuts[i] <= |lists[i]| && lists[i][cuts[i] - 1] == union[p - 1]
  {
    var j;
    i, j := InLists(union, lists, p - 1);
    var m := CutSides(union, lists, i, cuts[i], p, j);
    var m' := CutSides(union, lists, i, cuts[i], p, cuts[i] - 1);
    InOrder(lists[i], j, cuts[i] - 1);
  }

  lemma GreatestBehind(union: seq<Entry>, lists: seq<seq<Entry>>, cuts: seq<nat>, p: nat, c: nat)
    requires IsUnion(union, lists) && |cuts| == |lists| && p <= |union| && c < |lists|
    requires forall k :: 0 <= k < |lists| ==> Cut(lists[k], cuts[k], union, p)
    requires 0 < cuts[c] <= |lists[c]|
    requires forall j ::
        0 <= j < |lists| && 0 < cuts[j] <= |lists[j]| ==> !Before(lists[c][cuts[c] - 1].key, lists[j][cuts[j] - 1].key)
    ensures 0 < p && lists[c][cuts[c] - 1] == union[p - 1]
  {
    var m := CutSides(union, lists, c, cuts[c], p, cuts[c] - 1);
    var i := PreviousAtCut(union, lists, cuts, p);
    PlacesOrdered(union, m, p - 1);
  }

  lemma NoneBehind(union: seq<Entry>, lists: seq<seq<Entry>>, cuts: seq<nat>, p: nat)
    requires IsUnion(union, lists) && |cuts| == |lists| && p <= |union|
    requires forall k :: 0 <= k < |lists| ==> Cut(lists[k], cuts[k], union, p) && cuts[k] == 0
    ensures p == 0
  {
    if 0 < p { var i := PreviousAtCut(union, lists, cuts, p); }
  }

  /** Stepping over an entry of another list does not move a cut. */
  lemma CutStays(union: seq<Entry>, lists: seq<seq<Entry>>, i: nat, c: nat, n: nat, p: nat)
    requires IsUnion(union, lists) && i < |lists| && c < |lists| && i != c && p < |union| && union[p] in lists[c]
    ensures Cut(lists[i], n, union, p) <==> Cut(lists[i], n, union, p + 1)
  {
    forall j | 0 <= j < |lists[i]|
      ensures Before(lists[i][j].key, union[p].key) || Before(union[p].key, lists[i][j].key)
    {
      var m := InUnion(union, lists, i, j);
      assert lists[i][j] in lists[i] && m != p;
      assert m < p ==> Before(union[m].key, union[p].key);
      assert p < m ==> Before(union[p].key, union[m].key);
    }
    if Cut(lists[i], n, union, p) {
      forall j | n <= j < |lists[i]| ensures Before(union[p].key, lists[i][j].key) {
        var m := CutSides(union, lists, i, n, p, j);
        assert lists[i][j] in lists[i];
      }
    }
    if Cut(lists[i], n, union, p + 1) {
      forall j | 0 <= j < n ensures Before(lists[i][j].key, union[p].key) {
        var m := CutSides(union, lists, i, n, p + 1, j);
        assert lists[i][j] in lists[i];
      }
    }
  }

  predicate SameKey(a: InternalKey, b: InternalKey) {
    !Before(a, b) && !Before(b, a)
  }

  lemma CutMoves(union: seq<Entry>, list: seq<Entry>, n: nat, p: nat)
    requires Sorted(union) && Sorted(list) && p < |union| && n < |list| && SameKey(list[n].key, union[p].key)
    ensures Cut(list, n, union, p) <==> Cut(list, n + 1, union, p + 1)
    ensures Cut(list, n, union, p)
  {
    assert forall m :: p < m < |union| ==> Before(union[p].key, union[m].key);
    assert forall m :: 0 <= m < p ==> Before(union[m].key, union[p].key);
    assert forall j :: n < j < |list| ==> Before(list[n].key, list[j].key);
    assert forall j :: 0 <= j < n ==> Before(list[j].key, list[n].key);
  }

  // ----- the iterator -----

  class MergingIterator {
    const children: seq<ListCursor>
    var current: Choice
    var direction: Direction
    ghost const union: seq<Entry>
    // the place in the union; its length when the iterator is not valid
    ghost var place: nat

    ghost function Lists(): seq<seq<Entry>> {
      seq(|children|, i requires 0 <= i < |children| => children[i].list)
    }

    ghost predicate Shape() {
      && IsUnion(union, Lists())
      && forall i, j {:trigger children[i], children[j]} :: 0 <= i < j < |children| ==> children[i] != children[j]
    }

    ghost predicate AllFit()
      reads children
    {
      forall i :: 0 <= i < |children| ==> children[i].Fits()
    }

    /** Children stand at the first entry at or after place `p`. */
    ghost predicate Ahead(p: nat)
      reads children
    {
      forall i :: 0 <= i < |children| ==> Cut(children[i].list, children[i].pos, union, p)
    }

    /** Children stand at the last entry before place `p`. */
    ghost predicate Behind(p: nat)
      reads children
    {
      forall i :: 0 <= i < |children| ==> Cut(children[i].list, Above(children[i].list, children[i].pos), union, p)
    }

    ghost predicate Ready()
      reads this, children
    {
      && Shape() && AllFit() && place <= |union|
      && (current.NoChild? <==> place == |union|)
      && (current.Child? ==>
           current.index < |children| && children[current.index].Valid()
           && children[current.index].Current() == union[place])
      && (current.Child? ==> if direction == Forward then Ahead(place) else Behind(place + 1))
    }

    predicate Valid()
      reads this
    {
      current.Child?
    }

    method Current() returns (e: Entry)
      requires Ready() && Valid()
      ensures place < |union| && e == union[place]
    {
      e := children[current.index].Current();
    }

    method FindSmallest(ghost p: nat)
      requires Shape() && AllFit() && p <= |union| && Ahead(p) && direction == Forward
      modifies this
      ensures Ready() && place == p && direction == Forward
    {
      var smallest := NoChild;
      for i := 0 to |children|
        invariant smallest.NoChild? ==> forall j :: 0 <= j < i ==> !children[j].Valid()
        invariant smallest.Child? ==> smallest.index < i && children[smallest.index].Valid()
        invariant smallest.Child? ==> forall j ::
            0 <= j < i && children[j].Valid() ==>
            !Before(children[j].Current().key, children[smallest.index].Current().key)
        invariant unchanged(this) && unchanged(children)
      {
        var child := children[i];
        if child.Valid() {
          if smallest.NoChild? {
            smallest := Child(i);
          } else if Before(child.Current().key, children[smallest.index].Current().key) {
            smallest := Child(i);
          }
        }
      }
      current := smallest;
      place := p;
      SmallestIsPlace(p);
    }

    /** The least entry at the front of the children is the union's entry at the cut. */
    lemma SmallestIsPlace(p: nat)
      requires Shape() && AllFit() && p <= |union| && Ahead(p)
      requires current.NoChild? ==> forall j :: 0 <= j < |children| ==> !children[j].Valid()
      requires current.Child? ==> current.index < |children| && children[current.index].Valid()
      requires current.Child? ==> forall j ::
          0 <= j < |children| && children[j].Valid() ==>
          !Before(children[j].Current().key, children[current.index].Current().key)
      ensures current.NoChild? <==> p == |union|
      ensures current.Child? ==> children[current.index].Current() == union[p]
    {
      var cuts := seq(|children|, i requires 0 <= i < |children| reads children => children[i].pos);
      if p < |union| {
        var i := NextAtCut(union, Lists(), cuts, p);
        assert children[i].Valid();
      }
      if current.Child? {
        var c := current.index;
        var m := CutSides(union, Lists(), c, cuts[c], p, cuts[c]);
        PlacesOrdered(union, p, m);
      }
    }

    method FindLargest(ghost p: nat)
      requires Shape() && AllFit() && p <= |union| && Behind(p) && direction == Reverse
      modifies this
      ensures Ready() && place == (if p == 0 then |union| else p - 1) && direction == Reverse
    {
      var largest := NoChild;
      for i := |children| downto 0
        invariant largest.NoChild? ==> forall j :: i <= j < |children| ==> !children[j].Valid()
        invariant largest.Child? ==> i <= largest.index < |children| && children[largest.index].Valid()
        invariant largest.Child? ==> forall j ::
            i <= j < |children| && children[j].Valid() ==>
            !Before(children[largest.index].Current().key, children[j].Current().key)
        invariant unchanged(this) && unchanged(children)
      {
        var child := children[i];
        if child.Valid() {
          if largest.NoChild? {
            largest := Child(i);
          } else if Before(children[largest.index].Current().key, child.Current().key) {
            largest := Child(i);
          }
        }
      }
      current := largest;
      place := if p == 0 then |union| else p - 1;
      LargestIsPlace(p);
    }

    lemma LargestIsPlace(p: nat)
      requires Shape() && AllFit() && p <= |union| && Behind(p)
      requires current.NoChild? ==> forall j :: 0 <= j < |children| ==> !children[j].Valid()
      requires current.Child? ==> current.index < |children| && children[current.index].Valid()
      requires current.Child? ==> forall j ::
          0 <= j < |children| && children[j].Valid() ==>
          !Before(children[current.index].Current().key, children[j].Current().key)
      ensures current.NoChild? <==> p == 0
      ensures current.Child? ==> children[current.index].Current() == union[p - 1]
    {
      if current.Child? {
        SomeLargest(p);
      } else {
        NoLargest(p);
      }
    }

    lemma NoLargest(p: nat)
      requires Shape() && AllFit() && p <= |union| && Behind(p)
      requires forall j :: 0 <= j < |children| ==> !children[j].Valid()
      ensures p == 0
    {
      AbovesCut(p);
      NoneBehind(union, Lists(), Aboves(), p);
    }

    lemma SomeLargest(p: nat)
      requires Shape() && AllFit() && p <= |union| && Behind(p)
      requires current.Child? && current.index < |children| && children[current.index].Valid()
      requires forall j ::
          0 <= j < |children| && children[j].Valid() ==>
          !Before(children[current.index].Current().key, children[j].Current().key)
      ensures p > 0 && children[current.index].Current() == union[p - 1]
    {
      var lists, cuts, c := Lists(), Aboves(), current.index;
      GreatestChild();
      CutsOnly(p);
      GreatestBehind(union, lists, cuts, p, c);
    }

    lemma CutsOnly(p: nat)
      requires AllFit() && Behind(p)
      ensures |Aboves()| == |Lists()| == |children|
      ensures forall k :: 0 <= k < |Lists()| ==> Cut(Lists()[k], Aboves()[k], union, p)
    {
      AbovesCut(p);
    }

    lemma GreatestChild()
      requires AllFit() && current.Child? && current.index < |children| && children[current.index].Valid()
      requires forall j ::
          0 <= j < |children| && children[j].Valid() ==>
          !Before(children[current.index].Current().key, children[j].Current().key)
      ensures var c := current.index;
        && 0 < Aboves()[c] <= |Lists()[c]| && children[c].Current() == Lists()[c][Aboves()[c] - 1]
        && forall k ::
             0 <= k < |Lists()| && 0 < Aboves()[k] <= |Lists()[k]| ==>
             !Before(Lists()[c][Aboves()[c] - 1].key, Lists()[k][Aboves()[k] - 1].key)
    {
      var c := current.index;
      forall k | 0 <= k < |children| && 0 < Aboves()[k] <= |Lists()[k]|
        ensures !Before(Lists()[c][Aboves()[c] - 1].key, Lists()[k][Aboves()[k] - 1].key)
      {
        assert children[k].Valid() && children[k].Current() == Lists()[k][Aboves()[k] - 1];
      }
    }

    lemma AbovesCut(p: nat)
      requires AllFit() && Behind(p)
      ensures forall k :: 0 <= k < |children| ==> Cut(Lists()[k], Aboves()[k], union, p)
      ensures forall k ::
          0 <= k < |children| ==> Aboves()[k] <= |Lists()[k]| && (0 < Aboves()[k] <==> children[k].Valid())
    {
    }

    ghost function Aboves(): seq<nat>
      reads children
    {
      seq(|children|, i requires 0 <= i < |children| reads children => Above(children[i].list, children[i].pos))
    }

    method SeekToFirst()
      requires Shape() && AllFit()
      modifies this, children
      ensures Ready() && place == 0
    {
      for i := 0 to |children|
        invariant AllFit() && unchanged(this)
        invariant forall j :: 0 <= j < i ==> children[j].pos == 0
      {
        children[i].SeekToFirst();
      }
      direction := Forward;
      FindSmallest(0);
    }

    method SeekToLast()
      requires Shape() && AllFit()
      modifies this, children
      ensures Ready() && place == if union == [] then 0 else |union| - 1
    {
      for i := 0 to |children|
        invariant AllFit() && unchanged(this)
        invariant forall j :: 0 <= j < i ==> Above(children[j].list, children[j].pos) == |children[j].list|
      {
        children[i].SeekToLast();
      }
      direction := Reverse;
      FindLargest(|union|);
    }

    method Seek(target: InternalKey)
      requires Shape() && AllFit()
      modifies this, children
      ensures Ready() && place == SeekIndex(union, target)
    {
      for i := 0 to |children|
        invariant AllFit() && unchanged(this)
        invariant forall j :: 0 <= j < i ==> children[j].pos == SeekIndex(children[j].list, target)
      {
        children[i].Seek(target);
      }
      forall i | 0 <= i < |children| ensures Cut(children[i].list, children[i].pos, union, SeekIndex(union, target)) {
        assert Lists()[i] == children[i].list;
        ListInUnion(union, Lists(), i);
        TargetCuts(children[i].list, union, target);
      }
      direction := Forward;
      FindSmallest(SeekIndex(union, target));
    }

    /** The current entry, and who holds it. */
    ghost predicate Holds()
      reads this
    {
      Shape() && current.Child? && current.index < |children| && place < |union|
          && union[place] in children[current.index].list
    }

    lemma OtherStays(i: nat, n: nat)
      requires Holds() && i < |children| && i != current.index
      ensures Cut(children[i].list, n, union, place) <==> Cut(children[i].list, n, union, place + 1)
    {
      assert Lists()[i] == children[i].list && Lists()[current.index] == children[current.index].list;
      CutStays(union, Lists(), i, current.index, n, place);
    }

    lemma SeekChild(i: nat)
      requires Shape() && AllFit() && place < |union| && i < |children|
      ensures Cut(children[i].list, SeekIndex(children[i].list, union[place].key), union, place)
    {
      assert Lists()[i] == children[i].list;
      ListInUnion(union, Lists(), i);
      SeekCuts(children[i].list, union, place);
    }

    method PlaceAfter(i: nat, key: InternalKey)
      requires Holds() && AllFit() && i < |children| && i != current.index && key == union[place].key
      modifies children[i]
      ensures children[i].Fits() && Cut(children[i].list, children[i].pos, union, place + 1)
    {
      SeekChild(i);
      children[i].Seek(key);
      if children[i].Valid() && SameKey(key, children[i].Current().key) {
        CutMoves(union, children[i].list, children[i].pos, place);
        children[i].Next();
      } else {
        OtherStays(i, children[i].pos);
      }
    }

    method PlaceBefore(i: nat, key: InternalKey)
      requires Holds() && AllFit() && i < |children| && i != current.index && key == union[place].key
      modifies children[i]
      ensures children[i].Fits() && Cut(children[i].list, Above(children[i].list, children[i].pos), union, place)
    {
      SeekChild(i);
      children[i].Seek(key);
      if children[i].Valid() {
        children[i].Prev();
      } else {
        children[i].SeekToLast();
      }
    }

    /** Put every child but the current one at its first entry after the current key. */
    method TurnForward()
      requires Ready() && Valid() && direction == Reverse
      modifies this`direction, children
      ensures Ready() && direction == Forward
    {
      var key := children[current.index].Current().key;
      for i := 0 to |children|
        invariant AllFit() && unchanged(this) && Holds()
        invariant children[current.index].pos == old(children[current.index].pos)
        invariant forall j ::
            0 <= j < i && j != current.index ==> Cut(children[j].list, children[j].pos, union, place + 1)
      {
        if i != current.index {
          PlaceAfter(i, key);
        }
      }
      forall j | 0 <= j < |children| ensures Cut(children[j].list, children[j].pos, union, place) {
        if j == current.index {
          CutMoves(union, children[j].list, children[j].pos, place);
        } else {
          OtherStays(j, children[j].pos);
        }
      }
      direction := Forward;
    }

    /** Put every child but the current one at its last entry before the current key. */
    method TurnBackward()
      requires Ready() && Valid() && direction == Forward
      modifies this`direction, children
      ensures Ready() && direction == Reverse
    {
      var key := children[current.index].Current().key;
      for i := 0 to |children|
        invariant AllFit() && unchanged(this) && Holds()
        invariant children[current.index].pos == old(children[current.index].pos)
        invariant forall j ::
            0 <= j < i && j != current.index ==>
            Cut(children[j].list, Above(children[j].list, children[j].pos), union, place)
      {
        if i != current.index {
          PlaceBefore(i, key);
        }
      }
      forall j | 0 <= j < |children|
        ensures Cut(children[j].list, Above(children[j].list, children[j].pos), union, place + 1)
      {
        if j == current.index {
          CutMoves(union, children[j].list, children[j].pos, place);
        } else {
          OtherStays(j, Above(children[j].list, children[j].pos));
        }
      }
      direction := Reverse;
    }

    /** Once the current child has taken its step, every child is cut behind the current key. */
    lemma CutsAfter()
      requires Ready() && Valid() && direction == Forward
      ensures forall j ::
          0 <= j < |children| && j != current.index ==> Cut(children[j].list, children[j].pos, union, place + 1)
      ensures var c := children[current.index]; Cut(c.list, c.pos + 1, union, place + 1)
    {
      forall j | 0 <= j < |children| && j != current.index
        ensures Cut(children[j].list, children[j].pos, union, place + 1)
      {
        OtherStays(j, children[j].pos);
      }
      CutMoves(union, children[current.index].list, children[current.index].pos, place);
    }

    /** Once the current child has taken its step back, every child is cut before the current key. */
    lemma CutsBefore()
      requires Ready() && Valid() && direction == Reverse
      ensures forall j ::
          0 <= j < |children| && j != current.index ==>
          Cut(children[j].list, Above(children[j].list, children[j].pos), union, place)
      ensures var c := children[current.index]; Cut(c.list, c.pos, union, place)
    {
      forall j | 0 <= j < |children| && j != current.index
        ensures Cut(children[j].list, Above(children[j].list, children[j].pos), union, place)
      {
        OtherStays(j, Above(children[j].list, children[j].pos));
      }
      CutMoves(union, children[current.index].list, children[current.index].pos, place);
    }

    method Next()
      requires Ready() && Valid()
      modifies this, children
      ensures Ready() && place == old(place) + 1
    {
      if direction != Forward {
        TurnForward();
      }
      CutsAfter();
      children[current.index].Next();
      FindSmallest(place + 1);
    }

    method Prev()
      requires Ready() && Valid()
      modifies this, children
      ensures Ready() && place == if old(place) == 0 then |union| else old(place) - 1
    {
      if direction != Reverse {
        TurnBackward();
      }
      CutsBefore();
      children[current.index].Prev();
      FindLargest(place);
    }
  }

  lemma ListInUnion(union: seq<Entry>, lists: seq<seq<Entry>>, i: nat)
    requires IsUnion(union, lists) && i < |lists|
    ensures Sorted(lists[i]) && forall j :: 0 <= j < |lists[i]| ==> lists[i][j] in union
  {
  }
}
