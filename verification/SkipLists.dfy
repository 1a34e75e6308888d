/** The memtable's skip list (db/skiplist.h): one inserter, any number of readers between its pointer stores. */
module SkipLists {
  import Keys

  type Key = real

  const MAX_HEIGHT: nat := 12

  /** A pointer to a node; nodes other than the head are told apart by their keys. */
  datatype Ptr = Null | Head | At(key: Key)

  /** next_[level] of every node that has set it. */
  type Links = map<Ptr, Ptr>

  predicate Precedes(x: Ptr, k: Key) {
    x.Head? || (x.At? && x.key < k)
  }

  /** `n` points to the first of `keys` after `x`, or nowhere if there is none. */
  ghost predicate IsNext(keys: set<Key>, x: Ptr, n: Ptr) {
    match n
    case Null => forall k :: k in keys ==> !Precedes(x, k)
    case At(m) => m in keys && Precedes(x, m) && forall k :: k in keys && Precedes(x, k) ==> m <= k
    case Head => false
  }

  /** The links of a level form the sorted list of `keys`, from the head to null. */
  ghost predicate LevelInv(keys: set<Key>, next: Links) {
    && Head in next && IsNext(keys, Head, next[Head])
    && forall k :: k in keys ==> At(k) in next && IsNext(keys, At(k), next[At(k)])
  }

  /** All levels are sorted lists, each one part of the one below; nothing is as high as `maxHeight`. */
  ghost predicate LevelsInv(next: seq<Links>, linked: seq<set<Key>>, maxHeight: nat) {
    && |next| == |linked| == MAX_HEIGHT && 1 <= maxHeight <= MAX_HEIGHT
    && (forall l :: 0 <= l < MAX_HEIGHT ==> LevelInv(linked[l], next[l]))
    && (forall l :: 0 <= l < MAX_HEIGHT - 1 ==> linked[l + 1] <= linked[l])
    && (forall l :: maxHeight <= l < MAX_HEIGHT ==> linked[l] == {})
  }

  /** `p` is the last node before `key`. */
  ghost predicate IsPrev(keys: set<Key>, p: Ptr, key: Key) {
    && (p.Head? || (p.At? && p.key in keys && p.key < key))
    && forall k :: k in keys && Precedes(p, k) ==> k >= key
  }

  /** `r` is the first node at or after `key`. */
  ghost predicate IsFirstFrom(keys: set<Key>, key: Key, r: Ptr) {
    match r
    case Null => forall k :: k in keys ==> k < key
    case At(m) => m in keys && m >= key && forall k :: k in keys && k >= key ==> m <= k
    case Head => false
  }

  // ----- the two stores of an insertion at one level -----

  /** After the node's own link is set, the level's list is as before. */
  lemma OwnLinkKeeps(keys: set<Key>, next: Links, p: Ptr, key: Key)
    requires LevelInv(keys, next) && key !in keys && p in next
    ensures LevelInv(keys, next[At(key) := next[p]])
  {
  }

  /** After the predecessor's link is set, the key is in the list. */
  lemma PublishKeeps(keys: set<Key>, next: Links, p: Ptr, key: Key)
    requires LevelInv(keys, next) && key !in keys && IsPrev(keys, p, key)
    requires At(key) in next && p in next && next[At(key)] == next[p]
    ensures LevelInv(keys + {key}, next[p := At(key)])
  {
    var after, more := next[p := At(key)], keys + {key};
    assert IsNext(keys, p, next[p]);
    forall k | k in more ensures At(k) in after && IsNext(more, At(k), after[At(k)]) {
      if k == key {
        NextOfNew(keys, p, next[p], key);
      } else if At(k) == p {
        NextOfPrev(keys, p, key);
      } else {
        OthersNext(keys, At(k), next[At(k)], p, key);
      }
    }
    if p == Head {
      NextOfPrev(keys, p, key);
    } else {
      OthersNext(keys, Head, next[Head], p, key);
    }
  }

  lemma NextOfPrev(keys: set<Key>, p: Ptr, key: Key)
    requires IsPrev(keys, p, key)
    ensures IsNext(keys + {key}, p, At(key))
  {
  }

  lemma NextOfNew(keys: set<Key>, p: Ptr, n: Ptr, key: Key)
    requires IsNext(keys, p, n) && IsPrev(keys, p, key) && key !in keys
    ensures IsNext(keys + {key}, At(key), n)
  {
  }

  lemma OthersNext(keys: set<Key>, x: Ptr, n: Ptr, p: Ptr, key: Key)
    requires IsNext(keys, x, n) && IsPrev(keys, p, key) && x != p && (x.Head? || (x.At? && x.key in keys))
    requires key !in keys
    ensures IsNext(keys + {key}, x, n)
  {
    if x.At? && x.key > key {
    } else {
      assert p.At? && Precedes(x, p.key);
    }
  }

  // ----- searches, one pointer at a time -----

  /** What a search is for: the first node from a key on, the last node before a key, or the last node of all. */
  datatype Goal = FirstFrom(key: Key) | LastBefore(key: Key) | LastOfAll

  /** Whether the search goes on past a node with key `k`. */
  predicate Passes(goal: Goal, k: Key) {
    goal.LastOfAll? || k < goal.key
  }

  /** A search is at `x` on `level`, a node that it may have passed. */
  ghost predicate SearchAt(linked: seq<set<Key>>, x: Ptr, level: nat, goal: Goal) {
    level < |linked| && (x.Head? || (x.At? && x.key in linked[level] && Passes(goal, x.key)))
  }

  /** Where no next node is to be passed, none of the level ahead is. */
  lemma NothingToPass(keys: set<Key>, x: Ptr, goal: Goal, n: Ptr)
    requires IsNext(keys, x, n) && (n.Null? || (n.At? && !Passes(goal, n.key)))
    ensures forall k :: k in keys && Precedes(x, k) ==> !Passes(goal, k)
  {
  }

  /** Where no next node comes before the key, this is its predecessor on the level; on level 0 the search is over. */
  lemma SearchStops(keys: set<Key>, x: Ptr, key: Key, n: Ptr)
    requires (x.Head? || (x.At? && x.key in keys && x.key < key)) && IsNext(keys, x, n)
    requires n.Null? || (n.At? && n.key >= key)
    ensures IsPrev(keys, x, key) && IsFirstFrom(keys, key, n)
  {
    forall k | k in keys && k >= key ensures Precedes(x, k) {}
  }

  ghost function Ahead(keys: set<Key>, x: Ptr): set<Key> {
    set k | k in keys && Precedes(x, k)
  }

  lemma NestedAt(linked: seq<set<Key>>, l: nat, m: nat)
    requires |linked| == MAX_HEIGHT && l <= m < MAX_HEIGHT
    requires forall l :: 0 <= l < MAX_HEIGHT - 1 ==> linked[l + 1] <= linked[l]
    ensures linked[m] <= linked[l]
    decreases m - l
  {
    if l < m { NestedAt(linked, l + 1, m); }
  }

  lemma StepsAhead(keys: set<Key>, x: Ptr, m: Key)
    requires m in keys && Precedes(x, m)
    ensures |Ahead(keys, At(m))| < |Ahead(keys, x)|
  {
    assert m in Ahead(keys, x) && m !in Ahead(keys, At(m));
    assert Ahead(keys, At(m)) <= Ahead(keys, x) - {m};
    Keys.SubsetSize(Ahead(keys, At(m)), Ahead(keys, x) - {m});
  }

  /** Both stores at one level keep all levels as they should be. */
  lemma LinkedKeeps(next: seq<Links>, linked: seq<set<Key>>, maxHeight: nat, i: nat, p: Ptr, key: Key)
    requires LevelsInv(next, linked, maxHeight) && i < maxHeight && key !in linked[i] && IsPrev(linked[i], p, key)
    requires i > 0 ==> key in linked[i - 1]
    ensures p in next[i]
    ensures var own := next[i][At(key) := next[i][p]];
      LevelsInv(next[i := own[p := At(key)]], linked[i := linked[i] + {key}], maxHeight)
  {
    var own := next[i][At(key) := next[i][p]];
    assert LevelInv(linked[i], next[i]);
    OwnLinkKeeps(linked[i], next[i], p, key);
    PublishKeeps(linked[i], own, p, key);
    LevelReplaced(next, linked, maxHeight, i, own[p := At(key)], linked[i] + {key});
  }

  lemma LevelReplaced(next: seq<Links>, linked: seq<set<Key>>, maxHeight: nat, i: nat, links: Links, keys: set<Key>)
    requires LevelsInv(next, linked, maxHeight) && i < maxHeight && LevelInv(keys, links)
    requires linked[i] <= keys && (i > 0 ==> keys <= linked[i - 1])
    ensures LevelsInv(next[i := links], linked[i := keys], maxHeight)
  {
    var next', linked' := next[i := links], linked[i := keys];
    forall l {:trigger next'[l]} | 0 <= l < MAX_HEIGHT ensures LevelInv(linked'[l], next'[l]) {
      LevelAt(next, linked, i, links, keys, l);
      assert l != i ==> LevelInv(linked[l], next[l]);
    }
  }

  lemma LevelAt(next: seq<Links>, linked: seq<set<Key>>, i: nat, links: Links, keys: set<Key>, l: nat)
    requires i < |next| == |linked| && l < |next|
    ensures next[i := links][l] == (if l == i then links else next[l])
    ensures linked[i := keys][l] == (if l == i then keys else linked[l])
  {
  }

  class SkipList {
    var next: seq<Links>
    var maxHeight: nat
    ghost var linked: seq<set<Key>>

    ghost predicate Valid()
      reads this
    {
      LevelsInv(next, linked, maxHeight)
    }

    ghost function Keys(): set<Key>
      requires Valid()
      reads this
    {
      linked[0]
    }

    constructor ()
      ensures Valid() && Keys() == {}
    {
      next := seq(MAX_HEIGHT, _ => map[Head := Null]);
      maxHeight := 1;
      linked := seq(MAX_HEIGHT, _ => {});
    }

    method FindGreaterOrEqual(key: Key) returns (r: Ptr, prev: seq<Ptr>)
      requires Valid()
      ensures IsFirstFrom(Keys(), key, r)
      ensures |prev| == maxHeight && forall l :: 0 <= l < maxHeight ==> IsPrev(linked[l], prev[l], key)
    {
      prev := seq(maxHeight, _ => Head);
      var x, level := Head, maxHeight - 1;
      while true
        invariant 0 <= level < maxHeight == |prev|
        invariant SearchAt(linked, x, level, FirstFrom(key))
        invariant forall l :: level < l < maxHeight ==> IsPrev(linked[l], prev[l], key)
        decreases level, |Ahead(linked[0], x)|
      {
        assert LevelInv(linked[level], next[level]);
        var n := next[level][x];
        NestedAt(linked, 0, level);
        if n.At? && n.key < key {
          StepsAhead(linked[0], x, n.key);
          x := n;
        } else {
          SearchStops(linked[level], x, key, n);
          prev := prev[level := x];
          if level == 0 {
            return n, prev;
          }
          level := level - 1;
        }
      }
      assert false;
    }

    method FindLessThan(key: Key) returns (x: Ptr)
      requires Valid()
      ensures IsPrev(Keys(), x, key)
    {
      x := Head;
      var level := maxHeight - 1;
      while true
        invariant 0 <= level < maxHeight && SearchAt(linked, x, level, LastBefore(key))
        decreases level, |Ahead(linked[0], x)|
      {
        assert LevelInv(linked[level], next[level]);
        var n := next[level][x];
        NestedAt(linked, 0, level);
        if n.Null? || n.key >= key {
          if level == 0 {
            SearchStops(linked[0], x, key, n);
            return;
          }
          level := level - 1;
        } else {
          StepsAhead(linked[0], x, n.key);
          x := n;
        }
      }
      assert false;
    }

    /** The last node, or the head of an empty list. */
    method FindLast() returns (x: Ptr)
      requires Valid()
      ensures if Keys() == {} then x == Head else x.At? && x.key in Keys() && forall k :: k in Keys() ==> k <= x.key
    {
      x := Head;
      var level := maxHeight - 1;
      while true
        invariant 0 <= level < maxHeight && SearchAt(linked, x, level, LastOfAll)
        decreases level, |Ahead(linked[0], x)|
      {
        assert LevelInv(linked[level], next[level]);
        var n := next[level][x];
        NestedAt(linked, 0, level);
        if n.Null? {
          if level == 0 {
            return;
          }
          level := level - 1;
        } else {
          StepsAhead(linked[0], x, n.key);
          x := n;
        }
      }
      assert false;
    }

    method Contains(key: Key) returns (found: bool)
      requires Valid()
      ensures found <==> key in Keys()
    {
      var x, _ := FindGreaterOrEqual(key);
      found := x.At? && x.key == key;
    }

    method Insert(key: Key)
      requires Valid() && key !in Keys()
      modifies this
      ensures Valid() && Keys() == old(Keys()) + {key}
    {
      var x, prev := FindGreaterOrEqual(key);
      var height := RandomHeight();
      if height > maxHeight {
        prev := prev + seq(height - maxHeight, _ => Head);
        maxHeight := height;
      }
      forall l | 0 <= l < MAX_HEIGHT ensures key !in linked[l] { NestedAt(linked, 0, l); }
      LinkLevels(key, height, prev);
    }

    /** The loop of Insert: the node into every level of its tower, from the bottom. */
    method LinkLevels(key: Key, height: nat, prev: seq<Ptr>)
      requires Valid() && 1 <= height <= maxHeight && height <= |prev|
      requires forall l :: 0 <= l < MAX_HEIGHT ==> key !in linked[l]
      requires forall l :: 0 <= l < height ==> IsPrev(linked[l], prev[l], key)
      modifies `next, `linked
      ensures Valid() && Keys() == old(Keys()) + {key}
    {
      ghost var before := linked;
      for i := 0 to height
        invariant Valid() && height <= maxHeight && |prev| >= height
        invariant forall l :: 0 <= l < i ==> linked[l] == before[l] + {key}
        invariant forall l :: i <= l < MAX_HEIGHT ==> linked[l] == before[l]
        invariant forall l :: i <= l < height ==> IsPrev(linked[l], prev[l], key)
      {
        LinkAt(i, prev[i], key);
      }
    }

    /** One round of the loop of Insert: the node's own link, then its predecessor's. */
    method LinkAt(i: nat, p: Ptr, key: Key)
      requires Valid() && i < maxHeight && key !in linked[i] && IsPrev(linked[i], p, key)
      requires i > 0 ==> key in linked[i - 1]
      modifies `next, `linked
      ensures Valid() && linked == old(linked)[i := old(linked)[i] + {key}]
    {
      LinkedKeeps(next, linked, maxHeight, i, p, key);
      next := next[i := next[i][At(key) := next[i][p]]];
      next := next[i := next[i][p := At(key)]];
      linked := linked[i := linked[i] + {key}];
    }
  }

  method RandomHeight() returns (height: nat)
    ensures 1 <= height <= MAX_HEIGHT
  {
    height := 1;
    var grow: bool := *;
    while height < MAX_HEIGHT && grow
      invariant 1 <= height <= MAX_HEIGHT
      decreases MAX_HEIGHT - height
    {
      height := height + 1;
      grow := *;
    }
  }

  // ----- one inserter and many readers -----

  /** Where the inserter is: its search done, or linking level `i`, perhaps with its own link already set. */
  datatype Inserter =
    | Idle
    | Chosen(key: Key, height: nat, prev: seq<Ptr>)
    | Linking(key: Key, height: nat, prev: seq<Ptr>, i: nat, ownSet: bool)

  /** A reader's search; `present` remembers the keys in the list when it started. */
  datatype Reader =
    | Searching(goal: Goal, x: Ptr, level: nat, present: set<Key>)
    | Arrived(goal: Goal, result: Ptr, present: set<Key>)

  /** Shared memory, with the program counters of all threads; `linked` says which keys each level's list holds. */
  datatype Shared = Shared(next: seq<Links>, maxHeight: nat, linked: seq<set<Key>>, inserter: Inserter,
      readers: map<nat, Reader>)

  datatype Step =
    | Choose(key: Key, height: nat, prev: seq<Ptr>)
    | Raise
    | SetOwn
    | Publish
    | Begin(id: nat, goal: Goal)
    | Look(id: nat)

  ghost predicate May(s: Shared, step: Step) {
    match step
    case Choose(key, height, prev) =>
      && s.inserter.Idle? && |s.linked| == MAX_HEIGHT && key !in s.linked[0] && 1 <= height <= MAX_HEIGHT
           && |prev| == MAX_HEIGHT
      && (forall l :: 0 <= l < s.maxHeight && l < MAX_HEIGHT ==> IsPrev(s.linked[l], prev[l], key))
      && (forall l :: s.maxHeight <= l < MAX_HEIGHT ==> prev[l] == Head)
    case Raise => s.inserter.Chosen?
    case SetOwn =>
      s.inserter.Linking? && !s.inserter.ownSet && s.inserter.i < |s.next| && s.inserter.i < |s.inserter.prev|
      && s.inserter.prev[s.inserter.i] in s.next[s.inserter.i]
    case Publish =>
      s.inserter.Linking? && s.inserter.ownSet && s.inserter.i < |s.next| && s.inserter.i < |s.inserter.prev|
          && s.inserter.i < |s.linked|
    case Begin(id, _) => id !in s.readers && 1 <= s.maxHeight && |s.linked| == MAX_HEIGHT
    case Look(id) =>
      id in s.readers && s.readers[id].Searching? && s.readers[id].level < |s.next|
          && s.readers[id].x in s.next[s.readers[id].level]
  }

  ghost function After(s: Shared, step: Step): Shared
    requires May(s, step)
  {
    match step
    case Choose(key, height, prev) => s.(inserter := Chosen(key, height, prev))
    case Raise =>
      var ins := s.inserter;
      s.(maxHeight := if ins.height > s.maxHeight then ins.height else s.maxHeight,
         inserter := Linking(ins.key, ins.height, ins.prev, 0, false))
    case SetOwn =>
      var ins := s.inserter;
      s.(next := s.next[ins.i := s.next[ins.i][At(ins.key) := s.next[ins.i][ins.prev[ins.i]]]],
          inserter := ins.(ownSet := true))
    case Publish =>
      var ins := s.inserter;
      s.(next := s.next[ins.i := s.next[ins.i][ins.prev[ins.i] := At(ins.key)]],
         linked := s.linked[ins.i := s.linked[ins.i] + {ins.key}],
         inserter := if ins.i + 1 == ins.height then Idle else Linking(ins.key, ins.height, ins.prev, ins.i + 1, false))
    case Begin(id, goal) => s.(readers := s.readers[id := Searching(goal, Head, s.maxHeight - 1, s.linked[0])])
    case Look(id) =>
      s.(readers := s.readers[id := AfterLook(s.readers[id], s.next[s.readers[id].level][s.readers[id].x])])
  }

  /** One round of the search loop, given the next pointer it has read. */
  function AfterLook(r: Reader, n: Ptr): Reader
    requires r.Searching?
  {
    match r.goal
    case FirstFrom(_) => AfterLookFirst(r, n)
    case LastBefore(_) => AfterLookBefore(r, n)
    case LastOfAll => AfterLookLast(r, n)
  }

  /** FindGreaterOrEqual: the node after the last one passed. */
  function AfterLookFirst(r: Reader, n: Ptr): Reader
    requires r.Searching? && r.goal.FirstFrom?
  {
    if n.At? && n.key < r.goal.key then r.(x := n)
    else if r.level == 0 then Arrived(r.goal, n, r.present)
    else r.(level := r.level - 1)
  }

  /** FindLessThan: the last node passed. */
  function AfterLookBefore(r: Reader, n: Ptr): Reader
    requires r.Searching? && r.goal.LastBefore?
  {
    if !n.At? || n.key >= r.goal.key then
      if r.level == 0 then Arrived(r.goal, r.x, r.present) else r.(level := r.level - 1)
    else r.(x := n)
  }

  /** FindLast: the last node passed, where nothing follows. */
  function AfterLookLast(r: Reader, n: Ptr): Reader
    requires r.Searching? && r.goal.LastOfAll?
  {
    if !n.At? then
      if r.level == 0 then Arrived(r.goal, r.x, r.present) else r.(level := r.level - 1)
    else r.(x := n)
  }

  function Start(): Shared {
    Shared(seq(MAX_HEIGHT, _ => map[Head := Null]), 1, seq(MAX_HEIGHT, _ => {}), Idle, map[])
  }

  ghost predicate InserterInv(s: Shared)
    requires |s.linked| == |s.next| == MAX_HEIGHT
  {
    match s.inserter
    case Idle => true
    case Chosen(key, height, prev) =>
      && 1 <= height <= MAX_HEIGHT && |prev| == MAX_HEIGHT
      && (forall l :: 0 <= l < MAX_HEIGHT ==> key !in s.linked[l] && IsPrev(s.linked[l], prev[l], key))
    case Linking(key, height, prev, i, ownSet) =>
      && i < height <= s.maxHeight && height <= MAX_HEIGHT == |prev|
      && (forall l :: i <= l < MAX_HEIGHT ==> key !in s.linked[l] && IsPrev(s.linked[l], prev[l], key))
      && (i > 0 ==> key in s.linked[i - 1])
      && (ownSet ==> At(key) in s.next[i] && prev[i] in s.next[i] && s.next[i][At(key)] == s.next[i][prev[i]])
  }

  /**
   * `result` is the first node from the key on, among the keys in the list when the search began and maybe
   * newer ones.
   */
  ghost predicate RightFirst(key: Key, result: Ptr, present: set<Key>, now: set<Key>) {
    && (result.Null? || (result.At? && result.key in now && result.key >= key))
    && forall k :: k in present && k >= key ==> result.At? && result.key <= k
  }

  /**
   * `result` is the last node that the search passes, among the keys in the list when it began and maybe
   * newer ones.
   */
  ghost predicate RightLast(goal: Goal, result: Ptr, present: set<Key>, now: set<Key>) {
    && (result.Head? || (result.At? && result.key in now && Passes(goal, result.key)))
    && forall k :: k in present && Passes(goal, k) ==> result.At? && k <= result.key
  }

  ghost predicate Right(goal: Goal, result: Ptr, present: set<Key>, now: set<Key>) {
    if goal.FirstFrom? then RightFirst(goal.key, result, present, now) else RightLast(goal, result, present, now)
  }

  ghost predicate ReaderInv(linked: seq<set<Key>>, r: Reader)
    requires |linked| == MAX_HEIGHT
  {
    && r.present <= linked[0]
    && match r
       case Searching(goal, x, level, _) => SearchAt(linked, x, level, goal)
       case Arrived(goal, result, present) => Right(goal, result, present, linked[0])
  }

  ghost predicate Inv(s: Shared) {
    && LevelsInv(s.next, s.linked, s.maxHeight)
    && InserterInv(s)
    && forall id :: id in s.readers ==> ReaderInv(s.linked, s.readers[id])
  }

  lemma StartInv()
    ensures Inv(Start())
  {
  }

  lemma LevelPrev(linked: seq<set<Key>>, maxHeight: nat, prev: seq<Ptr>, key: Key)
    requires |linked| == MAX_HEIGHT == |prev| && key !in linked[0]
    requires forall l :: 0 <= l < MAX_HEIGHT - 1 ==> linked[l + 1] <= linked[l]
    requires forall l :: maxHeight <= l < MAX_HEIGHT ==> linked[l] == {} && prev[l] == Head
    requires forall l :: 0 <= l < maxHeight && l < MAX_HEIGHT ==> IsPrev(linked[l], prev[l], key)
    ensures forall l :: 0 <= l < MAX_HEIGHT ==> key !in linked[l] && IsPrev(linked[l], prev[l], key)
  {
    forall l | 0 <= l < MAX_HEIGHT
      ensures key !in linked[l] && IsPrev(linked[l], prev[l], key)
    {
      NestedAt(linked, 0, l);
    }
  }

  lemma ChooseKeeps(s: Shared, step: Step)
    requires Inv(s) && May(s, step) && (step.Choose? || step.Raise?)
    ensures Inv(After(s, step))
  {
    if step.Choose? { LevelPrev(s.linked, s.maxHeight, step.prev, step.key); }
  }

  lemma LevelStored(next: seq<Links>, linked: seq<set<Key>>, maxHeight: nat, i: nat, level: Links)
    requires LevelsInv(next, linked, maxHeight) && i < MAX_HEIGHT && LevelInv(linked[i], level)
    ensures LevelsInv(next[i := level], linked, maxHeight)
  {
  }

  lemma SetOwnLevels(s: Shared)
    requires Inv(s) && May(s, SetOwn)
    ensures var s' := After(s, SetOwn); LevelsInv(s'.next, s'.linked, s'.maxHeight)
  {
    var ins := s.inserter;
    OwnLinkKeeps(s.linked[ins.i], s.next[ins.i], ins.prev[ins.i], ins.key);
    LevelStored(s.next, s.linked, s.maxHeight, ins.i, s.next[ins.i][At(ins.key) := s.next[ins.i][ins.prev[ins.i]]]);
  }

  lemma SetOwnKeeps(s: Shared)
    requires Inv(s) && May(s, SetOwn)
    ensures Inv(After(s, SetOwn))
  {
    SetOwnLevels(s);
  }

  lemma LevelPublished(next: seq<Links>, linked: seq<set<Key>>, maxHeight: nat, i: nat, level: Links, key: Key)
    requires LevelsInv(next, linked, maxHeight) && i < maxHeight && LevelInv(linked[i] + {key}, level)
    requires i > 0 ==> key in linked[i - 1]
    ensures LevelsInv(next[i := level], linked[i := linked[i] + {key}], maxHeight)
  {
  }

  lemma PublishLevels(s: Shared)
    requires Inv(s) && May(s, Publish)
    ensures var s' := After(s, Publish); LevelsInv(s'.next, s'.linked, s'.maxHeight)
  {
    var ins := s.inserter;
    PublishKeeps(s.linked[ins.i], s.next[ins.i], ins.prev[ins.i], ins.key);
    LevelPublished(s.next, s.linked, s.maxHeight, ins.i, s.next[ins.i][ins.prev[ins.i] := At(ins.key)], ins.key);
  }

  lemma ReaderKeeps(linked: seq<set<Key>>, more: seq<set<Key>>, r: Reader)
    requires |linked| == |more| == MAX_HEIGHT && (forall l :: 0 <= l < MAX_HEIGHT ==> linked[l] <= more[l])
    requires ReaderInv(linked, r)
    ensures ReaderInv(more, r)
  {
  }

  lemma PublishStepKeeps(s: Shared)
    requires Inv(s) && May(s, Publish)
    ensures Inv(After(s, Publish))
  {
    PublishLevels(s);
    var s' := After(s, Publish);
    forall id | id in s'.readers
      ensures ReaderInv(s'.linked, s'.readers[id])
    {
      ReaderKeeps(s.linked, s'.linked, s.readers[id]);
    }
  }

  lemma LookReader(s: Shared, id: nat)
    requires Inv(s) && May(s, Look(id))
    ensures ReaderInv(s.linked, AfterLook(s.readers[id], s.next[s.readers[id].level][s.readers[id].x]))
  {
    var r := s.readers[id];
    assert LevelInv(s.linked[r.level], s.next[r.level]);
    var n := s.next[r.level][r.x];
    NestedAt(s.linked, if r.level == 0 then 0 else r.level - 1, r.level);
    LookKeeps(s.linked, r, n);
  }

  lemma LookKeeps(linked: seq<set<Key>>, r: Reader, n: Ptr)
    requires |linked| == MAX_HEIGHT && r.Searching? && ReaderInv(linked, r) && IsNext(linked[r.level], r.x, n)
    requires r.level > 0 ==> linked[r.level] <= linked[r.level - 1]
    ensures ReaderInv(linked, AfterLook(r, n))
  {
    if n.Null? || !Passes(r.goal, n.key) {
      NothingToPass(linked[r.level], r.x, r.goal, n);
      if r.level == 0 && r.goal.FirstFrom? {
        SearchStops(linked[0], r.x, r.goal.key, n);
      }
    }
  }

  lemma StepKeeps(s: Shared, step: Step)
    requires Inv(s) && May(s, step)
    ensures Inv(After(s, step))
  {
    match step {
      case Choose(_, _, _) => ChooseKeeps(s, step);
      case Raise => ChooseKeeps(s, step);
      case SetOwn => SetOwnKeeps(s);
      case Publish => PublishStepKeeps(s);
      case Begin(_, _) =>
      case Look(id) => LookReader(s, id);
    }
  }

  ghost predicate Run(steps: seq<Step>)
    decreases steps, 0
  {
    steps == [] || (Run(steps[..|steps| - 1]) && May(Reached(steps[..|steps| - 1]), steps[|steps| - 1]))
  }

  ghost function Reached(steps: seq<Step>): Shared
    requires Run(steps)
    decreases steps, 1
  {
    if steps == [] then Start() else After(Reached(steps[..|steps| - 1]), steps[|steps| - 1])
  }

  /** At every step of every run each level is a sorted list and part of the level below. */
  lemma {:induction false} EveryStepSorted(steps: seq<Step>)
    requires Run(steps)
    ensures Inv(Reached(steps))
    ensures var s := Reached(steps); LevelsInv(s.next, s.linked, s.maxHeight)
    decreases steps
  {
    if steps == [] {
      StartInv();
    } else {
      EveryStepSorted(steps[..|steps| - 1]);
      StepKeeps(Reached(steps[..|steps| - 1]), steps[|steps| - 1]);
    }
  }

  /**
   * However its reads interleave with the stores of insertions, FindGreaterOrEqual finds its key if that was in the
   * list when the search began, and skips no key that was.
   */
  lemma SearchesMissNothing(steps: seq<Step>, id: nat)
    requires Run(steps) && Ended(Reached(steps), id) && Reached(steps).readers[id].goal.FirstFrom?
    ensures var s := Reached(steps); var r := s.readers[id];
      && |s.linked| == MAX_HEIGHT && RightFirst(r.goal.key, r.result, r.present, s.linked[0])
      && (r.goal.key in r.present ==> r.result == At(r.goal.key))
  {
    EveryStepSorted(steps);
  }

  ghost predicate Ended(s: Shared, id: nat) {
    id in s.readers && s.readers[id].Arrived?
  }

  /**
   * FindLessThan ends at the head or at a key of the list before its target, and no key that was in the list when it
   * began lies between the two.
   */
  lemma LessThanMissesNothing(steps: seq<Step>, id: nat)
    requires Run(steps) && Ended(Reached(steps), id) && Reached(steps).readers[id].goal.LastBefore?
    ensures var s := Reached(steps); var r := s.readers[id];
      && |s.linked| == MAX_HEIGHT
      && (r.result.Head? || (r.result.At? && r.result.key in s.linked[0] && r.result.key < r.goal.key))
      && forall k :: k in r.present && Precedes(r.result, k) ==> k >= r.goal.key
  {
    EveryStepSorted(steps);
  }

  /**
   * FindLast ends at a key of the list at or after every key that was in it when the search began; at the
   * head only if there was none.
   */
  lemma LastMissesNothing(steps: seq<Step>, id: nat)
    requires Run(steps) && Ended(Reached(steps), id) && Reached(steps).readers[id].goal.LastOfAll?
    ensures var s := Reached(steps); var r := s.readers[id];
      && |s.linked| == MAX_HEIGHT
      && (r.result.Head? || (r.result.At? && r.result.key in s.linked[0]))
      && forall k :: k in r.present ==> r.result.At? && k <= r.result.key
  {
    EveryStepSorted(steps);
  }

  /** The level-0 link of a node an iterator stands on leads to the next key; none in the list is skipped. */
  lemma NextSkipsNothing(steps: seq<Step>, k: Key)
    requires Run(steps) && |Reached(steps).linked| > 0 && k in Reached(steps).linked[0]
    ensures var s := Reached(steps); |s.next| > 0 && At(k) in s.next[0] && IsNext(s.linked[0], At(k), s.next[0][At(k)])
  {
    EveryStepSorted(steps);
    var s := Reached(steps);
    assert LevelInv(s.linked[0], s.next[0]);
  }

  /**
   * No thread is ever without a pointer to follow: a reader in the list, and an inserter at work, can always
   * take a step.
   */
  lemma NeverStuck(steps: seq<Step>)
    requires Run(steps)
    ensures var s := Reached(steps); forall id :: id in s.readers && s.readers[id].Searching? ==> May(s, Look(id))
    ensures var s := Reached(steps);
      (s.inserter.Chosen? ==> May(s, Raise))
          && (s.inserter.Linking? ==> May(s, if s.inserter.ownSet then Publish else SetOwn))
  {
    EveryStepSorted(steps);
    var s := Reached(steps);
    forall id | id in s.readers && s.readers[id].Searching? ensures May(s, Look(id)) {
      assert LevelInv(s.linked[s.readers[id].level], s.next[s.readers[id].level]);
    }
    if s.inserter.Linking? { assert LevelInv(s.linked[s.inserter.i], s.next[s.inserter.i]); }
  }
}
