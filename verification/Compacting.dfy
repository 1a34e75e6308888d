/** Merging the inputs of a compaction (db/db_impl.cc, DoCompactionWork; db/version_set.cc, Compaction). */
module Compacting {
  import opened Keys
  import opened Reads
  import opened Version
  import opened Inputs

  // ----- which entries a compaction keeps -----

  /** No level below the output level holds a file whose user-key range covers `user`. */
  predicate BaseLevelFor(levels: Levels, level: nat, user: UserKey) {
    forall l, f :: level + 2 <= l < |levels| && f in levels[l] ==> !(f.smallest.user <= user <= f.largest.user)
  }

  /** Rule (A): the entry before it in the merge has the same user key and every snapshot sees that one. */
  predicate Hidden(merged: seq<Entry>, i: nat, smallest: Sequence)
    requires i < |merged|
  {
    i > 0 && merged[i - 1].key.user == merged[i].key.user && merged[i - 1].key.seqno <= smallest
  }

  predicate ObsoleteMarker(levels: Levels, level: nat, e: Entry, smallest: Sequence) {
    e.key.kind == Deletion && e.key.seqno <= smallest && BaseLevelFor(levels, level, e.key.user)
  }

  predicate Dropped(levels: Levels, level: nat, merged: seq<Entry>, i: nat, smallest: Sequence)
    requires i < |merged|
  {
    Hidden(merged, i, smallest) || ObsoleteMarker(levels, level, merged[i], smallest)
  }

  /** What remains of the first `n` entries of the merge. */
  function Kept(levels: Levels, level: nat, merged: seq<Entry>, n: nat, smallest: Sequence): seq<Entry>
    requires n <= |merged|
  {
    if n == 0 then []
    else
      var before := Kept(levels, level, merged, n - 1, smallest);
      if Dropped(levels, level, merged, n - 1, smallest) then before else before + [merged[n - 1]]
  }

  lemma {:induction false} KeptMembers(levels: Levels, level: nat, merged: seq<Entry>, n: nat, smallest: Sequence)
    requires n <= |merged|
    ensures forall e :: e in Kept(levels, level, merged, n, smallest) <==>
              exists i :: 0 <= i < n && merged[i] == e && !Dropped(levels, level, merged, i, smallest)
  {
    if n > 0 { KeptMembers(levels, level, merged, n - 1, smallest); }
  }

  lemma {:induction false} KeptSorted(levels: Levels, level: nat, merged: seq<Entry>, n: nat, smallest: Sequence)
    requires n <= |merged| && Sorted(merged)
    ensures Sorted(Kept(levels, level, merged, n, smallest))
  {
    if n > 0 {
      KeptSorted(levels, level, merged, n - 1, smallest);
      KeptMembers(levels, level, merged, n - 1, smallest);
      var before := Kept(levels, level, merged, n - 1, smallest);
      forall i | 0 <= i < |before| ensures Before(before[i].key, merged[n - 1].key) {
        assert before[i] in before;
      }
    }
  }

  /** Rule (A) in terms of contents: some newer version in the inputs is visible to every snapshot. */
  lemma HiddenMeansShadowed(merged: seq<Entry>, i: nat, smallest: Sequence)
    requires Sorted(merged) && Distinct(Elements(merged)) && i < |merged|
    ensures Hidden(merged, i, smallest) <==>
      exists e :: e in merged && e.key.user == merged[i].key.user && merged[i].key.seqno < e.key.seqno <= smallest
  {
    if Hidden(merged, i, smallest) {
      assert Before(merged[i - 1].key, merged[i].key);
      assert merged[i - 1] in merged && merged[i] in merged;
      assert merged[i - 1] in Elements(merged) && merged[i] in Elements(merged);
      assert merged[i - 1].key.seqno != merged[i].key.seqno;
    }
    forall e | e in merged && e.key.user == merged[i].key.user && merged[i].key.seqno < e.key.seqno <= smallest
      ensures Hidden(merged, i, smallest)
    {
      var j :| 0 <= j < |merged| && merged[j] == e;
      if j < i - 1 {
        assert Before(merged[j].key, merged[i - 1].key) && Before(merged[i - 1].key, merged[i].key);
      } else if j > i {
        assert Before(merged[i].key, merged[j].key);
      }
    }
  }

  // ----- reads across a compaction -----

  ghost predicate Shadowed(inputs: set<Entry>, e: Entry, smallest: Sequence) {
    exists d :: Visible(inputs, e.key.user, smallest, d) && d.key.seqno > e.key.seqno
  }

  /** The entries of the inputs that both drop rules leave alone. */
  ghost function Survivors(levels: Levels, level: nat, inputs: set<Entry>, smallest: Sequence): set<Entry> {
    set e | e in inputs && !Shadowed(inputs, e, smallest) && !ObsoleteMarker(levels, level, e, smallest)
  }

  /**
   * An input entry survives exactly if some reader may need it: no newer version is at or below the smallest snapshot,
   * and if it is a deletion at or below it, a file below the output level may hold what it hides.
   */
  lemma SurvivorsAreNeeded(levels: Levels, level: nat, inputs: set<Entry>, smallest: Sequence, e: Entry)
    requires e in inputs
    ensures e in Survivors(levels, level, inputs, smallest) <==>
      && (forall d :: d in inputs && d.key.user == e.key.user && d.key.seqno > e.key.seqno ==> d.key.seqno > smallest)
      && (e.key.kind == Deletion && e.key.seqno <= smallest ==>
           exists l, f :: level + 2 <= l < |levels| && f in levels[l]
             && f.smallest.user <= e.key.user <= f.largest.user)
  {
    forall d | d in inputs && d.key.user == e.key.user && e.key.seqno < d.key.seqno <= smallest
      ensures Shadowed(inputs, e, smallest)
    {
      assert Visible(inputs, e.key.user, smallest, d);
    }
  }

  lemma KeptAreSurvivors(levels: Levels, level: nat, merged: seq<Entry>, smallest: Sequence)
    requires Sorted(merged) && Distinct(Elements(merged))
    ensures Elements(Kept(levels, level, merged, |merged|, smallest))
        == Survivors(levels, level, Elements(merged), smallest)
  {
    var kept := Kept(levels, level, merged, |merged|, smallest);
    KeptMembers(levels, level, merged, |merged|, smallest);
    forall e ensures e in kept <==> e in Survivors(levels, level, Elements(merged), smallest) {
      forall i | 0 <= i < |merged| && merged[i] == e
        ensures Hidden(merged, i, smallest) <==> Shadowed(Elements(merged), e, smallest)
      {
        HiddenMeansShadowed(merged, i, smallest);
        if Hidden(merged, i, smallest) {
          var d :| d in merged && d.key.user == e.key.user && e.key.seqno < d.key.seqno <= smallest;
          assert Visible(Elements(merged), e.key.user, smallest, d);
        }
      }
      if e in Survivors(levels, level, Elements(merged), smallest) {
        var i :| 0 <= i < |merged| && merged[i] == e;
      }
    }
  }

  /** Every reader at a snapshot the compaction must respect sees the same, but for some keys. */
  ghost predicate SameReads(but: set<UserKey>, before: set<Entry>, after: set<Entry>, smallest: nat) {
    forall user, snapshot: nat :: user !in but && snapshot >= smallest ==>
      Read(after, user, snapshot) == Read(before, user, snapshot)
  }

  /**
   * A deletion marker that is about to be dropped is the newest version of its key, yet outside the
   * inputs an older value of that key is waiting.
   */
  ghost predicate Uncovers(levels: Levels, level: nat, inputs: set<Entry>, rest: set<Entry>, smallest: Sequence,
                           marker: Entry, old_: Entry)
  {
    && marker in inputs
    && ObsoleteMarker(levels, level, marker, smallest)
    && Newest(inputs + rest, marker.key.user, smallest, marker)
    && Newest(rest, marker.key.user, smallest, old_)
    && old_.key.kind == Value
  }

  /** One direction: of a key without such a marker nothing changes that a reader may ask for. */
  lemma DropsPreserveReads(but: set<UserKey>, levels: Levels, level: nat, inputs: set<Entry>, rest: set<Entry>,
                           smallest: Sequence)
    requires Distinct(inputs + rest)
    requires forall m, o :: Uncovers(levels, level, inputs, rest, smallest, m, o) ==> m.key.user in but
    ensures SameReads(but, inputs + rest, Survivors(levels, level, inputs, smallest) + rest, smallest)
  {
    forall user, snapshot: nat | user !in but && snapshot >= smallest
      ensures Read(Survivors(levels, level, inputs, smallest) + rest, user, snapshot)
          == Read(inputs + rest, user, snapshot)
    {
      DropsPreserveRead(levels, level, inputs, rest, smallest, user, snapshot);
    }
  }

  lemma DropsPreserveRead(levels: Levels, level: nat, inputs: set<Entry>, rest: set<Entry>, smallest: Sequence,
                          user: UserKey, snapshot: nat)
    requires Distinct(inputs + rest) && snapshot >= smallest
    requires forall m, o :: Uncovers(levels, level, inputs, rest, smallest, m, o) ==> m.key.user != user
    ensures Read(Survivors(levels, level, inputs, smallest) + rest, user, snapshot)
        == Read(inputs + rest, user, snapshot)
  {
    var out := Survivors(levels, level, inputs, smallest);
    if NothingVisible(inputs + rest, user, snapshot) {
      forall e ensures !Visible(out + rest, user, snapshot, e) { assert !Visible(inputs + rest, user, snapshot, e); }
      return;
    }
    var n := NewestExists(inputs + rest, user, snapshot);
    ReadIsNewest(inputs + rest, user, snapshot, n);
    if n in out + rest {
      NewestStays(inputs + rest, out + rest, user, snapshot, n);
    } else {
      NewestDropped(levels, level, inputs, rest, smallest, user, snapshot, n);
      if exists m :: Newest(out + rest, user, snapshot, m) && m.key.kind == Value {
        var m :| Newest(out + rest, user, snapshot, m) && m.key.kind == Value;
        DroppedMarkerExposes(levels, level, inputs, rest, smallest, user, snapshot, n, m);
      }
    }
  }

  lemma NewestStays(before: set<Entry>, after: set<Entry>, user: UserKey, snapshot: nat, n: Entry)
    requires after <= before && Distinct(before) && n in after && Newest(before, user, snapshot, n)
    ensures Read(after, user, snapshot) == AnswerOf(n)
  {
    forall f | Visible(after, user, snapshot, f)
      ensures f.key.seqno <= n.key.seqno
    {
      assert Visible(before, user, snapshot, f);
    }
    ReadIsNewest(after, user, snapshot, n);
  }

  lemma NewestDropped(levels: Levels, level: nat, inputs: set<Entry>, rest: set<Entry>, smallest: Sequence,
                      user: UserKey, snapshot: nat, n: Entry)
    requires snapshot >= smallest && Newest(inputs + rest, user, snapshot, n)
    requires n !in Survivors(levels, level, inputs, smallest) + rest
    ensures n in inputs && n !in rest && ObsoleteMarker(levels, level, n, smallest)
  {
    forall d | Visible(inputs, n.key.user, smallest, d) ensures d.key.seqno <= n.key.seqno {
      assert Visible(inputs + rest, user, snapshot, d);
    }
  }

  lemma DroppedMarkerExposes(levels: Levels, level: nat, inputs: set<Entry>, rest: set<Entry>, smallest: Sequence,
                             user: UserKey, snapshot: nat, n: Entry, m: Entry)
    requires Distinct(inputs + rest) && snapshot >= smallest
    requires n in inputs && n !in rest && Newest(inputs + rest, user, snapshot, n)
    requires ObsoleteMarker(levels, level, n, smallest)
    requires Newest(Survivors(levels, level, inputs, smallest) + rest, user, snapshot, m)
    requires m.key.kind == Value
    ensures Uncovers(levels, level, inputs, rest, smallest, n, m)
  {
    var out := Survivors(levels, level, inputs, smallest);
    assert Visible(inputs + rest, user, snapshot, m);
    assert m != n;
    assert m.key.seqno < n.key.seqno;
    if m in out {
      assert Visible(inputs, user, smallest, n);
      assert Shadowed(inputs, m, smallest);
      assert false;
    }
    forall f | Visible(inputs + rest, user, smallest, f) ensures f.key.seqno <= n.key.seqno {
      assert Visible(inputs + rest, user, snapshot, f);
    }
    forall f | Visible(rest, user, smallest, f) ensures f.key.seqno <= m.key.seqno {
      assert Visible(out + rest, user, snapshot, f);
    }
  }

  /** The other direction: such a marker makes a deleted value readable again. */
  lemma UncoveringChangesRead(levels: Levels, level: nat, inputs: set<Entry>, rest: set<Entry>, smallest: Sequence,
                              marker: Entry, old_: Entry)
    requires Distinct(inputs + rest) && inputs !! rest
    requires Uncovers(levels, level, inputs, rest, smallest, marker, old_)
    ensures Read(inputs + rest, marker.key.user, smallest) == NotFound
    ensures Read(Survivors(levels, level, inputs, smallest) + rest, marker.key.user, smallest) == Found(old_.value)
  {
    var user, out := marker.key.user, Survivors(levels, level, inputs, smallest);
    ReadIsNewest(inputs + rest, user, smallest, marker);
    forall f | Visible(out + rest, user, smallest, f) ensures f.key.seqno <= old_.key.seqno {
      assert Visible(inputs + rest, user, smallest, f) && Visible(inputs, user, smallest, marker);
      assert f !in out;
      assert Visible(rest, user, smallest, f);
    }
    ReadIsNewest(out + rest, user, smallest, old_);
  }

  /** A compaction preserves every read it must respect exactly but for the keys whose markers uncover a value. */
  lemma ReadsPreservedExactly(but: set<UserKey>, levels: Levels, level: nat, inputs: set<Entry>, rest: set<Entry>,
                              smallest: Sequence)
    requires Distinct(inputs + rest) && inputs !! rest
    ensures SameReads(but, inputs + rest, Survivors(levels, level, inputs, smallest) + rest, smallest)
       <==> forall m, o :: Uncovers(levels, level, inputs, rest, smallest, m, o) ==> m.key.user in but
  {
    if forall m, o :: Uncovers(levels, level, inputs, rest, smallest, m, o) ==> m.key.user in but {
      DropsPreserveReads(but, levels, level, inputs, rest, smallest);
    } else {
      var m, o :| Uncovers(levels, level, inputs, rest, smallest, m, o) && m.key.user !in but;
      UncoveringChangesRead(levels, level, inputs, rest, smallest, m, o);
    }
  }

  // ----- the compaction loop -----

  /** The levels below the output level are in order, as in any installed version. */
  ghost predicate SortedBelow(levels: Levels, level: nat) {
    forall l :: level + 2 <= l < |levels| ==> ValidFiles(levels[l]) && LevelSorted(levels[l])
  }

  /** level_ptrs_: per level, files before the cursor end before every key still to come. */
  class BaseLevelCursor {
    const levels: Levels
    const level: nat
    var levelPtrs: seq<nat>

    ghost predicate Valid(from: UserKey)
      reads this
    {
      && |levels| == NUM_LEVELS == |levelPtrs| && level + 1 < NUM_LEVELS
      && (forall l :: 0 <= l < NUM_LEVELS ==> levelPtrs[l] <= |levels[l]|)
      && (forall l, i :: level + 2 <= l < NUM_LEVELS && 0 <= i < levelPtrs[l] ==> levels[l][i].largest.user < from)
      && SortedBelow(levels, level)
    }

    constructor (levels: Levels, level: nat, ghost from: UserKey)
      requires |levels| == NUM_LEVELS && level + 1 < NUM_LEVELS && SortedBelow(levels, level)
      ensures Valid(from) && this.levels == levels && this.level == level
    {
      this.levels := levels;
      this.level := level;
      levelPtrs := seq(NUM_LEVELS, _ => 0);
    }

    /** Compaction::IsBaseLevelForKey, for keys that never decrease from call to call. */
    method IsBaseLevelForKey(user: UserKey, ghost from: UserKey) returns (r: bool)
      requires Valid(from) && from <= user
      modifies this
      ensures Valid(user)
      ensures r <==> BaseLevelFor(levels, level, user)
    {
      for lvl := level + 2 to NUM_LEVELS
        invariant Valid(user)
        invariant forall l, f :: level + 2 <= l < lvl && f in levels[l] ==> !(f.smallest.user <= user <= f.largest.user)
      {
        var files := levels[lvl];
        while levelPtrs[lvl] < |files|
          invariant Valid(user)
          decreases |files| - levelPtrs[lvl]
        {
          var f := files[levelPtrs[lvl]];
          assert f in files;
          if user <= f.largest.user {
            if user >= f.smallest.user {
              return false;
            }
            break;
          }
          levelPtrs := levelPtrs[lvl := levelPtrs[lvl] + 1];
        }
        CursorPastKey(files, levelPtrs[lvl], user);
      }
      r := true;
    }
  }

  lemma CursorPastKey(files: seq<File>, ptr: nat, user: UserKey)
    requires ValidFiles(files) && LevelSorted(files) && ptr <= |files|
    requires forall i :: 0 <= i < ptr ==> files[i].largest.user < user
    requires ptr < |files| ==> user < files[ptr].smallest.user
    ensures forall f :: f in files ==> !(f.smallest.user <= user <= f.largest.user)
  {
    forall f | f in files ensures !(f.smallest.user <= user <= f.largest.user) {
      var i :| 0 <= i < |files| && files[i] == f;
      if i > ptr {
        assert files[ptr] in files;
        WithinBounds(files[ptr], files[ptr].table[0]);
        assert Before(files[ptr].largest, files[i].smallest);
      }
    }
  }

  /** The tables of the output files, one after the other. */
  function Concat(outputs: seq<File>): seq<Entry> {
    if outputs == [] then [] else Concat(outputs[..|outputs| - 1]) + outputs[|outputs| - 1].table
  }

  /** FinishCompactionOutputFile: the file's bounds are its first and last key. */
  function FinishedFile(number: nat, size: nat, table: seq<Entry>): (f: File)
    requires table != [] && Sorted(table)
    ensures ValidFile(f)
  {
    File(number, size, table[0].key, table[|table| - 1].key, table)
  }

  /** The finished files and the open table hold `written`; files are numbered one by one from `first`. */
  ghost predicate Outputs(outputs: seq<File>, builder: seq<Entry>, first: nat, next: nat, written: seq<Entry>) {
    && Concat(outputs) + builder == written
    && next == first + |outputs|
    && (forall i :: 0 <= i < |outputs| ==> ValidFile(outputs[i]) && outputs[i].number == first + i)
  }

  /**
   * DoCompactionWork over the merged inputs. Where an output file is cut (ShouldStopBefore, file size)
   * is left open.
   */
  method DoCompactionWork(levels: Levels, level: nat, merged: seq<Entry>, smallest: Sequence, firstNumber: nat)
    returns (outputs: seq<File>, nextNumber: nat)
    requires |levels| == NUM_LEVELS && level + 1 < NUM_LEVELS && SortedBelow(levels, level)
    requires Sorted(merged) && smallest < MAX_SEQUENCE
    ensures Outputs(outputs, [], firstNumber, nextNumber, Kept(levels, level, merged, |merged|, smallest))
  {
    outputs, nextNumber := [], firstNumber;
    var builder: seq<Entry> := [];
    var currentUser: Option<UserKey> := None;
    var lastSequenceForKey: Sequence := MAX_SEQUENCE;
    ghost var from := if merged == [] then 0.0 else merged[0].key.user;
    var cursor := new BaseLevelCursor(levels, level, from);
    for i := 0 to |merged|
      invariant fresh(cursor) && cursor.levels == levels && cursor.level == level
      invariant cursor.Valid(from) && (i < |merged| ==> from <= merged[i].key.user)
      invariant Outputs(outputs, builder, firstNumber, nextNumber, Kept(levels, level, merged, i, smallest))
      invariant i == 0 ==> currentUser == None
      invariant i > 0 ==> currentUser == Some(merged[i - 1].key.user) && lastSequenceForKey == merged[i - 1].key.seqno
    {
      var e := merged[i];
      if currentUser != Some(e.key.user) {
        currentUser := Some(e.key.user);
        lastSequenceForKey := MAX_SEQUENCE;
      }
      var drop := ShouldDrop(cursor, e, lastSequenceForKey, smallest, from);
      from := e.key.user;
      lastSequenceForKey := e.key.seqno;
      assert drop == Dropped(levels, level, merged, i, smallest);
      KeptSorted(levels, level, merged, i, smallest);
      KeptSorted(levels, level, merged, i + 1, smallest);
      outputs, builder, nextNumber :=
          WriteEntry(outputs, builder, nextNumber, e, drop, firstNumber, Kept(levels, level, merged, i, smallest));
      assert i + 1 < |merged| ==> Before(merged[i].key, merged[i + 1].key);
    }
    KeptSorted(levels, level, merged, |merged|, smallest);
    outputs, builder, nextNumber :=
        FinishOutput(outputs, builder, nextNumber, firstNumber, Kept(levels, level, merged, |merged|, smallest));
  }

  /** Rule (A), then the obsolete deletion marker. */
  method ShouldDrop(cursor: BaseLevelCursor, e: Entry, lastSequenceForKey: Sequence, smallest: Sequence,
                    ghost from: UserKey)
    returns (drop: bool)
    requires cursor.Valid(from) && from <= e.key.user
    modifies cursor
    ensures cursor.Valid(e.key.user)
    ensures drop <==> lastSequenceForKey <= smallest || ObsoleteMarker(cursor.levels, cursor.level, e, smallest)
  {
    if lastSequenceForKey <= smallest {
      drop := true;
    } else if e.key.kind == Deletion && e.key.seqno <= smallest {
      drop := cursor.IsBaseLevelForKey(e.key.user, from);
    } else {
      drop := false;
    }
  }

  /** One step of the loop's output side: perhaps cut before the entry, add it unless dropped, perhaps cut after it. */
  method WriteEntry(outputs: seq<File>, builder: seq<Entry>, nextNumber: nat, e: Entry, drop: bool, ghost first: nat,
                    ghost written: seq<Entry>)
    returns (outputs': seq<File>, builder': seq<Entry>, nextNumber': nat)
    requires Outputs(outputs, builder, first, nextNumber, written)
    requires Sorted(written) && (!drop ==> Sorted(written + [e]))
    ensures Outputs(outputs', builder', first, nextNumber', if drop then written else written + [e])
  {
    outputs', builder', nextNumber' := outputs, builder, nextNumber;
    if * {
      outputs', builder', nextNumber' := FinishOutput(outputs', builder', nextNumber', first, written);
    }
    if !drop {
      builder' := builder' + [e];
      assert Concat(outputs') + builder' == written + [e];
      if * {
        outputs', builder', nextNumber' := FinishOutput(outputs', builder', nextNumber', first, written + [e]);
      }
    }
  }

  /** FinishCompactionOutputFile, when a table is open. */
  method FinishOutput(outputs: seq<File>, builder: seq<Entry>, nextNumber: nat, ghost first: nat,
                      ghost written: seq<Entry>)
    returns (outputs': seq<File>, builder': seq<Entry>, nextNumber': nat)
    requires Outputs(outputs, builder, first, nextNumber, written) && Sorted(written)
    ensures builder' == [] && Outputs(outputs', [], first, nextNumber', written)
  {
    outputs', builder', nextNumber' := outputs, [], nextNumber;
    if builder != [] {
      var size: nat := *;
      SuffixSorted(Concat(outputs), builder, written);
      outputs' := outputs + [FinishedFile(nextNumber, size, builder)];
      assert outputs'[..|outputs|] == outputs;
      nextNumber' := nextNumber + 1;
    }
    assert Concat(outputs') + [] == Concat(outputs) + builder;
  }

  lemma SuffixSorted(a: seq<Entry>, b: seq<Entry>, whole: seq<Entry>)
    requires a + b == whole && Sorted(whole)
    ensures Sorted(b)
  {
    forall i, j | 0 <= i < j < |b| ensures Before(b[i].key, b[j].key) {
      assert b[i] == whole[|a| + i] && b[j] == whole[|a| + j];
    }
  }
}
