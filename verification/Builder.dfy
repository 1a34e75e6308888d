/** VersionSet::Builder: applying version edits to a version (db/version_set.cc). */
module Builder {
  import opened Keys
  import opened Version

  /** BySmallestKey: smallest internal key, ties broken by file number. */
  predicate FileLess(f: File, g: File) {
    Before(f.smallest, g.smallest) || (!Before(g.smallest, f.smallest) && f.number < g.number)
  }

  ghost predicate Ordered(files: seq<File>) {
    forall i, j :: 0 <= i < j < |files| ==> FileLess(files[i], files[j])
  }

  /** Files of one level named by one edit: numbers deleted, then files added. */
  datatype LevelEdit = LevelEdit(deleted: set<nat>, added: seq<File>)

  /** LevelState: what a Builder has collected for one level; `added` is a std::set ordered by FileLess. */
  datatype LevelState = LevelState(deleted: set<nat>, added: seq<File>)

  const EMPTY_STATE := LevelState({}, [])

  /** std::set::insert */
  function InsertFile(files: seq<File>, f: File): (r: seq<File>)
    ensures forall g :: g in r ==> g == f || g in files
    ensures forall g :: g in files ==> g in r
  {
    if files == [] then [f]
    else if FileLess(f, files[0]) then [f] + files
    else if FileLess(files[0], f) then [files[0]] + InsertFile(files[1..], f)
    else files
  }

  function ApplyAdds(st: LevelState, added: seq<File>): LevelState {
    if added == [] then st
    else
      var before := ApplyAdds(st, added[..|added| - 1]);
      var f := added[|added| - 1];
      LevelState(before.deleted - {f.number}, InsertFile(before.added, f))
  }

  /** Builder::Apply, at one level. */
  function ApplyLevel(st: LevelState, e: LevelEdit): LevelState {
    ApplyAdds(LevelState(st.deleted + e.deleted, st.added), e.added)
  }

  /** The merge of SaveTo: base files go before an added file unless the added file is smaller. */
  function MergeFiles(base: seq<File>, added: seq<File>): (r: seq<File>)
    ensures forall f :: f in r <==> f in base || f in added
  {
    if added == [] then base
    else if base == [] then added
    else if !FileLess(added[0], base[0]) then [base[0]] + MergeFiles(base[1..], added)
    else [added[0]] + MergeFiles(base, added[1..])
  }

  function WithoutDeleted(files: seq<File>, deleted: set<nat>): (r: seq<File>)
    ensures forall f :: f in r <==> f in files && f.number !in deleted
  {
    if files == [] then []
    else
      var rest := WithoutDeleted(files[..|files| - 1], deleted);
      var f := files[|files| - 1];
      assert files == files[..|files| - 1] + [f];
      if f.number in deleted then rest else rest + [f]
  }

  /** Builder::SaveTo, at one level. */
  function SaveLevel(base: seq<File>, st: LevelState): seq<File> {
    WithoutDeleted(MergeFiles(base, st.added), st.deleted)
  }

  function NumbersOf(files: seq<File>): (r: set<nat>)
  {
    set f | f in files :: f.number
  }

  // ----- order -----

  lemma LessIsTotal(f: File, g: File)
    requires f.number != g.number && !FileLess(f, g)
    ensures FileLess(g, f)
  {
  }

  lemma LessIsTransitive(f: File, g: File, h: File)
    requires FileLess(f, g) && FileLess(g, h)
    ensures FileLess(f, h)
  {
  }

  lemma ConsOrdered(f: File, files: seq<File>)
    requires Ordered(files) && forall g :: g in files ==> FileLess(f, g)
    ensures Ordered([f] + files)
  {
    forall i | 0 <= i < |files| ensures FileLess(f, files[i]) { assert files[i] in files; }
  }

  lemma {:induction false} MergeOrdered(base: seq<File>, added: seq<File>)
    requires Ordered(base) && Ordered(added)
    requires forall f, g :: f in base && g in added ==> f.number != g.number
    ensures Ordered(MergeFiles(base, added))
  {
    if added != [] && base != [] {
      if !FileLess(added[0], base[0]) {
        MergeOrdered(base[1..], added);
        LessIsTotal(added[0], base[0]);
        HeadsAreLeast(base, added);
        ConsOrdered(base[0], MergeFiles(base[1..], added));
      } else {
        MergeOrdered(base, added[1..]);
        HeadsAreLeast(added, base);
        ConsOrdered(added[0], MergeFiles(base, added[1..]));
      }
    }
  }

  lemma HeadsAreLeast(a: seq<File>, b: seq<File>)
    requires Ordered(a) && Ordered(b) && a != [] && b != [] && FileLess(a[0], b[0])
    ensures forall f :: f in a[1..] || f in b ==> FileLess(a[0], f)
  {
    forall f | f in a[1..] || f in b ensures FileLess(a[0], f) {
      if f in b && f != b[0] {
        HeadIsLeast(b, f);
        LessIsTransitive(a[0], b[0], f);
      } else if f != b[0] {
        var i :| 0 <= i < |a[1..]| && a[1..][i] == f;
      }
    }
  }

  lemma HeadIsLeast(files: seq<File>, f: File)
    requires Ordered(files) && files != []
    ensures f in files ==> f == files[0] || FileLess(files[0], f)
  {
  }

  lemma {:induction false} WithoutDeletedOrdered(files: seq<File>, deleted: set<nat>)
    requires Ordered(files)
    ensures Ordered(WithoutDeleted(files, deleted))
  {
    if files != [] {
      var rest := WithoutDeleted(files[..|files| - 1], deleted);
      WithoutDeletedOrdered(files[..|files| - 1], deleted);
      assert forall i :: 0 <= i < |rest| ==> rest[i] in rest;
    }
  }

  lemma {:induction false} InsertOrdered(files: seq<File>, f: File)
    requires Ordered(files) && f.number !in NumbersOf(files)
    ensures Ordered(InsertFile(files, f)) && f in InsertFile(files, f)
  {
    if files != [] && FileLess(f, files[0]) {
      forall g | g in files ensures FileLess(f, g) {
        HeadIsLeast(files, g);
        if g != files[0] { LessIsTransitive(f, files[0], g); }
      }
      ConsOrdered(f, files);
    } else if files != [] {
      assert files[0] in files;
      LessIsTotal(f, files[0]);
      InsertOrdered(files[1..], f);
      forall g | g in InsertFile(files[1..], f) ensures FileLess(files[0], g) {
        if g != f { TailMembers(files, g); HeadIsLeast(files, g); }
      }
      ConsOrdered(files[0], InsertFile(files[1..], f));
    }
  }

  lemma {:induction false} OrderedDetermined(a: seq<File>, b: seq<File>)
    requires Ordered(a) && Ordered(b) && forall f :: f in a <==> f in b
    ensures a == b
  {
    if |b| > 0 { assert b[0] in b; }
    if a != [] {
      assert a[0] in a;
      HeadIsLeast(a, b[0]);
      HeadIsLeast(b, a[0]);
      forall f ensures f in a[1..] <==> f in b[1..] {
        TailMembers(a, f);
        TailMembers(b, f);
      }
      OrderedDetermined(a[1..], b[1..]);
      assert a == [a[0]] + a[1..] && b == [b[0]] + b[1..];
    }
  }

  lemma TailMembers(a: seq<File>, f: File)
    requires Ordered(a) && a != []
    ensures f in a[1..] <==> f in a && f != a[0]
  {
    assert a == [a[0]] + a[1..];
    if f in a[1..] {
      var i :| 0 <= i < |a| - 1 && a[1..][i] == f;
      assert FileLess(a[0], a[i + 1]);
    }
  }

  // ----- replaying a manifest -----

  ghost function ApplyAll(edits: seq<LevelEdit>): LevelState {
    if edits == [] then EMPTY_STATE else ApplyLevel(ApplyAll(edits[..|edits| - 1]), edits[|edits| - 1])
  }

  /** Applying and saving the edits one at a time, as LogAndApply did when they were logged. */
  ghost function SaveEach(base: seq<File>, edits: seq<LevelEdit>): seq<File> {
    if edits == [] then base
    else SaveLevel(SaveEach(base, edits[..|edits| - 1]), ApplyLevel(EMPTY_STATE, edits[|edits| - 1]))
  }

  ghost predicate NumbersDiffer(files: seq<File>) {
    forall i, j :: 0 <= i < j < |files| ==> files[i].number != files[j].number
  }

  /** Numbers that the level has held, in `base` or by some edit. */
  ghost function Held(base: seq<File>, edits: seq<LevelEdit>): set<nat> {
    if edits == [] then NumbersOf(base)
    else Held(base, edits[..|edits| - 1]) + NumbersOf(edits[|edits| - 1].added)
  }

  /** No edit adds to the level a file number that the level already held. */
  ghost predicate NeverReAdds(base: seq<File>, edits: seq<LevelEdit>) {
    edits == [] ||
    (var before, last := edits[..|edits| - 1], edits[|edits| - 1];
     NeverReAdds(base, before) && NumbersDiffer(last.added) && NumbersOf(last.added) !! Held(base, before))
  }

  lemma LastIsNew(st: LevelState, before: LevelState, init: seq<File>, last: File)
    requires forall f :: f in before.added <==> f in st.added || f in init
    requires NumbersDiffer(init + [last]) && NumbersOf(init + [last]) !! NumbersOf(st.added)
    ensures forall f :: f in before.added ==> f.number != last.number
    ensures NumbersOf(init + [last]) == NumbersOf(init) + {last.number}
  {
    var added := init + [last];
    assert added[|init|] == last;
    forall f | f in before.added ensures f.number != last.number {
      if f in init {
        var i :| 0 <= i < |init| && init[i] == f;
        assert added[i] == f;
      } else {
        assert f.number in NumbersOf(st.added) && last.number in NumbersOf(added);
      }
    }
  }

  lemma {:induction false} AddsCollect(st: LevelState, added: seq<File>)
    requires Ordered(st.added) && NumbersDiffer(added) && NumbersOf(added) !! NumbersOf(st.added)
    ensures var r := ApplyAdds(st, added);
      && Ordered(r.added)
      && r.deleted == st.deleted - NumbersOf(added)
      && forall f :: f in r.added <==> f in st.added || f in added
  {
    if added != [] {
      var init, last := added[..|added| - 1], added[|added| - 1];
      assert added == init + [last];
      AddsCollect(st, init);
      var before := ApplyAdds(st, init);
      LastIsNew(st, before, init, last);
      InsertOrdered(before.added, last);
    }
  }

  lemma {:induction false} CollectedFacts(base: seq<File>, edits: seq<LevelEdit>)
    requires NeverReAdds(base, edits)
    ensures var st := ApplyAll(edits);
      && Ordered(st.added)
      && NumbersOf(st.added) <= Held(base, edits)
      && NumbersOf(st.added) !! NumbersOf(base)
    ensures NumbersOf(base) <= Held(base, edits)
  {
    if edits != [] {
      var init, last := edits[..|edits| - 1], edits[|edits| - 1];
      CollectedFacts(base, init);
      var st := ApplyAll(init);
      AddsCollect(LevelState(st.deleted + last.deleted, st.added), last.added);
    }
  }

  /** Saving once after every edit gives the files that saving after each edit gave. */
  lemma {:induction false} ReplayOnceIsReplayEach(base: seq<File>, edits: seq<LevelEdit>)
    requires Ordered(base) && NeverReAdds(base, edits)
    ensures SaveLevel(base, ApplyAll(edits)) == SaveEach(base, edits)
    ensures Ordered(SaveEach(base, edits)) && NumbersOf(SaveEach(base, edits)) <= Held(base, edits)
  {
    if edits == [] {
      NothingDeleted(base);
    } else {
      var init, last := edits[..|edits| - 1], edits[|edits| - 1];
      ReplayOnceIsReplayEach(base, init);
      CollectedFacts(base, init);
      CollectedFacts(base, edits);
      var st, each := ApplyAll(init), SaveEach(base, init);
      AddsCollect(LevelState(st.deleted + last.deleted, st.added), last.added);
      AddsCollect(LevelState(last.deleted, []), last.added);
      assert EMPTY_STATE.deleted + last.deleted == last.deleted;
      SavedOrdered(base, ApplyAll(edits));
      SavedOrdered(each, ApplyLevel(EMPTY_STATE, last));
      forall f ensures f in SaveLevel(base, ApplyAll(edits)) <==> f in SaveEach(base, edits) {
        if f in each { assert f.number in NumbersOf(each); }
        if f in base || f in st.added { assert f.number in NumbersOf(base) || f.number in NumbersOf(st.added); }
        if f in last.added { assert f.number in NumbersOf(last.added); }
      }
      OrderedDetermined(SaveLevel(base, ApplyAll(edits)), SaveEach(base, edits));
    }
  }

  lemma {:induction false} NothingDeleted(files: seq<File>)
    ensures WithoutDeleted(files, {}) == files
  {
    if files != [] {
      NothingDeleted(files[..|files| - 1]);
      assert files == files[..|files| - 1] + [files[|files| - 1]];
    }
  }

  lemma SavedOrdered(base: seq<File>, st: LevelState)
    requires Ordered(base) && Ordered(st.added) && NumbersOf(base) !! NumbersOf(st.added)
    ensures Ordered(SaveLevel(base, st))
  {
    forall f, g | f in base && g in st.added ensures f.number != g.number {
      assert f.number in NumbersOf(base) && g.number in NumbersOf(st.added);
    }
    MergeOrdered(base, st.added);
    WithoutDeletedOrdered(MergeFiles(base, st.added), st.deleted);
  }

  /** Why numbers must not come back: an edit that re-adds a deleted number brings the base file back too. */
  lemma ReAddingRevivesBase(stale: File, newer: File)
    requires stale != newer && stale.number == newer.number
    ensures var edits := [LevelEdit({stale.number}, []), LevelEdit({}, [newer])];
      stale in SaveLevel([stale], ApplyAll(edits)) && stale !in SaveEach([stale], edits)
  {
    var e0, e1 := LevelEdit({stale.number}, []), LevelEdit({}, [newer]);
    var edits := [e0, e1];
    assert edits[..1] == [e0] && edits[..1][..0] == [];
    var st := LevelState(ApplyAll([e0]).deleted + e1.deleted, ApplyAll([e0]).added);
    assert [newer][..0] == [];
    assert ApplyAdds(st, [newer]) == LevelState(st.deleted - {newer.number}, InsertFile(st.added, newer));
    assert ApplyAll(edits) == ApplyLevel(ApplyAll([e0]), e1) && e1.added == [newer];
    assert ApplyAll([e0]).deleted == {stale.number} by { assert ApplyAll([]) == EMPTY_STATE; }
    assert ApplyAll(edits).deleted == {};
    assert stale !in SaveEach([stale], [e0]);
    assert ApplyAdds(LevelState({} + e1.deleted, []), [newer]).added == [newer];
  }

  // ----- the builder itself -----

  datatype VersionEdit = VersionEdit(deleted: set<(nat, nat)>, added: seq<(nat, File)>)

  function AddedAt(added: seq<(nat, File)>, level: nat): seq<File> {
    if added == [] then []
    else
      var before := AddedAt(added[..|added| - 1], level);
      var last := added[|added| - 1];
      if last.0 == level then before + [last.1] else before
  }

  function EditAt(e: VersionEdit, level: nat): LevelEdit {
    LevelEdit(DeletedAt(e.deleted, level), AddedAt(e.added, level))
  }

  function DeletedAt(deleted: set<(nat, nat)>, level: nat): set<nat> {
    set p | p in deleted && p.0 == level :: p.1
  }

  lemma InDeletedAt(deleted: set<(nat, nat)>, level: nat)
    ensures forall n :: n in DeletedAt(deleted, level) <==> (level, n) in deleted
  {
    forall n | (level, n) in deleted ensures n in DeletedAt(deleted, level) {
      var p := (level, n);
      assert p in deleted && p.0 == level && p.1 == n;
    }
  }

  class VersionBuilder {
    const base: Levels
    var states: seq<LevelState>

    ghost predicate Valid()
      reads this
    {
      |base| == NUM_LEVELS && |states| == NUM_LEVELS
    }

    constructor (base: Levels)
      requires |base| == NUM_LEVELS
      ensures Valid() && this.base == base && forall l :: 0 <= l < NUM_LEVELS ==> states[l] == EMPTY_STATE
    {
      this.base := base;
      states := seq(NUM_LEVELS, _ => EMPTY_STATE);
    }

    method Apply(e: VersionEdit)
      requires Valid()
      requires forall p :: p in e.deleted ==> p.0 < NUM_LEVELS
      requires forall p :: p in e.added ==> p.0 < NUM_LEVELS
      modifies this
      ensures Valid() && forall l :: 0 <= l < NUM_LEVELS ==> states[l] == ApplyLevel(old(states[l]), EditAt(e, l))
    {
      DeleteFiles(e.deleted);
      AddFiles(e.added);
    }

    method DeleteFiles(deleted: set<(nat, nat)>)
      requires Valid() && forall p :: p in deleted ==> p.0 < NUM_LEVELS
      modifies this
      ensures Valid() && forall l :: 0 <= l < NUM_LEVELS ==>
        states[l] == LevelState(old(states[l]).deleted + DeletedAt(deleted, l), old(states[l]).added)
    {
      var todo := deleted;
      while todo != {}
        invariant |states| == NUM_LEVELS && todo <= deleted
        invariant forall l :: 0 <= l < NUM_LEVELS ==> states[l].added == old(states[l]).added
        invariant forall l, n :: 0 <= l < NUM_LEVELS ==>
          (n in states[l].deleted <==> n in old(states[l]).deleted || ((l, n) in deleted && (l, n) !in todo))
        decreases |todo|
      {
        var p :| p in todo;
        states := states[p.0 := states[p.0].(deleted := states[p.0].deleted + {p.1})];
        todo := todo - {p};
      }
      forall l | 0 <= l < NUM_LEVELS ensures states[l].deleted == old(states[l]).deleted + DeletedAt(deleted, l) {
        InDeletedAt(deleted, l);
      }
    }

    method AddFiles(added: seq<(nat, File)>)
      requires Valid() && forall p :: p in added ==> p.0 < NUM_LEVELS
      modifies this
      ensures Valid() && forall l :: 0 <= l < NUM_LEVELS ==> states[l] == ApplyAdds(old(states[l]), AddedAt(added, l))
    {
      for i := 0 to |added|
        invariant |states| == NUM_LEVELS
        invariant forall l :: 0 <= l < NUM_LEVELS ==> states[l] == ApplyAdds(old(states[l]), AddedAt(added[..i], l))
      {
        var (level, f) := added[i];
        assert added[i] in added;
        var st := states[level];
        states := states[level := LevelState(st.deleted - {f.number}, InsertFile(st.added, f))];
        forall l ensures AddedAt(added[..i + 1], l) == AddedAt(added[..i], l) + if l == level then [f] else [] {
          assert added[..i + 1][..i] == added[..i];
        }
        assert ApplyAdds(old(states[level]), AddedAt(added[..i], level) + [f]) == states[level] by {
          assert (AddedAt(added[..i], level) + [f])[..|AddedAt(added[..i], level)|] == AddedAt(added[..i], level);
        }
      }
      assert added[..|added|] == added;
    }

    /** The merge loop; `upper_bound` over the ordered rest of the base stops at the first larger file. */
    method SaveTo() returns (levels: Levels)
      requires Valid()
      ensures |levels| == NUM_LEVELS && forall l :: 0 <= l < NUM_LEVELS ==> levels[l] == SaveLevel(base[l], states[l])
    {
      levels := [];
      for level := 0 to NUM_LEVELS
        invariant |levels| == level && forall l :: 0 <= l < level ==> levels[l] == SaveLevel(base[l], states[l])
      {
        var files := SaveLevelTo(base[level], states[level]);
        levels := levels + [files];
      }
    }
  }

  /** After `i` base files and `j` added files, `seen` is the part of the merge already passed. */
  ghost predicate MergedSoFar(base: seq<File>, added: seq<File>, i: nat, j: nat, seen: seq<File>) {
    i <= |base| && j <= |added| && seen + MergeFiles(base[i..], added[j..]) == MergeFiles(base, added)
  }

  method SaveLevelTo(base: seq<File>, st: LevelState) returns (files: seq<File>)
    ensures files == SaveLevel(base, st)
  {
    files := [];
    var baseIter, addedIter := 0, 0;
    ghost var seen := [];
    while addedIter < |st.added|
      invariant files == WithoutDeleted(seen, st.deleted)
      invariant MergedSoFar(base, st.added, baseIter, addedIter, seen)
    {
      baseIter, files, seen := AddSmaller(base, st, baseIter, addedIter, files, seen);
      MergeTakesAdded(base, st.added, baseIter, addedIter, seen);
      files := MaybeAddFile(files, st.added[addedIter], st.deleted, seen);
      seen := seen + [st.added[addedIter]];
      addedIter := addedIter + 1;
    }
    files := AddRemaining(base, st, baseIter, files, seen);
  }

  /** The files of the base up to the upper bound of the next added one. */
  method AddSmaller(base: seq<File>, st: LevelState, start: nat, addedIter: nat, files: seq<File>,
                    ghost passed: seq<File>)
    returns (baseIter: nat, r: seq<File>, ghost seen: seq<File>)
    requires addedIter < |st.added| && files == WithoutDeleted(passed, st.deleted)
    requires MergedSoFar(base, st.added, start, addedIter, passed)
    ensures r == WithoutDeleted(seen, st.deleted) && MergedSoFar(base, st.added, baseIter, addedIter, seen)
    ensures baseIter == |base| || FileLess(st.added[addedIter], base[baseIter])
  {
    baseIter, r, seen := start, files, passed;
    while baseIter < |base| && !FileLess(st.added[addedIter], base[baseIter])
      invariant r == WithoutDeleted(seen, st.deleted)
      invariant MergedSoFar(base, st.added, baseIter, addedIter, seen)
    {
      MergeTakesBase(base, st.added, baseIter, addedIter, seen);
      r := MaybeAddFile(r, base[baseIter], st.deleted, seen);
      seen := seen + [base[baseIter]];
      baseIter := baseIter + 1;
    }
  }

  method AddRemaining(base: seq<File>, st: LevelState, start: nat, files: seq<File>, ghost passed: seq<File>)
    returns (r: seq<File>)
    requires files == WithoutDeleted(passed, st.deleted)
    requires MergedSoFar(base, st.added, start, |st.added|, passed)
    ensures r == SaveLevel(base, st)
  {
    r := files;
    var baseIter := start;
    ghost var seen := passed;
    while baseIter < |base|
      invariant r == WithoutDeleted(seen, st.deleted)
      invariant MergedSoFar(base, st.added, baseIter, |st.added|, seen)
    {
      MergeTakesRest(base, st.added, baseIter, seen);
      r := MaybeAddFile(r, base[baseIter], st.deleted, seen);
      seen := seen + [base[baseIter]];
      baseIter := baseIter + 1;
    }
    assert seen == MergeFiles(base, st.added);
  }

  lemma MergeTakesBase(base: seq<File>, added: seq<File>, i: nat, j: nat, seen: seq<File>)
    requires i < |base| && j < |added| && !FileLess(added[j], base[i])
    requires MergedSoFar(base, added, i, j, seen)
    ensures MergedSoFar(base, added, i + 1, j, seen + [base[i]])
  {
    assert base[i..][1..] == base[i + 1..];
  }

  lemma MergeTakesAdded(base: seq<File>, added: seq<File>, i: nat, j: nat, seen: seq<File>)
    requires i <= |base| && j < |added| && (i == |base| || FileLess(added[j], base[i]))
    requires MergedSoFar(base, added, i, j, seen)
    ensures MergedSoFar(base, added, i, j + 1, seen + [added[j]])
  {
    assert added[j..] == [added[j]] + added[j + 1..];
  }

  lemma MergeTakesRest(base: seq<File>, added: seq<File>, i: nat, seen: seq<File>)
    requires i < |base| && MergedSoFar(base, added, i, |added|, seen)
    ensures MergedSoFar(base, added, i + 1, |added|, seen + [base[i]])
  {
    assert base[i..] == [base[i]] + base[i + 1..];
  }

  method MaybeAddFile(files: seq<File>, f: File, deleted: set<nat>, ghost seen: seq<File>) returns (r: seq<File>)
    requires files == WithoutDeleted(seen, deleted)
    ensures r == WithoutDeleted(seen + [f], deleted)
  {
    assert (seen + [f])[..|seen|] == seen;
    r := if f.number in deleted then files else files + [f];
  }
}
