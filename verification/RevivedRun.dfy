/** The version of the example in Resurrection is one that a run of the database reaches (db/db_impl.cc). */
module RevivedRun {
  import opened Keys
  import opened Reads
  import opened Version
  import opened Inputs
  import opened Builder
  import opened Compacting
  import opened Install
  import opened Manifest
  import opened Engine
  import opened Invariant
  import opened Steps
  import opened Store
  import opened FlushSteps
  import opened CompactionSteps
  import opened Readers
  import opened Runs
  import opened Resurrection

  // ----- from rest to rest -----

  /** A database at rest: nothing is pending, being flushed or being compacted, and nothing has been revived. */
  datatype Rest = Rest(levels: Levels, mem: seq<Entry>, lastSequence: Sequence, snapshots: seq<Sequence>, nextFile: nat)

  ghost predicate RestsAt(first: Plan, steps: seq<Step>, r: Rest) {
    Run(first, steps) && IsAtRest(Final(first, steps), r)
  }

  ghost predicate IsAtRest(db: DB, r: Rest) {
    && db.pending.None? && db.imm.None? && db.background.Idle? && db.revived == map[]
    && db.levels == r.levels && db.mem == r.mem && db.lastSequence == r.lastSequence
    && db.snapshots == r.snapshots && db.nextFile == r.nextFile
  }

  lemma LogIsThere(db: DB, h: set<Entry>, last: Record)
    requires Inv(db, h, last)
    ensures db.logfileNumber in db.disk.logs
  {
  }

  lemma WriteRests(db: DB, r: Rest, ops: seq<Op>)
    requires IsAtRest(db, r) && r.lastSequence + |ops| + 1 < MAX_SEQUENCE && db.logfileNumber in db.disk.logs
    ensures AppendReady(db, ops) && ApplyReady(AppendToLog(db, ops))
    ensures IsAtRest(ApplyPending(AppendToLog(db, ops)),
        r.(mem := InsertAll(r.mem, Stamp(ops, r.lastSequence + 1)), lastSequence := r.lastSequence + |ops|))
  {
  }

  lemma Writes(first: Plan, steps: seq<Step>, r: Rest, ops: seq<Op>)
    requires RestsAt(first, steps, r) && r.lastSequence + |ops| + 1 < MAX_SEQUENCE
    ensures RestsAt(first, steps + [Append(ops)] + [Publish],
        r.(mem := InsertAll(r.mem, Stamp(ops, r.lastSequence + 1)), lastSequence := r.lastSequence + |ops|))
  {
    var last := Runs.RunKeeps(first, steps);
    LogIsThere(Final(first, steps), History(AllOps(steps)), last);
    WriteRests(Final(first, steps), r, ops);
    RunSnoc(first, steps, Append(ops));
    RunSnoc(first, steps + [Append(ops)], Publish);
  }

  lemma Snaps(first: Plan, steps: seq<Step>, r: Rest)
    requires RestsAt(first, steps, r)
    ensures RestsAt(first, steps + [Snap], r.(snapshots := r.snapshots + [r.lastSequence]))
  {
    RunSnoc(first, steps, Snap);
  }

  lemma Releases(first: Plan, steps: seq<Step>, r: Rest)
    requires RestsAt(first, steps, r) && |r.snapshots| == 1
    ensures RestsAt(first, steps + [Release(0)], r.(snapshots := []))
  {
    RunSnoc(first, steps, Release(0));
  }

  lemma FlushRests(db: DB, r: Rest, level: nat, size: nat)
    requires IsAtRest(db, r) && r.mem != [] && Sorted(r.mem) && FlushLevelFits(r.levels, level, r.mem)
    ensures SwitchReady(db) && FlushReady(SwitchMemtable(db), level)
    ensures IsAtRest(InstallFlush(StartFlush(SwitchMemtable(db), level, size)),
        r.(levels := ApplyEdit(r.levels, FlushEdit(level, FinishedFile(r.nextFile + 1, size, r.mem))), mem := [],
           nextFile := r.nextFile + 2))
  {
  }

  lemma Flushes(first: Plan, steps: seq<Step>, r: Rest, level: nat, size: nat)
    requires RestsAt(first, steps, r) && r.mem != [] && Sorted(r.mem) && FlushLevelFits(r.levels, level, r.mem)
    ensures RestsAt(first, steps + [Switch] + [BeginFlush(level, size)] + [EndFlush],
        r.(levels := ApplyEdit(r.levels, FlushEdit(level, FinishedFile(r.nextFile + 1, size, r.mem))), mem := [],
           nextFile := r.nextFile + 2))
  {
    FlushRests(Final(first, steps), r, level, size);
    RunSnoc(first, steps, Switch);
    RunSnoc(first, steps + [Switch], BeginFlush(level, size));
    RunSnoc(first, steps + [Switch] + [BeginFlush(level, size)], EndFlush);
  }

  function SmallestOf(r: Rest): Sequence {
    if r.snapshots == [] then r.lastSequence else r.snapshots[0]
  }

  lemma StoredAtRest(db: DB, h: set<Entry>, last: Record)
    requires Inv(db, h, last) && db.pending.None? && db.imm.None? && db.mem == []
    ensures Stored(db) == AllContents(db.levels)
  {
    ContentIsStored(db);
  }

  lemma AllInputsReady(db: DB, r: Rest, c: Compaction, merged: seq<Entry>, outs: seq<File>)
    requires IsAtRest(db, r) && Stored(db) == AllContents(r.levels)
    requires ValidCompaction(r.levels, c) && MergeOf(c, merged) && InputContents(c) == AllContents(r.levels)
    requires Outputs(outs, [], r.nextFile, r.nextFile + |outs|,
        Kept(r.levels, c.level, merged, |merged|, SmallestOf(r)))
    ensures CompactionWritten(db, c, merged, outs)
    ensures UncoveredKeys(db.levels, c, Stored(db), SmallestSnapshot(db)) == {}
  {
    NothingLeftToUncover(db.levels, c, Stored(db), SmallestSnapshot(db));
  }

  lemma CompactionRests(db: DB, r: Rest, c: Compaction, outs: seq<File>)
    requires IsAtRest(db, r) && |r.levels| == NUM_LEVELS
    requires UncoveredKeys(db.levels, c, Stored(db), SmallestSnapshot(db)) == {}
    ensures StartCompaction(db, c, outs).levels == r.levels && StartCompaction(db, c, outs).background.Compacting?
    ensures IsAtRest(InstallCompaction(StartCompaction(db, c, outs)),
        r.(levels := ApplyEdit(r.levels, CompactionEdit(c, outs)), nextFile := r.nextFile + |outs|))
  {
    var begun := StartCompaction(db, c, outs);
    assert Stored(begun) == Stored(db) && Revive(map[], {}, Top(begun)) == map[];
  }

  /** A compaction of everything there is. */
  lemma Compacts(first: Plan, steps: seq<Step>, r: Rest, c: Compaction, merged: seq<Entry>, outs: seq<File>)
    requires RestsAt(first, steps, r) && ValidCompaction(r.levels, c) && MergeOf(c, merged) && r.mem == []
    requires InputContents(c) == AllContents(r.levels)
    requires Outputs(outs, [], r.nextFile, r.nextFile + |outs|,
        Kept(r.levels, c.level, merged, |merged|, SmallestOf(r)))
    ensures RestsAt(first, steps + [BeginCompaction(c, merged, outs)] + [EndCompaction],
        r.(levels := ApplyEdit(r.levels, CompactionEdit(c, outs)), nextFile := r.nextFile + |outs|))
  {
    var last := Runs.RunKeeps(first, steps);
    StoredAtRest(Final(first, steps), History(AllOps(steps)), last);
    AllInputsReady(Final(first, steps), r, c, merged, outs);
    CompactionRests(Final(first, steps), r, c, outs);
    RunSnoc(first, steps, BeginCompaction(c, merged, outs));
    RunSnoc(first, steps + [BeginCompaction(c, merged, outs)], EndCompaction);
  }

  lemma NothingLeftToUncover(levels: Levels, c: Compaction, stored: set<Entry>, smallest: Sequence)
    requires stored == InputContents(c)
    ensures UncoveredKeys(levels, c, stored, smallest) == {}
  {
    assert stored - InputContents(c) == {};
  }

  // ----- which levels there are, from their members -----

  lemma MemberAt(files: seq<File>, i: nat)
    requires i < |files|
    ensures files[i] in files
  {
  }

  lemma NoFile(files: seq<File>)
    requires forall f :: f !in files
    ensures files == []
  {
    if files != [] { MemberAt(files, 0); }
  }

  lemma OneFile(files: seq<File>, f: File)
    requires Ordered(files) && forall g :: g in files <==> g == f
    ensures files == [f]
  {
    assert f in files;
    assert |files| > 1 ==> files[0] in files && files[1] in files && FileLess(files[0], files[1]);
  }

  /** Files `f` and `g` alone, in this order. */
  ghost predicate Pair(files: seq<File>, f: File, g: File) {
    Ordered(files) && FileLess(f, g) && !FileLess(g, f) && forall h :: h in files <==> h == f || h == g
  }

  lemma PairAt(files: seq<File>, f: File, g: File, k: nat, l: nat)
    requires Pair(files, f, g) && k < l < |files|
    ensures files[k] == f && files[l] == g
  {
    MemberAt(files, k);
    MemberAt(files, l);
    assert FileLess(files[k], files[l]);
  }

  lemma TwoFiles(files: seq<File>, f: File, g: File)
    requires Pair(files, f, g)
    ensures files == [f, g]
  {
    assert f in files && g in files && f != g;
    var i :| 0 <= i < |files| && files[i] == f;
    var j :| 0 <= j < |files| && files[j] == g;
    PairAt(files, f, g, 0, 1);
    if |files| > 2 { PairAt(files, f, g, 1, 2); }
  }

  // ----- the run -----

  const FIRST := Plan([], None, 3, 4, false, true, 0)

  const PUT_BURIED := Op(2.0, Value, [4])
  const PUT_OLD_A := Op(1.0, Value, [2])
  const DELETE_BURIED := Op(2.0, Deletion, [])
  const PUT_NEW_A := Op(1.0, Value, [1])

  const MERGED := [OLD_A, MARKER, BURIED]
  const FLUSHED := File(5, 1, OLD_A.key, BURIED.key, MERGED)
  const SPLIT := Compaction(2, [FLUSHED], [], OLD_A.key, BURIED.key)

  const BEFORE_SPLIT: Levels := [[], [], [FLUSHED], [], [], [], []]
  const AFTER_SPLIT: Levels := [[], [], [], [LOWER, BEHIND], [], [], []]

  /** A value, a snapshot that still needs it, its deletion with another key. */
  function StepsToDelete(): seq<Step> {
    [] + [Append([PUT_BURIED])] + [Publish] + [Snap] + [Append([PUT_OLD_A, DELETE_BURIED])] + [Publish]
  }

  /** All that is flushed to level 2. */
  function StepsToFlush(): seq<Step> {
    StepsToDelete() + [Switch] + [BeginFlush(2, 1)] + [EndFlush]
  }

  /**
   * A compaction that puts the deletion and the value into two files; then the snapshot is released. A manual one,
   * since any other of a single file with none below it just moves that; and for the cut to fall there, entries of
   * other keys have to fill the first file up to its size limit.
   */
  function StepsToSplit(): seq<Step> {
    StepsToFlush() + [BeginCompaction(SPLIT, MERGED, [LOWER, BEHIND])] + [EndCompaction] + [Release(0)]
  }

  /** A newer value of the other key is flushed above. */
  function StepsToExample(): seq<Step> {
    StepsToSplit() + [Append([PUT_NEW_A])] + [Publish] + [Switch] + [BeginFlush(2, 1)] + [EndFlush]
  }

  lemma HasEntry(levels: Levels, l: nat)
    requires l < |levels| && levels[l] != [] && ValidFiles(levels[l])
    ensures AllContents(levels) != {}
  {
    var f := levels[l][0];
    assert levels[l] in levels && f in levels[l] && f.table[0] in f.table;
    assert f.table[0] in AllContents(levels);
  }

  lemma EmptyVersion(levels: Levels)
    requires OrderedVersion(levels) && AllContents(levels) == {}
    ensures levels == NO_FILES
  {
    forall l | 0 <= l < NUM_LEVELS ensures levels[l] == [] {
      if levels[l] != [] { HasEntry(levels, l); }
    }
  }

  lemma FirstPlan()
    ensures CanRecover(NEW_DISK, [], {}, FIRST)
  {
    var disk := Littered(NEW_DISK, [], {});
    assert disk.logs == map[];
    assert LogEntries(disk.logs, 0) == {};
    assert Contents([]) == {} && Elements([]) == {};
  }

  lemma NothingStored(db: DB, last: Record)
    requires Inv(db, {}, last)
    ensures AllContents(db.levels) == {} && OrderedVersion(db.levels)
  {
  }

  lemma AtFirst()
    ensures RestsAt(FIRST, [], Rest(NO_FILES, [], 0, [], 4))
  {
    FirstPlan();
    var last := StartKeeps(FIRST);
    NothingStored(Final(FIRST, []), last);
    EmptyVersion(Final(FIRST, []).levels);
  }

  lemma Inserted()
    ensures InsertAll([], Stamp([PUT_BURIED], 1)) == [BURIED]
    ensures InsertAll([BURIED], Stamp([PUT_OLD_A, DELETE_BURIED], 2)) == MERGED
    ensures InsertAll([], Stamp([PUT_NEW_A], 4)) == [NEW_A]
  {
    assert Stamp([PUT_BURIED], 1) == [BURIED] && Stamp([PUT_NEW_A], 4) == [NEW_A];
    OneInserted([], BURIED);
    OneInserted([], NEW_A);
    var batch := Stamp([PUT_OLD_A, DELETE_BURIED], 2);
    assert batch == [OLD_A, MARKER] && batch[..1] == [OLD_A];
    OneInserted([BURIED], OLD_A);
    assert InsertAll([BURIED], batch) == InsertEntry(InsertAll([BURIED], [OLD_A]), MARKER);
    assert InsertEntry([BURIED], OLD_A) == [OLD_A, BURIED] && InsertEntry([BURIED], MARKER) == [MARKER, BURIED];
    assert [OLD_A, BURIED][1..] == [BURIED];
    assert InsertEntry([OLD_A, BURIED], MARKER) == [OLD_A] + InsertEntry([BURIED], MARKER);
  }

  lemma OneInserted(mem: seq<Entry>, e: Entry)
    ensures InsertAll(mem, [e]) == InsertEntry(mem, e)
  {
    assert [e][..0] == [];
  }

  lemma FlushedOnce()
    ensures ApplyEdit(NO_FILES, FlushEdit(2, FLUSHED)) == BEFORE_SPLIT
  {
    var after := ApplyEdit(NO_FILES, FlushEdit(2, FLUSHED));
    forall l | 0 <= l < NUM_LEVELS ensures after[l] == BEFORE_SPLIT[l] {
      FlushMembersAt(NO_FILES, 2, FLUSHED, l);
      if l == 2 { OneFile(after[l], FLUSHED); } else { NoFile(after[l]); }
    }
  }

  lemma SplitApplied()
    ensures ApplyEdit(BEFORE_SPLIT, CompactionEdit(SPLIT, [LOWER, BEHIND])) == AFTER_SPLIT
  {
    var after := ApplyEdit(BEFORE_SPLIT, CompactionEdit(SPLIT, [LOWER, BEHIND]));
    forall l | 0 <= l < NUM_LEVELS ensures after[l] == AFTER_SPLIT[l] {
      CompactionReplacesAt(BEFORE_SPLIT, SPLIT, [LOWER, BEHIND], l);
      if l == 3 { TwoFiles(after[l], LOWER, BEHIND); } else { NoFile(after[l]); }
    }
  }

  lemma FlushedAbove()
    ensures ApplyEdit(AFTER_SPLIT, FlushEdit(2, UPPER)) == LEVELS
  {
    var after := ApplyEdit(AFTER_SPLIT, FlushEdit(2, UPPER));
    forall l | 0 <= l < NUM_LEVELS ensures after[l] == LEVELS[l] {
      FlushMembersAt(AFTER_SPLIT, 2, UPPER, l);
      if l == 2 { OneFile(after[l], UPPER); }
      else if l == 3 { TwoFiles(after[l], LOWER, BEHIND); }
      else { NoFile(after[l]); }
    }
  }

  lemma {:induction false} AllKept(levels: Levels, level: nat, merged: seq<Entry>, n: nat, smallest: Sequence)
    requires n <= |merged| && forall i :: 0 <= i < n ==> !Dropped(levels, level, merged, i, smallest)
    ensures Kept(levels, level, merged, n, smallest) == merged[..n]
  {
    if n > 0 {
      AllKept(levels, level, merged, n - 1, smallest);
      assert merged[..n] == merged[..n - 1] + [merged[n - 1]];
    }
  }

  /** The snapshot at 1 keeps the value and its deletion apart. */
  lemma SplitWritten()
    ensures Outputs([LOWER, BEHIND], [], 6, 8, Kept(BEFORE_SPLIT, 2, MERGED, |MERGED|, 1))
  {
    AllKept(BEFORE_SPLIT, 2, MERGED, |MERGED|, 1);
    assert MERGED[..|MERGED|] == MERGED;
    var outs := [LOWER, BEHIND];
    assert outs[..1] == [LOWER] && outs[..1][..0] == [];
    assert Concat(outs) == Concat([LOWER]) + BEHIND.table && Concat([LOWER]) == Concat([]) + LOWER.table;
    assert Concat(outs) + [] == MERGED;
    ExampleFiles();
  }

  lemma SplitValid()
    ensures ValidCompaction(BEFORE_SPLIT, SPLIT) && MergeOf(SPLIT, MERGED)
    ensures InputContents(SPLIT) == AllContents(BEFORE_SPLIT)
  {
    assert Selected([], Some(1.0), Some(2.0)) == [];
    assert FLUSHED in SPLIT.inputs0 && BEFORE_SPLIT[2] in BEFORE_SPLIT && FLUSHED in BEFORE_SPLIT[2];
    forall e ensures e in AllContents(BEFORE_SPLIT) <==> e in InputContents(SPLIT) {
      if e in AllContents(BEFORE_SPLIT) { var i, f := Locate(BEFORE_SPLIT, e); }
    }
  }

  lemma ReachesDelete()
    ensures RestsAt(FIRST, StepsToDelete(), Rest(NO_FILES, MERGED, 3, [1], 4))
  {
    AtFirst();
    Inserted();
    Writes(FIRST, [], Rest(NO_FILES, [], 0, [], 4), [PUT_BURIED]);
    var written := [] + [Append([PUT_BURIED])] + [Publish];
    Snaps(FIRST, written, Rest(NO_FILES, [BURIED], 1, [], 4));
    Writes(FIRST, written + [Snap], Rest(NO_FILES, [BURIED], 1, [1], 4), [PUT_OLD_A, DELETE_BURIED]);
  }

  lemma ReachesFlush()
    ensures RestsAt(FIRST, StepsToFlush(), Rest(BEFORE_SPLIT, [], 3, [1], 6))
  {
    ReachesDelete();
    Flushes(FIRST, StepsToDelete(), Rest(NO_FILES, MERGED, 3, [1], 4), 2, 1);
    FlushedOnce();
  }

  lemma ReachesSplit()
    ensures RestsAt(FIRST, StepsToSplit(), Rest(AFTER_SPLIT, [], 3, [], 8))
  {
    ReachesFlush();
    SplitWritten();
    SplitValid();
    Compacts(FIRST, StepsToFlush(), Rest(BEFORE_SPLIT, [], 3, [1], 6), SPLIT, MERGED, [LOWER, BEHIND]);
    SplitApplied();
    var split := StepsToFlush() + [BeginCompaction(SPLIT, MERGED, [LOWER, BEHIND])] + [EndCompaction];
    Releases(FIRST, split, Rest(AFTER_SPLIT, [], 3, [1], 8));
  }

  /** The version of the example is one that the database comes to. */
  lemma ReachesExample()
    ensures RestsAt(FIRST, StepsToExample(), Rest(LEVELS, [], 4, [], 10))
  {
    ReachesSplit();
    Inserted();
    Writes(FIRST, StepsToSplit(), Rest(AFTER_SPLIT, [], 3, [], 8), [PUT_NEW_A]);
    var written := StepsToSplit() + [Append([PUT_NEW_A])] + [Publish];
    Flushes(FIRST, written, Rest(AFTER_SPLIT, [NEW_A], 4, [], 8), 2, 1);
    FlushedAbove();
  }

  lemma ExampleOutput(merged: seq<Entry>, out: File)
    requires merged == [NEW_A, OLD_A, MARKER] && out == File(10, 1, NEW_A.key, NEW_A.key, [NEW_A])
    ensures Outputs([out], [], 10, 11, Kept(LEVELS, 2, merged, |merged|, 4))
  {
    ExampleFiles();
    assert !Dropped(LEVELS, 2, merged, 0, 4) && Dropped(LEVELS, 2, merged, 1, 4);
    assert BaseLevelFor(LEVELS, 2, 2.0);
    assert Dropped(LEVELS, 2, merged, 2, 4);
    assert Kept(LEVELS, 2, merged, 1, 4) == Kept(LEVELS, 2, merged, 0, 4) + [NEW_A];
    assert Kept(LEVELS, 2, merged, 2, 4) == [NEW_A] && Kept(LEVELS, 2, merged, 3, 4) == [NEW_A];
    assert [out][..0] == [];
    assert Concat([out]) == Concat([]) + out.table;
  }

  lemma WrittenAtRest(db: DB, merged: seq<Entry>, out: File)
    requires IsAtRest(db, Rest(LEVELS, [], 4, [], 10))
    requires merged == [NEW_A, OLD_A, MARKER] && out == File(10, 1, NEW_A.key, NEW_A.key, [NEW_A])
    ensures CompactionWritten(db, COMPACTION, merged, [out])
  {
    ExampleCompaction();
    ExampleInputs();
    ExampleOutput(merged, out);
  }

  /** The compaction can go ahead there: its inputs merge to three entries, of which one is kept. */
  lemma ExampleWritten()
    ensures Run(FIRST, StepsToExample())
    ensures CompactionWritten(Final(FIRST, StepsToExample()), COMPACTION, [NEW_A, OLD_A, MARKER],
        [File(10, 1, NEW_A.key, NEW_A.key, [NEW_A])])
  {
    ReachesExample();
    WrittenAtRest(Final(FIRST, StepsToExample()), [NEW_A, OLD_A, MARKER], File(10, 1, NEW_A.key, NEW_A.key, [NEW_A]));
  }

  function AfterwardsTo(merged: seq<Entry>, outs: seq<File>): seq<Step> {
    StepsToExample() + [BeginCompaction(COMPACTION, merged, outs)] + [EndCompaction]
  }

  lemma Afterwards(merged: seq<Entry>, outs: seq<File>)
    requires Run(FIRST, StepsToExample())
    requires CompactionWritten(Final(FIRST, StepsToExample()), COMPACTION, merged, outs)
    ensures Run(FIRST, AfterwardsTo(merged, outs)) && AllOps(AfterwardsTo(merged, outs)) == AllOps(StepsToExample())
    ensures Final(FIRST, AfterwardsTo(merged, outs))
        == InstallCompaction(StartCompaction(Final(FIRST, StepsToExample()), COMPACTION, outs))
  {
    RunSnoc(FIRST, StepsToExample(), BeginCompaction(COMPACTION, merged, outs));
    var begun := StepsToExample() + [BeginCompaction(COMPACTION, merged, outs)];
    RunSnoc(FIRST, begun, EndCompaction);
    assert begun[..|begun| - 1] == StepsToExample();
    assert AfterwardsTo(merged, outs)[..|begun|] == begun;
  }

  /** What is stored before the compaction that is picked there, and after it. */
  lemma ExampleStored(db: DB, h: set<Entry>, last: Record, merged: seq<Entry>, outs: seq<File>)
    requires Inv(db, h, last) && IsAtRest(db, Rest(LEVELS, [], 4, [], 10))
    requires CompactionWritten(db, COMPACTION, merged, outs)
    ensures Read(Stored(db), 2.0, 4) == NotFound
    ensures Read(Stored(InstallCompaction(StartCompaction(db, COMPACTION, outs))), 2.0, 4) == Found([4])
  {
    StoredAtRest(db, h, last);
    CompactedStored(db, h, last, COMPACTION, merged, outs);
    DroppedMarkerRevivesValue();
    Rearranged(AllContents(LEVELS), InputContents(COMPACTION), LogEntries(db.disk.logs, db.logNumber),
        Survivors(LEVELS, 2, InputContents(COMPACTION), 4));
  }

  lemma StoredIsContent(first: Plan, steps: seq<Step>)
    requires Run(first, steps)
    ensures Content(Final(first, steps)) == Stored(Final(first, steps))
  {
    var last := Runs.RunKeeps(first, steps);
    ContentIsStored(Final(first, steps));
  }

  /**
   * And there the compaction that it picks for that file brings the deleted value back: absent in the plain map,
   * absent before, found after, whatever files the outputs are cut into.
   */
  lemma RunRevives(merged: seq<Entry>, outs: seq<File>)
    requires Run(FIRST, StepsToExample())
    requires CompactionWritten(Final(FIRST, StepsToExample()), COMPACTION, merged, outs)
    ensures var before, after := Final(FIRST, StepsToExample()), AfterwardsTo(merged, outs);
      && |AllOps(StepsToExample())| == 4 && Lookup(StoreAfter(AllOps(StepsToExample()), 4), 2.0) == NotFound
      && Read(Content(before), 2.0, 4) == NotFound
      && Run(FIRST, after) && AllOps(after) == AllOps(StepsToExample())
      && Read(Content(Final(FIRST, after)), 2.0, 4) == Found([4]) && 2.0 in Final(FIRST, after).revived
  {
    ReachesExample();
    var last := Runs.RunKeeps(FIRST, StepsToExample());
    ExampleStored(Final(FIRST, StepsToExample()), History(AllOps(StepsToExample())), last, merged, outs);
    StoredIsContent(FIRST, StepsToExample());
    EveryRunReadsLikeTheStore(FIRST, StepsToExample(), 2.0, 4);
    Afterwards(merged, outs);
    StoredIsContent(FIRST, AfterwardsTo(merged, outs));
    MustBeRevived(merged, outs);
  }

  lemma MustBeRevived(merged: seq<Entry>, outs: seq<File>)
    requires Run(FIRST, AfterwardsTo(merged, outs)) && |AllOps(AfterwardsTo(merged, outs))| == 4
    requires Lookup(StoreAfter(AllOps(AfterwardsTo(merged, outs)), 4), 2.0) == NotFound
    requires SmallestSnapshot(Final(FIRST, AfterwardsTo(merged, outs))) <= 4
    requires Read(Content(Final(FIRST, AfterwardsTo(merged, outs))), 2.0, 4) == Found([4])
    ensures 2.0 in Final(FIRST, AfterwardsTo(merged, outs)).revived
  {
    if 2.0 !in Final(FIRST, AfterwardsTo(merged, outs)).revived {
      EveryRunReadsLikeTheStore(FIRST, AfterwardsTo(merged, outs), 2.0, 4);
    }
  }

  lemma Rearranged(all: set<Entry>, inputs: set<Entry>, kept: set<Entry>, out: set<Entry>)
    requires kept == {} && inputs <= all
    ensures inputs + (all - inputs) == all && ((all - inputs) + out) + kept == out + (all - inputs)
  {
  }
}
