/** Compactions and trivial moves keep the invariant. */
module CompactionSteps {
  import opened Keys
  import opened Reads
  import opened Version
  import opened Inputs
  import opened Builder
  import opened Compacting
  import opened Install
  import opened Manifest
  import opened Engine
  import opened Invariant
  import opened Steps
  import opened FlushSteps

  // ----- running a compaction -----

  /** What DoCompactionWork writes for a picked compaction; `merged` is its input in key order. */
  ghost predicate CompactionWritten(db: DB, c: Compaction, merged: seq<Entry>, outs: seq<File>) {
    && db.background.Idle? && ValidCompaction(db.levels, c) && MergeOf(c, merged)
    && Outputs(outs, [], db.nextFile, db.nextFile + |outs|,
         Kept(db.levels, c.level, merged, |merged|, SmallestSnapshot(db)))
  }

  lemma MergedDistinct(levels: Levels, c: Compaction, merged: seq<Entry>)
    requires ValidVersion(levels) && ValidCompaction(levels, c) && MergeOf(c, merged)
    ensures Distinct(Elements(merged))
  {
    InputsInVersion(levels, c);
  }

  lemma NumberedOneByOne(outs: seq<File>, first: nat, written: seq<Entry>)
    requires Outputs(outs, [], first, first + |outs|, written)
    ensures forall f :: f in outs ==> first <= f.number < first + |outs|
    ensures NumbersDiffer(outs)
  {
  }

  lemma UncoversItsKeys(levels: Levels, c: Compaction, stored: set<Entry>, smallest: Sequence, keys: set<UserKey>)
    requires UncoveredKeys(levels, c, stored, smallest) <= keys
    ensures UncoversOnly(keys, levels, c, stored, smallest)
  {
    var inputs := InputContents(c);
    forall m, o | Uncovers(levels, c.level, inputs, stored - inputs, smallest, m, o) ensures m.key.user in keys {
      assert UncoversSome(levels, c, stored, smallest, m);
      assert m.key.user in UncoveredKeys(levels, c, stored, smallest);
    }
  }

  lemma StartCompactionBackground(db: DB, last: Record, c: Compaction, merged: seq<Entry>, outs: seq<File>)
    requires CompactionWritten(db, c, merged, outs) && ValidVersion(db.levels) && last.Logged?
    requires last.nextFile <= db.nextFile
    ensures BackgroundInv(StartCompaction(db, c, outs), last)
  {
    assert Stored(StartCompaction(db, c, outs)) == Stored(db);
    WrittenIsReady(db, last, c, merged, outs);
    WrittenOnDisk(db.disk.tables, outs);
  }

  lemma WrittenIsReady(db: DB, last: Record, c: Compaction, merged: seq<Entry>, outs: seq<File>)
    requires CompactionWritten(db, c, merged, outs) && ValidVersion(db.levels)
    requires last.Logged? && last.nextFile <= db.nextFile
    ensures OutputsReady(db.levels, c, SmallestSnapshot(db), outs, last.nextFile)
    ensures NumbersDiffer(outs) && forall f :: f in outs ==> db.nextFile <= f.number < db.nextFile + |outs|
  {
    MergedDistinct(db.levels, c, merged);
    NumberedOneByOne(outs, db.nextFile, Kept(db.levels, c.level, merged, |merged|, SmallestSnapshot(db)));
    OutputsSurvive(db.levels, c.level, merged, SmallestSnapshot(db), outs, db.nextFile, db.nextFile + |outs|);
  }

  lemma StartCompactionDisk(db: DB, h: set<Entry>, last: Record, c: Compaction, outs: seq<File>)
    requires DiskInv(db.disk, db.levels, last, h, Top(db)) && last.nextFile <= db.nextFile
    requires forall f :: f in outs ==> db.nextFile <= f.number
    ensures var db' := StartCompaction(db, c, outs); DiskInv(db'.disk, db'.levels, last, h, Top(db'))
  {
    DiskWithTables(db.disk, outs, db.levels, last, h, Top(db));
  }

  lemma StartCompactionRest(db: DB, c: Compaction, outs: seq<File>)
    requires MemoryInv(db) && LogFilesInv(db) && SnapshotsInv(db)
    ensures var db' := StartCompaction(db, c, outs);
      MemoryInv(db') && LogFilesInv(db') && SnapshotsInv(db') && Stored(db') == Stored(db)
          && SmallestSnapshot(db') == SmallestSnapshot(db)
  {
  }

  lemma StartCompactionKeeps(db: DB, h: set<Entry>, last: Record, c: Compaction, merged: seq<Entry>, outs: seq<File>)
    requires Inv(db, h, last) && CompactionWritten(db, c, merged, outs)
    ensures Inv(StartCompaction(db, c, outs), h, last)
  {
    StartCompactionBackground(db, last, c, merged, outs);
    NumberedOneByOne(outs, db.nextFile, Kept(db.levels, c.level, merged, |merged|, SmallestSnapshot(db)));
    StartCompactionDisk(db, h, last, c, outs);
    StartCompactionRest(db, c, outs);
    ReadsStay(db, StartCompaction(db, c, outs), h);
  }

  // ----- installing its result -----

  function EditRecord(db: DB, e: VersionEdit): Record {
    Logged(e, db.logNumber, db.nextFile, db.lastSequence)
  }

  lemma InstallCompactionShape(db: DB)
    requires |db.levels| == NUM_LEVELS && db.background.Compacting?
    ensures var db', r := InstallCompaction(db), EditRecord(db, CompactionEdit(db.background.c, db.background.outs));
      && db'.disk == Recorded(db.disk, r) && db'.levels == ApplyEdit(db.levels, r.edit) && db'.logNumber == db.logNumber
      && db'.mem == db.mem && db'.imm == db.imm && db'.pending == db.pending && db'.lastSequence == db.lastSequence
      && db'.logfileNumber == db.logfileNumber && db'.nextFile == db.nextFile && db'.snapshots == db.snapshots
           && db'.background == Idle
  {
  }

  lemma FewerTablesHistory(db: DB, h: set<Entry>, recorded: nat, tables: set<Entry>)
    requires MemoryInv(db)
    requires HistoryInv(AllContents(db.levels), LogEntries(db.disk.logs, db.logNumber), recorded, h, Top(db))
    requires tables <= AllContents(db.levels)
    ensures HistoryInv(tables, LogEntries(db.disk.logs, db.logNumber), db.lastSequence, h, Top(db))
  {
    forall e | e in h && e.key.seqno > db.lastSequence ensures e in LogEntries(db.disk.logs, db.logNumber) {
      UnpublishedIsPending(db, h, e);
    }
  }

  lemma CompactedReads(but: set<UserKey>, levels: Levels, c: Compaction, smallest: Sequence, kept: set<Entry>,
                       tables: set<Entry>)
    requires UncoversOnly(but, levels, c, AllContents(levels) + kept, smallest)
    requires AllBelow(AllContents(levels), kept) && Distinct(AllContents(levels) + kept)
    requires tables == (AllContents(levels) - InputContents(c)) + Survivors(levels, c.level, InputContents(c), smallest)
    requires InputContents(c) <= AllContents(levels)
    ensures SameReads(but, AllContents(levels) + kept, tables + kept, smallest)
  {
    var all, inputs := AllContents(levels), InputContents(c);
    var rest := (all + kept) - inputs;
    RestSplits(all, inputs, kept, Survivors(levels, c.level, inputs, smallest));
    DropsPreserveReads(but, levels, c.level, inputs, rest, smallest);
  }

  /** Keys that change are revived, and what was logged by now does not settle them. */
  lemma RevivedReads(revived: Revivals, keys: set<UserKey>, top: nat, h: set<Entry>, s: set<Entry>, t: set<Entry>,
                     low: nat, floor: nat)
    requires ReadsKept(revived, h, s, floor) && SameReads(keys, s, t, low) && low <= floor && Numbered(h, top)
    ensures ReadsKept(Revive(revived, keys, top), h, t, floor)
  {
    forall user, at: nat | at >= floor && Settled(Revive(revived, keys, top), h, user, at)
      ensures Read(t, user, at) == Read(h, user, at)
    {
      assert user !in keys && Settled(revived, h, user, at);
    }
  }

  lemma RestSplits(all: set<Entry>, inputs: set<Entry>, kept: set<Entry>, out: set<Entry>)
    requires inputs <= all && AllBelow(all, kept)
    ensures (all + kept) - inputs == (all - inputs) + kept && (all - inputs) + kept !! inputs
    ensures inputs + ((all + kept) - inputs) == all + kept
    ensures out + ((all + kept) - inputs) == ((all - inputs) + out) + kept
  {
  }

  /**
   * A compaction whose next level is closed, too, uncovers nothing: running AddBoundaryInputs on both inputs
   * would do.
   */
  lemma ClosedUncoversNothing(db: DB, h: set<Entry>, last: Record, c: Compaction, smallest: Sequence)
    requires Inv(db, h, last) && ValidCompaction(db.levels, c) && NextLevelClosed(db.levels, c)
    ensures UncoversOnly({}, db.levels, c, Stored(db), smallest)
  {
    NumberedDistinct(h, Top(db));
    ClosedUncovers(db.levels, c, LogEntries(db.disk.logs, db.logNumber), smallest);
  }

  lemma ClosedUncovers(levels: Levels, c: Compaction, kept: set<Entry>, smallest: Sequence)
    requires ValidVersion(levels) && ValidCompaction(levels, c) && NextLevelClosed(levels, c)
    requires AllBelow(AllContents(levels), kept) && Distinct(AllContents(levels) + kept)
    ensures UncoversOnly({}, levels, c, AllContents(levels) + kept, smallest)
  {
    var all, inputs := AllContents(levels), InputContents(c);
    InputsInVersion(levels, c);
    BelowIsNewer(all, kept);
    RestSplits(all, inputs, kept, {});
    KeptFirst(all, kept);
    NothingUncovered(levels, c, kept, smallest);
    UncoversNothingIs(levels, c, all + kept, (all - inputs) + kept, smallest);
  }

  lemma KeptFirst(all: set<Entry>, kept: set<Entry>)
    ensures kept + all == all + kept
  {
  }

  lemma UncoversNothingIs(levels: Levels, c: Compaction, stored: set<Entry>, rest: set<Entry>, smallest: Sequence)
    requires rest == stored - InputContents(c)
    requires forall m, o :: !Uncovers(levels, c.level, InputContents(c), rest, smallest, m, o)
    ensures UncoversOnly({}, levels, c, stored, smallest)
  {
  }

  lemma CompactionLogged(records: seq<Record>, levels: Levels, bound: nat, r: Record, c: Compaction, smallest: Sequence,
                         outs: seq<File>)
    requires Describes(records, levels, bound) && r.Logged? && r.edit == CompactionEdit(c, outs) && bound <= r.nextFile
    requires OrderedVersion(levels) && ValidCompaction(levels, c) && OutputsReady(levels, c, smallest, outs, bound)
    requires forall f :: f in outs ==> f.number < r.nextFile
    requires forall l, f :: 0 <= l < NUM_LEVELS && f in levels[l] ==> f.number < bound
    ensures Describes(records + [r], ApplyEdit(levels, r.edit), r.nextFile)
  {
    ReadyReplaces(levels, c, smallest, outs, bound);
    ReplacedLogged(records, levels, bound, r, c, outs);
  }

  lemma ReplacedLogged(records: seq<Record>, levels: Levels, bound: nat, r: Record, c: Compaction, outs: seq<File>)
    requires Describes(records, levels, bound) && r.Logged? && r.edit == CompactionEdit(c, outs) && bound <= r.nextFile
    requires c.level + 1 < NUM_LEVELS && Replaced(levels, ApplyEdit(levels, r.edit), c, outs)
    requires NumbersDiffer(outs) && forall f :: f in outs ==> bound <= f.number < r.nextFile
    requires forall l, f :: 0 <= l < NUM_LEVELS && f in levels[l] ==> f.number < bound
    ensures Describes(records + [r], ApplyEdit(levels, r.edit), r.nextFile)
  {
    ReplacedAddsOnly(levels, ApplyEdit(levels, r.edit), c, outs);
    FreshFilesLogged(records, levels, bound, r, c.level + 1, outs);
  }

  lemma ReplacedAddsOnly(levels: Levels, after: Levels, c: Compaction, outs: seq<File>)
    requires Replaced(levels, after, c, outs)
    ensures AddedOnly(levels, after, c.level + 1, outs)
  {
  }

  lemma ReplacedOnDisk(levels: Levels, after: Levels, c: Compaction, outs: seq<File>, tables: map<nat, seq<Entry>>,
                       bound: nat)
    requires Replaced(levels, after, c, outs) && TablesOnDisk(outs, tables)
    requires forall l :: 0 <= l < NUM_LEVELS ==> TablesOnDisk(levels[l], tables)
    requires forall l, f :: 0 <= l < NUM_LEVELS && f in levels[l] ==> f.number < bound
    requires forall f :: f in outs ==> f.number < bound
    ensures forall l :: 0 <= l < NUM_LEVELS ==> TablesOnDisk(after[l], tables)
    ensures forall l, f :: 0 <= l < NUM_LEVELS && f in after[l] ==> f.number < bound
  {
  }

  /** What the invariant says of a finished compaction. */
  ghost predicate Finished(db: DB, last: Record, c: Compaction, smallest: Sequence, outs: seq<File>)
    requires last.Logged?
  {
    && ValidCompaction(db.levels, c) && OutputsReady(db.levels, c, smallest, outs, last.nextFile)
    && (forall f :: f in outs ==> f.number < db.nextFile)
    && TablesOnDisk(outs, db.disk.tables)
    && smallest <= SmallestSnapshot(db)
  }

  lemma InstallCompactionDisk(db: DB, h: set<Entry>, last: Record, c: Compaction, smallest: Sequence, outs: seq<File>)
    requires DiskInv(db.disk, db.levels, last, h, Top(db)) && last.logNumber == db.logNumber
    requires last.nextFile <= db.nextFile
    requires MemoryInv(db) && LogFilesInv(db) && Finished(db, last, c, smallest, outs)
    ensures var r := EditRecord(db, CompactionEdit(c, outs));
      DiskInv(Recorded(db.disk, r), ApplyEdit(db.levels, r.edit), r, h, Top(db))
  {
    var r := EditRecord(db, CompactionEdit(c, outs));
    CompactionKeepsVersion(db.levels, c, smallest, outs, last.nextFile);
    ReadyReplaces(db.levels, c, smallest, outs, last.nextFile);
    CompactionLogged(db.disk.manifest, db.levels, last.nextFile, r, c, smallest, outs);
    ReplacedOnDisk(db.levels, ApplyEdit(db.levels, r.edit), c, outs, db.disk.tables, r.nextFile);
    FewerTablesHistory(db, h, last.lastSequence, AllContents(ApplyEdit(db.levels, r.edit)));
    InstalledDisk(db.disk, ApplyEdit(db.levels, r.edit), r, h, Top(db));
  }

  lemma InstallCompactionReads(db: DB, h: set<Entry>, last: Record, c: Compaction, smallest: Sequence, outs: seq<File>)
    requires DiskInv(db.disk, db.levels, last, h, Top(db)) && last.logNumber == db.logNumber
    requires Finished(db, last, c, smallest, outs)
    requires ReadsKept(db.revived, h, Stored(db), SmallestSnapshot(db))
    ensures ReadsKept(Revive(db.revived, UncoveredKeys(db.levels, c, Stored(db), smallest), Top(db)), h,
        AllContents(ApplyEdit(db.levels, CompactionEdit(c, outs))) + LogEntries(db.disk.logs, db.logNumber),
        SmallestSnapshot(db))
  {
    var keys, kept := UncoveredKeys(db.levels, c, Stored(db), smallest), LogEntries(db.disk.logs, db.logNumber);
    var tables := AllContents(ApplyEdit(db.levels, CompactionEdit(c, outs)));
    CompactionKeepsVersion(db.levels, c, smallest, outs, last.nextFile);
    NumberedDistinct(h, Top(db));
    UncoversItsKeys(db.levels, c, Stored(db), smallest, keys);
    CompactedReads(keys, db.levels, c, smallest, kept, tables);
    RevivedReads(db.revived, keys, Top(db), h, Stored(db), tables + kept, smallest, SmallestSnapshot(db));
  }

  lemma LoggedMemory(db: DB, db': DB)
    requires MemoryInv(db) && LogFilesInv(db) && SnapshotsInv(db)
    requires db'.disk.logs == db.disk.logs && db'.logNumber == db.logNumber
    requires db'.mem == db.mem && db'.imm == db.imm && db'.pending == db.pending && db'.lastSequence == db.lastSequence
    requires db'.logfileNumber == db.logfileNumber && db'.nextFile == db.nextFile && db'.snapshots == db.snapshots
    ensures MemoryInv(db') && LogFilesInv(db') && SnapshotsInv(db') && SmallestSnapshot(db') == SmallestSnapshot(db)
    ensures Top(db') == Top(db)
  {
  }

  lemma InstallCompactionKeeps(db: DB, h: set<Entry>, last: Record)
    requires Inv(db, h, last) && db.background.Compacting?
    ensures Inv(InstallCompaction(db), h, EditRecord(db, CompactionEdit(db.background.c, db.background.outs)))
  {
    var c, outs, smallest := db.background.c, db.background.outs, db.background.smallest;
    InstallCompactionShape(db);
    assert Finished(db, last, c, smallest, outs);
    InstallCompactionDisk(db, h, last, c, smallest, outs);
    LoggedMemory(db, InstallCompaction(db));
    InstallCompactionReads(db, h, last, c, smallest, outs);
    ReadsCarry(InstallCompaction(db).revived, h, Stored(InstallCompaction(db)),
        AllContents(ApplyEdit(db.levels, CompactionEdit(c, outs))) + LogEntries(db.disk.logs, db.logNumber),
        SmallestSnapshot(db));
  }

  lemma ReadsCarry(revived: Revivals, h: set<Entry>, s: set<Entry>, t: set<Entry>, floor: nat)
    requires ReadsKept(revived, h, t, floor) && s == t
    ensures ReadsKept(revived, h, s, floor)
  {
  }

  // ----- the exact condition -----

  /** What is stored once the outputs have taken the place of the inputs. */
  lemma CompactedStored(db: DB, h: set<Entry>, last: Record, c: Compaction, merged: seq<Entry>, outs: seq<File>)
    requires Inv(db, h, last) && CompactionWritten(db, c, merged, outs)
    ensures var tables := (AllContents(db.levels) - InputContents(c))
                          + Survivors(db.levels, c.level, InputContents(c), SmallestSnapshot(db));
      && Stored(InstallCompaction(StartCompaction(db, c, outs))) == tables + LogEntries(db.disk.logs, db.logNumber)
      && InputContents(c) <= AllContents(db.levels)
  {
    WrittenIsReady(db, last, c, merged, outs);
    CompactionKeepsVersion(db.levels, c, SmallestSnapshot(db), outs, last.nextFile);
    InstalledStored(db, c, outs);
  }

  lemma InstalledStored(db: DB, c: Compaction, outs: seq<File>)
    requires |db.levels| == NUM_LEVELS
    ensures Stored(InstallCompaction(StartCompaction(db, c, outs)))
         == AllContents(ApplyEdit(db.levels, CompactionEdit(c, outs))) + LogEntries(db.disk.logs, db.logNumber)
  {
    InstallCompactionShape(StartCompaction(db, c, outs));
  }

  /**
   * Why just these keys: a valid compaction keeps the reads of all keys but some exactly if it uncovers deleted
   * values of none but those.
   */
  lemma CompactionKeepsReadsExactly(db: DB, h: set<Entry>, last: Record, c: Compaction, merged: seq<Entry>,
                                    outs: seq<File>, but: set<UserKey>)
    requires Inv(db, h, last) && CompactionWritten(db, c, merged, outs)
    ensures SameReads(but, Stored(db), Stored(InstallCompaction(StartCompaction(db, c, outs))), SmallestSnapshot(db))
       <==> UncoversOnly(but, db.levels, c, Stored(db), SmallestSnapshot(db))
  {
    var kept, inputs, floor := LogEntries(db.disk.logs, db.logNumber), InputContents(c), SmallestSnapshot(db);
    CompactedStored(db, h, last, c, merged, outs);
    NumberedDistinct(h, Top(db));
    ExactReads(but, db.levels, c, kept, floor, Stored(InstallCompaction(StartCompaction(db, c, outs))));
  }

  lemma ExactReads(but: set<UserKey>, levels: Levels, c: Compaction, kept: set<Entry>, floor: Sequence,
                   after: set<Entry>)
    requires InputContents(c) <= AllContents(levels)
    requires AllBelow(AllContents(levels), kept) && Distinct(AllContents(levels) + kept)
    requires after == (AllContents(levels) - InputContents(c)) + Survivors(levels, c.level, InputContents(c), floor)
        + kept
    ensures SameReads(but, AllContents(levels) + kept, after, floor)
       <==> UncoversOnly(but, levels, c, AllContents(levels) + kept, floor)
  {
    var all, inputs := AllContents(levels), InputContents(c);
    var rest, out := (all + kept) - inputs, Survivors(levels, c.level, inputs, floor);
    RestSplits(all, inputs, kept, out);
    ReadsPreservedExactly(but, levels, c.level, inputs, rest, floor);
  }

  // ----- trivial moves -----

  ghost predicate MoveReady(db: DB, c: Compaction) {
    db.background.Idle? && ValidCompaction(db.levels, c) && |c.inputs0| == 1 && c.inputs1 == []
  }

  lemma TrivialMoveShape(db: DB, c: Compaction)
    requires |db.levels| == NUM_LEVELS && c.inputs0 != []
    ensures var db', r := TrivialMove(db, c), EditRecord(db, MoveEdit(c.level, c.inputs0[0]));
      && db'.disk == Recorded(db.disk, r) && db'.levels == ApplyEdit(db.levels, r.edit) && db'.logNumber == db.logNumber
      && db'.mem == db.mem && db'.imm == db.imm && db'.pending == db.pending && db'.lastSequence == db.lastSequence
      && db'.logfileNumber == db.logfileNumber && db'.nextFile == db.nextFile && db'.snapshots == db.snapshots
           && db'.background == db.background
  {
  }

  lemma MoveExtends(records: seq<Record>, levels: Levels, bound: nat, level: nat, f: File, l: nat)
    requires MovesDown(records, levels, bound) && |levels| == NUM_LEVELS && level + 1 < NUM_LEVELS && f in levels[level]
    requires l < NUM_LEVELS
    ensures Extends(records, MoveEdit(level, f), l)
  {
    MoveAddsAt(level, f, l);
    if l == level + 1 {
      MovedIsNew(records, levels, bound, level, f, l);
    }
  }

  lemma MovedIsNew(records: seq<Record>, levels: Levels, bound: nat, level: nat, f: File, l: nat)
    requires MovesDown(records, levels, bound) && |levels| == NUM_LEVELS && level < l < NUM_LEVELS && f in levels[level]
    ensures f.number !in Held([], EditsAt(records, l))
  {
    forall n | n in Held([], EditsAt(records, l)) ensures n != f.number {
      HeldStayDown(records, levels, bound, l, n);
    }
  }

  lemma MoveAddsAt(level: nat, f: File, l: nat)
    ensures AddedAt(MoveEdit(level, f).added, l) == if l == level + 1 then [f] else []
    ensures NumbersOf(AddedAt(MoveEdit(level, f).added, l)) == if l == level + 1 then {f.number} else {}
    ensures NumbersDiffer(AddedAt(MoveEdit(level, f).added, l))
  {
    assert Tagged(level + 1, [f]) == [(level + 1, f)];
    TaggedAt(level + 1, [f], l);
  }

  /** `after` has only files of `levels`, `f` alone having gone one level down. */
  ghost predicate MovedOnly(levels: Levels, after: Levels, level: nat, f: File) {
    |levels| == NUM_LEVELS == |after| && level + 1 < NUM_LEVELS &&
    forall l, g {:trigger g in after[l]} :: 0 <= l < NUM_LEVELS && g in after[l] ==>
      (g in levels[l] && !(l == level && g == f)) || (l == level + 1 && g == f)
  }

  lemma MoveStaysDown(records: seq<Record>, levels: Levels, bound: nat, level: nat, f: File, after: Levels)
    requires MovesDown(records, levels, bound) && MovedOnly(levels, after, level, f) && f in levels[level]
    requires UniqueNumbers(levels)
    ensures StaysDown(records, MoveEdit(level, f), after)
  {
    forall l, n, c, g: File |
      0 <= c < l < NUM_LEVELS && g in after[c]
          && (n in Held([], EditsAt(records, l)) || n in NumbersOf(AddedAt(MoveEdit(level, f).added, l)))
      ensures g.number != n
    {
      MoveAddsAt(level, f, l);
      if n in Held([], EditsAt(records, l)) {
        HeldStayDown(records, levels, bound, l, n);
      } else {
        UniqueInLevel(levels, level, f, c);
      }
    }
  }

  lemma MoveExtendsAll(records: seq<Record>, levels: Levels, bound: nat, level: nat, f: File, next: nat)
    requires MovesDown(records, levels, bound) && |levels| == NUM_LEVELS && level + 1 < NUM_LEVELS && f in levels[level]
    requires f.number < bound <= next
    ensures forall l :: 0 <= l < NUM_LEVELS ==> Extends(records, MoveEdit(level, f), l)
    ensures forall l, n :: 0 <= l < NUM_LEVELS && n in NumbersOf(AddedAt(MoveEdit(level, f).added, l)) ==> n < next
  {
    forall l | 0 <= l < NUM_LEVELS
      ensures Extends(records, MoveEdit(level, f), l)
      ensures forall n :: n in NumbersOf(AddedAt(MoveEdit(level, f).added, l)) ==> n < next
    {
      MoveExtends(records, levels, bound, level, f, l);
      MoveAddsAt(level, f, l);
    }
  }

  lemma MoveLogged(records: seq<Record>, levels: Levels, bound: nat, r: Record, c: Compaction, f: File)
    requires Describes(records, levels, bound) && r.Logged? && r.edit == MoveEdit(c.level, f) && bound <= r.nextFile
    requires OrderedVersion(levels) && c.level + 1 < NUM_LEVELS && f in levels[c.level] && c.inputs0 == [f]
    requires c.inputs1 == []
    requires forall l, g :: 0 <= l < NUM_LEVELS && g in levels[l] ==> g.number < bound
    ensures Describes(records + [r], ApplyEdit(levels, r.edit), r.nextFile)
  {
    MoveReplaces(levels, c, f);
    MoveExtendsAll(records, levels, bound, c.level, f, r.nextFile);
    ReplacedMovesOnly(levels, ApplyEdit(levels, r.edit), c, f);
    MoveStaysDown(records, levels, bound, c.level, f, ApplyEdit(levels, r.edit));
    LoggingExtends(records, levels, bound, r, r.nextFile);
  }

  lemma ReplacedMovesOnly(levels: Levels, after: Levels, c: Compaction, f: File)
    requires Replaced(levels, after, c, [f]) && c.inputs0 == [f] && c.inputs1 == [] && c.level + 1 < NUM_LEVELS
    ensures MovedOnly(levels, after, c.level, f)
  {
    assert IsInput(c, c.level, f);
  }

  lemma TrivialMoveDisk(db: DB, h: set<Entry>, last: Record, c: Compaction, f: File)
    requires DiskInv(db.disk, db.levels, last, h, Top(db)) && last.logNumber == db.logNumber
    requires last.nextFile <= db.nextFile
    requires MemoryInv(db) && LogFilesInv(db) && ValidCompaction(db.levels, c) && c.inputs0 == [f] && c.inputs1 == []
    ensures var r := EditRecord(db, MoveEdit(c.level, f));
      DiskInv(Recorded(db.disk, r), ApplyEdit(db.levels, r.edit), r, h, Top(db))
    ensures AllContents(ApplyEdit(db.levels, MoveEdit(c.level, f))) == AllContents(db.levels)
  {
    var r := EditRecord(db, MoveEdit(c.level, f));
    assert f in c.inputs0 && f in db.levels[c.level];
    MoveKeepsVersion(db.levels, c, f);
    MoveReplaces(db.levels, c, f);
    MoveLogged(db.disk.manifest, db.levels, last.nextFile, r, c, f);
    ReplacedOnDisk(db.levels, ApplyEdit(db.levels, r.edit), c, [f], db.disk.tables, r.nextFile);
    FewerTablesHistory(db, h, last.lastSequence, AllContents(ApplyEdit(db.levels, r.edit)));
    InstalledDisk(db.disk, ApplyEdit(db.levels, r.edit), r, h, Top(db));
  }

  lemma OneInput(inputs: seq<File>)
    requires |inputs| == 1
    ensures inputs == [inputs[0]]
  {
  }

  lemma TrivialMoveKeeps(db: DB, h: set<Entry>, last: Record, c: Compaction)
    requires Inv(db, h, last) && MoveReady(db, c)
    ensures Inv(TrivialMove(db, c), h, EditRecord(db, MoveEdit(c.level, c.inputs0[0])))
  {
    OneInput(c.inputs0);
    MovedKeeps(db, h, last, c, c.inputs0[0]);
  }

  lemma MovedKeeps(db: DB, h: set<Entry>, last: Record, c: Compaction, f: File)
    requires Inv(db, h, last) && db.background.Idle? && ValidCompaction(db.levels, c) && c.inputs0 == [f]
    requires c.inputs1 == []
    ensures Inv(TrivialMove(db, c), h, EditRecord(db, MoveEdit(c.level, f)))
  {
    TrivialMoveShape(db, c);
    TrivialMoveDisk(db, h, last, c, f);
    LoggedMemory(db, TrivialMove(db, c));
    ReadsCarry(db.revived, h, Stored(TrivialMove(db, c)), Stored(db), SmallestSnapshot(db));
    assert TrivialMove(db, c).background == Idle;
  }
}
