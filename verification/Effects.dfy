/**
 * What the steps in the background get done: beside keeping all that is read, each brings the version and the logs one
 * step on (db/db_impl.cc, CompactMemTable, InstallCompactionResults, BackgroundCompaction).
 */
module Effects {
  import opened Keys
  import opened Reads
  import opened Version
  import opened Inputs
  import opened Builder
  import opened Compacting
  import opened Install
  import opened Manifest
  import opened Engine
  import opened Invariant
  import opened FlushSteps
  import opened CompactionSteps

  /** What clients put in and hold is no concern of the background thread. */
  ghost predicate SameForClients(db: DB, after: DB) {
    && after.mem == db.mem && after.pending == db.pending && after.lastSequence == db.lastSequence
    && after.snapshots == db.snapshots && after.readers == db.readers && after.begun == db.begun
  }

  /** A finished flush has moved the immutable memtable into one file, and recovery needs its log no more. */
  lemma FlushDone(db: DB, h: set<Entry>, last: Record)
    requires Inv(db, h, last) && db.background.Flushing? && |db.levels| == NUM_LEVELS
    ensures var after, file := InstallFlush(db), db.background.file;
      && SameForClients(db, after) && after.imm.None? && after.background.Idle?
      && after.logNumber == db.logfileNumber && after.nextFile == db.nextFile
      && AllContents(after.levels) == AllContents(db.levels) + Imm(db)
      && |after.levels| == NUM_LEVELS && forall l, g {:trigger g in after.levels[l]} :: 0 <= l < NUM_LEVELS ==>
        (g in after.levels[l] <==> g in db.levels[l] || (l == db.background.level && file == Some(g)))
  {
    match db.background.file {
      case Some(f) =>
        FlushMembers(db.levels, db.background.level, f);
        FlushKeepsVersion(db.levels, db.background.level, f);
      case None => EmptyEditKeeps(db.levels);
    }
  }

  lemma NewFilesOnly(levels: Levels, c: Compaction, outs: seq<File>, first: nat)
    requires |levels| == NUM_LEVELS && OrderedVersion(levels) && ValidCompaction(levels, c) && NumbersDiffer(outs)
    requires forall l, f :: 0 <= l < NUM_LEVELS && f in levels[l] ==> f.number < first
    requires forall f :: f in outs ==> first <= f.number
    ensures var r := ApplyEdit(levels, CompactionEdit(c, outs));
      forall l, g {:trigger g in r[l]} :: 0 <= l < NUM_LEVELS ==>
        (g in r[l] <==> (g in levels[l] && !IsInput(c, l, g)) || (l == c.level + 1 && g in outs))
  {
    var r := ApplyEdit(levels, CompactionEdit(c, outs));
    InputsAreFiles(levels, c);
    forall l | 0 <= l < NUM_LEVELS
      ensures forall g :: g in r[l] <==> (g in levels[l] && !IsInput(c, l, g)) || (l == c.level + 1 && g in outs)
    {
      CompactionReplacesAt(levels, c, outs, l);
    }
  }

  lemma CompactionFacts(db: DB, h: set<Entry>, last: Record)
    requires Inv(db, h, last) && db.background.Compacting?
    ensures var c, outs := db.background.c, db.background.outs;
      && OrderedVersion(db.levels) && |db.levels| == NUM_LEVELS && ValidCompaction(db.levels, c)
      && OutputsReady(db.levels, c, db.background.smallest, outs, last.nextFile)
      && (forall l, f :: 0 <= l < NUM_LEVELS && f in db.levels[l] ==> f.number < last.nextFile)
  {
  }

  lemma CompactionFields(db: DB)
    requires db.background.Compacting? && |db.levels| == NUM_LEVELS
    ensures var after := InstallCompaction(db);
      && SameForClients(db, after) && after.imm == db.imm && after.background.Idle?
      && after.logNumber == db.logNumber && after.nextFile == db.nextFile
      && after.levels == ApplyEdit(db.levels, CompactionEdit(db.background.c, db.background.outs))
  {
  }

  /** An installed compaction has put its outputs where its inputs were, one level down, and nothing else. */
  lemma CompactionDone(db: DB, h: set<Entry>, last: Record)
    requires Inv(db, h, last) && db.background.Compacting? && |db.levels| == NUM_LEVELS
    ensures var after, c, outs := InstallCompaction(db), db.background.c, db.background.outs;
      && SameForClients(db, after) && after.imm == db.imm && after.background.Idle?
      && after.logNumber == db.logNumber && after.nextFile == db.nextFile
      && AllContents(after.levels)
         == (AllContents(db.levels) - InputContents(c))
            + Survivors(db.levels, c.level, InputContents(c), db.background.smallest)
      && |after.levels| == NUM_LEVELS && forall l, g {:trigger g in after.levels[l]} :: 0 <= l < NUM_LEVELS ==>
        (g in after.levels[l] <==> (g in db.levels[l] && !IsInput(c, l, g)) || (l == c.level + 1 && g in outs))
  {
    var c, outs := db.background.c, db.background.outs;
    CompactionFields(db);
    CompactionFacts(db, h, last);
    NewFilesOnly(db.levels, c, outs, last.nextFile);
    CompactionKeepsVersion(db.levels, c, db.background.smallest, outs, last.nextFile);
  }

  /** A trivial move has taken one file one level down, and nothing else. */
  lemma MoveDone(db: DB, h: set<Entry>, last: Record, c: Compaction)
    requires Inv(db, h, last) && MoveReady(db, c)
    ensures var after, f := TrivialMove(db, c), c.inputs0[0];
      && SameForClients(db, after) && after.imm == db.imm && after.background == db.background
      && after.logNumber == db.logNumber && after.nextFile == db.nextFile
      && |after.levels| == |db.levels| == NUM_LEVELS && c.level + 1 < NUM_LEVELS
      && f in db.levels[c.level] && f in after.levels[c.level + 1]
      && forall l, g {:trigger g in after.levels[l]} :: 0 <= l < NUM_LEVELS ==>
        (g in after.levels[l] <==> (g in db.levels[l] && !(l == c.level && g == f)) || (l == c.level + 1 && g == f))
  {
    var f := c.inputs0[0];
    assert f in c.inputs0;
    InputsAreFiles(db.levels, c);
    forall l | 0 <= l < NUM_LEVELS
      ensures forall g :: g in TrivialMove(db, c).levels[l] <==>
        (g in db.levels[l] && !(l == c.level && g == f)) || (l == c.level + 1 && g == f)
    {
      UniqueInLevel(db.levels, c.level, f, l);
      MoveReplacesAt(db.levels, c.level, f, l);
    }
  }
}
