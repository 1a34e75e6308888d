/** Every run of the database, crashes included, reads like a plain map from keys to values. */
module Runs {
  import opened Keys
  import opened Reads
  import opened Version
  import opened Inputs
  import opened Builder
  import opened Compacting
  import opened Install
  import opened Manifest
  import opened Engine
  import opened Invariant
  import opened Steps
  import opened Store
  import opened FlushSteps
  import opened CompactionSteps
  import opened Recovery
  import opened Readers

  // ----- runs -----

  datatype Step =
    | Append(ops: seq<Op>)
    | Publish
    | Switch
    | BeginFlush(level: nat, size: nat)
    | EndFlush
    | BeginCompaction(c: Compaction, merged: seq<Entry>, outs: seq<File>)
    | EndCompaction
    | Move(c: Compaction)
    | RemoveObsolete
    | Snap
    | Release(i: nat)
    | StartRead(at: Sequence)
    | FinishRead(i: nat)
    | Crash(leftovers: seq<File>, newLogs: set<nat>, p: Plan)

  function LastRecord(disk: Disk): Option<Record> {
    if disk.manifest == [] then None else Some(disk.manifest[|disk.manifest| - 1])
  }

  /** Recoveries that crashed themselves leave tables and empty logs that no manifest names. */
  function Littered(disk: Disk, leftovers: seq<File>, newLogs: set<nat>): Disk {
    disk.(tables := WriteTables(disk.tables, leftovers), logs := map n | n in disk.logs.Keys + newLogs ::
        if n in disk.logs then disk.logs[n] else [])
  }

  ghost predicate CanRecover(disk: Disk, leftovers: seq<File>, newLogs: set<nat>, p: Plan) {
    var last := LastRecord(disk);
    && last.Some? && last.value.Logged?
    && (forall f :: f in leftovers ==> last.value.nextFile <= f.number)
    && PlanFor(Littered(disk, leftovers, newLogs), last.value, p)
  }

  ghost predicate Enabled(db: DB, s: Step) {
    match s
    case Append(ops) => AppendReady(db, ops)
    case Publish => ApplyReady(db)
    case Switch => SwitchReady(db)
    case BeginFlush(level, _) => FlushReady(db, level) && Sorted(db.imm.value)
    case EndFlush => db.background.Flushing? && |db.levels| == NUM_LEVELS
    case BeginCompaction(c, merged, outs) => CompactionWritten(db, c, merged, outs)
    case EndCompaction => db.background.Compacting? && |db.levels| == NUM_LEVELS
    case Move(c) => MoveReady(db, c)
    case RemoveObsolete => true
    case Snap => true
    case Release(i) => i < |db.snapshots|
    case StartRead(at) => BeginReady(db, at)
    case FinishRead(i) => i < |db.readers| == |db.begun|
    case Crash(leftovers, newLogs, p) => CanRecover(db.disk, leftovers, newLogs, p)
  }

  /** The process dies, and another one recovers what is on disk; what was revived stays revived. */
  ghost function Crashes(db: DB, leftovers: seq<File>, newLogs: set<nat>, p: Plan): DB
    requires CanRecover(db.disk, leftovers, newLogs, p)
  {
    Restarted(db.disk, leftovers, newLogs, p, db.revived)
  }

  ghost function Restarted(disk: Disk, leftovers: seq<File>, newLogs: set<nat>, p: Plan, revived: Revivals): DB
    requires CanRecover(disk, leftovers, newLogs, p)
  {
    RecoverFrom(Littered(disk, leftovers, newLogs), p).(revived := revived)
  }

  ghost function Do(db: DB, s: Step): DB
    requires Enabled(db, s)
  {
    match s
    case Append(ops) => AppendToLog(db, ops)
    case Publish => ApplyPending(db)
    case Switch => SwitchMemtable(db)
    case BeginFlush(level, size) => StartFlush(db, level, size)
    case EndFlush => InstallFlush(db)
    case BeginCompaction(c, _, outs) => StartCompaction(db, c, outs)
    case EndCompaction => InstallCompaction(db)
    case Move(c) => TrivialMove(db, c)
    case RemoveObsolete => DeleteObsolete(db)
    case Snap => TakeSnapshot(db)
    case Release(i) => ReleaseSnapshot(db, i)
    case StartRead(at) => BeginRead(db, at)
    case FinishRead(i) => EndRead(db, i)
    case Crash(leftovers, newLogs, p) => Crashes(db, leftovers, newLogs, p)
  }

  /** Recovery reads nothing but the disk: the version from the manifest, the rest from the kept logs. */
  ghost function RecoverFrom(disk: Disk, p: Plan): DB
    requires LastRecord(disk).Some? && LastRecord(disk).value.Logged?
  {
    Reopen(disk, Replay(disk.manifest), LastRecord(disk).value, p)
  }

  /** DBImpl::NewDB: an empty manifest record, and nothing else. */
  const NEW_DISK := Disk(map[], map[], [Logged(VersionEdit({}, []), 0, 2, 0)])

  ghost predicate Run(first: Plan, steps: seq<Step>)
    decreases steps, 0
  {
    if steps == [] then CanRecover(NEW_DISK, [], {}, first)
    else Run(first, steps[..|steps| - 1]) && Enabled(Final(first, steps[..|steps| - 1]), steps[|steps| - 1])
  }

  ghost function Final(first: Plan, steps: seq<Step>): DB
    requires Run(first, steps)
    decreases steps, 1
  {
    if steps == [] then RecoverFrom(Littered(NEW_DISK, [], {}), first)
    else Do(Final(first, steps[..|steps| - 1]), steps[|steps| - 1])
  }

  lemma RunSnoc(first: Plan, steps: seq<Step>, s: Step)
    requires Run(first, steps) && Enabled(Final(first, steps), s)
    ensures Run(first, steps + [s]) && Final(first, steps + [s]) == Do(Final(first, steps), s)
  {
    assert (steps + [s])[..|steps|] == steps;
  }

  /** All operations logged in the run, in order. */
  function AllOps(steps: seq<Step>): seq<Op> {
    if steps == [] then []
    else
      var before := AllOps(steps[..|steps| - 1]);
      match steps[|steps| - 1]
      case Append(ops) => before + ops
      case _ => before
  }

  // ----- every step keeps the invariant -----

  ghost function NextHistory(db: DB, h: set<Entry>, s: Step): set<Entry>
    requires Enabled(db, s)
  {
    match s
    case Append(ops) => Appended(db, h, ops)
    case _ => h
  }

  lemma EmptyLogs(logs: map<nat, seq<Batch>>, newLogs: set<nat>, low: nat)
    requires LogsOrdered(logs, low)
    ensures var more := map n | n in logs.Keys + newLogs :: if n in logs then logs[n] else [];
      LogsOrdered(more, low) && LogEntries(more, low) == LogEntries(logs, low)
  {
    var more := map n | n in logs.Keys + newLogs :: if n in logs then logs[n] else [];
    assert BatchEntries([]) == {};
    forall e ensures e in LogEntries(more, low) <==> e in LogEntries(logs, low) {
      LogEntriesIs(more, low, e);
      LogEntriesIs(logs, low, e);
      if e in LogEntries(logs, low) {
        var n :| n in logs && n >= low && e in BatchEntries(logs[n]);
        assert n in more;
      }
    }
  }

  lemma LitterKeeps(disk: Disk, levels: Levels, last: Record, h: set<Entry>, top: nat, leftovers: seq<File>,
                    newLogs: set<nat>)
    requires DiskInv(disk, levels, last, h, top) && forall f :: f in leftovers ==> last.nextFile <= f.number
    ensures DiskInv(Littered(disk, leftovers, newLogs), levels, last, h, top)
    ensures LogEntries(Littered(disk, leftovers, newLogs).logs, last.logNumber) == LogEntries(disk.logs, last.logNumber)
  {
    var disk' := disk.(tables := WriteTables(disk.tables, leftovers));
    DiskWithTables(disk, leftovers, levels, last, h, top);
    EmptyLogs(disk.logs, newLogs, last.logNumber);
    DiskWithLogs(disk', Littered(disk, leftovers, newLogs).logs, levels, last, h, top);
  }

  lemma RecoverKeeps(disk: Disk, levels: Levels, last: Record, h: set<Entry>, top: nat, floor: nat,
                     leftovers: seq<File>, newLogs: set<nat>, p: Plan, revived: Revivals)
    requires DiskInv(disk, levels, last, h, top) && CanRecover(disk, leftovers, newLogs, p) && floor <= top
    requires ReadsKept(revived, h, AllContents(levels) + LogEntries(disk.logs, last.logNumber), floor)
    ensures Inv(RecoverFrom(Littered(disk, leftovers, newLogs), p).(revived := revived), h, ReopenRecord(last, p))
  {
    LitterKeeps(disk, levels, last, h, top, leftovers, newLogs);
    ReopenKeeps(Littered(disk, leftovers, newLogs), levels, last, h, top, floor, p, revived);
  }

  lemma CrashKeeps(db: DB, h: set<Entry>, last: Record, leftovers: seq<File>, newLogs: set<nat>, p: Plan)
    requires Inv(db, h, last) && CanRecover(db.disk, leftovers, newLogs, p)
    ensures Inv(Crashes(db, leftovers, newLogs, p), h, ReopenRecord(last, p))
  {
    assert SmallestSnapshot(db) <= Top(db);
    RecoverKeeps(db.disk, db.levels, last, h, Top(db), SmallestSnapshot(db), leftovers, newLogs, p, db.revived);
  }

  lemma AppendStepKeeps(db: DB, h: set<Entry>, last: Record, s: Step)
    requires Inv(db, h, last) && Enabled(db, s) && s.Append?
    ensures Inv(Do(db, s), NextHistory(db, h, s), last)
  {
    assert Do(db, s) == AppendToLog(db, s.ops);
    AppendedIs(db, h, s.ops);
    AppendKeeps(db, h, last, s.ops);
  }

  lemma WriteStepKeeps(db: DB, h: set<Entry>, last: Record, s: Step)
    requires Inv(db, h, last) && Enabled(db, s) && (s.Publish? || s.Switch?)
    ensures Inv(Do(db, s), h, last)
  {
    match s {
      case Publish => ApplyKeeps(db, h, last);
      case Switch => SwitchKeeps(db, h, last);
    }
  }

  lemma SnapshotStepKeeps(db: DB, h: set<Entry>, last: Record, s: Step)
    requires Inv(db, h, last) && Enabled(db, s) && (s.Snap? || s.Release? || s.RemoveObsolete?)
    ensures Inv(Do(db, s), h, last)
  {
    match s {
      case Snap => TakeSnapshotKeeps(db, h, last);
      case Release(i) => ReleaseSnapshotKeeps(db, h, last, i);
      case RemoveObsolete => DeleteObsoleteKeeps(db, h, last);
    }
  }

  lemma BeginStepKeeps(db: DB, h: set<Entry>, last: Record, s: Step)
    requires Inv(db, h, last) && Enabled(db, s) && (s.BeginFlush? || s.BeginCompaction?)
    ensures Inv(Do(db, s), h, last)
  {
    match s {
      case BeginFlush(level, size) => StartFlushKeeps(db, h, last, level, size);
      case BeginCompaction(c, merged, outs) => StartCompactionKeeps(db, h, last, c, merged, outs);
    }
  }

  lemma InstallStepKeeps(db: DB, h: set<Entry>, last: Record, s: Step) returns (last': Record)
    requires Inv(db, h, last) && Enabled(db, s) && (s.EndFlush? || s.EndCompaction? || s.Move?)
    ensures Inv(Do(db, s), h, last')
  {
    match s {
      case EndFlush => InstallFlushKeeps(db, h, last); last' := FlushRecord(db);
      case EndCompaction =>
        InstallCompactionKeeps(db, h, last);
        last' := EditRecord(db, CompactionEdit(db.background.c, db.background.outs));
      case Move(c) => TrivialMoveKeeps(db, h, last, c); last' := EditRecord(db, MoveEdit(c.level, c.inputs0[0]));
    }
  }

  lemma ReadStepKeeps(db: DB, h: set<Entry>, last: Record, s: Step)
    requires Inv(db, h, last) && ReadersInv(db, h) && Enabled(db, s) && (s.StartRead? || s.FinishRead?)
    ensures Inv(Do(db, s), h, last) && ReadersInv(Do(db, s), h)
  {
    match s {
      case StartRead(at) => BeginReadKeeps(db, h, last, at);
      case FinishRead(i) => EndReadKeeps(db, h, last, i);
    }
  }

  /** One step of any kind keeps the invariant, and only a write adds to the history. */
  lemma StepKeeps(db: DB, h: set<Entry>, last: Record, s: Step) returns (last': Record)
    requires Inv(db, h, last) && ReadersInv(db, h) && Enabled(db, s)
    ensures Inv(Do(db, s), NextHistory(db, h, s), last')
  {
    last' := last;
    if s.Append? {
      AppendStepKeeps(db, h, last, s);
    } else if s.Publish? || s.Switch? {
      WriteStepKeeps(db, h, last, s);
    } else if s.Snap? || s.Release? || s.RemoveObsolete? {
      SnapshotStepKeeps(db, h, last, s);
    } else if s.BeginFlush? || s.BeginCompaction? {
      BeginStepKeeps(db, h, last, s);
    } else if s.StartRead? || s.FinishRead? {
      ReadStepKeeps(db, h, last, s);
    } else if s.Crash? {
      CrashKeeps(db, h, last, s.leftovers, s.newLogs, s.p);
      last' := ReopenRecord(last, s.p);
    } else {
      last' := InstallStepKeeps(db, h, last, s);
    }
  }

  // ----- no step disturbs a reader -----

  lemma CompactionLeavesReaders(db: DB, h: set<Entry>, c: Compaction, merged: seq<Entry>, outs: seq<File>)
    requires ReadersInv(db, h) && CompactionWritten(db, c, merged, outs)
    ensures ReadersInv(StartCompaction(db, c, outs), h)
  {
    NumberedOneByOne(outs, db.nextFile, Kept(db.levels, c.level, merged, |merged|, SmallestSnapshot(db)));
    WritesLeaveReaders(db, StartCompaction(db, c, outs), h, outs);
  }

  function FlushFiles(db: DB, size: nat): seq<File>
    requires db.imm.Some? && Sorted(db.imm.value)
  {
    if db.imm.value == [] then [] else [FinishedFile(db.nextFile, size, db.imm.value)]
  }

  lemma FlushLeavesReaders(db: DB, h: set<Entry>, level: nat, size: nat)
    requires ReadersInv(db, h) && FlushReady(db, level) && Sorted(db.imm.value)
    ensures ReadersInv(StartFlush(db, level, size), h)
  {
    WritesLeaveReaders(db, StartFlush(db, level, size), h, FlushFiles(db, size));
  }

  lemma BeginLeavesReaders(db: DB, h: set<Entry>, s: Step)
    requires ReadersInv(db, h) && Enabled(db, s) && (s.BeginFlush? || s.BeginCompaction?)
    ensures ReadersInv(Do(db, s), h)
  {
    match s {
      case BeginFlush(level, size) => FlushLeavesReaders(db, h, level, size);
      case BeginCompaction(c, merged, outs) => CompactionLeavesReaders(db, h, c, merged, outs);
    }
  }

  lemma OthersLeaveReaders(db: DB, h: set<Entry>, s: Step)
    requires ReadersInv(db, h) && Enabled(db, s)
    requires s.Publish? || s.Switch? || s.EndFlush? || s.EndCompaction? || s.Move? || s.Snap? || s.Release?
    ensures ReadersInv(Do(db, s), h)
  {
    assert Do(db, s).readers == db.readers && Do(db, s).begun == db.begun;
    ReadersStay(db, Do(db, s), h);
  }

  /** Writes, flushes, compactions, deletions: whoever reads goes on reading what was there when he began. */
  lemma StepLeavesReaders(db: DB, h: set<Entry>, last: Record, s: Step)
    requires Inv(db, h, last) && ReadersInv(db, h) && Enabled(db, s)
    ensures ReadersInv(Do(db, s), NextHistory(db, h, s))
  {
    match s {
      case Append(ops) => NumberedDistinct(h, Top(db)); AppendLeavesReaders(db, h, ops);
      case BeginFlush(_, _) => BeginLeavesReaders(db, h, s);
      case BeginCompaction(_, _, _) => BeginLeavesReaders(db, h, s);
      case RemoveObsolete => DeletionLeavesReaders(db, h);
      case StartRead(_) => ReadStepKeeps(db, h, last, s);
      case FinishRead(_) => ReadStepKeeps(db, h, last, s);
      case Crash(_, _, _) =>
      case _ => OthersLeaveReaders(db, h, s);
    }
  }

  /** The invariant, whatever the last record of the manifest. */
  ghost predicate Sound(db: DB, h: set<Entry>) {
    ReadersInv(db, h) && exists last :: Inv(db, h, last)
  }

  /** A disk that some process left behind, holding the history `h` but for what was revived. */
  ghost predicate Crashed(disk: Disk, h: set<Entry>, revived: Revivals) {
    exists levels, last, top, floor :: LeftBehind(disk, h, revived, levels, last, top, floor)
  }

  ghost predicate LeftBehind(disk: Disk, h: set<Entry>, revived: Revivals, levels: Levels, last: Record, top: nat,
                             floor: nat)
  {
    DiskInv(disk, levels, last, h, top) && floor <= top
        && ReadsKept(revived, h, AllContents(levels) + LogEntries(disk.logs, last.logNumber), floor)
  }

  /** Whenever the process dies, it leaves such a disk. */
  lemma SoundCrashes(db: DB, h: set<Entry>)
    requires Sound(db, h)
    ensures Crashed(db.disk, h, db.revived)
  {
    var last :| Inv(db, h, last);
    SnapshotsBelow(db, h, last);
    assert LeftBehind(db.disk, h, db.revived, db.levels, last, Top(db), SmallestSnapshot(db));
  }

  lemma SnapshotsBelow(db: DB, h: set<Entry>, last: Record)
    requires Inv(db, h, last)
    ensures SmallestSnapshot(db) <= db.lastSequence <= Top(db)
  {
  }

  /** And from such a disk, every recovery plan leads to a sound database again. */
  lemma CrashedRecovers(disk: Disk, h: set<Entry>, p: Plan, revived: Revivals)
    requires Crashed(disk, h, revived) && CanRecover(disk, [], {}, p)
    ensures Sound(Restarted(disk, [], {}, p, revived), h)
  {
    var levels, last, top, floor :| LeftBehind(disk, h, revived, levels, last, top, floor);
    RecoverKeeps(disk, levels, last, h, top, floor, [], {}, p, revived);
  }

  // ----- the start -----

  const NO_FILES: Levels := [[], [], [], [], [], [], []]

  lemma NoFilesDescribed(r: Record)
    requires r == Logged(VersionEdit({}, []), 0, 2, 0)
    ensures Describes([r], NO_FILES, 2)
  {
    forall l | 0 <= l < NUM_LEVELS ensures EditsAt([], l) == [] {}
    assert Describes([], NO_FILES, 0);
    EmptyEditLogged([], NO_FILES, 0, r);
    EmptyEditKeeps(NO_FILES);
    assert [] + [r] == [r];
  }

  lemma NoFilesVersion(levels: Levels)
    requires |levels| == NUM_LEVELS && forall l :: 0 <= l < NUM_LEVELS ==> levels[l] == []
    ensures OrderedVersion(levels) && AllContents(levels) == {}
  {
    forall e ensures e !in AllContents(levels) { if e in AllContents(levels) { var i, f := Locate(levels, e); } }
  }

  lemma NewDiskInv()
    ensures DiskInv(NEW_DISK, NO_FILES, Logged(VersionEdit({}, []), 0, 2, 0), {}, 0)
    ensures AllContents(NO_FILES) + LogEntries(NEW_DISK.logs, 0) == {}
  {
    NoFilesDescribed(Logged(VersionEdit({}, []), 0, 2, 0));
    NoFilesVersion(NO_FILES);
    assert LogEntries(NEW_DISK.logs, 0) == {};
  }

  lemma StartKeeps(first: Plan) returns (last: Record)
    requires CanRecover(NEW_DISK, [], {}, first)
    ensures Inv(RecoverFrom(Littered(NEW_DISK, [], {}), first), {}, last)
  {
    var r := Logged(VersionEdit({}, []), 0, 2, 0);
    NewDiskInv();
    RecoverKeeps(NEW_DISK, NO_FILES, r, {}, 0, 0, [], {}, first, map[]);
    last := ReopenRecord(r, first);
  }

  // ----- every run -----

  lemma TopAtMost(h: set<Entry>, a: nat, b: nat)
    requires Numbered(h, a) && Numbered(h, b)
    ensures b <= a
  {
    if b > 0 { assert HasNumber(h, b); }
  }

  lemma {:induction false} RunKeeps(first: Plan, steps: seq<Step>) returns (last: Record)
    requires Run(first, steps)
    ensures |AllOps(steps)| < MAX_SEQUENCE && Top(Final(first, steps)) == |AllOps(steps)|
    ensures Inv(Final(first, steps), History(AllOps(steps)), last)
    ensures ReadersInv(Final(first, steps), History(AllOps(steps)))
    decreases steps
  {
    if steps == [] {
      last := StartKeeps(first);
      assert History([]) == {};
    } else {
      var init, s := steps[..|steps| - 1], steps[|steps| - 1];
      var before := RunKeeps(first, init);
      last := StepKeeps(Final(first, init), History(AllOps(init)), before, s);
      StepLeavesReaders(Final(first, init), History(AllOps(init)), before, s);
      if s.Append? { HistoryGrowsBy(AllOps(init), s.ops); }
    }
    TopIs(Final(first, steps), AllOps(steps), last);
  }

  lemma TopIs(db: DB, ops: seq<Op>, last: Record)
    requires |ops| < MAX_SEQUENCE && Inv(db, History(ops), last)
    ensures Top(db) == |ops|
  {
    HistoryNumbered(ops);
    TopAtMost(History(ops), Top(db), |ops|);
    TopAtMost(History(ops), |ops|, Top(db));
  }

  /** Of a key that was revived, one of the operations up to `at` that were logged since is a write. */
  ghost predicate SettledBy(revived: Revivals, ops: seq<Op>, user: UserKey, at: nat) {
    user in revived ==> exists i :: revived[user] <= i < at && i < |ops| && ops[i].user == user
  }

  lemma SettledInHistory(revived: Revivals, ops: seq<Op>, user: UserKey, at: nat)
    requires |ops| < MAX_SEQUENCE && SettledBy(revived, ops, user, at)
    ensures Settled(revived, History(ops), user, at)
  {
    if user in revived {
      var i :| revived[user] <= i < at && i < |ops| && ops[i].user == user;
      var e := Stamp(ops, 1)[i];
      assert e in History(ops) && e.key.user == user && e.key.seqno == i + 1;
    }
  }

  /**
   * The database is linearizable to a plain map: at the last sequence number and at every live snapshot, a
   * read gives what the map gives after that many operations, whatever switches, flushes, compactions, moves,
   * deletions, crashes and recoveries the run went through. Where a compaction has uncovered a deleted value of the
   * key, that holds again from the next write of the key on.
   */
  lemma EveryRunReadsLikeTheStore(first: Plan, steps: seq<Step>, user: UserKey, snapshot: nat)
    requires Run(first, steps) && SmallestSnapshot(Final(first, steps)) <= snapshot <= |AllOps(steps)|
    requires SettledBy(Final(first, steps).revived, AllOps(steps), user, snapshot)
    ensures |AllOps(steps)| < MAX_SEQUENCE
    ensures Read(Content(Final(first, steps)), user, snapshot) == Lookup(StoreAfter(AllOps(steps), snapshot), user)
  {
    var last := RunKeeps(first, steps);
    ReadsLikeTheStore(Final(first, steps), AllOps(steps), last, user, snapshot);
  }

  lemma ReadsLikeTheStore(db: DB, ops: seq<Op>, last: Record, user: UserKey, snapshot: nat)
    requires |ops| < MAX_SEQUENCE && Inv(db, History(ops), last) && SmallestSnapshot(db) <= snapshot <= |ops|
    requires SettledBy(db.revived, ops, user, snapshot)
    ensures Read(Content(db), user, snapshot) == Lookup(StoreAfter(ops, snapshot), user)
  {
    ContentIsStored(db);
    SettledInHistory(db.revived, ops, user, snapshot);
    StoredReads(db, History(ops), user, snapshot);
    HistoryReads(ops, user, snapshot);
  }

  /**
   * Nor does anything that happens while a reader is at work disturb it, though the mutex is not held: with whatever
   * has gone into the shared memtable since, its read of a key is a lookup in the plain map at its number, and every
   * table of the version it holds is on disk as it was written.
   */
  lemma EveryReaderReadsLikeTheStore(first: Plan, steps: seq<Step>, i: nat, more: set<Entry>, user: UserKey)
    requires Run(first, steps) && i < |Final(first, steps).readers|
    requires forall e :: e in more ==> e.key.seqno > Final(first, steps).readers[i].at
    ensures var db, ops := Final(first, steps), AllOps(steps);
      var r := db.readers[i];
      && i < |db.begun| && r.at <= |ops| < MAX_SEQUENCE
      && (SettledBy(db.begun[i], ops, user, r.at) ==> ReadBy(r, more, user) == Lookup(StoreAfter(ops, r.at), user))
      && forall l, f :: 0 <= l < |r.levels| && f in r.levels[l] ==>
           f.number in db.disk.tables && db.disk.tables[f.number] == f.table
  {
    var last := RunKeeps(first, steps);
    var db, ops := Final(first, steps), AllOps(steps);
    assert ReaderInv(db.readers[i], db.begun[i], db, History(ops));
    ReaderReadsLikeTheStore(db.readers[i], db.begun[i], ops, more, user);
  }

  lemma ReaderReadsLikeTheStore(r: Reader, begun: Revivals, ops: seq<Op>, more: set<Entry>, user: UserKey)
    requires |ops| < MAX_SEQUENCE && r.at <= |ops| && ReaderOrdered(r) && ReadsAs(begun, r, History(ops))
    requires forall e :: e in more ==> e.key.seqno > r.at
    ensures SettledBy(begun, ops, user, r.at) ==> ReadBy(r, more, user) == Lookup(StoreAfter(ops, r.at), user)
  {
    FutureUnseen(r, more, user);
    HistoryReads(ops, user, r.at);
    if SettledBy(begun, ops, user, r.at) { SettledInHistory(begun, ops, user, r.at); }
  }

  // ----- what is revived -----

  /** The keys of which the compaction that ends with the step uncovers a deleted value. */
  ghost function UncoveredIn(db: DB, s: Step): set<UserKey> {
    if s.EndCompaction? && db.background.Compacting?
    then UncoveredKeys(db.levels, db.background.c, Stored(db), db.background.smallest) else {}
  }

  /** The keys of which the compactions of a run have uncovered a deleted value, each with what was logged by then. */
  ghost function UncoveredBy(first: Plan, steps: seq<Step>): Revivals
    requires Run(first, steps)
    decreases steps
  {
    if steps == [] then map[]
    else
      var init, s := steps[..|steps| - 1], steps[|steps| - 1];
      Revive(UncoveredBy(first, init), UncoveredIn(Final(first, init), s), |AllOps(init)|)
  }

  lemma StepRevives(db: DB, s: Step)
    requires Enabled(db, s)
    ensures Do(db, s).revived == Revive(db.revived, UncoveredIn(db, s), Top(db))
  {
    assert Revive(db.revived, {}, Top(db)) == db.revived;
  }

  /** Nothing is revived but by a compaction that uncovers it, and when it is installed. */
  lemma {:induction false} RevivedIsUncovered(first: Plan, steps: seq<Step>)
    requires Run(first, steps)
    ensures Final(first, steps).revived == UncoveredBy(first, steps)
    decreases steps
  {
    if steps != [] {
      var init, s := steps[..|steps| - 1], steps[|steps| - 1];
      RevivedIsUncovered(first, init);
      var last := RunKeeps(first, init);
      StepRevives(Final(first, init), s);
    }
  }

  /** Every compaction of the run closes its inputs at the next level, too. */
  ghost predicate AllClosed(first: Plan, steps: seq<Step>)
    requires Run(first, steps)
    decreases steps
  {
    steps == [] ||
    (var init, s := steps[..|steps| - 1], steps[|steps| - 1];
     AllClosed(first, init) && (s.EndCompaction? ==> ClosesBoth(Final(first, init))))
  }

  ghost predicate ClosesBoth(db: DB) {
    db.background.Compacting? ==> NextLevelClosed(db.levels, db.background.c)
  }

  lemma ClosedUncoversNoKey(db: DB, h: set<Entry>, last: Record, s: Step)
    requires Inv(db, h, last) && (s.EndCompaction? ==> ClosesBoth(db))
    ensures UncoveredIn(db, s) == {}
  {
    if s.EndCompaction? && db.background.Compacting? {
      ClosedUncoversNothing(db, h, last, db.background.c, db.background.smallest);
    }
  }

  /** Then nothing is ever revived, and every key reads like the store. */
  lemma {:induction false} ClosedRunsReviveNothing(first: Plan, steps: seq<Step>)
    requires Run(first, steps) && AllClosed(first, steps)
    ensures Final(first, steps).revived == map[]
    decreases steps
  {
    if steps != [] {
      var init, s := steps[..|steps| - 1], steps[|steps| - 1];
      ClosedRunsReviveNothing(first, init);
      var last := RunKeeps(first, init);
      ClosedUncoversNoKey(Final(first, init), History(AllOps(init)), last, s);
      StepRevives(Final(first, init), s);
    }
  }

  /** What the disk alone holds: the version the manifest describes, and the logs it still needs. */
  ghost function OnDisk(disk: Disk): set<Entry> {
    match LastRecord(disk)
    case Some(Logged(_, logNumber, _, _)) => AllContents(Replay(disk.manifest)) + LogEntries(disk.logs, logNumber)
    case _ => {}
  }

  /** A process may die at any point: the disk then holds every logged operation still needed, and every live table. */
  lemma EveryRunIsDurable(first: Plan, steps: seq<Step>, user: UserKey, snapshot: nat)
    requires Run(first, steps) && SmallestSnapshot(Final(first, steps)) <= snapshot <= |AllOps(steps)|
    ensures |AllOps(steps)| < MAX_SEQUENCE
    ensures SettledBy(Final(first, steps).revived, AllOps(steps), user, snapshot) ==>
      Read(OnDisk(Final(first, steps).disk), user, snapshot) == Lookup(StoreAfter(AllOps(steps), snapshot), user)
    ensures var db := Final(first, steps);
      |db.levels| == NUM_LEVELS && Replay(db.disk.manifest) == db.levels
          && forall l :: 0 <= l < NUM_LEVELS ==> TablesOnDisk(db.levels[l], db.disk.tables)
  {
    var last := RunKeeps(first, steps);
    var db := Final(first, steps);
    if SettledBy(db.revived, AllOps(steps), user, snapshot) { EveryRunReadsLikeTheStore(first, steps, user, snapshot); }
    DiskIsStored(db, History(AllOps(steps)), last);
  }

  lemma DiskIsStored(db: DB, h: set<Entry>, last: Record)
    requires Inv(db, h, last)
    ensures OnDisk(db.disk) == Content(db) && Replay(db.disk.manifest) == db.levels
  {
    ReplayIsCurrent(db.disk.manifest, db.levels, last.nextFile);
    ContentIsStored(db);
  }

  lemma CrashKeepsStored(db: DB, h: set<Entry>, last: Record, leftovers: seq<File>, newLogs: set<nat>, p: Plan)
    requires Inv(db, h, last) && CanRecover(db.disk, leftovers, newLogs, p)
    ensures Stored(RecoverFrom(Littered(db.disk, leftovers, newLogs), p)) == Stored(db)
  {
    LitterKeeps(db.disk, db.levels, last, h, Top(db), leftovers, newLogs);
    ReplayIsCurrent(db.disk.manifest, db.levels, last.nextFile);
    ReopenStored(Littered(db.disk, leftovers, newLogs), db.levels, last, h, Top(db), p);
  }

  /**
   * A crash and its recovery lose no logged operation, even one not yet acknowledged, and no entry: what the database
   * held it holds again, and nothing else.
   */
  lemma CrashLosesNothing(first: Plan, steps: seq<Step>, leftovers: seq<File>, newLogs: set<nat>, p: Plan,
                          user: UserKey)
    requires Run(first, steps + [Crash(leftovers, newLogs, p)])
    ensures Run(first, steps) && |AllOps(steps)| < MAX_SEQUENCE
    ensures var before, after := Final(first, steps), Final(first, steps + [Crash(leftovers, newLogs, p)]);
      && before.lastSequence <= after.lastSequence == |AllOps(steps)|
      && (before.pending.None? ==> after.lastSequence == before.lastSequence)
      && Content(after) == Content(before)
      && (SettledBy(before.revived, AllOps(steps), user, after.lastSequence) ==>
           Read(Content(after), user, after.lastSequence)
           == Lookup(StoreAfter(AllOps(steps), after.lastSequence), user))
  {
    var crashed := steps + [Crash(leftovers, newLogs, p)];
    CrashIsLast(first, steps, leftovers, newLogs, p);
    var before, after := Final(first, steps), Final(first, crashed);
    var lastBefore := RunKeeps(first, steps);
    var lastAfter := RunKeeps(first, crashed);
    CrashedContent(before, after, History(AllOps(steps)), lastBefore, lastAfter, leftovers, newLogs, p);
    SnapshotsBelow(before, History(AllOps(steps)), lastBefore);
    if SettledBy(before.revived, AllOps(steps), user, after.lastSequence) {
      EveryRunReadsLikeTheStore(first, crashed, user, after.lastSequence);
    }
  }

  lemma CrashedContent(before: DB, after: DB, h: set<Entry>, last: Record, last': Record, leftovers: seq<File>,
                       newLogs: set<nat>, p: Plan)
    requires Inv(before, h, last) && CanRecover(before.disk, leftovers, newLogs, p) && Inv(after, h, last')
    requires after == Crashes(before, leftovers, newLogs, p)
    ensures Content(after) == Content(before)
  {
    CrashKeepsStored(before, h, last, leftovers, newLogs, p);
    ContentIsStored(before);
    ContentIsStored(after);
  }

  lemma AfterCrash(db: DB, leftovers: seq<File>, newLogs: set<nat>, p: Plan)
    requires CanRecover(db.disk, leftovers, newLogs, p)
    ensures var after := Crashes(db, leftovers, newLogs, p);
      after.pending.None? && after.snapshots == [] && after.revived == db.revived
  {
  }

  lemma CrashIsLast(first: Plan, steps: seq<Step>, leftovers: seq<File>, newLogs: set<nat>, p: Plan)
    requires Run(first, steps + [Crash(leftovers, newLogs, p)])
    ensures var crashed := steps + [Crash(leftovers, newLogs, p)];
      && Run(first, steps) && AllOps(crashed) == AllOps(steps)
      && CanRecover(Final(first, steps).disk, leftovers, newLogs, p)
      && Final(first, crashed) == Crashes(Final(first, steps), leftovers, newLogs, p)
      && Final(first, crashed).pending.None? && Final(first, crashed).snapshots == []
      && Final(first, crashed).revived == Final(first, steps).revived
  {
    var crashed := steps + [Crash(leftovers, newLogs, p)];
    assert crashed[..|steps|] == steps;
    AfterCrash(Final(first, steps), leftovers, newLogs, p);
  }

  /** No entry is held twice: not by two tables, not by a table and a memtable, not by both memtables. */
  lemma NoEntryTwice(first: Plan, steps: seq<Step>, e: Entry)
    requires Run(first, steps)
    ensures var db := Final(first, steps);
        !(e in AllContents(db.levels) && (e in db.mem || e in Imm(db) || e in Pending(db)))
    ensures var db := Final(first, steps);
        !(e in Imm(db) && (e in db.mem || e in Pending(db))) && !(e in db.mem && e in Pending(db))
    ensures var db := Final(first, steps); |db.levels| == NUM_LEVELS && forall i, j, f, g ::
      0 <= i < NUM_LEVELS && 0 <= j < NUM_LEVELS && f in db.levels[i] && g in db.levels[j]
      && e in f.table && e in g.table
      ==> i == j && f == g
  {
    var last := RunKeeps(first, steps);
    var db := Final(first, steps);
    HeldOnce(db, History(AllOps(steps)), last, e);
    forall i, j, f: File, g: File | 0 <= i < NUM_LEVELS && 0 <= j < NUM_LEVELS && f in db.levels[i] && g in db.levels[j]
        && e in f.table && e in g.table
      ensures i == j && f == g
    {
      EntryInOneFile(db.levels, i, f, j, g, e);
    }
  }

  lemma HeldOnce(db: DB, h: set<Entry>, last: Record, e: Entry)
    requires Inv(db, h, last)
    ensures !(e in AllContents(db.levels) && (e in db.mem || e in Imm(db) || e in Pending(db)))
    ensures !(e in Imm(db) && (e in db.mem || e in Pending(db))) && !(e in db.mem && e in Pending(db))
  {
    if db.pending.Some? { forall d | d in db.pending.value ensures d.key.seqno > db.lastSequence { } }
    assert e in db.mem ==> e in Elements(db.mem);
  }
}
