/** Reopening the database after a crash keeps the invariant, with the same history. */
module Recovery {
  import opened Keys
  import opened Reads
  import opened Version
  import opened Inputs
  import opened Builder
  import opened Compacting
  import opened Install
  import opened Manifest
  import opened Engine
  import opened Invariant
  import opened Steps
  import opened FlushSteps

  // ----- the tables written by recovery -----

  function RecoveryEdit(files: seq<File>): VersionEdit {
    VersionEdit({}, Tagged(0, files))
  }

  lemma WritingOrderPrefix(files: seq<File>)
    requires files != [] && InWritingOrder(files)
    ensures InWritingOrder(files[..|files| - 1]) && NumbersDiffer(files)
    ensures forall f :: f in files[..|files| - 1] ==> f.number < files[|files| - 1].number
    ensures AllBelow(Contents(files[..|files| - 1]), Elements(files[|files| - 1].table))
    ensures ValidFile(files[|files| - 1])
  {
    var init, last := files[..|files| - 1], files[|files| - 1];
    forall f | f in init ensures f.number < last.number && AllBelow(Elements(f.table), Elements(last.table)) {
      var i :| 0 <= i < |init| && files[i] == f;
    }
    forall d, e | d in Contents(init) && e in Elements(last.table) ensures d.key.seqno < e.key.seqno {
      var f :| f in init && d in f.table;
      assert d in Elements(f.table);
    }
  }

  lemma WritingOrderNumbers(files: seq<File>)
    requires InWritingOrder(files)
    ensures NumbersDiffer(files)
  {
  }

  lemma RecoveredMembers(levels: Levels, files: seq<File>, l: nat)
    requires |levels| == NUM_LEVELS && l < NUM_LEVELS && Ordered(levels[l]) && NumbersDiffer(files)
    requires forall f, g :: f in levels[l] && g in files ==> f.number != g.number
    ensures Ordered(ApplyEdit(levels, RecoveryEdit(files))[l])
    ensures forall f :: f in ApplyEdit(levels, RecoveryEdit(files))[l] <==> f in levels[l] || (l == 0 && f in files)
  {
    TaggedAt(0, files, l);
    AppliedMembers(levels, RecoveryEdit(files), l);
  }

  /** The numbers of `files` are above those of the version. */
  ghost predicate NumberedAbove(levels: Levels, files: seq<File>, bound: nat) {
    && (forall l, f :: 0 <= l < |levels| && f in levels[l] ==> f.number < bound)
    && (forall f :: f in files ==> bound <= f.number)
  }

  lemma SameFilesAt(levels: Levels, files: seq<File>, l: nat, before: seq<File>, after: seq<File>)
    requires |levels| == NUM_LEVELS && l < NUM_LEVELS && Ordered(levels[l]) && files != [] && NumbersDiffer(files)
    requires forall f, g :: f in levels[l] && g in files ==> f.number != g.number
    requires forall f :: f in before <==> f in levels[l] || (l == 0 && f in files[..|files| - 1])
    requires Ordered(after) && forall f :: f in after <==> f in before || (l == 0 && f == files[|files| - 1])
    ensures ApplyEdit(levels, RecoveryEdit(files))[l] == after
  {
    assert files == files[..|files| - 1] + [files[|files| - 1]];
    RecoveredMembers(levels, files, l);
    OrderedDetermined(ApplyEdit(levels, RecoveryEdit(files))[l], after);
  }

  /** One edit with all the files gives what one flush after another to level 0 gives. */
  lemma RecoveryIsFlushes(levels: Levels, files: seq<File>, bound: nat, before: Levels, after: Levels)
    requires |levels| == NUM_LEVELS == |after| && files != [] && InWritingOrder(files)
    requires NumberedAbove(levels, files, bound)
    requires forall l :: 0 <= l < NUM_LEVELS ==> Ordered(levels[l]) && Ordered(after[l])
    requires before == ApplyEdit(levels, RecoveryEdit(files[..|files| - 1]))
    requires Flushed(before, after, 0, files[|files| - 1])
    ensures ApplyEdit(levels, RecoveryEdit(files)) == after
  {
    var init := files[..|files| - 1];
    WritingOrderPrefix(files);
    WritingOrderNumbers(init);
    forall l | 0 <= l < NUM_LEVELS ensures ApplyEdit(levels, RecoveryEdit(files))[l] == after[l] {
      RecoveredMembers(levels, init, l);
      SameFilesAt(levels, files, l, before[l], after[l]);
    }
  }

  lemma ContentsSplit(files: seq<File>)
    requires files != []
    ensures files == files[..|files| - 1] + [files[|files| - 1]]
    ensures Contents(files) == Contents(files[..|files| - 1]) + Elements(files[|files| - 1].table)
  {
    var init, last := files[..|files| - 1], files[|files| - 1];
    assert files == init + [last];
  }

  lemma NewTableAllowed(levels: Levels, init: seq<File>, last: File, tables: set<Entry>)
    requires |levels| == NUM_LEVELS && ValidFile(last) && Distinct(Elements(last.table))
    requires forall l, f :: 0 <= l < NUM_LEVELS && f in levels[l] ==> f.number < last.number
    requires AllContents(levels) == tables + Contents(init)
    requires AllBelow(tables, Elements(last.table)) && AllBelow(Contents(init), Elements(last.table))
    ensures FlushAllowed(levels, 0, last)
  {
  }

  ghost predicate Recovered(levels: Levels, files: seq<File>, after: Levels) {
    && OrderedVersion(after) && AllContents(after) == AllContents(levels) + Contents(files)
    && AddedOnly(levels, after, 0, files)
  }

  lemma {:induction false} RecoveredVersion(levels: Levels, files: seq<File>, bound: nat)
    requires OrderedVersion(levels) && InWritingOrder(files) && NumberedAbove(levels, files, bound)
    requires AllBelow(AllContents(levels), Contents(files)) && Distinct(Contents(files))
    ensures Recovered(levels, files, ApplyEdit(levels, RecoveryEdit(files)))
  {
    if files == [] {
      assert RecoveryEdit([]) == VersionEdit({}, []);
      EmptyEditKeeps(levels);
    } else {
      var init := files[..|files| - 1];
      WritingOrderPrefix(files);
      ContentsSplit(files);
      RecoveredVersion(levels, init, bound);
      RecoveredStep(levels, files, bound, ApplyEdit(levels, RecoveryEdit(init)));
    }
  }

  lemma RecoveredStep(levels: Levels, files: seq<File>, bound: nat, before: Levels)
    requires OrderedVersion(levels) && files != [] && InWritingOrder(files) && NumberedAbove(levels, files, bound)
    requires AllBelow(AllContents(levels), Contents(files)) && Distinct(Contents(files))
    requires before == ApplyEdit(levels, RecoveryEdit(files[..|files| - 1]))
    requires Recovered(levels, files[..|files| - 1], before)
    ensures Recovered(levels, files, ApplyEdit(levels, RecoveryEdit(files)))
  {
    var last := files[|files| - 1];
    NextTableAllowed(levels, files, bound, before);
    FlushKeepsVersion(before, 0, last);
    FlushMembers(before, 0, last);
    RecoveryIsFlushes(levels, files, bound, before, ApplyEdit(before, FlushEdit(0, last)));
    RecoveredFrom(levels, files, before, ApplyEdit(before, FlushEdit(0, last)));
  }

  lemma RecoveredFrom(levels: Levels, files: seq<File>, before: Levels, after: Levels)
    requires files != [] && AddedOnly(levels, before, 0, files[..|files| - 1])
    requires AllContents(before) == AllContents(levels) + Contents(files[..|files| - 1])
    requires OrderedVersion(after) && Flushed(before, after, 0, files[|files| - 1])
    requires AllContents(after) == AllContents(before) + Elements(files[|files| - 1].table)
    ensures Recovered(levels, files, after)
  {
    ContentsSplit(files);
    RecoveredAddsOnly(levels, files, before, after);
  }

  lemma NextTableAllowed(levels: Levels, files: seq<File>, bound: nat, before: Levels)
    requires files != [] && InWritingOrder(files) && NumberedAbove(levels, files, bound)
    requires AllBelow(AllContents(levels), Contents(files)) && Distinct(Contents(files))
    requires AddedOnly(levels, before, 0, files[..|files| - 1])
    requires AllContents(before) == AllContents(levels) + Contents(files[..|files| - 1])
    ensures FlushAllowed(before, 0, files[|files| - 1])
  {
    var init, last := files[..|files| - 1], files[|files| - 1];
    WritingOrderPrefix(files);
    ContentsSplit(files);
    RecoveredNumbers(levels, before, init, last, bound);
    NewTableAllowed(before, init, last, AllContents(levels));
  }

  lemma RecoveredNumbers(levels: Levels, before: Levels, init: seq<File>, last: File, bound: nat)
    requires AddedOnly(levels, before, 0, init) && NumberedAbove(levels, init + [last], bound)
    requires forall f :: f in init ==> f.number < last.number
    ensures forall l, f :: 0 <= l < NUM_LEVELS && f in before[l] ==> f.number < last.number
  {
    assert last in init + [last];
  }

  lemma RecoveredAddsOnly(levels: Levels, files: seq<File>, before: Levels, after: Levels)
    requires files != [] && AddedOnly(levels, before, 0, files[..|files| - 1])
    requires Flushed(before, after, 0, files[|files| - 1])
    ensures AddedOnly(levels, after, 0, files)
  {
    assert files == files[..|files| - 1] + [files[|files| - 1]];
  }

  // ----- reopening -----

  function PlannedLogs(disk: Disk, p: Plan): map<nat, seq<Batch>> {
    if p.mem.Some? then disk.logs else disk.logs[p.logfile := []]
  }

  function PlannedMem(p: Plan): seq<Entry> {
    if p.mem.Some? then p.mem.value else []
  }

  /** After the plan, the logs from the one in use on hold what the memtable holds. */
  lemma PlanLogs(disk: Disk, last: Record, p: Plan)
    requires last.Logged? && PlanFor(disk, last, p) && LogsOrdered(disk.logs, last.logNumber)
    ensures LogEntries(PlannedLogs(disk, p), p.logfile) == Elements(PlannedMem(p))
    ensures LogEntries(PlannedLogs(disk, p), last.logNumber) == LogEntries(disk.logs, last.logNumber)
    ensures LogsOrdered(PlannedLogs(disk, p), last.logNumber)
  {
    if p.mem.Some? {
      LastLogEntries(disk.logs, p.logfile);
    } else {
      NewLog(disk.logs, last.logNumber, p.logfile);
    }
  }

  lemma LastLogEntries(logs: map<nat, seq<Batch>>, n: nat)
    requires n in logs && forall m :: m in logs ==> m <= n
    ensures LogEntries(logs, n) == BatchEntries(logs[n])
  {
    forall e ensures e in LogEntries(logs, n) <==> e in BatchEntries(logs[n]) { LogEntriesIs(logs, n, e); }
  }

  /** The recovered last sequence is the last number of the history. */
  lemma PlanTop(kept: set<Entry>, recorded: nat, h: set<Entry>, top: nat, tables: set<Entry>, lastSequence: nat)
    requires HistoryInv(tables, kept, recorded, h, top)
    requires recorded <= lastSequence && (forall e :: e in kept ==> e.key.seqno <= lastSequence)
    requires lastSequence == recorded || exists e :: e in kept && e.key.seqno == lastSequence
    ensures lastSequence == top
  {
    if top > recorded { assert HasNumber(h, top); }
  }

  lemma PlannedHistory(tables: set<Entry>, kept: set<Entry>, recorded: nat, h: set<Entry>, top: nat, files: set<Entry>,
                       mem: set<Entry>)
    requires HistoryInv(tables, kept, recorded, h, top)
    requires files + mem == kept && AllBelow(files, mem)
    ensures HistoryInv(tables + files, mem, top, h, top)
    ensures (tables + files) + mem == tables + kept
    ensures AllBelow(tables, files) && Distinct(files)
  {
  }

  lemma PlanVersion(levels: Levels, files: seq<File>, bound: nat, nextFile: nat, tables: map<nat, seq<Entry>>)
    requires OrderedVersion(levels) && InWritingOrder(files) && AllBelow(AllContents(levels), Contents(files))
    requires Distinct(Contents(files))
    requires forall l, f :: 0 <= l < NUM_LEVELS && f in levels[l] ==> f.number < bound
    requires forall f :: f in files ==> bound <= f.number < nextFile
    requires bound <= nextFile && forall l :: 0 <= l < NUM_LEVELS ==> TablesOnDisk(levels[l], tables)
    ensures var after := ApplyEdit(levels, RecoveryEdit(files));
      && Recovered(levels, files, after)
      && (forall l :: 0 <= l < NUM_LEVELS ==> TablesOnDisk(after[l], WriteTables(tables, files)))
      && (forall l, f :: 0 <= l < NUM_LEVELS && f in after[l] ==> f.number < nextFile)
  {
    var after := ApplyEdit(levels, RecoveryEdit(files));
    RecoveredVersion(levels, files, bound);
    WritingOrderNumbers(files);
    WrittenOnDisk(tables, files);
    forall l | 0 <= l < NUM_LEVELS
      ensures TablesOnDisk(after[l], WriteTables(tables, files))
    {
      OthersStayOnDisk(levels, tables, files, l);
    }
  }

  function PlannedRecord(p: Plan): Record {
    Logged(RecoveryEdit(p.files), p.logfile, p.nextFile, p.lastSequence)
  }

  function PlannedManifest(disk: Disk, levels: Levels, p: Plan): seq<Record> {
    if p.reuseManifest then disk.manifest else [Snapshot(SnapshotEdit(levels))]
  }

  lemma PlanDescribed(disk: Disk, levels: Levels, bound: nat, p: Plan)
    requires Describes(disk.manifest, levels, bound) && OrderedVersion(levels) && InWritingOrder(p.files)
    requires bound <= p.nextFile
    requires forall l, f :: 0 <= l < NUM_LEVELS && f in levels[l] ==> f.number < bound
    requires forall f :: f in p.files ==> bound <= f.number < p.nextFile
    requires AddedOnly(levels, ApplyEdit(levels, RecoveryEdit(p.files)), 0, p.files)
    ensures Describes(PlannedManifest(disk, levels, p) + [PlannedRecord(p)], ApplyEdit(levels, RecoveryEdit(p.files)),
        p.nextFile)
  {
    if !p.reuseManifest { SnapshotDescribes(levels, bound); }
    WritingOrderNumbers(p.files);
    FreshFilesLogged(PlannedManifest(disk, levels, p), levels, bound, PlannedRecord(p), 0, p.files);
  }

  /** The disk after a recovery that writes the manifest. */
  function PlannedDisk(disk: Disk, levels: Levels, p: Plan): Disk {
    Disk(WriteTables(disk.tables, p.files), PlannedLogs(disk, p), PlannedManifest(disk, levels, p))
  }

  lemma SavedShape(disk: Disk, levels: Levels, last: Record, p: Plan)
    requires |levels| == NUM_LEVELS && last.Logged? && p.saved
    ensures var db := Reopen(disk, levels, last, p);
      && db.disk == Recorded(PlannedDisk(disk, levels, p), PlannedRecord(p))
      && db.levels == ApplyEdit(levels, RecoveryEdit(p.files)) && db.logNumber == p.logfile
      && db.logfileNumber == p.logfile && db.nextFile == p.nextFile && db.lastSequence == p.lastSequence
      && db.mem == PlannedMem(p) && db.imm == None && db.pending == None && db.snapshots == [] && db.background == Idle
  {
  }

  lemma SavedDisk(disk: Disk, levels: Levels, last: Record, h: set<Entry>, top: nat, p: Plan)
    requires DiskInv(disk, levels, last, h, top) && PlanFor(disk, last, p)
    ensures DiskInv(Recorded(PlannedDisk(disk, levels, p), PlannedRecord(p)), ApplyEdit(levels, RecoveryEdit(p.files)),
        PlannedRecord(p), h, top)
    ensures p.lastSequence == top
    ensures AllContents(ApplyEdit(levels, RecoveryEdit(p.files))) + LogEntries(PlannedLogs(disk, p), p.logfile)
         == AllContents(levels) + LogEntries(disk.logs, last.logNumber)
  {
    var kept := LogEntries(disk.logs, last.logNumber);
    PlanLogs(disk, last, p);
    PlanTop(kept, last.lastSequence, h, top, AllContents(levels), p.lastSequence);
    PlannedHistory(AllContents(levels), kept, last.lastSequence, h, top, Contents(p.files), Elements(PlannedMem(p)));
    PlanVersion(levels, p.files, last.nextFile, p.nextFile, disk.tables);
    PlanDescribed(disk, levels, last.nextFile, p);
    InstalledDisk(PlannedDisk(disk, levels, p), ApplyEdit(levels, RecoveryEdit(p.files)), PlannedRecord(p), h, top);
  }

  lemma SavedMemory(db: DB, mem: seq<Entry>)
    requires Sorted(mem) && LogEntries(db.disk.logs, db.logfileNumber) == Elements(mem)
    requires db.logNumber == db.logfileNumber && db.mem == mem && db.imm == None && db.pending == None
    requires db.snapshots == []
    requires forall e :: e in Elements(mem) ==> e.key.seqno <= db.lastSequence
    ensures MemoryInv(db) && SnapshotsInv(db)
  {
  }

  lemma PlannedLogFiles(disk: Disk, last: Record, p: Plan)
    requires last.Logged? && PlanFor(disk, last, p)
    ensures p.logfile in PlannedLogs(disk, p) && last.logNumber <= p.logfile < p.nextFile
    ensures forall n :: n in PlannedLogs(disk, p) ==> n <= p.logfile
    ensures Sorted(PlannedMem(p)) && forall e :: e in Elements(PlannedMem(p)) ==> e.key.seqno <= p.lastSequence
  {
  }

  /** A reopened database meets the invariant once its disk and its memory do. */
  lemma Reassembled(db: DB, record: Record, h: set<Entry>, top: nat)
    requires DiskInv(db.disk, db.levels, record, h, top) && top == Top(db)
    requires record.logNumber == db.logNumber && record.nextFile <= db.nextFile
    requires MemoryInv(db) && LogFilesInv(db) && SnapshotsInv(db) && db.background == Idle
    requires ReadsKept(db.revived, h, Stored(db), SmallestSnapshot(db))
    ensures Inv(db, h, record)
  {
  }

  lemma SavedReopenKeeps(disk: Disk, levels: Levels, last: Record, h: set<Entry>, top: nat, floor: nat, p: Plan,
                         revived: Revivals)
    requires DiskInv(disk, levels, last, h, top) && PlanFor(disk, last, p) && p.saved && floor <= top
    requires ReadsKept(revived, h, AllContents(levels) + LogEntries(disk.logs, last.logNumber), floor)
    ensures Inv(Reopen(disk, levels, last, p).(revived := revived), h, PlannedRecord(p))
  {
    var reopened := Reopen(disk, levels, last, p);
    var db := reopened.(revived := revived);
    SavedShape(disk, levels, last, p);
    SavedDisk(disk, levels, last, h, top, p);
    PlanLogs(disk, last, p);
    PlannedLogFiles(disk, last, p);
    SavedMemory(db, PlannedMem(p));
    FloorRises(revived, h, AllContents(levels) + LogEntries(disk.logs, last.logNumber), floor, p.lastSequence);
    Reassembled(db, PlannedRecord(p), h, top);
  }

  lemma UnsavedShape(disk: Disk, levels: Levels, last: Record, p: Plan)
    requires |levels| == NUM_LEVELS && last.Logged? && !p.saved && p.files == []
    ensures var db := Reopen(disk, levels, last, p);
      && db.disk == disk.(logs := PlannedLogs(disk, p))
      && db.levels == levels && db.logNumber == last.logNumber
      && db.logfileNumber == p.logfile && db.nextFile == p.nextFile && db.lastSequence == p.lastSequence
      && db.mem == PlannedMem(p) && db.imm == None && db.pending == None && db.snapshots == [] && db.background == Idle
  {
  }

  lemma UnsavedMemory(db: DB, mem: seq<Entry>)
    requires Sorted(mem)
    requires LogEntries(db.disk.logs, db.logfileNumber) == Elements(mem) == LogEntries(db.disk.logs, db.logNumber)
    requires db.mem == mem && db.imm == None && db.pending == None && db.snapshots == []
    requires forall e :: e in Elements(mem) ==> e.key.seqno <= db.lastSequence
    ensures MemoryInv(db) && SnapshotsInv(db)
  {
  }

  lemma UnsavedDisk(disk: Disk, levels: Levels, last: Record, h: set<Entry>, top: nat, p: Plan)
    requires DiskInv(disk, levels, last, h, top) && PlanFor(disk, last, p) && !p.saved
    ensures DiskInv(disk.(logs := PlannedLogs(disk, p)), levels, last, h, top) && p.lastSequence == top
    ensures LogEntries(PlannedLogs(disk, p), p.logfile) == Elements(PlannedMem(p))
        == LogEntries(PlannedLogs(disk, p), last.logNumber)
    ensures LogEntries(PlannedLogs(disk, p), last.logNumber) == LogEntries(disk.logs, last.logNumber)
  {
    PlanLogs(disk, last, p);
    PlanTop(LogEntries(disk.logs, last.logNumber), last.lastSequence, h, top, AllContents(levels), p.lastSequence);
    DiskWithLogs(disk, PlannedLogs(disk, p), levels, last, h, top);
  }

  lemma UnsavedReopenKeeps(disk: Disk, levels: Levels, last: Record, h: set<Entry>, top: nat, floor: nat, p: Plan,
                           revived: Revivals)
    requires DiskInv(disk, levels, last, h, top) && PlanFor(disk, last, p) && !p.saved && floor <= top
    requires ReadsKept(revived, h, AllContents(levels) + LogEntries(disk.logs, last.logNumber), floor)
    ensures Inv(Reopen(disk, levels, last, p).(revived := revived), h, last)
  {
    var reopened := Reopen(disk, levels, last, p);
    var db := reopened.(revived := revived);
    UnsavedShape(disk, levels, last, p);
    UnsavedDisk(disk, levels, last, h, top, p);
    PlannedLogFiles(disk, last, p);
    UnsavedMemory(db, PlannedMem(p));
    FloorRises(revived, h, AllContents(levels) + LogEntries(disk.logs, last.logNumber), floor, p.lastSequence);
    Reassembled(db, last, h, top);
  }

  function ReopenRecord(last: Record, p: Plan): Record {
    if p.saved then PlannedRecord(p) else last
  }

  /** Recovery moves entries from logs to tables, and that is all. */
  lemma ReopenStored(disk: Disk, levels: Levels, last: Record, h: set<Entry>, top: nat, p: Plan)
    requires DiskInv(disk, levels, last, h, top) && PlanFor(disk, last, p)
    ensures Stored(Reopen(disk, levels, last, p)) == AllContents(levels) + LogEntries(disk.logs, last.logNumber)
  {
    if p.saved {
      SavedShape(disk, levels, last, p);
      SavedDisk(disk, levels, last, h, top, p);
    } else {
      UnsavedShape(disk, levels, last, p);
      UnsavedDisk(disk, levels, last, h, top, p);
    }
  }

  /** Whatever a crash leaves on disk, recovery rebuilds a database with the same history. */
  lemma ReopenKeeps(disk: Disk, levels: Levels, last: Record, h: set<Entry>, top: nat, floor: nat, p: Plan,
                    revived: Revivals)
    requires DiskInv(disk, levels, last, h, top) && PlanFor(disk, last, p) && floor <= top
    requires ReadsKept(revived, h, AllContents(levels) + LogEntries(disk.logs, last.logNumber), floor)
    ensures Replay(disk.manifest) == levels
    ensures Inv(Reopen(disk, Replay(disk.manifest), last, p).(revived := revived), h, ReopenRecord(last, p))
  {
    ReplayIsCurrent(disk.manifest, levels, last.nextFile);
    if p.saved {
      SavedReopenKeeps(disk, levels, last, h, top, floor, p, revived);
    } else {
      UnsavedReopenKeeps(disk, levels, last, h, top, floor, p, revived);
    }
  }
}
