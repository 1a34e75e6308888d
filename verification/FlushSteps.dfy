/** Switching memtables, flushing and deleting obsolete files keep the invariant. */
module FlushSteps {
  import opened Keys
  import opened Reads
  import opened Version
  import opened Inputs
  import opened Builder
  import opened Compacting
  import opened Install
  import opened Manifest
  import opened Engine
  import opened Invariant
  import opened Steps

  // ----- a new log -----

  lemma NewLog(logs: map<nat, seq<Batch>>, low: nat, n: nat)
    requires LogsOrdered(logs, low) && n >= low && forall m :: m in logs ==> m < n
    ensures LogsOrdered(logs[n := []], low)
    ensures LogEntries(logs[n := []], low) == LogEntries(logs, low)
    ensures LogEntries(logs[n := []], n) == {}
  {
    assert BatchEntries([]) == {};
    LogEntriesUpdate(logs, n, [], low);
    LogEntriesUpdate(logs, n, [], n);
    forall e ensures e !in LogEntries(logs, n) { LogEntriesIs(logs, n, e); }
    AppendedLogsOrdered(logs, low, n, [], {});
  }

  lemma DiskWithLogs(disk: Disk, logs: map<nat, seq<Batch>>, levels: Levels, last: Record, h: set<Entry>, top: nat)
    requires DiskInv(disk, levels, last, h, top)
    requires LogsOrdered(logs, last.logNumber)
    requires LogEntries(logs, last.logNumber) == LogEntries(disk.logs, last.logNumber)
    ensures DiskInv(disk.(logs := logs), levels, last, h, top)
  {
  }

  ghost predicate SwitchReady(db: DB) {
    db.imm.None? && db.pending.None? && !db.background.Flushing?
  }

  lemma SwitchMemory(db: DB)
    requires MemoryInv(db) && LogFilesInv(db) && SwitchReady(db) && LogsOrdered(db.disk.logs, db.logNumber)
    ensures MemoryInv(SwitchMemtable(db)) && LogFilesInv(SwitchMemtable(db))
    ensures LogsOrdered(SwitchMemtable(db).disk.logs, db.logNumber)
    ensures LogEntries(SwitchMemtable(db).disk.logs, db.logNumber) == LogEntries(db.disk.logs, db.logNumber)
  {
    NewLog(db.disk.logs, db.logNumber, db.nextFile);
  }

  lemma SwitchRest(db: DB, last: Record)
    requires SnapshotsInv(db) && last.Logged? && BackgroundInv(db, last) && SwitchReady(db)
    requires Stored(SwitchMemtable(db)) == Stored(db)
    ensures SnapshotsInv(SwitchMemtable(db)) && BackgroundInv(SwitchMemtable(db), last)
    ensures SmallestSnapshot(SwitchMemtable(db)) == SmallestSnapshot(db)
  {
  }

  lemma SwitchKeeps(db: DB, h: set<Entry>, last: Record)
    requires Inv(db, h, last) && SwitchReady(db)
    ensures Inv(SwitchMemtable(db), h, last)
  {
    var db' := SwitchMemtable(db);
    SwitchMemory(db);
    SwitchRest(db, last);
    DiskWithLogs(db.disk, db'.disk.logs, db.levels, last, h, Top(db));
    assert db'.disk == db.disk.(logs := db'.disk.logs) && Top(db') == Top(db);
    ReadsStay(db, db', h);
  }

  // ----- writing tables -----

  lemma {:induction false} WriteTablesAt(tables: map<nat, seq<Entry>>, files: seq<File>, n: nat)
    requires n !in NumbersOf(files)
    ensures n in WriteTables(tables, files) <==> n in tables
    ensures n in tables ==> WriteTables(tables, files)[n] == tables[n]
  {
    if files != [] {
      var init, last := files[..|files| - 1], files[|files| - 1];
      assert last in files && forall f :: f in init ==> f in files;
      WriteTablesAt(tables, init, n);
    }
  }

  lemma {:induction false} WrittenAt(tables: map<nat, seq<Entry>>, files: seq<File>, f: File)
    requires NumbersDiffer(files) && f in files
    ensures f.number in WriteTables(tables, files) && WriteTables(tables, files)[f.number] == f.table
  {
    var init, last := files[..|files| - 1], files[|files| - 1];
    assert files == init + [last];
    if f in init {
      var i :| 0 <= i < |init| && init[i] == f;
      assert files[i].number != files[|files| - 1].number;
      WrittenAt(tables, init, f);
    }
  }

  lemma WrittenOnDisk(tables: map<nat, seq<Entry>>, files: seq<File>)
    requires NumbersDiffer(files)
    ensures TablesOnDisk(files, WriteTables(tables, files))
  {
    forall f | f in files
      ensures f.number in WriteTables(tables, files) && WriteTables(tables, files)[f.number] == f.table
    {
      WrittenAt(tables, files, f);
    }
  }

  /** The files about to be written have new numbers. */
  ghost predicate NewNumbers(levels: Levels, files: seq<File>) {
    forall l, f, g {:trigger f in levels[l], g in files} ::
        0 <= l < |levels| && f in levels[l] && g in files ==> f.number != g.number
  }

  lemma OthersStayOnDisk(levels: Levels, tables: map<nat, seq<Entry>>, files: seq<File>, l: nat)
    requires l < |levels| && TablesOnDisk(levels[l], tables) && NewNumbers(levels, files)
    ensures TablesOnDisk(levels[l], WriteTables(tables, files))
  {
    forall f | f in levels[l]
      ensures f.number in WriteTables(tables, files) && WriteTables(tables, files)[f.number] == f.table
    {
      WriteTablesAt(tables, files, f.number);
    }
  }

  lemma DiskWithTables(disk: Disk, files: seq<File>, levels: Levels, last: Record, h: set<Entry>, top: nat)
    requires DiskInv(disk, levels, last, h, top) && forall f :: f in files ==> last.nextFile <= f.number
    ensures DiskInv(disk.(tables := WriteTables(disk.tables, files)), levels, last, h, top)
  {
    forall l | 0 <= l < NUM_LEVELS ensures TablesOnDisk(levels[l], WriteTables(disk.tables, files)) {
      OthersStayOnDisk(levels, disk.tables, files, l);
    }
  }

  // ----- a flush -----

  /** The flushed file overlaps nothing down to its level, as PickLevelForMemTableOutput ensures. */
  ghost predicate FlushLevelFits(levels: Levels, level: nat, table: seq<Entry>) {
    && |levels| == NUM_LEVELS && level < NUM_LEVELS
    && (level > 0 && table != [] ==> forall i, g :: 0 <= i <= level && g in levels[i] ==>
          !Overlaps(g, Some(table[0].key.user), Some(table[|table| - 1].key.user)))
  }

  /** The level WriteLevel0Table puts the table at. */
  ghost predicate IsOutputLevel(levels: Levels, level: nat, table: seq<Entry>, maxFileSize: nat) {
    if table == [] then level == 0
    else IsFirstStop(levels, level, table[0].key.user, table[|table| - 1].key.user, maxFileSize)
  }

  ghost predicate FlushReady(db: DB, level: nat) {
    db.background.Idle? && db.imm.Some? && FlushLevelFits(db.levels, level, db.imm.value)
  }

  lemma BelowIsNewer(older: set<Entry>, newer: set<Entry>)
    requires AllBelow(older, newer)
    ensures NewerThan(newer, older)
  {
  }

  lemma FlushFileAllowed(db: DB, h: set<Entry>, level: nat, f: File)
    requires FlushLevelFits(db.levels, level, f.table) && ValidFile(f)
    requires forall i, g :: 0 <= i < NUM_LEVELS && g in db.levels[i] ==> g.number < f.number
    requires AllBelow(AllContents(db.levels), LogEntries(db.disk.logs, db.logNumber)) && Distinct(h)
    requires Elements(f.table) <= LogEntries(db.disk.logs, db.logNumber) <= h
    ensures FlushAllowed(db.levels, level, f)
  {
    BelowIsNewer(AllContents(db.levels), LogEntries(db.disk.logs, db.logNumber));
  }

  lemma StartFlushBackground(db: DB, h: set<Entry>, last: Record, level: nat, size: nat)
    requires MemoryInv(db) && FlushReady(db, level) && last.Logged? && last.nextFile <= db.nextFile
    requires forall i, g :: 0 <= i < NUM_LEVELS && g in db.levels[i] ==> g.number < last.nextFile
    requires AllBelow(AllContents(db.levels), LogEntries(db.disk.logs, db.logNumber)) && Distinct(h)
    requires LogEntries(db.disk.logs, db.logNumber) <= h
    ensures BackgroundInv(StartFlush(db, level, size), last)
  {
    if db.imm.value != [] {
      var f := FinishedFile(db.nextFile, size, db.imm.value);
      assert Elements(f.table) == Imm(db);
      FlushFileAllowed(db, h, level, f);
      WrittenOnDisk(db.disk.tables, [f]);
    }
  }

  lemma StartFlushDisk(db: DB, h: set<Entry>, last: Record, level: nat, size: nat)
    requires DiskInv(db.disk, db.levels, last, h, Top(db)) && last.nextFile <= db.nextFile
    requires db.imm.Some? && Sorted(db.imm.value)
    ensures var db' := StartFlush(db, level, size); DiskInv(db'.disk, db'.levels, last, h, Top(db'))
  {
    if db.imm.value != [] {
      DiskWithTables(db.disk, [FinishedFile(db.nextFile, size, db.imm.value)], db.levels, last, h, Top(db));
    }
  }

  lemma StartFlushRest(db: DB, level: nat, size: nat)
    requires MemoryInv(db) && LogFilesInv(db) && SnapshotsInv(db) && db.imm.Some?
    ensures var db' := StartFlush(db, level, size);
      MemoryInv(db') && LogFilesInv(db') && SnapshotsInv(db') && Stored(db') == Stored(db)
          && SmallestSnapshot(db') == SmallestSnapshot(db)
  {
  }

  lemma FlushFacts(db: DB, h: set<Entry>, last: Record)
    requires Inv(db, h, last)
    ensures last.Logged? && last.nextFile <= db.nextFile && Distinct(h)
    ensures forall i, g :: 0 <= i < NUM_LEVELS && g in db.levels[i] ==> g.number < last.nextFile
    ensures AllBelow(AllContents(db.levels), LogEntries(db.disk.logs, db.logNumber))
    ensures LogEntries(db.disk.logs, db.logNumber) <= h
  {
    NumberedDistinct(h, Top(db));
  }

  lemma StartFlushKeeps(db: DB, h: set<Entry>, last: Record, level: nat, size: nat)
    requires Inv(db, h, last) && FlushReady(db, level)
    ensures Inv(StartFlush(db, level, size), h, last)
  {
    FlushFacts(db, h, last);
    StartFlushBackground(db, h, last, level, size);
    StartFlushDisk(db, h, last, level, size);
    StartFlushRest(db, level, size);
    ReadsStay(db, StartFlush(db, level, size), h);
  }

  // ----- installing a version -----

  /** The disk after LogAndApply. */
  function Recorded(disk: Disk, record: Record): Disk {
    disk.(manifest := disk.manifest + [record])
  }

  lemma InstalledDisk(disk: Disk, levels: Levels, record: Record, h: set<Entry>, top: nat)
    requires record.Logged? && record.logNumber < record.nextFile
    requires Describes(disk.manifest + [record], levels, record.nextFile) && OrderedVersion(levels)
    requires forall l :: 0 <= l < NUM_LEVELS ==> TablesOnDisk(levels[l], disk.tables)
    requires forall l, f :: 0 <= l < NUM_LEVELS && f in levels[l] ==> f.number < record.nextFile
    requires HistoryInv(AllContents(levels), LogEntries(disk.logs, record.logNumber), record.lastSequence, h, top)
    requires LogsOrdered(disk.logs, record.logNumber)
    ensures DiskInv(Recorded(disk, record), levels, record, h, top)
  {
    assert Recorded(disk, record).manifest[|disk.manifest|] == record;
  }

  lemma HeldStayDown(records: seq<Record>, levels: Levels, bound: nat, l: nat, n: nat)
    requires MovesDown(records, levels, bound) && l < NUM_LEVELS && n in Held([], EditsAt(records, l))
    ensures n < bound && forall c, f :: l > c >= 0 && c < |levels| && f in levels[c] ==> f.number != n
  {
  }

  lemma FreshFilesExtend(records: seq<Record>, levels: Levels, bound: nat, e: VersionEdit, level: nat, files: seq<File>,
                         l: nat)
    requires MovesDown(records, levels, bound) && e.added == Tagged(level, files) && l < NUM_LEVELS
    requires NumbersDiffer(files) && forall f :: f in files ==> bound <= f.number
    ensures Extends(records, e, l)
    ensures NumbersOf(AddedAt(e.added, l)) == if l == level then NumbersOf(files) else {}
  {
    TaggedAt(level, files, l);
    forall n | n in Held([], EditsAt(records, l))
      ensures n !in NumbersOf(files)
    {
      HeldStayDown(records, levels, bound, l, n);
    }
  }

  ghost predicate AddedOnly(levels: Levels, after: Levels, level: nat, files: seq<File>) {
    |levels| == NUM_LEVELS == |after| &&
    forall l, f {:trigger f in after[l]} ::
        0 <= l < NUM_LEVELS && f in after[l] ==> f in levels[l] || (l == level && f in files)
  }

  lemma FreshFilesStayDown(records: seq<Record>, levels: Levels, bound: nat, e: VersionEdit, level: nat,
                           files: seq<File>, after: Levels)
    requires MovesDown(records, levels, bound) && level < NUM_LEVELS && AddedOnly(levels, after, level, files)
    requires forall l, f :: 0 <= l < NUM_LEVELS && f in levels[l] ==> f.number < bound
    requires forall f :: f in files ==> bound <= f.number
    requires forall l ::
        0 <= l < NUM_LEVELS ==> NumbersOf(AddedAt(e.added, l)) == if l == level then NumbersOf(files) else {}
    ensures StaysDown(records, e, after)
  {
    forall l, n, c, f: File |
      0 <= c < l < NUM_LEVELS && f in after[c]
          && (n in Held([], EditsAt(records, l)) || n in NumbersOf(AddedAt(e.added, l)))
      ensures f.number != n
    {
      if n in Held([], EditsAt(records, l)) { HeldStayDown(records, levels, bound, l, n); }
    }
  }

  /** An edit that adds files with new numbers, whatever it deletes, can be logged. */
  lemma FreshFilesLogged(records: seq<Record>, levels: Levels, bound: nat, r: Record, level: nat, files: seq<File>)
    requires Describes(records, levels, bound) && r.Logged? && r.edit.added == Tagged(level, files)
    requires level < NUM_LEVELS
    requires NumbersDiffer(files) && bound <= r.nextFile && forall f :: f in files ==> bound <= f.number < r.nextFile
    requires forall l, f :: 0 <= l < NUM_LEVELS && f in levels[l] ==> f.number < bound
    requires AddedOnly(levels, ApplyEdit(levels, r.edit), level, files)
    requires forall p :: p in r.edit.deleted ==> p.0 < NUM_LEVELS
    ensures Describes(records + [r], ApplyEdit(levels, r.edit), r.nextFile)
  {
    forall l | 0 <= l < NUM_LEVELS
      ensures Extends(records, r.edit, l)
      ensures NumbersOf(AddedAt(r.edit.added, l)) == if l == level then NumbersOf(files) else {}
    {
      FreshFilesExtend(records, levels, bound, r.edit, level, files, l);
    }
    FreshFilesStayDown(records, levels, bound, r.edit, level, files, ApplyEdit(levels, r.edit));
    LoggingExtends(records, levels, bound, r, r.nextFile);
  }

  // ----- installing a flush -----

  lemma {:induction false} EmptyEditKeeps(levels: Levels)
    requires |levels| == NUM_LEVELS
    ensures ApplyEdit(levels, VersionEdit({}, [])) == levels
  {
    forall l | 0 <= l < NUM_LEVELS ensures ApplyEdit(levels, VersionEdit({}, []))[l] == levels[l] {
      var part := EditAt(VersionEdit({}, []), l);
      assert part == LevelEdit({}, []);
      assert ApplyLevel(EMPTY_STATE, part) == EMPTY_STATE;
      NothingDeleted(levels[l]);
    }
  }

  lemma EmptyEditLogged(records: seq<Record>, levels: Levels, bound: nat, r: Record)
    requires Describes(records, levels, bound) && r.Logged? && r.edit == VersionEdit({}, []) && bound <= r.nextFile
    requires forall l, f :: 0 <= l < NUM_LEVELS && f in levels[l] ==> f.number < bound
    ensures Describes(records + [r], ApplyEdit(levels, r.edit), r.nextFile)
  {
    EmptyEditKeeps(levels);
    assert Tagged(0, []) == [];
    FreshFilesLogged(records, levels, bound, r, 0, []);
  }

  lemma FlushLogged(records: seq<Record>, levels: Levels, bound: nat, r: Record, level: nat, f: File)
    requires Describes(records, levels, bound) && r.Logged? && r.edit == FlushEdit(level, f)
    requires bound <= f.number < r.nextFile
    requires forall l, g :: 0 <= l < NUM_LEVELS && g in levels[l] ==> g.number < bound
    requires OrderedVersion(levels) && FlushAllowed(levels, level, f)
    ensures Describes(records + [r], ApplyEdit(levels, r.edit), r.nextFile)
  {
    FlushMembers(levels, level, f);
    assert Tagged(level, [f]) == [(level, f)];
    FreshFilesLogged(records, levels, bound, r, level, [f]);
  }

  lemma UnpublishedIsPending(db: DB, h: set<Entry>, e: Entry)
    requires Numbered(h, Top(db)) && (db.pending.Some? ==> StampedFrom(db.pending.value, db.lastSequence + 1))
    requires Pending(db) <= h
    requires e in h && e.key.seqno > db.lastSequence
    ensures e in Pending(db)
  {
    var b := db.pending.value;
    var f := b[e.key.seqno - db.lastSequence - 1];
    assert f in Elements(b);
  }

  /** The entries of the immutable memtable move from the kept logs to the tables. */
  lemma FlushHistory(db: DB, h: set<Entry>, recorded: nat, tables: set<Entry>)
    requires MemoryInv(db) && db.logNumber <= db.logfileNumber
    requires HistoryInv(AllContents(db.levels), LogEntries(db.disk.logs, db.logNumber), recorded, h, Top(db))
    requires tables == AllContents(db.levels) + Imm(db)
    ensures HistoryInv(tables, LogEntries(db.disk.logs, db.logfileNumber), db.lastSequence, h, Top(db))
    ensures tables + LogEntries(db.disk.logs, db.logfileNumber) == Stored(db)
  {
    forall e | e in h && e.key.seqno > db.lastSequence ensures e in LogEntries(db.disk.logs, db.logfileNumber) {
      UnpublishedIsPending(db, h, e);
    }
  }

  function FlushRecord(db: DB): Record
    requires db.background.Flushing?
  {
    var e := match db.background.file
      case Some(f) => FlushEdit(db.background.level, f)
      case None => VersionEdit({}, []);
    Logged(e, db.logfileNumber, db.nextFile, db.lastSequence)
  }

  lemma InstallFlushShape(db: DB)
    requires |db.levels| == NUM_LEVELS && db.background.Flushing?
    ensures var db', r := InstallFlush(db), FlushRecord(db);
      && db'.disk == Recorded(db.disk, r) && db'.levels == ApplyEdit(db.levels, r.edit)
           && db'.logNumber == r.logNumber == db.logfileNumber
      && db'.mem == db.mem && db'.imm == None && db'.pending == db.pending && db'.lastSequence == db.lastSequence
      && db'.logfileNumber == db.logfileNumber && db'.nextFile == db.nextFile && db'.snapshots == db.snapshots
           && db'.background == Idle
  {
  }

  lemma FlushedLevels(db: DB, last: Record)
    requires db.background.Flushing? && last.Logged? && BackgroundInv(db, last)
    requires OrderedVersion(db.levels) && Describes(db.disk.manifest, db.levels, last.nextFile)
    requires last.nextFile <= db.nextFile
    requires forall l, g :: 0 <= l < NUM_LEVELS && g in db.levels[l] ==> g.number < last.nextFile
    ensures var r := FlushRecord(db); var levels' := ApplyEdit(db.levels, r.edit);
      && OrderedVersion(levels') && AllContents(levels') == AllContents(db.levels) + Imm(db)
      && Describes(db.disk.manifest + [r], levels', r.nextFile)
  {
    var r := FlushRecord(db);
    match db.background.file {
      case None =>
        EmptyEditKeeps(db.levels);
        EmptyEditLogged(db.disk.manifest, db.levels, last.nextFile, r);
        assert Imm(db) == {};
      case Some(f) =>
        FlushKeepsVersion(db.levels, db.background.level, f);
        FlushLogged(db.disk.manifest, db.levels, last.nextFile, r, db.background.level, f);
    }
  }

  lemma FlushedTables(db: DB, last: Record)
    requires db.background.Flushing? && last.Logged? && BackgroundInv(db, last) && OrderedVersion(db.levels)
    requires last.nextFile <= db.nextFile
    requires forall l, g :: 0 <= l < NUM_LEVELS && g in db.levels[l] ==> g.number < last.nextFile
    requires forall l :: 0 <= l < NUM_LEVELS ==> TablesOnDisk(db.levels[l], db.disk.tables)
    ensures var levels' := ApplyEdit(db.levels, FlushRecord(db).edit);
      && (forall l :: 0 <= l < NUM_LEVELS ==> TablesOnDisk(levels'[l], db.disk.tables))
      && (forall l, g :: 0 <= l < NUM_LEVELS && g in levels'[l] ==> g.number < db.nextFile)
  {
    match db.background.file {
      case None => EmptyEditKeeps(db.levels);
      case Some(f) => FlushMembers(db.levels, db.background.level, f);
    }
  }

  lemma InstallFlushDisk(db: DB, h: set<Entry>, last: Record)
    requires DiskInv(db.disk, db.levels, last, h, Top(db)) && last.logNumber == db.logNumber
    requires last.nextFile <= db.nextFile
    requires MemoryInv(db) && LogFilesInv(db) && BackgroundInv(db, last) && db.background.Flushing?
    ensures DiskInv(Recorded(db.disk, FlushRecord(db)), ApplyEdit(db.levels, FlushRecord(db).edit), FlushRecord(db), h,
        Top(db))
    ensures AllContents(ApplyEdit(db.levels, FlushRecord(db).edit)) + LogEntries(db.disk.logs, db.logfileNumber)
        == Stored(db)
  {
    var r := FlushRecord(db);
    FlushedLevels(db, last);
    FlushedTables(db, last);
    FlushHistory(db, h, last.lastSequence, AllContents(ApplyEdit(db.levels, r.edit)));
    assert LogsOrdered(db.disk.logs, r.logNumber);
    InstalledDisk(db.disk, ApplyEdit(db.levels, r.edit), r, h, Top(db));
  }

  lemma InstallFlushMemory(db: DB, db': DB)
    requires MemoryInv(db) && LogFilesInv(db) && SnapshotsInv(db)
    requires db'.disk.logs == db.disk.logs && db'.logNumber == db.logfileNumber
    requires db'.mem == db.mem && db'.imm == None && db'.pending == db.pending && db'.lastSequence == db.lastSequence
    requires db'.logfileNumber == db.logfileNumber && db'.nextFile == db.nextFile && db'.snapshots == db.snapshots
    ensures MemoryInv(db') && LogFilesInv(db') && SnapshotsInv(db')
  {
  }

  lemma InstallFlushKeeps(db: DB, h: set<Entry>, last: Record)
    requires Inv(db, h, last) && db.background.Flushing?
    ensures Inv(InstallFlush(db), h, FlushRecord(db))
  {
    InstallFlushShape(db);
    InstallFlushDisk(db, h, last);
    InstallFlushMemory(db, InstallFlush(db));
    assert Top(InstallFlush(db)) == Top(db) && Stored(InstallFlush(db)) == Stored(db);
    ReadsStay(db, InstallFlush(db), h);
  }

  // ----- obsolete files -----

  lemma KeptLogs(logs: map<nat, seq<Batch>>, low: nat, low': nat)
    requires low <= low'
    ensures LogEntries(map n | n in logs && n >= low :: logs[n], low') == LogEntries(logs, low')
  {
    var kept := map n | n in logs && n >= low :: logs[n];
    forall e ensures e in LogEntries(kept, low') <==> e in LogEntries(logs, low') {
      LogEntriesIs(kept, low', e);
      LogEntriesIs(logs, low', e);
      if e in LogEntries(logs, low') {
        var n :| n in logs && n >= low' && e in BatchEntries(logs[n]);
        assert n in kept;
      }
    }
  }

  lemma LiveStayOnDisk(levels: Levels, tables: map<nat, seq<Entry>>, keep: set<nat>, l: nat)
    requires l < |levels| && TablesOnDisk(levels[l], tables) && LiveNumbers(levels) <= keep
    ensures TablesOnDisk(levels[l], map n | n in tables && n in keep :: tables[n])
  {
    assert levels[l] in levels;
  }

  lemma ObsoleteDisk(disk: Disk, levels: Levels, last: Record, h: set<Entry>, top: nat, keep: set<nat>)
    requires DiskInv(disk, levels, last, h, top) && LiveNumbers(levels) <= keep
    ensures var disk' := disk.(tables := map n | n in disk.tables && n in keep :: disk.tables[n],
                               logs := map n | n in disk.logs && n >= last.logNumber :: disk.logs[n]);
      DiskInv(disk', levels, last, h, top)
  {
    KeptLogs(disk.logs, last.logNumber, last.logNumber);
    forall l | 0 <= l < NUM_LEVELS
      ensures TablesOnDisk(levels[l], map n | n in disk.tables && n in keep :: disk.tables[n])
    {
      LiveStayOnDisk(levels, disk.tables, keep, l);
    }
  }

  lemma ObsoleteMemory(db: DB)
    requires MemoryInv(db) && LogFilesInv(db) && SnapshotsInv(db)
    ensures var db' := DeleteObsolete(db);
      MemoryInv(db') && LogFilesInv(db') && SnapshotsInv(db') && Stored(db') == Stored(db)
          && SmallestSnapshot(db') == SmallestSnapshot(db)
  {
    KeptLogs(db.disk.logs, db.logNumber, db.logNumber);
    KeptLogs(db.disk.logs, db.logNumber, db.logfileNumber);
  }

  lemma ObsoleteBackground(db: DB, last: Record)
    requires last.Logged? && BackgroundInv(db, last) && Stored(DeleteObsolete(db)) == Stored(db)
    ensures BackgroundInv(DeleteObsolete(db), last)
  {
  }

  /** No table or log that is still needed is deleted. */
  lemma DeleteObsoleteKeeps(db: DB, h: set<Entry>, last: Record)
    requires Inv(db, h, last)
    ensures Inv(DeleteObsolete(db), h, last)
  {
    ObsoleteDisk(db.disk, db.levels, last, h, Top(db),
        LiveNumbers(db.levels) + HeldNumbers(db.readers) + PendingOutputs(db.background));
    ObsoleteMemory(db);
    ObsoleteBackground(db, last);
    ReadsStay(db, DeleteObsolete(db), h);
  }
}
