/**
 * The database as a state machine: writes, memtable switches, flushes, compactions, file deletion,
 * snapshots, crashes and recovery (db/db_impl.cc, db/version_set.cc).
 */
module Engine {
  import opened Keys
  import opened Reads
  import opened Version
  import opened Inputs
  import opened Builder
  import opened Compacting
  import opened Install
  import opened Manifest

  /** One Put or Delete of a write batch. */
  datatype Op = Op(user: UserKey, kind: Kind, value: Bytes)

  /** A log record: the operations of one batch, numbered consecutively. */
  type Batch = seq<Entry>

  /** What survives a process crash. */
  datatype Disk = Disk(tables: map<nat, seq<Entry>>, logs: map<nat, seq<Batch>>, manifest: seq<Record>)

  /** The one background thread: a table written for the immutable memtable, or the outputs of a compaction. */
  datatype Background =
    | Idle
    | Flushing(level: nat, file: Option<File>)
    | Compacting(c: Compaction, smallest: Sequence, outs: seq<File>)

  /** What Get and NewInternalIterator keep hold of while they read without the mutex: memtables, version, number. */
  datatype Reader = Reader(mem: seq<Entry>, imm: Option<seq<Entry>>, levels: Levels, at: Sequence)

  /** The keys of which compactions have uncovered a deleted value, each with the last number logged by then. */
  type Revivals = map<UserKey, nat>

  /** What has been revived, and what had been when each of the readers began, is no part of the state of the code. */
  datatype DB = DB(
    disk: Disk,
    levels: Levels,
    logNumber: nat,
    logfileNumber: nat,
    nextFile: nat,
    lastSequence: Sequence,
    mem: seq<Entry>,
    imm: Option<seq<Entry>>,
    pending: Option<Batch>,
    snapshots: seq<Sequence>,
    readers: seq<Reader>,
    background: Background,
    revived: Revivals,
    begun: seq<Revivals>)

  // ----- memtables and batches -----

  /** MemTable::Add: the skip list keeps entries in internal-key order. */
  function InsertEntry(mem: seq<Entry>, e: Entry): seq<Entry> {
    if mem == [] then [e]
    else if Before(e.key, mem[0].key) then [e] + mem
    else [mem[0]] + InsertEntry(mem[1..], e)
  }

  function InsertAll(mem: seq<Entry>, batch: Batch): seq<Entry> {
    if batch == [] then mem else InsertEntry(InsertAll(mem, batch[..|batch| - 1]), batch[|batch| - 1])
  }

  /** SetSequence, and the numbering of MemTableInserter. */
  function Stamp(ops: seq<Op>, first: nat): Batch
    requires first + |ops| <= MAX_SEQUENCE
  {
    seq(|ops|, i requires 0 <= i < |ops| => Entry(InternalKey(ops[i].user, first + i, ops[i].kind), ops[i].value))
  }

  ghost function BatchEntries(log: seq<Batch>): set<Entry> {
    set b, e | b in log && e in b :: e
  }

  /** Entries of the logs numbered `low` and up. */
  ghost function LogEntries(logs: map<nat, seq<Batch>>, low: nat): set<Entry> {
    set n, b, e | n in logs && n >= low && b in logs[n] && e in b :: e
  }

  ghost function Pending(db: DB): set<Entry> {
    if db.pending.Some? then Elements(db.pending.value) else {}
  }

  ghost function Imm(db: DB): set<Entry> {
    if db.imm.Some? then Elements(db.imm.value) else {}
  }

  /** Everything the store holds, a logged but unapplied batch included. */
  ghost function Content(db: DB): set<Entry> {
    AllContents(db.levels) + Imm(db) + Elements(db.mem) + Pending(db)
  }

  /** What the live tables and the kept logs hold between them. */
  ghost function Stored(db: DB): set<Entry> {
    AllContents(db.levels) + LogEntries(db.disk.logs, db.logNumber)
  }

  function Top(db: DB): nat {
    db.lastSequence + if db.pending.Some? then |db.pending.value| else 0
  }

  // ----- steps -----

  /** Write, first half: the record reaches the log. */
  function AppendToLog(db: DB, ops: seq<Op>): DB
    requires db.lastSequence + 1 + |ops| <= MAX_SEQUENCE && db.logfileNumber in db.disk.logs
  {
    var batch := Stamp(ops, db.lastSequence + 1);
    var log := db.disk.logs[db.logfileNumber] + [batch];
    db.(pending := Some(batch), disk := db.disk.(logs := db.disk.logs[db.logfileNumber := log]))
  }

  /** Write, second half: the batch reaches the memtable and its last number is published. */
  function ApplyPending(db: DB): DB
    requires db.pending.Some? && db.lastSequence + |db.pending.value| <= MAX_SEQUENCE
  {
    db.(mem := InsertAll(db.mem, db.pending.value), lastSequence := db.lastSequence + |db.pending.value|,
        pending := None)
  }

  /** MakeRoomForWrite: a new log and memtable; the old memtable becomes immutable. */
  function SwitchMemtable(db: DB): DB {
    db.(imm := Some(db.mem), mem := [], logfileNumber := db.nextFile, nextFile := db.nextFile + 1,
        disk := db.disk.(logs := db.disk.logs[db.nextFile := []]))
  }

  function WriteTables(tables: map<nat, seq<Entry>>, files: seq<File>): map<nat, seq<Entry>> {
    if files == [] then tables
    else WriteTables(tables, files[..|files| - 1])[files[|files| - 1].number := files[|files| - 1].table]
  }

  /** WriteLevel0Table: build a table from the immutable memtable. An empty memtable makes no table. */
  function StartFlush(db: DB, level: nat, size: nat): DB
    requires db.imm.Some? && Sorted(db.imm.value)
  {
    if db.imm.value == [] then db.(nextFile := db.nextFile + 1, background := Flushing(level, None))
    else
      var f := FinishedFile(db.nextFile, size, db.imm.value);
      db.(nextFile := db.nextFile + 1, background := Flushing(level, Some(f)),
          disk := db.disk.(tables := WriteTables(db.disk.tables, [f])))
  }

  /** VersionSet::LogAndApply on an open manifest. */
  function LogAndApply(db: DB, e: VersionEdit, logNumber: nat): DB
    requires |db.levels| == NUM_LEVELS
  {
    db.(levels := ApplyEdit(db.levels, e), logNumber := logNumber,
        disk := db.disk.(manifest := db.disk.manifest + [Logged(e, logNumber, db.nextFile, db.lastSequence)]))
  }

  /** CompactMemTable, second half: install the table and let go of the older logs. */
  function InstallFlush(db: DB): DB
    requires |db.levels| == NUM_LEVELS && db.background.Flushing?
  {
    var e := match db.background.file
      case Some(f) => FlushEdit(db.background.level, f)
      case None => VersionEdit({}, []);
    LogAndApply(db, e, db.logfileNumber).(imm := None, background := Idle)
  }

  /** The oldest snapshot a reader may hold; later readers start at the last sequence or above. */
  function SmallestSnapshot(db: DB): Sequence {
    if db.snapshots == [] then db.lastSequence else db.snapshots[0]
  }

  /** The keys of which a compaction uncovers a deleted value. */
  ghost function UncoveredKeys(levels: Levels, c: Compaction, stored: set<Entry>, smallest: Sequence): set<UserKey> {
    set m | m in InputContents(c) && UncoversSome(levels, c, stored, smallest, m) :: m.key.user
  }

  ghost predicate UncoversSome(levels: Levels, c: Compaction, stored: set<Entry>, smallest: Sequence, m: Entry) {
    exists o :: Uncovers(levels, c.level, InputContents(c), stored - InputContents(c), smallest, m, o)
  }

  /** DoCompactionWork has written its outputs. */
  function StartCompaction(db: DB, c: Compaction, outs: seq<File>): DB {
    db.(nextFile := db.nextFile + |outs|, background := Compacting(c, SmallestSnapshot(db), outs),
        disk := db.disk.(tables := WriteTables(db.disk.tables, outs)))
  }

  ghost function Revive(revived: Revivals, keys: set<UserKey>, at: nat): Revivals {
    map user | user in revived.Keys + keys :: if user in keys then at else revived[user]
  }

  ghost function InstallCompaction(db: DB): DB
    requires |db.levels| == NUM_LEVELS && db.background.Compacting?
  {
    var c := db.background.c;
    LogAndApply(db, CompactionEdit(c, db.background.outs), db.logNumber).(background := Idle,
        revived := Revive(db.revived, UncoveredKeys(db.levels, c, Stored(db), db.background.smallest), Top(db)))
  }

  function TrivialMove(db: DB, c: Compaction): DB
    requires |db.levels| == NUM_LEVELS && c.inputs0 != []
  {
    LogAndApply(db, MoveEdit(c.level, c.inputs0[0]), db.logNumber)
  }

  /** pending_outputs_: files being written by the background thread. */
  ghost function PendingOutputs(b: Background): set<nat> {
    match b
    case Idle => {}
    case Flushing(_, file) => if file.Some? then {file.value.number} else {}
    case Compacting(_, _, outs) => NumbersOf(outs)
  }

  ghost function LiveNumbers(levels: Levels): set<nat> {
    set files, f | files in levels && f in files :: f.number
  }

  /** Files of the versions that readers hold. */
  ghost function HeldNumbers(readers: seq<Reader>): set<nat> {
    set r, n | r in readers && n in LiveNumbers(r.levels) :: n
  }

  /**
   * DeleteObsoleteFiles: tables in no version that is current or held and not being written, and logs before the
   * recorded log number.
   */
  ghost function DeleteObsolete(db: DB): DB {
    var live := LiveNumbers(db.levels) + HeldNumbers(db.readers) + PendingOutputs(db.background);
    db.(disk := db.disk.(tables := map n | n in db.disk.tables && n in live :: db.disk.tables[n],
                         logs := map n | n in db.disk.logs && n >= db.logNumber :: db.disk.logs[n]))
  }

  function TakeSnapshot(db: DB): DB {
    db.(snapshots := db.snapshots + [db.lastSequence])
  }

  function ReleaseSnapshot(db: DB, i: nat): DB
    requires i < |db.snapshots|
  {
    db.(snapshots := db.snapshots[..i] + db.snapshots[i + 1..])
  }

  /** Get and NewInternalIterator under the mutex: references to both memtables and to the current version. */
  function BeginRead(db: DB, at: Sequence): DB {
    db.(readers := db.readers + [Reader(db.mem, db.imm, db.levels, at)], begun := db.begun + [db.revived])
  }

  function EndRead(db: DB, i: nat): DB
    requires i < |db.readers| == |db.begun|
  {
    db.(readers := db.readers[..i] + db.readers[i + 1..], begun := db.begun[..i] + db.begun[i + 1..])
  }

  // ----- recovery -----

  /**
   * How a recovery goes: the tables it writes at level 0 from the kept logs, the memtable it keeps with
   * the last log if it reuses that log, and whether the manifest is reused and written.
   */
  datatype Plan = Plan(files: seq<File>, mem: Option<seq<Entry>>, logfile: nat, nextFile: nat,
                       reuseManifest: bool, saved: bool, lastSequence: Sequence)

  /** DBImpl::Recover and DB::Open, from what is on disk; `levels` and `last` come from replaying the manifest. */
  function Reopen(disk: Disk, levels: Levels, last: Record, p: Plan): DB
    requires |levels| == NUM_LEVELS && last.Logged?
  {
    var logs := if p.mem.Some? then disk.logs else disk.logs[p.logfile := []];
    var e := VersionEdit({}, Tagged(0, p.files));
    var record := Logged(e, p.logfile, p.nextFile, p.lastSequence);
    var manifest :=
      if !p.saved then disk.manifest
      else if p.reuseManifest then disk.manifest + [record]
      else [Snapshot(SnapshotEdit(levels)), record];
    DB(Disk(WriteTables(disk.tables, p.files), logs, manifest),
       if p.saved then ApplyEdit(levels, e) else levels,
       if p.saved then p.logfile else last.logNumber,
       p.logfile, p.nextFile, p.lastSequence,
       if p.mem.Some? then p.mem.value else [],
       None, None, [], [], Idle, map[], [])
  }

  /** Level-0 tables in the order recovery writes them: numbers and sequence numbers both grow. */
  ghost predicate InWritingOrder(files: seq<File>) {
    && ValidFiles(files)
    && forall i, j {:trigger files[i], files[j]} :: 0 <= i < j < |files| ==>
         files[i].number < files[j].number && AllBelow(Elements(files[i].table), Elements(files[j].table))
  }

  /**
   * The kept logs end up, each entry once and in the order of their numbers, in the new tables and the kept
   * memtable.
   */
  ghost predicate PlanFor(disk: Disk, last: Record, p: Plan)
    requires last.Logged?
  {
    var kept := LogEntries(disk.logs, last.logNumber);
    var mem := if p.mem.Some? then p.mem.value else [];
    // new tables, numbered above anything the manifest knows
    && InWritingOrder(p.files) && (forall f :: f in p.files ==> last.nextFile <= f.number < p.nextFile)
    && Sorted(mem) && AllBelow(Contents(p.files), Elements(mem))
    // exactly the kept entries
    && Contents(p.files) + Elements(mem) == kept
    // the log in use is the last one, or a new one
    && last.logNumber <= p.logfile < p.nextFile && last.nextFile <= p.nextFile
    && (forall n :: n in disk.logs ==> n <= p.logfile)
    && (if p.mem.Some? then p.logfile in disk.logs && Elements(mem) == BatchEntries(disk.logs[p.logfile])
        else p.logfile !in disk.logs)
    && (p.files != [] ==> p.saved) && (p.saved || p.reuseManifest)
    // the last sequence is the greater of the manifest's and the logs'
    && last.lastSequence <= p.lastSequence
    && (forall e :: e in kept ==> e.key.seqno <= p.lastSequence)
    && (p.lastSequence == last.lastSequence || exists e :: e in kept && e.key.seqno == p.lastSequence)
  }

  ghost predicate AllBelow(a: set<Entry>, b: set<Entry>) {
    forall e, f :: e in a && f in b ==> e.key.seqno < f.key.seqno
  }
}
