/** The database object, method by method (db/db_impl.cc): each method takes the steps of the state machine. */
module Database {
  import opened Keys
  import opened Reads
  import opened Version
  import opened Inputs
  import opened Builder
  import opened Compacting
  import opened Install
  import opened Manifest
  import opened Engine
  import opened Invariant
  import opened Steps
  import opened FlushSteps
  import opened CompactionSteps
  import opened Recovery
  import opened Readers
  import opened LogReplay
  import opened Runs

  // ----- opening -----

  ghost predicate BuilderHolds(base: Levels, states: seq<LevelState>, records: seq<Record>) {
    |states| == NUM_LEVELS == |base|
        && forall l :: 0 <= l < NUM_LEVELS ==> base[l] == [] && states[l] == ApplyAll(EditsAt(records, l))
  }

  lemma BuilderStep(records: seq<Record>, i: nat, l: nat)
    requires i < |records|
    ensures ApplyAll(EditsAt(records[..i + 1], l))
        == ApplyLevel(ApplyAll(EditsAt(records[..i], l)), EditAt(records[i].edit, l))
  {
    assert records[..i + 1] == records[..i] + [records[i]];
    EditsAtSnoc(records[..i], records[i], l);
    var edits := EditsAt(records[..i + 1], l);
    assert edits[..|edits| - 1] == EditsAt(records[..i], l);
  }

  /** VersionSet::Recover: one builder takes every edit of the manifest, and saves once. */
  method RecoverVersion(manifest: seq<Record>) returns (levels: Levels)
    requires forall r :: r in manifest ==> LevelsExist(r.edit)
    ensures levels == Replay(manifest)
  {
    var none: Levels := seq(NUM_LEVELS, _ => []);
    var builder := new VersionBuilder(none);
    for i := 0 to |manifest|
      invariant builder.Valid() && BuilderHolds(builder.base, builder.states, manifest[..i]) && fresh(builder)
    {
      assert manifest[i] in manifest;
      builder.Apply(manifest[i].edit);
      forall l | 0 <= l < NUM_LEVELS ensures builder.states[l] == ApplyAll(EditsAt(manifest[..i + 1], l)) {
        BuilderStep(manifest, i, l);
      }
    }
    assert manifest[..|manifest|] == manifest;
    levels := builder.SaveTo();
  }

  lemma PlanIsMade(disk: Disk, last: Record, numbers: seq<nat>, r: Progress, reused: bool, reuseManifest: bool, p: Plan)
    requires last.Logged? && last.logNumber < last.nextFile
    requires forall n :: n in numbers <==> n in disk.logs && n >= last.logNumber
    requires forall i, j :: 0 <= i < j < |numbers| ==> numbers[i] < numbers[j]
    requires LogsReplayed(disk.logs, numbers, |numbers|, r, reused, last.nextFile)
    requires last.nextFile < r.nextFile && (!reuseManifest ==> r.saveManifest)
    requires p == PlanOf(numbers, r, reused, reuseManifest, last.lastSequence)
    ensures PlanFor(disk, last, p)
  {
    assert numbers[..|numbers|] == numbers;
    AllKept(disk.logs, last.logNumber, numbers);
    forall n | n in disk.logs ensures n <= p.logfile && (!reused ==> n < p.logfile) {
      if n >= last.logNumber {
        var j :| 0 <= j < |numbers| && numbers[j] == n;
      }
    }
  }

  function PlanOf(numbers: seq<nat>, r: Progress, reused: bool, reuseManifest: bool, recorded: Sequence): Plan
    requires reused ==> numbers != []
  {
    var lastSequence := if recorded < r.maxSequence then r.maxSequence else recorded;
    if reused then Plan(r.files, Some(r.mem), numbers[|numbers| - 1], r.nextFile, reuseManifest, r.saveManifest,
        lastSequence)
    else Plan(r.files, None, r.nextFile, r.nextFile + 1, reuseManifest, r.saveManifest, lastSequence)
  }

  /** DBImpl::Recover and the end of DB::Open, up to the manifest write. */
  method Recover(disk: Disk, last: Record, reuseLogs: bool) returns (p: Plan)
    requires last.Logged? && last.logNumber < last.nextFile && LogsOrdered(disk.logs, last.logNumber)
    ensures PlanFor(disk, last, p)
  {
    var small: bool := *;
    var reuseManifest := reuseLogs && small;
    var numbers := KeptLogNumbers(disk.logs, last.logNumber);
    var r, reused := ReplayLogs(disk.logs, numbers, reuseLogs, !reuseManifest, last.nextFile + 1, last.logNumber,
        last.nextFile);
    p := PlanOf(numbers, r, reused, reuseManifest, last.lastSequence);
    PlanIsMade(disk, last, numbers, r, reused, reuseManifest, p);
  }

  // ----- lookups -----

  /** MemTable::Get: the seek lands on the newest visible version, if there is one. */
  method MemTableGet(mem: seq<Entry>, user: UserKey, snapshot: Sequence) returns (hit: bool, answer: Answer)
    requires Sorted(mem) && Distinct(Elements(mem))
    ensures hit <==> !NothingVisible(Elements(mem), user, snapshot)
    ensures hit ==> answer == Read(Elements(mem), user, snapshot)
  {
    SavedIsNewest(mem, user, snapshot);
    var found := Saved(mem, user, snapshot);
    if found.None? {
      return false, NotFound;
    }
    ReadIsNewest(Elements(mem), user, snapshot, found.value);
    return true, if found.value.key.kind == Value then Found(found.value.value) else NotFound;
  }

  /** The three lookups of DBImpl::Get. */
  method GetThrough(mem: seq<Entry>, imm: Option<seq<Entry>>, levels: Levels, user: UserKey, at: Sequence)
    returns (answer: Answer)
    requires Sorted(mem) && Distinct(Elements(mem)) && ValidVersion(levels)
    requires imm.Some? ==> Sorted(imm.value) && Distinct(Elements(imm.value))
    ensures answer == LayeredRead(Elements(mem), if imm.Some? then Elements(imm.value) else {}, AllContents(levels),
                                  user, at)
  {
    var hit;
    hit, answer := MemTableGet(mem, user, at);
    if !hit && imm.Some? {
      hit, answer := MemTableGet(imm.value, user, at);
    }
    if !hit {
      answer := Version.Get(levels, user, at);
    }
  }

  method InsertInto(batch: Batch, mem: seq<Entry>) returns (r: seq<Entry>)
    ensures r == InsertAll(mem, batch)
  {
    r := mem;
    for i := 0 to |batch|
      invariant r == InsertAll(mem, batch[..i])
    {
      assert batch[..i + 1][..i] == batch[..i];
      r := InsertEntry(r, batch[i]);
    }
    assert batch[..|batch|] == batch;
  }

  /** The inner loops of VersionSet::AddLiveFiles, for one version. */
  method AddFilesOf(levels: Levels, live: set<nat>) returns (r: set<nat>)
    ensures r == live + LiveNumbers(levels)
  {
    r := live;
    for l := 0 to |levels|
      invariant forall n :: n in r <==> n in live || exists k, f :: 0 <= k < l && f in levels[k] && f.number == n
    {
      r := r + NumbersOf(levels[l]);
    }
    forall n ensures n in r <==> n in live + LiveNumbers(levels) {
      if n in LiveNumbers(levels) {
        var files, f :| files in levels && f in files && f.number == n;
        var k :| 0 <= k < |levels| && levels[k] == files;
      }
    }
  }

  /** VersionSet::AddLiveFiles: the list of versions has the current one and those that readers hold. */
  method AddLiveFiles(levels: Levels, readers: seq<Reader>) returns (live: set<nat>)
    ensures live == LiveNumbers(levels) + HeldNumbers(readers)
  {
    live := AddFilesOf(levels, {});
    for i := 0 to |readers|
      invariant live == LiveNumbers(levels) + HeldNumbers(readers[..i])
    {
      live := AddFilesOf(readers[i].levels, live);
      HeldSnoc(readers, i);
    }
    assert readers[..|readers|] == readers;
  }

  lemma HeldSnoc(readers: seq<Reader>, i: nat)
    requires i < |readers|
    ensures HeldNumbers(readers[..i + 1]) == HeldNumbers(readers[..i]) + LiveNumbers(readers[i].levels)
  {
    assert readers[..i + 1] == readers[..i] + [readers[i]];
  }

  // ----- the database object -----

  lemma SoundReads(db: DB, h: set<Entry>, user: UserKey, at: nat)
    requires Sound(db, h) && at <= db.lastSequence
    ensures Read(Content(db), user, at) == LayeredRead(Elements(db.mem), Imm(db), AllContents(db.levels), user, at)
    ensures SmallestSnapshot(db) <= at && Settled(db.revived, h, user, at) ==>
      Read(Content(db), user, at) == Read(h, user, at)
  {
    var last :| Inv(db, h, last);
    ContentRead(db, h, last, user, at);
    ContentIsStored(db);
    if SmallestSnapshot(db) <= at && Settled(db.revived, h, user, at) { StoredReads(db, h, user, at); }
  }

  lemma SoundParts(db: DB, h: set<Entry>)
    requires Sound(db, h)
    ensures Sorted(db.mem) && Distinct(Elements(db.mem)) && ValidVersion(db.levels)
    ensures db.imm.Some? ==> Sorted(db.imm.value) && Distinct(Elements(db.imm.value))
  {
    var last :| Inv(db, h, last);
    MemtablesOrdered(db, h, last);
  }

  lemma DiskParts(disk: Disk, h: set<Entry>, revived: Revivals)
    requires Crashed(disk, h, revived)
    ensures disk.manifest != [] && (forall r :: r in disk.manifest ==> LevelsExist(r.edit))
    ensures var last := disk.manifest[|disk.manifest| - 1];
      last.Logged? && last.logNumber < last.nextFile && LogsOrdered(disk.logs, last.logNumber)
  {
    var levels, last, top, floor :| LeftBehind(disk, h, revived, levels, last, top, floor);
  }

  lemma SnapshotReadable(db: DB, h: set<Entry>, snapshot: Option<Sequence>)
    requires Sound(db, h) && (snapshot.Some? ==> snapshot.value in db.snapshots)
    ensures BeginReady(db, if snapshot.Some? then snapshot.value else db.lastSequence)
  {
    var last :| Inv(db, h, last);
    SnapshotsBelow(db, h, last);
  }

  lemma ReaderIsOrdered(db: DB, h: set<Entry>, i: nat)
    requires Sound(db, h) && i < |db.readers|
    ensures |db.begun| == |db.readers| && ReaderOrdered(db.readers[i])
  {
  }

  /** The memtable that the reader holds, after further inserts, all above the number it reads at. */
  ghost predicate Grown(r: Reader, mem: seq<Entry>) {
    && Sorted(mem) && Distinct(Elements(mem)) && Elements(r.mem) <= Elements(mem)
    && forall e :: e in Elements(mem) - Elements(r.mem) ==> e.key.seqno > r.at
  }

  lemma GrownReads(db: DB, h: set<Entry>, i: nat, mem: seq<Entry>, user: UserKey)
    requires Sound(db, h) && i < |db.readers| && Grown(db.readers[i], mem)
    requires Settled(db.begun[i], h, user, db.readers[i].at)
    ensures var r := db.readers[i];
      LayeredRead(Elements(mem), ReaderImm(r), AllContents(r.levels), user, r.at) == Read(h, user, r.at)
  {
    var r := db.readers[i];
    assert ReaderInv(r, db.begun[i], db, h);
    var more := Elements(mem) - Elements(r.mem);
    assert Elements(mem) == Elements(r.mem) + more;
    FutureUnseen(r, more, user);
  }

  lemma EndReadSound(db: DB, h: set<Entry>, i: nat)
    requires Sound(db, h) && i < |db.readers|
    ensures |db.begun| == |db.readers| && Sound(EndRead(db, i), h)
  {
    var last :| Inv(db, h, last);
    EndReadKeeps(db, h, last, i);
  }

  /** `s` is `before` without what stood at place `i`; what stood behind it has moved up. */
  ghost predicate IsWithout<T>(s: seq<T>, before: seq<T>, i: nat) {
    i < |before| && |s| == |before| - 1
        && (forall j :: 0 <= j < i ==> s[j] == before[j]) && (forall j :: i <= j < |s| ==> s[j] == before[j + 1])
  }

  lemma OneLess<T>(s: seq<T>, i: nat)
    requires i < |s|
    ensures IsWithout(s[..i] + s[i + 1..], s, i)
    ensures multiset(s[..i] + s[i + 1..]) == multiset(s) - multiset{s[i]}
  {
    assert s == (s[..i] + [s[i]]) + s[i + 1..];
  }

  lemma NoLitter(disk: Disk)
    ensures Littered(disk, [], {}) == disk
  {
  }

  method ReadDisk(disk: Disk, last: Record, reuseLogs: bool) returns (db: DB, p: Plan)
    requires last.Logged? && last.logNumber < last.nextFile && LogsOrdered(disk.logs, last.logNumber)
    requires forall r :: r in disk.manifest ==> LevelsExist(r.edit)
    ensures PlanFor(disk, last, p) && db == Reopen(disk, Replay(disk.manifest), last, p)
  {
    var current := RecoverVersion(disk.manifest);
    p := Recover(disk, last, reuseLogs);
    db := Reopen(disk, current, last, p);
  }

  method OpenDisk(disk: Disk, reuseLogs: bool, ghost h: set<Entry>, ghost revived: Revivals)
    returns (db: DB, p: Plan)
    requires Crashed(disk, h, revived)
    ensures CanRecover(disk, [], {}, p) && db == RecoverFrom(disk, p) && Sound(db.(revived := revived), h)
  {
    DiskParts(disk, h, revived);
    db, p := ReadDisk(disk, disk.manifest[|disk.manifest| - 1], reuseLogs);
    NoLitter(disk);
    CrashedRecovers(disk, h, p, revived);
  }

  lemma SoundBackground(db: DB, h: set<Entry>)
    requires Sound(db, h)
    ensures |db.levels| == NUM_LEVELS
    ensures db.background.Flushing? ==> db.background.level < NUM_LEVELS
    ensures db.background.Compacting? ==> db.background.c.level + 1 < NUM_LEVELS
  {
    var last :| Inv(db, h, last);
  }

  /** A step that leaves the readers, their tables and the history alone. */
  lemma OthersSound(db: DB, db': DB, h: set<Entry>, last: Record)
    requires ReadersInv(db, h) && Inv(db', h, last)
    requires db'.readers == db.readers && db'.begun == db.begun && db'.disk.tables == db.disk.tables
    requires db.lastSequence <= db'.lastSequence && db.nextFile <= db'.nextFile
    ensures Sound(db', h)
  {
    ReadersStay(db, db', h);
  }

  lemma AppendSound(db: DB, h: set<Entry>, ops: seq<Op>)
    requires Sound(db, h) && AppendReady(db, ops)
    ensures Sound(Engine.AppendToLog(db, ops), Appended(db, h, ops))
  {
    AppendedIs(db, h, ops);
    var last :| Inv(db, h, last);
    AppendKeeps(db, h, last, ops);
    NumberedDistinct(h, Top(db));
    AppendLeavesReaders(db, h, ops);
  }

  lemma ApplySound(db: DB, h: set<Entry>)
    requires Sound(db, h) && ApplyReady(db)
    ensures Sound(Engine.ApplyPending(db), h)
  {
    var last :| Inv(db, h, last);
    ApplyKeeps(db, h, last);
    OthersSound(db, Engine.ApplyPending(db), h, last);
  }

  lemma SwitchSound(db: DB, h: set<Entry>)
    requires Sound(db, h) && SwitchReady(db)
    ensures Sound(Engine.SwitchMemtable(db), h)
  {
    var last :| Inv(db, h, last);
    SwitchKeeps(db, h, last);
    OthersSound(db, Engine.SwitchMemtable(db), h, last);
  }

  lemma FlushSound(db: DB, h: set<Entry>, level: nat, size: nat)
    requires Sound(db, h) && FlushReady(db, level) && Sorted(db.imm.value)
    ensures Sound(Engine.StartFlush(db, level, size), h)
  {
    var last :| Inv(db, h, last);
    StartFlushKeeps(db, h, last, level, size);
    FlushLeavesReaders(db, h, level, size);
  }

  lemma EndFlushSound(db: DB, h: set<Entry>)
    requires Sound(db, h) && db.background.Flushing?
    ensures Sound(Engine.InstallFlush(db), h)
  {
    var last :| Inv(db, h, last);
    InstallFlushKeeps(db, h, last);
    OthersSound(db, Engine.InstallFlush(db), h, FlushRecord(db));
  }

  lemma MoveSound(db: DB, h: set<Entry>, c: Compaction)
    requires Sound(db, h) && MoveReady(db, c)
    ensures Sound(Engine.TrivialMove(db, c), h)
  {
    var last :| Inv(db, h, last);
    TrivialMoveKeeps(db, h, last, c);
    OthersSound(db, Engine.TrivialMove(db, c), h, EditRecord(db, MoveEdit(c.level, c.inputs0[0])));
  }

  lemma CompactionSound(db: DB, h: set<Entry>, c: Compaction, merged: seq<Entry>, outs: seq<File>)
    requires Sound(db, h) && CompactionWritten(db, c, merged, outs)
    ensures Sound(Engine.StartCompaction(db, c, outs), h)
  {
    var last :| Inv(db, h, last);
    StartCompactionKeeps(db, h, last, c, merged, outs);
    CompactionLeavesReaders(db, h, c, merged, outs);
  }

  lemma EndCompactionSound(db: DB, h: set<Entry>)
    requires Sound(db, h) && db.background.Compacting?
    ensures Sound(Engine.InstallCompaction(db), h)
  {
    var last :| Inv(db, h, last);
    InstallCompactionKeeps(db, h, last);
    OthersSound(db, Engine.InstallCompaction(db), h,
                EditRecord(db, CompactionEdit(db.background.c, db.background.outs)));
  }

  lemma DeletionSound(db: DB, h: set<Entry>)
    requires Sound(db, h)
    ensures Sound(Engine.DeleteObsolete(db), h)
  {
    var last :| Inv(db, h, last);
    DeleteObsoleteKeeps(db, h, last);
    DeletionLeavesReaders(db, h);
  }

  lemma BeginReadSound(db: DB, h: set<Entry>, at: Sequence)
    requires Sound(db, h) && BeginReady(db, at)
    ensures Sound(BeginRead(db, at), h)
  {
    var last :| Inv(db, h, last);
    BeginReadKeeps(db, h, last, at);
  }

  lemma SnapshotSound(db: DB, h: set<Entry>)
    requires Sound(db, h)
    ensures Sound(TakeSnapshot(db), h)
  {
    var last :| Inv(db, h, last);
    TakeSnapshotKeeps(db, h, last);
    OthersSound(db, TakeSnapshot(db), h, last);
  }

  lemma ReleaseSound(db: DB, h: set<Entry>, i: nat)
    requires Sound(db, h) && i < |db.snapshots|
    ensures Sound(Engine.ReleaseSnapshot(db, i), h)
  {
    var last :| Inv(db, h, last);
    ReleaseSnapshotKeeps(db, h, last, i);
    OthersSound(db, Engine.ReleaseSnapshot(db, i), h, last);
  }

  lemma SoundCompaction(db: DB, h: set<Entry>, c: Compaction)
    requires Sound(db, h) && ValidCompaction(db.levels, c)
    ensures SortedBelow(db.levels, c.level) && SmallestSnapshot(db) <= db.lastSequence
  {
    var last :| Inv(db, h, last);
  }

  lemma TaggedExist(level: nat, files: seq<File>)
    requires level < NUM_LEVELS
    ensures forall p :: p in Tagged(level, files) ==> p.0 < NUM_LEVELS
  {
  }

  method NextVersion(levels: Levels, e: VersionEdit) returns (r: Levels)
    requires |levels| == NUM_LEVELS && LevelsExist(e)
    ensures r == ApplyEdit(levels, e)
  {
    var builder := new VersionBuilder(levels);
    builder.Apply(e);
    r := builder.SaveTo();
  }

  method KeepTables(tables: map<nat, seq<Entry>>, live: set<nat>) returns (r: map<nat, seq<Entry>>)
    ensures r == map n | n in tables && n in live :: tables[n]
  {
    r := tables;
    var todo := tables.Keys;
    while todo != {}
      invariant todo <= tables.Keys
      invariant r == map n | n in tables && (n in live || n in todo) :: tables[n]
      decreases |todo|
    {
      var n :| n in todo;
      if n !in live {
        r := r - {n};
      }
      todo := todo - {n};
    }
  }

  method KeepLogs(logs: map<nat, seq<Batch>>, minLog: nat) returns (r: map<nat, seq<Batch>>)
    ensures r == map n | n in logs && n >= minLog :: logs[n]
  {
    r := logs;
    var todo := logs.Keys;
    while todo != {}
      invariant todo <= logs.Keys
      invariant r == map n | n in logs && (n >= minLog || n in todo) :: logs[n]
      decreases |todo|
    {
      var n :| n in todo;
      if n < minLog {
        r := r - {n};
      }
      todo := todo - {n};
    }
  }

  lemma CompactionStarted(db: DB, h: set<Entry>, c: Compaction, merged: seq<Entry>, outs: seq<File>)
    requires Sound(db, h) && db.background.Idle? && ValidCompaction(db.levels, c) && MergeOf(c, merged)
    requires Outputs(outs, [], db.nextFile, db.nextFile + |outs|,
        Kept(db.levels, c.level, merged, |merged|, SmallestSnapshot(db)))
    ensures CompactionWritten(db, c, merged, outs) && Sound(Engine.StartCompaction(db, c, outs), h)
  {
    CompactionSound(db, h, c, merged, outs);
  }

  class DBImpl {
    var disk: Disk
    // VersionSet: the current version and its counters
    var levels: Levels
    var logNumber: nat
    var nextFile: nat
    var lastSequence: Sequence
    // memtables and the log in use
    var mem: seq<Entry>
    var imm: Option<seq<Entry>>
    var logfileNumber: nat
    var pending: Option<Batch>
    var snapshots: seq<Sequence>
    // what the readers at work hold references to
    var readers: seq<Reader>
    var background: Background
    // every entry ever logged, and what compactions have revived, by now and when each of the readers began
    ghost var history: set<Entry>
    ghost var revived: Revivals
    ghost var begun: seq<Revivals>

    ghost function State(): DB
      reads this
    {
      DB(disk, levels, logNumber, logfileNumber, nextFile, lastSequence, mem, imm, pending, snapshots, readers,
         background, revived, begun)
    }

    ghost predicate Valid()
      reads this
    {
      Sound(State(), history)
    }

    /** DB::Open on whatever a crash has left. */
    constructor Open(disk: Disk, reuseLogs: bool, ghost h: set<Entry>, ghost revived: Revivals)
      requires Crashed(disk, h, revived)
      ensures Valid() && history == h && this.revived == revived
      ensures exists p :: CanRecover(disk, [], {}, p) && State() == RecoverFrom(disk, p).(revived := revived)
    {
      var db, p := OpenDisk(disk, reuseLogs, h, revived);
      this.disk, levels, logNumber, nextFile, lastSequence :=
          db.disk, db.levels, db.logNumber, db.nextFile, db.lastSequence;
      mem, imm, logfileNumber, pending, snapshots, readers, background :=
          db.mem, db.imm, db.logfileNumber, db.pending, db.snapshots, db.readers, db.background;
      history, this.revived, begun := h, revived, [];
      new;
      assert State() == db.(revived := revived);
    }

    /** DBImpl::Get */
    method Get(user: UserKey, snapshot: Option<Sequence>) returns (answer: Answer)
      requires Valid() && (snapshot.Some? ==> snapshot.value <= lastSequence)
      ensures var at := if snapshot.Some? then snapshot.value else lastSequence;
        && answer == Read(Content(State()), user, at)
        && (SmallestSnapshot(State()) <= at && Settled(revived, history, user, at) ==>
             answer == Read(history, user, at))
    {
      var at := if snapshot.Some? then snapshot.value else lastSequence;
      SoundReads(State(), history, user, at);
      SoundParts(State(), history);
      answer := GetThrough(mem, imm, levels, user, at);
    }

    // ----- the steps, field by field -----

    method AddRecord(ops: seq<Op>)
      requires lastSequence + 1 + |ops| <= MAX_SEQUENCE && logfileNumber in disk.logs
      modifies `disk, `pending, `history
      ensures State() == Engine.AppendToLog(old(State()), ops)
      ensures history == Appended(old(State()), old(history), ops)
    {
      var batch := Stamp(ops, lastSequence + 1);
      disk := disk.(logs := disk.logs[logfileNumber := disk.logs[logfileNumber] + [batch]]);
      pending := Some(batch);
      history := history + Elements(batch);
    }

    method InsertAndPublish()
      requires pending.Some? && lastSequence + |pending.value| <= MAX_SEQUENCE
      modifies `mem, `lastSequence, `pending
      ensures State() == Engine.ApplyPending(old(State()))
    {
      mem := InsertInto(pending.value, mem);
      lastSequence := lastSequence + |pending.value|;
      pending := None;
    }

    method NewMemtable()
      modifies `nextFile, `disk, `logfileNumber, `imm, `mem
      ensures State() == Engine.SwitchMemtable(old(State()))
    {
      var newLogNumber := nextFile;
      nextFile := nextFile + 1;
      disk := disk.(logs := disk.logs[newLogNumber := []]);
      logfileNumber := newLogNumber;
      imm, mem := Some(mem), [];
    }

    /** WriteLevel0Table with a base version: an empty memtable leaves no table behind. */
    method WriteLevel0Table(maxFileSize: nat) returns (level: nat, size: nat)
      requires imm.Some? && Sorted(imm.value) && ValidVersion(levels)
      modifies `nextFile, `disk, `background
      ensures FlushLevelFits(levels, level, imm.value) && IsOutputLevel(levels, level, imm.value, maxFileSize)
      ensures State() == Engine.StartFlush(old(State()), level, size)
    {
      var number := nextFile;
      nextFile := nextFile + 1;
      level, size := 0, *;
      if imm.value == [] {
        background := Flushing(level, None);
      } else {
        var f := FinishedFile(number, size, imm.value);
        level := PickLevelForMemTableOutput(levels, f.smallest.user, f.largest.user, maxFileSize);
        disk := disk.(tables := WriteTables(disk.tables, [f]));
        background := Flushing(level, Some(f));
      }
    }

    /** VersionSet::LogAndApply: the next version comes from a Builder, the record goes to the manifest. */
    method LogEdit(e: VersionEdit, number: nat)
      requires |levels| == NUM_LEVELS && LevelsExist(e)
      modifies `levels, `logNumber, `disk
      ensures State() == Engine.LogAndApply(old(State()), e, number)
    {
      var next := NextVersion(levels, e);
      disk := disk.(manifest := disk.manifest + [Logged(e, number, nextFile, lastSequence)]);
      levels := next;
      logNumber := number;
    }

    method FinishFlush()
      requires |levels| == NUM_LEVELS && background.Flushing? && background.level < NUM_LEVELS
      modifies `levels, `logNumber, `disk, `imm, `background
      ensures State() == Engine.InstallFlush(old(State()))
    {
      var e := match background.file
        case Some(f) => FlushEdit(background.level, f)
        case None => VersionEdit({}, []);
      LogEdit(e, logfileNumber);
      imm := None;
      background := Idle;
    }

    /** DoCompactionWork, up to the install; `merged` is what the iterator over the inputs delivers. */
    method WriteOutputs(c: Compaction, merged: seq<Entry>) returns (outs: seq<File>)
      requires |levels| == NUM_LEVELS && c.level + 1 < NUM_LEVELS && SortedBelow(levels, c.level) && Sorted(merged)
      requires SmallestSnapshot(State()) < MAX_SEQUENCE
      modifies `nextFile, `disk, `background
      ensures State() == Engine.StartCompaction(old(State()), c, outs)
      ensures Outputs(outs, [], old(nextFile), old(nextFile) + |outs|,
          Kept(levels, c.level, merged, |merged|, SmallestSnapshot(old(State()))))
    {
      var smallest := if snapshots == [] then lastSequence else snapshots[0];
      var next;
      outs, next := DoCompactionWork(levels, c.level, merged, smallest, nextFile);
      nextFile := next;
      disk := disk.(tables := WriteTables(disk.tables, outs));
      background := Compacting(c, smallest, outs);
    }

    method InstallCompactionResults()
      requires |levels| == NUM_LEVELS && background.Compacting? && background.c.level + 1 < NUM_LEVELS
      modifies `levels, `logNumber, `disk, `background, `revived
      ensures State() == Engine.InstallCompaction(old(State()))
    {
      ghost var keys := UncoveredKeys(levels, background.c, Stored(State()), background.smallest);
      revived := Revive(revived, keys, Top(State()));
      TaggedExist(background.c.level + 1, background.outs);
      LogEdit(CompactionEdit(background.c, background.outs), logNumber);
      background := Idle;
    }

    method MoveFile(c: Compaction)
      requires |levels| == NUM_LEVELS && c.level + 1 < NUM_LEVELS && c.inputs0 != []
      modifies `levels, `logNumber, `disk
      ensures State() == Engine.TrivialMove(old(State()), c)
    {
      LogEdit(MoveEdit(c.level, c.inputs0[0]), logNumber);
    }

    method RemoveFiles()
      modifies `disk
      ensures State() == Engine.DeleteObsolete(old(State()))
    {
      var live := AddLiveFiles(levels, readers);
      match background {
        case Idle =>
        case Flushing(_, file) => if file.Some? { live := live + {file.value.number}; }
        case Compacting(_, _, outs) => live := live + NumbersOf(outs);
      }
      var tables := KeepTables(disk.tables, live);
      var logs := KeepLogs(disk.logs, logNumber);
      disk := disk.(tables := tables, logs := logs);
    }

    // ----- the operations -----

    /** First half of Write: number the batch and append it to the log. */
    method AppendToLog(ops: seq<Op>)
      requires Valid() && AppendReady(State(), ops)
      modifies `disk, `pending, `history
      ensures Valid() && State() == Engine.AppendToLog(old(State()), ops)
      ensures history == Appended(old(State()), old(history), ops)
    {
      ghost var before, h := State(), history;
      AddRecord(ops);
      AppendSound(before, h, ops);
    }

    /** Second half of Write: insert the batch into the memtable and publish its last number. */
    method ApplyPending()
      requires Valid() && ApplyReady(State())
      modifies `mem, `lastSequence, `pending
      ensures Valid() && State() == Engine.ApplyPending(old(State()))
    {
      ghost var before, h := State(), history;
      InsertAndPublish();
      ApplySound(before, h);
    }

    /** MakeRoomForWrite, the switch to a new memtable and log. */
    method SwitchMemtable()
      requires Valid() && SwitchReady(State())
      modifies `nextFile, `disk, `logfileNumber, `imm, `mem
      ensures Valid() && State() == Engine.SwitchMemtable(old(State()))
    {
      ghost var before, h := State(), history;
      NewMemtable();
      SwitchSound(before, h);
    }

    /** First half of CompactMemTable. */
    method StartFlush(maxFileSize: nat) returns (level: nat, size: nat)
      requires Valid() && background.Idle? && imm.Some?
      modifies `nextFile, `disk, `background
      ensures Valid() && background.Flushing?
      ensures FlushReady(old(State()), level) && IsOutputLevel(levels, level, imm.value, maxFileSize)
      ensures State() == Engine.StartFlush(old(State()), level, size)
    {
      ghost var before := State();
      SoundParts(before, history);
      level, size := WriteLevel0Table(maxFileSize);
      FlushSound(before, history, level, size);
    }

    /** Second half of CompactMemTable. */
    method InstallFlush()
      requires Valid() && background.Flushing?
      modifies `levels, `logNumber, `disk, `imm, `background
      ensures Valid() && State() == Engine.InstallFlush(old(State()))
    {
      SoundBackground(State(), history);
      ghost var before, h := State(), history;
      FinishFlush();
      EndFlushSound(before, h);
    }

    /** DoCompactionWork on a picked compaction. */
    method StartCompaction(c: Compaction, merged: seq<Entry>) returns (outs: seq<File>)
      requires Valid() && background.Idle? && lastSequence < MAX_SEQUENCE
      requires ValidCompaction(levels, c) && MergeOf(c, merged)
      modifies `nextFile, `disk, `background
      ensures Valid()
      ensures CompactionWritten(old(State()), c, merged, outs)
      ensures State() == Engine.StartCompaction(old(State()), c, outs)
    {
      ghost var before := State();
      SoundCompaction(before, history, c);
      outs := WriteOutputs(c, merged);
      CompactionStarted(before, history, c, merged, outs);
    }

    method InstallCompaction()
      requires Valid() && background.Compacting?
      modifies `levels, `logNumber, `disk, `background, `revived
      ensures Valid() && State() == Engine.InstallCompaction(old(State()))
    {
      SoundBackground(State(), history);
      ghost var before, h := State(), history;
      InstallCompactionResults();
      EndCompactionSound(before, h);
    }

    /** BackgroundCompaction, the case of a trivial move. */
    method TrivialMove(c: Compaction)
      requires Valid() && MoveReady(State(), c)
      modifies `levels, `logNumber, `disk
      ensures Valid() && State() == Engine.TrivialMove(old(State()), c)
    {
      ghost var before, h := State(), history;
      MoveFile(c);
      MoveSound(before, h, c);
    }

    method DeleteObsoleteFiles()
      requires Valid()
      modifies `disk
      ensures Valid() && State() == Engine.DeleteObsolete(old(State()))
      ensures forall n :: n in disk.tables <==>
        (n in old(disk).tables
         && (n in LiveNumbers(levels) || n in HeldNumbers(readers) || n in PendingOutputs(background)))
      ensures forall n :: n in disk.logs <==> n in old(disk).logs && n >= logNumber
    {
      ghost var before, h := State(), history;
      RemoveFiles();
      DeletionSound(before, h);
    }

    /** Get and NewInternalIterator up to the place where they release the mutex. */
    method StartRead(snapshot: Option<Sequence>)
      requires Valid() && (snapshot.Some? ==> snapshot.value in snapshots)
      modifies `readers, `begun
      ensures Valid()
      ensures State() == BeginRead(old(State()), if snapshot.Some? then snapshot.value else lastSequence)
      ensures |readers| == |old(readers)| + 1 && readers[..|old(readers)|] == old(readers)
      ensures |begun| == |old(begun)| + 1 && begun[..|old(begun)|] == old(begun) && begun[|old(begun)|] == revived
      ensures var r := readers[|old(readers)|];
        && (snapshot.Some? ==> r.at == snapshot.value) && (snapshot.None? ==> r.at == lastSequence)
        && r.mem == mem && r.imm == imm && r.levels == levels
    {
      ghost var before, h := State(), history;
      var at := if snapshot.Some? then snapshot.value else lastSequence;
      SnapshotReadable(before, h, snapshot);
      readers, begun := readers + [Reader(mem, imm, levels, at)], begun + [revived];
      BeginReadSound(before, h, at);
    }

    /** The lookups of a reader, with what has gone into the shared memtable by now. */
    method ReadHeld(i: nat, user: UserKey, inserted: seq<Entry>) returns (answer: Answer)
      requires Valid() && i < |readers| && Grown(readers[i], inserted)
      ensures |begun| == |readers|
      ensures Settled(begun[i], history, user, readers[i].at) ==> answer == Read(history, user, readers[i].at)
    {
      ReaderIsOrdered(State(), history, i);
      answer := GetThrough(inserted, readers[i].imm, readers[i].levels, user, readers[i].at);
      if Settled(begun[i], history, user, readers[i].at) {
        GrownReads(State(), history, i, inserted, user);
      }
    }

    /**
     * The rest of Get, whatever has happened since: `inserted` is what has gone into the shared memtable. The
     * answer is that of the whole history, then or now.
     */
    method FinishRead(i: nat, user: UserKey, inserted: seq<Entry>) returns (answer: Answer)
      requires Valid() && i < |readers| && Grown(readers[i], inserted)
      modifies `readers, `begun
      ensures i < |old(begun)| == |old(readers)|
      ensures Valid() && State() == EndRead(old(State()), i)
      ensures IsWithout(readers, old(readers), i) && IsWithout(begun, old(begun), i)
      ensures Settled(old(begun)[i], history, user, old(readers)[i].at) ==>
        answer == Read(history, user, old(readers)[i].at)
    {
      answer := ReadHeld(i, user, inserted);
      EndReadSound(State(), history, i);
      readers, begun := readers[..i] + readers[i + 1..], begun[..i] + begun[i + 1..];
    }

    method GetSnapshot() returns (snapshot: Sequence)
      requires Valid()
      modifies `snapshots
      ensures Valid() && State() == TakeSnapshot(old(State()))
      ensures snapshot == lastSequence && multiset(snapshots) == multiset(old(snapshots)) + multiset{snapshot}
      ensures |snapshots| == |old(snapshots)| + 1 && snapshots[..|old(snapshots)|] == old(snapshots)
    {
      ghost var before, h := State(), history;
      snapshots := snapshots + [lastSequence];
      SnapshotSound(before, h);
      snapshot := lastSequence;
    }

    method ReleaseSnapshot(i: nat)
      requires Valid() && i < |snapshots|
      modifies `snapshots
      ensures Valid() && State() == Engine.ReleaseSnapshot(old(State()), i)
      ensures IsWithout(snapshots, old(snapshots), i)
      ensures multiset(snapshots) == multiset(old(snapshots)) - multiset{old(snapshots)[i]}
    {
      ghost var before, h := State(), history;
      OneLess(snapshots, i);
      snapshots := snapshots[..i] + snapshots[i + 1..];
      ReleaseSound(before, h, i);
    }
  }
}
