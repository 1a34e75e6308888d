/** Every step of the database keeps the invariant. */
module Steps {
  import opened Keys
  import opened Reads
  import opened Version
  import opened Inputs
  import opened Builder
  import opened Compacting
  import opened Install
  import opened Manifest
  import opened Engine
  import opened Invariant

  // ----- a write -----

  lemma HistoryGrows(tables: set<Entry>, kept: set<Entry>, recorded: nat, h: set<Entry>, top: nat, b: Batch)
    requires HistoryInv(tables, kept, recorded, h, top)
    requires StampedFrom(b, top + 1) && top + |b| < MAX_SEQUENCE
    ensures HistoryInv(tables, kept + Elements(b), recorded, h + Elements(b), top + |b|)
    ensures AllBelow(h, Elements(b))
  {
    NumberedGrows(h, top, b);
    forall e | e in Elements(b) ensures e.key.seqno > top { var i :| 0 <= i < |b| && b[i] == e; }
  }

  lemma NumberedGrows(h: set<Entry>, top: nat, b: Batch)
    requires Numbered(h, top) && StampedFrom(b, top + 1)
    ensures Numbered(h + Elements(b), top + |b|)
  {
    forall e | e in Elements(b) ensures top + 1 <= e.key.seqno <= top + |b| { var i :| 0 <= i < |b| && b[i] == e; }
    forall n | 1 <= n <= top + |b| ensures HasNumber(h + Elements(b), n) {
      if n <= top {
        assert HasNumber(h, n);
        var e :| e in h && e.key.seqno == n;
        assert e in h + Elements(b);
      } else {
        assert b[n - top - 1] in Elements(b);
      }
    }
    forall e, f | e in h + Elements(b) && f in h + Elements(b) && e.key.seqno == f.key.seqno ensures e == f {
      if e in Elements(b) && f in Elements(b) {
        var i :| 0 <= i < |b| && b[i] == e;
        var j :| 0 <= j < |b| && b[j] == f;
      }
    }
  }

  /** Adding the same newest entries on both sides changes no comparison of reads. */
  lemma ReadsKeptGrows(revived: Revivals, h: set<Entry>, s: set<Entry>, b: set<Entry>, floor: nat)
    requires ReadsKept(revived, h, s, floor) && s <= h && AllBelow(h, b) && Distinct(h + b)
    ensures ReadsKept(revived, h + b, s + b, floor)
  {
    forall user, at: nat | at >= floor && Settled(revived, h + b, user, at)
      ensures Read(s + b, user, at) == Read(h + b, user, at)
    {
      assert h + b == b + h && s + b == b + s;
      ReadLayers(b, h, user, at);
      ReadLayers(b, s, user, at);
      if NothingVisible(b, user, at) { SettledBefore(revived, h, b, user, at); }
    }
  }

  lemma SettledBefore(revived: Revivals, h: set<Entry>, b: set<Entry>, user: UserKey, at: nat)
    requires Settled(revived, h + b, user, at) && NothingVisible(b, user, at)
    ensures Settled(revived, h, user, at)
  {
    if user in revived {
      var e :| e in h + b && e.key.user == user && revived[user] < e.key.seqno <= at;
      assert !Visible(b, user, at, e);
    }
  }

  lemma NumberedDistinct(h: set<Entry>, top: nat)
    requires Numbered(h, top)
    ensures Distinct(h)
  {
  }

  lemma AppendedLog(log: seq<Batch>, b: Batch)
    requires LogOrdered(log) && AllBelow(BatchEntries(log), Elements(b)) && Increasing(b)
    ensures LogOrdered(log + [b])
  {
    forall i, j | 0 <= i < j < |log + [b]| ensures AllBelow(Elements((log + [b])[i]), Elements((log + [b])[j])) {
      if j == |log| {
        assert log[i] in log;
        forall e | e in Elements(log[i]) ensures e in BatchEntries(log) {}
      }
    }
  }

  lemma AppendedLogsOrdered(logs: map<nat, seq<Batch>>, low: nat, n: nat, log: seq<Batch>, b: set<Entry>)
    requires LogsOrdered(logs, low) && n >= low && (forall m :: m in logs ==> m <= n)
    requires AllBelow(LogEntries(logs, low), b) && LogOrdered(log)
    requires BatchEntries(log) == (if n in logs then BatchEntries(logs[n]) else {}) + b
    ensures LogsOrdered(logs[n := log], low)
  {
    forall m, k {:trigger logs[n := log][m], logs[n := log][k]} | m in logs[n := log] && k in logs[n := log]
        && low <= m < k
      ensures AllBelow(BatchEntries(logs[n := log][m]), BatchEntries(logs[n := log][k]))
    {
      if k == n {
        forall e | e in BatchEntries(logs[m]) ensures e in LogEntries(logs, low) { LogEntriesIs(logs, low, e); }
      }
    }
  }

  lemma AppendedLogs(logs: map<nat, seq<Batch>>, low: nat, n: nat, b: Batch)
    requires LogsOrdered(logs, low) && n in logs && n >= low && (forall m :: m in logs ==> m <= n)
    requires AllBelow(LogEntries(logs, low), Elements(b)) && Increasing(b)
    ensures LogsOrdered(logs[n := logs[n] + [b]], low)
  {
    BatchEntriesAppend(logs[n], b);
    forall e | e in BatchEntries(logs[n]) ensures e in LogEntries(logs, low) { LogEntriesIs(logs, low, e); }
    AppendedLog(logs[n], b);
    AppendedLogsOrdered(logs, low, n, logs[n] + [b], Elements(b));
  }

  lemma AppendedEntries(logs: map<nat, seq<Batch>>, low: nat, n: nat, b: Batch)
    requires n in logs && n >= low
    ensures LogEntries(logs[n := logs[n] + [b]], low) == LogEntries(logs, low) + Elements(b)
  {
    BatchEntriesAppend(logs[n], b);
    LogEntriesUpdate(logs, n, logs[n] + [b], low);
    forall e | e in BatchEntries(logs[n]) ensures e in LogEntries(logs, low) { LogEntriesIs(logs, low, e); }
  }

  ghost predicate AppendReady(db: DB, ops: seq<Op>) {
    db.pending.None? && db.lastSequence + |ops| + 1 < MAX_SEQUENCE && db.logfileNumber in db.disk.logs
  }

  /** The history with the batch in it. */
  ghost function Appended(db: DB, h: set<Entry>, ops: seq<Op>): set<Entry>
    requires db.lastSequence + 1 + |ops| <= MAX_SEQUENCE
  {
    h + Elements(Stamp(ops, db.lastSequence + 1))
  }

  lemma AppendedIs(db: DB, h: set<Entry>, ops: seq<Op>)
    requires db.lastSequence + 1 + |ops| <= MAX_SEQUENCE
    ensures Appended(db, h, ops) == h + Elements(Stamp(ops, db.lastSequence + 1))
  {
  }

  lemma AppendMemory(db: DB, ops: seq<Op>)
    requires MemoryInv(db) && LogFilesInv(db) && AppendReady(db, ops)
    ensures MemoryInv(AppendToLog(db, ops)) && LogFilesInv(AppendToLog(db, ops))
  {
    var b := Stamp(ops, db.lastSequence + 1);
    StampIsStamped(ops, db.lastSequence + 1);
    AppendedPending(db, b);
  }

  /** What is in the log and not yet in the memtable is newer than what is. */
  lemma AppendedPending(db: DB, b: Batch)
    requires MemoryInv(db) && LogFilesInv(db) && db.pending.None? && StampedFrom(b, db.lastSequence + 1)
    ensures var logs := db.disk.logs[db.logfileNumber := db.disk.logs[db.logfileNumber] + [b]];
      MemoryInv(db.(pending := Some(b), disk := db.disk.(logs := logs)))
  {
    AppendedEntries(db.disk.logs, db.logNumber, db.logfileNumber, b);
    AppendedEntries(db.disk.logs, db.logfileNumber, db.logfileNumber, b);
    forall e | e in Elements(b) ensures e.key.seqno > db.lastSequence { var i :| 0 <= i < |b| && b[i] == e; }
  }

  lemma AppendHistory(db: DB, h: set<Entry>, recorded: nat, ops: seq<Op>)
    requires LogFilesInv(db) && AppendReady(db, ops)
    requires HistoryInv(AllContents(db.levels), LogEntries(db.disk.logs, db.logNumber), recorded, h, Top(db))
    ensures var db', h' := AppendToLog(db, ops), h + Elements(Stamp(ops, db.lastSequence + 1));
      HistoryInv(AllContents(db'.levels), LogEntries(db'.disk.logs, db'.logNumber), recorded, h', Top(db'))
  {
    var b := Stamp(ops, db.lastSequence + 1);
    HistoryGrows(AllContents(db.levels), LogEntries(db.disk.logs, db.logNumber), recorded, h, Top(db), b);
    AppendedEntries(db.disk.logs, db.logNumber, db.logfileNumber, b);
  }

  lemma AppendOrdered(db: DB, h: set<Entry>, ops: seq<Op>)
    requires LogFilesInv(db) && AppendReady(db, ops) && LogsOrdered(db.disk.logs, db.logNumber)
    requires Numbered(h, Top(db)) && LogEntries(db.disk.logs, db.logNumber) <= h
    ensures LogsOrdered(AppendToLog(db, ops).disk.logs, db.logNumber)
  {
    var b := Stamp(ops, db.lastSequence + 1);
    StampIsStamped(ops, db.lastSequence + 1);
    StampedAbove(LogEntries(db.disk.logs, db.logNumber), h, Top(db), b);
    AppendedLogs(db.disk.logs, db.logNumber, db.logfileNumber, b);
    assert AppendToLog(db, ops).disk.logs == db.disk.logs[db.logfileNumber := db.disk.logs[db.logfileNumber] + [b]];
  }

  lemma StampedAbove(s: set<Entry>, h: set<Entry>, top: nat, b: Batch)
    requires Numbered(h, top) && s <= h && StampedFrom(b, top + 1)
    ensures AllBelow(s, Elements(b)) && Increasing(b)
  {
    forall e | e in Elements(b) ensures e.key.seqno > top { var i :| 0 <= i < |b| && b[i] == e; }
  }

  lemma AppendReads(revived: Revivals, tables: set<Entry>, logs: map<nat, seq<Batch>>, low: nat, n: nat, b: Batch,
                    h: set<Entry>, top: nat, floor: nat)
    requires n in logs && n >= low && StampedFrom(b, top + 1) && Numbered(h, top)
    requires tables + LogEntries(logs, low) <= h
    requires ReadsKept(revived, h, tables + LogEntries(logs, low), floor)
    ensures ReadsKept(revived, h + Elements(b), tables + LogEntries(logs[n := logs[n] + [b]], low), floor)
  {
    ReadsKeptStamped(revived, h, tables + LogEntries(logs, low), top, b, floor);
    AppendedEntries(logs, low, n, b);
    SetsRegroup(tables, LogEntries(logs, low), Elements(b));
  }

  lemma SetsRegroup(a: set<Entry>, b: set<Entry>, c: set<Entry>)
    ensures (a + b) + c == a + (b + c)
  {
  }

  lemma ReadsKeptStamped(revived: Revivals, h: set<Entry>, s: set<Entry>, top: nat, b: Batch, floor: nat)
    requires Numbered(h, top) && StampedFrom(b, top + 1) && s <= h && ReadsKept(revived, h, s, floor)
    ensures ReadsKept(revived, h + Elements(b), s + Elements(b), floor)
  {
    NumberedGrows(h, top, b);
    NumberedDistinct(h + Elements(b), top + |b|);
    forall e | e in Elements(b) ensures e.key.seqno > top { var i :| 0 <= i < |b| && b[i] == e; }
    ReadsKeptGrows(revived, h, s, Elements(b), floor);
  }

  lemma StampIsStamped(ops: seq<Op>, first: nat)
    requires first + |ops| <= MAX_SEQUENCE
    ensures StampedFrom(Stamp(ops, first), first) && |Stamp(ops, first)| == |ops|
  {
  }

  lemma AppendFaithful(db: DB, h: set<Entry>, ops: seq<Op>)
    requires db.logNumber <= db.logfileNumber && AppendReady(db, ops) && Numbered(h, Top(db))
    requires Stored(db) <= h
    requires ReadsKept(db.revived, h, Stored(db), SmallestSnapshot(db))
    ensures ReadsKept(db.revived, h + Elements(Stamp(ops, db.lastSequence + 1)),
                      Stored(AppendToLog(db, ops)), SmallestSnapshot(db))
  {
    var b := Stamp(ops, db.lastSequence + 1);
    StampIsStamped(ops, db.lastSequence + 1);
    AppendReads(db.revived, AllContents(db.levels), db.disk.logs, db.logNumber, db.logfileNumber, b, h, Top(db),
        SmallestSnapshot(db));
    assert AppendToLog(db, ops).disk.logs == db.disk.logs[db.logfileNumber := db.disk.logs[db.logfileNumber] + [b]];
  }

  lemma AppendBackground(db: DB, last: Record, ops: seq<Op>)
    requires last.Logged? && BackgroundInv(db, last) && AppendReady(db, ops)
    requires db.logNumber <= db.logfileNumber && SnapshotsInv(db)
    ensures BackgroundInv(AppendToLog(db, ops), last)
  {
  }

  lemma AppendDisk(db: DB, h: set<Entry>, last: Record, ops: seq<Op>)
    requires DiskInv(db.disk, db.levels, last, h, Top(db)) && last.logNumber == db.logNumber
    requires LogFilesInv(db) && AppendReady(db, ops)
    ensures var db' := AppendToLog(db, ops);
      DiskInv(db'.disk, db'.levels, last, h + Elements(Stamp(ops, db.lastSequence + 1)), Top(db'))
  {
    AppendHistory(db, h, last.lastSequence, ops);
    AppendOrdered(db, h, ops);
  }

  lemma AppendKeeps(db: DB, h: set<Entry>, last: Record, ops: seq<Op>)
    requires Inv(db, h, last) && AppendReady(db, ops)
    ensures Inv(AppendToLog(db, ops), h + Elements(Stamp(ops, db.lastSequence + 1)), last)
  {
    AppendMemory(db, ops);
    AppendDisk(db, h, last, ops);
    AppendBackground(db, last, ops);
    AppendFaithful(db, h, ops);
  }

  // ----- publishing a write; snapshots -----

  /** A step that leaves disk, levels and history alone. */
  lemma DiskStays(db: DB, db': DB, h: set<Entry>, last: Record)
    requires DiskInv(db.disk, db.levels, last, h, Top(db))
    requires db'.disk == db.disk && db'.levels == db.levels && Top(db') == Top(db)
    ensures DiskInv(db'.disk, db'.levels, last, h, Top(db'))
  {
  }

  lemma ReadsStay(db: DB, db': DB, h: set<Entry>)
    requires ReadsKept(db.revived, h, Stored(db), SmallestSnapshot(db)) && db'.revived == db.revived
    requires Stored(db') == Stored(db) && SmallestSnapshot(db) <= SmallestSnapshot(db')
    ensures ReadsKept(db'.revived, h, Stored(db'), SmallestSnapshot(db'))
  {
    FloorRises(db'.revived, h, Stored(db), SmallestSnapshot(db), SmallestSnapshot(db'));
  }

  lemma FloorRises(revived: Revivals, h: set<Entry>, s: set<Entry>, floor: nat, floor': nat)
    requires ReadsKept(revived, h, s, floor) && floor <= floor'
    ensures ReadsKept(revived, h, s, floor')
  {
  }

  ghost predicate ApplyReady(db: DB) {
    db.pending.Some? && db.lastSequence + |db.pending.value| <= MAX_SEQUENCE
  }

  lemma ApplyMemory(db: DB)
    requires MemoryInv(db) && ApplyReady(db)
    ensures MemoryInv(ApplyPending(db))
  {
    var b, db' := db.pending.value, ApplyPending(db);
    forall e | e in Elements(b)
      ensures db.lastSequence < e.key.seqno <= db'.lastSequence
    {
      var i :| 0 <= i < |b| && b[i] == e;
    }
    InsertAllKeeps(db.mem, b);
    assert Pending(db) == Elements(b) && Pending(db') == {} && Imm(db') == Imm(db);
    assert Elements(db'.mem) == Elements(db.mem) + Elements(b);
  }

  lemma ApplyRest(db: DB, last: Record)
    requires ApplyReady(db) && SnapshotsInv(db) && LogFilesInv(db) && last.Logged? && BackgroundInv(db, last)
    ensures var db' := ApplyPending(db);
      SnapshotsInv(db') && LogFilesInv(db') && BackgroundInv(db', last) && SmallestSnapshot(db) <= SmallestSnapshot(db')
  {
    assert Stored(ApplyPending(db)) == Stored(db);
  }

  lemma ApplyKeeps(db: DB, h: set<Entry>, last: Record)
    requires Inv(db, h, last) && ApplyReady(db)
    ensures Inv(ApplyPending(db), h, last)
  {
    ApplyMemory(db);
    ApplyRest(db, last);
    DiskStays(db, ApplyPending(db), h, last);
    ReadsStay(db, ApplyPending(db), h);
  }

  lemma MemoryStays(db: DB, db': DB)
    requires MemoryInv(db) && LogFilesInv(db)
    requires db'.disk == db.disk && db'.mem == db.mem && db'.imm == db.imm && db'.pending == db.pending
    requires db'.lastSequence == db.lastSequence && db'.logNumber == db.logNumber
    requires db'.logfileNumber == db.logfileNumber && db.nextFile <= db'.nextFile
    ensures MemoryInv(db') && LogFilesInv(db')
  {
  }

  lemma TakeRest(db: DB, last: Record)
    requires SnapshotsInv(db) && last.Logged? && BackgroundInv(db, last)
    ensures var db' := TakeSnapshot(db);
      SnapshotsInv(db') && BackgroundInv(db', last) && SmallestSnapshot(db) == SmallestSnapshot(db')
  {
    assert Stored(TakeSnapshot(db)) == Stored(db);
  }

  lemma TakeSnapshotKeeps(db: DB, h: set<Entry>, last: Record)
    requires Inv(db, h, last)
    ensures Inv(TakeSnapshot(db), h, last)
  {
    TakeRest(db, last);
    MemoryStays(db, TakeSnapshot(db));
    DiskStays(db, TakeSnapshot(db), h, last);
    ReadsStay(db, TakeSnapshot(db), h);
  }

  lemma ReleaseRest(db: DB, last: Record, i: nat)
    requires SnapshotsInv(db) && last.Logged? && BackgroundInv(db, last) && i < |db.snapshots|
    ensures var db' := ReleaseSnapshot(db, i);
      SnapshotsInv(db') && BackgroundInv(db', last) && SmallestSnapshot(db) <= SmallestSnapshot(db')
  {
    assert Stored(ReleaseSnapshot(db, i)) == Stored(db);
  }

  lemma ReleaseSnapshotKeeps(db: DB, h: set<Entry>, last: Record, i: nat)
    requires Inv(db, h, last) && i < |db.snapshots|
    ensures Inv(ReleaseSnapshot(db, i), h, last)
  {
    ReleaseRest(db, last, i);
    MemoryStays(db, ReleaseSnapshot(db, i));
    DiskStays(db, ReleaseSnapshot(db, i), h, last);
    ReadsStay(db, ReleaseSnapshot(db, i), h);
  }
}
