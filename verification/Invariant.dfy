/** What every reachable state of the database satisfies, step by step. */
module Invariant {
  import opened Keys
  import opened Reads
  import opened Version
  import opened Inputs
  import opened Builder
  import opened Compacting
  import opened Install
  import opened Manifest
  import opened Engine

  /** The history of all logged entries: each sequence number from 1 to `top` once. */
  ghost predicate Numbered(h: set<Entry>, top: nat) {
    && (forall e :: e in h ==> 1 <= e.key.seqno <= top)
    && (forall e, f :: e in h && f in h && e.key.seqno == f.key.seqno ==> e == f)
    && (forall n {:trigger HasNumber(h, n)} :: 1 <= n <= top ==> HasNumber(h, n))
  }

  ghost predicate HasNumber(h: set<Entry>, n: nat) {
    exists e :: e in h && e.key.seqno == n
  }

  ghost predicate TablesOnDisk(files: seq<File>, tables: map<nat, seq<Entry>>) {
    forall f :: f in files ==> f.number in tables && tables[f.number] == f.table
  }

  /** Records of a log carry increasing sequence numbers, and higher-numbered logs higher ones. */
  ghost predicate LogsOrdered(logs: map<nat, seq<Batch>>, low: nat) {
    && (forall n :: n in logs && n >= low ==> LogOrdered(logs[n]))
    && (forall m, n {:trigger logs[m], logs[n]} ::
         m in logs && n in logs && low <= m < n ==> AllBelow(BatchEntries(logs[m]), BatchEntries(logs[n])))
  }

  ghost predicate LogOrdered(log: seq<Batch>) {
    && (forall i :: 0 <= i < |log| ==> Increasing(log[i]))
    && (forall i, j :: 0 <= i < j < |log| ==> AllBelow(Elements(log[i]), Elements(log[j])))
  }

  ghost predicate Increasing(b: Batch) {
    forall i, j :: 0 <= i < j < |b| ==> b[i].key.seqno < b[j].key.seqno
  }

  ghost predicate LastLogged(disk: Disk, last: Record) {
    disk.manifest != [] && disk.manifest[|disk.manifest| - 1] == last && last.Logged?
  }

  /** What holds of the disk, whatever happens to the process. */
  ghost predicate DiskInv(disk: Disk, levels: Levels, last: Record, h: set<Entry>, top: nat) {
    && LastLogged(disk, last) && last.logNumber < last.nextFile
    && Describes(disk.manifest, levels, last.nextFile)
    && OrderedVersion(levels)
    && (forall l :: 0 <= l < NUM_LEVELS ==> TablesOnDisk(levels[l], disk.tables))
    && (forall l, f :: 0 <= l < NUM_LEVELS && f in levels[l] ==> f.number < last.nextFile)
    && HistoryInv(AllContents(levels), LogEntries(disk.logs, last.logNumber), last.lastSequence, h, top)
    && LogsOrdered(disk.logs, last.logNumber)
  }

  /** Tables and kept logs hold history, the logs the newer part of it, with all that the manifest has not numbered. */
  ghost predicate HistoryInv(tables: set<Entry>, kept: set<Entry>, recorded: nat, h: set<Entry>, top: nat) {
    && Numbered(h, top) && top < MAX_SEQUENCE
    && tables + kept <= h
    && AllBelow(tables, kept)
    && recorded <= top
    && (forall e :: e in h && e.key.seqno > recorded ==> e in kept)
  }

  /** The memtables hold what the kept logs hold. */
  ghost predicate MemoryInv(db: DB) {
    && Sorted(db.mem) && (db.imm.Some? ==> Sorted(db.imm.value))
    && LogEntries(db.disk.logs, db.logNumber) == Imm(db) + Elements(db.mem) + Pending(db)
    && LogEntries(db.disk.logs, db.logfileNumber) == Elements(db.mem) + Pending(db)
    && AllBelow(Imm(db), Elements(db.mem) + Pending(db))
    && (forall e :: e in Elements(db.mem) || e in Imm(db) ==> e.key.seqno <= db.lastSequence)
    && (db.pending.Some? ==> StampedFrom(db.pending.value, db.lastSequence + 1))
  }

  ghost predicate StampedFrom(b: Batch, first: nat) {
    forall i :: 0 <= i < |b| ==> b[i].key.seqno == first + i
  }

  ghost predicate LogFilesInv(db: DB) {
    && db.logfileNumber in db.disk.logs
    && (forall n :: n in db.disk.logs ==> n <= db.logfileNumber)
    && db.logNumber <= db.logfileNumber < db.nextFile
  }

  ghost predicate SnapshotsInv(db: DB) {
    && (forall i :: 0 <= i < |db.snapshots| ==> db.snapshots[i] <= db.lastSequence)
    && (forall i, j :: 0 <= i < j < |db.snapshots| ==> db.snapshots[i] <= db.snapshots[j])
  }

  /** The deletions that the compaction drops uncover values of these keys alone in the rest of what is stored. */
  ghost predicate UncoversOnly(keys: set<UserKey>, levels: Levels, c: Compaction, stored: set<Entry>,
                               smallest: Sequence)
  {
    forall m, o :: Uncovers(levels, c.level, InputContents(c), stored - InputContents(c), smallest, m, o)
      ==> m.key.user in keys
  }

  /** Of a key that was revived a read may be wrong until one sees an entry that was written since. */
  ghost predicate Settled(revived: Revivals, h: set<Entry>, user: UserKey, at: nat) {
    user in revived ==> exists e :: e in h && e.key.user == user && revived[user] < e.key.seqno <= at
  }

  /** Reads at `floor` and above give what the history gives. */
  ghost predicate ReadsKept(revived: Revivals, h: set<Entry>, s: set<Entry>, floor: nat) {
    forall user, at: nat :: at >= floor && Settled(revived, h, user, at) ==> Read(s, user, at) == Read(h, user, at)
  }

  ghost predicate BackgroundInv(db: DB, last: Record)
    requires last.Logged?
  {
    match db.background
    case Idle => true
    case Flushing(level, file) =>
      db.imm.Some? && level < NUM_LEVELS &&
      (match file
       case None => db.imm.value == []
       case Some(f) =>
         FlushAllowed(db.levels, level, f) && f.table == db.imm.value && last.nextFile <= f.number < db.nextFile
                       && TablesOnDisk([f], db.disk.tables))
    case Compacting(c, smallest, outs) =>
      && ValidCompaction(db.levels, c) && OutputsReady(db.levels, c, smallest, outs, last.nextFile)
      && (forall f :: f in outs ==> f.number < db.nextFile)
      && TablesOnDisk(outs, db.disk.tables)
      && smallest <= SmallestSnapshot(db)
  }

  ghost predicate Inv(db: DB, h: set<Entry>, last: Record) {
    && DiskInv(db.disk, db.levels, last, h, Top(db))
    && last.logNumber == db.logNumber && last.nextFile <= db.nextFile
    && MemoryInv(db) && LogFilesInv(db) && SnapshotsInv(db)
    && BackgroundInv(db, last)
    && ReadsKept(db.revived, h, Stored(db), SmallestSnapshot(db))
  }

  // ----- entries of logs -----

  lemma LogEntriesIs(logs: map<nat, seq<Batch>>, low: nat, e: Entry)
    ensures e in LogEntries(logs, low) <==> exists n :: n in logs && n >= low && e in BatchEntries(logs[n])
  {
    if e in LogEntries(logs, low) {
      var n, b :| n in logs && n >= low && b in logs[n] && e in b;
      assert e in BatchEntries(logs[n]);
    }
  }

  lemma BatchEntriesAppend(log: seq<Batch>, b: Batch)
    ensures BatchEntries(log + [b]) == BatchEntries(log) + Elements(b)
  {
    forall e ensures e in BatchEntries(log + [b]) <==> e in BatchEntries(log) || e in b {
      if e in BatchEntries(log) { var c :| c in log && e in c; assert c in log + [b]; }
      if e in b { assert b in log + [b]; }
    }
  }

  lemma LogEntriesUpdate(logs: map<nat, seq<Batch>>, n: nat, log: seq<Batch>, low: nat)
    requires n >= low && (n in logs ==> BatchEntries(logs[n]) <= BatchEntries(log))
    ensures LogEntries(logs[n := log], low) == LogEntries(logs, low) + BatchEntries(log)
  {
    forall e ensures e in LogEntries(logs[n := log], low) <==> e in LogEntries(logs, low) || e in BatchEntries(log) {
      LogEntriesIs(logs, low, e);
      LogEntriesIs(logs[n := log], low, e);
      if e in LogEntries(logs, low) {
        var m :| m in logs && m >= low && e in BatchEntries(logs[m]);
        assert m in logs[n := log];
      }
      if e in BatchEntries(log) { assert n in logs[n := log]; }
    }
  }

  // ----- memtable inserts -----

  ghost predicate AbsentNumber(mem: seq<Entry>, e: Entry) {
    forall f :: f in mem ==> f.key.seqno != e.key.seqno
  }

  lemma {:induction false} InsertKeeps(mem: seq<Entry>, e: Entry)
    requires Sorted(mem) && AbsentNumber(mem, e)
    ensures Sorted(InsertEntry(mem, e))
    ensures Elements(InsertEntry(mem, e)) == Elements(mem) + {e}
  {
    if mem == [] || Before(e.key, mem[0].key) {
      InsertFront(mem, e);
    } else {
      assert mem == [mem[0]] + mem[1..];
      InsertKeeps(mem[1..], e);
      var rest := InsertEntry(mem[1..], e);
      forall i | 0 <= i < |rest| ensures Before(mem[0].key, rest[i].key) {
        assert rest[i] in Elements(rest);
        if rest[i] != e { var j :| 0 <= j < |mem[1..]| && mem[1..][j] == rest[i]; }
      }
      forall f ensures f in InsertEntry(mem, e) <==> f in Elements(mem) + {e} {
        assert f in rest <==> f in Elements(rest);
      }
    }
  }

  lemma InsertFront(mem: seq<Entry>, e: Entry)
    requires Sorted(mem) && (mem == [] || Before(e.key, mem[0].key))
    ensures Sorted([e] + mem) && Elements([e] + mem) == Elements(mem) + {e}
  {
    assert mem == [] ==> [e] + mem == [e];
  }

  lemma {:induction false} InsertAllKeeps(mem: seq<Entry>, batch: Batch)
    requires Sorted(mem) && Increasing(batch)
    requires AllBelow(Elements(mem), Elements(batch))
    ensures Sorted(InsertAll(mem, batch))
    ensures Elements(InsertAll(mem, batch)) == Elements(mem) + Elements(batch)
  {
    if batch == [] {
      assert Elements(batch) == {};
    } else {
      var init, last := batch[..|batch| - 1], batch[|batch| - 1];
      SplitLast(batch);
      InsertAllKeeps(mem, init);
      LastIsNewest(mem, batch, InsertAll(mem, init));
      InsertKeeps(InsertAll(mem, init), last);
    }
  }

  lemma SplitLast(batch: Batch)
    requires batch != []
    ensures Elements(batch) == Elements(batch[..|batch| - 1]) + {batch[|batch| - 1]}
  {
    assert batch == batch[..|batch| - 1] + [batch[|batch| - 1]];
  }

  lemma LastIsNewest(mem: seq<Entry>, batch: Batch, before: seq<Entry>)
    requires batch != [] && Increasing(batch) && AllBelow(Elements(mem), Elements(batch))
    requires Elements(before) == Elements(mem) + Elements(batch[..|batch| - 1])
    ensures AbsentNumber(before, batch[|batch| - 1])
  {
    var last := batch[|batch| - 1];
    assert last in Elements(batch);
    forall f | f in before ensures f.key.seqno < last.key.seqno {
      assert f in Elements(before);
      if f !in Elements(mem) { var i :| 0 <= i < |batch| - 1 && batch[i] == f; }
    }
  }
}
