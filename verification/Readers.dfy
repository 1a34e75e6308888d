/**
 * Reading without the mutex (db/db_impl.cc, Get and NewInternalIterator): whatever the database does meanwhile, a
 * reader finds what was there when it began.
 */
module Readers {
  import opened Keys
  import opened Reads
  import opened Version
  import opened Compacting
  import opened Manifest
  import opened Engine
  import opened Invariant
  import opened Steps
  import opened FlushSteps

  // ----- mem, then imm, then the tables -----

  ghost function LayeredRead(mem: set<Entry>, imm: set<Entry>, tables: set<Entry>, user: UserKey, at: nat): Answer {
    if !NothingVisible(mem, user, at) then Read(mem, user, at)
    else if !NothingVisible(imm, user, at) then Read(imm, user, at)
    else Read(tables, user, at)
  }

  lemma LayersRead(mem: set<Entry>, imm: set<Entry>, tables: set<Entry>, user: UserKey, at: nat)
    requires NewerThan(mem, imm + tables) && NewerThan(imm, tables) && Distinct(mem + (imm + tables))
    ensures Read(mem + (imm + tables), user, at) == LayeredRead(mem, imm, tables, user, at)
  {
    ReadLayers(mem, imm + tables, user, at);
    ReadLayers(imm, tables, user, at);
  }

  lemma ContentIsStored(db: DB)
    requires MemoryInv(db)
    ensures Content(db) == Stored(db)
  {
  }

  lemma LayersOrdered(db: DB, h: set<Entry>, last: Record)
    requires Inv(db, h, last)
    ensures NewerThan(Elements(db.mem), Imm(db) + AllContents(db.levels)) && NewerThan(Imm(db), AllContents(db.levels))
    ensures Distinct(Content(db))
    ensures Content(db) == (Elements(db.mem) + (Imm(db) + AllContents(db.levels))) + Pending(db)
    ensures forall e :: e in Pending(db) ==> e.key.seqno > db.lastSequence
  {
    ContentIsStored(db);
    NumberedDistinct(h, Top(db));
    StoredLayers(AllContents(db.levels), LogEntries(db.disk.logs, db.logNumber), Imm(db), Elements(db.mem),
        Pending(db));
    forall e | e in Pending(db) ensures e.key.seqno > db.lastSequence { }
  }

  lemma StoredLayers(tables: set<Entry>, kept: set<Entry>, imm: set<Entry>, mem: set<Entry>, pending: set<Entry>)
    requires AllBelow(tables, kept) && kept == imm + mem + pending && AllBelow(imm, mem + pending)
    ensures NewerThan(mem, imm + tables) && NewerThan(imm, tables)
  {
  }

  /** In every reachable state that is reading everything the database holds. */
  lemma ContentRead(db: DB, h: set<Entry>, last: Record, user: UserKey, at: nat)
    requires Inv(db, h, last) && at <= db.lastSequence
    ensures Read(Content(db), user, at) == LayeredRead(Elements(db.mem), Imm(db), AllContents(db.levels), user, at)
  {
    LayersOrdered(db, h, last);
    LayersRead(Elements(db.mem), Imm(db), AllContents(db.levels), user, at);
    ReadIgnoresFuture(Elements(db.mem) + (Imm(db) + AllContents(db.levels)), Pending(db), user, at);
  }

  // ----- what a reader can rely on -----

  ghost function ReaderImm(r: Reader): set<Entry> {
    if r.imm.Some? then Elements(r.imm.value) else {}
  }

  /** The memtable is shared: `more` has been inserted since. */
  ghost function ReadBy(r: Reader, more: set<Entry>, user: UserKey): Answer {
    LayeredRead(Elements(r.mem) + more, ReaderImm(r), AllContents(r.levels), user, r.at)
  }

  /** Every table of the version is on disk, as it was written, with a number that is not given out again. */
  ghost predicate HeldOnDisk(levels: Levels, tables: map<nat, seq<Entry>>, nextFile: nat) {
    forall l, f :: 0 <= l < |levels| && f in levels[l] ==>
      f.number < nextFile && f.number in tables && tables[f.number] == f.table
  }

  /** `begun` is what had been revived when the reader began; what is revived later does not concern it. */
  ghost predicate ReadsAs(begun: Revivals, r: Reader, h: set<Entry>) {
    forall user :: Settled(begun, h, user, r.at) ==> ReadBy(r, {}, user) == Read(h, user, r.at)
  }

  ghost predicate ReaderOrdered(r: Reader) {
    && ValidVersion(r.levels) && Sorted(r.mem) && Distinct(Elements(r.mem))
    && (r.imm.Some? ==> Sorted(r.imm.value) && Distinct(Elements(r.imm.value)))
  }

  ghost predicate ReaderInv(r: Reader, begun: Revivals, db: DB, h: set<Entry>) {
    && r.at <= db.lastSequence && ReaderOrdered(r)
    && HeldOnDisk(r.levels, db.disk.tables, db.nextFile) && ReadsAs(begun, r, h)
  }

  ghost predicate ReadersInv(db: DB, h: set<Entry>) {
    |db.begun| == |db.readers| && forall i :: 0 <= i < |db.readers| ==> ReaderInv(db.readers[i], db.begun[i], db, h)
  }

  /** What is inserted into the shared memtable while the reader is at work is newer than what it reads at. */
  lemma FutureUnseen(r: Reader, more: set<Entry>, user: UserKey)
    requires ReaderOrdered(r) && forall e :: e in more ==> e.key.seqno > r.at
    ensures ReadBy(r, more, user) == ReadBy(r, {}, user)
  {
    var mem := Elements(r.mem);
    ReadIgnoresFuture(mem, more, user, r.at);
    assert mem + {} == mem;
    assert NothingVisible(mem + more, user, r.at) <==> NothingVisible(mem, user, r.at);
  }

  // ----- a reader begins -----

  lemma MemtablesOrdered(db: DB, h: set<Entry>, last: Record)
    requires Inv(db, h, last)
    ensures ValidVersion(db.levels) && Sorted(db.mem) && Distinct(Elements(db.mem))
    ensures db.imm.Some? ==> Sorted(db.imm.value) && Distinct(Elements(db.imm.value))
  {
    LayersOrdered(db, h, last);
    if db.imm.Some? { assert Imm(db) == Elements(db.imm.value); }
  }

  lemma CurrentOnDisk(db: DB, h: set<Entry>, last: Record)
    requires Inv(db, h, last)
    ensures HeldOnDisk(db.levels, db.disk.tables, db.nextFile)
  {
  }

  lemma StoredReads(db: DB, h: set<Entry>, user: UserKey, at: nat)
    requires ReadsKept(db.revived, h, Stored(db), SmallestSnapshot(db))
    requires Settled(db.revived, h, user, at) && SmallestSnapshot(db) <= at
    ensures Read(Stored(db), user, at) == Read(h, user, at)
  {
  }

  lemma ReadHere(db: DB, h: set<Entry>, last: Record, user: UserKey, at: nat)
    requires Inv(db, h, last) && Settled(db.revived, h, user, at) && SmallestSnapshot(db) <= at <= db.lastSequence
    ensures LayeredRead(Elements(db.mem), Imm(db), AllContents(db.levels), user, at) == Read(h, user, at)
  {
    ContentRead(db, h, last, user, at);
    ContentIsStored(db);
    StoredReads(db, h, user, at);
  }

  lemma ReaderReads(db: DB, r: Reader, user: UserKey)
    requires r.mem == db.mem && r.imm == db.imm && r.levels == db.levels
    ensures ReadBy(r, {}, user) == LayeredRead(Elements(db.mem), Imm(db), AllContents(db.levels), user, r.at)
  {
    assert Elements(r.mem) + {} == Elements(db.mem) && ReaderImm(r) == Imm(db);
  }

  lemma CurrentReads(db: DB, h: set<Entry>, last: Record, r: Reader, user: UserKey)
    requires Inv(db, h, last) && Settled(db.revived, h, user, r.at) && SmallestSnapshot(db) <= r.at <= db.lastSequence
    requires r.mem == db.mem && r.imm == db.imm && r.levels == db.levels
    ensures ReadBy(r, {}, user) == Read(h, user, r.at)
  {
    ReadHere(db, h, last, user, r.at);
    ReaderReads(db, r, user);
  }

  ghost predicate BeginReady(db: DB, at: Sequence) {
    SmallestSnapshot(db) <= at <= db.lastSequence
  }

  lemma BeginReadKeeps(db: DB, h: set<Entry>, last: Record, at: Sequence)
    requires Inv(db, h, last) && ReadersInv(db, h) && BeginReady(db, at)
    ensures Inv(BeginRead(db, at), h, last) && ReadersInv(BeginRead(db, at), h)
  {
    var db', r := BeginRead(db, at), Reader(db.mem, db.imm, db.levels, at);
    ReadersAside(db, db', h, last);
    MemtablesOrdered(db, h, last);
    CurrentOnDisk(db, h, last);
    forall user | Settled(db.revived, h, user, at) ensures ReadBy(r, {}, user) == Read(h, user, at) {
      CurrentReads(db, h, last, r, user);
    }
    assert ReaderInv(r, db.revived, db', h);
    ReadersStay(db, db', h);
  }

  lemma EndReadKeeps(db: DB, h: set<Entry>, last: Record, i: nat)
    requires Inv(db, h, last) && ReadersInv(db, h) && i < |db.readers|
    ensures Inv(EndRead(db, i), h, last) && ReadersInv(EndRead(db, i), h)
  {
    ReadersAside(db, EndRead(db, i), h, last);
    ReadersStay(db, EndRead(db, i), h);
  }

  /** The rest of the invariant does not look at the readers. */
  lemma ReadersAside(db: DB, db': DB, h: set<Entry>, last: Record)
    requires Inv(db, h, last) && db' == db.(readers := db'.readers, begun := db'.begun)
    ensures Inv(db', h, last)
  {
    MemoryStays(db, db');
    DiskStays(db, db', h, last);
    assert Stored(db') == Stored(db) && SmallestSnapshot(db') == SmallestSnapshot(db);
    ReadsStay(db, db', h);
  }

  // ----- and stays undisturbed -----

  /** Steps that touch no table: the readers there were are as they were. */
  lemma ReadersStay(db: DB, db': DB, h: set<Entry>)
    requires ReadersInv(db, h) && db'.disk.tables == db.disk.tables
    requires db.lastSequence <= db'.lastSequence && db.nextFile <= db'.nextFile
    ensures forall i :: 0 <= i < |db.readers| ==> ReaderInv(db.readers[i], db.begun[i], db', h)
  {
  }

  lemma LogGrows(begun: Revivals, r: Reader, h: set<Entry>, more: set<Entry>)
    requires ReadsAs(begun, r, h) && Distinct(h) && forall e :: e in more ==> e.key.seqno > r.at
    ensures ReadsAs(begun, r, h + more)
  {
    forall user | Settled(begun, h + more, user, r.at) ensures ReadBy(r, {}, user) == Read(h + more, user, r.at) {
      ReadIgnoresFuture(h, more, user, r.at);
    }
  }

  lemma AppendLeavesReaders(db: DB, h: set<Entry>, ops: seq<Op>)
    requires ReadersInv(db, h) && AppendReady(db, ops) && Distinct(h)
    ensures ReadersInv(AppendToLog(db, ops), h + Elements(Stamp(ops, db.lastSequence + 1)))
  {
    ReadersStay(db, AppendToLog(db, ops), h);
    StampAbove(ops, db.lastSequence);
    MoreLeavesReaders(AppendToLog(db, ops), h, Elements(Stamp(ops, db.lastSequence + 1)));
  }

  lemma StampAbove(ops: seq<Op>, top: nat)
    requires top + 1 + |ops| <= MAX_SEQUENCE
    ensures forall e :: e in Elements(Stamp(ops, top + 1)) ==> e.key.seqno > top
  {
  }

  lemma MoreLeavesReaders(db: DB, h: set<Entry>, more: set<Entry>)
    requires ReadersInv(db, h) && Distinct(h) && forall e :: e in more ==> e.key.seqno > db.lastSequence
    ensures ReadersInv(db, h + more)
  {
    forall i | 0 <= i < |db.readers| ensures ReaderInv(db.readers[i], db.begun[i], db, h + more) {
      LogGrows(db.begun[i], db.readers[i], h, more);
    }
  }

  /** Tables are written under new numbers. */
  lemma HeldThroughWrites(levels: Levels, tables: map<nat, seq<Entry>>, nextFile: nat, files: seq<File>, nextFile': nat)
    requires HeldOnDisk(levels, tables, nextFile) && nextFile <= nextFile'
    requires forall f :: f in files ==> nextFile <= f.number
    ensures HeldOnDisk(levels, WriteTables(tables, files), nextFile')
  {
    var tables' := WriteTables(tables, files);
    forall l, f | 0 <= l < |levels| && f in levels[l]
      ensures f.number < nextFile' && f.number in tables' && tables'[f.number] == f.table
    {
      WriteTablesAt(tables, files, f.number);
    }
  }

  lemma WritesLeaveReaders(db: DB, db': DB, h: set<Entry>, files: seq<File>)
    requires ReadersInv(db, h) && db'.readers == db.readers && db'.lastSequence == db.lastSequence
    requires db'.begun == db.begun
    requires db'.disk.tables == WriteTables(db.disk.tables, files) && db.nextFile <= db'.nextFile
    requires forall f :: f in files ==> db.nextFile <= f.number
    ensures ReadersInv(db', h)
  {
    forall i | 0 <= i < |db.readers| ensures ReaderInv(db.readers[i], db.begun[i], db', h) {
      HeldThroughWrites(db.readers[i].levels, db.disk.tables, db.nextFile, files, db'.nextFile);
    }
  }

  /** And no table of a version that a reader holds is deleted. */
  lemma HeldThroughDeletion(levels: Levels, tables: map<nat, seq<Entry>>, nextFile: nat, live: set<nat>)
    requires HeldOnDisk(levels, tables, nextFile) && LiveNumbers(levels) <= live
    ensures HeldOnDisk(levels, map n | n in tables && n in live :: tables[n], nextFile)
  {
    forall l, f | 0 <= l < |levels| && f in levels[l] ensures f.number in live {
      assert levels[l] in levels && f.number in LiveNumbers(levels);
    }
  }

  lemma DeletionLeavesReaders(db: DB, h: set<Entry>)
    requires ReadersInv(db, h)
    ensures ReadersInv(DeleteObsolete(db), h)
  {
    var live := LiveNumbers(db.levels) + HeldNumbers(db.readers) + PendingOutputs(db.background);
    forall i | 0 <= i < |db.readers| ensures ReaderInv(db.readers[i], db.begun[i], DeleteObsolete(db), h) {
      var r := db.readers[i];
      assert r in db.readers && LiveNumbers(r.levels) <= HeldNumbers(db.readers);
      HeldThroughDeletion(r.levels, db.disk.tables, db.nextFile, live);
    }
  }
}
