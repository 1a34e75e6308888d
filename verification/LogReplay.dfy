/** DBImpl::Recover and RecoverLogFile: rebuilding tables and a memtable from the kept logs (db/db_impl.cc). */
module LogReplay {
  import opened Keys
  import opened Reads
  import opened Version
  import opened Builder
  import opened Compacting
  import opened Install
  import opened Manifest
  import opened Engine
  import opened Invariant
  import opened Steps
  import opened FlushSteps

  /** What a recovery has gathered so far: tables written, the open memtable, numbers handed out. */
  datatype Progress = Progress(files: seq<File>, mem: seq<Entry>, nextFile: nat, maxSequence: Sequence,
      saveManifest: bool)

  /** Everything replayed so far, `done`, is in the tables or the memtable, in order. */
  ghost predicate Replayed(r: Progress, first: nat, done: set<Entry>) {
    && InWritingOrder(r.files) && (forall f :: f in r.files ==> first <= f.number < r.nextFile) && first <= r.nextFile
    && Sorted(r.mem) && AllBelow(Contents(r.files), Elements(r.mem))
    && Contents(r.files) + Elements(r.mem) == done
    && (r.files != [] ==> r.saveManifest)
    && (forall e :: e in done ==> e.key.seqno <= r.maxSequence)
    && (r.maxSequence == 0 || exists e :: e in done && e.key.seqno == r.maxSequence)
  }

  function WithBatch(r: Progress, b: Batch): Progress {
    var last := if b == [] then 0 else b[|b| - 1].key.seqno;
    r.(mem := InsertAll(r.mem, b), maxSequence := if last > r.maxSequence then last else r.maxSequence)
  }

  lemma BatchReplayed(r: Progress, first: nat, done: set<Entry>, b: Batch)
    requires Replayed(r, first, done) && Increasing(b) && AllBelow(done, Elements(b))
    ensures Replayed(WithBatch(r, b), first, done + Elements(b))
  {
    InsertAllKeeps(r.mem, b);
    if b != [] {
      assert b[|b| - 1] in Elements(b);
      forall e | e in Elements(b) ensures e.key.seqno <= b[|b| - 1].key.seqno { var i :| 0 <= i < |b| && b[i] == e; }
    }
  }

  /** WriteLevel0Table without a base version: always level 0; an empty memtable makes no table. */
  function WithTable(r: Progress, size: nat): Progress
    requires Sorted(r.mem)
  {
    if r.mem == [] then r.(nextFile := r.nextFile + 1, saveManifest := true)
    else Progress(r.files + [FinishedFile(r.nextFile, size, r.mem)], [], r.nextFile + 1, r.maxSequence, true)
  }

  lemma TableReplayed(r: Progress, first: nat, done: set<Entry>, size: nat)
    requires Replayed(r, first, done)
    ensures Replayed(WithTable(r, size), first, done) && WithTable(r, size).mem == []
  {
    if r.mem != [] {
      var f := FinishedFile(r.nextFile, size, r.mem);
      TableAppended(r.files, f);
      assert Elements(f.table) == Elements(r.mem);
    }
  }

  lemma TableAppended(files: seq<File>, f: File)
    requires InWritingOrder(files) && ValidFile(f) && AllBelow(Contents(files), Elements(f.table))
    requires forall g :: g in files ==> g.number < f.number
    ensures InWritingOrder(files + [f])
    ensures Contents(files + [f]) == Contents(files) + Elements(f.table)
  {
    assert forall i :: 0 <= i < |files| ==> files[i] in files;
    forall i, j | 0 <= i < j < |files + [f]|
      ensures (files + [f])[i].number < (files + [f])[j].number
      ensures AllBelow(Elements((files + [f])[i].table), Elements((files + [f])[j].table))
    {
      if j == |files| {
        forall d | d in Elements(files[i].table) ensures d in Contents(files) {}
      }
    }
  }

  lemma PrefixEntries(log: seq<Batch>, i: nat)
    requires LogOrdered(log) && i < |log|
    ensures BatchEntries(log[..i + 1]) == BatchEntries(log[..i]) + Elements(log[i])
    ensures AllBelow(BatchEntries(log[..i]), Elements(log[i]))
    ensures log[i] in log
  {
    assert log[..i + 1] == log[..i] + [log[i]];
    BatchEntriesAppend(log[..i], log[i]);
    forall d, e | d in BatchEntries(log[..i]) && e in Elements(log[i]) ensures d.key.seqno < e.key.seqno {
      var b :| b in log[..i] && d in b;
      var j :| 0 <= j < i && log[j] == b;
      assert d in Elements(log[j]);
    }
  }

  lemma SomeBatch(log: seq<Batch>, i: nat, e: Entry)
    requires i < |log| && e in log[i]
    ensures e in BatchEntries(log)
  {
    assert log[i] in log;
  }

  /** After `i` records of a log; `compactions` counts the tables written. */
  ghost predicate FileReplayed(start: Progress, log: seq<Batch>, i: nat, r: Progress, compactions: nat, memOpen: bool,
                               first: nat, done: set<Entry>)
  {
    && i <= |log| && Replayed(r, first, done + BatchEntries(log[..i]))
    && (!memOpen ==> r.mem == [])
    && start.nextFile <= r.nextFile && (start.saveManifest ==> r.saveManifest)
    && (compactions == 0 ==> Elements(r.mem) == BatchEntries(log[..i]))
  }

  /** One record of the log; the memtable may have grown past the write buffer size. */
  method ReplayRecord(log: seq<Batch>, i: nat, r: Progress, compactions: nat, ghost memOpen: bool,
                      ghost start: Progress, ghost first: nat, ghost done: set<Entry>)
    returns (r': Progress, compactions': nat, memOpen': bool)
    requires LogOrdered(log) && AllBelow(done, BatchEntries(log)) && i < |log|
    requires FileReplayed(start, log, i, r, compactions, memOpen, first, done)
    ensures FileReplayed(start, log, i + 1, r', compactions', memOpen', first, done)
  {
    PrefixEntries(log, i);
    forall e | e in Elements(log[i]) ensures e in BatchEntries(log) { SomeBatch(log, i, e); }
    BatchReplayed(r, first, done + BatchEntries(log[..i]), log[i]);
    NextReplayed(r, log, i, compactions, done);
    r', compactions', memOpen' := WithBatch(r, log[i]), compactions, true;
    var full: bool := *;
    if full {
      compactions' := compactions' + 1;
      var size: nat := *;
      TableReplayed(r', first, done + BatchEntries(log[..i + 1]), size);
      r' := WithTable(r', size);
      memOpen' := false;
    }
  }

  /**
   * Replaying one log. The memtable is kept, with the log, for the last log when logs are reused and no table
   * was written.
   */
  method RecoverLogFile(log: seq<Batch>, lastLog: bool, reuseLogs: bool, start: Progress, ghost first: nat,
                        ghost done: set<Entry>)
    returns (r: Progress, reused: bool)
    requires LogOrdered(log) && AllBelow(done, BatchEntries(log))
    requires Replayed(start, first, done) && start.mem == []
    ensures Replayed(r, first, done + BatchEntries(log))
    ensures reused ==> lastLog && Elements(r.mem) == BatchEntries(log)
    ensures start.nextFile <= r.nextFile && (start.saveManifest ==> r.saveManifest)
    ensures !reused ==> r.mem == []
  {
    r := start;
    var compactions, memOpen := 0, false;
    assert BatchEntries([]) == {};
    for i := 0 to |log|
      invariant FileReplayed(start, log, i, r, compactions, memOpen, first, done)
    {
      r, compactions, memOpen := ReplayRecord(log, i, r, compactions, memOpen, start, first, done);
    }
    assert log[..|log|] == log;
    reused := reuseLogs && lastLog && compactions == 0;
    if !reused && memOpen {
      var size: nat := *;
      TableReplayed(r, first, done + BatchEntries(log), size);
      r := WithTable(r, size);
    }
  }

  lemma NextReplayed(r: Progress, log: seq<Batch>, i: nat, compactions: nat, done: set<Entry>)
    requires i < |log| && LogOrdered(log) && Sorted(r.mem)
    requires compactions == 0 ==> Elements(r.mem) == BatchEntries(log[..i])
    ensures compactions == 0 ==> Elements(WithBatch(r, log[i]).mem) == BatchEntries(log[..i + 1])
    ensures (done + BatchEntries(log[..i])) + Elements(log[i]) == done + BatchEntries(log[..i + 1])
  {
    PrefixEntries(log, i);
    if compactions == 0 { InsertAllKeeps(r.mem, log[i]); }
  }

  // ----- all logs -----

  function InsertNumber(s: seq<nat>, n: nat): (r: seq<nat>)
    requires forall i, j :: 0 <= i < j < |s| ==> s[i] < s[j]
    requires n !in s
    ensures forall i, j :: 0 <= i < j < |r| ==> r[i] < r[j]
    ensures forall m :: m in r <==> m in s || m == n
  {
    if s == [] || n < s[0] then [n] + s
    else
      var rest := InsertNumber(s[1..], n);
      assert forall i :: 0 <= i < |rest| ==> rest[i] in rest;
      [s[0]] + rest
  }

  /** The numbers of the logs to replay, in order. */
  method KeptLogNumbers(logs: map<nat, seq<Batch>>, minLog: nat) returns (numbers: seq<nat>)
    ensures forall i, j :: 0 <= i < j < |numbers| ==> numbers[i] < numbers[j]
    ensures forall n :: n in numbers <==> n in logs && n >= minLog
  {
    numbers := [];
    var todo := logs.Keys;
    while todo != {}
      invariant todo <= logs.Keys
      invariant forall i, j :: 0 <= i < j < |numbers| ==> numbers[i] < numbers[j]
      invariant forall n :: n in numbers <==> n in logs && n !in todo && n >= minLog
      decreases |todo|
    {
      var n :| n in todo;
      if n >= minLog {
        numbers := InsertNumber(numbers, n);
      }
      todo := todo - {n};
    }
  }

  ghost function EntriesOf(logs: map<nat, seq<Batch>>, numbers: seq<nat>): set<Entry> {
    set n, e | n in numbers && n in logs && e in BatchEntries(logs[n]) :: e
  }

  lemma NextLog(logs: map<nat, seq<Batch>>, low: nat, numbers: seq<nat>, i: nat)
    requires LogsOrdered(logs, low) && i < |numbers|
    requires forall j, k :: 0 <= j < k < |numbers| ==> numbers[j] < numbers[k]
    requires forall n :: n in numbers ==> n in logs && n >= low
    ensures AllBelow(EntriesOf(logs, numbers[..i]), BatchEntries(logs[numbers[i]]))
    ensures EntriesOf(logs, numbers[..i + 1]) == EntriesOf(logs, numbers[..i]) + BatchEntries(logs[numbers[i]])
  {
    var n := numbers[i];
    assert numbers[..i + 1] == numbers[..i] + [n];
    forall d, e | d in EntriesOf(logs, numbers[..i]) && e in BatchEntries(logs[n]) ensures d.key.seqno < e.key.seqno {
      var m :| m in numbers[..i] && m in logs && d in BatchEntries(logs[m]);
      assert AllBelow(BatchEntries(logs[m]), BatchEntries(logs[n]));
    }
  }

  lemma AllKept(logs: map<nat, seq<Batch>>, low: nat, numbers: seq<nat>)
    requires forall n :: n in numbers <==> n in logs && n >= low
    ensures EntriesOf(logs, numbers) == LogEntries(logs, low)
  {
    forall e ensures e in EntriesOf(logs, numbers) <==> e in LogEntries(logs, low) {
      LogEntriesIs(logs, low, e);
      if e in LogEntries(logs, low) {
        var n :| n in logs && n >= low && e in BatchEntries(logs[n]);
        assert n in numbers;
      }
    }
  }

  /** After `i` logs. */
  ghost predicate LogsReplayed(logs: map<nat, seq<Batch>>, numbers: seq<nat>, i: nat, r: Progress, reused: bool,
                               first: nat)
  {
    && i <= |numbers| && (forall n :: n in numbers ==> n in logs)
    && Replayed(r, first, EntriesOf(logs, numbers[..i]))
    && (!reused ==> r.mem == [])
    && (reused ==> i > 0 && i == |numbers| && Elements(r.mem) == BatchEntries(logs[numbers[i - 1]]))
    && (forall j :: 0 <= j < i ==> numbers[j] < r.nextFile)
  }

  /** VersionSet::MarkFileNumberUsed */
  function MarkFileNumberUsed(r: Progress, n: nat): Progress {
    if r.nextFile <= n then r.(nextFile := n + 1) else r
  }

  method ReplayLogs(logs: map<nat, seq<Batch>>, numbers: seq<nat>, reuseLogs: bool, saveManifest: bool, nextFile: nat,
                    ghost low: nat, ghost first: nat)
    returns (r: Progress, reused: bool)
    requires LogsOrdered(logs, low) && first <= nextFile
    requires forall j, k :: 0 <= j < k < |numbers| ==> numbers[j] < numbers[k]
    requires forall n :: n in numbers <==> n in logs && n >= low
    ensures LogsReplayed(logs, numbers, |numbers|, r, reused, first)
    ensures saveManifest ==> r.saveManifest
    ensures nextFile <= r.nextFile
  {
    r, reused := Progress([], [], nextFile, 0, saveManifest), false;
    for i := 0 to |numbers|
      invariant LogsReplayed(logs, numbers, i, r, reused, first)
      invariant (saveManifest ==> r.saveManifest) && nextFile <= r.nextFile && (reused ==> i == |numbers|)
    {
      r, reused := ReplayLog(logs, numbers, i, reuseLogs, r, low, first);
    }
  }

  method ReplayLog(logs: map<nat, seq<Batch>>, numbers: seq<nat>, i: nat, reuseLogs: bool, before: Progress,
                   ghost low: nat, ghost first: nat)
    returns (r: Progress, reused: bool)
    requires LogsOrdered(logs, low) && i < |numbers|
    requires forall j, k :: 0 <= j < k < |numbers| ==> numbers[j] < numbers[k]
    requires forall n :: n in numbers ==> n in logs && n >= low
    requires LogsReplayed(logs, numbers, i, before, false, first)
    ensures LogsReplayed(logs, numbers, i + 1, r, reused, first)
    ensures before.nextFile <= r.nextFile && (before.saveManifest ==> r.saveManifest)
  {
    var n := numbers[i];
    NextLog(logs, low, numbers, i);
    var after;
    after, reused :=
        RecoverLogFile(logs[n], i == |numbers| - 1, reuseLogs, before, first, EntriesOf(logs, numbers[..i]));
    r := MarkFileNumberUsed(after, n);
    LogDone(logs, numbers, i, before, after, reused, first);
  }

  lemma LogDone(logs: map<nat, seq<Batch>>, numbers: seq<nat>, i: nat, before: Progress, r: Progress, reused: bool,
                first: nat)
    requires i < |numbers| && LogsReplayed(logs, numbers, i, before, false, first) && before.nextFile <= r.nextFile
    requires Replayed(r, first, EntriesOf(logs, numbers[..i + 1]))
    requires !reused ==> r.mem == []
    requires reused ==> i == |numbers| - 1 && Elements(r.mem) == BatchEntries(logs[numbers[i]])
    ensures LogsReplayed(logs, numbers, i + 1, MarkFileNumberUsed(r, numbers[i]), reused, first)
  {
  }
}
