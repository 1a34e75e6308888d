/** Group commit: writers queue up, the front one logs and applies a group for all (db/db_impl.cc, Write). */
module WriteQueue {
  import opened Keys
  import opened Reads
  import opened Version
  import opened Engine
  import opened Invariant
  import opened Steps
  import opened Store

  /** A waiting writer. `size` is the byte size of its batch; a writer without a batch only waits its turn. */
  datatype Writer = Writer(batch: Option<seq<Op>>, size: nat, sync: bool)

  function OpsOf(writers: seq<Writer>): seq<Op> {
    if writers == [] then []
    else
      var last := writers[|writers| - 1];
      OpsOf(writers[..|writers| - 1]) + if last.batch.Some? then last.batch.value else []
  }

  lemma {:induction false} OpsOfConcat(a: seq<Writer>, b: seq<Writer>)
    ensures OpsOf(a + b) == OpsOf(a) + OpsOf(b)
  {
    if b == [] {
      assert a + b == a;
    } else {
      OpsOfConcat(a, b[..|b| - 1]);
      assert (a + b)[..|a + b| - 1] == a + b[..|b| - 1];
    }
  }

  // ----- the choice of a group -----

  function TotalSize(writers: seq<Writer>): nat {
    if writers == [] then 0
    else
      var last := writers[|writers| - 1];
      TotalSize(writers[..|writers| - 1]) + if last.batch.Some? then last.size else 0
  }

  /** A small leading write limits how far the group may grow. */
  function MaxSize(first: Writer): nat {
    if first.size <= 0x20000 then first.size + 0x20000 else 0x100000
  }

  /** The writer at `i` may join the group of the front writer. */
  predicate MayJoin(queue: seq<Writer>, i: nat)
    requires i < |queue|
  {
    && !(queue[i].sync && !queue[0].sync)
    && (queue[i].batch.Some? ==> TotalSize(queue[..i + 1]) <= MaxSize(queue[0]))
  }

  /** A group is the longest stretch of the queue, from its front, of writers that may join. */
  ghost predicate IsGroup(queue: seq<Writer>, n: nat) {
    && 1 <= n <= |queue|
    && (forall i :: 1 <= i < n ==> MayJoin(queue, i))
    && (n < |queue| ==> !MayJoin(queue, n))
  }

  /**
   * BuildBatchGroup. A group of one batch is written as it is; otherwise the batches are gathered in
   * tmp_batch_, which must be empty.
   */
  method BuildBatchGroup(queue: seq<Writer>, tmp: seq<Op>) returns (lastWriter: nat, result: seq<Op>, tmp': seq<Op>)
    requires queue != [] && queue[0].batch.Some? && tmp == []
    ensures IsGroup(queue, lastWriter + 1)
    ensures result == OpsOf(queue[..lastWriter + 1])
    ensures tmp' == [] || tmp' == result
  {
    var first := queue[0];
    var size, maxSize := first.size, 0x100000;
    if size <= 0x20000 {
      maxSize := size + 0x20000;
    }
    lastWriter, result, tmp' := 0, first.batch.value, tmp;
    var usesTmp := false;
    assert queue[..1][..0] == [];
    for iter := 1 to |queue|
      invariant lastWriter == iter - 1
      invariant forall i :: 1 <= i < iter ==> MayJoin(queue, i)
      invariant size == TotalSize(queue[..iter]) && maxSize == MaxSize(first)
      invariant result == OpsOf(queue[..iter])
      invariant tmp' == if usesTmp then result else []
    {
      var w := queue[iter];
      assert queue[..iter + 1][..iter] == queue[..iter];
      if w.sync && !first.sync {
        break;
      }
      if w.batch.Some? {
        size := size + w.size;
        if size > maxSize {
          break;
        }
        if !usesTmp {
          tmp', usesTmp := result, true;
        }
        tmp' := tmp' + w.batch.value;
        result := tmp';
      }
      lastWriter := iter;
    }
  }

  lemma {:induction false} JoinedFits(queue: seq<Writer>, k: nat)
    requires 1 <= k <= |queue| && queue[0].batch.Some? && forall i :: 1 <= i < k ==> MayJoin(queue, i)
    ensures TotalSize(queue[..k]) == queue[0].size || TotalSize(queue[..k]) <= MaxSize(queue[0])
  {
    assert queue[..k][..k - 1] == queue[..k - 1];
    if k > 1 {
      JoinedFits(queue, k - 1);
      assert MayJoin(queue, k - 1);
    } else {
      assert queue[..1][..0] == [] && queue[..1][0] == queue[0];
    }
  }

  /**
   * A small leading write takes at most 128 kilobytes more with it, a larger one at most a megabyte in all; and the
   * next writer is left out because its batch would be too much, or because it syncs and the leader does not.
   */
  lemma GroupIsBounded(queue: seq<Writer>, n: nat)
    requires IsGroup(queue, n) && queue[0].batch.Some?
    ensures var size, limit := TotalSize(queue[..n]),
                if queue[0].size <= 131072 then queue[0].size + 131072 else 1048576;
      && (size <= limit || size == queue[0].size)
      && (n < |queue| ==>
           || (queue[n].sync && !queue[0].sync)
           || (queue[n].batch.Some? && size + queue[n].size > limit))
  {
    JoinedFits(queue, n);
    if n < |queue| {
      assert queue[..n + 1][..n] == queue[..n];
    }
  }

  /** A sync write is never logged by a writer that does not sync. */
  lemma NoSyncUnderNonSync(queue: seq<Writer>, n: nat, i: nat)
    requires IsGroup(queue, n) && i < n && queue[i].sync
    ensures queue[0].sync
  {
    assert i > 0 ==> MayJoin(queue, i);
  }

  // ----- the protocol -----

  /** What the front writer is doing; the mutex is free while it logs and inserts. */
  datatype Phase =
    | Resting
    | Logging(n: nat, batch: Batch)
    | Inserting(n: nat, batch: Batch, inserted: nat)

  /** `completed` lists the writers whose Write has returned or been told that it is done. */
  datatype Queue = Queue(writers: seq<Writer>, phase: Phase, log: seq<Batch>, mem: set<Entry>, lastSequence: nat,
                         tmp: seq<Op>, completed: seq<Writer>)

  const START := Queue([], Resting, [], {}, 0, [], [])

  datatype Move =
    | Arrive(w: Writer)
    | Lead(n: nat, tmp: seq<Op>)
    | PassAlone
    | AddRecord
    | InsertNext
    | Finish

  ghost predicate May(q: Queue, m: Move) {
    match m
    case Arrive(_) => true
    case Lead(n, tmp) =>
      && q.phase.Resting? && q.writers != [] && q.writers[0].batch.Some?
      && IsGroup(q.writers, n) && (tmp == [] || tmp == OpsOf(q.writers[..n]))
      && q.lastSequence + 1 + |OpsOf(q.writers[..n])| < MAX_SEQUENCE
    case PassAlone => q.phase.Resting? && q.writers != [] && q.writers[0].batch.None?
    case AddRecord => q.phase.Logging?
    case InsertNext => q.phase.Inserting? && q.phase.inserted < |q.phase.batch|
    case Finish => q.phase.Inserting? && q.phase.inserted == |q.phase.batch| && q.phase.n <= |q.writers|
  }

  ghost function After(q: Queue, m: Move): Queue
    requires May(q, m)
  {
    match m
    case Arrive(w) => q.(writers := q.writers + [w])
    case Lead(n, tmp) => q.(phase := Logging(n, Stamp(OpsOf(q.writers[..n]), q.lastSequence + 1)), tmp := tmp)
    case PassAlone => q.(writers := q.writers[1..], completed := q.completed + [q.writers[0]])
    case AddRecord => q.(log := q.log + [q.phase.batch], phase := Inserting(q.phase.n, q.phase.batch, 0))
    case InsertNext =>
      q.(mem := q.mem + {q.phase.batch[q.phase.inserted]}, phase := q.phase.(inserted := q.phase.inserted + 1))
    case Finish =>
      q.(phase := Resting, tmp := [], lastSequence := q.lastSequence + |q.phase.batch|,
         writers := q.writers[q.phase.n..], completed := q.completed + q.writers[..q.phase.n])
  }

  ghost predicate Run(moves: seq<Move>)
    decreases moves, 0
  {
    moves == [] || (Run(moves[..|moves| - 1]) && May(Reached(moves[..|moves| - 1]), moves[|moves| - 1]))
  }

  ghost function Reached(moves: seq<Move>): Queue
    requires Run(moves)
    decreases moves, 1
  {
    if moves == [] then START else After(Reached(moves[..|moves| - 1]), moves[|moves| - 1])
  }

  function Arrivals(moves: seq<Move>): seq<Writer> {
    if moves == [] then []
    else
      var before := Arrivals(moves[..|moves| - 1]);
      match moves[|moves| - 1]
      case Arrive(w) => before + [w]
      case _ => before
  }

  function Flat(log: seq<Batch>): seq<Entry> {
    if log == [] then [] else Flat(log[..|log| - 1]) + log[|log| - 1]
  }

  /** The group at work, if any. */
  function GroupSize(q: Queue): nat {
    match q.phase
    case Resting => 0
    case Logging(n, _) => n
    case Inserting(n, _, _) => n
  }

  /** What the group at work is: the first `n` writers, their operations numbered from the published last one on. */
  ghost predicate AtWork(q: Queue, n: nat, batch: Batch) {
    && 1 <= n <= |q.writers| && q.writers[0].batch.Some?
    && (forall i :: 1 <= i < n ==> MayJoin(q.writers, i))
    && q.lastSequence + 1 + |OpsOf(q.writers[..n])| < MAX_SEQUENCE
    && batch == Stamp(OpsOf(q.writers[..n]), q.lastSequence + 1)
    && (q.tmp == [] || q.tmp == OpsOf(q.writers[..n]))
  }

  ghost predicate QueueInv(q: Queue, arrived: seq<Writer>) {
    && q.completed + q.writers == arrived
    && q.lastSequence == |OpsOf(q.completed)| && q.lastSequence + 1 < MAX_SEQUENCE
    && (match q.phase
        case Resting => q.tmp == [] && Flat(q.log) == Published(q) && q.mem == Elements(Published(q))
        case Logging(n, batch) => AtWork(q, n, batch) && Flat(q.log) == Published(q) && q.mem == Elements(Published(q))
        case Inserting(n, batch, k) =>
          AtWork(q, n, batch) && Flat(q.log) == Published(q) + batch && k <= |batch|
          && q.mem == Elements(Published(q)) + Elements(batch[..k]))
  }

  /** The entries of all completed writers. */
  ghost function Published(q: Queue): seq<Entry> {
    if |OpsOf(q.completed)| < MAX_SEQUENCE then Stamp(OpsOf(q.completed), 1) else []
  }

  lemma ArriveKeeps(q: Queue, arrived: seq<Writer>, w: Writer)
    requires QueueInv(q, arrived)
    ensures QueueInv(After(q, Arrive(w)), arrived + [w])
  {
    var q' := After(q, Arrive(w));
    assert q'.completed + q'.writers == arrived + [w];
    if GroupSize(q) > 0 {
      assert q'.writers[..GroupSize(q)] == q.writers[..GroupSize(q)];
      forall i | 1 <= i < GroupSize(q) ensures MayJoin(q'.writers, i) {
        assert q'.writers[..i + 1] == q.writers[..i + 1];
        assert MayJoin(q.writers, i);
      }
    }
  }

  lemma LeadKeeps(q: Queue, arrived: seq<Writer>, n: nat, tmp: seq<Op>)
    requires QueueInv(q, arrived) && May(q, Lead(n, tmp))
    ensures QueueInv(After(q, Lead(n, tmp)), arrived)
  {
  }

  lemma PassAloneKeeps(q: Queue, arrived: seq<Writer>)
    requires QueueInv(q, arrived) && May(q, PassAlone)
    ensures QueueInv(After(q, PassAlone), arrived)
  {
    var q' := After(q, PassAlone);
    assert q'.completed[..|q.completed|] == q.completed;
    assert OpsOf(q'.completed) == OpsOf(q.completed);
    assert q'.completed + q'.writers == arrived;
  }

  lemma AddRecordKeeps(q: Queue, arrived: seq<Writer>)
    requires QueueInv(q, arrived) && May(q, AddRecord)
    ensures QueueInv(After(q, AddRecord), arrived)
  {
    var q' := After(q, AddRecord);
    assert q'.log[..|q.log|] == q.log;
    assert Elements(q.phase.batch[..0]) == {};
  }

  lemma InsertNextKeeps(q: Queue, arrived: seq<Writer>)
    requires QueueInv(q, arrived) && May(q, InsertNext)
    ensures QueueInv(After(q, InsertNext), arrived)
  {
    var batch, k := q.phase.batch, q.phase.inserted;
    assert batch[..k + 1] == batch[..k] + [batch[k]];
    assert Elements(batch[..k + 1]) == Elements(batch[..k]) + {batch[k]};
  }

  lemma FinishKeeps(q: Queue, arrived: seq<Writer>)
    requires QueueInv(q, arrived) && May(q, Finish)
    ensures QueueInv(After(q, Finish), arrived)
  {
    var q', n, batch := After(q, Finish), q.phase.n, q.phase.batch;
    assert q.writers == q.writers[..n] + q.writers[n..];
    assert q'.completed + q'.writers == arrived;
    OpsOfConcat(q.completed, q.writers[..n]);
    StampConcat(OpsOf(q.completed), OpsOf(q.writers[..n]));
    assert batch[..|batch|] == batch;
  }

  lemma StampConcat(a: seq<Op>, b: seq<Op>)
    requires |a| + |b| < MAX_SEQUENCE
    ensures Stamp(a + b, 1) == Stamp(a, 1) + Stamp(b, |a| + 1)
    ensures Elements(Stamp(a + b, 1)) == Elements(Stamp(a, 1)) + Elements(Stamp(b, |a| + 1))
  {
    var all, x, y := Stamp(a + b, 1), Stamp(a, 1), Stamp(b, |a| + 1);
    assert all == x + y;
  }

  lemma {:induction false} RunKeeps(moves: seq<Move>)
    requires Run(moves)
    ensures QueueInv(Reached(moves), Arrivals(moves))
    decreases moves
  {
    if moves == [] {
      assert OpsOf([]) == [] && Flat([]) == [] && Elements([]) == {};
    } else {
      var init, m := moves[..|moves| - 1], moves[|moves| - 1];
      RunKeeps(init);
      match m {
        case Arrive(w) => ArriveKeeps(Reached(init), Arrivals(init), w);
        case Lead(n, tmp) => LeadKeeps(Reached(init), Arrivals(init), n, tmp);
        case PassAlone => PassAloneKeeps(Reached(init), Arrivals(init));
        case AddRecord => AddRecordKeeps(Reached(init), Arrivals(init));
        case InsertNext => InsertNextKeeps(Reached(init), Arrivals(init));
        case Finish => FinishKeeps(Reached(init), Arrivals(init));
      }
    }
  }

  // ----- what every run satisfies -----

  /**
   * Writers are completed in the order they arrived, each once: what is completed and what still waits is
   * what arrived.
   */
  lemma CompletedInOrder(moves: seq<Move>)
    requires Run(moves)
    ensures Reached(moves).completed + Reached(moves).writers == Arrivals(moves)
    ensures Reached(moves).phase.Resting? ==> Reached(moves).tmp == []
  {
    RunKeeps(moves);
  }

  /**
   * The log holds every operation of the completed writers, and of the group at work once logged, one number
   * each, in order.
   */
  lemma LoggedOnce(moves: seq<Move>)
    requires Run(moves)
    ensures var q := Reached(moves);
      var logged := OpsOf(q.completed)
        + if q.phase.Inserting? && q.phase.n <= |q.writers| then OpsOf(q.writers[..q.phase.n]) else [];
      |logged| < MAX_SEQUENCE && Flat(q.log) == Stamp(logged, 1)
    ensures Reached(moves).lastSequence == |OpsOf(Reached(moves).completed)|
  {
    RunKeeps(moves);
    var q := Reached(moves);
    if q.phase.Inserting? {
      StampConcat(OpsOf(q.completed), OpsOf(q.writers[..q.phase.n]));
    } else {
      assert OpsOf(q.completed) + [] == OpsOf(q.completed);
    }
  }

  lemma NextMove(q: Queue, arrived: seq<Writer>)
    requires QueueInv(q, arrived)
    ensures q.phase.Logging? ==> May(q, AddRecord)
    ensures q.phase.Inserting? ==> May(q, InsertNext) || May(q, Finish)
  {
  }

  /** Nothing that arrives while a group is at work can stop the group from finishing. */
  lemma NeverStuck(moves: seq<Move>)
    requires Run(moves)
    ensures var q := Reached(moves);
      && (q.phase.Logging? ==> May(q, AddRecord))
      && (q.phase.Inserting? ==> May(q, InsertNext) || May(q, Finish))
  {
    RunKeeps(moves);
    NextMove(Reached(moves), Arrivals(moves));
  }

  /** A sync write is only ever logged by a leader that syncs. */
  lemma SyncIsKept(moves: seq<Move>, i: nat)
    requires Run(moves) && i < GroupSize(Reached(moves))
    ensures var q := Reached(moves); i < |q.writers| && (q.writers[i].sync ==> q.writers[0].sync)
  {
    RunKeeps(moves);
    var q := Reached(moves);
    assert i > 0 ==> MayJoin(q.writers, i);
  }

  /**
   * All or nothing: at any number that was ever published, whoever reads, and however far the group at work has
   * been inserted, sees exactly the batches completed by then.
   */
  lemma AllOrNothing(moves: seq<Move>, k: nat)
    requires Run(moves) && k <= |Reached(moves).completed|
    ensures var q := Reached(moves);
      var published := OpsOf(q.completed[..k]);
      && |published| < MAX_SEQUENCE
      && forall e :: e in q.mem && e.key.seqno <= |published| <==> e in History(published)
  {
    BeingInsertedIsNew(moves);
    var q := Reached(moves);
    var published, later := OpsOf(q.completed[..k]), OpsOf(q.completed[k..]);
    CompletedSplits(q.completed, k);
    SeenIsWhole(published, later, BeingInserted(q), q.mem);
  }

  /** What of the group at work is in the memtable. */
  ghost function BeingInserted(q: Queue): (r: set<Entry>) {
    if q.phase.Inserting? && q.phase.inserted <= |q.phase.batch| then Elements(q.phase.batch[..q.phase.inserted])
    else {}
  }

  lemma BeingInsertedIsNew(moves: seq<Move>)
    requires Run(moves)
    ensures var q := Reached(moves);
      && q.lastSequence == |OpsOf(q.completed)| < MAX_SEQUENCE
           && q.mem == Elements(Stamp(OpsOf(q.completed), 1)) + BeingInserted(q)
      && forall e :: e in BeingInserted(q) ==> e.key.seqno > q.lastSequence
  {
    RunKeeps(moves);
  }

  lemma CompletedSplits(completed: seq<Writer>, k: nat)
    requires k <= |completed|
    ensures OpsOf(completed) == OpsOf(completed[..k]) + OpsOf(completed[k..])
  {
    assert completed == completed[..k] + completed[k..];
    OpsOfConcat(completed[..k], completed[k..]);
  }

  lemma SeenIsWhole(published: seq<Op>, later: seq<Op>, more: set<Entry>, mem: set<Entry>)
    requires |published| + |later| < MAX_SEQUENCE && mem == Elements(Stamp(published + later, 1)) + more
    requires forall e :: e in more ==> e.key.seqno > |published|
    ensures forall e :: e in mem && e.key.seqno <= |published| <==> e in History(published)
  {
    StampConcat(published, later);
    NumbersAbove(later, |published| + 1);
    HistoryNumbered(published);
  }

  lemma NumbersAbove(ops: seq<Op>, first: nat)
    requires first + |ops| <= MAX_SEQUENCE
    ensures forall e :: e in Elements(Stamp(ops, first)) ==> e.key.seqno >= first
  {
  }

  /** So a read at a published number is a lookup in the store after that many operations of the arrivals. */
  lemma PublishedReads(moves: seq<Move>, k: nat, user: UserKey)
    requires Run(moves) && k <= |Reached(moves).completed|
    ensures var q := Reached(moves);
      var published := OpsOf(q.completed[..k]);
      Read(q.mem, user, |published|) == Lookup(StoreAfter(published, |published|), user)
  {
    AllOrNothing(moves, k);
    var q := Reached(moves);
    var published := OpsOf(q.completed[..k]);
    HistoryReads(published, user, |published|);
    HistoryNumbered(published);
    NumberedDistinct(History(published), |published|);
    ReadByVisible(q.mem, History(published), user, |published|);
  }

  lemma ReadByVisible(s: set<Entry>, t: set<Entry>, user: UserKey, n: nat)
    requires Distinct(t) && forall e :: e in s && e.key.seqno <= n <==> e in t
    ensures Read(s, user, n) == Read(t, user, n)
  {
    forall e ensures Newest(s, user, n, e) <==> Newest(t, user, n, e) {
      forall f ensures Visible(s, user, n, f) <==> Visible(t, user, n, f) {}
    }
    forall e, f | Newest(t, user, n, e) && Newest(t, user, n, f) ensures e == f {
      assert Visible(t, user, n, e) && Visible(t, user, n, f);
    }
  }
}
