/**
 * The queue of writers at work on the database (db/db_impl.cc, Write), from a start or a recovery until the process
 * dies: the leader's moves are steps of the database, and flushes, compactions, deletions and readers come between.
 */
module GroupCommits {
  import opened Keys
  import opened Reads
  import opened Version
  import opened Manifest
  import opened Engine
  import opened Invariant
  import opened Steps
  import opened Store
  import opened Runs
  import Q = WriteQueue

  datatype Joint = Joint(q: Q.Queue, db: DB)

  datatype Event = Writing(m: Q.Move) | Working(s: Step)

  /** The operations of the group at work. */
  function GroupOps(q: Q.Queue): seq<Op> {
    if Q.GroupSize(q) <= |q.writers| then Q.OpsOf(q.writers[..Q.GroupSize(q)]) else []
  }

  /** What a move of the queue does to the database: the group is logged as one batch, inserted and published. */
  function EngineSteps(q: Q.Queue, m: Q.Move): seq<Step> {
    match m
    case AddRecord => [Append(GroupOps(q))]
    case Finish => [Publish]
    case _ => []
  }

  ghost predicate Can(j: Joint, e: Event) {
    match e
    case Writing(m) =>
      && Q.May(j.q, m) && (m.Lead? ==> HasRoom(j, |Q.OpsOf(j.q.writers[..m.n])|))
      && forall s :: s in EngineSteps(j.q, m) ==> Enabled(j.db, s)
    case Working(s) => Enabled(j.db, s) && !s.Append? && !s.Publish? && !s.Crash?
  }

  /** Sequence numbers do not run out with the group. */
  predicate HasRoom(j: Joint, n: nat) {
    j.db.lastSequence + n + 1 < MAX_SEQUENCE
  }

  ghost function Next(j: Joint, e: Event): Joint
    requires Can(j, e)
  {
    match e
    case Writing(m) =>
      var steps := EngineSteps(j.q, m);
      Joint(Q.After(j.q, m), if steps == [] then j.db else Do(j.db, steps[0]))
    case Working(s) => j.(db := Do(j.db, s))
  }

  // ----- sessions -----

  /** What a process does after the run `before` of earlier ones, whose last step was its own start. */
  ghost predicate Session(first: Plan, before: seq<Step>, events: seq<Event>)
    decreases events, 0
  {
    if events == [] then Run(first, before) && Final(first, before).pending.None?
    else Session(first, before, Init(events)) && Can(Reached(first, before, Init(events)), Last(events))
  }

  ghost function Reached(first: Plan, before: seq<Step>, events: seq<Event>): Joint
    requires Session(first, before, events)
    decreases events, 1
  {
    if events == [] then Joint(Q.START, Final(first, before))
    else Next(Reached(first, before, Init(events)), Last(events))
  }

  function Init<T>(s: seq<T>): seq<T>
    requires s != []
  {
    s[..|s| - 1]
  }

  function Last<T>(s: seq<T>): T
    requires s != []
  {
    s[|s| - 1]
  }

  /** The session as the database sees it. */
  ghost function Trace(first: Plan, before: seq<Step>, events: seq<Event>): seq<Step>
    requires Session(first, before, events)
  {
    if events == [] then before
    else
      var q := Reached(first, before, Init(events)).q;
      Trace(first, before, Init(events)) +
      match Last(events)
      case Writing(m) => EngineSteps(q, m)
      case Working(s) => [s]
  }

  /** The session as the queue sees it. */
  function Moves(events: seq<Event>): seq<Q.Move> {
    if events == [] then []
    else
      match Last(events)
      case Writing(m) => Moves(Init(events)) + [m]
      case Working(_) => Moves(Init(events))
  }

  // ----- the two machines, seen from the session -----

  /** Every session is a run of the database, so that all that holds of runs holds of it. */
  lemma {:induction false} SessionIsRun(first: Plan, before: seq<Step>, events: seq<Event>)
    requires Session(first, before, events)
    ensures Run(first, Trace(first, before, events))
    ensures Final(first, Trace(first, before, events)) == Reached(first, before, events).db
    decreases |events|
  {
    if events != [] {
      SessionIsRun(first, before, Init(events));
      var trace, j := Trace(first, before, Init(events)), Reached(first, before, Init(events));
      match Last(events) {
        case Working(s) => RunSnoc(first, trace, s);
        case Writing(m) =>
          var steps := EngineSteps(j.q, m);
          if steps == [] {
            assert trace + [] == trace;
          } else {
            assert steps == [steps[0]] && steps[0] in steps;
            RunSnoc(first, trace, steps[0]);
          }
      }
    }
  }

  /** And it is a run of the queue. */
  lemma {:induction false} SessionIsQueueRun(first: Plan, before: seq<Step>, events: seq<Event>)
    requires Session(first, before, events)
    ensures Q.Run(Moves(events)) && Q.Reached(Moves(events)) == Reached(first, before, events).q
    decreases |events|
  {
    if events != [] {
      SessionIsQueueRun(first, before, Init(events));
      match Last(events) {
        case Working(_) =>
        case Writing(m) => assert (Moves(Init(events)) + [m])[..|Moves(Init(events))|] == Moves(Init(events));
      }
    }
  }

  // ----- queue and database go together -----

  /** The writers that are done, and the group once it is logged. */
  function LoggedOps(q: Q.Queue): seq<Op> {
    Q.OpsOf(q.completed) + if q.phase.Inserting? then GroupOps(q) else []
  }

  /** `ops` are the operations of the earlier runs, `all` those of the session as well. */
  ghost predicate Coupled(j: Joint, ops: seq<Op>, all: seq<Op>) {
    && j.db.lastSequence == |ops| + j.q.lastSequence && all == ops + LoggedOps(j.q)
    && (j.q.phase.Inserting? <==> j.db.pending.Some?)
    && (j.q.phase.Logging? ==> HasRoom(j, |GroupOps(j.q)|))
    && (j.q.phase.Inserting? ==> |j.db.pending.value| == |GroupOps(j.q)|)
  }

  lemma OthersLeaveWrites(db: DB, s: Step)
    requires Enabled(db, s) && !s.Append? && !s.Publish? && !s.Crash?
    ensures Do(db, s).lastSequence == db.lastSequence && Do(db, s).pending == db.pending
  {
  }

  lemma AllOpsSnoc(steps: seq<Step>, s: Step)
    ensures AllOps(steps + [s]) == AllOps(steps) + if s.Append? then s.ops else []
  {
    assert (steps + [s])[..|steps|] == steps;
  }

  /** The moves that leave the database alone. */
  lemma QuietCoupled(j: Joint, arrived: seq<Q.Writer>, m: Q.Move, ops: seq<Op>, all: seq<Op>)
    requires Q.QueueInv(j.q, arrived) && Coupled(j, ops, all) && Can(j, Writing(m)) && EngineSteps(j.q, m) == []
    ensures Coupled(Next(j, Writing(m)), ops, all)
  {
    var q' := Q.After(j.q, m);
    match m {
      case Arrive(w) =>
        if Q.GroupSize(j.q) > 0 {
          assert q'.writers[..Q.GroupSize(j.q)] == j.q.writers[..Q.GroupSize(j.q)];
        }
      case PassAlone =>
        assert q'.completed[..|j.q.completed|] == j.q.completed;
        assert Q.OpsOf(q'.completed) == Q.OpsOf(j.q.completed) + [];
      case _ =>
    }
  }

  lemma AppendCoupled(j: Joint, arrived: seq<Q.Writer>, ops: seq<Op>, all: seq<Op>)
    requires Q.QueueInv(j.q, arrived) && Coupled(j, ops, all) && Can(j, Writing(Q.AddRecord))
    ensures Coupled(Next(j, Writing(Q.AddRecord)), ops, all + GroupOps(j.q))
  {
    assert Append(GroupOps(j.q)) in EngineSteps(j.q, Q.AddRecord);
    var j' := Next(j, Writing(Q.AddRecord));
    assert j'.db == AppendToLog(j.db, GroupOps(j.q));
    assert GroupOps(j'.q) == GroupOps(j.q);
    assert ops + Q.OpsOf(j.q.completed) + GroupOps(j.q) == ops + (Q.OpsOf(j.q.completed) + GroupOps(j.q));
    assert Q.OpsOf(j.q.completed) + [] == Q.OpsOf(j.q.completed);
  }

  lemma PublishCoupled(j: Joint, arrived: seq<Q.Writer>, ops: seq<Op>, all: seq<Op>)
    requires Q.QueueInv(j.q, arrived) && Coupled(j, ops, all) && Can(j, Writing(Q.Finish))
    ensures Coupled(Next(j, Writing(Q.Finish)), ops, all)
  {
    assert EngineSteps(j.q, Q.Finish) == [Publish];
    assert Next(j, Writing(Q.Finish)).db == ApplyPending(j.db);
    Q.OpsOfConcat(j.q.completed, j.q.writers[..j.q.phase.n]);
    assert LoggedOps(Next(j, Writing(Q.Finish)).q) == Q.OpsOf(j.q.completed + j.q.writers[..j.q.phase.n]) + [];
  }

  lemma WritingCoupled(j: Joint, arrived: seq<Q.Writer>, m: Q.Move, ops: seq<Op>, trace: seq<Step>)
    requires Q.QueueInv(j.q, arrived) && Coupled(j, ops, AllOps(trace)) && Can(j, Writing(m))
    ensures Coupled(Next(j, Writing(m)), ops, AllOps(trace + EngineSteps(j.q, m)))
  {
    match m {
      case AddRecord =>
        AppendCoupled(j, arrived, ops, AllOps(trace));
        AllOpsSnoc(trace, Append(GroupOps(j.q)));
      case Finish =>
        PublishCoupled(j, arrived, ops, AllOps(trace));
        AllOpsSnoc(trace, Publish);
      case _ =>
        QuietCoupled(j, arrived, m, ops, AllOps(trace));
        assert trace + [] == trace;
    }
  }

  lemma WorkingCoupled(j: Joint, s: Step, ops: seq<Op>, trace: seq<Step>)
    requires Coupled(j, ops, AllOps(trace)) && Can(j, Working(s))
    ensures Coupled(Next(j, Working(s)), ops, AllOps(trace + [s]))
  {
    OthersLeaveWrites(j.db, s);
    AllOpsSnoc(trace, s);
  }

  lemma StartCoupled(first: Plan, before: seq<Step>)
    requires Run(first, before) && Final(first, before).pending.None?
    ensures Coupled(Joint(Q.START, Final(first, before)), AllOps(before), AllOps(before))
  {
    var last := Runs.RunKeeps(first, before);
    assert AllOps(before) + LoggedOps(Q.START) == AllOps(before);
  }

  lemma {:induction false} SessionCoupled(first: Plan, before: seq<Step>, events: seq<Event>)
    requires Session(first, before, events)
    ensures Coupled(Reached(first, before, events), AllOps(before), AllOps(Trace(first, before, events)))
    decreases |events|
  {
    if events == [] {
      StartCoupled(first, before);
    } else {
      SessionCoupled(first, before, Init(events));
      var j, trace := Reached(first, before, Init(events)), Trace(first, before, Init(events));
      match Last(events) {
        case Working(s) => WorkingCoupled(j, s, AllOps(before), trace);
        case Writing(m) =>
          SessionIsQueueRun(first, before, Init(events));
          Q.RunKeeps(Moves(Init(events)));
          WritingCoupled(j, Q.Arrivals(Moves(Init(events))), m, AllOps(before), trace);
      }
    }
  }

  // ----- what holds of every session -----

  lemma Served(j: Joint, ops: seq<Op>, all: seq<Op>, h: set<Entry>, last: Record, m: Q.Move)
    requires Coupled(j, ops, all) && Inv(j.db, h, last) && Q.May(j.q, m)
    requires m.Lead? ==> HasRoom(j, |Q.OpsOf(j.q.writers[..m.n])|)
    ensures Can(j, Writing(m))
  {
  }

  /**
   * The database never refuses the leader: whatever flushes and compactions do meanwhile, a move that the queue allows
   * is one that the database allows, as long as there are sequence numbers for a new group.
   */
  lemma NeverRefused(first: Plan, before: seq<Step>, events: seq<Event>, m: Q.Move)
    requires Session(first, before, events) && Q.May(Reached(first, before, events).q, m)
    requires m.Lead? ==>
      HasRoom(Reached(first, before, events), |Q.OpsOf(Reached(first, before, events).q.writers[..m.n])|)
    ensures Can(Reached(first, before, events), Writing(m))
  {
    var trace := Trace(first, before, events);
    SessionCoupled(first, before, events);
    SessionIsRun(first, before, events);
    var last := Runs.RunKeeps(first, trace);
    Served(Reached(first, before, events), AllOps(before), AllOps(trace), History(AllOps(trace)), last, m);
  }

  /**
   * A batch is seen whole or not at all, through every group, switch, flush, compaction and move: at the number
   * published with any writer, a read is a lookup in the plain map after the batches up to his.
   */
  lemma GroupsReadWhole(first: Plan, before: seq<Step>, events: seq<Event>, k: nat, user: UserKey)
    requires Session(first, before, events) && k <= |Reached(first, before, events).q.completed|
    requires var j := Reached(first, before, events);
      var ops := AllOps(before) + Q.OpsOf(j.q.completed[..k]);
      SmallestSnapshot(j.db) <= |ops| && SettledBy(j.db.revived, ops, user, |ops|)
    ensures var j := Reached(first, before, events);
      var ops := AllOps(before) + Q.OpsOf(j.q.completed[..k]);
      |ops| <= j.db.lastSequence && Read(Content(j.db), user, |ops|) == Lookup(StoreAfter(ops, |ops|), user)
  {
    var q := Reached(first, before, events).q;
    SessionCoupled(first, before, events);
    SessionIsRun(first, before, events);
    PublishedUpTo(first, before, events, k);
    var later := LoggedFront(q, k);
    RegroupOps(AllOps(before), Q.OpsOf(q.completed[..k]), later);
    ReadWhole(first, Trace(first, before, events), AllOps(before) + Q.OpsOf(q.completed[..k]), later, user);
  }

  lemma LoggedFront(q: Q.Queue, k: nat) returns (later: seq<Op>)
    requires k <= |q.completed|
    ensures LoggedOps(q) == Q.OpsOf(q.completed[..k]) + later
  {
    var group := if q.phase.Inserting? then GroupOps(q) else [];
    Q.CompletedSplits(q.completed, k);
    later := Q.OpsOf(q.completed[k..]) + group;
  }

  lemma RegroupOps(a: seq<Op>, b: seq<Op>, c: seq<Op>)
    ensures a + (b + c) == (a + b) + c
  {
  }

  lemma PublishedUpTo(first: Plan, before: seq<Step>, events: seq<Event>, k: nat)
    requires Session(first, before, events) && k <= |Reached(first, before, events).q.completed|
    ensures |Q.OpsOf(Reached(first, before, events).q.completed[..k])| <= Reached(first, before, events).q.lastSequence
  {
    SessionIsQueueRun(first, before, events);
    Q.RunKeeps(Moves(events));
    Q.CompletedSplits(Reached(first, before, events).q.completed, k);
  }

  lemma SettledInAll(revived: Revivals, ops: seq<Op>, later: seq<Op>, user: UserKey)
    requires SettledBy(revived, ops, user, |ops|)
    ensures SettledBy(revived, ops + later, user, |ops|)
  {
    if user in revived {
      var i :| revived[user] <= i < |ops| && ops[i].user == user;
      assert (ops + later)[i].user == user;
    }
  }

  lemma ReadWhole(first: Plan, trace: seq<Step>, ops: seq<Op>, later: seq<Op>, user: UserKey)
    requires Run(first, trace) && AllOps(trace) == ops + later && SmallestSnapshot(Final(first, trace)) <= |ops|
    requires SettledBy(Final(first, trace).revived, ops, user, |ops|)
    ensures Read(Content(Final(first, trace)), user, |ops|) == Lookup(StoreAfter(ops, |ops|), user)
  {
    SettledInAll(Final(first, trace).revived, ops, later, user);
    EveryRunReadsLikeTheStore(first, trace, user, |ops|);
    StoreAfterFront(ops, later);
  }

  lemma StoreAfterFront(ops: seq<Op>, more: seq<Op>)
    ensures StoreAfter(ops + more, |ops|) == StoreAfter(ops, |ops|)
  {
    StoreAfterUpTo(ops, more, |ops|);
  }

  lemma {:induction false} StoreAfterUpTo(ops: seq<Op>, more: seq<Op>, n: nat)
    requires n <= |ops|
    ensures StoreAfter(ops + more, n) == StoreAfter(ops, n)
  {
    if n > 0 {
      StoreAfterUpTo(ops, more, n - 1);
      assert (ops + more)[n - 1] == ops[n - 1];
    }
  }

  /**
   * And it survives the death of the process whole or not at all: what recovery finds is the plain map after the
   * batches of all writers that are done and, if the leader had logged it, the group at work.
   */
  lemma CrashKeepsBatchesWhole(first: Plan, before: seq<Step>, events: seq<Event>, leftovers: seq<File>,
                               newLogs: set<nat>, p: Plan, user: UserKey)
    requires Session(first, before, events)
    requires Run(first, Trace(first, before, events) + [Crash(leftovers, newLogs, p)])
    ensures var q := Reached(first, before, events).q;
      var after := Final(first, Trace(first, before, events) + [Crash(leftovers, newLogs, p)]);
      var ops := AllOps(before) + LoggedOps(q);
      && after.lastSequence == |ops|
      && (SettledBy(Reached(first, before, events).db.revived, ops, user, |ops|) ==>
           Read(Content(after), user, |ops|) == Lookup(StoreAfter(ops, |ops|), user))
  {
    SessionCoupled(first, before, events);
    SessionIsRun(first, before, events);
    CrashLosesNothing(first, Trace(first, before, events), leftovers, newLogs, p, user);
  }
}
