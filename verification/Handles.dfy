/**
 * Over a run, a snapshot or a reader is known by the step that took it: where it stands in its list, what it holds, and
 * that it goes when it is the one released, and not before (db/db_impl.cc, GetSnapshot, ReleaseSnapshot and Get).
 */
module Handles {
  import opened Keys
  import opened Reads
  import opened Version
  import opened Manifest
  import opened Engine
  import opened Invariant
  import opened Readers
  import opened Steps
  import opened Store
  import opened Runs

  datatype What = Snapshots | Reads

  predicate Opens(s: Step, what: What) {
    match what
    case Snapshots => s.Snap?
    case Reads => s.StartRead?
  }

  /** The place in the list of the one that the step gives up. */
  function Closes(s: Step, what: What): Option<nat> {
    match s
    case Release(i) => if what == Snapshots then Some(i) else None
    case FinishRead(i) => if what == Reads then Some(i) else None
    case _ => None
  }

  /** How many are open after the steps. */
  function Count(steps: seq<Step>, what: What): int {
    if steps == [] then 0
    else
      var before, s := Count(steps[..|steps| - 1], what), steps[|steps| - 1];
      if Opens(s, what) then before + 1
      else if Closes(s, what).Some? then before - 1
      else if s.Crash? then 0
      else before
  }

  /** Where the one that step `k` opened stands after the steps, if it is still open. */
  function Place(steps: seq<Step>, k: nat, what: What): Option<int>
    requires k < |steps|
  {
    var init, s := steps[..|steps| - 1], steps[|steps| - 1];
    if k == |init| then if Opens(s, what) then Some(Count(init, what)) else None
    else if Place(init, k, what).None? then None
    else PlaceAfter(Place(init, k, what).value, s, what)
  }

  /** Those behind the one that is given up move one place to the front; a crash ends them all. */
  function PlaceAfter(p: int, s: Step, what: What): Option<int> {
    match Closes(s, what)
    case Some(i) => if i == p then None else if i < p then Some(p - 1) else Some(p)
    case None => if s.Crash? then None else Some(p)
  }

  /** The number that readers could see after the steps: that of the last operation inserted, or recovered. */
  function Published(steps: seq<Step>): nat {
    if steps == [] then 0
    else
      var init, s := steps[..|steps| - 1], steps[|steps| - 1];
      if s.Publish? || s.Crash? then |AllOps(init)| else Published(init)
  }

  // ----- what the steps published -----

  lemma StepPublishes(db: DB, s: Step)
    requires Enabled(db, s)
    ensures !s.Publish? && !s.Crash? ==> Do(db, s).lastSequence == db.lastSequence
    ensures s.Publish? ==> Do(db, s).lastSequence == Top(db)
    ensures s.Crash? ==> Do(db, s).lastSequence == Top(Do(db, s))
  {
  }

  lemma {:induction false} LastSequenceIsPublished(first: Plan, steps: seq<Step>)
    requires Run(first, steps)
    ensures Final(first, steps).lastSequence == Published(steps) <= |AllOps(steps)|
    decreases steps
  {
    var last := RunKeeps(first, steps);
    if steps != [] {
      var init, s := steps[..|steps| - 1], steps[|steps| - 1];
      LastSequenceIsPublished(first, init);
      var before := RunKeeps(first, init);
      StepPublishes(Final(first, init), s);
    }
  }

  // ----- the lists -----

  lemma SnapshotsStep(db: DB, s: Step)
    requires Enabled(db, s)
    ensures s.Snap? ==> Do(db, s).snapshots == db.snapshots + [db.lastSequence]
    ensures s.Release? ==>
      |Do(db, s).snapshots| == |db.snapshots| - 1 && forall p :: 0 <= p < |db.snapshots| - 1 ==>
        Do(db, s).snapshots[p] == db.snapshots[if p < s.i then p else p + 1]
    ensures s.Crash? ==> Do(db, s).snapshots == []
    ensures !s.Snap? && !s.Release? && !s.Crash? ==> Do(db, s).snapshots == db.snapshots
  {
  }

  lemma ReadersStep(db: DB, s: Step)
    requires Enabled(db, s) && |db.readers| == |db.begun|
    ensures |Do(db, s).readers| == |Do(db, s).begun|
    ensures s.StartRead? ==>
      && Do(db, s).readers == db.readers + [Reader(db.mem, db.imm, db.levels, s.at)]
      && Do(db, s).begun == db.begun + [db.revived]
    ensures s.FinishRead? ==>
      |Do(db, s).readers| == |db.readers| - 1 && forall p :: 0 <= p < |db.readers| - 1 ==>
        && Do(db, s).readers[p] == db.readers[if p < s.i then p else p + 1]
        && Do(db, s).begun[p] == db.begun[if p < s.i then p else p + 1]
    ensures s.Crash? ==> Do(db, s).readers == []
    ensures !s.StartRead? && !s.FinishRead? && !s.Crash? ==>
      Do(db, s).readers == db.readers && Do(db, s).begun == db.begun
  {
  }

  lemma {:induction false} SnapshotsCounted(first: Plan, steps: seq<Step>)
    requires Run(first, steps)
    ensures |Final(first, steps).snapshots| == Count(steps, Snapshots)
    decreases steps
  {
    if steps != [] {
      var init, s := steps[..|steps| - 1], steps[|steps| - 1];
      SnapshotsCounted(first, init);
      SnapshotsStep(Final(first, init), s);
    }
  }

  lemma {:induction false} ReadersCounted(first: Plan, steps: seq<Step>)
    requires Run(first, steps)
    ensures |Final(first, steps).readers| == |Final(first, steps).begun| == Count(steps, Reads)
    decreases steps
  {
    if steps != [] {
      var init, s := steps[..|steps| - 1], steps[|steps| - 1];
      ReadersCounted(first, init);
      ReadersStep(Final(first, init), s);
      if s.Crash? { assert |Do(Final(first, init), s).readers| == 0; }
    }
  }

  ghost predicate HoldsNumber(snapshots: seq<Sequence>, place: Option<int>, at: nat) {
    place.Some? ==> 0 <= place.value < |snapshots| && snapshots[place.value] == at
  }

  lemma SnapshotMoves(db: DB, s: Step, p: int, at: nat)
    requires Enabled(db, s) && HoldsNumber(db.snapshots, Some(p), at)
    ensures HoldsNumber(Do(db, s).snapshots, PlaceAfter(p, s, Snapshots), at)
  {
    SnapshotsStep(db, s);
  }

  lemma SnapshotTaken(db: DB, s: Step)
    requires Enabled(db, s) && s.Snap?
    ensures HoldsNumber(Do(db, s).snapshots, Some(|db.snapshots|), db.lastSequence)
  {
  }

  /** The snapshot that step `k` took is at its place in the list, with the number that was published then. */
  lemma {:induction false} SnapshotStands(first: Plan, steps: seq<Step>, k: nat)
    requires Run(first, steps) && k < |steps|
    ensures Place(steps, k, Snapshots).Some? ==> steps[k].Snap?
    ensures HoldsNumber(Final(first, steps).snapshots, Place(steps, k, Snapshots), Published(steps[..k]))
    decreases steps
  {
    var init, s := steps[..|steps| - 1], steps[|steps| - 1];
    if k == |init| {
      SnapshotsCounted(first, init);
      LastSequenceIsPublished(first, init);
      if s.Snap? { SnapshotTaken(Final(first, init), s); }
    } else {
      SnapshotStands(first, init, k);
      assert init[..k] == steps[..k];
      if Place(init, k, Snapshots).Some? {
        SnapshotMoves(Final(first, init), s, Place(init, k, Snapshots).value, Published(steps[..k]));
      }
    }
  }

  /** What a reader begun in the state reads from: both memtables and the version of then, at the number asked for. */
  ghost predicate HoldsOf(r: Reader, db: DB, at: Sequence) {
    r.mem == db.mem && r.imm == db.imm && r.levels == db.levels && r.at == at
  }

  ghost predicate HoldsReader(db: DB, place: Option<int>, begun: DB, at: Sequence) {
    |db.readers| == |db.begun| && (place.Some? ==>
      && 0 <= place.value < |db.readers| && HoldsOf(db.readers[place.value], begun, at)
      && db.begun[place.value] == begun.revived)
  }

  lemma ReaderMoves(db: DB, s: Step, p: int, begun: DB, at: Sequence)
    requires Enabled(db, s) && HoldsReader(db, Some(p), begun, at)
    ensures HoldsReader(Do(db, s), PlaceAfter(p, s, Reads), begun, at)
  {
    ReadersStep(db, s);
  }

  lemma ReaderBegun(db: DB, s: Step)
    requires Enabled(db, s) && s.StartRead? && |db.readers| == |db.begun|
    ensures HoldsReader(Do(db, s), Some(|db.readers|), db, s.at)
  {
  }

  /** The reader that step `k` began is at its place, with what there was then and the number asked for. */
  lemma {:induction false} ReaderStands(first: Plan, steps: seq<Step>, k: nat)
    requires Run(first, steps) && k < |steps|
    ensures Run(first, steps[..k]) && (Place(steps, k, Reads).Some? ==> steps[k].StartRead?)
    ensures Place(steps, k, Reads).Some? ==>
      HoldsReader(Final(first, steps), Place(steps, k, Reads), Final(first, steps[..k]), steps[k].at)
    decreases steps
  {
    var init, s := steps[..|steps| - 1], steps[|steps| - 1];
    if k == |init| {
      ReadersCounted(first, init);
      if s.StartRead? { ReaderBegun(Final(first, init), s); }
    } else {
      ReaderStands(first, init, k);
      assert init[..k] == steps[..k];
      if Place(init, k, Reads).Some? {
        ReaderMoves(Final(first, init), s, Place(init, k, Reads).value, Final(first, steps[..k]), steps[k].at);
      }
    }
  }

  /** And there are no others. */
  lemma {:induction false} EveryPlaceTaken(steps: seq<Step>, what: What, p: int) returns (k: nat)
    requires 0 <= p < Count(steps, what)
    ensures k < |steps| && Place(steps, k, what) == Some(p)
    decreases steps
  {
    var init, s := steps[..|steps| - 1], steps[|steps| - 1];
    if Opens(s, what) && p == Count(init, what) {
      k := |init|;
    } else {
      var before := match Closes(s, what) case Some(i) => if p < i then p else p + 1 case None => p;
      k := EveryPlaceTaken(init, what, before);
    }
  }

  // ----- the operations logged by then -----

  lemma {:induction false} OpsExtend(steps: seq<Step>, k: nat)
    requires k <= |steps|
    ensures |AllOps(steps[..k])| <= |AllOps(steps)| && AllOps(steps)[..|AllOps(steps[..k])|] == AllOps(steps[..k])
    decreases steps
  {
    if k == |steps| {
      assert steps[..k] == steps;
    } else {
      var init := steps[..|steps| - 1];
      assert init[..k] == steps[..k];
      OpsExtend(init, k);
    }
  }

  lemma {:induction false} StoreOfPrefix(ops: seq<Op>, early: seq<Op>, n: nat)
    requires n <= |early| <= |ops| && ops[..|early|] == early
    ensures StoreAfter(ops, n) == StoreAfter(early, n)
  {
    if n > 0 {
      StoreOfPrefix(ops, early, n - 1);
      assert ops[n - 1] == ops[..|early|][n - 1];
    }
  }

  // ----- what they read -----

  lemma SnapshotInRange(db: DB, h: set<Entry>, last: Record, p: nat)
    requires Inv(db, h, last) && p < |db.snapshots|
    ensures SmallestSnapshot(db) <= db.snapshots[p] <= db.lastSequence
  {
  }

  /**
   * From the step that takes a snapshot to the one that releases it, and whichever others come and go, a read at it
   * is a lookup in the plain map after the operations that were visible when it was taken.
   */
  lemma EverySnapshotReadsAsTaken(first: Plan, steps: seq<Step>, k: nat, user: UserKey)
    requires Run(first, steps) && k < |steps| && Place(steps, k, Snapshots).Some?
    ensures Run(first, steps[..k]) && steps[k].Snap? && Published(steps[..k]) <= |AllOps(steps[..k])|
    ensures var db, at := Final(first, steps), Published(steps[..k]);
      SettledBy(db.revived, AllOps(steps), user, at) ==>
        Read(Content(db), user, at) == Lookup(StoreAfter(AllOps(steps[..k]), at), user)
  {
    var db, at := Final(first, steps), Published(steps[..k]);
    RunUpTo(first, steps, k);
    SnapshotStands(first, steps, k);
    LastSequenceIsPublished(first, steps[..k]);
    OpsExtend(steps, k);
    var last := RunKeeps(first, steps);
    SnapshotInRange(db, History(AllOps(steps)), last, Place(steps, k, Snapshots).value);
    if SettledBy(db.revived, AllOps(steps), user, at) {
      EveryRunReadsLikeTheStore(first, steps, user, at);
      StoreOfPrefix(AllOps(steps), AllOps(steps[..k]), at);
    }
  }

  /**
   * And from the step that begins a read to the one that ends it, what the reader finds is a lookup in the plain map
   * after as many operations as the number it was begun at.
   */
  lemma EveryReaderReadsAsBegun(first: Plan, steps: seq<Step>, k: nat, more: set<Entry>, user: UserKey)
    requires Run(first, steps) && k < |steps| && Place(steps, k, Reads).Some?
    ensures Run(first, steps[..k]) && steps[k].StartRead?
    ensures SmallestSnapshot(Final(first, steps[..k])) <= steps[k].at <= Published(steps[..k]) <= |AllOps(steps[..k])|
    ensures 0 <= Place(steps, k, Reads).value < |Final(first, steps).readers|
    ensures var r, early := Final(first, steps).readers[Place(steps, k, Reads).value], AllOps(steps[..k]);
      (forall e :: e in more ==> e.key.seqno > steps[k].at) &&
      SettledBy(Final(first, steps[..k]).revived, early, user, steps[k].at) ==>
        ReadBy(r, more, user) == Lookup(StoreAfter(early, steps[k].at), user)
  {
    RunUpTo(first, steps, k);
    ReaderStands(first, steps, k);
    LastSequenceIsPublished(first, steps[..k]);
    OpsExtend(steps, k);
    var p, early := Place(steps, k, Reads).value, AllOps(steps[..k]);
    var revived := Final(first, steps[..k]).revived;
    if (forall e :: e in more ==> e.key.seqno > steps[k].at) && SettledBy(revived, early, user, steps[k].at) {
      SettledSince(revived, AllOps(steps), early, user, steps[k].at);
      EveryReaderReadsLikeTheStore(first, steps, p, more, user);
      StoreOfPrefix(AllOps(steps), early, steps[k].at);
    }
  }

  lemma SettledSince(revived: Revivals, ops: seq<Op>, early: seq<Op>, user: UserKey, at: nat)
    requires |early| <= |ops| && ops[..|early|] == early && SettledBy(revived, early, user, at)
    ensures SettledBy(revived, ops, user, at)
  {
    if user in revived {
      var i :| revived[user] <= i < at && i < |early| && early[i].user == user;
      assert ops[i] == ops[..|early|][i];
    }
  }

  lemma {:induction false} RunUpTo(first: Plan, steps: seq<Step>, k: nat)
    requires Run(first, steps) && k < |steps|
    ensures Run(first, steps[..k]) && Enabled(Final(first, steps[..k]), steps[k])
    decreases steps
  {
    var init := steps[..|steps| - 1];
    if k < |init| {
      RunUpTo(first, init, k);
      assert init[..k] == steps[..k];
    }
  }
}
