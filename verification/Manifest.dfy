/** The manifest: the log of version edits from which a version is rebuilt (db/version_set.cc). */
module Manifest {
  import opened Keys
  import opened Version
  import opened Builder
  import opened Install

  /** A record is the snapshot that starts a manifest, or an edit written by LogAndApply. */
  datatype Record =
    | Snapshot(edit: VersionEdit)
    | Logged(edit: VersionEdit, logNumber: nat, nextFile: nat, lastSequence: Sequence)

  function EditsAt(records: seq<Record>, l: nat): seq<LevelEdit> {
    seq(|records|, i requires 0 <= i < |records| => EditAt(records[i].edit, l))
  }

  /** VersionSet::Recover: one Builder over an empty version takes every edit, and saves once. */
  ghost function Replay(records: seq<Record>): (r: Levels)
    ensures |r| == NUM_LEVELS
  {
    seq(NUM_LEVELS, l requires 0 <= l < NUM_LEVELS => SaveLevel([], ApplyAll(EditsAt(records, l))))
  }

  /** No number comes back to a level: every level that ever held it is at or above where it is now. */
  ghost predicate MovesDown(records: seq<Record>, levels: Levels, bound: nat) {
    forall l, n :: 0 <= l < NUM_LEVELS && n in Held([], EditsAt(records, l)) ==>
      n < bound && forall c, f :: l > c >= 0 && c < |levels| && f in levels[c] ==> f.number != n
  }

  /** The levels an edit names exist; VersionEdit::DecodeFrom rejects any other. */
  ghost predicate LevelsExist(e: VersionEdit) {
    (forall p :: p in e.deleted ==> p.0 < NUM_LEVELS) && (forall p :: p in e.added ==> p.0 < NUM_LEVELS)
  }

  /** The manifest describes `levels`, and numbers below `bound` only. */
  ghost predicate Describes(records: seq<Record>, levels: Levels, bound: nat) {
    && |levels| == NUM_LEVELS
    && (forall l ::
         0 <= l < NUM_LEVELS ==> NeverReAdds([], EditsAt(records, l)) && SaveEach([], EditsAt(records, l)) == levels[l])
    && MovesDown(records, levels, bound)
    && (forall r :: r in records ==> LevelsExist(r.edit))
  }

  /** Recovery rebuilds the version the edits had led to. */
  lemma ReplayIsCurrent(records: seq<Record>, levels: Levels, bound: nat)
    requires Describes(records, levels, bound)
    ensures Replay(records) == levels
  {
    forall l | 0 <= l < NUM_LEVELS ensures Replay(records)[l] == levels[l] {
      ReplayOnceIsReplayEach([], EditsAt(records, l));
    }
  }

  lemma EditsAtSnoc(records: seq<Record>, r: Record, l: nat)
    ensures EditsAt(records + [r], l) == EditsAt(records, l) + [EditAt(r.edit, l)]
  {
  }

  /** The edit adds only numbers its target level has never held, and leaves no number above where it has been. */
  ghost predicate Extends(records: seq<Record>, e: VersionEdit, l: nat) {
    NumbersDiffer(AddedAt(e.added, l)) && NumbersOf(AddedAt(e.added, l)) !! Held([], EditsAt(records, l))
  }

  lemma LoggingExtendsAt(records: seq<Record>, levels: Levels, r: Record, l: nat)
    requires |levels| == NUM_LEVELS && l < NUM_LEVELS
    requires NeverReAdds([], EditsAt(records, l)) && SaveEach([], EditsAt(records, l)) == levels[l]
    requires Extends(records, r.edit, l)
    ensures var edits := EditsAt(records + [r], l);
      && NeverReAdds([], edits)
      && SaveEach([], edits) == ApplyEdit(levels, r.edit)[l]
      && Held([], edits) == Held([], EditsAt(records, l)) + NumbersOf(AddedAt(r.edit.added, l))
  {
    EditsAtSnoc(records, r, l);
    var edits := EditsAt(records + [r], l);
    assert edits != [] && edits[|edits| - 1] == EditAt(r.edit, l);
    assert edits[..|edits| - 1] == EditsAt(records, l);
  }

  /** Numbers of the new version are at or below every level that has held them. */
  ghost predicate StaysDown(records: seq<Record>, e: VersionEdit, after: Levels) {
    forall l, n, c, f
      {:trigger f in after[c], n in Held([], EditsAt(records, l))}
      {:trigger f in after[c], n in NumbersOf(AddedAt(e.added, l))} ::
      0 <= c < l < NUM_LEVELS && c < |after| && f in after[c]
          && (n in Held([], EditsAt(records, l)) || n in NumbersOf(AddedAt(e.added, l)))
      ==> f.number != n
  }

  lemma LoggingExtends(records: seq<Record>, levels: Levels, bound: nat, r: Record, bound': nat)
    requires Describes(records, levels, bound) && bound <= bound'
    requires forall l :: 0 <= l < NUM_LEVELS ==> Extends(records, r.edit, l)
    requires forall l, n :: 0 <= l < NUM_LEVELS && n in NumbersOf(AddedAt(r.edit.added, l)) ==> n < bound'
    requires StaysDown(records, r.edit, ApplyEdit(levels, r.edit)) && LevelsExist(r.edit)
    ensures Describes(records + [r], ApplyEdit(levels, r.edit), bound')
  {
    var after := ApplyEdit(levels, r.edit);
    forall l | 0 <= l < NUM_LEVELS
      ensures NeverReAdds([], EditsAt(records + [r], l)) && SaveEach([], EditsAt(records + [r], l)) == after[l]
    {
      LoggingExtendsAt(records, levels, r, l);
    }
    forall l, n | 0 <= l < NUM_LEVELS && n in Held([], EditsAt(records + [r], l))
      ensures n < bound' && forall c, f: File :: l > c >= 0 && c < |after| && f in after[c] ==> f.number != n
    {
      LoggingExtendsAt(records, levels, r, l);
      assert n in Held([], EditsAt(records, l)) || n in NumbersOf(AddedAt(r.edit.added, l));
    }
  }

  // ----- a fresh manifest -----

  function AllTagged(levels: Levels, n: nat): seq<(nat, File)>
    requires n <= |levels|
  {
    if n == 0 then [] else AllTagged(levels, n - 1) + Tagged(n - 1, levels[n - 1])
  }

  /** WriteSnapshot */
  function SnapshotEdit(levels: Levels): VersionEdit {
    VersionEdit({}, AllTagged(levels, |levels|))
  }

  lemma {:induction false} AddedAtConcat(a: seq<(nat, File)>, b: seq<(nat, File)>, l: nat)
    ensures AddedAt(a + b, l) == AddedAt(a, l) + AddedAt(b, l)
  {
    if b == [] {
      assert a + b == a;
    } else {
      AddedAtConcat(a, b[..|b| - 1], l);
      assert (a + b)[..|a + b| - 1] == a + b[..|b| - 1];
    }
  }

  lemma {:induction false} AllTaggedAt(levels: Levels, n: nat, l: nat)
    requires n <= |levels|
    ensures AddedAt(AllTagged(levels, n), l) == if l < n then levels[l] else []
  {
    if n > 0 {
      AllTaggedAt(levels, n - 1, l);
      AddedAtConcat(AllTagged(levels, n - 1), Tagged(n - 1, levels[n - 1]), l);
      TaggedAt(n - 1, levels[n - 1], l);
    }
  }

  lemma {:induction false} AllTaggedInRange(levels: Levels, n: nat)
    requires n <= |levels|
    ensures forall p :: p in AllTagged(levels, n) ==> p.0 < n
  {
    if n > 0 { AllTaggedInRange(levels, n - 1); }
  }

  lemma OrderedNumbersDiffer(files: seq<File>)
    requires Ordered(files) && forall f, g :: f in files && g in files && f.number == g.number ==> f == g
    ensures NumbersDiffer(files)
  {
    forall i, j | 0 <= i < j < |files| ensures files[i].number != files[j].number {
      assert FileLess(files[i], files[j]);
    }
  }

  lemma SnapshotDescribes(levels: Levels, bound: nat)
    requires OrderedVersion(levels)
    requires forall l, f :: 0 <= l < NUM_LEVELS && f in levels[l] ==> f.number < bound
    ensures Describes([Snapshot(SnapshotEdit(levels))], levels, bound)
  {
    var records := [Snapshot(SnapshotEdit(levels))];
    AllTaggedInRange(levels, |levels|);
    forall l | 0 <= l < NUM_LEVELS
      ensures NeverReAdds([], EditsAt(records, l)) && SaveEach([], EditsAt(records, l)) == levels[l]
      ensures Held([], EditsAt(records, l)) == NumbersOf(levels[l])
    {
      SnapshotDescribesAt(levels, l);
    }
    forall l, n | 0 <= l < NUM_LEVELS && n in NumbersOf(levels[l])
      ensures n < bound && forall c, f :: l > c >= 0 && f in levels[c] ==> f.number != n
    {
      var g :| g in levels[l] && g.number == n;
    }
  }

  lemma SnapshotEditAt(levels: Levels, l: nat)
    requires OrderedVersion(levels) && l < NUM_LEVELS
    ensures EditAt(SnapshotEdit(levels), l) == LevelEdit({}, levels[l])
    ensures EditsAt([Snapshot(SnapshotEdit(levels))], l) == [LevelEdit({}, levels[l])]
  {
    AllTaggedAt(levels, |levels|, l);
    var e := EditAt(SnapshotEdit(levels), l);
    assert e.added == levels[l] && e.deleted == {};
    OneRecordAt(Snapshot(SnapshotEdit(levels)), l);
  }

  lemma OneRecordAt(r: Record, l: nat)
    ensures EditsAt([r], l) == [EditAt(r.edit, l)]
  {
  }

  lemma OneEdit(files: seq<File>)
    requires Ordered(files) && forall f, g :: f in files && g in files && f.number == g.number ==> f == g
    ensures NeverReAdds([], [LevelEdit({}, files)]) && Held([], [LevelEdit({}, files)]) == NumbersOf(files)
  {
    var edits := [LevelEdit({}, files)];
    assert edits[..|edits| - 1] == [];
    assert Held([], []) == NumbersOf([]) == {};
    assert NeverReAdds([], []);
    OrderedNumbersDiffer(files);
  }

  lemma OneEditSaves(files: seq<File>)
    requires Ordered(files) && forall f, g :: f in files && g in files && f.number == g.number ==> f == g
    ensures SaveEach([], [LevelEdit({}, files)]) == files
  {
    var e := LevelEdit({}, files);
    assert [e][..0] == [];
    OrderedNumbersDiffer(files);
    assert NumbersOf([]) == {};
    AddsCollect(LevelState({} + {}, []), files);
    assert EMPTY_STATE.deleted + e.deleted == {} + {};
    var st := ApplyLevel(EMPTY_STATE, e);
    assert st.deleted == {} && forall f :: f in st.added <==> f in files;
    OrderedDetermined(st.added, files);
    assert MergeFiles([], files) == files;
    NothingDeleted(files);
  }

  lemma SnapshotDescribesAt(levels: Levels, l: nat)
    requires OrderedVersion(levels) && l < NUM_LEVELS
    ensures var edits := EditsAt([Snapshot(SnapshotEdit(levels))], l);
      NeverReAdds([], edits) && SaveEach([], edits) == levels[l] && Held([], edits) == NumbersOf(levels[l])
  {
    SnapshotEditAt(levels, l);
    OneEdit(levels[l]);
    OneEditSaves(levels[l]);
  }
}
