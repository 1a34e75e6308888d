/**
 * SetupOtherInputs closes only the upper inputs under AddBoundaryInputs (db/version_set.cc). Here is a
 * version in which the next level is not closed, and where dropping a deletion marker brings a value back.
 */
module Resurrection {
  import opened Keys
  import opened Reads
  import opened Version
  import opened Inputs
  import opened Compacting
  import opened Install

  const NEW_A := Entry(InternalKey(1.0, 4, Value), [1])
  const OLD_A := Entry(InternalKey(1.0, 2, Value), [2])
  const MARKER := Entry(InternalKey(2.0, 3, Deletion), [])
  const BURIED := Entry(InternalKey(2.0, 1, Value), [4])

  const UPPER := File(9, 1, NEW_A.key, NEW_A.key, [NEW_A])
  const LOWER := File(6, 1, OLD_A.key, MARKER.key, [OLD_A, MARKER])
  const BEHIND := File(7, 1, BURIED.key, BURIED.key, [BURIED])

  const LEVELS: Levels := [[], [], [UPPER], [LOWER, BEHIND], [], [], []]
  const COMPACTION := Compaction(2, [UPPER], [LOWER], NEW_A.key, NEW_A.key)

  ghost predicate ThreeFiles(levels: Levels, upper: File, lower: File, behind: File) {
    && |levels| == 7
    && (forall i, f {:trigger f in levels[i]} ::
         0 <= i < 7 && f in levels[i] ==> (i == 2 && f == upper) || (i == 3 && (f == lower || f == behind)))
    && upper.number > behind.number > lower.number
  }

  lemma ExampleFiles()
    ensures ThreeFiles(LEVELS, UPPER, LOWER, BEHIND)
    ensures ValidFile(UPPER) && ValidFile(LOWER) && ValidFile(BEHIND)
  {
  }

  lemma ExampleAges()
    ensures FileNewer(UPPER, LOWER) && FileNewer(UPPER, BEHIND)
  {
    assert forall e :: e in LOWER.table <==> e == OLD_A || e == MARKER;
  }

  lemma ExampleContents()
    ensures AllContents(LEVELS) == {NEW_A, OLD_A, MARKER, BURIED}
  {
    ExampleFiles();
    forall e ensures e in AllContents(LEVELS) ==> e in {NEW_A, OLD_A, MARKER, BURIED} {
      if e in AllContents(LEVELS) { var i, f := Locate(LEVELS, e); }
    }
    assert LEVELS[2] in LEVELS && LEVELS[3] in LEVELS;
    assert UPPER in LEVELS[2] && LOWER in LEVELS[3] && BEHIND in LEVELS[3];
    assert NEW_A in UPPER.table && OLD_A in LOWER.table && MARKER in LOWER.table && BURIED in BEHIND.table;
  }

  lemma ExampleSorted()
    ensures forall i :: 1 <= i < 7 ==> LevelSorted(LEVELS[i])
    ensures Distinct({NEW_A, OLD_A, MARKER, BURIED})
  {
  }

  lemma ThreeUnique(levels: Levels, upper: File, lower: File, behind: File)
    requires ThreeFiles(levels, upper, lower, behind)
    ensures UniqueNumbers(levels)
  {
    forall i, j, f: File, g: File | 0 <= i < 7 && 0 <= j < 7 && f in levels[i] && g in levels[j] && f.number == g.number
      ensures i == j && f == g
    {
    }
  }

  lemma ThreeAged(levels: Levels, upper: File, lower: File, behind: File)
    requires ThreeFiles(levels, upper, lower, behind) && FileNewer(upper, lower) && FileNewer(upper, behind)
    ensures CrossLevelAged(levels) && LevelZeroAged(levels[0])
  {
  }

  lemma VersionOfThree(levels: Levels, upper: File, lower: File, behind: File)
    requires ThreeFiles(levels, upper, lower, behind)
    requires ValidFile(upper) && ValidFile(lower) && ValidFile(behind)
    requires UniqueNumbers(levels) && CrossLevelAged(levels) && LevelZeroAged(levels[0])
    requires forall i :: 1 <= i < 7 ==> LevelSorted(levels[i])
    requires Distinct(AllContents(levels))
    ensures ValidVersion(levels)
  {
  }

  lemma ExampleVersion()
    ensures ValidVersion(LEVELS)
  {
    ExampleFiles();
    ExampleAges();
    ExampleContents();
    ExampleSorted();
    ThreeUnique(LEVELS, UPPER, LOWER, BEHIND);
    ThreeAged(LEVELS, UPPER, LOWER, BEHIND);
    VersionOfThree(LEVELS, UPPER, LOWER, BEHIND);
  }

  lemma ExampleCompaction()
    ensures ValidCompaction(LEVELS, COMPACTION) && !NextLevelClosed(LEVELS, COMPACTION)
  {
    var next := LEVELS[3];
    SelectedMembers(next, Some(1.0), Some(1.0));
    assert next[..1] == [LOWER] && next[..1][..0] == [];
    assert Selected([], Some(1.0), Some(1.0)) == [];
    assert Selected([LOWER], Some(1.0), Some(1.0)) == [LOWER];
    assert Selected(next, Some(1.0), Some(1.0)) == [LOWER];
    assert UPPER in [UPPER] && LOWER in [LOWER];
    assert IsRange([LOWER], OLD_A.key, MARKER.key);
    assert BEHIND in LEVELS[3] && IsBoundary(BEHIND, MARKER.key);
  }

  /** The deleted key is absent before the compaction and has its old value after it. */
  lemma DroppedMarkerRevivesValue()
    ensures ValidVersion(LEVELS) && ValidCompaction(LEVELS, COMPACTION)
    ensures var inputs, rest := InputContents(COMPACTION), AllContents(LEVELS) - InputContents(COMPACTION);
      && Read(inputs + rest, 2.0, 4) == NotFound
      && Read(Survivors(LEVELS, 2, inputs, 4) + rest, 2.0, 4) == Found([4])
  {
    ExampleVersion();
    ExampleCompaction();
    ExampleContents();
    ExampleInputs();
    ExampleReads(InputContents(COMPACTION), AllContents(LEVELS) - InputContents(COMPACTION));
  }

  /** Every valid compaction of level 2 has the inputs of the example. */
  lemma OnlyCompaction(c: Compaction)
    requires ValidCompaction(LEVELS, c) && c.level == 2
    ensures InputContents(c) == InputContents(COMPACTION) && !NextLevelClosed(LEVELS, c)
  {
    ExampleCompaction();
    OnlyUpper(c.inputs0, c.smallest, c.largest);
    assert c.inputs1 == COMPACTION.inputs1;
  }

  lemma OnlyUpper(inputs: seq<File>, low: InternalKey, high: InternalKey)
    requires IsRange(inputs, low, high) && forall f :: f in inputs ==> f in LEVELS[2]
    ensures low == NEW_A.key == high && forall f :: f in inputs <==> f in [UPPER]
  {
    assert LEVELS[2] == [UPPER];
  }

  /** What PickCompaction returns for that file, whatever the size limit, makes the deleted value readable. */
  method PickRevives(maxFileSize: nat) returns (c: Compaction)
    ensures ValidVersion(LEVELS) && ValidCompaction(LEVELS, c) && UPPER in c.inputs0 && !NextLevelClosed(LEVELS, c)
    ensures var inputs, rest := InputContents(c), AllContents(LEVELS) - InputContents(c);
      && Read(inputs + rest, 2.0, 4) == NotFound
      && Read(Survivors(LEVELS, 2, inputs, 4) + rest, 2.0, 4) == Found([4])
  {
    ExampleVersion();
    assert UPPER in LEVELS[2];
    c := PickCompaction(LEVELS, 2, UPPER, maxFileSize);
    OnlyCompaction(c);
    DroppedMarkerRevivesValue();
  }

  lemma ExampleReads(inputs: set<Entry>, rest: set<Entry>)
    requires inputs == {NEW_A, OLD_A, MARKER} && rest == {NEW_A, OLD_A, MARKER, BURIED} - inputs
    ensures Read(inputs + rest, 2.0, 4) == NotFound
    ensures Read(Survivors(LEVELS, 2, inputs, 4) + rest, 2.0, 4) == Found([4])
  {
    assert rest == {BURIED};
    ExampleSorted();
    assert inputs + rest == {NEW_A, OLD_A, MARKER, BURIED};
    ExampleUncovers(inputs, rest);
    UncoveringChangesRead(LEVELS, 2, inputs, rest, 4, MARKER, BURIED);
  }

  lemma ExampleInputs()
    ensures InputContents(COMPACTION) == {NEW_A, OLD_A, MARKER}
  {
    assert UPPER in COMPACTION.inputs0 && LOWER in COMPACTION.inputs1;
    assert NEW_A in UPPER.table && OLD_A in LOWER.table && MARKER in LOWER.table;
  }

  lemma ExampleUncovers(inputs: set<Entry>, rest: set<Entry>)
    requires inputs == {NEW_A, OLD_A, MARKER} && rest == {BURIED}
    ensures Uncovers(LEVELS, 2, inputs, rest, 4, MARKER, BURIED)
  {
    assert BaseLevelFor(LEVELS, 2, 2.0) by { ExampleFiles(); }
    assert Newest(inputs + rest, 2.0, 4, MARKER);
    assert Newest(rest, 2.0, 4, BURIED);
  }
}
