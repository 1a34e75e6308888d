/** Installing flushes, moves and compactions: the shape and the age order of versions are kept. */
module Install {
  import opened Keys
  import opened Reads
  import opened Version
  import opened Inputs
  import opened Builder
  import opened Compacting

  ghost predicate OrderedVersion(levels: Levels) {
    ValidVersion(levels) && forall l :: 0 <= l < NUM_LEVELS ==> Ordered(levels[l])
  }

  /** The version LogAndApply installs for an edit. */
  function ApplyEdit(levels: Levels, e: VersionEdit): (r: Levels)
    requires |levels| == NUM_LEVELS
    ensures |r| == NUM_LEVELS
  {
    seq(NUM_LEVELS, l requires 0 <= l < NUM_LEVELS => SaveLevel(levels[l], ApplyLevel(EMPTY_STATE, EditAt(e, l))))
  }

  /** The edit adds no file number twice to a level, nor one the level already holds. */
  ghost predicate AddsNew(levels: Levels, e: VersionEdit, l: nat)
    requires l < |levels|
  {
    NumbersDiffer(AddedAt(e.added, l)) && NumbersOf(AddedAt(e.added, l)) !! NumbersOf(levels[l])
  }

  lemma AppliedMembers(levels: Levels, e: VersionEdit, l: nat)
    requires |levels| == NUM_LEVELS && l < NUM_LEVELS && Ordered(levels[l]) && AddsNew(levels, e, l)
    ensures Ordered(ApplyEdit(levels, e)[l])
    ensures forall f :: f in ApplyEdit(levels, e)[l] <==>
              (f in levels[l] && (l, f.number) !in e.deleted) || f in AddedAt(e.added, l)
  {
    var part := EditAt(e, l);
    var start := LevelState(EMPTY_STATE.deleted + part.deleted, []);
    AddsCollect(start, part.added);
    var st := ApplyLevel(EMPTY_STATE, part);
    forall f | f in st.added ensures f.number !in NumbersOf(levels[l]) && f.number in NumbersOf(part.added) {}
    SavedOrdered(levels[l], st);
    forall f
      ensures f in ApplyEdit(levels, e)[l] <==> (f in levels[l] && (l, f.number) !in e.deleted) || f in part.added
    {
      if f in levels[l] { assert f.number in NumbersOf(levels[l]); }
      if f in part.added { assert f.number in NumbersOf(part.added); }
      assert (l, f.number) in e.deleted <==> f.number in part.deleted by {
        if (l, f.number) in e.deleted { assert (l, f.number).1 in part.deleted; }
      }
    }
  }

  function Tagged(level: nat, files: seq<File>): seq<(nat, File)> {
    seq(|files|, i requires 0 <= i < |files| => (level, files[i]))
  }

  lemma {:induction false} TaggedAt(level: nat, files: seq<File>, l: nat)
    ensures AddedAt(Tagged(level, files), l) == if l == level then files else []
  {
    if files != [] {
      TaggedAt(level, files[..|files| - 1], l);
      assert Tagged(level, files)[..|files| - 1] == Tagged(level, files[..|files| - 1]);
      assert files == files[..|files| - 1] + [files[|files| - 1]];
    }
  }

  // ----- shape -----

  ghost predicate Apart(f: File, g: File) {
    Before(f.largest, g.smallest) || Before(g.largest, f.smallest)
  }

  lemma ApartSorted(files: seq<File>)
    requires Ordered(files) && ValidFiles(files)
    requires forall f, g :: f in files && g in files && f != g ==> Apart(f, g)
    ensures LevelSorted(files)
  {
    forall i, j | 0 <= i < j < |files| ensures Before(files[i].largest, files[j].smallest) {
      var f, g := files[i], files[j];
      assert FileLess(f, g) && f in files && g in files;
      WithinBounds(g, g.table[0]);
      assert f != g;
    }
  }

  /** What is left to check about a version once its levels are ordered lists. */
  lemma VersionFromFiles(levels: Levels)
    requires |levels| == NUM_LEVELS
    requires forall l :: 0 <= l < NUM_LEVELS ==> Ordered(levels[l]) && ValidFiles(levels[l])
    requires forall l, f, g :: 1 <= l < NUM_LEVELS && f in levels[l] && g in levels[l] && f != g ==> Apart(f, g)
    requires UniqueNumbers(levels) && LevelZeroAged(levels[0]) && CrossLevelAged(levels)
    requires Distinct(AllContents(levels))
    ensures OrderedVersion(levels)
  {
    forall l | 1 <= l < NUM_LEVELS ensures LevelSorted(levels[l]) { ApartSorted(levels[l]); }
  }

  // ----- flush -----

  function FlushEdit(level: nat, f: File): VersionEdit {
    VersionEdit({}, [(level, f)])
  }

  /**
   * WriteLevel0Table and PickLevelForMemTableOutput: the new file is the newest and overlaps nothing above or
   * beside it.
   */
  ghost predicate FlushAllowed(levels: Levels, level: nat, f: File) {
    && |levels| == NUM_LEVELS && level < NUM_LEVELS
    && ValidFile(f)
    && (level > 0 ==> forall i, g ::
         0 <= i <= level && g in levels[i] ==> !Overlaps(g, Some(f.smallest.user), Some(f.largest.user)))
    && (forall i, g :: 0 <= i < NUM_LEVELS && g in levels[i] ==> g.number < f.number)
    && NewerThan(Elements(f.table), AllContents(levels))
    && Distinct(Elements(f.table))
  }

  /** `levels'` has the files of `levels`, and `f` at `level`. */
  ghost predicate Flushed(levels: Levels, levels': Levels, level: nat, f: File) {
    && |levels| == NUM_LEVELS == |levels'| && level < NUM_LEVELS
    && forall l, g :: 0 <= l < NUM_LEVELS ==> (g in levels'[l] <==> g in levels[l] || (l == level && g == f))
  }

  lemma FlushMembersAt(levels: Levels, level: nat, f: File, l: nat)
    requires |levels| == NUM_LEVELS && l < NUM_LEVELS && Ordered(levels[l])
    requires forall g :: g in levels[l] ==> g.number != f.number
    ensures var r := ApplyEdit(levels, FlushEdit(level, f))[l];
      Ordered(r) && forall g :: g in r <==> g in levels[l] || (l == level && g == f)
  {
    FlushAddedAt(levels, level, f, l);
    AppliedMembers(levels, FlushEdit(level, f), l);
    assert FlushEdit(level, f).deleted == {};
  }

  lemma FlushAddedAt(levels: Levels, level: nat, f: File, l: nat)
    requires l < |levels|
    requires forall g :: g in levels[l] ==> g.number != f.number
    ensures AddsNew(levels, FlushEdit(level, f), l)
    ensures forall g :: g in AddedAt(FlushEdit(level, f).added, l) <==> l == level && g == f
  {
    OneAddedAt(level, f, l);
    OneIsNew(levels[l], if l == level then [f] else [], f);
  }

  lemma OneAddedAt(level: nat, f: File, l: nat)
    ensures AddedAt([(level, f)], l) == if l == level then [f] else []
  {
    assert [(level, f)][..0] == [];
  }

  lemma OneIsNew(files: seq<File>, added: seq<File>, f: File)
    requires forall g :: g in files ==> g.number != f.number
    requires added == [] || added == [f]
    ensures NumbersDiffer(added) && NumbersOf(added) !! NumbersOf(files)
  {
    forall n | n in NumbersOf(added) ensures n == f.number {}
  }

  lemma FlushMembers(levels: Levels, level: nat, f: File)
    requires OrderedVersion(levels) && FlushAllowed(levels, level, f)
    ensures Flushed(levels, ApplyEdit(levels, FlushEdit(level, f)), level, f)
    ensures forall l :: 0 <= l < NUM_LEVELS ==> Ordered(ApplyEdit(levels, FlushEdit(level, f))[l])
  {
    var levels' := ApplyEdit(levels, FlushEdit(level, f));
    forall l | 0 <= l < NUM_LEVELS
      ensures Ordered(levels'[l]) && forall g :: g in levels'[l] <==> g in levels[l] || (l == level && g == f)
    {
      FlushMembersAt(levels, level, f, l);
    }
  }

  lemma FlushKeepsVersion(levels: Levels, level: nat, f: File)
    requires OrderedVersion(levels) && FlushAllowed(levels, level, f)
    ensures OrderedVersion(ApplyEdit(levels, FlushEdit(level, f)))
    ensures AllContents(ApplyEdit(levels, FlushEdit(level, f))) == AllContents(levels) + Elements(f.table)
  {
    var levels' := ApplyEdit(levels, FlushEdit(level, f));
    FlushMembers(levels, level, f);
    FlushContents(levels, levels', level, f);
    FlushApart(levels, levels', level, f);
    FlushAged(levels, levels', level, f);
    VersionFromFiles(levels');
  }

  lemma FlushApart(levels: Levels, levels': Levels, level: nat, f: File)
    requires OrderedVersion(levels) && FlushAllowed(levels, level, f) && Flushed(levels, levels', level, f)
    ensures forall l, g, h :: 1 <= l < NUM_LEVELS && g in levels'[l] && h in levels'[l] && g != h ==> Apart(g, h)
  {
    forall l, g, h | 1 <= l < NUM_LEVELS && g in levels'[l] && h in levels'[l] && g != h ensures Apart(g, h) {
      if g in levels[l] && h in levels[l] {
        SortedApart(levels[l], g, h);
      } else {
        assert !Overlaps(if g == f then h else g, Some(f.smallest.user), Some(f.largest.user));
      }
    }
  }

  lemma FlushAged(levels: Levels, levels': Levels, level: nat, f: File)
    requires OrderedVersion(levels) && FlushAllowed(levels, level, f) && Flushed(levels, levels', level, f)
    ensures UniqueNumbers(levels') && LevelZeroAged(levels'[0]) && CrossLevelAged(levels')
  {
    FlushUnique(levels, levels', level, f);
    FlushZeroAged(levels, levels', level, f);
    forall i, j, g, h | 0 <= i < j < NUM_LEVELS && g in levels'[i] && h in levels'[j] ensures FileNewer(g, h) {
      FlushAgedPair(levels, levels', level, f, i, j, g, h);
    }
  }

  lemma FlushUnique(levels: Levels, levels': Levels, level: nat, f: File)
    requires UniqueNumbers(levels) && FlushAllowed(levels, level, f) && Flushed(levels, levels', level, f)
    ensures UniqueNumbers(levels')
  {
  }

  lemma FlushZeroAged(levels: Levels, levels': Levels, level: nat, f: File)
    requires FlushAllowed(levels, level, f) && Flushed(levels, levels', level, f) && LevelZeroAged(levels[0])
    ensures LevelZeroAged(levels'[0])
  {
    forall g: File, h: File | g in levels'[0] && h in levels'[0] && g.number > h.number ensures FileNewer(g, h) {
      if h in levels[0] && g !in levels[0] { FlushedIsNewer(levels, f, 0, h); }
    }
  }

  lemma FlushAgedPair(levels: Levels, levels': Levels, level: nat, f: File, i: nat, j: nat, g: File, h: File)
    requires FlushAllowed(levels, level, f) && Flushed(levels, levels', level, f) && CrossLevelAged(levels)
    requires forall l :: 0 <= l < NUM_LEVELS ==> ValidFiles(levels[l])
    requires i < j < NUM_LEVELS && g in levels'[i] && h in levels'[j]
    ensures FileNewer(g, h)
  {
    if h in levels[j] && g !in levels[i] {
      FlushedIsNewer(levels, f, j, h);
    } else if h !in levels[j] {
      assert !Overlaps(g, Some(f.smallest.user), Some(f.largest.user));
      NoOverlapIsNewer(g, f);
    }
  }

  lemma NoOverlapIsNewer(g: File, f: File)
    requires ValidFile(g) && ValidFile(f) && !Overlaps(g, Some(f.smallest.user), Some(f.largest.user))
    ensures FileNewer(g, f)
  {
    forall d, e | d in g.table && e in f.table && d.key.user == e.key.user ensures false {
      WithinBounds(g, d);
      WithinBounds(f, e);
    }
  }

  lemma FlushedIsNewer(levels: Levels, f: File, j: nat, h: File)
    requires NewerThan(Elements(f.table), AllContents(levels)) && j < |levels| && h in levels[j]
    ensures FileNewer(f, h)
  {
    assert levels[j] in levels;
  }

  lemma FlushContents(levels: Levels, levels': Levels, level: nat, f: File)
    requires Flushed(levels, levels', level, f)
    requires Distinct(AllContents(levels)) && Distinct(Elements(f.table))
    requires NewerThan(Elements(f.table), AllContents(levels))
    ensures AllContents(levels') == AllContents(levels) + Elements(f.table)
    ensures Distinct(AllContents(levels'))
  {
    forall e ensures e in AllContents(levels') <==> e in AllContents(levels) || e in f.table {
      if e in AllContents(levels') { var i, g := Locate(levels', e); assert levels[i] in levels; }
      if e in AllContents(levels) { var i, g := Locate(levels, e); assert levels'[i] in levels'; }
      if e in f.table { assert levels'[level] in levels'; assert f in levels'[level]; }
    }
  }

  // ----- compaction and trivial move -----

  ghost function InputContents(c: Compaction): set<Entry> {
    Contents(c.inputs0) + Contents(c.inputs1)
  }

  predicate IsInput(c: Compaction, l: nat, f: File) {
    (l == c.level && f in c.inputs0) || (l == c.level + 1 && f in c.inputs1)
  }

  /** `levels'` has the files of `levels` that are not inputs, and `outs` at the level below the inputs'. */
  ghost predicate Replaced(levels: Levels, levels': Levels, c: Compaction, outs: seq<File>) {
    && |levels| == NUM_LEVELS == |levels'|
    && (forall l, f {:trigger f in levels'[l]} :: 0 <= l < NUM_LEVELS && f in levels'[l] ==>
          (f in levels[l] && !IsInput(c, l, f)) || (l == c.level + 1 && f in outs))
    && (forall l, f {:trigger f in levels[l], levels'[l]} ::
         0 <= l < NUM_LEVELS && f in levels[l] && !IsInput(c, l, f) ==> f in levels'[l])
    && (c.level + 1 < NUM_LEVELS ==> forall f :: f in outs ==> f in levels'[c.level + 1])
  }

  /** An entry sits in one file of a version only. */
  lemma EntryInOneFile(levels: Levels, i: nat, f: File, j: nat, g: File, e: Entry)
    requires ValidVersion(levels) && i < NUM_LEVELS && j < NUM_LEVELS
    requires f in levels[i] && g in levels[j]
    ensures e in f.table && e in g.table ==> i == j && f == g
  {
    if i < j {
      assert FileNewer(f, g);
    } else if j < i {
      assert FileNewer(g, f);
    } else if f != g && i == 0 {
      if f.number > g.number { assert FileNewer(f, g); } else { assert FileNewer(g, f); }
    } else if f != g {
      SortedApart(levels[i], f, g);
      if e in f.table && Before(g.largest, f.smallest) { WithinBounds(f, e); }
      if e in g.table { WithinBounds(g, e); }
      if e in f.table { WithinBounds(f, e); }
    }
  }

  /** A user key of an input file of the upper level lies in the range of the compaction. */
  lemma InRange(c: Compaction, h: File, e: Entry)
    requires IsRange(c.inputs0, c.smallest, c.largest) && h in c.inputs0 && ValidFile(h) && e in h.table
    ensures c.smallest.user <= e.key.user <= c.largest.user
    ensures !Before(e.key, c.smallest) && !Before(c.largest, e.key)
  {
    WithinBounds(h, e);
  }

  /** A file of the inputs' own level that stays behind holds only newer versions of the inputs' keys. */
  lemma StayerIsNewer(levels: Levels, c: Compaction, f: File, h: File)
    requires ValidVersion(levels) && ValidCompaction(levels, c)
    requires f in levels[c.level] && f !in c.inputs0 && h in c.inputs0
    ensures FileNewer(f, h)
  {
    forall d, e | d in f.table && e in h.table && d.key.user == e.key.user ensures d.key.seqno > e.key.seqno {
      WithinBounds(f, d);
      WithinBounds(h, e);
      assert Touch(f, h);
      assert c.level > 0;
      SortedApart(levels[c.level], f, h);
      StayerAfter(levels, c, f, h);
      assert Before(d.key, e.key);
      assert levels[c.level] in levels;
      assert d in AllContents(levels) && e in AllContents(levels);
    }
  }

  /** No file that stays behind starts after an input with the user key the input ends with. */
  lemma StayerAfter(levels: Levels, c: Compaction, f: File, h: File)
    requires ValidVersion(levels) && ValidCompaction(levels, c) && c.level > 0
    requires f in levels[c.level] && f !in c.inputs0 && h in c.inputs0
    ensures !(Before(h.largest, f.smallest) && f.smallest.user <= h.largest.user)
  {
    var top :| top in c.inputs0 && top.largest == c.largest;
    assert top in levels[c.level] && h in levels[c.level];
    WithinBounds(top, top.table[0]);
    WithinBounds(f, f.table[0]);
    SortedApart(levels[c.level], f, top);
    if Before(h.largest, f.smallest) {
      assert !Before(f.largest, top.smallest);
      assert f.smallest.user <= h.largest.user ==> IsBoundary(f, c.largest);
    }
  }

  /** `g` lies wholly before or wholly after everything that is merged. */
  ghost predicate Beside(c: Compaction, g: File) {
    || (forall e :: e in InputContents(c) ==> Before(g.largest, e.key))
    || (forall e :: e in InputContents(c) ==> Before(e.key, g.smallest))
  }

  lemma StayerBeside(levels: Levels, c: Compaction, g: File)
    requires ValidVersion(levels) && ValidCompaction(levels, c)
    requires g in levels[c.level + 1] && g !in c.inputs1
    ensures Beside(c, g)
  {
    forall e | e in InputContents(c)
      ensures if c.smallest.user > g.largest.user then Before(g.largest, e.key) else Before(e.key, g.smallest)
    {
      var upper := e in Contents(c.inputs0);
      var h :| (if upper then h in c.inputs0 else h in c.inputs1) && e in h.table;
      if upper {
        assert h in levels[c.level];
        InRange(c, h, e);
        StayerOutside(levels[c.level + 1], c, g);
      } else {
        SelectedBeside(levels[c.level + 1], c, g, h);
        WithinBounds(h, e);
      }
    }
  }

  lemma StayerOutside(next: seq<File>, c: Compaction, g: File)
    requires ValidFiles(next) && c.inputs1 == Selected(next, Some(c.smallest.user), Some(c.largest.user))
    requires g in next && g !in c.inputs1
    ensures c.smallest.user > g.largest.user || c.largest.user < g.smallest.user
  {
    SelectedMembers(next, Some(c.smallest.user), Some(c.largest.user));
  }

  lemma SelectedBeside(next: seq<File>, c: Compaction, g: File, h: File)
    requires ValidFiles(next) && LevelSorted(next)
    requires c.inputs1 == Selected(next, Some(c.smallest.user), Some(c.largest.user))
    requires g in next && g !in c.inputs1 && h in c.inputs1
    ensures ValidFile(h)
    ensures if c.smallest.user > g.largest.user then Before(g.largest, h.smallest) else Before(h.largest, g.smallest)
  {
    SelectedMembers(next, Some(c.smallest.user), Some(c.largest.user));
    FilesOrdered(next);
    SortedApart(next, g, h);
  }

  lemma InputsAreFiles(levels: Levels, c: Compaction)
    requires ValidVersion(levels) && ValidCompaction(levels, c)
    ensures forall f :: f in c.inputs0 ==> f in levels[c.level] && ValidFile(f)
    ensures forall f :: f in c.inputs1 ==> f in levels[c.level + 1] && ValidFile(f)
  {
    SelectedMembers(levels[c.level + 1], Some(c.smallest.user), Some(c.largest.user));
  }

  /** `f` holds entries of the inputs only. */
  ghost predicate MadeOfInputs(c: Compaction, f: File) {
    ValidFile(f) && Elements(f.table) <= InputContents(c)
  }

  lemma BesideApart(c: Compaction, g: File, f: File)
    requires Beside(c, g) && MadeOfInputs(c, f)
    ensures Apart(f, g)
  {
    assert f.table[0] in f.table && f.table[|f.table| - 1] in f.table;
    assert f.table[0] in Elements(f.table) && f.table[|f.table| - 1] in Elements(f.table);
  }

  lemma NewerThanInputs(c: Compaction, g: File, f: File)
    requires MadeOfInputs(c, f)
    requires forall h :: h in c.inputs0 || h in c.inputs1 ==> FileNewer(g, h)
    ensures FileNewer(g, f)
  {
    forall d, e | d in g.table && e in f.table && d.key.user == e.key.user ensures d.key.seqno > e.key.seqno {
      assert e in Elements(f.table);
      var h :| (h in c.inputs0 || h in c.inputs1) && e in h.table;
      assert FileNewer(g, h);
    }
  }

  lemma OlderThanInputs(c: Compaction, g: File, f: File)
    requires MadeOfInputs(c, f)
    requires forall h :: h in c.inputs0 || h in c.inputs1 ==> FileNewer(h, g)
    ensures FileNewer(f, g)
  {
    forall d, e | d in f.table && e in g.table && d.key.user == e.key.user ensures d.key.seqno > e.key.seqno {
      assert d in Elements(f.table);
      var h :| (h in c.inputs0 || h in c.inputs1) && d in h.table;
      assert FileNewer(h, g);
    }
  }

  /** What stays at or above the inputs' level is newer than what the compaction writes. */
  lemma UpperNewer(levels: Levels, c: Compaction, i: nat, g: File, f: File)
    requires ValidVersion(levels) && ValidCompaction(levels, c) && MadeOfInputs(c, f)
    requires i <= c.level && g in levels[i] && !IsInput(c, i, g)
    ensures FileNewer(g, f)
  {
    forall h | h in c.inputs0 || h in c.inputs1 ensures FileNewer(g, h) {
      UpperNewerThanInput(levels, c, i, g, h);
    }
    NewerThanInputs(c, g, f);
  }

  lemma UpperNewerThanInput(levels: Levels, c: Compaction, i: nat, g: File, h: File)
    requires ValidVersion(levels) && ValidCompaction(levels, c) && (h in c.inputs0 || h in c.inputs1)
    requires i <= c.level && g in levels[i] && !IsInput(c, i, g)
    ensures FileNewer(g, h)
  {
    InputsAreFiles(levels, c);
    if h in c.inputs0 && i == c.level {
      StayerIsNewer(levels, c, g, h);
    } else if h in c.inputs0 {
      CrossAged(levels, i, c.level, g, h);
    } else {
      CrossAged(levels, i, c.level + 1, g, h);
    }
  }

  /** What lies below the output level is older than what the compaction writes. */
  lemma LowerOlder(levels: Levels, c: Compaction, j: nat, g: File, f: File)
    requires ValidVersion(levels) && ValidCompaction(levels, c) && MadeOfInputs(c, f)
    requires c.level + 1 < j < NUM_LEVELS && g in levels[j]
    ensures FileNewer(f, g)
  {
    InputsAreFiles(levels, c);
    forall h | h in c.inputs0 || h in c.inputs1 ensures FileNewer(h, g) {
      if h in c.inputs0 { CrossAged(levels, c.level, j, h, g); } else { CrossAged(levels, c.level + 1, j, h, g); }
    }
    OlderThanInputs(c, g, f);
  }

  /** What follows from the choice of inputs about what stays and what is written. */
  ghost predicate FitsBetween(levels: Levels, c: Compaction, outs: seq<File>) {
    && |levels| == NUM_LEVELS && c.level + 1 < NUM_LEVELS
    && (forall f :: f in outs ==> MadeOfInputs(c, f))
    && (forall i, g, f {:trigger FileNewer(g, f), levels[i]} ::
          0 <= i <= c.level && g in levels[i] && !IsInput(c, i, g) && f in outs ==> FileNewer(g, f))
    && (forall j, g, f {:trigger FileNewer(f, g), levels[j]} ::
          c.level + 1 < j < NUM_LEVELS && g in levels[j] && f in outs ==> FileNewer(f, g))
    && (forall g {:trigger Beside(c, g)} :: g in levels[c.level + 1] && g !in c.inputs1 ==> Beside(c, g))
    && (forall i, g, e {:trigger g in levels[i], e in g.table} ::
          0 <= i < NUM_LEVELS && g in levels[i] && !IsInput(c, i, g) && e in g.table ==> e !in InputContents(c))
    && InputContents(c) <= AllContents(levels)
  }

  lemma InputsFit(levels: Levels, c: Compaction, outs: seq<File>)
    requires ValidVersion(levels) && ValidCompaction(levels, c)
    requires ValidFiles(outs) && Contents(outs) <= InputContents(c)
    ensures FitsBetween(levels, c, outs)
  {
    forall f | f in outs ensures MadeOfInputs(c, f) {
      forall e | e in Elements(f.table) ensures e in InputContents(c) { assert e in Contents(outs); }
    }
    forall i, g, f | 0 <= i <= c.level && g in levels[i] && !IsInput(c, i, g) && f in outs ensures FileNewer(g, f) {
      UpperNewer(levels, c, i, g, f);
    }
    forall j, g, f | c.level + 1 < j < NUM_LEVELS && g in levels[j] && f in outs ensures FileNewer(f, g) {
      LowerOlder(levels, c, j, g, f);
    }
    forall g | g in levels[c.level + 1] && g !in c.inputs1 ensures Beside(c, g) { StayerBeside(levels, c, g); }
    forall i, g, e | 0 <= i < NUM_LEVELS && g in levels[i] && !IsInput(c, i, g) && e in g.table
      ensures e !in InputContents(c)
    {
      StayerNotInput(levels, c, i, g, e);
    }
    InputsInVersion(levels, c);
  }

  lemma InputsInVersion(levels: Levels, c: Compaction)
    requires ValidVersion(levels) && ValidCompaction(levels, c)
    ensures InputContents(c) <= AllContents(levels)
  {
    InputsAreFiles(levels, c);
    assert levels[c.level] in levels && levels[c.level + 1] in levels;
  }

  lemma CrossAged(levels: Levels, i: nat, j: nat, f: File, g: File)
    requires CrossLevelAged(levels) && i < j < |levels| && f in levels[i] && g in levels[j]
    ensures FileNewer(f, g)
  {
  }

  lemma StayerNotInput(levels: Levels, c: Compaction, i: nat, g: File, e: Entry)
    requires ValidVersion(levels) && ValidCompaction(levels, c)
    requires i < NUM_LEVELS && g in levels[i] && !IsInput(c, i, g) && e in g.table
    ensures e !in InputContents(c)
  {
    InputsAreFiles(levels, c);
    forall h | h in c.inputs0 ensures e !in h.table { EntryInOneFile(levels, i, g, c.level, h, e); }
    forall h | h in c.inputs1 ensures e !in h.table { EntryInOneFile(levels, i, g, c.level + 1, h, e); }
  }

  lemma ReplaceAged(levels: Levels, levels': Levels, c: Compaction, outs: seq<File>)
    requires FitsBetween(levels, c, outs) && Replaced(levels, levels', c, outs)
    requires CrossLevelAged(levels) && LevelZeroAged(levels[0])
    ensures CrossLevelAged(levels') && LevelZeroAged(levels'[0])
  {
  }

  lemma ReplaceUnique(levels: Levels, levels': Levels, c: Compaction, outs: seq<File>)
    requires UniqueNumbers(levels) && Replaced(levels, levels', c, outs)
    requires NumbersFit(levels, c, outs)
    ensures UniqueNumbers(levels')
  {
    forall i, j, f: File, g: File | 0 <= i < NUM_LEVELS && 0 <= j < NUM_LEVELS && f in levels'[i] && g in levels'[j]
        && f.number == g.number
      ensures i == j && f == g
    {
      assert (i == c.level + 1 && f in outs) || (f in levels[i] && !IsInput(c, i, f));
      assert (j == c.level + 1 && g in outs) || (g in levels[j] && !IsInput(c, j, g));
    }
  }

  lemma ReplaceApart(levels: Levels, levels': Levels, c: Compaction, outs: seq<File>, l: nat, f: File, g: File)
    requires FitsBetween(levels, c, outs) && Replaced(levels, levels', c, outs)
    requires l < NUM_LEVELS && LevelSorted(levels[l]) && LevelSorted(outs)
    requires f in levels'[l] && g in levels'[l] && f != g
    ensures Apart(f, g)
  {
    var fOut, gOut := l == c.level + 1 && f in outs, l == c.level + 1 && g in outs;
    if fOut && gOut {
      SortedApart(outs, f, g);
    } else if fOut {
      assert Beside(c, g);
      BesideApart(c, g, f);
    } else if gOut {
      assert Beside(c, f);
      BesideApart(c, f, g);
    } else {
      SortedApart(levels[l], f, g);
    }
  }

  lemma ReplaceContents(levels: Levels, levels': Levels, c: Compaction, outs: seq<File>)
    requires FitsBetween(levels, c, outs) && Replaced(levels, levels', c, outs)
    ensures AllContents(levels') == (AllContents(levels) - InputContents(c)) + Contents(outs)
  {
    forall e
      ensures e in AllContents(levels') ==> (e in AllContents(levels) && e !in InputContents(c)) || e in Contents(outs)
    {
      if e in AllContents(levels') {
        var i, g := Locate(levels', e);
        assert levels[i] in levels;
      }
    }
    forall e | e in AllContents(levels) && e !in InputContents(c) ensures e in AllContents(levels') {
      var i, g := Locate(levels, e);
      assert levels'[i] in levels' && !IsInput(c, i, g);
    }
    forall e | e in Contents(outs) ensures e in AllContents(levels') {
      var f :| f in outs && e in f.table;
      assert levels'[c.level + 1] in levels' && f in levels'[c.level + 1];
    }
  }

  lemma ReplaceDistinct(levels: Levels, levels': Levels, c: Compaction, outs: seq<File>)
    requires FitsBetween(levels, c, outs) && Replaced(levels, levels', c, outs) && Distinct(AllContents(levels))
    ensures Distinct(AllContents(levels'))
  {
    ReplaceContents(levels, levels', c, outs);
    forall e | e in Contents(outs) ensures e in InputContents(c) {
      var f :| f in outs && e in f.table;
      assert e in Elements(f.table);
    }
  }

  ghost predicate NumbersFit(levels: Levels, c: Compaction, outs: seq<File>) {
    && (forall f, g :: f in outs && g in outs && f.number == g.number ==> f == g)
    && (forall l, f, g {:trigger levels[l], f.number, g.number} ::
          0 <= l < |levels| && f in levels[l] && !IsInput(c, l, f) && g in outs ==> f.number != g.number)
  }

  /**
   * Files that may take the place of the inputs: in order, holding input entries only, numbers not otherwise
   * in use.
   */
  ghost predicate Replacement(levels: Levels, c: Compaction, outs: seq<File>) {
    ValidFiles(outs) && LevelSorted(outs) && Contents(outs) <= InputContents(c) && NumbersFit(levels, c, outs)
  }

  lemma ReplaceValidFiles(levels: Levels, levels': Levels, c: Compaction, outs: seq<File>)
    requires Replaced(levels, levels', c, outs) && ValidFiles(outs)
    requires forall l :: 0 <= l < NUM_LEVELS ==> ValidFiles(levels[l])
    ensures forall l :: 0 <= l < NUM_LEVELS ==> ValidFiles(levels'[l])
  {
  }

  lemma ReplaceAllApart(levels: Levels, levels': Levels, c: Compaction, outs: seq<File>)
    requires FitsBetween(levels, c, outs) && Replaced(levels, levels', c, outs) && LevelSorted(outs)
    requires forall l :: 1 <= l < NUM_LEVELS ==> LevelSorted(levels[l])
    ensures forall l, f, g :: 1 <= l < NUM_LEVELS && f in levels'[l] && g in levels'[l] && f != g ==> Apart(f, g)
  {
    forall l, f, g | 1 <= l < NUM_LEVELS && f in levels'[l] && g in levels'[l] && f != g ensures Apart(f, g) {
      ReplaceApart(levels, levels', c, outs, l, f, g);
    }
  }

  /** Replacing the inputs of a compaction keeps every invariant of versions. */
  lemma ReplaceKeepsVersion(levels: Levels, levels': Levels, c: Compaction, outs: seq<File>)
    requires ValidVersion(levels) && ValidCompaction(levels, c) && Replacement(levels, c, outs)
    requires Replaced(levels, levels', c, outs)
    requires forall l :: 0 <= l < NUM_LEVELS ==> Ordered(levels'[l])
    ensures OrderedVersion(levels')
    ensures AllContents(levels') == (AllContents(levels) - InputContents(c)) + Contents(outs)
  {
    InputsFit(levels, c, outs);
    ReplaceContents(levels, levels', c, outs);
    ReplaceDistinct(levels, levels', c, outs);
    ReplaceAged(levels, levels', c, outs);
    ReplaceUnique(levels, levels', c, outs);
    ReplaceValidFiles(levels, levels', c, outs);
    ReplaceAllApart(levels, levels', c, outs);
    VersionFromFiles(levels');
  }

  /** InstallCompactionResults: delete every input, add every output one level down. */
  function CompactionEdit(c: Compaction, outs: seq<File>): VersionEdit {
    VersionEdit((set f | f in c.inputs0 :: (c.level, f.number)) + (set f | f in c.inputs1 :: (c.level + 1, f.number)),
                Tagged(c.level + 1, outs))
  }

  /** The trivial move of BackgroundCompaction: the only input goes one level down as it is. */
  function MoveEdit(level: nat, f: File): VersionEdit {
    VersionEdit({(level, f.number)}, [(level + 1, f)])
  }

  lemma CompactionReplacesAt(levels: Levels, c: Compaction, outs: seq<File>, l: nat)
    requires |levels| == NUM_LEVELS && l < NUM_LEVELS && Ordered(levels[l]) && UniqueNumbers(levels)
    requires c.level + 1 < NUM_LEVELS && NumbersDiffer(outs)
    requires forall f :: f in c.inputs0 ==> f in levels[c.level]
    requires forall f :: f in c.inputs1 ==> f in levels[c.level + 1]
    requires forall f, g :: f in levels[l] && g in outs ==> f.number != g.number
    ensures var r := ApplyEdit(levels, CompactionEdit(c, outs))[l];
      Ordered(r) && forall f :: f in r <==> (f in levels[l] && !IsInput(c, l, f)) || (l == c.level + 1 && f in outs)
  {
    var e := CompactionEdit(c, outs);
    TaggedAt(c.level + 1, outs, l);
    AppliedMembers(levels, e, l);
    forall f | f in levels[l] ensures (l, f.number) in e.deleted <==> IsInput(c, l, f) {
      DeletedIsInput(levels, c, outs, l, f);
    }
  }

  lemma DeletedIsInput(levels: Levels, c: Compaction, outs: seq<File>, l: nat, f: File)
    requires UniqueNumbers(levels) && c.level + 1 < |levels| && l < |levels| && f in levels[l]
    requires forall g :: g in c.inputs0 ==> g in levels[c.level]
    requires forall g :: g in c.inputs1 ==> g in levels[c.level + 1]
    ensures (l, f.number) in CompactionEdit(c, outs).deleted <==> IsInput(c, l, f)
  {
    if (l, f.number) in (set g | g in c.inputs0 :: (c.level, g.number)) {
      var g :| g in c.inputs0 && (l, f.number) == (c.level, g.number);
      assert levels[l] == levels[c.level];
    } else if (l, f.number) in (set g | g in c.inputs1 :: (c.level + 1, g.number)) {
      var g :| g in c.inputs1 && (l, f.number) == (c.level + 1, g.number);
      assert levels[l] == levels[c.level + 1];
    }
  }

  lemma CompactionReplaces(levels: Levels, c: Compaction, outs: seq<File>)
    requires OrderedVersion(levels) && ValidCompaction(levels, c) && NumbersDiffer(outs)
    requires forall l, f, g :: 0 <= l < NUM_LEVELS && f in levels[l] && g in outs ==> f.number != g.number
    ensures Replaced(levels, ApplyEdit(levels, CompactionEdit(c, outs)), c, outs)
    ensures forall l :: 0 <= l < NUM_LEVELS ==> Ordered(ApplyEdit(levels, CompactionEdit(c, outs))[l])
  {
    var levels' := ApplyEdit(levels, CompactionEdit(c, outs));
    InputsAreFiles(levels, c);
    forall l | 0 <= l < NUM_LEVELS
      ensures Ordered(levels'[l])
      ensures forall f :: f in levels'[l] <==> (f in levels[l] && !IsInput(c, l, f)) || (l == c.level + 1 && f in outs)
    {
      CompactionReplacesAt(levels, c, outs, l);
    }
  }

  lemma MoveReplacesAt(levels: Levels, level: nat, f: File, l: nat)
    requires |levels| == NUM_LEVELS && l < NUM_LEVELS && Ordered(levels[l])
    requires forall g :: g in levels[l] && g.number == f.number ==> l == level && g == f
    ensures var r := ApplyEdit(levels, MoveEdit(level, f))[l];
      Ordered(r) && forall g :: g in r <==> (g in levels[l] && !(l == level && g == f)) || (l == level + 1 && g == f)
  {
    var e := MoveEdit(level, f);
    MoveAdds(levels, level, f, l);
    AppliedMembers(levels, e, l);
    assert forall g :: g in levels[l] ==> ((l, g.number) in e.deleted <==> l == level && g == f);
  }

  lemma MoveAdds(levels: Levels, level: nat, f: File, l: nat)
    requires |levels| == NUM_LEVELS && l < NUM_LEVELS
    requires forall g :: g in levels[l] && g.number == f.number ==> l == level && g == f
    ensures AddsNew(levels, MoveEdit(level, f), l)
    ensures forall g :: g in AddedAt(MoveEdit(level, f).added, l) <==> l == level + 1 && g == f
  {
    TaggedAt(level + 1, [f], l);
    assert Tagged(level + 1, [f]) == [(level + 1, f)];
    assert NumbersOf([f]) == {f.number};
  }

  lemma MoveReplaces(levels: Levels, c: Compaction, f: File)
    requires OrderedVersion(levels) && c.level + 1 < NUM_LEVELS && f in levels[c.level] && c.inputs0 == [f]
    requires c.inputs1 == []
    ensures Replaced(levels, ApplyEdit(levels, MoveEdit(c.level, f)), c, [f])
    ensures forall l :: 0 <= l < NUM_LEVELS ==> Ordered(ApplyEdit(levels, MoveEdit(c.level, f))[l])
  {
    var levels' := ApplyEdit(levels, MoveEdit(c.level, f));
    forall l | 0 <= l < NUM_LEVELS
      ensures Ordered(levels'[l])
      ensures forall g ::
          g in levels'[l] <==> (g in levels[l] && !(l == c.level && g == f)) || (l == c.level + 1 && g == f)
    {
      UniqueInLevel(levels, c.level, f, l);
      MoveReplacesAt(levels, c.level, f, l);
    }
    assert forall l, g :: IsInput(c, l, g) <==> l == c.level && g == f;
  }

  lemma UniqueInLevel(levels: Levels, level: nat, f: File, l: nat)
    requires UniqueNumbers(levels) && level < |levels| && l < |levels| && f in levels[level]
    ensures forall g :: g in levels[l] && g.number == f.number ==> l == level && g == f
  {
    assert levels[level] == levels[level];
  }

  /** A trivial move changes no entry and keeps the invariants. */
  lemma MoveKeepsVersion(levels: Levels, c: Compaction, f: File)
    requires OrderedVersion(levels) && ValidCompaction(levels, c) && c.inputs0 == [f] && c.inputs1 == []
    ensures OrderedVersion(ApplyEdit(levels, MoveEdit(c.level, f)))
    ensures AllContents(ApplyEdit(levels, MoveEdit(c.level, f))) == AllContents(levels)
  {
    assert f in c.inputs0;
    MoveReplaces(levels, c, f);
    MoveFits(levels, c, f);
    ReplaceKeepsVersion(levels, ApplyEdit(levels, MoveEdit(c.level, f)), c, [f]);
    InputsInVersion(levels, c);
  }

  lemma MoveFits(levels: Levels, c: Compaction, f: File)
    requires ValidVersion(levels) && ValidCompaction(levels, c) && c.inputs0 == [f] && c.inputs1 == []
    ensures Replacement(levels, c, [f]) && Contents([f]) == InputContents(c)
  {
    InputsAreFiles(levels, c);
    assert f in c.inputs0;
    MoveNumbersFit(levels, c, f);
  }

  lemma MoveNumbersFit(levels: Levels, c: Compaction, f: File)
    requires UniqueNumbers(levels) && c.level < |levels| && f in levels[c.level] && c.inputs0 == [f]
    ensures NumbersFit(levels, c, [f])
  {
    forall l, g, h: File | 0 <= l < |levels| && g in levels[l] && !IsInput(c, l, g) && h in [f]
      ensures g.number != h.number
    {
      assert f in levels[c.level] && f in c.inputs0;
    }
  }

  // ----- what the compaction loop writes -----

  lemma {:induction false} ConcatMembers(outs: seq<File>)
    ensures Elements(Concat(outs)) == Contents(outs)
  {
    if outs != [] {
      var init, last := outs[..|outs| - 1], outs[|outs| - 1];
      ConcatMembers(init);
      assert outs == init + [last];
      forall e ensures e in Concat(outs) <==> e in Contents(outs) {
        assert e in Concat(outs) <==> e in Elements(Concat(init)) || e in last.table;
        if e in last.table { assert last in outs; }
        if e in Contents(init) { var f :| f in init && e in f.table; assert f in outs; }
      }
    }
  }

  lemma {:induction false} ConcatSorted(outs: seq<File>)
    requires Sorted(Concat(outs)) && forall i :: 0 <= i < |outs| ==> ValidFile(outs[i])
    ensures LevelSorted(outs)
  {
    if outs != [] {
      var init, last := outs[..|outs| - 1], outs[|outs| - 1];
      var before := Concat(init);
      assert forall i :: 0 <= i < |before| ==> Concat(outs)[i] == before[i];
      ConcatSorted(init);
      ConcatMembers(init);
      forall i | 0 <= i < |init| ensures Before(outs[i].largest, last.smallest) {
        var e := init[i].table[|init[i].table| - 1];
        assert init[i] in init && e in init[i].table;
        assert e in Contents(init);
        var k :| 0 <= k < |before| && before[k] == e;
        assert Concat(outs)[|before|] == last.table[0];
      }
    }
  }

  /** The inputs of a compaction, merged. */
  ghost predicate MergeOf(c: Compaction, merged: seq<Entry>) {
    Sorted(merged) && Elements(merged) == InputContents(c)
  }

  /** The files the loop wrote are in order and hold just the entries that survive both drop rules. */
  lemma OutputsSurvive(levels: Levels, level: nat, merged: seq<Entry>, smallest: Sequence, outs: seq<File>, first: nat,
                       next: nat)
    requires Sorted(merged) && Distinct(Elements(merged))
    requires Outputs(outs, [], first, next, Kept(levels, level, merged, |merged|, smallest))
    ensures ValidFiles(outs) && LevelSorted(outs) && NumbersDiffer(outs) && forall f :: f in outs ==> first <= f.number
    ensures Contents(outs) == Survivors(levels, level, Elements(merged), smallest)
  {
    assert Concat(outs) == Kept(levels, level, merged, |merged|, smallest);
    KeptSorted(levels, level, merged, |merged|, smallest);
    ConcatSorted(outs);
    ConcatMembers(outs);
    KeptAreSurvivors(levels, level, merged, smallest);
  }

  lemma NewNumbersFit(levels: Levels, c: Compaction, outs: seq<File>, first: nat)
    requires NumbersDiffer(outs) && forall f :: f in outs ==> first <= f.number
    requires forall l, f :: 0 <= l < |levels| && f in levels[l] ==> f.number < first
    ensures NumbersFit(levels, c, outs)
    ensures forall l, f, g :: 0 <= l < |levels| && f in levels[l] && g in outs ==> f.number != g.number
  {
  }

  /** The outputs of a finished compaction: files in order, with new numbers, holding what both drop rules keep. */
  ghost predicate OutputsReady(levels: Levels, c: Compaction, smallest: Sequence, outs: seq<File>, first: nat) {
    && ValidFiles(outs) && LevelSorted(outs) && NumbersDiffer(outs)
    && (forall f :: f in outs ==> first <= f.number)
    && Contents(outs) == Survivors(levels, c.level, InputContents(c), smallest)
  }

  lemma ReadyReplaces(levels: Levels, c: Compaction, smallest: Sequence, outs: seq<File>, first: nat)
    requires OrderedVersion(levels) && ValidCompaction(levels, c) && OutputsReady(levels, c, smallest, outs, first)
    requires forall l, f :: 0 <= l < NUM_LEVELS && f in levels[l] ==> f.number < first
    ensures Replacement(levels, c, outs) && Replaced(levels, ApplyEdit(levels, CompactionEdit(c, outs)), c, outs)
    ensures forall l :: 0 <= l < NUM_LEVELS ==> Ordered(ApplyEdit(levels, CompactionEdit(c, outs))[l])
  {
    NewNumbersFit(levels, c, outs, first);
    CompactionReplaces(levels, c, outs);
  }

  /** The core of a compaction install: the invariants of versions, and just the droppable entries gone. */
  lemma CompactionKeepsVersion(levels: Levels, c: Compaction, smallest: Sequence, outs: seq<File>, first: nat)
    requires OrderedVersion(levels) && ValidCompaction(levels, c) && OutputsReady(levels, c, smallest, outs, first)
    requires forall l, f :: 0 <= l < NUM_LEVELS && f in levels[l] ==> f.number < first
    ensures var levels' := ApplyEdit(levels, CompactionEdit(c, outs));
      && OrderedVersion(levels')
      && AllContents(levels')
           == (AllContents(levels) - InputContents(c)) + Survivors(levels, c.level, InputContents(c), smallest)
      && InputContents(c) <= AllContents(levels)
  {
    InputsInVersion(levels, c);
    ReadyReplaces(levels, c, smallest, outs, first);
    ReplaceKeepsVersion(levels, ApplyEdit(levels, CompactionEdit(c, outs)), c, outs);
  }

  // ----- when dropping deletion markers is safe -----

  /** Running AddBoundaryInputs on the next level's inputs too would add nothing. */
  ghost predicate NextLevelClosed(levels: Levels, c: Compaction) {
    c.level + 1 < |levels| && BoundaryClosed(levels[c.level + 1], c.inputs1)
  }

  /**
   * With the next level closed, what lies outside the inputs down to the output level is newer than what they
   * hold of the same key.
   */
  lemma NothingOlderOutside(levels: Levels, c: Compaction, h: File, m: Entry, i: nat, g: File, o: Entry)
    requires ValidVersion(levels) && ValidCompaction(levels, c) && NextLevelClosed(levels, c)
    requires (h in c.inputs0 || h in c.inputs1) && ValidFile(h) && m in h.table && i <= c.level + 1
    requires g in levels[i] && !IsInput(c, i, g) && o in g.table && o.key.user == m.key.user
    ensures o.key.seqno > m.key.seqno
  {
    if i <= c.level {
      UpperEntryNewer(levels, c, i, g, h, o, m);
    } else {
      NextLevelNewer(levels, c, g, h, o, m);
    }
  }

  lemma FilesValid(levels: Levels, i: nat, g: File)
    requires ValidVersion(levels) && i < NUM_LEVELS && g in levels[i]
    ensures ValidFile(g)
  {
  }

  lemma UpperEntryNewer(levels: Levels, c: Compaction, i: nat, g: File, h: File, o: Entry, m: Entry)
    requires ValidVersion(levels) && ValidCompaction(levels, c) && (h in c.inputs0 || h in c.inputs1)
    requires i <= c.level && g in levels[i] && !IsInput(c, i, g)
    requires o in g.table && m in h.table && o.key.user == m.key.user
    ensures o.key.seqno > m.key.seqno
  {
    UpperNewerThanInput(levels, c, i, g, h);
  }

  lemma InputHolding(levels: Levels, c: Compaction, m: Entry) returns (h: File)
    requires ValidVersion(levels) && ValidCompaction(levels, c) && m in InputContents(c)
    ensures (h in c.inputs0 || h in c.inputs1) && m in h.table && ValidFile(h)
  {
    InputsAreFiles(levels, c);
    h :| (h in c.inputs0 || h in c.inputs1) && m in h.table;
  }

  lemma StayerKeyOutside(next: seq<File>, c: Compaction, g: File, o: Entry)
    requires ValidFiles(next) && c.inputs1 == Selected(next, Some(c.smallest.user), Some(c.largest.user))
    requires g in next && g !in c.inputs1 && o in g.table
    ensures !(c.smallest.user <= o.key.user <= c.largest.user)
  {
    StayerOutside(next, c, g);
    WithinBounds(g, o);
  }

  lemma BaseExcludes(levels: Levels, level: nat, i: nat, g: File, o: Entry)
    requires BaseLevelFor(levels, level, o.key.user) && i < |levels| && g in levels[i] && ValidFile(g) && o in g.table
    ensures i <= level + 1
  {
    WithinBounds(g, o);
  }

  lemma NextLevelNewer(levels: Levels, c: Compaction, g: File, h: File, o: Entry, m: Entry)
    requires ValidVersion(levels) && ValidCompaction(levels, c) && NextLevelClosed(levels, c)
    requires g in levels[c.level + 1] && g !in c.inputs1 && (h in c.inputs0 || h in c.inputs1) && ValidFile(h)
    requires o in g.table && m in h.table && o.key.user == m.key.user
    ensures o.key.seqno > m.key.seqno
  {
    var next := levels[c.level + 1];
    if h in c.inputs0 {
      InRange(c, h, m);
      StayerKeyOutside(next, c, g, o);
    } else {
      assert next in levels;
      SelectedMembers(next, Some(c.smallest.user), Some(c.largest.user));
      SelectedNewer(next, c, g, h, o, m);
      assert o in AllContents(levels) && m in AllContents(levels);
    }
  }

  lemma SelectedNewer(next: seq<File>, c: Compaction, g: File, h: File, o: Entry, m: Entry)
    requires ValidFiles(next) && LevelSorted(next)
    requires c.inputs1 == Selected(next, Some(c.smallest.user), Some(c.largest.user))
    requires BoundaryClosed(next, c.inputs1)
    requires g in next && g !in c.inputs1 && h in c.inputs1 && ValidFile(h)
    requires o in g.table && m in h.table && o.key.user == m.key.user
    ensures Before(o.key, m.key)
  {
    WithinBounds(g, o);
    WithinBounds(h, m);
    SelectedBeside(next, c, g, h);
    if c.smallest.user <= g.largest.user {
      NextLevelNotAfter(next, c, g, h);
    }
  }

  lemma NextLevelNotAfter(next: seq<File>, c: Compaction, g: File, h: File)
    requires ValidFiles(next) && LevelSorted(next)
    requires c.inputs1 == Selected(next, Some(c.smallest.user), Some(c.largest.user))
    requires BoundaryClosed(next, c.inputs1)
    requires g in next && g !in c.inputs1 && h in c.inputs1
    requires c.smallest.user <= g.largest.user
    ensures h.largest.user < g.smallest.user
  {
    var low, high := RangeOf(c.inputs1);
    var top :| top in c.inputs1 && top.largest == high;
    SelectedBeside(next, c, g, top);
    assert !IsBoundary(g, high);
    assert !Before(high, h.largest);
  }

  lemma {:induction false} RangeOf(files: seq<File>) returns (low: InternalKey, high: InternalKey)
    requires files != []
    ensures IsRange(files, low, high)
  {
    var last := files[|files| - 1];
    if |files| == 1 {
      low, high := last.smallest, last.largest;
    } else {
      var init := files[..|files| - 1];
      assert files == init + [last];
      low, high := RangeOf(init);
      if Before(last.smallest, low) { low := last.smallest; }
      if Before(high, last.largest) { high := last.largest; }
    }
  }

  /** With the next level closed, no marker the compaction drops uncovers an old value. */
  lemma NothingUncovered(levels: Levels, c: Compaction, mem: set<Entry>, smallest: Sequence)
    requires ValidVersion(levels) && ValidCompaction(levels, c) && NextLevelClosed(levels, c)
    requires NewerThan(mem, AllContents(levels)) && Distinct(mem + AllContents(levels))
    ensures var rest := (AllContents(levels) - InputContents(c)) + mem;
      forall m, o :: !Uncovers(levels, c.level, InputContents(c), rest, smallest, m, o)
  {
    var rest := (AllContents(levels) - InputContents(c)) + mem;
    InputsInVersion(levels, c);
    forall m, o | Uncovers(levels, c.level, InputContents(c), rest, smallest, m, o) ensures false {
      assert Visible(InputContents(c) + rest, m.key.user, smallest, o);
      assert o.key.seqno <= m.key.seqno;
      if o !in mem {
        var i, g := Locate(levels, o);
        assert !IsInput(c, i, g);
        FilesValid(levels, i, g);
        BaseExcludes(levels, c.level, i, g, o);
        var h := InputHolding(levels, c, m);
        NothingOlderOutside(levels, c, h, m, i, g, o);
      }
    }
  }
}
