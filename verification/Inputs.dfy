/** Choosing the input files of a compaction and the level of a flush (db/version_set.cc). */
module Inputs {
  import opened Keys
  import opened Version

  /** The files whose user-key range meets [low, high], in their own order. */
  function Selected(files: seq<File>, low: Option<UserKey>, high: Option<UserKey>): seq<File> {
    if files == [] then []
    else
      var rest := Selected(files[..|files| - 1], low, high);
      var last := files[|files| - 1];
      if Overlaps(last, low, high) then rest + [last] else rest
  }

  lemma {:induction false} SelectedMembers(files: seq<File>, low: Option<UserKey>, high: Option<UserKey>)
    ensures forall f :: f in Selected(files, low, high) <==> f in files && Overlaps(f, low, high)
  {
    if files != [] {
      SelectedMembers(files[..|files| - 1], low, high);
      assert files == files[..|files| - 1] + [files[|files| - 1]];
    }
  }

  /** Two files share a user key, or could. */
  predicate Touch(f: File, g: File) {
    f.smallest.user <= g.largest.user && g.smallest.user <= f.largest.user
  }

  /** `c` holds every file that meets the range, and every file that touches one of its own. */
  ghost predicate ClosedUnderOverlap(files: seq<File>, low: Option<UserKey>, high: Option<UserKey>, c: set<File>) {
    && (forall f :: f in files && Overlaps(f, low, high) ==> f in c)
    && (forall f, g :: f in files && g in files && g in c && Touch(f, g) ==> f in c)
  }

  ghost predicate LeastClosed(files: seq<File>, low: Option<UserKey>, high: Option<UserKey>, inputs: seq<File>) {
    && (forall f :: f in inputs ==> f in files)
    && ClosedUnderOverlap(files, low, high, set f | f in inputs)
    && forall c: set<File>, f: File :: ClosedUnderOverlap(files, low, high, c) && f in inputs ==> f in c
  }

  /** How many files still stick out of the range: the measure by which the search may restart. */
  ghost function StickingOut(files: seq<File>, low: Option<UserKey>, high: Option<UserKey>): nat {
    if files == [] then 0
    else
      var below := if low.Some? && files[0].smallest.user < low.value then 1 else 0;
      var above := if high.Some? && files[0].largest.user > high.value then 1 else 0;
      below + above + StickingOut(files[1..], low, high)
  }

  lemma {:induction false} WideningShrinks(files: seq<File>, low: Option<UserKey>, high: Option<UserKey>,
                                            low': Option<UserKey>, high': Option<UserKey>)
    requires low'.Some? == low.Some? && high'.Some? == high.Some?
    requires low.Some? ==> low'.value <= low.value
    requires high.Some? ==> high.value <= high'.value
    ensures StickingOut(files, low', high') <= StickingOut(files, low, high)
    ensures (exists f :: f in files && low.Some? && low'.value <= f.smallest.user < low.value) ==>
              StickingOut(files, low', high') < StickingOut(files, low, high)
    ensures (exists f :: f in files && high.Some? && high.value < f.largest.user <= high'.value) ==>
              StickingOut(files, low', high') < StickingOut(files, low, high)
  {
    if files != [] {
      WideningShrinks(files[1..], low, high, low', high');
      assert files == [files[0]] + files[1..];
    }
  }

  /** Whatever meets the current range must be in every closed set over the original range. */
  ghost predicate Forced(files: seq<File>, begin: Option<UserKey>, end: Option<UserKey>, low: Option<UserKey>,
                         high: Option<UserKey>)
  {
    forall c: set<File>, f ::
        ClosedUnderOverlap(files, begin, end, c) && f in files && Overlaps(f, low, high) ==> f in c
  }

  lemma WideningForced(files: seq<File>, begin: Option<UserKey>, end: Option<UserKey>, low: Option<UserKey>,
                       high: Option<UserKey>, low': Option<UserKey>, high': Option<UserKey>, g: File)
    requires Forced(files, begin, end, low, high)
    requires g in files && Overlaps(g, low, high) && forall f :: f in files ==> f.smallest.user <= f.largest.user
    requires low' == low || (low.Some? && low' == Some(g.smallest.user))
    requires high' == high || (high.Some? && high' == Some(g.largest.user))
    ensures Forced(files, begin, end, low', high')
  {
    forall c: set<File>, f | ClosedUnderOverlap(files, begin, end, c) && f in files && Overlaps(f, low', high')
      ensures f in c
    {
      assert g in c;
      if !Overlaps(f, low, high) { assert Touch(f, g); }
    }
  }

  predicate Contained(f: File, low: Option<UserKey>, high: Option<UserKey>) {
    (low.Some? ==> low.value <= f.smallest.user) && (high.Some? ==> f.largest.user <= high.value)
  }

  ghost predicate AllContained(files: seq<File>, low: Option<UserKey>, high: Option<UserKey>) {
    forall k :: 0 <= k < |files| ==> Contained(files[k], low, high)
  }

  /** The range has grown from that one, on the sides that are bounded. */
  predicate Wider(begin: Option<UserKey>, end: Option<UserKey>, low: Option<UserKey>, high: Option<UserKey>) {
    && low.Some? == begin.Some? && high.Some? == end.Some?
    && (begin.Some? ==> low.value <= begin.value) && (end.Some? ==> end.value <= high.value)
  }

  lemma SelectedNext(files: seq<File>, i: nat, low: Option<UserKey>, high: Option<UserKey>)
    requires i < |files|
    ensures Selected(files[..i + 1], low, high)
         == Selected(files[..i], low, high) + if Overlaps(files[i], low, high) then [files[i]] else []
  {
    assert files[..i + 1] == files[..i] + [files[i]];
  }

  /** Version::GetOverlappingInputs. The range grows at level 0 only, restarting the search. */
  method GetOverlappingInputs(files: seq<File>, levelZero: bool, begin: Option<UserKey>, end: Option<UserKey>)
    returns (inputs: seq<File>, ghost low: Option<UserKey>, ghost high: Option<UserKey>)
    requires ValidFiles(files)
    ensures inputs == Selected(files, low, high)
    ensures !levelZero ==> low == begin && high == end
    ensures levelZero ==> LeastClosed(files, begin, end, inputs)
  {
    inputs := [];
    var userBegin, userEnd := begin, end;
    var i := 0;
    assert forall f | f in files :: f.smallest.user <= f.largest.user by { FilesOrdered(files); }
    while i < |files|
      invariant 0 <= i <= |files|
      invariant inputs == Selected(files[..i], userBegin, userEnd)
      invariant Wider(begin, end, userBegin, userEnd) && (!levelZero ==> userBegin == begin && userEnd == end)
      invariant levelZero ==> AllContained(inputs, userBegin, userEnd)
      invariant Forced(files, begin, end, userBegin, userEnd)
      decreases StickingOut(files, userBegin, userEnd), |files| - i
    {
      var f := files[i];
      SelectedNext(files, i, userBegin, userEnd);
      i := i + 1;
      if begin.Some? && f.largest.user < userBegin.value {
      } else if end.Some? && f.smallest.user > userEnd.value {
      } else {
        inputs := inputs + [f];
        if levelZero {
          if begin.Some? && f.smallest.user < userBegin.value {
            WideningShrinks(files, userBegin, userEnd, Some(f.smallest.user), userEnd);
            WideningForced(files, begin, end, userBegin, userEnd, Some(f.smallest.user), userEnd, f);
            userBegin := Some(f.smallest.user);
            inputs := [];
            i := 0;
          } else if end.Some? && f.largest.user > userEnd.value {
            WideningShrinks(files, userBegin, userEnd, userBegin, Some(f.largest.user));
            WideningForced(files, begin, end, userBegin, userEnd, userBegin, Some(f.largest.user), f);
            userEnd := Some(f.largest.user);
            inputs := [];
            i := 0;
          }
        }
      }
    }
    assert files[..i] == files;
    low, high := userBegin, userEnd;
    if levelZero { FixpointIsLeast(files, begin, end, low, high, inputs); }
  }

  /** Once everything selected lies inside the range, the selection is the least closed set. */
  lemma FixpointIsLeast(files: seq<File>, begin: Option<UserKey>, end: Option<UserKey>, low: Option<UserKey>,
                        high: Option<UserKey>, inputs: seq<File>)
    requires inputs == Selected(files, low, high) && Forced(files, begin, end, low, high)
    requires Wider(begin, end, low, high) && AllContained(inputs, low, high)
    ensures LeastClosed(files, begin, end, inputs)
  {
    SelectedMembers(files, low, high);
  }

  lemma FilesOrdered(files: seq<File>)
    requires ValidFiles(files)
    ensures forall f :: f in files ==> f.smallest.user <= f.largest.user
  {
    forall f | f in files ensures f.smallest.user <= f.largest.user {
      WithinBounds(f, f.table[0]);
    }
  }

  /** `low` and `high` are the least and the greatest internal key of the files. */
  ghost predicate IsRange(files: seq<File>, low: InternalKey, high: InternalKey) {
    && (exists f :: f in files && f.smallest == low)
    && (exists f :: f in files && f.largest == high)
    && (forall f :: f in files ==> !Before(f.smallest, low) && !Before(high, f.largest))
  }

  /** VersionSet::GetRange */
  method GetRange(files: seq<File>) returns (low: InternalKey, high: InternalKey)
    requires files != []
    ensures IsRange(files, low, high)
  {
    low, high := files[0].smallest, files[0].largest;
    for i := 1 to |files|
      invariant IsRange(files[..i], low, high)
    {
      assert files[..i + 1] == files[..i] + [files[i]];
      if Before(files[i].smallest, low) { low := files[i].smallest; }
      if Before(high, files[i].largest) { high := files[i].largest; }
    }
    assert files[..|files|] == files;
  }

  /** Some file starts after `largest` with the same user key: older versions left behind. */
  predicate IsBoundary(f: File, largest: InternalKey) {
    Before(largest, f.smallest) && f.smallest.user == largest.user
  }

  method FindSmallestBoundaryFile(levelFiles: seq<File>, largest: InternalKey) returns (r: Option<File>)
    ensures r.None? ==> forall f :: f in levelFiles ==> !IsBoundary(f, largest)
    ensures r.Some? ==> r.value in levelFiles && IsBoundary(r.value, largest)
    ensures r.Some? ==> forall f :: f in levelFiles && IsBoundary(f, largest) ==> !Before(f.smallest, r.value.smallest)
  {
    r := None;
    for i := 0 to |levelFiles|
      invariant r.None? ==> forall f :: f in levelFiles[..i] ==> !IsBoundary(f, largest)
      invariant r.Some? ==> r.value in levelFiles && IsBoundary(r.value, largest)
      invariant r.Some? ==> forall f ::
          f in levelFiles[..i] && IsBoundary(f, largest) ==> !Before(f.smallest, r.value.smallest)
    {
      var f := levelFiles[i];
      assert levelFiles[..i + 1] == levelFiles[..i] + [f];
      if IsBoundary(f, largest) {
        if r.None? || Before(f.smallest, r.value.smallest) {
          r := Some(f);
        }
      }
    }
    assert levelFiles[..|levelFiles|] == levelFiles;
  }

  ghost function StartingAfter(files: seq<File>, largest: InternalKey): nat {
    if files == [] then 0
    else (if Before(largest, files[0].smallest) then 1 else 0) + StartingAfter(files[1..], largest)
  }

  lemma {:induction false} AdvancingShrinks(files: seq<File>, largest: InternalKey, f: File)
    requires ValidFile(f) && Before(largest, f.smallest)
    ensures StartingAfter(files, f.largest) <= StartingAfter(files, largest)
    ensures f in files ==> StartingAfter(files, f.largest) < StartingAfter(files, largest)
  {
    WithinBounds(f, f.table[0]);
    if files != [] {
      AdvancingShrinks(files[1..], largest, f);
      assert files == [files[0]] + files[1..];
    }
  }

  /** No file of the level starts after the inputs with the user key the inputs end with. */
  ghost predicate BoundaryClosed(levelFiles: seq<File>, inputs: seq<File>) {
    forall f, low, high {:trigger IsBoundary(f, high), IsRange(inputs, low, high)} ::
      f in levelFiles && IsRange(inputs, low, high) ==> !IsBoundary(f, high)
  }

  /** Nothing of the level lies between two inputs without being one. */
  ghost predicate Convex(levelFiles: seq<File>, inputs: seq<File>) {
    forall f, g, h {:trigger Before(f.largest, g.smallest), Before(g.largest, h.smallest)} ::
      f in inputs && g in levelFiles && h in inputs && Before(f.largest, g.smallest) && Before(g.largest, h.smallest)
      ==> g in inputs
  }

  lemma SortedApart(files: seq<File>, g: File, h: File)
    requires LevelSorted(files) && g in files && h in files
    ensures g == h || Before(g.largest, h.smallest) || Before(h.largest, g.smallest)
  {
    var i :| 0 <= i < |files| && files[i] == g;
    var j :| 0 <= j < |files| && files[j] == h;
  }

  lemma BoundaryKeepsConvex(levelFiles: seq<File>, inputs: seq<File>, low: InternalKey, largest: InternalKey, b: File)
    requires ValidFiles(levelFiles) && LevelSorted(levelFiles) && (forall f :: f in inputs ==> f in levelFiles)
    requires IsRange(inputs, low, largest) && Convex(levelFiles, inputs)
    requires b in levelFiles && IsBoundary(b, largest)
    requires forall f :: f in levelFiles && IsBoundary(f, largest) ==> !Before(f.smallest, b.smallest)
    ensures Convex(levelFiles, inputs + [b])
  {
    var top :| top in inputs && top.largest == largest;
    forall f, g, h | f in inputs + [b] && g in levelFiles && h in inputs + [b] && Before(f.largest, g.smallest)
        && Before(g.largest, h.smallest)
      ensures g in inputs + [b]
    {
      WithinBounds(g, g.table[0]);
      WithinBounds(b, b.table[0]);
      WithinBounds(f, f.table[0]);
      WithinBounds(h, h.table[0]);
      SortedApart(levelFiles, g, top);
      if f in inputs && h !in inputs {
        if Before(largest, g.smallest) { assert IsBoundary(g, largest); }
      }
    }
  }

  /** `f` is the boundary file of the inputs that starts first. */
  ghost predicate NearestBoundary(levelFiles: seq<File>, inputs: seq<File>, f: File) {
    && f in levelFiles
    && exists low, high ::
         && IsRange(inputs, low, high)
         && IsBoundary(f, high)
         && forall g :: g in levelFiles && IsBoundary(g, high) ==> !Before(g.smallest, f.smallest)
  }

  /** `r` is `files` and behind them, one after the other, the boundary files, until there is none left. */
  ghost predicate ClosesOver(levelFiles: seq<File>, files: seq<File>, r: seq<File>) {
    && files <= r && BoundaryClosed(levelFiles, r)
    && forall i {:trigger NearestBoundary(levelFiles, r[..i], r[i])} ::
           |files| <= i < |r| ==> NearestBoundary(levelFiles, r[..i], r[i])
  }

  method AddBoundaryInputs(levelFiles: seq<File>, files: seq<File>) returns (r: seq<File>)
    requires ValidFiles(levelFiles) && forall f :: f in files ==> f in levelFiles
    ensures ClosesOver(levelFiles, files, r) && forall f :: f in r ==> f in levelFiles
    ensures BoundaryClosed(levelFiles, files) ==> r == files
    ensures LevelSorted(levelFiles) && Convex(levelFiles, files) ==> Convex(levelFiles, r)
  {
    r := files;
    if files == [] {
      return;
    }
    var low, largest := GetRange(files);
    var searching := true;
    while searching
      invariant files <= r && r != [] && IsRange(r, low, largest)
      invariant forall f :: f in r ==> f in levelFiles
      invariant forall i {:trigger NearestBoundary(levelFiles, r[..i], r[i])} ::
           |files| <= i < |r| ==> NearestBoundary(levelFiles, r[..i], r[i])
      invariant !searching ==> forall f :: f in levelFiles ==> !IsBoundary(f, largest)
      invariant BoundaryClosed(levelFiles, files) ==> r == files
      invariant LevelSorted(levelFiles) && Convex(levelFiles, files) ==> Convex(levelFiles, r)
      decreases StartingAfter(levelFiles, largest), searching
    {
      var b := FindSmallestBoundaryFile(levelFiles, largest);
      if b.Some? {
        AdvancingShrinks(levelFiles, largest, b.value);
        AppendingExtends(r, low, largest, b.value);
        assert NearestBoundary(levelFiles, r, b.value);
        SnocKeeps(levelFiles, files, r, b.value);
        if LevelSorted(levelFiles) && Convex(levelFiles, files) {
          BoundaryKeepsConvex(levelFiles, r, low, largest, b.value);
        }
        r := r + [b.value];
        largest := b.value.largest;
      } else {
        searching := false;
      }
    }
    forall f, lo, hi | f in levelFiles && IsRange(r, lo, hi) ensures !IsBoundary(f, hi) {
      RangeIsUnique(r, low, largest, lo, hi);
    }
  }

  lemma SnocKeeps(levelFiles: seq<File>, files: seq<File>, r: seq<File>, f: File)
    requires files <= r && NearestBoundary(levelFiles, r, f)
    requires forall i {:trigger NearestBoundary(levelFiles, r[..i], r[i])} ::
           |files| <= i < |r| ==> NearestBoundary(levelFiles, r[..i], r[i])
    ensures forall i {:trigger NearestBoundary(levelFiles, (r + [f])[..i], (r + [f])[i])} ::
           |files| <= i < |r + [f]| ==> NearestBoundary(levelFiles, (r + [f])[..i], (r + [f])[i])
  {
    forall i | |files| <= i < |r + [f]| ensures NearestBoundary(levelFiles, (r + [f])[..i], (r + [f])[i]) {
      assert (r + [f])[..i] == if i < |r| then r[..i] else r;
    }
  }

  lemma AppendingExtends(files: seq<File>, low: InternalKey, high: InternalKey, f: File)
    requires IsRange(files, low, high) && forall g :: g in files ==> ValidFile(g)
    requires ValidFile(f) && Before(high, f.smallest)
    ensures IsRange(files + [f], low, f.largest)
  {
    WithinBounds(f, f.table[0]);
    var g :| g in files && g.largest == high;
    WithinBounds(g, g.table[0]);
    var h :| h in files && h.smallest == low;
    assert h in files + [f] && f in files + [f];
  }

  /** The range is unique up to keys that compare equal. */
  lemma RangeIsUnique(files: seq<File>, low: InternalKey, high: InternalKey, low': InternalKey, high': InternalKey)
    requires IsRange(files, low, high) && IsRange(files, low', high')
    ensures low.user == low'.user && Tag(low) == Tag(low')
    ensures high.user == high'.user && Tag(high) == Tag(high')
  {
  }

  datatype Compaction = Compaction(level: nat, inputs0: seq<File>, inputs1: seq<File>, smallest: InternalKey,
      largest: InternalKey)

  /** What SetupOtherInputs establishes about the files of a compaction. */
  ghost predicate ValidCompaction(levels: Levels, c: Compaction) {
    && |levels| == NUM_LEVELS && c.level + 1 < NUM_LEVELS
    && (forall f :: f in c.inputs0 ==> f in levels[c.level])
    && IsRange(c.inputs0, c.smallest, c.largest)
    && c.inputs1 == Selected(levels[c.level + 1], Some(c.smallest.user), Some(c.largest.user))
    && BoundaryClosed(levels[c.level], c.inputs0)
    && (if c.level == 0 then OverlapClosed(levels[0], c.inputs0) else Convex(levels[c.level], c.inputs0))
  }

  ghost predicate OverlapClosed(files: seq<File>, inputs: seq<File>) {
    forall f, g {:trigger Touch(f, g)} :: f in files && g in inputs && Touch(f, g) ==> f in inputs
  }

  lemma LeastClosedIsOverlapClosed(files: seq<File>, low: Option<UserKey>, high: Option<UserKey>, inputs: seq<File>)
    requires ValidFiles(files) && LeastClosed(files, low, high, inputs)
    ensures OverlapClosed(files, inputs) && BoundaryClosed(files, inputs)
  {
    var s := set f | f in inputs;
    forall f, g | f in files && g in inputs && Touch(f, g) ensures f in inputs { assert g in s; }
    forall f, lo, hi | f in files && IsRange(inputs, lo, hi) ensures !IsBoundary(f, hi) {
      if IsBoundary(f, hi) {
        var g :| g in inputs && g.largest == hi;
        WithinBounds(f, f.table[0]);
        WithinBounds(g, g.table[0]);
        assert Touch(f, g);
      }
    }
  }

  function TotalFileSize(files: seq<File>): nat {
    if files == [] then 0 else files[0].size + TotalFileSize(files[1..])
  }

  /**
   * What the level has in the range of both input sets: at level 0 all that hangs together with it, and the
   * boundary files.
   */
  ghost predicate IsExpansion(levels: Levels, base: Compaction, expanded0: seq<File>)
    requires |levels| == NUM_LEVELS && base.level < NUM_LEVELS
  {
    exists start, limit, selected
      {:trigger IsRange(base.inputs0 + base.inputs1, start, limit),
          ClosesOver(levels[base.level], selected, expanded0)} ::
      && IsRange(base.inputs0 + base.inputs1, start, limit)
      && InRange(levels[base.level], base.level == 0, Some(start.user), Some(limit.user), selected)
      && ClosesOver(levels[base.level], selected, expanded0)
  }

  /** GetOverlappingInputs returns `inputs`. */
  ghost predicate InRange(files: seq<File>, levelZero: bool, begin: Option<UserKey>, end: Option<UserKey>,
                          inputs: seq<File>)
  {
    if levelZero then LeastClosed(files, begin, end, inputs) && exists low, high :: inputs == Selected(files, low, high)
    else inputs == Selected(files, begin, end)
  }

  function LeastUser(files: seq<File>): (r: UserKey)
    requires files != []
    ensures forall f :: f in files ==> r <= f.smallest.user
  {
    var last := files[|files| - 1].smallest.user;
    if |files| == 1 then last
    else
      assert files == files[..|files| - 1] + [files[|files| - 1]];
      var rest := LeastUser(files[..|files| - 1]);
      if last < rest then last else rest
  }

  function GreatestUser(files: seq<File>): (r: UserKey)
    requires files != []
    ensures forall f :: f in files ==> f.largest.user <= r
  {
    var last := files[|files| - 1].largest.user;
    if |files| == 1 then last
    else
      assert files == files[..|files| - 1] + [files[|files| - 1]];
      var rest := GreatestUser(files[..|files| - 1]);
      if last > rest then last else rest
  }

  lemma {:induction false} LeastIsUsed(files: seq<File>)
    requires files != []
    ensures exists f :: f in files && f.smallest.user == LeastUser(files)
    ensures exists f :: f in files && f.largest.user == GreatestUser(files)
  {
    assert files[|files| - 1] in files;
    if |files| > 1 {
      LeastIsUsed(files[..|files| - 1]);
    }
  }

  lemma RangeUsers(files: seq<File>, low: InternalKey, high: InternalKey)
    requires IsRange(files, low, high) && files != []
    ensures low.user == LeastUser(files) && high.user == GreatestUser(files)
  {
    LeastIsUsed(files);
    var f :| f in files && f.smallest.user == LeastUser(files);
    var g :| g in files && g.largest.user == GreatestUser(files);
    assert !Before(f.smallest, low) && !Before(high, g.largest);
  }

  /** How many files have a user key in the range of `files`. */
  function MeetCount(next: seq<File>, files: seq<File>): nat
    requires files != []
  {
    |Selected(next, Some(LeastUser(files)), Some(GreatestUser(files)))|
  }

  lemma RangeMeets(next: seq<File>, files: seq<File>, low: InternalKey, high: InternalKey)
    requires IsRange(files, low, high) && files != []
    ensures MeetCount(next, files) == |Selected(next, Some(low.user), Some(high.user))|
  {
    RangeUsers(files, low, high);
  }

  /** The larger input set brings in no further file of the next level, and not too many bytes in all. */
  ghost predicate Grows(next: seq<File>, base: Compaction, expanded0: seq<File>, maxFileSize: nat) {
    && |expanded0| > |base.inputs0|
    && TotalFileSize(base.inputs1) + TotalFileSize(expanded0) < 25 * maxFileSize
    && MeetCount(next, expanded0) == |base.inputs1|
  }

  /** `c` is set up from the picked files: closed over boundary files, and grown exactly when growing is free. */
  ghost predicate SetUp(levels: Levels, picked: seq<File>, maxFileSize: nat, c: Compaction) {
    && ValidCompaction(levels, c)
    && exists base :: SetUpFrom(levels, picked, maxFileSize, base, c)
  }

  ghost predicate SetUpFrom(levels: Levels, picked: seq<File>, maxFileSize: nat, base: Compaction, c: Compaction) {
    && ValidCompaction(levels, base) && base.level == c.level && ClosesOver(levels[c.level], picked, base.inputs0)
    && if base.inputs1 == [] then c == base
       else exists expanded0 ::
              && IsExpansion(levels, base, expanded0)
              && if Grows(levels[base.level + 1], base, expanded0, maxFileSize) then c.inputs0 == expanded0
                 else c == base
  }

  /** VersionSet::SetupOtherInputs; `maxFileSize` is options_->max_file_size. */
  method SetupOtherInputs(levels: Levels, level: nat, picked: seq<File>, maxFileSize: nat) returns (c: Compaction)
    requires |levels| == NUM_LEVELS && level + 1 < NUM_LEVELS
    requires ValidFiles(levels[level]) && ValidFiles(levels[level + 1])
    requires picked != [] && forall f :: f in picked ==> f in levels[level]
    requires level == 0 ==> OverlapClosed(levels[0], picked) && BoundaryClosed(levels[0], picked)
    requires level > 0 ==> LevelSorted(levels[level]) && Convex(levels[level], picked)
    ensures ValidCompaction(levels, c) && c.level == level && forall f :: f in picked ==> f in c.inputs0
    ensures SetUp(levels, picked, maxFileSize, c)
  {
    var inputs0 := AddBoundaryInputs(levels[level], picked);
    assert level == 0 ==> inputs0 == picked;
    c := OverlapNextLevel(levels, level, inputs0);
    ghost var base := c;
    if c.inputs1 != [] {
      var grown, expanded0 := GrowInputs(levels, c, maxFileSize);
      if grown.Some? {
        c := grown.value;
      }
      IsSetUp(levels, picked, maxFileSize, base, expanded0, c);
    }
    assert SetUpFrom(levels, picked, maxFileSize, base, c);
  }

  /** The second half of that method: more files of the level, if that brings in no more of the next one. */
  method GrowInputs(levels: Levels, base: Compaction, maxFileSize: nat)
    returns (c: Option<Compaction>, ghost expanded0: seq<File>)
    requires |levels| == NUM_LEVELS && base.level + 1 < NUM_LEVELS
    requires ValidFiles(levels[base.level]) && ValidFiles(levels[base.level + 1])
    requires base.level > 0 ==> LevelSorted(levels[base.level])
    requires base.inputs0 != [] && forall f :: f in base.inputs0 ==> f in levels[base.level]
    ensures IsExpansion(levels, base, expanded0)
    ensures c.Some? == Grows(levels[base.level + 1], base, expanded0, maxFileSize)
    ensures c.Some? ==> ValidCompaction(levels, c.value) && c.value.level == base.level && c.value.inputs0 == expanded0
    ensures forall f :: f in base.inputs0 ==> f in expanded0
  {
    c := None;
    var allStart, allLimit := GetRange(base.inputs0 + base.inputs1);
    var expanded := ExpandInputs(levels, base, allStart, allLimit);
    expanded0 := expanded;
    if |expanded| > |base.inputs0| && TotalFileSize(base.inputs1) + TotalFileSize(expanded) < 25 * maxFileSize {
      var grown := OverlapNextLevel(levels, base.level, expanded);
      if |grown.inputs1| == |base.inputs1| {
        c := Some(grown);
      }
    }
  }

  lemma IsSetUp(levels: Levels, picked: seq<File>, maxFileSize: nat, base: Compaction, expanded0: seq<File>,
                c: Compaction)
    requires ValidCompaction(levels, base) && base.level == c.level
    requires ClosesOver(levels[c.level], picked, base.inputs0)
    requires base.inputs1 != [] && IsExpansion(levels, base, expanded0)
    requires if Grows(levels[base.level + 1], base, expanded0, maxFileSize) then c.inputs0 == expanded0 else c == base
    ensures SetUpFrom(levels, picked, maxFileSize, base, c)
  {
  }

  /** The range of the level's inputs, and the files of the next level it meets. */
  method OverlapNextLevel(levels: Levels, level: nat, inputs0: seq<File>) returns (c: Compaction)
    requires |levels| == NUM_LEVELS && level + 1 < NUM_LEVELS && ValidFiles(levels[level + 1])
    requires inputs0 != [] && (forall f :: f in inputs0 ==> f in levels[level])
    requires BoundaryClosed(levels[level], inputs0)
    requires if level == 0 then OverlapClosed(levels[0], inputs0) else Convex(levels[level], inputs0)
    ensures ValidCompaction(levels, c) && c.level == level && c.inputs0 == inputs0
    ensures |c.inputs1| == MeetCount(levels[level + 1], inputs0)
  {
    var smallest, largest := GetRange(inputs0);
    RangeMeets(levels[level + 1], inputs0, smallest, largest);
    var inputs1, _, _ := GetOverlappingInputs(levels[level + 1], false, Some(smallest.user), Some(largest.user));
    c := Compaction(level, inputs0, inputs1, smallest, largest);
  }

  /** The larger set of files at `level` that the range of both input sets would allow. */
  method ExpandInputs(levels: Levels, c: Compaction, allStart: InternalKey, allLimit: InternalKey)
    returns (expanded0: seq<File>)
    requires |levels| == NUM_LEVELS && c.level < NUM_LEVELS && ValidFiles(levels[c.level])
    requires c.inputs0 != [] && forall f :: f in c.inputs0 ==> f in levels[c.level]
    requires IsRange(c.inputs0 + c.inputs1, allStart, allLimit)
    requires c.level > 0 ==> LevelSorted(levels[c.level])
    ensures expanded0 != [] && forall f :: f in c.inputs0 ==> f in expanded0
    ensures forall f :: f in expanded0 ==> f in levels[c.level]
    ensures IsExpansion(levels, c, expanded0)
    ensures BoundaryClosed(levels[c.level], expanded0)
    ensures if c.level == 0 then OverlapClosed(levels[0], expanded0) else Convex(levels[c.level], expanded0)
  {
    var files := levels[c.level];
    var low, high := Some(allStart.user), Some(allLimit.user);
    var selected, _, _ := GetOverlappingInputs(files, c.level == 0, low, high);
    ExpansionKeeps(files, c.inputs0, c.inputs1, allStart, allLimit);
    if c.level > 0 {
      SelectedMembers(files, low, high);
      SelectedConvex(files, low, high);
    } else {
      LeastClosedIsOverlapClosed(files, low, high, selected);
    }
    expanded0 := AddBoundaryInputs(files, selected);
    assert c.inputs0[0] in c.inputs0 && c.inputs0[0] in selected;
    assert InRange(files, c.level == 0, low, high, selected);
  }

  lemma SelectedConvex(files: seq<File>, low: Option<UserKey>, high: Option<UserKey>)
    requires ValidFiles(files) && LevelSorted(files)
    ensures Convex(files, Selected(files, low, high))
  {
    SelectedMembers(files, low, high);
    FilesOrdered(files);
  }

  lemma ExpansionKeeps(files: seq<File>, inputs0: seq<File>, inputs1: seq<File>, low: InternalKey, high: InternalKey)
    requires ValidFiles(files) && forall f :: f in inputs0 ==> f in files
    requires IsRange(inputs0 + inputs1, low, high)
    ensures forall f :: f in inputs0 ==> Overlaps(f, Some(low.user), Some(high.user))
  {
    FilesOrdered(files);
    forall f | f in inputs0 ensures Overlaps(f, Some(low.user), Some(high.user)) {
      assert f in inputs0 + inputs1;
    }
  }

  /** The files a compaction of `file` starts from: at level 0 all that hangs together with it. */
  ghost predicate PickedWith(files: seq<File>, levelZero: bool, file: File, picked: seq<File>) {
    if levelZero then InRange(files, true, Some(file.smallest.user), Some(file.largest.user), picked)
    else picked == [file]
  }

  /** VersionSet::PickCompaction once a level and a file of it are chosen. */
  method PickCompaction(levels: Levels, level: nat, file: File, maxFileSize: nat) returns (c: Compaction)
    requires ValidVersion(levels) && level + 1 < NUM_LEVELS && file in levels[level]
    ensures ValidCompaction(levels, c) && c.level == level && file in c.inputs0
    ensures exists picked ::
        PickedWith(levels[level], level == 0, file, picked) && SetUp(levels, picked, maxFileSize, c)
  {
    var picked := [file];
    if level == 0 {
      picked := PickLevelZero(levels[0], file);
    } else {
      AloneConvex(levels[level], file);
    }
    c := SetupOtherInputs(levels, level, picked, maxFileSize);
  }

  lemma AloneConvex(files: seq<File>, file: File)
    requires ValidFiles(files) && ValidFile(file)
    ensures Convex(files, [file])
  {
    forall g | g in files ensures !(Before(file.largest, g.smallest) && Before(g.largest, file.smallest)) {
      WithinBounds(file, file.table[0]);
      WithinBounds(g, g.table[0]);
    }
  }

  method PickLevelZero(files: seq<File>, file: File) returns (picked: seq<File>)
    requires ValidFiles(files) && file in files
    ensures PickedWith(files, true, file, picked) && file in picked && forall f :: f in picked ==> f in files
    ensures OverlapClosed(files, picked) && BoundaryClosed(files, picked)
  {
    FilesOrdered(files);
    var smallest, largest := GetRange([file]);
    var low, high := Some(smallest.user), Some(largest.user);
    var closed, _, _ := GetOverlappingInputs(files, true, low, high);
    assert Overlaps(file, low, high);
    LeastClosedIsOverlapClosed(files, low, high, closed);
    picked := closed;
  }

  /** The files a compaction of a range starts from: above level 0 no more than reach the file size limit. */
  ghost predicate PickedInRange(files: seq<File>, levelZero: bool, begin: Option<UserKey>, end: Option<UserKey>,
                                limit: nat, picked: seq<File>)
  {
    exists inputs ::
      && InRange(files, levelZero, begin, end, inputs)
      && if levelZero then picked == inputs else Truncated(inputs, picked, limit)
  }

  /** VersionSet::CompactRange */
  method CompactRange(levels: Levels, level: nat, begin: Option<UserKey>, end: Option<UserKey>, maxFileSize: nat)
    returns (c: Option<Compaction>)
    requires ValidVersion(levels) && level + 1 < NUM_LEVELS
    ensures c.None? <==> forall f :: f in levels[level] ==> !Overlaps(f, begin, end)
    ensures c.Some? ==> ValidCompaction(levels, c.value) && c.value.level == level
    ensures c.Some? ==> exists picked ::
      && PickedInRange(levels[level], level == 0, begin, end, maxFileSize, picked)
      && SetUp(levels, picked, maxFileSize, c.value)
  {
    var picked := PickRange(levels, level, begin, end, maxFileSize);
    if picked == [] {
      return None;
    }
    var r := SetupOtherInputs(levels, level, picked, maxFileSize);
    c := Some(r);
  }

  /** The first half of that method: above level 0 a long selection is cut once it reaches the file size limit. */
  method PickRange(levels: Levels, level: nat, begin: Option<UserKey>, end: Option<UserKey>, limit: nat)
    returns (picked: seq<File>)
    requires ValidVersion(levels) && level + 1 < NUM_LEVELS
    ensures picked == [] <==> forall f :: f in levels[level] ==> !Overlaps(f, begin, end)
    ensures picked != [] ==> PickedInRange(levels[level], level == 0, begin, end, limit, picked)
    ensures forall f :: f in picked ==> f in levels[level]
    ensures level == 0 ==> OverlapClosed(levels[0], picked) && BoundaryClosed(levels[0], picked)
    ensures level > 0 ==> Convex(levels[level], picked)
  {
    var inputs, _, _ := GetOverlappingInputs(levels[level], level == 0, begin, end);
    assert InRange(levels[level], level == 0, begin, end, inputs);
    picked := inputs;
    if level == 0 {
      LeastClosedIsOverlapClosed(levels[0], begin, end, inputs);
      ClosedEmptyOrMeets(levels[0], begin, end, inputs);
    } else {
      SelectedMembers(levels[level], begin, end);
      if inputs == [] {
        return;
      }
      assert inputs[0] in inputs;
      SelectedSorted(levels[level], begin, end);
      SelectedConvex(levels[level], begin, end);
      picked := TruncateInputs(levels[level], inputs, limit);
    }
  }

  lemma ClosedEmptyOrMeets(files: seq<File>, begin: Option<UserKey>, end: Option<UserKey>, inputs: seq<File>)
    requires LeastClosed(files, begin, end, inputs)
    ensures inputs == [] <==> forall f :: f in files ==> !Overlaps(f, begin, end)
  {
    if inputs == [] {
      assert (set f | f in inputs) == {};
    } else {
      NonemptyMeets(files, begin, end, inputs);
    }
  }

  lemma TotalSnoc(files: seq<File>, n: nat)
    requires n < |files|
    ensures TotalFileSize(files[..n + 1]) == TotalFileSize(files[..n]) + files[n].size
  {
    if n > 0 {
      TotalSnoc(files[1..], n - 1);
      assert files[1..][..n - 1] == files[..n][1..] && files[1..][..n] == files[..n + 1][1..];
    }
  }

  /** The front of the inputs, up to the first file that brings it to the limit. */
  ghost predicate Truncated(inputs: seq<File>, r: seq<File>, limit: nat) {
    && r != [] && r <= inputs
    && (r == inputs || TotalFileSize(r) >= limit)
    && (|r| == 1 || TotalFileSize(r[..|r| - 1]) < limit)
  }

  method TruncateInputs(files: seq<File>, inputs: seq<File>, limit: nat) returns (r: seq<File>)
    requires ValidFiles(files) && inputs != [] && (forall f :: f in inputs ==> f in files)
    requires LevelSorted(inputs) && Convex(files, inputs)
    ensures Truncated(inputs, r, limit) && Convex(files, r)
  {
    var total := 0;
    for i := 0 to |inputs|
      invariant total == TotalFileSize(inputs[..i]) && (i <= 1 || TotalFileSize(inputs[..i - 1]) < limit)
      invariant i > 0 ==> total < limit
    {
      TotalSnoc(inputs, i);
      total := total + inputs[i].size;
      if total >= limit {
        PrefixConvex(files, inputs, i + 1);
        assert inputs[..i + 1][..i] == inputs[..i];
        return inputs[..i + 1];
      }
    }
    return inputs;
  }

  lemma NonemptyMeets(files: seq<File>, low: Option<UserKey>, high: Option<UserKey>, inputs: seq<File>)
    requires LeastClosed(files, low, high, inputs) && inputs != []
    ensures exists f :: f in files && Overlaps(f, low, high)
  {
    assert inputs[0] in inputs;
    assert !ClosedUnderOverlap(files, low, high, {});
  }

  lemma {:induction false} SelectedSorted(files: seq<File>, low: Option<UserKey>, high: Option<UserKey>)
    requires LevelSorted(files)
    ensures LevelSorted(Selected(files, low, high))
  {
    if files != [] {
      var init := files[..|files| - 1];
      SelectedSorted(init, low, high);
      SelectedMembers(init, low, high);
      var rest := Selected(init, low, high);
      forall i | 0 <= i < |rest| ensures Before(rest[i].largest, files[|files| - 1].smallest) {
        assert rest[i] in rest;
        var j :| 0 <= j < |init| && init[j] == rest[i];
      }
    }
  }

  lemma NotBothWays(g: File, h: File)
    requires ValidFile(g) && ValidFile(h) && Before(g.largest, h.smallest)
    ensures !Before(h.largest, g.smallest)
  {
    WithinBounds(g, g.table[0]);
    WithinBounds(h, h.table[0]);
  }

  lemma PrefixConvex(files: seq<File>, inputs: seq<File>, n: nat)
    requires ValidFiles(files) && LevelSorted(inputs) && Convex(files, inputs) && n <= |inputs|
    requires forall f :: f in inputs ==> f in files
    ensures Convex(files, inputs[..n])
  {
    forall f, g, h | f in inputs[..n] && g in files && h in inputs[..n] && Before(f.largest, g.smallest)
        && Before(g.largest, h.smallest)
      ensures g in inputs[..n]
    {
      var k :| 0 <= k < n && inputs[k] == h;
      assert g in inputs;
      var j :| 0 <= j < |inputs| && inputs[j] == g;
      NotBothWays(g, h);
    }
  }

  /**
   * Why a memtable's table is not pushed below level `i`: it meets a file there, or too many bytes of the
   * level after.
   */
  ghost predicate StopsAt(levels: Levels, i: nat, low: UserKey, high: UserKey, maxFileSize: nat)
    requires |levels| == NUM_LEVELS && i + 1 < NUM_LEVELS
  {
    || (i == 0 && exists f :: f in levels[0] && Overlaps(f, Some(low), Some(high)))
    || (exists f :: f in levels[i + 1] && Overlaps(f, Some(low), Some(high)))
    || (i + 2 < NUM_LEVELS && TotalFileSize(Selected(levels[i + 2], Some(low), Some(high))) > 10 * maxFileSize)
  }

  /** One round of that method's loop: whether the table must stop at `level`, where it meets no file. */
  method MustStop(levels: Levels, level: nat, low: UserKey, high: UserKey, maxFileSize: nat) returns (stop: bool)
    requires ValidVersion(levels) && level < MAX_MEM_COMPACT_LEVEL
    requires forall f :: f in levels[level] ==> !Overlaps(f, Some(low), Some(high))
    ensures stop == StopsAt(levels, level, low, high, maxFileSize)
    ensures !stop ==> forall f :: f in levels[level + 1] ==> !Overlaps(f, Some(low), Some(high))
  {
    stop := SomeFileOverlapsRange(true, levels[level + 1], Some(low), Some(high));
    if !stop && level + 2 < NUM_LEVELS {
      var overlaps, _, _ := GetOverlappingInputs(levels[level + 2], false, Some(low), Some(high));
      stop := TotalFileSize(overlaps) > 10 * maxFileSize;
    }
  }

  /** The first level at which there is a reason to stop, and no level below the last one allowed. */
  ghost predicate IsFirstStop(levels: Levels, level: nat, low: UserKey, high: UserKey, maxFileSize: nat) {
    && |levels| == NUM_LEVELS && level <= MAX_MEM_COMPACT_LEVEL
    && (forall i :: 0 <= i < level ==> !StopsAt(levels, i, low, high, maxFileSize))
    && (level < MAX_MEM_COMPACT_LEVEL ==> StopsAt(levels, level, low, high, maxFileSize))
  }

  /** Version::PickLevelForMemTableOutput */
  method PickLevelForMemTableOutput(levels: Levels, low: UserKey, high: UserKey, maxFileSize: nat) returns (level: nat)
    requires ValidVersion(levels)
    ensures IsFirstStop(levels, level, low, high, maxFileSize) && level <= 2
    ensures level > 0 ==> forall i, f :: 0 <= i <= level && f in levels[i] ==> !Overlaps(f, Some(low), Some(high))
  {
    level := 0;
    var overlap := SomeFileOverlapsRange(false, levels[0], Some(low), Some(high));
    if !overlap {
      while level < MAX_MEM_COMPACT_LEVEL
        invariant level <= MAX_MEM_COMPACT_LEVEL
        invariant forall i, f :: 0 <= i <= level && f in levels[i] ==> !Overlaps(f, Some(low), Some(high))
        invariant forall i :: 0 <= i < level ==> !StopsAt(levels, i, low, high, maxFileSize)
      {
        var stop := MustStop(levels, level, low, high, maxFileSize);
        if stop {
          break;
        }
        level := level + 1;
      }
    }
  }
}
