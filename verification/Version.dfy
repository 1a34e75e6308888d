/** A version of the table files by level, and point lookup in it (db/version_set.cc). */
module Version {
  import opened Keys
  import opened Reads

  const MAX_MEM_COMPACT_LEVEL: nat := 2

  /** FileMetaData together with the contents of the table it names. */
  datatype File = File(number: nat, size: nat, smallest: InternalKey, largest: InternalKey, table: seq<Entry>)

  type Levels = seq<seq<File>>

  predicate ValidFile(f: File) {
    && f.table != []
    && Sorted(f.table)
    && f.smallest == f.table[0].key
    && f.largest == f.table[|f.table| - 1].key
  }

  /** Every entry of a file lies between its bounds. */
  lemma WithinBounds(f: File, e: Entry)
    requires ValidFile(f) && e in f.table
    ensures !Before(e.key, f.smallest) && !Before(f.largest, e.key)
    ensures f.smallest.user <= e.key.user <= f.largest.user
  {
    var i :| 0 <= i < |f.table| && f.table[i] == e;
  }

  /** The shape of a level above 0: files in order, with disjoint ranges of internal keys. */
  ghost predicate LevelSorted(files: seq<File>) {
    forall i, j :: 0 <= i < j < |files| ==> Before(files[i].largest, files[j].smallest)
  }

  ghost predicate ValidFiles(files: seq<File>) {
    forall f :: f in files ==> ValidFile(f)
  }

  ghost function Contents(files: seq<File>): set<Entry> {
    set f, e | f in files && e in f.table :: e
  }

  ghost function AllContents(levels: Levels): set<Entry> {
    set files, f, e | files in levels && f in files && e in f.table :: e
  }

  lemma Locate(levels: Levels, e: Entry) returns (i: nat, f: File)
    requires e in AllContents(levels)
    ensures i < |levels| && f in levels[i] && e in f.table
  {
    var files :| files in levels && exists g :: g in files && e in g.table;
    f :| f in files && e in f.table;
    i :| 0 <= i < |levels| && levels[i] == files;
  }

  /** For one user key, the files of a later position in search order hold older entries. */
  ghost predicate FileNewer(f: File, g: File) {
    forall d, e :: d in f.table && e in g.table && d.key.user == e.key.user ==> d.key.seqno > e.key.seqno
  }

  /** Level 0: files may overlap; a higher number means newer entries. */
  ghost predicate LevelZeroAged(files: seq<File>) {
    forall f, g {:trigger FileNewer(f, g)} :: f in files && g in files && f.number > g.number ==> FileNewer(f, g)
  }

  ghost predicate CrossLevelAged(levels: Levels) {
    forall i, j, f, g {:trigger FileNewer(f, g), levels[i], levels[j]} ::
        0 <= i < j < |levels| && f in levels[i] && g in levels[j] ==> FileNewer(f, g)
  }

  ghost predicate UniqueNumbers(levels: Levels) {
    forall i, j, f, g {:trigger f in levels[i], g in levels[j]} ::
      0 <= i < |levels| && 0 <= j < |levels| && f in levels[i] && g in levels[j] && f.number == g.number
      ==> i == j && f == g
  }

  /** What every installed version satisfies. */
  ghost predicate ValidVersion(levels: Levels) {
    && |levels| == NUM_LEVELS
    && (forall i :: 0 <= i < NUM_LEVELS ==> ValidFiles(levels[i]))
    && (forall i :: 1 <= i < NUM_LEVELS ==> LevelSorted(levels[i]))
    && UniqueNumbers(levels)
    && LevelZeroAged(levels[0])
    && CrossLevelAged(levels)
    && Distinct(AllContents(levels))
  }

  /** The earliest file whose largest key is at or after `target`. */
  method FindFile(files: seq<File>, target: InternalKey) returns (index: nat)
    requires ValidFiles(files) && LevelSorted(files)
    ensures index <= |files|
    ensures forall i :: 0 <= i < index ==> Before(files[i].largest, target)
    ensures forall i :: index <= i < |files| ==> !Before(files[i].largest, target)
  {
    var left, right := 0, |files|;
    while left < right
      invariant 0 <= left <= right <= |files|
      invariant forall i :: 0 <= i < left ==> Before(files[i].largest, target)
      invariant forall i :: right <= i < |files| ==> !Before(files[i].largest, target)
    {
      var mid := (left + right) / 2;
      assert forall i {:trigger files[i]} :: 0 <= i < |files| ==> files[i] in files;
      if Before(files[mid].largest, target) {
        forall i | 0 <= i <= mid ensures Before(files[i].largest, target) {
          if i < mid { WithinBounds(files[mid], files[mid].table[0]); }
        }
        left := mid + 1;
      } else {
        forall i | mid <= i < |files| ensures !Before(files[i].largest, target) {
          if mid < i { WithinBounds(files[i], files[i].table[0]); }
        }
        right := mid;
      }
    }
    index := right;
  }

  predicate AfterFile(user: Option<UserKey>, f: File) {
    user.Some? && user.value > f.largest.user
  }

  predicate BeforeFile(user: Option<UserKey>, f: File) {
    user.Some? && user.value < f.smallest.user
  }

  /** The user-key range of `f` meets the range from `low` to `high`, where None is unbounded. */
  predicate Overlaps(f: File, low: Option<UserKey>, high: Option<UserKey>) {
    !AfterFile(low, f) && !BeforeFile(high, f)
  }

  method SomeFileOverlapsRange(disjointSorted: bool, files: seq<File>, low: Option<UserKey>, high: Option<UserKey>)
    returns (r: bool)
    requires ValidFiles(files)
    requires disjointSorted ==> LevelSorted(files)
    ensures r <==> exists f :: f in files && Overlaps(f, low, high)
  {
    if !disjointSorted {
      for i := 0 to |files|
        invariant forall j :: 0 <= j < i ==> !Overlaps(files[j], low, high)
      {
        if !(AfterFile(low, files[i]) || BeforeFile(high, files[i])) {
          assert files[i] in files && Overlaps(files[i], low, high);
          return true;
        }
      }
      return false;
    }
    var index := 0;
    if low.Some? {
      index := FindFile(files, InternalKey(low.value, MAX_SEQUENCE, Value));
    }
    assert forall i {:trigger files[i]} :: 0 <= i < |files| ==> files[i] in files;
    forall i | 0 <= i < |files| ensures Overlaps(files[i], low, high) ==> index <= i {}
    if index >= |files| {
      return false;
    }
    forall i | index < i < |files| ensures files[index].smallest.user <= files[i].smallest.user {
      WithinBounds(files[index], files[index].table[0]);
    }
    r := !BeforeFile(high, files[index]);
    if r { assert Overlaps(files[index], low, high); }
  }

  ghost function Elements(table: seq<Entry>): set<Entry> {
    set e | e in table
  }

  /** SaveValue: what a table hit tells the reader about `user`. */
  function Saved(table: seq<Entry>, user: UserKey, snapshot: Sequence): (r: Option<Entry>)
    requires Sorted(table)
  {
    var i := SeekIndex(table, LookupKey(user, snapshot));
    if i < |table| && table[i].key.user == user then Some(table[i]) else None
  }

  lemma SavedIsNewest(table: seq<Entry>, user: UserKey, snapshot: Sequence)
    requires Sorted(table)
    ensures match Saved(table, user, snapshot)
      case None => NothingVisible(Elements(table), user, snapshot)
      case Some(e) => Newest(Elements(table), user, snapshot, e)
  {
    var i := SeekIndex(table, LookupKey(user, snapshot));
    var s := Elements(table);
    forall e | Visible(s, user, snapshot, e)
      ensures i < |table| && table[i].key.user == user && e.key.seqno <= table[i].key.seqno
    {
      var j :| 0 <= j < |table| && table[j] == e;
      LookupSplitsVersions(e.key, snapshot);
      assert j >= i;
      if j > i { assert Before(table[i].key, table[j].key); assert !Before(table[i].key, LookupKey(user, snapshot)); }
    }
    if i < |table| && table[i].key.user == user {
      LookupSplitsVersions(table[i].key, snapshot);
    }
  }

  /** std::sort with NewestFirst. */
  function SortNewestFirst(files: seq<File>): (r: seq<File>)
    ensures |r| == |files| && forall f :: f in r <==> f in files
    ensures forall i, j :: 0 <= i < j < |r| ==> r[i].number >= r[j].number
  {
    if files == [] then [] else InsertNewestFirst(files[0], SortNewestFirst(files[1..]))
  }

  function InsertNewestFirst(f: File, files: seq<File>): (r: seq<File>)
    requires forall i, j :: 0 <= i < j < |files| ==> files[i].number >= files[j].number
    ensures |r| == |files| + 1 && forall g :: g in r <==> g == f || g in files
    ensures forall i, j :: 0 <= i < j < |r| ==> r[i].number >= r[j].number
  {
    if files == [] || f.number >= files[0].number then [f] + files
    else
      var rest := InsertNewestFirst(f, files[1..]);
      assert forall i :: 0 <= i < |rest| ==> rest[i] in rest;
      [files[0]] + rest
  }

  ghost predicate HitOf(s: set<Entry>, user: UserKey, snapshot: nat, hit: Option<Entry>) {
    match hit
    case None => NothingVisible(s, user, snapshot)
    case Some(e) => Newest(s, user, snapshot, e)
  }

  method FilesCovering(files: seq<File>, user: UserKey) returns (overlapping: seq<File>)
    ensures forall f :: f in overlapping <==> f in files && f.smallest.user <= user <= f.largest.user
  {
    overlapping := [];
    for i := 0 to |files|
      invariant forall f :: f in overlapping <==> f in files[..i] && f.smallest.user <= user <= f.largest.user
    {
      var f := files[i];
      if user >= f.smallest.user && user <= f.largest.user {
        overlapping := overlapping + [f];
      }
    }
    assert files[..|files|] == files;
  }

  /** Level 0 of Version::Get: the overlapping files, newest first, until one has a version of the key. */
  method SearchLevelZero(files: seq<File>, user: UserKey, snapshot: Sequence) returns (hit: Option<Entry>)
    requires ValidFiles(files) && LevelZeroAged(files)
    requires forall f, g :: f in files && g in files && f.number == g.number ==> f == g
    ensures HitOf(Contents(files), user, snapshot, hit)
  {
    var overlapping := FilesCovering(files, user);
    var sorted := SortNewestFirst(overlapping);
    for i := 0 to |sorted|
      invariant forall j :: 0 <= j < i ==> NothingVisible(Elements(sorted[j].table), user, snapshot)
    {
      assert sorted[i] in files;
      hit := Saved(sorted[i].table, user, snapshot);
      SavedIsNewest(sorted[i].table, user, snapshot);
      if hit.Some? {
        FirstFileHit(files, sorted, i, user, snapshot, hit.value);
        return;
      }
    }
    NoFileHit(files, sorted, user, snapshot);
    hit := None;
  }

  lemma FirstFileHit(files: seq<File>, sorted: seq<File>, i: nat, user: UserKey, snapshot: nat, e: Entry)
    requires ValidFiles(files) && LevelZeroAged(files)
    requires forall f, g :: f in files && g in files && f.number == g.number ==> f == g
    requires forall f :: f in sorted <==> f in files && f.smallest.user <= user <= f.largest.user
    requires forall j, k :: 0 <= j < k < |sorted| ==> sorted[j].number >= sorted[k].number
    requires i < |sorted| && Newest(Elements(sorted[i].table), user, snapshot, e)
    requires forall j :: 0 <= j < i ==> NothingVisible(Elements(sorted[j].table), user, snapshot)
    ensures Newest(Contents(files), user, snapshot, e)
  {
    assert sorted[i] in sorted;
    forall d | Visible(Contents(files), user, snapshot, d) ensures d.key.seqno <= e.key.seqno {
      var g, j := Overlapping(files, sorted, user, snapshot, d);
      assert Visible(Elements(g.table), user, snapshot, d);
      NewestFileWins(files, sorted[i], g, user, snapshot, e, d);
    }
  }

  lemma NoFileHit(files: seq<File>, sorted: seq<File>, user: UserKey, snapshot: nat)
    requires ValidFiles(files)
    requires forall f :: f in sorted <==> f in files && f.smallest.user <= user <= f.largest.user
    requires forall j :: 0 <= j < |sorted| ==> NothingVisible(Elements(sorted[j].table), user, snapshot)
    ensures NothingVisible(Contents(files), user, snapshot)
  {
    forall d | Visible(Contents(files), user, snapshot, d) ensures false {
      var g, j := Overlapping(files, sorted, user, snapshot, d);
      assert Visible(Elements(g.table), user, snapshot, d);
    }
  }

  /** A version of the key sits in a file whose user-key range covers the key. */
  lemma Overlapping(files: seq<File>, chosen: seq<File>, user: UserKey, snapshot: nat, d: Entry)
    returns (g: File, j: nat)
    requires ValidFiles(files)
    requires forall f :: f in chosen <==> f in files && f.smallest.user <= user <= f.largest.user
    requires Visible(Contents(files), user, snapshot, d)
    ensures g in files && d in g.table && j < |chosen| && chosen[j] == g
  {
    g :| g in files && d in g.table;
    WithinBounds(g, d);
    j :| 0 <= j < |chosen| && chosen[j] == g;
  }

  lemma NewestFileWins(files: seq<File>, f: File, g: File, user: UserKey, snapshot: nat, e: Entry, d: Entry)
    requires LevelZeroAged(files) && f in files && g in files && f.number >= g.number
    requires f.number == g.number ==> f == g
    requires Newest(Elements(f.table), user, snapshot, e)
    requires Visible(Elements(g.table), user, snapshot, d)
    ensures d.key.seqno <= e.key.seqno
  {
    if f.number > g.number { assert FileNewer(f, g); }
  }

  /** What a single probe of a sorted level misses: nothing. */
  lemma ProbeCovers(files: seq<File>, user: UserKey, snapshot: Sequence, index: nat, d: Entry)
    requires ValidFiles(files) && LevelSorted(files)
    requires index <= |files|
    requires forall i :: 0 <= i < index ==> Before(files[i].largest, LookupKey(user, snapshot))
    requires forall i :: index <= i < |files| ==> !Before(files[i].largest, LookupKey(user, snapshot))
    requires Visible(Contents(files), user, snapshot, d)
    ensures index < |files| && ValidFile(files[index]) && files[index].smallest.user <= user
    ensures var hit := Saved(files[index].table, user, snapshot); hit.Some? && d.key.seqno <= hit.value.key.seqno
  {
    var g :| g in files && d in g.table;
    var i :| 0 <= i < |files| && files[i] == g;
    WithinBounds(g, d);
    LookupSplitsVersions(d.key, snapshot);
    assert i >= index;
    var f := files[index];
    assert f in files;
    SavedIsNewest(f.table, user, snapshot);
    if i == index {
      assert Visible(Elements(f.table), user, snapshot, d);
    } else {
      assert Before(f.largest, g.smallest);
      var n := SeekIndex(f.table, LookupKey(user, snapshot));
      assert f.table[|f.table| - 1].key == f.largest;
      assert n < |f.table|;
      WithinBounds(f, f.table[n]);
    }
  }

  /** A level above 0 in Version::Get: one file, found by binary search. */
  method SearchSortedLevel(files: seq<File>, user: UserKey, snapshot: Sequence) returns (hit: Option<Entry>)
    requires ValidFiles(files) && LevelSorted(files)
    ensures HitOf(Contents(files), user, snapshot, hit)
  {
    var index := FindFile(files, LookupKey(user, snapshot));
    hit := None;
    if index < |files| && !(user < files[index].smallest.user) {
      assert files[index] in files;
      hit := Saved(files[index].table, user, snapshot);
      SavedIsNewest(files[index].table, user, snapshot);
    }
    forall d | Visible(Contents(files), user, snapshot, d)
      ensures hit.Some? && d.key.seqno <= hit.value.key.seqno
    {
      ProbeCovers(files, user, snapshot, index, d);
    }
  }

  /** Version::Get: level by level, the first version found answers. */
  method Get(levels: Levels, user: UserKey, snapshot: Sequence) returns (answer: Answer)
    requires ValidVersion(levels)
    ensures answer == Read(AllContents(levels), user, snapshot)
  {
    for level := 0 to NUM_LEVELS
      invariant forall i :: 0 <= i < level ==> NothingVisible(Contents(levels[i]), user, snapshot)
    {
      var hit;
      if level == 0 {
        hit := SearchLevelZero(levels[0], user, snapshot);
      } else {
        hit := SearchSortedLevel(levels[level], user, snapshot);
      }
      if hit.Some? {
        FirstHitIsNewest(levels, level, user, snapshot, hit.value);
        ReadIsNewest(AllContents(levels), user, snapshot, hit.value);
        return if hit.value.key.kind == Value then Found(hit.value.value) else NotFound;
      }
    }
    NoHit(levels, user, snapshot);
    return NotFound;
  }

  lemma NoHit(levels: Levels, user: UserKey, snapshot: nat)
    requires forall i :: 0 <= i < |levels| ==> NothingVisible(Contents(levels[i]), user, snapshot)
    ensures NothingVisible(AllContents(levels), user, snapshot)
  {
    forall e | Visible(AllContents(levels), user, snapshot, e) ensures false {
      var i, f := Locate(levels, e);
      assert Visible(Contents(levels[i]), user, snapshot, e);
    }
  }

  lemma FirstHitIsNewest(levels: Levels, level: nat, user: UserKey, snapshot: nat, e: Entry)
    requires CrossLevelAged(levels) && level < |levels|
    requires forall i :: 0 <= i < level ==> NothingVisible(Contents(levels[i]), user, snapshot)
    requires Newest(Contents(levels[level]), user, snapshot, e)
    ensures Newest(AllContents(levels), user, snapshot, e)
  {
    var f :| f in levels[level] && e in f.table;
    assert levels[level] in levels;
    forall d | Visible(AllContents(levels), user, snapshot, d) ensures d.key.seqno <= e.key.seqno {
      var j, g := Locate(levels, d);
      assert Visible(Contents(levels[j]), user, snapshot, d);
      if level < j { assert FileNewer(f, g); }
    }
  }
}
