/** The user's iterator over a snapshot (db/db_iter.cc), as a cursor on the list of live keys. */
module DbIter {
  import opened Keys
  import opened Reads
  import opened Version
  import opened Cursors

  // ----- the list of live keys -----

  predicate Seen(s: seq<Entry>, snapshot: Sequence, i: nat)
    requires i < |s|
  {
    s[i].key.seqno <= snapshot
  }

  /** Entry `i` is the newest one of its key that the snapshot sees, and it is a value. */
  predicate Yields(s: seq<Entry>, snapshot: Sequence, i: nat)
    requires i < |s|
  {
    Seen(s, snapshot, i) && s[i].key.kind == Value
        && forall j :: 0 <= j < i && Seen(s, snapshot, j) ==> s[j].key.user != s[i].key.user
  }

  /** The live keys among the first `n` entries, in order, each with its value's entry. */
  function Live(s: seq<Entry>, snapshot: Sequence, n: nat): seq<Entry>
    requires n <= |s|
  {
    if n == 0 then []
    else Live(s, snapshot, n - 1) + if Yields(s, snapshot, n - 1) then [s[n - 1]] else []
  }

  lemma {:induction false} LiveSkip(s: seq<Entry>, snapshot: Sequence, lo: nat, hi: nat)
    requires lo <= hi <= |s| && forall i :: lo <= i < hi ==> !Yields(s, snapshot, i)
    ensures Live(s, snapshot, hi) == Live(s, snapshot, lo)
  {
    if lo < hi { LiveSkip(s, snapshot, lo, hi - 1); }
  }

  lemma {:induction false} LivePrefix(s: seq<Entry>, snapshot: Sequence, lo: nat, hi: nat)
    requires lo <= hi <= |s|
    ensures Live(s, snapshot, lo) <= Live(s, snapshot, hi)
  {
    if lo < hi { LivePrefix(s, snapshot, lo, hi - 1); }
  }

  lemma LiveAt(s: seq<Entry>, snapshot: Sequence, i: nat)
    requires i < |s| && Yields(s, snapshot, i)
    ensures |Live(s, snapshot, i)| < |Live(s, snapshot, |s|)| && Live(s, snapshot, |s|)[|Live(s, snapshot, i)|] == s[i]
  {
    LivePrefix(s, snapshot, i + 1, |s|);
  }

  lemma {:induction false} LiveMembers(s: seq<Entry>, snapshot: Sequence, n: nat)
    requires n <= |s|
    ensures forall e :: e in Live(s, snapshot, n) <==> exists i :: 0 <= i < n && s[i] == e && Yields(s, snapshot, i)
  {
    if n > 0 { LiveMembers(s, snapshot, n - 1); }
  }

  /** The list is in strictly ascending order of user keys. */
  lemma {:induction false} LiveAscending(s: seq<Entry>, snapshot: Sequence, n: nat)
    requires Sorted(s) && n <= |s|
    ensures forall i, j ::
        0 <= i < j < |Live(s, snapshot, n)| ==> Live(s, snapshot, n)[i].key.user < Live(s, snapshot, n)[j].key.user
  {
    if n > 0 {
      LiveAscending(s, snapshot, n - 1);
      LiveMembers(s, snapshot, n - 1);
      var before := Live(s, snapshot, n - 1);
      if Yields(s, snapshot, n - 1) {
        forall i | 0 <= i < |before| ensures before[i].key.user < s[n - 1].key.user {
          assert before[i] in before;
          var k :| 0 <= k < n - 1 && s[k] == before[i] && Yields(s, snapshot, k);
          assert Before(s[k].key, s[n - 1].key);
        }
      }
    }
  }

  /** A key is in the list, with its value, exactly when a read at the snapshot finds that value. */
  lemma LiveIsRead(s: seq<Entry>, snapshot: Sequence, user: UserKey, value: Bytes)
    requires Sorted(s) && Distinct(Elements(s))
    ensures Read(Elements(s), user, snapshot) == Found(value)
       <==> exists e :: e in Live(s, snapshot, |s|) && e.key.user == user && e.value == value
  {
    forall e | e in Live(s, snapshot, |s|) && e.key.user == user
      ensures Read(Elements(s), user, snapshot) == Found(e.value)
    {
      LiveReads(s, snapshot, e);
    }
    if Read(Elements(s), user, snapshot) == Found(value) {
      var e := ReadLives(s, snapshot, user, value);
    }
  }

  lemma LiveReads(s: seq<Entry>, snapshot: Sequence, e: Entry)
    requires Sorted(s) && Distinct(Elements(s)) && e in Live(s, snapshot, |s|)
    ensures Read(Elements(s), e.key.user, snapshot) == Found(e.value)
  {
    LiveMembers(s, snapshot, |s|);
    var i :| 0 <= i < |s| && s[i] == e && Yields(s, snapshot, i);
    YieldIsNewest(s, snapshot, i);
    ReadIsNewest(Elements(s), e.key.user, snapshot, e);
  }

  lemma ReadLives(s: seq<Entry>, snapshot: Sequence, user: UserKey, value: Bytes) returns (e: Entry)
    requires Sorted(s) && Distinct(Elements(s)) && Read(Elements(s), user, snapshot) == Found(value)
    ensures e in Live(s, snapshot, |s|) && e.key.user == user && e.value == value
  {
    e :| Newest(Elements(s), user, snapshot, e) && e.key.kind == Value;
    ReadIsNewest(Elements(s), user, snapshot, e);
    var i :| 0 <= i < |s| && s[i] == e;
    NewestYields(s, snapshot, i);
    LiveMembers(s, snapshot, |s|);
  }

  lemma YieldIsNewest(s: seq<Entry>, snapshot: Sequence, i: nat)
    requires Sorted(s) && i < |s| && Yields(s, snapshot, i)
    ensures Newest(Elements(s), s[i].key.user, snapshot, s[i])
  {
    forall f | Visible(Elements(s), s[i].key.user, snapshot, f) ensures f.key.seqno <= s[i].key.seqno {
      var j :| 0 <= j < |s| && s[j] == f;
      assert Seen(s, snapshot, j);
      if i < j { assert Before(s[i].key, s[j].key); }
    }
  }

  lemma NewestYields(s: seq<Entry>, snapshot: Sequence, i: nat)
    requires Sorted(s) && i < |s| && Distinct(Elements(s)) && Newest(Elements(s), s[i].key.user, snapshot, s[i])
    requires s[i].key.kind == Value
    ensures Yields(s, snapshot, i)
  {
    forall j | 0 <= j < i && Seen(s, snapshot, j) ensures s[j].key.user != s[i].key.user {
      assert s[j] in Elements(s) && s[i] in Elements(s) && Before(s[j].key, s[i].key);
      assert s[j].key.user == s[i].key.user ==> Visible(Elements(s), s[i].key.user, snapshot, s[j]);
    }
  }

  // ----- scanning forward -----

  /** Entries at or after `p` of keys up to `skip` are of no interest; the live entry sought is at `lo` or after. */
  ghost predicate Skipping(s: seq<Entry>, snapshot: Sequence, p: nat, lo: nat, skip: UserKey)
    requires p <= |s|
  {
    && (forall j :: 0 <= j < p && Seen(s, snapshot, j) ==> s[j].key.user <= skip)
    && (forall i :: p <= i < |s| && Seen(s, snapshot, i) ==> s[i].key.user >= skip)
    && (forall i :: p <= i < |s| && s[i].key.user <= skip && i >= lo ==> !Yields(s, snapshot, i))
    && (forall i :: p <= i < |s| && s[i].key.user > skip ==> i >= lo)
  }

  /** What the snapshot sees before `p` is of keys before those that follow. */
  ghost predicate Between(s: seq<Entry>, snapshot: Sequence, p: nat, lo: nat)
    requires p <= |s|
  {
    && lo <= p
    && forall j, i :: 0 <= j < p <= i < |s| && Seen(s, snapshot, j) ==> s[j].key.user < s[i].key.user
  }

  ghost predicate Scanning(s: seq<Entry>, snapshot: Sequence, p: nat, lo: nat, skipping: bool, skip: UserKey) {
    && p <= |s|
    && (forall i :: lo <= i < p ==> !Yields(s, snapshot, i))
    && (if skipping then Skipping(s, snapshot, p, lo, skip) else Between(s, snapshot, p, lo))
  }

  lemma PassUnseen(s: seq<Entry>, snapshot: Sequence, p: nat, lo: nat, skipping: bool, skip: UserKey)
    requires Sorted(s) && Scanning(s, snapshot, p, lo, skipping, skip) && p < |s| && !Seen(s, snapshot, p)
    ensures Scanning(s, snapshot, p + 1, lo, skipping, skip)
  {
  }

  lemma PassDeletion(s: seq<Entry>, snapshot: Sequence, p: nat, lo: nat, skipping: bool, skip: UserKey)
    requires Sorted(s) && Scanning(s, snapshot, p, lo, skipping, skip) && p < |s|
    requires Seen(s, snapshot, p) && s[p].key.kind == Deletion
    ensures Scanning(s, snapshot, p + 1, lo, true, s[p].key.user)
  {
    var user := s[p].key.user;
    forall i | p < i < |s| ensures s[i].key.user >= user && (s[i].key.user == user ==> !Yields(s, snapshot, i)) {
      assert Before(s[p].key, s[i].key);
    }
    forall j | 0 <= j < p ensures s[j].key.user <= user { assert Before(s[j].key, s[p].key); }
  }

  lemma PassHidden(s: seq<Entry>, snapshot: Sequence, p: nat, lo: nat, skip: UserKey)
    requires Sorted(s) && Scanning(s, snapshot, p, lo, true, skip) && p < |s|
    requires Seen(s, snapshot, p) && s[p].key.user <= skip
    ensures Scanning(s, snapshot, p + 1, lo, true, skip)
  {
  }

  lemma FoundLive(s: seq<Entry>, snapshot: Sequence, p: nat, lo: nat, skipping: bool, skip: UserKey)
    requires Sorted(s) && Scanning(s, snapshot, p, lo, skipping, skip) && p < |s|
    requires Seen(s, snapshot, p) && s[p].key.kind == Value && (skipping ==> s[p].key.user > skip)
    ensures Yields(s, snapshot, p) && lo <= p
  {
  }

  /** `cur` is the first live entry from `lo` on, or the end. */
  ghost predicate FirstFrom(s: seq<Entry>, snapshot: Sequence, lo: nat, cur: nat) {
    && cur <= |s| && (cur < |s| ==> lo <= cur && Yields(s, snapshot, cur))
    && forall i :: lo <= i < cur ==> !Yields(s, snapshot, i)
  }

  // ----- scanning backward -----

  /**
   * After a backward scan down to `p` from live entry `hi` (or the end): the newest version seen of the last
   * key, if it is a value, is at `c`; nothing between is live.
   */
  ghost predicate ScannedBack(s: seq<Entry>, snapshot: Sequence, p: nat, hi: nat, c: nat, kind: Kind) {
    && p <= hi <= |s|
    && (kind == Deletion ==> forall i :: p <= i < hi ==> !Yields(s, snapshot, i))
    && (kind == Value ==>
          && p <= c < hi && Seen(s, snapshot, c) && s[c].key.kind == Value
          && (forall i :: p <= i < c ==> !Seen(s, snapshot, i))
          && (forall i :: c < i < hi ==> !Yields(s, snapshot, i)))
  }

  lemma StepBack(s: seq<Entry>, snapshot: Sequence, p: nat, hi: nat, c: nat, kind: Kind)
    requires Sorted(s) && ScannedBack(s, snapshot, p, hi, c, kind) && 0 < p
    requires Seen(s, snapshot, p - 1) && (kind == Value ==> s[p - 1].key.user >= s[c].key.user)
    ensures ScannedBack(s, snapshot, p - 1, hi, p - 1, s[p - 1].key.kind)
  {
    if kind == Value { assert Before(s[p - 1].key, s[c].key); }
  }

  lemma StepBackUnseen(s: seq<Entry>, snapshot: Sequence, p: nat, hi: nat, c: nat, kind: Kind)
    requires ScannedBack(s, snapshot, p, hi, c, kind) && 0 < p && !Seen(s, snapshot, p - 1)
    ensures ScannedBack(s, snapshot, p - 1, hi, c, kind)
  {
  }

  /** The scan may stop at the front, or at a seen entry of an earlier key. */
  lemma BackFound(s: seq<Entry>, snapshot: Sequence, p: nat, hi: nat, c: nat)
    requires Sorted(s) && ScannedBack(s, snapshot, p, hi, c, Value)
    requires p > 0 ==> s[p - 1].key.user < s[c].key.user
    ensures Yields(s, snapshot, c) && LastBefore(s, snapshot, hi, c)
  {
    forall j | 0 <= j < c && Seen(s, snapshot, j) ensures s[j].key.user != s[c].key.user {
      assert j < p;
      if j < p - 1 { assert Before(s[j].key, s[p - 1].key); }
    }
  }

  /** `cur` is the last live entry before `hi`. */
  ghost predicate LastBefore(s: seq<Entry>, snapshot: Sequence, hi: nat, cur: nat) {
    && cur < hi <= |s| && Yields(s, snapshot, cur)
    && forall i :: cur < i < hi ==> !Yields(s, snapshot, i)
  }

  // ----- places in the list -----

  lemma AtFirst(s: seq<Entry>, snapshot: Sequence, lo: nat, cur: nat)
    requires FirstFrom(s, snapshot, 0, cur) && lo == 0
    ensures |Live(s, snapshot, cur)| == 0 && (cur < |s| <==> Live(s, snapshot, |s|) != [])
  {
    LiveSkip(s, snapshot, 0, cur);
    if cur < |s| { LiveAt(s, snapshot, cur); }
  }

  lemma AtLast(s: seq<Entry>, snapshot: Sequence, hi: nat, cur: nat)
    requires hi == |s| && LastBefore(s, snapshot, hi, cur)
    ensures |Live(s, snapshot, cur)| == |Live(s, snapshot, |s|)| - 1
  {
    LiveSkip(s, snapshot, cur + 1, hi);
  }

  lemma AtNext(s: seq<Entry>, snapshot: Sequence, from: nat, cur: nat)
    requires from < |s| && Yields(s, snapshot, from) && FirstFrom(s, snapshot, from + 1, cur) && from < cur
    ensures |Live(s, snapshot, cur)| == |Live(s, snapshot, from)| + 1
    ensures cur < |s| <==> |Live(s, snapshot, cur)| < |Live(s, snapshot, |s|)|
  {
    LiveSkip(s, snapshot, from + 1, cur);
    if cur < |s| { LiveAt(s, snapshot, cur); }
  }

  lemma AtPrev(s: seq<Entry>, snapshot: Sequence, from: nat, cur: nat)
    requires from <= |s| && LastBefore(s, snapshot, from, cur)
    ensures |Live(s, snapshot, cur)| == |Live(s, snapshot, from)| - 1
  {
    LiveSkip(s, snapshot, cur + 1, from);
  }

  /** Before the seek position, the snapshot sees earlier keys only; from it on, keys from the target up. */
  lemma SeekSplits(s: seq<Entry>, snapshot: Sequence, target: UserKey, p: nat)
    requires Sorted(s) && p == SeekIndex(s, InternalKey(target, snapshot, Value))
    ensures Scanning(s, snapshot, p, p, false, 0.0)
    ensures forall i :: 0 <= i < p && Seen(s, snapshot, i) ==> s[i].key.user < target
    ensures forall i :: p <= i < |s| ==> s[i].key.user >= target
  {
  }

  lemma AtSought(s: seq<Entry>, snapshot: Sequence, target: UserKey, lo: nat, cur: nat)
    requires Sorted(s) && lo <= |s| && FirstFrom(s, snapshot, lo, cur)
    requires lo <= cur
    requires forall i :: 0 <= i < lo && Seen(s, snapshot, i) ==> s[i].key.user < target
    requires forall i :: lo <= i < |s| ==> s[i].key.user >= target
    ensures var all, place := Live(s, snapshot, |s|), |Live(s, snapshot, cur)|;
      && place <= |all| && (cur < |s| <==> place < |all|)
      && (forall i :: 0 <= i < place ==> all[i].key.user < target)
      && (forall i :: place <= i < |all| ==> all[i].key.user >= target)
  {
    var all, place := Live(s, snapshot, |s|), |Live(s, snapshot, cur)|;
    LivePrefix(s, snapshot, cur, |s|);
    LiveSkip(s, snapshot, lo, cur);
    LiveMembers(s, snapshot, lo);
    forall i | 0 <= i < place
      ensures all[i].key.user < target
    {
      assert Live(s, snapshot, lo)[i] in Live(s, snapshot, lo);
    }
    if cur < |s| {
      LiveAt(s, snapshot, cur);
      LiveAscending(s, snapshot, |s|);
    }
  }

  /** To step on, skip what is left of the current key and anything before it. */
  lemma SkipCurrent(s: seq<Entry>, snapshot: Sequence, p: nat, from: nat)
    requires Sorted(s) && p <= from < |s| && Yields(s, snapshot, from)
    requires forall i :: p <= i < from ==> !Seen(s, snapshot, i)
    ensures Scanning(s, snapshot, p, from + 1, true, s[from].key.user)
  {
    forall j | 0 <= j < from ensures s[j].key.user <= s[from].key.user { assert Before(s[j].key, s[from].key); }
    forall i | from < i < |s|
      ensures s[i].key.user >= s[from].key.user && (s[i].key.user == s[from].key.user ==> !Yields(s, snapshot, i))
    {
      assert Before(s[from].key, s[i].key);
    }
  }

  /** Earlier entries of a live entry's own key are not live. */
  lemma NoneInside(s: seq<Entry>, snapshot: Sequence, p: nat, from: nat)
    requires p <= from < |s| && Yields(s, snapshot, from)
    requires forall i :: p <= i < from ==> s[i].key.user == s[from].key.user
    ensures forall i :: p <= i < from ==> !Yields(s, snapshot, i)
  {
  }

  // ----- the iterator -----

  class DBIter {
    const iter: ListCursor
    const sequence: Sequence
    var direction: Direction
    var valid: bool
    var savedKey: UserKey
    var savedValue: Bytes
    // the internal position of the current live entry; the list's length when there is none
    ghost var cur: nat

    ghost function List(): seq<Entry> {
      Live(iter.list, sequence, |iter.list|)
    }

    /** The place in the list of live keys; the length of the list when the iterator is not valid. */
    ghost function Place(): nat
      requires cur <= |iter.list|
      reads this
    {
      |Live(iter.list, sequence, cur)|
    }

    ghost predicate Ready()
      reads this, iter
    {
      && iter.Fits()
      && cur <= |iter.list| && (valid <==> cur < |iter.list|)
      && (valid ==> Yields(iter.list, sequence, cur))
      && (valid && direction == Forward ==> iter.pos == cur)
      && (valid && direction == Reverse ==>
            && savedKey == iter.list[cur].key.user && savedValue == iter.list[cur].value
            && Above(iter.pos) <= cur && forall i :: Above(iter.pos) <= i < cur ==> !Seen(iter.list, sequence, i))
    }

    /** Everything from here up lies after the internal iterator; all of the list when it has run off the front. */
    ghost function Above(pos: nat): nat {
      if pos < |iter.list| then pos + 1 else 0
    }

    constructor (iter: ListCursor, sequence: Sequence)
      requires iter.Fits()
      ensures Ready() && !valid && this.iter == iter && this.sequence == sequence
    {
      this.iter := iter;
      this.sequence := sequence;
      direction := Forward;
      valid := false;
      savedKey, savedValue := 0.0, [];
      cur := |iter.list|;
    }

    method Key() returns (key: UserKey)
      requires Ready() && valid
      ensures Place() < |List()| && key == List()[Place()].key.user
    {
      LiveAt(iter.list, sequence, cur);
      key := if direction == Forward then iter.Current().key.user else savedKey;
    }

    method Value() returns (value: Bytes)
      requires Ready() && valid
      ensures Place() < |List()| && value == List()[Place()].value
    {
      LiveAt(iter.list, sequence, cur);
      value := if direction == Forward then iter.Current().value else savedValue;
    }

    method FindNextUserEntry(skipping: bool, skip: UserKey, ghost lo: nat)
      requires iter.Fits() && iter.Valid() && direction == Forward && lo <= |iter.list|
      requires Scanning(iter.list, sequence, iter.pos, lo, skipping, skip)
      modifies this, iter
      ensures Ready() && direction == Forward
      ensures FirstFrom(iter.list, sequence, lo, cur)
    {
      var skips, key := skipping, skip;
      while iter.Valid()
        invariant iter.Fits() && direction == Forward
        invariant Scanning(iter.list, sequence, iter.pos, lo, skips, key)
        decreases |iter.list| - iter.pos
      {
        var e := iter.Current();
        if e.key.seqno <= sequence {
          if e.key.kind == Deletion {
            PassDeletion(iter.list, sequence, iter.pos, lo, skips, key);
            key, skips := e.key.user, true;
          } else if skips && e.key.user <= key {
            PassHidden(iter.list, sequence, iter.pos, lo, key);
          } else {
            FoundLive(iter.list, sequence, iter.pos, lo, skips, key);
            valid, savedKey := true, 0.0;
            cur := iter.pos;
            return;
          }
        } else {
          PassUnseen(iter.list, sequence, iter.pos, lo, skips, key);
        }
        iter.Next();
      }
      savedKey, valid := 0.0, false;
      cur := |iter.list|;
    }

    /** `hi` is the live entry to step back from, or the end of the list. */
    method FindPrevUserEntry(ghost hi: nat)
      requires iter.Fits() && direction == Reverse && hi <= |iter.list|
      requires Above(iter.pos) <= hi && forall i :: Above(iter.pos) <= i < hi ==> !Yields(iter.list, sequence, i)
      modifies this, iter
      ensures Ready()
      ensures if valid then LastBefore(iter.list, sequence, hi, cur)
          else forall i :: 0 <= i < hi ==> !Yields(iter.list, sequence, i)
    {
      var kind := Deletion;
      ghost var c: nat := 0;
      while iter.Valid()
        invariant iter.Fits() && direction == Reverse
        invariant Above(iter.pos) <= hi && ScannedBack(iter.list, sequence, Above(iter.pos), hi, c, kind)
        invariant kind.Value? ==> savedKey == iter.list[c].key.user && savedValue == iter.list[c].value
        decreases Above(iter.pos)
      {
        var e := iter.Current();
        if e.key.seqno <= sequence {
          if kind != Deletion && e.key.user < savedKey {
            break;
          }
          StepBack(iter.list, sequence, iter.pos + 1, hi, c, kind);
          kind := e.key.kind;
          c := iter.pos;
          if kind == Deletion {
            savedKey, savedValue := 0.0, [];
          } else {
            savedKey, savedValue := e.key.user, e.value;
          }
        } else {
          StepBackUnseen(iter.list, sequence, iter.pos + 1, hi, c, kind);
        }
        iter.Prev();
      }
      if kind == Deletion {
        valid, savedKey, savedValue, direction := false, 0.0, [], Forward;
        cur := |iter.list|;
      } else {
        valid := true;
        BackFound(iter.list, sequence, Above(iter.pos), hi, c);
        cur := c;
      }
    }

    method SeekToFirst()
      requires iter.Fits()
      modifies this, iter
      ensures Ready() && Place() == 0 && (valid <==> List() != [])
    {
      direction, savedValue := Forward, [];
      iter.SeekToFirst();
      if iter.Valid() {
        FindNextUserEntry(false, savedKey, 0);
      } else {
        valid := false;
        cur := |iter.list|;
      }
      AtFirst(iter.list, sequence, 0, cur);
    }

    method SeekToLast()
      requires iter.Fits()
      modifies this, iter
      ensures Ready() && (valid <==> List() != [])
      ensures valid ==> Place() == |List()| - 1
    {
      direction, savedValue := Reverse, [];
      iter.SeekToLast();
      FindPrevUserEntry(|iter.list|);
      if valid {
        AtLast(iter.list, sequence, |iter.list|, cur);
      } else {
        LiveSkip(iter.list, sequence, 0, |iter.list|);
      }
    }

    /** Lands on the first live key at or after the target. */
    method Seek(target: UserKey)
      requires iter.Fits()
      modifies this, iter
      ensures Ready() && Place() <= |List()| && (valid <==> Place() < |List()|)
      ensures forall i :: 0 <= i < Place() ==> List()[i].key.user < target
      ensures forall i :: Place() <= i < |List()| ==> List()[i].key.user >= target
    {
      direction, savedValue := Forward, [];
      iter.Seek(InternalKey(target, sequence, Kind.Value));
      SeekSplits(iter.list, sequence, target, iter.pos);
      ghost var lo := iter.pos;
      if iter.Valid() {
        FindNextUserEntry(false, savedKey, lo);
      } else {
        valid := false;
        cur := |iter.list|;
      }
      AtSought(iter.list, sequence, target, lo, cur);
    }

    method Next()
      requires Ready() && valid
      modifies this, iter
      ensures Ready() && Place() == old(Place()) + 1 && (valid <==> Place() < |List()|)
    {
      ghost var from := cur;
      if direction == Reverse {
        direction := Forward;
        if !iter.Valid() {
          iter.SeekToFirst();
        } else {
          iter.Next();
        }
      } else {
        savedKey := iter.Current().key.user;
      }
      SkipCurrent(iter.list, sequence, iter.pos, from);
      FindNextUserEntry(true, savedKey, from + 1);
      AtNext(iter.list, sequence, from, cur);
    }

    method Prev()
      requires Ready() && valid
      modifies this, iter
      ensures Ready()
      ensures if old(Place()) == 0 then !valid else valid && Place() == old(Place()) - 1
    {
      ghost var from := cur;
      if direction == Forward {
        savedKey := iter.Current().key.user;
        var done := BackToEarlierKey(from);
        if done {
          LiveSkip(iter.list, sequence, 0, from);
          return;
        }
        direction := Reverse;
      }
      FindPrevUserEntry(from);
      if valid { AtPrev(iter.list, sequence, from, cur); } else { LiveSkip(iter.list, sequence, 0, from); }
    }

    /** The loop of Prev that scans back until the key changes; `done` when it runs off the front. */
    method BackToEarlierKey(ghost from: nat) returns (done: bool)
      requires Ready() && valid && direction == Forward && savedKey == iter.list[cur].key.user && from == cur
      modifies this, iter
      ensures direction == Forward && cur <= |iter.list|
      ensures done ==> Ready() && !valid && forall i :: 0 <= i < from ==> !Yields(iter.list, sequence, i)
      ensures !done ==> iter.Fits() && iter.pos < from
      ensures !done ==> forall i :: Above(iter.pos) <= i < from ==> !Yields(iter.list, sequence, i)
    {
      while true
        invariant iter.Fits() && iter.pos <= from < |iter.list| && direction == Forward
        invariant savedKey == iter.list[from].key.user && cur == from
        invariant forall i :: iter.pos <= i < from ==> iter.list[i].key.user == savedKey
        decreases iter.pos
      {
        NoneInside(iter.list, sequence, iter.pos, from);
        iter.Prev();
        if !iter.Valid() {
          valid, savedKey, savedValue := false, 0.0, [];
          cur := |iter.list|;
          return true;
        }
        if iter.Current().key.user < savedKey {
          return false;
        }
        assert iter.pos < from ==> Before(iter.list[iter.pos].key, iter.list[from].key);
      }
      assert false;
    }
  }
}
