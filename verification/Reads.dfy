/** The specification of the store: what a reader of a set of versioned entries must see. */
module Reads {
  import opened Keys

  datatype Answer = NotFound | Found(value: Bytes)

  ghost predicate Visible(s: set<Entry>, user: UserKey, snapshot: nat, e: Entry) {
    e in s && e.key.user == user && e.key.seqno <= snapshot
  }

  ghost predicate Newest(s: set<Entry>, user: UserKey, snapshot: nat, e: Entry) {
    Visible(s, user, snapshot, e) &&
    forall f :: Visible(s, user, snapshot, f) ==> f.key.seqno <= e.key.seqno
  }

  /** The value of the newest visible entry; a deletion marker counts as absent. */
  ghost function Read(s: set<Entry>, user: UserKey, snapshot: nat): Answer {
    if exists e :: Newest(s, user, snapshot, e) && e.key.kind == Value then
      var e :| Newest(s, user, snapshot, e) && e.key.kind == Value;
      Found(e.value)
    else NotFound
  }

  /** No two entries share a user key and a sequence number. */
  ghost predicate Distinct(s: set<Entry>) {
    forall e, f :: e in s && f in s && e.key.user == f.key.user && e.key.seqno == f.key.seqno ==> e == f
  }

  ghost function AnswerOf(e: Entry): Answer {
    if e.key.kind == Value then Found(e.value) else NotFound
  }

  lemma ReadIsNewest(s: set<Entry>, user: UserKey, snapshot: nat, e: Entry)
    requires Distinct(s) && Newest(s, user, snapshot, e)
    ensures Read(s, user, snapshot) == AnswerOf(e)
  {
    forall f | Newest(s, user, snapshot, f) ensures f == e {
      assert Visible(s, user, snapshot, f) && Visible(s, user, snapshot, e);
    }
  }

  ghost predicate NothingVisible(s: set<Entry>, user: UserKey, snapshot: nat) {
    forall e :: !Visible(s, user, snapshot, e)
  }

  lemma {:induction false} NewestExists(s: set<Entry>, user: UserKey, snapshot: nat) returns (e: Entry)
    requires !NothingVisible(s, user, snapshot)
    ensures Newest(s, user, snapshot, e)
    decreases |s|
  {
    var c :| Visible(s, user, snapshot, c);
    var newer := set f | f in s && Visible(s, user, snapshot, f) && f.key.seqno > c.key.seqno;
    if newer == {} {
      e := c;
      forall f | Visible(s, user, snapshot, f) ensures f.key.seqno <= e.key.seqno {
        assert f !in newer;
      }
    } else {
      assert newer <= s - {c};
      SubsetSize(newer, s - {c});
      assert exists f :: f in newer;
      var f0 :| f0 in newer;
      assert Visible(newer, user, snapshot, f0);
      e := NewestExists(newer, user, snapshot);
      forall f | Visible(s, user, snapshot, f) ensures f.key.seqno <= e.key.seqno {
        if f.key.seqno > c.key.seqno { assert f in newer; assert Visible(newer, user, snapshot, f); }
      }
    }
  }

  /** Every entry of `a` is newer than every entry of `b` with the same user key. */
  ghost predicate NewerThan(a: set<Entry>, b: set<Entry>) {
    forall e, f :: e in a && f in b && e.key.user == f.key.user ==> e.key.seqno > f.key.seqno
  }

  /** Reading two layers is reading the newer one first and the older one only on a miss. */
  lemma ReadLayers(newer: set<Entry>, older: set<Entry>, user: UserKey, snapshot: nat)
    requires NewerThan(newer, older) && Distinct(newer + older)
    ensures Read(newer + older, user, snapshot)
         == if NothingVisible(newer, user, snapshot) then Read(older, user, snapshot) else Read(newer, user, snapshot)
  {
    var all := newer + older;
    if !NothingVisible(newer, user, snapshot) {
      var e := NewestExists(newer, user, snapshot);
      forall f | Visible(all, user, snapshot, f) ensures f.key.seqno <= e.key.seqno {
        if f in newer { assert Visible(newer, user, snapshot, f); }
      }
      ReadIsNewest(newer, user, snapshot, e);
      ReadIsNewest(all, user, snapshot, e);
    } else {
      forall e ensures Newest(all, user, snapshot, e) <==> Newest(older, user, snapshot, e) {
        assert forall f :: Visible(all, user, snapshot, f) <==> Visible(older, user, snapshot, f) by {
          forall f ensures Visible(all, user, snapshot, f) <==> Visible(older, user, snapshot, f) {
            assert !Visible(newer, user, snapshot, f);
          }
        }
      }
      if exists e :: Newest(older, user, snapshot, e) {
        var e :| Newest(older, user, snapshot, e);
        ReadIsNewest(older, user, snapshot, e);
        ReadIsNewest(all, user, snapshot, e);
      }
    }
  }

  /** Entries beyond the snapshot do not change a read. */
  lemma ReadIgnoresFuture(s: set<Entry>, future: set<Entry>, user: UserKey, snapshot: nat)
    requires Distinct(s)
    requires forall e :: e in future ==> e.key.seqno > snapshot
    ensures Read(s + future, user, snapshot) == Read(s, user, snapshot)
  {
    forall e ensures Visible(s + future, user, snapshot, e) <==> Visible(s, user, snapshot, e) {}
    forall e ensures Newest(s + future, user, snapshot, e) <==> Newest(s, user, snapshot, e) {}
    if exists e :: Newest(s, user, snapshot, e) {
      var e :| Newest(s, user, snapshot, e);
      ReadIsNewest(s, user, snapshot, e);
      forall f | Newest(s + future, user, snapshot, f) ensures f == e {
        assert Visible(s, user, snapshot, e) && Visible(s, user, snapshot, f);
      }
    }
  }
}
