/** The specification of the database: a map from keys to values, updated by one operation after another. */
module Store {
  import opened Keys
  import opened Reads
  import opened Version
  import opened Engine
  import opened Invariant
  import opened Steps

  type Mapping = map<UserKey, Bytes>

  function Update(store: Mapping, op: Op): Mapping {
    if op.kind == Value then store[op.user := op.value] else store - {op.user}
  }

  /** The store after the first `n` operations. */
  function StoreAfter(ops: seq<Op>, n: nat): Mapping
    requires n <= |ops|
  {
    if n == 0 then map[] else Update(StoreAfter(ops, n - 1), ops[n - 1])
  }

  function Lookup(store: Mapping, user: UserKey): Answer {
    if user in store then Found(store[user]) else NotFound
  }

  /** The operations as entries, numbered from 1. */
  ghost function History(ops: seq<Op>): set<Entry>
    requires |ops| < MAX_SEQUENCE
  {
    Elements(Stamp(ops, 1))
  }

  lemma HistoryNumbered(ops: seq<Op>)
    requires |ops| < MAX_SEQUENCE
    ensures Numbered(History(ops), |ops|)
    ensures forall e :: e in History(ops) <==> exists i :: 0 <= i < |ops| && e == Stamp(ops, 1)[i]
  {
    var b := Stamp(ops, 1);
    assert {} + Elements(b) == Elements(b);
    NumberedGrows({}, 0, b);
  }

  lemma HistoryGrowsBy(ops: seq<Op>, more: seq<Op>)
    requires |ops| + |more| < MAX_SEQUENCE
    ensures History(ops + more) == History(ops) + Elements(Stamp(more, |ops| + 1))
  {
    assert Stamp(ops + more, 1) == Stamp(ops, 1) + Stamp(more, |ops| + 1);
  }

  lemma ReadSameVisible(s: set<Entry>, user: UserKey, n: nat, m: nat)
    requires Distinct(s) && forall e :: Visible(s, user, n, e) <==> Visible(s, user, m, e)
    ensures Read(s, user, n) == Read(s, user, m)
  {
    forall e ensures Newest(s, user, n, e) <==> Newest(s, user, m, e) {}
    if !NothingVisible(s, user, n) {
      var e := NewestExists(s, user, n);
      ReadIsNewest(s, user, n, e);
      ReadIsNewest(s, user, m, e);
    }
  }

  /** Entry `n` decides the reads of its key at `n`, and no others. */
  lemma EntryDecides(h: set<Entry>, top: nat, user: UserKey, n: nat, e: Entry)
    requires Numbered(h, top) && 0 < n && e in h && e.key.seqno == n
    ensures Read(h, user, n) == if e.key.user == user then AnswerOf(e) else Read(h, user, n - 1)
  {
    NumberedDistinct(h, top);
    if e.key.user == user {
      ReadIsNewest(h, user, n, e);
    } else {
      forall f ensures Visible(h, user, n, f) <==> Visible(h, user, n - 1, f) {
        if f in h && f.key.seqno == n { assert f == e; }
      }
      ReadSameVisible(h, user, n, n - 1);
    }
  }

  /** Reading the numbered history at `n` is looking up the store after `n` operations. */
  lemma {:induction false} HistoryReads(ops: seq<Op>, user: UserKey, n: nat)
    requires |ops| < MAX_SEQUENCE && n <= |ops|
    ensures Read(History(ops), user, n) == Lookup(StoreAfter(ops, n), user)
  {
    HistoryNumbered(ops);
    if n > 0 {
      HistoryReads(ops, user, n - 1);
      var e := Stamp(ops, 1)[n - 1];
      assert e in History(ops) && e.key.seqno == n;
      EntryDecides(History(ops), |ops|, user, n, e);
    }
  }
}
