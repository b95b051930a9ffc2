/** What one LeaseMessages call picks, against an independent description of the scheduling order. */
module Scheduler {
  import opened Common
  import opened Ordering
  import opened QueueSpec
  import opened Tables

  /** a is served before b: higher priority, then older, then smaller message id. */
  ghost predicate ServedBefore(db: Db, a: nat, b: nat) {
    && a in db.deliveries && b in db.deliveries
    && db.deliveries[a].messageId in db.messages && db.deliveries[b].messageId in db.messages
    && var m, n := db.messages[db.deliveries[a].messageId], db.messages[db.deliveries[b].messageId];
    || m.priority > n.priority
    || (m.priority == n.priority && m.enqueuedAt < n.enqueuedAt)
    || (m.priority == n.priority && m.enqueuedAt == n.enqueuedAt && db.deliveries[a].messageId < db.deliveries[b].messageId)
  }

  ghost predicate Available(db: Db, locked: set<nat>, subscription: nat, at: Time, id: nat) {
    id !in locked && Eligible(db, subscription, at, id)
  }

  ghost function AvailableIds(db: Db, locked: set<nat>, subscription: nat, at: Time): set<nat> {
    set id | id in db.deliveries && Available(db, locked, subscription, at, id)
  }

  ghost predicate NoDuplicates<T>(s: seq<T>) {
    forall i, j | 0 <= i < j < |s| :: s[i] != s[j]
  }

  function Min(a: nat, b: nat): nat { if a < b then a else b }

  /** The candidate rows are the available ids below the bound, each with its own key. */
  lemma {:induction false} CandidateRows(db: Db, locked: set<nat>, sub: nat, at: Time, upto: nat)
    ensures var c := Candidates(db, locked, sub, at, upto);
      && (forall x | x in c :: x.item < upto && Available(db, locked, sub, at, x.item) && x == RowKey(db, x.item))
      && (forall id: nat | id < upto && Available(db, locked, sub, at, id) :: RowKey(db, id) in c)
      && (forall i, j | 0 <= i < j < |c| :: c[i].item < c[j].item)
  {
    if upto > 0 {
      CandidateRows(db, locked, sub, at, upto - 1);
    }
  }

  lemma CandidatesDistinct(db: Db, locked: set<nat>, sub: nat, at: Time, upto: nat)
    requires OneDeliveryEach(db)
    ensures DistinctKeys(Candidates(db, locked, sub, at, upto))
  {
    CandidateRows(db, locked, sub, at, upto);
    var c := Candidates(db, locked, sub, at, upto);
    forall i, j | 0 <= i < j < |c| ensures Less(c[i], c[j]) || Less(c[j], c[i]) {
      assert c[i] in c && c[j] in c;
      assert db.deliveries[c[i].item].messageId != db.deliveries[c[j].item].messageId;
    }
  }

  /** A picked id stands for its candidate row, and conversely. */
  lemma PickRows(db: Db, locked: set<nat>, sub: nat, at: Time, limit: nat)
    ensures var top := Take(Sort(Candidates(db, locked, sub, at, db.nextDelivery)), limit);
      var ids := Pick(db, locked, sub, at, limit);
      && |ids| == |top|
      && (forall i | 0 <= i < |ids| :: Available(db, locked, sub, at, ids[i]) && top[i] == RowKey(db, ids[i]))
      && (forall x | x in top :: x.item in ids)
      && (forall id | id in ids :: Available(db, locked, sub, at, id) && RowKey(db, id) in top)
  {
    var c := Candidates(db, locked, sub, at, db.nextDelivery);
    CandidateRows(db, locked, sub, at, db.nextDelivery);
    SortRows(c);
    var top := Take(Sort(c), limit);
    var ids := Items(top);
    forall i | 0 <= i < |ids| ensures Available(db, locked, sub, at, ids[i]) && top[i] == RowKey(db, ids[i]) {
      assert top[i] == Sort(c)[i];
      assert top[i] in c;
    }
    forall x | x in top ensures x.item in ids {
      var i :| 0 <= i < |top| && top[i] == x;
      assert ids[i] == x.item;
    }
  }

  /**
   Exactness: one lease takes min(limit, count) of the unlocked eligible rows, in service
   order, and every row it takes is served before every row it leaves.
   */
  lemma PickExact(db: Db, now: Time, locked: set<nat>, sub: nat, at: Time, limit: nat)
    requires Wf(db, now)
    ensures var ids := Pick(db, locked, sub, at, limit);
      && (forall i | 0 <= i < |ids| :: Available(db, locked, sub, at, ids[i]))
      && NoDuplicates(ids)
      && (forall i, j | 0 <= i < j < |ids| :: ServedBefore(db, ids[i], ids[j]))
      && (forall a, b | a in ids && Available(db, locked, sub, at, b) && b !in ids :: ServedBefore(db, a, b))
      && |ids| == Min(limit, |AvailableIds(db, locked, sub, at)|)
  {
    var c := Candidates(db, locked, sub, at, db.nextDelivery);
    CandidateRows(db, locked, sub, at, db.nextDelivery);
    CandidatesDistinct(db, locked, sub, at, db.nextDelivery);
    TopPrecedesRest(c, limit);
    PickRows(db, locked, sub, at, limit);
    var top := Take(Sort(c), limit);
    var ids := Pick(db, locked, sub, at, limit);
    forall i, j | 0 <= i < j < |ids| ensures ServedBefore(db, ids[i], ids[j]) && ids[i] != ids[j] {
      assert Less(top[i], top[j]);
    }
    forall a, b | a in ids && Available(db, locked, sub, at, b) && b !in ids ensures ServedBefore(db, a, b) {
      var i :| 0 <= i < |ids| && ids[i] == a;
      assert RowWf(db, b);
      assert RowKey(db, b) in c;
      assert top[i] in top;
      assert Less(top[i], RowKey(db, b));
    }
    CandidateCount(db, now, locked, sub, at);
  }

  lemma CandidateCount(db: Db, now: Time, locked: set<nat>, sub: nat, at: Time)
    requires Wf(db, now)
    ensures |Candidates(db, locked, sub, at, db.nextDelivery)| == |AvailableIds(db, locked, sub, at)|
  {
    var c := Candidates(db, locked, sub, at, db.nextDelivery);
    CandidateRows(db, locked, sub, at, db.nextDelivery);
    var items := Items(c);
    forall id | id in AvailableIds(db, locked, sub, at) ensures id in items {
      assert RowWf(db, id);
      var i :| 0 <= i < |c| && c[i] == RowKey(db, id);
      assert items[i] == id;
    }
    forall id | id in items ensures id in AvailableIds(db, locked, sub, at) {
      var i :| 0 <= i < |c| && items[i] == id;
      assert c[i] in c;
    }
    DistinctCount(items, AvailableIds(db, locked, sub, at));
  }

  lemma {:induction false} DistinctCount<T>(s: seq<T>, elements: set<T>)
    requires NoDuplicates(s)
    requires forall x :: x in s <==> x in elements
    ensures |s| == |elements|
  {
    if s == [] {
      assert elements == {};
    } else {
      var n := |s| - 1;
      assert s == s[..n] + [s[n]];
      forall x ensures x in s[..n] <==> x in elements - {s[n]} { assert x in s <==> x in elements; }
      assert s[n] in elements;
      DistinctCount(s[..n], elements - {s[n]});
    }
  }

  /** The first position of an id in the service order decides whether a lease of `limit` reaches it. */
  ghost function Rank(db: Db, locked: set<nat>, sub: nat, at: Time, id: nat): nat {
    |set other | other in AvailableIds(db, locked, sub, at) && ServedBefore(db, other, id)|
  }

  /** What is served before the k-th picked row is what was picked before it. */
  lemma EarlierPicks(db: Db, now: Time, locked: set<nat>, sub: nat, at: Time, limit: nat, k: nat)
    requires Wf(db, now) && k < |Pick(db, locked, sub, at, limit)|
    ensures var ids := Pick(db, locked, sub, at, limit);
      forall x :: x in ids[..k] <==> x in AvailableIds(db, locked, sub, at) && ServedBefore(db, x, ids[k])
  {
    var ids := Pick(db, locked, sub, at, limit);
    PickExact(db, now, locked, sub, at, limit);
    forall x | x in AvailableIds(db, locked, sub, at) && ServedBefore(db, x, ids[k]) ensures x in ids[..k] {
      assert ids[k] in ids && RowWf(db, x) && RowWf(db, ids[k]);
      assert x !in ids ==> ServedBefore(db, ids[k], x);
      var j :| 0 <= j < |ids| && ids[j] == x;
      assert j > k ==> ServedBefore(db, ids[k], ids[j]);
    }
  }

  /** An available row is taken exactly when fewer than `limit` available rows are served before it. */
  lemma PickedByRank(db: Db, now: Time, locked: set<nat>, sub: nat, at: Time, limit: nat, id: nat)
    requires Wf(db, now)
    requires Available(db, locked, sub, at, id)
    ensures id in Pick(db, locked, sub, at, limit) <==> Rank(db, locked, sub, at, id) < limit
  {
    var ids := Pick(db, locked, sub, at, limit);
    var earlier := set other | other in AvailableIds(db, locked, sub, at) && ServedBefore(db, other, id);
    PickExact(db, now, locked, sub, at, limit);
    assert RowWf(db, id);
    if id in ids {
      var k :| 0 <= k < |ids| && ids[k] == id;
      EarlierPicks(db, now, locked, sub, at, limit, k);
      DistinctCount(ids[..k], earlier);
    } else {
      forall x | x in ids ensures x in earlier { }
      SeqInside(ids, earlier);
      if |ids| < limit {
        AllTaken(ids, AvailableIds(db, locked, sub, at), id);
      }
    }
  }

  lemma SeqInside<T>(s: seq<T>, elements: set<T>)
    requires NoDuplicates(s) && forall x | x in s :: x in elements
    ensures |s| <= |elements|
  {
    var own := set x | x in s;
    DistinctCount(s, own);
    Subset(own, elements);
  }

  lemma {:induction false} Subset<T>(a: set<T>, b: set<T>)
    requires a <= b
    ensures |a| <= |b|
  {
    assert b == a + (b - a);
  }

  lemma AllTaken<T>(s: seq<T>, elements: set<T>, x: T)
    requires NoDuplicates(s) && forall y | y in s :: y in elements
    requires |s| == |elements|
    requires x in elements
    ensures x in s
  {
    if x !in s {
      SeqInside(s, elements - {x});
    }
  }
}
