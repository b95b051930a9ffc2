/** Repeated leases at one instant drain a subscription in service order. */
module Draining {
  import opened Common
  import opened Ordering
  import opened QueueSpec
  import opened Tables
  import opened Scheduler

  function Backlog(s: System, sub: nat): seq<Keyed<nat>> {
    Sort(Candidates(s.db, LockedIds(s.open), sub, s.now, s.db.nextDelivery))
  }

  /** One whole Consume: pick, update, commit. */
  function Consume(s: System, tx: nat, sub: nat, limit: int, consumer: string): System {
    CommitConsume(BeginConsume(s, tx, sub, limit, consumer).0, tx).0
  }

  /** The batches that `rounds` consecutive Consume calls return, each listed in service order. */
  function Batches(s: System, tx: nat, sub: nat, limit: nat, consumer: string, rounds: nat): (batches: seq<seq<nat>>)
    ensures |batches| == rounds
    decreases rounds
  {
    if rounds == 0 then []
    else [Pick(s.db, LockedIds(s.open), sub, s.now, limit)]
         + Batches(Consume(s, tx, sub, limit, consumer), tx, sub, limit, consumer, rounds - 1)
  }

  function Concat(batches: seq<seq<nat>>): seq<nat> {
    if batches == [] then [] else batches[0] + Concat(batches[1..])
  }

  /** A connection and a subscription on which a Consume of this size is accepted and leases into the present or future. */
  ghost predicate CanDrain(s: System, tx: nat, sub: nat, limit: nat) {
    && Wf(s.db, s.now)
    && tx !in s.open
    && sub in s.db.subscriptions
    && s.db.subscriptions[sub].visibilityTimeout >= 0
    && 1 <= limit <= MAX_BATCH
    && forall id | Available(s.db, LockedIds(s.open), sub, s.now, id) :: s.db.deliveries[id].attemptCount < SMALLINT_MAX
  }

  /** A Consume leases the picked rows, and makes exactly those unavailable. */
  lemma ConsumeEffect(s: System, tx: nat, sub: nat, limit: nat, consumer: string)
    requires CanDrain(s, tx, sub, limit)
    ensures var ids := Pick(s.db, LockedIds(s.open), sub, s.now, limit);
      var s' := Consume(s, tx, sub, limit, consumer);
      && s' == s.(db := LeaseRows(s.db, ids, s.now, s.db.subscriptions[sub].visibilityTimeout, consumer))
      && (forall id :: Available(s'.db, LockedIds(s.open), sub, s.now, id)
            <==> Available(s.db, LockedIds(s.open), sub, s.now, id) && id !in ids)
  {
    var ids := Pick(s.db, LockedIds(s.open), sub, s.now, limit);
    PickRows(s.db, LockedIds(s.open), sub, s.now, limit);
    var begun := BeginConsume(s, tx, sub, limit, consumer).0;
    assert begun.open - {tx} == s.open;
  }

  lemma ConsumeKeepsDraining(s: System, tx: nat, sub: nat, limit: nat, consumer: string)
    requires CanDrain(s, tx, sub, limit)
    ensures CanDrain(Consume(s, tx, sub, limit, consumer), tx, sub, limit)
  {
    var ids := Pick(s.db, LockedIds(s.open), sub, s.now, limit);
    var s' := Consume(s, tx, sub, limit, consumer);
    ConsumeEffect(s, tx, sub, limit, consumer);
    PickRows(s.db, LockedIds(s.open), sub, s.now, limit);
    LeaseRowsWf(s.db, s.now, ids, s.now, s.db.subscriptions[sub].visibilityTimeout, consumer);
  }

  lemma NotInHead<T>(s: seq<Keyed<T>>, n: nat, i: nat)
    requires Ordered(s) && n <= i < |s|
    ensures s[i] !in s[..n]
  {
    forall j | 0 <= j < n ensures s[..n][j] != s[i] {
      assert Less(s[j], s[i]);
    }
  }

  /** Removing the first n rows of a listing and sorting again gives the rest of the listing. */
  lemma SortTail<T>(c: seq<Keyed<T>>, c': seq<Keyed<T>>, n: nat)
    requires DistinctKeys(c) && DistinctKeys(c')
    requires n <= |Sort(c)|
    requires forall x | x in c' :: x in c && x !in Sort(c)[..n]
    requires forall x | x in c && x !in Sort(c)[..n] :: x in c'
    ensures Sort(c') == Sort(c)[n..]
  {
    SortOrdered(c);
    SortRows(c);
    var head, tail := Sort(c)[..n], Sort(c)[n..];
    forall x | x in c' ensures x in tail {
      assert x in Sort(c);
      assert Sort(c) == head + tail;
    }
    forall x | x in tail ensures x in c' {
      var i :| 0 <= i < |tail| && tail[i] == x;
      assert Sort(c)[n + i] == x;
      NotInHead(Sort(c), n, n + i);
    }
    SortIs(c', tail);
  }

  /** When exactly the picked rows stop being available, the backlog loses exactly its head. */
  lemma BacklogTail(db: Db, db': Db, locked: set<nat>, sub: nat, at: Time, limit: nat)
    requires OneDeliveryEach(db) && OneDeliveryEach(db')
    requires db'.messages == db.messages && db'.deliveries.Keys == db.deliveries.Keys && db'.nextDelivery == db.nextDelivery
    requires forall id | id in db.deliveries :: db'.deliveries[id].messageId == db.deliveries[id].messageId
    requires forall id :: Available(db', locked, sub, at, id)
               <==> Available(db, locked, sub, at, id) && id !in Pick(db, locked, sub, at, limit)
    ensures var all := Sort(Candidates(db, locked, sub, at, db.nextDelivery));
      Sort(Candidates(db', locked, sub, at, db.nextDelivery)) == all[|Take(all, limit)|..]
  {
    var ids := Pick(db, locked, sub, at, limit);
    PickRows(db, locked, sub, at, limit);
    var c := Candidates(db, locked, sub, at, db.nextDelivery);
    var c' := Candidates(db', locked, sub, at, db.nextDelivery);
    var top := Take(Sort(c), limit);
    CandidateRows(db, locked, sub, at, db.nextDelivery);
    CandidateRows(db', locked, sub, at, db.nextDelivery);
    CandidatesDistinct(db, locked, sub, at, db.nextDelivery);
    CandidatesDistinct(db', locked, sub, at, db.nextDelivery);
    assert top == Sort(c)[..|top|];
    forall x | x in c && x !in top ensures x in c' {
      assert x.item !in ids;
      assert Available(db', locked, sub, at, x.item);
      assert RowKey(db', x.item) == x;
    }
    forall x | x in c' ensures x in c && x !in top {
      assert Available(db, locked, sub, at, x.item);
      assert RowKey(db, x.item) == x;
    }
    SortTail(c, c', |top|);
  }

  /** One Consume leases exactly the head of the backlog and leaves exactly its tail. */
  lemma ConsumeTakesHead(s: System, tx: nat, sub: nat, limit: nat, consumer: string)
    requires CanDrain(s, tx, sub, limit)
    ensures Backlog(Consume(s, tx, sub, limit, consumer), sub) == Backlog(s, sub)[|Take(Backlog(s, sub), limit)|..]
  {
    ConsumeEffect(s, tx, sub, limit, consumer);
    ConsumeKeepsDraining(s, tx, sub, limit, consumer);
    BacklogTail(s.db, Consume(s, tx, sub, limit, consumer).db, LockedIds(s.open), sub, s.now, limit);
  }

  /** Together the batches are a prefix of the backlog, listed in service order. */
  lemma {:induction false} BatchesConcat(s: System, tx: nat, sub: nat, limit: nat, consumer: string, rounds: nat)
    requires CanDrain(s, tx, sub, limit)
    ensures Concat(Batches(s, tx, sub, limit, consumer, rounds)) == Items(Take(Backlog(s, sub), rounds * limit))
    decreases rounds
  {
    if rounds > 0 {
      var s' := Consume(s, tx, sub, limit, consumer);
      ConsumeKeepsDraining(s, tx, sub, limit, consumer);
      ConsumeTakesHead(s, tx, sub, limit, consumer);
      BatchesConcat(s', tx, sub, limit, consumer, rounds - 1);
      var batches := Batches(s, tx, sub, limit, consumer, rounds);
      assert batches[1..] == Batches(s', tx, sub, limit, consumer, rounds - 1);
      ItemsSplit(Backlog(s, sub), Backlog(s', sub), limit, rounds);
    }
  }

  lemma ItemsSplit<T>(all: seq<Keyed<T>>, rest: seq<Keyed<T>>, limit: nat, rounds: nat)
    requires rounds > 0 && rest == all[|Take(all, limit)|..]
    ensures Items(Take(all, rounds * limit)) == Items(Take(all, limit)) + Items(Take(rest, (rounds - 1) * limit))
  {
    assert rounds * limit == limit + (rounds - 1) * limit;
  }

  /** Fewer rounds return the same batches, as far as they go. */
  lemma {:induction false} BatchesPrefix(s: System, tx: nat, sub: nat, limit: nat, consumer: string, rounds: nat, n: nat)
    requires n <= rounds
    ensures Batches(s, tx, sub, limit, consumer, rounds)[..n] == Batches(s, tx, sub, limit, consumer, n)
    decreases n
  {
    if n > 0 {
      BatchesPrefix(Consume(s, tx, sub, limit, consumer), tx, sub, limit, consumer, rounds - 1, n - 1);
    }
  }

  lemma PrefixConcat(s: System, tx: nat, sub: nat, limit: nat, consumer: string, rounds: nat, n: nat)
    requires CanDrain(s, tx, sub, limit) && n <= rounds
    ensures Concat(Batches(s, tx, sub, limit, consumer, rounds)[..n]) == Items(Take(Backlog(s, sub), n * limit))
  {
    BatchesPrefix(s, tx, sub, limit, consumer, rounds, n);
    BatchesConcat(s, tx, sub, limit, consumer, n);
  }

  lemma {:induction false} ConcatOneMore(batches: seq<seq<nat>>, last: seq<nat>)
    ensures Concat(batches + [last]) == Concat(batches) + last
  {
    if batches == [] {
      assert [last][1..] == [];
    } else {
      assert (batches + [last])[1..] == batches[1..] + [last];
      ConcatOneMore(batches[1..], last);
    }
  }

  /** Batch i is what the first i + 1 batches have beyond the first i. */
  lemma LastBatch(batches: seq<seq<nat>>, backlog: seq<Keyed<nat>>, limit: nat, i: nat)
    requires i < |batches| && limit > 0
    requires Concat(batches[..i]) == Items(Take(backlog, i * limit))
    requires Concat(batches[..i + 1]) == Items(Take(backlog, (i + 1) * limit))
    ensures batches[i] != [] <==> i < Rounds(|backlog|, limit)
  {
    assert batches[..i + 1] == batches[..i] + [batches[i]];
    ConcatOneMore(batches[..i], batches[i]);
    RoundsDecide(|backlog|, limit, i);
    assert (i + 1) * limit == i * limit + limit;
  }

  lemma BatchNonEmpty(s: System, tx: nat, sub: nat, limit: nat, consumer: string, rounds: nat, i: nat)
    requires CanDrain(s, tx, sub, limit)
    requires i < rounds
    ensures Batches(s, tx, sub, limit, consumer, rounds)[i] != [] <==> i < Rounds(|Backlog(s, sub)|, limit)
  {
    PrefixConcat(s, tx, sub, limit, consumer, rounds, i);
    PrefixConcat(s, tx, sub, limit, consumer, rounds, i + 1);
    LastBatch(Batches(s, tx, sub, limit, consumer, rounds), Backlog(s, sub), limit, i);
  }

  /** The number of calls of this size that a backlog of n rows keeps busy: n / limit, rounded up. */
  function Rounds(n: nat, limit: nat): (r: nat)
    requires limit > 0
    ensures (r - 1) * limit < n <= r * limit || n == r == 0
  {
    (n + limit - 1) / limit
  }

  lemma RoundsDecide(n: nat, limit: nat, i: nat)
    requires limit > 0
    ensures i * limit < n <==> i < Rounds(n, limit)
  {
    var r := Rounds(n, limit);
    if i < r { Scale(i, r - 1, limit); } else { Scale(r, i, limit); }
  }

  /**
   Draining: exactly ceil(n / limit) calls are non-empty, together they return the whole
   backlog in service order, and every later call finds nothing.
   */
  lemma DrainsCompletely(s: System, tx: nat, sub: nat, limit: nat, consumer: string, rounds: nat)
    requires CanDrain(s, tx, sub, limit)
    requires Rounds(|Backlog(s, sub)|, limit) <= rounds
    ensures Concat(Batches(s, tx, sub, limit, consumer, rounds)) == Items(Backlog(s, sub))
    ensures forall i | 0 <= i < rounds ::
      Batches(s, tx, sub, limit, consumer, rounds)[i] != [] <==> i < Rounds(|Backlog(s, sub)|, limit)
  {
    BatchesConcat(s, tx, sub, limit, consumer, rounds);
    Scale(Rounds(|Backlog(s, sub)|, limit), rounds, limit);
    forall i | 0 <= i < rounds
      ensures Batches(s, tx, sub, limit, consumer, rounds)[i] != [] <==> i < Rounds(|Backlog(s, sub)|, limit)
    {
      BatchNonEmpty(s, tx, sub, limit, consumer, rounds, i);
    }
  }

  lemma Scale(a: nat, b: nat, k: nat)
    requires a <= b
    ensures a * k <= b * k
  {
    assert (b - a) * k >= 0;
  }
}
