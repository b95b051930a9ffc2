/**
 What each statement does, column by column, and what it answers: nothing else changes.  Every
 law about runs rests on these; `Apply` takes the same steps.
 */
module Effects {
  import opened Common
  import opened QueueSpec
  import opened Tables
  import opened Scheduler
  import opened Steps
  import opened Conservation
  import opened Outcomes

  // ----- Topics and subscriptions -----

  /** A created topic holds what was asked for under the next id; a refusal stores nothing. */
  lemma CreateTopicExact(policy: NackPolicy, s: System, name: string, ttl: Time, maxPriority: int)
    ensures var (s', r) := CreateTopic(s, name, ttl, maxPriority);
      && Apply(policy, s, DoCreateTopic(name, ttl, maxPriority)) == s'
      && s' == s.(db := s.db.(topics := s'.db.topics, nextTopic := s'.db.nextTopic))
      && (r.Created? <==> 0 <= maxPriority <= 9 && |name| <= 128 && forall t | t in s.db.topics :: s.db.topics[t].name != name)
      && (r.Created? ==>
            && r.id == s.db.nextTopic && s'.db.nextTopic == r.id + 1
            && s'.db.topics == s.db.topics[r.id := Topic(name, ttl, maxPriority)])
      && (!r.Created? ==> s'.db.topics == s.db.topics)
  {
    var (s', r) := CreateTopic(s, name, ttl, maxPriority);
    assert s'.db == s.db.(topics := s'.db.topics, nextTopic := s'.db.nextTopic);
  }

  /** A created subscription holds what was asked for, dead-letter topic included, and is owed nothing yet. */
  lemma CreateSubscriptionExact(policy: NackPolicy, s: System, topic: nat, name: string, visibility: Time, maxAttempts: int, dlq: Option<nat>)
    ensures var (s', r) := CreateSubscription(s, topic, name, visibility, maxAttempts, dlq);
      && Apply(policy, s, DoCreateSubscription(topic, name, visibility, maxAttempts, dlq)) == s'
      && s' == s.(db := s.db.(subscriptions := s'.db.subscriptions, nextSubscription := s'.db.nextSubscription))
      && (r.Created? <==>
            && topic in s.db.topics && (dlq.Some? ==> dlq.value in s.db.topics) && 1 <= maxAttempts <= 100 && |name| <= 128
            && forall sub | sub in s.db.subscriptions && s.db.subscriptions[sub].topicId == topic :: s.db.subscriptions[sub].name != name)
      && (r.Created? ==>
            && r.id == s.db.nextSubscription && s'.db.nextSubscription == r.id + 1
            && s'.db.subscriptions == s.db.subscriptions[r.id := Subscription(topic, name, visibility, maxAttempts, dlq, s.db.nextMessage)])
      && (!r.Created? ==> s'.db.subscriptions == s.db.subscriptions)
  {
    var (s', r) := CreateSubscription(s, topic, name, visibility, maxAttempts, dlq);
    assert s'.db == s.db.(subscriptions := s'.db.subscriptions, nextSubscription := s'.db.nextSubscription);
  }

  /** A deleted subscription takes exactly its deliveries along; dead letters and locked rows forbid it. */
  lemma DeleteSubscriptionExact(policy: NackPolicy, s: System, gone: nat)
    requires Inv(s)
    ensures var (s', r) := DeleteSubscription(s, gone);
      && Apply(policy, s, DoDeleteSubscription(gone)) == s'
      && (r.Deleted? <==>
            && gone in s.db.subscriptions
            && (forall i | 0 <= i < |s.db.deadLetters| :: s.db.deadLetters[i].subscriptionId != gone)
            && (forall id | id in LockedIds(s.open) && id in s.db.deliveries :: s.db.deliveries[id].subscriptionId != gone))
      && (!r.Deleted? ==> s' == s)
      && (r.Deleted? ==>
            && s' == s.(db := s.db.(subscriptions := s'.db.subscriptions, deliveries := s'.db.deliveries))
            && s'.db.subscriptions == s.db.subscriptions - {gone}
            && s'.db.deliveries == map id | id in s.db.deliveries && s.db.deliveries[id].subscriptionId != gone :: s.db.deliveries[id])
  {
    if gone in s.db.subscriptions {
      assert DeliveriesOf(s.db, gone) * LockedIds(s.open) == {} <==>
             forall id | id in LockedIds(s.open) && id in s.db.deliveries :: s.db.deliveries[id].subscriptionId != gone by {
        DisjointSets(DeliveriesOf(s.db, gone), LockedIds(s.open));
      }
    }
  }

  lemma DisjointSets(a: set<nat>, b: set<nat>)
    ensures a * b == {} <==> forall x | x in b :: x !in a
  {
    forall x | x in a && x in b ensures x in a * b { }
    if a * b != {} {
      var x :| x in a * b;
    }
  }

  // ----- Consume: begin, commit, abort -----

  /** An accepted Consume has noted its time, its label and its pick, and has changed no table. */
  lemma BeginExact(policy: NackPolicy, s: System, tx: nat, sub: nat, limit: int, consumer: string)
    ensures var (s', r) := BeginConsume(s, tx, sub, limit, consumer);
      && Apply(policy, s, DoBegin(tx, sub, limit, consumer)) == s'
      && (r.Picked? <==> tx !in s.open && sub in s.db.subscriptions && 1 <= limit <= 100)
      && (!r.Picked? ==> s' == s)
      && (r.Picked? ==>
            && r.ids == Pick(s.db, LockedIds(s.open), sub, s.now, limit)
            && s' == s.(open := s.open[tx := ConsumeTx(sub, consumer, s.now, s.db.subscriptions[sub].visibilityTimeout, r.ids)])
            && forall id | id in r.ids :: id in LockedIds(s'.open))
  {
    var (s', r) := BeginConsume(s, tx, sub, limit, consumer);
    if r.Picked? {
      forall id | id in r.ids ensures id in LockedIds(s'.open) { assert tx in s'.open && id in s'.open[tx].picked; }
    }
  }

  /** When a transaction ends, exactly the rows it had picked are unlocked. */
  lemma LocksReleased(s: System, tx: nat)
    requires Inv(s)
    ensures tx in s.open ==> LockedIds(s.open - {tx}) == LockedIds(s.open) - set id | id in s.open[tx].picked
    ensures tx !in s.open ==> s.open - {tx} == s.open
  {
    if tx in s.open {
      var rest := s.open - {tx};
      forall id ensures id in LockedIds(rest) <==> id in LockedIds(s.open) && id !in s.open[tx].picked {
        if id in LockedIds(s.open) && id !in s.open[tx].picked {
          var ty :| ty in s.open && id in s.open[ty].picked;
          assert ty in rest && rest[ty] == s.open[ty];
        }
      }
    }
  }

  /** A lost connection takes its transaction along and gives back its locks; tables, clock and other transactions stay. */
  lemma AbortExact(policy: NackPolicy, s: System, tx: nat)
    requires Inv(s)
    ensures var s' := AbortConsume(s, tx);
      && Apply(policy, s, DoAbort(tx)) == s'
      && s'.db == s.db && s'.now == s.now && tx !in s'.open
      && (forall ty | ty != tx :: ty in s'.open <==> ty in s.open)
      && (forall ty | ty in s'.open :: s'.open[ty] == s.open[ty])
      && LockedIds(s'.open) == LockedIds(s.open) - if tx in s.open then set id | id in s.open[tx].picked else {}
  {
    LocksReleased(s, tx);
  }

  /** So a consumer that crashes right after its pick leaves every row it picked available again. */
  lemma CrashGivesBack(policy: NackPolicy, s: System, tx: nat, sub: nat, limit: int, consumer: string)
    requires Inv(s) && BeginConsume(s, tx, sub, limit, consumer).1.Picked?
    ensures var s' := Run(policy, s, [DoBegin(tx, sub, limit, consumer), DoAbort(tx)]);
      && s' == s
      && forall id | id in BeginConsume(s, tx, sub, limit, consumer).1.ids :: Available(s'.db, LockedIds(s'.open), sub, s'.now, id)
  {
    var begin, abort := DoBegin(tx, sub, limit, consumer), DoAbort(tx);
    var s1 := Apply(policy, s, begin);
    assert s1.open - {tx} == s.open;
    assert [begin, abort][1..] == [abort] && [abort][1..] == [];
    assert Run(policy, s1, [abort]) == Run(policy, Apply(policy, s1, abort), []);
    PickExact(s.db, s.now, LockedIds(s.open), sub, s.now, limit);
  }

  /** The four columns a lease sets, at the time and with the label of its transaction. */
  function LeasedRow(d: Delivery, t: ConsumeTx): Delivery {
    Delivery(d.messageId, d.subscriptionId, Leased, d.attemptCount + 1, Some(t.at + t.visibility), Some(t.consumer), Some(t.at),
             d.lastError, d.completedAt)
  }

  /** A commit leases every picked row and reports exactly those, or, when a counter is full, leases none; its locks go either way. */
  lemma CommitExact(policy: NackPolicy, s: System, tx: nat)
    requires Inv(s)
    ensures var (s', r) := CommitConsume(s, tx);
      && Apply(policy, s, DoCommit(tx)) == s'
      && (tx !in s.open ==> r == NoSuchTx && s' == s)
      && (tx in s.open ==>
            var t := s.open[tx];
            && s' == s.(open := s.open - {tx}, db := s.db.(deliveries := s'.db.deliveries))
            && LockedIds(s'.open) == LockedIds(s.open) - set id | id in t.picked
            && (forall id | id in t.picked :: id in s.db.deliveries)
            && (r.Committed? <==> forall id | id in t.picked :: s.db.deliveries[id].attemptCount < 32767)
            && (!r.Committed? ==> r == SmallintOutOfRange && s'.db == s.db)
            && (r.Committed? ==>
                  && r.ids == t.picked
                  && s'.db.deliveries == map id | id in s.db.deliveries ::
                       if id in t.picked then LeasedRow(s.db.deliveries[id], t) else s.db.deliveries[id]))
  {
    if tx in s.open {
      var t := s.open[tx];
      LocksReleased(s, tx);
      assert TxWf(s, tx);
      forall id | id in t.picked ensures id in s.db.deliveries {
        assert Eligible(s.db, t.subscription, t.at, id);
      }
      FitsMeans(s.db, t.picked);
    }
  }

  lemma FitsMeans(db: Db, ids: seq<nat>)
    requires forall id | id in ids :: id in db.deliveries
    ensures AttemptsFit(db, ids) <==> forall id | id in ids :: db.deliveries[id].attemptCount < 32767
  {
    if AttemptsFit(db, ids) {
      forall id | id in ids ensures db.deliveries[id].attemptCount < 32767 {
        var i :| 0 <= i < |ids| && ids[i] == id;
      }
    }
  }

  /** A committed Consume answers with one message for each picked row, in that order: the attempt counted, the lease from the start of the transaction, the message as published. */
  lemma CommitReturns(s: System, tx: nat)
    requires Inv(s) && CommitConsume(s, tx).1.Committed?
    ensures var (s', r) := CommitConsume(s, tx);
      var batch := ReturnedRows(s'.db, r.ids);
      && tx in s.open && r.ids == s.open[tx].picked && |batch| == |r.ids|
      && forall i | 0 <= i < |batch| ::
           && r.ids[i] in s.db.deliveries && s.db.deliveries[r.ids[i]].messageId in s.db.messages
           && var d := s.db.deliveries[r.ids[i]];
           var m := s.db.messages[d.messageId];
           batch[i] == LeasedMessage(r.ids[i], d.messageId, d.attemptCount + 1, Some(s.open[tx].at + s.open[tx].visibility),
                                     m.priority, m.partitionKey, m.payload, m.headers, m.producerId, m.enqueuedAt)
  {
    var t := s.open[tx];
    assert TxWf(s, tx);
    forall id | id in t.picked ensures id in s.db.deliveries && s.db.deliveries[id].messageId in s.db.messages {
      assert Eligible(s.db, t.subscription, t.at, id);
    }
    RowsReturned(CommitConsume(s, tx).0.db, t.picked);
  }

  // ----- Ack and ExtendLease -----

  /** A live lease in the caller's name on a row that nobody has locked. */
  ghost predicate MayAnswer(s: System, id: nat, consumer: string) {
    && id in s.db.deliveries && (forall tx | tx in s.open :: id !in s.open[tx].picked)
    && var d := s.db.deliveries[id];
    d.state == Leased && d.leasedBy == Some(consumer) && d.leasedUntil.Some? && d.leasedUntil.value > s.now
  }

  /** An Ack that is Done ends the delivery now and leaves everything else; any other answer leaves everything. */
  lemma AckExact(policy: NackPolicy, s: System, id: nat, consumer: string)
    ensures var (s', r) := Ack(s, id, consumer);
      && Apply(policy, s, DoAck(id, consumer)) == s'
      && (r == Done <==> MayAnswer(s, id, consumer))
      && (r == Done ==>
            var d := s.db.deliveries[id];
            s' == s.(db := s.db.(deliveries := s.db.deliveries[id :=
              Delivery(d.messageId, d.subscriptionId, Acked, d.attemptCount, None, d.leasedBy, d.leaseStartedAt, d.lastError, Some(s.now))])))
      && (r != Done ==> s' == s)
  { }

  /** A granted extension moves the end of the lease by what was asked and leaves everything else. */
  lemma ExtendExact(policy: NackPolicy, s: System, id: nat, consumer: string, additional: Time)
    ensures var (s', r) := ExtendLease(s, id, consumer, additional);
      && Apply(policy, s, DoExtend(id, consumer, additional)) == s'
      && (r == Done <==>
            && MayAnswer(s, id, consumer) && 0 < additional <= 5 * MINUTE
            && s.db.deliveries[id].leaseStartedAt.Some? && s.now - s.db.deliveries[id].leaseStartedAt.value <= 30 * MINUTE)
      && (r == Done ==>
            var d := s.db.deliveries[id];
            && d.leasedUntil.Some?
            && s' == s.(db := s.db.(deliveries := s.db.deliveries[id :=
                 Delivery(d.messageId, d.subscriptionId, Leased, d.attemptCount, Some(d.leasedUntil.value + additional), d.leasedBy,
                          d.leaseStartedAt, d.lastError, d.completedAt)])))
      && (r != Done ==> s' == s)
  { }

  // ----- Nack -----

  /** A Nack is Done exactly when its guard holds and nothing fails on the way; otherwise every table is as before. */
  lemma NackExact(policy: NackPolicy, s: System, id: nat, consumer: string, reason: string, requeue: bool, fault: Fault)
    requires Inv(s)
    ensures var (s', r) := Nack(policy, s, id, consumer, reason, requeue, fault);
      && Apply(policy, s, DoNack(id, consumer, reason, requeue, fault)) == s'
      && s'.now == s.now && s'.open == s.open && s'.db.topics == s.db.topics && s'.db.subscriptions == s.db.subscriptions
      && (id in s.db.deliveries ==> JoinsNack(s.db, id))
      && (r == Done <==>
            && id in s.db.deliveries && (forall tx | tx in s.open :: id !in s.open[tx].picked)
            && (policy == Guarded ==> MayAnswer(s, id, consumer))
            && !RollsBack(s.db, id, requeue, fault))
      && (r != Done ==> SameTables(s.db, s'.db))
  {
    NackGuard(policy, s, id, consumer, reason, requeue, fault);
    if id in s.db.deliveries {
      NackFacts(s, id, reason, requeue, fault);
      NackKeepsRegistry(s.db, id, reason, requeue, s.now, fault);
    }
  }

  lemma NackGuard(policy: NackPolicy, s: System, id: nat, consumer: string, reason: string, requeue: bool, fault: Fault)
    ensures var (s', r) := Nack(policy, s, id, consumer, reason, requeue, fault);
      if JoinsNack(s.db, id) && (forall tx | tx in s.open :: id !in s.open[tx].picked) && (policy == Guarded ==> MayAnswer(s, id, consumer))
      then (s', r) == (s.(db := NackTransaction(s.db, id, reason, requeue, s.now, fault).0),
                       NackTransaction(s.db, id, reason, requeue, s.now, fault).1)
      else s' == s && r != Done && r != RolledBack
  { }

  /** A Nack that is Done buries the delivery whole or puts it back whole. */
  lemma NackDone(policy: NackPolicy, s: System, id: nat, consumer: string, reason: string, requeue: bool, fault: Fault)
    requires Inv(s) && Nack(policy, s, id, consumer, reason, requeue, fault).1 == Done
    ensures JoinsNack(s.db, id)
    ensures var s' := Nack(policy, s, id, consumer, reason, requeue, fault).0;
      if Buries(s.db, id, requeue) then Buried(s.db, s'.db, id, reason, s.now) else Requeued(s.db, s'.db, id, reason)
  {
    NackFacts(s, id, reason, requeue, fault);
  }

  lemma NackFacts(s: System, id: nat, reason: string, requeue: bool, fault: Fault)
    requires Inv(s) && id in s.db.deliveries
    ensures JoinsNack(s.db, id)
    ensures var (db', r) := NackTransaction(s.db, id, reason, requeue, s.now, fault);
      && (r == RolledBack <==> RollsBack(s.db, id, requeue, fault))
      && (r == RolledBack ==> SameTables(s.db, db'))
      && (r != RolledBack ==>
            if Buries(s.db, id, requeue) then Buried(s.db, db', id, reason, s.now) else Requeued(s.db, db', id, reason))
  {
    assert RowWf(s.db, id) && SubscriptionWf(s.db, s.db.deliveries[id].subscriptionId);
    KeysAreFresh(s.db, s.now);
    NackEffect(s.db, id, reason, requeue, s.now, fault);
    NackAnswers(s.db, id, reason, requeue, s.now, fault);
  }

  /** What a burial that fails at its commit does not give back: the id of the copy. */
  lemma RollbackSpendsIds(db: Db, id: nat, reason: string, requeue: bool, now: Time)
    requires JoinsNack(db, id) && Buries(db, id, requeue)
    ensures var dlq := db.subscriptions[db.deliveries[id].subscriptionId].dlqTopicId;
      var db' := NackTransaction(db, id, reason, requeue, now, FailCommit).0;
      db'.nextMessage == db.nextMessage + if dlq.Some? && dlq.value in db.topics then 1 else 0
  { }

  lemma NackKeepsRegistry(db: Db, id: nat, reason: string, requeue: bool, now: Time, fault: Fault)
    requires JoinsNack(db, id)
    ensures var (db', r) := NackTransaction(db, id, reason, requeue, now, fault);
      db'.topics == db.topics && db'.subscriptions == db.subscriptions && (r == Done || r == RolledBack)
  { }

  // ----- Retention -----

  /** Unfinished, and its message's time is over. */
  ghost predicate Overdue(db: Db, now: Time, id: nat) {
    && id in db.deliveries && (db.deliveries[id].state == Pending || db.deliveries[id].state == Leased)
    && db.deliveries[id].messageId in db.messages && db.messages[db.deliveries[id].messageId].expiresAt < now
  }

  ghost predicate OverdueWithDlq(db: Db, now: Time, id: nat) {
    && Overdue(db, now, id) && db.deliveries[id].subscriptionId in db.subscriptions
    && db.subscriptions[db.deliveries[id].subscriptionId].dlqTopicId.Some?
  }

  /** The record of one such delivery, with the contents of its message. */
  ghost predicate OverdueRecord(db: Db, now: Time, dl: DeadLetter) {
    && OverdueWithDlq(db, now, dl.deliveryId)
    && var d := db.deliveries[dl.deliveryId];
    var m := db.messages[d.messageId];
    dl == DeadLetter(dl.deliveryId, d.subscriptionId, d.messageId, m.payload, m.headers, Some("expired"), d.attemptCount, now)
  }

  /** `after` is `before` and one record for each overdue delivery of a subscription with a dead-letter topic. */
  ghost predicate RecordsAdded(db: Db, now: Time, before: seq<DeadLetter>, after: seq<DeadLetter>) {
    && before <= after
    && (forall k | |before| <= k < |after| :: OverdueRecord(db, now, after[k]))
    && (forall j, k | |before| <= j < k < |after| :: after[j].deliveryId < after[k].deliveryId)
    && (forall id | OverdueWithDlq(db, now, id) :: exists k | |before| <= k < |after| :: after[k].deliveryId == id)
  }

  lemma OverdueIsExpired(s: System, id: nat)
    requires Inv(s)
    ensures Expired(s.db, id, s.now) <==> Overdue(s.db, s.now, id)
    ensures OwesRecord(s.db, s.now, id) <==> OverdueWithDlq(s.db, s.now, id)
    ensures id in s.db.deliveries ==> id < s.db.nextDelivery
  {
    if id in s.db.deliveries { assert RowWf(s.db, id); }
  }

  /** Retention waits while somebody has locked an overdue row; otherwise it buries and records every overdue row and touches nothing else. */
  lemma RetentionExact(policy: NackPolicy, s: System)
    requires Inv(s)
    ensures var s' := Retention(s);
      && Apply(policy, s, DoRetention) == s'
      && if exists id | id in LockedIds(s.open) :: Overdue(s.db, s.now, id) then s' == s
         else
           && s' == s.(db := s.db.(deliveries := s'.db.deliveries, deadLetters := s'.db.deadLetters))
           && s'.db.deliveries == (map id | id in s.db.deliveries ::
                if Overdue(s.db, s.now, id) then s.db.deliveries[id].(state := Dead, lastError := Some("expired")) else s.db.deliveries[id])
           && RecordsAdded(s.db, s.now, s.db.deadLetters, s'.db.deadLetters)
  {
    forall id: nat ensures Expired(s.db, id, s.now) <==> Overdue(s.db, s.now, id) { OverdueIsExpired(s, id); }
    if !SweepBlocked(s) {
      SweptRows(s);
      SweptRecords(s);
    }
  }

  lemma SweptRows(s: System)
    requires Inv(s)
    ensures var r := Sweep(s.db, s.now, s.db.nextDelivery);
      && r == s.db.(deliveries := r.deliveries, deadLetters := r.deadLetters)
      && r.deliveries == map id | id in s.db.deliveries ::
           if Overdue(s.db, s.now, id) then s.db.deliveries[id].(state := Dead, lastError := Some("expired")) else s.db.deliveries[id]
  {
    SweepRows(s.db, s.now, s.db.nextDelivery);
    forall id: nat | id in s.db.deliveries ensures id < s.db.nextDelivery && (Expired(s.db, id, s.now) <==> Overdue(s.db, s.now, id)) {
      OverdueIsExpired(s, id);
    }
  }

  lemma SweptRecords(s: System)
    requires Inv(s)
    ensures RecordsAdded(s.db, s.now, s.db.deadLetters, Sweep(s.db, s.now, s.db.nextDelivery).deadLetters)
  {
    SweepRecords(s.db, s.now, s.db.nextDelivery);
    var old', new' := s.db.deadLetters, Sweep(s.db, s.now, s.db.nextDelivery).deadLetters;
    forall k | |old'| <= k < |new'| ensures OverdueRecord(s.db, s.now, new'[k]) {
      OverdueIsExpired(s, new'[k].deliveryId);
      assert SweepRecord(s.db, s.now, new'[k]);
    }
    forall id: nat | OverdueWithDlq(s.db, s.now, id) ensures exists k | |old'| <= k < |new'| :: new'[k].deliveryId == id {
      OverdueIsExpired(s, id);
    }
  }

  // ----- Time -----

  lemma TickExact(policy: NackPolicy, s: System, elapsed: nat)
    ensures Apply(policy, s, DoTick(elapsed)) == s.(now := s.now + elapsed)
  { }
}
