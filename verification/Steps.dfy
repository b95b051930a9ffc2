/** One step at a time: what may happen to a row, and that every step keeps tables and locks sound. */
module Steps {
  import opened Common
  import opened Ordering
  import opened QueueSpec
  import opened Tables
  import opened Scheduler

  // ----- Locks -----

  ghost predicate TxWf(s: System, tx: nat)
    requires tx in s.open
  {
    var t := s.open[tx];
    && t.at <= s.now
    && t.subscription < s.db.nextSubscription
    && (t.subscription in s.db.subscriptions ==> t.visibility == s.db.subscriptions[t.subscription].visibilityTimeout)
    && NoDuplicates(t.picked)
    && forall id | id in t.picked :: Eligible(s.db, t.subscription, t.at, id)
  }

  /** No row is locked twice, and a locked row is still as eligible as when it was picked. */
  ghost predicate LocksWf(s: System) {
    && (forall tx | tx in s.open :: TxWf(s, tx))
    && (forall tx, ty, id | tx in s.open && ty in s.open && tx != ty && id in s.open[tx].picked :: id !in s.open[ty].picked)
  }

  ghost predicate Inv(s: System) {
    Wf(s.db, s.now) && LocksWf(s)
  }

  // ----- What a step can do to a row -----

  ghost predicate LeasedBy(s: System, step: Step, id: nat) {
    step.DoCommit? && step.tx in s.open && id in s.open[step.tx].picked && AttemptsFit(s.db, s.open[step.tx].picked)
  }

  /** The five statements that change a surviving delivery, Nack in either direction; it never changes while locked except by its own lease. */
  ghost predicate Change(policy: NackPolicy, s: System, step: Step, id: nat, d': Delivery)
    requires id in s.db.deliveries
  {
    var d := s.db.deliveries[id];
    d' == d || match step
      case DoCommit(tx) =>
        LeasedBy(s, step, id) && d' == LeaseRow(d, s.open[tx].at, s.open[tx].visibility, s.open[tx].consumer)
      case DoAck(n, consumer) =>
        n == id && id !in LockedIds(s.open) && LiveLease(d, consumer, s.now) && d' == AckRow(d, s.now)
      case DoNack(n, consumer, reason, requeue, _) =>
        && n == id && id !in LockedIds(s.open) && JoinsNack(s.db, id)
        && (policy == Guarded ==> LiveLease(d, consumer, s.now))
        && d' == NackRow(d, s.db.subscriptions[d.subscriptionId].maxAttempts, reason, requeue, s.now)
      case DoExtend(n, consumer, additional) =>
        && n == id && id !in LockedIds(s.open) && 0 < additional <= MAX_EXTENSION
        && LiveLease(d, consumer, s.now) && YoungLease(d, s.now) && d' == ExtendRow(d, additional)
      case DoRetention =>
        id !in LockedIds(s.open) && Expired(s.db, id, s.now) && d' == ExpireRow(d)
      case _ => false
  }

  /** Publishing touches no existing row. */
  lemma InsertMessageFrame(db: Db, m: Message)
    requires forall id | id in db.deliveries :: id < db.nextDelivery
    ensures var r := InsertMessage(db, m);
      && (forall id | id in db.deliveries :: id in r.deliveries && r.deliveries[id] == db.deliveries[id])
      && (forall id | id in r.deliveries && id !in db.deliveries ::
            db.nextDelivery <= id && r.deliveries[id] == NewDelivery(db.nextMessage, r.deliveries[id].subscriptionId))
      && r.messages == db.messages[db.nextMessage := m]
      && r.subscriptions == db.subscriptions && r.topics == db.topics && r.deadLetters == db.deadLetters
      && r.nextSubscription == db.nextSubscription && r.nextTopic == db.nextTopic
      && r.nextMessage == db.nextMessage + 1
      && db.nextDelivery <= r.nextDelivery
  {
    FanOutFacts(db.(messages := db.messages[db.nextMessage := m], nextMessage := db.nextMessage + 1),
                db.nextMessage, m.topicId);
  }

  lemma ExpireOneRow(db: Db, id: nat, now: Time)
    requires JoinsNack(db, id)
    ensures var r := ExpireOne(db, id, now);
      && r == db.(deliveries := r.deliveries, deadLetters := r.deadLetters)
      && r.deliveries == db.deliveries[id := db.deliveries[id].(state := Dead, lastError := Some("expired"))]
  { }

  /** A sweep buries exactly the expired rows and touches no other. */
  lemma {:induction false} SweepRows(db: Db, now: Time, upto: nat)
    ensures var r := Sweep(db, now, upto);
      && r == db.(deliveries := r.deliveries, deadLetters := r.deadLetters)
      && r.deliveries.Keys == db.deliveries.Keys
      && (forall id | id in db.deliveries ::
            var d := db.deliveries[id];
            r.deliveries[id] == if id < upto && Expired(db, id, now) then d.(state := Dead, lastError := Some("expired")) else d)
  {
    if upto > 0 {
      SweepRows(db, now, upto - 1);
      var rest := Sweep(db, now, upto - 1);
      assert Expired(rest, upto - 1, now) <==> Expired(db, upto - 1, now);
      if Expired(rest, upto - 1, now) { ExpireOneRow(rest, upto - 1, now); }
    }
  }

  /** An expired row of a subscription with a dead-letter topic leaves a record. */
  ghost predicate OwesRecord(db: Db, now: Time, id: nat) {
    Expired(db, id, now) && db.subscriptions[db.deliveries[id].subscriptionId].dlqTopicId.Some?
  }

  ghost predicate SweepRecord(db: Db, now: Time, dl: DeadLetter) {
    && OwesRecord(db, now, dl.deliveryId)
    && var d := db.deliveries[dl.deliveryId];
    var m := db.messages[d.messageId];
    dl == DeadLetter(dl.deliveryId, d.subscriptionId, d.messageId, m.payload, m.headers, Some("expired"), d.attemptCount, now)
  }

  lemma SweepOneMore(db: Db, now: Time, upto: nat)
    ensures var rest, new' := Sweep(db, now, upto).deadLetters, Sweep(db, now, upto + 1).deadLetters;
      if OwesRecord(db, now, upto)
      then |new'| == |rest| + 1 && rest <= new' && new'[|rest|].deliveryId == upto && SweepRecord(db, now, new'[|rest|])
      else new' == rest
  {
    SweepRows(db, now, upto);
    assert Expired(Sweep(db, now, upto), upto, now) <==> Expired(db, upto, now);
  }

  /** A sweep appends those records, each once and in order of delivery, and no others. */
  lemma {:induction false} SweepRecords(db: Db, now: Time, upto: nat)
    ensures var old', new' := db.deadLetters, Sweep(db, now, upto).deadLetters;
      && old' <= new'
      && (forall k | |old'| <= k < |new'| :: new'[k].deliveryId < upto && SweepRecord(db, now, new'[k]))
      && (forall j, k | |old'| <= j < k < |new'| :: new'[j].deliveryId < new'[k].deliveryId)
      && (forall id: nat | id < upto && OwesRecord(db, now, id) :: exists k | |old'| <= k < |new'| :: new'[k].deliveryId == id)
  {
    if upto > 0 {
      SweepRecords(db, now, upto - 1);
      SweepOneMore(db, now, upto - 1);
      var old', rest, new' := db.deadLetters, Sweep(db, now, upto - 1).deadLetters, Sweep(db, now, upto).deadLetters;
      forall id: nat | id < upto && OwesRecord(db, now, id) ensures exists k | |old'| <= k < |new'| :: new'[k].deliveryId == id {
        if id < upto - 1 {
          var k :| |old'| <= k < |rest| && rest[k].deliveryId == id;
          assert new'[k].deliveryId == id;
        } else {
          assert new'[|rest|].deliveryId == id;
        }
      }
    }
  }

  lemma NackRows(db: Db, id: nat, reason: string, requeue: bool, now: Time, fault: Fault)
    requires JoinsNack(db, id)
    requires forall i | i in db.deliveries :: i < db.nextDelivery
    ensures var r := NackTransaction(db, id, reason, requeue, now, fault).0;
      forall i | i in db.deliveries :: i in r.deliveries
        && (r.deliveries[i] == db.deliveries[i]
            || (i == id && r.deliveries[i] == NackRow(db.deliveries[i], db.subscriptions[db.deliveries[i].subscriptionId].maxAttempts,
                                                      reason, requeue, now)))
  {
    var d := db.deliveries[id];
    var sub := db.subscriptions[d.subscriptionId];
    var moved := InsertDeadLetter(SetRow(db, id, NackRow(d, sub.maxAttempts, reason, requeue, now)), id, now);
    if sub.dlqTopicId.Some? && sub.dlqTopicId.value in moved.topics {
      InsertMessageFrame(moved, NewMessage(moved.topics[sub.dlqTopicId.value],
                                           DlqRequest(moved.messages[d.messageId], sub.dlqTopicId.value), now));
    }
  }

  lemma PublishChange(s: System, r: PublishRequest, age: nat, id: nat)
    requires Wf(s.db, s.now) && id in s.db.deliveries
    ensures var s' := Publish(s, r, age).0; id in s'.db.deliveries && s'.db.deliveries[id] == s.db.deliveries[id]
  {
    forall i | i in s.db.deliveries ensures i < s.db.nextDelivery { assert RowWf(s.db, i); }
    if r.topic in s.db.topics {
      InsertMessageFrame(s.db, NewMessage(s.db.topics[r.topic], r, s.now - age));
    }
  }

  /** A Nack step is the transaction on a row it may touch, or nothing. */
  lemma NackIsTransaction(policy: NackPolicy, s: System, step: Step)
    requires step.DoNack?
    ensures var s' := Apply(policy, s, step);
      s'.db == s.db
      || (JoinsNack(s.db, step.id) && step.id !in LockedIds(s.open)
          && (policy == Guarded ==> LiveLease(s.db.deliveries[step.id], step.consumer, s.now))
          && s'.db == NackTransaction(s.db, step.id, step.reason, step.requeue, s.now, step.fault).0)
  { }

  lemma NackChange(policy: NackPolicy, s: System, step: Step, id: nat)
    requires Wf(s.db, s.now) && id in s.db.deliveries && step.DoNack?
    ensures var s' := Apply(policy, s, step); id in s'.db.deliveries && Change(policy, s, step, id, s'.db.deliveries[id])
  {
    NackIsTransaction(policy, s, step);
    if Apply(policy, s, step).db != s.db {
      forall i | i in s.db.deliveries ensures i < s.db.nextDelivery { assert RowWf(s.db, i); }
      NackRows(s.db, step.id, step.reason, step.requeue, s.now, step.fault);
    }
  }

  lemma RetentionChange(policy: NackPolicy, s: System, step: Step, id: nat)
    requires id in s.db.deliveries && step.DoRetention?
    ensures var s' := Apply(policy, s, step); id in s'.db.deliveries && Change(policy, s, step, id, s'.db.deliveries[id])
  {
    SweepRows(s.db, s.now, s.db.nextDelivery);
    if !SweepBlocked(s) && id < s.db.nextDelivery && Expired(s.db, id, s.now) {
      assert id !in LockedIds(s.open);
    }
  }

  lemma LeaseStepChange(policy: NackPolicy, s: System, step: Step, id: nat)
    requires id in s.db.deliveries && (step.DoCommit? || step.DoAck? || step.DoExtend?)
    ensures var s' := Apply(policy, s, step); id in s'.db.deliveries && Change(policy, s, step, id, s'.db.deliveries[id])
  {
    match step
    case DoCommit(tx) =>
    case DoAck(n, consumer) =>
    case DoExtend(n, consumer, additional) =>
    case _ =>
  }

  lemma AdminChange(policy: NackPolicy, s: System, step: Step, id: nat)
    requires step.DoCreateTopic? || step.DoCreateSubscription? || step.DoDeleteSubscription? || step.DoBegin? || step.DoAbort? || step.DoTick?
    requires id in s.db.deliveries && id in Apply(policy, s, step).db.deliveries
    ensures Apply(policy, s, step).db.deliveries[id] == s.db.deliveries[id]
  {
    match step
    case DoBegin(tx, sub, limit, consumer) => assert BeginConsume(s, tx, sub, limit, consumer).0.db == s.db;
    case _ =>
  }

  /** A delivery that survives a step has been changed by one of the five statements, under its guard, or not at all. */
  lemma RowChange(policy: NackPolicy, s: System, step: Step, id: nat)
    requires Wf(s.db, s.now)
    requires id in s.db.deliveries && id in Apply(policy, s, step).db.deliveries
    ensures Change(policy, s, step, id, Apply(policy, s, step).db.deliveries[id])
  {
    if step.DoPublish? {
      PublishChange(s, step.request, step.age, id);
    } else if step.DoNack? {
      NackChange(policy, s, step, id);
    } else if step.DoRetention? {
      RetentionChange(policy, s, step, id);
    } else if step.DoCommit? || step.DoAck? || step.DoExtend? {
      LeaseStepChange(policy, s, step, id);
    } else {
      AdminChange(policy, s, step, id);
    }
  }

  // ----- Tables stay well formed -----

  lemma TopicsWf(db: Db, db': Db, now: Time)
    requires Wf(db, now)
    requires db' == db.(topics := db'.topics, nextTopic := db'.nextTopic)
    requires forall t | t in db.topics :: t in db'.topics && db'.topics[t] == db.topics[t]
    requires forall t | t in db'.topics :: t < db'.nextTopic && 0 <= db'.topics[t].maxPriority <= 9
    ensures Wf(db', now)
  {
    forall id | id in db.deliveries ensures RowWf(db', id) { assert RowWf(db, id); }
    forall sub | sub in db.subscriptions ensures SubscriptionWf(db', sub) { assert SubscriptionWf(db, sub); }
    forall m | m in db.messages ensures MessageWf(db', now, m) { assert MessageWf(db, now, m); }
    DeliveriesUntouched(db, db');
  }

  lemma CreateTopicWf(s: System, name: string, ttl: Time, maxPriority: int)
    requires Wf(s.db, s.now)
    ensures Wf(CreateTopic(s, name, ttl, maxPriority).0.db, s.now)
  {
    TopicsWf(s.db, CreateTopic(s, name, ttl, maxPriority).0.db, s.now);
  }

  /** A table change that keeps deliveries and messages and creates no old debt keeps AllDelivered. */
  lemma DeliveriesUntouched(db: Db, db': Db)
    requires AllDelivered(db)
    requires db'.deliveries == db.deliveries
    requires forall m, sub | Owed(db', m, sub) :: Owed(db, m, sub)
    ensures AllDelivered(db')
  {
    forall m, sub | Owed(db', m, sub) ensures HasDelivery(db', m, sub) {
      assert HasDelivery(db, m, sub);
      var id :| id in db.deliveries && db.deliveries[id].messageId == m && db.deliveries[id].subscriptionId == sub;
      assert id in db'.deliveries;
    }
  }

  /** A new subscription is owed nothing that was published before it. */
  lemma AddSubscriptionWf(db: Db, db': Db, now: Time)
    requires Wf(db, now)
    requires db' == db.(subscriptions := db'.subscriptions, nextSubscription := db.nextSubscription + 1)
    requires db'.subscriptions.Keys <= db.subscriptions.Keys + {db.nextSubscription}
    requires forall sub | sub in db.subscriptions :: sub in db'.subscriptions && db'.subscriptions[sub] == db.subscriptions[sub]
    requires db.nextSubscription in db'.subscriptions ==>
      SubscriptionWf(db', db.nextSubscription) && db'.subscriptions[db.nextSubscription].firstMessage == db.nextMessage
    ensures Wf(db', now)
  {
    forall sub | sub in db.subscriptions ensures SubscriptionWf(db', sub) && sub < db.nextSubscription { assert SubscriptionWf(db, sub); }
    forall id | id in db.deliveries ensures RowWf(db', id) { assert RowWf(db, id); }
    forall m | m in db.messages ensures MessageWf(db', now, m) && m < db.nextMessage { assert MessageWf(db, now, m); }
    forall i | 0 <= i < |db.deadLetters| ensures db.deadLetters[i].subscriptionId in db'.subscriptions {
      assert db.deadLetters[i].subscriptionId in db.subscriptions;
    }
    forall m, sub | Owed(db', m, sub) ensures Owed(db, m, sub) { }
    DeliveriesUntouched(db, db');
  }

  lemma CreateSubscriptionWf(s: System, topic: nat, name: string, visibility: Time, maxAttempts: int, dlq: Option<nat>)
    requires Wf(s.db, s.now)
    ensures Wf(CreateSubscription(s, topic, name, visibility, maxAttempts, dlq).0.db, s.now)
  {
    var db := CreateSubscription(s, topic, name, visibility, maxAttempts, dlq).0.db;
    if db.nextSubscription > s.db.nextSubscription {
      forall sub | sub in s.db.subscriptions ensures sub < s.db.nextSubscription { assert SubscriptionWf(s.db, sub); }
      AddSubscriptionWf(s.db, db, s.now);
    }
  }

  lemma DeleteSubscriptionWf(s: System, gone: nat)
    requires Wf(s.db, s.now)
    ensures Wf(DeleteSubscription(s, gone).0.db, s.now)
  {
    if DeleteSubscription(s, gone).1.Deleted? {
      WithoutSubscriptionRows(s.db, s.now, gone);
      WithoutSubscriptionDelivered(s.db, gone);
    }
  }

  function WithoutSubscription(db: Db, gone: nat): Db {
    db.(subscriptions := db.subscriptions - {gone}, deliveries := db.deliveries - DeliveriesOf(db, gone))
  }

  lemma WithoutSubscriptionRows(db: Db, now: Time, gone: nat)
    requires Rows(db, now) && !HasDeadLetters(db, gone)
    ensures Rows(WithoutSubscription(db, gone), now)
  {
    var r := WithoutSubscription(db, gone);
    forall sub | sub in r.subscriptions ensures SubscriptionWf(r, sub) { assert SubscriptionWf(db, sub); }
    forall id | id in r.deliveries ensures RowWf(r, id) { assert RowWf(db, id); }
    forall m | m in r.messages ensures MessageWf(r, now, m) { assert MessageWf(db, now, m); }
  }

  lemma WithoutSubscriptionDelivered(db: Db, gone: nat)
    requires AllDelivered(db)
    ensures AllDelivered(WithoutSubscription(db, gone))
  {
    var r := WithoutSubscription(db, gone);
    forall m, sub | Owed(r, m, sub) ensures HasDelivery(r, m, sub) {
      assert Owed(db, m, sub);
      var id :| id in db.deliveries && db.deliveries[id].messageId == m && db.deliveries[id].subscriptionId == sub;
      assert id in r.deliveries;
    }
  }

  lemma TickWf(db: Db, now: Time, later: Time)
    requires Wf(db, now) && now <= later
    ensures Wf(db, later)
  {
    forall m | m in db.messages ensures MessageWf(db, later, m) { assert MessageWf(db, now, m); }
  }

  lemma PublishWf(s: System, r: PublishRequest, age: nat)
    requires Wf(s.db, s.now)
    ensures Wf(Publish(s, r, age).0.db, s.now)
  {
    if Publish(s, r, age).1.Published? {
      InsertMessageWf(s.db, s.now, NewMessage(s.db.topics[r.topic], r, s.now - age));
    }
  }

  lemma RollbackWf(db: Db, during: Db, now: Time)
    requires Wf(db, now) && db.nextMessage <= during.nextMessage && db.nextDelivery <= during.nextDelivery
    ensures Wf(Rollback(db, during), now)
  {
    var r := Rollback(db, during);
    forall sub | sub in r.subscriptions ensures SubscriptionWf(r, sub) { assert SubscriptionWf(db, sub); }
    forall id | id in r.deliveries ensures RowWf(r, id) { assert RowWf(db, id); }
    forall m | m in r.messages ensures MessageWf(r, now, m) { assert MessageWf(db, now, m); }
    forall m, sub | Owed(r, m, sub) ensures Owed(db, m, sub) { }
    DeliveriesUntouched(db, r);
  }

  lemma RepublishWf(db: Db, m: Message, dlq: Option<nat>, now: Time)
    requires Wf(db, now) && m.headers.Keys * FORBIDDEN_HEADERS == {}
    ensures var r := Republish(db, m, dlq, now);
      Wf(r, now) && db.nextMessage <= r.nextMessage && db.nextDelivery <= r.nextDelivery
  {
    if dlq.Some? && dlq.value in db.topics {
      var copy := NewMessage(db.topics[dlq.value], DlqRequest(m, dlq.value), now);
      InsertMessageWf(db, now, copy);
      forall i | i in db.deliveries ensures i < db.nextDelivery { assert RowWf(db, i); }
      FanOutFacts(db.(messages := db.messages[db.nextMessage := copy], nextMessage := db.nextMessage + 1),
                  db.nextMessage, dlq.value);
    }
  }

  lemma BurialWf(db: Db, now: Time, id: nat, d': Delivery, dlq: Option<nat>)
    requires Wf(db, now) && JoinsNack(db, id) && Wf(SetRow(db, id, d'), now)
    requires d'.messageId == db.deliveries[id].messageId && d'.subscriptionId == db.deliveries[id].subscriptionId
    ensures var published := Republish(InsertDeadLetter(SetRow(db, id, d'), id, now), db.messages[d'.messageId], dlq, now);
      Wf(published, now) && Wf(Rollback(db, published), now)
  {
    InsertDeadLetterWf(SetRow(db, id, d'), now, id);
    var moved := InsertDeadLetter(SetRow(db, id, d'), id, now);
    assert MessageWf(db, now, d'.messageId);
    RepublishWf(moved, db.messages[d'.messageId], dlq, now);
    RollbackWf(db, Republish(moved, db.messages[d'.messageId], dlq, now), now);
  }

  lemma NackWf(db: Db, id: nat, reason: string, requeue: bool, now: Time, fault: Fault)
    requires Wf(db, now) && JoinsNack(db, id)
    ensures Wf(NackTransaction(db, id, reason, requeue, now, fault).0, now)
  {
    var d := db.deliveries[id];
    var sub := db.subscriptions[d.subscriptionId];
    var d' := NackRow(d, sub.maxAttempts, reason, requeue, now);
    SetRowWf(db, now, id, d') by { assert RowWf(db, id); }
    BurialWf(db, now, id, d', sub.dlqTopicId);
  }

  lemma {:induction false} SweepWf(db: Db, now: Time, upto: nat)
    requires Wf(db, now)
    ensures Wf(Sweep(db, now, upto), now)
  {
    if upto > 0 {
      SweepWf(db, now, upto - 1);
      var rest := Sweep(db, now, upto - 1);
      if Expired(rest, upto - 1, now) {
        assert RowWf(rest, upto - 1);
        SetRowWf(rest, now, upto - 1, ExpireRow(rest.deliveries[upto - 1]));
        InsertDeadLetterWf(SetRow(rest, upto - 1, ExpireRow(rest.deliveries[upto - 1])), now, upto - 1);
      }
    }
  }

  lemma AckWf(s: System, id: nat, consumer: string)
    requires Wf(s.db, s.now)
    ensures Wf(Ack(s, id, consumer).0.db, s.now)
  {
    if Ack(s, id, consumer).1 == Done {
      SetRowWf(s.db, s.now, id, AckRow(s.db.deliveries[id], s.now));
    }
  }

  lemma ExtendWf(s: System, id: nat, consumer: string, additional: Time)
    requires Wf(s.db, s.now)
    ensures Wf(ExtendLease(s, id, consumer, additional).0.db, s.now)
  {
    if ExtendLease(s, id, consumer, additional).1 == Done {
      SetRowWf(s.db, s.now, id, ExtendRow(s.db.deliveries[id], additional));
    }
  }

  lemma NackStepWf(policy: NackPolicy, s: System, id: nat, consumer: string, reason: string, requeue: bool, fault: Fault)
    requires Wf(s.db, s.now)
    ensures Wf(Nack(policy, s, id, consumer, reason, requeue, fault).0.db, s.now)
  {
    if JoinsNack(s.db, id) {
      NackWf(s.db, id, reason, requeue, s.now, fault);
    }
  }

  lemma CommitWf(s: System, tx: nat)
    requires Wf(s.db, s.now)
    ensures Wf(CommitConsume(s, tx).0.db, s.now)
  {
    if CommitConsume(s, tx).1.Committed? {
      var t := s.open[tx];
      LeaseRowsWf(s.db, s.now, t.picked, t.at, t.visibility, t.consumer);
    }
  }

  lemma BeginKeepsTables(s: System, tx: nat, sub: nat, limit: int, consumer: string)
    ensures BeginConsume(s, tx, sub, limit, consumer).0.db == s.db
    ensures BeginConsume(s, tx, sub, limit, consumer).0.now == s.now
  { }

  lemma AdminKept(policy: NackPolicy, s: System, step: Step)
    requires Wf(s.db, s.now)
    requires step.DoCreateTopic? || step.DoCreateSubscription? || step.DoDeleteSubscription? || step.DoPublish?
    ensures Wf(Apply(policy, s, step).db, s.now)
  {
    if step.DoCreateTopic? { CreateTopicWf(s, step.name, step.ttl, step.maxPriority); }
    else if step.DoCreateSubscription? { CreateSubscriptionWf(s, step.topic, step.name, step.visibility, step.maxAttempts, step.dlq); }
    else if step.DoDeleteSubscription? { DeleteSubscriptionWf(s, step.subscription); }
    else { PublishWf(s, step.request, step.age); }
  }

  lemma LeasesKept(policy: NackPolicy, s: System, step: Step)
    requires Wf(s.db, s.now)
    requires step.DoCommit? || step.DoAck? || step.DoExtend?
    ensures Wf(Apply(policy, s, step).db, s.now)
  {
    if step.DoCommit? { CommitWf(s, step.tx); }
    else if step.DoAck? { AckWf(s, step.id, step.consumer); }
    else { ExtendWf(s, step.id, step.consumer, step.additional); }
  }

  lemma BurialsKept(policy: NackPolicy, s: System, step: Step)
    requires Wf(s.db, s.now)
    requires step.DoNack? || step.DoRetention?
    ensures Wf(Apply(policy, s, step).db, s.now)
  {
    if step.DoNack? { NackStepWf(policy, s, step.id, step.consumer, step.reason, step.requeue, step.fault); }
    else { SweepWf(s.db, s.now, s.db.nextDelivery); }
  }

  lemma OnlyTicksMoveTime(policy: NackPolicy, s: System, step: Step)
    ensures Apply(policy, s, step).now == if step.DoTick? then s.now + step.elapsed else s.now
  {
    if step.DoBegin? { BeginKeepsTables(s, step.tx, step.subscription, step.limit, step.consumer); }
  }

  lemma TablesUntouched(policy: NackPolicy, s: System, step: Step)
    requires step.DoBegin? || step.DoAbort? || step.DoTick?
    ensures Apply(policy, s, step).db == s.db
  {
    if step.DoBegin? { BeginKeepsTables(s, step.tx, step.subscription, step.limit, step.consumer); }
  }

  /** Every step keeps the tables well formed. */
  lemma TablesKept(policy: NackPolicy, s: System, step: Step)
    requires Wf(s.db, s.now)
    ensures Wf(Apply(policy, s, step).db, Apply(policy, s, step).now)
  {
    OnlyTicksMoveTime(policy, s, step);
    if step.DoBegin? || step.DoAbort? || step.DoTick? {
      TablesUntouched(policy, s, step);
      TickWf(s.db, s.now, Apply(policy, s, step).now);
    } else if step.DoCommit? || step.DoAck? || step.DoExtend? {
      LeasesKept(policy, s, step);
    } else if step.DoNack? || step.DoRetention? {
      BurialsKept(policy, s, step);
    } else {
      AdminKept(policy, s, step);
    }
  }

  // ----- Locks stay sound -----

  /** A locked row is pending, or its lease ran out before the lock was taken. */
  lemma LockedIsIdle(s: System, id: nat)
    requires LocksWf(s) && id in LockedIds(s.open)
    ensures id in s.db.deliveries
    ensures var d := s.db.deliveries[id];
      d.state == Pending || (d.state == Leased && d.leasedUntil.Some? && d.leasedUntil.value < s.now)
  {
    var tx :| tx in s.open && id in s.open[tx].picked;
    assert TxWf(s, tx);
    assert Eligible(s.db, s.open[tx].subscription, s.open[tx].at, id);
  }

  /** A locked row outlives every step that does not commit its own transaction, unchanged. */
  lemma LockedRowStays(policy: NackPolicy, s: System, step: Step, tx: nat, id: nat)
    requires Inv(s)
    requires tx in s.open && id in s.open[tx].picked && !(step.DoCommit? && step.tx == tx)
    ensures id in s.db.deliveries
    ensures var s' := Apply(policy, s, step);
      id in s'.db.deliveries && s'.db.deliveries[id] == s.db.deliveries[id]
  {
    assert TxWf(s, tx);
    assert id in LockedIds(s.open);
    RowSurvives(policy, s, step, id);
    RowChange(policy, s, step, id);
  }

  /** Only deleting its subscription removes a delivery, and a row lock prevents that. */
  lemma RowSurvives(policy: NackPolicy, s: System, step: Step, id: nat)
    requires Wf(s.db, s.now) && id in s.db.deliveries
    requires id in LockedIds(s.open) || s.db.deliveries[id].subscriptionId in Apply(policy, s, step).db.subscriptions
    ensures id in Apply(policy, s, step).db.deliveries
  {
    if step.DoPublish? { PublishChange(s, step.request, step.age, id); }
    else if step.DoNack? { NackChange(policy, s, step, id); }
    else if step.DoRetention? { RetentionChange(policy, s, step, id); }
    else if step.DoCommit? || step.DoAck? || step.DoExtend? { LeaseStepChange(policy, s, step, id); }
    else if step.DoDeleteSubscription? {
      if s.db.deliveries[id].subscriptionId == step.subscription && id in LockedIds(s.open) {
        assert id in DeliveriesOf(s.db, step.subscription) * LockedIds(s.open);
      }
    }
    else if step.DoBegin? {
      assert BeginConsume(s, step.tx, step.subscription, step.limit, step.consumer).0.db == s.db;
    }
  }

  /** Growth: messages stay as they are, subscriptions too unless deleted, and new rows have fresh ids. */
  ghost predicate Grows(db: Db, db': Db) {
    && db.nextSubscription <= db'.nextSubscription
    && db.nextMessage <= db'.nextMessage
    && db.nextDelivery <= db'.nextDelivery
    && (forall id | id in db'.deliveries && id !in db.deliveries :: db.nextDelivery <= id)
    && (forall m | m in db.messages :: m in db'.messages && db'.messages[m] == db.messages[m])
    && (forall m | m in db'.messages && m !in db.messages :: db.nextMessage <= m)
    && (forall sub | sub in db.subscriptions && sub in db'.subscriptions :: db'.subscriptions[sub] == db.subscriptions[sub])
    && (forall sub | sub in db'.subscriptions && sub !in db.subscriptions :: db.nextSubscription <= sub)
  }

  lemma InsertMessageGrows(db: Db, now: Time, m: Message)
    requires Wf(db, now)
    ensures Grows(db, InsertMessage(db, m)) && InsertMessage(db, m).subscriptions == db.subscriptions
  {
    forall i | i in db.deliveries ensures i < db.nextDelivery { assert RowWf(db, i); }
    forall n | n in db.messages ensures n < db.nextMessage { assert MessageWf(db, now, n); }
    InsertMessageFrame(db, m);
  }

  lemma BurialGrows(db: Db, now: Time, id: nat, d': Delivery, dlq: Option<nat>)
    requires Wf(db, now) && JoinsNack(db, id) && Wf(SetRow(db, id, d'), now)
    requires d'.messageId == db.deliveries[id].messageId && d'.subscriptionId == db.deliveries[id].subscriptionId
    ensures var r := Republish(InsertDeadLetter(SetRow(db, id, d'), id, now), db.messages[d'.messageId], dlq, now);
      Grows(db, r) && r.subscriptions == db.subscriptions && Grows(db, Rollback(db, r))
  {
    InsertDeadLetterWf(SetRow(db, id, d'), now, id);
    var moved := InsertDeadLetter(SetRow(db, id, d'), id, now);
    if dlq.Some? && dlq.value in moved.topics {
      InsertMessageGrows(moved, now, NewMessage(moved.topics[dlq.value], DlqRequest(db.messages[d'.messageId], dlq.value), now));
    }
  }

  lemma NackGrows(db: Db, id: nat, reason: string, requeue: bool, now: Time, fault: Fault)
    requires Wf(db, now) && JoinsNack(db, id)
    ensures var r := NackTransaction(db, id, reason, requeue, now, fault).0;
      Grows(db, r) && r.subscriptions == db.subscriptions
  {
    var d := db.deliveries[id];
    var sub := db.subscriptions[d.subscriptionId];
    var d' := NackRow(d, sub.maxAttempts, reason, requeue, now);
    SetRowWf(db, now, id, d') by { assert RowWf(db, id); }
    BurialGrows(db, now, id, d', sub.dlqTopicId);
  }

  lemma PublishGrows(s: System, r: PublishRequest, age: nat)
    requires Wf(s.db, s.now)
    ensures Grows(s.db, Publish(s, r, age).0.db)
  {
    if r.topic in s.db.topics {
      InsertMessageGrows(s.db, s.now, NewMessage(s.db.topics[r.topic], r, s.now - age));
    }
  }

  /** Statements that touch only delivery rows and dead letters, adding no delivery. */
  ghost predicate RowsOnly(db: Db, db': Db) {
    db' == db.(deliveries := db'.deliveries, deadLetters := db'.deadLetters) && db'.deliveries.Keys <= db.deliveries.Keys
  }

  lemma RowsOnlyGrows(db: Db, db': Db)
    requires RowsOnly(db, db')
    ensures Grows(db, db')
  { }

  lemma TopicsGrow(db: Db, db': Db)
    requires db' == db.(topics := db'.topics, nextTopic := db'.nextTopic)
    ensures Grows(db, db')
  { }

  lemma CreateTopicGrows(s: System, name: string, ttl: Time, maxPriority: int)
    ensures Grows(s.db, CreateTopic(s, name, ttl, maxPriority).0.db)
  {
    TopicsGrow(s.db, CreateTopic(s, name, ttl, maxPriority).0.db);
  }

  lemma SubscriptionAddedGrows(db: Db, db': Db)
    requires db' == db.(subscriptions := db'.subscriptions, nextSubscription := db'.nextSubscription)
    requires db.nextSubscription <= db'.nextSubscription
    requires forall sub | sub in db.subscriptions :: sub in db'.subscriptions && db'.subscriptions[sub] == db.subscriptions[sub]
    requires forall sub | sub in db'.subscriptions && sub !in db.subscriptions :: db.nextSubscription <= sub
    ensures Grows(db, db')
  { }

  lemma CreateSubscriptionGrows(s: System, topic: nat, name: string, visibility: Time, maxAttempts: int, dlq: Option<nat>)
    requires Wf(s.db, s.now)
    ensures Grows(s.db, CreateSubscription(s, topic, name, visibility, maxAttempts, dlq).0.db)
  {
    forall sub | sub in s.db.subscriptions ensures sub < s.db.nextSubscription { assert SubscriptionWf(s.db, sub); }
    SubscriptionAddedGrows(s.db, CreateSubscription(s, topic, name, visibility, maxAttempts, dlq).0.db);
  }

  lemma SubscriptionGoneGrows(db: Db, gone: nat)
    ensures Grows(db, WithoutSubscription(db, gone))
  { }

  lemma DeleteSubscriptionGrows(s: System, gone: nat)
    ensures Grows(s.db, DeleteSubscription(s, gone).0.db)
  {
    SubscriptionGoneGrows(s.db, gone);
  }

  lemma AdminGrows(policy: NackPolicy, s: System, step: Step)
    requires Wf(s.db, s.now)
    requires step.DoCreateTopic? || step.DoCreateSubscription? || step.DoDeleteSubscription?
    ensures Grows(s.db, Apply(policy, s, step).db)
  {
    if step.DoCreateSubscription? {
      CreateSubscriptionGrows(s, step.topic, step.name, step.visibility, step.maxAttempts, step.dlq);
    } else if step.DoCreateTopic? {
      CreateTopicGrows(s, step.name, step.ttl, step.maxPriority);
    } else {
      DeleteSubscriptionGrows(s, step.subscription);
    }
  }

  lemma RowStepRowsOnly(policy: NackPolicy, s: System, step: Step)
    requires step.DoCommit? || step.DoAck? || step.DoExtend? || step.DoRetention?
    ensures RowsOnly(s.db, Apply(policy, s, step).db)
  {
    if step.DoRetention? {
      SweepRows(s.db, s.now, s.db.nextDelivery);
    } else if step.DoCommit? {
    } else if step.DoAck? {
    } else {
    }
  }

  lemma NackStepGrows(policy: NackPolicy, s: System, step: Step)
    requires Wf(s.db, s.now) && step.DoNack?
    ensures Grows(s.db, Apply(policy, s, step).db)
  {
    NackIsTransaction(policy, s, step);
    if Apply(policy, s, step).db != s.db {
      NackGrows(s.db, step.id, step.reason, step.requeue, s.now, step.fault);
    }
  }

  lemma StepGrows(policy: NackPolicy, s: System, step: Step)
    requires Wf(s.db, s.now)
    ensures s.now <= Apply(policy, s, step).now
    ensures Grows(s.db, Apply(policy, s, step).db)
  {
    OnlyTicksMoveTime(policy, s, step);
    if step.DoPublish? { PublishGrows(s, step.request, step.age); }
    else if step.DoNack? { NackStepGrows(policy, s, step); }
    else if step.DoBegin? || step.DoAbort? || step.DoTick? { TablesUntouched(policy, s, step); }
    else if step.DoCommit? || step.DoAck? || step.DoExtend? || step.DoRetention? {
      RowStepRowsOnly(policy, s, step);
      RowsOnlyGrows(s.db, Apply(policy, s, step).db);
    }
    else { AdminGrows(policy, s, step); }
  }

  /** A transaction other than the one that ends keeps its locks sound. */
  lemma TxStays(policy: NackPolicy, s: System, step: Step, tx: nat)
    requires Inv(s)
    requires tx in s.open && !(step.DoCommit? && step.tx == tx)
    requires tx in Apply(policy, s, step).open && Apply(policy, s, step).open[tx] == s.open[tx]
    ensures TxWf(Apply(policy, s, step), tx)
  {
    var s' := Apply(policy, s, step);
    var t := s.open[tx];
    assert TxWf(s, tx);
    StepGrows(policy, s, step);
    forall id | id in t.picked ensures Eligible(s'.db, t.subscription, t.at, id) {
      assert Eligible(s.db, t.subscription, t.at, id);
      LockedRowStays(policy, s, step, tx, id);
    }
  }

  lemma OpenAfter(policy: NackPolicy, s: System, step: Step)
    ensures var s' := Apply(policy, s, step);
      && (forall tx | tx in s'.open && tx in s.open :: s'.open[tx] == s.open[tx])
      && (forall tx | tx in s'.open && tx !in s.open :: step.DoBegin? && step.tx == tx)
      && (step.DoCommit? ==> step.tx !in s'.open)
  { }

  /** The new transaction's rows are eligible now and locked by nobody else. */
  lemma BeginLocks(s: System, tx: nat, sub: nat, limit: int, consumer: string)
    requires Inv(s)
    requires BeginConsume(s, tx, sub, limit, consumer).1.Picked?
    ensures var s' := BeginConsume(s, tx, sub, limit, consumer).0;
      TxWf(s', tx) && forall id | id in s'.open[tx].picked :: id !in LockedIds(s.open)
  {
    PickExact(s.db, s.now, LockedIds(s.open), sub, s.now, limit);
    assert SubscriptionWf(s.db, sub);
  }

  /** Every step keeps tables and locks sound. */
  lemma StepKeepsInv(policy: NackPolicy, s: System, step: Step)
    requires Inv(s)
    ensures Inv(Apply(policy, s, step))
  {
    var s' := Apply(policy, s, step);
    TablesKept(policy, s, step);
    OpenAfter(policy, s, step);
    forall tx | tx in s'.open ensures TxWf(s', tx) {
      if tx in s.open { TxStays(policy, s, step, tx); }
      else { BeginLocks(s, tx, step.subscription, step.limit, step.consumer); }
    }
    forall tx, ty, id | tx in s'.open && ty in s'.open && tx != ty && id in s'.open[tx].picked
      ensures id !in s'.open[ty].picked
    {
      if tx !in s.open {
        BeginLocks(s, tx, step.subscription, step.limit, step.consumer);
        assert id in s.open[ty].picked ==> id in LockedIds(s.open);
      } else if ty !in s.open {
        BeginLocks(s, ty, step.subscription, step.limit, step.consumer);
        assert id in LockedIds(s.open);
      }
    }
  }

  lemma {:induction false} RunKeepsInv(policy: NackPolicy, s: System, steps: seq<Step>)
    requires Inv(s)
    ensures Inv(Run(policy, s, steps))
    decreases |steps|
  {
    if steps != [] {
      StepKeepsInv(policy, s, steps[0]);
      RunKeepsInv(policy, Apply(policy, s, steps[0]), steps[1..]);
    }
  }

  lemma InitInv(now: Time)
    ensures Inv(Init(now))
  { }

  /** Rows enter the table pending and never leased. */
  lemma NewRow(policy: NackPolicy, s: System, step: Step, id: nat)
    requires Inv(s)
    requires id in Apply(policy, s, step).db.deliveries && id !in s.db.deliveries
    ensures var d := Apply(policy, s, step).db.deliveries[id];
      (step.DoPublish? || step.DoNack?) && d.state == Pending && d.attemptCount == 0 && d.messageId !in s.db.messages
  {
    forall i | i in s.db.deliveries ensures i < s.db.nextDelivery { assert RowWf(s.db, i); }
    forall m | m in s.db.messages ensures m < s.db.nextMessage { assert MessageWf(s.db, s.now, m); }
    if step.DoPublish? {
      if step.request.topic in s.db.topics {
        InsertMessageFrame(s.db, NewMessage(s.db.topics[step.request.topic], step.request, s.now - step.age));
      }
    } else if step.DoNack? {
      if JoinsNack(s.db, step.id) {
        NackNewRow(s.db, step.id, step.reason, step.requeue, s.now, step.fault, id);
      }
    } else if step.DoRetention? {
      SweepRows(s.db, s.now, s.db.nextDelivery);
    } else if step.DoBegin? {
      BeginKeepsTables(s, step.tx, step.subscription, step.limit, step.consumer);
    } else {
      OldRowsOnly(policy, s, step);
    }
  }

  lemma NackNewRow(db: Db, n: nat, reason: string, requeue: bool, now: Time, fault: Fault, id: nat)
    requires JoinsNack(db, n) && (forall i | i in db.deliveries :: i < db.nextDelivery)
    requires id in NackTransaction(db, n, reason, requeue, now, fault).0.deliveries && id !in db.deliveries
    ensures var d := NackTransaction(db, n, reason, requeue, now, fault).0.deliveries[id];
      d.state == Pending && d.attemptCount == 0 && d.messageId == db.nextMessage
  {
    var d := db.deliveries[n];
    var sub := db.subscriptions[d.subscriptionId];
    var moved := InsertDeadLetter(SetRow(db, n, NackRow(d, sub.maxAttempts, reason, requeue, now)), n, now);
    if sub.dlqTopicId.Some? && sub.dlqTopicId.value in moved.topics {
      InsertMessageFrame(moved, NewMessage(moved.topics[sub.dlqTopicId.value],
                                           DlqRequest(moved.messages[d.messageId], sub.dlqTopicId.value), now));
    }
  }

  lemma OldRowsOnly(policy: NackPolicy, s: System, step: Step)
    requires !step.DoPublish? && !step.DoNack? && !step.DoRetention?
    ensures Apply(policy, s, step).db.deliveries.Keys <= s.db.deliveries.Keys
  {
    if step.DoBegin? { BeginKeepsTables(s, step.tx, step.subscription, step.limit, step.consumer); }
  }
}
