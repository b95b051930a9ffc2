/** What the queue's tables satisfy in every reachable state, and why each statement keeps it. */
module Tables {
  import opened Common
  import opened Ordering
  import opened QueueSpec

  /** The columns a state makes meaningful, and the retry bound on pending rows. */
  ghost predicate RowShape(d: Delivery, maxAttempts: int) {
    && d.attemptCount <= SMALLINT_MAX
    && (d.state == Pending ==> d.attemptCount < maxAttempts && d.leasedUntil == None && d.completedAt == None)
    && (d.state == Leased ==>
          d.attemptCount > 0 && d.leasedUntil.Some? && d.leasedBy.Some? && d.leaseStartedAt.Some?)
    && (d.state == Acked ==> d.attemptCount > 0 && d.leasedUntil == None && d.completedAt.Some?)
  }

  ghost predicate RowWf(db: Db, id: nat)
    requires id in db.deliveries
  {
    var d := db.deliveries[id];
    && id < db.nextDelivery
    && d.subscriptionId in db.subscriptions
    && d.messageId in db.messages
    && db.messages[d.messageId].topicId == db.subscriptions[d.subscriptionId].topicId
    && db.subscriptions[d.subscriptionId].firstMessage <= d.messageId
    && RowShape(d, db.subscriptions[d.subscriptionId].maxAttempts)
  }

  ghost predicate SubscriptionWf(db: Db, sub: nat)
    requires sub in db.subscriptions
  {
    var row := db.subscriptions[sub];
    && sub < db.nextSubscription
    && row.topicId in db.topics
    && (row.dlqTopicId.Some? ==> row.dlqTopicId.value in db.topics)
    && 1 <= row.maxAttempts <= 100
    && row.firstMessage <= db.nextMessage
  }

  ghost predicate MessageWf(db: Db, now: Time, m: nat)
    requires m in db.messages
  {
    && m < db.nextMessage
    && db.messages[m].topicId in db.topics
    && 0 <= db.messages[m].priority <= db.topics[db.messages[m].topicId].maxPriority
    && db.messages[m].enqueuedAt <= now
    && db.messages[m].headers.Keys * FORBIDDEN_HEADERS == {}
  }

  ghost predicate OneDeliveryEach(db: Db) {
    forall a, b | a in db.deliveries && b in db.deliveries && a != b ::
      db.deliveries[a].subscriptionId == db.deliveries[b].subscriptionId ==>
        db.deliveries[a].messageId != db.deliveries[b].messageId
  }

  ghost predicate HasDelivery(db: Db, m: nat, sub: nat) {
    exists id :: id in db.deliveries && db.deliveries[id].messageId == m && db.deliveries[id].subscriptionId == sub
  }

  /** The subscription existed when the message was published, on the subscription's topic. */
  ghost predicate Owed(db: Db, m: nat, sub: nat) {
    && m in db.messages && sub in db.subscriptions
    && db.messages[m].topicId == db.subscriptions[sub].topicId
    && db.subscriptions[sub].firstMessage <= m
  }

  ghost predicate AllDelivered(db: Db) {
    forall m, sub | Owed(db, m, sub) :: HasDelivery(db, m, sub)
  }

  ghost predicate DeadLettersWf(db: Db) {
    forall i | 0 <= i < |db.deadLetters| :: db.deadLetters[i].subscriptionId in db.subscriptions
  }

  ghost predicate Rows(db: Db, now: Time) {
    && (forall t | t in db.topics :: t < db.nextTopic && 0 <= db.topics[t].maxPriority <= 9)
    && (forall sub | sub in db.subscriptions :: SubscriptionWf(db, sub))
    && (forall m | m in db.messages :: MessageWf(db, now, m))
    && (forall id | id in db.deliveries :: RowWf(db, id))
    && DeadLettersWf(db)
  }

  ghost predicate Wf(db: Db, now: Time) {
    && Rows(db, now)
    && OneDeliveryEach(db)
    && AllDelivered(db)
  }

  // ----- Publishing -----

  /** Only deliveries are added: pending, with fresh ids, for subscriptions of the topic below `upto`. */
  ghost predicate OnlyAdds(db: Db, r: Db, message: nat, topic: nat, upto: nat) {
    && r == db.(deliveries := r.deliveries, nextDelivery := r.nextDelivery)
    && db.nextDelivery <= r.nextDelivery
    && (forall id | id in db.deliveries :: id in r.deliveries && r.deliveries[id] == db.deliveries[id])
    && (forall id | id in r.deliveries && id !in db.deliveries :: IsNewRow(db, r, message, topic, upto, id))
  }

  ghost predicate IsNewRow(db: Db, r: Db, message: nat, topic: nat, upto: nat, id: nat)
    requires id in r.deliveries
  {
    var d := r.deliveries[id];
    && db.nextDelivery <= id < r.nextDelivery
    && d.subscriptionId < upto
    && Subscribed(db, d.subscriptionId, topic)
    && d == NewDelivery(message, d.subscriptionId)
  }

  lemma {:induction false} FanOutAdds(db: Db, message: nat, topic: nat, upto: nat)
    requires forall id | id in db.deliveries :: id < db.nextDelivery
    ensures OnlyAdds(db, FanOut(db, message, topic, upto), message, topic, upto)
  {
    if upto > 0 {
      FanOutAdds(db, message, topic, upto - 1);
      var rest := FanOut(db, message, topic, upto - 1);
      var r := FanOut(db, message, topic, upto);
      forall id | id in r.deliveries && id !in db.deliveries ensures IsNewRow(db, r, message, topic, upto, id) {
        assert id in rest.deliveries ==> IsNewRow(db, rest, message, topic, upto - 1, id);
      }
      forall id | id in db.deliveries ensures id in r.deliveries && r.deliveries[id] == db.deliveries[id] {
        assert id in rest.deliveries;
      }
    }
  }

  /** Fan-out reaches every subscription of the topic. */
  lemma {:induction false} FanOutCovers(db: Db, message: nat, topic: nat, upto: nat, sub: nat)
    requires forall id | id in db.deliveries :: id < db.nextDelivery
    requires sub < upto && Subscribed(db, sub, topic)
    ensures HasDelivery(FanOut(db, message, topic, upto), message, sub)
  {
    FanOutAdds(db, message, topic, upto - 1);
    var rest := FanOut(db, message, topic, upto - 1);
    var r := FanOut(db, message, topic, upto);
    if sub < upto - 1 {
      FanOutCovers(db, message, topic, upto - 1, sub);
      var id :| id in rest.deliveries && rest.deliveries[id].messageId == message && rest.deliveries[id].subscriptionId == sub;
      assert id !in db.deliveries ==> IsNewRow(db, rest, message, topic, upto - 1, id);
      assert id in r.deliveries && r.deliveries[id] == rest.deliveries[id];
    } else {
      assert r.deliveries[rest.nextDelivery] == NewDelivery(message, sub);
    }
  }

  /** Fan-out reaches no subscription twice. */
  lemma {:induction false} FanOutOnce(db: Db, message: nat, topic: nat, upto: nat)
    requires forall id | id in db.deliveries :: id < db.nextDelivery
    ensures var r := FanOut(db, message, topic, upto);
      forall a, b | a in r.deliveries && b in r.deliveries && a !in db.deliveries && b !in db.deliveries && a != b ::
        r.deliveries[a].subscriptionId != r.deliveries[b].subscriptionId
  {
    if upto > 0 {
      FanOutOnce(db, message, topic, upto - 1);
      FanOutAdds(db, message, topic, upto - 1);
      var rest := FanOut(db, message, topic, upto - 1);
      forall id | id in rest.deliveries && id !in db.deliveries
        ensures rest.deliveries[id].subscriptionId < upto - 1
      {
        assert IsNewRow(db, rest, message, topic, upto - 1, id);
      }
    }
  }

  lemma FanOutFacts(db: Db, message: nat, topic: nat)
    requires forall id | id in db.deliveries :: id < db.nextDelivery
    ensures var r := FanOut(db, message, topic, db.nextSubscription);
      && OnlyAdds(db, r, message, topic, db.nextSubscription)
      && (forall id | id in r.deliveries && id !in db.deliveries ::
            && db.nextDelivery <= id < r.nextDelivery
            && Subscribed(db, r.deliveries[id].subscriptionId, topic)
            && r.deliveries[id] == NewDelivery(message, r.deliveries[id].subscriptionId))
  {
    FanOutAdds(db, message, topic, db.nextSubscription);
    var r := FanOut(db, message, topic, db.nextSubscription);
    forall id | id in r.deliveries && id !in db.deliveries
      ensures && db.nextDelivery <= id < r.nextDelivery
              && Subscribed(db, r.deliveries[id].subscriptionId, topic)
              && r.deliveries[id] == NewDelivery(message, r.deliveries[id].subscriptionId)
    {
      assert IsNewRow(db, r, message, topic, db.nextSubscription, id);
    }
  }

  /** A message that meets the checks of Publish. */
  ghost predicate MayInsert(db: Db, now: Time, m: Message) {
    && m.topicId in db.topics && 0 <= m.priority <= db.topics[m.topicId].maxPriority
    && m.enqueuedAt <= now && m.headers.Keys * FORBIDDEN_HEADERS == {}
  }

  lemma InsertMessageRows(db: Db, now: Time, m: Message)
    requires Rows(db, now)
    requires MayInsert(db, now, m)
    ensures Rows(InsertMessage(db, m), now)
  {
    var mid := db.nextMessage;
    var db1 := db.(messages := db.messages[mid := m], nextMessage := mid + 1);
    FanOutFacts(db1, mid, m.topicId);
    var r := InsertMessage(db, m);
    forall id | id in r.deliveries ensures RowWf(r, id) {
      if id in db.deliveries { assert RowWf(db, id); }
      else { assert SubscriptionWf(db, r.deliveries[id].subscriptionId); }
    }
    forall sub | sub in r.subscriptions ensures SubscriptionWf(r, sub) { assert SubscriptionWf(db, sub); }
    forall n | n in r.messages ensures MessageWf(r, now, n) { if n != mid { assert MessageWf(db, now, n); } }
  }

  lemma InsertMessageOnce(db: Db, now: Time, m: Message)
    requires Rows(db, now) && OneDeliveryEach(db)
    ensures OneDeliveryEach(InsertMessage(db, m))
  {
    var mid := db.nextMessage;
    var db1 := db.(messages := db.messages[mid := m], nextMessage := mid + 1);
    forall id | id in db.deliveries ensures id < db.nextDelivery && db.deliveries[id].messageId < mid {
      assert RowWf(db, id) && MessageWf(db, now, db.deliveries[id].messageId);
    }
    FanOutFacts(db1, mid, m.topicId);
    FanOutOnce(db1, mid, m.topicId, db.nextSubscription);
  }

  lemma InsertMessageDelivered(db: Db, now: Time, m: Message)
    requires Rows(db, now) && AllDelivered(db)
    ensures AllDelivered(InsertMessage(db, m))
  {
    var mid := db.nextMessage;
    var db1 := db.(messages := db.messages[mid := m], nextMessage := mid + 1);
    forall id | id in db.deliveries ensures id < db.nextDelivery { assert RowWf(db, id); }
    FanOutFacts(db1, mid, m.topicId);
    var r := InsertMessage(db, m);
    forall n, sub | Owed(r, n, sub) ensures HasDelivery(r, n, sub) {
      if n == mid {
        assert SubscriptionWf(db, sub);
        FanOutCovers(db1, mid, m.topicId, db.nextSubscription, sub);
      } else {
        assert Owed(db, n, sub);
        var id :| id in db.deliveries && db.deliveries[id].messageId == n && db.deliveries[id].subscriptionId == sub;
        assert r.deliveries[id] == db.deliveries[id];
      }
    }
  }

  lemma InsertMessageWf(db: Db, now: Time, m: Message)
    requires Wf(db, now)
    requires MayInsert(db, now, m)
    ensures Wf(InsertMessage(db, m), now)
  {
    InsertMessageRows(db, now, m);
    InsertMessageOnce(db, now, m);
    InsertMessageDelivered(db, now, m);
  }

  // ----- Row updates -----

  /** Updates that leave the key columns alone keep the tables well formed when each new row is. */
  lemma UpdateRowsWf(db: Db, now: Time, db': Db)
    requires Wf(db, now)
    requires db' == db.(deliveries := db'.deliveries)
    requires db'.deliveries.Keys == db.deliveries.Keys
    requires forall id | id in db.deliveries ::
      && db'.deliveries[id].messageId == db.deliveries[id].messageId
      && db'.deliveries[id].subscriptionId == db.deliveries[id].subscriptionId
      && (db'.deliveries[id] == db.deliveries[id]
          || (db.deliveries[id].subscriptionId in db.subscriptions
              && RowShape(db'.deliveries[id], db.subscriptions[db.deliveries[id].subscriptionId].maxAttempts)))
    ensures Wf(db', now)
  {
    forall id | id in db'.deliveries ensures RowWf(db', id) { assert RowWf(db, id); }
    forall sub | sub in db'.subscriptions ensures SubscriptionWf(db', sub) { assert SubscriptionWf(db, sub); }
    forall m | m in db'.messages ensures MessageWf(db', now, m) { assert MessageWf(db, now, m); }
    forall m, sub | Owed(db', m, sub) ensures HasDelivery(db', m, sub) {
      assert Owed(db, m, sub);
      var id :| id in db.deliveries && db.deliveries[id].messageId == m && db.deliveries[id].subscriptionId == sub;
      assert id in db'.deliveries;
    }
  }

  lemma SetRowWf(db: Db, now: Time, id: nat, d: Delivery)
    requires Wf(db, now) && id in db.deliveries
    requires d.messageId == db.deliveries[id].messageId && d.subscriptionId == db.deliveries[id].subscriptionId
    requires RowWf(db, id) ==> RowShape(d, db.subscriptions[d.subscriptionId].maxAttempts)
    ensures Wf(SetRow(db, id, d), now)
  {
    assert RowWf(db, id);
    assert SetRow(db, id, d).deliveries.Keys == db.deliveries.Keys;
    UpdateRowsWf(db, now, SetRow(db, id, d));
  }

  lemma LeaseRowsWf(db: Db, now: Time, ids: seq<nat>, at: Time, visibility: Time, consumer: string)
    requires Wf(db, now)
    requires AttemptsFit(db, ids)
    ensures Wf(LeaseRows(db, ids, at, visibility, consumer), now)
  {
    var db' := LeaseRows(db, ids, at, visibility, consumer);
    forall id | id in db.deliveries
      ensures db.deliveries[id].subscriptionId in db.subscriptions
      ensures id in ids ==> RowShape(db'.deliveries[id], db.subscriptions[db.deliveries[id].subscriptionId].maxAttempts)
    {
      assert RowWf(db, id);
    }
    UpdateRowsWf(db, now, db');
  }

  lemma InsertDeadLetterWf(db: Db, now: Time, id: nat)
    requires Wf(db, now) && JoinsNack(db, id)
    ensures Wf(InsertDeadLetter(db, id, now), now)
  {
    var r := InsertDeadLetter(db, id, now);
    forall i | i in r.deliveries ensures RowWf(r, i) { assert RowWf(db, i); }
    forall sub | sub in r.subscriptions ensures SubscriptionWf(r, sub) { assert SubscriptionWf(db, sub); }
    forall m | m in r.messages ensures MessageWf(r, now, m) { assert MessageWf(db, now, m); }
    forall m, sub | Owed(r, m, sub) ensures HasDelivery(r, m, sub) {
      assert Owed(db, m, sub);
      var k :| k in db.deliveries && db.deliveries[k].messageId == m && db.deliveries[k].subscriptionId == sub;
      assert k in r.deliveries;
    }
  }

  // ----- RETURNING -----

  lemma {:induction false} RowsReturned(db: Db, ids: seq<nat>)
    requires forall id | id in ids :: id in db.deliveries && db.deliveries[id].messageId in db.messages
    ensures |ReturnedRows(db, ids)| == |ids|
    ensures forall i | 0 <= i < |ids| ::
      ReturnedRows(db, ids)[i] == Returning(ids[i], db.deliveries[ids[i]], db.messages[db.deliveries[ids[i]].messageId])
  {
    if ids != [] {
      RowsReturned(db, ids[..|ids| - 1]);
    }
  }
}
