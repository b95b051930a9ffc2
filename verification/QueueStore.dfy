/**
 The queue service over its database: statements that change the tables in place.

 `Model()` is the value the functions of QueueSpec speak about; each method is proved to take
 the model exactly where its specification says and to report what the specification reports.
 */
module QueueStore {
  import opened Common
  import opened Ordering
  import opened QueueSpec
  import Invariants = Tables
  import Steps

  ghost predicate PicksExist(db: Db, ids: seq<nat>) {
    forall id | id in ids :: id in db.deliveries && db.deliveries[id].messageId in db.messages
  }

  /** One message for each picked row of the tables before the commit, in the order of the pick. */
  ghost predicate Reports(db: Db, t: ConsumeTx, batch: seq<LeasedMessage>)
    requires PicksExist(db, t.picked)
  {
    && |batch| == |t.picked|
    && forall i | 0 <= i < |batch| ::
         var d := db.deliveries[t.picked[i]];
         var m := db.messages[d.messageId];
         batch[i] == LeasedMessage(t.picked[i], d.messageId, d.attemptCount + 1, Some(t.at + t.visibility), m.priority,
                                   m.partitionKey, m.payload, m.headers, m.producerId, m.enqueuedAt)
  }

  lemma ReportsPicks(db: Db, t: ConsumeTx)
    requires PicksExist(db, t.picked)
    ensures Reports(db, t, ReturnedRows(LeaseRows(db, t.picked, t.at, t.visibility, t.consumer), t.picked))
  {
    Invariants.RowsReturned(LeaseRows(db, t.picked, t.at, t.visibility, t.consumer), t.picked);
  }

  lemma LeaseOneMore(db: Db, ids: seq<nat>, i: nat, at: Time, visibility: Time, consumer: string)
    requires i < |ids|
    ensures var before := LeaseRows(db, ids[..i], at, visibility, consumer).deliveries;
      LeaseRows(db, ids[..i + 1], at, visibility, consumer).deliveries
      == if ids[i] in db.deliveries then before[ids[i] := LeaseRow(db.deliveries[ids[i]], at, visibility, consumer)] else before
  {
    assert ids[..i + 1] == ids[..i] + [ids[i]];
  }

  lemma ReturnOneMore(db: Db, ids: seq<nat>, i: nat)
    requires i < |ids|
    ensures ReturnedRows(db, ids[..i + 1]) == ReturnedRows(db, ids[..i])
      + if ids[i] in db.deliveries && db.deliveries[ids[i]].messageId in db.messages
        then [Returning(ids[i], db.deliveries[ids[i]], db.messages[db.deliveries[ids[i]].messageId])] else []
  {
    assert ids[..i + 1][..i] == ids[..i];
  }

  class Queue {
    var topics: map<nat, Topic>
    var subscriptions: map<nat, Subscription>
    var messages: map<nat, Message>
    var deliveries: map<nat, Delivery>
    var deadLetters: seq<DeadLetter>
    var nextTopic: nat
    var nextSubscription: nat
    var nextMessage: nat
    var nextDelivery: nat
    var clock: Time
    var open: map<nat, ConsumeTx>

    function Tables(): Db
      reads this
    {
      Db(topics, subscriptions, messages, deliveries, deadLetters, nextTopic, nextSubscription, nextMessage, nextDelivery)
    }

    function Model(): System
      reads this
    {
      System(Tables(), clock, open)
    }

    constructor (now: Time)
      ensures Model() == Init(now)
    {
      topics, subscriptions, messages, deliveries, deadLetters := map[], map[], map[], map[], [];
      nextTopic, nextSubscription, nextMessage, nextDelivery := 1, 1, 1, 1;
      clock, open := now, map[];
    }

    method CreateTopic(name: string, ttl: Time, maxPriority: int) returns (r: AdminResult)
      modifies this
      ensures (Model(), r) == QueueSpec.CreateTopic(old(Model()), name, ttl, maxPriority)
      ensures r.Created? <==>
        0 <= maxPriority <= 9 && |name| <= 128 && forall t | t in old(topics) :: old(topics)[t].name != name
    {
      if maxPriority < 0 || 9 < maxPriority || NAME_MAX < |name| {
        return InvalidArgument;
      }
      var id := nextTopic;
      nextTopic := nextTopic + 1;
      if exists t | t in topics :: topics[t].name == name {
        return AlreadyExists;
      }
      topics := topics[id := Topic(name, ttl, maxPriority)];
      r := Created(id);
    }

    method CreateSubscription(topic: nat, name: string, visibility: Time, maxAttempts: int, dlq: Option<nat>)
      returns (r: AdminResult)
      modifies this
      ensures (Model(), r) == QueueSpec.CreateSubscription(old(Model()), topic, name, visibility, maxAttempts, dlq)
      ensures r.Created? <==>
        && topic in topics && (dlq.Some? ==> dlq.value in topics) && 1 <= maxAttempts <= 100 && |name| <= 128
        && forall sub | sub in old(subscriptions) && old(subscriptions)[sub].topicId == topic :: old(subscriptions)[sub].name != name
    {
      if topic !in topics || (dlq.Some? && dlq.value !in topics) {
        return NotFound;
      }
      if maxAttempts < 1 || 100 < maxAttempts || NAME_MAX < |name| {
        return InvalidArgument;
      }
      var id := nextSubscription;
      nextSubscription := nextSubscription + 1;
      if exists sub | sub in subscriptions :: subscriptions[sub].topicId == topic && subscriptions[sub].name == name {
        return AlreadyExists;
      }
      subscriptions := subscriptions[id := Subscription(topic, name, visibility, maxAttempts, dlq, nextMessage)];
      r := Created(id);
    }

    method DeleteSubscription(subscription: nat) returns (r: AdminResult)
      modifies this
      ensures (Model(), r) == QueueSpec.DeleteSubscription(old(Model()), subscription)
    {
      if subscription !in subscriptions {
        return NotFound;
      }
      if HasDeadLetters(Tables(), subscription) {
        return StillReferenced;
      }
      var rows := set id | id in deliveries && deliveries[id].subscriptionId == subscription;
      assert rows == DeliveriesOf(Tables(), subscription);
      if rows * LockedIds(open) != {} {
        return RowLocked;
      }
      deliveries := deliveries - rows;
      subscriptions := subscriptions - {subscription};
      r := Deleted;
    }

    /** INSERT INTO messages, then INSERT INTO deliveries SELECT id FROM subscriptions. */
    method InsertAndFanOut(m: Message)
      modifies this
      ensures Model() == old(Model()).(db := InsertMessage(old(Tables()), m))
    {
      var id := nextMessage;
      messages := messages[id := m];
      nextMessage := nextMessage + 1;
      label inserted:
      for sub := 0 to nextSubscription
        invariant subscriptions == old(subscriptions)
        invariant Model() == old@inserted(Model()).(db := FanOut(old@inserted(Tables()), id, m.topicId, sub))
      {
        if sub in subscriptions && subscriptions[sub].topicId == m.topicId {
          deliveries := deliveries[nextDelivery := NewDelivery(id, sub)];
          nextDelivery := nextDelivery + 1;
        }
      }
    }

    method Publish(r: PublishRequest, age: nat) returns (result: PublishResult)
      modifies this
      ensures (Model(), result) == QueueSpec.Publish(old(Model()), r, age)
    {
      if r.topic !in topics {
        return TopicNotFound;
      }
      if r.priority < 0 || topics[r.topic].maxPriority < r.priority {
        return PriorityOutOfRange;
      }
      if r.headers.Keys * FORBIDDEN_HEADERS != {} {
        return ForbiddenHeader;
      }
      result := Published(nextMessage);
      InsertAndFanOut(NewMessage(topics[r.topic], r, clock - age));
    }

    /**
     The picking half of LeaseMessages.  One pass over the table keeps the best `limit` rows seen
     so far, which is what ORDER BY ... LIMIT asks for.
     */
    method BeginConsume(tx: nat, subscription: nat, limit: int, consumer: string) returns (r: BeginResult)
      modifies this
      ensures (Model(), r) == QueueSpec.BeginConsume(old(Model()), tx, subscription, limit, consumer)
    {
      if tx in open {
        return TxInUse;
      }
      if subscription !in subscriptions {
        return SubscriptionNotFound;
      }
      if limit < 1 || MAX_BATCH < limit {
        return InvalidBatchSize;
      }
      var locked := LockedIds(open);
      var top: seq<Keyed<nat>> := [];
      for id := 0 to nextDelivery
        invariant Model() == old(Model())
        invariant top == Take(Sort(Candidates(Tables(), locked, subscription, clock, id)), limit)
      {
        if id !in locked && Eligible(Tables(), subscription, clock, id) {
          ghost var seen := Candidates(Tables(), locked, subscription, clock, id);
          var row := RowKey(Tables(), id);
          InsertTake(Sort(seen), row, limit);
          assert (seen + [row])[..|seen|] == seen;
          top := Take(Insert(top, row), limit);
        }
      }
      open := open[tx := ConsumeTx(subscription, consumer, clock, subscriptions[subscription].visibilityTimeout, Items(top))];
      r := Picked(Items(top));
    }

    /** The updating half of LeaseMessages: one row after the other, all or none. */
    method CommitConsume(tx: nat) returns (r: CommitResult, batch: seq<LeasedMessage>)
      modifies this
      ensures (Model(), r) == QueueSpec.CommitConsume(old(Model()), tx)
      ensures batch == if r.Committed? then ReturnedRows(Tables(), r.ids) else []
      ensures r.Committed? ==> tx in old(open) && r.ids == old(open)[tx].picked
      ensures r.Committed? && PicksExist(old(Tables()), r.ids) ==> Reports(old(Tables()), old(open)[tx], batch)
    {
      if tx !in open {
        return NoSuchTx, [];
      }
      var t := open[tx];
      open := open - {tx};
      var saved := deliveries;
      batch := [];
      ghost var leased := LeaseRows(old(Tables()), t.picked, t.at, t.visibility, t.consumer);
      for i := 0 to |t.picked|
        invariant Tables() == old(Tables()).(deliveries := deliveries) && open == old(open) - {tx} && clock == old(clock)
        invariant AttemptsFit(old(Tables()), t.picked[..i])
        invariant deliveries == LeaseRows(old(Tables()), t.picked[..i], t.at, t.visibility, t.consumer).deliveries
        invariant batch == ReturnedRows(leased, t.picked[..i])
      {
        var id := t.picked[i];
        ReturnOneMore(leased, t.picked, i);
        LeaseOneMore(old(Tables()), t.picked, i, t.at, t.visibility, t.consumer);
        if id in saved {
          if saved[id].attemptCount >= SMALLINT_MAX {
            assert !AttemptsFit(old(Tables()), t.picked);
            deliveries := saved;
            return SmallintOutOfRange, [];
          }
          deliveries := deliveries[id := LeaseRow(saved[id], t.at, t.visibility, t.consumer)];
          if saved[id].messageId in messages {
            batch := batch + [Returning(id, deliveries[id], messages[saved[id].messageId])];
          }
        }
      }
      assert t.picked[..|t.picked|] == t.picked;
      assert AttemptsFit(old(Tables()), t.picked) && Tables() == leased;
      r := Committed(t.picked);
      if PicksExist(old(Tables()), t.picked) { ReportsPicks(old(Tables()), t); }
    }

    method AbortConsume(tx: nat)
      modifies this`open
      ensures Model() == QueueSpec.AbortConsume(old(Model()), tx)
      ensures tx !in open && forall ty | ty in old(open) && ty != tx :: ty in open && open[ty] == old(open)[ty]
    {
      open := open - {tx};
    }

    method Ack(id: nat, consumer: string) returns (r: LeaseResult)
      modifies this`deliveries
      ensures (Model(), r) == QueueSpec.Ack(old(Model()), id, consumer)
      ensures r == Done ==>
        && id in old(deliveries)
        && var d := old(deliveries)[id];
        deliveries == old(deliveries)[id :=
          Delivery(d.messageId, d.subscriptionId, Acked, d.attemptCount, None, d.leasedBy, d.leaseStartedAt, d.lastError, Some(clock))]
    {
      if id in LockedIds(open) {
        return Blocked;
      }
      if id !in deliveries {
        return LeaseNotFound;
      }
      var d := deliveries[id];
      if d.state != Leased || d.leasedBy != Some(consumer) || d.leasedUntil.None? || d.leasedUntil.value <= clock {
        return FailedPrecondition;
      }
      deliveries := deliveries[id := d.(state := Acked, completedAt := Some(clock), leasedUntil := None)];
      r := Done;
    }

    /** NackDelivery and, when it ends the delivery, the dead-letter steps, in one transaction. */
    method Nack(policy: NackPolicy, id: nat, consumer: string, reason: string, requeue: bool, fault: Fault)
      returns (r: LeaseResult)
      modifies this
      ensures (Model(), r) == QueueSpec.Nack(policy, old(Model()), id, consumer, reason, requeue, fault)
    {
      if id in LockedIds(open) {
        return Blocked;
      }
      if !JoinsNack(Tables(), id) {
        return LeaseNotFound;
      }
      if policy == Guarded && !LiveLease(deliveries[id], consumer, clock) {
        return FailedPrecondition;
      }
      var before := deliveries;
      var d := deliveries[id];
      var sub := subscriptions[d.subscriptionId];
      var m := messages[d.messageId];
      var dead := !requeue || d.attemptCount >= sub.maxAttempts;
      deliveries := deliveries[id := d.(state := if dead then Dead else Pending, leasedUntil := None, leasedBy := None,
                                        lastError := Some(reason), completedAt := if dead then Some(clock) else None)];
      r := Done;
      if dead {
        r := Bury(id, m, sub, fault, before);
      } else if fault == FailCommit {
        deliveries := before;
        r := RolledBack;
      }
    }

    /** INSERT INTO dead_letters, publish on the dead-letter topic, COMMIT; a failure restores the tables. */
    method Bury(id: nat, m: Message, sub: Subscription, fault: Fault, before: map<nat, Delivery>) returns (r: LeaseResult)
      requires id in deliveries && deliveries[id].messageId in messages && messages[deliveries[id].messageId] == m
      modifies this
      ensures
        var rolledBack := old(Tables()).(deliveries := before);
        var moved := InsertDeadLetter(old(Tables()), id, clock);
        var published := Republish(moved, m, sub.dlqTopicId, clock);
        clock == old(clock) && open == old(open)
        && (Tables(), r) ==
           if fault == FailDeadLetter || (fault == FailPublish && sub.dlqTopicId.Some?) then (rolledBack, RolledBack)
           else if fault == FailCommit then (Rollback(rolledBack, published), RolledBack)
           else (published, Done)
    {
      if fault == FailDeadLetter {
        deliveries := before;
        return RolledBack;
      }
      var savedMessages, savedDeadLetters := messages, deadLetters;
      var d := deliveries[id];
      deadLetters := deadLetters
        + [DeadLetter(id, d.subscriptionId, d.messageId, m.payload, m.headers, d.lastError, d.attemptCount, clock)];
      if fault == FailPublish && sub.dlqTopicId.Some? {
        deliveries, deadLetters := before, savedDeadLetters;
        return RolledBack;
      }
      if sub.dlqTopicId.Some? && sub.dlqTopicId.value in topics {
        var topic := sub.dlqTopicId.value;
        InsertAndFanOut(NewMessage(topics[topic], DlqRequest(m, topic), clock));
      }
      if fault == FailCommit {
        deliveries, messages, deadLetters := before, savedMessages, savedDeadLetters;
        return RolledBack;
      }
      r := Done;
    }

    method ExtendLease(id: nat, consumer: string, additional: Time) returns (r: LeaseResult)
      modifies this`deliveries
      ensures (Model(), r) == QueueSpec.ExtendLease(old(Model()), id, consumer, additional)
      ensures r == Done ==>
        && id in old(deliveries) && old(deliveries)[id].leasedUntil.Some?
        && deliveries == old(deliveries)[id :=
             old(deliveries)[id].(leasedUntil := Some(old(deliveries)[id].leasedUntil.value + additional))]
    {
      if additional <= 0 || MAX_EXTENSION < additional {
        return InvalidExtension;
      }
      if id in LockedIds(open) {
        return Blocked;
      }
      if id !in deliveries {
        return LeaseNotFound;
      }
      var d := deliveries[id];
      if LiveLease(d, consumer, clock) && d.leaseStartedAt.Some? && clock - d.leaseStartedAt.value <= MAX_LEASE_AGE {
        deliveries := deliveries[id := d.(leasedUntil := Some(d.leasedUntil.value + additional))];
        return Done;
      }
      r := FailedPrecondition;
    }

    /** Buries what has expired; false when a row it wants is locked, so that it has to wait. */
    method Retention() returns (ran: bool)
      modifies this`deliveries, this`deadLetters
      ensures Model() == QueueSpec.Retention(old(Model()))
      ensures ran == !SweepBlocked(old(Model()))
      ensures ran ==> forall id | id in old(deliveries) && id < nextDelivery ::
        id in deliveries && deliveries[id] ==
          if Expired(old(Tables()), id, clock) then old(deliveries)[id].(state := Dead, lastError := Some("expired")) else old(deliveries)[id]
    {
      ran := !SweepBlocked(Model());
      Steps.SweepRows(Tables(), clock, nextDelivery);
      if ran {
        for id := 0 to nextDelivery
          invariant Model() == old(Model()).(db := Sweep(old(Tables()), clock, id))
        {
          if JoinsNack(Tables(), id) && !deliveries[id].Terminal() && messages[deliveries[id].messageId].expiresAt < clock {
            var d := deliveries[id].(state := Dead, lastError := Some("expired"));
            var m := messages[d.messageId];
            deliveries := deliveries[id := d];
            if subscriptions[d.subscriptionId].dlqTopicId.Some? {
              deadLetters := deadLetters
                + [DeadLetter(id, d.subscriptionId, d.messageId, m.payload, m.headers, d.lastError, d.attemptCount, clock)];
            }
          }
        }
      }
    }

    method Tick(elapsed: nat)
      modifies this`clock
      ensures Model() == old(Model()).(now := old(clock) + elapsed)
    {
      clock := clock + elapsed;
    }
  }
}
