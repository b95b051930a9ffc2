/** Fan-out at publish: each message owes every subscription of its topic exactly one delivery, for good. */
module Conservation {
  import opened Common
  import opened QueueSpec
  import opened Tables
  import opened Steps

  ghost function InState(db: Db, sub: nat, state: DeliveryState): set<nat> {
    set id | id in db.deliveries && db.deliveries[id].subscriptionId == sub && db.deliveries[id].state == state
  }

  /** The messages of the subscription's topic published since the subscription was created. */
  ghost function OwedTo(db: Db, sub: nat): set<nat> {
    set m | m in db.messages && Owed(db, m, sub)
  }

  /** A one-to-one correspondence makes two finite sets equally large. */
  lemma {:induction false} SameSize(ids: set<nat>, messages: set<nat>, f: map<nat, nat>)
    requires f.Keys == ids
    requires forall id | id in ids :: f[id] in messages
    requires forall a, b | a in ids && b in ids && a != b :: f[a] != f[b]
    requires forall m | m in messages :: exists id :: id in ids && f[id] == m
    ensures |ids| == |messages|
  {
    if messages == {} {
      assert ids == {};
    } else {
      var m :| m in messages;
      var id :| id in ids && f[id] == m;
      forall n | n in messages - {m} ensures exists k :: k in ids - {id} && (f - {id})[k] == n {
        var k :| k in ids && f[k] == n;
        assert k in ids - {id} && (f - {id})[k] == n;
      }
      SameSize(ids - {id}, messages - {m}, f - {id});
    }
  }

  lemma StatesPartition(db: Db, sub: nat)
    ensures |InState(db, sub, Pending)| + |InState(db, sub, Leased)| + |InState(db, sub, Acked)| + |InState(db, sub, Dead)|
            == |DeliveriesOf(db, sub)|
  {
    var p, l, a, d := InState(db, sub, Pending), InState(db, sub, Leased), InState(db, sub, Acked), InState(db, sub, Dead);
    assert DeliveriesOf(db, sub) == p + l + a + d;
    assert p !! l && (p + l) !! a && (p + l + a) !! d;
  }

  /** The one delivery of a message to a subscription. */
  ghost predicate TheDelivery(db: Db, m: nat, sub: nat, id: nat) {
    && id in db.deliveries && db.deliveries[id].messageId == m && db.deliveries[id].subscriptionId == sub
    && forall other | other in db.deliveries && db.deliveries[other].messageId == m && db.deliveries[other].subscriptionId == sub ::
         other == id
  }

  lemma ExactlyOneEach(db: Db, now: Time, sub: nat)
    requires Wf(db, now)
    ensures forall m | m in OwedTo(db, sub) :: exists id :: TheDelivery(db, m, sub, id)
    ensures forall id | id in DeliveriesOf(db, sub) :: db.deliveries[id].messageId in OwedTo(db, sub)
  {
    forall m | m in OwedTo(db, sub) ensures exists id :: TheDelivery(db, m, sub, id) {
      assert HasDelivery(db, m, sub);
      var id :| id in db.deliveries && db.deliveries[id].messageId == m && db.deliveries[id].subscriptionId == sub;
      assert TheDelivery(db, m, sub, id);
    }
    forall id | id in DeliveriesOf(db, sub) ensures db.deliveries[id].messageId in OwedTo(db, sub) {
      assert RowWf(db, id);
    }
  }

  lemma CountsAddUp(db: Db, now: Time, sub: nat)
    requires Wf(db, now)
    ensures |InState(db, sub, Pending)| + |InState(db, sub, Leased)| + |InState(db, sub, Acked)| + |InState(db, sub, Dead)|
            == |OwedTo(db, sub)|
  {
    ExactlyOneEach(db, now, sub);
    var f := map id | id in DeliveriesOf(db, sub) :: db.deliveries[id].messageId;
    forall m | m in OwedTo(db, sub) ensures exists id :: id in DeliveriesOf(db, sub) && f[id] == m {
      var id :| TheDelivery(db, m, sub, id);
      assert id in DeliveriesOf(db, sub) && f[id] == m;
    }
    SameSize(DeliveriesOf(db, sub), OwedTo(db, sub), f);
    StatesPartition(db, sub);
  }

  /**
   Conservation, in every reachable state under either Nack: a message has exactly one delivery
   for each surviving subscription that existed on its topic when it was published, none for any
   other, and the four state counts of a subscription add up to the messages it is owed.
   */
  lemma Conserved(policy: NackPolicy, start: Time, steps: seq<Step>, sub: nat)
    ensures var db := Run(policy, Init(start), steps).db;
      && (forall m | m in OwedTo(db, sub) :: exists id :: TheDelivery(db, m, sub, id))
      && (forall id | id in DeliveriesOf(db, sub) :: db.deliveries[id].messageId in OwedTo(db, sub))
      && |InState(db, sub, Pending)| + |InState(db, sub, Leased)| + |InState(db, sub, Acked)| + |InState(db, sub, Dead)|
         == |OwedTo(db, sub)|
  {
    InitInv(start);
    RunKeepsInv(policy, Init(start), steps);
    var s := Run(policy, Init(start), steps);
    ExactlyOneEach(s.db, s.now, sub);
    CountsAddUp(s.db, s.now, sub);
  }

  /** From one state of a run to a later one: messages only join, with new ids, and subscriptions keep their settings. */
  lemma {:induction false} RunGrows(policy: NackPolicy, s: System, steps: seq<Step>, sub: nat)
    requires Inv(s) && sub < s.db.nextSubscription
    ensures var s' := Run(policy, s, steps);
      && (forall m | m in s.db.messages :: m in s'.db.messages && s'.db.messages[m] == s.db.messages[m])
      && (forall m | m in s'.db.messages && m !in s.db.messages :: s.db.nextMessage <= m)
      && (sub in s'.db.subscriptions ==> sub in s.db.subscriptions && s'.db.subscriptions[sub] == s.db.subscriptions[sub])
    decreases |steps|
  {
    if steps != [] {
      var s1 := Apply(policy, s, steps[0]);
      StepKeepsInv(policy, s, steps[0]);
      StepGrows(policy, s, steps[0]);
      RunGrows(policy, s1, steps[1..], sub);
    }
  }

  /** What a subscription is owed is what was published on its topic after it was created, and nothing earlier. */
  lemma OwedSinceCreation(policy: NackPolicy, s: System, topic: nat, name: string, visibility: Time, maxAttempts: int, dlq: Option<nat>,
                          steps: seq<Step>)
    requires Inv(s)
    requires CreateSubscription(s, topic, name, visibility, maxAttempts, dlq).1.Created?
    ensures var (s1, created) := CreateSubscription(s, topic, name, visibility, maxAttempts, dlq);
      var db := Run(policy, s1, steps).db;
      created.id in db.subscriptions ==>
        OwedTo(db, created.id) == set m | m in db.messages && m !in s.db.messages && db.messages[m].topicId == topic
  {
    var (s1, created) := CreateSubscription(s, topic, name, visibility, maxAttempts, dlq);
    StepKeepsInv(policy, s, DoCreateSubscription(topic, name, visibility, maxAttempts, dlq));
    RunGrows(policy, s1, steps, created.id);
    forall m | m in s.db.messages ensures m < s.db.nextMessage { assert MessageWf(s.db, s.now, m); }
  }

  /** The rows a statement adds for one message: exactly one, pending and fresh, for each subscription of the topic. */
  ghost predicate FannedOut(db: Db, db': Db, message: nat, topic: nat) {
    && (forall id | id in db.deliveries :: id in db'.deliveries && db'.deliveries[id] == db.deliveries[id])
    && (forall id | id in db'.deliveries && id !in db.deliveries ::
          Subscribed(db, db'.deliveries[id].subscriptionId, topic)
          && db'.deliveries[id] == Delivery(message, db'.deliveries[id].subscriptionId, Pending, 0, None, None, None, None, None))
    && (forall sub | Subscribed(db, sub, topic) :: exists id :: id !in db.deliveries && TheDelivery(db', message, sub, id))
  }

  /**
   Publish accepts exactly the requests for an existing topic, within its priorities and without
   a forbidden header; it stores one message with the request's contents and the two default
   times, and fans it out; anything else it refuses without a trace.
   */
  lemma PublishExact(s: System, r: PublishRequest, age: nat)
    requires Inv(s)
    ensures var (s', result) := Publish(s, r, age);
      && (result.Published? <==>
            && r.topic in s.db.topics && 0 <= r.priority <= s.db.topics[r.topic].maxPriority
            && "authorization" !in r.headers && "cookie" !in r.headers && "set-cookie" !in r.headers)
      && (!result.Published? ==> s' == s)
      && s' == s.(db := s'.db) && Apply(Guarded, s, DoPublish(r, age)) == s'
      && s'.db.topics == s.db.topics && s'.db.subscriptions == s.db.subscriptions && s'.db.deadLetters == s.db.deadLetters
      && (result.Published? ==>
            && result.id !in s.db.messages
            && s'.db.messages.Keys == s.db.messages.Keys + {result.id}
            && (forall m | m in s.db.messages :: s'.db.messages[m] == s.db.messages[m])
            && s'.db.messages[result.id] == Message(r.topic, r.priority, r.partitionKey, r.payload, r.headers, r.producerId, s.now - age,
                 if r.availableAt.Some? then r.availableAt.value else s.now - age,
                 if r.expiresAt.Some? then r.expiresAt.value else s.now - age + s.db.topics[r.topic].defaultTtl)
            && FannedOut(s.db, s'.db, result.id, r.topic))
  {
    assert r.headers.Keys * FORBIDDEN_HEADERS == {} <==>
           "authorization" !in r.headers && "cookie" !in r.headers && "set-cookie" !in r.headers by {
      HeadersAllowed(r.headers);
    }
    if Publish(s, r, age).1.Published? {
      forall m | m in s.db.messages ensures m < s.db.nextMessage { assert MessageWf(s.db, s.now, m); }
      KeysAreFresh(s.db, s.now);
      InsertFansOut(s.db, NewMessage(s.db.topics[r.topic], r, s.now - age));
      forall i | i in s.db.deliveries ensures i < s.db.nextDelivery { assert RowWf(s.db, i); }
      InsertMessageFrame(s.db, NewMessage(s.db.topics[r.topic], r, s.now - age));
    }
  }

  lemma HeadersAllowed(headers: map<string, string>)
    ensures headers.Keys * FORBIDDEN_HEADERS == {} <==>
            "authorization" !in headers && "cookie" !in headers && "set-cookie" !in headers
  {
    forall k | k in FORBIDDEN_HEADERS && k in headers ensures k in headers.Keys * FORBIDDEN_HEADERS { }
    if headers.Keys * FORBIDDEN_HEADERS != {} {
      var k :| k in headers.Keys * FORBIDDEN_HEADERS;
      assert k == "authorization" || k == "cookie" || k == "set-cookie";
    } else {
      assert "authorization" in FORBIDDEN_HEADERS && "cookie" in FORBIDDEN_HEADERS && "set-cookie" in FORBIDDEN_HEADERS;
    }
  }

  /** No sequence hands out a key that is in use. */
  ghost predicate FreshKeys(db: Db) {
    && (forall id | id in db.deliveries :: id < db.nextDelivery && db.deliveries[id].messageId < db.nextMessage)
    && (forall sub | sub in db.subscriptions :: sub < db.nextSubscription)
  }

  lemma KeysAreFresh(db: Db, now: Time)
    requires Wf(db, now)
    ensures FreshKeys(db)
  {
    forall id | id in db.deliveries ensures id < db.nextDelivery && db.deliveries[id].messageId < db.nextMessage {
      assert RowWf(db, id) && MessageWf(db, now, db.deliveries[id].messageId);
    }
    forall sub | sub in db.subscriptions ensures sub < db.nextSubscription { assert SubscriptionWf(db, sub); }
  }

  lemma InsertFansOut(db: Db, m: Message)
    requires FreshKeys(db)
    ensures FannedOut(db, InsertMessage(db, m), db.nextMessage, m.topicId)
  {
    var mid := db.nextMessage;
    var db1 := db.(messages := db.messages[mid := m], nextMessage := mid + 1);
    FanOutFacts(db1, mid, m.topicId);
    FanOutOnce(db1, mid, m.topicId, db.nextSubscription);
    var r := InsertMessage(db, m);
    forall sub | Subscribed(db, sub, m.topicId) ensures exists id :: id !in db.deliveries && TheDelivery(r, mid, sub, id) {
      FanOutCovers(db1, mid, m.topicId, db.nextSubscription, sub);
      var id :| id in r.deliveries && r.deliveries[id].messageId == mid && r.deliveries[id].subscriptionId == sub;
      assert id !in db.deliveries && TheDelivery(r, mid, sub, id);
    }
  }
}
