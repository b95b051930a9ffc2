/**
 First-lease order within a subscription.

 The promise is order among messages of one partition key and one priority; `InOrder` is that
 promise, with the exact condition under which it is kept.  `InTurn` is a stronger order over
 all keys, open picks included, which a simple discipline of the callers keeps.
 */
module Fifo {
  import opened Common
  import opened QueueSpec
  import opened Tables
  import opened Scheduler
  import opened Steps

  /**
   Delivery a should first be leased no later than b: same subscription, a's priority at least
   b's, a's message published first and available no later than b's was published or available.
   */
  ghost predicate Ahead(db: Db, a: nat, b: nat) {
    && a in db.deliveries && b in db.deliveries
    && db.deliveries[a].subscriptionId == db.deliveries[b].subscriptionId
    && db.deliveries[a].messageId in db.messages && db.deliveries[b].messageId in db.messages
    && var m, n := db.messages[db.deliveries[a].messageId], db.messages[db.deliveries[b].messageId];
    && m.priority >= n.priority
    && (m.enqueuedAt < n.enqueuedAt || (m.enqueuedAt == n.enqueuedAt && db.deliveries[a].messageId < db.deliveries[b].messageId))
    && (m.availableAt <= n.enqueuedAt || m.availableAt <= n.availableAt)
  }

  ghost predicate NeverLeased(db: Db, id: nat) {
    id in db.deliveries && db.deliveries[id].attemptCount == 0
  }

  ghost predicate ExpiredBy(db: Db, id: nat, now: Time) {
    id in db.deliveries && db.deliveries[id].messageId in db.messages && db.messages[db.deliveries[id].messageId].expiresAt <= now
  }

  /** Delivery a is ahead of b and still to be leased for the first time. */
  ghost predicate Waiting(s: System, a: nat, b: nat) {
    Ahead(s.db, a, b) && NeverLeased(s.db, a) && !ExpiredBy(s.db, a, s.now)
  }

  /** Whoever is behind has not been leased first, nor is about to be. */
  ghost predicate InTurn(s: System) {
    && (forall a, b | Waiting(s, a, b) :: NeverLeased(s.db, b))
    && (forall tx, a, b | tx in s.open && b in s.open[tx].picked && Waiting(s, a, b) && NeverLeased(s.db, b) ::
          a in s.open[tx].picked)
  }

  /** Rows that were never leased are pending, or were swept away as expired. */
  ghost predicate UnleasedPending(s: System) {
    forall id | NeverLeased(s.db, id) && !ExpiredBy(s.db, id, s.now) :: s.db.deliveries[id].state == Pending
  }

  lemma UnleasedStep(s: System, step: Step)
    requires Inv(s) && UnleasedPending(s)
    ensures UnleasedPending(Apply(Guarded, s, step))
  {
    var s' := Apply(Guarded, s, step);
    StepGrows(Guarded, s, step);
    forall id | NeverLeased(s'.db, id) && !ExpiredBy(s'.db, id, s'.now) ensures s'.db.deliveries[id].state == Pending {
      if id in s.db.deliveries {
        assert RowWf(s.db, id);
        RowChange(Guarded, s, step, id);
        TablesKept(Guarded, s, step);
        assert RowWf(s'.db, id);
      } else {
        NewRow(Guarded, s, step, id);
      }
    }
  }

  /** Outside publishing, only dead letters' copies join the messages, and they are made now. */
  lemma NewMessageTime(policy: NackPolicy, s: System, step: Step, m: nat)
    requires Inv(s) && !step.DoPublish?
    requires m in Apply(policy, s, step).db.messages && m !in s.db.messages
    ensures s.db.nextMessage <= m
    ensures var row := Apply(policy, s, step).db.messages[m];
      step.DoNack? && row.enqueuedAt == s.now
  {
    StepGrows(policy, s, step);
    forall i | i in s.db.deliveries ensures i < s.db.nextDelivery { assert RowWf(s.db, i); }
    if step.DoNack? {
      NackIsTransaction(policy, s, step);
      if Apply(policy, s, step).db != s.db {
        NackMessage(s.db, step.id, step.reason, step.requeue, s.now, step.fault);
      }
    } else if step.DoBegin? || step.DoAbort? || step.DoTick? {
      TablesUntouched(policy, s, step);
    } else {
      NoNewMessages(policy, s, step);
    }
  }

  lemma NoNewMessages(policy: NackPolicy, s: System, step: Step)
    requires !step.DoPublish? && !step.DoNack? && !step.DoBegin? && !step.DoAbort? && !step.DoTick?
    ensures Apply(policy, s, step).db.messages == s.db.messages
  {
    if step.DoRetention? {
      SweepRows(s.db, s.now, s.db.nextDelivery);
    } else if step.DoCommit? || step.DoAck? || step.DoExtend? {
      RowStepRowsOnly(policy, s, step);
    } else {
    }
  }

  lemma NackMessage(db: Db, id: nat, reason: string, requeue: bool, now: Time, fault: Fault)
    requires JoinsNack(db, id) && (forall i | i in db.deliveries :: i < db.nextDelivery)
    ensures var r := NackTransaction(db, id, reason, requeue, now, fault).0;
      forall m | m in r.messages && m !in db.messages :: r.messages[m].enqueuedAt == now
  {
    var d := db.deliveries[id];
    var sub := db.subscriptions[d.subscriptionId];
    var moved := InsertDeadLetter(SetRow(db, id, NackRow(d, sub.maxAttempts, reason, requeue, now)), id, now);
    if sub.dlqTopicId.Some? && sub.dlqTopicId.value in moved.topics {
      InsertMessageFrame(moved, NewMessage(moved.topics[sub.dlqTopicId.value],
                                           DlqRequest(moved.messages[d.messageId], sub.dlqTopicId.value), now));
    }
  }

  /** A dead letter's copy is ahead of nobody. */
  lemma NewIsBehind(policy: NackPolicy, s: System, step: Step, a: nat, b: nat)
    requires Inv(s) && !step.DoPublish? && b in s.db.deliveries && b in Apply(policy, s, step).db.deliveries
    requires a in Apply(policy, s, step).db.deliveries && a !in s.db.deliveries
    ensures !Ahead(Apply(policy, s, step).db, a, b)
  {
    var s' := Apply(policy, s, step);
    NewRow(policy, s, step, a);
    TablesKept(policy, s, step);
    assert RowWf(s'.db, a) && RowWf(s'.db, b);
    NewMessageTime(policy, s, step, s'.db.deliveries[a].messageId);
    SameMessage(policy, s, step, b);
    assert RowWf(s.db, b);
    assert MessageWf(s.db, s.now, s.db.deliveries[b].messageId);
  }

  lemma AheadIsOld(policy: NackPolicy, s: System, step: Step, a: nat, b: nat)
    requires Inv(s) && !step.DoPublish?
    requires Ahead(Apply(policy, s, step).db, a, b) && b in s.db.deliveries
    ensures a in s.db.deliveries && Ahead(s.db, a, b)
  {
    if a in s.db.deliveries {
      SameMessage(policy, s, step, a);
      SameMessage(policy, s, step, b);
    } else {
      NewIsBehind(policy, s, step, a, b);
    }
  }

  lemma SameMessage(policy: NackPolicy, s: System, step: Step, id: nat)
    requires Inv(s) && id in s.db.deliveries && id in Apply(policy, s, step).db.deliveries
    ensures var s' := Apply(policy, s, step);
      var d, d' := s.db.deliveries[id], s'.db.deliveries[id];
      && d'.messageId == d.messageId && d'.subscriptionId == d.subscriptionId
      && d.messageId in s.db.messages && d.messageId in s'.db.messages
      && s'.db.messages[d.messageId] == s.db.messages[d.messageId]
      && d.attemptCount <= d'.attemptCount
  {
    RowChange(policy, s, step, id);
    StepGrows(policy, s, step);
    assert RowWf(s.db, id);
  }

  /** The rows a step leases together were picked together, so nobody in them overtakes. */
  lemma QuietInTurn(s: System, step: Step)
    requires Inv(s) && InTurn(s) && !step.DoBegin? && !step.DoPublish?
    ensures InTurn(Apply(Guarded, s, step))
  {
    var s' := Apply(Guarded, s, step);
    OnlyTicksMoveTime(Guarded, s, step);
    forall a, b | Waiting(s', a, b) ensures NeverLeased(s'.db, b) {
      RowsInTurn(s, step, a, b);
    }
    OpenAfter(Guarded, s, step);
    forall tx, a, b | tx in s'.open && b in s'.open[tx].picked && Waiting(s', a, b) && NeverLeased(s'.db, b)
      ensures a in s'.open[tx].picked
    {
      PicksInTurn(s, step, tx, a, b);
    }
  }

  lemma Earlier(policy: NackPolicy, s: System, step: Step, a: nat)
    requires Inv(s) && a in s.db.deliveries
    requires NeverLeased(Apply(policy, s, step).db, a) && !ExpiredBy(Apply(policy, s, step).db, a, Apply(policy, s, step).now)
    ensures NeverLeased(s.db, a) && !ExpiredBy(s.db, a, s.now)
  {
    SameMessage(policy, s, step, a);
    OnlyTicksMoveTime(policy, s, step);
  }

  lemma RowsInTurn(s: System, step: Step, a: nat, b: nat)
    requires Inv(s) && InTurn(s) && !step.DoPublish?
    requires Waiting(Apply(Guarded, s, step), a, b)
    ensures NeverLeased(Apply(Guarded, s, step).db, b)
  {
    if b in s.db.deliveries {
      AheadIsOld(Guarded, s, step, a, b);
      Earlier(Guarded, s, step, a);
      assert Waiting(s, a, b);
      RowChange(Guarded, s, step, a);
      RowChange(Guarded, s, step, b);
    } else {
      NewRow(Guarded, s, step, b);
    }
  }

  lemma PicksInTurn(s: System, step: Step, tx: nat, a: nat, b: nat)
    requires Inv(s) && InTurn(s) && !step.DoBegin? && !step.DoPublish?
    requires var s' := Apply(Guarded, s, step);
      tx in s'.open && b in s'.open[tx].picked && Waiting(s', a, b) && NeverLeased(s'.db, b)
    ensures a in Apply(Guarded, s, step).open[tx].picked
  {
    OpenAfter(Guarded, s, step);
    assert TxWf(s, tx);
    assert Eligible(s.db, s.open[tx].subscription, s.open[tx].at, b);
    AheadIsOld(Guarded, s, step, a, b);
    Earlier(Guarded, s, step, a);
    SameMessage(Guarded, s, step, b);
    assert Waiting(s, a, b) && NeverLeased(s.db, b);
  }

  /**
   A pick overtakes exactly when it takes a row that has another transaction's lock ahead of it
   on a row never leased: SKIP LOCKED passes over such a row.
   */
  lemma OvertakesOnlyLocks(s: System, sub: nat, limit: nat)
    requires Inv(s) && UnleasedPending(s)
    ensures var ids := Pick(s.db, LockedIds(s.open), sub, s.now, limit);
      && (forall a, b | b in ids && Waiting(s, a, b) :: a !in ids <==> a in LockedIds(s.open))
      && ((exists a: nat, b: nat :: b in ids && Waiting(s, a, b) && a !in ids)
          <==> exists a: nat, b: nat :: b in ids && Waiting(s, a, b) && a in LockedIds(s.open))
  {
    var ids := Pick(s.db, LockedIds(s.open), sub, s.now, limit);
    PickExact(s.db, s.now, LockedIds(s.open), sub, s.now, limit);
    forall a, b | b in ids && Waiting(s, a, b) ensures a !in ids <==> a in LockedIds(s.open) {
      assert RowWf(s.db, a) && RowWf(s.db, b);
      assert MessageWf(s.db, s.now, s.db.deliveries[b].messageId);
      assert !ServedBefore(s.db, b, a);
      assert a !in LockedIds(s.open) ==> Available(s.db, LockedIds(s.open), sub, s.now, a);
    }
  }

  /** The message a publish is about to add would have been ahead of b, which has been or is being leased without it. */
  ghost predicate ArrivesLate(s: System, m: Message, b: nat) {
    && b in s.db.deliveries && s.db.deliveries[b].subscriptionId in s.db.subscriptions && s.db.deliveries[b].messageId in s.db.messages
    && s.db.subscriptions[s.db.deliveries[b].subscriptionId].topicId == m.topicId
    && (s.db.deliveries[b].attemptCount > 0 || b in LockedIds(s.open))
    && var n := s.db.messages[s.db.deliveries[b].messageId];
    && m.priority >= n.priority && m.enqueuedAt < n.enqueuedAt
    && (m.availableAt <= n.enqueuedAt || m.availableAt <= n.availableAt)
  }

  /** A publish puts somebody out of turn exactly when its message is unexpired and arrives late. */
  lemma LatePublish(s: System, r: PublishRequest, age: nat)
    requires Inv(s) && InTurn(s)
    requires Publish(s, r, age).1.Published?
    ensures var m := NewMessage(s.db.topics[r.topic], r, s.now - age);
      !InTurn(Publish(s, r, age).0) <==> m.expiresAt > s.now && exists b :: ArrivesLate(s, m, b)
  {
    var m := NewMessage(s.db.topics[r.topic], r, s.now - age);
    var s' := Publish(s, r, age).0;
    PublishedRows(s, m);
    if m.expiresAt > s.now && exists b :: ArrivesLate(s, m, b) {
      var b :| ArrivesLate(s, m, b);
      LateIsOutOfTurn(s, m, b);
    }
    if !(m.expiresAt > s.now && exists b :: ArrivesLate(s, m, b)) {
      forall a, b | Waiting(s', a, b) ensures NeverLeased(s'.db, b) {
        PublishTurns(s, m, a, b);
      }
      forall tx, a, b | tx in s'.open && b in s'.open[tx].picked && Waiting(s', a, b) && NeverLeased(s'.db, b)
        ensures a in s'.open[tx].picked
      {
        PublishTurns(s, m, a, b);
        assert b in LockedIds(s.open);
      }
    }
  }

  /** The tables after a publish, row by row. */
  lemma PublishedRows(s: System, m: Message)
    requires Inv(s)
    ensures var r := InsertMessage(s.db, m);
      && r.messages == s.db.messages[s.db.nextMessage := m] && s.db.nextMessage !in s.db.messages
      && (forall id | id in s.db.deliveries :: id in r.deliveries && r.deliveries[id] == s.db.deliveries[id])
      && (forall id | id in s.db.deliveries :: s.db.deliveries[id].messageId in s.db.messages
            && s.db.deliveries[id].messageId < s.db.nextMessage)
      && (forall id | id in r.deliveries && id !in s.db.deliveries ::
            && r.deliveries[id] == NewDelivery(s.db.nextMessage, r.deliveries[id].subscriptionId)
            && Subscribed(s.db, r.deliveries[id].subscriptionId, m.topicId))
  {
    forall id | id in s.db.deliveries
      ensures id < s.db.nextDelivery && s.db.deliveries[id].messageId in s.db.messages && s.db.deliveries[id].messageId < s.db.nextMessage
    {
      assert RowWf(s.db, id) && MessageWf(s.db, s.now, s.db.deliveries[id].messageId);
    }
    forall n | n in s.db.messages ensures n < s.db.nextMessage { assert MessageWf(s.db, s.now, n); }
    FanOutFacts(s.db.(messages := s.db.messages[s.db.nextMessage := m], nextMessage := s.db.nextMessage + 1),
                s.db.nextMessage, m.topicId);
  }

  /** Whoever is ahead after a publish was ahead before, or is the new message, arriving late. */
  lemma PublishTurns(s: System, m: Message, a: nat, b: nat)
    requires Inv(s)
    requires var s' := s.(db := InsertMessage(s.db, m)); Waiting(s', a, b)
    ensures (a in s.db.deliveries && b in s.db.deliveries && Waiting(s, a, b))
      || (b !in s.db.deliveries)
      || (m.expiresAt > s.now && b in s.db.deliveries
          && (s.db.deliveries[b].attemptCount > 0 || b in LockedIds(s.open) ==> ArrivesLate(s, m, b)))
    ensures b !in s.db.deliveries ==> NeverLeased(InsertMessage(s.db, m), b) && b !in LockedIds(s.open)
  {
    PublishedRows(s, m);
    assert b in s.db.deliveries ==> RowWf(s.db, b);
    if b in LockedIds(s.open) { LockedIsIdle(s, b); }
  }

  /** The publish gives b's subscription a delivery that now waits ahead of b, and nobody has picked it. */
  lemma LateArrival(s: System, m: Message, b: nat) returns (a: nat)
    requires Inv(s) && MayInsert(s.db, s.now, m) && m.expiresAt > s.now && ArrivesLate(s, m, b)
    ensures a !in s.db.deliveries && Waiting(s.(db := InsertMessage(s.db, m)), a, b)
    ensures InsertMessage(s.db, m).deliveries[a].messageId == s.db.nextMessage
  {
    var db' := InsertMessage(s.db, m);
    var sub := s.db.deliveries[b].subscriptionId;
    PublishedRows(s, m);
    assert HasDelivery(db', s.db.nextMessage, sub) by {
      InsertMessageWf(s.db, s.now, m);
      assert SubscriptionWf(s.db, sub);
      assert Owed(db', s.db.nextMessage, sub);
    }
    a :| a in db'.deliveries && db'.deliveries[a].messageId == s.db.nextMessage && db'.deliveries[a].subscriptionId == sub;
  }

  lemma LateIsOutOfTurn(s: System, m: Message, b: nat)
    requires Inv(s) && MayInsert(s.db, s.now, m) && m.expiresAt > s.now && ArrivesLate(s, m, b)
    ensures !InTurn(s.(db := InsertMessage(s.db, m)))
  {
    var a := LateArrival(s, m, b);
    KeepsRow(s, m, b);
    if s.db.deliveries[b].attemptCount == 0 {
      var tx :| tx in s.open && b in s.open[tx].picked;
      assert a !in s.open[tx].picked by { assert TxWf(s, tx); }
    }
  }

  lemma KeepsRow(s: System, m: Message, id: nat)
    requires Inv(s) && id in s.db.deliveries
    ensures id in InsertMessage(s.db, m).deliveries && InsertMessage(s.db, m).deliveries[id] == s.db.deliveries[id]
  {
    PublishedRows(s, m);
  }

  // ----- In turn, step by step and over every run -----

  /** What the next pick takes, read from the tables and the locks before it. */
  ghost predicate WillTake(s: System, sub: nat, limit: nat, id: nat) {
    Available(s.db, LockedIds(s.open), sub, s.now, id) && Rank(s.db, LockedIds(s.open), sub, s.now, id) < limit
  }

  /** An accepted Consume will take a row while somebody else has locked one waiting ahead of it. */
  ghost predicate PassesLock(s: System, step: Step) {
    && step.DoBegin? && step.tx !in s.open && step.subscription in s.db.subscriptions && 1 <= step.limit <= MAX_BATCH
    && exists a: nat, b: nat :: a in LockedIds(s.open) && Waiting(s, a, b) && WillTake(s, step.subscription, step.limit, b)
  }

  /** An accepted publish brings an unexpired message behind a lease or a pick that it should have preceded. */
  ghost predicate Late(s: System, step: Step) {
    step.DoPublish? && LateRequest(s, step.request, step.age)
  }

  ghost predicate LateRequest(s: System, r: PublishRequest, age: nat) {
    && r.topic in s.db.topics && 0 <= r.priority <= s.db.topics[r.topic].maxPriority
    && r.headers.Keys * FORBIDDEN_HEADERS == {}
    && var m := NewMessage(s.db.topics[r.topic], r, s.now - age);
    && m.expiresAt > s.now && exists b :: ArrivesLate(s, m, b)
  }

  lemma PublishInTurn(s: System, r: PublishRequest, age: nat)
    requires Inv(s) && InTurn(s)
    ensures InTurn(Publish(s, r, age).0) <==> !LateRequest(s, r, age)
  {
    if Publish(s, r, age).1.Published? { LatePublish(s, r, age); }
  }

  lemma Taken(s: System, sub: nat, limit: nat, id: nat)
    requires Inv(s)
    ensures id in Pick(s.db, LockedIds(s.open), sub, s.now, limit) <==> WillTake(s, sub, limit, id)
  {
    if id in Pick(s.db, LockedIds(s.open), sub, s.now, limit) {
      PickExact(s.db, s.now, LockedIds(s.open), sub, s.now, limit);
    }
    if Available(s.db, LockedIds(s.open), sub, s.now, id) {
      PickedByRank(s.db, s.now, LockedIds(s.open), sub, s.now, limit, id);
    }
  }

  /** A new pick is in turn exactly when it takes, with each row, all that wait ahead of it. */
  lemma PickTurns(s: System, tx: nat, t: ConsumeTx)
    requires InTurn(s) && tx !in s.open
    ensures InTurn(s.(open := s.open[tx := t])) <==> !(exists a: nat, b: nat :: b in t.picked && Waiting(s, a, b) && a !in t.picked)
  {
    var s' := s.(open := s.open[tx := t]);
    forall a, b ensures Waiting(s', a, b) <==> Waiting(s, a, b) { }
    if a: nat, b: nat :| b in t.picked && Waiting(s, a, b) && a !in t.picked {
      assert NeverLeased(s'.db, b) && b in s'.open[tx].picked;
    }
  }

  lemma BeginTurns(s: System, step: Step)
    requires Inv(s) && UnleasedPending(s) && InTurn(s) && step.DoBegin?
    ensures InTurn(Apply(Guarded, s, step)) <==> !PassesLock(s, step)
  {
    if step.tx !in s.open && step.subscription in s.db.subscriptions && 1 <= step.limit <= MAX_BATCH {
      var ids := Pick(s.db, LockedIds(s.open), step.subscription, s.now, step.limit);
      var visibility := s.db.subscriptions[step.subscription].visibilityTimeout;
      PickTurns(s, step.tx, ConsumeTx(step.subscription, step.consumer, s.now, visibility, ids));
      OvertakesOnlyLocks(s, step.subscription, step.limit);
      forall id ensures id in ids <==> WillTake(s, step.subscription, step.limit, id) {
        Taken(s, step.subscription, step.limit, id);
      }
    }
  }

  /**
   A step puts somebody out of turn if and only if it is a pick that passes over a lock, or a
   publish that comes late.
   */
  lemma InTurnKeptIff(s: System, step: Step)
    requires Inv(s) && UnleasedPending(s) && InTurn(s)
    ensures InTurn(Apply(Guarded, s, step)) <==> !PassesLock(s, step) && !Late(s, step)
  {
    if step.DoBegin? {
      BeginTurns(s, step);
    } else if step.DoPublish? {
      PublishInTurn(s, step.request, step.age);
    } else {
      QuietInTurn(s, step);
    }
  }

  lemma {:induction false} UnleasedRun(s: System, steps: seq<Step>)
    requires Inv(s) && UnleasedPending(s)
    ensures Inv(Run(Guarded, s, steps)) && UnleasedPending(Run(Guarded, s, steps))
    decreases |steps|
  {
    if steps != [] {
      StepKeepsInv(Guarded, s, steps[0]);
      UnleasedStep(s, steps[0]);
      UnleasedRun(Apply(Guarded, s, steps[0]), steps[1..]);
    }
  }

  ghost predicate AlwaysInTurn(s: System, steps: seq<Step>)
    decreases |steps|
  {
    InTurn(s) && (steps != [] ==> AlwaysInTurn(Apply(Guarded, s, steps[0]), steps[1..]))
  }

  ghost predicate NeverPasses(s: System, steps: seq<Step>)
    decreases |steps|
  {
    steps != [] ==> !PassesLock(s, steps[0]) && !Late(s, steps[0]) && NeverPasses(Apply(Guarded, s, steps[0]), steps[1..])
  }

  lemma {:induction false} TurnsRun(s: System, steps: seq<Step>)
    requires Inv(s) && UnleasedPending(s) && InTurn(s)
    ensures AlwaysInTurn(s, steps) <==> NeverPasses(s, steps)
    decreases |steps|
  {
    if steps != [] {
      StepKeepsInv(Guarded, s, steps[0]);
      UnleasedStep(s, steps[0]);
      InTurnKeptIff(s, steps[0]);
      if InTurn(Apply(Guarded, s, steps[0])) { TurnsRun(Apply(Guarded, s, steps[0]), steps[1..]); }
    }
  }

  /** Over every run, overlapping ones included, nobody is ever out of turn if and only if no step of it is of those two kinds. */
  lemma TurnsKeptIff(start: Time, steps: seq<Step>)
    ensures AlwaysInTurn(Init(start), steps) <==> NeverPasses(Init(start), steps)
  {
    InitInv(start);
    TurnsRun(Init(start), steps);
  }

  // ----- The promise: order within one key and one priority -----

  ghost predicate SameLane(db: Db, a: nat, b: nat) {
    && a in db.deliveries && b in db.deliveries
    && db.deliveries[a].messageId in db.messages && db.deliveries[b].messageId in db.messages
    && var m, n := db.messages[db.deliveries[a].messageId], db.messages[db.deliveries[b].messageId];
    m.partitionKey.Some? && m.partitionKey == n.partitionKey && m.priority == n.priority
  }

  /** Nobody has been leased before an unexpired, never leased predecessor of the same key and priority. */
  ghost predicate InOrder(s: System) {
    forall a, b | Waiting(s, a, b) && SameLane(s.db, a, b) :: NeverLeased(s.db, b)
  }

  /** A Consume is about to commit a row without the one that waits ahead of it in its lane. */
  ghost predicate LeasesAhead(s: System, step: Step) {
    && step.DoCommit? && step.tx in s.open && AttemptsFit(s.db, s.open[step.tx].picked)
    && exists a: nat, b: nat ::
         b in s.open[step.tx].picked && a !in s.open[step.tx].picked && Waiting(s, a, b) && SameLane(s.db, a, b)
  }

  /** The message about to be added belongs in the lane of b, ahead of it, and b has been leased. */
  ghost predicate ArrivesBehind(s: System, m: Message, b: nat) {
    && ArrivesLate(s, m, b) && s.db.deliveries[b].attemptCount > 0
    && var n := s.db.messages[s.db.deliveries[b].messageId];
    m.partitionKey.Some? && m.partitionKey == n.partitionKey && m.priority == n.priority
  }

  /** An accepted publish brings an unexpired message that should have preceded a lease already given. */
  ghost predicate BehindLease(s: System, r: PublishRequest, age: nat) {
    && r.topic in s.db.topics && 0 <= r.priority <= s.db.topics[r.topic].maxPriority
    && r.headers.Keys * FORBIDDEN_HEADERS == {}
    && var m := NewMessage(s.db.topics[r.topic], r, s.now - age);
    && m.expiresAt > s.now && exists b :: ArrivesBehind(s, m, b)
  }

  ghost predicate BreaksOrder(s: System, step: Step) {
    LeasesAhead(s, step) || (step.DoPublish? && BehindLease(s, step.request, step.age))
  }

  lemma CommitOrder(policy: NackPolicy, s: System, step: Step)
    requires InOrder(s) && step.DoCommit?
    ensures InOrder(Apply(policy, s, step)) <==> !LeasesAhead(s, step)
  {
    var s' := Apply(policy, s, step);
    if step.tx in s.open && AttemptsFit(s.db, s.open[step.tx].picked) {
      var ids := s.open[step.tx].picked;
      forall a, b ensures Waiting(s', a, b) <==> Waiting(s, a, b) && a !in ids { }
      forall a, b ensures SameLane(s'.db, a, b) <==> SameLane(s.db, a, b) { }
      if a: nat, b: nat :| b in ids && a !in ids && Waiting(s, a, b) && SameLane(s.db, a, b) {
        assert Waiting(s', a, b) && SameLane(s'.db, a, b) && !NeverLeased(s'.db, b);
      }
    } else {
      forall a, b ensures Waiting(s', a, b) <==> Waiting(s, a, b) { }
    }
  }

  lemma BehindIsOutOfOrder(s: System, m: Message, b: nat)
    requires Inv(s) && MayInsert(s.db, s.now, m) && m.expiresAt > s.now && ArrivesBehind(s, m, b)
    ensures !InOrder(s.(db := InsertMessage(s.db, m)))
  {
    var a := LateArrival(s, m, b);
    PublishedRows(s, m);
    assert SameLane(InsertMessage(s.db, m), a, b);
  }

  /** After an insert, whoever is out of order was so before, or has just been preceded. */
  lemma InsertOrder(s: System, m: Message, a: nat, b: nat)
    requires Inv(s) && InOrder(s)
    requires Waiting(s.(db := InsertMessage(s.db, m)), a, b) && SameLane(InsertMessage(s.db, m), a, b)
    ensures NeverLeased(InsertMessage(s.db, m), b) || (m.expiresAt > s.now && ArrivesBehind(s, m, b))
  {
    PublishTurns(s, m, a, b);
    PublishedRows(s, m);
    if a in s.db.deliveries && b in s.db.deliveries {
      assert SameLane(s.db, a, b);
    }
  }

  lemma PublishOrder(s: System, r: PublishRequest, age: nat)
    requires Inv(s) && InOrder(s)
    ensures InOrder(Publish(s, r, age).0) <==> !BehindLease(s, r, age)
  {
    if Publish(s, r, age).1.Published? {
      var m := NewMessage(s.db.topics[r.topic], r, s.now - age);
      if BehindLease(s, r, age) {
        var b :| ArrivesBehind(s, m, b);
        BehindIsOutOfOrder(s, m, b);
      } else {
        var s' := Publish(s, r, age).0;
        forall a, b | Waiting(s', a, b) && SameLane(s'.db, a, b) ensures NeverLeased(s'.db, b) {
          InsertOrder(s, m, a, b);
        }
      }
    }
  }

  lemma OtherOrder(policy: NackPolicy, s: System, step: Step, a: nat, b: nat)
    requires Inv(s) && InOrder(s) && !step.DoCommit? && !step.DoPublish?
    requires Waiting(Apply(policy, s, step), a, b) && SameLane(Apply(policy, s, step).db, a, b)
    ensures NeverLeased(Apply(policy, s, step).db, b)
  {
    if b in s.db.deliveries {
      AheadIsOld(policy, s, step, a, b);
      Earlier(policy, s, step, a);
      SameMessage(policy, s, step, a);
      SameMessage(policy, s, step, b);
      assert Waiting(s, a, b) && SameLane(s.db, a, b);
      RowChange(policy, s, step, b);
    } else {
      NewRow(policy, s, step, b);
    }
  }

  /**
   First-lease order, exactly and under either Nack: a step breaks it if and only if it commits a
   row without the predecessor that waits for its first lease, or publishes a message that should
   have preceded a lease already given.
   */
  lemma InOrderKeptIff(policy: NackPolicy, s: System, step: Step)
    requires Inv(s) && InOrder(s)
    ensures InOrder(Apply(policy, s, step)) <==> !BreaksOrder(s, step)
  {
    if step.DoCommit? {
      CommitOrder(policy, s, step);
    } else if step.DoPublish? {
      PublishOrder(s, step.request, step.age);
    } else {
      var s' := Apply(policy, s, step);
      forall a, b | Waiting(s', a, b) && SameLane(s'.db, a, b) ensures NeverLeased(s'.db, b) {
        OtherOrder(policy, s, step, a, b);
      }
    }
  }

  ghost predicate AlwaysInOrder(policy: NackPolicy, s: System, steps: seq<Step>)
    decreases |steps|
  {
    InOrder(s) && (steps != [] ==> AlwaysInOrder(policy, Apply(policy, s, steps[0]), steps[1..]))
  }

  ghost predicate NeverBreaksOrder(policy: NackPolicy, s: System, steps: seq<Step>)
    decreases |steps|
  {
    steps != [] ==> !BreaksOrder(s, steps[0]) && NeverBreaksOrder(policy, Apply(policy, s, steps[0]), steps[1..])
  }

  lemma {:induction false} OrderRun(policy: NackPolicy, s: System, steps: seq<Step>)
    requires Inv(s) && InOrder(s)
    ensures AlwaysInOrder(policy, s, steps) <==> NeverBreaksOrder(policy, s, steps)
    decreases |steps|
  {
    if steps != [] {
      StepKeepsInv(policy, s, steps[0]);
      InOrderKeptIff(policy, s, steps[0]);
      if InOrder(Apply(policy, s, steps[0])) { OrderRun(policy, Apply(policy, s, steps[0]), steps[1..]); }
    }
  }

  /** Over every run, overlapping or not, the promised order holds throughout if and only if no step of it is of those two kinds. */
  lemma OrderKeptIff(policy: NackPolicy, start: Time, steps: seq<Step>)
    ensures AlwaysInOrder(policy, Init(start), steps) <==> NeverBreaksOrder(policy, Init(start), steps)
  {
    InitInv(start);
    OrderRun(policy, Init(start), steps);
  }

  /** Being in turn is enough for the promise, now and at the next step. */
  lemma InTurnKeepsOrder(s: System, step: Step)
    requires Inv(s) && UnleasedPending(s) && InTurn(s) && !PassesLock(s, step) && !Late(s, step)
    ensures InOrder(s) && !BreaksOrder(s, step)
  {
    InTurnKeptIff(s, step);
    InOrderKeptIff(Guarded, s, step);
  }

  // ----- A discipline that keeps the order -----

  /**
   A Consume starts only when no other Consume on the subscription holds locks, and a publish
   commits only after those of its topic that started earlier.
   */
  ghost predicate Serial(s: System, step: Step) {
    && (step.DoBegin? ==> forall tx | tx in s.open && s.open[tx].subscription == step.subscription :: s.open[tx].picked == [])
    && (step.DoPublish? ==>
          forall m | m in s.db.messages && s.db.messages[m].topicId == step.request.topic ::
            s.db.messages[m].enqueuedAt <= s.now - step.age)
  }

  ghost predicate SerialRun(s: System, steps: seq<Step>)
    decreases |steps|
  {
    steps == [] || (Serial(s, steps[0]) && SerialRun(Apply(Guarded, s, steps[0]), steps[1..]))
  }

  lemma Unlocked(s: System, sub: nat, id: nat)
    requires Inv(s) && id in s.db.deliveries && s.db.deliveries[id].subscriptionId == sub
    requires forall tx | tx in s.open && s.open[tx].subscription == sub :: s.open[tx].picked == []
    ensures id !in LockedIds(s.open)
  {
    forall tx | tx in s.open ensures id !in s.open[tx].picked {
      assert TxWf(s, tx);
      if s.open[tx].subscription != sub {
        assert id in s.open[tx].picked ==> Eligible(s.db, s.open[tx].subscription, s.open[tx].at, id);
      }
    }
  }

  lemma SerialPassesNobody(s: System, step: Step)
    requires Inv(s) && Serial(s, step)
    ensures !PassesLock(s, step) && !Late(s, step)
  {
    if step.DoBegin? && 1 <= step.limit {
      forall a: nat, b: nat | Waiting(s, a, b) && WillTake(s, step.subscription, step.limit, b) ensures a !in LockedIds(s.open) {
        Unlocked(s, step.subscription, a);
      }
    } else if step.DoPublish? && step.request.topic in s.db.topics {
      var m := NewMessage(s.db.topics[step.request.topic], step.request, s.now - step.age);
      forall b ensures !ArrivesLate(s, m, b) {
        if b in s.db.deliveries { assert RowWf(s.db, b); }
      }
    }
  }

  lemma {:induction false} SerialRunInTurn(s: System, steps: seq<Step>)
    requires Inv(s) && UnleasedPending(s) && InTurn(s) && SerialRun(s, steps)
    ensures InTurn(Run(Guarded, s, steps))
    decreases |steps|
  {
    if steps != [] {
      StepKeepsInv(Guarded, s, steps[0]);
      UnleasedStep(s, steps[0]);
      SerialPassesNobody(s, steps[0]);
      InTurnKeptIff(s, steps[0]);
      SerialRunInTurn(Apply(Guarded, s, steps[0]), steps[1..]);
    }
  }

  /**
   No overtaking: when Consumes on a subscription do not overlap and publishes on a topic commit
   in the order they started, a delivery has never been leased while one ahead of it is unexpired
   and has never been leased.
   */
  lemma NoOvertaking(start: Time, steps: seq<Step>, a: nat, b: nat)
    requires SerialRun(Init(start), steps)
    ensures var s := Run(Guarded, Init(start), steps);
      Waiting(s, a, b) ==> NeverLeased(s.db, b)
  {
    InitInv(start);
    SerialRunInTurn(Init(start), steps);
  }
}
