/** How deliveries end: terminal states, dead letters, and that nothing is lost on the way. */
module Outcomes {
  import opened Common
  import opened QueueSpec
  import opened Tables
  import opened Scheduler
  import opened Steps
  import opened Draining
  import opened Conservation

  // ----- Terminal states -----

  /** With the guard on Nack, a step leaves an acked or dead delivery exactly as it is. */
  lemma TerminalStep(s: System, step: Step, id: nat)
    requires Inv(s) && id in s.db.deliveries && s.db.deliveries[id].Terminal()
    requires id in Apply(Guarded, s, step).db.deliveries
    ensures Apply(Guarded, s, step).db.deliveries[id] == s.db.deliveries[id]
  {
    FinishedUntouched(Guarded, s, step, id);
  }

  lemma {:induction false} GoneForGood(policy: NackPolicy, s: System, steps: seq<Step>, id: nat)
    requires Inv(s) && id < s.db.nextDelivery && id !in s.db.deliveries
    ensures id !in Run(policy, s, steps).db.deliveries
    decreases |steps|
  {
    if steps != [] {
      StepKeepsInv(policy, s, steps[0]);
      StepGrows(policy, s, steps[0]);
      GoneForGood(policy, Apply(policy, s, steps[0]), steps[1..], id);
    }
  }

  /** Acked and dead are final: with the guard, no run changes such a row in any column. */
  lemma {:induction false} TerminalForever(s: System, steps: seq<Step>, id: nat)
    requires Inv(s) && id in s.db.deliveries && s.db.deliveries[id].Terminal()
    ensures var s' := Run(Guarded, s, steps);
      id in s'.db.deliveries ==> s'.db.deliveries[id] == s.db.deliveries[id]
    decreases |steps|
  {
    if steps != [] {
      var s1 := Apply(Guarded, s, steps[0]);
      StepKeepsInv(Guarded, s, steps[0]);
      assert RowWf(s.db, id);
      if id in s1.db.deliveries {
        TerminalStep(s, steps[0], id);
        TerminalForever(s1, steps[1..], id);
      } else {
        StepGrows(Guarded, s, steps[0]);
        GoneForGood(Guarded, s1, steps[1..], id);
      }
    }
  }

  /** The Nack ends the delivery instead of putting it back. */
  ghost predicate Buries(db: Db, id: nat, requeue: bool)
    requires JoinsNack(db, id)
  {
    !requeue || db.deliveries[id].attemptCount >= db.subscriptions[db.deliveries[id].subscriptionId].maxAttempts
  }

  /** A failure that the Nack of this delivery runs into. */
  ghost predicate RollsBack(db: Db, id: nat, requeue: bool, fault: Fault)
    requires JoinsNack(db, id)
  {
    || fault == FailCommit
    || (Buries(db, id, requeue)
        && (fault == FailDeadLetter
            || (fault == FailPublish && db.subscriptions[db.deliveries[id].subscriptionId].dlqTopicId.Some?)))
  }

  /**
   The WHERE clause as listed does not have this property.  Unless it fails and rolls back, it
   changes the state of a terminal delivery exactly when it puts it back or buries an acked one;
   and it writes a dead-letter record, be it the second, exactly when it buries.
   */
  lemma LiteralNackOnTerminal(s: System, id: nat, consumer: string, reason: string, requeue: bool, fault: Fault)
    requires Inv(s) && id in s.db.deliveries && s.db.deliveries[id].Terminal()
    ensures JoinsNack(s.db, id)
    ensures var d := s.db.deliveries[id];
      var s' := Nack(Literal, s, id, consumer, reason, requeue, fault).0;
      && id in s'.db.deliveries
      && (s'.db.deliveries[id].state != d.state <==>
            !RollsBack(s.db, id, requeue, fault) && (Buries(s.db, id, requeue) ==> d.state == Acked))
      && (Buries(s.db, id, requeue) && !RollsBack(s.db, id, requeue, fault) <==>
            |s'.db.deadLetters| == |s.db.deadLetters| + 1)
      && (!Buries(s.db, id, requeue) || RollsBack(s.db, id, requeue, fault) <==> s'.db.deadLetters == s.db.deadLetters)
  {
    assert RowWf(s.db, id);
    TerminalUnlocked(s, id);
    KeysAreFresh(s.db, s.now);
    NackEffect(s.db, id, reason, requeue, s.now, fault);
    NackAnswers(s.db, id, reason, requeue, s.now, fault);
  }

  lemma NackAnswers(db: Db, id: nat, reason: string, requeue: bool, now: Time, fault: Fault)
    requires JoinsNack(db, id)
    ensures NackTransaction(db, id, reason, requeue, now, fault).1 == RolledBack <==> RollsBack(db, id, requeue, fault)
  { }

  /** Every finished delivery that is still there has kept its state. */
  ghost predicate FinishedKept(db: Db, db': Db) {
    forall id | id in db.deliveries && db.deliveries[id].Terminal() && id in db'.deliveries ::
      db'.deliveries[id].state == db.deliveries[id].state
  }

  /** A Nack on a finished delivery that puts it back, or buries an acked one, and does not roll back. */
  ghost predicate Reopens(db: Db, step: Step) {
    && step.DoNack? && JoinsNack(db, step.id) && db.deliveries[step.id].Terminal()
    && !RollsBack(db, step.id, step.requeue, step.fault)
    && (Buries(db, step.id, step.requeue) ==> db.deliveries[step.id].state == Acked)
  }

  lemma FinishedUntouched(policy: NackPolicy, s: System, step: Step, id: nat)
    requires Inv(s) && id in s.db.deliveries && s.db.deliveries[id].Terminal()
    requires id in Apply(policy, s, step).db.deliveries
    requires !(policy == Literal && step.DoNack? && step.id == id)
    ensures Apply(policy, s, step).db.deliveries[id] == s.db.deliveries[id]
  {
    RowChange(policy, s, step, id);
    if LeasedBy(s, step, id) {
      assert TxWf(s, step.tx);
      assert Eligible(s.db, s.open[step.tx].subscription, s.open[step.tx].at, id);
    }
  }

  /** With the listed Nack, a step leaves the finished deliveries finished as they were if and only if it reopens none. */
  lemma FinishedKeptIff(s: System, step: Step)
    requires Inv(s)
    ensures FinishedKept(s.db, Apply(Literal, s, step).db) <==> !Reopens(s.db, step)
  {
    var s' := Apply(Literal, s, step);
    forall id | id in s.db.deliveries && s.db.deliveries[id].Terminal() && id in s'.db.deliveries
      ensures s'.db.deliveries[id].state == s.db.deliveries[id].state <==> !(Reopens(s.db, step) && step.id == id)
    {
      if step.DoNack? && step.id == id {
        LiteralNackOnTerminal(s, id, step.consumer, step.reason, step.requeue, step.fault);
      } else {
        FinishedUntouched(Literal, s, step, id);
      }
    }
    if Reopens(s.db, step) {
      LiteralNackOnTerminal(s, step.id, step.consumer, step.reason, step.requeue, step.fault);
      assert step.id in s'.db.deliveries;
    }
  }

  ghost predicate AlwaysFinishedKept(s: System, steps: seq<Step>)
    decreases |steps|
  {
    steps != [] ==>
      var s' := Apply(Literal, s, steps[0]);
      FinishedKept(s.db, s'.db) && AlwaysFinishedKept(s', steps[1..])
  }

  ghost predicate NeverReopens(s: System, steps: seq<Step>)
    decreases |steps|
  {
    steps != [] ==> !Reopens(s.db, steps[0]) && NeverReopens(Apply(Literal, s, steps[0]), steps[1..])
  }

  lemma {:induction false} FinishedRun(s: System, steps: seq<Step>)
    requires Inv(s)
    ensures AlwaysFinishedKept(s, steps) <==> NeverReopens(s, steps)
    ensures NeverReopens(s, steps) ==> FinishedKept(s.db, Run(Literal, s, steps).db)
    decreases |steps|
  {
    if steps != [] {
      var s1 := Apply(Literal, s, steps[0]);
      StepKeepsInv(Literal, s, steps[0]);
      FinishedKeptIff(s, steps[0]);
      FinishedRun(s1, steps[1..]);
      if NeverReopens(s, steps) { KeptAlong(s, steps); }
    }
  }

  /** What the first step kept and the rest of the run kept, the run kept. */
  lemma KeptAlong(s: System, steps: seq<Step>)
    requires Inv(s) && steps != []
    requires FinishedKept(s.db, Apply(Literal, s, steps[0]).db)
    requires FinishedKept(Apply(Literal, s, steps[0]).db, Run(Literal, s, steps).db)
    ensures FinishedKept(s.db, Run(Literal, s, steps).db)
  {
    var s1 := Apply(Literal, s, steps[0]);
    StepKeepsInv(Literal, s, steps[0]);
    StepGrows(Literal, s, steps[0]);
    forall id | id in s.db.deliveries && s.db.deliveries[id].Terminal() && id in Run(Literal, s, steps).db.deliveries
      ensures id in s1.db.deliveries && s1.db.deliveries[id].Terminal()
    {
      assert RowWf(s.db, id);
      if id !in s1.db.deliveries { GoneForGood(Literal, s1, steps[1..], id); }
    }
  }

  /** Over every run with the listed Nack, no finished delivery ever changes state if and only if no step reopens one. */
  lemma LiteralTerminalIff(start: Time, steps: seq<Step>)
    ensures AlwaysFinishedKept(Init(start), steps) <==> NeverReopens(Init(start), steps)
  {
    InitInv(start);
    FinishedRun(Init(start), steps);
  }

  lemma TerminalUnlocked(s: System, id: nat)
    requires Inv(s) && id in s.db.deliveries && s.db.deliveries[id].Terminal()
    ensures id !in LockedIds(s.open)
  {
    if id in LockedIds(s.open) {
      LockedIsIdle(s, id);
    }
  }

  // ----- The dead-letter transaction -----

  ghost predicate SameTables(db: Db, db': Db) {
    && db'.topics == db.topics && db'.subscriptions == db.subscriptions && db'.messages == db.messages
    && db'.deliveries == db.deliveries && db'.deadLetters == db.deadLetters
  }

  /** What burying a delivery must leave behind, all of it. */
  ghost predicate Buried(db: Db, db': Db, id: nat, reason: string, now: Time)
    requires JoinsNack(db, id)
  {
    var d := db.deliveries[id];
    var m := db.messages[d.messageId];
    var dlq := db.subscriptions[d.subscriptionId].dlqTopicId;
    && id in db'.deliveries
    && db'.deliveries[id] == Delivery(d.messageId, d.subscriptionId, Dead, d.attemptCount, None, None, d.leaseStartedAt,
                                      Some(reason), Some(now))
    && db'.deadLetters == db.deadLetters
         + [DeadLetter(id, d.subscriptionId, d.messageId, m.payload, m.headers, Some(reason), d.attemptCount, now)]
    && (dlq.None? ==> db'.messages == db.messages && db'.deliveries == db.deliveries[id := db'.deliveries[id]])
    && (dlq.Some? ==>
          && FannedOut(SetRow(db, id, db'.deliveries[id]), db', db.nextMessage, dlq.value)
          && db'.messages.Keys == db.messages.Keys + {db.nextMessage}
          && (forall n | n in db.messages && n != db.nextMessage :: db'.messages[n] == db.messages[n])
          && dlq.value in db.topics
          && db'.messages[db.nextMessage] == Message(dlq.value, 0, None, m.payload, m.headers, None, now, now,
                                                     now + db.topics[dlq.value].defaultTtl))
  }

  /** What putting a delivery back must leave behind. */
  ghost predicate Requeued(db: Db, db': Db, id: nat, reason: string)
    requires id in db.deliveries
  {
    var d := db.deliveries[id];
    && db'.deliveries == db.deliveries[id := Delivery(d.messageId, d.subscriptionId, Pending, d.attemptCount, None, None,
                                                      d.leaseStartedAt, Some(reason), None)]
    && db'.messages == db.messages && db'.deadLetters == db.deadLetters
  }

  lemma CopyFansOut(db: Db, id: nat, d': Delivery, now: Time, copy: Message)
    requires JoinsNack(db, id) && FreshKeys(db)
    requires d'.messageId == db.deliveries[id].messageId && d'.subscriptionId == db.deliveries[id].subscriptionId
    ensures var moved := InsertDeadLetter(SetRow(db, id, d'), id, now);
      FannedOut(SetRow(db, id, d'), InsertMessage(moved, copy), db.nextMessage, copy.topicId)
  {
    var moved := InsertDeadLetter(SetRow(db, id, d'), id, now);
    InsertFansOut(moved, copy);
    forall sub | Subscribed(SetRow(db, id, d'), sub, copy.topicId) ensures Subscribed(moved, sub, copy.topicId) { }
  }

  lemma NackEffect(db: Db, id: nat, reason: string, requeue: bool, now: Time, fault: Fault)
    requires JoinsNack(db, id) && FreshKeys(db)
    requires db.subscriptions[db.deliveries[id].subscriptionId].dlqTopicId.Some?
      ==> db.subscriptions[db.deliveries[id].subscriptionId].dlqTopicId.value in db.topics
    ensures var d := db.deliveries[id];
      var sub := db.subscriptions[d.subscriptionId];
      var (db', r) := NackTransaction(db, id, reason, requeue, now, fault);
      && (r == RolledBack ==> SameTables(db, db'))
      && (r != RolledBack && (!requeue || d.attemptCount >= sub.maxAttempts) ==> Buried(db, db', id, reason, now))
      && (r != RolledBack && requeue && d.attemptCount < sub.maxAttempts ==> Requeued(db, db', id, reason))
  {
    var d := db.deliveries[id];
    var sub := db.subscriptions[d.subscriptionId];
    var moved := InsertDeadLetter(SetRow(db, id, NackRow(d, sub.maxAttempts, reason, requeue, now)), id, now);
    if sub.dlqTopicId.Some? {
      var copy := NewMessage(moved.topics[sub.dlqTopicId.value], DlqRequest(moved.messages[d.messageId], sub.dlqTopicId.value), now);
      InsertMessageFrame(moved, copy);
      CopyFansOut(db, id, NackRow(d, sub.maxAttempts, reason, requeue, now), now, copy);
      assert copy.topicId == sub.dlqTopicId.value;
    }
  }

  /**
   Atomicity: a guarded Nack that ends the delivery moves it, records it and republishes it
   together; when any of the three writes or the commit fails, every table is as before.
   */
  lemma DeadLetterAtomic(s: System, id: nat, consumer: string, reason: string, requeue: bool, fault: Fault)
    requires Inv(s)
    ensures var (s', r) := Nack(Guarded, s, id, consumer, reason, requeue, fault);
      && (r != Done ==> SameTables(s.db, s'.db))
      && (r == Done ==>
            && id in s.db.deliveries && LiveLease(s.db.deliveries[id], consumer, s.now) && JoinsNack(s.db, id)
            && (if requeue && s.db.deliveries[id].attemptCount < s.db.subscriptions[s.db.deliveries[id].subscriptionId].maxAttempts
                then Requeued(s.db, s'.db, id, reason)
                else Buried(s.db, s'.db, id, reason, s.now)))
  {
    if id in s.db.deliveries {
      assert RowWf(s.db, id) && SubscriptionWf(s.db, s.db.deliveries[id].subscriptionId);
      KeysAreFresh(s.db, s.now);
      NackEffect(s.db, id, reason, requeue, s.now, fault);
    }
  }

  // ----- Over whole runs: one faithful record for each burial -----

  ghost predicate Records(db: Db, dl: DeadLetter) {
    && dl.deliveryId in db.deliveries
    && var d := db.deliveries[dl.deliveryId];
    && d.state == Dead
    && d.messageId in db.messages
    && dl == DeadLetter(dl.deliveryId, d.subscriptionId, d.messageId, db.messages[d.messageId].payload,
                        db.messages[d.messageId].headers, d.lastError, d.attemptCount, dl.movedAt)
  }

  ghost predicate Recorded(db: Db, id: nat) {
    exists i | 0 <= i < |db.deadLetters| :: db.deadLetters[i].deliveryId == id
  }

  /** Died of old age on a subscription without a dead-letter topic: the one burial that leaves no record. */
  ghost predicate ExpiredSilently(db: Db, now: Time, id: nat) {
    && JoinsNack(db, id)
    && db.messages[db.deliveries[id].messageId].expiresAt < now
    && db.subscriptions[db.deliveries[id].subscriptionId].dlqTopicId.None?
  }

  ghost predicate DeadInv(db: Db, now: Time) {
    && (forall i | 0 <= i < |db.deadLetters| :: Records(db, db.deadLetters[i]))
    && (forall i, j | 0 <= i < j < |db.deadLetters| :: db.deadLetters[i].deliveryId != db.deadLetters[j].deliveryId)
    && (forall id | id in db.deliveries && db.deliveries[id].state == Dead :: Recorded(db, id) || ExpiredSilently(db, now, id))
  }

  /** A statement that buries nobody and disturbs no buried row keeps the records faithful. */
  lemma DeadInvFrame(db: Db, now: Time, db': Db, later: Time)
    requires Wf(db, now) && DeadInv(db, now) && now <= later
    requires db'.deadLetters == db.deadLetters && Grows(db, db')
    requires forall id | id in db.deliveries && db.deliveries[id].state == Dead && Recorded(db, id) :: id in db'.deliveries
    requires forall id | id in db.deliveries && id in db'.deliveries && db.deliveries[id].state == Dead ::
               db'.deliveries[id] == db.deliveries[id]
    requires forall id | id in db'.deliveries && db'.deliveries[id].state == Dead ::
               id in db.deliveries && db.deliveries[id].state == Dead && db'.deliveries[id].subscriptionId in db'.subscriptions
    ensures DeadInv(db', later)
  {
    forall i | 0 <= i < |db'.deadLetters| ensures Records(db', db'.deadLetters[i]) {
      assert Records(db, db.deadLetters[i]);
      assert Recorded(db, db.deadLetters[i].deliveryId);
    }
    forall id | id in db'.deliveries && db'.deliveries[id].state == Dead
      ensures Recorded(db', id) || ExpiredSilently(db', later, id)
    {
      if Recorded(db, id) {
        var i :| 0 <= i < |db.deadLetters| && db.deadLetters[i].deliveryId == id;
        assert db'.deadLetters[i].deliveryId == id;
      }
    }
  }

  /** Burying one live row with its record, or silently when that is allowed. */
  lemma BuryOne(db: Db, now: Time, id: nat, d': Delivery, archive: bool)
    requires Wf(db, now) && DeadInv(db, now)
    requires JoinsNack(db, id) && !db.deliveries[id].Terminal()
    requires d'.state == Dead && d'.messageId == db.deliveries[id].messageId && d'.subscriptionId == db.deliveries[id].subscriptionId
    requires !archive ==> ExpiredSilently(db, now, id)
    ensures DeadInv(if archive then InsertDeadLetter(SetRow(db, id, d'), id, now) else SetRow(db, id, d'), now)
  {
    var r := if archive then InsertDeadLetter(SetRow(db, id, d'), id, now) else SetRow(db, id, d');
    forall i | 0 <= i < |db.deadLetters| ensures Records(r, db.deadLetters[i]) && db.deadLetters[i].deliveryId != id {
      assert Records(db, db.deadLetters[i]);
    }
    if archive { assert r.deadLetters[|db.deadLetters|].deliveryId == id; }
    forall n | n in r.deliveries && r.deliveries[n].state == Dead ensures Recorded(r, n) || ExpiredSilently(r, now, n) {
      StillRecorded(db, r, now, id, n);
    }
  }

  lemma StillRecorded(db: Db, r: Db, now: Time, id: nat, n: nat)
    requires DeadInv(db, now) && db.deadLetters <= r.deadLetters
    requires n in db.deliveries && r.messages == db.messages && r.subscriptions == db.subscriptions
    requires n in r.deliveries && r.deliveries[n].messageId == db.deliveries[n].messageId
    requires r.deliveries[n].subscriptionId == db.deliveries[n].subscriptionId
    requires if n == id then Recorded(r, id) || ExpiredSilently(db, now, id) else db.deliveries[n].state == Dead
    ensures Recorded(r, n) || ExpiredSilently(r, now, n)
  {
    if n != id && Recorded(db, n) {
      var i :| 0 <= i < |db.deadLetters| && db.deadLetters[i].deliveryId == n;
      assert r.deadLetters[i].deliveryId == n;
    }
  }

  lemma ExpireOneDeadInv(db: Db, now: Time, id: nat)
    requires Wf(db, now) && DeadInv(db, now) && Expired(db, id, now)
    ensures DeadInv(ExpireOne(db, id, now), now)
  {
    var d := db.deliveries[id];
    BuryOne(db, now, id, ExpireRow(d), db.subscriptions[d.subscriptionId].dlqTopicId.Some?);
  }

  lemma {:induction false} SweepDeadInv(db: Db, now: Time, upto: nat)
    requires Wf(db, now) && DeadInv(db, now)
    ensures DeadInv(Sweep(db, now, upto), now)
  {
    if upto > 0 {
      SweepDeadInv(db, now, upto - 1);
      SweepWf(db, now, upto - 1);
      var rest := Sweep(db, now, upto - 1);
      if Expired(rest, upto - 1, now) { ExpireOneDeadInv(rest, now, upto - 1); }
    }
  }

  lemma RequeueDeadInv(db: Db, now: Time, id: nat, d': Delivery)
    requires Wf(db, now) && DeadInv(db, now) && id in db.deliveries && db.deliveries[id].state != Dead
    requires d'.state != Dead && d'.messageId == db.deliveries[id].messageId && d'.subscriptionId == db.deliveries[id].subscriptionId
    ensures DeadInv(SetRow(db, id, d'), now)
  {
    forall i | i in db.deliveries ensures RowWf(db, i) { }
    DeadInvFrame(db, now, SetRow(db, id, d'), now);
  }

  lemma BurialDeadInv(db: Db, now: Time, id: nat, d': Delivery, dlq: Option<nat>)
    requires Wf(db, now) && DeadInv(db, now)
    requires JoinsNack(db, id) && !db.deliveries[id].Terminal() && Wf(SetRow(db, id, d'), now)
    requires d'.state == Dead && d'.messageId == db.deliveries[id].messageId && d'.subscriptionId == db.deliveries[id].subscriptionId
    ensures var moved := InsertDeadLetter(SetRow(db, id, d'), id, now);
      var published := Republish(moved, db.messages[d'.messageId], dlq, now);
      && DeadInv(published, now)
      && db.nextMessage <= published.nextMessage && db.nextDelivery <= published.nextDelivery
  {
    BuryOne(db, now, id, d', true);
    InsertDeadLetterWf(SetRow(db, id, d'), now, id);
    var moved := InsertDeadLetter(SetRow(db, id, d'), id, now);
    assert MessageWf(db, now, d'.messageId);
    RepublishDeadInv(moved, now, db.messages[d'.messageId], dlq);
    RepublishWf(moved, db.messages[d'.messageId], dlq, now);
  }

  lemma NackDeadInv(db: Db, now: Time, id: nat, reason: string, requeue: bool, fault: Fault)
    requires Wf(db, now) && DeadInv(db, now)
    requires JoinsNack(db, id) && db.deliveries[id].state == Leased
    ensures DeadInv(NackTransaction(db, id, reason, requeue, now, fault).0, now)
  {
    var d := db.deliveries[id];
    var sub := db.subscriptions[d.subscriptionId];
    var d' := NackRow(d, sub.maxAttempts, reason, requeue, now);
    SetRowWf(db, now, id, d') by { assert RowWf(db, id); }
    if Exhausted(d, sub.maxAttempts, requeue) {
      BurialDeadInv(db, now, id, d', sub.dlqTopicId);
      RollbackDeadInv(db, Republish(InsertDeadLetter(SetRow(db, id, d'), id, now), db.messages[d.messageId], sub.dlqTopicId, now), now);
    } else {
      RequeueDeadInv(db, now, id, d');
    }
  }

  lemma RollbackDeadInv(db: Db, during: Db, now: Time)
    requires Wf(db, now) && DeadInv(db, now)
    requires db.nextMessage <= during.nextMessage && db.nextDelivery <= during.nextDelivery
    ensures DeadInv(Rollback(db, during), now)
  {
    var r := Rollback(db, during);
    forall id | id in r.deliveries ensures RowWf(db, id) { }
    DeadInvFrame(db, now, r, now);
  }

  lemma InsertMessageDeadInv(db: Db, now: Time, m: Message)
    requires Wf(db, now) && DeadInv(db, now)
    ensures DeadInv(InsertMessage(db, m), now)
  {
    forall i | i in db.deliveries ensures RowWf(db, i) { }
    forall n | n in db.messages ensures MessageWf(db, now, n) { }
    InsertMessageFrame(db, m);
    DeadInvFrame(db, now, InsertMessage(db, m), now);
  }

  lemma RepublishDeadInv(db: Db, now: Time, m: Message, dlq: Option<nat>)
    requires Wf(db, now) && DeadInv(db, now)
    ensures DeadInv(Republish(db, m, dlq, now), now)
  {
    if dlq.Some? && dlq.value in db.topics {
      InsertMessageDeadInv(db, now, NewMessage(db.topics[dlq.value], DlqRequest(m, dlq.value), now));
    }
  }

  /** Steps other than Nack and retention leave every record, and every buried row, alone. */
  lemma QuietStep(s: System, step: Step)
    requires Inv(s) && !step.DoNack? && !step.DoRetention?
    ensures Apply(Guarded, s, step).db.deadLetters == s.db.deadLetters
  {
    if step.DoPublish? {
      if step.request.topic in s.db.topics {
        forall i | i in s.db.deliveries ensures RowWf(s.db, i) { }
        InsertMessageFrame(s.db, NewMessage(s.db.topics[step.request.topic], step.request, s.now - step.age));
      }
    } else if step.DoBegin? || step.DoAbort? || step.DoTick? {
      TablesUntouched(Guarded, s, step);
    } else {
    }
  }

  lemma BuriedRowStays(s: System, step: Step, id: nat)
    requires Inv(s) && DeadInv(s.db, s.now) && !step.DoNack? && !step.DoRetention?
    requires id in s.db.deliveries && Recorded(s.db, id)
    ensures id in Apply(Guarded, s, step).db.deliveries
  {
    var i :| 0 <= i < |s.db.deadLetters| && s.db.deadLetters[i].deliveryId == id;
    assert Records(s.db, s.db.deadLetters[i]);
    var sub := s.db.deliveries[id].subscriptionId;
    assert RowWf(s.db, id);
    if step.DoDeleteSubscription? {
      assert step.subscription == sub ==> HasDeadLetters(s.db, sub);
    } else {
      SubscriptionsStay(s, step);
    }
    RowSurvives(Guarded, s, step, id);
  }

  lemma SubscriptionsStay(s: System, step: Step)
    requires Inv(s) && !step.DoDeleteSubscription? && !step.DoNack? && !step.DoRetention?
    ensures s.db.subscriptions.Keys <= Apply(Guarded, s, step).db.subscriptions.Keys
  {
    if step.DoPublish? {
      if step.request.topic in s.db.topics {
        forall i | i in s.db.deliveries ensures RowWf(s.db, i) { }
        InsertMessageFrame(s.db, NewMessage(s.db.topics[step.request.topic], step.request, s.now - step.age));
      }
    } else if step.DoBegin? || step.DoAbort? || step.DoTick? {
      TablesUntouched(Guarded, s, step);
    } else {
    }
  }

  /** Outside Nack and retention nobody dies. */
  lemma NobodyDies(s: System, step: Step, id: nat)
    requires Inv(s) && !step.DoNack? && !step.DoRetention?
    requires id in Apply(Guarded, s, step).db.deliveries && Apply(Guarded, s, step).db.deliveries[id].state == Dead
    ensures id in s.db.deliveries && s.db.deliveries[id].state == Dead
    ensures Apply(Guarded, s, step).db.deliveries[id].subscriptionId in Apply(Guarded, s, step).db.subscriptions
  {
    if id in s.db.deliveries { RowChange(Guarded, s, step, id); } else { NewRow(Guarded, s, step, id); }
    TablesKept(Guarded, s, step);
    assert RowWf(Apply(Guarded, s, step).db, id);
  }

  lemma DeadStep(s: System, step: Step)
    requires Inv(s) && DeadInv(s.db, s.now)
    ensures DeadInv(Apply(Guarded, s, step).db, Apply(Guarded, s, step).now)
  {
    var s' := Apply(Guarded, s, step);
    if step.DoRetention? {
      SweepDeadInv(s.db, s.now, s.db.nextDelivery);
    } else if step.DoNack? {
      GuardedNackIsLive(s, step);
      if s'.db != s.db {
        NackDeadInv(s.db, s.now, step.id, step.reason, step.requeue, step.fault);
      }
    } else {
      QuietStep(s, step);
      StepGrows(Guarded, s, step);
      forall id | id in s.db.deliveries && s.db.deliveries[id].state == Dead && Recorded(s.db, id) ensures id in s'.db.deliveries {
        BuriedRowStays(s, step, id);
      }
      forall id | id in s.db.deliveries && id in s'.db.deliveries && s.db.deliveries[id].state == Dead
        ensures s'.db.deliveries[id] == s.db.deliveries[id]
      {
        TerminalStep(s, step, id);
      }
      forall id | id in s'.db.deliveries && s'.db.deliveries[id].state == Dead
        ensures id in s.db.deliveries && s.db.deliveries[id].state == Dead && s'.db.deliveries[id].subscriptionId in s'.db.subscriptions
      {
        NobodyDies(s, step, id);
      }
      DeadInvFrame(s.db, s.now, s'.db, s'.now);
    }
  }

  lemma GuardedNackIsLive(s: System, step: Step)
    requires step.DoNack?
    ensures var s' := Apply(Guarded, s, step);
      && s'.now == s.now
      && (s'.db != s.db ==>
            && JoinsNack(s.db, step.id) && s.db.deliveries[step.id].state == Leased
            && s'.db == NackTransaction(s.db, step.id, step.reason, step.requeue, s.now, step.fault).0)
  { }

  lemma {:induction false} DeadRun(s: System, steps: seq<Step>)
    requires Inv(s) && DeadInv(s.db, s.now)
    ensures Inv(Run(Guarded, s, steps))
    ensures DeadInv(Run(Guarded, s, steps).db, Run(Guarded, s, steps).now)
    decreases |steps|
  {
    if steps != [] {
      StepKeepsInv(Guarded, s, steps[0]);
      DeadStep(s, steps[0]);
      DeadRun(Apply(Guarded, s, steps[0]), steps[1..]);
    }
  }

  /**
   In every reachable state with guarded Nacks: each dead-letter record belongs to one dead
   delivery and carries its message's payload and headers, no delivery has two records, and
   the only dead deliveries without one expired on a subscription without a dead-letter topic.
   */
  lemma DeadLettersFaithful(start: Time, steps: seq<Step>)
    ensures var s := Run(Guarded, Init(start), steps); DeadInv(s.db, s.now)
  {
    InitInv(start);
    DeadRun(Init(start), steps);
  }

  // ----- No loss -----

  ghost predicate Held(s: System, id: nat)
    requires id in s.db.deliveries
  {
    var d := s.db.deliveries[id];
    d.state == Leased && d.leasedUntil.Some? && d.leasedUntil.value >= s.now
  }

  ghost predicate Deliverable(s: System, id: nat) {
    && id in s.db.deliveries
    && s.db.deliveries[id].messageId in s.db.messages
    && var m := s.db.messages[s.db.deliveries[id].messageId];
       m.availableAt <= s.now < m.expiresAt
  }

  ghost predicate ExactlyOne(cases: seq<bool>) {
    exists i | 0 <= i < |cases| :: cases[i] && forall j | 0 <= j < |cases| && j != i :: !cases[j]
  }

  /** Acked, dead, locked by a running Consume, held, or available to the next Consume. */
  ghost function Situations(s: System, id: nat): seq<bool>
    requires id in s.db.deliveries
  {
    var d := s.db.deliveries[id];
    [d.state == Acked, d.state == Dead, id in LockedIds(s.open), Held(s, id),
     Available(s.db, LockedIds(s.open), d.subscriptionId, s.now, id)]
  }

  /**
   In every reachable state a deliverable delivery is in exactly one of the five situations, and
   a delivery that is not yet due or has expired is not available.
   */
  lemma NothingLost(policy: NackPolicy, start: Time, steps: seq<Step>, id: nat)
    requires id in Run(policy, Init(start), steps).db.deliveries
    ensures var s := Run(policy, Init(start), steps);
      if Deliverable(s, id) then ExactlyOne(Situations(s, id))
      else !Available(s.db, LockedIds(s.open), s.db.deliveries[id].subscriptionId, s.now, id)
  {
    InitInv(start);
    RunKeepsInv(policy, Init(start), steps);
    var s := Run(policy, Init(start), steps);
    assert RowWf(s.db, id);
    if id in LockedIds(s.open) { LockedIsIdle(s, id); }
    if Deliverable(s, id) {
      var cases := Situations(s, id);
      var i := if cases[0] then 0 else if cases[1] then 1 else if cases[2] then 2 else if cases[3] then 3 else 4;
      assert cases[i] && forall j | 0 <= j < |cases| && j != i :: !cases[j];
    }
  }

  /** The tables after one whole Consume: the picked rows are leased, all of them or none. */
  ghost function Served(s: System, sub: nat, limit: nat, consumer: string): Db
    requires sub in s.db.subscriptions
  {
    var ids := Pick(s.db, LockedIds(s.open), sub, s.now, limit);
    if AttemptsFit(s.db, ids) then LeaseRows(s.db, ids, s.now, s.db.subscriptions[sub].visibilityTimeout, consumer) else s.db
  }

  /** A Consume is exactly that, under whatever unused transaction id it runs, or is refused and changes nothing. */
  lemma ConsumeServes(s: System, tx: nat, sub: nat, limit: int, consumer: string)
    requires tx !in s.open
    ensures Consume(s, tx, sub, limit, consumer)
         == if sub in s.db.subscriptions && 1 <= limit <= 100 then s.(db := Served(s, sub, limit, consumer)) else s
  {
    assert BeginConsume(s, tx, sub, limit, consumer).0.open - {tx} == s.open;
  }

  ghost function LeasedNow(d: Delivery, at: Time, visibility: Time, consumer: string): Delivery {
    d.(state := Leased, leasedBy := Some(consumer), attemptCount := d.attemptCount + 1,
       leasedUntil := Some(at + visibility), leaseStartedAt := Some(at))
  }

  lemma ServedRow(s: System, sub: nat, limit: nat, consumer: string, id: nat)
    requires sub in s.db.subscriptions && id in s.db.deliveries
    ensures var d := s.db.deliveries[id];
      var ids := Pick(s.db, LockedIds(s.open), sub, s.now, limit);
      && id in Served(s, sub, limit, consumer).deliveries
      && Served(s, sub, limit, consumer).deliveries[id] ==
         if id in ids && AttemptsFit(s.db, ids)
         then LeasedNow(d, s.now, s.db.subscriptions[sub].visibilityTimeout, consumer)
         else d
  { }

  /**
   Consume leases an available delivery to the caller exactly when fewer than `limit` available
   deliveries are served before it and none of the picked rows has used up its SMALLINT counter;
   otherwise the row is as before.
   */
  lemma NextConsumeTakesIt(s: System, limit: nat, consumer: string, id: nat)
    requires Inv(s) && 1 <= limit <= MAX_BATCH
    requires id in s.db.deliveries && Available(s.db, LockedIds(s.open), s.db.deliveries[id].subscriptionId, s.now, id)
    ensures var d := s.db.deliveries[id];
      var sub := d.subscriptionId;
      && sub in s.db.subscriptions
      && var served := Served(s, sub, limit, consumer);
      && id in served.deliveries
      && served.deliveries[id] ==
         if Rank(s.db, LockedIds(s.open), sub, s.now, id) < limit && AttemptsFit(s.db, Pick(s.db, LockedIds(s.open), sub, s.now, limit))
         then LeasedNow(d, s.now, s.db.subscriptions[sub].visibilityTimeout, consumer)
         else d
  {
    var sub := s.db.deliveries[id].subscriptionId;
    assert sub in s.db.subscriptions by { assert RowWf(s.db, id); }
    PickedByRank(s.db, s.now, LockedIds(s.open), sub, s.now, limit, id);
    ServedRow(s, sub, limit, consumer, id);
  }
}
