/**
 The leases of a delivery over a whole run.

 The row keeps only its current lease.  Here an observer writes down every lease that a
 commit hands out, every extension, and the instant each lease is given up; the claims
 about exclusivity, retries and extensions are about what the observer saw.
 */
module LeaseHistory {
  import opened Common
  import opened QueueSpec
  import opened Tables
  import opened Scheduler
  import opened Steps

  datatype Hold = Hold(
    holder: string,
    start: Time,
    firstUntil: Time,
    until: Time,
    extensions: nat,
    lastExtended: Option<Time>,
    closed: Option<Time>)

  /** When the holder stopped being protected: at release, or when the lease ran out if that came first. */
  function EndOf(h: Hold): Time {
    if h.closed.Some? && h.closed.value < h.until then h.closed.value else h.until
  }

  predicate Live(h: Hold, t: Time) { h.start <= t < EndOf(h) }

  type Holds = map<nat, seq<Hold>>

  function HoldsOf(holds: Holds, id: nat): seq<Hold> {
    if id in holds then holds[id] else []
  }

  function UpdateLast(h: seq<Hold>, last: Hold): seq<Hold>
    requires h != []
  {
    h[..|h| - 1] + [last]
  }

  /** An extension that the guard grants. */
  ghost predicate Extends(s: System, step: Step, id: nat) {
    && step.DoExtend? && step.id == id && id in s.db.deliveries && id !in LockedIds(s.open)
    && 0 < step.additional <= MAX_EXTENSION
    && LiveLease(s.db.deliveries[id], step.consumer, s.now) && YoungLease(s.db.deliveries[id], s.now)
  }

  function NewHold(t: ConsumeTx): Hold {
    Hold(t.consumer, t.at, t.at + t.visibility, t.at + t.visibility, 0, None, None)
  }

  /** What the observer adds to the history of one delivery when a step is taken. */
  ghost function Observe(policy: NackPolicy, s: System, step: Step, id: nat, h: seq<Hold>): seq<Hold> {
    var s' := Apply(policy, s, step);
    if LeasedBy(s, step, id) then
      h + [NewHold(s.open[step.tx])]
    else if h == [] || id !in s.db.deliveries || id !in s'.db.deliveries then h
    else
      var last := h[|h| - 1];
      if Extends(s, step, id) then
        UpdateLast(h, last.(until := last.until + step.additional, extensions := last.extensions + 1, lastExtended := Some(s.now)))
      else if s.db.deliveries[id].state == Leased && s'.db.deliveries[id].state != Leased then
        UpdateLast(h, last.(closed := Some(s.now)))
      else h
  }

  ghost function ObserveAll(policy: NackPolicy, s: System, step: Step, holds: Holds): Holds {
    map id | id in Apply(policy, s, step).db.deliveries :: Observe(policy, s, step, id, HoldsOf(holds, id))
  }

  ghost function RunHolds(policy: NackPolicy, s: System, holds: Holds, steps: seq<Step>): Holds
    decreases |steps|
  {
    if steps == [] then holds
    else RunHolds(policy, Apply(policy, s, steps[0]), ObserveAll(policy, s, steps[0], holds), steps[1..])
  }

  /** Leases among the first n that ended because they ran out, not because they were given up. */
  function Lapsed(h: seq<Hold>, n: nat): nat
    requires n <= |h|
  {
    if n == 0 then 0 else Lapsed(h, n - 1) + if h[n - 1].closed.None? then 1 else 0
  }

  /** Leases that were taken over after running out: every lapsed one but the last. */
  function TakenOver(h: seq<Hold>): nat {
    if h == [] then 0 else Lapsed(h, |h| - 1)
  }

  ghost predicate HoldWf(h: Hold, visibility: Time, now: Time) {
    && h.start <= now
    && h.firstUntil == h.start + visibility
    && h.until <= h.firstUntil + MAX_EXTENSION * h.extensions
    && (h.extensions > 0 <==> h.lastExtended.Some?)
    && (h.lastExtended.Some? ==> h.lastExtended.value <= h.start + MAX_LEASE_AGE)
    && (h.closed.Some? ==> h.start <= h.closed.value <= now)
  }

  /** Whenever a lease beyond the first maxAttempts has been handed out, the one before it had run out. */
  ghost predicate PastMaxFollowsLapse(h: seq<Hold>, maxAttempts: int) {
    forall i | 0 <= i < |h| - 1 && maxAttempts <= i + 1 :: h[i].closed.None?
  }

  /** Leases follow one another without overlap. */
  ghost predicate Successive(h: seq<Hold>) {
    forall i, j | 0 <= i < j < |h| :: EndOf(h[i]) <= h[j].start && h[i].start <= h[j].start
  }

  /** The row shows the last lease of its history, open exactly while the row is leased. */
  ghost predicate ShowsLast(d: Delivery, h: seq<Hold>) {
    if d.state == Leased then
      && h != []
      && var last := h[|h| - 1];
      && last.closed.None?
      && d.leasedBy == Some(last.holder)
      && d.leasedUntil == Some(last.until)
      && d.leaseStartedAt == Some(last.start)
    else
      h != [] ==> h[|h| - 1].closed.Some?
  }

  ghost predicate Explains(h: seq<Hold>, d: Delivery, sub: Subscription, now: Time) {
    && |h| == d.attemptCount
    && Successive(h)
    && (forall i | 0 <= i < |h| :: HoldWf(h[i], sub.visibilityTimeout, now))
    && ShowsLast(d, h)
    && PastMaxFollowsLapse(h, sub.maxAttempts)
  }

  ghost predicate RowHistory(s: System, id: nat, h: seq<Hold>)
    requires id in s.db.deliveries
  {
    && s.db.deliveries[id].subscriptionId in s.db.subscriptions
    && Explains(h, s.db.deliveries[id], s.db.subscriptions[s.db.deliveries[id].subscriptionId], s.now)
  }

  /** Whoever locked the row at `at` may start a lease there. */
  ghost predicate FreeAt(h: seq<Hold>, at: Time) {
    h != [] ==> var last := h[|h| - 1];
      last.start <= at && if last.closed.Some? then last.closed.value <= at else last.until < at
  }

  ghost predicate HistoryInv(s: System, holds: Holds) {
    && holds.Keys <= s.db.deliveries.Keys
    && (forall id | id in s.db.deliveries :: RowHistory(s, id, HoldsOf(holds, id)))
    && (forall tx, id | tx in s.open && id in s.open[tx].picked :: FreeAt(HoldsOf(holds, id), s.open[tx].at))
  }

  // ----- Preservation -----

  lemma {:induction false} LapsesCount(h: seq<Hold>, from: nat, n: nat)
    requires from <= n <= |h| && forall i | from <= i < n :: h[i].closed.None?
    ensures n - from <= Lapsed(h, n)
  {
    if from < n { LapsesCount(h, from, n - 1); }
  }

  /** Appending a lease that starts when the row is free keeps the history in order. */
  lemma AppendHold(h: seq<Hold>, x: Hold)
    requires Successive(h) && FreeAt(h, x.start)
    ensures Successive(h + [x])
  { }

  /** Changing how the last lease ends keeps the history in order. */
  lemma ChangeLast(h: seq<Hold>, x: Hold)
    requires Successive(h) && h != [] && x.start == h[|h| - 1].start
    ensures Successive(UpdateLast(h, x))
  { }

  lemma LeaseExplained(h: seq<Hold>, d: Delivery, sub: Subscription, now: Time, t: ConsumeTx)
    requires Explains(h, d, sub, now) && FreeAt(h, t.at) && t.at <= now && t.visibility == sub.visibilityTimeout
    requires d.state == Leased || (d.state == Pending && d.attemptCount < sub.maxAttempts)
    ensures Explains(h + [NewHold(t)], LeaseRow(d, t.at, t.visibility, t.consumer), sub, now)
  {
    AppendHold(h, NewHold(t));
  }

  lemma LeaseObserved(policy: NackPolicy, s: System, step: Step, id: nat, h: seq<Hold>)
    requires Inv(s) && LeasedBy(s, step, id)
    requires id in s.db.deliveries && RowHistory(s, id, h)
    requires FreeAt(h, s.open[step.tx].at)
    ensures id in Apply(policy, s, step).db.deliveries
    ensures RowHistory(Apply(policy, s, step), id, Observe(policy, s, step, id, h))
  {
    var t := s.open[step.tx];
    var d := s.db.deliveries[id];
    assert TxWf(s, step.tx);
    assert Eligible(s.db, t.subscription, t.at, id);
    assert RowWf(s.db, id);
    LeaseExplained(h, d, s.db.subscriptions[d.subscriptionId], s.now, t);
  }

  lemma ReleaseExplained(h: seq<Hold>, d: Delivery, d': Delivery, sub: Subscription, now: Time)
    requires Explains(h, d, sub, now) && d.state == Leased && d'.state != Leased && d'.attemptCount == d.attemptCount
    ensures h != [] && Explains(UpdateLast(h, h[|h| - 1].(closed := Some(now))), d', sub, now)
  {
    ChangeLast(h, h[|h| - 1].(closed := Some(now)));
  }

  lemma ExtensionExplained(h: seq<Hold>, d: Delivery, sub: Subscription, now: Time, additional: Time)
    requires Explains(h, d, sub, now) && d.state == Leased && YoungLease(d, now) && 0 < additional <= MAX_EXTENSION
    ensures h != [] && var last := h[|h| - 1];
      Explains(UpdateLast(h, last.(until := last.until + additional, extensions := last.extensions + 1, lastExtended := Some(now))),
               ExtendRow(d, additional), sub, now)
  {
    var last := h[|h| - 1];
    ChangeLast(h, last.(until := last.until + additional, extensions := last.extensions + 1, lastExtended := Some(now)));
  }

  /** Apart from leases and extensions, a changed row either gives up its lease or had none to give up. */
  lemma OtherChange(policy: NackPolicy, s: System, step: Step, id: nat)
    requires Inv(s) && !LeasedBy(s, step, id)
    requires id in s.db.deliveries && id in Apply(policy, s, step).db.deliveries
    requires !Extends(s, step, id)
    ensures var d, d' := s.db.deliveries[id], Apply(policy, s, step).db.deliveries[id];
      d' == d || (d'.state != Leased && d'.attemptCount == d.attemptCount && d'.subscriptionId == d.subscriptionId)
  {
    RowChange(policy, s, step, id);
  }

  /** A surviving delivery keeps its subscription, and the subscription its settings. */
  lemma SameSubscription(policy: NackPolicy, s: System, step: Step, id: nat)
    requires Inv(s)
    requires id in s.db.deliveries && id in Apply(policy, s, step).db.deliveries
    ensures var s' := Apply(policy, s, step);
      var sub := s.db.deliveries[id].subscriptionId;
      && s'.db.deliveries[id].subscriptionId == sub
      && sub in s.db.subscriptions && sub in s'.db.subscriptions && s'.db.subscriptions[sub] == s.db.subscriptions[sub]
      && s.now <= s'.now
  {
    RowChange(policy, s, step, id);
    StepGrows(policy, s, step);
    TablesKept(policy, s, step);
    assert RowWf(s.db, id);
    assert RowWf(Apply(policy, s, step).db, id);
  }

  lemma ExtendObserved(policy: NackPolicy, s: System, step: Step, id: nat, h: seq<Hold>)
    requires Inv(s) && Extends(s, step, id)
    requires id in s.db.deliveries && RowHistory(s, id, h)
    ensures id in Apply(policy, s, step).db.deliveries
    ensures RowHistory(Apply(policy, s, step), id, Observe(policy, s, step, id, h))
  {
    var d := s.db.deliveries[id];
    ExtensionExplained(h, d, s.db.subscriptions[d.subscriptionId], s.now, step.additional);
  }

  lemma ReleaseObserved(policy: NackPolicy, s: System, step: Step, id: nat, h: seq<Hold>)
    requires Inv(s) && !LeasedBy(s, step, id) && !Extends(s, step, id)
    requires id in s.db.deliveries && RowHistory(s, id, h)
    requires id in Apply(policy, s, step).db.deliveries
    ensures var d, d' := s.db.deliveries[id], Apply(policy, s, step).db.deliveries[id];
      var sub := s.db.subscriptions[d.subscriptionId];
      Explains(Observe(policy, s, step, id, h), d', sub, s.now)
  {
    OtherChange(policy, s, step, id);
    var d, d' := s.db.deliveries[id], Apply(policy, s, step).db.deliveries[id];
    OtherExplained(h, d, d', s.db.subscriptions[d.subscriptionId], s.now);
    ReleaseSeen(policy, s, step, id, h);
  }

  /** The observer sees a lease given up exactly when a leased row stops being leased. */
  lemma ReleaseSeen(policy: NackPolicy, s: System, step: Step, id: nat, h: seq<Hold>)
    requires !LeasedBy(s, step, id) && !Extends(s, step, id)
    requires id in s.db.deliveries && id in Apply(policy, s, step).db.deliveries
    requires s.db.deliveries[id].state == Leased ==> h != []
    ensures Observe(policy, s, step, id, h)
      == if s.db.deliveries[id].state == Leased && Apply(policy, s, step).db.deliveries[id].state != Leased
         then UpdateLast(h, h[|h| - 1].(closed := Some(s.now))) else h
  { }

  lemma OtherExplained(h: seq<Hold>, d: Delivery, d': Delivery, sub: Subscription, now: Time)
    requires Explains(h, d, sub, now)
    requires d' == d || (d'.state != Leased && d'.attemptCount == d.attemptCount)
    ensures d.state == Leased ==> h != []
    ensures Explains(if d.state == Leased && d'.state != Leased then UpdateLast(h, h[|h| - 1].(closed := Some(now))) else h,
                     d', sub, now)
  {
    if d.state == Leased && d'.state != Leased { ReleaseExplained(h, d, d', sub, now); }
  }

  lemma ChangeObserved(policy: NackPolicy, s: System, step: Step, id: nat, h: seq<Hold>)
    requires Inv(s) && !LeasedBy(s, step, id)
    requires id in s.db.deliveries && RowHistory(s, id, h)
    requires id in Apply(policy, s, step).db.deliveries
    ensures RowHistory(Apply(policy, s, step), id, Observe(policy, s, step, id, h))
  {
    if Extends(s, step, id) {
      ExtendObserved(policy, s, step, id, h);
    } else {
      SameSubscription(policy, s, step, id);
      ReleaseObserved(policy, s, step, id, h);
      var s' := Apply(policy, s, step);
      ExplainsLater(Observe(policy, s, step, id, h), s'.db.deliveries[id],
                    s.db.subscriptions[s.db.deliveries[id].subscriptionId], s.now, s'.now);
    }
  }

  lemma ExplainsLater(h: seq<Hold>, d: Delivery, sub: Subscription, now: Time, later: Time)
    requires Explains(h, d, sub, now) && now <= later
    ensures Explains(h, d, sub, later)
  { }

  /** An eligible row is free at the instant it is picked. */
  lemma EligibleIsFree(s: System, id: nat, h: seq<Hold>, sub: nat)
    requires id in s.db.deliveries && RowHistory(s, id, h) && Eligible(s.db, sub, s.now, id)
    ensures FreeAt(h, s.now)
  { }

  lemma LockedUnobserved(policy: NackPolicy, s: System, step: Step, holds: Holds, tx: nat, id: nat)
    requires Inv(s) && HistoryInv(s, holds)
    requires tx in s.open && id in s.open[tx].picked && !(step.DoCommit? && step.tx == tx)
    ensures id in Apply(policy, s, step).db.deliveries
    ensures Observe(policy, s, step, id, HoldsOf(holds, id)) == HoldsOf(holds, id)
  {
    LockedRowStays(policy, s, step, tx, id);
    assert id in LockedIds(s.open);
  }

  lemma FreeAfter(policy: NackPolicy, s: System, holds: Holds, step: Step, tx: nat, id: nat)
    requires Inv(s) && HistoryInv(s, holds)
    requires tx in Apply(policy, s, step).open && id in Apply(policy, s, step).open[tx].picked
    ensures id in Apply(policy, s, step).db.deliveries
    ensures FreeAt(Observe(policy, s, step, id, HoldsOf(holds, id)), Apply(policy, s, step).open[tx].at)
  {
    OpenAfter(policy, s, step);
    if tx in s.open {
      LockedUnobserved(policy, s, step, holds, tx, id);
    } else {
      PickExact(s.db, s.now, LockedIds(s.open), step.subscription, s.now, step.limit);
      EligibleIsFree(s, id, HoldsOf(holds, id), step.subscription);
    }
  }

  lemma HistoryStep(policy: NackPolicy, s: System, holds: Holds, step: Step)
    requires Inv(s) && HistoryInv(s, holds)
    ensures HistoryInv(Apply(policy, s, step), ObserveAll(policy, s, step, holds))
  {
    var s' := Apply(policy, s, step);
    var holds' := ObserveAll(policy, s, step, holds);
    forall id | id in s'.db.deliveries ensures RowHistory(s', id, HoldsOf(holds', id)) {
      assert HoldsOf(holds', id) == Observe(policy, s, step, id, HoldsOf(holds, id));
      if id !in s.db.deliveries {
        NewRow(policy, s, step, id);
        NewRowHistory(policy, s, step, id);
      } else if LeasedBy(s, step, id) {
        LeaseObserved(policy, s, step, id, HoldsOf(holds, id));
      } else {
        ChangeObserved(policy, s, step, id, HoldsOf(holds, id));
      }
    }
    forall tx, id | tx in s'.open && id in s'.open[tx].picked ensures FreeAt(HoldsOf(holds', id), s'.open[tx].at) {
      FreeAfter(policy, s, holds, step, tx, id);
    }
  }

  lemma NewRowHistory(policy: NackPolicy, s: System, step: Step, id: nat)
    requires Inv(s)
    requires id in Apply(policy, s, step).db.deliveries && id !in s.db.deliveries
    ensures RowHistory(Apply(policy, s, step), id, Observe(policy, s, step, id, []))
  {
    var s' := Apply(policy, s, step);
    NewRow(policy, s, step, id);
    TablesKept(policy, s, step);
    assert RowWf(s'.db, id) && SubscriptionWf(s'.db, s'.db.deliveries[id].subscriptionId);
  }

  lemma {:induction false} HistoryRun(policy: NackPolicy, s: System, holds: Holds, steps: seq<Step>)
    requires Inv(s) && HistoryInv(s, holds)
    ensures Inv(Run(policy, s, steps))
    ensures HistoryInv(Run(policy, s, steps), RunHolds(policy, s, holds, steps))
    decreases |steps|
  {
    if steps != [] {
      StepKeepsInv(policy, s, steps[0]);
      HistoryStep(policy, s, holds, steps[0]);
      HistoryRun(policy, Apply(policy, s, steps[0]), ObserveAll(policy, s, steps[0], holds), steps[1..]);
    }
  }

  // ----- Over whole runs, under either Nack -----

  /** The state and the history after a run from empty tables. */
  ghost function After(policy: NackPolicy, start: Time, steps: seq<Step>): System {
    Run(policy, Init(start), steps)
  }

  ghost function HistoryOf(policy: NackPolicy, start: Time, steps: seq<Step>, id: nat): seq<Hold> {
    HoldsOf(RunHolds(policy, Init(start), map[], steps), id)
  }

  lemma HistoryAfter(policy: NackPolicy, start: Time, steps: seq<Step>, id: nat)
    ensures Inv(After(policy, start, steps))
    ensures id in After(policy, start, steps).db.deliveries ==>
      RowHistory(After(policy, start, steps), id, HistoryOf(policy, start, steps, id))
  {
    InitInv(start);
    HistoryRun(policy, Init(start), map[], steps);
  }

  /** Exclusivity: whatever the interleaving, at no instant have two leases of one delivery been live. */
  lemma LeasesNeverOverlap(policy: NackPolicy, start: Time, steps: seq<Step>, id: nat, i: nat, j: nat, t: Time)
    requires id in After(policy, start, steps).db.deliveries
    requires i < |HistoryOf(policy, start, steps, id)| && j < |HistoryOf(policy, start, steps, id)|
    requires Live(HistoryOf(policy, start, steps, id)[i], t) && Live(HistoryOf(policy, start, steps, id)[j], t)
    ensures i == j
  {
    HistoryAfter(policy, start, steps, id);
  }

  /** The label protected now, if any: that of the last lease, when it is neither given up nor run out. */
  ghost function Holder(h: seq<Hold>, now: Time): Option<string> {
    if h != [] && h[|h| - 1].closed.None? && now < h[|h| - 1].until then Some(h[|h| - 1].holder) else None
  }

  /**
   Ack succeeds for the live holder and for nobody else; while there is a live holder the
   row is neither eligible nor locked, so no instant allows both an Ack and a new lease.
   */
  lemma AckOnlyForHolder(policy: NackPolicy, start: Time, steps: seq<Step>, id: nat, consumer: string)
    requires id in After(policy, start, steps).db.deliveries
    ensures var s := After(policy, start, steps);
      var holder := Holder(HistoryOf(policy, start, steps, id), s.now);
      && (Ack(s, id, consumer).1 == Done <==> holder == Some(consumer))
      && (holder.Some? ==> id !in LockedIds(s.open) && forall sub :: !Eligible(s.db, sub, s.now, id))
  {
    HistoryAfter(policy, start, steps, id);
    HolderUnlocked(After(policy, start, steps), id, HistoryOf(policy, start, steps, id));
  }

  /**
   A lease is known by its delivery and its label alone: while some lease of the delivery is
   live, the holder of any lease it ever had can ack it if and only if the labels agree.
   */
  lemma LabelIsTheLease(policy: NackPolicy, start: Time, steps: seq<Step>, id: nat, i: nat)
    requires id in After(policy, start, steps).db.deliveries
    requires i < |HistoryOf(policy, start, steps, id)|
    requires Holder(HistoryOf(policy, start, steps, id), After(policy, start, steps).now).Some?
    ensures var s := After(policy, start, steps);
      var h := HistoryOf(policy, start, steps, id);
      Ack(s, id, h[i].holder).1 == Done <==> h[i].holder == h[|h| - 1].holder
  {
    AckOnlyForHolder(policy, start, steps, id, HistoryOf(policy, start, steps, id)[i].holder);
  }

  lemma HolderUnlocked(s: System, id: nat, h: seq<Hold>)
    requires Inv(s) && id in s.db.deliveries && RowHistory(s, id, h)
    ensures Holder(h, s.now).Some? ==> id !in LockedIds(s.open)
  {
    if id in LockedIds(s.open) {
      LockedIsIdle(s, id);
    }
  }

  /** The guarded Nack and ExtendLease answer to the same holder. */
  lemma NackAndExtendOnlyForHolder(start: Time, steps: seq<Step>, id: nat, consumer: string,
                                   reason: string, requeue: bool, additional: Time)
    requires id in After(Guarded, start, steps).db.deliveries
    ensures var s := After(Guarded, start, steps);
      var h := HistoryOf(Guarded, start, steps, id);
      && (Nack(Guarded, s, id, consumer, reason, requeue, NoFault).1 == Done <==> Holder(h, s.now) == Some(consumer))
      && (ExtendLease(s, id, consumer, additional).1 == Done <==>
            && Holder(h, s.now) == Some(consumer)
            && 0 < additional <= 5 * MINUTE
            && s.now - h[|h| - 1].start <= 30 * MINUTE)
  {
    HistoryAfter(Guarded, start, steps, id);
    assert RowWf(After(Guarded, start, steps).db, id);
    HolderUnlocked(After(Guarded, start, steps), id, HistoryOf(Guarded, start, steps, id));
  }

  /**
   Retries: attempt_count is the number of leases handed out; a pending delivery has attempts
   left; every lease beyond the first max_attempts directly follows one that ran out, never one
   that was answered; and so no more leases go beyond max_attempts than ran out before them.
   */
  lemma RetryBound(policy: NackPolicy, start: Time, steps: seq<Step>, id: nat)
    requires id in After(policy, start, steps).db.deliveries
    ensures var s := After(policy, start, steps);
      var d := s.db.deliveries[id];
      var h := HistoryOf(policy, start, steps, id);
      && d.subscriptionId in s.db.subscriptions
      && var maxAttempts := s.db.subscriptions[d.subscriptionId].maxAttempts;
      && d.attemptCount == |h|
      && (d.state == Pending ==> d.attemptCount < maxAttempts)
      && (forall i | 0 <= i < |h| - 1 && maxAttempts <= i + 1 :: h[i].closed.None?)
      && d.attemptCount <= maxAttempts + TakenOver(h)
  {
    HistoryAfter(policy, start, steps, id);
    var s := After(policy, start, steps);
    assert RowWf(s.db, id) && SubscriptionWf(s.db, s.db.deliveries[id].subscriptionId);
    var h := HistoryOf(policy, start, steps, id);
    var maxAttempts := s.db.subscriptions[s.db.deliveries[id].subscriptionId].maxAttempts;
    if maxAttempts < |h| { LapsesCount(h, maxAttempts - 1, |h| - 1); }
  }

  // ----- When max_attempts does bound the leases -----

  ghost predicate WithinMax(db: Db) {
    forall id | id in db.deliveries :: RowWithinMax(db, id)
  }

  ghost predicate RowWithinMax(db: Db, id: nat)
    requires id in db.deliveries
  {
    var d := db.deliveries[id];
    d.subscriptionId in db.subscriptions ==> d.attemptCount <= db.subscriptions[d.subscriptionId].maxAttempts
  }

  /** The row's last permitted lease has run out unanswered, and nobody has taken it over yet. */
  ghost predicate SpentLease(db: Db, id: nat) {
    && id in db.deliveries && db.deliveries[id].subscriptionId in db.subscriptions
    && db.deliveries[id].state == Leased
    && db.deliveries[id].attemptCount == db.subscriptions[db.deliveries[id].subscriptionId].maxAttempts
  }

  /** A Consume that holds such a row is about to commit. */
  ghost predicate Overspends(s: System, step: Step) {
    step.DoCommit? && step.tx in s.open && exists id :: id in s.open[step.tx].picked && SpentLease(s.db, id)
  }

  lemma RowStaysWithin(policy: NackPolicy, s: System, step: Step, id: nat)
    requires Inv(s) && WithinMax(s.db) && id in Apply(policy, s, step).db.deliveries
    ensures RowWithinMax(Apply(policy, s, step).db, id) <==> !(LeasedBy(s, step, id) && SpentLease(s.db, id))
  {
    if id in s.db.deliveries {
      RowChange(policy, s, step, id);
      SameSubscription(policy, s, step, id);
      assert RowWithinMax(s.db, id);
    } else {
      NewRowWithin(policy, s, step, id);
    }
  }

  lemma NewRowWithin(policy: NackPolicy, s: System, step: Step, id: nat)
    requires Inv(s) && id in Apply(policy, s, step).db.deliveries && id !in s.db.deliveries
    ensures RowWithinMax(Apply(policy, s, step).db, id)
  {
    var s' := Apply(policy, s, step);
    NewRow(policy, s, step, id);
    TablesKept(policy, s, step);
    assert RowWf(s'.db, id) && SubscriptionWf(s'.db, s'.db.deliveries[id].subscriptionId);
  }

  /** Counters within max_attempts are nowhere near the end of their column. */
  lemma WithinMaxFits(s: System, tx: nat)
    requires Inv(s) && WithinMax(s.db) && tx in s.open
    ensures AttemptsFit(s.db, s.open[tx].picked)
  {
    forall i | 0 <= i < |s.open[tx].picked| && s.open[tx].picked[i] in s.db.deliveries
      ensures s.db.deliveries[s.open[tx].picked[i]].attemptCount < SMALLINT_MAX
    {
      var id := s.open[tx].picked[i];
      assert RowWf(s.db, id) && RowWithinMax(s.db, id) && SubscriptionWf(s.db, s.db.deliveries[id].subscriptionId);
    }
  }

  /**
   "At most max_attempts leases", exactly: a step breaks it if and only if it commits a Consume
   holding a row whose last permitted lease ran out unanswered.
   */
  lemma WithinMaxKeptIff(policy: NackPolicy, s: System, step: Step)
    requires Inv(s) && WithinMax(s.db)
    ensures WithinMax(Apply(policy, s, step).db) <==> !Overspends(s, step)
  {
    forall id | id in Apply(policy, s, step).db.deliveries
      ensures RowWithinMax(Apply(policy, s, step).db, id) <==> !(LeasedBy(s, step, id) && SpentLease(s.db, id))
    {
      RowStaysWithin(policy, s, step, id);
    }
    if Overspends(s, step) {
      WithinMaxFits(s, step.tx);
      var id :| id in s.open[step.tx].picked && SpentLease(s.db, id);
      LeasedStays(policy, s, step, id);
    }
  }

  lemma LeasedStays(policy: NackPolicy, s: System, step: Step, id: nat)
    requires id in s.db.deliveries && LeasedBy(s, step, id)
    ensures id in Apply(policy, s, step).db.deliveries
  { }

  ghost predicate AlwaysWithinMax(policy: NackPolicy, s: System, steps: seq<Step>)
    decreases |steps|
  {
    WithinMax(s.db) && (steps != [] ==> AlwaysWithinMax(policy, Apply(policy, s, steps[0]), steps[1..]))
  }

  ghost predicate NeverOverspends(policy: NackPolicy, s: System, steps: seq<Step>)
    decreases |steps|
  {
    steps != [] ==> !Overspends(s, steps[0]) && NeverOverspends(policy, Apply(policy, s, steps[0]), steps[1..])
  }

  lemma {:induction false} WithinMaxRun(policy: NackPolicy, s: System, steps: seq<Step>)
    requires Inv(s) && WithinMax(s.db)
    ensures AlwaysWithinMax(policy, s, steps) <==> NeverOverspends(policy, s, steps)
    decreases |steps|
  {
    if steps != [] {
      StepKeepsInv(policy, s, steps[0]);
      WithinMaxKeptIff(policy, s, steps[0]);
      if WithinMax(Apply(policy, s, steps[0]).db) {
        WithinMaxRun(policy, Apply(policy, s, steps[0]), steps[1..]);
      }
    }
  }

  /** Over a whole run no delivery is ever leased more than max_attempts times if and only if no such commit occurs in it. */
  lemma RetryBoundIff(policy: NackPolicy, start: Time, steps: seq<Step>)
    ensures AlwaysWithinMax(policy, Init(start), steps) <==> NeverOverspends(policy, Init(start), steps)
  {
    InitInv(start);
    WithinMaxRun(policy, Init(start), steps);
  }

  /**
   Extensions: after k of them a lease lasts at most visibility_timeout + 5k minutes, and none
   is granted later than 30 minutes after the lease began.
   */
  lemma ExtensionBound(policy: NackPolicy, start: Time, steps: seq<Step>, id: nat, i: nat)
    requires id in After(policy, start, steps).db.deliveries
    requires i < |HistoryOf(policy, start, steps, id)|
    ensures var s := After(policy, start, steps);
      var d := s.db.deliveries[id];
      var h := HistoryOf(policy, start, steps, id)[i];
      && d.subscriptionId in s.db.subscriptions
      && h.until <= h.start + s.db.subscriptions[d.subscriptionId].visibilityTimeout + 5 * MINUTE * h.extensions
      && (h.lastExtended.Some? ==> h.lastExtended.value <= h.start + 30 * MINUTE)
  {
    HistoryAfter(policy, start, steps, id);
  }

  // ----- The 30-minute total -----

  /** No lease of the delivery has been granted more than 30 minutes beyond its first expiry. */
  ghost predicate WithinTotal(h: seq<Hold>) {
    forall i | 0 <= i < |h| :: h[i].until <= h[i].firstUntil + 30 * MINUTE
  }

  ghost predicate AllWithinTotal(s: System, holds: Holds) {
    forall id | id in s.db.deliveries :: WithinTotal(HoldsOf(holds, id))
  }

  /** A caller can check this before the call: the row and its subscription show all of it. */
  ghost predicate ExceedsTotal(s: System, id: nat, additional: Time) {
    && id in s.db.deliveries && s.db.deliveries[id].subscriptionId in s.db.subscriptions
    && var d := s.db.deliveries[id];
    && d.leasedUntil.Some? && d.leaseStartedAt.Some?
    && d.leasedUntil.value + additional
       > d.leaseStartedAt.value + s.db.subscriptions[d.subscriptionId].visibilityTimeout + 30 * MINUTE
  }

  lemma TotalExtended(policy: NackPolicy, s: System, step: Step, id: nat, h: seq<Hold>)
    requires Inv(s) && Extends(s, step, id)
    requires id in s.db.deliveries && RowHistory(s, id, h) && WithinTotal(h)
    ensures WithinTotal(Observe(policy, s, step, id, h)) <==> !ExceedsTotal(s, id, step.additional)
  {
    var h' := Observe(policy, s, step, id, h);
    var last := h[|h| - 1];
    assert h' == UpdateLast(h, last.(until := last.until + step.additional, extensions := last.extensions + 1, lastExtended := Some(s.now)));
    LastDecides(h, h'[|h| - 1]);
  }

  lemma LastDecides(h: seq<Hold>, x: Hold)
    requires h != [] && WithinTotal(h)
    ensures WithinTotal(UpdateLast(h, x)) <==> x.until <= x.firstUntil + 30 * MINUTE
  {
    var h' := UpdateLast(h, x);
    assert h'[|h| - 1] == x;
    assert forall i | 0 <= i < |h| - 1 :: h'[i] == h[i];
  }

  lemma TotalOfOne(policy: NackPolicy, s: System, holds: Holds, step: Step, id: nat)
    requires Inv(s) && HistoryInv(s, holds) && AllWithinTotal(s, holds)
    requires id in Apply(policy, s, step).db.deliveries
    ensures WithinTotal(Observe(policy, s, step, id, HoldsOf(holds, id)))
      <==> !(Extends(s, step, id) && ExceedsTotal(s, id, step.additional))
  {
    if Extends(s, step, id) {
      TotalExtended(policy, s, step, id, HoldsOf(holds, id));
    } else {
      Unextended(policy, s, step, id, HoldsOf(holds, id));
    }
  }

  lemma Unextended(policy: NackPolicy, s: System, step: Step, id: nat, h: seq<Hold>)
    requires WithinTotal(h) && !Extends(s, step, id)
    ensures WithinTotal(Observe(policy, s, step, id, h))
  { }

  /** A granted extension whose total goes past 30 minutes. */
  ghost predicate Overextends(s: System, step: Step) {
    step.DoExtend? && Extends(s, step, step.id) && ExceedsTotal(s, step.id, step.additional)
  }

  /**
   The total the prose promises is kept by a step exactly when the step is not a successful
   extension past it; the listed guard never looks at the total.
   */
  lemma TotalKeptIff(policy: NackPolicy, s: System, holds: Holds, step: Step)
    requires Inv(s) && HistoryInv(s, holds) && AllWithinTotal(s, holds)
    ensures AllWithinTotal(Apply(policy, s, step), ObserveAll(policy, s, step, holds)) <==> !Overextends(s, step)
  {
    var s' := Apply(policy, s, step);
    var holds' := ObserveAll(policy, s, step, holds);
    forall id | id in s'.db.deliveries
      ensures WithinTotal(HoldsOf(holds', id)) <==> !(Extends(s, step, id) && ExceedsTotal(s, id, step.additional))
    {
      TotalOfOne(policy, s, holds, step, id);
    }
    ExtendedStays(policy, s, step);
  }

  ghost predicate AlwaysWithinTotal(policy: NackPolicy, s: System, holds: Holds, steps: seq<Step>)
    decreases |steps|
  {
    && AllWithinTotal(s, holds)
    && (steps != [] ==>
          AlwaysWithinTotal(policy, Apply(policy, s, steps[0]), ObserveAll(policy, s, steps[0], holds), steps[1..]))
  }

  ghost predicate NeverOverextends(policy: NackPolicy, s: System, steps: seq<Step>)
    decreases |steps|
  {
    steps != [] ==> !Overextends(s, steps[0]) && NeverOverextends(policy, Apply(policy, s, steps[0]), steps[1..])
  }

  lemma {:induction false} TotalRun(policy: NackPolicy, s: System, holds: Holds, steps: seq<Step>)
    requires Inv(s) && HistoryInv(s, holds) && AllWithinTotal(s, holds)
    ensures AlwaysWithinTotal(policy, s, holds, steps) <==> NeverOverextends(policy, s, steps)
    decreases |steps|
  {
    if steps != [] {
      var s1, holds1 := Apply(policy, s, steps[0]), ObserveAll(policy, s, steps[0], holds);
      StepKeepsInv(policy, s, steps[0]);
      HistoryStep(policy, s, holds, steps[0]);
      TotalKeptIff(policy, s, holds, steps[0]);
      if AllWithinTotal(s1, holds1) { TotalRun(policy, s1, holds1, steps[1..]); }
    }
  }

  /** Over a whole run every lease stays within 30 minutes of extension if and only if no granted one goes past it. */
  lemma TotalKeptOverRuns(policy: NackPolicy, start: Time, steps: seq<Step>)
    ensures AlwaysWithinTotal(policy, Init(start), map[], steps) <==> NeverOverextends(policy, Init(start), steps)
  {
    InitInv(start);
    TotalRun(policy, Init(start), map[], steps);
  }

  lemma ExtendedStays(policy: NackPolicy, s: System, step: Step)
    ensures step.DoExtend? && Extends(s, step, step.id) ==> step.id in Apply(policy, s, step).db.deliveries
  { }

  // ----- The total over all leases of a delivery -----

  /** By how much the leases together have been extended. */
  function Granted(h: seq<Hold>): Time {
    if h == [] then 0 else Granted(h[..|h| - 1]) + h[|h| - 1].until - h[|h| - 1].firstUntil
  }

  /** How often they have been extended. */
  function Extensions(h: seq<Hold>): nat {
    if h == [] then 0 else Extensions(h[..|h| - 1]) + h[|h| - 1].extensions
  }

  lemma {:induction false} GrantedUpTo(h: seq<Hold>)
    requires forall i | 0 <= i < |h| :: h[i].until <= h[i].firstUntil + MAX_EXTENSION * h[i].extensions
    ensures Granted(h) <= MAX_EXTENSION * Extensions(h)
    ensures WithinTotal(h) ==> Granted(h) <= 30 * MINUTE * |h|
  {
    if h != [] { GrantedUpTo(h[..|h| - 1]); }
  }

  /**
   Nothing ties one lease to the next: k leases of a delivery add up to at most 5 minutes for each
   extension, and to at most 30 k minutes when each keeps to its own 30.
   */
  lemma ExtensionsAddUp(policy: NackPolicy, start: Time, steps: seq<Step>, id: nat)
    requires id in After(policy, start, steps).db.deliveries
    ensures var k := After(policy, start, steps).db.deliveries[id].attemptCount;
      var h := HistoryOf(policy, start, steps, id);
      && Granted(h) <= 5 * MINUTE * Extensions(h)
      && (WithinTotal(h) ==> Granted(h) <= 30 * MINUTE * k)
  {
    HistoryAfter(policy, start, steps, id);
    GrantedUpTo(HistoryOf(policy, start, steps, id));
  }

  lemma GrantedOneMore(h: seq<Hold>, x: Hold)
    ensures Granted(h + [x]) == Granted(h) + x.until - x.firstUntil
  {
    assert (h + [x])[..|h|] == h;
  }

  lemma GrantedLast(h: seq<Hold>, x: Hold)
    requires h != [] && x.firstUntil == h[|h| - 1].firstUntil
    ensures Granted(UpdateLast(h, x)) == Granted(h) + x.until - h[|h| - 1].until
  {
    GrantedOneMore(h[..|h| - 1], x);
  }

  /** A step adds to the sum what it extends by, and nothing else does. */
  lemma GrantedObserved(policy: NackPolicy, s: System, step: Step, id: nat, h: seq<Hold>)
    requires id in s.db.deliveries ==> RowHistory(s, id, h)
    requires id in Apply(policy, s, step).db.deliveries
    ensures Granted(Observe(policy, s, step, id, h)) == Granted(h) + if Extends(s, step, id) then step.additional else 0
  {
    if LeasedBy(s, step, id) {
      GrantedOneMore(h, NewHold(s.open[step.tx]));
    } else if h != [] && id in s.db.deliveries {
      var last := h[|h| - 1];
      if step.DoExtend? {
        GrantedLast(h, last.(until := last.until + step.additional, extensions := last.extensions + 1, lastExtended := Some(s.now)));
      }
      GrantedLast(h, last.(closed := Some(s.now)));
    }
  }

  /** Read as one total for all leases of a delivery, the promise is this. */
  ghost predicate WithinDeliveryTotal(s: System, holds: Holds) {
    forall id | id in s.db.deliveries :: Granted(HoldsOf(holds, id)) <= 30 * MINUTE
  }

  ghost predicate ExceedsDeliveryTotal(s: System, holds: Holds, step: Step) {
    step.DoExtend? && Extends(s, step, step.id) && Granted(HoldsOf(holds, step.id)) + step.additional > 30 * MINUTE
  }

  /** It is kept by a step exactly when the step is not a granted extension past that sum, of which the row keeps no record. */
  lemma DeliveryTotalKeptIff(policy: NackPolicy, s: System, holds: Holds, step: Step)
    requires HistoryInv(s, holds) && WithinDeliveryTotal(s, holds)
    ensures WithinDeliveryTotal(Apply(policy, s, step), ObserveAll(policy, s, step, holds))
      <==> !ExceedsDeliveryTotal(s, holds, step)
  {
    var s' := Apply(policy, s, step);
    var holds' := ObserveAll(policy, s, step, holds);
    forall id | id in s'.db.deliveries
      ensures Granted(HoldsOf(holds', id)) == Granted(HoldsOf(holds, id)) + if Extends(s, step, id) then step.additional else 0
    {
      GrantedObserved(policy, s, step, id, HoldsOf(holds, id));
    }
    forall id | id !in s.db.deliveries ensures HoldsOf(holds, id) == [] { }
    ExtendedStays(policy, s, step);
  }

  ghost predicate AlwaysWithinDeliveryTotal(policy: NackPolicy, s: System, holds: Holds, steps: seq<Step>)
    decreases |steps|
  {
    && WithinDeliveryTotal(s, holds)
    && (steps != [] ==>
          AlwaysWithinDeliveryTotal(policy, Apply(policy, s, steps[0]), ObserveAll(policy, s, steps[0], holds), steps[1..]))
  }

  ghost predicate NeverExceedsDeliveryTotal(policy: NackPolicy, s: System, holds: Holds, steps: seq<Step>)
    decreases |steps|
  {
    steps != [] ==>
      && !ExceedsDeliveryTotal(s, holds, steps[0])
      && NeverExceedsDeliveryTotal(policy, Apply(policy, s, steps[0]), ObserveAll(policy, s, steps[0], holds), steps[1..])
  }

  lemma {:induction false} DeliveryTotalRun(policy: NackPolicy, s: System, holds: Holds, steps: seq<Step>)
    requires Inv(s) && HistoryInv(s, holds) && WithinDeliveryTotal(s, holds)
    ensures AlwaysWithinDeliveryTotal(policy, s, holds, steps) <==> NeverExceedsDeliveryTotal(policy, s, holds, steps)
    decreases |steps|
  {
    if steps != [] {
      var s1, holds1 := Apply(policy, s, steps[0]), ObserveAll(policy, s, steps[0], holds);
      StepKeepsInv(policy, s, steps[0]);
      HistoryStep(policy, s, holds, steps[0]);
      DeliveryTotalKeptIff(policy, s, holds, steps[0]);
      if WithinDeliveryTotal(s1, holds1) { DeliveryTotalRun(policy, s1, holds1, steps[1..]); }
    }
  }

  /** Over a whole run the leases of a delivery never add up to more than 30 minutes of extension if and only if no such step occurs. */
  lemma DeliveryTotalOverRuns(policy: NackPolicy, start: Time, steps: seq<Step>)
    ensures AlwaysWithinDeliveryTotal(policy, Init(start), map[], steps)
      <==> NeverExceedsDeliveryTotal(policy, Init(start), map[], steps)
  {
    InitInv(start);
    DeliveryTotalRun(policy, Init(start), map[], steps);
  }
}
