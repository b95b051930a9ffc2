/** Runs that show where the listings do less than the prose around them promises. */
module Witnesses {
  import opened Common
  import opened Ordering
  import opened QueueSpec
  import opened Tables
  import opened Scheduler
  import opened Steps
  import opened Draining
  import opened Fifo

  function Request(priority: int, key: string): PublishRequest {
    PublishRequest(1, [], priority, Some(key), map[], None, None, None)
  }

  /** A topic, one subscription on it, and two messages with the same key and priority. */
  const SETUP: seq<Step> := [
    DoCreateTopic("audit.events", 7 * 24 * 60 * MINUTE, 9),
    DoCreateSubscription(1, "audit-worker", 30000, 5, None),
    DoPublish(Request(0, "k"), 0),
    DoPublish(Request(0, "k"), 0)]

  function Posted(): System {
    var topic := Topic("audit.events", 7 * 24 * 60 * MINUTE, 9);
    var m := NewMessage(topic, Request(0, "k"), 0);
    System(Db(map[1 := topic],
              map[1 := Subscription(1, "audit-worker", 30000, 5, None, 1)],
              map[1 := m, 2 := m],
              map[1 := NewDelivery(1, 1), 2 := NewDelivery(2, 1)],
              [], 2, 2, 3, 3),
           0, map[])
  }

  lemma RunSplit(policy: NackPolicy, s: System, a: seq<Step>, b: seq<Step>)
    ensures Run(policy, s, a + b) == Run(policy, Run(policy, s, a), b)
    decreases |a|
  {
    if a == [] {
      assert a + b == b;
    } else {
      assert (a + b)[1..] == a[1..] + b;
      RunSplit(policy, Apply(policy, s, a[0]), a[1..], b);
    }
  }

  lemma PublishOne(s: System, r: PublishRequest, age: nat)
    requires s.db.nextSubscription == 2 && Subscribed(s.db, 1, 1) && r.topic == 1 && 0 !in s.db.subscriptions
    requires 1 in s.db.topics && 0 <= r.priority <= s.db.topics[1].maxPriority && r.headers == map[]
    ensures Publish(s, r, age).0.db == s.db.(
              messages := s.db.messages[s.db.nextMessage := NewMessage(s.db.topics[1], r, s.now - age)],
              nextMessage := s.db.nextMessage + 1,
              deliveries := s.db.deliveries[s.db.nextDelivery := NewDelivery(s.db.nextMessage, 1)],
              nextDelivery := s.db.nextDelivery + 1)
    ensures Publish(s, r, age).0 == s.(db := Publish(s, r, age).0.db)
  {
    var db := s.db.(messages := s.db.messages[s.db.nextMessage := NewMessage(s.db.topics[1], r, s.now - age)],
                    nextMessage := s.db.nextMessage + 1);
    assert FanOut(db, s.db.nextMessage, 1, 0) == db;
    assert FanOut(db, s.db.nextMessage, 1, 1) == db;
    assert FanOut(db, s.db.nextMessage, 1, 2) == InsertDelivery(db, s.db.nextMessage, 1);
  }

  lemma SetupPosts(policy: NackPolicy)
    ensures Run(policy, Init(0), SETUP) == Posted()
  {
    var s1 := Apply(policy, Init(0), SETUP[0]);
    var s2 := Apply(policy, s1, SETUP[1]);
    PublishOne(s2, Request(0, "k"), 0);
    var s3 := Apply(policy, s2, SETUP[2]);
    PublishOne(s3, Request(0, "k"), 0);
    var s4 := Apply(policy, s3, SETUP[3]);
    assert Run(policy, s4, []) == s4;
    assert SETUP[3..][1..] == [];
    assert Run(policy, s3, SETUP[3..]) == s4;
    assert SETUP[2..][1..] == SETUP[3..];
    assert Run(policy, s2, SETUP[2..]) == s4;
    assert SETUP[1..][1..] == SETUP[2..];
    assert Run(policy, s1, SETUP[1..]) == s4;
    assert s4 == Posted();
  }

  lemma PostedCandidates(locked: set<nat>)
    requires locked == {} || locked == {1}
    ensures var db := Posted().db;
      Candidates(db, locked, 1, 0, 3) == if locked == {} then [RowKey(db, 1), RowKey(db, 2)] else [RowKey(db, 2)]
  {
    var db := Posted().db;
    assert Candidates(db, locked, 1, 0, 0) == [];
    assert Candidates(db, locked, 1, 0, 1) == [];
    assert Eligible(db, 1, 0, 1) && Eligible(db, 1, 0, 2);
    assert Candidates(db, locked, 1, 0, 2) == if locked == {} then [RowKey(db, 1)] else [];
  }

  /** On the posted state one-row picks serve delivery 1, or delivery 2 when 1 is locked. */
  lemma PostedPicks()
    ensures Pick(Posted().db, {}, 1, 0, 1) == [1]
    ensures Pick(Posted().db, {1}, 1, 0, 1) == [2]
  {
    var k1, k2 := RowKey(Posted().db, 1), RowKey(Posted().db, 2);
    PostedCandidates({});
    PostedCandidates({1});
    SortOne(k2);
    SortTwo(k1, k2);
    assert [k1, k2][..1] == [k1];
  }

  lemma SortTwo<T>(x: Keyed<T>, y: Keyed<T>)
    requires Less(x, y)
    ensures Sort([x, y]) == [x, y]
  {
    SortOne(x);
    assert [x, y][..1] == [x];
    assert Insert([x], y) == [x] + Insert([x][1..], y);
  }

  lemma SortOne<T>(x: Keyed<T>)
    ensures Sort([x]) == [x]
  {
    assert [x][..0] == [];
    assert Sort([x][..0]) == [];
  }

  /** Delivery 1 leased by "c1" from the posted state. */
  function LeasedOnce(): System {
    Posted().(db := LeaseRows(Posted().db, [1], 0, 30000, "c1"))
  }

  /** A one-row Consume has picked delivery 1. */
  function FirstPicked(): System {
    Posted().(open := map[1 := ConsumeTx(1, "c1", 0, 30000, [1])])
  }

  /** Two one-row Consumes have picked, neither has committed. */
  function BothPicked(): System {
    Posted().(open := map[1 := ConsumeTx(1, "c1", 0, 30000, [1]), 2 := ConsumeTx(1, "c2", 0, 30000, [2])])
  }

  lemma LockedByOne(tx: nat, t: ConsumeTx, id: nat)
    requires t.picked == [id]
    ensures LockedIds(map[tx := t]) == {id}
  {
    var open := map[tx := t];
    assert tx in open && id in open[tx].picked;
    assert id in LockedIds(open);
    forall n | n in LockedIds(open) ensures n == id {
      var ty :| ty in open && n in open[ty].picked;
    }
  }

  lemma BeginAccepted(policy: NackPolicy, s: System, tx: nat, sub: nat, limit: nat, consumer: string, ids: seq<nat>)
    requires tx !in s.open && sub in s.db.subscriptions && 1 <= limit <= MAX_BATCH
    requires Pick(s.db, LockedIds(s.open), sub, s.now, limit) == ids
    ensures Apply(policy, s, DoBegin(tx, sub, limit, consumer))
         == s.(open := s.open[tx := ConsumeTx(sub, consumer, s.now, s.db.subscriptions[sub].visibilityTimeout, ids)])
  { }

  lemma FirstPick(policy: NackPolicy)
    ensures Apply(policy, Posted(), DoBegin(1, 1, 1, "c1")) == FirstPicked()
  {
    PostedPicks();
    assert LockedIds(Posted().open) == {};
    BeginAccepted(policy, Posted(), 1, 1, 1, "c1", [1]);
  }

  lemma SecondPick(policy: NackPolicy)
    ensures Apply(policy, FirstPicked(), DoBegin(2, 1, 1, "c2")) == BothPicked()
  {
    PostedPicks();
    LockedByOne(1, ConsumeTx(1, "c1", 0, 30000, [1]), 1);
    BeginAccepted(policy, FirstPicked(), 2, 1, 1, "c2", [2]);
  }

  lemma FirstCommit(policy: NackPolicy)
    ensures Apply(policy, FirstPicked(), DoCommit(1)) == LeasedOnce()
  {
    assert AttemptsFit(Posted().db, [1]);
    assert FirstPicked().open - {1} == map[];
  }

  lemma TwoSteps(policy: NackPolicy, s0: System, a: Step, s1: System, b: Step, s2: System)
    requires Apply(policy, s0, a) == s1 && Apply(policy, s1, b) == s2
    ensures Run(policy, s0, [a, b]) == s2
  {
    RunTwo(policy, s0, a, b);
  }

  lemma FirstLease(policy: NackPolicy)
    ensures Run(policy, Posted(), [DoBegin(1, 1, 1, "c1"), DoCommit(1)]) == LeasedOnce()
  {
    TwoSteps(policy, Posted(), DoBegin(1, 1, 1, "c1"), FirstPicked(), DoCommit(1), LeasedOnce()) by {
      FirstPick(policy);
      FirstCommit(policy);
    }
  }

  lemma RunTwo(policy: NackPolicy, s: System, a: Step, b: Step)
    ensures Run(policy, s, [a, b]) == Apply(policy, Apply(policy, s, a), b)
  {
    assert [a, b][1..] == [b] && [b][1..] == [];
    assert Run(policy, Apply(policy, s, a), [b]) == Run(policy, Apply(policy, Apply(policy, s, a), b), []);
  }

  lemma BothPick()
    ensures Run(Guarded, Posted(), [DoBegin(1, 1, 1, "c1"), DoBegin(2, 1, 1, "c2")]) == BothPicked()
  {
    TwoSteps(Guarded, Posted(), DoBegin(1, 1, 1, "c1"), FirstPicked(), DoBegin(2, 1, 1, "c2"), BothPicked()) by {
      FirstPick(Guarded);
      SecondPick(Guarded);
    }
  }

  lemma SecondCommits()
    ensures var s := CommitConsume(BothPicked(), 2).0;
      Waiting(s, 1, 2) && SameLane(s.db, 1, 2) && !NeverLeased(s.db, 2)
  {
    assert AttemptsFit(BothPicked().db, [2]);
  }

  /**
   Overlapping Consumes do break first-lease order: the second one passes over the locked
   older message, commits first, and leases the younger message of the same key and priority.
   */
  lemma OverlapOvertakes()
    ensures var steps := SETUP + [DoBegin(1, 1, 1, "c1"), DoBegin(2, 1, 1, "c2")] + [DoCommit(2)];
      var s := Run(Guarded, Init(0), steps);
      Waiting(s, 1, 2) && SameLane(s.db, 1, 2) && !NeverLeased(s.db, 2)
  {
    var begins := [DoBegin(1, 1, 1, "c1"), DoBegin(2, 1, 1, "c2")];
    RunSplit(Guarded, Init(0), SETUP + begins, [DoCommit(2)]);
    RunSplit(Guarded, Init(0), SETUP, begins);
    SetupPosts(Guarded);
    BothPick();
    RunOne(Guarded, BothPicked(), DoCommit(2));
    SecondCommits();
  }

  /** Two overlapping Consumes that commit in the order of their picks lease both messages in order, though the second pick was out of turn. */
  lemma OverlapMayKeepOrder()
    ensures var picked := Run(Guarded, Init(0), SETUP + [DoBegin(1, 1, 1, "c1"), DoBegin(2, 1, 1, "c2")]);
      var one := Apply(Guarded, picked, DoCommit(1));
      var both := Apply(Guarded, one, DoCommit(2));
      !InTurn(picked) && InOrder(picked) && InOrder(one) && InOrder(both) && !NeverLeased(both.db, 1) && !NeverLeased(both.db, 2)
  {
    RunSplit(Guarded, Init(0), SETUP, [DoBegin(1, 1, 1, "c1"), DoBegin(2, 1, 1, "c2")]);
    SetupPosts(Guarded);
    BothPick();
    SecondIsOutOfTurn();
    var one := Apply(Guarded, BothPicked(), DoCommit(1));
    OneCommits();
    CommitOrder(Guarded, BothPicked(), DoCommit(1));
    CommitOrder(Guarded, one, DoCommit(2));
  }

  lemma SecondIsOutOfTurn()
    ensures !InTurn(BothPicked()) && InOrder(BothPicked())
  {
    var s := BothPicked();
    assert Waiting(s, 1, 2) && NeverLeased(s.db, 2) && 2 in s.open[2].picked && 1 !in s.open[2].picked;
  }

  lemma OneCommits()
    ensures !LeasesAhead(BothPicked(), DoCommit(1))
    ensures var one := Apply(Guarded, BothPicked(), DoCommit(1));
      && one.open == map[2 := BothPicked().open[2]] && !NeverLeased(one.db, 1)
      && AttemptsFit(one.db, [2]) && !LeasesAhead(one, DoCommit(2))
      && !NeverLeased(Apply(Guarded, one, DoCommit(2)).db, 1) && !NeverLeased(Apply(Guarded, one, DoCommit(2)).db, 2)
  {
    var one := Apply(Guarded, BothPicked(), DoCommit(1));
    assert AttemptsFit(BothPicked().db, [1]);
    assert one == System(LeaseRows(BothPicked().db, [1], 0, 30000, "c1"), 0, map[2 := BothPicked().open[2]]);
  }

  lemma LateArrival()
    ensures var s := Publish(LeasedOnce(), Request(0, "k"), 5).0;
      Waiting(s, 3, 1) && SameLane(s.db, 3, 1) && !NeverLeased(s.db, 1)
  {
    PublishOne(LeasedOnce(), Request(0, "k"), 5);
  }

  /**
   So do overlapping publishers: a message whose transaction started first but committed last
   finds a later one already leased.
   */
  lemma LateCommitOvertaken()
    ensures var steps := SETUP + [DoBegin(1, 1, 1, "c1"), DoCommit(1)] + [DoPublish(Request(0, "k"), 5)];
      var s := Run(Guarded, Init(0), steps);
      Waiting(s, 3, 1) && SameLane(s.db, 3, 1) && !NeverLeased(s.db, 1)
  {
    var leased := SETUP + [DoBegin(1, 1, 1, "c1"), DoCommit(1)];
    SetupPosts(Guarded);
    FirstLease(Guarded);
    RunSplit(Guarded, Init(0), SETUP, [DoBegin(1, 1, 1, "c1"), DoCommit(1)]);
    RunSplit(Guarded, Init(0), leased, [DoPublish(Request(0, "k"), 5)]);
    RunOne(Guarded, LeasedOnce(), DoPublish(Request(0, "k"), 5));
    LateArrival();
  }

  lemma RunOne(policy: NackPolicy, s: System, a: Step)
    ensures Run(policy, s, [a]) == Apply(policy, s, a)
  {
    assert [a][1..] == [];
    assert Run(policy, Apply(policy, s, a), []) == Apply(policy, s, a);
  }

  function AckedOnce(): System {
    LeasedOnce().(db := SetRow(LeasedOnce().db, 1, AckRow(LeasedOnce().db.deliveries[1], 0)))
  }

  lemma FirstAck()
    ensures Run(Literal, Init(0), SETUP + [DoBegin(1, 1, 1, "c1"), DoCommit(1)] + [DoAck(1, "c1")]) == AckedOnce()
  {
    var leased := SETUP + [DoBegin(1, 1, 1, "c1"), DoCommit(1)];
    SetupPosts(Literal);
    FirstLease(Literal);
    RunSplit(Literal, Init(0), SETUP, [DoBegin(1, 1, 1, "c1"), DoCommit(1)]);
    RunSplit(Literal, Init(0), leased, [DoAck(1, "c1")]);
    RunOne(Literal, LeasedOnce(), DoAck(1, "c1"));
    AckLeasedOnce();
  }

  lemma AckLeasedOnce()
    ensures Apply(Literal, LeasedOnce(), DoAck(1, "c1")) == AckedOnce()
  {
    assert LockedIds(LeasedOnce().open) == {};
  }

  lemma LateNack()
    ensures var s' := Nack(Literal, AckedOnce(), 1, "anyone", "late", true, NoFault).0;
      1 in s'.db.deliveries && s'.db.deliveries[1].state == Pending && Eligible(s'.db, 1, s'.now, 1)
  {
    assert LockedIds(AckedOnce().open) == {};
    assert JoinsNack(AckedOnce().db, 1);
    assert !Exhausted(AckedOnce().db.deliveries[1], 5, true);
  }

  /** With the WHERE clause as listed, a late Nack from anybody puts an acked delivery back into circulation. */
  lemma LiteralNackRevivesAcked()
    ensures var acked := SETUP + [DoBegin(1, 1, 1, "c1"), DoCommit(1)] + [DoAck(1, "c1")];
      var s := Run(Literal, Init(0), acked);
      var s' := Run(Literal, Init(0), acked + [DoNack(1, "anyone", "late", true, NoFault)]);
      && 1 in s.db.deliveries && s.db.deliveries[1].state == Acked
      && 1 in s'.db.deliveries && s'.db.deliveries[1].state == Pending && Eligible(s'.db, 1, s'.now, 1)
  {
    var acked := SETUP + [DoBegin(1, 1, 1, "c1"), DoCommit(1)] + [DoAck(1, "c1")];
    var nack := DoNack(1, "anyone", "late", true, NoFault);
    FirstAck();
    RunSplit(Literal, Init(0), acked, [nack]);
    RunOne(Literal, AckedOnce(), nack);
    LateNack();
  }

  // ----- ExtendLease: the 30-minute cap -----

  function Extensions(n: nat): seq<Step> {
    if n == 0 then [] else Extensions(n - 1) + [DoExtend(1, "c1", 5 * MINUTE)]
  }

  function Extended(s: System, until: Time): System
    requires 1 in s.db.deliveries
  {
    s.(db := SetRow(s.db, 1, s.db.deliveries[1].(leasedUntil := Some(until))))
  }

  /** "c1" may extend delivery 1. */
  ghost predicate Extendable(s: System) {
    && 1 in s.db.deliveries && LockedIds(s.open) == {}
    && LiveLease(s.db.deliveries[1], "c1", s.now) && YoungLease(s.db.deliveries[1], s.now)
  }

  lemma ExtendOnce(s: System, until: Time)
    requires Extendable(s) && until > s.now
    ensures Apply(Guarded, Extended(s, until), DoExtend(1, "c1", 5 * MINUTE)) == Extended(s, until + 5 * MINUTE)
  { }

  lemma RunThen(policy: NackPolicy, s: System, a: seq<Step>, mid: System, step: Step, end: System)
    requires Run(policy, s, a) == mid && Apply(policy, mid, step) == end
    ensures Run(policy, s, a + [step]) == end
  {
    RunSplit(policy, s, a, [step]);
    RunOne(policy, mid, step);
  }

  lemma {:induction false} ExtendsFreely(s: System, until: Time, n: nat)
    requires Extendable(s) && s.db.deliveries[1].leasedUntil == Some(until)
    ensures Run(Guarded, s, Extensions(n)) == Extended(s, until + n * 5 * MINUTE)
  {
    if n == 0 {
      assert s.db.deliveries[1 := s.db.deliveries[1]] == s.db.deliveries;
    } else {
      var mid := until + (n - 1) * 5 * MINUTE;
      RunThen(Guarded, s, Extensions(n - 1), Extended(s, mid), DoExtend(1, "c1", 5 * MINUTE), Extended(s, mid + 5 * MINUTE)) by {
        ExtendsFreely(s, until, n - 1);
        ExtendOnce(s, mid);
      }
    }
  }

  /**
   The guard bounds when an extension is asked for, not how much has been granted: for every n
   there is a run whose n extensions all succeed, so the lease outlasts any total, 30 minutes included.
   */
  lemma ExtensionsUncapped(n: nat)
    ensures var s := Run(Guarded, Init(0), SETUP + [DoBegin(1, 1, 1, "c1"), DoCommit(1)] + Extensions(n));
      && s.now == 0 && 1 in s.db.deliveries
      && LiveLease(s.db.deliveries[1], "c1", s.now) && s.db.deliveries[1].leaseStartedAt == Some(0)
      && s.db.deliveries[1].leasedUntil == Some(30000 + n * 5 * MINUTE)
  {
    SetupPosts(Guarded);
    FirstLease(Guarded);
    assert LockedIds(LeasedOnce().open) == {};
    ExtendsFreely(LeasedOnce(), 30000, n);
    RunSplit(Guarded, Init(0), SETUP, [DoBegin(1, 1, 1, "c1"), DoCommit(1)]);
    RunSplit(Guarded, Init(0), SETUP + [DoBegin(1, 1, 1, "c1"), DoCommit(1)], Extensions(n));
  }

  // ----- max_attempts and crashing consumers -----

  const ROUND: seq<Step> := [DoBegin(1, 1, 16, "c"), DoCommit(1)] + [DoTick(30001)]

  const CRASH_SETUP: seq<Step> := [
    DoCreateTopic("audit.events", 12 * 24 * 60 * MINUTE, 9),
    DoCreateSubscription(1, "audit-worker", 30000, 1, None)] + [DoPublish(Request(0, "k"), 0)]

  function Crashes(n: nat): seq<Step> {
    if n == 0 then CRASH_SETUP else Crashes(n - 1) + ROUND
  }

  /** One message on a subscription with max_attempts = 1, leased n times and never answered. */
  ghost predicate Crashed(s: System, n: nat) {
    && s.open == map[] && s.now == n * 30001
    && s.db.subscriptions == map[1 := Subscription(1, "audit-worker", 30000, 1, None, 1)]
    && s.db.nextDelivery == 2 && s.db.deliveries.Keys == {1} && 1 in s.db.messages
    && s.db.messages[1].availableAt == 0 && s.db.messages[1].expiresAt == 12 * 24 * 60 * MINUTE
    && var d := s.db.deliveries[1];
    && d.messageId == 1 && d.subscriptionId == 1 && d.attemptCount == n
    && (if n == 0 then d.state == Pending
        else d.state == Leased && d.leasedUntil == Some(s.now - 1) && d.leasedBy == Some("c") && d.leaseStartedAt == Some(s.now - 30001))
  }

  lemma CrashedPick(s: System, n: nat, limit: nat)
    requires Crashed(s, n) && n <= SMALLINT_MAX && limit > 0
    ensures LockedIds(s.open) == {} && Pick(s.db, {}, 1, s.now, limit) == [1]
  {
    var k := RowKey(s.db, 1);
    assert Candidates(s.db, {}, 1, s.now, 0) == [] && Candidates(s.db, {}, 1, s.now, 1) == [];
    assert Candidates(s.db, {}, 1, s.now, 2) == [k];
    SortOne(k);
  }

  lemma CrashRound(s: System, n: nat)
    requires Crashed(s, n) && n < SMALLINT_MAX
    ensures Crashed(Run(Guarded, s, ROUND), n + 1)
  {
    CrashedPick(s, n, 16);
    var s1 := Apply(Guarded, s, DoBegin(1, 1, 16, "c"));
    assert s1.open - {1} == map[];
    var s2 := Apply(Guarded, s1, DoCommit(1));
    RunTwo(Guarded, s, DoBegin(1, 1, 16, "c"), DoCommit(1));
    RunSplit(Guarded, s, [DoBegin(1, 1, 16, "c"), DoCommit(1)], [DoTick(30001)]);
    RunOne(Guarded, s2, DoTick(30001));
  }

  lemma CrashStart()
    ensures Crashed(Run(Guarded, Init(0), CRASH_SETUP), 0)
  {
    var admin := [DoCreateTopic("audit.events", 12 * 24 * 60 * MINUTE, 9), DoCreateSubscription(1, "audit-worker", 30000, 1, None)];
    RunSplit(Guarded, Init(0), admin, [DoPublish(Request(0, "k"), 0)]);
    RunTwo(Guarded, Init(0), admin[0], admin[1]);
    var s := Run(Guarded, Init(0), admin);
    PublishOne(s, Request(0, "k"), 0);
    RunOne(Guarded, s, DoPublish(Request(0, "k"), 0));
  }

  lemma {:induction false} CrashesCount(n: nat)
    requires n <= SMALLINT_MAX
    ensures Crashed(Run(Guarded, Init(0), Crashes(n)), n)
  {
    if n == 0 {
      CrashStart();
    } else {
      CrashesCount(n - 1);
      CrashRound(Run(Guarded, Init(0), Crashes(n - 1)), n - 1);
      RunSplit(Guarded, Init(0), Crashes(n - 1), ROUND);
    }
  }

  /**
   Nothing but Nack compares attempts with max_attempts: a message whose consumers keep crashing
   is leased again and again, far beyond max_attempts = 1, until its SMALLINT counter is full; from
   then on every Consume of the subscription, whoever asks and for however many, picks it, fails
   and leases nothing at all.
   */
  lemma CrashLoop(n: nat, tx: nat, limit: nat, consumer: string)
    requires n <= SMALLINT_MAX && 1 <= limit <= 100
    ensures var s := Run(Guarded, Init(0), Crashes(n));
      && 1 in s.db.deliveries && s.db.deliveries[1].attemptCount == n && !s.db.deliveries[1].Terminal()
      && 1 in s.db.subscriptions && s.db.subscriptions[1].maxAttempts == 1
      && (n == SMALLINT_MAX ==> Consume(s, tx, 1, limit, consumer).db == s.db
                                && CommitConsume(BeginConsume(s, tx, 1, limit, consumer).0, tx).1 == SmallintOutOfRange)
  {
    CrashesCount(n);
    if n == SMALLINT_MAX {
      CounterFull(Run(Guarded, Init(0), Crashes(n)), tx, limit, consumer);
    }
  }

  lemma CounterFull(s: System, tx: nat, limit: nat, consumer: string)
    requires Crashed(s, SMALLINT_MAX) && 1 <= limit <= 100
    ensures Consume(s, tx, 1, limit, consumer).db == s.db
    ensures CommitConsume(BeginConsume(s, tx, 1, limit, consumer).0, tx).1 == SmallintOutOfRange
  {
    CrashedPick(s, SMALLINT_MAX, limit);
    var begun := BeginConsume(s, tx, 1, limit, consumer).0;
    assert begun.open[tx].picked == [1] && begun.db == s.db;
    assert !AttemptsFit(s.db, [1]) by { assert [1][0] == 1; }
  }

  // ----- A lease is known by its label -----

  /** "c" was leased delivery 1, let the lease run out, and somebody of the same label has leased it again. */
  lemma LeasedAgain(s: System)
    requires Crashed(s, 1)
    ensures var s' := Run(Guarded, s, [DoBegin(1, 1, 16, "c"), DoCommit(1)]);
      && 1 in s'.db.deliveries && s'.db.deliveries[1].leaseStartedAt == Some(s.now) && s'.db.deliveries[1].attemptCount == 2
      && Ack(s', 1, "c").1 == Done
  {
    CrashedPick(s, 1, 16);
    RunTwo(Guarded, s, DoBegin(1, 1, 16, "c"), DoCommit(1));
    var s1 := Apply(Guarded, s, DoBegin(1, 1, 16, "c"));
    assert s1.open - {1} == map[];
    assert AttemptsFit(s1.db, [1]);
    assert LockedIds(Apply(Guarded, s1, DoCommit(1)).open) == {};
  }

  /**
   So the holder of a lease that ran out can ack the lease of its successor when the labels agree:
   the first lease began at 0 and has run out, the second began at 30001, and an Ack as "c" ends it.
   */
  lemma SameLabelAcks()
    ensures var s := Run(Guarded, Init(0), Crashes(1));
      var s' := Run(Guarded, Init(0), Crashes(1) + [DoBegin(1, 1, 16, "c"), DoCommit(1)]);
      && 1 in s.db.deliveries && s.db.deliveries[1].leasedBy == Some("c") && s.db.deliveries[1].leaseStartedAt == Some(0)
      && Ack(s, 1, "c").1 == FailedPrecondition
      && 1 in s'.db.deliveries && s'.db.deliveries[1].leaseStartedAt == Some(30001) && s'.db.deliveries[1].attemptCount == 2
      && Ack(s', 1, "c").1 == Done
  {
    CrashesCount(1);
    var s := Run(Guarded, Init(0), Crashes(1));
    RunSplit(Guarded, Init(0), Crashes(1), [DoBegin(1, 1, 16, "c"), DoCommit(1)]);
    assert LockedIds(s.open) == {};
    LeasedAgain(s);
  }
}
