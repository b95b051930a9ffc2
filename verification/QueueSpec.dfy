/**
 The queue's tables and its statements, as functions on values.

 Each statement takes the state before it and yields the state after it together with what
 its caller is told.  `now()` is the start time of the transaction a statement runs in, so a
 Consume transaction, which spans several steps, remembers its own.
 */
module QueueSpec {
  import opened Common
  import opened Ordering

  // ----- Tables -----

  datatype Topic = Topic(name: string, defaultTtl: Time, maxPriority: int)

  /** `firstMessage` is a history column: the id the next message had when the row was created. */
  datatype Subscription = Subscription(
    topicId: nat,
    name: string,
    visibilityTimeout: Time,
    maxAttempts: int,
    dlqTopicId: Option<nat>,
    firstMessage: nat)

  datatype Message = Message(
    topicId: nat,
    priority: int,
    partitionKey: Option<string>,
    payload: Bytes,
    headers: map<string, string>,
    producerId: Option<string>,
    enqueuedAt: Time,
    availableAt: Time,
    expiresAt: Time)

  datatype DeliveryState = Pending | Leased | Acked | Dead

  datatype Delivery = Delivery(
    messageId: nat,
    subscriptionId: nat,
    state: DeliveryState,
    attemptCount: nat,
    leasedUntil: Option<Time>,
    leasedBy: Option<string>,
    leaseStartedAt: Option<Time>,
    lastError: Option<string>,
    completedAt: Option<Time>)
  {
    predicate Terminal() { state == Acked || state == Dead }
  }

  datatype DeadLetter = DeadLetter(
    deliveryId: nat,
    subscriptionId: nat,
    messageId: nat,
    payload: Bytes,
    headers: map<string, string>,
    lastError: Option<string>,
    attemptCount: nat,
    movedAt: Time)

  /** The tables and the sequences behind their serial keys. */
  datatype Db = Db(
    topics: map<nat, Topic>,
    subscriptions: map<nat, Subscription>,
    messages: map<nat, Message>,
    deliveries: map<nat, Delivery>,
    deadLetters: seq<DeadLetter>,
    nextTopic: nat,
    nextSubscription: nat,
    nextMessage: nat,
    nextDelivery: nat)

  /** A Consume transaction that has picked and locked rows but not committed. */
  datatype ConsumeTx = ConsumeTx(subscription: nat, consumer: string, at: Time, visibility: Time, picked: seq<nat>)

  datatype System = System(db: Db, now: Time, open: map<nat, ConsumeTx>)

  const SMALLINT_MAX := 32767
  const MAX_BATCH := 100
  const NAME_MAX := 128
  const MAX_EXTENSION: Time := 5 * MINUTE
  const MAX_LEASE_AGE: Time := 30 * MINUTE
  const FORBIDDEN_HEADERS: set<string> := {"authorization", "cookie", "set-cookie"}

  function Init(now: Time): System {
    System(Db(map[], map[], map[], map[], [], 1, 1, 1, 1), now, map[])
  }

  // ----- Row locks -----

  function LockedIds(open: map<nat, ConsumeTx>): set<nat> {
    set tx, id | tx in open && id in open[tx].picked :: id
  }

  // ----- Admin -----

  datatype AdminResult =
    | Created(id: nat) | Deleted | InvalidArgument | NotFound | AlreadyExists | StillReferenced | RowLocked

  predicate TopicNamed(db: Db, name: string) {
    exists t | t in db.topics :: db.topics[t].name == name
  }

  predicate SubscriptionNamed(db: Db, topic: nat, name: string) {
    exists sub | sub in db.subscriptions :: db.subscriptions[sub].topicId == topic && db.subscriptions[sub].name == name
  }

  function CreateTopic(s: System, name: string, ttl: Time, maxPriority: int): (System, AdminResult) {
    var tried := s.db.(nextTopic := s.db.nextTopic + 1);
    if !(0 <= maxPriority <= 9) || |name| > NAME_MAX then (s, InvalidArgument)
    else if TopicNamed(s.db, name) then (s.(db := tried), AlreadyExists)
    else (s.(db := tried.(topics := s.db.topics[s.db.nextTopic := Topic(name, ttl, maxPriority)])), Created(s.db.nextTopic))
  }

  function CreateSubscription(s: System, topic: nat, name: string, visibility: Time, maxAttempts: int, dlq: Option<nat>)
    : (System, AdminResult)
  {
    var tried := s.db.(nextSubscription := s.db.nextSubscription + 1);
    if topic !in s.db.topics || (dlq.Some? && dlq.value !in s.db.topics) then (s, NotFound)
    else if !(1 <= maxAttempts <= 100) || |name| > NAME_MAX then (s, InvalidArgument)
    else if SubscriptionNamed(s.db, topic, name) then (s.(db := tried), AlreadyExists)
    else
      var row := Subscription(topic, name, visibility, maxAttempts, dlq, s.db.nextMessage);
      (s.(db := tried.(subscriptions := s.db.subscriptions[s.db.nextSubscription := row])), Created(s.db.nextSubscription))
  }

  function DeliveriesOf(db: Db, subscription: nat): set<nat> {
    set id | id in db.deliveries && db.deliveries[id].subscriptionId == subscription
  }

  predicate HasDeadLetters(db: Db, subscription: nat) {
    exists i | 0 <= i < |db.deadLetters| :: db.deadLetters[i].subscriptionId == subscription
  }

  /** Deliveries go with their subscription; dead_letters rows do not cascade and keep it alive. */
  function DeleteSubscription(s: System, subscription: nat): (System, AdminResult) {
    if subscription !in s.db.subscriptions then (s, NotFound)
    else if HasDeadLetters(s.db, subscription) then (s, StillReferenced)
    else if DeliveriesOf(s.db, subscription) * LockedIds(s.open) != {} then (s, RowLocked)
    else
      var db := s.db.(subscriptions := s.db.subscriptions - {subscription},
                      deliveries := s.db.deliveries - DeliveriesOf(s.db, subscription));
      (s.(db := db), Deleted)
  }

  // ----- Publish -----

  datatype PublishRequest = PublishRequest(
    topic: nat,
    payload: Bytes,
    priority: int,
    partitionKey: Option<string>,
    headers: map<string, string>,
    producerId: Option<string>,
    availableAt: Option<Time>,
    expiresAt: Option<Time>)

  datatype PublishResult = Published(id: nat) | TopicNotFound | PriorityOutOfRange | ForbiddenHeader

  function NewDelivery(message: nat, subscription: nat): Delivery {
    Delivery(message, subscription, Pending, 0, None, None, None, None, None)
  }

  function InsertDelivery(db: Db, message: nat, subscription: nat): Db {
    db.(deliveries := db.deliveries[db.nextDelivery := NewDelivery(message, subscription)],
        nextDelivery := db.nextDelivery + 1)
  }

  predicate Subscribed(db: Db, subscription: nat, topic: nat) {
    subscription in db.subscriptions && db.subscriptions[subscription].topicId == topic
  }

  /** One delivery row for every subscription of the topic with an id below `upto`. */
  function FanOut(db: Db, message: nat, topic: nat, upto: nat): (r: Db)
    ensures r == db.(deliveries := r.deliveries, nextDelivery := r.nextDelivery)
  {
    if upto == 0 then db
    else
      var rest := FanOut(db, message, topic, upto - 1);
      if Subscribed(db, upto - 1, topic) then InsertDelivery(rest, message, upto - 1) else rest
  }

  function NewMessage(topic: Topic, r: PublishRequest, now: Time): Message {
    Message(r.topic, r.priority, r.partitionKey, r.payload, r.headers, r.producerId, now,
            if r.availableAt.Some? then r.availableAt.value else now,
            if r.expiresAt.Some? then r.expiresAt.value else now + topic.defaultTtl)
  }

  function InsertMessage(db: Db, m: Message): Db {
    var db' := db.(messages := db.messages[db.nextMessage := m], nextMessage := db.nextMessage + 1);
    FanOut(db', db.nextMessage, m.topicId, db.nextSubscription)
  }

  /**
   A publish becomes visible when it commits, but its message carries the start time of its
   transaction, `age` earlier: publishers may overlap and commit in either order.
   */
  function Publish(s: System, r: PublishRequest, age: nat): (System, PublishResult) {
    if r.topic !in s.db.topics then (s, TopicNotFound)
    else if !(0 <= r.priority <= s.db.topics[r.topic].maxPriority) then (s, PriorityOutOfRange)
    else if r.headers.Keys * FORBIDDEN_HEADERS != {} then (s, ForbiddenHeader)
    else
      var db := InsertMessage(s.db, NewMessage(s.db.topics[r.topic], r, s.now - age));
      (s.(db := db), Published(s.db.nextMessage))
  }

  // ----- LeaseMessages, first half: pick and lock -----

  predicate Eligible(db: Db, subscription: nat, at: Time, id: nat) {
    && id in db.deliveries
    && db.deliveries[id].subscriptionId == subscription
    && var d := db.deliveries[id];
    && (d.state == Pending || (d.state == Leased && d.leasedUntil.Some? && d.leasedUntil.value < at))
    && d.messageId in db.messages
    && db.messages[d.messageId].availableAt <= at
    && db.messages[d.messageId].expiresAt > at
  }

  /** priority DESC, enqueued_at ASC, message id ASC */
  function RowKey(db: Db, id: nat): Keyed<nat>
    requires id in db.deliveries && db.deliveries[id].messageId in db.messages
  {
    var d := db.deliveries[id];
    var m := db.messages[d.messageId];
    Keyed(-m.priority, m.enqueuedAt, d.messageId, id)
  }

  /** The eligible rows with ids below `upto` that no other transaction has locked. */
  function Candidates(db: Db, locked: set<nat>, subscription: nat, at: Time, upto: nat): seq<Keyed<nat>> {
    if upto == 0 then []
    else
      var rest := Candidates(db, locked, subscription, at, upto - 1);
      if upto - 1 !in locked && Eligible(db, subscription, at, upto - 1) then rest + [RowKey(db, upto - 1)] else rest
  }

  function Pick(db: Db, locked: set<nat>, subscription: nat, at: Time, limit: nat): seq<nat> {
    Items(Take(Sort(Candidates(db, locked, subscription, at, db.nextDelivery)), limit))
  }

  datatype BeginResult = Picked(ids: seq<nat>) | SubscriptionNotFound | InvalidBatchSize | TxInUse

  function BeginConsume(s: System, tx: nat, subscription: nat, limit: int, consumer: string): (System, BeginResult) {
    if tx in s.open then (s, TxInUse)
    else if subscription !in s.db.subscriptions then (s, SubscriptionNotFound)
    else if !(1 <= limit <= MAX_BATCH) then (s, InvalidBatchSize)
    else
      var ids := Pick(s.db, LockedIds(s.open), subscription, s.now, limit);
      var visibility := s.db.subscriptions[subscription].visibilityTimeout;
      (s.(open := s.open[tx := ConsumeTx(subscription, consumer, s.now, visibility, ids)]), Picked(ids))
  }

  // ----- LeaseMessages, second half: update and commit -----

  function LeaseRow(d: Delivery, at: Time, visibility: Time, consumer: string): Delivery {
    d.(state := Leased, leasedUntil := Some(at + visibility), leasedBy := Some(consumer),
       leaseStartedAt := Some(at), attemptCount := d.attemptCount + 1)
  }

  function LeaseRows(db: Db, ids: seq<nat>, at: Time, visibility: Time, consumer: string): Db {
    db.(deliveries := map id | id in db.deliveries ::
                          if id in ids then LeaseRow(db.deliveries[id], at, visibility, consumer) else db.deliveries[id])
  }

  /** Every attempt_count still fits its SMALLINT column after the increment. */
  predicate AttemptsFit(db: Db, ids: seq<nat>) {
    forall i | 0 <= i < |ids| :: ids[i] in db.deliveries ==> db.deliveries[ids[i]].attemptCount < SMALLINT_MAX
  }

  datatype CommitResult = Committed(ids: seq<nat>) | SmallintOutOfRange | NoSuchTx

  function CommitConsume(s: System, tx: nat): (System, CommitResult) {
    if tx !in s.open then (s, NoSuchTx)
    else
      var t := s.open[tx];
      var closed := s.(open := s.open - {tx});
      if !AttemptsFit(s.db, t.picked) then (closed, SmallintOutOfRange)
      else (closed.(db := LeaseRows(s.db, t.picked, t.at, t.visibility, t.consumer)), Committed(t.picked))
  }

  /** What RETURNING reports of a leased row. */
  datatype LeasedMessage = LeasedMessage(
    deliveryId: nat,
    messageId: nat,
    attemptCount: nat,
    leasedUntil: Option<Time>,
    priority: int,
    partitionKey: Option<string>,
    payload: Bytes,
    headers: map<string, string>,
    producerId: Option<string>,
    enqueuedAt: Time)

  function Returning(id: nat, d: Delivery, m: Message): LeasedMessage {
    LeasedMessage(id, d.messageId, d.attemptCount, d.leasedUntil, m.priority, m.partitionKey, m.payload, m.headers,
                  m.producerId, m.enqueuedAt)
  }

  /** The updated rows joined with their messages. */
  function ReturnedRows(db: Db, ids: seq<nat>): seq<LeasedMessage> {
    if ids == [] then []
    else
      var id := ids[|ids| - 1];
      ReturnedRows(db, ids[..|ids| - 1])
      + if id in db.deliveries && db.deliveries[id].messageId in db.messages
        then [Returning(id, db.deliveries[id], db.messages[db.deliveries[id].messageId])] else []
  }

  /** The connection of a running Consume is lost: its locks go, its work with them. */
  function AbortConsume(s: System, tx: nat): System {
    s.(open := s.open - {tx})
  }

  // ----- Ack -----

  predicate LiveLease(d: Delivery, consumer: string, now: Time) {
    d.state == Leased && d.leasedBy == Some(consumer) && d.leasedUntil.Some? && d.leasedUntil.value > now
  }

  /** Blocked: another transaction holds the row lock, so the statement has to wait. */
  datatype LeaseResult = Done | Blocked | LeaseNotFound | FailedPrecondition | RolledBack | InvalidExtension

  function AckRow(d: Delivery, now: Time): Delivery {
    d.(state := Acked, completedAt := Some(now), leasedUntil := None)
  }

  function SetRow(db: Db, id: nat, d: Delivery): Db {
    db.(deliveries := db.deliveries[id := d])
  }

  function Ack(s: System, id: nat, consumer: string): (System, LeaseResult) {
    if id in LockedIds(s.open) then (s, Blocked)
    else if id !in s.db.deliveries then (s, LeaseNotFound)
    else if !LiveLease(s.db.deliveries[id], consumer, s.now) then (s, FailedPrecondition)
    else (s.(db := SetRow(s.db, id, AckRow(s.db.deliveries[id], s.now))), Done)
  }

  // ----- Nack and the dead-letter transaction -----

  /** Literal is the WHERE clause as listed; Guarded adds the live-lease and owner check. */
  datatype NackPolicy = Literal | Guarded

  /** Where the database fails during the dead-letter transaction, if it does. */
  datatype Fault = NoFault | FailDeadLetter | FailPublish | FailCommit

  predicate Exhausted(d: Delivery, maxAttempts: int, requeue: bool) {
    !requeue || d.attemptCount >= maxAttempts
  }

  function NackRow(d: Delivery, maxAttempts: int, reason: string, requeue: bool, now: Time): Delivery {
    var dead := Exhausted(d, maxAttempts, requeue);
    d.(state := if dead then Dead else Pending, leasedUntil := None, leasedBy := None,
       lastError := Some(reason), completedAt := if dead then Some(now) else None)
  }

  function DeadLetterOf(db: Db, id: nat, now: Time): DeadLetter
    requires id in db.deliveries && db.deliveries[id].messageId in db.messages
  {
    var d := db.deliveries[id];
    var m := db.messages[d.messageId];
    DeadLetter(id, d.subscriptionId, d.messageId, m.payload, m.headers, d.lastError, d.attemptCount, now)
  }

  function InsertDeadLetter(db: Db, id: nat, now: Time): Db
    requires id in db.deliveries && db.deliveries[id].messageId in db.messages
  {
    db.(deadLetters := db.deadLetters + [DeadLetterOf(db, id, now)])
  }

  /** The message published on the dead-letter topic: same payload and headers, defaults elsewhere. */
  function DlqRequest(m: Message, topic: nat): PublishRequest {
    PublishRequest(topic, m.payload, 0, None, m.headers, None, None, None)
  }

  function Republish(db: Db, m: Message, dlq: Option<nat>, now: Time): Db {
    if dlq.Some? && dlq.value in db.topics
    then InsertMessage(db, NewMessage(db.topics[dlq.value], DlqRequest(m, dlq.value), now))
    else db
  }

  /** A rollback restores every table; sequences do not take part in transactions. */
  function Rollback(before: Db, during: Db): Db {
    before.(nextMessage := during.nextMessage, nextDelivery := during.nextDelivery)
  }

  predicate JoinsNack(db: Db, id: nat) {
    && id in db.deliveries
    && db.deliveries[id].subscriptionId in db.subscriptions
    && db.deliveries[id].messageId in db.messages
  }

  function NackTransaction(db: Db, id: nat, reason: string, requeue: bool, now: Time, fault: Fault): (Db, LeaseResult)
    requires JoinsNack(db, id)
  {
    var d := db.deliveries[id];
    var sub := db.subscriptions[d.subscriptionId];
    var updated := SetRow(db, id, NackRow(d, sub.maxAttempts, reason, requeue, now));
    if !Exhausted(d, sub.maxAttempts, requeue) then
      if fault == FailCommit then (db, RolledBack) else (updated, Done)
    else if fault == FailDeadLetter then (db, RolledBack)
    else
      var moved := InsertDeadLetter(updated, id, now);
      if fault == FailPublish && sub.dlqTopicId.Some? then (db, RolledBack)
      else
        var published := Republish(moved, db.messages[d.messageId], sub.dlqTopicId, now);
        if fault == FailCommit then (Rollback(db, published), RolledBack) else (published, Done)
  }

  function Nack(policy: NackPolicy, s: System, id: nat, consumer: string, reason: string, requeue: bool, fault: Fault)
    : (System, LeaseResult)
  {
    if id in LockedIds(s.open) then (s, Blocked)
    else if !JoinsNack(s.db, id) then (s, LeaseNotFound)
    else if policy == Guarded && !LiveLease(s.db.deliveries[id], consumer, s.now) then (s, FailedPrecondition)
    else
      var (db, r) := NackTransaction(s.db, id, reason, requeue, s.now, fault);
      (s.(db := db), r)
  }

  // ----- ExtendLease -----

  function ExtendRow(d: Delivery, additional: Time): Delivery {
    if d.leasedUntil.Some? then d.(leasedUntil := Some(d.leasedUntil.value + additional)) else d
  }

  predicate YoungLease(d: Delivery, now: Time) {
    d.leaseStartedAt.Some? && now - d.leaseStartedAt.value <= MAX_LEASE_AGE
  }

  function ExtendLease(s: System, id: nat, consumer: string, additional: Time): (System, LeaseResult) {
    if !(0 < additional <= MAX_EXTENSION) then (s, InvalidExtension)
    else if id in LockedIds(s.open) then (s, Blocked)
    else if id !in s.db.deliveries then (s, LeaseNotFound)
    else
      var d := s.db.deliveries[id];
      if LiveLease(d, consumer, s.now) && YoungLease(d, s.now)
      then (s.(db := SetRow(s.db, id, ExtendRow(d, additional))), Done)
      else (s, FailedPrecondition)
  }

  // ----- Retention -----

  predicate Expired(db: Db, id: nat, now: Time) {
    && JoinsNack(db, id)
    && !db.deliveries[id].Terminal()
    && db.messages[db.deliveries[id].messageId].expiresAt < now
  }

  function ExpireRow(d: Delivery): Delivery {
    d.(state := Dead, lastError := Some("expired"))
  }

  function ExpireOne(db: Db, id: nat, now: Time): Db
    requires JoinsNack(db, id)
  {
    var dead := SetRow(db, id, ExpireRow(db.deliveries[id]));
    if db.subscriptions[db.deliveries[id].subscriptionId].dlqTopicId.Some? then InsertDeadLetter(dead, id, now) else dead
  }

  function Sweep(db: Db, now: Time, upto: nat): Db {
    if upto == 0 then db
    else
      var rest := Sweep(db, now, upto - 1);
      if Expired(rest, upto - 1, now) then ExpireOne(rest, upto - 1, now) else rest
  }

  predicate SweepBlocked(s: System) {
    exists id | id in LockedIds(s.open) :: Expired(s.db, id, s.now)
  }

  function Retention(s: System): System {
    if SweepBlocked(s) then s else s.(db := Sweep(s.db, s.now, s.db.nextDelivery))
  }

  // ----- Runs -----

  datatype Step =
    | DoCreateTopic(name: string, ttl: Time, maxPriority: int)
    | DoCreateSubscription(topic: nat, name: string, visibility: Time, maxAttempts: int, dlq: Option<nat>)
    | DoDeleteSubscription(subscription: nat)
    | DoPublish(request: PublishRequest, age: nat)
    | DoBegin(tx: nat, subscription: nat, limit: int, consumer: string)
    | DoCommit(tx: nat)
    | DoAbort(tx: nat)
    | DoAck(id: nat, consumer: string)
    | DoNack(id: nat, consumer: string, reason: string, requeue: bool, fault: Fault)
    | DoExtend(id: nat, consumer: string, additional: Time)
    | DoRetention
    | DoTick(elapsed: nat)

  function Apply(policy: NackPolicy, s: System, step: Step): System {
    match step
    case DoCreateTopic(name, ttl, maxPriority) => CreateTopic(s, name, ttl, maxPriority).0
    case DoCreateSubscription(topic, name, visibility, maxAttempts, dlq) =>
      CreateSubscription(s, topic, name, visibility, maxAttempts, dlq).0
    case DoDeleteSubscription(subscription) => DeleteSubscription(s, subscription).0
    case DoPublish(request, age) => Publish(s, request, age).0
    case DoBegin(tx, subscription, limit, consumer) => BeginConsume(s, tx, subscription, limit, consumer).0
    case DoCommit(tx) => CommitConsume(s, tx).0
    case DoAbort(tx) => AbortConsume(s, tx)
    case DoAck(id, consumer) => Ack(s, id, consumer).0
    case DoNack(id, consumer, reason, requeue, fault) => Nack(policy, s, id, consumer, reason, requeue, fault).0
    case DoExtend(id, consumer, additional) => ExtendLease(s, id, consumer, additional).0
    case DoRetention => Retention(s)
    case DoTick(elapsed) => s.(now := s.now + elapsed)
  }

  function Run(policy: NackPolicy, s: System, steps: seq<Step>): System
    decreases |steps|
  {
    if steps == [] then s else Run(policy, Apply(policy, s, steps[0]), steps[1..])
  }
}
