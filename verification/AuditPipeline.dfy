/**
 The asynchronous path end to end: queue, audit workers, audit store.

 A worker keeps what its Consume handed it, inserts a valid event, and acks only after the
 insert or its duplicate; it nacks what does not validate; on anything else it stays silent.
 Workers crash at any time, leases run out, deliveries come again, other producers write to the
 store directly.
 */
module AuditPipeline {
  import opened Common
  import Queue = QueueSpec
  import Store = AuditStore
  import opened Tables
  import opened Steps
  import opened Conservation
  import Outcomes
  import Scheduler
  import Effects

  /** A delivery a worker has received and not forgotten. */
  datatype Task = Task(worker: string, delivery: nat, message: nat)

  datatype Pipeline = Pipeline(queue: Queue.System, store: Store.Store, inbox: set<Task>, done: set<Task>)

  /** The worker's validation: the event in the payload, or None. */
  type Decoder = Bytes -> Option<Store.Event>

  datatype Move =
    | QueueMove(step: Queue.Step)
    | WorkerInsert(task: Task)
    | WorkerAck(task: Task)
    | WorkerReject(task: Task, reason: string, fault: Queue.Fault)
    | WorkerCrash(worker: string)
    | SyncInsert(event: Store.Event)

  function ValidEvent(db: Queue.Db, decode: Decoder, message: nat): Option<Store.Event> {
    if message !in db.messages then None
    else
      var e := decode(db.messages[message].payload);
      if e.Some? && Store.ChecksHold(e.value) then e else None
  }

  /** Only the workers answer for the deliveries of their subscription. */
  predicate AnswersFor(s: Queue.System, sub: nat, step: Queue.Step) {
    (step.DoAck? || step.DoNack?) && step.id in s.db.deliveries && s.db.deliveries[step.id].subscriptionId == sub
  }

  /** The tasks a committed Consume on the workers' subscription hands out. */
  function Received(s: Queue.System, sub: nat, step: Queue.Step): set<Task> {
    if step.DoCommit? && step.tx in s.open && s.open[step.tx].subscription == sub
       && Queue.AttemptsFit(s.db, s.open[step.tx].picked)
    then set id | id in s.open[step.tx].picked && id in s.db.deliveries ::
           Task(s.open[step.tx].consumer, id, s.db.deliveries[id].messageId)
    else {}
  }

  function Apply(p: Pipeline, sub: nat, decode: Decoder, move: Move): Pipeline {
    match move
    case QueueMove(step) =>
      if AnswersFor(p.queue, sub, step) then p
      else p.(queue := Queue.Apply(Queue.Guarded, p.queue, step), inbox := p.inbox + Received(p.queue, sub, step))
    case WorkerInsert(task) =>
      var e := ValidEvent(p.queue.db, decode, task.message);
      if task !in p.inbox || e.None? then p
      else
        var (store, r) := Store.Record(p.store, e.value, p.queue.now);
        p.(store := store, done := if r.Recorded? then p.done + {task} else p.done)
    case WorkerAck(task) =>
      if task !in p.done then p
      else p.(queue := Queue.Apply(Queue.Guarded, p.queue, Queue.DoAck(task.delivery, task.worker)))
    case WorkerReject(task, reason, fault) =>
      if task !in p.inbox || ValidEvent(p.queue.db, decode, task.message).Some? then p
      else
        var nack := Queue.DoNack(task.delivery, task.worker, reason, false, fault);
        p.(queue := Queue.Apply(Queue.Guarded, p.queue, nack))
    case WorkerCrash(worker) =>
      p.(inbox := (set t | t in p.inbox && t.worker != worker), done := (set t | t in p.done && t.worker != worker))
    case SyncInsert(event) =>
      p.(store := Store.Record(p.store, event, p.queue.now).0)
  }

  function Run(p: Pipeline, sub: nat, decode: Decoder, moves: seq<Move>): Pipeline
    decreases |moves|
  {
    if moves == [] then p else Run(Apply(p, sub, decode, moves[0]), sub, decode, moves[1..])
  }

  function Init(now: Time): Pipeline {
    Pipeline(Queue.Init(now), Store.Store([], 1), {}, {})
  }

  // ----- Invariant -----

  ghost predicate Stored(store: Store.Store, eventId: string) {
    Store.Lookup(store.rows, eventId).Some?
  }

  /** The message carries a valid event and the store has a row with its event id. */
  ghost predicate Accounted(p: Pipeline, decode: Decoder, message: nat) {
    var e := ValidEvent(p.queue.db, decode, message);
    e.Some? && Stored(p.store, e.value.eventId)
  }

  /** A task names a message that exists, and its delivery, while it exists, is of that message. */
  ghost predicate TaskWf(s: Queue.System, sub: nat, t: Task) {
    && t.message in s.db.messages
    && t.delivery < s.db.nextDelivery
    && (t.delivery in s.db.deliveries ==>
          s.db.deliveries[t.delivery].messageId == t.message && s.db.deliveries[t.delivery].subscriptionId == sub)
  }

  ghost predicate DeliveryWf(p: Pipeline, sub: nat, decode: Decoder, id: nat)
    requires id in p.queue.db.deliveries
  {
    var d := p.queue.db.deliveries[id];
    d.subscriptionId == sub ==>
      && d.messageId in p.queue.db.messages
      && (d.state == Queue.Acked ==> Accounted(p, decode, d.messageId))
      && (d.state == Queue.Dead && ValidEvent(p.queue.db, decode, d.messageId).Some? ==>
            p.queue.db.messages[d.messageId].expiresAt < p.queue.now)
  }

  ghost predicate PipeInv(p: Pipeline, sub: nat, decode: Decoder) {
    && Inv(p.queue)
    && Store.StoreWf(p.store)
    && (forall t | t in p.inbox || t in p.done :: TaskWf(p.queue, sub, t))
    && (forall t | t in p.done :: Accounted(p, decode, t.message))
    && (forall id | id in p.queue.db.deliveries :: DeliveryWf(p, sub, decode, id))
  }

  // ----- Preservation -----

  /** A queue step keeps tasks sound: delivery ids are never reused, messages never change. */
  lemma TaskStays(s: Queue.System, sub: nat, step: Queue.Step, t: Task)
    requires Inv(s) && TaskWf(s, sub, t)
    ensures TaskWf(Queue.Apply(Queue.Guarded, s, step), sub, t)
  {
    StepGrows(Queue.Guarded, s, step);
    var s' := Queue.Apply(Queue.Guarded, s, step);
    if t.delivery in s'.db.deliveries && t.delivery in s.db.deliveries {
      RowChange(Queue.Guarded, s, step, t.delivery);
    }
  }

  /** What a step outside the workers' answers does to a delivery of theirs never ends it, except by expiry. */
  lemma OthersOnlyExpire(s: Queue.System, sub: nat, step: Queue.Step, id: nat)
    requires Inv(s) && !AnswersFor(s, sub, step)
    requires id in s.db.deliveries && id in Queue.Apply(Queue.Guarded, s, step).db.deliveries
    requires s.db.deliveries[id].subscriptionId == sub
    ensures var d, d' := s.db.deliveries[id], Queue.Apply(Queue.Guarded, s, step).db.deliveries[id];
      && d'.messageId == d.messageId && d'.subscriptionId == sub
      && (d' == d || d'.state == Queue.Leased
          || (d'.state == Queue.Dead && d.messageId in s.db.messages && s.db.messages[d.messageId].expiresAt < s.now))
  {
    RowChange(Queue.Guarded, s, step, id);
  }

  lemma AccountedStays(p: Pipeline, p': Pipeline, decode: Decoder, message: nat)
    requires Accounted(p, decode, message)
    requires p.store.rows <= p'.store.rows
    requires message in p'.queue.db.messages && p'.queue.db.messages[message] == p.queue.db.messages[message]
    ensures Accounted(p', decode, message)
  {
    var e := ValidEvent(p.queue.db, decode, message).value;
    Store.LookupStable(p.store.rows, p'.store.rows[|p.store.rows|..], e.eventId);
    assert p'.store.rows == p.store.rows + p'.store.rows[|p.store.rows|..];
  }

  /** Whatever became of a delivery, it is sound if it was not finished, or finished for a good reason. */
  lemma MovedDelivery(p: Pipeline, p': Pipeline, sub: nat, decode: Decoder, id: nat)
    requires id in p.queue.db.deliveries && id in p'.queue.db.deliveries && DeliveryWf(p, sub, decode, id)
    requires p.store.rows <= p'.store.rows && p.queue.now <= p'.queue.now
    requires forall m | m in p.queue.db.messages :: m in p'.queue.db.messages && p'.queue.db.messages[m] == p.queue.db.messages[m]
    requires var d, d' := p.queue.db.deliveries[id], p'.queue.db.deliveries[id];
      && d'.messageId == d.messageId && d'.subscriptionId == d.subscriptionId
      && (d.subscriptionId == sub ==> d' == d || match d'.state
            case Acked => Accounted(p, decode, d.messageId)
            case Dead => ValidEvent(p.queue.db, decode, d.messageId).None?
                         || (d.messageId in p.queue.db.messages && p.queue.db.messages[d.messageId].expiresAt < p'.queue.now)
            case _ => true)
    ensures DeliveryWf(p', sub, decode, id)
  {
    var m := p.queue.db.deliveries[id].messageId;
    if p.queue.db.deliveries[id].subscriptionId == sub && Accounted(p, decode, m) {
      AccountedStays(p, p', decode, m);
    }
  }

  lemma FreshDelivery(p: Pipeline, p': Pipeline, sub: nat, decode: Decoder, step: Queue.Step, id: nat)
    requires Inv(p.queue) && p'.queue == Queue.Apply(Queue.Guarded, p.queue, step)
    requires id in p'.queue.db.deliveries && id !in p.queue.db.deliveries
    ensures DeliveryWf(p', sub, decode, id)
  {
    NewRow(Queue.Guarded, p.queue, step, id);
    TablesKept(Queue.Guarded, p.queue, step);
    assert RowWf(p'.queue.db, id);
  }

  lemma QueueMoveDelivery(p: Pipeline, sub: nat, decode: Decoder, step: Queue.Step, id: nat)
    requires PipeInv(p, sub, decode) && !AnswersFor(p.queue, sub, step)
    requires id in Apply(p, sub, decode, QueueMove(step)).queue.db.deliveries
    ensures DeliveryWf(Apply(p, sub, decode, QueueMove(step)), sub, decode, id)
  {
    var p' := Apply(p, sub, decode, QueueMove(step));
    if id in p.queue.db.deliveries {
      assert DeliveryWf(p, sub, decode, id);
      StepGrows(Queue.Guarded, p.queue, step);
      SameOwner(p.queue, step, id);
      if p.queue.db.deliveries[id].subscriptionId == sub { OthersOnlyExpire(p.queue, sub, step, id); }
      MovedDelivery(p, p', sub, decode, id);
    } else {
      FreshDelivery(p, p', sub, decode, step, id);
    }
  }

  lemma SameOwner(s: Queue.System, step: Queue.Step, id: nat)
    requires Inv(s) && id in s.db.deliveries && id in Queue.Apply(Queue.Guarded, s, step).db.deliveries
    ensures var d' := Queue.Apply(Queue.Guarded, s, step).db.deliveries[id];
      d'.subscriptionId == s.db.deliveries[id].subscriptionId && d'.messageId == s.db.deliveries[id].messageId
  {
    RowChange(Queue.Guarded, s, step, id);
  }

  lemma ReceivedWf(s: Queue.System, sub: nat, step: Queue.Step, t: Task)
    requires Inv(s) && t in Received(s, sub, step)
    ensures TaskWf(s, sub, t)
  {
    assert TxWf(s, step.tx);
    assert Queue.Eligible(s.db, sub, s.open[step.tx].at, t.delivery);
    assert RowWf(s.db, t.delivery);
  }

  lemma QueueMoveKeeps(p: Pipeline, sub: nat, decode: Decoder, step: Queue.Step)
    requires PipeInv(p, sub, decode) && !AnswersFor(p.queue, sub, step)
    ensures PipeInv(Apply(p, sub, decode, QueueMove(step)), sub, decode)
  {
    var p' := Apply(p, sub, decode, QueueMove(step));
    StepKeepsInv(Queue.Guarded, p.queue, step);
    StepGrows(Queue.Guarded, p.queue, step);
    forall t | t in p'.inbox || t in p'.done ensures TaskWf(p'.queue, sub, t) {
      if t !in p.inbox && t !in p.done { ReceivedWf(p.queue, sub, step, t); }
      TaskStays(p.queue, sub, step, t);
    }
    forall t | t in p'.done ensures Accounted(p', decode, t.message) {
      assert TaskWf(p.queue, sub, t);
      AccountedStays(p, p', decode, t.message);
    }
    forall id | id in p'.queue.db.deliveries ensures DeliveryWf(p', sub, decode, id) {
      QueueMoveDelivery(p, sub, decode, step, id);
    }
  }

  /** A worker's answer is an ordinary guarded queue step on one of its own deliveries. */
  lemma AnswerKeeps(p: Pipeline, sub: nat, decode: Decoder, step: Queue.Step, t: Task)
    requires PipeInv(p, sub, decode)
    requires t in p.inbox || t in p.done
    requires (step.DoAck? && t in p.done) || (step.DoNack? && ValidEvent(p.queue.db, decode, t.message).None?)
    requires step.id == t.delivery
    ensures PipeInv(p.(queue := Queue.Apply(Queue.Guarded, p.queue, step)), sub, decode)
  {
    var p' := p.(queue := Queue.Apply(Queue.Guarded, p.queue, step));
    StepKeepsInv(Queue.Guarded, p.queue, step);
    StepGrows(Queue.Guarded, p.queue, step);
    assert TaskWf(p.queue, sub, t);
    forall u | u in p'.inbox || u in p'.done ensures TaskWf(p'.queue, sub, u) {
      TaskStays(p.queue, sub, step, u);
    }
    forall u | u in p'.done ensures Accounted(p', decode, u.message) {
      assert TaskWf(p.queue, sub, u);
      AccountedStays(p, p', decode, u.message);
    }
    forall id | id in p'.queue.db.deliveries ensures DeliveryWf(p', sub, decode, id) {
      AnswerDelivery(p, sub, decode, step, t, id);
    }
  }

  lemma AnswerDelivery(p: Pipeline, sub: nat, decode: Decoder, step: Queue.Step, t: Task, id: nat)
    requires PipeInv(p, sub, decode)
    requires t in p.inbox || t in p.done
    requires (step.DoAck? && t in p.done) || (step.DoNack? && ValidEvent(p.queue.db, decode, t.message).None?)
    requires step.id == t.delivery
    requires id in Queue.Apply(Queue.Guarded, p.queue, step).db.deliveries
    ensures DeliveryWf(p.(queue := Queue.Apply(Queue.Guarded, p.queue, step)), sub, decode, id)
  {
    var p' := p.(queue := Queue.Apply(Queue.Guarded, p.queue, step));
    assert TaskWf(p.queue, sub, t);
    if id in p.queue.db.deliveries {
      assert DeliveryWf(p, sub, decode, id);
      StepGrows(Queue.Guarded, p.queue, step);
      RowChange(Queue.Guarded, p.queue, step, id);
      MovedDelivery(p, p', sub, decode, id);
    } else {
      FreshDelivery(p, p', sub, decode, step, id);
    }
  }

  /** A write to the store only adds to what is accounted for. */
  lemma StoreMoveKeeps(p: Pipeline, sub: nat, decode: Decoder, e: Store.Event, done: set<Task>)
    requires PipeInv(p, sub, decode)
    requires forall t | t in done :: t in p.done
               || (t in p.inbox && Store.ChecksHold(e) && ValidEvent(p.queue.db, decode, t.message) == Some(e))
    ensures PipeInv(p.(store := Store.Record(p.store, e, p.queue.now).0, done := done), sub, decode)
  {
    var p' := p.(store := Store.Record(p.store, e, p.queue.now).0, done := done);
    Store.InsertKeeps(p.store, e, p.queue.now);
    forall t | t in p'.done ensures Accounted(p', decode, t.message) {
      assert TaskWf(p.queue, sub, t);
      if t in p.done { AccountedStays(p, p', decode, t.message); }
    }
    forall id | id in p'.queue.db.deliveries ensures DeliveryWf(p', sub, decode, id) {
      assert DeliveryWf(p, sub, decode, id);
      var m := p.queue.db.deliveries[id].messageId;
      if Accounted(p, decode, m) { AccountedStays(p, p', decode, m); }
    }
  }

  lemma InsertMoveKeeps(p: Pipeline, sub: nat, decode: Decoder, task: Task)
    requires PipeInv(p, sub, decode)
    ensures PipeInv(Apply(p, sub, decode, WorkerInsert(task)), sub, decode)
  {
    var e := ValidEvent(p.queue.db, decode, task.message);
    if task in p.inbox && e.Some? {
      var r := Store.Record(p.store, e.value, p.queue.now).1;
      StoreMoveKeeps(p, sub, decode, e.value, if r.Recorded? then p.done + {task} else p.done);
    }
  }

  lemma AckMoveKeeps(p: Pipeline, sub: nat, decode: Decoder, task: Task)
    requires PipeInv(p, sub, decode)
    ensures PipeInv(Apply(p, sub, decode, WorkerAck(task)), sub, decode)
  {
    if task in p.done { AnswerKeeps(p, sub, decode, Queue.DoAck(task.delivery, task.worker), task); }
  }

  lemma RejectMoveKeeps(p: Pipeline, sub: nat, decode: Decoder, task: Task, reason: string, fault: Queue.Fault)
    requires PipeInv(p, sub, decode)
    ensures PipeInv(Apply(p, sub, decode, WorkerReject(task, reason, fault)), sub, decode)
  {
    if task in p.inbox && ValidEvent(p.queue.db, decode, task.message).None? {
      AnswerKeeps(p, sub, decode, Queue.DoNack(task.delivery, task.worker, reason, false, fault), task);
    }
  }

  lemma MoveKeeps(p: Pipeline, sub: nat, decode: Decoder, move: Move)
    requires PipeInv(p, sub, decode)
    ensures PipeInv(Apply(p, sub, decode, move), sub, decode)
  {
    if move.QueueMove? {
      if !AnswersFor(p.queue, sub, move.step) { QueueMoveKeeps(p, sub, decode, move.step); }
    } else if move.WorkerInsert? {
      InsertMoveKeeps(p, sub, decode, move.task);
    } else if move.WorkerAck? {
      AckMoveKeeps(p, sub, decode, move.task);
    } else if move.WorkerReject? {
      RejectMoveKeeps(p, sub, decode, move.task, move.reason, move.fault);
    } else if move.WorkerCrash? {
      CrashKeeps(p, sub, decode, move.worker);
    } else {
      StoreMoveKeeps(p, sub, decode, move.event, p.done);
    }
  }

  lemma CrashKeeps(p: Pipeline, sub: nat, decode: Decoder, worker: string)
    requires PipeInv(p, sub, decode)
    ensures PipeInv(Apply(p, sub, decode, WorkerCrash(worker)), sub, decode)
  {
    var p' := Apply(p, sub, decode, WorkerCrash(worker));
    forall id | id in p'.queue.db.deliveries ensures DeliveryWf(p', sub, decode, id) {
      assert DeliveryWf(p, sub, decode, id);
    }
    forall t | t in p'.done ensures Accounted(p', decode, t.message) { assert Accounted(p, decode, t.message); }
  }

  lemma {:induction false} MovesKeep(p: Pipeline, sub: nat, decode: Decoder, moves: seq<Move>)
    requires PipeInv(p, sub, decode)
    ensures PipeInv(Run(p, sub, decode, moves), sub, decode)
    decreases |moves|
  {
    if moves != [] {
      MoveKeeps(p, sub, decode, moves[0]);
      MovesKeep(Apply(p, sub, decode, moves[0]), sub, decode, moves[1..]);
    }
  }

  lemma InitKeeps(start: Time, sub: nat, decode: Decoder)
    ensures PipeInv(Init(start), sub, decode)
  {
    InitInv(start);
  }

  // ----- End to end -----

  ghost function RowsWith(store: Store.Store, eventId: string): set<int> {
    set i | 0 <= i < |store.rows| && store.rows[i].event.eventId == eventId
  }

  /** An event id that has been stored has exactly one row; one that has not has none. */
  lemma ExactlyOneRow(store: Store.Store, eventId: string)
    requires Store.StoreWf(store)
    ensures |RowsWith(store, eventId)| == if Stored(store, eventId) then 1 else 0
  {
    Store.LookupFinds(store.rows, eventId);
    if Stored(store, eventId) {
      var row := Store.Lookup(store.rows, eventId).value;
      var i :| 0 <= i < |store.rows| && store.rows[i] == row;
      assert RowsWith(store, eventId) == {i};
    } else {
      assert forall i | 0 <= i < |store.rows| :: store.rows[i] in store.rows;
      assert RowsWith(store, eventId) == {};
    }
  }

  /**
   Over every run, a delivery that a worker has acked carried a valid event whose id has exactly
   one row in the store; and no event id ever has two.
   */
  lemma AckedIsStoredOnce(start: Time, sub: nat, decode: Decoder, moves: seq<Move>, id: nat)
    requires id in Run(Init(start), sub, decode, moves).queue.db.deliveries
    requires Run(Init(start), sub, decode, moves).queue.db.deliveries[id].subscriptionId == sub
    requires Run(Init(start), sub, decode, moves).queue.db.deliveries[id].state == Queue.Acked
    ensures var p := Run(Init(start), sub, decode, moves);
      var e := ValidEvent(p.queue.db, decode, p.queue.db.deliveries[id].messageId);
      e.Some? && |RowsWith(p.store, e.value.eventId)| == 1
  {
    InitKeeps(start, sub, decode);
    MovesKeep(Init(start), sub, decode, moves);
    var p := Run(Init(start), sub, decode, moves);
    assert DeliveryWf(p, sub, decode, id);
    ExactlyOneRow(p.store, ValidEvent(p.queue.db, decode, p.queue.db.deliveries[id].messageId).value.eventId);
  }

  lemma NeverTwoRows(start: Time, sub: nat, decode: Decoder, moves: seq<Move>, eventId: string)
    ensures |RowsWith(Run(Init(start), sub, decode, moves).store, eventId)| <= 1
  {
    InitKeeps(start, sub, decode);
    MovesKeep(Init(start), sub, decode, moves);
    ExactlyOneRow(Run(Init(start), sub, decode, moves).store, eventId);
  }

  /** Locked by a running Consume, held by a worker, or available: where an unanswered delivery can be. */
  ghost predicate StillComing(s: Queue.System, sub: nat, id: nat) {
    && id in s.db.deliveries
    && (id in Queue.LockedIds(s.open) || Outcomes.Held(s, id) || Scheduler.Available(s.db, Queue.LockedIds(s.open), sub, s.now, id))
  }

  /**
   At least once: every valid event published for the workers has its one delivery.  It is acked
   with the event stored, or was buried after the event had expired, or is unanswered; and an
   unanswered one whose event is due and unexpired is locked, held or available to the next
   Consume.  Crashes, lost leases and rejections never end it otherwise.
   */
  lemma NoValidEventLost(start: Time, sub: nat, decode: Decoder, moves: seq<Move>, m: nat)
    requires m in OwedTo(Run(Init(start), sub, decode, moves).queue.db, sub)
    requires ValidEvent(Run(Init(start), sub, decode, moves).queue.db, decode, m).Some?
    ensures var p := Run(Init(start), sub, decode, moves);
      exists id :: TheDelivery(p.queue.db, m, sub, id) &&
        match p.queue.db.deliveries[id].state
        case Acked => Accounted(p, decode, m)
        case Dead => p.queue.db.messages[m].expiresAt < p.queue.now
        case _ => Outcomes.Deliverable(p.queue, id) ==> StillComing(p.queue, sub, id)
  {
    InitKeeps(start, sub, decode);
    MovesKeep(Init(start), sub, decode, moves);
    var p := Run(Init(start), sub, decode, moves);
    ExactlyOneEach(p.queue.db, p.queue.now, sub);
    var id :| TheDelivery(p.queue.db, m, sub, id);
    assert DeliveryWf(p, sub, decode, id);
    assert RowWf(p.queue.db, id);
  }

  // ----- Progress -----

  /** What a committed Consume on the workers' subscription hands to its worker. */
  lemma CommitHandsOut(p: Pipeline, sub: nat, decode: Decoder, tx: nat, id: nat)
    requires Inv(p.queue) && tx in p.queue.open && p.queue.open[tx].subscription == sub && id in p.queue.open[tx].picked
    requires Queue.CommitConsume(p.queue, tx).1.Committed?
    ensures var p' := Apply(p, sub, decode, QueueMove(Queue.DoCommit(tx)));
      && p'.queue == Queue.CommitConsume(p.queue, tx).0 && p'.store == p.store && p'.done == p.done
      && id in p.queue.db.deliveries
      && Task(p.queue.open[tx].consumer, id, p.queue.db.deliveries[id].messageId) in p'.inbox
  {
    Effects.CommitExact(Queue.Guarded, p.queue, tx);
  }

  /** A worker's insert of a valid event leaves one row of its id and lets the worker ack; the queue does not notice. */
  lemma InsertStores(p: Pipeline, sub: nat, decode: Decoder, task: Task)
    requires Store.StoreWf(p.store) && task in p.inbox && ValidEvent(p.queue.db, decode, task.message).Some?
    ensures var p' := Apply(p, sub, decode, WorkerInsert(task));
      && p' == p.(store := p'.store, done := p.done + {task})
      && |RowsWith(p'.store, ValidEvent(p.queue.db, decode, task.message).value.eventId)| == 1
  {
    var e := ValidEvent(p.queue.db, decode, task.message).value;
    Store.RecordExact(p.store, e, p.queue.now);
    Store.InsertKeeps(p.store, e, p.queue.now);
    ExactlyOneRow(Store.Record(p.store, e, p.queue.now).0, e.eventId);
  }

  /** A worker's ack within its lease ends the delivery now. */
  lemma AckEnds(p: Pipeline, sub: nat, decode: Decoder, task: Task)
    requires task in p.done && Effects.MayAnswer(p.queue, task.delivery, task.worker)
    ensures var p' := Apply(p, sub, decode, WorkerAck(task));
      && p'.store == p.store && task.delivery in p'.queue.db.deliveries
      && p'.queue.db.deliveries[task.delivery].state == Queue.Acked
      && p'.queue.db.deliveries[task.delivery].completedAt == Some(p.queue.now)
  {
    Effects.AckExact(Queue.Guarded, p.queue, task.delivery, task.worker);
  }

  /** A worker that still holds its lease and has a valid event stores it and then ends the delivery. */
  lemma InsertThenAck(p: Pipeline, sub: nat, decode: Decoder, task: Task)
    requires Store.StoreWf(p.store) && task in p.inbox && ValidEvent(p.queue.db, decode, task.message).Some?
    requires Effects.MayAnswer(p.queue, task.delivery, task.worker)
    ensures var p' := Run(p, sub, decode, [WorkerInsert(task), WorkerAck(task)]);
      && task.delivery in p'.queue.db.deliveries
      && p'.queue.db.deliveries[task.delivery].state == Queue.Acked
      && p'.queue.db.deliveries[task.delivery].completedAt == Some(p.queue.now)
      && |RowsWith(p'.store, ValidEvent(p.queue.db, decode, task.message).value.eventId)| == 1
  {
    InsertStores(p, sub, decode, task);
    AckEnds(Apply(p, sub, decode, WorkerInsert(task)), sub, decode, task);
    RunTwo(p, sub, decode, WorkerInsert(task), WorkerAck(task));
  }

  lemma RunTwo(p: Pipeline, sub: nat, decode: Decoder, a: Move, b: Move)
    ensures Run(p, sub, decode, [a, b]) == Apply(Apply(p, sub, decode, a), sub, decode, b)
  {
    assert [a, b][1..] == [b] && [b][1..] == [];
    assert Run(Apply(p, sub, decode, a), sub, decode, [b]) == Run(Apply(Apply(p, sub, decode, a), sub, decode, b), sub, decode, []);
  }

  /** A worker that still holds its lease and cannot use the payload sends it to the dead letters. */
  lemma RejectBuries(p: Pipeline, sub: nat, decode: Decoder, task: Task, reason: string)
    requires PipeInv(p, sub, decode) && task in p.inbox && ValidEvent(p.queue.db, decode, task.message).None?
    requires Effects.MayAnswer(p.queue, task.delivery, task.worker)
    ensures var p' := Apply(p, sub, decode, WorkerReject(task, reason, Queue.NoFault));
      && p'.store == p.store
      && Queue.JoinsNack(p.queue.db, task.delivery)
      && Outcomes.Buried(p.queue.db, p'.queue.db, task.delivery, reason, p.queue.now)
  {
    Effects.NackExact(Queue.Guarded, p.queue, task.delivery, task.worker, reason, false, Queue.NoFault);
    Effects.NackDone(Queue.Guarded, p.queue, task.delivery, task.worker, reason, false, Queue.NoFault);
  }

  /** A crash forgets the worker's own tasks; a direct write stores its event if the constraints allow it. */
  lemma OtherMoves(p: Pipeline, sub: nat, decode: Decoder, worker: string, event: Store.Event)
    ensures var p' := Apply(p, sub, decode, WorkerCrash(worker));
      && p'.queue == p.queue && p'.store == p.store
      && forall t :: (t in p'.inbox <==> t in p.inbox && t.worker != worker) && (t in p'.done <==> t in p.done && t.worker != worker)
    ensures var p' := Apply(p, sub, decode, SyncInsert(event));
      p' == p.(store := p'.store) && (Store.StoreWf(p.store) && Store.ChecksHold(event) ==> Stored(p'.store, event.eventId))
  {
    if Store.StoreWf(p.store) { Store.InsertKeeps(p.store, event, p.queue.now); }
  }

  /** After a worker's Consume it holds live leases on what it picked, and has the tasks. */
  lemma ConsumeHandsOut(p: Pipeline, sub: nat, decode: Decoder, tx: nat, limit: nat, worker: string, id: nat)
    requires PipeInv(p, sub, decode) && tx !in p.queue.open && 1 <= limit <= 100
    requires sub in p.queue.db.subscriptions && p.queue.db.subscriptions[sub].visibilityTimeout > 0
    requires id in Queue.Pick(p.queue.db, Queue.LockedIds(p.queue.open), sub, p.queue.now, limit)
    requires Queue.AttemptsFit(p.queue.db, Queue.Pick(p.queue.db, Queue.LockedIds(p.queue.open), sub, p.queue.now, limit))
    ensures var p' := Run(p, sub, decode, [QueueMove(Queue.DoBegin(tx, sub, limit, worker)), QueueMove(Queue.DoCommit(tx))]);
      && PipeInv(p', sub, decode) && p'.queue.db.messages == p.queue.db.messages && p'.queue.now == p.queue.now
      && id in p.queue.db.deliveries
      && Task(worker, id, p.queue.db.deliveries[id].messageId) in p'.inbox
      && Effects.MayAnswer(p'.queue, id, worker)
  {
    var begin, commit := QueueMove(Queue.DoBegin(tx, sub, limit, worker)), QueueMove(Queue.DoCommit(tx));
    var p1 := Apply(p, sub, decode, begin);
    var p2 := Apply(p1, sub, decode, commit);
    RunTwo(p, sub, decode, begin, commit);
    MoveKeeps(p, sub, decode, begin);
    MoveKeeps(p1, sub, decode, commit);
    Effects.BeginExact(Queue.Guarded, p.queue, tx, sub, limit, worker);
    CommitHandsOut(p1, sub, decode, tx, id);
    Effects.CommitExact(Queue.Guarded, p1.queue, tx);
    assert id !in Queue.LockedIds(p2.queue.open);
  }

  /**
   Progress: whenever a delivery of a valid event is available within the reach of the next
   Consume and no counter overflows, one worker can take it to the end, in four moves: it is
   then acked and its event has exactly one row.
   */
  lemma ServedToTheEnd(p: Pipeline, sub: nat, decode: Decoder, tx: nat, limit: nat, worker: string, id: nat)
    requires PipeInv(p, sub, decode) && tx !in p.queue.open && 1 <= limit <= 100
    requires sub in p.queue.db.subscriptions && p.queue.db.subscriptions[sub].visibilityTimeout > 0
    requires Scheduler.Available(p.queue.db, Queue.LockedIds(p.queue.open), sub, p.queue.now, id)
    requires Scheduler.Rank(p.queue.db, Queue.LockedIds(p.queue.open), sub, p.queue.now, id) < limit
    requires Queue.AttemptsFit(p.queue.db, Queue.Pick(p.queue.db, Queue.LockedIds(p.queue.open), sub, p.queue.now, limit))
    requires ValidEvent(p.queue.db, decode, p.queue.db.deliveries[id].messageId).Some?
    ensures var task := Task(worker, id, p.queue.db.deliveries[id].messageId);
      var consumed := Run(p, sub, decode, [QueueMove(Queue.DoBegin(tx, sub, limit, worker)), QueueMove(Queue.DoCommit(tx))]);
      var p' := Run(consumed, sub, decode, [WorkerInsert(task), WorkerAck(task)]);
      && id in p'.queue.db.deliveries && p'.queue.db.deliveries[id].state == Queue.Acked
      && |RowsWith(p'.store, ValidEvent(p.queue.db, decode, task.message).value.eventId)| == 1
  {
    Scheduler.PickedByRank(p.queue.db, p.queue.now, Queue.LockedIds(p.queue.open), sub, p.queue.now, limit, id);
    ConsumeHandsOut(p, sub, decode, tx, limit, worker, id);
    var consumed := Run(p, sub, decode, [QueueMove(Queue.DoBegin(tx, sub, limit, worker)), QueueMove(Queue.DoCommit(tx))]);
    InsertThenAck(consumed, sub, decode, Task(worker, id, p.queue.db.deliveries[id].messageId));
  }
}
