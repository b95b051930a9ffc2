# Verified model: queue delivery, audit ingestion, transactor, cache

This project models four pieces of the repository and proves what they promise.

* **Queue delivery protocol.** Topics, subscriptions, messages, deliveries, dead letters and a
  clock; publish with fan-out, lease, ack, nack with its dead-letter transaction, lease extension,
  retention, crashes, time. `QueueSpec` gives each statement as a function on the tables,
  `QueueStore` the same statements changing fields in place, proved equal to it. `Effects` says
  column by column what each statement does and answers; everything else about the queue is proved
  over whole runs of `QueueSpec`.
* **Audit event store.** Idempotent insert, lookup, ordered range listing with its row loop, and
  the asynchronous path through queue and workers (`AuditPipeline`).
* **Transactor.** Trees of nested `WithinTx` calls over an abstract database.
* **Prefixed cache.** Several caches on one Redis client.

## Status of what is modelled

The queue RPC handlers return `Unimplemented` and the audit worker is a stub. The queue algorithms
exist as SQL listings, DDL and a Go loop in `modules/queue/docs/system-design.md`, and the worker
as a sequence diagram in `modules/audit/docs/system-design.md`; those listings are what the queue
and pipeline modules model. The audit queries, the transactor and the cache are implemented code.

## How the listings are read

* `now()` is the start of the enclosing transaction. A Consume transaction spans a picking step,
  which locks, and a committing step; it keeps the time of the first. A publish is one step at its
  commit, but its message carries the start of its transaction, any time before: publishers may
  overlap and commit out of order. All other statements run at the clock of their step.
* A statement that meets a row lock waits; the model answers `Blocked` and changes nothing.
  LeaseMessages passes over locked rows.
* `attempt_count` is a SMALLINT: an increment past 32767 aborts the whole lease transaction.
* A rolled-back transaction restores every table, but sequence values stay used; an insert that
  meets a conflict uses one up too. `QueueSpec` returns the tables as they were before; the
  in-place `Bury` restores them one by one, and is proved to agree.
* `lease_started_at` is named only in the ExtendLease section. The model sets it when a lease is
  handed out; if it stayed NULL no extension could ever succeed.
* A message published on a dead-letter topic takes the original's payload and headers and the
  column defaults otherwise (priority 0, no key, the topic's lifetime): the text asks for a new
  message and gives no other values, and the seeded dead-letter topic admits priority 0 only.
* Retention writes a dead-letter row when the subscription has a dead-letter topic, as its text
  says, and does not republish.
* `firstMessage` on a subscription is a history column of the model: the next message id when the
  subscription was created.
* `NackPolicy.Literal` is the WHERE clause as listed. `Guarded` adds the live-lease and owner check
  that the error table and the security table of the same document require.

## Where code and prose part

* **Nack.** As listed it has no guard; an acked delivery can be put back into circulation
  (`LiteralNackRevivesAcked`). `LiteralNackOnTerminal` says for which calls, failing ones included,
  a finished delivery changes state and for which it is dead-lettered again; no finished delivery
  changes state if and only if no such Nack occurs (`FinishedKeptIff`, over runs
  `LiteralTerminalIff`). With the guard, terminal states are final (`TerminalForever`).
* **FIFO.** What is promised is first-lease order among messages of one partition key and one
  priority. Under either Nack a step breaks it if and only if it commits a Consume on a row whose
  waiting predecessor it does not hold, or is a publish whose message should have preceded a lease
  already given (`InOrderKeptIff`, over runs `OrderKeptIff`); both happen (`OverlapOvertakes`,
  `LateCommitOvertaken`). The order is kept, for all keys and down all priorities, when Consumes do
  not overlap and publishes commit in the order they started (`NoOvertaking`, by the stronger order
  `InTurn`); overlapping Consumes may keep it by luck (`OverlapMayKeepOrder`). A message scheduled
  to appear later than the other is not counted as its predecessor.
* **max_attempts.** Only Nack looks at it. No delivery is leased more often if and only if no
  Consume commits on a row whose last permitted lease ran out unanswered (`WithinMaxKeptIff`, over
  runs `RetryBoundIff`); every lease beyond it directly follows one that ran out (`RetryBound`). A
  message whose consumers crash is leased far beyond it, and once its counter is full it fails
  every Consume of its subscription (`CrashLoop`).
* **30 minutes of extension.** The guard bounds the time of the request, not the total
  (`ExtensionsUncapped`, `ExtensionBound`). `TotalKeptIff` and `TotalKeptOverRuns` give the missing
  condition for each lease on its own, the reading that the row can decide. Over all leases of a
  delivery, k of them are then bounded by 30 k minutes only (`ExtensionsAddUp`);
  `DeliveryTotalKeptIff` and `DeliveryTotalOverRuns` give the condition for one total of 30 minutes
  per delivery, which no column records.
* **Lease identity.** `lease_id` is the delivery and `leased_by` an optional label, so "only the
  lease one was given" means "only a label one has": the holder of any former lease can ack the
  current one if and only if the labels agree (`LabelIsTheLease`), and may (`SameLabelAcks`).
* **Cache prefixes.** "Without colliding" holds for a family of caches exactly when no `p-` begins
  with another `q-` (`IsolatedIff`); `session` and `session-admin` do collide.
* **WithinTx.** Nothing recovers a panic, so exactly one end per transaction holds if and only if
  the body does not run into one (`ExactlyOneEndIffNoPanic`, `PanicLeavesOpen`).

## Model

| member | source | states |
|---|---|---|
| QueueStore.Queue.constructor | modules/queue/docs/system-design.md:231-330 | empty tables are the initial state every run starts from |
| QueueStore.Queue.CreateTopic | modules/queue/docs/system-design.md:233-240 | takes the tables to the specified state; created if and only if the priority bound, the name length and the unique name allow it |
| QueueStore.Queue.CreateSubscription | modules/queue/docs/system-design.md:247-256 | takes the tables to the specified state; created if and only if foreign keys, CHECK, name length and the name unique within the topic allow it |
| QueueStore.Queue.DeleteSubscription | modules/queue/docs/system-design.md:287-330 | cascades to deliveries; refused while dead letters refer to it or a row of it is locked |
| QueueStore.Queue.InsertAndFanOut | modules/queue/docs/system-design.md:679-682 | the in-place insertion loop equals the fan-out specification |
| QueueStore.Queue.Publish | modules/queue/docs/system-design.md:677-683 | in-place publish refines its specification, error cases included |
| QueueStore.Queue.BeginConsume | modules/queue/docs/system-design.md:550-564 | one pass keeping the best `limit` rows picks what filter, sort and take would, and locks it |
| QueueStore.Queue.CommitConsume | modules/queue/docs/system-design.md:565-584 | the row-by-row update leases all picked rows and returns each of them joined with its message, in the order of the pick, or, on counter overflow, leases none |
| QueueStore.Queue.AbortConsume | modules/queue/docs/system-design.md:563-563 | a lost connection takes its transaction and its locks away and leaves all others |
| QueueStore.Queue.Ack | modules/queue/docs/system-design.md:617-623 | in-place ack refines its specification and writes state, completed_at and leased_until of that row only |
| QueueStore.Queue.Nack | modules/queue/docs/system-design.md:626-651 | nack and the dead-letter transaction with a failure at any point refine their specification |
| QueueStore.Queue.Bury | modules/queue/docs/system-design.md:647-651 | record, republish, commit; any failure leaves the tables as before the transaction |
| QueueStore.Queue.ExtendLease | modules/queue/docs/system-design.md:736-743 | in-place extension refines its specification and moves leased_until of that row by the request |
| QueueStore.Queue.Retention | modules/queue/docs/system-design.md:657-657 | the sweep runs unless it has to wait for a locked row, and then marks exactly the expired rows dead and expired |
| Effects.CreateTopicExact | modules/queue/docs/system-design.md:233-240 | which creations are accepted, and the row, next id and nothing else that one stores |
| Effects.CreateSubscriptionExact | modules/queue/docs/system-design.md:247-256 | the same for subscriptions, dead-letter topic included |
| Effects.DeleteSubscriptionExact | modules/queue/docs/system-design.md:287-330 | which deletions are accepted, and that the subscription and exactly its deliveries go |
| Effects.BeginExact | modules/queue/docs/system-design.md:549-564 | which Consumes are accepted, what the transaction remembers, that its pick is locked and no table changes |
| Effects.CommitExact | modules/queue/docs/system-design.md:565-584 | the answer lists exactly the picked rows, each leased column by column, or a full counter leaves all tables; the locks of the transaction go either way |
| Effects.CommitReturns | modules/queue/docs/system-design.md:574-584 | the answer of a committed Consume reports each picked row once, with the attempt counted, the new lease and the message as published |
| Effects.AbortExact | modules/queue/docs/system-design.md:563-563 | exactly the rows the transaction had picked are unlocked; tables, clock and other transactions stay |
| Effects.CrashGivesBack | modules/queue/docs/system-design.md:349-351 | a Consume that crashes after its pick leaves every picked row available again |
| Effects.AckExact | modules/queue/docs/system-design.md:617-623 | when an ack is Done, and the whole row it leaves; any other answer changes nothing |
| Effects.ExtendExact | modules/queue/docs/system-design.md:736-743 | when an extension is granted, and the whole row it leaves; any other answer changes nothing |
| Effects.NackExact | modules/queue/docs/system-design.md:626-651 | when a nack, listed or guarded, is Done under any failure, and that every table is as before when it is not |
| Effects.NackDone | modules/queue/docs/system-design.md:626-651 | a nack that is Done buries the delivery, record and copy included, or puts it back, the whole row either way |
| Effects.RetentionExact | modules/queue/docs/system-design.md:657-657 | retention waits while an overdue row is locked; otherwise every overdue row is dead and expired, each one with a dead-letter topic has one record, and nothing else changes |
| Names.NamesStayUnique | modules/queue/docs/system-design.md:235-255 | in every reachable state a name finds at most one topic, and within a topic at most one subscription |
| Tables.FanOutAdds | modules/queue/docs/system-design.md:311-315 | fan-out only adds fresh pending rows for subscriptions of the topic |
| Tables.FanOutCovers | modules/queue/docs/system-design.md:679-682 | fan-out reaches every subscription of the topic |
| Tables.FanOutOnce | modules/queue/docs/system-design.md:679-682 | fan-out reaches no subscription twice |
| Conservation.PublishExact | modules/queue/docs/system-design.md:455-464 | when publish is accepted, the message it stores with both default times, its exact fan-out, and no trace of a refusal |
| Ordering.SelectTop | modules/queue/docs/system-design.md:559-562 | bounded selection equals sorting everything and taking the head |
| Ordering.SortIs | modules/queue/docs/system-design.md:559-562 | the sorted form is the only strictly ordered listing of the same rows |
| Scheduler.PickExact | modules/queue/docs/system-design.md:554-563 | one lease takes min(limit, count) unlocked eligible rows, in service order, each before every row left |
| Scheduler.PickedByRank | modules/queue/docs/system-design.md:559-563 | a row is taken if and only if fewer than `limit` available rows are served before it |
| Draining.ConsumeTakesHead | modules/queue/docs/system-design.md:549-571 | a Consume leaves exactly the tail of the backlog |
| Draining.DrainsCompletely | modules/queue/docs/system-design.md:549-571 | exactly ceil(n/k) calls are non-empty, and together they return the sorted backlog |
| Steps.RowChange | modules/queue/docs/system-design.md:565-645 | every step changes a surviving delivery by lease, ack, nack, extension or expiry under that statement's guard, or not at all |
| Steps.SweepRows | modules/queue/docs/system-design.md:657-657 | the sweep marks exactly the expired unfinished rows dead and expired, and writes only these rows and dead letters; `Effects.RetentionExact` says that retention runs it |
| Steps.SweepRecords | modules/queue/docs/system-design.md:657-657 | the dead letters it adds are one per such row of a subscription with a dead-letter topic, with the original contents, and no others |
| Steps.LockedRowStays | modules/queue/docs/system-design.md:563-569 | a locked row is unchanged until its own transaction ends |
| Steps.StepKeepsInv | modules/queue/docs/system-design.md:231-330 | each step keeps the constraints of all tables, and locks disjoint and on rows still eligible |
| Steps.RunKeepsInv | modules/queue/docs/system-design.md:231-330 | the same over every run |
| LeaseHistory.LeasesNeverOverlap | modules/queue/docs/system-design.md:554-569 | under any interleaving no two leases of one delivery are live at the same instant |
| LeaseHistory.AckOnlyForHolder | modules/queue/docs/system-design.md:617-623 | ack succeeds if and only if the caller is the live holder, and then the row is neither eligible nor locked |
| LeaseHistory.LabelIsTheLease | modules/queue/docs/system-design.md:592-592 | the holder of any former lease can ack the live one if and only if the two labels are equal |
| Witnesses.SameLabelAcks | modules/queue/docs/system-design.md:841-841 | a run in which a lease that ran out is followed by one of the same label, which an ack as that label ends |
| LeaseHistory.NackAndExtendOnlyForHolder | modules/queue/docs/system-design.md:533-534 | guarded nack and extension succeed exactly for the live holder, extension also within its two limits |
| LeaseHistory.RetryBound | modules/queue/docs/system-design.md:377-379 | attempt_count is the number of leases, pending means attempts left, every lease past max_attempts directly follows one that ran out, and there are no more of them than leases that ran out before |
| LeaseHistory.WithinMaxKeptIff | modules/queue/docs/system-design.md:252-252 | a step takes a delivery past max_attempts if and only if it commits a Consume holding a row whose last permitted lease ran out unanswered |
| LeaseHistory.RetryBoundIff | modules/queue/docs/system-design.md:554-569 | over a whole run no delivery exceeds max_attempts if and only if no such commit occurs |
| LeaseHistory.ExtensionBound | modules/queue/docs/system-design.md:372-372 | k extensions reach at most visibility_timeout + 5k minutes, none granted after 30 minutes |
| LeaseHistory.TotalKeptIff | modules/queue/docs/system-design.md:736-743 | a step keeps every lease within 30 minutes of extension if and only if it is not an extension that passes the guard and goes past that total |
| LeaseHistory.TotalKeptOverRuns | modules/queue/docs/system-design.md:736-743 | over a whole run the total is kept if and only if no such extension occurs |
| LeaseHistory.ExtensionsAddUp | modules/queue/docs/system-design.md:372-372 | all leases of a delivery add up to at most 5 minutes per extension, and 30 minutes per lease when each keeps to its own total |
| LeaseHistory.DeliveryTotalKeptIff | modules/queue/docs/system-design.md:372-372 | a step keeps every delivery within 30 minutes over all its leases if and only if it is not a granted extension past that sum |
| LeaseHistory.DeliveryTotalOverRuns | modules/queue/docs/system-design.md:372-372 | over a whole run that total is kept if and only if no such extension occurs |
| Witnesses.ExtensionsUncapped | modules/queue/docs/system-design.md:736-743 | for every n, a run whose n extensions all succeed at once |
| Witnesses.CrashLoop | modules/queue/docs/system-design.md:554-569 | with max_attempts 1, a run to every attempt count up to 32767, after which every Consume of the subscription, of any size and by anyone, fails |
| Outcomes.TerminalForever | modules/queue/docs/system-design.md:617-644 | with the guard, no run changes any column of an acked or dead delivery |
| Outcomes.LiteralNackOnTerminal | modules/queue/docs/system-design.md:626-651 | exactly which listed nacks, failing ones included, change the state of a finished delivery, and exactly which write one more dead-letter record for it |
| Outcomes.FinishedKeptIff | modules/queue/docs/system-design.md:626-644 | a step with the listed nack leaves every finished delivery in its state if and only if it is not a nack that puts one back or buries an acked one |
| Outcomes.LiteralTerminalIff | modules/queue/docs/system-design.md:626-644 | over a whole run no finished delivery changes state if and only if no such nack occurs |
| Witnesses.LiteralNackRevivesAcked | modules/queue/docs/system-design.md:642-643 | a run from acked back to pending and eligible |
| Outcomes.DeadLetterAtomic | modules/queue/docs/system-design.md:647-651 | row, record and republished message with its exact fan-out appear together with the original contents, or no table changes |
| Outcomes.DeadLettersFaithful | modules/queue/docs/system-design.md:379-382 | over every run one record per buried delivery, equal to its message; only silent expiry leaves none |
| Outcomes.NothingLost | modules/queue/docs/system-design.md:349-353 | in every reachable state a due, unexpired row is in exactly one of: acked, dead, locked, held, available; any other row is not available |
| Outcomes.ConsumeServes | modules/queue/docs/system-design.md:549-584 | a whole Consume serves the pick, all or none, or is refused outside 1..100 or without a subscription |
| Outcomes.NextConsumeTakesIt | modules/queue/docs/system-design.md:554-571 | the next Consume leases an available row if and only if its rank is below the limit and no counter overflows |
| Conservation.Conserved | modules/queue/docs/system-design.md:311-315 | exactly one delivery per message and surviving subscription, and the four state counts add up |
| Conservation.OwedSinceCreation | modules/queue/docs/system-design.md:315-315 | a subscription is owed what was published on its topic after its creation and nothing earlier |
| Fifo.NoOvertaking | modules/queue/docs/system-design.md:357-362 | with serial Consumes and publishes committing in order, over every run nobody is first leased before a never-leased, unexpired predecessor |
| Fifo.InOrderKeptIff | modules/queue/docs/system-design.md:359-362 | a step breaks first-lease order within one key and priority if and only if it commits a row without its waiting predecessor or publishes behind a lease already given |
| Fifo.InTurnKeptIff | modules/queue/docs/system-design.md:559-563 | a step breaks the stronger order, over all keys and with open picks counted as leases, if and only if it is a pick that will pass over a locked predecessor or a publish behind a lease or pick |
| Fifo.InTurnKeepsOrder | modules/queue/docs/system-design.md:357-362 | the stronger order implies the promised one, now and after every step that keeps it |
| Fifo.OrderKeptIff | modules/queue/docs/system-design.md:359-362 | over every run, overlapping or not, first-lease order within one key and priority holds throughout if and only if no step of those two kinds occurs |
| Fifo.OvertakesOnlyLocks | modules/queue/docs/system-design.md:559-563 | whom a pick leaves behind is exactly whom another transaction has locked |
| Fifo.LatePublish | modules/queue/docs/system-design.md:679-682 | a publish breaks the stronger order, over all keys, if and only if its unexpired message should have preceded a row already leased or picked |
| Witnesses.OverlapOvertakes | modules/queue/docs/system-design.md:360-360 | two overlapping Consumes lease the younger of two messages of one key and priority first |
| Witnesses.OverlapMayKeepOrder | modules/queue/docs/system-design.md:360-360 | the same two Consumes committing in the order of their picks keep the promised order, though not the stronger one |
| Witnesses.LateCommitOvertaken | modules/queue/docs/system-design.md:360-360 | a publish that started first and commits last finds the later message leased already |
| LongPoll.Consume | modules/queue/docs/system-design.md:598-610 | the first decisive query ends the loop, no leased batch is dropped, an empty one comes only after the deadline |
| LongPoll.QueriesBounded | modules/queue/docs/system-design.md:599-607 | at most floor(maxWait / 200 ms) + 2 queries |
| LongPoll.BoundReached | modules/queue/docs/system-design.md:599-607 | the bound is attained |
| AuditStore.AuditTable.InsertEvent | modules/audit/src/infra/database/db/audit.sql.go:134-163 | the in-place insert adds the row it reports if and only if the constraints hold and the event id is new, and refines its specification |
| AuditStore.AuditTable.GetEventByEventID | modules/audit/src/infra/database/db/audit.sql.go:26-59 | returns the row with the event id, or nothing |
| AuditStore.AuditTable.RecordEvent | modules/audit/docs/system-design.md:422-431 | insert, and on a duplicate the recorded_at already stored; refused only by the constraints |
| AuditStore.AuditTable.ListEventsByTimeRange | modules/audit/src/infra/database/db/audit.sql.go:188-237 | the row loop returns the whole listing, or an error exactly when the query, a scan, the close or the end fails |
| AuditStore.InsertExact | modules/audit/src/infra/database/queries/audit.sql:6-40 | which of inserted, no rows and violation is answered, the row an insert appends and reports, and that nothing else changes |
| AuditStore.RecordExact | modules/audit/docs/system-design.md:422-431 | a new event is answered with the time of the insert, a known one with the stored time |
| AuditStore.ChecksSpelledOut | modules/audit/src/infra/database/migrations/20260507075754_audit_events.sql:22-57 | the CHECK constraints and column lengths, value by value |
| AuditStore.StoreOnlyGrows | modules/audit/src/infra/database/migrations/20260507075754_audit_events.sql:12-19 | over every sequence of attempts rows stay unchanged in place and event ids unique |
| AuditStore.EveryAttemptStored | modules/audit/src/infra/database/queries/audit.sql:1-40 | over every sequence, an attempt that meets the constraints leaves its event id stored |
| AuditStore.RowsComeFromAttempts | modules/audit/src/infra/database/queries/audit.sql:1-40 | over every sequence, a row that joins holds the event and time of an attempt |
| AuditStore.FirstWriteWins | modules/audit/src/infra/database/queries/audit.sql:1-40 | every admissible retry is answered with the first recorded_at and the first content stays |
| AuditStore.ListingExact | modules/audit/src/infra/database/queries/audit.sql:56-65 | strictly ordered rows of the inclusive range, incomplete only when full and then only at the end |
| AuditStore.ListingPrefix | modules/audit/src/infra/database/queries/audit.sql:62-65 | a smaller limit lists a prefix |
| AuditStore.ListingSplits | modules/audit/src/infra/database/queries/audit.sql:60-65 | listings of a range cut in two join to the listing of the whole, for every limit |
| AuditPipeline.AckedIsStoredOnce | modules/audit/docs/system-design.md:446-458 | over every run an acked delivery's event has exactly one stored row |
| AuditPipeline.NeverTwoRows | modules/audit/docs/system-design.md:512-512 | no run stores an event id twice |
| AuditPipeline.NoValidEventLost | modules/audit/docs/system-design.md:511-513 | over every run a valid event's delivery is acked and stored, or was buried after expiry, or, once due and unexpired, is locked, held or available |
| AuditPipeline.ServedToTheEnd | modules/audit/docs/system-design.md:444-458 | whenever an available valid event is within reach of the next Consume, one worker takes it to acked and stored once |
| AuditPipeline.InsertThenAck | modules/audit/docs/system-design.md:447-452 | a worker that still holds its lease stores a valid event and ends its delivery |
| AuditPipeline.RejectBuries | modules/audit/docs/system-design.md:453-455 | a worker that still holds its lease sends an unusable payload to the dead letters |
| Transactor.Connection.WithinTx | modules/shared/src/utiltx/transactor.go:80-99 | begin, body, commit or rollback in place refine the specification |
| Transactor.Connection.RunBody | modules/shared/src/utiltx/transactor.go:34-42 | repository writes bind through the context |
| TransactionTrees.BodyMeans | modules/shared/src/utiltx/transactor.go:101-118 | writes go to the innermost transaction of the context, durable rows and outcome are those of the tree |
| TransactionTrees.TxMeans | modules/shared/src/utiltx/transactor.go:80-99 | a call adds its own rows exactly on success, inner commits stand, no other open transaction is touched |
| TransactionTrees.ExactlyOneEndIffNoPanic | modules/shared/src/utiltx/transactor.go:88-98 | one commit or rollback per begun transaction if and only if the body does not run into a panic, read off the tree; so always when it holds no panic |
| TransactionTrees.EndsAsRead | modules/shared/src/utiltx/transactor.go:80-99 | panic and error of a body, read off the tree alone, are how it ends |
| TransactionTrees.PanicLeavesOpen | modules/shared/src/utiltx/transactor.go:88-98 | a body that inserts and panics leaves its transaction open and unended |
| TransactionTrees.EndedByItsOutcome | modules/shared/src/utiltx/transactor.go:80-99 | a failed body is ended by a rollback, a successful one by a commit, a panicking one by neither, and what error the caller gets in each case |
| TransactionTrees.WriteBinds | modules/shared/src/utiltx/transactor.go:101-118 | a write goes to the nearest transaction of its context only, or is durable at once without one |
| TransactionTrees.InnerCommitSurvives | modules/shared/src/utiltx/transactor.go:80-99 | every failing body adds exactly what its inner transactions made durable, the same as with all its own inserts left out |
| TransactionTrees.OnlyInnerRowsRemain | modules/shared/src/utiltx/transactor.go:80-99 | for one insert and one nested call before an error, the inner rows stay and the outer one does not |
| PrefixCache.MakeKeyInjective | modules/shared/src/utilcache/cache.go:40-42 | one cache never confuses two of its keys |
| PrefixCache.CollisionMeansOverlap | modules/shared/src/utilcache/cache.go:11-13 | two caches share a stored key only if one prefix with its dash begins with the other |
| PrefixCache.Simulates | modules/shared/src/utilcache/cache.go:28-38 | on every interleaving of calls and time, any number of pairwise non-overlapping caches read as from private key spaces |
| PrefixCache.IsolatedIff | modules/shared/src/utilcache/cache.go:11-13 | a family of caches is isolated if and only if no dashed prefix begins with another |
| PrefixCache.DifferentPrefixesCanCollide | modules/shared/src/utilcache/cache.go:11-13 | two distinct prefixes that are not isolated |
| PrefixCache.ReadAfterWrite | modules/shared/src/utilcache/cache.go:28-38 | calls on one key: a value set is read until its time is up, other keys are unaffected, a deleted key is gone |
| PrefixCache.CacheRemembers | modules/shared/src/utilcache/cache.go:15-38 | on the shared client each cache keeps what it sets for its own ttl, and reads nothing after its delete |
| PrefixCache.Cache.Set | modules/shared/src/utilcache/cache.go:28-30 | the prefixed key gets the value and the ttl of the cache, no other key changes |
| PrefixCache.Cache.Get | modules/shared/src/utilcache/cache.go:32-34 | the live value under the prefixed key, or nothing |
| PrefixCache.Cache.Delete | modules/shared/src/utilcache/cache.go:36-38 | the prefixed key is gone, no other key changes |

## Left out

- gRPC and HTTP servers, generated protobuf code, interceptors, logging, telemetry, shutdown wiring: plumbing over libraries.
- DeleteTopic, and looking rows up by name: rows are addressed by id.
- Two details of overlapping publishers: message ids are given out in commit order, and fan-out reads the subscriptions of the commit, so a subscription created between a publish's fan-out and its commit is reached.
- `message_partition`, the copy of `enqueued_at` in deliveries, and monthly partitions: creation, detaching and dropping.
- base64 encoding of `lease_id`: a lease is named by its delivery id.
- `producer_id` injection, scopes, JWT checks and the audit events the queue sends about itself.
- The row order of RETURNING, which the listing does not fix: batches are listed in service order.
- LongPoll.Consume: its queries are answered by given surroundings rather than by the queue modules, since other consumers act between them.
- JSON decoding and the payload blocklist: the pipeline is proved for every decoder.
- Ambiguous outcomes of a failed COMMIT, context cancellation, and row conflicts between nested transactions: a failed commit applies nothing, and repository writes are inserts.
- Value marshalling, network errors and sub-millisecond expiry in the cache.
- OAuth flows, refresh-token rotation, login, the audit hash chain and cursor pagination: prose or planned schema without operations to model.
- Kubernetes, Terraform, Compose and dashboards: configuration.
