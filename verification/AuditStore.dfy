/** The audit_events table: idempotent insert, lookup by event id, ordered listing. */
module AuditStore {
  import opened Common
  import opened Ordering

  /** The 23 columns a caller supplies. */
  datatype Event = Event(
    eventId: string,
    occurredAt: Time,
    schemaVersion: int,
    actorType: string,
    actorId: string,
    actorIp: Option<string>,
    actorUserAgent: Option<string>,
    action: string,
    resourceType: string,
    resourceId: Option<string>,
    service: string,
    environment: string,
    region: Option<string>,
    host: Option<string>,
    reason: Option<string>,
    requestId: Option<string>,
    traceId: Option<string>,
    spanId: Option<string>,
    httpMethod: string,
    outcome: string,
    severity: string,
    source: string,
    details: Option<Bytes>)

  /** A stored row; the hash-chain columns stay NULL. */
  datatype Row = Row(id: nat, recordedAt: Time, event: Event)

  datatype Store = Store(rows: seq<Row>, nextId: nat)

  predicate Fits(s: string, n: nat) { |s| <= n }

  predicate FitsOpt(s: Option<string>, n: nat) { s.Some? ==> |s.value| <= n }

  /** The CHECK constraints and the VARCHAR lengths. */
  predicate ChecksHold(e: Event) {
    && e.actorType in {"user", "service", "system", "anonymous"}
    && e.outcome in {"success", "failure", "denied"}
    && e.httpMethod in {"HTTP", "gRPC", "CLI", "JOB", "SYSTEM"}
    && e.severity in {"debug", "info", "notice", "warning", "error", "critical"}
    && Fits(e.actorId, 128) && Fits(e.action, 128) && Fits(e.resourceType, 64) && FitsOpt(e.resourceId, 128)
    && Fits(e.service, 32) && Fits(e.environment, 16) && FitsOpt(e.region, 32) && FitsOpt(e.host, 128)
    && FitsOpt(e.requestId, 64) && FitsOpt(e.traceId, 32) && FitsOpt(e.spanId, 16) && Fits(e.source, 32)
  }

  /** The row with the given event id, at most one by the UNIQUE constraint. */
  function Lookup(rows: seq<Row>, eventId: string): Option<Row> {
    if rows == [] then None
    else if rows[0].event.eventId == eventId then Some(rows[0])
    else Lookup(rows[1..], eventId)
  }

  /** NoRows is what RETURNING yields when ON CONFLICT skips the insert. */
  datatype InsertResult = Inserted(id: nat, eventId: string, recordedAt: Time) | NoRows | ConstraintViolation

  /** The sequence behind `id` advances on every attempt, inserted or not. */
  function InsertOnce(store: Store, e: Event, now: Time): (Store, InsertResult) {
    var tried := store.(nextId := store.nextId + 1);
    if !ChecksHold(e) then (tried, ConstraintViolation)
    else if Lookup(store.rows, e.eventId).Some? then (tried, NoRows)
    else (tried.(rows := store.rows + [Row(store.nextId, now, e)]), Inserted(store.nextId, e.eventId, now))
  }

  datatype RecordResult = Recorded(recordedAt: Time, created: bool) | Rejected

  /** Insert, and on a duplicate read the recorded_at that is already there. */
  function Record(store: Store, e: Event, now: Time): (Store, RecordResult) {
    var (after, r) := InsertOnce(store, e, now);
    match r
    case Inserted(_, _, recordedAt) => (after, Recorded(recordedAt, true))
    case NoRows =>
      var found := Lookup(after.rows, e.eventId);
      (after, if found.Some? then Recorded(found.value.recordedAt, false) else Rejected)
    case ConstraintViolation => (after, Rejected)
  }

  /** Any number of later attempts, by anyone, at any times. */
  datatype Attempt = Attempt(event: Event, at: Time)

  function RecordAll(store: Store, attempts: seq<Attempt>): Store
    decreases |attempts|
  {
    if attempts == [] then store
    else RecordAll(Record(store, attempts[0].event, attempts[0].at).0, attempts[1..])
  }

  ghost predicate UniqueEventIds(rows: seq<Row>) {
    forall i, j | 0 <= i < j < |rows| :: rows[i].event.eventId != rows[j].event.eventId
  }

  ghost predicate StoreWf(store: Store) {
    && UniqueEventIds(store.rows)
    && (forall i, j | 0 <= i < j < |store.rows| :: store.rows[i].id < store.rows[j].id)
    && (forall i | 0 <= i < |store.rows| :: store.rows[i].id < store.nextId && ChecksHold(store.rows[i].event))
  }

  lemma {:induction false} LookupFinds(rows: seq<Row>, eventId: string)
    ensures Lookup(rows, eventId).Some? ==> Lookup(rows, eventId).value in rows && Lookup(rows, eventId).value.event.eventId == eventId
    ensures Lookup(rows, eventId).None? ==> forall row | row in rows :: row.event.eventId != eventId
  {
    if rows != [] {
      LookupFinds(rows[1..], eventId);
      assert rows == [rows[0]] + rows[1..];
    }
  }

  /** Appending rows never changes what is found. */
  lemma {:induction false} LookupStable(rows: seq<Row>, more: seq<Row>, eventId: string)
    ensures Lookup(rows, eventId).Some? ==> Lookup(rows + more, eventId) == Lookup(rows, eventId)
  {
    if rows != [] {
      assert (rows + more)[1..] == rows[1..] + more;
      LookupStable(rows[1..], more, eventId);
    }
  }

  /** What the CHECKs and the column lengths ask for, value by value. */
  lemma ChecksSpelledOut(e: Event)
    ensures ChecksHold(e) <==>
      && (e.actorType == "user" || e.actorType == "service" || e.actorType == "system" || e.actorType == "anonymous")
      && (e.outcome == "success" || e.outcome == "failure" || e.outcome == "denied")
      && (e.httpMethod == "HTTP" || e.httpMethod == "gRPC" || e.httpMethod == "CLI" || e.httpMethod == "JOB" || e.httpMethod == "SYSTEM")
      && (e.severity == "debug" || e.severity == "info" || e.severity == "notice" || e.severity == "warning"
          || e.severity == "error" || e.severity == "critical")
      && |e.actorId| <= 128 && |e.action| <= 128 && |e.resourceType| <= 64 && |e.service| <= 32 && |e.environment| <= 16
      && |e.source| <= 32
      && (e.resourceId.Some? ==> |e.resourceId.value| <= 128) && (e.region.Some? ==> |e.region.value| <= 32)
      && (e.host.Some? ==> |e.host.value| <= 128) && (e.requestId.Some? ==> |e.requestId.value| <= 64)
      && (e.traceId.Some? ==> |e.traceId.value| <= 32) && (e.spanId.Some? ==> |e.spanId.value| <= 16)
  { }

  /**
   An insert that meets the constraints adds the event under a new id, stamped now, and reports
   that row, if and only if its event id is new; else it adds nothing and says why.
   */
  lemma InsertExact(store: Store, e: Event, now: Time)
    ensures var (after, r) := InsertOnce(store, e, now);
      && (r.Inserted? <==> ChecksHold(e) && forall row | row in store.rows :: row.event.eventId != e.eventId)
      && (r.NoRows? <==> ChecksHold(e) && exists row :: row in store.rows && row.event.eventId == e.eventId)
      && (r.Inserted? ==> after.rows == store.rows + [Row(r.id, r.recordedAt, e)] && r.eventId == e.eventId && r.recordedAt == now)
      && (StoreWf(store) && r.Inserted? ==> forall row | row in store.rows :: row.id < r.id)
      && (!r.Inserted? ==> after.rows == store.rows)
  {
    LookupFinds(store.rows, e.eventId);
    if StoreWf(store) {
      forall row | row in store.rows ensures row.id < store.nextId {
        var i :| 0 <= i < |store.rows| && store.rows[i] == row;
      }
    }
  }

  /** A recorded event is answered with now when it is new, with the stored time when it is not, and refused only by the constraints. */
  lemma RecordExact(store: Store, e: Event, now: Time)
    ensures var (after, r) := Record(store, e, now);
      && (r.Recorded? <==> ChecksHold(e))
      && (r.Recorded? ==> (r.created <==> forall row | row in store.rows :: row.event.eventId != e.eventId))
      && (r.Recorded? && r.created ==>
            && r.recordedAt == now && |after.rows| == |store.rows| + 1 && store.rows <= after.rows
            && after.rows[|store.rows|].event == e && after.rows[|store.rows|].recordedAt == now)
      && (r.Recorded? && !r.created ==>
            && after.rows == store.rows
            && exists row :: row in store.rows && row.event.eventId == e.eventId && row.recordedAt == r.recordedAt)
      && (!r.Recorded? ==> after.rows == store.rows)
  {
    InsertExact(store, e, now);
    LookupFinds(store.rows, e.eventId);
  }

  lemma InsertKeeps(store: Store, e: Event, now: Time)
    requires StoreWf(store)
    ensures StoreWf(InsertOnce(store, e, now).0)
    ensures store.rows <= InsertOnce(store, e, now).0.rows
    ensures ChecksHold(e) ==> Lookup(InsertOnce(store, e, now).0.rows, e.eventId).Some?
  {
    LookupFinds(store.rows, e.eventId);
    LookupFinds(InsertOnce(store, e, now).0.rows, e.eventId);
    var after := InsertOnce(store, e, now).0;
    if |after.rows| > |store.rows| {
      assert after.rows[|store.rows|].event == e;
      forall i | 0 <= i < |store.rows| ensures store.rows[i].event.eventId != e.eventId {
        assert store.rows[i] in store.rows;
      }
    }
  }

  /** Over every sequence of attempts the stored rows stay, in place and unchanged, and event ids stay unique. */
  lemma {:induction false} StoreOnlyGrows(store: Store, attempts: seq<Attempt>)
    requires StoreWf(store)
    ensures StoreWf(RecordAll(store, attempts))
    ensures store.rows <= RecordAll(store, attempts).rows
    decreases |attempts|
  {
    if attempts != [] {
      InsertKeeps(store, attempts[0].event, attempts[0].at);
      StoreOnlyGrows(Record(store, attempts[0].event, attempts[0].at).0, attempts[1..]);
    }
  }

  lemma FoundLater(store: Store, attempts: seq<Attempt>, eventId: string)
    requires StoreWf(store) && Lookup(store.rows, eventId).Some?
    ensures Lookup(RecordAll(store, attempts).rows, eventId) == Lookup(store.rows, eventId)
  {
    StoreOnlyGrows(store, attempts);
    var rows := RecordAll(store, attempts).rows;
    assert rows == store.rows + rows[|store.rows|..];
    LookupStable(store.rows, rows[|store.rows|..], eventId);
  }

  /** Whatever the sequence, an attempt that meets the constraints leaves its event id stored. */
  lemma {:induction false} EveryAttemptStored(store: Store, attempts: seq<Attempt>, k: nat)
    requires StoreWf(store) && k < |attempts| && ChecksHold(attempts[k].event)
    ensures Lookup(RecordAll(store, attempts).rows, attempts[k].event.eventId).Some?
    decreases |attempts|
  {
    var s1 := Record(store, attempts[0].event, attempts[0].at).0;
    InsertKeeps(store, attempts[0].event, attempts[0].at);
    if k == 0 {
      FoundLater(s1, attempts[1..], attempts[0].event.eventId);
    } else {
      EveryAttemptStored(s1, attempts[1..], k - 1);
    }
  }

  /** And every row that joins holds the event and the time of an attempt. */
  lemma {:induction false} RowsComeFromAttempts(store: Store, attempts: seq<Attempt>, row: Row)
    requires row in RecordAll(store, attempts).rows && row !in store.rows
    ensures Attempt(row.event, row.recordedAt) in attempts
    decreases |attempts|
  {
    var s1 := Record(store, attempts[0].event, attempts[0].at).0;
    InsertExact(store, attempts[0].event, attempts[0].at);
    if row !in s1.rows {
      RowsComeFromAttempts(s1, attempts[1..], row);
      assert Attempt(row.event, row.recordedAt) in attempts[1..];
    } else {
      assert attempts[0] in attempts;
    }
  }

  lemma NewRowFound(store: Store, e: Event, now: Time)
    requires StoreWf(store) && Record(store, e, now).1.Recorded? && Record(store, e, now).1.created
    ensures Lookup(Record(store, e, now).0.rows, e.eventId) == Some(Row(store.nextId, now, e))
  {
    var after := Record(store, e, now).0;
    InsertKeeps(store, e, now);
    LookupFinds(after.rows, e.eventId);
    assert after.rows[|store.rows|] == Row(store.nextId, now, e);
    var i :| 0 <= i < |after.rows| && after.rows[i] == Lookup(after.rows, e.eventId).value;
  }

  /**
   First write wins: after an event has been recorded, every later attempt with its event id that
   meets the constraints, whatever else it says and whatever came between, is told the same
   recorded_at, as a duplicate; and the row still holds the first content.
   */
  lemma FirstWriteWins(store: Store, first: Event, now: Time, between: seq<Attempt>, retry: Event, later: Time)
    requires StoreWf(store) && ChecksHold(first) && retry.eventId == first.eventId
    ensures var (s1, r1) := Record(store, first, now);
      var s2 := RecordAll(s1, between);
      var (s3, r3) := Record(s2, retry, later);
      && r1.Recorded?
      && (r3 == Recorded(r1.recordedAt, false) <==> ChecksHold(retry))
      && s3.rows == s2.rows
      && Lookup(s3.rows, first.eventId) == Lookup(s1.rows, first.eventId)
      && (r1.created <==> forall row | row in store.rows :: row.event.eventId != first.eventId)
      && (r1.created ==> r1.recordedAt == now && Lookup(s3.rows, first.eventId) == Some(Row(store.nextId, now, first)))
  {
    var (s1, r1) := Record(store, first, now);
    RecordExact(store, first, now);
    InsertKeeps(store, first, now);
    FoundLater(s1, between, first.eventId);
    if r1.created { NewRowFound(store, first, now); }
  }

  // ----- Listing -----

  /** occurred_at DESC, id DESC */
  function ListKey(row: Row): Keyed<Row> {
    var id: int := row.id;
    Keyed(-row.event.occurredAt, -id, 0, row)
  }

  /** The rows with occurred_at in the inclusive range. */
  function InRange(rows: seq<Row>, from: Time, to: Time): seq<Keyed<Row>> {
    if rows == [] then []
    else
      var row := rows[|rows| - 1];
      InRange(rows[..|rows| - 1], from, to) + if from <= row.event.occurredAt <= to then [ListKey(row)] else []
  }

  function Listing(rows: seq<Row>, from: Time, to: Time, limit: nat): seq<Row> {
    Items(Take(Sort(InRange(rows, from, to)), limit))
  }

  lemma {:induction false} InRangeRows(rows: seq<Row>, from: Time, to: Time)
    ensures forall x | x in InRange(rows, from, to) ::
      x.item in rows && x == ListKey(x.item) && from <= x.item.event.occurredAt <= to
    ensures forall row | row in rows && from <= row.event.occurredAt <= to :: ListKey(row) in InRange(rows, from, to)
  {
    if rows != [] {
      var n := |rows| - 1;
      InRangeRows(rows[..n], from, to);
      assert rows == rows[..n] + [rows[n]];
    }
  }

  lemma {:induction false} InRangeDistinct(rows: seq<Row>, from: Time, to: Time)
    requires forall i, j | 0 <= i < j < |rows| :: rows[i].id < rows[j].id
    ensures DistinctKeys(InRange(rows, from, to))
  {
    if rows != [] {
      var n := |rows| - 1;
      InRangeDistinct(rows[..n], from, to);
      InRangeRows(rows[..n], from, to);
      var rest := InRange(rows[..n], from, to);
      forall k | 0 <= k < |rest| ensures rest[k].k1 != ListKey(rows[n]).k1 {
        assert rest[k] in rest;
        var i :| 0 <= i < n && rows[..n][i] == rest[k].item;
        assert rows[i].id < rows[n].id;
      }
    }
  }

  ghost predicate ListedBefore(a: Row, b: Row) {
    a.event.occurredAt > b.event.occurredAt || (a.event.occurredAt == b.event.occurredAt && a.id > b.id)
  }

  /**
   A listing is strictly ordered, holds only stored rows of the range, and leaves out a row of
   the range only when it is full, and then only one that belongs after everything listed.
   */
  lemma ListingExact(store: Store, from: Time, to: Time, limit: nat)
    requires StoreWf(store)
    ensures var l := Listing(store.rows, from, to, limit);
      && |l| <= limit
      && (forall i, j | 0 <= i < j < |l| :: ListedBefore(l[i], l[j]))
      && (forall i | 0 <= i < |l| :: l[i] in store.rows && from <= l[i].event.occurredAt <= to)
      && (forall row | row in store.rows && from <= row.event.occurredAt <= to && row !in l ::
            |l| == limit && forall i | 0 <= i < |l| :: ListedBefore(l[i], row))
  {
    var c := InRange(store.rows, from, to);
    InRangeRows(store.rows, from, to);
    InRangeDistinct(store.rows, from, to);
    TopPrecedesRest(c, limit);
    SortRows(c);
    var top := Take(Sort(c), limit);
    var l := Listing(store.rows, from, to, limit);
    forall i | 0 <= i < |l| ensures l[i] in store.rows && from <= l[i].event.occurredAt <= to && top[i] == ListKey(l[i]) {
      assert top[i] == Sort(c)[i];
      assert top[i] in c;
    }
    forall i, j | 0 <= i < j < |l| ensures ListedBefore(l[i], l[j]) {
      assert Less(top[i], top[j]);
    }
    forall row | row in store.rows && from <= row.event.occurredAt <= to && row !in l
      ensures |l| == limit && forall i | 0 <= i < |l| :: ListedBefore(l[i], row)
    {
      NotListed(c, limit, row);
      forall i | 0 <= i < |l| ensures ListedBefore(l[i], row) {
        assert top[i] in top;
        assert Less(top[i], ListKey(row));
      }
    }
  }

  lemma NotListed(c: seq<Keyed<Row>>, limit: nat, row: Row)
    requires ListKey(row) in c && row !in Items(Take(Sort(c), limit))
    ensures ListKey(row) !in Take(Sort(c), limit) && limit < |c|
  {
    SortRows(c);
    var top := Take(Sort(c), limit);
    forall i | 0 <= i < |top| ensures top[i] != ListKey(row) {
      assert Items(top)[i] in Items(top);
    }
  }

  /** A smaller limit lists a prefix of what a larger one lists. */
  lemma ListingPrefix(rows: seq<Row>, from: Time, to: Time, small: nat, large: nat)
    requires small <= large
    ensures Listing(rows, from, to, small) <= Listing(rows, from, to, large)
  {
    var s := Sort(InRange(rows, from, to));
    assert Take(s, small) == Take(Take(s, large), small);
  }

  /**
   Listing algebra: cutting a range in two at any point and listing the later part before the
   earlier one gives the listing of the whole, for every limit.
   */
  lemma ListingSplits(store: Store, from: Time, cut: Time, to: Time, limit: nat)
    requires StoreWf(store) && from <= cut + 1 && cut <= to
    ensures Listing(store.rows, from, to, limit)
         == Take(Listing(store.rows, cut + 1, to, limit) + Listing(store.rows, from, cut, limit), limit)
  {
    var all, late, early := InRange(store.rows, from, to), InRange(store.rows, cut + 1, to), InRange(store.rows, from, cut);
    InRangeRows(store.rows, from, to);
    InRangeRows(store.rows, cut + 1, to);
    InRangeRows(store.rows, from, cut);
    InRangeDistinct(store.rows, from, to);
    InRangeDistinct(store.rows, cut + 1, to);
    InRangeDistinct(store.rows, from, cut);
    SortRows(late);
    SortRows(early);
    SortOrdered(late);
    SortOrdered(early);
    var joined := Sort(late) + Sort(early);
    forall i, j | 0 <= i < |Sort(late)| && 0 <= j < |Sort(early)| ensures Less(Sort(late)[i], Sort(early)[j]) {
      assert Sort(late)[i] in late && Sort(early)[j] in early;
    }
    JoinedRows(all, late, early, cut);
    SortIs(all, joined);
    TakeJoined(Sort(late), Sort(early), limit);
  }

  lemma JoinedRows(all: seq<Keyed<Row>>, late: seq<Keyed<Row>>, early: seq<Keyed<Row>>, cut: Time)
    requires forall x | x in late || x in early :: x in all
    requires forall x | x in all :: x in late || x in early
    ensures SameRows(all, Sort(late) + Sort(early))
  {
    SortRows(late);
    SortRows(early);
    forall x | x in all ensures x in Sort(late) + Sort(early) {
      assert x in Sort(late) || x in Sort(early);
    }
    forall x | x in Sort(late) + Sort(early) ensures x in all {
      assert x in Sort(late) || x in Sort(early);
      assert x in late || x in early;
    }
  }

  lemma TakeJoined<T>(a: seq<Keyed<T>>, b: seq<Keyed<T>>, n: nat)
    ensures Items(Take(a + b, n)) == Take(Items(Take(a, n)) + Items(Take(b, n)), n)
  { }

  // ----- The generated queries -----

  datatype ListResult = Listed(items: seq<Row>) | ListError

  /** Where a listing fails, if it does: sending the query, scanning row i, closing the result set, or on the way. */
  datatype ReadFault = NoReadFault | QueryFails | ScanFails(i: nat) | CloseFails | RowsErr

  class AuditTable {
    var rows: seq<Row>
    var nextId: nat

    function Model(): Store
      reads this
    {
      Store(rows, nextId)
    }

    constructor ()
      ensures Model() == Store([], 1)
    {
      rows, nextId := [], 1;
    }

    method InsertEvent(e: Event, now: Time) returns (r: InsertResult)
      modifies this
      ensures (Model(), r) == InsertOnce(old(Model()), e, now)
      ensures r.Inserted? <==> ChecksHold(e) && forall row | row in old(rows) :: row.event.eventId != e.eventId
      ensures rows == if r.Inserted? then old(rows) + [Row(r.id, now, e)] else old(rows)
    {
      InsertExact(Model(), e, now);
      var id := nextId;
      nextId := nextId + 1;
      if !ChecksHold(e) {
        return ConstraintViolation;
      }
      var clash := GetEventByEventID(e.eventId);
      if clash.Some? {
        return NoRows;
      }
      rows := rows + [Row(id, now, e)];
      r := Inserted(id, e.eventId, now);
    }

    method GetEventByEventID(eventId: string) returns (r: Option<Row>)
      ensures r == Lookup(rows, eventId)
    {
      for i := 0 to |rows|
        invariant Lookup(rows, eventId) == Lookup(rows[i..], eventId)
      {
        if rows[i].event.eventId == eventId {
          return Some(rows[i]);
        }
      }
      r := None;
    }

    /** The handler's use of the two: a duplicate is answered with the first recorded_at. */
    method RecordEvent(e: Event, now: Time) returns (r: RecordResult)
      modifies this
      ensures (Model(), r) == Record(old(Model()), e, now)
      ensures r.Recorded? <==> ChecksHold(e)
      ensures r.Recorded? ==> exists row :: row in rows && row.event.eventId == e.eventId && row.recordedAt == r.recordedAt
    {
      RecordExact(Model(), e, now);
      ghost var before := rows;
      var inserted := InsertEvent(e, now);
      match inserted
      case Inserted(_, _, recordedAt) =>
        r := Recorded(recordedAt, true);
        assert rows[|before|] in rows;
      case NoRows =>
        var found := GetEventByEventID(e.eventId);
        r := if found.Some? then Recorded(found.value.recordedAt, false) else Rejected;
      case ConstraintViolation =>
        r := Rejected;
    }

    /** Runs the query and scans its rows one by one; any failure discards what was read. */
    method ListEventsByTimeRange(from: Time, to: Time, limit: int, fault: ReadFault) returns (r: ListResult)
      ensures r.ListError? <==>
        limit < 0 || fault == QueryFails || fault == CloseFails || fault == RowsErr
        || (fault.ScanFails? && fault.i < |Listing(rows, from, to, limit)|)
      ensures r.Listed? ==> r.items == Listing(rows, from, to, limit)
    {
      if limit < 0 || fault == QueryFails {
        return ListError;
      }
      var top := SelectTop(InRange(rows, from, to), limit);
      var items: seq<Row> := [];
      for i := 0 to |top|
        invariant items == Items(top)[..i]
        invariant fault.ScanFails? ==> i <= fault.i
      {
        if fault == ScanFails(i) {
          return ListError;
        }
        items := items + [top[i].item];
      }
      if fault == CloseFails || fault == RowsErr {
        return ListError;
      }
      r := Listed(items);
    }
  }
}
