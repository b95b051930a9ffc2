/** WithinTx: commit, rollback and nesting, run over an abstract database and against what a tree of calls means. */
module TransactionTrees {
  import opened Common

  type Row = string

  /** A context is a chain of values; only the nearest transaction in it counts. */
  datatype Context = Background | WithTx(parent: Context, tx: nat) | WithValue(parent: Context, key: string, value: string)

  function Tx(ctx: Context): Option<nat> {
    match ctx
    case Background => None
    case WithTx(_, tx) => Some(tx)
    case WithValue(parent, _, _) => Tx(parent)
  }

  datatype Error = BodyError(text: string) | BeginError | CommitError | RollbackError(cause: Error)

  datatype Outcome = Returned(error: Option<Error>) | Panicked

  /** How the database answers Begin, Commit and Rollback of one transaction. */
  datatype Fate = Fate(begins: bool, commits: bool, rollsBack: bool)

  /**
   The function handed to WithinTx, as what it does: repository inserts, nested WithinTx calls
   whose error it passes on or swallows, values added to its context, and how it ends.
   */
  datatype Body =
    | Return(error: Option<string>)
    | Panic
    | Insert(row: Row, next: Body)
    | Nested(inner: Body, fate: Fate, propagate: bool, next: Body)
    | Tag(key: string, value: string, next: Body)

  datatype Call = BeginCall(tx: nat) | CommitCall(tx: nat) | RollbackCall(tx: nat)

  /** Durable rows, the rows each open transaction has buffered, and the calls made on transactions. */
  datatype Database = Database(committed: seq<Row>, open: map<nat, seq<Row>>, calls: seq<Call>, nextTx: nat)

  // ----- As it runs -----

  /** A repository binds to the transaction in its context, or else writes directly. */
  function InsertRow(db: Database, ctx: Context, row: Row): Database {
    match Tx(ctx)
    case None => db.(committed := db.committed + [row])
    case Some(tx) => if tx in db.open then db.(open := db.open[tx := db.open[tx] + [row]]) else db
  }

  function Begin(db: Database): Database {
    db.(open := db.open[db.nextTx := []], calls := db.calls + [BeginCall(db.nextTx)], nextTx := db.nextTx + 1)
  }

  function Rollback(db: Database, tx: nat): Database {
    db.(open := db.open - {tx}, calls := db.calls + [RollbackCall(tx)])
  }

  function Commit(db: Database, tx: nat, succeeds: bool): Database {
    var rows := if succeeds && tx in db.open then db.open[tx] else [];
    db.(committed := db.committed + rows, open := db.open - {tx}, calls := db.calls + [CommitCall(tx)])
  }

  function WithinTx(db: Database, ctx: Context, body: Body, fate: Fate): (Database, Outcome)
    decreases body, 1
  {
    if !fate.begins then (db, Returned(Some(BeginError)))
    else
      var tx := db.nextTx;
      var (after, outcome) := RunBody(Begin(db), WithTx(ctx, tx), body);
      match outcome
      case Panicked => (after, Panicked)
      case Returned(Some(e)) => (Rollback(after, tx), Returned(Some(if fate.rollsBack then e else RollbackError(e))))
      case Returned(None) => (Commit(after, tx, fate.commits), Returned(if fate.commits then None else Some(CommitError)))
  }

  function RunBody(db: Database, ctx: Context, body: Body): (Database, Outcome)
    decreases body, 0
  {
    match body
    case Return(error) => (db, Returned(if error.Some? then Some(BodyError(error.value)) else None))
    case Panic => (db, Panicked)
    case Insert(row, next) => RunBody(InsertRow(db, ctx, row), ctx, next)
    case Tag(key, value, next) => RunBody(db, WithValue(ctx, key, value), next)
    case Nested(inner, fate, propagate, next) =>
      var (after, outcome) := WithinTx(db, ctx, inner, fate);
      if outcome.Panicked? || (propagate && outcome.error.Some?) then (after, outcome)
      else RunBody(after, ctx, next)
  }

  // ----- What it means -----

  /** Rows made durable in order, rows left to the enclosing transaction, and how the call ends. */
  datatype Meaning = Meaning(durable: seq<Row>, own: seq<Row>, outcome: Outcome)

  function Means(body: Body, inTx: bool): Meaning
    decreases body, 0
  {
    match body
    case Return(error) => Meaning([], [], Returned(if error.Some? then Some(BodyError(error.value)) else None))
    case Panic => Meaning([], [], Panicked)
    case Insert(row, next) =>
      var rest := Means(next, inTx);
      if inTx then rest.(own := [row] + rest.own) else rest.(durable := [row] + rest.durable)
    case Tag(_, _, next) => Means(next, inTx)
    case Nested(inner, fate, propagate, next) =>
      var m := MeansTx(inner, fate);
      if m.outcome.Panicked? || (propagate && m.outcome.error.Some?) then m
      else
        var rest := Means(next, inTx);
        rest.(durable := m.durable + rest.durable)
  }

  /** A transaction adds its own rows exactly when its body succeeds and its commit does; inner ones stand either way. */
  function MeansTx(body: Body, fate: Fate): Meaning
    decreases body, 1
  {
    if !fate.begins then Meaning([], [], Returned(Some(BeginError)))
    else
      var m := Means(body, true);
      match m.outcome
      case Panicked => Meaning(m.durable, [], Panicked)
      case Returned(Some(e)) => Meaning(m.durable, [], Returned(Some(if fate.rollsBack then e else RollbackError(e))))
      case Returned(None) =>
        if fate.commits then Meaning(m.durable + m.own, [], Returned(None)) else Meaning(m.durable, [], Returned(Some(CommitError)))
  }

  /** Transactions are numbered as they begin, and a context's transaction is one that is open. */
  ghost predicate DbWf(db: Database, ctx: Context) {
    && (forall tx | tx in db.open :: tx < db.nextTx)
    && (Tx(ctx).Some? ==> Tx(ctx).value in db.open)
  }

  /** Which transactions are open with what, apart from those a panic has left behind since `db`. */
  ghost predicate OpenAfter(db: Database, after: Database, tx: Option<nat>, own: seq<Row>) {
    && db.nextTx <= after.nextTx
    && (forall t | t in after.open :: t < after.nextTx)
    && (forall t | t in db.open :: t in after.open)
    && (forall t | t in db.open && Some(t) != tx :: after.open[t] == db.open[t])
    && (tx.Some? && tx.value in db.open && tx.value in after.open ==> after.open[tx.value] == db.open[tx.value] + own)
  }

  ghost predicate NoneLeft(db: Database, after: Database) {
    forall t | t in after.open :: t in db.open
  }

  /**
   Meaning: running a body in any context adds to the durable rows and to the innermost
   transaction exactly what the tree of calls says, and ends the same way.
   */
  lemma {:induction false} BodyMeans(db: Database, ctx: Context, body: Body)
    requires DbWf(db, ctx)
    ensures var (after, outcome) := RunBody(db, ctx, body);
      var m := Means(body, Tx(ctx).Some?);
      && outcome == m.outcome
      && after.committed == db.committed + m.durable
      && OpenAfter(db, after, Tx(ctx), m.own)
      && (outcome != Panicked ==> NoneLeft(db, after))
    decreases body, 0
  {
    match body
    case Return(error) =>
    case Panic =>
    case Insert(row, next) =>
      BodyMeans(InsertRow(db, ctx, row), ctx, next);
    case Tag(key, value, next) =>
      BodyMeans(db, WithValue(ctx, key, value), next);
    case Nested(inner, fate, propagate, next) =>
      TxMeans(db, ctx, inner, fate);
      var (after, outcome) := WithinTx(db, ctx, inner, fate);
      if !(outcome.Panicked? || (propagate && outcome.error.Some?)) {
        BodyMeans(after, ctx, next);
      }
  }

  /** The same for a whole WithinTx call; it leaves no row behind in any other open transaction. */
  lemma {:induction false} TxMeans(db: Database, ctx: Context, body: Body, fate: Fate)
    requires DbWf(db, ctx)
    ensures var (after, outcome) := WithinTx(db, ctx, body, fate);
      var m := MeansTx(body, fate);
      && outcome == m.outcome
      && after.committed == db.committed + m.durable
      && OpenAfter(db, after, Tx(ctx), [])
      && (outcome != Panicked ==> NoneLeft(db, after))
    decreases body, 1
  {
    if fate.begins {
      BodyMeans(Begin(db), WithTx(ctx, db.nextTx), body);
    }
  }

  // ----- Exactly one end for each transaction -----

  function Ends(calls: seq<Call>, tx: nat): nat {
    if calls == [] then 0
    else
      var last := calls[|calls| - 1];
      Ends(calls[..|calls| - 1], tx) + if last == CommitCall(tx) || last == RollbackCall(tx) then 1 else 0
  }

  lemma EndsOfOneMore(calls: seq<Call>, c: Call, tx: nat)
    ensures Ends(calls + [c], tx) == Ends(calls, tx) + if c == CommitCall(tx) || c == RollbackCall(tx) then 1 else 0
  {
    assert (calls + [c])[..|calls|] == calls;
  }

  /** Transactions still open have not been ended, closed ones were ended once, future ones never. */
  ghost predicate Ended(db: Database) {
    forall tx: nat :: Ends(db.calls, tx) == if tx < db.nextTx && tx !in db.open then 1 else 0
  }

  lemma BeginEndsNothing(db: Database, tx: nat)
    ensures Ends(Begin(db).calls, tx) == Ends(db.calls, tx)
  {
    EndsOfOneMore(db.calls, BeginCall(db.nextTx), tx);
  }

  lemma BeginEnded(db: Database)
    requires Ended(db) && (forall tx | tx in db.open :: tx < db.nextTx)
    ensures Ended(Begin(db))
  {
    var begun := Begin(db);
    forall tx: nat ensures Ends(begun.calls, tx) == if tx < begun.nextTx && tx !in begun.open then 1 else 0 {
      BeginEndsNothing(db, tx);
    }
  }

  lemma EndEnded(db: Database, tx: nat, c: Call, after: Database)
    requires Ended(db) && tx in db.open && tx < db.nextTx
    requires c == CommitCall(tx) || c == RollbackCall(tx)
    requires after.calls == db.calls + [c] && after.open == db.open - {tx} && after.nextTx == db.nextTx
    ensures Ended(after)
  {
    forall t: nat ensures Ends(after.calls, t) == if t < after.nextTx && t !in after.open then 1 else 0 {
      EndsOfOneMore(db.calls, c, t);
    }
  }

  lemma {:induction false} BodyEnded(db: Database, ctx: Context, body: Body)
    requires DbWf(db, ctx) && Ended(db)
    ensures Ended(RunBody(db, ctx, body).0)
    decreases body, 0
  {
    match body
    case Return(error) =>
    case Panic =>
    case Insert(row, next) =>
      BodyEnded(InsertRow(db, ctx, row), ctx, next);
    case Tag(key, value, next) =>
      BodyEnded(db, WithValue(ctx, key, value), next);
    case Nested(inner, fate, propagate, next) =>
      TxEnded(db, ctx, inner, fate);
      TxMeans(db, ctx, inner, fate);
      var (after, outcome) := WithinTx(db, ctx, inner, fate);
      if !(outcome.Panicked? || (propagate && outcome.error.Some?)) {
        BodyEnded(after, ctx, next);
      }
  }

  lemma {:induction false} TxEnded(db: Database, ctx: Context, body: Body, fate: Fate)
    requires DbWf(db, ctx) && Ended(db)
    ensures Ended(WithinTx(db, ctx, body, fate).0)
    decreases body, 1
  {
    if fate.begins {
      var tx := db.nextTx;
      BeginEnded(db);
      BodyEnded(Begin(db), WithTx(ctx, tx), body);
      BodyMeans(Begin(db), WithTx(ctx, tx), body);
      var (after, outcome) := RunBody(Begin(db), WithTx(ctx, tx), body);
      match outcome
      case Panicked =>
      case Returned(Some(e)) => EndEnded(after, tx, RollbackCall(tx), Rollback(after, tx));
      case Returned(None) => EndEnded(after, tx, CommitCall(tx), Commit(after, tx, fate.commits));
    }
  }

  /** Every transaction begun between the two states has had exactly one end. */
  ghost predicate EachEndedOnce(db: Database, after: Database) {
    forall tx: nat | db.nextTx <= tx < after.nextTx :: Ends(after.calls, tx) == 1
  }

  lemma NoneLeftMeansEnded(db: Database, after: Database)
    requires Ended(after) && NoneLeft(db, after) && forall t | t in db.open :: t < db.nextTx
    ensures EachEndedOnce(db, after)
  {
    forall tx: nat | db.nextTx <= tx < after.nextTx ensures Ends(after.calls, tx) == 1 { assert tx !in after.open; }
  }

  lemma LeftOverIsUnended(db: Database, after: Database, tx: nat)
    requires Ended(after) && tx in after.open && db.nextTx <= tx < after.nextTx
    ensures !EachEndedOnce(db, after)
  {
    assert Ends(after.calls, tx) == 0;
  }

  // ----- Bodies that panic, read off the tree -----

  /** Whether the body runs into a panic, which nothing on the way out recovers. */
  predicate Panics(body: Body)
    decreases body, 0
  {
    match body
    case Return(_) => false
    case Panic => true
    case Insert(_, next) => Panics(next)
    case Tag(_, _, next) => Panics(next)
    case Nested(inner, fate, propagate, next) =>
      (fate.begins && Panics(inner)) || (!(propagate && TxFails(inner, fate)) && Panics(next))
  }

  /** Whether the body returns an error. */
  predicate Fails(body: Body)
    decreases body, 0
  {
    match body
    case Return(error) => error.Some?
    case Panic => false
    case Insert(_, next) => Fails(next)
    case Tag(_, _, next) => Fails(next)
    case Nested(inner, fate, propagate, next) =>
      !(fate.begins && Panics(inner)) && ((propagate && TxFails(inner, fate)) || Fails(next))
  }

  predicate TxFails(body: Body, fate: Fate)
    decreases body, 1
  {
    !fate.begins || (!Panics(body) && (Fails(body) || !fate.commits))
  }

  lemma {:induction false} EndsAsRead(body: Body, inTx: bool)
    ensures Panics(body) <==> Means(body, inTx).outcome == Panicked
    ensures Fails(body) <==> Means(body, inTx).outcome.Returned? && Means(body, inTx).outcome.error.Some?
  {
    match body
    case Return(error) =>
    case Panic =>
    case Insert(row, next) => EndsAsRead(next, inTx);
    case Tag(key, value, next) => EndsAsRead(next, inTx);
    case Nested(inner, fate, propagate, next) =>
      EndsAsRead(inner, true);
      EndsAsRead(next, inTx);
  }

  /** A panic statement anywhere in the tree. */
  predicate HasPanic(body: Body) {
    match body
    case Return(_) => false
    case Panic => true
    case Insert(_, next) => HasPanic(next)
    case Tag(_, _, next) => HasPanic(next)
    case Nested(inner, _, _, next) => HasPanic(inner) || HasPanic(next)
  }

  lemma {:induction false} NoPanicStatement(body: Body)
    requires !HasPanic(body)
    ensures !Panics(body)
  {
    match body
    case Return(error) =>
    case Insert(row, next) => NoPanicStatement(next);
    case Tag(key, value, next) => NoPanicStatement(next);
    case Nested(inner, fate, propagate, next) =>
      NoPanicStatement(inner);
      NoPanicStatement(next);
  }

  /**
   Each transaction begun inside a WithinTx call, at any depth, gets exactly one Commit or
   Rollback call if and only if its body does not run into a panic: nothing in WithinTx recovers.
   */
  lemma ExactlyOneEndIffNoPanic(db: Database, ctx: Context, body: Body, fate: Fate)
    requires DbWf(db, ctx) && Ended(db) && fate.begins
    ensures var (after, outcome) := WithinTx(db, ctx, body, fate);
      && (EachEndedOnce(db, after) <==> !Panics(body))
      && (!HasPanic(body) ==> EachEndedOnce(db, after))
  {
    var (after, outcome) := WithinTx(db, ctx, body, fate);
    TxEnded(db, ctx, body, fate);
    TxMeans(db, ctx, body, fate);
    EndsAsRead(body, true);
    if !HasPanic(body) { NoPanicStatement(body); }
    if outcome == Panicked {
      BodyMeans(Begin(db), WithTx(ctx, db.nextTx), body);
      LeftOverIsUnended(db, after, db.nextTx);
    } else {
      NoneLeftMeansEnded(db, after);
    }
  }

  /** A body that panics leaves its transaction open, with neither a commit nor a rollback. */
  lemma PanicLeavesOpen(row: Row)
    ensures var (after, outcome) := WithinTx(Database([], map[], [], 0), Background, Insert(row, Panic), Fate(true, true, true));
      outcome == Panicked && after.open == map[0 := [row]] && Ends(after.calls, 0) == 0
  {
    var begun := Begin(Database([], map[], [], 0));
    var written := InsertRow(begun, WithTx(Background, 0), row);
    assert begun.open == map[0 := []] && begun.open[0] + [row] == [row] && written.open == map[0 := [row]];
    assert RunBody(written, WithTx(Background, 0), Panic) == (written, Panicked);
    assert RunBody(begun, WithTx(Background, 0), Insert(row, Panic)) == (written, Panicked);
    EndsOfOneMore([], BeginCall(0), 0);
    assert [] + [BeginCall(0)] == [BeginCall(0)];
  }

  // ----- Which call ends which transaction -----

  /** The calls added since `db`, all of them on transactions begun since. */
  ghost predicate OnlyNewTxs(db: Database, after: Database) {
    && db.calls <= after.calls && db.nextTx <= after.nextTx
    && forall k | |db.calls| <= k < |after.calls| :: after.calls[k].tx >= db.nextTx
  }

  lemma {:induction false} BodyCalls(db: Database, ctx: Context, body: Body)
    ensures OnlyNewTxs(db, RunBody(db, ctx, body).0)
    decreases body, 0
  {
    match body
    case Return(error) =>
    case Panic =>
    case Insert(row, next) => BodyCalls(InsertRow(db, ctx, row), ctx, next);
    case Tag(key, value, next) => BodyCalls(db, WithValue(ctx, key, value), next);
    case Nested(inner, fate, propagate, next) =>
      TxCalls(db, ctx, inner, fate);
      BodyCalls(WithinTx(db, ctx, inner, fate).0, ctx, next);
  }

  lemma {:induction false} TxCalls(db: Database, ctx: Context, body: Body, fate: Fate)
    ensures OnlyNewTxs(db, WithinTx(db, ctx, body, fate).0)
    decreases body, 1
  {
    BodyCalls(Begin(db), WithTx(ctx, db.nextTx), body);
  }

  /**
   A transaction that begins is ended last of all, by a Rollback when its body returns an error
   and by a Commit when it returns none, or not at all when it panics; the caller gets the body's
   error, wrapped when the rollback fails, or the error of the begin or the commit.
   */
  lemma EndedByItsOutcome(db: Database, ctx: Context, body: Body, fate: Fate)
    ensures var (after, outcome) := WithinTx(db, ctx, body, fate);
      var tx := db.nextTx;
      var (ran, result) := RunBody(Begin(db), WithTx(ctx, tx), body);
      var n := |after.calls| - 1;
      && (!fate.begins ==> after == db && outcome == Returned(Some(BeginError)))
      && (fate.begins ==>
            && |db.calls| <= n && after.calls[|db.calls|] == BeginCall(tx)
            && (result.Panicked? <==> Panics(body))
            && (forall k | |db.calls| <= k < n :: after.calls[k] != CommitCall(tx) && after.calls[k] != RollbackCall(tx))
            && (Panics(body) ==> outcome == Panicked && after.calls[n] != CommitCall(tx) && after.calls[n] != RollbackCall(tx))
            && (!Panics(body) && Fails(body) ==>
                  && after.calls[n] == RollbackCall(tx) && result.error.Some?
                  && outcome == Returned(Some(if fate.rollsBack then result.error.value else RollbackError(result.error.value))))
            && (!Panics(body) && !Fails(body) ==>
                  && after.calls[n] == CommitCall(tx) && result == Returned(None)
                  && outcome == if fate.commits then Returned(None) else Returned(Some(CommitError))))
  {
    if fate.begins {
      var tx := db.nextTx;
      BodyCalls(Begin(db), WithTx(ctx, tx), body);
      BodyEndsAsRead(Begin(db), WithTx(ctx, tx), body);
      var ran := RunBody(Begin(db), WithTx(ctx, tx), body).0;
      assert Begin(db).calls[|db.calls|] == BeginCall(tx);
      assert forall k | |db.calls| < k < |ran.calls| :: ran.calls[k].tx > tx;
    }
  }

  /** Read off the tree alone, whatever the database: how a body that runs ends. */
  lemma {:induction false} BodyEndsAsRead(db: Database, ctx: Context, body: Body)
    ensures var o := RunBody(db, ctx, body).1;
      (o.Panicked? <==> Panics(body)) && (o.Returned? && o.error.Some? <==> Fails(body))
    decreases body, 0
  {
    match body
    case Return(error) =>
    case Panic =>
    case Insert(row, next) => BodyEndsAsRead(InsertRow(db, ctx, row), ctx, next);
    case Tag(key, value, next) => BodyEndsAsRead(db, WithValue(ctx, key, value), next);
    case Nested(inner, fate, propagate, next) =>
      BodyEndsAsRead(Begin(db), WithTx(ctx, db.nextTx), inner);
      BodyEndsAsRead(WithinTx(db, ctx, inner, fate).0, ctx, next);
  }

  /** A write goes to the nearest open transaction of the context and to nothing else, or, without one, is durable at once. */
  lemma WriteBinds(db: Database, ctx: Context, row: Row)
    ensures var after := InsertRow(db, ctx, row);
      && after.calls == db.calls && after.nextTx == db.nextTx
      && (Tx(ctx).None? ==> after.committed == db.committed + [row] && after.open == db.open)
      && (Tx(ctx).Some? && Tx(ctx).value in db.open ==>
            after.committed == db.committed && after.open == db.open[Tx(ctx).value := db.open[Tx(ctx).value] + [row]])
  { }

  // ----- Nesting -----

  /** The body with the inserts of its own level left out; nested calls stay as they are. */
  function WithoutOwnInserts(body: Body): Body {
    match body
    case Return(_) => body
    case Panic => body
    case Insert(_, next) => WithoutOwnInserts(next)
    case Tag(key, value, next) => Tag(key, value, WithoutOwnInserts(next))
    case Nested(inner, fate, propagate, next) => Nested(inner, fate, propagate, WithoutOwnInserts(next))
  }

  lemma {:induction false} OwnInsertsOnly(body: Body)
    ensures Means(WithoutOwnInserts(body), true) == Means(body, true).(own := [])
  {
    match body
    case Return(error) =>
    case Panic =>
    case Insert(row, next) => OwnInsertsOnly(next);
    case Tag(key, value, next) => OwnInsertsOnly(next);
    case Nested(inner, fate, propagate, next) => OwnInsertsOnly(next);
  }

  /**
   Inner commits outlive the outer rollback, and nothing else does: a transaction whose body
   fails, whatever the body, adds exactly what the transactions nested in it made durable, and
   that is what it would have added with all inserts of its own left out.
   */
  lemma InnerCommitSurvives(db: Database, ctx: Context, body: Body, fate: Fate)
    requires DbWf(db, ctx) && fate.begins && Fails(body)
    ensures var after := WithinTx(db, ctx, body, fate).0;
      && after.committed == db.committed + Means(body, true).durable
      && after.committed == WithinTx(db, ctx, WithoutOwnInserts(body), fate).0.committed
  {
    EndsAsRead(body, true);
    OwnInsertsOnly(body);
    TxMeans(db, ctx, body, fate);
    TxMeans(db, ctx, WithoutOwnInserts(body), fate);
  }

  /** For one insert and one nested call, then an error: the inner rows remain, the outer one does not. */
  lemma OnlyInnerRowsRemain(db: Database, ctx: Context, inner: Body, propagate: bool, row: Row, text: string, rollsBack: bool)
    requires DbWf(db, ctx)
    requires Means(inner, true).outcome == Returned(None)
    ensures var body := Insert(row, Nested(inner, Fate(true, true, true), propagate, Return(Some(text))));
      var (after, outcome) := WithinTx(db, ctx, body, Fate(true, true, rollsBack));
      && outcome == Returned(Some(if rollsBack then BodyError(text) else RollbackError(BodyError(text))))
      && after.committed == db.committed + Means(inner, true).durable + Means(inner, true).own
  {
    var nested := Nested(inner, Fate(true, true, true), propagate, Return(Some(text)));
    var m := Means(inner, true);
    assert MeansTx(inner, Fate(true, true, true)) == Meaning(m.durable + m.own, [], Returned(None));
    assert Means(Return(Some(text)), true) == Meaning([], [], Returned(Some(BodyError(text))));
    assert Means(nested, true) == Meaning(m.durable + m.own, [], Returned(Some(BodyError(text))));
    assert Means(Insert(row, nested), true) == Meaning(m.durable + m.own, [row], Returned(Some(BodyError(text))));
    TxMeans(db, ctx, Insert(row, nested), Fate(true, true, rollsBack));
    assert db.committed + (m.durable + m.own) == db.committed + m.durable + m.own;
  }

}

/** The running code. */
module Transactor {
  import opened Common
  import opened TransactionTrees

  class Connection {
    var committed: seq<Row>
    var open: map<nat, seq<Row>>
    var calls: seq<Call>
    var nextTx: nat

    function Model(): Database
      reads this
    {
      Database(committed, open, calls, nextTx)
    }

    constructor ()
      ensures Model() == Database([], map[], [], 0)
    {
      committed, open, calls, nextTx := [], map[], [], 0;
    }

    method WithinTx(ctx: Context, body: Body, fate: Fate) returns (outcome: Outcome)
      modifies this
      ensures (Model(), outcome) == TransactionTrees.WithinTx(old(Model()), ctx, body, fate)
      decreases body, 1
    {
      if !fate.begins {
        return Returned(Some(BeginError));
      }
      var tx := nextTx;
      open, calls, nextTx := open[tx := []], calls + [BeginCall(tx)], nextTx + 1;
      outcome := RunBody(WithTx(ctx, tx), body);
      if outcome.Panicked? {
        return;
      }
      if outcome.error.Some? {
        open, calls := open - {tx}, calls + [RollbackCall(tx)];
        if !fate.rollsBack {
          outcome := Returned(Some(RollbackError(outcome.error.value)));
        }
        return;
      }
      var rows := if fate.commits && tx in open then open[tx] else [];
      committed, open, calls := committed + rows, open - {tx}, calls + [CommitCall(tx)];
      if !fate.commits {
        outcome := Returned(Some(CommitError));
      }
    }

    method RunBody(ctx: Context, body: Body) returns (outcome: Outcome)
      modifies this
      ensures (Model(), outcome) == TransactionTrees.RunBody(old(Model()), ctx, body)
      decreases body, 0
    {
      match body
      case Return(error) =>
        outcome := Returned(if error.Some? then Some(BodyError(error.value)) else None);
      case Panic =>
        outcome := Panicked;
      case Insert(row, next) =>
        var tx := Tx(ctx);
        if tx.None? {
          committed := committed + [row];
        } else if tx.value in open {
          open := open[tx.value := open[tx.value] + [row]];
        }
        outcome := RunBody(ctx, next);
      case Tag(key, value, next) =>
        outcome := RunBody(WithValue(ctx, key, value), next);
      case Nested(inner, fate, propagate, next) =>
        outcome := WithinTx(ctx, inner, fate);
        if outcome.Returned? && !(propagate && outcome.error.Some?) {
          outcome := RunBody(ctx, next);
        }
    }
  }
}
