/** The long-poll loop of Consume: it stops in bounded time and never drops a batch it has leased. */
module LongPoll {
  import opened Common

  const INTERVAL: Time := 200

  datatype PollResult<+T> = Leased(batch: seq<T>) | PollFailed

  /**
   What the loop meets: the answer to its i-th query, the clock it reads after it, and whether
   the context is done before the timer that follows it fires.
   */
  datatype Surroundings<!T> = Surroundings(poll: nat -> PollResult<T>, clock: nat -> Time, cancelled: nat -> bool)

  datatype Outcome<+T> = Batch(messages: seq<T>) | QueryError | ContextDone

  /** Timers fire no earlier than asked for. */
  ghost predicate Paced<T>(env: Surroundings<T>, start: Time) {
    env.clock(0) >= start && forall i: nat :: env.clock(i + 1) >= env.clock(i) + INTERVAL
  }

  /** The loop goes round again after query i. */
  predicate GoesOn<T(==)>(env: Surroundings<T>, deadline: Time, i: nat) {
    env.poll(i) == Leased([]) && env.clock(i) <= deadline && !env.cancelled(i)
  }

  /** Query n is the last one. */
  ghost predicate LastQuery<T>(env: Surroundings<T>, deadline: Time, n: nat) {
    !GoesOn(env, deadline, n) && forall i: nat | i < n :: GoesOn(env, deadline, i)
  }

  lemma {:induction false} ClockAdvances<T>(env: Surroundings<T>, start: Time, i: nat)
    requires Paced(env, start)
    ensures env.clock(i) >= start + INTERVAL * i
  {
    if i > 0 {
      ClockAdvances(env, start, i - 1);
      assert env.clock(i - 1 + 1) >= env.clock(i - 1) + INTERVAL;
    }
  }

  /** Whatever happens, at most floor(maxWait / 200 ms) + 2 queries are made. */
  lemma QueriesBounded<T>(env: Surroundings<T>, start: Time, maxWait: nat, n: nat)
    requires Paced(env, start) && LastQuery(env, start + maxWait, n)
    ensures n + 1 <= maxWait / INTERVAL + 2
  {
    if n > 0 {
      ClockAdvances(env, start, n - 1);
      assert GoesOn(env, start + maxWait, n - 1);
    }
  }

  function Silent(start: Time): Surroundings<int> {
    Surroundings(i => Leased([]), i => start + INTERVAL * i, i => false)
  }

  /** The bound is reached when no message ever comes, no one cancels and every timer is exact. */
  lemma BoundReached(start: Time, maxWait: nat)
    ensures Paced(Silent(start), start) && LastQuery(Silent(start), start + maxWait, maxWait / INTERVAL + 1)
  {
    var silent := Silent(start);
    var n := maxWait / INTERVAL + 1;
    assert INTERVAL * (n - 1) <= maxWait < INTERVAL * n;
  }

  /**
   One Consume.  Without a wait it queries once; otherwise the first query that fails, leases
   something, comes after the deadline or is followed by cancellation decides the outcome.
   All queries before it leased nothing, so no leased batch is ever left behind.
   */
  method Consume<T(==)>(env: Surroundings<T>, start: Time, maxWait: int) returns (r: Outcome<T>, queries: nat)
    requires Paced(env, start)
    ensures maxWait <= 0 ==> queries == 1
    ensures maxWait > 0 ==> queries > 0 && LastQuery(env, start + maxWait, queries - 1) && queries <= maxWait / INTERVAL + 2
    ensures queries > 0
    ensures r == QueryError <==> env.poll(queries - 1) == PollFailed
    ensures r.Batch? ==> env.poll(queries - 1) == Leased(r.messages)
    ensures maxWait > 0 && r == Batch([]) ==> env.clock(queries - 1) > start + maxWait
    ensures r == ContextDone ==>
      maxWait > 0 && env.poll(queries - 1) == Leased([]) && env.cancelled(queries - 1) && env.clock(queries - 1) <= start + maxWait
  {
    var deadline := start + maxWait;
    var i: nat := 0;
    while true
      invariant i == 0 || maxWait > 0
      invariant forall k: nat | k < i :: GoesOn(env, deadline, k)
      invariant maxWait > 0 ==> i <= maxWait / INTERVAL + 1
      decreases if maxWait > 0 then maxWait / INTERVAL + 2 - i else 0
    {
      var answer := env.poll(i);
      queries := i + 1;
      if answer.PollFailed? {
        r := QueryError;
        break;
      }
      if maxWait <= 0 || answer.batch != [] || env.clock(i) > deadline {
        r := Batch(answer.batch);
        break;
      }
      if env.cancelled(i) {
        r := ContextDone;
        break;
      }
      ClockAdvances(env, start, i);
      i := i + 1;
    }
    if maxWait > 0 {
      QueriesBounded(env, start, maxWait, queries - 1);
    }
  }
}
