/** Caches with different prefixes on one Redis client, and exactly when they do not interfere. */
module PrefixCache {
  import opened Common

  datatype Entry = Entry(value: string, expiresAt: Option<Time>)

  /** Keys to entries: the client's whole key space, or the key space of one cache on its own. */
  type Keyspace = map<string, Entry>

  /** The duration that asks SET to leave a key's expiry alone. */
  const KEEP_TTL: Time := -1

  predicate Live(m: Keyspace, now: Time, key: string) {
    key in m && (m[key].expiresAt.Some? ==> now < m[key].expiresAt.value)
  }

  function Read(m: Keyspace, now: Time, key: string): Option<string> {
    if Live(m, now, key) then Some(m[key].value) else None
  }

  /** A positive duration sets an expiry, KEEP_TTL keeps one, anything else means none. */
  function Expiry(m: Keyspace, now: Time, key: string, ttl: Time): Option<Time> {
    if ttl > 0 then Some(now + ttl)
    else if ttl == KEEP_TTL && Live(m, now, key) then m[key].expiresAt
    else None
  }

  function Write(m: Keyspace, now: Time, key: string, value: string, ttl: Time): Keyspace {
    m[key := Entry(value, Expiry(m, now, key, ttl))]
  }

  function MakeKey(prefix: string, key: string): string {
    prefix + "-" + key
  }

  // ----- The string theorem -----

  lemma MakeKeyInjective(prefix: string, k: string, l: string)
    requires MakeKey(prefix, k) == MakeKey(prefix, l)
    ensures k == l
  {
    assert MakeKey(prefix, k)[|prefix| + 1..] == k;
    assert MakeKey(prefix, l)[|prefix| + 1..] == l;
  }

  /** One of "p-" and "q-" begins with the other. */
  predicate Overlap(p: string, q: string) {
    p + "-" <= q + "-" || q + "-" <= p + "-"
  }

  lemma CollisionMeansOverlap(p: string, k: string, q: string, l: string)
    requires MakeKey(p, k) == MakeKey(q, l)
    ensures Overlap(p, q)
  {
    var s := MakeKey(p, k);
    assert s[..|p| + 1] == p + "-";
    assert s[..|q| + 1] == q + "-";
    if |p| <= |q| {
      assert s[..|q| + 1][..|p| + 1] == s[..|p| + 1];
    } else {
      assert s[..|p| + 1][..|q| + 1] == s[..|q| + 1];
    }
  }

  lemma OverlapMeansCollision(p: string, q: string) returns (k: string, l: string)
    requires Overlap(p, q)
    ensures MakeKey(p, k) == MakeKey(q, l)
  {
    if p + "-" <= q + "-" {
      k, l := (q + "-")[|p| + 1..], "";
      assert q + "-" == (p + "-") + k;
    } else {
      k, l := "", (p + "-")[|q| + 1..];
      assert p + "-" == (q + "-") + l;
    }
  }

  // ----- Any number of caches on one client, against as many on their own -----

  datatype Config = Config(prefix: string, ttl: Time)

  datatype Op = Set(key: string, value: string) | Get(key: string) | Delete(key: string)

  /** What happens on the client: a call through one of the caches, or time passing. */
  datatype Event = On(cache: nat, op: Op) | Elapse(d: nat)

  /** One call on a key space, with the key it really uses: the space after it and what the caller reads. */
  function Call(m: Keyspace, now: Time, key: string, op: Op, ttl: Time): (Keyspace, Option<string>) {
    match op
    case Set(_, value) => (Write(m, now, key, value, ttl), None)
    case Get(_) => (m, Read(m, now, key))
    case Delete(_) => (m - {key}, None)
  }

  /**
   A value that a call has set is read back until its time is up, whatever was there before: for
   the ttl of the call when that is positive, for the rest of the old entry's time under KEEP_TTL,
   else for good.  Other keys keep what they had, reading changes nothing, and after a Delete
   exactly the deleted key is gone.
   */
  lemma ReadAfterWrite(m: Keyspace, now: Time, key: string, k: string, value: string, ttl: Time, d: nat, other: string)
    ensures var m' := Call(m, now, key, Set(k, value), ttl).0;
      var gone := Call(m', now, key, Delete(k), ttl).0;
      && Call(m', now + d, key, Get(k), ttl).1 ==
           (if ttl > 0 then if d < ttl then Some(value) else None
            else if ttl == -1 && Call(m, now, key, Get(k), ttl).1.Some?
            then if Call(m, now + d, key, Get(k), ttl).1.Some? then Some(value) else None
            else Some(value))
      && (other != key ==> Call(m', now + d, other, Get(k), ttl).1 == Call(m, now + d, other, Get(k), ttl).1)
      && Call(m, now, key, Get(k), ttl).0 == m
      && Call(gone, now + d, key, Get(k), ttl).1 == None
      && (other != key ==> Call(gone, now + d, other, Get(k), ttl).1 == Call(m', now + d, other, Get(k), ttl).1)
  { }

  /** What the callers read, event by event, when all caches share one key space. */
  function Shared(caches: seq<Config>, m: Keyspace, now: Time, events: seq<Event>): seq<Option<string>>
    decreases |events|
  {
    if events == [] then []
    else
      match events[0]
      case On(i, op) =>
        if i < |caches| then
          var (m', seen) := Call(m, now, MakeKey(caches[i].prefix, op.key), op, caches[i].ttl);
          [seen] + Shared(caches, m', now, events[1..])
        else [None] + Shared(caches, m, now, events[1..])
      case Elapse(d) => [None] + Shared(caches, m, now + d, events[1..])
  }

  /** What they would read if each cache had a key space to itself. */
  function Separate(caches: seq<Config>, spaces: seq<Keyspace>, now: Time, events: seq<Event>): seq<Option<string>>
    requires |spaces| == |caches|
    decreases |events|
  {
    if events == [] then []
    else
      match events[0]
      case On(i, op) =>
        if i < |caches| then
          var (space, seen) := Call(spaces[i], now, op.key, op, caches[i].ttl);
          [seen] + Separate(caches, spaces[i := space], now, events[1..])
        else [None] + Separate(caches, spaces, now, events[1..])
      case Elapse(d) => [None] + Separate(caches, spaces, now + d, events[1..])
  }

  function Empty(n: nat): (spaces: seq<Keyspace>)
    ensures |spaces| == n && forall i | 0 <= i < n :: spaces[i] == map[]
  {
    if n == 0 then [] else Empty(n - 1) + [map[]]
  }

  /** No interleaving of calls and time lets anyone tell the shared client from private ones. */
  ghost predicate Isolated(caches: seq<Config>) {
    forall now, events :: Shared(caches, map[], now, events) == Separate(caches, Empty(|caches|), now, events)
  }

  ghost predicate Apart(caches: seq<Config>) {
    forall i, j | 0 <= i < |caches| && 0 <= j < |caches| && i != j :: !Overlap(caches[i].prefix, caches[j].prefix)
  }

  lemma ThreeEvents(caches: seq<Config>, m: Keyspace, now: Time, i: nat, first: Op, d: nat, k: string)
    requires i < |caches|
    ensures var c := caches[i];
      Shared(caches, m, now, [On(i, first), Elapse(d), On(i, Get(k))]) ==
        [Call(m, now, MakeKey(c.prefix, first.key), first, c.ttl).1, None,
         Call(Call(m, now, MakeKey(c.prefix, first.key), first, c.ttl).0, now + d, MakeKey(c.prefix, k), Get(k), c.ttl).1]
  {
    var events := [On(i, first), Elapse(d), On(i, Get(k))];
    var m' := Call(m, now, MakeKey(caches[i].prefix, first.key), first, caches[i].ttl).0;
    assert events[1..][1..] == [On(i, Get(k))] && events[1..][0] == Elapse(d) && [On(i, Get(k))][1..] == [];
    assert Shared(caches, m', now + d, [On(i, Get(k))]) == [Call(m', now + d, MakeKey(caches[i].prefix, k), Get(k), caches[i].ttl).1];
    assert Shared(caches, m', now, events[1..]) == [None] + Shared(caches, m', now + d, [On(i, Get(k))]);
  }

  /** On the shared client a cache keeps what it sets for its own ttl, or for good when that is not positive, and nothing of what it deletes. */
  lemma CacheRemembers(caches: seq<Config>, m: Keyspace, now: Time, i: nat, k: string, value: string, d: nat)
    requires i < |caches| && caches[i].ttl != -1
    ensures Shared(caches, m, now, [On(i, Set(k, value)), Elapse(d), On(i, Get(k))])
         == [None, None, if caches[i].ttl > 0 && d >= caches[i].ttl then None else Some(value)]
    ensures Shared(caches, m, now, [On(i, Delete(k)), Elapse(d), On(i, Get(k))]) == [None, None, None]
  {
    ThreeEvents(caches, m, now, i, Set(k, value), d, k);
    ThreeEvents(caches, m, now, i, Delete(k), d, k);
  }

  /** The shared key space shows a cache exactly what its private one would. */
  ghost predicate Shows(m: Keyspace, prefix: string, a: Keyspace) {
    forall k: string {:trigger MakeKey(prefix, k)} ::
      (MakeKey(prefix, k) in m <==> k in a) && (k in a ==> m[MakeKey(prefix, k)] == a[k])
  }

  /** A call through its own prefix keeps the picture and reads the same. */
  lemma OwnCall(m: Keyspace, prefix: string, a: Keyspace, now: Time, op: Op, ttl: Time)
    requires Shows(m, prefix, a)
    ensures Call(m, now, MakeKey(prefix, op.key), op, ttl).1 == Call(a, now, op.key, op, ttl).1
    ensures Shows(Call(m, now, MakeKey(prefix, op.key), op, ttl).0, prefix, Call(a, now, op.key, op, ttl).0)
  {
    var m', a' := Call(m, now, MakeKey(prefix, op.key), op, ttl).0, Call(a, now, op.key, op, ttl).0;
    forall k: string
      ensures (MakeKey(prefix, k) in m' <==> k in a') && (k in a' ==> m'[MakeKey(prefix, k)] == a'[k])
    {
      assert MakeKey(prefix, k) in m <==> k in a;
      assert MakeKey(prefix, op.key) in m <==> op.key in a;
      if MakeKey(prefix, k) == MakeKey(prefix, op.key) { MakeKeyInjective(prefix, k, op.key); }
    }
  }

  /** A call through a prefix that does not overlap leaves the picture alone. */
  lemma OtherCall(m: Keyspace, prefix: string, a: Keyspace, now: Time, other: string, op: Op, ttl: Time)
    requires Shows(m, prefix, a) && !Overlap(prefix, other)
    ensures Shows(Call(m, now, MakeKey(other, op.key), op, ttl).0, prefix, a)
  {
    var m' := Call(m, now, MakeKey(other, op.key), op, ttl).0;
    forall k: string
      ensures (MakeKey(prefix, k) in m' <==> k in a) && (k in a ==> m'[MakeKey(prefix, k)] == a[k])
    {
      assert MakeKey(prefix, k) in m <==> k in a;
      if MakeKey(prefix, k) == MakeKey(other, op.key) { CollisionMeansOverlap(prefix, k, other, op.key); }
    }
  }

  /** Every cache finds in the shared key space what its private one holds. */
  ghost predicate ShowsAll(m: Keyspace, caches: seq<Config>, spaces: seq<Keyspace>)
    requires |spaces| == |caches|
  {
    forall i | 0 <= i < |caches| :: Shows(m, caches[i].prefix, spaces[i])
  }

  /** One call through any cache keeps all pictures, and its caller reads what it would read alone. */
  lemma CallSimulated(m: Keyspace, caches: seq<Config>, spaces: seq<Keyspace>, i: nat, now: Time, op: Op)
    requires |spaces| == |caches| && Apart(caches) && ShowsAll(m, caches, spaces) && i < |caches|
    ensures var (m', seen) := Call(m, now, MakeKey(caches[i].prefix, op.key), op, caches[i].ttl);
      var (space, seen') := Call(spaces[i], now, op.key, op, caches[i].ttl);
      seen == seen' && ShowsAll(m', caches, spaces[i := space])
  {
    var m' := Call(m, now, MakeKey(caches[i].prefix, op.key), op, caches[i].ttl).0;
    var space := Call(spaces[i], now, op.key, op, caches[i].ttl).0;
    OwnCall(m, caches[i].prefix, spaces[i], now, op, caches[i].ttl);
    forall j | 0 <= j < |caches| ensures Shows(m', caches[j].prefix, spaces[i := space][j]) {
      if j != i { OtherCall(m, caches[j].prefix, spaces[j], now, caches[i].prefix, op, caches[i].ttl); }
    }
  }

  lemma {:induction false} Simulates(caches: seq<Config>, m: Keyspace, spaces: seq<Keyspace>, now: Time, events: seq<Event>)
    requires |spaces| == |caches| && Apart(caches) && ShowsAll(m, caches, spaces)
    ensures Shared(caches, m, now, events) == Separate(caches, spaces, now, events)
    decreases |events|
  {
    if events == [] {
    } else if events[0].Elapse? {
      Simulates(caches, m, spaces, now + events[0].d, events[1..]);
    } else if events[0].cache < |caches| {
      var i, op := events[0].cache, events[0].op;
      CallSimulated(m, caches, spaces, i, now, op);
      Simulates(caches, Call(m, now, MakeKey(caches[i].prefix, op.key), op, caches[i].ttl).0,
                spaces[i := Call(spaces[i], now, op.key, op, caches[i].ttl).0], now, events[1..]);
    } else {
      Simulates(caches, m, spaces, now, events[1..]);
    }
  }

  /** When two prefixes overlap, a value set through one is read through the other. */
  lemma OverlapLeaks(caches: seq<Config>, i: nat, j: nat)
    requires i < |caches| && j < |caches| && i != j && Overlap(caches[i].prefix, caches[j].prefix)
    ensures !Isolated(caches)
  {
    var k, l := OverlapMeansCollision(caches[i].prefix, caches[j].prefix);
    var set', get := On(i, Set(k, "v")), On(j, Get(l));
    var spaces := Empty(|caches|);
    var m := Write(map[], 0, MakeKey(caches[i].prefix, k), "v", caches[i].ttl);
    var after := spaces[i := Write(map[], 0, k, "v", caches[i].ttl)];
    assert [set', get][1..] == [get] && [get][1..] == [];
    assert Read(m, 0, MakeKey(caches[j].prefix, l)) == Some("v");
    assert Shared(caches, m, 0, [get]) == [Some("v")];
    assert Separate(caches, after, 0, [get]) == [None];
    assert Shared(caches, map[], 0, [set', get]) == [None] + [Some("v")];
    assert Separate(caches, spaces, 0, [set', get]) == [None] + [None];
    assert ([None] + [Some("v")])[1] != ([None] + [None])[1];
  }

  /** Isolation of any family of caches, exactly: for no two of them does "p-" begin with "q-". */
  lemma IsolatedIff(caches: seq<Config>)
    ensures Isolated(caches) <==>
      forall i, j | 0 <= i < |caches| && 0 <= j < |caches| && i != j :: !(caches[j].prefix + "-" <= caches[i].prefix + "-")
  {
    if i, j :| 0 <= i < |caches| && 0 <= j < |caches| && i != j && caches[j].prefix + "-" <= caches[i].prefix + "-" {
      OverlapLeaks(caches, i, j);
    } else {
      forall now, events ensures Shared(caches, map[], now, events) == Separate(caches, Empty(|caches|), now, events) {
        Simulates(caches, map[], Empty(|caches|), now, events);
      }
    }
  }

  /** So "session" and "session-admin" are different prefixes that do collide. */
  lemma DifferentPrefixesCanCollide(ttlP: Time, ttlQ: Time)
    ensures !Isolated([Config("session", ttlP), Config("session-admin", ttlQ)])
  {
    assert "session" + "-" <= "session-admin" + "-";
    OverlapLeaks([Config("session", ttlP), Config("session-admin", ttlQ)], 0, 1);
  }

  // ----- The running code -----

  class Client {
    var data: Keyspace
    var clock: Time

    constructor (now: Time)
      ensures data == map[] && clock == now
    {
      data, clock := map[], now;
    }

    method Elapse(d: nat)
      modifies this`clock
      ensures clock == old(clock) + d
    {
      clock := clock + d;
    }
  }

  class Cache {
    const client: Client
    const prefix: string
    const ttl: Time

    constructor (client: Client, prefix: string, ttl: Time)
      ensures this.client == client && this.prefix == prefix && this.ttl == ttl
    {
      this.client, this.prefix, this.ttl := client, prefix, ttl;
    }

    method Set(key: string, value: string)
      modifies client`data
      ensures client.data == Call(old(client.data), client.clock, MakeKey(prefix, key), Op.Set(key, value), ttl).0
      ensures prefix + "-" + key in client.data && client.data[prefix + "-" + key].value == value
      ensures ttl > 0 ==> client.data[prefix + "-" + key].expiresAt == Some(client.clock + ttl)
      ensures client.data - {prefix + "-" + key} == old(client.data) - {prefix + "-" + key}
    {
      var k := MakeKey(prefix, key);
      var expiry := if ttl > 0 then Some(client.clock + ttl)
                    else if ttl == KEEP_TTL && Live(client.data, client.clock, k) then client.data[k].expiresAt
                    else None;
      client.data := client.data[k := Entry(value, expiry)];
    }

    method Get(key: string) returns (value: Option<string>)
      ensures value == Call(client.data, client.clock, MakeKey(prefix, key), Op.Get(key), ttl).1
      ensures value.Some? <==>
        && prefix + "-" + key in client.data
        && var expiry := client.data[prefix + "-" + key].expiresAt; expiry.Some? ==> client.clock < expiry.value
      ensures value.Some? ==> value.value == client.data[prefix + "-" + key].value
    {
      var k := MakeKey(prefix, key);
      value := None;
      if k in client.data {
        var e := client.data[k];
        if e.expiresAt.None? || client.clock < e.expiresAt.value {
          value := Some(e.value);
        }
      }
    }

    method Delete(key: string)
      modifies client`data
      ensures client.data == Call(old(client.data), client.clock, MakeKey(prefix, key), Op.Delete(key), ttl).0
      ensures prefix + "-" + key !in client.data
      ensures client.data == old(client.data) - {prefix + "-" + key}
    {
      client.data := client.data - {MakeKey(prefix, key)};
    }
  }
}
