/**
 ORDER BY ... LIMIT n, for rows that carry an integer key of three columns compared
 lexicographically.  `Sort` is the simple form, `SelectTop` the bounded form that never
 holds more than n rows.
 */
module Ordering {

  datatype Keyed<+T> = Keyed(k0: int, k1: int, k2: int, item: T)

  predicate Less<T>(x: Keyed<T>, y: Keyed<T>) {
    x.k0 < y.k0 || (x.k0 == y.k0 && (x.k1 < y.k1 || (x.k1 == y.k1 && x.k2 < y.k2)))
  }

  /** Strictly increasing, hence also free of duplicates. */
  ghost predicate Ordered<T>(s: seq<Keyed<T>>) {
    forall i, j | 0 <= i < j < |s| :: Less(s[i], s[j])
  }

  /** No two rows share a key. */
  ghost predicate DistinctKeys<T>(s: seq<Keyed<T>>) {
    forall i, j | 0 <= i < j < |s| :: Less(s[i], s[j]) || Less(s[j], s[i])
  }

  ghost predicate SameRows<T>(s: seq<Keyed<T>>, t: seq<Keyed<T>>) {
    (forall x | x in s :: x in t) && (forall x | x in t :: x in s)
  }

  function Insert<T>(s: seq<Keyed<T>>, x: Keyed<T>): seq<Keyed<T>> {
    if s == [] || Less(x, s[0]) then [x] + s else [s[0]] + Insert(s[1..], x)
  }

  function Sort<T>(s: seq<Keyed<T>>): seq<Keyed<T>> {
    if s == [] then [] else Insert(Sort(s[..|s| - 1]), s[|s| - 1])
  }

  function Take<T>(s: seq<T>, n: nat): seq<T> {
    if n < |s| then s[..n] else s
  }

  function Items<T>(s: seq<Keyed<T>>): (items: seq<T>)
    ensures |items| == |s|
  {
    seq(|s|, i requires 0 <= i < |s| => s[i].item)
  }

  lemma {:induction false} InsertRows<T>(s: seq<Keyed<T>>, x: Keyed<T>)
    ensures |Insert(s, x)| == |s| + 1
    ensures forall y | y in Insert(s, x) :: y == x || y in s
    ensures forall y | y in s :: y in Insert(s, x)
    ensures x in Insert(s, x)
    ensures multiset(Insert(s, x)) == multiset(s) + multiset{x}
  {
    if s == [] || Less(x, s[0]) {
    } else {
      InsertRows(s[1..], x);
      assert s == [s[0]] + s[1..];
    }
  }

  lemma {:induction false} InsertOrdered<T>(s: seq<Keyed<T>>, x: Keyed<T>)
    requires Ordered(s)
    requires forall y | y in s :: Less(x, y) || Less(y, x)
    ensures Ordered(Insert(s, x))
  {
    if s == [] || Less(x, s[0]) {
    } else {
      InsertOrdered(s[1..], x);
      InsertRows(s[1..], x);
      var rest := Insert(s[1..], x);
      forall y | y in rest ensures Less(s[0], y) {
        assert y == x || y in s[1..];
        if y != x {
          var j :| 0 <= j < |s[1..]| && s[1..][j] == y;
          assert s[j + 1] == y;
        }
      }
    }
  }

  lemma SameMultiset<T>(s: seq<Keyed<T>>, t: seq<Keyed<T>>)
    requires multiset(s) == multiset(t)
    ensures SameRows(s, t)
  {
    forall x | x in s ensures x in t { assert x in multiset(t); }
    forall x | x in t ensures x in s { assert x in multiset(s); }
  }

  /** Sorting keeps exactly the rows, each as often as before. */
  lemma {:induction false} SortRows<T>(s: seq<Keyed<T>>)
    ensures |Sort(s)| == |s|
    ensures multiset(Sort(s)) == multiset(s)
    ensures SameRows(s, Sort(s))
  {
    if s != [] {
      var n := |s| - 1;
      SortRows(s[..n]);
      InsertRows(Sort(s[..n]), s[n]);
      assert s == s[..n] + [s[n]];
    }
    SameMultiset(s, Sort(s));
  }

  lemma {:induction false} SortOrdered<T>(s: seq<Keyed<T>>)
    requires DistinctKeys(s)
    ensures Ordered(Sort(s))
  {
    if s != [] {
      var n := |s| - 1;
      SortOrdered(s[..n]);
      SortRows(s[..n]);
      forall y | y in Sort(s[..n]) ensures Less(s[n], y) || Less(y, s[n]) {
        var j :| 0 <= j < n && s[j] == y;
      }
      InsertOrdered(Sort(s[..n]), s[n]);
    }
  }

  /** A strictly increasing listing is determined by the set of its rows. */
  lemma {:induction false} OrderedUnique<T>(s: seq<Keyed<T>>, t: seq<Keyed<T>>)
    requires Ordered(s) && Ordered(t) && SameRows(s, t)
    ensures s == t
  {
    assert (s != [] ==> s[0] in s) && (t != [] ==> t[0] in t);
    if s != [] {
      var i :| 0 <= i < |t| && t[i] == s[0];
      var j :| 0 <= j < |s| && s[j] == t[0];
      assert s[0] == t[0];
      forall x | x in s[1..] ensures x in t[1..] {
        assert x in s && x in t;
        var k :| 0 <= k < |s[1..]| && s[1..][k] == x;
        assert Less(s[0], s[k + 1]);
      }
      forall x | x in t[1..] ensures x in s[1..] {
        assert x in t && x in s;
        var k :| 0 <= k < |t[1..]| && t[1..][k] == x;
        assert Less(t[0], t[k + 1]);
      }
      OrderedUnique(s[1..], t[1..]);
      assert s == [s[0]] + s[1..] && t == [t[0]] + t[1..];
    }
  }

  /** What makes a sequence the sorted form of another: order and rows, nothing else. */
  lemma SortIs<T>(s: seq<Keyed<T>>, t: seq<Keyed<T>>)
    requires DistinctKeys(s) && Ordered(t) && SameRows(s, t)
    ensures Sort(s) == t
  {
    SortOrdered(s);
    SortRows(s);
    OrderedUnique(Sort(s), t);
  }

  /** Rows beyond the first n never influence the first n after an insertion. */
  lemma {:induction false} InsertTake<T>(s: seq<Keyed<T>>, x: Keyed<T>, n: nat)
    ensures Take(Insert(s, x), n) == Take(Insert(Take(s, n), x), n)
  {
    InsertRows(s, x);
    InsertRows(Take(s, n), x);
    if n >= |s| {
    } else if n == 0 {
    } else if Less(x, s[0]) {
      assert Take(s, n)[0] == s[0];
      assert Take(Insert(s, x), n) == [x] + s[..n - 1];
    } else {
      InsertTake(s[1..], x, n - 1);
      assert Take(s, n) == [s[0]] + Take(s[1..], n - 1);
      assert Take(s, n)[1..] == Take(s[1..], n - 1);
      InsertRows(s[1..], x);
      assert Take(Insert(s, x), n) == [s[0]] + Take(Insert(s[1..], x), n - 1);
    }
  }

  /** The bounded selection refines sort-then-take. */
  method SelectTop<T>(rows: seq<Keyed<T>>, n: nat) returns (top: seq<Keyed<T>>)
    ensures top == Take(Sort(rows), n)
  {
    top := [];
    for i := 0 to |rows|
      invariant |top| <= n
      invariant top == Take(Sort(rows[..i]), n)
    {
      InsertTake(Sort(rows[..i]), rows[i], n);
      assert rows[..i + 1][..i] == rows[..i];
      top := Take(Insert(top, rows[i]), n);
    }
    assert rows[..|rows|] == rows;
  }

  lemma TakeAt<T>(s: seq<T>, n: nat, j: nat)
    requires j < |Take(s, n)|
    ensures s[j] in Take(s, n)
  {
    assert Take(s, n)[j] == s[j];
  }

  /** The first n rows in order: every one of them precedes every row left out. */
  lemma TopPrecedesRest<T>(s: seq<Keyed<T>>, n: nat)
    requires DistinctKeys(s)
    ensures Ordered(Take(Sort(s), n))
    ensures |Take(Sort(s), n)| == if n < |s| then n else |s|
    ensures forall x, y | x in Take(Sort(s), n) && y in s && y !in Take(Sort(s), n) :: Less(x, y)
  {
    SortOrdered(s);
    SortRows(s);
    var t := Sort(s);
    forall x, y | x in Take(t, n) && y in s && y !in Take(t, n) ensures Less(x, y) {
      assert y in t;
      var i :| 0 <= i < |Take(t, n)| && Take(t, n)[i] == x;
      var j :| 0 <= j < |t| && t[j] == y;
      if j < |Take(t, n)| {
        TakeAt(t, n, j);
      }
    }
  }
}
