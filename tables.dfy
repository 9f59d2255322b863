/**
  The relational vocabulary the storage layer needs: tables as maps from
  server-generated ids to rows, reading a whole table out as a sequence,
  `ORDER BY <column> DESC` as PostgreSQL evaluates it, and `count(*)`.
 */
module Tables {
  import opened Basics

  /** A server-generated row id (`gen_random_uuid()` in the schema). */
  type Id = nat

  /** The value of a nullable timestamp column used as a sort key. */
  datatype Stamp = Null | At(ms: int)

  /**
    `a` may come before `b` under `ORDER BY ... DESC`: later timestamps
    first, and PostgreSQL's default for DESC puts NULL before every value.
   */
  predicate Precedes(a: Stamp, b: Stamp) {
    a.Null? || (b.At? && a.ms >= b.ms)
  }

  /** Every row precedes every later row under the given key. */
  ghost predicate Descending<T>(s: seq<T>, key: T -> Stamp) {
    forall i, j :: 0 <= i < j < |s| ==> Precedes(key(s[i]), key(s[j]))
  }

  /** Inserts `x` into a descending sequence, keeping it descending. */
  function Insert<T>(x: T, s: seq<T>, key: T -> Stamp): (r: seq<T>)
    requires Descending(s, key)
    ensures multiset(r) == multiset(s) + multiset{x}
    ensures Descending(r, key)
  {
    if s == [] || Precedes(key(x), key(s[0])) then
      assert forall j :: 0 <= j < |s| ==> Precedes(key(x), key(s[j]));
      [x] + s
    else
      var t := Insert(x, s[1..], key);
      assert s == [s[0]] + s[1..];
      HeadStaysFirst(s[0], x, s[1..], t, key);
      [s[0]] + t
  }

  lemma HeadStaysFirst<T>(h: T, x: T, rest: seq<T>, t: seq<T>, key: T -> Stamp)
    requires !Precedes(key(x), key(h))
    requires forall j :: 0 <= j < |rest| ==> Precedes(key(h), key(rest[j]))
    requires multiset(t) == multiset(rest) + multiset{x}
    requires Descending(t, key)
    ensures Descending([h] + t, key)
  {
    forall j | 0 <= j < |t|
      ensures Precedes(key(h), key(t[j]))
    {
      assert t[j] in multiset(t);
      if t[j] != x {
        assert t[j] in multiset(rest);
        var i :| 0 <= i < |rest| && rest[i] == t[j];
      }
    }
  }

  /** Insertion sort: the rows of `s` in descending key order. */
  function SortDesc<T>(s: seq<T>, key: T -> Stamp): (r: seq<T>)
    ensures multiset(r) == multiset(s)
    ensures Descending(r, key)
  {
    if s == [] then []
    else
      assert s == [s[0]] + s[1..];
      Insert(s[0], SortDesc(s[1..], key), key)
  }

  /** The first `n` rows, as `LIMIT n` keeps them. */
  function Take<T>(s: seq<T>, n: nat): (r: seq<T>)
    ensures |r| == if |s| <= n then |s| else n
    ensures r == s[..|r|]
    ensures |s| <= n ==> r == s
  {
    if |s| <= n then s else s[..n]
  }

  /** `ks` lists every key of the table exactly once. */
  ghost predicate Enumerates<T>(m: map<Id, T>, ks: seq<Id>) {
    && (forall i, j :: 0 <= i < j < |ks| ==> ks[i] != ks[j])
    && (forall k :: k in m <==> k in ks)
  }

  /** The rows stored under the keys `ks`, in that order. */
  function Project<T>(m: map<Id, T>, ks: seq<Id>): (r: seq<T>)
    requires forall k :: k in ks ==> k in m
    ensures |r| == |ks|
    ensures forall i :: 0 <= i < |ks| ==> r[i] == m[ks[i]]
  {
    if ks == [] then [] else [m[ks[0]]] + Project(m, ks[1..])
  }

  /**
    `r` is the whole table read out in some order: a permutation of the
    rows, each row once.
   */
  ghost predicate IsListing<T>(m: map<Id, T>, r: seq<T>) {
    exists ks :: Enumerates(m, ks) && multiset(r) == multiset(Project(m, ks))
  }

  /** Reads every row of a table out, in an unspecified order. */
  method Rows<T>(m: map<Id, T>) returns (rows: seq<T>, ghost ks: seq<Id>)
    ensures Enumerates(m, ks)
    ensures rows == Project(m, ks)
  {
    var rest := m.Keys;
    rows, ks := [], [];
    while rest != {}
      invariant rest <= m.Keys
      invariant forall k :: k in ks <==> k in m && k !in rest
      invariant forall i, j :: 0 <= i < j < |ks| ==> ks[i] != ks[j]
      invariant rows == Project(m, ks)
      decreases |rest|
    {
      var k :| k in rest;
      rows, ks := [m[k]] + rows, [k] + ks;
      rest := rest - {k};
    }
  }

  /** The number of rows of the sequence that satisfy `p` (`filter(p).length`). */
  function Count<T>(s: seq<T>, p: T -> bool): nat {
    if s == [] then 0 else (if p(s[0]) then 1 else 0) + Count(s[1..], p)
  }

  /** The keys among `s` whose rows satisfy `p`. */
  ghost function KeysWhere<T>(m: map<Id, T>, s: set<Id>, p: T -> bool): set<Id>
    requires s <= m.Keys
  {
    set k | k in s && p(m[k])
  }

  /** `count(*) ... WHERE p`: the number of rows of the table that satisfy `p`. */
  ghost function CountWhere<T>(m: map<Id, T>, p: T -> bool): nat {
    |KeysWhere(m, m.Keys, p)|
  }

  /** The keys listed in `ks`. */
  ghost function KeySet(ks: seq<Id>): set<Id> {
    set k | k in ks
  }

  lemma {:induction false} CountAppend<T>(a: seq<T>, b: seq<T>, p: T -> bool)
    ensures Count(a + b, p) == Count(a, p) + Count(b, p)
  {
    if a == [] {
      assert a + b == b;
    } else {
      assert (a + b)[0] == a[0];
      assert (a + b)[1..] == a[1..] + b;
      CountAppend(a[1..], b, p);
    }
  }

  /** Counting depends only on which rows there are, not on their order. */
  lemma {:induction false} CountPermutation<T>(a: seq<T>, b: seq<T>, p: T -> bool)
    requires multiset(a) == multiset(b)
    ensures Count(a, p) == Count(b, p)
    decreases |a|
  {
    if a != [] {
      var x := a[0];
      assert x in multiset(b);
      var i :| 0 <= i < |b| && b[i] == x;
      var b' := b[..i] + b[i + 1..];
      assert b == b[..i] + [x] + b[i + 1..];
      assert a == [x] + a[1..];
      assert multiset(b) == multiset(b[..i]) + multiset{x} + multiset(b[i + 1..]);
      assert multiset(b') == multiset(b[..i]) + multiset(b[i + 1..]);
      assert multiset(a) == multiset{x} + multiset(a[1..]);
      assert multiset(a[1..]) == multiset(a) - multiset{x};
      assert multiset(b') == multiset(b) - multiset{x};
      CountPermutation(a[1..], b', p);
      CountAppend(b[..i] + [x], b[i + 1..], p);
      CountAppend(b[..i], [x], p);
      CountAppend(b[..i], b[i + 1..], p);
    }
  }

  /** Adding one key adds one to the count exactly when its row satisfies `p`. */
  lemma CountWhereAdd<T>(m: map<Id, T>, s: set<Id>, k: Id, p: T -> bool)
    requires s <= m.Keys && k in m && k !in s
    ensures |KeysWhere(m, s + {k}, p)| == |KeysWhere(m, s, p)| + (if p(m[k]) then 1 else 0)
  {
    if p(m[k]) {
      assert KeysWhere(m, s + {k}, p) == KeysWhere(m, s, p) + {k};
    } else {
      assert KeysWhere(m, s + {k}, p) == KeysWhere(m, s, p);
    }
  }

  lemma {:induction false} CountProject<T>(m: map<Id, T>, ks: seq<Id>, p: T -> bool)
    requires KeySet(ks) <= m.Keys
    requires forall i, j :: 0 <= i < j < |ks| ==> ks[i] != ks[j]
    ensures Count(Project(m, ks), p) == |KeysWhere(m, KeySet(ks), p)|
  {
    if ks == [] {
      assert KeysWhere(m, KeySet(ks), p) == {};
    } else {
      var tail := ks[1..];
      assert ks == [ks[0]] + tail;
      assert KeySet(ks) == KeySet(tail) + {ks[0]};
      assert ks[0] !in KeySet(tail);
      CountProject(m, tail, p);
      var pk := Project(m, ks);
      assert pk[0] == m[ks[0]];
      assert pk[1..] == Project(m, tail);
      CountWhereAdd(m, KeySet(tail), ks[0], p);
    }
  }

  /** Counting the rows of any listing of a table gives the table's `count(*)`. */
  lemma ListingCount<T>(m: map<Id, T>, r: seq<T>, p: T -> bool)
    requires IsListing(m, r)
    ensures Count(r, p) == CountWhere(m, p)
  {
    var ks :| Enumerates(m, ks) && multiset(r) == multiset(Project(m, ks));
    assert KeySet(ks) == m.Keys;
    CountPermutation(r, Project(m, ks), p);
    CountProject(m, ks, p);
  }

  /** A listing holds exactly the rows of the table. */
  lemma ListingRows<T>(m: map<Id, T>, r: seq<T>)
    requires IsListing(m, r)
    ensures |r| == |m|
    ensures forall x :: x in r <==> x in m.Values
  {
    var ks :| Enumerates(m, ks) && multiset(r) == multiset(Project(m, ks));
    var pr := Project(m, ks);
    assert |r| == |pr| by {
      calc {
        |r|;
        |multiset(r)|;
        |multiset(pr)|;
        |pr|;
      }
    }
    assert m.Keys == KeySet(ks);
    DistinctCardinality(ks);
    forall x
      ensures x in r <==> x in m.Values
    {
      assert x in r <==> x in multiset(pr);
      if x in m.Values {
        var k :| k in m && m[k] == x;
        var i :| 0 <= i < |ks| && ks[i] == k;
        assert pr[i] == x;
      }
    }
  }

  lemma {:induction false} DistinctCardinality(ks: seq<Id>)
    requires forall i, j :: 0 <= i < j < |ks| ==> ks[i] != ks[j]
    ensures |KeySet(ks)| == |ks|
  {
    if ks == [] {
      assert KeySet(ks) == {};
    } else {
      DistinctCardinality(ks[1..]);
      assert ks == [ks[0]] + ks[1..];
      assert ks[0] !in KeySet(ks[1..]);
      assert KeySet(ks) == KeySet(ks[1..]) + {ks[0]};
    }
  }

  /** Reads a table out and counts the rows satisfying `p`. */
  method CountRows<T>(m: map<Id, T>, p: T -> bool) returns (n: nat)
    ensures n == CountWhere(m, p)
  {
    var rest := m.Keys;
    n := 0;
    ghost var seen: set<Id> := {};
    while rest != {}
      invariant rest <= m.Keys && seen == m.Keys - rest
      invariant n == |KeysWhere(m, seen, p)|
      decreases |rest|
    {
      var k :| k in rest;
      CountWhereAdd(m, seen, k, p);
      if p(m[k]) {
        n := n + 1;
      }
      seen := seen + {k};
      rest := rest - {k};
    }
    assert seen == m.Keys;
  }

  /**
    A row satisfying `p`, if there is one: `SELECT ... WHERE p` keeping the
    first row returned.
   */
  method Find<T>(m: map<Id, T>, p: T -> bool) returns (r: Option<T>)
    ensures r.None? <==> forall k :: k in m ==> !p(m[k])
    ensures r.Some? ==> exists k :: k in m && m[k] == r.value && p(r.value)
  {
    var rest := m.Keys;
    while rest != {}
      invariant rest <= m.Keys
      invariant forall k :: k in m && k !in rest ==> !p(m[k])
      decreases |rest|
    {
      var k :| k in rest;
      if p(m[k]) {
        return Some(m[k]);
      }
      rest := rest - {k};
    }
    return None;
  }
}
