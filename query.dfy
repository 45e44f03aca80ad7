/**
 * The query-builder primitives the actions use on a table: an equality filter
 * (`.eq`), ascending order (`.order(col, { ascending: true })`) and `.single()`.
 */
module Query {
  import opened Wrappers

  /** The rows of s satisfying p, in table order: `.eq(column, value)` and its conjunctions. */
  function Filter<T(!new)>(s: seq<T>, p: T -> bool): (r: seq<T>)
    ensures |r| <= |s|
    ensures forall x :: multiset(r)[x] == if p(x) then multiset(s)[x] else 0
    ensures forall x :: x in r <==> x in s && p(x)
  {
    if s == [] then []
    else
      assert s == [s[0]] + s[1..];
      if p(s[0]) then [s[0]] + Filter(s[1..], p) else Filter(s[1..], p)
  }

  lemma {:induction false} FilterEmpty<T(!new)>(s: seq<T>, p: T -> bool)
    requires forall i :: 0 <= i < |s| ==> !p(s[i])
    ensures Filter(s, p) == []
  {
    if s != [] {
      FilterEmpty(s[1..], p);
    }
  }

  lemma {:induction false} FilterAll<T(!new)>(s: seq<T>, p: T -> bool)
    requires forall i :: 0 <= i < |s| ==> p(s[i])
    ensures Filter(s, p) == s
  {
    if s != [] {
      FilterAll(s[1..], p);
    }
  }

  /** Ascending by key, with ties in any order. */
  ghost predicate SortedBy<T>(s: seq<T>, key: T -> int)
  {
    forall i, j :: 0 <= i < j < |s| ==> key(s[i]) <= key(s[j])
  }

  function Insert<T(!new)>(x: T, s: seq<T>, key: T -> int): (r: seq<T>)
    requires SortedBy(s, key)
    ensures SortedBy(r, key)
    ensures multiset(r) == multiset(s) + multiset{x}
    ensures |r| == |s| + 1
  {
    if s == [] then [x]
    else if key(x) <= key(s[0]) then [x] + s
    else
      var rest := Insert(x, s[1..], key);
      assert s == [s[0]] + s[1..];
      BoundedBelow(key(s[0]), s[1..], x, rest, key);
      SortedCons(s[0], rest, key);
      [s[0]] + rest
  }

  /** A lower bound of every row of s and of x bounds every row of a permutation of s + [x]. */
  lemma BoundedBelow<T>(b: int, s: seq<T>, x: T, r: seq<T>, key: T -> int)
    requires forall i :: 0 <= i < |s| ==> b <= key(s[i])
    requires b <= key(x)
    requires multiset(r) == multiset(s) + multiset{x}
    ensures forall i :: 0 <= i < |r| ==> b <= key(r[i])
  {
    forall i | 0 <= i < |r| ensures b <= key(r[i]) {
      assert r[i] in multiset(r);
      if r[i] != x {
        assert r[i] in multiset(s);
        var j :| 0 <= j < |s| && s[j] == r[i];
      }
    }
  }

  lemma SortedCons<T>(y: T, s: seq<T>, key: T -> int)
    requires SortedBy(s, key)
    requires forall i :: 0 <= i < |s| ==> key(y) <= key(s[i])
    ensures SortedBy([y] + s, key)
  {
    var r := [y] + s;
    forall i, j | 0 <= i < j < |r| ensures key(r[i]) <= key(r[j]) {
      assert r[j] == s[j - 1];
      if i > 0 { assert r[i] == s[i - 1]; }
    }
  }

  /**
   * One ascending order of the rows: the order Postgres returns for
   * `.order(col, { ascending: true })`. Among equal keys the store's order is
   * unspecified; this function fixes one, and nothing is claimed about it.
   */
  function SortBy<T(!new)>(s: seq<T>, key: T -> int): (r: seq<T>)
    ensures SortedBy(r, key)
    ensures multiset(r) == multiset(s)
    ensures |r| == |s|
  {
    if s == [] then []
    else
      assert s == [s[0]] + s[1..];
      Insert(s[0], SortBy(s[1..], key), key)
  }

  /** PostgREST `.single()`: the row when exactly one row matched, otherwise no data. */
  function Single<T>(s: seq<T>): (r: Option<T>)
    ensures r.Some? <==> |s| == 1
    ensures r.Some? ==> r.value in s
  {
    if |s| == 1 then Some(s[0]) else None
  }

  /** No two rows of s share a key: a UNIQUE (or PRIMARY KEY) column. */
  ghost predicate UniqueBy<T, K>(s: seq<T>, key: T -> K)
  {
    forall i, j :: 0 <= i < |s| && 0 <= j < |s| && key(s[i]) == key(s[j]) ==> i == j
  }

  /**
   * On a unique column a filter that only admits rows sharing one key value
   * (an equality filter on that column) matches at most one row.
   */
  lemma {:induction false} UniqueFilterAtMostOne<T(!new), K>(s: seq<T>, key: T -> K, p: T -> bool)
    requires UniqueBy(s, key)
    requires forall x, y :: p(x) && p(y) ==> key(x) == key(y)
    ensures |Filter(s, p)| <= 1
  {
    if s != [] {
      UniqueTail(s, key);
      if p(s[0]) {
        forall i | 0 <= i < |s[1..]| ensures !p(s[1..][i]) {
          assert key(s[i + 1]) != key(s[0]);
        }
        FilterEmpty(s[1..], p);
      } else {
        UniqueFilterAtMostOne(s[1..], key, p);
      }
    }
  }

  /** Dropping the first row keeps a column unique. */
  lemma UniqueTail<T, K>(s: seq<T>, key: T -> K)
    requires s != [] && UniqueBy(s, key)
    ensures UniqueBy(s[1..], key)
    ensures forall y :: y in s[1..] ==> key(y) != key(s[0])
  {
    var tail := s[1..];
    forall i, j | 0 <= i < |tail| && 0 <= j < |tail| && key(tail[i]) == key(tail[j])
      ensures i == j
    {
      assert key(s[i + 1]) == key(s[j + 1]);
    }
    forall y | y in tail ensures key(y) != key(s[0]) {
      var m :| 0 <= m < |tail| && tail[m] == y;
      assert s[m + 1] == y;
    }
  }

  /** A row whose key no other row has can go in front. */
  lemma UniqueCons<T, K>(x: T, s: seq<T>, key: T -> K)
    requires UniqueBy(s, key)
    requires forall y :: y in s ==> key(y) != key(x)
    ensures UniqueBy([x] + s, key)
  {
    var r := [x] + s;
    forall i, j | 0 <= i < |r| && 0 <= j < |r| && key(r[i]) == key(r[j]) ensures i == j {
      if i > 0 { assert r[i] == s[i - 1]; assert r[i] in s; }
      if j > 0 { assert r[j] == s[j - 1]; assert r[j] in s; }
    }
  }

  /** Hence `.single()` with such a filter finds exactly the row it admits, if any. */
  lemma SingleOnUnique<T(!new), K>(s: seq<T>, key: T -> K, p: T -> bool)
    requires UniqueBy(s, key)
    requires forall x, y :: p(x) && p(y) ==> key(x) == key(y)
    ensures Single(Filter(s, p)).Some? <==> exists x :: x in s && p(x)
    ensures forall x :: x in s && p(x) ==> Single(Filter(s, p)) == Some(x)
  {
    var r := Filter(s, p);
    UniqueFilterAtMostOne(s, key, p);
    if x :| x in s && p(x) {
      assert x in r;
    }
  }

  /**
   * `rows.map(f)`, and the row-wise rewrite of `.update(...).eq("id", id)`
   * with an f that changes only the rows it selects.
   */
  function Map<A, B>(s: seq<A>, f: A -> B): (r: seq<B>)
    ensures |r| == |s|
    ensures forall i :: 0 <= i < |s| ==> r[i] == f(s[i])
  {
    seq(|s|, i requires 0 <= i < |s| => f(s[i]))
  }

  /** The members of Map(s, f) are exactly the images of the members of s. */
  lemma MapMembers<A, B>(s: seq<A>, f: A -> B)
    ensures forall x :: x in s ==> f(x) in Map(s, f)
    ensures forall y :: y in Map(s, f) ==> exists x :: x in s && y == f(x)
  {
    var r := Map(s, f);
    forall x | x in s ensures f(x) in r {
      var k :| 0 <= k < |s| && s[k] == x;
      assert r[k] == f(x);
    }
    forall y | y in r ensures exists x :: x in s && y == f(x) {
      var k :| 0 <= k < |r| && r[k] == y;
      assert s[k] in s;
    }
  }
}
