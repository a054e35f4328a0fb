/**
 * Sequence operations the repositories and services are built from: stream filtering,
 * ordering by a key (the ORDER BY of a query), offset/limit paging (Spring's PageRequest)
 * and the numbering of table rows by their generated ids.
 */
module Sequences {

  /** Sort direction of a Spring `Sort`. */
  datatype Direction = Asc | Desc

  /** Whether key `x` may come before key `y` in direction `dir`. */
  predicate InOrder(x: int, y: int, dir: Direction) {
    match dir
    case Asc => x <= y
    case Desc => x >= y
  }

  predicate SortedBy<T>(s: seq<T>, key: T -> int, dir: Direction) {
    forall i, j :: 0 <= i < j < |s| ==> InOrder(key(s[i]), key(s[j]), dir)
  }

  /** The elements of `s` that satisfy `p`, in their original order (a stream `filter`). */
  function Filter<T(!new)>(s: seq<T>, p: T -> bool): (r: seq<T>)
    ensures |r| <= |s|
    ensures forall x :: x in r <==> x in s && p(x)
  {
    if s == [] then []
    else if p(s[0]) then [s[0]] + Filter(s[1..], p) else Filter(s[1..], p)
  }

  /** Filtering keeps every selected element as often as it occurs, and drops the rest. */
  lemma {:induction false} FilterCounts<T(!new)>(s: seq<T>, p: T -> bool, x: T)
    ensures multiset(Filter(s, p))[x] == if p(x) then multiset(s)[x] else 0
  {
    if s != [] {
      assert s == [s[0]] + s[1..];
      FilterCounts(s[1..], p, x);
    }
  }

  /** Sequences that are permutations of each other have the same members. */
  lemma SameMembers<T>(a: seq<T>, b: seq<T>)
    requires multiset(a) == multiset(b)
    ensures forall x :: x in a <==> x in b
  {
    forall x
      ensures x in a <==> x in b
    {
      assert x in a <==> x in multiset(a);
      assert x in b <==> x in multiset(b);
    }
  }

  /** Filtering keeps the relative order, so a sorted list stays sorted. */
  lemma {:induction false} FilterKeepsOrder<T(!new)>(s: seq<T>, p: T -> bool, key: T -> int, dir: Direction)
    requires SortedBy(s, key, dir)
    ensures SortedBy(Filter(s, p), key, dir)
  {
    if s != [] {
      FilterKeepsOrder(s[1..], p, key, dir);
      var rest := Filter(s[1..], p);
      forall k | 0 <= k < |rest|
        ensures InOrder(key(s[0]), key(rest[k]), dir)
      {
        assert rest[k] in s[1..];
        var j :| 0 <= j < |s[1..]| && s[1..][j] == rest[k];
        assert s[j + 1] == rest[k];
      }
    }
  }

  /** Inserts `x` into the sorted `s` before the first element it may precede. */
  function Insert<T>(x: T, s: seq<T>, key: T -> int, dir: Direction): (r: seq<T>)
    requires SortedBy(s, key, dir)
    ensures multiset(r) == multiset(s) + multiset{x}
    ensures SortedBy(r, key, dir)
  {
    if s == [] || InOrder(key(x), key(s[0]), dir) then [x] + s
    else
      var tail := Insert(x, s[1..], key, dir);
      assert s == [s[0]] + s[1..];
      forall k | 0 <= k < |tail|
        ensures InOrder(key(s[0]), key(tail[k]), dir)
      {
        assert tail[k] in multiset(tail);
        if tail[k] != x {
          assert tail[k] in multiset(s[1..]);
          var j :| 0 <= j < |s[1..]| && s[1..][j] == tail[k];
          assert s[j + 1] == tail[k];
        }
      }
      [s[0]] + tail
  }

  /**
   * `s` ordered by `key` in direction `dir`. It stands for the ordering a query's `Sort`
   * asks the database for; only its outcome (sorted, a permutation) matters.
   */
  function SortBy<T>(s: seq<T>, key: T -> int, dir: Direction): (r: seq<T>)
    ensures multiset(r) == multiset(s)
    ensures |r| == |s|
    ensures SortedBy(r, key, dir)
  {
    if s == [] then []
    else
      assert s == [s[0]] + s[1..];
      var r := Insert(s[0], SortBy(s[1..], key, dir), key, dir);
      assert |r| == |multiset(r)|;
      r
  }

  /** Index of the first element of page number `from / size` (`PageRequest.of(from / size, size)`). */
  function PageOffset(from: nat, size: nat): (off: nat)
    requires size > 0
    ensures off <= from < off + size
  {
    var page := from / size;
    assert from == page * size + from % size;
    page * size
  }

  /** One page of `s`: `size` elements from `PageOffset(from, size)`, fewer at the end, none past it. */
  function Page<T>(s: seq<T>, from: nat, size: nat): (r: seq<T>)
    requires size > 0
    ensures |r| <= size
    ensures PageOffset(from, size) >= |s| ==> r == []
    ensures PageOffset(from, size) + size <= |s| ==> |r| == size
    ensures PageOffset(from, size) < |s| < PageOffset(from, size) + size ==> |r| == |s| - PageOffset(from, size)
    ensures forall k :: 0 <= k < |r| ==>
              PageOffset(from, size) + k < |s| && r[k] == s[PageOffset(from, size) + k]
  {
    var off := PageOffset(from, size);
    if off >= |s| then []
    else if off + size <= |s| then s[off..off + size]
    else s[off..]
  }

  /** The element at index `k` is on the page that `from = k` selects. */
  lemma PageHoldsIndex<T>(s: seq<T>, k: nat, size: nat)
    requires size > 0 && k < |s|
    ensures k - PageOffset(k, size) < |Page(s, k, size)|
    ensures Page(s, k, size)[k - PageOffset(k, size)] == s[k]
  {
  }

  /** Paging commutes with an element-wise map such as a DTO conversion. */
  lemma PageOfMap<T, U>(s: seq<T>, t: seq<U>, f: T -> U, from: nat, size: nat)
    requires size > 0
    requires |t| == |s| && forall k :: 0 <= k < |s| ==> t[k] == f(s[k])
    ensures |Page(t, from, size)| == |Page(s, from, size)|
    ensures forall k :: 0 <= k < |Page(s, from, size)| ==> Page(t, from, size)[k] == f(Page(s, from, size)[k])
  {
  }

  /** A stored entity together with its generated id. */
  datatype Row<T> = Row(id: int, value: T)

  /** The rows of an identity-keyed table: the element at index i has id i + 1. */
  function Rows<T(!new)>(s: seq<T>): (r: seq<Row<T>>)
    ensures |r| == |s|
    ensures forall i :: 0 <= i < |s| ==> r[i] == Row(i + 1, s[i])
    ensures forall row: Row<T> :: row in r <==> 1 <= row.id <= |s| && row.value == s[row.id - 1]
  {
    var r := seq(|s|, i requires 0 <= i < |s| => Row(i + 1, s[i]));
    forall row: Row<T> | 1 <= row.id <= |s| && row.value == s[row.id - 1]
      ensures row in r
    {
      assert r[row.id - 1] == row;
    }
    r
  }

  /** No element occurs twice. */
  predicate NoDuplicates<T(==)>(s: seq<T>) {
    forall i, j :: 0 <= i < j < |s| ==> s[i] != s[j]
  }

  /** A sequence without duplicates holds each element at most once. */
  lemma {:induction false} NoDuplicatesCountsAtMostOne<T>(s: seq<T>, x: T)
    requires NoDuplicates(s)
    ensures multiset(s)[x] <= 1
  {
    if s != [] {
      assert s == [s[0]] + s[1..];
      assert NoDuplicates(s[1..]) by {
        forall i, j | 0 <= i < j < |s[1..]|
          ensures s[1..][i] != s[1..][j]
        {
          assert s[1..][i] == s[i + 1] && s[1..][j] == s[j + 1];
        }
      }
      NoDuplicatesCountsAtMostOne(s[1..], x);
      if s[0] == x {
        forall j | 0 <= j < |s[1..]|
          ensures s[1..][j] != x
        {
          assert s[1..][j] == s[j + 1];
        }
      }
    }
  }

  /** A sequence holding each element at most once has no duplicates. */
  lemma CountsAtMostOneNoDuplicates<T>(s: seq<T>)
    requires forall x :: multiset(s)[x] <= 1
    ensures NoDuplicates(s)
  {
    forall i, j | 0 <= i < j < |s|
      ensures s[i] != s[j]
    {
      assert s == s[..j] + s[j..];
      assert s[i] in s[..j] && s[j] in s[j..];
      assert multiset(s)[s[j]] == multiset(s[..j])[s[j]] + multiset(s[j..])[s[j]];
    }
  }

  /** Distinct positions of a table hold distinct rows. */
  lemma RowsNoDuplicates<T(!new)>(s: seq<T>)
    ensures NoDuplicates(Rows(s))
  {
  }

  /** The ids of the rows increase strictly with their position. */
  predicate IdsIncrease<T>(rows: seq<Row<T>>) {
    forall i, j :: 0 <= i < j < |rows| ==> rows[i].id < rows[j].id
  }

  /** Ids of table rows increase strictly with their position. */
  lemma RowIdsIncrease<T(!new)>(s: seq<T>)
    ensures IdsIncrease(Rows(s))
  {
  }

  /** Filtering rows keeps their ids increasing. */
  lemma {:induction false} FilterKeepsIdsIncreasing<T(!new)>(rows: seq<Row<T>>, p: Row<T> -> bool)
    requires IdsIncrease(rows)
    ensures IdsIncrease(Filter(rows, p))
  {
    if rows != [] {
      FilterKeepsIdsIncreasing(rows[1..], p);
      var rest := Filter(rows[1..], p);
      forall k | 0 <= k < |rest|
        ensures rows[0].id < rest[k].id
      {
        assert rest[k] in rows[1..];
        var j :| 0 <= j < |rows[1..]| && rows[1..][j] == rest[k];
        assert rows[j + 1] == rest[k];
      }
    }
  }

  /** A page of rows whose ids increase has increasing ids. */
  lemma PageKeepsIdsIncreasing<T>(rows: seq<Row<T>>, from: nat, size: nat)
    requires size > 0 && IdsIncrease(rows)
    ensures IdsIncrease(Page(rows, from, size))
  {
  }
}
