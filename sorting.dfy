/**
 * `Vec::sort` followed by `Vec::dedup`, as the artist, album and genre views
 * use them. Sorting is stated over any ordering `le`; the results below hold
 * when `le` is a total order, as Rust's `Ord` on strings and on tuples is.
 */
module Sorting {

  /** `le` is reflexive, antisymmetric, transitive and total. */
  ghost predicate TotalOrder<T(!new)>(le: (T, T) -> bool) {
    && (forall a :: le(a, a))
    && (forall a, b :: le(a, b) && le(b, a) ==> a == b)
    && (forall a, b, c :: le(a, b) && le(b, c) ==> le(a, c))
    && (forall a, b :: le(a, b) || le(b, a))
  }

  /** Every element is `le` every later one. */
  predicate Sorted<T>(s: seq<T>, le: (T, T) -> bool) {
    forall i, j :: 0 <= i < j < |s| ==> le(s[i], s[j])
  }

  /** No two neighbours are equal, which is what `dedup` leaves behind. */
  predicate NoAdjacentDuplicates<T(==,!new)>(s: seq<T>) {
    forall i :: 0 <= i < |s| - 1 ==> s[i] != s[i + 1]
  }

  /** No element occurs twice. */
  predicate Distinct<T(==,!new)>(s: seq<T>) {
    forall i, j :: 0 <= i < j < |s| ==> s[i] != s[j]
  }

  /** `x` placed before the first element it is `le`. */
  function Insert<T>(x: T, s: seq<T>, le: (T, T) -> bool): (r: seq<T>)
    ensures multiset(r) == multiset(s) + multiset{x}
  {
    if s == [] then [x]
    else if le(x, s[0]) then [x] + s
    else
      assert s == [s[0]] + s[1..];
      [s[0]] + Insert(x, s[1..], le)
  }

  /** Insertion sort: the same elements, in `le` order. */
  function Sort<T>(s: seq<T>, le: (T, T) -> bool): (r: seq<T>)
    ensures multiset(r) == multiset(s)
    ensures |r| == |s|
  {
    if s == [] then []
    else
      assert s == [s[0]] + s[1..];
      Insert(s[0], Sort(s[1..], le), le)
  }

  lemma {:induction false} InsertKeepsSorted<T(!new)>(x: T, s: seq<T>, le: (T, T) -> bool)
    requires TotalOrder(le) && Sorted(s, le)
    ensures Sorted(Insert(x, s, le), le)
    decreases |s|
  {
    if s != [] && !le(x, s[0]) {
      var tail := Insert(x, s[1..], le);
      InsertKeepsSorted(x, s[1..], le);
      forall j | 0 <= j < |tail| ensures le(s[0], tail[j]) {
        assert tail[j] in multiset(tail);
        assert tail[j] == x || tail[j] in multiset(s[1..]);
        if tail[j] != x {
          var k :| 0 <= k < |s[1..]| && s[1..][k] == tail[j];
          assert s[k + 1] == tail[j];
        }
      }
    }
  }

  /** `Sort` orders its result whenever `le` is a total order. */
  lemma {:induction false} SortIsSorted<T(!new)>(s: seq<T>, le: (T, T) -> bool)
    requires TotalOrder(le)
    ensures Sorted(Sort(s, le), le)
    decreases |s|
  {
    if s != [] {
      SortIsSorted(s[1..], le);
      InsertKeepsSorted(s[0], Sort(s[1..], le), le);
    }
  }

  /**
   * Under an antisymmetric order there is only one sorted arrangement of a
   * multiset, so any sorting algorithm, `Vec::sort` included, gives `Sort`'s
   * result.
   */
  lemma {:induction false} SortedArrangementIsUnique<T(!new)>(a: seq<T>, b: seq<T>, le: (T, T) -> bool)
    requires TotalOrder(le)
    requires Sorted(a, le) && Sorted(b, le) && multiset(a) == multiset(b)
    ensures a == b
    decreases |a|
  {
    assert |a| == |multiset(a)| == |multiset(b)| == |b|;
    if a != [] {
      assert a[0] in multiset(b) && b[0] in multiset(a);
      SortedHeadIsLeast(a, b[0], le);
      SortedHeadIsLeast(b, a[0], le);
      MultisetOfTail(a);
      MultisetOfTail(b);
      SortedArrangementIsUnique(a[1..], b[1..], le);
      assert a == [a[0]] + a[1..] && b == [b[0]] + b[1..];
    }
  }

  lemma MultisetOfTail<T>(a: seq<T>)
    requires a != []
    ensures multiset(a[1..]) == multiset(a) - multiset{a[0]}
  {
    assert a == [a[0]] + a[1..];
  }

  /** The first element of a sorted sequence is `le` everything in it. */
  lemma SortedHeadIsLeast<T(!new)>(a: seq<T>, x: T, le: (T, T) -> bool)
    requires TotalOrder(le) && Sorted(a, le) && x in a
    ensures le(a[0], x)
  {
    var j :| 0 <= j < |a| && a[j] == x;
    if j > 0 { assert le(a[0], a[j]); }
  }

  /** `Vec::dedup`: one element out of every run of equal neighbours. */
  function Dedup<T(==,!new)>(s: seq<T>): (r: seq<T>)
    ensures |r| <= |s|
    ensures forall x :: x in r <==> x in s
    ensures s != [] ==> r != [] && r[0] == s[0]
    ensures NoAdjacentDuplicates(r)
    ensures NoAdjacentDuplicates(s) ==> r == s
  {
    if |s| <= 1 then s
    else
      assert forall i :: 0 <= i < |s| - 2 ==> s[1..][i] == s[i + 1];
      var rest := Dedup(s[1..]);
      assert forall x :: x in s <==> x == s[0] || x in s[1..];
      if s[0] == s[1] then rest else [s[0]] + rest
  }

  lemma {:induction false} DedupKeepsSorted<T(!new)>(s: seq<T>, le: (T, T) -> bool)
    requires Sorted(s, le)
    ensures Sorted(Dedup(s), le)
    decreases |s|
  {
    if |s| > 1 {
      DedupKeepsSorted(s[1..], le);
      var rest := Dedup(s[1..]);
      forall j | 0 <= j < |rest| ensures le(s[0], rest[j]) {
        assert rest[j] in s[1..];
        var k :| 0 <= k < |s[1..]| && s[1..][k] == rest[j];
        assert s[k + 1] == rest[j];
      }
    }
  }

  /** A sorted sequence without equal neighbours has no repeated element at all. */
  lemma SortedWithoutAdjacentDuplicatesIsDistinct<T(!new)>(s: seq<T>, le: (T, T) -> bool)
    requires TotalOrder(le) && Sorted(s, le) && NoAdjacentDuplicates(s)
    ensures Distinct(s)
  {
    forall i, j | 0 <= i < j < |s| ensures s[i] != s[j] {
      assert le(s[i], s[i + 1]) && le(s[i + 1], s[j]);
    }
  }

  /** `sort` then `dedup`. */
  function SortedDistinct<T(==,!new)>(s: seq<T>, le: (T, T) -> bool): seq<T> {
    Dedup(Sort(s, le))
  }

  /**
   * `sort` then `dedup` lists every element of `s` exactly once, in ascending
   * order, and is the only sequence that does.
   */
  lemma SortedDistinctLists<T(!new)>(s: seq<T>, le: (T, T) -> bool)
    requires TotalOrder(le)
    ensures var r := SortedDistinct(s, le);
      && (forall x :: x in r <==> x in s)
      && Sorted(r, le) && Distinct(r)
  {
    var sorted := Sort(s, le);
    SortIsSorted(s, le);
    DedupKeepsSorted(sorted, le);
    SortedWithoutAdjacentDuplicatesIsDistinct(Dedup(sorted), le);
    forall x ensures x in sorted <==> x in s {
      assert x in sorted <==> x in multiset(sorted);
      assert x in s <==> x in multiset(s);
    }
  }

  /** Two sorted sequences without repeats that hold the same elements are equal. */
  lemma {:induction false} SortedDistinctIsUnique<T(!new)>(a: seq<T>, b: seq<T>, le: (T, T) -> bool)
    requires TotalOrder(le)
    requires Sorted(a, le) && Distinct(a) && Sorted(b, le) && Distinct(b)
    requires forall x :: x in a <==> x in b
    ensures a == b
    decreases |a|
  {
    if b != [] { assert b[0] in a; }
    if a != [] {
      assert a[0] in b;
      SortedHeadIsLeast(a, b[0], le);
      SortedHeadIsLeast(b, a[0], le);
      forall x ensures x in a[1..] <==> x in b[1..] {
        if x in a[1..] {
          var k :| 0 <= k < |a[1..]| && a[1..][k] == x;
          assert a[k + 1] == x && x != a[0];
          assert x in b;
        }
        if x in b[1..] {
          var k :| 0 <= k < |b[1..]| && b[1..][k] == x;
          assert b[k + 1] == x && x != b[0];
          assert x in a;
        }
      }
      SortedDistinctIsUnique(a[1..], b[1..], le);
      assert a == [a[0]] + a[1..] && b == [b[0]] + b[1..];
    }
  }
}
