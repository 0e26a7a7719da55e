/** ORDER BY: a stable insertion sort over a comparator, and the
    "newest n rows" shape (ORDER BY ... DESC LIMIT n) that several
    queries share. Rows that tie keep their table order; SQL leaves the
    order of ties unspecified, so this is one of the orders it may give. */
module Ordering {
  import opened Basics

  /** `le` is total and transitive, as an ORDER BY key comparison is. */
  ghost predicate TotalPreorder<T(!new)>(le: (T, T) -> bool) {
    && (forall a, b :: le(a, b) || le(b, a))
    && (forall a, b, c :: le(a, b) && le(b, c) ==> le(a, c))
  }

  predicate SortedBy<T>(s: seq<T>, le: (T, T) -> bool) {
    forall i, j :: 0 <= i < j < |s| ==> le(s[i], s[j])
  }

  function InsertBy<T(!new)>(x: T, s: seq<T>, le: (T, T) -> bool): (r: seq<T>)
    requires TotalPreorder(le) && SortedBy(s, le)
    ensures multiset(r) == multiset(s) + multiset{x}
    ensures SortedBy(r, le)
  {
    if s == [] then [x]
    else if le(x, s[0]) then
      assert forall j :: 0 <= j < |s| ==> le(s[0], s[j]);
      ConsSorted(x, s, le);
      [x] + s
    else
      assert s == [s[0]] + s[1..];
      var rest := InsertBy(x, s[1..], le);
      HeadBelowRest(x, s, rest, le);
      ConsSorted(s[0], rest, le);
      [s[0]] + rest
  }

  lemma ConsSorted<T>(h: T, s: seq<T>, le: (T, T) -> bool)
    requires SortedBy(s, le) && forall j :: 0 <= j < |s| ==> le(h, s[j])
    ensures SortedBy([h] + s, le)
  {
    var r := [h] + s;
    forall i, j | 0 <= i < j < |r| ensures le(r[i], r[j]) {
      assert r[j] == s[j - 1];
      if i > 0 {
        assert r[i] == s[i - 1];
      }
    }
  }

  /** The head of a sorted sequence stays below every row once a larger
      row is inserted into its tail. */
  lemma HeadBelowRest<T(!new)>(x: T, s: seq<T>, rest: seq<T>, le: (T, T) -> bool)
    requires TotalPreorder(le) && SortedBy(s, le) && s != [] && le(s[0], x)
    requires multiset(rest) == multiset(s[1..]) + multiset{x}
    ensures forall j :: 0 <= j < |rest| ==> le(s[0], rest[j])
  {
    forall j | 0 <= j < |rest| ensures le(s[0], rest[j]) {
      assert rest[j] in multiset(rest);
      if rest[j] != x {
        assert rest[j] in multiset(s[1..]);
        var k :| 0 <= k < |s[1..]| && s[1..][k] == rest[j];
        assert s[k + 1] == rest[j];
      }
    }
  }

  /** ORDER BY with comparator `le`: a permutation of the rows, sorted. */
  function SortBy<T(!new)>(s: seq<T>, le: (T, T) -> bool): (r: seq<T>)
    requires TotalPreorder(le)
    ensures multiset(r) == multiset(s) && |r| == |s|
    ensures SortedBy(r, le)
  {
    if s == [] then []
    else
      assert s == [s[0]] + s[1..];
      InsertBy(s[0], SortBy(s[1..], le), le)
  }

  /** Descending order of an integer key (dates, counts). */
  function KeyDesc<T>(key: T -> int): (T, T) -> bool {
    (a: T, b: T) => key(a) >= key(b)
  }

  lemma KeyDescTotal<T(!new)>(key: T -> int)
    ensures TotalPreorder(KeyDesc(key))
  {
  }

  /** Sorted by `KeyDesc(key)` means the key never grows along the sequence. */
  lemma SortedKeyDesc<T>(s: seq<T>, key: T -> int)
    requires SortedBy(s, KeyDesc(key))
    ensures forall i, j :: 0 <= i < j < |s| ==> key(s[i]) >= key(s[j])
  {
    forall i, j | 0 <= i < j < |s| ensures key(s[i]) >= key(s[j]) {
      assert KeyDesc(key)(s[i], s[j]);
    }
  }

  function SortDesc<T(!new)>(rows: seq<T>, key: T -> int): (r: seq<T>)
    ensures multiset(r) == multiset(rows) && |r| == |rows|
    ensures forall i, j :: 0 <= i < j < |r| ==> key(r[i]) >= key(r[j])
  {
    KeyDescTotal(key);
    var r := SortBy(rows, KeyDesc(key));
    SortedKeyDesc(r, key);
    r
  }

  /** Ascending order of an integer key (positions). */
  function KeyAsc<T>(key: T -> int): (T, T) -> bool {
    (a: T, b: T) => key(a) <= key(b)
  }

  function SortAsc<T(!new)>(rows: seq<T>, key: T -> int): (r: seq<T>)
    ensures multiset(r) == multiset(rows) && |r| == |rows|
    ensures forall i, j :: 0 <= i < j < |r| ==> key(r[i]) <= key(r[j])
  {
    assert TotalPreorder(KeyAsc(key));
    var r := SortBy(rows, KeyAsc(key));
    assert forall i, j :: 0 <= i < j < |r| ==> KeyAsc(key)(r[i], r[j]);
    r
  }

  lemma TakeMultiset<T>(s: seq<T>, n: nat)
    ensures multiset(Take(s, n)) <= multiset(s)
    ensures |s| <= n ==> Take(s, n) == s
    ensures forall x :: x in Take(s, n) ==> x in s
  {
    var r := Take(s, n);
    assert s == r + s[|r|..];
  }

  /** A prefix of a descending sequence is descending. */
  lemma TakeSorted<T>(sorted: seq<T>, key: T -> int, n: nat)
    requires forall i, j :: 0 <= i < j < |sorted| ==> key(sorted[i]) >= key(sorted[j])
    ensures var r := Take(sorted, n); forall i, j :: 0 <= i < j < |r| ==> key(r[i]) >= key(r[j])
  {
    var r := Take(sorted, n);
    forall i, j | 0 <= i < j < |r| ensures key(r[i]) >= key(r[j]) {
      assert r[i] == sorted[i] && r[j] == sorted[j];
    }
  }

  /** A row past the cut of a descending sequence has no larger key than a
      row before it. */
  lemma TakeLeftOut<T>(sorted: seq<T>, key: T -> int, n: nat, x: T, y: T)
    requires forall i, j :: 0 <= i < j < |sorted| ==> key(sorted[i]) >= key(sorted[j])
    requires x in sorted && x !in Take(sorted, n) && y in Take(sorted, n)
    ensures key(x) <= key(y)
  {
    var r := Take(sorted, n);
    var k :| 0 <= k < |sorted| && sorted[k] == x;
    var m :| 0 <= m < |r| && r[m] == y;
    assert sorted[m] == y;
    assert forall i :: 0 <= i < |r| ==> r[i] == sorted[i] && r[i] in r;
    assert k >= |r|;
  }

  lemma TakeLeftOutAll<T>(sorted: seq<T>, key: T -> int, n: nat)
    requires forall i, j :: 0 <= i < j < |sorted| ==> key(sorted[i]) >= key(sorted[j])
    ensures var r := Take(sorted, n); forall x, y :: x in sorted && x !in r && y in r ==> key(x) <= key(y)
  {
    var r := Take(sorted, n);
    forall x, y | x in sorted && x !in r && y in r ensures key(x) <= key(y) {
      TakeLeftOut(sorted, key, n, x, y);
    }
  }

  /** The same rows in another order are the same rows. */
  lemma SameMembers<T>(a: seq<T>, b: seq<T>)
    requires multiset(a) == multiset(b)
    ensures forall x :: x in a <==> x in b
  {
    forall x ensures x in a <==> x in b {
      assert x in a <==> x in multiset(a);
      assert x in b <==> x in multiset(b);
    }
  }

  /** ORDER BY key DESC LIMIT n: at most n rows, all drawn from `rows`,
      largest key first, and a row left out has no larger key than any
      row kept. */
  function Latest<T(!new)>(rows: seq<T>, key: T -> int, n: nat): (r: seq<T>)
    ensures |r| <= n
    ensures |rows| >= n ==> |r| == n
    ensures |rows| <= n ==> multiset(r) == multiset(rows)
    ensures multiset(r) <= multiset(rows)
    ensures forall x :: x in r ==> x in rows
    ensures forall i, j :: 0 <= i < j < |r| ==> key(r[i]) >= key(r[j])
    ensures forall x, y :: x in rows && x !in r && y in r ==> key(x) <= key(y)
  {
    var sorted := SortDesc(rows, key);
    TakeMultiset(sorted, n);
    TakeSorted(sorted, key, n);
    TakeLeftOutAll(sorted, key, n);
    SameMembers(sorted, rows);
    Take(sorted, n)
  }
}
