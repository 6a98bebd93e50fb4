/** Sorting by a strict order and dropping repeats (`Vec::sort`, `sort_by` and `dedup`). */
module Sorting {

  ghost predicate StrictOrder<T(!new)>(less: (T, T) -> bool) {
    && (forall x :: !less(x, x))
    && (forall x, y, z :: less(x, y) && less(y, z) ==> less(x, z))
  }

  /** Nothing comes after something it should precede. */
  ghost predicate Ordered<T(!new)>(less: (T, T) -> bool, s: seq<T>) {
    forall i, j | 0 <= i < j < |s| :: !less(s[j], s[i])
  }

  ghost predicate Ascending<T(!new)>(less: (T, T) -> bool, s: seq<T>) {
    forall i, j | 0 <= i < j < |s| :: less(s[i], s[j])
  }

  /** Any two different elements are related. */
  ghost predicate Comparable<T(!new)>(less: (T, T) -> bool, s: seq<T>) {
    forall x, y | x in s && y in s && x != y :: less(x, y) || less(y, x)
  }

  function Insert<T>(less: (T, T) -> bool, x: T, s: seq<T>): (r: seq<T>)
    ensures multiset(r) == multiset{x} + multiset(s)
  {
    if s == [] || !less(s[0], x) then [x] + s
    else
      assert multiset(s) == multiset{s[0]} + multiset(s[1..]) by { assert s == [s[0]] + s[1..]; }
      [s[0]] + Insert(less, x, s[1..])
  }

  function Sort<T>(less: (T, T) -> bool, s: seq<T>): (r: seq<T>)
    ensures multiset(r) == multiset(s)
  {
    if s == [] then []
    else
      assert s == [s[0]] + s[1..];
      Insert(less, s[0], Sort(less, s[1..]))
  }

  lemma SameElements<T>(a: seq<T>, b: seq<T>)
    requires multiset(a) == multiset(b)
    ensures |a| == |b| && forall x :: x in a <==> x in b
  {
    assert |a| == |multiset(a)| && |b| == |multiset(b)|;
    forall x ensures x in a <==> x in b {
      assert x in a <==> x in multiset(a);
    }
  }

  lemma PrependKeepsOrder<T(!new)>(less: (T, T) -> bool, x: T, s: seq<T>)
    requires Ordered(less, s) && forall j | 0 <= j < |s| :: !less(s[j], x)
    ensures Ordered(less, [x] + s)
  {
  }

  lemma {:induction false} InsertIsOrdered<T(!new)>(less: (T, T) -> bool, x: T, s: seq<T>)
    requires StrictOrder(less) && Ordered(less, s) && Comparable(less, [x] + s)
    ensures Ordered(less, Insert(less, x, s))
  {
    if s != [] && less(s[0], x) {
      var rest := Insert(less, x, s[1..]);
      TailKeepsOrder(less, s);
      assert forall y | y in [x] + s[1..] :: y in [x] + s;
      InsertIsOrdered(less, x, s[1..]);
      SameElements(rest, [x] + s[1..]);
      forall j | 0 <= j < |rest| ensures !less(rest[j], s[0]) {
        assert rest[j] in [x] + s[1..];
      }
      PrependKeepsOrder(less, s[0], rest);
    } else if s != [] {
      forall j | 0 <= j < |s| ensures !less(s[j], x) {
        NotBefore(less, x, s, j);
      }
      PrependKeepsOrder(less, x, s);
    }
  }

  lemma NotBefore<T(!new)>(less: (T, T) -> bool, x: T, s: seq<T>, j: nat)
    requires StrictOrder(less) && Ordered(less, s) && Comparable(less, [x] + s) && j < |s| && !less(s[0], x)
    ensures !less(s[j], x)
  {
    if j > 0 && s[0] != s[j] {
      assert s[0] in [x] + s && s[j] in [x] + s;
      assert less(s[0], s[j]);
    }
  }

  lemma {:induction false} SortIsOrdered<T(!new)>(less: (T, T) -> bool, s: seq<T>)
    requires StrictOrder(less) && Comparable(less, s)
    ensures Ordered(less, Sort(less, s))
  {
    if s != [] {
      var rest := Sort(less, s[1..]);
      SortIsOrdered(less, s[1..]);
      SameElements(rest, s[1..]);
      assert forall y | y in [s[0]] + rest :: y in s;
      InsertIsOrdered(less, s[0], rest);
    }
  }

  lemma TailKeepsOrder<T(!new)>(less: (T, T) -> bool, s: seq<T>)
    requires s != [] && Ordered(less, s)
    ensures Ordered(less, s[1..]) && (Comparable(less, s) ==> Comparable(less, s[1..]))
  {
    forall i, j | 0 <= i < j < |s| - 1 ensures !less(s[1..][j], s[1..][i]) {
      assert !less(s[j + 1], s[i + 1]);
    }
    assert forall x | x in s[1..] :: x in s;
  }

  /** `dedup`: drops an element that equals its predecessor. */
  function Dedup<T(==)>(s: seq<T>): (r: seq<T>) {
    if |s| < 2 then s
    else if s[|s| - 1] == s[|s| - 2] then Dedup(s[..|s| - 1])
    else Dedup(s[..|s| - 1]) + [s[|s| - 1]]
  }

  /** After sorting that leaves every element exactly once. */
  lemma {:induction false} DedupAscends<T(!new)>(less: (T, T) -> bool, s: seq<T>)
    requires StrictOrder(less) && Comparable(less, s) && Ordered(less, s)
    ensures Ascending(less, Dedup(s))
    ensures forall x :: x in Dedup(s) <==> x in s
    ensures s != [] ==> Dedup(s) != [] && Dedup(s)[|Dedup(s)| - 1] == s[|s| - 1]
  {
    if |s| >= 2 {
      var n := |s| - 1;
      var before, d := s[..n], Dedup(s[..n]);
      assert s == before + [s[n]] && before[|before| - 1] == s[n - 1];
      DedupAscends(less, before);
      if s[n] != s[n - 1] {
        assert less(s[n - 1], s[n]);
        forall i | 0 <= i < |d| ensures less(d[i], s[n]) {
          if i < |d| - 1 { assert less(d[i], d[|d| - 1]); }
        }
      }
    }
  }

  /** There is one way to list given elements in ascending order. */
  lemma {:induction false} AscendingIsUnique<T(!new)>(less: (T, T) -> bool, a: seq<T>, b: seq<T>)
    requires StrictOrder(less) && Ascending(less, a) && Ascending(less, b)
    requires forall x :: x in a <==> x in b
    ensures a == b
  {
    assert a != [] ==> a[0] in b;
    assert b != [] ==> b[0] in a;
    if a != [] {
      AscendingFirst(less, a, b);
      TailElements(less, a);
      TailElements(less, b);
      AscendingIsUnique(less, a[1..], b[1..]);
      assert a == [a[0]] + a[1..] && b == [b[0]] + b[1..];
    }
  }

  lemma AscendingFirst<T(!new)>(less: (T, T) -> bool, a: seq<T>, b: seq<T>)
    requires StrictOrder(less) && Ascending(less, a) && Ascending(less, b) && a != [] && b != []
    requires forall x :: x in a <==> x in b
    ensures a[0] == b[0]
  {
    assert a[0] in b && b[0] in a;
    var i :| 0 <= i < |a| && a[i] == b[0];
    var j :| 0 <= j < |b| && b[j] == a[0];
  }

  lemma TailElements<T(!new)>(less: (T, T) -> bool, s: seq<T>)
    requires StrictOrder(less) && Ascending(less, s) && s != []
    ensures Ascending(less, s[1..]) && forall x :: x in s[1..] <==> x in s && x != s[0]
  {
    forall x ensures x in s[1..] <==> x in s && x != s[0] {
      if x in s[1..] {
        var i :| 0 <= i < |s| - 1 && s[1..][i] == x;
        assert less(s[0], s[i + 1]);
      }
      assert x in s ==> x == s[0] || x in s[1..] by { assert s == [s[0]] + s[1..]; }
    }
    forall i, j | 0 <= i < j < |s| - 1 ensures less(s[1..][i], s[1..][j]) {
      assert less(s[i + 1], s[j + 1]);
    }
  }

  /** Sorting elements that occur once each, and differ by the order, puts them in ascending order. */
  lemma SortAscends<T(!new)>(less: (T, T) -> bool, s: seq<T>)
    requires StrictOrder(less) && Comparable(less, s) && forall i, j | 0 <= i < j < |s| :: s[i] != s[j]
    ensures Ascending(less, Sort(less, s)) && forall x :: x in Sort(less, s) <==> x in s
  {
    var r := Sort(less, s);
    SortIsOrdered(less, s);
    SameElements(r, s);
    forall i, j | 0 <= i < j < |r| ensures less(r[i], r[j]) {
      if r[i] == r[j] { Twice(r, i, j); AtMostOnce(s, r[i]); }
      assert r[i] in r && r[j] in r;
    }
  }

  lemma Twice<T>(s: seq<T>, i: nat, j: nat)
    requires i < j < |s| && s[i] == s[j]
    ensures multiset(s)[s[i]] >= 2
  {
    assert s == s[..j] + [s[j]] + s[j + 1..];
    assert s[..j][i] in s[..j];
  }

  lemma {:induction false} AtMostOnce<T>(s: seq<T>, x: T)
    requires forall i, j | 0 <= i < j < |s| :: s[i] != s[j]
    ensures multiset(s)[x] <= 1
  {
    if s != [] {
      var n := |s| - 1;
      AtMostOnce(s[..n], x);
      assert s == s[..n] + [s[n]];
      if x == s[n] { assert x !in s[..n]; }
    }
  }
}
