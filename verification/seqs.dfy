/**
 * Sequence helpers standing in for the Python list built-ins the evaluator
 * relies on: `list.count`, `list.remove` and `sorted(..., reverse=True)`.
 */
module Seqs {

  /** `s.count(x)`: how many times `x` occurs in `s`. */
  function Count<T(==)>(s: seq<T>, x: T): (c: nat)
    ensures c <= |s|
    ensures c > 0 <==> x in s
  {
    multiset(s)[x]
  }

  /** Two different values cannot occur more often, together, than `s` is long. */
  lemma {:induction false} CountsOfTwoValues<T>(s: seq<T>, x: T, y: T)
    requires x != y
    ensures Count(s, x) + Count(s, y) <= |s|
  {
    if s != [] {
      CountsOfTwoValues(s[1..], x, y);
      assert s == [s[0]] + s[1..];
    }
  }

  /** `s.index(x)`: the position of the first occurrence of `x`. */
  function FirstIndex<T(==)>(s: seq<T>, x: T): (i: nat)
    requires x in s
    ensures i < |s| && s[i] == x
    ensures x !in s[..i]
  {
    if s[0] == x then 0
    else
      assert x in s[1..] by { assert s == [s[0]] + s[1..]; }
      var j := FirstIndex(s[1..], x);
      assert s[..j + 1] == [s[0]] + s[1..][..j];
      j + 1
  }

  /** `s.remove(x)` on a copy: the first occurrence of `x` is dropped. */
  function RemoveFirst<T(==)>(s: seq<T>, x: T): (r: seq<T>)
    requires x in s
    ensures |r| == |s| - 1
    ensures multiset(r) == multiset(s) - multiset{x}
  {
    assert s == [s[0]] + s[1..];
    if s[0] == x then s[1..] else [s[0]] + RemoveFirst(s[1..], x)
  }

  /** Cutting `s` around position `i + 1` cuts its tail around position `i`. */
  lemma SlicesAfterHead<T>(s: seq<T>, i: nat)
    requires i + 1 < |s|
    ensures s[..i + 1] + s[i + 2..] == [s[0]] + (s[1..][..i] + s[1..][i + 1..])
  {
    assert s[..i + 1] == [s[0]] + s[1..][..i];
    assert s[i + 2..] == s[1..][i + 1..];
  }

  /** `list.remove` drops exactly the first occurrence and keeps the other elements in order. */
  lemma {:induction false} RemoveFirstAt<T>(s: seq<T>, x: T)
    requires x in s
    ensures RemoveFirst(s, x) == s[..FirstIndex(s, x)] + s[FirstIndex(s, x) + 1..]
  {
    if s[0] != x {
      var t := s[1..];
      assert x in t by { assert s == [s[0]] + t; }
      RemoveFirstAt(t, x);
      var i := FirstIndex(t, x);
      assert FirstIndex(s, x) == i + 1;
      assert RemoveFirst(s, x) == [s[0]] + RemoveFirst(t, x);
      SlicesAfterHead(s, i);
    }
  }

  /** Rotating a sequence keeps its elements. */
  lemma SwapHalves<T>(a: seq<T>, b: seq<T>)
    ensures multiset(a + b) == multiset(b + a)
  {
  }

  predicate NonIncreasing(s: seq<int>)
  {
    forall i, j :: 0 <= i < j < |s| ==> s[i] >= s[j]
  }

  /** One insertion step of a descending sort: `x` goes before the first element it is not smaller than. */
  function Insert(x: int, s: seq<int>): (r: seq<int>)
    ensures multiset(r) == multiset(s) + multiset{x}
    ensures |r| == |s| + 1
  {
    if s == [] || x >= s[0] then
      [x] + s
    else
      assert s == [s[0]] + s[1..];
      [s[0]] + Insert(x, s[1..])
  }

  /** What is inserted below the head of a descending sequence stays below it. */
  lemma InsertedBelowHead(x: int, s: seq<int>, rest: seq<int>)
    requires NonIncreasing(s) && s != [] && x < s[0]
    requires multiset(rest) == multiset(s[1..]) + multiset{x}
    ensures forall i :: 0 <= i < |rest| ==> rest[i] <= s[0]
  {
    forall i | 0 <= i < |rest| ensures rest[i] <= s[0] {
      assert rest[i] in multiset(rest);
      if rest[i] != x {
        assert rest[i] in multiset(s[1..]);
        var k :| 0 <= k < |s[1..]| && s[1..][k] == rest[i];
        assert s[k + 1] == rest[i];
      }
    }
  }

  /** A descending sequence stays descending under a new head no smaller than its elements. */
  lemma ConsKeepsOrder(v: int, rest: seq<int>)
    requires NonIncreasing(rest)
    requires forall i :: 0 <= i < |rest| ==> rest[i] <= v
    ensures NonIncreasing([v] + rest)
  {
    var r := [v] + rest;
    forall i, j | 0 <= i < j < |r| ensures r[i] >= r[j] {
      assert r[j] == rest[j - 1];
      if i > 0 {
        assert r[i] == rest[i - 1];
      }
    }
  }

  /** Inserting into a descending sequence keeps it descending. */
  lemma {:induction false} InsertKeepsOrder(x: int, s: seq<int>)
    requires NonIncreasing(s)
    ensures NonIncreasing(Insert(x, s))
  {
    if s != [] && x < s[0] {
      var rest := Insert(x, s[1..]);
      assert s == [s[0]] + s[1..];
      InsertKeepsOrder(x, s[1..]);
      InsertedBelowHead(x, s, rest);
      ConsKeepsOrder(s[0], rest);
    } else {
      ConsKeepsOrder(x, s);
    }
  }

  /** `sorted(s, reverse=True)`: the same values, largest first. */
  function SortDescending(s: seq<int>): (r: seq<int>)
    ensures NonIncreasing(r)
    ensures multiset(r) == multiset(s)
    ensures |r| == |s|
  {
    if s == [] then []
    else
      assert s == [s[0]] + s[1..];
      var sorted := SortDescending(s[1..]);
      InsertKeepsOrder(s[0], sorted);
      Insert(s[0], sorted)
  }

  /** The head of a non-empty descending sequence is its largest element. */
  lemma HeadIsMax(a: seq<int>, x: int)
    requires NonIncreasing(a) && x in multiset(a)
    ensures a != [] && x <= a[0]
  {
    var i :| 0 <= i < |a| && a[i] == x;
  }

  lemma TailNonIncreasing(a: seq<int>)
    requires NonIncreasing(a) && a != []
    ensures NonIncreasing(a[1..])
  {
    var t := a[1..];
    forall i, j | 0 <= i < j < |t| ensures t[i] >= t[j] {
      assert t[i] == a[i + 1] && t[j] == a[j + 1];
    }
  }

  lemma MultisetTail(a: seq<int>)
    requires a != []
    ensures multiset(a[1..]) == multiset(a) - multiset{a[0]}
  {
    assert a == [a[0]] + a[1..];
  }

  /** Two descending sequences with one multiset have the same head, and their tails share a multiset. */
  lemma DescendingHeads(a: seq<int>, b: seq<int>)
    requires NonIncreasing(a) && NonIncreasing(b)
    requires multiset(a) == multiset(b) && a != []
    ensures b != [] && a[0] == b[0] && multiset(a[1..]) == multiset(b[1..])
  {
    assert a[0] in multiset(a);
    HeadIsMax(b, a[0]);
    assert b[0] in multiset(b);
    HeadIsMax(a, b[0]);
    MultisetTail(a);
    MultisetTail(b);
  }

  /** A descending sequence is determined by its multiset: sorting has one answer. */
  lemma {:induction false} DescendingUnique(a: seq<int>, b: seq<int>)
    requires NonIncreasing(a) && NonIncreasing(b)
    requires multiset(a) == multiset(b)
    ensures a == b
  {
    if a == [] {
      assert |multiset(b)| == 0;
    } else {
      DescendingHeads(a, b);
      TailNonIncreasing(a);
      TailNonIncreasing(b);
      DescendingUnique(a[1..], b[1..]);
      assert a == [a[0]] + a[1..] && b == [b[0]] + b[1..];
    }
  }

  predicate Distinct<T(==)>(s: seq<T>)
  {
    forall i, j :: 0 <= i < j < |s| ==> s[i] != s[j]
  }

  /** Pigeonhole: a duplicate-free sequence longer than `b` has an element missing from `b`. */
  lemma {:induction false} Pigeonhole<T>(a: seq<T>, b: seq<T>)
    requires Distinct(a) && |a| > |b|
    ensures exists x :: x in a && x !in b
  {
    if a[0] in b {
      var b' := RemoveFirst(b, a[0]);
      assert Distinct(a[1..]);
      Pigeonhole(a[1..], b');
      var x :| x in a[1..] && x !in b';
      assert x != a[0];
      assert x in a;
      assert multiset(b')[x] == multiset(b)[x];
      assert x !in b;
    } else {
      assert a[0] in a;
    }
  }
}
