/** Sequence operations behind the source's `Array.prototype.filter`, `new Set(...)` iteration
    and `Array.prototype.sort`. */
module Seqs {

  predicate NoDuplicates<T(==)>(s: seq<T>) {
    forall i, j :: 0 <= i < j < |s| ==> s[i] != s[j]
  }

  /** `filter(p)`: the elements satisfying `p`, in their original order. */
  function Filter<T>(s: seq<T>, p: T -> bool): (r: seq<T>)
    ensures |r| <= |s|
  {
    if s == [] then [] else if p(s[0]) then [s[0]] + Filter(s[1..], p) else Filter(s[1..], p)
  }

  /** Filtering keeps every satisfying occurrence and nothing else: each element occurs in the
      result as often as in the input if it satisfies `p`, and not at all otherwise. */
  lemma {:induction false} FilterMultiplicity<T>(s: seq<T>, p: T -> bool, x: T)
    ensures multiset(Filter(s, p))[x] == if p(x) then multiset(s)[x] else 0
  {
    if s != [] {
      FilterMultiplicity(s[1..], p, x);
      assert s == [s[0]] + s[1..];
    }
  }

  /** An element is in the filtered sequence exactly when it is in the input and satisfies `p`. */
  lemma FilterMembership<T>(s: seq<T>, p: T -> bool, x: T)
    ensures x in Filter(s, p) <==> x in s && p(x)
  {
    FilterMultiplicity(s, p, x);
    assert x in s <==> multiset(s)[x] > 0;
    assert x in Filter(s, p) <==> multiset(Filter(s, p))[x] > 0;
  }

  /** Two filters in a row keep what satisfies both, in the original order. */
  lemma {:induction false} FilterFilter<T>(s: seq<T>, p: T -> bool, q: T -> bool, pq: T -> bool)
    requires forall x :: pq(x) == (p(x) && q(x))
    ensures Filter(Filter(s, p), q) == Filter(s, pq)
  {
    if s != [] {
      FilterFilter(s[1..], p, q, pq);
      if p(s[0]) {
        assert ([s[0]] + Filter(s[1..], p))[1..] == Filter(s[1..], p);
      }
    }
  }

  /** The position of the first occurrence of `x`. */
  function FirstIndex<T(==)>(s: seq<T>, x: T): (k: nat)
    requires x in s
    ensures k < |s| && s[k] == x && x !in s[..k]
  {
    if s[0] == x then 0 else 1 + FirstIndex(s[1..], x)
  }

  /** The distinct elements, each once, in the order of their first occurrence (the iteration
      order of a `Set` built from `s`). */
  function Distinct<T(==,!new)>(s: seq<T>): (r: seq<T>)
    ensures forall x :: x in r <==> x in s
    ensures NoDuplicates(r)
  {
    if s == [] then []
    else
      var d := Distinct(s[..|s| - 1]);
      assert forall x :: x in s <==> x in s[..|s| - 1] || x == s[|s| - 1] by {
        assert s == s[..|s| - 1] + [s[|s| - 1]];
      }
      if s[|s| - 1] in d then d else d + [s[|s| - 1]]
  }

  lemma FirstIndexInPrefix<T>(s: seq<T>, n: nat, x: T)
    requires n <= |s| && x in s[..n]
    ensures FirstIndex(s, x) == FirstIndex(s[..n], x)
  {
    var k := FirstIndex(s[..n], x);
    assert s[..k] == s[..n][..k];
  }

  /** The distinct elements come in the order in which they first occur. */
  lemma {:induction false} DistinctInFirstOccurrenceOrder<T(!new)>(s: seq<T>, i: nat, j: nat)
    requires i < j < |Distinct(s)|
    ensures FirstIndex(s, Distinct(s)[i]) < FirstIndex(s, Distinct(s)[j])
  {
    var n := |s| - 1;
    var p := s[..n];
    var d := Distinct(p);
    var r := Distinct(s);
    assert s == p + [s[n]];
    if j < |d| {
      DistinctInFirstOccurrenceOrder(p, i, j);
      assert r[i] == d[i] && r[j] == d[j];
      FirstIndexInPrefix(s, n, d[i]);
      FirstIndexInPrefix(s, n, d[j]);
    } else {
      assert r == d + [s[n]] && j == |d| && r[j] == s[n];
      assert s[n] !in p;
      assert s[..FirstIndex(s, s[n])] <= p;
      FirstIndexInPrefix(s, n, d[i]);
    }
  }

  /** Inserts `x` before the first element it may precede; with a tie `x` goes first. */
  function Insert<T>(x: T, s: seq<T>, leq: (T, T) -> bool): (r: seq<T>)
    ensures multiset(r) == multiset(s) + multiset{x}
    ensures |r| == |s| + 1
  {
    if s == [] then [x]
    else if leq(x, s[0]) then [x] + s
    else
      assert s == [s[0]] + s[1..];
      [s[0]] + Insert(x, s[1..], leq)
  }

  /** A stable insertion sort: `leq(a, b)` is the source comparator's `compare(a, b) <= 0`.
      For a comparator that is a total preorder every stable sort gives this sequence. */
  function SortBy<T>(s: seq<T>, leq: (T, T) -> bool): (r: seq<T>)
    ensures multiset(r) == multiset(s)
    ensures |r| == |s|
  {
    if s == [] then []
    else
      assert s == [s[0]] + s[1..];
      Insert(s[0], SortBy(s[1..], leq), leq)
  }

  predicate SortedBy<T>(s: seq<T>, leq: (T, T) -> bool) {
    forall i :: 0 <= i < |s| - 1 ==> leq(s[i], s[i + 1])
  }

  /** `leq` compares any two elements of `s` one way or the other. */
  predicate TotalOn<T(==)>(s: seq<T>, leq: (T, T) -> bool) {
    forall a, b :: a in s && b in s ==> leq(a, b) || leq(b, a)
  }

  lemma {:induction false} InsertSorted<T>(x: T, s: seq<T>, leq: (T, T) -> bool)
    requires SortedBy(s, leq)
    requires forall b :: b in s ==> leq(x, b) || leq(b, x)
    ensures SortedBy(Insert(x, s, leq), leq)
    ensures Insert(x, s, leq)[0] == x || (s != [] && Insert(x, s, leq)[0] == s[0])
  {
    if s != [] && !leq(x, s[0]) {
      InsertSorted(x, s[1..], leq);
      var t := Insert(x, s[1..], leq);
      var r := [s[0]] + t;
      assert r == Insert(x, s, leq);
      forall i | 0 <= i < |r| - 1 ensures leq(r[i], r[i + 1]) {
        if i > 0 {
          assert r[i] == t[i - 1] && r[i + 1] == t[i];
        } else if t[0] != x {
          assert t[0] == s[1];
        }
      }
    }
  }

  /** With a comparator that is total on the input, the sorted sequence is ordered by it. */
  lemma {:induction false} SortBySorted<T>(s: seq<T>, leq: (T, T) -> bool)
    requires TotalOn(s, leq)
    ensures SortedBy(SortBy(s, leq), leq)
  {
    if s != [] {
      assert TotalOn(s[1..], leq) by {
        forall a | a in s[1..] ensures a in s { }
      }
      SortBySorted(s[1..], leq);
      var t := SortBy(s[1..], leq);
      forall b | b in t ensures leq(s[0], b) || leq(b, s[0]) {
        assert b in multiset(t);
        assert b in s[1..];
      }
      InsertSorted(s[0], t, leq);
    }
  }

  /** A comparator that calls every pair of elements equal leaves the order unchanged. */
  lemma {:induction false} SortByAllTiesIdentity<T>(s: seq<T>, leq: (T, T) -> bool)
    requires forall a, b :: a in s && b in s ==> leq(a, b)
    ensures SortBy(s, leq) == s
  {
    if s != [] {
      assert forall a :: a in s[1..] ==> a in s;
      SortByAllTiesIdentity(s[1..], leq);
      assert [s[0]] + s[1..] == s;
    }
  }

  /** Inserting `x` splices it in: among the elements of a class `c` whose members all tie
      with `x`, `x` of that class comes first and the others keep their order. */
  lemma {:induction false} InsertFilter<T>(x: T, s: seq<T>, leq: (T, T) -> bool, c: T -> bool)
    requires forall b :: b in s && c(x) && c(b) ==> leq(x, b)
    ensures Filter(Insert(x, s, leq), c) == if c(x) then [x] + Filter(s, c) else Filter(s, c)
  {
    if s == [] {
    } else if leq(x, s[0]) {
      assert ([x] + s)[1..] == s;
    } else {
      assert forall b :: b in s[1..] ==> b in s;
      InsertFilter(x, s[1..], leq, c);
      var r := [s[0]] + Insert(x, s[1..], leq);
      assert r[1..] == Insert(x, s[1..], leq);
      if c(x) {
        assert !c(s[0]);
      }
    }
  }

  /** The sort is stable: the elements of a class `c` in which every pair ties keep their
      relative order. */
  lemma {:induction false} SortByStable<T>(s: seq<T>, leq: (T, T) -> bool, c: T -> bool)
    requires forall a, b :: a in s && b in s && c(a) && c(b) ==> leq(a, b)
    ensures Filter(SortBy(s, leq), c) == Filter(s, c)
  {
    if s != [] {
      assert forall a :: a in s[1..] ==> a in s;
      SortByStable(s[1..], leq, c);
      var t := SortBy(s[1..], leq);
      forall b | b in t ensures b in s {
        assert b in multiset(t);
        assert b in s[1..];
      }
      InsertFilter(s[0], t, leq, c);
    }
  }
}
