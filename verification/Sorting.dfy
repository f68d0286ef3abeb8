/**
 Sorting as the components use it: a stable sort by a total preorder.

 `Sort` is the reference for `slice::sort`, `sort_by` and `sort_by_key`. `SortedUnique` is what
 makes `sort_unstable` deterministic when the order is antisymmetric.
 */
module Sorting {
  import opened Seqs

  ghost predicate TotalPreorder<T(!new)>(leq: (T, T) -> bool) {
    && (forall x, y :: leq(x, y) || leq(y, x))
    && (forall x, y, z :: leq(x, y) && leq(y, z) ==> leq(x, z))
  }

  predicate Sorted<T>(s: seq<T>, leq: (T, T) -> bool) {
    forall i, j :: 0 <= i < j < |s| ==> leq(s[i], s[j])
  }

  function Insert<T>(x: T, s: seq<T>, leq: (T, T) -> bool): seq<T> {
    if s == [] || leq(x, s[0]) then [x] + s else [s[0]] + Insert(x, s[1..], leq)
  }

  function Sort<T>(s: seq<T>, leq: (T, T) -> bool): seq<T> {
    if s == [] then [] else Insert(s[0], Sort(s[1..], leq), leq)
  }

  lemma {:induction false} InsertPermutes<T>(x: T, s: seq<T>, leq: (T, T) -> bool)
    ensures multiset(Insert(x, s, leq)) == multiset(s) + multiset{x}
  {
    if s != [] && !leq(x, s[0]) {
      InsertPermutes(x, s[1..], leq);
      assert s == [s[0]] + s[1..];
    }
  }

  lemma {:induction false} InsertSorted<T(!new)>(x: T, s: seq<T>, leq: (T, T) -> bool)
    requires TotalPreorder(leq) && Sorted(s, leq)
    ensures Sorted(Insert(x, s, leq), leq)
  {
    if s != [] {
      if leq(x, s[0]) {
        forall i | 0 <= i < |s|
          ensures leq(x, s[i])
        {
        }
      } else {
        var rest := Insert(x, s[1..], leq);
        InsertSorted(x, s[1..], leq);
        InsertPermutes(x, s[1..], leq);
        forall y | y in rest
          ensures leq(s[0], y)
        {
          assert y in multiset(rest);
          if y != x {
            assert y in s[1..];
          }
        }
      }
    }
  }

  lemma {:induction false} SortMultiset<T>(s: seq<T>, leq: (T, T) -> bool)
    ensures multiset(Sort(s, leq)) == multiset(s)
  {
    if s != [] {
      SortMultiset(s[1..], leq);
      InsertPermutes(s[0], Sort(s[1..], leq), leq);
      assert s == [s[0]] + s[1..];
    }
  }

  lemma SortPermutes<T>(s: seq<T>, leq: (T, T) -> bool)
    ensures multiset(Sort(s, leq)) == multiset(s)
    ensures |Sort(s, leq)| == |s|
    ensures forall x :: x in Sort(s, leq) <==> x in s
  {
    SortMultiset(s, leq);
    SameMultiset(Sort(s, leq), s);
  }

  lemma SameMultiset<T>(a: seq<T>, b: seq<T>)
    requires multiset(a) == multiset(b)
    ensures |a| == |b| && forall x :: x in a <==> x in b
  {
    assert |multiset(a)| == |multiset(b)|;
    forall x
      ensures x in a <==> x in b
    {
      assert x in multiset(a) <==> x in multiset(b);
    }
  }

  lemma {:induction false} SortSorts<T(!new)>(s: seq<T>, leq: (T, T) -> bool)
    requires TotalPreorder(leq)
    ensures Sorted(Sort(s, leq), leq)
  {
    if s != [] {
      SortSorts(s[1..], leq);
      InsertSorted(s[0], Sort(s[1..], leq), leq);
    }
  }

  lemma {:induction false} InsertStable<T>(x: T, s: seq<T>, leq: (T, T) -> bool, p: T -> bool)
    requires forall y :: y in s && p(x) && p(y) ==> leq(x, y)
    ensures Filter(p, Insert(x, s, leq)) == Filter(p, [x] + s)
  {
    if s != [] && !leq(x, s[0]) {
      InsertStable(x, s[1..], leq, p);
      assert s[0] in s;
      var r := Insert(x, s[1..], leq);
      FilterAppend(p, [s[0]], r);
      FilterAppend(p, [x], s);
      FilterAppend(p, [x], s[1..]);
      FilterAppend(p, [s[0]], s[1..]);
      assert s == [s[0]] + s[1..];
    }
  }

  /** All elements of `s` picked out by `p` compare equal. */
  ghost predicate Tied<T>(s: seq<T>, leq: (T, T) -> bool, p: T -> bool) {
    forall i, j :: 0 <= i < |s| && 0 <= j < |s| && p(s[i]) && p(s[j]) ==> leq(s[i], s[j])
  }

  /** Stability: elements that compare equal keep the order they came in. */
  lemma {:induction false} SortStable<T>(s: seq<T>, leq: (T, T) -> bool, p: T -> bool)
    requires Tied(s, leq, p)
    ensures Filter(p, Sort(s, leq)) == Filter(p, s)
  {
    if s != [] {
      var tail := s[1..];
      SortStable(tail, leq, p);
      SortPermutes(tail, leq);
      var rest := Sort(tail, leq);
      forall y | y in rest && p(s[0]) && p(y)
        ensures leq(s[0], y)
      {
        assert y in multiset(rest);
        assert y in tail;
        var k :| 0 <= k < |tail| && tail[k] == y;
        assert s[k + 1] == y;
      }
      InsertStable(s[0], rest, leq, p);
      FilterAppend(p, [s[0]], rest);
      FilterAppend(p, [s[0]], tail);
      assert s == [s[0]] + tail;
    }
  }

  lemma {:induction false} SortDistinct<T>(s: seq<T>, leq: (T, T) -> bool)
    requires Distinct(s)
    ensures Distinct(Sort(s, leq))
  {
    SortPermutes(s, leq);
    var t := Sort(s, leq);
    MultisetDistinct(s);
    DistinctMultiset(t);
  }

  lemma {:induction false} MultisetDistinct<T>(s: seq<T>)
    requires Distinct(s)
    ensures forall x :: multiset(s)[x] <= 1
  {
    if s != [] {
      MultisetDistinct(s[1..]);
      assert s == [s[0]] + s[1..];
      assert s[0] !in s[1..];
      assert s[0] !in multiset(s[1..]);
    }
  }

  lemma {:induction false} DistinctMultiset<T>(s: seq<T>)
    requires forall x :: multiset(s)[x] <= 1
    ensures Distinct(s)
  {
    if s != [] {
      assert s == [s[0]] + s[1..];
      assert multiset(s) == multiset{s[0]} + multiset(s[1..]);
      forall x
        ensures multiset(s[1..])[x] <= 1
      {
        assert multiset(s)[x] <= 1;
      }
      DistinctMultiset(s[1..]);
      assert multiset(s)[s[0]] <= 1;
      assert multiset(s[1..])[s[0]] == 0;
      assert s[0] !in multiset(s[1..]);
      assert s[0] !in s[1..];
    }
  }

  /** Two sorted arrangements of one multiset are the same sequence. */
  lemma {:induction false} SortedUnique<T(!new)>(a: seq<T>, b: seq<T>, leq: (T, T) -> bool)
    requires TotalPreorder(leq)
    requires forall x, y :: leq(x, y) && leq(y, x) ==> x == y
    requires Sorted(a, leq) && Sorted(b, leq) && multiset(a) == multiset(b)
    ensures a == b
  {
    SameMultiset(a, b);
    if a != [] {
      SameHead(a, b, leq);
      assert a == [a[0]] + a[1..] && b == [b[0]] + b[1..];
      assert multiset(a[1..]) == multiset(a) - multiset{a[0]};
      assert multiset(b[1..]) == multiset(b) - multiset{b[0]};
      SortedTail(a, leq);
      SortedTail(b, leq);
      SortedUnique(a[1..], b[1..], leq);
    }
  }

  lemma SortedTail<T>(a: seq<T>, leq: (T, T) -> bool)
    requires Sorted(a, leq) && a != []
    ensures Sorted(a[1..], leq)
  {
  }

  lemma SameHead<T(!new)>(a: seq<T>, b: seq<T>, leq: (T, T) -> bool)
    requires TotalPreorder(leq)
    requires forall x, y :: leq(x, y) && leq(y, x) ==> x == y
    requires Sorted(a, leq) && Sorted(b, leq) && multiset(a) == multiset(b) && a != []
    ensures b != [] && a[0] == b[0]
  {
    SameMultiset(a, b);
    assert a[0] in a && b[0] in b;
    var i :| 0 <= i < |b| && b[i] == a[0];
    var j :| 0 <= j < |a| && a[j] == b[0];
    assert leq(b[0], b[i]) && leq(a[0], a[j]);
  }

  // ----- lexicographic order on sequences

  ghost predicate StrictTotal<T(!new)>(less: (T, T) -> bool) {
    && (forall x :: !less(x, x))
    && (forall x, y :: less(x, y) || less(y, x) || x == y)
    && (forall x, y, z :: less(x, y) && less(y, z) ==> less(x, z))
  }

  predicate LexLess<T(==)>(less: (T, T) -> bool, a: seq<T>, b: seq<T>) {
    b != [] && (a == [] || less(a[0], b[0]) || (a[0] == b[0] && LexLess(less, a[1..], b[1..])))
  }

  function LexLeq<T(==)>(less: (T, T) -> bool): (seq<T>, seq<T>) -> bool {
    (a: seq<T>, b: seq<T>) => !LexLess(less, b, a)
  }

  lemma {:induction false} LexTotal<T(!new)>(less: (T, T) -> bool, a: seq<T>, b: seq<T>)
    requires StrictTotal(less)
    ensures LexLess(less, a, b) || LexLess(less, b, a) || a == b
    ensures !(LexLess(less, a, b) && LexLess(less, b, a))
    ensures !LexLess(less, a, a)
  {
    if a != [] {
      LexTotal(less, a[1..], a[1..]);
      if b != [] && a[0] == b[0] {
        LexTotal(less, a[1..], b[1..]);
        assert a == [a[0]] + a[1..] && b == [b[0]] + b[1..];
      }
    }
  }

  lemma {:induction false} LexTransitive<T(!new)>(less: (T, T) -> bool, a: seq<T>, b: seq<T>, c: seq<T>)
    requires StrictTotal(less) && LexLess(less, a, b) && LexLess(less, b, c)
    ensures LexLess(less, a, c)
  {
    if a != [] && a[0] == b[0] && b[0] == c[0] {
      LexTransitive(less, a[1..], b[1..], c[1..]);
    }
  }

  lemma LexIsTotalOrder<T(!new)>(less: (T, T) -> bool)
    requires StrictTotal(less)
    ensures TotalPreorder(LexLeq(less))
    ensures forall x, y :: LexLeq(less)(x, y) && LexLeq(less)(y, x) ==> x == y
  {
    var leq := LexLeq(less);
    forall x: seq<T>, y: seq<T>
      ensures leq(x, y) || leq(y, x)
      ensures leq(x, y) && leq(y, x) ==> x == y
    {
      LexTotal(less, x, y);
    }
    forall x: seq<T>, y: seq<T>, z: seq<T> | leq(x, y) && leq(y, z)
      ensures leq(x, z)
    {
      LexTotal(less, x, y);
      LexTotal(less, y, z);
      LexTotal(less, x, z);
      if LexLess(less, x, y) && LexLess(less, y, z) {
        LexTransitive(less, x, y, z);
      }
    }
  }
}
