/** Sequence vocabulary shared by the component models. */
module Seqs {

  datatype Option<+T> = None | Some(value: T)

  /** The elements of `s` that satisfy `p`, in order (`Vec::retain`). */
  function Filter<T>(p: T -> bool, s: seq<T>): seq<T> {
    if s == [] then []
    else if p(s[0]) then [s[0]] + Filter(p, s[1..])
    else Filter(p, s[1..])
  }

  function ToSet<T(==)>(s: seq<T>): set<T> {
    set x | x in s
  }

  predicate Distinct<T(==)>(s: seq<T>) {
    forall i, j :: 0 <= i < j < |s| ==> s[i] != s[j]
  }

  lemma {:induction false} FilterMember<T>(p: T -> bool, s: seq<T>, x: T)
    ensures x in Filter(p, s) <==> x in s && p(x)
  {
    if s != [] {
      FilterMember(p, s[1..], x);
      assert s == [s[0]] + s[1..];
    }
  }

  lemma {:induction false} FilterAppend<T>(p: T -> bool, s: seq<T>, t: seq<T>)
    ensures Filter(p, s + t) == Filter(p, s) + Filter(p, t)
  {
    if s == [] {
      assert s + t == t;
    } else {
      assert (s + t)[1..] == s[1..] + t && (s + t)[0] == s[0];
      FilterAppend(p, s[1..], t);
      var a, b := Filter(p, s[1..]), Filter(p, t);
      assert ([s[0]] + a) + b == [s[0]] + (a + b);
    }
  }

  lemma {:induction false} FilterLength<T>(p: T -> bool, s: seq<T>)
    ensures |Filter(p, s)| <= |s|
  {
    if s != [] {
      FilterLength(p, s[1..]);
    }
  }

  predicate DistinctBy<T, U(==)>(s: seq<T>, f: T -> U) {
    forall i, j :: 0 <= i < j < |s| ==> f(s[i]) != f(s[j])
  }

  /** Filtering keeps relative order, so it keeps distinctness of any attribute. */
  lemma {:induction false} FilterDistinctBy<T, U>(p: T -> bool, s: seq<T>, f: T -> U)
    requires DistinctBy(s, f)
    ensures DistinctBy(Filter(p, s), f)
  {
    if s != [] {
      var rest := Filter(p, s[1..]);
      FilterDistinctBy(p, s[1..], f);
      forall j | 0 <= j < |rest|
        ensures f(s[0]) != f(rest[j])
      {
        FilterMember(p, s[1..], rest[j]);
        var k :| 0 <= k < |s[1..]| && s[1..][k] == rest[j];
        assert s[k + 1] == rest[j];
      }
    }
  }

  /** A sequence without repetitions has as many elements as positions. */
  lemma {:induction false} DistinctCardinality<T>(s: seq<T>)
    requires Distinct(s)
    ensures |ToSet(s)| == |s|
  {
    if s != [] {
      DistinctCardinality(s[1..]);
      assert ToSet(s) == ToSet(s[1..]) + {s[0]};
    }
  }

  lemma DistinctConcat<T>(a: seq<T>, b: seq<T>)
    requires Distinct(a) && Distinct(b) && forall x :: x in b ==> x !in a
    ensures Distinct(a + b)
  {
    forall i, j | 0 <= i < j < |a + b|
      ensures (a + b)[i] != (a + b)[j]
    {
      if j >= |a| {
        assert b[j - |a|] in b;
        if i < |a| {
          assert a[i] in a;
        }
      }
    }
  }

  /** A smaller set has room for no more elements. */
  lemma {:induction false} SubsetCardinality<T>(a: set<T>, b: set<T>)
    requires a <= b
    ensures |a| <= |b|
    decreases a
  {
    if a != {} {
      var x :| x in a;
      SubsetCardinality(a - {x}, b - {x});
    }
  }

  /** A set with distinct integer marks inside `[lo, hi)` has at most `hi - lo` elements. */
  lemma {:induction false} DistinctMarks<T>(s: set<T>, mark: T -> int, lo: int, hi: int)
    requires lo <= hi
    requires forall x :: x in s ==> lo <= mark(x) < hi
    requires forall x, y :: x in s && y in s && mark(x) == mark(y) ==> x == y
    ensures |s| <= hi - lo
    decreases hi - lo
  {
    if lo == hi {
      assert s == {};
    } else if x :| x in s && mark(x) == hi - 1 {
      DistinctMarks(s - {x}, mark, lo, hi - 1);
    } else {
      DistinctMarks(s, mark, lo, hi - 1);
    }
  }

  /** How many elements of `s` satisfy `p`. */
  function Count<T>(p: T -> bool, s: seq<T>): nat {
    if s == [] then 0
    else Count(p, s[..|s| - 1]) + if p(s[|s| - 1]) then 1 else 0
  }

  lemma CountSnoc<T>(p: T -> bool, s: seq<T>, x: T)
    ensures Count(p, s + [x]) == Count(p, s) + if p(x) then 1 else 0
  {
    assert (s + [x])[..|s|] == s;
  }

  lemma {:induction false} CountUpdate<T>(p: T -> bool, s: seq<T>, i: nat, x: T)
    requires i < |s|
    ensures Count(p, s[i := x]) == Count(p, s) - (if p(s[i]) then 1 else 0) + if p(x) then 1 else 0
  {
    var last := |s| - 1;
    if i == last {
      assert s[i := x][..last] == s[..last];
    } else {
      assert s[i := x][..last] == s[..last][i := x];
      CountUpdate(p, s[..last], i, x);
    }
  }

  /** A stronger condition counts fewer elements. */
  lemma {:induction false} CountImplied<T>(p: T -> bool, q: T -> bool, s: seq<T>)
    requires forall x :: x in s && p(x) ==> q(x)
    ensures Count(p, s) <= Count(q, s)
  {
    if s != [] {
      assert s[|s| - 1] in s;
      CountImplied(p, q, s[..|s| - 1]);
    }
  }

  lemma {:induction false} CountPositive<T>(p: T -> bool, s: seq<T>, i: nat)
    requires i < |s| && p(s[i])
    ensures Count(p, s) >= 1
  {
    if i < |s| - 1 {
      CountPositive(p, s[..|s| - 1], i);
    }
  }

  /** Counting depends only on which elements there are. */
  lemma {:induction false} CountMultiset<T>(p: T -> bool, s: seq<T>, t: seq<T>)
    requires multiset(s) == multiset(t)
    ensures Count(p, s) == Count(p, t)
    decreases |s|
  {
    assert |multiset(s)| == |multiset(t)|;
    if s != [] {
      var last := |s| - 1;
      var x := s[last];
      assert x in multiset(t);
      var k :| 0 <= k < |t| && t[k] == x;
      var rest := t[..k] + t[k + 1..];
      assert t == t[..k] + [x] + t[k + 1..];
      assert s == s[..last] + [x];
      assert multiset(rest) == multiset(t) - multiset{x};
      assert multiset(s[..last]) == multiset(s) - multiset{x};
      CountMultiset(p, s[..last], rest);
      CountConcat(p, t[..k], t[k + 1..]);
      CountConcat(p, t[..k] + [x], t[k + 1..]);
      CountSnoc(p, t[..k], x);
    }
  }

  lemma {:induction false} CountConcat<T>(p: T -> bool, s: seq<T>, t: seq<T>)
    ensures Count(p, s + t) == Count(p, s) + Count(p, t)
  {
    if t == [] {
      assert s + t == s;
    } else {
      var last := |t| - 1;
      assert (s + t)[..|s + t| - 1] == s + t[..last];
      CountConcat(p, s, t[..last]);
    }
  }

  lemma {:induction false} CountPrefix<T>(p: T -> bool, s: seq<T>, n: nat)
    requires n <= |s| && forall k :: 0 <= k < n ==> p(s[k])
    ensures Count(p, s) >= n
  {
    if n > 0 {
      var last := |s| - 1;
      CountPrefix(p, s[..last], if n == |s| then n - 1 else n);
    }
  }

  lemma {:induction false} CountSuffix<T>(p: T -> bool, s: seq<T>, n: nat)
    requires n <= |s| && forall k :: n <= k < |s| ==> !p(s[k])
    ensures Count(p, s) <= n
  {
    if s != [] {
      var last := |s| - 1;
      CountSuffix(p, s[..last], if n == |s| then n - 1 else n);
    }
  }

  /** The first element that satisfies `p`. */
  function First<T>(p: T -> bool, s: seq<T>): Option<T> {
    if s == [] then None else if p(s[0]) then Some(s[0]) else First(p, s[1..])
  }

  lemma {:induction false} FirstIndex<T>(p: T -> bool, s: seq<T>) returns (k: nat)
    ensures First(p, s).None? <==> k == |s|
    ensures k <= |s| && (k < |s| ==> p(s[k]) && First(p, s) == Some(s[k]))
    ensures forall j :: 0 <= j < k ==> !p(s[j])
  {
    if s == [] || p(s[0]) {
      k := 0;
    } else {
      var r := FirstIndex(p, s[1..]);
      k := r + 1;
      assert forall j :: 1 <= j < k ==> s[j] == s[1..][j - 1];
    }
  }

  lemma {:induction false} FirstIsHead<T>(p: T -> bool, s: seq<T>)
    ensures First(p, s) == if Filter(p, s) == [] then None else Some(Filter(p, s)[0])
  {
    if s != [] {
      FirstIsHead(p, s[1..]);
    }
  }
}
