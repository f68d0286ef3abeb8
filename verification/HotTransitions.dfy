/**
 The transition table of the popularity tracker: which key tends to follow which.

 The table shares the tracker's lock and its decay and nothing else, so it is an object of its
 own, held by the tracker. Hash-map order decides ties and row eviction, so an update is a relation.
 */
module HotTransitions {
  import opened Seqs
  import opened Sorting

  const ROW_LIMIT: nat := 8

  /** Successors and their weights. */
  type Row<!K> = map<K, real>

  function Counted<K>(row: Row<K>, key: K): Row<K> {
    row[key := (if key in row then row[key] else 0.0) + 1.0]
  }

  /** `r` is `ROW_LIMIT` entries of `row`, none of them lighter than an entry left out. */
  ghost predicate Strongest<K(!new)>(row: Row<K>, r: Row<K>) {
    && |r| == ROW_LIMIT && r.Keys <= row.Keys && (forall k :: k in r ==> r[k] == row[k])
    && forall a, b :: a in r && b in row && b !in r ==> row[a] >= row[b]
  }

  ghost predicate RowAfter<K(!new)>(row: Row<K>, key: K, r: Row<K>) {
    if |Counted(row, key)| <= ROW_LIMIT then r == Counted(row, key) else Strongest(Counted(row, key), r)
  }

  function RowOf<K>(rows: map<K, Row<K>>, k: K): Row<K> {
    if k in rows then rows[k] else map[]
  }

  /** One noted transition: the row is updated, then one arbitrary row leaves if there are too many. */
  ghost predicate Noted<K(!new)>(rows: map<K, Row<K>>, next: map<K, Row<K>>, prev: K, key: K, capacity: nat) {
    exists r :: RowAfter(RowOf(rows, prev), key, r) && Bounded(rows[prev := r], next, capacity)
  }

  ghost predicate Bounded<K(!new)>(full: map<K, Row<K>>, next: map<K, Row<K>>, capacity: nat) {
    if |full| <= capacity then next == full else exists v :: v in full && next == full - {v}
  }

  function Scaled(weight: real, factor: real): real {
    weight * factor
  }

  function FadedRow<K>(row: Row<K>, factor: real): Row<K> {
    map k | k in row && Scaled(row[k], factor) > 0.01 :: Scaled(row[k], factor)
  }

  function Faded<K>(rows: map<K, Row<K>>, factor: real): map<K, Row<K>> {
    map k | k in rows && FadedRow(rows[k], factor) != map[] :: FadedRow(rows[k], factor)
  }

  /** No empty or oversized row, and no key follows itself. */
  ghost predicate RowsOk<K(!new)>(rows: map<K, Row<K>>) {
    forall k :: k in rows ==> rows[k] != map[] && |rows[k]| <= ROW_LIMIT && k !in rows[k]
  }

  lemma CountedSize<K>(row: Row<K>, key: K)
    ensures |Counted(row, key)| == |row| + if key in row then 0 else 1
  {
    assert Counted(row, key).Keys == row.Keys + {key};
    assert |Counted(row, key)| == |Counted(row, key).Keys| && |row| == |row.Keys|;
  }

  lemma RowAfterOk<K(!new)>(row: Row<K>, prev: K, key: K, r: Row<K>)
    requires |row| <= ROW_LIMIT && prev !in row && prev != key && RowAfter(row, key, r)
    ensures r != map[] && |r| <= ROW_LIMIT && prev !in r
  {
    if |Counted(row, key)| <= ROW_LIMIT {
      assert key in r;
    }
  }

  lemma FullOk<K(!new)>(rows: map<K, Row<K>>, prev: K, r: Row<K>)
    requires RowsOk(rows) && r != map[] && |r| <= ROW_LIMIT && prev !in r
    ensures RowsOk(rows[prev := r]) && |rows[prev := r]| <= |rows| + 1
  {
    var full := rows[prev := r];
    assert full.Keys == rows.Keys + {prev};
    assert |full| == |full.Keys| && |rows| == |rows.Keys|;
  }

  lemma BoundedOk<K(!new)>(full: map<K, Row<K>>, next: map<K, Row<K>>, capacity: nat)
    requires RowsOk(full) && |full| <= capacity + 1 && Bounded(full, next, capacity)
    ensures RowsOk(next) && |next| <= capacity
  {
    if |full| > capacity {
      var v :| v in full && next == full - {v};
      assert next.Keys == full.Keys - {v};
      assert |full| == |full.Keys| && |next| == |next.Keys|;
    }
  }

  /** The table stays within its bounds whatever is noted. */
  lemma NotedOk<K(!new)>(rows: map<K, Row<K>>, next: map<K, Row<K>>, prev: K, key: K, capacity: nat)
    requires RowsOk(rows) && |rows| <= capacity && prev != key && Noted(rows, next, prev, key, capacity)
    ensures RowsOk(next) && |next| <= capacity && forall k :: k in next ==> |next[k]| <= 8
  {
    hide RowAfter, Bounded;
    var r :| RowAfter(RowOf(rows, prev), key, r) && Bounded(rows[prev := r], next, capacity);
    RowAfterOk(RowOf(rows, prev), prev, key, r);
    FullOk(rows, prev, r);
    BoundedOk(rows[prev := r], next, capacity);
  }

  lemma FadedOk<K(!new)>(rows: map<K, Row<K>>, factor: real)
    requires RowsOk(rows)
    ensures RowsOk(Faded(rows, factor)) && |Faded(rows, factor)| <= |rows|
  {
    var f := Faded(rows, factor);
    SubsetCardinality(f.Keys, rows.Keys);
    assert |f| == |f.Keys| && |rows| == |rows.Keys|;
    forall k | k in f
      ensures |f[k]| <= |rows[k]|
    {
      SubsetCardinality(f[k].Keys, rows[k].Keys);
      assert |f[k]| == |f[k].Keys| && |rows[k]| == |rows[k].Keys|;
    }
  }

  /**
   A full row admits a new successor only in place of one that weighs no more than a single
   observation, and always when one weighs less.
   */
  lemma NewcomerNeedsAWeakRival<K(!new)>(row: Row<K>, key: K, r: Row<K>)
    requires |row| == ROW_LIMIT && key !in row && RowAfter(row, key, r)
    ensures key in r ==> exists a :: a in row && a !in r && row[a] <= 1.0
    ensures (exists a :: a in row && row[a] < 1.0) ==> key in r
    ensures key !in r ==> r == row
  {
    CountedSize(row, key);
    var full := Counted(row, key);
    assert |r| == |r.Keys| && |row| == |row.Keys|;
    if key in r {
      SomeoneLeft(r.Keys, row.Keys, key);
      var a :| a in row.Keys && a !in r.Keys;
      assert full[key] >= full[a];
    } else {
      assert r.Keys <= row.Keys;
      SameSize(r.Keys, row.Keys);
      assert forall a :: a in row ==> full[a] >= full[key];
    }
  }

  lemma SomeoneLeft<T>(r: set<T>, row: set<T>, key: T)
    requires |r| == |row| && key in r && key !in row
    ensures exists a :: a in row && a !in r
  {
    if row <= r {
      SubsetCardinality(row + {key}, r);
    }
  }

  lemma SameSize<T>(a: set<T>, b: set<T>)
    requires a <= b && |a| == |b|
    ensures a == b
  {
    assert |b - a| == |b| - |a|;
    assert b == a + (b - a);
  }

  // ----- the strongest successors

  function Heavier<K>(): ((K, real), (K, real)) -> bool {
    (x: (K, real), y: (K, real)) => x.1 >= y.1
  }

  /** The items of a row, each once, in some order. */
  ghost predicate ItemsOf<K(!new)>(row: Row<K>, items: seq<(K, real)>) {
    Distinct(items) && |items| == |row| && forall x :: x in items <==> x.0 in row && row[x.0] == x.1
  }

  lemma SortedItems<K(!new)>(row: Row<K>, items: seq<(K, real)>)
    requires ItemsOf(row, items)
    ensures ItemsOf(row, Sort(items, Heavier())) && Sorted(Sort(items, Heavier()), Heavier())
  {
    SortPermutes(items, Heavier());
    SortDistinct(items, Heavier());
    SortSorts(items, Heavier());
  }

  /** The row that holds the first `n` items. */
  ghost predicate Collects<K(!new)>(items: seq<(K, real)>, r: Row<K>, n: nat) {
    n <= |items| && |r| == n && forall x :: x in items[..n] <==> x.0 in r && r[x.0] == x.1
  }

  lemma FirstAreStrongest<K(!new)>(row: Row<K>, items: seq<(K, real)>, r: Row<K>)
    requires ItemsOf(row, items) && Sorted(items, Heavier()) && |items| > ROW_LIMIT && Collects(items, r, ROW_LIMIT)
    ensures Strongest(row, r)
  {
    forall k | k in r
      ensures k in row && r[k] == row[k]
    {
      var x := (k, r[k]);
      assert x in items[..ROW_LIMIT];
      assert x in items;
    }
    forall a, b | a in r && b in row && b !in r
      ensures row[a] >= row[b]
    {
      var y, x := (a, r[a]), (b, row[b]);
      assert y in items[..ROW_LIMIT] && x !in items[..ROW_LIMIT];
      var i :| 0 <= i < ROW_LIMIT && items[i] == y;
      assert x in items;
      var j :| 0 <= j < |items| && items[j] == x;
      assert items == items[..ROW_LIMIT] + items[ROW_LIMIT..];
      assert j >= ROW_LIMIT;
      assert Heavier()(items[i], items[j]);
    }
  }

  method Items<K(==, !new)>(row: Row<K>) returns (items: seq<(K, real)>)
    ensures ItemsOf(row, items)
  {
    var rest := row.Keys;
    items := [];
    while rest != {}
      invariant rest <= row.Keys && |items| + |rest| == |row.Keys|
      invariant Distinct(items)
      invariant forall x :: x in items <==> x.0 in row && x.0 !in rest && row[x.0] == x.1
      decreases rest
    {
      var k :| k in rest;
      rest := rest - {k};
      assert (k, row[k]) !in items;
      items := items + [(k, row[k])];
    }
  }

  lemma NewKey<K(!new)>(row: Row<K>, items: seq<(K, real)>, r: Row<K>, i: nat)
    requires ItemsOf(row, items) && i < |items| && Collects(items, r, i)
    ensures items[i].0 !in r
  {
    assert items[i] in items;
    forall k | k in r
      ensures k != items[i].0
    {
      var x := (k, r[k]);
      assert x in items[..i];
      var j :| 0 <= j < i && items[j] == x;
      assert items[j] in items;
    }
  }

  method Collect<K(==, !new)>(ghost row: Row<K>, items: seq<(K, real)>, n: nat) returns (r: Row<K>)
    requires ItemsOf(row, items) && n <= |items|
    ensures Collects(items, r, n)
  {
    r := map[];
    for i := 0 to n
      invariant Collects(items, r, i)
    {
      assert items[i] in items && items[i] !in items[..i];
      ghost var before := r;
      NewKey(row, items, r, i);
      assert items[..i + 1] == items[..i] + [items[i]];
      r := r[items[i].0 := items[i].1];
      assert r.Keys == before.Keys + {items[i].0};
      assert |r| == |r.Keys| && |before| == |before.Keys|;
    }
  }

  method KeepStrongest<K(==, !new)>(row: Row<K>) returns (r: Row<K>)
    requires |row| > ROW_LIMIT
    ensures Strongest(row, r)
  {
    var items := Items(row);
    SortedItems(row, items);
    var sorted := Sort(items, Heavier());
    r := Collect(row, sorted, ROW_LIMIT);
    FirstAreStrongest(row, sorted, r);
  }

  class Transitions<K(==, !new)> {
    const capacity: nat
    var rows: map<K, Row<K>>

    ghost predicate Valid()
      reads this
    {
      RowsOk(rows) && |rows| <= capacity
    }

    constructor (capacity: nat)
      ensures Valid() && rows == map[] && this.capacity == capacity
    {
      this.capacity := capacity;
      rows := map[];
    }

    /** The transition part of `observe`. */
    method Note(key: K, previous: Option<K>)
      requires Valid()
      modifies this
      ensures Valid()
      ensures if capacity == 0 || previous.None? || previous == Some(key) then rows == old(rows)
              else Noted(old(rows), rows, previous.value, key, capacity)
    {
      if capacity == 0 || previous.None? || previous.value == key {
        return;
      }
      ghost var before := rows;
      var prev := previous.value;
      var row := Counted(RowOf(rows, prev), key);
      if |row| > ROW_LIMIT {
        row := KeepStrongest(row);
      }
      assert RowAfter(RowOf(before, prev), key, row);
      rows := rows[prev := row];
      ghost var full := rows;
      if |rows| > capacity {
        assert prev in rows;
        var v :| v in rows;
        rows := rows - {v};
      }
      assert Bounded(full, rows, capacity);
      assert Noted(before, rows, prev, key, capacity);
      NotedOk(before, rows, prev, key, capacity);
    }

    /** The transition part of `decay_locked`. */
    method Decay(factor: real)
      requires Valid()
      modifies this
      ensures Valid() && rows == Faded(old(rows), factor)
    {
      FadedOk(rows, factor);
      rows := Faded(rows, factor);
    }
  }
}
