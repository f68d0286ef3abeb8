/**
 The bounded popularity tracker: eviction by an order statistic instead of a sort.

 Scores are reals; the decay factor for an elapsed time is an arbitrary function. Everything
 proved about eviction depends only on the order of (score, last seen).
 */
module HotSets {
  import opened Seqs
  import HotTransitions

  const NANOS_PER_SEC: nat := 1_000_000_000

  datatype HotEntry = HotEntry(score: real, hits: nat, lastSeen: nat, lastPrefetch: Option<nat>)

  /** The eviction order: by score, equal scores by when the key was last seen. */
  datatype Rank = Rank(score: real, seen: nat)

  predicate Less(a: Rank, b: Rank) {
    a.score < b.score || (a.score == b.score && a.seen < b.seen)
  }

  predicate Leq(a: Rank, b: Rank) {
    !Less(b, a)
  }

  lemma LessIsLeq(a: Rank, b: Rank)
    requires Less(a, b)
    ensures Leq(a, b)
  {
  }

  lemma LeqReflexive(a: Rank)
    ensures Leq(a, a)
  {
  }

  function RankOf(e: HotEntry): Rank {
    Rank(e.score, e.lastSeen)
  }

  function AtMost(t: Rank): Rank -> bool {
    (r: Rank) => Leq(r, t)
  }

  function Below(t: Rank): Rank -> bool {
    (r: Rank) => Less(r, t)
  }

  // ----- selection in place

  method Swap(a: array<Rank>, i: nat, j: nat)
    requires i < a.Length && j < a.Length
    modifies a
    ensures a[i] == old(a[j]) && a[j] == old(a[i])
    ensures forall k :: 0 <= k < a.Length && k != i && k != j ==> a[k] == old(a[k])
    ensures multiset(a[..]) == multiset(old(a[..]))
  {
    a[i], a[j] := a[j], a[i];
  }

  /** A value between two optional bounds. */
  predicate Between(low: Option<Rank>, r: Rank, high: Option<Rank>) {
    (low.Some? ==> Leq(low.value, r)) && (high.Some? ==> Leq(r, high.value))
  }

  /**
   Partition `lo..hi` around its last element and return where that element ended up. Bounds
   on the values of the range stay bounds, and nothing outside the range moves.
   */
  method Partition(a: array<Rank>, lo: nat, hi: nat, ghost low: Option<Rank>, ghost high: Option<Rank>) returns (p: nat)
    requires lo < hi <= a.Length
    requires forall k :: lo <= k < hi ==> Between(low, a[k], high)
    modifies a
    ensures lo <= p < hi && multiset(a[..]) == multiset(old(a[..]))
    ensures forall k :: 0 <= k < lo || hi <= k < a.Length ==> a[k] == old(a[k])
    ensures forall k :: lo <= k < hi ==> Between(low, a[k], high)
    ensures forall k :: lo <= k < p ==> Leq(a[k], a[p])
    ensures forall k :: p <= k < hi ==> Leq(a[p], a[k])
  {
    hide Less;
    hide Between;
    var pivot := a[hi - 1];
    p := lo;
    for j := lo to hi - 1
      invariant lo <= p <= j && a[hi - 1] == pivot
      invariant multiset(a[..]) == multiset(old(a[..]))
      invariant forall k :: 0 <= k < lo || hi <= k < a.Length ==> a[k] == old(a[k])
      invariant forall k :: lo <= k < hi ==> Between(low, a[k], high)
      invariant forall k :: lo <= k < p ==> Leq(a[k], pivot)
      invariant forall k :: p <= k < j ==> Leq(pivot, a[k])
    {
      if Less(a[j], pivot) {
        LessIsLeq(a[j], pivot);
        Swap(a, p, j);
        p := p + 1;
      }
    }
    LeqReflexive(pivot);
    Swap(a, p, hi - 1);
  }

  /** The left part up to `lo` is below its last element, the right part from `hi` above its first. */
  predicate Settled(s: seq<Rank>, lo: nat, hi: nat)
    requires lo <= hi <= |s|
  {
    && (forall k :: 0 <= k < lo ==> Leq(s[k], s[lo - 1]))
    && (forall k :: hi <= k < |s| ==> Leq(s[hi], s[k]))
    && (forall k :: lo <= k < hi ==> Between(LowBound(s, lo), s[k], HighBound(s, hi)))
  }

  function LowBound(s: seq<Rank>, lo: nat): Option<Rank>
    requires lo <= |s|
  {
    if lo == 0 then None else Some(s[lo - 1])
  }

  function HighBound(s: seq<Rank>, hi: nat): Option<Rank>
    requires hi <= |s|
  {
    if hi == |s| then None else Some(s[hi])
  }

  predicate Selected(s: seq<Rank>, idx: nat)
    requires idx < |s|
  {
    && (forall k :: 0 <= k <= idx ==> Leq(s[k], s[idx]))
    && (forall k :: idx <= k < |s| ==> Leq(s[idx], s[k]))
  }

  /** `select_nth_unstable_by`: put the element of rank `idx` in place, smaller ones before it. */
  method SelectNth(a: array<Rank>, idx: nat)
    requires idx < a.Length
    modifies a
    ensures multiset(a[..]) == multiset(old(a[..]))
    ensures Selected(a[..], idx)
  {
    var lo, hi := 0, a.Length;
    while true
      invariant 0 <= lo <= idx < hi <= a.Length
      invariant multiset(a[..]) == multiset(old(a[..]))
      invariant Settled(a[..], lo, hi)
      decreases hi - lo
    {
      ghost var s := a[..];
      var p := Partition(a, lo, hi, LowBound(s, lo), HighBound(s, hi));
      PartitionSettles(s, a[..], lo, p, hi);
      if p == idx {
        return;
      } else if idx < p {
        hi := p;
      } else {
        lo := p + 1;
      }
    }
  }

  lemma PartitionSettles(s: seq<Rank>, t: seq<Rank>, lo: nat, p: nat, hi: nat)
    requires lo <= p < hi <= |s| == |t| && Settled(s, lo, hi)
    requires forall k :: 0 <= k < lo || hi <= k < |s| ==> t[k] == s[k]
    requires forall k :: lo <= k < hi ==> Between(LowBound(s, lo), t[k], HighBound(s, hi))
    requires forall k :: lo <= k < p ==> Leq(t[k], t[p])
    requires forall k :: p <= k < hi ==> Leq(t[p], t[k])
    ensures Settled(t, lo, p) && Settled(t, p + 1, hi) && Selected(t, p)
  {
    forall k | 0 <= k < |t|
      ensures k < lo ==> t[k] == s[k] && Leq(t[k], t[p])
      ensures k >= hi ==> t[k] == s[k] && Leq(t[p], t[k])
    {
      if k < lo {
        assert t[lo - 1] == s[lo - 1];
        assert Between(LowBound(s, lo), t[p], HighBound(s, hi));
      } else if k >= hi {
        assert t[hi] == s[hi];
        assert Between(LowBound(s, lo), t[p], HighBound(s, hi));
      }
    }
  }

  // ----- eviction on values

  ghost function AtMostKeys<K>(m: map<K, HotEntry>, t: Rank): set<K> {
    set k | k in m && Leq(RankOf(m[k]), t)
  }

  ghost function BelowKeys<K>(m: map<K, HotEntry>, t: Rank): set<K> {
    set k | k in m && Less(RankOf(m[k]), t)
  }

  /** `t` is what position `idx` holds when all ranks are sorted in ascending order. */
  ghost predicate NthRank<K(!new)>(m: map<K, HotEntry>, idx: nat, t: Rank) {
    |BelowKeys(m, t)| <= idx < |AtMostKeys(m, t)|
  }

  /** How many to drop: what exceeds the capacity and a tenth of it besides, always leaving one. */
  function Batch(len: nat, capacity: nat): (r: nat)
    ensures r >= 1 && (len >= 2 ==> r <= len - 1)
  {
    var overflow := if len >= capacity then len - capacity else 0;
    var wanted := overflow + capacity / 10 + 1;
    var batch := if wanted <= len - 1 then wanted else len - 1;
    if batch >= 1 then batch else 1
  }

  function Retain<K>(m: map<K, HotEntry>, protect: K, t: Rank): map<K, HotEntry> {
    map k | k in m && (k == protect || Less(t, RankOf(m[k]))) :: m[k]
  }

  /** One eviction pass: drop everything at or below the threshold except the protected key. */
  ghost predicate Evicts<K(!new)>(m: map<K, HotEntry>, r: map<K, HotEntry>, protect: K, capacity: nat) {
    exists t :: NthRank(m, Batch(|m|, capacity), t) && r == Retain(m, protect, t)
  }

  /** There is only one rank at a position, so a pass is deterministic. */
  lemma NthRankUnique<K(!new)>(m: map<K, HotEntry>, idx: nat, t: Rank, u: Rank)
    requires NthRank(m, idx, t) && NthRank(m, idx, u)
    ensures t == u
  {
    if Less(t, u) {
      SubsetCardinality(AtMostKeys(m, t), BelowKeys(m, u));
    } else if Less(u, t) {
      SubsetCardinality(AtMostKeys(m, u), BelowKeys(m, t));
    }
  }

  lemma RetainCount<K(!new)>(m: map<K, HotEntry>, protect: K, t: Rank)
    requires protect in m
    ensures |Retain(m, protect, t)| == |m| - |AtMostKeys(m, t)| + (if Leq(RankOf(m[protect]), t) then 1 else 0)
  {
    var r, low := Retain(m, protect, t), AtMostKeys(m, t);
    assert low <= m.Keys;
    assert |m.Keys - low| == |m.Keys| - |low|;
    assert r.Keys == (m.Keys - low) + {protect};
    assert |m| == |m.Keys| && |r| == |r.Keys|;
    if protect in low {
      assert (m.Keys - low) !! {protect};
    } else {
      assert r.Keys == m.Keys - low;
    }
  }

  /**
   Eviction is correct: the pass ends within capacity with the observed key present, everything
   that survives besides it ranks strictly above everything dropped, and at least a whole batch
   is dropped.
   */
  lemma EvictionCorrect<K(!new)>(m: map<K, HotEntry>, r: map<K, HotEntry>, protect: K, capacity: nat)
    requires capacity >= 1 && |m| > capacity && protect in m && Evicts(m, r, protect, capacity)
    ensures |r| <= capacity && |r| <= |m| - Batch(|m|, capacity)
    ensures protect in r && r.Keys <= m.Keys && forall k :: k in r ==> r[k] == m[k]
    ensures forall a, b :: a in r && a != protect && b in m && b !in r ==> Less(RankOf(m[b]), RankOf(m[a]))
  {
    var t :| NthRank(m, Batch(|m|, capacity), t) && r == Retain(m, protect, t);
    RetainCount(m, protect, t);
    forall a, b | a in r && a != protect && b in m && b !in r
      ensures Less(RankOf(m[b]), RankOf(m[a]))
    {
      assert Less(t, RankOf(m[a])) && Leq(RankOf(m[b]), t);
    }
  }

  /** Less popular, or as popular and seen earlier. */
  predicate Colder(a: HotEntry, b: HotEntry) {
    a.score < b.score || (a.score == b.score && a.lastSeen < b.lastSeen)
  }

  ghost function ColderThan<K>(m: map<K, HotEntry>, k: K): set<K>
    requires k in m
  {
    set x | x in m && Colder(m[x], m[k])
  }

  /**
   Who goes, in terms of scores and times: besides the observed key, every dropped entry is colder
   than every survivor, and at most the overflow, a tenth of the capacity and one are colder than
   a dropped entry, so a pass never reaches further up.
   */
  lemma ColdestGo<K(!new)>(m: map<K, HotEntry>, r: map<K, HotEntry>, protect: K, capacity: nat)
    requires capacity >= 1 && |m| > capacity && protect in m && Evicts(m, r, protect, capacity)
    ensures forall a, b :: a in r && a != protect && b in m && b !in r ==> Colder(m[b], m[a])
    ensures forall k :: k in m && k !in r ==> |ColderThan(m, k)| <= |m| - capacity + capacity / 10 + 1
    ensures (forall a, b :: a in m && b in m && m[a].score == m[b].score && m[a].lastSeen == m[b].lastSeen ==> a == b) ==>
              |m| - |r| <= |m| - capacity + capacity / 10 + 2
  {
    EvictionCorrect(m, r, protect, capacity);
    var t :| NthRank(m, Batch(|m|, capacity), t) && r == Retain(m, protect, t);
    forall k | k in m && k !in r
      ensures |ColderThan(m, k)| <= |m| - capacity + capacity / 10 + 1
    {
      assert Leq(RankOf(m[k]), t);
      SubsetCardinality(ColderThan(m, k), BelowKeys(m, t));
    }
    if forall a, b :: a in m && b in m && m[a].score == m[b].score && m[a].lastSeen == m[b].lastSeen ==> a == b {
      EvictionExact(m, r, protect, capacity);
    }
  }

  /** Decay is due: a second has passed and the factor for it is not too close to one. */
  predicate DecayDue(elapsed: nat, factor: nat -> real) {
    elapsed >= 1_000_000_000 && factor(elapsed) < 0.999
  }

  /** What an entry's score is worth when the time since the last decay has been taken off. */
  function Worth(score: real, elapsed: nat, factor: nat -> real): real {
    if DecayDue(elapsed, factor) then HotTransitions.Scaled(score, factor(elapsed)) else score
  }

  /** The entry is still tracked after that: decay drops the faint. */
  predicate Lasts(score: real, elapsed: nat, factor: nat -> real) {
    DecayDue(elapsed, factor) ==> HotTransitions.Scaled(score, factor(elapsed)) > 0.01
  }

  /**
   What an observation counts: the key's score is what it was worth and one, its hits go up by one
   and it was seen now; every other surviving entry has what it was worth and is otherwise as it was.
   */
  lemma ObservationCounts<K(!new)>(m: map<K, HotEntry>, r: map<K, HotEntry>, key: K, now: nat, elapsed: nat, factor: nat -> real, capacity: nat)
    requires capacity >= 1 && Observes(m, r, key, now, elapsed, factor, capacity)
    ensures var known := key in m && Lasts(m[key].score, elapsed, factor);
            && key in r && r[key].lastSeen == now
            && r[key].score == (if known then Worth(m[key].score, elapsed, factor) else 0.0) + 1.0
            && r[key].hits == (if known then m[key].hits else 0) + 1
            && forall k :: k in r && k != key ==>
                 k in m && Lasts(m[k].score, elapsed, factor) && r[k] == m[k].(score := Worth(m[k].score, elapsed, factor))
  {
    hide HotTransitions.Scaled;
    var d := Decayed(m, elapsed, factor);
    var t := Touched(d, key, now);
    forall k
      ensures k in d <==> k in m && Lasts(m[k].score, elapsed, factor)
      ensures k in d ==> d[k] == m[k].(score := Worth(m[k].score, elapsed, factor))
    {
    }
    hide Decayed, Lasts, Worth;
    if |t| > capacity {
      EvictionCorrect(t, r, key, capacity);
    }
  }

  /** Transition weights fade with the scores, and rows left empty go. */
  lemma TransitionsDecay<K(!new)>(rows: map<K, HotTransitions.Row<K>>, elapsed: nat, factor: nat -> real, a: K, b: K)
    ensures var next := DecayedRows(rows, elapsed, factor);
            (a in next && b in next[a] <==> a in rows && b in rows[a] && Lasts(rows[a][b], elapsed, factor))
            && (a in next && b in next[a] ==> next[a][b] == Worth(rows[a][b], elapsed, factor))
  {
    if DecayDue(elapsed, factor) && a in rows {
      var f := HotTransitions.FadedRow(rows[a], factor(elapsed));
      assert b in f ==> f != map[];
    }
  }

  /**
   Decay with a factor below one lowers every score, keeps who is colder than whom among what it
   keeps, touches nothing else and drops exactly the faint.
   */
  lemma DecayKeepsOrder<K(!new)>(m: map<K, HotEntry>, factor: real)
    requires 0.0 < factor < 1.0
    ensures forall k :: k in m && m[k].score * factor > 0.01 <==> k in Faded(m, factor)
    ensures forall k :: k in Faded(m, factor) ==>
              0.0 < Faded(m, factor)[k].score < m[k].score && Faded(m, factor)[k].(score := m[k].score) == m[k]
    ensures forall a, b :: a in Faded(m, factor) && b in Faded(m, factor) ==>
              (Colder(Faded(m, factor)[a], Faded(m, factor)[b]) <==> Colder(m[a], m[b]))
  {
    var f := Faded(m, factor);
    forall k | k in f
      ensures 0.0 < f[k].score < m[k].score
    {
      NotPositive(m[k].score, factor);
      PartOfPositive(m[k].score, factor);
    }
    forall a, b | a in f && b in f
      ensures Colder(f[a], f[b]) <==> Colder(m[a], m[b])
    {
      KeepsOrder(m[a].score, m[b].score, factor);
    }
  }

  lemma PartOfPositive(x: real, factor: real)
    requires factor < 1.0 && x > 0.0
    ensures x * factor < x
  {
    var gap := 1.0 - factor;
    assert x * (factor + gap) == x * factor + x * gap;
    assert x * gap > 0.0;
  }

  lemma NotPositive(x: real, factor: real)
    requires factor > 0.0
    ensures x <= 0.0 ==> x * factor <= 0.0
  {
  }

  lemma KeepsOrder(x: real, y: real, factor: real)
    requires factor > 0.0
    ensures x * factor < y * factor <==> x < y
    ensures x * factor == y * factor <==> x == y
  {
    assert (y - x) * factor == y * factor - x * factor;
  }

  /** With pairwise different ranks the pass drops exactly the batch, or one more. */
  lemma EvictionExact<K(!new)>(m: map<K, HotEntry>, r: map<K, HotEntry>, protect: K, capacity: nat)
    requires capacity >= 1 && |m| > capacity && protect in m && Evicts(m, r, protect, capacity)
    requires forall a, b :: a in m && b in m && RankOf(m[a]) == RankOf(m[b]) ==> a == b
    ensures Batch(|m|, capacity) <= |m| - |r| <= Batch(|m|, capacity) + 1
  {
    var idx := Batch(|m|, capacity);
    var t :| NthRank(m, idx, t) && r == Retain(m, protect, t);
    RetainCount(m, protect, t);
    var low, below := AtMostKeys(m, t), BelowKeys(m, t);
    var k := OneMore(below, low);
    forall x | x in low
      ensures x in below || x == k
    {
      assert x !in below ==> RankOf(m[x]) == t;
      assert RankOf(m[k]) == t;
    }
    assert low == below + {k};
  }

  lemma OneMore<T>(a: set<T>, b: set<T>) returns (x: T)
    requires a <= b && |a| < |b|
    ensures x in b && x !in a
  {
    assert a != b;
    x :| x in b && x !in a;
  }

  /** When all ranks tie, a pass drops everything except the observed key. */
  lemma TiesWipeTheSet<K(!new)>(m: map<K, HotEntry>, r: map<K, HotEntry>, protect: K, capacity: nat)
    requires capacity >= 1 && |m| > capacity && protect in m && Evicts(m, r, protect, capacity)
    requires forall a, b :: a in m && b in m ==> RankOf(m[a]) == RankOf(m[b])
    ensures r == map[protect := m[protect]]
  {
    var idx := Batch(|m|, capacity);
    var t :| NthRank(m, idx, t) && r == Retain(m, protect, t);
    var k :| k in AtMostKeys(m, t);
    assert forall x :: x in m ==> RankOf(m[x]) == RankOf(m[k]);
  }

  // ----- from the selected array to the threshold

  ghost predicate Lists<K>(m: map<K, HotEntry>, keys: seq<K>) {
    Distinct(keys) && ToSet(keys) == m.Keys
  }

  function RanksOf<K>(m: map<K, HotEntry>, keys: seq<K>): seq<Rank>
    requires forall k :: k in keys ==> k in m
  {
    if keys == [] then []
    else
      var last := |keys| - 1;
      assert keys[last] in keys;
      RanksOf(m, keys[..last]) + [RankOf(m[keys[last]])]
  }

  ghost function Picked<K>(m: map<K, HotEntry>, keys: seq<K>, p: Rank -> bool): set<K> {
    set k | k in keys && k in m && p(RankOf(m[k]))
  }

  lemma PickedSnoc<K>(m: map<K, HotEntry>, keys: seq<K>, x: K, p: Rank -> bool)
    requires x in m && x !in keys
    ensures |Picked(m, keys + [x], p)| == |Picked(m, keys, p)| + if p(RankOf(m[x])) then 1 else 0
  {
    assert Picked(m, keys + [x], p) == Picked(m, keys, p) + if p(RankOf(m[x])) then {x} else {};
    assert x !in Picked(m, keys, p);
  }

  lemma {:induction false} CountKeys<K>(m: map<K, HotEntry>, keys: seq<K>, p: Rank -> bool)
    requires Distinct(keys) && forall k :: k in keys ==> k in m
    ensures |Picked(m, keys, p)| == Count(p, RanksOf(m, keys))
    ensures |RanksOf(m, keys)| == |keys|
  {
    if keys == [] {
      assert Picked(m, keys, p) == {};
    } else {
      var last := |keys| - 1;
      var x, init := keys[last], keys[..last];
      assert x in keys && x !in init && keys == init + [x];
      hide Picked;
      CountKeys(m, init, p);
      CountSnoc(p, RanksOf(m, init), RankOf(m[x]));
      PickedSnoc(m, init, x, p);
    }
  }

  lemma SelectedCounts(s: seq<Rank>, idx: nat)
    requires idx < |s| && Selected(s, idx)
    ensures Count(Below(s[idx]), s) <= idx < Count(AtMost(s[idx]), s)
  {
    CountPrefix(AtMost(s[idx]), s, idx + 1);
    CountSuffix(Below(s[idx]), s, idx);
  }

  lemma SelectedIsNth<K(!new)>(m: map<K, HotEntry>, keys: seq<K>, s: seq<Rank>, idx: nat)
    requires Lists(m, keys) && (forall k :: k in keys ==> k in m)
    requires multiset(s) == multiset(RanksOf(m, keys)) && idx < |s| && Selected(s, idx)
    ensures NthRank(m, idx, s[idx])
  {
    var t := s[idx];
    SelectedCounts(s, idx);
    CountKeys(m, keys, AtMost(t));
    CountKeys(m, keys, Below(t));
    CountMultiset(AtMost(t), s, RanksOf(m, keys));
    CountMultiset(Below(t), s, RanksOf(m, keys));
    hide Selected;
    hide RanksOf;
    hide Count;
    forall k
      ensures k in keys <==> k in m
    {
      assert k in ToSet(keys) <==> k in m.Keys;
    }
    assert AtMostKeys(m, t) == Picked(m, keys, AtMost(t));
    assert BelowKeys(m, t) == Picked(m, keys, Below(t));
  }

  // ----- the tracker

  function Touched<K>(m: map<K, HotEntry>, key: K, now: nat): map<K, HotEntry> {
    var e := if key in m then m[key] else HotEntry(0.0, 0, now, None);
    m[key := e.(score := e.score + 1.0, hits := e.hits + 1, lastSeen := now)]
  }

  function Faded<K>(m: map<K, HotEntry>, factor: real): map<K, HotEntry> {
    map k | k in m && HotTransitions.Scaled(m[k].score, factor) > 0.01 :: m[k].(score := HotTransitions.Scaled(m[k].score, factor))
  }

  /** `saturating_duration_since`. */
  function Elapsed(start: nat, now: nat): nat {
    if now >= start then now - start else 0
  }

  /** The map after decay, for the time since the last one. */
  function Decayed<K>(m: map<K, HotEntry>, elapsed: nat, factor: nat -> real): map<K, HotEntry> {
    if elapsed < NANOS_PER_SEC || factor(elapsed) >= 0.999 then m else Faded(m, factor(elapsed))
  }

  /** The transition table after the same decay. */
  function DecayedRows<K>(rows: map<K, HotTransitions.Row<K>>, elapsed: nat, factor: nat -> real): map<K, HotTransitions.Row<K>> {
    if elapsed < NANOS_PER_SEC || factor(elapsed) >= 0.999 then rows else HotTransitions.Faded(rows, factor(elapsed))
  }

  /** `observe` on the map: decay, count the key, evict when over the ceiling. */
  ghost predicate Observes<K(!new)>(m: map<K, HotEntry>, r: map<K, HotEntry>, key: K, now: nat, elapsed: nat, factor: nat -> real, capacity: nat) {
    var t := Touched(Decayed(m, elapsed, factor), key, now);
    if |t| <= capacity then r == t else Evicts(t, r, key, capacity)
  }

  class HotSet<K(==, !new)> {
    const capacity: nat
    const factor: nat -> real
    const transitions: HotTransitions.Transitions<K>
    var entries: map<K, HotEntry>
    var lastDecay: nat

    ghost predicate Valid()
      reads this, transitions
    {
      capacity >= 1 && |entries| <= capacity && transitions.Valid()
    }

    constructor (capacity: nat, factor: nat -> real, transitionCapacity: nat, now: nat)
      ensures Valid() && entries == map[] && lastDecay == now
      ensures this.capacity == (if capacity >= 1 then capacity else 1) && this.factor == factor
      ensures fresh(transitions) && transitions.rows == map[] && transitions.capacity == transitionCapacity
    {
      this.capacity := if capacity >= 1 then capacity else 1;
      this.factor := factor;
      transitions := new HotTransitions.Transitions(transitionCapacity);
      entries := map[];
      lastDecay := now;
    }

    /** The ranks of all entries, in some order. */
    method CollectRanks() returns (a: array<Rank>, ghost keys: seq<K>)
      ensures fresh(a) && Lists(entries, keys) && (forall k :: k in keys ==> k in entries)
      ensures a[..] == RanksOf(entries, keys)
    {
      var rest := entries.Keys;
      var ranks: seq<Rank> := [];
      keys := [];
      while rest != {}
        invariant rest <= entries.Keys && ToSet(keys) == entries.Keys - rest
        invariant Distinct(keys) && (forall k :: k in keys ==> k in entries)
        invariant ranks == RanksOf(entries, keys)
        decreases rest
      {
        var k :| k in rest;
        rest := rest - {k};
        assert k !in ToSet(keys);
        assert (keys + [k])[..|keys|] == keys;
        DistinctConcat(keys, [k]);
        assert ToSet(keys + [k]) == ToSet(keys) + {k};
        keys := keys + [k];
        ranks := ranks + [RankOf(entries[k])];
      }
      a := new Rank[|ranks|](i requires 0 <= i < |ranks| => ranks[i]);
      assert a[..] == ranks;
    }

    /** The second clean-up pass: remove arbitrary keys while over the ceiling. */
    method TrimOverflow(protect: K)
      requires capacity >= 1
      modifies this`entries
      ensures |old(entries)| <= capacity ==> entries == old(entries)
      ensures |old(entries)| > capacity ==> |entries| == capacity
      ensures protect in old(entries) ==> protect in entries
      ensures entries.Keys <= old(entries.Keys)
    {
      while |entries| > capacity
        invariant |entries| <= |old(entries)| && entries.Keys <= old(entries.Keys)
        invariant |old(entries)| <= capacity ==> entries == old(entries)
        invariant |old(entries)| > capacity ==> |entries| >= capacity
        invariant protect in old(entries) ==> protect in entries
        decreases |entries|
      {
        assert exists k :: k in entries && k != protect by {
          assert |entries| == |entries.Keys|;
          SubsetCardinality(entries.Keys, if forall k :: k in entries ==> k == protect then {protect} else entries.Keys);
        }
        var k :| k in entries && k != protect;
        ghost var before := entries.Keys;
        entries := entries - {k};
        assert entries.Keys == before - {k};
        assert |entries| == |entries.Keys|;
      }
    }

    /** One eviction pass: select the threshold in place, drop up to it. The clean-up after it changes nothing. */
    method EvictLocked(protect: K)
      requires capacity >= 1 && |entries| > capacity && protect in entries
      modifies this`entries
      ensures Evicts(old(entries), entries, protect, capacity)
      ensures |entries| <= capacity && protect in entries
    {
      ghost var m := entries;
      var a, keys := CollectRanks();
      DistinctCardinality(keys);
      CountKeys(entries, keys, AtMost(Rank(0.0, 0)));
      var idx := Batch(|entries|, capacity);
      assert |entries| == |entries.Keys|;
      SelectNth(a, idx);
      SelectedIsNth(m, keys, a[..], idx);
      entries := Retain(entries, protect, a[idx]);
      assert Evicts(m, entries, protect, capacity);
      EvictionCorrect(m, entries, protect, capacity);
      TrimOverflow(protect);
    }

    /** Fade scores and transition weights for the time since the last decay. */
    method DecayLocked(now: nat)
      requires transitions.Valid()
      modifies this, transitions
      ensures transitions.Valid()
      ensures entries == Decayed(old(entries), Elapsed(old(lastDecay), now), factor)
      ensures transitions.rows == DecayedRows(old(transitions.rows), Elapsed(old(lastDecay), now), factor)
      ensures lastDecay == if Elapsed(old(lastDecay), now) < NANOS_PER_SEC then old(lastDecay) else now
    {
      var elapsed := Elapsed(lastDecay, now);
      if elapsed < NANOS_PER_SEC {
        return;
      }
      if factor(elapsed) < 0.999 {
        entries := Faded(entries, factor(elapsed));
        transitions.Decay(factor(elapsed));
      }
      lastDecay := now;
    }

    /** Record an observation of `key`, and of the transition from the key that preceded it. */
    method Observe(key: K, previous: Option<K>, now: nat)
      requires Valid()
      modifies this, transitions
      ensures Valid() && key in entries
      ensures Observes(old(entries), entries, key, now, Elapsed(old(lastDecay), now), factor, capacity)
      ensures var rows := DecayedRows(old(transitions.rows), Elapsed(old(lastDecay), now), factor);
              if transitions.capacity == 0 || previous.None? || previous == Some(key) then transitions.rows == rows
              else HotTransitions.Noted(rows, transitions.rows, previous.value, key, transitions.capacity)
      ensures lastDecay == if Elapsed(old(lastDecay), now) < NANOS_PER_SEC then old(lastDecay) else now
    {
      hide Evicts, Decayed, DecayedRows, HotTransitions.RowsOk, HotTransitions.Noted;
      DecayLocked(now);
      var e := if key in entries then entries[key] else HotEntry(0.0, 0, now, None);
      entries := entries[key := e.(score := e.score + 1.0, hits := e.hits + 1, lastSeen := now)];
      if |entries| > capacity {
        EvictLocked(key);
      }
      transitions.Note(key, previous);
    }
  }

  // ----- amortisation over runs

  /** One observation of a run: the map before and after, and the decay in between. */
  datatype Observation<K> = Observation(key: K, now: nat, elapsed: nat)

  ghost predicate RunOf<K(!new)>(ms: seq<map<K, HotEntry>>, obs: seq<Observation<K>>, factor: nat -> real, capacity: nat) {
    && |ms| == |obs| + 1
    && forall i :: 0 <= i < |obs| ==> Observes(ms[i], ms[i + 1], obs[i].key, obs[i].now, obs[i].elapsed, factor, capacity)
  }

  /** The observation met a key that was not tracked (any more). */
  predicate IsNew<K>(m: map<K, HotEntry>, o: Observation<K>, factor: nat -> real) {
    o.key !in Decayed(m, o.elapsed, factor)
  }

  /** The observation ran an eviction pass. */
  predicate IsPass<K>(m: map<K, HotEntry>, o: Observation<K>, factor: nat -> real, capacity: nat) {
    |Touched(Decayed(m, o.elapsed, factor), o.key, o.now)| > capacity
  }

  function NewKeys<K>(ms: seq<map<K, HotEntry>>, obs: seq<Observation<K>>, factor: nat -> real, lo: nat, hi: nat): nat
    requires lo <= hi <= |obs| && |ms| == |obs| + 1
    decreases hi
  {
    if lo == hi then 0
    else NewKeys(ms, obs, factor, lo, hi - 1) + if IsNew(ms[hi - 1], obs[hi - 1], factor) then 1 else 0
  }

  lemma TouchedSize<K(!new)>(m: map<K, HotEntry>, o: Observation<K>, factor: nat -> real)
    ensures |Touched(Decayed(m, o.elapsed, factor), o.key, o.now)| <= |m| + if IsNew(m, o, factor) then 1 else 0
  {
    var d := Decayed(m, o.elapsed, factor);
    assert d.Keys <= m.Keys;
    SubsetCardinality(d.Keys, m.Keys);
    assert |d| == |d.Keys| && |m| == |m.Keys|;
    var t := Touched(d, o.key, o.now);
    assert t.Keys == d.Keys + {o.key};
    assert |t| == |t.Keys|;
  }

  /** A pass from a map within capacity leaves more than a tenth of the ceiling free. */
  lemma PassLeavesRoom<K(!new)>(m: map<K, HotEntry>, r: map<K, HotEntry>, o: Observation<K>, factor: nat -> real, capacity: nat)
    requires capacity >= 2 && |m| <= capacity && IsPass(m, o, factor, capacity)
    requires Observes(m, r, o.key, o.now, o.elapsed, factor, capacity)
    ensures |r| <= capacity - capacity / 10 - 1
  {
    TouchedSize(m, o, factor);
    var t := Touched(Decayed(m, o.elapsed, factor), o.key, o.now);
    EvictionCorrect(t, r, o.key, capacity);
  }

  lemma {:induction false} GrowthIsNewKeys<K(!new)>(ms: seq<map<K, HotEntry>>, obs: seq<Observation<K>>, factor: nat -> real, capacity: nat, lo: nat, hi: nat)
    requires RunOf(ms, obs, factor, capacity) && lo <= hi <= |obs|
    requires forall i :: lo <= i < hi ==> !IsPass(ms[i], obs[i], factor, capacity)
    ensures |ms[hi]| <= |ms[lo]| + NewKeys(ms, obs, factor, lo, hi)
    decreases hi
  {
    hide Decayed;
    hide Touched;
    hide Evicts;
    if lo < hi {
      GrowthIsNewKeys(ms, obs, factor, capacity, lo, hi - 1);
      TouchedSize(ms[hi - 1], obs[hi - 1], factor);
      assert !IsPass(ms[hi - 1], obs[hi - 1], factor, capacity);
      assert Observes(ms[hi - 1], ms[hi], obs[hi - 1].key, obs[hi - 1].now, obs[hi - 1].elapsed, factor, capacity);
    }
  }

  /** Every state of a run stays within capacity. */
  lemma {:induction false} RunWithinCapacity<K(!new)>(ms: seq<map<K, HotEntry>>, obs: seq<Observation<K>>, factor: nat -> real, capacity: nat, i: nat)
    requires capacity >= 1 && RunOf(ms, obs, factor, capacity) && |ms[0]| <= capacity && i <= |obs|
    ensures |ms[i]| <= capacity
  {
    if i > 0 {
      var o := obs[i - 1];
      assert Observes(ms[i - 1], ms[i], o.key, o.now, o.elapsed, factor, capacity);
      var t := Touched(Decayed(ms[i - 1], o.elapsed, factor), o.key, o.now);
      assert o.key in t;
      hide Touched, Decayed, Evicts;
      if |t| > capacity {
        EvictionCorrect(t, ms[i], o.key, capacity);
      }
    }
  }

  /**
   Amortisation: between two consecutive passes, more than a tenth of the ceiling in new keys
   has to arrive. It holds for every run, whatever decay does in between.
   */
  lemma PassesAreAmortised<K(!new)>(ms: seq<map<K, HotEntry>>, obs: seq<Observation<K>>, factor: nat -> real, capacity: nat, p: nat, q: nat)
    requires capacity >= 2 && RunOf(ms, obs, factor, capacity) && p < q < |obs|
    requires |ms[0]| <= capacity
    requires IsPass(ms[p], obs[p], factor, capacity) && IsPass(ms[q], obs[q], factor, capacity)
    requires forall i :: p < i < q ==> !IsPass(ms[i], obs[i], factor, capacity)
    ensures NewKeys(ms, obs, factor, p + 1, q + 1) > capacity / 10 + 1
  {
    hide Decayed;
    hide Touched;
    hide Evicts;
    assert Observes(ms[p], ms[p + 1], obs[p].key, obs[p].now, obs[p].elapsed, factor, capacity);
    RunWithinCapacity(ms, obs, factor, capacity, p);
    PassLeavesRoom(ms[p], ms[p + 1], obs[p], factor, capacity);
    GrowthIsNewKeys(ms, obs, factor, capacity, p + 1, q);
    TouchedSize(ms[q], obs[q], factor);
  }
}
