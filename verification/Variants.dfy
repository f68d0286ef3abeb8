/** The bounded set of complete answer variants kept for one cache key. */
module Variants {
  import opened Seqs
  import opened Sorting
  import Messages

  const SECOND := 1_000_000_000

  datatype Dnssec = Secure | Insecure | Bogus | Indeterminate

  datatype Msg = Msg(
    answers: seq<Messages.Record>, authorities: seq<Messages.Record>, additionals: seq<Messages.Record>)

  /** `saturating_duration_since`, in nanoseconds. */
  function Elapsed(received: nat, now: nat): nat {
    if now >= received then now - received else 0
  }

  datatype Variant = Variant(fingerprint: Messages.U64, message: Msg, source: string, observedAt: nat, ttl: nat, dnssec: Dnssec)
  datatype VariantSet = VariantSet(variants: seq<Variant>, selected: Option<Messages.U64>, selectedAt: Option<nat>)

  const MAX_VARIANTS := 4

  predicate IsValid(v: Variant, now: nat) {
    Elapsed(v.observedAt, now) / SECOND < v.ttl
  }

  function Keeps(fingerprint: Messages.U64, now: nat): Variant -> bool {
    (v: Variant) => v.fingerprint != fingerprint && IsValid(v, now)
  }

  function Older(): (Variant, Variant) -> bool {
    (v: Variant, w: Variant) => v.observedAt <= w.observedAt
  }

  function FingerprintOf(): Variant -> Messages.U64 {
    (v: Variant) => v.fingerprint
  }

  function Trimmed(all: seq<Variant>): seq<Variant> {
    if |all| > MAX_VARIANTS then
      SortPermutes(all, Older());
      Sort(all, Older())[|all| - MAX_VARIANTS..]
    else all
  }

  function Recorded(variants: seq<Variant>, record: Variant, now: nat): seq<Variant> {
    Trimmed(Filter(Keeps(record.fingerprint, now), variants) + [record])
  }

  predicate Canonical(variants: seq<Variant>) {
    |variants| <= MAX_VARIANTS && DistinctBy(variants, FingerprintOf())
  }

  // ----- recording

  lemma OlderIsOrder()
    ensures TotalPreorder(Older())
  {
  }

  lemma KeptDistinct(variants: seq<Variant>, record: Variant, now: nat)
    requires DistinctBy(variants, FingerprintOf())
    ensures DistinctBy(Filter(Keeps(record.fingerprint, now), variants) + [record], FingerprintOf())
  {
    var p := Keeps(record.fingerprint, now);
    var kept := Filter(p, variants);
    FilterDistinctBy(p, variants, FingerprintOf());
    forall i | 0 <= i < |kept|
      ensures kept[i].fingerprint != record.fingerprint
    {
      FilterMember(p, variants, kept[i]);
    }
  }

  lemma SortedDistinctBy(s: seq<Variant>)
    requires DistinctBy(s, FingerprintOf())
    ensures DistinctBy(Sort(s, Older()), FingerprintOf())
  {
    assert Distinct(s) by {
      forall i, j | 0 <= i < j < |s|
        ensures s[i] != s[j]
      {
        assert FingerprintOf()(s[i]) != FingerprintOf()(s[j]);
      }
    }
    SortDistinct(s, Older());
    SortPermutes(s, Older());
    DistinctWithin(Sort(s, Older()), s);
  }

  lemma DistinctWithin(t: seq<Variant>, s: seq<Variant>)
    requires Distinct(t) && DistinctBy(s, FingerprintOf()) && forall v :: v in t ==> v in s
    ensures DistinctBy(t, FingerprintOf())
  {
    forall i, j | 0 <= i < j < |t|
      ensures FingerprintOf()(t[i]) != FingerprintOf()(t[j])
    {
      assert t[i] in s && t[j] in s;
      var a :| 0 <= a < |s| && s[a] == t[i];
      var b :| 0 <= b < |s| && s[b] == t[j];
      assert a != b;
      if a < b {
        assert FingerprintOf()(s[a]) != FingerprintOf()(s[b]);
      } else {
        assert FingerprintOf()(s[b]) != FingerprintOf()(s[a]);
      }
    }
  }

  lemma TrimmedCanonical(all: seq<Variant>)
    requires DistinctBy(all, FingerprintOf())
    ensures Canonical(Trimmed(all))
  {
    SortPermutes(all, Older());
    SortedDistinctBy(all);
  }

  lemma RecordedCanonical(variants: seq<Variant>, record: Variant, now: nat)
    requires Canonical(variants)
    ensures Canonical(Recorded(variants, record, now))
  {
    KeptDistinct(variants, record, now);
    TrimmedCanonical(Filter(Keeps(record.fingerprint, now), variants) + [record]);
  }

  /** Overflow by one drops one observation, and no survivor is older than it. */
  lemma TrimmedDropsOldest(all: seq<Variant>) returns (dropped: Variant)
    requires |all| == MAX_VARIANTS + 1
    ensures dropped in all && multiset(Trimmed(all)) == multiset(all) - multiset{dropped}
    ensures forall v :: v in Trimmed(all) ==> dropped.observedAt <= v.observedAt
  {
    var sorted := Sort(all, Older());
    SortPermutes(all, Older());
    OlderIsOrder();
    SortSorts(all, Older());
    dropped := sorted[0];
    assert sorted == [sorted[0]] + sorted[1..];
    assert Trimmed(all) == sorted[1..];
  }

  /**
   Recording into a canonical set keeps every other variant still valid, adds the new one, and on
   overflow drops a single oldest observation.
   */
  lemma RecordedContents(variants: seq<Variant>, record: Variant, now: nat)
    requires Canonical(variants)
    ensures var kept := Filter(Keeps(record.fingerprint, now), variants);
            var result := Recorded(variants, record, now);
            && (forall v :: v in kept <==> v in variants && v.fingerprint != record.fingerprint && IsValid(v, now))
            && (|kept| < MAX_VARIANTS ==> result == kept + [record])
            && (|kept| >= MAX_VARIANTS ==> exists d :: d in kept + [record] && DropsOldest(kept + [record], d, result))
  {
    var p := Keeps(record.fingerprint, now);
    var kept := Filter(p, variants);
    FilterLength(p, variants);
    forall v
      ensures v in kept <==> v in variants && p(v)
    {
      FilterMember(p, variants, v);
    }
    if |kept| >= MAX_VARIANTS {
      var d := TrimmedDropsOldest(kept + [record]);
      assert DropsOldest(kept + [record], d, Recorded(variants, record, now));
    }
  }

  ghost predicate DropsOldest(all: seq<Variant>, d: Variant, result: seq<Variant>) {
    && multiset(result) == multiset(all) - multiset{d}
    && forall v :: v in result ==> d.observedAt <= v.observedAt
  }

  /** Recorded variants are carried over or new. */
  lemma RecordedMembers(variants: seq<Variant>, record: Variant, now: nat, v: Variant)
    requires v in Recorded(variants, record, now)
    ensures v == record || (v in variants && v.fingerprint != record.fingerprint && IsValid(v, now))
  {
    var p := Keeps(record.fingerprint, now);
    var all := Filter(p, variants) + [record];
    SortPermutes(all, Older());
    assert v in all;
    FilterMember(p, variants, v);
  }

  /** A record is refused at once iff four valid others are all strictly newer. */
  lemma LateRecordIsDropped(variants: seq<Variant>, record: Variant, now: nat)
    requires Canonical(variants)
    ensures var kept := Filter(Keeps(record.fingerprint, now), variants);
            record !in Recorded(variants, record, now) <==>
            |kept| >= MAX_VARIANTS && forall v :: v in kept ==> record.observedAt < v.observedAt
  {
    var kept := Filter(Keeps(record.fingerprint, now), variants);
    FilterLength(Keeps(record.fingerprint, now), variants);
    KeptDistinct(variants, record, now);
    if |kept| >= MAX_VARIANTS {
      HeadOfSorted(kept, record);
    }
  }

  lemma HeadOfSorted(kept: seq<Variant>, record: Variant)
    requires |kept| == MAX_VARIANTS && DistinctBy(kept + [record], FingerprintOf())
    ensures record !in Trimmed(kept + [record]) <==> forall v :: v in kept ==> record.observedAt < v.observedAt
  {
    var all := kept + [record];
    var sorted := Sort(all, Older());
    SortPermutes(all, Older());
    SortedDistinctBy(all);
    OlderIsOrder();
    SortSorts(all, Older());
    assert Trimmed(all) == sorted[1..] && sorted == [sorted[0]] + sorted[1..];
    assert all[|kept|] == record && record in sorted;
    assert record in sorted[1..] <==> sorted[0] != record by {
      if record in sorted[1..] {
        var j :| 1 <= j < |sorted| && sorted[j] == record;
        assert FingerprintOf()(sorted[0]) != FingerprintOf()(sorted[j]);
      }
    }
    FirstOfTies(kept, record);
    forall v | v in kept && sorted[0] == record
      ensures record.observedAt <= v.observedAt
    {
      assert v in all && v in sorted;
      var j :| 0 <= j < |sorted| && sorted[j] == v;
      assert j > 0 ==> Older()(sorted[0], sorted[j]);
    }
    assert sorted[0] in all;
  }

  /** A tie goes against the older insertion: sorting is stable and the record came last. */
  lemma FirstOfTies(kept: seq<Variant>, record: Variant)
    requires DistinctBy(kept + [record], FingerprintOf())
    requires |Sort(kept + [record], Older())| > 0
    ensures Sort(kept + [record], Older())[0] == record ==> forall v :: v in kept ==> v.observedAt != record.observedAt
  {
    var all := kept + [record];
    var sorted := Sort(all, Older());
    var p := (v: Variant) => v.observedAt == record.observedAt;
    var ties := Filter(p, kept);
    SortStable(all, Older(), p);
    FilterAppend(p, kept, [record]);
    assert Filter(p, [record]) == [record];
    assert sorted[0] == record ==> Filter(p, sorted) == [record] + Filter(p, sorted[1..]);
    assert sorted[0] == record ==> (ties + [record])[0] == record;
    forall v | v in kept
      ensures v != record && (p(v) ==> v in ties)
    {
      var i :| 0 <= i < |kept| && kept[i] == v;
      assert FingerprintOf()(all[i]) != FingerprintOf()(all[|kept|]);
      FilterMember(p, kept, v);
    }
    if ties != [] {
      FilterMember(p, kept, ties[0]);
    }
  }
}
