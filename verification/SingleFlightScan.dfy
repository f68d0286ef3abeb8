/**
 Counting flights while they come and go: the count locks one shard after another, so each shard
 is read in a state of its own.
 */
module SingleFlightScans {
  import opened SingleFlights
  import opened Bits

  /** One state for each shard. */
  ghost predicate Shaped<K(!new), V>(rs: seq<Registry<K, V>>) {
    forall i :: 0 <= i < |rs| ==> |rs[i].shards| == |rs|
  }

  /** The states in which shard 0, 1, 2, ... are read, in the order of a run. */
  ghost predicate Successive<K(!new), V>(hash: K -> nat, rs: seq<Registry<K, V>>) {
    && Shaped(rs) && (forall i :: 0 <= i < |rs| ==> Inv(hash, rs[i]))
    && (forall i, j :: 0 <= i <= j < |rs| ==> Extends(rs[i], rs[j]))
  }

  /** The sum over the first `n` shards, each read in its own state. */
  ghost function Scanned<K(!new), V>(rs: seq<Registry<K, V>>, n: nat): nat
    requires n <= |rs| && Shaped(rs)
  {
    if n == 0 then 0 else Scanned(rs, n - 1) + Entries(rs[n - 1], n - 1)
  }

  ghost function Entries<K(!new), V>(r: Registry<K, V>, i: nat): nat
    requires i < |r.shards|
  {
    |r.shards[i]|
  }

  ghost function Listed<K(!new), V>(r: Registry<K, V>, i: nat): set<nat>
    requires i < |r.shards|
  {
    r.shards[i].Values
  }

  /** The flights whose entries those reads saw. */
  ghost function Seen<K(!new), V>(rs: seq<Registry<K, V>>, n: nat): set<nat>
    requires n <= |rs| && Shaped(rs)
  {
    if n == 0 then {} else Seen(rs, n - 1) + Listed(rs[n - 1], n - 1)
  }

  /** Exactly the flights that were unpublished when their own shard was read are seen. */
  lemma {:induction false} SeenFlights<K(!new), V>(hash: K -> nat, rs: seq<Registry<K, V>>, n: nat, f: nat)
    requires Successive(hash, rs) && n <= |rs|
    ensures f in Seen(rs, n) <==>
            exists i :: 0 <= i < n && Unpublished(rs[i], f) && ShardOf(hash, rs[i].flights[f].key, |rs|) == i
  {
    hide ShardOf, Inv, Extends;
    if n > 0 {
      SeenFlights(hash, rs, n - 1, f);
      ShardHolds(hash, rs[n - 1], n - 1, f);
    }
  }

  /** No flight is counted twice: its key, and so its shard, never changes. */
  lemma SeenElsewhere<K(!new), V>(hash: K -> nat, rs: seq<Registry<K, V>>, n: nat, f: nat)
    requires Successive(hash, rs) && n < |rs| && f in Seen(rs, n)
    ensures f !in rs[n].shards[n].Values
  {
    SeenFlights(hash, rs, n, f);
    ShardHolds(hash, rs[n], n, f);
    hide ShardOf, Inv;
    var i :| 0 <= i < n && Unpublished(rs[i], f) && ShardOf(hash, rs[i].flights[f].key, |rs|) == i;
    assert Extends(rs[i], rs[n]);
  }

  /** The next shard adds flights that were not seen before. */
  lemma NextShardAdds<K(!new), V>(hash: K -> nat, rs: seq<Registry<K, V>>, n: nat)
    requires Successive(hash, rs) && n < |rs|
    ensures |Seen(rs, n) + Listed(rs[n], n)| == |Seen(rs, n)| + Entries(rs[n], n)
  {
    hide Inv, Extends, Seen;
    ShardSize(hash, rs[n], n);
    var before, here := Seen(rs, n), rs[n].shards[n].Values;
    forall f | f in before
      ensures f !in here
    {
      SeenElsewhere(hash, rs, n, f);
    }
    DisjointSum(before, here);
  }

  lemma {:induction false} ScanIsCardinality<K(!new), V>(hash: K -> nat, rs: seq<Registry<K, V>>, n: nat)
    requires Successive(hash, rs) && n <= |rs|
    ensures Scanned(rs, n) == |Seen(rs, n)|
    decreases n
  {
    hide Successive, Shaped, Seen, Scanned, Entries, Listed;
    if n > 0 {
      ScanIsCardinality(hash, rs, n - 1);
      NextShardAdds(hash, rs, n - 1);
      ScanStep(hash, rs, n);
    } else {
      ScanZero(hash, rs);
    }
  }

  lemma ScanZero<K(!new), V>(hash: K -> nat, rs: seq<Registry<K, V>>)
    requires Successive(hash, rs)
    ensures Scanned(rs, 0) == 0 && Seen(rs, 0) == {}
  {
  }

  lemma ScanStep<K(!new), V>(hash: K -> nat, rs: seq<Registry<K, V>>, n: nat)
    requires Successive(hash, rs) && 0 < n <= |rs|
    ensures Scanned(rs, n) == Scanned(rs, n - 1) + Entries(rs[n - 1], n - 1)
    ensures Seen(rs, n) == Seen(rs, n - 1) + Listed(rs[n - 1], n - 1)
  {
  }

  lemma DisjointSum<T>(a: set<T>, b: set<T>)
    requires forall x :: x in a ==> x !in b
    ensures |a + b| == |a| + |b|
  {
    assert a !! b;
  }

  /** In flight during the whole scan: started before the first read and unpublished at the last. */
  predicate Throughout<K, V>(rs: seq<Registry<K, V>>, f: nat) {
    rs != [] && f < |rs[0].flights| && Unpublished(rs[|rs| - 1], f)
  }

  /** In flight at one of the reads. */
  ghost predicate Sometime<K(!new), V>(rs: seq<Registry<K, V>>, f: nat) {
    exists i :: 0 <= i < |rs| && Unpublished(rs[i], f)
  }

  lemma ThroughoutIsSeen<K(!new), V>(hash: K -> nat, rs: seq<Registry<K, V>>, f: nat)
    requires Successive(hash, rs) && Throughout(rs, f)
    ensures f in Seen(rs, |rs|)
  {
    assert Sharded(hash, rs[0]);
    hide ShardOf, Inv;
    var i := ShardOf(hash, rs[0].flights[f].key, |rs|);
    assert Extends(rs[0], rs[i]) && Extends(rs[i], rs[|rs| - 1]);
    assert Unpublished(rs[i], f);
    SeenFlights(hash, rs, |rs|, f);
  }

  /**
   The count is that of a set of flights which holds every flight in flight during the whole scan
   and none that was not in flight at some read. With nothing changing meanwhile it is exact.
   */
  lemma ScanIsBracketed<K(!new), V>(hash: K -> nat, rs: seq<Registry<K, V>>)
    requires Successive(hash, rs)
    ensures Scanned(rs, |rs|) == |Seen(rs, |rs|)|
    ensures forall f: nat :: (Throughout(rs, f) ==> f in Seen(rs, |rs|)) && (f in Seen(rs, |rs|) ==> Sometime(rs, f))
  {
    hide Inv, Extends, ShardOf;
    ScanIsCardinality(hash, rs, |rs|);
    forall f: nat
      ensures (Throughout(rs, f) ==> f in Seen(rs, |rs|)) && (f in Seen(rs, |rs|) ==> Sometime(rs, f))
    {
      SeenFlights(hash, rs, |rs|, f);
      if Throughout(rs, f) {
        ThroughoutIsSeen(hash, rs, f);
      }
    }
  }

  // ----- scans of a run

  lemma NextKeepsShards<K(!new), V>(hash: K -> nat, r: Registry<K, V>, s: Step<K, V>)
    requires r.shards != []
    ensures |Next(hash, r, s).shards| == |r.shards|
  {
    hide ShardOf, Receive;
  }

  lemma {:induction false} RunKeepsShards<K(!new), V>(hash: K -> nat, r: Registry<K, V>, steps: seq<Step<K, V>>)
    requires r.shards != []
    ensures |Run(hash, r, steps).shards| == |r.shards|
    decreases |steps|
  {
    hide Next;
    if steps != [] {
      NextShards(hash, r, steps[0]);
      NextKeepsShards(hash, r, steps[0]);
      RunKeepsShards(hash, Next(hash, r, steps[0]), steps[1..]);
    }
  }

  /** The states of a run after `times[0] <= times[1] <= ...` steps, one for each shard. */
  ghost predicate ReadAt<K(!new), V>(hash: K -> nat, r: Registry<K, V>, steps: seq<Step<K, V>>, times: seq<nat>, rs: seq<Registry<K, V>>)
    requires r.shards != []
  {
    && |times| == |rs| == |r.shards|
    && (forall i, j :: 0 <= i <= j < |times| ==> times[i] <= times[j] <= |steps|)
    && forall i :: 0 <= i < |rs| ==> times[i] <= |steps| && rs[i] == Run(hash, r, steps[..times[i]])
  }

  /** Whatever steps fall between the reads of any run, the scan is bracketed. */
  lemma ScansOfRuns<K(!new), V>(hash: K -> nat, shards: nat, ceiling: nat, steps: seq<Step<K, V>>, times: seq<nat>, rs: seq<Registry<K, V>>)
    requires shards <= Pow2(HASH_BITS - 1) && ReadAt(hash, New<K, V>(shards, ceiling), steps, times, rs)
    ensures Successive(hash, rs)
  {
    var r := New<K, V>(shards, ceiling);
    InitInv<K, V>(hash, shards, ceiling);
    hide New, Inv, Extends, Run;
    forall i | 0 <= i < |rs|
      ensures Inv(hash, rs[i])
      ensures |rs[i].shards| == |rs|
    {
      RunInv(hash, r, steps[..times[i]]);
      RunKeepsShards(hash, r, steps[..times[i]]);
    }
    forall i, j | 0 <= i <= j < |rs|
      ensures Extends(rs[i], rs[j])
    {
      var a, b := steps[..times[i]], steps[times[i]..times[j]];
      assert steps[..times[j]] == a + b;
      RunAppend(hash, r, a, b);
      RunExtends(hash, rs[i], b);
    }
  }
}
