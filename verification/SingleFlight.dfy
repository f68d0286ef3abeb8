/**
 Request coalescing as a transition system.

 Each step is one critical section of the source: `join` and `remove` under a shard lock, one
 `send` or `recv` on a broadcast channel of capacity one. `publish` is therefore two steps, and
 any number of other steps may fall between its `remove` and its `send`. Flights are numbered in
 the order they start; the number stands for the channel and for the leader that owns it.
 */
module SingleFlights {
  import opened Seqs
  import opened Bits

  const HASH_BITS: nat := 64

  /** `Result<V, FlightError>`. */
  datatype Outcome<V> = Value(v: V) | Failed(reason: string) | Transient(reason: string) | LeaderGone

  /** What a leader does with its handle; `Drop` is losing it without publishing. */
  datatype Action<V> = Complete(v: V) | Fail(reason: string) | FailUncacheable(reason: string) | Drop

  function OutcomeOf<V>(a: Action<V>): Outcome<V> {
    match a
    case Complete(v) => Value(v)
    case Fail(r) => Failed(r)
    case FailUncacheable(r) => Transient(r)
    case Drop => LeaderGone
  }

  /**
   One flight. `argument` is the value its leader passed to `publish`, `log` the values sent on
   its channel, `held` whether the leader handle still exists.
   */
  datatype Flight<K, V> = Flight(key: K, published: bool, argument: Option<Outcome<V>>, log: seq<Outcome<V>>, held: bool)

  /** A receiver: the flight it subscribed to, how much had been sent before, what it returned. */
  datatype Receiver<V> = Receiver(flight: nat, cursor: nat, outcome: Option<Outcome<V>>)

  datatype Registry<!K, V> = Registry(shards: seq<map<K, nat>>, ceiling: nat, flights: seq<Flight<K, V>>, followers: seq<Receiver<V>>)

  datatype Joined = Leader(flight: nat) | Follower(receiver: nat) | Saturated

  datatype Step<K, V> =
    | Join(key: K)
    | Publish(flight: nat, action: Action<V>)
    | Send(flight: nat)
    | Release(flight: nat)
    | Wait(receiver: nat)

  // ----- shards

  function NextPowerOfTwo(n: nat): (r: nat)
    ensures exists e :: r == Pow2(e)
  {
    PowerAtLeast(n, 0)
  }

  function PowerAtLeast(n: nat, e: nat): (r: nat)
    ensures exists e :: r == Pow2(e)
    decreases if n > Pow2(e) then n - Pow2(e) else 0
  {
    if Pow2(e) >= n then Pow2(e) else PowerAtLeast(n, e + 1)
  }

  /** `hash & (shards - 1)`. */
  function ShardOf<K>(hash: K -> nat, key: K, shards: nat): nat
    requires shards > 0
  {
    And(hash(key), shards - 1, HASH_BITS)
  }

  // ----- steps

  function New<K, V>(shards: nat, ceiling: nat): (r: Registry<K, V>)
    ensures r.shards != []
  {
    Registry(seq(NextPowerOfTwo(if shards >= 1 then shards else 1), _ => map[]), if ceiling >= 1 then ceiling else 1, [], [])
  }

  function JoinResult<K, V>(hash: K -> nat, r: Registry<K, V>, key: K): Joined
    requires r.shards != []
  {
    var i := ShardOf(hash, key, |r.shards|);
    if i >= |r.shards| then Saturated
    else if key in r.shards[i] then Follower(|r.followers|)
    else if |r.shards[i]| >= r.ceiling then Saturated
    else Leader(|r.flights|)
  }

  function DoJoin<K, V>(hash: K -> nat, r: Registry<K, V>, key: K): Registry<K, V>
    requires r.shards != []
  {
    var i := ShardOf(hash, key, |r.shards|);
    match JoinResult(hash, r, key)
    case Saturated => r
    case Follower(_) =>
      var f := r.shards[i][key];
      var sent := if f < |r.flights| then |r.flights[f].log| else 0;
      r.(followers := r.followers + [Receiver(f, sent, None)])
    case Leader(f) =>
      var shard: map<K, nat> := r.shards[i][key := f];
      r.(shards := r.shards[i := shard],
         flights := r.flights + [Flight(key, false, None, [], true)])
  }

  /** First half of `publish`: mark, and remove the entry by key. */
  function DoPublish<K, V>(hash: K -> nat, r: Registry<K, V>, f: nat, a: Action<V>): Registry<K, V>
    requires r.shards != []
  {
    if f >= |r.flights| || !r.flights[f].held || r.flights[f].published then r
    else
      var key := r.flights[f].key;
      var i := ShardOf(hash, key, |r.shards|);
      r.(shards := if i < |r.shards| then r.shards[i := r.shards[i] - {key}] else r.shards,
         flights := r.flights[f := r.flights[f].(published := true, argument := Some(OutcomeOf(a)))])
  }

  /** Second half of `publish`: send the argument. */
  function DoSend<K, V>(r: Registry<K, V>, f: nat): Registry<K, V> {
    if f >= |r.flights| || !r.flights[f].held || r.flights[f].argument.None? || r.flights[f].log != [] then r
    else r.(flights := r.flights[f := r.flights[f].(log := r.flights[f].log + [r.flights[f].argument.value])])
  }

  /** The handle goes away after `publish` returned; `drop` then finds `published` set. */
  function DoRelease<K, V>(r: Registry<K, V>, f: nat): Registry<K, V> {
    if f >= |r.flights| || r.flights[f].log == [] then r
    else r.(flights := r.flights[f := r.flights[f].(held := false)])
  }

  /** A sender exists while the registry entry or the leader handle does. */
  predicate HasSender<K(==), V>(r: Registry<K, V>, f: nat) {
    || (f < |r.flights| && r.flights[f].held)
    || exists i, k :: 0 <= i < |r.shards| && k in r.shards[i] && r.shards[i][k] == f
  }

  /**
   `recv`: the next unread value; `LeaderGone` when lagging behind a channel of capacity one or
   when every sender is gone; `None` while it has to keep waiting.
   */
  function Receive<K(==), V>(r: Registry<K, V>, w: Receiver<V>): Option<Outcome<V>> {
    var log := if w.flight < |r.flights| then r.flights[w.flight].log else [];
    if w.cursor + 1 < |log| then Some(LeaderGone)
    else if w.cursor < |log| then Some(log[w.cursor])
    else if !HasSender(r, w.flight) then Some(LeaderGone)
    else None
  }

  function DoWait<K(==), V>(r: Registry<K, V>, i: nat): Registry<K, V> {
    if i >= |r.followers| || r.followers[i].outcome.Some? then r
    else r.(followers := r.followers[i := r.followers[i].(outcome := Receive(r, r.followers[i]))])
  }

  ghost function Next<K(!new), V>(hash: K -> nat, r: Registry<K, V>, s: Step<K, V>): Registry<K, V>
    requires r.shards != []
  {
    match s
    case Join(key) => DoJoin(hash, r, key)
    case Publish(f, a) => DoPublish(hash, r, f, a)
    case Send(f) => DoSend(r, f)
    case Release(f) => DoRelease(r, f)
    case Wait(i) => DoWait(r, i)
  }

  // ----- invariant

  ghost predicate Sharded<K(!new), V>(hash: K -> nat, r: Registry<K, V>) {
    && r.shards != []
    && (forall key :: ShardOf(hash, key, |r.shards|) < |r.shards|)
    && (forall i :: 0 <= i < |r.shards| ==> |r.shards[i]| <= r.ceiling)
  }

  ghost predicate EntryOk<K(!new), V>(hash: K -> nat, r: Registry<K, V>, i: nat, k: K)
    requires i < |r.shards| && k in r.shards[i]
  {
    && ShardOf(hash, k, |r.shards|) == i
    && Unpublished(r, r.shards[i][k])
    && r.flights[r.shards[i][k]].key == k
  }

  /** Every entry belongs to the unpublished leader of its key. */
  ghost predicate EntriesOwned<K(!new), V>(hash: K -> nat, r: Registry<K, V>) {
    forall i: nat, k :: i < |r.shards| && k in r.shards[i] ==> EntryOk(hash, r, i, k)
  }

  predicate Unpublished<K, V>(r: Registry<K, V>, f: int) {
    0 <= f < |r.flights| && !r.flights[f].published
  }

  /** Every unpublished leader has its entry. */
  ghost predicate LeadersListed<K(!new), V>(hash: K -> nat, r: Registry<K, V>) {
    forall f :: 0 <= f < |r.flights| && !r.flights[f].published ==>
      && r.shards != []
      && ShardOf(hash, r.flights[f].key, |r.shards|) < |r.shards|
      && r.flights[f].key in r.shards[ShardOf(hash, r.flights[f].key, |r.shards|)]
      && r.shards[ShardOf(hash, r.flights[f].key, |r.shards|)][r.flights[f].key] == f
  }

  /** A channel carries its leader's argument, once, and only after the entry was removed. */
  predicate FlightOk<K(==), V(==)>(x: Flight<K, V>) {
    && (x.published <==> x.argument.Some?)
    && (x.log != [] ==> x.argument.Some? && x.log == [x.argument.value])
    && (!x.held ==> x.log != [])
  }

  ghost predicate FlightsOk<K(!new), V>(r: Registry<K, V>) {
    forall f :: 0 <= f < |r.flights| ==> FlightOk(r.flights[f])
  }

  /** Nobody subscribes late, and whoever has returned was told its own flight's value. */
  ghost predicate FollowersOk<K(!new), V>(r: Registry<K, V>) {
    forall i :: 0 <= i < |r.followers| ==>
      && r.followers[i].flight < |r.flights| && r.followers[i].cursor == 0
      && (r.followers[i].outcome.Some? ==> r.flights[r.followers[i].flight].log == [r.followers[i].outcome.value])
  }

  ghost predicate Inv<K(!new), V>(hash: K -> nat, r: Registry<K, V>) {
    && Sharded(hash, r) && EntriesOwned(hash, r) && LeadersListed(hash, r) && FlightsOk(r) && FollowersOk(r)
  }

  /** A mask of a power of two always names an existing shard, and every shard is named. */
  lemma MaskNamesShards<K>(hash: K -> nat, key: K, shards: nat, e: nat)
    requires shards == Pow2(e) && e <= HASH_BITS
    ensures ShardOf(hash, key, shards) < shards
    ensures hash(key) < shards ==> ShardOf(hash, key, shards) == hash(key)
  {
    AndLowMask(hash(key), e, HASH_BITS);
    LowBitsBound(hash(key), e);
  }

  lemma {:induction false} PowerAtLeastFacts(n: nat, e: nat)
    requires e == 0 || Pow2(e - 1) < n
    ensures n <= PowerAtLeast(n, e)
    ensures n >= 1 ==> PowerAtLeast(n, e) < 2 * n
    decreases if n > Pow2(e) then n - Pow2(e) else 0
  {
    if Pow2(e) < n {
      PowerAtLeastFacts(n, e + 1);
    }
  }

  /** The shard count is the least power of two that is at least the requested count. */
  lemma ShardCount(n: nat)
    requires n >= 1
    ensures n <= NextPowerOfTwo(n) < 2 * n
    ensures exists e :: NextPowerOfTwo(n) == Pow2(e)
  {
    PowerAtLeastFacts(n, 0);
  }

  lemma {:induction false} ExponentBound(e: nat, k: nat)
    requires Pow2(e) < Pow2(k)
    ensures e < k
  {
    if k <= e {
      Pow2Monotone(k, e);
      assert false;
    }
  }

  lemma ShardCountExponent(n: nat) returns (e: nat)
    requires 1 <= n <= Pow2(HASH_BITS - 1)
    ensures NextPowerOfTwo(n) == Pow2(e) && e <= HASH_BITS
  {
    ShardCount(n);
    e :| NextPowerOfTwo(n) == Pow2(e);
    hide NextPowerOfTwo;
    assert Pow2(e) < Pow2(HASH_BITS);
    ExponentBound(e, HASH_BITS);
  }

  lemma InitInv<K(!new), V>(hash: K -> nat, shards: nat, ceiling: nat)
    requires shards <= Pow2(HASH_BITS - 1)
    ensures Inv(hash, New<K, V>(shards, ceiling))
  {
    var n := if shards >= 1 then shards else 1;
    Pow2Monotone(0, HASH_BITS - 1);
    hide Pow2;
    hide ShardOf;
    hide NextPowerOfTwo;
    var e := ShardCountExponent(n);
    forall key
      ensures ShardOf(hash, key, NextPowerOfTwo(n)) < NextPowerOfTwo(n)
    {
      MaskNamesShards(hash, key, NextPowerOfTwo(n), e);
    }
  }

  lemma JoinEntries<K(!new), V>(hash: K -> nat, r: Registry<K, V>, key: K)
    requires Inv(hash, r) && JoinResult(hash, r, key).Leader?
    ensures EntriesOwned(hash, DoJoin(hash, r, key))
  {
    hide ShardOf;
    var r' := DoJoin(hash, r, key);
    forall j: nat, k | j < |r'.shards| && k in r'.shards[j]
      ensures EntryOk(hash, r', j, k)
    {
      assert k == key || EntryOk(hash, r, j, k);
    }
  }

  lemma JoinListed<K(!new), V>(hash: K -> nat, r: Registry<K, V>, key: K)
    requires Inv(hash, r) && JoinResult(hash, r, key).Leader?
    ensures LeadersListed(hash, DoJoin(hash, r, key))
  {
    hide ShardOf;
    hide EntriesOwned;
    var r' := DoJoin(hash, r, key);
    assert forall g :: 0 <= g < |r.flights| ==> r'.flights[g] == r.flights[g];
  }

  lemma JoinAsLeader<K(!new), V>(hash: K -> nat, r: Registry<K, V>, key: K)
    requires Inv(hash, r) && JoinResult(hash, r, key).Leader?
    ensures Inv(hash, DoJoin(hash, r, key))
  {
    JoinEntries(hash, r, key);
    JoinListed(hash, r, key);
    hide ShardOf;
    hide EntriesOwned;
    hide LeadersListed;
    var i := ShardOf(hash, key, |r.shards|);
    var r' := DoJoin(hash, r, key);
    assert r'.shards[i].Keys == r.shards[i].Keys + {key};
    assert |r'.shards[i]| == |r'.shards[i].Keys|;
  }

  lemma JoinAsFollower<K(!new), V>(hash: K -> nat, r: Registry<K, V>, key: K)
    requires Inv(hash, r) && JoinResult(hash, r, key).Follower?
    ensures Inv(hash, DoJoin(hash, r, key))
  {
    hide ShardOf;
    var i := ShardOf(hash, key, |r.shards|);
    EntryOwner(hash, r, i, key);
    var x := r.flights[r.shards[i][key]];
    assert FlightOk(x) && x.log == [];
    var r' := DoJoin(hash, r, key);
    assert EntriesOwned(hash, r') by {
      forall j: nat, k | j < |r'.shards| && k in r'.shards[j]
        ensures EntryOk(hash, r', j, k)
      {
        assert EntryOk(hash, r, j, k);
      }
    }
    hide EntriesOwned;
  }

  lemma JoinInv<K(!new), V>(hash: K -> nat, r: Registry<K, V>, key: K)
    requires Inv(hash, r)
    ensures Inv(hash, DoJoin(hash, r, key))
  {
    match JoinResult(hash, r, key)
    case Saturated =>
    case Follower(_) => JoinAsFollower(hash, r, key);
    case Leader(_) => JoinAsLeader(hash, r, key);
  }

  /** The entry a publishing leader removes by key is its own. */
  lemma PublishRemovesOwnEntry<K(!new), V>(hash: K -> nat, r: Registry<K, V>, f: nat, a: Action<V>)
    requires Inv(hash, r) && f < |r.flights| && r.flights[f].held && !r.flights[f].published
    ensures var r' := DoPublish(hash, r, f, a);
            var key := r.flights[f].key;
            var i := ShardOf(hash, key, |r.shards|);
            && i < |r.shards| && key in r.shards[i] && r.shards[i][key] == f
            && r'.shards == r.shards[i := map k | k in r.shards[i] && k != key :: r.shards[i][k]]
            && (forall g :: 0 <= g < |r.flights| && g != f && !r.flights[g].published ==> r.flights[g].key != key)
  {
    hide ShardOf;
    var key := r.flights[f].key;
    var i := ShardOf(hash, key, |r.shards|);
    assert r.shards[i] - {key} == map k | k in r.shards[i] && k != key :: r.shards[i][k];
  }

  lemma PublishEntries<K(!new), V>(hash: K -> nat, r: Registry<K, V>, f: nat, a: Action<V>)
    requires Inv(hash, r) && f < |r.flights| && r.flights[f].held && !r.flights[f].published
    ensures EntriesOwned(hash, DoPublish(hash, r, f, a)) && LeadersListed(hash, DoPublish(hash, r, f, a))
  {
    PublishRemovesOwnEntry(hash, r, f, a);
    hide ShardOf;
    hide FollowersOk;
    hide FlightsOk;
    var r' := DoPublish(hash, r, f, a);
    forall j: nat, k | j < |r'.shards| && k in r'.shards[j]
      ensures EntryOk(hash, r', j, k)
    {
      assert EntryOk(hash, r, j, k);
    }
  }

  lemma PublishInv<K(!new), V>(hash: K -> nat, r: Registry<K, V>, f: nat, a: Action<V>)
    requires Inv(hash, r)
    ensures Inv(hash, DoPublish(hash, r, f, a))
  {
    hide ShardOf;
    if f < |r.flights| && r.flights[f].held && !r.flights[f].published {
      PublishRemovesOwnEntry(hash, r, f, a);
      PublishEntries(hash, r, f, a);
      hide EntriesOwned;
      hide LeadersListed;
      var r' := DoPublish(hash, r, f, a);
      var i := ShardOf(hash, r.flights[f].key, |r.shards|);
      SubsetCardinality(r'.shards[i].Keys, r.shards[i].Keys);
      assert |r'.shards[i]| == |r'.shards[i].Keys| && |r.shards[i]| == |r.shards[i].Keys|;
    }
  }

  lemma SendInv<K(!new), V>(hash: K -> nat, r: Registry<K, V>, f: nat)
    requires Inv(hash, r)
    ensures Inv(hash, DoSend(r, f))
  {
    hide ShardOf;
  }

  lemma ReleaseInv<K(!new), V>(hash: K -> nat, r: Registry<K, V>, f: nat)
    requires Inv(hash, r)
    ensures Inv(hash, DoRelease(r, f))
  {
    hide ShardOf;
  }

  /**
   A follower is told its own flight's value as soon as that was sent, and until then the flight
   still has a leader. The channel never lags and never closes on it.
   */
  lemma ReceiveIsOwnFlight<K(!new), V>(hash: K -> nat, r: Registry<K, V>, i: nat)
    requires Inv(hash, r) && i < |r.followers|
    ensures var x := r.flights[r.followers[i].flight];
            Receive(r, r.followers[i]) == if x.log == [] then None else x.argument
    ensures Receive(r, r.followers[i]).None? ==> r.flights[r.followers[i].flight].held
  {
    var f := r.followers[i].flight;
    assert FlightOk(r.flights[f]);
  }

  lemma WaitInv<K(!new), V>(hash: K -> nat, r: Registry<K, V>, i: nat)
    requires Inv(hash, r)
    ensures Inv(hash, DoWait(r, i))
  {
    hide ShardOf;
    if i < |r.followers| && r.followers[i].outcome.None? {
      ReceiveIsOwnFlight(hash, r, i);
      assert FlightOk(r.flights[r.followers[i].flight]);
    }
  }

  lemma NextInv<K(!new), V>(hash: K -> nat, r: Registry<K, V>, s: Step<K, V>)
    requires Inv(hash, r)
    ensures Inv(hash, Next(hash, r, s))
  {
    hide Inv;
    match s
    case Join(key) => JoinInv(hash, r, key);
    case Publish(f, a) => PublishInv(hash, r, f, a);
    case Send(f) => SendInv(hash, r, f);
    case Release(f) => ReleaseInv(hash, r, f);
    case Wait(i) => WaitInv(hash, r, i);
  }

  // ----- whole runs

  lemma NextShards<K(!new), V>(hash: K -> nat, r: Registry<K, V>, s: Step<K, V>)
    requires r.shards != []
    ensures Next(hash, r, s).shards != []
  {
  }

  /** Any interleaving of steps, taken in the order given. */
  ghost function Run<K(!new), V>(hash: K -> nat, r: Registry<K, V>, steps: seq<Step<K, V>>): (end: Registry<K, V>)
    requires r.shards != []
    ensures end.shards != []
    decreases |steps|
  {
    if steps == [] then r
    else
      NextShards(hash, r, steps[0]);
      Run(hash, Next(hash, r, steps[0]), steps[1..])
  }

  lemma {:induction false} RunInv<K(!new), V>(hash: K -> nat, r: Registry<K, V>, steps: seq<Step<K, V>>)
    requires Inv(hash, r)
    ensures Inv(hash, Run(hash, r, steps))
    decreases |steps|
  {
    hide EntriesOwned;
    hide LeadersListed;
    hide FlightsOk;
    hide FollowersOk;
    if steps != [] {
      NextInv(hash, r, steps[0]);
      RunInv(hash, Next(hash, r, steps[0]), steps[1..]);
    }
  }

  /** Later states keep what was decided: membership, published values and returned outcomes. */
  ghost predicate Extends<K(!new), V>(r: Registry<K, V>, r': Registry<K, V>) {
    && |r.flights| <= |r'.flights| && |r.followers| <= |r'.followers|
    && (forall f :: 0 <= f < |r.flights| ==>
          && r'.flights[f].key == r.flights[f].key
          && (r.flights[f].published ==> r'.flights[f].published && r'.flights[f].argument == r.flights[f].argument)
          && (!r.flights[f].held ==> !r'.flights[f].held))
    && (forall i :: 0 <= i < |r.followers| ==>
          && r'.followers[i].flight == r.followers[i].flight
          && (r.followers[i].outcome.Some? ==> r'.followers[i] == r.followers[i]))
  }

  lemma NextExtends<K(!new), V>(hash: K -> nat, r: Registry<K, V>, s: Step<K, V>)
    requires r.shards != []
    ensures Extends(r, Next(hash, r, s))
  {
    hide Receive;
    hide ShardOf;
  }

  lemma ExtendsTransitive<K(!new), V>(a: Registry<K, V>, b: Registry<K, V>, c: Registry<K, V>)
    requires Extends(a, b) && Extends(b, c)
    ensures Extends(a, c)
  {
  }

  lemma {:induction false} RunExtends<K(!new), V>(hash: K -> nat, r: Registry<K, V>, steps: seq<Step<K, V>>)
    requires r.shards != []
    ensures Extends(r, Run(hash, r, steps))
    decreases |steps|
  {
    if steps != [] {
      var r' := Next(hash, r, steps[0]);
      NextShards(hash, r, steps[0]);
      NextExtends(hash, r, steps[0]);
      hide Next;
      hide Extends;
      RunExtends(hash, r', steps[1..]);
      ExtendsTransitive(r, r', Run(hash, r', steps[1..]));
    }
  }

  /**
   No lost wakeup. Take any interleaving from a new registry, then any continuation. A follower
   that has returned was told the value its own flight published, and that never changes. A
   follower that has not returned gets that value at its next `recv` once it was sent; before
   that, the flight's leader is still there. When every leader is gone, every follower returns.
   */
  lemma NoLostWakeup<K(!new), V>(hash: K -> nat, shards: nat, ceiling: nat, steps: seq<Step<K, V>>, more: seq<Step<K, V>>, i: nat)
    requires shards <= Pow2(HASH_BITS - 1)
    requires i < |Run(hash, New<K, V>(shards, ceiling), steps).followers|
    ensures var r := Run(hash, New<K, V>(shards, ceiling), steps);
            var f := r.followers[i].flight;
            && f < |r.flights| && r.shards != []
            && (r.followers[i].outcome.Some? ==> r.followers[i].outcome == r.flights[f].argument)
            && DoWait(r, i).followers[i].outcome == (if r.flights[f].log == [] then None else r.flights[f].argument)
            && (r.flights[f].log == [] ==> r.flights[f].held)
            && (var r' := Run(hash, r, more);
                && i < |r'.followers| && r'.followers[i].flight == f
                && (r.followers[i].outcome.Some? ==> r'.followers[i].outcome == r.followers[i].outcome)
                && f < |r'.flights|
                && (r'.followers[i].outcome.Some? ==> r'.followers[i].outcome == r'.flights[f].argument)
                && (!r'.flights[f].held ==>
                      r'.flights[f].argument.Some? && DoWait(r', i).followers[i].outcome == r'.flights[f].argument))
  {
    var r0 := New<K, V>(shards, ceiling);
    InitInv<K, V>(hash, shards, ceiling);
    hide New;
    RunInv(hash, r0, steps);
    var r := Run(hash, r0, steps);
    RunInv(hash, r, more);
    RunExtends(hash, r, more);
    var r' := Run(hash, r, more);
    hide Run;
    FollowerTold(hash, r, i);
    FollowerTold(hash, r', i);
  }

  lemma FollowerTold<K(!new), V>(hash: K -> nat, r: Registry<K, V>, i: nat)
    requires Inv(hash, r) && i < |r.followers|
    ensures var f := r.followers[i].flight;
            && f < |r.flights| && FlightOk(r.flights[f])
            && (r.followers[i].outcome.Some? ==> r.followers[i].outcome == r.flights[f].argument)
            && DoWait(r, i).followers[i].outcome == (if r.flights[f].log == [] then None else r.flights[f].argument)
  {
    ReceiveIsOwnFlight(hash, r, i);
    assert FlightOk(r.flights[r.followers[i].flight]);
  }

  // ----- outcomes come from the leader's own step

  lemma {:induction false} RunAppend<K(!new), V>(hash: K -> nat, r: Registry<K, V>, a: seq<Step<K, V>>, b: seq<Step<K, V>>)
    requires r.shards != []
    ensures Run(hash, r, a + b) == Run(hash, Run(hash, r, a), b)
    decreases |a|
  {
    hide Next;
    if a == [] {
      assert a + b == b;
    } else {
      NextShards(hash, r, a[0]);
      assert (a + b)[0] == a[0] && (a + b)[1..] == a[1..] + b;
      RunAppend(hash, Next(hash, r, a[0]), a[1..], b);
    }
  }

  lemma RunSnoc<K(!new), V>(hash: K -> nat, r: Registry<K, V>, steps: seq<Step<K, V>>, i: nat)
    requires r.shards != [] && i < |steps|
    ensures Run(hash, r, steps[..i + 1]) == Next(hash, Run(hash, r, steps[..i]), steps[i])
  {
    hide Next;
    assert steps[..i + 1] == steps[..i] + [steps[i]];
    RunAppend(hash, r, steps[..i], [steps[i]]);
    var q := Run(hash, r, steps[..i]);
    NextShards(hash, q, steps[i]);
    assert [steps[i]][1..] == [];
    assert Run(hash, q, [steps[i]]) == Next(hash, q, steps[i]);
  }

  /** Step `i` is a leader's action on flight `f` that was not a repetition. */
  ghost predicate TookEffect<K(!new), V>(hash: K -> nat, r: Registry<K, V>, steps: seq<Step<K, V>>, i: int, f: nat, a: Action<V>)
    requires r.shards != []
  {
    && 0 <= i < |steps| && steps[i] == Publish(f, a)
    && var q := Run(hash, r, steps[..i]);
       f < |q.flights| && q.flights[f].held && !q.flights[f].published
  }

  lemma PublishFixes<K(!new), V>(hash: K -> nat, r: Registry<K, V>, f: nat, a: Action<V>)
    requires r.shards != [] && f < |r.flights| && r.flights[f].held && !r.flights[f].published
    ensures var q := Next(hash, r, Publish(f, a));
            f < |q.flights| && q.flights[f].published && q.flights[f].argument == Some(OutcomeOf(a))
  {
    hide ShardOf;
  }

  /** An action that took effect fixes the flight's value for good. */
  lemma EffectLasts<K(!new), V>(hash: K -> nat, r: Registry<K, V>, steps: seq<Step<K, V>>, i: int, f: nat, a: Action<V>, j: nat)
    requires r.shards != [] && TookEffect(hash, r, steps, i, f, a) && i < j <= |steps|
    ensures var q := Run(hash, r, steps[..j]);
            f < |q.flights| && q.flights[f].published && q.flights[f].argument == Some(OutcomeOf(a))
  {
    hide Run, Next;
    RunSnoc(hash, r, steps, i);
    PublishFixes(hash, Run(hash, r, steps[..i]), f, a);
    assert steps[..j] == steps[..i + 1] + steps[i + 1..j];
    RunAppend(hash, r, steps[..i + 1], steps[i + 1..j]);
    RunExtends(hash, Run(hash, r, steps[..i + 1]), steps[i + 1..j]);
  }

  lemma ArgumentAppears<K(!new), V>(hash: K -> nat, r: Registry<K, V>, s: Step<K, V>, f: nat)
    requires r.shards != [] && f < |Next(hash, r, s).flights| && Next(hash, r, s).flights[f].argument.Some?
    requires f < |r.flights| ==> r.flights[f].argument.None?
    ensures s.Publish? && s.flight == f && f < |r.flights| && r.flights[f].held && !r.flights[f].published
    ensures Next(hash, r, s).flights[f].argument == Some(OutcomeOf(s.action))
  {
    hide ShardOf, Receive;
  }

  /** A published value comes from an action of the flight's own leader. */
  lemma {:induction false} ArgumentHasCause<K(!new), V>(hash: K -> nat, r: Registry<K, V>, steps: seq<Step<K, V>>, n: nat, f: nat)
    returns (i: int, a: Action<V>)
    requires Inv(hash, r) && r.flights == [] && n <= |steps|
    requires f < |Run(hash, r, steps[..n]).flights| && Run(hash, r, steps[..n]).flights[f].argument.Some?
    ensures i < n && TookEffect(hash, r, steps, i, f, a)
    ensures Run(hash, r, steps[..n]).flights[f].argument == Some(OutcomeOf(a))
    decreases n
  {
    assert steps[..0] == [] && Run(hash, r, steps[..0]) == r;
    var q := Run(hash, r, steps[..n - 1]);
    RunSnoc(hash, r, steps, n - 1);
    RunInv(hash, r, steps[..n - 1]);
    if f < |q.flights| && q.flights[f].argument.Some? {
      i, a := ArgumentHasCause(hash, r, steps, n - 1, f);
      assert FlightOk(q.flights[f]);
      NextExtends(hash, q, steps[n - 1]);
    } else {
      ArgumentAppears(hash, q, steps[n - 1], f);
      i, a := n - 1, steps[n - 1].action;
    }
  }

  /**
   What a follower is told is what the leader of its flight did: its outcome is that of the one
   action of that leader that took effect, and it is `LeaderGone` exactly when the leader was
   dropped without publishing.
   */
  lemma OutcomeIsTheLeaders<K(!new), V>(hash: K -> nat, shards: nat, ceiling: nat, steps: seq<Step<K, V>>, k: nat) returns (i: int, a: Action<V>)
    requires shards <= Pow2(HASH_BITS - 1)
    requires var r := Run(hash, New<K, V>(shards, ceiling), steps); k < |r.followers| && r.followers[k].outcome.Some?
    ensures var r0 := New<K, V>(shards, ceiling);
            var w := Run(hash, r0, steps).followers[k];
            && TookEffect(hash, r0, steps, i, w.flight, a)
            && w.outcome == Some(match a
                                 case Complete(v) => Value(v)
                                 case Fail(reason) => Failed(reason)
                                 case FailUncacheable(reason) => Transient(reason)
                                 case Drop => LeaderGone)
            && forall j, b :: TookEffect(hash, r0, steps, j, w.flight, b) ==> j == i && b == a
  {
    var r0 := New<K, V>(shards, ceiling);
    InitInv<K, V>(hash, shards, ceiling);
    assert r0.flights == [];
    hide New, Inv;
    RunInv(hash, r0, steps);
    FollowerTold(hash, Run(hash, r0, steps), k);
    var f := Run(hash, r0, steps).followers[k].flight;
    assert steps[..|steps|] == steps;
    i, a := ArgumentHasCause(hash, r0, steps, |steps|, f);
    forall j, b | TookEffect(hash, r0, steps, j, f, b)
      ensures j == i && b == a
    {
      OneEffect(hash, r0, steps, i, a, j, b, f);
    }
  }

  lemma OneEffect<K(!new), V>(hash: K -> nat, r: Registry<K, V>, steps: seq<Step<K, V>>, i: int, a: Action<V>, j: int, b: Action<V>, f: nat)
    requires r.shards != [] && TookEffect(hash, r, steps, i, f, a) && TookEffect(hash, r, steps, j, f, b)
    ensures i == j && a == b
  {
    if i < j {
      EffectLasts(hash, r, steps, i, f, a, j);
    } else if j < i {
      EffectLasts(hash, r, steps, j, f, b, i);
    }
  }

  /**
   Unique leadership without leaks, in every reachable state: entries and unpublished leaders
   correspond one to one, two unpublished leaders never share a key, shards stay within their
   ceiling, and once every leader has published nothing is left in flight.
   */
  lemma UniqueLeadership<K(!new), V>(hash: K -> nat, shards: nat, ceiling: nat, steps: seq<Step<K, V>>)
    requires shards <= Pow2(HASH_BITS - 1)
    ensures var r := Run(hash, New<K, V>(shards, ceiling), steps);
            && EntriesOwned(hash, r) && LeadersListed(hash, r)
            && (forall f, g :: Unpublished(r, f) && Unpublished(r, g) && r.flights[f].key == r.flights[g].key ==> f == g)
            && (forall i :: 0 <= i < |r.shards| ==> |r.shards[i]| <= r.ceiling)
            && (forall i :: 0 <= i < |r.shards| && r.shards[i] != map[] ==> exists f :: Unpublished(r, f))
            && r.shards != [] && Inflight(r.shards) == |UnpublishedIn(hash, r, |r.shards|)|
  {
    InitInv<K, V>(hash, shards, ceiling);
    RunInv(hash, New<K, V>(shards, ceiling), steps);
    hide New;
    hide Run;
    hide ShardOf;
    var r := Run(hash, New<K, V>(shards, ceiling), steps);
    OneLeaderPerKey(hash, r);
    InflightCounts(hash, r, |r.shards|);
    assert r.shards[..|r.shards|] == r.shards;
  }

  lemma EntryOwner<K(!new), V>(hash: K -> nat, r: Registry<K, V>, i: nat, k: K)
    requires EntriesOwned(hash, r) && i < |r.shards| && k in r.shards[i]
    ensures EntryOk(hash, r, i, k)
  {
  }

  lemma OneLeaderPerKey<K(!new), V>(hash: K -> nat, r: Registry<K, V>)
    requires Inv(hash, r)
    ensures forall f, g :: Unpublished(r, f) && Unpublished(r, g) && r.flights[f].key == r.flights[g].key ==> f == g
    ensures forall i :: 0 <= i < |r.shards| && r.shards[i] != map[] ==> exists f :: Unpublished(r, f)
  {
    hide ShardOf;
    forall i | 0 <= i < |r.shards| && r.shards[i] != map[]
      ensures exists f :: Unpublished(r, f)
    {
      var k :| k in r.shards[i];
      EntryOwner(hash, r, i, k);
      assert Unpublished(r, r.shards[i][k]);
    }
  }

  /** `SingleFlight::inflight`: the entries of all shards. */
  function Inflight<K>(shards: seq<map<K, nat>>): nat {
    if shards == [] then 0 else Inflight(shards[..|shards| - 1]) + |shards[|shards| - 1]|
  }

  /** The unpublished leaders whose key belongs to one of the first `n` shards. */
  ghost function UnpublishedIn<K(!new), V>(hash: K -> nat, r: Registry<K, V>, n: nat): set<int>
    requires r.shards != []
  {
    set f | 0 <= f < |r.flights| && !r.flights[f].published && ShardOf(hash, r.flights[f].key, |r.shards|) < n
  }

  lemma {:induction false} InjectiveValues<K, V>(m: map<K, V>)
    requires forall a, b :: a in m && b in m && m[a] == m[b] ==> a == b
    ensures |m.Values| == |m|
    decreases m.Keys
  {
    assert |m| == |m.Keys|;
    if m.Keys == {} {
      assert m.Values == {};
    } else {
      var k :| k in m;
      var rest := m - {k};
      InjectiveValues(rest);
      assert m.Values == rest.Values + {m[k]};
      assert m[k] !in rest.Values;
      assert m.Keys == rest.Keys + {k};
      assert |rest| == |rest.Keys|;
    }
  }

  lemma {:induction false} InflightCounts<K(!new), V>(hash: K -> nat, r: Registry<K, V>, n: nat)
    requires Inv(hash, r) && n <= |r.shards|
    ensures Inflight(r.shards[..n]) == |UnpublishedIn(hash, r, n)|
  {
    hide ShardOf;
    if n > 0 {
      InflightCounts(hash, r, n - 1);
      assert r.shards[..n][..n - 1] == r.shards[..n - 1];
      var shard := r.shards[n - 1];
      forall a, b | a in shard && b in shard && shard[a] == shard[b]
        ensures a == b
      {
        EntryOwner(hash, r, n - 1, a);
        EntryOwner(hash, r, n - 1, b);
      }
      InjectiveValues(shard);
      ShardLeaders(hash, r, n - 1);
      hide UnpublishedIn;
      hide Inv;
      assert UnpublishedIn(hash, r, n - 1) !! shard.Values;
    } else {
      assert UnpublishedIn(hash, r, 0) == {};
    }
  }

  lemma ShardLeaders<K(!new), V>(hash: K -> nat, r: Registry<K, V>, i: nat)
    requires Inv(hash, r) && i < |r.shards|
    ensures UnpublishedIn(hash, r, i + 1) == UnpublishedIn(hash, r, i) + r.shards[i].Values
    ensures forall f: int :: f in r.shards[i].Values ==> f !in UnpublishedIn(hash, r, i)
  {
    hide ShardOf;
    forall f: int
      ensures f in r.shards[i].Values <==> Unpublished(r, f) && ShardOf(hash, r.flights[f].key, |r.shards|) == i
    {
      if f in r.shards[i].Values {
        var k :| k in r.shards[i] && r.shards[i][k] == f;
        EntryOwner(hash, r, i, k);
      }
      if Unpublished(r, f) && ShardOf(hash, r.flights[f].key, |r.shards|) == i {
        assert r.shards[i][r.flights[f].key] == f;
      }
    }
  }

  /** A shard's entries are the unpublished flights that hash to it. */
  lemma ShardHolds<K(!new), V>(hash: K -> nat, r: Registry<K, V>, i: nat, f: nat)
    requires Inv(hash, r) && i < |r.shards|
    ensures f in r.shards[i].Values <==> Unpublished(r, f) && ShardOf(hash, r.flights[f].key, |r.shards|) == i
  {
    hide ShardOf;
    if f in r.shards[i].Values {
      var k :| k in r.shards[i] && r.shards[i][k] == f;
      EntryOwner(hash, r, i, k);
    }
    if Unpublished(r, f) && ShardOf(hash, r.flights[f].key, |r.shards|) == i {
      assert r.shards[i][r.flights[f].key] == f;
    }
  }

  lemma ShardSize<K(!new), V>(hash: K -> nat, r: Registry<K, V>, i: nat)
    requires Inv(hash, r) && i < |r.shards|
    ensures |r.shards[i]| == |r.shards[i].Values|
  {
    var shard := r.shards[i];
    forall a, b | a in shard && b in shard && shard[a] == shard[b]
      ensures a == b
    {
      EntryOwner(hash, r, i, a);
      EntryOwner(hash, r, i, b);
    }
    InjectiveValues(shard);
  }

  // ----- what a join answers

  /** `f` is an unpublished flight for `key`. */
  predicate InFlight<K(==), V>(r: Registry<K, V>, key: K, f: nat) {
    f < |r.flights| && !r.flights[f].published && r.flights[f].key == key
  }

  /** The unpublished flights whose keys share the shard of `key`. */
  ghost function Sharing<K(!new), V>(hash: K -> nat, r: Registry<K, V>, key: K): set<nat>
    requires r.shards != []
  {
    set f: nat | f < |r.flights| && !r.flights[f].published
                 && ShardOf(hash, r.flights[f].key, |r.shards|) == ShardOf(hash, key, |r.shards|)
  }

  /**
   The three answers of a join: follow the flight of the key if there is one, however full the
   shard; else change nothing if the shard is at its ceiling; else start a flight.
   */
  ghost predicate JoinAnswers<K(!new), V>(hash: K -> nat, r: Registry<K, V>, next: Registry<K, V>, key: K, j: Joined)
    requires r.shards != []
  {
    match j
    case Follower(w) =>
      exists f :: InFlight(r, key, f) && w == |r.followers| && next == r.(followers := r.followers + [Receiver(f, 0, None)])
    case Saturated => (forall f :: !InFlight(r, key, f)) && |Sharing(hash, r, key)| >= r.ceiling && next == r
    case Leader(f) =>
      && (forall g :: !InFlight(r, key, g)) && |Sharing(hash, r, key)| < r.ceiling && f == |r.flights|
      && next.flights == r.flights + [Flight(key, false, None, [], true)] && next.followers == r.followers
  }

  lemma SharingIsShard<K(!new), V>(hash: K -> nat, r: Registry<K, V>, key: K)
    requires Inv(hash, r)
    ensures var i := ShardOf(hash, key, |r.shards|);
            i < |r.shards| && |Sharing(hash, r, key)| == |r.shards[i]|
  {
    var i := ShardOf(hash, key, |r.shards|);
    assert Sharded(hash, r);
    ShardSize(hash, r, i);
    forall f: nat
      ensures f in Sharing(hash, r, key) <==> f in r.shards[i].Values
    {
      ShardHolds(hash, r, i, f);
    }
    assert Sharing(hash, r, key) == r.shards[i].Values;
  }

  /** An entry for the key in its shard is the same as a flight for it. */
  lemma EntryIsFlight<K(!new), V>(hash: K -> nat, r: Registry<K, V>, key: K)
    requires Inv(hash, r)
    ensures var i := ShardOf(hash, key, |r.shards|);
            && i < |r.shards|
            && (key in r.shards[i] ==> InFlight(r, key, r.shards[i][key]) && r.flights[r.shards[i][key]].log == [])
            && (key !in r.shards[i] ==> forall f :: !InFlight(r, key, f))
  {
    hide ShardOf;
    var i := ShardOf(hash, key, |r.shards|);
    assert Sharded(hash, r);
    if key in r.shards[i] {
      EntryOwner(hash, r, i, key);
      assert FlightOk(r.flights[r.shards[i][key]]);
    }
  }

  /** Every join of every registry in a consistent state answers as promised. */
  lemma JoinIsRight<K(!new), V>(hash: K -> nat, r: Registry<K, V>, key: K)
    requires Inv(hash, r)
    ensures JoinAnswers(hash, r, DoJoin(hash, r, key), key, JoinResult(hash, r, key))
  {
    SharingIsShard(hash, r, key);
    EntryIsFlight(hash, r, key);
    hide ShardOf, Sharing, Inv;
  }

  /**
   In every reachable registry a join adds a receiver iff some unpublished flight has the key, and
   then for that flight; it changes nothing iff there is none and the shard is at its ceiling; and
   otherwise it starts a flight for the key.
   */
  lemma JoinDecides<K(!new), V>(hash: K -> nat, shards: nat, ceiling: nat, steps: seq<Step<K, V>>, key: K)
    requires shards <= Pow2(HASH_BITS - 1)
    ensures var r := Run(hash, New<K, V>(shards, ceiling), steps);
            var next := Next(hash, r, Join(key));
            var busy := exists f :: InFlight(r, key, f);
            var full := |Sharing(hash, r, key)| >= if ceiling >= 1 then ceiling else 1;
            && (|next.followers| > |r.followers| <==> busy)
            && (busy ==> |next.followers| == |r.followers| + 1 && InFlight(r, key, next.followers[|r.followers|].flight))
            && (next == r <==> !busy && full)
            && (|next.flights| > |r.flights| <==> !busy && !full)
            && (!busy && !full ==> |next.flights| == |r.flights| + 1 && InFlight(next, key, |r.flights|))
  {
    var r0 := New<K, V>(shards, ceiling);
    InitInv<K, V>(hash, shards, ceiling);
    RunKeepsCeiling(hash, r0, steps);
    hide New;
    RunInv(hash, r0, steps);
    var r := Run(hash, r0, steps);
    hide Run, Inv, Sharing;
    JoinIsRight(hash, r, key);
    hide JoinResult, DoJoin;
    var next, j := DoJoin(hash, r, key), JoinResult(hash, r, key);
    assert Next(hash, r, Join(key)) == next;
  }

  lemma {:induction false} RunKeepsCeiling<K(!new), V>(hash: K -> nat, r: Registry<K, V>, steps: seq<Step<K, V>>)
    requires r.shards != []
    ensures Run(hash, r, steps).ceiling == r.ceiling
    decreases |steps|
  {
    if steps != [] {
      NextShards(hash, r, steps[0]);
      RunKeepsCeiling(hash, Next(hash, r, steps[0]), steps[1..]);
    }
  }

  /**
   Delivery: once a flight's leader has acted, its send and then a receive give every waiting
   follower of the flight the leader's value, and the handle may go.
   */
  lemma PublishedIsDelivered<K(!new), V>(hash: K -> nat, r: Registry<K, V>, f: nat, i: nat)
    requires Inv(hash, r) && f < |r.flights| && r.flights[f].argument.Some?
    requires i < |r.followers| && r.followers[i].flight == f && r.followers[i].outcome.None?
    ensures var sent := Next(hash, r, Send(f));
            var released := Next(hash, sent, Release(f));
            && Next(hash, sent, Wait(i)).followers[i].outcome == r.flights[f].argument
            && !released.flights[f].held
            && Next(hash, released, Wait(i)).followers[i].outcome == r.flights[f].argument
  {
    assert FlightOk(r.flights[f]);
    var sent := Next(hash, r, Send(f));
    SendInv(hash, r, f);
    assert sent.flights[f].log != [] && sent.flights[f].argument == r.flights[f].argument;
    var released := Next(hash, sent, Release(f));
    ReleaseInv(hash, sent, f);
    assert released.flights[f].log != [] && released.flights[f].argument == r.flights[f].argument;
    hide Inv, Receive, DoSend, DoRelease;
    FollowerTold(hash, sent, i);
    FollowerTold(hash, released, i);
  }

  /** The registry object: one method per critical section. */
  class SingleFlight<K(==, !new), V> {
    const hash: K -> nat
    const ceiling: nat
    var shards: seq<map<K, nat>>
    var flights: seq<Flight<K, V>>
    var followers: seq<Receiver<V>>

    function View(): Registry<K, V>
      reads this
    {
      Registry(shards, ceiling, flights, followers)
    }

    ghost predicate Valid()
      reads this
    {
      Inv(hash, View())
    }

    constructor (shards: nat, maxInflight: nat, hash: K -> nat)
      requires shards <= Pow2(HASH_BITS - 1)
      ensures Valid() && View() == New(shards, maxInflight) && this.hash == hash
    {
      this.hash := hash;
      ceiling := if maxInflight >= 1 then maxInflight else 1;
      this.shards := seq(NextPowerOfTwo(if shards >= 1 then shards else 1), _ => map[]);
      flights, followers := [], [];
      new;
      InitInv<K, V>(hash, shards, maxInflight);
    }

    method JoinFlight(key: K) returns (j: Joined)
      requires Valid()
      modifies this
      ensures Valid() && View() == DoJoin(hash, old(View()), key)
      ensures j == JoinResult(hash, old(View()), key)
      ensures JoinAnswers(hash, old(View()), View(), key, j)
    {
      JoinInv(hash, View(), key);
      JoinIsRight(hash, View(), key);
      hide Inv, JoinAnswers;
      var i := ShardOf(hash, key, |shards|);
      if i >= |shards| {
        return Saturated;
      }
      if key in shards[i] {
        j := Follower(|followers|);
        var f := shards[i][key];
        followers := followers + [Receiver(f, if f < |flights| then |flights[f].log| else 0, None)];
        return;
      }
      if |shards[i]| >= ceiling {
        return Saturated;
      }
      j := Leader(|flights|);
      var shard: map<K, nat> := shards[i][key := |flights|];
      shards := shards[i := shard];
      flights := flights + [Flight(key, false, None, [], true)];
    }

    /** `remove`, called by the first half of `publish`. */
    method Remove(key: K)
      requires shards != []
      modifies this`shards
      ensures var i := ShardOf(hash, key, |old(shards)|);
              shards == if i < |old(shards)| then old(shards)[i := old(shards)[i] - {key}] else old(shards)
    {
      var i := ShardOf(hash, key, |shards|);
      if i < |shards| {
        shards := shards[i := shards[i] - {key}];
      }
    }

    /** `complete`, `fail`, `fail_uncacheable` or `drop`, up to the send. */
    method PublishBegin(f: nat, a: Action<V>)
      requires Valid()
      modifies this
      ensures Valid() && View() == DoPublish(hash, old(View()), f, a)
    {
      PublishInv(hash, View(), f, a);
      if f < |flights| && flights[f].held && !flights[f].published {
        var x := flights[f];
        flights := flights[f := x.(published := true, argument := Some(OutcomeOf(a)))];
        Remove(x.key);
      }
    }

    method PublishSend(f: nat)
      requires Valid()
      modifies this`flights
      ensures Valid() && View() == DoSend(old(View()), f)
    {
      SendInv(hash, View(), f);
      if f < |flights| && flights[f].held && flights[f].argument.Some? && flights[f].log == [] {
        flights := flights[f := flights[f].(log := flights[f].log + [flights[f].argument.value])];
      }
    }

    method ReleaseHandle(f: nat)
      requires Valid()
      modifies this`flights
      ensures Valid() && View() == DoRelease(old(View()), f)
    {
      ReleaseInv(hash, View(), f);
      if f < |flights| && flights[f].log != [] {
        flights := flights[f := flights[f].(held := false)];
      }
    }

    /** One `recv` of a follower; `None` means it is still waiting. */
    method WaitOnce(i: nat) returns (o: Option<Outcome<V>>)
      requires Valid() && i < |followers|
      modifies this`followers
      ensures Valid() && View() == DoWait(old(View()), i)
      ensures o == followers[i].outcome
    {
      WaitInv(hash, View(), i);
      hide Inv;
      if followers[i].outcome.None? {
        followers := followers[i := followers[i].(outcome := Receive(View(), followers[i]))];
      }
      o := followers[i].outcome;
    }

    /** `inflight` sums the shard sizes. */
    method CountInflight() returns (n: nat)
      ensures n == Inflight(shards)
    {
      n := 0;
      for i := 0 to |shards|
        invariant n == Inflight(shards[..i])
      {
        assert shards[..i + 1][..i] == shards[..i];
        n := n + |shards[i]|;
      }
      assert shards[..|shards|] == shards;
    }
  }
}
