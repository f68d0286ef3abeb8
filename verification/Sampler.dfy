/**
 One round of the stratified sampler.

 The specification functions (`ExploreOrder`, `PickExplore`, `PickExploit`, `Visit`, `Prune`)
 define a round on values; the class methods carry out the loops and are proved against them.
 */
module Sampler {
  import opened Seqs
  import opened Sorting
  import opened Prefixes
  import opened Buckets

  const PRUNE_LIMIT: nat := 200_000
  const PRUNE_AGE: nat := 1_000
  const U32_MAX: nat := 0xffff_ffff

  datatype BucketState = BucketState(attempts: nat, successes: nat, lastRound: nat)

  type History = map<Bucket, BucketState>

  /**
   Configuration after clamping. The seeded FNV hashes are arbitrary functions: `tiebreak`
   orders buckets, `draw` picks the offset for a bucket and a round.
   */
  datatype Config = Config(perPrefix: nat, exploitFraction: real, tiebreak: Bucket -> nat, draw: (Bucket, nat) -> nat)

  predicate ValidConfig(c: Config) {
    1 <= c.perPrefix <= MAX_BUCKETS_PER_PREFIX && 0.0 <= c.exploitFraction <= 1.0
  }

  /** The IPv4 table of a snapshot: valid prefixes, each once. */
  predicate ValidTable(prefixes: seq<Net>) {
    ValidNets(prefixes, V4_BITS) && Distinct(prefixes)
  }

  function ExploitBudget(c: Config, budget: nat): (r: nat)
    requires ValidConfig(c)
    ensures r <= budget
  {
    ScaledBudget(budget as real, c.exploitFraction);
    (budget as real * c.exploitFraction).Floor
  }

  lemma ScaledBudget(b: real, f: real)
    requires b >= 0.0 && 0.0 <= f <= 1.0
    ensures 0.0 <= b * f <= b
  {
    assert b * (1.0 - f) >= 0.0;
    assert b * f == b - b * (1.0 - f);
  }

  function FairShare(budget: nat, prefixes: nat): nat
    requires prefixes > 0
  {
    var share := (budget + prefixes - 1) / prefixes;
    if share >= 1 then share else 1
  }

  // ----- enumeration

  function NetBuckets(n: Net, count: nat): (r: seq<Bucket>)
    ensures |r| == count && forall i :: 0 <= i < count ==> r[i] == Bucket(n, i)
  {
    if count == 0 then [] else NetBuckets(n, count - 1) + [Bucket(n, count - 1)]
  }

  function AllBuckets(perPrefix: nat, prefixes: seq<Net>): seq<Bucket>
    requires perPrefix >= 1 && ValidNets(prefixes, V4_BITS)
  {
    if prefixes == [] then []
    else
      var last := |prefixes| - 1;
      assert prefixes[last] in prefixes;
      AllBuckets(perPrefix, prefixes[..last]) + NetBuckets(prefixes[last], BucketsFor(perPrefix, prefixes[last]))
  }

  lemma {:induction false} AllBucketsMember(perPrefix: nat, prefixes: seq<Net>, b: Bucket)
    requires perPrefix >= 1 && ValidNets(prefixes, V4_BITS)
    ensures b in AllBuckets(perPrefix, prefixes) <==> b.net in prefixes && ValidBucket(perPrefix, b)
  {
    if prefixes != [] {
      var last := |prefixes| - 1;
      AllBucketsMember(perPrefix, prefixes[..last], b);
      assert prefixes[last] in prefixes;
      var tail := NetBuckets(prefixes[last], BucketsFor(perPrefix, prefixes[last]));
      assert prefixes == prefixes[..last] + [prefixes[last]];
      assert b in tail <==> b.net == prefixes[last] && b.index < |tail| by {
        if b.net == prefixes[last] && b.index < |tail| {
          assert tail[b.index] == b;
        }
      }
    }
  }

  lemma {:induction false} AllBucketsDistinct(perPrefix: nat, prefixes: seq<Net>)
    requires perPrefix >= 1 && ValidTable(prefixes)
    ensures Distinct(AllBuckets(perPrefix, prefixes))
  {
    if prefixes != [] {
      var last := |prefixes| - 1;
      AllBucketsDistinct(perPrefix, prefixes[..last]);
      assert prefixes[last] in prefixes;
      var init := AllBuckets(perPrefix, prefixes[..last]);
      var tail := NetBuckets(prefixes[last], BucketsFor(perPrefix, prefixes[last]));
      forall b | b in tail
        ensures b !in init
      {
        AllBucketsMember(perPrefix, prefixes[..last], b);
        assert prefixes[last] !in prefixes[..last];
      }
      DistinctConcat(init, tail);
    }
  }

  // ----- ordering

  function LastRound(h: History, b: Bucket): nat {
    if b in h then h[b].lastRound else 0
  }

  function Yield(s: BucketState): real {
    if s.attempts == 0 then 0.0 else s.successes as real / s.attempts as real
  }

  /** Never visited first, then least recently visited, ties on the seeded hash. */
  predicate Before(h: History, tiebreak: Bucket -> nat, a: Bucket, b: Bucket) {
    || LastRound(h, a) < LastRound(h, b)
    || (LastRound(h, a) == LastRound(h, b) && tiebreak(a) <= tiebreak(b))
  }

  function ExploreLeq(h: History, tiebreak: Bucket -> nat): (Bucket, Bucket) -> bool {
    (a: Bucket, b: Bucket) => Before(h, tiebreak, a, b)
  }

  function Score(h: History, b: Bucket): real {
    if b in h then Yield(h[b]) else 0.0
  }

  /** Best yield first, ties on the seeded hash. */
  function ExploitLeq(h: History, tiebreak: Bucket -> nat): (Bucket, Bucket) -> bool {
    (a: Bucket, b: Bucket) =>
      Score(h, a) > Score(h, b) || (Score(h, a) == Score(h, b) && tiebreak(a) <= tiebreak(b))
  }

  function Attempted(h: History): Bucket -> bool {
    (b: Bucket) => b in h && h[b].attempts > 0
  }

  function ExploreOrder(c: Config, h: History, buckets: seq<Bucket>): seq<Bucket> {
    Sort(buckets, ExploreLeq(h, c.tiebreak))
  }

  function ExploitOrder(c: Config, h: History, buckets: seq<Bucket>): seq<Bucket> {
    Sort(Filter(Attempted(h), buckets), ExploitLeq(h, c.tiebreak))
  }

  // ----- selection

  function CountNet(chosen: seq<Bucket>, n: Net): nat {
    if chosen == [] then 0
    else CountNet(chosen[..|chosen| - 1], n) + if chosen[|chosen| - 1].net == n then 1 else 0
  }

  function PickExplore(order: seq<Bucket>, limit: nat, share: nat, chosen: seq<Bucket>): seq<Bucket> {
    if order == [] || |chosen| >= limit then chosen
    else if CountNet(chosen, order[0].net) >= share then PickExplore(order[1..], limit, share, chosen)
    else PickExplore(order[1..], limit, share, chosen + [order[0]])
  }

  function PickExploit(order: seq<Bucket>, limit: nat, chosen: seq<Bucket>): seq<Bucket> {
    if order == [] || |chosen| >= limit then chosen
    else if order[0] in chosen then PickExploit(order[1..], limit, chosen)
    else PickExploit(order[1..], limit, chosen + [order[0]])
  }

  function Explored(c: Config, h: History, prefixes: seq<Net>, budget: nat): seq<Bucket>
    requires ValidConfig(c) && ValidTable(prefixes) && prefixes != []
  {
    PickExplore(ExploreOrder(c, h, AllBuckets(c.perPrefix, prefixes)),
                budget - ExploitBudget(c, budget), FairShare(budget, |prefixes|), [])
  }

  /** The buckets one round samples. */
  function Chosen(c: Config, h: History, prefixes: seq<Net>, budget: nat): seq<Bucket>
    requires ValidConfig(c) && ValidTable(prefixes) && prefixes != []
  {
    PickExploit(ExploitOrder(c, h, AllBuckets(c.perPrefix, prefixes)), budget, Explored(c, h, prefixes, budget))
  }

  // ----- effect

  function Bump(x: nat): nat {
    if x >= U32_MAX then U32_MAX else x + 1
  }

  function Visited(h: History, b: Bucket, round: nat): BucketState {
    var s := if b in h then h[b] else BucketState(0, 0, 0);
    BucketState(Bump(s.attempts), s.successes, round)
  }

  function Visit(h: History, chosen: seq<Bucket>, round: nat): History {
    if chosen == [] then h
    else
      var last := |chosen| - 1;
      var before := Visit(h, chosen[..last], round);
      before[chosen[last] := Visited(before, chosen[last], round)]
  }

  function Prune(h: History, round: nat): History {
    if |h| > PRUNE_LIMIT then map b | b in h && h[b].lastRound + PRUNE_AGE >= round :: h[b]
    else h
  }

  function Addresses(c: Config, chosen: seq<Bucket>, round: nat): seq<nat>
    requires forall b :: b in chosen ==> ValidBucket(c.perPrefix, b)
  {
    if chosen == [] then []
    else
      var last := |chosen| - 1;
      assert chosen[last] in chosen;
      Addresses(c, chosen[..last], round) + [AddressOf(c.perPrefix, chosen[last], c.draw(chosen[last], round))]
  }

  datatype State = State(history: History, round: nat)

  function NextState(c: Config, s: State, prefixes: seq<Net>, budget: nat): State
    requires ValidConfig(c) && ValidTable(prefixes)
  {
    if prefixes == [] || budget == 0 then s
    else
      var round := s.round + 1;
      State(Prune(Visit(s.history, Chosen(c, s.history, prefixes, budget), round), round), round)
  }

  function Proposals(c: Config, s: State, prefixes: seq<Net>, budget: nat): seq<nat>
    requires ValidConfig(c) && ValidTable(prefixes)
  {
    if prefixes == [] || budget == 0 then []
    else
      ChosenValid(c, s.history, prefixes, budget);
      Addresses(c, Chosen(c, s.history, prefixes, budget), s.round + 1)
  }

  function SuccessState(c: Config, s: State, prefixes: seq<Net>, addr: nat): State
    requires ValidConfig(c) && ValidTable(prefixes)
  {
    match Locate(c.perPrefix, prefixes, addr)
    case None => s
    case Some(b) =>
      var e := if b in s.history then s.history[b] else BucketState(0, 0, 0);
      s.(history := s.history[b := e.(successes := Bump(e.successes))])
  }

  // ----- what the selection guarantees

  ghost predicate Extends(chosen: seq<Bucket>, r: seq<Bucket>, order: seq<Bucket>) {
    && chosen <= r
    && (Distinct(chosen) ==> Distinct(r))
    && forall b :: b in r ==> b in chosen || b in order
  }

  ghost predicate Within(chosen: seq<Bucket>, share: nat) {
    forall n :: CountNet(chosen, n) <= share
  }

  lemma {:induction false} PickExploreFacts(order: seq<Bucket>, limit: nat, share: nat, chosen: seq<Bucket>)
    requires Distinct(order) && (forall b :: b in chosen ==> b !in order)
    requires |chosen| <= limit && Within(chosen, share)
    ensures var r := PickExplore(order, limit, share, chosen);
            Extends(chosen, r, order) && |r| <= limit && Within(r, share)
  {
    if order != [] && |chosen| < limit {
      var rest := order[1..];
      assert order == [order[0]] + rest;
      if CountNet(chosen, order[0].net) >= share {
        PickExploreFacts(rest, limit, share, chosen);
      } else {
        var more := chosen + [order[0]];
        assert more[..|more| - 1] == chosen;
        assert order[0] !in rest && order[0] in order;
        if Distinct(chosen) {
          DistinctConcat(chosen, [order[0]]);
        }
        PickExploreFacts(rest, limit, share, more);
      }
    }
  }

  lemma {:induction false} PickExploitFacts(order: seq<Bucket>, limit: nat, chosen: seq<Bucket>)
    requires |chosen| <= limit
    ensures var r := PickExploit(order, limit, chosen);
            Extends(chosen, r, order) && |r| <= limit
  {
    if order != [] && |chosen| < limit {
      var rest := order[1..];
      assert order == [order[0]] + rest;
      if order[0] in chosen {
        PickExploitFacts(rest, limit, chosen);
      } else {
        if Distinct(chosen) {
          DistinctConcat(chosen, [order[0]]);
        }
        PickExploitFacts(rest, limit, chosen + [order[0]]);
      }
    }
  }

  lemma ExploreOrderFacts(c: Config, h: History, prefixes: seq<Net>)
    requires ValidConfig(c) && ValidTable(prefixes)
    ensures var all := AllBuckets(c.perPrefix, prefixes);
            var order := ExploreOrder(c, h, all);
            && Distinct(order) && Sorted(order, ExploreLeq(h, c.tiebreak))
            && (forall b :: b in order <==> b in all)
  {
    var all := AllBuckets(c.perPrefix, prefixes);
    AllBucketsDistinct(c.perPrefix, prefixes);
    SortDistinct(all, ExploreLeq(h, c.tiebreak));
    SortPermutes(all, ExploreLeq(h, c.tiebreak));
    SortSorts(all, ExploreLeq(h, c.tiebreak));
  }

  lemma ExploitOrderFacts(c: Config, h: History, prefixes: seq<Net>)
    requires ValidConfig(c) && ValidTable(prefixes)
    ensures var all := AllBuckets(c.perPrefix, prefixes);
            forall b :: b in ExploitOrder(c, h, all) ==> b in all
  {
    var all := AllBuckets(c.perPrefix, prefixes);
    var p := Attempted(h);
    SortPermutes(Filter(p, all), ExploitLeq(h, c.tiebreak));
    forall b | b in ExploitOrder(c, h, all)
      ensures b in all
    {
      FilterMember(p, all, b);
    }
  }

  /**
   One round samples at most `budget` buckets, all different, all enumerated; the explore
   phase stays inside its budget and takes at most a fair share from each prefix.
   */
  lemma ChosenFacts(c: Config, h: History, prefixes: seq<Net>, budget: nat)
    requires ValidConfig(c) && ValidTable(prefixes) && prefixes != []
    ensures var r := Chosen(c, h, prefixes, budget);
            var e := Explored(c, h, prefixes, budget);
            && |r| <= budget && Distinct(r) && e <= r
            && (forall b :: b in r ==> b in AllBuckets(c.perPrefix, prefixes))
            && |e| <= budget - ExploitBudget(c, budget) && Within(e, FairShare(budget, |prefixes|))
  {
    var all := AllBuckets(c.perPrefix, prefixes);
    ExploreOrderFacts(c, h, prefixes);
    ExploitOrderFacts(c, h, prefixes);
    PickExploreFacts(ExploreOrder(c, h, all), budget - ExploitBudget(c, budget), FairShare(budget, |prefixes|), []);
    PickExploitFacts(ExploitOrder(c, h, all), budget, Explored(c, h, prefixes, budget));
  }

  lemma ChosenValid(c: Config, h: History, prefixes: seq<Net>, budget: nat)
    requires ValidConfig(c) && ValidTable(prefixes) && prefixes != []
    ensures forall b :: b in Chosen(c, h, prefixes, budget) ==> b.net in prefixes && ValidBucket(c.perPrefix, b)
  {
    ChosenFacts(c, h, prefixes, budget);
    forall b | b in Chosen(c, h, prefixes, budget)
      ensures b.net in prefixes && ValidBucket(c.perPrefix, b)
    {
      AllBucketsMember(c.perPrefix, prefixes, b);
    }
  }

  lemma {:induction false} AddressesAt(c: Config, chosen: seq<Bucket>, round: nat)
    requires forall b :: b in chosen ==> ValidBucket(c.perPrefix, b)
    ensures var out := Addresses(c, chosen, round);
            && |out| == |chosen|
            && (forall i :: 0 <= i < |chosen| ==>
                  chosen[i] in chosen && out[i] == AddressOf(c.perPrefix, chosen[i], c.draw(chosen[i], round)))
  {
    if chosen != [] {
      AddressesAt(c, chosen[..|chosen| - 1], round);
    }
  }

  /**
   The round trip of a whole round, for disjoint prefixes: at most `budget` pairwise distinct
   32-bit addresses, each inside an official prefix, the i-th one traced back by `Locate` to
   exactly the i-th sampled bucket.
   */
  lemma RoundTrip(c: Config, s: State, prefixes: seq<Net>, budget: nat)
    requires ValidConfig(c) && ValidTable(prefixes) && prefixes != [] && Disjoint(prefixes)
    ensures var out := Proposals(c, s, prefixes, budget);
            && |out| <= budget && Distinct(out)
            && forall i :: 0 <= i < |out| ==>
                 && out[i] < Bits.Pow2(V4_BITS)
                 && (exists n :: n in prefixes && InNet(out[i], n, V4_BITS))
                 && i < |Chosen(c, s.history, prefixes, budget)|
                 && Locate(c.perPrefix, prefixes, out[i]) == Some(Chosen(c, s.history, prefixes, budget)[i])
  {
    hide Chosen;
    hide Locate;
    hide AddressOf;
    hide Disjoint;
    if budget > 0 {
      var r, out := Chosen(c, s.history, prefixes, budget), Proposals(c, s, prefixes, budget);
      ChosenFacts(c, s.history, prefixes, budget);
      ChosenValid(c, s.history, prefixes, budget);
      AddressesAt(c, r, s.round + 1);
      forall i | 0 <= i < |out|
        ensures out[i] < Bits.Pow2(V4_BITS) && InNet(out[i], r[i].net, V4_BITS)
        ensures r[i].net in prefixes && Locate(c.perPrefix, prefixes, out[i]) == Some(r[i])
      {
        var h := c.draw(r[i], s.round + 1);
        assert r[i] in r;
        AddressInsideBucket(c.perPrefix, r[i], h);
        DisjointRoundTrip(c.perPrefix, prefixes, r[i], h);
      }
    }
  }

  // ----- the sampler object

  class StratifiedSampler {
    const config: Config
    var history: History
    var round: nat

    ghost predicate Valid() {
      ValidConfig(config)
    }

    ghost function View(): State
      reads this
    {
      State(history, round)
    }

    /** `perPrefix` is clamped to 1..=4096 and the fraction to 0..=1. */
    constructor (perPrefix: nat, exploitFraction: real, tiebreak: Bucket -> nat, draw: (Bucket, nat) -> nat)
      ensures Valid() && View() == State(map[], 0)
      ensures config.tiebreak == tiebreak && config.draw == draw
      ensures 1 <= perPrefix <= MAX_BUCKETS_PER_PREFIX ==> config.perPrefix == perPrefix
      ensures perPrefix < 1 ==> config.perPrefix == 1
      ensures perPrefix > MAX_BUCKETS_PER_PREFIX ==> config.perPrefix == MAX_BUCKETS_PER_PREFIX
      ensures 0.0 <= exploitFraction <= 1.0 ==> config.exploitFraction == exploitFraction
      ensures exploitFraction < 0.0 ==> config.exploitFraction == 0.0
      ensures exploitFraction > 1.0 ==> config.exploitFraction == 1.0
    {
      config := Config(if perPrefix < 1 then 1 else if perPrefix > MAX_BUCKETS_PER_PREFIX then MAX_BUCKETS_PER_PREFIX else perPrefix,
                       if exploitFraction < 0.0 then 0.0 else if exploitFraction > 1.0 then 1.0 else exploitFraction,
                       tiebreak, draw);
      history := map[];
      round := 0;
    }

    /** The inner enumeration loop: the buckets of one prefix, and those already attempted. */
    method EnumerateNet(n: Net, count: nat) returns (explore: seq<Bucket>, exploit: seq<Bucket>)
      ensures explore == NetBuckets(n, count)
      ensures exploit == Filter(Attempted(history), explore)
    {
      explore, exploit := [], [];
      for b := 0 to count
        invariant explore == NetBuckets(n, b)
        invariant exploit == Filter(Attempted(history), explore)
      {
        var key := Bucket(n, b);
        FilterAppend(Attempted(history), explore, [key]);
        explore := explore + [key];
        if key in history && history[key].attempts > 0 {
          exploit := exploit + [key];
        }
      }
    }

    /** The outer enumeration loop. */
    method Enumerate(prefixes: seq<Net>) returns (explore: seq<Bucket>, exploit: seq<Bucket>)
      requires Valid() && ValidTable(prefixes)
      ensures explore == AllBuckets(config.perPrefix, prefixes)
      ensures exploit == Filter(Attempted(history), explore)
    {
      explore, exploit := [], [];
      for i := 0 to |prefixes|
        invariant explore == AllBuckets(config.perPrefix, prefixes[..i])
        invariant exploit == Filter(Attempted(history), explore)
      {
        assert prefixes[i] in prefixes;
        assert prefixes[..i + 1][..i] == prefixes[..i];
        var a, b := EnumerateNet(prefixes[i], BucketsFor(config.perPrefix, prefixes[i]));
        FilterAppend(Attempted(history), explore, a);
        explore, exploit := explore + a, exploit + b;
      }
      assert prefixes[..|prefixes|] == prefixes;
    }

    /** The explore loop, with its per-prefix counters. */
    method Explore(order: seq<Bucket>, limit: nat, share: nat) returns (chosen: seq<Bucket>)
      requires share >= 1
      ensures chosen == PickExplore(order, limit, share, [])
    {
      chosen := [];
      var used: map<Net, nat> := map[];
      var i := 0;
      while i < |order|
        invariant 0 <= i <= |order|
        invariant forall n :: CountNet(chosen, n) == if n in used then used[n] else 0
        invariant PickExplore(order[i..], limit, share, chosen) == PickExplore(order, limit, share, [])
      {
        assert order[i..][0] == order[i] && order[i..][1..] == order[i + 1..];
        if |chosen| >= limit {
          return;
        }
        var n := order[i].net;
        var count := if n in used then used[n] else 0;
        if count < share {
          ghost var before := chosen;
          chosen := chosen + [order[i]];
          assert chosen[..|chosen| - 1] == before;
          used := used[n := count + 1];
        } else {
          used := used[n := count];
        }
        i := i + 1;
      }
    }

    /** The exploit loop. */
    method Exploit(order: seq<Bucket>, limit: nat, start: seq<Bucket>) returns (chosen: seq<Bucket>)
      ensures chosen == PickExploit(order, limit, start)
    {
      chosen := start;
      var i := 0;
      while i < |order|
        invariant 0 <= i <= |order|
        invariant PickExploit(order[i..], limit, chosen) == PickExploit(order, limit, start)
      {
        assert order[i..][0] == order[i] && order[i..][1..] == order[i + 1..];
        if |chosen| >= limit {
          return;
        }
        if order[i] !in chosen {
          chosen := chosen + [order[i]];
        }
        i := i + 1;
      }
    }

    /** The proposal loop: draw, record the attempt, emit the address. */
    method Propose(chosen: seq<Bucket>) returns (out: seq<nat>)
      requires Valid() && forall b :: b in chosen ==> ValidBucket(config.perPrefix, b)
      modifies this`history
      ensures history == Visit(old(history), chosen, round)
      ensures out == Addresses(config, chosen, round)
    {
      out := [];
      for i := 0 to |chosen|
        invariant history == Visit(old(history), chosen[..i], round)
        invariant out == Addresses(config, chosen[..i], round)
      {
        assert chosen[..i + 1][..i] == chosen[..i];
        assert chosen[i] in chosen;
        var addr := AddressInBucket(config.perPrefix, chosen[i], config.draw(chosen[i], round));
        if addr.Some? {
          history := history[chosen[i] := Visited(history, chosen[i], round)];
          out := out + [addr.value];
        }
      }
      assert chosen[..|chosen|] == chosen;
    }

    /** Select this round's buckets: explore first, then fill up with productive ones. */
    method Choose(prefixes: seq<Net>, budget: nat) returns (chosen: seq<Bucket>)
      requires Valid() && ValidTable(prefixes) && prefixes != []
      ensures chosen == Chosen(config, history, prefixes, budget)
    {
      var explore, exploit := Enumerate(prefixes);
      var exploreBudget := budget - ExploitBudget(config, budget);
      chosen := Explore(ExploreOrder(config, history, explore), exploreBudget, FairShare(budget, |prefixes|));
      chosen := Exploit(Sort(exploit, ExploitLeq(history, config.tiebreak)), budget, chosen);
    }

    /** One round: choose buckets, draw an address from each, prune the history. */
    method NextRound(prefixes: seq<Net>, budget: nat) returns (out: seq<nat>)
      requires Valid() && ValidTable(prefixes)
      modifies this
      ensures View() == NextState(config, old(View()), prefixes, budget)
      ensures out == Proposals(config, old(View()), prefixes, budget)
    {
      hide Chosen;
      hide Visit;
      hide Prune;
      hide Addresses;
      hide ValidBucket;
      hide ValidTable;
      hide ValidConfig;
      if prefixes == [] || budget == 0 {
        return [];
      }
      round := round + 1;
      var chosen := Choose(prefixes, budget);
      ChosenValid(config, history, prefixes, budget);
      out := Propose(chosen);
      history := Prune(history, round);
    }

    /** Credit the bucket an address falls into. */
    method RecordSuccess(prefixes: seq<Net>, addr: nat)
      requires Valid() && ValidTable(prefixes)
      modifies this`history
      ensures View() == SuccessState(config, old(View()), prefixes, addr)
    {
      var located := Locate(config.perPrefix, prefixes, addr);
      if located.Some? {
        var b := located.value;
        var e := if b in history then history[b] else BucketState(0, 0, 0);
        history := history[b := e.(successes := Bump(e.successes))];
      }
    }
  }
}
