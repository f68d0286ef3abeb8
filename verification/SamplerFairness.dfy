/**
 Fairness of the sampler over whole runs: no bucket starves while the history table stays under
 its prune limit, and what pruning does once it does not.
 */
module SamplerFairness {
  import opened Seqs
  import opened Sorting
  import opened Prefixes
  import opened Buckets
  import opened Sampler

  /** What happens to a sampler between two observations, with the snapshot fixed. */
  datatype Op = Round(budget: nat) | Success(addr: nat)

  function Step(c: Config, prefixes: seq<Net>, s: State, op: Op): State
    requires ValidConfig(c) && ValidTable(prefixes)
  {
    match op
    case Round(budget) => NextState(c, s, prefixes, budget)
    case Success(addr) => SuccessState(c, s, prefixes, addr)
  }

  function Run(c: Config, prefixes: seq<Net>, s: State, ops: seq<Op>): State
    requires ValidConfig(c) && ValidTable(prefixes)
    decreases |ops|
  {
    if ops == [] then s else Run(c, prefixes, Step(c, prefixes, s, ops[0]), ops[1..])
  }

  /** Some round of the run draws an address from `b`. */
  predicate Sampled(c: Config, prefixes: seq<Net>, s: State, ops: seq<Op>, b: Bucket)
    requires ValidConfig(c) && ValidTable(prefixes) && prefixes != []
    decreases |ops|
  {
    ops != [] && (
      || (ops[0].Round? && ops[0].budget > 0 && b in Chosen(c, s.history, prefixes, ops[0].budget))
      || Sampled(c, prefixes, Step(c, prefixes, s, ops[0]), ops[1..], b))
  }

  function Rounds(ops: seq<Op>): nat {
    if ops == [] then 0 else (if ops[0].Round? then 1 else 0) + Rounds(ops[1..])
  }

  /** Every round of the run leaves the explore phase at least one pick. */
  predicate Explores(c: Config, ops: seq<Op>)
    requires ValidConfig(c)
  {
    forall i :: 0 <= i < |ops| && ops[i].Round? ==> ops[i].budget - ExploitBudget(c, ops[i].budget) >= 1
  }

  ghost function BucketSet(c: Config, prefixes: seq<Net>): set<Bucket>
    requires ValidConfig(c) && ValidTable(prefixes)
  {
    ToSet(AllBuckets(c.perPrefix, prefixes))
  }

  /** No bucket was visited in the future. */
  predicate Consistent(s: State) {
    forall b :: b in s.history ==> s.history[b].lastRound <= s.round
  }

  // ----- one step

  lemma {:induction false} VisitFacts(h: History, chosen: seq<Bucket>, round: nat)
    ensures var v := Visit(h, chosen, round);
            && v.Keys == h.Keys + ToSet(chosen)
            && (forall b :: b in chosen ==> LastRound(v, b) == round)
            && (forall b :: b !in chosen ==> LastRound(v, b) == LastRound(h, b))
  {
    if chosen != [] {
      var last := |chosen| - 1;
      VisitFacts(h, chosen[..last], round);
      assert chosen == chosen[..last] + [chosen[last]];
    }
  }

  /** Position `i` of the enumeration comes no later than `j`: last round, then tie-break, then position. */
  predicate Sooner(h: History, tiebreak: Bucket -> nat, all: seq<Bucket>, i: nat, j: nat)
    requires i < |all| && j < |all|
  {
    || LastRound(h, all[i]) < LastRound(h, all[j])
    || (LastRound(h, all[i]) == LastRound(h, all[j]) &&
        (tiebreak(all[i]) < tiebreak(all[j]) || (tiebreak(all[i]) == tiebreak(all[j]) && i <= j)))
  }

  /** The sort is stable, so the head of the order is the soonest bucket, ties included. */
  ghost predicate Foremost(h: History, tiebreak: Bucket -> nat, all: seq<Bucket>, f: Bucket) {
    exists i :: 0 <= i < |all| && all[i] == f && forall j :: 0 <= j < |all| ==> Sooner(h, tiebreak, all, i, j)
  }

  lemma HeadIsForemost(c: Config, h: History, all: seq<Bucket>)
    requires ExploreOrder(c, h, all) != []
    requires forall b :: b in all ==> Before(h, c.tiebreak, ExploreOrder(c, h, all)[0], b)
    ensures Foremost(h, c.tiebreak, all, ExploreOrder(c, h, all)[0])
  {
    var leq, order := ExploreLeq(h, c.tiebreak), ExploreOrder(c, h, all);
    var f := order[0];
    var tied := (b: Bucket) => LastRound(h, b) == LastRound(h, f) && c.tiebreak(b) == c.tiebreak(f);
    SortStable(all, leq, tied);
    FirstIsHead(tied, order);
    FirstIsHead(tied, all);
    var i := FirstIndex(tied, all);
    forall j | 0 <= j < |all|
      ensures Sooner(h, c.tiebreak, all, i, j)
    {
      assert all[j] in all;
      assert j < i ==> !tied(all[j]);
    }
  }

  lemma OrderHead(c: Config, h: History, prefixes: seq<Net>) returns (f: Bucket)
    requires ValidConfig(c) && ValidTable(prefixes) && prefixes != []
    ensures var order := ExploreOrder(c, h, AllBuckets(c.perPrefix, prefixes));
            order != [] && Distinct(order) && f == order[0]
    ensures f in BucketSet(c, prefixes)
    ensures forall b :: b in BucketSet(c, prefixes) ==> Before(h, c.tiebreak, f, b)
    ensures Foremost(h, c.tiebreak, AllBuckets(c.perPrefix, prefixes), f)
  {
    var all := AllBuckets(c.perPrefix, prefixes);
    var order := ExploreOrder(c, h, all);
    ExploreOrderFacts(c, h, prefixes);
    assert prefixes[0] in prefixes;
    AllBucketsMember(c.perPrefix, prefixes, Bucket(prefixes[0], 0));
    hide AllBuckets;
    hide ExploreOrder;
    hide Distinct;
    hide ValidTable;
    assert Bucket(prefixes[0], 0) in order;
    f := order[0];
    assert f in order;
    forall b | b in BucketSet(c, prefixes)
      ensures Before(h, c.tiebreak, f, b)
    {
      assert b in order;
      var k :| 0 <= k < |order| && order[k] == b;
      assert k > 0 ==> ExploreLeq(h, c.tiebreak)(order[0], order[k]);
    }
    hide Foremost, Before;
    assert forall b :: b in all ==> b in BucketSet(c, prefixes);
    HeadIsForemost(c, h, all);
  }

  /** The least recently visited bucket is always picked. */
  lemma FirstIsChosen(c: Config, h: History, prefixes: seq<Net>, budget: nat) returns (f: Bucket)
    requires ValidConfig(c) && ValidTable(prefixes) && prefixes != []
    requires budget - ExploitBudget(c, budget) >= 1
    ensures f in BucketSet(c, prefixes) && f in Chosen(c, h, prefixes, budget)
    ensures forall b :: b in BucketSet(c, prefixes) ==> Before(h, c.tiebreak, f, b)
    ensures Foremost(h, c.tiebreak, AllBuckets(c.perPrefix, prefixes), f)
  {
    hide Foremost;
    hide BucketSet;
    hide ExploreOrder;
    hide PickExplore;
    hide Before;
    hide Distinct;
    hide Chosen;
    f := OrderHead(c, h, prefixes);
    FirstPick(ExploreOrder(c, h, AllBuckets(c.perPrefix, prefixes)),
              budget - ExploitBudget(c, budget), FairShare(budget, |prefixes|));
    ChosenFacts(c, h, prefixes, budget);
    var e := Explored(c, h, prefixes, budget);
    assert e[0] == f;
  }

  lemma FirstPick(order: seq<Bucket>, limit: nat, share: nat)
    requires order != [] && limit >= 1 && share >= 1
    requires Distinct(order)
    ensures var r := PickExplore(order, limit, share, []);
            r != [] && r[0] == order[0]
  {
    assert [] + [order[0]] == [order[0]];
    assert PickExplore(order, limit, share, []) == PickExplore(order[1..], limit, share, [order[0]]);
    PickKeepsPrefix(order[1..], limit, share, [order[0]]);
  }

  lemma {:induction false} PickKeepsPrefix(order: seq<Bucket>, limit: nat, share: nat, chosen: seq<Bucket>)
    ensures chosen <= PickExplore(order, limit, share, chosen)
  {
    if order != [] && |chosen| < limit {
      if CountNet(chosen, order[0].net) >= share {
        PickKeepsPrefix(order[1..], limit, share, chosen);
      } else {
        PickKeepsPrefix(order[1..], limit, share, chosen + [order[0]]);
      }
    }
  }

  // ----- no starvation

  /** The buckets that may be picked before `b`. */
  ghost function Ahead(c: Config, prefixes: seq<Net>, h: History, b: Bucket): set<Bucket>
    requires ValidConfig(c) && ValidTable(prefixes)
  {
    set x | x in BucketSet(c, prefixes) && x != b && Before(h, c.tiebreak, x, b)
  }

  /** The buckets the table holds or could come to hold fit under the prune limit. */
  ghost predicate UnderLimit(c: Config, prefixes: seq<Net>, s: State)
    requires ValidConfig(c) && ValidTable(prefixes)
  {
    |s.history.Keys + BucketSet(c, prefixes)| <= PRUNE_LIMIT
  }

  lemma ChosenInSet(c: Config, prefixes: seq<Net>, h: History, budget: nat)
    requires ValidConfig(c) && ValidTable(prefixes) && prefixes != []
    ensures ToSet(Chosen(c, h, prefixes, budget)) <= BucketSet(c, prefixes)
  {
    ChosenFacts(c, h, prefixes, budget);
  }

  lemma RoundUnderLimit(c: Config, prefixes: seq<Net>, s: State, budget: nat)
    requires ValidConfig(c) && ValidTable(prefixes) && prefixes != [] && budget > 0
    requires UnderLimit(c, prefixes, s)
    ensures var chosen := Chosen(c, s.history, prefixes, budget);
            NextState(c, s, prefixes, budget) == State(Visit(s.history, chosen, s.round + 1), s.round + 1)
    ensures UnderLimit(c, prefixes, NextState(c, s, prefixes, budget))
  {
    hide ValidConfig;
    hide ValidTable;
    hide BucketSet;
    hide Chosen;
    hide Visit;
    hide Prune;
    hide ToSet;
    hide LastRound;
    var chosen := Chosen(c, s.history, prefixes, budget);
    ChosenInSet(c, prefixes, s.history, budget);
    VisitFacts(s.history, chosen, s.round + 1);
    var v := Visit(s.history, chosen, s.round + 1);
    KeysStayBounded(s.history.Keys, ToSet(chosen), BucketSet(c, prefixes));
    PruneIdle(v, s.round + 1);
  }

  lemma KeysStayBounded<T>(keys: set<T>, added: set<T>, all: set<T>)
    requires added <= all
    ensures keys + added + all == keys + all && |keys + added| <= |keys + all|
  {
    SubsetCardinality(keys + added, keys + all);
  }

  lemma PruneIdle(h: History, round: nat)
    requires |h.Keys| <= PRUNE_LIMIT
    ensures Prune(h, round) == h
  {
    assert |h| == |h.Keys|;
  }

  lemma SuccessUnderLimit(c: Config, prefixes: seq<Net>, s: State, addr: nat)
    requires ValidConfig(c) && ValidTable(prefixes) && UnderLimit(c, prefixes, s)
    ensures UnderLimit(c, prefixes, SuccessState(c, s, prefixes, addr))
    ensures forall b :: LastRound(SuccessState(c, s, prefixes, addr).history, b) == LastRound(s.history, b)
  {
    var located := Locate(c.perPrefix, prefixes, addr);
    if located.Some? {
      LocateValid(c.perPrefix, prefixes, addr);
      AllBucketsMember(c.perPrefix, prefixes, located.value);
      var s' := SuccessState(c, s, prefixes, addr);
      assert s'.history.Keys + BucketSet(c, prefixes) == s.history.Keys + BucketSet(c, prefixes);
    }
  }

  /** A round that skips `b` moves at least one bucket from ahead of `b` to behind it. */
  lemma RoundAdvances(c: Config, prefixes: seq<Net>, s: State, budget: nat, b: Bucket)
    requires ValidConfig(c) && ValidTable(prefixes) && prefixes != [] && Consistent(s)
    requires budget - ExploitBudget(c, budget) >= 1 && UnderLimit(c, prefixes, s)
    requires b in BucketSet(c, prefixes) && b !in Chosen(c, s.history, prefixes, budget)
    ensures Ahead(c, prefixes, NextState(c, s, prefixes, budget).history, b) < Ahead(c, prefixes, s.history, b)
  {
    hide ValidConfig;
    hide ValidTable;
    hide BucketSet;
    hide Chosen;
    hide Visit;
    var f := FirstIsChosen(c, s.history, prefixes, budget);
    RoundUnderLimit(c, prefixes, s, budget);
    var chosen := Chosen(c, s.history, prefixes, budget);
    VisitFacts(s.history, chosen, s.round + 1);
    var h' := NextState(c, s, prefixes, budget).history;
    assert LastRound(h', b) <= s.round;
    forall x | x in Ahead(c, prefixes, h', b)
      ensures x in Ahead(c, prefixes, s.history, b) && x != f
    {
      assert x !in chosen;
    }
    assert f in Ahead(c, prefixes, s.history, b);
  }

  lemma ConsistentStep(c: Config, prefixes: seq<Net>, s: State, op: Op)
    requires ValidConfig(c) && ValidTable(prefixes) && prefixes != [] && Consistent(s)
    ensures Consistent(Step(c, prefixes, s, op))
  {
    hide ValidConfig;
    hide ValidTable;
    hide Locate;
    hide Chosen;
    hide Visit;
    if op.Round? && op.budget > 0 {
      var chosen := Chosen(c, s.history, prefixes, op.budget);
      VisitFacts(s.history, chosen, s.round + 1);
      var v := Visit(s.history, chosen, s.round + 1);
      forall b | b in v
        ensures v[b].lastRound <= s.round + 1
      {
        assert LastRound(v, b) == v[b].lastRound;
      }
    }
  }

  /**
   No bucket starves. From any state, a run that contains more rounds than there are buckets
   ahead of `b` samples `b`, whatever the exploit phase and `record_success` do in between.
   */
  lemma {:induction false} SampledWithin(c: Config, prefixes: seq<Net>, s: State, ops: seq<Op>, b: Bucket)
    requires ValidConfig(c) && ValidTable(prefixes) && prefixes != [] && Consistent(s)
    requires Explores(c, ops) && UnderLimit(c, prefixes, s)
    requires b in BucketSet(c, prefixes)
    requires Rounds(ops) > |Ahead(c, prefixes, s.history, b)|
    ensures Sampled(c, prefixes, s, ops, b)
    decreases |ops|
  {
    hide ValidTable;
    hide BucketSet;
    hide NextState;
    hide SuccessState;
    hide Chosen;
    var op, rest := ops[0], ops[1..];
    var s' := Step(c, prefixes, s, op);
    ConsistentStep(c, prefixes, s, op);
    assert Explores(c, rest) by {
      assert forall i :: 0 <= i < |rest| ==> rest[i] == ops[i + 1];
    }
    match op
    case Round(budget) =>
      assert budget - ExploitBudget(c, budget) >= 1;
      if b !in Chosen(c, s.history, prefixes, budget) {
        RoundAdvances(c, prefixes, s, budget, b);
        RoundUnderLimit(c, prefixes, s, budget);
        ProperSubset(Ahead(c, prefixes, s'.history, b), Ahead(c, prefixes, s.history, b));
        SampledWithin(c, prefixes, s', rest, b);
      }
    case Success(addr) =>
      SuccessUnderLimit(c, prefixes, s, addr);
      assert Ahead(c, prefixes, s'.history, b) == Ahead(c, prefixes, s.history, b);
      SampledWithin(c, prefixes, s', rest, b);
  }

  lemma ProperSubset<T>(a: set<T>, b: set<T>)
    requires a < b
    ensures |a| < |b|
  {
    var x :| x in b && x !in a;
    SubsetCardinality(a, b - {x});
  }

  /**
   With N buckets in total, every bucket is sampled in any N consecutive rounds.
   */
  lemma NoBucketStarves(c: Config, prefixes: seq<Net>, s: State, ops: seq<Op>, b: Bucket)
    requires ValidConfig(c) && ValidTable(prefixes) && prefixes != [] && Consistent(s)
    requires Explores(c, ops) && UnderLimit(c, prefixes, s)
    requires b in BucketSet(c, prefixes)
    requires Rounds(ops) >= |AllBuckets(c.perPrefix, prefixes)|
    ensures Sampled(c, prefixes, s, ops, b)
  {
    AllBucketsDistinct(c.perPrefix, prefixes);
    DistinctCardinality(AllBuckets(c.perPrefix, prefixes));
    hide AllBuckets;
    ProperSubset(Ahead(c, prefixes, s.history, b), BucketSet(c, prefixes));
    SampledWithin(c, prefixes, s, ops, b);
  }

  /** The assumptions of `NoBucketStarves` about the state hold in every run from a new sampler. */
  lemma {:induction false} ReachableConsistent(c: Config, prefixes: seq<Net>, s: State, ops: seq<Op>)
    requires ValidConfig(c) && ValidTable(prefixes) && prefixes != [] && Consistent(s)
    ensures Consistent(Run(c, prefixes, s, ops))
    decreases |ops|
  {
    if ops != [] {
      ConsistentStep(c, prefixes, s, ops[0]);
      ReachableConsistent(c, prefixes, Step(c, prefixes, s, ops[0]), ops[1..]);
    }
  }

  // ----- past the prune limit

  /** One address per round, nothing else. */
  predicate OneByOne(c: Config, ops: seq<Op>)
    requires ValidConfig(c)
  {
    ExploitBudget(c, 1) == 0 && forall i :: 0 <= i < |ops| ==> ops[i] == Round(1)
  }

  /** Visits one at a time leave distinct round numbers in the table. */
  ghost predicate Spread(s: State) {
    && Consistent(s)
    && (forall a, b :: a in s.history && b in s.history && s.history[a].lastRound == s.history[b].lastRound ==> a == b)
  }

  lemma PruneShrinks(h: History, round: nat)
    requires Spread(State(h, round)) && |h| <= PRUNE_LIMIT + 1
    ensures |Prune(h, round)| <= PRUNE_LIMIT && Spread(State(Prune(h, round), round))
    ensures Prune(h, round).Keys <= h.Keys
  {
    if |h| > PRUNE_LIMIT {
      var p := Prune(h, round);
      var f: Bucket -> int := (b: Bucket) => LastRound(h, b);
      forall a, b | a in p.Keys && b in p.Keys && f(a) == f(b)
        ensures a == b
      {
        assert h[a].lastRound == h[b].lastRound;
      }
      DistinctMarks(p.Keys, f, round - PRUNE_AGE, round + 1);
      assert |p| == |p.Keys|;
    }
  }

  lemma SingleVisit(c: Config, prefixes: seq<Net>, h: History) returns (f: Bucket)
    requires ValidConfig(c) && ValidTable(prefixes) && prefixes != [] && ExploitBudget(c, 1) == 0
    ensures Chosen(c, h, prefixes, 1) == [f]
    ensures f in BucketSet(c, prefixes)
    ensures forall b :: b in BucketSet(c, prefixes) ==> Before(h, c.tiebreak, f, b)
    ensures Foremost(h, c.tiebreak, AllBuckets(c.perPrefix, prefixes), f)
  {
    hide Foremost;
    f := FirstIsChosen(c, h, prefixes, 1);
    ChosenFacts(c, h, prefixes, 1);
    hide Chosen;
    var r := Chosen(c, h, prefixes, 1);
    assert |r| <= 1 && f in r;
    assert r == [f];
  }

  lemma Outside<T>(a: set<T>, b: T, all: set<T>) returns (x: T)
    requires a <= all && b in all && b !in a && |a| + 2 <= |all|
    ensures x in all && x !in a && x != b
  {
    var rest := all - a - {b};
    assert all == a + {b} + rest;
    assert |all| == |a| + 1 + |rest|;
    x :| x in rest;
  }

  /** `b` comes last in tie-break order, equal tie-breaks in the order of enumeration. */
  ghost predicate Last(c: Config, prefixes: seq<Net>, b: Bucket)
    requires ValidConfig(c) && ValidTable(prefixes)
  {
    LastAmong(c.tiebreak, AllBuckets(c.perPrefix, prefixes), b)
  }

  ghost predicate LastAmong(tiebreak: Bucket -> nat, all: seq<Bucket>, b: Bucket) {
    exists j :: 0 <= j < |all| && all[j] == b && forall i :: 0 <= i < |all| ==> Later(tiebreak, all, i, j)
  }

  predicate Later(tiebreak: Bucket -> nat, all: seq<Bucket>, i: nat, j: nat)
    requires i < |all| && j < |all|
  {
    tiebreak(all[i]) < tiebreak(all[j]) || (tiebreak(all[i]) == tiebreak(all[j]) && i <= j)
  }

  /** While another bucket is untracked, the last one is not the first in line. */
  lemma LastWaits(h: History, tiebreak: Bucket -> nat, all: seq<Bucket>, b: Bucket, f: Bucket, x: Bucket)
    requires Distinct(all) && LastAmong(tiebreak, all, b) && Foremost(h, tiebreak, all, f)
    requires x in all && x !in h && x != b
    ensures f != b && LastRound(h, f) == 0
  {
    var i :| 0 <= i < |all| && all[i] == f && forall j :: 0 <= j < |all| ==> Sooner(h, tiebreak, all, i, j);
    var j :| 0 <= j < |all| && all[j] == b && forall k :: 0 <= k < |all| ==> Later(tiebreak, all, k, j);
    var k :| 0 <= k < |all| && all[k] == x;
    assert Sooner(h, tiebreak, all, i, k) && Later(tiebreak, all, k, j);
    assert i != j;
  }

  /** Two untracked buckets exist, so the last one in tie-break order is not the first. */
  lemma LastIsSkipped(c: Config, prefixes: seq<Net>, h: History, b: Bucket, f: Bucket)
    requires ValidConfig(c) && ValidTable(prefixes)
    requires h.Keys <= BucketSet(c, prefixes) && |h| + 2 <= |BucketSet(c, prefixes)|
    requires b in BucketSet(c, prefixes) && b !in h && Last(c, prefixes, b)
    requires Foremost(h, c.tiebreak, AllBuckets(c.perPrefix, prefixes), f)
    ensures f != b
  {
    AllBucketsDistinct(c.perPrefix, prefixes);
    var x := Outside(h.Keys, b, BucketSet(c, prefixes));
    hide ValidConfig, ValidTable, AllBuckets, LastAmong, Foremost, Distinct;
    LastWaits(h, c.tiebreak, AllBuckets(c.perPrefix, prefixes), b, f, x);
  }

  /**
   Beyond the limit the fairness is lost. With at least two buckets more than the table may
   hold and one address per round, pruning keeps forgetting the visited buckets before the
   last one in tie-break order is reached: that bucket is never sampled, in any run.
   */
  lemma {:induction false} PruningStarves(c: Config, prefixes: seq<Net>, s: State, ops: seq<Op>, b: Bucket)
    requires ValidConfig(c) && ValidTable(prefixes) && prefixes != [] && OneByOne(c, ops)
    requires Spread(s) && |s.history| <= PRUNE_LIMIT && s.history.Keys <= BucketSet(c, prefixes)
    requires |BucketSet(c, prefixes)| >= PRUNE_LIMIT + 2
    requires b in BucketSet(c, prefixes) && b !in s.history && Last(c, prefixes, b)
    ensures !Sampled(c, prefixes, s, ops, b)
    decreases |ops|
  {
    hide ValidConfig;
    hide ValidTable;
    hide BucketSet;
    hide Chosen;
    hide Visit;
    hide Prune;
    hide Spread;
    hide Last;
    hide Foremost;
    hide AllBuckets;
    if ops != [] {
      var f := SingleVisit(c, prefixes, s.history);
      LastIsSkipped(c, prefixes, s.history, b, f);
      var h' := SingleRound(c, prefixes, s, f);
      assert ops[0] == Round(1);
      assert OneByOne(c, ops[1..]);
      PruningStarves(c, prefixes, State(h', s.round + 1), ops[1..], b);
    }
  }

  lemma SingleRound(c: Config, prefixes: seq<Net>, s: State, f: Bucket) returns (h': History)
    requires ValidConfig(c) && ValidTable(prefixes) && prefixes != []
    requires Chosen(c, s.history, prefixes, 1) == [f]
    requires Spread(s) && |s.history| <= PRUNE_LIMIT
    ensures NextState(c, s, prefixes, 1) == State(h', s.round + 1)
    ensures Spread(State(h', s.round + 1)) && |h'| <= PRUNE_LIMIT && h'.Keys <= s.history.Keys + {f}
  {
    hide ValidConfig;
    hide ValidTable;
    hide Chosen;
    hide Visit;
    hide Spread;
    hide Prune;
    VisitOne(s.history, f, s.round + 1);
    var v := Visit(s.history, [f], s.round + 1);
    PruneShrinks(v, s.round + 1);
    h' := Prune(v, s.round + 1);
  }

  lemma VisitOne(h: History, f: Bucket, round: nat)
    requires round >= 1 && Spread(State(h, round - 1))
    ensures var v := Visit(h, [f], round);
            Spread(State(v, round)) && v.Keys == h.Keys + {f} && |v| <= |h| + 1
  {
    var chosen := [f];
    assert chosen[..|chosen| - 1] == [];
    assert Visit(h, [], round) == h;
    var v := Visit(h, chosen, round);
    assert v == h[f := Visited(h, f, round)];
    assert v.Keys == h.Keys + {f};
    assert |v| == |v.Keys|;
  }
}
