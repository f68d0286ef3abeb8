/**
 How fast the sampler comes round: with a larger budget a round moves many buckets at once, a pass
 takes fewer rounds, and a pass short enough is never cut by pruning, whatever the table holds.
 */
module SamplerPace {
  import opened Seqs
  import opened Sorting
  import opened Prefixes
  import opened Buckets
  import opened Sampler
  import opened SamplerFairness
  import opened SamplerLimits

  /** What a round is sure to move: its explore budget, or the share of one prefix if that is less. */
  function Gain(c: Config, prefixes: seq<Net>, budget: nat): nat
    requires Exploring(c, prefixes)
  {
    var picks, share := budget - ExploitBudget(c, budget), FairShare(budget, |prefixes|);
    if picks <= share then picks else share
  }

  /** Every round of the run moves at least `g` buckets. */
  predicate AtPace(c: Config, prefixes: seq<Net>, ops: seq<Op>, g: nat)
    requires Exploring(c, prefixes)
  {
    forall i :: 0 <= i < |ops| && ops[i].Round? ==> Gain(c, prefixes, ops[i].budget) >= g
  }

  // ----- multiples of the pace

  function Times(g: nat, n: nat): nat {
    g * n
  }

  lemma TimesNext(g: nat, n: nat)
    ensures Times(g, n + 1) == Times(g, n) + g && Times(g, 0) == 0
  {
  }

  lemma TimesLess(g: nat, m: nat, n: nat)
    requires Times(g, m) < Times(g, n)
    ensures m < n
  {
    if n <= m {
      TimesGrows(g, n, m);
    }
  }

  lemma TimesGrows(g: nat, n: nat, m: nat)
    requires n <= m
    ensures Times(g, n) <= Times(g, m)
  {
    assert Times(g, m) == Times(g, n) + g * (m - n);
  }

  // ----- one round

  lemma {:induction false} CountNetBound(chosen: seq<Bucket>, n: Net)
    ensures CountNet(chosen, n) <= |chosen|
  {
    if chosen != [] {
      CountNetBound(chosen[..|chosen| - 1], n);
    }
  }

  lemma {:induction false} PickSplit(order: seq<Bucket>, k: nat, limit: nat, share: nat, chosen: seq<Bucket>)
    requires k <= |order|
    ensures PickExplore(order, limit, share, chosen) ==
            PickExplore(order[k..], limit, share, PickExplore(order[..k], limit, share, chosen))
  {
    if k == 0 {
      assert order[..0] == [] && order[0..] == order;
    } else if |chosen| < limit {
      assert order[..k][0] == order[0] && order[..k][1..] == order[1..][..k - 1] && order[1..][k - 1..] == order[k..];
      PickSplit(order[1..], k - 1, limit, share, if CountNet(chosen, order[0].net) >= share then chosen else chosen + [order[0]]);
    }
  }

  /** A bucket is passed over only when the picks before it fill the budget or its prefix's share. */
  lemma PassedOver(order: seq<Bucket>, k: nat, limit: nat, share: nat)
    requires Distinct(order) && k < |order| && order[k] !in PickExplore(order, limit, share, [])
    ensures var ahead := PickExplore(order[..k], limit, share, []);
            && ahead <= PickExplore(order, limit, share, []) && (|ahead| >= limit || |ahead| >= share)
            && Distinct(ahead) && forall x :: x in ahead ==> x in order[..k]
  {
    var ahead, b := PickExplore(order[..k], limit, share, []), order[k];
    PickSplit(order, k, limit, share, []);
    PickKeepsPrefix(order[k..], limit, share, ahead);
    assert Within([], share);
    PickExploreFacts(order[..k], limit, share, []);
    CountNetBound(ahead, b.net);
    if |ahead| < limit && CountNet(ahead, b.net) < share {
      PickTakes(order[k..], limit, share, ahead);
    }
  }

  lemma PickTakes(order: seq<Bucket>, limit: nat, share: nat, chosen: seq<Bucket>)
    requires order != [] && |chosen| < limit && CountNet(chosen, order[0].net) < share
    ensures order[0] in PickExplore(order, limit, share, chosen)
  {
    PickKeepsPrefix(order[1..], limit, share, chosen + [order[0]]);
    assert (chosen + [order[0]])[|chosen|] == order[0];
  }

  /** The state after a round in which nothing is pruned. */
  function Unpruned(c: Config, prefixes: seq<Net>, s: State, budget: nat): State
    requires Exploring(c, prefixes)
  {
    State(Visit(s.history, Chosen(c, s.history, prefixes, budget), s.round + 1), s.round + 1)
  }

  /** The buckets explored ahead of one that is passed over. */
  lemma ExploredAhead(c: Config, prefixes: seq<Net>, h: History, budget: nat, b: Bucket) returns (moved: set<Bucket>)
    requires Exploring(c, prefixes) && b in BucketSet(c, prefixes) && b !in Chosen(c, h, prefixes, budget)
    ensures moved <= Ahead(c, prefixes, h, b) && moved <= ToSet(Chosen(c, h, prefixes, budget))
    ensures |moved| >= Gain(c, prefixes, budget)
  {
    var all := AllBuckets(c.perPrefix, prefixes);
    var order := ExploreOrder(c, h, all);
    ExploreOrderFacts(c, h, prefixes);
    ChosenFacts(c, h, prefixes, budget);
    hide AllBuckets, ExploreOrder, Chosen, ValidConfig, ValidTable, PickExplore, FairShare, ExploitBudget;
    var limit, share := budget - ExploitBudget(c, budget), FairShare(budget, |prefixes|);
    var picks := Explored(c, h, prefixes, budget);
    assert b in order;
    var k :| 0 <= k < |order| && order[k] == b;
    assert picks == PickExplore(order, limit, share, []);
    PassedOver(order, k, limit, share);
    var ahead := PickExplore(order[..k], limit, share, []);
    DistinctCardinality(ahead);
    moved := ToSet(ahead);
    forall x | x in moved
      ensures x in Ahead(c, prefixes, h, b) && x in Chosen(c, h, prefixes, budget)
    {
      InAhead(c, prefixes, h, order, k, x);
      assert x in picks;
    }
  }

  lemma InAhead(c: Config, prefixes: seq<Net>, h: History, order: seq<Bucket>, k: nat, x: Bucket)
    requires ValidConfig(c) && ValidTable(prefixes) && Distinct(order) && Sorted(order, ExploreLeq(h, c.tiebreak))
    requires k < |order| && x in order[..k] && x in BucketSet(c, prefixes)
    ensures x in Ahead(c, prefixes, h, order[k])
  {
    hide ValidConfig, ValidTable, BucketSet;
    var i :| 0 <= i < k && order[i] == x;
    assert ExploreLeq(h, c.tiebreak)(order[i], order[k]);
  }

  /** A round that passes over `b` takes at least its gain away from what is ahead of `b`. */
  lemma RoundMoves(c: Config, prefixes: seq<Net>, s: State, budget: nat, b: Bucket)
    requires Exploring(c, prefixes) && Consistent(s)
    requires b in BucketSet(c, prefixes) && b !in Chosen(c, s.history, prefixes, budget)
    ensures |Ahead(c, prefixes, Unpruned(c, prefixes, s, budget).history, b)| + Gain(c, prefixes, budget)
            <= |Ahead(c, prefixes, s.history, b)|
  {
    hide ValidConfig, ValidTable, BucketSet, Chosen, Visit, Gain;
    var chosen := Chosen(c, s.history, prefixes, budget);
    var moved := ExploredAhead(c, prefixes, s.history, budget, b);
    VisitFacts(s.history, chosen, s.round + 1);
    var before, after := Ahead(c, prefixes, s.history, b), Ahead(c, prefixes, Unpruned(c, prefixes, s, budget).history, b);
    assert LastRound(s.history, b) <= s.round;
    forall x | x in after
      ensures x in before - moved
    {
      assert x !in chosen;
    }
    SubsetCardinality(after, before - moved);
    assert |before - moved| == |before| - |moved|;
  }

  // ----- over runs

  /** For each bucket, what is ahead of it and what its wait was worth together stay below a full pass. */
  ghost predicate Paced(c: Config, prefixes: seq<Net>, s: State, g: nat)
    requires Exploring(c, prefixes)
  {
    && Consistent(s) && s.history.Keys <= BucketSet(c, prefixes)
    && forall b :: b in BucketSet(c, prefixes) ==> OnSchedule(c, prefixes, s, g, b)
  }

  ghost predicate OnSchedule(c: Config, prefixes: seq<Net>, s: State, g: nat, b: Bucket)
    requires Exploring(c, prefixes)
  {
    && LastRound(s.history, b) <= s.round
    && |Ahead(c, prefixes, s.history, b)| + Times(g, s.round - LastRound(s.history, b)) < BucketCount(c, prefixes)
  }

  /** The buckets fit the table, or a pass at this pace fits the rounds pruning spares. */
  ghost predicate Roomy(c: Config, prefixes: seq<Net>, g: nat)
    requires Exploring(c, prefixes)
  {
    BucketCount(c, prefixes) <= PRUNE_LIMIT || BucketCount(c, prefixes) <= Times(g, PRUNE_AGE + 1)
  }

  lemma AheadIsLess(c: Config, prefixes: seq<Net>, h: History, b: Bucket)
    requires Exploring(c, prefixes) && b in BucketSet(c, prefixes)
    ensures |Ahead(c, prefixes, h, b)| < BucketCount(c, prefixes)
  {
    hide BucketSet;
    ProperSubset(Ahead(c, prefixes, h, b), BucketSet(c, prefixes));
  }

  lemma StartPaced(c: Config, prefixes: seq<Net>, g: nat)
    requires Exploring(c, prefixes)
    ensures Paced(c, prefixes, Start(), g)
  {
    hide BucketSet, BucketCount;
    forall b | b in BucketSet(c, prefixes)
      ensures OnSchedule(c, prefixes, Start(), g, b)
    {
      AheadIsLess(c, prefixes, Start().history, b);
      TimesNext(g, 0);
    }
  }

  lemma StaysOnSchedule(c: Config, prefixes: seq<Net>, s: State, budget: nat, g: nat, b: Bucket)
    requires Exploring(c, prefixes) && Consistent(s) && Gain(c, prefixes, budget) >= g
    requires b in BucketSet(c, prefixes) && OnSchedule(c, prefixes, s, g, b)
    ensures OnSchedule(c, prefixes, Unpruned(c, prefixes, s, budget), g, b)
  {
    hide BucketSet, BucketCount, Chosen, Visit, Gain, ValidTable, ValidConfig, Ahead, Times;
    VisitFacts(s.history, Chosen(c, s.history, prefixes, budget), s.round + 1);
    if b in Chosen(c, s.history, prefixes, budget) {
      AheadIsLess(c, prefixes, Unpruned(c, prefixes, s, budget).history, b);
      TimesNext(g, 0);
    } else {
      RoundMoves(c, prefixes, s, budget, b);
      TimesNext(g, s.round - LastRound(s.history, b));
    }
  }

  lemma UnprunedPaced(c: Config, prefixes: seq<Net>, s: State, budget: nat, g: nat)
    requires Exploring(c, prefixes) && Paced(c, prefixes, s, g) && Gain(c, prefixes, budget) >= g
    ensures Paced(c, prefixes, Unpruned(c, prefixes, s, budget), g)
  {
    hide BucketSet, BucketCount, Chosen, Visit, Gain, ValidTable, ValidConfig, OnSchedule;
    var chosen, next := Chosen(c, s.history, prefixes, budget), Unpruned(c, prefixes, s, budget);
    ChosenInSet(c, prefixes, s.history, budget);
    VisitFacts(s.history, chosen, s.round + 1);
    forall b | b in next.history
      ensures next.history[b].lastRound <= next.round
    {
      assert LastRound(next.history, b) == next.history[b].lastRound;
    }
    forall b | b in BucketSet(c, prefixes)
      ensures OnSchedule(c, prefixes, next, g, b)
    {
      StaysOnSchedule(c, prefixes, s, budget, g, b);
    }
  }

  /** On schedule, nothing is old enough to be pruned. */
  lemma PacedIsKept(c: Config, prefixes: seq<Net>, s: State, g: nat)
    requires Exploring(c, prefixes) && Paced(c, prefixes, s, g) && Roomy(c, prefixes, g)
    ensures Prune(s.history, s.round) == s.history
  {
    hide BucketSet, Ahead, Times, ValidTable, ValidConfig;
    SubsetCardinality(s.history.Keys, BucketSet(c, prefixes));
    assert |s.history| == |s.history.Keys|;
    if |s.history| > PRUNE_LIMIT {
      forall b | b in s.history
        ensures s.history[b].lastRound + PRUNE_AGE >= s.round
      {
        assert OnSchedule(c, prefixes, s, g, b);
        TimesLess(g, s.round - LastRound(s.history, b), PRUNE_AGE + 1);
      }
    }
  }

  lemma PacedStep(c: Config, prefixes: seq<Net>, s: State, op: Op, g: nat)
    requires Exploring(c, prefixes) && Paced(c, prefixes, s, g) && Roomy(c, prefixes, g) && g >= 1
    requires op.Round? ==> Gain(c, prefixes, op.budget) >= g
    ensures Paced(c, prefixes, Step(c, prefixes, s, op), g)
    ensures op.Round? ==> op.budget > 0 && Step(c, prefixes, s, op) == Unpruned(c, prefixes, s, op.budget)
  {
    match op
    case Round(budget) =>
      hide Paced, Roomy, Visit, Chosen, Prune, ValidTable, ValidConfig;
      UnprunedPaced(c, prefixes, s, budget, g);
      PacedIsKept(c, prefixes, Unpruned(c, prefixes, s, budget), g);
    case Success(addr) =>
      PacedSuccess(c, prefixes, s, addr, g);
  }

  lemma PacedSuccess(c: Config, prefixes: seq<Net>, s: State, addr: nat, g: nat)
    requires Exploring(c, prefixes) && Paced(c, prefixes, s, g)
    ensures Paced(c, prefixes, SuccessState(c, s, prefixes, addr), g)
    ensures forall b :: Ahead(c, prefixes, SuccessState(c, s, prefixes, addr).history, b) == Ahead(c, prefixes, s.history, b)
  {
    var next := SuccessState(c, s, prefixes, addr);
    SuccessFacts(c, prefixes, s, addr);
    hide SuccessState, BucketSet, BucketCount, ValidTable, ValidConfig, Times;
    forall b
      ensures Ahead(c, prefixes, next.history, b) == Ahead(c, prefixes, s.history, b)
    {
    }
    hide Ahead;
    forall b | b in next.history
      ensures next.history[b].lastRound <= next.round
    {
      assert LastRound(next.history, b) == next.history[b].lastRound == LastRound(s.history, b);
    }
    forall b | b in BucketSet(c, prefixes)
      ensures OnSchedule(c, prefixes, next, g, b)
    {
      assert OnSchedule(c, prefixes, s, g, b);
    }
  }

  lemma SuccessFacts(c: Config, prefixes: seq<Net>, s: State, addr: nat)
    requires Exploring(c, prefixes) && s.history.Keys <= BucketSet(c, prefixes)
    ensures var next := SuccessState(c, s, prefixes, addr);
            && next.round == s.round && next.history.Keys <= BucketSet(c, prefixes)
            && forall b :: LastRound(next.history, b) == LastRound(s.history, b)
  {
    var located := Locate(c.perPrefix, prefixes, addr);
    if located.Some? {
      LocateValid(c.perPrefix, prefixes, addr);
      AllBucketsMember(c.perPrefix, prefixes, located.value);
    }
  }

  lemma {:induction false} PacedRun(c: Config, prefixes: seq<Net>, s: State, ops: seq<Op>, g: nat)
    requires Exploring(c, prefixes) && Paced(c, prefixes, s, g) && Roomy(c, prefixes, g) && g >= 1 && AtPace(c, prefixes, ops, g)
    ensures Paced(c, prefixes, Run(c, prefixes, s, ops), g)
    decreases |ops|
  {
    hide Paced, Roomy, Step, Gain, ValidTable, ValidConfig;
    if ops != [] {
      PacedStep(c, prefixes, s, ops[0], g);
      PaceOfRest(c, prefixes, ops, g);
      PacedRun(c, prefixes, Step(c, prefixes, s, ops[0]), ops[1..], g);
    }
  }

  lemma PaceOfRest(c: Config, prefixes: seq<Net>, ops: seq<Op>, g: nat)
    requires Exploring(c, prefixes) && AtPace(c, prefixes, ops, g) && ops != []
    ensures AtPace(c, prefixes, ops[1..], g)
  {
    hide Gain, ValidTable, ValidConfig;
    assert forall i :: 0 <= i < |ops[1..]| ==> ops[1..][i] == ops[i + 1];
  }

  lemma {:induction false} SampledAtPace(c: Config, prefixes: seq<Net>, s: State, ops: seq<Op>, b: Bucket, g: nat)
    requires Exploring(c, prefixes) && Paced(c, prefixes, s, g) && Roomy(c, prefixes, g) && g >= 1 && AtPace(c, prefixes, ops, g)
    requires b in BucketSet(c, prefixes) && |Ahead(c, prefixes, s.history, b)| < Times(g, Rounds(ops))
    ensures Sampled(c, prefixes, s, ops, b)
    decreases |ops|
  {
    hide Roomy, NextState, SuccessState, Gain, ValidTable, ValidConfig, BucketSet, Ahead, Times, Chosen, OnSchedule;
    TimesNext(g, 0);
    assert ops != [];
    var op, rest := ops[0], ops[1..];
    PacedStep(c, prefixes, s, op, g);
    PaceOfRest(c, prefixes, ops, g);
    match op
    case Round(budget) =>
      if b !in Chosen(c, s.history, prefixes, budget) {
        RoundMoves(c, prefixes, s, budget, b);
        TimesNext(g, Rounds(rest));
        SampledAtPace(c, prefixes, Step(c, prefixes, s, op), rest, b, g);
      }
    case Success(addr) =>
      PacedSuccess(c, prefixes, s, addr, g);
      SampledAtPace(c, prefixes, Step(c, prefixes, s, op), rest, b, g);
  }

  /**
   Fairness at a pace. When every round moves at least `g` buckets, every window of N / g rounds
   (rounded up) in every run from a new sampler draws from each of the N buckets, provided they fit
   the history table or a pass fits the thousand rounds that pruning spares. So a large enough
   constant budget is fair above the limit too.
   */
  lemma FairAtPace(c: Config, prefixes: seq<Net>, before: seq<Op>, ops: seq<Op>, b: Bucket, g: nat)
    requires Exploring(c, prefixes) && Roomy(c, prefixes, g) && g >= 1
    requires AtPace(c, prefixes, before, g) && AtPace(c, prefixes, ops, g)
    requires b in BucketSet(c, prefixes) && Times(g, Rounds(ops)) >= BucketCount(c, prefixes)
    ensures Sampled(c, prefixes, Run(c, prefixes, Start(), before), ops, b)
  {
    hide Roomy, Run, Gain, ValidTable, ValidConfig, BucketSet, BucketCount, Ahead, Times, Sampled, Paced;
    StartPaced(c, prefixes, g);
    PacedRun(c, prefixes, Start(), before, g);
    AheadIsLess(c, prefixes, Run(c, prefixes, Start(), before).history, b);
    SampledAtPace(c, prefixes, Run(c, prefixes, Start(), before), ops, b, g);
  }

  /** The wide snapshot of forty-nine prefixes is over the limit and still fair at 201 draws a prefix. */
  lemma FortyNineAtPace(c: Config)
    requires ValidConfig(c) && c.exploitFraction == 0.0 && c.perPrefix == MAX_BUCKETS_PER_PREFIX
    ensures Exploring(c, FortyNine()) && BucketCount(c, FortyNine()) > PRUNE_LIMIT
    ensures Gain(c, FortyNine(), 49 * 201) == 201 && Roomy(c, FortyNine(), 201)
  {
    FortyNineWide(c);
    SizeIsCount(c, FortyNine());
    WideCount(FortyNine());
    hide BucketCount, FortyNine, ValidTable;
    assert (49 * 201) as real * c.exploitFraction == 0.0;
    assert ExploitBudget(c, 49 * 201) == 0;
  }
}
