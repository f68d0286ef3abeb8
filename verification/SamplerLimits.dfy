/**
 Where the fairness of the sampler ends: exactly at the prune limit of the history table.

 The failing runs draw one address a round, so that buckets are visited one at a time and each
 visited bucket has a round number of its own.
 */
module SamplerLimits {
  import opened Seqs
  import opened Bits
  import opened Prefixes
  import opened Buckets
  import opened Sampler
  import opened SamplerFairness

  /** A new sampler. */
  function Start(): State {
    State(map[], 0)
  }

  function Ones(n: nat): (r: seq<Op>)
    ensures |r| == n && forall i :: 0 <= i < n ==> r[i] == Round(1)
  {
    seq(n, _ => Round(1))
  }

  /** A configuration that explores even with a budget of one, and a snapshot to explore. */
  predicate Exploring(c: Config, prefixes: seq<Net>) {
    ValidConfig(c) && ValidTable(prefixes) && prefixes != [] && c.exploitFraction < 1.0
  }

  ghost function BucketCount(c: Config, prefixes: seq<Net>): nat
    requires Exploring(c, prefixes)
  {
    |BucketSet(c, prefixes)|
  }

  lemma BudgetOfOne(c: Config)
    requires ValidConfig(c) && c.exploitFraction < 1.0
    ensures ExploitBudget(c, 1) == 0
  {
    assert 1 as real * c.exploitFraction == c.exploitFraction;
  }

  lemma OnesExplore(c: Config, n: nat)
    requires ValidConfig(c) && c.exploitFraction < 1.0
    ensures Explores(c, Ones(n)) && OneByOne(c, Ones(n))
  {
    BudgetOfOne(c);
  }

  lemma {:induction false} OnesRounds(n: nat)
    ensures Rounds(Ones(n)) == n
  {
    if n > 0 {
      assert Ones(n)[1..] == Ones(n - 1);
      OnesRounds(n - 1);
    }
  }

  // ----- the last bucket

  lemma LastMember(c: Config, prefixes: seq<Net>, b: Bucket)
    requires ValidConfig(c) && ValidTable(prefixes) && Last(c, prefixes, b)
    ensures b in BucketSet(c, prefixes)
  {
    hide AllBuckets;
  }

  lemma {:induction false} LastIndex(tiebreak: Bucket -> nat, all: seq<Bucket>) returns (j: nat)
    requires all != []
    ensures j < |all| && forall i :: 0 <= i < |all| ==> Later(tiebreak, all, i, j)
    decreases |all|
  {
    var n := |all| - 1;
    j := n;
    if n > 0 {
      var k := LastIndex(tiebreak, all[..n]);
      if tiebreak(all[n]) < tiebreak(all[k]) {
        j := k;
      }
      forall i | 0 <= i < n
        ensures Later(tiebreak, all, i, j)
      {
        assert Later(tiebreak, all[..n], i, k);
      }
    }
  }

  /** Every snapshot has a last bucket. */
  lemma LastExists(c: Config, prefixes: seq<Net>) returns (b: Bucket)
    requires Exploring(c, prefixes)
    ensures Last(c, prefixes, b)
  {
    assert prefixes[0] in prefixes;
    AllBucketsMember(c.perPrefix, prefixes, Bucket(prefixes[0], 0));
    hide AllBuckets, Later;
    var all := AllBuckets(c.perPrefix, prefixes);
    var j := LastIndex(c.tiebreak, all);
    b := all[j];
  }

  // ----- runs in pieces

  lemma {:induction false} RunAppend(c: Config, prefixes: seq<Net>, s: State, a: seq<Op>, b: seq<Op>)
    requires ValidConfig(c) && ValidTable(prefixes)
    ensures Run(c, prefixes, s, a + b) == Run(c, prefixes, Run(c, prefixes, s, a), b)
    decreases |a|
  {
    hide Step;
    if a == [] {
      assert a + b == b;
    } else {
      assert (a + b)[0] == a[0] && (a + b)[1..] == a[1..] + b;
      RunAppend(c, prefixes, Step(c, prefixes, s, a[0]), a[1..], b);
    }
  }

  lemma {:induction false} SampledAppend(c: Config, prefixes: seq<Net>, s: State, a: seq<Op>, b: seq<Op>, x: Bucket)
    requires ValidConfig(c) && ValidTable(prefixes) && prefixes != []
    ensures Sampled(c, prefixes, s, a + b, x) <==>
            Sampled(c, prefixes, s, a, x) || Sampled(c, prefixes, Run(c, prefixes, s, a), b, x)
    decreases |a|
  {
    hide Step, Chosen;
    if a == [] {
      assert a + b == b;
    } else {
      assert (a + b)[0] == a[0] && (a + b)[1..] == a[1..] + b;
      SampledAppend(c, prefixes, Step(c, prefixes, s, a[0]), a[1..], b, x);
    }
  }

  lemma OnesAppend(m: nat, n: nat)
    ensures Ones(m + n) == Ones(m) + Ones(n)
  {
  }

  // ----- one round of one address

  /** What every state of a run of single draws satisfies. */
  ghost predicate Single(c: Config, prefixes: seq<Net>, s: State)
    requires Exploring(c, prefixes)
  {
    && Spread(s) && |s.history| <= PRUNE_LIMIT && s.history.Keys <= BucketSet(c, prefixes)
    && forall b :: b in s.history ==> s.history[b].lastRound >= 1
  }

  lemma StartSingle(c: Config, prefixes: seq<Net>)
    requires Exploring(c, prefixes)
    ensures Single(c, prefixes, Start())
  {
  }

  /** Pruning leaves at most the last `PRUNE_AGE` rounds and the current one. */
  lemma PruneLeaves(h: History, round: nat)
    requires Spread(State(h, round)) && |h| > PRUNE_LIMIT
    ensures |Prune(h, round)| <= 1_001
    ensures forall b :: b in h && h[b].lastRound == round ==> b in Prune(h, round)
  {
    var p := Prune(h, round);
    var f: Bucket -> int := (b: Bucket) => LastRound(h, b);
    forall a, b | a in p.Keys && b in p.Keys && f(a) == f(b)
      ensures a == b
    {
      assert h[a].lastRound == h[b].lastRound;
    }
    DistinctMarks(p.Keys, f, round - PRUNE_AGE, round + 1);
    assert |p| == |p.Keys|;
  }

  lemma VisitedPositive(h: History, f: Bucket, round: nat)
    requires round >= 1 && forall b :: b in h ==> h[b].lastRound >= 1
    ensures var v := Visit(h, [f], round);
            && v.Keys == h.Keys + {f} && f in v && v[f].lastRound == round
            && forall b :: b in v ==> v[b].lastRound >= 1
  {
    var chosen := [f];
    assert chosen[..|chosen| - 1] == [];
    assert Visit(h, [], round) == h;
    assert Visit(h, chosen, round) == h[f := Visited(h, f, round)];
  }

  /** What the table is after `f` was visited and the table pruned if it overflowed. */
  lemma VisitAndPrune(h: History, f: Bucket, round: nat)
    requires round >= 1 && Spread(State(h, round - 1)) && |h| <= PRUNE_LIMIT && forall b :: b in h ==> h[b].lastRound >= 1
    ensures var next := Prune(Visit(h, [f], round), round);
            && (forall b :: b in next ==> next[b].lastRound >= 1)
            && (|h.Keys + {f}| <= PRUNE_LIMIT ==> next.Keys == h.Keys + {f})
            && (|h.Keys + {f}| > PRUNE_LIMIT ==> f in next && |next| <= PRUNE_AGE + 1)
  {
    hide Visit, Prune, Spread;
    VisitOne(h, f, round);
    VisitedPositive(h, f, round);
    var v := Visit(h, [f], round);
    assert |v| == |v.Keys|;
    PrunedEntries(v, round);
    if |v| > PRUNE_LIMIT {
      PruneLeaves(v, round);
    } else {
      PruneIdle(v, round);
    }
  }

  /** One draw: the first bucket joins the table, which is cut down when it overflows. */
  lemma DrawOne(c: Config, prefixes: seq<Net>, s: State) returns (f: Bucket, next: State)
    requires Exploring(c, prefixes) && Single(c, prefixes, s)
    ensures next == Step(c, prefixes, s, Round(1)) && Single(c, prefixes, next)
    ensures Chosen(c, s.history, prefixes, 1) == [f] && f in BucketSet(c, prefixes)
    ensures forall b :: b in BucketSet(c, prefixes) ==> Before(s.history, c.tiebreak, f, b)
    ensures Foremost(s.history, c.tiebreak, AllBuckets(c.perPrefix, prefixes), f)
    ensures |s.history.Keys + {f}| <= PRUNE_LIMIT ==> next.history.Keys == s.history.Keys + {f}
    ensures |s.history.Keys + {f}| > PRUNE_LIMIT ==> f in next.history && |next.history| <= PRUNE_AGE + 1
  {
    hide Chosen, Visit, Prune, Spread, BucketSet, ValidConfig, ValidTable, Before, Foremost, AllBuckets;
    BudgetOfOne(c);
    f := SingleVisit(c, prefixes, s.history);
    next := Step(c, prefixes, s, Round(1));
    var h := SingleRound(c, prefixes, s, f);
    VisitAndPrune(s.history, f, s.round + 1);
  }

  lemma PrunedEntries(h: History, round: nat)
    ensures forall b :: b in Prune(h, round) ==> b in h && Prune(h, round)[b] == h[b]
  {
  }

  /** While another bucket is untracked, the last one in tie-break order waits. */
  lemma UntrackedFirst(c: Config, prefixes: seq<Net>, s: State, b: Bucket, f: Bucket)
    requires Exploring(c, prefixes) && Single(c, prefixes, s) && Last(c, prefixes, b)
    requires Foremost(s.history, c.tiebreak, AllBuckets(c.perPrefix, prefixes), f)
    requires |s.history.Keys + {b}| < BucketCount(c, prefixes)
    ensures f !in s.history && f != b
  {
    AllBucketsDistinct(c.perPrefix, prefixes);
    var all, known := BucketSet(c, prefixes), s.history.Keys + {b};
    hide ValidTable, ValidConfig, AllBuckets, LastAmong, Foremost, Distinct;
    if all <= known {
      SubsetCardinality(all, known);
    }
    var x :| x in all && x !in known;
    LastWaits(s.history, c.tiebreak, AllBuckets(c.perPrefix, prefixes), b, f, x);
  }

  /**
   `n` rounds without overflow, with an untracked bucket besides `b` to draw from in each: the
   table grows by one a round and `b` is left alone.
   */
  lemma {:induction false} Quiet(c: Config, prefixes: seq<Net>, s: State, n: nat, b: Bucket)
    requires Exploring(c, prefixes) && Single(c, prefixes, s) && Last(c, prefixes, b)
    requires |s.history| + n <= PRUNE_LIMIT && |s.history.Keys + {b}| + n <= BucketCount(c, prefixes)
    ensures !Sampled(c, prefixes, s, Ones(n), b)
    ensures var r := Run(c, prefixes, s, Ones(n));
            Single(c, prefixes, r) && |r.history| == |s.history| + n && (b in r.history <==> b in s.history)
    decreases n
  {
    hide Single, Last, Chosen, Step, BucketCount, ValidConfig, ValidTable;
    if n > 0 {
      assert Ones(n)[0] == Round(1) && Ones(n)[1..] == Ones(n - 1);
      var f, next := DrawOne(c, prefixes, s);
      UntrackedFirst(c, prefixes, s, b, f);
      OneMoreKey(s.history, next.history, f, b);
      Quiet(c, prefixes, next, n - 1, b);
    }
  }

  lemma OneMoreKey(h: History, next: History, f: Bucket, b: Bucket)
    requires f !in h && f != b
    ensures |h.Keys + {f}| == |h| + 1
    ensures next.Keys == h.Keys + {f} ==> |next| == |h| + 1 && |next.Keys + {b}| == |h.Keys + {b}| + 1 && (b in next <==> b in h)
  {
    assert |h| == |h.Keys|;
    OneMoreElement(h.Keys, f);
    if next.Keys == h.Keys + {f} {
      assert |next| == |next.Keys|;
      assert next.Keys + {b} == (h.Keys + {b}) + {f};
      OneMoreElement(h.Keys + {b}, f);
      assert b in next <==> b in next.Keys;
      assert b in h <==> b in h.Keys;
    }
  }

  lemma OneMoreElement<T>(a: set<T>, x: T)
    requires x !in a
    ensures |a + {x}| == |a| + 1
  {
  }

  /** A run of one round. */
  lemma OneRound(c: Config, prefixes: seq<Net>, s: State, b: Bucket)
    requires Exploring(c, prefixes)
    ensures Run(c, prefixes, s, Ones(1)) == Step(c, prefixes, s, Round(1))
    ensures Sampled(c, prefixes, s, Ones(1), b) <==> b in Chosen(c, s.history, prefixes, 1)
  {
    hide Step, Chosen, ValidTable, ValidConfig;
    assert Ones(1)[0] == Round(1) && Ones(1)[1..] == [];
  }

  // ----- the first pass

  /** With every other bucket tracked, the remaining one is next. */
  lemma OnlyOneLeft(c: Config, prefixes: seq<Net>, s: State, b: Bucket, f: Bucket)
    requires Exploring(c, prefixes) && Single(c, prefixes, s) && b in BucketSet(c, prefixes) && b !in s.history
    requires |s.history| + 1 == BucketCount(c, prefixes) && f in BucketSet(c, prefixes)
    requires forall x :: x in BucketSet(c, prefixes) ==> Before(s.history, c.tiebreak, f, x)
    ensures f == b
  {
    var all, known := BucketSet(c, prefixes), s.history.Keys + {b};
    hide BucketSet, ValidTable, ValidConfig;
    assert |s.history| == |s.history.Keys|;
    SameCardinality(known, all);
    assert Before(s.history, c.tiebreak, f, b) && LastRound(s.history, b) == 0;
  }

  lemma SameCardinality<T>(a: set<T>, b: set<T>)
    requires a <= b && |a| == |b|
    ensures a == b
  {
    if a != b {
      ProperSubset(a, b);
    }
  }

  /** One bucket more than the limit: the last bucket is drawn in the round that overflows the table. */
  lemma LastDrawnAtOverflow(c: Config, prefixes: seq<Net>, b: Bucket)
    requires Exploring(c, prefixes) && Last(c, prefixes, b) && BucketCount(c, prefixes) == PRUNE_LIMIT + 1
    ensures Sampled(c, prefixes, Start(), Ones(PRUNE_LIMIT + 1), b)
    ensures var r := Run(c, prefixes, Start(), Ones(PRUNE_LIMIT + 1));
            Single(c, prefixes, r) && b in r.history && |r.history| <= PRUNE_AGE + 1
  {
    hide Single, Chosen, Step, ValidConfig, ValidTable, BucketSet, Run, Sampled;
    StartSingle(c, prefixes);
    LastMember(c, prefixes, b);
    assert Start().history.Keys + {b} == {b};
    Quiet(c, prefixes, Start(), PRUNE_LIMIT, b);
    var s := Run(c, prefixes, Start(), Ones(PRUNE_LIMIT));
    var f, next := DrawOne(c, prefixes, s);
    OnlyOneLeft(c, prefixes, s, b, f);
    OneMoreElement(s.history.Keys, b);
    assert |s.history| == |s.history.Keys|;
    OnesAppend(PRUNE_LIMIT, 1);
    RunAppend(c, prefixes, Start(), Ones(PRUNE_LIMIT), Ones(1));
    SampledAppend(c, prefixes, Start(), Ones(PRUNE_LIMIT), Ones(1), b);
    OneRound(c, prefixes, s, b);
  }

  lemma StartUnderLimit(c: Config, prefixes: seq<Net>)
    requires Exploring(c, prefixes) && BucketCount(c, prefixes) <= PRUNE_LIMIT
    ensures UnderLimit(c, prefixes, Start()) && Consistent(Start())
  {
    assert Start().history.Keys + BucketSet(c, prefixes) == BucketSet(c, prefixes);
  }

  lemma SizeIsCount(c: Config, prefixes: seq<Net>)
    requires Exploring(c, prefixes)
    ensures BucketCount(c, prefixes) == |AllBuckets(c.perPrefix, prefixes)|
  {
    AllBucketsDistinct(c.perPrefix, prefixes);
    DistinctCardinality(AllBuckets(c.perPrefix, prefixes));
  }

  /**
   The first pass, for every size of the snapshot: the bucket that comes last in tie-break order is
   drawn in a run of at least one draw per bucket if and only if there is at most one bucket more
   than the table may hold. Otherwise it is never drawn, however long the run.
   */
  lemma FirstPassExact(c: Config, prefixes: seq<Net>, n: nat, b: Bucket)
    requires Exploring(c, prefixes) && Last(c, prefixes, b) && n >= BucketCount(c, prefixes)
    ensures Sampled(c, prefixes, Start(), Ones(n), b) <==> BucketCount(c, prefixes) <= PRUNE_LIMIT + 1
  {
    hide BucketSet, Sampled, Last;
    LastMember(c, prefixes, b);
    OnesExplore(c, n);
    OnesRounds(n);
    SizeIsCount(c, prefixes);
    if BucketCount(c, prefixes) <= PRUNE_LIMIT {
      StartUnderLimit(c, prefixes);
      NoBucketStarves(c, prefixes, Start(), Ones(n), b);
    } else if BucketCount(c, prefixes) == PRUNE_LIMIT + 1 {
      LastDrawnAtOverflow(c, prefixes, b);
      OnesAppend(PRUNE_LIMIT + 1, n - PRUNE_LIMIT - 1);
      SampledAppend(c, prefixes, Start(), Ones(PRUNE_LIMIT + 1), Ones(n - PRUNE_LIMIT - 1), b);
    } else {
      StartSingle(c, prefixes);
      PruningStarves(c, prefixes, Start(), Ones(n), b);
    }
  }

  // ----- every window

  /** Every window of as many exploring rounds as there are buckets draws from every bucket. */
  ghost predicate Fair(c: Config, prefixes: seq<Net>)
    requires Exploring(c, prefixes)
  {
    forall before, ops, b ::
      Explores(c, before) && Explores(c, ops) && b in BucketSet(c, prefixes) && Rounds(ops) >= BucketCount(c, prefixes) ==>
        Sampled(c, prefixes, Run(c, prefixes, Start(), before), ops, b)
  }

  lemma {:induction false} RunUnderLimit(c: Config, prefixes: seq<Net>, s: State, ops: seq<Op>)
    requires Exploring(c, prefixes) && Explores(c, ops) && UnderLimit(c, prefixes, s)
    ensures UnderLimit(c, prefixes, Run(c, prefixes, s, ops))
    decreases |ops|
  {
    hide UnderLimit, NextState, SuccessState, ValidTable;
    if ops != [] {
      var op, rest := ops[0], ops[1..];
      assert Explores(c, rest) by {
        assert forall i :: 0 <= i < |rest| ==> rest[i] == ops[i + 1];
      }
      match op {
        case Round(budget) =>
          assert budget - ExploitBudget(c, budget) >= 1;
          RoundUnderLimit(c, prefixes, s, budget);
        case Success(addr) =>
          SuccessUnderLimit(c, prefixes, s, addr);
      }
      RunUnderLimit(c, prefixes, Step(c, prefixes, s, op), rest);
    }
  }

  lemma FairUnderLimit(c: Config, prefixes: seq<Net>)
    requires Exploring(c, prefixes) && BucketCount(c, prefixes) <= PRUNE_LIMIT
    ensures Fair(c, prefixes)
  {
    hide Sampled, Run, UnderLimit, Explores, Consistent;
    StartUnderLimit(c, prefixes);
    SizeIsCount(c, prefixes);
    forall before, ops, b | Explores(c, before) && Explores(c, ops) && b in BucketSet(c, prefixes) && Rounds(ops) >= BucketCount(c, prefixes)
      ensures Sampled(c, prefixes, Run(c, prefixes, Start(), before), ops, b)
    {
      RunUnderLimit(c, prefixes, Start(), before);
      ReachableConsistent(c, prefixes, Start(), before);
      NoBucketStarves(c, prefixes, Run(c, prefixes, Start(), before), ops, b);
    }
  }

  /** The draw that overflows a table of the limit, `b` being tracked: another bucket, then the cut. */
  lemma OverflowSkips(c: Config, prefixes: seq<Net>, s: State, b: Bucket)
    requires Exploring(c, prefixes) && Single(c, prefixes, s) && Last(c, prefixes, b) && b in s.history
    requires |s.history| == PRUNE_LIMIT && BucketCount(c, prefixes) == PRUNE_LIMIT + 1
    ensures !Sampled(c, prefixes, s, Ones(1), b)
    ensures var r := Run(c, prefixes, s, Ones(1)); Single(c, prefixes, r) && |r.history| <= PRUNE_AGE + 1
  {
    hide Single, Last, Chosen, Step, BucketCount, ValidConfig, ValidTable;
    var f, next := DrawOne(c, prefixes, s);
    assert s.history.Keys + {b} == s.history.Keys && |s.history| == |s.history.Keys|;
    UntrackedFirst(c, prefixes, s, b, f);
    OneMoreKey(s.history, next.history, f, b);
    OneRound(c, prefixes, s, b);
  }

  /**
   One bucket more than the limit: from the first cut on, nearly two passes of the table go by
   before the last bucket's turn comes again.
   */
  lemma LongWait(c: Config, prefixes: seq<Net>, s: State, b: Bucket)
    requires Exploring(c, prefixes) && Single(c, prefixes, s) && Last(c, prefixes, b) && b in s.history
    requires |s.history| <= PRUNE_AGE + 1 && BucketCount(c, prefixes) == PRUNE_LIMIT + 1
    ensures !Sampled(c, prefixes, s, Ones(PRUNE_LIMIT + 1), b)
  {
    hide Single, Last, Sampled, ValidConfig, ValidTable, BucketCount, Run;
    var m := PRUNE_LIMIT - |s.history|;
    assert s.history.Keys + {b} == s.history.Keys && |s.history| == |s.history.Keys|;
    Quiet(c, prefixes, s, m, b);
    var full := Run(c, prefixes, s, Ones(m));
    OverflowSkips(c, prefixes, full, b);
    var cut := Run(c, prefixes, full, Ones(1));
    var n := PRUNE_LIMIT - m;
    assert |cut.history.Keys + {b}| <= |cut.history.Keys| + 1 && |cut.history| == |cut.history.Keys|;
    Quiet(c, prefixes, cut, n, b);
    OnesAppend(m, 1 + n);
    OnesAppend(1, n);
    SampledAppend(c, prefixes, s, Ones(m), Ones(1) + Ones(n), b);
    SampledAppend(c, prefixes, full, Ones(1), Ones(n), b);
  }

  lemma UnfairWitness(c: Config, prefixes: seq<Net>, before: nat, n: nat, b: Bucket)
    requires Exploring(c, prefixes) && b in BucketSet(c, prefixes) && n >= BucketCount(c, prefixes)
    requires !Sampled(c, prefixes, Run(c, prefixes, Start(), Ones(before)), Ones(n), b)
    ensures !Fair(c, prefixes)
  {
    hide Sampled, Run, Explores;
    OnesExplore(c, before);
    OnesExplore(c, n);
    OnesRounds(n);
  }

  /**
   Fairness is exact: every window of as many exploring rounds as there are buckets, in every run
   from a new sampler, draws from every bucket if and only if the buckets fit the history table.
   */
  lemma FairIffUnderLimit(c: Config, prefixes: seq<Net>)
    requires Exploring(c, prefixes)
    ensures Fair(c, prefixes) <==> BucketCount(c, prefixes) <= 200_000
  {
    hide Fair, Sampled, Single, Last, BucketSet;
    var n := BucketCount(c, prefixes);
    var b := LastExists(c, prefixes);
    LastMember(c, prefixes, b);
    if n <= PRUNE_LIMIT {
      FairUnderLimit(c, prefixes);
    } else if n == PRUNE_LIMIT + 1 {
      LastDrawnAtOverflow(c, prefixes, b);
      LongWait(c, prefixes, Run(c, prefixes, Start(), Ones(PRUNE_LIMIT + 1)), b);
      UnfairWitness(c, prefixes, PRUNE_LIMIT + 1, n, b);
    } else {
      FirstPassExact(c, prefixes, n, b);
      assert Ones(0) == [];
      UnfairWitness(c, prefixes, 0, n, b);
    }
  }

  // ----- snapshots beyond the limit

  /** Prefixes of length at most 20, cut into the most buckets allowed. */
  predicate Wide(c: Config, prefixes: seq<Net>) {
    c.perPrefix == MAX_BUCKETS_PER_PREFIX && forall n :: n in prefixes ==> n.len <= 20
  }

  lemma TwelveBits()
    ensures Pow2(12) == 4_096
  {
    assert Pow2(6) == 64;
  }

  lemma WideNet(n: Net)
    requires n.len <= 20
    ensures BucketsFor(MAX_BUCKETS_PER_PREFIX, n) == MAX_BUCKETS_PER_PREFIX
  {
    hide Pow2;
    Pow2Monotone(12, V4_BITS - n.len);
    TwelveBits();
  }

  lemma {:induction false} WideCount(prefixes: seq<Net>)
    requires ValidNets(prefixes, V4_BITS) && forall n :: n in prefixes ==> n.len <= 20
    ensures |AllBuckets(MAX_BUCKETS_PER_PREFIX, prefixes)| == MAX_BUCKETS_PER_PREFIX * |prefixes|
  {
    if prefixes != [] {
      var last := |prefixes| - 1;
      assert prefixes[last] in prefixes;
      assert forall n :: n in prefixes[..last] ==> n in prefixes;
      WideCount(prefixes[..last]);
      WideNet(prefixes[last]);
    }
  }

  /** Forty-nine such prefixes exceed the limit, and some bucket is never drawn, whatever the hash. */
  lemma WideSnapshotsStarve(c: Config, prefixes: seq<Net>) returns (b: Bucket)
    requires Exploring(c, prefixes) && Wide(c, prefixes) && |prefixes| >= 49
    ensures b in BucketSet(c, prefixes) && BucketCount(c, prefixes) >= PRUNE_LIMIT + 2
    ensures forall n :: !Sampled(c, prefixes, Start(), Ones(n), b)
  {
    b := LastExists(c, prefixes);
    LastMember(c, prefixes, b);
    SizeIsCount(c, prefixes);
    WideCount(prefixes);
    hide AllBuckets, BucketSet, Sampled, Last;
    StartSingle(c, prefixes);
    forall n
      ensures !Sampled(c, prefixes, Start(), Ones(n), b)
    {
      OnesExplore(c, n);
      PruningStarves(c, prefixes, Start(), Ones(n), b);
    }
  }

  /** The first forty-nine blocks of length 20. */
  function FortyNine(): seq<Net> {
    seq(49, i requires 0 <= i < 49 => Net(4_096 * i, 20))
  }

  lemma Doubles(k: nat)
    ensures Pow2(k + 1) == 2 * Pow2(k)
  {
  }

  lemma BlocksFit()
    ensures 49 * 4_096 <= Pow2(V4_BITS)
  {
    hide Pow2;
    Pow2Monotone(18, V4_BITS);
    TwelveBits();
    Doubles(12);
    Doubles(13);
    Doubles(14);
    Doubles(15);
    Doubles(16);
    Doubles(17);
  }

  lemma FortyNineWide(c: Config)
    requires ValidConfig(c) && c.exploitFraction < 1.0 && c.perPrefix == MAX_BUCKETS_PER_PREFIX
    ensures Exploring(c, FortyNine()) && Wide(c, FortyNine()) && |FortyNine()| == 49
  {
    hide Pow2;
    BlocksFit();
  }
}
