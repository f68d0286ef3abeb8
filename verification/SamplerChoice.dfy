/**
 Which buckets a round prefers and what it writes down, in terms of the history alone.
 */
module SamplerChoice {
  import opened Seqs
  import opened Sorting
  import opened Prefixes
  import opened Buckets
  import opened Sampler

  // ----- the exploit phase

  lemma {:induction false} ExploitKeeps(order: seq<Bucket>, limit: nat, chosen: seq<Bucket>)
    ensures chosen <= PickExploit(order, limit, chosen)
  {
    if order != [] && |chosen| < limit {
      ExploitKeeps(order[1..], limit, if order[0] in chosen then chosen else chosen + [order[0]]);
    }
  }

  /** What the exploit phase takes comes before what it leaves. */
  lemma {:induction false} TakenComesFirst(order: seq<Bucket>, limit: nat, chosen: seq<Bucket>, leq: (Bucket, Bucket) -> bool, a: Bucket, b: Bucket)
    requires Sorted(order, leq) && a !in chosen && b in order
    requires a in PickExploit(order, limit, chosen) && b !in PickExploit(order, limit, chosen)
    ensures a in order && leq(a, b)
  {
    ExploitKeeps(order, limit, chosen);
    var x, rest := order[0], order[1..];
    assert order == [x] + rest;
    var more := if x in chosen then chosen else chosen + [x];
    ExploitKeeps(rest, limit, more);
    assert x in more;
    if x == a {
      var k :| 0 <= k < |order| && order[k] == b;
      assert k > 0;
    } else {
      TakenComesFirst(rest, limit, more, leq, a, b);
    }
  }

  lemma {:induction false} ExploitFillsUp(order: seq<Bucket>, limit: nat, chosen: seq<Bucket>)
    ensures |PickExploit(order, limit, chosen)| >= limit || forall b :: b in order ==> b in PickExploit(order, limit, chosen)
  {
    if order != [] && |chosen| < limit {
      var more := if order[0] in chosen then chosen else chosen + [order[0]];
      ExploitFillsUp(order[1..], limit, more);
      ExploitKeeps(order[1..], limit, more);
      assert order == [order[0]] + order[1..] && order[0] in more;
    }
  }

  lemma CrossMultiplied(x: real, m: real, y: real, n: real)
    requires m > 0.0 && n > 0.0
    ensures x / m > y / n <==> x * n > y * m
    ensures x / m == y / n <==> x * n == y * m
  {
    var p, q := x / m, y / n;
    assert x == p * m && y == q * n;
    assert x * n == p * (m * n) && y * m == q * (m * n);
    assert (p - q) * (m * n) == x * n - y * m;
    assert m * n > 0.0;
    ProductSign(p - q, m * n);
  }

  lemma ProductSign(d: real, w: real)
    requires w > 0.0
    ensures d * w > 0.0 <==> d > 0.0
    ensures d * w == 0.0 <==> d == 0.0
  {
  }

  /** The ratio of successes to attempts of `a` is at least that of `b`; equal ratios by the hash. */
  predicate Yields(h: History, tiebreak: Bucket -> nat, a: Bucket, b: Bucket)
    requires a in h && b in h
  {
    || h[a].successes * h[b].attempts > h[b].successes * h[a].attempts
    || (h[a].successes * h[b].attempts == h[b].successes * h[a].attempts && tiebreak(a) <= tiebreak(b))
  }

  lemma BetterYields(h: History, tiebreak: Bucket -> nat, a: Bucket, b: Bucket)
    requires a in h && b in h && h[a].attempts > 0 && h[b].attempts > 0 && ExploitLeq(h, tiebreak)(a, b)
    ensures Yields(h, tiebreak, a, b)
  {
    var x, m, y, n := h[a].successes, h[a].attempts, h[b].successes, h[b].attempts;
    CrossMultiplied(x as real, m as real, y as real, n as real);
    AsReal(x, n);
    AsReal(y, m);
  }

  lemma AsReal(x: nat, n: nat)
    ensures (x * n) as real == x as real * n as real
  {
  }

  /**
   The exploit phase takes buckets by yield: whatever it adds was attempted before, and no attempted
   bucket it leaves out had a better ratio of successes to attempts, or an equal one and a smaller
   hash.
   */
  lemma ExploitPrefersYield(c: Config, h: History, prefixes: seq<Net>, budget: nat, a: Bucket, b: Bucket)
    requires ValidConfig(c) && ValidTable(prefixes) && prefixes != []
    requires a in Chosen(c, h, prefixes, budget) && a !in Explored(c, h, prefixes, budget)
    requires b in AllBuckets(c.perPrefix, prefixes) && b in h && h[b].attempts > 0 && b !in Chosen(c, h, prefixes, budget)
    ensures a in h && h[a].attempts > 0 && Yields(h, c.tiebreak, a, b)
  {
    var all := AllBuckets(c.perPrefix, prefixes);
    var tried := Filter(Attempted(h), all);
    var leq, order := ExploitLeq(h, c.tiebreak), ExploitOrder(c, h, all);
    ExploitLeqIsOrder(h, c.tiebreak);
    SortSorts(tried, leq);
    SortPermutes(tried, leq);
    FilterMember(Attempted(h), all, b);
    FilterMember(Attempted(h), all, a);
    hide AllBuckets, Explored;
    TakenComesFirst(order, budget, Explored(c, h, prefixes, budget), leq, a, b);
    BetterYields(h, c.tiebreak, a, b);
  }

  lemma ExploitLeqIsOrder(h: History, tiebreak: Bucket -> nat)
    ensures TotalPreorder(ExploitLeq(h, tiebreak))
  {
  }

  /** A round uses its whole budget unless every bucket attempted before is among the chosen. */
  lemma BudgetIsUsed(c: Config, h: History, prefixes: seq<Net>, budget: nat, b: Bucket)
    requires ValidConfig(c) && ValidTable(prefixes) && prefixes != [] && |Chosen(c, h, prefixes, budget)| < budget
    requires b in AllBuckets(c.perPrefix, prefixes) && b in h && h[b].attempts > 0
    ensures b in Chosen(c, h, prefixes, budget)
  {
    var all := AllBuckets(c.perPrefix, prefixes);
    SortPermutes(Filter(Attempted(h), all), ExploitLeq(h, c.tiebreak));
    FilterMember(Attempted(h), all, b);
    hide AllBuckets, Explored;
    ExploitFillsUp(ExploitOrder(c, h, all), budget, Explored(c, h, prefixes, budget));
  }

  // ----- the explore phase

  /** Exploration takes at most the budget divided by the number of prefixes, rounded up, from each, and what exploitation does not claim. */
  lemma ExploreShares(c: Config, h: History, prefixes: seq<Net>, budget: nat, n: Net)
    requires ValidConfig(c) && ValidTable(prefixes) && prefixes != [] && budget > 0
    ensures var e := Explored(c, h, prefixes, budget);
            && (CountNet(e, n) - 1) * |prefixes| < budget
            && |e| as real <= budget as real * (1.0 - c.exploitFraction) + 1.0
  {
    ChosenFacts(c, h, prefixes, budget);
    var e, p := Explored(c, h, prefixes, budget), |prefixes|;
    hide Explored, Chosen, AllBuckets, ValidTable;
    assert CountNet(e, n) <= FairShare(budget, p);
    RoundedUp(budget, p, CountNet(e, n));
    var claimed := budget as real * c.exploitFraction;
    assert budget as real * (1.0 - c.exploitFraction) == budget as real - claimed;
    assert claimed - 1.0 < ExploitBudget(c, budget) as real;
  }

  lemma RoundedUp(budget: nat, p: nat, k: nat)
    requires budget > 0 && p > 0 && k <= FairShare(budget, p)
    ensures (k - 1) * p < budget
  {
    var q := (budget + p - 1) / p;
    assert q * p <= budget + p - 1;
    assert budget + p - 1 == p * q + (budget + p - 1) % p;
    assert p * q > 0;
    assert q >= 1;
    assert (k - 1) * p <= (q - 1) * p by {
      ProductGrows(k - 1, q - 1, p);
    }
    assert (q - 1) * p == q * p - p;
  }

  lemma ProductGrows(a: int, b: int, p: nat)
    requires a <= b
    ensures a * p <= b * p
  {
    assert (b - a) * p >= 0;
  }

  // ----- what a round writes down

  /** A chosen bucket gains one attempt and the round number; nothing else changes. */
  lemma {:induction false} VisitIsExact(h: History, chosen: seq<Bucket>, round: nat, b: Bucket)
    requires Distinct(chosen)
    ensures var v := Visit(h, chosen, round);
            var was := if b in h then h[b] else BucketState(0, 0, 0);
            if b in chosen then
              && b in v && v[b].lastRound == round && v[b].successes == was.successes
              && v[b].attempts == (if was.attempts < U32_MAX then was.attempts + 1 else U32_MAX)
            else (b in v <==> b in h) && (b in h ==> v[b] == h[b])
  {
    if chosen != [] {
      var last := |chosen| - 1;
      assert chosen == chosen[..last] + [chosen[last]];
      assert chosen[last] !in chosen[..last];
      VisitIsExact(h, chosen[..last], round, b);
    }
  }

  /** A recorded success credits the bucket the address is traced to with one, and changes nothing else. */
  lemma SuccessIsExact(c: Config, s: State, prefixes: seq<Net>, addr: nat, b: Bucket)
    requires ValidConfig(c) && ValidTable(prefixes)
    ensures var next := SuccessState(c, s, prefixes, addr);
            var was := if b in s.history then s.history[b] else BucketState(0, 0, 0);
            && next.round == s.round
            && (if Locate(c.perPrefix, prefixes, addr) == Some(b) then
                  && b in next.history && next.history[b].attempts == was.attempts && next.history[b].lastRound == was.lastRound
                  && next.history[b].successes == (if was.successes < U32_MAX then was.successes + 1 else U32_MAX)
                else (b in next.history <==> b in s.history) && (b in s.history ==> next.history[b] == s.history[b]))
  {
    hide Locate;
  }

  /** The i-th proposal is drawn from the i-th chosen bucket with the hash of that bucket and this round. */
  lemma ProposalsAreDrawn(c: Config, s: State, prefixes: seq<Net>, budget: nat)
    requires ValidConfig(c) && ValidTable(prefixes) && prefixes != [] && budget > 0
    ensures var out, chosen := Proposals(c, s, prefixes, budget), Chosen(c, s.history, prefixes, budget);
            && |out| == |chosen|
            && forall i :: 0 <= i < |chosen| ==>
                 ValidBucket(c.perPrefix, chosen[i]) && out[i] == AddressOf(c.perPrefix, chosen[i], c.draw(chosen[i], s.round + 1))
  {
    ChosenValid(c, s.history, prefixes, budget);
    hide Chosen, AllBuckets;
    var chosen := Chosen(c, s.history, prefixes, budget);
    AddressesAt(c, chosen, s.round + 1);
  }

  /** The drawn address is the hashed offset into the bucket unless that one is reserved. */
  lemma DrawFollowsHash(perPrefix: nat, b: Bucket, h: nat)
    requires ValidBucket(perPrefix, b)
    ensures var wanted := Base(perPrefix, b) + h % BucketSize(perPrefix, b.net);
            wanted % 256 != 0 && wanted % 256 != 255 ==> AddressOf(perPrefix, b, h) == wanted
  {
  }
}
