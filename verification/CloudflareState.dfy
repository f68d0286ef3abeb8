/**
 Whole runs of the candidate pool together with the installed prefix snapshot: admissions,
 probe outcomes, snapshot replacements and network-generation changes in any order.
 */
module CloudflareRuns {
  import opened Seqs
  import opened Prefixes
  import opened Candidates

  datatype Cloud = Cloud(pool: Pool, installed: Option<PrefixSnapshot>)

  /** What happened; an admission uses the installed snapshot and records its result. */
  datatype Event =
    | Admit(request: Request, result: Admission)
    | Probe(addr: IpAddr, stage: Stage, success: bool, colo: Option<string>, now: nat)
    | SetPrefixes(snapshot: PrefixSnapshot)
    | Generation(generation: nat)

  ghost predicate Step(s: Cloud, s': Cloud, e: Event, special: IpAddr -> bool, capacity: nat) {
    match e
    case Admit(q, result) => Admits(s.pool, s'.pool, q, s.installed, special, capacity, result) && s'.installed == s.installed
    case Probe(a, stage, success, colo, now) =>
      s' == s.(pool := s.pool.(maps := RecordStage(s.pool.maps, a, stage, success, colo, now)))
    case SetPrefixes(snapshot) => s' == Cloud(s.pool.(maps := Revalidate(s.pool.maps, snapshot)), Some(snapshot))
    case Generation(g) => s' == s.(pool := s.pool.(maps := GenerationChange(s.pool.maps, g)))
  }

  /** A run of the subsystem from an empty pool. */
  ghost predicate RunOf(ss: seq<Cloud>, es: seq<Event>, special: IpAddr -> bool, capacity: nat) {
    && |ss| == |es| + 1 && capacity >= 1
    && ss[0].pool == Pool(Maps(map[], map[]), Hours(0, None))
    && forall i :: 0 <= i < |es| ==> Step(ss[i], ss[i + 1], es[i], special, capacity)
  }

  // ----- agreement with the installed prefixes

  ghost predicate Agrees(s: Cloud, special: IpAddr -> bool) {
    forall a :: In(s.pool.maps, a) ==> !special(a) && s.installed.Some? && Contains(s.installed.value, a)
  }

  lemma StepAgrees(s: Cloud, s': Cloud, e: Event, special: IpAddr -> bool, capacity: nat)
    requires capacity >= 1 && Valid(s.pool.maps, capacity) && Agrees(s, special) && Step(s, s', e, special, capacity)
    ensures Valid(s'.pool.maps, capacity) && Agrees(s', special)
  {
    hide Contains;
    hide Familied;
    match e
    case Admit(q, result) =>
      AdmissionRespectsEvidence(s.pool, s'.pool, q, s.installed, special, capacity, result);
      hide IsVictim;
      if result.Refreshed? {
        WithMembers(s.pool.maps, q.addr, Renewed(At(s.pool.maps, q.addr), q.origin, q.now));
      }
    case Probe(a, stage, success, colo, now) =>
      RecordKeeps(s.pool.maps, a, stage, success, colo, now, capacity);
    case SetPrefixes(snapshot) =>
      RevalidateKeeps(s.pool.maps, snapshot, capacity);
      RevalidateMembers(s.pool.maps, snapshot);
    case Generation(g) =>
      GenerationKeeps(s.pool.maps, g, capacity);
      GenerationMembers(s.pool.maps, g);
  }

  /**
   In every state of every sequential run, both maps fit the capacity and every pooled address
   is in its own family's map, not special-use, and inside the snapshot installed last.
   */
  lemma {:induction false} PoolAgreesWithPrefixes(ss: seq<Cloud>, es: seq<Event>, special: IpAddr -> bool, capacity: nat, i: nat)
    requires RunOf(ss, es, special, capacity) && i <= |es|
    ensures Valid(ss[i].pool.maps, capacity) && Agrees(ss[i], special)
  {
    hide Step;
    if i > 0 {
      PoolAgreesWithPrefixes(ss, es, special, capacity, i - 1);
      hide Agrees;
      hide Valid;
      StepAgrees(ss[i - 1], ss[i], es[i - 1], special, capacity);
    }
  }

  /** The snapshot of the latest replacement among the first `i` events, or the one at the start. */
  function LatestSnapshot(first: Option<PrefixSnapshot>, es: seq<Event>, i: nat): Option<PrefixSnapshot>
    requires i <= |es|
  {
    if i == 0 then first
    else if es[i - 1].SetPrefixes? then Some(es[i - 1].snapshot)
    else LatestSnapshot(first, es, i - 1)
  }

  /** What is installed is what was installed last, in every state of every run. */
  lemma {:induction false} InstalledIsLatest(ss: seq<Cloud>, es: seq<Event>, special: IpAddr -> bool, capacity: nat, i: nat)
    requires RunOf(ss, es, special, capacity) && i <= |es|
    ensures ss[i].installed == LatestSnapshot(ss[0].installed, es, i)
  {
    if i > 0 {
      InstalledIsLatest(ss, es, special, capacity, i - 1);
      assert Step(ss[i - 1], ss[i], es[i - 1], special, capacity);
      hide Admits, RecordStage, Revalidate, GenerationChange;
    }
  }

  /**
   The agreement is sequential only. `set_prefixes` revalidates and then stores: an admission
   that runs in between with the old snapshot leaves exactly those addresses behind that the
   new snapshot does not contain.
   */
  lemma AdmissionDuringReplacement(p: Pool, p': Pool, q: Request, old_: PrefixSnapshot, new_: PrefixSnapshot, special: IpAddr -> bool, capacity: nat)
    requires capacity >= 1 && Valid(p.maps, capacity)
    requires Admits(p.(maps := Revalidate(p.maps, new_)), p', q, Some(old_), special, capacity, Added)
    requires forall a :: In(p.maps, a) ==> !special(a)
    ensures In(p'.maps, q.addr) && Contains(old_, q.addr)
    ensures Agrees(Cloud(p', Some(new_)), special) <==> Contains(new_, q.addr)
  {
    hide Contains;
    hide Familied;
    var r := p.(maps := Revalidate(p.maps, new_));
    RevalidateKeeps(p.maps, new_, capacity);
    RevalidateMembers(p.maps, new_);
    AdmissionRespectsEvidence(r, p', q, Some(old_), special, capacity, Added);
  }

  lemma HostNet(b: nat)
    requires b < Bits.Pow2(V4_BITS)
    ensures var nets := [Net(b, V4_BITS)]; ValidNets(nets, V4_BITS) && InNet(b, nets[0], V4_BITS)
  {
    assert Bits.Pow2(0) == 1;
  }

  /** The snapshot of a single IPv4 address. */
  function HostSnapshot(b: nat): PrefixSnapshot
    requires b < Bits.Pow2(V4_BITS)
  {
    HostNet(b);
    NewSnapshot([Net(b, V4_BITS)], [])
  }

  /**
   The disagreement is reached: any IPv4 address, an old snapshot that holds it and a new one that
   does not, and an admission to an empty pool between the two halves of the replacement.
   */
  lemma ReplacementRaceIsReached(b: nat, now: nat)
    requires b < Bits.Pow2(V4_BITS)
    ensures var old_, new_ := HostSnapshot(b), NewSnapshot([], []);
            var empty, q := Maps(map[], map[]), Request(V4(b), DnsAnswer, 0, now, None);
            var p' := Pool(With(empty, V4(b), Newcomer(q)), Hours(1, None));
            && Admits(Pool(Revalidate(empty, new_), Hours(0, None)), p', q, Some(old_), (_) => false, 1, Added)
            && !Agrees(Cloud(p', Some(new_)), (_) => false)
  {
    var old_, new_ := HostSnapshot(b), NewSnapshot([], []);
    var empty, q := Maps(map[], map[]), Request(V4(b), DnsAnswer, 0, now, None);
    HostNet(b);
    assert [Net(b, V4_BITS)][0] in [Net(b, V4_BITS)];
    ContainsIsInterval([Net(b, V4_BITS)], [], V4(b));
    ContainsIsInterval([], [], V4(b));
    hide Contains, NewSnapshot;
    assert Revalidate(empty, new_) == empty;
    assert MakesRoom(empty, empty, q.origin, 1);
    assert Adds(empty, With(empty, V4(b), Newcomer(q)), q, 1);
    assert In(With(empty, V4(b), Newcomer(q)), V4(b));
  }

  // ----- eligibility and the probe history

  datatype ProbeRecord = ProbeRecord(stage: Stage, success: bool)

  /** The probe records of `a` since its last admission or generation change. */
  function ProbesOf(ss: seq<Cloud>, es: seq<Event>, i: nat, a: IpAddr): seq<ProbeRecord>
    requires i <= |es| && |ss| == |es| + 1
  {
    if i == 0 then []
    else
      var before := ProbesOf(ss, es, i - 1, a);
      match es[i - 1]
      case Admit(q, result) => if result.Added? && q.addr == a then [] else before
      case Probe(b, stage, success, _, _) =>
        if b == a && In(ss[i - 1].pool.maps, a) then before + [ProbeRecord(stage, success)] else before
      case SetPrefixes(_) => before
      case Generation(_) => []
  }

  function Reached(h: seq<ProbeRecord>): Stage {
    if h == [] then New
    else
      var before, last := Reached(h[..|h| - 1]), h[|h| - 1];
      if last.success && Level(last.stage) > Level(before) then last.stage else before
  }

  function Trailing(h: seq<ProbeRecord>): nat {
    if h == [] || !h[|h| - 1].success then 0 else 1 + Trailing(h[..|h| - 1])
  }

  /** Stage and streak of a candidate summarise its probe history. */
  predicate Summarises(c: Candidate, h: seq<ProbeRecord>) {
    && c.stage == Reached(h)
    && c.consecutive == if Trailing(h) >= U32_MAX then U32_MAX else Trailing(h)
  }

  lemma ProbedSummarises(c: Candidate, h: seq<ProbeRecord>, stage: Stage, success: bool, colo: Option<string>, now: nat)
    requires Summarises(c, h)
    ensures Summarises(Probed(c, stage, success, colo, now), h + [ProbeRecord(stage, success)])
  {
    var g := h + [ProbeRecord(stage, success)];
    assert g[..|g| - 1] == h;
  }

  lemma StepSummary(s: Cloud, s': Cloud, e: Event, special: IpAddr -> bool, capacity: nat, a: IpAddr)
    requires capacity >= 1 && Valid(s.pool.maps, capacity) && Step(s, s', e, special, capacity) && In(s'.pool.maps, a)
    ensures e.Admit? && e.result.Added? && e.request.addr == a ==>
              At(s'.pool.maps, a).stage == New && At(s'.pool.maps, a).consecutive == 0
    ensures e.Generation? ==> At(s'.pool.maps, a).stage == New && At(s'.pool.maps, a).consecutive == 0
    ensures e.Probe? && e.addr == a && In(s.pool.maps, a) ==>
              At(s'.pool.maps, a) == Probed(At(s.pool.maps, a), e.stage, e.success, e.colo, e.now)
    ensures !e.Generation? && !(e.Admit? && e.result.Added? && e.request.addr == a) ==> In(s.pool.maps, a)
    ensures e.SetPrefixes? || (e.Probe? && e.addr != a) || (e.Admit? && !(e.result.Added? && e.request.addr == a)) ==>
              In(s.pool.maps, a)
              && At(s'.pool.maps, a).stage == At(s.pool.maps, a).stage
              && At(s'.pool.maps, a).consecutive == At(s.pool.maps, a).consecutive
  {
    hide Contains;
    hide Familied;
    match e
    case Admit(q, result) =>
      AdmissionRespectsEvidence(s.pool, s'.pool, q, s.installed, special, capacity, result);
      hide IsVictim;
      if result.Refreshed? {
        WithMembers(s.pool.maps, q.addr, Renewed(At(s.pool.maps, q.addr), q.origin, q.now));
      }
    case Probe(b, stage, success, colo, now) =>
      RecordKeeps(s.pool.maps, b, stage, success, colo, now, capacity);
      if In(s.pool.maps, b) {
        WithMembers(s.pool.maps, b, Probed(At(s.pool.maps, b), stage, success, colo, now));
      }
    case SetPrefixes(snapshot) => RevalidateMembers(s.pool.maps, snapshot);
    case Generation(g) => GenerationMembers(s.pool.maps, g);
  }

  lemma {:induction false} CandidateSummarisesHistory(ss: seq<Cloud>, es: seq<Event>, special: IpAddr -> bool, capacity: nat, i: nat, a: IpAddr)
    requires RunOf(ss, es, special, capacity) && i <= |es| && In(ss[i].pool.maps, a)
    ensures Summarises(At(ss[i].pool.maps, a), ProbesOf(ss, es, i, a))
  {
    hide Step;
    hide Valid;
    hide In;
    hide At;
    if i == 0 {
      EmptyPool(a);
    } else {
      var s, s', e := ss[i - 1], ss[i], es[i - 1];
      PoolAgreesWithPrefixes(ss, es, special, capacity, i - 1);
      StepSummary(s, s', e, special, capacity, a);
      if In(s.pool.maps, a) {
        CandidateSummarisesHistory(ss, es, special, capacity, i - 1, a);
        if e.Probe? && e.addr == a {
          ProbedSummarises(At(s.pool.maps, a), ProbesOf(ss, es, i - 1, a), e.stage, e.success, e.colo, e.now);
        }
      }
    }
  }

  lemma EmptyPool(a: IpAddr)
    ensures !In(Maps(map[], map[]), a)
  {
  }

  lemma {:induction false} ReachedHttp(h: seq<ProbeRecord>)
    ensures Reached(h) == HttpOk <==> exists k :: 0 <= k < |h| && h[k] == ProbeRecord(HttpOk, true)
  {
    if h != [] {
      var n := |h| - 1;
      ReachedHttp(h[..n]);
      assert forall k :: 0 <= k < n ==> h[..n][k] == h[k];
      if k :| 0 <= k < |h| && h[k] == ProbeRecord(HttpOk, true) {
        assert k < n ==> h[..n][k] == ProbeRecord(HttpOk, true);
      }
    }
  }

  lemma {:induction false} TrailingRun(h: seq<ProbeRecord>, m: nat)
    ensures Trailing(h) >= m <==> m <= |h| && forall k :: |h| - m <= k < |h| ==> h[k].success
  {
    if m > 0 && h != [] && h[|h| - 1].success {
      TrailingRun(h[..|h| - 1], m - 1);
    }
  }

  /**
   Eligibility equals history: a pooled candidate is eligible at threshold `m` exactly when,
   since its last admission or generation change, some successful probe reached `HttpOk` and
   at least the last `m` probe records all succeeded.
   */
  lemma EligibilityEqualsHistory(ss: seq<Cloud>, es: seq<Event>, special: IpAddr -> bool, capacity: nat, i: nat, a: IpAddr, m: nat)
    requires RunOf(ss, es, special, capacity) && i <= |es| && In(ss[i].pool.maps, a) && m <= U32_MAX
    ensures var h := ProbesOf(ss, es, i, a);
            IsEligible(At(ss[i].pool.maps, a), m) <==>
            && (exists k :: 0 <= k < |h| && h[k] == ProbeRecord(HttpOk, true))
            && m <= |h| && forall k :: |h| - m <= k < |h| ==> h[k].success
  {
    CandidateSummarisesHistory(ss, es, special, capacity, i, a);
    hide RunOf;
    ReachedHttp(ProbesOf(ss, es, i, a));
    TrailingRun(ProbesOf(ss, es, i, a), m);
  }

  predicate IsSuccess(e: Event, a: IpAddr) {
    e.Probe? && e.addr == a && e.success
  }

  /** Successful probes of `a` among the events from `i` up to `j`. */
  function Successes(es: seq<Event>, i: nat, j: nat, a: IpAddr): nat
    requires i <= j <= |es|
    decreases j
  {
    if i == j then 0 else Successes(es, i, j - 1, a) + if IsSuccess(es[j - 1], a) then 1 else 0
  }

  ghost predicate HttpSince(es: seq<Event>, i: nat, j: nat, a: IpAddr)
    requires i <= j <= |es|
  {
    exists k :: i <= k < j && IsSuccess(es[k], a) && es[k].stage == HttpOk
  }

  /** After a generation change the history is made of later probes only. */
  lemma {:induction false} HistoryIsFresh(ss: seq<Cloud>, es: seq<Event>, i: nat, j: nat, a: IpAddr)
    requires |ss| == |es| + 1 && i < j <= |es| && es[i].Generation?
    ensures Trailing(ProbesOf(ss, es, j, a)) <= Successes(es, i + 1, j, a)
    ensures Reached(ProbesOf(ss, es, j, a)) == HttpOk ==> HttpSince(es, i + 1, j, a)
    decreases j
  {
    if j > i + 1 {
      HistoryIsFresh(ss, es, i, j - 1, a);
      var e, h := es[j - 1], ProbesOf(ss, es, j - 1, a);
      if e.Probe? && e.addr == a {
        var r := ProbeRecord(e.stage, e.success);
        assert (h + [r])[..|h|] == h;
        assert Reached(h + [r]) == HttpOk ==> Reached(h) == HttpOk || (IsSuccess(e, a) && e.stage == HttpOk);
      }
    }
  }

  /**
   A generation change leaves nothing eligible, at any threshold, until fresh evidence arrives: a
   candidate eligible at `m` in a later state has had a successful `HttpOk` probe and at least `m`
   successful probes since the change.
   */
  lemma GenerationChangeForgets(ss: seq<Cloud>, es: seq<Event>, special: IpAddr -> bool, capacity: nat, i: nat, j: nat, a: IpAddr, m: nat)
    requires RunOf(ss, es, special, capacity) && i < j <= |es| && es[i].Generation? && In(ss[j].pool.maps, a)
    requires m <= U32_MAX && IsEligible(At(ss[j].pool.maps, a), m)
    ensures HttpSince(es, i + 1, j, a) && Successes(es, i + 1, j, a) >= m
  {
    CandidateSummarisesHistory(ss, es, special, capacity, j, a);
    hide RunOf;
    HistoryIsFresh(ss, es, i, j, a);
  }

  // ----- the sliding window of admissions

  /** The times of the budgeted additions among the first `i` events. */
  function AddTimes(es: seq<Event>, i: nat): seq<int>
    requires i <= |es|
  {
    if i == 0 then []
    else if IsBudgetedAdd(es[i - 1]) then AddTimes(es, i - 1) + [es[i - 1].request.now]
    else AddTimes(es, i - 1)
  }

  predicate IsBudgetedAdd(e: Event) {
    e.Admit? && e.result.Added? && e.request.budget.Some?
  }

  function InRange(lo: int, hi: int): int -> bool {
    (t: int) => lo <= t < hi
  }

  function CountIn(times: seq<int>, lo: int, hi: int): nat {
    Count(InRange(lo, hi), times)
  }

  /** Budgeted additions in the half-open hour that starts at `t0`. */
  function HourFrom(times: seq<int>, t0: int): nat {
    CountIn(times, t0, t0 + WINDOW)
  }

  lemma {:induction false} CountSplit(times: seq<int>, lo: int, mid: int, hi: int)
    requires lo <= mid <= hi
    ensures CountIn(times, lo, hi) == CountIn(times, lo, mid) + CountIn(times, mid, hi)
  {
    if times != [] {
      CountSplit(times[..|times| - 1], lo, mid, hi);
    }
  }

  lemma CountAppend(times: seq<int>, lo: int, hi: int, t: int)
    ensures CountIn(times + [t], lo, hi) == CountIn(times, lo, hi) + if lo <= t < hi then 1 else 0
  {
    CountSnoc(InRange(lo, hi), times, t);
  }

  /** Every budgeted admission of the run uses the budget `b`, and time does not run backwards. */
  predicate SteadyBudget(es: seq<Event>, b: nat) {
    && (forall i :: 0 <= i < |es| && es[i].Admit? && es[i].request.budget.Some? ==> es[i].request.budget.value == b)
    && (forall i, j :: 0 <= i < j < |es| && es[i].Admit? && es[j].Admit? ==> es[i].request.now <= es[j].request.now)
  }

  /** The current window and the one before it each hold at most `b` of the additions. */
  ghost predicate WindowOk(times: seq<int>, h: Hours, b: nat, now: nat) {
    && (forall t :: t in times ==> t <= now)
    && (h.started.None? ==> times == [])
    && (h.started.Some? ==>
          var s := h.started.value;
          && s <= now
          && (forall t :: t in times ==> t < s + WINDOW)
          && CountIn(times, s, s + WINDOW) <= b && CountIn(times, s, s + WINDOW) <= h.admitted
          && forall t0: int :: s - WINDOW < t0 <= s ==> CountIn(times, t0, s) <= b)
  }

  /** At most `2b` additions in any interval of one window's length. */
  ghost predicate Bounded(times: seq<int>, b: nat) {
    forall t0: int :: HourFrom(times, t0) <= 2 * b
  }

  lemma {:induction false} CountBeyond(times: seq<int>, lo: int, hi: int, hi': int)
    requires hi <= hi' && forall t :: t in times ==> t < hi
    ensures CountIn(times, lo, hi') == CountIn(times, lo, hi)
  {
    if times != [] {
      var init, last := times[..|times| - 1], times[|times| - 1];
      assert last in times;
      forall t | t in init
        ensures t < hi
      {
        assert t in times;
      }
      CountBeyond(init, lo, hi, hi');
    }
  }

  lemma {:induction false} CountNothing(times: seq<int>, lo: int, hi: int)
    requires forall t :: t in times ==> t < lo
    ensures CountIn(times, lo, hi) == 0
  {
    if times != [] {
      var init, last := times[..|times| - 1], times[|times| - 1];
      assert last in times;
      forall t | t in init
        ensures t < lo
      {
        assert t in times;
      }
      CountNothing(init, lo, hi);
    }
  }

  /** A later sub-interval with the same end holds no more. */
  lemma CountShrink(times: seq<int>, lo: int, lo': int, hi: int)
    requires lo <= lo' <= hi
    ensures CountIn(times, lo', hi) <= CountIn(times, lo, hi)
  {
    CountSplit(times, lo, lo', hi);
  }

  /** Restarting the window keeps the bookkeeping: the old window becomes the previous one. */
  lemma OpenWindowOk(times: seq<int>, h: Hours, b: nat, before: nat, now: nat)
    requires WindowOk(times, h, b, before) && before <= now
    ensures WindowOk(times, OpenWindow(h, now), b, now)
  {
    hide CountIn;
    var h' := OpenWindow(h, now);
    if h' != h {
      if h.started.None? {
        forall t0: int
          ensures CountIn(times, t0, now) == 0
        {
          CountNothing(times, t0, now);
        }
        CountNothing(times, now, now + WINDOW);
      } else {
        var s := h.started.value;
        CountNothing(times, now, now + WINDOW);
        forall t0: int | now - WINDOW < t0 <= now
          ensures CountIn(times, t0, now) <= b
        {
          CountBeyond(times, s, s + WINDOW, now);
          CountShrink(times, s, t0, now);
        }
      }
    }
  }

  lemma AppendOk(times: seq<int>, h: Hours, b: nat, now: nat)
    requires WindowOk(times, h, b, now) && h.started.Some? && now < h.started.value + WINDOW && h.admitted < b
    ensures WindowOk(times + [now], Hours(h.admitted + 1, h.started), b, now)
  {
    hide CountIn;
    var s := h.started.value;
    CountAppend(times, s, s + WINDOW, now);
    forall t0: int | s - WINDOW < t0 <= s
      ensures CountIn(times + [now], t0, s) <= b
    {
      CountAppend(times, t0, s, now);
    }
  }

  /** A newly added time lies in the current window, so an interval around it meets two windows. */
  lemma AppendBounded(times: seq<int>, h: Hours, b: nat, now: nat)
    requires WindowOk(times, h, b, now) && Bounded(times, b) && h.started.Some? && now < h.started.value + WINDOW && h.admitted < b
    ensures Bounded(times + [now], b)
  {
    hide CountIn;
    var s := h.started.value;
    forall t0: int
      ensures HourFrom(times + [now], t0) <= 2 * b
    {
      assert HourFrom(times, t0) <= 2 * b;
      CountAppend(times, t0, t0 + WINDOW, now);
      if t0 <= now < t0 + WINDOW {
        IntervalMeetsTwo(times, s, t0, b, h.admitted);
      }
    }
  }

  lemma IntervalMeetsTwo(times: seq<int>, s: int, t0: int, b: nat, admitted: nat)
    requires s - WINDOW < t0 < s + WINDOW && admitted < b
    requires forall t :: t in times ==> t < s + WINDOW
    requires CountIn(times, s, s + WINDOW) <= admitted
    requires forall t1: int :: s - WINDOW < t1 <= s ==> CountIn(times, t1, s) <= b
    ensures CountIn(times, t0, t0 + WINDOW) < 2 * b
  {
    hide CountIn;
    if t0 <= s {
      CountSplit(times, t0, s, t0 + WINDOW);
      CountSplit(times, s, t0 + WINDOW, s + WINDOW);
      assert CountIn(times, t0, s) <= b;
    } else {
      CountBeyond(times, t0, s + WINDOW, t0 + WINDOW);
      CountShrink(times, s, t0, s + WINDOW);
    }
  }

  /** How one event changes the window. */
  lemma StepHours(s: Cloud, s': Cloud, e: Event, special: IpAddr -> bool, capacity: nat)
    requires Step(s, s', e, special, capacity)
    ensures !e.Admit? || e.request.budget.None? ==>
              s'.pool.hours == Hours(s.pool.hours.admitted + (if e.Admit? && e.result.Added? then 1 else 0), s.pool.hours.started)
    ensures e.Admit? && e.request.budget.Some? ==>
              var w := OpenWindow(s.pool.hours, e.request.now);
              if e.result.Added? then w.admitted < e.request.budget.value && s'.pool.hours == Hours(w.admitted + 1, w.started)
              else s'.pool.hours == s.pool.hours || s'.pool.hours == w
  {
    hide Contains;
    hide In;
    hide Adds;
    hide HasVictim;
  }

  /** The latest admission time among the first `i` events. */
  function LatestNow(es: seq<Event>, i: nat): nat
    requires i <= |es|
  {
    if i == 0 then 0 else if es[i - 1].Admit? then es[i - 1].request.now else LatestNow(es, i - 1)
  }

  lemma {:induction false} LatestNowBound(es: seq<Event>, i: nat, j: nat, b: nat)
    requires SteadyBudget(es, b) && i <= j < |es| && es[j].Admit?
    ensures LatestNow(es, i) <= es[j].request.now
  {
    if i > 0 && !es[i - 1].Admit? {
      LatestNowBound(es, i - 1, j, b);
    }
  }

  lemma {:induction false} WindowsHold(ss: seq<Cloud>, es: seq<Event>, special: IpAddr -> bool, capacity: nat, b: nat, i: nat)
    requires RunOf(ss, es, special, capacity) && SteadyBudget(es, b) && i <= |es|
    ensures WindowOk(AddTimes(es, i), ss[i].pool.hours, b, LatestNow(es, i)) && Bounded(AddTimes(es, i), b)
  {
    hide CountIn;
    hide Step;
    if i > 0 {
      WindowsHold(ss, es, special, capacity, b, i - 1);
      var e := es[i - 1];
      StepHours(ss[i - 1], ss[i], e, special, capacity);
      var times, h, before := AddTimes(es, i - 1), ss[i - 1].pool.hours, LatestNow(es, i - 1);
      if e.Admit? {
        LatestNowBound(es, i - 1, i - 1, b);
        hide SteadyBudget;
        AdmitWindow(times, h, ss[i].pool.hours, b, before, e);
      }
    } else {
      assert AddTimes(es, 0) == [];
      forall t0: int
        ensures HourFrom([], t0) == 0
      {
        CountNothing([], t0, t0 + WINDOW);
      }
    }
  }

  lemma AdmitWindow(times: seq<int>, h: Hours, h': Hours, b: nat, before: nat, e: Event)
    requires WindowOk(times, h, b, before) && Bounded(times, b) && e.Admit? && before <= e.request.now
    requires e.request.budget.Some? ==> e.request.budget.value == b
    requires e.request.budget.None? ==> h'.started == h.started && h'.admitted >= h.admitted
    requires e.request.budget.Some? ==>
              var w := OpenWindow(h, e.request.now);
              if e.result.Added? then w.admitted < e.request.budget.value && h' == Hours(w.admitted + 1, w.started)
              else h' == h || h' == w
    ensures var times' := if IsBudgetedAdd(e) then times + [e.request.now] else times;
            WindowOk(times', h', b, e.request.now) && Bounded(times', b)
  {
    hide CountIn;
    hide Bounded;
    var now := e.request.now;
    OpenWindowOk(times, h, b, before, now);
    if IsBudgetedAdd(e) {
      var w := OpenWindow(h, now);
      AppendOk(times, w, b, now);
      AppendBounded(times, w, b, now);
    }
  }

  /**
   The sliding-window bound. With one hourly budget `b` and non-decreasing time, every window
   holds at most `b` budgeted additions and any half-open hour at most `2b`, whatever
   unbudgeted admissions, probes and replacements interleave.
   */
  lemma AdmissionBound(ss: seq<Cloud>, es: seq<Event>, special: IpAddr -> bool, capacity: nat, b: nat, i: nat, t: int)
    requires RunOf(ss, es, special, capacity) && SteadyBudget(es, b) && i <= |es|
    ensures CountIn(AddTimes(es, i), t, t + 3_600_000_000_000) <= 2 * b
    ensures ss[i].pool.hours.started.Some? ==> HourFrom(AddTimes(es, i), ss[i].pool.hours.started.value) <= b
  {
    hide CountIn;
    hide Step;
    WindowsHold(ss, es, special, capacity, b, i);
    assert HourFrom(AddTimes(es, i), t) <= 2 * b;
  }

  // ----- the subsystem object

  /** Evidence about one hostname and candidate, and about a hostname's original addresses. */
  datatype DomainValidation = DomainValidation(
    successes: nat, failures: nat, lastSuccess: Option<nat>, lastAttempt: Option<nat>, colo: Option<string>)
  datatype BaselineState = BaselineState(validated: bool, lastSuccessUnix: nat)

  class CloudflareState {
    const pool: CandidatePool
    var prefixes: Option<PrefixSnapshot>
    var validations: map<(string, IpAddr), DomainValidation>
    var baseline: map<string, BaselineState>

    ghost function View(): Cloud
      reads this, pool
    {
      Cloud(pool.View(), prefixes)
    }

    constructor (capacity: nat, special: IpAddr -> bool, builtin: PrefixSnapshot)
      ensures pool.Ok() && fresh(pool) && prefixes == Some(builtin)
      ensures View().pool == Pool(Maps(map[], map[]), Hours(0, None)) && pool.special == special
      ensures pool.capacity == if capacity >= 1 then capacity else 1
      ensures validations == map[] && baseline == map[]
    {
      pool := new CandidatePool(capacity, special);
      prefixes := Some(builtin);
      validations, baseline := map[], map[];
    }

    /** Replace the prefix snapshot. */
    method SetPrefixes(snapshot: PrefixSnapshot)
      requires pool.Ok()
      modifies this`prefixes, pool
      ensures pool.Ok() && Step(old(View()), View(), Event.SetPrefixes(snapshot), pool.special, pool.capacity)
    {
      var _ := pool.RevalidateAgainst(snapshot);
      prefixes := Some(snapshot);
    }

    /** Apply a network-generation change. */
    method OnGenerationChange(generation: nat)
      requires pool.Ok()
      modifies this`validations, this`baseline, pool
      ensures pool.Ok() && Step(old(View()), View(), Generation(generation), pool.special, pool.capacity)
      ensures validations == map[] && baseline == map[]
    {
      pool.OnGenerationChange(generation);
      validations, baseline := map[], map[];
    }

    /** Admit an address against the installed snapshot. */
    method AdmitCandidate(q: Request) returns (result: Admission)
      requires pool.Ok()
      modifies pool
      ensures pool.Ok() && Step(old(View()), View(), Event.Admit(q, result), pool.special, pool.capacity)
    {
      result := pool.Admit(q, prefixes);
    }
  }
}
