/**
 Admission in terms of origins, probe stages and times: who outranks whom, what each request is
 answered, and what the pool holds afterwards.
 */
module CandidateOrder {
  import opened Seqs
  import opened Prefixes
  import opened Candidates

  /** Real answers over configuration over saved candidates over seeds over samples. */
  predicate Outranks(a: Origin, b: Origin) {
    match a
    case DnsAnswer => b in {Config, Persisted, Seed, Sampling}
    case Config => b in {Persisted, Seed, Sampling}
    case Persisted => b in {Seed, Sampling}
    case Seed => b == Sampling
    case Sampling => false
  }

  lemma PriorityIsRank(a: Origin, b: Origin)
    ensures Priority(a) < Priority(b) <==> Outranks(a, b)
    ensures Priority(a) == Priority(b) <==> a == b
  {
  }

  /** The newcomer may take the place of `c`: it outranks it, or `c` was never probed. */
  predicate MayReplace(incoming: Origin, c: Candidate) {
    Outranks(incoming, c.origin) || c.stage == New
  }

  /**
   Who is displaced. A probed candidate yields only to an origin that outranks its own. Of all the
   candidates the newcomer may replace, in both families, none is of lower rank than the displaced
   one, and none of its rank was seen longer ago.
   */
  lemma WeakestIsDisplaced(
    p: Pool, p': Pool, q: Request, snapshot: Option<PrefixSnapshot>, special: IpAddr -> bool, capacity: nat, result: Admission, v: IpAddr)
    requires capacity >= 1 && Valid(p.maps, capacity) && Admits(p, p', q, snapshot, special, capacity, result)
    requires In(p.maps, v) && !In(p'.maps, v)
    ensures result == Added && MayReplace(q.origin, At(p.maps, v))
    ensures At(p.maps, v).stage != New ==> Outranks(q.origin, At(p.maps, v).origin)
    ensures forall a :: In(p.maps, a) && MayReplace(q.origin, At(p.maps, a)) ==>
              && !Outranks(At(p.maps, v).origin, At(p.maps, a).origin)
              && (At(p.maps, v).origin == At(p.maps, a).origin ==> At(p.maps, v).lastSeen <= At(p.maps, a).lastSeen)
  {
    AdmissionRespectsEvidence(p, p', q, snapshot, special, capacity, result);
    hide Admits, Valid, In, At;
    var c := At(p.maps, v);
    PriorityIsRank(q.origin, c.origin);
    forall a | In(p.maps, a) && MayReplace(q.origin, At(p.maps, a))
      ensures !Outranks(c.origin, At(p.maps, a).origin)
      ensures c.origin == At(p.maps, a).origin ==> c.lastSeen <= At(p.maps, a).lastSeen
    {
      PriorityIsRank(q.origin, At(p.maps, a).origin);
      PriorityIsRank(c.origin, At(p.maps, a).origin);
      assert Permitted(At(p.maps, a), q.origin);
    }
  }

  const HOUR := 3_600_000_000_000

  /** Additions counted in the current hour, in nanoseconds, from the state and the clock alone. */
  function CountedThisHour(h: Hours, now: nat): nat {
    if h.started.None? || now >= h.started.value + HOUR then 0 else h.admitted
  }

  predicate Exhausted(h: Hours, q: Request) {
    q.budget.Some? && CountedThisHour(h, q.now) >= q.budget.value
  }

  /** The window after a request that came as far as the budget: only a budgeted one opens a new hour. */
  function Counted(h: Hours, q: Request): Hours {
    if q.budget.Some? && (h.started.None? || q.now >= h.started.value + HOUR) then Hours(0, Some(q.now)) else h
  }

  ghost predicate NoneToReplace(m: Maps, incoming: Origin) {
    forall a :: In(m, a) ==> !MayReplace(incoming, At(m, a))
  }

  lemma VictimIffReplaceable(m: Maps, incoming: Origin)
    ensures HasVictim(m, incoming) <==> !NoneToReplace(m, incoming)
  {
    if HasVictim(m, incoming) {
      var v :| IsVictim(m, incoming, v);
      VictimIn(m, incoming, v);
      PriorityIsRank(incoming, At(m, v).origin);
    }
    if !NoneToReplace(m, incoming) {
      var a :| In(m, a) && MayReplace(incoming, At(m, a));
      PriorityIsRank(incoming, At(m, a).origin);
      assert Permitted(At(m, a), incoming);
      var v := SomeVictim(m, incoming);
    }
  }

  /** What a request is answered, from the first check that decides it. */
  ghost function Verdict(p: Pool, q: Request, snapshot: Option<PrefixSnapshot>, special: IpAddr -> bool, capacity: nat): Admission {
    if special(q.addr) then Rejected(SpecialUse)
    else if snapshot.None? then Rejected(NoSnapshot)
    else if !Contains(snapshot.value, q.addr) then Rejected(NotOfficialPrefix)
    else if In(p.maps, q.addr) then Refreshed
    else if Exhausted(p.hours, q) then Rejected(BudgetExhausted)
    else if Total(p.maps) >= capacity && NoneToReplace(p.maps, q.origin) then Rejected(PoolFull)
    else Added
  }

  lemma WindowIsHour(h: Hours, now: nat)
    ensures OpenWindow(h, now).admitted == CountedThisHour(h, now)
  {
  }

  /**
   Every request gets exactly the answer its origin, the clock and the pool call for. In particular
   an hour or more after the window opened a positive budget is never exhausted, and a full pool
   that holds a candidate the newcomer outranks, or a never-probed one, lets it in.
   */
  lemma AdmissionIsDecided(
    p: Pool, p': Pool, q: Request, snapshot: Option<PrefixSnapshot>, special: IpAddr -> bool, capacity: nat, result: Admission)
    requires capacity >= 1 && Admits(p, p', q, snapshot, special, capacity, result)
    ensures result == Verdict(p, q, snapshot, special, capacity)
    ensures result == Rejected(BudgetExhausted) && q.budget.value > 0 ==>
              p.hours.started.Some? && q.now < p.hours.started.value + HOUR && p.hours.admitted >= q.budget.value
    ensures result == Rejected(PoolFull) ==> forall a :: In(p.maps, a) ==> !Outranks(q.origin, At(p.maps, a).origin)
  {
    hide Contains, In, At;
    VictimIffReplaceable(p.maps, q.origin);
    WindowIsHour(p.hours, q.now);
    hide HasVictim, OpenWindow, Adds;
  }

  /**
   What is written. A refreshed candidate was seen now and keeps the better of its two origins; an
   added one starts without evidence; the count of the hour goes up by one for an addition only.
   */
  lemma AdmissionWrites(
    p: Pool, p': Pool, q: Request, snapshot: Option<PrefixSnapshot>, special: IpAddr -> bool, capacity: nat, result: Admission)
    requires capacity >= 1 && Valid(p.maps, capacity) && Admits(p, p', q, snapshot, special, capacity, result)
    ensures result.Refreshed? ==>
              && In(p.maps, q.addr) && In(p'.maps, q.addr) && p'.hours == p.hours
              && var c := At(p.maps, q.addr);
                 At(p'.maps, q.addr) == c.(lastSeen := q.now, origin := if Outranks(q.origin, c.origin) then q.origin else c.origin)
    ensures result.Added? ==>
              && In(p'.maps, q.addr)
              && At(p'.maps, q.addr) == Candidate(q.addr, q.origin, q.now, q.now, None, New, 0, q.generation, None)
              && p'.hours == Hours(Counted(p.hours, q).admitted + 1, Counted(p.hours, q).started)
    ensures result.Rejected? ==>
              p'.hours == if result.reason in {BudgetExhausted, PoolFull} then Counted(p.hours, q) else p.hours
  {
    AdmissionRespectsEvidence(p, p', q, snapshot, special, capacity, result);
    WindowIsHour(p.hours, q.now);
    if result.Refreshed? {
      var c := At(p.maps, q.addr);
      PriorityIsRank(q.origin, c.origin);
      WithMembers(p.maps, q.addr, Renewed(c, q.origin, q.now));
      hide Valid, In, At, Contains;
    } else {
      hide Valid, In, At, Contains, Adds, HasVictim, OpenWindow;
    }
  }

  /** One probe record: the stage only rises, through TCP and TLS to HTTP; a failure ends the streak. */
  lemma ProbeIsRecorded(m: Maps, a: IpAddr, stage: Stage, success: bool, colo: Option<string>, now: nat)
    requires In(m, a)
    ensures var c, d := At(m, a), At(RecordStage(m, a, stage, success, colo, now), a);
            && d.lastProbe == Some(now) && d.origin == c.origin && d.lastSeen == c.lastSeen && d.generation == c.generation
            && (success ==>
                  && d.stage == (if c.stage == HttpOk || stage == HttpOk then HttpOk
                                 else if c.stage == TlsOk || stage == TlsOk then TlsOk
                                 else if c.stage == TcpOk || stage == TcpOk then TcpOk
                                 else New)
                  && d.consecutive == (if c.consecutive < 0xffff_ffff then c.consecutive + 1 else 0xffff_ffff)
                  && d.colo == (if colo.Some? then colo else c.colo))
            && (!success ==> d.stage == c.stage && d.consecutive == 0 && d.colo == c.colo)
  {
    WithMembers(m, a, Probed(At(m, a), stage, success, colo, now));
  }

  /** A generation change marks everyone with the new generation and forgets probes, stages and streaks, nothing else. */
  lemma GenerationIsMarked(m: Maps, generation: nat, a: IpAddr)
    ensures var next := GenerationChange(m, generation);
            && (In(next, a) <==> In(m, a))
            && (In(m, a) ==>
                  At(next, a) == At(m, a).(generation := generation, consecutive := 0, stage := New, lastProbe := None))
  {
  }
}
