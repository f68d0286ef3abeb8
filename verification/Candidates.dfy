/**
 The bounded candidate pool.

 `HashMap` iteration order decides between equally bad victims, so `admit` is a relation between
 the pool before and after; everything else is a function. The class carries out the loops.
 */
module Candidates {
  import opened Seqs
  import opened Prefixes

  const U32_MAX: nat := 0xffff_ffff
  const NANOS_PER_SEC: nat := 1_000_000_000
  const WINDOW: nat := 3_600 * NANOS_PER_SEC

  datatype Origin = DnsAnswer | Config | Persisted | Seed | Sampling

  /** Smaller is better evidence. */
  function Priority(o: Origin): nat {
    match o
    case DnsAnswer => 0
    case Config => 1
    case Persisted => 2
    case Seed => 3
    case Sampling => 4
  }

  datatype Stage = New | TcpOk | TlsOk | HttpOk

  function Level(s: Stage): nat {
    match s
    case New => 0
    case TcpOk => 1
    case TlsOk => 2
    case HttpOk => 3
  }

  datatype RejectReason = NotOfficialPrefix | SpecialUse | NoSnapshot | PoolFull | BudgetExhausted

  datatype Admission = Added | Refreshed | Rejected(reason: RejectReason)

  datatype Candidate = Candidate(
    addr: IpAddr, origin: Origin, firstSeen: nat, lastSeen: nat, lastProbe: Option<nat>,
    stage: Stage, consecutive: nat, generation: nat, colo: Option<string>)

  predicate IsEligible(c: Candidate, minSuccesses: nat) {
    c.stage == HttpOk && c.consecutive >= minSuccesses
  }

  /** The two family maps. */
  datatype Maps = Maps(v4: map<IpAddr, Candidate>, v6: map<IpAddr, Candidate>)

  /** The hourly admission window. */
  datatype Hours = Hours(admitted: nat, started: Option<nat>)

  datatype Pool = Pool(maps: Maps, hours: Hours)

  function Family(p: Maps, a: IpAddr): map<IpAddr, Candidate> {
    if a.V4? then p.v4 else p.v6
  }

  function WithFamily(p: Maps, a: IpAddr, m: map<IpAddr, Candidate>): Maps {
    if a.V4? then p.(v4 := m) else p.(v6 := m)
  }

  function Total(p: Maps): nat {
    |p.v4| + |p.v6|
  }

  predicate In(p: Maps, a: IpAddr) {
    a in Family(p, a)
  }

  function At(p: Maps, a: IpAddr): Candidate
    requires In(p, a)
  {
    Family(p, a)[a]
  }

  /** Each address sits in its own family's map. */
  ghost predicate Familied(p: Maps) {
    && (forall a :: a in p.v4 ==> a.V4? && p.v4[a].addr == a)
    && (forall a :: a in p.v6 ==> a.V6? && p.v6[a].addr == a)
  }

  /** ... and both maps together fit the capacity. */
  ghost predicate Valid(p: Maps, capacity: nat) {
    Familied(p) && Total(p) <= capacity
  }

  // ----- admission

  predicate Permitted(c: Candidate, incoming: Origin) {
    Priority(c.origin) > Priority(incoming) || c.stage == New
  }

  /** `c` is a worse candidate than `d`, or as bad: lower priority, then longer unseen. */
  predicate NoBetter(c: Candidate, d: Candidate) {
    || Priority(c.origin) > Priority(d.origin)
    || (Priority(c.origin) == Priority(d.origin) && c.lastSeen <= d.lastSeen)
  }

  /** `v` is permitted and no permitted candidate of either family is worse. */
  ghost predicate IsVictim(p: Maps, incoming: Origin, v: IpAddr) {
    && In(p, v) && Permitted(At(p, v), incoming)
    && forall a :: In(p, a) && Permitted(At(p, a), incoming) ==> NoBetter(At(p, v), At(p, a))
  }

  function Without(p: Maps, a: IpAddr): Maps {
    WithFamily(p, a, Family(p, a) - {a})
  }

  function With(p: Maps, a: IpAddr, c: Candidate): Maps {
    WithFamily(p, a, Family(p, a)[a := c])
  }

  function Renewed(c: Candidate, origin: Origin, now: nat): Candidate {
    c.(lastSeen := now, origin := if Priority(origin) < Priority(c.origin) then origin else c.origin)
  }

  /** Start a new window when none is open or the open one is an hour old. */
  function OpenWindow(h: Hours, now: nat): Hours {
    if h.started.None? || (now >= h.started.value && now - h.started.value >= WINDOW) then Hours(0, Some(now)) else h
  }

  function Fresh(a: IpAddr, origin: Origin, generation: nat, now: nat): Candidate {
    Candidate(a, origin, now, now, None, New, 0, generation, None)
  }

  /** The arguments of `admit`; `budget` is the hourly budget, when the caller has one. */
  datatype Request = Request(addr: IpAddr, origin: Origin, generation: nat, now: nat, budget: Option<nat>)

  function Newcomer(q: Request): Candidate {
    Fresh(q.addr, q.origin, q.generation, q.now)
  }

  /** The window after the budget check has looked at (and maybe restarted) it. */
  function Windowed(h: Hours, q: Request): Hours {
    if q.budget.Some? then OpenWindow(h, q.now) else h
  }

  /** Which check refuses the address before the pool is looked at. */
  function Refusal(q: Request, snapshot: Option<PrefixSnapshot>, special: IpAddr -> bool): Option<RejectReason> {
    if special(q.addr) then Some(SpecialUse)
    else if snapshot.None? then Some(NoSnapshot)
    else if !Contains(snapshot.value, q.addr) then Some(NotOfficialPrefix)
    else None
  }

  /** A place for the new candidate: `m` itself, or `m` less one victim when it is full. */
  ghost predicate MakesRoom(m: Maps, r: Maps, origin: Origin, capacity: nat) {
    if Total(m) < capacity then r == m
    else exists v :: IsVictim(m, origin, v) && r == Without(m, v)
  }

  ghost predicate HasVictim(m: Maps, origin: Origin) {
    exists v :: IsVictim(m, origin, v)
  }

  ghost predicate Adds(m: Maps, m': Maps, q: Request, capacity: nat) {
    exists r :: MakesRoom(m, r, q.origin, capacity) && m' == With(r, q.addr, Newcomer(q))
  }

  ghost predicate Admits(p: Pool, p': Pool, q: Request, snapshot: Option<PrefixSnapshot>, special: IpAddr -> bool, capacity: nat, result: Admission) {
    if Refusal(q, snapshot, special).Some? then
      p' == p && result == Rejected(Refusal(q, snapshot, special).value)
    else if In(p.maps, q.addr) then
      && p' == p.(maps := With(p.maps, q.addr, Renewed(At(p.maps, q.addr), q.origin, q.now)))
      && result == Refreshed
    else
      var w := Windowed(p.hours, q);
      if q.budget.Some? && w.admitted >= q.budget.value then
        p' == Pool(p.maps, w) && result == Rejected(BudgetExhausted)
      else if Total(p.maps) >= capacity && !HasVictim(p.maps, q.origin) then
        p' == Pool(p.maps, w) && result == Rejected(PoolFull)
      else
        && result == Added
        && Adds(p.maps, p'.maps, q, capacity)
        && p'.hours == w.(admitted := w.admitted + 1)
  }

  // ----- probes, revalidation, generation change

  /** A candidate after one more probe. */
  function Probed(c: Candidate, stage: Stage, success: bool, colo: Option<string>, now: nat): Candidate {
    var d := c.(lastProbe := Some(now));
    if success then
      d.(stage := if Level(stage) > Level(c.stage) then stage else c.stage,
         consecutive := if c.consecutive >= U32_MAX then U32_MAX else c.consecutive + 1,
         colo := if colo.Some? then colo else c.colo)
    else d.(consecutive := 0)
  }

  function RecordStage(p: Maps, a: IpAddr, stage: Stage, success: bool, colo: Option<string>, now: nat): Maps {
    if In(p, a) then With(p, a, Probed(At(p, a), stage, success, colo, now)) else p
  }

  function Kept(m: map<IpAddr, Candidate>, s: PrefixSnapshot): map<IpAddr, Candidate> {
    map a | a in m && Contains(s, a) :: m[a]
  }

  function Revalidate(p: Maps, s: PrefixSnapshot): Maps {
    Maps(Kept(p.v4, s), Kept(p.v6, s))
  }

  function Forgotten(m: map<IpAddr, Candidate>, generation: nat): map<IpAddr, Candidate> {
    map a | a in m :: m[a].(generation := generation, consecutive := 0, stage := New, lastProbe := None)
  }

  function GenerationChange(p: Maps, generation: nat): Maps {
    Maps(Forgotten(p.v4, generation), Forgotten(p.v6, generation))
  }

  // ----- what an admission keeps

  lemma WithoutMembers(p: Maps, a: IpAddr)
    ensures forall b :: In(Without(p, a), b) <==> In(p, b) && b != a
    ensures forall b :: In(Without(p, a), b) ==> At(Without(p, a), b) == At(p, b)
  {
  }

  lemma WithMembers(p: Maps, a: IpAddr, c: Candidate)
    ensures forall b :: In(With(p, a, c), b) <==> In(p, b) || b == a
    ensures forall b :: In(p, b) && b != a ==> At(With(p, a, c), b) == At(p, b)
    ensures At(With(p, a, c), a) == c
  {
  }

  lemma WithoutValid(p: Maps, a: IpAddr, capacity: nat)
    requires Valid(p, capacity) && In(p, a)
    ensures Valid(Without(p, a), capacity) && Total(Without(p, a)) == Total(p) - 1
  {
    var m, n := Family(p, a), Family(p, a) - {a};
    assert n.Keys == m.Keys - {a};
    assert |m| == |m.Keys| && |n| == |n.Keys|;
  }

  lemma WithValid(p: Maps, a: IpAddr, c: Candidate, capacity: nat)
    requires Valid(p, capacity) && c.addr == a && (In(p, a) || Total(p) < capacity)
    ensures Valid(With(p, a, c), capacity)
  {
    var m, n := Family(p, a), Family(p, a)[a := c];
    PutSize(m, a, c);
    var r := With(p, a, c);
    assert Familied(r);
    hide Familied;
    assert Total(r) == Total(p) - |m| + |n|;
  }

  lemma PutSize(m: map<IpAddr, Candidate>, a: IpAddr, c: Candidate)
    ensures |m[a := c]| == |m| + if a in m then 0 else 1
  {
    var n := m[a := c];
    assert |m| == |m.Keys| && |n| == |n.Keys|;
    assert n.Keys == m.Keys + {a};
    if a in m {
      assert n.Keys == m.Keys;
    }
  }

  /** What happened to the membership in one admission. */
  ghost predicate Swapped(m: Maps, m': Maps, q: Request, capacity: nat) {
    && !In(m, q.addr) && In(m', q.addr) && At(m', q.addr) == Newcomer(q)
    && (forall b :: In(m', b) && b != q.addr ==> In(m, b) && At(m', b) == At(m, b))
    && (forall v :: In(m, v) && !In(m', v) ==> Displaced(m, m', q, capacity, v))
  }

  /** `v` alone made room, in a full pool, as a worst permitted candidate. */
  ghost predicate Displaced(m: Maps, m': Maps, q: Request, capacity: nat, v: IpAddr) {
    && Total(m) >= capacity && IsVictim(m, q.origin, v)
    && forall b :: In(m, b) && b != v ==> In(m', b)
  }

  lemma VictimIn(m: Maps, incoming: Origin, v: IpAddr)
    requires IsVictim(m, incoming, v)
    ensures In(m, v) && Permitted(At(m, v), incoming)
  {
  }

  /** An admission that adds swaps at most one victim for the new candidate. */
  lemma AddsSwaps(m: Maps, m': Maps, q: Request, capacity: nat)
    requires capacity >= 1 && Valid(m, capacity) && !In(m, q.addr) && Adds(m, m', q, capacity)
    ensures Valid(m', capacity) && Swapped(m, m', q, capacity)
  {
    hide IsVictim, Familied, With, Without, In, At;
    var r :| MakesRoom(m, r, q.origin, capacity) && m' == With(r, q.addr, Newcomer(q));
    if Total(m) >= capacity {
      var v :| IsVictim(m, q.origin, v) && r == Without(m, v);
      VictimIn(m, q.origin, v);
      WithoutMembers(m, v);
      WithoutValid(m, v, capacity);
    }
    WithMembers(r, q.addr, Newcomer(q));
    WithValid(r, q.addr, Newcomer(q), capacity);
  }

  /**
   Eviction respects evidence. The two maps never exceed the capacity together; a rejected
   admission changes neither; whoever is displaced is a worst permitted candidate of both
   families, and a candidate that has passed any probe stage is displaced only by a newcomer
   of strictly better priority.
   */
  lemma AdmissionRespectsEvidence(p: Pool, p': Pool, q: Request, snapshot: Option<PrefixSnapshot>, special: IpAddr -> bool, capacity: nat, result: Admission)
    requires capacity >= 1 && Valid(p.maps, capacity) && Admits(p, p', q, snapshot, special, capacity, result)
    ensures Valid(p'.maps, capacity)
    ensures result.Rejected? ==> p'.maps == p.maps
    ensures result.Added? ==> Swapped(p.maps, p'.maps, q, capacity)
    ensures forall v :: In(p.maps, v) && !In(p'.maps, v) ==>
              && result.Added? && Total(p.maps) == capacity && IsVictim(p.maps, q.origin, v)
              && (At(p.maps, v).stage != New ==> Priority(q.origin) < Priority(At(p.maps, v).origin))
  {
    hide Familied;
    match result
    case Added =>
      AddsSwaps(p.maps, p'.maps, q, capacity);
      hide Adds;
      hide In;
      hide At;
    case Refreshed =>
      var c := Renewed(At(p.maps, q.addr), q.origin, q.now);
      RenewedKeepsAddress(p.maps, q, capacity);
      WithValid(p.maps, q.addr, c, capacity);
      WithMembers(p.maps, q.addr, c);
    case Rejected(_) =>
  }

  lemma RenewedKeepsAddress(m: Maps, q: Request, capacity: nat)
    requires Valid(m, capacity) && In(m, q.addr)
    ensures Renewed(At(m, q.addr), q.origin, q.now).addr == q.addr
  {
  }

  /** The hourly window lets the request pass. */
  predicate WithinBudget(h: Hours, q: Request) {
    q.budget.Some? ==> Windowed(h, q).admitted < q.budget.value
  }

  /** A request within its budget finds the pool full exactly when every pooled candidate is probed and at least as good. */
  lemma FullOnlyWhenAllBetter(p: Pool, p': Pool, q: Request, snapshot: Option<PrefixSnapshot>, special: IpAddr -> bool, capacity: nat, result: Admission)
    requires capacity >= 1 && Valid(p.maps, capacity) && Admits(p, p', q, snapshot, special, capacity, result)
    requires Refusal(q, snapshot, special).None? && !In(p.maps, q.addr)
    ensures result == Rejected(PoolFull) <==>
            && WithinBudget(p.hours, q) && Total(p.maps) == capacity
            && forall a :: In(p.maps, a) ==> At(p.maps, a).stage != New && Priority(At(p.maps, a).origin) <= Priority(q.origin)
  {
    if exists a :: In(p.maps, a) && Permitted(At(p.maps, a), q.origin) {
      var v := SomeVictim(p.maps, q.origin);
      assert HasVictim(p.maps, q.origin);
    }
  }

  /** A permitted candidate exists, so a worst one does. */
  lemma SomeVictim(m: Maps, incoming: Origin) returns (v: IpAddr)
    requires exists a :: In(m, a) && Permitted(At(m, a), incoming)
    ensures IsVictim(m, incoming, v)
  {
    var all := set a | a in m.v4.Keys + m.v6.Keys && In(m, a) && Permitted(At(m, a), incoming);
    var a :| In(m, a) && Permitted(At(m, a), incoming);
    assert a in all;
    v := WorstOf(m, all);
  }

  lemma {:induction false} WorstOf(m: Maps, all: set<IpAddr>) returns (v: IpAddr)
    requires all != {} && forall a :: a in all ==> In(m, a)
    ensures v in all && forall a :: a in all ==> NoBetter(At(m, v), At(m, a))
    decreases all
  {
    var x :| x in all;
    if all == {x} {
      v := x;
    } else {
      assert all - {x} != {};
      v := WorstOf(m, all - {x});
      if NoBetter(At(m, x), At(m, v)) {
        v := x;
      }
    }
  }

  /** The rule in the source comment: only strictly lower-priority entries are displaced. */
  ghost predicate OnlyWorseDisplaced(m: Maps, m': Maps, incoming: Origin) {
    forall v :: In(m, v) && !In(m', v) ==> Priority(incoming) < Priority(At(m, v).origin)
  }

  /** A pooled candidate of strictly lower priority than the newcomer. */
  ghost predicate HasWorse(m: Maps, incoming: Origin) {
    exists a :: In(m, a) && Priority(incoming) < Priority(At(m, a).origin)
  }

  /** When some candidate is worse than the newcomer, every victim is. */
  lemma VictimIsWorse(m: Maps, incoming: Origin, v: IpAddr)
    requires IsVictim(m, incoming, v)
    ensures Priority(incoming) < Priority(At(m, v).origin) <==> HasWorse(m, incoming)
  {
    if HasWorse(m, incoming) {
      var a :| In(m, a) && Priority(incoming) < Priority(At(m, a).origin);
      assert Permitted(At(m, a), incoming);
      assert NoBetter(At(m, v), At(m, a));
    }
  }

  /** A full pool gives up one candidate for the new one. */
  lemma FullPoolDisplaces(m: Maps, m': Maps, q: Request, capacity: nat)
    requires Total(m) >= capacity && !In(m, q.addr) && Adds(m, m', q, capacity)
    ensures exists v :: IsVictim(m, q.origin, v) && In(m, v) && !In(m', v)
  {
    hide IsVictim, With, Without, In, At;
    var r :| MakesRoom(m, r, q.origin, capacity) && m' == With(r, q.addr, Newcomer(q));
    var v :| IsVictim(m, q.origin, v) && r == Without(m, v);
    VictimIn(m, q.origin, v);
    WithoutMembers(m, v);
    WithMembers(r, q.addr, Newcomer(q));
  }

  /**
   When the rule in the source comment holds: an admission displaces only strictly lower-priority
   entries if and only if the pool has room or holds an entry of strictly lower priority. In the
   remaining case, a full pool with nothing worse than the newcomer, a never-probed entry of equal
   or better priority is displaced.
   */
  lemma CommentedRuleHolds(p: Pool, p': Pool, q: Request, snapshot: Option<PrefixSnapshot>, special: IpAddr -> bool, capacity: nat)
    requires capacity >= 1 && Valid(p.maps, capacity) && Admits(p, p', q, snapshot, special, capacity, Added)
    ensures OnlyWorseDisplaced(p.maps, p'.maps, q.origin) <==> Total(p.maps) < capacity || HasWorse(p.maps, q.origin)
    ensures forall v :: In(p.maps, v) && !In(p'.maps, v) && !HasWorse(p.maps, q.origin) ==> At(p.maps, v).stage == New
  {
    AdmissionRespectsEvidence(p, p', q, snapshot, special, capacity, Added);
    assert Adds(p.maps, p'.maps, q, capacity) && !In(p.maps, q.addr);
    hide Adds, IsVictim, In, At, Valid, HasWorse, Swapped;
    forall v | In(p.maps, v) && !In(p'.maps, v)
      ensures Priority(q.origin) < Priority(At(p.maps, v).origin) <==> HasWorse(p.maps, q.origin)
    {
      VictimIsWorse(p.maps, q.origin, v);
    }
    if Total(p.maps) >= capacity {
      FullPoolDisplaces(p.maps, p'.maps, q, capacity);
    }
  }

  /** The failing case is reached: a full pool of one never-probed candidate, of any priority, and any newcomer. */
  lemma NeverProbedIsDisplaced(a: IpAddr, b: IpAddr, origin: Origin, incoming: Origin, now: nat, snapshot: PrefixSnapshot)
    requires a != b && Contains(snapshot, a) && Contains(snapshot, b)
    ensures var m := With(Maps(map[], map[]), a, Fresh(a, origin, 0, now));
            var m' := With(Without(m, a), b, Fresh(b, incoming, 0, now));
            && Admits(Pool(m, Hours(1, None)), Pool(m', Hours(2, None)), Request(b, incoming, 0, now, None), Some(snapshot), (_) => false, 1, Added)
            && In(m, a) && !In(m', a)
  {
    var m := With(Maps(map[], map[]), a, Fresh(a, origin, 0, now));
    assert forall x :: In(m, x) <==> x == a;
    assert IsVictim(m, incoming, a);
    assert MakesRoom(m, Without(m, a), incoming, 1);
  }

  // ----- the pool object

  class CandidatePool {
    const capacity: nat
    const special: IpAddr -> bool
    var v4: map<IpAddr, Candidate>
    var v6: map<IpAddr, Candidate>
    var admitted: nat
    var hourStarted: Option<nat>

    ghost function View(): Pool
      reads this
    {
      Pool(Maps(v4, v6), Hours(admitted, hourStarted))
    }

    ghost predicate Ok()
      reads this
    {
      capacity >= 1 && Valid(View().maps, capacity)
    }

    constructor (capacity: nat, special: IpAddr -> bool)
      ensures Ok() && View() == Pool(Maps(map[], map[]), Hours(0, None))
      ensures this.capacity == (if capacity >= 1 then capacity else 1) && this.special == special
    {
      this.capacity := if capacity >= 1 then capacity else 1;
      this.special := special;
      v4, v6, admitted, hourStarted := map[], map[], 0, None;
    }

    /** One family's turn of the victim search, continuing from the best victim so far. */
    static method Scan(m: map<IpAddr, Candidate>, incoming: Origin, start: Option<Candidate>) returns (victim: Option<Candidate>)
      requires start.Some? ==> Permitted(start.value, incoming)
      ensures victim.Some? ==>
                && Permitted(victim.value, incoming)
                && (victim == start || exists a :: a in m && m[a] == victim.value)
                && (start.Some? ==> NoBetter(victim.value, start.value))
                && forall a :: a in m && Permitted(m[a], incoming) ==> NoBetter(victim.value, m[a])
      ensures victim.None? ==> start.None? && forall a :: a in m ==> !Permitted(m[a], incoming)
    {
      victim := start;
      var rest := m.Keys;
      while rest != {}
        invariant rest <= m.Keys
        invariant victim.Some? ==>
                    && Permitted(victim.value, incoming)
                    && (victim == start || exists a :: a in m && m[a] == victim.value)
                    && (start.Some? ==> NoBetter(victim.value, start.value))
                    && forall a :: a in m && a !in rest && Permitted(m[a], incoming) ==> NoBetter(victim.value, m[a])
        invariant victim.None? ==> start.None? && forall a :: a in m && a !in rest ==> !Permitted(m[a], incoming)
        decreases rest
      {
        var a :| a in rest;
        rest := rest - {a};
        var c := m[a];
        if Priority(c.origin) <= Priority(incoming) && c.stage != New {
          continue;
        }
        if victim.None?
           || Priority(c.origin) > Priority(victim.value.origin)
           || (Priority(c.origin) == Priority(victim.value.origin) && c.lastSeen < victim.value.lastSeen) {
          victim := Some(c);
        }
      }
    }

    /** Remove the worst permitted candidate of both families, if there is one. */
    method EvictOne(incoming: Origin) returns (ok: bool)
      requires Ok()
      modifies this`v4, this`v6
      ensures ok <==> HasVictim(old(View().maps), incoming)
      ensures !ok ==> View() == old(View())
      ensures ok ==> exists v :: IsVictim(old(View().maps), incoming, v) && View().maps == Without(old(View().maps), v)
    {
      ghost var m := View().maps;
      var first := Scan(v4, incoming, None);
      var worst := Scan(v6, incoming, first);
      if worst.None? {
        NoVictim(m, incoming);
        return false;
      }
      VictimFound(m, incoming, worst.value);
      hide IsVictim;
      var a := worst.value.addr;
      if a.V4? {
        v4 := v4 - {a};
      } else {
        v6 := v6 - {a};
      }
      assert View().maps == Without(m, a);
      ok := true;
    }

    method Put(a: IpAddr, c: Candidate)
      modifies this`v4, this`v6
      ensures View().maps == With(old(View().maps), a, c)
    {
      if a.V4? {
        v4 := v4[a := c];
      } else {
        v6 := v6[a := c];
      }
    }

    /** The hourly budget check. */
    method CheckBudget(q: Request) returns (exhausted: bool)
      modifies this`admitted, this`hourStarted
      ensures View().hours == Windowed(old(View().hours), q)
      ensures exhausted <==> q.budget.Some? && View().hours.admitted >= q.budget.value
    {
      exhausted := false;
      if q.budget.Some? {
        if hourStarted.None? || (q.now >= hourStarted.value && q.now - hourStarted.value >= WINDOW) {
          hourStarted, admitted := Some(q.now), 0;
        }
        exhausted := admitted >= q.budget.value;
      }
    }

    /** Make room if necessary and insert. */
    method InsertBounded(q: Request) returns (ok: bool)
      requires Ok()
      modifies this`v4, this`v6
      ensures ok <==> Total(old(View().maps)) < capacity || HasVictim(old(View().maps), q.origin)
      ensures !ok ==> View().maps == old(View().maps)
      ensures ok ==> Adds(old(View().maps), View().maps, q, capacity)
    {
      hide IsVictim;
      ghost var m := View().maps;
      if |v4| + |v6| >= capacity {
        ok := EvictOne(q.origin);
        if !ok {
          return;
        }
      }
      ok := true;
      ghost var r := View().maps;
      assert MakesRoom(m, r, q.origin, capacity);
      Put(q.addr, Newcomer(q));
    }

    /** Try to admit an address. */
    method Admit(q: Request, snapshot: Option<PrefixSnapshot>) returns (result: Admission)
      requires Ok()
      modifies this
      ensures Ok() && Admits(old(View()), View(), q, snapshot, special, capacity, result)
    {
      ghost var p := View();
      result := Attempt(q, snapshot);
      AdmissionRespectsEvidence(p, View(), q, snapshot, special, capacity, result);
    }

    method Attempt(q: Request, snapshot: Option<PrefixSnapshot>) returns (result: Admission)
      requires Ok()
      modifies this
      ensures Admits(old(View()), View(), q, snapshot, special, capacity, result)
    {
      hide Contains;
      hide With;
      hide Adds;
      hide HasVictim;
      var refusal := Refusal(q, snapshot, special);
      if refusal.Some? {
        return Rejected(refusal.value);
      }
      var family := if q.addr.V4? then v4 else v6;
      if q.addr in family {
        Put(q.addr, Renewed(family[q.addr], q.origin, q.now));
        return Refreshed;
      }
      var exhausted := CheckBudget(q);
      if exhausted {
        return Rejected(BudgetExhausted);
      }
      var ok := InsertBounded(q);
      if !ok {
        return Rejected(PoolFull);
      }
      admitted := admitted + 1;
      return Added;
    }

    /** Record a probe outcome. */
    method Record(a: IpAddr, stage: Stage, success: bool, colo: Option<string>, now: nat)
      requires Ok()
      modifies this`v4, this`v6
      ensures Ok() && View().maps == RecordStage(old(View().maps), a, stage, success, colo, now)
    {
      RecordKeeps(View().maps, a, stage, success, colo, now, capacity);
      var family := if a.V4? then v4 else v6;
      if a in family {
        Put(a, Probed(family[a], stage, success, colo, now));
      }
    }

    /** Drop candidates outside the snapshot and say how many. */
    method RevalidateAgainst(s: PrefixSnapshot) returns (removed: nat)
      requires Ok()
      modifies this`v4, this`v6
      ensures Ok() && View().maps == Revalidate(old(View().maps), s)
      ensures removed == Total(old(View().maps)) - Total(View().maps)
    {
      RevalidateKeeps(View().maps, s, capacity);
      var before := |v4| + |v6|;
      v4, v6 := Kept(v4, s), Kept(v6, s);
      removed := before - (|v4| + |v6|);
    }

    /** Forget all evidence. */
    method OnGenerationChange(generation: nat)
      requires Ok()
      modifies this`v4, this`v6
      ensures Ok() && View().maps == GenerationChange(old(View().maps), generation)
    {
      GenerationKeeps(View().maps, generation, capacity);
      v4, v6 := Forgotten(v4, generation), Forgotten(v6, generation);
    }

    /** The eligible candidates of one family. */
    method Eligible(ipv4: bool, minSuccesses: nat) returns (r: set<Candidate>)
      ensures r == EligibleIn(if ipv4 then v4 else v6, minSuccesses)
    {
      var m := if ipv4 then v4 else v6;
      r := {};
      var rest := m.Keys;
      while rest != {}
        invariant rest <= m.Keys
        invariant r == set a | a in m && a !in rest && IsEligible(m[a], minSuccesses) :: m[a]
        decreases rest
      {
        var a :| a in rest;
        rest := rest - {a};
        if IsEligible(m[a], minSuccesses) {
          r := r + {m[a]};
        }
      }
    }
  }

  function EligibleIn(m: map<IpAddr, Candidate>, minSuccesses: nat): set<Candidate> {
    set a | a in m && IsEligible(m[a], minSuccesses) :: m[a]
  }

  lemma NoVictim(m: Maps, incoming: Origin)
    requires forall a :: a in m.v4 ==> !Permitted(m.v4[a], incoming)
    requires forall a :: a in m.v6 ==> !Permitted(m.v6[a], incoming)
    ensures !HasVictim(m, incoming)
  {
  }

  lemma VictimFound(m: Maps, incoming: Origin, c: Candidate)
    requires Familied(m) && Permitted(c, incoming)
    requires (exists a :: a in m.v4 && m.v4[a] == c) || (exists a :: a in m.v6 && m.v6[a] == c)
    requires forall a :: a in m.v4 && Permitted(m.v4[a], incoming) ==> NoBetter(c, m.v4[a])
    requires forall a :: a in m.v6 && Permitted(m.v6[a], incoming) ==> NoBetter(c, m.v6[a])
    ensures IsVictim(m, incoming, c.addr) && HasVictim(m, incoming)
  {
    assert In(m, c.addr) && At(m, c.addr) == c;
    assert IsVictim(m, incoming, c.addr);
  }

  lemma RecordKeeps(p: Maps, a: IpAddr, stage: Stage, success: bool, colo: Option<string>, now: nat, capacity: nat)
    requires Valid(p, capacity)
    ensures Valid(RecordStage(p, a, stage, success, colo, now), capacity)
    ensures forall b :: In(RecordStage(p, a, stage, success, colo, now), b) <==> In(p, b)
    ensures forall b :: In(p, b) && b != a ==> At(RecordStage(p, a, stage, success, colo, now), b) == At(p, b)
  {
    if In(p, a) {
      var c := Probed(At(p, a), stage, success, colo, now);
      WithValid(p, a, c, capacity);
      WithMembers(p, a, c);
    }
  }

  lemma RevalidateKeeps(p: Maps, s: PrefixSnapshot, capacity: nat)
    requires Valid(p, capacity)
    ensures Valid(Revalidate(p, s), capacity) && Total(Revalidate(p, s)) <= Total(p)
  {
    KeptSmaller(p.v4, s);
    KeptSmaller(p.v6, s);
  }

  lemma RevalidateMembers(p: Maps, s: PrefixSnapshot)
    ensures forall b :: In(Revalidate(p, s), b) <==> In(p, b) && Contains(s, b)
    ensures forall b :: In(Revalidate(p, s), b) ==> At(Revalidate(p, s), b) == At(p, b)
  {
    hide Contains;
  }

  lemma KeptSmaller(m: map<IpAddr, Candidate>, s: PrefixSnapshot)
    ensures |Kept(m, s)| <= |m|
  {
    var n := Kept(m, s);
    assert |m| == |m.Keys| && |n| == |n.Keys|;
    SubsetCardinality(n.Keys, m.Keys);
  }

  lemma GenerationKeeps(p: Maps, generation: nat, capacity: nat)
    requires Valid(p, capacity)
    ensures Valid(GenerationChange(p, generation), capacity)
  {
    var r := GenerationChange(p, generation);
    assert r.v4.Keys == p.v4.Keys && r.v6.Keys == p.v6.Keys;
    assert |r.v4| == |r.v4.Keys| && |r.v6| == |r.v6.Keys| && |p.v4| == |p.v4.Keys| && |p.v6| == |p.v6.Keys|;
  }

  lemma GenerationMembers(p: Maps, generation: nat)
    ensures forall b :: In(GenerationChange(p, generation), b) <==> In(p, b)
    ensures forall b :: In(p, b) ==>
              var c := At(GenerationChange(p, generation), b);
              c.stage == New && c.consecutive == 0 && c.origin == At(p, b).origin
  {
  }
}
