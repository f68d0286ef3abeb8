/**
 Connection accounting of the TCP accept loop, as an interleaving of its atomic actions.

 One accept loop takes a permit, looks up the client's counter under the map lock (dropping idle
 counters first when the map is large), compares the counter with the limit, and increments it.
 Any number of connection tasks decrement their counter and then return their permit, at any
 point between those actions: the counters are atomics and are not protected by the lock.
 */
module TcpAccounting {
  import opened Seqs

  const PRUNE_ABOVE: nat := 65_536
  const USIZE_MAX: nat := 0xffff_ffff_ffff_ffff

  type Client = nat

  /**
   `Serving` until the connection has decremented its counter; `Released` once its permit is back;
   `Abandoned` when it panicked, which returns the permit and skips the decrement.
   */
  datatype Phase = Serving | Uncounted | Released | Abandoned

  datatype Conn = Conn(client: Client, counter: nat, phase: Phase)

  /** Where the accept loop is. Every state but `Idle` holds a permit. */
  datatype Loop =
    | Idle
    | Permitted(client: Client)
    | Pruning(client: Client, todo: set<Client>)
    | Looked(client: Client, counter: nat)
    | Cleared(client: Client, counter: nat)

  datatype Server = Server(
    maxConnections: nat, perClient: nat, permits: nat,
    counters: seq<nat>, table: map<Client, nat>, loop: Loop, conns: seq<Conn>)

  datatype Step =
    | Accept(client: Client)
    | Admit(allowed: bool)
    | PruneOne(client: Client)
    | Lookup
    | Check
    | Increment
    | Decrement(conn: nat)
    | ReturnPermit(conn: nat)
    | Abandon(conn: nat)

  function Init(maxConnections: nat, perClient: nat): Server {
    Server(maxConnections, perClient, maxConnections, [], map[], Idle, [])
  }

  function Next(s: Server, step: Step): Server {
    match step
    case Accept(client) =>
      if !s.loop.Idle? || s.permits == 0 then s
      else s.(permits := s.permits - 1, loop := Permitted(client))
    case Admit(allowed) =>
      if !s.loop.Permitted? then s
      else if !allowed then s.(permits := s.permits + 1, loop := Idle)
      else s.(loop := Pruning(s.loop.client, if |s.table| > PRUNE_ABOVE then s.table.Keys else {}))
    case PruneOne(client) =>
      if !s.loop.Pruning? || client !in s.loop.todo then s
      else
        var idle := client in s.table && s.table[client] < |s.counters| && s.counters[s.table[client]] == 0;
        s.(table := if idle then s.table - {client} else s.table,
           loop := Pruning(s.loop.client, s.loop.todo - {client}))
    case Lookup =>
      if !s.loop.Pruning? || s.loop.todo != {} then s
      else if s.loop.client in s.table then s.(loop := Looked(s.loop.client, s.table[s.loop.client]))
      else s.(counters := s.counters + [0],
              table := s.table[s.loop.client := |s.counters|],
              loop := Looked(s.loop.client, |s.counters|))
    case Check =>
      if !s.loop.Looked? then s
      else if s.loop.counter < |s.counters| && s.counters[s.loop.counter] >= s.perClient then
        s.(permits := s.permits + 1, loop := Idle)
      else s.(loop := Cleared(s.loop.client, s.loop.counter))
    case Increment =>
      if !s.loop.Cleared? || s.loop.counter >= |s.counters| then s
      else s.(counters := s.counters[s.loop.counter := s.counters[s.loop.counter] + 1],
              conns := s.conns + [Conn(s.loop.client, s.loop.counter, Serving)],
              loop := Idle)
    case Decrement(i) =>
      if i >= |s.conns| || !s.conns[i].phase.Serving? || s.conns[i].counter >= |s.counters| then s
      else
        var k := s.conns[i].counter;
        s.(counters := s.counters[k := if s.counters[k] == 0 then USIZE_MAX else s.counters[k] - 1],
           conns := s.conns[i := s.conns[i].(phase := Uncounted)])
    case ReturnPermit(i) =>
      if i >= |s.conns| || !s.conns[i].phase.Uncounted? then s
      else s.(permits := s.permits + 1, conns := s.conns[i := s.conns[i].(phase := Released)])
    case Abandon(i) =>
      if i >= |s.conns| || !s.conns[i].phase.Serving? then s
      else s.(permits := s.permits + 1, conns := s.conns[i := s.conns[i].(phase := Abandoned)])
  }

  // ----- what the counters are meant to count

  function IsLive(client: Client): Conn -> bool {
    (c: Conn) => c.client == client && c.phase.Serving?
  }

  function IsAbandoned(client: Client): Conn -> bool {
    (c: Conn) => c.client == client && c.phase.Abandoned?
  }

  /** Incremented and never decremented. */
  predicate OnCounter(c: Conn) {
    c.phase.Serving? || c.phase.Abandoned?
  }

  function IsCharged(client: Client): Conn -> bool {
    (c: Conn) => c.client == client && OnCounter(c)
  }

  function Unreleased(): Conn -> bool {
    (c: Conn) => c.phase.Serving? || c.phase.Uncounted?
  }

  function InService(): Conn -> bool {
    (c: Conn) => c.phase.Serving?
  }

  /** The live connections of one client. */
  function Live(conns: seq<Conn>, client: Client): nat {
    Count(IsLive(client), conns)
  }

  /** The connections of one client that panicked. */
  function Lost(conns: seq<Conn>, client: Client): nat {
    Count(IsAbandoned(client), conns)
  }

  function Charged(conns: seq<Conn>, client: Client): nat {
    Count(IsCharged(client), conns)
  }

  lemma {:induction false} ChargedSplits(conns: seq<Conn>, client: Client)
    ensures Charged(conns, client) == Live(conns, client) + Lost(conns, client)
  {
    if conns != [] {
      ChargedSplits(conns[..|conns| - 1], client);
    }
  }

  function HeldPermits(s: Server): nat {
    Count(Unreleased(), s.conns) + if s.loop.Idle? then 0 else 1
  }

  // ----- invariant

  predicate PermitsBalance(s: Server) {
    s.permits + HeldPermits(s) == s.maxConnections
  }

  predicate TableOk(s: Server) {
    && (forall c :: c in s.table ==> s.table[c] < |s.counters|)
    && (forall c, d :: c in s.table && d in s.table && s.table[c] == s.table[d] ==> c == d)
  }

  /** A listed counter equals what its client was charged for. */
  ghost predicate CountersExact(s: Server) {
    forall c :: c in s.table ==> s.table[c] < |s.counters| && s.counters[s.table[c]] == Charged(s.conns, c)
  }

  /** The counter a connection is charged on is the one its client's next lookup finds. */
  predicate ConnsAttached(s: Server) {
    forall i :: 0 <= i < |s.conns| && OnCounter(s.conns[i]) ==>
      s.conns[i].client in s.table && s.table[s.conns[i].client] == s.conns[i].counter
  }

  ghost predicate LimitsHold(s: Server) {
    forall c :: Charged(s.conns, c) <= s.perClient
  }

  ghost predicate LoopOk(s: Server) {
    match s.loop
    case Looked(c, k) => c in s.table && s.table[c] == k
    case Cleared(c, k) => c in s.table && s.table[c] == k && Charged(s.conns, c) < s.perClient
    case _ => true
  }

  ghost predicate Inv(s: Server) {
    PermitsBalance(s) && TableOk(s) && CountersExact(s) && ConnsAttached(s) && LimitsHold(s) && LoopOk(s)
  }

  /** Unlisted clients are not charged for anything. */
  lemma {:induction false} UnlistedIdle(conns: seq<Conn>, client: Client)
    requires forall i :: 0 <= i < |conns| && OnCounter(conns[i]) ==> conns[i].client != client
    ensures Charged(conns, client) == 0
  {
    if conns != [] {
      UnlistedIdle(conns[..|conns| - 1], client);
    }
  }

  lemma PruneInv(s: Server, client: Client)
    requires Inv(s)
    ensures Inv(Next(s, PruneOne(client)))
  {
    var s' := Next(s, PruneOne(client));
    if s'.table != s.table {
      assert Charged(s.conns, client) == 0;
      forall i | 0 <= i < |s.conns| && OnCounter(s.conns[i])
        ensures s.conns[i].client != client
      {
        if s.conns[i].client == client {
          CountPositive(IsCharged(client), s.conns, i);
        }
      }
    }
  }

  lemma LookupInv(s: Server)
    requires Inv(s)
    ensures Inv(Next(s, Lookup))
  {
    if s.loop.Pruning? && s.loop.client !in s.table {
      UnlistedIdle(s.conns, s.loop.client);
    }
  }

  lemma IncrementInv(s: Server)
    requires Inv(s)
    ensures Inv(Next(s, Increment))
  {
    if s.loop.Cleared? {
      var s' := Next(s, Increment);
      var conn := Conn(s.loop.client, s.loop.counter, Serving);
      CountSnoc(Unreleased(), s.conns, conn);
      forall c
        ensures Charged(s'.conns, c) == Charged(s.conns, c) + if c == s.loop.client then 1 else 0
      {
        CountSnoc(IsCharged(c), s.conns, conn);
      }
    }
  }

  lemma DecrementInv(s: Server, i: nat)
    requires Inv(s)
    ensures Inv(Next(s, Decrement(i)))
  {
    if i < |s.conns| && s.conns[i].phase.Serving? {
      var s' := Next(s, Decrement(i));
      var client := s.conns[i].client;
      CountPositive(IsCharged(client), s.conns, i);
      var conn := s.conns[i].(phase := Uncounted);
      CountUpdate(Unreleased(), s.conns, i, conn);
      forall c
        ensures Charged(s'.conns, c) == Charged(s.conns, c) - if c == client then 1 else 0
      {
        CountUpdate(IsCharged(c), s.conns, i, conn);
      }
    }
  }

  lemma ReturnInv(s: Server, i: nat)
    requires Inv(s)
    ensures Inv(Next(s, ReturnPermit(i)))
  {
    if i < |s.conns| && s.conns[i].phase.Uncounted? {
      var s' := Next(s, ReturnPermit(i));
      var conn := s.conns[i].(phase := Released);
      CountUpdate(Unreleased(), s.conns, i, conn);
      forall c
        ensures Charged(s'.conns, c) == Charged(s.conns, c)
      {
        CountUpdate(IsCharged(c), s.conns, i, conn);
      }
    }
  }

  lemma AbandonInv(s: Server, i: nat)
    requires Inv(s)
    ensures Inv(Next(s, Abandon(i)))
  {
    if i < |s.conns| && s.conns[i].phase.Serving? {
      var s' := Next(s, Abandon(i));
      var conn := s.conns[i].(phase := Abandoned);
      CountUpdate(Unreleased(), s.conns, i, conn);
      forall c
        ensures Charged(s'.conns, c) == Charged(s.conns, c)
      {
        CountUpdate(IsCharged(c), s.conns, i, conn);
      }
    }
  }

  /** Every action, at every point of every other, keeps the accounting. */
  lemma NextInv(s: Server, step: Step)
    requires Inv(s)
    ensures Inv(Next(s, step))
  {
    match step
    case Accept(_) =>
    case Admit(_) =>
    case PruneOne(client) => PruneInv(s, client);
    case Lookup => LookupInv(s);
    case Check =>
    case Increment => IncrementInv(s);
    case Decrement(i) => DecrementInv(s, i);
    case ReturnPermit(i) => ReturnInv(s, i);
    case Abandon(i) => AbandonInv(s, i);
  }

  function Run(s: Server, steps: seq<Step>): Server
    decreases |steps|
  {
    if steps == [] then s else Run(Next(s, steps[0]), steps[1..])
  }

  lemma {:induction false} RunInv(s: Server, steps: seq<Step>)
    requires Inv(s)
    ensures Inv(Run(s, steps))
    decreases |steps|
  {
    hide Inv;
    if steps != [] {
      NextInv(s, steps[0]);
      RunInv(Next(s, steps[0]), steps[1..]);
    }
  }

  lemma {:induction false} RunKeepsLimits(s: Server, steps: seq<Step>)
    ensures Run(s, steps).maxConnections == s.maxConnections && Run(s, steps).perClient == s.perClient
    decreases |steps|
  {
    if steps != [] {
      RunKeepsLimits(Next(s, steps[0]), steps[1..]);
    }
  }

  /**
   The accounting in every interleaving, panics included: a client's counter is its number of live
   connections and of those that panicked (no entry means none of either), no client and no
   listener exceeds its limit, and a live connection always shares the counter that its client's
   next accept will read.
   */
  lemma AccountingHolds(maxConnections: nat, perClient: nat, steps: seq<Step>)
    ensures var s := Run(Init(maxConnections, perClient), steps);
            && (forall c :: c in s.table ==>
                  s.table[c] < |s.counters| && s.counters[s.table[c]] == Live(s.conns, c) + Lost(s.conns, c))
            && (forall c :: c !in s.table ==> Live(s.conns, c) == 0 && Lost(s.conns, c) == 0)
            && (forall c :: Live(s.conns, c) + Lost(s.conns, c) <= perClient)
            && Count(InService(), s.conns) <= maxConnections
            && s.permits <= maxConnections
            && ConnsAttached(s)
  {
    InitInv(maxConnections, perClient);
    RunInv(Init(maxConnections, perClient), steps);
    RunKeepsLimits(Init(maxConnections, perClient), steps);
    var s := Run(Init(maxConnections, perClient), steps);
    hide Run;
    CountImplied(InService(), Unreleased(), s.conns);
    forall c
      ensures Charged(s.conns, c) == Live(s.conns, c) + Lost(s.conns, c)
      ensures c !in s.table ==> Charged(s.conns, c) == 0
    {
      ChargedSplits(s.conns, c);
      if c !in s.table {
        UnlistedIdle(s.conns, c);
      }
    }
  }

  /** The counter the client's next accept will read; a client without one starts at zero. */
  function CounterOf(s: Server, c: Client): nat {
    if c in s.table && s.table[c] < |s.counters| then s.counters[s.table[c]] else 0
  }

  /** A client's counter is exactly its number of live connections if and only if none of its connections panicked. */
  lemma AccountingExact(maxConnections: nat, perClient: nat, steps: seq<Step>, c: Client)
    ensures var s := Run(Init(maxConnections, perClient), steps);
            CounterOf(s, c) == Live(s.conns, c) <==> forall i :: 0 <= i < |s.conns| && s.conns[i].client == c ==> !s.conns[i].phase.Abandoned?
  {
    AccountingHolds(maxConnections, perClient, steps);
    var s := Run(Init(maxConnections, perClient), steps);
    hide Run;
    if i :| 0 <= i < |s.conns| && s.conns[i].client == c && s.conns[i].phase.Abandoned? {
      CountPositive(IsAbandoned(c), s.conns, i);
    } else {
      NoneLost(s.conns, c);
    }
  }

  lemma {:induction false} NoneLost(conns: seq<Conn>, client: Client)
    requires forall i :: 0 <= i < |conns| && conns[i].client == client ==> !conns[i].phase.Abandoned?
    ensures Lost(conns, client) == 0
  {
    if conns != [] {
      NoneLost(conns[..|conns| - 1], client);
    }
  }

  lemma InitInv(maxConnections: nat, perClient: nat)
    ensures Inv(Init(maxConnections, perClient))
  {
  }

  /**
   The decisions are exact too: once looked up, a client is refused exactly when its live and its
   panicked connections reach the limit, and what was compared cannot rise before the increment.
   */
  lemma RefusedOnlyAtLimit(maxConnections: nat, perClient: nat, steps: seq<Step>)
    ensures var s := Run(Init(maxConnections, perClient), steps);
            && (s.loop.Looked? ==>
                  (Next(s, Check).loop.Idle? <==> Live(s.conns, s.loop.client) + Lost(s.conns, s.loop.client) >= perClient))
            && (s.loop.Cleared? ==>
                  && Live(s.conns, s.loop.client) + Lost(s.conns, s.loop.client) < perClient
                  && Live(Next(s, Increment).conns, s.loop.client) == Live(s.conns, s.loop.client) + 1)
            && (s.loop.Idle? ==> forall c :: Next(s, Accept(c)).loop.Idle? <==> HeldPermits(s) == maxConnections)
  {
    InitInv(maxConnections, perClient);
    RunInv(Init(maxConnections, perClient), steps);
    RunKeepsLimits(Init(maxConnections, perClient), steps);
    var s := Run(Init(maxConnections, perClient), steps);
    hide Run;
    if s.loop.Looked? || s.loop.Cleared? {
      ChargedSplits(s.conns, s.loop.client);
    }
    if s.loop.Cleared? {
      CountSnoc(IsLive(s.loop.client), s.conns, Conn(s.loop.client, s.loop.counter, Serving));
    }
  }

  // ----- what a panic leaves behind

  /** Six actions of one connection that is accepted and panics. */
  lemma PanicSteps(c: Client)
    ensures Next(Init(1, 1), Accept(c)) == Server(1, 1, 0, [], map[], Permitted(c), [])
    ensures Next(Server(1, 1, 0, [], map[], Permitted(c), []), Admit(true)) == Server(1, 1, 0, [], map[], Pruning(c, {}), [])
    ensures Next(Server(1, 1, 0, [], map[], Pruning(c, {}), []), Lookup) == Server(1, 1, 0, [0], map[c := 0], Looked(c, 0), [])
    ensures Next(Server(1, 1, 0, [0], map[c := 0], Looked(c, 0), []), Check) == Server(1, 1, 0, [0], map[c := 0], Cleared(c, 0), [])
    ensures Next(Server(1, 1, 0, [0], map[c := 0], Cleared(c, 0), []), Increment)
            == Server(1, 1, 0, [1], map[c := 0], Idle, [Conn(c, 0, Serving)])
    ensures Next(Server(1, 1, 0, [1], map[c := 0], Idle, [Conn(c, 0, Serving)]), Abandon(0))
            == Server(1, 1, 1, [1], map[c := 0], Idle, [Conn(c, 0, Abandoned)])
  {
  }

  /** A counter does go wrong: after one panic it stays at one with nothing live. */
  lemma PanicLeavesCounter(c: Client)
    ensures var s := Run(Init(1, 1), [Accept(c), Admit(true), Lookup, Check, Increment, Abandon(0)]);
            CounterOf(s, c) == 1 && Live(s.conns, c) == 0 && Lost(s.conns, c) == 1
  {
    hide Next, Init, Live, Lost;
    PanicSteps(c);
    var s1 := Next(Init(1, 1), Accept(c));
    var s2 := Next(s1, Admit(true));
    var s3 := Next(s2, Lookup);
    var s4 := Next(s3, Check);
    var s5 := Next(s4, Increment);
    RunCons(Init(1, 1), Accept(c), [Admit(true), Lookup, Check, Increment, Abandon(0)]);
    RunCons(s1, Admit(true), [Lookup, Check, Increment, Abandon(0)]);
    RunCons(s2, Lookup, [Check, Increment, Abandon(0)]);
    RunCons(s3, Check, [Increment, Abandon(0)]);
    RunCons(s4, Increment, [Abandon(0)]);
    RunCons(s5, Abandon(0), []);
    OneConn(Conn(c, 0, Abandoned));
  }

  lemma RunCons(s: Server, step: Step, rest: seq<Step>)
    ensures Run(s, [step] + rest) == Run(Next(s, step), rest)
  {
    hide Next;
    assert ([step] + rest)[1..] == rest;
  }

  lemma OneConn(conn: Conn)
    ensures Live([conn], conn.client) == (if conn.phase.Serving? then 1 else 0)
    ensures Lost([conn], conn.client) == (if conn.phase.Abandoned? then 1 else 0)
  {
    assert [] + [conn] == [conn];
    CountSnoc(IsLive(conn.client), [], conn);
    CountSnoc(IsAbandoned(conn.client), [], conn);
  }

  lemma {:induction false} RunAppend(s: Server, a: seq<Step>, b: seq<Step>)
    ensures Run(s, a + b) == Run(Run(s, a), b)
    decreases |a|
  {
    hide Next;
    if a == [] {
      assert a + b == b;
    } else {
      assert (a + b)[0] == a[0] && (a + b)[1..] == a[1..] + b;
      RunAppend(Next(s, a[0]), a[1..], b);
    }
  }

  lemma LostStays(s: Server, step: Step, c: Client)
    ensures Lost(s.conns, c) <= Lost(Next(s, step).conns, c)
  {
    match step
    case Increment =>
      if s.loop.Cleared? {
        CountSnoc(IsAbandoned(c), s.conns, Conn(s.loop.client, s.loop.counter, Serving));
      }
    case Decrement(i) =>
      if i < |s.conns| {
        CountUpdate(IsAbandoned(c), s.conns, i, s.conns[i].(phase := Uncounted));
      }
    case ReturnPermit(i) =>
      if i < |s.conns| {
        CountUpdate(IsAbandoned(c), s.conns, i, s.conns[i].(phase := Released));
      }
    case Abandon(i) =>
      if i < |s.conns| {
        CountUpdate(IsAbandoned(c), s.conns, i, s.conns[i].(phase := Abandoned));
      }
    case _ =>
  }

  lemma {:induction false} LostStaysOverRuns(s: Server, steps: seq<Step>, c: Client)
    ensures Lost(s.conns, c) <= Lost(Run(s, steps).conns, c)
    decreases |steps|
  {
    hide Next;
    if steps != [] {
      LostStays(s, steps[0], c);
      LostStaysOverRuns(Next(s, steps[0]), steps[1..], c);
    }
  }

  /**
   The damage is permanent: once a client has lost as many connections to panics as it may have,
   no continuation of any run serves it again.
   */
  lemma LockedOutForGood(maxConnections: nat, perClient: nat, steps: seq<Step>, more: seq<Step>, c: Client)
    requires Lost(Run(Init(maxConnections, perClient), steps).conns, c) >= perClient
    ensures Live(Run(Init(maxConnections, perClient), steps + more).conns, c) == 0
  {
    RunAppend(Init(maxConnections, perClient), steps, more);
    LostStaysOverRuns(Run(Init(maxConnections, perClient), steps), more, c);
    AccountingHolds(maxConnections, perClient, steps + more);
  }
}
