/**
 The answer cache: lookups over time and late DNSSEC verdicts.

 Each step is one access to one of the stores. `promote`, `evict_variant`, `record_variant` and
 `set_selected_variant` read first and write later, so each of them is two steps here, and any
 number of other steps may fall between its read and its write. The undivided forms are steps too.
 */
module DnsCaches {
  import opened Seqs
  import opened Sorting
  import opened Variants
  import Names
  import Messages

  datatype Kind = Positive | NoData | NxDomain

  datatype Key = Key(
    name: string, qtype: nat, qclass: nat, group: string, ecs: Option<string>, dnssecOk: bool, checkingDisabled: bool)

  /** A cached answer; instants are in nanoseconds. */
  datatype Entry = Entry(
    message: Msg, receivedAt: nat, receivedUnix: nat, ttl: nat, kind: Kind, dnssec: Dnssec, source: string, fingerprint: Messages.U64,
    rrsigExpiry: Option<nat>)

  /** An entry and the instant the store last wrote it; the retention counts from there. */
  datatype Stored = Stored(entry: Entry, writtenAt: nat)

  /** `maxStale` in nanoseconds, `internalMaxTtl` in seconds. */
  datatype CacheConfig = CacheConfig(serveStale: bool, maxStale: nat, internalMaxTtl: nat)

  datatype Lookup = Fresh(entry: Entry, remaining: nat) | Stale(entry: Entry, staleness: nat) | Miss

  const U32 := 0x1_0000_0000
  const WEEK := 604_800

  /** What configuration validation lets through. */
  predicate ValidConfig(cfg: CacheConfig) {
    1 <= cfg.internalMaxTtl <= WEEK && (cfg.serveStale ==> 1 <= cfg.maxStale / SECOND <= WEEK)
  }

  // ----- time

  /** How long the store keeps what was written. */
  function Retention(cfg: CacheConfig): nat {
    (if cfg.serveStale then cfg.maxStale else 0) + cfg.internalMaxTtl * SECOND
  }

  predicate Live(cfg: CacheConfig, st: Stored, now: nat) {
    now < st.writtenAt + Retention(cfg)
  }

  /** Whole seconds since receipt, truncated to 32 bits. */
  function AgeSecs(e: Entry, now: nat): nat {
    Elapsed(e.receivedAt, now) / SECOND % U32
  }

  function RemainingTtl(e: Entry, now: nat): nat {
    Messages.SaturatingSub(e.ttl, AgeSecs(e, now))
  }

  function Staleness(e: Entry, now: nat): nat {
    Messages.SaturatingSub(AgeSecs(e, now), e.ttl)
  }

  /** `get` on an entry the store still has. */
  function View(cfg: CacheConfig, e: Entry, now: nat): Lookup {
    if RemainingTtl(e, now) > 0 then Fresh(e, RemainingTtl(e, now))
    else if !cfg.serveStale || Staleness(e, now) > cfg.maxStale / SECOND || e.dnssec == Bogus then Miss
    else Stale(e, Staleness(e, now))
  }

  /** `get` on a stored entry: a miss once its retention has passed. */
  function Seen(cfg: CacheConfig, st: Stored, now: nat): Lookup {
    if Live(cfg, st, now) then View(cfg, st.entry, now) else Miss
  }

  function Phase(l: Lookup): nat {
    match l
    case Fresh(_, _) => 0
    case Stale(_, _) => 1
    case Miss => 2
  }

  /** Time from receipt to expiry, and to the end of the last servable stale second. */
  function Expiry(e: Entry): nat {
    e.ttl * SECOND
  }

  function Limit(cfg: CacheConfig, e: Entry): nat {
    (e.ttl + cfg.maxStale / SECOND + 1) * SECOND
  }

  /** The store lets go of the entry before its age could wrap. */
  predicate OnTime(cfg: CacheConfig, st: Stored) {
    st.writtenAt + Retention(cfg) <= st.entry.receivedAt + U32 * SECOND
  }

  lemma SecondsBelow(t: nat, n: nat)
    ensures t / SECOND < n <==> t < n * SECOND
  {
  }

  /** A valid configuration retains nothing for longer than two weeks and a second. */
  lemma RetentionBound(cfg: CacheConfig)
    requires ValidConfig(cfg)
    ensures 0 < Retention(cfg) < (2 * WEEK + 1) * SECOND
  {
    SecondsBelow(cfg.maxStale, WEEK + 1);
  }

  lemma AgeIsExact(cfg: CacheConfig, st: Stored, now: nat)
    requires OnTime(cfg, st) && Live(cfg, st, now)
    ensures AgeSecs(st.entry, now) == Elapsed(st.entry.receivedAt, now) / SECOND
  {
    SecondsBelow(Elapsed(st.entry.receivedAt, now), U32);
  }

  /**
   At every instant, the lookup of a stored entry is decided by the time since receipt and by the
   retention alone: Fresh before expiry, then Stale, then Miss, and Miss once the retention has
   passed. A fresh lookup reports the whole seconds left, a stale one those past expiry.
   */
  lemma LookupTimeline(cfg: CacheConfig, st: Stored, now: nat)
    requires OnTime(cfg, st)
    ensures var e, t, l := st.entry, Elapsed(st.entry.receivedAt, now), Seen(cfg, st, now);
            && (l.Fresh? <==> Live(cfg, st, now) && t < Expiry(e))
            && (l.Stale? <==>
                  cfg.serveStale && e.dnssec != Bogus && Live(cfg, st, now) && Expiry(e) <= t < Limit(cfg, e))
            && (l.Fresh? ==> l.entry == e && l.remaining == e.ttl - t / SECOND)
            && (l.Stale? ==> l.entry == e && l.staleness == t / SECOND - e.ttl)
  {
    if Live(cfg, st, now) {
      hide AgeSecs;
      var t := Elapsed(st.entry.receivedAt, now);
      AgeIsExact(cfg, st, now);
      SecondsBelow(t, st.entry.ttl);
      SecondsBelow(t, st.entry.ttl + cfg.maxStale / SECOND + 1);
    }
  }

  function Min(a: nat, b: nat): nat {
    if a <= b then a else b
  }

  /**
   The whole life of an answer stored when it was received, under any valid configuration: Fresh up
   to its TTL, Stale up to the stale limit, both cut off by the retention. For a TTL within the
   cap on positive answers the retention never cuts freshness.
   */
  lemma LifeOfAnAnswer(cfg: CacheConfig, e: Entry, now: nat)
    requires ValidConfig(cfg)
    ensures var t, l := Elapsed(e.receivedAt, now), Seen(cfg, Stored(e, e.receivedAt), now);
            && (l.Fresh? <==> t < Min(Expiry(e), Retention(cfg)))
            && (l.Stale? <==> cfg.serveStale && e.dnssec != Bogus && Expiry(e) <= t < Min(Limit(cfg, e), Retention(cfg)))
            && (e.ttl <= cfg.internalMaxTtl ==> (l.Fresh? <==> t < Expiry(e)))
  {
    RetentionBound(cfg);
    LookupTimeline(cfg, Stored(e, e.receivedAt), now);
  }

  /** As time passes without writes a lookup never gets better, at any two instants. */
  lemma LookupNeverImproves(cfg: CacheConfig, st: Stored, now: nat, later: nat)
    requires OnTime(cfg, st) && now <= later
    ensures var a, b := Seen(cfg, st, now), Seen(cfg, st, later);
            && Phase(a) <= Phase(b)
            && (b.Fresh? ==> b.remaining <= a.remaining)
            && (a.Stale? && b.Stale? ==> a.staleness <= b.staleness)
  {
    hide Seen, Limit, Expiry;
    LookupTimeline(cfg, st, now);
    LookupTimeline(cfg, st, later);
    assert Elapsed(st.entry.receivedAt, now) / SECOND <= Elapsed(st.entry.receivedAt, later) / SECOND;
  }

  // ----- the three caches

  /** A call that has read and not yet written. */
  datatype Pending =
    | Promotion(key: Key, updated: Entry, readAt: nat)
    | Eviction(key: Key, fingerprint: Messages.U64)
    | SetUpdate(key: Key, updatedSet: VariantSet)

  datatype State = State(
    answers: map<Key, Stored>, variants: map<Key, VariantSet>, failures: map<Key, nat>, pending: map<nat, Pending>)

  datatype Step =
    | Insert(key: Key, entry: Entry, now: nat)
    | Promote(key: Key, fingerprint: Messages.U64, status: Dnssec, now: nat)
    | EvictVariant(key: Key, fingerprint: Messages.U64, now: nat)
    | RecordVariant(key: Key, record: Variant, now: nat)
    | SelectVariant(key: Key, fingerprint: Messages.U64, now: nat)
    | PromoteRead(task: nat, key: Key, fingerprint: Messages.U64, status: Dnssec, now: nat)
    | EvictRead(task: nat, key: Key, fingerprint: Messages.U64, now: nat)
    | RecordRead(task: nat, key: Key, record: Variant, now: nat)
    | SelectRead(task: nat, key: Key, fingerprint: Messages.U64, now: nat)
    | Write(task: nat, now: nat)
    | FlushSuffix(suffix: string)
    | Forget(answers: set<Key>, variants: set<Key>)

  function Empty(): State {
    State(map[], map[], map[], map[])
  }

  /** The entry a verdict looks for is there, live, and has the fingerprint it examined. */
  predicate Matches(cfg: CacheConfig, s: State, key: Key, fingerprint: Messages.U64, now: nat) {
    key in s.answers && Live(cfg, s.answers[key], now) && s.answers[key].entry.fingerprint == fingerprint
  }

  predicate Promotes(cfg: CacheConfig, s: State, key: Key, fingerprint: Messages.U64, status: Dnssec, now: nat) {
    Matches(cfg, s, key, fingerprint, now) && s.answers[key].entry.dnssec != status
  }

  function Without<V>(m: map<Key, V>, suffix: string): map<Key, V> {
    map k | k in m && !Names.NameInSuffix(k.name, suffix) :: m[k]
  }

  function SetOf(s: State, key: Key): VariantSet {
    if key in s.variants then s.variants[key] else VariantSet([], None, None)
  }

  function Recording(s: State, key: Key, record: Variant, now: nat): VariantSet {
    SetOf(s, key).(variants := Recorded(SetOf(s, key).variants, record, now))
  }

  predicate Selects(s: State, key: Key, fingerprint: Messages.U64) {
    key in s.variants && s.variants[key].selected != Some(fingerprint)
  }

  function Selecting(s: State, key: Key, fingerprint: Messages.U64, now: nat): VariantSet {
    SetOf(s, key).(selected := Some(fingerprint), selectedAt := Some(now))
  }

  /** Leave a call between its read and its write; a task does one call at a time. */
  function Begin(s: State, task: nat, p: Pending): State {
    if task in s.pending then s else s.(pending := s.pending[task := p])
  }

  function Finish(s: State, task: nat, now: nat): State
    requires task in s.pending
  {
    var rest := s.(pending := s.pending - {task});
    match s.pending[task]
    case Promotion(k, e, _) => rest.(answers := s.answers[k := Stored(e, now)])
    case Eviction(k, _) => rest.(answers := s.answers - {k})
    case SetUpdate(k, u) => rest.(variants := s.variants[k := u])
  }

  /** One step; `Forget` is a store dropping entries of its own accord. */
  function Apply(cfg: CacheConfig, s: State, step: Step): State {
    match step
    case Insert(k, e, now) => if e.dnssec == Bogus then s else s.(answers := s.answers[k := Stored(e, now)])
    case Promote(k, fp, st, now) =>
      if Promotes(cfg, s, k, fp, st, now) then
        s.(answers := s.answers[k := Stored(s.answers[k].entry.(dnssec := st), now)])
      else s
    case EvictVariant(k, fp, now) => if Matches(cfg, s, k, fp, now) then s.(answers := s.answers - {k}) else s
    case RecordVariant(k, r, now) => s.(variants := s.variants[k := Recording(s, k, r, now)])
    case SelectVariant(k, fp, now) =>
      if Selects(s, k, fp) then s.(variants := s.variants[k := Selecting(s, k, fp, now)]) else s
    case PromoteRead(t, k, fp, st, now) =>
      if Promotes(cfg, s, k, fp, st, now) then Begin(s, t, Promotion(k, s.answers[k].entry.(dnssec := st), now)) else s
    case EvictRead(t, k, fp, now) => if Matches(cfg, s, k, fp, now) then Begin(s, t, Eviction(k, fp)) else s
    case RecordRead(t, k, r, now) => Begin(s, t, SetUpdate(k, Recording(s, k, r, now)))
    case SelectRead(t, k, fp, now) =>
      if Selects(s, k, fp) then Begin(s, t, SetUpdate(k, Selecting(s, k, fp, now))) else s
    case Write(t, now) => if t in s.pending then Finish(s, t, now) else s
    case FlushSuffix(suffix) =>
      var target := Names.Normalize(suffix);
      s.(answers := Without(s.answers, target), variants := Without(s.variants, target),
         failures := Without(s.failures, target))
    case Forget(ks, vs) => s.(answers := s.answers - ks, variants := s.variants - vs)
  }

  function Run(cfg: CacheConfig, steps: seq<Step>): State {
    if steps == [] then Empty() else Apply(cfg, Run(cfg, steps[..|steps| - 1]), steps[|steps| - 1])
  }

  function Get(cfg: CacheConfig, s: State, key: Key, now: nat): Lookup {
    if key in s.answers then Seen(cfg, s.answers[key], now) else Miss
  }

  lemma RunSnoc(cfg: CacheConfig, steps: seq<Step>, step: Step)
    ensures Run(cfg, steps + [step]) == Apply(cfg, Run(cfg, steps), step)
  {
    assert (steps + [step])[..|steps|] == steps;
  }

  // ----- where cached entries come from

  /** Two entries that differ at most in their DNSSEC status. */
  predicate SameAnswer(a: Entry, b: Entry) {
    a == b.(dnssec := a.dnssec)
  }

  /** Some insert of the run put this answer under this key. */
  ghost predicate WasInserted(steps: seq<Step>, key: Key, e: Entry) {
    exists i :: 0 <= i < |steps| && steps[i].Insert? && steps[i].key == key && SameAnswer(steps[i].entry, e)
      && (steps[i].entry.dnssec == e.dnssec || WasJudged(steps, key, e))
  }

  /** A verdict about this key and this fingerprint, in this run, gave the entry its status. */
  ghost predicate WasJudged(steps: seq<Step>, key: Key, e: Entry) {
    exists i :: 0 <= i < |steps| && IsVerdict(steps[i], key, e.fingerprint, e.dnssec)
  }

  predicate IsVerdict(step: Step, key: Key, fingerprint: Messages.U64, status: Dnssec) {
    (step.Promote? || step.PromoteRead?) && step.key == key && step.fingerprint == fingerprint && step.status == status
  }

  lemma InsertedLater(steps: seq<Step>, step: Step, key: Key, e: Entry)
    requires WasInserted(steps, key, e)
    ensures WasInserted(steps + [step], key, e)
  {
    var all := steps + [step];
    assert forall i :: 0 <= i < |steps| ==> all[i] == steps[i];
    if WasJudged(steps, key, e) {
      var j :| 0 <= j < |steps| && IsVerdict(steps[j], key, e.fingerprint, e.dnssec);
      assert IsVerdict(all[j], key, e.fingerprint, e.dnssec);
    }
    var i :| 0 <= i < |steps| && steps[i].Insert? && steps[i].key == key && SameAnswer(steps[i].entry, e)
        && (steps[i].entry.dnssec == e.dnssec || WasJudged(steps, key, e));
    assert all[i].Insert? && all[i].key == key && SameAnswer(all[i].entry, e);
  }

  lemma InsertedNow(steps: seq<Step>, key: Key, e: Entry, now: nat)
    ensures WasInserted(steps + [Insert(key, e, now)], key, e)
  {
    var all := steps + [Insert(key, e, now)];
    assert all[|steps|] == Insert(key, e, now) && SameAnswer(all[|steps|].entry, e);
  }

  lemma JudgedNow(steps: seq<Step>, step: Step, key: Key, e: Entry, status: Dnssec)
    requires WasInserted(steps, key, e) && IsVerdict(step, key, e.fingerprint, status)
    ensures WasInserted(steps + [step], key, e.(dnssec := status))
  {
    var all, f := steps + [step], e.(dnssec := status);
    assert IsVerdict(all[|steps|], key, f.fingerprint, f.dnssec);
    assert WasJudged(all, key, f);
    var i :| 0 <= i < |steps| && steps[i].Insert? && steps[i].key == key && SameAnswer(steps[i].entry, e);
    assert all[i] == steps[i] && SameAnswer(all[i].entry, f);
  }

  ghost predicate Accounted(steps: seq<Step>, s: State) {
    && (forall k :: k in s.answers ==> WasInserted(steps, k, s.answers[k].entry))
    && (forall t :: t in s.pending && s.pending[t].Promotion? ==> WasInserted(steps, s.pending[t].key, s.pending[t].updated))
  }

  lemma ApplyAccounted(cfg: CacheConfig, steps: seq<Step>, s: State, step: Step)
    requires Accounted(steps, s)
    ensures Accounted(steps + [step], Apply(cfg, s, step))
  {
    hide WasInserted, Recording, Selecting, Names.NameInSuffix, Names.Normalize, Live;
    forall k | k in s.answers
      ensures WasInserted(steps + [step], k, s.answers[k].entry)
    {
      InsertedLater(steps, step, k, s.answers[k].entry);
    }
    forall t | t in s.pending && s.pending[t].Promotion?
      ensures WasInserted(steps + [step], s.pending[t].key, s.pending[t].updated)
    {
      InsertedLater(steps, step, s.pending[t].key, s.pending[t].updated);
    }
    if step.Insert? {
      InsertedNow(steps, step.key, step.entry, step.now);
    }
    if (step.Promote? || step.PromoteRead?) && Matches(cfg, s, step.key, step.fingerprint, step.now) {
      JudgedNow(steps, step, step.key, s.answers[step.key].entry, step.status);
    }
  }

  /**
   Over every run, calls interrupted between their read and their write included: a cached entry
   is an answer inserted under that key, with its message, TTL and receipt time untouched, and its
   status is the one it was inserted with or a verdict about exactly that key and fingerprint.
   */
  lemma {:induction false} EntriesAreAccounted(cfg: CacheConfig, steps: seq<Step>)
    ensures Accounted(steps, Run(cfg, steps))
  {
    if steps != [] {
      var init := steps[..|steps| - 1];
      EntriesAreAccounted(cfg, init);
      ApplyAccounted(cfg, init, Run(cfg, init), steps[|steps| - 1]);
      assert steps == init + [steps[|steps| - 1]];
    }
  }

  // ----- late verdicts bind to what they examined

  /**
   Step `i` of the run is the read of this pending verdict: at that point the cache held a live
   entry under its key with the fingerprint it examined, and a promotion carries that very entry
   with the verdict as its status.
   */
  ghost predicate ReadAt(cfg: CacheConfig, steps: seq<Step>, i: int, p: Pending) {
    && 0 <= i < |steps|
    && var s, step := Run(cfg, steps[..i]), steps[i];
       match p
       case Promotion(k, e, at) =>
         && step.PromoteRead? && step.key == k && step.fingerprint == e.fingerprint && step.now == at
         && Matches(cfg, s, k, e.fingerprint, at) && e == s.answers[k].entry.(dnssec := step.status)
       case Eviction(k, fp) =>
         step.EvictRead? && step.key == k && step.fingerprint == fp && Matches(cfg, s, k, fp, step.now)
       case SetUpdate(_, _) => false
  }

  ghost predicate Grounded(cfg: CacheConfig, steps: seq<Step>, p: Pending) {
    p.SetUpdate? || exists i :: ReadAt(cfg, steps, i, p)
  }

  lemma GroundedLater(cfg: CacheConfig, steps: seq<Step>, step: Step, p: Pending)
    requires Grounded(cfg, steps, p)
    ensures Grounded(cfg, steps + [step], p)
  {
    if !p.SetUpdate? {
      var i :| ReadAt(cfg, steps, i, p);
      assert (steps + [step])[i] == steps[i] && (steps + [step])[..i] == steps[..i];
      assert ReadAt(cfg, steps + [step], i, p);
    }
  }

  ghost predicate AllGrounded(cfg: CacheConfig, steps: seq<Step>, s: State) {
    forall t :: t in s.pending ==> Grounded(cfg, steps, s.pending[t])
  }

  lemma GroundedNow(cfg: CacheConfig, steps: seq<Step>, step: Step, t: nat)
    requires t !in Run(cfg, steps).pending && t in Apply(cfg, Run(cfg, steps), step).pending
    ensures Grounded(cfg, steps + [step], Apply(cfg, Run(cfg, steps), step).pending[t])
  {
    hide Recording, Selecting, Names.NameInSuffix, Names.Normalize, Live, Run;
    var all, p := steps + [step], Apply(cfg, Run(cfg, steps), step).pending[t];
    assert all[..|steps|] == steps && all[|steps|] == step;
    if !p.SetUpdate? {
      assert ReadAt(cfg, all, |steps|, p);
    }
  }

  lemma PendingKept(cfg: CacheConfig, s: State, step: Step, t: nat)
    requires t in s.pending && t in Apply(cfg, s, step).pending
    ensures Apply(cfg, s, step).pending[t] == s.pending[t]
  {
    hide Recording, Selecting, Names.NameInSuffix, Names.Normalize, Live;
  }

  /** In every run every pending verdict examined what it is going to write about. */
  lemma {:induction false} VerdictsAreGrounded(cfg: CacheConfig, steps: seq<Step>)
    ensures AllGrounded(cfg, steps, Run(cfg, steps))
  {
    if steps != [] {
      var init, step := steps[..|steps| - 1], steps[|steps| - 1];
      assert steps == init + [step];
      VerdictsAreGrounded(cfg, init);
      var s, next := Run(cfg, init), Run(cfg, steps);
      hide Grounded, Apply;
      forall t | t in next.pending
        ensures Grounded(cfg, steps, next.pending[t])
      {
        if t in s.pending {
          PendingKept(cfg, s, step, t);
          GroundedLater(cfg, init, step, s.pending[t]);
        } else {
          GroundedNow(cfg, init, step, t);
        }
      }
    }
  }

  /** The two states hold something different under `k`. */
  predicate Differs(a: State, b: State, k: Key) {
    (k in a.answers) != (k in b.answers) || (k in a.answers && a.answers[k] != b.answers[k])
  }

  /** The ways a step may change what is cached under `k`. */
  ghost predicate Justified(cfg: CacheConfig, steps: seq<Step>, step: Step, k: Key) {
    var s, next := Run(cfg, steps), Run(cfg, steps + [step]);
    match step
    case Insert(key, e, now) => key == k && k in next.answers && next.answers[k] == Stored(e, now)
    case Promote(key, fp, st, now) =>
      && key == k && Matches(cfg, s, k, fp, now)
      && k in next.answers && next.answers[k] == Stored(s.answers[k].entry.(dnssec := st), now)
    case EvictVariant(key, fp, now) => key == k && Matches(cfg, s, k, fp, now) && k !in next.answers
    case Write(t, now) =>
      && t in s.pending && s.pending[t].key == k && (exists i :: ReadAt(cfg, steps, i, s.pending[t]))
      && (if s.pending[t].Promotion? then k in next.answers && next.answers[k] == Stored(s.pending[t].updated, now)
          else k !in next.answers)
    case FlushSuffix(suffix) => Names.NameInSuffix(k.name, Names.Normalize(suffix)) && k !in next.answers
    case Forget(ks, _) => k in ks && k !in next.answers
    case _ => false
  }

  /**
   Whatever a step of any run changes or removes is accounted for: an insert of that key, a flush
   or eviction by the store that covers it, or a verdict on that key which, when it read the cache,
   found a live entry with exactly the fingerprint it had examined.
   */
  lemma ChangesAreJustified(cfg: CacheConfig, steps: seq<Step>, step: Step, k: Key)
    requires Differs(Run(cfg, steps), Run(cfg, steps + [step]), k)
    ensures Justified(cfg, steps, step, k)
  {
    hide Recording, Selecting, Names.NameInSuffix, Names.Normalize, Live, Run, ReadAt;
    RunSnoc(cfg, steps, step);
    VerdictsAreGrounded(cfg, steps);
    if step.Write? {
      assert step.task in Run(cfg, steps).pending;
      assert Grounded(cfg, steps, Run(cfg, steps).pending[step.task]);
    }
  }

  // ----- interrupted verdicts

  /** The entries a lookup at `now` can still see. */
  ghost function Visible(cfg: CacheConfig, s: State, now: nat): map<Key, Entry> {
    map k | k in s.answers && Live(cfg, s.answers[k], now) :: s.answers[k].entry
  }

  /**
   A promotion that writes at `now` does what the undivided one would do then, exactly when the
   answer it read is still the live one under its key.
   */
  lemma InterruptedPromotion(cfg: CacheConfig, later: State, task: nat, now: nat)
    requires ValidConfig(cfg) && task in later.pending && later.pending[task].Promotion?
    ensures var p := later.pending[task];
            Visible(cfg, Apply(cfg, later, Write(task, now)), now) ==
            Visible(cfg, Apply(cfg, later, Promote(p.key, p.updated.fingerprint, p.updated.dnssec, now)), now)
            <==> p.key in Visible(cfg, later, now) && SameAnswer(Visible(cfg, later, now)[p.key], p.updated)
  {
    RetentionBound(cfg);
    hide Retention;
    var p := later.pending[task];
    var written := Visible(cfg, Apply(cfg, later, Write(task, now)), now);
    var atomic := Visible(cfg, Apply(cfg, later, Promote(p.key, p.updated.fingerprint, p.updated.dnssec, now)), now);
    assert p.key in written && written[p.key] == p.updated;
    forall k | k != p.key
      ensures k in written <==> k in atomic
      ensures k in written ==> written[k] == atomic[k]
    {
    }
    if p.key in Visible(cfg, later, now) && SameAnswer(Visible(cfg, later, now)[p.key], p.updated) {
      assert atomic[p.key] == p.updated;
      assert written == atomic;
    }
    if written == atomic {
      assert p.key in atomic && atomic[p.key] == p.updated;
    }
  }

  /**
   An eviction that writes at `now` does what the undivided one would do then, exactly when no
   live answer with another fingerprint has taken the place of the one it read. Otherwise it
   removes an answer it never examined.
   */
  lemma InterruptedEviction(cfg: CacheConfig, later: State, task: nat, now: nat)
    requires task in later.pending && later.pending[task].Eviction?
    ensures var p := later.pending[task];
            var seen := Visible(cfg, later, now);
            && p.key !in Visible(cfg, Apply(cfg, later, Write(task, now)), now)
            && (Visible(cfg, Apply(cfg, later, Write(task, now)), now) ==
                Visible(cfg, Apply(cfg, later, EvictVariant(p.key, p.fingerprint, now)), now)
                <==> (p.key in seen ==> seen[p.key].fingerprint == p.fingerprint))
  {
    hide Live;
    var p := later.pending[task];
    var written := Visible(cfg, Apply(cfg, later, Write(task, now)), now);
    var atomic := Visible(cfg, Apply(cfg, later, EvictVariant(p.key, p.fingerprint, now)), now);
    assert p.key !in written;
    assert p.key in atomic <==> p.key in Visible(cfg, later, now) && Visible(cfg, later, now)[p.key].fingerprint != p.fingerprint;
    if p.key !in atomic {
      assert written == atomic;
    }
  }

  lemma FourSteps(cfg: CacheConfig, a: Step, b: Step, c: Step, d: Step)
    ensures Run(cfg, [a, b, c, d]) == Apply(cfg, Apply(cfg, Apply(cfg, Apply(cfg, Empty(), a), b), c), d)
  {
    hide Apply;
    assert [a] == [] + [a] && [a, b] == [a] + [b] && [a, b, c] == [a, b] + [c] && [a, b, c, d] == [a, b, c] + [d];
    RunSnoc(cfg, [], a);
    RunSnoc(cfg, [a], b);
    RunSnoc(cfg, [a, b], c);
    RunSnoc(cfg, [a, b, c], d);
  }

  /** An interrupted promotion can put an older answer back over a newer one. */
  lemma PromotionLosesNewer(cfg: CacheConfig, key: Key, older: Entry, newer: Entry, task: nat)
    requires ValidConfig(cfg) && older.dnssec == Indeterminate && newer.dnssec != Bogus && older.receivedAt < newer.receivedAt
    ensures Run(cfg, [Insert(key, older, older.receivedAt), PromoteRead(task, key, older.fingerprint, Secure, older.receivedAt),
                      Insert(key, newer, newer.receivedAt), Write(task, newer.receivedAt)]).answers
            == map[key := Stored(older.(dnssec := Secure), newer.receivedAt)]
  {
    RetentionBound(cfg);
    hide Retention;
    FourSteps(cfg, Insert(key, older, older.receivedAt), PromoteRead(task, key, older.fingerprint, Secure, older.receivedAt),
              Insert(key, newer, newer.receivedAt), Write(task, newer.receivedAt));
  }

  /** An interrupted eviction can remove a newer answer that nobody examined. */
  lemma EvictionLosesNewer(cfg: CacheConfig, key: Key, older: Entry, newer: Entry, task: nat)
    requires ValidConfig(cfg) && older.dnssec != Bogus && newer.dnssec != Bogus && older.fingerprint != newer.fingerprint
    ensures Run(cfg, [Insert(key, older, older.receivedAt), EvictRead(task, key, older.fingerprint, older.receivedAt),
                      Insert(key, newer, newer.receivedAt), Write(task, newer.receivedAt)]).answers == map[]
  {
    RetentionBound(cfg);
    hide Retention;
    FourSteps(cfg, Insert(key, older, older.receivedAt), EvictRead(task, key, older.fingerprint, older.receivedAt),
              Insert(key, newer, newer.receivedAt), Write(task, newer.receivedAt));
  }

  // ----- Bogus data

  /** No promotion in the run is given the Bogus status. */
  predicate Sound(steps: seq<Step>) {
    forall i :: 0 <= i < |steps| && (steps[i].Promote? || steps[i].PromoteRead?) ==> steps[i].status != Bogus
  }

  ghost predicate NoBogus(s: State) {
    && (forall k :: k in s.answers ==> s.answers[k].entry.dnssec != Bogus)
    && (forall t :: t in s.pending && s.pending[t].Promotion? ==> s.pending[t].updated.dnssec != Bogus)
  }

  lemma ApplyNoBogus(cfg: CacheConfig, s: State, step: Step)
    requires NoBogus(s) && ((step.Promote? || step.PromoteRead?) ==> step.status != Bogus)
    ensures NoBogus(Apply(cfg, s, step))
  {
    hide Recording, Selecting, Names.NameInSuffix, Names.Normalize, Live;
  }

  lemma {:induction false} RunNoBogus(cfg: CacheConfig, steps: seq<Step>)
    requires Sound(steps)
    ensures NoBogus(Run(cfg, steps))
  {
    if steps != [] {
      RunNoBogus(cfg, steps[..|steps| - 1]);
      ApplyNoBogus(cfg, Run(cfg, steps[..|steps| - 1]), steps[|steps| - 1]);
    }
  }

  /** No lookup of any sound run, at any time, returns a Bogus entry. */
  lemma BogusIsNeverServed(cfg: CacheConfig, steps: seq<Step>, key: Key, now: nat)
    requires Sound(steps)
    ensures var l := Get(cfg, Run(cfg, steps), key, now);
            l.Miss? || l.entry.dnssec != Bogus
  {
    RunNoBogus(cfg, steps);
  }

  /** The condition is exact: a Bogus promotion spoils a clean cache iff it finds its entry. */
  lemma BogusPromotion(cfg: CacheConfig, s: State, key: Key, fingerprint: Messages.U64, at: nat, now: nat)
    requires NoBogus(s) && at <= now < at + Retention(cfg)
    ensures var next := Apply(cfg, s, Promote(key, fingerprint, Bogus, at));
            var found := Matches(cfg, s, key, fingerprint, at);
            && (NoBogus(next) <==> !found)
            && (found ==>
                  var l := Get(cfg, next, key, now);
                  (if RemainingTtl(s.answers[key].entry, now) > 0 then l.Fresh? && l.entry.dnssec == Bogus else l.Miss?))
  {
    hide Retention;
    var next := Apply(cfg, s, Promote(key, fingerprint, Bogus, at));
    if Matches(cfg, s, key, fingerprint, at) {
      assert next.answers[key].entry.dnssec == Bogus;
      assert AgeSecs(next.answers[key].entry, now) == AgeSecs(s.answers[key].entry, now);
    }
  }

  // ----- promotion and time

  /** While the entry would have been kept anyway, a promotion changes no lookup of any key. */
  lemma PromotionKeepsLookups(
    cfg: CacheConfig, s: State, key: Key, fingerprint: Messages.U64, status: Dnssec, at: nat, k: Key, now: nat)
    requires NoBogus(s) && status != Bogus
    requires key in s.answers ==> s.answers[key].writtenAt <= at && Live(cfg, s.answers[key], now)
    ensures var before, after := Get(cfg, s, k, now), Get(cfg, Apply(cfg, s, Promote(key, fingerprint, status, at)), k, now);
            match before
            case Fresh(e, r) => after.Fresh? && after.remaining == r && SameAnswer(after.entry, e)
            case Stale(e, t) => after.Stale? && after.staleness == t && SameAnswer(after.entry, e)
            case Miss => after.Miss?
  {
    hide Retention, View;
    var next := Apply(cfg, s, Promote(key, fingerprint, status, at));
    if k in s.answers {
      SameView(cfg, next.answers[k].entry, s.answers[k].entry, now);
    }
  }

  /** Entries that differ in a status other than Bogus are looked up alike. */
  lemma SameView(cfg: CacheConfig, a: Entry, b: Entry, now: nat)
    requires SameAnswer(a, b) && a.dnssec != Bogus && b.dnssec != Bogus
    ensures match View(cfg, b, now)
            case Fresh(_, r) => View(cfg, a, now) == Fresh(a, r)
            case Stale(_, t) => View(cfg, a, now) == Stale(a, t)
            case Miss => View(cfg, a, now).Miss?
    ensures View(cfg, b, now).Miss? || View(cfg, b, now).entry == b
  {
    assert AgeSecs(a, now) == AgeSecs(b, now);
  }

  /** A promotion at `at` of a stored entry makes some later lookup fresh that would not have been. */
  ghost predicate Freshens(cfg: CacheConfig, st: Stored, status: Dnssec, at: nat) {
    exists now :: at <= now && Seen(cfg, Stored(st.entry.(dnssec := status), at), now).Fresh? && !Seen(cfg, st, now).Fresh?
  }

  /**
   A promotion writes the entry again and so restarts its retention. It extends freshness exactly
   when the entry would have been dropped before its TTL ran out. A TTL within the cap on positive
   answers never is.
   */
  lemma PromotionFreshness(cfg: CacheConfig, st: Stored, status: Dnssec, at: nat)
    requires st.writtenAt < at && Live(cfg, st, at)
    requires OnTime(cfg, st) && OnTime(cfg, Stored(st.entry.(dnssec := status), at))
    ensures Freshens(cfg, st, status, at) <==>
            st.entry.ttl > 0 && st.writtenAt + Retention(cfg) < st.entry.receivedAt + Expiry(st.entry)
    ensures st.entry.ttl <= cfg.internalMaxTtl && st.entry.receivedAt <= st.writtenAt ==> !Freshens(cfg, st, status, at)
  {
    hide Seen;
    var after, cut := Stored(st.entry.(dnssec := status), at), st.writtenAt + Retention(cfg);
    assert Expiry(after.entry) == Expiry(st.entry) == st.entry.ttl * SECOND;
    if st.entry.ttl > 0 && cut < st.entry.receivedAt + Expiry(st.entry) {
      LookupTimeline(cfg, st, cut);
      LookupTimeline(cfg, after, cut);
      assert Seen(cfg, after, cut).Fresh? && !Seen(cfg, st, cut).Fresh?;
    }
    if Freshens(cfg, st, status, at) {
      var now :| at <= now && Seen(cfg, after, now).Fresh? && !Seen(cfg, st, now).Fresh?;
      LookupTimeline(cfg, st, now);
      LookupTimeline(cfg, after, now);
    }
  }

  /**
   Freshness is extended for real: with stale answers off and a cap of a minute, a negative answer
   with a TTL of an hour, stored on receipt, is dropped after a minute unless it is promoted.
   */
  lemma FreshnessIsExtended(e: Entry, status: Dnssec, at: nat)
    requires e.ttl == 3_600 && e.receivedAt < at < e.receivedAt + 60 * SECOND
    ensures var cfg := CacheConfig(false, 0, 60);
            ValidConfig(cfg) && Freshens(cfg, Stored(e, e.receivedAt), status, at)
  {
    PromotionFreshness(CacheConfig(false, 0, 60), Stored(e, e.receivedAt), status, at);
  }

  // ----- entries stay on time over runs

  /** The last instant at which a valid configuration may write: 2^32 seconds less the longest retention. */
  const HORIZON := (U32 - 2 * WEEK - 1) * SECOND

  /** Nothing is written after the horizon; instants count from the start of the clock. */
  predicate BeforeHorizon(steps: seq<Step>) {
    forall i :: 0 <= i < |steps| && (steps[i].Insert? || steps[i].Promote? || steps[i].Write?) ==> steps[i].now <= HORIZON
  }

  ghost predicate WrittenBy(s: State, instant: nat) {
    forall k :: k in s.answers ==> s.answers[k].writtenAt <= instant
  }

  lemma ApplyWrittenBy(cfg: CacheConfig, s: State, step: Step, instant: nat)
    requires WrittenBy(s, instant) && (step.Insert? || step.Promote? || step.Write? ==> step.now <= instant)
    ensures WrittenBy(Apply(cfg, s, step), instant)
  {
    hide Recording, Selecting, Names.NameInSuffix, Names.Normalize, Live;
  }

  lemma {:induction false} RunWrittenBy(cfg: CacheConfig, steps: seq<Step>)
    requires BeforeHorizon(steps)
    ensures WrittenBy(Run(cfg, steps), HORIZON)
  {
    if steps != [] {
      hide Apply, WrittenBy;
      RunWrittenBy(cfg, steps[..|steps| - 1]);
      ApplyWrittenBy(cfg, Run(cfg, steps[..|steps| - 1]), steps[|steps| - 1], HORIZON);
    } else {
      assert Run(cfg, steps) == Empty();
    }
  }

  /**
   Every entry of every run is on time, so the timeline holds for it at every instant, however
   often it was promoted and however long the calls took: for as long as the clock has not run for
   2^32 seconds less two weeks.
   */
  lemma EntriesAreOnTime(cfg: CacheConfig, steps: seq<Step>, key: Key)
    requires ValidConfig(cfg) && BeforeHorizon(steps) && key in Run(cfg, steps).answers
    ensures OnTime(cfg, Run(cfg, steps).answers[key])
  {
    hide Run, BeforeHorizon;
    RunWrittenBy(cfg, steps);
    RetentionBound(cfg);
  }

  // ----- variants over runs

  /** The call that recorded `v` under `key` is a step of the run. */
  predicate Records(step: Step, key: Key, v: Variant) {
    (step.RecordVariant? || step.RecordRead?) && step.key == key && step.record == v
  }

  ghost predicate WasRecorded(steps: seq<Step>, key: Key, v: Variant) {
    exists i :: 0 <= i < |steps| && Records(steps[i], key, v)
  }

  lemma RecordedLater(steps: seq<Step>, step: Step, key: Key, v: Variant)
    requires WasRecorded(steps, key, v) || Records(step, key, v)
    ensures WasRecorded(steps + [step], key, v)
  {
    var all := steps + [step];
    if WasRecorded(steps, key, v) {
      var i :| 0 <= i < |steps| && Records(steps[i], key, v);
      assert all[i] == steps[i];
    } else {
      assert all[|steps|] == step;
    }
  }

  ghost predicate SetOk(steps: seq<Step>, key: Key, variants: seq<Variant>) {
    Canonical(variants) && forall v :: v in variants ==> WasRecorded(steps, key, v)
  }

  ghost predicate VariantsOk(steps: seq<Step>, s: State) {
    && (forall k :: k in s.variants ==> SetOk(steps, k, s.variants[k].variants))
    && (forall t :: t in s.pending && s.pending[t].SetUpdate? ==> SetOk(steps, s.pending[t].key, s.pending[t].updatedSet.variants))
  }

  lemma SetOkLater(steps: seq<Step>, step: Step, key: Key, variants: seq<Variant>)
    requires SetOk(steps, key, variants)
    ensures SetOk(steps + [step], key, variants)
  {
    forall v | v in variants
      ensures WasRecorded(steps + [step], key, v)
    {
      RecordedLater(steps, step, key, v);
    }
  }

  lemma EmptySetOk(steps: seq<Step>, key: Key)
    ensures SetOk(steps, key, [])
  {
  }

  lemma RecordingOk(steps: seq<Step>, s: State, step: Step)
    requires (step.RecordVariant? || step.RecordRead?) && SetOk(steps, step.key, SetOf(s, step.key).variants)
    ensures SetOk(steps + [step], step.key, Recording(s, step.key, step.record, step.now).variants)
  {
    hide Canonical, Recorded;
    var variants := SetOf(s, step.key).variants;
    RecordedCanonical(variants, step.record, step.now);
    forall v | v in Recorded(variants, step.record, step.now)
      ensures WasRecorded(steps + [step], step.key, v)
    {
      RecordedMembers(variants, step.record, step.now, v);
      RecordedLater(steps, step, step.key, v);
    }
  }

  lemma ApplyVariantsOk(cfg: CacheConfig, steps: seq<Step>, s: State, step: Step)
    requires VariantsOk(steps, s)
    ensures VariantsOk(steps + [step], Apply(cfg, s, step))
  {
    hide Recording, SetOk, Names.NameInSuffix, Names.Normalize, Matches, Promotes;
    forall k | k in s.variants
      ensures SetOk(steps + [step], k, s.variants[k].variants)
    {
      SetOkLater(steps, step, k, s.variants[k].variants);
    }
    forall t | t in s.pending && s.pending[t].SetUpdate?
      ensures SetOk(steps + [step], s.pending[t].key, s.pending[t].updatedSet.variants)
    {
      SetOkLater(steps, step, s.pending[t].key, s.pending[t].updatedSet.variants);
    }
    if step.RecordVariant? || step.RecordRead? {
      EmptySetOk(steps, step.key);
      RecordingOk(steps, s, step);
    }
  }

  /**
   In every reachable state, with every interleaving of reads and writes, each key has at most four
   variants with distinct fingerprints, each of them a record that was recorded under that key,
   whole and unmerged.
   */
  lemma {:induction false} VariantsStayCanonical(cfg: CacheConfig, steps: seq<Step>)
    ensures VariantsOk(steps, Run(cfg, steps))
  {
    if steps != [] {
      var init := steps[..|steps| - 1];
      VariantsStayCanonical(cfg, init);
      ApplyVariantsOk(cfg, init, Run(cfg, init), steps[|steps| - 1]);
      assert steps == init + [steps[|steps| - 1]];
    }
  }

  // ----- flushing a subtree

  /**
   Flushing a suffix, spelled in any case with or without its final dot, removes exactly the keys
   at or below it by labels, from all three caches. Cache keys hold normalised names.
   */
  lemma FlushIsSubtree(cfg: CacheConfig, s: State, key: Key, n: Names.Labels, suffix: Names.Labels, text: string)
    requires Names.WellFormed(n) && Names.WellFormed(suffix)
    requires key.name == Names.Absolute(Names.LowerAll(n))
    requires text == Names.Absolute(suffix) || (suffix != [] && text == Names.Dotted(suffix))
    ensures var next := Apply(cfg, s, FlushSuffix(text));
            var below := Names.LabelSuffix(Names.LowerAll(n), Names.LowerAll(suffix));
            && (key in next.answers <==> key in s.answers && !below)
            && (key in next.variants <==> key in s.variants && !below)
            && (key in next.failures <==> key in s.failures && !below)
  {
    hide Names.Absolute, Names.LowerAll, Names.Dotted, Names.Normalize, Names.NameInSuffix, Names.LabelSuffix, Names.WellFormed;
    Names.NormalizeName(suffix);
    Names.LowerWellFormed(n);
    Names.LowerWellFormed(suffix);
    Names.NameInSuffixMeaning(Names.LowerAll(n), Names.LowerAll(suffix));
  }

  // ----- the cache object

  class DnsCache {
    const config: CacheConfig
    var answers: map<Key, Stored>
    var failures: map<Key, nat>
    var variants: map<Key, VariantSet>
    /** Calls between their read and their write, by task. */
    var pending: map<nat, Pending>

    /** The caches as a state of the model. */
    function Contents(): State
      reads this
    {
      State(answers, variants, failures, pending)
    }

    constructor (cfg: CacheConfig)
      ensures Contents() == Empty() && config == cfg
    {
      config := cfg;
      answers, failures, variants, pending := map[], map[], map[], map[];
    }

    /** What the answer store returns for a key: nothing once the retention has passed. */
    function Fetch(key: Key, now: nat): (r: Option<Entry>)
      reads this
      ensures r.Some? <==> key in answers && now < answers[key].writtenAt + Retention(config)
    {
      if key in answers && Live(config, answers[key], now) then Some(answers[key].entry) else None
    }

    method Lookup(key: Key, now: nat) returns (l: Lookup)
      ensures l == Get(config, Contents(), key, now)
    {
      var found := Fetch(key, now);
      if found.None? {
        return Miss;
      }
      var entry := found.value;
      var remaining := RemainingTtl(entry, now);
      if remaining > 0 {
        return Fresh(entry, remaining);
      }
      if !config.serveStale {
        return Miss;
      }
      var staleness := Staleness(entry, now);
      if staleness > config.maxStale / SECOND {
        return Miss;
      }
      if entry.dnssec == Bogus {
        return Miss;
      }
      return Stale(entry, staleness);
    }

    method Store(key: Key, entry: Entry, now: nat)
      modifies this`answers
      ensures Contents() == Apply(config, old(Contents()), Insert(key, entry, now))
    {
      if entry.dnssec == Bogus {
        return;
      }
      answers := answers[key := Stored(entry, now)];
    }

    /** `promote` up to its write; false when it ends without one. */
    method PromoteBegin(task: nat, key: Key, fingerprint: Messages.U64, status: Dnssec, now: nat) returns (going: bool)
      requires task !in pending
      modifies this`pending
      ensures Contents() == Apply(config, old(Contents()), PromoteRead(task, key, fingerprint, status, now))
      ensures going == Promotes(config, old(Contents()), key, fingerprint, status, now)
    {
      var existing := Fetch(key, now);
      if existing.None? {
        return false;
      }
      if existing.value.fingerprint != fingerprint {
        return false;
      }
      if existing.value.dnssec == status {
        return false;
      }
      pending := pending[task := Promotion(key, existing.value.(dnssec := status), now)];
      return true;
    }

    /** `evict_variant` up to its write; false when it ends without one. */
    method EvictBegin(task: nat, key: Key, fingerprint: Messages.U64, now: nat) returns (going: bool)
      requires task !in pending
      modifies this`pending
      ensures Contents() == Apply(config, old(Contents()), EvictRead(task, key, fingerprint, now))
      ensures going == Matches(config, old(Contents()), key, fingerprint, now)
    {
      var existing := Fetch(key, now);
      if existing.None? {
        return false;
      }
      if existing.value.fingerprint != fingerprint {
        return false;
      }
      pending := pending[task := Eviction(key, fingerprint)];
      return true;
    }

    /** `record_variant` up to its write, and whether the fingerprint is new. */
    method RecordBegin(task: nat, key: Key, record: Variant, now: nat) returns (isNew: bool)
      requires task !in pending
      modifies this`pending
      ensures Contents() == Apply(config, old(Contents()), RecordRead(task, key, record, now))
      ensures isNew == (forall v :: v in SetOf(old(Contents()), key).variants ==> v.fingerprint != record.fingerprint)
    {
      var known := if key in variants then variants[key] else VariantSet([], None, None);
      isNew := true;
      for i := 0 to |known.variants|
        invariant isNew == forall k :: 0 <= k < i ==> known.variants[k].fingerprint != record.fingerprint
      {
        if known.variants[i].fingerprint == record.fingerprint {
          isNew := false;
        }
      }
      var kept := Filter(Keeps(record.fingerprint, now), known.variants) + [record];
      if |kept| > MAX_VARIANTS {
        var sorted := Sort(kept, Older());
        SortPermutes(kept, Older());
        var excess := |sorted| - MAX_VARIANTS;
        kept := sorted[excess..];
      }
      pending := pending[task := SetUpdate(key, known.(variants := kept))];
    }

    /** The write that ends a call. */
    method End(task: nat, now: nat)
      requires task in pending
      modifies this`answers, this`variants, this`pending
      ensures Contents() == Apply(config, old(Contents()), Write(task, now))
    {
      match pending[task] {
        case Promotion(key, updated, _) => answers := answers[key := Stored(updated, now)];
        case Eviction(key, _) => answers := answers - {key};
        case SetUpdate(key, updatedSet) => variants := variants[key := updatedSet];
      }
      pending := pending - {task};
    }

    method Flush(suffix: string)
      modifies this`answers, this`failures, this`variants
      ensures Contents() == Apply(config, old(Contents()), FlushSuffix(suffix))
    {
      var target := Names.Normalize(suffix);
      answers := Without(answers, target);
      failures := Without(failures, target);
      variants := Without(variants, target);
    }
  }
}
