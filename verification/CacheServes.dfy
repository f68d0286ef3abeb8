/** What the answer cache promises to those who use it: what is stored is served, and calls that are not interrupted take full effect. */
module CacheServes {
  import opened Seqs
  import opened Variants
  import opened DnsCaches
  import Names
  import Messages

  /** A step that leaves the answer under `k` alone in state `s`. */
  predicate Spares(s: State, step: Step, k: Key) {
    match step
    case Insert(key, _, _) => key != k
    case Promote(key, _, _, _) => key != k
    case EvictVariant(key, _, _) => key != k
    case Write(t, _) => t in s.pending ==> s.pending[t].key != k
    case FlushSuffix(suffix) => !Names.NameInSuffix(k.name, Names.Normalize(suffix))
    case Forget(ks, _) => k !in ks
    case _ => true
  }

  /** No step of `more`, taken after `steps`, touches the answer under `k`. */
  ghost predicate Undisturbed(cfg: CacheConfig, steps: seq<Step>, more: seq<Step>, k: Key) {
    forall i :: 0 <= i < |more| ==> Spares(Run(cfg, steps + more[..i]), more[i], k)
  }

  lemma SparedIsKept(cfg: CacheConfig, s: State, step: Step, k: Key)
    requires Spares(s, step, k)
    ensures (k in Apply(cfg, s, step).answers <==> k in s.answers) && (k in s.answers ==> Apply(cfg, s, step).answers[k] == s.answers[k])
  {
    hide Recording, Selecting, Names.NameInSuffix, Names.Normalize, Live;
  }

  lemma {:induction false} UndisturbedIsKept(cfg: CacheConfig, steps: seq<Step>, more: seq<Step>, k: Key)
    requires k in Run(cfg, steps).answers && Undisturbed(cfg, steps, more, k)
    ensures k in Run(cfg, steps + more).answers && Run(cfg, steps + more).answers[k] == Run(cfg, steps).answers[k]
    decreases |more|
  {
    hide Run, Apply, Spares, Undisturbed;
    if more == [] {
      assert steps + more == steps;
    } else {
      var n := |more| - 1;
      var init := more[..n];
      UndisturbedSoFar(cfg, steps, more, k);
      UndisturbedIsKept(cfg, steps, init, k);
      Regrouped(steps, more);
      RunSnoc(cfg, steps + init, more[n]);
      SparedIsKept(cfg, Run(cfg, steps + init), more[n], k);
    }
  }

  lemma Regrouped(steps: seq<Step>, more: seq<Step>)
    requires more != []
    ensures steps + more == (steps + more[..|more| - 1]) + [more[|more| - 1]]
  {
  }

  lemma UndisturbedSoFar(cfg: CacheConfig, steps: seq<Step>, more: seq<Step>, k: Key)
    requires Undisturbed(cfg, steps, more, k) && more != []
    ensures var n := |more| - 1;
            Undisturbed(cfg, steps, more[..n], k) && Spares(Run(cfg, steps + more[..n]), more[n], k)
  {
    hide Run, Spares;
    var n := |more| - 1;
    forall i | 0 <= i < n
      ensures Spares(Run(cfg, steps + more[..n][..i]), more[..n][i], k)
    {
      assert more[..n][..i] == more[..i] && more[..n][i] == more[i];
    }
  }

  /**
   What is stored is served. After any run at all, an answer that is not Bogus is inserted on
   receipt and replaces whatever was there; whatever else then happens to other keys, every lookup
   of its key finds it, fresh for as long as its TTL and the retention last.
   */
  lemma InsertIsServed(cfg: CacheConfig, steps: seq<Step>, k: Key, e: Entry, more: seq<Step>, now: nat)
    requires ValidConfig(cfg) && e.dnssec != Bogus
    requires var stored := steps + [Insert(k, e, e.receivedAt)]; Undisturbed(cfg, stored, more, k)
    ensures var l := Get(cfg, Run(cfg, steps + [Insert(k, e, e.receivedAt)] + more), k, now);
            var t := Elapsed(e.receivedAt, now);
            && (t < Expiry(e) && t < Retention(cfg) ==> l == Fresh(e, e.ttl - t / SECOND))
            && (cfg.serveStale && Expiry(e) <= t < Limit(cfg, e) && t < Retention(cfg) ==> l == Stale(e, t / SECOND - e.ttl))
  {
    var stored := steps + [Insert(k, e, e.receivedAt)];
    RunSnoc(cfg, steps, Insert(k, e, e.receivedAt));
    assert Run(cfg, stored).answers[k] == Stored(e, e.receivedAt);
    hide Run, Undisturbed;
    UndisturbedIsKept(cfg, stored, more, k);
    RetentionBound(cfg);
    LookupTimeline(cfg, Stored(e, e.receivedAt), now);
    hide Seen, Limit, Expiry;
  }

  /** An insert changes no lookup of another key, and a Bogus one changes nothing. */
  lemma InsertIsLocal(cfg: CacheConfig, s: State, k: Key, e: Entry, at: nat, other: Key, now: nat)
    requires other != k || e.dnssec == Bogus
    ensures Get(cfg, Apply(cfg, s, Insert(k, e, at)), other, now) == Get(cfg, s, other, now)
  {
  }

  /**
   With stale answers on, an answer within the TTL cap that was stored on receipt and is not Bogus
   is served stale for the whole of the configured time after it expired.
   */
  lemma StaleForTheWholeTime(cfg: CacheConfig, e: Entry, now: nat)
    requires ValidConfig(cfg) && cfg.serveStale && e.ttl <= cfg.internalMaxTtl && e.dnssec != Bogus
    requires e.ttl * SECOND <= Elapsed(e.receivedAt, now) < e.ttl * SECOND + cfg.maxStale
    ensures Seen(cfg, Stored(e, e.receivedAt), now) == Stale(e, Elapsed(e.receivedAt, now) / SECOND - e.ttl)
  {
    var st := Stored(e, e.receivedAt);
    RetentionBound(cfg);
    LookupTimeline(cfg, st, now);
    hide Seen;
    assert cfg.maxStale < (cfg.maxStale / SECOND + 1) * SECOND;
    assert Limit(cfg, e) == e.ttl * SECOND + (cfg.maxStale / SECOND + 1) * SECOND;
  }

  // ----- calls that are not interrupted

  /** A call that has begun and is the next to write leaves no trace but its write. */
  lemma BegunAndFinished(s: State, t: nat, p: Pending, now: nat)
    requires t !in s.pending
    ensures t in Begin(s, t, p).pending
    ensures Finish(Begin(s, t, p), t, now) ==
            match p
            case Promotion(k, e, _) => s.(answers := s.answers[k := Stored(e, now)])
            case Eviction(k, _) => s.(answers := s.answers - {k})
            case SetUpdate(k, u) => s.(variants := s.variants[k := u])
  {
    assert s.pending[t := p] - {t} == s.pending;
  }

  /** Read and write in a row are the undivided verdict. */
  lemma UninterruptedVerdict(cfg: CacheConfig, s: State, t: nat, k: Key, fp: Messages.U64, st: Dnssec, now: nat)
    requires t !in s.pending
    ensures Apply(cfg, Apply(cfg, s, PromoteRead(t, k, fp, st, now)), Write(t, now)) == Apply(cfg, s, Promote(k, fp, st, now))
    ensures Apply(cfg, Apply(cfg, s, EvictRead(t, k, fp, now)), Write(t, now)) == Apply(cfg, s, EvictVariant(k, fp, now))
  {
    hide Live, Begin, Finish;
    BegunAndFinished(s, t, Eviction(k, fp), now);
    if Promotes(cfg, s, k, fp, st, now) {
      BegunAndFinished(s, t, Promotion(k, s.answers[k].entry.(dnssec := st), now), now);
    }
  }

  /** Read and write in a row are the undivided update of a variant set. */
  lemma UninterruptedUpdate(cfg: CacheConfig, s: State, t: nat, k: Key, fp: Messages.U64, r: Variant, now: nat)
    requires t !in s.pending
    ensures Apply(cfg, Apply(cfg, s, RecordRead(t, k, r, now)), Write(t, now)) == Apply(cfg, s, RecordVariant(k, r, now))
    ensures Apply(cfg, Apply(cfg, s, SelectRead(t, k, fp, now)), Write(t, now)) == Apply(cfg, s, SelectVariant(k, fp, now))
  {
    hide Recording, Selecting, Begin, Finish;
    BegunAndFinished(s, t, SetUpdate(k, Recording(s, k, r, now)), now);
    BegunAndFinished(s, t, SetUpdate(k, Selecting(s, k, fp, now)), now);
  }

  /** A verdict that finds its entry takes effect: the status is set, or the entry is gone. */
  lemma VerdictTakesEffect(cfg: CacheConfig, s: State, k: Key, fp: Messages.U64, st: Dnssec, now: nat)
    requires k in s.answers && now < s.answers[k].writtenAt + Retention(cfg) && s.answers[k].entry.fingerprint == fp
    ensures var promoted := Apply(cfg, s, Promote(k, fp, st, now)).answers;
            k in promoted && promoted[k].entry == s.answers[k].entry.(dnssec := st)
    ensures k !in Apply(cfg, s, EvictVariant(k, fp, now)).answers
  {
    hide Retention;
  }

  /** A variant counts as long as its TTL lasts from when it was seen. */
  lemma VariantValidity(v: Variant, now: nat)
    ensures IsValid(v, now) <==> v.ttl > 0 && now < v.observedAt + v.ttl * SECOND
  {
    SecondsBelow(Elapsed(v.observedAt, now), v.ttl);
  }

  /**
   A recorded variant can be read back: in every reachable state, recording one makes it part of
   its key's set unless four other variants, all still valid and all seen later, already fill it.
   Selections and other keys are left alone.
   */
  lemma RecordIsKept(cfg: CacheConfig, steps: seq<Step>, k: Key, r: Variant, now: nat)
    ensures var before, after := Run(cfg, steps), Run(cfg, steps + [RecordVariant(k, r, now)]);
            var others := Filter(Keeps(r.fingerprint, now), SetOf(before, k).variants);
            && k in after.variants && after.variants[k].selected == SetOf(before, k).selected
            && (r in after.variants[k].variants <==> |others| < 4 || exists v :: v in others && v.observedAt <= r.observedAt)
            && forall o :: o in before.variants && o != k ==> o in after.variants && after.variants[o] == before.variants[o]
  {
    var s := Run(cfg, steps);
    VariantsStayCanonical(cfg, steps);
    RunSnoc(cfg, steps, RecordVariant(k, r, now));
    var variants := SetOf(s, k).variants;
    assert Canonical(variants) by {
      if k in s.variants {
        assert SetOk(steps, k, s.variants[k].variants);
      }
    }
    LateRecordIsDropped(variants, r, now);
    hide Run, VariantsOk, Recorded;
  }

  /** A selection is what was selected, since when it changed, with the variants unchanged. */
  lemma SelectionIsSet(cfg: CacheConfig, s: State, k: Key, fp: Messages.U64, now: nat)
    requires k in s.variants
    ensures var v := Apply(cfg, s, SelectVariant(k, fp, now)).variants;
            && k in v && v[k].selected == Some(fp) && v[k].variants == s.variants[k].variants
            && v[k].selectedAt == if s.variants[k].selected == Some(fp) then s.variants[k].selectedAt else Some(now)
  {
  }
}
