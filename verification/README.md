# EgressDNS: a verified model of its stateful engines

EgressDNS is a caching DNS forwarder. This Dafny project models the parts of it whose
correctness is a matter of whole runs, interleavings or arithmetic, and proves what they keep.

| module | models |
|---|---|
| `Prefixes`, `Bits` | prefix snapshots: sorted, deduplicated mask tables and the mask test |
| `Buckets`, `Sampler`, `SamplerFairness`, `SamplerLimits`, `SamplerPace`, `SamplerChoice` | the stratified address sampler: bucket arithmetic, one round and what it prefers, fairness over runs, where it ends and how fast it comes round |
| `SingleFlights`, `SingleFlightScans` | request coalescing with leaders, followers and cancellation, as a transition system and an object |
| `HotSets`, `HotTransitions` | the popularity tracker: selection in place, batch eviction, transition rows |
| `TcpAccounting` | the accept loop's per-client counters under every interleaving, panics included |
| `Candidates`, `CandidateOrder`, `CloudflareRuns` | the candidate pool, who outranks whom, and the state object that drives it |
| `Variants`, `DnsCaches`, `CacheServes` | lookups over time, late DNSSEC verdicts, answer variants, subtree flushes |
| `Messages` | TTL rewriting and the canonical answer fingerprint |
| `Names`, `Escapes`, `Datasets`, `Zones`, `SpecialUse`, `SpecialNames` | label-suffix matching in four places, escaped text, and the tables searched with it |
| `Seqs`, `Sorting` | shared vocabulary: filters, counts, a stable sort, uniqueness of sorted forms |

How the model is built:

- State that the source updates in place is a class whose methods are proved against functions
  or relations on values; the theorems are about those. Concurrent protocols are transition
  systems with one step per critical section.
- `HashMap` iteration order is nondeterminism: where it decides something (a victim among equals,
  a row to drop) the operation is a relation, and the theorems hold for every choice.
- Hashes (`fnv1a64`, the shard hash, the tie-break), special-use address classification, record
  parsing and the decay factor are arbitrary functions. Clocks are parameters, in nanoseconds
  where the source compares instants. Scores and yields are real numbers.
- Integer widths are written out where they matter: 32-bit addresses, the 32-bit truncation of an
  entry's age, saturating counters, 64-bit hashing.
- A moka cache is a map that may also drop entries on its own at any step; the answer cache in
  addition misses every entry whose retention (`time_to_live`, counted from the last write) has
  passed. A call that reads a cache and writes it later is two steps.

Where the code and its comments disagree the model follows the code, and the lemma named says
exactly when the comment holds:

- `src/cloudflare/candidates.rs:245` says only strictly lower-priority entries are evicted. An
  admission obeys that if and only if the pool has room or holds a strictly lower-priority entry
  (`CommentedRuleHolds`); otherwise a never-probed entry goes (`NeverProbedIsDisplaced`).
- `src/cache/mod.rs:384` says Bogus data is never served. `get` returns a fresh entry before it
  looks at the status, and `promote` writes any status, so this needs promotions never to carry
  Bogus (`BogusIsNeverServed`, exact in `BogusPromotion`).
- `src/cache/mod.rs:489-491` and `src/cache/mod.rs:510-511` say a late verdict leaves a replaced
  entry alone. `promote` and `evict_variant` are a read and a later write; `InterruptedPromotion`
  and `InterruptedEviction` say exactly when the pair acts as one step.
- `src/cache/mod.rs:489` says a promotion only annotates. It writes the entry again and so restarts
  its retention; `PromotionFreshness` says exactly when that extends freshness.
- `src/cache/hotset.rs:222-223` says exact ties call for a second pass. Ties with the threshold are
  dropped by the first pass, so the second never has anything to do (`EvictLocked`).
- `src/dns/specialuse.rs:16-17` says matching is on whole labels only. The loop-marker test is a
  plain string suffix (`MarkerExactness`, `MarkerOvermatches`).
  An escaped dot inside a label also passes for a boundary (`EscapedExactness`).
- `src/cloudflare/state.rs:259-269` revalidates the pool before it stores the new snapshot;
  `AdmissionDuringReplacement` says exactly what an admission in between leaves behind.
- `src/cloudflare/sampler.rs:162-166` prunes the history; with budgets left open, the fairness
  guarantee holds if and only if the buckets fit the history table (`FairIffUnderLimit`). Budgets
  large enough for a pass within the rounds pruning spares restore it (`FairAtPace`).
- `src/dns/server.rs:488-493` skips the decrement when a connection panics; a counter is exact if
  and only if none of its client's connections did (`AccountingExact`).

An entry's age is truncated to 32 bits of seconds (`src/cache/mod.rs:187-189`). The retention makes
that harmless: a valid configuration keeps an answer for at most two weeks after its last write, so
no age wraps before the clock itself has run for nearly 2^32 seconds (`EntriesAreOnTime`).

## Model

| member | source | states |
|---|---|---|
| Prefixes.TableIsSortedSet | src/cloudflare/prefixes.rs:75-105 | sorting and adjacent deduplication give exactly the configured prefixes, each once, ascending |
| Prefixes.MaskIsInterval | src/cloudflare/prefixes.rs:170-186 | masking an address and comparing with the network is interval membership in the CIDR block |
| Prefixes.ContainsIsInterval | src/cloudflare/prefixes.rs:75-186 | membership in a built snapshot is interval membership in the original list, both families; IPv4-mapped addresses are never inside |
| Prefixes.MappedIsInterval | src/cloudflare/prefixes.rs:170-186 | the mapped addresses are the block from ::ffff:0:0 up |
| Buckets.SkipLoop | src/cloudflare/sampler.rs:226-235 | the bounded loop that steps past `.0` and `.255` with wrap-around computes the reference function |
| Buckets.SkipFindsUnreserved | src/cloudflare/sampler.rs:212-241 | four tries suffice: the loop ends on a reserved address iff the bucket is one reserved address or a `.255`/`.0` pair; never with three addresses or more |
| Buckets.AddressInBucket | src/cloudflare/sampler.rs:212-241 | every valid bucket yields an address; the overflow exit is never taken |
| Buckets.AddressInsideBucket | src/cloudflare/sampler.rs:212-246 | a drawn address lies in its bucket's slice, in its prefix and in 32 bits, although the division need not be exact |
| Buckets.LocateInvertsDraw | src/cloudflare/sampler.rs:181-241 | tracing a drawn address returns its bucket iff its own prefix is the first one to contain it |
| Buckets.DisjointRoundTrip | src/cloudflare/sampler.rs:181-241 | with pairwise disjoint prefixes the round trip always holds |
| Buckets.LocateValid | src/cloudflare/sampler.rs:181-200 | a located bucket is one of the enumerated ones and its prefix contains the address |
| Sampler.StratifiedSampler.constructor | src/cloudflare/sampler.rs:61-71 | clamped configuration, empty history, round zero |
| Sampler.StratifiedSampler.Enumerate | src/cloudflare/sampler.rs:98-115 | the nested loops list every bucket of every prefix, and those attempted before |
| Sampler.StratifiedSampler.Explore | src/cloudflare/sampler.rs:128-142 | the explore loop with its per-prefix counters picks by the reference function |
| Sampler.StratifiedSampler.Exploit | src/cloudflare/sampler.rs:143-151 | the exploit loop fills up with buckets not yet chosen |
| Sampler.StratifiedSampler.Propose | src/cloudflare/sampler.rs:153-161 | every chosen bucket gets one attempt and this round's number, and one address is emitted for each |
| Sampler.StratifiedSampler.NextRound | src/cloudflare/sampler.rs:86-168 | a whole round: new history, round and proposals as functions of the old state |
| Sampler.StratifiedSampler.RecordSuccess | src/cloudflare/sampler.rs:171-178 | credits the located bucket and nothing else |
| Sampler.AllBucketsMember | src/cloudflare/sampler.rs:98-115 | the enumeration holds exactly the valid buckets of the listed prefixes |
| Sampler.ChosenFacts | src/cloudflare/sampler.rs:95-151 | a round picks at most `budget` distinct enumerated buckets; exploration stays in its budget and takes at most ceil(budget / prefixes) per prefix |
| Sampler.RoundTrip | src/cloudflare/sampler.rs:86-194 | for disjoint prefixes: at most `budget` distinct 32-bit addresses inside official prefixes, the i-th one located back to the i-th chosen bucket |
| SamplerChoice.ExploitPrefersYield | src/cloudflare/sampler.rs:105-151 | what the exploit phase adds was attempted, and no attempted bucket left out has a better ratio of successes to attempts, or an equal one and a smaller hash |
| SamplerChoice.BudgetIsUsed | src/cloudflare/sampler.rs:143-151 | a round short of its budget has chosen every attempted bucket |
| SamplerChoice.ExploreShares | src/cloudflare/sampler.rs:95-142 | exploration takes at most ceil(budget / prefixes) from a prefix and leaves exploitation its fraction |
| SamplerChoice.VisitIsExact | src/cloudflare/sampler.rs:153-161 | a chosen bucket gains one attempt and the round number, others nothing |
| SamplerChoice.SuccessIsExact | src/cloudflare/sampler.rs:171-178 | a success adds one, saturating, to the located bucket and changes nothing else |
| SamplerChoice.ProposalsAreDrawn | src/cloudflare/sampler.rs:153-161 | the i-th proposal is drawn with the hash of the i-th chosen bucket and this round |
| SamplerChoice.DrawFollowsHash | src/cloudflare/sampler.rs:218-240 | the address is the hashed offset unless that one is reserved |
| SamplerFairness.FirstIsChosen | src/cloudflare/sampler.rs:117-142 | the least recently visited bucket is picked in every round that explores |
| SamplerFairness.RoundAdvances | src/cloudflare/sampler.rs:86-168 | a round that skips a bucket strictly shrinks the set of buckets ahead of it |
| SamplerFairness.SampledWithin | src/cloudflare/sampler.rs:86-178 | a run with more rounds than buckets ahead of one samples it, whatever exploitation and recorded successes do in between |
| SamplerFairness.NoBucketStarves | src/cloudflare/sampler.rs:86-178 | with N buckets and the history under its limit, every bucket is sampled in any N rounds |
| SamplerFairness.ReachableConsistent | src/cloudflare/sampler.rs:86-178 | no visit lies in the future, in every state of every run |
| SamplerFairness.PruningStarves | src/cloudflare/sampler.rs:162-166 | with at least two buckets more than the limit and one address a round, the bucket last in tie-break order is never sampled |
| SamplerLimits.FirstPassExact | src/cloudflare/sampler.rs:86-168 | drawing one address a round from a new sampler, the last bucket in tie-break order is reached iff there is at most one bucket more than the limit |
| SamplerLimits.LongWait | src/cloudflare/sampler.rs:162-166 | with one bucket more than the limit, after the first pruning the last bucket misses a whole window of N rounds |
| SamplerLimits.FairIffUnderLimit | src/cloudflare/sampler.rs:86-178 | for every hash and every exploit fraction below one, every window of N exploring rounds in every run from a new sampler draws from every bucket iff N is at most the limit |
| SamplerLimits.WideSnapshotsStarve | src/cloudflare/sampler.rs:162-200 | 49 prefixes of length at most 20 at 4096 buckets each exceed the limit, and some bucket is never drawn |
| SamplerLimits.FortyNineWide | src/cloudflare/sampler.rs:196-200 | such a snapshot exists |
| SamplerPace.RoundMoves | src/cloudflare/sampler.rs:117-161 | a round that passes over a bucket takes at least min(explore budget, fair share) buckets from ahead of it |
| SamplerPace.PacedIsKept | src/cloudflare/sampler.rs:162-166 | on schedule no entry is old enough to be pruned, whatever the table holds |
| SamplerPace.FairAtPace | src/cloudflare/sampler.rs:86-178 | when every round moves at least g buckets, every window of N / g rounds in every run draws from every bucket, if N is at most the limit or at most 1001 g |
| SamplerPace.FortyNineAtPace | src/cloudflare/sampler.rs:86-168 | a snapshot and a constant budget above the limit that are fair |
| SingleFlights.ShardCount | src/cache/singleflight.rs:95-107 | the shard count is the least power of two at least the requested one |
| SingleFlights.MaskNamesShards | src/cache/singleflight.rs:109-115 | masking a hash always names an existing shard, and every shard is named |
| SingleFlights.SingleFlight.constructor | src/cache/singleflight.rs:95-107 | an empty registry with a power-of-two number of shards satisfies the protocol invariant |
| SingleFlights.SingleFlight.JoinFlight | src/cache/singleflight.rs:118-136 | follows the flight of the key if there is one, else refuses at the ceiling, else leads; with the new registry, keeping the invariant |
| SingleFlights.SingleFlight.Remove | src/cache/singleflight.rs:138-142 | removes one key from its shard |
| SingleFlights.SingleFlight.PublishBegin | src/cache/singleflight.rs:156-198 | complete, fail or drop up to the removal, keeping the invariant; a second publish does nothing |
| SingleFlights.SingleFlight.PublishSend | src/cache/singleflight.rs:175-185 | the separate send step |
| SingleFlights.SingleFlight.ReleaseHandle | src/cache/singleflight.rs:188-198 | a leader's handle goes away only after its value was sent |
| SingleFlights.SingleFlight.WaitOnce | src/cache/singleflight.rs:202-208 | one receive of a follower |
| SingleFlights.SingleFlight.CountInflight | src/cache/singleflight.rs:145-147 | sums the shard sizes |
| SingleFlightScans.ScanIsBracketed | src/cache/singleflight.rs:145-147 | with each shard read in its own state, the sum counts a set of flights that holds all those in flight throughout the reads and none that was never in flight at a read |
| SingleFlightScans.ScansOfRuns | src/cache/singleflight.rs:145-147 | the reads of any run, with any steps in between, are such states |
| SingleFlights.PublishRemovesOwnEntry | src/cache/singleflight.rs:138-185 | removal by key removes the publisher's own entry and no other |
| SingleFlights.NextInv | src/cache/singleflight.rs:118-208 | every step of every participant keeps the protocol invariant |
| SingleFlights.JoinDecides | src/cache/singleflight.rs:118-136 | in every reachable registry a join adds a receiver iff an unpublished flight has the key, changes nothing iff none has and the shard's flights reach the ceiling, and else starts a flight |
| SingleFlights.PublishedIsDelivered | src/cache/singleflight.rs:175-208 | after the leader acted, send and receive give each waiting follower its value, and the handle may go |
| SingleFlights.ReceiveIsOwnFlight | src/cache/singleflight.rs:202-208 | a follower receives the value of its own flight once it was sent; until then the leader exists |
| SingleFlights.NoLostWakeup | src/cache/singleflight.rs:118-208 | in every interleaving and continuation a follower returns exactly one outcome, the one its own flight published, or LeaderGone for a dropped leader |
| SingleFlights.OutcomeIsTheLeaders | src/cache/singleflight.rs:156-208 | a returned outcome is that of the one action of the flight's leader that took effect: the value, the failure, the transient failure, or LeaderGone for a drop |
| SingleFlights.UniqueLeadership | src/cache/singleflight.rs:95-198 | in every reachable state entries and unpublished leaders correspond one to one, a key has at most one leader, shards respect their ceiling, and the in-flight count is the number of unpublished leaders |
| HotSets.Partition | src/cache/hotset.rs:212-216 | an in-place partition: permutation, pivot in place, smaller before and larger after, outside untouched |
| HotSets.SelectNth | src/cache/hotset.rs:212-216 | in-place selection of the n-th rank |
| HotSets.SelectedIsNth | src/cache/hotset.rs:206-216 | the selected element is the n-th rank of the map |
| HotSets.NthRankUnique | src/cache/hotset.rs:206-216 | there is one such rank, so a pass is deterministic |
| HotSets.EvictionCorrect | src/cache/hotset.rs:196-241 | after a pass: within capacity, observed key present, every other survivor strictly above every victim, a whole batch gone |
| HotSets.ColdestGo | src/cache/hotset.rs:196-241 | by scores and times: dropped entries are colder than survivors, at most overflow + capacity/10 + 1 are colder than a dropped one, and distinct ranks lose at most one more |
| HotSets.EvictionExact | src/cache/hotset.rs:196-241 | with distinct ranks a pass drops the batch or one more |
| HotSets.TiesWipeTheSet | src/cache/hotset.rs:218-223 | when all ranks tie, a pass keeps the observed key alone |
| HotSets.HotSet.constructor | src/cache/hotset.rs:44-55 | empty tracker and transition table, capacity at least one |
| HotSets.HotSet.TrimOverflow | src/cache/hotset.rs:222-240 | the clean-up pass changes nothing when within capacity, and otherwise ends exactly at it without the protected key leaving |
| HotSets.HotSet.EvictLocked | src/cache/hotset.rs:196-241 | the whole pass with its array is the eviction relation; the clean-up never has anything to remove |
| HotSets.HotSet.DecayLocked | src/cache/hotset.rs:155-179 | decay of scores and transition weights, and when the decay clock moves |
| HotSets.HotSet.Observe | src/cache/hotset.rs:58-98 | decay, count, evict, note the transition; within all bounds and the observed key present after every call |
| HotSets.ObservationCounts | src/cache/hotset.rs:58-73 | the key's score is its decayed worth and one, its hits go up by one, and other survivors have their decayed worth |
| HotSets.DecayKeepsOrder | src/cache/hotset.rs:168-171 | decay lowers scores, keeps their order and drops exactly the faint |
| HotSets.TransitionsDecay | src/cache/hotset.rs:171-177 | weights fade alike and empty rows go |
| HotSets.PassesAreAmortised | src/cache/hotset.rs:58-241 | between consecutive passes of any run that starts within capacity more than capacity/10 + 1 new keys arrive |
| HotTransitions.Transitions.Note | src/cache/hotset.rs:75-97 | the row and table update, keeping rows within eight, the table within its capacity and no key its own successor |
| HotTransitions.Transitions.Decay | src/cache/hotset.rs:171-177 | weights fade, faint successors and empty rows go |
| HotTransitions.KeepStrongest | src/cache/hotset.rs:82-88 | sort and truncate keep eight entries, none lighter than one left out |
| HotTransitions.NotedOk | src/cache/hotset.rs:75-97 | the table bounds survive every choice of ties and of the dropped row |
| HotTransitions.NewcomerNeedsAWeakRival | src/cache/hotset.rs:79-88 | a full row admits a newcomer only in place of a successor weighing at most one observation, always if one weighs less, and is otherwise unchanged |
| TcpAccounting.NextInv | src/dns/server.rs:437-494 | every action at every point of every other keeps the accounting |
| TcpAccounting.AccountingHolds | src/dns/server.rs:430-495 | in every interleaving a counter is its client's live plus panicked connections, limits hold, and live connections share the counter the next accept reads (section 6.2.2 of RFC 7766) |
| TcpAccounting.AccountingExact | src/dns/server.rs:485-493 | a counter equals its client's live connections iff none of that client's connections panicked |
| TcpAccounting.PanicLeavesCounter | src/dns/server.rs:488-493 | a run of six actions after which a counter stands at one with nothing live |
| TcpAccounting.LockedOutForGood | src/dns/server.rs:477-493 | a client that lost its full number of connections to panics is not served again in any continuation |
| TcpAccounting.RefusedOnlyAtLimit | src/dns/server.rs:451-485 | a looked-up client is refused iff its live and panicked connections reach the limit; the check stays true until the increment; a permit is refused iff all are held |
| Candidates.CandidatePool.constructor | src/cloudflare/candidates.rs:177-187 | empty pool, capacity at least one |
| Candidates.CandidatePool.Scan | src/cloudflare/candidates.rs:272-287 | the victim search over one map finds a worst permitted candidate or shows there is none |
| Candidates.CandidatePool.EvictOne | src/cloudflare/candidates.rs:270-294 | removes a worst permitted candidate of both families iff one exists |
| Candidates.CandidatePool.CheckBudget | src/cloudflare/candidates.rs:230-243 | the hourly window and the exhausted test |
| Candidates.CandidatePool.Admit | src/cloudflare/candidates.rs:194-268 | admission as a relation, every refusal included, keeping the pool valid |
| Candidates.CandidatePool.Record | src/cloudflare/candidates.rs:297-328 | stage and streak of the probed candidate |
| Candidates.CandidatePool.RevalidateAgainst | src/cloudflare/candidates.rs:384-390 | drops what the snapshot does not contain and counts it |
| Candidates.CandidatePool.OnGenerationChange | src/cloudflare/candidates.rs:393-402 | forgets all evidence |
| Candidates.CandidatePool.Eligible | src/cloudflare/candidates.rs:348-355 | the eligible candidates of a family |
| Candidates.AdmissionRespectsEvidence | src/cloudflare/candidates.rs:194-294 | both maps stay within capacity; a rejection changes neither; a displaced candidate is a worst permitted one across both, and a probed one yields only to strictly better priority |
| CandidateOrder.WeakestIsDisplaced | src/cloudflare/candidates.rs:54-294 | on origins: a probed candidate yields only to an outranking origin, and the displaced one is of the lowest rank, then longest unseen, of all replaceable |
| CandidateOrder.AdmissionIsDecided | src/cloudflare/candidates.rs:194-268 | every answer of an admission as a function of address, origin, clock and pool; a positive budget is not exhausted an hour after the window opened, and an outranked candidate always makes room |
| CandidateOrder.AdmissionWrites | src/cloudflare/candidates.rs:221-267 | a refresh keeps the better origin, an addition starts without evidence, and the hour's count follows |
| CandidateOrder.ProbeIsRecorded | src/cloudflare/candidates.rs:297-328 | the stage rises through TCP, TLS and HTTP, the streak grows by one or ends |
| CandidateOrder.GenerationIsMarked | src/cloudflare/candidates.rs:393-402 | everyone gets the new generation and loses probes, stage and streak, nothing else |
| Candidates.FullOnlyWhenAllBetter | src/cloudflare/candidates.rs:230-249 | a newcomer is refused for space iff its budget lets it pass and the pool is full of probed candidates at least as good |
| Candidates.CommentedRuleHolds | src/cloudflare/candidates.rs:245-294 | an admission displaces only strictly lower-priority entries iff the pool has room or holds one; otherwise what it displaces was never probed |
| Candidates.NeverProbedIsDisplaced | src/cloudflare/candidates.rs:245-276 | the failing case is reached: a full pool of one never-probed candidate of any priority gives it up to any newcomer |
| Candidates.RevalidateMembers | src/cloudflare/candidates.rs:384-390 | exactly the contained addresses remain, unchanged |
| CloudflareRuns.CloudflareState.constructor | src/cloudflare/state.rs:139-152 | empty pool of the given capacity, no evidence, and the built-in snapshot |
| CloudflareRuns.CloudflareState.SetPrefixes | src/cloudflare/state.rs:259-269 | revalidate, then install |
| CloudflareRuns.CloudflareState.OnGenerationChange | src/cloudflare/state.rs:398-402 | the pool's generation change, and validations and baselines cleared |
| CloudflareRuns.CloudflareState.AdmitCandidate | src/cloudflare/candidates.rs:194-268 | admission against the installed snapshot is a step of the run |
| CloudflareRuns.PoolAgreesWithPrefixes | src/cloudflare/state.rs:259-269 | in every state of every sequential run pooled addresses are in their family's map, not special-use and inside the last installed snapshot |
| CloudflareRuns.InstalledIsLatest | src/cloudflare/state.rs:259-269 | what is installed is the snapshot of the latest replacement |
| CloudflareRuns.AdmissionDuringReplacement | src/cloudflare/state.rs:259-269 | an admission between revalidation and store keeps the agreement iff the new snapshot contains the address |
| CloudflareRuns.ReplacementRaceIsReached | src/cloudflare/state.rs:259-269 | two snapshots and an admission that reach the disagreement, for any IPv4 address |
| CloudflareRuns.CandidateSummarisesHistory | src/cloudflare/candidates.rs:297-402 | a candidate's stage and streak summarise its probes since admission or generation change |
| CloudflareRuns.EligibilityEqualsHistory | src/cloudflare/candidates.rs:146-148 | eligible at m iff some successful probe since then reached HttpOk and the last m probes all succeeded |
| CloudflareRuns.GenerationChangeForgets | src/cloudflare/candidates.rs:393-402 | after a generation change a candidate is eligible at m only with a later successful HttpOk probe and at least m later successes |
| CloudflareRuns.AdmissionBound | src/cloudflare/candidates.rs:230-267 | with a constant budget B and non-decreasing time, at most B budgeted additions per window and 2B in any half-open hour, unbudgeted admissions interleaved |
| Messages.Message.MapTtls | src/dns/message.rs:193-202 | rewrites the TTL of every record of all three sections in place and nothing else |
| Messages.Message.Rewrite | src/dns/message.rs:205-212 | capping or ageing in place, and the fingerprint does not change |
| Messages.TtlClosedForm | src/dns/message.rs:193-212 | any mix of ageing and capping is max(0, min(ttl - total ageing, tightest aged cap)) |
| Messages.TtlNeverExtended | src/dns/message.rs:205-212 | no mix yields a TTL above the original less the total ageing |
| Messages.AgeingComposes | src/dns/message.rs:210-212 | ageing twice is ageing by the sum |
| Messages.RewrittenRecords | src/dns/message.rs:193-212 | a rewritten section has every record in place with the composed TTL |
| Messages.AnswerFingerprint | src/dns/message.rs:340-363 | the encoding loop, sort and hashing loops compute the reference fingerprint |
| Messages.PartsAreCanonical | src/dns/message.rs:340-351 | the hashed form is equal iff the answers are equal up to order, ASCII case and TTL |
| Messages.FingerprintIgnoresOrder | src/dns/message.rs:340-363 | invariant under every permutation of the answers |
| Messages.FingerprintIgnoresCase | src/dns/message.rs:340-363 | invariant under ASCII case changes of names and rdata |
| Messages.FingerprintIgnoresRewrites | src/dns/message.rs:193-363 | invariant under every sequence of ageing and capping |
| Messages.CanonMeaning | src/dns/message.rs:340-351 | the canonical record forgets ASCII case and TTL and nothing else |
| Messages.OneByteChangesHash | src/dns/message.rs:352-362 | changing one byte of one encoded record changes the hash |
| Messages.RecordEndsShow | src/dns/message.rs:352-362 | two records hash like their joined text iff the end mark maps the running hash to itself |
| Messages.RdataByteShows | src/dns/message.rs:340-363 | a single answer with one rdata byte changed beyond case has another fingerprint |
| Messages.EmptyFingerprint | src/dns/message.rs:352-362 | no answers give the FNV offset basis |
| Messages.BigEndianValue | src/dns/message.rs:346-347 | type and class are encoded high byte first |
| DnsCaches.LookupTimeline | src/cache/mod.rs:185-389 | at every instant a stored entry is Fresh, Stale or Miss exactly by the time since receipt, the TTL, the stale limit and the retention, with exact remaining and staleness (section 5 of RFC 8767) |
| DnsCaches.LifeOfAnAnswer | src/cache/mod.rs:319-389 | under every valid configuration, an answer stored on receipt is Fresh until its TTL, then Stale, then Miss, both cut off by the retention, which never cuts the freshness of a capped TTL |
| CacheServes.InsertIsServed | src/cache/mod.rs:369-398 | after any run an inserted answer replaces what was there and is found by every lookup until its key is touched, Fresh and then Stale for as long as it lasts |
| CacheServes.InsertIsLocal | src/cache/mod.rs:392-398 | an insert changes no lookup of another key, a Bogus one none at all |
| CacheServes.StaleForTheWholeTime | src/cache/mod.rs:322-388 | with a TTL within the cap, an answer is Stale from expiry for all of the configured stale time |
| DnsCaches.LookupNeverImproves | src/cache/mod.rs:369-389 | without writes, between any two instants, the phase never goes back, remaining never grows and staleness never shrinks |
| DnsCaches.RetentionBound | src/config/validate.rs:217-290 | a valid configuration retains nothing longer than two weeks and a second |
| DnsCaches.EntriesAreOnTime | src/cache/mod.rs:369-506 | the timeline applies to every entry of every run under a valid configuration, however often it was promoted, until the clock has run for 2^32 seconds less two weeks |
| DnsCaches.EntriesAreAccounted | src/cache/mod.rs:392-521 | in every run every cached entry is an inserted answer of that key, message, TTL and receipt untouched, its status its own or a verdict on that key and fingerprint |
| DnsCaches.VerdictsAreGrounded | src/cache/mod.rs:492-521 | in every run every verdict that is yet to write found, at its read, a live entry with the fingerprint it examined |
| DnsCaches.ChangesAreJustified | src/cache/mod.rs:392-538 | whatever a step of any run changes or removes was inserted, flushed or dropped by the store, or named by a verdict that had matched its fingerprint when it read, with the resulting entry |
| CacheServes.VerdictTakesEffect | src/cache/mod.rs:492-521 | a verdict that finds its entry sets the status or removes it |
| CacheServes.UninterruptedVerdict | src/cache/mod.rs:492-521 | read and write in a row are the undivided promotion or eviction |
| CacheServes.UninterruptedUpdate | src/cache/mod.rs:433-466 | read and write in a row are the undivided recording or selection |
| DnsCaches.InterruptedPromotion | src/cache/mod.rs:492-506 | get-then-insert acts as one step iff the answer read is still the live one at the write |
| DnsCaches.InterruptedEviction | src/cache/mod.rs:512-521 | get-then-invalidate acts as one step iff no live answer with another fingerprint has taken its place |
| DnsCaches.PromotionLosesNewer | src/cache/mod.rs:492-506 | a run in which an older answer replaces a newer one |
| DnsCaches.EvictionLosesNewer | src/cache/mod.rs:512-521 | a run in which an eviction removes a newer answer that was never examined |
| DnsCaches.BogusIsNeverServed | src/cache/mod.rs:369-506 | if no promotion carries Bogus, no lookup of any run returns a Bogus entry |
| DnsCaches.BogusPromotion | src/cache/mod.rs:492-506 | a Bogus promotion spoils a clean cache iff it finds its entry; the entry is then served while fresh and never stale |
| DnsCaches.PromotionKeepsLookups | src/cache/mod.rs:492-506 | while the entry would have been kept anyway, a promotion changes neither phase, remaining TTL, staleness nor answer of any lookup |
| DnsCaches.PromotionFreshness | src/cache/mod.rs:502-505 | a promotion extends freshness iff the retention would have dropped the entry before its TTL ran out; never for a capped TTL |
| DnsCaches.FreshnessIsExtended | src/dns/resolver.rs:1611-1617 | a valid configuration and a negative answer for which that happens |
| DnsCaches.VariantsStayCanonical | src/cache/mod.rs:433-466 | in every interleaving of reads and writes at most four variants per key, distinct fingerprints, each exactly as recorded under that key |
| Variants.RecordedContents | src/cache/mod.rs:433-451 | all other still-valid variants are kept, the new one added, and on overflow one oldest observation is dropped |
| Variants.RecordedMembers | src/cache/mod.rs:440-442 | whatever is carried over is valid at recording time and has another fingerprint |
| Variants.LateRecordIsDropped | src/cache/mod.rs:443-448 | the new record itself is dropped iff four valid others are all strictly newer |
| CacheServes.RecordIsKept | src/cache/mod.rs:433-451 | in every reachable state a recorded variant is in its key's set unless four valid others are all newer; selection and other keys unchanged |
| CacheServes.VariantValidity | src/cache/mod.rs:289-291 | a variant is valid exactly while its TTL lasts |
| CacheServes.SelectionIsSet | src/cache/mod.rs:454-465 | the selection, and since when it changed |
| DnsCaches.FlushIsSubtree | src/cache/mod.rs:524-538 | a flush removes exactly the keys at or below the suffix by labels, from all three caches |
| DnsCaches.DnsCache.constructor | src/cache/mod.rs:319-361 | three empty caches with the configured retention |
| DnsCaches.DnsCache.Lookup | src/cache/mod.rs:369-389 | the early returns compute the reference lookup |
| DnsCaches.DnsCache.Store | src/cache/mod.rs:392-398 | inserts unless Bogus |
| DnsCaches.DnsCache.PromoteBegin | src/cache/mod.rs:492-503 | the reading half of a promotion, and whether a write follows |
| DnsCaches.DnsCache.EvictBegin | src/cache/mod.rs:512-518 | the reading half of an eviction, and whether a write follows |
| DnsCaches.DnsCache.RecordBegin | src/cache/mod.rs:433-448 | the reading half of recording a variant, and whether the fingerprint is new |
| DnsCaches.DnsCache.End | src/cache/mod.rs:449-519 | the write that ends a promotion, an eviction or a recording |
| DnsCaches.DnsCache.Flush | src/cache/mod.rs:524-538 | the flush step on all three caches |
| Names.NameInSuffixMeaning | src/cache/mod.rs:579-590 | the cache's byte test is label suffix for every suffix; the root covers every name |
| Names.SuffixMatchesMeaning | src/dns/specialuse.rs:157-169 | the special-use byte test is label suffix, except that the root covers itself alone |
| Names.DottedMatchesMeaning | src/datasets/mod.rs:104-106 | the test of rules and zones is label suffix, except that the root covers itself alone |
| Escapes.EscapedTests | src/dns/specialuse.rs:157-169 | on escaped text with arbitrary labels the special-use and cache tests accept a plain suffix iff its later labels agree and the label at its first is it or ends in a dot and it |
| Escapes.EscapedExactness | src/dns/specialuse.rs:157-169 | the test means label suffix iff the dot before the suffix is not an escaped one |
| Escapes.DotTakenForBoundary | src/dns/specialuse.rs:157-169 | a single label ending in a dot and `local` is taken for a name below `local` |
| Names.NormalizeName | src/cache/mod.rs:143-149 | both spellings of a name in any case have one key |
| Names.LowerMeaning | src/cache/mod.rs:143-149 | lower-casing identifies exactly texts that differ in ASCII case |
| Names.CoversMeaning | src/datasets/mod.rs:104-106 | covering is agreement of the last labels, case aside |
| Names.FirstIsMostSpecific | src/datasets/mod.rs:249-250 | on a table sorted longest first the first hit is the first configured of the longest hits, and exists iff there is a hit |
| Datasets.BuildRules | src/datasets/mod.rs:235-250 | the stored table is the cleaned rules sorted by the stable order |
| Datasets.GroupFor | src/datasets/mod.rs:103-111 | the scan returns the group of the first rule that covers the name |
| Datasets.RoutingIsMostSpecific | src/datasets/mod.rs:103-250 | no group iff no rule covers the name; otherwise the covering rule with most labels, first configured among equals, in any spelling |
| Zones.BuildRecords | src/datasets/zones.rs:74-91 | the record map holds, per owner, its parsed records in configured order; it fails iff one does not parse |
| Zones.Build | src/datasets/zones.rs:67-101 | fails iff an apex is empty or a record does not parse; otherwise the zones, longest apex first |
| Zones.Lookup | src/datasets/zones.rs:122-153 | the scan with its early returns computes the reference answer |
| Zones.MostSpecificZoneAnswers | src/datasets/zones.rs:98-153 | exactly one zone answers: the enclosing one with most labels, first configured among equals, with the records, NoData, NXDOMAIN or NotInZone its configuration promises |
| Zones.AnswerMeaning | src/datasets/zones.rs:129-149 | exactly the owner's records of the type or CNAME; NoData, NXDOMAIN and NotInZone iff none match, none exist and the zone is or is not authoritative |
| Zones.OwnedMembers | src/datasets/zones.rs:74-91 | an owner's records are what parsing makes of the configured ones with their own or the default TTL |
| Zones.OwnerLabels | src/datasets/zones.rs:75-81 | `@` is the apex, relative owners are completed with it, absolute ones stand alone |
| SpecialUse.ClassifyMeansLabels | src/dns/specialuse.rs:132-169 | for every well-formed name in any case and spelling the byte-level classification is the label-level one |
| SpecialNames.SpecialNamesExactly | src/dns/specialuse.rs:93-154 | the class of every well-formed name spelled out: localhost, marker, invalid, local, home.arpa, onion, each private reverse zone, and none outside them |
| SpecialUse.MarkerSpelled | src/config/auto.rs:180 | the marker text |
| SpecialUse.TableIsValid | src/dns/specialuse.rs:93-125 | every table suffix is well-formed and not the root |
| SpecialUse.MarkerMeaning | src/config/auto.rs:192-196 | the loop-marker text test in labels |
| SpecialUse.MarkerExactness | src/config/auto.rs:180-196 | it accepts every name under the marker suffix, and is exact unless the name is in the marker zone and its third label from the end ends in the marker label without being it |
| SpecialUse.MarkerOvermatches | src/dns/specialuse.rs:143-147 | every such name is answered as a marker |

## Left out

- Sockets, task scheduling, TLS, admin interfaces, metrics, logging, services and command-line tools.
- Wire encoding and parsing, moka's size bounds and eviction policy, GeoIP, URL handling: foreign code.
- Scheduler, health, resolver, ranking, policy, storage and configuration checks: not part of this model.
- Failure entries of the cache beyond being flushed, `flush_name`, `flush_all` and statistics: easy members.
- Recording and reading domain validations and baselines, and mode overrides: easy members.
- `HotSet::top`, `successors`, `mark_prefetch` and `clear`: easy members.
- Floating-point rounding in scores, yields, decay and the exploit budget: real arithmetic, only the order matters.
- Overflow of 64-bit counters (rounds, hits, attempts): they are unbounded here.
- Escaped dots inside a label in routing rules, zones and the loop marker, which trim text before they compare: names are lists of dot-free labels there.
- `serve_tcp` is a transition system on values; its atomics are sequentially consistent.
- Expiry of variant sets and failure entries is among the drops a store may make at any step.
- SingleFlights.SingleFlight.CountInflight: sums the shards of one state; reads at different moments are in SingleFlightScans.
- SamplerPace.FairAtPace: sufficient above the limit, not necessary, for budgets larger than one.
- SingleFlights.NoLostWakeup: says what the next receive returns, not that a scheduler runs it.
