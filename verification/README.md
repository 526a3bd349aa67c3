# ThinkPixelAG verification

A Dafny model of the protocols and algebras behind ThinkPixelAG, an agent-governance control plane, with
proofs of what they promise over every run, every interleaving or every input. `dafny verify dfyconfig.toml`
checks the whole project.

Each SQL statement or transaction is one atomic step on a state record; where the code issues several
statements outside a transaction, the model lets other sessions act in between. Hashes are injective
constructors, generated identifiers and tokens are never drawn twice, and clocks are parameters.
Machine integers are written out where they can overflow or wrap.

| module | models |
|---|---|
| EvidenceProtocol, EvidenceStore | any number of exporters claiming, delivering, completing and releasing against one checkpoint row per sink |
| Constraints, VersionResolution | the recursive meet behind constraint resolution, approved authority, and the candidate loop that uses both |
| Lexicographic, Normalize | string order, and the canonical role and method lists an input digest covers |
| DecisionCache, CacheGenerations | the cached evaluator: transparency of hits, lifetimes, and racing invalidations |
| Freshness, FreshnessEnforcement | the revocation freshness tracker and the arithmetic that feeds cache lifetimes |
| Idempotency | lease-based ownership and replay of responses |
| GovernanceApproval, PolicyAdministration | four-eyes approvals in three append-only tables, policy activation history, and the optimistic double read |
| ExtensionLedger, RunLifecycle | resource extensions of live runs, and the lifecycle they may resume |
| RunEvents, RevocationDistribution, AgentDiscovery | streams and pages that must neither lose nor repeat anything |
| Decimal, Encodings | the decimal text form, and byte strings that are hashed or signed |

Some promises do not hold as stated, and are replaced by the exact condition:

- The narrowing test is documented to fail closed on unknown shapes. It accepts a tested boolean or null against the string that spells it (`Constraints.UnknownShapeNarrowsIff`), and list entries of any shape against entries that print alike (`Constraints.UnknownEntriesNarrowIff`).
- Equivalent role lists are documented to hash equally. A list of blanks and an empty list do not (`Normalize.SlicesAlikeIff`).
- Rounding an age up overflows for a freshness bound of 9223372036 seconds (`FreshnessEnforcement.RoundedAgeIffNoOverflow`).
- Cache generations repeat after 2^64 invalidations, and then a stale entry is served (`CacheGenerations.WrappedGenerationServesStale`); exactly which entries a call can be served is `CacheGenerations.ServedIffGenerationsAgree`.
- A trim between the two statements of an event read leaves an unreported hole (`RunEvents.TrimLeavesHole`); reading is gap-free exactly without one (`RunEvents.FollowIsGapFreeIff`).
- Retention by commit time loses entries unless commit times follow the sequence (`RevocationDistribution.LosslessIffCommitOrdered`).
- An extension of an unpaused run can set the run's clock back (`ExtensionLedger.ExtensionKeepsLifecycle`).

## Model

| member | source | states |
|---|---|---|
| EvidenceProtocol.ReceiptsFormOneChain | internal/adapters/postgres/evidence_export.go:96-185 | after any interleaving of claims, deliveries, completions, releases, lease expiries and crashes, with arbitrary hint lists: a sink's receipts are sequences 1..last_sequence, of distinct events, each hashing its predecessor, and the checkpoint row carries the last sequence and hash |
| EvidenceProtocol.DeliveriesAreReplayIdentical | internal/adapters/postgres/evidence_export.go:105-141 | all deliveries ever handed out for one sink are equal exactly when their sequences are equal, and exactly when their events are equal |
| EvidenceProtocol.SinkAcceptsPrefix | internal/evidence/export.go:70-97 | a sink that deduplicates by event ID holds exactly deliveries 1..k in order, matching the receipts, with k the number of receipts or one more |
| EvidenceProtocol.HistoryIsStable | internal/adapters/postgres/evidence_export.go:143-168 | receipts, accepted deliveries, handed-out claims and drawn tokens are only ever extended |
| EvidenceProtocol.LostTokenStaysLost | internal/adapters/postgres/evidence_export.go:96-141 | a token that does not hold the checkpoint row never holds it again, whatever runs after |
| EvidenceProtocol.StaleOwnerIsFenced | internal/adapters/postgres/evidence_export.go:143-185 | a stale owner's completion and release change nothing, however much later they arrive |
| EvidenceProtocol.AtMostOneOwner | internal/adapters/postgres/evidence_export.go:105-125 | in every reachable state at most one of all the claims ever handed out can still be settled |
| EvidenceProtocol.LeasesAreExclusive | internal/adapters/postgres/evidence_export.go:105-125 | a claim commits only over a lease that had run out when its statement read the row |
| EvidenceProtocol.ClaimsAreALeaseApart | internal/adapters/postgres/evidence_export.go:105-125 | a claim committed from a read at t with lease L, in any reachable state: until the sink's claim is completed or released, whatever else runs, any later statement that can commit a claim read the row at t + L or after |
| EvidenceProtocol.ReadTimesAreGiven | internal/adapters/postgres/evidence_export.go:105-125 | the read time of an in-flight statement is the time its own candidate query was given |
| EvidenceProtocol.LeaseRunsOut | internal/adapters/postgres/evidence_export.go:105-125 | in any reachable state a claimed event is offered again exactly from its read time plus the lease on, whatever the hints are |
| EvidenceProtocol.OwnerCompletesIff | internal/adapters/postgres/evidence_export.go:143-168 | in any reachable state a handed-out claim can be completed exactly by the row's owner with the sink's own receipt for that delivery, accepted no earlier than the event occurred unless already published; sequence and duplicates never stand in the way |
| EvidenceProtocol.ReleasedIsRetained | internal/adapters/postgres/evidence_export.go:170-185 | after a release the caller owns nothing and the same event is what every candidate read finds, at any time and for any hints |
| EvidenceStore.ExportCanProceed | internal/evidence/export.go:70-97 | the protocol cannot get stuck: from every reachable state a pending event that no other one is claimed ahead of can still be exported and becomes the next receipt |
| EvidenceStore.PublishedIsExportable | internal/evidence/export.go:70-97 | every newly published event can be exported next by a sink that has nothing claimed |
| EvidenceProtocol.ReceiptBindsDelivery | internal/evidence/export.go:118-134 | one valid receipt fits at most one delivery, its predecessor included |
| EvidenceProtocol.StepKeepsInv | internal/adapters/postgres/evidence_export.go:35-185 | every protocol step keeps the per-sink invariant from which the run theorems follow |
| EvidenceProtocol.RunKeepsInv | internal/adapters/postgres/evidence_export.go:35-185 | the invariant holds along every run from a state that has it |
| EvidenceStore.HintsAreAdvisory | internal/adapters/postgres/evidence_export.go:70-141 | no hint list finds a claim that is not available, and a fresh page of hints finds one whenever one is |
| EvidenceStore.ReadThenCommit | internal/adapters/postgres/evidence_export.go:105-125 | without interference the compare-and-set finds the candidate its read saw |
| EvidenceStore.CommitGrantsOwnership | internal/adapters/postgres/evidence_export.go:105-141 | a committed claim is recorded as handed out, owns the row under its own token until its read time plus the lease, and is for the candidate event |
| EvidenceStore.DeliveredIsAccepted | internal/evidence/export.go:73-97 | after a delivery arrives, first or repeated, the sink holds exactly that delivery |
| EvidenceStore.OldestPending | internal/adapters/postgres/evidence_export.go:70-94 | the refill returns the oldest events without a receipt, in order, at most one page, and misses one only when the page is full of older ones |
| EvidenceStore.EvidenceDeliveryStore.RefillPending | internal/adapters/postgres/evidence_export.go:70-94 | creates the row and replaces the hints by a page of the database it then sees |
| EvidenceStore.EvidenceDeliveryStore.ClaimCandidate | internal/adapters/postgres/evidence_export.go:96-141 | a returned claim owns the row under a fresh token until now + lease; without interference it is found exactly when the candidate query has a row |
| EvidenceStore.EvidenceDeliveryStore.Claim | internal/adapters/postgres/evidence_export.go:35-68 | under any interference a returned claim owns the row until now + lease and is no longer among the hints; without it, a claim is returned exactly when one is available |
| EvidenceStore.ClaimDuringLease | internal/adapters/postgres/evidence_export.go:35-68 | once one exporter holds a claim taken at t, another exporter's claim before t + lease comes back empty |
| EvidenceStore.EvidenceDeliveryStore.Complete | internal/adapters/postgres/evidence_export.go:143-168 | succeeds only for the owner with a matching receipt; then the row, the receipt and the cleared claim are exactly those of the delivery |
| EvidenceStore.EvidenceDeliveryStore.Release | internal/adapters/postgres/evidence_export.go:172-185 | keeps the pending event but ends the caller's ownership and frees the lease |
| EvidenceStore.EvidenceDeliveryStore.ExportOne | internal/evidence/export.go:73-97 | without interference reports progress exactly when a claim is available, and under any interference progress without failure only when the sink's answer is the last receipt and the claim is settled; finding nothing to export is not a failure |
| Constraints.ResolveIsMeet | internal/policy/constraints.go:8-42 | a resolved value has the authority's keys and shapes at every level, lies below authority, request and policy, and is the widest value that does |
| Constraints.ResolveSucceedsIff | internal/policy/constraints.go:33-42 | resolution succeeds exactly on a usable authority that covers request and policy in shape, when the policy narrows the intersection of authority and request |
| Constraints.ResolveIdempotent | internal/policy/constraints.go:33-42 | resolving an already resolved value returns it unchanged |
| Constraints.ResolveNarrowsAuthority | internal/policy/contract.go:177-212 | a resolved value passes the separate narrowing test against its authority |
| Constraints.MeetIsLowerBound | internal/policy/constraints.go:44-90 | an intersection permits no more than either side |
| Constraints.MeetIsGreatest | internal/policy/constraints.go:44-90 | anything below both sides is below their intersection |
| Constraints.MeetSucceeds | internal/policy/constraints.go:44-90 | an intersection exists exactly when the ceiling is usable and has every dimension the restriction mentions, in the same shape |
| Constraints.MeetKeepsShape | internal/policy/constraints.go:8-29 | an intersection keeps the ceiling's keys and kinds at every level |
| Constraints.MeetAbsorbs | internal/policy/constraints.go:44-90 | intersecting the result again with either restriction changes nothing |
| Constraints.MeetNarrows | internal/policy/constraints.go:8-29 | the result of an intersection passes the narrowing test against the ceiling |
| Constraints.NarrowReflexive | internal/policy/contract.go:177-224 | every decoded JSON value narrows itself |
| Constraints.NarrowTransitive | internal/policy/contract.go:177-224 | narrowing composes on decoded JSON values |
| Constraints.NarrowIsTighter | internal/policy/contract.go:177-212 | on usable values with equal keys the narrowing test is the order the intersection computes meets of |
| Constraints.UnknownShapeNarrowsIff | internal/policy/contract.go:175-212 | a boolean or null being tested does not fail closed as the comment says: it passes exactly against itself and against the string that spells it |
| Constraints.UnknownEntriesNarrowIff | internal/policy/contract.go:175-224 | nor do list entries other than strings: a list passes exactly when each entry, by its shape, is accepted by some entry of the limit: booleans and null by themselves or their spelling, numbers by spelling, lists and objects by their flattened text |
| Constraints.UnknownEntriesPass | internal/policy/contract.go:213-224 | a list holding true passes against one holding the string for it, and a nested list against one that flattens alike |
| Constraints.IntersectConstraints | internal/policy/constraints.go:8-29 | whatever order the maps are iterated in, the loops return the recursive meet, or an error exactly when it does not exist |
| Constraints.IntersectConstraint | internal/policy/constraints.go:44-90 | one dimension's loops return the meet of its two values or an error exactly when there is none |
| Constraints.ApprovedIsStrictest | internal/application/version_resolution.go:124-148 | the approved authority exists exactly for usable, compatible sources; it has the union of their keys, the smaller maximum where both have one, and exceeds neither source |
| Constraints.ApprovedAuthority | internal/application/version_resolution.go:124-148 | the combining loops return that authority in any iteration order |
| VersionResolution.Resolve | internal/application/version_resolution.go:38-120 | a version is resolved exactly when a candidate policy allows is reached, every earlier one being offered and denied, and it is that one; a pinned one was selected and invoked under the same policy version; not found, none permitted, crossed boundary, ineligible and forbidden each have their exact condition |
| VersionResolution.ResolvedIsEligible | internal/application/version_resolution.go:63-85 | a resolved version is an approved version of the commanded agent and tenant: an approved state automatically, or the one wanted, selected by pin, or by rollback exactly when deprecated |
| VersionResolution.ResolvedWithinBounds | internal/application/version_resolution.go:70-98 | an admitted run's constraints have exactly the deployment's and manifest's keys and permit no more than deployment, approved manifest or caller |
| Normalize.Compact | internal/policy/contract.go:261-271 | the in-place compaction leaves exactly the non-blank entries without neighbouring repetitions, in order |
| Normalize.NormalizeStrings | internal/policy/contract.go:235-240 | returns the sorted, compacted form of its argument, nil for an empty one |
| Normalize.NormalizedIffSameSet | internal/policy/contract.go:235-271 | two lists have one sorted compacted form exactly when they have the same non-blank elements |
| Normalize.SlicesAlikeIff | internal/policy/contract.go:242-271 | two lists are digested alike exactly when they have the same non-blank elements and both or neither are empty; a list of blanks and an empty one are not |
| DecisionCache.DigestIffSameAuthorization | internal/policy/contract.go:242-259 | two inputs have one authorization digest exactly when tenant, action, subject and resource, requested constraints, authority and security state are equal and role and method lists name the same non-blank entries, both or neither empty |
| DecisionCache.HitIsTransparent | internal/policy/cache.go:108-141 | a stored entry answers exactly inputs that agree with its own in every authorising field, under its policy and version, before its expiry, with the evaluator's decision under the caller's ID |
| DecisionCache.EvaluatedIsValid | internal/policy/cache.go:171-198 | a decision the wrapped evaluator resolved passes validation again and resolves to itself |
| DecisionCache.ValidityFollowsDigest | internal/policy/contract.go:145-173 | validity of a decision depends on the input only through what its digest covers |
| DecisionCache.GenuineHitIsEvaluated | internal/policy/cache.go:171-198 | every hit on an entry some evaluation produced is that evaluation's decision, for an input that agrees in every authorising field, before expiry |
| DecisionCache.ServedIff | internal/policy/cache.go:171-198 | with nothing assumed of a stored entry, whoever wrote it: it is served exactly when it is current, well formed by the decision contract, and fits the caller's authority and request |
| DecisionCache.HitsAreWithinAuthority | internal/policy/cache.go:171-198 | what is then served is the stored decision under the caller's ID, no wider than authority, request or what was stored |
| DecisionCache.StoredAlikeIff | internal/policy/cache.go:199-221 | two outcomes are stored alike exactly when they differ in nothing but the decision ID |
| DecisionCache.TtlIsBounded | internal/policy/cache.go:199-221 | a lifetime exceeds neither the decision's TTL, the configured maximum nor the freshness window left, and is their minimum when nothing overflows |
| DecisionCache.StaleTtlIsZeroIff | internal/policy/cache.go:199-221 | on its own the computation gives a stale state no lifetime exactly when the 64-bit difference stays nonpositive; a concrete wrapped age gets a full second |
| DecisionCache.CachedEvaluator.InvalidateTenant | internal/policy/cache.go:57-75 | bumps one generation modulo 2^64 and leaves no local entry of the tenant, or none at all for the empty tenant |
| DecisionCache.CachedEvaluator.LocalSet | internal/policy/cache.go:160-170 | stores the entry, keeps every other surviving entry unchanged, and never exceeds 1024 |
| DecisionCache.CachedEvaluator.Decide | internal/policy/cache.go:85-142 | a hit happens exactly when the local or remote entry under the caller's key decodes, and is a decision the evaluator produced under the active policy for an input that agrees in every authorising field; a remote hit is copied into the local map; otherwise the live result is returned, marked as miss or bypass, and a miss is stored; authoritative inputs bypass the cache |
| CacheGenerations.InvalidatedIsNeverServed | internal/policy/cache.go:57-75 | while fewer than 2^64 invalidations have happened, a call that reads its generation after an invalidation returns never finds an entry of a call from before it, locally, remotely or already fetched, even one stored later |
| CacheGenerations.StaleNeedsFullCycle | internal/policy/cache.go:57-75 | with no bound on the run: such an entry is found only when at least 2^64 invalidations lie between the two calls |
| CacheGenerations.ServedIffGenerationsAgree | internal/policy/cache.go:144-148 | of two calls with equal input under one policy, either can come to be served the other's entry exactly when both generations they read agree modulo 2^64 |
| CacheGenerations.StaleIsFoundIff | internal/policy/cache.go:102-141 | after n invalidations of its tenant a stored entry is found by a new call exactly when n is a multiple of 2^64 |
| CacheGenerations.WrappedGenerationServesStale | internal/policy/cache.go:57-75 | after 2^64 invalidations the stale entry is found |
| CacheGenerations.FoundSharesGeneration | internal/policy/cache.go:144-158 | whatever a call can find or has fetched was built by a call with the same input and the same generations modulo 2^64 |
| CacheGenerations.RunKeepsInv | internal/policy/cache.go:102-170 | along every interleaving each stored or fetched entry belongs under the key of the call that built it, and the local map holds at most 1024 entries |
| CacheGenerations.KeysAgree | internal/policy/cache.go:144-148 | the evaluator's key is the key of the call a protocol step starts, in every state its generation map represents |
| CacheGenerations.InvalidationIsRepresented | internal/policy/cache.go:57-75 | the evaluator's generation bump and the protocol's invalidation keep representing each other |
| CacheGenerations.InvalidationClearsLocal | internal/policy/cache.go:57-75 | an invalidation leaves exactly the other tenants' local entries, unchanged, or none at all for the empty tenant |
| Freshness.RunIsSound | internal/application/revocation_freshness.go:153-227 | over any observations applied never passes authoritative, and sequences, epochs and observation times never regress |
| Freshness.GapOutlivesStream | internal/application/revocation_freshness.go:103-119 | nothing but an accepted reconciliation clears a gap |
| Freshness.StreamIsContiguous | internal/application/revocation_freshness.go:153-227 | between reconciliations the applied sequence advances by exactly the number of applied receipts |
| Freshness.OnlyAppliedRecordsRefresh | internal/application/revocation_freshness.go:153-227 | without an applied record, age, epochs and applied sequence stay as they were |
| Freshness.AppliedIsTakenOver | internal/application/revocation_freshness.go:153-227 | an applied record sets sequence and age, raises the authoritative sequence and each of the four epochs to the larger of old and observed, stamps its own channel's time, and clears a gap exactly by reconciliation |
| Freshness.EpochsAreMaxima | internal/application/revocation_freshness.go:337-351 | over any run each epoch of a tenant is the maximum of where it started and the records applied to that tenant |
| Freshness.SkippingSetsGap | internal/application/revocation_freshness.go:153-227 | a stream record is a detected gap exactly when it skips a sequence; then the gap is set, the head raised, one gap counted and nothing else changed |
| Freshness.StreamVerdicts | internal/application/revocation_freshness.go:153-227 | a following stream record is applied exactly as the next sequence and a duplicate exactly at the current one without higher epochs; anything not ahead changes nothing |
| Freshness.ReconciliationVerdict | internal/application/revocation_freshness.go:153-227 | a following reconciliation is applied exactly when neither its sequence nor any of its epochs is behind |
| Freshness.FirstRecordIsApplied | internal/application/revocation_freshness.go:153-227 | in any reachable tracker a tenant's first record is applied exactly when it is well formed, at any sequence and epochs, even after heads and gaps were reported |
| Freshness.HeadAndGapMoveTheHead | internal/application/revocation_freshness.go:85-119 | a head or gap report moves the authoritative sequence exactly when it is not behind, a gap report also sets and counts the gap, and one that is behind changes nothing |
| Freshness.RefusedChangesNothing | internal/application/revocation_freshness.go:153-227 | any observation neither applied nor a detected gap leaves the tracker as it was |
| Freshness.ObservationIsLocal | internal/application/revocation_freshness.go:72-81 | an observation changes one tenant's state only, and tracking only makes a tenant known |
| Freshness.SnapshotSays | internal/application/revocation_freshness.go:229-258 | a snapshot is authoritative exactly for an observed tenant without gap or lag whose clock has not gone back, has an age exactly then, and blames the clock exactly when nothing else is wrong |
| Freshness.IncludeSummarizes | internal/application/revocation_freshness.go:262-301 | adding one tenant to the aggregate keeps it the exact summary of the tenants seen |
| Freshness.RevocationFreshnessTracker.TrackTenant | internal/application/revocation_freshness.go:72-81 | an untracked tenant starts without any observation; a tracked one keeps its state |
| Freshness.RevocationFreshnessTracker.RecordAuthoritativeHead | internal/application/revocation_freshness.go:85-99 | updates the tracker as the observation state machine does and returns its verdict |
| Freshness.RevocationFreshnessTracker.RecordGap | internal/application/revocation_freshness.go:103-119 | updates the tracker as the observation state machine does and returns its verdict |
| Freshness.RevocationFreshnessTracker.RecordObservation | internal/application/revocation_freshness.go:153-227 | updates the tracker as the observation state machine does, in every accepted, duplicate, gapped and regressing case |
| Freshness.RevocationFreshnessTracker.TakeSnapshot | internal/application/revocation_freshness.go:229-258 | returns the tenant's snapshot at that instant and changes nothing |
| Freshness.RevocationFreshnessTracker.ReadMetrics | internal/application/revocation_freshness.go:262-301 | healthy exactly when there is a tenant and every tenant's snapshot at that instant is authoritative and within the bound; maxima are attained and gaps counted exactly |
| Freshness.RevocationFreshnessTracker.SummarizeTenants | internal/application/revocation_freshness.go:262-301 | the accumulation is the exact summary of all tenants whatever order the map is iterated in |
| FreshnessEnforcement.RoundedAgeIffNoOverflow | internal/application/revocation_freshness_enforcement.go:70-83 | the age in whole seconds is the exact ceiling and within the bound exactly when adding a second does not overflow; only a bound of 9223372036 s admits such an age, and one concrete age is shown to fail |
| FreshnessEnforcement.AdmittedTtlFitsWindow | internal/application/revocation_freshness_enforcement.go:54-84 | a decision on an admitted state is given at most the minimum of its TTL, the configured maximum and the true time left, and loses less than a second to rounding |
| FreshnessEnforcement.ExpiryMeetsDeadlineIff | internal/policy/cache.go:199-221 | counted from the read, an entry given the whole window outlives the deadline exactly when evaluation took longer than the rounding cut off |
| FreshnessEnforcement.OnlyFreshStatesReachTheCache | internal/application/revocation_freshness_enforcement.go:54-84 | a state is passed on exactly while the tenant was reconciled within its class's bound, without gap or lag, and then carries the tracker's four epochs and that bound; otherwise the answer is a stale denial |
| FreshnessEnforcement.BoundIsUnique | internal/application/revocation_freshness_enforcement.go:54-84 | the bound applied to a class is the configured one of that class and no other |
| FreshnessEnforcement.BoundsInSeconds | internal/application/revocation_freshness_enforcement.go:43-48 | a configuration in whole seconds is accepted exactly with 1 to 30 for writes, 1 to 60 for sensitive reads and 1 to 9223372036 for the rest |
| FreshnessEnforcement.FreshnessEnforcingEvaluator.Decide | internal/application/revocation_freshness_enforcement.go:54-84 | tracks the tenant, then denies or passes on exactly as its freshness says; a high-risk write is evaluated with an authoritative state alone, and an allow that could be cached is refused |
| Idempotency.LostOwnershipStaysLost | internal/adapters/postgres/idempotency.go:45-150 | an acquisition that no longer owns its record never owns one again |
| Idempotency.StaleOwnersFail | internal/adapters/postgres/idempotency.go:107-150 | completion and failure by a stale owner change nothing |
| Idempotency.SettlesAtMostOnce | internal/adapters/postgres/idempotency.go:107-150 | an acquisition takes effect at most once |
| Idempotency.OwnershipIsOneToOne | internal/adapters/postgres/idempotency.go:45-105 | in every reachable table two owned slots are the same exactly when the acquisitions owning them are: one acquisition can settle a slot, and each at most one slot |
| Idempotency.CompletedIsStable | internal/adapters/postgres/idempotency.go:45-105 | a completed record stays as it is until an acquire at or after its expiry |
| Idempotency.CompletedIsReplayed | internal/adapters/postgres/idempotency.go:169-205 | until then the same hash replays the stored response and another conflicts |
| Idempotency.LeaseIsRespected | internal/adapters/postgres/idempotency.go:45-105 | an acquired slot nobody settles can be acquired again exactly at the lease's end by the same hash or at the record's expiry; before that it is reported in flight or conflicting |
| Idempotency.FailedIsRetryable | internal/adapters/postgres/idempotency.go:135-150 | a slot its owner failed can be acquired again at once by the same hash, and by another only from expiry |
| Idempotency.AcquiresIff | internal/adapters/postgres/idempotency.go:45-105 | an acquisition takes its slot exactly when the request is well formed and the slot is unused, expired, or holds failed or abandoned work of the same hash |
| Idempotency.CompletionStores | internal/adapters/postgres/idempotency.go:107-133 | the owner's completion stores exactly a status of 100 to 599 with JSON headers, not dated before the acquisition, in its own slot and nowhere else |
| Idempotency.CommitsAreAWindowApart | internal/adapters/postgres/policy_administration.go:57-101 | two commits for one key are separated by an acquire at or after the first one's expiry |
| Idempotency.TenantRepository.AcquireIdempotency | internal/adapters/postgres/idempotency.go:45-105 | acquires exactly when the row is replaceable; otherwise classifies the row as other sessions have left it, which still exists |
| Idempotency.TenantRepository.CompleteIdempotency | internal/adapters/postgres/idempotency.go:107-133 | succeeds exactly for the owner of an in-progress record with a valid response |
| Idempotency.TenantRepository.FailIdempotency | internal/adapters/postgres/idempotency.go:135-150 | succeeds exactly for the owner of an in-progress record |
| GovernanceApproval.Decide | internal/domain/governance_approval.go:104-121 | a decision yields a valid approval of the unchanged request, approved exactly when approving, with the given approver, reference and time, by someone other than the requester, within its window, and only from pending |
| GovernanceApproval.Consume | internal/domain/governance_approval.go:123-133 | consumption yields a valid consumed approval of the unchanged request and decision, only from an approved four-eyes state, for the same digest, between decision and expiry |
| GovernanceApproval.ExpiredIffUndecidable | internal/domain/governance_approval.go:137-142 | a pending approval reads as expired exactly when no later decision of it can succeed |
| GovernanceApproval.DecisionReadsBack | internal/adapters/postgres/governance_approval.go:42-126 | recording a decision succeeds exactly when its reference is new, and reads back from the three tables as the value type's own decision |
| GovernanceApproval.ConsumptionReadsBack | internal/adapters/postgres/governance_approval.go:128-158 | consuming in the tables succeeds exactly when the value type allows it, and reads back as its result |
| GovernanceApproval.ConsumedOnce | internal/adapters/postgres/governance_approval.go:128-158 | a consumed approval can never be consumed again and was properly decided, unexpired and bound to its digest |
| GovernanceApproval.RefusedIsNeverConsumed | internal/adapters/postgres/governance_approval.go:106-158 | once a refusal is recorded, no later store consumes that approval, for any digest at any time |
| GovernanceApproval.ApprovedIsConsumableIff | internal/adapters/postgres/governance_approval.go:106-158 | once an approval is recorded and not yet consumed, it can be consumed exactly for the requested digest between decision and expiry |
| GovernanceApproval.DecidableIff | internal/domain/governance_approval.go:104-121 | a stored request can be decided exactly while undecided, by someone other than the requester, with a non-blank reference of at most 512, inside its window |
| GovernanceApproval.RecordableIff | internal/adapters/postgres/governance_approval.go:106-126 | whatever value is presented, a decision row is inserted exactly when the stored request still admits it and the reference is new |
| GovernanceApproval.ReadableIff | internal/adapters/postgres/governance_approval.go:42-104 | rows of any content read back exactly when they form a four-eyes decision consumed no earlier than decided |
| GovernanceApproval.RecordKeepsInv | internal/adapters/postgres/governance_approval.go:106-126 | recording a decision keeps every stored approval valid and only adds rows |
| GovernanceApproval.ConsumeKeepsInv | internal/adapters/postgres/governance_approval.go:128-158 | consumption keeps every stored approval valid, only adds a row, and leaves a properly consumed approval |
| GovernanceApproval.ApprovalRepository.CreateGovernanceApproval | internal/adapters/postgres/governance_approval.go:16-34 | stores a valid pending approval under a new ID, which then reads back as given, or nothing |
| GovernanceApproval.ApprovalRepository.ReadGovernanceApproval | internal/adapters/postgres/governance_approval.go:42-104 | the field-by-field reconstruction never fails validation for a stored request and equals the joined value |
| GovernanceApproval.ApprovalRepository.RecordGovernanceApprovalDecision | internal/adapters/postgres/governance_approval.go:106-126 | appends exactly the decision row or nothing |
| GovernanceApproval.ApprovalRepository.ConsumeGovernanceApproval | internal/adapters/postgres/governance_approval.go:128-158 | appends exactly one consumption row, for an approval not consumed before, or nothing |
| PolicyAdministration.ExactlyOneOpen | internal/adapters/postgres/policy_administration.go:148-208 | after any run a channel that was ever activated has exactly one open activation, its last; versions are 1..n, never reused, and each interval ends where the next begins |
| PolicyAdministration.TimelineIsPartition | internal/adapters/postgres/policy_administration.go:186-201 | at every instant since the first activation exactly one activation was in force |
| PolicyAdministration.RollbacksAreApproved | internal/adapters/postgres/policy_administration.go:148-208 | an administered activation of a bundle seen before consumed an approval for rollback, requested by its actor, decided by someone else, unexpired, and bound to the version it replaced; a first activation consumed none |
| PolicyAdministration.OnlyUsableBundlesAreActivated | internal/adapters/postgres/policy_administration.go:148-208 | after any run every administered activation was of a bundle of that channel that is validated or approved and was inside its validity window when activated |
| PolicyAdministration.ActivationCommitsIff | internal/adapters/postgres/policy_administration.go:52-208 | an activation changes the tables exactly when its replay slot is free, its authority is still the open activation, the bundle is usable, the versions fit, and a rollback has an approved, unexpired, matching approval |
| PolicyAdministration.RollbackCanProceed | internal/adapters/postgres/policy_administration.go:148-208 | any admissible rollback goes through once a second person has approved it |
| PolicyAdministration.StoreCommitsIff | internal/adapters/postgres/policy_administration.go:127-147 | storing a bundle commits exactly when its replay slot is free, its authority is in force and no bundle of that digest was signed otherwise; a stored bundle is never replaced |
| PolicyAdministration.ActivationIdsAreUnique | internal/adapters/postgres/policy_administration.go:186-201 | after any run an activation ID names one activation of one channel |
| PolicyAdministration.CurrentIff | internal/adapters/postgres/policy_administration.go:30-47 | a channel has a current policy exactly when its last activation's bundle is usable now, and it is that activation |
| PolicyAdministration.ApprovalsAuthoriseOnce | internal/adapters/postgres/governance_approval.go:128-158 | no approval authorises two activations, in one channel or in two |
| PolicyAdministration.HistoryIsAppendOnly | internal/adapters/postgres/policy_administration.go:186-201 | rows are only added, and a row only ever changes by being closed |
| PolicyAdministration.NoABA | internal/adapters/opa/modules.go:120-166 | equal versions at two reads mean the same activation was open in every state between them |
| PolicyAdministration.CommitsUnderItsAuthority | internal/adapters/postgres/policy_administration.go:81-87 | an administrative operation changes something only while the activation that authorised it has stayed open throughout |
| PolicyAdministration.CommittedOnce | internal/adapters/postgres/policy_administration.go:57-101 | within the replay window, whatever happens in between, repeating a committed operation's key changes nothing |
| PolicyAdministration.ReplayTableProjects | internal/adapters/postgres/policy_administration.go:52-102 | the replay table of an administrative run is exactly a run of the idempotency protocol |
| PolicyAdministration.AcquireThenComplete | internal/adapters/postgres/policy_administration.go:69-101 | acquiring and completing inside one transaction equals the atomic commit the protocol theorems speak of |
| PolicyAdministration.CurrentIsLast | internal/adapters/postgres/policy_administration.go:30-47 | the current policy is always the last activation of its channel and its version the length of the history |
| PolicyAdministration.RunKeepsInv | internal/adapters/postgres/policy_administration.go:148-208 | every run keeps histories chained, rollbacks justified and approvals consistent |
| PolicyAdministration.TenantRepository.Mutate | internal/adapters/postgres/policy_administration.go:149-202 | the statement sequence computes the transaction's effect or, on any error, none |
| PolicyAdministration.TenantRepository.ActivatePolicy | internal/adapters/postgres/policy_administration.go:148-208 | one transaction performs exactly the protocol step; a commit appends version policyVersion + 1 with the caller's digest, actor and time and bumps the policy epoch; a replay is returned exactly for an unexpired completed slot of the same hash, with its stored response; everything else leaves the tables as they were |
| PolicyAdministration.TenantRepository.EvaluateUnderOnePolicy | internal/adapters/opa/modules.go:116-167 | the double read returns a policy exactly when both reads agree, and then that activation was open in every state in between, whatever other sessions did |
| ExtensionLedger.ItemsChain | internal/adapters/postgres/resource_extension.go:93-122 | each item's prior value is the previous item's new value of that dimension, the first one's the original grant |
| ExtensionLedger.GrantsAreConserved | internal/adapters/postgres/resource_extension.go:93-122 | after any run a grant is its original plus all additions, within 64 bits, equal to its last item's new value and to what is available plus what others took |
| ExtensionLedger.CreditsEqualAdditions | internal/adapters/postgres/resource_extension.go:106-121 | one extension adds exactly its additions to the items and to the available balance, raises a balance's version once per addition, and touches nothing else of it |
| ExtensionLedger.CreditAllSucceedsIff | internal/adapters/postgres/resource_extension.go:93-122 | a list of additions is credited exactly when each dimension exists with the same unit and scale and neither grant nor balance leaves 64 bits |
| ExtensionLedger.ExtendedIff | internal/adapters/postgres/resource_extension.go:35-165 | an unused key extends exactly when the request is well formed, extensions are enabled and the account can be granted every addition and the deadline; then exactly the requested row is appended, and otherwise nothing changes |
| ExtensionLedger.AcceptedIff | internal/domain/resource_extension.go:26-52 | a request passes validation exactly with named parties, up to a hundred positive additions of distinct names, at most a year, and not neither |
| ExtensionLedger.OpenedIsExtendable | internal/adapters/postgres/resource_extension.go:35-165 | a newly opened account is extended exactly by someone other than its requester, while not terminal, within the dimensions it was opened with |
| ExtensionLedger.DeadlinesNeverShrink | internal/adapters/postgres/resource_extension.go:71-92 | extensions are append-only, each raises the envelope version by one, and no run brings a deadline forward |
| ExtensionLedger.DeadlinesAreConserved | internal/adapters/postgres/resource_extension.go:71-92 | after any run a deadline is the opening one plus the seconds of all extensions, each row moves it by exactly its own seconds, and the envelope version is the opening one plus their number |
| ExtensionLedger.RetryChangesNothing | internal/adapters/postgres/resource_extension.go:36-54 | after any further run, a request with a used key changes nothing and returns the stored result exactly when it is the same request in any order of additions |
| ExtensionLedger.DigestIffSameRequest | internal/adapters/postgres/resource_extension.go:167-184 | two accepted requests with one key have equal content digests exactly when run, reason, approval, deadline and the multiset of additions agree |
| ExtensionLedger.SortedIsCanonical | internal/domain/resource_extension.go:39-49 | sorting by unique names leaves one list per multiset of additions |
| ExtensionLedger.ResumesIffPaused | internal/adapters/postgres/resource_extension.go:123-131 | an extension resumes the run exactly when budget had paused it, one version later, and never touches a finished run |
| ExtensionLedger.ExtensionKeepsLifecycle | internal/adapters/postgres/resource_extension.go:123-137 | an extension leaves the lifecycle valid, and its clock runs forward exactly when the extension is not older than the last update, which a resumption enforces |
| ExtensionLedger.ClockCanGoBack | internal/adapters/postgres/resource_extension.go:123-137 | an unpaused run does take an older time |
| ExtensionLedger.RunKeepsInv | internal/adapters/postgres/resource_extension.go:35-165 | every run keeps item chains, balances, versions, deadlines and lifecycles consistent |
| ExtensionLedger.ValidateAdditions | internal/domain/resource_extension.go:39-49 | accepts exactly positive additions with unique names and leaves the caller's array sorted by name, or as it was |
| ExtensionLedger.ResourceRepository.CreditAddition | internal/adapters/postgres/resource_extension.go:94-121 | one addition's statements credit exactly that dimension or fail without effect |
| ExtensionLedger.ResourceRepository.CreditAdditions | internal/adapters/postgres/resource_extension.go:93-122 | the loop credits all additions in order or, at the first failure, none |
| ExtensionLedger.ResourceRepository.ExtendResources | internal/adapters/postgres/resource_extension.go:35-165 | performs exactly the ledger step and keeps the ledger invariant |
| RunEvents.FollowIsGapFreeIff | internal/application/run_events.go:29-66 | for any calls, cursors, limits and retention: the events a reader collects up to its first reported failure are exactly the consecutive ones after its origin, if and only if no trim slipped between the statements of an answered call |
| RunEvents.ResumptionIsGapFree | internal/application/run_events.go:29-66 | in particular whenever no call is trimmed between its own statements, however much is trimmed between calls |
| RunEvents.GoneIffOvertaken | internal/application/run_events.go:47-54 | a positive cursor is reported gone exactly when a trim or the retention count had overtaken it at the window statement; cursor 0 never is |
| RunEvents.StartsAtOldestRetained | internal/application/run_events.go:44-51 | without a cursor the stream begins right after the larger of what was trimmed and what retention dropped |
| RunEvents.AnswerFollowsIff | internal/application/run_events.go:47-66 | an answered batch continues its start exactly when no trim had passed it, and an empty one leaves the cursor where it was |
| RunEvents.SelectContinuesIff | internal/adapters/postgres/run_events.go:32-36 | a read continues its cursor without a hole exactly when no event above the cursor had been removed by then |
| RunEvents.SelectIsLeast | internal/adapters/postgres/run_events.go:32-36 | the row statement returns exactly the smallest retained sequences above the cursor, up to the limit |
| RunEvents.AppendedIsNext | internal/adapters/postgres/run_events.go:32-36 | a reader that has read everything is given exactly the next event once it is appended |
| RunEvents.TrimLeavesHole | internal/adapters/postgres/run_events.go:25-36 | a trim between the window statement and the row statement leaves a hole, and the call returns the rows behind it as a good batch |
| RunEvents.CheckRows | internal/application/run_events.go:55-64 | on rows of a valid log the ordering loop refuses exactly malformed events |
| RunEvents.RetentionFloor | internal/application/run_events.go:37-43 | the floor is the larger of the retention floor, zero and the physical one |
| RunEvents.RunEventStream.Events | internal/application/run_events.go:29-66 | a positive cursor below the floor is reported gone and no other is; otherwise the batch is the retained rows above the larger of cursor and floor, gap-free exactly when none of them was trimmed meanwhile; malformed rows are refused; this is the answer the reader theorems speak of |
| RevocationDistribution.LosslessIffCommitOrdered | internal/adapters/postgres/revocation_distribution.go:25-43 | retention loses no visible entry, for any cursor and cutoff, exactly when visible commit times are nondecreasing in sequence |
| RevocationDistribution.InterleavedIsLossless | internal/adapters/postgres/revocation_distribution.go:25-43 | nor with entries arriving between the two statements, if they commit after the cutoff |
| RevocationDistribution.CheckpointsNeverRegress | internal/adapters/postgres/revocation_distribution.go:110-122 | over any saves no checkpoint component goes back and no recorded time is erased |
| RevocationDistribution.SavedIff | internal/adapters/postgres/revocation_distribution.go:110-122 | a checkpoint is stored exactly when well formed and not behind in any component, a repeat included, and unset times are carried over |
| RevocationDistribution.DeltaReachesAuthority | internal/application/revocation_distribution.go:97-135 | a complete delta holds every visible entry above the cursor up to the authoritative sequence |
| RevocationDistribution.HeadIsMax | internal/adapters/postgres/revocation_distribution.go:76-83 | the snapshot's sequence is the largest visible one |
| RevocationDistribution.SelectIffVisible | internal/adapters/postgres/revocation_distribution.go:37 | a row is selected exactly when it is global or of the tenant, above the cursor and not before the cutoff |
| RevocationDistribution.SelectIsOrdered | internal/adapters/postgres/revocation_distribution.go:37 | selected rows keep ascending sequences |
| RevocationDistribution.Repositories.RevocationChanges | internal/adapters/postgres/revocation_distribution.go:25-43 | reports the cursor gone by the boundary statement, else returns the first rows above it, which under ordered commits are all visible entries up to the limit |
| RevocationDistribution.Repositories.SaveGatewayCheckpoint | internal/adapters/postgres/revocation_distribution.go:110-122 | stores the checkpoint exactly when no component would go back |
| RevocationDistribution.Repositories.Reconcile | internal/application/revocation_distribution.go:97-135 | fails exactly for a negative cursor, a gateway ahead of the authority or a checkpoint that would go back, and then saves nothing; a delta is never truncated and under ordered commits holds every visible entry above the cursor; a snapshot is sent only for a gone cursor or an oversized delta; the checkpoint becomes the authoritative head |
| AgentDiscovery.List | internal/application/agent_discovery.go:43-86 | for any scan size the nested loops terminate and return what reading one agent at a time returns, errors included |
| AgentDiscovery.PageIsFilter | internal/application/agent_discovery.go:43-86 | a page is the first visible agents up to the limit, with a next cursor exactly when another visible one remains |
| AgentDiscovery.PagingEqualsFiltering | internal/application/agent_discovery.go:43-86 | following next with any limits returns every visible agent after the start exactly once, in order |
| AgentDiscovery.VisibleIsOrdered | internal/application/agent_discovery.go:63-67 | visible agents come in strictly ascending ID order |
| Decimal.ParsePrint | internal/domain/decimal.go:36-116 | every decimal of scale at most 18, the smallest 64-bit coefficient included, parses back to itself |
| Decimal.PrintParse | internal/domain/decimal.go:36-116 | every accepted text prints back to itself |
| Decimal.ArithmeticIsExact | internal/domain/decimal.go:76-94 | on equal scales sums and differences succeed exactly when the exact result fits 64 bits, and each undoes the other |
| Decimal.QuantitiesAreConserved | internal/domain/decimal.go:161-184 | quantities are added and subtracted exactly when units and scales agree and the result is between zero and the 64-bit maximum; taking back restores the original |
| Decimal.QuantityIff | internal/domain/decimal.go:138-159 | a quantity is exactly a nonnegative amount of a unit named by a lower-case letter and up to 62 letters, digits or underscores |
| Decimal.ParseDecimal | internal/domain/decimal.go:36-70 | the scanning parser accepts exactly canonical texts, whose printed form they are |
| Decimal.ToString | internal/domain/decimal.go:96-116 | the padding loop prints a text that parses back to the number |
| RunLifecycle.RunKeepsValid | internal/domain/run.go:104-175 | every run of commands keeps the lifecycle valid, its clock monotone, its terminal time the time a terminal state was entered and no other, its version within 64 bits and one higher per change |
| RunLifecycle.AtMostOneChangePerVersion | internal/domain/run.go:104-152 | of all commands with one expected version at most one changes the run |
| RunLifecycle.TerminalIsAbsorbing | internal/domain/run.go:127-132 | no command leaves a terminal state |
| RunLifecycle.CompletedByWorker | internal/domain/run.go:205-241 | a completed run was started by a worker and later completed by a worker |
| RunLifecycle.MovesAreDocumented | docs/contracts/domain-model.md:174-185 | the transition and actor switches allow exactly the moves of the documented table |
| RunLifecycle.ChangesIffDocumented | internal/domain/run.go:104-152 | a command changes a valid run exactly when its move is in that table, its version is current and its time does not go back; then state, version, clock and terminal time are exactly the commanded ones |
| RunLifecycle.EnteredByDocumentedMove | internal/domain/run.go:104-241 | whatever state a run is found in was entered by a documented move of a permitted actor, and nothing changed the run since |
| RunLifecycle.ReplayIffCanEstablish | internal/domain/run.go:243-256 | on a terminal run a timely command succeeds, as a replay without change, exactly for actors some transition lets establish that state |
| Encodings.ManifestInjective | internal/artifact/signed.go:87-100 | equal manifests have equal kind, version, revision and digest, even for versions whose length overflows its prefix |
| Encodings.SigningManifest | internal/artifact/signed.go:87-100 | the appending loop builds that manifest |
| Encodings.UsageMaterialInjective | internal/domain/resource_usage.go:97-101 | equal trusted-usage material means equal fields, although the event ID may contain NUL |
| Encodings.CacheMaterialInjective | internal/policy/cache.go:229-233 | equal key material means equal policy digest, version, generations and input digest, whatever the unrestricted fields between hold |

## Left out

- HTTP handlers, middleware and problem rendering: transport over the modelled services.
- OIDC, mTLS, key management, real hashing, signatures and base64: hashes are injective constructors and verification is not modelled.
- JSON encoding and decoding, regular expressions and most length limits: values are taken after decoding, and numbers keep their exact value and spelling.
- PostgreSQL isolation, pools, migrations and tracing: each statement or transaction is atomic, and commits become visible in sequence order.
- Reservation, usage, settlement and run-worker persistence: other movements of a balance are one arbitrary step that records what it took.
- Break-glass grants, outbox publishing, bootstrap provisioning, role mappings, configuration and metrics publishing: easy members or input and output.
- Policy input validation and restricted fields, action classification and lower-casing: they only add easy members.
- Role-mapping revisions, identifier patterns, and descriptive texts of approvals and extensions: `ActivationCommitsIff`, `StoreCommitsIff`, `AcceptedIff`, `AcquiresIff` and `RecordableIff` are exact for the modelled fields.
- The evaluator's remote policy call and module upload: the decision is a parameter, only the two policy reads around it are modelled.
- Complete deletion of a run's events: a trim keeps at least the newest event, since an empty table would restart the numbering.
- The digest of a reconciliation snapshot and the query for active revocations: the snapshot's content is an opaque list.
- Audit, outbox and run-event rows written beside activations and extensions: the transactions are modelled without them.
- The aliasing between a caller's additions slice and the validated request: the sorted array is modelled, sharing is not.
- Uniqueness of an approval request's provider reference: one more conflict of the same kind as the decision reference.
- The time text in trusted-usage material: `Encodings.UsageMaterialInjective` determines the formatted text, not the instant behind it.
- Constraints.Subset: membership is a quantifier where the code fills a set first, because the set holds the same printed values.
