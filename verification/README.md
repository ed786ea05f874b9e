# CoreMesh verification

Dafny models of the parts of CoreMesh in which state, concurrency or arithmetic decide whether the
product keeps its promises, with proofs of those promises.  `dafny verify dfyconfig.toml` checks all of it.

| file | part of the system |
|---|---|
| `lease_protocol.dfy` | the renewable lease and fencing token of the log miner, as interleaved transactions |
| `embedding_cache.dfy`, `medoid.dfy`, `candidate_seeds.dfy`, `miner_store.dfy`, `miner.dfy`, `miner_rerun.dfy` | a mining run: cached embeddings, seeds, candidates, purge, second run |
| `token_bucket.dfy`, `circuit_breaker.dfy`, `metrics.dfy` | the gateway's admission, breaker and counters |
| `scope_key.dfy`, `semantic_cache.dfy` | the gateway's semantic response cache |
| `forensics.dfy`, `span_tree.dfy`, `trace_graph.dfy` | root-cause analysis, span tree and trace layout |
| `sums.dfy`, `bm25.dfy`, `rank_fusion.dfy`, `retrieval.dfy`, `lexical_reranker.dfy` | hybrid retrieval |
| `consensus.dfy`, `supervisor.dfy` | the agent supervisor and the delivery gate |
| `common.dfy`, `sorting.dfy`, `strings.dfy` | shared vocabulary |

## What is taken for granted

- The exclusive tables of `Miner.RunPipeline` are what the lease provides: `LeaseProtocol.RunIsTheOnlyWriter` proves that
  between a run's claim and its close the tables change by the run's own committed writes only, provided that all
  writers use the lease.  That the fence answers yes is that the transaction commits.
- Stores are maps and sequences with the unique keys, row locks and lifetimes the code relies on.  In the lease
  protocol a transaction evaluates its condition on the committed row, waits for the row lock, and evaluates again
  only if the row has changed meanwhile; time passes between all of its stages.
- Numbers are mathematical integers and reals.  Square root and logarithm are parameters with the laws a proof uses
  (`root(x) > 0`, `root(x) * root(x) == x` for positive `x`; `log(x) > 0` above 1).
- The Redis client sends a lifetime as whole seconds: it truncates, and raises what is below one second to one.  The
  key is there before the lifetime has passed, unless Redis evicts it, and never from then on.
- SHA-256 is a parameter.  Where a proof needs it not to collide, the requirement names the finitely many texts in
  question.
- The embedding provider, the clusterer, the reference generator, critics, adjudicator, tools, the primary BM25
  scorer and the reranker are arbitrary functions, failures included.
- Clocks do not run backwards where the code assumes so (token bucket, breaker).

## What the code does not do, and exactly when

- An embedding cache whose rows all have one width that the provider no longer uses is never refreshed: the matrix
  then differs from the uncached one.  `EmbedRecords` proves that this is the only such case, and
  `StaleCacheIsNotRefreshed` shows one.
- A refill rate that prints as zero empties the bucket's promises: an expired bucket need not be full, a drop can be
  seen, the admission bound fails and a denial has no hint.  `ExpiredBucketIsFull`, `DroppingIsInvisible`,
  `AdmissionBound` and `RetryAfterIsLeast` prove that this is exactly when; `PrintedZeroExceedsBound` shows a run.
- A snapshot may show more routed requests than requests.  `RoutesWithinRequestsIff` says for every moment at which
  the requests are read and no route yet when the calls under way cannot bring that about, and `NewCallsCanExceed`
  that a new call always can; `RoutesExceedByConcurrentRequests` bounds the excess and `TornSnapshotCanShowMoreRoutes`
  exhibits it.
- The response capture keeps the first status only, so an informational status hides the final one from the client;
  `CaptureMasksFinalStatus` says for which calls of the handler, and `EarlyHintsMaskNotFound` shows a 404 that
  becomes a 200.  Both are about the capture alone: in the gateway the writer of the metrics
  (`gateway-proxy/internal/gateway/observability.go:257-263`) keeps the first status too, on bypassed requests as well.
- A cached response is not served exactly up to its expiry.  Its key lives in Redis for the whole seconds of the
  lifetime, at least one, from the moment of the write; `RepeatIsServedWhile` says exactly when it answers.  A lifetime
  that is neither of whole seconds nor below one is cut short (`LifetimeIsKeptIff`, `GoneBeforeExpiry`); an answer
  after the expiry needs a key that outlives it (`SomeLateAnswerIff`, `ServedAfterExpiry`), and is late by little
  (`LatenessIsBounded`).
- An expired claim can still commit while one of its transactions that saw the lease row live is in flight and the
  row has not been updated since; `ClaimCommitsAgainIffAlive` proves that this, and being live, are the only ways,
  and `ExpiredClaimStillCommits` gives a trace.
- A second mining run over the same rows creates a fingerprint again exactly when the first one's purge took its
  unreviewed candidate and no golden case has it (`PurgedIsCreatedAgain`); `PurgedCandidateComesBack` gives three
  runs from empty tables.

## Model

| member | source | states |
|---|---|---|
| LeaseProtocol.FencedWritesNeverInterleave | analytics-workers/src/log_miner/repository.py:179-323 | in every interleaving the committed transactions of a claim all precede those of any later claim on the lease |
| LeaseProtocol.OvertakenClaimNeverCommits | analytics-workers/src/log_miner/repository.py:179-197 | once a newer claim has committed, nothing of the older one ever commits, in any continuation |
| LeaseProtocol.ClaimCommitsAgainIffAlive | analytics-workers/src/log_miner/repository.py:300-342 | an issued claim can still commit or be renewed if and only if its lease is live or one of its transactions that saw the present row live is in flight |
| LeaseProtocol.ExpiredClaimStillCommits | analytics-workers/src/log_miner/repository.py:179-197 | a trace in which a claim commits after its lease has run out, because its check was in time |
| LeaseProtocol.UpdatesMakeVersions | analytics-workers/src/log_miner/repository.py:279-342 | every update of a lease row, even one to equal values, gives it a version it never had, which is what a waiting statement is checked against again |
| LeaseProtocol.TablesAreReplayed | analytics-workers/src/log_miner/repository.py:179-197 | at every moment the tables are the committed writes in the order of their commits |
| LeaseProtocol.RunIsTheOnlyWriter | analytics-workers/src/log_miner/repository.py:179-323 | between two commits of a claim its lease sees no other claim's commit, and the tables change by its own writes only |
| LeaseProtocol.CommitterOwns | analytics-workers/src/log_miner/repository.py:179-197 | whoever holds the row lock after the check is the lease's last claim, although the lease may have expired since |
| LeaseProtocol.InvRun | analytics-workers/src/log_miner/repository.py:199-342 | locks, ownership, audit rows and contiguity of the history hold in every reachable state |
| LeaseProtocol.RunningIffNamedByLease | analytics-workers/src/log_miner/repository.py:199-298 | at every commit a run row is `running` exactly when a lease row names it |
| LeaseProtocol.OneRunningRunPerLease | analytics-workers/src/log_miner/repository.py:199-298 | the running run of a lease is that of its last claim, so there are never two |
| LeaseProtocol.TerminalStatusAbsorbs | analytics-workers/src/log_miner/repository.py:878-985 | a terminal audit row never changes again although its update does not test the status |
| LeaseProtocol.NextClaimFailsCrashedRun | analytics-workers/src/log_miner/repository.py:222-298 | the next successful claim marks the run of a crashed worker failed and counts one error |
| EmbeddingCache.ValidateAndNormalize | analytics-workers/src/log_miner/extractor.py:69-89 | succeeds exactly on one finite, non-zero vector of one width a prompt, and returns their unit vectors |
| EmbeddingCache.UnitIsIdempotent | analytics-workers/src/log_miner/extractor.py:69-89 | normalizing a stored unit vector again gives the same vector |
| EmbeddingCache.Table.Load | analytics-workers/src/log_miner/repository.py:435-481 | returns for each fingerprint exactly its rows of the profile |
| EmbeddingCache.Table.Store | analytics-workers/src/log_miner/repository.py:483-535 | leaves exactly one row a stored fingerprint, all other rows untouched, and nothing changed on failure |
| EmbeddingCache.Fingerprint | analytics-workers/src/log_miner/extractor.py:524-541 | fails exactly on a collision of normal forms; otherwise each normal form once, in order |
| EmbeddingCache.CollectVectors | analytics-workers/src/log_miner/extractor.py:575-618 | which fingerprints are asked for, and what the vectors then are, for missing, mixed-width and changed-width caches |
| EmbeddingCache.EmbedRecords | analytics-workers/src/log_miner/extractor.py:513-634 | the matrix is the uncached one unless the whole cache has one outdated width; each normal form is sent at most once; afterwards each prompt has one valid agreeing row; a fully cached call sends nothing |
| EmbeddingCache.CompleteAfterwards | analytics-workers/src/log_miner/extractor.py:614-629 | after a run that was not stale every prompt has exactly one row and it is the provider's vector |
| EmbeddingCache.MatrixIsDirect | analytics-workers/src/log_miner/extractor.py:575-634 | the matrix equals the one computed without a cache if and only if the cache was not stale |
| EmbeddingCache.StaleCacheIsNotRefreshed | analytics-workers/src/log_miner/extractor.py:575-634 | a sound cache of the old width: every matrix that agrees with it differs from the uncached one |
| EmbeddingCache.MatrixOfStored | analytics-workers/src/log_miner/extractor.py:614-634 | whatever the provider answered, the matrix is what the cache holds afterwards |
| Medoid.ExpandedSquare | analytics-workers/src/log_miner/extractor.py:154-164 | the expanded square is the squared distance, so cutting it off at zero changes nothing |
| Medoid.BlockedSums | analytics-workers/src/log_miner/extractor.py:154-166 | for any block size every row sum is the plain sum of Euclidean distances |
| Medoid.SelectMedoid | analytics-workers/src/log_miner/extractor.py:149-167 | the first index that minimises the sum of distances, for any number of vectors; fails exactly on none |
| CandidateSeeds.BuildCandidateSeeds | analytics-workers/src/log_miner/extractor.py:248-310 | one seed a cluster in ascending label order, then the most outlying noise; the inputs decide the result; fails exactly on misaligned assignments |
| CandidateSeeds.EveryClusteredRowOnce | analytics-workers/src/log_miner/extractor.py:260-265 | each clustered row is a member of exactly one cluster seed |
| CandidateSeeds.RepresentativeIsMedoid | analytics-workers/src/log_miner/extractor.py:266-284 | the representative is a member of its cluster and its first medoid |
| CandidateSeeds.NoiseIsMostOutlying | analytics-workers/src/log_miner/extractor.py:286-310 | no noise row that was left out is more outlying than one that became a seed |
| CandidateSeeds.ExamplesAreDistinct | analytics-workers/src/log_miner/extractor.py:216-245 | examples differ from the representative and each other in normal form and stop short only when no other is left |
| CandidateSeeds.NearestDistinctExamples | analytics-workers/src/log_miner/extractor.py:216-245 | the loop picks the first unseen normal forms in order of nearness to the representative |
| MinerStore.Repository.InsertMembers | analytics-workers/src/log_miner/repository.py:569-579 | afterwards the candidate's members are the old ones and the given ones, in whatever order they are inserted |
| MinerStore.Repository.MergeMembersOnConnection | analytics-workers/src/log_miner/repository.py:559-633 | members only grow, and the candidate's listing and count are rewritten from the member table |
| MinerStore.Repository.MergeCandidateMembers | analytics-workers/src/log_miner/repository.py:635-668 | merges into a known candidate; without one, or without the claim, nothing changes |
| MinerStore.Repository.PersistCandidate | analytics-workers/src/log_miner/repository.py:670-860 | creates exactly if the fingerprint has no candidate, otherwise merges; a promoted one gets the golden case of its fingerprint |
| MinerStore.Repository.FinalizeRun | analytics-workers/src/log_miner/repository.py:905-961 | purges old source rows, old unreviewed candidates and sourceless cache rows, and returns by how many rows the tables shrank |
| MinerStore.MergedKeepsValid | analytics-workers/src/log_miner/repository.py:559-633 | merging keeps ids unique, each listing equal to the member table, and loses no member |
| MinerStore.PersistedKeepsValid | analytics-workers/src/log_miner/repository.py:670-860 | persisting keeps the same invariant, and no stored candidate or golden case is lost |
| MinerStore.FinalizedKeepsValid | analytics-workers/src/log_miner/repository.py:905-961 | the purge keeps the invariant |
| MinerStore.FinalizedRemovesExactly | analytics-workers/src/log_miner/repository.py:917-941 | what survives the purge, candidate by candidate and row by row |
| MinerStore.SourcedSelect | analytics-workers/src/log_miner/repository.py:931-941 | the cache rows of a fingerprint stay or go together with its source row |
| Miner.FetchEligible | analytics-workers/src/log_miner/repository.py:375-433 | the rows in the window with non-blank text and a bad outcome, in order of time and trace |
| Miner.EligibleIn | analytics-workers/src/log_miner/extractor.py:170-185 | a row is mined exactly if it is in the table and eligible |
| Miner.EligibleInOrder | analytics-workers/src/log_miner/extractor.py:867-879 | with one row a trace, the eligible rows come each once, by time and then by trace |
| Miner.BuildCandidates | analytics-workers/src/log_miner/extractor.py:675-752 | every seed is a duplicate, an error or a prepared candidate |
| Miner.MergeKnown | analytics-workers/src/log_miner/extractor.py:765-775 | merges the known seeds in order, and keeps the tables valid when it stops early |
| Miner.PersistNew | analytics-workers/src/log_miner/extractor.py:777-789 | counts as candidates exactly those that were new when their turn came, as promoted or pending, the rest as duplicates |
| Miner.RunPipeline | analytics-workers/src/log_miner/extractor.py:823-914 | a completed run is one embedding step, one persistence step and one purge with the counts of each; a failed one has the counts of what it did; a run that keeps its lease and whose providers answer completes |
| MinerRerun.CountsAddUp | analytics-workers/src/log_miner/extractor.py:636-789 | duplicates, errors and candidates add up to the seeds, promoted and pending to the candidates, and both are what the tables gained |
| MinerRerun.FailedCountsAddUp | analytics-workers/src/log_miner/extractor.py:791-821 | also in a failed run the recorded candidates are the rows the table gained, promoted and pending add up to them, and no seed is counted twice |
| MinerRerun.AllDuplicatesIffAllKnown | analytics-workers/src/log_miner/extractor.py:675-752 | a run reports every seed as a duplicate if and only if every fingerprint was stored before it |
| MinerRerun.KnownAfterPurge | analytics-workers/src/log_miner/repository.py:905-961 | after a run a stored fingerprint is known if and only if its candidate was retained or it has a golden case |
| MinerRerun.PurgedIsCreatedAgain | analytics-workers/src/log_miner/extractor.py:636-789 | a later run creates a stored fingerprint again if and only if the purge took its candidate and it has no golden case |
| MinerRerun.PurgedCandidateComesBack | analytics-workers/src/log_miner/extractor.py:636-789 | three runs from empty tables: one creates a candidate, the next reports a duplicate and purges it, the last creates it again over the same row |
| MinerRerun.RerunEmbedsNothing | analytics-workers/src/log_miner/extractor.py:513-634 | a later run over the same rows sends nothing to the provider and sees the same matrix and seeds |
| MinerRerun.RerunIsIdempotent | analytics-workers/src/log_miner/extractor.py:636-914 | after an error-free run whose purge took nothing needed, a second run embeds nothing, creates nothing, finds only duplicates and leaves the tables as they were up to its own purge |
| MinerRerun.SettledAfter | analytics-workers/src/log_miner/extractor.py:754-789 | after an error-free run each candidate has the members of all its seeds and the tag of the last one |
| TokenBucket.RedisTokenBucket.constructor | gateway-proxy/internal/gateway/proxy.go:209-222 | the stored lifetime is the computed one, the rate is within half a millionth of the configured one |
| TokenBucket.RedisTokenBucket.Allow | gateway-proxy/internal/gateway/proxy.go:224-302 | the script's decision and new state in terms of the level the key had, whether or not it had been dropped |
| TokenBucket.ExpiredBucketIsFull | gateway-proxy/internal/gateway/proxy.go:209-222 | every bucket whose lifetime is over has the level of a full one, if and only if the rate does not print as zero; from a millionth on it never does |
| TokenBucket.DroppingIsInvisible | gateway-proxy/internal/gateway/proxy.go:267-302 | every request to every bucket sees the same level whether Redis has dropped the expired key or not, if and only if the rate does not print as zero |
| TokenBucket.AdmissionBound | gateway-proxy/internal/gateway/proxy.go:267-302 | over every run and window, whatever is dropped, admissions stamped within [s, t] number at most capacity + rate * (t - s), if and only if the rate does not print as zero |
| TokenBucket.PrintedZeroExceedsBound | gateway-proxy/internal/gateway/proxy.go:209-302 | a valid configuration, capacity 1 and refill 0.0000004, and a run of two requests that are both admitted against a bound of one |
| TokenBucket.RetryAfterIsLeast | gateway-proxy/internal/gateway/proxy.go:267-302 | a denial has a hint if and only if the rate does not print as zero, and then it is the least whole number of seconds after which an undisturbed retry is admitted |
| CircuitBreaker.SharedBreaker.Route | gateway-proxy/internal/gateway/proxy.go:570-595 | routes and changes state as the breaker's value and the instant say |
| CircuitBreaker.SharedBreaker.RecordSuccess | gateway-proxy/internal/gateway/proxy.go:597-612 | any success closes a half-open breaker; otherwise only the window is pruned |
| CircuitBreaker.SharedBreaker.RecordFailure | gateway-proxy/internal/gateway/proxy.go:614-629 | records the failure and opens at the threshold or from half-open |
| CircuitBreaker.PruneFailures | gateway-proxy/internal/gateway/proxy.go:661-668 | drops the leading entries older than the window |
| CircuitBreaker.BreakerInvariant | gateway-proxy/internal/gateway/proxy.go:570-668 | in every run the retained failures are those of the log of all failures that may still matter |
| CircuitBreaker.OpensExactlyAtThreshold | gateway-proxy/internal/gateway/proxy.go:614-629 | a closed breaker opens on a failure exactly when the log holds at least `threshold` failures in the window |
| CircuitBreaker.StateReflectsProbe | gateway-proxy/internal/gateway/proxy.go:570-659 | closed means fewer failures than the threshold, half-open means a probe in flight, after every call |
| CircuitBreaker.ProbesAreSpaced | gateway-proxy/internal/gateway/proxy.go:570-659 | a never-closed stretch of length L admits at most 1 + L / min(open duration, probe timeout) primary requests |
| CircuitBreaker.TwoProbesApart | gateway-proxy/internal/gateway/proxy.go:570-659 | two primary admissions of such a stretch are at least that minimum apart |
| Forensics.Candidates | services-runtime/src/tracing/forensics.py:459-549 | the candidates with their evidence and category, given the confidence reported before each span |
| Forensics.CandidateIffDegraded | services-runtime/src/tracing/forensics.py:459-549 | a span is a candidate exactly if it shows a degradation signal |
| Forensics.RemoveWrapperDuplicates | services-runtime/src/tracing/forensics.py:551-565 | keeps exactly the candidates that are not an ancestor of another one |
| Forensics.SurvivorsAreDeepest | services-runtime/src/tracing/forensics.py:551-565 | the survivors form a non-empty antichain and every dropped candidate has a surviving descendant |
| Forensics.Depth | services-runtime/src/tracing/forensics.py:1170-1177 | on acyclic parents the loop ends with the number of ancestors |
| Forensics.SelectFirst | services-runtime/src/tracing/forensics.py:405-457 | the first candidate of least step, start and greatest depth |
| Forensics.Analyze | services-runtime/src/tracing/forensics.py:405-457 | the diagnosis is that of the first surviving candidate, or of the fallback span without candidates |
| Forensics.DiagnosisIgnoresSpanOrder | services-runtime/src/tracing/forensics.py:405-457 | every permutation of the spans gives the same diagnosis |
| Forensics.DegradationHasCause | services-runtime/src/tracing/forensics.py:405-457 | there is a cause to name if and only if some span shows a degradation signal |
| Forensics.DiagnosedSpanIsDegraded | services-runtime/src/tracing/forensics.py:405-564 | whenever a degradation signal exists the diagnosis names a degraded span, with that span's evidence and category |
| Forensics.NegativeFeedbackKeepsDiagnosis | services-runtime/src/tracing/forensics.py:874-913 | re-analysis on negative feedback names the same span and category whenever a degradation signal exists |
| SpanTree.BuildTree | services-runtime/src/tracing/forensics.py:1144-1159 | attaches each span to its parent's child list or to the roots, and shows a single root without a list |
| SpanTree.TreeConservesSpans | services-runtime/src/tracing/forensics.py:1144-1159 | flattening the tree gives every span exactly once, under its own parent |
| TraceGraph.SpanDepth | frontend-ui/src/lib/traceGraph.ts:58-71 | ends below the span count even on cyclic links; on acyclic links the result is the number of known ancestors |
| TraceGraph.ToTraceFlow | frontend-ui/src/lib/traceGraph.ts:73-133 | the nodes layer by layer and the edges of the spans with a drawn parent |
| TraceGraph.FlowPlacesEverySpanOnce | frontend-ui/src/lib/traceGraph.ts:78-113 | every span is drawn exactly once and no two at one position, on any links |
| TraceGraph.EdgesGoDownOneLayer | frontend-ui/src/lib/traceGraph.ts:115-130 | on acyclic links every edge goes down exactly one layer |
| TraceGraph.EdgesAreLinks | frontend-ui/src/lib/traceGraph.ts:115-130 | the edges are exactly the links between two drawn spans |
| ScopeKey.HashScope | gateway-proxy/internal/cache/semantic.go:931-946 | hashes the fields in key order whatever order the map yields |
| ScopeKey.TextIsInjective | gateway-proxy/internal/cache/semantic.go:931-946 | different scopes serialize differently although a model name may hold line breaks and `=` |
| ScopeKey.KeyOf | gateway-proxy/internal/cache/semantic.go:387-390 | the scope hash and entry key are those of the six fields and the prompt |
| ScopeKey.EqualKeysMeanEqualRequests | gateway-proxy/internal/cache/semantic.go:387-390 | equal entry keys mean equal scope and prompt, equal scope hashes equal scope, and conversely |
| SemanticCache.CaptureResponseWriter.WriteHeader | gateway-proxy/internal/cache/semantic.go:964-970 | the first status wins and alone reaches the connection |
| SemanticCache.CaptureResponseWriter.Write | gateway-proxy/internal/cache/semantic.go:972-984 | the capture holds exactly the bytes that the connection accepted, and remembers an error |
| SemanticCache.CaptureIsWhatWasSent | gateway-proxy/internal/cache/semantic.go:953-1005 | over any use of the writer the captured body is the sent body and a storable response was a success for the client |
| SemanticCache.CaptureMasksFinalStatus | gateway-proxy/internal/cache/semantic.go:964-970 | in front of a connection that masks nothing, the capture changes the client's status, namely to 200, if and only if the handler announces informational statuses and then at once sets a final one other than 200 |
| SemanticCache.EarlyHintsMaskNotFound | gateway-proxy/internal/cache/semantic.go:964-970 | behind the capture a handler that announces with 103 and answers 404 reaches the client as a 200 |
| SemanticCache.LookupExact | gateway-proxy/internal/cache/semantic.go:537-566 | hits exactly on a kept entry of the same scope hash whose second of expiry has not passed |
| SemanticCache.LookupAny | gateway-proxy/internal/cache/semantic.go:466-533 | the exact key wins; else the nearest neighbour at or above the threshold |
| SemanticCache.Cache.Remember | gateway-proxy/internal/cache/semantic.go:346-371 | stores exactly complete successes that the store takes, and every entry stays the record of a delivery |
| SemanticCache.Cache.IncrementHitCount | gateway-proxy/internal/cache/semantic.go:609-611 | counting a hit on a vanished key creates a counter that can never be served |
| SemanticCache.Cache.Handle | gateway-proxy/internal/cache/semantic.go:275-374 | which requests bypass, hit or miss, what the client receives and what is stored in each case, failing store writes included |
| SemanticCache.HitReplaysEarlierDelivery | gateway-proxy/internal/cache/semantic.go:346-374 | a hit returns byte for byte the body of an earlier success of the same scope, and under the exact key of the same prompt, past neither the second of its expiry nor its lifetime in Redis |
| SemanticCache.RepeatIsServedWhile | gateway-proxy/internal/cache/semantic.go:537-606 | a stored response answers a repeat, unless evicted or replaced, if and only if Redis still keeps the key and the second of its expiry has not passed |
| SemanticCache.SomeLateAnswerIff | gateway-proxy/internal/cache/semantic.go:537-606 | some repeat is answered after the expiry if and only if the key outlives it and was written before the second of the expiry was over |
| SemanticCache.EveryRepeatAnsweredIff | gateway-proxy/internal/cache/semantic.go:537-606 | every repeat before the expiry is answered if and only if Redis keeps the key up to then |
| SemanticCache.LifetimeIsKeptIff | gateway-proxy/internal/cache/semantic.go:569-606 | for every delivery, however long its write takes, all repeats before the expiry are answered, if and only if the configured lifetime is of whole seconds or below one |
| SemanticCache.LatenessIsBounded | gateway-proxy/internal/cache/semantic.go:537-606 | an answer is late by less than a second, and from lifetimes of a second on by less than the write took |
| SemanticCache.GoneBeforeExpiry | gateway-proxy/internal/cache/semantic.go:603-603 | with a lifetime of 1.5 seconds a response is gone after 1.2 seconds |
| SemanticCache.ServedAfterExpiry | gateway-proxy/internal/cache/semantic.go:537-606 | with a lifetime of a nanosecond, which becomes a second for Redis, a response is still served 999 milliseconds later |
| Metrics.EverySnapshotIsConsistent | gateway-proxy/internal/gateway/observability.go:112-171 | in every interleaving hits + misses + bypasses <= requests, and the hit rate is in [0,1] and null exactly without hits and misses |
| Metrics.HitRate | gateway-proxy/internal/gateway/observability.go:136-143 | null exactly without eligible requests, otherwise the fraction of hits, between 0 and 1 |
| Metrics.RoutesExceedByConcurrentRequests | gateway-proxy/internal/gateway/observability.go:159-171 | primary + fallback exceeds requests by at most the requests counted between the reads |
| Metrics.RoutesWithinRequestsIff | gateway-proxy/internal/gateway/observability.go:112-171 | once the requests are read and no route yet, no completion without new calls shows primary + fallback > requests, if and only if the requests counted since and the uncounted calls to be routed are together at most the counted ones never to be routed |
| Metrics.NewCallsCanExceed | gateway-proxy/internal/gateway/observability.go:112-171 | from every moment with the requests read and no route yet, new calls can make the snapshot show more routed requests than requests |
| Metrics.QuiescentSnapshotIsExact | gateway-proxy/internal/gateway/observability.go:136-171 | a snapshot no call overlaps shows exactly the number of calls with each mark |
| Metrics.TornSnapshotCanShowMoreRoutes | gateway-proxy/internal/gateway/observability.go:159-171 | a run whose snapshot shows more routed requests than requests |
| Bm25.SimpleBm25.constructor | services-runtime/src/rag/retrieval.py:593-607 | the tables are the counts, lengths, average and inverse frequencies of the corpus |
| Bm25.SimpleBm25.GetScores | services-runtime/src/rag/retrieval.py:609-621 | the loops compute the BM25 sum of every document |
| Bm25.PositiveIffSharesToken | services-runtime/src/rag/retrieval.py:590-621 | a document scores above zero exactly if it holds a query token, and never below |
| Bm25.ScoreIgnoresCorpusOrder | services-runtime/src/rag/retrieval.py:590-621 | listing the corpus in another order changes no score |
| Retrieval.TopPositive | services-runtime/src/rag/retrieval.py:361-371 | descending scores with ties in corpus order, positive ones only, and whatever is missing comes after a full list |
| Retrieval.SparseIndex.Search | services-runtime/src/rag/retrieval.py:347-371 | the hits are the top of the scores that apply, the fallback's exactly when no primary score is positive |
| Retrieval.SearchFinds | services-runtime/src/rag/retrieval.py:347-371 | for any primary scorer a search finds something exactly if the limit is positive and a primary score is, or a chunk shares a token |
| Retrieval.SparseIndex.UpsertChunks | services-runtime/src/rag/retrieval.py:315-323 | the corpus as a map is overlaid with the new chunks |
| Retrieval.DenseIndex.LoadChunks | services-runtime/src/rag/retrieval.py:270-290 | every persisted point once, in ascending order of id |
| Retrieval.HybridRetriever.EnsureSparseHydrated | services-runtime/src/rag/retrieval.py:548-561 | afterwards the sparse corpus is the persisted one; a corpus in use is left alone |
| Retrieval.HybridRetriever.IndexChunks | services-runtime/src/rag/retrieval.py:475-487 | dense and sparse sides receive the same chunks after hydration, or neither does |
| Retrieval.HydratedCorpusIsPersisted | services-runtime/src/rag/retrieval.py:474-561 | after any uploads, searches and restarts the hydrated corpus is everything ever indexed, as the dense store persists it |
| Retrieval.RebuildKeepsScores | services-runtime/src/rag/retrieval.py:548-561 | rebuilding the corpus in another order leaves every chunk's score for every query as it was |
| Retrieval.HybridRetriever.Search | services-runtime/src/rag/retrieval.py:490-546 | hydrates, and answers what fusion, shortlist and reranking make of the dense hits and of the top lexical hits of the hydrated corpus; a failing provider or store is an error after hydration |
| Retrieval.HybridSearchFinds | services-runtime/src/rag/retrieval.py:490-546 | for any primary scorer the results are empty exactly if the store hit nothing and no lexical score is positive and no chunk shares a token; every result is a stored hit or a chunk of the corpus |
| RankFusion.RrfCandidates | services-runtime/src/rag/retrieval.py:563-579 | the two loops compute the fused table and the insertion order of its keys |
| RankFusion.FusedIsSumOfRanks | services-runtime/src/rag/retrieval.py:563-579 | fusion keeps every chunk that either ranking found, with both ranks and the sum of its weighted reciprocal ranks |
| RankFusion.DominantFusesHigher | services-runtime/src/rag/retrieval.py:563-579 | a chunk that both rankings put at least as high as another one gets a strictly higher fused score |
| RankFusion.ShortlistKeepsDominant | services-runtime/src/rag/retrieval.py:501-509 | whoever reaches the reranker, every chunk that both rankings put at least as high reaches it before |
| RankFusion.RankHits | services-runtime/src/rag/retrieval.py:499-546 | shortlist and results are the first of their pools in the stated orders, ties in insertion order; a reranker that miscounts is an error |
| RankFusion.AnswerMeans | services-runtime/src/rag/retrieval.py:490-546 | distinct hits with their ranks and fused score, ordered by technical matches, reranker score, fused score; within both limits, and empty only without hits |
| RankFusion.AnswerIsUnique | services-runtime/src/rag/retrieval.py:490-546 | the hits decide the answer: two answers to the same hits are equal, ties included |
| LexicalReranker.CauchySchwarz | services-runtime/src/rag/retrieval.py:398-416 | the square of a sum of products is at most the product of the sums of squares |
| LexicalReranker.CosineBounds | services-runtime/src/rag/retrieval.py:398-416 | every score is in [0,1], zero norms included, and positive exactly if a token is shared |
| LexicalReranker.SameCountsScoreOne | services-runtime/src/rag/retrieval.py:398-416 | a chunk with the query's own token counts scores exactly 1 |
| LexicalReranker.Score | services-runtime/src/rag/retrieval.py:398-416 | the loops over token counters compute the cosine of every chunk |
| Consensus.CombinedConfidence | services-runtime/src/arbitration/consensus.py:787-795 | lies in [0,1] for any assessments and failures, and is 0 without assessments |
| Consensus.FindTriggers | services-runtime/src/arbitration/consensus.py:312-321 | the loop raises the triggers of each assessment in order |
| Consensus.TriggersAreObjections | services-runtime/src/arbitration/consensus.py:312-321 | a trigger is raised exactly by an assessment with that objection |
| Consensus.Adjudicate | services-runtime/src/arbitration/consensus.py:258-287 | releases, remediates or blocks exactly as the adjudicator says, with its very correction; its failure blocks |
| Consensus.Arbitrate | services-runtime/src/arbitration/consensus.py:213-287 | the text is released exactly with a quorum and either unanimity or the adjudicator's release; the adjudicator is asked about exactly the objections of a quorum; otherwise its correction or the blocked text |
| Consensus.UnanimousMeans | services-runtime/src/arbitration/consensus.py:240-257 | nothing triggers exactly when every critic answered in its dimension and none objects |
| Supervisor.CreatePlan | services-runtime/src/agents/orchestrator.py:848-956 | at most one step a specialist, each depending on all earlier ones, exactly the needed specialists, never an empty plan |
| Supervisor.SupervisorState.SupervisorNode | services-runtime/src/agents/orchestrator.py:698-730 | plans only without a plan, starts and dispatches the current step, or completes the run |
| Supervisor.SupervisorState.SpecialistNode | services-runtime/src/agents/orchestrator.py:732-806 | appends one observation for the current step, which alone decides its status, and advances |
| Supervisor.SupervisorState.Invoke | services-runtime/src/agents/orchestrator.py:825-836 | for any plan the loop ends with one observation a step, in order, every step in the status its observation dictates |
| Supervisor.EveryStepIsObserved | services-runtime/src/agents/orchestrator.py:732-806 | observation i belongs to step i, sees exactly the i earlier ones, and leaves the step completed, skipped or failed |
| Supervisor.CompletionStatus | services-runtime/src/agents/orchestrator.py:1232-1237 | errors are reported exactly if one occurred, and plain completion exactly if every step succeeded |
| Supervisor.ApplyArbitration | services-runtime/src/agents/orchestrator.py:1011-1071 | blank text and a failing arbitrator are blocked too; the delivered text and status follow the verdict |
| Supervisor.RunOrchestration | services-runtime/src/agents/orchestrator.py:595-655 | from plan to user: the synthesized text is delivered exactly with at least two assessments and unanimity or release, otherwise the remediation or the blocked text |
| Supervisor.DeterministicCriticsAgree | services-runtime/src/arbitration/consensus.py:374-431 | the hermetic critics reach a quorum and agree exactly if every step succeeded |
| Supervisor.RunDeterministic | services-runtime/src/arbitration/consensus.py:433-446 | in the hermetic mode the text is delivered exactly if every step succeeded, and blocked otherwise |

## Left out

- HTTP, Redis, Qdrant, Chroma and PostgreSQL clients and the calls to model providers: only the store behaviour named above is modelled.
- Floating-point rounding, 64-bit overflow of counters and times, the millisecond steps of the clock of Redis, vector encodings and approximate nearest-neighbour search: a neighbour is any servable row of the scope.
- HDBSCAN, rank-bm25, cross-encoders, LangGraph and OpenTelemetry: labels and primary scores are arbitrary inputs and the sequential graph is the one modelled.
- The heartbeat thread: its answers are an arbitrary sequence, so every moment at which a lease may be lost is covered, but not the thread itself.
- MinerStore.Repository.MergeMembersOnConnection: does not model the provenance copied to golden cases, of which only existence and the link from the candidate matter here.
- Miner.RunPipeline: the audit row of a run is part of the lease protocol, the grouping of rows by feature scope is inside the arbitrary seed function, and text is taken as already trimmed.
- Retrieval.HybridRetriever.Search: the regular expression for technical tokens and the reranker are arbitrary functions.
- Forensics.Analyze: the optional judge is an arbitrary function; artifact files and explanations are not modelled.
- TraceGraph.ToTraceFlow: severities, labels and edge styles are not modelled; layers are visited by ascending depth.
- Span ids and start times are integers in the order of their text.
- SQL sandboxing, redaction, document extraction, vision, fine-tuning, autopilot rollout, schedulers, command lines and user interface components: they would add only easy members or live in libraries.
