# CHEN hand-off, memory, guards and codecs: a verified model

CHEN runs a prompt through a sequence of small experts. This project models, in Dafny, the parts of it
that carry state or depend on delicate bookkeeping, and proves what they keep over every input and
every run. To verify: `dafny verify dfyconfig.toml`.

| files | what they model |
|---|---|
| `KvCaches`, `TensorLayout` | the KV-cache record, layer padding and truncation, llama.cpp's flat tensor, vLLM's pages |
| `Experts`, `Metrics` | one expert's invocation with its fallbacks; the running totals of a pipeline |
| `Handoff`, `HandoffLaws`, `HandoffAccounts`, `HandoffTells`, `PhaseComparison`, `Pipelines` | the three pipelines: what a run is, how the phases relate, what every run keeps, what it reads, writes and spends, when phases 2 and 3 show the same run, and the loops that compute it |
| `SharedMemory`, `TenantMemory` | the entry store with its id index; tenants with quota and lazy expiry |
| `CircuitBreaker`, `RateLimiter` | the breaker over overlapping calls; the sliding window per key |
| `EncryptedBlocks`, `Sessions`, `CrypticStreams`, `StreamWire`, `KeyStores` | block format, session keys, chunked streams, framing, key rotation |
| `AuditLogs`, `AuditFormats` | the hash-chained audit log; a format that has the laws it relies on |
| `Routers` | the three routers |
| `EndToEnd` | routers with pipelines, the key store with streams |
| `Sorting`, `Arithmetic`, `Wrappers` | stable sorting and its uniqueness; products; Option and Result |

Code that updates state is a class or a loop, proved equal to a function of its inputs or old state; the
laws are lemmas about those functions. Exceptions are `Option`/`Result` values. Things the code cannot
determine itself are parameters: clock readings, random bytes and ids, similarity and routing scores,
the order in which a set lists its elements, and the foreign backends, which are functions that may
fail. HKDF (RFC 5869) and AES-GCM (NIST SP 800-38D) appear as `derive`, `seal` and `open` with the one
law that opening undoes sealing under the same key and nonce and that sealing adds 16 bytes, and for one
result the law that nothing else opens; strict UTF-8 (RFC 3629) as an encoding and a decoding that
determine each other; SHA-256, JSON and entry digests as injective. For each of these assumptions a lemma exhibits functions that meet it.

## Where code and documentation differ

The model follows the code.

- A half-open breaker does not limit probes: any number of calls can be in flight at once
  (`CircuitBreaker.ProbesAreUnlimited`). "Exceeding" the failure threshold means reaching it.
- A failed transfer is recorded as "cache not used", so `kv_cache_failures` never moves and the nuance
  score is only ever 0 or 1 (`HandoffAccounts.FinishedRunTotals`). The sequence given to `finalize`
  contains repeats, so "distinct" parameters equal invoked ones and EPU is 1 or 0, never in between
  (`Pipelines.UtilizationIsOneOrZero`).
- A caller's `max_tokens` is popped in the loop and reaches the first expert only (`Handoff.Budget`).
- Phases 2 and 3 treat the first expert differently: phase 2 consults memory only after the plain prompt
  was encoded and keeps the plain cache if the augmented prompt cannot be encoded, phase 3 encodes the
  augmented prompt at once; and phase 3 recovers when the first expert raises on its own cache, where
  phase 2 gives up. `PhaseComparison.PhasesCoincideIff` says exactly when the two show the same run, and
  `PhaseComparison.PhasesCanDiffer` gives a run they show differently.
- After `clear` a tenant keeps its store but not its timestamp table; the next write is stored and then
  raises (`TenantMemory.MultiTenantMemory.Write`, `TenantMemory.LazyRefinesEager`). Rewriting an id that is already there is refused at quota.
- A role or expert name with a `|` in it can give different texts the same entry id, and only such a name
  can (`SharedMemory.UnmistakableIff`); a write that meets such an id breaks the index.
- With `fallback_to_text=False` a failed transfer ends in a bare `raise` outside any handler, which raises
  an error of its own (`HandoffLaws.FallbackIsCascade`).
- Rebinding a key id in a decryptor is ignored for sessions already seen
  (`Sessions.RebindingIsIgnored`). `get_active_config` keeps serving a revoked key
  (`KeyStores.ServedConfigReadable`), and activating a revoked key un-revokes it
  (`KeyStores.ActivatingUndoesRevocation`).
- A negative block size drops all data silently (`CrypticStreams.ReorderedRoundTrip`). The wire format
  holds no index: blocks reordered before they are written decrypt in written order
  (`StreamWire.ReorderedOnWire`), while reordering in memory is undone.
- Logistic and cosine routing can cut off the appended synthesizer again
  (`Routers.FinishedEndsInForcedIff`, `Routers.SynthesizerIsCutOff`).
- Losing entries at the end of an audit log, or rewriting its last entry with a recomputed hash, goes
  unnoticed (`AuditLogs.PrefixIsIntact`, `AuditLogs.TamperingUnnoticedIff`).

## Model

| member | source | states |
|---|---|---|
| KvCaches.Construct | src/chen/core/kv_cache.py:53-64 | construction succeeds exactly on equally many key and value layers; a wrong declared layer count is corrected and noted, a right one leaves the record as it is |
| KvCaches.CorrectionIsNoted | src/chen/core/kv_cache.py:53-64 | what the correction of a wrong layer count changes, and what its note says |
| KvCaches.ZerosLikeIsZero | src/chen/backends/vllm.py:325-330 | a pad layer has the shape it is copied from and holds nothing but 0 |
| KvCaches.TransferContents | src/chen/backends/vllm.py:309-343 | a transfer succeeds exactly on a matching head layout with a layer to copy the pad's shape from; it then yields the target layer count, source layers first and zeros behind, and keeps the provenance text |
| KvCaches.TransferComposes | src/chen/backends/hf.py:273-308 | going through an intermediate model equals going directly if and only if that model holds every layer both ends hold or drops only zero layers; so padding and truncating back is the identity |
| TensorLayout.PlaceOf | src/chen/backends/llama_cpp.py:237-243 | every offset below the tensor's size is the offset of the place computed from it, which lies inside the five dimensions |
| TensorLayout.OffsetDeterminesPlace | src/chen/backends/llama_cpp.py:242-250 | every place inside the dimensions has an offset inside the tensor, and the offset gives the place back |
| TensorLayout.OffsetIsRowMajor | src/chen/backends/llama_cpp.py:237-243 | the axes from slowest to fastest are layer, keys before values, head, position, coordinate |
| TensorLayout.KeyAndValueAt | src/chen/backends/llama_cpp.py:242-252 | which index of the flat tensor each key and each value of the cache comes from |
| TensorLayout.StackUndoesSplit | src/chen/backends/llama_cpp.py:242-252 | taking any flat tensor apart into per-layer keys and values and stacking them again gives the tensor |
| TensorLayout.SplitUndoesStack | src/chen/backends/llama_cpp.py:319-324 | stacking any layers of the right shape and taking the tensor apart gives the layers |
| TensorLayout.Deinterleave | src/chen/backends/llama_cpp.py:245-252 | the loop over layers collects exactly the transposed halves of the flat tensor |
| TensorLayout.Restack | src/chen/backends/llama_cpp.py:319-324 | the five-dimensional array the loop fills is, read in row-major order, the stack of the layers |
| TensorLayout.Adjust | src/chen/backends/llama_cpp.py:312-317 | the inline truncation and padding loop, including its failure on an empty cache |
| TensorLayout.AdjustIsTransfer | src/chen/backends/llama_cpp.py:373-408 | adjusting inline gives the layers a transfer gives and fails on the same caches |
| TensorLayout.SpreadAt | src/chen/backends/llama_cpp.py:319-324 | what a smaller array is repeated to when it is assigned |
| TensorLayout.Inject | src/chen/backends/llama_cpp.py:278-324 | what ends up in memory is the stack of the transferred cache, smaller arrays repeated along axes of length 1; there is none exactly if the transfer fails or a layer does not fit |
| TensorLayout.GatheredAt | src/chen/backends/vllm.py:223-225 | the gathered cache is as long as the sequence or the table's pages, whichever is less, and its position p is row p mod page size of the page the table names at p div page size |
| TensorLayout.Gather | src/chen/backends/vllm.py:214-227 | the nested loops gather every layer so, and fail only on an empty block table |
| Experts.Invoke | src/chen/core/expert.py:107-203 | the reassignments along the exception paths compute the declarative invocation: the cache wins over the prompt, counts as used exactly if the backend can and the transfer does not raise, is decoded exactly if the transfer also gives one, and the next cache covers input, newline and output |
| Experts.AnswerComesFrom | src/chen/core/expert.py:132-165 | the decision tree leaf by leaf: who answers, on what the answer is accounted and what the record says; a cache is decoded as the transfer left it |
| Experts.AnswerIsFollowedUp | src/chen/core/expert.py:167-203 | the next cache, the times and the token counts, with the estimate for both texts where the backend cannot count both |
| Experts.DecodesOnlyTransferred | src/chen/core/expert.py:147-165 | a backend that decodes differently only what no transfer yields answers every invocation the same |
| Experts.DecodedCacheIsOwn | src/chen/core/expert.py:147-165 | with the tensor backends' transfer what is decoded has the receiver's own layers and head layout |
| Experts.MockTransferIs | src/chen/backends/mock.py:181-206 | a cache of the own shape passes through, any other is made anew from its text |
| Experts.UsedImpliesSucceeded | src/chen/core/expert.py:142-157 | no record both uses a cache and reports a failed transfer |
| Experts.UnusedCacheIsItsText | src/chen/core/expert.py:134-164 | a cache that does not take part is worth exactly the text it was made from |
| Experts.BackendsKeepText | src/chen/backends/mock.py:181-206 | the mock transfer and the tensor backends' transfer both keep the text a cache stands for |
| Metrics.AggregateMetrics.Add | src/chen/core/pipeline.py:48-58 | every total stays the sum over the records in order |
| Metrics.AggregateMetrics.Finalize | src/chen/core/pipeline.py:60-71 | the two derived fields are the parameter sum of the given experts and the share of uses that did not fail |
| Metrics.TotalsAdd | src/chen/core/pipeline.py:48-58 | totals of consecutive stretches of records add up |
| Metrics.OneRecordCounts | src/chen/core/pipeline.py:48-58 | what one record adds to each total |
| Metrics.NuanceIsShare | src/chen/core/pipeline.py:66-71 | the nuance score is the share of transfers that did not fail |
| Metrics.PriceList | src/chen/core/config.py:74-81 | a million tokens cost their rate, and the parameter tax is what is paid on top |
| Metrics.CostIsLinear | src/chen/core/config.py:56-81 | the accumulated cost is the cost of the token totals |
| Metrics.CostPerMillionIsAMean | src/chen/core/pipeline.py:77-82 | cost per million tokens is the token-weighted mean of the two rates, so it lies between them |
| Metrics.NoFailureIsCounted | src/chen/core/pipeline.py:54-57 | over records that invocations can produce no failure is ever counted |
| Handoff.RoutedStep | src/chen/phases/phase3_routing.py:140-163 | phase 3's later step, written as one request and perhaps a second, equals phase 2's nested one |
| Handoff.LaterStepsAgree | src/chen/phases/phase3_routing.py:140-181 | from the second expert on the loops of phases 2 and 3 give the same run from the same state |
| HandoffLaws.TextModeCascades | src/chen/phases/phase2_kv_pass.py:146-152 | once in text mode the rest of any run is a cascade without memory, and the mode stays on |
| HandoffLaws.FallbackIsCascade | src/chen/phases/phase2_kv_pass.py:153-172 | from a failed transfer on the run is a cascade on the previous output, unless the discarded attempt itself raises or falling back is switched off, which both end the run |
| HandoffLaws.FailedTransferTurnsRunIntoCascade | src/chen/phases/phase2_kv_pass.py:146-172 | the same over a whole run, whichever expert it happens at |
| HandoffLaws.TextModeIsSticky | src/chen/phases/phase2_kv_pass.py:96-172 | text mode never turns off again |
| HandoffLaws.RunSplits | src/chen/phases/phase2_kv_pass.py:101-191 | a run is any number of its first steps followed by the steps from there |
| HandoffLaws.NoFirstCacheIsCascade | src/chen/phases/phase2_kv_pass.py:106-143 | a first expert that cannot make a cache of the prompt turns phase 2 into phase 1 without memory |
| HandoffLaws.Phase3OnTextIsCascade | src/chen/phases/phase3_routing.py:94-181 | phase 3 on text is the cascade that consults memory once; without memory it is phase 1, for every failure pattern |
| HandoffLaws.FirstRequestsAgreeIff | src/chen/phases/phase3_routing.py:105-118 | phases 2 and 3 give their first expert the same thing if and only if memory adds nothing or the expert can encode both prompts |
| HandoffLaws.Phase3RefinesPhase2 | src/chen/phases/phase3_routing.py:94-181 | where the first requests agree phase 3 with caches is phase 2 state for state, memory and counters included, unless the first expert raises on its own cache: there phase 2 raises and phase 3 is a cascade |
| PhaseComparison.PhasesCoincideIff | src/chen/phases/phase3_routing.py:94-181 | whole runs of phases 2 and 3 show the same texts, records and errors if and only if the first requests agree, or, where phase 2's first expert raises, phase 3's raises as well |
| PhaseComparison.PhasesCanDiffer | src/chen/phases/phase2_kv_pass.py:124-143 | a text-only first expert with one retrieved note gets the note in phase 3 and not in phase 2 |
| HandoffAccounts.PhasesExplained | src/chen/phases/phase1_cascade.py:78-105 | every phase, finished or broken off, leaves one record per step, belonging to that step's expert, prompt and output |
| HandoffAccounts.FinishedRunTotals | src/chen/core/pipeline.py:60-71 | in every finished run the distinct parameters equal the invoked ones, no failure is counted and the nuance score is 0 or 1 |
| HandoffAccounts.ChannelsNeverDiverge | src/chen/core/expert.py:167-177 | after every step of phases 2 and 3 a cache in hand stands for the last accounted prompt, a newline and the current text, and every step was accounted on the text or on the whole conversation before it |
| HandoffAccounts.AllCachedIsTranscript | src/chen/core/expert.py:140-177 | if every expert used the cache, expert k was accounted on the opening prompt and all earlier answers, line by line |
| HandoffAccounts.AllCachedRun | src/chen/phases/phase2_kv_pass.py:101-191 | the same for whole runs of phase 2, down to the token count in the record |
| HandoffTells.OverrideReachesFirst | src/chen/phases/phase2_kv_pass.py:104 | a caller's token budget is the first expert's, as if it were everyone's |
| HandoffTells.OverrideReachesNobodyElse | src/chen/phases/phase2_kv_pass.py:104 | for all later experts of any phase it is as if there were none |
| HandoffTells.CacheIsUsed | src/chen/phases/phase2_kv_pass.py:153-157 | outside text mode an expert whose backend takes the cache in hand over decodes what it took over |
| HandoffTells.FirstCacheIsUsed | src/chen/phases/phase2_kv_pass.py:106-143 | the first expert uses the cache of its prompt if it can make one |
| HandoffTells.LinesJoin | src/chen/core/pipeline.py:193 | notes are shown one to a line, in order |
| HandoffTells.NotesAreShown | src/chen/core/pipeline.py:188-202 | the prompt an expert gets from retrieved notes: every note is shown with its role, and the prompt comes last |
| HandoffTells.RolesAreSpelt | src/chen/core/expert.py:30-36 | the strings that stand for the roles |
| HandoffTells.PhaseOneTells | src/chen/phases/phase1_cascade.py:63-118 | every run of phase 1 in closed form: what each expert is prompted with from which memory, that it answers what its backend generates from that, what memory holds, and what is read and written |
| HandoffTells.RunsAreNoted | src/chen/phases/phase2_kv_pass.py:98-188 | every run of phases 2 and 3 leaves the user's prompt and one note for each step in memory, with what the expert was given, and counts as read what its first expert consulted |
| Pipelines.UtilizationIsOneOrZero | src/chen/core/pipeline.py:84-99 | a finished run's EPU is 1, or 0 without parameters, however often experts are invoked again |
| Pipelines.LastOfNameIsKept | src/chen/core/pipeline.py:157-160 | under a name stands the last expert that has it |
| Pipelines.MissingAre | src/chen/phases/phase2_kv_pass.py:66-73 | what a sequence is rejected for are exactly its unknown names |
| Pipelines.SequenceResolves | src/chen/phases/phase2_kv_pass.py:64-73 | a resolved sequence is non-empty and names known experts only; the default one always resolves |
| Pipelines.InvokeExpert | src/chen/core/pipeline.py:173-202 | invoking with memory is invoking on the augmented prompt |
| Pipelines.CascadePipeline.Run | src/chen/phases/phase1_cascade.py:63-118 | the loop computes phase 1: same error, same memory, a result that reports the run with totals over exactly its records |
| Pipelines.KVPassPipeline.FirstInvocation | src/chen/phases/phase2_kv_pass.py:106-143 | the first step's nested encodings and fallbacks are phase 2's first step |
| Pipelines.KVPassPipeline.LaterInvocation | src/chen/phases/phase2_kv_pass.py:144-172 | a later step tries the cache and falls back to the text, or raises where that is switched off, as the hand-off step says |
| Pipelines.KVPassPipeline.Run | src/chen/phases/phase2_kv_pass.py:85-205 | the loop computes phase 2: same error, same memory, a result that reports the run |
| Pipelines.SelectedIs | src/chen/phases/phase3_routing.py:74-83 | an empty route stands for the first synthesizer, or without one for the first expert |
| Pipelines.RoutingPipeline.SelectNames | src/chen/phases/phase3_routing.py:74-83 | an empty route is replaced by the first synthesizer, else the first expert; the result is never empty |
| Pipelines.RoutingPipeline.FirstInvocation | src/chen/phases/phase3_routing.py:99-139 | encoding and invoking under one handler are phase 3's first step |
| Pipelines.RoutingPipeline.LaterInvocation | src/chen/phases/phase3_routing.py:140-163 | the same in the loop of phase 3, against that phase's own step |
| Pipelines.RoutingPipeline.Run | src/chen/phases/phase3_routing.py:67-196 | the loop computes phase 3 on the routed sequence |
| SharedMemory.JoinedIsInjective | src/chen/core/memory.py:56-63 | without a bar in role and expert an id names one role, expert and text |
| SharedMemory.BarsCollide | src/chen/core/memory.py:56-63 | for every role and expert with a bar in one of them, and every text, another role or expert without bars and another text share the id |
| SharedMemory.UnmistakableIff | src/chen/core/memory.py:56-63 | no entry with clean role and expert shares an id with what is written under a role and an expert if and only if these are free of bars |
| SharedMemory.InMemoryMemory.Write | src/chen/core/memory.py:147-160 | a new id is appended, a known one updated in place; list and index still agree exactly if a found entry has the same text |
| SharedMemory.MatchingAre | src/chen/core/memory.py:174-178 | an entry is retrievable unless a wanted role is not its own or its confidence is below the minimum |
| SharedMemory.MatchingInOrder | src/chen/core/memory.py:173-182 | and the retrievable entries are gone through in list order |
| SharedMemory.UpdateLeaves | src/chen/core/memory.py:153-159 | what a second write leaves of an entry, field by field |
| SharedMemory.WriteHolds | src/chen/core/memory.py:147-160 | after a write the store holds the text with its confidence, and all entries of other ids |
| SharedMemory.InMemoryMemory.Retrieve | src/chen/core/memory.py:162-184 | the slice up to k of the matching entries, most similar first |
| SharedMemory.BestIsTop | src/chen/core/memory.py:183-184 | that is a best-first choice, and nothing left out beats a chosen one |
| SharedMemory.SliceHas | src/chen/core/memory.py:184 | which positions a slice up to k has, for a negative k too |
| SharedMemory.InMemoryMemory.DropIds | src/chen/persistence/tenant_memory.py:73-81 | rebuilding without some ids keeps the others in order and the index in agreement |
| SharedMemory.KeptInOrder | src/chen/persistence/tenant_memory.py:75-81 | dropping ids keeps the other entries in order |
| SharedMemory.ConsistentCount | src/chen/core/memory.py:186-187 | in a consistent store the number of entries is the number of ids |
| TenantMemory.SweepShowsLive | src/chen/persistence/tenant_memory.py:64-83 | after a sweep the table holds exactly the ids last written at most the TTL ago, however long the last sweep is past |
| TenantMemory.LazyRefinesEager | src/chen/persistence/tenant_memory.py:64-134 | over every run with a monotone clock lazy sweeping and eager expiry give the same answers, quota rejections included, if and only if nothing is stored after an existing tenant was cleared |
| TenantMemory.SharesStoreIff | src/chen/persistence/tenant_memory.py:56-62 | two callers share a store if and only if they name the same tenant or both mean the default one |
| TenantMemory.ExpiryBoundary | src/chen/persistence/tenant_memory.py:66-71 | an entry is seen up to and including the moment it is as old as the TTL, without a TTL forever |
| TenantMemory.QuotaBoundary | src/chen/persistence/tenant_memory.py:85-95 | a store is rejected exactly if as many ids as the quota allows are visible |
| TenantMemory.MultiTenantMemory.TouchedOne | src/chen/persistence/tenant_memory.py:97-134 | where only the caller's tenant is touched no caller of another tenant is disturbed |
| TenantMemory.MultiTenantMemory.UndisturbedAnswers | src/chen/persistence/tenant_memory.py:107-122 | an undisturbed caller gets the same answers from the next retrieval and the next count |
| TenantMemory.MultiTenantMemory.GcTenant | src/chen/persistence/tenant_memory.py:64-83 | afterwards a tenant with timestamps shows exactly its live ids; a cleared one is left alone |
| TenantMemory.MultiTenantMemory.Write | src/chen/persistence/tenant_memory.py:97-105 | accepted exactly if the live ids leave room; the tenant's entries are then the swept ones after the write; a cleared tenant stores and raises; no caller of another tenant is disturbed; the invariants survive exactly if the tenant does not have the id for another text |
| TenantMemory.CleanEntriesAreNotMistaken | src/chen/core/memory.py:147-160 | among entries with clean roles and experts an id is never found with another text |
| TenantMemory.MultiTenantMemory.Retrieve | src/chen/persistence/tenant_memory.py:107-117 | the answer is the best of what matches among the entries the sweep leaves, which are the live ones; no caller of another tenant is disturbed |
| TenantMemory.MultiTenantMemory.Count | src/chen/persistence/tenant_memory.py:119-122 | counting does not sweep: at least the live entries are counted; no caller of another tenant is disturbed |
| TenantMemory.MultiTenantMemory.ClearTenant | src/chen/persistence/tenant_memory.py:130-134 | the store is emptied and the timestamp table gone, the tenant stays; no caller of another tenant is disturbed |
| TenantMemory.MultiTenantMemory.ClearAll | src/chen/persistence/tenant_memory.py:124-129 | the same for all tenants |
| CircuitBreaker.Circuit.Enter | src/chen/observability/circuit_breaker.py:102-111 | admission and the transition before it are one step of the transition system; the retry hint is never negative nor too short |
| CircuitBreaker.Circuit.Exit | src/chen/observability/circuit_breaker.py:113-155 | ending a call is one step of the transition system and does not look at the cooldown |
| CircuitBreaker.ReadingIsEntering | src/chen/observability/circuit_breaker.py:82-111 | reading the state moves the breaker on as a call does, so it reads open exactly if a call would be turned away |
| CircuitBreaker.CountersAreExplained | src/chen/observability/circuit_breaker.py:120-155 | over every interleaving a closed breaker has counted the failures in a row, below the threshold, any other exactly the threshold, and the remembered time is that of the latest failing exit |
| CircuitBreaker.OpensExactly | src/chen/observability/circuit_breaker.py:135-155 | a closed breaker opens exactly on the failing exit that completes the row |
| CircuitBreaker.AdmissionKeepsCooldown | src/chen/observability/circuit_breaker.py:89-111 | with one monotone clock a call is turned away exactly while the breaker is open and the latest failure, even a late one, is within the cooldown |
| CircuitBreaker.HalfOpenIsProbation | src/chen/observability/circuit_breaker.py:89-133 | a half-open breaker left the open state at some step with no failing exit since, and has counted the successes since |
| CircuitBreaker.ClosesOnlyAfterSuccesses | src/chen/observability/circuit_breaker.py:120-133 | it closes only by a reset or the last of enough successes with no failure between |
| CircuitBreaker.OpenClosesOnlyByReset | src/chen/observability/circuit_breaker.py:120-133 | late successes do not close an open breaker |
| CircuitBreaker.ProbesAreUnlimited | src/chen/observability/circuit_breaker.py:89-111 | a half-open breaker admits any number of overlapping calls |
| RateLimiter.NoWindowExceedsLimit | src/chen/server/auth.py:239-267 | in every run no closed 60-second window, wherever it lies, holds more accepted requests of a key than the largest limit the key was held to |
| RateLimiter.PrunedIsWindow | src/chen/server/auth.py:242-245 | pruning an ascending queue from the front leaves exactly the window |
| RateLimiter.KeysAreIndependent | src/chen/server/auth.py:239-267 | what a key is granted does not depend on other keys' requests |
| RateLimiter.SharesQueueIff | src/chen/server/auth.py:226-237 | two callers count together if and only if they have the same key, the same address, or a key spelt like the address |
| RateLimiter.WhoseLimit | src/chen/server/auth.py:232-237 | a key has its own limit unless that is 0, everyone else the default |
| RateLimiter.RefusedExactlyIfFull | src/chen/server/auth.py:239-266 | a request is refused exactly if the 60 seconds up to it hold as many accepted requests as the limit |
| RateLimiter.CallersAreIndependent | src/chen/server/auth.py:226-267 | a visit is let through exactly if it would be had only those who count together with the caller ever come |
| RateLimiter.RateLimitMiddleware.Prune | src/chen/server/auth.py:243-245 | the loop prunes |
| RateLimiter.RateLimitMiddleware.Call | src/chen/server/auth.py:216-267 | a request is passed on exactly if the full acceptance history leaves room in the window ending now, though the queue has forgotten most of it; the queue then is that window |
| EncryptedBlocks.PrintIffParse | src/chen/security/crypto.py:75-100 | a well-formed block is printed as exactly the bytes it is parsed from |
| EncryptedBlocks.ParsesExactly | src/chen/security/crypto.py:83-100 | which byte strings parse, and that the block's length is accounted for |
| EncryptedBlocks.ConstructChecks | src/chen/security/crypto.py:69-73 | a block is made exactly from a 12-byte nonce and a 16-byte tag, with the nonce looked at first |
| EncryptedBlocks.WireLayout | src/chen/security/crypto.py:75-81 | where each field lies in the wire form, and which key ids have none |
| EncryptedBlocks.WireFormIsInjective | src/chen/security/crypto.py:75-81 | no two well-formed blocks share a wire form |
| EncryptedBlocks.ExactCodecExists | src/chen/security/crypto.py:77-93 | the law relied on for text encoding can be met by a codec for all plain ASCII texts |
| Sessions.Encryptor.Encrypt | src/chen/security/crypto.py:122-157 | the block is the sealing under a freshly derived key, whatever was remembered, and well formed |
| Sessions.SealedOpens | src/chen/security/crypto.py:149-157 | cutting off the tag and joining it again loses nothing: a keyring that looks up the sealing key opens the block to the plaintext |
| Sessions.OpensExactlySealings | src/chen/security/crypto.py:233-257 | with a cipher that opens nothing but its own sealings a block opens to a plaintext if and only if it is that plaintext's sealing, and anything else is rejected |
| Sessions.FirstFailureDecides | src/chen/security/crypto.py:263-265 | several blocks open to their plaintexts or fail as the first that fails |
| Sessions.Decryptor.Decrypt | src/chen/security/crypto.py:224-257 | the result and the keyring afterwards, with an unknown id and a rejected block as errors |
| Sessions.Decryptor.DecryptStream | src/chen/security/crypto.py:263-265 | the joined plaintexts or the first failure; remembering keys on the way changes no later lookup |
| Sessions.FirstBindingDecides | src/chen/security/crypto.py:220-231 | over every run a session's blocks of an id are decrypted under the key registered when this was first done, and only before that under the one registered now |
| Sessions.MemoIsFreshUnlessRebound | src/chen/security/crypto.py:220-231 | while no id gets a second master key the memo equals fresh derivation |
| Sessions.RebindingIsIgnored | src/chen/security/crypto.py:220-231 | after rebinding, the memo is stale exactly if the session was decrypted before and the new key derives another session key |
| Sessions.LawfulCipherExists | src/chen/security/crypto.py:147-157 | the law relied on for sealing can be met |
| CrypticStreams.EncryptToStream | src/chen/security/stream.py:71-90 | the loop produces the declarative stream |
| CrypticStreams.StreamIter | src/chen/security/stream.py:140-159 | the generator yields the same chunks, indices and flags, except on a negative size |
| CrypticStreams.EncryptBlocks | src/chen/security/crypto.py:163-188 | the encryptor's own list is the stream's blocks, and empty for no bytes |
| CrypticStreams.StreamShape | src/chen/security/stream.py:78-90 | indices run from 0, only the final block is flagged, every block has the key's id, its own nonce and its chunk's size |
| CrypticStreams.BlockSizes | src/chen/security/stream.py:85-89 | the count is the least that has room, all blocks but the final one are full, and only no bytes make an empty one |
| CrypticStreams.WhichBlockSize | src/chen/security/stream.py:78 | a requested size is used as it is unless it is 0, and never is 0 used |
| CrypticStreams.ReorderedRoundTrip | src/chen/security/stream.py:93-101 | chunk, encrypt, reorder by any permutation, decrypt gives the original bytes if and only if the size is positive or there are no bytes |
| CrypticStreams.ListRoundTrip | src/chen/security/crypto.py:163-188 | the same for the encryptor's list kept in order |
| CrypticStreams.DecryptStream | src/chen/security/stream.py:93-101 | decryption in order of the indices |
| StreamWire.LengthRoundTrip | src/chen/security/stream.py:112-126 | a frame length and its four bytes determine each other |
| StreamWire.BigEndianValue | src/chen/security/stream.py:112 | the most significant byte of a length comes first |
| StreamWire.FrameLayout | src/chen/security/stream.py:109-115 | a frame is four bytes of length, the block, and a byte that is 1 for the last block; 4 GiB have no frame |
| StreamWire.SerializeStream | src/chen/security/stream.py:104-115 | the loop writes the frames one behind the other or stops at the first error |
| StreamWire.WritableIff | src/chen/security/stream.py:104-115 | a stream can be written if and only if each of its blocks can |
| StreamWire.DeserializeStream | src/chen/security/stream.py:118-137 | the offset loop reads exactly the complete frames |
| StreamWire.WholeIsMaximal | src/chen/security/stream.py:118-137 | the number of blocks read is the largest whose own wire form is no longer than what arrived |
| StreamWire.PrefixIsRead | src/chen/security/stream.py:109-137 | reading any byte prefix of a written stream gives exactly the blocks that lie inside it, renumbered, never part of one |
| StreamWire.BadBlockFails | src/chen/security/stream.py:118-137 | behind a written stream an incomplete frame is ignored and a complete one that does not parse makes reading fail |
| StreamWire.WireRoundTrip | src/chen/security/stream.py:104-137 | the whole string gives the whole stream, with the same indices exactly if they counted from 0 |
| StreamWire.ReadThenWrite | src/chen/security/stream.py:104-137 | bytes that are read without error are written again as they were if and only if they are complete frames with flag bytes 0 or 1 |
| StreamWire.InterruptedTransfer | src/chen/security/stream.py:71-137 | encrypt, write, cut anywhere, read, decrypt gives the data up to a block boundary, ending in a flagged block exactly if nothing was cut |
| StreamWire.ReorderedOnWire | src/chen/security/stream.py:104-137 | blocks of a stream picked in any order, written, read back and decrypted give their chunks in written order |
| StreamWire.SwappedChunks | src/chen/security/stream.py:104-137 | two full blocks written the wrong way round give the data only if they hold the same bytes |
| KeyStores.KeyStore.Activate | src/chen/security/keys.py:156-168 | the key becomes active and named, every other active key retired, nothing else changes; an unknown key is an error without effect |
| KeyStores.KeyStore.ListKeys | src/chen/security/keys.py:132-141 | every stored key once, in the order of the file names |
| KeyStores.ListingIsUnique | src/chen/security/keys.py:132-141 | the files determine the listing |
| KeyStores.OrderIsLexicographic | src/chen/security/keys.py:135 | the order of the listing: the lesser character where two names first differ, or the shorter name |
| KeyStores.EndingCounts | src/chen/security/keys.py:99-100 | file names are compared with their ending, so an id can come after one that it begins |
| KeyStores.KeyStore.Rotate | src/chen/security/keys.py:170-177 | a new key that names its predecessor is stored and activated |
| KeyStores.KeyStore.Revoke | src/chen/security/keys.py:179-186 | only the status changes; an unknown key is an error |
| KeyStores.KeyStore.GetActiveConfig | src/chen/security/keys.py:188-194 | the current key's configuration, or that of a new, activated key |
| KeyStores.KeyStore.GetDecryptorKeys | src/chen/security/keys.py:196-198 | the configurations of the stored keys that are not revoked, in listing order |
| KeyStores.UsableInOrder | src/chen/security/keys.py:196-198 | the decryption keys come in the order of the listing |
| KeyStores.NothingIsLost | src/chen/security/keys.py:106-118 | over every run with new ids no key is lost or bound to other bytes |
| KeyStores.DrawKeepsKeysIff | src/chen/security/keys.py:106-118 | a draw keeps every stored key if and only if its id is new or it repeats the key |
| KeyStores.ActiveIdNeverDangles | src/chen/security/keys.py:143-168 | over every run files are named after their keys and the active file names a stored key |
| KeyStores.OneActive | src/chen/security/keys.py:156-168 | right after activation exactly one key is active and the active file names it |
| KeyStores.OneActiveAfterRotation | src/chen/security/keys.py:170-177 | the same after a rotation, whose key is new and names the one replaced |
| KeyStores.ActiveKeysExplained | src/chen/security/keys.py:106-186 | in every run the active keys are exactly those generated but not activated since the last activation, and the named one unless revoked |
| KeyStores.RevokingRevokes | src/chen/security/keys.py:179-186 | a revoked key is revoked whatever it was before, its file otherwise and all other files are kept |
| KeyStores.RevocationHolds | src/chen/security/keys.py:156-186 | a revoked key stays revoked until it is activated by name |
| KeyStores.ActivatingUndoesRevocation | src/chen/security/keys.py:156-168 | activating a revoked key by name makes it the active one again |
| KeyStores.BlocksStayReadable | src/chen/security/keys.py:196-198 | a block made under a stored key decrypts after any further run, with the store's decryption keys, if and only if the key is not revoked by then |
| KeyStores.RevokedBlocksAreRefused | src/chen/security/keys.py:179-198 | a revoked key's blocks are refused after any further run in which nobody activates it by name |
| KeyStores.ServedConfigReadable | src/chen/security/keys.py:188-198 | revoking the active key does not stop it being served; what is encrypted under the served key is readable with the store's keys exactly if it is not revoked |
| AuditLogs.AuditLog.Record | src/chen/observability/audit.py:127-170 | everything written earlier stays and the next entry is added behind it |
| AuditLogs.AuditLog.ReadLastEntry | src/chen/observability/audit.py:110-125 | the last non-blank line's entry, if it parses |
| AuditLogs.AuditLog.Verify | src/chen/observability/audit.py:172-228 | True exactly for the declarative chain: numbers are positions, links and hashes recompute |
| AuditLogs.BlankLinesDoNotCount | src/chen/observability/audit.py:184-188 | blank lines change neither the entries nor the last one |
| AuditLogs.PrefixIsIntact | src/chen/observability/audit.py:172-228 | every prefix of a log that verifies verifies |
| AuditLogs.RecordKeepsVerdict | src/chen/observability/audit.py:145-162 | recording preserves the verdict in both directions and adds exactly its entry |
| AuditLogs.WrittenIsIntact | src/chen/observability/audit.py:127-228 | a log only this program wrote verifies and tells every event, once and in order |
| AuditLogs.SharedHashSharesHistory | src/chen/observability/audit.py:70-76 | chains with an entry hash in common have it at the same place and agree on everything before |
| AuditLogs.SameLastHashSameLog | src/chen/observability/audit.py:182-228 | two logs that verify and end in the same hash hold the same entries |
| AuditLogs.TamperingUnnoticedIff | src/chen/observability/audit.py:182-228 | exchanging one entry goes unnoticed if and only if it is the last and the new one has its number, link and own hash |
| AuditLogs.DeletionUnnoticedIff | src/chen/observability/audit.py:182-228 | taking an entry out goes unnoticed if and only if it is the last |
| AuditLogs.ChangedLineIsNoticed | src/chen/observability/audit.py:182-228 | a line overwritten with another entry, or blanked out, is noticed while a later line still holds one |
| AuditFormats.LawfulFormatExists | src/chen/observability/audit.py:70-85 | printing, parsing and an injective digest with all the laws exist |
| Routers.RouteLogistic | src/chen/core/router.py:246-297 | the loop over the pool and the list surgery compute the declarative route |
| Routers.RouteCosine | src/chen/core/router.py:403-444 | the same for the cosine router, which filters after the cap |
| Routers.RouteHybrid | src/chen/core/router.py:481-516 | the same for the hybrid router, for some order of the union set |
| Routers.RoleBestIsBest | src/chen/core/router.py:250-258 | one candidate for every role of the pool, and none of its role scores more |
| Routers.RoleBestIsFirst | src/chen/core/router.py:257-258 | of equally good experts of a role the first is taken |
| Routers.LogisticTopIs | src/chen/core/router.py:250-264 | the ranking holds experts over the threshold only, best first, and is empty exactly if nobody reaches it |
| Routers.LogisticPickIs | src/chen/core/router.py:265-277 | what is picked is the front of the ranking, or the fallback where nobody reaches the threshold |
| Routers.CosinePickIs | src/chen/core/router.py:419-430 | what is picked is the front of the ranking and reaches the threshold as long as anyone does; else it is the best, or the fallback without a minimum |
| Routers.FirstWithRoleIsFirst | src/chen/core/router.py:272-286 | the expert fallen back on or appended is the first in the pool that will do |
| Routers.LogisticPicksTheBest | src/chen/core/router.py:260-269 | an expert over the threshold is passed over only for a better one of its role, because the cap is used up by better ones, or because fewer than the minimum were left and only the best was kept |
| Routers.CosinePicksTheBest | src/chen/core/router.py:419-423 | an expert over the threshold is passed over only because the cap is used up by better ones, so filtering after the cap loses nobody, or because fewer than the minimum were left and only the best was kept |
| Routers.FinishedContents | src/chen/core/router.py:279-297 | what appending, moving and capping leave of a selection |
| Routers.FinishedEndsInForcedIff | src/chen/core/router.py:279-297 | the result ends in the forced role if and only if the selection had it or a slot was free |
| Routers.LogisticRouteIs | src/chen/core/router.py:246-297 | on a non-empty pool: at least one name, names of the pool, none twice, none over the cap, and exactly when the forced role is last |
| Routers.CosineRouteIs | src/chen/core/router.py:403-444 | the same for the cosine router |
| Routers.SynthesizerIsCutOff | src/chen/core/router.py:279-297 | a pool, settings and scores with a synthesizer in the pool for which the logistic and the cosine router both return the analyst alone |
| Routers.HybridRouteIs | src/chen/core/router.py:481-516 | the same for the hybrid router, which always ends in the forced role if the pool has it, for every order of the union set |
| Routers.HybridRouteContents | src/chen/core/router.py:481-516 | the hybrid route has as many names as the cap allows of both routes' and the reserved one; only a used-up cap keeps anyone out, and the logistic names come first in their order |
| Routers.HybridLastIs | src/chen/core/router.py:496-512 | whom the last place is reserved for: the first of the forced role in the logistic route, else one in the union, else the first in the pool |
| EndToEnd.RoutedRun | src/chen/phases/phase3_routing.py:74-95 | a run over a router's selection finds all its experts, and the last answer is recorded for the role the selection ends in |
| EndToEnd.HybridRunEndsInForced | src/chen/phases/phase3_routing.py:67-196 | with the hybrid router the forced role has the last word in every finished run |
| EndToEnd.StreamsSurviveRotation | src/chen/security/keys.py:170-198 | a stream under a stored key, reordered and kept over any further key-store run, decrypts if and only if its key is not revoked |
| Sorting.SortRestores | src/chen/security/stream.py:99-100 | sorting by strictly increasing keys undoes any permutation |
| Sorting.SortIsStable | src/chen/core/memory.py:183 | equal keys keep their order |

## Left out

- Backends: model loading, tokenizers, GPU memory, ctypes and the vLLM and llama.cpp internals are foreign; each backend is a set of functions, so it answers the same question the same way twice.
- Floating point: tensors, scores, costs and clocks are real numbers; float16 and float32 conversion and rounding are not modelled.
- Timing: only the readings around the invocation whose record is kept are parameters; those of a discarded attempt are not.
- Memory in `Handoff`: the log of notes and an arbitrary retrieval function of it stand for the store, whose own behaviour is modelled in `SharedMemory`.
- SharedMemory.InMemoryMemory.Write: entries are values held by list and index alike, so a caller who keeps and changes an entry object afterwards is not modelled; embeddings and timestamps of entries are left out.
- SharedMemory.InMemoryMemory.Retrieve: similarity is an arbitrary function of the text.
- RateLimiter.RateLimitMiddleware.Call: responses and non-HTTP scopes are left out; each request is one atomic step since nothing is awaited between pruning and appending.
- CircuitBreaker: each locked method is one step; the lock itself, the registry and the status dictionary are left out.
- Cipher strength, nonce uniqueness and key secrecy; nonces are parameters.
- CrypticStreams: the loop body shared by the two stream functions is one method here, and the generator's laziness is not modelled.
- StreamWire.DeserializeStream: one round of the loop is a method of its own.
- StreamWire.SerializeStream: an oversized frame is an error at 4 GiB as in `struct.pack`; memory limits are not modelled.
- KeyStores: file permissions and crashes between two writes of one operation.
- AuditLogs: lines end in a newline and one process writes at a time; JSON values of unexpected types are left out.
- KeyStores: key files that something else made unreadable, which listing skips and loading raises on.
- Experts.Invoke: encoding, decoding and generating either raise or return what their type says.
- Routers: scores are arbitrary; features, weights, sigmoids, embeddings and prototype registration are left out, and expert names are unique in the laws.
- The Hugging Face `_normalize_shape`: its transposition does not give the documented shape, so nothing is claimed about it.
- `EncryptedBackend`: its caches remember ciphertext, which breaks the hand-off contract.
- HTTP routes, command line, server-sent events, logging, metrics export, tracing, SQL stores, carbon scheduling, KPI verdicts and settings: plumbing or single-branch arithmetic.
