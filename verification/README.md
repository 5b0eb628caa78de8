# Verification models of the annotation service's hard cores

A Dafny model of the parts of the service whose correctness is not visible from
any one function, with proofs. `dafny verify dfyconfig.toml` checks everything.

| file | what it models |
|---|---|
| `Hashing.dfy` | digests, hash inputs, "or here is a collision" |
| `MerkleTree.dfy`, `MerkleLevels.dfy` | RFC 9162 tree hash, inclusion and consistency proofs, built top-down; the same tree seen level by level |
| `MerkleInclusion.dfy`, `MerkleConsistency.dfy` | the two bottom-up verification loops, their completeness and soundness |
| `AuditChain.dfy`, `AuditFaults.dfy` | what the audit chain report accepts, and what it therefore binds; what it says about the rest |
| `AuditLog.dfy`, `AuditProofs.dfy`, `AuditCalls.dfy` | the log over time, with checkpoint calls query by query; the proof bundles; what checkpoint calls do |
| `Outbox.dfy`, `OutboxRetries.dfy`, `OutboxTable.dfy`, `OutboxRefinement.dfy` | the outbox as a protocol between workers, its retries, the outbox as loops over a table, and why this is an instance of the protocol |
| `CircuitBreaker.dfy` | the local circuit breaker under all interleavings of calls |
| `FinOps.dfy` | AI budgets: ledger, cached counters, admission, alerts |
| `Uncertainty.dfy`, `Convergence.dfy`, `DomainPolicies.dfy` | threshold calibration of one domain, and choice distributions; what its repetition comes to; all domains |
| `Calibration.dfy`, `Consensus.dfy` | annotator weights and weighted consensus |
| `Throttle.dfy` | the sliding-window request limiter |
| `Arithmetic.dfy`, `Sequences.dfy`, `Wrappers.dfy` | small arithmetic and decimal rounding, ties to even; sequences; options and results |

Objects that the source updates in place are classes here; each of their methods
is proved equal to a function of the old state, and the theorems are about all
sequences of such steps. Hashes are an arbitrary function `sha` about which nothing
is assumed: where a property rests on collision resistance, the conclusion offers
two different inputs with one digest, out of an explicit finite set of inputs that
the computations at hand really hash. Floats are exact reals, with the source's
rounding to decimals written out.

## Where the code and its documentation differ

Each of these is a property that the code does not have on all runs, with a run or an
input that shows it and the exact condition under which it does hold.

- A verification reads entries and checkpoints in two queries. If a checkpoint of newer
  entries is committed between them, a checkpoint call is refused, and a sweep reports
  tampering, although the chain is sound (`SoundChainRefused`). Over sound chains that is
  all that can go wrong: a verification never blames an entry, and it says "invalid" exactly
  when a checkpoint that its second query reads covers more entries than its first one read
  (`VerificationExact`, `RefusedExactly`). That cannot happen if a tenant's checkpoint calls
  do not overlap (`SerialCallsSucceed`).
- Deleting a user clears a hashed column of the sealed rows that name the user, so the
  tenant's report is invalid from then on exactly if there is such a row
  (`UserDeletionExact`); in general it stays valid exactly if every hashed column reads back
  as it was hashed (`ReadBackExact`), which also decides for rewritten IPv6 addresses and
  JSON numbers.
- An inclusion bundle that passes offline shows an entry of the log (`OfflineBinding`),
  but not its index: nothing ties the claimed tree size to the checkpoint, so the third
  of three entries passes as number two of two (`WrongIndexPasses`). The index is right
  exactly when it is one less than the number sealed into the entry (`OfflineIndex`).
- The circuit breaker promises one recovery probe at a time. It admits one per half-open
  episode (`SingleFlight`), but the failure of an older call can end an episode while its
  probe is in flight, so two probes can overlap (`TwoProbesInFlight`): exactly when a call
  starts on a circuit that is ready for a probe while one is in flight (`OneProbeExactly`).
  That cannot happen if no probe outlives the recovery timeout (`OneProbeInFlight`).
- A probe that ends in an exception which is not an `Exception` is not recorded
  (`ProbeCanBeLost`). It stays registered until some call is recorded or the circuit is
  reset (`RegisteredUntilRecorded`), and as long as it does, and only then, no waiting gets
  a call admitted (`BlockedExactly`).
- The outbox's ten-attempt limit counts only attempts that end in an error. An event
  whose workers die is reclaimed without limit (`CrashesEscapeTheLimit`).
- Settlement and replay do not check who holds a row. A lease that runs out under its
  holder (`LateHolderSharesEvent`) and a second replay of a dead letter while the first is
  being processed (`ReplaysShareEvent`) both give an event two holders. Claims stay
  exclusive exactly as long as neither happens (`LeasesExactly`).
- Checkpoint calls verify before they take their lock, so overlapping calls can commit
  shrinking coverage (`OvertakingShrinksCoverage`). A consistency bundle between two
  checkpoints verifies if and only if coverage did not shrink between them
  (`ConsistencyBundlesVerify`).
- Recordings of AI spend take no lock. Two that overlap right after the turn of a month
  leave a counter that lags behind the ledger (`OverlapSpoilsCounter`), and the overspend
  bound is exceeded by what it lags (`DriftAddsToOverspend`, `OverspendPossible`). Counters
  always agree with the ledger exactly when no recording writes totals that another one of
  its month has overtaken, or relies on a counter that is gone (`CountersAgree`); a call
  is admitted in an exhausted month exactly when both counters are cached and too low
  (`AdmittedTooLate`). That no recording starts with a counter missing while another is
  unfinished would not be enough (`MissingCounterAloneIsNotEnough`); what callers can keep
  to is in `OrderlyRunsAreSound`.
- The "budget exceeded" alert compares a percentage rounded to two decimals, so it can
  be sent while calls are still admitted (`ExceededAlertCanBeEarly`); when exactly is
  `AlertsExactly`.
- Calibration need not settle. It moves every threshold in range, for ever, exactly when
  even the highest one that predicts every scored split is raised (`NoneKeptExactly`; ten
  tasks in `NeverSettles`). From every threshold in range it settles if nothing raises the
  lower end, as at every split rate above 0.10 (`Converges`), if no scored split is below the
  upper end and fewer than 35 percent are splits (`ConvergesUp`), and, away from the ends, if
  nothing calls for a change in the hundredth below the lowest score of a split
  (`ConvergesBetween`). A hundredth less one ten-thousandth is not enough
  (`AlmostCalmCycles`); in a narrower range than that, whether it settles depends on where it
  starts and on the other scores. A pinned threshold below 0.45 with auto-calibration on is
  moved up, not down, by its first change (`ConvergesFromAnywhere`).

## Model

| member | source | states |
|---|---|---|
| MerkleTree.SplitPointExact | apps/core/merkle.py:48-52 | the split is the one power of two that is below the length and whose double is not |
| MerkleTree.SplitPointHalves | apps/core/merkle.py:48-52 | halving a level halves its split point: the link between top-down recursion and bottom-up bit shifts |
| MerkleTree.RootBinding | apps/core/merkle.py:23-65 | equal roots mean equal leaf lists of whatever lengths, or the two root computations collide |
| MerkleLevels.RootOfPairs | apps/core/merkle.py:55-65 | the top-down root of a level of nodes is the root of the level above it |
| MerkleLevels.PathOfPairs | apps/core/merkle.py:68-87 | a built path is the node's sibling, if it has one, followed by the path of its parent |
| MerkleLevels.SubproofOfPairs | apps/core/merkle.py:154-172 | a consistency proof for an even prefix is the proof one level up |
| MerkleLevels.OddSubproof | apps/core/merkle.py:154-172 | a consistency proof for an odd prefix is its last leaf hash and that leaf's inclusion path |
| MerkleInclusion.VerifyInclusionPath | apps/core/merkle.py:90-151 | the shifting loop with its early exits computes the level-by-level ascent, with the same verdict and reasons |
| MerkleInclusion.InclusionComplete | apps/core/merkle.py:68-144 | a path is built exactly for the indices of the list, is accepted, and has at most ceil(log2 n) digests |
| MerkleInclusion.InclusionReasons | apps/core/merkle.py:122-151 | what each reason means: length mismatch and malformed digest are reported exactly when the path differs in length from the built one or is malformed before its end |
| MerkleInclusion.VerdictCases | apps/core/merkle.py:99-118 | when bounds and leaf are refused; otherwise the leaf hash is the root of the tree with only this leaf |
| MerkleInclusion.InclusionSound | apps/core/merkle.py:90-151 | an accepted proof names the leaf that is there and equals the built path digest for digest, or a collision |
| MerkleInclusion.InclusionFindsLeaf | apps/core/merkle.py:90-151 | an accepted proof against the root of a list names one of its leaves, whatever index and size it claims, unless inputs collide |
| MerkleInclusion.WrongIndexAccepted | apps/core/merkle.py:118-151 | the third of three leaves is accepted as the second of two |
| MerkleConsistency.VerifyConsistencyProof | apps/core/merkle.py:190-268 | the two-sided shifting loop computes the two-sided climb, with the same report and recomputed roots in every branch |
| MerkleConsistency.AndTestsPowerOfTwo | apps/core/merkle.py:224-227 | the bit test holds exactly for powers of two |
| MerkleConsistency.ConsistencyComplete | apps/core/merkle.py:154-268 | a proof is built exactly for the prefix sizes and is always accepted, also when the old root is prepended |
| MerkleConsistency.EdgeFaults | apps/core/merkle.py:202-222 | exactly when sizes out of order, an empty old tree, equal sizes and an empty path are refused |
| MerkleConsistency.ConsistencyFaults | apps/core/merkle.py:224-268 | between proper sizes: what each fault means, by the built proof's length, malformed nodes and the recomputed roots |
| MerkleConsistency.ConsistencySound | apps/core/merkle.py:190-268 | an accepted proof shows that the first root is the root of the prefix, and is itself the built proof, or a collision |
| AuditChain.ScanEntries | apps/core/audit_chain.py:780-810 | the entry loop computes violations, hash table, head and maximum of the log |
| AuditChain.ScanCheckpoints | apps/core/audit_chain.py:824-898 | the checkpoint loop computes the checkpoint violations, or stops where a stored hash is no digest |
| AuditChain.VerifyOrganizationAuditChain | apps/core/audit_chain.py:745-945 | the whole verification computes the report |
| AuditChain.EntryScanExact | apps/core/audit_chain.py:780-810 | no entry violations exactly for logs numbered from one, linked, and correctly hashed |
| AuditChain.SignatureCheckExact | apps/core/audit_chain.py:496-534 | the asymmetric check is silent exactly if the key accepts a signature that is there, by an algorithm and fingerprint of its own; and what each finding means |
| AuditChain.AsymmetricCheckExact | apps/core/audit_chain.py:851-864 | a checkpoint passes exactly with a signature that the key in force accepts, or if it claims none |
| AuditFaults.ViolationsExact | apps/core/audit_chain.py:781-810 | for any log: in order, one violation for each entry that does not follow on its predecessor or carry its own hash, saying exactly what is wrong |
| AuditFaults.CheckpointViolationsExact | apps/core/audit_chain.py:828-898 | over a sealed log: in order, one violation for each checkpoint that does not follow on, is not signed as it must be or is wrong about the log, with each reason's meaning |
| AuditChain.AnchorChecksExact | apps/core/audit_chain.py:866-885 | anchor and Merkle checks pass exactly when the checkpoint covers a prefix and names its head hash and root |
| AuditChain.ReportExact | apps/core/audit_chain.py:780-905 | the report is valid exactly for sealed logs with sealed checkpoints, which carry signatures that the key in force accepts |
| AuditChain.ReportContents | apps/core/audit_chain.py:900-945 | a valid report gives the log's length, head hash and Merkle root and the number of its checkpoints, and no corruption |
| AuditChain.FirstCorruption | apps/core/audit_chain.py:781-803 | the first corruption of an invalid report is the first entry of the log that is not sealed |
| AuditChain.ChainTamperEvidence | apps/core/audit_chain.py:147-170 | two clean logs with one head hash are equal in length and every field, or a collision |
| AuditChain.CheckpointBinding | apps/core/audit_chain.py:780-905 | while reports that list a checkpoint are valid, the prefix it covered is still a prefix of the log, or a collision |
| AuditLog.AuditStore.SealAndInsert | apps/core/audit_chain.py:714-742 | appends the sealed successor of the scope's head, and nothing else |
| AuditChain.ReadBackExact | apps/core/audit_chain.py:147-170 | a sound log whose columns come back changed is valid exactly if every hashed column of every row comes back as it was, or a collision |
| AuditLog.AuditStore.ReadEntries | apps/core/audit_chain.py:764-765 | the first query of a verification: the tenant's entries by number |
| AuditLog.AuditStore.ReadCheckpoints | apps/core/audit_chain.py:766-945 | the second query and the verification of what was read: the report on those entries and the checkpoints stored now |
| AuditLog.AuditStore.BeginCheckpoint | apps/core/audit_chain.py:959-968 | the first half of a checkpoint call that nothing interrupts: refused for an invalid or unreadable chain, nothing for an empty one unless forced, else the report |
| AuditLog.AuditStore.CommitCheckpoint | apps/core/audit_chain.py:977-1118 | the second half: keeps the latest checkpoint if it already says the same, else appends its successor |
| AuditLog.OrderBySorts | apps/core/audit_chain.py:764-770 | ordered queries return all rows in the order of their keys |
| AuditLog.SealExtends | apps/core/audit_chain.py:714-742 | an insert keeps its chain sealed |
| AuditLog.CommitKeepsGood | apps/core/audit_chain.py:977-1118 | committing even a stale report keeps all checkpoints sealed |
| AuditLog.RunSafety | apps/core/audit_chain.py:714-1118 | after every interleaving of inserts of all tenants and the queries and commits of checkpoint calls, every tenant's stored chain is sound: a verification that reads it at one instant is valid and counts its rows |
| AuditLog.TornReport | apps/core/audit_chain.py:764-905 | a report on the beginning of a sealed chain and all its checkpoints never raises, blames no entry, is valid exactly if no checkpoint covers more, and then describes a prefix |
| AuditLog.VerificationExact | apps/core/audit_chain.py:759-905 | in every run, with any steps between the two queries: the same, as the exact condition for a sound chain to be called valid |
| AuditLog.RefusedExactly | apps/core/audit_chain.py:959-968 | in every reachable state a checkpoint call is refused exactly if by its second query a checkpoint covers more than its first one read |
| AuditLog.UserDeletionExact | apps/core/models.py:371-376 | in every reachable state, after a user is deleted the tenant's report is valid exactly if no entry names that user, or a collision |
| AuditProofs.OfflineExact | apps/core/audit_chain.py:1194-1259 | a bundle passes exactly if its claimed hash is its document's, its path leads to its root, and a checkpoint with a signature carries its own hash and the key accepts the signature over it |
| AuditProofs.CheckpointOfflineExact | apps/core/audit_chain.py:537-585 | a checkpoint passes with nothing but a public key exactly if its hash is its own and the key accepts its signature over it |
| AuditProofs.SignedBundlesBind | apps/core/audit_chain.py:1194-1259 | with nothing trusted but a key that only accepts signatures over checkpoints of the system, a signed bundle from any source that passes carries one of them and shows an entry that it covers, or a collision |
| AuditProofs.PickExactly | apps/core/audit_chain.py:1277-1304 | the checkpoint asked for, if it is there and covers the entry, or else the last one in number order that does |
| AuditProofs.InclusionBundleCases | apps/core/audit_chain.py:1262-1354 | for rows and checkpoints in any state, if the stored hashes are digests: why a bundle is refused, and what it contains otherwise |
| AuditProofs.ConsistencyBundleCases | apps/core/audit_chain.py:1357-1392 | for checkpoints in any state: exactly when none is there, one asked for is missing, or the order is wrong |
| AuditProofs.BetweenCases | apps/core/audit_chain.py:1386-1420 | for rows in any state, if the stored hashes are digests: why a bundle between two checkpoints is refused, and its sizes, roots, path and report otherwise |
| AuditProofs.InclusionBundlesVerify | apps/core/audit_chain.py:1262-1354 | in every reachable state, and with rows added between its queries, the bundle of every covered entry is built and passes the offline verifier |
| AuditProofs.OfflineBinding | apps/core/audit_chain.py:1194-1259 | a bundle from any source that passes offline against the root of a sealed log's first entries carries the document and the claimed hash, in whichever of its two places, of one of these entries, whatever size and index it claims, or a collision |
| AuditProofs.OfflineIndex | apps/core/audit_chain.py:1231-1243 | its claimed index is right exactly when it is one less than the entry's sealed number, and whenever the claimed size is the covered count |
| AuditProofs.WrongIndexPasses | apps/core/audit_chain.py:1231-1243 | with a genuine checkpoint of three entries the third passes as number two of two |
| AuditProofs.ConsistencyBundlesVerify | apps/core/audit_chain.py:1357-1410 | in every reachable state, and with rows added between its queries, the bundle between two checkpoints in order, by default the first and the last one, has their sizes and roots and the built path and verifies if and only if coverage did not shrink |
| AuditCalls.StoredCheckpointsSay | apps/core/audit_chain.py:965-1118 | in every reachable state a stored checkpoint says exactly how many entries it covers, their head hash, their manifest and their root |
| AuditCalls.CommitExactly | apps/core/audit_chain.py:977-1118 | in every reachable state a commit that can go on adds the next checkpoint exactly if it is forced, there is none, or the last one covers another number of entries |
| AuditCalls.CallExactly | apps/core/audit_chain.py:948-1138 | a call that nothing interrupts adds one checkpoint of all entries exactly if it is forced, or there are entries that the last checkpoint does not cover just so; otherwise it changes nothing |
| AuditCalls.CallTwice | apps/core/audit_chain.py:992-998 | repeating an unforced call changes nothing |
| AuditCalls.SerialCoverageRises | apps/core/audit_chain.py:948-1138 | calls of a tenant that neither overlap nor are forced leave strictly rising coverage |
| AuditCalls.SerialBundlesVerify | apps/core/audit_chain.py:948-1138 | without overlapping checkpoint calls of a tenant all its consistency bundles verify |
| AuditCalls.SerialCallsSucceed | apps/core/audit_chain.py:948-968 | without overlapping checkpoint calls of a tenant none of them is refused |
| AuditCalls.SoundChainRefused | apps/core/audit_chain.py:761-968 | a call whose queries another one's commit comes between is refused although the chain is sound |
| AuditCalls.OvertakingShrinksCoverage | apps/core/audit_chain.py:959-1000 | two overlapping calls that commit in the opposite order shrink coverage |
| Outbox.Backoff | apps/core/outbox.py:169-172 | retry delays are between ten seconds and five minutes, and five minutes from the sixth attempt |
| Outbox.BackoffDoubles | apps/core/outbox.py:169-172 | they start at ten seconds and double until they would exceed five minutes |
| Outbox.AtLeastOnce | apps/core/outbox.py:83-182 | over every interleaving an event is dispatched or gone only if a dispatch call for it returned normally |
| Outbox.OnlyDispatchedRowsLeave | apps/core/outbox.py:253-270 | over every interleaving a committed event leaves the table only by a pruning step, when it was dispatched and delivered, and after a step that selected it for having been dispatched by the cutoff |
| Outbox.OwnershipLostExactly | apps/core/outbox.py:83-111 | a step takes a row from its live holder exactly if it reclaims a lease that ran out under it or replays the event |
| Outbox.SecondHolderExactly | apps/core/outbox.py:88-111 | an event gets a second live holder exactly when it is claimed while it has one |
| Outbox.LeasesExactly | apps/core/outbox.py:83-218 | over whole runs live claims own their rows, exclusively, if and only if no such step occurs |
| Outbox.CarefulRunsAreDisciplined | apps/core/outbox.py:83-218 | no such step occurs if holders settle or die within their lease and no event is replayed while it is being processed |
| Outbox.LeasesAndRetries | apps/core/outbox.py:83-175 | in runs without such steps no event has two live holders, and attempts exceed ten only by claims lost in crashes |
| Outbox.CrashFreeRetries | apps/core/outbox.py:155-214 | in runs without such steps and without crashes: at most ten attempts, pending after at most nine, failed after exactly ten, settled within ten claims of the last replay |
| Outbox.LateHolderSharesEvent | apps/core/outbox.py:83-111 | a holder that outlives its lease shares its event with the next one |
| Outbox.ReplaysShareEvent | apps/core/outbox.py:192-216 | two replays of one dead letter, each with a load of its own from before the first took effect, give it two holders well within their leases |
| Outbox.CrashesEscapeTheLimit | apps/core/outbox.py:83-111 | any number of lost claims leaves an event pending |
| OutboxRetries.FailedAttemptWaits | apps/core/outbox.py:88-175 | until the delay of a failed attempt is over, whatever else happens, the event is pending, unheld and not claimed again, unless it is replayed |
| OutboxRetries.UnsupportedNeverDispatched | apps/core/outbox.py:133-151 | in every run an event of a topic without dispatcher is never delivered nor marked as dispatched |
| OutboxTable.OutboxTable.EnqueueEvent | apps/core/outbox.py:46-70 | appends a pending row, except for webhook events without organization |
| OutboxTable.OutboxTable.DrainBatch | apps/core/outbox.py:73-189 | claims the oldest due events up to the batch size, all if they fit, settles each by its dispatch, leaves the others, and counts correctly |
| OutboxTable.OutboxTable.ReplayDeadLetter | apps/core/outbox.py:192-218 | re-arms a row exactly if it was loaded as failed and still exists |
| OutboxTable.OutboxTable.DeleteDispatched | apps/core/outbox.py:264-268 | deletes of the selected rows those that are still dispatched |
| OutboxTable.OutboxTable.PruneHistory | apps/core/outbox.py:253-270 | deletes only rows dispatched by the cutoff, oldest first, within the chunk limit, and all of them if the limit is not reached; every other row stays as it was |
| OutboxTable.ClaimableFacts | apps/core/outbox.py:83-102 | the claimable events are, once each, those due now or with a lease that has run out |
| OutboxTable.OldestClaimed | apps/core/outbox.py:95-102 | of two claimable events a pass without room for both claims the one created first |
| OutboxRefinement.DrainBatchIsARun | apps/core/outbox.py:73-189 | from every reachable state the table after a relay pass is the one after some protocol steps, so the protocol's theorems apply to it |
| CircuitBreaker.CircuitBreaker.RefreshState | apps/ai_assist/circuit_breaker.py:80-89 | an open circuit turns half-open once the timeout has passed |
| CircuitBreaker.CircuitBreaker.Admit | apps/ai_assist/circuit_breaker.py:139-151 | the locked admission of a call |
| CircuitBreaker.CircuitBreaker.OnSuccess | apps/ai_assist/circuit_breaker.py:161-167 | closes the circuit and clears the counter |
| CircuitBreaker.CircuitBreaker.OnFailure | apps/ai_assist/circuit_breaker.py:175-191 | counts the failure and opens the circuit if it must |
| CircuitBreaker.CircuitBreaker.Reset | apps/ai_assist/circuit_breaker.py:205-211 | back to the initial state |
| CircuitBreaker.CounterMeaning | apps/ai_assist/circuit_breaker.py:161-191 | in every state the counter is the number of failures since the last success or reset, and a closed circuit is below its threshold |
| CircuitBreaker.OpensExactly | apps/ai_assist/circuit_breaker.py:175-191 | a closed circuit opens exactly on a failed probe or when the failures since the last success or reset reach the threshold |
| CircuitBreaker.OpenAdmitsAfterTimeout | apps/ai_assist/circuit_breaker.py:80-151 | an open circuit admits a call, as its probe, exactly when the timeout has passed since the last failure |
| CircuitBreaker.SingleFlight | apps/ai_assist/circuit_breaker.py:139-151 | under every interleaving at most one call is admitted per half-open episode |
| CircuitBreaker.ProbeSpacing | apps/ai_assist/circuit_breaker.py:80-191 | two probes are admitted at least a recovery timeout apart |
| CircuitBreaker.SecondProbeExactly | apps/ai_assist/circuit_breaker.py:139-151 | a second probe joins the first exactly when a call starts on a circuit that is ready for a probe while one is in flight |
| CircuitBreaker.OneProbeExactly | apps/ai_assist/circuit_breaker.py:139-191 | over whole runs at most one probe is in flight if and only if no call starts like that |
| CircuitBreaker.OneProbeInFlight | apps/ai_assist/circuit_breaker.py:139-191 | at most one probe is in flight as long as none is older than the recovery timeout |
| CircuitBreaker.TwoProbesInFlight | apps/ai_assist/circuit_breaker.py:175-191 | otherwise two can be, after the failure of an older call |
| CircuitBreaker.RegisteredUntilRecorded | apps/ai_assist/circuit_breaker.py:153-211 | an admitted probe stays registered, and the circuit half-open, until a call is recorded or the circuit is reset, even if the probe is cut off |
| CircuitBreaker.BlockedExactly | apps/ai_assist/circuit_breaker.py:80-159 | in every reachable state no waiting and no attempts get a call admitted if and only if the circuit is half-open with a probe registered |
| CircuitBreaker.ProbeCanBeLost | apps/ai_assist/circuit_breaker.py:153-159 | such a state with no call left that could end it is reachable |
| FinOps.ResolveBudgets | apps/core/finops.py:69-90 | a positive custom ceiling wins, then the plan's, then the default; ceilings are positive and in matching units, and the alert mark is kept between 1 and 100 percent |
| FinOps.OrganizationFinOps.MonthlyBurn | apps/core/finops.py:124-158 | reports the ledger's totals, whichever counters are cached, and caches both |
| FinOps.OrganizationFinOps.Enforce | apps/core/finops.py:173-202 | refuses exactly when a ledger total has reached its ceiling, tokens first |
| FinOps.OrganizationFinOps.Increment | apps/core/finops.py:161-170 | adds to a cached counter, or seeds a missing one |
| FinOps.OrganizationFinOps.BeginRecording | apps/core/finops.py:238-260 | the reads of a recording: both counters, and the ledger's totals with its row if one is missing |
| FinOps.OrganizationFinOps.PublishRecording | apps/core/finops.py:261-266 | the writes of a recording, whatever has happened since its reads |
| FinOps.OrganizationFinOps.Book | apps/core/finops.py:238-266 | a recording that nothing interrupts: one ledger row, and counters that agree with the ledger |
| FinOps.OrganizationFinOps.Record | apps/core/finops.py:220-299 | books a call and sends each alert at most once a month, the first time it is called for |
| FinOps.BurnExactly | apps/core/finops.py:124-158 | a burn read, whatever the counters say: keeps the cached ones, adds the ledger's totals for the others, and reports the counters or never less than the ledger |
| FinOps.AgreementKept | apps/core/finops.py:124-170 | reads, and recordings that nothing interrupts, keep cached counters equal to the ledger's totals |
| FinOps.PublishExactly | apps/core/finops.py:250-266 | the writes of a recording keep the agreement exactly if its totals were not overtaken and no counter it increments is gone |
| FinOps.CountersAgree | apps/core/finops.py:124-266 | over every interleaving of calls, overlapping recordings, evictions and month ends, counters always agree with the ledger if and only if no recording writes what is wrong by then |
| FinOps.OrderlyRunsAreSound | apps/core/finops.py:124-266 | that is so if recordings that find a counter missing overlap no other one of their month and counters are evicted only between recordings |
| FinOps.AdmittedTooLate | apps/core/finops.py:132-188 | a call is admitted in an exhausted month exactly when both counters are cached and below their ceilings |
| FinOps.OverspendBound | apps/core/finops.py:173-266 | with at most k calls in flight of at most C each and no call admitted in an exhausted month, no month's total exceeds budget - 1 + k * C, for tokens and for cost |
| FinOps.SoundOverspendBound | apps/core/finops.py:173-266 | the bound holds in all runs in which no recording writes what is wrong by then |
| FinOps.DriftAddsToOverspend | apps/core/finops.py:173-266 | from a counter that lags behind by d, further calls take the total to exactly budget - 1 + k * C + d |
| FinOps.BoundReached | apps/core/finops.py:173-266 | the bound is reached by a run without wrong writes |
| FinOps.OverlapSpoilsCounter | apps/core/finops.py:238-266 | two overlapping recordings after the turn of a month leave a counter of 60 for a ledger of 120 |
| FinOps.OverspendPossible | apps/core/finops.py:173-266 | so 279 tokens can be spent where the bound is 219 |
| FinOps.MissingCounterAloneIsNotEnough | apps/core/finops.py:148-266 | a recording that starts alone with a counter missing can be overtaken by one that starts with both cached |
| FinOps.AlertsExactly | apps/core/finops.py:268-283 | an alert is called for exactly when tokens or cost reach 0.005 percent below its mark, in whole numbers |
| FinOps.ExhaustionIsAlerted | apps/core/finops.py:283-299 | totals that exhaust a budget call for both alerts |
| FinOps.ExceededAlertCanBeEarly | apps/core/finops.py:269-293 | the alert can come before the budget is exhausted |
| Uncertainty.Tally | apps/tasks/uncertainty.py:264-298 | the counting loop counts resolved, split, unpredicted and needlessly escalated tasks |
| Uncertainty.CalibrateDomain | apps/tasks/uncertainty.py:253-356 | one domain's new policy and whether it counts as adjusted |
| DomainPolicies.GroupByDomain | apps/tasks/uncertainty.py:228-242 | the grouping loop gives every domain to be scanned its own tasks |
| DomainPolicies.TasksOfExact | apps/tasks/uncertainty.py:228-242 | these are, in order, the tasks whose column names the domain, and in a full calibration also those without a domain for "general" |
| DomainPolicies.DomainsPartition | apps/tasks/uncertainty.py:236-242 | a full calibration counts each task without a domain or with a valid one in exactly one domain, and no other |
| DomainPolicies.OtherDomainsDoNotMatter | apps/tasks/uncertainty.py:228-366 | a task of another domain changes nothing about a domain's row |
| DomainPolicies.PolicyTable.CalibrateOrganization | apps/tasks/uncertainty.py:228-366 | every scanned domain's row follows from its own tasks and old row alone, other rows stay, and exactly the domains that moved by 0.005 or more are reported |
| Uncertainty.QuartileExact | apps/tasks/uncertainty.py:304-312 | the quartile is a score with at most a quarter of the others below it and more than that not above it |
| Uncertainty.LoweredBlindly | apps/tasks/uncertainty.py:313-323 | without scores a threshold goes down by four hundredths and as many for the share of splits |
| Uncertainty.SortedSorts | apps/tasks/uncertainty.py:304-310 | the quartile is taken from the sorted permutation of the scores |
| Uncertainty.CountsFollowThreshold | apps/tasks/uncertainty.py:281-294 | a lower threshold misses fewer splits and escalates more for nothing |
| Uncertainty.LoweredBounds | apps/tasks/uncertainty.py:304-324 | a lowered threshold is a grid value in [0.45, 0.92], three hundredths down unless it hits the lower end |
| Uncertainty.KeptExactly | apps/tasks/uncertainty.py:301-339 | when exactly a calibration changes nothing |
| Convergence.NeverLowers | apps/tasks/uncertainty.py:301-303 | no threshold in range is lowered exactly when fewer than 35 percent are splits and no scored split is below 0.92 |
| Convergence.NeverRaises | apps/tasks/uncertainty.py:325-339 | none is raised exactly when 0.45 is not |
| Convergence.Converges | apps/tasks/uncertainty.py:301-339 | where 0.45 is not raised, repeated calibration is constant after at most sixteen changes |
| Convergence.ConvergesUp | apps/tasks/uncertainty.py:301-339 | where nothing is lowered, after at most ten |
| Convergence.NoneKeptExactly | apps/tasks/uncertainty.py:301-339 | calibration keeps no threshold in range exactly when the highest one that predicts every scored split is in range, below the upper end, and raised |
| Convergence.ConvergesBetween | apps/tasks/uncertainty.py:301-339 | where thresholds move both ways but nothing calls for a change in the hundredth below the lowest split score, away from the ends, calibration is constant after at most thirty changes |
| Convergence.AlmostCalmCycles | apps/tasks/uncertainty.py:301-339 | with one ten-thousandth less than that hundredth it can go round eight thresholds for ever |
| Convergence.SettledMeaning | apps/tasks/uncertainty.py:281-303 | where nothing is raised, a threshold above 0.45 is settled exactly when every judged split is predicted and fewer than 35 percent are split |
| Convergence.ConvergesFromAnywhere | apps/tasks/uncertainty.py:259-324 | from any threshold that is not raised seventeen changes are enough, and the first one ends in range |
| Convergence.SixteenNeeded | apps/tasks/uncertainty.py:319-324 | sixteen changes do happen |
| Convergence.NeverSettles | apps/tasks/uncertainty.py:303-339 | at a split rate of 0.10 calibration can move every threshold forever |
| Uncertainty.NormalizedClose | apps/tasks/uncertainty.py:114-134 | each share is the true one to six decimals, and without weight they are thirds |
| Uncertainty.NormalizedSumsToOne | apps/tasks/uncertainty.py:114-134 | a normalized distribution has no negative share and sums to exactly one, in spite of rounding |
| Calibration.WeightBounds | apps/tasks/calibration.py:23-37 | weights are grid values in [0.10, 1.50] for any counts |
| Calibration.WeightMonotone | apps/tasks/calibration.py:23-37 | more right answers never lower a weight, and the clamp is never needed for sensible counts |
| Calibration.WeightGrows | apps/tasks/calibration.py:23-37 | one more right answer adds 1.40 over one more than the number of answers, so up to 13998 it raises the rounded weight; right and wrong answers mirror each other |
| Calibration.AccuracyExact | apps/tasks/calibration.py:31-34 | the accuracy is the share of right answers to four decimals |
| Calibration.DocumentedWeights | apps/tasks/calibration.py:26-30 | the four weights that the documentation gives as examples |
| Calibration.AnnotatorCalibration.EvaluateGold | apps/tasks/calibration.py:161-182 | one gold answer's update of a record |
| Calibration.RecordReportsHistory | apps/tasks/calibration.py:40-61 | a record says exactly what its history of answers says, overall and per domain and language, in any order |
| Calibration.EffectiveWeightBounds | apps/tasks/calibration.py:64-94 | the weight used for consensus is in [0.10, 1.50] after every history |
| Calibration.EffectiveWeightExact | apps/tasks/calibration.py:64-94 | after every history the weight is the overall one, or three tenths of it and seven of those of a special domain and language with answers of their own |
| Calibration.EffectiveWeightBlends | apps/tasks/calibration.py:78-94 | it lies between the weights it blends, up to rounding |
| Consensus.TallyVotes | apps/tasks/consensus.py:48-67 | the accumulated totals and counts are the weights and numbers of votes of the answers |
| Consensus.TotalWeight | apps/tasks/consensus.py:69 | the sum over answers is the weight of all votes |
| Consensus.Leader | apps/tasks/consensus.py:70-78 | the first of the ranking, and whether it leads all others by more than the tie margin |
| Consensus.Task.Evaluate | apps/tasks/consensus.py:98-121 | consensus is reached exactly if enough annotations are there and some answer has a true majority, which is then the choice; and the task's new columns |
| Consensus.MajorityFacts | apps/tasks/consensus.py:75-105 | a majority is unique, more than half of the weight, ahead by more than the tie margin, and the same as a rounded share above one half |
| Consensus.OutcomeIgnoresOrder | apps/tasks/consensus.py:48-121 | decision, choice and score are the same for every permutation of the votes |
| Consensus.VotesIgnoreOrder | apps/tasks/consensus.py:53-67 | permuted annotations make permuted votes |
| Consensus.EarnedVotesWeighted | apps/tasks/consensus.py:36-65 | votes weigh between 0.10 and 1.50 when records come from gold answers |
| Throttle.Pruned | apps/core/throttling.py:183-184 | the popping loop leaves exactly the requests of the last duration |
| Throttle.OrganizationThrottle.AllowRequest | apps/core/throttling.py:179-227 | the pruned, possibly expired history decides as the full log of allowed requests does, with correct limit metadata and wait |
| Throttle.MetaExact | apps/core/throttling.py:186-221 | what is left of the limit, and the whole second in which the first counted request leaves the window |
| Throttle.WindowBound | apps/core/throttling.py:183-186 | no window of the rate's duration holds more than the allowed number |
| Throttle.RefusedExactly | apps/core/throttling.py:186-207 | a request is refused exactly when the last duration holds the full number |
| Throttle.WaitIsExact | apps/core/throttling.py:223-227 | the wait that a refused client is told is the shortest that works, and none is given only if nothing is ever allowed |
| Throttle.BothEndsHoldTwice | apps/core/throttling.py:183-184 | a window closed at both ends can hold twice as many |

## Left out

- SHA-256, HMAC, Ed25519, KMS and S3 internals: the hash is an arbitrary function, the MAC and the signature check are parameters, and a signature that was obtained is one that the key in force accepts.
- Hex parsing and case folding: a digest text either decodes or it does not; 64-character texts with inner blanks that still decode count as undecodable.
- The canonical JSON encodings: represented by the documents they encode, so encoding is injective on the hashed fields and no such text is a Merkle input. Time stamps are canonical texts.
- Rows with equal sequence numbers are ordered as stored, not by identifier; such logs are never valid.
- Signed checkpoints of older versions without a Merkle root: their bundles fail the offline hash check, since the root is filled in after hashing. Minted checkpoints always have one.
- Audit transactions are atomic steps, as under the advisory locks that the source takes on PostgreSQL. Each query of a verification sees one state of its table; a read replica that shows the two tables at different ages is not modelled.
- AuditProofs.InclusionBundleCases: says nothing of rows with a stored hash that is no digest, which the model refuses also where the source gets by without decoding it.
- AuditProofs.BetweenCases: the same.
- AuditProofs.SignedBundlesBind: takes for granted that the key only accepts signatures over checkpoints that were stored in the end, not ones whose call failed after signing; the key is the one the caller gives, as a bundle may also carry its own.
- Archiving state of checkpoints (anchor status, WORM fields) and the events that checkpoint calls enqueue.
- AuditChain.VerifyOrganizationAuditChain: leaves the time of verification, the latest checkpoint's algorithm and archive address, and the queried replica out of the report.
- AuditLog.RunSafety: is about stored rows whose columns read back as they were hashed, ReadBackExact being the exact condition otherwise, and assumes that the signing key in force never changes.
- Deletion of an organization with all its rows: audit rows, outbox events and ledger entries of it would disappear together.
- Outbox.CrashFreeRetries: like the next, for runs in which no step takes a row away from its live holder.
- Outbox.LeasesAndRetries: holds in runs in which no step takes a row away from its live holder, because settlement and replay do not check who holds the row; LeasesExactly says that this is exactly when claims are exclusive. Outbox.AtLeastOnce needs no such hypothesis.
- Outbox: a batch claim is a series of single claims, which is the same since claims of different rows commute. Webhook delivery rows, payloads and error texts are not modelled.
- OutboxRetries.FailedAttemptWaits: is about a holder whose claims are exclusive when it settles; a second holder could claim or settle the event meanwhile. LeasesExactly says when claims are exclusive.
- OutboxRefinement.DrainBatchIsARun: the events of a batch are settled at times that do not run backwards.
- AuditCalls.SerialBundlesVerify: needs that a tenant's checkpoint calls do not overlap; without that the exact condition is in ConsistencyBundlesVerify.
- The circuit breaker's shared-cache mode: it falls back on cache errors and depends on expiry.
- FinOps: a failure or an eviction between the counter writes of a recording and the commit of its row, an eviction in the middle of one burn read, expiry of alert locks within a month, changes of a budget between calls, identifiers that are no UUID, and the cached copy of the budget configuration. A recording that fails before its writes is the step `Rollback`.
- FinOps.OverspendBound: needs that no call is admitted in an exhausted month, which overlapping recordings can bring about; AdmittedTooLate and CountersAgree have the exact conditions.
- Consensus.Task.Evaluate: does not give the uncertainty score, which needs logarithms, nor the means of rubric scores. Events that consensus and calibration enqueue are not modelled either.
- Threshold caching and the policy administration calls: calibration starts from whatever threshold is stored.
- Convergence.ConvergesBetween: sufficient, and the hundredth cannot be narrower, but not an exact condition on the start from which calibration settles; ranges that touch an end are covered by Converges, ConvergesUp and NoneKeptExactly only.
- Floating-point error: arithmetic is exact up to the roundings that the source asks for.
- Vector rows that were not written by the service itself, such as ones with missing fields.
- Throttle.WindowBound: for one organization on one plan whose requests are handled one after the other under a clock that does not run backwards; concurrent requests read and write the cached list without a lock.
- Throttle.OrganizationThrottle.AllowRequest: assumes that the cache never drops the list before its time to live is over.
- Stripping and lower-casing of domain, language and key names: names are taken as already cleaned.
