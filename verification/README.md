# MarketCow operations: verified models

Dafny models of the stateful algorithms in MarketCow's operational scripts, each with proofs of what it is for.
The models follow the Python code branch by branch. Where the code changes state step by step, the model is a class
or a method with a loop, proved equal to a specification function; what the script promises is proved about that
function, over every input and every run. Answers of the outside world (process exits, port probes, clocks, commands,
notifiers, digests, parsed documents, kills of the script) are inputs and are arbitrary unless a lemma says otherwise.

| files | component |
|---|---|
| `ProductionPlan`, `PlanShape` | component selection and the service plan of the production launcher, service by service |
| `Supervisor`, `SupervisorSafety`, `SupervisorReadiness`, `SupervisorShutdown`, `SupervisorLiveness`, `SupervisorStarvation`, `SupervisorIsolation` | the production supervisor: start, poll, exit codes, teardown; invariants over every run, what was ready before a start, who is killed, bounded start-up and exactly which plans have it, isolation of the discovery module |
| `PairMatcher`, `PairRefinement` | the bounded two-lane latency matcher |
| `PublicGateway` | stage, activate and roll back of the public Caddy site, killed at any file-system step |
| `DependencyHydration`, `Reachability` | the budgeted dependency closure of a dynamic generation |
| `ReleaseCollector`, `ReleaseReferences`, `ReleaseSweep` | mark and sweep over old releases, and what survives it |
| `Stripping`, `EnvLine`, `EnvFile`, `EnvRewrite` | reading and updating an environment file, down to characters |
| `BoundedLog` | the rotating diagnostic log |
| `Deduplication`, `DeduplicationSafety`, `DeduplicationErrors`, `DeduplicationSaving` | hard-link deduplication over paths, inodes and contents |
| `Percentiles` | sort-based and histogram-based nearest-rank percentiles |
| `Outages` | the online outage tracker |
| `Traffic`, `TrafficLoss`, `TrafficAlert` | traffic accounting over resettable counters, and the daily alert protocol |
| `StreamVerifier`, `StreamAcceptance`, `StreamSafety`, `StreamLog`, `StreamVerdict` | the market-stream verifier |
| `Boundary`, `RecoveryBoundary` | the two full-sync boundary validators |
| `Distinct`, `Wrappers` | lists without duplicates, option and result types |

What the proofs show to be otherwise than one might expect:

- A service that waits for an optional one with a port can be kept waiting for ever by a supervisor that goes on running.
  A plan starts in bounded time exactly when its dependencies are required or portless and have no cycle
  (`StartsInTimeExactly`, `UndependableStarves`); every plan the launcher builds is such a plan.
- The gateway's backup is not written atomically. If the original Caddyfile itself ends with the import line, a torn
  backup makes a rollback drop that line; for every other original the gateway is crash safe (`CrashSafetyExactly`).
- A kill while the Caddyfile's temporary exists blocks every later change of the Caddyfile, including the rollback
  (`LeftoverFreezesCaddyfile`, `LeftoverIsReached`). A kill between link and rename does the same to deduplication (`InterruptedRunIsStuck`).
- `_update_env` rewrites the first line of a key and `_read_env` takes the last, so an update of a key that is set on
  several lines does not take effect unless the last line has the new value already (`UpdateTakesEffectIff`,
  `RepeatedKeyIsNotUpdated`).
- `reclaimed_allocated_bytes` is exact if and only if each replaced file had no other path; otherwise it overstates
  (`SavingIsExactIff`, `OverstatingRun`).
- A counter that is reset and then passes its old reading hides bytes for good (`ResetHidesBytes`); the accounting error
  is exact (`AccountingIsExact`), and so is the condition on each interval for none (`CountIsExactIff`).
- "One daily alert" is broken exactly if the monitor is killed between a delivery and its record and a later message of
  the day is accepted (`RepeatsExactly`, `OneAlertPerDay`; `KillCanRepeatAlert` is such a run).
- The discovery collector is isolated from the other services except at its own spawn: if that fails, nothing is
  started at all (`DiscoveryIsIsolated`, `FailedDiscoverySpawnEndsRun`).
- The release sweep keeps what texts name by its own name. A release that is named only through a link or "..", or that
  only holds a unit file, is removed (`IndirectReferenceIsSwept`, `UnnamedUnitIsSwept`, `UnitFilesSurviveIff`).
- The stream verifier clears its continuity flag only for control frames, not for a jump of an event (`FlagMeansControlJump`).
- The recovery validator accepts boundaries whose markets do not all have two outcomes (`SkewedBoundaryPasses`); they
  have exactly if none has more than two (`BinaryIffAtMostTwo`). The live validator checks it.

## Model

| member | source | states |
|---|---|---|
| ProductionPlan.SplitInvertsJoin | ops/launchd/run-production.py:31 | splitting at commas returns any list of comma-free names that was joined with commas |
| ProductionPlan.SelectionOfNames | ops/launchd/run-production.py:28-38 | a comma-separated list is accepted exactly when no name repeats and both dependents come with the API and the data plane; the selection is then the named set |
| ProductionPlan.SelectionIsClosed | ops/launchd/run-production.py:28-38 | every accepted selection, from any text, contains what its dependents need |
| ProductionPlan.PortsApart | ops/launchd/run-production.py:113-128 | if the checked port list has no duplicate, two selected components never share a port |
| ProductionPlan.BuiltPlanIsStartable | ops/launchd/run-production.py:65-272 | every plan that is built starts exactly the selected components once each, with dependencies earlier, required and on a port, distinct valid ports, and height at most two |
| PlanShape.BuiltPlanIsAsWritten | ops/launchd/run-production.py:166-272 | in every plan that is built each service has exactly its flag, its start dependencies and its port: all but the collector are required, the API waits for exactly the data plane if that is selected, its two clients wait for exactly the API |
| PlanShape.DefaultSettingsBuild | ops/launchd/run-production.py:65-272 | the default components and ports, with acceptable paths, build exactly these five services, written out |
| PlanShape.PlanExistsIff | ops/launchd/run-production.py:65-166 | a plan exists exactly if the selection is accepted, Binance (if selected) is set up, and, unless it is alone, home is absolute, the host is loopback, the selected ports are valid and different, and the selected components are configured |
| Supervision.Supervisor.StartServices | ops/launchd/run-production.py:299-316 | the start loop refines the fold over the pending list, also when a spawn raises |
| Supervision.Supervisor.PollServices | ops/launchd/run-production.py:317-368 | the poll loop refines the fold over the started children, with its exit code; what that fold records is `SupervisorReadiness.PollRecordsExactly` |
| Supervision.Supervisor.Teardown | ops/launchd/run-production.py:371-383 | the three teardown sweeps refine signal, await-or-kill and reap; who is killed then is `SupervisorShutdown.TeardownExactly` |
| Supervision.Supervisor.Supervise | ops/launchd/run-production.py:296-385 | a whole run ends as the specified run does, and is torn down whenever it ends |
| SupervisorSafety.RunKeepsInvariant | ops/launchd/run-production.py:284-369 | in every run of any plan: pending and started are the plan, starts respect dependencies, only optional services fail while running, readiness, failure and starts only grow |
| SupervisorSafety.StartedAtMostOnce | ops/launchd/run-production.py:299-309 | with distinct names no service is started twice, nor both started and pending |
| SupervisorSafety.PollReturnsIffFatal | ops/launchd/run-production.py:317-368 | a poll ends the run exactly when a required child is seen dead or unready past its timeout, with the first such child's code and never 0 |
| SupervisorSafety.ZeroIffStopRequested | ops/launchd/run-production.py:298-370 | the run leaves with 0 exactly when a pass begins with a stop request and every earlier pass ran to its end |
| SupervisorSafety.TeardownReapsEverything | ops/launchd/run-production.py:371-383 | for any children of whom none was killed yet: all are reaped, unlimited waits are only for killed children, only signalled children are killed, old exit codes stay, the timed waits fit the budget |
| SupervisorSafety.LeavingReapsEverything | ops/launchd/run-production.py:296-383 | from the start of any plan to the end of the teardown, however the run ends: unstarted services and reaped processes together are the plan, seen exit codes are kept, only processes asked to terminate are killed |
| SupervisorShutdown.TeardownExactly | ops/launchd/run-production.py:371-383 | child by child: a living child is told to terminate, it is killed exactly if it takes longer than what the children after it leave of the budget, and it ends with its own exit code; the waits take the sum of what they want, or the budget |
| SupervisorShutdown.NobodyIsKilledIff | ops/launchd/run-production.py:371-383 | however a run of any plan ends, the teardown kills nobody exactly if the living children together fit the budget |
| SupervisorReadiness.PollRecordsExactly | ops/launchd/run-production.py:317-368 | a poll that goes on makes ready exactly the watched living children whose port accepts, gives up exactly the optional ones that are dead or late, reaps the dead, tells the late to terminate, and changes nothing else |
| SupervisorReadiness.ReadyMeansAccepted | ops/launchd/run-production.py:339-343 | however a poll ends, it marks as ready only started services whose port accepted in it |
| SupervisorReadiness.SpawnsExactly | ops/launchd/run-production.py:299-316 | a start phase starts a process only where the spawn works and raises only at one that fails |
| SupervisorReadiness.DependenciesWereHeard | ops/launchd/run-production.py:298-343 | in every run of any plan each process was started in a pass such that everything it waits for had been started before it and has no port, or its port had accepted in an earlier pass |
| SupervisorReadiness.BuiltPlanWaits | ops/launchd/run-production.py:211-264 | in every run of a built plan the two clients start only after the port of the API accepted, and the API only after that of the data plane, if selected |
| SupervisorLiveness.StartSaturates | ops/launchd/run-production.py:299-316 | after a start phase every pending service waits for a dependency that was unready before it |
| SupervisorLiveness.PassIsTimely | ops/launchd/run-production.py:298-369 | one pass keeps the timing invariant: waits bounded by rank, starts early, every unready required child within its timeout |
| SupervisorLiveness.StartsInBoundedTime | ops/launchd/run-production.py:298-369 | for every plan with ranked dependencies that are required or portless, and any environment: past rank * (timeout + 3 gaps) all services have started or the run has ended, one timeout later all required ones are ready |
| SupervisorLiveness.BuiltPlanStartsInBoundedTime | ops/launchd/run-production.py:65-369 | the same for every plan the launcher builds, with rank two |
| SupervisorStarvation.FailedDependencyBlocks | ops/launchd/run-production.py:300-319 | in every plan and every further run, a service whose dependency has failed unready is never started |
| SupervisorStarvation.UndependableStarves | ops/launchd/run-production.py:298-369 | in every plan, if a service waits for an optional service with a port or for a missing name, then for every length there is a stop-free run that goes on and leaves it pending |
| SupervisorStarvation.StartsInTimeExactly | ops/launchd/run-production.py:298-369 | a plan starts in bounded time against every environment exactly when each dependency is required or portless and there is no cycle |
| SupervisorIsolation.RunAlike | ops/launchd/run-production.py:298-369 | two runs whose answers differ only for an optional service nobody waits for, from its start on, end alike and treat all others alike |
| SupervisorIsolation.FirstIsIsolatedExactly | ops/launchd/run-production.py:298-369 | for such a service at the head of any plan, isolation holds for all answers about it exactly unless its own spawn fails in just one of the runs |
| SupervisorIsolation.DiscoveryIsIsolated | docs/polymarket-discovery-v3.md:18-20 | in every built plan, nothing the discovery collector does changes the outcome or any other service, exactly unless its spawn fails in one run and works in the other |
| SupervisorIsolation.FailedDiscoverySpawnEndsRun | ops/launchd/run-production.py:302-307 | against that promise: if the collector cannot be spawned, the run raises at once and no service is ever started |
| PairMatcher.Matcher.Observe | scripts/measure_sdk_public_latency.py:128-146 | the method refines the step on the whole state, including both errors |
| PairMatcher.Matcher.UnmatchedAtEnd | scripts/measure_sdk_public_latency.py:148-151 | the report's loop counts the pending arrivals of a lane |
| PairMatcher.Conservation | scripts/measure_sdk_public_latency.py:119-151 | after any history and with any limits, per lane, increments are duplicates + evictions + pending + pairs + raised adds; seen and pending are disjoint, seen matches deltas, both tables are bounded |
| PairMatcher.PendingIsOldestFirst | scripts/measure_sdk_public_latency.py:135-138 | pending entries are arrivals of the history in order, so each eviction takes the oldest |
| PairRefinement.DeltasAreFirstArrivalDifferences | scripts/measure_sdk_public_latency.py:128-146 | without loss the deltas are, in completion order, first public minus first LAN arrival of each identity seen on both lanes |
| PairRefinement.LosslessIffFits | scripts/measure_sdk_public_latency.py:135-143 | a run loses nothing exactly when at every point half-seen and paired identities fit the limits |
| PublicGateway.Host.SaveFile | scripts/deploy_public_sdk_gateway.py:68-73 | atomic replacement through an exclusive temporary, with a kill before or between its two steps |
| PublicGateway.Host.DoStage | scripts/deploy_public_sdk_gateway.py:86-111 | the stage action refines its steps under any kill and command answers |
| PublicGateway.Host.DoActivate | scripts/deploy_public_sdk_gateway.py:114-144 | the activate action with its restore on a failed reload refines its steps |
| PublicGateway.Host.DoRollback | scripts/deploy_public_sdk_gateway.py:145-154 | the rollback action refines its steps |
| PublicGateway.HistoryWritesOnce | scripts/deploy_public_sdk_gateway.py:74-80 | over any history backup, fragment and SSH file never change once they exist |
| PublicGateway.StageCompletesIff | scripts/deploy_public_sdk_gateway.py:86-111 | exactly when a stage completes, and that it then has backed up the Caddyfile it first saw, has the requested SSH file and changed nothing else |
| PublicGateway.StageLeaves | scripts/deploy_public_sdk_gateway.py:86-111 | what a stage of an owned host leaves, complete or not, when it is not killed |
| PublicGateway.ForeignEditsSurvive | scripts/deploy_public_sdk_gateway.py:130-148 | a Caddyfile edited by someone else is never overwritten by any history |
| PublicGateway.CrashSafetyExactly | scripts/deploy_public_sdk_gateway.py:68-154 | every history leaves the Caddyfile as the original or original plus import of an existing fragment, if and only if the original does not end with the import line |
| PublicGateway.TornBackupLosesImport | scripts/deploy_public_sdk_gateway.py:74-80 | witness of the other direction: torn first backup, then rollback |
| PublicGateway.ActivationCompletesIff | scripts/deploy_public_sdk_gateway.py:114-144 | exactly when an activation completes, and that it then leaves the import of the requested fragment and changed nothing else |
| PublicGateway.FailedReloadRestores | scripts/deploy_public_sdk_gateway.py:140-143 | with no temporary in the way, an activation whose reload fails raises with the original back exactly if the script lives long enough to write it, and is killed otherwise |
| PublicGateway.RollbackCompletesIff | scripts/deploy_public_sdk_gateway.py:145-154 | exactly when a rollback completes, and that it then restores the backup and nothing else |
| PublicGateway.FailedRollbackRestores | scripts/deploy_public_sdk_gateway.py:152-153 | a rollback whose reload fails raises with the original already back exactly if the script lives long enough to save it |
| PublicGateway.RefusalChangesNothing | scripts/deploy_public_sdk_gateway.py:86-149 | an action that is refused (host not owned, no backup, foreign Caddyfile, no server, site not adapted or another one) raises and changes nothing |
| PublicGateway.RollbackRestoresOriginal | scripts/deploy_public_sdk_gateway.py:145-154 | after any history a completed rollback restores the original |
| PublicGateway.LeftoverFreezesCaddyfile | scripts/deploy_public_sdk_gateway.py:69-73 | a leftover temporary keeps the Caddyfile as it is over every later history and every rollback from completing |
| PublicGateway.LeftoverIsReached | scripts/deploy_public_sdk_gateway.py:68-73 | witness: on every fresh host a stage and an activation killed inside its second save reach that state |
| Reachability.ClosureIsReachable | scripts/prepare_polymarket_dynamic_generation.py:63-78 | the least closed set is exactly what finite chains reach from the seeds |
| DependencyHydration.Explore | scripts/prepare_polymarket_dynamic_generation.py:60-78 | the worklist loop terminates for any pick order and stays between the seeds and any dependency-closed set |
| DependencyHydration.Hydrate | scripts/prepare_polymarket_dynamic_generation.py:54-78 | it succeeds exactly if every needed market has a row that is present, within 1 MiB, unaltered, readable and its own, and they are at most 1024, and then with exactly their rows; otherwise it names a needed market with the first fault of its row, or the budget when more are needed |
| DependencyHydration.NeededIsLeast | scripts/prepare_polymarket_dynamic_generation.py:77-78 | the needed set is closed and inside every closed set |
| DependencyHydration.NeededIsReachable | scripts/prepare_polymarket_dynamic_generation.py:77-78 | a market is needed exactly when a chain of dependencies leads to it |
| ReleaseCollector.ReferencedReleases | scripts/deploy_u1_marketcow.py:292-312 | the scan that appends while iterating terminates and marks exactly the releases named in a unit or in a JSON file reached from one; in terms of file names this is `ReleaseSweep.ProtectedIffNamed` |
| ReleaseCollector.ReachedByMentions | scripts/deploy_u1_marketcow.py:303-311 | the files read are exactly those a chain of mentions leads to |
| ReleaseCollector.Releases.PruneRelease | scripts/deploy_u1_marketcow.py:326-329 | a protected release loses exactly its build outputs, or stops at a link having lost nothing else |
| ReleaseCollector.Releases.CleanupPreviousVersions | scripts/deploy_u1_marketcow.py:315-329 | the sweep completes exactly when no protected release has a linked build output, leaves exactly the specified entries, and never loses a protected release or a runtime child |
| ReleaseReferences.ReferencesSurvive | scripts/deploy_u1_marketcow.py:292-329 | mark and sweep: whatever a relevant text names inside a real release directory, starting with its name, survives unless it is build output, and no unprotected real directory survives |
| ReleaseReferences.ReferencedReleaseSurvivesIff | scripts/deploy_u1_marketcow.py:304-325 | a release that a relevant text refers to by any path, through links or "..", survives exactly if some relevant text names it first in a path |
| ReleaseReferences.IndirectReferenceIsSwept | scripts/deploy_u1_marketcow.py:304-325 | witness: a release that a unit refers to only through a link, or only behind "..", is removed |
| ReleaseReferences.UnitFilesSurviveIff | scripts/deploy_u1_marketcow.py:297-329 | every unit file survives the sweep exactly if each one that lies in a real release lies in one that some relevant text names, outside its build outputs |
| ReleaseReferences.UnnamedUnitIsSwept | scripts/deploy_u1_marketcow.py:297-325 | witness: a unit file inside a release that no text names is removed with it |
| ReleaseSweep.IsJsonIff | scripts/deploy_u1_marketcow.py:309 | a path is followed exactly if its last part is a nonempty stem with the extension .json |
| ReleaseSweep.ProtectedIffNamed | scripts/deploy_u1_marketcow.py:292-312 | a release is protected exactly if a unit, or the file at the end of a chain of existing JSON files that begins in a unit, has a path that starts with its name |
| ReleaseSweep.SweepLeavesExactly | scripts/deploy_u1_marketcow.py:315-328 | a completed sweep leaves a real release exactly if it is so named, without exactly source, source-complete, target and target-*, and every other entry as it is |
| EnvLine.WrittenReadsBack | scripts/configure_polymarket_final_architecture.py:36-53 | a written clean line is read back as the same key and value, and found again by the writer |
| EnvLine.SameLines | scripts/configure_polymarket_final_architecture.py:37-52 | reader and writer recognise the same lines of a nonempty key |
| EnvLine.DoubleQuotedReadsInside | scripts/configure_polymarket_final_architecture.py:41 | a value in double quotes reads as its inside exactly if that has no outer quote of either kind |
| EnvLine.SingleQuotedReadsInside | scripts/configure_polymarket_final_architecture.py:41 | a value in single quotes reads as its inside exactly if that has no outer single quote |
| EnvLine.PaddedReads | scripts/configure_polymarket_final_architecture.py:37-51 | blanks around a line, its key and its value change neither what is read nor what the writer finds |
| EnvRewrite.CommentIsIgnored | scripts/configure_polymarket_final_architecture.py:38-52 | a line that begins with #, after any blanks, sets nothing for reader and writer |
| EnvFile.ReadEnv | scripts/configure_polymarket_final_architecture.py:33-42 | the dictionary holds for each key the value of its last line |
| EnvFile.UpdateEnv | scripts/configure_polymarket_final_architecture.py:45-60 | the loop and the sorted appendix refine the specified update |
| EnvRewrite.RewriteExactly | scripts/configure_polymarket_final_architecture.py:47-55 | line by line: the first line of each updated key becomes the new setting, every other line stays as it is, and the keys without a line are left over |
| EnvRewrite.UpdateWritesExactly | scripts/configure_polymarket_final_architecture.py:45-60 | the whole updated file: the old lines so rewritten, then for keys without a line a blank line if needed, the header comment and one setting each |
| EnvFile.UpdateReads | scripts/configure_polymarket_final_architecture.py:45-60 | after an update a key on at most one line reads as its new value, every other key and every duplicated key as before |
| EnvFile.UpdateTwice | scripts/configure_polymarket_final_architecture.py:45-60 | a second equal update changes no line and adds none |
| EnvFile.FileReadsUpdated | scripts/configure_polymarket_final_architecture.py:33-61 | the same through the file's text, for every text and all clean updates |
| EnvFile.FileUpdateTwice | scripts/configure_polymarket_final_architecture.py:45-61 | updating the file twice is updating it once, as text |
| EnvFile.UpdateTakesEffectIff | scripts/configure_polymarket_final_architecture.py:33-61 | an updated key reads as its new value exactly if at most one line set it or its last line had that value already |
| EnvFile.RepeatedKeyIsNotUpdated | scripts/configure_polymarket_final_architecture.py:49-53 | witness: a key set on two lines still reads as the second line after an update |
| BoundedLog.RotatingLog.Copy | scripts/run_with_bounded_log.py:24-36 | the read loop refines the fold over the chunks |
| BoundedLog.KeptIsSuffix | scripts/run_with_bounded_log.py:28-36 | `.2`, `.1` and the current file together are always the end of all that was ever written |
| BoundedLog.StaysWithinLimit | scripts/run_with_bounded_log.py:25-36 | files that start within the limit stay within it |
| BoundedLog.RotationKeepsBudget | scripts/run_with_bounded_log.py:28-34 | after any rotation `.1` and current exceed the limit together; before the first one nothing is lost |
| BoundedLog.LosesOnlyBeyondBudget | scripts/run_with_bounded_log.py:24-36 | at every time everything is kept or more than one full budget is |
| Deduplication.GroupedIsPartition | scripts/deduplicate_immutable_catalogs.py:14-20 | the groups have distinct keys and are exactly the listed paths of each key in listing order |
| DeduplicationSafety.SourceIsFirstNamesake | scripts/deduplicate_immutable_catalogs.py:15-24 | the file that others are linked to is the first listed one in the same directory below its root and of the same name |
| Deduplication.Deduplicator.Relink | scripts/deduplicate_immutable_catalogs.py:36-48 | link and rename together change one mapping and leave no temporary, with the three error cases |
| Deduplication.Deduplicator.Share | scripts/deduplicate_immutable_catalogs.py:22-48 | a group is checked for content and for changes meanwhile, then relinked using facts read before; equal to the fold on current facts |
| Deduplication.Deduplicator.Deduplicate | scripts/deduplicate_immutable_catalogs.py:13-50 | the whole run refines grouping followed by sharing, also when it stops with an error |
| DeduplicationSafety.RunSharesListing | scripts/deduplicate_immutable_catalogs.py:13-50 | a run ends normally exactly when every listed file fits; then every listed path is on its group's first inode and every other path is untouched |
| DeduplicationErrors.ErrorsAreFaults | scripts/deduplicate_immutable_catalogs.py:18-41 | a run stops with an error only for a fault of that kind that a listed file had before the run |
| DeduplicationSafety.RunPreservesBytes | scripts/deduplicate_immutable_catalogs.py:22-42 | however it ends, the paths are the same, every path keeps its digest, and without collisions its bytes |
| DeduplicationSafety.BytesSurviveExactly | scripts/deduplicate_immutable_catalogs.py:24-27 | with collisions, a normal run preserves all bytes exactly when the files of each group agree |
| DeduplicationSafety.SecondRunIsIdle | scripts/deduplicate_immutable_catalogs.py:36-37 | a second run, whatever its digests, changes nothing and reports nothing, unless a file changes while it looks |
| DeduplicationSafety.StuckRunFails | scripts/deduplicate_immutable_catalogs.py:36-42 | a run over a file whose temporary exists and whose source is another inode fails and leaves it so |
| DeduplicationSafety.InterruptedRunIsStuck | scripts/deduplicate_immutable_catalogs.py:40-42 | after a run cut off between link and rename, every later run over the same files fails, after any number of earlier attempts |
| DeduplicationSaving.SavingCoversReleased | scripts/deduplicate_immutable_catalogs.py:48-50 | however a run ends, the reported saving is at least the bytes of inodes that lost their last link |
| DeduplicationSaving.SavingIsExactIff | scripts/deduplicate_immutable_catalogs.py:36-50 | a run that ends normally reports exactly the released bytes if and only if every listed file that is replaced and occupies blocks had no other path before the run |
| DeduplicationSaving.OverstatingRun | scripts/deduplicate_immutable_catalogs.py:48 | witness: a complete run over two copies, one with an unlisted second path, reports more than it releases |
| Percentiles.SortedIsOrderedPermutation | scripts/verify_polymarket_shared_events_soak.py:33 | sorting gives an ordered permutation |
| Percentiles.PercentileIffCount | scripts/verify_polymarket_shared_events_soak.py:32-35 | the percentile is at most m exactly when at least the fraction of the samples is |
| Percentiles.PercentileIsMonotone | scripts/verify_polymarket_shared_events_soak.py:32-35 | it is a sample and grows with the fraction |
| Percentiles.SummaryIsOrdered | scripts/measure_sdk_public_latency.py:37-45 | minimum, p50, p95, p99 and maximum are in order and bound all samples |
| Percentiles.SummaryIsPercentiles | scripts/measure_sdk_public_latency.py:37-45 | each quantile is the percentile of its fraction, negatives are counted |
| Percentiles.AgeHistogram.Observe | scripts/audit_bounded_live.py:76-78 | one increment in place keeps every bucket equal to its number of clamped samples |
| Percentiles.AgeHistogram.Quantile | scripts/audit_bounded_live.py:92-98 | the first bucket whose cumulative count reaches the fraction is the percentile of the clamped samples |
| Percentiles.Report | scripts/audit_bounded_live.py:56-98 | for every list of ages the three reported quantiles are the sort-based percentiles of the clamped ages, none for no age, and the overflow counts the ages from 10001 ms on |
| Outages.OutageTracker.Observe | scripts/verify_polymarket_shared_events_soak.py:210-220 | one observation keeps each route's fields equal to the fold of its own history |
| Outages.OutageTracker.Finish | scripts/verify_polymarket_shared_events_soak.py:449-454 | after closing, each route holds its longest maximal run of failures, an upper bound that is attained |
| Outages.TrackedIsLongest | scripts/verify_polymarket_shared_events_soak.py:210-220 | the online fold equals the definition by maximal runs, for every history and any clock |
| Traffic.CountedIsExact | scripts/u1_external_traffic_monitor.py:179-184 | per counter, counted + lost to resets + not yet sampled is what passed, for every order of flows, resets and samples |
| Traffic.AccountingIsExact | scripts/u1_external_traffic_monitor.py:187-204 | from a day's first sample on, ingress and egress fall short of the truth by exactly what is lost or open |
| Traffic.NeverOvercounts | scripts/u1_external_traffic_monitor.py:187-204 | counts never exceed the true bytes and equal the sampled ones without resets |
| Traffic.CountsOnlyGrow | scripts/u1_external_traffic_monitor.py:195-202 | within a day counts never fall |
| Traffic.ResetHidesBytes | scripts/u1_external_traffic_monitor.py:182-184 | witness: bytes after a reset that reach the old reading are never counted |
| TrafficLoss.NothingLostIff | scripts/u1_external_traffic_monitor.py:179-184 | per counter, nothing is lost exactly if in each sampling interval with a reset nothing passes before its last reset, and after it the counter stays below the old reading or that was zero |
| TrafficLoss.CountIsExactIff | scripts/u1_external_traffic_monitor.py:187-204 | the day's ingress, and its egress, is all that was sampled exactly if all intervals of both its counters are of that kind |
| TrafficAlert.Monitor.SampleOnce | scripts/u1_external_traffic_monitor.py:235-267 | the sample makes exactly the specified saves and calls in order, and raises exactly on a bad counter or a failed delivery |
| TrafficAlert.SampleFailsIff | scripts/u1_external_traffic_monitor.py:179-194 | a sample is refused exactly on a day already open when a counter is or was negative |
| TrafficAlert.CallsIff | scripts/u1_external_traffic_monitor.py:248-250 | a sample calls the notifier exactly if both directions together have reached the threshold and no delivery is recorded, after saving the attempt |
| TrafficAlert.AlertAccounting | scripts/u1_external_traffic_monitor.py:248-266 | with kills between any effects: attempts are calls plus kills before a call, deliveries are the recorded one plus kills before recording |
| TrafficAlert.NoCallAfterNotified | scripts/u1_external_traffic_monitor.py:248 | after a recorded delivery the day has no further call |
| TrafficAlert.OneAlertPerDay | scripts/u1_external_traffic_monitor.py:2 | from a new day, under any kills: attempts bound calls and a record implies a delivery; if no sample is killed between delivery and record, there is at most one delivery and it is recorded exactly |
| TrafficAlert.RepeatsExactly | scripts/u1_external_traffic_monitor.py:248-266 | over any run, with any kills: an alert is delivered more than once exactly if an alerting sample is killed between its delivery and the record and the message of a later sample is accepted |
| TrafficAlert.KillCanRepeatAlert | scripts/u1_external_traffic_monitor.py:259-266 | witness: a kill between delivery and record leads to a second delivery |
| TrafficAlert.RetriesUntilDelivered | scripts/u1_external_traffic_monitor.py:248-264 | past the threshold every later sample calls until one delivery succeeds |
| StreamVerifier.Verifier.HandleFrame | scripts/verify_polymarket_stream_recovery_stability.py:328-416 | the frame handler returns the specified verdict with its gate and books it, in the order of checks of the code; what that verdict and booking amount to is `StreamAcceptance.ReportIsExact` |
| StreamVerifier.Verifier.Observe | scripts/verify_polymarket_stream_recovery_stability.py:258-426 | the connection loop refines the fold over all attempts |
| StreamAcceptance.ReportIsExact | scripts/verify_polymarket_stream_recovery_stability.py:258-426 | counter by counter, without the judging function: frame counters count the well-formed frames in sequence of their own kind, refusal counters the connections that end for their own reason, failures the attempts that are not well formed |
| StreamAcceptance.NoFailureIff | scripts/verify_polymarket_stream_recovery_stability.py:258-426 | a run has no failure exactly if every attempt was read and subscribed and all its frames up to the first generation change are well formed and numbered without a gap |
| StreamLog.ControlLogIsChanges | scripts/verify_polymarket_stream_recovery_stability.py:377-388 | the log whose outages are measured consists of the well-formed control frames, in order |
| StreamSafety.CursorsAreConsecutive | scripts/verify_polymarket_stream_recovery_stability.py:289-361 | within a connection the accepted numbers are start + 1, start + 2, ... up to the cursor |
| StreamSafety.CursorCountsFrames | scripts/verify_polymarket_stream_recovery_stability.py:329-376 | the cursor advances by the counted frames, plus one if the last was refused after its number fitted |
| StreamSafety.QuarantinesAreConserved | scripts/verify_polymarket_stream_recovery_stability.py:377-432 | over all connections quarantine frames are closed windows + outstanding + repetitions |
| StreamSafety.WindowsAreOutages | scripts/verify_polymarket_stream_recovery_stability.py:377-388 | the windows are exactly the markets' closed outages, each from the first quarantine since the last recovery |
| StreamSafety.LongestIsLongestOutage | scripts/verify_polymarket_stream_recovery_stability.py:389-391 | the reported maximum bounds every closed outage and is attained |
| StreamSafety.AdvanceCountsFrames | scripts/verify_polymarket_stream_recovery_stability.py:258-426 | over all connections cursors advance by the counted frames, up to one frame per failure |
| StreamVerdict.NoFailureMeansCleanStream | scripts/verify_polymarket_stream_recovery_stability.py:329-376 | a run without failures, that is (`StreamAcceptance.NoFailureIff`) one of well-formed attempts only, counts no refused frame, and every number taken belongs to a counted frame |
| StreamVerdict.StreamGatesAreTwo | scripts/verify_polymarket_stream_recovery_stability.py:459-469 | of the six stream conditions of the final verdict, no failure and at least one event imply the other four |
| StreamSafety.FlagMeansControlJump | scripts/verify_polymarket_stream_recovery_stability.py:331-360 | over any run the discontinuities are the connections that end at a frame out of sequence, at whatever frame, the continuity flag is cleared exactly by those at a control frame, and the event kinds add up |
| Boundary.Validate | scripts/verify_polymarket_live_stability.py:33-144 | the nested loops and the final conjunction decide the specified tests, with the four reported lists |
| Boundary.Pigeonhole | scripts/verify_polymarket_live_stability.py:115-120 | as many distinct tokens as books, each with a book, leaves no second book for any token |
| Boundary.BooksFitIsBijection | scripts/verify_polymarket_live_stability.py:66-120 | the counting tests hold exactly when markets are binary, tokens distinct, books and tokens one to one, and ticks equal |
| Boundary.OneCursor | scripts/verify_polymarket_live_stability.py:83-124 | the set of cursors has one element exactly when all seven are the boundary cursor |
| Boundary.NoBadFacts | scripts/verify_polymarket_live_stability.py:55-65 | the lists of bad revisions and fee schedules are empty exactly when every market is well formed |
| Boundary.AcceptsExactlySound | scripts/verify_polymarket_live_stability.py:33-144 | all tests together accept exactly the boundaries that are ready, at one cursor, with sound binary markets, no token used twice, one book for each token and equal ticks |
| RecoveryBoundary.Validate | scripts/verify_polymarket_stream_recovery_stability.py:100-183 | the second validator's loops and conjunction decide the specified tests |
| RecoveryBoundary.BooksMatchIsBijection | scripts/verify_polymarket_stream_recovery_stability.py:155-158 | its book tests hold exactly when the announced counts fit, books and tokens are one to one, and ticks are equal |
| RecoveryBoundary.DistinctIffTwoPerMarket | scripts/verify_polymarket_stream_recovery_stability.py:146-157 | when the book tests hold, tokens are distinct exactly when there are two outcomes per market in total |
| RecoveryBoundary.BinaryIffAtMostTwo | scripts/verify_polymarket_stream_recovery_stability.py:146-157 | when the book tests hold, every market has two outcomes exactly when none has more than two |
| RecoveryBoundary.SkewedBoundaryPasses | scripts/verify_polymarket_stream_recovery_stability.py:141-167 | witness: the validator accepts a boundary with one market of one outcome and one of three |
| RecoveryBoundary.ActiveMarketsAreDistinct | scripts/verify_polymarket_stream_recovery_stability.py:152-154 | active markets are listed once each exactly if the scope has as many ids, and none is quarantined |
| RecoveryBoundary.PassesExactlyAcceptable | scripts/verify_polymarket_stream_recovery_stability.py:100-183 | all tests together accept exactly the boundaries with the announced counts, the same active ids in both documents and none quarantined, one cursor, one book for each token and equal ticks |

## Left out

- The Rust data plane, `src/marketcow`, the web frontend and the provisioning files: not part of this model.
- The one-off activation, installation, preparation and smoke scripts: linear sequences of copies and assertions.
- systemd, launchd, ssh, HTTP, WebSocket, SQLite, hashing, JSON and regular expressions: their results are inputs.
- Signal handlers: a stop request is visible at the start of the next pass, as the `while` test sees it.
- Unix permissions, owners and fsync; renames are atomic and, except for the gateway's backup, writes are complete.
- Floating point: times are integers, fractions are rationals, and an age in milliseconds is a real.
- ProductionPlan: paths, ids and tokens of a component are one flag per component, tested after the ports.
- PublicGateway: the account, its authorized keys and the deployment lock are command answers; two runs at once are not modelled.
- DependencyHydration: the later comparison of the selection with the loaded rows; pending markets are taken in any order, which covers the smallest-first order of the code.
- ReleaseCollector: removal of earlier build inputs outside the releases directory; a text is the list of release paths found in it, and a link leads to a real release directory.
- EnvFile: the decoding of the file; carriage returns are taken as part of a line end.
- EnvFile.UpdateReads: for keys and values that are clean (no line break, no outer blanks or quotes, no `=` in a key), as every caller writes them.
- BoundedLog: the child process and its exit status.
- Deduplication: a file seen to change is an input and refused; contents that change unseen, and modes, are not modelled.
- DeduplicationSafety.RunPreservesBytes: bytes need a digest without collisions; `BytesSurviveExactly` says what holds otherwise.
- Outages: the requests themselves and the other criteria of the soak test.
- StreamVerifier: the identity and HTTP samples taken between frames, and the counts per source event type.
- Boundary, RecoveryBoundary: the dynamic universe document and the header comparisons of the recovery test are flags.
- QuoteAges in the latency script: a last-value filter that would only add easy members.
