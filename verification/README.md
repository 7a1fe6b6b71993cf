# gflow's scheduler core, modelled and proved

gflow's daemon keeps all of its scheduling state in one `Scheduler` behind one lock. This project models
that state machine: jobs and their dependencies, the ready queue, the allocation cycle, GPU reservations,
the redundant indexes, quotas and fair-share accounting. It proves what holds in every state that any
sequence of operations can reach, and what each operation does to the whole state. Time is a parameter
(`now`) of every operation.

## How it is laid out

| part | files |
|---|---|
| jobs, states, dependency counters | `Types`, `Counting`, `Dependencies`, `JobInvariants`, `ReadyQueue` |
| the cancellation cascade and what it does to the counters | `Cascades`, `Counters`, `Exactness` |
| begin times | `BeginTimes` |
| the redundant indexes and running totals | `InvertedIndex`, `Tally`, `Rebuild` |
| submitting, editing, retrying, cycle check | `Submission`, `Edits`, `Retries`, `CycleCheck` |
| fair share | `FairShare`, `Ledger` |
| the job table: the class that is updated in place | `JobTable`, on `TableInvariants` |
| reservations | `Reservations`, `Refreshing`, `Claiming`, `Entitlements`, `ReservationBook` |
| the allocation cycle | `Quotas`, `Resources`, `Sorting`, `Occupancy`, `Draining`, `Cycles`, `Scheduler` |
| whole runs, and what their invariant means | `Runs`, `Theorems` |
| the terms the theorems are stated in, and the running totals counted out in them | `PlainTerms`, `Accounts` |
| cases in which the obvious claim is false | `Witnesses` |
| durations as text | `Durations` |

`Runs.Inv` is the invariant of a run. `Runs.Step` keeps it over each of seventeen operations, `Runs.Run`
over any list of them from an empty scheduler, and `Theorems` says in terms of the jobs' actual states
what it implies. `PlainTerms` has the vocabulary of these statements: it reads the fields of jobs, slots and
tables alone and shares no definition with the operations, so that what an operation decides and what it
should decide are written down separately. `Runs.Permitted` lists what callers have to observe; each of its clauses has a witness or
an exact condition that shows why it is there.

## What the code does that one would not expect

- **Failures of cancelled jobs are announced twice.** The nested transition in
  `src/core/scheduler/transitions.rs:383-389` tells the dependents of a job that the cascade cancels, and
  line 396 then puts the same job on the work list. A failure counter runs ahead by exactly the number of
  the job's dependencies that the cascade cancelled, so it stays exact if and only if there is none
  (`Counters.ExactAfterCascade`, also in terms of the state before the call). Jobs that need all of their
  dependencies are not affected; one that needs any of them can be cancelled too early
  (`Witnesses.CancelledTooEarly`, reached in `Witnesses.DiamondCancelsTooEarly`), and
  `Counters.WronglyCancelled` says exactly when, in terms of the state before the failure. The model has the
  constant `echo`: `true` is the code as it is, `false` announces every edge once; what does not mention it
  holds for both. The user guide (`docs/src/user-guide/job-dependencies.md:50-56`) does not mention the
  difference.
- **A dependency named twice is waited for twice but announced once** (`Witnesses.NamedTwice`): hearing
  once of each dependency satisfies a job that needs all of them if and only if it names none twice
  (`Witnesses.SatisfiedWhenDistinct`). Dependency lists are therefore required to be free of repeats.
- **Only the first entry of a job that leaves the ready heap is looked at**
  (`src/core/scheduler/scheduling.rs:147-150`). If the rank of a waiting job is lowered, an older entry
  comes first, is stale, and the job is lost (`Witnesses.LoweredRankLosesJob`). `JobTable.UpdateJob` proves
  that an update keeps the queue in rank if and only if no old entry outranks the job's new key, and
  `Draining.FoundExactly` says exactly which jobs a drain finds.
- **A begin time can pass unnoticed** (`Witnesses.BeginTimeMissed`): the sync at
  `src/core/scheduler/transitions.rs:377` may clear the waiting reason that the release of due jobs looks
  for. A job that is told of one more dependency has missed its begin time afterwards if and only if the
  time has come and it had missed it before, or it was waiting for a time that has come while satisfied
  (`JobTable.TellDependent`); so a job that needs all of its dependencies never misses it. What this
  means over a whole cascade is `Theorems.WhoMissesItsTime`, and after the release of due jobs the next cycle
  finds exactly the ready jobs that have not missed their time (`Theorems.DueJobsAreFound`).
- **`release_job_at` on a job that is already queued leaves a live heap entry.** `JobTable.ReleaseJobAt`
  proves that the operation keeps waiting jobs out of the heap if and only if the time is not in the
  future or the job has no live entry; `Witnesses.ReleasedTooEarly` is a case.
- **An index list that names a GPU twice offers it twice** (`Witnesses.IndexNamedTwice`); the GPUs offered to a
  user are without repeats if and only if the user's active lists name no available GPU twice
  (`Entitlements.UsableDistinctExactly`).
- **A late report of a failed start returns memory that the job no longer holds.**
  `Scheduler.HandleFailure` gives the exact balance for every report; it is zero if and only if the job
  holds no GPU ids or is still running, or asked for no memory. Until the next refresh of free memory the
  job's need has not been counted as free, so a report on a job that the last cycle started is harmless
  whatever has become of the job; after it, `Witnesses.LateReport` shows more memory free than there is.
- **A retry is submitted and takes over the dependents before the failed job is failed**
  (`src/multicall/gflowd/scheduler_runtime/retry.rs:108-117`), and the model keeps that order. Jobs that
  fail in silence are remembered in the ghost set `muted` until nobody waits for them any more.

## Assumptions

- Counters, epochs, ids, memory and times are unbounded natural numbers; an operation sees one `now`, and
  the clock never runs backwards between operations. The number parser is the exception: it has 64 bits.
- The decay of fair-share usage is exact arithmetic over the reals with any factor that is multiplicative in
  elapsed time; the fair-share factor of a user and the order in which GPUs are tried for a job are
  arbitrary functions. The sequential strategy is the key `gpu`; the random one is some key.
- The ready heap is a multiset from which a greatest entry is taken; hash maps are maps.
- `transition_job_state_internal` appears as two methods, by target state: `TransitionJobState` for all
  targets but `Queued`, and `ReleaseToQueue` for `Queued`. The cycle's local `available_memory` and the
  field of the same meaning always agree and are one field here. The rollback branch of the cycle
  (`src/core/scheduler/scheduling.rs:357-393`) is proved unreachable in `Scheduler.StartOn`.

## Model

| member | source | states |
|---|---|---|
| Runs.Run | src/core/scheduler.rs:117-190 | Any list of permitted operations, in any order and at any non-decreasing times, from an empty scheduler with any GPU slots, allowed GPUs, memory, quota baseline and overrides, ends in a state that satisfies the run invariant |
| Runs.Step | src/core/scheduler/transitions.rs:408-816 | Each of the seventeen operations (submit, finish, fail, time out, cancel, hold, release now or at a time, release of due jobs, update, retry, sweep, cycle, failure reports, create and cancel a reservation, restart) keeps the run invariant: exact indexes and counters, no doomed job waiting, no job lost, safe starts, exclusive GPUs, all limits, an acyclic graph, reservation capacity, one credit per job; reports of failed starts are allowed on running jobs and on all jobs the last cycle handed out, whatever has become of them, and what they can still return always fits into the machine's memory |
| Runs.DoRestart | src/multicall/gflowd/scheduler_runtime/persistence.rs:212-235 | A restart on a saved state of a run, which rebuilds what is derived from the job vectors and works out free memory anew, keeps the whole run invariant |
| Theorems.FlagsAreTrue | src/core/scheduler/transitions.rs:25-72 | In every reachable state the satisfied flag of a queued or held job is set if and only if, by the states of the jobs it names, all have finished or, in Any mode, one has or it names none; a job without a mode needs all; the impossible flag says equally exactly whether one has failed or, in Any mode, there are some and all have, for jobs not in Any mode, for queued auto-cancelling jobs in both modes, and for all jobs when edges are announced once; both flags are always what the counters call for |
| Theorems.RunningIsSound | src/core/scheduler/transitions.rs:345-358 | In every reachable state each job that ever started or finished has all the jobs it names finished or, in Any mode, one of them or none to wait for; each running job holds exactly as many distinct GPUs as it asked for, each the index of a slot that is available and allowed, and two running jobs on one GPU are both shared |
| Theorems.RunningWithinLimits | src/core/scheduler/quotas.rs:86-120 | In every reachable state the number of running jobs and of their GPUs, counted out for each user and project, is within the limit of the first of named override, named baseline entry, override default and baseline default that sets one; a group with one common limit has no more running jobs; the limits declared by shared jobs fit each slot of known memory; and free host memory plus the needs of running jobs, added up, never exceeds the total |
| Theorems.PassedOverForAReason | src/core/scheduler/scheduling.rs:185-432 | In every reachable state a cycle starts only jobs that it found queued, and changes nothing else but reasons; every other job that it found is still queued and reports what it lacks at the end: with it host memory would be exceeded; its group has as many running jobs as it may have; a limit of its user or project would be exceeded; or its user is not entitled to so many GPUs, or too few of the GPUs it may use are neither taken by a job that does not share nor too full of declared memory |
| Accounts.ChecksAreRight | src/core/scheduler/scheduling.rs:195-273 | Within the bounds so far, the memory, group and quota checks let a job pass if and only if, with the job counted in, memory in use, the running jobs of its group, and the jobs and GPUs of its user and project are still within their bounds |
| Accounts.RefusedExactly | src/core/scheduler/scheduling.rs:283-310 | A GPU is refused to a job if and only if somebody holds it exclusively, or the job wants it exclusively and somebody shares it, or the limits declared on it leave less of its memory than the job declares |
| Accounts.UserIsCounted | src/core/scheduler/transitions.rs:614-647 | What is kept for a user is the number of the running jobs the user submitted and the sum of their GPUs |
| Accounts.ProjectIsCounted | src/core/scheduler/transitions.rs:614-647 | The same for a project |
| Accounts.GroupIsCounted | src/core/scheduler/transitions.rs:510-535 | What is kept for a group is the number of its running jobs |
| Accounts.MemoryIsCounted | src/core/scheduler/scheduling.rs:22-59 | Memory in use is the sum over running jobs of what they asked for, with their GPU memory for each of their GPUs when memory is unified |
| Accounts.SharersAreCounted | src/core/scheduler/scheduling.rs:61-97 | The tables say that nobody shares a GPU, or that it is held exclusively, exactly when no running shared job, or some running exclusive job, occupies it |
| Theorems.ReadyMeansFound | src/core/scheduler/scheduling.rs:145-167 | In every reachable state the next drain finds only queued jobs whose dependencies are met by actual states and whose begin time has come; it finds all of them that have no begin time, and of those in All mode all that do not report that they wait for it |
| Theorems.DueJobsAreFound | src/core/scheduler/transitions.rs:784-816 | In every reachable state, after the release of due jobs the next drain finds a job if and only if it is queued, its dependencies are met, its begin time, if any, has come, and it had not missed it; only jobs in Any mode can have missed it |
| Theorems.WhoMissesItsTime | src/core/scheduler/transitions.rs:367-403 | After a job has ended and its cascade is over, the jobs that have missed their begin time are: of those told of it, or of a job it took down, the ones that had missed it already although the time has come and the ones that were waiting for a time that has come while satisfied; of all others, those that had missed it before |
| Theorems.NobodyIsDoomed | src/core/scheduler/transitions.rs:379-399 | Between operations no queued auto-cancelling job, in whichever mode, names jobs by whose states it can no longer run |
| Theorems.UsageIsHistory | src/core/scheduler/transitions.rs:649-684 | In every reachable state a user's stored usage, decayed to any later time, is the sum over that user's finished jobs of GPU-seconds decayed since they ended, each job once and only if it ran |
| Theorems.CycleSparesReservations | src/core/scheduler/reservations.rs:255-297 | In every reachable state, a cycle hands out no GPU that an open reservation covering this instant, marked active before the cycle or not, names for another user |
| Theorems.StartedGpusAreFree | src/core/scheduler/scheduling.rs:275-319 | What a cycle starts holds available GPUs that no active reservation of another user names |
| Theorems.ReservationsFit | src/core/conflict.rs:104-201 | In every reachable state, for every instant, index reservations in force share no GPU, indices and counts together fit into the machine, and there is an assignment of distinct GPUs to all of them |
| Theorems.CascadeIsExact | src/core/scheduler/transitions.rs:537-601 | In any graph, whatever the modes, a propagating failure cancels exactly the least set of queued auto-cancelling jobs closed under having no chance left, by the counters before, once the source and the set have announced their failure |
| Theorems.AllModeCascadeIsExact | src/core/scheduler/transitions.rs:537-601 | In a graph of All-mode jobs it cancels exactly the least set of queued auto-cancelling jobs closed under having a dependency in the set or equal to the source |
| Theorems.FailureTakesDown | src/core/scheduler/transitions.rs:314-406 | In every reachable state, when a running job fails, the queued auto-cancelling jobs that are cancelled are exactly its downfall, and those cancelled though their dependencies can still be met are exactly the ones given by `Counters.WronglyCancelled`; both can be worked out before the call |
| Dependencies.CascadeInsideEveryClosure | src/core/scheduler/transitions.rs:314-406 | In any graph, cyclic ones included, a cascade cancels nothing outside any set closed under dependency failure |
| Dependencies.CascadeIsLeastClosure | src/core/scheduler/transitions.rs:314-406 | The jobs cancelled are themselves such a closed set when all jobs are in All mode, whether or not failures are announced twice |
| Dependencies.CascadeIsLeastUnderNews | src/core/scheduler/transitions.rs:314-406 | The jobs a cascade cancels are themselves closed under its news and contained in every set that is |
| Dependencies.CascadeIsDownfall | src/core/scheduler/transitions.rs:314-406 | The jobs a failing cascade cancels are exactly those that lie in every set closed under its news, a set defined on the state before |
| Dependencies.CancelledExactlyWhenSpent | src/core/scheduler/transitions.rs:367-399 | A queued auto-cancelling job is cancelled in a cascade if and only if its counters before and all that the cascade announced leave it no chance |
| Dependencies.RecomputedMeaning | src/core/scheduler/transitions.rs:25-72 | The recomputed flags mean: all (or, in Any mode, some) dependencies finished; and, respectively, some (or all) of them are over without success |
| Dependencies.RecomputedQuiet | src/core/scheduler/scheduling.rs:685-690 | After a recomputation of all counters nobody is flagged or counted out if and only if no queued auto-cancelling job has dependencies that can no longer be met |
| Counters.CountersAreRecomputed | src/core/scheduler/transitions.rs:25-72 | With each edge announced once, the incrementally kept counters and flags of a waiting job equal the recomputation, in both modes |
| Counters.AllModeFlagsAreRecomputed | src/core/scheduler/transitions.rs:314-406 | As the code is: the success counter is exact, the failure counter is at least the recomputed one and zero exactly when it is zero, the satisfied flag is exact, and in All mode the impossible flag too |
| Counters.QuietMeansHope | src/core/scheduler/transitions.rs:379-399 | While no queued auto-cancelling job is flagged or counted out, none has dependencies that can no longer be met, though failure counters may run ahead |
| Counters.MetAndDeadMean | src/core/scheduler/transitions.rs:25-72 | Dependencies are met, and can no longer be met, exactly when the states of the jobs named in the list or in the legacy field say so; a job without a mode needs all of them |
| Counters.ExcessAfterCascade | src/core/scheduler/transitions.rs:383-396 | Over a failing cascade a failure counter gains on the actual failures exactly the number of the job's dependencies that the cascade cancelled |
| Counters.ExactAfterCascade | src/core/scheduler/transitions.rs:383-396 | A failure counter exact before is exact afterwards if and only if no dependency was cancelled in the cascade; that is, if and only if some set closed under the news, as worked out from the state before, contains no dependency of the job |
| Counters.WronglyCancelled | src/core/scheduler/transitions.rs:383-396 | A queued auto-cancelling job is cancelled though its dependencies can still be met if and only if, in the state before, it is in Any mode, none of its dependencies succeeded, and not all of them are failed, the source or in the downfall, but its counter, plus one for the source and one or, announced twice, two for each in the downfall, reaches their number; with an exact counter that is the failures plus, once more, those in the downfall |
| Counters.CascadeKeepsCounters | src/core/scheduler/transitions.rs:314-406 | Announcing a final state, with every cancellation it causes, keeps the counters of all waiting jobs right |
| Counters.SilenceKeepsCounters | src/core/scheduler/transitions.rs:701-714 | A transition that is not announced keeps all counters right once the failed job is set apart |
| JobTables.JobTable.PropagateTerminalState | src/core/scheduler/transitions.rs:314-406 | Terminates on any graph; cancels distinct queued jobs, each when its last chance is gone and with a reason that names one of its own dependencies that failed before it, changes of other jobs at most whether they report waiting for dependencies or begin time, moves every counter by exactly the announcements made, enqueues nobody when it announces a failure, and leaves no job newly flagged as impossible that is queued and wants to be cancelled then |
| JobTables.JobTable.TellDependent | src/core/scheduler/transitions.rs:330-403 | Cancels the dependent if and only if it is queued, wants that, and this news turned its impossible flag on; otherwise its counter moves by one, its reason is brought up to date, and one live entry is pushed if and only if the news made it ready; a job that stays has then missed its begin time if and only if the time has come and it had missed it before, or it was waiting for a time that has come while satisfied |
| JobTables.JobTable.CountDependency | src/core/scheduler/transitions.rs:345-366 | Moves exactly one counter of one job by one, makes both flags what the counters now call for, and reports exactly whether each of them turned on |
| JobTables.JobTable.TransitionJobState | src/core/scheduler/transitions.rs:537-601 | Succeeds exactly for allowed transitions, otherwise changes nothing; moves the job, stamps it, bumps its epoch, keeps all indexes exact, credits it at most once, and then cascades |
| Cascades.SourceBecomes | src/core/scheduler/transitions.rs:537-601 | A transition gives the job the new state, stamps the start of a start and the end of an end, gives it the reason asked for, and leaves everything else of the job as it was |
| JobTables.JobTable.ReleaseToQueue | src/core/scheduler/transitions.rs:537-601 | Only a held job goes back to the queue; its counters are then the recomputed ones unless a dependency of it was cancelled on the way, exact counters of others stay exact, and only jobs with a failed dependency are cancelled |
| JobTables.JobTable.MoveJob | src/core/scheduler/transitions.rs:560-586 | Changing one job's state in place leaves the state index, group counts and both quota tables equal to what the job vectors call for |
| JobTables.JobTable.CreditFairShareUsage | src/core/scheduler/transitions.rs:649-684 | Appends exactly the credit the job earned and keeps the usage table the replay of all credits |
| JobTables.JobTable.BuildDependencyRuntime | src/core/scheduler/transitions.rs:25-72 | The loop over the dependencies computes the counts of successes and failures; its flags say whether the named jobs' actual states let the job run, and whether they rule it out |
| JobTables.JobTable.DependencyFailureCause | src/core/scheduler/transitions.rs:215-231 | Returns the first dependency that is over without success; nothing exactly if there is none or, in Any mode, another one succeeded |
| JobTables.JobTable.EnqueueIfReady | src/core/scheduler/transitions.rs:133-160 | Pushes exactly one entry with the job's current epoch and key if it is queued, satisfied and not waiting for a future time, and nothing otherwise |
| JobTables.JobTable.RefreshSingleJobReadiness | src/core/scheduler/transitions.rs:233-271 | From a state where only this job's counters, flags and entry are out of date, restores the whole invariant: the job gets the recomputed runtime with the next epoch and one live entry if it is ready, or is cancelled with its cascade, which happens whenever it is queued, wants that and can no longer run; reports exactly whether it was cancelled or now waits for something else, and does so whenever its begin time has come and its satisfied flag was wrong |
| JobTables.JobTable.CancelDoomed | src/core/scheduler/transitions.rs:244-262 | A queued job whose dependencies can no longer be met is cancelled for the first failed one, with its cascade; nobody is enqueued, and counters stay exact where no dependency was cancelled |
| JobTables.JobTable.RefreshQueuedDependencyReasonWavefront | src/core/scheduler/transitions.rs:273-301 | Terminates on any graph and keeps the invariant; every dependent of the source that is still queued has its counters recomputed, unless a dependency of it was cancelled on the way, and whatever is cancelled blames a failed dependency of its own |
| Exactness.CascadeKeepsExact | src/core/scheduler/transitions.rs:314-406 | A failing cascade leaves exactly the recomputed counters and flags to every job that had them and of which it cancels no dependency |
| JobTables.JobTable.SyncQueuedWaitReason | src/core/scheduler/transitions.rs:191-213 | Makes a queued job report that it waits for its begin time, else for its dependencies, else clears these two reasons; keeps any other reason, and changes nothing else |
| JobTables.JobTable.SubmitJob | src/core/scheduler/transitions.rs:408-454 | Appends one job under the next id that asks for what was requested and has never run; it is queued and reports its begin time, its dependencies or nothing, or it is already cancelled because of a dependency, the latter whenever it wants that and its dependencies are hopeless, and only if it wants that; enters it in every index, and keeps an acyclic graph acyclic when the new job is not reachable from its dependencies |
| JobTables.JobTable.FinishJob | src/core/scheduler/transitions.rs:686-694 | Acts exactly on running jobs: such a job is finished now, and its dependents are told; otherwise changes nothing; reports whether the job exists |
| JobTables.JobTable.FailJob | src/core/scheduler/transitions.rs:696-699 | Acts exactly on running jobs: such a job has failed now, with its cascade; otherwise changes nothing |
| JobTables.JobTable.FailJobWithoutPropagation | src/core/scheduler/transitions.rs:701-704 | Acts exactly on running jobs: such a job has failed now, and nobody is told; it joins the muted ones only if somebody waits for it; otherwise changes nothing |
| JobTables.JobTable.TimeoutJob | src/core/scheduler/transitions.rs:706-709 | Acts exactly on running jobs: such a job has timed out now, with its cascade; otherwise changes nothing |
| JobTables.JobTable.CancelJob | src/core/scheduler/transitions.rs:716-732 | Acts exactly on queued, held and running jobs: such a job is cancelled now, for the given reason or else by the user, with the whole cascade; a job that is over stays as it is; reports whether the job was running |
| JobTables.JobTable.HoldJob | src/core/scheduler/transitions.rs:734-737 | Acts exactly on queued jobs: such a job is held, nobody else is touched, and its heap entries go stale; otherwise changes nothing |
| JobTables.JobTable.ReleaseJob | src/core/scheduler/transitions.rs:739-745 | Acts exactly on held jobs: such a job is queued again or cancelled at once, the latter whenever it wants that and its dependencies are hopeless; any other job stays as it is |
| JobTables.JobTable.ReleaseJobAt | src/core/scheduler/transitions.rs:747-759 | Sets the begin time and releases a held job; waiting jobs stay out of the heap exactly if the time is not in the future or the job had no live entry |
| JobTables.JobTable.ReleaseDueScheduledJobs | src/core/scheduler/transitions.rs:784-816 | Returns, in ascending order, exactly the queued jobs that report waiting for a begin time which has come; these stop reporting it and report what they still wait for, those that are ready enter the heap with one live entry each, and nothing else changes |
| JobTables.JobTable.ValidateJobUpdate | src/core/scheduler/transitions.rs:940-963 | Accepts exactly updates of existing waiting jobs whose new dependencies exist and do not lead to the job |
| JobTables.JobTable.UpdateJob | src/multicall/gflowd/scheduler_runtime/jobs.rs:385-523 | Applies exactly the acceptable updates: each field that the update gives has the value it gives, all others are as before but for the state and reason of a job that is then cancelled; otherwise changes nothing; recomputes the job's counters when the update bears on them, keeps all indexes exact and the graph acyclic, and keeps queue ranks exactly if no old entry outranks the new key |
| JobTables.JobTable.ReplaceJobDependencies | src/core/scheduler/transitions.rs:456-464 | From the stale state left by an edit, makes the reverse graph the exact transpose again and the job's counters the recomputed ones, unless a dependency of it was cancelled on the way; exact counters of others stay exact |
| JobTables.JobTable.RetargetDependentsToRetry | src/core/scheduler/transitions.rs:466-508 | Retargets exactly the reported dependents; afterwards no waiting job depends on the failed one, every index is exact, and the retargeted jobs have the recomputed counters, unless a dependency of theirs was cancelled on the way |
| Retries.RetriedMeans | src/multicall/gflowd/scheduler_runtime/retry.rs:47-145 | After a retry its specification names what the job names and has no begin time; a dependent that was moved names the retry for the job; both repeat an only dependency in the legacy field; all else is as it was, and only jobs that name the failed one are moved |
| JobTables.JobTable.FinalizeJobWithRetry | src/multicall/gflowd/scheduler_runtime/retry.rs:89-145 | Acts exactly on running jobs that failed or timed out; without a retry the job is then in the state asked for, ended now; with one the job has just failed, in silence, the retry has the next id and asks for what the job asked for, of the others some queued ones are cancelled and nothing else changes but reasons and dependencies, nobody waits for the failed job or is left uninformed, and the retry and the jobs moved to it have the recomputed counters unless a dependency of theirs was cancelled on the way |
| JobTables.JobTable.AutoCancelDependentJobs | src/core/scheduler/transitions.rs:895-938 | From any state keeps the invariant, cancels queued jobs and changes others at most in their reason; afterwards no queued auto-cancelling job that waits for the failed job, or for one that this cancelled, is flagged as impossible; returns nothing and changes nothing between operations of a run |
| JobTables.JobTable.RebuildUserJobsIndex | src/core/scheduler/scheduling.rs:630-694 | From the job vectors alone builds every index, counter and heap entry so that the whole invariant holds, and changes no index that was right already; afterwards nobody is left to cancel if and only if the job vectors held no doomed job |
| JobTables.JobTable.RebuildIndexes | src/core/scheduler/scheduling.rs:630-683 | The rebuilt user, state and project lists, group counts, quota tables and reverse graph equal the ones kept in place |
| JobTables.JobTable.DrainReady | src/core/scheduler/scheduling.rs:145-167 | Empties the heap and returns each found job once: higher priority first, then greater time bonus, then the older job |
| JobTables.JobTable.UpdateStateJobsIndex | src/core/scheduler/access.rs:8-39 | After a state change the index of jobs by state is exactly the inverse of the states again |
| JobTables.JobTable.UpdateGroupRunningCount | src/core/scheduler/transitions.rs:510-535 | After a state change each group's count is again the number of its running jobs, with no zero entries |
| JobTables.JobTable.UpdateQuotaRunningUsage | src/core/scheduler/transitions.rs:614-647 | After a state change both quota tables are again the sums over running jobs |
| InvertedIndex.InsertIndexes | src/core/scheduler/access.rs:8-71 | Inserting in order keeps an index ascending and its lists exactly the inverse of the jobs' keys |
| InvertedIndex.RemoveIndexes | src/core/scheduler/access.rs:8-71 | Removing keeps the same and leaves no empty entry |
| InvertedIndex.IndexUnique | src/core/scheduler/scheduling.rs:630-683 | There is only one such index for given keys, so the one kept in place and the rebuilt one are equal |
| Tally.RecordTallies | src/core/quota.rs:70-80 | Recording a start keeps the usage table the exact sums over running jobs |
| Tally.ReleaseTallies | src/core/quota.rs:82-102 | Releasing takes out exactly one job and its GPUs and drops entries that reach zero |
| Tally.TalliesUnique | src/core/scheduler/scheduling.rs:630-683 | The sums determine the usage table completely |
| CycleCheck.HasPath | src/core/scheduler/transitions.rs:867-893 | Depth-first search from nothing visited terminates and succeeds if and only if the target is reachable |
| CycleCheck.HasPathDfs | src/core/scheduler/transitions.rs:867-893 | A branch that fails leaves behind only jobs whose dependencies have all been visited, the target not among them |
| CycleCheck.ValidateNoCircularDependency | src/core/scheduler/transitions.rs:847-865 | Accepts a list if and only if none of its jobs already leads to the dependent |
| CycleCheck.InstallKeepsAcyclic | src/core/scheduler/transitions.rs:847-865 | Installing dependencies that passed the check keeps an acyclic graph acyclic |
| Edits.UpdateKeepsAcyclic | src/core/scheduler/transitions.rs:940-963 | An accepted update closes no cycle, though the legacy single dependency is not checked again |
| Retries.RetryKeepsGraph | src/core/scheduler/transitions.rs:466-508 | A retry that takes over dependencies and dependents keeps the graph acyclic and free of dangling edges |
| Draining.FoundExactly | src/core/scheduler/scheduling.rs:147-164 | A drain that looks only at the first entry of each job finds a job if and only if its live entry is in the heap, its dependencies are satisfied and no older entry outranks its present key |
| Draining.HeapOrderMeans | src/core/scheduler.rs:64-79 | Heap order of two jobs' live entries is the order of priority, then time bonus, then age |
| ReadyQueue.TimeBonusMeans | src/core/scheduler/scheduling.rs:4-20 | The time bonus is 100 without a limit, 200 from a day on, else 200 and the rounded-down part of 100 that the limit leaves of a day; a shorter limit never earns less |
| Draining.DrainLosesOnlyHidden | src/core/scheduler/scheduling.rs:147-164 | After a drain the only ready jobs without entry are those that came out and those hidden by a lowered rank |
| Schedulers.Scheduler.PrepareJobsForExecution | src/core/scheduler/scheduling.rs:128-432 | Considers exactly the found jobs, in heap order or fair-share order, one after the other: each is started if and only if it fits the jobs as its predecessors left them, on right GPUs, and is otherwise told the first check that fails; whoever did not start still does not fit at the end, nobody else changes, limits are kept, and free memory is the total less what runs |
| Schedulers.Scheduler.PrepareTwice | src/core/scheduler/scheduling.rs:128-432 | A second cycle at the same moment, whatever its fair-share factors and order of GPUs, starts nothing and leaves jobs but for their waiting reasons, counters, flags, epochs, heap, reservations and free memory as the first left them |
| Cycles.IdleQueue | src/core/scheduler/scheduling.rs:145-167 | What a cycle left in the heap, one live entry for each job it passed over, is exactly what the next drain finds and puts back |
| Cycles.CycleMissesNothing | src/core/scheduler/scheduling.rs:311-425 | A cycle in which nobody is outranked or early makes no All-mode job miss its begin time |
| Cycles.TakeTurn | src/core/scheduler/scheduling.rs:185-425 | Judging one more job against the state its predecessors left keeps every earlier judgement as it was |
| Cycles.WaitsForAReason | src/core/scheduler/scheduling.rs:185-425 | Whoever was passed over in a cycle reports what is still so when the cycle is over: counted in, it would exceed memory, its group or a quota; or reservations in force do not let it have so many GPUs, or too few candidates are left |
| Cycles.GreedyByStart | src/core/scheduler/scheduling.rs:185-425 | Starting a job never makes room for one that was passed over |
| Resources.AdmitsShrinks | src/core/scheduler/scheduling.rs:208-310 | A job that fits next to some running jobs fits next to any part of them, for memory, group, quota, reservations and GPUs together |
| Resources.StartKeepsBounds | src/core/scheduler/scheduling.rs:208-357 | Starting a job that passed all checks keeps host memory, GPU memory, group limits and quotas |
| Schedulers.Scheduler.ConsiderJob | src/core/scheduler/scheduling.rs:185-425 | One job of a cycle: started if and only if it fits what is running, on GPUs that are usable, compatible and first in order, and otherwise given the reason of the first failing check and put back with one live entry unless its begin time is still to come; nothing else changes |
| Schedulers.Scheduler.WithinQuota | src/core/scheduler/quotas.rs:86-120 | Accepts exactly if one more job with so many GPUs stays within the limits of its user and its project, each looked up field by field in named override, named baseline entry, override default and baseline default |
| Schedulers.Scheduler.RefreshAvailableMemory | src/core/scheduler/scheduling.rs:42-59 | Free memory becomes the total less the needs of all running jobs, or nothing if they need more; GPU memory counts when memory is unified |
| Occupancies.GetAvailableGpuSlots | src/core/scheduler/access.rs:191-208 | Returns, ascending, exactly the indices of slots that are available and allowed |
| Occupancies.MemoryOfSlots | src/core/scheduler/scheduling.rs:139-143 | The table of GPU memory lists exactly the slots that say how much they have |
| Schedulers.Scheduler.StartOn | src/core/scheduler/scheduling.rs:311-395 | Starting a chosen job always succeeds, takes exactly its memory, enters it in the tables, and keeps GPUs exclusive |
| Schedulers.Scheduler.ChooseGpus | src/core/scheduler/scheduling.rs:275-319 | Finds GPUs if and only if enough are usable and compatible; chooses distinct ones, and none before which a passed-over candidate comes |
| Schedulers.Scheduler.CheckJob | src/core/scheduler/scheduling.rs:195-273 | The four checks hold together exactly if the job passes against the actual running jobs, and their outcomes determine the waiting reason |
| Schedulers.Scheduler.FairShareSort | src/core/scheduler/scheduling.rs:176-182 | Orders the jobs by higher priority, then higher fair-share factor, then greater time bonus, then age, and loses or doubles none |
| Occupancies.CurrentGpuOccupancy | src/core/scheduler/scheduling.rs:61-97 | The three tables say for each GPU exactly how many running jobs share it, whether one holds it exclusively, and the sum of declared memory limits on it |
| Occupancies.FilterCompatible | src/core/scheduler/scheduling.rs:283-310 | Keeps exactly the GPUs that are compatible with the jobs actually running there, in order |
| Schedulers.Scheduler.HandleFailure | src/core/scheduler/scheduling.rs:538-568 | Fails a running job with its cascade and changes free memory plus memory in use by exactly the job's need if it held GPU ids without running, and not at all otherwise; counting what jobs handed out but ended since still hold, the balance is kept for them too |
| Schedulers.Scheduler.HandleExecutionFailures | src/core/scheduler/scheduling.rs:538-568 | After any list of reports, repeats included, exactly the running jobs among the reported ones have failed, all reported ones have lost their GPU ids, other jobs keep state and GPUs save for queued ones that are cancelled, and each reported job that ran, held no GPU ids or is awaited returned what it held exactly once |
| Resources.StoppedHeld | src/core/scheduler/scheduling.rs:538-568 | A report on a running job, a job without GPU ids or one that was handed out returns exactly what the job held |
| Reservations.FittingKeepsCapacity | src/core/conflict.rs:104-201 | A reservation that passes the conflict check over its range keeps, at every instant, index sets disjoint and indices plus counts within the machine |
| Reservations.CheckIsExact | src/core/conflict.rs:145-201 | The check passes only if the request fits and, for lists without repeats, if and only if it fits |
| Reservations.AssignmentExists | src/core/conflict.rs:104-201 | Whatever is reserved at an instant can be handed out at the same time: disjoint sets of real GPUs of the right sizes, the named ones to those who named them |
| Reservations.CollectReservationState | src/core/conflict.rs:104-143 | The loop computes the GPUs named and the numbers asked for by exactly the uncancelled reservations whose time has an instant in common with the range, or that are a single instant inside it |
| Reservations.TouchesExactly | src/core/reservation.rs:83-86 | The overlap test accepts exactly ranges with an instant in common, and empty ranges strictly inside the other; back-to-back ranges do not overlap |
| Reservations.ReservedAtSomeInstant | src/core/conflict.rs:104-143 | Of reservations that last, a GPU counts as reserved in a range if and only if it is reserved by index at some instant of the range |
| Reservations.FitsMeansRoom | src/core/conflict.rs:145-201 | A request fits if and only if no GPU it names is named by a reservation whose time meets its own, and with it what these name and ask for is within the machine |
| ReservationBooks.ReservationBook.CreateReservation | src/core/scheduler/reservations.rs:4-76 | Creates an admissible request without repeats if and only if there is room for it, and otherwise changes nothing and says why: no GPUs, too many, an index out of range, a start in the past, a GPU it names is named by a reservation whose time meets its own, or too few GPUs are left for the numbers asked for; the new reservation is pending, in order of start time and under a new id, and capacity at every instant is kept |
| ReservationBooks.ReservationBook.CancelReservation | src/core/scheduler/reservations.rs:89-109 | Cancels exactly one pending or active reservation, reports the others as missing, completed or cancelled, and keeps capacity |
| ReservationBooks.ReservationBook.UpdateReservationStatuses | src/core/scheduler/reservations.rs:144-161 | Keeps exactly the pending and active reservations that are not over, and makes those active whose time has come; afterwards the active ones are exactly those that cover the present instant, and capacity is kept |
| Refreshing.RefreshedTwice | src/core/scheduler/reservations.rs:144-161 | Refreshing again at the same moment changes nothing |
| Refreshing.RefreshKeepsExactly | src/core/reservation.rs:89-107 | What is left after a refresh is exactly the open reservations that are not over, active if their time has come |
| Refreshing.RefreshIsExact | src/core/reservation.rs:89-107 | Status updates make the active status mean what the clock says |
| Claiming.UsableIsNotReserved | src/core/scheduler/reservations.rs:255-297 | A user is never offered a GPU that another user has reserved by index, not even through an index reservation of their own |
| Claiming.UsableExactly | src/core/scheduler/reservations.rs:255-297 | A user whose reservations in force name GPUs may use exactly those of them that are available, anybody else exactly the available GPUs that no reservation in force of another user names |
| ReservationBooks.ReservationBook.CheckJobRespectsReservations | src/core/scheduler/reservations.rs:177-252 | While reservations are in force and statuses are up to date, a job that asks for GPUs passes if and only if its user is entitled to them: to no more than the GPUs reserved by index; else than the counts add up to; else to what fits into the machine beside everything the others have reserved, with as many available GPUs that nobody else named |
| Entitlements.ClaimsMean | src/core/scheduler/reservations.rs:183-230 | The claims drawn up for a user are the union of indices and sum of counts reserved at this instant by the user and by the others |
| Entitlements.RespectsExactly | src/core/scheduler/reservations.rs:177-252 | Passing the check and being entitled are the same |
| Entitlements.UsableDistinctExactly | src/core/scheduler/reservations.rs:255-297 | The GPUs offered to a user come without repeats if and only if none of the user's active reservations names an available GPU twice |
| Quotas.Precedence | src/config.rs:148-230 | Each field of the effective limits of a user or a project is what the first of named override, named baseline entry, override default and baseline default that sets it says, and unset if none does |
| Quotas.UserRoom | src/core/scheduler/quotas.rs:86-120 | The check against a user's effective limits passes if and only if one more job, with its GPUs, is within the limit of the first source that sets one |
| Quotas.ProjectRoom | src/core/scheduler/quotas.rs:86-120 | The same for a project |
| Quotas.MergeEntries | src/config.rs:191-213 | The merge loop, in whatever order, gives each name its override fields over its baseline fields and adds no other name |
| FairShare.LazyDecayIsHistory | src/core/scheduler.rs:106-115 | For multiplicative decay and a clock that does not run back, the lazily decayed accumulator equals the decayed sum over the whole history of credits |
| Ledger.LedgerIsJobsHistory | src/core/scheduler/transitions.rs:649-684 | The credits made in any run are one per job that ran and is over, so their history is the jobs' own |
| Durations.DurationRoundTrip | src/utils/parsers.rs:31-71 | Every whole number of seconds within 64 bits is read back as it was printed, with hour fields of any width |
| Durations.FormatIsInjective | src/utils.rs:94-101 | No two durations print alike |
| Durations.LimitsExactly | src/utils/parsers.rs:31-71 | A text is a time limit of so many seconds if and only if it is one number of minutes, or minutes and seconds, or hours, minutes and seconds, with colons between, each number in decimal digits, perhaps behind a plus sign, and of 64 bits |
| Durations.DecimalsAreRead | src/utils/parsers.rs:31-71 | A printed number alone is read as minutes, two with a colon between them as minutes and seconds |
| Witnesses.CancelledTooEarly | src/core/scheduler/transitions.rs:383-396 | With A failed, B on A, and D on any of B and C, D is cancelled while C is queued, though its dependencies can still be met |
| Witnesses.DiamondCancelsTooEarly | src/core/scheduler/transitions.rs:383-396 | From an empty table: the four jobs are submitted, the first starts and fails, and the fourth is cancelled while the third is queued |
| Witnesses.NamedTwice | src/core/scheduler/transitions.rs:5-13 | A job that names its only dependency twice is not satisfied by that dependency finishing |
| Witnesses.SatisfiedWhenDistinct | src/core/scheduler/transitions.rs:95-101 | From empty counters, hearing once of each different dependency satisfies an All-mode job if and only if it names none twice |
| Witnesses.LoweredRankIsLost | src/core/scheduler/scheduling.rs:147-150 | A heap in which a queued, satisfied job has its live entry and still is not found |
| Witnesses.LoweredRankLosesJob | src/core/scheduler/scheduling.rs:147-150 | From an empty table: a job is submitted, its priority is lowered, and the drain does not return it though it is queued and waits for nothing |
| Witnesses.BeginTimeMissed | src/core/scheduler/transitions.rs:377-403 | Telling an Any-mode job that waits for a begin time which has come of a second success clears its reason and leaves the heap empty, so that it is not due either |
| Witnesses.ReleasedTooEarly | src/core/scheduler/transitions.rs:747-759 | From an empty table: a job is submitted and then released for a future time, and the drain returns it now |
| Witnesses.LateReport | src/core/scheduler/scheduling.rs:538-568 | From an empty scheduler: a job starts, is cancelled, a cycle refreshes free memory, and a report that the job was not executed makes free memory exceed the total |
| BeginTimes.SparedAfter | src/core/scheduler/transitions.rs:367-403 | A job that is told and stays queued has missed its begin time afterwards if and only if the time has come and it had missed it before, or it was waiting for a time that has come and was satisfied already; in All mode never |
| BeginTimes.TimesGoOn | src/core/scheduler/transitions.rs:314-406 | What one piece of news does to begin times and what the next does add up: a job told several times is as the first news left it |
| BeginTimes.ToldExactly | src/core/scheduler/transitions.rs:314-345 | Over a transition the jobs whose counters move are exactly those that depend on the source or on a job the cascade cancelled |
| BeginTimes.UntoldIsUnheard | src/core/scheduler/transitions.rs:314-345 | While a state is announced, no job whose turn has not come has heard of it, and nobody hears of a success while failures are announced |
| Witnesses.IndexNamedTwice | src/core/scheduler/reservations.rs:255-297 | A reservation that names a GPU twice offers it to its owner twice |

## Left out

- JobTables.JobTable.SubmitJob: requires a dependency list without repeats; with one the code never satisfies the job incrementally (`Witnesses.SatisfiedWhenDistinct`), and counters and recomputation disagree.
- JobTables.JobTable.UpdateJob: requires the same of a new dependency list.
- Theorems.FlagsAreTrue: the impossible flag of an Any-mode job that is held, or does not cancel with its dependencies, may be wrong in the code as it is; how far its counter is off is `Counters.ExcessAfterCascade`.
- JobTables.JobTable.RebuildUserJobsIndex: does not cancel doomed jobs, as the code does not; from job vectors that did not come from a run, doomed jobs may be left waiting.
- Durations.DurationRoundTrip: bounded by the 64-bit number of seconds that a duration has.
- Durations.LimitsExactly: each number has 64 bits, but a sum of more than 64 bits, which overflows in the code, is just a larger number here.
- Overflow of 32- and 64-bit counters, epochs, ids and sums, other than in the number parser.
- Floating point: rounding of the decay, of the time bonus and of the fair-share factors; how the factors are computed from stored and live usage.
- The pseudo-random order of GPUs; any order is covered.
- The retry budget and lineage (`retry.rs:4-45`): whether a retry is allowed is an input.
- Queue quotas at submission (`count_pending`, `check_queue_quota`), quota override editing, run names and project validation: checks before the modelled operations.
- `timeout_job_without_propagation`: only reached for a state that the retry path excludes.
- `update_job_max_concurrent`, changes of GPU slots, allowed GPUs, total memory, quotas and half-life during a run: the run theorems hold for fixed ones, the theorems about one cycle for any.
- Physical GPUs kept free for reservations by count during scheduling: the code does not promise it, it checks each job alone.
- `next_transition_time`, `next_scheduled_begin_time`, `list_reservations` and other read-only views; shorthand dependency names.
- The fields of a job that no decision reads (command, script, environment, notifications) and the timestamps of reservations.
- Executors, the HTTP server and client, the command line, the file formats of persistence, events, metrics and notifications. A restart reads back the state as it was, on the same machine; jobs that ended meanwhile are ended by later operations.
