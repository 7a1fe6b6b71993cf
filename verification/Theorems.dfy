/** What the invariant of a run means, in terms of the jobs' actual states. */
module Theorems {
  import opened Types
  import opened Accounts
  import opened PlainTerms
  import opened BeginTimes
  import opened Counting
  import opened Dependencies
  import opened JobInvariants
  import opened ReadyQueue
  import opened Cascades
  import opened Counters
  import opened Cycles
  import opened Draining
  import opened Edits
  import opened Entitlements
  import opened FairShare
  import opened JobTables
  import opened Ledger
  import opened Occupancies
  import opened Quotas
  import opened Reservations
  import opened Refreshing
  import opened Claiming
  import opened Resources
  import opened Schedulers
  import opened TableInvariants
  import opened Tally
  import opened Runs

  lemma InvParts(s: Scheduler, now: Time)
    requires Inv(s, now)
    ensures var j := s.jobs;
      && |j.specs| == |j.rts| == |j.depRts| && j.muted == {}
      && CountersOk(j.specs, j.rts, j.depRts, {}, j.echo, 0) && FlagsOk(j.specs, j.depRts, 0)
      && HeapOk(j.rts, j.depRts, j.heap, 0) && NoneLost(j.specs, j.rts, j.depRts, j.heap, {})
      && RuntimesOk(j.rts) && NoneOutranked(j.rts, j.heap) && Quiet(j.specs, j.rts, j.depRts, 0)
      && NoneMissed(j.specs, j.rts, j.depRts, j.heap, 0) && NoneEarly(j.specs, j.depRts, j.heap, now)
      && LedgerOk(j.specs, j.rts, j.credits, 0) && j.fairShare == Replay(j.credits, j.decay)
  {
    hide FlagsOk, HeapOk, NoneLost, RuntimesOk, NoneOutranked, Quiet, LedgerOk, Replay, CountersOk, SpecsOk;
    hide StartedSafely;
    hide GpusExclusive, JobTable.IndexesOk, Unsuccessful, Bounded, Allocated, Scheduler.MachineOk, NoneEarly;
    hide NoneMissed;
  }

  /** In any run the flags that let a job run or doom it say what its dependencies' states say: the
      first always, the second for jobs that wait for all dependencies, for queued jobs that want to be
      cancelled with them, and for all others too when every edge is announced only once. */
  lemma FlagsAreTrue(s: Scheduler, now: Time, id: JobId)
    requires Inv(s, now) && Exists(|s.jobs.rts|, id) && |s.jobs.specs| == |s.jobs.rts| == |s.jobs.depRts|
    requires s.jobs.rts[id - 1].state == JobState.Queued || s.jobs.rts[id - 1].state == JobState.Hold
    ensures var spec, rt, dep := s.jobs.specs[id - 1], s.jobs.rts[id - 1], s.jobs.depRts[id - 1];
      && FlagsSay(spec, dep) && (dep.depsSatisfied <==> Ready(spec, s.jobs.rts))
      && (spec.dependencyMode != Some(Any) || (rt.state == JobState.Queued && spec.autoCancel) || !s.jobs.echo ==>
            (dep.impossible <==> Hopeless(spec, s.jobs.rts)))
  {
    hide Inv, CountersOk, FlagsOk, HeapOk, NoneLost, RuntimesOk, NoneOutranked, Quiet, LedgerOk, Replay, Recomputed;
    hide DependenciesMet, DependenciesDead, Successful, Unsuccessful, Ready, Hopeless, FlagsSay;
    InvParts(s, now);
    var j := s.jobs;
    FlagsFollow(j.specs, j.depRts, id);
    MetAndDeadMean(j.specs[id - 1], j.rts);
    RecomputedMeaning(j.specs[id - 1], j.rts, j.depRts[id - 1].readyEpoch);
    AllModeFlagsAreRecomputed(j.specs, j.rts, j.depRts, {}, j.echo, id);
    if j.rts[id - 1].state.Queued? && j.specs[id - 1].autoCancel {
      QuietMeansHope(j.specs, j.rts, j.depRts, j.echo, id);
    } else if !j.echo {
      CountersAreRecomputed(j.specs, j.rts, j.depRts, {}, id);
    }
  }

  /** In any run a job that has ever started has its dependencies met by what became of them; while it
      runs it holds as many distinct GPUs as it asked for, all of them available and allowed, and shares one
      only if both jobs agree to. */
  lemma RunningIsSound(s: Scheduler, now: Time, id: JobId, other: JobId, gpu: nat)
    requires Inv(s, now) && Exists(|s.jobs.rts|, id) && |s.jobs.specs| == |s.jobs.rts|
    ensures var spec, rt := s.jobs.specs[id - 1], s.jobs.rts[id - 1];
      && (rt.startedAt.Some? || rt.state == JobState.Running || rt.state == JobState.Finished ==>
            Ready(spec, s.jobs.rts))
      && (rt.state == JobState.Running ==> HoldsItsGpus(rt))
      && (Occupies(s.jobs.rts, id, gpu) ==>
            exists slot :: slot in s.gpuSlots && slot.index == gpu && slot.available
                           && (s.allowedGpus.Some? ==> gpu in s.allowedGpus.value))
      && (Occupies(s.jobs.rts, id, gpu) && Occupies(s.jobs.rts, other, gpu) && id != other ==>
            rt.sharing == GpuSharingMode.Shared && s.jobs.rts[other - 1].sharing == GpuSharingMode.Shared)
  {
    hide FlagsOk, HeapOk, NoneLost, NoneOutranked, Quiet, LedgerOk, Replay, CountersOk, SpecsOk, Bounded;
    hide JobTable.IndexesOk, Unsuccessful, Scheduler.MachineOk, NoneEarly, DependenciesMet, Successful, Ready;
    MetAndDeadMean(s.jobs.specs[id - 1], s.jobs.rts);
    assert RunsOn(s.jobs.rts, id, gpu) <==> Occupies(s.jobs.rts, id, gpu);
    assert RunsOn(s.jobs.rts, other, gpu) <==> Occupies(s.jobs.rts, other, gpu);
  }

  /** In any run what runs stays within the effective limits of every user and project, within a
      limit that all jobs of a group share, and within the memory of every GPU and of the host. */
  lemma RunningWithinLimits(s: Scheduler, now: Time, name: string, group: nat, cap: nat)
    requires Inv(s, now) && |s.jobs.specs| == |s.jobs.rts|
    requires forall rt :: rt in s.jobs.rts && rt.state.Running? && rt.group == Some(group) ==>
              rt.maxConcurrent == Some(cap)
    ensures var base, over, specs, rts := s.quotaBaseline, s.quotaOverrides, s.jobs.specs, s.jobs.rts;
      && (forall n: nat ::
            JobLimit(n, Named(over.users, name), Named(base.users, name), over.defaultUser, base.defaultUser) ==>
              |JobsOf(specs, rts, name)| <= n)
      && (forall n: nat ::
            GpuLimit(n, Named(over.users, name), Named(base.users, name), over.defaultUser, base.defaultUser) ==>
              GpusOf(specs, rts, name) <= n)
      && (forall n: nat ::
            JobLimit(n, Named(over.projects, name), Named(base.projects, name), over.defaultProject,
                     base.defaultProject) ==>
              |JobsFor(specs, rts, name)| <= n)
      && (forall n: nat ::
            GpuLimit(n, Named(over.projects, name), Named(base.projects, name), over.defaultProject,
                     base.defaultProject) ==>
              GpusFor(specs, rts, name) <= n)
    ensures var rts := s.jobs.rts;
      && |JobsIn(rts, group)| <= cap
      && (forall slot :: slot in s.gpuSlots && slot.totalMemory.Some? ==>
            DeclaredOn(rts, slot.index) <= slot.totalMemory.value)
      && s.availableMemory + HostMemoryInUse(rts, s.unifiedMemory) <= s.totalMemory
  {
    hide JobTable.Coherent, JobTable.CountersRight, JobTable.IsQuiet, JobTable.Expectant, JobTable.InRank;
    hide JobTable.OnTime, Usage, Merged, Named, JobsOf, JobsFor, JobsIn, GpusOf, GpusFor, DeclaredOn;
    hide MemoryUsed, SharedMemory, MemoryOf, Allocated, UserShares, ProjectShares, HostMemoryInUse;
    Precedence(s.quotaBaseline, s.quotaOverrides, name);
    UserIsCounted(s.jobs.specs, s.jobs.rts, name);
    ProjectIsCounted(s.jobs.specs, s.jobs.rts, name);
    GroupIsCounted(s.jobs.rts, group);
    GroupUnderOneLimit(s.jobs.rts, group, cap);
    MemoryIsCounted(s.jobs.rts, s.unifiedMemory);
    SlotsFit(s.gpuSlots, s.jobs.rts);
  }

  lemma SlotsFit(slots: seq<GpuSlot>, rts: seq<JobRuntime>)
    requires SlotsDistinct(slots)
    ensures GpuMemoryFits(rts, MemoryOf(slots)) ==>
              forall slot :: slot in slots && slot.totalMemory.Some? ==>
                DeclaredOn(rts, slot.index) <= slot.totalMemory.value
  {
    hide MemoryOf, DeclaredOn, SharedMemory;
    forall slot | slot in slots ensures DeclaredOn(rts, slot.index) == SharedMemory(rts, slot.index) {
      DeclaredIsCounted(rts, slot.index);
    }
    MemoryOfSlots(slots);
  }

  lemma GroupUnderOneLimit(rts: seq<JobRuntime>, group: nat, cap: nat)
    requires forall rt :: rt in rts && rt.state.Running? && rt.group == Some(group) ==> rt.maxConcurrent == Some(cap)
    ensures Usage(GroupShares(rts), group).jobs == Usage(LimitShares(rts), (group, cap)).jobs
  {
    hide Sum;
    assert JobWeights(GroupShares(rts), group) == JobWeights(LimitShares(rts), (group, cap));
  }

  /** No ready job is lost. The next cycle considers a job without begin time exactly when it is queued and
      its dependencies are met; one with a begin time, if it waits for all its dependencies, it considers
      or else the job reports that it waits for its begin time. No job is considered early. */
  lemma ReadyMeansFound(s: Scheduler, now: Time, id: JobId)
    requires Inv(s, now) && |s.jobs.specs| == |s.jobs.rts| && Exists(|s.jobs.rts|, id)
    ensures var spec, rt, found := s.jobs.specs[id - 1], s.jobs.rts[id - 1],
                                   Found(s.jobs.rts, s.jobs.depRts, s.jobs.heap, id);
            var ready := rt.state == JobState.Queued && Ready(spec, s.jobs.rts);
      && (found ==> ready && Begun(spec, now))
      && (ready && !found ==>
            && spec.scheduledAt.Some?
            && (spec.dependencyMode != Some(Any) ==> rt.reason == Some(WaitingForStartTime)))
  {
    hide Inv, CountersOk, FlagsOk, RuntimesOk, Quiet, LedgerOk, Replay, DependenciesMet, Successful, Unsuccessful;
    hide TimeBonus, Found, OutrankedBy;
    InvParts(s, now);
    var j := s.jobs;
    SatisfiedMeansMet(j.specs, j.rts, j.depRts, {}, j.echo, id);
    MetAndDeadMean(j.specs[id - 1], j.rts);
    FoundExactly(j.rts, j.depRts, j.heap, id);
    NobodyOutranked(j.rts, j.heap, id);
    IdsOk(j.rts, id);
    if j.specs[id - 1].Mode().All? {
      assert !MissedAt(j.specs, j.rts, j.depRts, j.heap, id);
    }
  }

  /** After the release of due jobs the next cycle considers exactly the queued jobs whose dependencies are
      met and whose begin time, if they have one, has come, save for those that had missed it; and only
      jobs that wait for any of their dependencies can have missed it. */
  method DueJobsAreFound(s: Scheduler, now: Time)
    requires Inv(s, now)
    modifies s.jobs
    ensures |s.jobs.specs| == |s.jobs.rts| && s.jobs.specs == old(s.jobs.specs)
    ensures forall id: JobId :: Exists(|s.jobs.rts|, id) ==>
              var spec, rt := s.jobs.specs[id - 1], s.jobs.rts[id - 1];
              && (old(s.jobs.Missed(id)) ==> spec.dependencyMode == Some(Any))
              && (Found(s.jobs.rts, s.jobs.depRts, s.jobs.heap, id) <==>
                    rt.state == JobState.Queued && Ready(spec, s.jobs.rts) && Begun(spec, now)
                    && !old(s.jobs.Missed(id)))
  {
    hide Inv, Found, MissedAt, JobTable.Valid, JobTable.InRank, JobTable.OnTime, JobTable.Enqueued;
    hide DependenciesMet, Successful, JobTable.Expectant;
    ghost var jobs := s.jobs;
    ghost var specs, rts0, d, heap0 := jobs.specs, jobs.rts, jobs.depRts, jobs.heap;
    RunIsReady(s, now);
    MissedOnlyByAny(s, now);
    var due := s.jobs.ReleaseDueScheduledJobs(now);
    RunSizes(s.jobs);
    forall id: JobId | Exists(|s.jobs.rts|, id)
      ensures Found(s.jobs.rts, s.jobs.depRts, s.jobs.heap, id) <==>
                && s.jobs.rts[id - 1].state.Queued? && Ready(specs[id - 1], s.jobs.rts)
                && !specs[id - 1].StartsAfter(now) && !MissedAt(specs, rts0, d, heap0, id)
    {
      MetAndDeadMean(specs[id - 1], s.jobs.rts);
      assert id in due <==> old(s.jobs.IsDue(id, now));
      FoundAfterRelease(s.jobs, rts0, heap0, due, now, id);
    }
  }

  /** Who has missed its begin time after a job has ended and told its dependents, and the cascade is over: of
      those told, the jobs that already had although the time has come, and those that were dozing while
      satisfied; of all others, those that had before. */
  lemma WhoMissesItsTime(jobs: JobTable, rts0: seq<JobRuntime>, d0: seq<DependencyRuntime>, heap0: multiset<ReadyEntry>,
                         id: JobId, next: JobState, reason: Option<Reason>, now: Time, order: seq<JobId>, j: JobId)
    requires TimesKept(jobs.specs, rts0, jobs.rts, d0, jobs.depRts, heap0, jobs.heap, now) && next.IsFinal()
    requires Transitioned(jobs.specs, rts0, jobs.rts, d0, jobs.depRts, id, next, reason, now, true, order, jobs.echo)
    requires Exists(|jobs.rts|, j)
    ensures jobs.Missed(j) <==>
              && jobs.rts[j - 1].state.Queued?
              && if exists x :: DependsOn(jobs.specs, j, x) && (x == id || x in order)
                 then WillMiss(jobs.specs, rts0, d0, heap0, j, now) else MissedAt(jobs.specs, rts0, d0, heap0, j)
  {
    hide TimesKept, Announced, Cancels, Justified, Driven, WillMiss, MissedAt, Untold, Moved, CountersMoved;
    TimesKeptMeans(jobs.specs, rts0, jobs.rts, d0, jobs.depRts, heap0, jobs.heap, now, j);
    ToldExactly(jobs.specs, d0, jobs.depRts, id, order, next.Finished?, jobs.echo, j);
  }

  lemma MissedOnlyByAny(s: Scheduler, now: Time)
    requires Inv(s, now)
    ensures |s.jobs.specs| == |s.jobs.rts| == |s.jobs.depRts|
    ensures forall id: JobId :: Exists(|s.jobs.rts|, id) && s.jobs.Missed(id) ==> s.jobs.specs[id - 1].Mode().Any?
  {
    hide Inv, CountersOk, FlagsOk, HeapOk, NoneLost, RuntimesOk, NoneOutranked, Quiet, LedgerOk, Replay, MissedAt;
    InvParts(s, now);
  }

  lemma RunSizes(jobs: JobTable)
    requires jobs.Valid()
    ensures |jobs.specs| == |jobs.rts| == |jobs.depRts|
  {
    hide JobTable.CountersRight;
    jobs.CoherentSizes(0, {});
  }

  lemma FoundAfterRelease(jobs: JobTable, rts0: seq<JobRuntime>, heap0: multiset<ReadyEntry>, due: seq<JobId>,
                          now: Time, id: JobId)
    requires jobs.Valid() && jobs.InRank() && jobs.OnTime(now) && |jobs.specs| == |jobs.rts| == |jobs.depRts|
    requires SameButReasons(rts0, jobs.rts) && heap0 <= jobs.heap && Exists(|jobs.rts|, id)
    requires forall e :: e in jobs.heap ==> e in heap0 || e.job in due
    requires id in due <==>
               && jobs.specs[id - 1].scheduledAt.Some? && jobs.specs[id - 1].scheduledAt.value <= now
               && rts0[id - 1].state.Queued? && rts0[id - 1].reason == Some(WaitingForStartTime)
    requires id in due ==> jobs.Enqueued(id)
    ensures Found(jobs.rts, jobs.depRts, jobs.heap, id) <==>
              && jobs.rts[id - 1].state.Queued? && DependenciesMet(jobs.specs[id - 1], Successful(jobs.rts))
              && !jobs.specs[id - 1].StartsAfter(now) && !MissedAt(jobs.specs, rts0, jobs.depRts, heap0, id)
  {
    hide JobTable.Coherent, CountersOk, DependenciesMet, Successful, Found, OutrankedBy, TimeBonus, NoneOutranked;
    hide RuntimesOk, FlagsOk;
    jobs.HeapIsOk();
    jobs.NothingIsLost();
    jobs.FlagsAreRight();
    jobs.SatisfiedExactlyWhenMet(id);
    FoundExactly(jobs.rts, jobs.depRts, jobs.heap, id);
    NobodyOutranked(jobs.rts, jobs.heap, id);
    IdsOk(jobs.rts, id);
    assert LiveEntry(rts0[id - 1], jobs.depRts[id - 1]) == LiveEntry(jobs.rts[id - 1], jobs.depRts[id - 1]);
  }

  lemma NobodyOutranked(rts: seq<JobRuntime>, heap: multiset<ReadyEntry>, id: JobId)
    requires NoneOutranked(rts, heap) && Exists(|rts|, id)
    ensures !OutrankedBy(heap, id, rts[id - 1])
  {
  }

  /** Between operations no queued job that wants to be cancelled with its dependencies is doomed,
      whichever its mode. */
  lemma NobodyIsDoomed(s: Scheduler, now: Time, id: JobId)
    requires Inv(s, now) && |s.jobs.specs| == |s.jobs.rts| == |s.jobs.depRts| && Exists(|s.jobs.rts|, id)
    requires s.jobs.rts[id - 1].state == JobState.Queued && s.jobs.specs[id - 1].autoCancel
    ensures !Hopeless(s.jobs.specs[id - 1], s.jobs.rts)
  {
    hide Inv, CountersOk, FlagsOk, HeapOk, NoneLost, RuntimesOk, NoneOutranked, LedgerOk, Replay, DependenciesDead;
    hide Successful, Unsuccessful, Quiet;
    InvParts(s, now);
    QuietMeansHope(s.jobs.specs, s.jobs.rts, s.jobs.depRts, s.jobs.echo, id);
    MetAndDeadMean(s.jobs.specs[id - 1], s.jobs.rts);
  }

  /** In any run, what the lazily decayed table says a user has used is the sum over that user's jobs:
      each that ran and is over counts once, for its GPU-seconds decayed since it ended. */
  lemma UsageIsHistory(s: Scheduler, now: Time, user: string, t: Time)
    requires Inv(s, now) && now <= t && |s.jobs.specs| == |s.jobs.rts|
    requires Multiplicative(s.jobs.decay.factor) && s.jobs.decay.halfLife > 0.0
    ensures Stored(s.jobs.fairShare, user, t, s.jobs.decay) ==
            JobsHistory(s.jobs.specs, s.jobs.rts, AllJobs(|s.jobs.rts|), |s.jobs.rts|, user, t, s.jobs.decay)
  {
    hide CountersOk, FlagsOk, HeapOk, NoneLost, RuntimesOk, NoneOutranked, Quiet, LedgerOk, Replay, Multiplicative;
    hide Bounded, Allocated, JobTable.Valid, JobTable.IsQuiet, JobTable.Expectant, JobTable.InRank, JobTable.OnTime;
    hide Scheduler.MachineOk;
    hide History, JobsHistory, Stored;
    InvParts(s, now);
    var j := s.jobs;
    LazyDecayIsHistory(j.credits, user, t, j.decay);
    LedgerIsJobsHistory(j.specs, j.rts, j.credits, user, t, j.decay);
  }

  /** No GPU handed out in a cycle is reserved by index, at that instant, for somebody else. */
  lemma StartedGpusAreFree(s: Scheduler, m: Machine, rts0: seq<JobRuntime>, found: seq<JobId>, started: seq<JobId>,
                           now: Time, id: JobId, gpu: nat, r: Reservation)
    requires s.MachineOk() && s.Describes(m, now)
    requires CycleResult(m, s.jobs.specs, rts0, s.jobs.rts, s.jobs.heap, found, started, now)
    requires id in started && s.jobs.rts[id - 1].gpuIds.Some? && gpu in s.jobs.rts[id - 1].gpuIds.value
    requires r in s.book.reservations && r.status.Active? && r.IsActive(now)
    requires r.user != s.jobs.specs[id - 1].submittedBy
    ensures gpu in m.available && gpu !in r.IndexSet()
  {
    hide Admits, Bounded, ActiveNow, ClaimsOf, Usable, IndicesAt, CountsAt;
    assert JobOutcome(m, s.jobs.specs, rts0, s.jobs.rts, started, now, id);
    assert DisjointAt(s.book.reservations, now) && RoomAt(s.book.reservations, |s.gpuSlots|, now);
    UsableIsNotReserved(s.book.reservations, now, s.book.nextId, s.jobs.specs[id - 1].submittedBy, m.available, gpu, r);
  }

  /** In any run, no GPU that a cycle hands out is reserved by index for somebody else at that instant,
      whether or not the reservation was marked active before the cycle. */
  method CycleSparesReservations(s: Scheduler, factor: string -> nat, key: (JobId, nat) -> nat, now: Time)
    returns (started: seq<JobId>)
    requires Inv(s, now)
    modifies s, s.jobs, s.book
    ensures |s.jobs.specs| == |s.jobs.rts|
    ensures forall id: JobId, gpu, r ::
              (id in started && Occupies(s.jobs.rts, id, gpu) && r in old(s.book.reservations)
               && (r.status.Pending? || r.status.Active?) && r.start <= now < r.start + r.duration
               && id <= |s.jobs.specs| && r.user != s.jobs.specs[id - 1].submittedBy) ==>
                !NamesGpu(r, gpu)
  {
    hide Inv, CycleResult, QueueResult, Scheduler.Describes, Scheduler.MachineOk, Refreshed, Found, UpToDate;
    hide JobTable.Coherent, JobTable.CountersRight, JobTable.IsQuiet, JobTable.Expectant, JobTable.InRank;
    hide JobTable.OnTime;
    ghost var m, found;
    RunIsReady(s, now);
    started, m, found := s.PrepareJobsForExecution(factor, key, now);
    RefreshIsExact(old(s.book.reservations), now);
    CycleIsSized(m, s.jobs.specs, old(s.jobs.rts), s.jobs.rts, s.jobs.heap, found, started, now);
    forall id: JobId, gpu, r | id in started && Occupies(s.jobs.rts, id, gpu) && r in old(s.book.reservations)
                               && (r.status.Pending? || r.status.Active?) && r.start <= now < r.start + r.duration
                               && id <= |s.jobs.specs| && r.user != s.jobs.specs[id - 1].submittedBy
      ensures !NamesGpu(r, gpu)
    {
      StartedGpusAreFree(s, m, old(s.jobs.rts), found, started, now, id, gpu, r.(status := Active));
    }
  }

  /** In any run, at every instant, past or to come, index reservations in force then share no GPU, everything
      reserved fits into the machine, and all of it could be handed out at the same time. */
  lemma ReservationsFit(s: Scheduler, now: Time, t: Time) returns (given: map<nat, set<nat>>)
    requires Inv(s, now)
    ensures var rs, total := s.book.reservations, |s.gpuSlots|;
            DisjointAt(rs, t) && RoomAt(rs, total, t) && Assigned(rs, total, t, given)
  {
    hide JobTable.Valid, JobTable.IsQuiet, JobTable.Expectant, JobTable.InRank, JobTable.OnTime, Bounded, Assigned;
    hide Allocated, UpToDate, IdsUnique, InRange, DisjointAt, RoomAt;
    given := AssignmentExists(s.book.reservations, |s.gpuSlots|, s.book.nextId, t);
    assert DisjointAt(s.book.reservations, t) && RoomAt(s.book.reservations, |s.gpuSlots|, t);
  }

  // ---------- why a job is passed over ----------

  /** Reservations in force let this user's jobs have `gpu`. */
  ghost predicate MayUse(rs: seq<Reservation>, now: Time, user: string, gpu: nat) {
    if exists r, x :: r in rs && InForce(r, now, user, true) && NamesGpu(r, x)
    then exists r :: r in rs && InForce(r, now, user, true) && NamesGpu(r, gpu)
    else forall r :: r in rs && InForce(r, now, user, false) ==> !NamesGpu(r, gpu)
  }

  /** Somebody runs on `gpu` who does not share it, or with whom this job does not share it; or the jobs that
      share it declare so much of its memory that this job's limit does not fit. */
  ghost predicate Taken(slots: seq<GpuSlot>, rts: seq<JobRuntime>, rt: JobRuntime, gpu: nat) {
    || (exists id: JobId :: Occupies(rts, id, gpu) && (rts[id - 1].sharing.Exclusive? || rt.sharing.Exclusive?))
    || (rt.sharing.Shared? && rt.gpuMemoryLimit.Some?
        && exists slot :: slot in slots && slot.index == gpu && slot.totalMemory.Some?
                          && slot.totalMemory.value < DeclaredOn(rts, gpu) + rt.gpuMemoryLimit.value)
  }

  /** Counting in this job, its user or its project would exceed the limit of the first source that sets one. */
  ghost predicate OverQuota(base: QuotaConfig, over: QuotaConfig, specs: seq<JobSpec>, rts: seq<JobRuntime>, id: JobId)
    requires |specs| == |rts| && 1 <= id <= |rts|
  {
    var user, project, gpus := specs[id - 1].submittedBy, specs[id - 1].project, rts[id - 1].gpus;
    || (exists n: nat ::
          JobLimit(n, Named(over.users, user), Named(base.users, user), over.defaultUser, base.defaultUser)
          && n < |JobsOf(specs, rts, user)| + 1)
    || (exists n: nat ::
          GpuLimit(n, Named(over.users, user), Named(base.users, user), over.defaultUser, base.defaultUser)
          && n < GpusOf(specs, rts, user) + gpus)
    || (project.Some? && exists n: nat ::
          JobLimit(n, Named(over.projects, project.value), Named(base.projects, project.value), over.defaultProject,
                   base.defaultProject)
          && n < |JobsFor(specs, rts, project.value)| + 1)
    || (project.Some? && exists n: nat ::
          GpuLimit(n, Named(over.projects, project.value), Named(base.projects, project.value), over.defaultProject,
                   base.defaultProject)
          && n < GpusFor(specs, rts, project.value) + gpus)
  }

  /** Job `id` waits, and what it reports is what it lacks. */
  ghost predicate Lacking(s: Scheduler, available: seq<nat>, now: Time, id: JobId)
    reads s, s.jobs, s.book
    requires |s.jobs.specs| == |s.jobs.rts| && 1 <= id <= |s.jobs.rts|
  {
    var specs, rts, rs := s.jobs.specs, s.jobs.rts, s.book.reservations;
    var user, rt := specs[id - 1].submittedBy, rts[id - 1];
    rt.state == JobState.Queued &&
    match rt.reason
    case Some(WaitingForMemory) =>
      s.totalMemory < HostMemoryInUse(rts, s.unifiedMemory) + HostMemory(s.unifiedMemory, rt)
    case Some(WaitingForResources) =>
      rt.group.Some? && rt.maxConcurrent.Some? && rt.maxConcurrent.value <= |JobsIn(rts, rt.group.value)|
    case Some(WaitingForQuota) => OverQuota(s.quotaBaseline, s.quotaOverrides, specs, rts, id)
    case Some(WaitingForGpu) =>
      || ((exists r :: r in rs && r.status.Active?) && !Entitled(rs, now, user, rt.gpus, available, |s.gpuSlots|))
      || |set gpu | gpu in available && MayUse(rs, now, user, gpu) && !Taken(s.gpuSlots, rts, rt, gpu)| < rt.gpus
    case _ => false
  }

  lemma CandidatesAreFree(s: Scheduler, m: Machine, now: Time, user: string, rt: JobRuntime)
    requires s.Describes(m, now) && SlotsDistinct(s.gpuSlots)
    ensures Candidates(m, s.jobs.rts, user, rt) ==
            set gpu | gpu in m.available && MayUse(s.book.reservations, now, user, gpu)
                      && !Taken(s.gpuSlots, s.jobs.rts, rt, gpu)
  {
    hide Usable, ClaimsOf, ActiveNow, Compatible, MemoryOf, DeclaredOn, Merged;
    forall gpu
      ensures gpu in Candidates(m, s.jobs.rts, user, rt) <==>
              gpu in m.available && MayUse(s.book.reservations, now, user, gpu)
              && !Taken(s.gpuSlots, s.jobs.rts, rt, gpu)
    {
      UsableExactly(s.book.reservations, now, user, m.available, gpu);
      TakenExactly(s.gpuSlots, s.jobs.rts, rt, gpu);
    }
  }

  lemma TakenExactly(slots: seq<GpuSlot>, rts: seq<JobRuntime>, rt: JobRuntime, gpu: nat)
    requires SlotsDistinct(slots)
    ensures Compatible(rts, gpu, MemoryOf(slots), rt) <==> !Taken(slots, rts, rt, gpu)
  {
    hide Compatible, MemoryOf, DeclaredOn, SlotsDistinct;
    RefusedExactly(rts, gpu, MemoryOf(slots), rt);
    MemoryOfSlots(slots);
  }

  lemma OverQuotaExactly(base: QuotaConfig, over: QuotaConfig, specs: seq<JobSpec>, rts: seq<JobRuntime>, id: JobId)
    requires |specs| == |rts| && 1 <= id <= |rts|
    ensures !QuotaRoom(specs[id - 1], rts[id - 1], Merged(base, over), specs, rts) <==>
              OverQuota(base, over, specs, rts, id)
  {
    hide JobLimit, GpuLimit, Named, Merged, JobsOf, GpusOf, JobsFor, GpusFor, Usage, UserShares, ProjectShares, RoomFor;
    var user, project, gpus := specs[id - 1].submittedBy, specs[id - 1].project, rts[id - 1].gpus;
    UserIsCounted(specs, rts, user);
    UserRoom(base, over, user, Usage(UserShares(specs, rts), user), gpus);
    if project.Some? {
      ProjectIsCounted(specs, rts, project.value);
      ProjectRoom(base, over, project.value, Usage(ProjectShares(specs, rts), project.value), gpus);
    }
  }

  /** In any run, of the jobs that a cycle finds in the queue it starts some, all of which were queued; and
      each of the others waits for what it reports: host memory, its group, a quota, or a reservation or GPUs.
      `available` are the GPUs that may be used. */
  method PassedOverForAReason(s: Scheduler, factor: string -> nat, key: (JobId, nat) -> nat, now: Time)
    returns (started: seq<JobId>, ghost available: seq<nat>)
    requires Inv(s, now)
    modifies s, s.jobs, s.book
    ensures |s.jobs.specs| == |s.jobs.rts| == |old(s.jobs.rts)| && s.jobs.specs == old(s.jobs.specs)
    ensures Ascending(available)
    ensures forall gpu :: gpu in available <==>
              exists slot :: slot in s.gpuSlots && slot.index == gpu && slot.available
                             && (s.allowedGpus.Some? ==> gpu in s.allowedGpus.value)
    ensures forall id: JobId :: 1 <= id <= |s.jobs.rts| ==>
              var before, after := old(s.jobs.rts)[id - 1], s.jobs.rts[id - 1];
              if id in started
              then before.state == JobState.Queued && old(Found(s.jobs.rts, s.jobs.depRts, s.jobs.heap, id))
                   && after == before.(state := JobState.Running, startedAt := Some(now), gpuIds := after.gpuIds,
                                       reason := None)
              else after == before.(reason := after.reason)
    ensures forall id: JobId ::
              1 <= id <= |s.jobs.rts| && old(Found(s.jobs.rts, s.jobs.depRts, s.jobs.heap, id)) && id !in started ==>
                Lacking(s, available, now, id)
  {
    hide Inv, CycleResult, QueueResult, Scheduler.Describes, Scheduler.MachineOk, Refreshed, Found, UpToDate, Lacking;
    hide JobTable.Coherent, JobTable.CountersRight, JobTable.IsQuiet, JobTable.Expectant, JobTable.InRank;
    hide JobTable.OnTime, Bounded;
    ghost var m, found;
    RunIsReady(s, now);
    RunIsBounded(s, now);
    ghost var specs, rts0, d0, heap0 := s.jobs.specs, s.jobs.rts, s.jobs.depRts, s.jobs.heap;
    started, m, found := s.PrepareJobsForExecution(factor, key, now);
    available := m.available;
    OfferedMeans(s, m, now);
    RefreshIsExact(old(s.book.reservations), now);
    BookIsRight(s);
    CycleIsSized(m, specs, rts0, s.jobs.rts, s.jobs.heap, found, started, now);
    forall id: JobId | Exists(|rts0|, id)
      ensures var before, after := rts0[id - 1], s.jobs.rts[id - 1];
              if id in started
              then before.state == JobState.Queued && id in found
                   && after == before.(state := JobState.Running, startedAt := Some(now), gpuIds := after.gpuIds,
                                       reason := None)
              else after == before.(reason := after.reason)
    {
      OutcomeMeans(m, specs, rts0, s.jobs.rts, s.jobs.heap, found, started, now, id);
    }
    forall id: JobId | Exists(|rts0|, id) && id in found && id !in started ensures Lacking(s, available, now, id) {
      FoundIsQueued(rts0, d0, heap0, id);
      LackingIsRight(s, m, rts0, found, started, now, id);
    }
  }

  lemma RunIsBounded(s: Scheduler, now: Time)
    requires Inv(s, now)
    ensures |s.jobs.specs| == |s.jobs.rts| && Bounded(Limits(s), s.jobs.specs, s.jobs.rts)
  {
    hide JobTable.Coherent, JobTable.CountersRight, JobTable.IsQuiet, JobTable.Expectant, JobTable.OnTime;
    hide Allocated, Scheduler.MachineOk, UpToDate, NoneOutranked, GpuMemoryFits, GroupsFit, QuotasFit, MemoryUsed;
  }

  lemma FoundIsQueued(rts: seq<JobRuntime>, d: seq<DependencyRuntime>, heap: multiset<ReadyEntry>, id: JobId)
    requires Found(rts, d, heap, id)
    ensures Exists(|rts|, id) && rts[id - 1].state.Queued?
  {
  }

  lemma OfferedMeans(s: Scheduler, m: Machine, now: Time)
    requires s.Describes(m, now)
    ensures Ascending(m.available)
    ensures forall gpu :: gpu in m.available <==>
              exists slot :: slot in s.gpuSlots && slot.index == gpu && slot.available
                             && (s.allowedGpus.Some? ==> gpu in s.allowedGpus.value)
  {
    hide Ascending, MemoryOf, Merged, ActiveNow;
    forall gpu
      ensures gpu in m.available <==>
                exists slot :: slot in s.gpuSlots && slot.index == gpu && slot.available
                               && (s.allowedGpus.Some? ==> gpu in s.allowedGpus.value)
    {
      assert gpu in m.available <==> IsOffered(gpu, s.gpuSlots, s.allowedGpus);
    }
  }

  lemma BookIsRight(s: Scheduler)
    requires s.MachineOk()
    ensures s.book.Valid(|s.gpuSlots|) && NoRepeats(s.book.reservations) && SlotsDistinct(s.gpuSlots)
  {
    hide CapacityOk, InRange, IdsUnique, SortedByStart, NoRepeats;
  }

  lemma OutcomeMeans(m: Machine, specs: seq<JobSpec>, rts0: seq<JobRuntime>, rts: seq<JobRuntime>,
                     heap: multiset<ReadyEntry>, found: seq<JobId>, started: seq<JobId>, now: Time, id: JobId)
    requires CycleResult(m, specs, rts0, rts, heap, found, started, now) && Exists(|rts0|, id)
    ensures var before, after := rts0[id - 1], rts[id - 1];
            if id in started
            then before.state == JobState.Queued && id in found
                 && after == before.(state := JobState.Running, startedAt := Some(now), gpuIds := after.gpuIds,
                                     reason := None)
            else after == before.(reason := after.reason)
  {
    hide Admits, Bounded, InTurn;
    assert JobOutcome(m, specs, rts0, rts, started, now, id);
  }

  lemma LackingIsRight(s: Scheduler, m: Machine, rts0: seq<JobRuntime>, found: seq<JobId>, started: seq<JobId>,
                       now: Time, id: JobId)
    requires |s.jobs.specs| == |s.jobs.rts| == |rts0| && Exists(|rts0|, id)
    requires CycleResult(m, s.jobs.specs, rts0, s.jobs.rts, s.jobs.heap, found, started, now) && s.Describes(m, now)
    requires Bounded(Limits(s), s.jobs.specs, rts0) && s.MachineOk()
    requires forall r :: r in s.book.reservations ==> (r.status.Active? <==> r.IsActive(now))
    requires id in found && id !in started && rts0[id - 1].state.Queued?
    ensures Lacking(s, m.available, now, id)
  {
    hide CycleResult, Bounded, Candidates, Respects, ClaimsOf, Taken, MayUse, Entitled, MemoryAllows, GroupAllows;
    hide QuotaAllows, MemoryOf, ActiveNow, HostMemoryInUse, JobsIn, OverQuota, Merged;
    var specs, rts := s.jobs.specs, s.jobs.rts;
    LimitsAreEnough(s, m, specs, rts0, now);
    WaitsForAReason(m, specs, rts0, rts, s.jobs.heap, found, started, now, id);
    CycleIsBounded(m, specs, rts0, rts, s.jobs.heap, found, started, now);
    match rts[id - 1].reason {
      case Some(WaitingForMemory) => MemoryIsLacking(s, m, id);
      case Some(WaitingForResources) => GroupIsFull(rts, id);
      case Some(WaitingForQuota) =>
        ChecksAreRight(m, specs, rts, id);
        OverQuotaExactly(s.quotaBaseline, s.quotaOverrides, specs, rts, id);
      case Some(WaitingForGpu) =>
        CandidatesAreFree(s, m, now, specs[id - 1].submittedBy, rts[id - 1]);
        NotEntitled(s, m, now, specs[id - 1].submittedBy, rts[id - 1].gpus);
    }
  }

  lemma CycleIsBounded(m: Machine, specs: seq<JobSpec>, rts0: seq<JobRuntime>, rts: seq<JobRuntime>,
                       heap: multiset<ReadyEntry>, found: seq<JobId>, started: seq<JobId>, now: Time)
    requires CycleResult(m, specs, rts0, rts, heap, found, started, now) && Bounded(m, specs, rts0)
    ensures MemoryUsed(rts, m.unified) <= m.totalMemory
  {
    hide Admits, InTurn, GpuMemoryFits, GroupsFit, QuotasFit, MemoryUsed;
  }

  lemma MemoryIsLacking(s: Scheduler, m: Machine, id: JobId)
    requires Exists(|s.jobs.rts|, id) && !s.jobs.rts[id - 1].state.Running?
    requires m.unified == s.unifiedMemory && m.totalMemory == s.totalMemory
    requires !MemoryAllows(s.jobs.rts, m.unified, m.totalMemory, id)
    ensures s.totalMemory <
              HostMemoryInUse(s.jobs.rts, s.unifiedMemory) + HostMemory(s.unifiedMemory, s.jobs.rts[id - 1])
  {
    hide HostMemoryInUse, MemoryUsed, MemoryNeed, HostMemory;
    CountInMemory(s.jobs.rts, m.unified, id);
    MemoryIsCounted(s.jobs.rts, m.unified);
  }

  lemma GroupIsFull(rts: seq<JobRuntime>, id: JobId)
    requires Exists(|rts|, id) && !rts[id - 1].state.Running? && !GroupAllows(rts, id)
    ensures var rt := rts[id - 1];
            rt.group.Some? && rt.maxConcurrent.Some? && rt.maxConcurrent.value <= |JobsIn(rts, rt.group.value)|
  {
    hide JobsIn, Usage;
    CountInGroup(rts, id, rts[id - 1].group.value);
    GroupIsCounted(rts, rts[id - 1].group.value);
  }

  lemma NotEntitled(s: Scheduler, m: Machine, now: Time, user: string, gpus: nat)
    requires s.Describes(m, now) && s.MachineOk()
    requires forall r :: r in s.book.reservations ==> (r.status.Active? <==> r.IsActive(now))
    ensures m.active != [] && !Respects(ClaimsOf(m.active, user), gpus, m.available, m.gpuCount) ==>
              (exists r :: r in s.book.reservations && r.status.Active?)
              && !Entitled(s.book.reservations, now, user, gpus, m.available, |s.gpuSlots|)
  {
    hide ClaimsOf, Entitled, ActiveNow, IndicesAt, CountsAt, IdsUnique, NoRepeats, InRange, SortedByStart, Select;
    hide Merged, MemoryOf;
    var rs := s.book.reservations;
    if m.active != [] && !Respects(ClaimsOf(m.active, user), gpus, m.available, m.gpuCount) {
      ActiveNowMembers(rs, now, m.active[0]);
      assert DisjointAt(rs, now) && RoomAt(rs, |s.gpuSlots|, now);
      RespectsExactly(rs, now, s.book.nextId, user, gpus, m.available, |s.gpuSlots|);
    }
  }

  lemma RunIsReady(s: Scheduler, now: Time)
    requires Inv(s, now)
    ensures s.Valid() && s.jobs.Valid() && s.jobs.InRank() && s.jobs.OnTime(now) && UpToDate(s.book.reservations, now)
  {
    hide JobTable.Coherent, JobTable.CountersRight, JobTable.IsQuiet, JobTable.Expectant, JobTable.OnTime, Bounded;
    hide Allocated, Scheduler.MachineOk, UpToDate, NoneOutranked;
  }

  lemma CycleIsSized(m: Machine, specs: seq<JobSpec>, rts0: seq<JobRuntime>, rts: seq<JobRuntime>,
                     heap: multiset<ReadyEntry>, found: seq<JobId>, started: seq<JobId>, now: Time)
    requires CycleResult(m, specs, rts0, rts, heap, found, started, now)
    ensures |specs| == |rts0| == |rts| && forall id: JobId :: id in started ==> Exists(|rts|, id)
  {
    hide Admits, Bounded, InTurn, JobOutcome;
  }

  /** In any graph, whatever the modes, a failure takes down exactly the least set of queued jobs that want
      to be cancelled and have no chance left once the source and the set have announced their failure. */
  lemma CascadeIsExact(jobs: JobTable, rts0: seq<JobRuntime>, d0: seq<DependencyRuntime>, id: JobId, next: JobState,
                       reason: Option<Reason>, now: Time, order: seq<JobId>)
    requires jobs.Valid() && jobs.IsQuiet(0) && |jobs.specs| == |jobs.rts| == |jobs.depRts|
    requires Transitioned(jobs.specs, rts0, jobs.rts, d0, jobs.depRts, id, next, reason, now, true, order, jobs.echo)
    requires next.IsFinal() && !next.Finished?
    ensures var moved := rts0[id - 1 := Moved(rts0[id - 1], next, reason, now)];
      && |moved| == |jobs.specs| == |d0| && ClosedUnderNews(jobs.specs, moved, d0, id, Elements(order), jobs.echo)
      && forall closed :: ClosedUnderNews(jobs.specs, moved, d0, id, closed, jobs.echo) ==> Elements(order) <= closed
  {
    hide JobTable.Coherent, JobTable.CountersRight, Quiet, Cancels, Justified, Announced, Moved, ClosedUnderNews;
    hide Driven;
    var moved := rts0[id - 1 := Moved(rts0[id - 1], next, reason, now)];
    CancelsLength(moved, jobs.rts, order);
    CascadeIsLeastUnderNews(jobs.specs, moved, jobs.rts, d0, jobs.depRts, id, order, jobs.echo);
  }

  /** The jobs that go down, and those among them whose dependencies could still have been met, when the
      running job `id` fails at `now`, as anybody can work out beforehand. */
  ghost predicate FailureOutcome(specs: seq<JobSpec>, rts0: seq<JobRuntime>, rts1: seq<JobRuntime>,
                                 d0: seq<DependencyRuntime>, id: JobId, now: Time, echo: bool, j: JobId)
    requires |specs| == |rts0| == |rts1| == |d0| && Exists(|specs|, id) && Exists(|specs|, j)
  {
    var spec, deps := specs[j - 1], specs[j - 1].Dependencies();
    var down := Downfall(specs, rts0[id - 1 := Moved(rts0[id - 1], JobState.Failed, None, now)], d0, id, echo);
    && (rts1[j - 1].state == JobState.Cancelled <==> j in down)
    && (j in down && !Hopeless(spec, rts1) <==>
          && spec.dependencyMode == Some(Any) && (forall d :: Names(spec, d) ==> !HasFinished(rts0, d))
          && CountIn(deps, Unsuccessful(rts0) + {id} + down) < |deps| <= WillCount(d0[j - 1], deps, id, down, echo))
  }

  /** In any run, what the failure of a running job takes down follows from the state before: exactly its
      downfall, and exactly so many of them wrongly. */
  method FailureTakesDown(s: Scheduler, id: JobId, now: Time)
    requires Inv(s, now) && Exists(|s.jobs.rts|, id) && s.jobs.rts[id - 1].state.Running?
    modifies s.jobs
    ensures var specs, rts0, rts1, d0 := s.jobs.specs, old(s.jobs.rts), s.jobs.rts, old(s.jobs.depRts);
      && |specs| == |rts0| == |rts1| == |d0| && specs == old(s.jobs.specs)
      && forall j: JobId :: Exists(|specs|, j) && rts0[j - 1].state.Queued? && specs[j - 1].autoCancel ==>
           FailureOutcome(specs, rts0, rts1, d0, id, now, s.jobs.echo, j)
  {
    hide JobTable.Coherent, JobTable.InRank, JobTable.OnTime, JobTable.Expectant, Transitioned;
    hide Inv, Credited, FailureOutcome, CountersOk, Quiet;
    ghost var jobs := s.jobs;
    ghost var specs, rts0, d0 := jobs.specs, jobs.rts, jobs.depRts;
    RunIsReady(s, now);
    CountersInRun(s, now);
    RunSizes(s.jobs);
    var found;
    ghost var order;
    found, order := s.jobs.FailJob(id, now);
    RunSizes(s.jobs);
    forall j: JobId | Exists(|specs|, j) && rts0[j - 1].state.Queued? && specs[j - 1].autoCancel
      ensures FailureOutcome(specs, rts0, s.jobs.rts, d0, id, now, s.jobs.echo, j)
    {
      FailureDoes(specs, rts0, s.jobs.rts, d0, s.jobs.depRts, id, now, order, s.jobs.echo, j);
    }
  }

  lemma FailureDoes(specs: seq<JobSpec>, rts0: seq<JobRuntime>, rts1: seq<JobRuntime>, d0: seq<DependencyRuntime>,
                    d1: seq<DependencyRuntime>, id: JobId, now: Time, order: seq<JobId>, echo: bool, j: JobId)
    requires |specs| == |rts0| == |rts1| == |d0| == |d1| && Exists(|specs|, id) && Exists(|specs|, j)
    requires Transitioned(specs, rts0, rts1, d0, d1, id, JobState.Failed, None, now, true, order, echo)
    requires rts0[id - 1].state.Running? && CountersOk(specs, rts0, d0, {}, echo, 0) && Quiet(specs, rts1, d1, 0)
    requires rts0[j - 1].state.Queued? && specs[j - 1].autoCancel
    ensures FailureOutcome(specs, rts0, rts1, d0, id, now, echo, j)
  {
    hide Successful, Unsuccessful, CounterOk, Justified, Announced, Driven, CountersMoved, Quiet, Downfall;
    hide DependenciesDead, WillCount;
    WronglyCancelled(specs, rts0, rts1, d0, d1, id, JobState.Failed, None, now, order, {}, echo, j);
    MetAndDeadMean(specs[j - 1], rts1);
    NoneFinishedMeans(specs[j - 1], rts0);
  }

  lemma NoneFinishedMeans(spec: JobSpec, rts: seq<JobRuntime>)
    ensures (forall d :: d in spec.Dependencies() ==> d !in Successful(rts)) <==>
            (forall d :: Names(spec, d) ==> !HasFinished(rts, d))
  {
    hide Successful, Names, HasFinished, JobSpec.Dependencies, JobSpec.Mode;
    TermsMean(spec, rts);
  }

  /** Among jobs that wait for all their dependencies, this is the least set of queued jobs that want to be
      cancelled and have a dependency that failed or is in the set. */
  lemma AllModeCascadeIsExact(jobs: JobTable, rts0: seq<JobRuntime>, d0: seq<DependencyRuntime>, id: JobId,
                              next: JobState, reason: Option<Reason>, now: Time, order: seq<JobId>)
    requires jobs.Valid() && jobs.IsQuiet(0) && |jobs.specs| == |jobs.rts| == |jobs.depRts|
    requires Transitioned(jobs.specs, rts0, jobs.rts, d0, jobs.depRts, id, next, reason, now, true, order, jobs.echo)
    requires next.IsFinal() && !next.Finished?
    requires forall j: JobId :: Exists(|jobs.specs|, j) ==> jobs.specs[j - 1].Mode().All?
    ensures var moved := rts0[id - 1 := Moved(rts0[id - 1], next, reason, now)];
      && |moved| == |jobs.specs| && ClosedUnderFailure(jobs.specs, moved, id, Elements(order))
      && forall closed :: ClosedUnderFailure(jobs.specs, moved, id, closed) ==> Elements(order) <= closed
  {
    hide JobTable.IndexesOk, HeapOk, NoneLost, RuntimesOk, StartedSafely, GpusExclusive, LedgerOk, Unsuccessful, Replay;
    hide FlagsOk, SpecsOk, CountersOk, Quiet, Cancels, Justified, CountersMoved, Announced, Moved, ClosedUnderFailure;
    hide Driven;
    var moved := rts0[id - 1 := Moved(rts0[id - 1], next, reason, now)];
    CancelsLength(moved, jobs.rts, order);
    CascadeIsLeastClosure(jobs.specs, moved, jobs.rts, d0, jobs.depRts, id, order, jobs.echo);
  }

  lemma CancelsLength(rts0: seq<JobRuntime>, rts1: seq<JobRuntime>, order: seq<JobId>)
    requires Cancels(rts0, rts1, order)
    ensures |rts0| == |rts1|
  {
  }
}
