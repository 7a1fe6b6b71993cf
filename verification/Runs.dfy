/** Whole runs of the scheduler: what every operation keeps, and so what holds however they interleave. */
module Runs {
  import opened Types
  import opened Dependencies
  import opened CycleCheck
  import opened Tally
  import opened JobInvariants
  import opened ReadyQueue
  import opened Cascades
  import opened Counters
  import opened Cycles
  import opened Draining
  import opened Edits
  import opened FairShare
  import opened JobTables
  import opened Ledger
  import opened Occupancies
  import opened Quotas
  import opened Reservations
  import opened ReservationBooks
  import opened Refreshing
  import opened Claiming
  import opened Resources
  import opened Retries
  import opened Schedulers
  import opened Submission
  import opened TableInvariants

  // ---------- what operations do to the bounds ----------

  ghost predicate SameOwners(specs0: seq<JobSpec>, specs1: seq<JobSpec>) {
    |specs0| == |specs1| && forall i :: 0 <= i < |specs0| ==> SameOwner(specs0[i], specs1[i])
  }

  /** The bounds depend on the specifications only through their owners. */
  lemma OwnersKeepBounds(m: Machine, specs0: seq<JobSpec>, specs1: seq<JobSpec>, rts: seq<JobRuntime>)
    requires Bounded(m, specs0, rts) && SameOwners(specs0, specs1)
    ensures Bounded(m, specs1, rts)
  {
    hide GroupsFit, GpuMemoryFits, MemoryUsed, Usage;
    assert UserShares(specs1, rts) == UserShares(specs0, rts);
    assert ProjectShares(specs1, rts) == ProjectShares(specs0, rts);
  }

  /** A job that is not running adds nothing to any sum. */
  lemma AppendKeepsSums(specs: seq<JobSpec>, rts: seq<JobRuntime>, spec: JobSpec, rt: JobRuntime, unified: bool)
    requires |specs| == |rts| && !rt.state.Running?
    ensures MemoryUsed(rts + [rt], unified) == MemoryUsed(rts, unified)
    ensures forall gpu :: SharedMemory(rts + [rt], gpu) == SharedMemory(rts, gpu)
    ensures forall key :: Usage(LimitShares(rts + [rt]), key) == Usage(LimitShares(rts), key)
    ensures forall key :: Usage(UserShares(specs + [spec], rts + [rt]), key) == Usage(UserShares(specs, rts), key)
    ensures forall key :: Usage(ProjectShares(specs + [spec], rts + [rt]), key) == Usage(ProjectShares(specs, rts), key)
  {
    hide Usage;
    assert MemoryShares(rts + [rt], unified) == MemoryShares(rts, unified) + [None];
    UsageExtend(MemoryShares(rts, unified), 0);
    forall gpu ensures SharedMemory(rts + [rt], gpu) == SharedMemory(rts, gpu) {
      AppendShared(rts, rt, gpu);
    }
    assert LimitShares(rts + [rt]) == LimitShares(rts) + [None];
    forall key ensures Usage(LimitShares(rts + [rt]), key) == Usage(LimitShares(rts), key) {
      UsageExtend(LimitShares(rts), key);
    }
    assert UserShares(specs + [spec], rts + [rt]) == UserShares(specs, rts) + [None];
    assert ProjectShares(specs + [spec], rts + [rt]) == ProjectShares(specs, rts) + [None];
    forall key
      ensures Usage(UserShares(specs + [spec], rts + [rt]), key) == Usage(UserShares(specs, rts), key)
      ensures Usage(ProjectShares(specs + [spec], rts + [rt]), key) == Usage(ProjectShares(specs, rts), key)
    {
      UsageExtend(UserShares(specs, rts), key);
      UsageExtend(ProjectShares(specs, rts), key);
    }
  }

  lemma AppendKeepsBounds(m: Machine, specs: seq<JobSpec>, rts: seq<JobRuntime>, spec: JobSpec, rt: JobRuntime)
    requires Bounded(m, specs, rts) && !rt.state.Running?
    ensures Bounded(m, specs + [spec], rts + [rt])
    ensures MemoryUsed(rts + [rt], m.unified) == MemoryUsed(rts, m.unified)
  {
    hide Usage, MemoryUsed, SharedMemory, LimitShares, UserShares, ProjectShares;
    AppendKeepsSums(specs, rts, spec, rt, m.unified);
  }

  lemma AppendKeepsAllocated(rts: seq<JobRuntime>, rt: JobRuntime)
    requires Allocated(rts) && !rt.state.Running?
    ensures Allocated(rts + [rt])
  {
    forall id: JobId | Exists(|rts + [rt]|, id) && (rts + [rt])[id - 1].state.Running?
      ensures AllocationOk((rts + [rt])[id - 1])
    {
      assert Exists(|rts|, id);
    }
  }

  lemma AppendKeepsOffered(rts: seq<JobRuntime>, rt: JobRuntime, slots: seq<GpuSlot>, allowed: Option<seq<nat>>)
    requires OnOffered(rts, slots, allowed) && !rt.state.Running?
    ensures OnOffered(rts + [rt], slots, allowed)
  {
    forall id: JobId, gpu | RunsOn(rts + [rt], id, gpu) ensures IsOffered(gpu, slots, allowed) {
      assert RunsOn(rts, id, gpu);
    }
  }

  /** What a cycle starts runs on GPUs that are offered. */
  lemma CycleKeepsOffered(s: Scheduler, m: Machine, specs: seq<JobSpec>, rts0: seq<JobRuntime>, rts: seq<JobRuntime>,
                          heap: multiset<ReadyEntry>, found: seq<JobId>, started: seq<JobId>, now: Time)
    requires s.Describes(m, now) && CycleResult(m, specs, rts0, rts, heap, found, started, now)
    requires OnOffered(rts0, s.gpuSlots, s.allowedGpus)
    ensures OnOffered(rts, s.gpuSlots, s.allowedGpus)
  {
    hide Admits, Bounded, InTurn, ClaimsOf, Select, MemoryOf, Merged, ActiveNow, Offered;
    forall id: JobId, gpu | RunsOn(rts, id, gpu) ensures IsOffered(gpu, s.gpuSlots, s.allowedGpus) {
      assert JobOutcome(m, specs, rts0, rts, started, now, id);
      if id in started {
        assert gpu in Usable(ClaimsOf(m.active, specs[id - 1].submittedBy), m.available);
      } else {
        assert RunsOn(rts0, id, gpu);
      }
    }
  }

  // ---------- the graph ----------

  lemma PathStaysInside(specs: seq<JobSpec>, p: seq<JobId>)
    requires NoneDangling(specs) && Path(specs, p) && Exists(|specs|, p[0])
    ensures Exists(|specs|, p[|p| - 1])
  {
    if |p| > 1 {
      assert DependsOn(specs, p[|p| - 2], p[|p| - 2 + 1]);
    }
  }

  /** Nothing leads to a job that does not exist yet. */
  lemma NothingReachesNew(specs: seq<JobSpec>, d: JobId)
    requires NoneDangling(specs) && Exists(|specs|, d)
    ensures !Reaches(specs, d, |specs| + 1)
  {
    forall p | Path(specs, p) && p[0] == d ensures !PathFrom(specs, p, d, |specs| + 1) {
      PathStaysInside(specs, p);
    }
  }

  lemma SubmissionKeepsGraph(specs: seq<JobSpec>, spec: JobSpec)
    requires NoneDangling(specs) && forall d :: d in spec.Dependencies() ==> Exists(|specs|, d)
    ensures NoneDangling(specs + [spec])
    ensures forall d :: d in spec.Dependencies() ==> !Reaches(specs, d, |specs| + 1)
  {
    var specs' := specs + [spec];
    forall a: JobId, d: JobId | DependsOn(specs', a, d) ensures Exists(|specs'|, d) {
      assert a <= |specs| ==> DependsOn(specs, a, d);
    }
    forall d | d in spec.Dependencies() ensures !Reaches(specs, d, |specs| + 1) {
      NothingReachesNew(specs, d);
    }
  }

  lemma UpdateKeepsNoneDangling(specs: seq<JobSpec>, id: JobId, update: JobUpdate)
    requires NoneDangling(specs) && Exists(|specs|, id)
    requires update.dependsOnIds.Some? ==> forall d :: d in update.dependsOnIds.value ==> Exists(|specs|, d)
    ensures NoneDangling(specs[id - 1 := update.ApplyToSpec(specs[id - 1])])
  {
    var specs' := specs[id - 1 := update.ApplyToSpec(specs[id - 1])];
    forall a: JobId, d: JobId | DependsOn(specs', a, d) ensures Exists(|specs'|, d) {
      assert DependsOn(specs, a, d) || (update.dependsOnIds.Some? && d in update.dependsOnIds.value);
    }
  }

  lemma RescheduleKeepsGraph(specs0: seq<JobSpec>, specs1: seq<JobSpec>, id: JobId, at: Time)
    requires Rescheduled(specs0, specs1, id, at)
    ensures NoneDangling(specs0) ==> NoneDangling(specs1)
    ensures Acyclic(specs0) ==> Acyclic(specs1)
    ensures SameOwners(specs0, specs1)
  {
    forall a: JobId, d: JobId ensures DependsOn(specs1, a, d) <==> DependsOn(specs0, a, d) {
    }
    if Acyclic(specs0) {
      RenamingKeepsAcyclic(specs0, specs1, 0, 0);
    }
  }

  lemma RetryKeepsOwners(specs0: seq<JobSpec>, specs1: seq<JobSpec>, id: JobId, done: set<JobId>)
    requires Retried(specs0, specs1, id, done)
    ensures SameOwners(specs0 + [RetrySpec(specs0[id - 1])], specs1)
  {
    var between := specs0 + [RetrySpec(specs0[id - 1])];
    forall i | 0 <= i < |between| ensures SameOwner(between[i], specs1[i]) {
      assert Exists(|between|, i + 1);
    }
  }

  // ---------- the invariant of a run ----------

  /** The machine's limits, as far as the bounds depend on them. */
  ghost function Limits(s: Scheduler): Machine
    reads s
  {
    Machine(s.unifiedMemory, s.totalMemory, |s.gpuSlots|, [], MemoryOf(s.gpuSlots),
            Merged(s.quotaBaseline, s.quotaOverrides), [])
  }

  /** Everything that holds between operations at time `now`, if nobody breaks the rules. */
  ghost predicate Inv(s: Scheduler, now: Time)
    reads s, s.jobs, s.book
  {
    && s.Valid() && s.jobs.IsQuiet(0) && s.jobs.Expectant(0) && s.jobs.InRank() && s.jobs.OnTime(now)
    && s.jobs.muted == {}
    && Punctual(s.jobs.credits, now)
    && Acyclic(s.jobs.specs) && NoneDangling(s.jobs.specs)
    && Bounded(Limits(s), s.jobs.specs, s.jobs.rts) && OnOffered(s.jobs.rts, s.gpuSlots, s.allowedGpus)
    && s.availableMemory + MemoryUsed(s.jobs.rts, s.unifiedMemory) <= s.totalMemory
    && UpToDate(s.book.reservations, now)
  }

  /** Time passing breaks nothing. */
  lemma Later(s: Scheduler, now: Time, later: Time)
    requires Inv(s, now) && now <= later
    ensures Inv(s, later)
  {
    hide Bounded, Acyclic, NoneDangling, JobTable.Valid, Allocated, OnOffered, Scheduler.MachineOk, MemoryUsed;
    hide JobTable.IsQuiet, JobTable.Expectant, JobTable.InRank;
    OnTimeLater(s, now, later);
  }

  lemma OnTimeLater(s: Scheduler, now: Time, later: Time)
    requires s.jobs.OnTime(now) && now <= later
    ensures s.jobs.OnTime(later)
  {
  }

  /** What an operation on jobs has to show for the invariant to hold again: `specs0` and `rts0` are
      the jobs before, in a state where the invariant held. */
  lemma InvFrom(s: Scheduler, specs0: seq<JobSpec>, rts0: seq<JobRuntime>, now: Time)
    requires Bounded(Limits(s), specs0, rts0) && Allocated(rts0) && OnOffered(rts0, s.gpuSlots, s.allowedGpus)
    requires s.availableMemory + MemoryUsed(s.jobs.rts, s.unifiedMemory) <= s.totalMemory
    requires s.MachineOk() && UpToDate(s.book.reservations, now)
    requires s.jobs.Valid() && s.jobs.IsQuiet(0) && s.jobs.Expectant(0) && s.jobs.InRank() && s.jobs.OnTime(now)
    requires s.jobs.muted == {}
    requires Punctual(s.jobs.credits, now)
    requires Acyclic(s.jobs.specs) && NoneDangling(s.jobs.specs)
    requires SameOwners(specs0, s.jobs.specs) && RunningShrinks(rts0, s.jobs.rts)
    ensures Inv(s, now)
  {
    hide Acyclic, NoneDangling, JobTable.Valid, JobTable.IsQuiet, JobTable.Expectant, JobTable.InRank, JobTable.OnTime;
    hide Punctual, UpToDate;
    hide Bounded, RunningShrinks, Allocated, OnOffered, MemoryUsed, Scheduler.MachineOk;
    var m := Limits(s);
    BoundedSizes(m, specs0, rts0);
    BoundedShrinks(m, specs0, rts0, s.jobs.rts);
    OwnersKeepBounds(m, specs0, s.jobs.specs, s.jobs.rts);
    ShrinkKeepsAllocated(rts0, s.jobs.rts);
    ShrinkKeepsOffered(rts0, s.jobs.rts, s.gpuSlots, s.allowedGpus);
  }

  lemma InvKept(s: Scheduler, specs0: seq<JobSpec>, rts0: seq<JobRuntime>, now: Time)
    requires Bounded(Limits(s), specs0, rts0) && Allocated(rts0) && OnOffered(rts0, s.gpuSlots, s.allowedGpus)
    requires s.availableMemory + MemoryUsed(rts0, s.unifiedMemory) <= s.totalMemory
    requires s.MachineOk() && UpToDate(s.book.reservations, now)
    requires s.jobs.Valid() && s.jobs.IsQuiet(0) && s.jobs.Expectant(0) && s.jobs.InRank() && s.jobs.OnTime(now)
    requires s.jobs.muted == {}
    requires Punctual(s.jobs.credits, now)
    requires Acyclic(s.jobs.specs) && NoneDangling(s.jobs.specs)
    requires SameOwners(specs0, s.jobs.specs) && RunningShrinks(rts0, s.jobs.rts)
    ensures Inv(s, now)
  {
    hide Acyclic, NoneDangling, JobTable.Valid, JobTable.IsQuiet, JobTable.Expectant, JobTable.InRank, JobTable.OnTime;
    hide Punctual, UpToDate;
    hide Bounded, RunningShrinks, Allocated, OnOffered, MemoryUsed, Scheduler.MachineOk, SameOwners, Inv;
    BoundedSizes(Limits(s), specs0, rts0);
    UsageShrinks(rts0, s.jobs.rts, specs0, s.unifiedMemory);
    InvFrom(s, specs0, rts0, now);
  }

  lemma BoundedSizes(m: Machine, specs: seq<JobSpec>, rts: seq<JobRuntime>)
    requires Bounded(m, specs, rts)
    ensures |specs| == |rts|
  {
  }

  // ---------- operations ----------

  datatype Op =
    | Submit(spec: JobSpec, runtime: JobRuntime)
    | Finish(id: JobId)
    | Fail(id: JobId)
    | TimeOut(id: JobId)
    | Cancel(id: JobId, reason: Option<Reason>)
    | Suspend(id: JobId)
    | Release(id: JobId)
    | ReleaseAt(id: JobId, at: Time)
    | ReleaseDue
    | Update(id: JobId, update: JobUpdate)
    | Retry(id: JobId, mayRetry: bool)
    | Sweep(id: JobId)
    | Cycle(factor: string -> nat, key: (JobId, nat) -> nat)
    | Report(results: seq<(JobId, bool)>)
    | Reserve(user: string, gpus: GpuSpec, start: Time, duration: Time)
    | Unreserve(id: nat)
    | Restart

  /** The rules for callers: new dependency lists name existing jobs, each once; a waiting job's rank is
      not lowered below its entries; begin times are set on held jobs; failures to start are reported of
      running jobs, or of jobs that the last cycle handed out (`pending`), whatever has become of them;
      reservations name each GPU once. */
  predicate Permitted(s: Scheduler, op: Op, pending: set<JobId>, now: Time)
    reads s, s.jobs
  {
    match op
    case Submit(spec, runtime) =>
      Distinct(spec.Dependencies()) && forall d :: d in spec.Dependencies() ==> Exists(|s.jobs.specs|, d)
    case ReleaseAt(id, at) => at <= now || !HasLiveEntry(s.jobs.depRts, s.jobs.heap, id)
    case Update(id, update) =>
      && (update.dependsOnIds.Some? ==> Distinct(update.dependsOnIds.value))
      && (Exists(|s.jobs.rts|, id) ==> !OutrankedBy(s.jobs.heap, id, update.ApplyToRuntime(s.jobs.rts[id - 1])))
    case Report(results) => Expected(s.jobs.rts, results, pending)
    case Reserve(user, gpus, start, duration) => gpus.Indices? ==> Distinct(gpus.list)
    case _ => true
  }

  /** Free memory leaves room for what running jobs hold and for what reports on `pending` would return. */
  ghost predicate Covers(s: Scheduler, pending: set<JobId>)
    reads s, s.jobs
  {
    && Awaiting(s.jobs.rts, pending)
    && s.availableMemory + MemoryHeld(s.jobs.rts, pending, s.unifiedMemory) <= s.totalMemory
  }

  /** An operation on jobs that starts nothing leaves room. */
  lemma StillCovers(s: Scheduler, rts0: seq<JobRuntime>, pending: set<JobId>)
    requires Lasts(rts0, s.jobs.rts) && Awaiting(rts0, pending)
    requires s.availableMemory + MemoryHeld(rts0, pending, s.unifiedMemory) <= s.totalMemory
    ensures Covers(s, pending)
  {
    hide Lasts, MemoryHeld, Awaiting;
    HeldShrinks(rts0, s.jobs.rts, pending, s.unifiedMemory);
  }

  /** Where only running jobs are pending, the invariant is enough. */
  lemma RunningCovers(s: Scheduler, now: Time, pending: set<JobId>)
    requires Inv(s, now)
    requires forall id: JobId :: id in pending ==> Exists(|s.jobs.rts|, id) && s.jobs.rts[id - 1].state.Running?
    ensures Covers(s, pending)
  {
    hide Acyclic, NoneDangling, JobTable.Valid, JobTable.IsQuiet, JobTable.Expectant, JobTable.InRank, JobTable.OnTime;
    hide Punctual, UpToDate, Bounded, Allocated, OnOffered, MemoryUsed, MemoryHeld, Scheduler.MachineOk;
    HeldIsMore(s.jobs.rts, pending, s.unifiedMemory);
  }

  /** From what an operation does to running jobs, and to those past waiting, follows what it leaves alone. */
  lemma LastsFrom(rts0: seq<JobRuntime>, rts1: seq<JobRuntime>)
    requires RunningShrinks(rts0, rts1) && RanStays(rts0, rts1)
    ensures Lasts(rts0, rts1)
  {
    hide RanOn;
  }

  lemma GrownLasts(rts0: seq<JobRuntime>, rt: JobRuntime, rts1: seq<JobRuntime>)
    requires RunningShrinks(rts0 + [rt], rts1) && RanStays(rts0, rts1) && !rt.state.Running?
    ensures Lasts(rts0, rts1)
  {
    hide RanOn;
    forall id: JobId | Exists(|rts1|, id) && rts1[id - 1].state.Running?
      ensures id <= |rts0| && rts0[id - 1].state.Running?
    {
      assert Exists(|rts0 + [rt]|, id);
    }
  }

  // ---------- one operation keeps the invariant ----------

  /** What a transition that starts nothing means for what is running and for the ledger. */
  lemma MoveOutcome(specs: seq<JobSpec>, rts0: seq<JobRuntime>, rts1: seq<JobRuntime>, d0: seq<DependencyRuntime>,
                    d1: seq<DependencyRuntime>, credits0: seq<Credit>, credits1: seq<Credit>, id: JobId, next: JobState,
                    reason: Option<Reason>, now: Time, order: seq<JobId>, echo: bool)
    requires !next.Running?
    requires if Exists(|rts0|, id) && rts0[id - 1].state.CanTransitionTo(next)
             then Transitioned(specs, rts0, rts1, d0, d1, id, next, reason, now, true, order, echo)
                  && Credited(specs, rts0, credits0, credits1, id, next, reason, now)
             else rts1 == rts0 && credits1 == credits0
    ensures RunningShrinks(rts0, rts1) && SameOwners(specs, specs) && Lasts(rts0, rts1)
    ensures Punctual(credits0, now) ==> Punctual(credits1, now)
  {
    hide Transitioned, Credited, Punctual;
    if Exists(|rts0|, id) && rts0[id - 1].state.CanTransitionTo(next) {
      TransitionStays(specs, rts0, rts1, d0, d1, id, next, reason, now, true, order, echo);
      TransitionShrinks(specs, rts0, rts1, d0, d1, id, next, reason, now, true, order, echo);
      if Punctual(credits0, now) {
        CreditedPunctually(specs, rts0, credits0, credits1, id, next, reason, now, now);
      }
    }
  }

  method DoFinish(s: Scheduler, id: JobId, now: Time)
    requires Inv(s, now)
    modifies s.jobs
    ensures Inv(s, now) && Lasts(old(s.jobs.rts), s.jobs.rts)
  {
    hide Acyclic, NoneDangling, JobTable.Coherent, JobTable.CountersRight, JobTable.IsQuiet, JobTable.Expectant;
    hide JobTable.InRank, JobTable.OnTime;
    hide Punctual, UpToDate, Bounded, Allocated, OnOffered, MemoryUsed, Scheduler.MachineOk, Transitioned, Credited;
    hide SameOwners, Lasts;
    var found;
    ghost var order;
    found, order := s.jobs.FinishJob(id, now);
    MoveOutcome(s.jobs.specs, old(s.jobs.rts), s.jobs.rts, old(s.jobs.depRts), s.jobs.depRts, old(s.jobs.credits),
                s.jobs.credits, id, Finished, None, now, order, s.jobs.echo);
    InvKept(s, old(s.jobs.specs), old(s.jobs.rts), now);
  }

  method DoFail(s: Scheduler, id: JobId, now: Time)
    requires Inv(s, now)
    modifies s.jobs
    ensures Inv(s, now) && Lasts(old(s.jobs.rts), s.jobs.rts)
  {
    hide Acyclic, NoneDangling, JobTable.Coherent, JobTable.CountersRight, JobTable.IsQuiet, JobTable.Expectant;
    hide JobTable.InRank, JobTable.OnTime;
    hide Punctual, UpToDate, Bounded, Allocated, OnOffered, MemoryUsed, Scheduler.MachineOk, Transitioned, Credited;
    hide SameOwners, Lasts;
    var found;
    ghost var order;
    found, order := s.jobs.FailJob(id, now);
    MoveOutcome(s.jobs.specs, old(s.jobs.rts), s.jobs.rts, old(s.jobs.depRts), s.jobs.depRts, old(s.jobs.credits),
                s.jobs.credits, id, Failed, None, now, order, s.jobs.echo);
    InvKept(s, old(s.jobs.specs), old(s.jobs.rts), now);
  }

  method DoTimeOut(s: Scheduler, id: JobId, now: Time)
    requires Inv(s, now)
    modifies s.jobs
    ensures Inv(s, now) && Lasts(old(s.jobs.rts), s.jobs.rts)
  {
    hide Acyclic, NoneDangling, JobTable.Coherent, JobTable.CountersRight, JobTable.IsQuiet, JobTable.Expectant;
    hide JobTable.InRank, JobTable.OnTime;
    hide Punctual, UpToDate, Bounded, Allocated, OnOffered, MemoryUsed, Scheduler.MachineOk, Transitioned, Credited;
    hide SameOwners, Lasts;
    var found;
    ghost var order;
    found, order := s.jobs.TimeoutJob(id, now);
    MoveOutcome(s.jobs.specs, old(s.jobs.rts), s.jobs.rts, old(s.jobs.depRts), s.jobs.depRts, old(s.jobs.credits),
                s.jobs.credits, id, Timeout, None, now, order, s.jobs.echo);
    InvKept(s, old(s.jobs.specs), old(s.jobs.rts), now);
  }

  method DoCancel(s: Scheduler, id: JobId, reason: Option<Reason>, now: Time)
    requires Inv(s, now)
    modifies s.jobs
    ensures Inv(s, now) && Lasts(old(s.jobs.rts), s.jobs.rts)
  {
    hide Acyclic, NoneDangling, JobTable.Coherent, JobTable.CountersRight, JobTable.IsQuiet, JobTable.Expectant;
    hide JobTable.InRank, JobTable.OnTime;
    hide Punctual, UpToDate, Bounded, Allocated, OnOffered, MemoryUsed, Scheduler.MachineOk, Transitioned, Credited;
    hide SameOwners, Lasts;
    var wasRunning;
    ghost var order;
    wasRunning, order := s.jobs.CancelJob(id, reason, now);
    MoveOutcome(s.jobs.specs, old(s.jobs.rts), s.jobs.rts, old(s.jobs.depRts), s.jobs.depRts, old(s.jobs.credits),
                s.jobs.credits, id, JobState.Cancelled, Some(reason.GetOr(CancelledByUser)), now, order, s.jobs.echo);
    InvKept(s, old(s.jobs.specs), old(s.jobs.rts), now);
  }

  method DoSuspend(s: Scheduler, id: JobId, now: Time)
    requires Inv(s, now)
    modifies s.jobs
    ensures Inv(s, now) && Lasts(old(s.jobs.rts), s.jobs.rts)
  {
    hide Acyclic, NoneDangling, JobTable.Coherent, JobTable.CountersRight, JobTable.IsQuiet, JobTable.Expectant;
    hide JobTable.InRank, JobTable.OnTime;
    hide Punctual, UpToDate, Bounded, Allocated, OnOffered, MemoryUsed, Scheduler.MachineOk, Transitioned, Credited;
    hide SameOwners, Lasts;
    var found := s.jobs.HoldJob(id, now);
    MoveOutcome(s.jobs.specs, old(s.jobs.rts), s.jobs.rts, old(s.jobs.depRts), s.jobs.depRts, old(s.jobs.credits),
                s.jobs.credits, id, Hold, None, now, [], s.jobs.echo);
    InvKept(s, old(s.jobs.specs), old(s.jobs.rts), now);
  }

  lemma ReleaseShrinks(specs: seq<JobSpec>, rts0: seq<JobRuntime>, rts1: seq<JobRuntime>, id: JobId, order: seq<JobId>,
                       now: Time)
    requires Exists(|rts0|, id) && TookDown(specs, rts0[id - 1 := Moved(rts0[id - 1], Queued, None, now)], rts1, order)
    ensures RunningShrinks(rts0, rts1) && (rts0[id - 1].state.Hold? ==> Lasts(rts0, rts1))
  {
    hide TookDown, Moved, RunningShrinks, RanStays, Lasts;
    if rts0[id - 1].state.Hold? {
      MoveStays(rts0, id, Queued, None, now);
      TookDownStays(specs, rts0[id - 1 := Moved(rts0[id - 1], Queued, None, now)], rts1, order);
      RanStaysTrans(rts0, rts0[id - 1 := Moved(rts0[id - 1], Queued, None, now)], rts1);
    }
    MoveShrinks(rts0, id, Queued, None, now);
    TookDownShrinks(specs, rts0[id - 1 := Moved(rts0[id - 1], Queued, None, now)], rts1, order);
    RunningShrinksTrans(rts0, rts0[id - 1 := Moved(rts0[id - 1], Queued, None, now)], rts1);
    if rts0[id - 1].state.Hold? {
      LastsFrom(rts0, rts1);
    }
  }

  method DoRelease(s: Scheduler, id: JobId, now: Time)
    requires Inv(s, now)
    modifies s.jobs
    ensures Inv(s, now) && Lasts(old(s.jobs.rts), s.jobs.rts)
  {
    hide Acyclic, NoneDangling, JobTable.Coherent, JobTable.CountersRight, JobTable.IsQuiet, JobTable.Expectant;
    hide JobTable.InRank, JobTable.OnTime;
    hide Punctual, UpToDate, Bounded, Allocated, OnOffered, MemoryUsed, Scheduler.MachineOk, Transitioned, Credited;
    hide SameOwners, Lasts;
    hide TookDown, Moved;
    var found;
    ghost var order;
    found, order := s.jobs.ReleaseJob(id, now);
    NothingEvolves(s.jobs.specs, old(s.jobs.rts));
    if found && old(s.jobs.rts)[id - 1].state.Hold? {
      ReleaseShrinks(s.jobs.specs, old(s.jobs.rts), s.jobs.rts, id, order, now);
    }
    InvKept(s, old(s.jobs.specs), old(s.jobs.rts), now);
  }

  method DoReleaseAt(s: Scheduler, id: JobId, at: Time, now: Time)
    requires Inv(s, now) && Permitted(s, ReleaseAt(id, at), {}, now)
    modifies s.jobs
    ensures Inv(s, now) && Lasts(old(s.jobs.rts), s.jobs.rts)
  {
    hide Acyclic, NoneDangling, JobTable.Coherent, JobTable.CountersRight, JobTable.IsQuiet, JobTable.Expectant;
    hide JobTable.InRank, JobTable.OnTime;
    hide Punctual, UpToDate, Bounded, Allocated, OnOffered, MemoryUsed, Scheduler.MachineOk, Transitioned, Credited;
    hide SameOwners, Lasts;
    hide TookDown, Moved, HasLiveEntry, Rescheduled;
    var found;
    ghost var order;
    found, order := s.jobs.ReleaseJobAt(id, at, now);
    NothingEvolves(s.jobs.specs, old(s.jobs.rts));
    if found {
      RescheduleKeepsGraph(old(s.jobs.specs), s.jobs.specs, id, at);
      if old(s.jobs.rts)[id - 1].state.Hold? {
        ReleaseShrinks(s.jobs.specs, old(s.jobs.rts), s.jobs.rts, id, order, now);
      }
    }
    InvKept(s, old(s.jobs.specs), old(s.jobs.rts), now);
  }

  method DoReleaseDue(s: Scheduler, now: Time)
    requires Inv(s, now)
    modifies s.jobs
    ensures Inv(s, now) && Lasts(old(s.jobs.rts), s.jobs.rts)
  {
    hide Acyclic, NoneDangling, JobTable.Coherent, JobTable.CountersRight, JobTable.IsQuiet, JobTable.Expectant;
    hide JobTable.InRank, JobTable.OnTime;
    hide Punctual, UpToDate, Bounded, Allocated, OnOffered, MemoryUsed, Scheduler.MachineOk, Transitioned, Credited;
    hide SameOwners, Lasts;
    var due := s.jobs.ReleaseDueScheduledJobs(now);
    ReasonsShrink(old(s.jobs.rts), s.jobs.rts);
    ReasonsStay(old(s.jobs.rts), s.jobs.rts);
    LastsFrom(old(s.jobs.rts), s.jobs.rts);
    NothingEvolves(s.jobs.specs, s.jobs.rts);
    InvKept(s, old(s.jobs.specs), old(s.jobs.rts), now);
  }

  method DoSubmit(s: Scheduler, spec: JobSpec, runtime: JobRuntime, now: Time) returns (id: JobId)
    requires Inv(s, now) && Permitted(s, Submit(spec, runtime), {}, now)
    modifies s.jobs
    ensures Inv(s, now) && Lasts(old(s.jobs.rts), s.jobs.rts)
  {
    hide Acyclic, NoneDangling, JobTable.Coherent, JobTable.CountersRight, JobTable.IsQuiet, JobTable.Expectant;
    hide JobTable.InRank, JobTable.OnTime;
    hide Punctual, UpToDate, Bounded, Allocated, OnOffered, MemoryUsed, Scheduler.MachineOk, Transitioned, Credited;
    hide SameOwners, Lasts;
    hide TookDown, Submitted, Distinct, Reaches, RunningShrinks;
    ghost var order;
    s.jobs.CoherentSizes(0, {});
    SubmissionKeepsGraph(s.jobs.specs, spec);
    id, order := s.jobs.SubmitJob(spec, runtime, now);
    ghost var rt := Submitted(runtime, id);
    SubmittedIsQueued(runtime, id);
    NothingEvolves(s.jobs.specs, s.jobs.rts);
    TookDownShrinks(s.jobs.specs, old(s.jobs.rts) + [rt], s.jobs.rts, order);
    SubmissionStays(s.jobs.specs, old(s.jobs.rts), rt, s.jobs.rts, order);
    GrownLasts(old(s.jobs.rts), rt, s.jobs.rts);
    GrownKept(s, old(s.jobs.specs), old(s.jobs.rts), spec, rt, now);
  }

  /** Like InvKept, for operations that also append a job. */
  lemma GrownKept(s: Scheduler, specs0: seq<JobSpec>, rts0: seq<JobRuntime>, spec: JobSpec, rt: JobRuntime, now: Time)
    requires Bounded(Limits(s), specs0, rts0) && Allocated(rts0) && OnOffered(rts0, s.gpuSlots, s.allowedGpus)
    requires !rt.state.Running?
    requires s.availableMemory + MemoryUsed(rts0, s.unifiedMemory) <= s.totalMemory
    requires s.MachineOk() && UpToDate(s.book.reservations, now)
    requires s.jobs.Valid() && s.jobs.IsQuiet(0) && s.jobs.Expectant(0) && s.jobs.InRank() && s.jobs.OnTime(now)
    requires s.jobs.muted == {}
    requires Punctual(s.jobs.credits, now)
    requires Acyclic(s.jobs.specs) && NoneDangling(s.jobs.specs)
    requires SameOwners(specs0 + [spec], s.jobs.specs) && RunningShrinks(rts0 + [rt], s.jobs.rts)
    ensures Inv(s, now)
  {
    hide Acyclic, NoneDangling, JobTable.Valid, JobTable.IsQuiet, JobTable.Expectant, JobTable.InRank, JobTable.OnTime;
    hide Punctual, UpToDate;
    hide Bounded, RunningShrinks, Allocated, OnOffered, MemoryUsed, Scheduler.MachineOk, SameOwners, Inv;
    var m := Limits(s);
    BoundedSizes(m, specs0, rts0);
    AppendKeepsBounds(m, specs0, rts0, spec, rt);
    AppendKeepsAllocated(rts0, rt);
    AppendKeepsOffered(rts0, rt, s.gpuSlots, s.allowedGpus);
    InvKept(s, specs0 + [spec], rts0 + [rt], now);
  }

  lemma SubmittedIsQueued(runtime: JobRuntime, id: JobId)
    ensures Submitted(runtime, id).state.Queued?
  {
  }

  method DoUpdate(s: Scheduler, id: JobId, update: JobUpdate, now: Time) returns (ok: bool)
    requires Inv(s, now) && Permitted(s, Update(id, update), {}, now)
    modifies s.jobs
    ensures Inv(s, now) && Lasts(old(s.jobs.rts), s.jobs.rts)
  {
    hide Acyclic, NoneDangling, JobTable.Coherent, JobTable.CountersRight, JobTable.IsQuiet, JobTable.Expectant;
    hide JobTable.InRank, JobTable.OnTime;
    hide Punctual, UpToDate, Bounded, Allocated, OnOffered, MemoryUsed, Scheduler.MachineOk, Transitioned, Credited;
    hide SameOwners, Lasts;
    hide TookDown, Distinct, Reaches, OutrankedBy, RunningShrinks;
    ghost var order;
    ok, order := s.jobs.UpdateJob(id, update, now);
    if ok {
      ghost var specs0, rts0 := old(s.jobs.specs), old(s.jobs.rts);
      ghost var rts1 := rts0[id - 1 := update.ApplyToRuntime(rts0[id - 1])];
      UpdateEvolves(s.jobs.specs, specs0, rts0, s.jobs.rts, id, update, order);
      UpdateKeepsNoneDangling(specs0, id, update);
    } else {
      NothingEvolves(s.jobs.specs, s.jobs.rts);
    }
    InvKept(s, old(s.jobs.specs), old(s.jobs.rts), now);
  }

  lemma NothingEvolves(specs: seq<JobSpec>, rts: seq<JobRuntime>)
    ensures SameOwners(specs, specs) && RunningShrinks(rts, rts) && Lasts(rts, rts)
  {
  }

  lemma UpdateEvolves(specs1: seq<JobSpec>, specs0: seq<JobSpec>, rts0: seq<JobRuntime>, rts2: seq<JobRuntime>,
                      id: JobId, update: JobUpdate, order: seq<JobId>)
    requires |specs0| == |rts0| && Exists(|rts0|, id) && rts0[id - 1].state.IsPending()
    requires specs1 == specs0[id - 1 := update.ApplyToSpec(specs0[id - 1])]
    requires TookDown(specs1, rts0[id - 1 := update.ApplyToRuntime(rts0[id - 1])], rts2, order)
    ensures SameOwners(specs0, specs1) && RunningShrinks(rts0, rts2) && Lasts(rts0, rts2)
  {
    hide TookDown;
    var rts1 := rts0[id - 1 := update.ApplyToRuntime(rts0[id - 1])];
    TookDownShrinks(specs1, rts1, rts2, order);
    TookDownStays(specs1, rts1, rts2, order);
    RanStaysTrans(rts0, rts1, rts2);
  }

  method DoRetry(s: Scheduler, id: JobId, mayRetry: bool, now: Time) returns (result: Option<Option<JobId>>)
    requires Inv(s, now)
    modifies s.jobs
    ensures Inv(s, now) && Lasts(old(s.jobs.rts), s.jobs.rts)
  {
    hide Acyclic, NoneDangling, JobTable.Coherent, JobTable.CountersRight, JobTable.IsQuiet, JobTable.Expectant;
    hide JobTable.InRank, JobTable.OnTime;
    hide Punctual, UpToDate, Bounded, Allocated, OnOffered, MemoryUsed, Scheduler.MachineOk, Transitioned, Credited;
    hide SameOwners, Lasts;
    hide Submitted, Retried, RunningShrinks, RanStays, RetrySpec;
    ghost var moved, down;
    s.jobs.CoherentSizes(0, {});
    result, moved, down := s.jobs.FinalizeJobWithRetry(id, Failed, mayRetry, now);
    if result.None? {
      NothingEvolves(s.jobs.specs, s.jobs.rts);
      InvKept(s, old(s.jobs.specs), old(s.jobs.rts), now);
    } else if result.value.None? {
      ghost var order :| s.jobs.Moves(id, Failed, None, true, now, order);
      MoveOutcome(s.jobs.specs, old(s.jobs.rts), s.jobs.rts, old(s.jobs.depRts), s.jobs.depRts, old(s.jobs.credits),
                  s.jobs.credits, id, Failed, None, now, order, s.jobs.echo);
      InvKept(s, old(s.jobs.specs), old(s.jobs.rts), now);
    } else {
      ghost var spec := RetrySpec(old(s.jobs.specs)[id - 1]);
      ghost var rt := Submitted(old(s.jobs.rts)[id - 1], result.value.value);
      RetryKeepsGraph(old(s.jobs.specs), s.jobs.specs, id, Elements(moved));
      RetryKeepsOwners(old(s.jobs.specs), s.jobs.specs, id, Elements(moved));
      SubmittedIsQueued(old(s.jobs.rts)[id - 1], result.value.value);
      GrownLasts(old(s.jobs.rts), rt, s.jobs.rts);
      GrownKept(s, old(s.jobs.specs), old(s.jobs.rts), spec, rt, now);
    }
  }

  method DoSweep(s: Scheduler, id: JobId, now: Time) returns (cancelled: seq<JobId>)
    requires Inv(s, now)
    modifies s.jobs
    ensures Inv(s, now) && Lasts(old(s.jobs.rts), s.jobs.rts) && cancelled == [] && unchanged(s.jobs)
  {
    hide Acyclic, NoneDangling, JobTable.Coherent, JobTable.CountersRight, JobTable.IsQuiet, JobTable.Expectant;
    hide JobTable.InRank, JobTable.OnTime;
    hide Punctual, UpToDate, Bounded, Allocated, OnOffered, MemoryUsed, Scheduler.MachineOk, Transitioned, Credited;
    hide SameOwners, Lasts;
    cancelled := s.jobs.AutoCancelDependentJobs(id, now);
    NothingEvolves(s.jobs.specs, s.jobs.rts);
    InvKept(s, old(s.jobs.specs), old(s.jobs.rts), now);
  }

  /** The limits are all that the bounds look at. */
  lemma LimitsAreEnough(s: Scheduler, m: Machine, specs: seq<JobSpec>, rts: seq<JobRuntime>, now: Time)
    requires s.Describes(m, now)
    ensures Bounded(m, specs, rts) <==> Bounded(Limits(s), specs, rts)
  {
  }

  lemma StartedRun(m: Machine, specs: seq<JobSpec>, rts0: seq<JobRuntime>, rts: seq<JobRuntime>,
                   heap: multiset<ReadyEntry>, found: seq<JobId>, started: seq<JobId>, now: Time)
    requires CycleResult(m, specs, rts0, rts, heap, found, started, now)
    ensures forall id: JobId :: id in started ==> Exists(|rts|, id) && rts[id - 1].state.Running?
  {
    hide Admits, Bounded, InTurn;
    forall id: JobId | id in started ensures Exists(|rts|, id) && rts[id - 1].state.Running? {
      assert JobOutcome(m, specs, rts0, rts, started, now, id);
    }
  }

  method DoCycle(s: Scheduler, factor: string -> nat, key: (JobId, nat) -> nat, now: Time) returns (started: seq<JobId>)
    requires Inv(s, now)
    modifies s, s.jobs, s.book
    ensures Inv(s, now)
    ensures forall id: JobId :: id in started ==> Exists(|s.jobs.rts|, id) && s.jobs.rts[id - 1].state.Running?
  {
    hide Acyclic, NoneDangling, JobTable.Coherent, JobTable.CountersRight, JobTable.IsQuiet, JobTable.Expectant;
    hide JobTable.InRank, JobTable.OnTime;
    hide Punctual, Allocated, OnOffered, MemoryUsed, Scheduler.MachineOk, Found, Scheduler.Describes, Refreshed;
    hide UpToDate, Hidden;
    hide Admits, JobOutcome, GroupsFit, GpuMemoryFits, QuotasFit, MemoryOf, Merged;
    ghost var m, found;
    started, m, found := s.PrepareJobsForExecution(factor, key, now);
    LimitsAreEnough(s, m, old(s.jobs.specs), old(s.jobs.rts), now);
    LimitsAreEnough(s, m, s.jobs.specs, s.jobs.rts, now);
    RefreshIsExact(old(s.book.reservations), now);
    CycleKeepsOffered(s, m, s.jobs.specs, old(s.jobs.rts), s.jobs.rts, s.jobs.heap, found, started, now);
    StartedRun(m, s.jobs.specs, old(s.jobs.rts), s.jobs.rts, s.jobs.heap, found, started, now);
  }

  method DoReport(s: Scheduler, results: seq<(JobId, bool)>, pending: set<JobId>, now: Time)
    requires Inv(s, now) && Covers(s, pending) && Expected(s.jobs.rts, results, pending)
    modifies s, s.jobs
    ensures Inv(s, now) && Covers(s, pending)
  {
    hide Acyclic, NoneDangling, JobTable.Coherent, JobTable.CountersRight, JobTable.IsQuiet, JobTable.Expectant;
    hide JobTable.InRank, JobTable.OnTime, FailedAsReported;
    hide Punctual, UpToDate, Bounded, Allocated, OnOffered, MemoryUsed, Scheduler.MachineOk, RunningShrinks, Expected;
    hide MemoryHeld, Awaiting;
    s.HandleExecutionFailures(results, now, pending);
    NothingEvolves(s.jobs.specs, s.jobs.rts);
    HeldIsMore(s.jobs.rts, pending, s.unifiedMemory);
    InvFrom(s, old(s.jobs.specs), old(s.jobs.rts), now);
  }

  method DoReserve(s: Scheduler, user: string, gpus: GpuSpec, start: Time, duration: Time, now: Time)
    returns (result: CreateResult)
    requires Inv(s, now) && Permitted(s, Reserve(user, gpus, start, duration), {}, now)
    modifies s.book
    ensures Inv(s, now)
  {
    hide Acyclic, NoneDangling, JobTable.Valid, JobTable.IsQuiet, JobTable.Expectant, JobTable.InRank, JobTable.OnTime;
    hide Punctual, Bounded, Allocated, OnOffered, MemoryUsed, SlotsDistinct, PassesCheck, Fits, ReservationBook.Valid;
    hide NoRepeats, InsertByStart;
    result := s.book.CreateReservation(user, gpus, start, duration, |s.gpuSlots|, now);
    if result.Created? {
      InsertMembers(old(s.book.reservations), Reservation(result.id, user, gpus, start, duration, Status.Pending));
    }
  }

  method DoUnreserve(s: Scheduler, id: nat, now: Time) returns (result: CancelResult)
    requires Inv(s, now)
    modifies s.book
    ensures Inv(s, now)
  {
    hide Acyclic, NoneDangling, JobTable.Valid, JobTable.IsQuiet, JobTable.Expectant, JobTable.InRank, JobTable.OnTime;
    hide Punctual, Bounded, Allocated, OnOffered, MemoryUsed, SlotsDistinct, ReservationBook.Valid, NoRepeats;
    result := s.book.CancelReservation(id, |s.gpuSlots|);
  }

  lemma CountersInRun(s: Scheduler, now: Time)
    requires Inv(s, now)
    ensures s.jobs.muted == {} && CountersOk(s.jobs.specs, s.jobs.rts, s.jobs.depRts, {}, s.jobs.echo, 0)
    ensures s.jobs.IsQuiet(0)
  {
    hide Acyclic, NoneDangling, JobTable.Coherent, JobTable.Expectant, JobTable.InRank, JobTable.OnTime, Punctual;
    hide UpToDate, Bounded, Allocated, OnOffered, MemoryUsed, Scheduler.MachineOk, CountersOk, Quiet;
  }

  /** What a rebuild starts from. */
  lemma TablesInRun(s: Scheduler, now: Time)
    requires Inv(s, now)
    ensures var j := s.jobs;
      && j.nextJobId == |j.specs| + 1 && JobsInv(j.specs, j.rts, j.credits, j.muted)
      && j.fairShare == Replay(j.credits, j.decay)
  {
    hide Acyclic, NoneDangling, JobTable.CountersRight, JobTable.IsQuiet, JobTable.Expectant, JobTable.InRank;
    hide JobTable.OnTime, JobTable.IndexesOk, JobsInv, QueueInv, Replay;
    hide Punctual, UpToDate, Bounded, Allocated, OnOffered, MemoryUsed, Scheduler.MachineOk;
  }

  /** Free memory worked out anew suits the invariant. */
  method DoRefresh(s: Scheduler, now: Time)
    requires Inv(s, now)
    modifies s`availableMemory
    ensures Inv(s, now)
  {
    hide Acyclic, NoneDangling, JobTable.Valid, JobTable.IsQuiet, JobTable.Expectant, JobTable.InRank, JobTable.OnTime;
    hide Punctual, UpToDate, Allocated, OnOffered, MemoryUsed, Scheduler.MachineOk;
    hide GpuMemoryFits, GroupsFit, QuotasFit;
    s.RefreshAvailableMemory();
  }

  /** What the daemon does when it comes back up on the state it had saved: everything derived from the job
      vectors is rebuilt, and free memory is worked out anew. */
  method DoRestart(s: Scheduler, now: Time)
    requires Inv(s, now)
    modifies s, s.jobs
    ensures Inv(s, now)
  {
    hide Acyclic, NoneDangling, JobTable.Coherent, JobTable.CountersRight, JobTable.Expectant, JobTable.InRank;
    hide JobTable.OnTime, JobTable.IndexesOk, CountersOk, Quiet, NoneDead, SameButReasons, JobsInv, Replay;
    hide Punctual, UpToDate, Bounded, Allocated, OnOffered, MemoryUsed, Scheduler.MachineOk, SameOwners, RunningShrinks;
    CountersInRun(s, now);
    TablesInRun(s, now);
    QuietMeansNoneDead(s.jobs.specs, s.jobs.rts, s.jobs.depRts, s.jobs.echo);
    s.jobs.RebuildUserJobsIndex(now);
    ReasonsShrink(old(s.jobs.rts), s.jobs.rts);
    NothingEvolves(s.jobs.specs, s.jobs.rts);
    InvKept(s, old(s.jobs.specs), old(s.jobs.rts), now);
    DoRefresh(s, now);
  }

  /** An operation on the jobs alone: no cycle, no report, no reservation and no restart. */
  predicate OnJobs(op: Op) {
    !op.Cycle? && !op.Report? && !op.Reserve? && !op.Unreserve? && !op.Restart?
  }

  method JobStep(s: Scheduler, op: Op, now: Time)
    requires Inv(s, now) && Permitted(s, op, {}, now) && OnJobs(op)
    modifies s.jobs
    ensures Inv(s, now) && Lasts(old(s.jobs.rts), s.jobs.rts)
  {
    hide Inv, Permitted, Lasts;
    match op {
      case Submit(spec, runtime) => var id := DoSubmit(s, spec, runtime, now);
      case Finish(id) => DoFinish(s, id, now);
      case Fail(id) => DoFail(s, id, now);
      case TimeOut(id) => DoTimeOut(s, id, now);
      case Cancel(id, reason) => DoCancel(s, id, reason, now);
      case Suspend(id) => DoSuspend(s, id, now);
      case Release(id) => DoRelease(s, id, now);
      case ReleaseAt(id, at) => DoReleaseAt(s, id, at, now);
      case ReleaseDue => DoReleaseDue(s, now);
      case Update(id, update) => var ok := DoUpdate(s, id, update, now);
      case Retry(id, mayRetry) => var result := DoRetry(s, id, mayRetry, now);
      case Sweep(id) => var cancelled := DoSweep(s, id, now);
    }
  }

  /** One operation, whatever it is, keeps the invariant, and room for the memory that reports can return.
      A cycle hands out the jobs it starts; a restart forgets those that were handed out. */
  method Step(s: Scheduler, op: Op, pending: set<JobId>, now: Time) returns (pending': set<JobId>)
    requires Inv(s, now) && Covers(s, pending) && Permitted(s, op, pending, now)
    modifies s, s.jobs, s.book
    ensures Inv(s, now) && Covers(s, pending')
    ensures pending' == pending || op.Cycle? || op.Restart?
  {
    hide Inv, Lasts, Expected, MemoryHeld, Awaiting;
    pending' := pending;
    match op {
      case Cycle(factor, key) =>
        var started := DoCycle(s, factor, key, now);
        pending' := set id | id in started;
        RunningCovers(s, now, pending');
      case Report(results) => DoReport(s, results, pending, now);
      case Reserve(user, gpus, start, duration) => var result := DoReserve(s, user, gpus, start, duration, now);
      case Unreserve(id) => var result := DoUnreserve(s, id, now);
      case Restart =>
        DoRestart(s, now);
        pending' := {};
        RunningCovers(s, now, pending');
      case _ =>
        JobStep(s, op, now);
        StillCovers(s, old(s.jobs.rts), pending);
    }
  }

  /** A new scheduler satisfies the invariant at any time. */
  lemma FreshInv(s: Scheduler, now: Time)
    requires s.Valid() && s.jobs.specs == [] && s.jobs.IsQuiet(0) && s.jobs.Expectant(0) && s.jobs.InRank()
    requires s.jobs.OnTime(now)
    requires s.jobs.muted == {} && s.jobs.credits == [] && s.book.reservations == []
    requires s.availableMemory == s.totalMemory
    ensures Inv(s, now)
  {
    hide JobTable.IsQuiet, JobTable.Expectant, JobTable.InRank, JobTable.OnTime, Scheduler.MachineOk, Bounded, Acyclic;
    hide NoneDangling, MemoryUsed;
    hide JobTable.Coherent, JobTable.CountersRight;
    s.jobs.CoherentSizes(0, {});
    assert s.jobs.rts == [];
    EmptyBounds(Limits(s));
    EmptyGraph();
  }

  lemma EmptyGraph()
    ensures Acyclic([]) && NoneDangling([])
  {
    var none: seq<JobSpec> := [];
    forall p | Path(none, p) ensures |p| <= 1 {
      assert |p| > 1 ==> DependsOn(none, p[0], p[0 + 1]);
    }
  }

  lemma EmptyBounds(m: Machine)
    ensures Bounded(m, [], []) && MemoryUsed([], m.unified) == 0
  {
    var none: seq<JobRuntime> := [];
    forall key: string
      ensures Usage(UserShares([], none), key) == QuotaUsage(0, 0)
      ensures Usage(ProjectShares([], none), key) == QuotaUsage(0, 0)
    {
    }
    forall key: (nat, nat) ensures Usage(LimitShares(none), key) == QuotaUsage(0, 0) {
    }
    forall gpu ensures SharedMemory(none, gpu) == 0 {
    }
  }

  /** A whole run from a new scheduler: any operations in any order, each some time after the one
      before. Requests that break the callers' rules are not made. */
  method Run(echo: bool, decay: Decay, unified: bool, fairShare: bool, slots: seq<GpuSlot>, allowed: Option<seq<nat>>,
             memory: nat, quotas: QuotaConfig, overrides: QuotaConfig, steps: seq<(Time, Op)>)
    returns (s: Scheduler, now: Time)
    requires SlotsDistinct(slots)
    ensures fresh(s) && Inv(s, now)
  {
    hide Inv, Permitted, Covers, Scheduler.Valid, JobTable.IsQuiet, JobTable.Expectant, JobTable.InRank;
    hide JobTable.OnTime, SlotsDistinct;
    s := new Scheduler(echo, decay, unified, fairShare, slots, allowed, memory, quotas, overrides);
    now := 0;
    FreshInv(s, now);
    var pending := {};
    RunningCovers(s, now, pending);
    for i := 0 to |steps|
      invariant fresh(s) && fresh(s.jobs) && fresh(s.book) && Inv(s, now) && Covers(s, pending)
    {
      Later(s, now, now + steps[i].0);
      now := now + steps[i].0;
      if Permitted(s, steps[i].1, pending, now) {
        pending := Step(s, steps[i].1, pending, now);
      }
    }
  }
}
