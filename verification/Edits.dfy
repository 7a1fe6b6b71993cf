/** Editing a job that has not started: its dependencies, its requests or its begin time. */
module Edits {
  import opened Types
  import opened Dependencies
  import opened CycleCheck
  import opened JobInvariants
  import opened ReadyQueue
  import opened FairShare
  import opened Ledger
  import opened TableInvariants
  import opened BeginTimes
  import opened Exactness

  /** Only what the job asks for may differ, not how far it has got. */
  ghost predicate SameProgress(before: JobRuntime, after: JobRuntime) {
    after == before.(priority := after.priority, gpus := after.gpus, timeLimit := after.timeLimit,
                     memoryLimit := after.memoryLimit, gpuMemoryLimit := after.gpuMemoryLimit,
                     maxConcurrent := after.maxConcurrent)
  }

  ghost predicate SameOwner(before: JobSpec, after: JobSpec) {
    after.submittedBy == before.submittedBy && after.project == before.project
  }

  /** Job `id`, which may still run, was edited; every other job is untouched. */
  ghost predicate Edited(specs0: seq<JobSpec>, specs1: seq<JobSpec>, rts0: seq<JobRuntime>, rts1: seq<JobRuntime>,
                         id: JobId)
  {
    && |specs0| == |specs1| == |rts0| == |rts1| && Exists(|rts0|, id)
    && specs1 == specs0[id - 1 := specs1[id - 1]] && rts1 == rts0[id - 1 := rts1[id - 1]]
    && SameOwner(specs0[id - 1], specs1[id - 1]) && SameProgress(rts0[id - 1], rts1[id - 1])
    && rts0[id - 1].state.IsPending()
  }

  lemma EditKeepsSets(specs0: seq<JobSpec>, specs1: seq<JobSpec>, rts0: seq<JobRuntime>, rts1: seq<JobRuntime>,
                      id: JobId)
    requires Edited(specs0, specs1, rts0, rts1, id)
    ensures Successful(rts1) == Successful(rts0) && Unsuccessful(rts1) == Unsuccessful(rts0)
    ensures AutoCancelled(rts1) == AutoCancelled(rts0)
  {
    assert forall i :: 0 <= i < |rts0| ==> rts1[i].state == rts0[i].state && rts1[i].reason == rts0[i].reason;
  }

  lemma EditKeepsRuntimes(specs0: seq<JobSpec>, specs1: seq<JobSpec>, rts0: seq<JobRuntime>, rts1: seq<JobRuntime>,
                          id: JobId)
    requires Edited(specs0, specs1, rts0, rts1, id) && RuntimesOk(rts0) && StartedSafely(specs0, rts0)
    ensures RuntimesOk(rts1) && StartedSafely(specs1, rts1)
  {
    EditKeepsSets(specs0, specs1, rts0, rts1, id);
  }

  lemma EditKeepsJobs(specs0: seq<JobSpec>, specs1: seq<JobSpec>, rts0: seq<JobRuntime>, rts1: seq<JobRuntime>,
                      id: JobId, credits: seq<Credit>, muted: set<JobId>)
    requires Edited(specs0, specs1, rts0, rts1, id) && JobsInv(specs0, rts0, credits, muted)
    requires Distinct(specs1[id - 1].Dependencies())
    ensures JobsInv(specs1, rts1, credits, muted)
  {
    hide RuntimesOk, StartedSafely, GpusExclusive, LedgerOk, Unsuccessful, Successful, AutoCancelled;
    EditKeepsRuntimes(specs0, specs1, rts0, rts1, id);
    EditKeepsSets(specs0, specs1, rts0, rts1, id);
    EditKeepsLedger(specs0, specs1, rts0, rts1, id, credits);
    GpusExclusiveShrinks(rts0, rts1);
  }

  lemma EditKeepsLedger(specs0: seq<JobSpec>, specs1: seq<JobSpec>, rts0: seq<JobRuntime>, rts1: seq<JobRuntime>,
                        id: JobId, credits: seq<Credit>)
    requires Edited(specs0, specs1, rts0, rts1, id) && LedgerOk(specs0, rts0, credits, 0)
    ensures LedgerOk(specs1, rts1, credits, 0)
  {
    hide HasCredit;
  }

  lemma EditKeepsQueue(specs0: seq<JobSpec>, specs1: seq<JobSpec>, rts0: seq<JobRuntime>, rts1: seq<JobRuntime>,
                       id: JobId, deps: seq<DependencyRuntime>, heap: multiset<ReadyEntry>)
    requires Edited(specs0, specs1, rts0, rts1, id) && QueueInv(specs0, rts0, deps, heap, 0, {})
    ensures QueueInv(specs1, rts1, deps, heap, id, {id})
  {
    hide WithFlags;
  }

  lemma EditKeepsCounters(specs0: seq<JobSpec>, specs1: seq<JobSpec>, rts0: seq<JobRuntime>, rts1: seq<JobRuntime>,
                          id: JobId, deps: seq<DependencyRuntime>, muted: set<JobId>, echo: bool)
    requires Edited(specs0, specs1, rts0, rts1, id) && CountersOk(specs0, rts0, deps, muted, echo, 0)
    ensures CountersOk(specs1, rts1, deps, muted, echo, id)
  {
    hide Successful, Unsuccessful, AutoCancelled;
    EditKeepsSets(specs0, specs1, rts0, rts1, id);
  }

  /** The entries that would keep job `id` from being found under its new key. */
  predicate OutrankedBy(heap: multiset<ReadyEntry>, id: JobId, rt: JobRuntime) {
    exists e :: e in heap && e.job == id && !KeyAtMost(e, rt.priority, TimeBonus(rt.timeLimit))
  }

  lemma EditKeepsOrder(specs0: seq<JobSpec>, specs1: seq<JobSpec>, rts0: seq<JobRuntime>, rts1: seq<JobRuntime>,
                       id: JobId, deps: seq<DependencyRuntime>, heap: multiset<ReadyEntry>)
    requires Edited(specs0, specs1, rts0, rts1, id) && |deps| == |rts0|
    ensures Quiet(specs0, rts0, deps, 0) ==> Quiet(specs1, rts1, deps, id)
    ensures specs1[id - 1].scheduledAt == specs0[id - 1].scheduledAt ==>
              forall t :: NoneEarly(specs0, deps, heap, t) ==> NoneEarly(specs1, deps, heap, t)
    ensures NoneOutranked(rts0, heap) ==> (NoneOutranked(rts1, heap) <==> !OutrankedBy(heap, id, rts1[id - 1]))
  {
    assert forall i :: 0 <= i < |rts0| && i != id - 1 ==> rts1[i] == rts0[i] && specs1[i] == specs0[i];
    if NoneOutranked(rts0, heap) && !OutrankedBy(heap, id, rts1[id - 1]) {
      forall e | e in heap && Exists(|rts1|, e.job)
        ensures KeyAtMost(e, rts1[e.job - 1].priority, TimeBonus(rts1[e.job - 1].timeLimit))
      {
        assert Exists(|rts0|, e.job);
      }
    }
  }

  lemma EditKeepsKeys(specs0: seq<JobSpec>, specs1: seq<JobSpec>, rts0: seq<JobRuntime>, rts1: seq<JobRuntime>,
                      id: JobId)
    requires Edited(specs0, specs1, rts0, rts1, id)
    ensures UserKeys(specs1) == UserKeys(specs0) && ProjectKeys(specs1) == ProjectKeys(specs0)
    ensures StateKeys(rts1) == StateKeys(rts0) && GroupShares(rts1) == GroupShares(rts0)
    ensures UserShares(specs1, rts1) == UserShares(specs0, rts0)
    ensures ProjectShares(specs1, rts1) == ProjectShares(specs0, rts0)
    ensures DependencyKeys(specs1) == DependencyKeys(specs0)[id - 1 := Elements(specs1[id - 1].Dependencies())]
  {
    assert forall i :: 0 <= i < |rts0| && i != id - 1 ==> rts1[i] == rts0[i] && specs1[i] == specs0[i];
  }

  /** Changes that touch neither the job's specification nor its rank leave the queue right as it is. */
  lemma MinorEditKeepsQueue(specs: seq<JobSpec>, rts0: seq<JobRuntime>, rts1: seq<JobRuntime>, id: JobId,
                            deps: seq<DependencyRuntime>, heap: multiset<ReadyEntry>)
    requires Edited(specs, specs, rts0, rts1, id) && QueueInv(specs, rts0, deps, heap, 0, {})
    requires rts1[id - 1].priority == rts0[id - 1].priority && rts1[id - 1].timeLimit == rts0[id - 1].timeLimit
    ensures QueueInv(specs, rts1, deps, heap, 0, {})
  {
    hide FlagsOk;
  }

  /** Editing a job and then renewing it keeps all other jobs exact. */
  lemma EditThenRenew(specs0: seq<JobSpec>, specs1: seq<JobSpec>, rts0: seq<JobRuntime>, rts1: seq<JobRuntime>,
                      d1: seq<DependencyRuntime>, id: JobId, rts2: seq<JobRuntime>, d2: seq<DependencyRuntime>,
                      order: seq<JobId>)
    requires Edited(specs0, specs1, rts0, rts1, id) && KeptExact(specs1, rts1, d1, specs1, rts2, d2, {id}, order)
    ensures KeptExact(specs0, rts0, d1, specs1, rts2, d2, {id}, order)
  {
    hide Successful, Unsuccessful, AutoCancelled, Apart;
    EditKeepsSets(specs0, specs1, rts0, rts1, id);
    forall j: JobId | j != id && ExactAt(specs0, rts0, d1, j) ensures ExactAt(specs1, rts1, d1, j) {
      SameSetsSameRuntime(specs0[j - 1], rts0, rts1, d1[j - 1].readyEpoch);
    }
  }

  lemma MinorEditKeepsExact(specs: seq<JobSpec>, rts0: seq<JobRuntime>, rts1: seq<JobRuntime>,
                            d: seq<DependencyRuntime>,
                            id: JobId)
    requires Edited(specs, specs, rts0, rts1, id) && |d| == |specs|
    ensures KeptExact(specs, rts0, d, specs, rts1, d, {}, [])
  {
    hide Successful, Unsuccessful, AutoCancelled;
    EditKeepsSets(specs, specs, rts0, rts1, id);
    EpochsKeepExact(specs, rts0, rts1, d, d);
  }

  lemma MinorEditMissesNothing(specs: seq<JobSpec>, rts0: seq<JobRuntime>, rts1: seq<JobRuntime>, id: JobId,
                               deps: seq<DependencyRuntime>, heap: multiset<ReadyEntry>)
    requires Edited(specs, specs, rts0, rts1, id) && NoneMissed(specs, rts0, deps, heap, 0)
    requires rts1[id - 1].priority == rts0[id - 1].priority && rts1[id - 1].timeLimit == rts0[id - 1].timeLimit
    ensures NoneMissed(specs, rts1, deps, heap, 0)
  {
    hide TimeBonus;
    SkipMore(specs, rts0, deps, heap, id);
    OneChanged(specs, specs, rts0, rts1, deps, deps, heap, heap, id);
    assert specs[id - 1].Mode().All? ==> !MissedAt(specs, rts0, deps, heap, id);
  }

  lemma MinorEditKeepsCounters(specs: seq<JobSpec>, rts0: seq<JobRuntime>, rts1: seq<JobRuntime>, id: JobId,
                               deps: seq<DependencyRuntime>, heap: multiset<ReadyEntry>, muted: set<JobId>, echo: bool)
    requires Edited(specs, specs, rts0, rts1, id) && CountersOk(specs, rts0, deps, muted, echo, 0)
    requires rts1[id - 1].priority == rts0[id - 1].priority && rts1[id - 1].timeLimit == rts0[id - 1].timeLimit
    ensures CountersOk(specs, rts1, deps, muted, echo, 0)
    ensures Quiet(specs, rts0, deps, 0) ==> Quiet(specs, rts1, deps, 0)
    ensures NoneOutranked(rts0, heap) ==> NoneOutranked(rts1, heap)
  {
    hide Successful, Unsuccessful, AutoCancelled;
    EditKeepsSets(specs, specs, rts0, rts1, id);
    assert forall i :: 0 <= i < |rts0| ==>
      rts1[i].state == rts0[i].state && rts1[i].priority == rts0[i].priority && rts1[i].timeLimit == rts0[i].timeLimit;
    if NoneOutranked(rts0, heap) {
      SameKeysNoneOutranked(rts0, rts1, heap);
    }
  }

  // ---------- the update request ----------

  /** What a user may change about a job that has not started; absent fields stay as they are. */
  datatype JobUpdate = JobUpdate(
    dependsOnIds: Option<seq<JobId>>,
    dependencyMode: Option<Option<DependencyMode>>,
    autoCancel: Option<bool>,
    gpus: Option<nat>,
    priority: Option<nat>,
    timeLimit: Option<Option<Time>>,
    memoryLimit: Option<Option<nat>>,
    gpuMemoryLimit: Option<Option<nat>>,
    maxConcurrent: Option<Option<nat>>
  ) {
    function ApplyToSpec(spec: JobSpec): JobSpec {
      spec.(dependsOnIds := dependsOnIds.GetOr(spec.dependsOnIds),
            dependencyMode := dependencyMode.GetOr(spec.dependencyMode),
            autoCancel := autoCancel.GetOr(spec.autoCancel))
    }

    function ApplyToRuntime(rt: JobRuntime): JobRuntime {
      rt.(gpus := gpus.GetOr(rt.gpus),
          priority := priority.GetOr(rt.priority),
          timeLimit := timeLimit.GetOr(rt.timeLimit),
          memoryLimit := memoryLimit.GetOr(rt.memoryLimit),
          gpuMemoryLimit := gpuMemoryLimit.GetOr(rt.gpuMemoryLimit),
          maxConcurrent := maxConcurrent.GetOr(rt.maxConcurrent))
    }

    predicate AffectsReadyQueue() {
      dependsOnIds.Some? || dependencyMode.Some? || autoCancel.Some? || priority.Some? || timeLimit.Some?
    }

    /** A shared job must keep a GPU memory limit. */
    predicate Allowed(rt: JobRuntime) {
      !(rt.sharing.Shared? && gpuMemoryLimit == Some(None))
    }
  }

  /** From `spec0` to `spec1` and from `rt0` to `rt1` the fields that the update gives have the values it gives,
      and all others but the job's state, reason and time of ending are as they were. */
  ghost predicate ChangedAsAsked(update: JobUpdate, spec0: JobSpec, spec1: JobSpec, rt0: JobRuntime, rt1: JobRuntime) {
    && (if update.dependsOnIds.Some? then spec1.dependsOnIds == update.dependsOnIds.value
        else spec1.dependsOnIds == spec0.dependsOnIds)
    && (if update.dependencyMode.Some? then spec1.dependencyMode == update.dependencyMode.value
        else spec1.dependencyMode == spec0.dependencyMode)
    && (if update.autoCancel.Some? then spec1.autoCancel == update.autoCancel.value
        else spec1.autoCancel == spec0.autoCancel)
    && spec1.submittedBy == spec0.submittedBy && spec1.project == spec0.project
    && spec1.dependsOn == spec0.dependsOn && spec1.scheduledAt == spec0.scheduledAt
    && (if update.gpus.Some? then rt1.gpus == update.gpus.value else rt1.gpus == rt0.gpus)
    && (if update.priority.Some? then rt1.priority == update.priority.value else rt1.priority == rt0.priority)
    && (if update.timeLimit.Some? then rt1.timeLimit == update.timeLimit.value else rt1.timeLimit == rt0.timeLimit)
    && (if update.memoryLimit.Some? then rt1.memoryLimit == update.memoryLimit.value
        else rt1.memoryLimit == rt0.memoryLimit)
    && (if update.gpuMemoryLimit.Some? then rt1.gpuMemoryLimit == update.gpuMemoryLimit.value
        else rt1.gpuMemoryLimit == rt0.gpuMemoryLimit)
    && (if update.maxConcurrent.Some? then rt1.maxConcurrent == update.maxConcurrent.value
        else rt1.maxConcurrent == rt0.maxConcurrent)
    && rt1.id == rt0.id && rt1.sharing == rt0.sharing && rt1.gpuIds == rt0.gpuIds && rt1.group == rt0.group
    && rt1.startedAt == rt0.startedAt
    && (rt1.state == rt0.state || (rt0.state == JobState.Queued && rt1.state == JobState.Cancelled))
    && (rt1.state == rt0.state ==> rt1.finishedAt == rt0.finishedAt)
  }

  /** The update bears on nothing but what the job asks for: not on its dependencies or its rank. */
  predicate OnlyRequests(update: JobUpdate) {
    && update.dependsOnIds == None && update.dependencyMode == None && update.autoCancel == None
    && update.priority == None && update.timeLimit == None
  }

  /** An accepted update cannot close a dependency cycle, though the legacy dependency that the update
      keeps is not checked again. */
  lemma UpdateKeepsAcyclic(specs0: seq<JobSpec>, specs1: seq<JobSpec>, id: JobId, update: JobUpdate)
    requires Exists(|specs0|, id) && specs1 == specs0[id - 1 := update.ApplyToSpec(specs0[id - 1])]
    requires update.dependsOnIds.Some? ==>
               forall d :: d in update.dependsOnIds.value ==> !Reaches(specs0, d, id)
    ensures Acyclic(specs0) ==> Acyclic(specs1)
  {
    hide Acyclic;
    if Acyclic(specs0) {
      forall d: JobId | DependsOn(specs1, id, d) ensures !Reaches(specs0, d, id) {
        if DependsOn(specs0, id, d) {
          DependencyDoesNotReach(specs0, id, d);
        } else {
          assert d in update.dependsOnIds.value;
        }
      }
      InstallKeepsAcyclic(specs0, specs1, id);
    }
  }

  // ---------- begin times ----------

  /** Job `id` got another begin time; nothing else changed. */
  ghost predicate Rescheduled(specs0: seq<JobSpec>, specs1: seq<JobSpec>, id: JobId, at: Time) {
    Exists(|specs0|, id) && specs1 == specs0[id - 1 := specs0[id - 1].(scheduledAt := Some(at))]
  }

  lemma RescheduleKeepsJobs(specs0: seq<JobSpec>, specs1: seq<JobSpec>, id: JobId, at: Time,
                            rts: seq<JobRuntime>, credits: seq<Credit>, muted: set<JobId>)
    requires Rescheduled(specs0, specs1, id, at) && JobsInv(specs0, rts, credits, muted)
    ensures JobsInv(specs1, rts, credits, muted)
  {
    hide RuntimesOk, GpusExclusive, HasCredit, Unsuccessful, Successful;
    assert forall i :: 0 <= i < |specs0| ==>
      specs1[i].Dependencies() == specs0[i].Dependencies() && specs1[i].Mode() == specs0[i].Mode()
      && specs1[i].submittedBy == specs0[i].submittedBy;
  }

  lemma RescheduleKeepsQueue(specs0: seq<JobSpec>, specs1: seq<JobSpec>, id: JobId, at: Time, rts: seq<JobRuntime>,
                             deps: seq<DependencyRuntime>, heap: multiset<ReadyEntry>)
    requires Rescheduled(specs0, specs1, id, at) && QueueInv(specs0, rts, deps, heap, 0, {})
    ensures QueueInv(specs1, rts, deps, heap, 0, {})
    ensures Quiet(specs0, rts, deps, 0) ==> Quiet(specs1, rts, deps, 0)
  {
    hide WithFlags;
    assert forall i :: 0 <= i < |specs0| ==>
      specs1[i].Dependencies() == specs0[i].Dependencies() && specs1[i].Mode() == specs0[i].Mode()
      && specs1[i].autoCancel == specs0[i].autoCancel && (i != id - 1 ==> specs1[i] == specs0[i]);
  }

  lemma RescheduleKeepsCounters(specs0: seq<JobSpec>, specs1: seq<JobSpec>, id: JobId, at: Time, rts: seq<JobRuntime>,
                                deps: seq<DependencyRuntime>, muted: set<JobId>, echo: bool)
    requires Rescheduled(specs0, specs1, id, at) && CountersOk(specs0, rts, deps, muted, echo, 0)
    ensures CountersOk(specs1, rts, deps, muted, echo, 0)
  {
    hide Successful, Unsuccessful, AutoCancelled;
    assert forall i :: 0 <= i < |specs0| ==> specs1[i].Dependencies() == specs0[i].Dependencies();
  }

  lemma RescheduleKeepsKeys(specs0: seq<JobSpec>, specs1: seq<JobSpec>, id: JobId, at: Time, rts: seq<JobRuntime>)
    requires Rescheduled(specs0, specs1, id, at) && |specs0| == |rts|
    ensures UserKeys(specs1) == UserKeys(specs0) && ProjectKeys(specs1) == ProjectKeys(specs0)
    ensures UserShares(specs1, rts) == UserShares(specs0, rts)
    ensures ProjectShares(specs1, rts) == ProjectShares(specs0, rts)
    ensures DependencyKeys(specs1) == DependencyKeys(specs0)
  {
    assert forall i :: 0 <= i < |specs0| ==> specs1[i].Dependencies() == specs0[i].Dependencies();
  }

  /** Moving a begin time past `now` is safe exactly when the job has no live entry. */
  lemma RescheduleOnTime(specs0: seq<JobSpec>, specs1: seq<JobSpec>, id: JobId, at: Time,
                         deps: seq<DependencyRuntime>, heap: multiset<ReadyEntry>, now: Time)
    requires Rescheduled(specs0, specs1, id, at) && NoneEarly(specs0, deps, heap, now)
    ensures NoneEarly(specs1, deps, heap, now) <==> at <= now || !HasLiveEntry(deps, heap, id)
  {
    if at <= now || !HasLiveEntry(deps, heap, id) {
      forall e | e in heap && Exists(|deps|, e.job) && e.epoch == deps[e.job - 1].readyEpoch
        ensures !specs1[e.job - 1].StartsAfter(now)
      {
        assert e.job != id || at <= now;
      }
    }
  }
}
