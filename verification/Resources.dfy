/** What running jobs hold - host memory, GPUs, quota and group slots - as sums over the job vectors,
    and when one more job fits. */
module Resources {
  import opened Types
  import opened Counting
  import opened Dependencies
  import opened Tally
  import opened JobInvariants
  import opened Quotas
  import opened Reservations
  import opened Claiming

  // ---------- starting ----------

  /** Job `id`, queued so far, has started on the GPUs `list`. */
  ghost predicate Started(rts0: seq<JobRuntime>, rts1: seq<JobRuntime>, id: JobId, list: seq<nat>, now: Time) {
    && Exists(|rts0|, id) && rts0[id - 1].state.Queued?
    && rts1 == rts0[id - 1 := Moved(rts0[id - 1].(gpuIds := Some(list)), JobState.Running, None, now)]
  }

  // ---------- host memory ----------

  /** Host memory a job occupies; with unified memory its GPU memory comes from the same pool. */
  function MemoryNeed(unified: bool, rt: JobRuntime): nat {
    rt.memoryLimit.GetOr(0) + if unified then rt.gpuMemoryLimit.GetOr(0) * rt.gpus else 0
  }

  ghost function MemoryShares(rts: seq<JobRuntime>, unified: bool): (shares: Shares<nat>)
    ensures |shares| == |rts|
  {
    seq(|rts|,
        i requires 0 <= i < |rts| => if rts[i].state.Running? then Some((0, MemoryNeed(unified, rts[i]))) else None)
  }

  ghost function MemoryUsed(rts: seq<JobRuntime>, unified: bool): nat {
    Usage(MemoryShares(rts, unified), 0).gpus
  }

  ghost function MemoryFree(rts: seq<JobRuntime>, unified: bool, total: nat): nat {
    SaturatingSub(total, MemoryUsed(rts, unified))
  }

  // ---------- GPUs ----------

  predicate SharesGpu(rt: JobRuntime, gpu: nat) {
    rt.state.Running? && rt.sharing.Shared? && rt.gpuIds.Some? && gpu in rt.gpuIds.value
  }

  /** What the shared jobs on a GPU add up to: how many they are, and the memory limits they declared. */
  ghost function SharedShares(rts: seq<JobRuntime>, gpu: nat): (shares: Shares<nat>)
    ensures |shares| == |rts|
  {
    seq(|rts|, i requires 0 <= i < |rts| =>
      if SharesGpu(rts[i], gpu) then Some((0, rts[i].gpuMemoryLimit.GetOr(0))) else None)
  }

  ghost function SharedJobs(rts: seq<JobRuntime>, gpu: nat): nat {
    Usage(SharedShares(rts, gpu), 0).jobs
  }

  ghost function SharedMemory(rts: seq<JobRuntime>, gpu: nat): nat {
    Usage(SharedShares(rts, gpu), 0).gpus
  }

  ghost predicate HeldExclusively(rts: seq<JobRuntime>, gpu: nat) {
    exists id: JobId :: RunsOn(rts, id, gpu) && rts[id - 1].sharing.Exclusive?
  }

  /** Whether a job with `rt`'s request may be put on `gpu` next to the jobs running there. */
  ghost predicate Compatible(rts: seq<JobRuntime>, gpu: nat, memory: map<nat, nat>, rt: JobRuntime) {
    && !HeldExclusively(rts, gpu)
    && match rt.sharing
       case Shared =>
         rt.gpuMemoryLimit.Some? && gpu in memory ==> SharedMemory(rts, gpu) + rt.gpuMemoryLimit.value <= memory[gpu]
       case Exclusive => SharedJobs(rts, gpu) == 0
  }

  /** On every GPU of known size, the limits declared by the shared jobs fit. */
  ghost predicate GpuMemoryFits(rts: seq<JobRuntime>, memory: map<nat, nat>) {
    forall gpu :: gpu in memory ==> SharedMemory(rts, gpu) <= memory[gpu]
  }

  // ---------- groups and quotas ----------

  /** Running jobs by group and the limit they carry themselves. */
  ghost function LimitShares(rts: seq<JobRuntime>): (shares: Shares<(nat, nat)>)
    ensures |shares| == |rts|
  {
    seq(|rts|, i requires 0 <= i < |rts| =>
      if rts[i].state.Running? && rts[i].group.Some? && rts[i].maxConcurrent.Some?
      then Some(((rts[i].group.value, rts[i].maxConcurrent.value), 1)) else None)
  }

  /** Of a group's running jobs, those that carry the limit `m` are never more than `m`. */
  ghost predicate GroupsFit(rts: seq<JobRuntime>) {
    forall key: (nat, nat) :: Usage(LimitShares(rts), key).jobs <= key.1
  }

  ghost predicate QuotasFit(specs: seq<JobSpec>, rts: seq<JobRuntime>, config: QuotaConfig)
    requires |specs| == |rts|
  {
    && (forall user :: Within(config.UserLimits(user), Usage(UserShares(specs, rts), user)))
    && (forall project :: Within(config.ProjectLimits(Some(project)).value, Usage(ProjectShares(specs, rts), project)))
  }

  predicate GroupRoom(rt: JobRuntime, running: nat) {
    rt.group.Some? && rt.maxConcurrent.Some? ==> running < rt.maxConcurrent.value
  }

  ghost predicate QuotaRoom(spec: JobSpec, rt: JobRuntime, config: QuotaConfig, specs: seq<JobSpec>,
                            rts: seq<JobRuntime>)
    requires |specs| == |rts|
  {
    && RoomFor(config.UserLimits(spec.submittedBy), Usage(UserShares(specs, rts), spec.submittedBy), rt.gpus)
    && (spec.project.Some? ==>
          RoomFor(config.ProjectLimits(spec.project).value, Usage(ProjectShares(specs, rts), spec.project.value),
                  rt.gpus))
  }

  // ---------- when a job fits ----------

  /** Everything about the machine that a scheduling cycle does not change. */
  datatype Machine = Machine(
    unified: bool,
    totalMemory: nat,
    gpuCount: nat,
    available: seq<nat>,
    gpuMemory: map<nat, nat>,
    config: QuotaConfig,
    active: seq<Reservation>
  )

  ghost function Candidates(m: Machine, rts: seq<JobRuntime>, user: string, rt: JobRuntime): set<nat> {
    set gpu | gpu in Usable(ClaimsOf(m.active, user), m.available) && Compatible(rts, gpu, m.gpuMemory, rt)
  }

  /** The checks that a job must pass before GPUs are looked for. */
  ghost predicate ChecksPass(m: Machine, specs: seq<JobSpec>, rts: seq<JobRuntime>, id: JobId) {
    && |specs| == |rts| && Exists(|rts|, id)
    && var spec, rt := specs[id - 1], rts[id - 1];
       && MemoryNeed(m.unified, rt) <= MemoryFree(rts, m.unified, m.totalMemory)
       && GroupRoom(rt, if rt.group.Some? then Usage(GroupShares(rts), rt.group.value).jobs else 0)
       && QuotaRoom(spec, rt, m.config, specs, rts)
       && (m.active == [] || Respects(ClaimsOf(m.active, spec.submittedBy), rt.gpus, m.available, m.gpuCount))
  }

  /** Job `id` passes every check against what is running in `rts`, and there are GPUs for it. */
  ghost predicate Admits(m: Machine, specs: seq<JobSpec>, rts: seq<JobRuntime>, id: JobId) {
    && ChecksPass(m, specs, rts, id)
    && rts[id - 1].gpus <= |Candidates(m, rts, specs[id - 1].submittedBy, rts[id - 1])|
  }

  /** The first thing that job `id` has to wait for, given that it is not admitted. */
  ghost function Blocker(m: Machine, specs: seq<JobSpec>, rts: seq<JobRuntime>, id: JobId): Reason
    requires |specs| == |rts| && Exists(|rts|, id)
  {
    var rt := rts[id - 1];
    if MemoryNeed(m.unified, rt) > MemoryFree(rts, m.unified, m.totalMemory) then WaitingForMemory
    else if !GroupRoom(rt, if rt.group.Some? then Usage(GroupShares(rts), rt.group.value).jobs else 0)
    then WaitingForResources
    else if !QuotaRoom(specs[id - 1], rt, m.config, specs, rts) then WaitingForQuota
    else WaitingForGpu
  }

  /** A right choice of GPUs for job `id`: as many as it asks for, each usable by its owner and
      compatible with what is running there. */
  ghost predicate RightGpus(m: Machine, specs: seq<JobSpec>, rts: seq<JobRuntime>, id: JobId, list: seq<nat>) {
    && |specs| == |rts| && Exists(|rts|, id) && Distinct(list) && |list| == rts[id - 1].gpus
    && forall gpu :: gpu in list ==>
         && gpu in Usable(ClaimsOf(m.active, specs[id - 1].submittedBy), m.available)
         && Compatible(rts, gpu, m.gpuMemory, rts[id - 1])
  }

  /** No candidate that was passed over comes before a GPU that was chosen. */
  ghost predicate BestGpus(m: Machine, specs: seq<JobSpec>, rts: seq<JobRuntime>, id: JobId, list: seq<nat>,
                           key: (JobId, nat) -> nat)
  {
    |specs| == |rts| && Exists(|rts|, id) &&
    forall a, b :: a in list && b in Candidates(m, rts, specs[id - 1].submittedBy, rts[id - 1]) && b !in list ==>
      key(id, a) <= key(id, b)
  }

  /** All bounds on what runs at the same time. */
  ghost predicate Bounded(m: Machine, specs: seq<JobSpec>, rts: seq<JobRuntime>) {
    && |specs| == |rts|
    && MemoryUsed(rts, m.unified) <= m.totalMemory
    && GpuMemoryFits(rts, m.gpuMemory) && GroupsFit(rts) && QuotasFit(specs, rts, m.config)
  }

  // ---------- fewer running jobs need less ----------

  lemma SharesShrink(rts0: seq<JobRuntime>, rts1: seq<JobRuntime>, specs: seq<JobSpec>, unified: bool, gpu: nat)
    requires RunningShrinks(rts0, rts1) && |specs| == |rts0|
    ensures forall i :: 0 <= i < |rts0| && MemoryShares(rts1, unified)[i].Some? ==>
              MemoryShares(rts1, unified)[i] == MemoryShares(rts0, unified)[i]
    ensures forall i :: 0 <= i < |rts0| && SharedShares(rts1, gpu)[i].Some? ==>
              SharedShares(rts1, gpu)[i] == SharedShares(rts0, gpu)[i]
    ensures forall i :: 0 <= i < |rts0| && LimitShares(rts1)[i].Some? ==> LimitShares(rts1)[i] == LimitShares(rts0)[i]
    ensures forall i :: 0 <= i < |rts0| && GroupShares(rts1)[i].Some? ==> GroupShares(rts1)[i] == GroupShares(rts0)[i]
    ensures forall i :: 0 <= i < |rts0| && UserShares(specs, rts1)[i].Some? ==>
              UserShares(specs, rts1)[i] == UserShares(specs, rts0)[i]
    ensures forall i :: 0 <= i < |rts0| && ProjectShares(specs, rts1)[i].Some? ==>
              ProjectShares(specs, rts1)[i] == ProjectShares(specs, rts0)[i]
  {
    forall i | 0 <= i < |rts0| && rts1[i].state.Running?
      ensures rts0[i].state.Running? && rts1[i] == rts0[i].(reason := rts1[i].reason)
    {
      assert Exists(|rts0|, i + 1);
    }
  }

  lemma UsageShrinks(rts0: seq<JobRuntime>, rts1: seq<JobRuntime>, specs: seq<JobSpec>, unified: bool)
    requires RunningShrinks(rts0, rts1) && |specs| == |rts0|
    ensures MemoryUsed(rts1, unified) <= MemoryUsed(rts0, unified)
    ensures forall gpu :: SharedJobs(rts1, gpu) <= SharedJobs(rts0, gpu)
                          && SharedMemory(rts1, gpu) <= SharedMemory(rts0, gpu)
    ensures forall gpu :: HeldExclusively(rts1, gpu) ==> HeldExclusively(rts0, gpu)
    ensures forall key :: Usage(LimitShares(rts1), key).jobs <= Usage(LimitShares(rts0), key).jobs
    ensures forall g :: Usage(GroupShares(rts1), g).jobs <= Usage(GroupShares(rts0), g).jobs
  {
    hide Usage;
    SharesShrink(rts0, rts1, specs, unified, 0);
    UsageMono(MemoryShares(rts1, unified), MemoryShares(rts0, unified), 0);
    forall gpu
      ensures SharedJobs(rts1, gpu) <= SharedJobs(rts0, gpu) && SharedMemory(rts1, gpu) <= SharedMemory(rts0, gpu)
      ensures HeldExclusively(rts1, gpu) ==> HeldExclusively(rts0, gpu)
    {
      SharesShrink(rts0, rts1, specs, unified, gpu);
      UsageMono(SharedShares(rts1, gpu), SharedShares(rts0, gpu), 0);
      ExclusiveShrinks(rts0, rts1, gpu);
    }
    forall key ensures Usage(LimitShares(rts1), key).jobs <= Usage(LimitShares(rts0), key).jobs {
      UsageMono(LimitShares(rts1), LimitShares(rts0), key);
    }
    forall g ensures Usage(GroupShares(rts1), g).jobs <= Usage(GroupShares(rts0), g).jobs {
      UsageMono(GroupShares(rts1), GroupShares(rts0), g);
    }
  }

  lemma ExclusiveShrinks(rts0: seq<JobRuntime>, rts1: seq<JobRuntime>, gpu: nat)
    requires RunningShrinks(rts0, rts1)
    ensures HeldExclusively(rts1, gpu) ==> HeldExclusively(rts0, gpu)
  {
    if HeldExclusively(rts1, gpu) {
      var id: JobId :| RunsOn(rts1, id, gpu) && rts1[id - 1].sharing.Exclusive?;
      assert RunsOn(rts0, id, gpu);
    }
  }

  lemma QuotaUsageShrinks(rts0: seq<JobRuntime>, rts1: seq<JobRuntime>, specs: seq<JobSpec>, key: string)
    requires RunningShrinks(rts0, rts1) && |specs| == |rts0|
    ensures var a, b := Usage(UserShares(specs, rts1), key), Usage(UserShares(specs, rts0), key);
            a.jobs <= b.jobs && a.gpus <= b.gpus
    ensures var a, b := Usage(ProjectShares(specs, rts1), key), Usage(ProjectShares(specs, rts0), key);
            a.jobs <= b.jobs && a.gpus <= b.gpus
  {
    hide Usage;
    SharesShrink(rts0, rts1, specs, false, 0);
    UsageMono(UserShares(specs, rts1), UserShares(specs, rts0), key);
    UsageMono(ProjectShares(specs, rts1), ProjectShares(specs, rts0), key);
  }

  /** No bound is broken by jobs leaving. */
  lemma BoundedShrinks(m: Machine, specs: seq<JobSpec>, rts0: seq<JobRuntime>, rts1: seq<JobRuntime>)
    requires Bounded(m, specs, rts0) && RunningShrinks(rts0, rts1)
    ensures Bounded(m, specs, rts1)
  {
    hide Usage, MemoryUsed, SharedMemory, UserShares, ProjectShares, LimitShares, SharedJobs, HeldExclusively;
    UsageShrinks(rts0, rts1, specs, m.unified);
    forall key
      ensures Within(m.config.UserLimits(key), Usage(UserShares(specs, rts1), key))
      ensures Within(m.config.ProjectLimits(Some(key)).value, Usage(ProjectShares(specs, rts1), key))
    {
      QuotaUsageShrinks(rts0, rts1, specs, key);
      assert Within(m.config.UserLimits(key), Usage(UserShares(specs, rts0), key));
      assert Within(m.config.ProjectLimits(Some(key)).value, Usage(ProjectShares(specs, rts0), key));
    }
  }

  /** A job that fits next to more jobs fits next to fewer: checks only get harder as jobs start. */
  lemma AdmitsShrinks(m: Machine, specs: seq<JobSpec>, rts0: seq<JobRuntime>, rts1: seq<JobRuntime>, id: JobId)
    requires RunningShrinks(rts0, rts1) && Admits(m, specs, rts0, id)
    requires rts1[id - 1] == rts0[id - 1].(reason := rts1[id - 1].reason)
    ensures Admits(m, specs, rts1, id)
  {
    hide Usage, MemoryUsed, SharedMemory, UserShares, ProjectShares, LimitShares, SharedJobs, HeldExclusively;
    hide GroupShares, Respects, ClaimsOf, Usable;
    var spec, rt := specs[id - 1], rts0[id - 1];
    UsageShrinks(rts0, rts1, specs, m.unified);
    QuotaUsageShrinks(rts0, rts1, specs, spec.submittedBy);
    if spec.project.Some? {
      QuotaUsageShrinks(rts0, rts1, specs, spec.project.value);
    }
    CandidatesShrink(m, rts0, rts1, specs, spec.submittedBy, rt, rts1[id - 1]);
  }

  lemma CandidatesShrink(m: Machine, rts0: seq<JobRuntime>, rts1: seq<JobRuntime>, specs: seq<JobSpec>,
                         user: string, rt: JobRuntime, rt': JobRuntime)
    requires RunningShrinks(rts0, rts1) && |specs| == |rts0| && rt' == rt.(reason := rt'.reason)
    ensures |Candidates(m, rts0, user, rt)| <= |Candidates(m, rts1, user, rt')|
  {
    hide Usage, MemoryUsed, SharedMemory, SharedJobs, HeldExclusively, ClaimsOf, Usable, GroupShares, LimitShares;
    UsageShrinks(rts0, rts1, specs, m.unified);
    SubsetSize(Candidates(m, rts0, user, rt), Candidates(m, rts1, user, rt'));
  }

  // ---------- starting one more job ----------

  lemma StartShares(rts0: seq<JobRuntime>, rts1: seq<JobRuntime>, specs: seq<JobSpec>, id: JobId, list: seq<nat>,
                    now: Time,
                    unified: bool)
    requires Started(rts0, rts1, id, list, now) && |specs| == |rts0|
    ensures var rt := rts0[id - 1];
      && MemoryShares(rts0, unified)[id - 1].None?
      && MemoryShares(rts1, unified) == MemoryShares(rts0, unified)[id - 1 := Some((0, MemoryNeed(unified, rt)))]
      && LimitShares(rts0)[id - 1].None?
      && LimitShares(rts1) == LimitShares(rts0)[id - 1 :=
           if rt.group.Some? && rt.maxConcurrent.Some? then Some(((rt.group.value, rt.maxConcurrent.value), 1))
           else None]
      && UserShares(specs, rts0)[id - 1].None?
      && UserShares(specs, rts1) == UserShares(specs, rts0)[id - 1 := Some((specs[id - 1].submittedBy, rt.gpus))]
      && ProjectShares(specs, rts0)[id - 1].None?
      && ProjectShares(specs, rts1) == ProjectShares(specs, rts0)[id - 1 :=
           if specs[id - 1].project.Some? then Some((specs[id - 1].project.value, rt.gpus)) else None]
  {
  }

  lemma StartSharedShares(rts0: seq<JobRuntime>, rts1: seq<JobRuntime>, id: JobId, list: seq<nat>, now: Time, gpu: nat)
    requires Started(rts0, rts1, id, list, now)
    ensures SharedShares(rts0, gpu)[id - 1].None?
    ensures SharedShares(rts1, gpu) == SharedShares(rts0, gpu)[id - 1 :=
              if rts0[id - 1].sharing.Shared? && gpu in list
              then Some((0, rts0[id - 1].gpuMemoryLimit.GetOr(0))) else None]
  {
  }

  /** How a start changes what is held of one GPU. */
  lemma StartOnGpu(rts0: seq<JobRuntime>, rts1: seq<JobRuntime>, id: JobId, list: seq<nat>, now: Time, gpu: nat)
    requires Started(rts0, rts1, id, list, now)
    ensures var rt := rts0[id - 1];
      && SharedJobs(rts1, gpu) == SharedJobs(rts0, gpu) + (if rt.sharing.Shared? && gpu in list then 1 else 0)
      && SharedMemory(rts1, gpu) ==
           SharedMemory(rts0, gpu) + (if rt.sharing.Shared? && gpu in list then rt.gpuMemoryLimit.GetOr(0) else 0)
      && (HeldExclusively(rts1, gpu) <==> HeldExclusively(rts0, gpu) || (rt.sharing.Exclusive? && gpu in list))
  {
    hide Usage;
    StartSharedShares(rts0, rts1, id, list, now, gpu);
    var rt := rts0[id - 1];
    if rt.sharing.Shared? && gpu in list {
      UsageEnter(SharedShares(rts0, gpu), id - 1, 0, rt.gpuMemoryLimit.GetOr(0), 0);
    } else {
      assert SharedShares(rts1, gpu) == SharedShares(rts0, gpu);
    }
    StartHolds(rts0, rts1, id, list, now, gpu);
  }

  lemma StartHolds(rts0: seq<JobRuntime>, rts1: seq<JobRuntime>, id: JobId, list: seq<nat>, now: Time, gpu: nat)
    requires Started(rts0, rts1, id, list, now)
    ensures HeldExclusively(rts1, gpu) <==>
            HeldExclusively(rts0, gpu) || (rts0[id - 1].sharing.Exclusive? && gpu in list)
  {
    if HeldExclusively(rts1, gpu) {
      var j: JobId :| RunsOn(rts1, j, gpu) && rts1[j - 1].sharing.Exclusive?;
      assert j != id ==> RunsOn(rts0, j, gpu);
    }
    if HeldExclusively(rts0, gpu) {
      var j: JobId :| RunsOn(rts0, j, gpu) && rts0[j - 1].sharing.Exclusive?;
      assert RunsOn(rts1, j, gpu);
    }
    if rts0[id - 1].sharing.Exclusive? && gpu in list {
      assert RunsOn(rts1, id, gpu);
    }
  }

  /** A shared GPU's users are counted: with none counted, nobody shares it. */
  lemma NobodyShares(rts: seq<JobRuntime>, gpu: nat, id: JobId)
    requires SharedJobs(rts, gpu) == 0 && Exists(|rts|, id)
    ensures !SharesGpu(rts[id - 1], gpu)
  {
    var shares := SharedShares(rts, gpu);
    SumZero(JobWeights(shares, 0));
    assert JobWeights(shares, 0)[id - 1] == 0;
  }

  /** On compatible GPUs a job may start next to whatever is running. */
  lemma CompatibleFits(rts: seq<JobRuntime>, memory: map<nat, nat>, id: JobId, list: seq<nat>)
    requires Exists(|rts|, id) && Distinct(list) && |list| == rts[id - 1].gpus
    requires forall gpu :: gpu in list ==> Compatible(rts, gpu, memory, rts[id - 1])
    requires rts[id - 1].gpuIds == Some(list)
    ensures GpusFit(rts, id)
  {
    forall b: JobId, gpu | RunsOn(rts, b, gpu) && b != id && gpu in list
      ensures rts[id - 1].sharing.Shared? && rts[b - 1].sharing.Shared?
    {
      assert Compatible(rts, gpu, memory, rts[id - 1]);
      assert rts[b - 1].sharing.Exclusive? ==> HeldExclusively(rts, gpu);
      if rts[id - 1].sharing.Exclusive? {
        NobodyShares(rts, gpu, b);
      }
    }
  }

  lemma StartKeepsGpuMemory(rts0: seq<JobRuntime>, rts1: seq<JobRuntime>, id: JobId, list: seq<nat>, now: Time,
                            memory: map<nat, nat>)
    requires Started(rts0, rts1, id, list, now) && GpuMemoryFits(rts0, memory)
    requires forall gpu :: gpu in list ==> Compatible(rts0, gpu, memory, rts0[id - 1])
    ensures GpuMemoryFits(rts1, memory)
  {
    hide SharedMemory, SharedJobs, HeldExclusively;
    forall gpu | gpu in memory ensures SharedMemory(rts1, gpu) <= memory[gpu] {
      StartOnGpu(rts0, rts1, id, list, now, gpu);
      assert gpu in list ==> Compatible(rts0, gpu, memory, rts0[id - 1]);
    }
  }

  lemma StartKeepsGroups(rts0: seq<JobRuntime>, rts1: seq<JobRuntime>, specs: seq<JobSpec>, id: JobId, list: seq<nat>,
                         now: Time)
    requires Started(rts0, rts1, id, list, now) && |specs| == |rts0| && GroupsFit(rts0)
    requires rts0[id - 1].group.Some? ==>
              GroupRoom(rts0[id - 1], Usage(GroupShares(rts0), rts0[id - 1].group.value).jobs)
    ensures GroupsFit(rts1)
  {
    hide Usage, GroupShares, LimitShares;
    StartShares(rts0, rts1, specs, id, list, now, false);
    var rt := rts0[id - 1];
    forall key: (nat, nat) ensures Usage(LimitShares(rts1), key).jobs <= key.1 {
      assert Usage(LimitShares(rts0), key).jobs <= key.1;
      if rt.group.Some? && rt.maxConcurrent.Some? {
        UsageEnter(LimitShares(rts0), id - 1, (rt.group.value, rt.maxConcurrent.value), 1, key);
        LimitedAreInGroup(rts0, rt.group.value, rt.maxConcurrent.value);
      } else {
        assert LimitShares(rts0)[id - 1 := None] == LimitShares(rts0);
      }
    }
  }

  /** The jobs of a group that carry one limit are among all its jobs. */
  lemma LimitedAreInGroup(rts: seq<JobRuntime>, group: nat, limit: nat)
    ensures Usage(LimitShares(rts), (group, limit)).jobs <= Usage(GroupShares(rts), group).jobs
  {
    SumMono(JobWeights(LimitShares(rts), (group, limit)), JobWeights(GroupShares(rts), group));
  }

  lemma StartKeepsQuotas(rts0: seq<JobRuntime>, rts1: seq<JobRuntime>, specs: seq<JobSpec>, id: JobId, list: seq<nat>,
                         now: Time, config: QuotaConfig)
    requires Started(rts0, rts1, id, list, now) && |specs| == |rts0| && QuotasFit(specs, rts0, config)
    requires QuotaRoom(specs[id - 1], rts0[id - 1], config, specs, rts0)
    ensures QuotasFit(specs, rts1, config)
  {
    hide Usage, UserShares, ProjectShares;
    StartShares(rts0, rts1, specs, id, list, now, false);
    var spec, rt := specs[id - 1], rts0[id - 1];
    forall key
      ensures Within(config.UserLimits(key), Usage(UserShares(specs, rts1), key))
      ensures Within(config.ProjectLimits(Some(key)).value, Usage(ProjectShares(specs, rts1), key))
    {
      assert Within(config.UserLimits(key), Usage(UserShares(specs, rts0), key));
      assert Within(config.ProjectLimits(Some(key)).value, Usage(ProjectShares(specs, rts0), key));
      UsageEnter(UserShares(specs, rts0), id - 1, spec.submittedBy, rt.gpus, key);
      if spec.project.Some? {
        UsageEnter(ProjectShares(specs, rts0), id - 1, spec.project.value, rt.gpus, key);
      } else {
        assert ProjectShares(specs, rts0)[id - 1 := None] == ProjectShares(specs, rts0);
      }
    }
  }

  lemma StartUsesMemory(rts0: seq<JobRuntime>, rts1: seq<JobRuntime>, specs: seq<JobSpec>, id: JobId, list: seq<nat>,
                        now: Time, unified: bool)
    requires Started(rts0, rts1, id, list, now) && |specs| == |rts0|
    ensures MemoryUsed(rts1, unified) == MemoryUsed(rts0, unified) + MemoryNeed(unified, rts0[id - 1])
  {
    hide Usage, MemoryNeed;
    StartShares(rts0, rts1, specs, id, list, now, unified);
    UsageEnter(MemoryShares(rts0, unified), id - 1, 0, MemoryNeed(unified, rts0[id - 1]), 0);
  }

  /** A job that passed every check breaks no bound. */
  lemma StartKeepsBounds(m: Machine, specs: seq<JobSpec>, rts0: seq<JobRuntime>, rts1: seq<JobRuntime>, id: JobId,
                         list: seq<nat>, now: Time)
    requires Bounded(m, specs, rts0) && Started(rts0, rts1, id, list, now) && Admits(m, specs, rts0, id)
    requires forall gpu :: gpu in list ==> Compatible(rts0, gpu, m.gpuMemory, rts0[id - 1])
    ensures Bounded(m, specs, rts1)
  {
    hide Usage, MemoryUsed, Started, GpuMemoryFits, GroupsFit, QuotasFit, Compatible, Candidates, MemoryNeed;
    StartUsesMemory(rts0, rts1, specs, id, list, now, m.unified);
    StartKeepsGpuMemory(rts0, rts1, id, list, now, m.gpuMemory);
    StartKeepsGroups(rts0, rts1, specs, id, list, now);
    StartKeepsQuotas(rts0, rts1, specs, id, list, now, m.config);
    StartedLength(rts0, rts1, id, list, now);
  }

  lemma StartedLength(rts0: seq<JobRuntime>, rts1: seq<JobRuntime>, id: JobId, list: seq<nat>, now: Time)
    requires Started(rts0, rts1, id, list, now)
    ensures |rts1| == |rts0| && RunningShrinks(rts1, rts0)
  {
  }

  /** The right GPUs let the job start. */
  lemma RightGpusFit(m: Machine, specs: seq<JobSpec>, rts: seq<JobRuntime>, id: JobId, list: seq<nat>)
    requires RightGpus(m, specs, rts, id, list) && !rts[id - 1].state.Running?
    ensures GpusFit(rts[id - 1 := rts[id - 1].(gpuIds := Some(list))], id)
  {
    hide Compatible, ClaimsOf, Usable, SharedJobs, SharedMemory;
    var rts' := rts[id - 1 := rts[id - 1].(gpuIds := Some(list))];
    forall gpu | gpu in list ensures Compatible(rts', gpu, m.gpuMemory, rts'[id - 1]) {
      ProvisionalGpus(rts, rts', id, list, gpu, m.gpuMemory);
    }
    CompatibleFits(rts', m.gpuMemory, id, list);
  }

  /** GPUs noted on a job that is not running do not count yet. */
  lemma ProvisionalGpus(rts: seq<JobRuntime>, rts': seq<JobRuntime>, id: JobId, list: seq<nat>, gpu: nat,
                        memory: map<nat, nat>)
    requires Exists(|rts|, id) && !rts[id - 1].state.Running?
    requires rts' == rts[id - 1 := rts[id - 1].(gpuIds := Some(list))]
    ensures Compatible(rts, gpu, memory, rts[id - 1]) ==> Compatible(rts', gpu, memory, rts'[id - 1])
  {
    assert SharedShares(rts', gpu) == SharedShares(rts, gpu);
    if HeldExclusively(rts', gpu) {
      var j: JobId :| RunsOn(rts', j, gpu) && rts'[j - 1].sharing.Exclusive?;
      assert RunsOn(rts, j, gpu);
    }
  }

  lemma StartKeepsAllocated(rts0: seq<JobRuntime>, rts1: seq<JobRuntime>, id: JobId, list: seq<nat>, now: Time)
    requires Started(rts0, rts1, id, list, now) && Allocated(rts0)
    requires Distinct(list) && |list| == rts0[id - 1].gpus
    ensures Allocated(rts1)
  {
  }

  lemma ShrinkKeepsAllocated(rts0: seq<JobRuntime>, rts1: seq<JobRuntime>)
    requires RunningShrinks(rts0, rts1) && Allocated(rts0)
    ensures Allocated(rts1)
  {
  }

  /** Only job `id`'s waiting reason changed. */
  ghost predicate Reasoned(rts0: seq<JobRuntime>, rts1: seq<JobRuntime>, id: JobId) {
    Exists(|rts0|, id) && |rts1| == |rts0| && rts1 == rts0[id - 1 := rts0[id - 1].(reason := rts1[id - 1].reason)]
  }

  lemma ReasonedShrinks(rts0: seq<JobRuntime>, rts1: seq<JobRuntime>, id: JobId)
    requires Reasoned(rts0, rts1, id)
    ensures RunningShrinks(rts0, rts1) && RunningShrinks(rts1, rts0)
  {
  }

  /** Waiting reasons make no difference to what fits. */
  lemma ReasonedAdmits(m: Machine, specs: seq<JobSpec>, rts0: seq<JobRuntime>, rts1: seq<JobRuntime>, id: JobId,
                       j: JobId)
    requires Reasoned(rts0, rts1, id) && Admits(m, specs, rts1, j)
    ensures Admits(m, specs, rts0, j)
  {
    hide Admits;
    ReasonedShrinks(rts0, rts1, id);
    AdmittedExists(m, specs, rts1, j);
    AdmitsShrinks(m, specs, rts1, rts0, j);
  }

  lemma AdmittedExists(m: Machine, specs: seq<JobSpec>, rts: seq<JobRuntime>, id: JobId)
    requires Admits(m, specs, rts, id)
    ensures Exists(|rts|, id) && |specs| == |rts|
  {
  }

  /** Reasons change neither the memory in use nor its free rest. */
  lemma ReasonedMemory(rts0: seq<JobRuntime>, rts1: seq<JobRuntime>, id: JobId, unified: bool)
    requires Reasoned(rts0, rts1, id)
    ensures MemoryUsed(rts1, unified) == MemoryUsed(rts0, unified)
  {
    assert MemoryShares(rts1, unified) == MemoryShares(rts0, unified);
  }

  // ---------- stopping jobs ----------

  /** A running job that stops frees its memory. */
  lemma StopFreesMemory(rts: seq<JobRuntime>, id: JobId, next: JobState, reason: Option<Reason>, now: Time,
                        unified: bool)
    requires Exists(|rts|, id) && rts[id - 1].state.Running? && !next.Running?
    ensures MemoryUsed(rts, unified) ==
            MemoryUsed(rts[id - 1 := Moved(rts[id - 1], next, reason, now)], unified) + MemoryNeed(unified, rts[id - 1])
  {
    hide Usage, MemoryNeed;
    var rts' := rts[id - 1 := Moved(rts[id - 1], next, reason, now)];
    assert MemoryShares(rts', unified) == MemoryShares(rts, unified)[id - 1 := None];
    UsageLeave(MemoryShares(rts, unified), id - 1, 0);
  }

  /** Cascades leave the memory in use as it is. */
  lemma CascadeMemory(rts0: seq<JobRuntime>, rts1: seq<JobRuntime>, order: seq<JobId>, unified: bool)
    requires Cancels(rts0, rts1, order)
    ensures MemoryUsed(rts1, unified) == MemoryUsed(rts0, unified)
  {
    forall i | 0 <= i < |rts0| ensures MemoryShares(rts1, unified)[i] == MemoryShares(rts0, unified)[i] {
      assert Exists(|rts0|, i + 1);
    }
    assert MemoryShares(rts1, unified) == MemoryShares(rts0, unified);
  }

  lemma GpuIdsMemory(rts0: seq<JobRuntime>, rts1: seq<JobRuntime>, id: JobId, unified: bool)
    requires Exists(|rts0|, id) && |rts1| == |rts0|
    requires rts1 == rts0[id - 1 := rts0[id - 1].(gpuIds := rts1[id - 1].gpuIds)]
    ensures MemoryUsed(rts1, unified) == MemoryUsed(rts0, unified)
  {
    assert MemoryShares(rts1, unified) == MemoryShares(rts0, unified);
  }

  /** A job was stripped of its GPU ids and, if it was running, failed. */
  ghost predicate Stopped(specs: seq<JobSpec>, rts0: seq<JobRuntime>, rts1: seq<JobRuntime>, id: JobId,
                          order: seq<JobId>, now: Time)
  {
    && Exists(|rts0|, id)
    && var stripped := rts0[id - 1 := rts0[id - 1].(gpuIds := None)];
       if rts0[id - 1].state.Running?
       then Cancels(stripped[id - 1 := Moved(stripped[id - 1], Failed, None, now)], rts1, order)
       else rts1 == stripped
  }

  lemma StoppedMemory(specs: seq<JobSpec>, rts0: seq<JobRuntime>, rts1: seq<JobRuntime>, id: JobId,
                      order: seq<JobId>, now: Time, unified: bool)
    requires Stopped(specs, rts0, rts1, id, order, now)
    ensures MemoryUsed(rts0, unified) == MemoryUsed(rts1, unified) +
              if rts0[id - 1].state.Running? then MemoryNeed(unified, rts0[id - 1]) else 0
  {
    hide MemoryUsed, MemoryNeed, Cancels;
    var stripped := rts0[id - 1 := rts0[id - 1].(gpuIds := None)];
    GpuIdsMemory(rts0, stripped, id, unified);
    SameNeed(rts0[id - 1], stripped[id - 1], unified);
    if rts0[id - 1].state.Running? {
      StopFreesMemory(stripped, id, Failed, None, now, unified);
      CascadeMemory(stripped[id - 1 := Moved(stripped[id - 1], Failed, None, now)], rts1, order, unified);
    }
  }

  lemma SameNeed(a: JobRuntime, b: JobRuntime, unified: bool)
    requires b == a.(gpuIds := b.gpuIds)
    ensures MemoryNeed(unified, a) == MemoryNeed(unified, b)
  {
  }

  /** A report about this job cannot upset the accounts: it is running, or holds no GPU ids. */
  predicate Reportable(rt: JobRuntime) {
    rt.state.Running? || rt.gpuIds.None?
  }

  /** One of the first `n` reports says that job `id` could not be executed. */
  ghost predicate Reported(results: seq<(JobId, bool)>, n: nat, id: JobId)
    requires n <= |results|
  {
    exists k :: 0 <= k < n && results[k] == (id, false)
  }

  /** What the first `n` reports do: the running jobs among the reported ones have failed, no others; all of
      them have lost their GPU ids; otherwise queued jobs may have been cancelled. */
  ghost predicate FailedAsReported(rts0: seq<JobRuntime>, rts1: seq<JobRuntime>, results: seq<(JobId, bool)>, n: nat,
                                   now: Time)
    requires n <= |results|
  {
    && |rts0| == |rts1|
    && forall id: JobId :: Exists(|rts0|, id) ==>
         FailedIfReported(rts0[id - 1], rts1[id - 1], Reported(results, n, id), now)
  }

  ghost predicate FailedIfReported(before: JobRuntime, after: JobRuntime, reported: bool, now: Time) {
    var stripped := if reported then before.(gpuIds := None) else before;
    if before.state.Running? && reported then
      after == stripped.(state := JobState.Failed, finishedAt := Some(now), reason := after.reason)
    else if before.state.Queued? && after.state.Cancelled? then
      after == stripped.(state := JobState.Cancelled, finishedAt := after.finishedAt, reason := after.reason)
    else
      after == stripped.(reason := after.reason)
  }

  lemma NoneReported(rts: seq<JobRuntime>, results: seq<(JobId, bool)>, now: Time)
    ensures FailedAsReported(rts, rts, results, 0, now)
  {
  }

  lemma NextReported(specs: seq<JobSpec>, rts0: seq<JobRuntime>, rts1: seq<JobRuntime>, rts2: seq<JobRuntime>,
                     results: seq<(JobId, bool)>, i: nat, order: seq<JobId>, now: Time)
    requires i < |results| && FailedAsReported(rts0, rts1, results, i, now)
    requires if !results[i].1 && Exists(|rts1|, results[i].0) then Stopped(specs, rts1, rts2, results[i].0, order, now)
             else rts2 == rts1
    ensures FailedAsReported(rts0, rts2, results, i + 1, now)
  {
    hide FailedIfReported;
    forall id: JobId | Exists(|rts0|, id)
      ensures |rts2| == |rts0| && FailedIfReported(rts0[id - 1], rts2[id - 1], Reported(results, i + 1, id), now)
    {
      assert Reported(results, i + 1, id) <==> Reported(results, i, id) || results[i] == (id, false);
      ReportOne(specs, rts0, rts1, rts2, results, i, order, now, id);
    }
  }

  lemma ReportOne(specs: seq<JobSpec>, rts0: seq<JobRuntime>, rts1: seq<JobRuntime>, rts2: seq<JobRuntime>,
                  results: seq<(JobId, bool)>, i: nat, order: seq<JobId>, now: Time, id: JobId)
    requires i < |results| && FailedAsReported(rts0, rts1, results, i, now) && Exists(|rts0|, id)
    requires if !results[i].1 && Exists(|rts1|, results[i].0) then Stopped(specs, rts1, rts2, results[i].0, order, now)
             else rts2 == rts1
    ensures |rts2| == |rts0|
    ensures FailedIfReported(rts0[id - 1], rts2[id - 1], Reported(results, i, id) || results[i] == (id, false), now)
  {
    hide Reported;
    assert FailedIfReported(rts0[id - 1], rts1[id - 1], Reported(results, i, id), now);
  }

  lemma StoppedRuns(specs: seq<JobSpec>, rts0: seq<JobRuntime>, rts1: seq<JobRuntime>, id: JobId,
                    order: seq<JobId>, now: Time)
    requires Stopped(specs, rts0, rts1, id, order, now)
    ensures RunningShrinks(rts0, rts1) && !rts1[id - 1].state.Running? && Reportable(rts1[id - 1])
    ensures forall j: JobId :: Exists(|rts0|, j) && Reportable(rts0[j - 1]) ==> Reportable(rts1[j - 1])
  {
    var stripped := rts0[id - 1 := rts0[id - 1].(gpuIds := None)];
    assert Exists(|stripped|, id);
  }
  // ---------- memory that reports will give back ----------

  /** The jobs in `pending` were handed out to be executed: they are running, or have come to an end since. */
  ghost predicate Awaiting(rts: seq<JobRuntime>, pending: set<JobId>) {
    forall id: JobId :: id in pending ==> Exists(|rts|, id) && !rts[id - 1].state.IsPending()
  }

  /** The memory of running jobs, and of those in `pending` that have ended but still carry GPU ids: a report
      that they were not executed would give it back. */
  ghost function HeldShares(rts: seq<JobRuntime>, pending: set<JobId>, unified: bool): (shares: Shares<nat>)
    ensures |shares| == |rts|
  {
    seq(|rts|, i requires 0 <= i < |rts| =>
        if rts[i].state.Running? || (i + 1 in pending && rts[i].gpuIds.Some?)
        then Some((0, MemoryNeed(unified, rts[i]))) else None)
  }

  ghost function MemoryHeld(rts: seq<JobRuntime>, pending: set<JobId>, unified: bool): nat {
    Usage(HeldShares(rts, pending, unified), 0).gpus
  }

  lemma HeldIsMore(rts: seq<JobRuntime>, pending: set<JobId>, unified: bool)
    ensures MemoryUsed(rts, unified) <= MemoryHeld(rts, pending, unified)
    ensures (forall id: JobId :: id in pending ==> Exists(|rts|, id) && rts[id - 1].state.Running?) ==>
              MemoryUsed(rts, unified) == MemoryHeld(rts, pending, unified)
  {
    hide Usage, MemoryNeed;
    UsageMono(MemoryShares(rts, unified), HeldShares(rts, pending, unified), 0);
    if forall id: JobId :: id in pending ==> Exists(|rts|, id) && rts[id - 1].state.Running? {
      assert MemoryShares(rts, unified) == HeldShares(rts, pending, unified);
    }
  }

  /** From `rts0` to `rts1` at most one job was added, none started, and those that had run stay as they are. */
  ghost predicate Lasts(rts0: seq<JobRuntime>, rts1: seq<JobRuntime>) {
    && RanStays(rts0, rts1) && |rts1| <= |rts0| + 1
    && forall id: JobId :: Exists(|rts1|, id) && rts1[id - 1].state.Running? ==>
         id <= |rts0| && rts0[id - 1].state.Running?
  }

  lemma HeldShrinks(rts0: seq<JobRuntime>, rts1: seq<JobRuntime>, pending: set<JobId>, unified: bool)
    requires Lasts(rts0, rts1) && Awaiting(rts0, pending)
    ensures MemoryHeld(rts1, pending, unified) <= MemoryHeld(rts0, pending, unified) && Awaiting(rts1, pending)
  {
    hide Usage;
    var a, b := HeldShares(rts1, pending, unified), HeldShares(rts0, pending, unified);
    forall i | 0 <= i < |a| && a[i].Some? ensures i < |b| && a[i] == b[i] {
      assert Exists(|rts1|, i + 1);
      assert Exists(|rts0|, i + 1) && RanOn(rts0[i], rts1[i]);
    }
    UsageExtend(b, 0);
    UsageMono(a, b + [None], 0);
  }

  /** A report on a running job, a job without GPU ids, or one in `pending`, returns what the job held. */
  lemma StoppedHeld(specs: seq<JobSpec>, rts0: seq<JobRuntime>, rts1: seq<JobRuntime>, id: JobId,
                    order: seq<JobId>, now: Time, pending: set<JobId>, unified: bool)
    requires Stopped(specs, rts0, rts1, id, order, now) && Allocated(rts0) && Awaiting(rts0, pending)
    requires Reportable(rts0[id - 1]) || id in pending
    ensures MemoryHeld(rts0, pending, unified) == MemoryHeld(rts1, pending, unified) +
              if rts0[id - 1].gpuIds.Some? then MemoryNeed(unified, rts0[id - 1]) else 0
    ensures Awaiting(rts1, pending)
  {
    hide Usage, Allocated;
    RunningHolds(rts0, id);
    StoppedOthers(specs, rts0, rts1, id, order, now);
    var a, b := HeldShares(rts0, pending, unified), HeldShares(rts1, pending, unified);
    forall i | 0 <= i < |b| ensures b[i] == a[id - 1 := None][i] {
      assert Exists(|rts0|, i + 1);
    }
    assert b == a[id - 1 := None];
    if rts0[id - 1].gpuIds.Some? {
      UsageLeave(a, id - 1, 0);
    } else {
      assert a == a[id - 1 := None];
    }
  }

  /** All reports of failures are about running jobs, jobs without GPU ids, or jobs in `pending`. */
  predicate Expected(rts: seq<JobRuntime>, results: seq<(JobId, bool)>, pending: set<JobId>) {
    forall k :: 0 <= k < |results| && !results[k].1 && Exists(|rts|, results[k].0) ==>
      Reportable(rts[results[k].0 - 1]) || results[k].0 in pending
  }

  lemma ExpectedOne(rts: seq<JobRuntime>, results: seq<(JobId, bool)>, pending: set<JobId>, i: nat)
    requires i < |results| && !results[i].1 && Exists(|rts|, results[i].0)
    ensures Expected(rts, results, pending) ==> Reportable(rts[results[i].0 - 1]) || results[i].0 in pending
  {
  }

  lemma StillExpected(specs: seq<JobSpec>, rts0: seq<JobRuntime>, rts1: seq<JobRuntime>, results: seq<(JobId, bool)>,
                      pending: set<JobId>, order: seq<JobId>, id: JobId, now: Time)
    requires Stopped(specs, rts0, rts1, id, order, now)
    ensures Expected(rts0, results, pending) ==> Expected(rts1, results, pending)
  {
    hide Stopped, Reportable;
    StoppedRuns(specs, rts0, rts1, id, order, now);
  }

  lemma StoppedAwaits(specs: seq<JobSpec>, rts0: seq<JobRuntime>, rts1: seq<JobRuntime>, id: JobId,
                      order: seq<JobId>, now: Time, pending: set<JobId>)
    requires Stopped(specs, rts0, rts1, id, order, now) && Awaiting(rts0, pending)
    ensures Awaiting(rts1, pending)
  {
    hide Stopped;
    StoppedOthers(specs, rts0, rts1, id, order, now);
  }

  lemma RunningHolds(rts: seq<JobRuntime>, id: JobId)
    requires Allocated(rts) && Exists(|rts|, id)
    ensures rts[id - 1].state.Running? ==> rts[id - 1].gpuIds.Some?
  {
  }

  /** The other jobs keep what they hold, and the reported one is no longer running. */
  lemma StoppedOthers(specs: seq<JobSpec>, rts0: seq<JobRuntime>, rts1: seq<JobRuntime>, id: JobId,
                      order: seq<JobId>, now: Time)
    requires Stopped(specs, rts0, rts1, id, order, now)
    ensures |rts1| == |rts0| && !rts1[id - 1].state.Running? && rts1[id - 1].gpuIds.None?
    ensures rts0[id - 1].state.IsPending() || !rts1[id - 1].state.IsPending()
    ensures forall j: JobId :: Exists(|rts0|, j) && j != id ==>
              && rts1[j - 1].gpuIds == rts0[j - 1].gpuIds && rts1[j - 1].memoryLimit == rts0[j - 1].memoryLimit
              && rts1[j - 1].gpuMemoryLimit == rts0[j - 1].gpuMemoryLimit && rts1[j - 1].gpus == rts0[j - 1].gpus
              && (rts1[j - 1].state.Running? <==> rts0[j - 1].state.Running?)
              && (rts0[j - 1].state.IsPending() || !rts1[j - 1].state.IsPending())
  {
    var stripped := rts0[id - 1 := rts0[id - 1].(gpuIds := None)];
    assert Exists(|stripped|, id);
  }
}
