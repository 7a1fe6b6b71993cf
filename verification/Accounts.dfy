/** The running totals that the scheduler goes by, counted out over the running jobs. */
module Accounts {
  import opened Types
  import opened PlainTerms
  import opened Counting
  import opened Tally
  import opened JobInvariants
  import opened Quotas
  import opened Resources

  // ---------- sums and sizes ----------

  lemma {:induction false} SumIsTotal(w: seq<nat>)
    ensures Sum(w) == Total(w)
  {
    if w == [] {
    } else {
      SumIsTotal(w[..|w| - 1]);
      SumAppend(w[..|w| - 1], w[|w| - 1]);
      assert w == w[..|w| - 1] + [w[|w| - 1]];
    }
  }

  /** The positions at which a list of zeros and ones has a one. */
  ghost function Ones(w: seq<nat>): set<nat> {
    set i | 0 <= i < |w| && w[i] == 1
  }

  lemma {:induction false} SumIsSize(w: seq<nat>)
    requires forall i :: 0 <= i < |w| ==> w[i] <= 1
    ensures Sum(w) == |Ones(w)|
  {
    if w == [] {
      assert Ones(w) == {};
    } else {
      var front, last := w[..|w| - 1], w[|w| - 1];
      SumIsSize(front);
      SumAppend(front, last);
      assert w == front + [last];
      assert Ones(w) == Ones(front) + if last == 1 then {|front|} else {};
    }
  }

  // ---------- users, projects and groups ----------

  lemma UserIsCounted(specs: seq<JobSpec>, rts: seq<JobRuntime>, user: string)
    requires |specs| == |rts|
    ensures Usage(UserShares(specs, rts), user) ==
            QuotaUsage(|JobsOf(specs, rts, user)|, GpusOf(specs, rts, user))
  {
    var shares := UserShares(specs, rts);
    var jobs, gpus := JobWeights(shares, user), GpuWeights(shares, user);
    SumIsSize(jobs);
    SumIsTotal(gpus);
    assert Ones(jobs) == JobsOf(specs, rts, user);
    assert gpus == seq(|rts|, i requires 0 <= i < |rts| =>
                         if rts[i].state.Running? && specs[i].submittedBy == user then rts[i].gpus else 0);
  }

  lemma ProjectIsCounted(specs: seq<JobSpec>, rts: seq<JobRuntime>, project: string)
    requires |specs| == |rts|
    ensures Usage(ProjectShares(specs, rts), project) ==
            QuotaUsage(|JobsFor(specs, rts, project)|, GpusFor(specs, rts, project))
  {
    var shares := ProjectShares(specs, rts);
    var jobs, gpus := JobWeights(shares, project), GpuWeights(shares, project);
    SumIsSize(jobs);
    SumIsTotal(gpus);
    assert Ones(jobs) == JobsFor(specs, rts, project);
    assert gpus == seq(|rts|, i requires 0 <= i < |rts| =>
                         if rts[i].state.Running? && specs[i].project == Some(project) then rts[i].gpus else 0);
  }

  lemma GroupIsCounted(rts: seq<JobRuntime>, group: nat)
    ensures Usage(GroupShares(rts), group).jobs == |JobsIn(rts, group)|
  {
    var jobs := JobWeights(GroupShares(rts), group);
    SumIsSize(jobs);
    assert Ones(jobs) == JobsIn(rts, group);
  }

  // ---------- memory ----------

  lemma MemoryIsCounted(rts: seq<JobRuntime>, unified: bool)
    ensures MemoryUsed(rts, unified) == HostMemoryInUse(rts, unified)
    ensures forall rt :: MemoryNeed(unified, rt) == HostMemory(unified, rt)
  {
    forall rt ensures MemoryNeed(unified, rt) == HostMemory(unified, rt) {
    }
    var needs := GpuWeights(MemoryShares(rts, unified), 0);
    SumIsTotal(needs);
    assert needs == seq(|rts|, i requires 0 <= i < |rts| =>
                          if rts[i].state.Running? then HostMemory(unified, rts[i]) else 0);
  }

  lemma DeclaredIsCounted(rts: seq<JobRuntime>, gpu: nat)
    ensures SharedMemory(rts, gpu) == DeclaredOn(rts, gpu)
  {
    var limits := GpuWeights(SharedShares(rts, gpu), 0);
    SumIsTotal(limits);
    assert limits == seq(|rts|, i requires 0 <= i < |rts| =>
                           if Occupies(rts, i + 1, gpu) && rts[i].sharing.Shared? && rts[i].gpuMemoryLimit.Some?
                           then rts[i].gpuMemoryLimit.value else 0);
  }

  /** No shared job on a GPU is what a count of zero says. */
  lemma SharersAreCounted(rts: seq<JobRuntime>, gpu: nat)
    ensures SharedJobs(rts, gpu) == 0 <==>
            forall id: JobId :: Occupies(rts, id, gpu) ==> !rts[id - 1].sharing.Shared?
    ensures HeldExclusively(rts, gpu) <==>
            exists id: JobId :: Occupies(rts, id, gpu) && rts[id - 1].sharing.Exclusive?
  {
    var jobs := JobWeights(SharedShares(rts, gpu), 0);
    SumIsSize(jobs);
    assert forall i: nat :: i in Ones(jobs) <==> Occupies(rts, i + 1, gpu) && rts[i].sharing.Shared?;
    assert Ones(jobs) == {} <==> |Ones(jobs)| == 0;
    forall id: JobId ensures RunsOn(rts, id, gpu) <==> Occupies(rts, id, gpu) {
    }
    if SharedJobs(rts, gpu) == 0 {
      forall id: JobId | Occupies(rts, id, gpu) ensures !rts[id - 1].sharing.Shared? {
        var i: nat := id - 1;
        assert i !in Ones(jobs);
      }
    }
  }

  /** When a GPU is refused to a job: somebody holds it exclusively; or the job wants it for itself and
      somebody shares it; or the limits declared there leave too little of its memory. */
  lemma RefusedExactly(rts: seq<JobRuntime>, gpu: nat, memory: map<nat, nat>, rt: JobRuntime)
    ensures !Compatible(rts, gpu, memory, rt) <==>
              || (exists id: JobId :: Occupies(rts, id, gpu) && rts[id - 1].sharing.Exclusive?)
              || (rt.sharing.Exclusive? && exists id: JobId :: Occupies(rts, id, gpu))
              || (rt.sharing.Shared? && rt.gpuMemoryLimit.Some? && gpu in memory
                  && memory[gpu] < DeclaredOn(rts, gpu) + rt.gpuMemoryLimit.value)
  {
    hide SharedJobs, SharedMemory, HeldExclusively, DeclaredOn;
    SharersAreCounted(rts, gpu);
    DeclaredIsCounted(rts, gpu);
  }
  // ---------- one more job ----------

  /** The runtimes with job `id` counted in as running. */
  ghost function CountedIn(rts: seq<JobRuntime>, id: JobId): seq<JobRuntime>
    requires 1 <= id <= |rts|
  {
    rts[id - 1 := rts[id - 1].(state := JobState.Running)]
  }

  /** With job `id` counted in, host memory suffices. */
  ghost predicate MemoryAllows(rts: seq<JobRuntime>, unified: bool, total: nat, id: JobId)
    requires 1 <= id <= |rts|
  {
    HostMemoryInUse(CountedIn(rts, id), unified) <= total
  }

  /** With job `id` counted in, its group has no more running jobs than the job says it may have. */
  ghost predicate GroupAllows(rts: seq<JobRuntime>, id: JobId)
    requires 1 <= id <= |rts|
  {
    var rt := rts[id - 1];
    rt.group.Some? && rt.maxConcurrent.Some? ==> |JobsIn(CountedIn(rts, id), rt.group.value)| <= rt.maxConcurrent.value
  }

  /** With job `id` counted in, its user and its project stay within their limits. */
  ghost predicate QuotaAllows(specs: seq<JobSpec>, rts: seq<JobRuntime>, config: QuotaConfig, id: JobId)
    requires |specs| == |rts| && 1 <= id <= |rts|
  {
    var spec, rts' := specs[id - 1], CountedIn(rts, id);
    var user := config.UserLimits(spec.submittedBy);
    && (user.maxRunningJobs.Some? ==> |JobsOf(specs, rts', spec.submittedBy)| <= user.maxRunningJobs.value)
    && (user.maxRunningGpus.Some? ==> GpusOf(specs, rts', spec.submittedBy) <= user.maxRunningGpus.value)
    && (spec.project.Some? && config.ProjectLimits(spec.project).Some? ==>
          var project := config.ProjectLimits(spec.project).value;
          && (project.maxRunningJobs.Some? ==>
                |JobsFor(specs, rts', spec.project.value)| <= project.maxRunningJobs.value)
          && (project.maxRunningGpus.Some? ==>
                GpusFor(specs, rts', spec.project.value) <= project.maxRunningGpus.value))
  }

  lemma CountInMemory(rts: seq<JobRuntime>, unified: bool, id: JobId)
    requires Exists(|rts|, id) && !rts[id - 1].state.Running?
    ensures HostMemoryInUse(CountedIn(rts, id), unified) ==
            MemoryUsed(rts, unified) + MemoryNeed(unified, rts[id - 1])
  {
    hide Usage, HostMemoryInUse;
    MemoryIsCounted(CountedIn(rts, id), unified);
    var need := MemoryNeed(unified, rts[id - 1]);
    assert MemoryShares(CountedIn(rts, id), unified) == MemoryShares(rts, unified)[id - 1 := Some((0, need))];
    UsageEnter(MemoryShares(rts, unified), id - 1, 0, need, 0);
  }

  lemma CountInGroup(rts: seq<JobRuntime>, id: JobId, group: nat)
    requires Exists(|rts|, id) && !rts[id - 1].state.Running? && rts[id - 1].group == Some(group)
    ensures |JobsIn(CountedIn(rts, id), group)| == Usage(GroupShares(rts), group).jobs + 1
  {
    hide Usage, JobsIn;
    GroupIsCounted(CountedIn(rts, id), group);
    assert GroupShares(CountedIn(rts, id)) == GroupShares(rts)[id - 1 := Some((group, rts[id - 1].gpus))];
    UsageEnter(GroupShares(rts), id - 1, group, rts[id - 1].gpus, group);
  }

  lemma CountInUser(specs: seq<JobSpec>, rts: seq<JobRuntime>, id: JobId)
    requires |specs| == |rts| && Exists(|rts|, id) && !rts[id - 1].state.Running?
    ensures var user, rts' := specs[id - 1].submittedBy, CountedIn(rts, id);
      && |JobsOf(specs, rts', user)| == Usage(UserShares(specs, rts), user).jobs + 1
      && GpusOf(specs, rts', user) == Usage(UserShares(specs, rts), user).gpus + rts[id - 1].gpus
  {
    hide Usage, JobsOf, GpusOf;
    var user, rts' := specs[id - 1].submittedBy, CountedIn(rts, id);
    UserIsCounted(specs, rts', user);
    assert UserShares(specs, rts') == UserShares(specs, rts)[id - 1 := Some((user, rts[id - 1].gpus))];
    UsageEnter(UserShares(specs, rts), id - 1, user, rts[id - 1].gpus, user);
  }

  lemma CountInProject(specs: seq<JobSpec>, rts: seq<JobRuntime>, id: JobId, project: string)
    requires |specs| == |rts| && Exists(|rts|, id) && !rts[id - 1].state.Running?
    requires specs[id - 1].project == Some(project)
    ensures var rts' := CountedIn(rts, id);
      && |JobsFor(specs, rts', project)| == Usage(ProjectShares(specs, rts), project).jobs + 1
      && GpusFor(specs, rts', project) == Usage(ProjectShares(specs, rts), project).gpus + rts[id - 1].gpus
  {
    hide Usage, JobsFor, GpusFor;
    var rts' := CountedIn(rts, id);
    ProjectIsCounted(specs, rts', project);
    assert ProjectShares(specs, rts') == ProjectShares(specs, rts)[id - 1 := Some((project, rts[id - 1].gpus))];
    UsageEnter(ProjectShares(specs, rts), id - 1, project, rts[id - 1].gpus, project);
  }

  /** The guards of the memory, group and quota checks are right: within the bounds so far, each lets a job
      pass if and only if the bound still holds with the job counted in. */
  lemma ChecksAreRight(m: Machine, specs: seq<JobSpec>, rts: seq<JobRuntime>, id: JobId)
    requires |specs| == |rts| && Exists(|rts|, id) && !rts[id - 1].state.Running?
    requires MemoryUsed(rts, m.unified) <= m.totalMemory
    ensures MemoryNeed(m.unified, rts[id - 1]) <= MemoryFree(rts, m.unified, m.totalMemory) <==>
              MemoryAllows(rts, m.unified, m.totalMemory, id)
    ensures var rt := rts[id - 1];
      GroupRoom(rt, if rt.group.Some? then Usage(GroupShares(rts), rt.group.value).jobs else 0) <==>
        GroupAllows(rts, id)
    ensures QuotaRoom(specs[id - 1], rts[id - 1], m.config, specs, rts) <==> QuotaAllows(specs, rts, m.config, id)
  {
    hide Usage, MemoryUsed, MemoryNeed, JobsOf, JobsFor, JobsIn, GpusOf, GpusFor, HostMemoryInUse, CountedIn;
    hide UserShares, ProjectShares, GroupShares, QuotaConfig.UserLimits;
    CountInMemory(rts, m.unified, id);
    CountInUser(specs, rts, id);
    if rts[id - 1].group.Some? {
      CountInGroup(rts, id, rts[id - 1].group.value);
    }
    if specs[id - 1].project.Some? {
      CountInProject(specs, rts, id, specs[id - 1].project.value);
    }
  }
}
