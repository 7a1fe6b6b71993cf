/** The scheduler: jobs, reservations and the machine, and the cycle that starts jobs. */
module Schedulers {
  import opened Types
  import opened PlainTerms
  import opened Accounts
  import opened Dependencies
  import opened Tally
  import opened JobInvariants
  import opened ReadyQueue
  import opened Cascades
  import opened Cycles
  import opened Draining
  import opened FairShare
  import opened Ledger
  import opened JobTables
  import opened Quotas
  import opened Reservations
  import opened ReservationBooks
  import opened Refreshing
  import opened Claiming
  import opened Resources
  import opened Occupancies
  import opened Sorting
  import opened BeginTimes
  import opened TableInvariants

  // ---------- the fair-share order ----------

  datatype SortKey = SortKey(priority: nat, factor: nat, bonus: nat)

  function FairShareKey(specs: seq<JobSpec>, rts: seq<JobRuntime>, factor: string -> nat, id: JobId): SortKey {
    if |specs| != |rts| || !Exists(|rts|, id) then SortKey(0, 0, 0)
    else SortKey(rts[id - 1].priority, factor(specs[id - 1].submittedBy), TimeBonus(rts[id - 1].timeLimit))
  }

  /** Priority first, then the user's fair-share factor, then the time bonus, then the older job. */
  predicate Precedes(specs: seq<JobSpec>, rts: seq<JobRuntime>, factor: string -> nat, a: JobId, b: JobId) {
    var ka, kb := FairShareKey(specs, rts, factor, a), FairShareKey(specs, rts, factor, b);
    if ka.priority != kb.priority then ka.priority > kb.priority
    else if ka.factor != kb.factor then ka.factor > kb.factor
    else if ka.bonus != kb.bonus then ka.bonus > kb.bonus
    else a <= b
  }

  /** The first of two jobs has the higher priority; or, at the same priority, a submitter with the larger
      factor; or, at the same factor too, the larger time bonus; or else it is no younger. */
  predicate ComesFairly(specs: seq<JobSpec>, rts: seq<JobRuntime>, factor: string -> nat, a: JobId, b: JobId) {
    |specs| == |rts| && 1 <= a <= |rts| && 1 <= b <= |rts| ==>
      var p, q := rts[a - 1].priority, rts[b - 1].priority;
      var f, g := factor(specs[a - 1].submittedBy), factor(specs[b - 1].submittedBy);
      var x, y := TimeBonus(rts[a - 1].timeLimit), TimeBonus(rts[b - 1].timeLimit);
      p > q || (p == q && f > g) || (p == q && f == g && x > y) || (p == q && f == g && x == y && a <= b)
  }

  ghost predicate InFairOrder(specs: seq<JobSpec>, rts: seq<JobRuntime>, factor: string -> nat, sorted: seq<JobId>) {
    forall i, j :: 0 <= i < j < |sorted| ==> ComesFairly(specs, rts, factor, sorted[i], sorted[j])
  }

  lemma SortedFairly(specs: seq<JobSpec>, rts: seq<JobRuntime>, factor: string -> nat, sorted: seq<JobId>)
    requires Sorted(sorted, (a: nat, b: nat) => Precedes(specs, rts, factor, a, b))
    ensures InFairOrder(specs, rts, factor, sorted)
  {
    hide TimeBonus;
    forall i, j | 0 <= i < j < |sorted| ensures ComesFairly(specs, rts, factor, sorted[i], sorted[j]) {
      assert Precedes(specs, rts, factor, sorted[i], sorted[j]);
    }
  }

  lemma FairShareIsTotal(specs: seq<JobSpec>, rts: seq<JobRuntime>, factor: string -> nat)
    ensures TotalOrder((a: nat, b: nat) => Precedes(specs, rts, factor, a, b))
  {
    hide FairShareKey;
  }

  /** The order in which the GPUs are tried for a job. */
  function ByKey(key: (JobId, nat) -> nat, job: JobId): (nat, nat) -> bool {
    (a: nat, b: nat) => key(job, a) <= key(job, b)
  }

  /** What a cycle can change. */
  datatype Snapshot = Snapshot(rts: seq<JobRuntime>, depRts: seq<DependencyRuntime>, heap: multiset<ReadyEntry>,
                               reservations: seq<Reservation>, memory: nat)

  class Scheduler {
    const jobs: JobTable
    const book: ReservationBook
    const unifiedMemory: bool
    const fairShareEnabled: bool

    var gpuSlots: seq<GpuSlot>
    var allowedGpus: Option<seq<nat>>
    var totalMemory: nat
    var availableMemory: nat
    var quotaBaseline: QuotaConfig
    var quotaOverrides: QuotaConfig

    constructor (echo: bool, decay: Decay, unified: bool, fairShare: bool, slots: seq<GpuSlot>,
                 allowed: Option<seq<nat>>, memory: nat, quotas: QuotaConfig, overrides: QuotaConfig)
      requires SlotsDistinct(slots)
      ensures Valid() && fresh(jobs) && fresh(book)
      ensures jobs.echo == echo && jobs.decay == decay && jobs.specs == [] && jobs.muted == {} && jobs.credits == []
      ensures jobs.IsQuiet(0) && jobs.Expectant(0) && jobs.InRank() && forall t :: jobs.OnTime(t)
      ensures book.reservations == [] && gpuSlots == slots && totalMemory == memory && availableMemory == memory
      ensures unifiedMemory == unified && allowedGpus == allowed && quotaBaseline == quotas
      ensures quotaOverrides == overrides
    {
      jobs := new JobTable(echo, decay);
      book := new ReservationBook();
      unifiedMemory, fairShareEnabled, gpuSlots, allowedGpus := unified, fairShare, slots, allowed;
      totalMemory, availableMemory := memory, memory;
      quotaBaseline, quotaOverrides := quotas, overrides;
    }

    ghost predicate MachineOk()
      reads `gpuSlots, book
    {
      && book.Valid(|gpuSlots|) && NoRepeats(book.reservations)
      && SlotsDistinct(gpuSlots)
    }

    ghost predicate Valid()
      reads this, jobs, book
    {
      jobs.Valid() && MachineOk() && Allocated(jobs.rts)
    }

    /** `m` is the machine as a cycle at `now` sees it. */
    ghost predicate Describes(m: Machine, now: Time)
      reads `gpuSlots, `allowedGpus, `totalMemory, `quotaBaseline, `quotaOverrides, book
    {
      && m.unified == unifiedMemory && m.totalMemory == totalMemory && m.gpuCount == |gpuSlots|
      && Ascending(m.available)
      && (forall gpu :: gpu in m.available <==> IsOffered(gpu, gpuSlots, allowedGpus))
      && m.gpuMemory == MemoryOf(gpuSlots)
      && m.config == Merged(quotaBaseline, quotaOverrides)
      && m.active == ActiveNow(book.reservations, now)
    }

    /** There is only one such description. */
    lemma DescribesUniquely(a: Machine, b: Machine, now: Time)
      requires Describes(a, now) && Describes(b, now)
      ensures a == b
    {
      InvertedIndex.AscendingUnique(a.available, b.available);
    }

    // ---------- small steps ----------

    /** Recomputes free host memory from the running jobs. */
    method RefreshAvailableMemory()
      modifies `availableMemory
      ensures availableMemory == MemoryFree(jobs.rts, unifiedMemory, totalMemory)
      ensures var used := HostMemoryInUse(jobs.rts, unifiedMemory);
              availableMemory == if used <= totalMemory then totalMemory - used else 0
    {
      hide MemoryUsed, HostMemoryInUse;
      MemoryIsCounted(jobs.rts, unifiedMemory);
      var used := MemoryInUse(jobs.rts, unifiedMemory);
      availableMemory := SaturatingSub(totalMemory, used);
    }

    method EffectiveQuotas() returns (config: QuotaConfig)
      ensures config == Merged(quotaBaseline, quotaOverrides)
    {
      config := MergeConfigs(quotaBaseline, quotaOverrides);
    }

    /** Whether starting a job with so many GPUs would respect its user's and its project's limits. */
    method WithinQuota(user: string, project: Option<string>, gpus: nat) returns (ok: bool)
      ensures ok <==> var config := Merged(quotaBaseline, quotaOverrides);
                && RoomFor(config.UserLimits(user), UsageAt(jobs.userUsage, user), gpus)
                && (project.Some? ==>
                      RoomFor(config.ProjectLimits(project).value, UsageAt(jobs.projectUsage, project.value), gpus))
      ensures var base, over := quotaBaseline, quotaOverrides;
        ok <==>
          && (forall n: nat ::
                JobLimit(n, Named(over.users, user), Named(base.users, user), over.defaultUser, base.defaultUser) ==>
                  UsageAt(jobs.userUsage, user).jobs + 1 <= n)
          && (forall n: nat ::
                GpuLimit(n, Named(over.users, user), Named(base.users, user), over.defaultUser, base.defaultUser) ==>
                  UsageAt(jobs.userUsage, user).gpus + gpus <= n)
          && (project.Some? ==>
                (forall n: nat ::
                   JobLimit(n, Named(over.projects, project.value), Named(base.projects, project.value),
                            over.defaultProject, base.defaultProject) ==>
                     UsageAt(jobs.projectUsage, project.value).jobs + 1 <= n)
                && (forall n: nat ::
                      GpuLimit(n, Named(over.projects, project.value), Named(base.projects, project.value),
                               over.defaultProject, base.defaultProject) ==>
                        UsageAt(jobs.projectUsage, project.value).gpus + gpus <= n))
    {
      UserRoom(quotaBaseline, quotaOverrides, user, UsageAt(jobs.userUsage, user), gpus);
      if project.Some? {
        ProjectRoom(quotaBaseline, quotaOverrides, project.value, UsageAt(jobs.projectUsage, project.value), gpus);
      }
      hide JobLimit, GpuLimit, Named, Merged, UsageAt;
      var effective := EffectiveQuotas();
      var userLimits, userUsage := effective.UserLimits(user), UsageAt(jobs.userUsage, user);
      if userLimits.maxRunningJobs.Some? && userUsage.jobs >= userLimits.maxRunningJobs.value {
        return false;
      }
      if userLimits.maxRunningGpus.Some? && userUsage.gpus + gpus > userLimits.maxRunningGpus.value {
        return false;
      }
      if project.Some? {
        var limits, usage := effective.ProjectLimits(project).value, UsageAt(jobs.projectUsage, project.value);
        if limits.maxRunningJobs.Some? && usage.jobs >= limits.maxRunningJobs.value {
          return false;
        }
        if limits.maxRunningGpus.Some? && usage.gpus + gpus > limits.maxRunningGpus.value {
          return false;
        }
      }
      return true;
    }

    /** Puts candidate GPUs in order: ascending, or by an arbitrary key of the job and the GPU. */
    method ReorderUsableGpus(job: JobId, usable: seq<nat>, key: (JobId, nat) -> nat) returns (ordered: seq<nat>)
      ensures multiset(ordered) == multiset(usable) && Sorted(ordered, ByKey(key, job))
    {
      ordered := SortBy(usable, ByKey(key, job));
    }

    /** Reorders the jobs of a cycle by fair share. */
    method FairShareSort(runnable: seq<JobId>, factor: string -> nat) returns (sorted: seq<JobId>)
      ensures multiset(sorted) == multiset(runnable)
      ensures InFairOrder(jobs.specs, jobs.rts, factor, sorted)
    {
      var specs, rts := jobs.specs, jobs.rts;
      FairShareIsTotal(specs, rts, factor);
      sorted := SortBy(runnable, (a: nat, b: nat) => Precedes(specs, rts, factor, a, b));
      SortedFairly(specs, rts, factor, sorted);
    }

    // ---------- one job of a cycle ----------

    /** The invariant inside a cycle: the jobs in `lost` have no entry in the heap yet. */
    ghost predicate CycleOk(lost: set<JobId>)
      reads this, jobs, book
    {
      && jobs.Coherent(0, lost) && jobs.CountersRight(0) && |jobs.specs| == |jobs.rts| == |jobs.depRts|
      && Allocated(jobs.rts) && MachineOk()
      && availableMemory == MemoryFree(jobs.rts, unifiedMemory, totalMemory)
    }

    /** Job `id` is queued and its dependencies are satisfied. */
    ghost predicate Waiting(id: JobId)
      reads jobs`rts, jobs`depRts
    {
      |jobs.rts| == |jobs.depRts| && Exists(|jobs.rts|, id)
      && jobs.rts[id - 1].state.Queued? && jobs.depRts[id - 1].depsSatisfied
    }

    /** The four checks that come before GPUs are looked for. */
    method CheckJob(id: JobId, available: seq<nat>, now: Time, ghost m: Machine, ghost lost: set<JobId>)
      returns (memory: bool, group: bool, quota: bool, reservations: bool)
      requires CycleOk(lost) && Exists(|jobs.rts|, id) && Describes(m, now) && available == m.available
      ensures memory && group && quota && reservations <==> ChecksPass(m, jobs.specs, jobs.rts, id)
      ensures !(memory && group && quota) ==>
                Blocker(m, jobs.specs, jobs.rts, id) ==
                if !memory then WaitingForMemory else if !group then WaitingForResources else WaitingForQuota
      ensures memory && group && quota ==> Blocker(m, jobs.specs, jobs.rts, id) == WaitingForGpu
    {
      hide MachineOk, Allocated, MemoryUsed, Usage, UserShares, ProjectShares, GroupShares, ClaimsOf, ActiveNow;
      hide Respects;
      hide Merged, JobTable.Coherent, JobTable.CountersRight;
      jobs.TotalsAreExact(lost);
      var spec, rt := jobs.specs[id - 1], jobs.rts[id - 1];
      memory := MemoryNeed(unifiedMemory, rt) <= availableMemory;
      reservations := book.CheckJobRespectsReservations(spec.submittedBy, rt.gpus, available, |gpuSlots|, now);
      group := GroupRoom(rt, if rt.group.Some? then CountAt(jobs.groupRunning, rt.group.value) else 0);
      quota := WithinQuota(spec.submittedBy, spec.project, rt.gpus);
    }

    /** Looks for enough usable and compatible GPUs. */
    method ChooseGpus(id: JobId, available: seq<nat>, memory: map<nat, nat>, o: Occupancy, key: (JobId, nat) -> nat,
                      now: Time, ghost m: Machine, ghost lost: set<JobId>)
      returns (list: Option<seq<nat>>)
      requires CycleOk(lost) && Exists(|jobs.rts|, id) && Reflects(o, jobs.rts)
      requires Describes(m, now) && available == m.available && memory == m.gpuMemory
      ensures list.Some? ==> RightGpus(m, jobs.specs, jobs.rts, id, list.value)
      ensures list.Some? ==> BestGpus(m, jobs.specs, jobs.rts, id, list.value, key)
      ensures list.Some? <==>
                jobs.rts[id - 1].gpus <= |Candidates(m, jobs.rts, jobs.specs[id - 1].submittedBy, jobs.rts[id - 1])|
    {
      hide Allocated, MemoryFree, ClaimsOf, ActiveNow, Merged, JobTable.Coherent, JobTable.CountersRight, Reflects;
      hide Compatible, Candidates, Usable, CapacityOk, InRange, SortedByStart, NoRepeats, IdsUnique, MemoryOf;
      var user, rt := jobs.specs[id - 1].submittedBy, jobs.rts[id - 1];
      var usable := book.FilterUsableGpus(user, available, now);
      UsableAtDistinct(user, available, now);
      var ordered := ReorderUsableGpus(id, usable, key);
      SameBag(usable, ordered);
      var compatible := FilterCompatible(ordered, o, memory, rt, jobs.rts, ByKey(key, id));
      CandidatesListed(m, jobs.rts, user, rt, compatible);
      if rt.gpus > |compatible| {
        return None;
      }
      PrefixIsBest(m, id, compatible, rt.gpus, key);
      return Some(compatible[..rt.gpus]);
    }

    lemma PrefixIsBest(m: Machine, id: JobId, compatible: seq<nat>, n: nat, key: (JobId, nat) -> nat)
      requires |jobs.specs| == |jobs.rts| && Exists(|jobs.rts|, id) && n <= |compatible|
      requires Sorted(compatible, ByKey(key, id))
      requires Elements(compatible) == Candidates(m, jobs.rts, jobs.specs[id - 1].submittedBy, jobs.rts[id - 1])
      ensures BestGpus(m, jobs.specs, jobs.rts, id, compatible[..n], key)
    {
      hide Candidates;
    }

    lemma UsableAtDistinct(user: string, available: seq<nat>, now: Time)
      requires MachineOk() && Ascending(available)
      ensures Distinct(Usable(ClaimsOf(ActiveNow(book.reservations, now), user), available))
    {
      hide ClaimsOf, ActiveNow, Usable, IndicesAt, CountsAt;
      assert DisjointAt(book.reservations, now) && RoomAt(book.reservations, |gpuSlots|, now);
      UsableDistinct(book.reservations, now, book.nextId, user, available);
    }

    /** Starts a job on its GPUs and enters it in the tables. */
    method StartOn(id: JobId, list: seq<nat>, o: Occupancy, now: Time, ghost m: Machine,
                   ghost lost: set<JobId>, ghost left: set<JobId>)
      returns (o': Occupancy)
      requires CycleOk(lost) && lost <= left + {id} && Waiting(id) && Reflects(o, jobs.rts) && Describes(m, now)
      requires ChecksPass(m, jobs.specs, jobs.rts, id) && RightGpus(m, jobs.specs, jobs.rts, id, list)
      modifies `availableMemory, jobs`rts, jobs`depRts, jobs`heap, jobs`stateJobs, jobs`groupRunning, jobs`userUsage,
               jobs`projectUsage, jobs`fairShare, jobs`credits
      ensures CycleOk(left) && Reflects(o', jobs.rts)
      ensures Started(old(jobs.rts), jobs.rts, id, list, now) && jobs.heap == old(jobs.heap)
      ensures |jobs.depRts| == |old(jobs.depRts)| && jobs.depRts == old(jobs.depRts)[id - 1 := jobs.depRts[id - 1]]
      ensures jobs.KeepsQueue(0, now) && jobs.credits == old(jobs.credits)
    {
      hide Allocated, MemoryUsed, ClaimsOf, ActiveNow, Merged, JobTable.Coherent, JobTable.CountersRight, Reflects;
      hide Occupied;
      hide Compatible, Usable, MachineOk, JobTable.IsQuiet, JobTable.Expectant, JobTable.OnTime, JobTable.InRank;
      hide DependenciesMet, Successful;
      hide QuotaRoom, GroupRoom, Respects, GpusFit, MemoryOf, MemoryNeed;
      ghost var rts0 := jobs.rts;
      var rt := jobs.rts[id - 1];
      var required := MemoryNeed(unifiedMemory, rt);
      jobs.SatisfiedIsMet(id, lost);
      RightGpusFit(m, jobs.specs, rts0, id, list);
      o' := Occupy(o, list, rt.sharing, rt.gpuMemoryLimit);
      var transitioned := jobs.StartJob(id, list, now, lost, left);
      if transitioned {
        availableMemory := SaturatingSub(availableMemory, required);
      } else {
        assert false;
      }
      OccupyStarted(o, o', rts0, jobs.rts, id, list, now);
      StartKeepsAllocated(rts0, jobs.rts, id, list, now);
      StartUsesMemory(rts0, jobs.rts, jobs.specs, id, list, now, unifiedMemory);
      jobs.CoherentSizes(0, left);
    }

    /** Puts a job back to wait. */
    method PutBack(id: JobId, reason: Reason, o: Occupancy, now: Time, ghost lost: set<JobId>, ghost left: set<JobId>)
      requires CycleOk(lost) && lost <= left + {id} && Waiting(id) && Reflects(o, jobs.rts)
      modifies jobs`rts, jobs`heap
      ensures CycleOk(left) && Reflects(o, jobs.rts)
      ensures Reasoned(old(jobs.rts), jobs.rts, id) && |jobs.rts| == |old(jobs.rts)|
      ensures jobs.rts[id - 1].reason == Some(reason)
      ensures jobs.heap == old(jobs.heap) +
                if !jobs.specs[id - 1].StartsAfter(now)
                then multiset{LiveEntry(old(jobs.rts)[id - 1], jobs.depRts[id - 1])} else multiset{}
      ensures jobs.KeepsQueue(0, now)
    {
      hide Allocated, MemoryUsed, JobTable.Coherent, JobTable.CountersRight, Reflects;
      hide MachineOk, JobTable.IsQuiet, JobTable.Expectant, JobTable.OnTime, JobTable.InRank, RunningShrinks;
      ghost var rts0 := jobs.rts;
      jobs.Requeue(id, reason, now, lost, left);
      ReasonedReflects(o, rts0, jobs.rts, id);
      ReasonedShrinks(rts0, jobs.rts, id);
      ShrinkKeepsAllocated(rts0, jobs.rts);
      ReasonedMemory(rts0, jobs.rts, id, unifiedMemory);
      jobs.CoherentSizes(0, left);
    }

    /** What considering one job of a cycle did. */
    twostate predicate Considered(id: JobId, started: bool, list: seq<nat>, m: Machine, now: Time)
      requires |old(jobs.specs)| == |old(jobs.rts)| && Exists(|old(jobs.rts)|, id)
      reads this, jobs
    {
      && (started <==> Admits(m, old(jobs.specs), old(jobs.rts), id))
      && (if started
          then Started(old(jobs.rts), jobs.rts, id, list, now) && RightGpus(m, old(jobs.specs), old(jobs.rts), id, list)
          else Reasoned(old(jobs.rts), jobs.rts, id) && |jobs.rts| == |old(jobs.rts)|
               && jobs.rts[id - 1].reason == Some(Blocker(m, old(jobs.specs), old(jobs.rts), id)))
      && |jobs.depRts| == |old(jobs.depRts)| == |old(jobs.rts)|
      && jobs.depRts == old(jobs.depRts)[id - 1 := jobs.depRts[id - 1]]
      && (started || jobs.depRts == old(jobs.depRts))
      && jobs.heap == old(jobs.heap) +
           if !started && !old(jobs.specs)[id - 1].StartsAfter(now)
           then multiset{LiveEntry(old(jobs.rts)[id - 1], old(jobs.depRts)[id - 1])} else multiset{}
    }

    /** Starts a job that passed the checks if there are GPUs for it, and otherwise puts it back. */
    method TryToStart(id: JobId, available: seq<nat>, memory: map<nat, nat>, o: Occupancy, key: (JobId, nat) -> nat,
                      now: Time, ghost m: Machine, ghost lost: set<JobId>, ghost left: set<JobId>)
      returns (started: bool, o': Occupancy, ghost list: seq<nat>)
      requires CycleOk(lost) && lost <= left + {id} && Waiting(id) && Reflects(o, jobs.rts)
      requires Describes(m, now) && available == m.available && memory == m.gpuMemory
      requires ChecksPass(m, jobs.specs, jobs.rts, id) && Blocker(m, jobs.specs, jobs.rts, id) == WaitingForGpu
      modifies `availableMemory, jobs`rts, jobs`depRts, jobs`heap, jobs`stateJobs, jobs`groupRunning, jobs`userUsage,
               jobs`projectUsage, jobs`fairShare, jobs`credits
      ensures CycleOk(left) && Reflects(o', jobs.rts) && Considered(id, started, list, m, now)
      ensures started ==> BestGpus(m, old(jobs.specs), old(jobs.rts), id, list, key)
      ensures jobs.KeepsQueue(0, now) && jobs.credits == old(jobs.credits)
    {
      hide MemoryFree, ClaimsOf, Reflects, CycleOk, Describes, ChecksPass, RightGpus, Candidates;
      hide Started, Reasoned, LiveEntry, Blocker, BestGpus, JobTable.IsQuiet, JobTable.Expectant, JobTable.OnTime;
      hide JobTable.InRank;
      CycleSizes(lost);
      list := [];
      var chosen := ChooseGpus(id, available, memory, o, key, now, m, lost);
      if chosen.None? {
        PutBack(id, WaitingForGpu, o, now, lost, left);
        return false, o, [];
      }
      o' := StartOn(id, chosen.value, o, now, m, lost, left);
      return true, o', chosen.value;
    }

    /** Starts a job if it passes every check, and otherwise puts it back with the reason. */
    method ConsiderJob(id: JobId, available: seq<nat>, memory: map<nat, nat>, o: Occupancy, key: (JobId, nat) -> nat,
                       now: Time, ghost m: Machine, ghost lost: set<JobId>, ghost left: set<JobId>)
      returns (started: bool, o': Occupancy, ghost list: seq<nat>)
      requires CycleOk(lost) && lost <= left + {id} && Waiting(id) && Reflects(o, jobs.rts)
      requires Describes(m, now) && available == m.available && memory == m.gpuMemory
      modifies `availableMemory, jobs`rts, jobs`depRts, jobs`heap, jobs`stateJobs, jobs`groupRunning, jobs`userUsage,
               jobs`projectUsage, jobs`fairShare, jobs`credits
      ensures CycleOk(left) && Reflects(o', jobs.rts) && Considered(id, started, list, m, now)
      ensures started ==> BestGpus(m, old(jobs.specs), old(jobs.rts), id, list, key)
      ensures jobs.KeepsQueue(0, now) && jobs.credits == old(jobs.credits)
    {
      hide MemoryFree, ClaimsOf, Reflects, CycleOk, Describes, ChecksPass, RightGpus, Candidates;
      hide Started, Reasoned, LiveEntry, Blocker, BestGpus, JobTable.IsQuiet, JobTable.Expectant, JobTable.OnTime;
      hide JobTable.InRank;
      CycleSizes(lost);
      var enough, inGroup, inQuota, respected := CheckJob(id, available, now, m, lost);
      if enough && inGroup && inQuota && respected {
        started, o', list := TryToStart(id, available, memory, o, key, now, m, lost, left);
        return;
      }
      var reason := if !enough then WaitingForMemory else if !inGroup then WaitingForResources
                    else if !inQuota then WaitingForQuota else WaitingForGpu;
      PutBack(id, reason, o, now, lost, left);
      return false, o, [];
    }

    // ---------- the cycle ----------

    /** Considers the first job in `rest`, with the jobs standing as those before it left them. */
    method ConsiderNext(rest: seq<JobId>, available: seq<nat>, memory: map<nat, nat>, o: Occupancy,
                        key: (JobId, nat) -> nat, now: Time, started: seq<JobId>, ghost m: Machine,
                        ghost hidden: set<JobId>, ghost done: seq<JobId>, ghost rts0: seq<JobRuntime>,
                        ghost d0: seq<DependencyRuntime>)
      returns (started': seq<JobId>, o': Occupancy)
      requires rest != [] && CycleOk(Elements(rest) + hidden) && Reflects(o, jobs.rts)
      requires Describes(m, now) && available == m.available && memory == m.gpuMemory
      requires Underway(m, jobs.specs, rts0, jobs.rts, d0, jobs.depRts, jobs.heap, done, rest, started, now)
      modifies `availableMemory, jobs`rts, jobs`depRts, jobs`heap, jobs`stateJobs, jobs`groupRunning, jobs`userUsage,
               jobs`projectUsage, jobs`fairShare, jobs`credits
      ensures CycleOk(Elements(rest[1..]) + hidden) && Reflects(o', jobs.rts)
      ensures Underway(m, jobs.specs, rts0, jobs.rts, d0, jobs.depRts, jobs.heap, done + [rest[0]], rest[1..], started',
                       now)
      ensures jobs.KeepsQueue(0, now) && jobs.credits == old(jobs.credits)
    {
      hide CycleOk, Describes, Reflects, Underway, Started, Reasoned, RightGpus, Admits, Blocker, LiveEntry;
      hide JobTable.IsQuiet, JobTable.Expectant, JobTable.OnTime, JobTable.InRank;
      var id := rest[0];
      OneFewer(rest, hidden);
      NextWaits(m, rts0, d0, done, rest, started, now, Elements(rest) + hidden);
      CycleSizes(Elements(rest) + hidden);
      ghost var rts1, d1, heap1 := jobs.rts, jobs.depRts, jobs.heap;
      var ok;
      ghost var list;
      ok, o', list := ConsiderJob(id, available, memory, o, key, now, m, Elements(rest) + hidden,
                                  Elements(rest[1..]) + hidden);
      CycleSizes(Elements(rest[1..]) + hidden);
      NextUnderway(m, rts0, rts1, d0, d1, heap1, done, rest, started, ok, list, now);
      started' := if ok then started + [id] else started;
    }

    lemma OneFewer(rest: seq<JobId>, hidden: set<JobId>)
      requires rest != []
      ensures Elements(rest) + hidden <= Elements(rest[1..]) + hidden + {rest[0]}
    {
      assert rest == [rest[0]] + rest[1..];
    }

    /** Considers all runnable jobs in the given order. */
    method ConsiderAll(runnable: seq<JobId>, available: seq<nat>, memory: map<nat, nat>, o: Occupancy,
                       key: (JobId, nat) -> nat, now: Time, ghost m: Machine, ghost hidden: set<JobId>,
                       ghost heap0: multiset<ReadyEntry>)
      returns (started: seq<JobId>)
      requires CycleOk(Elements(runnable) + hidden) && Reflects(o, jobs.rts) && jobs.heap == multiset{}
      requires Describes(m, now) && available == m.available && memory == m.gpuMemory
      requires Distinct(runnable) && forall id: JobId :: id in runnable ==> Found(jobs.rts, jobs.depRts, heap0, id)
      modifies `availableMemory, jobs`rts, jobs`depRts, jobs`heap, jobs`stateJobs, jobs`groupRunning, jobs`userUsage,
               jobs`projectUsage, jobs`fairShare, jobs`credits
      ensures CycleOk(hidden)
      ensures Underway(m, jobs.specs, old(jobs.rts), jobs.rts, old(jobs.depRts), jobs.depRts, jobs.heap,
                       runnable, [], started, now)
      ensures jobs.KeepsQueue(0, now) && jobs.credits == old(jobs.credits)
    {
      hide CycleOk, Describes, Reflects, Underway, Found, Distinct, Elements;
      hide JobTable.IsQuiet, JobTable.Expectant, JobTable.OnTime, JobTable.InRank;
      started := [];
      var tables := o;
      CycleSizes(Elements(runnable) + hidden);
      CycleIds(Elements(runnable) + hidden);
      UnderwayStarts(m, jobs.specs, jobs.rts, jobs.depRts, heap0, runnable, now);
      assert runnable[..0] == [] && runnable[0..] == runnable;
      for i := 0 to |runnable|
        invariant CycleOk(Elements(runnable[i..]) + hidden) && Reflects(tables, jobs.rts) && Describes(m, now)
        invariant Underway(m, jobs.specs, old(jobs.rts), jobs.rts, old(jobs.depRts), jobs.depRts, jobs.heap,
                           runnable[..i], runnable[i..], started, now)
        invariant jobs.KeepsQueue(0, now) && jobs.credits == old(jobs.credits)
      {
        started, tables := ConsiderNext(runnable[i..], available, memory, tables, key, now, started, m, hidden,
                                        runnable[..i], old(jobs.rts), old(jobs.depRts));
        OneFurther(runnable, i);
      }
      assert runnable[..|runnable|] == runnable && runnable[|runnable|..] == [];
      NobodyLeft(hidden);
    }

    lemma OneFurther(s: seq<JobId>, i: nat)
      requires i < |s|
      ensures s[i..][1..] == s[i + 1..] && s[..i] + [s[i..][0]] == s[..i + 1]
    {
    }

    lemma CycleSizes(lost: set<JobId>)
      requires CycleOk(lost)
      ensures |jobs.specs| == |jobs.rts| == |jobs.depRts|
    {
    }

    lemma CycleIds(lost: set<JobId>)
      requires CycleOk(lost)
      ensures IdsRight(jobs.rts)
    {
      hide JobTable.Coherent, JobTable.CountersRight, Allocated, MachineOk;
      forall id: JobId | Exists(|jobs.rts|, id) ensures jobs.rts[id - 1].id == id {
        jobs.IdIs(id, lost);
      }
    }

    lemma NobodyLeft(hidden: set<JobId>)
      requires CycleOk(Elements([]) + hidden)
      ensures CycleOk(hidden)
    {
      assert Elements<JobId>([]) + hidden == hidden;
    }

    lemma NextWaits(m: Machine, rts0: seq<JobRuntime>, d0: seq<DependencyRuntime>, done: seq<JobId>, rest: seq<JobId>,
                    started: seq<JobId>, now: Time, lost: set<JobId>)
      requires CycleOk(lost) && rest != []
      requires Underway(m, jobs.specs, rts0, jobs.rts, d0, jobs.depRts, jobs.heap, done, rest, started, now)
      ensures Waiting(rest[0]) && |jobs.specs| == |jobs.rts| && jobs.rts[rest[0] - 1].id == rest[0]
    {
      hide Admits, Bounded, Advanced, Deserved, Greedy, Allocated, MachineOk, JobTable.Coherent, JobTable.CountersRight;
      FirstWaits(jobs.rts, jobs.depRts, rest);
      jobs.IdIs(rest[0], lost);
    }

    lemma NextUnderway(m: Machine, rts0: seq<JobRuntime>, rts1: seq<JobRuntime>, d0: seq<DependencyRuntime>,
                       d1: seq<DependencyRuntime>, heap1: multiset<ReadyEntry>, done: seq<JobId>, rest: seq<JobId>,
                       started: seq<JobId>, ok: bool, list: seq<nat>, now: Time)
      requires rest != [] && Underway(m, jobs.specs, rts0, rts1, d0, d1, heap1, done, rest, started, now)
      requires |jobs.specs| == |rts1| == |d1| == |jobs.depRts| && Exists(|rts1|, rest[0])
      requires rts1[rest[0] - 1].id == rest[0]
      requires ok <==> Admits(m, jobs.specs, rts1, rest[0])
      requires if ok then Started(rts1, jobs.rts, rest[0], list, now) && RightGpus(m, jobs.specs, rts1, rest[0], list)
               else Reasoned(rts1, jobs.rts, rest[0]) && jobs.depRts == d1 && |jobs.rts| == |rts1|
                    && jobs.rts[rest[0] - 1].reason == Some(Blocker(m, jobs.specs, rts1, rest[0]))
      requires jobs.depRts == d1[rest[0] - 1 := jobs.depRts[rest[0] - 1]]
      requires jobs.heap == heap1 + if !ok && !jobs.specs[rest[0] - 1].StartsAfter(now)
                                    then multiset{LiveEntry(rts1[rest[0] - 1], d1[rest[0] - 1])} else multiset{}
      ensures Underway(m, jobs.specs, rts0, jobs.rts, d0, jobs.depRts, jobs.heap, done + [rest[0]], rest[1..],
                       if ok then started + [rest[0]] else started, now)
    {
      hide Admits, Bounded, Underway, Started, Reasoned, RightGpus, Blocker, LiveEntry;
      if ok {
        assert jobs.heap == heap1;
        UnderwayByStart(m, jobs.specs, rts0, rts1, jobs.rts, d0, d1, jobs.depRts, heap1, done, rest, started, list,
                        now);
      } else {
        UnderwayByReason(m, jobs.specs, rts0, rts1, jobs.rts, d0, d1, heap1, jobs.heap, done, rest, started, now);
      }
    }

    /** Brings reservations and free memory up to date, and draws up the tables of a cycle. */
    method SetUpCycle(now: Time) returns (available: seq<nat>, memory: map<nat, nat>, tables: Occupancy,
                                          ghost m: Machine)
      requires MachineOk() && Allocated(jobs.rts)
      modifies `availableMemory, book`reservations
      ensures MachineOk() && book.reservations == Refreshed(old(book.reservations), now)
      ensures availableMemory == MemoryFree(jobs.rts, unifiedMemory, totalMemory)
      ensures Describes(m, now) && available == m.available && memory == m.gpuMemory
      ensures Reflects(tables, jobs.rts)
    {
      hide Reflects, Allocated, MemoryUsed, ActiveNow, MemoryOf, Merged, Refreshed, UpToDate;
      hide CapacityOk, InRange, SortedByStart, NoRepeats, IdsUnique;
      book.UpdateReservationStatuses(now);
      RefreshAvailableMemory();
      available := GetAvailableGpuSlots(gpuSlots, allowedGpus);
      tables := CurrentGpuOccupancy(jobs.rts);
      memory := GpuMemoryTable(gpuSlots);
      m := Machine(unifiedMemory, totalMemory, |gpuSlots|, available, memory, Merged(quotaBaseline, quotaOverrides),
                   ActiveNow(book.reservations, now));
    }

    /** One scheduling cycle: drains the ready heap, orders the jobs, and starts those that fit. */
    method PrepareJobsForExecution(factor: string -> nat, key: (JobId, nat) -> nat, now: Time)
      returns (started: seq<JobId>, ghost m: Machine, ghost found: seq<JobId>)
      requires Valid()
      modifies `availableMemory, book`reservations, jobs`rts, jobs`depRts, jobs`heap, jobs`stateJobs, jobs`groupRunning,
               jobs`userUsage, jobs`projectUsage, jobs`fairShare, jobs`credits
      ensures CycleOk(old(Hidden(jobs.rts, jobs.heap))) && (old(jobs.InRank()) ==> Valid())
      ensures book.reservations == Refreshed(old(book.reservations), now) && Describes(m, now)
      ensures forall id: JobId :: id in found <==> Found(old(jobs.rts), old(jobs.depRts), old(jobs.heap), id)
      ensures CycleResult(m, jobs.specs, old(jobs.rts), jobs.rts, jobs.heap, found, started, now)
      ensures QueueResult(jobs.specs, jobs.rts, old(jobs.depRts), jobs.depRts, jobs.heap, found, started, now)
      ensures if fairShareEnabled then InFairOrder(old(jobs.specs), old(jobs.rts), factor, found)
              else forall i, j :: 0 <= i < j < |found| ==> ComesFirst(old(jobs.rts), found[i], found[j])
      ensures availableMemory == MemoryFree(jobs.rts, unifiedMemory, totalMemory)
      ensures jobs.InRank() && jobs.OnTime(now) && (old(jobs.IsQuiet(0)) ==> jobs.IsQuiet(0))
      ensures old(jobs.InRank() && jobs.OnTime(now) && jobs.Expectant(0)) ==> jobs.Expectant(0)
      ensures jobs.credits == old(jobs.credits)
    {
      hide Found, Underway, Reflects, Distinct, Allocated, Hidden, CycleResult, MachineOk, Describes, MemoryFree;
      hide Refreshed;
      hide InFairOrder, ComesFirst, QueueResult, HeapOk, RuntimesOk, NoneOutranked, NoneEarly, NoneMissed;
      hide JobTable.Coherent, JobTable.CountersRight, JobTable.IsQuiet;
      jobs.CoherentSizes(0, {});
      jobs.HeapIsOk();
      HiddenWhenRanked();
      var available, memory, tables;
      available, memory, tables, m := SetUpCycle(now);
      var runnable := jobs.DrainReady();
      EmptyHeapInOrder(now);
      if fairShareEnabled {
        var sorted := FairShareSort(runnable, factor);
        SameBag(runnable, sorted);
        assert Elements(sorted) == Elements(runnable);
        runnable := sorted;
      }
      found := runnable;
      started := ConsiderAll(runnable, available, memory, tables, key, now, m, old(Hidden(jobs.rts, jobs.heap)),
                             old(jobs.heap));
      UnderwayEnds(m, jobs.specs, old(jobs.rts), jobs.rts, old(jobs.depRts), jobs.depRts, jobs.heap, found, started,
                   now);
      CycleInTime(m, old(jobs.rts), old(jobs.depRts), old(jobs.heap), found, started, now);
    }

    lemma CycleInTime(m: Machine, rts0: seq<JobRuntime>, d0: seq<DependencyRuntime>, heap0: multiset<ReadyEntry>,
                      found: seq<JobId>, started: seq<JobId>, now: Time)
      requires CycleResult(m, jobs.specs, rts0, jobs.rts, jobs.heap, found, started, now)
      requires QueueResult(jobs.specs, jobs.rts, d0, jobs.depRts, jobs.heap, found, started, now)
      requires HeapOk(rts0, d0, heap0, 0) && RuntimesOk(rts0)
      requires forall id: JobId :: id in found <==> Found(rts0, d0, heap0, id)
      ensures (NoneOutranked(rts0, heap0) && NoneEarly(jobs.specs, d0, heap0, now)
               && NoneMissed(jobs.specs, rts0, d0, heap0, 0)) ==> jobs.Expectant(0)
    {
      hide CycleResult, QueueResult, HeapOk, RuntimesOk, Found, NoneOutranked, NoneEarly, NoneMissed;
      if NoneOutranked(rts0, heap0) && NoneEarly(jobs.specs, d0, heap0, now)
         && NoneMissed(jobs.specs, rts0, d0, heap0, 0) {
        CycleMissesNothing(m, jobs.specs, rts0, jobs.rts, d0, jobs.depRts, heap0, jobs.heap, found, started, now);
      }
    }

    lemma HiddenWhenRanked()
      ensures jobs.InRank() ==> Hidden(jobs.rts, jobs.heap) == {}
    {
      hide Hidden, NoneOutranked;
      if jobs.InRank() {
        NoneHidden(jobs.rts, jobs.heap);
      }
    }

    lemma EmptyHeapInOrder(now: Time)
      requires jobs.heap == multiset{} && |jobs.specs| == |jobs.depRts|
      ensures jobs.InRank() && jobs.OnTime(now)
    {
    }

    /** Since `mid` nothing has changed but waiting reasons. */
    ghost predicate Unmoved(mid: Snapshot)
      reads this, jobs, book
    {
      && SameButReasons(mid.rts, jobs.rts) && jobs.depRts == mid.depRts && jobs.heap == mid.heap
      && book.reservations == mid.reservations && availableMemory == mid.memory
    }

    /** Two cycles in a row, with nothing happening in between: the second, whatever order it takes users
        and GPUs in, starts nothing and, since the first (`mid`), changes nothing but waiting reasons. */
    method PrepareTwice(factor: string -> nat, key: (JobId, nat) -> nat, factor2: string -> nat,
                        key2: (JobId, nat) -> nat, now: Time)
      returns (first: seq<JobId>, second: seq<JobId>, ghost mid: Snapshot)
      requires Valid() && jobs.InRank()
      modifies `availableMemory, book`reservations, jobs`rts, jobs`depRts, jobs`heap, jobs`stateJobs, jobs`groupRunning,
               jobs`userUsage, jobs`projectUsage, jobs`fairShare, jobs`credits
      ensures Valid() && second == [] && Unmoved(mid)
    {
      hide Found, CycleResult, QueueResult, SameButReasons, MemoryFree, Valid, CycleOk, Refreshed, LiveEntry;
      hide JobTable.InRank, JobTable.OnTime, JobTable.IsQuiet, JobTable.Expectant;
      hide Offered, Merged, MemoryOf, ActiveNow, Ascending, Admits;
      ghost var m1, m2, found1, found2, rts0, d0, heap0;
      rts0, d0, heap0 := jobs.rts, jobs.depRts, jobs.heap;
      first, m1, found1 := PrepareJobsForExecution(factor, key, now);
      ghost var rts1, d1, heap1 := jobs.rts, jobs.depRts, jobs.heap;
      mid := Snapshot(rts1, d1, heap1, book.reservations, availableMemory);
      RefreshedTwice(old(book.reservations), now);
      forall id: JobId | Found(rts1, d1, heap1, id) ensures !Admits(m1, jobs.specs, rts1, id) {
        LeftoversDoNotFit(m1, jobs.specs, rts0, rts1, d1, heap1, found1, first, now, id);
      }
      LeftoversWait(m1, jobs.specs, rts0, rts1, d0, d1, heap0, heap1, found1, first, now);
      second, m2, found2 := PrepareJobsForExecution(factor2, key2, now);
      DescribesUniquely(m1, m2, now);
      NothingFitsNothingStarts(m2, jobs.specs, rts1, jobs.rts, jobs.heap, found2, second, now);
      IdleCycle(m2, jobs.specs, rts1, jobs.rts, jobs.heap, found2, now);
      IdleQueue(jobs.specs, rts1, jobs.rts, d0, d1, jobs.depRts, heap1, jobs.heap, found1, first, found2, now);
    }

    // ---------- failures to start ----------

    /** Handles the report that a job could not be executed: fails it and returns its memory if it
        holds GPU ids, whether or not it is still running. */
    method HandleFailure(id: JobId, now: Time, ghost pending: set<JobId>) returns (ghost order: seq<JobId>)
      requires jobs.Valid() && Allocated(jobs.rts) && Exists(|jobs.rts|, id) && Awaiting(jobs.rts, pending)
      modifies `availableMemory, jobs`rts, jobs`depRts, jobs`heap, jobs`stateJobs, jobs`groupRunning, jobs`userUsage,
               jobs`projectUsage, jobs`fairShare, jobs`credits, jobs`muted
      ensures jobs.Valid() && jobs.Preserves(0, now) && Allocated(jobs.rts) && jobs.muted == old(jobs.muted)
      ensures Stopped(jobs.specs, old(jobs.rts), jobs.rts, id, order, now)
      ensures availableMemory + MemoryUsed(jobs.rts, unifiedMemory) ==
                old(availableMemory + MemoryUsed(jobs.rts, unifiedMemory)) +
                if Reportable(old(jobs.rts)[id - 1]) then 0 else MemoryNeed(unifiedMemory, old(jobs.rts)[id - 1])
      ensures Awaiting(jobs.rts, pending)
      ensures old(Reportable(jobs.rts[id - 1])) || id in pending ==>
                availableMemory + MemoryHeld(jobs.rts, pending, unifiedMemory)
                == old(availableMemory + MemoryHeld(jobs.rts, pending, unifiedMemory))
      ensures old(Punctual(jobs.credits, now)) ==> Punctual(jobs.credits, now)
    {
      hide Allocated, MemoryUsed, MemoryNeed, Reportable, Stopped, Punctual, JobTable.Coherent, JobTable.CountersRight;
      hide JobTable.IsQuiet, JobTable.Expectant, JobTable.OnTime, JobTable.InRank, Transitioned, Credited;
      hide MemoryHeld, Awaiting, TimesKept;
      jobs.CoherentSizes(0, {});
      ghost var rts0 := jobs.rts;
      var rt := jobs.rts[id - 1];
      var hadGpus := rt.gpuIds.Some?;
      jobs.SetGpuIds(id, None, {});
      var required := MemoryNeed(unifiedMemory, rt);
      ghost var rts1, d1, credits1 := jobs.rts, jobs.depRts, jobs.credits;
      ghost var result;
      result, order := jobs.ChangeState(id, Failed, None, true, now);
      if hadGpus {
        availableMemory := availableMemory + required;
      }
      FailureStops(rts0, d1, id, order, now);
      StoppedMemory(jobs.specs, rts0, jobs.rts, id, order, now, unifiedMemory);
      ReportReturns(rts0, id, order, now, pending);
      StoppedRuns(jobs.specs, rts0, jobs.rts, id, order, now);
      ShrinkKeepsAllocated(rts0, jobs.rts);
      RunningHoldsGpus(rts0, id);
      FailurePunctual(rts1, credits1, id, now);
    }

    lemma ReportReturns(rts0: seq<JobRuntime>, id: JobId, order: seq<JobId>, now: Time, pending: set<JobId>)
      requires Stopped(jobs.specs, rts0, jobs.rts, id, order, now) && Allocated(rts0) && Awaiting(rts0, pending)
      requires Exists(|rts0|, id)
      ensures Awaiting(jobs.rts, pending)
      ensures Reportable(rts0[id - 1]) || id in pending ==>
                MemoryHeld(rts0, pending, unifiedMemory) == MemoryHeld(jobs.rts, pending, unifiedMemory) +
                  if rts0[id - 1].gpuIds.Some? then MemoryNeed(unifiedMemory, rts0[id - 1]) else 0
    {
      hide Stopped, Allocated, MemoryHeld, MemoryNeed, Awaiting;
      if Reportable(rts0[id - 1]) || id in pending {
        StoppedHeld(jobs.specs, rts0, jobs.rts, id, order, now, pending, unifiedMemory);
      } else {
        StoppedAwaits(jobs.specs, rts0, jobs.rts, id, order, now, pending);
      }
    }

    lemma RunningHoldsGpus(rts: seq<JobRuntime>, id: JobId)
      requires Allocated(rts) && Exists(|rts|, id)
      ensures Reportable(rts[id - 1]) <==> (rts[id - 1].gpuIds.Some? ==> rts[id - 1].state.Running?)
      ensures rts[id - 1].state.Running? ==> rts[id - 1].gpuIds.Some?
    {
    }

    lemma FailureStops(rts0: seq<JobRuntime>, d1: seq<DependencyRuntime>, id: JobId, order: seq<JobId>, now: Time)
      requires Exists(|rts0|, id)
      requires var rts1 := rts0[id - 1 := rts0[id - 1].(gpuIds := None)];
        if rts1[id - 1].state.Running?
        then Transitioned(jobs.specs, rts1, jobs.rts, d1, jobs.depRts, id, Failed, None, now, true, order, jobs.echo)
        else jobs.rts == rts1
      ensures Stopped(jobs.specs, rts0, jobs.rts, id, order, now)
    {
      hide Cancels, Justified;
    }

    lemma FailurePunctual(rts1: seq<JobRuntime>, credits1: seq<Credit>, id: JobId, now: Time)
      requires Credited(jobs.specs, rts1, credits1, jobs.credits, id, Failed, None, now) || jobs.credits == credits1
      ensures Punctual(credits1, now) ==> Punctual(jobs.credits, now)
    {
      hide Credited, Punctual;
      if Punctual(credits1, now) && jobs.credits != credits1 {
        CreditedPunctually(jobs.specs, rts1, credits1, jobs.credits, id, Failed, None, now, now);
      }
    }

    /** Handles all reports of a cycle; each is a job and whether it was executed. Memory is returned
        once per job, however often the job is reported. */
    method HandleExecutionFailures(results: seq<(JobId, bool)>, now: Time, ghost pending: set<JobId>)
      requires jobs.Valid() && Allocated(jobs.rts) && Awaiting(jobs.rts, pending)
      modifies `availableMemory, jobs`rts, jobs`depRts, jobs`heap, jobs`stateJobs, jobs`groupRunning, jobs`userUsage,
               jobs`projectUsage, jobs`fairShare, jobs`credits, jobs`muted
      ensures jobs.Valid() && jobs.Preserves(0, now) && Allocated(jobs.rts) && jobs.muted == old(jobs.muted)
      ensures RunningShrinks(old(jobs.rts), jobs.rts)
      ensures FailedAsReported(old(jobs.rts), jobs.rts, results, |results|, now)
      ensures Awaiting(jobs.rts, pending)
      ensures Expected(old(jobs.rts), results, pending) ==>
                availableMemory + MemoryHeld(jobs.rts, pending, unifiedMemory)
                == old(availableMemory + MemoryHeld(jobs.rts, pending, unifiedMemory))
      ensures forall k :: 0 <= k < |results| && !results[k].1 && Exists(|jobs.rts|, results[k].0) ==>
                !jobs.rts[results[k].0 - 1].state.Running?
      ensures old(Punctual(jobs.credits, now)) ==> Punctual(jobs.credits, now)
    {
      hide Allocated, MemoryUsed, MemoryNeed, Stopped, Punctual, JobTable.Valid, JobTable.IsQuiet, JobTable.Expectant;
      hide JobTable.OnTime, JobTable.InRank, MemoryHeld, Awaiting;
      hide Reportable, FailedAsReported, Expected;
      NoneReported(jobs.rts, results, now);
      for i := 0 to |results|
        invariant jobs.Valid() && jobs.Preserves(0, now) && Allocated(jobs.rts) && jobs.muted == old(jobs.muted)
        invariant RunningShrinks(old(jobs.rts), jobs.rts)
        invariant FailedAsReported(old(jobs.rts), jobs.rts, results, i, now)
        invariant Awaiting(jobs.rts, pending)
        invariant Expected(old(jobs.rts), results, pending) ==> Expected(jobs.rts, results, pending)
        invariant Expected(old(jobs.rts), results, pending) ==>
                    availableMemory + MemoryHeld(jobs.rts, pending, unifiedMemory)
                    == old(availableMemory + MemoryHeld(jobs.rts, pending, unifiedMemory))
        invariant forall k :: 0 <= k < i && !results[k].1 && Exists(|jobs.rts|, results[k].0) ==>
                    !jobs.rts[results[k].0 - 1].state.Running?
        invariant old(Punctual(jobs.credits, now)) ==> Punctual(jobs.credits, now)
      {
        var id := results[i].0;
        ghost var rts1, order := jobs.rts, [];
        if !results[i].1 && Exists(|jobs.rts|, id) {
          ExpectedOne(jobs.rts, results, pending, i);
          order := HandleFailure(id, now, pending);
          StillExpected(jobs.specs, rts1, jobs.rts, results, pending, order, id, now);
          StoppedRuns(jobs.specs, rts1, jobs.rts, id, order, now);
          RunningShrinksTrans(old(jobs.rts), rts1, jobs.rts);
        }
        NextReported(jobs.specs, old(jobs.rts), rts1, jobs.rts, results, i, order, now);
      }
    }
  }
}
