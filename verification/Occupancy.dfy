/** The occupancy tables of a scheduling cycle, and the lists of GPUs drawn up with them. */
module Occupancies {
  import opened Types
  import opened Tally
  import opened JobInvariants
  import opened Reservations
  import opened Claiming
  import opened Resources
  import opened Sorting

  datatype Occupancy = Occupancy(shared: map<nat, nat>, exclusive: set<nat>, sharedMemory: map<nat, nat>)

  const NO_OCCUPANCY := Occupancy(map[], {}, map[])

  /** The tables say for one GPU what the running jobs hold of it. */
  ghost predicate ReflectsAt(o: Occupancy, rts: seq<JobRuntime>, gpu: nat) {
    && CountAt(o.shared, gpu) == SharedJobs(rts, gpu)
    && (gpu in o.exclusive <==> HeldExclusively(rts, gpu))
    && CountAt(o.sharedMemory, gpu) == SharedMemory(rts, gpu)
  }

  ghost predicate Reflects(o: Occupancy, rts: seq<JobRuntime>) {
    forall gpu :: ReflectsAt(o, rts, gpu)
  }

  /** `o'` is `o` with one job of the given kind on each GPU in `on`. */
  ghost predicate Occupied(o: Occupancy, o': Occupancy, on: seq<nat>, sharing: GpuSharingMode, limit: Option<nat>) {
    forall gpu ::
      && CountAt(o'.shared, gpu) == CountAt(o.shared, gpu) + (if sharing.Shared? && gpu in on then 1 else 0)
      && (gpu in o'.exclusive <==> gpu in o.exclusive || (sharing.Exclusive? && gpu in on))
      && CountAt(o'.sharedMemory, gpu) ==
           CountAt(o.sharedMemory, gpu) + (if sharing.Shared? && gpu in on then limit.GetOr(0) else 0)
  }

  /** Puts a job on a list of GPUs. */
  method Occupy(o: Occupancy, list: seq<nat>, sharing: GpuSharingMode, limit: Option<nat>) returns (o': Occupancy)
    requires Distinct(list)
    ensures Occupied(o, o', list, sharing, limit)
  {
    o' := o;
    for i := 0 to |list|
      invariant Occupied(o, o', list[..i], sharing, limit)
    {
      var gpu := list[i];
      assert list[..i + 1] == list[..i] + [gpu] && gpu !in list[..i];
      match sharing
      case Shared =>
        o' := o'.(shared := o'.shared[gpu := CountAt(o'.shared, gpu) + 1]);
        if limit.Some? {
          o' := o'.(sharedMemory := o'.sharedMemory[gpu := CountAt(o'.sharedMemory, gpu) + limit.value]);
        }
      case Exclusive =>
        o' := o'.(exclusive := o'.exclusive + {gpu});
    }
    assert list[..|list|] == list;
  }

  lemma AppendOnGpu(rts: seq<JobRuntime>, rt: JobRuntime, gpu: nat)
    ensures var held := rt.state.Running? && rt.gpuIds.Some? && gpu in rt.gpuIds.value;
      && SharedJobs(rts + [rt], gpu) == SharedJobs(rts, gpu) + (if held && rt.sharing.Shared? then 1 else 0)
      && SharedMemory(rts + [rt], gpu) ==
           SharedMemory(rts, gpu) + (if held && rt.sharing.Shared? then rt.gpuMemoryLimit.GetOr(0) else 0)
      && (HeldExclusively(rts + [rt], gpu) <==> HeldExclusively(rts, gpu) || (held && rt.sharing.Exclusive?))
  {
    hide Usage;
    AppendShared(rts, rt, gpu);
    AppendHolds(rts, rt, gpu);
  }

  lemma AppendShared(rts: seq<JobRuntime>, rt: JobRuntime, gpu: nat)
    ensures SharedJobs(rts + [rt], gpu) == SharedJobs(rts, gpu) + (if SharesGpu(rt, gpu) then 1 else 0)
    ensures SharedMemory(rts + [rt], gpu) ==
            SharedMemory(rts, gpu) + (if SharesGpu(rt, gpu) then rt.gpuMemoryLimit.GetOr(0) else 0)
  {
    hide Usage;
    var shares := SharedShares(rts, gpu);
    var share := if SharesGpu(rt, gpu) then Some((0, rt.gpuMemoryLimit.GetOr(0))) else None;
    assert SharedShares(rts + [rt], gpu) == shares + [share];
    UsageExtend(shares, 0);
    if share.Some? {
      UsageEnter(shares + [None], |shares|, 0, rt.gpuMemoryLimit.GetOr(0), 0);
      assert (shares + [None])[|shares| := share] == shares + [share];
    }
  }

  lemma AppendHolds(rts: seq<JobRuntime>, rt: JobRuntime, gpu: nat)
    ensures HeldExclusively(rts + [rt], gpu) <==>
            HeldExclusively(rts, gpu)
            || (rt.state.Running? && rt.gpuIds.Some? && gpu in rt.gpuIds.value && rt.sharing.Exclusive?)
  {
    var rts' := rts + [rt];
    if HeldExclusively(rts', gpu) {
      var id: JobId :| RunsOn(rts', id, gpu) && rts'[id - 1].sharing.Exclusive?;
      assert id <= |rts| ==> RunsOn(rts, id, gpu);
    }
    if HeldExclusively(rts, gpu) {
      var id: JobId :| RunsOn(rts, id, gpu) && rts[id - 1].sharing.Exclusive?;
      assert RunsOn(rts', id, gpu);
    }
    if rt.state.Running? && rt.gpuIds.Some? && gpu in rt.gpuIds.value && rt.sharing.Exclusive? {
      assert RunsOn(rts', |rts| + 1, gpu);
    }
  }

  lemma NothingHeld(gpu: nat)
    ensures ReflectsAt(NO_OCCUPANCY, [], gpu)
  {
  }

  lemma OccupyNext(o: Occupancy, o': Occupancy, rts: seq<JobRuntime>, i: nat)
    requires i < |rts| && Reflects(o, rts[..i])
    requires if rts[i].state.Running? && rts[i].gpuIds.Some?
             then Occupied(o, o', rts[i].gpuIds.value, rts[i].sharing, rts[i].gpuMemoryLimit) else o' == o
    ensures Reflects(o', rts[..i + 1])
  {
    hide SharedJobs, SharedMemory, HeldExclusively;
    var next := rts[..i + 1];
    forall gpu ensures ReflectsAt(o', next, gpu) {
      assert ReflectsAt(o, rts[..i], gpu);
      assert next == rts[..i] + [rts[i]];
      AppendOnGpu(rts[..i], rts[i], gpu);
    }
  }

  /** Builds the tables from the running jobs. */
  method CurrentGpuOccupancy(rts: seq<JobRuntime>) returns (o: Occupancy)
    requires Allocated(rts)
    ensures Reflects(o, rts)
  {
    hide Reflects, Occupied;
    o := NO_OCCUPANCY;
    EmptyReflects(rts);
    for i := 0 to |rts|
      invariant Reflects(o, rts[..i])
    {
      ghost var before := o;
      assert Exists(|rts|, i + 1);
      if rts[i].state.Running? && rts[i].gpuIds.Some? {
        o := Occupy(o, rts[i].gpuIds.value, rts[i].sharing, rts[i].gpuMemoryLimit);
      }
      OccupyNext(before, o, rts, i);
    }
    assert rts[..|rts|] == rts;
  }

  lemma EmptyReflects(rts: seq<JobRuntime>)
    ensures Reflects(NO_OCCUPANCY, rts[..0])
  {
    var none := rts[..0];
    forall gpu ensures ReflectsAt(NO_OCCUPANCY, none, gpu) {
      assert none == [];
      NothingHeld(gpu);
    }
  }

  /** Starting a job and entering it in the tables keeps them right. */
  lemma OccupyStarted(o: Occupancy, o': Occupancy, rts0: seq<JobRuntime>, rts1: seq<JobRuntime>, id: JobId,
                      list: seq<nat>, now: Time)
    requires Reflects(o, rts0) && Started(rts0, rts1, id, list, now)
    requires Occupied(o, o', list, rts0[id - 1].sharing, rts0[id - 1].gpuMemoryLimit)
    ensures Reflects(o', rts1)
  {
    hide SharedJobs, SharedMemory, HeldExclusively;
    forall gpu ensures ReflectsAt(o', rts1, gpu) {
      assert ReflectsAt(o, rts0, gpu);
      StartOnGpu(rts0, rts1, id, list, now, gpu);
    }
  }

  lemma ReasonedReflects(o: Occupancy, rts0: seq<JobRuntime>, rts1: seq<JobRuntime>, id: JobId)
    requires Reflects(o, rts0) && Reasoned(rts0, rts1, id)
    ensures Reflects(o, rts1)
  {
    hide Usage;
    forall gpu ensures ReflectsAt(o, rts1, gpu) {
      assert ReflectsAt(o, rts0, gpu);
      assert SharedShares(rts1, gpu) == SharedShares(rts0, gpu);
      ReasonedShrinks(rts0, rts1, id);
      ExclusiveShrinks(rts0, rts1, gpu);
      ExclusiveShrinks(rts1, rts0, gpu);
    }
  }

  // ---------- choosing GPUs ----------

  /** The compatibility test as the allocation loop makes it, on the tables. */
  predicate CompatibleIn(o: Occupancy, gpu: nat, memory: map<nat, nat>, rt: JobRuntime) {
    match rt.sharing
    case Shared =>
      if gpu in o.exclusive then false
      else if rt.gpuMemoryLimit.Some? && gpu in memory
      then CountAt(o.sharedMemory, gpu) + rt.gpuMemoryLimit.value <= memory[gpu]
      else true
    case Exclusive => gpu !in o.exclusive && CountAt(o.shared, gpu) == 0
  }

  lemma CompatibleInTables(o: Occupancy, rts: seq<JobRuntime>, gpu: nat, memory: map<nat, nat>, rt: JobRuntime)
    requires Reflects(o, rts)
    ensures CompatibleIn(o, gpu, memory, rt) <==> Compatible(rts, gpu, memory, rt)
  {
    assert ReflectsAt(o, rts, gpu);
  }

  /** Keeps the compatible GPUs, in the order they come in. */
  method FilterCompatible(usable: seq<nat>, o: Occupancy, memory: map<nat, nat>, rt: JobRuntime,
                          ghost rts: seq<JobRuntime>,
                          ghost leq: (nat, nat) -> bool)
    returns (list: seq<nat>)
    requires Distinct(usable) && Reflects(o, rts) && Sorted(usable, leq)
    ensures Sorted(list, leq)
    ensures Distinct(list) && forall gpu :: gpu in list <==> gpu in usable && Compatible(rts, gpu, memory, rt)
  {
    hide Reflects, Compatible, CompatibleIn;
    list := [];
    for i := 0 to |usable|
      invariant Distinct(list) && Sorted(list, leq)
      invariant forall gpu :: gpu in list <==> gpu in usable[..i] && Compatible(rts, gpu, memory, rt)
    {
      assert usable[..i + 1] == usable[..i] + [usable[i]] && usable[i] !in usable[..i];
      CompatibleInTables(o, rts, usable[i], memory, rt);
      forall k | 0 <= k < |list| ensures leq(list[k], usable[i]) {
        assert list[k] in usable[..i];
      }
      if CompatibleIn(o, usable[i], memory, rt) {
        list := list + [usable[i]];
      }
    }
    assert usable[..|usable|] == usable;
  }

  /** The candidates' list is as long as their set is large. */
  lemma CandidatesListed(m: Machine, rts: seq<JobRuntime>, user: string, rt: JobRuntime, list: seq<nat>)
    requires Distinct(list)
    requires forall gpu :: gpu in list <==>
               gpu in Usable(ClaimsOf(m.active, user), m.available) && Compatible(rts, gpu, m.gpuMemory, rt)
    ensures Elements(list) == Candidates(m, rts, user, rt) && |list| == |Candidates(m, rts, user, rt)|
  {
    ElementsSize(list);
    assert Elements(list) == Candidates(m, rts, user, rt);
  }

  // ---------- GPU slots ----------

  datatype GpuSlot = GpuSlot(index: nat, available: bool, totalMemory: Option<nat>)

  /** No two slots have the same index. */
  ghost predicate SlotsDistinct(slots: seq<GpuSlot>) {
    forall i, j :: 0 <= i < j < |slots| ==> slots[i].index != slots[j].index
  }

  predicate Offered(slot: GpuSlot, allowed: Option<seq<nat>>) {
    slot.available && (allowed.Some? ==> slot.index in allowed.value)
  }

  predicate IsOffered(gpu: nat, slots: seq<GpuSlot>, allowed: Option<seq<nat>>) {
    exists s :: s in slots && s.index == gpu && Offered(s, allowed)
  }

  /** Running jobs hold only GPUs that are available and allowed. */
  ghost predicate OnOffered(rts: seq<JobRuntime>, slots: seq<GpuSlot>, allowed: Option<seq<nat>>) {
    forall id: JobId, gpu :: RunsOn(rts, id, gpu) ==> IsOffered(gpu, slots, allowed)
  }

  lemma ShrinkKeepsOffered(rts0: seq<JobRuntime>, rts1: seq<JobRuntime>, slots: seq<GpuSlot>, allowed: Option<seq<nat>>)
    requires RunningShrinks(rts0, rts1) && OnOffered(rts0, slots, allowed)
    ensures OnOffered(rts1, slots, allowed)
  {
    forall id: JobId, gpu | RunsOn(rts1, id, gpu) ensures IsOffered(gpu, slots, allowed) {
      assert RunsOn(rts0, id, gpu);
    }
  }

  /** The indices of the slots that may be used, in ascending order. */
  method GetAvailableGpuSlots(slots: seq<GpuSlot>, allowed: Option<seq<nat>>) returns (available: seq<nat>)
    requires SlotsDistinct(slots)
    ensures Ascending(available)
    ensures forall gpu :: gpu in available <==> IsOffered(gpu, slots, allowed)
    ensures forall gpu :: gpu in available <==>
              exists slot :: slot in slots && slot.index == gpu && slot.available
                             && (allowed.Some? ==> gpu in allowed.value)
  {
    var found := [];
    for i := 0 to |slots|
      invariant Distinct(found)
      invariant forall gpu :: gpu in found <==>
                exists k :: 0 <= k < i && slots[k].index == gpu && Offered(slots[k], allowed)
    {
      assert forall k :: 0 <= k < i ==> slots[k].index != slots[i].index;
      if Offered(slots[i], allowed) {
        assert slots[i].index !in found;
        found := found + [slots[i].index];
      }
    }
    available := SortBy(found, (a, b) => a <= b);
    SameBag(found, available);
  }

  /** The GPUs of known memory size. */
  method GpuMemoryTable(slots: seq<GpuSlot>) returns (memory: map<nat, nat>)
    requires SlotsDistinct(slots)
    ensures memory == MemoryOf(slots)
    ensures forall slot :: slot in slots && slot.totalMemory.Some? ==>
              slot.index in memory && memory[slot.index] == slot.totalMemory.value
  {
    MemoryOfSlots(slots);
    memory := map[];
    for i := 0 to |slots|
      invariant memory == MemoryOf(slots[..i])
    {
      assert slots[..i + 1][..i] == slots[..i];
      if slots[i].totalMemory.Some? {
        memory := memory[slots[i].index := slots[i].totalMemory.value];
      }
    }
    assert slots[..|slots|] == slots;
  }

  function MemoryOf(slots: seq<GpuSlot>): map<nat, nat> {
    if slots == [] then map[]
    else
      var rest, last := MemoryOf(slots[..|slots| - 1]), slots[|slots| - 1];
      if last.totalMemory.Some? then rest[last.index := last.totalMemory.value] else rest
  }

  /** The table lists exactly the slots that say how much memory they have. */
  ghost predicate ListsMemory(memory: map<nat, nat>, slots: seq<GpuSlot>) {
    && (forall gpu :: gpu in memory <==> exists slot :: slot in slots && slot.index == gpu && slot.totalMemory.Some?)
    && forall slot :: slot in slots && slot.totalMemory.Some? ==>
         slot.index in memory && memory[slot.index] == slot.totalMemory.value
  }

  lemma ListsOneMore(memory: map<nat, nat>, front: seq<GpuSlot>, last: GpuSlot)
    requires ListsMemory(memory, front) && forall slot :: slot in front ==> slot.index != last.index
    ensures ListsMemory(if last.totalMemory.Some? then memory[last.index := last.totalMemory.value] else memory,
                        front + [last])
  {
    var slots := front + [last];
    var memory' := if last.totalMemory.Some? then memory[last.index := last.totalMemory.value] else memory;
    assert last in slots;
    forall gpu ensures gpu in memory' <==> exists slot :: slot in slots && slot.index == gpu && slot.totalMemory.Some? {
      if gpu in memory {
        var slot :| slot in front && slot.index == gpu && slot.totalMemory.Some?;
        assert slot in slots;
      }
    }
  }

  lemma LastIsOther(slots: seq<GpuSlot>)
    requires SlotsDistinct(slots) && slots != []
    ensures forall slot :: slot in slots[..|slots| - 1] ==> slot.index != slots[|slots| - 1].index
  {
    var front := slots[..|slots| - 1];
    forall slot | slot in front ensures slot.index != slots[|slots| - 1].index {
      var k :| 0 <= k < |front| && front[k] == slot;
      assert slots[k].index != slots[|slots| - 1].index;
    }
  }

  lemma {:induction false} MemoryOfSlots(slots: seq<GpuSlot>)
    requires SlotsDistinct(slots)
    ensures ListsMemory(MemoryOf(slots), slots)
  {
    if slots == [] {
    } else {
      var front, last := slots[..|slots| - 1], slots[|slots| - 1];
      MemoryOfSlots(front);
      assert slots == front + [last];
      LastIsOther(slots);
      ListsOneMore(MemoryOf(front), front, last);
    }
  }

  // ---------- host memory ----------

  method MemoryInUse(rts: seq<JobRuntime>, unified: bool) returns (used: nat)
    ensures used == MemoryUsed(rts, unified)
  {
    hide Usage, MemoryNeed;
    used := 0;
    NoMemoryUsed(rts, unified);
    for i := 0 to |rts|
      invariant used == MemoryUsed(rts[..i], unified)
    {
      NextMemoryUsed(rts, unified, i);
      if rts[i].state.Running? {
        used := used + MemoryNeed(unified, rts[i]);
      }
    }
    assert rts[..|rts|] == rts;
  }

  lemma NoMemoryUsed(rts: seq<JobRuntime>, unified: bool)
    ensures MemoryUsed(rts[..0], unified) == 0
  {
    assert MemoryShares(rts[..0], unified) == [];
  }

  lemma NextMemoryUsed(rts: seq<JobRuntime>, unified: bool, i: nat)
    requires i < |rts|
    ensures MemoryUsed(rts[..i + 1], unified) ==
            MemoryUsed(rts[..i], unified) + (if rts[i].state.Running? then MemoryNeed(unified, rts[i]) else 0)
  {
    hide Usage, MemoryNeed;
    var shares := MemoryShares(rts[..i], unified);
    var share := if rts[i].state.Running? then Some((0, MemoryNeed(unified, rts[i]))) else None;
    assert MemoryShares(rts[..i + 1], unified) == shares + [share];
    UsageExtend(shares, 0);
    if share.Some? {
      UsageEnter(shares + [None], |shares|, 0, MemoryNeed(unified, rts[i]), 0);
      assert (shares + [None])[|shares| := share] == shares + [share];
    }
  }
}
