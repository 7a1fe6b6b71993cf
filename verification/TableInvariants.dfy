/** The invariants of the job table as a whole, and what its elementary updates do to them. */
module TableInvariants {
  import opened Types
  import opened PlainTerms
  import opened Counting
  import opened Dependencies
  import opened InvertedIndex
  import opened JobInvariants
  import opened ReadyQueue
  import opened Cascades
  import opened FairShare
  import opened Ledger

  /** The job vectors on their own are in order. */
  ghost predicate JobsInv(specs: seq<JobSpec>, rts: seq<JobRuntime>, credits: seq<Credit>, muted: set<JobId>) {
    && |specs| == |rts|
    && SpecsOk(specs) && RuntimesOk(rts) && StartedSafely(specs, rts) && GpusExclusive(rts)
    && LedgerOk(specs, rts, credits, 0) && muted <= Unsuccessful(rts)
  }

  /** Flags and heap follow the counters, except possibly the flags of job `flagSkip` and the heap
      entries of the jobs in `lostSkip`. */
  ghost predicate QueueInv(specs: seq<JobSpec>, rts: seq<JobRuntime>, deps: seq<DependencyRuntime>,
                           heap: multiset<ReadyEntry>, flagSkip: JobId, lostSkip: set<JobId>)
  {
    && |specs| == |rts| == |deps|
    && FlagsOk(specs, deps, flagSkip)
    && HeapOk(rts, deps, heap, flagSkip)
    && NoneLost(specs, rts, deps, heap, lostSkip)
  }

  /** A job may start when its dependencies are met and its GPUs are free for it. */
  ghost predicate MayStart(specs: seq<JobSpec>, rts: seq<JobRuntime>, id: JobId) {
    |specs| == |rts| && Exists(|rts|, id) && GpusFit(rts, id) && DependenciesMet(specs[id - 1], Successful(rts))
  }

  lemma KeysAreDependencies(specs: seq<JobSpec>, id: JobId, d: JobId)
    ensures |DependencyKeys(specs)| == |specs|
    ensures Exists(|specs|, id) ==> (d in DependencyKeys(specs)[id - 1] <==> DependsOn(specs, id, d))
    ensures DependsOn(specs, id, d) ==> Exists(|specs|, id)
  {
  }

  lemma ListedDependents(specs: seq<JobSpec>, dependents: Index<JobId>, d: JobId)
    requires Indexes(dependents, DependencyKeys(specs))
    ensures var list := Lookup(dependents, d);
      && Ascending(list)
      && (forall id: JobId :: id in list <==> DependsOn(specs, id, d))
  {
    hide DependencyKeys, DependsOn;
    forall id: JobId ensures id in Lookup(dependents, d) <==> DependsOn(specs, id, d) {
      KeysAreDependencies(specs, id, d);
    }
  }

  // ---------- what a move keeps ----------

  lemma MoveKeepsLedger(specs: seq<JobSpec>, rts0: seq<JobRuntime>, rts1: seq<JobRuntime>, credits: seq<Credit>,
                        id: JobId, next: JobState, reason: Option<Reason>, now: Time)
    requires |specs| == |rts0| && Exists(|rts0|, id) && !rts0[id - 1].state.IsFinal()
    requires rts1 == rts0[id - 1 := Moved(rts0[id - 1], next, reason, now)]
    requires LedgerOk(specs, rts0, credits, 0)
    ensures LedgerOk(specs, rts1, credits, if next.IsFinal() then id else 0)
    ensures !HasCredit(credits, id)
  {
    LedgerKept(specs, rts0, rts1, credits, 0, if next.IsFinal() then id else 0);
  }

  lemma MoveKeepsJobs(specs: seq<JobSpec>, rts0: seq<JobRuntime>, rts1: seq<JobRuntime>,
                      id: JobId, next: JobState, reason: Option<Reason>, now: Time)
    requires |specs| == |rts0| && Exists(|rts0|, id) && rts0[id - 1].state.CanTransitionTo(next)
    requires rts1 == rts0[id - 1 := Moved(rts0[id - 1], next, reason, now)]
    requires next.Running? ==> GpusFit(rts0, id) && DependenciesMet(specs[id - 1], Successful(rts0))
    requires RuntimesOk(rts0) && StartedSafely(specs, rts0) && GpusExclusive(rts0)
    ensures RuntimesOk(rts1) && StartedSafely(specs, rts1) && GpusExclusive(rts1)
  {
    MoveFinished(rts0, id, next, reason, now);
    StartedSafelyGrows(specs, rts0, rts1);
    MoveKeepsExclusive(rts0, id, next, reason, now);
  }

  lemma MoveKeepsHeap(rts0: seq<JobRuntime>, rts1: seq<JobRuntime>, d0: seq<DependencyRuntime>,
                      d1: seq<DependencyRuntime>, heap: multiset<ReadyEntry>, id: JobId)
    requires Exists(|d0|, id) && HeapOk(rts0, d0, heap, 0) && |rts1| == |rts0| && rts1 == rts0[id - 1 := rts1[id - 1]]
    requires d1 == d0[id - 1 := d0[id - 1].(readyEpoch := d0[id - 1].readyEpoch + 1)]
    ensures HeapOk(rts1, d1, heap, 0)
  {
  }

  lemma MoveKeepsFlags(specs: seq<JobSpec>, d0: seq<DependencyRuntime>, d1: seq<DependencyRuntime>, id: JobId,
                       skip: JobId)
    requires FlagsOk(specs, d0, skip) && Exists(|specs|, id)
    requires d1 == d0[id - 1 := d0[id - 1].(readyEpoch := d0[id - 1].readyEpoch + 1)]
    ensures FlagsOk(specs, d1, skip)
  {
  }

  lemma MoveKeepsNoneLost(specs: seq<JobSpec>, rts0: seq<JobRuntime>, rts1: seq<JobRuntime>,
                          d0: seq<DependencyRuntime>, d1: seq<DependencyRuntime>, heap: multiset<ReadyEntry>,
                          lost: set<JobId>, left: set<JobId>,
                          id: JobId, next: JobState, reason: Option<Reason>, now: Time)
    requires |specs| == |rts0| == |d0| && Exists(|rts0|, id) && NoneLost(specs, rts0, d0, heap, lost)
    requires lost <= left + {id} && (next.Queued? ==> id in left)
    requires rts1 == rts0[id - 1 := Moved(rts0[id - 1], next, reason, now)]
    requires d1 == d0[id - 1 := d0[id - 1].(readyEpoch := d0[id - 1].readyEpoch + 1)]
    ensures NoneLost(specs, rts1, d1, heap, left)
  {
  }

  lemma MoveKeeps(specs: seq<JobSpec>, rts0: seq<JobRuntime>, rts1: seq<JobRuntime>,
                  d0: seq<DependencyRuntime>, d1: seq<DependencyRuntime>, heap: multiset<ReadyEntry>,
                  lost: set<JobId>, left: set<JobId>, credits: seq<Credit>, muted: set<JobId>,
                  id: JobId, next: JobState, reason: Option<Reason>, now: Time)
    requires |specs| == |rts0| == |d0| && Exists(|rts0|, id) && rts0[id - 1].state.CanTransitionTo(next)
    requires rts1 == rts0[id - 1 := Moved(rts0[id - 1], next, reason, now)]
    requires d1 == d0[id - 1 := d0[id - 1].(readyEpoch := d0[id - 1].readyEpoch + 1)]
    requires next.Running? ==> GpusFit(rts0, id) && DependenciesMet(specs[id - 1], Successful(rts0))
    requires RuntimesOk(rts0) && StartedSafely(specs, rts0) && GpusExclusive(rts0) && LedgerOk(specs, rts0, credits, 0)
    requires muted <= Unsuccessful(rts0)
    requires FlagsOk(specs, d0, 0) && HeapOk(rts0, d0, heap, 0) && NoneLost(specs, rts0, d0, heap, lost)
    requires lost <= left + {id} && (next.Queued? ==> id in left)
    ensures RuntimesOk(rts1) && StartedSafely(specs, rts1) && GpusExclusive(rts1)
    ensures LedgerOk(specs, rts1, credits, if next.IsFinal() then id else 0) && !HasCredit(credits, id)
    ensures muted <= Unsuccessful(rts1)
    ensures FlagsOk(specs, d1, 0) && HeapOk(rts1, d1, heap, 0)
    ensures NoneLost(specs, rts1, d1, heap, left)
  {
    hide RuntimesOk, StartedSafely, GpusExclusive, LedgerOk, FlagsOk, HeapOk, NoneLost, GpusFit, DependenciesMet;
    hide HasCredit;
    MoveKeepsJobs(specs, rts0, rts1, id, next, reason, now);
    MoveKeepsLedger(specs, rts0, rts1, credits, id, next, reason, now);
    MoveKeepsHeap(rts0, rts1, d0, d1, heap, id);
    MoveKeepsFlags(specs, d0, d1, id, 0);
    MoveKeepsNoneLost(specs, rts0, rts1, d0, d1, heap, lost, left, id, next, reason, now);
    MoveFinished(rts0, id, next, reason, now);
  }

  lemma QuietAfterMove(specs: seq<JobSpec>, rts0: seq<JobRuntime>, rts1: seq<JobRuntime>,
                       d0: seq<DependencyRuntime>, d1: seq<DependencyRuntime>, id: JobId, next: JobState,
                       reason: Option<Reason>, now: Time)
    requires Quiet(specs, rts0, d0, id) && Exists(|rts0|, id)
    requires rts1 == rts0[id - 1 := Moved(rts0[id - 1], next, reason, now)]
    requires d1 == d0[id - 1 := d0[id - 1].(readyEpoch := d0[id - 1].readyEpoch + 1)]
    ensures Quiet(specs, rts1, d1, if next.Queued? then id else 0)
  {
  }

  // ---------- what reason changes, pushes and counting keep ----------

  lemma ReasonsKeepQueue(specs: seq<JobSpec>, rts0: seq<JobRuntime>, rts1: seq<JobRuntime>,
                         d: seq<DependencyRuntime>, heap: multiset<ReadyEntry>, flagSkip: JobId, lostSkip: set<JobId>)
    requires |specs| == |rts0| == |d| && SameButReasons(rts0, rts1)
    requires HeapOk(rts0, d, heap, flagSkip) && NoneLost(specs, rts0, d, heap, lostSkip)
    ensures HeapOk(rts1, d, heap, flagSkip) && NoneLost(specs, rts1, d, heap, lostSkip)
  {
  }

  lemma ReasonsKeep(specs: seq<JobSpec>, rts0: seq<JobRuntime>, rts1: seq<JobRuntime>,
                    d: seq<DependencyRuntime>, heap: multiset<ReadyEntry>, credits: seq<Credit>,
                    muted: set<JobId>, flagSkip: JobId, lostSkip: set<JobId>)
    requires SameButReasons(rts0, rts1)
    requires JobsInv(specs, rts0, credits, muted) && QueueInv(specs, rts0, d, heap, flagSkip, lostSkip)
    ensures JobsInv(specs, rts1, credits, muted) && QueueInv(specs, rts1, d, heap, flagSkip, lostSkip)
    ensures StateKeys(rts1) == StateKeys(rts0) && GroupShares(rts1) == GroupShares(rts0)
    ensures UserShares(specs, rts1) == UserShares(specs, rts0)
    ensures ProjectShares(specs, rts1) == ProjectShares(specs, rts0)
    ensures forall skip :: Quiet(specs, rts0, d, skip) ==> Quiet(specs, rts1, d, skip)
  {
    hide SpecsOk, FlagsOk, RuntimesOk, StartedSafely, GpusExclusive, LedgerOk, HeapOk, NoneLost;
    hide StateKeys, GroupShares, UserShares, ProjectShares, Successful, Unsuccessful;
    ReasonsAreHarmless(specs, rts0, rts1);
    LedgerKept(specs, rts0, rts1, credits, 0, 0);
    ReasonsKeepQueue(specs, rts0, rts1, d, heap, flagSkip, lostSkip);
  }

  lemma EnqueueKeeps(specs: seq<JobSpec>, rts: seq<JobRuntime>, d: seq<DependencyRuntime>,
                     heap0: multiset<ReadyEntry>, heap1: multiset<ReadyEntry>, id: JobId, now: Time,
                     flagSkip: JobId, lost: set<JobId>, left: set<JobId>, credits: seq<Credit>, muted: set<JobId>)
    requires JobsInv(specs, rts, credits, muted) && QueueInv(specs, rts, d, heap0, flagSkip, lost) && Exists(|rts|, id)
    requires lost <= left + {id}
    requires heap1 == heap0 +
               if rts[id - 1].state.Queued? && !specs[id - 1].StartsAfter(now) && d[id - 1].depsSatisfied
               then multiset{LiveEntry(rts[id - 1], d[id - 1])} else multiset{}
    ensures QueueInv(specs, rts, d, heap1, flagSkip, left)
  {
    hide SpecsOk, StartedSafely, GpusExclusive, LedgerOk, Unsuccessful, FlagsOk;
    assert rts[id - 1].id == id;
  }

  function Counted(spec: JobSpec, dep: DependencyRuntime, ok: bool): DependencyRuntime {
    WithFlags(spec.Mode(), dep.total, dep.success + (if ok then 1 else 0),
              dep.terminalNonSuccess + (if ok then 0 else 1), dep.readyEpoch)
  }

  lemma CountedSays(spec: JobSpec, dep: DependencyRuntime, ok: bool)
    ensures FlagsSay(spec, Counted(spec, dep, ok))
  {
  }

  /** One more settled dependency takes job `id` its last chance, and it wants to go with it. */
  predicate GivesUp(specs: seq<JobSpec>, rts: seq<JobRuntime>, d: seq<DependencyRuntime>, id: JobId, ok: bool) {
    && |specs| == |rts| == |d| && Exists(|specs|, id) && rts[id - 1].state.Queued? && specs[id - 1].autoCancel
    && !d[id - 1].impossible && Counted(specs[id - 1], d[id - 1], ok).impossible
  }

  lemma CountKeepsFlags(specs: seq<JobSpec>, d0: seq<DependencyRuntime>, d1: seq<DependencyRuntime>,
                        id: JobId, ok: bool)
    requires FlagsOk(specs, d0, 0) && Exists(|specs|, id)
    requires d1 == d0[id - 1 := Counted(specs[id - 1], d0[id - 1], ok)]
    ensures FlagsOk(specs, d1, 0) && Bumped(d0, d1, id, ok)
    ensures ok && !d0[id - 1].impossible ==> !d1[id - 1].impossible
    ensures !ok && !d0[id - 1].depsSatisfied ==> !d1[id - 1].depsSatisfied
    ensures d0[id - 1].total == |specs[id - 1].Dependencies()|
  {
    var dep := d0[id - 1];
    assert dep == WithFlags(specs[id - 1].Mode(), |specs[id - 1].Dependencies()|,
                            dep.success, dep.terminalNonSuccess, dep.readyEpoch);
  }

  lemma CountKeepsHeap(rts: seq<JobRuntime>, d0: seq<DependencyRuntime>,
                       d1: seq<DependencyRuntime>, heap: multiset<ReadyEntry>, id: JobId)
    requires HeapOk(rts, d0, heap, 0)
    requires Exists(|rts|, id) && |d1| == |d0|
    requires d1 == d0[id - 1 := d1[id - 1]] && d1[id - 1].readyEpoch == d0[id - 1].readyEpoch
    ensures HeapOk(rts, d1, heap, 0)
  {
  }

  lemma CountKeepsNoneLost(specs: seq<JobSpec>, rts: seq<JobRuntime>, d0: seq<DependencyRuntime>,
                           d1: seq<DependencyRuntime>, heap: multiset<ReadyEntry>, id: JobId)
    requires |specs| == |rts| == |d0| && NoneLost(specs, rts, d0, heap, {})
    requires Exists(|specs|, id) && |d1| == |d0|
    requires d1 == d0[id - 1 := d1[id - 1]] && d1[id - 1].readyEpoch == d0[id - 1].readyEpoch
    ensures NoneLost(specs, rts, d1, heap, if !d0[id - 1].depsSatisfied && d1[id - 1].depsSatisfied then {id} else {})
  {
  }

  lemma CountKeepsQuiet(specs: seq<JobSpec>, rts: seq<JobRuntime>, d0: seq<DependencyRuntime>,
                        d1: seq<DependencyRuntime>, id: JobId, ok: bool)
    requires Quiet(specs, rts, d0, 0) && Exists(|specs|, id) && d0[id - 1].total == |specs[id - 1].Dependencies()|
    requires d1 == d0[id - 1 := Counted(specs[id - 1], d0[id - 1], ok)]
    ensures Quiet(specs, rts, d1, id)
    ensures !(rts[id - 1].state.Queued? && specs[id - 1].autoCancel
              && !d0[id - 1].impossible && d1[id - 1].impossible) ==>
              Quiet(specs, rts, d1, 0)
  {
  }

  /** Counting one more settled dependency of job `id`, flags included. */
  lemma CountKeeps(specs: seq<JobSpec>, rts: seq<JobRuntime>, d0: seq<DependencyRuntime>,
                   d1: seq<DependencyRuntime>, heap: multiset<ReadyEntry>, id: JobId, ok: bool)
    requires QueueInv(specs, rts, d0, heap, 0, {}) && Exists(|specs|, id)
    requires d1 == d0[id - 1 := Counted(specs[id - 1], d0[id - 1], ok)]
    ensures QueueInv(specs, rts, d1, heap, 0,
                     if !d0[id - 1].depsSatisfied && d1[id - 1].depsSatisfied then {id} else {})
    ensures Bumped(d0, d1, id, ok)
    ensures ok && !d0[id - 1].impossible ==> !d1[id - 1].impossible
    ensures !ok && !d0[id - 1].depsSatisfied ==> !d1[id - 1].depsSatisfied
    ensures d0[id - 1].total == |specs[id - 1].Dependencies()| && d1[id - 1].readyEpoch == d0[id - 1].readyEpoch
  {
    hide Satisfied, Impossible, FlagsOk, Bumped, HeapOk, NoneLost;
    CountKeepsFlags(specs, d0, d1, id, ok);
    assert d1[id - 1].readyEpoch == d0[id - 1].readyEpoch;
    CountKeepsHeap(rts, d0, d1, heap, id);
    CountKeepsNoneLost(specs, rts, d0, d1, heap, id);
  }

  // ---------- recomputing one job's dependencies ----------

  lemma RecomputeKeepsFlags(specs: seq<JobSpec>, rts: seq<JobRuntime>, d0: seq<DependencyRuntime>,
                            d1: seq<DependencyRuntime>, id: JobId, epoch: nat)
    requires FlagsOk(specs, d0, id) && Exists(|specs|, id)
    requires d1 == d0[id - 1 := Recomputed(specs[id - 1], rts, epoch)]
    ensures FlagsOk(specs, d1, 0)
  {
    hide Successful, Unsuccessful, Satisfied, Impossible;
  }

  lemma RecomputeKeepsQueue(specs: seq<JobSpec>, rts: seq<JobRuntime>, d0: seq<DependencyRuntime>,
                            d1: seq<DependencyRuntime>, heap: multiset<ReadyEntry>, id: JobId)
    requires QueueInv(specs, rts, d0, heap, id, {id}) && Exists(|specs|, id)
    requires d1 == d0[id - 1 := Recomputed(specs[id - 1], rts, d0[id - 1].readyEpoch + 1)]
    ensures QueueInv(specs, rts, d1, heap, 0, {id})
  {
    hide Recomputed, FlagsOk;
    RecomputeKeepsFlags(specs, rts, d0, d1, id, d0[id - 1].readyEpoch + 1);
  }

  lemma RecomputeKeepsQuiet(specs: seq<JobSpec>, rts: seq<JobRuntime>, d0: seq<DependencyRuntime>,
                            d1: seq<DependencyRuntime>, id: JobId)
    requires Quiet(specs, rts, d0, id) && Exists(|specs|, id)
    requires d1 == d0[id - 1 := Recomputed(specs[id - 1], rts, d0[id - 1].readyEpoch + 1)]
    ensures Quiet(specs, rts, d1, id)
    ensures !(rts[id - 1].state.Queued? && specs[id - 1].autoCancel && d1[id - 1].impossible) ==>
              Quiet(specs, rts, d1, 0)
  {
    hide Successful, Unsuccessful;
    CountInExtremes(specs[id - 1].Dependencies(), Unsuccessful(rts));
  }

  // ---------- begin times ----------

  /** No live entry belongs to a job whose begin time is still to come. */
  ghost predicate NoneEarly(specs: seq<JobSpec>, deps: seq<DependencyRuntime>, heap: multiset<ReadyEntry>, now: Time) {
    && |specs| == |deps|
    && forall e :: e in heap && Exists(|deps|, e.job) && e.epoch == deps[e.job - 1].readyEpoch ==>
         !specs[e.job - 1].StartsAfter(now)
  }

  /** Raising a job's epoch only retires entries. */
  lemma NewEpochNoneEarly(specs: seq<JobSpec>, rts: seq<JobRuntime>, d0: seq<DependencyRuntime>,
                          d1: seq<DependencyRuntime>, heap: multiset<ReadyEntry>, skip: JobId, id: JobId, now: Time)
    requires |d0| == |d1| && HeapOk(rts, d0, heap, skip) && NoneEarly(specs, d0, heap, now)
    requires Exists(|d0|, id) && d1 == d0[id - 1 := d1[id - 1]] && d1[id - 1].readyEpoch == d0[id - 1].readyEpoch + 1
    ensures NoneEarly(specs, d1, heap, now)
  {
  }

  lemma SameEpochsNoneEarly(specs: seq<JobSpec>, d0: seq<DependencyRuntime>, d1: seq<DependencyRuntime>,
                            heap: multiset<ReadyEntry>, id: JobId, now: Time)
    requires NoneEarly(specs, d0, heap, now) && |d0| == |d1| && Exists(|d0|, id)
    requires d1 == d0[id - 1 := d1[id - 1]] && d1[id - 1].readyEpoch == d0[id - 1].readyEpoch
    ensures NoneEarly(specs, d1, heap, now)
  {
  }

  lemma EnqueueNoneEarly(specs: seq<JobSpec>, rts: seq<JobRuntime>, deps: seq<DependencyRuntime>,
                         heap0: multiset<ReadyEntry>, heap1: multiset<ReadyEntry>, id: JobId, now: Time)
    requires |specs| == |rts| == |deps| && Exists(|rts|, id) && RuntimesOk(rts) && NoneEarly(specs, deps, heap0, now)
    requires heap1 == heap0 +
               if rts[id - 1].state.Queued? && !specs[id - 1].StartsAfter(now) && deps[id - 1].depsSatisfied
               then multiset{LiveEntry(rts[id - 1], deps[id - 1])} else multiset{}
    ensures NoneEarly(specs, deps, heap1, now)
  {
    IdsOk(rts, id);
  }

  // ---------- ranks ----------

  lemma SameKeysNoneOutranked(rts0: seq<JobRuntime>, rts1: seq<JobRuntime>, heap: multiset<ReadyEntry>)
    requires |rts0| == |rts1| && NoneOutranked(rts0, heap)
    requires forall i :: 0 <= i < |rts0| ==>
               rts1[i].priority == rts0[i].priority && rts1[i].timeLimit == rts0[i].timeLimit
    ensures NoneOutranked(rts1, heap)
  {
  }

  lemma EnqueueNoneOutranked(rts: seq<JobRuntime>, deps: seq<DependencyRuntime>, heap: multiset<ReadyEntry>, id: JobId)
    requires |rts| == |deps| && Exists(|rts|, id) && RuntimesOk(rts) && NoneOutranked(rts, heap)
    ensures NoneOutranked(rts, heap + multiset{LiveEntry(rts[id - 1], deps[id - 1])})
  {
    IdsOk(rts, id);
  }

  // ---------- GPU ids ----------

  lemma SetGpusKeepsSets(rts0: seq<JobRuntime>, rts1: seq<JobRuntime>, id: JobId, gpus: Option<seq<nat>>)
    requires Exists(|rts0|, id) && rts1 == rts0[id - 1 := rts0[id - 1].(gpuIds := gpus)]
    ensures Successful(rts1) == Successful(rts0) && Unsuccessful(rts1) == Unsuccessful(rts0)
    ensures AutoCancelled(rts1) == AutoCancelled(rts0)
  {
    assert forall i :: 0 <= i < |rts0| ==> rts1[i].state == rts0[i].state && rts1[i].reason == rts0[i].reason;
  }

  /** Giving GPUs to a job that is not running, or taking a job's away, harms no invariant. */
  lemma GpusKeepJobs(specs: seq<JobSpec>, rts0: seq<JobRuntime>, rts1: seq<JobRuntime>, id: JobId,
                     gpus: Option<seq<nat>>, credits: seq<Credit>)
    requires |specs| == |rts0| && Exists(|rts0|, id) && rts1 == rts0[id - 1 := rts0[id - 1].(gpuIds := gpus)]
    requires gpus.None? || !rts0[id - 1].state.Running?
    requires RuntimesOk(rts0) && StartedSafely(specs, rts0) && GpusExclusive(rts0) && LedgerOk(specs, rts0, credits, 0)
    ensures RuntimesOk(rts1) && StartedSafely(specs, rts1) && GpusExclusive(rts1) && LedgerOk(specs, rts1, credits, 0)
    ensures Unsuccessful(rts1) == Unsuccessful(rts0)
  {
    hide LedgerOk, GpusExclusive, Successful, Unsuccessful, AutoCancelled;
    SetGpusKeepsSets(rts0, rts1, id, gpus);
    LedgerKept(specs, rts0, rts1, credits, 0, 0);
    GpusKeepExclusive(rts0, rts1, id, gpus);
  }

  lemma GpusKeepExclusive(rts0: seq<JobRuntime>, rts1: seq<JobRuntime>, id: JobId, gpus: Option<seq<nat>>)
    requires Exists(|rts0|, id) && rts1 == rts0[id - 1 := rts0[id - 1].(gpuIds := gpus)]
    requires gpus.None? || !rts0[id - 1].state.Running?
    requires GpusExclusive(rts0)
    ensures GpusExclusive(rts1)
  {
    forall a: JobId, b: JobId, gpu | RunsOn(rts1, a, gpu) && RunsOn(rts1, b, gpu) && a != b
      ensures rts1[a - 1].sharing.Shared? && rts1[b - 1].sharing.Shared?
    {
      assert RunsOn(rts0, a, gpu) && RunsOn(rts0, b, gpu);
    }
  }

  lemma GpusKeepQueue(specs: seq<JobSpec>, rts0: seq<JobRuntime>, rts1: seq<JobRuntime>, id: JobId,
                      gpus: Option<seq<nat>>, deps: seq<DependencyRuntime>, heap: multiset<ReadyEntry>,
                      flagSkip: JobId, lost: set<JobId>)
    requires Exists(|rts0|, id) && rts1 == rts0[id - 1 := rts0[id - 1].(gpuIds := gpus)]
    requires |specs| == |rts0| == |deps| && HeapOk(rts0, deps, heap, flagSkip)
    requires NoneLost(specs, rts0, deps, heap, lost)
    ensures HeapOk(rts1, deps, heap, flagSkip) && NoneLost(specs, rts1, deps, heap, lost)
  {
    hide TimeBonus;
    assert forall i :: 0 <= i < |rts0| ==>
      rts1[i].state == rts0[i].state && LiveEntry(rts1[i], deps[i]) == LiveEntry(rts0[i], deps[i]);
  }

  lemma GpusKeepCounters(specs: seq<JobSpec>, rts0: seq<JobRuntime>, rts1: seq<JobRuntime>, id: JobId,
                         gpus: Option<seq<nat>>, deps: seq<DependencyRuntime>, heap: multiset<ReadyEntry>,
                         muted: set<JobId>, echo: bool)
    requires Exists(|rts0|, id) && rts1 == rts0[id - 1 := rts0[id - 1].(gpuIds := gpus)]
    requires |specs| == |rts0| == |deps|
    ensures CountersOk(specs, rts0, deps, muted, echo, 0) ==> CountersOk(specs, rts1, deps, muted, echo, 0)
    ensures Quiet(specs, rts0, deps, 0) ==> Quiet(specs, rts1, deps, 0)
    ensures NoneOutranked(rts0, heap) ==> NoneOutranked(rts1, heap)
  {
    hide Successful, Unsuccessful, AutoCancelled;
    SetGpusKeepsSets(rts0, rts1, id, gpus);
    assert forall i :: 0 <= i < |rts0| ==>
      rts1[i].state == rts0[i].state && rts1[i].priority == rts0[i].priority && rts1[i].timeLimit == rts0[i].timeLimit;
    if NoneOutranked(rts0, heap) {
      SameKeysNoneOutranked(rts0, rts1, heap);
    }
  }
}
