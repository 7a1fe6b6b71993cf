/** The heap of ready jobs: its order, epoch-stamped entries, and what it must contain. */
module ReadyQueue {
  import opened Types

  datatype ReadyEntry = ReadyEntry(job: JobId, epoch: nat, priority: nat, bonus: nat)

  const DAY: Time := 24 * 3600

  /** Shorter time limits earn a larger bonus; no limit earns the least. Computed exactly. */
  function TimeBonus(limit: Option<Time>): nat {
    match limit
    case None => 100
    case Some(secs) => 200 + 100 * (DAY - if secs < DAY then secs else DAY) / DAY
  }

  /** The bonus is 100 without a limit, 200 for a day or more, and otherwise 200 and as much of 100 as the
      limit leaves of a day, rounded down. A shorter limit never earns less. */
  lemma TimeBonusMeans(limit: Option<Time>, other: Option<Time>)
    ensures limit == None ==> TimeBonus(limit) == 100
    ensures limit.Some? && 86400 <= limit.value ==> TimeBonus(limit) == 200
    ensures limit.Some? && limit.value < 86400 ==>
              var share := TimeBonus(limit) - 200;
              86400 * share <= 100 * (86400 - limit.value) < 86400 * (share + 1)
    ensures limit == Some(0) ==> TimeBonus(limit) == 300
    ensures limit.Some? && other.Some? && limit.value <= other.value ==> TimeBonus(other) <= TimeBonus(limit)
  {
  }

  /** Heap order: priority, then time bonus, then the smaller job id, then the newer epoch. */
  predicate RanksBelow(a: ReadyEntry, b: ReadyEntry) {
    if a.priority != b.priority then a.priority < b.priority
    else if a.bonus != b.bonus then a.bonus < b.bonus
    else if a.job != b.job then a.job > b.job
    else a.epoch < b.epoch
  }

  /** The entry that lets the job run: current epoch, current key. */
  function LiveEntry(rt: JobRuntime, dep: DependencyRuntime): ReadyEntry {
    ReadyEntry(rt.id, dep.readyEpoch, rt.priority, TimeBonus(rt.timeLimit))
  }

  predicate KeyAtMost(e: ReadyEntry, priority: nat, bonus: nat) {
    e.priority < priority || (e.priority == priority && e.bonus <= bonus)
  }

  /** Entries belong to jobs, none comes from a future epoch, and those of the present epoch are the
      live entries of queued jobs, except possibly for job `skip`. */
  ghost predicate HeapOk(rts: seq<JobRuntime>, deps: seq<DependencyRuntime>, heap: multiset<ReadyEntry>, skip: JobId) {
    && |rts| == |deps|
    && forall e :: e in heap ==>
         && Exists(|deps|, e.job) && e.epoch <= deps[e.job - 1].readyEpoch
         && (e.epoch == deps[e.job - 1].readyEpoch && e.job != skip ==>
               rts[e.job - 1].state.Queued? && e == LiveEntry(rts[e.job - 1], deps[e.job - 1]))
  }

  /** Job `id` has an entry of its present epoch in the heap. */
  predicate HasLiveEntry(deps: seq<DependencyRuntime>, heap: multiset<ReadyEntry>, id: JobId) {
    Exists(|deps|, id) && exists e :: e in heap && e.job == id && e.epoch == deps[id - 1].readyEpoch
  }

  /** No entry outranks its job's present key. */
  ghost predicate NoneOutranked(rts: seq<JobRuntime>, heap: multiset<ReadyEntry>) {
    forall e :: e in heap && Exists(|rts|, e.job) ==>
      KeyAtMost(e, rts[e.job - 1].priority, TimeBonus(rts[e.job - 1].timeLimit))
  }

  /** Every queued job without a begin time whose dependencies are satisfied has its live entry. */
  ghost predicate NoneLost(specs: seq<JobSpec>, rts: seq<JobRuntime>, deps: seq<DependencyRuntime>,
                           heap: multiset<ReadyEntry>, skip: set<JobId>)
    requires |specs| == |rts| == |deps|
  {
    forall id: JobId |
      Exists(|rts|, id) && id !in skip && rts[id - 1].state.Queued? && specs[id - 1].scheduledAt.None?
      && deps[id - 1].depsSatisfied ::
        LiveEntry(rts[id - 1], deps[id - 1]) in heap
  }

  /** A non-empty heap has a greatest entry. */
  lemma {:induction false} HasTop(heap: multiset<ReadyEntry>) returns (top: ReadyEntry)
    requires heap != multiset{}
    ensures top in heap
    ensures forall e :: e in heap ==> e == top || RanksBelow(e, top)
    decreases |heap|
  {
    var x :| x in heap;
    var rest := heap - multiset{x};
    if rest == multiset{} {
      top := x;
      assert heap == multiset{x};
    } else {
      var t := HasTop(rest);
      top := if RanksBelow(t, x) then x else t;
      forall e | e in heap ensures e == top || RanksBelow(e, top) {
        assert e == x || e in rest;
      }
    }
  }

  // ---------- waiting reasons ----------

  /** Why a queued job waits: its begin time first, then its dependencies. */
  function WaitReason(spec: JobSpec, rt: JobRuntime, dep: DependencyRuntime, now: Time): Option<Reason> {
    if !rt.state.Queued? then None
    else if spec.StartsAfter(now) then Some(WaitingForStartTime)
    else if dep.depsSatisfied then None
    else Some(WaitingForDependency)
  }

  /** Resource reasons written elsewhere are left alone when there is nothing to wait for. */
  function SyncedReason(current: Option<Reason>, desired: Option<Reason>): Option<Reason> {
    if desired.Some? then desired
    else if current == Some(WaitingForDependency) || current == Some(WaitingForStartTime) then None
    else current
  }

  /** The runtime of job `id` with its waiting reason brought up to date. */
  function Synced(specs: seq<JobSpec>, rts: seq<JobRuntime>, d: seq<DependencyRuntime>, id: JobId,
                  now: Time): JobRuntime
    requires |specs| == |rts| == |d| && Exists(|rts|, id)
  {
    rts[id - 1].(reason := SyncedReason(rts[id - 1].reason, WaitReason(specs[id - 1], rts[id - 1], d[id - 1], now)))
  }
}
