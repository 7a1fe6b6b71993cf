/** The job table: job vectors, dependency counters, ready heap, redundant indexes, and the
    operations that keep them in step. */
module JobTables {
  import opened Types
  import opened PlainTerms
  import opened Counting
  import opened Dependencies
  import opened InvertedIndex
  import opened Tally
  import opened JobInvariants
  import opened ReadyQueue
  import opened Cascades
  import opened Counters
  import opened FairShare
  import opened Ledger
  import opened CycleCheck
  import opened BeginTimes
  import opened Exactness
  import opened Draining
  import opened Edits
  import opened Rebuild
  import opened Retries
  import opened Submission
  import opened TableInvariants

  class JobTable {
    /** Whether a cascade puts each job it cancels on its work list as a further source, after the
        nested transition has already announced it. The repository's code does (`true`); `false`
        is the variant in which every edge is announced once. */
    const echo: bool
    const decay: Decay

    var specs: seq<JobSpec>
    var rts: seq<JobRuntime>
    var depRts: seq<DependencyRuntime>
    var dependents: Index<JobId>
    var heap: multiset<ReadyEntry>
    var userJobs: Index<string>
    var stateJobs: Index<JobState>
    var projectJobs: Index<string>
    var groupRunning: map<nat, nat>
    var userUsage: map<string, QuotaUsage>
    var projectUsage: map<string, QuotaUsage>
    var fairShare: map<string, FairShareUsage>
    var nextJobId: JobId

    /** Jobs that failed without their dependents being told. */
    ghost var muted: set<JobId>
    /** Every fair-share credit ever made. */
    ghost var credits: seq<Credit>

    static lemma NoJobs(decay: Decay, echo: bool)
      ensures JobsInv([], [], [], {}) && QueueInv([], [], [], multiset{}, 0, {}) && CountersOk([], [], [], {}, echo, 0)
      ensures Quiet([], [], [], 0) && NoneMissed([], [], [], multiset{}, 0) && NoneOutranked([], multiset{})
      ensures forall t :: NoneEarly([], [], multiset{}, t)
      ensures Indexes<JobId>(map[], DependencyKeys([])) && Indexes<string>(map[], UserKeys([]))
      ensures Indexes<string>(map[], ProjectKeys([])) && Indexes<JobState>(map[], StateKeys([]))
      ensures Counts<nat>(map[], GroupShares([])) && Tallies<string>(map[], UserShares([], []))
      ensures Tallies<string>(map[], ProjectShares([], []))
      ensures Replay([], decay) == map[]
    {
      StartsEmpty<JobId>();
      StartsEmpty<string>();
      StartsEmpty<JobState>();
      StartsEmpty<nat>();
      assert GroupShares([]) == [] && UserShares([], []) == [] && ProjectShares([], []) == [];
    }

    constructor (echo: bool, decay: Decay)
      ensures Valid() && IsQuiet(0) && Expectant(0) && InRank() && forall t :: OnTime(t)
      ensures this.echo == echo && this.decay == decay
      ensures specs == [] && rts == [] && heap == multiset{} && muted == {} && credits == []
    {
      hide JobsInv, QueueInv, CountersOk, Quiet, NoneMissed, NoneOutranked, NoneEarly, Indexes, Counts, Tallies, Replay;
      hide DependencyKeys, UserKeys, ProjectKeys, StateKeys, GroupShares, UserShares, ProjectShares;
      this.echo, this.decay := echo, decay;
      specs, rts, depRts, heap, nextJobId := [], [], [], multiset{}, 1;
      dependents, userJobs, stateJobs, projectJobs := map[], map[], map[], map[];
      groupRunning, userUsage, projectUsage, fairShare := map[], map[], map[], map[];
      muted, credits := {}, [];
      new;
      NoJobs(decay, echo);
    }

    ghost predicate Aligned()
      reads `specs, `rts, `depRts, `nextJobId
    {
      |specs| == |rts| == |depRts| && nextJobId == |specs| + 1
    }

    ghost predicate TotalsOk()
      reads `specs, `rts, `groupRunning, `userUsage, `projectUsage
    {
      && |specs| == |rts|
      && Counts(groupRunning, GroupShares(rts))
      && Tallies(userUsage, UserShares(specs, rts))
      && Tallies(projectUsage, ProjectShares(specs, rts))
    }

    ghost predicate JobIndexesOk()
      reads `specs, `rts, `userJobs, `projectJobs, `stateJobs, `groupRunning, `userUsage, `projectUsage
    {
      && Indexes(userJobs, UserKeys(specs))
      && Indexes(projectJobs, ProjectKeys(specs))
      && Indexes(stateJobs, StateKeys(rts))
      && TotalsOk()
    }

    /** Every redundant index and running total is the one the job vectors call for. */
    ghost predicate IndexesOk()
      reads `specs, `rts, `dependents, `userJobs, `projectJobs, `stateJobs, `groupRunning, `userUsage, `projectUsage
    {
      Indexes(dependents, DependencyKeys(specs)) && JobIndexesOk()
    }

    /** Everything but the counters' agreement with the job states; holds even inside a cascade. */
    ghost predicate Coherent(flagSkip: JobId, lostSkip: set<JobId>)
      reads this
    {
      && Aligned()
      && JobsInv(specs, rts, credits, muted)
      && IndexesOk()
      && QueueInv(specs, rts, depRts, heap, flagSkip, lostSkip)
      && fairShare == Replay(credits, decay)
    }

    /** Job `id` has been edited: its flags, counters and heap entry are out of date, and the reverse
        graph still has the job under `keys`. */
    ghost predicate Stale(id: JobId, keys: seq<set<JobId>>)
      reads this
    {
      && Aligned() && Exists(|specs|, id)
      && JobsInv(specs, rts, credits, muted)
      && JobIndexesOk()
      && |keys| == |specs| && Indexes(dependents, keys)
      && DependencyKeys(specs) == keys[id - 1 := Elements(specs[id - 1].Dependencies())]
      && QueueInv(specs, rts, depRts, heap, id, {id})
      && fairShare == Replay(credits, decay)
      && CountersRight(id)
    }

    /** No queued auto-cancelling job, other than `skip`, is flagged as impossible. */
    ghost predicate IsQuiet(skip: JobId)
      reads `specs, `rts, `depRts
    {
      Quiet(specs, rts, depRts, skip)
    }

    /** The counters agree with the job states, except possibly those of job `skip`. */
    ghost predicate CountersRight(skip: JobId)
      reads `specs, `rts, `depRts, `muted
    {
      CountersOk(specs, rts, depRts, muted, echo, skip)
    }

    /** No job can start before its begin time. */
    ghost predicate OnTime(now: Time)
      reads `specs, `depRts, `heap
    {
      NoneEarly(specs, depRts, heap, now)
    }

    /** No entry in the heap outranks its job's present key. */
    ghost predicate InRank()
      reads `rts, `heap
    {
      NoneOutranked(rts, heap)
    }

    /** No job that waits for all its dependencies, other than `skip`, has missed its begin time. */
    ghost predicate Expectant(skip: JobId)
      reads `specs, `rts, `depRts, `heap
    {
      NoneMissed(specs, rts, depRts, heap, skip)
    }

    /** Job `id` has missed its begin time. */
    predicate Missed(id: JobId)
      reads `specs, `rts, `depRts, `heap
    {
      MissedAt(specs, rts, depRts, heap, id)
    }

    /** What every operation keeps on top of `Valid`, if it held before. */
    twostate predicate Preserves(skip: JobId, now: Time)
      reads this
    {
      KeepsQueue(skip, now) && (old(Expectant(skip)) ==> Expectant(0))
    }

    /** The same without begin times; entries only ever join the heap. */
    twostate predicate KeepsQueue(skip: JobId, now: Time)
      reads this
    {
      && (old(IsQuiet(skip)) ==> IsQuiet(0))
      && (old(OnTime(now)) ==> OnTime(now))
      && (old(InRank()) ==> InRank())
      && old(heap) <= heap
    }

    /** Every job that stays queued keeps its begin time as a cascade does. */
    twostate predicate KeepsTimes(now: Time)
      reads this
    {
      TimesKept(specs, old(rts), rts, old(depRts), depRts, old(heap), heap, now)
    }

    /** No job has been flagged as impossible that stays in the queue against its will. */
    twostate predicate FlagsNobody()
      reads `specs, `rts, `depRts
    {
      NobodyFlagged(specs, old(rts), rts, old(depRts), depRts)
    }

    /** The effect of asking for a transition of job `id`: the transition and its cascade if the
        job's state allows it, nothing at all otherwise. */
    twostate predicate Moves(id: JobId, next: JobState, reason: Option<Reason>, propagate: bool, now: Time,
                             order: seq<JobId>)
      reads this
    {
      if Exists(|old(rts)|, id) && old(rts)[id - 1].state.CanTransitionTo(next)
      then
        && Transitioned(specs, old(rts), rts, old(depRts), depRts, id, next, reason, now, propagate, order, echo)
        && Credited(specs, old(rts), old(credits), credits, id, next, reason, now)
        && |specs| == |rts|
        && muted == if next.IsFinal() && !propagate then Muting(specs, rts, old(muted), id) else old(muted)
      else unchanged(this)
    }

    /** The invariant between operations. */
    ghost predicate Valid()
      reads this
    {
      Coherent(0, {}) && CountersRight(0)
    }

    lemma Weaken(id: JobId)
      requires Coherent(0, {})
      ensures Coherent(0, {id})
    {
    }

    /** Whatever holds of all jobs holds of all but one. */
    lemma WeakenAll(id: JobId)
      requires Coherent(0, {})
      ensures Coherent(id, {id}) && Coherent(0, {id}) && (CountersRight(0) ==> CountersRight(id))
      ensures (IsQuiet(0) ==> IsQuiet(id)) && (Expectant(0) ==> Expectant(id))
    {
      hide JobsInv, IndexesOk, Replay, LiveEntry, WithFlags;
    }

    lemma WeakenFlags(id: JobId)
      requires Coherent(0, {id})
      ensures Coherent(id, {id}) && (CountersRight(0) ==> CountersRight(id))
      ensures (IsQuiet(0) ==> IsQuiet(id)) && (Expectant(0) ==> Expectant(id))
    {
      hide JobsInv, IndexesOk, Replay, NoneLost, LiveEntry, WithFlags;
    }

    lemma StartsWithNothing()
      requires Coherent(0, {})
      ensures TookDown(specs, rts, rts, [])
    {
    }

    lemma HeldEarnsNothing(id: JobId, now: Time)
      requires Coherent(0, {}) && Exists(|rts|, id) && rts[id - 1].state.Hold?
      ensures forall c0, c1 :: Credited(specs, rts, c0, c1, id, Queued, None, now) ==> c1 == c0
    {
      NeverRanEarnsNothing(specs, rts, id, Queued, None, now);
    }

    lemma CoherentSizes(flagSkip: JobId, lostSkip: set<JobId>)
      requires Coherent(flagSkip, lostSkip)
      ensures |specs| == |rts| == |depRts|
    {
    }

    /** Syncing a waiting reason leaves states and the set of unsettled jobs alone. */
    lemma SyncedKeeps(rts0: seq<JobRuntime>, id: JobId, now: Time)
      requires |specs| == |rts0| == |depRts| && Exists(|rts0|, id)
      requires rts == rts0[id - 1 := Synced(specs, rts0, depRts, id, now)]
      ensures Unsettled(rts) == Unsettled(rts0) && rts[id - 1].state == rts0[id - 1].state
    {
      forall j: JobId ensures j in Unsettled(rts) <==> j in Unsettled(rts0) {
      }
    }

    lemma SyncTakesNothingDown(rts0: seq<JobRuntime>, id: JobId, now: Time)
      requires |specs| == |rts0| == |depRts| && Exists(|rts0|, id) && CountersOk(specs, rts0, depRts, muted, echo, 0)
      requires rts == rts0[id - 1 := Synced(specs, rts0, depRts, id, now)]
      ensures TookDown(specs, rts0, rts, []) && CountersRight(0)
      ensures Successful(rts) == Successful(rts0) && Unsuccessful(rts) == Unsuccessful(rts0)
      ensures rts[id - 1].state == rts0[id - 1].state
    {
      hide CountersOk, Successful, Unsuccessful, Unsettled, AutoCancelled;
      CancelsSets(rts0, rts, []);
      ReasonsKeepCounters(specs, rts0, rts, depRts, muted, echo, 0);
      assert Elements<JobId>([]) == {};
    }

    /** A job flagged impossible, its counters being right, has a dependency to blame. */
    lemma ImpossibleMeansDead(id: JobId)
      requires |specs| == |rts| == |depRts| && Exists(|rts|, id)
      requires depRts[id - 1] == Recomputed(specs[id - 1], rts, depRts[id - 1].readyEpoch)
      ensures depRts[id - 1].impossible ==> DependenciesDead(specs[id - 1], Successful(rts), Unsuccessful(rts))
    {
      RecomputedMeaning(specs[id - 1], rts, depRts[id - 1].readyEpoch);
    }

    lemma ImpossibleIsSpent(id: JobId, lostSkip: set<JobId>)
      requires Coherent(0, lostSkip) && |specs| == |depRts| && Exists(|specs|, id) && depRts[id - 1].impossible
      ensures Spent(specs[id - 1], depRts[id - 1], 0)
    {
      hide JobsInv, IndexesOk, Replay, HeapOk, NoneLost;
    }

    lemma MutedFailed(lostSkip: set<JobId>)
      requires Coherent(0, lostSkip)
      ensures muted <= Unsuccessful(rts)
    {
    }

    lemma NothingAnnounced(rts0: seq<JobRuntime>, d0: seq<DependencyRuntime>, id: JobId, next: JobState,
                           reason: Option<Reason>, now: Time, propagate: bool, order: seq<JobId>)
      requires Transitioned(specs, rts0, rts, d0, depRts, id, next, reason, now, propagate, order, echo)
      requires !(next.IsFinal() && propagate)
      ensures rts == rts0[id - 1 := Moved(rts0[id - 1], next, reason, now)] && depRts == EpochBumped(d0, id)
      ensures order == []
    {
    }

    lemma NoSuchEntry(id: JobId)
      requires Coherent(0, {}) && !Exists(|rts|, id)
      ensures !HasLiveEntry(depRts, heap, id)
    {
    }

    lemma LiveMeansQueued(id: JobId)
      requires Coherent(0, {}) && Exists(|rts|, id)
      ensures HasLiveEntry(depRts, heap, id) ==> rts[id - 1].state.Queued?
    {
      hide JobsInv, IndexesOk, Replay, FlagsOk, NoneLost, LiveEntry;
    }

    lemma EarlyEntry(id: JobId, at: Time, now: Time)
      requires |specs| == |depRts| && Exists(|specs|, id) && specs[id - 1].scheduledAt == Some(at) && now < at
      requires HasLiveEntry(depRts, heap, id)
      ensures !OnTime(now)
    {
    }

    /** A refresh neither removes entries nor changes ranks, so an outranked job stays outranked. */
    lemma RankAfterRefresh(edited: seq<JobRuntime>, heap0: multiset<ReadyEntry>, id: JobId, order: seq<JobId>)
      requires TookDown(specs, edited, rts, order) && Exists(|edited|, id) && heap0 <= heap
      ensures InRank() ==> !OutrankedBy(heap0, id, edited[id - 1])
    {
    }

    lemma StaleInPlace(id: JobId, keys: seq<set<JobId>>)
      requires Stale(id, keys) && keys == DependencyKeys(specs)
      ensures Coherent(id, {id}) && CountersRight(id)
    {
    }

    lemma UpdatedDistinct(id: JobId, update: JobUpdate)
      requires Coherent(0, {}) && Exists(|specs|, id)
      requires update.dependsOnIds.Some? ==> Distinct(update.dependsOnIds.value)
      ensures Distinct(update.ApplyToSpec(specs[id - 1]).Dependencies())
    {
    }

    lemma SameRank(id: JobId)
      requires Exists(|rts|, id)
      ensures InRank() ==> !OutrankedBy(heap, id, rts[id - 1])
    {
    }

    lemma AllWaitersListed(source: JobId, list: seq<JobId>)
      requires Coherent(0, {}) && list == Lookup(dependents, source)
      ensures WaitersIn(specs, rts, source, list)
      ensures Ascending(list) && forall j :: j in list ==> DependsOn(specs, j, source)
    {
      hide JobsInv, QueueInv, JobIndexesOk, Replay;
      ListedDependents(specs, dependents, source);
    }

    lemma NotQuiet(id: JobId)
      requires |specs| == |rts| == |depRts| && Exists(|rts|, id)
      requires rts[id - 1].state.Queued? && specs[id - 1].autoCancel && depRts[id - 1].impossible
      ensures !IsQuiet(0)
    {
    }

    lemma DependenciesDistinct(id: JobId)
      requires Coherent(0, {}) && Exists(|specs|, id)
      ensures Distinct(specs[id - 1].Dependencies())
    {
    }

    lemma BeforeTheFirst()
      ensures Indexes<string>(map[], UserKeys(specs[..0])) && Indexes<JobState>(map[], StateKeys(rts[..0]))
      ensures Indexes<string>(map[], ProjectKeys(specs[..0])) && Counts<nat>(map[], GroupShares(rts[..0]))
      ensures Tallies<string>(map[], UserShares(specs[..0], rts[..0]))
      ensures Tallies<string>(map[], ProjectShares(specs[..0], rts[..0]))
    {
      StartsEmpty<string>();
      StartsEmpty<JobState>();
      StartsEmpty<nat>();
      assert UserKeys(specs[..0]) == [] && ProjectKeys(specs[..0]) == [] && StateKeys(rts[..0]) == [];
      assert GroupShares(rts[..0]) == [] && UserShares(specs[..0], rts[..0]) == [];
      assert ProjectShares(specs[..0], rts[..0]) == [];
    }

    lemma JobsInvParts()
      requires JobsInv(specs, rts, credits, muted)
      ensures |specs| == |rts| && RuntimesOk(rts)
    {
    }

    lemma RebuiltIsValid(rts0: seq<JobRuntime>, muted0: set<JobId>, now: Time)
      requires JobsInv(specs, rts0, credits, muted0) && SameButReasons(rts0, rts) && muted == {}
      requires ReadyUpTo(specs, rts, depRts, heap, |rts|, now)
      ensures JobsInv(specs, rts, credits, muted) && QueueInv(specs, rts, depRts, heap, 0, {}) && CountersRight(0)
      ensures OnTime(now) && InRank() && Expectant(0) && |specs| == |rts| == |depRts|
      ensures forall id: JobId :: Exists(|specs|, id) ==> depRts[id - 1] == Recomputed(specs[id - 1], rts, 0)
    {
      hide GpusExclusive, StartedSafely, SpecsOk, LedgerOk, Successful, Unsuccessful, CountersOk, Recomputed;
      hide FlagsOk, HeapOk, NoneLost, NoneOutranked, NoneMissed;
      ReasonsAreHarmless(specs, rts0, rts);
      LedgerKept(specs, rts0, rts, credits, 0, 0);
      AllReady(specs, rts, depRts, heap, now);
      AllReadyHeap(specs, rts, depRts, heap, now);
      AllReadyCounters(specs, rts, depRts, heap, now, echo);
    }

    /** After a rebuild somebody is left to cancel only if the job vectors came with a doomed job. */
    lemma RebuiltIsQuiet(rts0: seq<JobRuntime>)
      requires |specs| == |rts0| && SameButReasons(rts0, rts) && |specs| == |depRts|
      requires forall id: JobId :: Exists(|specs|, id) ==> depRts[id - 1] == Recomputed(specs[id - 1], rts, 0)
      ensures IsQuiet(0) <==> NoneDead(specs, rts0)
    {
      hide Quiet, Recomputed, Successful, Unsuccessful, DependenciesDead, RuntimesOk, StartedSafely, GpusExclusive;
      ReasonsAreHarmless(specs, rts0, rts);
      RecomputedQuiet(specs, rts, depRts);
    }

    /** The job vectors determine the indexes completely. */
    lemma SameIndexes(dependents0: Index<JobId>, users0: Index<string>, states0: Index<JobState>,
                      projects0: Index<string>, groups0: map<nat, nat>, userUsage0: map<string, QuotaUsage>,
                      projectUsage0: map<string, QuotaUsage>)
      requires IndexesOk()
      requires Indexes(dependents0, DependencyKeys(specs)) && Indexes(users0, UserKeys(specs))
      requires Indexes(states0, StateKeys(rts)) && Indexes(projects0, ProjectKeys(specs))
      requires Counts(groups0, GroupShares(rts)) && Tallies(userUsage0, UserShares(specs, rts))
      requires Tallies(projectUsage0, ProjectShares(specs, rts))
      ensures dependents == dependents0 && userJobs == users0 && stateJobs == states0 && projectJobs == projects0
      ensures groupRunning == groups0 && userUsage == userUsage0 && projectUsage == projectUsage0
    {
      hide Indexes, Counts, Tallies, DependencyKeys, UserKeys, ProjectKeys, StateKeys, GroupShares, UserShares;
      hide ProjectShares;
      IndexUnique(dependents, dependents0, DependencyKeys(specs));
      IndexUnique(userJobs, users0, UserKeys(specs));
      IndexUnique(stateJobs, states0, StateKeys(rts));
      IndexUnique(projectJobs, projects0, ProjectKeys(specs));
      CountsUnique(groupRunning, groups0, GroupShares(rts));
      TalliesUnique(userUsage, userUsage0, UserShares(specs, rts));
      TalliesUnique(projectUsage, projectUsage0, ProjectShares(specs, rts));
    }

    /** The indexes do not depend on waiting reasons. */
    twostate lemma IndexesIgnoreReasons()
      requires old(JobIndexesOk()) && SameButReasons(old(rts), rts) && specs == old(specs)
      requires userJobs == old(userJobs) && stateJobs == old(stateJobs) && projectJobs == old(projectJobs)
      requires groupRunning == old(groupRunning) && userUsage == old(userUsage) && projectUsage == old(projectUsage)
      ensures JobIndexesOk()
    {
      hide Indexes, Counts, Tallies, UserKeys, ProjectKeys, StateKeys, GroupShares, UserShares, ProjectShares;
      hide Successful, Unsuccessful, GpusExclusive, StartedSafely, RuntimesOk;
      ReasonsAreHarmless(specs, old(rts), rts);
    }

    twostate lemma DrainedCoherent(runnable: seq<JobId>)
      requires old(Coherent(0, {})) && heap == multiset{} && specs == old(specs) && rts == old(rts)
      requires depRts == old(depRts)
      requires dependents == old(dependents) && userJobs == old(userJobs) && stateJobs == old(stateJobs)
      requires projectJobs == old(projectJobs) && groupRunning == old(groupRunning) && userUsage == old(userUsage)
      requires projectUsage == old(projectUsage) && fairShare == old(fairShare) && nextJobId == old(nextJobId)
      requires muted == old(muted) && credits == old(credits)
      requires forall id: JobId :: id in runnable <==> Found(rts, depRts, old(heap), id)
      ensures Coherent(0, Elements(runnable) + Hidden(rts, old(heap)))
    {
      hide Indexes, Counts, Tallies, Replay, SpecsOk, RuntimesOk, StartedSafely, GpusExclusive, LedgerOk, Unsuccessful;
      hide FlagsOk, HeapOk, NoneLost, Found, Hidden;
      DrainLosesOnlyHidden(specs, rts, depRts, old(heap), runnable);
    }

    lemma GpusKeepTotals(rts0: seq<JobRuntime>, id: JobId, gpus: Option<seq<nat>>)
      requires |specs| == |rts0| && Exists(|rts0|, id) && rts == rts0[id - 1 := rts0[id - 1].(gpuIds := gpus)]
      requires Counts(groupRunning, GroupShares(rts0))
      requires Tallies(userUsage, UserShares(specs, rts0)) && Tallies(projectUsage, ProjectShares(specs, rts0))
      requires Indexes(stateJobs, StateKeys(rts0))
      ensures TotalsOk() && Indexes(stateJobs, StateKeys(rts))
    {
      hide Counts, Tallies, Indexes;
      assert StateKeys(rts) == StateKeys(rts0) && GroupShares(rts) == GroupShares(rts0);
      assert UserShares(specs, rts) == UserShares(specs, rts0);
      assert ProjectShares(specs, rts) == ProjectShares(specs, rts0);
    }

    lemma WeakenQuiet(id: JobId)
      ensures (IsQuiet(0) ==> IsQuiet(id)) && (Expectant(0) ==> Expectant(id))
    {
    }

    lemma MutedIsFailed(lost: set<JobId>)
      requires Coherent(0, lost)
      ensures muted <= Unsuccessful(rts)
    {
    }

    lemma RunningEarnsNothing(id: JobId, now: Time)
      requires |specs| == |rts| && Exists(|rts|, id)
      ensures forall c0, c1 :: Credited(specs, rts, c0, c1, id, Running, None, now) ==> c1 == c0
    {
    }

    /** The running totals are those of the job vectors. */
    lemma TotalsAreExact(lost: set<JobId>)
      requires Coherent(0, lost)
      ensures |specs| == |rts|
      ensures forall user :: UsageAt(userUsage, user) == Usage(UserShares(specs, rts), user)
      ensures forall project :: UsageAt(projectUsage, project) == Usage(ProjectShares(specs, rts), project)
      ensures forall group :: CountAt(groupRunning, group) == Usage(GroupShares(rts), group).jobs
    {
      hide JobsInv, QueueInv, Indexes, Replay, Usage;
    }

    /** A satisfied flag means that the job's dependencies are met by the actual job states. */
    lemma SatisfiedIsMet(id: JobId, lost: set<JobId>)
      requires Coherent(0, lost) && CountersRight(0) && |specs| == |depRts| && Exists(|specs|, id)
      requires depRts[id - 1].depsSatisfied
      ensures DependenciesMet(specs[id - 1], Successful(rts))
    {
      hide JobsInv, IndexesOk, Replay, HeapOk, NoneLost, DependenciesMet, Successful, Unsuccessful;
      SatisfiedMeansMet(specs, rts, depRts, muted, echo, id);
    }

    /** ... and the other way round. */
    lemma SatisfiedExactlyWhenMet(id: JobId)
      requires Valid() && |specs| == |depRts| && Exists(|specs|, id)
      ensures depRts[id - 1].depsSatisfied <==> DependenciesMet(specs[id - 1], Successful(rts))
    {
      hide JobsInv, IndexesOk, Replay, HeapOk, NoneLost, DependenciesMet, Successful, Unsuccessful;
      SatisfiedMeansMet(specs, rts, depRts, muted, echo, id);
    }

    lemma IdIs(id: JobId, lost: set<JobId>)
      requires Coherent(0, lost) && Exists(|rts|, id)
      ensures rts[id - 1].id == id
    {
      hide QueueInv, IndexesOk, Replay, SpecsOk, StartedSafely, GpusExclusive, LedgerOk, Unsuccessful;
    }

    lemma NotReadyNotLost(id: JobId)
      requires Coherent(0, {id}) && Exists(|rts|, id) && !depRts[id - 1].depsSatisfied
      ensures Coherent(0, {})
    {
      hide JobsInv, IndexesOk, Replay, FlagsOk, HeapOk;
    }

    lemma QueuedEarnsNothing(id: JobId, source: JobId, now: Time, lostSkip: set<JobId>)
      requires Coherent(0, lostSkip)
      requires Exists(|rts|, id) && rts[id - 1].state.Queued?
      ensures forall c0, c1 ::
                Credited(specs, rts, c0, c1, id, Cancelled, Some(DependencyFailed(source)), now) ==> c1 == c0
    {
      NeverRanEarnsNothing(specs, rts, id, Cancelled, Some(DependencyFailed(source)), now);
    }

    lemma DependentsAreListed(source: JobId)
      requires Coherent(0, {})
      ensures SpecsOk(specs) && |specs| == |rts| == |depRts|
      ensures Ascending(Lookup(dependents, source))
      ensures forall id: JobId :: id in Lookup(dependents, source) <==> DependsOn(specs, id, source)
    {
      ListedDependents(specs, dependents, source);
    }

    // ---------- single-field updates ----------

    method SetReason(id: JobId, reason: Option<Reason>, ghost flagSkip: JobId, ghost lostSkip: set<JobId>)
      requires Coherent(flagSkip, lostSkip) && Exists(|rts|, id)
      modifies `rts
      ensures Coherent(flagSkip, lostSkip)
      ensures rts == old(rts)[id - 1 := old(rts)[id - 1].(reason := reason)]
      ensures (forall skip :: old(IsQuiet(skip)) ==> IsQuiet(skip)) && (old(InRank()) ==> InRank())
      ensures old(Expectant(id)) ==> Expectant(id)
    {
      hide JobsInv, QueueInv, Indexes, Counts, Tallies, StateKeys, GroupShares, UserShares, ProjectShares;
      hide DependencyKeys, UserKeys, ProjectKeys, Replay, Quiet, NoneOutranked, NoneMissed;
      rts := rts[id - 1 := rts[id - 1].(reason := reason)];
      ReasonsKeep(specs, old(rts), rts, depRts, heap, credits, muted, flagSkip, lostSkip);
      if old(InRank()) {
        SameKeysNoneOutranked(old(rts), rts, heap);
      }
      if old(Expectant(id)) {
        OneChanged(specs, specs, old(rts), rts, depRts, depRts, heap, heap, id);
      }
    }

    method SyncQueuedWaitReason(id: JobId, now: Time, ghost flagSkip: JobId, ghost lostSkip: set<JobId>)
      requires Coherent(flagSkip, lostSkip) && Exists(|rts|, id)
      modifies `rts
      ensures Coherent(flagSkip, lostSkip)
      ensures |specs| == |old(rts)| == |depRts| && rts == old(rts)[id - 1 := Synced(specs, old(rts), depRts, id, now)]
      ensures var before, after := old(rts)[id - 1].reason, rts[id - 1].reason;
              var waits := old(rts)[id - 1].state == Queued;
        after ==
          if waits && specs[id - 1].scheduledAt.Some? && now < specs[id - 1].scheduledAt.value
          then Some(WaitingForStartTime)
          else if waits && !depRts[id - 1].depsSatisfied then Some(WaitingForDependency)
          else if before == Some(WaitingForDependency) || before == Some(WaitingForStartTime) then None
          else before
      ensures (forall skip :: old(IsQuiet(skip)) ==> IsQuiet(skip)) && (old(InRank()) ==> InRank())
      ensures old(Expectant(id)) ==> Expectant(id)
    {
      hide JobsInv, QueueInv, IndexesOk, Replay, Quiet, IsQuiet, InRank, Expectant;
      var desired := WaitReason(specs[id - 1], rts[id - 1], depRts[id - 1], now);
      hide WaitReason;
      var current := rts[id - 1].reason;
      var shouldUpdate :=
        if desired.Some? then current != desired
        else current == Some(WaitingForDependency) || current == Some(WaitingForStartTime);
      if shouldUpdate {
        SetReason(id, desired, flagSkip, lostSkip);
      }
      assert rts == old(rts)[id - 1 := old(rts)[id - 1].(reason := SyncedReason(current, desired))];
    }

    method BumpReadyEpoch(id: JobId)
      requires Exists(|depRts|, id)
      modifies `depRts
      ensures depRts == old(depRts)[id - 1 := old(depRts)[id - 1].(readyEpoch := old(depRts)[id - 1].readyEpoch + 1)]
    {
      depRts := depRts[id - 1 := depRts[id - 1].(readyEpoch := depRts[id - 1].readyEpoch + 1)];
    }

    /** Pushes the job's live entry if it is queued, past its begin time and satisfied. */
    method EnqueueIfReady(id: JobId, now: Time, ghost flagSkip: JobId, ghost lost: set<JobId>, ghost left: set<JobId>)
      requires Coherent(flagSkip, lost) && Exists(|rts|, id) && lost <= left + {id}
      modifies `heap
      ensures Coherent(flagSkip, left)
      ensures heap == old(heap) +
                if rts[id - 1].state.Queued? && !specs[id - 1].StartsAfter(now) && depRts[id - 1].depsSatisfied
                then multiset{LiveEntry(rts[id - 1], depRts[id - 1])} else multiset{}
      ensures (old(OnTime(now)) ==> OnTime(now)) && (old(InRank()) ==> InRank())
      ensures old(Expectant(id)) ==> Expectant(id) && (!Missed(id) ==> Expectant(0))
    {
      hide IndexesOk, Replay, NoneEarly, NoneOutranked, NoneMissed, RuntimesOk, StartedSafely, GpusExclusive, LedgerOk;
      hide SpecsOk, QueueInv;
      ghost var heap0 := heap;
      if rts[id - 1].state.Queued? && !specs[id - 1].StartsAfter(now) && depRts[id - 1].depsSatisfied {
        heap := heap + multiset{LiveEntry(rts[id - 1], depRts[id - 1])};
      }
      EnqueueKeeps(specs, rts, depRts, heap0, heap, id, now, flagSkip, lost, left, credits, muted);
      if old(OnTime(now)) {
        EnqueueNoneEarly(specs, rts, depRts, heap0, heap, id, now);
      }
      if old(InRank()) {
        EnqueueNoneOutranked(rts, depRts, heap0, id);
      }
      if old(Expectant(id)) {
        OneChanged(specs, specs, rts, rts, depRts, depRts, heap0, heap, id);
      }
    }

    method UpdateStateJobsIndex(id: JobId, before: JobState, after: JobState)
      requires Aligned() && before != after && Exists(|rts|, id) && rts[id - 1].state == after
      requires Indexes(stateJobs, StateKeys(rts)[id - 1 := {before}])
      modifies `stateJobs
      ensures Indexes(stateJobs, StateKeys(rts))
    {
      ghost var keys := StateKeys(rts)[id - 1 := {before}];
      RemoveIndexes(stateJobs, keys, before, id);
      stateJobs := Remove(stateJobs, before, id);
      assert {before} - {before} == {};
      InsertIndexes(stateJobs, keys[id - 1 := {}], after, id);
      stateJobs := Insert(stateJobs, after, id);
      assert {} + {after} == {after};
      assert keys[id - 1 := {}][id - 1 := {after}] == StateKeys(rts);
    }

    /** A share taken back to what it was and brought up to date again is the present share. */
    lemma SharesAgain(id: JobId, before: JobState)
      requires |specs| == |rts| && Exists(|rts|, id)
      ensures GroupShares(rts)[id - 1 := GroupShare(rts[id - 1].(state := before))][id - 1 := GroupShare(rts[id - 1])]
              == GroupShares(rts)
      ensures UserShares(specs, rts)[id - 1 := UserShare(specs[id - 1], rts[id - 1].(state := before))]
                                    [id - 1 := UserShare(specs[id - 1], rts[id - 1])] == UserShares(specs, rts)
      ensures ProjectShares(specs, rts)[id - 1 := ProjectShare(specs[id - 1], rts[id - 1].(state := before))]
                                       [id - 1 := ProjectShare(specs[id - 1], rts[id - 1])] == ProjectShares(specs, rts)
    {
    }

    method UpdateGroupRunningCount(id: JobId, before: JobState, after: JobState)
      requires Aligned() && before != after && Exists(|rts|, id) && rts[id - 1].state == after
      requires Counts(groupRunning, GroupShares(rts)[id - 1 := GroupShare(rts[id - 1].(state := before))])
      modifies `groupRunning
      ensures Counts(groupRunning, GroupShares(rts))
    {
      hide Counts, GroupShares, UserShares, ProjectShares;
      SharesAgain(id, before);
      ghost var shares := GroupShares(rts)[id - 1 := GroupShare(rts[id - 1].(state := before))];
      var group := rts[id - 1].group;
      if group.Some? && after.Running? {
        RecordCounts(groupRunning, shares, id - 1, group.value, rts[id - 1].gpus);
        groupRunning := groupRunning[group.value := CountAt(groupRunning, group.value) + 1];
      } else if group.Some? && before.Running? {
        ReleaseCounts(groupRunning, shares, id - 1);
        groupRunning := ReleaseCount(groupRunning, group.value);
      } else {
        assert shares[id - 1 := shares[id - 1]] == shares;
      }
    }

    method UpdateQuotaRunningUsage(id: JobId, before: JobState, after: JobState)
      requires Aligned() && before != after && Exists(|rts|, id) && rts[id - 1].state == after
      requires Tallies(userUsage,
                       UserShares(specs, rts)[id - 1 := UserShare(specs[id - 1], rts[id - 1].(state := before))])
      requires Tallies(projectUsage,
                       ProjectShares(specs, rts)[id - 1 := ProjectShare(specs[id - 1], rts[id - 1].(state := before))])
      modifies `userUsage, `projectUsage
      ensures Tallies(userUsage, UserShares(specs, rts)) && Tallies(projectUsage, ProjectShares(specs, rts))
    {
      hide Tallies, GroupShares, UserShares, ProjectShares;
      SharesAgain(id, before);
      ghost var users := UserShares(specs, rts)[id - 1 := UserShare(specs[id - 1], rts[id - 1].(state := before))];
      ghost var projects :=
        ProjectShares(specs, rts)[id - 1 := ProjectShare(specs[id - 1], rts[id - 1].(state := before))];
      assert users[id - 1 := users[id - 1]] == users && projects[id - 1 := projects[id - 1]] == projects;
      var user, project, gpus := specs[id - 1].submittedBy, specs[id - 1].project, rts[id - 1].gpus;
      if after.Running? {
        RecordTallies(userUsage, users, id - 1, user, gpus);
        userUsage := RecordOne(userUsage, user, gpus);
        if project.Some? {
          RecordTallies(projectUsage, projects, id - 1, project.value, gpus);
          projectUsage := RecordOne(projectUsage, project.value, gpus);
        }
      } else if before.Running? {
        ReleaseTallies(userUsage, users, id - 1);
        userUsage := ReleaseOne(userUsage, user, gpus);
        if project.Some? {
          ReleaseTallies(projectUsage, projects, id - 1);
          projectUsage := ReleaseOne(projectUsage, project.value, gpus);
        }
      }
    }

    /** Credits a finished job's GPU time to its submitter. */
    method CreditFairShareUsage(id: JobId, now: Time)
      requires |specs| == |rts| && Exists(|rts|, id) && rts[id - 1].id == id
      requires rts[id - 1].state.IsFinal() && rts[id - 1].finishedAt == Some(now)
      requires LedgerOk(specs, rts, credits, id) && !HasCredit(credits, id) && fairShare == Replay(credits, decay)
      modifies `fairShare, `credits
      ensures LedgerOk(specs, rts, credits, 0) && fairShare == Replay(credits, decay)
      ensures credits == old(credits) + CreditFor(specs[id - 1], rts[id - 1], now)
    {
      hide Replay, AddCredit, LedgerOk, HasCredit;
      CreditKeepsLedger(specs, rts, credits, id, now);
      var credit := CreditFor(specs[id - 1], rts[id - 1], now);
      if credit != [] {
        ReplayAppend(credits, credit[0], decay);
        fairShare := AddCredit(fairShare, credit[0], decay);
        assert credit == [credit[0]];
      } else {
        assert credits + credit == credits;
      }
      credits := credits + credit;
    }

    method MoveJob(id: JobId, next: JobState, reason: Option<Reason>, now: Time)
      requires Aligned() && IndexesOk() && Exists(|rts|, id) && rts[id - 1].state != next
      modifies `rts, `stateJobs, `groupRunning, `userUsage, `projectUsage
      ensures Aligned() && IndexesOk()
      ensures rts == old(rts)[id - 1 := Moved(old(rts)[id - 1], next, reason, now)]
    {
      hide Indexes, Tallies, Counts, StateKeys, GroupShares, UserShares, ProjectShares;
      hide GroupShare, UserShare, ProjectShare, DependencyKeys, UserKeys, ProjectKeys;
      var before := rts[id - 1].state;
      rts := rts[id - 1 := Moved(rts[id - 1], next, reason, now)];
      MovedBack(specs, old(rts), rts, id, next, reason, now);
      UpdateGroupRunningCount(id, before, next);
      UpdateQuotaRunningUsage(id, before, next);
      UpdateStateJobsIndex(id, before, next);
    }

    /** The part of a state transition that touches only the job itself and the indexes. */
    method ApplyTransition(id: JobId, next: JobState, reason: Option<Reason>, now: Time,
                           ghost lost: set<JobId>, ghost left: set<JobId>)
      requires Coherent(0, lost) && lost <= left + {id} && (next.Queued? ==> id in left)
      requires |specs| == |rts| && Exists(|rts|, id) && rts[id - 1].state.CanTransitionTo(next)
      requires next.Running? ==> MayStart(specs, rts, id)
      modifies `rts, `depRts, `stateJobs, `groupRunning, `userUsage, `projectUsage, `fairShare, `credits
      ensures Coherent(0, left)
      ensures rts == old(rts)[id - 1 := Moved(old(rts)[id - 1], next, reason, now)]
      ensures depRts == EpochBumped(old(depRts), id)
      ensures old(IsQuiet(id)) ==> IsQuiet(if next.Queued? then id else 0)
      ensures old(Expectant(id)) ==> Expectant(if next.Queued? then id else 0)
      ensures (forall t :: old(OnTime(t)) ==> OnTime(t)) && (old(InRank()) ==> InRank())
      ensures Credited(specs, old(rts), old(credits), credits, id, next, reason, now)
    {
      hide SpecsOk, RuntimesOk, StartedSafely, GpusExclusive, LedgerOk, Replay, IndexesOk;
      hide FlagsOk, HeapOk, NoneLost, HasCredit, NoneEarly, NoneOutranked, NoneMissed, Quiet;
      hide CreditFor, GpusFit, DependenciesMet, Successful, Unsuccessful;
      MoveJob(id, next, reason, now);
      BumpReadyEpoch(id);
      MoveKeeps(specs, old(rts), rts, old(depRts), depRts, heap, lost, left, credits, muted, id, next, reason, now);
      MoveKeepsOrder(specs, old(rts), rts, old(depRts), depRts, heap, id, next, reason, now);
      if next.IsFinal() {
        assert rts[id - 1].id == id by { IdsOk(rts, id); }
        CreditFairShareUsage(id, now);
      }
    }

    // ---------- announcing a final state to dependents ----------

    /** Counts one more settled dependency of job `id` and refreshes its flags. */
    method CountDependency(id: JobId, ok: bool) returns (becameReady: bool, becameImpossible: bool)
      requires Coherent(0, {}) && Exists(|rts|, id)
      modifies `depRts
      ensures Coherent(0, if becameReady then {id} else {})
      ensures |depRts| == |old(depRts)| == |rts| == |specs| && Bumped(old(depRts), depRts, id, ok)
      ensures depRts == old(depRts)[id - 1 := Counted(specs[id - 1], old(depRts)[id - 1], ok)]
      ensures becameReady <==> !old(depRts)[id - 1].depsSatisfied && depRts[id - 1].depsSatisfied
      ensures becameImpossible <==> !old(depRts)[id - 1].impossible && depRts[id - 1].impossible
      ensures FlagsSay(specs[id - 1], depRts[id - 1])
      ensures if ok then !becameImpossible else !becameReady
      ensures old(Expectant(0)) ==> Expectant(id)
      ensures old(IsQuiet(0)) ==>
                if rts[id - 1].state.Queued? && specs[id - 1].autoCancel && becameImpossible then IsQuiet(id)
                else IsQuiet(0)
      ensures forall t :: old(OnTime(t)) ==> OnTime(t)
    {
      hide JobsInv, QueueInv, IndexesOk, Replay, Quiet, Bumped, Satisfied, Impossible, NoneEarly, NoneMissed;
      hide Counted, FlagsSay;
      CoherentSizes(0, {});
      var before := depRts[id - 1];
      depRts := depRts[id - 1 := Counted(specs[id - 1], before, ok)];
      CountKeeps(specs, rts, old(depRts), depRts, heap, id, ok);
      CountedSays(specs[id - 1], before, ok);
      becameReady := !before.depsSatisfied && depRts[id - 1].depsSatisfied;
      becameImpossible := !before.impossible && depRts[id - 1].impossible;
      if old(IsQuiet(0)) {
        CountKeepsQuiet(specs, rts, old(depRts), depRts, id, ok);
      }
      if old(Expectant(0)) {
        SkipMore(specs, rts, old(depRts), heap, id);
        OneChanged(specs, specs, rts, rts, old(depRts), depRts, heap, heap, id);
      }
      forall t | old(OnTime(t)) ensures OnTime(t) {
        SameEpochsNoneEarly(specs, old(depRts), depRts, heap, id, t);
      }
    }

    /** The news that job `id` must not have had before: one more of its dependencies has settled. */
    ghost predicate Unaware(id: JobId)
      reads `specs, `depRts
    {
      |specs| == |depRts| && Exists(|specs|, id) && depRts[id - 1].success < |specs[id - 1].Dependencies()|
    }

    /** Job `id`, told of a settled dependency, has it counted and its waiting reason brought up to date,
        and is put in the heap if that is what made it ready. */
    ghost predicate Spared(rts0: seq<JobRuntime>, d0: seq<DependencyRuntime>, heap0: multiset<ReadyEntry>,
                           id: JobId, ok: bool, now: Time)
      reads `specs, `rts, `depRts, `heap
    {
      && |specs| == |rts0| == |rts| == |d0| == |depRts| && Exists(|specs|, id)
      && depRts == d0[id - 1 := Counted(specs[id - 1], d0[id - 1], ok)]
      && rts == rts0[id - 1 := Synced(specs, rts0, depRts, id, now)]
      && heap == heap0 +
           if rts[id - 1].state.Queued? && !specs[id - 1].StartsAfter(now)
              && !d0[id - 1].depsSatisfied && depRts[id - 1].depsSatisfied
           then multiset{LiveEntry(rts[id - 1], depRts[id - 1])} else multiset{}
    }

    lemma SparedKeepsTime(rts0: seq<JobRuntime>, d0: seq<DependencyRuntime>, heap0: multiset<ReadyEntry>,
                          id: JobId, ok: bool, now: Time)
      requires FlagsOk(specs, d0, 0) && RuntimesOk(rts0) && Spared(rts0, d0, heap0, id, ok, now)
      requires d0[id - 1].success < |specs[id - 1].Dependencies()|
      ensures NoneMissed(specs, rts0, d0, heap0, 0) ==> Expectant(0)
      ensures Missed(id) <==> WillMiss(specs, rts0, d0, heap0, id, now)
      ensures TimesKept(specs, rts0, rts, d0, depRts, heap0, heap, now)
    {
      hide Synced, Counted, Dozing, MissedAt, NoneMissed, LiveEntry, FlagsOk, RuntimesOk, WillMiss, TimesKept;
      SparedAfter(specs, rts0, rts, d0, depRts, heap0, heap, id, ok, now);
      OneIsTold(specs, rts0, rts, d0, depRts, heap0, heap, id, ok, now);
      if NoneMissed(specs, rts0, d0, heap0, 0) {
        SkipMore(specs, rts0, d0, heap0, id);
        OneChanged(specs, specs, rts0, rts, d0, depRts, heap0, heap, id);
      }
    }

    lemma NothingIsLost()
      requires Coherent(0, {})
      ensures |specs| == |rts| == |depRts| && NoneLost(specs, rts, depRts, heap, {})
    {
      hide NoneLost, JobsInv, IndexesOk, Replay;
    }

    lemma FlagsAreRight()
      requires Coherent(0, {})
      ensures FlagsOk(specs, depRts, 0) && RuntimesOk(rts)
    {
      hide FlagsOk, RuntimesOk;
    }

    /** Counts one more settled dependency of job `id` and brings its waiting reason up to date. */
    method HearOf(id: JobId, ok: bool, now: Time) returns (becameReady: bool, becameImpossible: bool)
      requires Coherent(0, {}) && |specs| == |rts| == |depRts| && Exists(|rts|, id)
      modifies `rts, `depRts
      ensures Coherent(0, if becameReady then {id} else {})
      ensures |depRts| == |old(depRts)| == |rts| == |specs| && Bumped(old(depRts), depRts, id, ok)
      ensures depRts == old(depRts)[id - 1 := Counted(specs[id - 1], old(depRts)[id - 1], ok)]
      ensures rts == old(rts)[id - 1 := Synced(specs, old(rts), depRts, id, now)]
      ensures rts[id - 1].state == old(rts)[id - 1].state && Unsettled(rts) == old(Unsettled(rts))
      ensures becameReady <==> !old(depRts)[id - 1].depsSatisfied && depRts[id - 1].depsSatisfied
      ensures becameImpossible <==> !old(depRts)[id - 1].impossible && depRts[id - 1].impossible
      ensures if ok then !becameImpossible else !becameReady
      ensures rts[id - 1].state.Queued? && specs[id - 1].autoCancel && becameImpossible <==>
                GivesUp(specs, old(rts), old(depRts), id, ok)
      ensures old(IsQuiet(0)) ==>
                if rts[id - 1].state.Queued? && specs[id - 1].autoCancel && becameImpossible then IsQuiet(id)
                else IsQuiet(0)
      ensures (old(OnTime(now)) ==> OnTime(now)) && (old(InRank()) ==> InRank())
      ensures (old(Expectant(0)) ==> Expectant(id))
    {
      hide Coherent, OnTime, InRank, IsQuiet, Expectant, Bumped, Unsettled, Synced, Counted;
      ghost var rts0 := rts;
      becameReady, becameImpossible := CountDependency(id, ok);
      SyncQueuedWaitReason(id, now, 0, if becameReady then {id} else {});
      SyncedKeeps(rts0, id, now);
    }

    /** Puts a job that was told of a settled dependency, and stays, in the heap if that made it ready. */
    method EnqueueIfBecameReady(id: JobId, ok: bool, becameReady: bool, now: Time, ghost rts0: seq<JobRuntime>,
                                ghost d0: seq<DependencyRuntime>)
      requires Coherent(0, if becameReady then {id} else {}) && FlagsOk(specs, d0, 0) && RuntimesOk(rts0)
      requires |specs| == |rts0| == |rts| == |d0| == |depRts| && Exists(|specs|, id)
      requires depRts == d0[id - 1 := Counted(specs[id - 1], d0[id - 1], ok)]
      requires rts == rts0[id - 1 := Synced(specs, rts0, depRts, id, now)]
      requires becameReady <==> !d0[id - 1].depsSatisfied && depRts[id - 1].depsSatisfied
      requires d0[id - 1].success < |specs[id - 1].Dependencies()|
      modifies `heap
      ensures Coherent(0, {}) && Spared(rts0, d0, old(heap), id, ok, now)
      ensures Missed(id) <==> WillMiss(specs, rts0, d0, old(heap), id, now)
      ensures TimesKept(specs, rts0, rts, d0, depRts, old(heap), heap, now)
      ensures NoneMissed(specs, rts0, d0, old(heap), 0) ==> Expectant(0)
      ensures (old(OnTime(now)) ==> OnTime(now)) && (old(InRank()) ==> InRank())
      ensures old(heap) <= heap && (!becameReady ==> heap == old(heap))
    {
      hide Coherent, OnTime, InRank, Expectant, Counted, Synced, LiveEntry, FlagsOk, NoneMissed, WillMiss, Missed;
      hide RuntimesOk, TimesKept;
      ghost var heap0 := heap;
      if becameReady {
        EnqueueIfReady(id, now, 0, {id}, {});
      }
      SparedKeepsTime(rts0, d0, heap0, id, ok, now);
    }

    /** Cancels a queued job that can no longer run, for the sake of its dependency `source`. */
    method CancelFor(id: JobId, source: JobId, now: Time) returns (ghost tail: seq<JobId>)
      requires Coherent(0, {id}) && |specs| == |rts| == |depRts| && Exists(|rts|, id)
      requires rts[id - 1].state.Queued? && depRts[id - 1].impossible && Unheard(specs, depRts, Unsettled(rts))
      modifies `rts, `depRts, `heap, `stateJobs, `groupRunning, `userUsage, `projectUsage, `fairShare, `credits
      ensures Coherent(0, {})
      ensures Transitioned(specs, old(rts), rts, old(depRts), depRts, id, Cancelled, Some(DependencyFailed(source)),
                           now,
                           true, tail, echo)
      ensures Spent(specs[id - 1], old(depRts)[id - 1], 0)
      ensures Preserves(id, now) && heap == old(heap) && credits == old(credits)
      ensures KeepsTimes(now) && FlagsNobody() && |rts| == |old(rts)| && !rts[id - 1].state.Queued?
      ensures Unsettled(rts) <= old(Unsettled(rts)) && id !in Unsettled(rts) && id in old(Unsettled(rts))
      decreases Unsettled(rts), 1
    {
      hide Coherent, OnTime, InRank, IsQuiet, Expectant, Unsettled, Transitioned, Credited, MayStart, Unheard, Spent;
      hide TimesKept, NobodyFlagged;
      QueuedEarnsNothing(id, source, now, {id});
      ImpossibleIsSpent(id, {id});
      var cancelled;
      cancelled, tail := TransitionJobState(id, Cancelled, Some(DependencyFailed(source)), true, now, {id}, {});
    }

    /** Tells job `id` that its dependency `source` has settled: counts it, refreshes the waiting
        reason, and cancels or enqueues the job if that is what it now takes. If it stays, it has missed its
        begin time exactly if the time has come and it had missed it before, or was dozing and satisfied. */
    method TellDependent(id: JobId, source: JobId, ok: bool, now: Time)
      returns (cancelled: bool, ghost counted: seq<DependencyRuntime>, ghost tail: seq<JobId>)
      requires Coherent(0, {}) && |specs| == |rts| && DependsOn(specs, id, source) && Unaware(id)
      requires !ok ==> Unheard(specs, depRts, Unsettled(rts))
      modifies `rts, `depRts, `heap, `stateJobs, `groupRunning, `userUsage, `projectUsage, `fairShare, `credits
      ensures Coherent(0, {})
      ensures Told(specs, old(rts), rts, old(depRts), counted, depRts, source, id, ok, cancelled, tail, echo)
      ensures cancelled <==> GivesUp(specs, old(rts), old(depRts), id, ok)
      ensures !cancelled ==> Spared(old(rts), old(depRts), old(heap), id, ok, now)
      ensures !cancelled ==> (Missed(id) <==> WillMiss(specs, old(rts), old(depRts), old(heap), id, now))
      ensures KeepsTimes(now) && FlagsNobody()
      ensures !ok ==> heap == old(heap)
      ensures ok ==> !cancelled
      ensures Preserves(0, now)
      ensures credits == old(credits)
      ensures Unsettled(rts) <= old(Unsettled(rts))
      ensures (cancelled ==> id !in Unsettled(rts) && id in old(Unsettled(rts)))
      decreases Unsettled(rts), 2
    {
      hide Coherent, OnTime, InRank, IsQuiet, Quiet, Bumped, Unsettled, Told, Transitioned, Credited, Synced, LiveEntry;
      hide MayStart, Successful, Unsuccessful, RuntimesOk, StartedSafely, GpusExclusive, Counted, Unheard, WillMiss;
      hide Missed, GivesUp, Spared, TimesKept, NobodyFlagged;
      hide FlagsOk, NoneMissed, StateKeys, GroupShares, UserShares, ProjectShares, Moved;
      CoherentSizes(0, {});
      FlagsAreRight();
      ghost var rts0, d0, heap0 := rts, depRts, heap;
      var becameReady, becameImpossible := HearOf(id, ok, now);
      counted, tail := depRts, [];
      ghost var rts1 := rts;
      if rts[id - 1].state.Queued? && specs[id - 1].autoCancel && becameImpossible {
        if !becameReady {
          Weaken(id);
        }
        UnheardAfterCount(d0, id, ok, rts0);
        tail := CancelFor(id, source, now);
        TellingFlags(specs, rts0, rts1, rts, d0, counted, depRts, id, counted[id - 1], now);
        OneIsToldAndLeaves(specs, rts0, rts1, rts, d0, counted, depRts, heap0, heap, id, now);
        cancelled := true;
        ToldAndCancelled(specs, rts0, rts1, rts, d0, counted, depRts, source, id, now, tail, echo);
        return;
      }
      ToldAndSpared(specs, rts0, rts1, d0, counted, source, id, ok, now, echo);
      cancelled := false;
      EnqueueIfBecameReady(id, ok, becameReady, now, rts0, d0);
      TellingFlags(specs, rts0, rts, rts, d0, counted, depRts, id, counted[id - 1], now);
    }

    lemma UnheardAfterCount(d0: seq<DependencyRuntime>, id: JobId, ok: bool, rts0: seq<JobRuntime>)
      requires |d0| == |specs| && Exists(|d0|, id) && Unsettled(rts) == Unsettled(rts0)
      requires depRts == d0[id - 1 := Counted(specs[id - 1], d0[id - 1], ok)]
      ensures !ok && Unheard(specs, d0, Unsettled(rts0)) ==> Unheard(specs, depRts, Unsettled(rts))
    {
      hide Unsettled, Unheard;
      if !ok && Unheard(specs, d0, Unsettled(rts0)) {
        UnheardStill(specs, d0, depRts, Unsettled(rts0), Unsettled(rts));
      }
    }

    lemma NotToldYet(sources: seq<(JobId, bool)>, rts0: seq<JobRuntime>, d0: seq<DependencyRuntime>, source: JobId,
                     order: seq<JobId>, ok: bool, notes: multiset<JobId>, list: seq<JobId>, i: nat, current: JobId)
      requires i < |list| && Ascending(list) && DependsOn(specs, list[i], current)
      requires Announcing(specs, rts0, rts, d0, depRts, sources, multiset{current}, source, order, ok, notes, list[..i],
                          echo)
      requires Unheard(specs, d0, Unsettled(rts0) + {source}) && Unsettled(rts) <= Unsettled(rts0)
      ensures Unaware(list[i]) && (!ok ==> Unheard(specs, depRts, Unsettled(rts)))
    {
      hide Cascading, Agenda, Unheard, Unsettled;
      UntoldIsUnheard(specs, rts0, rts, d0, depRts, sources, source, order, ok, notes, list, i, current, echo);
    }

    /** Announces the source `current` of a cascade to all its dependents, adding the jobs that this cancels
        to the work list. */
    method AnnounceToAll(current: JobId, ok: bool, sources: seq<(JobId, bool)>, now: Time, ghost rts0: seq<JobRuntime>,
                         ghost d0: seq<DependencyRuntime>, ghost source: JobId, ghost order0: seq<JobId>,
                         ghost notes0: multiset<JobId>)
      returns (sources': seq<(JobId, bool)>, ghost order: seq<JobId>, ghost notes: multiset<JobId>)
      requires Coherent(0, {}) && Unheard(specs, d0, Unsettled(rts0) + {source}) && Unsettled(rts) <= Unsettled(rts0)
      requires Announcing(specs, rts0, rts, d0, depRts, sources, multiset{current}, source, order0, ok, notes0, [],
                          echo)
      modifies `rts, `depRts, `heap, `stateJobs, `groupRunning, `userUsage, `projectUsage, `fairShare, `credits
      ensures Coherent(0, {})
      ensures Announcing(specs, rts0, rts, d0, depRts, sources', multiset{}, source, order, ok, notes, [], echo)
      ensures !ok ==> heap == old(heap)
      ensures Preserves(0, now) && credits == old(credits) && KeepsTimes(now) && FlagsNobody()
      ensures Unsettled(rts) <= old(Unsettled(rts))
      ensures Unsettled(rts) == old(Unsettled(rts)) ==> |sources'| == |sources|
      decreases Unsettled(rts), 3
    {
      hide Coherent, OnTime, InRank, IsQuiet, Expectant, Announcing, Told, Unsettled, SpecsOk;
      hide Unheard, Unaware, Spared, GivesUp, WillMiss, Missed, TakenDown, PassedOn, TimesKept;
      hide NobodyFlagged;
      sources', order, notes := sources, order0, notes0;
      var list := Lookup(dependents, current);
      DependentsAreListed(current);
      CoherentSizes(0, {});
      TimesStandStill(specs, rts, depRts, heap, now);
      NobodyNewlyFlagged(specs, rts, depRts);
      for i := 0 to |list|
        invariant Coherent(0, {})
        invariant Announcing(specs, rts0, rts, d0, depRts, sources', multiset{current}, source, order, ok, notes,
                             list[..i], echo)
        invariant !ok ==> heap == old(heap)
        invariant Preserves(0, now) && credits == old(credits) && KeepsTimes(now) && FlagsNobody()
        invariant Unsettled(rts) <= old(Unsettled(rts))
        invariant Unsettled(rts) == old(Unsettled(rts)) ==> |sources'| == |sources|
      {
        var id := list[i];
        assert id in list;
        CoherentSizes(0, {});
        ghost var rts1, d1, heap1 := rts, depRts, heap;
        var cancelled;
        ghost var counted, tail;
        NotToldYet(sources', rts0, d0, source, order, ok, notes, list, i, current);
        cancelled, counted, tail := TellDependent(id, current, ok, now);
        TimesGoOn(specs, old(rts), rts1, rts, old(depRts), d1, depRts, old(heap), heap1, heap, now);
        NobodyFlaggedTrans(specs, old(rts), rts1, rts, old(depRts), d1, depRts);
        AnnouncingTold(specs, rts0, rts1, rts, d0, d1, counted, depRts, sources', source, order, ok, notes, list, i,
                       current, cancelled, tail, echo);
        if cancelled && echo {
          sources' := sources' + [(id, false)];
        }
        order := order + TakenDown(cancelled, id, tail);
        notes := notes + PassedOn(cancelled, id, tail, echo);
      }
      assert list[..|list|] == list;
      AnnouncingDone(specs, rts0, rts, d0, depRts, sources', source, order, ok, notes, list, current, echo);
      notes := notes + multiset{current};
    }

    /** Announces a final state to all dependents, transitively through the jobs it cancels. */
    method PropagateTerminalState(source: JobId, final: JobState, now: Time) returns (ghost order: seq<JobId>)
      requires Coherent(0, {}) && final.IsFinal() && Unheard(specs, depRts, Unsettled(rts) + {source})
      modifies `rts, `depRts, `heap, `stateJobs, `groupRunning, `userUsage, `projectUsage, `fairShare, `credits
      ensures Coherent(0, {})
      ensures Cascaded(specs, old(rts), rts, old(depRts), depRts, source, order, final.Finished?,
                       Announced(source, order, echo))
      ensures Driven(specs, old(depRts), source, order, echo)
      ensures !final.Finished? ==> heap == old(heap)
      ensures Preserves(0, now) && credits == old(credits) && KeepsTimes(now) && FlagsNobody()
      ensures Unsettled(rts) <= old(Unsettled(rts))
      decreases Unsettled(rts), 4
    {
      hide Coherent, OnTime, InRank, IsQuiet, Expectant, Announcing, Cascaded, Unsettled, Announced, Driven, Unheard;
      hide TimesKept, NobodyFlagged;
      CoherentSizes(0, {});
      var success := final.Finished?;
      var sources := [(source, success)];
      order := [];
      ghost var notes: multiset<JobId> := multiset{};
      TimesStandStill(specs, rts, depRts, heap, now);
      NobodyNewlyFlagged(specs, rts, depRts);
      AnnouncingStarts(specs, rts, depRts, source, success, echo);
      while sources != []
        invariant Coherent(0, {})
        invariant Announcing(specs, old(rts), rts, old(depRts), depRts, sources, multiset{}, source, order, success,
                             notes, [], echo)
        invariant !success ==> heap == old(heap)
        invariant Preserves(0, now) && credits == old(credits) && KeepsTimes(now) && FlagsNobody()
        invariant Unsettled(rts) <= old(Unsettled(rts))
        decreases Unsettled(rts), |sources|
      {
        AnnouncingPop(specs, old(rts), rts, old(depRts), depRts, sources, source, order, success, notes, echo);
        ghost var rts1, d1, heap1 := rts, depRts, heap;
        var current := sources[|sources| - 1].0;
        sources := sources[..|sources| - 1];
        sources, order, notes := AnnounceToAll(current, success, sources, now, old(rts), old(depRts), source, order,
                                               notes);
        TimesGoOn(specs, old(rts), rts1, rts, old(depRts), d1, depRts, old(heap), heap1, heap, now);
        NobodyFlaggedTrans(specs, old(rts), rts1, rts, old(depRts), d1, depRts);
      }
      AnnouncingEnds(specs, old(rts), rts, old(depRts), depRts, source, order, success, notes, echo);
    }

    /** Moves a job to any state but `Queued`, keeps the indexes in step and, for a final state,
        credits its usage and announces it unless told not to. Invalid moves change nothing. */
    method TransitionJobState(id: JobId, next: JobState, reason: Option<Reason>, propagate: bool, now: Time,
                              ghost lost: set<JobId>, ghost left: set<JobId>)
      returns (transitioned: bool, ghost order: seq<JobId>)
      requires Coherent(0, lost) && lost <= left + {id} && (next.IsFinal() && propagate ==> left == {})
      requires |specs| == |rts| && Exists(|rts|, id) && !next.Queued?
      requires next.Running? && rts[id - 1].state.CanTransitionTo(next) ==> MayStart(specs, rts, id)
      requires next.IsFinal() && propagate ==> Unheard(specs, depRts, Unsettled(rts))
      modifies `rts, `depRts, `heap, `stateJobs, `groupRunning, `userUsage, `projectUsage, `fairShare, `credits
      ensures transitioned <==> old(rts)[id - 1].state.CanTransitionTo(next)
      ensures !transitioned ==> unchanged(this)
      ensures transitioned ==> Coherent(0, left) && Preserves(id, now)
      ensures transitioned ==>
                Transitioned(specs, old(rts), rts, old(depRts), depRts, id, next, reason, now, propagate, order, echo)
      ensures transitioned && !(next.Finished? && propagate) ==> heap == old(heap)
      ensures transitioned ==> Credited(specs, old(rts), old(credits), credits, id, next, reason, now)
      ensures transitioned ==>
                KeepsTimes(now) && FlagsNobody() && |rts| == |old(rts)| && !rts[id - 1].state.Queued?
      ensures Unsettled(rts) <= old(Unsettled(rts))
      ensures transitioned && next.IsFinal() ==> id !in Unsettled(rts) && id in old(Unsettled(rts))
      decreases Unsettled(rts), 0
    {
      hide Coherent, OnTime, InRank, IsQuiet, Expectant, Cascaded, Unsettled, Successful, MayStart, Moved, Credited;
      hide Announced, Transitioned;
      hide Unsuccessful, AutoCancelled, EpochBumped, Unheard, Driven, TimesKept, NobodyFlagged;
      CoherentSizes(0, lost);
      order := [];
      transitioned := rts[id - 1].state.CanTransitionTo(next);
      if !transitioned {
        return;
      }
      MoveFinished(rts, id, next, reason, now);
      ghost var rts0, d0, heap0 := rts, depRts, heap;
      ApplyTransition(id, next, reason, now, lost, left);
      ghost var moved, mid := rts, depRts;
      MoveKeepsTimes(rts0, d0, id, next, reason, now);
      MoveFlagsNobody(specs, rts0, rts, d0, depRts, id, next, reason, now);
      if next.IsFinal() && propagate {
        UnheardAfterMove(rts0, d0, id);
        order := PropagateTerminalState(id, next, now);
        TimesGoOn(specs, rts0, moved, rts, d0, mid, depRts, heap0, heap0, heap, now);
        NobodyFlaggedTrans(specs, rts0, moved, rts, d0, mid, depRts);
        MovedStays(moved, mid, order, id, next);
        TransitionAnnounced(specs, rts0, moved, rts, d0, mid, depRts, id, next, reason, now, order, echo);
      } else {
        TransitionSilent(specs, rts0, rts, d0, depRts, id, next, reason, now, propagate, echo);
      }
    }

    lemma MoveKeepsTimes(rts0: seq<JobRuntime>, d0: seq<DependencyRuntime>, id: JobId, next: JobState,
                         reason: Option<Reason>, now: Time)
      requires |specs| == |rts0| == |d0| && Exists(|d0|, id) && !next.Queued?
      requires rts == rts0[id - 1 := Moved(rts0[id - 1], next, reason, now)] && depRts == EpochBumped(d0, id)
      ensures TimesKept(specs, rts0, rts, d0, depRts, heap, heap, now) && !rts[id - 1].state.Queued?
    {
      hide TimesKept;
      OneLeaves(specs, rts0, rts, d0, depRts, heap, id, now);
    }

    lemma MovedStays(moved: seq<JobRuntime>, mid: seq<DependencyRuntime>, order: seq<JobId>, id: JobId, next: JobState)
      requires Cascaded(specs, moved, rts, mid, depRts, id, order, next.Finished?, Announced(id, order, echo))
      requires Exists(|moved|, id) && !moved[id - 1].state.Queued?
      ensures |rts| == |moved| && !rts[id - 1].state.Queued?
    {
      hide Announced, CountersMoved, Justified;
    }

    lemma UnheardAfterMove(rts0: seq<JobRuntime>, d0: seq<DependencyRuntime>, id: JobId)
      requires |d0| == |specs| && Exists(|d0|, id) && depRts == EpochBumped(d0, id)
      requires Unheard(specs, d0, Unsettled(rts0)) && Unsettled(rts) + {id} <= Unsettled(rts0)
      ensures Unheard(specs, depRts, Unsettled(rts) + {id})
    {
      hide Unsettled, Unheard;
      UnheardStill(specs, d0, depRts, Unsettled(rts0), Unsettled(rts) + {id});
    }

    /** Right counters have not heard of what is not settled. */
    lemma CountersUnheard()
      requires CountersRight(0)
      ensures Unheard(specs, depRts, Unsettled(rts))
    {
      hide CountersOk, Unheard, Unsettled;
      UnsettledIsUnheard(specs, rts, depRts, muted, echo);
    }

    // ---------- readiness from scratch ----------

    /** Recomputes a job's dependency runtime from the states of its dependencies. */
    method BuildDependencyRuntime(id: JobId) returns (dep: DependencyRuntime)
      requires |specs| == |rts|
      ensures dep == if Exists(|specs|, id) then Recomputed(specs[id - 1], rts, 0)
                     else DependencyRuntime(0, 0, 0, false, false, 0)
      ensures 1 <= id <= |specs| ==>
                (dep.depsSatisfied <==> Ready(specs[id - 1], rts)) && (dep.impossible <==> Hopeless(specs[id - 1], rts))
    {
      if Exists(|specs|, id) {
        RecomputedMeaning(specs[id - 1], rts, 0);
        MetAndDeadMean(specs[id - 1], rts);
      }
      hide Ready, Hopeless, DependenciesMet, DependenciesDead;
      if !Exists(|specs|, id) {
        return DependencyRuntime(0, 0, 0, false, false, 0);
      }
      var deps := specs[id - 1].Dependencies();
      var success, failed := 0, 0;
      for i := 0 to |deps|
        invariant success == CountIn(deps[..i], Successful(rts)) && failed == CountIn(deps[..i], Unsuccessful(rts))
      {
        assert deps[..i + 1][..i] == deps[..i];
        if Exists(|rts|, deps[i]) {
          match rts[deps[i] - 1].state.DependencyOutcome() {
            case Some(ok) => if ok { success := success + 1; } else { failed := failed + 1; }
            case None =>
          }
        }
      }
      assert deps[..|deps|] == deps;
      return WithFlags(specs[id - 1].Mode(), |deps|, success, failed, 0);
    }

    /** Starts a new epoch for the job and recomputes its counters and flags. */
    method RecomputeDependencies(id: JobId)
      requires Coherent(id, {id}) && Exists(|rts|, id) && CountersRight(id)
      modifies `depRts
      ensures Coherent(0, {id}) && CountersRight(0)
      ensures |specs| == |rts| == |old(depRts)|
      ensures depRts == old(depRts)[id - 1 := Recomputed(specs[id - 1], rts, old(depRts)[id - 1].readyEpoch + 1)]
      ensures (old(IsQuiet(id)) ==> IsQuiet(id)) && (old(Expectant(id)) ==> Expectant(id))
      ensures old(IsQuiet(id)) ==>
                !(rts[id - 1].state.Queued? && specs[id - 1].autoCancel && depRts[id - 1].impossible) ==> IsQuiet(0)
      ensures forall t :: old(OnTime(t)) ==> OnTime(t)
    {
      hide JobsInv, IndexesOk, Replay, NoneEarly, NoneMissed, Quiet, CountersOk, Successful, Unsuccessful, Satisfied;
      hide Impossible, Ready, Hopeless, LiveEntry;
      hide FlagsOk, HeapOk, NoneLost;
      BumpReadyEpoch(id);
      var dep := BuildDependencyRuntime(id);
      depRts := depRts[id - 1 := dep.(readyEpoch := depRts[id - 1].readyEpoch)];
      RecomputeKeepsQueue(specs, rts, old(depRts), depRts, heap, id);
      RecomputeKeepsCounters(specs, rts, old(depRts), depRts, id, old(depRts)[id - 1].readyEpoch + 1, muted, echo);
      if old(IsQuiet(id)) {
        RecomputeKeepsQuiet(specs, rts, old(depRts), depRts, id);
      }
      if old(Expectant(id)) {
        OneChanged(specs, specs, rts, rts, old(depRts), depRts, heap, heap, id);
      }
      forall t | old(OnTime(t)) ensures OnTime(t) {
        NewEpochNoneEarly(specs, old(rts), old(depRts), depRts, heap, id, id, t);
      }
    }

    /** The first dependency to blame, if no other success makes up for it. */
    method DependencyFailureCause(id: JobId) returns (cause: Option<JobId>)
      requires |specs| == |rts| && Exists(|specs|, id)
      ensures cause.Some? ==> cause.value in specs[id - 1].Dependencies() && cause.value in Unsuccessful(rts)
      ensures cause.Some? ==> FirstIn(specs[id - 1].Dependencies(), cause.value, Unsuccessful(rts))
      ensures cause.None? <==>
                || (forall d :: d in specs[id - 1].Dependencies() ==> d !in Unsuccessful(rts))
                || (specs[id - 1].Mode().Any? && exists d :: d in specs[id - 1].Dependencies() && d in Successful(rts))
      ensures cause.Some? ==> Names(specs[id - 1], cause.value) && HasFailed(rts, cause.value)
      ensures cause.None? <==>
                || (forall d :: Names(specs[id - 1], d) ==> !HasFailed(rts, d))
                || (specs[id - 1].dependencyMode == Some(Any)
                    && exists d :: Names(specs[id - 1], d) && HasFinished(rts, d))
      ensures cause.None? ==> !DependenciesDead(specs[id - 1], Successful(rts), Unsuccessful(rts))
    {
      hide Names, HasFinished, HasFailed;
      TermsMean(specs[id - 1], rts);
      var deps, mode := specs[id - 1].Dependencies(), specs[id - 1].Mode();
      var hasSuccess := exists i :: 0 <= i < |deps| && Exists(|rts|, deps[i]) && rts[deps[i] - 1].state.Finished?;
      for i := 0 to |deps|
        invariant forall k :: 0 <= k < i ==> deps[k] !in Unsuccessful(rts) || (mode.Any? && hasSuccess)
      {
        if Exists(|rts|, deps[i]) && rts[deps[i] - 1].state.DependencyOutcome() == Some(false)
           && (mode.All? || !hasSuccess) {
          return Some(deps[i]);
        }
      }
      if mode.Any? && hasSuccess {
        var i :| 0 <= i < |deps| && Exists(|rts|, deps[i]) && rts[deps[i] - 1].state.Finished?;
        assert deps[i] in deps && deps[i] in Successful(rts) && deps[i] !in Unsuccessful(rts);
      } else if deps != [] {
        assert deps[0] in deps;
      }
      return None;
    }

    /** Cancels a queued job whose dependencies can no longer be met, and what goes down with it. */
    method CancelDoomed(id: JobId, now: Time) returns (ghost order: seq<JobId>)
      requires Coherent(0, {id}) && |specs| == |rts| == |depRts| && Exists(|rts|, id) && CountersRight(0)
      requires rts[id - 1].state.Queued? && specs[id - 1].autoCancel
      requires DependenciesDead(specs[id - 1], Successful(rts), Unsuccessful(rts))
      modifies `rts, `depRts, `heap, `stateJobs, `groupRunning, `userUsage, `projectUsage, `fairShare, `credits
      ensures Valid() && |specs| == |rts| == |depRts| && id in order && TookDown(specs, old(rts), rts, order)
      ensures KeptExact(specs, old(rts), old(depRts), specs, rts, depRts, {}, order)
      ensures Preserves(id, now) && heap == old(heap)
      ensures credits == old(credits)
    {
      hide Coherent, OnTime, InRank, IsQuiet, Expectant, CountersOk, TookDown, Transitioned, Credited, MayStart;
      hide Unheard;
      hide Successful, Unsuccessful, DependenciesDead, KeptExact, FlagsOk, Unsettled;
      ghost var rts0, d0 := rts, depRts;
      var failed := DependencyFailureCause(id);
      var cause := failed.GetOr(id);
      QueuedEarnsNothing(id, cause, now, {id});
      MutedFailed({id});
      CountersUnheard();
      var cancelled;
      ghost var tail;
      cancelled, tail := TransitionJobState(id, Cancelled, Some(DependencyFailed(cause)), true, now, {id}, {});
      CancellationTakesDown(specs, rts0, rts, d0, depRts, id, cause, now, tail, echo);
      CascadeKeepsCounters(specs, rts0, rts, d0, depRts, id, Cancelled, Some(DependencyFailed(cause)), now, tail, muted,
                           echo);
      CoherentSizes(0, {});
      FlagsAreRight();
      CascadeKeepsExact(specs, rts0, rts, d0, depRts, id, Cancelled, Some(DependencyFailed(cause)), now, tail, echo);
      order := [id] + tail;
    }

    /** Job `id` is queued, its begin time has come if it has one, and its flag no longer says whether its
        dependencies are met. */
    ghost predicate ReadinessIsOld(id: JobId, now: Time)
      reads `specs, `rts, `depRts
    {
      && |specs| == |rts| == |depRts| && Exists(|specs|, id) && rts[id - 1].state.Queued? && Begun(specs[id - 1], now)
      && !(depRts[id - 1].depsSatisfied <==> DependenciesMet(specs[id - 1], Successful(rts)))
    }

    /** Job `id` is queued, goes down with its dependencies, and they can no longer be met. */
    ghost predicate IsDoomed(id: JobId)
      reads `specs, `rts
    {
      && |specs| == |rts| && Exists(|specs|, id) && rts[id - 1].state.Queued? && specs[id - 1].autoCancel
      && DependenciesDead(specs[id - 1], Successful(rts), Unsuccessful(rts))
    }

    lemma ReadinessShows(rt0: JobRuntime, rt1: JobRuntime, dep0: DependencyRuntime, dep1: DependencyRuntime, id: JobId,
                         now: Time)
      requires Exists(|specs|, id) && rt0.state.Queued? && rt1.state.Queued? && Begun(specs[id - 1], now)
      requires dep0.depsSatisfied != dep1.depsSatisfied
      ensures WaitReason(specs[id - 1], rt0, dep0, now) != WaitReason(specs[id - 1], rt1, dep1, now)
    {
    }

    /** Recomputes a job's readiness: cancels it if it can no longer run and asks for that, enqueues it
        if it is ready. Reports whether dependents should look again: whether the job was cancelled or now
        waits for something else. */
    method RefreshSingleJobReadiness(id: JobId, now: Time) returns (changed: bool, ghost order: seq<JobId>)
      requires Coherent(id, {id}) && |specs| == |rts| == |depRts| && Exists(|rts|, id) && CountersRight(id)
      modifies `rts, `depRts, `heap, `stateJobs, `groupRunning, `userUsage, `projectUsage, `fairShare, `credits
      ensures Valid()
      ensures |rts| == |depRts| == |specs| && TookDown(specs, old(rts), rts, order)
      ensures KeptExact(specs, old(rts), old(depRts), specs, rts, depRts, {id}, order)
      ensures changed <==> order != [] || WaitReason(specs[id - 1], rts[id - 1], depRts[id - 1], now)
                                          != WaitReason(specs[id - 1], old(rts)[id - 1], old(depRts)[id - 1], now)
      ensures old(IsDoomed(id)) ==> id in order
      ensures old(ReadinessIsOld(id, now)) ==> changed
      ensures order == [] ==>
                && depRts == old(depRts)[id - 1 := Recomputed(specs[id - 1], rts, old(depRts)[id - 1].readyEpoch + 1)]
                && heap == old(heap) +
                     if rts[id - 1].state.Queued? && !specs[id - 1].StartsAfter(now) && depRts[id - 1].depsSatisfied
                     then multiset{LiveEntry(rts[id - 1], depRts[id - 1])} else multiset{}
      ensures Preserves(id, now)
      ensures credits == old(credits)
    {
      hide Coherent, OnTime, InRank, IsQuiet, Expectant, CountersOk, Recomputed, TookDown, Synced, WaitReason;
      hide LiveEntry;
      hide Successful, Unsuccessful, DependenciesDead, DependenciesMet, KeptExact, ReasonUpToDate;
      ghost var rts0, d0 := rts, depRts;
      var oldReason := WaitReason(specs[id - 1], rts[id - 1], depRts[id - 1], now);
      RecomputeAndSync(id, now);
      if rts[id - 1].state.Queued? && specs[id - 1].autoCancel && depRts[id - 1].impossible {
        ghost var rts1, d1 := rts, depRts;
        order := CancelDoomed(id, now);
        TookDownCompose(specs, rts0, rts1, rts, [], order);
        KeptThenKept(specs, rts0, d0, specs, rts1, d1, specs, rts, depRts, {id}, [], {}, order);
        assert [] + order == order;
        FewerKept(rts0, d0, {id} + {}, {id}, order);
        return true, order;
      }
      order := [];
      EnqueueRefreshed(id, now);
      changed := WaitReason(specs[id - 1], rts[id - 1], depRts[id - 1], now) != oldReason;
      if old(ReadinessIsOld(id, now)) {
        ReadinessShows(rts0[id - 1], rts[id - 1], d0[id - 1], depRts[id - 1], id, now);
      }
    }

    /** Puts a job whose counters and waiting reason are up to date in the heap, if it is ready. */
    method EnqueueRefreshed(id: JobId, now: Time)
      requires Coherent(0, {id}) && ReasonUpToDate(id, now)
      modifies `heap
      ensures Coherent(0, {})
      ensures heap == old(heap) +
                if rts[id - 1].state.Queued? && !specs[id - 1].StartsAfter(now) && depRts[id - 1].depsSatisfied
                then multiset{LiveEntry(rts[id - 1], depRts[id - 1])} else multiset{}
      ensures (old(OnTime(now)) ==> OnTime(now)) && (old(InRank()) ==> InRank())
      ensures (old(Expectant(id)) ==> Expectant(0))
    {
      hide Coherent, OnTime, InRank, Expectant, Synced, LiveEntry;
      if depRts[id - 1].depsSatisfied {
        EnqueueIfReady(id, now, 0, {id}, {});
      } else {
        NotReadyNotLost(id);
      }
      InTimeIfUpToDate(id, now);
    }

    /** Job `id`'s waiting reason is up to date. */
    predicate ReasonUpToDate(id: JobId, now: Time)
      reads `specs, `rts, `depRts
    {
      |specs| == |rts| == |depRts| && Exists(|specs|, id) && rts[id - 1] == Synced(specs, rts, depRts, id, now)
    }

    /** Recomputes a job's counters and flags and brings its waiting reason up to date. */
    method RecomputeAndSync(id: JobId, now: Time)
      requires Coherent(id, {id}) && |specs| == |rts| == |depRts| && Exists(|rts|, id) && CountersRight(id)
      modifies `rts, `depRts
      ensures Coherent(0, {id}) && CountersRight(0) && |specs| == |rts| == |depRts|
      ensures depRts == old(depRts)[id - 1 := Recomputed(specs[id - 1], rts, old(depRts)[id - 1].readyEpoch + 1)]
      ensures TookDown(specs, old(rts), rts, []) && rts[id - 1].state == old(rts)[id - 1].state
      ensures KeptExact(specs, old(rts), old(depRts), specs, rts, depRts, {id}, [])
      ensures depRts[id - 1].impossible <==> DependenciesDead(specs[id - 1], Successful(rts), Unsuccessful(rts))
      ensures depRts[id - 1].depsSatisfied <==> DependenciesMet(specs[id - 1], Successful(rts))
      ensures Successful(rts) == old(Successful(rts)) && Unsuccessful(rts) == old(Unsuccessful(rts))
      ensures ReasonUpToDate(id, now)
      ensures (old(IsQuiet(id)) ==> IsQuiet(id)) && (old(Expectant(id)) ==> Expectant(id))
      ensures old(IsQuiet(id)) ==>
                !(rts[id - 1].state.Queued? && specs[id - 1].autoCancel && depRts[id - 1].impossible) ==> IsQuiet(0)
      ensures (old(OnTime(now)) ==> OnTime(now)) && (old(InRank()) ==> InRank())
    {
      hide Coherent, OnTime, InRank, IsQuiet, Expectant, CountersOk, Recomputed, TookDown, Synced;
      hide Successful, Unsuccessful, DependenciesDead, DependenciesMet, KeptExact;
      ghost var rts0, d0 := rts, depRts;
      RecomputeDependencies(id);
      RecomputedMeaning(specs[id - 1], rts, depRts[id - 1].readyEpoch);
      SyncQueuedWaitReason(id, now, 0, {id});
      SyncTakesNothingDown(rts0, id, now);
      RecomputedIsExact(specs, rts0, rts, d0, depRts, id, d0[id - 1].readyEpoch + 1);
      SameSetsSameRuntime(specs[id - 1], rts0, rts, d0[id - 1].readyEpoch + 1);
      SyncedOnce(rts0, id, now);
    }

    lemma SyncedOnce(rts0: seq<JobRuntime>, id: JobId, now: Time)
      requires |specs| == |rts0| == |depRts| && Exists(|specs|, id)
      requires rts == rts0[id - 1 := Synced(specs, rts0, depRts, id, now)]
      ensures ReasonUpToDate(id, now)
    {
    }

    /** A job whose waiting reason is up to date, and which is in the heap if it is ready, misses nothing. */
    lemma InTimeIfUpToDate(id: JobId, now: Time)
      requires ReasonUpToDate(id, now)
      requires rts[id - 1].state.Queued? && !specs[id - 1].StartsAfter(now) && depRts[id - 1].depsSatisfied ==>
                 LiveEntry(rts[id - 1], depRts[id - 1]) in heap
      ensures !Missed(id) && (Expectant(id) ==> Expectant(0))
    {
      hide LiveEntry, NoneMissed;
      if Expectant(id) {
        OneChanged(specs, specs, rts, rts, depRts, depRts, heap, heap, id);
      }
    }

    /** Job ids a wavefront can visit. */
    ghost function Reachable(source: JobId): set<JobId>
      reads `rts
    {
      (set id: JobId | id <= |rts| && Exists(|rts|, id)) + {source}
    }

    ghost function QueuedDependents(source: JobId): set<JobId>
      reads `specs, `rts
    {
      set id: JobId | id <= |rts| && Exists(|rts|, id) && DependsOn(specs, id, source) && rts[id - 1].state.Queued?
    }

    /** Looks again at the queued dependents of a job, and reports which of them changed in turn. */
    method RefreshDependents(source: JobId, now: Time) returns (changed: seq<JobId>, ghost order: seq<JobId>)
      requires Valid() && |specs| == |rts| == |depRts|
      modifies `rts, `depRts, `heap, `stateJobs, `groupRunning, `userUsage, `projectUsage, `fairShare, `credits
      ensures Valid() && |specs| == |rts| == |depRts| && TookDown(specs, old(rts), rts, order)
      ensures KeptExact(specs, old(rts), old(depRts), specs, rts, depRts, QueuedDependents(source), order)
      ensures forall x :: x in changed ==> Exists(|rts|, x) && DependsOn(specs, x, source)
      ensures Preserves(0, now)
      ensures credits == old(credits)
    {
      hide Coherent, OnTime, InRank, IsQuiet, Expectant, CountersOk, TookDown, SpecsOk, KeptExact, RenewedUpTo;
      changed, order := [], [];
      ghost var renewed: set<JobId> := {};
      StartsWithNothing();
      NothingKept(specs, rts, depRts);
      DependentsAreListed(source);
      var list := Lookup(dependents, source);
      NoneRenewed(rts, list);
      for i := 0 to |list|
        invariant Valid() && TookDown(specs, old(rts), rts, order) && |specs| == |rts| == |depRts|
        invariant KeptExact(specs, old(rts), old(depRts), specs, rts, depRts, renewed, order)
        invariant RenewedUpTo(rts, list, i, renewed)
        invariant forall x :: x in changed ==> Exists(|rts|, x) && DependsOn(specs, x, source)
        invariant Preserves(0, now)
        invariant credits == old(credits)
      {
        var id := list[i];
        assert id in list;
        ghost var rts1, d1, renewed1 := rts, depRts, renewed;
        if rts[id - 1].state.Queued? {
          WeakenAll(id);
          var again;
          ghost var more;
          again, more := RefreshSingleJobReadiness(id, now);
          TookDownCompose(specs, old(rts), rts1, rts, order, more);
          KeptThenKept(specs, old(rts), old(depRts), specs, rts1, d1, specs, rts, depRts, renewed, order, {id}, more);
          NobodyQueues(rts1, more);
          order, renewed := order + more, renewed + {id};
          if again {
            changed := changed + [id];
          }
        }
        NextRenewed(rts1, rts, list, i, renewed1, renewed);
      }
      AllRenewed(list, renewed, source);
      FewerKept(old(rts), old(depRts), renewed, QueuedDependents(source), order);
    }

    lemma AllRenewed(list: seq<JobId>, renewed: set<JobId>, source: JobId)
      requires RenewedUpTo(rts, list, |list|, renewed)
      requires forall id: JobId :: id in list <==> DependsOn(specs, id, source)
      ensures QueuedDependents(source) <= renewed
    {
    }

    /** Looks again at the queued dependents of a job whose readiness changed, and on from those
        that change in turn, visiting the dependents of each job once. */
    method RefreshQueuedDependencyReasonWavefront(source: JobId, now: Time) returns (ghost order: seq<JobId>)
      requires Valid() && |specs| == |rts| == |depRts|
      modifies `rts, `depRts, `heap, `stateJobs, `groupRunning, `userUsage, `projectUsage, `fairShare, `credits
      ensures Valid() && |specs| == |rts| == |depRts| && TookDown(specs, old(rts), rts, order)
      ensures KeptExact(specs, old(rts), old(depRts), specs, rts, depRts, QueuedDependents(source), order)
      ensures Preserves(0, now)
      ensures credits == old(credits)
    {
      hide Coherent, OnTime, InRank, IsQuiet, Expectant, CountersOk, TookDown, KeptExact, QueuedDependents;
      var queue, seen: set<JobId> := [source], {};
      ghost var renewed: set<JobId> := {};
      order := [];
      StartsWithNothing();
      NothingKept(specs, rts, depRts);
      while queue != []
        invariant Valid() && TookDown(specs, old(rts), rts, order) && |specs| == |rts| == |depRts|
        invariant KeptExact(specs, old(rts), old(depRts), specs, rts, depRts, renewed, order)
        invariant (seen == {} && queue == [source]) || QueuedDependents(source) <= renewed
        invariant Preserves(0, now)
        invariant credits == old(credits)
        invariant seen <= old(Reachable(source)) && forall x :: x in queue ==> x in old(Reachable(source))
        decreases old(Reachable(source)) - seen, |queue|
      {
        var current := queue[0];
        assert current in queue;
        queue := queue[1..];
        if current in seen {
          continue;
        }
        seen := seen + {current};
        ghost var rts1, d1, before := rts, depRts, QueuedDependents(source);
        QueuedDependentsHold(source);
        var changed;
        ghost var more;
        changed, more := RefreshDependents(current, now);
        TookDownCompose(specs, old(rts), rts1, rts, order, more);
        KeptThenKept(specs, old(rts), old(depRts), specs, rts1, d1, specs, rts, depRts, renewed, order,
                     QueuedDependents(current), more);
        NobodyQueues(rts1, more);
        FewerQueued(before, rts1, source);
        order, renewed := order + more, renewed + QueuedDependents(current);
        queue := queue + changed;
      }
      FewerKept(old(rts), old(depRts), renewed, QueuedDependents(source), order);
    }

    lemma QueuedDependentsHold(source: JobId)
      ensures forall id: JobId ::
                Exists(|rts|, id) && DependsOn(specs, id, source) && rts[id - 1].state.Queued? ==>
                  id in QueuedDependents(source)
    {
    }

    /** Where nobody is queued anew, neither is any dependent. */
    lemma FewerQueued(before: set<JobId>, rts0: seq<JobRuntime>, source: JobId)
      requires |rts| == |rts0| && forall k :: 0 <= k < |rts| && rts[k].state.Queued? ==> rts0[k].state.Queued?
      requires forall id: JobId ::
                 Exists(|rts0|, id) && DependsOn(specs, id, source) && rts0[id - 1].state.Queued? ==> id in before
      ensures QueuedDependents(source) <= before
    {
    }

    /** Taking jobs down queues nobody. */
    lemma NobodyQueues(rts0: seq<JobRuntime>, order: seq<JobId>)
      requires TookDown(specs, rts0, rts, order)
      ensures |rts| == |rts0| && forall i :: 0 <= i < |rts| && rts[i].state.Queued? ==> rts0[i].state.Queued?
    {
      forall i | 0 <= i < |rts| && rts[i].state.Queued? ensures rts0[i].state.Queued? {
        assert Exists(|rts0|, i + 1);
      }
    }

    /** Recomputes a job's readiness and, if that changed what it waits for, its dependents'. */
    method RefreshJobReadiness(id: JobId, now: Time) returns (ghost order: seq<JobId>)
      requires Coherent(id, {id}) && |specs| == |rts| == |depRts| && Exists(|rts|, id) && CountersRight(id)
      modifies `rts, `depRts, `heap, `stateJobs, `groupRunning, `userUsage, `projectUsage, `fairShare, `credits
      ensures Valid() && |specs| == |rts| == |depRts| && TookDown(specs, old(rts), rts, order)
      ensures KeptExact(specs, old(rts), old(depRts), specs, rts, depRts, {id}, order)
      ensures old(ReadinessIsOld(id, now)) ==>
                KeptExact(specs, old(rts), old(depRts), specs, rts, depRts, {id} + QueuedDependents(id), order)
      ensures old(IsDoomed(id)) ==> id in order
      ensures Preserves(id, now)
      ensures credits == old(credits)
    {
      hide Coherent, OnTime, InRank, IsQuiet, Expectant, CountersOk, TookDown, KeptExact, ReadinessIsOld, IsDoomed;
      hide DependenciesDead, Successful, Unsuccessful, QueuedDependents;
      var reasonChanged;
      reasonChanged, order := RefreshSingleJobReadiness(id, now);
      if reasonChanged {
        ghost var rts1, d1, more := rts, depRts, [];
        more := RefreshQueuedDependencyReasonWavefront(id, now);
        TookDownCompose(specs, old(rts), rts1, rts, order, more);
        KeptThenKept(specs, old(rts), old(depRts), specs, rts1, d1, specs, rts, depRts, {id}, order,
                     QueuedDependents(id), more);
        FewerKept(old(rts), old(depRts), {id} + QueuedDependents(id), {id}, order + more);
        order := order + more;
      }
    }

    lemma FewerKept(rts0: seq<JobRuntime>, d0: seq<DependencyRuntime>, renewed: set<JobId>, fewer: set<JobId>,
                    order: seq<JobId>)
      requires KeptExact(specs, rts0, d0, specs, rts, depRts, renewed, order) && fewer <= renewed
      ensures KeptExact(specs, rts0, d0, specs, rts, depRts, fewer, order)
    {
      hide ExactAt, Apart;
    }

    /** Moves a held job back to the queue and works out whether it can run. Any other job is left alone. */
    method ReleaseToQueue(id: JobId, now: Time) returns (transitioned: bool, ghost order: seq<JobId>)
      requires Valid() && |specs| == |rts| && Exists(|rts|, id)
      modifies `rts, `depRts, `heap, `stateJobs, `groupRunning, `userUsage, `projectUsage, `fairShare, `credits
      ensures Valid()
      ensures transitioned <==> old(rts)[id - 1].state.Hold?
      ensures !transitioned ==> unchanged(this)
      ensures transitioned ==>
                && TookDown(specs, old(rts)[id - 1 := Moved(old(rts)[id - 1], Queued, None, now)], rts, order)
                && KeptExact(specs, old(rts), old(depRts), specs, rts, depRts, {id}, order)
                && (specs[id - 1].autoCancel && Hopeless(specs[id - 1], old(rts)) ==> id in order)
      ensures Preserves(0, now)
      ensures credits == old(credits)
    {
      hide Coherent, OnTime, InRank, IsQuiet, Expectant, CountersOk, TookDown, Credited, Moved, KeptExact, EpochBumped;
      hide IsDoomed, Hopeless;
      hide Successful, Unsuccessful, AutoCancelled, Unsettled;
      order := [];
      transitioned := rts[id - 1].state.CanTransitionTo(Queued);
      if transitioned {
        WeakenAll(id);
        HeldEarnsNothing(id, now);
        MutedFailed({id});
        CoherentSizes(0, {});
        ghost var rts0, d0 := rts, depRts;
        ApplyTransition(id, Queued, None, now, {}, {id});
        SilenceKeepsCounters(specs, rts0, rts, d0, depRts, id, Queued, None, now, muted, echo);
        WeakenFlags(id);
        ghost var rts1, d1 := rts, depRts;
        QueuedAgainIsExact(rts0, d0, id, now);
        HeldIsDoomed(rts0, id, now);
        order := RefreshJobReadiness(id, now);
        KeptThenKept(specs, rts0, d0, specs, rts1, d1, specs, rts, depRts, {}, [], {id}, order);
        assert [] + order == order;
        FewerKept(rts0, d0, {} + {id}, {id}, order);
      }
    }

    lemma HeldIsDoomed(rts0: seq<JobRuntime>, id: JobId, now: Time)
      requires |specs| == |rts0| && Exists(|rts0|, id) && rts0[id - 1].state.Hold?
      requires rts == rts0[id - 1 := Moved(rts0[id - 1], Queued, None, now)]
      ensures specs[id - 1].autoCancel && Hopeless(specs[id - 1], rts0) ==> IsDoomed(id)
    {
      hide Hopeless, DependenciesDead, DependenciesMet, RuntimesOk;
      MetAndDeadMean(specs[id - 1], rts0);
      forall d: JobId ensures d in Successful(rts) <==> d in Successful(rts0)
        ensures d in Unsuccessful(rts) <==> d in Unsuccessful(rts0)
      {
      }
      assert Successful(rts) == Successful(rts0) && Unsuccessful(rts) == Unsuccessful(rts0);
    }

    lemma QueuedAgainIsExact(rts0: seq<JobRuntime>, d0: seq<DependencyRuntime>, id: JobId, now: Time)
      requires |specs| == |rts0| == |d0| && Exists(|rts0|, id) && rts0[id - 1].state.Hold?
      requires rts == rts0[id - 1 := Moved(rts0[id - 1], Queued, None, now)] && depRts == EpochBumped(d0, id)
      ensures KeptExact(specs, rts0, d0, specs, rts, depRts, {}, []) && |depRts| == |rts| == |specs|
    {
      hide Successful, Unsuccessful, AutoCancelled, Unsettled, Moved;
      MoveFinished(rts0, id, Queued, None, now);
      EpochsKeepExact(specs, rts0, rts, d0, depRts);
    }

    // ---------- submission ----------

    /** Adds the job to the reverse graph under each of its dependencies. */
    method InsertJobDependenciesIndex(id: JobId, deps: seq<JobId>, ghost keys: seq<set<JobId>>)
      requires Indexes(dependents, keys) && Exists(|keys|, id)
      modifies `dependents
      ensures Indexes(dependents, keys[id - 1 := keys[id - 1] + Elements(deps)])
    {
      hide Indexes;
      assert keys[id - 1] + Elements(deps[..0]) == keys[id - 1];
      assert keys[id - 1 := keys[id - 1] + Elements(deps[..0])] == keys;
      for i := 0 to |deps|
        invariant Indexes(dependents, keys[id - 1 := keys[id - 1] + Elements(deps[..i])])
      {
        ghost var now, next := keys[id - 1 := keys[id - 1] + Elements(deps[..i])],
                               keys[id - 1 := keys[id - 1] + Elements(deps[..i + 1])];
        assert Elements(deps[..i + 1]) == Elements(deps[..i]) + {deps[i]};
        assert now[id - 1] + {deps[i]} == next[id - 1];
        assert now[id - 1 := now[id - 1] + {deps[i]}] == next;
        ListsAscend(dependents, now);
        InsertIndexes(dependents, now, deps[i], id);
        dependents := Insert(dependents, deps[i], id);
      }
      assert deps[..|deps|] == deps;
    }

    /** Takes the job out of the reverse graph under each of the given dependencies. */
    method RemoveJobDependenciesIndex(id: JobId, deps: seq<JobId>, ghost keys: seq<set<JobId>>)
      requires Indexes(dependents, keys) && Exists(|keys|, id)
      modifies `dependents
      ensures Indexes(dependents, keys[id - 1 := keys[id - 1] - Elements(deps)])
    {
      hide Indexes;
      assert keys[id - 1] - Elements(deps[..0]) == keys[id - 1];
      assert keys[id - 1 := keys[id - 1] - Elements(deps[..0])] == keys;
      for i := 0 to |deps|
        invariant Indexes(dependents, keys[id - 1 := keys[id - 1] - Elements(deps[..i])])
      {
        ghost var now, next := keys[id - 1 := keys[id - 1] - Elements(deps[..i])],
                               keys[id - 1 := keys[id - 1] - Elements(deps[..i + 1])];
        assert Elements(deps[..i + 1]) == Elements(deps[..i]) + {deps[i]};
        assert now[id - 1] - {deps[i]} == next[id - 1];
        assert now[id - 1 := now[id - 1] - {deps[i]}] == next;
        ListsAscend(dependents, now);
        RemoveIndexes(dependents, now, deps[i], id);
        dependents := Remove(dependents, deps[i], id);
      }
      assert deps[..|deps|] == deps;
    }

    /** Enters a new job in the user, state and project indexes. */
    method EnterIndexes(id: JobId, spec: JobSpec, runtime: JobRuntime)
      requires id == |specs| + 1 == |rts| + 1 && runtime.state.Queued?
      requires Indexes(userJobs, UserKeys(specs)) && Indexes(stateJobs, StateKeys(rts))
      requires Indexes(projectJobs, ProjectKeys(specs))
      modifies `userJobs, `stateJobs, `projectJobs
      ensures Indexes(userJobs, UserKeys(specs + [spec])) && Indexes(stateJobs, StateKeys(rts + [runtime]))
      ensures Indexes(projectJobs, ProjectKeys(specs + [spec]))
    {
      hide Indexes, StateKeys, UserKeys, ProjectKeys, Insert, Lookup;
      AppendUser(userJobs, specs, spec);
      AppendState(stateJobs, rts, runtime);
      AppendProject(projectJobs, specs, spec);
      userJobs := userJobs[spec.submittedBy := Lookup(userJobs, spec.submittedBy) + [id]];
      stateJobs := stateJobs[Queued := Lookup(stateJobs, Queued) + [id]];
      if spec.project.Some? {
        projectJobs := Insert(projectJobs, spec.project.value, id);
      }
    }

    /** Enters the job in the indexes and the job vectors. */
    method AppendJob(spec: JobSpec, runtime: JobRuntime)
      requires Aligned() && IndexesOk() && runtime.state.Queued?
      modifies `specs, `rts, `depRts, `dependents, `userJobs, `stateJobs, `projectJobs, `nextJobId
      ensures Aligned() && IndexesOk()
      ensures specs == old(specs) + [spec] && rts == old(rts) + [runtime] && depRts == old(depRts) + [NO_DEPENDENCIES]
    {
      hide Indexes, Tallies, Counts, StateKeys, UserKeys, ProjectKeys, DependencyKeys;
      hide GroupShares, UserShares, ProjectShares;
      var id := nextJobId;
      nextJobId := nextJobId + 1;
      EnterIndexes(id, spec, runtime);
      AppendTotals(specs, rts, spec, runtime, groupRunning, userUsage, projectUsage);
      ExtendIndexes(dependents, DependencyKeys(specs));
      AppendedDependencies(specs, spec);
      ghost var keys := DependencyKeys(specs) + [{}];
      specs, rts, depRts := specs + [spec], rts + [runtime], depRts + [NO_DEPENDENCIES];
      InsertJobDependenciesIndex(id, spec.Dependencies(), keys);
    }

    /** What appending a job does to the rest of the invariant. */
    lemma AppendedJob(spec: JobSpec, runtime: JobRuntime)
      requires Valid() && Distinct(spec.Dependencies())
      ensures var id := |rts| + 1;
        var specs', rts', deps' := specs + [spec], rts + [Submitted(runtime, id)], depRts + [NO_DEPENDENCIES];
        && JobsInv(specs', rts', credits, muted) && QueueInv(specs', rts', deps', heap, id, {id})
        && CountersOk(specs', rts', deps', muted, echo, id)
        && (Quiet(specs, rts, depRts, 0) ==> Quiet(specs', rts', deps', id))
        && (NoneMissed(specs, rts, depRts, heap, 0) ==> NoneMissed(specs', rts', deps', heap, id))
        && (forall t :: NoneEarly(specs, depRts, heap, t) ==> NoneEarly(specs', deps', heap, t))
        && (NoneOutranked(rts, heap) ==> NoneOutranked(rts', heap))
    {
      hide SpecsOk, RuntimesOk, StartedSafely, GpusExclusive, LedgerOk, FlagsOk, HeapOk, NoneLost, Unsuccessful;
      hide IndexesOk, Replay, CountersOk, Quiet, NoneEarly, NoneOutranked, NoneMissed;
      var rt := Submitted(runtime, |rts| + 1);
      AppendKeepsJobs(specs, rts, spec, runtime, credits, muted);
      AppendKeepsQueue(specs, rts, depRts, heap, spec, rt, NO_DEPENDENCIES);
      AppendKeepsCounters(specs, rts, depRts, muted, echo, spec, rt, NO_DEPENDENCIES);
      AppendKeepsOrder(specs, rts, depRts, heap, spec, rt, NO_DEPENDENCIES);
      if NoneMissed(specs, rts, depRts, heap, 0) {
        AppendMissesNothing(specs, rts, depRts, heap, spec, rt, NO_DEPENDENCIES);
      }
    }

    lemma AppendedIsExact(specs0: seq<JobSpec>, rts0: seq<JobRuntime>, d0: seq<DependencyRuntime>, spec: JobSpec,
                          runtime: JobRuntime)
      requires |specs0| == |rts0| == |d0|
      ensures KeptExact(specs0, rts0, d0, specs0 + [spec], rts0 + [Submitted(runtime, |rts0| + 1)],
                        d0 + [NO_DEPENDENCIES], {}, [])
    {
      hide Successful, Unsuccessful, AutoCancelled, Unsettled;
      var rt := Submitted(runtime, |rts0| + 1);
      AppendKeepsSets(rts0, rt);
      AppendKeepsExact(specs0, rts0, d0, spec, rt, NO_DEPENDENCIES);
    }

    method SubmitJob(spec: JobSpec, runtime: JobRuntime, now: Time) returns (id: JobId, ghost order: seq<JobId>)
      requires Valid() && Distinct(spec.Dependencies())
      modifies this
      ensures Valid() && Preserves(0, now)
      ensures id == old(nextJobId) == |old(rts)| + 1
      ensures specs == old(specs) + [spec] && muted == old(muted) && credits == old(credits)
      ensures TookDown(specs, old(rts) + [Submitted(runtime, id)], rts, order)
      ensures |specs| == |rts| == |depRts|
      ensures BeginsAs(runtime, rts[id - 1], id) && (rts[id - 1].state.Cancelled? ==> spec.autoCancel)
      ensures spec.autoCancel && Hopeless(spec, old(rts)) ==> rts[id - 1].state == Cancelled
      ensures KeptExact(old(specs), old(rts), old(depRts), specs, rts, depRts, {id}, order)
      ensures old(Acyclic(specs)) && (forall d :: d in spec.Dependencies() ==> !Reaches(old(specs), d, id)) ==>
                Acyclic(specs)
    {
      hide JobsInv, QueueInv, IndexesOk, Replay, CountersOk, Quiet, NoneEarly, NoneOutranked, NoneMissed, TookDown;
      hide Distinct, Hopeless, IsDoomed, BeginsAs;
      hide Acyclic, Reaches, KeptExact;
      SubmissionKeepsAcyclic(specs, spec);
      id := nextJobId;
      AppendedJob(spec, runtime);
      AppendJob(spec, Submitted(runtime, id));
      ghost var rts1, d1 := rts, depRts;
      HopelessIsDoomed(spec, old(rts), Submitted(runtime, id));
      order := RefreshJobReadiness(id, now);
      BeginsAsAsked(specs, old(rts), runtime, rts, order);
      SubmittedIsExact(old(specs), old(rts), old(depRts), spec, runtime, rts1, d1, order);
    }

    lemma HopelessIsDoomed(spec: JobSpec, rts0: seq<JobRuntime>, rt: JobRuntime)
      requires |specs| == |rts| && rts == rts0 + [rt] && specs[|rts0|] == spec && rt.state.Queued?
      ensures spec.autoCancel && Hopeless(spec, rts0) ==> IsDoomed(|rts0| + 1)
    {
      hide Hopeless, DependenciesDead, Successful, Unsuccessful, DependenciesMet;
      AppendKeepsSets(rts0, rt);
      MetAndDeadMean(spec, rts0);
    }

    lemma SubmittedIsExact(specs0: seq<JobSpec>, rts0: seq<JobRuntime>, d0: seq<DependencyRuntime>, spec: JobSpec,
                           runtime: JobRuntime, rts1: seq<JobRuntime>, d1: seq<DependencyRuntime>, order: seq<JobId>)
      requires |specs0| == |rts0| == |d0| && specs == specs0 + [spec]
      requires rts1 == rts0 + [Submitted(runtime, |rts0| + 1)] && d1 == d0 + [NO_DEPENDENCIES]
      requires KeptExact(specs, rts1, d1, specs, rts, depRts, {|rts0| + 1}, order)
      ensures KeptExact(specs0, rts0, d0, specs, rts, depRts, {|rts0| + 1}, order)
    {
      hide KeptExact, Submitted;
      var id := |rts0| + 1;
      AppendedIsExact(specs0, rts0, d0, spec, runtime);
      KeptThenKept(specs0, rts0, d0, specs, rts1, d1, specs, rts, depRts, {}, [], {id}, order);
      assert [] + order == order && {} + {id} == {id};
    }

    // ---------- the transitions the daemon asks for ----------

    /** Notes that job `id` failed in silence. */
    ghost method Mute(id: JobId)
      requires Coherent(0, {}) && |specs| == |rts| && id in Unsuccessful(rts)
      modifies `muted
      ensures Coherent(0, {}) && muted == Muting(specs, rts, old(muted), id)
    {
      hide IndexesOk, QueueInv, Replay, SpecsOk, RuntimesOk, StartedSafely, GpusExclusive, LedgerOk;
      muted := Muting(specs, rts, muted, id);
    }

    /** Asks for a transition to a state other than `Queued`. */
    method ChangeState(id: JobId, next: JobState, reason: Option<Reason>, propagate: bool, now: Time)
      returns (result: Option<bool>, ghost order: seq<JobId>)
      requires Valid() && !next.Queued? && (next.Finished? ==> propagate)
      requires next.Running? && Exists(|rts|, id) && |specs| == |rts| && rts[id - 1].state.CanTransitionTo(next) ==>
                 MayStart(specs, rts, id)
      modifies `rts, `depRts, `heap, `stateJobs, `groupRunning, `userUsage, `projectUsage, `fairShare, `credits, `muted
      ensures Valid() && Preserves(0, now) && KeepsTimes(now) && FlagsNobody()
      ensures result == if Exists(|old(rts)|, id) then Some(old(rts)[id - 1].state.CanTransitionTo(next)) else None
      ensures Moves(id, next, reason, propagate, now, order)
      ensures Unsettled(rts) <= old(Unsettled(rts))
      ensures next.IsFinal() && result == Some(true) ==> id !in Unsettled(rts) && id in old(Unsettled(rts))
    {
      hide Coherent, OnTime, InRank, IsQuiet, Expectant, CountersOk, Transitioned, Credited, MayStart, Muting;
      hide TimesKept, Successful, Unsuccessful, AutoCancelled, Unsettled, Moved, EpochBumped;
      hide NobodyFlagged;
      order := [];
      NobodyNewlyFlagged(specs, rts, depRts);
      CoherentSizes(0, {});
      TimesStandStill(specs, rts, depRts, heap, now);
      if !Exists(|rts|, id) {
        return None, [];
      }
      WeakenAll(id);
      MutedFailed({});
      CountersUnheard();
      ghost var rts0, d0 := rts, depRts;
      var transitioned;
      transitioned, order := TransitionJobState(id, next, reason, propagate, now, {id}, {});
      CoherentSizes(0, if transitioned then {} else {id});
      if transitioned && next.IsFinal() && propagate {
        CascadeKeepsCounters(specs, rts0, rts, d0, depRts, id, next, reason, now, order, muted, echo);
      } else if transitioned {
        NothingAnnounced(rts0, d0, id, next, reason, now, propagate, order);
        SilenceKeepsCounters(specs, rts0, rts, d0, depRts, id, next, reason, now, muted, echo);
        if next.IsFinal() {
          MoveFinished(rts0, id, next, reason, now);
          Mute(id);
        }
      }
      return Some(transitioned), order;
    }

    method FinishJob(id: JobId, now: Time) returns (found: bool, ghost order: seq<JobId>)
      requires Valid()
      modifies `rts, `depRts, `heap, `stateJobs, `groupRunning, `userUsage, `projectUsage, `fairShare, `credits, `muted
      ensures Valid() && Preserves(0, now) && KeepsTimes(now)
      ensures found == Exists(|old(rts)|, id) && Moves(id, Finished, None, true, now, order)
      ensures if 1 <= id <= |old(rts)| && old(rts)[id - 1].state == Running
              then |rts| == |old(rts)|
                   && rts[id - 1] == old(rts)[id - 1].(state := Finished, finishedAt := Some(now), reason := None)
              else unchanged(this)
    {
      hide Coherent, OnTime, InRank, IsQuiet, Expectant, CountersOk, Transitioned, Credited, TimesKept, Moved;
      var result;
      result, order := ChangeState(id, Finished, None, true, now);
      found := result.Some?;
      if Exists(|old(rts)|, id) && old(rts)[id - 1].state.CanTransitionTo(Finished) {
        SourceBecomes(specs, old(rts), rts, old(depRts), depRts, id, Finished, None, now, true, order, echo);
      }
    }

    method FailJob(id: JobId, now: Time) returns (found: bool, ghost order: seq<JobId>)
      requires Valid()
      modifies `rts, `depRts, `heap, `stateJobs, `groupRunning, `userUsage, `projectUsage, `fairShare, `credits, `muted
      ensures Valid() && Preserves(0, now) && KeepsTimes(now)
      ensures found == Exists(|old(rts)|, id) && Moves(id, Failed, None, true, now, order)
      ensures if 1 <= id <= |old(rts)| && old(rts)[id - 1].state == Running
              then |rts| == |old(rts)|
                   && rts[id - 1] == old(rts)[id - 1].(state := Failed, finishedAt := Some(now), reason := None)
              else unchanged(this)
    {
      hide Coherent, OnTime, InRank, IsQuiet, Expectant, CountersOk, Transitioned, Credited, TimesKept, Moved;
      var result;
      result, order := ChangeState(id, Failed, None, true, now);
      found := result.Some?;
      if Exists(|old(rts)|, id) && old(rts)[id - 1].state.CanTransitionTo(Failed) {
        SourceBecomes(specs, old(rts), rts, old(depRts), depRts, id, Failed, None, now, true, order, echo);
      }
    }

    /** Fails a job without telling its dependents. */
    method FailJobWithoutPropagation(id: JobId, now: Time) returns (found: bool)
      requires Valid()
      modifies `rts, `depRts, `heap, `stateJobs, `groupRunning, `userUsage, `projectUsage, `fairShare, `credits, `muted
      ensures Valid() && Preserves(0, now) && KeepsTimes(now)
      ensures found == Exists(|old(rts)|, id) && Moves(id, Failed, None, false, now, [])
      ensures if 1 <= id <= |old(rts)| && old(rts)[id - 1].state == Running
              then |rts| == |old(rts)|
                   && rts[id - 1] == old(rts)[id - 1].(state := Failed, finishedAt := Some(now), reason := None)
              else unchanged(this)
    {
      hide Coherent, OnTime, InRank, IsQuiet, Expectant, CountersOk, Credited, Muting, TimesKept, Moved;
      var result;
      ghost var order;
      result, order := ChangeState(id, Failed, None, false, now);
      found := result.Some?;
      if Exists(|old(rts)|, id) && old(rts)[id - 1].state.CanTransitionTo(Failed) {
        SourceBecomes(specs, old(rts), rts, old(depRts), depRts, id, Failed, None, now, false, [], echo);
      }
    }

    method TimeoutJob(id: JobId, now: Time) returns (found: bool, ghost order: seq<JobId>)
      requires Valid()
      modifies `rts, `depRts, `heap, `stateJobs, `groupRunning, `userUsage, `projectUsage, `fairShare, `credits, `muted
      ensures Valid() && Preserves(0, now) && KeepsTimes(now)
      ensures found == Exists(|old(rts)|, id) && Moves(id, Timeout, None, true, now, order)
      ensures if 1 <= id <= |old(rts)| && old(rts)[id - 1].state == Running
              then |rts| == |old(rts)|
                   && rts[id - 1] == old(rts)[id - 1].(state := Timeout, finishedAt := Some(now), reason := None)
              else unchanged(this)
    {
      hide Coherent, OnTime, InRank, IsQuiet, Expectant, CountersOk, Transitioned, Credited, TimesKept, Moved;
      var result;
      result, order := ChangeState(id, Timeout, None, true, now);
      found := result.Some?;
      if Exists(|old(rts)|, id) && old(rts)[id - 1].state.CanTransitionTo(Timeout) {
        SourceBecomes(specs, old(rts), rts, old(depRts), depRts, id, Timeout, None, now, true, order, echo);
      }
    }

    method CancelJob(id: JobId, reason: Option<Reason>, now: Time) returns (wasRunning: Option<bool>,
                                                                            ghost order: seq<JobId>)
      requires Valid()
      modifies `rts, `depRts, `heap, `stateJobs, `groupRunning, `userUsage, `projectUsage, `fairShare, `credits, `muted
      ensures Valid() && Preserves(0, now) && KeepsTimes(now)
      ensures wasRunning == if Exists(|old(rts)|, id) then Some(old(rts)[id - 1].state.Running?) else None
      ensures Moves(id, Cancelled, Some(reason.GetOr(CancelledByUser)), true, now, order)
      ensures if 1 <= id <= |old(rts)| && old(rts)[id - 1].state in {Queued, Hold, Running}
              then |rts| == |old(rts)|
                   && rts[id - 1] == old(rts)[id - 1].(state := Cancelled, finishedAt := Some(now),
                                                       reason := rts[id - 1].reason)
              else unchanged(this)
      ensures 1 <= id <= |old(rts)| == |rts| && old(rts)[id - 1].state in {Queued, Hold, Running} ==>
                && (reason == None ==> rts[id - 1].reason == Some(CancelledByUser))
                && (reason.Some? && reason.value != WaitingForDependency && reason.value != WaitingForStartTime ==>
                      rts[id - 1].reason == reason)
    {
      hide Coherent, OnTime, InRank, IsQuiet, Expectant, CountersOk, Transitioned, Credited, TimesKept, Moved;
      wasRunning := if Exists(|rts|, id) then Some(rts[id - 1].state.Running?) else None;
      ghost var result;
      result, order := ChangeState(id, Cancelled, Some(reason.GetOr(CancelledByUser)), true, now);
      if Exists(|old(rts)|, id) && old(rts)[id - 1].state.CanTransitionTo(Cancelled) {
        SourceBecomes(specs, old(rts), rts, old(depRts), depRts, id, Cancelled, Some(reason.GetOr(CancelledByUser)),
                      now,
                      true, order, echo);
      }
    }

    method HoldJob(id: JobId, now: Time) returns (found: bool)
      requires Valid()
      modifies `rts, `depRts, `heap, `stateJobs, `groupRunning, `userUsage, `projectUsage, `fairShare, `credits, `muted
      ensures Valid() && Preserves(0, now) && KeepsTimes(now)
      ensures found == Exists(|old(rts)|, id) && Moves(id, Hold, None, true, now, [])
      ensures if 1 <= id <= |old(rts)| && old(rts)[id - 1].state == Queued
              then rts == old(rts)[id - 1 := old(rts)[id - 1].(state := Hold, reason := None)]
              else unchanged(this)
    {
      hide Coherent, OnTime, InRank, IsQuiet, Expectant, CountersOk, Credited, TimesKept, Moved;
      var result;
      ghost var order;
      result, order := ChangeState(id, Hold, None, true, now);
      found := result.Some?;
      if Exists(|old(rts)|, id) && old(rts)[id - 1].state.CanTransitionTo(Hold) {
        SourceBecomes(specs, old(rts), rts, old(depRts), depRts, id, Hold, None, now, true, [], echo);
      }
    }

    /** Puts a held job back in the queue; a job in any other state stays as it is. */
    method ReleaseJob(id: JobId, now: Time) returns (found: bool, ghost order: seq<JobId>)
      requires Valid()
      modifies `rts, `depRts, `heap, `stateJobs, `groupRunning, `userUsage, `projectUsage, `fairShare, `credits, `muted
      ensures Valid() && Preserves(0, now)
      ensures found == Exists(|old(rts)|, id)
      ensures !(found && old(rts)[id - 1].state.Hold?) ==> unchanged(this)
      ensures found && old(rts)[id - 1].state.Hold? ==>
                TookDown(specs, old(rts)[id - 1 := Moved(old(rts)[id - 1], Queued, None, now)], rts, order)
      ensures if 1 <= id <= |old(rts)| && old(rts)[id - 1].state == Hold
              then |rts| == |old(rts)| && QueuedOrDown(rts[id - 1])
                   && rts[id - 1] == old(rts)[id - 1].(state := rts[id - 1].state, reason := rts[id - 1].reason,
                                                       finishedAt := rts[id - 1].finishedAt)
                   && (specs[id - 1].autoCancel && Hopeless(specs[id - 1], old(rts)) ==>
                         rts[id - 1].state == Cancelled)
              else unchanged(this)
      ensures specs == old(specs) && muted == old(muted) && credits == old(credits)
    {
      hide Coherent, OnTime, InRank, IsQuiet, Expectant, CountersOk, TookDown, Moved, Hopeless;
      order := [];
      found := Exists(|rts|, id);
      if found {
        CoherentSizes(0, {});
        var transitioned;
        transitioned, order := ReleaseToQueue(id, now);
        if transitioned {
          QueuedAgain(specs, old(rts), rts, id, order, now);
        }
      }
    }

    /** Sets a begin time and releases the job if it is held. On a job that is already queued this can
        leave a live entry behind, so that the job may start too early. */
    method ReleaseJobAt(id: JobId, at: Time, now: Time) returns (found: bool, ghost order: seq<JobId>)
      requires Valid()
      modifies this
      ensures Valid()
      ensures (old(IsQuiet(0)) ==> IsQuiet(0)) && (old(InRank()) ==> InRank()) && (old(Expectant(0)) ==> Expectant(0))
      ensures old(OnTime(now)) && (at <= now || !old(HasLiveEntry(depRts, heap, id))) ==> OnTime(now)
      ensures !(at <= now || !old(HasLiveEntry(depRts, heap, id))) ==> !OnTime(now)
      ensures found == Exists(|old(rts)|, id)
      ensures if found then Rescheduled(old(specs), specs, id, at) else unchanged(this)
      ensures found && !old(rts)[id - 1].state.Hold? ==> rts == old(rts) && depRts == old(depRts) && heap == old(heap)
      ensures found && old(rts)[id - 1].state.Hold? ==>
                TookDown(specs, old(rts)[id - 1 := Moved(old(rts)[id - 1], Queued, None, now)], rts, order)
      ensures muted == old(muted) && credits == old(credits)
    {
      hide Coherent, OnTime, InRank, IsQuiet, Expectant, CountersOk, TookDown, Moved, HasLiveEntry;
      order := [];
      found := Exists(|rts|, id);
      if !found {
        NoSuchEntry(id);
        return;
      }
      CoherentSizes(0, {});
      LiveMeansQueued(id);
      Reschedule(id, at);
      found, order := ReleaseJob(id, now);
      if old(HasLiveEntry(depRts, heap, id)) && now < at {
        EarlyEntry(id, at, now);
      }
    }

    /** Job `id` is queued, reports that it waits for its begin time, and that time has come. */
    predicate IsDue(id: JobId, now: Time)
      reads `specs, `rts
    {
      && |specs| == |rts| && Exists(|rts|, id)
      && specs[id - 1].scheduledAt.Some? && specs[id - 1].scheduledAt.value <= now
      && rts[id - 1].state.Queued? && rts[id - 1].reason == Some(WaitingForStartTime)
    }

    method DueJobs(now: Time) returns (due: seq<JobId>)
      requires |specs| == |rts|
      ensures Ascending(due) && forall id: JobId :: id in due <==> IsDue(id, now)
    {
      due := [];
      for i := 0 to |specs|
        invariant Ascending(due) && forall id: JobId :: id in due <==> id <= i && IsDue(id, now)
      {
        if IsDue(i + 1, now) {
          AscendingSnoc(due, i + 1);
          due := due + [i + 1];
        }
      }
    }

    /** Enqueues the due jobs, clearing their waiting reason. */
    method ReleaseDueScheduledJobs(now: Time) returns (due: seq<JobId>)
      requires Valid()
      modifies `rts, `heap
      ensures Valid() && Preserves(0, now) && SameButReasons(old(rts), rts)
      ensures Ascending(due) && forall id: JobId :: id in due <==> old(IsDue(id, now))
      ensures forall id: JobId :: id in due ==> Enqueued(id)
      ensures |rts| == |depRts| == |old(rts)|
      ensures forall id: JobId :: Exists(|rts|, id) ==>
                rts[id - 1] == if id in due then Roused(old(rts), depRts, id) else old(rts)[id - 1]
      ensures forall e :: e in heap ==> e in old(heap) || e.job in due
    {
      hide Coherent, OnTime, InRank, IsQuiet, Expectant, CountersOk, Enqueued;
      CoherentSizes(0, {});
      due := DueJobs(now);
      for i := 0 to |due|
        invariant Valid() && Preserves(0, now) && |specs| == |rts| && SameButReasons(old(rts), rts)
        invariant forall k :: 0 <= k < i ==> Enqueued(due[k])
        invariant |rts| == |depRts| == |old(rts)|
        invariant forall id: JobId :: Exists(|rts|, id) ==>
                    rts[id - 1] == if id in due[..i] then Roused(old(rts), depRts, id) else old(rts)[id - 1]
        invariant forall e :: e in heap ==> e in old(heap) || e.job in due
      {
        assert due[..i + 1] == due[..i] + [due[i]];
        assert due[i] !in due[..i];
        assert due[i] in due && old(IsDue(due[i], now));
        ReleaseDueJob(due[i], now);
      }
    }

    /** If job `id` is satisfied, its live entry is in the heap. */
    ghost predicate Enqueued(id: JobId)
      reads `rts, `depRts, `heap
    {
      |rts| == |depRts| && Exists(|rts|, id)
      && (depRts[id - 1].depsSatisfied ==> LiveEntry(rts[id - 1], depRts[id - 1]) in heap)
    }

    /** The runtime of a job whose begin time has come: it waits for its dependencies, or for nothing. */
    static function Roused(rts0: seq<JobRuntime>, d: seq<DependencyRuntime>, id: JobId): JobRuntime
      requires |rts0| == |d| && Exists(|rts0|, id)
    {
      rts0[id - 1].(reason := if d[id - 1].depsSatisfied then None else Some(WaitingForDependency))
    }

    method ReleaseDueJob(id: JobId, now: Time)
      requires Valid() && |specs| == |rts| && Exists(|rts|, id) && rts[id - 1].state.Queued?
      requires |rts| == |depRts| && rts[id - 1].reason == Some(WaitingForStartTime)
      requires specs[id - 1].scheduledAt.Some? && specs[id - 1].scheduledAt.value <= now
      modifies `rts, `heap
      ensures Valid() && Preserves(0, now) && SameButReasons(old(rts), rts)
      ensures |rts| == |depRts| == |old(rts)| && rts == old(rts)[id - 1 := Roused(old(rts), depRts, id)]
      ensures Enqueued(id) && forall j: JobId :: old(Enqueued(j)) ==> Enqueued(j)
      ensures forall e :: e in heap ==> e in old(heap) || e.job == id
    {
      hide Coherent, OnTime, InRank, IsQuiet, Expectant, CountersOk;
      CoherentSizes(0, {});
      ghost var rts0 := rts;
      WeakenQuiet(id);
      SyncQueuedWaitReason(id, now, 0, {});
      SyncTakesNothingDown(rts0, id, now);
      WeakenAll(id);
      EnqueueIfReady(id, now, 0, {id}, {});
      SyncedOnce(rts0, id, now);
      InTimeIfUpToDate(id, now);
      IdIs(id, {});
    }

    // ---------- editing jobs ----------

    /** Changes a job's begin time. */
    method Reschedule(id: JobId, at: Time)
      requires Valid() && Exists(|specs|, id)
      modifies `specs
      ensures Valid() && Rescheduled(old(specs), specs, id, at)
      ensures (old(IsQuiet(0)) ==> IsQuiet(0)) && (old(InRank()) ==> InRank()) && (old(Expectant(0)) ==> Expectant(0))
      ensures forall t :: old(OnTime(t)) ==> (OnTime(t) <==> at <= t || !HasLiveEntry(depRts, heap, id))
    {
      hide JobsInv, QueueInv, CountersOk, Quiet, NoneEarly, NoneOutranked, NoneMissed, NoneLost, HasLiveEntry, Replay;
      hide Indexes, Counts, Tallies, DependencyKeys, UserKeys, ProjectKeys, StateKeys, GroupShares, UserShares;
      hide ProjectShares;
      NothingIsLost();
      specs := specs[id - 1 := specs[id - 1].(scheduledAt := Some(at))];
      RescheduleKeepsJobs(old(specs), specs, id, at, rts, credits, muted);
      RescheduleKeepsQueue(old(specs), specs, id, at, rts, depRts, heap);
      RescheduleKeepsCounters(old(specs), specs, id, at, rts, depRts, muted, echo);
      RescheduleKeepsKeys(old(specs), specs, id, at, rts);
      if old(Expectant(0)) {
        RescheduleMissesNothing(old(specs), specs, id, at, rts, depRts, heap);
      }
      forall t | old(OnTime(t)) ensures OnTime(t) <==> at <= t || !HasLiveEntry(depRts, heap, id) {
        RescheduleOnTime(old(specs), specs, id, at, depRts, heap, t);
      }
    }

    /** Moves the job in the reverse graph from its old dependencies to its new ones and works out
        whether it can run. */
    method ReplaceJobDependencies(id: JobId, oldDeps: seq<JobId>, newDeps: seq<JobId>, ghost keys: seq<set<JobId>>,
                                  now: Time)
      returns (ghost order: seq<JobId>)
      requires Stale(id, keys)
      requires keys[id - 1] - Elements(oldDeps) + Elements(newDeps) == Elements(specs[id - 1].Dependencies())
      modifies `rts, `depRts, `heap, `dependents, `stateJobs, `groupRunning, `userUsage, `projectUsage, `fairShare,
               `credits
      ensures Valid() && Preserves(id, now)
      ensures TookDown(specs, old(rts), rts, order) && credits == old(credits)
      ensures |specs| == |rts| == |depRts| && KeptExact(specs, old(rts), old(depRts), specs, rts, depRts, {id}, order)
    {
      hide KeptExact, JobsInv, QueueInv, CountersOk, Quiet, NoneEarly, NoneOutranked, NoneMissed, TookDown, Replay;
      hide Indexes, DependencyKeys, JobIndexesOk, Elements;
      RemoveJobDependenciesIndex(id, oldDeps, keys);
      ghost var keys1 := keys[id - 1 := keys[id - 1] - Elements(oldDeps)];
      InsertJobDependenciesIndex(id, newDeps, keys1);
      assert keys1[id - 1 := keys1[id - 1] + Elements(newDeps)] == DependencyKeys(specs);
      order := RefreshJobReadiness(id, now);
    }

    /** Overwrites the specification and the requests of a job that has not started. */
    method EditJob(id: JobId, spec: JobSpec, runtime: JobRuntime)
      requires Valid() && |specs| == |rts| && Exists(|specs|, id) && rts[id - 1].state.IsPending()
      requires SameOwner(specs[id - 1], spec) && SameProgress(rts[id - 1], runtime)
      requires spec.scheduledAt == specs[id - 1].scheduledAt && Distinct(spec.Dependencies())
      modifies `specs, `rts
      ensures specs == old(specs)[id - 1 := spec] && rts == old(rts)[id - 1 := runtime] && |specs| == |rts| == |depRts|
      ensures Edited(old(specs), specs, old(rts), rts, id)
      ensures Stale(id, old(DependencyKeys(specs)))
      ensures (old(IsQuiet(0)) ==> IsQuiet(id)) && (old(Expectant(0)) ==> Expectant(id))
      ensures forall t :: old(OnTime(t)) ==> OnTime(t)
      ensures old(InRank()) ==> (InRank() <==> !OutrankedBy(heap, id, runtime))
      ensures spec == old(specs)[id - 1] && runtime.priority == old(rts)[id - 1].priority
              && runtime.timeLimit == old(rts)[id - 1].timeLimit ==>
                && Valid() && (old(IsQuiet(0)) ==> IsQuiet(0)) && (old(InRank()) ==> InRank())
                && (old(Expectant(0)) ==> Expectant(0))
    {
      hide JobsInv, QueueInv, CountersOk, Quiet, NoneEarly, NoneOutranked, NoneMissed, Replay, SameOwner, SameProgress;
      hide OutrankedBy;
      hide Indexes, Counts, Tallies, DependencyKeys, UserKeys, ProjectKeys, StateKeys, GroupShares, UserShares;
      hide ProjectShares;
      hide Distinct;
      specs, rts := specs[id - 1 := spec], rts[id - 1 := runtime];
      assert Edited(old(specs), specs, old(rts), rts, id);
      EditKeepsJobs(old(specs), specs, old(rts), rts, id, credits, muted);
      EditKeepsQueue(old(specs), specs, old(rts), rts, id, depRts, heap);
      EditKeepsCounters(old(specs), specs, old(rts), rts, id, depRts, muted, echo);
      EditKeepsOrder(old(specs), specs, old(rts), rts, id, depRts, heap);
      EditKeepsKeys(old(specs), specs, old(rts), rts, id);
      if old(Expectant(0)) {
        SkipMore(old(specs), old(rts), depRts, heap, id);
        OneChanged(old(specs), specs, old(rts), rts, depRts, depRts, heap, heap, id);
      }
      if spec == old(specs)[id - 1] && runtime.priority == old(rts)[id - 1].priority
         && runtime.timeLimit == old(rts)[id - 1].timeLimit {
        assert specs == old(specs);
        MinorEditKeepsQueue(specs, old(rts), rts, id, depRts, heap);
        MinorEditKeepsCounters(specs, old(rts), rts, id, depRts, heap, muted, echo);
        if old(Expectant(0)) {
          MinorEditMissesNothing(specs, old(rts), rts, id, depRts, heap);
        }
      }
    }

    /** Whether a job may be given these dependencies. */
    method ValidateJobUpdate(id: JobId, newDeps: Option<seq<JobId>>) returns (ok: bool)
      requires |specs| == |rts|
      ensures ok <==> && Exists(|rts|, id) && rts[id - 1].state.IsPending()
                      && (newDeps.Some? ==>
                            forall d :: d in newDeps.value ==> Exists(|rts|, d) && !Reaches(specs, d, id))
    {
      if !Exists(|rts|, id) || !rts[id - 1].state.IsPending() {
        return false;
      }
      if newDeps.None? {
        return true;
      }
      for i := 0 to |newDeps.value|
        invariant forall k :: 0 <= k < i ==> Exists(|rts|, newDeps.value[k])
      {
        if !Exists(|rts|, newDeps.value[i]) {
          return false;
        }
      }
      ok := ValidateNoCircularDependency(specs, id, newDeps.value);
    }

    /** Whether an update request is acceptable for job `id`. */
    ghost predicate Acceptable(id: JobId, update: JobUpdate)
      reads `specs, `rts
    {
      && |specs| == |rts| && 1 <= id <= |rts| && (rts[id - 1].state.Queued? || rts[id - 1].state.Hold?)
      && !(rts[id - 1].sharing.Shared? && update.gpuMemoryLimit == Some(None))
      && (update.dependsOnIds.Some? ==>
            forall d :: d in update.dependsOnIds.value ==> 1 <= d <= |rts| && !Reaches(specs, d, id))
    }

    /** Applies a user's update to a job that has not started. Lowering the job's rank leaves entries in
        the heap that outrank it. */
    method UpdateJob(id: JobId, update: JobUpdate, now: Time) returns (ok: bool, ghost order: seq<JobId>)
      requires Valid() && (update.dependsOnIds.Some? ==> Distinct(update.dependsOnIds.value))
      modifies this
      ensures Valid()
      ensures ok <==> old(Acceptable(id, update))
      ensures !ok ==> unchanged(this)
      ensures (old(IsQuiet(0)) ==> IsQuiet(0)) && (old(OnTime(now)) ==> OnTime(now))
      ensures old(Expectant(0)) ==> Expectant(0)
      ensures ok && old(InRank()) ==>
                (InRank() <==> !OutrankedBy(old(heap), id, update.ApplyToRuntime(old(rts)[id - 1])))
      ensures ok ==> specs == old(specs)[id - 1 := update.ApplyToSpec(old(specs)[id - 1])]
      ensures ok ==> TookDown(specs, old(rts)[id - 1 := update.ApplyToRuntime(old(rts)[id - 1])], rts, order)
      ensures ok ==> KeptExact(old(specs), old(rts), old(depRts), specs, rts, depRts,
                               if update.dependsOnIds.Some? || update.AffectsReadyQueue() then {id} else {}, order)
      ensures ok ==>
                && |specs| == |rts| == |old(rts)| == |old(specs)| && 1 <= id <= |specs|
                && ChangedAsAsked(update, old(specs)[id - 1], specs[id - 1], old(rts)[id - 1], rts[id - 1])
      ensures ok && OnlyRequests(update) ==>
                depRts == old(depRts) && heap == old(heap) && specs == old(specs)
                && rts == old(rts)[id - 1 := rts[id - 1]]
      ensures ok && old(Acyclic(specs)) ==> Acyclic(specs)
      ensures muted == old(muted) && credits == old(credits)
    {
      hide Coherent, OnTime, InRank, IsQuiet, Expectant, CountersOk, TookDown, Stale, Acyclic, Reaches, OutrankedBy;
      hide Distinct;
      hide KeptExact, Edited, ChangedAsAsked, ReadinessIsOld, IsDoomed, QueuedDependents;
      CoherentSizes(0, {});
      order := [];
      ok := ValidateJobUpdate(id, update.dependsOnIds);
      if !ok || !update.Allowed(rts[id - 1]) {
        return false, [];
      }
      var oldDeps := specs[id - 1].Dependencies();
      var spec, runtime := update.ApplyToSpec(specs[id - 1]), update.ApplyToRuntime(rts[id - 1]);
      ghost var keys := DependencyKeys(specs);
      UpdatedDistinct(id, update);
      UpdateKeepsAcyclic(specs, specs[id - 1 := spec], id, update);
      EditJob(id, spec, runtime);
      ghost var edited := rts;
      if update.dependsOnIds.Some? {
        var newDeps := spec.Dependencies();
        assert keys[id - 1] - Elements(oldDeps) + Elements(newDeps) == Elements(newDeps);
        order := ReplaceJobDependencies(id, oldDeps, newDeps, keys, now);
        RankAfterRefresh(edited, old(heap), id, order);
        EditThenRenew(old(specs), specs, old(rts), edited, old(depRts), id, rts, depRts, order);
      } else if update.AffectsReadyQueue() {
        StaleInPlace(id, keys);
        order := RefreshJobReadiness(id, now);
        RankAfterRefresh(edited, old(heap), id, order);
        EditThenRenew(old(specs), specs, old(rts), edited, old(depRts), id, rts, depRts, order);
      } else {
        assert specs == old(specs);
        MinorEditKeepsExact(specs, old(rts), rts, depRts, id);
        StartsWithNothing();
      }
      UpdateMeans(old(specs), old(rts), id, update, order);
    }

    lemma UpdateMeans(specs0: seq<JobSpec>, rts0: seq<JobRuntime>, id: JobId, update: JobUpdate, order: seq<JobId>)
      requires |specs0| == |rts0| && Exists(|rts0|, id)
      requires specs == specs0[id - 1 := update.ApplyToSpec(specs0[id - 1])]
      requires TookDown(specs, rts0[id - 1 := update.ApplyToRuntime(rts0[id - 1])], rts, order)
      ensures |specs| == |rts| == |rts0|
      ensures ChangedAsAsked(update, specs0[id - 1], specs[id - 1], rts0[id - 1], rts[id - 1])
    {
      hide Blames;
    }

    // ---------- retries ----------

    /** Makes one job that waits for `failed` wait for `retry` instead. */
    method RetargetJob(id: JobId, failed: JobId, retry: JobId, now: Time) returns (ghost order: seq<JobId>)
      requires Valid() && |specs| == |rts| && DependsOn(specs, id, failed) && rts[id - 1].state.IsPending()
      modifies this
      ensures Valid() && Preserves(0, now)
      ensures specs == old(specs)[id - 1 := RetargetedSpec(old(specs)[id - 1], failed, retry)]
      ensures |specs| == |rts| == |depRts| && Cancels(old(rts), rts, order)
      ensures KeptExact(old(specs), old(rts), old(depRts), specs, rts, depRts, {id}, order)
      ensures muted == old(muted) && credits == old(credits)
    {
      hide Coherent, OnTime, InRank, IsQuiet, Expectant, CountersOk, TookDown, Cancels, Stale, OutrankedBy, Replaced;
      hide KeptExact, Edited;
      var deps := specs[id - 1].Dependencies();
      var newDeps := ReplaceDependency(deps, failed, retry);
      var spec := specs[id - 1].(dependsOnIds := newDeps,
                                 dependsOn := if |newDeps| == 1 then Some(newDeps[0]) else None);
      assert spec == RetargetedSpec(specs[id - 1], failed, retry);
      ghost var keys := DependencyKeys(specs);
      SameRank(id);
      EditJob(id, spec, rts[id - 1]);
      assert rts == old(rts);
      assert keys[id - 1] - Elements([failed]) + Elements(newDeps) == Elements(newDeps);
      order := ReplaceJobDependencies(id, [failed], newDeps, keys, now);
      EditThenRenew(old(specs), specs, old(rts), old(rts), old(depRts), id, rts, depRts, order);
      TookDownCancels(specs, old(rts), rts, order);
      CoherentSizes(0, {});
    }

    lemma NoElements()
      ensures Elements<JobId>([]) == {}
    {
    }

    lemma OneMoreElement(s: seq<JobId>, x: JobId)
      ensures Elements(s + [x]) == Elements(s) + {x}
    {
    }

    /** Retargeting the first job on the list, after those in `updated`. */
    lemma OneRetargeted(specs0: seq<JobSpec>, rts0: seq<JobRuntime>, d0: seq<DependencyRuntime>, specs1: seq<JobSpec>,
                        rts1: seq<JobRuntime>, d1: seq<DependencyRuntime>, failed: JobId, retry: JobId, id: JobId,
                        rest: seq<JobId>, updated: seq<JobId>, order: seq<JobId>, more: seq<JobId>)
      requires KeptExact(specs0, rts0, d0, specs1, rts1, d1, Elements(updated), order)
      requires Retargeting(specs0, specs1, failed, retry, Elements(updated)) && Cancels(rts0, rts1, order)
      requires failed != retry && WaitersIn(specs1, rts1, failed, [id] + rest)
      requires ToVisit(specs1, failed, [id] + rest, updated) && Exists(|specs1|, id)
      requires specs == specs1[id - 1 := RetargetedSpec(specs1[id - 1], failed, retry)]
      requires Cancels(rts1, rts, more) && KeptExact(specs1, rts1, d1, specs, rts, depRts, {id}, more)
      ensures KeptExact(specs0, rts0, d0, specs, rts, depRts, Elements(updated + [id]), order + more)
      ensures Retargeting(specs0, specs, failed, retry, Elements(updated + [id])) && Cancels(rts0, rts, order + more)
      ensures WaitersIn(specs, rts, failed, rest) && ToVisit(specs, failed, rest, updated + [id])
    {
      hide KeptExact, Retargeting, Cancels, WaitersIn, ToVisit, RetargetedSpec, Elements, DependsOn;
      var list := [id] + rest;
      assert list[1..] == rest;
      VisitNext(specs1, failed, list, updated);
      KeptThenKept(specs0, rts0, d0, specs1, rts1, d1, specs, rts, depRts, Elements(updated), order, {id}, more);
      OneMoreElement(updated, id);
      CancelsCompose(rts0, rts1, rts, order, more);
      RetargetingGrows(specs0, specs1, specs, failed, retry, updated, id);
      Visited(specs1, specs, failed, list, updated);
      WaitersMoved(specs1, specs, rts1, rts, failed, retry, list, more);
    }

    /** Makes the jobs that still wait for `failed` wait for its retry `retry` instead. */
    method RetargetDependentsToRetry(failed: JobId, retry: JobId, now: Time)
      returns (updated: seq<JobId>, ghost order: seq<JobId>)
      requires Valid() && failed != retry
      modifies this
      ensures Valid() && Preserves(0, now)
      ensures Retargeting(old(specs), specs, failed, retry, Elements(updated))
      ensures !Awaited(specs, rts, failed)
      ensures |specs| == |rts| == |depRts| && Cancels(old(rts), rts, order)
      ensures KeptExact(old(specs), old(rts), old(depRts), specs, rts, depRts, Elements(updated), order)
      ensures muted == old(muted) && credits == old(credits)
    {
      hide KeptExact, Coherent, OnTime, InRank, IsQuiet, Expectant, CountersOk, SpecsOk, Cancels, Retargeting;
      hide WaitersIn, RetargetedSpec, Awaited;
      hide ToVisit, Elements, DependsOn, Lookup, Ascending;
      CoherentSizes(0, {});
      var list := Lookup(dependents, failed);
      AllWaitersListed(failed, list);
      updated, order := [], [];
      NothingRetargeted(specs, failed, retry);
      NothingVisited(specs, failed, list);
      CancelsNothing(rts);
      NothingKept(specs, rts, depRts);
      NoElements();
      assert list[0..] == list;
      for i := 0 to |list|
        invariant Valid() && Preserves(0, now) && |specs| == |rts| == |depRts|
        invariant KeptExact(old(specs), old(rts), old(depRts), specs, rts, depRts, Elements(updated), order)
        invariant Retargeting(old(specs), specs, failed, retry, Elements(updated))
        invariant Cancels(old(rts), rts, order)
        invariant WaitersIn(specs, rts, failed, list[i..])
        invariant ToVisit(specs, failed, list[i..], updated)
        invariant muted == old(muted) && credits == old(credits)
      {
        var id := list[i];
        NextOf(list, i);
        assert [id] + list[i + 1..] == list[i..];
        VisitNext(specs, failed, list[i..], updated);
        ghost var rts1, specs1, d1 := rts, specs, depRts;
        if rts[id - 1].state.IsPending() {
          ghost var more := RetargetJob(id, failed, retry, now);
          OneRetargeted(old(specs), old(rts), old(depRts), specs1, rts1, d1, failed, retry, id, list[i + 1..],
                        updated, order, more);
          updated, order := updated + [id], order + more;
        } else {
          WaitersSkip(specs, rts, failed, list[i..]);
        }
      }
      assert list[|list|..] == [];
      NobodyWaits(specs, rts, failed);
    }

    /** Ends a running job. A failure is retried if that is allowed: the retry is submitted, the waiting
        dependents (`moved`) are moved over to it, cancelling what can no longer run (`down`), and only then
        does the job fail, in silence. */
    method FinalizeJobWithRetry(id: JobId, final: JobState, mayRetry: bool, now: Time)
      returns (result: Option<Option<JobId>>, ghost moved: seq<JobId>, ghost down: seq<JobId>)
      requires Valid()
      modifies this
      ensures Valid() && Preserves(0, now)
      ensures result.Some? <==>
                (final.Failed? || final.Timeout?) && Exists(|old(rts)|, id) && old(rts)[id - 1].state.Running?
      ensures result.None? ==> unchanged(this)
      ensures result.Some? ==> (result.value.Some? <==> final.Failed? && mayRetry)
      ensures result.Some? && result.value.None? ==>
                && specs == old(specs) && (exists order :: Moves(id, final, None, true, now, order))
                && |rts| == |old(rts)| && rts[id - 1].state == final && rts[id - 1].finishedAt == Some(now)
      ensures result.Some? && result.value.Some? ==>
                && result.value.value == |old(specs)| + 1 && Retried(old(specs), specs, id, Elements(moved))
                && |rts| == |specs| && Exists(|rts|, id) && rts[id - 1].state.Failed? && !Awaited(specs, rts, id)
                && HasJustFailed(old(rts)[id - 1], rts[id - 1], now) && OthersOnlyGoDown(old(rts), rts, id)
                && BeginsAs(old(rts)[id - 1], rts[result.value.value - 1], result.value.value)
                && RunningShrinks(old(rts) + [Submitted(old(rts)[id - 1], result.value.value)], rts)
                && RanStays(old(rts), rts)
                && KeptExact(old(specs), old(rts), old(depRts), specs, rts, depRts,
                             Elements(moved) + {result.value.value}, down + [id])
      ensures muted == old(muted)
      ensures result.Some? && result.value.Some? && old(Punctual(credits, now)) ==> Punctual(credits, now)
    {
      hide Coherent, OnTime, InRank, IsQuiet, Expectant, CountersOk, TookDown, Cancels, Retargeting, Transitioned;
      hide Credited;
      hide Awaited, Submitted, Acyclic, Reaches, Distinct, Moved, Elements, Punctual, RunningShrinks, KeptExact;
      hide RanStays, TimesKept;
      CoherentSizes(0, {});
      moved, down := [], [];
      if !Exists(|rts|, id) || !(final.Failed? || final.Timeout?) || !rts[id - 1].state.Running? {
        return None, [], [];
      }
      if final.Failed? && mayRetry {
        var retry;
        retry, moved, down := RetryRunningJob(id, now);
        return Some(Some(retry)), moved, down;
      }
      var found;
      ghost var order;
      if final.Failed? {
        found, order := FailJob(id, now);
      } else {
        found, order := TimeoutJob(id, now);
      }
      assert Moves(id, final, None, true, now, order);
      return Some(None), [], [];
    }

    method RetryRunningJob(id: JobId, now: Time) returns (retry: JobId, moved: seq<JobId>, ghost down: seq<JobId>)
      requires Valid() && |specs| == |rts| == |depRts| && Exists(|rts|, id) && rts[id - 1].state.Running?
      modifies this
      ensures Valid() && Preserves(0, now)
      ensures retry == |old(specs)| + 1 && Retried(old(specs), specs, id, Elements(moved))
      ensures |rts| == |specs| && Exists(|rts|, id) && rts[id - 1].state.Failed? && !Awaited(specs, rts, id)
      ensures HasJustFailed(old(rts)[id - 1], rts[id - 1], now) && BeginsAs(old(rts)[id - 1], rts[retry - 1], retry)
      ensures OthersOnlyGoDown(old(rts), rts, id)
      ensures RunningShrinks(old(rts) + [Submitted(old(rts)[id - 1], retry)], rts) && RanStays(old(rts), rts)
      ensures KeptExact(old(specs), old(rts), old(depRts), specs, rts, depRts, Elements(moved) + {retry}, down + [id])
      ensures muted == old(muted) && (old(Punctual(credits, now)) ==> Punctual(credits, now))
    {
      hide Coherent, OnTime, InRank, IsQuiet, Expectant, CountersOk, TookDown, Cancels, Credited, Punctual;
      hide RunningShrinks, KeptExact, Awaited, Acyclic, Reaches, Distinct, Elements, RetrySpec, RetargetedSpec;
      hide Submitted, RanStays;
      ghost var specs0, rt := specs, Submitted(rts[id - 1], |rts| + 1);
      retry, moved, down := SubmitAndRetarget(id, now);
      ghost var rts2, d2 := rts, depRts;
      FailRetried(id, now);
      RetryOutcome(old(rts), rts2, id, now);
      RunningShrinksTrans(old(rts) + [rt], rts2, rts);
      RanStaysTrans(old(rts), rts2, rts);
      KeptThenKept(specs0, old(rts), old(depRts), specs, rts2, d2, specs, rts, depRts, Elements(moved) + {retry}, down,
                   {}, [id]);
      FewerRenewed(specs0, old(rts), old(depRts), Elements(moved) + {retry}, down + [id]);
    }

    lemma RetryOutcome(rts0: seq<JobRuntime>, rts1: seq<JobRuntime>, id: JobId, now: Time)
      requires Exists(|rts0|, id) && OthersOnlyGoDown(rts0, rts1, 0) && rts0[id - 1].state.Running?
      requires |rts| == |rts1| && HasJustFailed(rts1[id - 1], rts[id - 1], now) && rts == rts1[id - 1 := rts[id - 1]]
      ensures HasJustFailed(rts0[id - 1], rts[id - 1], now) && OthersOnlyGoDown(rts0, rts, id)
    {
      assert LeftOrCancelled(rts0[id - 1], rts1[id - 1]);
    }

    /** Fails a running job that nobody waits for any more, in silence. */
    method FailRetried(id: JobId, now: Time)
      requires Valid() && |specs| == |rts| == |depRts| && Exists(|rts|, id) && rts[id - 1].state.Running?
      requires !Awaited(specs, rts, id)
      modifies this
      ensures Valid() && Preserves(0, now) && |specs| == |rts| == |depRts| && specs == old(specs)
      ensures Exists(|rts|, id) && rts[id - 1].state.Failed? && !Awaited(specs, rts, id)
      ensures HasJustFailed(old(rts)[id - 1], rts[id - 1], now) && rts == old(rts)[id - 1 := rts[id - 1]]
      ensures RunningShrinks(old(rts), rts) && RanStays(old(rts), rts)
      ensures KeptExact(specs, old(rts), old(depRts), specs, rts, depRts, {}, [id])
      ensures muted == old(muted) && (old(Punctual(credits, now)) ==> Punctual(credits, now))
    {
      hide Coherent, OnTime, InRank, IsQuiet, Expectant, CountersOk, Credited, Punctual, RunningShrinks, KeptExact;
      hide Awaited, RanStays, TimesKept;
      ghost var rts0, d0, credits0 := rts, depRts, credits;
      var found := FailJobWithoutPropagation(id, now);
      StillNotAwaited(specs, rts0, rts, id);
      TransitionShrinks(specs, rts0, rts, d0, depRts, id, Failed, None, now, false, [], echo);
      TransitionStays(specs, rts0, rts, d0, depRts, id, Failed, None, now, false, [], echo);
      SilenceKeepsExact(specs, rts0, rts, d0, depRts, id, Failed, None, now);
      if Punctual(credits0, now) {
        CreditedPunctually(specs, rts0, credits0, credits, id, Failed, None, now, now);
      }
    }

    lemma FewerRenewed(specs0: seq<JobSpec>, rts0: seq<JobRuntime>, d0: seq<DependencyRuntime>, renewed: set<JobId>,
                       order: seq<JobId>)
      requires KeptExact(specs0, rts0, d0, specs, rts, depRts, renewed + {}, order)
      ensures KeptExact(specs0, rts0, d0, specs, rts, depRts, renewed, order)
    {
      assert renewed + {} == renewed;
    }

    /** Submits the retry of a running job and moves the job's waiting dependents over to it. */
    method SubmitAndRetarget(id: JobId, now: Time)
      returns (retry: JobId, moved: seq<JobId>, ghost down: seq<JobId>)
      requires Valid() && |specs| == |rts| == |depRts| && Exists(|rts|, id) && rts[id - 1].state.Running?
      modifies this
      ensures Valid() && Preserves(0, now) && |specs| == |rts| == |depRts|
      ensures retry == |old(specs)| + 1 && Retried(old(specs), specs, id, Elements(moved)) && !Awaited(specs, rts, id)
      ensures Exists(|rts|, id) && rts[id - 1].state.Running?
      ensures BeginsAs(old(rts)[id - 1], rts[retry - 1], retry) && OthersOnlyGoDown(old(rts), rts, 0)
      ensures RunningShrinks(old(rts) + [Submitted(old(rts)[id - 1], retry)], rts) && RanStays(old(rts), rts)
      ensures KeptExact(old(specs), old(rts), old(depRts), specs, rts, depRts, Elements(moved) + {retry}, down)
      ensures muted == old(muted) && credits == old(credits)
    {
      hide Coherent, OnTime, InRank, IsQuiet, Expectant, CountersOk, TookDown, Cancels, Retargeting, Credited;
      hide RunningShrinks, KeptExact, Awaited, Acyclic, Reaches, Distinct, Elements, RetrySpec, RetargetedSpec;
      hide Submitted, RanStays, BeginsAs, OthersOnlyGoDown, Hopeless;
      ghost var specs0, rt := specs, Submitted(rts[id - 1], |rts| + 1);
      DependenciesDistinct(id);
      ghost var order, more;
      retry, order := SubmitJob(RetrySpec(specs[id - 1]), rts[id - 1], now);
      ghost var specs1, rts1, d1 := specs, rts, depRts;
      RunningStaysPut(specs, old(rts), rt, rts1, order, id);
      TookDownShrinks(specs, old(rts) + [rt], rts1, order);
      SubmissionStays(specs, old(rts), rt, rts1, order);
      OthersAfterSubmission(specs, old(rts), rt, rts1, order, 0);
      moved, more := RetargetDependentsToRetry(id, retry, now);
      RunningIsSpared(rts1, rts, more, id);
      OthersAfterCascade(old(rts), rts1, rts, more, 0);
      BegunStays(rts1, rts, more, old(rts)[id - 1], retry);
      CascadeShrinks(rts1, rts, more);
      RunningShrinksTrans(old(rts) + [rt], rts1, rts);
      CascadeStays(rts1, rts, more);
      RanStaysTrans(old(rts), rts1, rts);
      assert Retried(specs0, specs, id, Elements(moved));
      RetargetedElsewhere(specs1, id, retry, Elements(moved));
      KeptThenKept(specs0, old(rts), old(depRts), specs1, rts1, d1, specs, rts, depRts, {retry}, order, Elements(moved),
                   more);
      assert {retry} + Elements(moved) == Elements(moved) + {retry};
      down := order + more;
    }

    lemma RetargetedElsewhere(specs1: seq<JobSpec>, failed: JobId, retry: JobId, done: set<JobId>)
      requires Retargeting(specs1, specs, failed, retry, done)
      ensures |specs1| == |specs|
      ensures forall id: JobId :: Exists(|specs|, id) && id !in done ==> specs[id - 1] == specs1[id - 1]
    {
    }

    // ---------- the second sweep ----------

    lemma NobodyGoesDown()
      ensures OthersOnlyGoDown(rts, rts, 0)
    {
    }

    lemma FlaggedMeans(id: JobId)
      requires |specs| == |rts| == |depRts| && Exists(|rts|, id)
      ensures Flagged(specs, rts, depRts, id) <==>
                rts[id - 1].state.Queued? && specs[id - 1].autoCancel && depRts[id - 1].impossible
    {
    }

    /** Cancels a flagged job for the sake of `source`. */
    method CancelFlagged(id: JobId, source: JobId, now: Time) returns (ghost tail: seq<JobId>)
      requires Valid() && Flagged(specs, rts, depRts, id)
      modifies `rts, `depRts, `heap, `stateJobs, `groupRunning, `userUsage, `projectUsage, `fairShare, `credits, `muted
      ensures Valid() && Preserves(0, now) && |specs| == |rts| == |depRts| && FlagsNobody()
      ensures Cancels(old(rts), rts, [id] + tail)
      ensures credits == old(credits) && muted == old(muted) && !old(IsQuiet(0))
      ensures Unsettled(rts) <= old(Unsettled(rts)) && id !in Unsettled(rts) && id in old(Unsettled(rts))
    {
      hide Coherent, OnTime, InRank, IsQuiet, Expectant, CountersOk, Transitioned, Unsettled, MayStart, Muting;
      hide TimesKept, NobodyFlagged, Cancels;
      NotQuiet(id);
      QueuedEarnsNothing(id, source, now, {});
      WeakenAll(id);
      ghost var rts0, d0 := rts, depRts;
      var result;
      result, tail := ChangeState(id, Cancelled, Some(DependencyFailed(source)), true, now);
      CoherentSizes(0, {});
      CancellationCancels(specs, rts0, rts, d0, depRts, id, source, now, tail, echo);
    }

    /** Cancels the flagged jobs that wait for `source`, and puts them down as further sources. */
    method SweepSource(source: JobId, failed: JobId, cancelled: seq<JobId>, sources: seq<JobId>,
                       seen: set<(JobId, JobId)>, now: Time, ghost rts0: seq<JobRuntime>)
      returns (cancelled': seq<JobId>, sources': seq<JobId>, seen': set<(JobId, JobId)>)
      requires Valid() && |specs| == |rts| == |depRts| && OthersOnlyGoDown(rts0, rts, 0)
      requires SweptSoFar(specs, rts, depRts, failed, cancelled, sources, seen, source)
      requires GoneDown(rts0, rts, cancelled)
      modifies `rts, `depRts, `heap, `stateJobs, `groupRunning, `userUsage, `projectUsage, `fairShare, `credits, `muted
      ensures Valid() && Preserves(0, now) && |specs| == |rts| == |depRts| && OthersOnlyGoDown(rts0, rts, 0)
      ensures SweptSoFar(specs, rts, depRts, failed, cancelled', sources', seen', -1) && GoneDown(rts0, rts, cancelled')
      ensures old(IsQuiet(0)) ==> cancelled' == cancelled && unchanged(this)
      ensures credits == old(credits) && muted == old(muted)
      ensures Unsettled(rts) <= old(Unsettled(rts))
      ensures Unsettled(rts) == old(Unsettled(rts)) ==> |sources'| == |sources|
    {
      hide Coherent, OnTime, InRank, IsQuiet, Expectant, CountersOk, Unsettled;
      hide Flagged, SweptFor, NobodyFlagged, OthersOnlyGoDown, Cancels, SweptSoFar, GoneDown;
      hide Lookup;
      cancelled', sources', seen' := cancelled, sources, seen;
      var list := Lookup(dependents, source);
      DependentsAreListed(source);
      for i := 0 to |list|
        invariant Valid() && Preserves(0, now) && |specs| == |rts| == |depRts| && OthersOnlyGoDown(rts0, rts, 0)
        invariant SweptSoFar(specs, rts, depRts, failed, cancelled', sources', seen', source)
        invariant GoneDown(rts0, rts, cancelled')
        invariant forall k :: 0 <= k < i ==> (source, list[k]) in seen'
        invariant old(IsQuiet(0)) ==> cancelled' == cancelled && unchanged(this)
        invariant credits == old(credits) && muted == old(muted)
        invariant Unsettled(rts) <= old(Unsettled(rts))
        invariant Unsettled(rts) == old(Unsettled(rts)) ==> |sources'| == |sources|
      {
        var id := list[i];
        assert id in list;
        if (source, id) !in seen' {
          FlaggedMeans(id);
          if rts[id - 1].state.Queued? && specs[id - 1].autoCancel && depRts[id - 1].impossible {
            ghost var rts1, d1 := rts, depRts;
            ghost var tail := CancelFlagged(id, source, now);
            OneMoreGone(rts0, rts1, rts, cancelled', id, tail);
            FlaggedMeans(id);
            SweepCancels(specs, rts1, rts, d1, depRts, failed, cancelled', sources', seen', source, id);
            cancelled', sources' := cancelled' + [id], sources' + [id];
          } else {
            SweepSkips(specs, rts, depRts, failed, cancelled', sources', seen', source, id);
          }
          seen' := seen' + {(source, id)};
        }
      }
      SweepFinishes(specs, rts, depRts, failed, cancelled', sources', seen', source, list);
    }

    /** Cancels the queued jobs that are flagged as impossible downstream of a failed job. */
    method AutoCancelDependentJobs(failed: JobId, now: Time) returns (cancelled: seq<JobId>)
      requires Valid()
      modifies `rts, `depRts, `heap, `stateJobs, `groupRunning, `userUsage, `projectUsage, `fairShare, `credits, `muted
      ensures Valid() && Preserves(0, now)
      ensures old(IsQuiet(0)) ==> cancelled == [] && unchanged(this)
      ensures |specs| == |rts| == |depRts| && OthersOnlyGoDown(old(rts), rts, 0)
      ensures forall x :: x in cancelled ==>
                1 <= x <= |rts| && old(rts)[x - 1].state == Queued && rts[x - 1].state == Cancelled
      ensures forall source :: source == failed || source in cancelled ==> SweptFor(specs, rts, depRts, source)
      ensures credits == old(credits) && muted == old(muted)
    {
      hide Coherent, OnTime, InRank, IsQuiet, Expectant, CountersOk, Unsettled;
      hide Flagged, SweptFor, NobodyFlagged, OthersOnlyGoDown, Cancels, SweptSoFar, GoneDown;
      cancelled := [];
      var sources, seen: set<(JobId, JobId)> := [failed], {};
      CoherentSizes(0, {});
      NobodyGoesDown();
      NobodyGone(rts);
      SweepStarts(specs, rts, depRts, failed);
      while sources != []
        invariant Valid() && Preserves(0, now) && |specs| == |rts| == |depRts| && OthersOnlyGoDown(old(rts), rts, 0)
        invariant SweptSoFar(specs, rts, depRts, failed, cancelled, sources, seen, -1)
        invariant GoneDown(old(rts), rts, cancelled)
        invariant old(IsQuiet(0)) ==> cancelled == [] && unchanged(this)
        invariant credits == old(credits) && muted == old(muted)
        decreases Unsettled(rts), |sources|
      {
        SweepTurnsTo(specs, rts, depRts, failed, cancelled, sources, seen);
        var source := sources[|sources| - 1];
        cancelled, sources, seen :=
          SweepSource(source, failed, cancelled, sources[..|sources| - 1], seen, now, old(rts));
      }
      SweepEnds(specs, rts, depRts, old(rts), failed, cancelled, seen);
    }

    // ---------- rebuilding after a restart ----------

    /** Rebuilds the user, state and project indexes and the running totals from the job vectors. */
    method RebuildJobIndexes()
      requires |specs| == |rts|
      modifies `userJobs, `stateJobs, `projectJobs, `groupRunning, `userUsage, `projectUsage
      ensures JobIndexesOk()
    {
      hide Indexes, Counts, Tallies, UserKeys, ProjectKeys, StateKeys, GroupShares, UserShares, ProjectShares;
      hide Lookup, RecordOne, CountAt;
      userJobs, stateJobs, projectJobs := map[], map[], map[];
      groupRunning, userUsage, projectUsage := map[], map[], map[];
      BeforeTheFirst();
      for i := 0 to |specs|
        invariant |specs| == |rts|
        invariant Indexes(userJobs, UserKeys(specs[..i])) && Indexes(stateJobs, StateKeys(rts[..i]))
        invariant Indexes(projectJobs, ProjectKeys(specs[..i])) && Counts(groupRunning, GroupShares(rts[..i]))
        invariant Tallies(userUsage, UserShares(specs[..i], rts[..i]))
        invariant Tallies(projectUsage, ProjectShares(specs[..i], rts[..i]))
      {
        var spec, rt := specs[i], rts[i];
        NextUser(userJobs, specs, i);
        NextState(stateJobs, rts, i);
        NextProject(projectJobs, specs, i);
        NextTotals(specs, rts, i, groupRunning, userUsage, projectUsage);
        userJobs := userJobs[spec.submittedBy := Lookup(userJobs, spec.submittedBy) + [i + 1]];
        stateJobs := stateJobs[rt.state := Lookup(stateJobs, rt.state) + [i + 1]];
        if spec.project.Some? {
          projectJobs := projectJobs[spec.project.value := Lookup(projectJobs, spec.project.value) + [i + 1]];
        }
        if rt.state.Running? {
          if rt.group.Some? {
            groupRunning := groupRunning[rt.group.value := CountAt(groupRunning, rt.group.value) + 1];
          }
          userUsage := RecordOne(userUsage, spec.submittedBy, rt.gpus);
          if spec.project.Some? {
            projectUsage := RecordOne(projectUsage, spec.project.value, rt.gpus);
          }
        }
      }
      assert specs[..|specs|] == specs && rts[..|specs|] == rts;
    }

    /** Rebuilds the reverse dependency graph. */
    method RebuildDependents()
      modifies `dependents
      ensures Indexes(dependents, DependencyKeys(specs))
    {
      hide Indexes, DependencyKeys, FirstKeys;
      dependents := map[];
      NoKeys(specs);
      for i := 0 to |specs|
        invariant Indexes(dependents, FirstKeys(specs, i))
      {
        NextKeys(specs, i);
        InsertJobDependenciesIndex(i + 1, specs[i].Dependencies(), FirstKeys(specs, i));
      }
    }

    /** Recomputes every dependency runtime and enqueues the jobs that are ready. */
    method RebuildReadiness(now: Time)
      requires |specs| == |rts| && RuntimesOk(rts)
      modifies `rts, `depRts, `heap
      ensures ReadyUpTo(specs, rts, depRts, heap, |rts|, now) && SameButReasons(old(rts), rts)
    {
      hide ReadyUpTo, RuntimesOk, Recomputed, WaitReason;
      depRts := seq(|specs|, i => NO_DEPENDENCIES);
      heap := multiset{};
      NoneReady(specs, rts, depRts, now);
      for i := 0 to |specs|
        invariant |specs| == |rts| == |depRts| && SameButReasons(old(rts), rts)
        invariant ReadyUpTo(specs, rts, depRts, heap, i, now)
      {
        ghost var rts0, d0, heap0 := rts, depRts, heap;
        IdsOk(old(rts), i + 1);
        var dep := BuildDependencyRuntime(i + 1);
        depRts := depRts[i := dep];
        rts := rts[i := rts[i].(reason := SyncedReason(rts[i].reason, WaitReason(specs[i], rts[i], depRts[i], now)))];
        if rts[i].state.Queued? && !specs[i].StartsAfter(now) && depRts[i].depsSatisfied {
          heap := heap + multiset{LiveEntry(rts[i], depRts[i])};
        }
        NextReady(specs, rts0, rts, d0, depRts, heap0, heap, i, now);
      }
    }

    /** Rebuilds all indexes. Those that had been kept up to date in place come out the same. */
    method RebuildIndexes()
      requires |specs| == |rts|
      modifies `dependents, `userJobs, `stateJobs, `projectJobs, `groupRunning, `userUsage, `projectUsage
      ensures IndexesOk()
      ensures old(IndexesOk()) ==>
                && dependents == old(dependents) && userJobs == old(userJobs) && stateJobs == old(stateJobs)
                && projectJobs == old(projectJobs) && groupRunning == old(groupRunning)
                && userUsage == old(userUsage) && projectUsage == old(projectUsage)
    {
      hide Indexes, Counts, Tallies, DependencyKeys, UserKeys, ProjectKeys, StateKeys, GroupShares, UserShares;
      hide ProjectShares;
      RebuildJobIndexes();
      RebuildDependents();
      if old(IndexesOk()) {
        SameIndexes(old(dependents), old(userJobs), old(stateJobs), old(projectJobs), old(groupRunning),
                    old(userUsage), old(projectUsage));
      }
    }

    /** Rebuilds everything that is derived from the job vectors, as after loading them from disk. */
    method RebuildUserJobsIndex(now: Time)
      requires nextJobId == |specs| + 1 && JobsInv(specs, rts, credits, muted) && fairShare == Replay(credits, decay)
      modifies `rts, `depRts, `dependents, `heap, `userJobs, `stateJobs, `projectJobs, `groupRunning, `userUsage,
               `projectUsage, `muted
      ensures Valid() && OnTime(now) && InRank() && Expectant(0) && muted == {}
      ensures SameButReasons(old(rts), rts)
      ensures IsQuiet(0) <==> NoneDead(specs, old(rts))
      ensures forall id: JobId :: Exists(|specs|, id) && |specs| == |rts| == |depRts| ==>
                depRts[id - 1] == Recomputed(specs[id - 1], rts, 0)
      ensures old(IndexesOk()) ==>
                && dependents == old(dependents) && userJobs == old(userJobs) && stateJobs == old(stateJobs)
                && projectJobs == old(projectJobs) && groupRunning == old(groupRunning)
                && userUsage == old(userUsage) && projectUsage == old(projectUsage)
    {
      hide JobsInv, QueueInv, CountersOk, NoneEarly, NoneOutranked, NoneMissed, Replay, ReadyUpTo, Recomputed;
      hide RuntimesOk;
      hide Indexes, DependencyKeys, JobIndexesOk, SameButReasons, NoneDead, Quiet;
      JobsInvParts();
      RebuildIndexes();
      label indexed:
      RebuildReadiness(now);
      IndexesIgnoreReasons@indexed();
      muted := {};
      RebuiltIsValid(old(rts), old(muted), now);
      RebuiltIsQuiet(old(rts));
    }

    // ---------- what a scheduling cycle does to jobs ----------

    lemma HeapIsOk()
      requires Valid()
      ensures HeapOk(rts, depRts, heap, 0) && RuntimesOk(rts) && |rts| == |depRts|
    {
      hide HeapOk, RuntimesOk, SpecsOk, StartedSafely, GpusExclusive, LedgerOk, Unsuccessful, IndexesOk, CountersOk;
      hide FlagsOk, NoneLost, Replay;
    }

    /** Empties the ready heap and returns the jobs that are ready to run, best first. */
    method DrainReady() returns (runnable: seq<JobId>)
      requires Valid()
      modifies `heap
      ensures heap == multiset{} && Coherent(0, Elements(runnable) + old(Hidden(rts, heap))) && CountersRight(0)
      ensures Distinct(runnable) && forall id: JobId :: id in runnable <==> Found(rts, depRts, old(heap), id)
      ensures InHeapOrder(rts, depRts, runnable)
      ensures forall i, j :: 0 <= i < j < |runnable| ==> ComesFirst(rts, runnable[i], runnable[j])
    {
      hide Coherent, CountersOk, Found, Live, RanksBelow, Hidden, Distinct, AheadOfHeap, InHeapOrder, HeapOk;
      hide ComesFirst, RuntimesOk, Drained;
      runnable := [];
      var seen: set<JobId> := {};
      HeapIsOk();
      DrainStarts(rts, depRts, heap);
      NothingDrained(rts, depRts, heap);
      while heap != multiset{}
        invariant Drained(rts, depRts, old(heap), heap, seen, runnable) && AheadOfHeap(rts, depRts, heap, runnable)
        decreases |heap|
      {
        ghost var top := HasTop(heap);
        var e :| e in heap && forall x :: x in heap ==> x == e || RanksBelow(x, e);
        if e.job in seen {
          DrainSkips(rts, depRts, heap, runnable, e);
          DrainRepeat(rts, depRts, old(heap), heap, seen, runnable, e);
          heap := heap - multiset{e};
          continue;
        }
        PoppedFrom(rts, depRts, old(heap), heap, seen, runnable, e);
        DrainKeepsOrder(rts, depRts, old(heap), heap, runnable, e);
        DrainFirst(rts, depRts, old(heap), heap, seen, runnable, e);
        heap := heap - multiset{e};
        seen := seen + {e.job};
        if Live(rts, depRts, e) {
          runnable := runnable + [e.job];
        }
      }
      AheadMeansOrder(rts, depRts, heap, runnable);
      DrainEnds(rts, depRts, old(heap), seen, runnable);
      HeapOrderMeans(rts, depRts, runnable);
      DrainedCoherent(runnable);
    }

    /** Takes note of the GPUs given to a job, or takes them away. */
    method SetGpuIds(id: JobId, gpus: Option<seq<nat>>, ghost lost: set<JobId>)
      requires Coherent(0, lost) && |specs| == |rts| && Exists(|rts|, id)
      requires gpus.None? || !rts[id - 1].state.Running?
      modifies `rts
      ensures Coherent(0, lost) && rts == old(rts)[id - 1 := old(rts)[id - 1].(gpuIds := gpus)]
      ensures old(CountersRight(0)) ==> CountersRight(0)
      ensures (old(IsQuiet(0)) ==> IsQuiet(0)) && (old(InRank()) ==> InRank()) && (old(Expectant(0)) ==> Expectant(0))
    {
      hide Replay, SpecsOk, RuntimesOk, StartedSafely, GpusExclusive, LedgerOk, Successful, Unsuccessful, FlagsOk;
      hide HeapOk;
      hide NoneLost, CountersOk, Quiet, NoneOutranked, NoneMissed, Indexes, Counts, Tallies, DependencyKeys, UserKeys;
      hide ProjectKeys;
      hide StateKeys, GroupShares, UserShares, ProjectShares;
      rts := rts[id - 1 := rts[id - 1].(gpuIds := gpus)];
      GpusKeepJobs(specs, old(rts), rts, id, gpus, credits);
      GpusKeepQueue(specs, old(rts), rts, id, gpus, depRts, heap, 0, lost);
      GpusKeepCounters(specs, old(rts), rts, id, gpus, depRts, heap, muted, echo);
      GpusKeepTotals(old(rts), id, gpus);
      if old(Expectant(0)) {
        GpusMissNothing(specs, old(rts), rts, id, gpus, depRts, heap);
      }
    }

    /** Starts a queued job on the given GPUs. */
    method StartJob(id: JobId, gpus: seq<nat>, now: Time, ghost lost: set<JobId>, ghost left: set<JobId>)
      returns (transitioned: bool)
      requires Coherent(0, lost) && lost <= left + {id} && CountersRight(0) && |specs| == |rts|
      requires Exists(|rts|, id) && rts[id - 1].state.Queued? && DependenciesMet(specs[id - 1], Successful(rts))
      requires GpusFit(rts[id - 1 := rts[id - 1].(gpuIds := Some(gpus))], id)
      modifies `rts, `depRts, `heap, `stateJobs, `groupRunning, `userUsage, `projectUsage, `fairShare, `credits
      ensures transitioned && Coherent(0, left) && CountersRight(0) && heap == old(heap)
      ensures rts == old(rts)[id - 1 := Moved(old(rts)[id - 1].(gpuIds := Some(gpus)), Running, None, now)]
      ensures |depRts| == |old(depRts)| && depRts == old(depRts)[id - 1 := depRts[id - 1]]
      ensures Preserves(0, now) && credits == old(credits)
    {
      hide Coherent, OnTime, InRank, IsQuiet, Expectant, CountersOk, Successful, Unsuccessful, GpusFit, DependenciesMet;
      hide Transitioned;
      hide Credited, Moved, AutoCancelled, Unsettled;
      SetGpuIds(id, Some(gpus), lost);
      ghost var rts1, d1 := rts, depRts;
      SetGpusKeepsSets(old(rts), rts1, id, Some(gpus));
      WeakenQuiet(id);
      MutedIsFailed(lost);
      RunningEarnsNothing(id, now);
      ghost var order;
      CoherentSizes(0, lost);
      transitioned, order := TransitionJobState(id, Running, None, true, now, lost, left);
      NothingAnnounced(rts1, d1, id, Running, None, now, true, order);
      SilenceKeepsCounters(specs, rts1, rts, d1, depRts, id, Running, None, now, muted, echo);
    }

    lemma QueuedReason(rts0: seq<JobRuntime>, id: JobId)
      requires Exists(|rts0|, id) && rts0[id - 1].state.Queued?
      requires |rts| == |rts0| && rts == rts0[id - 1 := rts0[id - 1].(reason := rts[id - 1].reason)]
      ensures SameButReasons(rts0, rts) && AutoCancelled(rts0) <= AutoCancelled(rts)
    {
    }

    /** Leaves a queued job waiting for `reason` and puts it back in the heap. */
    method Requeue(id: JobId, reason: Reason, now: Time, ghost lost: set<JobId>, ghost left: set<JobId>)
      requires Coherent(0, lost) && lost <= left + {id} && CountersRight(0) && |specs| == |rts|
      requires Exists(|rts|, id) && rts[id - 1].state.Queued?
      modifies `rts, `heap
      ensures Coherent(0, left) && CountersRight(0)
      ensures rts == old(rts)[id - 1 := old(rts)[id - 1].(reason := Some(reason))]
      ensures |depRts| == |rts| && heap == old(heap) +
                if !specs[id - 1].StartsAfter(now) && depRts[id - 1].depsSatisfied
                then multiset{LiveEntry(old(rts)[id - 1], depRts[id - 1])} else multiset{}
      ensures KeepsQueue(0, now)
    {
      hide Coherent, OnTime, InRank, IsQuiet, Expectant, CountersOk, Successful, Unsuccessful, AutoCancelled, Unsettled;
      CoherentSizes(0, lost);
      ghost var rts0 := rts;
      SetReason(id, Some(reason), 0, lost);
      QueuedReason(rts0, id);
      ReasonsKeepCounters(specs, rts0, rts, depRts, muted, echo, 0);
      EnqueueIfReady(id, now, 0, lost, left);
    }
  }
}
