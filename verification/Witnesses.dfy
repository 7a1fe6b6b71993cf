/** Concrete cases in which the obvious claim about the code is false. */
module Witnesses {
  import opened Types
  import opened BeginTimes
  import opened JobTables
  import opened Counting
  import opened Dependencies
  import opened JobInvariants
  import opened ReadyQueue
  import opened Cascades
  import opened Counters
  import opened Draining
  import opened Reservations
  import opened Claiming
  import opened TableInvariants
  import opened CycleCheck
  import opened Cycles
  import opened Edits
  import opened Exactness
  import opened FairShare
  import opened Ledger
  import opened Submission
  import opened Occupancies
  import opened Quotas
  import opened Refreshing
  import opened Resources
  import opened Schedulers
  import opened Tally

  function PlainSpec(deps: seq<JobId>, mode: DependencyMode): JobSpec {
    JobSpec("user", None, None, deps, Some(mode), true, None)
  }

  const PLAIN_RUNTIME :=
    JobRuntime(0, JobState.Queued, 10, 0, GpuSharingMode.Exclusive,
               None, None, None, None, None, None, None, None, None)

  // ---------- tables to start from ----------

  /** Where nothing has failed and jobs depend on earlier ones only, nobody is taken down. */
  lemma NobodyToBlame(specs: seq<JobSpec>, rts0: seq<JobRuntime>, rts1: seq<JobRuntime>, order: seq<JobId>)
    requires TookDown(specs, rts0, rts1, order) && Unsuccessful(rts0) == {}
    requires forall a: JobId, d: JobId :: DependsOn(specs, a, d) ==> d < a
    ensures order == []
  {
    if order != [] {
      var id := order[0];
      assert id in order;
      NoneUpTo(specs, rts0, rts1, order, id);
    }
  }

  lemma BlamesEarlier(specs: seq<JobSpec>, rts0: seq<JobRuntime>, rts1: seq<JobRuntime>, order: seq<JobId>, id: JobId)
    returns (cause: JobId)
    requires TookDown(specs, rts0, rts1, order) && Unsuccessful(rts0) == {} && id in order
    requires forall a: JobId, d: JobId :: DependsOn(specs, a, d) ==> d < a
    ensures cause in order && cause < id
  {
    hide Unsuccessful, Cancels;
    assert Blames(specs, rts1, id);
    cause := rts1[id - 1].reason.value.cause;
    assert DependsOn(specs, id, cause);
    CancelsSets(rts0, rts1, order);
    assert cause in Elements(order);
  }

  lemma {:induction false} NoneUpTo(specs: seq<JobSpec>, rts0: seq<JobRuntime>, rts1: seq<JobRuntime>,
                                    order: seq<JobId>, n: nat)
    requires TookDown(specs, rts0, rts1, order) && Unsuccessful(rts0) == {}
    requires forall a: JobId, d: JobId :: DependsOn(specs, a, d) ==> d < a
    ensures forall id: JobId :: id in order ==> id > n
  {
    hide Unsuccessful, TookDown, DependsOn;
    if n == 0 {
      TookDownExist(specs, rts0, rts1, order);
    } else {
      NoneUpTo(specs, rts0, rts1, order, n - 1);
      if n in order {
        var cause := BlamesEarlier(specs, rts0, rts1, order, n);
      }
    }
  }

  lemma TookDownExist(specs: seq<JobSpec>, rts0: seq<JobRuntime>, rts1: seq<JobRuntime>, order: seq<JobId>)
    requires TookDown(specs, rts0, rts1, order)
    ensures forall id: JobId :: id in order ==> id > 0
  {
  }

  /** One job is submitted to an empty table: it is queued and in the heap. */
  method SubmitFirst(jobs: JobTable, spec: JobSpec, runtime: JobRuntime)
    requires jobs.Valid() && jobs.InRank() && jobs.OnTime(0) && |jobs.specs| == |jobs.rts| == 0
    requires spec.Dependencies() == [] && spec.scheduledAt.None?
    modifies jobs
    ensures jobs.Valid() && jobs.InRank() && jobs.OnTime(0) && jobs.specs == [spec]
    ensures |jobs.rts| == |jobs.depRts| == 1 && jobs.rts[0] == Submitted(runtime, 1).(reason := jobs.rts[0].reason)
    ensures jobs.depRts[0].depsSatisfied && LiveEntry(jobs.rts[0], jobs.depRts[0]) in jobs.heap
  {
    hide JobTable.Coherent, JobTable.CountersRight, JobTable.IsQuiet, JobTable.Expectant, JobTable.InRank;
    hide JobTable.OnTime, TookDown, KeptExact, LiveEntry;
    var id;
    ghost var order, before, rts0 := [], jobs.rts, [Submitted(runtime, 1)];
    id, order := jobs.SubmitJob(spec, runtime, 0);
    assert before + rts0 == rts0 && jobs.specs == [spec] && Exists(1, 1);
    assert Unsuccessful(rts0) == {};
    NobodyToBlame([spec], rts0, jobs.rts, order);
    TookDownCancels([spec], rts0, jobs.rts, order);
    CancelsNobody(rts0, jobs.rts);
    jobs.SatisfiedExactlyWhenMet(1);
    jobs.NothingIsLost();
  }

  /** A table with one job, just submitted. */
  method SubmitOne(spec: JobSpec, runtime: JobRuntime, decay: Decay) returns (jobs: JobTable)
    requires spec.Dependencies() == [] && spec.scheduledAt.None?
    ensures fresh(jobs) && jobs.Valid() && jobs.InRank() && jobs.OnTime(0) && jobs.specs == [spec]
    ensures |jobs.rts| == |jobs.depRts| == 1 && jobs.rts[0] == Submitted(runtime, 1).(reason := jobs.rts[0].reason)
    ensures jobs.depRts[0].depsSatisfied && LiveEntry(jobs.rts[0], jobs.depRts[0]) in jobs.heap
  {
    hide JobTable.Coherent, JobTable.CountersRight, JobTable.IsQuiet, JobTable.Expectant, JobTable.InRank;
    hide JobTable.OnTime, LiveEntry;
    jobs := new JobTable(true, decay);
    SubmitFirst(jobs, spec, runtime);
  }

  lemma CancelsNobody(rts0: seq<JobRuntime>, rts1: seq<JobRuntime>)
    requires Cancels(rts0, rts1, [])
    ensures |rts1| == |rts0|
    ensures forall i :: 0 <= i < |rts0| ==> rts1[i] == rts0[i].(reason := rts1[i].reason)
  {
    forall i | 0 <= i < |rts0| ensures rts1[i] == rts0[i].(reason := rts1[i].reason) {
      assert Exists(|rts0|, i + 1);
    }
  }

  // ---------- failures announced twice ----------

  function Diamond(): (specs: seq<JobSpec>)
    ensures |specs| == 4
  {
    [PlainSpec([], All), PlainSpec([1], All), PlainSpec([], All), PlainSpec([2, 3], Any)]
  }

  lemma CountOne(a: JobId, ids: set<JobId>)
    ensures CountIn([a], ids) == if a in ids then 1 else 0
  {
    assert [a][..0] == [];
  }

  lemma CountTwo(a: JobId, b: JobId, ids: set<JobId>)
    ensures CountIn([a, b], ids) == (if a in ids then 1 else 0) + (if b in ids then 1 else 0)
  {
    assert [a, b][..1] == [a];
    CountOne(a, ids);
  }

  lemma ThirdIsSpared(rts0: seq<JobRuntime>, rts1: seq<JobRuntime>, order: seq<JobId>)
    requires |rts0| == 4 && Cancels(rts0, rts1, order) && Justified(Diamond(), rts1, 1, order)
    ensures 3 !in order
  {
    forall i | 0 <= i < |order| ensures order[i] != 3 {
      assert JustifiedAt(Diamond(), rts1, 1, order[i], order[..i]);
    }
  }

  lemma SecondGoes(moved: seq<JobRuntime>, rts1: seq<JobRuntime>, d0: seq<DependencyRuntime>,
                   d1: seq<DependencyRuntime>, order: seq<JobId>)
    requires |moved| == 4 && Exists(4, 2) && moved[1].state.Queued? && Cancels(moved, rts1, order)
    requires CountersMoved(Diamond(), d0, d1, multiset{}, Announced(1, order, true))
    requires FlagsOk(Diamond(), d1, 0) && Quiet(Diamond(), rts1, d1, 0)
    ensures 2 in order
  {
    hide Announced;
    var specs := Diamond();
    assert Exists(4, 1) && Exists(4, 3) && Exists(4, 4);
    assert SpecsOk(specs);
    assert 1 in specs[1].Dependencies();
    AnnouncedIsFelt(specs, d0, d1, 1, order, true, 2, 1);
    assert d1[1].impossible;
  }

  lemma FourthIsDoomed(rts0: seq<JobRuntime>, d0: seq<DependencyRuntime>, d1: seq<DependencyRuntime>, order: seq<JobId>)
    requires |rts0| == 4 && Exists(4, 4) && Distinct(order) && 2 in order && 3 !in order
    requires forall i :: 0 <= i < 4 ==> !rts0[i].state.IsFinal()
    requires CountersOk(Diamond(), rts0, d0, {}, true, 0) && rts0[3].state.IsPending()
    requires CountersMoved(Diamond(), d0, d1, multiset{}, Announced(1, order, true)) && FlagsOk(Diamond(), d1, 0)
    ensures d1[3].impossible
  {
    hide Announced;
    var specs := Diamond();
    assert specs[3].Dependencies() == [2, 3];
    CountTwo(2, 3, Successful(rts0));
    CountTwo(2, 3, Unsuccessful(rts0));
    CountTwo(2, 3, Unsuccessful(rts0) - {});
    CountTwo(2, 3, AutoCancelled(rts0));
    CountTwo(2, 3, {1});
    CountTwo(2, 3, Elements(order));
    HitsAnnounced([2, 3], 1, order, true);
    HitsNone([2, 3]);
    assert d1[3].terminalNonSuccess == 2 && d1[3].success == 0;
  }

  /** Job 1 fails, job 2 depends on it, and job 4 needs one of jobs 2 and 3. As the code is written,
      the cascade from job 1 cancels job 4 too, though job 3 is still queued and could succeed. */
  lemma CancelledTooEarly(rts0: seq<JobRuntime>, rts1: seq<JobRuntime>, d0: seq<DependencyRuntime>,
                          d1: seq<DependencyRuntime>, order: seq<JobId>)
    requires |rts0| == |d0| == 4
    requires rts0[0].state.Running? && (forall i :: 1 <= i < 4 ==> rts0[i].state.Queued?)
    requires CountersOk(Diamond(), rts0, d0, {}, true, 0)
    requires Transitioned(Diamond(), rts0, rts1, d0, d1, 1, JobState.Failed, None, 0, true, order, true)
    requires FlagsOk(Diamond(), d1, 0) && Quiet(Diamond(), rts1, d1, 0)
    ensures |rts1| == |d1| == 4 && rts1[2].state.Queued? && rts1[3].state.Cancelled?
    ensures d1[3].impossible && !Recomputed(Diamond()[3], rts1, 0).impossible
  {
    hide Announced, CountersMoved, CountersOk, Justified;
    var moved := rts0[0 := Moved(rts0[0], JobState.Failed, None, 0)];
    assert Exists(4, 1) && Exists(4, 2) && Exists(4, 3) && Exists(4, 4);
    ThirdIsSpared(moved, rts1, order);
    SecondGoes(moved, rts1, d0, d1, order);
    FourthIsDoomed(rts0, d0, d1, order);
    assert Diamond()[3].Dependencies() == [2, 3];
    CountTwo(2, 3, Successful(rts1));
    CountTwo(2, 3, Unsuccessful(rts1));
  }

  /** The jobs of the diamond, submitted to an empty table. */
  method SubmitDiamond(decay: Decay) returns (jobs: JobTable)
    ensures fresh(jobs) && jobs.Valid() && jobs.IsQuiet(0) && jobs.muted == {} && jobs.echo
    ensures jobs.specs == Diamond() && |jobs.rts| == |jobs.depRts| == 4
    ensures forall rt :: rt in jobs.rts ==> rt.state.Queued? && rt.gpus == 0
  {
    hide JobTable.Coherent, JobTable.CountersRight, JobTable.IsQuiet, JobTable.Expectant, JobTable.InRank;
    hide JobTable.OnTime, TookDown, KeptExact, Distinct, Acyclic;
    jobs := new JobTable(true, decay);
    for i := 0 to 4
      invariant fresh(jobs) && jobs.Valid() && jobs.IsQuiet(0) && jobs.muted == {} && jobs.echo
      invariant jobs.specs == Diamond()[..i] && |jobs.rts| == i
      invariant forall rt :: rt in jobs.rts ==> rt.state.Queued? && rt.gpus == 0
    {
      ghost var order, rts0 := [], jobs.rts;
      var spec := Diamond()[i];
      DiamondIsOrdered(i, Diamond()[..i + 1]);
      var id;
      id, order := jobs.SubmitJob(spec, PLAIN_RUNTIME, 0);
      assert Diamond()[..i] + [spec] == Diamond()[..i + 1];
      DiamondSpared(rts0, jobs.rts, i, order);
    }
    jobs.CoherentSizes(0, {});
    assert Diamond()[..4] == Diamond();
  }

  lemma DiamondIsOrdered(i: nat, specs: seq<JobSpec>)
    requires i < 4 && specs == Diamond()[..i + 1]
    ensures Distinct(Diamond()[i].Dependencies())
    ensures forall a: JobId, d: JobId :: DependsOn(specs, a, d) ==> d < a
  {
    assert Diamond()[3].Dependencies() == [2, 3];
    forall a: JobId, d: JobId | DependsOn(specs, a, d) ensures d < a {
      assert a == 2 || a == 4;
    }
  }

  lemma DiamondSpared(rts0: seq<JobRuntime>, rts1: seq<JobRuntime>, i: nat, order: seq<JobId>)
    requires i < 4 && |rts0| == i && forall rt :: rt in rts0 ==> rt.state.Queued? && rt.gpus == 0
    requires TookDown(Diamond()[..i + 1], rts0 + [Submitted(PLAIN_RUNTIME, i + 1)], rts1, order)
    ensures |rts1| == i + 1 && forall rt :: rt in rts1 ==> rt.state.Queued? && rt.gpus == 0
  {
    hide TookDown;
    var between := rts0 + [Submitted(PLAIN_RUNTIME, i + 1)];
    assert forall rt :: rt in between ==> rt.state.Queued? && rt.gpus == 0;
    NoneFailed(between);
    DiamondIsOrdered(i, Diamond()[..i + 1]);
    NobodyToBlame(Diamond()[..i + 1], between, rts1, order);
    TookDownCancels(Diamond()[..i + 1], between, rts1, order);
    CancelsNobody(between, rts1);
    forall rt | rt in rts1 ensures rt.state.Queued? && rt.gpus == 0 {
      var k :| 0 <= k < |rts1| && rts1[k] == rt;
      assert between[k] in between;
    }
  }

  lemma NoneFailed(rts: seq<JobRuntime>)
    requires forall rt :: rt in rts ==> rt.state.Queued?
    ensures Unsuccessful(rts) == {}
  {
    assert forall i :: 0 <= i < |rts| ==> rts[i] in rts;
  }

  /** That state is reached: the four jobs are submitted, job 1 starts and fails, and job 4 is cancelled while
      job 3, which it needs no more than job 2, is still queued. */
  method DiamondCancelsTooEarly(decay: Decay) returns (jobs: JobTable)
    ensures fresh(jobs) && jobs.Valid() && jobs.specs == Diamond() && |jobs.rts| == 4
    ensures jobs.rts[2].state.Queued? && jobs.rts[3].state.Cancelled?
    ensures !DependenciesDead(jobs.specs[3], Successful(jobs.rts), Unsuccessful(jobs.rts))
  {
    hide JobTable.Coherent, JobTable.Expectant, JobTable.InRank, CountersOk, Quiet, DependenciesDead;
    hide JobTable.OnTime, Transitioned, Successful, Unsuccessful, Credited, Recomputed, Moved, TimesKept, GpusFit;
    jobs := SubmitDiamond(decay);
    ghost var rts0 := jobs.rts;
    assert Exists(4, 1) && rts0[0] in rts0 && rts0[1] in rts0 && rts0[2] in rts0 && rts0[3] in rts0;
    NoGpusFit(rts0, 1);
    var transitioned := jobs.StartJob(1, [], 0, {}, {});
    StartedOnNothing(rts0, jobs.rts);
    ghost var rts1, d1 := jobs.rts, jobs.depRts;
    jobs.CoherentSizes(0, {});
    var found;
    ghost var order;
    found, order := jobs.FailJob(1, 0);
    jobs.CoherentSizes(0, {});
    jobs.FlagsAreRight();
    CancelledTooEarly(rts1, jobs.rts, d1, jobs.depRts, order);
    RecomputedMeaning(Diamond()[3], jobs.rts, 0);
  }

  lemma NoGpusFit(rts: seq<JobRuntime>, id: JobId)
    requires Exists(|rts|, id) && rts[id - 1].gpus == 0
    ensures GpusFit(rts[id - 1 := rts[id - 1].(gpuIds := Some([]))], id)
  {
  }

  lemma StartedOnNothing(rts0: seq<JobRuntime>, rts1: seq<JobRuntime>)
    requires |rts0| == 4 && rts1 == rts0[0 := Moved(rts0[0].(gpuIds := Some([])), JobState.Running, None, 0)]
    ensures rts1[0].state.Running? && forall i :: 1 <= i < 4 ==> rts1[i] == rts0[i]
  {
  }

  // ---------- a dependency named twice ----------

  /** A job that names the same dependency twice waits for two successes but hears of one: when its only
      dependency finishes it is still not satisfied, though its dependencies are met. */
  lemma NamedTwice(rts: seq<JobRuntime>, epoch: nat)
    requires |rts| == 2 && rts[0].state.Finished?
    ensures var spec := PlainSpec([1, 1], All);
      && DependenciesMet(spec, Successful(rts))
      && !Counted(spec, WithFlags(All, 2, 0, 0, epoch), true).depsSatisfied
      && Elements(spec.Dependencies()) == {1}
  {
    assert Exists(2, 1);
    assert PlainSpec([1, 1], All).Dependencies() == [1, 1];
  }

  /** Counters after `n` more successes. */
  function Heard(spec: JobSpec, dep: DependencyRuntime, n: nat): DependencyRuntime {
    if n == 0 then dep else Counted(spec, Heard(spec, dep, n - 1), true)
  }

  lemma {:induction false} HeardMeans(spec: JobSpec, epoch: nat, n: nat)
    ensures var total := |spec.Dependencies()|;
            Heard(spec, WithFlags(spec.Mode(), total, 0, 0, epoch), n) == WithFlags(spec.Mode(), total, n, 0, epoch)
  {
    if n == 0 {
    } else {
      HeardMeans(spec, epoch, n - 1);
    }
  }

  /** From empty counters, hearing once of each different dependency satisfies a job that waits for all of
      them if and only if it names none twice. */
  lemma SatisfiedWhenDistinct(spec: JobSpec, epoch: nat)
    requires spec.Mode().All?
    ensures var deps := spec.Dependencies();
            Heard(spec, WithFlags(All, |deps|, 0, 0, epoch), |Elements(deps)|).depsSatisfied <==> Distinct(deps)
  {
    hide Heard, Distinct;
    HeardMeans(spec, epoch, |Elements(spec.Dependencies())|);
    ElementsSize(spec.Dependencies());
  }

  // ---------- a rank lowered while queued ----------

  /** A queued job whose priority was lowered has its live entry in the heap, and still the next drain
      does not find it: the older entry comes first and is stale. */
  lemma LoweredRankIsLost(rts: seq<JobRuntime>, deps: seq<DependencyRuntime>, heap: multiset<ReadyEntry>)
    requires rts == [PLAIN_RUNTIME.(id := 1, priority := 5)]
    requires deps == [WithFlags(All, 0, 0, 0, 2)]
    requires heap == multiset{ReadyEntry(1, 1, 10, 100), ReadyEntry(1, 2, 5, 100)}
    ensures HeapOk(rts, deps, heap, 0) && LiveEntry(rts[0], deps[0]) in heap && deps[0].depsSatisfied
    ensures !Found(rts, deps, heap, 1)
  {
    assert Exists(1, 1);
    assert ReadyEntry(1, 1, 10, 100) in heap;
    var stale := ReadyEntry(1, 1, 10, 100);
    assert !KeyAtMost(stale, rts[0].priority, TimeBonus(rts[0].timeLimit));
    FoundExactly(rts, deps, heap, 1);
  }

  /** Job 1 is submitted with priority 10 and updated to priority 5. It is queued, waits for nothing, and was
      in the heap; the next drain does not return it. */
  method LoweredRankLosesJob(decay: Decay) returns (jobs: JobTable, runnable: seq<JobId>)
    ensures fresh(jobs) && |jobs.specs| == |jobs.rts| == 1 && jobs.specs[0].Dependencies() == []
    ensures jobs.rts[0].state.Queued? && jobs.rts[0].priority == 5 && runnable == []
  {
    hide JobTable.Coherent, JobTable.CountersRight, JobTable.IsQuiet, JobTable.Expectant, JobTable.OnTime, Found;
    hide TookDown, KeptExact, LiveEntry, NoneOutranked;
    jobs := SubmitOne(PlainSpec([], All), PLAIN_RUNTIME, decay);
    var lower := JobUpdate(None, None, None, None, Some(5), None, None, None, None);
    ghost var rts0, heap0 := jobs.rts, jobs.heap;
    assert Exists(1, 1);
    OldEntryOutranks(rts0[0], jobs.depRts[0], heap0, lower);
    var ok;
    ghost var order;
    ok, order := jobs.UpdateJob(1, lower, 0);
    assert rts0[0 := lower.ApplyToRuntime(rts0[0])] == [lower.ApplyToRuntime(rts0[0])];
    EditedIsSpared(jobs.specs, rts0[0], jobs.rts, lower, order);
    FirstOutranked(jobs.rts, jobs.heap);
    jobs.HeapIsOk();
    FoundExactly(jobs.rts, jobs.depRts, jobs.heap, 1);
    ghost var rts1, d1, heap1 := jobs.rts, jobs.depRts, jobs.heap;
    runnable := jobs.DrainReady();
    if runnable != [] {
      FoundMeansJob(rts1, d1, heap1, runnable[0]);
    }
  }

  lemma OldEntryOutranks(rt: JobRuntime, dep: DependencyRuntime, heap: multiset<ReadyEntry>, update: JobUpdate)
    requires LiveEntry(rt, dep) in heap && rt.id == 1 && rt.priority == 10
    requires update == JobUpdate(None, None, None, None, Some(5), None, None, None, None)
    ensures OutrankedBy(heap, 1, update.ApplyToRuntime(rt))
  {
    assert LiveEntry(rt, dep).priority == 10;
  }

  lemma EditedIsSpared(specs: seq<JobSpec>, rt: JobRuntime, rts: seq<JobRuntime>, update: JobUpdate, order: seq<JobId>)
    requires TookDown(specs, [update.ApplyToRuntime(rt)], rts, order) && |specs| == 1 && specs[0].Dependencies() == []
    requires rt.state.Queued? && update == JobUpdate(None, None, None, None, Some(5), None, None, None, None)
    ensures |rts| == 1 && rts[0] == rt.(priority := 5, reason := rts[0].reason)
  {
    var rts0 := [update.ApplyToRuntime(rt)];
    assert Exists(1, 1) && Unsuccessful(rts0) == {};
    NobodyToBlame(specs, rts0, rts, order);
  }

  lemma FirstOutranked(rts: seq<JobRuntime>, heap: multiset<ReadyEntry>)
    requires |rts| == 1 && !NoneOutranked(rts, heap)
    ensures OutrankedBy(heap, 1, rts[0])
  {
    assert forall id: JobId :: Exists(|rts|, id) <==> id == 1;
  }

  lemma FoundMeansJob(rts: seq<JobRuntime>, d: seq<DependencyRuntime>, heap: multiset<ReadyEntry>, id: JobId)
    requires |rts| == |d| == 1 && Found(rts, d, heap, id)
    ensures id == 1
  {
  }

  // ---------- a begin time set too late ----------

  /** Job 1 is submitted and queued. It is then to be released at time 100, and the cycle at time 0 finds it. */
  method ReleasedTooEarly(decay: Decay) returns (jobs: JobTable, runnable: seq<JobId>)
    ensures fresh(jobs) && |jobs.specs| == 1 && jobs.specs[0].StartsAfter(0) && runnable == [1]
  {
    hide JobTable.Coherent, JobTable.CountersRight, JobTable.IsQuiet, JobTable.Expectant, JobTable.OnTime, Found;
    hide LiveEntry, NoneOutranked, TookDown;
    jobs := SubmitOne(PlainSpec([], All), PLAIN_RUNTIME, decay);
    assert Exists(1, 1);
    var found;
    ghost var order;
    found, order := jobs.ReleaseJobAt(1, 100, 0);
    jobs.HeapIsOk();
    FirstNotOutranked(jobs.rts, jobs.heap);
    FoundExactly(jobs.rts, jobs.depRts, jobs.heap, 1);
    ghost var rts1, d1, heap1 := jobs.rts, jobs.depRts, jobs.heap;
    runnable := jobs.DrainReady();
    OnlyOne(rts1, d1, heap1, runnable);
  }

  lemma FirstNotOutranked(rts: seq<JobRuntime>, heap: multiset<ReadyEntry>)
    requires |rts| == 1 && NoneOutranked(rts, heap)
    ensures !OutrankedBy(heap, 1, rts[0])
  {
    assert Exists(1, 1);
  }

  lemma OnlyOne(rts: seq<JobRuntime>, d: seq<DependencyRuntime>, heap: multiset<ReadyEntry>, runnable: seq<JobId>)
    requires |rts| == |d| == 1 && Distinct(runnable) && Found(rts, d, heap, 1)
    requires forall id: JobId :: id in runnable <==> Found(rts, d, heap, id)
    ensures runnable == [1]
  {
    hide Found;
    forall id | id in runnable ensures id == 1 {
      FoundMeansJob(rts, d, heap, id);
    }
    assert 1 in runnable;
    forall i | 0 <= i < |runnable| ensures runnable[i] == 1 {
      assert runnable[i] in runnable;
    }
    assert Elements(runnable) == {1};
    ElementsSize(runnable);
  }

  // ---------- a begin time that passes unnoticed ----------

  /** Job 3 needs one of jobs 1 and 2, has one, and waits for a begin time that has come. When it is told
      that the other dependency finished too, it loses its waiting reason and is not enqueued: neither the
      drain nor the release of due jobs will find it. */
  method BeginTimeMissed(jobs: JobTable, now: Time)
    requires jobs.Coherent(0, {}) && |jobs.specs| == |jobs.rts| == |jobs.depRts| == 3 && 100 <= now
    requires jobs.specs[2] == PlainSpec([1, 2], Any).(scheduledAt := Some(100))
    requires jobs.rts[2] == PLAIN_RUNTIME.(id := 3, reason := Some(WaitingForStartTime))
    requires jobs.depRts[2] == WithFlags(Any, 2, 1, 0, 2) && jobs.heap == multiset{}
    modifies jobs
    ensures jobs.Missed(3) && jobs.heap == multiset{} && !jobs.IsDue(3, now)
  {
    hide JobTable.Coherent;
    assert Exists(3, 3) && jobs.specs[2].Dependencies() == [1, 2];
    var cancelled;
    ghost var counted, tail;
    cancelled, counted, tail := jobs.TellDependent(3, 2, true, now);
  }

  // ---------- a late report ----------

  const UNLIMITED := QuotaConfig(NO_LIMITS, NO_LIMITS, map[], map[])

  /** A job that asks for 50 of 100 units of memory and nothing else fits on an empty machine. */
  lemma FitsAlone(m: Machine, specs: seq<JobSpec>, rts: seq<JobRuntime>)
    requires |specs| == |rts| == 1 && specs[0] == PlainSpec([], All)
    requires rts[0].state.Queued? && rts[0].gpus == 0 && rts[0].group.None? && rts[0].memoryLimit == Some(50)
    requires !m.unified && m.totalMemory == 100 && m.active == [] && m.config == Merged(UNLIMITED, UNLIMITED)
    ensures Admits(m, specs, rts, 1)
  {
    hide Candidates;
    assert Exists(1, 1);
    NothingUsed(rts, false);
  }

  lemma NothingUsed(rts: seq<JobRuntime>, unified: bool)
    requires |rts| == 1 && !rts[0].state.Running?
    ensures MemoryUsed(rts, unified) == 0
  {
    assert MemoryShares(rts, unified) == [] + [None];
    UsageExtend<nat>([], 0);
  }

  lemma NoneActive(now: Time)
    ensures ActiveNow([], now) == [] && Refreshed([], now) == []
  {
  }

  /** The only job that is ready is found and, as it fits, started. */
  lemma StartedAlone(m: Machine, specs: seq<JobSpec>, rts0: seq<JobRuntime>, rts1: seq<JobRuntime>,
                     heap: multiset<ReadyEntry>, found: seq<JobId>, started: seq<JobId>)
    requires CycleResult(m, specs, rts0, rts1, heap, found, started, 0) && |rts0| == 1 && 1 in found
    requires specs == [PlainSpec([], All)]
    requires rts0[0].state.Queued? && rts0[0].gpus == 0 && rts0[0].group.None? && rts0[0].memoryLimit == Some(50)
    requires !m.unified && m.totalMemory == 100 && m.active == [] && m.config == Merged(UNLIMITED, UNLIMITED)
    ensures |rts1| == 1 && rts1[0].state.Running? && rts1[0].gpuIds.Some? && rts1[0].memoryLimit == Some(50)
  {
    hide Admits, InTurn, Bounded;
    assert Exists(1, 1) && JobOutcome(m, specs, rts0, rts1, started, 0, 1);
    if 1 !in started {
      FitsAlone(m, specs, rts1);
    }
  }

  /** A cycle does nothing to a job that is over. */
  lemma OverStaysOver(m: Machine, specs: seq<JobSpec>, rts0: seq<JobRuntime>, rts1: seq<JobRuntime>,
                      heap: multiset<ReadyEntry>, found: seq<JobId>, started: seq<JobId>)
    requires CycleResult(m, specs, rts0, rts1, heap, found, started, 0) && |rts0| == 1 && rts0[0].state.Cancelled?
    ensures |rts1| == 1 && rts1[0] == rts0[0].(reason := rts1[0].reason)
  {
    hide Admits, InTurn, Bounded;
    assert Exists(1, 1) && JobOutcome(m, specs, rts0, rts1, started, 0, 1);
  }

  /** On a machine with 100 units of memory a job that asks for 50 is submitted and started. */
  method StartedOne(decay: Decay) returns (s: Scheduler)
    ensures fresh(s) && fresh(s.jobs) && fresh(s.book) && s.Valid() && s.jobs.InRank()
    ensures s.totalMemory == 100 && !s.unifiedMemory && |s.jobs.specs| == |s.jobs.rts| == 1
    ensures var rt := s.jobs.rts[0]; rt.state.Running? && rt.gpuIds.Some? && rt.memoryLimit == Some(50)
  {
    hide JobTable.Coherent, JobTable.CountersRight, JobTable.IsQuiet, JobTable.Expectant, JobTable.InRank, Found;
    hide JobTable.OnTime, LiveEntry, CycleResult, QueueResult, NoneOutranked, Scheduler.MachineOk, Allocated;
    hide Merged, MemoryOf, ActiveNow, Refreshed, MemoryUsed, InFairOrder, InHeapOrder, Hidden;
    s := new Scheduler(true, decay, false, false, [], None, 100, UNLIMITED, UNLIMITED);
    NoneActive(0);
    s.jobs.CoherentSizes(0, {});
    SubmitFirst(s.jobs, PlainSpec([], All), PLAIN_RUNTIME.(memoryLimit := Some(50)));
    AllocatedOne(s.jobs.rts);
    ReadyAlone(s.jobs);
    ghost var m, found, rts0 := Machine(false, 0, 0, [], map[], UNLIMITED, []), [], s.jobs.rts;
    var started;
    started, m, found := s.PrepareJobsForExecution(user => 0, (job, gpu) => gpu, 0);
    StartedAlone(m, s.jobs.specs, rts0, s.jobs.rts, s.jobs.heap, found, started);
  }

  lemma AllocatedOne(rts: seq<JobRuntime>)
    requires |rts| == 1 && !rts[0].state.Running?
    ensures Allocated(rts)
  {
  }

  lemma ReadyAlone(jobs: JobTable)
    requires jobs.Valid() && jobs.InRank() && |jobs.rts| == |jobs.depRts| == 1 && jobs.depRts[0].depsSatisfied
    requires LiveEntry(jobs.rts[0], jobs.depRts[0]) in jobs.heap
    ensures Found(jobs.rts, jobs.depRts, jobs.heap, 1)
  {
    hide JobTable.Coherent, JobTable.CountersRight, Found, LiveEntry, NoneOutranked;
    assert Exists(1, 1);
    jobs.HeapIsOk();
    FirstNotOutranked(jobs.rts, jobs.heap);
    FoundExactly(jobs.rts, jobs.depRts, jobs.heap, 1);
  }

  lemma CancelledAlone(specs: seq<JobSpec>, rts0: seq<JobRuntime>, rts1: seq<JobRuntime>, d0: seq<DependencyRuntime>,
                       d1: seq<DependencyRuntime>, order: seq<JobId>, echo: bool)
    requires |rts0| == 1
    requires Transitioned(specs, rts0, rts1, d0, d1, 1, JobState.Cancelled, Some(CancelledByUser), 0, true, order, echo)
    ensures |rts1| == 1 && rts1[0].state.Cancelled?
    ensures rts1[0].gpuIds == rts0[0].gpuIds && rts1[0].memoryLimit == rts0[0].memoryLimit
  {
    hide Announced, CountersMoved, Justified, Driven;
    assert Exists(1, 1);
  }

  /** A report on a job that is over takes its GPU ids and nothing else. */
  lemma StillOver(specs: seq<JobSpec>, rts0: seq<JobRuntime>, rts1: seq<JobRuntime>, order: seq<JobId>)
    requires Stopped(specs, rts0, rts1, 1, order, 0) && |rts0| == 1 && rts0[0].state.Cancelled?
    ensures |rts1| == 1 && rts1[0].state.Cancelled?
  {
  }

  /** Job 1 starts, is cancelled, and the next cycle has its memory back. Then it is reported as not executed,
      and the scheduler counts 150 of 100 units of memory as free. */
  method LateReport(decay: Decay) returns (s: Scheduler)
    ensures fresh(s) && s.jobs.Valid() && s.totalMemory == 100 && s.availableMemory == 150
  {
    hide JobTable.Coherent, JobTable.CountersRight, JobTable.IsQuiet, JobTable.Expectant, JobTable.InRank, Found;
    hide JobTable.OnTime, LiveEntry, CycleResult, QueueResult, NoneOutranked, Scheduler.MachineOk, Allocated;
    hide Merged, MemoryOf, ActiveNow, Refreshed, MemoryUsed, Stopped, Transitioned, Credited, TimesKept, Moved;
    hide InFairOrder, InHeapOrder, Hidden;
    s := StartedOne(decay);
    ghost var rts0, d0 := s.jobs.rts, s.jobs.depRts;
    assert Exists(1, 1);
    var wasRunning;
    ghost var order;
    wasRunning, order := s.jobs.CancelJob(1, None, 0);
    CancelledAlone(s.jobs.specs, rts0, s.jobs.rts, d0, s.jobs.depRts, order, s.jobs.echo);
    AllocatedOne(s.jobs.rts);
    ghost var m, found, rts1 := Machine(false, 0, 0, [], map[], UNLIMITED, []), [], s.jobs.rts;
    var started;
    started, m, found := s.PrepareJobsForExecution(user => 0, (job, gpu) => gpu, 0);
    OverStaysOver(m, s.jobs.specs, rts1, s.jobs.rts, s.jobs.heap, found, started);
    NothingUsed(s.jobs.rts, false);
    ghost var rts2 := s.jobs.rts;
    order := s.HandleFailure(1, 0, {});
    StillOver(s.jobs.specs, rts2, s.jobs.rts, order);
    NothingUsed(s.jobs.rts, false);
  }

  // ---------- an index named twice ----------

  lemma SelectBothZeros(ids: set<nat>)
    requires 0 in ids
    ensures Select([0, 0], ids, true) == [0, 0]
  {
    assert [0, 0][..1] == [0] && [0][..0] == [];
    assert Select([0], ids, true) == [0];
  }

  lemma ClaimsOfOne(r: Reservation)
    requires r.gpus == Indices([0, 0])
    ensures ClaimsOf([r], r.user) == Claims({}, [0, 0], 0, 0)
  {
    assert [r][..0] == [] && ClaimsOf([], r.user) == Claims({}, [], 0, 0);
    assert [] + [0, 0] == [0, 0];
  }

  /** A reservation that names a GPU twice offers it to its owner twice. */
  lemma IndexNamedTwice(r: Reservation)
    requires r.gpus == Indices([0, 0])
    ensures var usable := Usable(ClaimsOf([r], r.user), [0, 1]);
            usable == [0, 0] && !Distinct(usable)
  {
    hide ClaimsOf, Select;
    ClaimsOfOne(r);
    SelectBothZeros(set g | g in [0, 1]);
    var usable := Usable(ClaimsOf([r], r.user), [0, 1]);
    assert usable[0] == usable[1];
  }
}
