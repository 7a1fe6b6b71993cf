/** The incremental counters agree with recomputation from the job states. */
module Counters {
  import opened Types
  import opened PlainTerms
  import opened Counting
  import opened Dependencies
  import opened JobInvariants
  import opened Cascades

  // ---------- counting the announcements of one cascade ----------

  lemma HitsAnnounced(deps: seq<JobId>, source: JobId, order: seq<JobId>, echo: bool)
    requires Distinct(order)
    ensures Hits(deps, Announced(source, order, echo)) ==
            CountIn(deps, {source}) + CountIn(deps, Elements(order)) * (if echo then 2 else 1)
  {
    var once, bag := multiset{source}, multiset(order);
    DistinctBag(order);
    HitsOfSet(deps, Elements(order));
    HitsOfSet(deps, {source});
    assert multiset({source}) == once;
    HitsAdd(deps, once, bag);
    HitsAdd(deps, once + bag, if echo then bag else multiset{});
    HitsNone(deps);
  }

  lemma CountedBad(deps: seq<JobId>, failed: set<JobId>, auto0: set<JobId>, auto1: set<JobId>, muted: set<JobId>,
                   source: JobId, order: seq<JobId>, echo: bool)
    requires Distinct(order) && source !in failed && source !in order && Elements(order) !! failed
    requires muted <= failed && auto0 !! Elements(order) && auto0 + Elements(order) <= auto1
    ensures var after, told := failed + {source} + Elements(order), Hits(deps, Announced(source, order, echo));
      && CountIn(deps, after - muted) ==
           CountIn(deps, failed - muted) + CountIn(deps, {source}) + CountIn(deps, Elements(order))
      && CountIn(deps, after - muted) <= CountIn(deps, failed - muted) + told
      && CountIn(deps, failed) + (if echo then CountIn(deps, auto0) else 0) + told
           <= CountIn(deps, after) + (if echo then CountIn(deps, auto1) else 0)
  {
    var down := Elements(order);
    HitsAnnounced(deps, source, order, echo);
    CountInUnion(deps, failed, {source});
    CountInUnion(deps, failed + {source}, down);
    CountInUnion(deps, failed - muted, {source});
    CountInUnion(deps, failed - muted + {source}, down);
    assert failed + {source} + down - muted == failed - muted + {source} + down;
    CountInUnion(deps, auto0, down);
    CountInMono(deps, auto0 + down, auto1);
  }

  // ---------- transitions keep the counters right ----------

  /** How the sets behind the counters change over an announced transition. */
  lemma SetsAfterCascade(specs: seq<JobSpec>, rts0: seq<JobRuntime>, rts1: seq<JobRuntime>,
                         d0: seq<DependencyRuntime>, d1: seq<DependencyRuntime>, id: JobId, next: JobState,
                         reason: Option<Reason>, now: Time, order: seq<JobId>, echo: bool)
    requires Transitioned(specs, rts0, rts1, d0, d1, id, next, reason, now, true, order, echo)
    requires next.IsFinal() && !rts0[id - 1].state.IsFinal()
    ensures Distinct(order) && id !in order && (next.Finished? ==> order == [])
    ensures Successful(rts1) == Successful(rts0) + (if next.Finished? then {id} else {})
    ensures Unsuccessful(rts1) == Unsuccessful(rts0) + (if next.Finished? then {} else {id}) + Elements(order)
    ensures id !in Successful(rts0) && id !in Unsuccessful(rts0) && Elements(order) !! Unsuccessful(rts0)
    ensures AutoCancelled(rts0) !! Elements(order) && AutoCancelled(rts0) + Elements(order) <= AutoCancelled(rts1)
  {
    hide Successful, Unsuccessful, Unsettled, AutoCancelled, Justified, CountersMoved, Announced;
    var moved := rts0[id - 1 := Moved(rts0[id - 1], next, reason, now)];
    MoveFinished(rts0, id, next, reason, now);
    CancelsSets(moved, rts1, order);
  }

  /** One job's counter after an announced transition. */
  lemma CounterAfterCascade(spec: JobSpec, dep0: DependencyRuntime, dep1: DependencyRuntime,
                            rts0: seq<JobRuntime>, rts1: seq<JobRuntime>, id: JobId, ok: bool, order: seq<JobId>,
                            muted: set<JobId>, echo: bool)
    requires CounterOk(spec, dep0, rts0, muted, echo) && muted <= Unsuccessful(rts0)
    requires Distinct(order) && id !in order && (ok ==> order == [])
    requires Successful(rts1) == Successful(rts0) + (if ok then {id} else {})
    requires Unsuccessful(rts1) == Unsuccessful(rts0) + (if ok then {} else {id}) + Elements(order)
    requires id !in Successful(rts0) && id !in Unsuccessful(rts0) && Elements(order) !! Unsuccessful(rts0)
    requires AutoCancelled(rts0) !! Elements(order) && AutoCancelled(rts0) + Elements(order) <= AutoCancelled(rts1)
    requires dep1.terminalNonSuccess == dep0.terminalNonSuccess +
               (if ok then 0 else Hits(spec.Dependencies(), Announced(id, order, echo)))
    requires dep1.success == CountIn(spec.Dependencies(), Successful(rts1))
    ensures CounterOk(spec, dep1, rts1, muted, echo)
  {
    hide Successful, Unsuccessful, AutoCancelled, Announced;
    var deps := spec.Dependencies();
    if ok {
      assert Unsuccessful(rts1) == Unsuccessful(rts0);
      CountInMono(deps, AutoCancelled(rts0), AutoCancelled(rts1));
    } else {
      CountedBad(deps, Unsuccessful(rts0), AutoCancelled(rts0), AutoCancelled(rts1), muted, id, order, echo);
    }
  }

  lemma SuccessAfterCascade(deps: seq<JobId>, finished: set<JobId>, id: JobId)
    requires id !in finished
    ensures CountIn(deps, finished + {id}) == CountIn(deps, finished) + Hits(deps, multiset{id})
  {
    CountInUnion(deps, finished, {id});
    HitsOfSet(deps, {id});
    assert multiset({id}) == multiset{id};
  }

  lemma CascadeKeepsSuccess(specs: seq<JobSpec>, rts0: seq<JobRuntime>, rts1: seq<JobRuntime>,
                            d0: seq<DependencyRuntime>, d1: seq<DependencyRuntime>, id: JobId, next: JobState,
                            reason: Option<Reason>, now: Time, order: seq<JobId>, echo: bool, j: JobId)
    requires Transitioned(specs, rts0, rts1, d0, d1, id, next, reason, now, true, order, echo)
    requires next.IsFinal() && !rts0[id - 1].state.IsFinal() && |specs| == |d0| && Exists(|specs|, j)
    requires d0[j - 1].success == CountIn(specs[j - 1].Dependencies(), Successful(rts0))
    ensures d1[j - 1].success == CountIn(specs[j - 1].Dependencies(), Successful(rts1))
  {
    hide Successful, Unsuccessful, AutoCancelled, Justified, Cancels;
    SetsAfterCascade(specs, rts0, rts1, d0, d1, id, next, reason, now, order, echo);
    var deps := specs[j - 1].Dependencies();
    if next.Finished? {
      SuccessAfterCascade(deps, Successful(rts0), id);
      assert Announced(id, [], echo) == multiset{id};
    } else {
      HitsNone(deps);
      assert Successful(rts1) == Successful(rts0);
    }
  }

  /** Announcing a final state, cascade included, keeps every counter right. */
  lemma CascadeKeepsCounters(specs: seq<JobSpec>, rts0: seq<JobRuntime>, rts1: seq<JobRuntime>,
                             d0: seq<DependencyRuntime>, d1: seq<DependencyRuntime>, id: JobId, next: JobState,
                             reason: Option<Reason>, now: Time, order: seq<JobId>, muted: set<JobId>, echo: bool)
    requires Transitioned(specs, rts0, rts1, d0, d1, id, next, reason, now, true, order, echo)
    requires next.IsFinal() && !rts0[id - 1].state.IsFinal()
    requires CountersOk(specs, rts0, d0, muted, echo, 0) && muted <= Unsuccessful(rts0)
    ensures CountersOk(specs, rts1, d1, muted, echo, 0)
  {
    hide Successful, Unsuccessful, AutoCancelled, CounterOk, Justified, Announced;
    SetsAfterCascade(specs, rts0, rts1, d0, d1, id, next, reason, now, order, echo);
    var ok := next.Finished?;
    forall j: JobId | Exists(|specs|, j)
      ensures d1[j - 1].success == CountIn(specs[j - 1].Dependencies(), Successful(rts1))
      ensures rts1[j - 1].state.IsPending() ==> CounterOk(specs[j - 1], d1[j - 1], rts1, muted, echo)
    {
      CascadeKeepsSuccess(specs, rts0, rts1, d0, d1, id, next, reason, now, order, echo, j);
      if rts1[j - 1].state.IsPending() {
        HitsNone(specs[j - 1].Dependencies());
        assert Exists(|rts0|, j);
        CounterAfterCascade(specs[j - 1], d0[j - 1], d1[j - 1], rts0, rts1, id, ok, order, muted, echo);
      }
    }
  }

  // ---------- failures announced twice ----------

  /** Over a failing cascade a job's failure counter runs ahead by exactly the number of its dependencies
      that the cascade cancelled, if those announce themselves twice. */
  lemma ExcessAfterCascade(specs: seq<JobSpec>, rts0: seq<JobRuntime>, rts1: seq<JobRuntime>,
                           d0: seq<DependencyRuntime>, d1: seq<DependencyRuntime>, id: JobId, next: JobState,
                           reason: Option<Reason>, now: Time, order: seq<JobId>, echo: bool, j: JobId)
    requires Transitioned(specs, rts0, rts1, d0, d1, id, next, reason, now, true, order, echo)
    requires next.IsFinal() && !next.Finished? && !rts0[id - 1].state.IsFinal() && |specs| == |d0| && Exists(|specs|, j)
    ensures |d1| == |d0|
    ensures var deps := specs[j - 1].Dependencies();
            d1[j - 1].terminalNonSuccess + CountIn(deps, Unsuccessful(rts0)) ==
            d0[j - 1].terminalNonSuccess + CountIn(deps, Unsuccessful(rts1)) + Excess(deps, order, echo)
  {
    hide Successful, Unsuccessful, AutoCancelled, Justified, Cancels, Announced, Driven;
    SetsAfterCascade(specs, rts0, rts1, d0, d1, id, next, reason, now, order, echo);
    var deps := specs[j - 1].Dependencies();
    HitsAnnounced(deps, id, order, echo);
    CountInUnion(deps, Unsuccessful(rts0), {id});
    CountInUnion(deps, Unsuccessful(rts0) + {id}, Elements(order));
  }

  /** How far a counter runs ahead because the jobs in `order` announced themselves twice. */
  ghost function Excess(deps: seq<JobId>, order: seq<JobId>, echo: bool): nat {
    if echo then CountIn(deps, Elements(order)) else 0
  }

  /** A failure counter that was exact before a failing cascade is exact afterwards if and only if no
      dependency of the job was cancelled in it; that is, if some set closed under the news of the failure,
      as it can be worked out beforehand, contains no dependency of the job. */
  lemma ExactAfterCascade(specs: seq<JobSpec>, rts0: seq<JobRuntime>, rts1: seq<JobRuntime>,
                          d0: seq<DependencyRuntime>, d1: seq<DependencyRuntime>, id: JobId, next: JobState,
                          reason: Option<Reason>, now: Time, order: seq<JobId>, echo: bool, j: JobId)
    requires Transitioned(specs, rts0, rts1, d0, d1, id, next, reason, now, true, order, echo)
    requires next.IsFinal() && !next.Finished? && !rts0[id - 1].state.IsFinal() && |specs| == |rts0| == |d0| == |d1|
    requires Exists(|specs|, j) && Quiet(specs, rts1, d1, 0)
    requires d0[j - 1].terminalNonSuccess == CountIn(specs[j - 1].Dependencies(), Unsuccessful(rts0))
    ensures var deps, moved := specs[j - 1].Dependencies(), rts0[id - 1 := Moved(rts0[id - 1], next, reason, now)];
      && d1[j - 1].terminalNonSuccess == CountIn(deps, Unsuccessful(rts1)) + Excess(deps, order, echo)
      && (d1[j - 1].terminalNonSuccess == CountIn(deps, Unsuccessful(rts1)) <==>
            !echo || forall d :: d in deps ==> d !in order)
      && ((forall d :: d in deps ==> d !in order) <==>
            exists closed ::
              ClosedUnderNews(specs, moved, d0, id, closed, echo) && forall d :: d in deps ==> d !in closed)
  {
    hide Successful, Unsuccessful, Justified, Cancels, Announced, Driven, CountersMoved, ClosedUnderNews, Quiet, Moved;
    var deps, moved := specs[j - 1].Dependencies(), rts0[id - 1 := Moved(rts0[id - 1], next, reason, now)];
    ExcessAfterCascade(specs, rts0, rts1, d0, d1, id, next, reason, now, order, echo, j);
    CountInExtremes(deps, Elements(order));
    CascadeIsLeastUnderNews(specs, moved, rts1, d0, d1, id, order, echo);
    if forall d :: d in deps ==> d !in order {
      assert forall d :: d in deps ==> d !in Elements(order);
    }
    if closed :| ClosedUnderNews(specs, moved, d0, id, closed, echo) && forall d :: d in deps ==> d !in closed {
      assert forall d :: d in deps ==> d !in Elements(order);
    }
  }

  /** The failures that job `j` will have counted once `id` and the jobs in `down` have announced theirs. */
  ghost function WillCount(dep: DependencyRuntime, deps: seq<JobId>, id: JobId, down: set<JobId>, echo: bool): nat {
    dep.terminalNonSuccess + CountIn(deps, {id}) + CountIn(deps, down) * (if echo then 2 else 1)
  }

  /** A queued auto-cancelling job is cancelled in a failing cascade although its dependencies can still be
      met, if and only if, in the state before, it waits for any of its dependencies, none has succeeded,
      and not all will have failed, but it will have counted as many failures as it has dependencies. If
      its counter is exact beforehand, it will count the failures and once more those in the downfall. */
  lemma WronglyCancelled(specs: seq<JobSpec>, rts0: seq<JobRuntime>, rts1: seq<JobRuntime>,
                         d0: seq<DependencyRuntime>, d1: seq<DependencyRuntime>, id: JobId, next: JobState,
                         reason: Option<Reason>, now: Time, order: seq<JobId>, muted: set<JobId>, echo: bool, j: JobId)
    requires Transitioned(specs, rts0, rts1, d0, d1, id, next, reason, now, true, order, echo)
    requires next.IsFinal() && !next.Finished? && !rts0[id - 1].state.IsFinal() && |specs| == |rts0| == |d0| == |d1|
    requires Exists(|specs|, j) && j != id && Quiet(specs, rts1, d1, 0)
    requires rts0[j - 1].state.Queued? && specs[j - 1].autoCancel
    requires CounterOk(specs[j - 1], d0[j - 1], rts0, muted, echo)
    ensures var spec, deps, moved := specs[j - 1], specs[j - 1].Dependencies(),
                                     rts0[id - 1 := Moved(rts0[id - 1], next, reason, now)];
      var down := Downfall(specs, moved, d0, id, echo);
      var failed := Unsuccessful(rts0) + {id} + down;
      && (j in order <==> j in down)
      && (j in order && !DependenciesDead(spec, Successful(rts1), Unsuccessful(rts1)) <==>
            && spec.Mode().Any? && (forall d :: d in deps ==> d !in Successful(rts0))
            && CountIn(deps, failed) < |deps| <= WillCount(d0[j - 1], deps, id, down, echo))
      && (d0[j - 1].terminalNonSuccess == CountIn(deps, Unsuccessful(rts0)) ==>
            WillCount(d0[j - 1], deps, id, down, echo) ==
            CountIn(deps, failed) + if echo then CountIn(deps, down) else 0)
  {
    hide Successful, Unsuccessful, AutoCancelled, Justified, Cancels, Announced, Driven, CountersMoved, Quiet, Downfall;
    hide Moved;
    var spec, deps, moved := specs[j - 1], specs[j - 1].Dependencies(),
                             rts0[id - 1 := Moved(rts0[id - 1], next, reason, now)];
    var down := Downfall(specs, moved, d0, id, echo);
    CascadeIsDownfall(specs, moved, rts1, d0, d1, id, order, echo);
    ExcessAfterCascade(specs, rts0, rts1, d0, d1, id, next, reason, now, order, echo, j);
    CascadeKeepsSuccess(specs, rts0, rts1, d0, d1, id, next, reason, now, order, echo, j);
    CancelledExactlyWhenSpent(specs, moved, rts1, d0, d1, id, order, echo, j);
    SetsAfterCascade(specs, rts0, rts1, d0, d1, id, next, reason, now, order, echo);
    CountInUnion(deps, Unsuccessful(rts0), {id});
    CountInUnion(deps, Unsuccessful(rts0) + {id}, down);
    assert d1[j - 1].terminalNonSuccess == WillCount(d0[j - 1], deps, id, down, echo);
    OverCounted(spec, d0[j - 1], d1[j - 1], rts0, Unsuccessful(rts0) + {id} + down, id, down, muted, echo);
    CountInExtremes(deps, Successful(rts1));
  }

  /** Counters that have taken in failures leave a job no chance although its dependencies can still be
      met exactly in the case above; never if it waits for all of them. */
  lemma OverCounted(spec: JobSpec, dep0: DependencyRuntime, dep1: DependencyRuntime, rts0: seq<JobRuntime>,
                    failed: set<JobId>, id: JobId, down: set<JobId>, muted: set<JobId>, echo: bool)
    requires CounterOk(spec, dep0, rts0, muted, echo) && failed == Unsuccessful(rts0) + {id} + down
    requires dep1.terminalNonSuccess == WillCount(dep0, spec.Dependencies(), id, down, echo)
    ensures Spent(spec, dep1, 0) && !DependenciesDead(spec, {}, failed) <==>
              && spec.Mode().Any? && dep1.success == 0
              && CountIn(spec.Dependencies(), failed) < |spec.Dependencies()| <= dep1.terminalNonSuccess
  {
    hide Successful, Unsuccessful, AutoCancelled;
    if spec.Mode().All? && dep1.terminalNonSuccess > 0 {
      CountedMeansFailed(spec, dep0, dep1, rts0, failed, id, down, muted, echo);
    }
    CountInExtremes(spec.Dependencies(), failed);
    if spec.Dependencies() != [] {
      assert spec.Dependencies()[0] in spec.Dependencies();
    }
  }

  /** Nothing is counted out of nothing. */
  lemma CountedMeansFailed(spec: JobSpec, dep0: DependencyRuntime, dep1: DependencyRuntime, rts0: seq<JobRuntime>,
                           failed: set<JobId>, id: JobId, down: set<JobId>, muted: set<JobId>, echo: bool)
    requires CounterOk(spec, dep0, rts0, muted, echo)
    requires failed == Unsuccessful(rts0) + {id} + down && dep1.terminalNonSuccess > 0
    requires dep1.terminalNonSuccess == WillCount(dep0, spec.Dependencies(), id, down, echo)
    ensures exists d :: d in spec.Dependencies() && d in failed
  {
    hide Successful, Unsuccessful, AutoCancelled;
    var deps := spec.Dependencies();
    AutoCancelledFailed(rts0);
    CountInMono(deps, AutoCancelled(rts0), failed);
    CountInMono(deps, {id}, failed);
    CountInMono(deps, down, failed);
    CountInMono(deps, Unsuccessful(rts0), failed);
    CountInExtremes(deps, failed);
  }

  lemma AutoCancelledFailed(rts: seq<JobRuntime>)
    ensures AutoCancelled(rts) <= Unsuccessful(rts)
  {
  }

  /** Some job that may still run depends on `id`. */
  ghost predicate Awaited(specs: seq<JobSpec>, rts: seq<JobRuntime>, id: JobId)
    requires |specs| == |rts|
  {
    exists j: JobId :: DependsOn(specs, j, id) && rts[j - 1].state.IsPending()
  }

  /** The muted jobs after job `id` fails in silence: it joins them if anybody was waiting for news. */
  ghost function Muting(specs: seq<JobSpec>, rts: seq<JobRuntime>, muted: set<JobId>, id: JobId): set<JobId>
    requires |specs| == |rts|
  {
    if Awaited(specs, rts, id) then muted + {id} else muted
  }

  /** A transition that is not announced keeps every counter right, provided the job did not succeed;
      if it failed, it may have to join the muted ones. */
  lemma SilenceKeepsCounters(specs: seq<JobSpec>, rts0: seq<JobRuntime>, rts1: seq<JobRuntime>,
                             d0: seq<DependencyRuntime>, d1: seq<DependencyRuntime>, id: JobId, next: JobState,
                             reason: Option<Reason>, now: Time, muted: set<JobId>, echo: bool)
    requires |rts0| == |d0| && Exists(|rts0|, id) && !next.Finished? && rts0[id - 1].state.CanTransitionTo(next)
    requires rts1 == rts0[id - 1 := Moved(rts0[id - 1], next, reason, now)] && d1 == EpochBumped(d0, id)
    requires CountersOk(specs, rts0, d0, muted, echo, 0) && muted <= Unsuccessful(rts0)
    ensures CountersOk(specs, rts1, d1, if next.IsFinal() then Muting(specs, rts1, muted, id) else muted, echo, 0)
  {
    hide Successful, Unsuccessful, AutoCancelled;
    MoveFinished(rts0, id, next, reason, now);
    var muted1 := if next.IsFinal() then Muting(specs, rts1, muted, id) else muted;
    forall j: JobId | Exists(|specs|, j)
      ensures d1[j - 1].success == CountIn(specs[j - 1].Dependencies(), Successful(rts1))
      ensures rts1[j - 1].state.IsPending() ==> CounterOk(specs[j - 1], d1[j - 1], rts1, muted1, echo)
    {
      var deps := specs[j - 1].Dependencies();
      assert Successful(rts1) == Successful(rts0);
      if rts1[j - 1].state.IsPending() {
        assert id in deps ==> DependsOn(specs, j, id);
        CountInMono(deps, Unsuccessful(rts1) - muted1, Unsuccessful(rts0) - muted);
        CountInMono(deps, Unsuccessful(rts0), Unsuccessful(rts1));
        CountInMono(deps, AutoCancelled(rts0), AutoCancelled(rts1));
      }
      assert d1[j - 1].success == d0[j - 1].success && d1[j - 1].terminalNonSuccess == d0[j - 1].terminalNonSuccess;
      assert rts1[j - 1].state.IsPending() ==> rts0[j - 1].state.IsPending();
    }
  }

  /** Changes of waiting reasons do not matter to the counters, as long as a reason naming a failed
      dependency is never taken from a job that is over. */
  lemma ReasonsKeepSets(rts0: seq<JobRuntime>, rts1: seq<JobRuntime>)
    requires SameButReasons(rts0, rts1)
    ensures Successful(rts1) == Successful(rts0) && Unsuccessful(rts1) == Unsuccessful(rts0)
  {
    forall j: JobId
      ensures j in Successful(rts1) <==> j in Successful(rts0)
      ensures j in Unsuccessful(rts1) <==> j in Unsuccessful(rts0)
    {
      if Exists(|rts0|, j) {
        assert rts1[j - 1].state == rts0[j - 1].state;
      }
    }
  }

  lemma ReasonsKeepCounters(specs: seq<JobSpec>, rts0: seq<JobRuntime>, rts1: seq<JobRuntime>,
                            deps: seq<DependencyRuntime>, muted: set<JobId>, echo: bool, skip: JobId)
    requires CountersOk(specs, rts0, deps, muted, echo, skip)
    requires SameButReasons(rts0, rts1) && AutoCancelled(rts0) <= AutoCancelled(rts1)
    ensures CountersOk(specs, rts1, deps, muted, echo, skip)
  {
    hide Successful, Unsuccessful, AutoCancelled;
    ReasonsKeepSets(rts0, rts1);
    forall j: JobId | Exists(|specs|, j) && j != skip
      ensures rts1[j - 1].state.IsPending() ==> CounterOk(specs[j - 1], deps[j - 1], rts1, muted, echo)
    {
      CountInMono(specs[j - 1].Dependencies(), AutoCancelled(rts0), AutoCancelled(rts1));
      assert Exists(|rts0|, j);
    }
  }

  /** Recomputing one job's counters puts that job right. */
  lemma RecomputeKeepsCounters(specs: seq<JobSpec>, rts: seq<JobRuntime>, d0: seq<DependencyRuntime>,
                               d1: seq<DependencyRuntime>, id: JobId, epoch: nat, muted: set<JobId>, echo: bool)
    requires CountersOk(specs, rts, d0, muted, echo, id) && Exists(|specs|, id)
    requires d1 == d0[id - 1 := Recomputed(specs[id - 1], rts, epoch)]
    ensures CountersOk(specs, rts, d1, muted, echo, 0)
  {
    hide Successful, Unsuccessful, AutoCancelled;
    CountInMono(specs[id - 1].Dependencies(), Unsuccessful(rts) - muted, Unsuccessful(rts));
  }

  // ---------- what the agreement means ----------

  /** With every edge announced once, the counters and flags of a job that may still run are exactly
      the recomputed ones, whatever the mode, unless it depends on a silenced failure. */
  lemma CountersAreRecomputed(specs: seq<JobSpec>, rts: seq<JobRuntime>, deps: seq<DependencyRuntime>,
                              muted: set<JobId>, id: JobId)
    requires CountersOk(specs, rts, deps, muted, false, 0) && FlagsOk(specs, deps, 0)
    requires Exists(|specs|, id) && rts[id - 1].state.IsPending()
    requires forall d :: d in specs[id - 1].Dependencies() ==> d !in muted
    ensures deps[id - 1] == Recomputed(specs[id - 1], rts, deps[id - 1].readyEpoch)
  {
    hide Successful, Unsuccessful, AutoCancelled, Satisfied, Impossible;
    CountInMono(specs[id - 1].Dependencies(), Unsuccessful(rts), Unsuccessful(rts) - muted);
  }

  /** As the code is written, failures are over-counted, but never out of nothing: the failure
      counter is at least the recomputed one and zero exactly when that is. So the flags of a job
      that waits for all its dependencies are exactly the recomputed ones, and the flag that lets
      a job run is exact in both modes. */
  lemma AllModeFlagsAreRecomputed(specs: seq<JobSpec>, rts: seq<JobRuntime>, deps: seq<DependencyRuntime>,
                                  muted: set<JobId>, echo: bool, id: JobId)
    requires CountersOk(specs, rts, deps, muted, echo, 0) && FlagsOk(specs, deps, 0)
    requires Exists(|specs|, id) && rts[id - 1].state.IsPending()
    requires forall d :: d in specs[id - 1].Dependencies() ==> d !in muted
    ensures var dep, exact := deps[id - 1], Recomputed(specs[id - 1], rts, deps[id - 1].readyEpoch);
      && dep.total == exact.total && dep.success == exact.success
      && dep.terminalNonSuccess >= exact.terminalNonSuccess
      && (dep.terminalNonSuccess == 0 <==> exact.terminalNonSuccess == 0)
      && dep.depsSatisfied == exact.depsSatisfied
      && (specs[id - 1].Mode().All? ==> dep.impossible == exact.impossible)
  {
    hide Successful, Unsuccessful, AutoCancelled;
    var list := specs[id - 1].Dependencies();
    CountInMono(list, Unsuccessful(rts), Unsuccessful(rts) - muted);
    AutoCancelledFailed(rts);
    CountInMono(list, AutoCancelled(rts), Unsuccessful(rts));
  }

  /** Where all is quiet and no failure is muted, no queued auto-cancelling job has dependencies that
      can no longer be met: its failure counter, though it may run ahead, never does so unnoticed. */
  lemma QuietMeansHope(specs: seq<JobSpec>, rts: seq<JobRuntime>, deps: seq<DependencyRuntime>, echo: bool, id: JobId)
    requires CountersOk(specs, rts, deps, {}, echo, 0) && Quiet(specs, rts, deps, 0)
    requires Exists(|specs|, id) && rts[id - 1].state.Queued? && specs[id - 1].autoCancel
    ensures !deps[id - 1].impossible && !DependenciesDead(specs[id - 1], Successful(rts), Unsuccessful(rts))
  {
    hide Successful, Unsuccessful, AutoCancelled;
    var list, dep := specs[id - 1].Dependencies(), deps[id - 1];
    assert Unsuccessful(rts) - {} == Unsuccessful(rts);
    CountInExtremes(list, Unsuccessful(rts));
    CountInExtremes(list, Successful(rts));
    SuccessIsNotFailure(rts);
    if list != [] {
      assert list[0] in list;
    }
  }

  /** The terms of the invariant, said in terms of the jobs' fields. */
  lemma TermsMean(spec: JobSpec, rts: seq<JobRuntime>)
    ensures forall d :: d in spec.Dependencies() <==> Names(spec, d)
    ensures forall d :: d in Successful(rts) <==> HasFinished(rts, d)
    ensures forall d :: d in Unsuccessful(rts) <==> HasFailed(rts, d)
    ensures spec.Mode().Any? <==> spec.dependencyMode == Some(Any)
    ensures spec.Dependencies() == [] <==> forall d :: !Names(spec, d)
  {
    if spec.Dependencies() != [] {
      assert spec.Dependencies()[0] in spec.Dependencies();
    }
  }

  /** Right flags follow from the counters. */
  lemma FlagsFollow(specs: seq<JobSpec>, deps: seq<DependencyRuntime>, id: JobId)
    requires FlagsOk(specs, deps, 0) && Exists(|specs|, id)
    ensures FlagsSay(specs[id - 1], deps[id - 1])
  {
  }

  lemma MetAndDeadMean(spec: JobSpec, rts: seq<JobRuntime>)
    ensures DependenciesMet(spec, Successful(rts)) <==> Ready(spec, rts)
    ensures DependenciesDead(spec, Successful(rts), Unsuccessful(rts)) <==> Hopeless(spec, rts)
  {
    hide Successful, Unsuccessful, Names, HasFinished, HasFailed, JobSpec.Dependencies, JobSpec.Mode;
    TermsMean(spec, rts);
  }

  lemma QuietMeansNoneDead(specs: seq<JobSpec>, rts: seq<JobRuntime>, deps: seq<DependencyRuntime>, echo: bool)
    requires CountersOk(specs, rts, deps, {}, echo, 0) && Quiet(specs, rts, deps, 0)
    ensures NoneDead(specs, rts)
  {
    hide Successful, Unsuccessful, DependenciesDead, CounterOk, Quiet;
    forall id: JobId | Exists(|specs|, id) && rts[id - 1].state.Queued? && specs[id - 1].autoCancel
      ensures !DependenciesDead(specs[id - 1], Successful(rts), Unsuccessful(rts))
    {
      QuietMeansHope(specs, rts, deps, echo, id);
    }
  }

  lemma SuccessIsNotFailure(rts: seq<JobRuntime>)
    ensures Successful(rts) !! Unsuccessful(rts)
  {
  }

  /** A satisfied flag is never wrong about the job states, muted failures or not. */
  lemma SatisfiedMeansMet(specs: seq<JobSpec>, rts: seq<JobRuntime>, deps: seq<DependencyRuntime>,
                          muted: set<JobId>, echo: bool, id: JobId)
    requires CountersOk(specs, rts, deps, muted, echo, 0) && FlagsOk(specs, deps, 0) && Exists(|specs|, id)
    ensures deps[id - 1].depsSatisfied <==> DependenciesMet(specs[id - 1], Successful(rts))
  {
    hide Successful, Unsuccessful, AutoCancelled, Impossible, CounterOk;
    RecomputedMeaning(specs[id - 1], rts, 0);
  }
}
