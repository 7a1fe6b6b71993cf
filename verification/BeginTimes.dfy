/** Jobs with a begin time: which of them the queue can lose, and why those that wait for all their
    dependencies are never told anything once they are satisfied. */
module BeginTimes {
  import opened Types
  import opened Counting
  import opened Dependencies
  import opened JobInvariants
  import opened ReadyQueue
  import opened Cascades
  import opened TableInvariants

  // ---------- missed begin times ----------

  /** Job `id` has a begin time and its dependencies, but it is neither in the heap nor does it report
      that it waits for its begin time: nothing will bring it back. */
  predicate MissedAt(specs: seq<JobSpec>, rts: seq<JobRuntime>, d: seq<DependencyRuntime>, heap: multiset<ReadyEntry>,
                     id: JobId)
  {
    && |specs| == |rts| == |d| && Exists(|rts|, id)
    && specs[id - 1].scheduledAt.Some? && rts[id - 1].state.Queued? && d[id - 1].depsSatisfied
    && rts[id - 1].reason != Some(WaitingForStartTime) && LiveEntry(rts[id - 1], d[id - 1]) !in heap
  }

  /** No job that waits for all its dependencies, other than `skip`, has missed its begin time. */
  ghost predicate NoneMissed(specs: seq<JobSpec>, rts: seq<JobRuntime>, d: seq<DependencyRuntime>,
                             heap: multiset<ReadyEntry>, skip: JobId)
  {
    && |specs| == |rts| == |d|
    && forall id: JobId :: Exists(|specs|, id) && id != skip && specs[id - 1].Mode().All? ==>
         !MissedAt(specs, rts, d, heap, id)
  }

  lemma SkipMore(specs: seq<JobSpec>, rts: seq<JobRuntime>, d: seq<DependencyRuntime>, heap: multiset<ReadyEntry>,
                 id: JobId)
    requires NoneMissed(specs, rts, d, heap, 0)
    ensures NoneMissed(specs, rts, d, heap, id)
  {
  }

  /** Where only job `id` changes and no entry is taken away, only that job can come to miss its time. */
  lemma OneChanged(specs0: seq<JobSpec>, specs1: seq<JobSpec>, rts0: seq<JobRuntime>, rts1: seq<JobRuntime>,
                   d0: seq<DependencyRuntime>, d1: seq<DependencyRuntime>, heap0: multiset<ReadyEntry>,
                   heap1: multiset<ReadyEntry>, id: JobId)
    requires NoneMissed(specs0, rts0, d0, heap0, id) && Exists(|specs0|, id) && heap0 <= heap1
    requires |specs1| == |specs0| && specs1 == specs0[id - 1 := specs1[id - 1]]
    requires |rts1| == |rts0| && rts1 == rts0[id - 1 := rts1[id - 1]]
    requires |d1| == |d0| && d1 == d0[id - 1 := d1[id - 1]]
    ensures NoneMissed(specs1, rts1, d1, heap1, id)
    ensures specs1[id - 1].Mode().Any? || !MissedAt(specs1, rts1, d1, heap1, id) ==>
              NoneMissed(specs1, rts1, d1, heap1, 0)
  {
    hide LiveEntry;
    forall j: JobId | Exists(|specs1|, j) && j != id && specs1[j - 1].Mode().All?
      ensures !MissedAt(specs1, rts1, d1, heap1, j)
    {
      assert !MissedAt(specs0, rts0, d0, heap0, j);
    }
  }

  /** What a move of job `id` means for everything that holds on top of the invariant. */
  lemma MoveKeepsOrder(specs: seq<JobSpec>, rts0: seq<JobRuntime>, rts1: seq<JobRuntime>, d0: seq<DependencyRuntime>,
                       d1: seq<DependencyRuntime>, heap: multiset<ReadyEntry>, id: JobId, next: JobState,
                       reason: Option<Reason>, now: Time)
    requires |specs| == |rts0| == |d0| && Exists(|rts0|, id) && HeapOk(rts0, d0, heap, 0)
    requires rts1 == rts0[id - 1 := Moved(rts0[id - 1], next, reason, now)] && d1 == EpochBumped(d0, id)
    ensures Quiet(specs, rts0, d0, id) ==> Quiet(specs, rts1, d1, if next.Queued? then id else 0)
    ensures NoneMissed(specs, rts0, d0, heap, id) ==> NoneMissed(specs, rts1, d1, heap, if next.Queued? then id else 0)
    ensures forall t :: NoneEarly(specs, d0, heap, t) ==> NoneEarly(specs, d1, heap, t)
    ensures NoneOutranked(rts0, heap) ==> NoneOutranked(rts1, heap)
  {
    hide HeapOk, Quiet, NoneMissed, NoneEarly, NoneOutranked;
    if Quiet(specs, rts0, d0, id) {
      QuietAfterMove(specs, rts0, rts1, d0, d1, id, next, reason, now);
    }
    if NoneMissed(specs, rts0, d0, heap, id) {
      OneChanged(specs, specs, rts0, rts1, d0, d1, heap, heap, id);
    }
    forall t | NoneEarly(specs, d0, heap, t) ensures NoneEarly(specs, d1, heap, t) {
      NewEpochNoneEarly(specs, rts0, d0, d1, heap, 0, id, t);
    }
    if NoneOutranked(rts0, heap) {
      SameKeysNoneOutranked(rts0, rts1, heap);
    }
  }

  /** Setting a begin time makes no job miss it: without one, a satisfied job was in the heap. */
  lemma RescheduleMissesNothing(specs0: seq<JobSpec>, specs1: seq<JobSpec>, id: JobId, at: Time, rts: seq<JobRuntime>,
                                d: seq<DependencyRuntime>, heap: multiset<ReadyEntry>)
    requires NoneMissed(specs0, rts, d, heap, 0) && NoneLost(specs0, rts, d, heap, {}) && Exists(|specs0|, id)
    requires specs1 == specs0[id - 1 := specs0[id - 1].(scheduledAt := Some(at))]
    ensures NoneMissed(specs1, rts, d, heap, 0)
  {
    hide LiveEntry;
    SkipMore(specs0, rts, d, heap, id);
    OneChanged(specs0, specs1, rts, rts, d, d, heap, heap, id);
    assert specs0[id - 1].Mode().All? ==> !MissedAt(specs0, rts, d, heap, id);
  }

  lemma GpusMissNothing(specs: seq<JobSpec>, rts0: seq<JobRuntime>, rts1: seq<JobRuntime>, id: JobId,
                        gpus: Option<seq<nat>>, d: seq<DependencyRuntime>, heap: multiset<ReadyEntry>)
    requires Exists(|rts0|, id) && rts1 == rts0[id - 1 := rts0[id - 1].(gpuIds := gpus)]
    requires NoneMissed(specs, rts0, d, heap, 0)
    ensures NoneMissed(specs, rts1, d, heap, 0)
  {
    hide TimeBonus;
    SkipMore(specs, rts0, d, heap, id);
    OneChanged(specs, specs, rts0, rts1, d, d, heap, heap, id);
    assert specs[id - 1].Mode().All? ==> !MissedAt(specs, rts0, d, heap, id);
  }

  lemma AppendMissesNothing(specs: seq<JobSpec>, rts: seq<JobRuntime>, d: seq<DependencyRuntime>,
                            heap: multiset<ReadyEntry>, spec: JobSpec, rt: JobRuntime, dep: DependencyRuntime)
    requires NoneMissed(specs, rts, d, heap, 0)
    ensures NoneMissed(specs + [spec], rts + [rt], d + [dep], heap, |rts| + 1)
  {
    hide LiveEntry;
    forall j: JobId | Exists(|specs|, j) && specs[j - 1].Mode().All?
      ensures !MissedAt(specs + [spec], rts + [rt], d + [dep], heap, j)
    {
      assert !MissedAt(specs, rts, d, heap, j);
    }
  }

  // ---------- being told ----------

  /** Job `id` reports that it waits for its begin time, which has come, and is not in the heap. */
  predicate Dozing(specs: seq<JobSpec>, rts: seq<JobRuntime>, d: seq<DependencyRuntime>, heap: multiset<ReadyEntry>,
                   id: JobId, now: Time)
  {
    && |specs| == |rts| == |d| && Exists(|rts|, id)
    && specs[id - 1].scheduledAt.Some? && !specs[id - 1].StartsAfter(now) && rts[id - 1].state.Queued?
    && rts[id - 1].reason == Some(WaitingForStartTime) && LiveEntry(rts[id - 1], d[id - 1]) !in heap
  }

  /** Being told of a settled dependency now would leave job `id`, if it stays queued, having missed its
      begin time: it had missed it already and the time has come, or it was dozing and satisfied. */
  predicate WillMiss(specs: seq<JobSpec>, rts: seq<JobRuntime>, d: seq<DependencyRuntime>, heap: multiset<ReadyEntry>,
                     id: JobId, now: Time)
  {
    || (MissedAt(specs, rts, d, heap, id) && !specs[id - 1].StartsAfter(now))
    || (Dozing(specs, rts, d, heap, id, now) && d[id - 1].depsSatisfied)
  }

  /** A job was told of a settled dependency and stays queued. It has then missed its begin time exactly in
      the case above, so never if it waits for all its dependencies, and is not dozing. */
  lemma SparedAfter(specs: seq<JobSpec>, rts0: seq<JobRuntime>, rts1: seq<JobRuntime>, d0: seq<DependencyRuntime>,
                    d1: seq<DependencyRuntime>, heap0: multiset<ReadyEntry>, heap1: multiset<ReadyEntry>, id: JobId,
                    ok: bool, now: Time)
    requires |specs| == |rts0| && FlagsOk(specs, d0, 0) && Exists(|specs|, id)
    requires d0[id - 1].success < |specs[id - 1].Dependencies()|
    requires d1 == d0[id - 1 := Counted(specs[id - 1], d0[id - 1], ok)]
    requires rts1 == rts0[id - 1 := Synced(specs, rts0, d1, id, now)]
    requires heap1 == heap0 +
               if rts1[id - 1].state.Queued? && !specs[id - 1].StartsAfter(now)
                  && !d0[id - 1].depsSatisfied && d1[id - 1].depsSatisfied
               then multiset{LiveEntry(rts1[id - 1], d1[id - 1])} else multiset{}
    ensures MissedAt(specs, rts1, d1, heap1, id) <==> WillMiss(specs, rts0, d0, heap0, id, now)
    ensures specs[id - 1].Mode().All? ==> !MissedAt(specs, rts1, d1, heap1, id)
    ensures !Dozing(specs, rts1, d1, heap1, id, now)
  {
    hide TimeBonus;
    assert d0[id - 1] == WithFlags(specs[id - 1].Mode(), |specs[id - 1].Dependencies()|, d0[id - 1].success,
                                   d0[id - 1].terminalNonSuccess, d0[id - 1].readyEpoch);
  }

  // ---------- begin times over a cascade ----------

  predicate Untold(before: DependencyRuntime, after: DependencyRuntime) {
    before.success == after.success && before.terminalNonSuccess == after.terminalNonSuccess
  }

  /** Job `id`, if still queued, was queued before. If it heard nothing, nothing about it has changed; if it
      was told of a settled dependency, it has missed its begin time exactly if the first news did that. */
  ghost predicate TimeKept(specs: seq<JobSpec>, rts0: seq<JobRuntime>, rts1: seq<JobRuntime>,
                           d0: seq<DependencyRuntime>, d1: seq<DependencyRuntime>, heap0: multiset<ReadyEntry>,
                           heap1: multiset<ReadyEntry>, now: Time, id: JobId)
    requires |specs| == |rts0| == |rts1| == |d0| == |d1| && Exists(|specs|, id)
  {
    var rt0, rt1, dep0, dep1 := rts0[id - 1], rts1[id - 1], d0[id - 1], d1[id - 1];
    rt1.state.Queued? ==>
      && rt0.state.Queued? && dep0.success <= dep1.success && dep0.terminalNonSuccess <= dep1.terminalNonSuccess
      && if Untold(dep0, dep1) then
           rt1 == rt0 && dep1 == dep0 && (LiveEntry(rt1, dep1) in heap1 <==> LiveEntry(rt0, dep0) in heap0)
         else
           && !Dozing(specs, rts1, d1, heap1, id, now)
           && (MissedAt(specs, rts1, d1, heap1, id) <==> WillMiss(specs, rts0, d0, heap0, id, now))
  }

  /** The same of every job. */
  ghost predicate TimesKept(specs: seq<JobSpec>, rts0: seq<JobRuntime>, rts1: seq<JobRuntime>,
                            d0: seq<DependencyRuntime>, d1: seq<DependencyRuntime>, heap0: multiset<ReadyEntry>,
                            heap1: multiset<ReadyEntry>, now: Time)
  {
    && |specs| == |rts0| == |rts1| == |d0| == |d1|
    && forall id: JobId :: Exists(|specs|, id) ==> TimeKept(specs, rts0, rts1, d0, d1, heap0, heap1, now, id)
  }

  /** What it means for missed begin times: who hears nothing stays as it was, who is told follows `WillMiss`. */
  lemma TimesKeptMeans(specs: seq<JobSpec>, rts0: seq<JobRuntime>, rts1: seq<JobRuntime>, d0: seq<DependencyRuntime>,
                       d1: seq<DependencyRuntime>, heap0: multiset<ReadyEntry>, heap1: multiset<ReadyEntry>, now: Time,
                       id: JobId)
    requires TimesKept(specs, rts0, rts1, d0, d1, heap0, heap1, now) && Exists(|specs|, id)
    ensures MissedAt(specs, rts1, d1, heap1, id) <==>
              && rts1[id - 1].state.Queued?
              && if Untold(d0[id - 1], d1[id - 1]) then MissedAt(specs, rts0, d0, heap0, id)
                 else WillMiss(specs, rts0, d0, heap0, id, now)
  {
    hide WillMiss, LiveEntry;
    assert TimeKept(specs, rts0, rts1, d0, d1, heap0, heap1, now, id);
  }

  lemma TimesStandStill(specs: seq<JobSpec>, rts: seq<JobRuntime>, d: seq<DependencyRuntime>,
                        heap: multiset<ReadyEntry>, now: Time)
    requires |specs| == |rts| == |d|
    ensures TimesKept(specs, rts, rts, d, d, heap, heap, now)
  {
    hide LiveEntry, MissedAt, Dozing;
  }

  lemma TimeGoesOn(specs: seq<JobSpec>, rts0: seq<JobRuntime>, rts1: seq<JobRuntime>, rts2: seq<JobRuntime>,
                   d0: seq<DependencyRuntime>, d1: seq<DependencyRuntime>, d2: seq<DependencyRuntime>,
                   heap0: multiset<ReadyEntry>, heap1: multiset<ReadyEntry>, heap2: multiset<ReadyEntry>, now: Time,
                   id: JobId)
    requires |specs| == |rts0| == |rts1| == |rts2| == |d0| == |d1| == |d2| && Exists(|specs|, id)
    requires TimeKept(specs, rts0, rts1, d0, d1, heap0, heap1, now, id)
    requires TimeKept(specs, rts1, rts2, d1, d2, heap1, heap2, now, id)
    ensures TimeKept(specs, rts0, rts2, d0, d2, heap0, heap2, now, id)
  {
    hide LiveEntry;
  }

  lemma TimesGoOn(specs: seq<JobSpec>, rts0: seq<JobRuntime>, rts1: seq<JobRuntime>, rts2: seq<JobRuntime>,
                  d0: seq<DependencyRuntime>, d1: seq<DependencyRuntime>, d2: seq<DependencyRuntime>,
                  heap0: multiset<ReadyEntry>, heap1: multiset<ReadyEntry>, heap2: multiset<ReadyEntry>, now: Time)
    requires TimesKept(specs, rts0, rts1, d0, d1, heap0, heap1, now)
    requires TimesKept(specs, rts1, rts2, d1, d2, heap1, heap2, now)
    ensures TimesKept(specs, rts0, rts2, d0, d2, heap0, heap2, now)
  {
    hide TimeKept;
    forall id: JobId | Exists(|specs|, id) ensures TimeKept(specs, rts0, rts2, d0, d2, heap0, heap2, now, id) {
      TimeGoesOn(specs, rts0, rts1, rts2, d0, d1, d2, heap0, heap1, heap2, now, id);
    }
  }

  /** A job that leaves the queue matters to nobody's begin time. */
  lemma OneLeaves(specs: seq<JobSpec>, rts0: seq<JobRuntime>, rts1: seq<JobRuntime>, d0: seq<DependencyRuntime>,
                  d1: seq<DependencyRuntime>, heap: multiset<ReadyEntry>, id: JobId, now: Time)
    requires |specs| == |rts0| == |rts1| == |d0| == |d1| && Exists(|specs|, id) && !rts1[id - 1].state.Queued?
    requires rts1 == rts0[id - 1 := rts1[id - 1]] && d1 == d0[id - 1 := d1[id - 1]]
    ensures TimesKept(specs, rts0, rts1, d0, d1, heap, heap, now)
  {
    hide LiveEntry, MissedAt, Dozing;
  }

  /** A job that is told and stays queued. */
  lemma OneIsTold(specs: seq<JobSpec>, rts0: seq<JobRuntime>, rts1: seq<JobRuntime>, d0: seq<DependencyRuntime>,
                  d1: seq<DependencyRuntime>, heap0: multiset<ReadyEntry>, heap1: multiset<ReadyEntry>, id: JobId,
                  ok: bool, now: Time)
    requires |specs| == |rts0| == |d0| && FlagsOk(specs, d0, 0) && Exists(|specs|, id) && RuntimesOk(rts0)
    requires d0[id - 1].success < |specs[id - 1].Dependencies()|
    requires d1 == d0[id - 1 := Counted(specs[id - 1], d0[id - 1], ok)]
    requires rts1 == rts0[id - 1 := Synced(specs, rts0, d1, id, now)]
    requires heap1 == heap0 +
               if rts1[id - 1].state.Queued? && !specs[id - 1].StartsAfter(now)
                  && !d0[id - 1].depsSatisfied && d1[id - 1].depsSatisfied
               then multiset{LiveEntry(rts1[id - 1], d1[id - 1])} else multiset{}
    ensures TimesKept(specs, rts0, rts1, d0, d1, heap0, heap1, now)
  {
    hide MissedAt, Dozing, WillMiss, WaitReason, TimeBonus, FlagsOk, RuntimeOk;
    SparedAfter(specs, rts0, rts1, d0, d1, heap0, heap1, id, ok, now);
    forall j: JobId | Exists(|specs|, j) ensures TimeKept(specs, rts0, rts1, d0, d1, heap0, heap1, now, j) {
      if j != id {
        assert rts0[j - 1].id == j && rts0[id - 1].id == id;
      }
    }
  }

  /** A job that is told and then leaves the queue, with all that happens on the way. */
  lemma OneIsToldAndLeaves(specs: seq<JobSpec>, rts0: seq<JobRuntime>, rts1: seq<JobRuntime>, rts2: seq<JobRuntime>,
                           d0: seq<DependencyRuntime>, d1: seq<DependencyRuntime>, d2: seq<DependencyRuntime>,
                           heap0: multiset<ReadyEntry>, heap1: multiset<ReadyEntry>, id: JobId, now: Time)
    requires |specs| == |rts0| == |rts1| == |d0| == |d1| && Exists(|specs|, id)
    requires rts1 == rts0[id - 1 := rts1[id - 1]] && d1 == d0[id - 1 := d1[id - 1]]
    requires TimesKept(specs, rts1, rts2, d1, d2, heap0, heap1, now) && !rts2[id - 1].state.Queued?
    ensures TimesKept(specs, rts0, rts2, d0, d2, heap0, heap1, now)
  {
    hide LiveEntry;
    forall j: JobId | Exists(|specs|, j) ensures TimeKept(specs, rts0, rts2, d0, d2, heap0, heap1, now, j) {
      assert TimeKept(specs, rts1, rts2, d1, d2, heap0, heap1, now, j);
    }
  }

  /** Over an announced transition the jobs that are told are those that depend on the source or on a job
      that the cascade cancelled. */
  lemma ToldExactly(specs: seq<JobSpec>, d0: seq<DependencyRuntime>, d1: seq<DependencyRuntime>, source: JobId,
                    order: seq<JobId>, ok: bool, echo: bool, id: JobId)
    requires CountersMoved(specs, d0, d1, if ok then Announced(source, order, echo) else multiset{},
                           if ok then multiset{} else Announced(source, order, echo))
    requires Exists(|specs|, id)
    ensures !Untold(d0[id - 1], d1[id - 1]) <==>
              exists x :: DependsOn(specs, id, x) && (x == source || x in order)
  {
    hide Announced;
    var deps, bag := specs[id - 1].Dependencies(), Announced(source, order, echo);
    HitsNone(deps);
    AnnouncedMembers(source, order, echo);
    NoHits(deps, bag);
    assert forall x :: DependsOn(specs, id, x) <==> x in deps;
    assert Hits(deps, if ok then multiset{} else bag) + Hits(deps, if ok then bag else multiset{}) == Hits(deps, bag);
    assert Untold(d0[id - 1], d1[id - 1]) <==> Hits(deps, bag) == 0;
  }

  lemma AnnouncedMembers(source: JobId, order: seq<JobId>, echo: bool)
    ensures forall x :: x in Announced(source, order, echo) <==> x == source || x in order
  {
  }

  // ---------- who can still be told ----------

  /** No job has heard of the success of a dependency in `open`. */
  ghost predicate Unheard(specs: seq<JobSpec>, d: seq<DependencyRuntime>, open: set<JobId>) {
    && |d| == |specs|
    && forall id: JobId, x: JobId :: DependsOn(specs, id, x) && x in open ==>
         d[id - 1].success < |specs[id - 1].Dependencies()|
  }

  /** Exact success counters have not heard of what is not settled. */
  lemma UnsettledIsUnheard(specs: seq<JobSpec>, rts: seq<JobRuntime>, d: seq<DependencyRuntime>, muted: set<JobId>,
                           echo: bool)
    requires CountersOk(specs, rts, d, muted, echo, 0)
    ensures Unheard(specs, d, Unsettled(rts))
  {
    hide CounterOk, Successful, Unsettled;
    SettledOrNot(rts);
    forall id: JobId, x: JobId | DependsOn(specs, id, x) && x in Unsettled(rts)
      ensures d[id - 1].success < |specs[id - 1].Dependencies()|
    {
      CountInExtremes(specs[id - 1].Dependencies(), Successful(rts));
    }
  }

  lemma SettledOrNot(rts: seq<JobRuntime>)
    ensures Successful(rts) !! Unsettled(rts)
  {
  }

  lemma UnheardStill(specs: seq<JobSpec>, d0: seq<DependencyRuntime>, d1: seq<DependencyRuntime>, open: set<JobId>,
                     less: set<JobId>)
    requires Unheard(specs, d0, open) && less <= open && |d1| == |d0|
    requires forall i :: 0 <= i < |d0| ==> d1[i].success == d0[i].success
    ensures Unheard(specs, d1, less)
  {
  }

  /** While a failure is announced nobody hears of a success, and while a success is announced the
      dependents whose turn has not come have not heard of it. */
  lemma UntoldIsUnheard(specs: seq<JobSpec>, rts0: seq<JobRuntime>, rts1: seq<JobRuntime>, d0: seq<DependencyRuntime>,
                        d1: seq<DependencyRuntime>, sources: seq<(JobId, bool)>, source: JobId, order: seq<JobId>,
                        ok: bool, notes: multiset<JobId>, list: seq<JobId>, i: nat, current: JobId, echo: bool)
    requires i < |list| && Ascending(list) && DependsOn(specs, list[i], current)
    requires Cascading(specs, rts0, rts1, d0, d1, source, order, ok, notes, list[..i])
    requires Agenda(sources, multiset{current}, source, order, ok, notes, echo)
    requires Unheard(specs, d0, Unsettled(rts0) + {source}) && Unsettled(rts1) <= Unsettled(rts0)
    ensures |d1| == |specs| && d1[list[i] - 1].success < |specs[list[i] - 1].Dependencies()|
    ensures !ok ==> Unheard(specs, d1, Unsettled(rts1))
  {
    hide Justified, Unsettled, Cancels, CountersPartly, Unheard;
    UntoldIsOpen(rts0, rts1, sources, source, order, ok, notes, current, echo);
    if ok {
      UntoldSuccess(specs, d0, d1, list, i);
      UnheardAt(specs, d0, Unsettled(rts0) + {source}, list[i], current);
    } else {
      FailuresAreSilent(specs, d0, d1, notes, list[..i]);
      UnheardStill(specs, d0, d1, Unsettled(rts0) + {source}, Unsettled(rts1));
      UnheardAt(specs, d0, Unsettled(rts0) + {source}, list[i], current);
    }
  }

  lemma UnheardAt(specs: seq<JobSpec>, d: seq<DependencyRuntime>, open: set<JobId>, id: JobId, x: JobId)
    requires Unheard(specs, d, open) && DependsOn(specs, id, x) && x in open
    ensures |d| == |specs| && d[id - 1].success < |specs[id - 1].Dependencies()|
  {
  }

  lemma UntoldIsOpen(rts0: seq<JobRuntime>, rts1: seq<JobRuntime>, sources: seq<(JobId, bool)>, source: JobId,
                     order: seq<JobId>, ok: bool, notes: multiset<JobId>, current: JobId, echo: bool)
    requires Cancels(rts0, rts1, order) && (ok ==> order == [])
    requires Agenda(sources, multiset{current}, source, order, ok, notes, echo)
    ensures current in Unsettled(rts0) + {source}
    ensures ok ==> notes == multiset{}
  {
    hide Unsettled, Cancels;
    CancelsSets(rts0, rts1, order);
    assert current in multiset{current};
    if ok {
      assert Announced(source, [], echo) == multiset{source};
      assert current == source && notes + multiset{source} <= multiset{source};
      assert notes == notes + multiset{source} - multiset{source};
    }
  }

  lemma UntoldSuccess(specs: seq<JobSpec>, d0: seq<DependencyRuntime>, d1: seq<DependencyRuntime>, list: seq<JobId>,
                      i: nat)
    requires i < |list| && Ascending(list) && Exists(|specs|, list[i])
    requires CountersPartly(specs, d0, d1, multiset{}, multiset{}, true, list[..i])
    ensures |d1| == |d0| == |specs| && d1[list[i] - 1].success == d0[list[i] - 1].success
  {
    HitsNone(specs[list[i] - 1].Dependencies());
  }

  lemma FailuresAreSilent(specs: seq<JobSpec>, d0: seq<DependencyRuntime>, d1: seq<DependencyRuntime>,
                          notes: multiset<JobId>, told: seq<JobId>)
    requires CountersPartly(specs, d0, d1, multiset{}, notes, false, told)
    ensures |d1| == |d0| == |specs| && forall i :: 0 <= i < |d0| ==> d1[i].success == d0[i].success
  {
    forall i | 0 <= i < |d0| ensures d1[i].success == d0[i].success {
      assert Exists(|specs|, i + 1);
      HitsNone(specs[i].Dependencies());
    }
  }
}
