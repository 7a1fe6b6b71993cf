/** Invariants of the job table, stated over the values of its fields. */
module JobInvariants {
  import opened Types
  import opened Dependencies
  import opened Tally

  // ---------- the key sets behind the indexes ----------

  ghost function DependencyKeys(specs: seq<JobSpec>): (keys: seq<set<JobId>>)
    ensures |keys| == |specs|
  {
    seq(|specs|, i requires 0 <= i < |specs| => Elements(specs[i].Dependencies()))
  }

  ghost function UserKeys(specs: seq<JobSpec>): (keys: seq<set<string>>)
    ensures |keys| == |specs|
  {
    seq(|specs|, i requires 0 <= i < |specs| => {specs[i].submittedBy})
  }

  ghost function ProjectKeys(specs: seq<JobSpec>): (keys: seq<set<string>>)
    ensures |keys| == |specs|
  {
    seq(|specs|, i requires 0 <= i < |specs| =>
      if specs[i].project.Some? then {specs[i].project.value} else {})
  }

  ghost function StateKeys(rts: seq<JobRuntime>): (keys: seq<set<JobState>>)
    ensures |keys| == |rts|
  {
    seq(|rts|, i requires 0 <= i < |rts| => {rts[i].state})
  }

  // ---------- the shares behind the running totals ----------

  function GroupShare(rt: JobRuntime): Option<(nat, nat)> {
    if rt.state.Running? && rt.group.Some? then Some((rt.group.value, rt.gpus)) else None
  }

  function UserShare(spec: JobSpec, rt: JobRuntime): Option<(string, nat)> {
    if rt.state.Running? then Some((spec.submittedBy, rt.gpus)) else None
  }

  function ProjectShare(spec: JobSpec, rt: JobRuntime): Option<(string, nat)> {
    if rt.state.Running? && spec.project.Some? then Some((spec.project.value, rt.gpus)) else None
  }

  ghost function GroupShares(rts: seq<JobRuntime>): (shares: Shares<nat>)
    ensures |shares| == |rts|
  {
    seq(|rts|, i requires 0 <= i < |rts| => GroupShare(rts[i]))
  }

  ghost function UserShares(specs: seq<JobSpec>, rts: seq<JobRuntime>): (shares: Shares<string>)
    requires |specs| == |rts|
    ensures |shares| == |rts|
  {
    seq(|rts|, i requires 0 <= i < |rts| => UserShare(specs[i], rts[i]))
  }

  ghost function ProjectShares(specs: seq<JobSpec>, rts: seq<JobRuntime>): (shares: Shares<string>)
    requires |specs| == |rts|
    ensures |shares| == |rts|
  {
    seq(|rts|, i requires 0 <= i < |rts| => ProjectShare(specs[i], rts[i]))
  }

  // ---------- the life of a job ----------

  ghost predicate AllocationOk(rt: JobRuntime) {
    rt.gpuIds.Some? && |rt.gpuIds.value| == rt.gpus && Distinct(rt.gpuIds.value)
  }

  /** Timestamps agree with the state. */
  ghost predicate RuntimeOk(rt: JobRuntime) {
    && (rt.state.IsPending() ==> rt.startedAt.None?)
    && (rt.state.Running? || rt.state.Finished? || rt.state.Failed? || rt.state.Timeout? ==> rt.startedAt.Some?)
    && (rt.state.IsFinal() ==> rt.finishedAt.Some?)
  }

  ghost predicate RuntimesOk(rts: seq<JobRuntime>) {
    forall id: JobId :: Exists(|rts|, id) ==> rts[id - 1].id == id && RuntimeOk(rts[id - 1])
  }

  /** Every running job holds exactly as many distinct GPUs as it asked for. */
  ghost predicate Allocated(rts: seq<JobRuntime>) {
    forall id: JobId :: Exists(|rts|, id) && rts[id - 1].state.Running? ==> AllocationOk(rts[id - 1])
  }

  lemma IdsOk(rts: seq<JobRuntime>, id: JobId)
    requires RuntimesOk(rts) && Exists(|rts|, id)
    ensures rts[id - 1].id == id
  {
  }

  /** Every job that ever started has its dependencies met by the jobs' actual states. */
  ghost predicate StartedSafely(specs: seq<JobSpec>, rts: seq<JobRuntime>)
    requires |specs| == |rts|
  {
    forall id: JobId :: Exists(|specs|, id) && rts[id - 1].startedAt.Some? ==>
      DependenciesMet(specs[id - 1], Successful(rts))
  }

  /** Job `id` is running and holds `gpu`. */
  predicate RunsOn(rts: seq<JobRuntime>, id: JobId, gpu: nat) {
    && Exists(|rts|, id)
    && rts[id - 1].state.Running? && rts[id - 1].gpuIds.Some? && gpu in rts[id - 1].gpuIds.value
  }

  /** Two running jobs on one GPU are both sharing it. */
  ghost predicate GpusExclusive(rts: seq<JobRuntime>) {
    forall a: JobId, b: JobId, gpu | RunsOn(rts, a, gpu) && RunsOn(rts, b, gpu) && a != b ::
      rts[a - 1].sharing.Shared? && rts[b - 1].sharing.Shared?
  }

  /** What job `id` must satisfy to be allowed onto its GPUs next to the jobs now running. */
  ghost predicate GpusFit(rts: seq<JobRuntime>, id: JobId)
    requires Exists(|rts|, id)
  {
    && AllocationOk(rts[id - 1])
    && forall b: JobId, gpu | RunsOn(rts, b, gpu) && b != id && gpu in rts[id - 1].gpuIds.value ::
         rts[id - 1].sharing.Shared? && rts[b - 1].sharing.Shared?
  }

  // ---------- how state changes act on these ----------

  function Moved(rt: JobRuntime, next: JobState, reason: Option<Reason>, now: Time): JobRuntime {
    var stamped :=
      if next.Running? then rt.(startedAt := Some(now))
      else if next.IsFinal() then rt.(finishedAt := Some(now))
      else rt;
    stamped.(state := next, reason := reason)
  }

  /** Everything but waiting reasons is the same. */
  ghost predicate SameButReasons(rts0: seq<JobRuntime>, rts1: seq<JobRuntime>) {
    |rts0| == |rts1| && forall i :: 0 <= i < |rts0| ==> rts1[i] == rts0[i].(reason := rts1[i].reason)
  }

  lemma ReasonsAreHarmless(specs: seq<JobSpec>, rts0: seq<JobRuntime>, rts1: seq<JobRuntime>)
    requires |specs| == |rts0| && SameButReasons(rts0, rts1)
    ensures StateKeys(rts1) == StateKeys(rts0)
    ensures GroupShares(rts1) == GroupShares(rts0)
    ensures UserShares(specs, rts1) == UserShares(specs, rts0)
    ensures ProjectShares(specs, rts1) == ProjectShares(specs, rts0)
    ensures Successful(rts1) == Successful(rts0) && Unsuccessful(rts1) == Unsuccessful(rts0)
    ensures Unsettled(rts1) == Unsettled(rts0)
    ensures RuntimesOk(rts0) ==> RuntimesOk(rts1)
    ensures StartedSafely(specs, rts0) ==> StartedSafely(specs, rts1)
    ensures GpusExclusive(rts0) ==> GpusExclusive(rts1)
  {
    assert forall i :: 0 <= i < |rts0| ==> rts1[i].state == rts0[i].state && rts1[i].gpus == rts0[i].gpus;
    if GpusExclusive(rts0) {
      GpusExclusiveShrinks(rts0, rts1);
    }
  }

  lemma MoveFinished(rts: seq<JobRuntime>, id: JobId, next: JobState, reason: Option<Reason>, now: Time)
    requires Exists(|rts|, id) && !rts[id - 1].state.IsFinal()
    ensures var rts' := rts[id - 1 := Moved(rts[id - 1], next, reason, now)];
      && Successful(rts') == Successful(rts) + (if next.Finished? then {id} else {})
      && Unsuccessful(rts') ==
           Unsuccessful(rts) + (if next.IsFinal() && !next.Finished? then {id} else {})
      && Unsettled(rts') == Unsettled(rts) - (if next.IsFinal() then {id} else {})
      && AutoCancelled(rts) <= AutoCancelled(rts')
      && id !in Successful(rts) && id !in Unsuccessful(rts) && id in Unsettled(rts)
  {
    var rts' := rts[id - 1 := Moved(rts[id - 1], next, reason, now)];
    assert Exists(|rts|, id);
    forall j: JobId
      ensures j in Successful(rts') <==> j in Successful(rts) + (if next.Finished? then {id} else {})
      ensures j in Unsuccessful(rts') <==>
              j in Unsuccessful(rts) + (if next.IsFinal() && !next.Finished? then {id} else {})
      ensures j in Unsettled(rts') <==> j in Unsettled(rts) - (if next.IsFinal() then {id} else {})
      ensures j in AutoCancelled(rts) ==> j in AutoCancelled(rts')
    {
      assert Exists(|rts|, j) <==> Exists(|rts'|, j);
    }
  }

  lemma StartedSafelyGrows(specs: seq<JobSpec>, rts0: seq<JobRuntime>, rts1: seq<JobRuntime>)
    requires |specs| == |rts0| == |rts1| && StartedSafely(specs, rts0)
    requires Successful(rts0) <= Successful(rts1)
    requires forall id: JobId :: Exists(|rts0|, id) && rts1[id - 1].startedAt.Some? ==>
               rts0[id - 1].startedAt.Some? || DependenciesMet(specs[id - 1], Successful(rts1))
    ensures StartedSafely(specs, rts1)
  {
  }

  /** Leaving or never entering the running set cannot cause a clash. */
  lemma GpusExclusiveShrinks(rts0: seq<JobRuntime>, rts1: seq<JobRuntime>)
    requires |rts0| == |rts1| && GpusExclusive(rts0)
    requires forall id: JobId :: Exists(|rts0|, id) && rts1[id - 1].state.Running? ==>
               && rts0[id - 1].state.Running? && rts1[id - 1].gpuIds == rts0[id - 1].gpuIds
               && rts1[id - 1].sharing == rts0[id - 1].sharing
    ensures GpusExclusive(rts1)
  {
    forall a: JobId, b: JobId, gpu | RunsOn(rts1, a, gpu) && RunsOn(rts1, b, gpu) && a != b
      ensures rts1[a - 1].sharing.Shared? && rts1[b - 1].sharing.Shared?
    {
      assert RunsOn(rts0, a, gpu) && RunsOn(rts0, b, gpu);
    }
  }

  lemma MoveKeepsExclusive(rts: seq<JobRuntime>, id: JobId, next: JobState, reason: Option<Reason>, now: Time)
    requires Exists(|rts|, id) && GpusExclusive(rts)
    requires !rts[id - 1].state.Running? || !next.Running?
    requires next.Running? ==> GpusFit(rts, id)
    ensures GpusExclusive(rts[id - 1 := Moved(rts[id - 1], next, reason, now)])
  {
    var rts' := rts[id - 1 := Moved(rts[id - 1], next, reason, now)];
    forall a: JobId, b: JobId, gpu | RunsOn(rts', a, gpu) && RunsOn(rts', b, gpu) && a != b
      ensures rts'[a - 1].sharing.Shared? && rts'[b - 1].sharing.Shared?
    {
      assert a != id ==> RunsOn(rts, a, gpu);
      assert b != id ==> RunsOn(rts, b, gpu);
    }
  }

  /** Putting a moved job's state back gives the old key sets and shares. */
  lemma MovedBack(specs: seq<JobSpec>, rts0: seq<JobRuntime>, rts1: seq<JobRuntime>,
                  id: JobId, next: JobState, reason: Option<Reason>, now: Time)
    requires |specs| == |rts0| && Exists(|rts0|, id)
    requires rts1 == rts0[id - 1 := Moved(rts0[id - 1], next, reason, now)]
    ensures var before := rts0[id - 1].state;
      && StateKeys(rts1)[id - 1 := {before}] == StateKeys(rts0)
      && GroupShares(rts1)[id - 1 := GroupShare(rts1[id - 1].(state := before))] == GroupShares(rts0)
      && UserShares(specs, rts1)[id - 1 := UserShare(specs[id - 1], rts1[id - 1].(state := before))]
         == UserShares(specs, rts0)
      && ProjectShares(specs, rts1)[id - 1 := ProjectShare(specs[id - 1], rts1[id - 1].(state := before))]
         == ProjectShares(specs, rts0)
  {
  }

  // ---------- running jobs over time ----------

  /** Every running job of `rts1` was running in `rts0` already, and is the same but for its reason. */
  ghost predicate RunningShrinks(rts0: seq<JobRuntime>, rts1: seq<JobRuntime>) {
    && |rts0| == |rts1|
    && forall id: JobId :: Exists(|rts0|, id) && rts1[id - 1].state.Running? ==>
         rts0[id - 1].state.Running? && rts1[id - 1] == rts0[id - 1].(reason := rts1[id - 1].reason)
  }

  lemma RunningShrinksTrans(rts0: seq<JobRuntime>, rts1: seq<JobRuntime>, rts2: seq<JobRuntime>)
    requires RunningShrinks(rts0, rts1) && RunningShrinks(rts1, rts2)
    ensures RunningShrinks(rts0, rts2)
  {
  }

  lemma MoveShrinks(rts: seq<JobRuntime>, id: JobId, next: JobState, reason: Option<Reason>, now: Time)
    requires Exists(|rts|, id) && !next.Running?
    ensures RunningShrinks(rts, rts[id - 1 := Moved(rts[id - 1], next, reason, now)])
  {
  }

  lemma ReasonsShrink(rts0: seq<JobRuntime>, rts1: seq<JobRuntime>)
    requires SameButReasons(rts0, rts1)
    ensures RunningShrinks(rts0, rts1)
  {
  }

  lemma CascadeShrinks(rts0: seq<JobRuntime>, rts1: seq<JobRuntime>, order: seq<JobId>)
    requires Cancels(rts0, rts1, order)
    ensures RunningShrinks(rts0, rts1)
  {
  }

  // ---------- jobs that have run ----------

  /** The job is past waiting, asks for the same memory as before, and has been given no GPU ids. */
  predicate RanOn(before: JobRuntime, after: JobRuntime) {
    && !after.state.IsPending() && after.memoryLimit == before.memoryLimit
    && after.gpuMemoryLimit == before.gpuMemoryLimit && after.gpus == before.gpus
    && (after.gpuIds.Some? ==> before.gpuIds.Some?)
  }

  /** So it is with every job of `rts0` that was past waiting. */
  ghost predicate RanStays(rts0: seq<JobRuntime>, rts1: seq<JobRuntime>) {
    && |rts0| <= |rts1|
    && forall id: JobId :: Exists(|rts0|, id) && !rts0[id - 1].state.IsPending() ==> RanOn(rts0[id - 1], rts1[id - 1])
  }

  lemma RanStaysTrans(rts0: seq<JobRuntime>, rts1: seq<JobRuntime>, rts2: seq<JobRuntime>)
    requires RanStays(rts0, rts1) && RanStays(rts1, rts2)
    ensures RanStays(rts0, rts2)
  {
    forall id: JobId | Exists(|rts0|, id) && !rts0[id - 1].state.IsPending()
      ensures RanOn(rts0[id - 1], rts2[id - 1])
    {
      assert Exists(|rts1|, id) && RanOn(rts0[id - 1], rts1[id - 1]) && RanOn(rts1[id - 1], rts2[id - 1]);
    }
  }

  lemma MoveStays(rts: seq<JobRuntime>, id: JobId, next: JobState, reason: Option<Reason>, now: Time)
    requires Exists(|rts|, id) && rts[id - 1].state.CanTransitionTo(next)
    ensures RanStays(rts, rts[id - 1 := Moved(rts[id - 1], next, reason, now)])
  {
  }

  lemma ReasonsStay(rts0: seq<JobRuntime>, rts1: seq<JobRuntime>)
    requires SameButReasons(rts0, rts1)
    ensures RanStays(rts0, rts1)
  {
  }

  lemma CascadeStays(rts0: seq<JobRuntime>, rts1: seq<JobRuntime>, order: seq<JobId>)
    requires Cancels(rts0, rts1, order)
    ensures RanStays(rts0, rts1)
  {
  }

  lemma AppendStays(rts: seq<JobRuntime>, rt: JobRuntime)
    ensures RanStays(rts, rts + [rt])
  {
  }
}
