/** What the theorems say, in terms of the fields of jobs, GPU slots and quota tables alone. Nothing that
    the operations compute with is used here. */
module PlainTerms {
  import opened Types

  // ---------- dependencies ----------

  /** The specification names `d` as a dependency, in its list or in the legacy field. */
  predicate Names(spec: JobSpec, d: JobId) {
    d in spec.dependsOnIds || spec.dependsOn == Some(d)
  }

  predicate HasFinished(rts: seq<JobRuntime>, d: JobId) {
    1 <= d <= |rts| && rts[d - 1].state == JobState.Finished
  }

  /** Job `d` is over without success. */
  predicate HasFailed(rts: seq<JobRuntime>, d: JobId) {
    && 1 <= d <= |rts|
    && (rts[d - 1].state.Failed? || rts[d - 1].state.Cancelled? || rts[d - 1].state.Timeout?)
  }

  /** All dependencies have finished or, if the job asks for any of them, one has or there is none. */
  ghost predicate Ready(spec: JobSpec, rts: seq<JobRuntime>) {
    if spec.dependencyMode == Some(Any)
    then (exists d :: Names(spec, d) && HasFinished(rts, d)) || forall d :: !Names(spec, d)
    else forall d :: Names(spec, d) ==> HasFinished(rts, d)
  }

  /** Some dependency has failed or, if the job asks for any of them, there are some and all have. */
  ghost predicate Hopeless(spec: JobSpec, rts: seq<JobRuntime>) {
    if spec.dependencyMode == Some(Any)
    then (exists d :: Names(spec, d)) && forall d :: Names(spec, d) ==> HasFailed(rts, d)
    else exists d :: Names(spec, d) && HasFailed(rts, d)
  }

  /** What the flags say in terms of the counters. A failure counter that has run past the total turns the
      impossible flag of a job that needs any of its dependencies off again. */
  predicate FlagsSay(spec: JobSpec, dep: DependencyRuntime) {
    && (dep.depsSatisfied <==>
          dep.total == 0 || if spec.dependencyMode == Some(Any) then dep.success > 0 else dep.success == dep.total)
    && (dep.impossible <==>
          dep.total > 0 && if spec.dependencyMode == Some(Any)
                           then dep.success == 0 && dep.terminalNonSuccess == dep.total
                           else dep.terminalNonSuccess > 0)
  }

  /** The begin time has come, if there is one. */
  predicate Begun(spec: JobSpec, now: Time) {
    spec.scheduledAt == None || spec.scheduledAt.value <= now
  }

  // ---------- what a job starts with ----------

  /** The job is queued, and waits for its begin time, its dependencies, or nothing that it reports; or it was
      cancelled because of a dependency. */
  predicate QueuedOrDown(rt: JobRuntime) {
    match rt.state
    case Queued =>
      rt.reason == None || rt.reason == Some(WaitingForDependency) || rt.reason == Some(WaitingForStartTime)
    case Cancelled => rt.reason.Some? && rt.reason.value.DependencyFailed?
    case _ => false
  }

  /** Job `id` asks for what `request` asks for and never ran; it is queued, or was cancelled at once. */
  predicate BeginsAs(request: JobRuntime, rt: JobRuntime, id: JobId) {
    && rt == request.(id := id, state := rt.state, gpuIds := None, startedAt := None, finishedAt := rt.finishedAt,
                      reason := rt.reason)
    && QueuedOrDown(rt) && (rt.state == JobState.Queued ==> rt.finishedAt == None)
  }

  /** A running job has failed: nothing but its state, its time of ending and its reason has changed. */
  predicate HasJustFailed(before: JobRuntime, after: JobRuntime, now: Time) {
    && before.state == JobState.Running
    && after == before.(state := JobState.Failed, finishedAt := Some(now), reason := after.reason)
  }

  /** Between `before` and `after` a job has changed in nothing but the reason it reports, which a job that is
      not queued at most loses, or it was queued and is cancelled because of a dependency. */
  predicate LeftOrCancelled(before: JobRuntime, after: JobRuntime) {
    || (after == before.(reason := after.reason)
        && (after.reason == before.reason || after.reason == None || (before.state.Queued? && QueuedOrDown(after))))
    || (before.state == JobState.Queued && QueuedOrDown(after)
        && after == before.(state := JobState.Cancelled, finishedAt := after.finishedAt, reason := after.reason))
  }

  /** That holds for all jobs of `rts0` but job `id`. */
  ghost predicate OthersOnlyGoDown(rts0: seq<JobRuntime>, rts1: seq<JobRuntime>, id: JobId) {
    && |rts0| <= |rts1|
    && forall i :: 0 <= i < |rts0| && i + 1 != id ==> LeftOrCancelled(rts0[i], rts1[i])
  }

  // ---------- what a retry waits for, and who waits for it ----------

  /** The legacy field repeats the dependency if there is one only, and is empty otherwise. */
  predicate RepeatsOnlyOne(spec: JobSpec) {
    if |spec.dependsOnIds| == 1 then spec.dependsOn == Some(spec.dependsOnIds[0]) else spec.dependsOn == None
  }

  /** The retry names what the job names, has no begin time, and is the same in everything else. */
  ghost predicate RetryOf(spec: JobSpec, retry: JobSpec) {
    && (forall d :: Names(retry, d) <==> Names(spec, d))
    && retry == spec.(dependsOn := retry.dependsOn, dependsOnIds := retry.dependsOnIds, scheduledAt := None)
    && RepeatsOnlyOne(retry)
  }

  /** `after` names `retry` for `failed`, and is the same in everything else. */
  ghost predicate PointsTo(before: JobSpec, after: JobSpec, failed: JobId, retry: JobId) {
    && (forall d :: Names(after, d) <==> (Names(before, d) && d != failed) || (d == retry && Names(before, failed)))
    && after == before.(dependsOn := after.dependsOn, dependsOnIds := after.dependsOnIds)
    && RepeatsOnlyOne(after)
  }

  // ---------- GPUs ----------

  /** Job `id` is running and holds `gpu`. */
  predicate Occupies(rts: seq<JobRuntime>, id: JobId, gpu: nat) {
    1 <= id <= |rts| && rts[id - 1].state == JobState.Running
    && rts[id - 1].gpuIds.Some? && gpu in rts[id - 1].gpuIds.value
  }

  /** The job holds as many GPUs as it asked for, each once. */
  ghost predicate HoldsItsGpus(rt: JobRuntime) {
    && rt.gpuIds.Some? && |rt.gpuIds.value| == rt.gpus
    && forall i, j :: 0 <= i < j < rt.gpus ==> rt.gpuIds.value[i] != rt.gpuIds.value[j]
  }

  // ---------- time ranges ----------

  predicate Between(from: Time, t: Time, until: Time) {
    from <= t < until
  }

  /** The ranges from `a` up to `b` and from `c` up to `d` have an instant in common, or one of them is a
      single instant strictly inside the other. */
  ghost predicate Meet(a: Time, b: Time, c: Time, d: Time) {
    (exists t: Time :: Between(a, t, b) && Between(c, t, d)) || (a == b && c < a < d) || (c == d && a < c < b)
  }

  // ---------- quota limits ----------

  /** `value` is what the first of four sources that sets the field says. */
  predicate FirstSet(value: Option<nat>, first: Option<nat>, second: Option<nat>, third: Option<nat>,
                     fourth: Option<nat>) {
    && (first.Some? ==> value == first)
    && (first == None && second.Some? ==> value == second)
    && (first == None && second == None && third.Some? ==> value == third)
    && (first == None && second == None && third == None ==> value == fourth)
  }
  // ---------- what is running, counted out ----------

  ghost function Total(w: seq<nat>): nat {
    if w == [] then 0 else Total(w[..|w| - 1]) + w[|w| - 1]
  }

  /** The positions of a user's running jobs. */
  ghost function JobsOf(specs: seq<JobSpec>, rts: seq<JobRuntime>, user: string): set<nat>
    requires |specs| == |rts|
  {
    set i | 0 <= i < |rts| && rts[i].state.Running? && specs[i].submittedBy == user
  }

  ghost function JobsFor(specs: seq<JobSpec>, rts: seq<JobRuntime>, project: string): set<nat>
    requires |specs| == |rts|
  {
    set i | 0 <= i < |rts| && rts[i].state.Running? && specs[i].project == Some(project)
  }

  ghost function JobsIn(rts: seq<JobRuntime>, group: nat): set<nat> {
    set i | 0 <= i < |rts| && rts[i].state.Running? && rts[i].group == Some(group)
  }

  ghost function GpusOf(specs: seq<JobSpec>, rts: seq<JobRuntime>, user: string): nat
    requires |specs| == |rts|
  {
    Total(seq(|rts|, i requires 0 <= i < |rts| =>
                if rts[i].state.Running? && specs[i].submittedBy == user then rts[i].gpus else 0))
  }

  ghost function GpusFor(specs: seq<JobSpec>, rts: seq<JobRuntime>, project: string): nat
    requires |specs| == |rts|
  {
    Total(seq(|rts|, i requires 0 <= i < |rts| =>
                if rts[i].state.Running? && specs[i].project == Some(project) then rts[i].gpus else 0))
  }

  /** Host memory that one job takes; GPU memory is per GPU, and counts where memory is unified. */
  function HostMemory(unified: bool, rt: JobRuntime): nat {
    (if rt.memoryLimit.Some? then rt.memoryLimit.value else 0)
    + (if unified && rt.gpuMemoryLimit.Some? then rt.gpuMemoryLimit.value * rt.gpus else 0)
  }

  ghost function HostMemoryInUse(rts: seq<JobRuntime>, unified: bool): nat {
    Total(seq(|rts|, i requires 0 <= i < |rts| => if rts[i].state.Running? then HostMemory(unified, rts[i]) else 0))
  }

  /** The memory limits that shared jobs running on `gpu` declare, added up. */
  ghost function DeclaredOn(rts: seq<JobRuntime>, gpu: nat): nat {
    Total(seq(|rts|, i requires 0 <= i < |rts| =>
                if Occupies(rts, i + 1, gpu) && rts[i].sharing.Shared? && rts[i].gpuMemoryLimit.Some?
                then rts[i].gpuMemoryLimit.value else 0))
  }
}
