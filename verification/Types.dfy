/** The data the scheduler works on: job specifications, job runtimes and their states. */
module Types {

  datatype Option<+T> = None | Some(value: T) {
    function GetOr(default: T): T {
      match this
      case Some(v) => v
      case None => default
    }
  }

  /** Job ids are 1-based: job `id` lives at position `id - 1` of the job vectors. */
  type JobId = nat

  /** Instants and durations, in whole seconds. */
  type Time = nat

  predicate Exists(n: nat, id: JobId) {
    1 <= id <= n
  }

  datatype JobState = Queued | Hold | Running | Finished | Failed | Cancelled | Timeout {
    predicate CanTransitionTo(next: JobState) {
      match this
      case Queued => next.Running? || next.Hold? || next.Cancelled?
      case Hold => next.Queued? || next.Cancelled?
      case Running => next.Finished? || next.Failed? || next.Cancelled? || next.Timeout?
      case _ => false
    }

    predicate IsFinal() {
      Finished? || Failed? || Cancelled? || Timeout?
    }

    /** Still waiting to run: the states in which a job may be edited. */
    predicate IsPending() {
      Queued? || Hold?
    }

    /** What a dependent learns from this state: nothing yet, success, or failure. */
    function DependencyOutcome(): Option<bool> {
      if IsFinal() then Some(Finished?) else None
    }
  }

  datatype DependencyMode = All | Any

  datatype GpuSharingMode = Exclusive | Shared

  datatype Reason =
    | JobHeldUser
    | WaitingForStartTime
    | WaitingForDependency
    | WaitingForResources
    | WaitingForGpu
    | WaitingForMemory
    | WaitingForQuota
    | CancelledByUser
    | DependencyFailed(cause: JobId)
    | SystemError(message: string)

  datatype JobSpec = JobSpec(
    submittedBy: string,
    project: Option<string>,
    dependsOn: Option<JobId>,
    dependsOnIds: seq<JobId>,
    dependencyMode: Option<DependencyMode>,
    autoCancel: bool,
    scheduledAt: Option<Time>
  ) {
    /** The dependency list with the legacy single dependency folded in. */
    function Dependencies(): (deps: seq<JobId>) {
      if dependsOn.Some? && dependsOn.value !in dependsOnIds
      then dependsOnIds + [dependsOn.value]
      else dependsOnIds
    }

    function Mode(): DependencyMode {
      dependencyMode.GetOr(All)
    }

    predicate StartsAfter(now: Time) {
      scheduledAt.Some? && now < scheduledAt.value
    }
  }

  datatype JobRuntime = JobRuntime(
    id: JobId,
    state: JobState,
    priority: nat,
    gpus: nat,
    sharing: GpuSharingMode,
    gpuMemoryLimit: Option<nat>,
    timeLimit: Option<Time>,
    memoryLimit: Option<nat>,
    gpuIds: Option<seq<nat>>,
    group: Option<nat>,
    maxConcurrent: Option<nat>,
    startedAt: Option<Time>,
    finishedAt: Option<Time>,
    reason: Option<Reason>
  )

  datatype DependencyRuntime = DependencyRuntime(
    total: nat,
    success: nat,
    terminalNonSuccess: nat,
    depsSatisfied: bool,
    impossible: bool,
    readyEpoch: nat
  )

  predicate Distinct<T(==)>(s: seq<T>) {
    forall i, j :: 0 <= i < j < |s| ==> s[i] != s[j]
  }

  predicate Ascending(s: seq<nat>) {
    forall i, j :: 0 <= i < j < |s| ==> s[i] < s[j]
  }

  lemma DistinctConcat(a: seq<nat>, b: seq<nat>)
    requires Distinct(a) && Distinct(b) && forall x :: x in a ==> x !in b
    ensures Distinct(a + b)
  {
    var s := a + b;
    forall i, j | 0 <= i < j < |s| ensures s[i] != s[j] {
      if i < |a| <= j {
        assert s[i] in a && s[j] in b;
      }
    }
  }

  ghost function Elements<T>(s: seq<T>): set<T> {
    set x | x in s
  }
}
