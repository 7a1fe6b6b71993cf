/** Automatic retries: moving the dependents of a failed job over to its retry. */
module Retries {
  import opened Types
  import opened PlainTerms
  import opened Dependencies
  import opened CycleCheck
  import opened Counters

  /** `deps` with `failed` replaced by `retry`, keeping the order and dropping repeats. */
  function Replaced(deps: seq<JobId>, failed: JobId, retry: JobId): (r: seq<JobId>)
    ensures Distinct(r)
    ensures forall x :: x in r <==> (x in deps && x != failed) || (x == retry && failed in deps)
  {
    if deps == [] then []
    else
      var front, last := Replaced(deps[..|deps| - 1], failed, retry), deps[|deps| - 1];
      assert deps == deps[..|deps| - 1] + [last];
      var replacement := if last == failed then retry else last;
      if replacement in front then front else front + [replacement]
  }

  function RetargetedSpec(spec: JobSpec, failed: JobId, retry: JobId): (r: JobSpec)
    ensures r.Dependencies() == Replaced(spec.Dependencies(), failed, retry)
  {
    var deps := Replaced(spec.Dependencies(), failed, retry);
    spec.(dependsOnIds := deps, dependsOn := if |deps| == 1 then Some(deps[0]) else None)
  }

  /** The loop that builds the new dependency list. */
  method ReplaceDependency(deps: seq<JobId>, failed: JobId, retry: JobId) returns (r: seq<JobId>)
    ensures r == Replaced(deps, failed, retry)
  {
    r := [];
    for i := 0 to |deps|
      invariant r == Replaced(deps[..i], failed, retry)
    {
      assert deps[..i + 1][..i] == deps[..i];
      var replacement := if deps[i] == failed then retry else deps[i];
      if replacement !in r {
        r := r + [replacement];
      }
    }
    assert deps[..|deps|] == deps;
  }

  /** Exactly the jobs in `done`, all of them dependents of `failed`, were retargeted. */
  ghost predicate Retargeting(specs0: seq<JobSpec>, specs1: seq<JobSpec>, failed: JobId, retry: JobId,
                              done: set<JobId>) {
    && |specs0| == |specs1|
    && (forall id: JobId :: id in done ==> DependsOn(specs0, id, failed))
    && forall id: JobId :: Exists(|specs0|, id) ==>
         specs1[id - 1] == if id in done then RetargetedSpec(specs0[id - 1], failed, retry) else specs0[id - 1]
  }

  lemma UntouchedDependsStill(specs0: seq<JobSpec>, specs1: seq<JobSpec>, failed: JobId, retry: JobId, done: set<JobId>,
                              id: JobId)
    requires Retargeting(specs0, specs1, failed, retry, done) && DependsOn(specs1, id, failed) && id !in done
    ensures DependsOn(specs0, id, failed) && Exists(|specs0|, id) && specs1[id - 1] == specs0[id - 1]
  {
    hide RetargetedSpec;
  }

  lemma RetargetingGrows(specs0: seq<JobSpec>, specs1: seq<JobSpec>, specs2: seq<JobSpec>, failed: JobId, retry: JobId,
                         done: seq<JobId>, id: JobId)
    requires Retargeting(specs0, specs1, failed, retry, Elements(done))
    requires DependsOn(specs1, id, failed) && id !in done
    requires specs2 == specs1[id - 1 := RetargetedSpec(specs1[id - 1], failed, retry)]
    ensures Retargeting(specs0, specs2, failed, retry, Elements(done + [id]))
  {
    hide RetargetedSpec, DependsOn;
    UntouchedDependsStill(specs0, specs1, failed, retry, Elements(done), id);
    assert Elements(done + [id]) == Elements(done) + {id};
  }

  /** Every job that still waits for `failed` is in `list`. */
  ghost predicate WaitersIn(specs: seq<JobSpec>, rts: seq<JobRuntime>, failed: JobId, list: seq<JobId>) {
    |specs| == |rts| && forall j: JobId :: DependsOn(specs, j, failed) && rts[j - 1].state.IsPending() ==> j in list
  }

  lemma WaitersSkip(specs: seq<JobSpec>, rts: seq<JobRuntime>, failed: JobId, list: seq<JobId>)
    requires list != [] && WaitersIn(specs, rts, failed, list)
    requires Exists(|rts|, list[0]) && !rts[list[0] - 1].state.IsPending()
    ensures WaitersIn(specs, rts, failed, list[1..])
  {
  }

  lemma WaitersMoved(specs0: seq<JobSpec>, specs1: seq<JobSpec>, rts0: seq<JobRuntime>, rts1: seq<JobRuntime>,
                     failed: JobId, retry: JobId, list: seq<JobId>, order: seq<JobId>)
    requires list != [] && WaitersIn(specs0, rts0, failed, list) && Exists(|specs0|, list[0]) && failed != retry
    requires specs1 == specs0[list[0] - 1 := RetargetedSpec(specs0[list[0] - 1], failed, retry)]
    requires Cancels(rts0, rts1, order)
    ensures WaitersIn(specs1, rts1, failed, list[1..])
  {
    hide Replaced;
    forall j: JobId | DependsOn(specs1, j, failed) && rts1[j - 1].state.IsPending() ensures j in list[1..] {
      assert j != list[0] && DependsOn(specs0, j, failed) && Exists(|rts0|, j);
    }
  }

  /** The jobs in `list` are dependents of `failed` that have not been looked at. */
  ghost predicate ToVisit(specs: seq<JobSpec>, failed: JobId, list: seq<JobId>, updated: seq<JobId>) {
    Ascending(list) && forall j :: j in list ==> DependsOn(specs, j, failed) && j !in updated
  }

  lemma NothingVisited(specs: seq<JobSpec>, failed: JobId, list: seq<JobId>)
    requires Ascending(list) && forall j :: j in list ==> DependsOn(specs, j, failed)
    ensures ToVisit(specs, failed, list, [])
  {
  }

  lemma NextOf(list: seq<JobId>, i: nat)
    requires i < |list|
    ensures list[i..] != [] && list[i..][0] == list[i] && list[i..][1..] == list[i + 1..]
  {
  }

  lemma VisitNext(specs: seq<JobSpec>, failed: JobId, list: seq<JobId>, updated: seq<JobId>)
    requires list != [] && ToVisit(specs, failed, list, updated)
    ensures DependsOn(specs, list[0], failed) && list[0] !in updated
    ensures ToVisit(specs, failed, list[1..], updated)
    ensures Exists(|specs|, list[0])
  {
    var rest, id := list[1..], list[0];
    assert forall j :: j in rest ==> id < j && j in list;
  }

  lemma Visited(specs0: seq<JobSpec>, specs1: seq<JobSpec>, failed: JobId, list: seq<JobId>, updated: seq<JobId>)
    requires list != [] && ToVisit(specs0, failed, list, updated) && |specs1| == |specs0| && Exists(|specs0|, list[0])
    requires specs1 == specs0[list[0] - 1 := specs1[list[0] - 1]]
    ensures ToVisit(specs1, failed, list[1..], updated + [list[0]])
  {
    var rest, id := list[1..], list[0];
    assert forall j :: j in rest ==> id < j && j in list;
  }

  lemma NobodyWaits(specs: seq<JobSpec>, rts: seq<JobRuntime>, failed: JobId)
    requires WaitersIn(specs, rts, failed, [])
    ensures !Awaited(specs, rts, failed)
  {
  }

  lemma NothingRetargeted(specs: seq<JobSpec>, failed: JobId, retry: JobId)
    ensures Retargeting(specs, specs, failed, retry, Elements([]))
  {
  }

  // ---------- the retry job ----------

  /** The specification of the job that retries `spec`: the same dependencies, at once. */
  function RetrySpec(spec: JobSpec): (r: JobSpec)
    ensures r.Dependencies() == spec.Dependencies()
  {
    var deps := spec.Dependencies();
    spec.(dependsOnIds := deps, dependsOn := if |deps| == 1 then Some(deps[0]) else None, scheduledAt := None)
  }

  lemma RetrySpecIsRetry(spec: JobSpec)
    ensures RetryOf(spec, RetrySpec(spec))
  {
    var r := RetrySpec(spec);
    forall d: JobId ensures Names(r, d) <==> Names(spec, d) {
      NamesAreDependencies(r, d);
      NamesAreDependencies(spec, d);
    }
  }

  lemma RetargetedPoints(spec: JobSpec, failed: JobId, retry: JobId)
    ensures PointsTo(spec, RetargetedSpec(spec, failed, retry), failed, retry)
  {
    hide Replaced;
    var r := RetargetedSpec(spec, failed, retry);
    forall d: JobId ensures Names(r, d) <==> d in Replaced(spec.Dependencies(), failed, retry) {
      NamesAreDependencies(r, d);
    }
    forall d: JobId ensures Names(spec, d) <==> d in spec.Dependencies() {
      NamesAreDependencies(spec, d);
    }
  }

  lemma NamesAreDependencies(spec: JobSpec, d: JobId)
    ensures Names(spec, d) <==> d in spec.Dependencies()
  {
  }

  /** After a retry, who waited for the job and is moved waits for the retry instead; nobody else's
      specification changes. */
  lemma RetriedMeans(specs0: seq<JobSpec>, specs1: seq<JobSpec>, id: JobId, moved: set<JobId>)
    requires Retried(specs0, specs1, id, moved)
    ensures |specs1| == |specs0| + 1
    ensures !Names(specs0[id - 1], id) ==> RetryOf(specs0[id - 1], specs1[|specs0|])
    ensures forall j :: 1 <= j <= |specs0| ==>
              if j in moved then PointsTo(specs0[j - 1], specs1[j - 1], id, |specs0| + 1)
              else specs1[j - 1] == specs0[j - 1]
    ensures forall j :: 1 <= j <= |specs0| && j in moved ==> Names(specs0[j - 1], id)
  {
    hide RetrySpec, RetargetedSpec, RetryOf, PointsTo;
    RetrySpecIsRetry(specs0[id - 1]);
    assert Exists(|specs1|, |specs0| + 1);
    NamesAreDependencies(specs0[id - 1], id);
    forall j | 1 <= j <= |specs0|
      ensures if j in moved then PointsTo(specs0[j - 1], specs1[j - 1], id, |specs0| + 1)
              else specs1[j - 1] == specs0[j - 1]
      ensures j in moved ==> Names(specs0[j - 1], id)
    {
      assert Exists(|specs1|, j);
      RetargetedPoints(specs0[j - 1], id, |specs0| + 1);
      NamesAreDependencies(specs0[j - 1], id);
    }
  }

  /** All dependencies are jobs that have been submitted. */
  ghost predicate NoneDangling(specs: seq<JobSpec>) {
    forall a: JobId, d: JobId :: DependsOn(specs, a, d) ==> Exists(|specs|, d)
  }

  /** The specifications after a retry of job `id`: the retry appended, dependents moved to it. */
  ghost predicate Retried(specs0: seq<JobSpec>, specs1: seq<JobSpec>, id: JobId, done: set<JobId>) {
    Exists(|specs0|, id) && Retargeting(specs0 + [RetrySpec(specs0[id - 1])], specs1, id, |specs0| + 1, done)
  }

  lemma RetargetedEdges(specs0: seq<JobSpec>, specs1: seq<JobSpec>, failed: JobId, retry: JobId, done: set<JobId>,
                        a: JobId, d: JobId)
    requires Retargeting(specs0, specs1, failed, retry, done) && DependsOn(specs1, a, d)
    ensures DependsOn(specs0, a, d) || (d == retry && DependsOn(specs0, a, failed))
  {
    hide Replaced;
  }

  lemma AppendedEdges(specs: seq<JobSpec>, id: JobId, a: JobId, d: JobId)
    requires Exists(|specs|, id) && DependsOn(specs + [RetrySpec(specs[id - 1])], a, d)
    ensures DependsOn(specs, if a == |specs| + 1 then id else a, d)
  {
  }

  lemma RetriedEdges(specs0: seq<JobSpec>, specs1: seq<JobSpec>, id: JobId, done: set<JobId>, a: JobId, d: JobId)
    requires Retried(specs0, specs1, id, done) && DependsOn(specs1, a, d)
    ensures var retry, job := |specs0| + 1, if a == |specs0| + 1 then id else a;
            DependsOn(specs0, job, d) || (d == retry && DependsOn(specs0, job, id))
  {
    hide Retargeting, DependsOn;
    var between, retry := specs0 + [RetrySpec(specs0[id - 1])], |specs0| + 1;
    RetargetedEdges(between, specs1, id, retry, done, a, d);
    AppendedEdges(specs0, id, a, if DependsOn(between, a, d) then d else id);
  }

  /** A retry takes over the dependencies and the dependents of the job it replaces, so it closes no
      cycle and leaves no dangling dependency. */
  lemma RetryKeepsGraph(specs0: seq<JobSpec>, specs1: seq<JobSpec>, id: JobId, done: set<JobId>)
    requires Retried(specs0, specs1, id, done) && NoneDangling(specs0)
    ensures NoneDangling(specs1)
    ensures Acyclic(specs0) ==> Acyclic(specs1)
  {
    hide Retried, Acyclic;
    var retry := |specs0| + 1;
    RetriedLength(specs0, specs1, id, done);
    forall a: JobId, d: JobId | DependsOn(specs1, a, d)
      ensures Exists(|specs1|, d)
      ensures DependsOn(specs0, if a == retry then id else a, if d == retry then id else d)
    {
      RetriedEdges(specs0, specs1, id, done, a, d);
    }
    if Acyclic(specs0) {
      RenamingKeepsAcyclic(specs0, specs1, retry, id);
    }
  }

  lemma RetriedLength(specs0: seq<JobSpec>, specs1: seq<JobSpec>, id: JobId, done: set<JobId>)
    requires Retried(specs0, specs1, id, done)
    ensures |specs1| == |specs0| + 1
  {
  }

  /** Failing a job that nobody waits for leaves nobody waiting for it. */
  lemma StillNotAwaited(specs: seq<JobSpec>, rts0: seq<JobRuntime>, rts1: seq<JobRuntime>, id: JobId)
    requires |specs| == |rts0| == |rts1| && !Awaited(specs, rts0, id)
    requires forall j: JobId :: Exists(|rts0|, j) && rts1[j - 1].state.IsPending() ==> rts0[j - 1].state.IsPending()
    ensures !Awaited(specs, rts1, id)
  {
  }
}
