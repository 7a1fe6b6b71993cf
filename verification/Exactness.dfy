/** Which operations leave a job's counters and flags exactly the recomputed ones. */
module Exactness {
  import opened Types
  import opened Counting
  import opened Dependencies
  import opened JobInvariants
  import opened Cascades
  import opened Counters

  /** Job `id`'s counters and flags are exactly what a recomputation yields. */
  ghost predicate ExactAt(specs: seq<JobSpec>, rts: seq<JobRuntime>, d: seq<DependencyRuntime>, id: JobId) {
    && |specs| == |rts| == |d| && Exists(|specs|, id)
    && d[id - 1] == Recomputed(specs[id - 1], rts, d[id - 1].readyEpoch)
  }

  /** No dependency of job `id` is in `order`. */
  predicate Apart(specs: seq<JobSpec>, id: JobId, order: seq<JobId>) {
    Exists(|specs|, id) && forall x :: x in specs[id - 1].Dependencies() ==> x !in order
  }

  /** Jobs that were exact, and those in `renewed`, are exact now, unless a dependency of theirs was
      cancelled on the way. */
  ghost predicate KeptExact(specs0: seq<JobSpec>, rts0: seq<JobRuntime>, d0: seq<DependencyRuntime>,
                            specs1: seq<JobSpec>, rts1: seq<JobRuntime>, d1: seq<DependencyRuntime>,
                            renewed: set<JobId>, order: seq<JobId>)
  {
    forall id: JobId :: (id in renewed || ExactAt(specs0, rts0, d0, id)) && Apart(specs1, id, order) ==>
      ExactAt(specs1, rts1, d1, id)
  }

  lemma NothingKept(specs: seq<JobSpec>, rts: seq<JobRuntime>, d: seq<DependencyRuntime>)
    ensures KeptExact(specs, rts, d, specs, rts, d, {}, [])
  {
  }

  lemma ApartConcat(specs: seq<JobSpec>, id: JobId, a: seq<JobId>, b: seq<JobId>)
    ensures Apart(specs, id, a + b) <==> Apart(specs, id, a) && Apart(specs, id, b)
    ensures Apart(specs, id, a) ==> Exists(|specs|, id)
  {
    assert forall x :: x in a + b <==> x in a || x in b;
  }

  lemma SameSpecApart(specs1: seq<JobSpec>, specs2: seq<JobSpec>, id: JobId, order: seq<JobId>)
    requires Apart(specs2, id, order) && id <= |specs1| && (Exists(|specs2|, id) ==> specs2[id - 1] == specs1[id - 1])
    ensures Apart(specs1, id, order)
  {
  }

  lemma KeptThenKept(specs0: seq<JobSpec>, rts0: seq<JobRuntime>, d0: seq<DependencyRuntime>,
                     specs1: seq<JobSpec>, rts1: seq<JobRuntime>, d1: seq<DependencyRuntime>,
                     specs2: seq<JobSpec>, rts2: seq<JobRuntime>, d2: seq<DependencyRuntime>,
                     renewed1: set<JobId>, order1: seq<JobId>, renewed2: set<JobId>, order2: seq<JobId>)
    requires KeptExact(specs0, rts0, d0, specs1, rts1, d1, renewed1, order1)
    requires KeptExact(specs1, rts1, d1, specs2, rts2, d2, renewed2, order2)
    requires |specs1| <= |specs2|
    requires forall id: JobId :: Exists(|specs2|, id) && id !in renewed2 ==>
               id <= |specs1| && specs2[id - 1] == specs1[id - 1]
    ensures KeptExact(specs0, rts0, d0, specs2, rts2, d2, renewed1 + renewed2, order1 + order2)
  {
    hide ExactAt;
    hide Apart;
    forall id: JobId | (id in renewed1 + renewed2 || ExactAt(specs0, rts0, d0, id))
                       && Apart(specs2, id, order1 + order2)
      ensures ExactAt(specs2, rts2, d2, id)
    {
      ApartConcat(specs2, id, order1, order2);
      if id !in renewed2 {
        SameSpecApart(specs1, specs2, id, order1);
      }
    }
  }

  lemma SameSetsSameRuntime(spec: JobSpec, rts0: seq<JobRuntime>, rts1: seq<JobRuntime>, epoch: nat)
    requires Successful(rts0) == Successful(rts1) && Unsuccessful(rts0) == Unsuccessful(rts1)
    ensures Recomputed(spec, rts0, epoch) == Recomputed(spec, rts1, epoch)
  {
  }

  /** Recomputing one job, with no job settling, keeps the others and renews that one. */
  lemma RecomputedIsExact(specs: seq<JobSpec>, rts0: seq<JobRuntime>, rts1: seq<JobRuntime>, d0: seq<DependencyRuntime>,
                          d1: seq<DependencyRuntime>, id: JobId, epoch: nat)
    requires |specs| == |rts0| == |rts1| == |d0| && Exists(|specs|, id)
    requires Successful(rts0) == Successful(rts1) && Unsuccessful(rts0) == Unsuccessful(rts1)
    requires d1 == d0[id - 1 := Recomputed(specs[id - 1], rts0, epoch)]
    ensures KeptExact(specs, rts0, d0, specs, rts1, d1, {id}, [])
  {
    hide Recomputed, Successful, Unsuccessful;
    forall j: JobId | j in {id} || ExactAt(specs, rts0, d0, j) ensures ExactAt(specs, rts1, d1, j) {
      SameSetsSameRuntime(specs[j - 1], rts0, rts1, d1[j - 1].readyEpoch);
    }
  }

  /** Where nothing settles and only epochs rise, everything stays exact. */
  lemma EpochsKeepExact(specs: seq<JobSpec>, rts0: seq<JobRuntime>, rts1: seq<JobRuntime>, d0: seq<DependencyRuntime>,
                        d1: seq<DependencyRuntime>)
    requires |specs| == |rts0| == |rts1| == |d0| == |d1|
    requires Successful(rts0) == Successful(rts1) && Unsuccessful(rts0) == Unsuccessful(rts1)
    requires forall i :: 0 <= i < |d0| ==> d1[i] == d0[i].(readyEpoch := d1[i].readyEpoch)
    ensures KeptExact(specs, rts0, d0, specs, rts1, d1, {}, [])
  {
    hide Successful, Unsuccessful;
    forall j: JobId | ExactAt(specs, rts0, d0, j) ensures ExactAt(specs, rts1, d1, j) {
      SameSetsSameRuntime(specs[j - 1], rts0, rts1, d1[j - 1].readyEpoch);
      assert d1[j - 1] == Recomputed(specs[j - 1], rts0, d0[j - 1].readyEpoch).(readyEpoch := d1[j - 1].readyEpoch);
    }
  }

  /** A failing cascade keeps exact every job of which it cancels no dependency. */
  lemma CascadeKeepsExact(specs: seq<JobSpec>, rts0: seq<JobRuntime>, rts1: seq<JobRuntime>,
                          d0: seq<DependencyRuntime>, d1: seq<DependencyRuntime>, id: JobId, next: JobState,
                          reason: Option<Reason>, now: Time, order: seq<JobId>, echo: bool)
    requires Transitioned(specs, rts0, rts1, d0, d1, id, next, reason, now, true, order, echo)
    requires next.IsFinal() && !next.Finished? && !rts0[id - 1].state.IsFinal()
    requires |specs| == |rts0| == |rts1| == |d0| == |d1| && FlagsOk(specs, d1, 0)
    ensures KeptExact(specs, rts0, d0, specs, rts1, d1, {}, [id] + order)
  {
    hide Successful, Unsuccessful, Transitioned, FlagsOk, WithFlags;
    forall j: JobId | ExactAt(specs, rts0, d0, j) && Apart(specs, j, [id] + order)
      ensures ExactAt(specs, rts1, d1, j)
    {
      var deps := specs[j - 1].Dependencies();
      ApartConcat(specs, j, [id], order);
      assert forall x :: x in deps ==> x !in Elements(order);
      CountersOf(specs[j - 1], rts0, d0[j - 1].readyEpoch);
      ExcessAfterCascade(specs, rts0, rts1, d0, d1, id, next, reason, now, order, echo, j);
      CascadeKeepsSuccess(specs, rts0, rts1, d0, d1, id, next, reason, now, order, echo, j);
      CountInExtremes(deps, Elements(order));
      RightCountersAreExact(specs, rts1, d1, j);
    }
  }

  lemma CountersOf(spec: JobSpec, rts: seq<JobRuntime>, epoch: nat)
    ensures Recomputed(spec, rts, epoch).success == CountIn(spec.Dependencies(), Successful(rts))
    ensures Recomputed(spec, rts, epoch).terminalNonSuccess == CountIn(spec.Dependencies(), Unsuccessful(rts))
  {
  }

  lemma RightCountersAreExact(specs: seq<JobSpec>, rts: seq<JobRuntime>, d: seq<DependencyRuntime>, id: JobId)
    requires |specs| == |rts| && FlagsOk(specs, d, 0) && Exists(|specs|, id)
    requires d[id - 1].success == CountIn(specs[id - 1].Dependencies(), Successful(rts))
    requires d[id - 1].terminalNonSuccess == CountIn(specs[id - 1].Dependencies(), Unsuccessful(rts))
    ensures ExactAt(specs, rts, d, id)
  {
    hide Successful, Unsuccessful, Satisfied, Impossible;
  }

  /** A failure in silence keeps exact every job that does not depend on the one that failed. */
  lemma SilenceKeepsExact(specs: seq<JobSpec>, rts0: seq<JobRuntime>, rts1: seq<JobRuntime>,
                          d0: seq<DependencyRuntime>, d1: seq<DependencyRuntime>, id: JobId, next: JobState,
                          reason: Option<Reason>, now: Time)
    requires |specs| == |rts0| == |d0| && Exists(|rts0|, id)
    requires next.IsFinal() && !next.Finished? && rts0[id - 1].state.CanTransitionTo(next)
    requires rts1 == rts0[id - 1 := Moved(rts0[id - 1], next, reason, now)] && d1 == EpochBumped(d0, id)
    ensures KeptExact(specs, rts0, d0, specs, rts1, d1, {}, [id])
  {
    hide Successful, Unsuccessful, Satisfied, Impossible;
    MoveFinished(rts0, id, next, reason, now);
    forall j: JobId | ExactAt(specs, rts0, d0, j) && Apart(specs, j, [id]) ensures ExactAt(specs, rts1, d1, j) {
      var deps := specs[j - 1].Dependencies();
      assert id in [id] && id !in deps;
      assert Successful(rts1) == Successful(rts0);
      CountInMono(deps, Unsuccessful(rts1), Unsuccessful(rts0));
      CountInMono(deps, Unsuccessful(rts0), Unsuccessful(rts1));
      var epoch := d0[j - 1].readyEpoch;
      assert Recomputed(specs[j - 1], rts1, epoch) == Recomputed(specs[j - 1], rts0, epoch);
    }
  }

  /** Appending a queued job keeps all exact. */
  lemma AppendKeepsExact(specs: seq<JobSpec>, rts: seq<JobRuntime>, d: seq<DependencyRuntime>, spec: JobSpec,
                         rt: JobRuntime, dep: DependencyRuntime)
    requires |specs| == |rts| == |d|
    requires Successful(rts + [rt]) == Successful(rts) && Unsuccessful(rts + [rt]) == Unsuccessful(rts)
    ensures KeptExact(specs, rts, d, specs + [spec], rts + [rt], d + [dep], {}, [])
  {
    hide Successful, Unsuccessful;
    forall j: JobId | ExactAt(specs, rts, d, j) ensures ExactAt(specs + [spec], rts + [rt], d + [dep], j) {
      SameSetsSameRuntime(specs[j - 1], rts, rts + [rt], d[j - 1].readyEpoch);
    }
  }

  // ---------- looking at a list of jobs again ----------

  /** Of the first `i` jobs in `list`, those that are queued are in `renewed`. */
  ghost predicate RenewedUpTo(rts: seq<JobRuntime>, list: seq<JobId>, i: nat, renewed: set<JobId>) {
    i <= |list| && forall k :: 0 <= k < i ==>
      Exists(|rts|, list[k]) && (rts[list[k] - 1].state.Queued? ==> list[k] in renewed)
  }

  lemma NoneRenewed(rts: seq<JobRuntime>, list: seq<JobId>)
    ensures RenewedUpTo(rts, list, 0, {})
  {
  }

  lemma NextRenewed(rts0: seq<JobRuntime>, rts1: seq<JobRuntime>, list: seq<JobId>, i: nat, renewed0: set<JobId>,
                    renewed1: set<JobId>)
    requires RenewedUpTo(rts0, list, i, renewed0) && i < |list| && renewed0 <= renewed1
    requires |rts1| == |rts0| && forall k :: 0 <= k < |rts1| && rts1[k].state.Queued? ==> rts0[k].state.Queued?
    requires Exists(|rts1|, list[i]) && (rts1[list[i] - 1].state.Queued? ==> list[i] in renewed1)
    ensures RenewedUpTo(rts1, list, i + 1, renewed1)
  {
  }
}
