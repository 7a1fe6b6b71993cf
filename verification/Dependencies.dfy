/** Dependency counters: what they should hold, how notifications move them, and what a
    cancellation cascade does to the jobs. */
module Dependencies {
  import opened Types
  import opened Counting

  ghost predicate SpecsOk(specs: seq<JobSpec>) {
    forall id: JobId :: Exists(|specs|, id) ==> Distinct(specs[id - 1].Dependencies())
  }

  predicate DependsOn(specs: seq<JobSpec>, id: JobId, d: JobId) {
    Exists(|specs|, id) && d in specs[id - 1].Dependencies()
  }

  // ---------- the flags derived from the counters ----------

  predicate Satisfied(mode: DependencyMode, total: nat, success: nat) {
    total == 0 || match mode case All => success == total case Any => success > 0
  }

  predicate Impossible(mode: DependencyMode, total: nat, success: nat, failed: nat) {
    total != 0 && match mode
    case All => failed > 0
    case Any => success == 0 && success + failed == total
  }

  function WithFlags(mode: DependencyMode, total: nat, success: nat, failed: nat, epoch: nat): DependencyRuntime {
    DependencyRuntime(total, success, failed,
                      Satisfied(mode, total, success), Impossible(mode, total, success, failed), epoch)
  }

  /** Every job's flags, except possibly those of job `skip`, are the ones its counters call for. */
  ghost predicate FlagsOk(specs: seq<JobSpec>, deps: seq<DependencyRuntime>, skip: JobId) {
    && |deps| == |specs|
    && forall id: JobId :: Exists(|specs|, id) && id != skip ==>
         deps[id - 1] == WithFlags(specs[id - 1].Mode(), |specs[id - 1].Dependencies()|,
                                   deps[id - 1].success, deps[id - 1].terminalNonSuccess,
                                   deps[id - 1].readyEpoch)
  }

  // ---------- recomputation from the job states ----------

  ghost function Successful(rts: seq<JobRuntime>): set<JobId> {
    set id: JobId | id <= |rts| && Exists(|rts|, id) && rts[id - 1].state.Finished?
  }

  /** Jobs that ended without success. */
  ghost function Unsuccessful(rts: seq<JobRuntime>): set<JobId> {
    set id: JobId | id <= |rts| && Exists(|rts|, id) && rts[id - 1].state.IsFinal() && !rts[id - 1].state.Finished?
  }

  /** Jobs cancelled because of a dependency: the ones a cascade may announce twice. */
  ghost function AutoCancelled(rts: seq<JobRuntime>): set<JobId> {
    set id: JobId | id <= |rts| && Exists(|rts|, id) && rts[id - 1].state.Cancelled?
                    && rts[id - 1].reason.Some? && rts[id - 1].reason.value.DependencyFailed?
  }

  /** Jobs that have not reached a final state; every cancellation shrinks this set. */
  ghost function Unsettled(rts: seq<JobRuntime>): set<JobId> {
    set id: JobId | id <= |rts| && Exists(|rts|, id) && !rts[id - 1].state.IsFinal()
  }

  ghost predicate DependenciesMet(spec: JobSpec, finished: set<JobId>) {
    var deps := spec.Dependencies();
    deps == [] || match spec.Mode()
    case All => forall d :: d in deps ==> d in finished
    case Any => exists d :: d in deps && d in finished
  }

  ghost predicate DependenciesDead(spec: JobSpec, finished: set<JobId>, unsuccessful: set<JobId>) {
    var deps := spec.Dependencies();
    deps != [] && match spec.Mode()
    case All => exists d :: d in deps && d in unsuccessful
    case Any => forall d :: d in deps ==> d in unsuccessful
  }

  /** A job's success counter is exact. Its failure counter is exact up to repeats: it misses only
      failures that were deliberately not announced (`muted`) and over-counts only dependencies
      that were themselves auto-cancelled, and those only when cascades announce them twice
      (`echo`). */
  ghost predicate CounterOk(spec: JobSpec, dep: DependencyRuntime, rts: seq<JobRuntime>,
                            muted: set<JobId>, echo: bool)
  {
    var deps := spec.Dependencies();
    && dep.success == CountIn(deps, Successful(rts))
    && CountIn(deps, Unsuccessful(rts) - muted) <= dep.terminalNonSuccess
    && dep.terminalNonSuccess <=
         CountIn(deps, Unsuccessful(rts)) + (if echo then CountIn(deps, AutoCancelled(rts)) else 0)
  }

  /** Every job's success counter is exact, and the failure counters of those that may still run are
      right in the sense above. Job `skip` is exempt. */
  ghost predicate CountersOk(specs: seq<JobSpec>, rts: seq<JobRuntime>, deps: seq<DependencyRuntime>,
                             muted: set<JobId>, echo: bool, skip: JobId)
  {
    && |specs| == |rts| == |deps|
    && forall id: JobId :: Exists(|specs|, id) && id != skip ==>
         && deps[id - 1].success == CountIn(specs[id - 1].Dependencies(), Successful(rts))
         && (rts[id - 1].state.IsPending() ==> CounterOk(specs[id - 1], deps[id - 1], rts, muted, echo))
  }

  /** The runtime that a recomputation from scratch produces, with the given epoch. */
  ghost function Recomputed(spec: JobSpec, rts: seq<JobRuntime>, epoch: nat): (dep: DependencyRuntime)
    ensures dep.readyEpoch == epoch
  {
    var deps := spec.Dependencies();
    WithFlags(spec.Mode(), |deps|, CountIn(deps, Successful(rts)), CountIn(deps, Unsuccessful(rts)), epoch)
  }

  lemma RecomputedMeaning(spec: JobSpec, rts: seq<JobRuntime>, epoch: nat)
    ensures Recomputed(spec, rts, epoch).depsSatisfied <==> DependenciesMet(spec, Successful(rts))
    ensures Recomputed(spec, rts, epoch).impossible
            <==> DependenciesDead(spec, Successful(rts), Unsuccessful(rts))
  {
    var deps := spec.Dependencies();
    var finished, unsuccessful := Successful(rts), Unsuccessful(rts);
    CountInExtremes(deps, finished);
    CountInExtremes(deps, unsuccessful);
    CountInUnion(deps, finished, unsuccessful);
    CountInExtremes(deps, finished + unsuccessful);
    if deps != [] {
      assert deps[0] in deps;
    }
  }

  // ---------- notifications ----------

  /** From `d0` to `d1` the counters took in exactly the successes `good` and the failures `bad`. */
  ghost predicate CountersMoved(specs: seq<JobSpec>, d0: seq<DependencyRuntime>, d1: seq<DependencyRuntime>,
                                good: multiset<JobId>, bad: multiset<JobId>)
  {
    && |d0| == |d1| == |specs|
    && forall id: JobId :: Exists(|specs|, id) ==>
         && d1[id - 1].success == d0[id - 1].success + Hits(specs[id - 1].Dependencies(), good)
         && d1[id - 1].terminalNonSuccess ==
              d0[id - 1].terminalNonSuccess + Hits(specs[id - 1].Dependencies(), bad)
  }

  lemma CountersStill(specs: seq<JobSpec>, d0: seq<DependencyRuntime>, d1: seq<DependencyRuntime>)
    requires |d0| == |d1| == |specs|
    requires forall i :: 0 <= i < |d0| ==>
               d0[i].success == d1[i].success && d0[i].terminalNonSuccess == d1[i].terminalNonSuccess
    ensures CountersMoved(specs, d0, d1, multiset{}, multiset{})
  {
    forall id: JobId | Exists(|specs|, id)
      ensures Hits(specs[id - 1].Dependencies(), multiset{}) == 0
    {
      HitsNone(specs[id - 1].Dependencies());
    }
  }

  /** The failure announcements of a cascade from `source` that cancelled `order`: each source
      once, and the cancelled ones a second time when the work list re-announces them. */
  ghost function Announced(source: JobId, order: seq<JobId>, echo: bool): multiset<JobId> {
    multiset{source} + multiset(order) + if echo then multiset(order) else multiset{}
  }

  // ---------- what a cascade does to the jobs ----------

  /** One of the two reasons that say what a queued job waits for, apart from resources. */
  predicate SaysWhatFor(reason: Option<Reason>) {
    reason == Some(WaitingForDependency) || reason == Some(WaitingForStartTime)
  }

  /** A job keeps its reason, or it is queued and now says what it waits for, or it no longer says that. */
  ghost predicate ReasonKept(before: JobRuntime, after: JobRuntime) {
    || after.reason == before.reason
    || (before.state.Queued? && SaysWhatFor(after.reason))
    || (after.reason == None && (before.state.Queued? || SaysWhatFor(before.reason)))
  }

  /** The jobs in `order` went from queued to cancelled because of a dependency; every other job
      keeps everything but, possibly, the reason it reports for waiting. */
  ghost predicate Cancels(rts0: seq<JobRuntime>, rts1: seq<JobRuntime>, order: seq<JobId>) {
    && |rts0| == |rts1|
    && Distinct(order)
    && (forall id: JobId :: id in order ==> Exists(|rts0|, id))
    && forall id: JobId :: Exists(|rts0|, id) ==>
         var before, after := rts0[id - 1], rts1[id - 1];
         if id in order then
           && before.state.Queued?
           && after == before.(state := Cancelled, finishedAt := after.finishedAt, reason := after.reason)
           && after.finishedAt.Some?
           && after.reason.Some? && after.reason.value.DependencyFailed?
         else
           after == before.(reason := after.reason) && ReasonKept(before, after)
  }

  lemma CancelsNothing(rts: seq<JobRuntime>)
    ensures Cancels(rts, rts, [])
  {
  }

  lemma CancelsCompose(rts0: seq<JobRuntime>, rts1: seq<JobRuntime>, rts2: seq<JobRuntime>,
                       order1: seq<JobId>, order2: seq<JobId>)
    requires Cancels(rts0, rts1, order1) && Cancels(rts1, rts2, order2)
    ensures Cancels(rts0, rts2, order1 + order2)
  {
    forall id: JobId | id in order1 ensures id !in order2 {
      assert Exists(|rts0|, id) && Exists(|rts1|, id);
    }
    DistinctConcat(order1, order2);
    forall id: JobId | id in order1 + order2 ensures Exists(|rts0|, id) {
      assert id in order1 || id in order2;
    }
  }

  lemma CancelsSets(rts0: seq<JobRuntime>, rts1: seq<JobRuntime>, order: seq<JobId>)
    requires Cancels(rts0, rts1, order)
    ensures Successful(rts1) == Successful(rts0)
    ensures Unsuccessful(rts1) == Unsuccessful(rts0) + Elements(order)
    ensures Unsuccessful(rts0) !! Elements(order)
    ensures AutoCancelled(rts0) <= AutoCancelled(rts1) && AutoCancelled(rts0) !! Elements(order)
    ensures Elements(order) <= AutoCancelled(rts1)
    ensures Unsettled(rts1) == Unsettled(rts0) - Elements(order)
    ensures Elements(order) <= Unsettled(rts0)
  {
    assert forall id: JobId :: id in order ==> Exists(|rts0|, id);
    assert forall id: JobId :: id in Successful(rts0) ==> Exists(|rts0|, id);
    assert forall id: JobId :: id in Successful(rts1) ==> Exists(|rts0|, id);
    assert forall id: JobId :: id in Unsuccessful(rts0) ==> Exists(|rts0|, id);
    assert forall id: JobId :: id in Unsuccessful(rts1) ==> Exists(|rts0|, id);
    assert forall id: JobId :: id in Unsettled(rts0) ==> Exists(|rts0|, id);
    assert forall id: JobId :: id in Unsettled(rts1) ==> Exists(|rts0|, id);
    assert forall id: JobId :: id in AutoCancelled(rts0) ==> Exists(|rts0|, id);
  }

  /** Each cancelled job names as its reason one of its own dependencies, which is the source of
      the cascade or was cancelled earlier in it. */
  ghost predicate Justified(specs: seq<JobSpec>, rts: seq<JobRuntime>, source: JobId, order: seq<JobId>)
    requires |specs| == |rts|
  {
    forall i :: 0 <= i < |order| ==> JustifiedAt(specs, rts, source, order[i], order[..i])
  }

  ghost predicate JustifiedAt(specs: seq<JobSpec>, rts: seq<JobRuntime>, source: JobId, id: JobId,
                              earlier: seq<JobId>)
    requires |specs| == |rts|
  {
    && Exists(|rts|, id)
    && rts[id - 1].reason.Some? && rts[id - 1].reason.value.DependencyFailed?
    && var cause := rts[id - 1].reason.value.cause;
       cause in specs[id - 1].Dependencies() && (cause == source || cause in earlier)
  }

  lemma JustifiedKept(specs: seq<JobSpec>, rts0: seq<JobRuntime>, rts1: seq<JobRuntime>,
                      source: JobId, order: seq<JobId>, later: seq<JobId>)
    requires |specs| == |rts0|
    requires Cancels(rts0, rts1, later) && Justified(specs, rts0, source, order)
    requires forall id: JobId :: id in order ==> Exists(|rts0|, id) && rts0[id - 1].state.Cancelled?
    ensures Justified(specs, rts1, source, order)
  {
    forall i | 0 <= i < |order| ensures JustifiedAt(specs, rts1, source, order[i], order[..i]) {
      assert JustifiedAt(specs, rts0, source, order[i], order[..i]);
      assert order[i] in order && Exists(|rts0|, order[i]);
    }
  }

  lemma JustifiedCompose(specs: seq<JobSpec>, rts: seq<JobRuntime>, source: JobId,
                         order1: seq<JobId>, source2: JobId, order2: seq<JobId>)
    requires |specs| == |rts|
    requires Justified(specs, rts, source, order1) && Justified(specs, rts, source2, order2)
    requires source2 == source || source2 in order1
    ensures Justified(specs, rts, source, order1 + order2)
  {
    var order := order1 + order2;
    forall i | 0 <= i < |order|
      ensures JustifiedAt(specs, rts, source, order[i], order[..i])
    {
      if i < |order1| {
        assert order[..i] == order1[..i] && order[i] == order1[i];
        assert JustifiedAt(specs, rts, source, order1[i], order1[..i]);
      } else {
        var k := i - |order1|;
        assert order[..i] == order1 + order2[..k] && order[i] == order2[k];
        assert JustifiedAt(specs, rts, source2, order2[k], order2[..k]);
      }
    }
  }

  /** `x` is the first element of `s` that lies in `ids`. */
  ghost predicate FirstIn(s: seq<JobId>, x: JobId, ids: set<JobId>) {
    exists k :: 0 <= k < |s| && s[k] == x && x in ids && forall j :: 0 <= j < k ==> s[j] !in ids
  }

  // ---------- the cascade is the least closure ----------

  /** `closed` contains every queued auto-cancelling job with a dependency in it or equal to the source. */
  ghost predicate ClosedUnderFailure(specs: seq<JobSpec>, rts: seq<JobRuntime>, source: JobId, closed: set<JobId>)
    requires |specs| == |rts|
  {
    forall id: JobId, d: JobId ::
      DependsOn(specs, id, d)
      && rts[id - 1].state.Queued? && specs[id - 1].autoCancel && (d == source || d in closed) ==>
        id in closed
  }

  /** Counters that, after `more` further failures, leave the job no chance to run. */
  ghost predicate Spent(spec: JobSpec, dep: DependencyRuntime, more: nat) {
    spec.Dependencies() != [] && match spec.Mode()
    case All => dep.terminalNonSuccess + more > 0
    case Any => dep.success == 0 && |spec.Dependencies()| <= dep.terminalNonSuccess + more
  }

  /** No queued auto-cancelling job, other than `skip`, is flagged as impossible, nor do its counters
      leave it without a chance. */
  ghost predicate Quiet(specs: seq<JobSpec>, rts: seq<JobRuntime>, deps: seq<DependencyRuntime>, skip: JobId) {
    |specs| == |rts| == |deps| &&
    forall id: JobId :: Exists(|specs|, id) && id != skip ==>
      !(rts[id - 1].state.Queued? && specs[id - 1].autoCancel
        && (deps[id - 1].impossible || Spent(specs[id - 1], deps[id - 1], 0)))
  }

  /** No queued auto-cancelling job has dependencies that, by their states, can no longer be met. */
  ghost predicate NoneDead(specs: seq<JobSpec>, rts: seq<JobRuntime>) {
    |specs| == |rts| &&
    forall id: JobId :: Exists(|specs|, id) && rts[id - 1].state.Queued? && specs[id - 1].autoCancel ==>
      !DependenciesDead(specs[id - 1], Successful(rts), Unsuccessful(rts))
  }

  lemma RecomputedSpent(spec: JobSpec, rts: seq<JobRuntime>, epoch: nat)
    ensures var dep := Recomputed(spec, rts, epoch);
            dep.impossible || Spent(spec, dep, 0) <==> DependenciesDead(spec, Successful(rts), Unsuccessful(rts))
  {
    hide Successful, Unsuccessful;
    RecomputedMeaning(spec, rts, epoch);
    CountInExtremes(spec.Dependencies(), Unsuccessful(rts));
  }

  /** After a recomputation of all counters nobody is left to cancel if and only if nobody is dead. */
  lemma RecomputedQuiet(specs: seq<JobSpec>, rts: seq<JobRuntime>, deps: seq<DependencyRuntime>)
    requires |specs| == |rts| == |deps|
    requires forall id: JobId :: Exists(|specs|, id) ==> deps[id - 1] == Recomputed(specs[id - 1], rts, 0)
    ensures Quiet(specs, rts, deps, 0) <==> NoneDead(specs, rts)
  {
    hide Successful, Unsuccessful, Recomputed, DependenciesDead, Spent;
    forall id: JobId | Exists(|specs|, id)
      ensures deps[id - 1].impossible || Spent(specs[id - 1], deps[id - 1], 0)
              <==> DependenciesDead(specs[id - 1], Successful(rts), Unsuccessful(rts))
    {
      RecomputedSpent(specs[id - 1], rts, 0);
    }
  }

  // ---------- what drives a cascade ----------

  /** Each cancelled job had lost its last chance, by its counters before the cascade and what the
      source and the jobs cancelled earlier can have announced to it. */
  ghost predicate Driven(specs: seq<JobSpec>, d0: seq<DependencyRuntime>, source: JobId, order: seq<JobId>,
                         echo: bool) {
    forall i :: 0 <= i < |order| ==> DrivenAt(specs, d0, source, order[i], order[..i], echo)
  }

  ghost predicate DrivenAt(specs: seq<JobSpec>, d0: seq<DependencyRuntime>, source: JobId, id: JobId,
                           earlier: seq<JobId>, echo: bool)
  {
    && |d0| == |specs| && Exists(|specs|, id)
    && Spent(specs[id - 1], d0[id - 1], Hits(specs[id - 1].Dependencies(), Announced(source, earlier, echo)))
  }

  lemma SpentMore(spec: JobSpec, dep: DependencyRuntime, more: nat, dep': DependencyRuntime, more': nat)
    requires Spent(spec, dep, more) && dep'.success == dep.success
    requires dep.terminalNonSuccess + more <= dep'.terminalNonSuccess + more'
    ensures Spent(spec, dep', more')
  {
  }

  /** The failure announcements of a source and of the jobs in `down`. */
  ghost function News(source: JobId, down: set<JobId>, echo: bool): multiset<JobId> {
    multiset{source} + multiset(down) + if echo then multiset(down) else multiset{}
  }

  /** `closed` contains every queued auto-cancelling job that has no chance left once the source and the
      jobs in `closed` have announced their failure. */
  ghost predicate ClosedUnderNews(specs: seq<JobSpec>, rts: seq<JobRuntime>, d: seq<DependencyRuntime>,
                                  source: JobId, closed: set<JobId>, echo: bool)
    requires |specs| == |rts| == |d|
  {
    forall id: JobId ::
      Exists(|specs|, id) && rts[id - 1].state.Queued? && specs[id - 1].autoCancel
      && Spent(specs[id - 1], d[id - 1], Hits(specs[id - 1].Dependencies(), News(source, closed, echo))) ==>
        id in closed
  }

  lemma {:induction false} DistinctBag(s: seq<JobId>)
    requires Distinct(s)
    ensures multiset(s) == multiset(Elements(s))
  {
    if s == [] {
    } else {
      var front, last := s[..|s| - 1], s[|s| - 1];
      DistinctBag(front);
      assert s == front + [last];
      assert Elements(s) == Elements(front) + {last};
    }
  }

  /** What jobs in a closed set have announced is no more than all of the set can announce. */
  lemma AnnouncedWithin(source: JobId, order: seq<JobId>, closed: set<JobId>, echo: bool)
    requires Distinct(order) && Elements(order) <= closed
    ensures Announced(source, order, echo) <= News(source, closed, echo)
    ensures Announced(source, order, echo) == News(source, Elements(order), echo)
  {
    DistinctBag(order);
    assert multiset(Elements(order)) <= multiset(closed);
  }

  /** If the jobs cancelled earlier are in a set closed under news, so is the next. */
  lemma DrivenIntoClosure(specs: seq<JobSpec>, rts: seq<JobRuntime>, d: seq<DependencyRuntime>, source: JobId,
                          earlier: seq<JobId>, id: JobId, closed: set<JobId>, echo: bool)
    requires |specs| == |rts| == |d| && ClosedUnderNews(specs, rts, d, source, closed, echo)
    requires DrivenAt(specs, d, source, id, earlier, echo) && rts[id - 1].state.Queued? && specs[id - 1].autoCancel
    requires Distinct(earlier) && Elements(earlier) <= closed
    ensures id in closed
  {
    hide Announced, News, Spent, Distinct, Elements;
    AnnouncedWithin(source, earlier, closed, echo);
    var deps := specs[id - 1].Dependencies();
    HitsMono(deps, Announced(source, earlier, echo), News(source, closed, echo));
    SpentMore(specs[id - 1], d[id - 1], Hits(deps, Announced(source, earlier, echo)),
              d[id - 1], Hits(deps, News(source, closed, echo)));
  }

  /** A cascade cancels nothing that any set closed under news does not contain. */
  lemma {:induction false} DrivenInsideEveryClosure(specs: seq<JobSpec>, rts0: seq<JobRuntime>, rts1: seq<JobRuntime>,
                                                    d0: seq<DependencyRuntime>, source: JobId, order: seq<JobId>,
                                                    closed: set<JobId>, echo: bool, n: nat)
    requires |specs| == |rts0| == |d0| && Cancels(rts0, rts1, order) && Driven(specs, d0, source, order, echo)
    requires forall id: JobId :: id in order ==> specs[id - 1].autoCancel
    requires ClosedUnderNews(specs, rts0, d0, source, closed, echo)
    requires n <= |order|
    ensures Elements(order[..n]) <= closed
  {
    hide ClosedUnderNews, DrivenAt;
    if n == 0 {
    } else {
      DrivenInsideEveryClosure(specs, rts0, rts1, d0, source, order, closed, echo, n - 1);
      var id, earlier := order[n - 1], order[..n - 1];
      assert id in order && Exists(|specs|, id) && rts0[id - 1].state.Queued?;
      DrivenIntoClosure(specs, rts0, d0, source, earlier, id, closed, echo);
      assert order[..n] == earlier + [id];
    }
  }

  /** A queued auto-cancelling job goes down in a cascade exactly when its counters afterwards, and so
      its counters before and all that the cascade announced, leave it no chance. */
  lemma CancelledExactlyWhenSpent(specs: seq<JobSpec>, rts0: seq<JobRuntime>, rts1: seq<JobRuntime>,
                                  d0: seq<DependencyRuntime>, d1: seq<DependencyRuntime>,
                                  source: JobId, order: seq<JobId>, echo: bool, id: JobId)
    requires |specs| == |rts0| == |d0| == |d1| && Cancels(rts0, rts1, order) && Driven(specs, d0, source, order, echo)
    requires CountersMoved(specs, d0, d1, multiset{}, Announced(source, order, echo)) && Quiet(specs, rts1, d1, 0)
    requires Exists(|specs|, id) && rts0[id - 1].state.Queued? && specs[id - 1].autoCancel
    ensures id in order <==> Spent(specs[id - 1], d1[id - 1], 0)
    ensures Spent(specs[id - 1], d1[id - 1], 0) <==>
            Spent(specs[id - 1], d0[id - 1], Hits(specs[id - 1].Dependencies(), Announced(source, order, echo)))
  {
    hide Announced;
    var deps := specs[id - 1].Dependencies();
    HitsNone(deps);
    if id in order {
      var i :| 0 <= i < |order| && order[i] == id;
      assert DrivenAt(specs, d0, source, order[i], order[..i], echo);
      AnnouncedPrefix(source, order, i, echo);
      HitsMono(deps, Announced(source, order[..i], echo), Announced(source, order, echo));
    }
  }

  lemma AnnouncedPrefix(source: JobId, order: seq<JobId>, i: nat, echo: bool)
    requires i <= |order|
    ensures Announced(source, order[..i], echo) <= Announced(source, order, echo)
  {
    assert order == order[..i] + order[i..];
  }

  /** In any graph, whatever the modes, the jobs cancelled by a failing cascade are exactly the least set
      closed under the news that the source and the set announce. */
  lemma CascadeIsLeastUnderNews(specs: seq<JobSpec>, rts0: seq<JobRuntime>, rts1: seq<JobRuntime>,
                                d0: seq<DependencyRuntime>, d1: seq<DependencyRuntime>,
                                source: JobId, order: seq<JobId>, echo: bool)
    requires |specs| == |rts0| == |d0| == |d1| && Cancels(rts0, rts1, order) && Driven(specs, d0, source, order, echo)
    requires forall id: JobId :: id in order ==> specs[id - 1].autoCancel
    requires CountersMoved(specs, d0, d1, multiset{}, Announced(source, order, echo)) && Quiet(specs, rts1, d1, 0)
    ensures ClosedUnderNews(specs, rts0, d0, source, Elements(order), echo)
    ensures forall closed :: ClosedUnderNews(specs, rts0, d0, source, closed, echo) ==> Elements(order) <= closed
  {
    hide Announced, News, Spent, CountersMoved, Quiet, Driven;
    AnnouncedWithin(source, order, Elements(order), echo);
    forall id: JobId | Exists(|specs|, id) && rts0[id - 1].state.Queued? && specs[id - 1].autoCancel
      && Spent(specs[id - 1], d0[id - 1], Hits(specs[id - 1].Dependencies(), News(source, Elements(order), echo)))
      ensures id in order
    {
      CancelledExactlyWhenSpent(specs, rts0, rts1, d0, d1, source, order, echo, id);
    }
    forall closed | ClosedUnderNews(specs, rts0, d0, source, closed, echo)
      ensures Elements(order) <= closed
    {
      DrivenInsideEveryClosure(specs, rts0, rts1, d0, source, order, closed, echo, |order|);
      assert order[..|order|] == order;
    }
  }

  lemma FailureSpreads(specs: seq<JobSpec>, rts: seq<JobRuntime>, source: JobId, closed: set<JobId>, id: JobId,
                       d: JobId)
    requires |specs| == |rts| && ClosedUnderFailure(specs, rts, source, closed) && DependsOn(specs, id, d)
    requires rts[id - 1].state.Queued? && specs[id - 1].autoCancel && (d == source || d in closed)
    ensures id in closed
  {
  }

  /** A cascade cancels nothing beyond any closed set. */
  lemma {:induction false} CascadeInsideEveryClosure(specs: seq<JobSpec>, rts0: seq<JobRuntime>, rts1: seq<JobRuntime>,
                                  source: JobId, order: seq<JobId>, closed: set<JobId>, n: nat)
    requires |specs| == |rts0| && Cancels(rts0, rts1, order) && Justified(specs, rts1, source, order)
    requires forall id: JobId :: id in order ==> specs[id - 1].autoCancel
    requires ClosedUnderFailure(specs, rts0, source, closed)
    requires n <= |order|
    ensures forall i :: 0 <= i < n ==> order[i] in closed
  {
    hide ClosedUnderFailure;
    if n == 0 {
    } else {
      CascadeInsideEveryClosure(specs, rts0, rts1, source, order, closed, n - 1);
      var id := order[n - 1];
      assert JustifiedAt(specs, rts1, source, id, order[..n - 1]);
      var cause := rts1[id - 1].reason.value.cause;
      assert id in order && Exists(|specs|, id) && rts0[id - 1].state.Queued?;
      FailureSpreads(specs, rts0, source, closed, id, cause);
    }
  }

  lemma AnnouncedIsFelt(specs: seq<JobSpec>, d0: seq<DependencyRuntime>, d1: seq<DependencyRuntime>,
                        source: JobId, order: seq<JobId>, echo: bool, id: JobId, d: JobId)
    requires SpecsOk(specs) && Exists(|specs|, id) && d in specs[id - 1].Dependencies()
    requires CountersMoved(specs, d0, d1, multiset{}, Announced(source, order, echo))
    requires d == source || d in order
    ensures d1[id - 1].terminalNonSuccess > 0
  {
    var deps := specs[id - 1].Dependencies();
    var notes := Announced(source, order, echo);
    assert notes[d] > 0;
    assert multiset{d} + (notes - multiset{d}) == notes;
    HitsAdd(deps, multiset{d}, notes - multiset{d});
    HitsOne(deps, d);
  }

  /** A queued auto-cancelling job that waits for all its dependencies goes down with any of them. */
  lemma FeltMeansCancelled(specs: seq<JobSpec>, rts0: seq<JobRuntime>, rts1: seq<JobRuntime>,
                           d0: seq<DependencyRuntime>, d1: seq<DependencyRuntime>,
                           source: JobId, order: seq<JobId>, echo: bool, id: JobId, d: JobId)
    requires |specs| == |rts0| == |rts1| == |d0| == |d1| && SpecsOk(specs) && Cancels(rts0, rts1, order)
    requires CountersMoved(specs, d0, d1, multiset{}, Announced(source, order, echo)) && Quiet(specs, rts1, d1, 0)
    requires DependsOn(specs, id, d) && specs[id - 1].Mode().All? && (d == source || d in order)
    requires rts0[id - 1].state.Queued? && specs[id - 1].autoCancel
    ensures id in order
  {
    hide Announced, CountersMoved, SpecsOk;
    AnnouncedIsFelt(specs, d0, d1, source, order, echo, id, d);
    assert Spent(specs[id - 1], d1[id - 1], 0);
  }

  /** The jobs in every set closed under the news of `source`: what its failure will take down, worked out
      from the state in which it fails. */
  ghost function Downfall(specs: seq<JobSpec>, rts: seq<JobRuntime>, d: seq<DependencyRuntime>, source: JobId,
                          echo: bool): set<JobId>
    requires |specs| == |rts| == |d|
  {
    set id: JobId | id <= |specs| && Exists(|specs|, id)
                    && forall closed :: ClosedUnderNews(specs, rts, d, source, closed, echo) ==> id in closed
  }

  /** A failing cascade cancels exactly the downfall of its source. */
  lemma CascadeIsDownfall(specs: seq<JobSpec>, rts0: seq<JobRuntime>, rts1: seq<JobRuntime>,
                          d0: seq<DependencyRuntime>, d1: seq<DependencyRuntime>,
                          source: JobId, order: seq<JobId>, echo: bool)
    requires |specs| == |rts0| == |d0| == |d1| && Cancels(rts0, rts1, order) && Driven(specs, d0, source, order, echo)
    requires forall id: JobId :: id in order ==> specs[id - 1].autoCancel
    requires CountersMoved(specs, d0, d1, multiset{}, Announced(source, order, echo)) && Quiet(specs, rts1, d1, 0)
    ensures Elements(order) == Downfall(specs, rts0, d0, source, echo)
  {
    hide Announced, CountersMoved, Quiet, Driven, ClosedUnderNews;
    CascadeIsLeastUnderNews(specs, rts0, rts1, d0, d1, source, order, echo);
    forall id: JobId | id in order ensures id in Downfall(specs, rts0, d0, source, echo) {
      assert Exists(|specs|, id) && id in Elements(order);
    }
  }

  /** With every job in All mode, the jobs cancelled by a failing cascade are exactly the least set
      closed under having a failed dependency. */
  lemma CascadeIsLeastClosure(specs: seq<JobSpec>, rts0: seq<JobRuntime>, rts1: seq<JobRuntime>,
                              d0: seq<DependencyRuntime>, d1: seq<DependencyRuntime>,
                              source: JobId, order: seq<JobId>, echo: bool)
    requires |specs| == |rts0| == |rts1| == |d0| == |d1| && SpecsOk(specs)
    requires Cancels(rts0, rts1, order) && Justified(specs, rts1, source, order)
    requires forall id: JobId :: id in order ==> specs[id - 1].autoCancel
    requires CountersMoved(specs, d0, d1, multiset{}, Announced(source, order, echo))
    requires FlagsOk(specs, d1, 0) && Quiet(specs, rts1, d1, 0)
    requires forall id: JobId :: Exists(|specs|, id) ==> specs[id - 1].Mode().All?
    ensures ClosedUnderFailure(specs, rts0, source, Elements(order))
    ensures forall closed :: ClosedUnderFailure(specs, rts0, source, closed) ==> Elements(order) <= closed
  {
    hide Announced, CountersMoved, Justified, Cancels, Quiet, SpecsOk, FlagsOk;
    forall id: JobId, d: JobId | DependsOn(specs, id, d)
                                 && rts0[id - 1].state.Queued? && specs[id - 1].autoCancel
                                 && (d == source || d in order)
      ensures id in order
    {
      FeltMeansCancelled(specs, rts0, rts1, d0, d1, source, order, echo, id, d);
    }
    forall closed | ClosedUnderFailure(specs, rts0, source, closed)
      ensures Elements(order) <= closed
    {
      CascadeInsideEveryClosure(specs, rts0, rts1, source, order, closed, |order|);
    }
  }
}
