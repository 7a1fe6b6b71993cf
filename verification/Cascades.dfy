/** What announcing a final state does to the job vectors and counters, step by step. */
module Cascades {
  import opened Types
  import opened PlainTerms
  import opened Counting
  import opened Dependencies
  import opened JobInvariants
  import opened ReadyQueue

  // ---------- counters while one source is being announced ----------

  /** `d` with one more success or failure counted for job `id` (flags not considered). */
  ghost predicate Bumped(d: seq<DependencyRuntime>, d': seq<DependencyRuntime>, id: JobId, ok: bool) {
    && |d| == |d'| && Exists(|d|, id)
    && forall j: JobId :: Exists(|d|, j) ==>
         && d'[j - 1].success == d[j - 1].success + (if ok && j == id then 1 else 0)
         && d'[j - 1].terminalNonSuccess == d[j - 1].terminalNonSuccess + (if !ok && j == id then 1 else 0)
  }

  /** Like CountersMoved, with one further source announced so far only to the jobs in `told`. */
  ghost predicate CountersPartly(specs: seq<JobSpec>, d0: seq<DependencyRuntime>, d1: seq<DependencyRuntime>,
                                 good: multiset<JobId>, bad: multiset<JobId>, ok: bool, told: seq<JobId>)
  {
    && |d0| == |d1| == |specs|
    && forall id: JobId :: Exists(|specs|, id) ==>
         && d1[id - 1].success ==
              d0[id - 1].success + Hits(specs[id - 1].Dependencies(), good) + (if ok && id in told then 1 else 0)
         && d1[id - 1].terminalNonSuccess ==
              d0[id - 1].terminalNonSuccess + Hits(specs[id - 1].Dependencies(), bad)
              + (if !ok && id in told then 1 else 0)
  }

  lemma PartlyStep(specs: seq<JobSpec>, d0: seq<DependencyRuntime>, d1: seq<DependencyRuntime>,
                   d2: seq<DependencyRuntime>, d3: seq<DependencyRuntime>,
                   good: multiset<JobId>, bad: multiset<JobId>, ok: bool, list: seq<JobId>, i: nat,
                   more: multiset<JobId>)
    requires i < |list| && list[i] !in list[..i]
    requires CountersPartly(specs, d0, d1, good, bad, ok, list[..i])
    requires Bumped(d1, d2, list[i], ok) && CountersMoved(specs, d2, d3, multiset{}, more)
    ensures CountersPartly(specs, d0, d3, good, bad + more, ok, list[..i + 1])
  {
    assert list[..i + 1] == list[..i] + [list[i]];
    forall id: JobId | Exists(|specs|, id)
      ensures Hits(specs[id - 1].Dependencies(), bad + more) ==
              Hits(specs[id - 1].Dependencies(), bad) + Hits(specs[id - 1].Dependencies(), more)
      ensures Hits(specs[id - 1].Dependencies(), multiset{}) == 0
    {
      HitsAdd(specs[id - 1].Dependencies(), bad, more);
      HitsNone(specs[id - 1].Dependencies());
    }
  }

  lemma PartlyDone(specs: seq<JobSpec>, d0: seq<DependencyRuntime>, d1: seq<DependencyRuntime>,
                   good: multiset<JobId>, bad: multiset<JobId>, ok: bool, source: JobId, list: seq<JobId>)
    requires SpecsOk(specs)
    requires forall id: JobId :: Exists(|specs|, id) ==>
               (id in list <==> source in specs[id - 1].Dependencies())
    requires CountersPartly(specs, d0, d1, good, bad, ok, list)
    ensures CountersMoved(specs, d0, d1, good + (if ok then multiset{source} else multiset{}),
                          bad + (if ok then multiset{} else multiset{source}))
  {
    forall id: JobId | Exists(|specs|, id)
      ensures var deps := specs[id - 1].Dependencies();
              && Hits(deps, good + multiset{source}) == Hits(deps, good) + (if id in list then 1 else 0)
              && Hits(deps, bad + multiset{source}) == Hits(deps, bad) + (if id in list then 1 else 0)
              && Hits(deps, good + multiset{}) == Hits(deps, good)
              && Hits(deps, bad + multiset{}) == Hits(deps, bad)
    {
      var deps := specs[id - 1].Dependencies();
      HitsAdd(deps, good, multiset{source});
      HitsAdd(deps, bad, multiset{source});
      HitsOne(deps, source);
      assert good + multiset{} == good && bad + multiset{} == bad;
    }
  }

  // ---------- cascades ----------

  /** The state of a cascade from `source` that has cancelled `order`, announced the bag `notes` to
      all dependents, and announced one further source to the jobs in `told`. */
  ghost predicate Cascading(specs: seq<JobSpec>, rts0: seq<JobRuntime>, rts1: seq<JobRuntime>,
                            d0: seq<DependencyRuntime>, d1: seq<DependencyRuntime>, source: JobId,
                            order: seq<JobId>, ok: bool, notes: multiset<JobId>, told: seq<JobId>)
  {
    && |specs| == |rts0| == |rts1|
    && Cancels(rts0, rts1, order) && Justified(specs, rts1, source, order)
    && (forall id: JobId :: id in order ==> specs[id - 1].autoCancel)
    && (ok ==> order == [])
    && CountersPartly(specs, d0, d1, if ok then notes else multiset{}, if ok then multiset{} else notes, ok, told)
  }

  ghost predicate Cascaded(specs: seq<JobSpec>, rts0: seq<JobRuntime>, rts1: seq<JobRuntime>,
                           d0: seq<DependencyRuntime>, d1: seq<DependencyRuntime>, source: JobId,
                           order: seq<JobId>, ok: bool, notes: multiset<JobId>)
  {
    && |specs| == |rts0| == |rts1|
    && Cancels(rts0, rts1, order) && Justified(specs, rts1, source, order)
    && (forall id: JobId :: id in order ==> specs[id - 1].autoCancel)
    && (ok ==> order == [])
    && CountersMoved(specs, d0, d1, if ok then notes else multiset{}, if ok then multiset{} else notes)
  }

  lemma CascadeStarts(specs: seq<JobSpec>, rts: seq<JobRuntime>, d: seq<DependencyRuntime>, source: JobId, ok: bool)
    requires |specs| == |rts| == |d|
    ensures Cascading(specs, rts, rts, d, d, source, [], ok, multiset{}, [])
    ensures Cascaded(specs, rts, rts, d, d, source, [], ok, multiset{})
  {
    CountersStill(specs, d, d);
  }

  lemma CascadeEnds(specs: seq<JobSpec>, rts0: seq<JobRuntime>, rts1: seq<JobRuntime>,
                    d0: seq<DependencyRuntime>, d1: seq<DependencyRuntime>, source: JobId,
                    order: seq<JobId>, ok: bool, notes: multiset<JobId>)
    requires Cascading(specs, rts0, rts1, d0, d1, source, order, ok, notes, [])
    ensures Cascaded(specs, rts0, rts1, d0, d1, source, order, ok, notes)
  {
  }

  lemma CascadeSource(specs: seq<JobSpec>, rts0: seq<JobRuntime>, rts1: seq<JobRuntime>,
                      d0: seq<DependencyRuntime>, d1: seq<DependencyRuntime>, source: JobId,
                      order: seq<JobId>, ok: bool, notes: multiset<JobId>, current: JobId, list: seq<JobId>)
    requires SpecsOk(specs) && Cascading(specs, rts0, rts1, d0, d1, source, order, ok, notes, list)
    requires forall id: JobId :: id in list <==> DependsOn(specs, id, current)
    ensures Cascading(specs, rts0, rts1, d0, d1, source, order, ok, notes + multiset{current}, [])
  {
    hide Cancels, Justified;
    var good, bad := if ok then notes else multiset{}, if ok then multiset{} else notes;
    PartlyDone(specs, d0, d1, good, bad, ok, current, list);
    var none: multiset<JobId> := multiset{};
    assert none + none == none;
  }

  /** One dependent of the current source has been told, and perhaps cancelled together with `tail`. */
  lemma CascadeTell(specs: seq<JobSpec>, rts0: seq<JobRuntime>, rts1: seq<JobRuntime>, rts2: seq<JobRuntime>,
                    d0: seq<DependencyRuntime>, d1: seq<DependencyRuntime>, d2: seq<DependencyRuntime>,
                    d3: seq<DependencyRuntime>, source: JobId, order: seq<JobId>, ok: bool,
                    notes: multiset<JobId>, list: seq<JobId>, i: nat,
                    current: JobId, sub: seq<JobId>, more: multiset<JobId>)
    requires i < |list| && Ascending(list)
    requires Cascading(specs, rts0, rts1, d0, d1, source, order, ok, notes, list[..i])
    requires current == source || current in order
    requires Bumped(d1, d2, list[i], ok)
    requires Cascaded(specs, rts1, rts2, d2, d3, current, sub, false, more)
    requires ok ==> sub == [] && more == multiset{}
    ensures Cascading(specs, rts0, rts2, d0, d3, source, order + sub, ok, notes + more, list[..i + 1])
  {
    hide Bumped, CountersPartly, CountersMoved, JustifiedAt;
    CancelsCompose(rts0, rts1, rts2, order, sub);
    assert forall id: JobId :: id in order ==> Exists(|rts0|, id) && rts1[id - 1].state.Cancelled?;
    hide Cancels;
    JustifiedKept(specs, rts1, rts2, source, order, sub);
    JustifiedCompose(specs, rts2, source, order, current, sub);
    hide Justified;
    var good, bad := if ok then notes else multiset{}, if ok then multiset{} else notes;
    PartlyStep(specs, d0, d1, d2, d3, good, bad, ok, list, i, more);
    var none: multiset<JobId> := multiset{};
    assert notes + none == notes && none + none == none;
  }

  /** A dependent that was told and stays queued changes nothing but its waiting reason. */
  lemma CascadeSpares(specs: seq<JobSpec>, rts0: seq<JobRuntime>, rts1: seq<JobRuntime>,
                      d: seq<DependencyRuntime>, source: JobId, id: JobId, now: Time)
    requires |specs| == |rts0| == |d| && Exists(|rts0|, id)
    requires rts1 == rts0[id - 1 := Synced(specs, rts0, d, id, now)]
    ensures Cascaded(specs, rts0, rts1, d, d, source, [], false, multiset{})
  {
    CountersStill(specs, d, d);
  }

  /** A job that is cancelled for `current` and then takes `tail` down with it. */
  lemma CascadeNest(specs: seq<JobSpec>, rts0: seq<JobRuntime>, rts1: seq<JobRuntime>, rts2: seq<JobRuntime>,
                    d0: seq<DependencyRuntime>, d1: seq<DependencyRuntime>, current: JobId, id: JobId,
                    tail: seq<JobId>, notes: multiset<JobId>, now: Time)
    requires |specs| == |rts0| && Exists(|rts0|, id) && rts0[id - 1].state.Queued? && specs[id - 1].autoCancel
    requires current in specs[id - 1].Dependencies()
    requires rts1 == rts0[id - 1 := Moved(rts0[id - 1], Cancelled, Some(DependencyFailed(current)), now)]
    requires Cascaded(specs, rts1, rts2, d0, d1, id, tail, false, notes)
    ensures Cascaded(specs, rts0, rts2, d0, d1, current, [id] + tail, false, notes)
  {
    hide CountersMoved;
    assert Cancels(rts0, rts1, [id]);
    CancelsCompose(rts0, rts1, rts2, [id], tail);
    assert Justified(specs, rts1, current, [id]);
    JustifiedKept(specs, rts1, rts2, current, [id], tail);
    JustifiedCompose(specs, rts2, current, [id], id, tail);
  }

  lemma CascadedIgnoresEpochs(specs: seq<JobSpec>, rts0: seq<JobRuntime>, rts1: seq<JobRuntime>,
                              d0: seq<DependencyRuntime>, mid: seq<DependencyRuntime>, d1: seq<DependencyRuntime>,
                              source: JobId, order: seq<JobId>, ok: bool, notes: multiset<JobId>)
    requires Exists(|d0|, source)
    requires mid == d0[source - 1 := d0[source - 1].(readyEpoch := d0[source - 1].readyEpoch + 1)]
    requires Cascaded(specs, rts0, rts1, mid, d1, source, order, ok, notes)
    ensures Cascaded(specs, rts0, rts1, d0, d1, source, order, ok, notes)
  {
  }

  // ---------- telling one dependent ----------

  /** Jobs cancelled while one dependent was told: the dependent itself and what it took down. */
  ghost function TakenDown(cancelled: bool, id: JobId, tail: seq<JobId>): seq<JobId> {
    if cancelled then [id] + tail else []
  }

  ghost function PassedOn(cancelled: bool, id: JobId, tail: seq<JobId>, echo: bool): multiset<JobId> {
    if cancelled then Announced(id, tail, echo) else multiset{}
  }

  /** Job `id` was told that its dependency `source` settled: the news was counted once
      (giving `counted`), and the rest is the cascade of its own cancellation, if any, which happens
      only if the news took its last chance. */
  ghost predicate Told(specs: seq<JobSpec>, rts0: seq<JobRuntime>, rts1: seq<JobRuntime>,
                       d0: seq<DependencyRuntime>, counted: seq<DependencyRuntime>, d1: seq<DependencyRuntime>,
                       source: JobId, id: JobId, ok: bool, cancelled: bool, tail: seq<JobId>, echo: bool)
  {
    && Bumped(d0, counted, id, ok)
    && (ok ==> !cancelled)
    && Cascaded(specs, rts0, rts1, counted, d1, source, TakenDown(cancelled, id, tail), false,
                PassedOn(cancelled, id, tail, echo))
    && (cancelled ==> DrivenAway(specs, counted, id, tail, echo))
  }

  ghost predicate DrivenAway(specs: seq<JobSpec>, counted: seq<DependencyRuntime>, id: JobId, tail: seq<JobId>,
                             echo: bool) {
    && |counted| == |specs| && Exists(|specs|, id) && Spent(specs[id - 1], counted[id - 1], 0)
    && Driven(specs, counted, id, tail, echo)
  }

  /** While a failing source is announced, no counter runs ahead of what has been and is being announced. */
  lemma CountedWithin(specs: seq<JobSpec>, d0: seq<DependencyRuntime>, d1: seq<DependencyRuntime>,
                      counted: seq<DependencyRuntime>, notes: multiset<JobId>, list: seq<JobId>, i: nat,
                      current: JobId, j: JobId)
    requires SpecsOk(specs) && i < |list| && Ascending(list) && Exists(|specs|, j)
    requires forall id: JobId :: id in list <==> DependsOn(specs, id, current)
    requires CountersPartly(specs, d0, d1, multiset{}, notes, false, list[..i]) && Bumped(d1, counted, list[i], false)
    ensures |counted| == |specs| && counted[j - 1].success == d0[j - 1].success
    ensures counted[j - 1].terminalNonSuccess <=
            d0[j - 1].terminalNonSuccess + Hits(specs[j - 1].Dependencies(), notes + multiset{current})
  {
    var deps := specs[j - 1].Dependencies();
    HitsNone(deps);
    HitsAdd(deps, notes, multiset{current});
    HitsOne(deps, current);
    if j == list[i] || j in list[..i] {
      assert j in list;
    }
  }

  /** The agenda bounds what has been announced. */
  lemma AgendaBounds(sources: seq<(JobId, bool)>, current: JobId, source: JobId, order: seq<JobId>, ok: bool,
                     notes: multiset<JobId>, echo: bool)
    requires Agenda(sources, multiset{current}, source, order, ok, notes, echo)
    ensures notes + multiset{current} <= Announced(source, order, echo)
  {
  }

  /** The job that was told, and everything it took down, was driven by the announcements so far. */
  lemma DrivenOn(specs: seq<JobSpec>, d0: seq<DependencyRuntime>, d1: seq<DependencyRuntime>,
                 counted: seq<DependencyRuntime>, source: JobId, order: seq<JobId>, notes: multiset<JobId>,
                 list: seq<JobId>, i: nat, current: JobId, tail: seq<JobId>, echo: bool)
    requires SpecsOk(specs) && i < |list| && Ascending(list) && |d0| == |specs|
    requires forall id: JobId :: id in list <==> DependsOn(specs, id, current)
    requires CountersPartly(specs, d0, d1, multiset{}, notes, false, list[..i]) && Bumped(d1, counted, list[i], false)
    requires notes + multiset{current} <= Announced(source, order, echo)
    requires DrivenAway(specs, counted, list[i], tail, echo) && Driven(specs, d0, source, order, echo)
    ensures Driven(specs, d0, source, order + ([list[i]] + tail), echo)
  {
    hide Announced, CountersPartly, Bumped, Spent, SpecsOk, DependsOn, DrivenAt;
    var all, id := order + ([list[i]] + tail), list[i];
    forall k | 0 <= k < |all| ensures DrivenAt(specs, d0, source, all[k], all[..k], echo) {
      if k < |order| {
        assert all[..k] == order[..k] && all[k] == order[k];
        assert DrivenAt(specs, d0, source, order[k], order[..k], echo);
      } else if k == |order| {
        assert all[..k] == order;
        DrivenFirst(specs, d0, d1, counted, source, order, notes, list, i, current, echo);
      } else {
        var m := k - |order| - 1;
        assert all[..k] == order + ([id] + tail[..m]) && all[k] == tail[m];
        assert DrivenAt(specs, counted, id, tail[m], tail[..m], echo);
        DrivenLater(specs, d0, d1, counted, source, order, notes, list, i, current, tail[m], tail[..m], echo);
      }
    }
  }

  lemma DrivenFirst(specs: seq<JobSpec>, d0: seq<DependencyRuntime>, d1: seq<DependencyRuntime>,
                    counted: seq<DependencyRuntime>, source: JobId, order: seq<JobId>, notes: multiset<JobId>,
                    list: seq<JobId>, i: nat, current: JobId, echo: bool)
    requires SpecsOk(specs) && i < |list| && Ascending(list) && |d0| == |specs|
    requires forall id: JobId :: id in list <==> DependsOn(specs, id, current)
    requires CountersPartly(specs, d0, d1, multiset{}, notes, false, list[..i]) && Bumped(d1, counted, list[i], false)
    requires notes + multiset{current} <= Announced(source, order, echo)
    requires |counted| == |specs| && Exists(|specs|, list[i]) && Spent(specs[list[i] - 1], counted[list[i] - 1], 0)
    ensures DrivenAt(specs, d0, source, list[i], order, echo)
  {
    hide Announced, CountersPartly, Bumped, Spent, SpecsOk;
    var id := list[i];
    var deps := specs[id - 1].Dependencies();
    CountedWithin(specs, d0, d1, counted, notes, list, i, current, id);
    HitsMono(deps, notes + multiset{current}, Announced(source, order, echo));
    SpentMore(specs[id - 1], counted[id - 1], 0, d0[id - 1], Hits(deps, Announced(source, order, echo)));
  }

  lemma DrivenLater(specs: seq<JobSpec>, d0: seq<DependencyRuntime>, d1: seq<DependencyRuntime>,
                    counted: seq<DependencyRuntime>, source: JobId, order: seq<JobId>, notes: multiset<JobId>,
                    list: seq<JobId>, i: nat, current: JobId, j: JobId, earlier: seq<JobId>, echo: bool)
    requires SpecsOk(specs) && i < |list| && Ascending(list) && |d0| == |specs|
    requires forall id: JobId :: id in list <==> DependsOn(specs, id, current)
    requires CountersPartly(specs, d0, d1, multiset{}, notes, false, list[..i]) && Bumped(d1, counted, list[i], false)
    requires notes + multiset{current} <= Announced(source, order, echo)
    requires DrivenAt(specs, counted, list[i], j, earlier, echo)
    ensures DrivenAt(specs, d0, source, j, order + ([list[i]] + earlier), echo)
  {
    hide Announced, CountersPartly, Bumped, Spent, SpecsOk;
    var id, deps := list[i], specs[j - 1].Dependencies();
    var before, inner := Announced(source, order, echo), Announced(id, earlier, echo);
    var all := Announced(source, order + ([id] + earlier), echo);
    CountedWithin(specs, d0, d1, counted, notes, list, i, current, j);
    HitsMono(deps, notes + multiset{current}, before);
    AnnouncedGrows(source, order, id, earlier, echo);
    HitsAdd(deps, before, inner);
    HitsMono(deps, before + inner, all);
    SpentMore(specs[j - 1], counted[j - 1], Hits(deps, inner), d0[j - 1], Hits(deps, all));
  }

  /** One dependent has been told: the cascade is still driven. */
  lemma DrivenTold(specs: seq<JobSpec>, rts0: seq<JobRuntime>, rts1: seq<JobRuntime>, rts2: seq<JobRuntime>,
                   d0: seq<DependencyRuntime>, d1: seq<DependencyRuntime>, counted: seq<DependencyRuntime>,
                   d2: seq<DependencyRuntime>, sources: seq<(JobId, bool)>, source: JobId, order: seq<JobId>,
                   ok: bool, notes: multiset<JobId>, list: seq<JobId>, i: nat, current: JobId, cancelled: bool,
                   tail: seq<JobId>, echo: bool)
    requires SpecsOk(specs) && i < |list| && Ascending(list) && |d0| == |specs|
    requires forall id: JobId :: id in list <==> DependsOn(specs, id, current)
    requires Cascading(specs, rts0, rts1, d0, d1, source, order, ok, notes, list[..i])
    requires Agenda(sources, multiset{current}, source, order, ok, notes, echo)
    requires Told(specs, rts1, rts2, d1, counted, d2, current, list[i], ok, cancelled, tail, echo)
    requires Driven(specs, d0, source, order, echo)
    ensures Driven(specs, d0, source, order + TakenDown(cancelled, list[i], tail), echo)
  {
    hide Announced, CountersPartly, Bumped, SpecsOk, DependsOn, DrivenAway, Driven, Agenda, Cancels, Justified;
    hide Cascaded;
    if cancelled {
      AgendaBounds(sources, current, source, order, ok, notes, echo);
      DrivenOn(specs, d0, d1, counted, source, order, notes, list, i, current, tail, echo);
    } else {
      assert order + [] == order;
    }
  }

  /** One dependent of the current source has been told, and perhaps cancelled together with `tail`. */
  lemma CascadeTold(specs: seq<JobSpec>, rts0: seq<JobRuntime>, rts1: seq<JobRuntime>, rts2: seq<JobRuntime>,
                    d0: seq<DependencyRuntime>, d1: seq<DependencyRuntime>, counted: seq<DependencyRuntime>,
                    d2: seq<DependencyRuntime>, source: JobId, order: seq<JobId>, ok: bool,
                    notes: multiset<JobId>, list: seq<JobId>, i: nat,
                    current: JobId, cancelled: bool, tail: seq<JobId>, echo: bool)
    requires i < |list| && Ascending(list)
    requires Cascading(specs, rts0, rts1, d0, d1, source, order, ok, notes, list[..i])
    requires current == source || current in order
    requires Told(specs, rts1, rts2, d1, counted, d2, current, list[i], ok, cancelled, tail, echo)
    ensures Cascading(specs, rts0, rts2, d0, d2, source, order + TakenDown(cancelled, list[i], tail), ok,
                      notes + PassedOn(cancelled, list[i], tail, echo), list[..i + 1])
  {
    hide Cascading, Cascaded, Bumped, Announced;
    CascadeTell(specs, rts0, rts1, rts2, d0, d1, counted, d2, source, order, ok, notes, list, i, current,
                TakenDown(cancelled, list[i], tail), PassedOn(cancelled, list[i], tail, echo));
  }

  lemma ToldAndSpared(specs: seq<JobSpec>, rts0: seq<JobRuntime>, rts1: seq<JobRuntime>,
                      d0: seq<DependencyRuntime>, d1: seq<DependencyRuntime>,
                      source: JobId, id: JobId, ok: bool, now: Time, echo: bool)
    requires |specs| == |rts0| == |d1| && Exists(|rts0|, id) && Bumped(d0, d1, id, ok)
    requires rts1 == rts0[id - 1 := Synced(specs, rts0, d1, id, now)]
    ensures Told(specs, rts0, rts1, d0, d1, d1, source, id, ok, false, [], echo)
  {
    hide Bumped, Cascaded;
    CascadeSpares(specs, rts0, rts1, d1, source, id, now);
  }

  lemma ToldAndCancelled(specs: seq<JobSpec>, rts0: seq<JobRuntime>, rts1: seq<JobRuntime>, rts2: seq<JobRuntime>,
                         d0: seq<DependencyRuntime>, d1: seq<DependencyRuntime>, d2: seq<DependencyRuntime>,
                         source: JobId, id: JobId, now: Time, tail: seq<JobId>, echo: bool)
    requires |specs| == |rts0| == |d1| && Exists(|rts0|, id) && Bumped(d0, d1, id, false)
    requires source in specs[id - 1].Dependencies() && rts0[id - 1].state.Queued? && specs[id - 1].autoCancel
    requires rts1 == rts0[id - 1 := Synced(specs, rts0, d1, id, now)]
    requires Transitioned(specs, rts1, rts2, d1, d2, id, Cancelled, Some(DependencyFailed(source)), now, true, tail,
                          echo)
    requires Exists(|specs|, id) && Spent(specs[id - 1], d1[id - 1], 0)
    ensures Told(specs, rts0, rts2, d0, d1, d2, source, id, false, true, tail, echo)
  {
    hide Bumped, Cascaded, Announced, Driven, Spent;
    var moved := rts0[id - 1 := Moved(rts0[id - 1], Cancelled, Some(DependencyFailed(source)), now)];
    assert moved == rts1[id - 1 := Moved(rts1[id - 1], Cancelled, Some(DependencyFailed(source)), now)];
    CascadeNest(specs, rts0, moved, rts2, d1, d2, source, id, tail, Announced(id, tail, echo), now);
  }

  // ---------- the work list of a cascade ----------

  ghost function Ids(sources: seq<(JobId, bool)>): seq<JobId> {
    seq(|sources|, i requires 0 <= i < |sources| => sources[i].0)
  }

  /** What is still to be announced: the sources on the work list and those in `current`. Together
      with what has been announced (`notes`) they make up everything the cascade announces. */
  ghost predicate Agenda(sources: seq<(JobId, bool)>, current: multiset<JobId>, source: JobId, order: seq<JobId>,
                         ok: bool, notes: multiset<JobId>, echo: bool)
  {
    && (forall i :: 0 <= i < |sources| ==> sources[i].1 == ok && (sources[i].0 == source || sources[i].0 in order))
    && (forall x :: x in current ==> x == source || x in order)
    && notes + current + multiset(Ids(sources)) == Announced(source, order, echo)
  }

  lemma AgendaStarts(source: JobId, ok: bool, echo: bool)
    ensures Agenda([(source, ok)], multiset{}, source, [], ok, multiset{}, echo)
  {
    assert Ids([(source, ok)]) == [source];
  }

  lemma AgendaPop(sources: seq<(JobId, bool)>, source: JobId, order: seq<JobId>, ok: bool,
                  notes: multiset<JobId>, echo: bool)
    requires sources != [] && Agenda(sources, multiset{}, source, order, ok, notes, echo)
    ensures var last := sources[|sources| - 1];
      && last.1 == ok && (last.0 == source || last.0 in order)
      && Agenda(sources[..|sources| - 1], multiset{last.0}, source, order, ok, notes, echo)
  {
    var front, last := sources[..|sources| - 1], sources[|sources| - 1];
    assert Ids(sources) == Ids(front) + [last.0];
  }

  lemma AnnouncedGrows(source: JobId, order: seq<JobId>, id: JobId, tail: seq<JobId>, echo: bool)
    ensures Announced(source, order + ([id] + tail), echo) ==
            Announced(source, order, echo) + Announced(id, tail, echo) + (if echo then multiset{id} else multiset{})
    ensures order + [] == order
  {
    assert multiset(order + ([id] + tail)) == multiset(order) + multiset{id} + multiset(tail);
  }

  lemma AgendaGrows(sources: seq<(JobId, bool)>, current: JobId, source: JobId, order: seq<JobId>,
                    notes: multiset<JobId>, id: JobId, tail: seq<JobId>, echo: bool)
    requires Agenda(sources, multiset{current}, source, order, false, notes, echo)
    ensures Agenda(if echo then sources + [(id, false)] else sources, multiset{current}, source,
                   order + ([id] + tail), false, notes + Announced(id, tail, echo), echo)
  {
    hide Announced;
    AnnouncedGrows(source, order, id, tail, echo);
    if echo {
      assert Ids(sources + [(id, false)]) == Ids(sources) + [id];
    }
  }

  lemma AgendaTold(sources: seq<(JobId, bool)>, current: JobId, source: JobId, order: seq<JobId>, ok: bool,
                   notes: multiset<JobId>, cancelled: bool, id: JobId, tail: seq<JobId>, echo: bool)
    requires Agenda(sources, multiset{current}, source, order, ok, notes, echo) && (ok ==> !cancelled)
    ensures Agenda(if cancelled && echo then sources + [(id, false)] else sources, multiset{current}, source,
                   order + TakenDown(cancelled, id, tail), ok, notes + PassedOn(cancelled, id, tail, echo), echo)
    ensures current == source || current in order
  {
    hide Announced;
    if cancelled {
      AgendaGrows(sources, current, source, order, notes, id, tail, echo);
    } else {
      assert order + TakenDown(cancelled, id, tail) == order && notes + PassedOn(cancelled, id, tail, echo) == notes;
    }
    assert current in multiset{current};
  }

  lemma AgendaDone(sources: seq<(JobId, bool)>, current: JobId, source: JobId, order: seq<JobId>, ok: bool,
                   notes: multiset<JobId>, echo: bool)
    requires Agenda(sources, multiset{current}, source, order, ok, notes, echo)
    ensures Agenda(sources, multiset{}, source, order, ok, notes + multiset{current}, echo)
  {
  }

  lemma AgendaEnds(source: JobId, order: seq<JobId>, ok: bool, notes: multiset<JobId>, echo: bool)
    requires Agenda([], multiset{}, source, order, ok, notes, echo)
    ensures notes == Announced(source, order, echo)
  {
  }

  // ---------- a cascade under way ----------

  /** A cascade under way: what it has done, what drove it, and what is left on its work list. */
  ghost predicate Announcing(specs: seq<JobSpec>, rts0: seq<JobRuntime>, rts1: seq<JobRuntime>,
                             d0: seq<DependencyRuntime>, d1: seq<DependencyRuntime>, sources: seq<(JobId, bool)>,
                             current: multiset<JobId>, source: JobId, order: seq<JobId>, ok: bool,
                             notes: multiset<JobId>, told: seq<JobId>, echo: bool)
  {
    && Agenda(sources, current, source, order, ok, notes, echo)
    && Cascading(specs, rts0, rts1, d0, d1, source, order, ok, notes, told)
    && |d0| == |specs| && Driven(specs, d0, source, order, echo)
  }

  lemma AnnouncingStarts(specs: seq<JobSpec>, rts: seq<JobRuntime>, d: seq<DependencyRuntime>, source: JobId, ok: bool,
                         echo: bool)
    requires |specs| == |rts| == |d|
    ensures Announcing(specs, rts, rts, d, d, [(source, ok)], multiset{}, source, [], ok, multiset{}, [], echo)
  {
    hide Cascading, Agenda, Cascaded;
    CascadeStarts(specs, rts, d, source, ok);
    AgendaStarts(source, ok, echo);
  }

  lemma AnnouncingPop(specs: seq<JobSpec>, rts0: seq<JobRuntime>, rts1: seq<JobRuntime>, d0: seq<DependencyRuntime>,
                      d1: seq<DependencyRuntime>, sources: seq<(JobId, bool)>, source: JobId, order: seq<JobId>,
                      ok: bool, notes: multiset<JobId>, echo: bool)
    requires sources != []
    requires Announcing(specs, rts0, rts1, d0, d1, sources, multiset{}, source, order, ok, notes, [], echo)
    ensures var last := sources[|sources| - 1];
            Announcing(specs, rts0, rts1, d0, d1, sources[..|sources| - 1], multiset{last.0}, source, order, ok, notes,
                       [], echo)
  {
    hide Cascading, Agenda, Driven;
    AgendaPop(sources, source, order, ok, notes, echo);
  }

  /** The current source is announced to one more dependent. */
  lemma AnnouncingTold(specs: seq<JobSpec>, rts0: seq<JobRuntime>, rts1: seq<JobRuntime>, rts2: seq<JobRuntime>,
                       d0: seq<DependencyRuntime>, d1: seq<DependencyRuntime>, counted: seq<DependencyRuntime>,
                       d2: seq<DependencyRuntime>, sources: seq<(JobId, bool)>, source: JobId, order: seq<JobId>,
                       ok: bool, notes: multiset<JobId>, list: seq<JobId>, i: nat, current: JobId, cancelled: bool,
                       tail: seq<JobId>, echo: bool)
    requires SpecsOk(specs) && i < |list| && Ascending(list)
    requires forall id: JobId :: id in list <==> DependsOn(specs, id, current)
    requires Announcing(specs, rts0, rts1, d0, d1, sources, multiset{current}, source, order, ok, notes, list[..i],
                        echo)
    requires Told(specs, rts1, rts2, d1, counted, d2, current, list[i], ok, cancelled, tail, echo)
    ensures Announcing(specs, rts0, rts2, d0, d2, if cancelled && echo then sources + [(list[i], false)] else sources,
                       multiset{current}, source, order + TakenDown(cancelled, list[i], tail), ok,
                       notes + PassedOn(cancelled, list[i], tail, echo), list[..i + 1], echo)
  {
    hide Cascading, Agenda, Driven, Told, SpecsOk, TakenDown, PassedOn, DependsOn;
    ToldFailure(specs, rts1, rts2, d1, counted, d2, current, list[i], ok, cancelled, tail, echo);
    AgendaTold(sources, current, source, order, ok, notes, cancelled, list[i], tail, echo);
    DrivenTold(specs, rts0, rts1, rts2, d0, d1, counted, d2, sources, source, order, ok, notes, list, i, current,
               cancelled, tail, echo);
    CascadeTold(specs, rts0, rts1, rts2, d0, d1, counted, d2, source, order, ok, notes, list, i, current, cancelled,
                tail, echo);
  }

  lemma ToldFailure(specs: seq<JobSpec>, rts0: seq<JobRuntime>, rts1: seq<JobRuntime>, d0: seq<DependencyRuntime>,
                    counted: seq<DependencyRuntime>, d1: seq<DependencyRuntime>, source: JobId, id: JobId, ok: bool,
                    cancelled: bool, tail: seq<JobId>, echo: bool)
    requires Told(specs, rts0, rts1, d0, counted, d1, source, id, ok, cancelled, tail, echo)
    ensures ok ==> !cancelled
  {
    hide Cascaded, Bumped, DrivenAway;
  }

  /** The current source has been announced to all its dependents. */
  lemma AnnouncingDone(specs: seq<JobSpec>, rts0: seq<JobRuntime>, rts1: seq<JobRuntime>, d0: seq<DependencyRuntime>,
                       d1: seq<DependencyRuntime>, sources: seq<(JobId, bool)>, source: JobId, order: seq<JobId>,
                       ok: bool, notes: multiset<JobId>, list: seq<JobId>, current: JobId, echo: bool)
    requires SpecsOk(specs) && forall id: JobId :: id in list <==> DependsOn(specs, id, current)
    requires Announcing(specs, rts0, rts1, d0, d1, sources, multiset{current}, source, order, ok, notes, list, echo)
    ensures Announcing(specs, rts0, rts1, d0, d1, sources, multiset{}, source, order, ok, notes + multiset{current}, [],
                       echo)
  {
    hide Cascading, Agenda, Driven, SpecsOk, DependsOn;
    AgendaDone(sources, current, source, order, ok, notes, echo);
    CascadeSource(specs, rts0, rts1, d0, d1, source, order, ok, notes, current, list);
  }

  lemma AnnouncingEnds(specs: seq<JobSpec>, rts0: seq<JobRuntime>, rts1: seq<JobRuntime>, d0: seq<DependencyRuntime>,
                       d1: seq<DependencyRuntime>, source: JobId, order: seq<JobId>, ok: bool, notes: multiset<JobId>,
                       echo: bool)
    requires Announcing(specs, rts0, rts1, d0, d1, [], multiset{}, source, order, ok, notes, [], echo)
    ensures Cascaded(specs, rts0, rts1, d0, d1, source, order, ok, Announced(source, order, echo))
    ensures Driven(specs, d0, source, order, echo)
  {
    hide Cascading, Agenda, Driven, Cascaded, Announced;
    AgendaEnds(source, order, ok, notes, echo);
    CascadeEnds(specs, rts0, rts1, d0, d1, source, order, ok, notes);
  }

  // ---------- a whole transition ----------

  function EpochBumped(d: seq<DependencyRuntime>, id: JobId): seq<DependencyRuntime>
    requires Exists(|d|, id)
  {
    d[id - 1 := d[id - 1].(readyEpoch := d[id - 1].readyEpoch + 1)]
  }

  /** The effect of moving job `id` to `next` on the job vectors: the move itself and, when a final
      state is announced, the cascade it sets off. */
  ghost predicate Transitioned(specs: seq<JobSpec>, rts0: seq<JobRuntime>, rts1: seq<JobRuntime>,
                               d0: seq<DependencyRuntime>, d1: seq<DependencyRuntime>, id: JobId,
                               next: JobState, reason: Option<Reason>, now: Time, propagate: bool,
                               order: seq<JobId>, echo: bool)
  {
    && |rts0| == |d0| && Exists(|rts0|, id)
    && var moved := rts0[id - 1 := Moved(rts0[id - 1], next, reason, now)];
       if next.IsFinal() && propagate
       then Cascaded(specs, moved, rts1, d0, d1, id, order, next.Finished?, Announced(id, order, echo))
            && Driven(specs, d0, id, order, echo)
       else order == [] && rts1 == moved && d1 == EpochBumped(d0, id)
  }

  lemma DrivenIgnoresEpochs(specs: seq<JobSpec>, d0: seq<DependencyRuntime>, d1: seq<DependencyRuntime>, id: JobId,
                            source: JobId, order: seq<JobId>, echo: bool)
    requires Exists(|d0|, id) && d1 == EpochBumped(d0, id) && Driven(specs, d1, source, order, echo)
    ensures Driven(specs, d0, source, order, echo)
  {
    hide Announced;
    forall i | 0 <= i < |order| ensures DrivenAt(specs, d0, source, order[i], order[..i], echo) {
      assert DrivenAt(specs, d1, source, order[i], order[..i], echo);
    }
  }

  lemma TransitionAnnounced(specs: seq<JobSpec>, rts0: seq<JobRuntime>, moved: seq<JobRuntime>, rts1: seq<JobRuntime>,
                            d0: seq<DependencyRuntime>, mid: seq<DependencyRuntime>, d1: seq<DependencyRuntime>,
                            id: JobId, next: JobState, reason: Option<Reason>, now: Time,
                            order: seq<JobId>, echo: bool)
    requires |rts0| == |d0| && Exists(|rts0|, id) && next.IsFinal()
    requires moved == rts0[id - 1 := Moved(rts0[id - 1], next, reason, now)] && mid == EpochBumped(d0, id)
    requires Cascaded(specs, moved, rts1, mid, d1, id, order, next.Finished?, Announced(id, order, echo))
    requires Driven(specs, mid, id, order, echo)
    ensures Transitioned(specs, rts0, rts1, d0, d1, id, next, reason, now, true, order, echo)
  {
    hide Cascaded, Announced, Driven;
    DrivenIgnoresEpochs(specs, d0, mid, id, id, order, echo);
    CascadedIgnoresEpochs(specs, moved, rts1, d0, mid, d1, id, order, next.Finished?, Announced(id, order, echo));
  }

  /** What a transition does to the job itself, field by field. */
  lemma SourceBecomes(specs: seq<JobSpec>, rts0: seq<JobRuntime>, rts1: seq<JobRuntime>, d0: seq<DependencyRuntime>,
                      d1: seq<DependencyRuntime>, id: JobId, next: JobState, reason: Option<Reason>, now: Time,
                      propagate: bool, order: seq<JobId>, echo: bool)
    requires Transitioned(specs, rts0, rts1, d0, d1, id, next, reason, now, propagate, order, echo) && !next.Queued?
    ensures |rts1| == |rts0| && Exists(|rts0|, id)
    ensures var before, after := rts0[id - 1], rts1[id - 1];
      && after == before.(state := next, reason := after.reason,
                          startedAt := if next == JobState.Running then Some(now) else before.startedAt,
                          finishedAt := if next == JobState.Running || next == JobState.Hold then before.finishedAt
                                        else Some(now))
      && (reason != Some(WaitingForDependency) && reason != Some(WaitingForStartTime) ==> after.reason == reason)
  {
    hide Justified, CountersMoved, Announced, Driven;
  }

  lemma TransitionSilent(specs: seq<JobSpec>, rts0: seq<JobRuntime>, rts1: seq<JobRuntime>,
                         d0: seq<DependencyRuntime>, d1: seq<DependencyRuntime>,
                         id: JobId, next: JobState, reason: Option<Reason>, now: Time, propagate: bool, echo: bool)
    requires |rts0| == |d0| && Exists(|rts0|, id) && !(next.IsFinal() && propagate)
    requires rts1 == rts0[id - 1 := Moved(rts0[id - 1], next, reason, now)] && d1 == EpochBumped(d0, id)
    ensures Transitioned(specs, rts0, rts1, d0, d1, id, next, reason, now, propagate, [], echo)
  {
  }

  // ---------- blame ----------

  /** A cancelled job's reason names one of its own dependencies, which ended without success. */
  ghost predicate Blames(specs: seq<JobSpec>, rts: seq<JobRuntime>, id: JobId) {
    && |specs| == |rts| && Exists(|rts|, id) && specs[id - 1].autoCancel
    && rts[id - 1].reason.Some? && rts[id - 1].reason.value.DependencyFailed?
    && rts[id - 1].reason.value.cause in specs[id - 1].Dependencies()
    && rts[id - 1].reason.value.cause in Unsuccessful(rts)
  }

  /** Between operations, only queued jobs that cancel with their dependencies were taken down, each
      with good reason. */
  ghost predicate TookDown(specs: seq<JobSpec>, rts0: seq<JobRuntime>, rts1: seq<JobRuntime>, order: seq<JobId>) {
    Cancels(rts0, rts1, order) && forall id: JobId :: id in order ==> Blames(specs, rts1, id)
  }

  lemma TookDownCancels(specs: seq<JobSpec>, rts0: seq<JobRuntime>, rts1: seq<JobRuntime>, order: seq<JobId>)
    requires TookDown(specs, rts0, rts1, order)
    ensures Cancels(rts0, rts1, order)
  {
  }

  lemma TookDownCompose(specs: seq<JobSpec>, rts0: seq<JobRuntime>, rts1: seq<JobRuntime>, rts2: seq<JobRuntime>,
                        order1: seq<JobId>, order2: seq<JobId>)
    requires TookDown(specs, rts0, rts1, order1) && TookDown(specs, rts1, rts2, order2)
    ensures TookDown(specs, rts0, rts2, order1 + order2)
  {
    hide Unsuccessful;
    CancelsCompose(rts0, rts1, rts2, order1, order2);
    CancelsSets(rts1, rts2, order2);
    forall id: JobId | id in order1 + order2 ensures Blames(specs, rts2, id) {
      if id in order1 {
        assert Blames(specs, rts1, id);
        assert Exists(|rts1|, id) && rts1[id - 1].state.Cancelled?;
      } else {
        assert id in order2;
      }
    }
  }

  /** Cancelling a queued job because of a failed dependency takes it down, and its own cascade. */
  lemma CancellationTakesDown(specs: seq<JobSpec>, rts0: seq<JobRuntime>, rts1: seq<JobRuntime>,
                              d0: seq<DependencyRuntime>, d1: seq<DependencyRuntime>, id: JobId, cause: JobId,
                              now: Time, tail: seq<JobId>, echo: bool)
    requires Transitioned(specs, rts0, rts1, d0, d1, id, Cancelled, Some(DependencyFailed(cause)), now, true, tail,
                          echo)
    requires |specs| == |rts0| && rts0[id - 1].state.Queued? && specs[id - 1].autoCancel
    requires cause in specs[id - 1].Dependencies() && cause in Unsuccessful(rts0)
    ensures TookDown(specs, rts0, rts1, [id] + tail)
  {
    hide Unsuccessful, CountersMoved, Announced;
    var moved := rts0[id - 1 := Moved(rts0[id - 1], Cancelled, Some(DependencyFailed(cause)), now)];
    assert Cancels(rts0, moved, [id]);
    MoveFinished(rts0, id, Cancelled, Some(DependencyFailed(cause)), now);
    assert Blames(specs, moved, id);
    JustifiedBlames(specs, moved, rts1, id, tail);
    assert TookDown(specs, rts0, moved, [id]);
    TookDownCompose(specs, rts0, moved, rts1, [id], tail);
  }

  lemma JustifiedBlames(specs: seq<JobSpec>, rts0: seq<JobRuntime>, rts1: seq<JobRuntime>,
                        source: JobId, order: seq<JobId>)
    requires |specs| == |rts0| && Cancels(rts0, rts1, order) && Justified(specs, rts1, source, order)
    requires source in Unsuccessful(rts0) && forall id: JobId :: id in order ==> specs[id - 1].autoCancel
    ensures TookDown(specs, rts0, rts1, order)
  {
    hide Unsuccessful;
    CancelsSets(rts0, rts1, order);
    forall id: JobId | id in order ensures Blames(specs, rts1, id) {
      var i :| 0 <= i < |order| && order[i] == id;
      assert JustifiedAt(specs, rts1, source, order[i], order[..i]);
      var cause := rts1[id - 1].reason.value.cause;
      assert cause in order[..i] ==> cause in Elements(order);
    }
  }

  /** Cascades only touch queued jobs. */
  lemma RunningIsSpared(rts0: seq<JobRuntime>, rts1: seq<JobRuntime>, order: seq<JobId>, id: JobId)
    requires Cancels(rts0, rts1, order) && Exists(|rts0|, id) && rts0[id - 1].state.Running?
    ensures |rts1| == |rts0| && rts1[id - 1] == rts0[id - 1].(reason := rts1[id - 1].reason)
  {
  }

  lemma RunningStaysPut(specs: seq<JobSpec>, rts0: seq<JobRuntime>, rt: JobRuntime, rts1: seq<JobRuntime>,
                        order: seq<JobId>, id: JobId)
    requires TookDown(specs, rts0 + [rt], rts1, order) && Exists(|rts0|, id) && rts0[id - 1].state.Running?
    ensures |rts1| == |rts0| + 1 && rts1[id - 1] == rts0[id - 1].(reason := rts1[id - 1].reason)
  {
    assert Exists(|rts0 + [rt]|, id);
  }

  // ---------- who is flagged ----------

  /** Job `id` is queued, cancels with its dependencies, and is flagged as impossible. */
  predicate Flagged(specs: seq<JobSpec>, rts: seq<JobRuntime>, d: seq<DependencyRuntime>, id: JobId) {
    && |specs| == |rts| == |d| && Exists(|rts|, id)
    && rts[id - 1].state.Queued? && specs[id - 1].autoCancel && d[id - 1].impossible
  }

  /** Whoever is flagged was flagged before. */
  ghost predicate NobodyFlagged(specs: seq<JobSpec>, rts0: seq<JobRuntime>, rts1: seq<JobRuntime>,
                                d0: seq<DependencyRuntime>, d1: seq<DependencyRuntime>) {
    forall id: JobId :: Flagged(specs, rts1, d1, id) ==> Flagged(specs, rts0, d0, id)
  }

  /** None of the jobs that wait for `source` is flagged. */
  ghost predicate SweptFor(specs: seq<JobSpec>, rts: seq<JobRuntime>, d: seq<DependencyRuntime>, source: JobId) {
    forall id: JobId :: DependsOn(specs, id, source) ==> !Flagged(specs, rts, d, id)
  }

  // ---------- the sweep ----------

  /** While a sweep goes on: no job that was looked at is flagged, and the sources that are done are swept for;
      `sources` are to do, and `current`, if it is one, is being done. */
  ghost predicate SweptSoFar(specs: seq<JobSpec>, rts: seq<JobRuntime>, d: seq<DependencyRuntime>, failed: JobId,
                             cancelled: seq<JobId>, sources: seq<JobId>, seen: set<(JobId, JobId)>, current: int)
  {
    && (forall p :: p in seen ==> !Flagged(specs, rts, d, p.1))
    && forall source: JobId :: (source == failed || source in cancelled) && source !in sources && source != current ==>
         SweptFor(specs, rts, d, source)
  }

  lemma SweepStarts(specs: seq<JobSpec>, rts: seq<JobRuntime>, d: seq<DependencyRuntime>, failed: JobId)
    ensures SweptSoFar(specs, rts, d, failed, [], [failed], {}, -1)
  {
  }

  lemma SweepTurnsTo(specs: seq<JobSpec>, rts: seq<JobRuntime>, d: seq<DependencyRuntime>, failed: JobId,
                     cancelled: seq<JobId>, sources: seq<JobId>, seen: set<(JobId, JobId)>)
    requires sources != [] && SweptSoFar(specs, rts, d, failed, cancelled, sources, seen, -1)
    ensures SweptSoFar(specs, rts, d, failed, cancelled, sources[..|sources| - 1], seen, sources[|sources| - 1])
  {
    hide Flagged, SweptFor;
  }

  lemma SweepSkips(specs: seq<JobSpec>, rts: seq<JobRuntime>, d: seq<DependencyRuntime>, failed: JobId,
                   cancelled: seq<JobId>, sources: seq<JobId>, seen: set<(JobId, JobId)>, source: JobId, id: JobId)
    requires SweptSoFar(specs, rts, d, failed, cancelled, sources, seen, source) && !Flagged(specs, rts, d, id)
    ensures SweptSoFar(specs, rts, d, failed, cancelled, sources, seen + {(source, id)}, source)
  {
    hide Flagged, SweptFor;
  }

  lemma SweepCancels(specs: seq<JobSpec>, rts0: seq<JobRuntime>, rts1: seq<JobRuntime>, d0: seq<DependencyRuntime>,
                     d1: seq<DependencyRuntime>, failed: JobId, cancelled: seq<JobId>, sources: seq<JobId>,
                     seen: set<(JobId, JobId)>, source: JobId, id: JobId)
    requires SweptSoFar(specs, rts0, d0, failed, cancelled, sources, seen, source)
    requires NobodyFlagged(specs, rts0, rts1, d0, d1) && !Flagged(specs, rts1, d1, id)
    ensures SweptSoFar(specs, rts1, d1, failed, cancelled + [id], sources + [id], seen + {(source, id)}, source)
  {
    hide Flagged;
  }

  lemma SweepFinishes(specs: seq<JobSpec>, rts: seq<JobRuntime>, d: seq<DependencyRuntime>, failed: JobId,
                      cancelled: seq<JobId>, sources: seq<JobId>, seen: set<(JobId, JobId)>, source: JobId,
                      list: seq<JobId>)
    requires SweptSoFar(specs, rts, d, failed, cancelled, sources, seen, source)
    requires forall k :: 0 <= k < |list| ==> (source, list[k]) in seen
    requires forall id: JobId :: DependsOn(specs, id, source) ==> id in list
    ensures SweptSoFar(specs, rts, d, failed, cancelled, sources, seen, -1)
  {
    hide Flagged, DependsOn;
    forall id: JobId | DependsOn(specs, id, source) ensures !Flagged(specs, rts, d, id) {
      var k :| 0 <= k < |list| && list[k] == id;
      assert (source, list[k]) in seen;
      assert (source, id).1 == id;
    }
    assert SweptFor(specs, rts, d, source);
  }

  /** The jobs on the list were queued and are cancelled. */
  predicate GoneDown(rts0: seq<JobRuntime>, rts1: seq<JobRuntime>, cancelled: seq<JobId>) {
    |rts0| == |rts1| && forall id: JobId :: id in cancelled ==>
      Exists(|rts0|, id) && rts0[id - 1].state.Queued? && rts1[id - 1].state.Cancelled?
  }

  lemma NobodyGone(rts: seq<JobRuntime>)
    ensures GoneDown(rts, rts, [])
  {
  }

  lemma SweepEnds(specs: seq<JobSpec>, rts: seq<JobRuntime>, d: seq<DependencyRuntime>, rts0: seq<JobRuntime>,
                  failed: JobId, cancelled: seq<JobId>, seen: set<(JobId, JobId)>)
    requires SweptSoFar(specs, rts, d, failed, cancelled, [], seen, -1) && GoneDown(rts0, rts, cancelled)
    ensures forall source: JobId :: source == failed || source in cancelled ==> SweptFor(specs, rts, d, source)
    ensures forall x: JobId :: x in cancelled ==>
              Exists(|rts0|, x) && |rts| == |rts0| && rts0[x - 1].state.Queued? && rts[x - 1].state.Cancelled?
  {
    hide Flagged, SweptFor;
  }

  lemma OneMoreGone(rts0: seq<JobRuntime>, rts1: seq<JobRuntime>, rts2: seq<JobRuntime>, cancelled: seq<JobId>,
                    id: JobId, tail: seq<JobId>)
    requires GoneDown(rts0, rts1, cancelled) && OthersOnlyGoDown(rts0, rts1, 0) && Cancels(rts1, rts2, [id] + tail)
    ensures GoneDown(rts0, rts2, cancelled + [id]) && OthersOnlyGoDown(rts0, rts2, 0)
    ensures Exists(|rts2|, id) && rts2[id - 1].state.Cancelled?
  {
    OthersAfterCascade(rts0, rts1, rts2, [id] + tail, 0);
    assert id in cancelled + [id];
    forall x: JobId | x in cancelled + [id]
      ensures Exists(|rts0|, x) && rts0[x - 1].state.Queued? && rts2[x - 1].state.Cancelled?
    {
      assert id in [id] + tail;
      assert Exists(|rts1|, x) && LeftOrCancelled(rts0[x - 1], rts1[x - 1]);
    }
  }

  lemma NobodyFlaggedTrans(specs: seq<JobSpec>, rts0: seq<JobRuntime>, rts1: seq<JobRuntime>, rts2: seq<JobRuntime>,
                           d0: seq<DependencyRuntime>, d1: seq<DependencyRuntime>, d2: seq<DependencyRuntime>)
    requires NobodyFlagged(specs, rts0, rts1, d0, d1) && NobodyFlagged(specs, rts1, rts2, d1, d2)
    ensures NobodyFlagged(specs, rts0, rts2, d0, d2)
  {
    hide Flagged;
  }

  lemma NobodyNewlyFlagged(specs: seq<JobSpec>, rts: seq<JobRuntime>, d: seq<DependencyRuntime>)
    ensures NobodyFlagged(specs, rts, rts, d, d)
  {
  }

  lemma MoveFlagsNobody(specs: seq<JobSpec>, rts0: seq<JobRuntime>, rts1: seq<JobRuntime>, d0: seq<DependencyRuntime>,
                        d1: seq<DependencyRuntime>, id: JobId, next: JobState, reason: Option<Reason>, now: Time)
    requires |specs| == |rts0| == |d0| && Exists(|d0|, id) && !next.Queued?
    requires rts1 == rts0[id - 1 := Moved(rts0[id - 1], next, reason, now)] && d1 == EpochBumped(d0, id)
    ensures NobodyFlagged(specs, rts0, rts1, d0, d1)
  {
  }

  /** Telling a job of a failure flags at most that job, and no job that has just gone is flagged. */
  lemma TellingFlags(specs: seq<JobSpec>, rts0: seq<JobRuntime>, rts1: seq<JobRuntime>, rts2: seq<JobRuntime>,
                     d0: seq<DependencyRuntime>, d1: seq<DependencyRuntime>, d2: seq<DependencyRuntime>, id: JobId,
                     dep: DependencyRuntime, now: Time)
    requires |specs| == |rts0| == |d0| && Exists(|d0|, id) && d1 == d0[id - 1 := dep]
    requires rts1 == rts0[id - 1 := Synced(specs, rts0, d1, id, now)]
    requires NobodyFlagged(specs, rts1, rts2, d1, d2)
    requires Flagged(specs, rts2, d2, id) ==> d0[id - 1].impossible
    ensures NobodyFlagged(specs, rts0, rts2, d0, d2)
  {
  }

  lemma CancellationCancels(specs: seq<JobSpec>, rts0: seq<JobRuntime>, rts1: seq<JobRuntime>,
                            d0: seq<DependencyRuntime>, d1: seq<DependencyRuntime>, id: JobId, cause: JobId,
                            now: Time, tail: seq<JobId>, echo: bool)
    requires Transitioned(specs, rts0, rts1, d0, d1, id, Cancelled, Some(DependencyFailed(cause)), now, true, tail,
                          echo)
    requires |specs| == |rts0| && rts0[id - 1].state.Queued?
    ensures Cancels(rts0, rts1, [id] + tail)
  {
    hide Justified, CountersMoved, Announced, Driven;
    var moved := rts0[id - 1 := Moved(rts0[id - 1], Cancelled, Some(DependencyFailed(cause)), now)];
    assert Cancels(rts0, moved, [id]);
    CancelsCompose(rts0, moved, rts1, [id], tail);
  }

  lemma OthersAfterCascade(rts0: seq<JobRuntime>, rts1: seq<JobRuntime>, rts2: seq<JobRuntime>, order: seq<JobId>,
                           id: JobId)
    requires OthersOnlyGoDown(rts0, rts1, id) && Cancels(rts1, rts2, order)
    ensures OthersOnlyGoDown(rts0, rts2, id)
  {
    forall i | 0 <= i < |rts0| && i + 1 != id ensures LeftOrCancelled(rts0[i], rts2[i]) {
      assert Exists(|rts1|, i + 1);
    }
  }

  lemma OthersAfterSubmission(specs: seq<JobSpec>, rts0: seq<JobRuntime>, rt: JobRuntime, rts1: seq<JobRuntime>,
                              order: seq<JobId>, id: JobId)
    requires TookDown(specs, rts0 + [rt], rts1, order)
    ensures OthersOnlyGoDown(rts0, rts1, id)
  {
    hide Cancels, Blames;
    OthersAfterCascade(rts0, rts0 + [rt], rts1, order, id);
  }

  /** A held job that is queued again stays in the queue or is taken down. */
  lemma QueuedAgain(specs: seq<JobSpec>, rts0: seq<JobRuntime>, rts1: seq<JobRuntime>, id: JobId, order: seq<JobId>,
                    now: Time)
    requires Exists(|rts0|, id) && TookDown(specs, rts0[id - 1 := Moved(rts0[id - 1], Queued, None, now)], rts1, order)
    ensures |rts1| == |rts0| && rts1[id - 1].state in {JobState.Queued, JobState.Cancelled}
    ensures rts1[id - 1] == rts0[id - 1].(state := rts1[id - 1].state, reason := rts1[id - 1].reason,
                                          finishedAt := rts1[id - 1].finishedAt)
    ensures QueuedOrDown(rts1[id - 1]) && (rts1[id - 1].state.Cancelled? <==> id in order)
  {
    hide Blames;
  }

  lemma TookDownStays(specs: seq<JobSpec>, rts0: seq<JobRuntime>, rts1: seq<JobRuntime>, order: seq<JobId>)
    requires TookDown(specs, rts0, rts1, order)
    ensures RanStays(rts0, rts1)
  {
    hide Cancels;
    CascadeStays(rts0, rts1, order);
  }

  lemma SubmissionStays(specs: seq<JobSpec>, rts0: seq<JobRuntime>, rt: JobRuntime, rts1: seq<JobRuntime>,
                        order: seq<JobId>)
    requires TookDown(specs, rts0 + [rt], rts1, order)
    ensures RanStays(rts0, rts1)
  {
    hide TookDown, RanStays;
    AppendStays(rts0, rt);
    TookDownStays(specs, rts0 + [rt], rts1, order);
    RanStaysTrans(rts0, rts0 + [rt], rts1);
  }

  /** A transition that starts nothing only lets running jobs stop. */
  lemma TransitionShrinks(specs: seq<JobSpec>, rts0: seq<JobRuntime>, rts1: seq<JobRuntime>, d0: seq<DependencyRuntime>,
                          d1: seq<DependencyRuntime>, id: JobId, next: JobState, reason: Option<Reason>, now: Time,
                          propagate: bool, order: seq<JobId>, echo: bool)
    requires Transitioned(specs, rts0, rts1, d0, d1, id, next, reason, now, propagate, order, echo) && !next.Running?
    ensures RunningShrinks(rts0, rts1)
  {
    hide Cancels, Justified, CountersMoved, Announced, Moved, RunningShrinks;
    var moved := rts0[id - 1 := Moved(rts0[id - 1], next, reason, now)];
    MoveShrinks(rts0, id, next, reason, now);
    if next.IsFinal() && propagate {
      CascadeShrinks(moved, rts1, order);
      RunningShrinksTrans(rts0, moved, rts1);
    }
  }

  lemma TookDownShrinks(specs: seq<JobSpec>, rts0: seq<JobRuntime>, rts1: seq<JobRuntime>, order: seq<JobId>)
    requires TookDown(specs, rts0, rts1, order)
    ensures RunningShrinks(rts0, rts1)
  {
    hide Cancels;
    CascadeShrinks(rts0, rts1, order);
  }
  /** A transition takes nobody back who is past waiting. */
  lemma TransitionStays(specs: seq<JobSpec>, rts0: seq<JobRuntime>, rts1: seq<JobRuntime>, d0: seq<DependencyRuntime>,
                        d1: seq<DependencyRuntime>, id: JobId, next: JobState, reason: Option<Reason>, now: Time,
                        propagate: bool, order: seq<JobId>, echo: bool)
    requires Transitioned(specs, rts0, rts1, d0, d1, id, next, reason, now, propagate, order, echo)
    requires rts0[id - 1].state.CanTransitionTo(next)
    ensures RanStays(rts0, rts1)
  {
    hide Cancels, Justified, CountersMoved, Announced, Moved, RanStays;
    var moved := rts0[id - 1 := Moved(rts0[id - 1], next, reason, now)];
    MoveStays(rts0, id, next, reason, now);
    if next.IsFinal() && propagate {
      CascadeStays(moved, rts1, order);
      RanStaysTrans(rts0, moved, rts1);
    }
  }
}
