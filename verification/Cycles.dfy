/** One scheduling cycle as a whole: what it has done after considering some of the jobs. */
module Cycles {
  import opened Types
  import opened Accounts
  import opened Tally
  import opened JobInvariants
  import opened ReadyQueue
  import opened TableInvariants
  import opened BeginTimes
  import opened Edits
  import opened Draining
  import opened Claiming
  import opened Resources

  /** The jobs in `started` have started; of the others only waiting reasons changed, and nothing yet
      of those in `rest`. */
  ghost predicate Advanced(rts0: seq<JobRuntime>, rts: seq<JobRuntime>, d0: seq<DependencyRuntime>,
                           d: seq<DependencyRuntime>, rest: seq<JobId>, started: seq<JobId>, now: Time)
  {
    && |rts0| == |rts| == |d0| == |d|
    && forall id: JobId :: Exists(|rts0|, id) ==>
         var before, after := rts0[id - 1], rts[id - 1];
         && (if id in started
             then before.state.Queued? && after.gpuIds.Some?
                  && after == Moved(before.(gpuIds := after.gpuIds), Running, None, now)
             else after == before.(reason := after.reason) && d[id - 1] == d0[id - 1])
         && (id in rest ==> id !in started && after == before)
  }

  /** Everyone who was considered has started or does not fit now. */
  ghost predicate Greedy(m: Machine, specs: seq<JobSpec>, rts: seq<JobRuntime>, done: seq<JobId>, started: seq<JobId>) {
    forall id: JobId :: id in done && id !in started ==> !Admits(m, specs, rts, id)
  }

  /** The reservations in force let the user have these GPUs, and they are available. */
  ghost predicate AllUsable(m: Machine, user: string, list: seq<nat>) {
    forall gpu :: gpu in list ==> gpu in Usable(ClaimsOf(m.active, user), m.available)
  }

  /** Everyone who started would have fitted at the outset, and got the right kind and number of GPUs. */
  ghost predicate Deserved(m: Machine, specs: seq<JobSpec>, rts0: seq<JobRuntime>, rts: seq<JobRuntime>,
                           started: seq<JobId>)
  {
    && |specs| == |rts0| == |rts|
    && forall id: JobId :: id in started ==>
         && Admits(m, specs, rts0, id) && Exists(|rts|, id) && AllocationOk(rts[id - 1])
         && AllUsable(m, specs[id - 1].submittedBy, rts[id - 1].gpuIds.value)
  }

  /** Every job stands at the place its id says. */
  ghost predicate IdsRight(rts: seq<JobRuntime>) {
    forall id: JobId :: Exists(|rts|, id) ==> rts[id - 1].id == id
  }

  /** The live entries of the jobs in `done` that did not start, unless their begin time is still to come. */
  ghost function Entries(specs: seq<JobSpec>, rts: seq<JobRuntime>, d: seq<DependencyRuntime>, done: seq<JobId>,
                         started: seq<JobId>, now: Time): set<ReadyEntry>
    requires |specs| == |rts| == |d|
  {
    set id | id in done && id !in started && Exists(|rts|, id) && !specs[id - 1].StartsAfter(now) ::
      LiveEntry(rts[id - 1], d[id - 1])
  }

  /** The heap holds exactly one live entry for each considered job that did not start. */
  ghost predicate Requeued(specs: seq<JobSpec>, rts: seq<JobRuntime>, d: seq<DependencyRuntime>,
                           heap: multiset<ReadyEntry>, done: seq<JobId>, started: seq<JobId>, now: Time)
  {
    && |specs| == |rts| == |d| && IdsRight(rts)
    && heap == multiset(Entries(specs, rts, d, done, started, now))
  }

  lemma RequeuedByStart(specs: seq<JobSpec>, rts1: seq<JobRuntime>, rts2: seq<JobRuntime>, d1: seq<DependencyRuntime>,
                        d2: seq<DependencyRuntime>, heap: multiset<ReadyEntry>, done: seq<JobId>, started: seq<JobId>,
                        id: JobId, now: Time)
    requires Requeued(specs, rts1, d1, heap, done, started, now) && id !in done && Exists(|rts1|, id)
    requires |rts2| == |rts1| && rts2 == rts1[id - 1 := rts2[id - 1]] && rts2[id - 1].id == id
    requires |d2| == |d1| && d2 == d1[id - 1 := d2[id - 1]]
    ensures Requeued(specs, rts2, d2, heap, done + [id], started + [id], now)
  {
    hide LiveEntry, Entries, JobSpec.StartsAfter;
    assert forall j :: Exists(|rts1|, j) && j != id ==>
                         LiveEntry(rts2[j - 1], d2[j - 1]) == LiveEntry(rts1[j - 1], d1[j - 1]);
    EntriesStay(specs, rts1, rts2, d1, d2, done, started, id, now);
  }

  lemma EntriesStay(specs: seq<JobSpec>, rts1: seq<JobRuntime>, rts2: seq<JobRuntime>, d1: seq<DependencyRuntime>,
                    d2: seq<DependencyRuntime>, done: seq<JobId>, started: seq<JobId>, id: JobId, now: Time)
    requires |specs| == |rts1| == |rts2| == |d1| == |d2| && id !in done
    requires forall j :: Exists(|rts1|, j) && j != id ==>
              LiveEntry(rts2[j - 1], d2[j - 1]) == LiveEntry(rts1[j - 1], d1[j - 1])
    ensures Entries(specs, rts2, d2, done + [id], started + [id], now) == Entries(specs, rts1, d1, done, started, now)
  {
    hide LiveEntry, JobSpec.StartsAfter;
    var before, after := Entries(specs, rts1, d1, done, started, now),
                         Entries(specs, rts2, d2, done + [id], started + [id], now);
    forall j | j in done && j !in started && Exists(|rts1|, j) && !specs[j - 1].StartsAfter(now)
      ensures LiveEntry(rts1[j - 1], d1[j - 1]) in after
    {
      assert j in done + [id] && j !in started + [id];
    }
    forall e | e in after ensures e in before {
      var j :| j in done + [id] && j !in started + [id] && Exists(|rts2|, j) && !specs[j - 1].StartsAfter(now)
               && e == LiveEntry(rts2[j - 1], d2[j - 1]);
      assert j in done && j !in started;
    }
  }

  lemma RequeuedByReason(specs: seq<JobSpec>, rts1: seq<JobRuntime>, rts2: seq<JobRuntime>, d: seq<DependencyRuntime>,
                         heap1: multiset<ReadyEntry>, heap2: multiset<ReadyEntry>, done: seq<JobId>,
                         started: seq<JobId>, id: JobId, now: Time)
    requires Requeued(specs, rts1, d, heap1, done, started, now) && id !in done && id !in started
    requires Reasoned(rts1, rts2, id)
    requires heap2 == heap1 + if !specs[id - 1].StartsAfter(now) then multiset{LiveEntry(rts1[id - 1], d[id - 1])}
                              else multiset{}
    ensures Requeued(specs, rts2, d, heap2, done + [id], started, now)
  {
    hide TimeBonus;
    var before, after := Entries(specs, rts1, d, done, started, now), Entries(specs, rts2, d, done + [id], started,
                                                                              now);
    var live := LiveEntry(rts1[id - 1], d[id - 1]);
    var more: set<ReadyEntry> := if specs[id - 1].StartsAfter(now) then {} else {live};
    assert forall j :: Exists(|rts1|, j) ==> LiveEntry(rts2[j - 1], d[j - 1]) == LiveEntry(rts1[j - 1], d[j - 1]);
    EntriesGrow(specs, rts1, rts2, d, done, started, id, now);
    assert live !in before;
    assert multiset(before + more) == multiset(before) + multiset(more);
  }

  lemma EntriesGrow(specs: seq<JobSpec>, rts1: seq<JobRuntime>, rts2: seq<JobRuntime>, d: seq<DependencyRuntime>,
                    done: seq<JobId>, started: seq<JobId>, id: JobId, now: Time)
    requires |specs| == |rts1| == |rts2| == |d| && Exists(|rts1|, id) && id !in started
    requires forall j :: Exists(|rts1|, j) ==> LiveEntry(rts2[j - 1], d[j - 1]) == LiveEntry(rts1[j - 1], d[j - 1])
    ensures Entries(specs, rts2, d, done + [id], started, now) ==
            Entries(specs, rts1, d, done, started, now) +
              if specs[id - 1].StartsAfter(now) then {} else {LiveEntry(rts1[id - 1], d[id - 1])}
  {
    hide LiveEntry;
    var before, after := Entries(specs, rts1, d, done, started, now), Entries(specs, rts2, d, done + [id], started,
                                                                              now);
    forall e | e in after
      ensures e in before || (!specs[id - 1].StartsAfter(now) && e == LiveEntry(rts1[id - 1], d[id - 1]))
    {
      var j :| j in done + [id] && j !in started && Exists(|rts2|, j) && !specs[j - 1].StartsAfter(now)
               && e == LiveEntry(rts2[j - 1], d[j - 1]);
      assert j in done || j == id;
    }
    forall j | j in done && j !in started && Exists(|rts1|, j) && !specs[j - 1].StartsAfter(now)
      ensures LiveEntry(rts1[j - 1], d[j - 1]) in after
    {
      assert j in done + [id];
    }
    assert id in done + [id];
  }

  lemma AdvancedRunning(rts0: seq<JobRuntime>, rts: seq<JobRuntime>, d0: seq<DependencyRuntime>,
                        d: seq<DependencyRuntime>, rest: seq<JobId>, started: seq<JobId>, now: Time)
    requires Advanced(rts0, rts, d0, d, rest, started, now)
    ensures RunningShrinks(rts, rts0)
  {
  }

  lemma AdvanceByStart(rts0: seq<JobRuntime>, rts1: seq<JobRuntime>, rts2: seq<JobRuntime>, d0: seq<DependencyRuntime>,
                       d1: seq<DependencyRuntime>, d2: seq<DependencyRuntime>, rest: seq<JobId>, started: seq<JobId>,
                       now: Time, list: seq<nat>)
    requires rest != [] && Distinct(rest) && Advanced(rts0, rts1, d0, d1, rest, started, now)
    requires Started(rts1, rts2, rest[0], list, now) && |d2| == |d1| && d2 == d1[rest[0] - 1 := d2[rest[0] - 1]]
    ensures Advanced(rts0, rts2, d0, d2, rest[1..], started + [rest[0]], now)
  {
    var id, tail := rest[0], rest[1..];
    assert id in rest && id !in tail && forall x :: x in tail ==> x in rest;
  }

  lemma AdvanceByReason(rts0: seq<JobRuntime>, rts1: seq<JobRuntime>, rts2: seq<JobRuntime>, d0: seq<DependencyRuntime>,
                        d: seq<DependencyRuntime>, rest: seq<JobId>, started: seq<JobId>, now: Time)
    requires rest != [] && Distinct(rest) && Advanced(rts0, rts1, d0, d, rest, started, now)
    requires Reasoned(rts1, rts2, rest[0])
    ensures Advanced(rts0, rts2, d0, d, rest[1..], started, now)
  {
    var id, tail := rest[0], rest[1..];
    assert id in rest && id !in tail && forall x :: x in tail ==> x in rest;
  }

  // ---------- greed ----------

  lemma GreedyByStart(m: Machine, specs: seq<JobSpec>, rts1: seq<JobRuntime>, rts2: seq<JobRuntime>, done: seq<JobId>,
                      started: seq<JobId>, id: JobId, list: seq<nat>, now: Time)
    requires Greedy(m, specs, rts1, done, started) && Started(rts1, rts2, id, list, now)
    ensures Greedy(m, specs, rts2, done + [id], started + [id])
  {
    hide Admits, RunningShrinks, Started;
    StartedLength(rts1, rts2, id, list, now);
    forall j: JobId | j in done && j !in started && j != id ensures !Admits(m, specs, rts2, j) {
      if Admits(m, specs, rts2, j) {
        AdmittedExists(m, specs, rts2, j);
        StartSparesOthers(rts1, rts2, id, list, now, j);
        AdmitsShrinks(m, specs, rts2, rts1, j);
        assert false;
      }
    }
  }

  lemma StartSparesOthers(rts0: seq<JobRuntime>, rts1: seq<JobRuntime>, id: JobId, list: seq<nat>, now: Time, j: JobId)
    requires Started(rts0, rts1, id, list, now) && Exists(|rts1|, j) && j != id
    ensures rts0[j - 1] == rts1[j - 1].(reason := rts0[j - 1].reason)
  {
  }

  lemma GreedyByReason(m: Machine, specs: seq<JobSpec>, rts1: seq<JobRuntime>, rts2: seq<JobRuntime>, done: seq<JobId>,
                       started: seq<JobId>, id: JobId)
    requires Greedy(m, specs, rts1, done, started) && Reasoned(rts1, rts2, id) && !Admits(m, specs, rts1, id)
    ensures Greedy(m, specs, rts2, done + [id], started)
  {
    hide Admits, Reasoned;
    forall j: JobId | j in done + [id] && j !in started ensures !Admits(m, specs, rts2, j) {
      if Admits(m, specs, rts2, j) {
        ReasonedAdmits(m, specs, rts1, rts2, id, j);
        assert false;
      }
    }
  }

  // ---------- what is deserved ----------

  lemma DeservedByStart(m: Machine, specs: seq<JobSpec>, rts0: seq<JobRuntime>, rts1: seq<JobRuntime>,
                        rts2: seq<JobRuntime>,
                        d0: seq<DependencyRuntime>, d1: seq<DependencyRuntime>, rest: seq<JobId>,
                        started: seq<JobId>, list: seq<nat>, now: Time)
    requires rest != [] && Advanced(rts0, rts1, d0, d1, rest, started, now) && Deserved(m, specs, rts0, rts1, started)
    requires Started(rts1, rts2, rest[0], list, now)
    requires RightGpus(m, specs, rts1, rest[0], list) && Admits(m, specs, rts1, rest[0])
    ensures Deserved(m, specs, rts0, rts2, started + [rest[0]])
  {
    hide Admits, Usable, ClaimsOf, Compatible;
    var id := rest[0];
    AdvancedRunning(rts0, rts1, d0, d1, rest, started, now);
    assert id in rest;
    AdmitsShrinks(m, specs, rts1, rts0, id);
  }

  lemma DeservedByReason(m: Machine, specs: seq<JobSpec>, rts0: seq<JobRuntime>, rts1: seq<JobRuntime>,
                         rts2: seq<JobRuntime>,
                         started: seq<JobId>, id: JobId)
    requires Deserved(m, specs, rts0, rts1, started) && Reasoned(rts1, rts2, id)
    ensures Deserved(m, specs, rts0, rts2, started)
  {
    hide Admits, Usable, ClaimsOf;
  }

  // ---------- one after the other ----------

  /** The jobs as they stand once those in `done` have been dealt with. */
  ghost function SoFar(rts0: seq<JobRuntime>, rts: seq<JobRuntime>, done: seq<JobId>): (r: seq<JobRuntime>)
    requires |rts0| == |rts|
    ensures |r| == |rts|
  {
    seq(|rts|, i requires 0 <= i < |rts| => if i + 1 in done then rts[i] else rts0[i])
  }

  /** Job `id` became `after` when it was considered with the jobs standing as in `at`: it was started
      exactly if it fitted, on GPUs that were right for it, and otherwise told what it waits for. */
  ghost predicate Judged(m: Machine, specs: seq<JobSpec>, at: seq<JobRuntime>, after: JobRuntime, id: JobId,
                         started: bool) {
    && |specs| == |at| && Exists(|at|, id)
    && (started <==> Admits(m, specs, at, id))
    && if started then after.gpuIds.Some? && RightGpus(m, specs, at, id, after.gpuIds.value)
       else after.reason == Some(Blocker(m, specs, at, id))
  }

  /** The jobs in `done` were dealt with in that order, each with the jobs standing as those before it
      had left them. */
  ghost predicate InTurn(m: Machine, specs: seq<JobSpec>, rts0: seq<JobRuntime>, rts: seq<JobRuntime>,
                         done: seq<JobId>, started: seq<JobId>)
  {
    && |specs| == |rts0| == |rts| && rts == SoFar(rts0, rts, done)
    && forall k :: 0 <= k < |done| ==> TurnTaken(m, specs, rts0, rts, done[..k], done[k], started)
  }

  ghost predicate TurnTaken(m: Machine, specs: seq<JobSpec>, rts0: seq<JobRuntime>, rts: seq<JobRuntime>,
                            before: seq<JobId>, id: JobId, started: seq<JobId>)
  {
    |rts0| == |rts| && Exists(|rts|, id) && Judged(m, specs, SoFar(rts0, rts, before), rts[id - 1], id, id in started)
  }

  lemma TurnStays(m: Machine, specs: seq<JobSpec>, rts0: seq<JobRuntime>, rts1: seq<JobRuntime>, rts2: seq<JobRuntime>,
                  before: seq<JobId>, j: JobId, started: seq<JobId>, started': seq<JobId>, id: JobId)
    requires TurnTaken(m, specs, rts0, rts1, before, j, started) && id !in before && j != id
    requires Exists(|rts1|, id) && |rts2| == |rts1| && rts2 == rts1[id - 1 := rts2[id - 1]]
    requires started' == started || started' == started + [id]
    ensures TurnTaken(m, specs, rts0, rts2, before, j, started')
  {
    hide Judged;
    assert SoFar(rts0, rts2, before) == SoFar(rts0, rts1, before);
  }

  lemma TakeTurn(m: Machine, specs: seq<JobSpec>, rts0: seq<JobRuntime>, rts1: seq<JobRuntime>, rts2: seq<JobRuntime>,
                 done: seq<JobId>, started: seq<JobId>, id: JobId, ok: bool)
    requires InTurn(m, specs, rts0, rts1, done, started) && id !in done && id !in started
    requires Exists(|rts1|, id) && |rts2| == |rts1| && rts2 == rts1[id - 1 := rts2[id - 1]]
    requires Judged(m, specs, rts1, rts2[id - 1], id, ok)
    ensures InTurn(m, specs, rts0, rts2, done + [id], if ok then started + [id] else started)
  {
    hide Judged, TurnTaken;
    var longer, started' := done + [id], if ok then started + [id] else started;
    assert SoFar(rts0, rts2, done) == rts1;
    assert SoFar(rts0, rts2, longer) == rts2;
    NewTurn(m, specs, rts0, rts1, rts2, done, started', id, ok);
    forall k | 0 <= k < |longer| ensures TurnTaken(m, specs, rts0, rts2, longer[..k], longer[k], started') {
      if k < |done| {
        assert longer[..k] == done[..k] && longer[k] == done[k] && done[k] in done;
        TurnStays(m, specs, rts0, rts1, rts2, done[..k], done[k], started, started', id);
      } else {
        assert longer[..k] == done;
      }
    }
  }

  lemma NewTurn(m: Machine, specs: seq<JobSpec>, rts0: seq<JobRuntime>, rts1: seq<JobRuntime>, rts2: seq<JobRuntime>,
                done: seq<JobId>, started: seq<JobId>, id: JobId, ok: bool)
    requires |rts0| == |rts2| && SoFar(rts0, rts2, done) == rts1 && Exists(|rts2|, id)
    requires Judged(m, specs, rts1, rts2[id - 1], id, ok) && (ok <==> id in started)
    ensures TurnTaken(m, specs, rts0, rts2, done, id, started)
  {
    hide Judged, SoFar;
  }

  // ---------- jobs still to be considered ----------

  /** All of these jobs are queued and satisfied. */
  ghost predicate AllWait(rts: seq<JobRuntime>, d: seq<DependencyRuntime>, rest: seq<JobId>) {
    |rts| == |d| && forall id: JobId :: id in rest ==>
      Exists(|rts|, id) && rts[id - 1].state.Queued? && d[id - 1].depsSatisfied
  }

  lemma FoundWait(rts: seq<JobRuntime>, d: seq<DependencyRuntime>, heap: multiset<ReadyEntry>, rest: seq<JobId>)
    requires |rts| == |d| && forall id: JobId :: id in rest ==> Found(rts, d, heap, id)
    ensures AllWait(rts, d, rest)
  {
  }

  lemma WaitAfter(rts1: seq<JobRuntime>, rts2: seq<JobRuntime>, d1: seq<DependencyRuntime>, d2: seq<DependencyRuntime>,
                  rest: seq<JobId>)
    requires rest != [] && Distinct(rest) && AllWait(rts1, d1, rest) && Exists(|rts1|, rest[0])
    requires |rts2| == |rts1| && rts2 == rts1[rest[0] - 1 := rts2[rest[0] - 1]]
    requires |d2| == |d1| && d2 == d1[rest[0] - 1 := d2[rest[0] - 1]]
    ensures AllWait(rts2, d2, rest[1..])
  {
    var id, tail := rest[0], rest[1..];
    assert id in rest && id !in tail && forall x :: x in tail ==> x in rest;
  }

  lemma FirstWaits(rts: seq<JobRuntime>, d: seq<DependencyRuntime>, rest: seq<JobId>)
    requires rest != [] && AllWait(rts, d, rest)
    ensures Exists(|rts|, rest[0]) && |rts| == |d| && rts[rest[0] - 1].state.Queued? && d[rest[0] - 1].depsSatisfied
  {
    assert rest[0] in rest;
  }

  // ---------- one step of all of it ----------

  /** Everything that is known in the middle of a cycle that began with `rts0` and `d0`, has considered
      `done` and still has to consider `rest`. */
  ghost predicate Underway(m: Machine, specs: seq<JobSpec>, rts0: seq<JobRuntime>, rts: seq<JobRuntime>,
                           d0: seq<DependencyRuntime>, d: seq<DependencyRuntime>, heap: multiset<ReadyEntry>,
                           done: seq<JobId>, rest: seq<JobId>, started: seq<JobId>, now: Time)
  {
    && Distinct(rest) && (forall id :: id in done ==> id !in rest) && (forall id :: id in started ==> id in done)
    && Distinct(started)
    && Advanced(rts0, rts, d0, d, rest, started, now)
    && Greedy(m, specs, rts, done, started)
    && Deserved(m, specs, rts0, rts, started)
    && InTurn(m, specs, rts0, rts, done, started)
    && Requeued(specs, rts, d, heap, done, started, now)
    && AllWait(rts, d, rest)
    && (Bounded(m, specs, rts0) ==> Bounded(m, specs, rts))
  }

  lemma UnderwayStarts(m: Machine, specs: seq<JobSpec>, rts: seq<JobRuntime>, d: seq<DependencyRuntime>,
                       heap0: multiset<ReadyEntry>, rest: seq<JobId>, now: Time)
    requires |specs| == |rts| == |d| && Distinct(rest) && forall id: JobId :: id in rest ==> Found(rts, d, heap0, id)
    requires IdsRight(rts)
    ensures Underway(m, specs, rts, rts, d, d, multiset{}, [], rest, [], now)
  {
    hide Found, Admits, Bounded;
    FoundWait(rts, d, heap0, rest);
    assert SoFar(rts, rts, []) == rts;
  }

  lemma UnderwayByStart(m: Machine, specs: seq<JobSpec>, rts0: seq<JobRuntime>, rts1: seq<JobRuntime>,
                        rts2: seq<JobRuntime>,
                        d0: seq<DependencyRuntime>, d1: seq<DependencyRuntime>, d2: seq<DependencyRuntime>,
                        heap: multiset<ReadyEntry>, done: seq<JobId>, rest: seq<JobId>, started: seq<JobId>,
                        list: seq<nat>, now: Time)
    requires rest != [] && Underway(m, specs, rts0, rts1, d0, d1, heap, done, rest, started, now)
    requires Started(rts1, rts2, rest[0], list, now) && RightGpus(m, specs, rts1, rest[0], list)
    requires Admits(m, specs, rts1, rest[0])
    requires |d2| == |d1| && d2 == d1[rest[0] - 1 := d2[rest[0] - 1]] && rts1[rest[0] - 1].id == rest[0]
    ensures Underway(m, specs, rts0, rts2, d0, d2, heap, done + [rest[0]], rest[1..], started + [rest[0]], now)
  {
    hide Advanced, Greedy, Deserved, InTurn, AllWait, Admits, Bounded, Usable, ClaimsOf, Compatible;
    hide Requeued;
    FirstTurn(m, specs, rts0, rts1, rts2, done, rest, started, list, now);
    assert rest[0] in rest;
    StartedWaits(rts1, rts2, rest[0], list, now);
    RequeuedByStart(specs, rts1, rts2, d1, d2, heap, done, started, rest[0], now);
    AdvanceByStart(rts0, rts1, rts2, d0, d1, d2, rest, started, now, list);
    GreedyByStart(m, specs, rts1, rts2, done, started, rest[0], list, now);
    DeservedByStart(m, specs, rts0, rts1, rts2, d0, d1, rest, started, list, now);
    WaitAfter(rts1, rts2, d1, d2, rest);
    if Bounded(m, specs, rts1) {
      StartKeepsBounds(m, specs, rts1, rts2, rest[0], list, now);
    }
    assert rest[0] in rest && forall x :: x in rest[1..] ==> x in rest && x != rest[0];
  }

  lemma FirstTurn(m: Machine, specs: seq<JobSpec>, rts0: seq<JobRuntime>, rts1: seq<JobRuntime>, rts2: seq<JobRuntime>,
                  done: seq<JobId>, rest: seq<JobId>, started: seq<JobId>, list: seq<nat>, now: Time)
    requires rest != [] && (forall id :: id in done ==> id !in rest) && (forall id :: id in started ==> id in done)
    requires InTurn(m, specs, rts0, rts1, done, started)
    requires Started(rts1, rts2, rest[0], list, now) && RightGpus(m, specs, rts1, rest[0], list)
    requires Admits(m, specs, rts1, rest[0])
    ensures InTurn(m, specs, rts0, rts2, done + [rest[0]], started + [rest[0]])
  {
    hide InTurn, Admits, RightGpus;
    assert rest[0] in rest;
    AdmittedExists(m, specs, rts1, rest[0]);
    TakeTurn(m, specs, rts0, rts1, rts2, done, started, rest[0], true);
  }

  lemma MissedTurn(m: Machine, specs: seq<JobSpec>, rts0: seq<JobRuntime>, rts1: seq<JobRuntime>, rts2: seq<JobRuntime>,
                   done: seq<JobId>, rest: seq<JobId>, started: seq<JobId>)
    requires rest != [] && (forall id :: id in done ==> id !in rest) && (forall id :: id in started ==> id in done)
    requires InTurn(m, specs, rts0, rts1, done, started) && |specs| == |rts1|
    requires Reasoned(rts1, rts2, rest[0]) && !Admits(m, specs, rts1, rest[0])
    requires rts2[rest[0] - 1].reason == Some(Blocker(m, specs, rts1, rest[0]))
    ensures InTurn(m, specs, rts0, rts2, done + [rest[0]], started)
  {
    hide InTurn, Admits, RightGpus, Blocker;
    assert rest[0] in rest;
    TakeTurn(m, specs, rts0, rts1, rts2, done, started, rest[0], false);
  }

  lemma StartedWaits(rts0: seq<JobRuntime>, rts1: seq<JobRuntime>, id: JobId, list: seq<nat>, now: Time)
    requires Started(rts0, rts1, id, list, now)
    ensures |rts1| == |rts0| && Exists(|rts0|, id) && rts1 == rts0[id - 1 := rts1[id - 1]]
    ensures rts1[id - 1].id == rts0[id - 1].id
  {
  }

  lemma UnderwayByReason(m: Machine, specs: seq<JobSpec>, rts0: seq<JobRuntime>, rts1: seq<JobRuntime>,
                         rts2: seq<JobRuntime>,
                         d0: seq<DependencyRuntime>, d: seq<DependencyRuntime>, heap1: multiset<ReadyEntry>,
                         heap2: multiset<ReadyEntry>, done: seq<JobId>, rest: seq<JobId>, started: seq<JobId>,
                         now: Time)
    requires rest != [] && Underway(m, specs, rts0, rts1, d0, d, heap1, done, rest, started, now)
    requires |specs| == |rts1| && Reasoned(rts1, rts2, rest[0]) && !Admits(m, specs, rts1, rest[0])
    requires rts2[rest[0] - 1].reason == Some(Blocker(m, specs, rts1, rest[0]))
    requires |d| == |specs|
    requires heap2 == heap1 + if !specs[rest[0] - 1].StartsAfter(now)
                              then multiset{LiveEntry(rts1[rest[0] - 1], d[rest[0] - 1])} else multiset{}
    ensures Underway(m, specs, rts0, rts2, d0, d, heap2, done + [rest[0]], rest[1..], started, now)
  {
    hide Advanced, Greedy, Deserved, InTurn, AllWait, Admits, Bounded, Blocker, Requeued;
    assert rest[0] in rest;
    RequeuedByReason(specs, rts1, rts2, d, heap1, heap2, done, started, rest[0], now);
    MissedTurn(m, specs, rts0, rts1, rts2, done, rest, started);
    AdvanceByReason(rts0, rts1, rts2, d0, d, rest, started, now);
    GreedyByReason(m, specs, rts1, rts2, done, started, rest[0]);
    DeservedByReason(m, specs, rts0, rts1, rts2, started, rest[0]);
    WaitAfter(rts1, rts2, d, d, rest);
    if Bounded(m, specs, rts1) {
      ReasonedShrinks(rts1, rts2, rest[0]);
      BoundedShrinks(m, specs, rts1, rts2);
    }
    assert rest[0] in rest && forall x :: x in rest[1..] ==> x in rest && x != rest[0];
  }

  // ---------- what a finished cycle means ----------

  /** The result of a cycle that found the jobs `found` runnable and started `started`. */
  ghost predicate CycleResult(m: Machine, specs: seq<JobSpec>, rts0: seq<JobRuntime>, rts: seq<JobRuntime>,
                              heap: multiset<ReadyEntry>, found: seq<JobId>, started: seq<JobId>, now: Time)
  {
    && |specs| == |rts0| == |rts|
    && Distinct(started) && (forall id: JobId :: id in started ==> id in found && Exists(|rts0|, id))
    && (forall id: JobId :: Exists(|rts0|, id) ==> JobOutcome(m, specs, rts0, rts, started, now, id))
    && InTurn(m, specs, rts0, rts, found, started)
    && (forall id: JobId :: id in found && id !in started ==> !Admits(m, specs, rts, id))
    && (forall e :: e in heap ==> e.job in found && e.job !in started)
    && (Bounded(m, specs, rts0) ==> Bounded(m, specs, rts))
  }

  /** What became of one job: started, rightly and on GPUs it may use, or unchanged but for its reason. */
  ghost predicate JobOutcome(m: Machine, specs: seq<JobSpec>, rts0: seq<JobRuntime>, rts: seq<JobRuntime>,
                          started: seq<JobId>, now: Time, id: JobId)
    requires |specs| == |rts0| == |rts| && Exists(|rts|, id)
  {
    var before, after := rts0[id - 1], rts[id - 1];
    if id in started then
      && before.state.Queued? && Admits(m, specs, rts0, id)
      && after == Moved(before.(gpuIds := after.gpuIds), Running, None, now)
      && AllocationOk(after) && AllUsable(m, specs[id - 1].submittedBy, after.gpuIds.value)
    else after == before.(reason := after.reason)
  }

  /** What the cycle did to the queue: counters and flags of jobs that did not start are as before, and
      each found one has exactly one live entry, unless its begin time is still to come. */
  ghost predicate QueueResult(specs: seq<JobSpec>, rts: seq<JobRuntime>, d0: seq<DependencyRuntime>,
                              d: seq<DependencyRuntime>, heap: multiset<ReadyEntry>, found: seq<JobId>,
                              started: seq<JobId>, now: Time)
  {
    && Requeued(specs, rts, d, heap, found, started, now)
    && |d0| == |d| && forall id: JobId :: Exists(|d|, id) && id !in started ==> d[id - 1] == d0[id - 1]
  }

  lemma UnderwayEnds(m: Machine, specs: seq<JobSpec>, rts0: seq<JobRuntime>, rts: seq<JobRuntime>,
                     d0: seq<DependencyRuntime>, d: seq<DependencyRuntime>, heap: multiset<ReadyEntry>,
                     found: seq<JobId>, started: seq<JobId>, now: Time)
    requires Underway(m, specs, rts0, rts, d0, d, heap, found, [], started, now)
    ensures CycleResult(m, specs, rts0, rts, heap, found, started, now)
    ensures QueueResult(specs, rts, d0, d, heap, found, started, now)
  {
    hide Admits, Bounded, AllUsable, AllocationOk, InTurn;
    forall e | e in heap ensures e.job in found && e.job !in started {
      assert e in Entries(specs, rts, d, found, started, now);
    }
  }

  /** If nothing fits at the outset, nothing is started. */
  lemma NothingFitsNothingStarts(m: Machine, specs: seq<JobSpec>, rts0: seq<JobRuntime>, rts: seq<JobRuntime>,
                                 heap: multiset<ReadyEntry>, found: seq<JobId>, started: seq<JobId>, now: Time)
    requires CycleResult(m, specs, rts0, rts, heap, found, started, now)
    requires forall id: JobId :: id in found ==> !Admits(m, specs, rts0, id)
    ensures started == []
  {
    hide Bounded, InTurn;
    if started != [] {
      assert started[0] in started && started[0] in found;
      StartedExists(m, specs, rts0, rts, heap, found, started, now, started[0]);
      assert false;
    }
  }

  /** A cycle that starts nothing uses no memory either. */
  lemma IdleCycle(m: Machine, specs: seq<JobSpec>, rts0: seq<JobRuntime>, rts: seq<JobRuntime>,
                  heap: multiset<ReadyEntry>, found: seq<JobId>, now: Time)
    requires CycleResult(m, specs, rts0, rts, heap, found, [], now)
    ensures SameButReasons(rts0, rts)
    ensures forall unified, total :: MemoryFree(rts, unified, total) == MemoryFree(rts0, unified, total)
  {
    hide Admits, Bounded, InTurn;
    forall i | 0 <= i < |rts| ensures rts[i] == rts0[i].(reason := rts[i].reason) {
      assert Exists(|rts|, i + 1) && JobOutcome(m, specs, rts0, rts, [], now, i + 1);
    }
    forall unified ensures MemoryUsed(rts, unified) == MemoryUsed(rts0, unified) {
      assert MemoryShares(rts, unified) == MemoryShares(rts0, unified);
    }
  }

  lemma StartedExists(m: Machine, specs: seq<JobSpec>, rts0: seq<JobRuntime>, rts: seq<JobRuntime>,
                      heap: multiset<ReadyEntry>, found: seq<JobId>, started: seq<JobId>, now: Time, id: JobId)
    requires CycleResult(m, specs, rts0, rts, heap, found, started, now) && id in started
    ensures Admits(m, specs, rts0, id)
  {
    hide Admits, Bounded, InTurn;
  }

  /** What is running while a cycle is under way is still running when it is over. */
  lemma SoFarShrinks(m: Machine, specs: seq<JobSpec>, rts0: seq<JobRuntime>, rts: seq<JobRuntime>,
                     heap: multiset<ReadyEntry>, found: seq<JobId>, started: seq<JobId>, now: Time, before: seq<JobId>)
    requires CycleResult(m, specs, rts0, rts, heap, found, started, now)
    ensures RunningShrinks(rts, SoFar(rts0, rts, before))
  {
    hide Admits, Bounded, InTurn;
    var at := SoFar(rts0, rts, before);
    forall id: JobId | Exists(|rts|, id) && at[id - 1].state.Running?
      ensures rts[id - 1].state.Running? && at[id - 1] == rts[id - 1].(reason := at[id - 1].reason)
    {
      assert JobOutcome(m, specs, rts0, rts, started, now, id);
    }
  }

  /** Each of the first three checks that fails on the way still fails when more is running. */
  lemma ChecksShrink(m: Machine, specs: seq<JobSpec>, rts0: seq<JobRuntime>, rts1: seq<JobRuntime>, id: JobId)
    requires RunningShrinks(rts0, rts1) && |specs| == |rts0| && Exists(|rts0|, id)
    requires rts1[id - 1] == rts0[id - 1].(reason := rts1[id - 1].reason)
    ensures MemoryNeed(m.unified, rts0[id - 1]) <= MemoryFree(rts0, m.unified, m.totalMemory) ==>
              MemoryNeed(m.unified, rts1[id - 1]) <= MemoryFree(rts1, m.unified, m.totalMemory)
    ensures var rt := rts0[id - 1];
      GroupRoom(rt, if rt.group.Some? then Usage(GroupShares(rts0), rt.group.value).jobs else 0) ==>
        GroupRoom(rts1[id - 1], if rt.group.Some? then Usage(GroupShares(rts1), rt.group.value).jobs else 0)
    ensures QuotaRoom(specs[id - 1], rts0[id - 1], m.config, specs, rts0) ==>
              QuotaRoom(specs[id - 1], rts1[id - 1], m.config, specs, rts1)
    ensures |Candidates(m, rts0, specs[id - 1].submittedBy, rts0[id - 1])| <=
            |Candidates(m, rts1, specs[id - 1].submittedBy, rts1[id - 1])|
  {
    hide Usage, MemoryUsed, SharedMemory, UserShares, ProjectShares, LimitShares, SharedJobs, HeldExclusively;
    hide GroupShares, Respects, ClaimsOf, Usable, Candidates;
    var spec, rt := specs[id - 1], rts0[id - 1];
    UsageShrinks(rts0, rts1, specs, m.unified);
    QuotaUsageShrinks(rts0, rts1, specs, spec.submittedBy);
    if spec.project.Some? {
      QuotaUsageShrinks(rts0, rts1, specs, spec.project.value);
    }
    CandidatesShrink(m, rts0, rts1, specs, spec.submittedBy, rt, rts1[id - 1]);
  }

  /** A job that was passed over tells what it waits for, and that is so when the cycle is over: memory, its
      group, a quota, or else a reservation or GPUs. */
  lemma WaitsForAReason(m: Machine, specs: seq<JobSpec>, rts0: seq<JobRuntime>, rts: seq<JobRuntime>,
                        heap: multiset<ReadyEntry>, found: seq<JobId>, started: seq<JobId>, now: Time, id: JobId)
    requires CycleResult(m, specs, rts0, rts, heap, found, started, now) && Bounded(m, specs, rts0)
    requires id in found && id !in started && Exists(|rts0|, id) && rts0[id - 1].state.Queued?
    ensures rts[id - 1] == rts0[id - 1].(reason := rts[id - 1].reason)
    ensures match rts[id - 1].reason
      case Some(WaitingForMemory) => !MemoryAllows(rts, m.unified, m.totalMemory, id)
      case Some(WaitingForResources) => !GroupAllows(rts, id)
      case Some(WaitingForQuota) => !QuotaAllows(specs, rts, m.config, id)
      case Some(WaitingForGpu) =>
        || (m.active != [] && !Respects(ClaimsOf(m.active, specs[id - 1].submittedBy), rts[id - 1].gpus, m.available,
                                        m.gpuCount))
        || |Candidates(m, rts, specs[id - 1].submittedBy, rts[id - 1])| < rts[id - 1].gpus
      case _ => false
  {
    hide GpuMemoryFits, GroupsFit, QuotasFit, QuotaRoom, MemoryUsed, Candidates, ClaimsOf, Respects, MemoryNeed;
    hide MemoryAllows, GroupAllows, QuotaAllows, GroupShares, RunningShrinks;
    assert JobOutcome(m, specs, rts0, rts, started, now, id);
    var k :| 0 <= k < |found| && found[k] == id;
    assert TurnTaken(m, specs, rts0, rts, found[..k], found[k], started);
    var at := SoFar(rts0, rts, found[..k]);
    SoFarShrinks(m, specs, rts0, rts, heap, found, started, now, found[..k]);
    ChecksShrink(m, specs, rts, at, id);
    ChecksAreRight(m, specs, rts, id);
  }

  /** Jobs that come out of the heap of a finished cycle did not start in it, and still do not fit. */
  lemma LeftoversDoNotFit(m: Machine, specs: seq<JobSpec>, rts0: seq<JobRuntime>, rts: seq<JobRuntime>,
                          d: seq<DependencyRuntime>, heap: multiset<ReadyEntry>, found: seq<JobId>,
                          started: seq<JobId>, now: Time, id: JobId)
    requires CycleResult(m, specs, rts0, rts, heap, found, started, now) && Found(rts, d, heap, id)
    ensures !Admits(m, specs, rts, id)
  {
    hide Admits, Bounded, JobOutcome, InTurn;
    var e :| TopOf(heap, e) && e.job == id && Live(rts, d, e);
  }

  // ---------- begin times over a cycle ----------

  /** A cycle that starts with nobody outranked and nobody early makes no job miss its begin time. */
  lemma CycleMissesNothing(m: Machine, specs: seq<JobSpec>, rts0: seq<JobRuntime>, rts: seq<JobRuntime>,
                           d0: seq<DependencyRuntime>, d: seq<DependencyRuntime>, heap0: multiset<ReadyEntry>,
                           heap: multiset<ReadyEntry>, found: seq<JobId>, started: seq<JobId>, now: Time)
    requires CycleResult(m, specs, rts0, rts, heap, found, started, now)
    requires QueueResult(specs, rts, d0, d, heap, found, started, now)
    requires HeapOk(rts0, d0, heap0, 0) && RuntimesOk(rts0)
    requires forall id: JobId :: id in found <==> Found(rts0, d0, heap0, id)
    requires NoneOutranked(rts0, heap0) && NoneEarly(specs, d0, heap0, now) && NoneMissed(specs, rts0, d0, heap0, 0)
    ensures NoneMissed(specs, rts, d, heap, 0)
  {
    hide Found, MissedAt, NoneOutranked, NoneEarly, HeapOk, CycleResult, QueueResult, RuntimesOk;
    CycleSizes(m, specs, rts0, rts, d0, d, heap, found, started, now);
    forall id: JobId | Exists(|specs|, id) && specs[id - 1].Mode().All? ensures !MissedAt(specs, rts, d, heap, id) {
      assert !MissedAt(specs, rts0, d0, heap0, id);
      JobMissesNothing(m, specs, rts0, rts, d0, d, heap0, heap, found, started, now, id);
    }
  }

  lemma CycleSizes(m: Machine, specs: seq<JobSpec>, rts0: seq<JobRuntime>, rts: seq<JobRuntime>,
                   d0: seq<DependencyRuntime>, d: seq<DependencyRuntime>, heap: multiset<ReadyEntry>,
                   found: seq<JobId>, started: seq<JobId>, now: Time)
    requires CycleResult(m, specs, rts0, rts, heap, found, started, now)
    requires QueueResult(specs, rts, d0, d, heap, found, started, now)
    ensures |specs| == |rts0| == |rts| == |d0| == |d|
  {
    hide Admits, Bounded, InTurn, JobOutcome;
  }

  lemma JobMissesNothing(m: Machine, specs: seq<JobSpec>, rts0: seq<JobRuntime>, rts: seq<JobRuntime>,
                         d0: seq<DependencyRuntime>, d: seq<DependencyRuntime>, heap0: multiset<ReadyEntry>,
                         heap: multiset<ReadyEntry>, found: seq<JobId>, started: seq<JobId>, now: Time, id: JobId)
    requires CycleResult(m, specs, rts0, rts, heap, found, started, now)
    requires QueueResult(specs, rts, d0, d, heap, found, started, now)
    requires HeapOk(rts0, d0, heap0, 0) && RuntimesOk(rts0)
    requires forall id: JobId :: id in found <==> Found(rts0, d0, heap0, id)
    requires NoneOutranked(rts0, heap0) && NoneEarly(specs, d0, heap0, now)
    requires Exists(|specs|, id) && !MissedAt(specs, rts0, d0, heap0, id)
    ensures !MissedAt(specs, rts, d, heap, id)
  {
    hide Found, CycleResult, TimeBonus, NoneOutranked, NoneEarly, HeapOk, RuntimesOk, Requeued, SoFar, OutrankedBy;
    CycleSizes(m, specs, rts0, rts, d0, d, heap, found, started, now);
    OutcomeOf(m, specs, rts0, rts, heap, found, started, now, id);
    if id !in started && rts[id - 1].state.Queued? && d[id - 1].depsSatisfied && specs[id - 1].scheduledAt.Some? {
      IdsOk(rts0, id);
      FoundExactly(rts0, d0, heap0, id);
      NotOutranked(rts0, heap0, id);
      if id in found {
        LiveIsOnTime(specs, rts0, d0, heap0, now, id);
        LiveIsRequeued(specs, rts, d, heap, found, started, now, id);
      } else {
        NotConsidered(rts0, rts, found, id);
      }
    }
  }

  lemma LiveIsOnTime(specs: seq<JobSpec>, rts: seq<JobRuntime>, d: seq<DependencyRuntime>, heap: multiset<ReadyEntry>,
                     now: Time, id: JobId)
    requires NoneEarly(specs, d, heap, now) && |specs| == |rts| && Exists(|rts|, id) && rts[id - 1].id == id
    requires LiveEntry(rts[id - 1], d[id - 1]) in heap
    ensures !specs[id - 1].StartsAfter(now)
  {
  }

  lemma NotConsidered(rts0: seq<JobRuntime>, rts: seq<JobRuntime>, found: seq<JobId>, id: JobId)
    requires |rts0| == |rts| && rts == SoFar(rts0, rts, found) && Exists(|rts|, id) && id !in found
    ensures rts[id - 1] == rts0[id - 1]
  {
    assert rts[id - 1] == SoFar(rts0, rts, found)[id - 1];
  }

  lemma NotOutranked(rts: seq<JobRuntime>, heap: multiset<ReadyEntry>, id: JobId)
    requires NoneOutranked(rts, heap) && Exists(|rts|, id)
    ensures !OutrankedBy(heap, id, rts[id - 1])
  {
  }

  /** A job that did not start keeps all but its waiting reason, and that too if it was not considered;
      one that did start is running. */
  lemma OutcomeOf(m: Machine, specs: seq<JobSpec>, rts0: seq<JobRuntime>, rts: seq<JobRuntime>,
                  heap: multiset<ReadyEntry>, found: seq<JobId>, started: seq<JobId>, now: Time, id: JobId)
    requires CycleResult(m, specs, rts0, rts, heap, found, started, now) && Exists(|rts|, id)
    ensures |rts0| == |rts| && rts == SoFar(rts0, rts, found)
    ensures if id in started then rts[id - 1].state.Running?
            else rts[id - 1] == rts0[id - 1].(reason := rts[id - 1].reason)
  {
    hide Admits, Bounded, TurnTaken, AllocationOk, AllUsable;
    assert JobOutcome(m, specs, rts0, rts, started, now, id);
  }

  // ---------- a second cycle ----------

  /** What a finished cycle left in the heap is exactly what the next drain finds. */
  lemma LeftoversAreFound(specs: seq<JobSpec>, rts: seq<JobRuntime>, d: seq<DependencyRuntime>,
                          heap: multiset<ReadyEntry>, found: seq<JobId>, started: seq<JobId>, now: Time, id: JobId)
    requires |specs| == |rts| == |d| && Requeued(specs, rts, d, heap, found, started, now)
    requires forall j: JobId :: j in found && j !in started ==>
               Exists(|rts|, j) && rts[j - 1].state.Queued? && d[j - 1].depsSatisfied
    ensures Found(rts, d, heap, id) <==>
            id in found && id !in started && Exists(|rts|, id) && !specs[id - 1].StartsAfter(now)
  {
    hide LiveEntry, JobSpec.StartsAfter, Requeued, RanksBelow;
    if Found(rts, d, heap, id) {
      var e :| TopOf(heap, e) && e.job == id && Live(rts, d, e);
      EntryBelongs(specs, rts, d, heap, found, started, now, e);
    }
    if id in found && id !in started && Exists(|rts|, id) && !specs[id - 1].StartsAfter(now) {
      var live := LiveEntry(rts[id - 1], d[id - 1]);
      LiveIsRequeued(specs, rts, d, heap, found, started, now, id);
      forall x | x in heap && x.job == id ensures x == live {
        EntryBelongs(specs, rts, d, heap, found, started, now, x);
      }
      assert TopOf(heap, live) && Live(rts, d, live);
    }
  }

  lemma EntryBelongs(specs: seq<JobSpec>, rts: seq<JobRuntime>, d: seq<DependencyRuntime>,
                     heap: multiset<ReadyEntry>, found: seq<JobId>, started: seq<JobId>, now: Time, e: ReadyEntry)
    requires Requeued(specs, rts, d, heap, found, started, now) && e in heap
    ensures e.job in found && e.job !in started && Exists(|rts|, e.job) && !specs[e.job - 1].StartsAfter(now)
    ensures e == LiveEntry(rts[e.job - 1], d[e.job - 1])
  {
    hide TimeBonus, JobSpec.StartsAfter;
    assert e in Entries(specs, rts, d, found, started, now);
  }

  lemma LiveIsRequeued(specs: seq<JobSpec>, rts: seq<JobRuntime>, d: seq<DependencyRuntime>,
                       heap: multiset<ReadyEntry>, found: seq<JobId>, started: seq<JobId>, now: Time, id: JobId)
    requires Requeued(specs, rts, d, heap, found, started, now)
    requires id in found && id !in started && Exists(|rts|, id) && !specs[id - 1].StartsAfter(now)
    ensures var live := LiveEntry(rts[id - 1], d[id - 1]);
            live in heap && live.job == id && live.epoch == d[id - 1].readyEpoch
  {
    hide TimeBonus, JobSpec.StartsAfter;
    assert LiveEntry(rts[id - 1], d[id - 1]) in Entries(specs, rts, d, found, started, now);
  }

  /** Jobs that were found and did not start are still queued and satisfied. */
  lemma LeftoversWait(m: Machine, specs: seq<JobSpec>, rts0: seq<JobRuntime>, rts: seq<JobRuntime>,
                      d0: seq<DependencyRuntime>, d: seq<DependencyRuntime>, heap0: multiset<ReadyEntry>,
                      heap: multiset<ReadyEntry>, found: seq<JobId>, started: seq<JobId>, now: Time)
    requires CycleResult(m, specs, rts0, rts, heap, found, started, now)
    requires QueueResult(specs, rts, d0, d, heap, found, started, now)
    requires forall id: JobId :: id in found <==> Found(rts0, d0, heap0, id)
    ensures |rts| == |d| && forall j: JobId :: j in found && j !in started ==>
              Exists(|rts|, j) && rts[j - 1].state.Queued? && d[j - 1].depsSatisfied
  {
    hide Admits, Bounded, InTurn, AllocationOk, AllUsable, Requeued;
    CycleSizes(m, specs, rts0, rts, d0, d, heap, found, started, now);
    forall j: JobId | j in found && j !in started
      ensures Exists(|rts|, j) && rts[j - 1].state.Queued? && d[j - 1].depsSatisfied
    {
      assert Found(rts0, d0, heap0, j);
      assert JobOutcome(m, specs, rts0, rts, started, now, j);
    }
  }

  /** A cycle that starts nobody right after another leaves the queue as the first left it. */
  lemma IdleQueue(specs: seq<JobSpec>, rts1: seq<JobRuntime>, rts2: seq<JobRuntime>, d0: seq<DependencyRuntime>,
                  d1: seq<DependencyRuntime>, d2: seq<DependencyRuntime>, heap1: multiset<ReadyEntry>,
                  heap2: multiset<ReadyEntry>, found1: seq<JobId>, started1: seq<JobId>, found2: seq<JobId>, now: Time)
    requires QueueResult(specs, rts1, d0, d1, heap1, found1, started1, now)
    requires QueueResult(specs, rts2, d1, d2, heap2, found2, [], now) && SameButReasons(rts1, rts2)
    requires forall j: JobId :: j in found1 && j !in started1 ==>
               Exists(|rts1|, j) && rts1[j - 1].state.Queued? && d1[j - 1].depsSatisfied
    requires forall id: JobId :: id in found2 <==> Found(rts1, d1, heap1, id)
    ensures d2 == d1 && heap2 == heap1
  {
    hide Found, TimeBonus, JobSpec.StartsAfter;
    forall i | 0 <= i < |d2| ensures d2[i] == d1[i] {
      assert Exists(|d2|, i + 1) && i + 1 !in [];
    }
    var before, after := Entries(specs, rts1, d1, found1, started1, now), Entries(specs, rts2, d2, found2, [], now);
    forall id: JobId
      ensures id in found2 <==> id in found1 && id !in started1 && Exists(|rts1|, id) && !specs[id - 1].StartsAfter(now)
    {
      LeftoversAreFound(specs, rts1, d1, heap1, found1, started1, now, id);
    }
    assert forall id: JobId :: Exists(|rts1|, id) ==>
                                 LiveEntry(rts2[id - 1], d2[id - 1]) == LiveEntry(rts1[id - 1], d1[id - 1]);
    SameEntries(specs, rts1, rts2, d1, d2, found1, started1, found2, now);
  }

  lemma SameEntries(specs: seq<JobSpec>, rts1: seq<JobRuntime>, rts2: seq<JobRuntime>, d1: seq<DependencyRuntime>,
                    d2: seq<DependencyRuntime>, found1: seq<JobId>, started1: seq<JobId>, found2: seq<JobId>, now: Time)
    requires |specs| == |rts1| == |rts2| == |d1| == |d2|
    requires forall id: JobId :: id in found2 <==>
               id in found1 && id !in started1 && Exists(|rts1|, id) && !specs[id - 1].StartsAfter(now)
    requires forall id: JobId :: Exists(|rts1|, id) ==>
              LiveEntry(rts2[id - 1], d2[id - 1]) == LiveEntry(rts1[id - 1], d1[id - 1])
    ensures Entries(specs, rts2, d2, found2, [], now) == Entries(specs, rts1, d1, found1, started1, now)
  {
    hide LiveEntry, JobSpec.StartsAfter;
    var before, after := Entries(specs, rts1, d1, found1, started1, now), Entries(specs, rts2, d2, found2, [], now);
    forall e | e in after ensures e in before {
      var j :| j in found2 && j !in [] && Exists(|rts2|, j) && !specs[j - 1].StartsAfter(now)
               && e == LiveEntry(rts2[j - 1], d2[j - 1]);
      assert j in found1 && j !in started1;
    }
    forall e | e in before ensures e in after {
      var j :| j in found1 && j !in started1 && Exists(|rts1|, j) && !specs[j - 1].StartsAfter(now)
               && e == LiveEntry(rts1[j - 1], d1[j - 1]);
      assert j in found2 && j !in [];
    }
  }
}
