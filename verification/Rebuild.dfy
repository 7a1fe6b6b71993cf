/** Building every index from nothing but the job vectors, one job at a time. */
module Rebuild {
  import opened Types
  import opened Counting
  import opened Dependencies
  import opened InvertedIndex
  import opened Tally
  import opened JobInvariants
  import opened ReadyQueue
  import opened BeginTimes
  import opened Exactness
  import opened Submission

  lemma StartsEmpty<K(!new)>()
    ensures Indexes<K>(map[], []) && Counts<K>(map[], []) && Tallies<K>(map[], [])
  {
    var none: Shares<K> := [];
    forall k: K ensures Usage(none, k) == QuotaUsage(0, 0) {
    }
  }

  lemma AppendCount<K(!new)>(m: map<K, nat>, shares: Shares<K>, share: Option<(K, nat)>)
    requires Counts(m, shares)
    ensures Counts(if share.Some? then m[share.value.0 := CountAt(m, share.value.0) + 1] else m, shares + [share])
  {
    hide Counts;
    CountsExtend(m, shares);
    if share.Some? {
      RecordCounts(m, shares + [None], |shares|, share.value.0, share.value.1);
      assert (shares + [None])[|shares| := share] == shares + [share];
    }
  }

  lemma AppendTally<K(!new)>(m: map<K, QuotaUsage>, shares: Shares<K>, share: Option<(K, nat)>)
    requires Tallies(m, shares)
    ensures Tallies(if share.Some? then RecordOne(m, share.value.0, share.value.1) else m, shares + [share])
  {
    hide Tallies, RecordOne;
    TalliesExtend(m, shares);
    if share.Some? {
      RecordTallies(m, shares + [None], |shares|, share.value.0, share.value.1);
      assert (shares + [None])[|shares| := share] == shares + [share];
    }
  }

  lemma NextUser(m: Index<string>, specs: seq<JobSpec>, i: nat)
    requires i < |specs| && Indexes(m, UserKeys(specs[..i]))
    ensures var user := specs[i].submittedBy;
            Indexes(m[user := Lookup(m, user) + [i + 1]], UserKeys(specs[..i + 1]))
  {
    hide Indexes, UserKeys;
    assert specs[..i + 1] == specs[..i] + [specs[i]];
    AppendUser(m, specs[..i], specs[i]);
  }

  lemma NextState(m: Index<JobState>, rts: seq<JobRuntime>, i: nat)
    requires i < |rts| && Indexes(m, StateKeys(rts[..i]))
    ensures var state := rts[i].state;
            Indexes(m[state := Lookup(m, state) + [i + 1]], StateKeys(rts[..i + 1]))
  {
    hide Indexes, StateKeys;
    assert rts[..i + 1] == rts[..i] + [rts[i]];
    AppendState(m, rts[..i], rts[i]);
  }

  lemma NextProject(m: Index<string>, specs: seq<JobSpec>, i: nat)
    requires i < |specs| && Indexes(m, ProjectKeys(specs[..i]))
    ensures Indexes(if specs[i].project.Some?
                    then m[specs[i].project.value := Lookup(m, specs[i].project.value) + [i + 1]] else m,
                    ProjectKeys(specs[..i + 1]))
  {
    hide Indexes;
    assert specs[..i + 1] == specs[..i] + [specs[i]];
    if specs[i].project.Some? {
      assert ProjectKeys(specs[..i + 1]) == ProjectKeys(specs[..i]) + [{specs[i].project.value}];
      PushIndexes(m, ProjectKeys(specs[..i]), ProjectKeys(specs[..i + 1]), specs[i].project.value);
    } else {
      assert ProjectKeys(specs[..i + 1]) == ProjectKeys(specs[..i]) + [{}];
      ExtendIndexes(m, ProjectKeys(specs[..i]));
    }
  }

  lemma NextTotals(specs: seq<JobSpec>, rts: seq<JobRuntime>, i: nat,
                   groups: map<nat, nat>, users: map<string, QuotaUsage>, projects: map<string, QuotaUsage>)
    requires |specs| == |rts| && i < |rts| && Counts(groups, GroupShares(rts[..i]))
    requires Tallies(users, UserShares(specs[..i], rts[..i])) && Tallies(projects, ProjectShares(specs[..i], rts[..i]))
    ensures var rt, spec := rts[i], specs[i];
      && Counts(if GroupShare(rt).Some? then groups[rt.group.value := CountAt(groups, rt.group.value) + 1] else groups,
                GroupShares(rts[..i + 1]))
      && Tallies(if rt.state.Running? then RecordOne(users, spec.submittedBy, rt.gpus) else users,
                 UserShares(specs[..i + 1], rts[..i + 1]))
      && Tallies(if ProjectShare(spec, rt).Some? then RecordOne(projects, spec.project.value, rt.gpus) else projects,
                 ProjectShares(specs[..i + 1], rts[..i + 1]))
  {
    hide Counts, Tallies, RecordOne;
    assert GroupShares(rts[..i + 1]) == GroupShares(rts[..i]) + [GroupShare(rts[i])];
    assert UserShares(specs[..i + 1], rts[..i + 1]) == UserShares(specs[..i], rts[..i]) + [UserShare(specs[i], rts[i])];
    assert ProjectShares(specs[..i + 1], rts[..i + 1]) ==
           ProjectShares(specs[..i], rts[..i]) + [ProjectShare(specs[i], rts[i])];
    AppendCount(groups, GroupShares(rts[..i]), GroupShare(rts[i]));
    AppendTally(users, UserShares(specs[..i], rts[..i]), UserShare(specs[i], rts[i]));
    AppendTally(projects, ProjectShares(specs[..i], rts[..i]), ProjectShare(specs[i], rts[i]));
  }

  /** The reverse graph's keys once the first `i` jobs have been entered. */
  ghost function FirstKeys(specs: seq<JobSpec>, i: nat): (keys: seq<set<JobId>>)
    ensures |keys| == |specs|
  {
    seq(|specs|, k requires 0 <= k < |specs| => if k < i then Elements(specs[k].Dependencies()) else {})
  }

  lemma NoKeys(specs: seq<JobSpec>)
    ensures Indexes(map[], FirstKeys(specs, 0)) && FirstKeys(specs, |specs|) == DependencyKeys(specs)
  {
  }

  lemma NextKeys(specs: seq<JobSpec>, i: nat)
    requires i < |specs|
    ensures var keys := FirstKeys(specs, i);
            keys[i := keys[i] + Elements(specs[i].Dependencies())] == FirstKeys(specs, i + 1)
  {
    assert {} + Elements(specs[i].Dependencies()) == Elements(specs[i].Dependencies());
  }

  // ---------- readiness ----------

  /** The first `i` jobs have their dependency runtimes recomputed. */
  ghost predicate RecomputedUpTo(specs: seq<JobSpec>, rts: seq<JobRuntime>, deps: seq<DependencyRuntime>, i: nat) {
    && |specs| == |rts| == |deps|
    && forall id: JobId :: Exists(|rts|, id) && id <= i ==> deps[id - 1] == Recomputed(specs[id - 1], rts, 0)
  }

  /** Only jobs among the first `i` that are ready are enqueued. */
  ghost predicate EnqueuedUpTo(specs: seq<JobSpec>, rts: seq<JobRuntime>, deps: seq<DependencyRuntime>,
                               heap: multiset<ReadyEntry>, i: nat, now: Time)
  {
    && |specs| == |rts| == |deps|
    && forall e :: e in heap ==>
         && Exists(|rts|, e.job) && e.job <= i && e == LiveEntry(rts[e.job - 1], deps[e.job - 1])
         && rts[e.job - 1].state.Queued? && !specs[e.job - 1].StartsAfter(now)
  }

  /** Of the first `i` jobs, those that are ready are enqueued, or wait for their begin time and say so. */
  ghost predicate NoneLostUpTo(specs: seq<JobSpec>, rts: seq<JobRuntime>, deps: seq<DependencyRuntime>,
                               heap: multiset<ReadyEntry>, i: nat, now: Time)
  {
    && |specs| == |rts| == |deps|
    && forall id: JobId ::
         Exists(|rts|, id) && id <= i && rts[id - 1].state.Queued? && deps[id - 1].depsSatisfied ==>
           if specs[id - 1].StartsAfter(now) then rts[id - 1].reason == Some(WaitingForStartTime)
           else LiveEntry(rts[id - 1], deps[id - 1]) in heap
  }

  ghost predicate ReadyUpTo(specs: seq<JobSpec>, rts: seq<JobRuntime>, deps: seq<DependencyRuntime>,
                            heap: multiset<ReadyEntry>, i: nat, now: Time)
  {
    RecomputedUpTo(specs, rts, deps, i) && EnqueuedUpTo(specs, rts, deps, heap, i, now)
    && NoneLostUpTo(specs, rts, deps, heap, i, now)
  }

  lemma NoneReady(specs: seq<JobSpec>, rts: seq<JobRuntime>, deps: seq<DependencyRuntime>, now: Time)
    requires |specs| == |rts| == |deps|
    ensures ReadyUpTo(specs, rts, deps, multiset{}, 0, now)
  {
  }

  lemma NextRecomputed(specs: seq<JobSpec>, rts0: seq<JobRuntime>, rts1: seq<JobRuntime>,
                       d0: seq<DependencyRuntime>, d1: seq<DependencyRuntime>, i: nat)
    requires RecomputedUpTo(specs, rts0, d0, i) && i < |rts0| && SameButReasons(rts0, rts1)
    requires d1 == d0[i := Recomputed(specs[i], rts0, 0)]
    ensures RecomputedUpTo(specs, rts1, d1, i + 1)
  {
    hide Recomputed, GpusExclusive, StartedSafely, RuntimesOk, Successful, Unsuccessful;
    ReasonsAreHarmless(specs, rts0, rts1);
    forall id: JobId | Exists(|rts1|, id) && id <= i + 1
      ensures d1[id - 1] == Recomputed(specs[id - 1], rts1, 0)
    {
      assert Exists(|rts0|, id);
      SameSetsSameRuntime(specs[id - 1], rts0, rts1, 0);
    }
  }

  lemma NextEnqueued(specs: seq<JobSpec>, rts0: seq<JobRuntime>, rts1: seq<JobRuntime>,
                     d0: seq<DependencyRuntime>, d1: seq<DependencyRuntime>,
                     heap0: multiset<ReadyEntry>, heap1: multiset<ReadyEntry>, i: nat, now: Time)
    requires EnqueuedUpTo(specs, rts0, d0, heap0, i, now) && i < |rts0| && rts0[i].id == i + 1
    requires |d1| == |d0| && d1 == d0[i := d1[i]]
    requires |rts1| == |rts0| && rts1 == rts0[i := rts0[i].(reason := rts1[i].reason)]
    requires heap1 == heap0 + if rts1[i].state.Queued? && !specs[i].StartsAfter(now) && d1[i].depsSatisfied
                              then multiset{LiveEntry(rts1[i], d1[i])} else multiset{}
    ensures EnqueuedUpTo(specs, rts1, d1, heap1, i + 1, now)
  {
    hide TimeBonus;
    forall e | e in heap1 ensures Exists(|rts1|, e.job) && e.job <= i + 1
      && e == LiveEntry(rts1[e.job - 1], d1[e.job - 1])
      && rts1[e.job - 1].state.Queued? && !specs[e.job - 1].StartsAfter(now)
    {
      assert e in heap0 || e == LiveEntry(rts1[i], d1[i]);
    }
  }

  lemma NextNoneLost(specs: seq<JobSpec>, rts0: seq<JobRuntime>, rts1: seq<JobRuntime>,
                     d0: seq<DependencyRuntime>, d1: seq<DependencyRuntime>,
                     heap0: multiset<ReadyEntry>, heap1: multiset<ReadyEntry>, i: nat, now: Time)
    requires NoneLostUpTo(specs, rts0, d0, heap0, i, now) && i < |rts0|
    requires |d1| == |d0| && d1 == d0[i := d1[i]] && |rts1| == |rts0| && rts1 == rts0[i := rts1[i]] && heap0 <= heap1
    requires rts1[i].state.Queued? && d1[i].depsSatisfied ==>
               if specs[i].StartsAfter(now) then rts1[i].reason == Some(WaitingForStartTime)
               else LiveEntry(rts1[i], d1[i]) in heap1
    ensures NoneLostUpTo(specs, rts1, d1, heap1, i + 1, now)
  {
    hide LiveEntry, JobSpec.StartsAfter;
  }

  lemma NextReady(specs: seq<JobSpec>, rts0: seq<JobRuntime>, rts1: seq<JobRuntime>,
                  d0: seq<DependencyRuntime>, d1: seq<DependencyRuntime>,
                  heap0: multiset<ReadyEntry>, heap1: multiset<ReadyEntry>, i: nat, now: Time)
    requires ReadyUpTo(specs, rts0, d0, heap0, i, now) && i < |rts0| && rts0[i].id == i + 1
    requires d1 == d0[i := Recomputed(specs[i], rts0, 0)]
    requires |rts1| == |rts0| && rts1 == rts0[i := rts0[i].(reason := rts1[i].reason)]
    requires rts1[i].reason == SyncedReason(rts0[i].reason, WaitReason(specs[i], rts0[i], d1[i], now))
    requires heap1 == heap0 + if rts1[i].state.Queued? && !specs[i].StartsAfter(now) && d1[i].depsSatisfied
                              then multiset{LiveEntry(rts1[i], d1[i])} else multiset{}
    ensures ReadyUpTo(specs, rts1, d1, heap1, i + 1, now)
  {
    hide Recomputed, EnqueuedUpTo, NoneLostUpTo, LiveEntry;
    NextRecomputed(specs, rts0, rts1, d0, d1, i);
    NextEnqueued(specs, rts0, rts1, d0, d1, heap0, heap1, i, now);
    NextNoneLost(specs, rts0, rts1, d0, d1, heap0, heap1, i, now);
  }

  lemma AllReady(specs: seq<JobSpec>, rts: seq<JobRuntime>, deps: seq<DependencyRuntime>,
                 heap: multiset<ReadyEntry>, now: Time)
    requires ReadyUpTo(specs, rts, deps, heap, |rts|, now)
    ensures FlagsOk(specs, deps, 0)
  {
    hide Successful, Unsuccessful, Satisfied, Impossible;
  }

  lemma AllReadyHeap(specs: seq<JobSpec>, rts: seq<JobRuntime>, deps: seq<DependencyRuntime>,
                     heap: multiset<ReadyEntry>, now: Time)
    requires ReadyUpTo(specs, rts, deps, heap, |rts|, now) && RuntimesOk(rts)
    ensures HeapOk(rts, deps, heap, 0) && NoneLost(specs, rts, deps, heap, {}) && NoneOutranked(rts, heap)
    ensures NoneMissed(specs, rts, deps, heap, 0)
  {
    hide Recomputed;
  }

  lemma AllReadyCounters(specs: seq<JobSpec>, rts: seq<JobRuntime>, deps: seq<DependencyRuntime>,
                         heap: multiset<ReadyEntry>, now: Time, echo: bool)
    requires ReadyUpTo(specs, rts, deps, heap, |rts|, now)
    ensures CountersOk(specs, rts, deps, {}, echo, 0)
  {
    hide Successful, Unsuccessful, AutoCancelled, Satisfied, Impossible;
    forall id: JobId | Exists(|specs|, id) ensures CounterOk(specs[id - 1], deps[id - 1], rts, {}, echo) {
      CountInMono(specs[id - 1].Dependencies(), Unsuccessful(rts) - {}, Unsuccessful(rts));
    }
  }
}
