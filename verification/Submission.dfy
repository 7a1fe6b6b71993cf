/** Appending a job: what the larger vectors inherit from the smaller ones. */
module Submission {
  import opened Types
  import opened PlainTerms
  import opened Dependencies
  import opened Cascades
  import opened InvertedIndex
  import opened Tally
  import opened CycleCheck
  import opened JobInvariants
  import opened ReadyQueue
  import opened FairShare
  import opened Ledger
  import opened TableInvariants

  /** The runtime a submitted job starts with. */
  function Submitted(runtime: JobRuntime, id: JobId): JobRuntime {
    runtime.(id := id, state := Queued, gpuIds := None, startedAt := None, finishedAt := None, reason := None)
  }

  const NO_DEPENDENCIES := DependencyRuntime(0, 0, 0, false, false, 0)

  lemma AppendKeepsSets(rts: seq<JobRuntime>, rt: JobRuntime)
    requires rt.state.Queued?
    ensures Successful(rts + [rt]) == Successful(rts) && Unsuccessful(rts + [rt]) == Unsuccessful(rts)
    ensures AutoCancelled(rts + [rt]) == AutoCancelled(rts)
  {
    var rts' := rts + [rt];
    forall id: JobId
      ensures id in Successful(rts') <==> id in Successful(rts)
      ensures id in Unsuccessful(rts') <==> id in Unsuccessful(rts)
      ensures id in AutoCancelled(rts') <==> id in AutoCancelled(rts)
    {
      assert Exists(|rts'|, id) <==> Exists(|rts|, id) || id == |rts| + 1;
    }
  }

  lemma BeginsAsAsked(specs: seq<JobSpec>, rts0: seq<JobRuntime>, runtime: JobRuntime, rts1: seq<JobRuntime>,
                      order: seq<JobId>)
    requires |specs| == |rts0| + 1 && TookDown(specs, rts0 + [Submitted(runtime, |rts0| + 1)], rts1, order)
    ensures |rts1| == |rts0| + 1 && BeginsAs(runtime, rts1[|rts0|], |rts0| + 1)
    ensures rts1[|rts0|].state.Cancelled? <==> |rts0| + 1 in order
    ensures |rts0| + 1 in order ==> specs[|rts0|].autoCancel
  {
    hide Unsuccessful, JobSpec.Dependencies;
    assert Exists(|rts1|, |rts0| + 1);
  }

  /** A job that is cancelled or queued after a cascade asks for what it asked for. */
  lemma BegunStays(rts0: seq<JobRuntime>, rts1: seq<JobRuntime>, order: seq<JobId>, request: JobRuntime, id: JobId)
    requires Cancels(rts0, rts1, order) && Exists(|rts0|, id) && BeginsAs(request, rts0[id - 1], id)
    ensures |rts1| == |rts0| && BeginsAs(request, rts1[id - 1], id)
  {
  }

  lemma AppendKeepsRuntimes(specs: seq<JobSpec>, rts: seq<JobRuntime>, spec: JobSpec, runtime: JobRuntime)
    requires |specs| == |rts| && SpecsOk(specs) && RuntimesOk(rts) && StartedSafely(specs, rts)
    requires Distinct(spec.Dependencies())
    ensures var rts' := rts + [Submitted(runtime, |rts| + 1)];
            SpecsOk(specs + [spec]) && RuntimesOk(rts') && StartedSafely(specs + [spec], rts')
  {
    var specs', rts' := specs + [spec], rts + [Submitted(runtime, |rts| + 1)];
    AppendKeepsSets(rts, Submitted(runtime, |rts| + 1));
    forall id: JobId | Exists(|rts'|, id)
      ensures Distinct(specs'[id - 1].Dependencies())
      ensures rts'[id - 1].id == id && RuntimeOk(rts'[id - 1])
      ensures rts'[id - 1].startedAt.Some? ==> DependenciesMet(specs'[id - 1], Successful(rts'))
    {
      assert Exists(|rts|, id) || id == |rts| + 1;
    }
  }

  lemma AppendKeepsExclusive(rts: seq<JobRuntime>, rt: JobRuntime)
    requires GpusExclusive(rts) && rt.state.Queued?
    ensures GpusExclusive(rts + [rt])
  {
    var rts' := rts + [rt];
    forall a: JobId, b: JobId, gpu | RunsOn(rts', a, gpu) && RunsOn(rts', b, gpu) && a != b
      ensures rts'[a - 1].sharing.Shared? && rts'[b - 1].sharing.Shared?
    {
      assert RunsOn(rts, a, gpu) && RunsOn(rts, b, gpu);
    }
  }

  lemma AppendKeepsLedger(specs: seq<JobSpec>, rts: seq<JobRuntime>, spec: JobSpec, rt: JobRuntime,
                          credits: seq<Credit>)
    requires |specs| == |rts| && LedgerOk(specs, rts, credits, 0) && rt.state.Queued?
    ensures LedgerOk(specs + [spec], rts + [rt], credits, 0)
  {
    var rts' := rts + [rt];
    forall id: JobId | Exists(|rts'|, id) && Earns(rts'[id - 1]) ensures HasCredit(credits, id) {
      assert Exists(|rts|, id) || id == |rts| + 1;
    }
  }

  lemma AppendKeepsJobs(specs: seq<JobSpec>, rts: seq<JobRuntime>, spec: JobSpec, runtime: JobRuntime,
                        credits: seq<Credit>, muted: set<JobId>)
    requires JobsInv(specs, rts, credits, muted) && Distinct(spec.Dependencies())
    ensures JobsInv(specs + [spec], rts + [Submitted(runtime, |rts| + 1)], credits, muted)
  {
    hide SpecsOk, RuntimesOk, StartedSafely, GpusExclusive, LedgerOk, Unsuccessful, Successful;
    var rt := Submitted(runtime, |rts| + 1);
    AppendKeepsRuntimes(specs, rts, spec, runtime);
    AppendKeepsExclusive(rts, rt);
    AppendKeepsLedger(specs, rts, spec, rt, credits);
    AppendKeepsSets(rts, rt);
  }

  lemma AppendKeepsQueue(specs: seq<JobSpec>, rts: seq<JobRuntime>, deps: seq<DependencyRuntime>,
                         heap: multiset<ReadyEntry>, spec: JobSpec, rt: JobRuntime, dep: DependencyRuntime)
    requires QueueInv(specs, rts, deps, heap, 0, {})
    ensures QueueInv(specs + [spec], rts + [rt], deps + [dep], heap, |rts| + 1, {|rts| + 1})
  {
    hide Satisfied, Impossible;
    var specs', rts', deps' := specs + [spec], rts + [rt], deps + [dep];
    forall id: JobId | Exists(|specs'|, id) && id != |rts| + 1
      ensures Exists(|specs|, id) && specs'[id - 1] == specs[id - 1]
              && rts'[id - 1] == rts[id - 1] && deps'[id - 1] == deps[id - 1]
    {
    }
  }

  lemma AppendKeepsCounters(specs: seq<JobSpec>, rts: seq<JobRuntime>, deps: seq<DependencyRuntime>,
                            muted: set<JobId>, echo: bool, spec: JobSpec, rt: JobRuntime, dep: DependencyRuntime)
    requires CountersOk(specs, rts, deps, muted, echo, 0) && rt.state.Queued?
    ensures CountersOk(specs + [spec], rts + [rt], deps + [dep], muted, echo, |rts| + 1)
  {
    hide Successful, Unsuccessful, AutoCancelled;
    AppendKeepsSets(rts, rt);
    var specs', rts', deps' := specs + [spec], rts + [rt], deps + [dep];
    forall id: JobId | Exists(|specs'|, id) && id != |rts| + 1
      ensures Exists(|specs|, id) && specs'[id - 1] == specs[id - 1]
              && rts'[id - 1] == rts[id - 1] && deps'[id - 1] == deps[id - 1]
    {
    }
  }

  lemma AppendKeepsOrder(specs: seq<JobSpec>, rts: seq<JobRuntime>, deps: seq<DependencyRuntime>,
                         heap: multiset<ReadyEntry>, spec: JobSpec, rt: JobRuntime, dep: DependencyRuntime)
    requires |specs| == |rts| == |deps| && HeapOk(rts, deps, heap, 0)
    ensures Quiet(specs, rts, deps, 0) ==> Quiet(specs + [spec], rts + [rt], deps + [dep], |rts| + 1)
    ensures forall t :: NoneEarly(specs, deps, heap, t) ==> NoneEarly(specs + [spec], deps + [dep], heap, t)
    ensures NoneOutranked(rts, heap) ==> NoneOutranked(rts + [rt], heap)
  {
    var specs', rts', deps' := specs + [spec], rts + [rt], deps + [dep];
    forall id: JobId | Exists(|specs'|, id) && id != |rts| + 1
      ensures Exists(|specs|, id) && specs'[id - 1] == specs[id - 1]
              && rts'[id - 1] == rts[id - 1] && deps'[id - 1] == deps[id - 1]
    {
    }
  }

  // ---------- keys and shares ----------

  /** Pushing the newest id onto its list, as submission does, is inserting it in order. */
  lemma PushIndexes<K(!new)>(m: Index<K>, keys0: seq<set<K>>, keys1: seq<set<K>>, k: K)
    requires Indexes(m, keys0) && keys1 == keys0 + [{k}]
    ensures Indexes(m[k := Lookup(m, k) + [|keys1|]], keys1)
  {
    var id := |keys1|;
    ExtendIndexes(m, keys0);
    assert Exists(|keys0 + [{}]|, id);
    InsertIndexes(m, keys0 + [{}], k, id);
    assert {} + {k} == {k};
    assert (keys0 + [{}])[id - 1 := {k}] == keys1;
    forall y | y in Lookup(m, k) ensures y < id {
      assert Exists(|keys0|, y);
    }
    PushIsInsert(Lookup(m, k), id);
  }

  lemma ExtendAndInsert<K(!new)>(m: Index<K>, keys: seq<set<K>>, k: K)
    requires Indexes(m, keys) && (k in m ==> Ascending(m[k]))
    ensures Indexes(Insert(m, k, |keys| + 1), keys + [{k}])
  {
    hide Indexes, Insert;
    ExtendIndexes(m, keys);
    InsertIndexes(m, keys + [{}], k, |keys| + 1);
    assert {} + {k} == {k};
    assert (keys + [{}])[|keys| := {k}] == keys + [{k}];
  }

  lemma AppendUser(m: Index<string>, specs: seq<JobSpec>, spec: JobSpec)
    requires Indexes(m, UserKeys(specs))
    ensures var user := spec.submittedBy;
            Indexes(m[user := Lookup(m, user) + [|specs| + 1]], UserKeys(specs + [spec]))
  {
    hide Indexes;
    assert UserKeys(specs + [spec]) == UserKeys(specs) + [{spec.submittedBy}];
    PushIndexes(m, UserKeys(specs), UserKeys(specs + [spec]), spec.submittedBy);
  }

  lemma AppendState(m: Index<JobState>, rts: seq<JobRuntime>, rt: JobRuntime)
    requires Indexes(m, StateKeys(rts))
    ensures Indexes(m[rt.state := Lookup(m, rt.state) + [|rts| + 1]], StateKeys(rts + [rt]))
  {
    hide Indexes;
    assert StateKeys(rts + [rt]) == StateKeys(rts) + [{rt.state}];
    PushIndexes(m, StateKeys(rts), StateKeys(rts + [rt]), rt.state);
  }

  lemma AppendProject(m: Index<string>, specs: seq<JobSpec>, spec: JobSpec)
    requires Indexes(m, ProjectKeys(specs))
    ensures spec.project.Some? && spec.project.value in m ==> Ascending(m[spec.project.value])
    ensures Indexes(if spec.project.Some? then Insert(m, spec.project.value, |specs| + 1) else m,
                    ProjectKeys(specs + [spec]))
  {
    hide Indexes, Insert;
    ListsAscend(m, ProjectKeys(specs));
    if spec.project.Some? {
      assert ProjectKeys(specs + [spec]) == ProjectKeys(specs) + [{spec.project.value}];
      ExtendAndInsert(m, ProjectKeys(specs), spec.project.value);
    } else {
      assert ProjectKeys(specs + [spec]) == ProjectKeys(specs) + [{}];
      ExtendIndexes(m, ProjectKeys(specs));
    }
  }

  lemma AppendTotals(specs: seq<JobSpec>, rts: seq<JobRuntime>, spec: JobSpec, rt: JobRuntime,
                     groups: map<nat, nat>, users: map<string, QuotaUsage>, projects: map<string, QuotaUsage>)
    requires |specs| == |rts| && rt.state.Queued? && Counts(groups, GroupShares(rts))
    requires Tallies(users, UserShares(specs, rts)) && Tallies(projects, ProjectShares(specs, rts))
    ensures Counts(groups, GroupShares(rts + [rt]))
    ensures Tallies(users, UserShares(specs + [spec], rts + [rt]))
    ensures Tallies(projects, ProjectShares(specs + [spec], rts + [rt]))
  {
    hide Counts, Tallies;
    assert GroupShares(rts + [rt]) == GroupShares(rts) + [None];
    assert UserShares(specs + [spec], rts + [rt]) == UserShares(specs, rts) + [None];
    assert ProjectShares(specs + [spec], rts + [rt]) == ProjectShares(specs, rts) + [None];
    CountsExtend(groups, GroupShares(rts));
    TalliesExtend(users, UserShares(specs, rts));
    TalliesExtend(projects, ProjectShares(specs, rts));
  }

  lemma AppendedDependencies(specs: seq<JobSpec>, spec: JobSpec)
    ensures var keys := DependencyKeys(specs) + [{}];
            keys[|specs| := keys[|specs|] + Elements(spec.Dependencies())] == DependencyKeys(specs + [spec])
  {
    assert {} + Elements(spec.Dependencies()) == Elements(spec.Dependencies());
  }

  lemma SubmissionKeepsAcyclic(specs: seq<JobSpec>, spec: JobSpec)
    ensures Acyclic(specs) && (forall d :: d in spec.Dependencies() ==> !Reaches(specs, d, |specs| + 1)) ==>
              Acyclic(specs + [spec])
  {
    hide Acyclic, Reaches;
    if Acyclic(specs) && forall d :: d in spec.Dependencies() ==> !Reaches(specs, d, |specs| + 1) {
      InstallKeepsAcyclic(specs, specs + [spec], |specs| + 1);
    }
  }
}
