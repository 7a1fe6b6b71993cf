/** Emptying the ready heap: which jobs come out, though only the first entry of each is looked at. */
module Draining {
  import opened Types
  import opened JobInvariants
  import opened ReadyQueue
  import opened Edits

  /** The entry of its job that leaves the heap first. */
  ghost predicate TopOf(heap: multiset<ReadyEntry>, e: ReadyEntry) {
    e in heap && forall x :: x in heap && x.job == e.job ==> x == e || RanksBelow(x, e)
  }

  /** The test that an entry must pass when it is popped. */
  predicate Live(rts: seq<JobRuntime>, deps: seq<DependencyRuntime>, e: ReadyEntry) {
    && |rts| == |deps| && Exists(|rts|, e.job)
    && rts[e.job - 1].state.Queued? && deps[e.job - 1].readyEpoch == e.epoch && deps[e.job - 1].depsSatisfied
  }

  /** The first entry of job `id` to leave the heap passes the test. */
  ghost predicate Found(rts: seq<JobRuntime>, deps: seq<DependencyRuntime>, heap: multiset<ReadyEntry>, id: JobId) {
    exists e :: TopOf(heap, e) && e.job == id && Live(rts, deps, e)
  }

  /** How far a drain of `heap0` has come: `heap` is left, the jobs in `seen` have had an entry popped,
      and `runnable` are those among them that were found. */
  ghost predicate Drained(rts: seq<JobRuntime>, deps: seq<DependencyRuntime>, heap0: multiset<ReadyEntry>,
                          heap: multiset<ReadyEntry>, seen: set<JobId>, runnable: seq<JobId>)
  {
    && (forall e :: e in heap ==> e in heap0)
    && (forall e :: e in heap0 && e.job !in seen ==> e in heap)
    && Distinct(runnable)
    && (forall id: JobId :: id in runnable <==> id in seen && Found(rts, deps, heap0, id))
  }

  lemma DrainStarts(rts: seq<JobRuntime>, deps: seq<DependencyRuntime>, heap: multiset<ReadyEntry>)
    ensures Drained(rts, deps, heap, heap, {}, [])
  {
  }

  lemma DrainRepeat(rts: seq<JobRuntime>, deps: seq<DependencyRuntime>, heap0: multiset<ReadyEntry>,
                    heap: multiset<ReadyEntry>, seen: set<JobId>, runnable: seq<JobId>, e: ReadyEntry)
    requires Drained(rts, deps, heap0, heap, seen, runnable) && e in heap && e.job in seen
    ensures Drained(rts, deps, heap0, heap - multiset{e}, seen, runnable)
  {
    hide Found;
  }

  lemma FoundByTop(rts: seq<JobRuntime>, deps: seq<DependencyRuntime>, heap: multiset<ReadyEntry>, e: ReadyEntry)
    requires TopOf(heap, e)
    ensures Found(rts, deps, heap, e.job) <==> Live(rts, deps, e)
  {
    if Found(rts, deps, heap, e.job) {
      var x :| TopOf(heap, x) && x.job == e.job && Live(rts, deps, x);
      assert x == e;
    }
  }

  lemma DrainFirst(rts: seq<JobRuntime>, deps: seq<DependencyRuntime>, heap0: multiset<ReadyEntry>,
                   heap: multiset<ReadyEntry>, seen: set<JobId>, runnable: seq<JobId>, e: ReadyEntry)
    requires Drained(rts, deps, heap0, heap, seen, runnable) && e in heap && e.job !in seen
    requires forall x :: x in heap ==> x == e || RanksBelow(x, e)
    ensures Drained(rts, deps, heap0, heap - multiset{e}, seen + {e.job},
                    if Live(rts, deps, e) then runnable + [e.job] else runnable)
  {
    hide Found, Live, RanksBelow;
    assert TopOf(heap0, e);
    FoundByTop(rts, deps, heap0, e);
  }

  lemma DrainEnds(rts: seq<JobRuntime>, deps: seq<DependencyRuntime>, heap0: multiset<ReadyEntry>,
                  seen: set<JobId>, runnable: seq<JobId>)
    requires Drained(rts, deps, heap0, multiset{}, seen, runnable)
    ensures Distinct(runnable) && forall id: JobId :: id in runnable <==> Found(rts, deps, heap0, id)
  {
    forall id: JobId | Found(rts, deps, heap0, id) ensures id in seen {
      var e :| TopOf(heap0, e) && e.job == id;
    }
  }

  // ---------- the order in which they come out ----------

  /** Entry `x` is the live entry of job `a` or behind it in heap order. */
  ghost predicate BehindOrSame(rts: seq<JobRuntime>, deps: seq<DependencyRuntime>, x: ReadyEntry, a: JobId) {
    && |rts| == |deps| && Exists(|rts|, a)
    && (x == LiveEntry(rts[a - 1], deps[a - 1]) || RanksBelow(x, LiveEntry(rts[a - 1], deps[a - 1])))
  }

  ghost predicate InOrder(rts: seq<JobRuntime>, deps: seq<DependencyRuntime>, a: JobId, b: JobId) {
    |rts| == |deps| && Exists(|rts|, b) && BehindOrSame(rts, deps, LiveEntry(rts[b - 1], deps[b - 1]), a)
  }

  /** The jobs in `runnable` are in heap order by their live entries. */
  ghost predicate InHeapOrder(rts: seq<JobRuntime>, deps: seq<DependencyRuntime>, runnable: seq<JobId>) {
    && (forall id :: id in runnable ==> Exists(|rts|, id))
    && forall i, j :: 0 <= i < j < |runnable| ==> InOrder(rts, deps, runnable[i], runnable[j])
  }

  /** The first of two jobs has the higher priority or, at the same priority, the larger time bonus or, at the
      same bonus too, the smaller id. */
  predicate ComesFirst(rts: seq<JobRuntime>, a: JobId, b: JobId) {
    && 1 <= a <= |rts| && 1 <= b <= |rts|
    && var x, y := rts[a - 1], rts[b - 1];
       || x.priority > y.priority
       || (x.priority == y.priority && TimeBonus(x.timeLimit) > TimeBonus(y.timeLimit))
       || (x.priority == y.priority && TimeBonus(x.timeLimit) == TimeBonus(y.timeLimit) && a < b)
  }

  /** Heap order in terms of the jobs. */
  lemma HeapOrderMeans(rts: seq<JobRuntime>, deps: seq<DependencyRuntime>, runnable: seq<JobId>)
    requires InHeapOrder(rts, deps, runnable) && RuntimesOk(rts) && Distinct(runnable)
    ensures forall i, j :: 0 <= i < j < |runnable| ==> ComesFirst(rts, runnable[i], runnable[j])
  {
    hide TimeBonus, RuntimeOk;
    forall i, j | 0 <= i < j < |runnable| ensures ComesFirst(rts, runnable[i], runnable[j]) {
      assert InOrder(rts, deps, runnable[i], runnable[j]);
      assert rts[runnable[i] - 1].id == runnable[i] && rts[runnable[j] - 1].id == runnable[j];
    }
  }

  /** ... and nothing left in `heap` goes before any of them. */
  ghost predicate AheadOfHeap(rts: seq<JobRuntime>, deps: seq<DependencyRuntime>, heap: multiset<ReadyEntry>,
                              runnable: seq<JobId>)
  {
    InHeapOrder(rts, deps, runnable) && forall id, x :: id in runnable && x in heap ==> BehindOrSame(rts, deps, x, id)
  }

  lemma OrderGrows(rts: seq<JobRuntime>, deps: seq<DependencyRuntime>, runnable: seq<JobId>, e: ReadyEntry)
    requires |rts| == |deps| && InHeapOrder(rts, deps, runnable) && Exists(|rts|, e.job)
    requires e == LiveEntry(rts[e.job - 1], deps[e.job - 1])
    requires forall id :: id in runnable ==> BehindOrSame(rts, deps, e, id)
    ensures InHeapOrder(rts, deps, runnable + [e.job])
  {
    hide LiveEntry, BehindOrSame;
    var longer := runnable + [e.job];
    forall id | id in longer ensures Exists(|rts|, id) {
      assert id in runnable || id == e.job;
    }
    forall i, j | 0 <= i < j < |longer| ensures InOrder(rts, deps, longer[i], longer[j]) {
      assert longer[i] in runnable;
    }
  }

  lemma DrainKeepsOrder(rts: seq<JobRuntime>, deps: seq<DependencyRuntime>, heap0: multiset<ReadyEntry>,
                        heap: multiset<ReadyEntry>, runnable: seq<JobId>, e: ReadyEntry)
    requires HeapOk(rts, deps, heap0, 0) && e in heap0 && e in heap
    requires AheadOfHeap(rts, deps, heap, runnable) && forall x :: x in heap ==> x == e || RanksBelow(x, e)
    ensures AheadOfHeap(rts, deps, heap - multiset{e}, if Live(rts, deps, e) then runnable + [e.job] else runnable)
  {
    hide LiveEntry, RanksBelow, InHeapOrder;
    if Live(rts, deps, e) {
      OrderGrows(rts, deps, runnable, e);
    }
  }

  lemma DrainSkips(rts: seq<JobRuntime>, deps: seq<DependencyRuntime>, heap: multiset<ReadyEntry>, runnable: seq<JobId>,
                   e: ReadyEntry)
    requires AheadOfHeap(rts, deps, heap, runnable) && e in heap
    ensures AheadOfHeap(rts, deps, heap - multiset{e}, runnable)
  {
    hide InHeapOrder, BehindOrSame;
  }

  lemma PoppedFrom(rts: seq<JobRuntime>, deps: seq<DependencyRuntime>, heap0: multiset<ReadyEntry>,
                   heap: multiset<ReadyEntry>, seen: set<JobId>, runnable: seq<JobId>, e: ReadyEntry)
    requires Drained(rts, deps, heap0, heap, seen, runnable) && e in heap
    ensures e in heap0
  {
    hide Found;
  }

  lemma NothingDrained(rts: seq<JobRuntime>, deps: seq<DependencyRuntime>, heap: multiset<ReadyEntry>)
    requires |rts| == |deps|
    ensures AheadOfHeap(rts, deps, heap, [])
  {
  }

  lemma AheadMeansOrder(rts: seq<JobRuntime>, deps: seq<DependencyRuntime>, heap: multiset<ReadyEntry>,
                        runnable: seq<JobId>)
    requires AheadOfHeap(rts, deps, heap, runnable)
    ensures InHeapOrder(rts, deps, runnable)
  {
    hide InHeapOrder;
  }

  lemma LiveEntryOnTop(rts: seq<JobRuntime>, deps: seq<DependencyRuntime>, heap: multiset<ReadyEntry>, id: JobId)
    requires HeapOk(rts, deps, heap, 0) && Exists(|rts|, id) && rts[id - 1].id == id
    requires LiveEntry(rts[id - 1], deps[id - 1]) in heap
    ensures TopOf(heap, LiveEntry(rts[id - 1], deps[id - 1])) <==> !OutrankedBy(heap, id, rts[id - 1])
  {
    hide TimeBonus;
    var live := LiveEntry(rts[id - 1], deps[id - 1]);
    if !OutrankedBy(heap, id, rts[id - 1]) {
      forall x | x in heap && x.job == id ensures x == live || RanksBelow(x, live) {
        assert KeyAtMost(x, rts[id - 1].priority, TimeBonus(rts[id - 1].timeLimit));
      }
    }
  }

  /** A job comes out exactly when its live entry is in the heap, its dependencies are satisfied, and
      none of its older entries outranks its present key. */
  lemma FoundExactly(rts: seq<JobRuntime>, deps: seq<DependencyRuntime>, heap: multiset<ReadyEntry>, id: JobId)
    requires HeapOk(rts, deps, heap, 0) && RuntimesOk(rts) && Exists(|rts|, id)
    ensures Found(rts, deps, heap, id) <==>
            && LiveEntry(rts[id - 1], deps[id - 1]) in heap && deps[id - 1].depsSatisfied
            && !OutrankedBy(heap, id, rts[id - 1])
  {
    hide TimeBonus, OutrankedBy, RanksBelow;
    IdsOk(rts, id);
    var live := LiveEntry(rts[id - 1], deps[id - 1]);
    if Found(rts, deps, heap, id) {
      var e :| TopOf(heap, e) && e.job == id && Live(rts, deps, e);
      assert e == live;
    }
    if live in heap {
      LiveEntryOnTop(rts, deps, heap, id);
    }
  }

  /** The jobs that a change of rank hides from the drain. */
  ghost function Hidden(rts: seq<JobRuntime>, heap: multiset<ReadyEntry>): set<JobId> {
    set id: JobId | id <= |rts| && Exists(|rts|, id) && OutrankedBy(heap, id, rts[id - 1])
  }

  lemma NoneHidden(rts: seq<JobRuntime>, heap: multiset<ReadyEntry>)
    requires NoneOutranked(rts, heap)
    ensures Hidden(rts, heap) == {}
  {
    forall id: JobId | Exists(|rts|, id) ensures !OutrankedBy(heap, id, rts[id - 1]) {
      assert forall e :: e in heap && e.job == id ==> Exists(|rts|, e.job);
    }
  }

  /** After a drain the only ready jobs without an entry are those that came out, and the hidden ones. */
  lemma DrainLosesOnlyHidden(specs: seq<JobSpec>, rts: seq<JobRuntime>, deps: seq<DependencyRuntime>,
                             heap: multiset<ReadyEntry>, runnable: seq<JobId>)
    requires |specs| == |rts| == |deps| && HeapOk(rts, deps, heap, 0) && RuntimesOk(rts)
    requires NoneLost(specs, rts, deps, heap, {})
    requires forall id: JobId :: id in runnable <==> Found(rts, deps, heap, id)
    ensures NoneLost(specs, rts, deps, multiset{}, Elements(runnable) + Hidden(rts, heap))
    ensures HeapOk(rts, deps, multiset{}, 0)
  {
    hide Found, OutrankedBy, LiveEntry;
    forall id: JobId | Exists(|rts|, id) && rts[id - 1].state.Queued? && specs[id - 1].scheduledAt.None?
                       && deps[id - 1].depsSatisfied
      ensures id in Elements(runnable) + Hidden(rts, heap)
    {
      FoundExactly(rts, deps, heap, id);
    }
  }
}
