/** Per-key running totals: how many jobs and how many GPUs each group, user or project has running. */
module Tally {
  import opened Types
  import opened Counting

  datatype QuotaUsage = QuotaUsage(jobs: nat, gpus: nat)

  /** What job `id` adds to the totals: nothing, or one job and its GPUs under some key. */
  type Shares<K> = seq<Option<(K, nat)>>

  ghost function JobWeights<K>(shares: Shares<K>, k: K): (w: seq<nat>)
    ensures |w| == |shares|
  {
    seq(|shares|, i requires 0 <= i < |shares| =>
      if shares[i].Some? && shares[i].value.0 == k then 1 else 0)
  }

  ghost function GpuWeights<K>(shares: Shares<K>, k: K): (w: seq<nat>)
    ensures |w| == |shares|
  {
    seq(|shares|, i requires 0 <= i < |shares| =>
      if shares[i].Some? && shares[i].value.0 == k then shares[i].value.1 else 0)
  }

  ghost function Usage<K>(shares: Shares<K>, k: K): QuotaUsage {
    QuotaUsage(Sum(JobWeights(shares, k)), Sum(GpuWeights(shares, k)))
  }

  function UsageAt<K(==)>(m: map<K, QuotaUsage>, k: K): QuotaUsage {
    if k in m then m[k] else QuotaUsage(0, 0)
  }

  function CountAt<K(==)>(m: map<K, nat>, k: K): nat {
    if k in m then m[k] else 0
  }

  /** `m` holds exactly the keys with something running, each with its true totals. */
  ghost predicate Tallies<K(!new)>(m: map<K, QuotaUsage>, shares: Shares<K>) {
    && (forall k :: UsageAt(m, k) == Usage(shares, k))
    && (forall k :: k in m ==> m[k].jobs > 0)
  }

  ghost predicate Counts<K(!new)>(m: map<K, nat>, shares: Shares<K>) {
    && (forall k :: CountAt(m, k) == Usage(shares, k).jobs)
    && (forall k :: k in m ==> m[k] > 0)
  }

  lemma UsageEnter<K>(shares: Shares<K>, i: nat, key: K, gpus: nat, k: K)
    requires i < |shares| && shares[i].None?
    ensures Usage(shares[i := Some((key, gpus))], k) ==
            if k == key then QuotaUsage(Usage(shares, k).jobs + 1, Usage(shares, k).gpus + gpus)
            else Usage(shares, k)
  {
    var next := shares[i := Some((key, gpus))];
    var job, gpu := if k == key then 1 else 0, if k == key then gpus else 0;
    assert JobWeights(next, k) == JobWeights(shares, k)[i := job];
    assert GpuWeights(next, k) == GpuWeights(shares, k)[i := gpu];
    SumUpdate(JobWeights(shares, k), i, job);
    SumUpdate(GpuWeights(shares, k), i, gpu);
  }

  lemma UsageLeave<K>(shares: Shares<K>, i: nat, k: K)
    requires i < |shares| && shares[i].Some?
    ensures Usage(shares, k) ==
            if k == shares[i].value.0
            then QuotaUsage(Usage(shares[i := None], k).jobs + 1,
                            Usage(shares[i := None], k).gpus + shares[i].value.1)
            else Usage(shares[i := None], k)
  {
    assert shares[i := None][i := shares[i]] == shares;
    UsageEnter(shares[i := None], i, shares[i].value.0, shares[i].value.1, k);
  }

  lemma UsageExtend<K>(shares: Shares<K>, k: K)
    ensures Usage(shares + [None], k) == Usage(shares, k)
  {
    assert JobWeights(shares + [None], k) == JobWeights(shares, k) + [0];
    assert GpuWeights(shares + [None], k) == GpuWeights(shares, k) + [0];
    SumAppend(JobWeights(shares, k), 0);
    SumAppend(GpuWeights(shares, k), 0);
  }

  lemma UsageNoJobsNoGpus<K>(shares: Shares<K>, k: K)
    requires Usage(shares, k).jobs == 0
    ensures Usage(shares, k).gpus == 0
  {
    SumZero(JobWeights(shares, k));
    SumZero(GpuWeights(shares, k));
    forall i | 0 <= i < |shares| ensures GpuWeights(shares, k)[i] == 0 {
      assert JobWeights(shares, k)[i] == 0;
    }
  }

  /** The totals shrink when shares are withdrawn. */
  lemma UsageMono<K>(a: Shares<K>, b: Shares<K>, k: K)
    requires |a| <= |b|
    requires forall i :: 0 <= i < |a| && a[i].Some? ==> a[i] == b[i]
    ensures Usage(a, k).jobs <= Usage(b, k).jobs && Usage(a, k).gpus <= Usage(b, k).gpus
  {
    SumMono(JobWeights(a, k), JobWeights(b, k));
    SumMono(GpuWeights(a, k), GpuWeights(b, k));
  }

  /** The shares determine the table completely. */
  lemma TalliesUnique<K(!new)>(a: map<K, QuotaUsage>, b: map<K, QuotaUsage>, shares: Shares<K>)
    requires Tallies(a, shares) && Tallies(b, shares)
    ensures a == b
  {
    forall k | k in a ensures k in b {
      assert UsageAt(a, k) == UsageAt(b, k);
    }
    forall k | k in b ensures k in a {
      assert UsageAt(a, k) == UsageAt(b, k);
    }
    forall k | k in a ensures a[k] == b[k] {
      assert UsageAt(a, k) == UsageAt(b, k);
    }
    assert a.Keys == b.Keys;
  }

  lemma CountsUnique<K(!new)>(a: map<K, nat>, b: map<K, nat>, shares: Shares<K>)
    requires Counts(a, shares) && Counts(b, shares)
    ensures a == b
  {
    forall k | k in a ensures k in b {
      assert CountAt(a, k) == CountAt(b, k);
    }
    forall k | k in b ensures k in a {
      assert CountAt(a, k) == CountAt(b, k);
    }
    forall k | k in a ensures a[k] == b[k] {
      assert CountAt(a, k) == CountAt(b, k);
    }
    assert a.Keys == b.Keys;
  }

  function RecordOne<K(==)>(m: map<K, QuotaUsage>, k: K, gpus: nat): map<K, QuotaUsage> {
    m[k := QuotaUsage(UsageAt(m, k).jobs + 1, UsageAt(m, k).gpus + gpus)]
  }

  function SaturatingSub(a: nat, b: nat): nat {
    if a < b then 0 else a - b
  }

  function ReleaseOne<K(==)>(m: map<K, QuotaUsage>, k: K, gpus: nat): map<K, QuotaUsage> {
    if k !in m then m
    else
      var left := QuotaUsage(SaturatingSub(m[k].jobs, 1), SaturatingSub(m[k].gpus, gpus));
      if left == QuotaUsage(0, 0) then m - {k} else m[k := left]
  }

  lemma RecordTallies<K(!new)>(m: map<K, QuotaUsage>, shares: Shares<K>, i: nat, key: K, gpus: nat)
    requires Tallies(m, shares) && i < |shares| && shares[i].None?
    ensures Tallies(RecordOne(m, key, gpus), shares[i := Some((key, gpus))])
  {
    forall k ensures UsageAt(RecordOne(m, key, gpus), k) == Usage(shares[i := Some((key, gpus))], k) {
      UsageEnter(shares, i, key, gpus, k);
    }
  }

  lemma ReleaseTallies<K(!new)>(m: map<K, QuotaUsage>, shares: Shares<K>, i: nat)
    requires Tallies(m, shares) && i < |shares| && shares[i].Some?
    ensures Tallies(ReleaseOne(m, shares[i].value.0, shares[i].value.1), shares[i := None])
  {
    var key, gpus := shares[i].value.0, shares[i].value.1;
    var m' := ReleaseOne(m, key, gpus);
    UsageLeave(shares, i, key);
    assert UsageAt(m, key) == Usage(shares, key);
    if Usage(shares[i := None], key).jobs == 0 {
      UsageNoJobsNoGpus(shares[i := None], key);
    }
    forall k ensures UsageAt(m', k) == Usage(shares[i := None], k) {
      UsageLeave(shares, i, k);
      assert UsageAt(m, k) == Usage(shares, k);
    }
  }

  lemma RecordCounts<K(!new)>(m: map<K, nat>, shares: Shares<K>, i: nat, key: K, gpus: nat)
    requires Counts(m, shares) && i < |shares| && shares[i].None?
    ensures Counts(m[key := CountAt(m, key) + 1], shares[i := Some((key, gpus))])
  {
    var m', shares' := m[key := CountAt(m, key) + 1], shares[i := Some((key, gpus))];
    forall k ensures CountAt(m', k) == Usage(shares', k).jobs {
      UsageEnter(shares, i, key, gpus, k);
    }
  }

  function ReleaseCount<K(==)>(m: map<K, nat>, k: K): map<K, nat> {
    if k !in m then m
    else if SaturatingSub(m[k], 1) == 0 then m - {k}
    else m[k := SaturatingSub(m[k], 1)]
  }

  lemma ReleaseCounts<K(!new)>(m: map<K, nat>, shares: Shares<K>, i: nat)
    requires Counts(m, shares) && i < |shares| && shares[i].Some?
    ensures Counts(ReleaseCount(m, shares[i].value.0), shares[i := None])
  {
    var m', shares' := ReleaseCount(m, shares[i].value.0), shares[i := None];
    forall k ensures CountAt(m', k) == Usage(shares', k).jobs {
      UsageLeave(shares, i, k);
      assert CountAt(m, k) == Usage(shares, k).jobs;
    }
  }

  lemma TalliesExtend<K(!new)>(m: map<K, QuotaUsage>, shares: Shares<K>)
    requires Tallies(m, shares)
    ensures Tallies(m, shares + [None])
  {
    forall k ensures UsageAt(m, k) == Usage(shares + [None], k) {
      UsageExtend(shares, k);
    }
  }

  lemma CountsExtend<K(!new)>(m: map<K, nat>, shares: Shares<K>)
    requires Counts(m, shares)
    ensures Counts(m, shares + [None])
  {
    forall k ensures CountAt(m, k) == Usage(shares + [None], k).jobs {
      UsageExtend(shares, k);
    }
  }
}
