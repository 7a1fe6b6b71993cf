/** The ledger of fair-share credits: which jobs earned what. */
module Ledger {
  import opened Types
  import opened JobInvariants
  import opened FairShare

  function GpuSeconds(gpus: nat, secs: Time): real {
    gpus as real * secs as real
  }

  /** Only a job that is over, ran for some time and held GPUs earns a credit. */
  predicate Earns(rt: JobRuntime) {
    && rt.state.IsFinal() && rt.gpus > 0
    && rt.startedAt.Some? && rt.finishedAt.Some? && rt.startedAt.value < rt.finishedAt.value
  }

  /** The credit that such a job earns its submitter: its GPU-seconds, at the moment it ended. */
  function CreditOf(spec: JobSpec, rt: JobRuntime): Credit
    requires Earns(rt)
  {
    Credit(rt.id, spec.submittedBy, GpuSeconds(rt.gpus, rt.finishedAt.value - rt.startedAt.value), rt.finishedAt.value)
  }

  function CreditFor(spec: JobSpec, rt: JobRuntime, now: Time): (credit: seq<Credit>)
    ensures |credit| <= 1
    ensures rt.state.IsFinal() && rt.finishedAt == Some(now) ==>
              credit == if Earns(rt) then [CreditOf(spec, rt)] else []
  {
    if rt.gpus == 0 || rt.startedAt.None? then []
    else
      var finished := rt.finishedAt.GetOr(now);
      if finished <= rt.startedAt.value then []
      else [Credit(rt.id, spec.submittedBy, GpuSeconds(rt.gpus, finished - rt.startedAt.value), now)]
  }

  ghost predicate HasCredit(credits: seq<Credit>, id: JobId) {
    exists i :: 0 <= i < |credits| && credits[i].job == id
  }

  /** Exactly the jobs that earned a credit have one, each once and of the right amount. Job `skip`
      may still be waiting for its credit. */
  ghost predicate LedgerOk(specs: seq<JobSpec>, rts: seq<JobRuntime>, credits: seq<Credit>, skip: JobId)
    requires |specs| == |rts|
  {
    && (forall i :: 0 <= i < |credits| ==>
          && Exists(|rts|, credits[i].job) && Earns(rts[credits[i].job - 1])
          && credits[i] == CreditOf(specs[credits[i].job - 1], rts[credits[i].job - 1]))
    && (forall i, j :: 0 <= i < j < |credits| ==> credits[i].job != credits[j].job)
    && (forall id: JobId :: Exists(|rts|, id) && id != skip && Earns(rts[id - 1]) ==> HasCredit(credits, id))
  }

  lemma LedgerKept(specs: seq<JobSpec>, rts0: seq<JobRuntime>, rts1: seq<JobRuntime>, credits: seq<Credit>,
                   skip0: JobId, skip: JobId)
    requires |specs| == |rts0| == |rts1| && LedgerOk(specs, rts0, credits, skip0)
    requires forall id: JobId :: Exists(|rts0|, id) && Earns(rts0[id - 1]) ==>
               Earns(rts1[id - 1]) && CreditOf(specs[id - 1], rts1[id - 1]) == CreditOf(specs[id - 1], rts0[id - 1])
    requires forall id: JobId :: Exists(|rts0|, id) && id != skip && Earns(rts1[id - 1]) ==>
               Earns(rts0[id - 1]) && id != skip0
    ensures LedgerOk(specs, rts1, credits, skip)
  {
  }

  lemma LedgerGrows(specs: seq<JobSpec>, rts: seq<JobRuntime>, credits: seq<Credit>, id: JobId)
    requires |specs| == |rts| && LedgerOk(specs, rts, credits, id) && Exists(|rts|, id) && rts[id - 1].id == id
    requires Earns(rts[id - 1]) && !HasCredit(credits, id)
    ensures LedgerOk(specs, rts, credits + [CreditOf(specs[id - 1], rts[id - 1])], 0)
  {
    hide Earns, GpuSeconds;
    var after := credits + [CreditOf(specs[id - 1], rts[id - 1])];
    forall j: JobId | Exists(|rts|, j) && Earns(rts[j - 1]) ensures HasCredit(after, j) {
      if j == id {
        assert after[|credits|].job == id;
      } else {
        assert HasCredit(credits, j);
        var i :| 0 <= i < |credits| && credits[i].job == j;
        assert after[i].job == j;
      }
    }
  }

  lemma CreditKeepsLedger(specs: seq<JobSpec>, rts: seq<JobRuntime>, credits: seq<Credit>, id: JobId, now: Time)
    requires |specs| == |rts| && LedgerOk(specs, rts, credits, id) && Exists(|rts|, id) && rts[id - 1].id == id
    requires rts[id - 1].state.IsFinal() && rts[id - 1].finishedAt == Some(now) && !HasCredit(credits, id)
    ensures LedgerOk(specs, rts, credits + CreditFor(specs[id - 1], rts[id - 1], now), 0)
  {
    hide CreditFor, HasCredit, Earns, CreditOf;
    if Earns(rts[id - 1]) {
      LedgerGrows(specs, rts, credits, id);
    } else {
      assert credits + [] == credits;
    }
  }

  /** What a transition earns the job's submitter. */
  function Earned(specs: seq<JobSpec>, rts: seq<JobRuntime>, id: JobId, next: JobState, reason: Option<Reason>,
                  now: Time): seq<Credit>
    requires |specs| == |rts| && Exists(|rts|, id)
  {
    if next.IsFinal() then CreditFor(specs[id - 1], Moved(rts[id - 1], next, reason, now), now) else []
  }

  ghost predicate Credited(specs: seq<JobSpec>, rts: seq<JobRuntime>, before: seq<Credit>, after: seq<Credit>,
                           id: JobId, next: JobState, reason: Option<Reason>, now: Time)
  {
    |specs| == |rts| && Exists(|rts|, id) && after == before + Earned(specs, rts, id, next, reason, now)
  }

  lemma NeverRanEarnsNothing(specs: seq<JobSpec>, rts: seq<JobRuntime>, id: JobId, next: JobState,
                             reason: Option<Reason>, now: Time)
    requires |specs| == |rts| && Exists(|rts|, id) && RuntimesOk(rts) && rts[id - 1].state.IsPending()
    requires !next.Running?
    ensures forall c0, c1 :: Credited(specs, rts, c0, c1, id, next, reason, now) ==> c1 == c0
  {
  }

  /** Credits made in time order up to `t`. */
  ghost predicate Punctual(credits: seq<Credit>, t: Time) {
    InTimeOrder(credits) && AllBy(credits, t)
  }

  lemma CreditedPunctually(specs: seq<JobSpec>, rts: seq<JobRuntime>, before: seq<Credit>, after: seq<Credit>,
                           id: JobId, next: JobState, reason: Option<Reason>, t: Time, now: Time)
    requires Credited(specs, rts, before, after, id, next, reason, now) && Punctual(before, t) && t <= now
    ensures Punctual(after, now)
  {
  }

  // ---------- the history of the jobs themselves ----------

  /** What one job adds to its submitter's usage as of `t`, if it ran and is over: the GPUs it asked for times
      the seconds it ran, decayed since it ended. */
  ghost function Contribution(spec: JobSpec, rt: JobRuntime, user: string, t: Time, d: Decay): real {
    if (rt.state.Finished? || rt.state.Failed? || rt.state.Cancelled? || rt.state.Timeout?) && spec.submittedBy == user
       && rt.startedAt.Some? && rt.finishedAt.Some? && rt.startedAt.value <= rt.finishedAt.value <= t
    then rt.gpus as real * (rt.finishedAt.value - rt.startedAt.value) as real * d.factor(t - rt.finishedAt.value)
    else 0.0
  }

  /** The contributions of those of the first `n` jobs whose ids are in `ids`. */
  ghost function JobsHistory(specs: seq<JobSpec>, rts: seq<JobRuntime>, ids: set<JobId>, n: nat, user: string, t: Time,
                             d: Decay): real
    requires |specs| == |rts| && n <= |rts|
  {
    if n == 0 then 0.0
    else JobsHistory(specs, rts, ids, n - 1, user, t, d)
         + if n in ids then Contribution(specs[n - 1], rts[n - 1], user, t, d) else 0.0
  }

  lemma {:induction false} TakeOut(specs: seq<JobSpec>, rts: seq<JobRuntime>, ids: set<JobId>, n: nat, user: string,
                                   t: Time, d: Decay, id: JobId)
    requires |specs| == |rts| && n <= |rts| && id in ids && 1 <= id
    ensures JobsHistory(specs, rts, ids, n, user, t, d) ==
            JobsHistory(specs, rts, ids - {id}, n, user, t, d)
            + if id <= n then Contribution(specs[id - 1], rts[id - 1], user, t, d) else 0.0
  {
    hide Contribution;
    if n == 0 {
    } else {
      TakeOut(specs, rts, ids, n - 1, user, t, d, id);
    }
  }

  ghost function CreditedJobs(credits: seq<Credit>): set<JobId> {
    set i | 0 <= i < |credits| :: credits[i].job
  }

  lemma {:induction false} CreditsAreJobs(specs: seq<JobSpec>, rts: seq<JobRuntime>, credits: seq<Credit>,
                                          user: string, t: Time, d: Decay)
    requires |specs| == |rts|
    requires forall i :: 0 <= i < |credits| ==>
               && Exists(|rts|, credits[i].job) && Earns(rts[credits[i].job - 1])
               && credits[i] == CreditOf(specs[credits[i].job - 1], rts[credits[i].job - 1])
    requires forall i, j :: 0 <= i < j < |credits| ==> credits[i].job != credits[j].job
    ensures History(credits, user, t, d) == JobsHistory(specs, rts, CreditedJobs(credits), |rts|, user, t, d)
  {
    hide GpuSeconds, Earns, Contribution;
    if credits == [] {
      NobodyContributes(specs, rts, CreditedJobs(credits), |rts|, user, t, d);
    } else {
      var front, c := credits[..|credits| - 1], credits[|credits| - 1];
      CreditsAreJobs(specs, rts, front, user, t, d);
      LastCredited(credits);
      TakeOut(specs, rts, CreditedJobs(credits), |rts|, user, t, d, c.job);
      CreditIsContribution(specs[c.job - 1], rts[c.job - 1], user, t, d);
    }
  }

  lemma CreditIsContribution(spec: JobSpec, rt: JobRuntime, user: string, t: Time, d: Decay)
    requires Earns(rt)
    ensures var c := CreditOf(spec, rt);
            Contribution(spec, rt, user, t, d) ==
            if c.user == user && c.at <= t then c.amount * d.factor(t - c.at) else 0.0
  {
  }

  lemma LastCredited(credits: seq<Credit>)
    requires credits != [] && forall i, j :: 0 <= i < j < |credits| ==> credits[i].job != credits[j].job
    ensures var front, last := credits[..|credits| - 1], credits[|credits| - 1].job;
            last in CreditedJobs(credits) && CreditedJobs(front) == CreditedJobs(credits) - {last}
  {
    var front, last := credits[..|credits| - 1], credits[|credits| - 1].job;
    forall id ensures id in CreditedJobs(front) <==> id in CreditedJobs(credits) - {last} {
      if id in CreditedJobs(credits) - {last} {
        var i :| 0 <= i < |credits| && credits[i].job == id;
        assert front[i].job == id;
      }
      if id in CreditedJobs(front) {
        var i :| 0 <= i < |front| && front[i].job == id;
        assert credits[i].job == id;
      }
    }
    assert credits[|credits| - 1].job == last;
  }

  lemma {:induction false} NobodyContributes(specs: seq<JobSpec>, rts: seq<JobRuntime>, ids: set<JobId>, n: nat,
                                             user: string, t: Time, d: Decay)
    requires |specs| == |rts| && n <= |rts| && ids == {}
    ensures JobsHistory(specs, rts, ids, n, user, t, d) == 0.0
  {
    if n == 0 {
    } else {
      NobodyContributes(specs, rts, ids, n - 1, user, t, d);
    }
  }

  /** A job that earned nothing held no GPUs, did not run, or is not over. */
  lemma NothingContributed(spec: JobSpec, rt: JobRuntime, user: string, t: Time, d: Decay)
    requires !Earns(rt)
    ensures Contribution(spec, rt, user, t, d) == 0.0
  {
    if rt.startedAt.Some? && rt.finishedAt.Some? && rt.startedAt.value <= rt.finishedAt.value <= t {
      var gpus, secs, f := rt.gpus as real, (rt.finishedAt.value - rt.startedAt.value) as real,
        d.factor(t - rt.finishedAt.value);
      if rt.gpus == 0 || rt.startedAt.value == rt.finishedAt.value {
        assert gpus == 0.0 || secs == 0.0;
        assert gpus * secs == 0.0;
        assert gpus * secs * f == 0.0;
      }
    }
  }

  /** Only jobs that earned something contribute, so leaving out the others makes no difference. */
  lemma {:induction false} EarnersAreAll(specs: seq<JobSpec>, rts: seq<JobRuntime>, ids: set<JobId>, all: set<JobId>,
                                         n: nat,
                                         user: string, t: Time, d: Decay)
    requires |specs| == |rts| && n <= |rts|
    requires forall id: JobId :: Exists(|rts|, id) ==> id in all && (Earns(rts[id - 1]) ==> id in ids)
    ensures JobsHistory(specs, rts, ids, n, user, t, d) == JobsHistory(specs, rts, all, n, user, t, d)
  {
    hide Contribution, Earns;
    if n == 0 {
    } else {
      EarnersAreAll(specs, rts, ids, all, n - 1, user, t, d);
      if n !in ids {
        NothingContributed(specs[n - 1], rts[n - 1], user, t, d);
      }
      assert Exists(|rts|, n);
    }
  }

  ghost function AllJobs(n: nat): set<JobId> {
    set id: JobId | id <= n && Exists(n, id)
  }

  /** The ledger's history is the jobs' own: each job that ran and is over counts once, for its GPU-seconds
      decayed since it ended. */
  lemma LedgerIsJobsHistory(specs: seq<JobSpec>, rts: seq<JobRuntime>, credits: seq<Credit>, user: string, t: Time,
                            d: Decay)
    requires |specs| == |rts| && LedgerOk(specs, rts, credits, 0)
    ensures History(credits, user, t, d) == JobsHistory(specs, rts, AllJobs(|rts|), |rts|, user, t, d)
  {
    CreditsAreJobs(specs, rts, credits, user, t, d);
    forall id: JobId | Exists(|rts|, id) && Earns(rts[id - 1]) ensures id in CreditedJobs(credits) {
      assert HasCredit(credits, id);
    }
    EarnersAreAll(specs, rts, CreditedJobs(credits), AllJobs(|rts|), |rts|, user, t, d);
  }
}
