/** Quota configuration: a baseline, overrides on top of it, and the limits that result. */
module Quotas {
  import opened Types
  import opened PlainTerms
  import opened Tally

  datatype QuotaLimits = QuotaLimits(maxRunningJobs: Option<nat>, maxRunningGpus: Option<nat>,
                                     maxQueuedJobs: Option<nat>) {
    /** Field by field, what `other` sets wins. */
    function MergedWith(other: QuotaLimits): QuotaLimits {
      QuotaLimits(Or(other.maxRunningJobs, maxRunningJobs),
                  Or(other.maxRunningGpus, maxRunningGpus),
                  Or(other.maxQueuedJobs, maxQueuedJobs))
    }
  }

  function Or<T>(a: Option<T>, b: Option<T>): Option<T> {
    if a.Some? then a else b
  }

  const NO_LIMITS := QuotaLimits(None, None, None)

  function Named(m: map<string, QuotaLimits>, name: string): QuotaLimits {
    if name in m then m[name] else NO_LIMITS
  }

  datatype QuotaConfig = QuotaConfig(
    defaultUser: QuotaLimits,
    defaultProject: QuotaLimits,
    users: map<string, QuotaLimits>,
    projects: map<string, QuotaLimits>
  ) {
    function UserLimits(user: string): QuotaLimits {
      if user in users then defaultUser.MergedWith(users[user]) else defaultUser
    }

    /** Jobs without a project have no project quota. */
    function ProjectLimits(project: Option<string>): Option<QuotaLimits> {
      if project.None? then None
      else if project.value in projects then Some(defaultProject.MergedWith(projects[project.value]))
      else Some(defaultProject)
    }
  }

  /** The table with all of `other` merged in. */
  ghost function MergedEntries(m: map<string, QuotaLimits>, other: map<string, QuotaLimits>): map<string, QuotaLimits> {
    map name | name in m.Keys + other.Keys ::
      if name !in other then m[name] else if name in m then m[name].MergedWith(other[name]) else other[name]
  }

  /** The loop that merges one entry at a time, in whatever order. */
  method MergeEntries(m: map<string, QuotaLimits>, other: map<string, QuotaLimits>) returns (merged: map<string,
                                                                                             QuotaLimits>)
    ensures merged == MergedEntries(m, other)
  {
    merged := m;
    var todo := other.Keys;
    while todo != {}
      invariant todo <= other.Keys
      invariant merged.Keys == m.Keys + (other.Keys - todo)
      invariant forall name :: name in merged ==>
                  merged[name] == if name in todo || name !in other then m[name]
                                  else if name in m then m[name].MergedWith(other[name]) else other[name]
    {
      var name :| name in todo;
      merged := merged[name := if name in merged then merged[name].MergedWith(other[name]) else other[name]];
      todo := todo - {name};
    }
  }

  ghost function Merged(base: QuotaConfig, over: QuotaConfig): QuotaConfig {
    QuotaConfig(base.defaultUser.MergedWith(over.defaultUser), base.defaultProject.MergedWith(over.defaultProject),
                MergedEntries(base.users, over.users), MergedEntries(base.projects, over.projects))
  }

  method MergeConfigs(base: QuotaConfig, over: QuotaConfig) returns (merged: QuotaConfig)
    ensures merged == Merged(base, over)
  {
    var users := MergeEntries(base.users, over.users);
    var projects := MergeEntries(base.projects, over.projects);
    return QuotaConfig(base.defaultUser.MergedWith(over.defaultUser),
                       base.defaultProject.MergedWith(over.defaultProject),
                       users, projects);
  }

  /** Field by field, `limits` is what the first of four sources that sets the field says. */
  ghost predicate InOrder(limits: QuotaLimits, first: QuotaLimits, second: QuotaLimits, third: QuotaLimits,
                          fourth: QuotaLimits) {
    && FirstSet(limits.maxRunningJobs, first.maxRunningJobs, second.maxRunningJobs, third.maxRunningJobs,
                fourth.maxRunningJobs)
    && FirstSet(limits.maxRunningGpus, first.maxRunningGpus, second.maxRunningGpus, third.maxRunningGpus,
                fourth.maxRunningGpus)
    && FirstSet(limits.maxQueuedJobs, first.maxQueuedJobs, second.maxQueuedJobs, third.maxQueuedJobs,
                fourth.maxQueuedJobs)
  }

  /** The first of four sources that limits the number of running jobs limits it to `n`. */
  ghost predicate JobLimit(n: nat, first: QuotaLimits, second: QuotaLimits, third: QuotaLimits, fourth: QuotaLimits) {
    FirstSet(Some(n), first.maxRunningJobs, second.maxRunningJobs, third.maxRunningJobs, fourth.maxRunningJobs)
  }

  /** The same for the number of GPUs that running jobs hold. */
  ghost predicate GpuLimit(n: nat, first: QuotaLimits, second: QuotaLimits, third: QuotaLimits, fourth: QuotaLimits) {
    FirstSet(Some(n), first.maxRunningGpus, second.maxRunningGpus, third.maxRunningGpus, fourth.maxRunningGpus)
  }

  /** Merging the tables first and applying the default afterwards gives, field by field: the named
      override, else the named baseline entry, else the override default, else the baseline default. */
  lemma Precedence(base: QuotaConfig, over: QuotaConfig, name: string)
    ensures InOrder(Merged(base, over).UserLimits(name), Named(over.users, name), Named(base.users, name),
                    over.defaultUser, base.defaultUser)
    ensures Merged(base, over).ProjectLimits(Some(name)).Some?
    ensures InOrder(Merged(base, over).ProjectLimits(Some(name)).value, Named(over.projects, name),
                    Named(base.projects, name), over.defaultProject, base.defaultProject)
    ensures Merged(base, over).ProjectLimits(None) == None
  {
    assert name in Merged(base, over).users <==> name in base.users || name in over.users;
    assert name in Merged(base, over).projects <==> name in base.projects || name in over.projects;
  }

  // ---------- staying within limits ----------

  /** One more job asking for `gpus` GPUs would still be within the limits. */
  predicate RoomFor(limits: QuotaLimits, usage: QuotaUsage, gpus: nat) {
    && (limits.maxRunningJobs.Some? ==> usage.jobs < limits.maxRunningJobs.value)
    && (limits.maxRunningGpus.Some? ==> usage.gpus + gpus <= limits.maxRunningGpus.value)
  }

  predicate Within(limits: QuotaLimits, usage: QuotaUsage) {
    && (limits.maxRunningJobs.Some? ==> usage.jobs <= limits.maxRunningJobs.value)
    && (limits.maxRunningGpus.Some? ==> usage.gpus <= limits.maxRunningGpus.value)
  }
  /** Room under a user's effective limits is room under whatever source sets them. */
  lemma UserRoom(base: QuotaConfig, over: QuotaConfig, user: string, usage: QuotaUsage, gpus: nat)
    ensures RoomFor(Merged(base, over).UserLimits(user), usage, gpus) <==>
              && (forall n: nat ::
                    JobLimit(n, Named(over.users, user), Named(base.users, user), over.defaultUser,
                             base.defaultUser) ==>
                      usage.jobs + 1 <= n)
              && (forall n: nat ::
                    GpuLimit(n, Named(over.users, user), Named(base.users, user), over.defaultUser,
                             base.defaultUser) ==>
                      usage.gpus + gpus <= n)
  {
    hide Merged, Named, InOrder;
    Precedence(base, over, user);
    RoomUnder(Merged(base, over).UserLimits(user), Named(over.users, user), Named(base.users, user), over.defaultUser,
              base.defaultUser, usage, gpus);
  }

  /** The same for a project. */
  lemma ProjectRoom(base: QuotaConfig, over: QuotaConfig, project: string, usage: QuotaUsage, gpus: nat)
    ensures Merged(base, over).ProjectLimits(Some(project)).Some?
    ensures RoomFor(Merged(base, over).ProjectLimits(Some(project)).value, usage, gpus) <==>
              && (forall n: nat ::
                    JobLimit(n, Named(over.projects, project), Named(base.projects, project), over.defaultProject,
                             base.defaultProject) ==>
                      usage.jobs + 1 <= n)
              && (forall n: nat ::
                    GpuLimit(n, Named(over.projects, project), Named(base.projects, project), over.defaultProject,
                             base.defaultProject) ==>
                      usage.gpus + gpus <= n)
  {
    hide Merged, Named, InOrder;
    Precedence(base, over, project);
    RoomUnder(Merged(base, over).ProjectLimits(Some(project)).value, Named(over.projects, project),
              Named(base.projects, project), over.defaultProject, base.defaultProject, usage, gpus);
  }

  lemma RoomUnder(limits: QuotaLimits, a: QuotaLimits, b: QuotaLimits, c: QuotaLimits, d: QuotaLimits,
                  usage: QuotaUsage, gpus: nat)
    requires InOrder(limits, a, b, c, d)
    ensures RoomFor(limits, usage, gpus) <==>
              (forall n: nat :: JobLimit(n, a, b, c, d) ==> usage.jobs + 1 <= n)
              && (forall n: nat :: GpuLimit(n, a, b, c, d) ==> usage.gpus + gpus <= n)
  {
    if limits.maxRunningJobs.Some? {
      assert JobLimit(limits.maxRunningJobs.value, a, b, c, d);
    }
    if limits.maxRunningGpus.Some? {
      assert GpuLimit(limits.maxRunningGpus.value, a, b, c, d);
    }
  }
}
