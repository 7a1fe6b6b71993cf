/** The dependency graph: paths, the depth-first reachability check, and what keeps it free of cycles. */
module CycleCheck {
  import opened Types
  import opened Dependencies

  /** A walk along dependency edges, from dependent to dependency. */
  ghost predicate Path(specs: seq<JobSpec>, p: seq<JobId>) {
    p != [] && forall i :: 0 <= i < |p| - 1 ==> DependsOn(specs, p[i], p[i + 1])
  }

  ghost predicate PathFrom(specs: seq<JobSpec>, p: seq<JobId>, a: JobId, b: JobId) {
    Path(specs, p) && p[0] == a && p[|p| - 1] == b
  }

  /** `b` is `a` itself or one of its direct or indirect dependencies. */
  ghost predicate Reaches(specs: seq<JobSpec>, a: JobId, b: JobId) {
    exists p :: PathFrom(specs, p, a, b)
  }

  /** No job depends on itself, directly or indirectly. */
  ghost predicate Acyclic(specs: seq<JobSpec>) {
    forall p :: Path(specs, p) && |p| > 1 ==> p[0] != p[|p| - 1]
  }

  ghost predicate ClosedFrom(specs: seq<JobSpec>, nodes: set<JobId>, seen: set<JobId>) {
    forall a: JobId, d: JobId :: a in nodes && DependsOn(specs, a, d) ==> d in seen
  }

  lemma ReachesItself(specs: seq<JobSpec>, a: JobId)
    ensures Reaches(specs, a, a)
  {
    assert PathFrom(specs, [a], a, a);
  }

  lemma ReachesStep(specs: seq<JobSpec>, a: JobId, d: JobId, b: JobId)
    requires DependsOn(specs, a, d) && Reaches(specs, d, b)
    ensures Reaches(specs, a, b)
  {
    var p :| PathFrom(specs, p, d, b);
    assert PathFrom(specs, [a] + p, a, b);
  }

  /** A set closed under dependencies is never left. */
  lemma {:induction false} NeverLeaves(specs: seq<JobSpec>, nodes: set<JobId>, p: seq<JobId>)
    requires ClosedFrom(specs, nodes, nodes) && Path(specs, p) && p[0] in nodes
    ensures p[|p| - 1] in nodes
  {
    if |p| > 1 {
      assert DependsOn(specs, p[0], p[1]);
      assert Path(specs, p[1..]) by {
        forall i | 0 <= i < |p[1..]| - 1 ensures DependsOn(specs, p[1..][i], p[1..][i + 1]) {
          assert DependsOn(specs, p[i + 1], p[i + 2]);
        }
      }
      NeverLeaves(specs, nodes, p[1..]);
    }
  }

  lemma ClosedGrows(specs: seq<JobSpec>, visited: set<JobId>, before: set<JobId>, after: set<JobId>, current: JobId)
    requires visited + {current} <= before <= after
    requires ClosedFrom(specs, before - visited - {current}, before) && ClosedFrom(specs, after - before, after)
    ensures ClosedFrom(specs, after - visited - {current}, after)
  {
    forall a: JobId, d: JobId | a in after - visited - {current} && DependsOn(specs, a, d) ensures d in after {
      assert a in before - visited - {current} || a in after - before;
    }
  }

  lemma ClosedDone(specs: seq<JobSpec>, visited: set<JobId>, after: set<JobId>, current: JobId)
    requires ClosedFrom(specs, after - visited - {current}, after)
    requires forall d: JobId :: DependsOn(specs, current, d) ==> d in after
    ensures ClosedFrom(specs, after - visited, after)
  {
    forall a: JobId, d: JobId | a in after - visited && DependsOn(specs, a, d) ensures d in after {
      assert a == current || a in after - visited - {current};
    }
  }

  lemma NothingIsClosed(specs: seq<JobSpec>, nodes: set<JobId>, seen: set<JobId>)
    requires nodes == {}
    ensures ClosedFrom(specs, nodes, seen)
  {
  }

  lemma ClosedInside(specs: seq<JobSpec>, jobs: set<JobId>, a: JobId, d: JobId)
    requires ClosedFrom(specs, jobs, jobs) && a in jobs && DependsOn(specs, a, d)
    ensures d in jobs
  {
  }

  /** The recursive search. `visited` is shared by all branches: a branch that finds nothing leaves
      behind only jobs whose dependencies have all been looked at. */
  method HasPathDfs(specs: seq<JobSpec>, current: JobId, target: JobId, visited: set<JobId>, ghost jobs: set<JobId>)
    returns (found: bool, visited': set<JobId>)
    requires current in jobs && ClosedFrom(specs, jobs, jobs)
    ensures found ==> Reaches(specs, current, target)
    ensures !found ==> visited + {current} <= visited' && target !in visited' - visited
    ensures !found ==> ClosedFrom(specs, visited' - visited, visited')
    ensures !found && current !in visited ==> current != target
    decreases jobs - visited
  {
    hide ClosedFrom, Reaches;
    if current == target {
      ReachesItself(specs, current);
      return true, visited;
    }
    if current in visited {
      NothingIsClosed(specs, visited - visited, visited);
      return false, visited;
    }
    visited' := visited + {current};
    NothingIsClosed(specs, visited' - visited - {current}, visited');
    var neighbors := if Exists(|specs|, current) then specs[current - 1].Dependencies() else [];
    for i := 0 to |neighbors|
      invariant visited + {current} <= visited' && target !in visited' - visited
      invariant ClosedFrom(specs, visited' - visited - {current}, visited')
      invariant forall k :: 0 <= k < i ==> neighbors[k] in visited'
    {
      assert DependsOn(specs, current, neighbors[i]);
      ClosedInside(specs, jobs, current, neighbors[i]);
      ghost var before := visited';
      found, visited' := HasPathDfs(specs, neighbors[i], target, visited', jobs);
      if found {
        ReachesStep(specs, current, neighbors[i], target);
        return;
      }
      ClosedGrows(specs, visited, before, visited', current);
    }
    ClosedDone(specs, visited, visited', current);
    return false, visited';
  }

  /** All job ids a search can meet. */
  ghost function Vicinity(specs: seq<JobSpec>, start: JobId): (jobs: set<JobId>)
    ensures start in jobs && ClosedFrom(specs, jobs, jobs)
  {
    {start} + set i, d | 0 <= i < |specs| && d in specs[i].Dependencies() :: d
  }

  /** From nothing visited, the search succeeds exactly when the target is reachable. */
  method HasPath(specs: seq<JobSpec>, current: JobId, target: JobId) returns (found: bool)
    ensures found <==> Reaches(specs, current, target)
  {
    ghost var jobs := Vicinity(specs, current);
    var visited;
    found, visited := HasPathDfs(specs, current, target, {}, jobs);
    if !found && Reaches(specs, current, target) {
      var p :| PathFrom(specs, p, current, target);
      assert visited - {} == visited;
      NeverLeaves(specs, visited, p);
      assert false;
    }
  }

  /** Rejects a dependency list exactly when one of its jobs already leads to the new dependent. */
  method ValidateNoCircularDependency(specs: seq<JobSpec>, id: JobId, deps: seq<JobId>) returns (ok: bool)
    ensures ok <==> forall d :: d in deps ==> !Reaches(specs, d, id)
  {
    for i := 0 to |deps|
      invariant forall k :: 0 <= k < i ==> !Reaches(specs, deps[k], id)
    {
      var found := HasPath(specs, deps[i], id);
      if found {
        return false;
      }
    }
    return true;
  }

  // ---------- installing dependencies ----------

  lemma PathPart(specs: seq<JobSpec>, p: seq<JobId>, i: nat, j: nat)
    requires Path(specs, p) && i < j <= |p|
    ensures Path(specs, p[i..j])
  {
    var q := p[i..j];
    forall k | 0 <= k < |q| - 1 ensures DependsOn(specs, q[k], q[k + 1]) {
      assert DependsOn(specs, p[i + k], p[i + k + 1]);
    }
  }

  lemma PathJoin(specs: seq<JobSpec>, p: seq<JobId>, q: seq<JobId>)
    requires Path(specs, p) && Path(specs, q) && p[|p| - 1] == q[0]
    ensures Path(specs, p + q[1..])
  {
    var r := p + q[1..];
    forall k | 0 <= k < |r| - 1 ensures DependsOn(specs, r[k], r[k + 1]) {
      if k < |p| - 1 {
        assert DependsOn(specs, p[k], p[k + 1]);
      } else {
        assert DependsOn(specs, q[k - |p| + 1], q[k - |p| + 2]);
      }
    }
  }

  /** A path that does not pass through `id` before its end uses only edges that both graphs share. */
  lemma PathElsewhere(specs0: seq<JobSpec>, specs1: seq<JobSpec>, id: JobId, p: seq<JobId>)
    requires forall a: JobId, d: JobId :: a != id && DependsOn(specs1, a, d) ==> DependsOn(specs0, a, d)
    requires Path(specs1, p) && id !in p[..|p| - 1]
    ensures Path(specs0, p)
  {
    forall k | 0 <= k < |p| - 1 ensures DependsOn(specs0, p[k], p[k + 1]) {
      assert p[k] in p[..|p| - 1];
      assert DependsOn(specs1, p[k], p[k + 1]);
    }
  }

  function FirstIndex(p: seq<JobId>, id: JobId): (i: nat)
    requires id in p
    ensures i < |p| && p[i] == id && id !in p[..i]
  {
    if p[0] == id then 0 else 1 + FirstIndex(p[1..], id)
  }

  /** Giving one job dependencies that passed the check cannot close a cycle. */
  lemma InstallKeepsAcyclic(specs0: seq<JobSpec>, specs1: seq<JobSpec>, id: JobId)
    requires Acyclic(specs0)
    requires forall a: JobId, d: JobId :: a != id && DependsOn(specs1, a, d) ==> DependsOn(specs0, a, d)
    requires forall d: JobId :: DependsOn(specs1, id, d) ==> !Reaches(specs0, d, id)
    ensures Acyclic(specs1)
  {
    forall p | Path(specs1, p) && |p| > 1 ensures p[0] != p[|p| - 1] {
      if p[0] == p[|p| - 1] {
        if id in p[..|p| - 1] {
          NoCycleThrough(specs0, specs1, id, p);
        } else {
          PathElsewhere(specs0, specs1, id, p);
        }
        assert false;
      }
    }
  }

  /** Turns a cycle so that it starts and ends at the place `k`. */
  lemma Turned(specs: seq<JobSpec>, p: seq<JobId>, k: nat) returns (turned: seq<JobId>)
    requires Path(specs, p) && |p| > 1 && p[0] == p[|p| - 1] && k < |p| - 1
    ensures Path(specs, turned) && |turned| == |p| && turned[0] == turned[|p| - 1] == p[k]
  {
    hide Path;
    PathPart(specs, p, k, |p|);
    PathPart(specs, p, 0, k + 1);
    PathIsWalk(specs, p[k..]);
    assert p[k..|p|] == p[k..] && p[0..k + 1] == p[..k + 1];
    PathJoin(specs, p[k..], p[..k + 1]);
    turned := p[k..] + p[..k + 1][1..];
  }

  lemma PathIsWalk(specs: seq<JobSpec>, p: seq<JobId>)
    ensures Path(specs, p) ==> p != []
  {
  }

  /** A walk from `id` back to `id` leads from a new dependency of `id` to `id` through old edges. */
  lemma NoWayBack(specs0: seq<JobSpec>, specs1: seq<JobSpec>, id: JobId, p: seq<JobId>)
    requires forall a: JobId, d: JobId :: a != id && DependsOn(specs1, a, d) ==> DependsOn(specs0, a, d)
    requires Path(specs1, p) && |p| > 1 && p[0] == p[|p| - 1] == id
    ensures DependsOn(specs1, id, p[1]) && Reaches(specs0, p[1], id)
  {
    var rest := p[1..];
    PathPart(specs1, p, 1, |p|);
    assert rest[|rest| - 1] == id;
    var j := FirstIndex(rest, id);
    PathPart(specs1, rest, 0, j + 1);
    assert rest[..j + 1][..j] == rest[..j];
    PathElsewhere(specs0, specs1, id, rest[..j + 1]);
    assert PathFrom(specs0, rest[..j + 1], rest[0], id);
    assert DependsOn(specs1, p[0], p[1]);
  }

  lemma NoCycleThrough(specs0: seq<JobSpec>, specs1: seq<JobSpec>, id: JobId, p: seq<JobId>)
    requires forall a: JobId, d: JobId :: a != id && DependsOn(specs1, a, d) ==> DependsOn(specs0, a, d)
    requires forall d: JobId :: DependsOn(specs1, id, d) ==> !Reaches(specs0, d, id)
    requires Path(specs1, p) && |p| > 1 && id in p[..|p| - 1]
    ensures p[0] != p[|p| - 1]
  {
    hide Path, Reaches;
    if p[0] == p[|p| - 1] {
      var k := FirstIndex(p[..|p| - 1], id);
      var turned := Turned(specs1, p, k);
      NoWayBack(specs0, specs1, id, turned);
      assert false;
    }
  }

  lemma PathPrepend(specs: seq<JobSpec>, id: JobId, p: seq<JobId>)
    requires Path(specs, p) && DependsOn(specs, id, p[0])
    ensures Path(specs, [id] + p)
  {
    var q := [id] + p;
    forall i | 0 <= i < |q| - 1 ensures DependsOn(specs, q[i], q[i + 1]) {
      if i > 0 {
        assert DependsOn(specs, p[i - 1], p[i]);
      }
    }
  }

  lemma DependencyDoesNotReach(specs: seq<JobSpec>, id: JobId, d: JobId)
    requires Acyclic(specs) && DependsOn(specs, id, d)
    ensures !Reaches(specs, d, id)
  {
    forall p | Path(specs, p) && p[0] == d ensures p[|p| - 1] != id {
      PathPrepend(specs, id, p);
      assert ([id] + p)[|p|] == p[|p| - 1];
    }
  }

  // ---------- renaming ----------

  ghost function Renamed(p: seq<JobId>, from: JobId, to: JobId): (q: seq<JobId>)
    ensures |q| == |p|
  {
    seq(|p|, i requires 0 <= i < |p| => if p[i] == from then to else p[i])
  }

  /** If every edge of one graph becomes an edge of an acyclic one when job `from` is read as job
      `to`, it has no cycles either. */
  lemma RenamingKeepsAcyclic(specs0: seq<JobSpec>, specs1: seq<JobSpec>, from: JobId, to: JobId)
    requires Acyclic(specs0)
    requires forall a: JobId, d: JobId :: DependsOn(specs1, a, d) ==>
               DependsOn(specs0, if a == from then to else a, if d == from then to else d)
    ensures Acyclic(specs1)
  {
    forall p | Path(specs1, p) && |p| > 1 ensures p[0] != p[|p| - 1] {
      var q := Renamed(p, from, to);
      forall k | 0 <= k < |q| - 1 ensures DependsOn(specs0, q[k], q[k + 1]) {
        assert DependsOn(specs1, p[k], p[k + 1]);
      }
      assert Path(specs0, q);
    }
  }
}
