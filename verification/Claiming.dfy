/** What the reservations in force keep for a user and from a user. */
module Claiming {
  import opened Types
  import opened Tally
  import opened Reservations

  // ---------- what a user may use now ----------

  /** Active reservations, summed up from one user's point of view. */
  datatype Claims = Claims(blocked: set<nat>, ownIndices: seq<nat>, ownCount: nat, otherCount: nat)

  function ActiveNow(rs: seq<Reservation>, now: Time): seq<Reservation> {
    if rs == [] then []
    else
      var last := rs[|rs| - 1];
      ActiveNow(rs[..|rs| - 1], now) + if last.status.Active? && last.IsActive(now) then [last] else []
  }

  function AddClaim(c: Claims, r: Reservation, user: string): Claims {
    match r.gpus
    case Indices(list) =>
      if r.user == user then c.(ownIndices := c.ownIndices + list)
      else c.(blocked := c.blocked + set g | g in list)
    case Count(n) =>
      if r.user == user then c.(ownCount := c.ownCount + n)
      else c.(otherCount := c.otherCount + n)
  }

  function ClaimsOf(active: seq<Reservation>, user: string): Claims {
    if active == [] then Claims({}, [], 0, 0)
    else AddClaim(ClaimsOf(active[..|active| - 1], user), active[|active| - 1], user)
  }

  /** The elements of `s` that pass (`keep`) or fail membership in `ids`. */
  function Select(s: seq<nat>, ids: set<nat>, keep: bool): (r: seq<nat>)
    ensures forall g :: g in r <==> g in s && (g in ids <==> keep)
    ensures Distinct(s) ==> Distinct(r)
  {
    if s == [] then []
    else
      var front, last := s[..|s| - 1], s[|s| - 1];
      assert s == front + [last];
      assert Distinct(s) ==> Distinct(front) && last !in front;
      Select(front, ids, keep) + if (last in ids) == keep then [last] else []
  }

  function Usable(c: Claims, available: seq<nat>): seq<nat> {
    if c.ownIndices != [] then Select(c.ownIndices, set g | g in available, true)
    else Select(available, c.blocked, false)
  }

  function Respects(c: Claims, gpus: nat, available: seq<nat>, total: nat): bool {
    if c.ownIndices != [] then gpus <= |c.ownIndices|
    else if c.ownCount > 0 then gpus <= c.ownCount
    else
      && gpus <= SaturatingSub(SaturatingSub(total, |c.blocked|), c.otherCount)
      && gpus <= |Select(available, c.blocked, false)|
  }

  lemma {:induction false} ActiveNowMembers(rs: seq<Reservation>, now: Time, r: Reservation)
    ensures r in ActiveNow(rs, now) <==> r in rs && r.status.Active? && r.IsActive(now)
  {
    if rs == [] {
    } else {
      ActiveNowMembers(rs[..|rs| - 1], now, r);
      assert rs == rs[..|rs| - 1] + [rs[|rs| - 1]];
    }
  }

  lemma {:induction false} ClaimsMembers(active: seq<Reservation>, user: string, g: nat)
    ensures var c := ClaimsOf(active, user);
      && (g in c.blocked <==> exists r :: r in active && r.user != user && g in r.IndexSet())
      && (g in c.ownIndices <==> exists r :: r in active && r.user == user && g in r.IndexSet())
  {
    if active == [] {
    } else {
      var front, last := active[..|active| - 1], active[|active| - 1];
      ClaimsMembers(front, user, g);
      assert active == front + [last];
      assert forall r :: r in active <==> r in front || r == last;
    }
  }

  /** Of the reservations active now, no two name the same GPU. */
  ghost predicate PairwiseDisjoint(active: seq<Reservation>) {
    forall i, j :: 0 <= i < j < |active| ==> active[i].IndexSet() !! active[j].IndexSet()
  }

  lemma {:induction false} ActiveNowDisjoint(rs: seq<Reservation>, now: Time, nextId: nat)
    requires DisjointAt(rs, now) && IdsUnique(rs, nextId)
    ensures PairwiseDisjoint(ActiveNow(rs, now))
  {
    if rs == [] {
    } else {
      var front, last := rs[..|rs| - 1], rs[|rs| - 1];
      assert rs == front + [last];
      ActiveNowDisjoint(front, now, nextId);
      var active := ActiveNow(front, now);
      forall i | 0 <= i < |active| && last.status.Active? && last.IsActive(now)
        ensures active[i].IndexSet() !! last.IndexSet()
      {
        ActiveNowMembers(front, now, active[i]);
        var k :| 0 <= k < |front| && front[k] == active[i];
        assert rs[k].id != rs[|rs| - 1].id;
      }
    }
  }

  /** A user's own GPUs come out without repeats. */
  lemma {:induction false} OwnIndicesDistinct(active: seq<Reservation>, user: string)
    requires PairwiseDisjoint(active) && NoRepeats(active)
    ensures Distinct(ClaimsOf(active, user).ownIndices)
  {
    if active == [] {
    } else {
      var front, last := active[..|active| - 1], active[|active| - 1];
      assert active == front + [last];
      OwnIndicesDistinct(front, user);
      if last.gpus.Indices? && last.user == user {
        var own := ClaimsOf(front, user).ownIndices;
        forall g | g in own ensures g !in last.gpus.list {
          ClaimsMembers(front, user, g);
          var r :| r in front && r.user == user && g in r.IndexSet();
          var k :| 0 <= k < |front| && front[k] == r;
          assert active[k].IndexSet() !! active[|active| - 1].IndexSet();
        }
        DistinctConcat(own, last.gpus.list);
      }
    }
  }

  /** A user is never offered a GPU that somebody else has reserved by index, not even through an
      index reservation of the user's own. */
  lemma UsableIsNotReserved(rs: seq<Reservation>, now: Time, nextId: nat, user: string, available: seq<nat>,
                            g: nat, r: Reservation)
    requires DisjointAt(rs, now) && IdsUnique(rs, nextId)
    requires g in Usable(ClaimsOf(ActiveNow(rs, now), user), available)
    requires r in rs && r.status.Active? && r.IsActive(now) && r.user != user
    ensures g in available && g !in r.IndexSet()
  {
    hide ActiveNow, ClaimsOf, Select;
    var active := ActiveNow(rs, now);
    ClaimsMembers(active, user, g);
    ActiveNowMembers(rs, now, r);
    if ClaimsOf(active, user).ownIndices != [] {
      var own :| own in active && own.user == user && g in own.IndexSet();
      ActiveNowMembers(rs, now, own);
      if own.id == r.id {
        IdsDetermine(rs, nextId, own, r);
      }
    }
  }

  /** Reservation `r` is in force now and belongs to the user (`mine`), or to somebody else. */
  predicate InForce(r: Reservation, now: Time, user: string, mine: bool) {
    r.status.Active? && r.start <= now < r.start + r.duration && (r.user == user <==> mine)
  }

  /** A user whose reservations in force name GPUs may use exactly those of them that are available; anybody
      else, exactly the available GPUs that nobody's reservation in force names. */
  lemma UsableExactly(rs: seq<Reservation>, now: Time, user: string, available: seq<nat>, g: nat)
    ensures g in Usable(ClaimsOf(ActiveNow(rs, now), user), available) <==>
              && g in available
              && if exists r, x :: r in rs && InForce(r, now, user, true) && NamesGpu(r, x)
                 then exists r :: r in rs && InForce(r, now, user, true) && NamesGpu(r, g)
                 else forall r :: r in rs && InForce(r, now, user, false) ==> !NamesGpu(r, g)
  {
    hide ActiveNow, ClaimsOf, Select;
    var active := ActiveNow(rs, now);
    var own := ClaimsOf(active, user).ownIndices;
    ClaimsMembers(active, user, g);
    forall r ensures r in active <==> r in rs && r.status.Active? && r.start <= now < r.start + r.duration {
      ActiveNowMembers(rs, now, r);
    }
    forall r: Reservation ensures g in r.IndexSet() <==> NamesGpu(r, g) {
    }
    if own != [] {
      ClaimsMembers(active, user, own[0]);
      var r :| r in active && r.user == user && own[0] in r.IndexSet();
      assert InForce(r, now, user, true) && NamesGpu(r, own[0]);
    } else {
      forall r, x | r in rs && InForce(r, now, user, true) ensures !NamesGpu(r, x) {
        ClaimsMembers(active, user, x);
        assert r in active && x !in own;
      }
    }
  }

  lemma UsableDistinct(rs: seq<Reservation>, now: Time, nextId: nat, user: string, available: seq<nat>)
    requires DisjointAt(rs, now) && IdsUnique(rs, nextId) && NoRepeats(rs) && Distinct(available)
    ensures Distinct(Usable(ClaimsOf(ActiveNow(rs, now), user), available))
  {
    hide ActiveNow, ClaimsOf, Select;
    var active := ActiveNow(rs, now);
    ActiveNowDisjoint(rs, now, nextId);
    forall r | r in active ensures r in rs {
      ActiveNowMembers(rs, now, r);
    }
    OwnIndicesDistinct(active, user);
  }

  lemma {:induction false} SelectAll(s: seq<nat>)
    ensures Select(s, {}, false) == s
  {
    if s == [] {
    } else {
      SelectAll(s[..|s| - 1]);
      assert s == s[..|s| - 1] + [s[|s| - 1]];
    }
  }
}
