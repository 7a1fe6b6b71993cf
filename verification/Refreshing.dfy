/** What time and cancellations do to the list of reservations. */
module Refreshing {
  import opened Types
  import opened Reservations

  // ---------- refreshing statuses ----------

  /** The list after a status refresh: updated, and only what is pending or active. */
  function Refreshed(rs: seq<Reservation>, now: Time): seq<Reservation> {
    if rs == [] then []
    else
      var last := rs[|rs| - 1].UpdateStatus(now);
      Refreshed(rs[..|rs| - 1], now) + if last.Open() then [last] else []
  }

  /** Refreshing twice at the same moment is refreshing once. */
  lemma {:induction false} RefreshedTwice(rs: seq<Reservation>, now: Time)
    ensures Refreshed(Refreshed(rs, now), now) == Refreshed(rs, now)
  {
    if rs == [] {
    } else {
      var front, last := rs[..|rs| - 1], rs[|rs| - 1].UpdateStatus(now);
      RefreshedTwice(front, now);
      if last.Open() {
        assert (Refreshed(front, now) + [last])[..|Refreshed(front, now)|] == Refreshed(front, now);
      } else {
        assert Refreshed(front, now) + [] == Refreshed(front, now);
      }
    }
  }

  lemma {:induction false} RefreshedMembers(rs: seq<Reservation>, now: Time, x: Reservation)
    ensures x in Refreshed(rs, now) <==> exists r :: r in rs && r.UpdateStatus(now) == x && x.Open()
  {
    if rs == [] {
    } else {
      var front, last := rs[..|rs| - 1], rs[|rs| - 1];
      RefreshedMembers(front, now, x);
      assert rs == front + [last];
      assert forall r :: r in rs <==> r in front || r == last;
    }
  }

  lemma {:induction false} RefreshedShrinks(rs: seq<Reservation>, now: Time, t: Time)
    ensures IndicesAt(Refreshed(rs, now), t) <= IndicesAt(rs, t)
    ensures CountsAt(Refreshed(rs, now), t) <= CountsAt(rs, t)
  {
    if rs == [] {
    } else {
      var front, last := rs[..|rs| - 1], rs[|rs| - 1].UpdateStatus(now);
      RefreshedShrinks(front, now, t);
      if last.Open() {
        assert (Refreshed(front, now) + [last])[..|Refreshed(front, now)|] == Refreshed(front, now);
      } else {
        assert Refreshed(front, now) + [] == Refreshed(front, now);
      }
    }
  }

  /** Every reservation that survives a refresh keeps the identity and the start of one in the list. */
  lemma RefreshedOrigin(rs: seq<Reservation>, now: Time, x: Reservation) returns (k: nat)
    requires x in Refreshed(rs, now)
    ensures k < |rs| && rs[k].id == x.id && rs[k].start == x.start
  {
    hide Refreshed;
    RefreshedMembers(rs, now, x);
    var r :| r in rs && r.UpdateStatus(now) == x;
    k :| 0 <= k < |rs| && rs[k] == r;
  }

  lemma {:induction false} RefreshedKeepsSorted(rs: seq<Reservation>, now: Time)
    requires SortedByStart(rs)
    ensures SortedByStart(Refreshed(rs, now))
  {
    if rs == [] {
    } else {
      var front, last := rs[..|rs| - 1], rs[|rs| - 1];
      RefreshedKeepsSorted(front, now);
      var rest := Refreshed(front, now);
      forall i | 0 <= i < |rest| ensures rest[i].start <= last.start {
        var k := RefreshedOrigin(front, now, rest[i]);
        assert rs[k].start <= rs[|rs| - 1].start;
      }
    }
  }

  lemma {:induction false} RefreshedKeepsIds(rs: seq<Reservation>, now: Time, nextId: nat)
    requires IdsUnique(rs, nextId)
    ensures IdsUnique(Refreshed(rs, now), nextId)
  {
    hide IdsUnique;
    if rs == [] {
    } else {
      var front, last := rs[..|rs| - 1], rs[|rs| - 1].UpdateStatus(now);
      IdsFront(rs, nextId);
      RefreshedKeepsIds(front, now, nextId);
      var rest := Refreshed(front, now);
      forall x | x in rest ensures x.id != last.id {
        var k := RefreshedOrigin(front, now, x);
        assert front[k] in front;
      }
      if last.Open() {
        IdsSnoc(rest, last, nextId);
      } else {
        assert rest + [] == rest;
      }
    }
  }

  lemma RefreshShrinks(rs: seq<Reservation>, now: Time)
    ensures Shrinks(rs, Refreshed(rs, now))
  {
    hide Refreshed;
    forall x | x in Refreshed(rs, now) ensures exists r :: r in rs && BecameOf(r, x) {
      RefreshedMembers(rs, now, x);
      var r :| r in rs && r.UpdateStatus(now) == x;
      assert BecameOf(r, x);
    }
  }

  lemma RefreshKeepsCapacity(rs: seq<Reservation>, now: Time, total: nat)
    requires CapacityOk(rs, total)
    ensures CapacityOk(Refreshed(rs, now), total)
  {
    hide IndicesAt, CountsAt, Refreshed, Shrinks;
    RefreshShrinks(rs, now);
    forall t: Time ensures DisjointAt(Refreshed(rs, now), t) && RoomAt(Refreshed(rs, now), total, t) {
      assert DisjointAt(rs, t) && RoomAt(rs, total, t);
      RefreshedShrinks(rs, now, t);
      SubsetSize(IndicesAt(Refreshed(rs, now), t), IndicesAt(rs, t));
      ShrinkingKeepsDisjoint(rs, Refreshed(rs, now), t);
    }
  }

  /** Statuses have been refreshed at some moment up to `now`: nothing is active ahead of time. */
  ghost predicate UpToDate(rs: seq<Reservation>, now: Time) {
    forall r :: r in rs && r.status.Active? ==> r.start <= now
  }

  /** After a refresh the reservations marked active are exactly those that cover this instant. */
  lemma RefreshIsExact(rs: seq<Reservation>, now: Time)
    requires UpToDate(rs, now)
    ensures UpToDate(Refreshed(rs, now), now)
    ensures forall x :: x in Refreshed(rs, now) ==> (x.status.Active? <==> x.IsActive(now))
    ensures forall r :: r in rs && r.Open() && r.IsActive(now) ==> r.(status := Active) in Refreshed(rs, now)
  {
    hide Refreshed;
    forall x | x in Refreshed(rs, now) ensures x.status.Active? <==> x.IsActive(now) {
      RefreshedMembers(rs, now, x);
    }
    forall r | r in rs && r.Open() && r.IsActive(now) ensures r.(status := Active) in Refreshed(rs, now) {
      RefreshedMembers(rs, now, r.(status := Active));
    }
  }

  /** What a refresh leaves: the reservations that were pending or active and are not over; those pending
      whose time has come are active from now on, all others stay as they are. */
  lemma RefreshKeepsExactly(rs: seq<Reservation>, now: Time, x: Reservation)
    ensures x in Refreshed(rs, now) <==>
              exists r :: r in rs && (r.status.Pending? || r.status.Active?) && now < r.start + r.duration
                          && x == if r.status.Pending? && r.start <= now then r.(status := Active) else r
  {
    hide Refreshed;
    RefreshedMembers(rs, now, x);
    forall r | r in rs
      ensures r.UpdateStatus(now) == x && x.Open() <==>
              (r.status.Pending? || r.status.Active?) && now < r.start + r.duration
              && x == if r.status.Pending? && r.start <= now then r.(status := Active) else r
    {
    }
  }

  // ---------- cancelling ----------

  lemma {:induction false} CancelShrinks(rs: seq<Reservation>, i: nat, t: Time)
    requires i < |rs|
    ensures var rs' := rs[i := rs[i].(status := Status.Cancelled)];
            IndicesAt(rs', t) <= IndicesAt(rs, t) && CountsAt(rs', t) <= CountsAt(rs, t)
  {
    var rs' := rs[i := rs[i].(status := Status.Cancelled)];
    var n := |rs| - 1;
    if i < n {
      CancelShrinks(rs[..n], i, t);
      assert rs'[..n] == rs[..n][i := rs[i].(status := Status.Cancelled)];
    } else {
      assert rs'[..n] == rs[..n];
    }
  }

  lemma CancelIsShrinking(rs: seq<Reservation>, i: nat)
    requires i < |rs|
    ensures Shrinks(rs, rs[i := rs[i].(status := Status.Cancelled)])
  {
    var rs' := rs[i := rs[i].(status := Status.Cancelled)];
    forall x | x in rs' ensures exists r :: r in rs && BecameOf(r, x) {
      var k :| 0 <= k < |rs'| && rs'[k] == x;
      assert rs[k] in rs && BecameOf(rs[k], x);
    }
  }

  lemma CancelKeepsCapacity(rs: seq<Reservation>, i: nat, total: nat)
    requires i < |rs| && CapacityOk(rs, total)
    ensures CapacityOk(rs[i := rs[i].(status := Status.Cancelled)], total)
  {
    hide IndicesAt, CountsAt, Shrinks;
    var rs' := rs[i := rs[i].(status := Status.Cancelled)];
    CancelIsShrinking(rs, i);
    forall t: Time ensures DisjointAt(rs', t) && RoomAt(rs', total, t) {
      assert DisjointAt(rs, t) && RoomAt(rs, total, t);
      CancelShrinks(rs, i, t);
      SubsetSize(IndicesAt(rs', t), IndicesAt(rs, t));
      ShrinkingKeepsDisjoint(rs, rs', t);
    }
  }
}
