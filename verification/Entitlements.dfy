/** What the reservations in force entitle a user to. */
module Entitlements {
  import opened Types
  import opened Reservations
  import opened Claiming

  // ---------- the claims, in terms of what is reserved ----------

  /** The user's own reservations (`mine`), or those of all others. */
  ghost function Held(rs: seq<Reservation>, user: string, mine: bool): seq<Reservation> {
    if rs == [] then []
    else
      var last := rs[|rs| - 1];
      Held(rs[..|rs| - 1], user, mine) + if (last.user == user) == mine then [last] else []
  }

  /** The statuses say what the clock says. */
  ghost predicate Current(rs: seq<Reservation>, now: Time) {
    forall r :: r in rs ==> (r.status.Active? <==> r.IsActive(now))
  }

  lemma {:induction false} ActiveNowEnds(rs: seq<Reservation>, now: Time, r: Reservation)
    ensures ActiveNow(rs + [r], now) == ActiveNow(rs, now) + if r.status.Active? && r.IsActive(now) then [r] else []
  {
    assert (rs + [r])[..|rs|] == rs;
  }

  lemma ClaimsEnd(active: seq<Reservation>, user: string, r: Reservation)
    ensures ClaimsOf(active + [r], user) == AddClaim(ClaimsOf(active, user), r, user)
  {
    assert (active + [r])[..|active|] == active;
  }

  lemma ReservedEnds(rs: seq<Reservation>, r: Reservation, t: Time)
    ensures IndicesAt(rs + [r], t) == IndicesAt(rs, t) + if r.IsActive(t) then r.IndexSet() else {}
    ensures CountsAt(rs + [r], t) == CountsAt(rs, t) + if r.IsActive(t) then r.Anonymous() else 0
  {
    assert (rs + [r])[..|rs|] == rs;
  }

  /** The claims drawn up for a user are what the user has reserved at this instant, by index and by
      count, and what the others have. */
  lemma {:induction false} ClaimsMean(rs: seq<Reservation>, now: Time, user: string)
    requires Current(rs, now)
    ensures var c, mine, others := ClaimsOf(ActiveNow(rs, now), user), Held(rs, user, true), Held(rs, user, false);
      && Elements(c.ownIndices) == IndicesAt(mine, now) && c.ownCount == CountsAt(mine, now)
      && c.blocked == IndicesAt(others, now) && c.otherCount == CountsAt(others, now)
  {
    if rs == [] {
      assert ActiveNow(rs, now) == [] && Held(rs, user, true) == [] && Held(rs, user, false) == [];
    } else {
      var front, last := rs[..|rs| - 1], rs[|rs| - 1];
      assert rs == front + [last];
      ClaimsMean(front, now, user);
      ClaimMeans(front, now, user, last);
    }
  }

  lemma ClaimMeans(front: seq<Reservation>, now: Time, user: string, last: Reservation)
    requires last.status.Active? <==> last.IsActive(now)
    requires var c, mine, others := ClaimsOf(ActiveNow(front, now), user), Held(front, user, true),
                                    Held(front, user, false);
      && Elements(c.ownIndices) == IndicesAt(mine, now) && c.ownCount == CountsAt(mine, now)
      && c.blocked == IndicesAt(others, now) && c.otherCount == CountsAt(others, now)
    ensures var rs := front + [last];
      var c, mine, others := ClaimsOf(ActiveNow(rs, now), user), Held(rs, user, true), Held(rs, user, false);
      && Elements(c.ownIndices) == IndicesAt(mine, now) && c.ownCount == CountsAt(mine, now)
      && c.blocked == IndicesAt(others, now) && c.otherCount == CountsAt(others, now)
  {
    hide ActiveNow, ClaimsOf, IndicesAt, CountsAt, Held, Reservation.IsActive;
    var active := ActiveNow(front, now);
    ActiveNowEnds(front, now, last);
    HeldEnds(front, last, user, true);
    HeldEnds(front, last, user, false);
    ReservedEnds(Held(front, user, true), last, now);
    ReservedEnds(Held(front, user, false), last, now);
    if last.IsActive(now) {
      ClaimsEnd(active, user, last);
      if last.gpus.Indices? {
        JoinedElements(ClaimsOf(active, user).ownIndices, last.gpus.list);
      }
    } else {
      assert active + [] == active;
    }
  }

  lemma HeldEnds(rs: seq<Reservation>, r: Reservation, user: string, mine: bool)
    ensures Held(rs + [r], user, mine) ==
            if (r.user == user) == mine then Held(rs, user, mine) + [r] else Held(rs, user, mine)
  {
    assert (rs + [r])[..|rs|] == rs;
    assert Held(rs, user, mine) + [] == Held(rs, user, mine);
  }

  lemma JoinedElements(a: seq<nat>, b: seq<nat>)
    ensures Elements(a + b) == Elements(a) + Elements(b)
  {
  }

  // ---------- what passing the check means ----------

  /** The GPUs that are available and that nobody else has reserved by index. */
  ghost function Open(available: seq<nat>, blocked: set<nat>): set<nat> {
    set g | g in available && g !in blocked
  }

  /** A user with GPUs reserved by index is entitled to no more than these; one with reservations by count
      only, to no more than the counts add up to; and one without any, to what fits into the machine beside
      all that the others have reserved, as far as that many available GPUs are reserved by nobody else. */
  ghost predicate Entitled(rs: seq<Reservation>, now: Time, user: string, gpus: nat, available: seq<nat>, total: nat) {
    var mine, others := Held(rs, user, true), Held(rs, user, false);
    var indices, count := IndicesAt(mine, now), CountsAt(mine, now);
    if indices != {} then gpus <= |indices|
    else if count > 0 then gpus <= count
    else
      && gpus + |IndicesAt(others, now)| + CountsAt(others, now) <= total
      && gpus <= |Open(available, IndicesAt(others, now))|
  }

  /** The check lets a job that asks for GPUs pass if and only if its user is entitled to them. */
  lemma RespectsExactly(rs: seq<Reservation>, now: Time, nextId: nat, user: string, gpus: nat, available: seq<nat>,
                        total: nat)
    requires Current(rs, now) && DisjointAt(rs, now) && IdsUnique(rs, nextId) && NoRepeats(rs)
    requires Distinct(available) && gpus > 0
    ensures Respects(ClaimsOf(ActiveNow(rs, now), user), gpus, available, total) <==>
            Entitled(rs, now, user, gpus, available, total)
  {
    hide ActiveNow, ClaimsOf, Held, IndicesAt, CountsAt, IdsUnique, NoRepeats, DisjointAt, Current, Distinct;
    var c := ClaimsOf(ActiveNow(rs, now), user);
    ClaimsMean(rs, now, user);
    OwnAreDistinct(rs, now, nextId, user);
    ElementsSize(c.ownIndices);
    OpenSize(available, c.blocked);
    if c.ownIndices != [] {
      assert c.ownIndices[0] in Elements(c.ownIndices);
    } else {
      assert Elements(c.ownIndices) == {};
    }
  }

  lemma OwnAreDistinct(rs: seq<Reservation>, now: Time, nextId: nat, user: string)
    requires DisjointAt(rs, now) && IdsUnique(rs, nextId) && NoRepeats(rs)
    ensures Distinct(ClaimsOf(ActiveNow(rs, now), user).ownIndices)
  {
    hide ActiveNow, ClaimsOf;
    ActiveNowDisjoint(rs, now, nextId);
    forall r | r in ActiveNow(rs, now) ensures r in rs {
      ActiveNowMembers(rs, now, r);
    }
    OwnIndicesDistinct(ActiveNow(rs, now), user);
  }

  lemma OpenSize(available: seq<nat>, blocked: set<nat>)
    requires Distinct(available)
    ensures |Select(available, blocked, false)| == |Open(available, blocked)|
  {
    hide Select;
    var open := Select(available, blocked, false);
    ElementsSize(open);
    assert Elements(open) == Open(available, blocked);
  }

  // ---------- lists that repeat a GPU ----------

  /** No GPU in `wanted` is named twice in `list`. */
  ghost predicate NamesOnce(list: seq<nat>, wanted: set<nat>) {
    forall i, j :: 0 <= i < j < |list| && list[i] == list[j] ==> list[i] !in wanted
  }

  lemma NamesOnceSnoc(s: seq<nat>, x: nat, wanted: set<nat>)
    ensures NamesOnce(s + [x], wanted) <==> NamesOnce(s, wanted) && (x in wanted ==> x !in s)
  {
    var longer := s + [x];
    if NamesOnce(longer, wanted) {
      forall i, j | 0 <= i < j < |s| && s[i] == s[j] ensures s[i] !in wanted {
        assert longer[i] == longer[j];
      }
      forall i | 0 <= i < |s| && s[i] == x ensures x !in wanted {
        assert longer[i] == longer[|s|];
      }
    }
  }

  lemma {:induction false} SelectDistinct(s: seq<nat>, ids: set<nat>)
    ensures Distinct(Select(s, ids, true)) <==> NamesOnce(s, ids)
  {
    hide Distinct, NamesOnce;
    if s == [] {
      NothingRepeats(ids);
    } else {
      var front, last := s[..|s| - 1], s[|s| - 1];
      assert s == front + [last];
      SelectDistinct(front, ids);
      NamesOnceSnoc(front, last, ids);
      if last in ids {
        PickedLast(Select(front, ids, true), last);
      } else {
        assert Select(front, ids, true) + [] == Select(front, ids, true);
      }
    }
  }

  lemma NothingRepeats(ids: set<nat>)
    ensures NamesOnce([], ids) && Distinct<nat>([])
  {
  }

  lemma PickedLast(picked: seq<nat>, last: nat)
    ensures Distinct(picked + [last]) <==> Distinct(picked) && last !in picked
  {
    var longer := picked + [last];
    if Distinct(longer) {
      forall i | 0 <= i < |picked| ensures picked[i] != last {
        assert longer[i] != longer[|picked|];
      }
      forall i, j | 0 <= i < j < |picked| ensures picked[i] != picked[j] {
        assert longer[i] != longer[j];
      }
    }
  }

  lemma NamesOnceConcat(a: seq<nat>, b: seq<nat>, wanted: set<nat>)
    requires forall g :: g in a ==> g !in b
    ensures NamesOnce(a + b, wanted) <==> NamesOnce(a, wanted) && NamesOnce(b, wanted)
  {
    var s := a + b;
    if NamesOnce(s, wanted) {
      forall i, j | 0 <= i < j < |a| && a[i] == a[j] ensures a[i] !in wanted {
        assert s[i] == s[j];
      }
      forall i, j | 0 <= i < j < |b| && b[i] == b[j] ensures b[i] !in wanted {
        assert s[|a| + i] == s[|a| + j];
      }
    }
    if NamesOnce(a, wanted) && NamesOnce(b, wanted) {
      forall i, j | 0 <= i < |a| <= j < |s| ensures s[i] != s[j] {
        assert s[i] in a && s[j] in b;
      }
      forall i, j | 0 <= i < j < |s| && s[i] == s[j] ensures s[i] !in wanted {
        if j < |a| {
          assert a[i] == a[j];
        } else {
          assert b[i - |a|] == b[j - |a|];
        }
      }
    }
  }

  /** The user's reservations by index name no available GPU twice. */
  ghost predicate ListsNameOnce(active: seq<Reservation>, user: string, available: seq<nat>) {
    forall r :: r in active && r.user == user && r.gpus.Indices? ==> NamesOnce(r.gpus.list, set g | g in available)
  }

  lemma {:induction false} OwnNameOnce(active: seq<Reservation>, user: string, available: seq<nat>)
    requires PairwiseDisjoint(active)
    ensures NamesOnce(ClaimsOf(active, user).ownIndices, set g | g in available) <==>
              ListsNameOnce(active, user, available)
  {
    if active == [] {
    } else {
      var front, last := active[..|active| - 1], active[|active| - 1];
      assert active == front + [last];
      OwnNameOnce(front, user, available);
      var own := ClaimsOf(front, user).ownIndices;
      if last.user == user && last.gpus.Indices? {
        OwnElsewhere(front, last, user);
        NamesOnceConcat(own, last.gpus.list, set g | g in available);
      }
    }
  }

  lemma OwnElsewhere(front: seq<Reservation>, last: Reservation, user: string)
    requires PairwiseDisjoint(front + [last])
    ensures forall g :: g in ClaimsOf(front, user).ownIndices ==> g !in last.IndexSet()
  {
    hide ClaimsOf;
    var active := front + [last];
    forall g | g in ClaimsOf(front, user).ownIndices ensures g !in last.IndexSet() {
      ClaimsMembers(front, user, g);
      var r :| r in front && r.user == user && g in r.IndexSet();
      var k :| 0 <= k < |front| && front[k] == r;
      assert active[k].IndexSet() !! active[|active| - 1].IndexSet();
    }
  }

  /** The GPUs offered to a user come without repeats if and only if none of the user's active reservations
      names an available GPU twice. */
  lemma UsableDistinctExactly(rs: seq<Reservation>, now: Time, nextId: nat, user: string, available: seq<nat>)
    requires DisjointAt(rs, now) && IdsUnique(rs, nextId) && Distinct(available)
    ensures Distinct(Usable(ClaimsOf(ActiveNow(rs, now), user), available)) <==>
            ListsNameOnce(ActiveNow(rs, now), user, available)
  {
    hide ActiveNow, ClaimsOf, Select, Distinct, ListsNameOnce;
    var active := ActiveNow(rs, now);
    var own := ClaimsOf(active, user).ownIndices;
    ActiveNowDisjoint(rs, now, nextId);
    OwnNameOnce(active, user, available);
    SelectDistinct(own, set g | g in available);
  }
}
