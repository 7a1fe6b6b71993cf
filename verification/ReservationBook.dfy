/** The book of GPU reservations, and what it lets a job use. */
module ReservationBooks {
  import opened Types
  import opened Tally
  import opened Reservations
  import opened Refreshing
  import opened Claiming
  import opened Entitlements

  // ---------- the book ----------

  datatype CreateError =
    | NoGpus
    | TooManyGpus
    | IndexOutOfRange(index: nat)
    | StartInPast
    | Conflict(error: ConflictError)

  datatype CreateResult = Created(id: nat) | Rejected(error: CreateError)

  datatype CancelResult = CancelledNow | NotFound | AlreadyCompleted | AlreadyCancelled

  class ReservationBook {
    var reservations: seq<Reservation>
    var nextId: nat

    /** For a machine with `total` GPUs: never more is reserved than there is, at any instant. */
    ghost predicate Valid(total: nat)
      reads this
    {
      && CapacityOk(reservations, total) && InRange(reservations, total)
      && IdsUnique(reservations, nextId) && SortedByStart(reservations)
    }

    constructor ()
      ensures forall total :: Valid(total)
      ensures reservations == []
    {
      reservations, nextId := [], 1;
    }

    /** Whether a request is admissible before conflicts are considered. */
    ghost predicate Sensible(spec: GpuSpec, start: Time, total: nat, now: Time) {
      && now <= start
      && match spec
         case Count(n) => 0 < n <= total
         case Indices(list) => 0 < |list| <= total && forall g :: g in list ==> g < total
    }

    /** Why a sensible request was refused: a GPU it names is named by a reservation whose time meets the
        request's own; or all GPUs it names are free, but with them taken too few would be left for what
        others have reserved by number; or too few are left for the number it asks for. */
    ghost predicate Explains(error: CreateError, spec: GpuSpec, rs: seq<Reservation>, from: Time, until: Time,
                             total: nat)
    {
      var named, asked := NamedIn(rs, from, until), AskedIn(rs, from, until);
      error.Conflict? && match error.error
      case IndexConflict(g) =>
        spec.Indices? && g in spec.list && exists r :: r in rs && AppliesTo(r, from, until) && NamesGpu(r, g)
      case WouldStarveCountBased(left, reserved) =>
        && spec.Indices? && (forall g :: g in spec.list ==> g !in named)
        && left == SaturatingSub(SaturatingSub(total, |named|), |spec.list|) < reserved == asked
      case InsufficientGpusForCount(left, n) =>
        spec == Count(n) && left == SaturatingSub(total, |named|) < asked + n
    }

    method CreateReservation(user: string, spec: GpuSpec, start: Time, duration: Time, total: nat, now: Time)
      returns (result: CreateResult)
      requires Valid(total)
      modifies this
      ensures Valid(total)
      ensures result.Created? <==>
                && Sensible(spec, start, total, now)
                && old(PassesCheck(spec, reservations, start, start + duration, total))
      ensures result.Created? ==> old(Fits(spec, reservations, start, start + duration, total))
      ensures Sensible(spec, start, total, now) && (spec.Indices? ==> Distinct(spec.list)) ==>
                (result.Created? <==> old(Fits(spec, reservations, start, start + duration, total)))
      ensures result.Created? ==>
                && result.id == old(nextId) && nextId == old(nextId) + 1
                && reservations == InsertByStart(old(reservations),
                                                 Reservation(result.id, user, spec, start, duration, Status.Pending))
      ensures result.Rejected? ==> unchanged(this)
      ensures Sensible(spec, start, total, now) && (spec.Indices? ==> Distinct(spec.list)) ==>
                (result.Created? <==> old(HasRoom(spec, reservations, start, start + duration, total)))
      ensures Sensible(spec, start, total, now) && result.Rejected? ==>
                Explains(result.error, spec, old(reservations), start, start + duration, total)
      ensures result == Rejected(NoGpus) <==> spec == Count(0) || spec == Indices([])
      ensures result == Rejected(TooManyGpus) <==>
                match spec case Count(n) => n > 0 && n > total case Indices(list) => list != [] && |list| > total
      ensures result.Rejected? && result.error.IndexOutOfRange? ==>
                result.error.index in spec.Named() && total <= result.error.index
      ensures result == Rejected(StartInPast) <==> Sensible(spec, start, total, start) && start < now
      ensures Sensible(spec, start, total, now) && result.Rejected? ==> result.error.Conflict?
      ensures old(NoRepeats(reservations)) && (spec.Indices? ==> Distinct(spec.list)) ==> NoRepeats(reservations)
    {
      hide PassesCheck, Fits, CapacityOk, SortedByStart, InsertByStart, IndicesDuring, CountsDuring, HasRoom, Explains;
      var count := spec.Size();
      if count == 0 {
        return Rejected(NoGpus);
      }
      if count > total {
        return Rejected(TooManyGpus);
      }
      if spec.Indices? {
        for i := 0 to |spec.list|
          invariant forall k :: 0 <= k < i ==> spec.list[k] < total
        {
          if spec.list[i] >= total {
            assert spec.list[i] in spec.Named();
            return Rejected(IndexOutOfRange(spec.list[i]));
          }
        }
      }
      if start < now {
        return Rejected(StartInPast);
      }
      var end := start + duration;
      CheckIsExact(spec, reservations, start, end, total);
      FitsMeansRoom(spec, reservations, start, end, total);
      var conflict := CheckConflict(spec, start, end, total);
      if conflict.Refused? {
        return Rejected(Conflict(conflict.error));
      }
      var r := Reservation(nextId, user, spec, start, duration, Status.Pending);
      NewcomerKeepsBook(reservations, r, nextId, total);
      InsertMembers(reservations, r);
      nextId := nextId + 1;
      reservations := InsertByStart(reservations, r);
      return Created(r.id);
    }

    method CheckConflict(spec: GpuSpec, start: Time, end: Time, total: nat) returns (conflict: Outcome<ConflictError>)
      requires start <= end
      ensures conflict.Fine? <==> PassesCheck(spec, reservations, start, end, total)
      ensures conflict.Refused? ==> Explains(Conflict(conflict.error), spec, reservations, start, end, total)
    {
      hide IndicesDuring, CountsDuring, CapacityOk, AskedIn, AppliesTo;
      var state := CollectReservationState(reservations, start, end);
      match spec
      case Indices(list) => conflict := CheckIndexReservationConflict(list, state, total);
      case Count(n) => conflict := CheckCountReservationConflict(n, state, total);
    }

    method CancelReservation(id: nat, ghost total: nat) returns (result: CancelResult)
      requires Valid(total)
      modifies this
      ensures Valid(total) && (old(NoRepeats(reservations)) ==> NoRepeats(reservations))
      ensures result.NotFound? <==> forall r :: r in old(reservations) ==> r.id != id
      ensures result.AlreadyCompleted? ==> exists r :: r in reservations && r.id == id && r.status.Completed?
      ensures result.AlreadyCancelled? ==> exists r :: r in reservations && r.id == id && r.status.Cancelled?
      ensures !result.CancelledNow? ==> unchanged(this)
      ensures result.CancelledNow? ==>
                exists i :: 0 <= i < |old(reservations)| && old(reservations)[i].id == id
                            && (old(reservations)[i].status.Pending? || old(reservations)[i].status.Active?)
                            && reservations == old(reservations)[i := old(reservations)[i].(status := Status.Cancelled)]
    {
      hide CapacityOk;
      var i := 0;
      while i < |reservations| && reservations[i].id != id
        invariant 0 <= i <= |reservations|
        invariant forall k :: 0 <= k < i ==> reservations[k].id != id
      {
        i := i + 1;
      }
      if i == |reservations| {
        return NotFound;
      }
      assert reservations[i] in reservations;
      match reservations[i].status
      case Completed => return AlreadyCompleted;
      case Cancelled => return AlreadyCancelled;
      case _ =>
        CancelKeepsBook(reservations, i, nextId, total);
        CancelIsShrinking(reservations, i);
        ShrinkingKeepsLists(reservations, reservations[i := reservations[i].(status := Status.Cancelled)], total);
        reservations := reservations[i := reservations[i].(status := Status.Cancelled)];
        return CancelledNow;
    }

    /** Brings every status up to date and drops what is over. */
    method UpdateReservationStatuses(now: Time)
      modifies `reservations
      ensures reservations == Refreshed(old(reservations), now)
      ensures forall x :: x in reservations <==>
                exists r :: r in old(reservations) && (r.status.Pending? || r.status.Active?)
                            && now < r.start + r.duration
                            && x == if r.status.Pending? && r.start <= now then r.(status := Active) else r
      ensures (forall total :: old(Valid(total)) ==> Valid(total))
      ensures (old(NoRepeats(reservations)) ==> NoRepeats(reservations))
      ensures old(UpToDate(reservations, now)) ==>
                && UpToDate(reservations, now)
                && (forall r :: r in reservations ==> (r.status.Active? <==> r.IsActive(now)))
                && (forall r :: r in old(reservations) && r.Open() && r.IsActive(now) ==>
                      r.(status := Active) in reservations)
    {
      hide CapacityOk, IdsUnique, SortedByStart, InRange, UpToDate, NoRepeats;
      ghost var rs0 := reservations;
      for i := 0 to |reservations|
        invariant |reservations| == |rs0|
        invariant forall k :: 0 <= k < |rs0| ==> reservations[k] == if k < i then rs0[k].UpdateStatus(now) else rs0[k]
      {
        reservations := reservations[i := reservations[i].UpdateStatus(now)];
      }
      var updated, kept := reservations, [];
      for i := 0 to |updated|
        invariant kept == Refreshed(rs0[..i], now)
      {
        assert rs0[..i + 1][..i] == rs0[..i];
        if updated[i].Open() {
          kept := kept + [updated[i]];
        }
      }
      assert rs0[..|rs0|] == rs0;
      reservations := kept;
      forall x {
        RefreshKeepsExactly(rs0, now, x);
      }
      if UpToDate(rs0, now) {
        RefreshIsExact(rs0, now);
      }
      forall total | old(Valid(total)) ensures Valid(total) {
        RefreshKeepsBook(rs0, now, nextId, total);
      }
      RefreshShrinks(rs0, now);
      ShrinkingKeepsLists(rs0, reservations, 0);
    }

    /** The reservations in force now. */
    method GetActiveReservations(now: Time) returns (active: seq<Reservation>)
      ensures active == ActiveNow(reservations, now)
    {
      active := [];
      for i := 0 to |reservations|
        invariant active == ActiveNow(reservations[..i], now)
      {
        assert reservations[..i + 1][..i] == reservations[..i];
        if reservations[i].status.Active? && reservations[i].IsActive(now) {
          active := active + [reservations[i]];
        }
      }
      assert reservations[..|reservations|] == reservations;
    }

    method CollectClaims(active: seq<Reservation>, user: string) returns (claims: Claims)
      ensures claims == ClaimsOf(active, user)
    {
      claims := Claims({}, [], 0, 0);
      for i := 0 to |active|
        invariant claims == ClaimsOf(active[..i], user)
      {
        assert active[..i + 1][..i] == active[..i];
        claims := AddClaim(claims, active[i], user);
      }
      assert active[..|active|] == active;
    }

    lemma CapacityNow(total: nat, now: Time)
      requires Valid(total)
      ensures DisjointAt(reservations, now) && IdsUnique(reservations, nextId)
    {
      hide IdsUnique;
      assert DisjointAt(reservations, now) && RoomAt(reservations, total, now);
    }

    /** Whether reservations let this user start a job that asks for so many GPUs. */
    method CheckJobRespectsReservations(user: string, gpus: nat, available: seq<nat>, total: nat, now: Time)
      returns (ok: bool)
      ensures ok <==> ActiveNow(reservations, now) == []
                      || Respects(ClaimsOf(ActiveNow(reservations, now), user), gpus, available, total)
      ensures Valid(total) && Current(reservations, now) && NoRepeats(reservations) && Distinct(available) && gpus > 0
              && ActiveNow(reservations, now) != [] ==>
                (ok <==> Entitled(reservations, now, user, gpus, available, total))
    {
      hide ActiveNow, ClaimsOf, Select, AddClaim, CapacityOk, IdsUnique, NoRepeats, Current, Entitled, Distinct;
      if Valid(total) && Current(reservations, now) && NoRepeats(reservations) && Distinct(available) && gpus > 0 {
        CapacityNow(total, now);
        RespectsExactly(reservations, now, nextId, user, gpus, available, total);
      }
      var active := GetActiveReservations(now);
      if active == [] {
        return true;
      }
      var claims := CollectClaims(active, user);
      if claims.ownIndices != [] {
        return gpus <= |claims.ownIndices|;
      }
      if claims.ownCount > 0 {
        return gpus <= claims.ownCount;
      }
      var spare := SaturatingSub(SaturatingSub(total, |claims.blocked|), claims.otherCount);
      return gpus <= spare && gpus <= |Select(available, claims.blocked, false)|;
    }

    /** The available GPUs that this user may be given. */
    method FilterUsableGpus(user: string, available: seq<nat>, now: Time) returns (usable: seq<nat>)
      ensures usable == Usable(ClaimsOf(ActiveNow(reservations, now), user), available)
      ensures forall g :: g in usable <==>
                && g in available
                && if exists r, x :: r in reservations && InForce(r, now, user, true) && NamesGpu(r, x)
                   then exists r :: r in reservations && InForce(r, now, user, true) && NamesGpu(r, g)
                   else forall r :: r in reservations && InForce(r, now, user, false) ==> !NamesGpu(r, g)
    {
      forall g {
        UsableExactly(reservations, now, user, available, g);
      }
      hide ActiveNow, AddClaim;
      var active := GetActiveReservations(now);
      if active == [] {
        SelectAll(available);
        return available;
      }
      var claims := CollectClaims(active, user);
      if claims.ownIndices != [] {
        return Select(claims.ownIndices, set g | g in available, true);
      }
      return Select(available, claims.blocked, false);
    }
  }

  lemma NewcomerKeepsBook(rs: seq<Reservation>, r: Reservation, nextId: nat, total: nat)
    requires CapacityOk(rs, total) && InRange(rs, total) && IdsUnique(rs, nextId) && SortedByStart(rs)
    requires r.id == nextId && forall g :: g in r.IndexSet() ==> g < total
    ensures SortedByStart(InsertByStart(rs, r)) && IdsUnique(InsertByStart(rs, r), nextId + 1)
    ensures InRange(InsertByStart(rs, r), total)
    ensures Fits(r.gpus, rs, r.start, r.End(), total) ==> CapacityOk(InsertByStart(rs, r), total)
  {
    hide CapacityOk, Fits, InsertByStart, SortedByStart, IdsUnique;
    InsertMembers(rs, r);
    InsertKeepsSorted(rs, r);
    InsertKeepsIds(rs, r, nextId);
    if Fits(r.gpus, rs, r.start, r.End(), total) {
      FittingKeepsCapacity(rs, r, nextId, total);
    }
  }

  lemma CancelKeepsBook(rs: seq<Reservation>, i: nat, nextId: nat, total: nat)
    requires i < |rs| && CapacityOk(rs, total) && InRange(rs, total) && IdsUnique(rs, nextId) && SortedByStart(rs)
    ensures var rs' := rs[i := rs[i].(status := Status.Cancelled)];
            CapacityOk(rs', total) && InRange(rs', total) && IdsUnique(rs', nextId) && SortedByStart(rs')
  {
    hide CapacityOk, Shrinks;
    var rs' := rs[i := rs[i].(status := Status.Cancelled)];
    CancelKeepsCapacity(rs, i, total);
    CancelIsShrinking(rs, i);
    ShrinkingKeepsLists(rs, rs', total);
    forall x | x in rs' ensures x.id < nextId {
      var k :| 0 <= k < |rs'| && rs'[k] == x;
      assert rs[k] in rs;
    }
  }

  lemma RefreshKeepsBook(rs: seq<Reservation>, now: Time, nextId: nat, total: nat)
    requires CapacityOk(rs, total) && InRange(rs, total) && IdsUnique(rs, nextId) && SortedByStart(rs)
    ensures var rs' := Refreshed(rs, now);
            CapacityOk(rs', total) && InRange(rs', total) && IdsUnique(rs', nextId) && SortedByStart(rs')
  {
    hide CapacityOk, Shrinks, Refreshed, IdsUnique, SortedByStart, InRange;
    RefreshKeepsCapacity(rs, now, total);
    RefreshShrinks(rs, now);
    ShrinkingKeepsLists(rs, Refreshed(rs, now), total);
    RefreshedKeepsSorted(rs, now);
    RefreshedKeepsIds(rs, now, nextId);
  }
}
