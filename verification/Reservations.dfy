/** GPU reservations: time ranges, conflict detection, and the capacity they may never exceed. */
module Reservations {
  import opened Types
  import opened PlainTerms
  import opened Tally

  datatype GpuSpec = Count(n: nat) | Indices(list: seq<nat>) {
    function Size(): nat {
      match this
      case Count(n) => n
      case Indices(list) => |list|
    }

    /** The GPUs asked for by index, and the number asked for by count. */
    ghost function Named(): set<nat> {
      if Indices? then Elements(list) else {}
    }

    ghost function Unnamed(): nat {
      if Count? then n else 0
    }
  }

  datatype Status = Pending | Active | Completed | Cancelled

  datatype Reservation = Reservation(id: nat, user: string, gpus: GpuSpec, start: Time, duration: Time,
                                     status: Status) {
    function End(): Time {
      start + duration
    }

    predicate IsActive(now: Time) {
      !status.Cancelled? && start <= now < End()
    }

    predicate OverlapsWith(from: Time, until: Time) {
      start < until && from < End()
    }

    function UpdateStatus(now: Time): Reservation {
      match status
      case Pending =>
        if start <= now < End() then this.(status := Active)
        else if now >= End() then this.(status := Completed)
        else this
      case Active => if now >= End() then this.(status := Completed) else this
      case _ => this
    }

    predicate Open() {
      status.Pending? || status.Active?
    }

    ghost function IndexSet(): set<nat> {
      gpus.Named()
    }

    ghost function Anonymous(): nat {
      gpus.Unnamed()
    }
  }

  // ---------- what is reserved at an instant, and over a range ----------

  /** The GPUs reserved by index at instant `t`. */
  ghost function IndicesAt(rs: seq<Reservation>, t: Time): set<nat> {
    if rs == [] then {}
    else
      var last := rs[|rs| - 1];
      IndicesAt(rs[..|rs| - 1], t) + if last.IsActive(t) then last.IndexSet() else {}
  }

  /** How many GPUs are reserved by count at instant `t`. */
  ghost function CountsAt(rs: seq<Reservation>, t: Time): nat {
    if rs == [] then 0
    else
      var last := rs[|rs| - 1];
      CountsAt(rs[..|rs| - 1], t) + if last.IsActive(t) then last.Anonymous() else 0
  }

  predicate Touches(r: Reservation, from: Time, until: Time) {
    !r.status.Cancelled? && r.OverlapsWith(from, until)
  }

  ghost function IndicesDuring(rs: seq<Reservation>, from: Time, until: Time): set<nat> {
    if rs == [] then {}
    else
      var last := rs[|rs| - 1];
      IndicesDuring(rs[..|rs| - 1], from, until) + if Touches(last, from, until) then last.IndexSet() else {}
  }

  ghost function CountsDuring(rs: seq<Reservation>, from: Time, until: Time): nat {
    if rs == [] then 0
    else
      var last := rs[|rs| - 1];
      CountsDuring(rs[..|rs| - 1], from, until) + if Touches(last, from, until) then last.Anonymous() else 0
  }

  /** A range that contains `t` sees at least what is reserved at `t`. */
  lemma {:induction false} DuringCoversAt(rs: seq<Reservation>, from: Time, until: Time, t: Time)
    requires from <= t < until
    ensures IndicesAt(rs, t) <= IndicesDuring(rs, from, until)
    ensures CountsAt(rs, t) <= CountsDuring(rs, from, until)
  {
    if rs == [] {
    } else {
      DuringCoversAt(rs[..|rs| - 1], from, until, t);
    }
  }

  lemma {:induction false} IndicesAtMember(rs: seq<Reservation>, t: Time, g: nat)
    ensures g in IndicesAt(rs, t) <==> exists r :: r in rs && r.IsActive(t) && g in r.IndexSet()
  {
    if rs == [] {
    } else {
      var front, last := rs[..|rs| - 1], rs[|rs| - 1];
      IndicesAtMember(front, t, g);
      assert rs == front + [last];
      assert forall r :: r in rs <==> r in front || r == last;
    }
  }

  lemma {:induction false} IndicesDuringMember(rs: seq<Reservation>, from: Time, until: Time, g: nat)
    ensures g in IndicesDuring(rs, from, until) <==> exists r :: r in rs && Touches(r, from, until) && g in r.IndexSet()
  {
    if rs == [] {
    } else {
      var front, last := rs[..|rs| - 1], rs[|rs| - 1];
      IndicesDuringMember(front, from, until, g);
      assert rs == front + [last];
      assert forall r :: r in rs <==> r in front || r == last;
    }
  }

  // ---------- the same, reservation by reservation ----------

  /** Reservation `r` names GPU `g`. */
  predicate NamesGpu(r: Reservation, g: nat) {
    r.gpus.Indices? && g in r.gpus.list
  }

  /** Reservation `r` has not been cancelled, and its time meets the range. */
  ghost predicate AppliesTo(r: Reservation, from: Time, until: Time) {
    !r.status.Cancelled? && Meet(from, until, r.start, r.start + r.duration)
  }

  /** The GPUs that reservations meeting a range name. */
  ghost function NamedIn(rs: seq<Reservation>, from: Time, until: Time): set<nat> {
    set r, g | r in rs && AppliesTo(r, from, until) && r.gpus.Indices? && g in r.gpus.list :: g
  }

  /** The numbers of GPUs that reservations meeting a range ask for, added up. */
  ghost function AskedIn(rs: seq<Reservation>, from: Time, until: Time): nat {
    Total(seq(|rs|, i requires 0 <= i < |rs| =>
                if AppliesTo(rs[i], from, until) && rs[i].gpus.Count? then rs[i].gpus.n else 0))
  }

  /** The overlap test is right: for all ranges, empty ones included. */
  lemma TouchesExactly(r: Reservation, from: Time, until: Time)
    requires from <= until
    ensures Touches(r, from, until) <==> AppliesTo(r, from, until)
  {
    if r.OverlapsWith(from, until) && from < until && r.duration > 0 {
      var t := if from < r.start then r.start else from;
      assert Between(from, t, until) && Between(r.start, t, r.start + r.duration);
    }
  }

  /** A range sees a GPU as reserved exactly if it is reserved at some instant of the range, as long as
      reservations have some duration. */
  lemma ReservedAtSomeInstant(rs: seq<Reservation>, from: Time, until: Time, g: nat)
    requires from < until && forall r :: r in rs ==> r.duration > 0
    ensures g in IndicesDuring(rs, from, until) <==> exists t: Time :: Between(from, t, until) && g in IndicesAt(rs, t)
  {
    hide IndicesDuring, IndicesAt;
    IndicesDuringMember(rs, from, until, g);
    if r :| r in rs && Touches(r, from, until) && g in r.IndexSet() {
      var t := if from < r.start then r.start else from;
      IndicesAtMember(rs, t, g);
      assert Between(from, t, until);
    }
    if t: Time :| Between(from, t, until) && g in IndicesAt(rs, t) {
      IndicesAtMember(rs, t, g);
      var r :| r in rs && r.IsActive(t) && g in r.IndexSet();
      assert Touches(r, from, until);
    }
  }

  lemma NamedExactly(rs: seq<Reservation>, from: Time, until: Time)
    requires from <= until
    ensures IndicesDuring(rs, from, until) == NamedIn(rs, from, until)
  {
    hide IndicesDuring, AppliesTo;
    forall g ensures g in IndicesDuring(rs, from, until) <==> g in NamedIn(rs, from, until) {
      IndicesDuringMember(rs, from, until, g);
      forall r | r in rs ensures Touches(r, from, until) <==> AppliesTo(r, from, until) {
        TouchesExactly(r, from, until);
      }
    }
  }

  lemma {:induction false} AskedExactly(rs: seq<Reservation>, from: Time, until: Time)
    requires from <= until
    ensures CountsDuring(rs, from, until) == AskedIn(rs, from, until)
  {
    if rs == [] {
    } else {
      var front, last := rs[..|rs| - 1], rs[|rs| - 1];
      AskedExactly(front, from, until);
      TouchesExactly(last, from, until);
      AskedStep(front, last, from, until);
      assert rs == front + [last];
    }
  }

  lemma AskedStep(front: seq<Reservation>, last: Reservation, from: Time, until: Time)
    ensures AskedIn(front + [last], from, until) ==
            AskedIn(front, from, until) + if AppliesTo(last, from, until) && last.gpus.Count? then last.gpus.n else 0
  {
    hide AppliesTo;
    var rs := front + [last];
    var w := seq(|rs|, i requires 0 <= i < |rs| =>
                   if AppliesTo(rs[i], from, until) && rs[i].gpus.Count? then rs[i].gpus.n else 0);
    assert w[..|w| - 1] ==
           seq(|front|, i requires 0 <= i < |front| =>
                 if AppliesTo(front[i], from, until) && front[i].gpus.Count? then front[i].gpus.n else 0);
  }

  // ---------- conflict detection ----------

  datatype ReservationState = ReservationState(reservedIndices: set<nat>, countReserved: nat)

  datatype ConflictError =
    | IndexConflict(index: nat)
    | InsufficientGpusForCount(available: nat, required: nat)
    | WouldStarveCountBased(availableAfter: nat, countReserved: nat)

  datatype Outcome<+E> = Fine | Refused(error: E)

  /** The loop over all reservations that touch a range. */
  method CollectReservationState(rs: seq<Reservation>, from: Time, until: Time) returns (state: ReservationState)
    ensures state == ReservationState(IndicesDuring(rs, from, until), CountsDuring(rs, from, until))
    ensures from <= until ==> state == ReservationState(NamedIn(rs, from, until), AskedIn(rs, from, until))
  {
    if from <= until {
      NamedExactly(rs, from, until);
      AskedExactly(rs, from, until);
    }
    state := ReservationState({}, 0);
    for i := 0 to |rs|
      invariant state == ReservationState(IndicesDuring(rs[..i], from, until), CountsDuring(rs[..i], from, until))
    {
      assert rs[..i + 1][..i] == rs[..i];
      if !rs[i].status.Cancelled? && rs[i].OverlapsWith(from, until) {
        match rs[i].gpus {
          case Indices(list) => state := state.(reservedIndices := state.reservedIndices + set g | g in list);
          case Count(n) => state := state.(countReserved := state.countReserved + n);
        }
      }
    }
    assert rs[..|rs|] == rs;
  }

  method CheckIndexReservationConflict(list: seq<nat>, state: ReservationState,
                                       total: nat) returns (r: Outcome<ConflictError>)
    ensures r.Fine? <==>
              && (forall g :: g in list ==> g !in state.reservedIndices)
              && state.countReserved <= SaturatingSub(SaturatingSub(total, |state.reservedIndices|), |list|)
    ensures r.Refused? && r.error.IndexConflict? ==> r.error.index in list && r.error.index in state.reservedIndices
    ensures r.Refused? && !r.error.IndexConflict? ==>
              && (forall g :: g in list ==> g !in state.reservedIndices)
              && r.error == WouldStarveCountBased(
                   SaturatingSub(SaturatingSub(total, |state.reservedIndices|), |list|), state.countReserved)
  {
    for i := 0 to |list|
      invariant forall k :: 0 <= k < i ==> list[k] !in state.reservedIndices
    {
      if list[i] in state.reservedIndices {
        return Refused(IndexConflict(list[i]));
      }
    }
    var available := SaturatingSub(SaturatingSub(total, |state.reservedIndices|), |list|);
    if state.countReserved > available {
      return Refused(WouldStarveCountBased(available, state.countReserved));
    }
    return Fine;
  }

  function CheckCountReservationConflict(n: nat, state: ReservationState, total: nat): (r: Outcome<ConflictError>)
    ensures n > 0 ==> (r.Fine? <==> |state.reservedIndices| + state.countReserved + n <= total)
    ensures r.Refused? ==> r.error == InsufficientGpusForCount(SaturatingSub(total, |state.reservedIndices|), n)
  {
    var available := SaturatingSub(total, |state.reservedIndices|);
    if state.countReserved + n > available then Refused(InsufficientGpusForCount(available, n)) else Fine
  }

  /** What a new reservation needs: its indices free over its whole range, and room for everything
      reserved in that range. */
  ghost predicate Fits(spec: GpuSpec, rs: seq<Reservation>, from: Time, until: Time, total: nat) {
    var indices, counts := IndicesDuring(rs, from, until), CountsDuring(rs, from, until);
    spec.Named() !! indices && |indices| + counts + |spec.Named()| + spec.Unnamed() <= total
  }

  /** The same in terms of the reservations that meet the range. */
  ghost predicate HasRoom(spec: GpuSpec, rs: seq<Reservation>, from: Time, until: Time, total: nat) {
    match spec
    case Count(n) => |NamedIn(rs, from, until)| + AskedIn(rs, from, until) + n <= total
    case Indices(list) =>
      && (forall g :: g in list ==> g !in NamedIn(rs, from, until))
      && |NamedIn(rs, from, until)| + AskedIn(rs, from, until) + |set g | g in list| <= total
  }

  lemma FitsMeansRoom(spec: GpuSpec, rs: seq<Reservation>, from: Time, until: Time, total: nat)
    requires from <= until
    ensures Fits(spec, rs, from, until, total) <==> HasRoom(spec, rs, from, until, total)
  {
    hide IndicesDuring, CountsDuring, NamedIn, AskedIn;
    NamedExactly(rs, from, until);
    AskedExactly(rs, from, until);
    if spec.Indices? {
      assert (set g | g in spec.list) == spec.Named();
    }
  }

  // ---------- capacity at every instant ----------

  ghost predicate DisjointAt(rs: seq<Reservation>, t: Time) {
    forall a, b :: a in rs && b in rs && a.id != b.id && a.IsActive(t) && b.IsActive(t) ==> a.IndexSet() !! b.IndexSet()
  }

  ghost predicate RoomAt(rs: seq<Reservation>, total: nat, t: Time) {
    |IndicesAt(rs, t)| + CountsAt(rs, t) <= total
  }

  /** Index reservations never share a GPU, and everything reserved fits into the machine. */
  ghost predicate CapacityOk(rs: seq<Reservation>, total: nat) {
    forall t: Time :: DisjointAt(rs, t) && RoomAt(rs, total, t)
  }

  ghost predicate IdsUnique(rs: seq<Reservation>, nextId: nat) {
    && (forall r :: r in rs ==> r.id < nextId)
    && forall i, j :: 0 <= i < j < |rs| ==> rs[i].id != rs[j].id
  }

  lemma IdsDetermine(rs: seq<Reservation>, nextId: nat, a: Reservation, b: Reservation)
    requires IdsUnique(rs, nextId) && a in rs && b in rs && a.id == b.id
    ensures a == b
  {
    var i :| 0 <= i < |rs| && rs[i] == a;
    var j :| 0 <= j < |rs| && rs[j] == b;
  }

  lemma IdsFront(rs: seq<Reservation>, nextId: nat)
    requires IdsUnique(rs, nextId) && rs != []
    ensures IdsUnique(rs[..|rs| - 1], nextId) && rs[|rs| - 1].id < nextId
    ensures forall r :: r in rs[..|rs| - 1] ==> r.id != rs[|rs| - 1].id
  {
    var front, last := rs[..|rs| - 1], rs[|rs| - 1];
    assert last in rs && rs == front + [last];
    forall r | r in front ensures r.id != last.id {
      var k :| 0 <= k < |front| && front[k] == r;
      assert rs[k].id != rs[|rs| - 1].id;
    }
  }

  lemma IdsSnoc(rs: seq<Reservation>, r: Reservation, nextId: nat)
    requires IdsUnique(rs, nextId) && r.id < nextId && forall x :: x in rs ==> x.id != r.id
    ensures IdsUnique(rs + [r], nextId)
  {
    forall i | 0 <= i < |rs| ensures rs[i].id != r.id {
      assert rs[i] in rs;
    }
  }

  ghost predicate InRange(rs: seq<Reservation>, total: nat) {
    forall r, g :: r in rs && g in r.IndexSet() ==> g < total
  }

  predicate SortedByStart(rs: seq<Reservation>) {
    forall i, j :: 0 <= i < j < |rs| ==> rs[i].start <= rs[j].start
  }

  /** No list of indices names a GPU twice. */
  ghost predicate NoRepeats(rs: seq<Reservation>) {
    forall r :: r in rs && r.gpus.Indices? ==> Distinct(r.gpus.list)
  }

  lemma {:induction false} SmallSet(s: set<nat>, total: nat)
    requires forall g :: g in s ==> g < total
    ensures |s| <= total
  {
    if total == 0 {
      assert s == {};
    } else {
      SmallSet(s - {total - 1}, total - 1);
      assert s <= (s - {total - 1}) + {total - 1};
      SubsetSize(s, (s - {total - 1}) + {total - 1});
    }
  }

  lemma {:induction false} SubsetSize<T>(a: set<T>, b: set<T>)
    requires a <= b
    ensures |a| <= |b|
  {
    if a == {} {
    } else {
      var x :| x in a;
      SubsetSize(a - {x}, b - {x});
    }
  }

  lemma {:induction false} ElementsSize<T>(s: seq<T>)
    ensures |Elements(s)| <= |s|
    ensures |Elements(s)| == |s| <==> Distinct(s)
  {
    if s == [] {
    } else {
      var front, last := s[..|s| - 1], s[|s| - 1];
      ElementsSize(front);
      assert s == front + [last];
      assert Elements(s) == Elements(front) + {last};
      if Distinct(s) {
        assert last !in front;
      } else if last !in front {
        assert !Distinct(front);
      } else {
        assert Elements(s) == Elements(front);
        var i :| 0 <= i < |front| && front[i] == last;
        assert s[i] == s[|s| - 1];
      }
    }
  }

  // ---------- keeping the list sorted ----------

  /** Sorting a sorted list with one more element at the end: the newcomer goes behind its equals. */
  function InsertByStart(rs: seq<Reservation>, r: Reservation): (rs': seq<Reservation>)
    ensures |rs'| == |rs| + 1
  {
    if rs == [] || rs[|rs| - 1].start <= r.start then rs + [r]
    else InsertByStart(rs[..|rs| - 1], r) + [rs[|rs| - 1]]
  }

  lemma {:induction false} InsertMembers(rs: seq<Reservation>, r: Reservation)
    ensures forall x :: x in InsertByStart(rs, r) <==> x in rs || x == r
  {
    if rs != [] && rs[|rs| - 1].start > r.start {
      InsertMembers(rs[..|rs| - 1], r);
      assert rs == rs[..|rs| - 1] + [rs[|rs| - 1]];
    }
  }

  lemma {:induction false} InsertKeepsSorted(rs: seq<Reservation>, r: Reservation)
    requires SortedByStart(rs)
    ensures SortedByStart(InsertByStart(rs, r))
  {
    if rs != [] && rs[|rs| - 1].start > r.start {
      var front, last := rs[..|rs| - 1], rs[|rs| - 1];
      InsertKeepsSorted(front, r);
      InsertMembers(front, r);
      var inner := InsertByStart(front, r);
      forall i | 0 <= i < |inner| ensures inner[i].start <= last.start {
        assert inner[i] in inner;
      }
    } else if rs != [] {
      assert forall i :: 0 <= i < |rs| ==> rs[i].start <= rs[|rs| - 1].start;
    }
  }

  lemma {:induction false} InsertKeepsIds(rs: seq<Reservation>, r: Reservation, nextId: nat)
    requires IdsUnique(rs, nextId) && r.id == nextId
    ensures IdsUnique(InsertByStart(rs, r), nextId + 1)
  {
    InsertMembers(rs, r);
    if rs != [] && rs[|rs| - 1].start > r.start {
      var front, last := rs[..|rs| - 1], rs[|rs| - 1];
      InsertKeepsIds(front, r, nextId);
      InsertMembers(front, r);
      var inner := InsertByStart(front, r);
      assert last in rs;
      forall i | 0 <= i < |inner| ensures inner[i].id != last.id {
        assert inner[i] in inner;
        if inner[i] in front {
          var k :| 0 <= k < |front| && front[k] == inner[i];
          assert rs[k].id != rs[|rs| - 1].id;
        }
      }
    } else {
      forall i | 0 <= i < |rs| ensures rs[i].id != r.id {
        assert rs[i] in rs;
      }
    }
  }

  lemma {:induction false} InsertAt(rs: seq<Reservation>, r: Reservation, t: Time)
    ensures IndicesAt(InsertByStart(rs, r), t) == IndicesAt(rs, t) + (if r.IsActive(t) then r.IndexSet() else {})
    ensures CountsAt(InsertByStart(rs, r), t) == CountsAt(rs, t) + (if r.IsActive(t) then r.Anonymous() else 0)
  {
    var rs' := InsertByStart(rs, r);
    if rs != [] && rs[|rs| - 1].start > r.start {
      var front := rs[..|rs| - 1];
      InsertAt(front, r, t);
      assert rs'[..|rs'| - 1] == InsertByStart(front, r);
    } else {
      assert rs'[..|rs'| - 1] == rs;
    }
  }

  // ---------- creation ----------

  /** A reservation that fits over its whole range keeps the capacity at every instant. */
  lemma FittingKeepsCapacity(rs: seq<Reservation>, r: Reservation, nextId: nat, total: nat)
    requires CapacityOk(rs, total) && IdsUnique(rs, nextId) && r.id == nextId
    requires Fits(r.gpus, rs, r.start, r.End(), total)
    ensures CapacityOk(InsertByStart(rs, r), total)
  {
    forall t: Time ensures DisjointAt(InsertByStart(rs, r), t) && RoomAt(InsertByStart(rs, r), total, t) {
      assert DisjointAt(rs, t) && RoomAt(rs, total, t);
      FittingKeepsRoom(rs, r, total, t);
      FittingKeepsDisjoint(rs, r, nextId, total, t);
    }
  }

  lemma FittingKeepsRoom(rs: seq<Reservation>, r: Reservation, total: nat, t: Time)
    requires RoomAt(rs, total, t) && Fits(r.gpus, rs, r.start, r.End(), total)
    ensures RoomAt(InsertByStart(rs, r), total, t)
  {
    hide IndicesAt, CountsAt, IndicesDuring, CountsDuring, InsertByStart;
    InsertAt(rs, r, t);
    if r.IsActive(t) {
      DuringCoversAt(rs, r.start, r.End(), t);
      var now, during := IndicesAt(rs, t), IndicesDuring(rs, r.start, r.End());
      SubsetSize(now, during);
      assert |now + r.IndexSet()| <= |now| + |r.IndexSet()|;
    } else {
      assert IndicesAt(rs, t) + {} == IndicesAt(rs, t);
    }
  }

  lemma FittingKeepsDisjoint(rs: seq<Reservation>, r: Reservation, nextId: nat, total: nat, t: Time)
    requires DisjointAt(rs, t) && IdsUnique(rs, nextId) && r.id == nextId
    requires Fits(r.gpus, rs, r.start, r.End(), total)
    ensures DisjointAt(InsertByStart(rs, r), t)
  {
    hide IndicesAt, CountsAt, IndicesDuring, CountsDuring, InsertByStart;
    var rs' := InsertByStart(rs, r);
    InsertMembers(rs, r);
    forall a | a in rs && a.IsActive(t) && r.IsActive(t) ensures a.IndexSet() !! r.IndexSet() {
      forall g | g in a.IndexSet() ensures g !in r.IndexSet() {
        assert Touches(a, r.start, r.End());
        IndicesDuringMember(rs, r.start, r.End(), g);
      }
    }
    forall a, b | a in rs' && b in rs' && a.id != b.id && a.IsActive(t) && b.IsActive(t)
      ensures a.IndexSet() !! b.IndexSet()
    {
      assert (a in rs || a == r) && (b in rs || b == r);
    }
  }

  lemma {:induction false} DuringInRange(rs: seq<Reservation>, from: Time, until: Time, total: nat)
    requires InRange(rs, total)
    ensures forall g :: g in IndicesDuring(rs, from, until) ==> g < total
  {
    forall g | g in IndicesDuring(rs, from, until) ensures g < total {
      IndicesDuringMember(rs, from, until, g);
    }
  }

  /** What the conflict check computes for a specification. */
  ghost predicate PassesCheck(spec: GpuSpec, rs: seq<Reservation>, from: Time, until: Time, total: nat) {
    var indices, counts := IndicesDuring(rs, from, until), CountsDuring(rs, from, until);
    match spec
    case Count(n) => counts + n <= SaturatingSub(total, |indices|)
    case Indices(list) =>
      && (forall g :: g in list ==> g !in indices)
      && counts <= SaturatingSub(SaturatingSub(total, |indices|), |list|)
  }

  /** Whatever passes the check fits, and whatever fits passes, provided no index is repeated. */
  lemma CheckIsExact(spec: GpuSpec, rs: seq<Reservation>, from: Time, until: Time, total: nat)
    requires InRange(rs, total) && spec.Size() > 0 && forall g :: g in spec.Named() ==> g < total
    ensures PassesCheck(spec, rs, from, until, total) ==> Fits(spec, rs, from, until, total)
    ensures Fits(spec, rs, from, until, total) && (spec.Indices? ==> Distinct(spec.list)) ==>
              PassesCheck(spec, rs, from, until, total)
  {
    hide IndicesDuring, CountsDuring;
    var indices := IndicesDuring(rs, from, until);
    DuringInRange(rs, from, until, total);
    SmallSet(indices, total);
    if spec.Indices? {
      ElementsSize(spec.list);
      SmallSet(indices + spec.Named(), total);
      if spec.Named() !! indices {
        assert |indices + spec.Named()| == |indices| + |spec.Named()|;
      } else {
        var g :| g in spec.Named() && g in indices;
        assert g in spec.list;
      }
    }
  }

  // ---------- shrinking ----------

  /** `x` is what became of `r`: the same GPUs, at no more instants than before. */
  ghost predicate BecameOf(r: Reservation, x: Reservation) {
    r.id == x.id && r.user == x.user && r.gpus == x.gpus && forall t: Time :: x.IsActive(t) ==> r.IsActive(t)
  }

  /** Reservations only left the list, or stopped being active. */
  ghost predicate Shrinks(rs: seq<Reservation>, rs': seq<Reservation>) {
    forall x :: x in rs' ==> exists r :: r in rs && BecameOf(r, x)
  }

  lemma ShrinkingKeepsDisjoint(rs: seq<Reservation>, rs': seq<Reservation>, t: Time)
    requires DisjointAt(rs, t) && Shrinks(rs, rs')
    ensures DisjointAt(rs', t)
  {
    forall x, y | x in rs' && y in rs' && x.id != y.id && x.IsActive(t) && y.IsActive(t)
      ensures x.IndexSet() !! y.IndexSet()
    {
      var a :| a in rs && BecameOf(a, x);
      var b :| b in rs && BecameOf(b, y);
    }
  }

  lemma ShrinkingKeepsLists(rs: seq<Reservation>, rs': seq<Reservation>, total: nat)
    requires Shrinks(rs, rs')
    ensures InRange(rs, total) ==> InRange(rs', total)
    ensures NoRepeats(rs) ==> NoRepeats(rs')
  {
    forall x, g | x in rs' && g in x.IndexSet() && InRange(rs, total) ensures g < total {
      var r :| r in rs && BecameOf(r, x);
      assert g in r.IndexSet();
    }
    forall x | x in rs' && x.gpus.Indices? && NoRepeats(rs) ensures Distinct(x.gpus.list) {
      var r :| r in rs && BecameOf(r, x);
    }
  }

  // ---------- a real assignment ----------

  /** Each active reservation gets as many GPUs as it asks for, the very ones if it named them, and no
      GPU goes to two of them. */
  ghost predicate Assigned(rs: seq<Reservation>, total: nat, t: Time, given: map<nat, set<nat>>) {
    && (forall r :: r in rs && r.IsActive(t) ==>
          && r.id in given
          && (forall g :: g in given[r.id] ==> g < total)
          && match r.gpus
             case Indices(list) => given[r.id] == Elements(list)
             case Count(n) => |given[r.id]| == n)
    && forall a, b :: a in rs && b in rs && a.id != b.id && a.IsActive(t) && b.IsActive(t) ==>
         given[a.id] !! given[b.id]
  }

  lemma {:induction false} TakeSome(pool: set<nat>, n: nat) returns (taken: set<nat>)
    requires n <= |pool|
    ensures taken <= pool && |taken| == n
  {
    if n == 0 {
      taken := {};
    } else {
      var g :| g in pool;
      var rest := TakeSome(pool - {g}, n - 1);
      taken := rest + {g};
    }
  }

  ghost function AllGpus(total: nat): (s: set<nat>)
    ensures |s| == total && forall g :: g in s <==> 0 <= g < total
  {
    if total == 0 then {} else AllGpus(total - 1) + {total - 1}
  }

  /** Every active reservation by count got its number of GPUs from `used`, none of them twice. */
  ghost predicate Granted(rs: seq<Reservation>, t: Time, given: map<nat, set<nat>>, used: set<nat>) {
    && (forall r :: r in rs && r.IsActive(t) && r.gpus.Count? ==>
          r.id in given && given[r.id] <= used && |given[r.id]| == r.gpus.n)
    && forall a, b ::
         (a in rs && b in rs && a.id != b.id && a.IsActive(t) && b.IsActive(t) && a.gpus.Count? && b.gpus.Count?) ==>
           given[a.id] !! given[b.id]
  }

  lemma GrantOneMore(rs: seq<Reservation>, r: Reservation, t: Time, given: map<nat, set<nat>>, used: set<nat>,
                     taken: set<nat>)
    requires Granted(rs, t, given, used) && r.gpus.Count? && taken !! used && |taken| == r.gpus.n
    requires forall x :: x in rs ==> x.id != r.id
    ensures Granted(rs + [r], t, given[r.id := taken], used + taken)
  {
    hide Reservation.IsActive;
  }

  lemma GrantNoMore(rs: seq<Reservation>, r: Reservation, t: Time, given: map<nat, set<nat>>, used: set<nat>)
    requires Granted(rs, t, given, used) && !(r.IsActive(t) && r.gpus.Count?)
    ensures Granted(rs + [r], t, given, used)
  {
    hide Reservation.IsActive;
  }

  /** Gives GPUs from `pool` to the reservations by count, one after the other. */
  lemma {:induction false} GiveAnonymous(rs: seq<Reservation>, t: Time, nextId: nat, pool: set<nat>)
    returns (given: map<nat, set<nat>>, used: set<nat>)
    requires IdsUnique(rs, nextId) && CountsAt(rs, t) <= |pool|
    ensures used <= pool && |used| == CountsAt(rs, t) && Granted(rs, t, given, used)
    decreases |rs|
  {
    hide IdsUnique, Granted, Reservation.IsActive;
    if rs == [] {
      given, used := map[], {};
      NothingGranted(t);
    } else {
      var front, last := rs[..|rs| - 1], rs[|rs| - 1];
      assert rs == front + [last];
      IdsFront(rs, nextId);
      given, used := GiveAnonymous(front, t, nextId, pool);
      if last.IsActive(t) && last.gpus.Count? {
        assert |pool - used| == |pool| - |used|;
        var taken := TakeSome(pool - used, last.gpus.n);
        GrantOneMore(front, last, t, given, used, taken);
        given, used := given[last.id := taken], used + taken;
      } else {
        GrantNoMore(front, last, t, given, used);
      }
    }
  }

  lemma NothingGranted(t: Time)
    ensures Granted([], t, map[], {})
  {
  }

  /** What each active reservation gets: the GPUs it named, or those given to it from the pool. */
  ghost function Grants(rs: seq<Reservation>, t: Time, anonymous: map<nat, set<nat>>): map<nat, set<nat>> {
    if rs == [] then map[]
    else
      var rest, last := Grants(rs[..|rs| - 1], t, anonymous), rs[|rs| - 1];
      if !last.IsActive(t) then rest
      else if last.gpus.Indices? then rest[last.id := last.IndexSet()]
      else if last.id in anonymous then rest[last.id := anonymous[last.id]]
      else rest
  }

  lemma {:induction false} GrantOf(rs: seq<Reservation>, t: Time, nextId: nat, anonymous: map<nat, set<nat>>,
                                   r: Reservation)
    requires IdsUnique(rs, nextId) && r in rs && r.IsActive(t) && (r.gpus.Count? ==> r.id in anonymous)
    ensures var given := Grants(rs, t, anonymous);
            r.id in given && given[r.id] == if r.gpus.Indices? then r.IndexSet() else anonymous[r.id]
  {
    hide IdsUnique;
    var front, last := rs[..|rs| - 1], rs[|rs| - 1];
    assert rs == front + [last];
    IdsFront(rs, nextId);
    if r in front {
      GrantOf(front, t, nextId, anonymous, r);
    }
  }

  /** Whatever is reserved at an instant can really be handed out at the same time. */
  lemma AssignmentExists(rs: seq<Reservation>, total: nat, nextId: nat, t: Time) returns (given: map<nat, set<nat>>)
    requires CapacityOk(rs, total) && IdsUnique(rs, nextId) && InRange(rs, total)
    ensures Assigned(rs, total, t, given)
  {
    hide IndicesAt, CountsAt, IdsUnique, Grants;
    assert DisjointAt(rs, t) && RoomAt(rs, total, t);
    var named, all := IndicesAt(rs, t), AllGpus(total);
    forall g | g in named ensures g in all {
      IndicesAtMember(rs, t, g);
    }
    assert |all - named| == |all| - |named|;
    var anonymous, used := GiveAnonymous(rs, t, nextId, all - named);
    given := Grants(rs, t, anonymous);
    forall r | r in rs && r.IsActive(t)
      ensures r.id in given && given[r.id] == if r.gpus.Indices? then r.IndexSet() else anonymous[r.id]
      ensures r.gpus.Indices? ==> r.IndexSet() <= named
    {
      GrantOf(rs, t, nextId, anonymous, r);
      forall g | g in r.IndexSet() ensures g in named {
        IndicesAtMember(rs, t, g);
      }
    }
  }
}
