/** Fair-share accounting: a lazily decayed accumulator per user, and the full history it stands for. */
module FairShare {
  import opened Types

  /** GPU-seconds already decayed up to `lastUpdate`. */
  datatype FairShareUsage = FairShareUsage(usage: real, lastUpdate: Time)

  /** The decay of usage over time: a half-life, and the factor by which `dt` seconds shrink usage. */
  datatype Decay = Decay(halfLife: real, factor: Time -> real)

  /** One job's contribution, made when it reached its final state. */
  datatype Credit = Credit(job: JobId, user: string, amount: real, at: Time)

  function DecayedTo(u: FairShareUsage, now: Time, d: Decay): real {
    if d.halfLife <= 0.0 then 0.0
    else u.usage * d.factor(if now < u.lastUpdate then 0 else now - u.lastUpdate)
  }

  /** Decay what is stored up to the time of the credit, then add it. */
  function AddCredit(m: map<string, FairShareUsage>, c: Credit, d: Decay): map<string, FairShareUsage> {
    var entry := if c.user in m then m[c.user] else FairShareUsage(0.0, c.at);
    m[c.user := FairShareUsage(DecayedTo(entry, c.at, d) + c.amount, c.at)]
  }

  /** The table after a list of credits. */
  ghost function Replay(credits: seq<Credit>, d: Decay): map<string, FairShareUsage> {
    if credits == [] then map[]
    else AddCredit(Replay(credits[..|credits| - 1], d), credits[|credits| - 1], d)
  }

  lemma ReplayAppend(credits: seq<Credit>, c: Credit, d: Decay)
    ensures Replay(credits + [c], d) == AddCredit(Replay(credits, d), c, d)
  {
    assert (credits + [c])[..|credits|] == credits;
  }

  /** The user's whole history, each credit decayed separately from the moment it was made. */
  ghost function History(credits: seq<Credit>, user: string, t: Time, d: Decay): real {
    if credits == [] then 0.0
    else
      var c := credits[|credits| - 1];
      History(credits[..|credits| - 1], user, t, d) +
      if c.user == user && c.at <= t then c.amount * d.factor(t - c.at) else 0.0
  }

  ghost predicate SplitsAt(factor: Time -> real, a: Time, b: Time) {
    factor(a + b) == factor(a) * factor(b)
  }

  ghost predicate Multiplicative(factor: Time -> real) {
    factor(0) == 1.0 && forall a: Time, b: Time :: SplitsAt(factor, a, b)
  }

  lemma Distributes(a: real, b: real, f: real)
    ensures (a + b) * f == a * f + b * f
  {
  }

  lemma Associates(a: real, f: real, g: real)
    ensures a * (f * g) == (a * f) * g
  {
  }

  /** Decaying in two steps is decaying once. */
  lemma DecayTwice(x: real, t0: Time, t1: Time, t2: Time, d: Decay)
    requires Multiplicative(d.factor) && t0 <= t1 <= t2
    ensures x * d.factor(t2 - t0) == (x * d.factor(t1 - t0)) * d.factor(t2 - t1)
  {
    var a: Time, b: Time := t1 - t0, t2 - t1;
    assert a + b == t2 - t0;
    assert SplitsAt(d.factor, a, b);
    Associates(x, d.factor(a), d.factor(b));
  }

  ghost predicate InTimeOrder(credits: seq<Credit>) {
    forall i, j :: 0 <= i < j < |credits| ==> credits[i].at <= credits[j].at
  }

  ghost predicate AllBy(credits: seq<Credit>, t: Time) {
    forall i :: 0 <= i < |credits| ==> credits[i].at <= t
  }

  lemma {:induction false} HistoryShift(credits: seq<Credit>, user: string, t: Time, u: Time, d: Decay)
    requires Multiplicative(d.factor) && AllBy(credits, t) && t <= u
    ensures History(credits, user, u, d) == History(credits, user, t, d) * d.factor(u - t)
  {
    if credits == [] {
    } else {
      var front, c := credits[..|credits| - 1], credits[|credits| - 1];
      HistoryShift(front, user, t, u, d);
      DecayTwice(c.amount, c.at, t, u, d);
      var old', new' := History(front, user, t, d), c.amount * d.factor(t - c.at);
      Distributes(old', new', d.factor(u - t));
    }
  }

  /** A user's table entry was last updated at one of the credits, so not after any bound on them. */
  lemma {:induction false} ReplayBound(credits: seq<Credit>, user: string, t: Time, d: Decay)
    requires AllBy(credits, t)
    ensures user in Replay(credits, d) ==> Replay(credits, d)[user].lastUpdate <= t
  {
    if credits == [] {
    } else {
      ReplayBound(credits[..|credits| - 1], user, t, d);
    }
  }

  /** What the table says a user's usage is worth at `t`. */
  ghost function Stored(m: map<string, FairShareUsage>, user: string, t: Time, d: Decay): real {
    if user in m then DecayedTo(m[user], t, d) else 0.0
  }

  /** Usage worth `x` just before credit `c`, carried past it to `t`. */
  ghost function Carried(x: real, c: Credit, user: string, t: Time, d: Decay): real
    requires c.at <= t
  {
    x * d.factor(t - c.at) + if c.user == user then c.amount * d.factor(t - c.at) else 0.0
  }

  lemma HistoryStep(front: seq<Credit>, c: Credit, user: string, t: Time, d: Decay)
    requires Multiplicative(d.factor) && AllBy(front, c.at) && c.at <= t
    ensures History(front + [c], user, t, d) == Carried(History(front, user, c.at, d), c, user, t, d)
  {
    assert (front + [c])[..|front|] == front;
    HistoryShift(front, user, c.at, t, d);
  }

  lemma StoredStep(m: map<string, FairShareUsage>, c: Credit, user: string, t: Time, d: Decay)
    requires Multiplicative(d.factor) && d.halfLife > 0.0 && c.at <= t
    requires user in m ==> m[user].lastUpdate <= c.at
    ensures Stored(AddCredit(m, c, d), user, t, d) == Carried(Stored(m, user, c.at, d), c, user, t, d)
  {
    if c.user == user {
      Distributes(Stored(m, user, c.at, d), c.amount, d.factor(t - c.at));
    } else if user in m {
      DecayTwice(m[user].usage, m[user].lastUpdate, c.at, t, d);
    }
  }

  /** Decaying the stored value forward gives the sum over the user's whole history. */
  lemma {:induction false} LazyDecayIsHistory(credits: seq<Credit>, user: string, t: Time, d: Decay)
    requires Multiplicative(d.factor) && d.halfLife > 0.0
    requires InTimeOrder(credits) && AllBy(credits, t)
    ensures Stored(Replay(credits, d), user, t, d) == History(credits, user, t, d)
  {
    if credits == [] {
    } else {
      var front, c := credits[..|credits| - 1], credits[|credits| - 1];
      assert AllBy(front, c.at);
      LazyDecayIsHistory(front, user, c.at, d);
      HistoryStep(front, c, user, t, d);
      assert front + [c] == credits;
      ReplayBound(front, user, c.at, d);
      StoredStep(Replay(front, d), c, user, t, d);
      assert Replay(credits, d) == AddCredit(Replay(front, d), c, d);
    }
  }
}
