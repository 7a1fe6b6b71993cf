/** Counting how many entries of a dependency list lie in a set, or are hit by a bag of notifications. */
module Counting {
  import opened Types

  ghost function CountIn(s: seq<JobId>, ids: set<JobId>): nat {
    if s == [] then 0
    else CountIn(s[..|s| - 1], ids) + if s[|s| - 1] in ids then 1 else 0
  }

  /** Total number of times the bag `notes` mentions the entries of `s`. */
  ghost function Hits(s: seq<JobId>, notes: multiset<JobId>): nat {
    if s == [] then 0
    else Hits(s[..|s| - 1], notes) + notes[s[|s| - 1]]
  }

  lemma {:induction false} NoHits(s: seq<JobId>, notes: multiset<JobId>)
    ensures Hits(s, notes) == 0 <==> forall x :: x in s ==> x !in notes
  {
    if s == [] {
    } else {
      var front, last := s[..|s| - 1], s[|s| - 1];
      NoHits(front, notes);
      assert s == front + [last];
    }
  }

  lemma {:induction false} HitsAdd(s: seq<JobId>, a: multiset<JobId>, b: multiset<JobId>)
    ensures Hits(s, a + b) == Hits(s, a) + Hits(s, b)
  {
    if s == [] {
    } else {
      HitsAdd(s[..|s| - 1], a, b);
    }
  }

  lemma {:induction false} HitsMono(s: seq<JobId>, a: multiset<JobId>, b: multiset<JobId>)
    requires a <= b
    ensures Hits(s, a) <= Hits(s, b)
  {
    if s == [] {
    } else {
      HitsMono(s[..|s| - 1], a, b);
    }
  }

  lemma {:induction false} HitsOfSet(s: seq<JobId>, ids: set<JobId>)
    ensures Hits(s, multiset(ids)) == CountIn(s, ids)
  {
    if s == [] {
    } else {
      HitsOfSet(s[..|s| - 1], ids);
    }
  }

  lemma {:induction false} HitsOne(s: seq<JobId>, x: JobId)
    requires Distinct(s)
    ensures Hits(s, multiset{x}) == if x in s then 1 else 0
  {
    if s == [] {
    } else {
      var front := s[..|s| - 1];
      HitsOne(front, x);
      assert s == front + [s[|s| - 1]];
    }
  }

  lemma {:induction false} HitsNone(s: seq<JobId>)
    ensures Hits(s, multiset{}) == 0
  {
    if s == [] {
    } else {
      HitsNone(s[..|s| - 1]);
    }
  }

  lemma {:induction false} CountInUnion(s: seq<JobId>, a: set<JobId>, b: set<JobId>)
    requires a !! b
    ensures CountIn(s, a + b) == CountIn(s, a) + CountIn(s, b)
  {
    if s == [] {
    } else {
      CountInUnion(s[..|s| - 1], a, b);
    }
  }

  lemma {:induction false} CountInMono(s: seq<JobId>, a: set<JobId>, b: set<JobId>)
    requires forall x :: x in s && x in a ==> x in b
    ensures CountIn(s, a) <= CountIn(s, b)
  {
    if s == [] {
    } else {
      CountInMono(s[..|s| - 1], a, b);
    }
  }

  lemma {:induction false} CountInExtremes(s: seq<JobId>, ids: set<JobId>)
    ensures CountIn(s, ids) <= |s|
    ensures CountIn(s, ids) == |s| <==> forall x :: x in s ==> x in ids
    ensures CountIn(s, ids) == 0 <==> forall x :: x in s ==> x !in ids
  {
    if s == [] {
    } else {
      var front := s[..|s| - 1];
      CountInExtremes(front, ids);
      assert s == front + [s[|s| - 1]];
    }
  }

  /** Sum of a sequence of weights. */
  function Sum(w: seq<nat>): nat {
    if w == [] then 0 else Sum(w[..|w| - 1]) + w[|w| - 1]
  }

  lemma {:induction false} SumUpdate(w: seq<nat>, i: nat, x: nat)
    requires i < |w|
    ensures Sum(w[i := x]) + w[i] == Sum(w) + x
  {
    var n := |w| - 1;
    if i == n {
      assert w[i := x][..n] == w[..n];
    } else {
      SumUpdate(w[..n], i, x);
      assert w[i := x][..n] == w[..n][i := x];
    }
  }

  lemma {:induction false} SumMono(a: seq<nat>, b: seq<nat>)
    requires |a| <= |b|
    requires forall i :: 0 <= i < |a| ==> a[i] <= b[i]
    ensures Sum(a) <= Sum(b)
    decreases |b|
  {
    if |a| < |b| {
      SumMono(a, b[..|b| - 1]);
    } else if a != [] {
      SumMono(a[..|a| - 1], b[..|b| - 1]);
    }
  }

  lemma SumAppend(w: seq<nat>, x: nat)
    ensures Sum(w + [x]) == Sum(w) + x
  {
    assert (w + [x])[..|w|] == w;
  }

  lemma {:induction false} SumZero(w: seq<nat>)
    ensures Sum(w) == 0 <==> forall i :: 0 <= i < |w| ==> w[i] == 0
  {
    if w == [] {
    } else {
      SumZero(w[..|w| - 1]);
    }
  }
}
