/** Sorting by an arbitrary total order, one element at a time. */
module Sorting {
  import opened Types

  ghost predicate TotalOrder(leq: (nat, nat) -> bool) {
    && (forall a: nat, b: nat :: leq(a, b) || leq(b, a))
    && (forall a: nat, b: nat, c: nat :: leq(a, b) && leq(b, c) ==> leq(a, c))
  }

  ghost predicate Sorted(s: seq<nat>, leq: (nat, nat) -> bool) {
    forall i, j :: 0 <= i < j < |s| ==> leq(s[i], s[j])
  }

  /** Puts `x` behind the elements that are not after it. */
  function Place(s: seq<nat>, x: nat, leq: (nat, nat) -> bool): (r: seq<nat>)
    ensures multiset(r) == multiset(s) + multiset{x}
  {
    if s == [] then [x]
    else
      var front, last := s[..|s| - 1], s[|s| - 1];
      assert s == front + [last];
      if leq(last, x) then s + [x] else Place(front, x, leq) + [last]
  }

  lemma {:induction false} PlaceSorted(s: seq<nat>, x: nat, leq: (nat, nat) -> bool)
    requires TotalOrder(leq) && Sorted(s, leq)
    ensures Sorted(Place(s, x, leq), leq)
  {
    if s == [] {
    } else {
      var front, last := s[..|s| - 1], s[|s| - 1];
      if leq(last, x) {
        forall i | 0 <= i < |s| ensures leq(s[i], x) {
          assert i < |s| - 1 ==> leq(s[i], last);
        }
      } else {
        PlaceSorted(front, x, leq);
        var r := Place(front, x, leq);
        forall i | 0 <= i < |r| ensures leq(r[i], last) {
          assert r[i] in multiset(r);
          if r[i] != x {
            assert r[i] in multiset(front);
            var k :| 0 <= k < |front| && front[k] == r[i];
            assert leq(s[k], s[|s| - 1]);
          }
        }
      }
    }
  }

  method SortBy(s: seq<nat>, leq: (nat, nat) -> bool) returns (r: seq<nat>)
    requires TotalOrder(leq)
    ensures multiset(r) == multiset(s) && Sorted(r, leq)
  {
    r := [];
    for i := 0 to |s|
      invariant multiset(r) == multiset(s[..i]) && Sorted(r, leq)
    {
      assert s[..i + 1] == s[..i] + [s[i]];
      PlaceSorted(r, s[i], leq);
      r := Place(r, s[i], leq);
    }
    assert s[..|s|] == s;
  }

  /** Rearranging keeps elements and their distinctness. */
  lemma SameBag(a: seq<nat>, b: seq<nat>)
    requires multiset(a) == multiset(b)
    ensures |a| == |b| && (forall x :: x in a <==> x in b)
    ensures Distinct(a) ==> Distinct(b)
  {
    forall x ensures x in a <==> x in b {
      assert x in multiset(a) <==> x in multiset(b);
    }
    assert |multiset(a)| == |multiset(b)|;
    if Distinct(a) {
      forall i, j | 0 <= i < j < |b| ensures b[i] != b[j] {
        if b[i] == b[j] {
          TwiceInBag(b, i, j);
          OnceInBag(a, b[i]);
          assert false;
        }
      }
    }
  }

  lemma TwiceInBag(s: seq<nat>, i: nat, j: nat)
    requires i < j < |s| && s[i] == s[j]
    ensures multiset(s)[s[i]] >= 2
  {
    assert s == s[..j] + [s[j]] + s[j + 1..];
    assert s[..j][i] in multiset(s[..j]);
  }

  lemma {:induction false} OnceInBag(s: seq<nat>, x: nat)
    requires Distinct(s)
    ensures multiset(s)[x] <= 1
  {
    if s == [] {
    } else {
      var front, last := s[..|s| - 1], s[|s| - 1];
      assert s == front + [last];
      OnceInBag(front, x);
      if last == x {
        assert last !in front;
      }
    }
  }
}
