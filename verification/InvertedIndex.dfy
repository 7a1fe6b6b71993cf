/** Indexes from a key to the ascending list of jobs that carry it. The user, state and project
    indexes and the reverse dependency graph all have this shape. */
module InvertedIndex {
  import opened Types

  type Index<K> = map<K, seq<JobId>>

  /** `m` is exactly the index of the key sets `keys` (`keys[id - 1]` belongs to job `id`):
      every list ascending, no empty entries, membership in both directions. */
  ghost predicate Indexes<K(!new)>(m: Index<K>, keys: seq<set<K>>) {
    && (forall id: JobId, k :: Exists(|keys|, id) && k in keys[id - 1] ==> k in m && id in m[k])
    && (forall k :: k in m ==> m[k] != [] && Ascending(m[k]))
    && (forall k, id: JobId :: k in m && id in m[k] ==> Exists(|keys|, id) && k in keys[id - 1])
  }

  predicate Below(s: seq<nat>, x: nat) {
    forall y :: y in s ==> y < x
  }

  lemma AscendingSnoc(s: seq<nat>, x: nat)
    requires Ascending(s) && Below(s, x)
    ensures Ascending(s + [x])
  {
    forall i, j | 0 <= i < j < |s + [x]| ensures (s + [x])[i] < (s + [x])[j] {
      assert (s + [x])[i] in s;
    }
  }

  lemma AscendingFront(s: seq<nat>)
    requires Ascending(s) && s != []
    ensures Ascending(s[..|s| - 1])
    ensures Below(s[..|s| - 1], s[|s| - 1])
    ensures forall y :: y in s <==> y in s[..|s| - 1] || y == s[|s| - 1]
  {
    assert s == s[..|s| - 1] + [s[|s| - 1]];
  }

  function InsertSorted(s: seq<nat>, x: nat): (r: seq<nat>)
    requires Ascending(s)
    ensures Ascending(r)
    ensures forall y :: y in r <==> y == x || y in s
  {
    if s == [] then [x]
    else
      AscendingFront(s);
      var last := s[|s| - 1];
      if last < x then AscendingSnoc(s, x); s + [x]
      else if last == x then s
      else
        var front := InsertSorted(s[..|s| - 1], x);
        AscendingSnoc(front, last);
        front + [last]
  }

  function RemoveSorted(s: seq<nat>, x: nat): (r: seq<nat>)
    requires Ascending(s)
    ensures Ascending(r)
    ensures forall y :: y in r <==> y != x && y in s
  {
    if s == [] then []
    else
      AscendingFront(s);
      var last := s[|s| - 1];
      var rest := RemoveSorted(s[..|s| - 1], x);
      if last == x then rest else AscendingSnoc(rest, last); rest + [last]
  }

  function Lookup<K(==)>(m: Index<K>, k: K): seq<JobId> {
    if k in m then m[k] else []
  }

  function Insert<K(==)>(m: Index<K>, k: K, id: JobId): Index<K>
    requires k in m ==> Ascending(m[k])
  {
    m[k := InsertSorted(Lookup(m, k), id)]
  }

  /** Removes `id` from the list of `k`, dropping the entry once it is empty. */
  function Remove<K(==)>(m: Index<K>, k: K, id: JobId): Index<K>
    requires k in m ==> Ascending(m[k])
  {
    if k !in m then m
    else
      var rest := RemoveSorted(m[k], id);
      if rest == [] then m - {k} else m[k := rest]
  }

  lemma ListsAscend<K(!new)>(m: Index<K>, keys: seq<set<K>>)
    requires Indexes(m, keys)
    ensures forall k :: k in m ==> Ascending(m[k])
  {
  }

  lemma InsertIndexes<K(!new)>(m: Index<K>, keys: seq<set<K>>, k: K, id: JobId)
    requires Indexes(m, keys) && Exists(|keys|, id)
    ensures Indexes(Insert(m, k, id), keys[id - 1 := keys[id - 1] + {k}])
  {
    var keys' := keys[id - 1 := keys[id - 1] + {k}];
    var m' := Insert(m, k, id);
    assert id in m'[k];
    forall j: JobId, k' | Exists(|keys'|, j) && k' in keys'[j - 1]
      ensures k' in m' && j in m'[k']
    {
      assert k' in keys[j - 1] || (k' == k && j == id);
    }
    forall k', j: JobId | k' in m' && j in m'[k']
      ensures Exists(|keys'|, j) && k' in keys'[j - 1]
    {
      if k' in m && j in m[k'] {
        assert Exists(|keys|, j) && k' in keys[j - 1];
      }
    }
  }

  lemma RemoveLists<K(!new)>(m: Index<K>, k: K, id: JobId)
    requires forall k' :: k' in m ==> m[k'] != [] && Ascending(m[k'])
    ensures var m' := Remove(m, k, id);
      && (forall k' :: k' in m' ==> k' in m && m'[k'] != [] && Ascending(m'[k']))
      && (forall k', j: JobId :: k' in m' && j in m'[k'] ==> j in m[k'] && (k' != k || j != id))
      && (forall k', j: JobId :: k' in m && j in m[k'] && (k' != k || j != id) ==> k' in m' && j in m'[k'])
  {
    hide RemoveSorted, Ascending;
    var m' := Remove(m, k, id);
    forall k', j: JobId | k' in m && j in m[k'] && (k' != k || j != id)
      ensures k' in m' && j in m'[k']
    {
      if k' == k {
        assert j in RemoveSorted(m[k], id);
      }
    }
  }

  lemma IndexesIntro<K(!new)>(m: Index<K>, keys: seq<set<K>>)
    requires forall id: JobId, k :: Exists(|keys|, id) && k in keys[id - 1] ==> k in m && id in m[k]
    requires forall k :: k in m ==> m[k] != [] && Ascending(m[k])
    requires forall k, id: JobId :: k in m && id in m[k] ==> Exists(|keys|, id) && k in keys[id - 1]
    ensures Indexes(m, keys)
  {
  }

  lemma RemoveIndexes<K(!new)>(m: Index<K>, keys: seq<set<K>>, k: K, id: JobId)
    requires Indexes(m, keys) && Exists(|keys|, id)
    ensures Indexes(Remove(m, k, id), keys[id - 1 := keys[id - 1] - {k}])
  {
    hide Remove, Ascending;
    RemoveLists(m, k, id);
    var keys', m' := keys[id - 1 := keys[id - 1] - {k}], Remove(m, k, id);
    forall j: JobId, k' | Exists(|keys'|, j) && k' in keys'[j - 1]
      ensures k' in m' && j in m'[k']
    {
      assert k' in keys[j - 1] && (k' != k || j != id);
      assert k' in m && j in m[k'];
    }
    forall k', j: JobId | k' in m' && j in m'[k']
      ensures Exists(|keys'|, j) && k' in keys'[j - 1]
    {
      assert k' in m && j in m[k'];
      assert Exists(|keys|, j) && k' in keys[j - 1];
    }
    IndexesIntro(m', keys');
  }

  /** A new job enters with no keys; inserting its keys comes afterwards. */
  lemma ExtendIndexes<K(!new)>(m: Index<K>, keys: seq<set<K>>)
    requires Indexes(m, keys)
    ensures Indexes(m, keys + [{}])
  {
    var keys' := keys + [{}];
    forall id: JobId, k | Exists(|keys'|, id) && k in keys'[id - 1]
      ensures k in m && id in m[k]
    {
      assert id <= |keys|;
      assert Exists(|keys|, id) && k in keys[id - 1];
    }
    forall k, id: JobId | k in m && id in m[k]
      ensures Exists(|keys'|, id) && k in keys'[id - 1]
    {
      assert Exists(|keys|, id) && k in keys[id - 1];
    }
  }

  /** Pushing a fresh, largest id at the end is the same as inserting it in order. */
  lemma PushIsInsert(s: seq<nat>, x: nat)
    requires Ascending(s) && Below(s, x)
    ensures InsertSorted(s, x) == s + [x]
  {
    if s != [] {
      assert s[|s| - 1] in s;
    }
  }

  lemma {:induction false} AscendingUnique(a: seq<nat>, b: seq<nat>)
    requires Ascending(a) && Ascending(b)
    requires forall x :: x in a <==> x in b
    ensures a == b
  {
    hide Ascending;
    assert (a != [] ==> a[0] in b) && (b != [] ==> b[0] in a);
    if a != [] && b != [] {
      var la, lb := a[|a| - 1], b[|b| - 1];
      var fa, fb := a[..|a| - 1], b[..|b| - 1];
      AscendingFront(a);
      AscendingFront(b);
      assert la in a && lb in b;
      assert la in b && lb in a;
      assert la == lb;
      assert a == fa + [la] && b == fb + [lb];
      assert Below(fa, la) && Below(fb, lb);
      forall x: nat ensures x in fa <==> x in fb {
        assert x in fa ==> x in a;
        assert x in fb ==> x in b;
      }
      AscendingUnique(fa, fb);
    }
  }

  /** The key sets determine the index completely, so an index kept up to date in place is equal
      to the one rebuilt from scratch. */
  lemma IndexUnique<K(!new)>(a: Index<K>, b: Index<K>, keys: seq<set<K>>)
    requires Indexes(a, keys) && Indexes(b, keys)
    ensures a == b
  {
    assert a.Keys == b.Keys by {
      forall k | k in a ensures k in b {
        var id := a[k][0];
        assert id in a[k];
        assert Exists(|keys|, id) && k in keys[id - 1];
      }
      forall k | k in b ensures k in a {
        var id := b[k][0];
        assert id in b[k];
        assert Exists(|keys|, id) && k in keys[id - 1];
      }
    }
    forall k | k in a ensures a[k] == b[k] {
      forall id ensures id in a[k] <==> id in b[k] {
        assert id in a[k] ==> Exists(|keys|, id) && k in keys[id - 1];
        assert id in b[k] ==> Exists(|keys|, id) && k in keys[id - 1];
      }
      AscendingUnique(a[k], b[k]);
    }
  }
}
