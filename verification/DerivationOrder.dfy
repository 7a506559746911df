/**
 The order the adapter sorts derivations by: conclusion first, then the sorted body
 (src/iknos/core/derivation_adapter.py, line 202). It is total, so the sorted list is
 determined by what is in it.
 */
module DerivationOrder {
  import opened TruthMaintenance

  /** Lexicographic order on lists of ids, a proper prefix first. */
  predicate LexLe(a: seq<NodeId>, b: seq<NodeId>) {
    if a == [] then true
    else if b == [] then false
    else a[0].rank < b[0].rank || (a[0].rank == b[0].rank && LexLe(a[1..], b[1..]))
  }

  lemma {:induction false} LexTotal(a: seq<NodeId>, b: seq<NodeId>)
    ensures LexLe(a, b) || LexLe(b, a)
    ensures LexLe(a, b) && LexLe(b, a) ==> a == b
  {
    if a != [] && b != [] && a[0].rank == b[0].rank {
      LexTotal(a[1..], b[1..]);
      assert a == [a[0]] + a[1..] && b == [b[0]] + b[1..];
    }
  }

  lemma {:induction false} LexTransitive(a: seq<NodeId>, b: seq<NodeId>, c: seq<NodeId>)
    requires LexLe(a, b) && LexLe(b, c)
    ensures LexLe(a, c)
  {
    if a != [] && b != [] && c != [] && a[0].rank == b[0].rank == c[0].rank {
      LexTransitive(a[1..], b[1..], c[1..]);
    }
  }

  ghost predicate IsLeastOf(n: NodeId, s: set<NodeId>) {
    n in s && forall m :: m in s ==> n.rank <= m.rank
  }

  lemma {:induction false} LeastExists(s: set<NodeId>)
    requires s != {}
    ensures exists n :: IsLeastOf(n, s)
  {
    var n :| n in s;
    if s == {n} {
      assert IsLeastOf(n, s);
    } else {
      LeastExists(s - {n});
      var m :| IsLeastOf(m, s - {n});
      assert IsLeastOf(if n.rank <= m.rank then n else m, s);
    }
  }

  function SortedBody(s: set<NodeId>): (r: seq<NodeId>)
    ensures forall n :: n in r <==> n in s
  {
    if s == {} then []
    else
      LeastExists(s);
      var n :| n in s && forall m :: m in s ==> n.rank <= m.rank;
      [n] + SortedBody(s - {n})
  }

  predicate Le(a: Derivation, b: Derivation) {
    || a.conclusion.rank < b.conclusion.rank
    || (a.conclusion.rank == b.conclusion.rank && LexLe(SortedBody(a.body), SortedBody(b.body)))
  }

  lemma LeTotal(a: Derivation, b: Derivation)
    ensures Le(a, b) || Le(b, a)
    ensures Le(a, b) && Le(b, a) ==> a == b
  {
    LexTotal(SortedBody(a.body), SortedBody(b.body));
    if SortedBody(a.body) == SortedBody(b.body) {
      forall n
        ensures n in a.body <==> n in b.body
      {
        assert n in SortedBody(a.body) <==> n in SortedBody(b.body);
      }
    }
  }

  lemma LeTransitive(a: Derivation, b: Derivation, c: Derivation)
    requires Le(a, b) && Le(b, c)
    ensures Le(a, c)
  {
    if a.conclusion.rank == b.conclusion.rank == c.conclusion.rank {
      LexTransitive(SortedBody(a.body), SortedBody(b.body), SortedBody(c.body));
    }
  }

  ghost predicate Sorted(ds: seq<Derivation>) {
    forall i, j :: 0 <= i < j < |ds| ==> Le(ds[i], ds[j])
  }

  lemma SameElements(a: seq<Derivation>, b: seq<Derivation>, d: Derivation)
    requires multiset(a) == multiset(b)
    ensures d in a <==> d in b
  {
    assert d in multiset(a) <==> d in multiset(b);
  }

  /** The least element of a sorted list is its first. */
  lemma SameFirst(a: seq<Derivation>, b: seq<Derivation>)
    requires Sorted(a) && Sorted(b) && a != [] && b != [] && a[0] in b && b[0] in a
    ensures a[0] == b[0]
  {
    hide Le;
    var i :| 0 <= i < |b| && b[i] == a[0];
    var j :| 0 <= j < |a| && a[j] == b[0];
    LeTotal(a[0], b[0]);
    LeTotal(a[0], a[0]);
  }

  lemma SortedTail(a: seq<Derivation>)
    requires Sorted(a) && a != []
    ensures Sorted(a[1..])
  {
    hide Le;
  }

  lemma WithoutFirst(a: seq<Derivation>, b: seq<Derivation>)
    requires a != [] && b != [] && multiset(a) == multiset(b) && a[0] == b[0]
    ensures multiset(a[1..]) == multiset(b[1..])
  {
    assert a == [a[0]] + a[1..] && b == [b[0]] + b[1..];
    assert multiset(a[1..]) == multiset(a) - multiset{a[0]} == multiset(b) - multiset{b[0]} == multiset(b[1..]);
  }

  /** A sorted list is determined by its contents. */
  lemma {:induction false} SortedIsUnique(a: seq<Derivation>, b: seq<Derivation>)
    requires Sorted(a) && Sorted(b) && multiset(a) == multiset(b)
    ensures a == b
  {
    hide *;
    assert |multiset(a)| == |a| && |multiset(b)| == |b|;
    if a != [] {
      SameElements(a, b, a[0]);
      SameElements(a, b, b[0]);
      SameFirst(a, b);
      SortedTail(a);
      SortedTail(b);
      WithoutFirst(a, b);
      SortedIsUnique(a[1..], b[1..]);
      assert a == [a[0]] + a[1..] && b == [b[0]] + b[1..];
    }
  }

  function Place(ds: seq<Derivation>, d: Derivation): (r: seq<Derivation>)
    ensures multiset(r) == multiset(ds) + multiset{d}
  {
    if ds == [] || Le(d, ds[0]) then [d] + ds
    else
      assert ds == [ds[0]] + ds[1..];
      [ds[0]] + Place(ds[1..], d)
  }

  lemma {:induction false} PlaceSorts(ds: seq<Derivation>, d: Derivation)
    requires Sorted(ds)
    ensures Sorted(Place(ds, d))
  {
    if ds == [] {
    } else if Le(d, ds[0]) {
      forall j | 0 <= j < |ds|
        ensures Le(d, ds[j])
      {
        if j > 0 {
          LeTransitive(d, ds[0], ds[j]);
        }
      }
    } else {
      PlaceSorts(ds[1..], d);
      LeTotal(d, ds[0]);
      var rest := Place(ds[1..], d);
      forall j | 0 <= j < |rest|
        ensures Le(ds[0], rest[j])
      {
        assert rest[j] in multiset(ds[1..]) + multiset{d};
        assert rest[j] == d || rest[j] in ds[1..];
      }
    }
  }

  /** The stable in-place sort, as the list it leaves behind. */
  function SortDerivations(ds: seq<Derivation>): (r: seq<Derivation>)
    ensures Sorted(r) && multiset(r) == multiset(ds)
  {
    if ds == [] then []
    else
      var front := SortDerivations(ds[..|ds| - 1]);
      PlaceSorts(front, ds[|ds| - 1]);
      assert ds == ds[..|ds| - 1] + [ds[|ds| - 1]];
      Place(front, ds[|ds| - 1])
  }

  // ---------------------------------------------------------------- what the order is

  /** The lists part at position `k`: one ends there, or goes on with the smaller id. */
  ghost predicate PartsAt(a: seq<NodeId>, b: seq<NodeId>, k: nat) {
    && k <= |a| && k <= |b| && a[..k] == b[..k]
    && (k == |a| || (k < |b| && a[k].rank < b[k].rank))
  }

  lemma {:induction false} LexExactly(a: seq<NodeId>, b: seq<NodeId>) returns (k: nat)
    ensures LexLe(a, b) ==> PartsAt(a, b, k)
    ensures forall j: nat :: PartsAt(a, b, j) ==> LexLe(a, b)
  {
    k := 0;
    if a != [] && b != [] {
      k := LexExactly(a[1..], b[1..]);
      if a[0] == b[0] {
        forall j: nat | j > 0
          ensures PartsAt(a, b, j) ==> PartsAt(a[1..], b[1..], j - 1)
          ensures PartsAt(a[1..], b[1..], j - 1) ==> PartsAt(a, b, j)
        {
          SamePrefix(a, b, j);
        }
        k := k + 1;
      } else {
        assert forall j: nat :: j > 0 && PartsAt(a, b, j) ==> a[..j][0] == b[..j][0];
        k := 0;
      }
    }
  }

  lemma SamePrefix(a: seq<NodeId>, b: seq<NodeId>, j: nat)
    requires a != [] && b != [] && a[0] == b[0] && 0 < j
    ensures j <= |a| && j <= |b| ==> (a[..j] == b[..j] <==> a[1..][..j - 1] == b[1..][..j - 1])
  {
    if j <= |a| && j <= |b| {
      assert a[..j] == [a[0]] + a[1..][..j - 1];
      assert b[..j] == [b[0]] + b[1..][..j - 1];
    }
  }

  lemma {:induction false} SortedBodyAscends(s: set<NodeId>, i: nat, j: nat)
    requires i < j < |SortedBody(s)|
    ensures SortedBody(s)[i].rank < SortedBody(s)[j].rank
  {
    var r := SortedBody(s);
    var n := r[0];
    assert r == [n] + SortedBody(s - {n});
    if i > 0 {
      SortedBodyAscends(s - {n}, i - 1, j - 1);
    } else {
      assert r[j] in SortedBody(s - {n});
    }
  }

  /** The list rises: by the conclusions' ids, then by the bodies in ascending order at the first id
      where they differ. */
  lemma SortedRises(ds: seq<Derivation>, i: nat, j: nat) returns (k: nat)
    requires Sorted(ds) && i < j < |ds|
    ensures ds[i].conclusion.rank <= ds[j].conclusion.rank
    ensures ds[i].conclusion == ds[j].conclusion ==> PartsAt(SortedBody(ds[i].body), SortedBody(ds[j].body), k)
  {
    assert Le(ds[i], ds[j]);
    k := LexExactly(SortedBody(ds[i].body), SortedBody(ds[j].body));
  }
}
