/**
 Claim identity in a sub-region, as src/iknos/core/find_contradiction.py assigns it: within each
 embedding model the propositions are clustered first-fit in id order, blind to polarity, and a
 claim's key is its model with the index of its cluster.
 */
module ClaimKeys {
  import opened TruthMaintenance
  import opened Clustering

  datatype ModelId = ModelId(tag: int)

  datatype Claim = Claim(node: NodeId, model: ModelId, vector: int)

  datatype ClaimKey = ClaimKey(model: ModelId, cluster: nat)

  function InModel(claims: seq<Claim>, model: ModelId): (r: seq<Claim>)
    ensures forall c :: c in r <==> c in claims && c.model == model
  {
    if claims == [] then []
    else
      var front, last := claims[..|claims| - 1], claims[|claims| - 1];
      assert claims == front + [last];
      InModel(front, model) + if last.model == model then [last] else []
  }

  /** `key` is the cluster of `c` when its model's claims are clustered in order. */
  ghost predicate KeyedRight(claims: seq<Claim>, sim: Similarity<Claim>, threshold: real, c: Claim, key: ClaimKey) {
    var clusters := FirstFit(InModel(claims, c.model), sim, threshold);
    key.model == c.model && key.cluster < |clusters| && c in clusters[key.cluster]
  }

  lemma PlacedAt<T>(x: T, clusters: seq<seq<T>>, sim: Similarity<T>, threshold: real)
    requires Openers(clusters)
    ensures var i, r := FirstFitting(x, clusters, sim, threshold), Placed(x, clusters, sim, threshold);
            i < |r| && x in r[i] && |clusters| <= |r|
            && forall k, y :: 0 <= k < |clusters| && y in clusters[k] ==> y in r[k]
  {
  }

  /** Claims in order, keyed by model and first-fit cluster within the model. */
  method KeyInOrder(claims: seq<Claim>, sim: Similarity<Claim>, threshold: real) returns (keys: seq<ClaimKey>)
    ensures |keys| == |claims|
    ensures forall i :: 0 <= i < |claims| ==> KeyedRight(claims, sim, threshold, claims[i], keys[i])
  {
    hide FirstFit, Placed, InModel;
    keys := [];
    var clustersOf: map<ModelId, seq<seq<Claim>>> := map[];
    NoClaims(sim, threshold);
    for n := 0 to |claims|
      invariant |keys| == n
      invariant forall m {:trigger ClustersAt(clustersOf, m)} ::
                  ClustersAt(clustersOf, m) == FirstFit(InModel(claims[..n], m), sim, threshold)
      invariant forall i :: 0 <= i < n ==> KeyedRight(claims[..n], sim, threshold, claims[i], keys[i])
    {
      var c := claims[n];
      var clusters := ClustersAt(clustersOf, c.model);
      ghost var before := clustersOf;
      var i := FirstFitting(c, clusters, sim, threshold);
      keys := keys + [ClaimKey(c.model, i)];
      clustersOf := clustersOf[c.model := Placed(c, clusters, sim, threshold)];
      PlacedAt(c, clusters, sim, threshold);
      forall m
        ensures ClustersAt(clustersOf, m) == FirstFit(InModel(claims[..n + 1], m), sim, threshold)
      {
        assert ClustersAt(before, m) == FirstFit(InModel(claims[..n], m), sim, threshold);
        OneMoreClaim(claims, n, sim, threshold, m);
      }
      OneMoreClaim(claims, n, sim, threshold, c.model);
      assert KeyedRight(claims[..n + 1], sim, threshold, c, keys[n]);
      forall k | 0 <= k < n
        ensures KeyedRight(claims[..n + 1], sim, threshold, claims[k], keys[k])
      {
        OneMoreClaim(claims, n, sim, threshold, claims[k].model);
        PlacedAt(c, FirstFit(InModel(claims[..n], c.model), sim, threshold), sim, threshold);
      }
    }
    assert claims[..|claims|] == claims;
  }

  function ClustersAt(clustersOf: map<ModelId, seq<seq<Claim>>>, m: ModelId): seq<seq<Claim>> {
    if m in clustersOf then clustersOf[m] else []
  }

  lemma NoClaims(sim: Similarity<Claim>, threshold: real)
    ensures forall m :: FirstFit(InModel([], m), sim, threshold) == []
  {
  }

  lemma OneMoreClaim(claims: seq<Claim>, n: nat, sim: Similarity<Claim>, threshold: real, m: ModelId)
    requires n < |claims|
    ensures FirstFit(InModel(claims[..n + 1], m), sim, threshold)
         == if m == claims[n].model
            then Placed(claims[n], FirstFit(InModel(claims[..n], m), sim, threshold), sim, threshold)
            else FirstFit(InModel(claims[..n], m), sim, threshold)
  {
    assert claims[..n + 1][..n] == claims[..n];
    if m == claims[n].model {
      var grown := InModel(claims[..n + 1], m);
      assert grown == InModel(claims[..n], m) + [claims[n]];
      assert grown[..|grown| - 1] == InModel(claims[..n], m);
    } else {
      assert InModel(claims[..n], m) + [] == InModel(claims[..n], m);
    }
  }

  function FiledById(claims: seq<Claim>, c: Claim): seq<Claim> {
    if claims != [] && c.node.rank < claims[|claims| - 1].node.rank then
      FiledById(claims[..|claims| - 1], c) + [claims[|claims| - 1]]
    else claims + [c]
  }

  /** The claims sorted by proposition id. */
  function ById(claims: seq<Claim>): seq<Claim> {
    if claims == [] then [] else FiledById(ById(claims[..|claims| - 1]), claims[|claims| - 1])
  }

  /** In the order of the ids. */
  ghost predicate IdOrder(claims: seq<Claim>) {
    forall i, j :: 0 <= i < j < |claims| ==> claims[i].node.rank <= claims[j].node.rank
  }

  lemma {:induction false} FiledByIdHolds(claims: seq<Claim>, c: Claim)
    ensures multiset(FiledById(claims, c)) == multiset(claims) + multiset{c}
    ensures forall x :: x in FiledById(claims, c) <==> x in claims || x == c
  {
    if claims != [] && c.node.rank < claims[|claims| - 1].node.rank {
      var n := |claims| - 1;
      assert claims == claims[..n] + [claims[n]];
      FiledByIdHolds(claims[..n], c);
    }
  }

  lemma {:induction false} FiledByIdInOrder(claims: seq<Claim>, c: Claim)
    requires IdOrder(claims)
    ensures IdOrder(FiledById(claims, c))
  {
    if claims != [] && c.node.rank < claims[|claims| - 1].node.rank {
      var n := |claims| - 1;
      FiledByIdInOrder(claims[..n], c);
      FiledByIdHolds(claims[..n], c);
      var r := FiledById(claims[..n], c);
      forall i | 0 <= i < |r|
        ensures r[i].node.rank <= claims[n].node.rank
      {
        assert r[i] in r;
      }
    }
  }

  lemma {:induction false} ByIdIs(claims: seq<Claim>)
    ensures IdOrder(ById(claims)) && multiset(ById(claims)) == multiset(claims)
    ensures forall x :: x in ById(claims) <==> x in claims
    ensures forall i, j :: 0 <= i < j < |ById(claims)| ==> ById(claims)[i].node.rank <= ById(claims)[j].node.rank
  {
    if claims != [] {
      var front, c := claims[..|claims| - 1], claims[|claims| - 1];
      assert claims == front + [c];
      ByIdIs(front);
      FiledByIdHolds(ById(front), c);
      FiledByIdInOrder(ById(front), c);
    }
  }

  /** The claim keys of a sub-region. A proposition given twice keeps its last key. */
  method AssignClaimKeys(claims: seq<Claim>, sim: Similarity<Claim>, threshold: real)
    returns (keys: map<NodeId, ClaimKey>)
    ensures forall n :: n in keys <==> exists c :: c in claims && c.node == n
    ensures forall n :: n in keys ==>
              exists c :: c in claims && c.node == n && KeyedRight(ById(claims), sim, threshold, c, keys[n])
  {
    ByIdIs(claims);
    var sorted := ById(claims);
    hide KeyedRight, ById;
    var listed := KeyInOrder(sorted, sim, threshold);
    keys := map[];
    for i := 0 to |sorted|
      invariant forall n :: n in keys <==> exists k :: 0 <= k < i && sorted[k].node == n
      invariant forall n :: n in keys ==>
                  exists c :: c in claims && c.node == n && KeyedRight(sorted, sim, threshold, c, keys[n])
    {
      assert sorted[i] in claims && KeyedRight(sorted, sim, threshold, sorted[i], listed[i]);
      keys := keys[sorted[i].node := listed[i]];
    }
    forall n
      ensures n in keys <==> exists c :: c in claims && c.node == n
    {
      if c :| c in claims && c.node == n {
        var k :| 0 <= k < |sorted| && sorted[k] == c;
      }
    }
  }
}
