/**
 Identity components, as src/iknos/core/resolve.py computes them: union-find with path
 compression over the confirmed SAME_AS pairs. `UnionComponents` returns exactly the classes of two
 or more entities that the pairs connect, whatever order they come in.
 */
module Resolve {
  import opened Sets
  import opened Digraph

  datatype EntityId = EntityId(rank: int)

  type Pair = (EntityId, EntityId)

  // ---------------------------------------------------------------- connection

  /** A SAME_AS edge identifies both ways. */
  ghost function BothWays(pairs: set<Pair>): set<Pair> {
    pairs + set p | p in pairs :: (p.1, p.0)
  }

  ghost predicate Linked(pairs: set<Pair>, u: EntityId, v: EntityId) {
    u == v || Reaches(BothWays(pairs), u, v)
  }

  lemma BothWaysMeans(pairs: set<Pair>, u: EntityId, v: EntityId)
    ensures (u, v) in BothWays(pairs) <==> (u, v) in pairs || (v, u) in pairs
  {
    if (v, u) in pairs {
      var p := (v, u);
      assert (p.1, p.0) in BothWays(pairs);
    }
  }

  lemma LinkedTransitive(pairs: set<Pair>, u: EntityId, v: EntityId, w: EntityId)
    requires Linked(pairs, u, v) && Linked(pairs, v, w)
    ensures Linked(pairs, u, w)
  {
    if u != v && v != w {
      ReachesTransitive(BothWays(pairs), u, v, w);
    }
  }

  lemma {:induction false} WalkLinked(pairs: set<Pair>, path: seq<EntityId>, i: nat)
    requires Walk(BothWays(pairs), path) && i < |path|
    ensures Linked(pairs, path[i], path[0])
  {
    hide Linked, BothWays;
    if i == 0 {
      assert Linked(pairs, path[0], path[0]) by { LinkedSelf(pairs, path[0]); }
    } else {
      WalkLinked(pairs, path, i - 1);
      PairLinks(pairs, path[i - 1], path[i]);
      LinkedTransitive(pairs, path[i], path[i - 1], path[0]);
    }
  }

  lemma LinkedSelf(pairs: set<Pair>, u: EntityId)
    ensures Linked(pairs, u, u)
  {
  }

  lemma PairLinks(pairs: set<Pair>, u: EntityId, v: EntityId)
    requires (u, v) in BothWays(pairs)
    ensures Linked(pairs, u, v) && Linked(pairs, v, u)
  {
    BothWaysMeans(pairs, u, v);
    BothWaysMeans(pairs, v, u);
    EdgeReaches(BothWays(pairs), u, v);
    EdgeReaches(BothWays(pairs), v, u);
  }

  lemma LinkedSymmetric(pairs: set<Pair>, u: EntityId, v: EntityId)
    requires Linked(pairs, u, v)
    ensures Linked(pairs, v, u)
  {
    if u != v {
      var path :| WalkFrom(BothWays(pairs), path, u, v) && |path| > 1;
      WalkLinked(pairs, path, |path| - 1);
    }
  }

  lemma LinkedMonotone(pairs: set<Pair>, more: set<Pair>, u: EntityId, v: EntityId)
    requires pairs <= more && Linked(pairs, u, v)
    ensures Linked(more, u, v)
  {
    if u != v {
      forall p | p in BothWays(pairs)
        ensures p in BothWays(more)
      {
        BothWaysMeans(pairs, p.0, p.1);
        BothWaysMeans(more, p.0, p.1);
      }
      ReachesMonotone(BothWays(pairs), BothWays(more), u, v);
    }
  }

  /** What one more pair connects: what was connected, and the class of `x` with that of `y`. */
  ghost predicate LinkedThrough(pairs: set<Pair>, x: EntityId, y: EntityId, u: EntityId, v: EntityId) {
    || Linked(pairs, u, v)
    || (Linked(pairs, u, x) && Linked(pairs, v, y))
    || (Linked(pairs, u, y) && Linked(pairs, v, x))
  }

  lemma {:induction false} WalkLinkedThrough(pairs: set<Pair>, x: EntityId, y: EntityId, path: seq<EntityId>, i: nat)
    requires Walk(BothWays(pairs + {(x, y)}), path) && i < |path|
    ensures LinkedThrough(pairs, x, y, path[0], path[i])
  {
    hide Linked, BothWays;
    if i == 0 {
      LinkedSelf(pairs, path[0]);
    } else {
      WalkLinkedThrough(pairs, x, y, path, i - 1);
      StepLinkedThrough(pairs, x, y, path[0], path[i - 1], path[i]);
    }
  }

  lemma StepLinkedThrough(pairs: set<Pair>, x: EntityId, y: EntityId, u: EntityId, v: EntityId, w: EntityId)
    requires LinkedThrough(pairs, x, y, u, v) && (v, w) in BothWays(pairs + {(x, y)})
    ensures LinkedThrough(pairs, x, y, u, w)
  {
    BothWaysMeans(pairs + {(x, y)}, v, w);
    BothWaysMeans(pairs, v, w);
    if (v, w) in BothWays(pairs) {
      PairLinks(pairs, v, w);
    }
    hide Linked, BothWays;
    LinkedSelf(pairs, x);
    LinkedSelf(pairs, y);
    Chains(pairs, u, v, w);
    Chains(pairs, w, v, x);
    Chains(pairs, w, v, y);
    if Linked(pairs, v, x) {
      LinkedSymmetric(pairs, v, x);
    }
    if Linked(pairs, v, y) {
      LinkedSymmetric(pairs, v, y);
    }
    Chains(pairs, u, x, v);
    Chains(pairs, u, y, v);
  }

  lemma Chains(pairs: set<Pair>, u: EntityId, v: EntityId, w: EntityId)
    ensures Linked(pairs, u, v) && Linked(pairs, v, w) ==> Linked(pairs, u, w)
  {
    if Linked(pairs, u, v) && Linked(pairs, v, w) {
      LinkedTransitive(pairs, u, v, w);
    }
  }

  lemma OneMorePair(pairs: set<Pair>, x: EntityId, y: EntityId, u: EntityId, v: EntityId)
    ensures Linked(pairs + {(x, y)}, u, v) <==> LinkedThrough(pairs, x, y, u, v)
  {
    var more := pairs + {(x, y)};
    if Linked(more, u, v) && u != v {
      var path :| WalkFrom(BothWays(more), path, u, v) && |path| > 1;
      WalkLinkedThrough(pairs, x, y, path, |path| - 1);
    }
    if LinkedThrough(pairs, x, y, u, v) {
      LinkedBack(pairs, x, y, u, v);
    }
  }

  lemma LinkedBack(pairs: set<Pair>, x: EntityId, y: EntityId, u: EntityId, v: EntityId)
    requires LinkedThrough(pairs, x, y, u, v)
    ensures Linked(pairs + {(x, y)}, u, v)
  {
    var more := pairs + {(x, y)};
    BothWaysMeans(more, x, y);
    PairLinks(more, x, y);
    hide Linked, BothWays;
    if Linked(pairs, u, v) {
      LinkedMonotone(pairs, more, u, v);
    } else if Linked(pairs, u, x) && Linked(pairs, v, y) {
      LinkedMonotone(pairs, more, u, x);
      LinkedMonotone(pairs, more, v, y);
      LinkedSymmetric(more, v, y);
      LinkedTransitive(more, u, x, y);
      LinkedTransitive(more, u, y, v);
    } else {
      LinkedMonotone(pairs, more, u, y);
      LinkedMonotone(pairs, more, v, x);
      LinkedSymmetric(more, v, x);
      LinkedTransitive(more, u, y, x);
      LinkedTransitive(more, u, x, v);
    }
  }

  ghost function Endpoints(pairs: set<Pair>): set<EntityId> {
    (set p | p in pairs :: p.0) + (set p | p in pairs :: p.1)
  }

  /** An entity no pair names stands alone. */
  lemma OutsideStandsAlone(pairs: set<Pair>, u: EntityId, v: EntityId)
    requires Linked(pairs, u, v) && u != v
    ensures u in Endpoints(pairs) && v in Endpoints(pairs)
  {
    ReachesFirst(BothWays(pairs), u, v);
    ReachesLast(BothWays(pairs), u, v);
    var s :| (u, s) in BothWays(pairs);
    var t :| (t, v) in BothWays(pairs);
    BothWaysMeans(pairs, u, s);
    BothWaysMeans(pairs, t, v);
    assert (u, s).0 == (s, u).1 == u && (t, v).1 == (v, t).0 == v;
  }

  // ---------------------------------------------------------------- union-find

  type Parents = map<EntityId, EntityId>

  /** An entity climbs, ever higher, to the root of its class. */
  ghost predicate Climbs(parent: Parents, root: Parents, height: map<EntityId, nat>, top: nat, x: EntityId)
    requires parent.Keys == root.Keys == height.Keys && x in parent
  {
    && parent[x] in parent && root[x] in parent
    && root[parent[x]] == root[x] && root[root[x]] == root[x] && (parent[x] == x <==> root[x] == x)
    && (parent[x] != x ==> height[x] < height[parent[x]] && height[x] < height[root[x]])
    && height[x] <= top
  }

  /** The forest `parent` stands for the partition `root`. */
  ghost predicate Forest(parent: Parents, root: Parents, height: map<EntityId, nat>, top: nat) {
    && parent.Keys == root.Keys == height.Keys
    && forall x {:trigger Climbs(parent, root, height, top, x)} | x in parent :: Climbs(parent, root, height, top, x)
  }

  lemma Planted(parent: Parents, root: Parents, height: map<EntityId, nat>, top: nat, x: EntityId)
    requires Forest(parent, root, height, top) && x !in parent
    ensures Forest(parent[x := x], root[x := x], height[x := 0], top)
  {
    var parent', root', height' := parent[x := x], root[x := x], height[x := 0];
    forall u | u in parent'
      ensures Climbs(parent', root', height', top, u)
    {
      if u != x {
        assert Climbs(parent, root, height, top, u);
      }
    }
  }

  lemma Compressed(parent: Parents, root: Parents, height: map<EntityId, nat>, top: nat, x: EntityId)
    requires Forest(parent, root, height, top) && x in parent && parent[x] != x
    ensures Forest(parent[x := root[x]], root, height, top)
  {
    assert Climbs(parent, root, height, top, x);
    var parent' := parent[x := root[x]];
    forall u | u in parent'
      ensures Climbs(parent', root, height, top, u)
    {
      assert Climbs(parent, root, height, top, u);
    }
  }

  /** The partition after hanging the class of root `r` under root `t`. */
  ghost function United(root: Parents, r: EntityId, t: EntityId): Parents {
    map x | x in root :: if root[x] == r then t else root[x]
  }

  ghost function Raised(height: map<EntityId, nat>, r: EntityId, t: EntityId): map<EntityId, nat>
    requires r in height && t in height
  {
    height[t := if height[t] > height[r] then height[t] else height[r] + 1]
  }

  lemma Hung(parent: Parents, root: Parents, height: map<EntityId, nat>, top: nat, r: EntityId, t: EntityId)
    requires Forest(parent, root, height, top) && r in parent && t in parent && root[r] == r && root[t] == t && r != t
    ensures Forest(parent[r := t], United(root, r, t), Raised(height, r, t), top + 1)
  {
    var parent', root', height' := parent[r := t], United(root, r, t), Raised(height, r, t);
    assert Climbs(parent, root, height, top, r) && Climbs(parent, root, height, top, t);
    forall u | u in parent'
      ensures Climbs(parent', root', height', top + 1, u)
    {
      assert Climbs(parent, root, height, top, u);
      assert Climbs(parent, root, height, top, parent[u]);
    }
  }

  lemma UnitedWithItself(root: Parents, r: EntityId)
    ensures United(root, r, r) == root
  {
  }

  class UnionFind {
    var parent: Parents
    ghost var root: Parents
    ghost var height: map<EntityId, nat>
    ghost var top: nat

    ghost predicate Valid()
      reads this
    {
      Forest(parent, root, height, top)
    }

    constructor ()
      ensures Valid() && parent == map[] && root == map[]
    {
      parent, root, height, top := map[], map[], map[], 0;
    }

    /** The root of an entity, which becomes a class of its own if it is new. */
    method Find(x: EntityId) returns (r: EntityId)
      requires Valid()
      modifies this
      ensures Valid() && x in root && r == root[x]
      ensures root == if x in old(root) then old(root) else old(root)[x := x]
    {
      if x !in parent {
        Planted(parent, root, height, top, x);
        parent, root, height := parent[x := x], root[x := x], height[x := 0];
      }
      r := x;
      assert Climbs(parent, root, height, top, r);
      while parent[r] != r
        invariant r in parent && Climbs(parent, root, height, top, r) && root[r] == root[x]
        decreases top - height[r]
      {
        r := parent[r];
        assert Climbs(parent, root, height, top, r);
      }
      var y := x;
      ghost var roots, heights := root, height;
      assert Climbs(parent, root, height, top, y);
      while parent[y] != r
        invariant Valid() && root == roots && height == heights && r in parent && root[r] == r
        invariant y in parent && Climbs(parent, root, height, top, y) && root[y] == r
        decreases top - height[y]
      {
        Compressed(parent, root, height, top, y);
        var next := parent[y];
        parent := parent[y := r];
        y := next;
        assert Climbs(parent, root, height, top, y);
      }
    }

    method Union(x: EntityId, y: EntityId)
      requires Valid()
      modifies this
      ensures Valid()
      ensures var before := WithSingletons(old(root), {x, y}); root == United(before, before[x], before[y])
    {
      hide Forest, United, Raised, WithSingletons;
      ghost var roots0 := root;
      var t := Find(y);
      ghost var roots1 := root;
      var r := Find(x);
      FoundBoth(roots0, roots1, root, x, y);
      Linking(parent, root, height, top, x, y);
      if r != t {
        height, top := Raised(height, r, t), top + 1;
      }
      parent, root := parent[r := t], United(root, r, t);
    }
  }

  lemma FoundBoth(root0: Parents, root1: Parents, root2: Parents, x: EntityId, y: EntityId)
    requires root1 == if y in root0 then root0 else root0[y := y]
    requires root2 == if x in root1 then root1 else root1[x := x]
    ensures root2 == WithSingletons(root0, {x, y})
  {
  }

  /** Hanging one root under the other, or under itself, leaves a forest. */
  lemma Linking(parent: Parents, root: Parents, height: map<EntityId, nat>, top: nat, x: EntityId, y: EntityId)
    requires Forest(parent, root, height, top) && x in root && y in root
    ensures var r, t := root[x], root[y];
            && r in height && t in height
            && if r == t then Forest(parent[r := t], United(root, r, t), height, top)
               else Forest(parent[r := t], United(root, r, t), Raised(height, r, t), top + 1)
  {
    hide Forest, Climbs, United, Raised;
    ForestKeys(parent, root, height, top);
    var r, t := root[x], root[y];
    Rooted(parent, root, height, top, x);
    Rooted(parent, root, height, top, y);
    if r == t {
      UnitedWithItself(root, r);
      assert parent[r := t] == parent;
    } else {
      Hung(parent, root, height, top, r, t);
    }
  }

  lemma ForestKeys(parent: Parents, root: Parents, height: map<EntityId, nat>, top: nat)
    requires Forest(parent, root, height, top)
    ensures parent.Keys == root.Keys == height.Keys
  {
  }

  lemma Rooted(parent: Parents, root: Parents, height: map<EntityId, nat>, top: nat, x: EntityId)
    requires Forest(parent, root, height, top) && x in parent
    ensures parent.Keys == root.Keys == height.Keys && root[x] in root && root[root[x]] == root[x]
    ensures parent[root[x]] == root[x]
  {
    assert Climbs(parent, root, height, top, x);
    assert Climbs(parent, root, height, top, root[x]);
  }

  ghost function WithSingletons(root: Parents, xs: set<EntityId>): Parents {
    map x | x in root.Keys + xs :: if x in root then root[x] else x
  }

  // ---------------------------------------------------------------- the components

  /** The partition puts two entities together exactly when the pairs connect them. */
  ghost predicate Partitions(root: Parents, pairs: set<Pair>) {
    && root.Keys == Endpoints(pairs)
    && root.Values <= root.Keys
    && forall u, v {:trigger Linked(pairs, u, v)} | u in root && v in root :: root[u] == root[v] <==> Linked(pairs, u, v)
  }

  lemma NothingPartitioned()
    ensures Partitions(map[], {})
  {
  }

  lemma SingletonsPartition(root: Parents, pairs: set<Pair>, x: EntityId, y: EntityId, u: EntityId, v: EntityId)
    requires Partitions(root, pairs) && u in WithSingletons(root, {x, y}) && v in WithSingletons(root, {x, y})
    ensures WithSingletons(root, {x, y})[u] == WithSingletons(root, {x, y})[v] <==> Linked(pairs, u, v)
  {
    if u in root && v in root {
    } else if Linked(pairs, u, v) && u != v {
      OutsideStandsAlone(pairs, u, v);
    } else if u == v {
      LinkedSelf(pairs, u);
    }
  }

  lemma EndpointsGrow(pairs: set<Pair>, x: EntityId, y: EntityId)
    ensures Endpoints(pairs + {(x, y)}) == Endpoints(pairs) + {x, y}
  {
    var more := pairs + {(x, y)};
    assert (x, y) in more;
    assert x == (x, y).0 && y == (x, y).1;
  }

  /** One union keeps the partition right. */
  lemma UnionPartitions(root: Parents, pairs: set<Pair>, x: EntityId, y: EntityId)
    requires Partitions(root, pairs)
    ensures var before := WithSingletons(root, {x, y});
            Partitions(United(before, before[x], before[y]), pairs + {(x, y)})
  {
    var before := WithSingletons(root, {x, y});
    var after := United(before, before[x], before[y]);
    EndpointsGrow(pairs, x, y);
    assert before.Values <= before.Keys && after.Values <= after.Keys;
    forall u, v | u in after && v in after
      ensures after[u] == after[v] <==> Linked(pairs + {(x, y)}, u, v)
    {
      OneMorePair(pairs, x, y, u, v);
      SingletonsPartition(root, pairs, x, y, u, v);
      SingletonsPartition(root, pairs, x, y, u, x);
      SingletonsPartition(root, pairs, x, y, u, y);
      SingletonsPartition(root, pairs, x, y, v, x);
      SingletonsPartition(root, pairs, x, y, v, y);
      hide Linked, WithSingletons, Partitions;
    }
  }

  /** The classes of two or more entities that the pairs connect. */
  ghost predicate Classes(components: seq<set<EntityId>>, pairs: set<Pair>) {
    && Disjoint(components)
    && (forall i :: 0 <= i < |components| ==> |components[i]| > 1)
    && (forall i, u, v :: 0 <= i < |components| && u in components[i] ==> (v in components[i] <==> Linked(pairs, u, v)))
    && (forall u, v :: u != v && Linked(pairs, u, v) ==> exists i :: 0 <= i < |components| && u in components[i])
  }

  ghost predicate Disjoint(components: seq<set<EntityId>>) {
    forall i, j :: 0 <= i < j < |components| ==> components[i] !! components[j]
  }

  /** `groups` files the entities seen so far under their roots. */
  ghost predicate Grouped(root: Parents, seen: set<EntityId>, groups: map<EntityId, set<EntityId>>) {
    && seen <= root.Keys
    && (forall g, n :: g in groups && n in groups[g] ==> n in seen && root[n] == g)
    && (forall n :: n in seen ==> root[n] in groups && n in groups[root[n]])
  }

  lemma GroupOne(root: Parents, seen: set<EntityId>, groups: map<EntityId, set<EntityId>>, n: EntityId)
    requires Grouped(root, seen, groups) && n in root
    ensures var g := root[n];
            Grouped(root, seen + {n}, groups[g := (if g in groups then groups[g] else {}) + {n}])
  {
  }

  lemma NothingGrouped(root: Parents)
    ensures Grouped(root, {}, map[])
  {
  }

  lemma GroupsApart(root: Parents, seen: set<EntityId>, groups: map<EntityId, set<EntityId>>)
    requires Grouped(root, seen, groups)
    ensures forall g, g' :: g in groups && g' in groups && g != g' ==> groups[g] !! groups[g']
  {
    forall g, g' | g in groups && g' in groups && g != g'
      ensures groups[g] !! groups[g']
    {
      assert forall n :: n in groups[g] ==> root[n] == g;
    }
  }

  /** The groups of two or more, each once. */
  ghost predicate Lists(groups: map<EntityId, set<EntityId>>, keys: set<EntityId>, components: seq<set<EntityId>>) {
    && keys <= groups.Keys && Disjoint(components)
    && (forall i :: 0 <= i < |components| ==> |components[i]| > 1 && exists g :: g in keys && components[i] == groups[g])
    && (forall g :: g in keys && |groups[g]| > 1 ==> groups[g] in components)
  }

  method Listed(groups: map<EntityId, set<EntityId>>) returns (components: seq<set<EntityId>>)
    requires forall g, g' :: g in groups && g' in groups && g != g' ==> groups[g] !! groups[g']
    ensures Lists(groups, groups.Keys, components)
  {
    components := [];
    var todo := groups.Keys;
    ghost var listed: set<EntityId> := {};
    while todo != {}
      invariant todo !! listed && todo + listed == groups.Keys && Lists(groups, listed, components)
      decreases todo
    {
      var g :| g in todo;
      todo := todo - {g};
      ListOne(groups, listed, components, g);
      if |groups[g]| > 1 {
        components := components + [groups[g]];
      }
      listed := listed + {g};
    }
  }

  lemma ListOne(groups: map<EntityId, set<EntityId>>, keys: set<EntityId>, components: seq<set<EntityId>>, g: EntityId)
    requires Lists(groups, keys, components) && g in groups && g !in keys
    requires forall g, g' :: g in groups && g' in groups && g != g' ==> groups[g] !! groups[g']
    ensures Lists(groups, keys + {g}, if |groups[g]| > 1 then components + [groups[g]] else components)
  {
  }

  method UnionComponents(pairs: seq<Pair>) returns (components: seq<set<EntityId>>)
    ensures Classes(components, SeqToSet(pairs))
  {
    var forest := new UnionFind();
    NothingPartitioned();
    assert SeqToSet(pairs[..0]) == {};
    for i := 0 to |pairs|
      invariant forest.Valid() && fresh(forest) && Partitions(forest.root, SeqToSet(pairs[..i]))
    {
      var (x, y) := pairs[i];
      TakeMore(pairs, i);
      assert SeqToSet(pairs[..i + 1]) == SeqToSet(pairs[..i]) + {(x, y)};
      UnionPartitions(forest.root, SeqToSet(pairs[..i]), x, y);
      hide Partitions;
      forest.Union(x, y);
    }
    assert pairs[..|pairs|] == pairs;
    var groups: map<EntityId, set<EntityId>> := map[];
    var todo := forest.parent.Keys;
    ghost var seen: set<EntityId>, root := {}, forest.root;
    hide Partitions, Forest, Grouped, WithSingletons;
    NothingGrouped(root);
    ForestKeys(forest.parent, root, forest.height, forest.top);
    while todo != {}
      invariant forest.Valid() && fresh(forest) && forest.root == root
      invariant todo !! seen && todo + seen == root.Keys && Grouped(root, seen, groups)
      decreases todo
    {
      var n :| n in todo;
      todo := todo - {n};
      var g := forest.Find(n);
      GroupOne(root, seen, groups, n);
      groups := groups[g := (if g in groups then groups[g] else {}) + {n}];
      seen := seen + {n};
    }
    assert seen == root.Keys;
    GroupsApart(root, seen, groups);
    components := Listed(groups);
    GroupsAreClasses(root, SeqToSet(pairs), groups, components);
  }

  lemma GroupsAreClasses(root: Parents, pairs: set<Pair>, groups: map<EntityId, set<EntityId>>,
                         components: seq<set<EntityId>>)
    requires Partitions(root, pairs) && Grouped(root, root.Keys, groups) && Lists(groups, groups.Keys, components)
    ensures Classes(components, pairs)
  {
    hide Linked;
    forall i, u, v | 0 <= i < |components| && u in components[i]
      ensures v in components[i] <==> Linked(pairs, u, v)
    {
      var g :| g in groups && components[i] == groups[g];
      GroupIsAClass(root, pairs, groups, g, u, v);
    }
    forall u, v | u != v && Linked(pairs, u, v)
      ensures exists i :: 0 <= i < |components| && u in components[i]
    {
      LinkedIsGrouped(root, pairs, groups, u, v);
      var i :| 0 <= i < |components| && components[i] == groups[root[u]];
    }
  }

  lemma GroupIsAClass(root: Parents, pairs: set<Pair>, groups: map<EntityId, set<EntityId>>, g: EntityId,
                      u: EntityId, v: EntityId)
    requires Partitions(root, pairs) && Grouped(root, root.Keys, groups) && g in groups && u in groups[g]
    ensures v in groups[g] <==> Linked(pairs, u, v)
  {
    if Linked(pairs, u, v) && u != v {
      OutsideStandsAlone(pairs, u, v);
    }
    LinkedSelf(pairs, u);
    hide Linked, Endpoints;
  }

  lemma LinkedIsGrouped(root: Parents, pairs: set<Pair>, groups: map<EntityId, set<EntityId>>, u: EntityId, v: EntityId)
    requires Partitions(root, pairs) && Grouped(root, root.Keys, groups) && u != v && Linked(pairs, u, v)
    ensures u in root && root[u] in groups && u in groups[root[u]] && |groups[root[u]]| > 1
  {
    OutsideStandsAlone(pairs, u, v);
    hide Linked, Endpoints;
    var g := root[u];
    assert {u, v} <= groups[g];
    SubsetCardinality({u, v}, groups[g]);
    assert |{u, v}| == 2;
  }
}
