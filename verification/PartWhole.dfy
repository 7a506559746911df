/**
 The part-of closure of src/iknos/core/partwhole.py: child-to-parent edges are peeled from the
 roots down, whatever cannot be peeled is set aside, and the rest is closed transitively by a
 memoised search.

 `AcyclicEdges` is proved against reachability: the nodes set aside are exactly those from which
 a cycle can be reached, which is more than the nodes that sit on one
 (`SetAsideWithoutACycle`). `TransitiveClosure` returns exactly reachability among the rest.
 */
module PartWhole {
  import opened Sets
  import opened Digraph

  datatype PartId = PartId(tag: int)

  type Link = (PartId, PartId)

  function NodesOf(edges: set<Link>): set<PartId> {
    (set e | e in edges :: e.0) + (set e | e in edges :: e.1)
  }

  /** The edges that are not self-loops. */
  function Proper(edges: set<Link>): set<Link> {
    set e | e in edges && e.0 != e.1
  }

  /** Some parent-ward path from `n` leads into a cycle of at least two nodes. */
  ghost predicate ReachesCycle(edges: set<Link>, n: PartId) {
    exists m :: (m == n || Reaches(Proper(edges), n, m)) && Reaches(Proper(edges), m, m)
  }

  ghost function Cyclic(edges: set<Link>): set<PartId> {
    set n | n in NodesOf(edges) && ReachesCycle(edges, n)
  }

  /** The edges that take part in the roll-up. */
  ghost function Kept(edges: set<Link>): set<Link> {
    set e | e in Proper(edges) && e.0 !in Cyclic(edges) && e.1 !in Cyclic(edges)
  }

  /** A walk parent-ward from `n`. */
  ghost predicate WalksUp(edges: set<Link>, p: seq<PartId>, n: PartId) {
    Walk(Proper(edges), p) && p[0] == n
  }

  /** A node is set aside exactly when some walk up from it meets a node twice. */
  lemma SetAsideExactlyWhen(edges: set<Link>, n: PartId)
    ensures ReachesCycle(edges, n) <==> exists p :: WalksUp(edges, p, n) && !Distinct(p)
  {
    var links := Proper(edges);
    if ReachesCycle(edges, n) {
      var m :| (m == n || Reaches(links, n, m)) && Reaches(links, m, m);
      var c :| WalkFrom(links, c, m, m) && |c| > 1;
      var q := [n];
      if m != n {
        q :| WalkFrom(links, q, n, m) && |q| > 1;
      }
      var p := q + c[1..];
      assert WalksUp(edges, p, n);
      assert p[|q| - 1] == m == p[|p| - 1];
    }
    if p :| WalksUp(edges, p, n) && !Distinct(p) {
      var i, j :| 0 <= i < j < |p| && p[i] == p[j];
      WalkBetween(links, p, i, j);
      if i > 0 {
        WalkBetween(links, p, 0, i);
      }
    }
  }

  lemma WalkBetween(links: set<Link>, p: seq<PartId>, i: nat, j: nat)
    requires Walk(links, p) && i < j < |p|
    ensures Reaches(links, p[i], p[j])
  {
    assert WalkFrom(links, p[i..j + 1], p[i], p[j]);
  }

  /** An edge takes part exactly when it is no loop and no walk up from its part repeats itself. */
  lemma KeptExactlyWhen(edges: set<Link>, e: Link)
    ensures e in Kept(edges) <==> e in edges && e.0 != e.1 && forall p :: WalksUp(edges, p, e.0) ==> Distinct(p)
  {
    SetAsideExactlyWhen(edges, e.0);
    SetAsideExactlyWhen(edges, e.1);
    if p :| e in edges && e.0 != e.1 && WalksUp(edges, p, e.1) && !Distinct(p) {
      var q := [e.0] + p;
      assert WalksUp(edges, q, e.0) by {
        assert forall i :: 0 < i < |q| - 1 ==> (q[i], q[i + 1]) == (p[i - 1], p[i]);
      }
      var i, j :| 0 <= i < j < |p| && p[i] == p[j];
      assert q[i + 1] == q[j + 1];
    }
  }

  // ---------------------------------------------------------------- peeling orders

  /** Every node of `order` comes after all its parents. */
  ghost predicate ParentsFirst(links: set<Link>, order: seq<PartId>) {
    forall i, p {:trigger (order[i], p) in links} :: 0 <= i < |order| && (order[i], p) in links ==> p in order[..i]
  }

  lemma ParentsFirstAppend(links: set<Link>, order: seq<PartId>, n: PartId)
    requires ParentsFirst(links, order) && forall p :: (n, p) in links ==> p in order
    ensures ParentsFirst(links, order + [n])
  {
    var longer := order + [n];
    forall i, p | 0 <= i < |longer| && (longer[i], p) in links
      ensures p in longer[..i]
    {
      assert longer[..|order|] == order;
      if i < |order| {
        assert longer[..i] == order[..i];
      }
    }
  }

  /** Walking up a parents-first order moves strictly toward its front. */
  lemma {:induction false} WalkDescends(links: set<Link>, order: seq<PartId>, path: seq<PartId>, i: nat) returns (j: nat)
    requires ParentsFirst(links, order) && Walk(links, path) && i < |order| && order[i] == path[0]
    ensures j < |order| && order[j] == path[|path| - 1] && (|path| > 1 ==> j < i) && j <= i
    decreases |path|
  {
    if |path| == 1 {
      j := i;
    } else {
      assert (path[0], path[1]) in links;
      assert (order[i], path[1]) in links;
      var k :| 0 <= k < i && order[k] == path[1];
      j := WalkDescends(links, order, path[1..], k);
    }
  }

  /** No node of a parents-first order lies on a cycle ... */
  lemma OrderHasNoCycle(links: set<Link>, order: seq<PartId>, n: PartId)
    requires ParentsFirst(links, order) && n in order
    ensures !Reaches(links, n, n)
  {
    if Reaches(links, n, n) {
      var path :| WalkFrom(links, path, n, n) && |path| > 1;
      var i := FirstIndex(order, n);
      var j := WalkDescends(links, order, path, i);
    }
  }

  lemma {:induction false} FirstIndex(order: seq<PartId>, n: PartId) returns (i: nat)
    requires n in order
    ensures i < |order| && order[i] == n && forall j :: 0 <= j < i ==> order[j] != n
  {
    if order[0] == n {
      i := 0;
    } else {
      i := FirstIndex(order[1..], n);
      i := i + 1;
    }
  }

  /** ... nor below one. */
  lemma PeeledReachesNoCycle(edges: set<Link>, order: seq<PartId>, n: PartId)
    requires ParentsFirst(Proper(edges), order) && n in order
    ensures !ReachesCycle(edges, n)
  {
    var links := Proper(edges);
    if ReachesCycle(edges, n) {
      var m :| (m == n || Reaches(links, n, m)) && Reaches(links, m, m);
      if m != n {
        var path :| WalkFrom(links, path, n, m) && |path| > 1;
        var i := FirstIndex(order, n);
        var j := WalkDescends(links, order, path, i);
      }
      OrderHasNoCycle(links, order, m);
    }
  }

  /** A node is stuck if it has a parent that is. */
  ghost predicate HasParentIn(links: set<Link>, stuck: set<PartId>, n: PartId) {
    exists p :: p in stuck && (n, p) in links
  }

  ghost predicate Stuck(links: set<Link>, stuck: set<PartId>) {
    forall n {:trigger HasParentIn(links, stuck, n)} :: n in stuck ==> HasParentIn(links, stuck, n)
  }

  lemma StuckStep(links: set<Link>, stuck: set<PartId>, n: PartId) returns (p: PartId)
    requires Stuck(links, stuck) && n in stuck
    ensures p in stuck && (n, p) in links
  {
    assert HasParentIn(links, stuck, n);
    p :| p in stuck && (n, p) in links;
  }

  lemma {:induction false} StuckWalk(links: set<Link>, stuck: set<PartId>, n: PartId, k: nat) returns (path: seq<PartId>)
    requires Stuck(links, stuck) && n in stuck
    ensures Walk(links, path) && |path| == k + 1 && path[0] == n && forall i :: 0 <= i < |path| ==> path[i] in stuck
    decreases k
  {
    if k == 0 {
      path := [n];
    } else {
      var p := StuckStep(links, stuck, n);
      var rest := StuckWalk(links, stuck, p, k - 1);
      hide Stuck, Walk;
      path := [n] + rest;
    }
  }

  /** Stuck nodes climb into a cycle. */
  lemma StuckReachesCycle(edges: set<Link>, stuck: set<PartId>, n: PartId)
    requires Stuck(Proper(edges), stuck) && n in stuck
    ensures ReachesCycle(edges, n)
  {
    hide Stuck, Proper;
    var links := Proper(edges);
    var path := StuckWalk(links, stuck, n, |stuck|);
    var i, j := Pigeonhole(path, stuck);
    assert WalkFrom(links, path[i..j + 1], path[i], path[i]);
    assert Reaches(links, path[i], path[i]);
    if i > 0 {
      assert WalkFrom(links, path[..i + 1], n, path[i]);
    }
    assert path[i] == n || Reaches(links, n, path[i]);
  }

  // ---------------------------------------------------------------- Kahn's algorithm

  function ParentsOf(links: set<Link>, n: PartId): set<PartId> {
    set e | e in links && e.0 == n :: e.1
  }

  function ChildrenOf(links: set<Link>, n: PartId): set<PartId> {
    set e | e in links && e.1 == n :: e.0
  }

  /** The adjacency dictionaries of the proper edges. */
  ghost predicate Adjacent(links: set<Link>, nodes: set<PartId>, parents: map<PartId, set<PartId>>,
                           children: map<PartId, set<PartId>>)
  {
    && parents.Keys == nodes && children.Keys == nodes
    && forall n :: n in nodes ==> parents[n] == ParentsOf(links, n) && children[n] == ChildrenOf(links, n)
  }

  lemma OneMoreLink(links: set<Link>, c: PartId, p: PartId, n: PartId)
    ensures ParentsOf(links + {(c, p)}, n) == ParentsOf(links, n) + if n == c then {p} else {}
    ensures ChildrenOf(links + {(c, p)}, n) == ChildrenOf(links, n) + if n == p then {c} else {}
  {
    var more := links + {(c, p)};
    forall m
      ensures m in ParentsOf(more, n) <==> m in ParentsOf(links, n) || (n == c && m == p)
    {
      assert (n, m) in more <==> (n, m) in links || (n == c && m == p);
      ParentMeans(links, n, m);
      ParentMeans(more, n, m);
    }
    forall m
      ensures m in ChildrenOf(more, n) <==> m in ChildrenOf(links, n) || (n == p && m == c)
    {
      assert (m, n) in more <==> (m, n) in links || (n == p && m == c);
    }
  }

  lemma ParentMeans(links: set<Link>, n: PartId, m: PartId)
    ensures m in ParentsOf(links, n) <==> (n, m) in links
  {
  }

  lemma AdjacentNext(links: set<Link>, nodes: set<PartId>, parents: map<PartId, set<PartId>>,
                     children: map<PartId, set<PartId>>, c: PartId, p: PartId)
    requires Adjacent(links, nodes, parents, children) && c in nodes && p in nodes
    ensures Adjacent(links + {(c, p)}, nodes, parents[c := parents[c] + {p}], children[p := children[p] + {c}])
  {
    hide ParentsOf, ChildrenOf;
    forall n
      ensures ParentsOf(links + {(c, p)}, n) == ParentsOf(links, n) + if n == c then {p} else {}
      ensures ChildrenOf(links + {(c, p)}, n) == ChildrenOf(links, n) + if n == p then {c} else {}
    {
      OneMoreLink(links, c, p, n);
    }
  }

  method Adjacency(edges: seq<Link>)
    returns (nodes: set<PartId>, parents: map<PartId, set<PartId>>, children: map<PartId, set<PartId>>)
    ensures nodes == NodesOf(SeqToSet(edges))
    ensures Adjacent(Proper(SeqToSet(edges)), nodes, parents, children)
  {
    nodes := {};
    assert SeqToSet(edges[..0]) == {} && Proper({}) == {};
    assert NodesOf({}) == {};
    assert edges[..|edges|] == edges;
    hide NodesOf, Adjacent, Proper, SeqToSet;
    for i := 0 to |edges|
      invariant nodes == NodesOf(SeqToSet(edges[..i]))
    {
      PrefixSet(edges, i);
      nodes := nodes + {edges[i].0} + {edges[i].1};
    }
    parents := map n | n in nodes :: {};
    children := map n | n in nodes :: {};
    NoLinks(nodes);
    for i := 0 to |edges|
      invariant Adjacent(Proper(SeqToSet(edges[..i])), nodes, parents, children)
    {
      var (c, p) := edges[i];
      ghost var links, more := Proper(SeqToSet(edges[..i])), Proper(SeqToSet(edges[..i + 1]));
      ProperGrows(edges, i);
      assert more == if c != p then links + {(c, p)} else links;
      if c != p {
        AdjacentNext(links, nodes, parents, children, c, p);
        parents := parents[c := parents[c] + {p}];
        children := children[p := children[p] + {c}];
      }
      assert Adjacent(more, nodes, parents, children);
    }
  }

  lemma PrefixSet(edges: seq<Link>, i: nat)
    requires i < |edges|
    ensures SeqToSet(edges[..i + 1]) == SeqToSet(edges[..i]) + {edges[i]}
  {
  }

  lemma NoLinks(nodes: set<PartId>)
    ensures forall n :: ParentsOf({}, n) == {} && ChildrenOf({}, n) == {}
    ensures Adjacent({}, nodes, map n | n in nodes :: {}, map n | n in nodes :: {})
  {
  }

  lemma ProperGrows(edges: seq<Link>, i: nat)
    requires i < |edges|
    ensures Proper(SeqToSet(edges[..i + 1]))
         == Proper(SeqToSet(edges[..i])) + if edges[i].0 != edges[i].1 then {edges[i]} else {}
  {
    assert SeqToSet(edges[..i + 1]) == SeqToSet(edges[..i]) + {edges[i]};
  }

  /** The peeling state: degrees count the unpeeled parents, and the queue holds exactly the
      unpeeled nodes that have none. */
  ghost predicate Peeling(links: set<Link>, nodes: set<PartId>, outDeg: map<PartId, int>, queue: seq<PartId>,
                          order: seq<PartId>)
  {
    && outDeg.Keys == nodes
    && (forall n :: n in nodes ==> outDeg[n] == |ParentsOf(links, n) - SeqToSet(order)|)
    && Distinct(queue + order) && (forall n :: n in queue || n in order ==> n in nodes)
    && (forall n :: n in nodes ==> (outDeg[n] == 0 <==> n in queue || n in order))
    && ParentsFirst(links, order)
  }

  lemma PeeledHasNoParentsLeft(links: set<Link>, nodes: set<PartId>, outDeg: map<PartId, int>, queue: seq<PartId>,
                               order: seq<PartId>, n: PartId)
    requires Peeling(links, nodes, outDeg, queue, order) && n in queue
    ensures forall p :: (n, p) in links ==> p in order
  {
    assert ParentsOf(links, n) - SeqToSet(order) == {};
    forall p | (n, p) in links
      ensures p in order
    {
      ParentMeans(links, n, p);
      assert p !in ParentsOf(links, n) - SeqToSet(order);
    }
  }

  /** One child loses its peeled parent `n`. */
  lemma OneParentFewer(links: set<Link>, order: seq<PartId>, n: PartId, m: PartId)
    requires n !in order
    ensures |ParentsOf(links, m) - SeqToSet(order + [n])|
         == |ParentsOf(links, m) - SeqToSet(order)| - if m in ChildrenOf(links, n) then 1 else 0
  {
    ParentMeans(links, m, n);
    var before, after := ParentsOf(links, m) - SeqToSet(order), ParentsOf(links, m) - SeqToSet(order + [n]);
    assert after == before - {n};
  }

  /** Tells every child of a peeled node: its degree drops, and at zero it is queued. */
  method TellChildren(nodes: set<PartId>, children: set<PartId>, outDeg: map<PartId, int>, queue: seq<PartId>,
                      ghost rest: seq<PartId>)
    returns (outDeg': map<PartId, int>, queue': seq<PartId>)
    requires outDeg.Keys == nodes && children <= nodes && Distinct(queue + rest)
    requires forall m :: m in children ==> m !in queue && m !in rest
    ensures outDeg'.Keys == nodes && Distinct(queue' + rest)
    ensures forall m :: m in nodes ==> outDeg'[m] == outDeg[m] - if m in children then 1 else 0
    ensures forall m :: m in queue' <==> m in queue || (m in children && outDeg'[m] == 0)
  {
    hide *;
    outDeg', queue' := outDeg, queue;
    var todo := children;
    ghost var done := {};
    while todo != {}
      invariant todo + done == children && todo !! done && outDeg'.Keys == nodes && Distinct(queue' + rest)
      invariant forall m :: m in nodes ==> outDeg'[m] == outDeg[m] - if m in done then 1 else 0
      invariant forall m :: m in queue' <==> m in queue || (m in done && outDeg'[m] == 0)
      decreases todo
    {
      var child :| child in todo;
      todo := todo - {child};
      assert child !in queue';
      outDeg' := outDeg'[child := outDeg'[child] - 1];
      if outDeg'[child] == 0 {
        DistinctPush(queue', rest, child);
        queue' := queue' + [child];
      }
      done := done + {child};
    }
  }

  method PeelOne(ghost links: set<Link>, nodes: set<PartId>, children: set<PartId>, n: PartId,
                 outDeg: map<PartId, int>, queue: seq<PartId>, ghost order: seq<PartId>)
    returns (outDeg': map<PartId, int>, queue': seq<PartId>)
    requires Peeling(links, nodes, outDeg, queue + [n], order) && children == ChildrenOf(links, n)
    requires forall e :: e in links ==> e.0 in nodes && e.1 in nodes
    ensures Peeling(links, nodes, outDeg', queue', order + [n])
  {
    hide Peeling, ParentsOf, ChildrenOf, Distinct, ParentsFirst;
    PeelingMeans(links, nodes, outDeg, queue + [n], order);
    ChildrenAreNodes(links, nodes, n);
    PeeledHasNoParentsLeft(links, nodes, outDeg, queue + [n], order, n);
    ParentsFirstAppend(links, order, n);
    ConcatAssociates(queue, [n], order);
    forall child | child in children
      ensures child !in queue + [n] && child !in order
    {
      ChildHasParent(links, nodes, outDeg, queue + [n], order, n, child);
    }
    outDeg', queue' := TellChildren(nodes, children, outDeg, queue, [n] + order);
    forall m | m in nodes
      ensures outDeg'[m] == |ParentsOf(links, m) - SeqToSet(order + [n])|
    {
      OneParentFewer(links, order, n, m);
    }
    PeeledOne(links, nodes, outDeg, outDeg', queue, queue', order, n);
  }

  lemma ConcatAssociates(a: seq<PartId>, b: seq<PartId>, c: seq<PartId>)
    ensures a + b + c == a + (b + c)
  {
  }

  lemma DistinctPush(queue: seq<PartId>, rest: seq<PartId>, x: PartId)
    requires Distinct(queue + rest) && x !in queue && x !in rest
    ensures Distinct(queue + [x] + rest)
  {
    var all, old_ := queue + [x] + rest, queue + rest;
    forall i, j | 0 <= i < j < |all|
      ensures all[i] != all[j]
    {
      var k := |queue|;
      assert i != k ==> all[i] == old_[if i < k then i else i - 1];
      assert j != k ==> all[j] == old_[if j < k then j else j - 1];
    }
  }

  lemma PeelingMeans(links: set<Link>, nodes: set<PartId>, outDeg: map<PartId, int>, queue: seq<PartId>,
                     order: seq<PartId>)
    requires Peeling(links, nodes, outDeg, queue, order)
    ensures outDeg.Keys == nodes && Distinct(queue + order) && ParentsFirst(links, order)
    ensures forall n :: n in queue || n in order ==> n in nodes
    ensures forall n :: n in nodes ==> outDeg[n] == |ParentsOf(links, n) - SeqToSet(order)|
    ensures forall n :: n in nodes ==> (outDeg[n] == 0 <==> n in queue || n in order)
    ensures forall n :: n in queue ==> n !in order
  {
    forall i, j | 0 <= i < |queue| && 0 <= j < |order|
      ensures queue[i] != order[j]
    {
      assert (queue + order)[i] == queue[i] && (queue + order)[|queue| + j] == order[j];
    }
  }

  lemma ChildrenAreNodes(links: set<Link>, nodes: set<PartId>, n: PartId)
    requires forall e :: e in links ==> e.0 in nodes && e.1 in nodes
    ensures ChildrenOf(links, n) <= nodes
  {
  }

  /** A child of the node being peeled still counts it, so it is in neither list. */
  lemma ChildHasParent(links: set<Link>, nodes: set<PartId>, outDeg: map<PartId, int>, queue: seq<PartId>,
                       order: seq<PartId>, n: PartId, child: PartId)
    requires Peeling(links, nodes, outDeg, queue, order) && n in queue && child in ChildrenOf(links, n)
    requires forall e :: e in links ==> e.0 in nodes && e.1 in nodes
    ensures child in nodes && child !in queue && child !in order && outDeg[child] > 0
  {
    PeelingMeans(links, nodes, outDeg, queue, order);
    ParentMeans(links, child, n);
    assert n in ParentsOf(links, child) - SeqToSet(order);
  }

  lemma PeeledOne(links: set<Link>, nodes: set<PartId>, outDeg: map<PartId, int>, outDeg': map<PartId, int>,
                  queue: seq<PartId>, queue': seq<PartId>, order: seq<PartId>, n: PartId)
    requires Peeling(links, nodes, outDeg, queue + [n], order) && outDeg'.Keys == nodes
    requires forall m :: m in nodes ==> outDeg'[m] == |ParentsOf(links, m) - SeqToSet(order + [n])|
    requires forall m :: m in nodes ==> outDeg'[m] == outDeg[m] - if m in ChildrenOf(links, n) then 1 else 0
    requires forall m :: m in nodes ==>
               (m in queue' <==> m in queue || (m in ChildrenOf(links, n) && outDeg'[m] == 0))
    requires forall m :: m in queue' ==> m in nodes
    requires Distinct(queue' + ([n] + order)) && ParentsFirst(links, order + [n])
    requires forall m :: m in ChildrenOf(links, n) ==> m in nodes && m !in queue + [n] && m !in order
    ensures Peeling(links, nodes, outDeg', queue', order + [n])
  {
    hide ParentsOf, ChildrenOf, ParentsFirst;
    DistinctRotate(queue', n, order);
    forall m | m in nodes
      ensures outDeg'[m] == 0 <==> m in queue' || m in order + [n]
    {
    }
  }

  lemma DistinctRotate(queue: seq<PartId>, n: PartId, order: seq<PartId>)
    requires Distinct(queue + ([n] + order))
    ensures Distinct(queue + (order + [n]))
  {
    var all, old_ := queue + (order + [n]), queue + ([n] + order);
    forall i, j | 0 <= i < j < |all|
      ensures all[i] != all[j]
    {
      var k, last := |queue|, |all| - 1;
      assert all[i] == old_[if i < k then i else i + 1];
      assert all[j] == old_[if j < k then j else if j == last then k else j + 1];
    }
  }

  method Peel(nodes: set<PartId>, parents: map<PartId, set<PartId>>, children: map<PartId, set<PartId>>,
              ghost links: set<Link>)
    returns (peeled: set<PartId>, ghost order: seq<PartId>)
    requires Adjacent(links, nodes, parents, children)
    requires forall e :: e in links ==> e.0 in nodes && e.1 in nodes
    ensures peeled == SeqToSet(order) && peeled <= nodes && ParentsFirst(links, order)
    ensures Stuck(links, nodes - peeled)
  {
    hide ParentsOf, ChildrenOf, Distinct, ParentsFirst;
    var outDeg := map n | n in nodes :: |parents[n]|;
    var queue: seq<PartId> := [];
    var todo := nodes;
    NothingPeeled();
    while todo != {}
      invariant todo <= nodes && Distinct(queue)
      invariant forall n :: n in queue <==> n in nodes - todo && outDeg[n] == 0
      decreases todo
    {
      var n :| n in todo;
      todo := todo - {n};
      if outDeg[n] == 0 {
        DistinctAppend(queue, n);
        queue := queue + [n];
      }
    }
    peeled, order := {}, [];
    PeelingStarts(links, nodes, outDeg, queue);
    hide Peeling, SeqToSet;
    while queue != []
      invariant peeled == SeqToSet(order) && Peeling(links, nodes, outDeg, queue, order)
      decreases nodes - peeled
    {
      var n := queue[|queue| - 1];
      ghost var before := queue;
      queue := queue[..|queue| - 1];
      assert before == queue + [n];
      PeelingMeans(links, nodes, outDeg, before, order);
      assert n !in peeled by { SetMeans(order, n); }
      peeled := peeled + {n};
      outDeg, queue := PeelOne(links, nodes, children[n], n, outDeg, queue, order);
      SetAppend(order, n);
      order := order + [n];
    }
    StuckIsLeft(links, nodes, outDeg, order);
  }

  lemma NothingPeeled()
    ensures Distinct<PartId>([]) && SeqToSet<PartId>([]) == {}
  {
  }

  lemma SetMeans(order: seq<PartId>, n: PartId)
    ensures n in SeqToSet(order) <==> n in order
  {
  }

  lemma SetAppend(order: seq<PartId>, n: PartId)
    ensures SeqToSet(order + [n]) == SeqToSet(order) + {n}
  {
  }

  lemma PeelingStarts(links: set<Link>, nodes: set<PartId>, outDeg: map<PartId, int>, queue: seq<PartId>)
    requires outDeg.Keys == nodes && forall n :: n in nodes ==> outDeg[n] == |ParentsOf(links, n)|
    requires Distinct(queue) && forall n :: n in queue <==> n in nodes && outDeg[n] == 0
    ensures Peeling(links, nodes, outDeg, queue, [])
  {
    hide ParentsOf, Distinct;
    assert queue + [] == queue;
    forall n | n in nodes
      ensures outDeg[n] == |ParentsOf(links, n) - SeqToSet([])|
    {
      assert ParentsOf(links, n) - SeqToSet([]) == ParentsOf(links, n);
    }
  }

  lemma StuckIsLeft(links: set<Link>, nodes: set<PartId>, outDeg: map<PartId, int>, order: seq<PartId>)
    requires Peeling(links, nodes, outDeg, [], order) && forall e :: e in links ==> e.0 in nodes && e.1 in nodes
    ensures ParentsFirst(links, order) && SeqToSet(order) <= nodes && Stuck(links, nodes - SeqToSet(order))
  {
    var stuck := nodes - SeqToSet(order);
    forall n | n in stuck
      ensures HasParentIn(links, stuck, n)
    {
      assert ParentsOf(links, n) - SeqToSet(order) != {};
      var p :| p in ParentsOf(links, n) - SeqToSet(order);
      ParentMeans(links, n, p);
    }
  }

  /** The split into roll-up edges and set-aside nodes. */
  method AcyclicEdges(edges: seq<Link>) returns (acyclic: seq<Link>, cyclic: set<PartId>)
    ensures cyclic == Cyclic(SeqToSet(edges))
    ensures SeqToSet(acyclic) == Kept(SeqToSet(edges))
  {
    hide ParentsFirst, ReachesCycle;
    var nodes, parents, children := Adjacency(edges);
    ghost var links := Proper(SeqToSet(edges));
    var peeled, order := Peel(nodes, parents, children, links);
    cyclic := nodes - peeled;
    forall n | n in nodes
      ensures n in cyclic <==> ReachesCycle(SeqToSet(edges), n)
    {
      if n in peeled {
        PeeledReachesNoCycle(SeqToSet(edges), order, n);
      } else {
        StuckReachesCycle(SeqToSet(edges), nodes - peeled, n);
      }
    }
    assert cyclic == Cyclic(SeqToSet(edges));
    acyclic := [];
    for i := 0 to |edges|
      invariant forall e :: e in acyclic <==> e in edges[..i] && e.0 != e.1 && e.0 !in cyclic && e.1 !in cyclic
    {
      var (c, p) := edges[i];
      if c != p && c !in cyclic && p !in cyclic {
        acyclic := acyclic + [(c, p)];
      }
    }
  }

  // ---------------------------------------------------------------- the closure

  /** What a set-aside decision does to reachability: nothing above a kept node is set aside. */
  lemma ParentOfKept(edges: set<Link>, c: PartId, p: PartId)
    requires (c, p) in Proper(edges) && !ReachesCycle(edges, c)
    ensures !ReachesCycle(edges, p) && (c, p) in Kept(edges)
  {
    var links := Proper(edges);
    if ReachesCycle(edges, p) {
      var m :| (m == p || Reaches(links, p, m)) && Reaches(links, m, m);
      EdgeReaches(links, c, p);
      if m != p {
        ReachesTransitive(links, c, p, m);
      }
    }
  }

  lemma {:induction false} WalkIsKept(edges: set<Link>, path: seq<PartId>)
    requires Walk(Proper(edges), path) && !ReachesCycle(edges, path[0])
    ensures Walk(Kept(edges), path)
    decreases |path|
  {
    if |path| > 1 {
      assert (path[0], path[1]) in Proper(edges);
      ParentOfKept(edges, path[0], path[1]);
      WalkIsKept(edges, path[1..]);
      forall i | 0 <= i < |path| - 1
        ensures (path[i], path[i + 1]) in Kept(edges)
      {
        if i > 0 {
          assert (path[1..][i - 1], path[1..][i]) in Kept(edges);
        }
      }
    }
  }

  /** Dropping edges loses no ancestor of a node that is not set aside, and keeps none of one
      that is. */
  lemma KeptReachability(edges: set<Link>, d: PartId, a: PartId)
    ensures Reaches(Kept(edges), d, a) <==> Reaches(Proper(edges), d, a) && !ReachesCycle(edges, d)
  {
    if Reaches(Kept(edges), d, a) {
      ReachesMonotone(Kept(edges), Proper(edges), d, a);
      ReachesFirst(Kept(edges), d, a);
      var p :| (d, p) in Kept(edges);
      assert d in NodesOf(edges);
    }
    if Reaches(Proper(edges), d, a) && !ReachesCycle(edges, d) {
      var path :| WalkFrom(Proper(edges), path, d, a) && |path| > 1;
      WalkIsKept(edges, path);
      assert WalkFrom(Kept(edges), path, d, a);
    }
  }

  /** No node is its own part, through however many steps. */
  lemma KeptIsAcyclic(edges: set<Link>)
    ensures Acyclic(Kept(edges))
  {
    forall n
      ensures !Reaches(Kept(edges), n, n)
    {
      KeptReachability(edges, n, n);
    }
  }

  ghost function AncestorsOf(links: set<Link>, n: PartId): set<PartId> {
    set m | m in NodesOf(links) && Reaches(links, n, m)
  }

  lemma AncestorMeans(links: set<Link>, n: PartId, m: PartId)
    ensures m in AncestorsOf(links, n) <==> Reaches(links, n, m)
  {
    if Reaches(links, n, m) {
      ReachesLast(links, n, m);
      var k :| (k, m) in links;
      assert (k, m).1 in NodesOf(links);
    }
  }

  lemma ParentHasFewer(links: set<Link>, n: PartId, p: PartId)
    requires Acyclic(links) && (n, p) in links
    ensures AncestorsOf(links, p) < AncestorsOf(links, n) && p in AncestorsOf(links, n)
  {
    EdgeReaches(links, n, p);
    AncestorMeans(links, n, p);
    AncestorMeans(links, p, p);
    forall m | m in AncestorsOf(links, p)
      ensures m in AncestorsOf(links, n)
    {
      ReachesTransitive(links, n, p, m);
    }
  }

  lemma AncestorsByParent(links: set<Link>, n: PartId, m: PartId)
    ensures m in AncestorsOf(links, n) <==> exists p :: (n, p) in links && (m == p || m in AncestorsOf(links, p))
  {
    AncestorMeans(links, n, m);
    if Reaches(links, n, m) {
      ReachesFirst(links, n, m);
      var p :| (n, p) in links && (p == m || Reaches(links, p, m));
      AncestorMeans(links, p, m);
    }
    if p :| (n, p) in links && (m == p || m in AncestorsOf(links, p)) {
      EdgeReaches(links, n, p);
      AncestorMeans(links, p, m);
      if m != p {
        ReachesTransitive(links, n, p, m);
      }
    }
  }

  function ParentsAt(parents: map<PartId, set<PartId>>, n: PartId): set<PartId> {
    if n in parents then parents[n] else {}
  }

  ghost predicate Memoised(links: set<Link>, memo: map<PartId, set<PartId>>) {
    forall n :: n in memo ==> memo[n] == AncestorsOf(links, n)
  }

  /** The nodes of `ps` and everything above them. */
  ghost function GatheredFrom(links: set<Link>, ps: set<PartId>): set<PartId> {
    ps + set p, m | p in ps && m in AncestorsOf(links, p) :: m
  }

  lemma GatherOne(links: set<Link>, ps: set<PartId>, p: PartId)
    ensures GatheredFrom(links, ps + {p}) == GatheredFrom(links, ps) + {p} + AncestorsOf(links, p)
  {
  }

  lemma GatheredFromParents(links: set<Link>, n: PartId)
    ensures GatheredFrom(links, ParentsOf(links, n)) == AncestorsOf(links, n)
  {
    hide AncestorsOf;
    forall m
      ensures m in GatheredFrom(links, ParentsOf(links, n)) <==> m in AncestorsOf(links, n)
    {
      AncestorsByParent(links, n, m);
      if p :| (n, p) in links && (m == p || m in AncestorsOf(links, p)) {
        ParentMeans(links, n, p);
      }
    }
  }

  /** The memoised search. It terminates because an ancestor has strictly fewer ancestors. */
  method Ancestors(parents: map<PartId, set<PartId>>, n: PartId, memo: map<PartId, set<PartId>>, ghost links: set<Link>)
    returns (acc: set<PartId>, memo': map<PartId, set<PartId>>)
    requires Acyclic(links) && (forall m :: ParentsAt(parents, m) == ParentsOf(links, m)) && Memoised(links, memo)
    ensures acc == AncestorsOf(links, n) && Memoised(links, memo') && memo.Keys <= memo'.Keys
    decreases AncestorsOf(links, n)
  {
    hide Acyclic, AncestorsOf, ParentsOf, ParentsAt, GatheredFrom;
    if n in memo {
      return memo[n], memo;
    }
    acc, memo' := {}, memo;
    var todo := ParentsAt(parents, n);
    ghost var done: set<PartId> := {};
    assert GatheredFrom(links, {}) == {} by { GatheredFromNone(links); }
    while todo != {}
      invariant todo + done == ParentsOf(links, n) && Memoised(links, memo') && memo.Keys <= memo'.Keys
      invariant acc == GatheredFrom(links, done)
      decreases todo
    {
      var p :| p in todo;
      todo := todo - {p};
      ParentMeans(links, n, p);
      ParentHasFewer(links, n, p);
      var above: set<PartId>;
      above, memo' := Ancestors(parents, p, memo', links);
      acc := acc + {p} + above;
      GatherOne(links, done, p);
      done := done + {p};
    }
    GatheredFromParents(links, n);
    memo' := memo'[n := acc];
  }

  lemma GatheredFromNone(links: set<Link>)
    ensures GatheredFrom(links, {}) == {}
  {
  }

  /** Every (part, whole) pair along one or more roll-up edges. */
  ghost predicate ClosesOver(closure: set<Link>, links: set<Link>) {
    forall d, a :: (d, a) in closure <==> Reaches(links, d, a)
  }

  method ParentMap(edges: seq<Link>) returns (parents: map<PartId, set<PartId>>)
    ensures forall m :: ParentsAt(parents, m) == ParentsOf(SeqToSet(edges), m)
    ensures forall m :: m in parents <==> ParentsOf(SeqToSet(edges), m) != {}
  {
    hide ParentsOf;
    parents := map[];
    NoLinks({});
    assert SeqToSet(edges[..0]) == {};
    for i := 0 to |edges|
      invariant forall m :: ParentsAt(parents, m) == ParentsOf(SeqToSet(edges[..i]), m)
      invariant forall m :: m in parents <==> ParentsOf(SeqToSet(edges[..i]), m) != {}
    {
      var (c, p) := edges[i];
      assert SeqToSet(edges[..i + 1]) == SeqToSet(edges[..i]) + {(c, p)};
      forall m
        ensures ParentsOf(SeqToSet(edges[..i + 1]), m) == ParentsOf(SeqToSet(edges[..i]), m) + if m == c then {p} else {}
      {
        OneMoreLink(SeqToSet(edges[..i]), c, p, m);
      }
      parents := parents[c := ParentsAt(parents, c) + {p}];
    }
    assert edges[..|edges|] == edges;
  }

  method TransitiveClosure(edges: seq<Link>) returns (closure: set<Link>, cyclic: set<PartId>)
    ensures cyclic == Cyclic(SeqToSet(edges))
    ensures ClosesOver(closure, Kept(SeqToSet(edges)))
  {
    var acyclic: seq<Link>;
    acyclic, cyclic := AcyclicEdges(edges);
    ghost var links := Kept(SeqToSet(edges));
    KeptIsAcyclic(SeqToSet(edges));
    var parents := ParentMap(acyclic);
    hide *;
    NothingMemoised(links);
    var memo: map<PartId, set<PartId>> := map[];
    closure := {};
    var todo := parents.Keys;
    while todo != {}
      invariant todo <= parents.Keys && Memoised(links, memo)
      invariant forall d, a :: (d, a) in closure <==> d in parents && d !in todo && a in AncestorsOf(links, d)
      decreases todo
    {
      var n :| n in todo;
      todo := todo - {n};
      var above: set<PartId>;
      above, memo := Ancestors(parents, n, memo, links);
      closure := closure + (set a | a in above :: (n, a));
    }
    ClosureIsReachability(closure, links, parents);
  }

  lemma NothingMemoised(links: set<Link>)
    ensures Memoised(links, map[])
  {
  }

  lemma ClosureIsReachability(closure: set<Link>, links: set<Link>, parents: map<PartId, set<PartId>>)
    requires forall m :: m in parents <==> ParentsOf(links, m) != {}
    requires forall d, a :: (d, a) in closure <==> d in parents && a in AncestorsOf(links, d)
    ensures ClosesOver(closure, links)
  {
    forall d, a
      ensures (d, a) in closure <==> Reaches(links, d, a)
    {
      AncestorMeans(links, d, a);
      if Reaches(links, d, a) {
        ReachesFirst(links, d, a);
        var p :| (d, p) in links;
        ParentMeans(links, d, p);
      }
    }
  }

  // ---------------------------------------------------------------- what the closure means

  /** Part-of is a strict partial order. */
  lemma PartOfIsAStrictOrder(edges: set<Link>, closure: set<Link>, x: PartId, y: PartId, z: PartId)
    requires ClosesOver(closure, Kept(edges))
    ensures (x, x) !in closure
    ensures (x, y) in closure && (y, z) in closure ==> (x, z) in closure
    ensures (x, y) in closure ==> (y, x) !in closure
  {
    hide Kept, Reaches;
    KeptIsAcyclic(edges);
    if (x, y) in closure && (y, z) in closure {
      ReachesTransitive(Kept(edges), x, y, z);
    }
    if (x, y) in closure && (y, x) in closure {
      ReachesTransitive(Kept(edges), x, y, x);
    }
  }

  /** The number of wholes a node is part of. */
  function WholesOf(closure: set<Link>, n: PartId): set<PartId> {
    set e | e in closure && e.0 == n :: e.1
  }

  method DerivedLevel(closure: set<Link>, n: PartId) returns (level: nat)
    ensures level == |WholesOf(closure, n)|
  {
    level := 0;
    var todo := closure;
    ghost var done: set<Link> := {};
    assert WholesOf(done, n) == {};
    while todo != {}
      invariant todo !! done && todo + done == closure && level == |WholesOf(done, n)|
      decreases todo
    {
      var e :| e in todo;
      todo := todo - {e};
      WholesGrow(done, e, n);
      done := done + {e};
      if e.0 == n {
        level := level + 1;
      }
    }
  }

  lemma WholesGrow(done: set<Link>, e: Link, n: PartId)
    requires e !in done
    ensures |WholesOf(done + {e}, n)| == |WholesOf(done, n)| + if e.0 == n then 1 else 0
  {
    if e.0 == n {
      assert e == (n, e.1);
      assert e.1 !in WholesOf(done, n);
      assert WholesOf(done + {e}, n) == WholesOf(done, n) + {e.1};
    } else {
      assert WholesOf(done + {e}, n) == WholesOf(done, n);
    }
  }

  /** A part lies strictly deeper than its whole. */
  lemma PartsLieDeeper(edges: set<Link>, closure: set<Link>, part: PartId, whole: PartId)
    requires ClosesOver(closure, Kept(edges)) && (part, whole) in closure
    ensures |WholesOf(closure, part)| > |WholesOf(closure, whole)|
  {
    var above, below := WholesOf(closure, whole), WholesOf(closure, part);
    PartOfIsAStrictOrder(edges, closure, whole, whole, whole);
    forall m | m in above + {whole}
      ensures m in below
    {
      if m != whole {
        assert (whole, m) in closure;
        PartOfIsAStrictOrder(edges, closure, part, whole, m);
      }
      assert (part, m) in closure;
    }
    assert whole !in above;
    SubsetCardinality(above + {whole}, below);
  }

  /** A part of something caught in a cycle is set aside too, although no cycle runs through it. */
  lemma SetAsideWithoutACycle(x: PartId, a: PartId, b: PartId)
    requires x != a && x != b && a != b
    ensures var edges := {(x, a), (a, b), (b, a)};
            x in Cyclic(edges) && !Reaches(Proper(edges), x, x)
  {
    var edges := {(x, a), (a, b), (b, a)};
    var links := Proper(edges);
    assert (x, a) in links && (a, b) in links && (b, a) in links;
    EdgeReaches(links, x, a);
    EdgeReaches(links, a, b);
    EdgeReaches(links, b, a);
    ReachesTransitive(links, a, b, a);
    assert (x, a).0 in NodesOf(edges);
    assert ReachesCycle(edges, x);
    if Reaches(links, x, x) {
      ReachesLast(links, x, x);
      assert false;
    }
  }
}
