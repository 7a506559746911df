/**
 Layer A: which reasoning nodes are well-founded, from src/iknos/core/truth_maintenance.py.

 A node is supported when it is in the least set that contains the base facts and is closed
 under the derivations. `Support` is that definition. Two algorithms are proved to compute
 it: the semi-naive worklist (here) and the counting/DRed oracle (IncrementalSupport.dfy).
 */
module TruthMaintenance {
  import opened Sets

  /** A node id is a string in the program. Only equality and order are ever used, so the
      model keeps an id's place in that order. */
  datatype NodeId = NodeId(rank: int)

  datatype Derivation = Derivation(conclusion: NodeId, body: set<NodeId>)

  datatype Graph = Graph(baseFacts: set<NodeId>, derivations: seq<Derivation>) {
    function Rules(): set<Derivation> {
      set d | d in derivations
    }
  }

  ghost predicate Closed(base: set<NodeId>, rules: set<Derivation>, s: set<NodeId>) {
    && base <= s
    && forall d :: d in rules && d.body <= s ==> d.conclusion in s
  }

  ghost function Universe(base: set<NodeId>, rules: set<Derivation>): set<NodeId> {
    base + set d | d in rules :: d.conclusion
  }

  /** The well-founded support: the nodes that every closed set contains. */
  ghost function Support(base: set<NodeId>, rules: set<Derivation>): set<NodeId> {
    set n | n in Universe(base, rules) && forall s | Closed(base, rules, s) :: n in s
  }

  lemma SupportIsLeast(base: set<NodeId>, rules: set<Derivation>)
    ensures Closed(base, rules, Support(base, rules))
    ensures forall s | Closed(base, rules, s) :: Support(base, rules) <= s
  {
    var least := Support(base, rules);
    assert base <= least by {
      forall n, s | n in base && Closed(base, rules, s)
        ensures n in s
      {
      }
    }
    forall d | d in rules && d.body <= least
      ensures d.conclusion in least
    {
      forall s | Closed(base, rules, s)
        ensures d.conclusion in s
      {
        assert least <= s;
      }
    }
  }

  /** A closed set that no other closed set can shrink is the support. */
  lemma LeastIsSupport(base: set<NodeId>, rules: set<Derivation>, s: set<NodeId>)
    requires Closed(base, rules, s)
    requires s <= Support(base, rules)
    ensures s == Support(base, rules)
  {
    SupportIsLeast(base, rules);
  }

  /** Retraction never adds support: fewer base facts and fewer rules give a smaller set. */
  lemma SupportMonotone(base: set<NodeId>, rules: set<Derivation>,
                        base': set<NodeId>, rules': set<Derivation>)
    requires base <= base' && rules <= rules'
    ensures Support(base, rules) <= Support(base', rules')
  {
    SupportIsLeast(base, rules);
    SupportIsLeast(base', rules');
    assert Closed(base, rules, Support(base', rules'));
  }

  /** Mutual support without a base fact is not support: a set of nodes whose every rule
      leans on the set itself, and which holds no base fact, is dropped whole. */
  lemma UnfoundedSetIsDropped(base: set<NodeId>, rules: set<Derivation>, cycle: set<NodeId>)
    requires cycle !! base
    requires forall d :: d in rules && d.conclusion in cycle ==> !(d.body !! cycle)
    ensures Support(base, rules) !! cycle
  {
    SupportIsLeast(base, rules);
    var rest := Support(base, rules) - cycle;
    assert Closed(base, rules, rest);
  }

  /** How many antecedents of `d` are still missing from `delivered`. */
  function Unmet(d: Derivation, delivered: set<NodeId>): nat {
    |d.body - delivered|
  }

  function UsesOf(uses: map<NodeId, seq<nat>>, n: NodeId): seq<nat> {
    if n in uses then uses[n] else []
  }

  /** `ks` lists the rules before `i` that have `n` in their body, once each and in order. */
  ghost predicate ListsUses(ks: seq<nat>, derivations: seq<Derivation>, n: NodeId, i: nat)
    requires i <= |derivations|
  {
    && Distinct(ks)
    && (forall k: nat :: k in ks <==> k < i && n in derivations[k].body)
  }

  ghost predicate IndexedUpTo(uses: map<NodeId, seq<nat>>, derivations: seq<Derivation>, i: nat)
    requires i <= |derivations|
  {
    forall n :: ListsUses(UsesOf(uses, n), derivations, n, i)
  }

  lemma ListsOneMore(ks: seq<nat>, derivations: seq<Derivation>, n: NodeId, i: nat)
    requires i < |derivations| && n in derivations[i].body
    requires ListsUses(ks, derivations, n, i)
    ensures ListsUses(ks + [i], derivations, n, i + 1)
  {
  }

  lemma ListsNoMore(ks: seq<nat>, derivations: seq<Derivation>, n: NodeId, i: nat)
    requires i < |derivations| && n !in derivations[i].body
    requires ListsUses(ks, derivations, n, i)
    ensures ListsUses(ks, derivations, n, i + 1)
  {
  }

  /** The index of rules by antecedent that seeds the worklist evaluation. */
  method IndexUses(derivations: seq<Derivation>) returns (uses: map<NodeId, seq<nat>>)
    ensures IndexedUpTo(uses, derivations, |derivations|)
  {
    uses := map[];
    for i := 0 to |derivations|
      invariant IndexedUpTo(uses, derivations, i)
    {
      var body := derivations[i].body;
      var todo := body;
      while todo != {}
        invariant todo <= body
        invariant forall n :: n in body && n !in todo ==> ListsUses(UsesOf(uses, n), derivations, n, i + 1)
        invariant forall n :: n in todo || n !in body ==> ListsUses(UsesOf(uses, n), derivations, n, i)
        decreases todo
      {
        var a :| a in todo;
        ListsOneMore(UsesOf(uses, a), derivations, a, i);
        todo := todo - {a};
        uses := uses[a := UsesOf(uses, a) + [i]];
      }
      forall n | n !in body
        ensures ListsUses(UsesOf(uses, n), derivations, n, i + 1)
      {
        ListsNoMore(UsesOf(uses, n), derivations, n, i);
      }
    }
  }

  /** The supported set under construction, with the nodes whose rules are still to be visited. */
  datatype Frontier = Frontier(supported: set<NodeId>, worklist: seq<NodeId>) {
    /** The supported nodes are those `delivered` to their rules and those still waiting. */
    ghost predicate Splits(delivered: set<NodeId>) {
      && Distinct(worklist)
      && (forall n :: n in supported <==> n in delivered || n in worklist)
      && (forall n :: n in worklist ==> n !in delivered)
    }

    /** A node enters the worklist only the first time it is marked. */
    function Mark(n: NodeId): (f: Frontier)
      ensures f.supported == supported + {n}
    {
      if n in supported then this else Frontier(supported + {n}, worklist + [n])
    }

    lemma MarkSplits(n: NodeId, delivered: set<NodeId>)
      requires Splits(delivered)
      ensures Mark(n).Splits(delivered)
    {
    }

    lemma PopSplits(delivered: set<NodeId>)
      requires Splits(delivered) && worklist != []
      ensures Frontier(supported, worklist[1..]).Splits(delivered + {worklist[0]})
    {
      assert worklist == [worklist[0]] + worklist[1..];
    }
  }

  /** Rules count their missing antecedents against the delivered nodes. */
  ghost predicate CountsMissing(derivations: seq<Derivation>, remaining: seq<nat>, delivered: set<NodeId>) {
    && |remaining| == |derivations|
    && (forall i :: 0 <= i < |remaining| ==> remaining[i] == Unmet(derivations[i], delivered))
  }

  /** A rule that misses nothing has its conclusion supported. */
  ghost predicate MetRulesFired(derivations: seq<Derivation>, remaining: seq<nat>, supported: set<NodeId>) {
    && |remaining| == |derivations|
    && (forall i :: 0 <= i < |remaining| && remaining[i] == 0 ==> derivations[i].conclusion in supported)
  }

  ghost predicate ClosedUnder(derivations: seq<Derivation>, s: set<NodeId>) {
    forall i :: 0 <= i < |derivations| && derivations[i].body <= s ==> derivations[i].conclusion in s
  }

  lemma UnmetAfter(d: Derivation, delivered: set<NodeId>, n: NodeId)
    requires n !in delivered
    ensures Unmet(d, delivered + {n}) == Unmet(d, delivered) - (if n in d.body then 1 else 0)
  {
    if n in d.body {
      assert d.body - delivered == (d.body - (delivered + {n})) + {n};
    } else {
      assert d.body - delivered == d.body - (delivered + {n});
    }
  }

  lemma AllMet(d: Derivation, delivered: set<NodeId>)
    ensures Unmet(d, delivered) == 0 <==> d.body <= delivered
  {
    if d.body <= delivered {
      assert d.body - delivered == {};
    } else {
      var n :| n in d.body && n !in delivered;
      assert n in d.body - delivered;
    }
  }

  method MarkBaseFacts(facts: set<NodeId>) returns (f: Frontier)
    ensures f.Splits({}) && f.supported == facts
  {
    f := Frontier({}, []);
    var todo := facts;
    while todo != {}
      invariant f.Splits({})
      invariant todo <= facts && f.supported == facts - todo
      decreases todo
    {
      var fact :| fact in todo;
      todo := todo - {fact};
      f.MarkSplits(fact, {});
      f := f.Mark(fact);
    }
  }

  /** The axiomatic rules, those with an empty body, fire before anything is delivered. */
  method MarkAxioms(derivations: seq<Derivation>, remaining: seq<nat>, f0: Frontier, ghost all: set<NodeId>)
    returns (f: Frontier)
    requires f0.Splits({}) && f0.supported <= all && ClosedUnder(derivations, all)
    requires CountsMissing(derivations, remaining, {})
    ensures f.Splits({}) && f0.supported <= f.supported <= all
    ensures MetRulesFired(derivations, remaining, f.supported)
  {
    f := f0;
    for i := 0 to |remaining|
      invariant f.Splits({}) && f0.supported <= f.supported <= all
      invariant forall k :: 0 <= k < i && remaining[k] == 0 ==> derivations[k].conclusion in f.supported
    {
      if remaining[i] == 0 {
        AllMet(derivations[i], {});
        f.MarkSplits(derivations[i].conclusion, {});
        f := f.Mark(derivations[i].conclusion);
      }
    }
  }

  /** Tells the rules that use a delivered node. A rule whose last missing antecedent this
      was marks its conclusion. */
  method Notify(derivations: seq<Derivation>, users: seq<nat>, node: NodeId, remaining: seq<nat>, f: Frontier,
                ghost before: set<NodeId>, ghost all: set<NodeId>)
    returns (remaining': seq<nat>, f': Frontier)
    requires ListsUses(users, derivations, node, |derivations|) && node !in before
    requires CountsMissing(derivations, remaining, before) && MetRulesFired(derivations, remaining, f.supported)
    requires f.Splits(before + {node}) && f.supported <= all && ClosedUnder(derivations, all)
    ensures CountsMissing(derivations, remaining', before + {node})
    ensures MetRulesFired(derivations, remaining', f'.supported)
    ensures f'.Splits(before + {node}) && f.supported <= f'.supported <= all
  {
    ghost var after := before + {node};
    remaining', f' := remaining, f;
    for p := 0 to |users|
      invariant |remaining'| == |remaining|
      invariant forall i :: 0 <= i < |remaining| ==>
                              remaining'[i] == if i in users[..p] then remaining[i] - 1 else remaining[i]
      invariant MetRulesFired(derivations, remaining', f'.supported)
      invariant f'.Splits(after) && f.supported <= f'.supported <= all
    {
      var i := users[p];
      assert i in users;
      UnmetAfter(derivations[i], before, node);
      assert users[..p + 1] == users[..p] + [i];
      remaining' := remaining'[i := remaining'[i] - 1];
      if remaining'[i] == 0 {
        AllMet(derivations[i], after);
        f'.MarkSplits(derivations[i].conclusion, after);
        f' := f'.Mark(derivations[i].conclusion);
      }
      assert f'.Splits(after) && f.supported <= f'.supported <= all;
    }
    assert users[..|users|] == users;
    forall i | 0 <= i < |remaining|
      ensures remaining'[i] == Unmet(derivations[i], after)
    {
      UnmetAfter(derivations[i], before, node);
    }
  }

  lemma DrainedIsSupport(g: Graph, remaining: seq<nat>, supported: set<NodeId>)
    requires CountsMissing(g.derivations, remaining, supported) && MetRulesFired(g.derivations, remaining, supported)
    requires g.baseFacts <= supported <= Support(g.baseFacts, g.Rules())
    ensures supported == Support(g.baseFacts, g.Rules())
  {
    forall d | d in g.Rules() && d.body <= supported
      ensures d.conclusion in supported
    {
      var i :| 0 <= i < |g.derivations| && g.derivations[i] == d;
      AllMet(d, supported);
    }
    LeastIsSupport(g.baseFacts, g.Rules(), supported);
  }

  lemma SupportIsClosedUnder(g: Graph)
    ensures g.baseFacts <= Support(g.baseFacts, g.Rules())
    ensures ClosedUnder(g.derivations, Support(g.baseFacts, g.Rules()))
  {
    SupportIsLeast(g.baseFacts, g.Rules());
    forall i | 0 <= i < |g.derivations|
      ensures g.derivations[i] in g.Rules()
    {
    }
  }

  /** The full forward recompute: exactly the least set closed from the base facts, on cyclic
      graphs as on acyclic ones. */
  method WellFoundedSupport(g: Graph) returns (supported: set<NodeId>)
    ensures supported == Support(g.baseFacts, g.Rules())
  {
    ghost var all, delivered := Support(g.baseFacts, g.Rules()), {};
    SupportIsClosedUnder(g);
    var uses := IndexUses(g.derivations);
    var remaining: seq<nat> := seq(|g.derivations|, i requires 0 <= i < |g.derivations| => |g.derivations[i].body|);
    assert forall d: Derivation :: d.body - {} == d.body;
    var f := MarkBaseFacts(g.baseFacts);
    f := MarkAxioms(g.derivations, remaining, f, all);
    while f.worklist != []
      invariant CountsMissing(g.derivations, remaining, delivered) && MetRulesFired(g.derivations, remaining, f.supported)
      invariant f.Splits(delivered) && g.baseFacts <= f.supported <= all
      decreases all - delivered
    {
      var node := f.worklist[0];
      f.PopSplits(delivered);
      remaining, f := Notify(g.derivations, UsesOf(uses, node), node, remaining,
                             Frontier(f.supported, f.worklist[1..]), delivered, all);
      delivered := delivered + {node};
    }
    assert delivered == f.supported;
    DrainedIsSupport(g, remaining, f.supported);
    supported := f.supported;
  }
}
