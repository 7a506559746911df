/**
 The bounded stabiliser of src/iknos/core/composed_loop.py: a step is applied until the state
 repeats at once, repeats later, or the bound is hit.

 `Stabilizes` is what one run establishes. The lemmas below say what each verdict then means for
 the unbounded run of a step that respects the identity key.
 */
module ComposedLoop {
  import opened Sets
  import opened TruthMaintenance

  datatype Stability = Converged | Oscillating | Diverged

  datatype Stabilization<S> =
    | Stabilization(status: Stability, state: S, iterations: nat, trajectory: seq<S>, cycle: seq<S>)
    | ValueError

  /** The state after `n` steps. */
  function After<S>(step: S -> S, initial: S, n: nat): S {
    if n == 0 then initial else step(After(step, initial, n - 1))
  }

  /** The first `n` states. */
  ghost predicate Visits<S>(step: S -> S, initial: S, states: seq<S>) {
    forall i :: 0 <= i < |states| ==> states[i] == After(step, initial, i)
  }

  ghost predicate DistinctKeys<S, K>(key: S -> K, states: seq<S>) {
    forall i, j :: 0 <= i < j < |states| ==> key(states[i]) != key(states[j])
  }

  ghost predicate Stabilizes<S, K>(step: S -> S, key: S -> K, initial: S, maxIterations: int, r: Stabilization<S>) {
    if maxIterations < 1 then r.ValueError?
    else
      && r.Stabilization? && 1 <= r.iterations <= maxIterations
      && r.state == After(step, initial, r.iterations)
      && Visits(step, initial, r.trajectory)
      && match r.status {
           case Converged =>
             && |r.trajectory| == r.iterations && DistinctKeys(key, r.trajectory) && r.cycle == []
             && key(r.state) == key(r.trajectory[r.iterations - 1])
           case Oscillating =>
             && |r.trajectory| == r.iterations + 1 && DistinctKeys(key, r.trajectory[..r.iterations])
             && 2 <= |r.cycle| <= r.iterations
             && r.cycle == r.trajectory[r.iterations - |r.cycle|..r.iterations]
             && key(r.state) == key(r.cycle[0])
           case Diverged =>
             && r.iterations == maxIterations && |r.trajectory| == maxIterations + 1
             && DistinctKeys(key, r.trajectory) && r.cycle == []
         }
  }

  /** Where each key was seen. */
  ghost predicate Indexes<S, K>(key: S -> K, seen: map<K, nat>, states: seq<S>) {
    && (forall i :: 0 <= i < |states| ==> key(states[i]) in seen && seen[key(states[i])] == i)
    && (forall k :: k in seen ==> seen[k] < |states| && key(states[seen[k]]) == k)
  }

  lemma IndexedKeysAreDistinct<S, K>(key: S -> K, seen: map<K, nat>, states: seq<S>)
    requires Indexes(key, seen, states)
    ensures DistinctKeys(key, states)
  {
  }

  lemma IndexNext<S, K>(key: S -> K, seen: map<K, nat>, states: seq<S>, next: S)
    requires Indexes(key, seen, states) && key(next) !in seen
    ensures Indexes(key, seen[key(next) := |states|], states + [next])
  {
  }

  lemma FoundAt<S, K>(key: S -> K, seen: map<K, nat>, states: seq<S>, next: S)
    requires Indexes(key, seen, states) && key(next) in seen && states != [] && key(next) != key(states[|states| - 1])
    ensures seen[key(next)] + 2 <= |states| && key(states[seen[key(next)]]) == key(next)
  {
  }

  lemma VisitsNext<S>(step: S -> S, initial: S, states: seq<S>)
    requires Visits(step, initial, states) && states != []
    ensures Visits(step, initial, states + [step(states[|states| - 1])])
    ensures step(states[|states| - 1]) == After(step, initial, |states|)
  {
  }

  method Stabilize<S, K(==)>(initial: S, step: S -> S, maxIterations: int, key: S -> K) returns (r: Stabilization<S>)
    ensures Stabilizes(step, key, initial, maxIterations, r)
  {
    if maxIterations < 1 {
      return ValueError;
    }
    hide Visits, Indexes, DistinctKeys, After;
    var current := initial;
    var trajectory := [initial];
    var seen: map<K, nat> := map[key(initial) := 0];
    StartsOut(step, key, initial);
    for i := 1 to maxIterations + 1
      invariant |trajectory| == i && Visits(step, initial, trajectory) && current == trajectory[i - 1]
      invariant Indexes(key, seen, trajectory)
      invariant current == After(step, initial, i - 1)
    {
      IndexedKeysAreDistinct(key, seen, trajectory);
      VisitsNext(step, initial, trajectory);
      var next := step(current);
      if key(next) == key(current) {
        return Stabilization(Converged, next, i, trajectory, []);
      }
      if key(next) in seen {
        FoundAt(key, seen, trajectory, next);
        assert (trajectory + [next])[..i] == trajectory;
        return Stabilization(Oscillating, next, i, trajectory + [next], trajectory[seen[key(next)]..]);
      }
      IndexNext(key, seen, trajectory, next);
      seen := seen[key(next) := |trajectory|];
      trajectory := trajectory + [next];
      current := next;
    }
    IndexedKeysAreDistinct(key, seen, trajectory);
    r := Stabilization(Diverged, current, maxIterations, trajectory, []);
  }

  lemma StartsOut<S, K>(step: S -> S, key: S -> K, initial: S)
    ensures Visits(step, initial, [initial]) && Indexes(key, map[key(initial) := 0], [initial])
    ensures After(step, initial, 0) == initial
  {
  }

  // ---------------------------------------------------------------- what the verdicts mean

  /** States the key cannot tell apart stay so after a step. */
  ghost predicate StepsAlike<S, K>(step: S -> S, key: S -> K, s: S, t: S) {
    key(s) == key(t) ==> key(step(s)) == key(step(t))
  }

  ghost predicate RespectsKey<S(!new), K>(step: S -> S, key: S -> K) {
    forall s, t {:trigger StepsAlike(step, key, s, t)} :: StepsAlike(step, key, s, t)
  }

  /** Converged: the run stands still from there on. */
  lemma {:induction false} ConvergedStandsStill<S(!new), K>(step: S -> S, key: S -> K, initial: S, maxIterations: int,
                                                           r: Stabilization<S>, n: nat)
    requires RespectsKey(step, key) && Stabilizes(step, key, initial, maxIterations, r)
    requires r.Stabilization? && r.status == Converged && r.iterations - 1 <= n
    ensures key(After(step, initial, n)) == key(r.state)
    ensures key(step(r.state)) == key(r.state)
  {
    var last := r.trajectory[r.iterations - 1];
    assert last == After(step, initial, r.iterations - 1) && r.state == step(last);
    assert StepsAlike(step, key, r.state, last);
    if n > r.iterations - 1 {
      ConvergedStandsStill(step, key, initial, maxIterations, r, n - 1);
      var before := After(step, initial, n - 1);
      assert StepsAlike(step, key, before, r.state);
    }
  }

  /** Where on a cycle of `len` states the `m`-th state after its start lies. */
  ghost function RoundIndex(m: nat, len: nat): (i: nat)
    requires len > 0
    ensures i < len
  {
    m % len
  }

  /** From `start` on the run visits `cycle`, and then a state that looks like its first. */
  ghost predicate Returns<S, K>(step: S -> S, key: S -> K, initial: S, start: nat, cycle: seq<S>) {
    && |cycle| >= 2
    && (forall i :: 0 <= i < |cycle| ==> cycle[i] == After(step, initial, start + i))
    && key(After(step, initial, start + |cycle|)) == key(cycle[0])
  }

  lemma {:induction false} ReturningGoesRound<S(!new), K>(step: S -> S, key: S -> K, initial: S, start: nat,
                                                         cycle: seq<S>, n: nat)
    requires RespectsKey(step, key) && Returns(step, key, initial, start, cycle)
    ensures key(After(step, initial, start + n)) == key(cycle[RoundIndex(n, |cycle|)])
  {
    hide RoundIndex;
    NextRound(n, |cycle|);
    if n > 0 {
      ReturningGoesRound(step, key, initial, start, cycle, n - 1);
      NextRound(n - 1, |cycle|);
      var at := RoundIndex(n - 1, |cycle|);
      var before := After(step, initial, start + n - 1);
      assert StepsAlike(step, key, before, cycle[at]);
      assert step(before) == After(step, initial, start + n);
      assert step(cycle[at]) == After(step, initial, start + at + 1);
    }
  }

  /** Oscillating: the run walks the reported cycle of at least two distinct states forever. */
  lemma OscillationGoesRound<S(!new), K>(step: S -> S, key: S -> K, initial: S, maxIterations: int,
                                         r: Stabilization<S>, n: nat)
    requires RespectsKey(step, key) && Stabilizes(step, key, initial, maxIterations, r)
    requires r.Stabilization? && r.status == Oscillating
    ensures |r.cycle| >= 2 && DistinctKeys(key, r.cycle)
    ensures key(After(step, initial, r.iterations - |r.cycle| + n)) == key(r.cycle[RoundIndex(n, |r.cycle|)])
  {
    hide RespectsKey, After, RoundIndex;
    var start, len := r.iterations - |r.cycle|, |r.cycle|;
    forall i | 0 <= i < len
      ensures r.cycle[i] == After(step, initial, start + i) == r.trajectory[..r.iterations][start + i]
    {
    }
    ReturningGoesRound(step, key, initial, start, r.cycle, n);
  }

  lemma NextRound(m: nat, len: nat)
    requires len >= 2
    ensures RoundIndex(0, len) == 0
    ensures RoundIndex(m + 1, len) == if RoundIndex(m, len) == len - 1 then 0 else RoundIndex(m, len) + 1
  {
    var q, s := m / len, m % len;
    assert m == q * len + s;
    if s == len - 1 {
      assert m + 1 == (q + 1) * len;
      Remainder(q + 1, 0, len);
    } else {
      Remainder(q, s + 1, len);
    }
  }

  lemma Remainder(q: nat, s: nat, len: nat)
    requires s < len
    ensures (q * len + s) % len == s
  {
    var t := q * len + s;
    assert (t / len - q) * len == s - t % len;
    if t / len != q {
      FarApart(t / len - q, len, s - t % len);
    }
  }

  lemma FarApart(d: int, len: int, gap: int)
    requires d != 0 && len > 0 && d * len == gap
    ensures gap >= len || gap <= -len
  {
    if d > 0 {
      assert (d - 1) * len >= 0;
    } else {
      assert (-d - 1) * len >= 0;
    }
  }

  /** Diverged: one more distinct state than the bound was visited, so a key space no larger than
      the bound always gets a verdict. */
  lemma SmallSpacesNeverDiverge<S(!new), K(!new)>(step: S -> S, key: S -> K, initial: S, maxIterations: int,
                                                 r: Stabilization<S>, space: set<K>)
    requires Stabilizes(step, key, initial, maxIterations, r) && r.Stabilization?
    requires |space| <= maxIterations
    requires forall n {:trigger After(step, initial, n)} :: key(After(step, initial, n)) in space
    ensures r.status != Diverged
  {
    if r.status == Diverged {
      var keys := seq(|r.trajectory|, i requires 0 <= i < |r.trajectory| => key(r.trajectory[i]));
      forall i | 0 <= i < |keys|
        ensures keys[i] in space
      {
        assert r.trajectory[i] == After(step, initial, i);
      }
      var i, j := Pigeonhole(keys, space);
      assert false;
    }
  }

  // ---------------------------------------------------------------- accumulating loops

  /** A step that only adds, and stays inside `universe`. */
  ghost predicate Accumulates<T(!new)>(step: set<T> -> set<T>, universe: set<T>) {
    forall s {:trigger step(s)} :: s <= universe ==> s <= step(s) <= universe
  }

  lemma {:induction false} AccumulatedSoFar<T(!new)>(step: set<T> -> set<T>, universe: set<T>, initial: set<T>,
                                                     m: nat, n: nat)
    requires Accumulates(step, universe) && initial <= universe && m <= n
    ensures After(step, initial, m) <= After(step, initial, n) <= universe
    decreases n
  {
    if m < n {
      AccumulatedSoFar(step, universe, initial, m, n - 1);
    } else if n > 0 {
      AccumulatedSoFar(step, universe, initial, n - 1, n - 1);
    }
  }

  lemma {:induction false} EveryStepAdds<T(!new)>(step: set<T> -> set<T>, universe: set<T>, initial: set<T>,
                                                 states: seq<set<T>>, n: nat)
    requires Accumulates(step, universe) && initial <= universe && Visits(step, initial, states)
    requires DistinctKeys(s => s, states) && n < |states|
    ensures |initial| + n <= |states[n]| <= |universe|
  {
    assert states[n] == After(step, initial, n);
    AccumulatedSoFar(step, universe, initial, n, n);
    SubsetCardinality(states[n], universe);
    if n > 0 {
      EveryStepAdds(step, universe, initial, states, n - 1);
      AccumulatedSoFar(step, universe, initial, n - 1, n);
      assert states[n - 1] == After(step, initial, n - 1);
      SubsetCardinality(states[n - 1], states[n]);
      assert (s => s)(states[n - 1]) != (s => s)(states[n]);
    }
  }

  lemma Squeezed<T(!new)>(step: set<T> -> set<T>, universe: set<T>, initial: set<T>, c: nat, m: nat, n: nat)
    requires Accumulates(step, universe) && initial <= universe && c <= m <= n
    requires After(step, initial, c) == After(step, initial, n)
    ensures After(step, initial, c) == After(step, initial, m)
  {
    AccumulatedSoFar(step, universe, initial, c, m);
    AccumulatedSoFar(step, universe, initial, m, n);
  }

  /** An oscillation's last state lies strictly between two equal ones. */
  lemma CycleEnds<S(!new), K>(step: S -> S, key: S -> K, initial: S, maxIterations: int, r: Stabilization<S>)
    requires Stabilizes(step, key, initial, maxIterations, r) && r.Stabilization? && r.status == Oscillating
    ensures var c, i := r.iterations - |r.cycle|, r.iterations;
            0 <= c < i - 1 && key(After(step, initial, c)) == key(After(step, initial, i))
            && key(After(step, initial, c)) != key(After(step, initial, i - 1))
  {
    var c, i := r.iterations - |r.cycle|, r.iterations;
    var states := r.trajectory[..i];
    assert states[c] == r.trajectory[c] == After(step, initial, c) == r.cycle[0];
    assert states[i - 1] == r.trajectory[i - 1] == After(step, initial, i - 1);
  }

  /** An accumulating loop converges, provided the bound leaves one step per addable element and
      one to notice. */
  lemma AccumulationConverges<T(!new)>(step: set<T> -> set<T>, universe: set<T>, initial: set<T>, maxIterations: int,
                                       r: Stabilization<set<T>>)
    requires Accumulates(step, universe) && initial <= universe
    requires maxIterations >= |universe| - |initial| + 1 && maxIterations >= 1
    requires Stabilizes(step, s => s, initial, maxIterations, r)
    ensures r.Stabilization? && r.status == Converged && step(r.state) == r.state
  {
    if r.status == Oscillating {
      CycleEnds(step, s => s, initial, maxIterations, r);
      Squeezed(step, universe, initial, r.iterations - |r.cycle|, r.iterations - 1, r.iterations);
      assert false;
    } else if r.status == Diverged {
      EveryStepAdds(step, universe, initial, r.trajectory, maxIterations);
      assert false;
    }
    var last := r.trajectory[r.iterations - 1];
    assert last == After(step, initial, r.iterations - 1) && r.state == step(last);
  }

  /** The step that adds the next of `n` nodes. */
  function AddNext(n: nat): set<NodeId> -> set<NodeId> {
    s => if |s| < n then s + {NodeId(|s|)} else s
  }

  function FirstNodes(k: nat): (s: set<NodeId>)
    ensures |s| == k && forall x :: x in s <==> 0 <= x.rank < k
  {
    if k == 0 then {} else FirstNodes(k - 1) + {NodeId(k - 1)}
  }

  lemma {:induction false} AddsOneByOne(n: nat, k: nat)
    requires k <= n
    ensures After(AddNext(n), {}, k) == FirstNodes(k)
  {
    if k > 0 {
      AddsOneByOne(n, k - 1);
    }
  }

  /** That bound is tight: with one iteration fewer the loop is reported as diverged, accumulating
      or not. */
  lemma AccumulationNeedsTheBound(n: nat, r: Stabilization<set<NodeId>>)
    requires n >= 1 && Stabilizes(AddNext(n), s => s, {}, n, r)
    ensures r.Stabilization? && r.status == Diverged
  {
    forall k | 0 <= k <= n
      ensures After(AddNext(n), {}, k) == FirstNodes(k) && |FirstNodes(k)| == k
    {
      AddsOneByOne(n, k);
    }
    if r.status == Oscillating {
      CycleEnds(AddNext(n), s => s, {}, n, r);
      assert false;
    }
  }
}
