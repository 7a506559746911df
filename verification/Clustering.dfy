/**
 First-fit clustering and the consolidation of samples in src/iknos/core/consistency.py.

 `FirstFitIsExact` characterises the clusters: every member is within the threshold of its own
 opener and of no earlier one. `ConsolidateSamples` clusters within each polarity and class, picks
 a medoid per cluster and flags exactly the clusters with a polarity twin, whatever order the
 samples arrive in.
 */
module Clustering {
  import opened Sets

  /** How similar the second argument, a cluster's opener, is to the first. */
  type Similarity<!T> = (T, T) -> real

  function Flatten<T>(clusters: seq<seq<T>>): seq<T> {
    if clusters == [] then [] else Flatten(clusters[..|clusters| - 1]) + clusters[|clusters| - 1]
  }

  ghost predicate Openers<T>(clusters: seq<seq<T>>) {
    forall i :: 0 <= i < |clusters| ==> clusters[i] != []
  }

  /** The first cluster whose opener is similar enough, or one past the last. */
  function FirstFitting<T>(x: T, clusters: seq<seq<T>>, sim: Similarity<T>, threshold: real): (i: nat)
    requires Openers(clusters)
    ensures i <= |clusters|
    ensures i < |clusters| ==> sim(x, clusters[i][0]) >= threshold
    ensures forall k :: 0 <= k < i ==> sim(x, clusters[k][0]) < threshold
    decreases |clusters|
  {
    if clusters == [] then 0
    else
      var i := FirstFitting(x, clusters[..|clusters| - 1], sim, threshold);
      if i < |clusters| - 1 then i
      else if sim(x, clusters[|clusters| - 1][0]) >= threshold then |clusters| - 1
      else |clusters|
  }

  function Placed<T>(x: T, clusters: seq<seq<T>>, sim: Similarity<T>, threshold: real): (r: seq<seq<T>>)
    requires Openers(clusters)
    ensures Openers(r)
  {
    var i := FirstFitting(x, clusters, sim, threshold);
    if i < |clusters| then clusters[i := clusters[i] + [x]] else clusters + [[x]]
  }

  /** The clusters of a list, in order. */
  function FirstFit<T>(items: seq<T>, sim: Similarity<T>, threshold: real): (clusters: seq<seq<T>>)
    ensures Openers(clusters)
  {
    if items == [] then []
    else Placed(items[|items| - 1], FirstFit(items[..|items| - 1], sim, threshold), sim, threshold)
  }

  lemma {:induction false} FlattenPlaced<T>(clusters: seq<seq<T>>, i: nat, x: T)
    requires i < |clusters|
    ensures multiset(Flatten(clusters[i := clusters[i] + [x]])) == multiset(Flatten(clusters)) + multiset{x}
  {
    var n := |clusters| - 1;
    var front, last := clusters[..n], clusters[n];
    var after := clusters[i := clusters[i] + [x]];
    if i == n {
      assert after[..n] == front && after[n] == last + [x];
      assert Flatten(after) == Flatten(front) + (last + [x]);
    } else {
      assert after[..n] == front[i := front[i] + [x]] && after[n] == last;
      FlattenPlaced(front, i, x);
      assert Flatten(after) == Flatten(front[i := front[i] + [x]]) + last;
    }
    assert Flatten(clusters) == Flatten(front) + last;
  }

  /** The clusters hold the items, each as often as it was given. */
  lemma {:induction false} FirstFitPartitions<T>(items: seq<T>, sim: Similarity<T>, threshold: real)
    ensures multiset(Flatten(FirstFit(items, sim, threshold))) == multiset(items)
  {
    if items != [] {
      var front, x := items[..|items| - 1], items[|items| - 1];
      assert items == front + [x];
      FirstFitPartitions(front, sim, threshold);
      var clusters := FirstFit(front, sim, threshold);
      var i := FirstFitting(x, clusters, sim, threshold);
      if i < |clusters| {
        FlattenPlaced(clusters, i, x);
      } else {
        assert (clusters + [[x]])[..|clusters|] == clusters;
      }
    }
  }

  /** A member of cluster `i`: within the threshold of its own opener, unless it is that opener,
      and below it for every earlier opener. */
  ghost predicate FitsAt<T>(clusters: seq<seq<T>>, sim: Similarity<T>, threshold: real, i: nat, m: nat)
    requires Openers(clusters) && i < |clusters| && m < |clusters[i]|
  {
    && (m > 0 ==> sim(clusters[i][m], clusters[i][0]) >= threshold)
    && forall k :: 0 <= k < i ==> sim(clusters[i][m], clusters[k][0]) < threshold
  }

  lemma {:induction false} FirstFitIsExact<T>(items: seq<T>, sim: Similarity<T>, threshold: real, i: nat, m: nat)
    requires i < |FirstFit(items, sim, threshold)| && m < |FirstFit(items, sim, threshold)[i]|
    ensures FitsAt(FirstFit(items, sim, threshold), sim, threshold, i, m)
  {
    var front, x := items[..|items| - 1], items[|items| - 1];
    var clusters, after := FirstFit(front, sim, threshold), FirstFit(items, sim, threshold);
    var at := FirstFitting(x, clusters, sim, threshold);
    assert forall k :: 0 <= k < |clusters| ==> after[k][0] == clusters[k][0];
    if i < |clusters| && m < |clusters[i]| {
      FirstFitIsExact(front, sim, threshold, i, m);
      assert after[i][m] == clusters[i][m];
    } else {
      assert after[i][m] == x;
    }
  }

  method ClusterInOrder<T>(items: seq<T>, sim: Similarity<T>, threshold: real) returns (clusters: seq<seq<T>>)
    ensures clusters == FirstFit(items, sim, threshold)
  {
    clusters := [];
    var representatives: seq<T> := [];
    assert items[..0] == [] && items[..|items|] == items;
    for n := 0 to |items|
      invariant clusters == FirstFit(items[..n], sim, threshold) && Represent(representatives, clusters)
    {
      FirstFitMore(items, sim, threshold, n);
      var i := 0;
      while i < |representatives| && sim(items[n], representatives[i]) < threshold
        invariant i <= |representatives|
        invariant forall k :: 0 <= k < i ==> sim(items[n], representatives[k]) < threshold
      {
        i := i + 1;
      }
      BelongsAt(items[n], representatives, clusters, sim, threshold, i);
      hide Represent, FirstFit, Placed;
      if i < |representatives| {
        clusters := clusters[i := clusters[i] + [items[n]]];
      } else {
        clusters := clusters + [[items[n]]];
        representatives := representatives + [items[n]];
      }
    }
  }

  /** Each cluster's representative is its opener. */
  ghost predicate Represent<T>(representatives: seq<T>, clusters: seq<seq<T>>) {
    && Openers(clusters) && |representatives| == |clusters|
    && forall i :: 0 <= i < |clusters| ==> representatives[i] == clusters[i][0]
  }

  /** The scan's stopping point is where the item belongs. */
  lemma BelongsAt<T>(x: T, representatives: seq<T>, clusters: seq<seq<T>>, sim: Similarity<T>, threshold: real, i: nat)
    requires Represent(representatives, clusters) && i <= |clusters|
    requires forall k :: 0 <= k < i ==> sim(x, representatives[k]) < threshold
    requires i < |clusters| ==> sim(x, representatives[i]) >= threshold
    ensures if i < |clusters|
            then Placed(x, clusters, sim, threshold) == clusters[i := clusters[i] + [x]]
                 && Represent(representatives, clusters[i := clusters[i] + [x]])
            else Placed(x, clusters, sim, threshold) == clusters + [[x]]
                 && Represent(representatives + [x], clusters + [[x]])
  {
    assert FirstFitting(x, clusters, sim, threshold) == i;
  }

  lemma FirstFitMore<T>(items: seq<T>, sim: Similarity<T>, threshold: real, n: nat)
    requires n < |items|
    ensures FirstFit(items[..n + 1], sim, threshold)
         == Placed(items[n], FirstFit(items[..n], sim, threshold), sim, threshold)
  {
    TakeMore(items, n);
  }

  // ---------------------------------------------------------------- samples of one claim

  datatype Polarity = Asserted | Negated

  datatype Candidate = Candidate(polarity: Polarity, epistemicClass: int, vector: int, sample: nat, position: nat)

  predicate Earlier(a: Candidate, b: Candidate) {
    a.sample < b.sample || (a.sample == b.sample && a.position < b.position)
  }

  /** Keys are distinct, and the list follows them. */
  ghost predicate InKeyOrder(cs: seq<Candidate>) {
    forall i, j :: 0 <= i < j < |cs| ==> Earlier(cs[i], cs[j])
  }

  lemma SameLast(a: seq<Candidate>, b: seq<Candidate>)
    requires InKeyOrder(a) && InKeyOrder(b) && a != [] && b != [] && forall c :: c in a <==> c in b
    ensures a[|a| - 1] == b[|b| - 1]
  {
    var x, y := a[|a| - 1], b[|b| - 1];
    assert x in b && y in a;
    var i :| 0 <= i < |b| && b[i] == x;
    var j :| 0 <= j < |a| && a[j] == y;
  }

  lemma WithoutLast(a: seq<Candidate>, b: seq<Candidate>)
    requires a != [] && b != [] && multiset(a) == multiset(b) && a[|a| - 1] == b[|b| - 1]
    ensures multiset(a[..|a| - 1]) == multiset(b[..|b| - 1])
  {
    LessTheLast(a);
    LessTheLast(b);
  }

  lemma LessTheLast<T>(s: seq<T>)
    requires s != []
    ensures multiset(s[..|s| - 1]) == multiset(s) - multiset{s[|s| - 1]}
  {
    assert s == s[..|s| - 1] + [s[|s| - 1]];
  }

  /** There is one way to put candidates with distinct keys in order. */
  lemma {:induction false} OrderIsOne(a: seq<Candidate>, b: seq<Candidate>)
    requires InKeyOrder(a) && InKeyOrder(b) && multiset(a) == multiset(b)
    ensures a == b
  {
    assert |multiset(a)| == |a| && |multiset(b)| == |b|;
    if a != [] {
      forall c
        ensures c in a <==> c in b
      {
        assert c in multiset(a) <==> c in multiset(b);
      }
      SameLast(a, b);
      WithoutLast(a, b);
      OrderIsOne(a[..|a| - 1], b[..|b| - 1]);
      hide InKeyOrder;
      assert a == a[..|a| - 1] + [a[|a| - 1]] && b == b[..|b| - 1] + [b[|b| - 1]];
    }
  }

  ghost predicate DistinctKeys(cs: seq<Candidate>) {
    forall i, j :: 0 <= i < j < |cs| ==> Earlier(cs[i], cs[j]) || Earlier(cs[j], cs[i])
  }

  function Inserted(cs: seq<Candidate>, c: Candidate): seq<Candidate> {
    if cs != [] && Earlier(c, cs[|cs| - 1]) then Inserted(cs[..|cs| - 1], c) + [cs[|cs| - 1]] else cs + [c]
  }

  /** The canonical order of the candidates. */
  function Ordered(cs: seq<Candidate>): seq<Candidate> {
    if cs == [] then [] else Inserted(Ordered(cs[..|cs| - 1]), cs[|cs| - 1])
  }

  lemma {:induction false} InsertedHolds(cs: seq<Candidate>, c: Candidate)
    ensures multiset(Inserted(cs, c)) == multiset(cs) + multiset{c}
    ensures forall x :: x in Inserted(cs, c) <==> x in cs || x == c
  {
    if cs != [] && Earlier(c, cs[|cs| - 1]) {
      var n := |cs| - 1;
      assert cs == cs[..n] + [cs[n]];
      InsertedHolds(cs[..n], c);
    }
  }

  lemma {:induction false} InsertedInOrder(cs: seq<Candidate>, c: Candidate)
    requires InKeyOrder(cs) && forall i :: 0 <= i < |cs| ==> Earlier(cs[i], c) || Earlier(c, cs[i])
    ensures InKeyOrder(Inserted(cs, c))
  {
    if cs != [] && Earlier(c, cs[|cs| - 1]) {
      var n := |cs| - 1;
      InsertedInOrder(cs[..n], c);
      InsertedHolds(cs[..n], c);
      var r := Inserted(cs[..n], c);
      forall i | 0 <= i < |r|
        ensures Earlier(r[i], cs[n])
      {
        assert r[i] in r;
      }
    }
  }

  lemma {:induction false} OrderedIs(cs: seq<Candidate>)
    requires DistinctKeys(cs)
    ensures InKeyOrder(Ordered(cs)) && multiset(Ordered(cs)) == multiset(cs)
    ensures forall x :: x in Ordered(cs) <==> x in cs
  {
    if cs != [] {
      var front, c := cs[..|cs| - 1], cs[|cs| - 1];
      assert cs == front + [c];
      OrderedIs(front);
      InsertedHolds(Ordered(front), c);
      forall i | 0 <= i < |Ordered(front)|
        ensures Earlier(Ordered(front)[i], c) || Earlier(c, Ordered(front)[i])
      {
        assert Ordered(front)[i] in front;
        var j :| 0 <= j < |front| && front[j] == Ordered(front)[i];
        assert cs[j] == front[j];
      }
      InsertedInOrder(Ordered(front), c);
    }
  }

  /** The order is that of the samples, and within one that of the positions. */
  lemma OrderFollowsSamples(cs: seq<Candidate>, i: nat, j: nat)
    requires DistinctKeys(cs) && i < j < |Ordered(cs)|
    ensures var a, b := Ordered(cs)[i], Ordered(cs)[j];
            a.sample <= b.sample && (a.sample == b.sample ==> a.position < b.position)
  {
    OrderedIs(cs);
    assert Earlier(Ordered(cs)[i], Ordered(cs)[j]);
  }

  /** Clustering does not depend on the order the candidates are handed over in. */
  lemma OrderOfArrivalDoesNotMatter(a: seq<Candidate>, b: seq<Candidate>, sim: Similarity<Candidate>, threshold: real)
    requires DistinctKeys(a) && DistinctKeys(b) && multiset(a) == multiset(b)
    ensures FirstFit(Ordered(a), sim, threshold) == FirstFit(Ordered(b), sim, threshold)
  {
    OrderedIs(a);
    OrderedIs(b);
    OrderIsOne(Ordered(a), Ordered(b));
  }

  /** Only candidates of one polarity and class may share a cluster. */
  datatype GroupKey = GroupKey(polarity: Polarity, epistemicClass: int)

  function KeyOf(c: Candidate): GroupKey {
    GroupKey(c.polarity, c.epistemicClass)
  }

  function Of(cs: seq<Candidate>, key: GroupKey): (r: seq<Candidate>)
    ensures forall i :: 0 <= i < |r| ==> KeyOf(r[i]) == key
  {
    if cs == [] then []
    else Of(cs[..|cs| - 1], key) + if KeyOf(cs[|cs| - 1]) == key then [cs[|cs| - 1]] else []
  }

  /** The partitioned clusters, one group after another in the order of `keys`. */
  function Partitioned(cs: seq<Candidate>, keys: seq<GroupKey>, sim: Similarity<Candidate>, threshold: real
                       ): seq<seq<Candidate>> {
    if keys == [] then []
    else
      Partitioned(cs, keys[..|keys| - 1], sim, threshold) + FirstFit(Of(cs, keys[|keys| - 1]), sim, threshold)
  }

  predicate KeyBefore(a: GroupKey, b: GroupKey) {
    (a.polarity == Asserted && b.polarity == Negated) || (a.polarity == b.polarity && a.epistemicClass < b.epistemicClass)
  }

  /** The groups that occur, each once, in order. */
  ghost predicate SortedKeys(cs: seq<Candidate>, keys: seq<GroupKey>) {
    && (forall i, j :: 0 <= i < j < |keys| ==> KeyBefore(keys[i], keys[j]))
    && forall key :: key in keys <==> exists c :: c in cs && KeyOf(c) == key
  }

  /** Files a key into an ordered list, once. */
  method FileKey(keys: seq<GroupKey>, key: GroupKey) returns (filed: seq<GroupKey>)
    requires forall i, j :: 0 <= i < j < |keys| ==> KeyBefore(keys[i], keys[j])
    ensures forall i, j :: 0 <= i < j < |filed| ==> KeyBefore(filed[i], filed[j])
    ensures forall k :: k in filed <==> k in keys || k == key
  {
    var i := 0;
    while i < |keys| && KeyBefore(keys[i], key)
      invariant i <= |keys| && forall j :: 0 <= j < i ==> KeyBefore(keys[j], key)
    {
      i := i + 1;
    }
    if i < |keys| && keys[i] == key {
      return keys;
    }
    filed := keys[..i] + [key] + keys[i..];
    assert keys == keys[..i] + keys[i..];
    assert forall j :: i <= j < |keys| ==> KeyBefore(key, keys[j]);
  }

  /** The groups of asserted claims come first, and within a polarity the classes rise. */
  lemma AssertedFirst(cs: seq<Candidate>, keys: seq<GroupKey>, i: nat, j: nat)
    requires SortedKeys(cs, keys) && i < j < |keys|
    ensures keys[j].polarity == Asserted ==> keys[i].polarity == Asserted
    ensures keys[i].polarity == keys[j].polarity ==> keys[i].epistemicClass < keys[j].epistemicClass
  {
    assert KeyBefore(keys[i], keys[j]);
  }

  /** `groups` holds the candidates seen so far under their keys, which `present` lists. */
  ghost predicate Filed(cs: seq<Candidate>, present: seq<GroupKey>, groups: map<GroupKey, seq<Candidate>>) {
    && SortedKeys(cs, present) && (forall key :: key in groups <==> key in present)
    && (forall key :: key in groups ==> groups[key] == Of(cs, key))
    && forall key :: key !in groups ==> Of(cs, key) == []
  }

  lemma FiledKeys(cs: seq<Candidate>, present: seq<GroupKey>, groups: map<GroupKey, seq<Candidate>>)
    requires Filed(cs, present, groups)
    ensures SortedKeys(cs, present) && forall i, j :: 0 <= i < j < |present| ==> KeyBefore(present[i], present[j])
    ensures forall key :: key in present ==> key in groups && groups[key] == Of(cs, key)
  {
  }

  lemma FileOne(cs: seq<Candidate>, n: nat, present: seq<GroupKey>, groups: map<GroupKey, seq<Candidate>>,
                filed: seq<GroupKey>)
    requires n < |cs| && Filed(cs[..n], present, groups)
    requires forall i, j :: 0 <= i < j < |filed| ==> KeyBefore(filed[i], filed[j])
    requires forall k :: k in filed <==> k in present || k == KeyOf(cs[n])
    ensures var key := KeyOf(cs[n]);
            Filed(cs[..n + 1], filed, groups[key := (if key in groups then groups[key] else []) + [cs[n]]])
  {
    hide KeyOf, KeyBefore, Of;
    TakeMore(cs, n);
    OneMoreInGroup(cs, n);
  }

  method GroupByKey(cs: seq<Candidate>) returns (present: seq<GroupKey>, groups: map<GroupKey, seq<Candidate>>)
    ensures Filed(cs, present, groups)
  {
    present, groups := [], map[];
    assert Filed([], present, groups) && cs[..0] == [];
    hide *;
    for n := 0 to |cs|
      invariant Filed(cs[..n], present, groups)
    {
      var key := KeyOf(cs[n]);
      FiledKeys(cs[..n], present, groups);
      var filed := FileKey(present, key);
      FileOne(cs, n, present, groups, filed);
      present := filed;
      groups := groups[key := (if key in groups then groups[key] else []) + [cs[n]]];
    }
    assert cs[..|cs|] == cs;
  }

  /** Clusters within each polarity and class, group after group in order. */
  method ClusterPartitioned(cs: seq<Candidate>, sim: Similarity<Candidate>, threshold: real)
    returns (clusters: seq<seq<Candidate>>)
    ensures exists keys :: SortedKeys(Ordered(cs), keys) && clusters == Partitioned(Ordered(cs), keys, sim, threshold)
  {
    var ordered := Ordered(cs);
    var present, groups := GroupByKey(ordered);
    FiledKeys(ordered, present, groups);
    clusters := [];
    assert Partitioned(ordered, [], sim, threshold) == [] && present[..0] == [];
    hide *;
    for n := 0 to |present|
      invariant clusters == Partitioned(ordered, present[..n], sim, threshold)
    {
      OneMoreKey(ordered, present, n, sim, threshold);
      assert present[n] in present;
      var more := ClusterInOrder(groups[present[n]], sim, threshold);
      clusters := clusters + more;
    }
    assert present[..|present|] == present;
  }

  lemma OneMoreKey(cs: seq<Candidate>, keys: seq<GroupKey>, n: nat, sim: Similarity<Candidate>, threshold: real)
    requires n < |keys|
    ensures Partitioned(cs, keys[..n + 1], sim, threshold)
         == Partitioned(cs, keys[..n], sim, threshold) + FirstFit(Of(cs, keys[n]), sim, threshold)
  {
    assert keys[..n + 1][..n] == keys[..n];
  }

  lemma OneMoreInGroup(cs: seq<Candidate>, n: nat)
    requires n < |cs|
    ensures forall key :: Of(cs[..n + 1], key) == Of(cs[..n], key) + if KeyOf(cs[n]) == key then [cs[n]] else []
  {
    assert cs[..n + 1][..n] == cs[..n];
  }

  lemma {:induction false} FlattenAppend<T>(a: seq<seq<T>>, b: seq<seq<T>>)
    ensures Flatten(a + b) == Flatten(a) + Flatten(b)
    decreases |b|
  {
    if b == [] {
      assert a + b == a;
    } else {
      var front, last := b[..|b| - 1], b[|b| - 1];
      LastOfBoth(a, b);
      FlattenAppend(a, front);
      assert Flatten(a + b) == Flatten(a + front) + last;
    }
  }

  lemma {:induction false} InFlatten<T>(clusters: seq<seq<T>>, i: nat, m: nat)
    requires i < |clusters| && m < |clusters[i]|
    ensures clusters[i][m] in Flatten(clusters)
  {
    if i < |clusters| - 1 {
      InFlatten(clusters[..|clusters| - 1], i, m);
    } else {
      assert clusters[i][m] in clusters[i];
    }
  }

  /** A claim and its negation are never in one cluster, however similar their embeddings. */
  lemma {:induction false} PolaritiesNeverMix(cs: seq<Candidate>, keys: seq<GroupKey>, sim: Similarity<Candidate>,
                                              threshold: real, i: nat, m: nat, k: nat)
    requires i < |Partitioned(cs, keys, sim, threshold)|
    requires m < |Partitioned(cs, keys, sim, threshold)[i]| && k < |Partitioned(cs, keys, sim, threshold)[i]|
    ensures var cluster := Partitioned(cs, keys, sim, threshold)[i];
            cluster[m].polarity == cluster[k].polarity && cluster[m].epistemicClass == cluster[k].epistemicClass
  {
    var n := |keys| - 1;
    var before := Partitioned(cs, keys[..n], sim, threshold);
    if i < |before| {
      PolaritiesNeverMix(cs, keys[..n], sim, threshold, i, m, k);
    } else {
      var group := Of(cs, keys[n]);
      var clusters := FirstFit(group, sim, threshold);
      FirstFitPartitions(group, sim, threshold);
      InFlatten(clusters, i - |before|, m);
      InFlatten(clusters, i - |before|, k);
      forall x | x in Flatten(clusters)
        ensures KeyOf(x) == keys[n]
      {
        assert x in multiset(Flatten(clusters));
        assert x in group;
      }
    }
  }

  lemma {:induction false} GroupsSplitOff(cs: seq<Candidate>, key: GroupKey, c: Candidate)
    ensures multiset(Of(cs, key))[c] == if KeyOf(c) == key then multiset(cs)[c] else 0
  {
    if cs != [] {
      var front, last := cs[..|cs| - 1], cs[|cs| - 1];
      assert cs == front + [last];
      GroupsSplitOff(front, key, c);
    }
  }

  /** Every candidate is in exactly one cluster, as often as it was given. */
  lemma {:induction false} PartitionedCounts(cs: seq<Candidate>, keys: seq<GroupKey>, sim: Similarity<Candidate>,
                                             threshold: real, c: Candidate)
    requires Distinct(keys)
    ensures multiset(Flatten(Partitioned(cs, keys, sim, threshold)))[c] == if KeyOf(c) in keys then multiset(cs)[c] else 0
  {
    if keys != [] {
      var front, key := keys[..|keys| - 1], keys[|keys| - 1];
      assert keys == front + [key];
      assert key !in front;
      PartitionedCounts(cs, front, sim, threshold, c);
      var clusters := FirstFit(Of(cs, key), sim, threshold);
      FlattenAppend(Partitioned(cs, front, sim, threshold), clusters);
      FirstFitPartitions(Of(cs, key), sim, threshold);
      GroupsSplitOff(cs, key, c);
      hide FirstFit, Of, Partitioned, Flatten;
    }
  }

  // ---------------------------------------------------------------- medoids and twins

  /** The summed similarity of `c` to the other members. */
  ghost function Closeness(c: nat, members: seq<Candidate>, sim: Similarity<Candidate>, k: nat): real
    requires c < |members| && k <= |members|
  {
    if k == 0 then 0.0
    else Closeness(c, members, sim, k - 1) + if k - 1 == c then 0.0 else sim(members[c], members[k - 1])
  }

  /** No member is closer to the others, and no earlier one as close. */
  ghost predicate Central(members: seq<Candidate>, sim: Similarity<Candidate>, best: nat)
    requires best < |members|
  {
    && (forall c :: 0 <= c < |members| ==>
          Closeness(c, members, sim, |members|) <= Closeness(best, members, sim, |members|))
    && forall c :: 0 <= c < best ==>
         Closeness(c, members, sim, |members|) < Closeness(best, members, sim, |members|)
  }

  /** How far `c` is ahead of `b` over the first `k` members, leaving out the two themselves. */
  lemma {:induction false} AheadUpTo(members: seq<Candidate>, sim: Similarity<Candidate>, c: nat, b: nat, k: nat)
    returns (lead: real)
    requires c < |members| && b < |members| && c != b && k <= |members|
    requires forall i :: 0 <= i < k && i != c && i != b ==> sim(members[b], members[i]) <= sim(members[c], members[i])
    ensures lead >= 0.0
    ensures lead == 0.0 ==>
              forall i :: 0 <= i < k && i != c && i != b ==> sim(members[b], members[i]) == sim(members[c], members[i])
    ensures Closeness(c, members, sim, k) - (if b < k then sim(members[c], members[b]) else 0.0)
         == Closeness(b, members, sim, k) - (if c < k then sim(members[b], members[c]) else 0.0) + lead
  {
    lead := 0.0;
    if k > 0 {
      lead := AheadUpTo(members, sim, c, b, k - 1);
      if k - 1 != c && k - 1 != b {
        lead := lead + sim(members[c], members[k - 1]) - sim(members[b], members[k - 1]);
      }
    }
  }

  /** Nobody outranks the canonical member: one that is at least as close to every third is exactly as
      close to each, and comes later. */
  lemma NobodyOutranks(members: seq<Candidate>, sim: Similarity<Candidate>, best: nat, c: nat)
    requires best < |members| && c < |members| && c != best && Central(members, sim, best)
    requires forall x, y :: sim(x, y) == sim(y, x)
    requires forall i :: 0 <= i < |members| && i != c && i != best ==>
               sim(members[best], members[i]) <= sim(members[c], members[i])
    ensures best < c
    ensures forall i :: 0 <= i < |members| && i != c && i != best ==>
              sim(members[best], members[i]) == sim(members[c], members[i])
  {
    var lead := AheadUpTo(members, sim, c, best, |members|);
    hide Closeness;
    CentralMeans(members, sim, best, c);
  }

  lemma CentralMeans(members: seq<Candidate>, sim: Similarity<Candidate>, best: nat, c: nat)
    requires best < |members| && c < |members| && Central(members, sim, best)
    ensures Closeness(c, members, sim, |members|) <= Closeness(best, members, sim, |members|)
    ensures c < best ==> Closeness(c, members, sim, |members|) < Closeness(best, members, sim, |members|)
  {
    hide Closeness;
  }

  /** The most central member of an ordered cluster, the first on a tie. The mean over the others
      ranks as the sum does, since all members have as many others. */
  method CanonicalOf(members: seq<Candidate>, sim: Similarity<Candidate>) returns (best: nat)
    requires members != []
    ensures best < |members| && Central(members, sim, best)
  {
    hide Closeness;
    best := 0;
    var bestScore := ScoreOf(0, members, sim);
    for c := 1 to |members|
      invariant best < c && bestScore == Closeness(best, members, sim, |members|)
      invariant forall k :: 0 <= k < c ==> Closeness(k, members, sim, |members|) <= bestScore
      invariant forall k :: 0 <= k < best ==> Closeness(k, members, sim, |members|) < bestScore
    {
      var score := ScoreOf(c, members, sim);
      if score > bestScore {
        best, bestScore := c, score;
      }
    }
  }

  method ScoreOf(c: nat, members: seq<Candidate>, sim: Similarity<Candidate>) returns (score: real)
    requires c < |members|
    ensures score == Closeness(c, members, sim, |members|)
  {
    score := 0.0;
    for k := 0 to |members|
      invariant score == Closeness(c, members, sim, k)
    {
      if k != c {
        score := score + sim(members[c], members[k]);
      }
    }
  }

  /** Two clusters are twins if their canonical members oppose each other on one claim. */
  predicate AreTwins(canon: seq<Candidate>, sim: Similarity<Candidate>, threshold: real, i: nat, j: nat)
    requires i < |canon| && j < |canon|
  {
    canon[i].polarity != canon[j].polarity && sim(canon[i], canon[j]) >= threshold
  }

  datatype Pair = Pair(first: nat, second: nat)

  /** The twin pairs, and the flag of each half. */
  method FindTwins(canon: seq<Candidate>, sim: Similarity<Candidate>, threshold: real)
    returns (unstable: seq<bool>, twins: seq<Pair>)
    ensures |unstable| == |canon|
    ensures forall p :: p in twins <==>
              (p.first < p.second < |canon| && AreTwins(canon, sim, threshold, p.first, p.second))
    ensures forall k :: 0 <= k < |canon| ==>
              (unstable[k] <==> exists p :: p in twins && (p.first == k || p.second == k))
  {
    unstable := seq(|canon|, k => false);
    twins := [];
    for i := 0 to |canon|
      invariant |unstable| == |canon|
      invariant forall p :: p in twins <==>
                  p.first < i && p.first < p.second < |canon| && AreTwins(canon, sim, threshold, p.first, p.second)
      invariant forall k :: 0 <= k < |canon| ==>
                  (unstable[k] <==> exists p :: p in twins && (p.first == k || p.second == k))
    {
      for j := i + 1 to |canon|
        invariant |unstable| == |canon|
        invariant forall p :: p in twins <==>
                    p.first < p.second < |canon| && (p.first < i || (p.first == i && p.second < j))
                    && AreTwins(canon, sim, threshold, p.first, p.second)
        invariant forall k :: 0 <= k < |canon| ==>
                    (unstable[k] <==> exists p :: p in twins && (p.first == k || p.second == k))
      {
        if AreTwins(canon, sim, threshold, i, j) {
          ghost var before := twins;
          twins := twins + [Pair(i, j)];
          unstable := unstable[i := true][j := true];
          assert Pair(i, j) in twins;
          assert forall p :: p in twins <==> p in before || p == Pair(i, j);
        }
      }
    }
  }

  /** With a symmetric similarity, a cluster is flagged exactly when the canonical member of some other
      one has the opposite polarity and is similar enough. */
  lemma FlaggedExactlyWithATwin(canon: seq<Candidate>, sim: Similarity<Candidate>, threshold: real, unstable: seq<bool>,
                                twins: seq<Pair>, k: nat)
    requires |unstable| == |canon| && k < |canon| && forall a, b :: sim(a, b) == sim(b, a)
    requires forall p :: p in twins
                    <==> p.first < p.second < |canon| && AreTwins(canon, sim, threshold, p.first, p.second)
    requires unstable[k] <==> exists p :: p in twins && (p.first == k || p.second == k)
    ensures unstable[k]
       <==> exists i :: 0 <= i < |canon| && canon[i].polarity != canon[k].polarity && sim(canon[k], canon[i]) >= threshold
  {
    if i :| 0 <= i < |canon| && canon[i].polarity != canon[k].polarity && sim(canon[k], canon[i]) >= threshold {
      assert AreTwins(canon, sim, threshold, i, k);
      assert (if i < k then Pair(i, k) else Pair(k, i)) in twins;
    }
    if p :| p in twins && (p.first == k || p.second == k) {
      var i := if p.first == k then p.second else p.first;
      assert AreTwins(canon, sim, threshold, k, i);
      assert canon[i].polarity != canon[k].polarity && sim(canon[k], canon[i]) >= threshold;
    }
  }

  // ---------------------------------------------------------------- agreement

  function SamplesOf(cluster: seq<Candidate>): set<nat> {
    set c | c in cluster :: c.sample
  }

  /** The share of the samples that produced the claim, each sample counted once. */
  function AgreementOf(cluster: seq<Candidate>, samples: nat): (a: real)
    requires samples >= 1
    ensures 0.0 <= a <= 1.0
  {
    var n := |SamplesOf(cluster)|;
    if n >= samples then 1.0 else Share(n, samples)
  }

  function Share(n: nat, samples: nat): (a: real)
    requires n <= samples && samples >= 1
    ensures 0.0 <= a <= 1.0 && a * samples as real == n as real
  {
    var a := n as real / samples as real;
    a
  }

  /** Agreement counts samples, not members: times the number of samples drawn it is the number of
      different samples with a member in the cluster, and it stops at one. */
  lemma AgreementExactly(cluster: seq<Candidate>, samples: nat, produced: seq<nat>)
    requires samples >= 1 && Distinct(produced)
    requires forall i :: i in produced <==> exists c :: c in cluster && c.sample == i
    ensures |produced| <= samples ==> AgreementOf(cluster, samples) * samples as real == |produced| as real
    ensures |produced| >= samples ==> AgreementOf(cluster, samples) == 1.0
  {
    DistinctCardinality(produced);
    assert SamplesOf(cluster) == SeqToSet(produced);
  }

  // ---------------------------------------------------------------- the samples consolidated

  datatype Consolidated = Consolidated(canonical: Candidate, agreement: real, polarityUnstable: bool)

  datatype Consolidation = Consolidation(items: seq<Consolidated>, twins: seq<Pair>) | ValueError

  ghost predicate IsMedoid(cluster: seq<Candidate>, sim: Similarity<Candidate>, c: Candidate) {
    exists best: nat :: best < |Ordered(cluster)| && c == Ordered(cluster)[best] && Central(Ordered(cluster), sim, best)
  }

  /** The canonical members of the clusters. */
  ghost predicate Medoids(clusters: seq<seq<Candidate>>, sim: Similarity<Candidate>, canon: seq<Candidate>) {
    |canon| == |clusters| && forall k :: 0 <= k < |clusters| ==> IsMedoid(clusters[k], sim, canon[k])
  }

  /** What consolidation owes to its clusters: a medoid each, the share of samples that agree, and
      the flag of a claim some other cluster opposes. */
  ghost predicate Consolidates(clusters: seq<seq<Candidate>>, samples: int, sim: Similarity<Candidate>,
                               threshold: real, canon: seq<Candidate>, r: Consolidation)
  {
    if clusters != [] && samples < 1 then r == ValueError
    else
      && r.Consolidation? && Medoids(clusters, sim, canon) && |r.items| == |clusters|
      && (forall p :: p in r.twins <==>
            (p.first < p.second < |canon| && AreTwins(canon, sim, threshold, p.first, p.second)))
      && forall k :: 0 <= k < |clusters| ==>
           && r.items[k].canonical == canon[k] && r.items[k].agreement == AgreementOf(clusters[k], samples)
           && (r.items[k].polarityUnstable <==> exists p :: p in r.twins && (p.first == k || p.second == k))
  }

  method PickMedoids(clusters: seq<seq<Candidate>>, sim: Similarity<Candidate>) returns (canon: seq<Candidate>)
    requires Openers(clusters)
    ensures Medoids(clusters, sim, canon)
  {
    hide Ordered, Central, IsMedoid;
    canon := [];
    for k := 0 to |clusters|
      invariant |canon| == k && forall i :: 0 <= i < k ==> IsMedoid(clusters[i], sim, canon[i])
    {
      OrderedKeepsAll(clusters[k]);
      var members := Ordered(clusters[k]);
      var best := CanonicalOf(members, sim);
      CentralIsMedoid(clusters[k], sim, best);
      canon := canon + [members[best]];
    }
  }

  lemma CentralIsMedoid(cluster: seq<Candidate>, sim: Similarity<Candidate>, best: nat)
    requires best < |Ordered(cluster)| && Central(Ordered(cluster), sim, best)
    ensures IsMedoid(cluster, sim, Ordered(cluster)[best])
  {
  }

  lemma OrderedKeepsAll(cs: seq<Candidate>)
    requires cs != []
    ensures Ordered(cs) != []
  {
  }

  lemma {:induction false} PartitionedOpeners(cs: seq<Candidate>, keys: seq<GroupKey>, sim: Similarity<Candidate>,
                                              threshold: real)
    ensures Openers(Partitioned(cs, keys, sim, threshold))
  {
    if keys != [] {
      PartitionedOpeners(cs, keys[..|keys| - 1], sim, threshold);
    }
  }

  /** All samples of one document, consolidated. */
  method ConsolidateSamples(cs: seq<Candidate>, samples: int, sim: Similarity<Candidate>, threshold: real)
    returns (r: Consolidation)
    ensures exists keys, canon :: SortedKeys(Ordered(cs), keys)
              && Consolidates(Partitioned(Ordered(cs), keys, sim, threshold), samples, sim, threshold, canon, r)
  {
    hide Ordered, Partitioned, Medoids, AgreementOf;
    var found := ClusterPartitioned(cs, sim, threshold);
    ghost var keys :| SortedKeys(Ordered(cs), keys) && found == Partitioned(Ordered(cs), keys, sim, threshold);
    PartitionedOpeners(Ordered(cs), keys, sim, threshold);
    var medoids := PickMedoids(found, sim);
    MedoidsMany(found, sim, medoids);
    if found != [] && samples < 1 {
      r := ValueError;
      assert Consolidates(found, samples, sim, threshold, medoids, r);
      return;
    }
    var unstable, twins := FindTwins(medoids, sim, threshold);
    var items: seq<Consolidated> := [];
    for k := 0 to |found|
      invariant |items| == k
      invariant forall i :: 0 <= i < k ==>
                  items[i] == Consolidated(medoids[i], AgreementOf(found[i], samples), unstable[i])
    {
      items := items + [Consolidated(medoids[k], AgreementOf(found[k], samples), unstable[k])];
    }
    r := Consolidation(items, twins);
    assert Consolidates(found, samples, sim, threshold, medoids, r);
  }

  lemma MedoidsMany(clusters: seq<seq<Candidate>>, sim: Similarity<Candidate>, canon: seq<Candidate>)
    requires Medoids(clusters, sim, canon)
    ensures |canon| == |clusters|
  {
  }
}
