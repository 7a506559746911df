/** Facts about finite sets and sequences that several modules share. */
module Sets {

  function SeqToSet<T(==)>(s: seq<T>): set<T> {
    set x | x in s
  }

  ghost predicate Distinct<T(!new)>(s: seq<T>) {
    forall i, j :: 0 <= i < j < |s| ==> s[i] != s[j]
  }

  lemma DistinctAppend<T(!new)>(s: seq<T>, x: T)
    requires Distinct(s) && x !in s
    ensures Distinct(s + [x])
  {
  }

  lemma TakeMore<T>(s: seq<T>, i: nat)
    requires i < |s|
    ensures s[..i + 1] == s[..i] + [s[i]] && s[..|s|] == s
  {
  }

  lemma LastOfBoth<T>(s: seq<T>, t: seq<T>)
    requires t != []
    ensures s + t != [] && (s + t)[|s + t| - 1] == t[|t| - 1] && (s + t)[..|s + t| - 1] == s + t[..|t| - 1]
  {
  }

  lemma {:induction false} SubsetCardinality<T>(a: set<T>, b: set<T>)
    requires a <= b
    ensures |a| <= |b|
    ensures |a| == |b| ==> a == b
  {
    if a != {} {
      var x :| x in a;
      SubsetCardinality(a - {x}, b - {x});
    }
  }

  lemma {:induction false} DistinctCardinality<T(!new)>(s: seq<T>)
    requires Distinct(s)
    ensures |SeqToSet(s)| == |s|
  {
    if s != [] {
      var n := |s| - 1;
      DistinctCardinality(s[..n]);
      assert s == s[..n] + [s[n]];
      assert SeqToSet(s) == SeqToSet(s[..n]) + {s[n]};
      assert s[n] !in SeqToSet(s[..n]);
    }
  }

  /** Pigeonhole: a sequence longer than the set it draws from repeats itself. */
  lemma Pigeonhole<T(!new)>(s: seq<T>, pool: set<T>) returns (i: nat, j: nat)
    requires forall k :: 0 <= k < |s| ==> s[k] in pool
    requires |s| > |pool|
    ensures i < j < |s| && s[i] == s[j]
  {
    if Distinct(s) {
      DistinctCardinality(s);
      SubsetCardinality(SeqToSet(s), pool);
      assert false;
    } else {
      i, j :| 0 <= i < j < |s| && s[i] == s[j];
    }
  }

  /** Two sets linked by an injective map in each direction have the same size. */
  lemma {:induction false} BijectionCardinality<A, B>(f: map<A, B>)
    requires forall a, a' :: a in f && a' in f && f[a] == f[a'] ==> a == a'
    ensures |f.Keys| == |f.Values|
  {
    if f.Keys != {} {
      var a :| a in f;
      var g := f - {a};
      BijectionCardinality(g);
      assert f.Keys == g.Keys + {a};
      assert f.Values == g.Values + {f[a]} by {
        forall b | b in f.Values ensures b in g.Values + {f[a]} {
          var c :| c in f && f[c] == b;
          assert c == a || (c in g && g[c] == b);
        }
      }
      assert f[a] !in g.Values;
    } else {
      assert f.Values == {};
    }
  }

  /** Where the last element of one ordering sits in another. */
  lemma FindLast<T>(s: seq<T>, front: seq<T>, last: T) returns (a: seq<T>, b: seq<T>)
    requires multiset(s) == multiset(front + [last])
    ensures s == a + [last] + b && multiset(a + b) == multiset(front)
  {
    assert last in multiset(front + [last]);
    assert last in s;
    var i :| 0 <= i < |s| && s[i] == last;
    a, b := s[..i], s[i + 1..];
    assert s == a + [last] + b;
    assert multiset(s) == multiset(a) + multiset{last} + multiset(b);
    assert multiset(front + [last]) == multiset(front) + multiset{last};
    assert multiset(a + b) == multiset(s) - multiset{last} == multiset(front);
  }

  /** One element can be put last. */
  lemma PutLast<T>(s: seq<T>, x: T) returns (rest: seq<T>)
    requires x in s
    ensures multiset(rest + [x]) == multiset(s) && |rest| + 1 == |s|
  {
    var i :| 0 <= i < |s| && s[i] == x;
    rest := s[..i] + s[i + 1..];
    assert s == s[..i] + [x] + s[i + 1..];
  }

  /** Two elements can be put last, either way round. */
  lemma PutBothLast<T>(s: seq<T>, x: T, y: T) returns (rest: seq<T>)
    requires x in s && y in s && x != y
    ensures multiset(rest + [x] + [y]) == multiset(s) && multiset(rest + [y] + [x]) == multiset(s)
    ensures |rest| + 2 == |s|
  {
    var front := PutLast(s, y);
    assert x in multiset(front + [y]);
    rest := PutLast(front, x);
    assert multiset(rest + [x] + [y]) == multiset(rest + [x]) + multiset{y} == multiset(front) + multiset{y};
  }
}
