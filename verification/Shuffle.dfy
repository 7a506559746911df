/**
 The presentation orders of src/iknos/core/edge_judge.py: which shuffles its digest stream can
 produce. `EveryOrderCanCome` is the answer, all of them, for as many items as a four-byte word
 can index; the shuffle favours no order by leaving one out.
 */
module Shuffle {
  import opened EdgeJudge

  const WORDS := 0x1_0000_0000

  // ---------------------------------------------------------------- words and bytes

  /** Byte `b` of a word, the most significant one first. */
  function ByteOf(w: nat, b: nat): Byte
    requires b < 4
  {
    if b == 0 then w / 256 / 256 / 256 % 256
    else if b == 1 then w / 256 / 256 % 256
    else if b == 2 then w / 256 % 256
    else w % 256
  }

  /** Four bytes are read with the most significant one first. */
  lemma ReadsItsBytes(w: nat)
    requires w < WORDS
    ensures BigEndian([ByteOf(w, 0), ByteOf(w, 1), ByteOf(w, 2), ByteOf(w, 3)]) == w
  {
    var x := w / 256;
    var y := x / 256;
    var z := y / 256;
    assert w == 256 * x + w % 256 && x == 256 * y + x % 256 && y == 256 * z + y % 256;
    assert z < 256 && z % 256 == z;
  }

  function WordOrZero(words: seq<nat>, n: nat): nat {
    if n < |words| then words[n] else 0
  }

  /** A stream of digests that spells these words. */
  function Spelling(words: seq<nat>): Digests {
    (k: nat) => seq(DIGEST_BYTES, b requires 0 <= b < DIGEST_BYTES => ByteOf(WordOrZero(words, 8 * k + b / 4), b % 4))
  }

  lemma SpellsDigests(words: seq<nat>)
    ensures FullDigests(Spelling(words))
  {
  }

  lemma SpellsItsWords(words: seq<nat>, n: nat)
    requires n < |words| && words[n] < WORDS
    ensures FullDigests(Spelling(words)) && WordAt(Spelling(words), n) == words[n]
  {
    var digest, at := Spelling(words)(n / 8), 4 * (n % 8);
    var bytes := digest[at..at + 4];
    forall b | 0 <= b < 4
      ensures bytes[b] == ByteOf(words[n], b)
    {
      Place(n, b);
      assert bytes[b] == digest[at + b];
    }
    assert bytes == [ByteOf(words[n], 0), ByteOf(words[n], 1), ByteOf(words[n], 2), ByteOf(words[n], 3)];
    hide ByteOf;
    ReadsItsBytes(words[n]);
  }

  lemma Place(n: nat, b: nat)
    requires b < 4
    ensures 0 <= 4 * (n % 8) + b < DIGEST_BYTES
    ensures 8 * (n / 8) + (4 * (n % 8) + b) / 4 == n && (4 * (n % 8) + b) % 4 == b
  {
  }

  // ---------------------------------------------------------------- the shuffle by words

  /** The shuffle when it reads these words. */
  ghost function ShuffledBy(count: nat, words: seq<nat>): (s: seq<int>)
    requires |words| < count
    ensures |s| == count
  {
    if words == [] then seq(count, i => i)
    else
      var n := |words| - 1;
      var i := count - |words|;
      Swapped(ShuffledBy(count, words[..n]), i, words[n] % (i + 1))
  }

  lemma {:induction false} ReadsTheWords(count: nat, digest: Digests, words: seq<nat>)
    requires FullDigests(digest) && |words| < count && forall n :: 0 <= n < |words| ==> WordAt(digest, n) == words[n]
    ensures Shuffled(count, digest, |words|) == ShuffledBy(count, words)
  {
    hide WordAt;
    if words != [] {
      ReadsTheWords(count, digest, words[..|words| - 1]);
    }
  }

  /** The order agrees with the target from position `from` on. */
  ghost predicate AgreesFrom(order: seq<int>, target: seq<int>, from: nat) {
    |order| == |target| && forall i :: from <= i < |target| ==> order[i] == target[i]
  }

  /** Each step can put the right item in its place, since it is still among those not placed. */
  lemma {:induction false} WordsFor(count: nat, target: seq<int>, n: nat) returns (words: seq<nat>)
    requires IsPermutation(target, count) && n < count
    ensures |words| == n && forall k :: 0 <= k < n ==> words[k] < count
    ensures IsPermutation(ShuffledBy(count, words), count) && AgreesFrom(ShuffledBy(count, words), target, count - n)
  {
    hide *;
    SizeOf(target, count);
    if n == 0 {
      words := [];
      NoWords(count, target);
    } else {
      var front := WordsFor(count, target, n - 1);
      var s, i := ShuffledBy(count, front), count - n;
      var j := StillToPlace(s, target, count, i);
      words := front + [j];
      OneMoreWord(count, front, j);
      SwapKeepsPermutation(s, count, i, j);
      SwapPlaces(s, target, i, j);
    }
  }

  lemma NoWords(count: nat, target: seq<int>)
    requires 0 < count == |target|
    ensures IsPermutation(ShuffledBy(count, []), count) && AgreesFrom(ShuffledBy(count, []), target, count)
  {
    StartsInOrder(ShuffledBy(count, []), count);
  }

  lemma OneMoreWord(count: nat, words: seq<nat>, j: nat)
    requires |words| + 1 < count && j < count - |words|
    ensures ShuffledBy(count, words + [j]) == Swapped(ShuffledBy(count, words), count - |words| - 1, j)
  {
    assert (words + [j])[..|words|] == words;
    SmallRemainder(j, count - |words|);
  }

  lemma SmallRemainder(j: nat, m: nat)
    requires j < m
    ensures j % m == j
  {
  }

  lemma SwapPlaces(s: seq<int>, target: seq<int>, i: nat, j: nat)
    requires j <= i < |target| && AgreesFrom(s, target, i + 1) && s[j] == target[i]
    ensures AgreesFrom(Swapped(s, i, j), target, i)
  {
  }

  lemma SizeOf(order: seq<int>, count: nat)
    requires IsPermutation(order, count)
    ensures |order| == count
  {
  }

  lemma {:induction false} StillToPlace(s: seq<int>, target: seq<int>, count: nat, i: nat) returns (j: nat)
    requires IsPermutation(s, count) && IsPermutation(target, count) && AgreesFrom(s, target, i + 1) && i < count
    ensures |s| == |target| == count && j <= i && s[j] == target[i]
  {
    j := PlaceOf(s, target, count, i);
    hide *;
    SizeOf(s, count);
    SizeOf(target, count);
    NotPlacedYet(s, target, count, i, j);
  }

  lemma NotPlacedYet(s: seq<int>, target: seq<int>, count: nat, i: nat, j: nat)
    requires |s| == |target| == count && IsPermutation(target, count) && AgreesFrom(s, target, i + 1)
    requires i < count && j < count && s[j] == target[i]
    ensures j <= i
  {
    hide IsPermutation, AgreesFrom;
    AgreesMeans(s, target, i + 1);
    NoneTwice(target, count);
  }

  lemma AgreesMeans(s: seq<int>, target: seq<int>, from: nat)
    requires AgreesFrom(s, target, from)
    ensures |s| == |target| && forall k :: from <= k < |target| ==> s[k] == target[k]
  {
  }

  lemma NoneTwice(order: seq<int>, count: nat)
    requires IsPermutation(order, count)
    ensures |order| == count && forall i, j :: 0 <= i < j < count ==> order[i] != order[j]
  {
  }

  lemma PlaceOf(s: seq<int>, target: seq<int>, count: nat, i: nat) returns (j: nat)
    requires IsPermutation(s, count) && IsPermutation(target, count) && i < count
    ensures j < |s| == |target| == count && s[j] == target[i]
  {
    assert target[i] in target;
    assert 0 <= target[i] < count;
    j := PlaceOfItem(s, count, target[i]);
  }

  lemma PlaceOfItem(s: seq<int>, count: nat, x: int) returns (j: nat)
    requires IsPermutation(s, count) && 0 <= x < count
    ensures j < |s| == count && s[j] == x
  {
    assert x in s;
    j :| 0 <= j < |s| && s[j] == x;
  }

  /** Two permutations that agree from one on agree throughout. */
  lemma FirstFollows(s: seq<int>, target: seq<int>, count: nat)
    requires IsPermutation(s, count) && IsPermutation(target, count) && AgreesFrom(s, target, 1)
    ensures s == target
  {
    if count > 0 {
      var j := StillToPlace(s, target, count, 0);
    }
  }

  /** Some digest stream presents the items in any given order. */
  lemma EveryOrderCanCome(count: nat, target: seq<int>) returns (digest: Digests)
    requires 2 <= count <= WORDS && IsPermutation(target, count)
    ensures FullDigests(digest) && Shuffled(count, digest, count - 1) == target
  {
    hide *;
    var words := WordsFor(count, target, count - 1);
    digest := Spelling(words);
    SpellsDigests(words);
    forall n | 0 <= n < |words|
      ensures WordAt(digest, n) == words[n]
    {
      SpellsItsWords(words, n);
    }
    ReadsTheWords(count, digest, words);
    FirstFollows(ShuffledBy(count, words), target, count);
  }
}
