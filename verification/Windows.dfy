/**
 The window tiler of src/iknos/core/embeddings.py, and the choice of the window a span is
 pooled from.

 `TilesDocument` is the closed form of a plan. From it: every token is covered, every short
 stretch of tokens lies inside one window (`ShortStretchFits`, and no longer stretch is promised,
 `LongerStretchMayBeCut`), and a span some window covers is pooled from a window that covers it.
 */
module Windows {

  datatype Window = Window(start: int, end: int)

  datatype Plan = Planned(windows: seq<Window>) | OverlapTooLarge

  /** Full-size windows at multiples of the stride, the last one anchored to the end. */
  ghost predicate TilesDocument(ws: seq<Window>, n: int, size: int, overlap: int)
    requires overlap < size < n
  {
    && |ws| >= 2
    && (forall i :: 0 <= i < |ws| - 1 ==> ws[i] == Window(i * (size - overlap), i * (size - overlap) + size))
    && ws[|ws| - 1] == Window(n - size, n)
    && ws[|ws| - 2].end < n <= ws[|ws| - 2].end + (size - overlap)
  }

  method PlanWindows(n: int, size: int, overlap: int) returns (r: Plan)
    ensures r.OverlapTooLarge? <==> n > 0 && n > size && overlap >= size
    ensures n <= 0 ==> r == Planned([])
    ensures 0 < n <= size ==> r == Planned([Window(0, n)])
    ensures n > 0 && n > size > overlap ==> r.Planned? && TilesDocument(r.windows, n, size, overlap)
  {
    if n <= 0 {
      return Planned([]);
    }
    if n <= size {
      return Planned([Window(0, n)]);
    }
    if overlap >= size {
      return OverlapTooLarge;
    }
    var stride := size - overlap;
    var plans: seq<Window>, start := [], 0;
    while start + size < n
      invariant start == |plans| * stride
      invariant forall i :: 0 <= i < |plans| ==> plans[i] == Window(i * stride, i * stride + size)
      invariant |plans| > 0 ==> plans[|plans| - 1].end < n && start == plans[|plans| - 1].start + stride
      decreases n - size - start
    {
      assert (|plans| + 1) * stride == |plans| * stride + stride;
      plans := plans + [Window(start, start + size)];
      start := start + stride;
    }
    plans := plans + [Window(n - size, n)];
    r := Planned(plans);
  }

  lemma {:induction false} TimesGrows(i: nat, j: nat, stride: nat)
    requires i < j && stride > 0
    ensures i * stride + stride <= j * stride
  {
    if j == i + 1 {
      assert j * stride == i * stride + stride;
    } else {
      TimesGrows(i, j - 1, stride);
      assert j * stride == (j - 1) * stride + stride;
    }
  }

  /** Starts rise, by at most the stride: neighbours share at least `overlap` tokens. */
  lemma NeighboursOverlap(ws: seq<Window>, n: int, size: nat, overlap: nat, i: nat)
    requires overlap < size < n && TilesDocument(ws, n, size, overlap) && i + 1 < |ws|
    ensures ws[i].start < ws[i + 1].start && ws[i].end - ws[i + 1].start >= overlap
  {
    if i + 1 < |ws| - 1 {
      assert (i + 1) * (size - overlap) == i * (size - overlap) + (size - overlap);
    }
  }

  /** The first window that reaches as far as `b`. */
  lemma FirstReaching(ws: seq<Window>, n: int, size: nat, overlap: nat, b: int) returns (i: nat)
    requires overlap < size < n && TilesDocument(ws, n, size, overlap) && b <= n
    ensures i < |ws| && b <= ws[i].end && (i > 0 ==> ws[i - 1].end < b)
  {
    i := 0;
    while ws[i].end < b
      invariant i < |ws| && (i > 0 ==> ws[i - 1].end < b)
      decreases |ws| - i
    {
      i := i + 1;
    }
  }

  /** A stretch of at most `overlap` + 1 tokens lies inside one window. */
  lemma ShortStretchFits(ws: seq<Window>, n: int, size: nat, overlap: nat, a: int, b: int) returns (i: nat)
    requires overlap < size < n && TilesDocument(ws, n, size, overlap)
    requires 0 <= a < b <= n && b - a <= overlap + 1
    ensures i < |ws| && ws[i].start <= a && b <= ws[i].end
  {
    i := FirstReaching(ws, n, size, overlap, b);
    if i > 0 {
      NeighboursOverlap(ws, n, size, overlap, i - 1);
    }
  }

  /** So every token is in some window. */
  lemma EveryTokenIsCovered(ws: seq<Window>, n: int, size: nat, overlap: nat, t: int)
    requires overlap < size < n && TilesDocument(ws, n, size, overlap) && 0 <= t < n
    ensures exists i :: 0 <= i < |ws| && ws[i].start <= t < ws[i].end
  {
    var i := ShortStretchFits(ws, n, size, overlap, t, t + 1);
  }

  /** One token more, and a stretch across the first seam fits nowhere. */
  lemma LongerStretchMayBeCut(ws: seq<Window>, n: int, size: nat, overlap: nat)
    requires overlap < size < n && TilesDocument(ws, n, size, overlap) && |ws| >= 3
    ensures var a, b := size - overlap - 1, size + 1;
            0 <= a < b <= n && b - a == overlap + 2
            && forall i :: 0 <= i < |ws| ==> !(ws[i].start <= a && b <= ws[i].end)
  {
    var a, b := size - overlap - 1, size + 1;
    assert ws[0] == Window(0 * (size - overlap), 0 * (size - overlap) + size) == Window(0, size);
    NeighboursOverlap(ws, n, size, overlap, 0);
    assert ws[1] == Window(1 * (size - overlap), 1 * (size - overlap) + size);
    forall i | 1 <= i < |ws|
      ensures ws[i].start > a
    {
      StartsRise(ws, n, size, overlap, 1, i);
    }
  }

  lemma {:induction false} StartsRise(ws: seq<Window>, n: int, size: nat, overlap: nat, i: nat, j: nat)
    requires overlap < size < n && TilesDocument(ws, n, size, overlap) && i <= j < |ws|
    ensures ws[i].start <= ws[j].start
    decreases j
  {
    if i < j {
      StartsRise(ws, n, size, overlap, i, j - 1);
      NeighboursOverlap(ws, n, size, overlap, j - 1);
    }
  }

  // ---------------------------------------------------------------- the window a span is pooled from

  /** An embedded window: where its characters start and end, and its tokens' offsets. A token
      at (0, 0) is a special token. */
  datatype Embedded = Embedded(charStart: int, charEnd: int, offsets: seq<(int, int)>)

  predicate TokenOverlaps(token: (int, int), start: int, end: int) {
    token != (0, 0) && token.0 < end && token.1 > start
  }

  method OverlappingTokenIndices(offsets: seq<(int, int)>, start: int, end: int) returns (out: seq<int>)
    ensures forall i :: i in out <==> 0 <= i < |offsets| && TokenOverlaps(offsets[i], start, end)
    ensures forall i, j :: 0 <= i < j < |out| ==> out[i] < out[j]
  {
    out := [];
    for i := 0 to |offsets|
      invariant forall k :: k in out <==> 0 <= k < i && TokenOverlaps(offsets[k], start, end)
      invariant forall m :: 0 <= m < |out| ==> out[m] < i
      invariant forall k, m :: 0 <= k < m < |out| ==> out[k] < out[m]
    {
      if TokenOverlaps(offsets[i], start, end) {
        out := out + [i];
      }
    }
  }

  predicate Touches(w: Embedded, start: int, end: int) {
    exists i :: 0 <= i < |w.offsets| && TokenOverlaps(w.offsets[i], start, end)
  }

  /** How far the span sits from the nearer edge; negative if it sticks out. */
  function Interior(w: Embedded, start: int, end: int): int {
    if start - w.charStart <= w.charEnd - end then start - w.charStart else w.charEnd - end
  }

  predicate CoversSpan(w: Embedded, start: int, end: int) {
    w.charStart <= start && end <= w.charEnd
  }

  /** The first window, among those with tokens of the span, where the span is most interior. */
  method PoolSpan(windows: seq<Embedded>, start: int, end: int) returns (best: int, tokens: seq<int>)
    ensures best == -1 <==> forall i :: 0 <= i < |windows| ==> !Touches(windows[i], start, end)
    ensures best != -1 ==>
              && 0 <= best < |windows| && Touches(windows[best], start, end)
              && (forall i :: 0 <= i < |windows| && Touches(windows[i], start, end) ==>
                    Interior(windows[i], start, end) <= Interior(windows[best], start, end))
              && (forall i :: 0 <= i < best && Touches(windows[i], start, end) ==>
                    Interior(windows[i], start, end) < Interior(windows[best], start, end))
              && (forall i :: i in tokens <==>
                    0 <= i < |windows[best].offsets| && TokenOverlaps(windows[best].offsets[i], start, end))
  {
    best, tokens := -1, [];
    for k := 0 to |windows|
      invariant -1 <= best < k
      invariant best == -1 ==> forall i :: 0 <= i < k ==> !Touches(windows[i], start, end)
      invariant best != -1 ==>
                  && Touches(windows[best], start, end)
                  && (forall i :: 0 <= i < k && Touches(windows[i], start, end) ==>
                        Interior(windows[i], start, end) <= Interior(windows[best], start, end))
                  && (forall i :: 0 <= i < best && Touches(windows[i], start, end) ==>
                        Interior(windows[i], start, end) < Interior(windows[best], start, end))
                  && (forall i :: i in tokens <==>
                        0 <= i < |windows[best].offsets| && TokenOverlaps(windows[best].offsets[i], start, end))
    {
      var idx := OverlappingTokenIndices(windows[k].offsets, start, end);
      assert idx != [] <==> Touches(windows[k], start, end) by {
        if idx != [] {
          assert idx[0] in idx;
        }
      }
      if idx != [] {
        if best == -1 || Interior(windows[k], start, end) > Interior(windows[best], start, end) {
          best, tokens := k, idx;
        }
      }
    }
  }

  /** If some window with tokens of the span covers it, the span is pooled from one that does. */
  lemma CoveringWindowIsChosen(windows: seq<Embedded>, start: int, end: int, best: int, i: nat)
    requires 0 <= best < |windows| && i < |windows|
    requires Touches(windows[i], start, end) && CoversSpan(windows[i], start, end)
    requires forall k :: 0 <= k < |windows| && Touches(windows[k], start, end) ==>
               Interior(windows[k], start, end) <= Interior(windows[best], start, end)
    ensures CoversSpan(windows[best], start, end)
  {
    assert Interior(windows[i], start, end) >= 0;
  }

  /** Interior by `m` means that the window still covers the span with `m` characters cut off either end. */
  lemma InteriorExactly(w: Embedded, start: int, end: int, m: int)
    ensures m <= Interior(w, start, end) <==> w.charStart + m <= start && end <= w.charEnd - m
  {
  }

  ghost predicate Within(at: int, start: int, end: int) {
    start <= at < end
  }

  /** A token is pooled exactly when one of its characters is in the span; a special one never is. */
  lemma PooledExactlyWhen(token: (int, int), start: int, end: int)
    requires 0 <= start < end && token.0 <= token.1
    ensures token.0 < token.1 ==>
              (TokenOverlaps(token, start, end) <==> exists at :: Within(at, start, end) && Within(at, token.0, token.1))
    ensures token == (0, 0) ==> !TokenOverlaps(token, start, end)
  {
    if token.0 < token.1 && TokenOverlaps(token, start, end) {
      var at := if token.0 > start then token.0 else start;
      assert Within(at, start, end) && Within(at, token.0, token.1);
    }
  }
}
