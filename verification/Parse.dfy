/**
 The parse contract of src/iknos/core/parse.py: the reading-order text is the elements joined by
 a separator, and every character offset is derived from that join.

 `RoundTrip` and `NothingReadIsLost` are the trust boundary: a result's own text and ranges
 rebuild it, and an accepted parse keeps the blob's non-whitespace characters, all of them and
 in order. `CellKeepsItsText` carries table cells into document coordinates.
 */
module Parse {
  import opened DerivationAdapter

  const JOIN := "\n\n"

  datatype ParseKind = Paragraph | Heading | ListItem | TableKind | Figure | Other

  datatype Position = Position(row: int, col: int)

  datatype Cell = Cell(row: int, col: int, start: int, end: int, rowSpan: int, colSpan: int, bbox: Option<int>) {
    predicate Valid() {
      0 <= start < end && row >= 0 && col >= 0 && rowSpan >= 1 && colSpan >= 1
    }

    predicate Claims(p: Position) {
      row <= p.row < row + rowSpan && col <= p.col < col + colSpan
    }
  }

  datatype Table = Table(nRows: int, nCols: int, cells: seq<Cell>)

  /** Page geometry; boxes and frames are opaque. */
  datatype Geometry =
    Geometry(page: Option<int>, bbox: Option<int>, origin: Option<int>, pageSize: Option<int>, unit: Option<int>) {
    predicate HasRegion() {
      page.Some? && bbox.Some?
    }

    /** A region is complete or absent. */
    predicate Valid() {
      && (page.Some? <==> bbox.Some?)
      && (bbox.Some? ==> origin.Some? && pageSize.Some? && unit.Some?)
    }
  }

  datatype Element =
    Element(kind: ParseKind, text: string, geometry: Geometry, quality: Option<int>, table: Option<Table>) {
    /** What construction checks, apart from the table's own grid. */
    predicate Valid() {
      && text != "" && geometry.Valid()
      && (table.Some? ==>
            kind == TableKind
            && forall i :: 0 <= i < |table.value.cells| ==>
                 table.value.cells[i].end <= |text| && (table.value.cells[i].bbox.Some? ==> geometry.HasRegion()))
    }
  }

  // ---------------------------------------------------------------- tables

  /** Every cell lies in the grid, and no position is claimed twice. */
  ghost predicate GridFits(t: Table) {
    && t.nRows >= 1 && t.nCols >= 1
    && (forall i :: 0 <= i < |t.cells| ==>
          t.cells[i].row + t.cells[i].rowSpan <= t.nRows && t.cells[i].col + t.cells[i].colSpan <= t.nCols)
    && (forall i, j, p :: 0 <= i < j < |t.cells| && t.cells[i].Claims(p) ==> !t.cells[j].Claims(p))
  }

  /** The two cells lie apart: one ends above the other begins, or left of it. */
  ghost predicate Apart(a: Cell, b: Cell) {
    a.row + a.rowSpan <= b.row || b.row + b.rowSpan <= a.row || a.col + a.colSpan <= b.col || b.col + b.colSpan <= a.col
  }

  lemma ApartExactly(a: Cell, b: Cell)
    requires a.Valid() && b.Valid()
    ensures Apart(a, b) <==> forall p :: a.Claims(p) ==> !b.Claims(p)
  {
    if !Apart(a, b) {
      var p := Position(if a.row >= b.row then a.row else b.row, if a.col >= b.col then a.col else b.col);
      assert a.Claims(p) && b.Claims(p);
    }
  }

  /** A grid fits exactly when its cells are rectangles inside it that lie apart from one another. */
  lemma GridFitsExactly(t: Table)
    requires forall i :: 0 <= i < |t.cells| ==> t.cells[i].Valid()
    ensures GridFits(t)
       <==> t.nRows >= 1 && t.nCols >= 1
            && (forall i :: 0 <= i < |t.cells| ==>
                  t.cells[i].row + t.cells[i].rowSpan <= t.nRows && t.cells[i].col + t.cells[i].colSpan <= t.nCols)
            && forall i, j :: 0 <= i < j < |t.cells| ==> Apart(t.cells[i], t.cells[j])
  {
    forall i, j | 0 <= i < j < |t.cells|
      ensures Apart(t.cells[i], t.cells[j]) <==> forall p :: t.cells[i].Claims(p) ==> !t.cells[j].Claims(p)
    {
      ApartExactly(t.cells[i], t.cells[j]);
    }
    hide Apart;
  }

  method CheckGrid(t: Table) returns (ok: bool)
    requires forall i :: 0 <= i < |t.cells| ==> t.cells[i].Valid()
    ensures ok <==> GridFits(t)
  {
    if t.nRows < 1 || t.nCols < 1 {
      return false;
    }
    var occupied: set<Position> := {};
    for i := 0 to |t.cells|
      invariant forall k :: 0 <= k < i ==>
                  t.cells[k].row + t.cells[k].rowSpan <= t.nRows && t.cells[k].col + t.cells[k].colSpan <= t.nCols
      invariant forall p :: p in occupied <==> exists k :: 0 <= k < i && t.cells[k].Claims(p)
      invariant forall k, j, p :: 0 <= k < j < i && t.cells[k].Claims(p) ==> !t.cells[j].Claims(p)
    {
      var cell := t.cells[i];
      if cell.row + cell.rowSpan > t.nRows || cell.col + cell.colSpan > t.nCols {
        return false;
      }
      var free, more := ClaimPositions(cell, occupied);
      if !free {
        ghost var p :| cell.Claims(p) && p in occupied;
        ghost var k :| 0 <= k < i && t.cells[k].Claims(p);
        return false;
      }
      forall k, p | 0 <= k < i && t.cells[k].Claims(p)
        ensures !cell.Claims(p)
      {
        assert p in occupied;
      }
      occupied := more;
    }
    ok := true;
  }

  method ClaimPositions(cell: Cell, occupied: set<Position>) returns (free: bool, more: set<Position>)
    ensures free <==> forall p :: cell.Claims(p) ==> p !in occupied
    ensures free ==> forall p :: p in more <==> p in occupied || cell.Claims(p)
  {
    more := occupied;
    var r := cell.row;
    while r < cell.row + cell.rowSpan
      invariant cell.row <= r && (r <= cell.row + cell.rowSpan || r == cell.row)
      invariant forall p :: p in more <==> p in occupied || (cell.Claims(p) && p.row < r)
      invariant forall p :: cell.Claims(p) && p.row < r ==> p !in occupied
    {
      var c := cell.col;
      while c < cell.col + cell.colSpan
        invariant cell.col <= c && (c <= cell.col + cell.colSpan || c == cell.col)
        invariant forall p :: p in more <==>
                    p in occupied || (cell.Claims(p) && (p.row < r || (p.row == r && p.col < c)))
        invariant forall p :: cell.Claims(p) && (p.row < r || (p.row == r && p.col < c)) ==> p !in occupied
      {
        if Position(r, c) in more {
          assert cell.Claims(Position(r, c));
          return false, more;
        }
        more := more + {Position(r, c)};
        c := c + 1;
      }
      r := r + 1;
    }
    free := true;
  }

  // ---------------------------------------------------------------- the reading-order text

  function TextOf(es: seq<Element>): string {
    if es == [] then ""
    else if |es| == 1 then es[0].text
    else TextOf(es[..|es| - 1]) + JOIN + es[|es| - 1].text
  }

  datatype Range = Range(start: int, end: int)

  /** Where the next element starts, after these. */
  function NextStart(es: seq<Element>): nat {
    if es == [] then 0 else |TextOf(es)| + |JOIN|
  }

  function RangesOf(es: seq<Element>): (rs: seq<Range>)
    ensures |rs| == |es|
  {
    if es == [] then []
    else
      var front, last := es[..|es| - 1], es[|es| - 1];
      RangesOf(front) + [Range(NextStart(front), NextStart(front) + |last.text|)]
  }

  lemma TextGrows(es: seq<Element>)
    requires es != []
    ensures var front, last := es[..|es| - 1], es[|es| - 1];
            TextOf(es) == (if front == [] then "" else TextOf(front) + JOIN) + last.text
            && |TextOf(es)| == NextStart(front) + |last.text|
  {
  }

  method CharRanges(es: seq<Element>) returns (ranges: seq<Range>)
    ensures ranges == RangesOf(es)
  {
    ranges := [];
    var cursor := 0;
    for i := 0 to |es|
      invariant ranges == RangesOf(es[..i]) && cursor == |TextOf(es[..i])|
    {
      assert es[..i + 1][..i] == es[..i];
      TextGrows(es[..i + 1]);
      if i > 0 {
        cursor := cursor + |JOIN|;
      }
      ranges := ranges + [Range(cursor, cursor + |es[i].text|)];
      cursor := cursor + |es[i].text|;
    }
    assert es[..|es|] == es;
  }

  /** Each range slices out its element, and lies within the text. */
  lemma {:induction false} RangeSlicesElement(es: seq<Element>, i: nat)
    requires i < |es|
    ensures 0 <= RangesOf(es)[i].start <= RangesOf(es)[i].end <= |TextOf(es)|
    ensures TextOf(es)[RangesOf(es)[i].start..RangesOf(es)[i].end] == es[i].text
  {
    var front, last := es[..|es| - 1], es[|es| - 1];
    TextGrows(es);
    if i < |front| {
      RangeSlicesElement(front, i);
      assert TextOf(es)[..|TextOf(front)|] == TextOf(front);
      var r := RangesOf(front)[i];
      assert TextOf(es)[r.start..r.end] == TextOf(es)[..|TextOf(front)|][r.start..r.end];
    }
  }

  /** The ranges start at zero, leave two characters between one another, and end with the text. */
  lemma {:induction false} RangesTile(es: seq<Element>)
    requires es != []
    ensures RangesOf(es)[0].start == 0 && RangesOf(es)[|es| - 1].end == |TextOf(es)|
    ensures forall i :: 0 < i < |es| ==> RangesOf(es)[i].start == RangesOf(es)[i - 1].end + 2
  {
    TextGrows(es);
    if |es| > 1 {
      RangesTile(es[..|es| - 1]);
    }
  }

  /** A table cell, rebased to the document, slices out the text it had in its element. */
  lemma CellKeepsItsText(es: seq<Element>, i: nat, cell: Cell)
    requires i < |es| && 0 <= cell.start < cell.end <= |es[i].text|
    ensures var base := RangesOf(es)[i].start;
            0 <= base + cell.start < base + cell.end <= |TextOf(es)|
            && TextOf(es)[base + cell.start..base + cell.end] == es[i].text[cell.start..cell.end]
  {
    hide TextOf, RangesOf;
    RangeSlicesElement(es, i);
    assert |es[i].text| == RangesOf(es)[i].end - RangesOf(es)[i].start;
    SliceOfSlice(TextOf(es), RangesOf(es)[i].start, RangesOf(es)[i].end, cell.start, cell.end);
  }

  lemma SliceOfSlice(s: string, a: int, b: int, c: int, d: int)
    requires 0 <= a <= b <= |s| && 0 <= c <= d <= b - a
    ensures s[a..b][c..d] == s[a + c..a + d]
  {
    forall k | 0 <= k < d - c
      ensures s[a..b][c..d][k] == s[a + c..a + d][k]
    {
    }
  }

  // ---------------------------------------------------------------- a parser's blob and offsets

  /** Unicode white space, as string stripping understands it. */
  predicate IsSpace(c: char) {
    var k := c as int;
    9 <= k <= 13 || 28 <= k <= 32 || k == 0x85 || k == 0xA0 || k == 0x1680 || 0x2000 <= k <= 0x200A
    || k == 0x2028 || k == 0x2029 || k == 0x202F || k == 0x205F || k == 0x3000
  }

  predicate Blank(s: string) {
    forall i :: 0 <= i < |s| ==> IsSpace(s[i])
  }

  datatype OffsetSpec =
    OffsetSpec(kind: ParseKind, start: int, end: int, geometry: Geometry, quality: Option<int>, table: Option<Table>)

  function Slice(text: string, spec: OffsetSpec): Element
    requires 0 <= spec.start < spec.end <= |text|
  {
    Element(spec.kind, text[spec.start..spec.end], spec.geometry, spec.quality, spec.table)
  }

  function PreviousEnd(specs: seq<OffsetSpec>, i: nat): int
    requires i <= |specs|
  {
    if i == 0 then 0 else specs[i - 1].end
  }

  /** One spec passes: inside the text, not empty, after its predecessor, with nothing but white
      space skipped, and a well-formed element. */
  predicate SpecPasses(text: string, specs: seq<OffsetSpec>, i: nat)
    requires i < |specs|
  {
    var spec, cursor := specs[i], PreviousEnd(specs, i);
    0 <= spec.start < spec.end <= |text| && 0 <= cursor <= spec.start
    && Blank(text[cursor..spec.start]) && Slice(text, spec).Valid()
  }

  ghost predicate Accepted(text: string, specs: seq<OffsetSpec>) {
    && (forall i :: 0 <= i < |specs| ==> SpecPasses(text, specs, i))
    && 0 <= PreviousEnd(specs, |specs|) <= |text| && Blank(text[PreviousEnd(specs, |specs|)..])
  }

  function Slices(text: string, specs: seq<OffsetSpec>): (es: seq<Element>)
    requires forall i :: 0 <= i < |specs| ==> SpecPasses(text, specs, i)
  {
    seq(|specs|, i requires 0 <= i < |specs| => assert SpecPasses(text, specs, i); Slice(text, specs[i]))
  }

  datatype Result = Parsed(elements: seq<Element>) | ValueError

  lemma SpecPassesMeans(text: string, specs: seq<OffsetSpec>, i: nat)
    requires i < |specs| && 0 <= PreviousEnd(specs, i) <= |text|
    ensures SpecPasses(text, specs, i) <==>
              0 <= specs[i].start < specs[i].end <= |text| && PreviousEnd(specs, i) <= specs[i].start
              && Blank(text[PreviousEnd(specs, i)..specs[i].start]) && Slice(text, specs[i]).Valid()
  {
  }

  lemma AcceptedMeans(text: string, specs: seq<OffsetSpec>)
    ensures Accepted(text, specs) ==> forall i :: 0 <= i < |specs| ==> SpecPasses(text, specs, i)
    ensures (forall i :: 0 <= i < |specs| ==> SpecPasses(text, specs, i)) && 0 <= PreviousEnd(specs, |specs|) <= |text| ==>
              (Accepted(text, specs) <==> Blank(text[PreviousEnd(specs, |specs|)..]))
    ensures PreviousEnd(specs, 0) == 0 && forall i :: 0 <= i < |specs| ==> PreviousEnd(specs, i + 1) == specs[i].end
  {
    hide SpecPasses, Blank;
  }

  lemma SlicesAre(text: string, specs: seq<OffsetSpec>, es: seq<Element>)
    requires forall i :: 0 <= i < |specs| ==> SpecPasses(text, specs, i)
    requires |es| == |specs|
    requires forall i :: 0 <= i < |specs| ==> SpecPasses(text, specs, i) && es[i] == Slice(text, specs[i])
    ensures es == Slices(text, specs)
  {
  }

  /** The first specs pass, and these are their elements. */
  ghost predicate Sliced(text: string, specs: seq<OffsetSpec>, es: seq<Element>) {
    |es| <= |specs| && forall k :: 0 <= k < |es| ==> SpecPasses(text, specs, k) && es[k] == Slice(text, specs[k])
  }

  lemma SlicedMore(text: string, specs: seq<OffsetSpec>, es: seq<Element>)
    requires Sliced(text, specs, es) && |es| < |specs| && SpecPasses(text, specs, |es|)
    ensures 0 <= specs[|es|].start < specs[|es|].end <= |text| && Sliced(text, specs, es + [Slice(text, specs[|es|])])
  {
    assert SpecPasses(text, specs, |es|) ==> 0 <= specs[|es|].start < specs[|es|].end <= |text|;
    hide SpecPasses, Slice;
  }

  lemma SlicedAll(text: string, specs: seq<OffsetSpec>, es: seq<Element>)
    requires Sliced(text, specs, es) && |es| == |specs|
    ensures (forall i :: 0 <= i < |specs| ==> SpecPasses(text, specs, i)) && es == Slices(text, specs)
  {
    SlicesAre(text, specs, es);
    hide SpecPasses, Slice, Slices;
  }

  /** Slices the elements out of the parser's text. Table grids are checked where tables are built. */
  method FromOffsets(text: string, specs: seq<OffsetSpec>) returns (r: Result)
    ensures r.Parsed? <==> Accepted(text, specs)
    ensures r.Parsed? ==> r.elements == Slices(text, specs)
  {
    assert Sliced(text, specs, []);
    hide *;
    AcceptedMeans(text, specs);
    var elements: seq<Element>, cursor := [], 0;
    for i := 0 to |specs|
      invariant cursor == PreviousEnd(specs, i) && 0 <= cursor <= |text|
      invariant |elements| == i && Sliced(text, specs, elements)
    {
      var spec := specs[i];
      SpecPassesMeans(text, specs, i);
      if !(0 <= spec.start < spec.end <= |text|) || spec.start < cursor || !Blank(text[cursor..spec.start])
         || !Slice(text, spec).Valid()
      {
        return ValueError;
      }
      SlicedMore(text, specs, elements);
      elements := elements + [Slice(text, spec)];
      cursor := spec.end;
    }
    SlicedAll(text, specs, elements);
    if !Blank(text[cursor..]) {
      return ValueError;
    }
    r := Parsed(elements);
  }

  /** The specs a result would hand to the parser's side: its own ranges. */
  function OwnSpecs(es: seq<Element>): seq<OffsetSpec> {
    seq(|es|, i requires 0 <= i < |es| =>
      OffsetSpec(es[i].kind, RangesOf(es)[i].start, RangesOf(es)[i].end, es[i].geometry, es[i].quality, es[i].table))
  }

  lemma OwnSpec(es: seq<Element>, i: nat)
    requires i < |es|
    ensures OwnSpecs(es)[i] == OffsetSpec(es[i].kind, RangesOf(es)[i].start, RangesOf(es)[i].end, es[i].geometry,
                                          es[i].quality, es[i].table)
  {
  }

  lemma OwnSpecPasses(es: seq<Element>, i: nat)
    requires i < |es| && es[i].Valid()
    ensures SpecPasses(TextOf(es), OwnSpecs(es), i) && Slice(TextOf(es), OwnSpecs(es)[i]) == es[i]
  {
    hide TextOf, RangesOf, Blank, OwnSpecs;
    OwnSpec(es, i);
    RangeSlicesElement(es, i);
    var r := RangesOf(es)[i];
    assert r.end > r.start by {
      assert TextOf(es)[r.start..r.end] == es[i].text;
    }
    if i > 0 {
      OwnSpec(es, i - 1);
      SeparatorIsBetween(es, i);
    } else {
      RangesTile(es);
      NothingIsBlank();
      assert TextOf(es)[0..0] == "";
    }
  }

  lemma NothingIsBlank()
    ensures Blank("")
  {
  }

  lemma OwnSpecsEnd(es: seq<Element>)
    ensures PreviousEnd(OwnSpecs(es), |es|) == |TextOf(es)|
  {
    if es != [] {
      RangesTile(es);
      OwnSpec(es, |es| - 1);
    }
    hide RangesOf, OwnSpecs;
  }

  lemma AcceptedAtEnd(text: string, specs: seq<OffsetSpec>)
    requires (forall i :: 0 <= i < |specs| ==> SpecPasses(text, specs, i)) && PreviousEnd(specs, |specs|) == |text|
    ensures Accepted(text, specs)
  {
    NothingIsBlank();
    assert text[|text|..] == "";
    hide SpecPasses, Blank;
  }

  /** A result's own text and ranges are accepted and rebuild the same elements. */
  lemma RoundTrip(es: seq<Element>)
    requires forall i :: 0 <= i < |es| ==> es[i].Valid()
    ensures Accepted(TextOf(es), OwnSpecs(es)) && Slices(TextOf(es), OwnSpecs(es)) == es
  {
    var text, specs := TextOf(es), OwnSpecs(es);
    assert |specs| == |es|;
    hide TextOf, Blank, SpecPasses, Slice, OwnSpecs, PreviousEnd, Accepted, Slices;
    forall i | 0 <= i < |es|
      ensures SpecPasses(text, specs, i) && Slice(text, specs[i]) == es[i]
    {
      OwnSpecPasses(es, i);
    }
    OwnSpecsEnd(es);
    AcceptedAtEnd(text, specs);
    SlicesAre(text, specs, es);
  }

  /** Between two ranges stands an empty line. */
  lemma {:induction false} SeparatorIsBetween(es: seq<Element>, i: nat)
    requires 0 < i < |es|
    ensures 0 <= RangesOf(es)[i - 1].end <= RangesOf(es)[i].start <= |TextOf(es)|
    ensures TextOf(es)[RangesOf(es)[i - 1].end..RangesOf(es)[i].start] == "\n\n" && Blank("\n\n")
  {
    var front := es[..|es| - 1];
    TextGrows(es);
    RangesTile(es);
    if i < |front| {
      SeparatorIsBetween(front, i);
      assert TextOf(es)[..|TextOf(front)|] == TextOf(front);
      var a, b := RangesOf(front)[i - 1].end, RangesOf(front)[i].start;
      assert TextOf(es)[a..b] == TextOf(es)[..|TextOf(front)|][a..b];
    } else {
      RangesTile(front);
    }
  }

  // ---------------------------------------------------------------- what an accepted parse keeps

  /** The characters that are not white space, in order. */
  function Ink(s: string): string {
    if s == "" then ""
    else Ink(s[..|s| - 1]) + if IsSpace(s[|s| - 1]) then "" else [s[|s| - 1]]
  }

  lemma {:induction false} InkSplits(a: string, b: string)
    ensures Ink(a + b) == Ink(a) + Ink(b)
    decreases |b|
  {
    if b == "" {
      assert a + b == a;
    } else {
      assert (a + b)[..|a + b| - 1] == a + b[..|b| - 1];
      InkSplits(a, b[..|b| - 1]);
    }
  }

  lemma {:induction false} BlankHasNoInk(s: string)
    requires Blank(s)
    ensures Ink(s) == ""
  {
    if s != "" {
      BlankHasNoInk(s[..|s| - 1]);
    }
  }

  /** One accepted element adds its own ink and nothing else. */
  lemma InkOfOneMore(text: string, cursor: int, start: int, end: int)
    requires 0 <= cursor <= start <= end <= |text| && Blank(text[cursor..start])
    ensures Ink(text[..end]) == Ink(text[..cursor]) + Ink(text[start..end])
  {
    hide Ink, Blank;
    assert text[..end] == text[..cursor] + text[cursor..start] + text[start..end];
    InkSplits(text[..cursor] + text[cursor..start], text[start..end]);
    InkSplits(text[..cursor], text[cursor..start]);
    BlankHasNoInk(text[cursor..start]);
  }

  lemma InkOfJoined(front: string, last: string)
    ensures Ink(front + JOIN + last) == Ink(front) + Ink(last)
  {
    JoinIsBlank();
    InkAroundBlank(front, JOIN, last);
  }

  lemma JoinIsBlank()
    ensures Blank(JOIN)
  {
  }

  lemma InkAroundBlank(front: string, gap: string, last: string)
    requires Blank(gap)
    ensures Ink(front + gap + last) == Ink(front) + Ink(last)
  {
    hide Ink, Blank;
    InkSplits(front + gap, last);
    InkSplits(front, gap);
    BlankHasNoInk(gap);
    assert Ink(front) + "" == Ink(front);
  }

  lemma TextOfMore(es: seq<Element>)
    requires es != []
    ensures |es| == 1 ==> TextOf(es) == es[0].text && TextOf(es[..0]) == ""
    ensures |es| > 1 ==> TextOf(es) == TextOf(es[..|es| - 1]) + JOIN + es[|es| - 1].text
  {
  }

  lemma InkOfJoin(es: seq<Element>)
    requires es != []
    ensures Ink(TextOf(es)) == Ink(TextOf(es[..|es| - 1])) + Ink(es[|es| - 1].text)
  {
    hide Ink, TextOf;
    TextOfMore(es);
    NoTextNoInk();
    if |es| > 1 {
      InkOfJoined(TextOf(es[..|es| - 1]), es[|es| - 1].text);
    }
  }

  lemma {:induction false} InkUpTo(text: string, specs: seq<OffsetSpec>, k: nat)
    requires k <= |specs| && forall i :: 0 <= i < |specs| ==> SpecPasses(text, specs, i)
    ensures 0 <= PreviousEnd(specs, k) <= |text|
    ensures Ink(TextOf(Slices(text, specs)[..k])) == Ink(text[..PreviousEnd(specs, k)])
  {
    var es := Slices(text, specs);
    if k == 0 {
      NoTextNoInk();
      assert es[..0] == [] && text[..0] == "";
    } else {
      assert SpecPasses(text, specs, k - 1);
      InkUpTo(text, specs, k - 1);
      var spec, cursor := specs[k - 1], PreviousEnd(specs, k - 1);
      assert es[k - 1].text == text[spec.start..spec.end];
      hide Ink, TextOf, SpecPasses, Slices, Blank;
      assert es[..k][..k - 1] == es[..k - 1] && es[..k][k - 1] == es[k - 1];
      InkOfJoin(es[..k]);
      InkOfOneMore(text, cursor, spec.start, spec.end);
    }
  }

  lemma NoTextNoInk()
    ensures Ink("") == "" && TextOf([]) == ""
  {
  }

  /** An accepted parse drops and reorders nothing a reader would see. */
  lemma NothingReadIsLost(text: string, specs: seq<OffsetSpec>)
    requires Accepted(text, specs)
    ensures Ink(TextOf(Slices(text, specs))) == Ink(text)
  {
    var n := |specs|;
    InkUpTo(text, specs, n);
    assert Slices(text, specs)[..n] == Slices(text, specs);
    var cursor := PreviousEnd(specs, n);
    assert text == text[..cursor] + text[cursor..];
    InkSplits(text[..cursor], text[cursor..]);
    BlankHasNoInk(text[cursor..]);
  }

  // ---------------------------------------------------------------- layouts

  /** One element's contribution to a span: its index and its table in document coordinates. */
  datatype Region = Region(element: nat, geometry: Geometry, quality: Option<int>, table: Option<Table>)

  predicate Contributes(e: Element) {
    e.geometry.HasRegion() || e.table.Some?
  }

  predicate Overlaps(span: Range, r: Range) {
    (if span.start > r.start then span.start else r.start) < (if span.end < r.end then span.end else r.end)
  }

  function Rebased(t: Table, base: int): Table {
    t.(cells := seq(|t.cells|, i requires 0 <= i < |t.cells| =>
      t.cells[i].(start := base + t.cells[i].start, end := base + t.cells[i].end)))
  }

  function RegionOf(es: seq<Element>, i: nat): Region
    requires i < |es|
  {
    Region(i, es[i].geometry, es[i].quality,
           if es[i].table.Some? then Some(Rebased(es[i].table.value, RangesOf(es)[i].start)) else None)
  }

  /** The regions the first `k` elements contribute to a span, in reading order. */
  function RegionsUpTo(es: seq<Element>, span: Range, k: nat): seq<Region>
    requires k <= |es|
  {
    if k == 0 then []
    else
      RegionsUpTo(es, span, k - 1)
      + if Contributes(es[k - 1]) && Overlaps(span, RangesOf(es)[k - 1]) then [RegionOf(es, k - 1)] else []
  }

  method LayoutsForSpans(spans: seq<Range>, es: seq<Element>) returns (out: seq<Option<seq<Region>>>)
    ensures |out| == |spans|
    ensures forall s :: 0 <= s < |spans| ==>
              out[s] == if RegionsUpTo(es, spans[s], |es|) == [] then None else Some(RegionsUpTo(es, spans[s], |es|))
  {
    hide RangesOf;
    var ranges := CharRanges(es);
    out := [];
    for s := 0 to |spans|
      invariant |out| == s
      invariant forall k :: 0 <= k < s ==>
                  out[k] == if RegionsUpTo(es, spans[k], |es|) == [] then None else Some(RegionsUpTo(es, spans[k], |es|))
    {
      var regions: seq<Region> := [];
      for i := 0 to |es|
        invariant regions == RegionsUpTo(es, spans[s], i)
      {
        if Contributes(es[i]) && Overlaps(spans[s], ranges[i]) {
          var table := if es[i].table.Some? then Some(Rebased(es[i].table.value, ranges[i].start)) else None;
          regions := regions + [Region(i, es[i].geometry, es[i].quality, table)];
        }
      }
      out := out + [if regions == [] then None else Some(regions)];
    }
  }

  /** A span carries exactly the elements some character of which lies in it, among those with a page
      region or a table. */
  lemma {:induction false} RegionsAreTheOverlaps(es: seq<Element>, span: Range, k: nat)
    requires k <= |es|
    ensures forall r :: r in RegionsUpTo(es, span, k) <==>
              exists i :: 0 <= i < k && SharesCharacter(span, RangesOf(es)[i])
                       && (es[i].table.Some? || (es[i].geometry.page.Some? && es[i].geometry.bbox.Some?))
                       && r == RegionOf(es, i)
  {
    hide RangesOf, RegionOf, SharesCharacter;
    if k > 0 {
      RegionsAreTheOverlaps(es, span, k - 1);
      OverlapExactly(span, RangesOf(es)[k - 1]);
    }
  }

  ghost predicate Within(at: int, r: Range) {
    r.start <= at < r.end
  }

  ghost predicate SharesCharacter(a: Range, b: Range) {
    exists at :: Within(at, a) && Within(at, b)
  }

  lemma OverlapExactly(a: Range, b: Range)
    ensures Overlaps(a, b) <==> SharesCharacter(a, b)
  {
    if Overlaps(a, b) {
      var at := if a.start > b.start then a.start else b.start;
      assert Within(at, a) && Within(at, b);
    }
  }

  /** The region names the element and carries its parse; cell `k` of its table is moved to where its
      text lies in the whole, and keeps everything else. */
  ghost predicate Carries(r: Region, i: nat, e: Element, k: nat, whole: string)
    requires e.table.Some? && k < |e.table.value.cells|
  {
    && r.element == i && r.geometry == e.geometry && r.quality == e.quality
    && r.table.Some? && r.table.value.(cells := e.table.value.cells) == e.table.value
    && |r.table.value.cells| == |e.table.value.cells|
    && MovedTo(e.table.value.cells[k], r.table.value.cells[k], e.text, whole)
  }

  ghost predicate MovedTo(cell: Cell, moved: Cell, text: string, whole: string) {
    && 0 <= cell.start < cell.end <= |text| && 0 <= moved.start < moved.end <= |whole|
    && whole[moved.start..moved.end] == text[cell.start..cell.end]
    && moved.(start := cell.start, end := cell.end) == cell
  }

  lemma MovedBy(r: Region, i: nat, e: Element, k: nat, base: int, whole: string)
    requires e.table.Some? && k < |e.table.value.cells|
    requires r == Region(i, e.geometry, e.quality, Some(Rebased(e.table.value, base)))
    requires var cell := e.table.value.cells[k];
             0 <= cell.start < cell.end <= |e.text| && 0 <= base + cell.start < base + cell.end <= |whole|
             && whole[base + cell.start..base + cell.end] == e.text[cell.start..cell.end]
    ensures Carries(r, i, e, k, whole)
  {
  }

  lemma RegionIs(es: seq<Element>, i: nat)
    requires i < |es| && es[i].table.Some?
    ensures RegionOf(es, i)
         == Region(i, es[i].geometry, es[i].quality, Some(Rebased(es[i].table.value, RangesOf(es)[i].start)))
  {
  }

  lemma {:induction false} RegionKeepsItsElement(es: seq<Element>, i: nat, k: nat)
    requires i < |es| && es[i].table.Some? && es[i].Valid() && k < |es[i].table.value.cells|
    requires es[i].table.value.cells[k].Valid()
    ensures Carries(RegionOf(es, i), i, es[i], k, TextOf(es))
  {
    hide RangesOf, TextOf, RegionOf, Rebased, Carries;
    CellKeepsItsText(es, i, es[i].table.value.cells[k]);
    RegionIs(es, i);
    MovedBy(RegionOf(es, i), i, es[i], k, RangesOf(es)[i].start, TextOf(es));
  }
}
