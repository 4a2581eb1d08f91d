/**
 * doc_page_extractor/order2.py without the LayoutLMv3 scorer: fragments are
 * numbered top line first, layout by layout, and the layouts are put in the
 * order of their top edge, with layouts that hold no fragment set aside and
 * put back after the layouts that preceded them.
 */
module Order2 {
  import opened Rectangles
  import opened Types
  import opened Sorting
  import opened Reinsertion

  /** `_top_line_2y`: twice the mean height of the top edge, the sort key of both sorts. */
  function TopLine2Y(rect: Rectangle): real {
    rect.lt.y + rect.rt.y
  }

  function FragmentLe(a: OCRFragment, b: OCRFragment): bool {
    TopLine2Y(a.rect) <= TopLine2Y(b.rect)
  }

  function LayoutLe(a: Layout, b: Layout): bool {
    TopLine2Y(a.rect) <= TopLine2Y(b.rect)
  }

  lemma KeysArePreorders()
    ensures TotalPreorder(FragmentLe)
    ensures TotalPreorder(LayoutLe)
  {
  }

  /** A fragment with its order number cleared, to compare fragments apart from their numbering. */
  function Unnumbered(f: OCRFragment): OCRFragment {
    f.(order := 0)
  }

  /** The fragments numbered `start`, `start + 1`, ... in their order. */
  function Numbered(fs: seq<OCRFragment>, start: int): (r: seq<OCRFragment>)
    ensures |r| == |fs|
  {
    seq(|fs|, k requires 0 <= k < |fs| => fs[k].(order := start + k))
  }

  /** One layout of `_order_by_primitive_layouts`: its fragments sorted by top line and numbered from `start`. */
  function OrderedLayout(layout: Layout, start: int): Layout {
    layout.(fragments := Numbered(SortBy(layout.fragments, FragmentLe), start))
  }

  /** `_order_by_primitive_layouts` on the layouts, with the running counter carried across them. */
  function PrimitiveOrder(layouts: seq<Layout>): (r: seq<Layout>)
    ensures |r| == |layouts|
    decreases |layouts|
  {
    if layouts == [] then []
    else
      var n := |layouts| - 1;
      PrimitiveOrder(layouts[..n]) + [OrderedLayout(layouts[n], |AllFragments(layouts[..n])|)]
  }

  /**
   * `_order_by_primitive_layouts`: sorts each layout's fragments (stably, by
   * `lt.y + rt.y`) and numbers all fragments consecutively. The source
   * mutates the layouts; the model returns the updated list.
   */
  method OrderByPrimitiveLayouts(layouts: seq<Layout>) returns (result: seq<Layout>)
    ensures result == PrimitiveOrder(layouts)
  {
    var order := 0;
    result := [];
    for i := 0 to |layouts|
      invariant result == PrimitiveOrder(layouts[..i])
      invariant order == |AllFragments(layouts[..i])|
    {
      assert layouts[..i + 1][..i] == layouts[..i];
      var fragments := SortBy(layouts[i].fragments, FragmentLe);
      ghost var start := order;
      var numbered: seq<OCRFragment> := [];
      for k := 0 to |fragments|
        invariant |numbered| == k && order == start + k
        invariant forall j :: 0 <= j < k ==> numbered[j] == fragments[j].(order := start + j)
      {
        numbered := numbered + [fragments[k].(order := order)];
        order := order + 1;
      }
      assert numbered == Numbered(fragments, start);
      result := result + [layouts[i].(fragments := numbered)];
    }
    assert layouts[..|layouts|] == layouts;
  }

  /** Numbering then clearing the numbers gives back the cleared fragments. */
  lemma UnnumberedNumbered(fs: seq<OCRFragment>, start: int)
    ensures Map(Unnumbered, Numbered(fs, start)) == Map(Unnumbered, fs)
  {
  }

  /** All fragments of the result carry the orders 0, 1, 2, ..., in layout order. */
  lemma {:induction false} PrimitiveOrderIsConsecutive(layouts: seq<Layout>)
    ensures |AllFragments(PrimitiveOrder(layouts))| == |AllFragments(layouts)|
    ensures forall k :: 0 <= k < |AllFragments(layouts)| ==> AllFragments(PrimitiveOrder(layouts))[k].order == k
    decreases |layouts|
  {
    if layouts != [] {
      var n := |layouts| - 1;
      var init := layouts[..n];
      PrimitiveOrderIsConsecutive(init);
      var r := PrimitiveOrder(layouts);
      assert r[..n] == PrimitiveOrder(init);
      var last := OrderedLayout(layouts[n], |AllFragments(init)|);
      assert r[n] == last;
      assert AllFragments(r) == AllFragments(PrimitiveOrder(init)) + last.fragments;
    }
  }

  /** The layout at position `i` of the result is layout `i` with its fragments reordered. */
  lemma {:induction false} PrimitiveOrderAt(layouts: seq<Layout>, i: int)
    requires 0 <= i < |layouts|
    ensures PrimitiveOrder(layouts)[i] == OrderedLayout(layouts[i], |AllFragments(layouts[..i])|)
    decreases |layouts|
  {
    var n := |layouts| - 1;
    var init := PrimitiveOrder(layouts[..n]);
    var last := OrderedLayout(layouts[n], |AllFragments(layouts[..n])|);
    assert PrimitiveOrder(layouts) == init + [last];
    if i < n {
      PrimitiveOrderAt(layouts[..n], i);
      PrefixOfPrefix(layouts, n, i);
      assert (init + [last])[i] == init[i];
    }
  }

  lemma PrefixOfPrefix<T>(s: seq<T>, n: int, i: int)
    requires 0 <= i <= n <= |s|
    ensures s[..n][..i] == s[..i]
  {
  }

  /**
   * Each layout keeps its rectangle and kind, and its fragments, apart from
   * their order numbers, become the stable sort of its own fragments by top
   * line (sorted, a permutation, equal keys in input order: SortBySorted,
   * SortBy, SortByStable), numbered from the count of fragments in the
   * layouts before it.
   */
  lemma PrimitiveOrderSortsEachLayout(layouts: seq<Layout>, i: int)
    requires 0 <= i < |layouts|
    ensures PrimitiveOrder(layouts)[i] == layouts[i].(fragments := PrimitiveOrder(layouts)[i].fragments)
    ensures Map(Unnumbered, PrimitiveOrder(layouts)[i].fragments) == SortBy(Map(Unnumbered, layouts[i].fragments), FragmentLe)
    ensures Sorted(PrimitiveOrder(layouts)[i].fragments, FragmentLe)
    ensures forall k :: 0 <= k < |PrimitiveOrder(layouts)[i].fragments| ==>
      PrimitiveOrder(layouts)[i].fragments[k].order == |AllFragments(layouts[..i])| + k
  {
    PrimitiveOrderAt(layouts, i);
    var fs := layouts[i].fragments;
    var start := |AllFragments(layouts[..i])|;
    var sorted := SortBy(fs, FragmentLe);
    UnnumberedNumbered(sorted, start);
    SortByMap(Unnumbered, fs, FragmentLe, FragmentLe);
    KeysArePreorders();
    SortBySorted(fs, FragmentLe);
    var r := Numbered(sorted, start);
    forall a, b | 0 <= a < b < |r|
      ensures FragmentLe(r[a], r[b])
    {
      assert FragmentLe(sorted[a], sorted[b]);
    }
  }

  /** The flags of the split in `_sort_layouts`: a layout is placed when it holds a fragment. */
  function HasFragments(layouts: seq<Layout>): (flags: seq<bool>)
    ensures |flags| == |layouts|
  {
    seq(|layouts|, k requires 0 <= k < |layouts| => |layouts[k].fragments| > 0)
  }

  /** What `_sort_layouts` returns. */
  function ReadingOrder(layouts: seq<Layout>): seq<Layout> {
    var ys := SortBy(layouts, LayoutLe);
    var flags := HasFragments(ys);
    Values(ReinsertAll(Split(ys, flags, true), Split(ys, flags, false)))
  }

  /**
   * `_sort_layouts`: the stable sort by `lt.y + rt.y` (in place in the
   * source), the split into layouts with and without fragments, and the
   * reinsertion of the latter.
   */
  method SortLayouts(layouts: seq<Layout>) returns (result: seq<Layout>)
    ensures result == ReadingOrder(layouts)
  {
    var ys := SortBy(layouts, LayoutLe);
    ghost var flags := HasFragments(ys);
    var sortedLayouts: seq<Entry> := [];
    var emptyLayouts: seq<Entry> := [];
    for i := 0 to |ys|
      invariant sortedLayouts == Split(ys[..i], flags[..i], true)
      invariant emptyLayouts == Split(ys[..i], flags[..i], false)
    {
      assert ys[..i + 1][..i] == ys[..i] && flags[..i + 1][..i] == flags[..i];
      if |ys[i].fragments| > 0 {
        sortedLayouts := sortedLayouts + [(i, ys[i])];
      } else {
        emptyLayouts := emptyLayouts + [(i, ys[i])];
      }
    }
    assert ys[..|ys|] == ys && flags[..|flags|] == flags;
    var entries := Reinsert(sortedLayouts, emptyLayouts);
    result := Values(entries);
  }

  /**
   * Because the split keeps indices increasing on both sides, reinsertion
   * restores the sorted order exactly: `_sort_layouts` returns the layouts
   * stably sorted by `lt.y + rt.y`, every layout exactly once.
   */
  lemma ReadingOrderIsSortByTopLine(layouts: seq<Layout>)
    ensures ReadingOrder(layouts) == SortBy(layouts, LayoutLe)
  {
    var ys := SortBy(layouts, LayoutLe);
    var flags := HasFragments(ys);
    var placed := Split(ys, flags, true);
    var empties := Split(ys, flags, false);
    var r := ReinsertAll(placed, empties);
    SplitSizes(ys, flags);
    ReinsertAllPermutes(placed, empties);
    ReinsertAllKeepsIncreasing(placed, empties);
    ReinsertAllEntries(placed, empties, ys);
    EntriesAreEnumeration(r, ys);
  }

  /** `order_layouts_and_fragments` with `order_ai` None. */
  method OrderLayoutsAndFragments(layouts: seq<Layout>) returns (result: seq<Layout>)
    ensures result == SortBy(PrimitiveOrder(layouts), LayoutLe)
  {
    var numbered := OrderByPrimitiveLayouts(layouts);
    result := SortLayouts(numbered);
    ReadingOrderIsSortByTopLine(numbered);
  }

  /** The boxes `_get_boxes` returns. */
  function FragmentBoxes(fragments: seq<OCRFragment>): (boxes: seq<Box>)
    ensures |boxes| == |fragments|
  {
    seq(|fragments|, k requires 0 <= k < |fragments| => Wrapper(fragments[k].rect))
  }

  /** `_get_boxes`: per fragment, the min/max x and y over its four points. */
  method GetBoxes(fragments: seq<OCRFragment>) returns (boxes: seq<Box>)
    ensures boxes == FragmentBoxes(fragments)
  {
    boxes := [];
    for k := 0 to |fragments|
      invariant |boxes| == k
      invariant forall j :: 0 <= j < k ==> boxes[j] == Wrapper(fragments[j].rect)
    {
      var b := ScanBounds(Points(fragments[k].rect));
      WrapperIsBounds(fragments[k].rect);
      boxes := boxes + [b];
    }
  }

  /** Every box of `_get_boxes` is its fragment's tightest box around the four points. */
  lemma FragmentBoxesBound(fragments: seq<OCRFragment>, k: int)
    requires 0 <= k < |fragments|
    ensures WellFormed(FragmentBoxes(fragments)[k])
    ensures forall p :: p in Points(fragments[k].rect) ==> Contains(FragmentBoxes(fragments)[k], p)
    ensures Attained(FragmentBoxes(fragments)[k], Points(fragments[k].rect))
  {
    WrapperIsTightest(fragments[k].rect);
  }

  /** The union box of the boxes: the min/max fold over their sides. */
  function Hull(boxes: seq<Box>): (h: Box)
    requires |boxes| > 0
    ensures forall k :: 0 <= k < |boxes| ==> h.left <= boxes[k].left && boxes[k].right <= h.right
    ensures forall k :: 0 <= k < |boxes| ==> h.top <= boxes[k].top && boxes[k].bottom <= h.bottom
    decreases |boxes|
  {
    if |boxes| == 1 then boxes[0]
    else
      var n := |boxes| - 1;
      var h := Hull(boxes[..n]);
      var b := boxes[n];
      assert forall k :: 0 <= k < n ==> boxes[..n][k] == boxes[k];
      Box(Min(h.left, b.left), Min(h.top, b.top), Max(h.right, b.right), Max(h.bottom, b.bottom))
  }

  /** Each side of the union box is a side of one of the boxes. */
  lemma {:induction false} HullAttained(boxes: seq<Box>)
    requires |boxes| > 0
    ensures exists k :: 0 <= k < |boxes| && boxes[k].left == Hull(boxes).left
    ensures exists k :: 0 <= k < |boxes| && boxes[k].top == Hull(boxes).top
    ensures exists k :: 0 <= k < |boxes| && boxes[k].right == Hull(boxes).right
    ensures exists k :: 0 <= k < |boxes| && boxes[k].bottom == Hull(boxes).bottom
    decreases |boxes|
  {
    var h := Hull(boxes);
    if |boxes| == 1 {
      assert boxes[0] == h;
    } else {
      var n := |boxes| - 1;
      var init := boxes[..n];
      HullAttained(init);
      var g := Hull(init);
      var b := boxes[n];
      assert h == Box(Min(g.left, b.left), Min(g.top, b.top), Max(g.right, b.right), Max(g.bottom, b.bottom));
      var kl :| 0 <= kl < n && init[kl].left == g.left;
      var kt :| 0 <= kt < n && init[kt].top == g.top;
      var kr :| 0 <= kr < n && init[kr].right == g.right;
      var kb :| 0 <= kb < n && init[kb].bottom == g.bottom;
      assert boxes[kl] == init[kl] && boxes[kt] == init[kt] && boxes[kr] == init[kr] && boxes[kb] == init[kb];
      if h.left != b.left { assert boxes[kl].left == h.left; }
      if h.top != b.top { assert boxes[kt].top == h.top; }
      if h.right != b.right { assert boxes[kr].right == h.right; }
      if h.bottom != b.bottom { assert boxes[kb].bottom == h.bottom; }
    }
  }

  /** One step of the union fold. */
  lemma HullStep(boxes: seq<Box>, k: int)
    requires 0 < k < |boxes|
    ensures var h := Hull(boxes[..k]); var b := boxes[k];
      Hull(boxes[..k + 1]) == Box(Min(h.left, b.left), Min(h.top, b.top), Max(h.right, b.right), Max(h.bottom, b.bottom))
  {
    assert boxes[..k + 1][..k] == boxes[..k];
  }

  /** A box in coordinates relative to the union box, scaled by its width and height. */
  function Normalised(b: Box, h: Box): Box
    requires Width(h) != 0.0 && Height(h) != 0.0
  {
    Box((b.left - h.left) / Width(h), (b.top - h.top) / Height(h),
        (b.right - h.left) / Width(h), (b.bottom - h.top) / Height(h))
  }

  /**
   * What `_collect_rate_boxes` yields for the boxes. With no box the
   * source's infinite seeds give a width of -inf, so it yields nothing, as
   * here.
   */
  function RateBoxesOf(boxes: seq<Box>): (r: seq<Box>)
    ensures r == [] || |r| == |boxes|
  {
    if boxes == [] then []
    else
      var h := Hull(boxes);
      if Width(h) == 0.0 || Height(h) == 0.0 then []
      else seq(|boxes|, k requires 0 <= k < |boxes| => Normalised(boxes[k], h))
  }

  /** `_collect_rate_boxes`: the boxes of `_get_boxes`, then the rest of the generator on them. */
  method CollectRateBoxes(fragments: seq<OCRFragment>) returns (r: seq<Box>)
    ensures r == RateBoxesOf(FragmentBoxes(fragments))
  {
    var boxes := GetBoxes(fragments);
    r := CollectRates(boxes);
  }

  /** The body of `_collect_rate_boxes` after `_get_boxes`: the union box, then each box relative to it. */
  method CollectRates(boxes: seq<Box>) returns (r: seq<Box>)
    ensures r == RateBoxesOf(boxes)
  {
    if |boxes| == 0 {
      return [];
    }
    var h := boxes[0];
    assert boxes[..1] == [boxes[0]];
    for k := 1 to |boxes|
      invariant h == Hull(boxes[..k])
    {
      HullStep(boxes, k);
      var b := boxes[k];
      h := Box(Min(h.left, b.left), Min(h.top, b.top), Max(h.right, b.right), Max(h.bottom, b.bottom));
    }
    assert boxes[..|boxes|] == boxes;
    var width := h.right - h.left;
    var height := h.bottom - h.top;
    if width == 0.0 || height == 0.0 {
      return [];
    }
    r := [];
    for k := 0 to |boxes|
      invariant |r| == k
      invariant forall j :: 0 <= j < k ==> r[j] == Normalised(boxes[j], h)
    {
      r := r + [Normalised(boxes[k], h)];
    }
  }

  lemma UnitRatio(a: real, w: real)
    requires 0.0 <= a <= w && w > 0.0
    ensures 0.0 <= a / w <= 1.0
  {
  }

  lemma SelfRatio(w: real)
    requires w != 0.0
    ensures 0.0 / w == 0.0 && w / w == 1.0
  {
  }

  lemma OrderedRatios(a: real, b: real, w: real)
    requires a <= b && w > 0.0
    ensures a / w <= b / w
  {
  }

  /** The rate boxes are empty exactly when there is no box or the union box is flat. */
  lemma RateBoxesEmptyIffFlat(boxes: seq<Box>)
    ensures RateBoxesOf(boxes) == [] <==> boxes == [] || Width(Hull(boxes)) == 0.0 || Height(Hull(boxes)) == 0.0
  {
  }

  /** Relative to the union box, every well-formed box lies in the unit square. */
  lemma RateBoxesInUnitSquare(boxes: seq<Box>)
    requires forall k :: 0 <= k < |boxes| ==> WellFormed(boxes[k])
    ensures var r := RateBoxesOf(boxes);
      forall k :: 0 <= k < |r| ==> 0.0 <= r[k].left <= r[k].right <= 1.0 && 0.0 <= r[k].top <= r[k].bottom <= 1.0
  {
    var r := RateBoxesOf(boxes);
    if r != [] {
      var h := Hull(boxes);
      forall k | 0 <= k < |r|
        ensures 0.0 <= r[k].left <= r[k].right <= 1.0 && 0.0 <= r[k].top <= r[k].bottom <= 1.0
      {
        var b := boxes[k];
        assert r[k] == Normalised(b, h);
        UnitRatio(b.left - h.left, Width(h));
        UnitRatio(b.right - h.left, Width(h));
        UnitRatio(b.top - h.top, Height(h));
        UnitRatio(b.bottom - h.top, Height(h));
        OrderedRatios(b.left - h.left, b.right - h.left, Width(h));
        OrderedRatios(b.top - h.top, b.bottom - h.top, Height(h));
      }
    }
  }

  /** Together the rate boxes reach all four sides of the unit square. */
  lemma RateBoxesReachSides(boxes: seq<Box>)
    ensures var r := RateBoxesOf(boxes);
      r != [] ==> (exists k :: 0 <= k < |r| && r[k].left == 0.0) && (exists k :: 0 <= k < |r| && r[k].right == 1.0)
    ensures var r := RateBoxesOf(boxes);
      r != [] ==> (exists k :: 0 <= k < |r| && r[k].top == 0.0) && (exists k :: 0 <= k < |r| && r[k].bottom == 1.0)
  {
    var r := RateBoxesOf(boxes);
    if r != [] {
      var h := Hull(boxes);
      HullAttained(boxes);
      SelfRatio(Width(h));
      SelfRatio(Height(h));
      var kl :| 0 <= kl < |boxes| && boxes[kl].left == h.left;
      assert r[kl].left == 0.0 / Width(h);
      var kr :| 0 <= kr < |boxes| && boxes[kr].right == h.right;
      assert r[kr].right == Width(h) / Width(h);
      var kt :| 0 <= kt < |boxes| && boxes[kt].top == h.top;
      assert r[kt].top == 0.0 / Height(h);
      var kb :| 0 <= kb < |boxes| && boxes[kb].bottom == h.bottom;
      assert r[kb].bottom == Height(h) / Height(h);
    }
  }

  /** `_iter_fragments` yields the fragments of the layouts one after another. */
  lemma IterFragmentsConcatenates(a: seq<Layout>, l: Layout)
    ensures AllFragments(a + [l]) == AllFragments(a) + l.fragments
    ensures |AllFragments(a + [l])| == |AllFragments(a)| + |l.fragments|
  {
    assert (a + [l])[..|a|] == a;
  }
}
