/**
 * `LayoutOrder.sort` and `_layout_orders` of doc_page_extractor/layout_order.py.
 * The LayoutLMv3 scorer is not modelled: the ranks it would return for the
 * sorted boxes are an input, `orders`.
 */
module LayoutOrder {
  import opened Wrappers
  import opened Rectangles
  import opened Types
  import opened Sorting
  import opened Reinsertion
  import opened LayoutLines

  /** A plain-text layout with fragments gives one box per fragment; any other layout gives virtual lines. */
  predicate HasFragmentBoxes(layout: Layout) {
    layout.Class() == PlainText && |layout.fragments| > 0
  }

  /** One non-virtual box per fragment, carrying the fragment's wrapper box. */
  function FragmentBBoxes(layout: Layout, layoutIndex: nat): (bs: seq<BBox>)
    ensures |bs| == |layout.fragments|
  {
    seq(|layout.fragments|, j requires 0 <= j < |layout.fragments| => BBox(layoutIndex, j, false, Wrapper(layout.fragments[j].rect)))
  }

  /** The boxes one layout adds to `bbox_list`. */
  function LayoutBBoxes(layout: Layout, layoutIndex: nat, lineHeight: real, width: int, height: int): Result<seq<BBox>, Fault> {
    if HasFragmentBoxes(layout) then Success(FragmentBBoxes(layout, layoutIndex))
    else VirtualLines(layout.rect, layoutIndex, lineHeight, width, height)
  }

  /** `bbox_list` after the loop over the layouts, or the first division by zero. */
  function CollectBBoxes(layouts: seq<Layout>, lineHeight: real, width: int, height: int): (r: Result<seq<BBox>, Fault>)
    ensures r.Success? ==> forall k :: 0 <= k < |r.value| ==> r.value[k].layoutIndex < |layouts|
    decreases |layouts|
  {
    if layouts == [] then Success([])
    else
      var n := |layouts| - 1;
      match CollectBBoxes(layouts[..n], lineHeight, width, height)
      case Failure(e) => Failure(e)
      case Success(bs) =>
        match LayoutBBoxes(layouts[n], n, lineHeight, width, height)
        case Failure(e) => Failure(e)
        case Success(more) => Success(bs + more)
  }

  /** Every box of a layout, real or virtual, carries that layout's index. */
  lemma LayoutBBoxesIndex(layout: Layout, layoutIndex: nat, lineHeight: real, width: int, height: int)
    ensures var r := LayoutBBoxes(layout, layoutIndex, lineHeight, width, height);
      r.Success? ==> forall k :: 0 <= k < |r.value| ==> r.value[k].layoutIndex == layoutIndex
  {
  }

  /** `bbox.value` overwritten by the clamped, scaled and rounded box. */
  function ScaleBoxes(bs: seq<BBox>, width: int, height: int): (r: seq<BBox>)
    requires width != 0 && height != 0
    ensures |r| == |bs|
  {
    seq(|bs|, k requires 0 <= k < |bs| => bs[k].(value := ScaledBox(bs[k].value, width, height)))
  }

  /** The lexicographic order of Python tuples on `(x0, y0, x1, y1)`. */
  function BBoxLe(a: BBox, b: BBox): bool {
    var u, v := a.value, b.value;
    || u.left < v.left
    || (u.left == v.left && u.top < v.top)
    || (u.left == v.left && u.top == v.top && u.right < v.right)
    || (u.left == v.left && u.top == v.top && u.right == v.right && u.bottom <= v.bottom)
  }

  lemma BBoxLeIsTotalPreorder()
    ensures TotalPreorder(BBoxLe)
  {
  }

  /** The boxes the scorer sees: scaled, then sorted by value. */
  function ScorerBoxes(bs: seq<BBox>, width: int, height: int): seq<BBox>
    requires width != 0 && height != 0
  {
    SortBy(ScaleBoxes(bs, width, height), BBoxLe)
  }

  /** On a page of positive size the scorer's boxes have whole coordinates in 0..1000, in lexicographic order. */
  lemma ScorerBoxesInRangeAndSorted(bs: seq<BBox>, width: int, height: int)
    requires width > 0 && height > 0
    ensures var s := ScorerBoxes(bs, width, height);
      forall k :: 0 <= k < |s| ==>
        InScorerRange(s[k].value.left) && InScorerRange(s[k].value.top) &&
        InScorerRange(s[k].value.right) && InScorerRange(s[k].value.bottom)
    ensures Sorted(ScorerBoxes(bs, width, height), BBoxLe)
    ensures multiset(ScorerBoxes(bs, width, height)) == multiset(ScaleBoxes(bs, width, height))
  {
    var scaled := ScaleBoxes(bs, width, height);
    var s := ScorerBoxes(bs, width, height);
    BBoxLeIsTotalPreorder();
    SortBySorted(scaled, BBoxLe);
    forall k | 0 <= k < |s|
      ensures InScorerRange(s[k].value.left) && InScorerRange(s[k].value.top)
      ensures InScorerRange(s[k].value.right) && InScorerRange(s[k].value.bottom)
    {
      assert s[k] in multiset(scaled);
      var j :| 0 <= j < |scaled| && scaled[j] == s[k];
      ScaledBoxInRange(bs[j].value, width, height);
    }
  }

  /** The ranks the zip hands to layout `i`: those of the first `m` boxes that belong to it, in box order. */
  function RanksOf(i: nat, orders: seq<int>, boxes: seq<BBox>, m: nat): seq<int>
    requires m <= |orders| && m <= |boxes|
    decreases m
  {
    if m == 0 then []
    else RanksOf(i, orders, boxes, m - 1) + (if boxes[m - 1].layoutIndex == i then [orders[m - 1]] else [])
  }

  function MinOf(a: nat, b: nat): nat { if a < b then a else b }

  /** The per-layout lists after the first `m` steps of the zip. */
  function RanksUpTo(n: nat, orders: seq<int>, boxes: seq<BBox>, m: nat): (lo: seq<seq<int>>)
    requires m <= |orders| && m <= |boxes|
    ensures |lo| == n && forall i :: 0 <= i < n ==> lo[i] == RanksOf(i, orders, boxes, m)
  {
    seq(n, i requires 0 <= i < n => RanksOf(i, orders, boxes, m))
  }

  /** The `layout_orders` lists of the zip of `orders` with the boxes, one list per layout. */
  function CollectedRanks(n: nat, orders: seq<int>, boxes: seq<BBox>): (lo: seq<seq<int>>)
    ensures |lo| == n
  {
    RanksUpTo(n, orders, boxes, MinOf(|orders|, |boxes|))
  }

  /** What `_layout_orders` returns: None past 200 boxes, else the ranks per layout. */
  function LayoutOrdersOf(layouts: seq<Layout>, width: int, height: int, orders: seq<int>): Result<Option<seq<seq<int>>>, Fault> {
    match CollectBBoxes(layouts, LineHeightOf(layouts), width, height)
    case Failure(e) => Failure(e)
    case Success(bs) =>
      if |bs| > MaxBoxes then Success(None)
      else if width == 0 || height == 0 then Failure(ZeroDivision)
      else Success(Some(CollectedRanks(|layouts|, orders, ScorerBoxes(bs, width, height))))
  }

  /** The layout with fragment `k` renumbered to `ranks[k]` while both exist (`zip(orders, layout.fragments)`). */
  function Relabel(layout: Layout, ranks: seq<int>): (r: Layout)
    ensures r == layout.(fragments := r.fragments) && |r.fragments| == |layout.fragments|
    ensures forall k :: 0 <= k < |r.fragments| ==> r.fragments[k].order == (if k < |ranks| then ranks[k] else layout.fragments[k].order)
    ensures forall k :: 0 <= k < |r.fragments| ==> r.fragments[k] == layout.fragments[k].(order := r.fragments[k].order)
  {
    var fs := layout.fragments;
    layout.(fragments := seq(|fs|, k requires 0 <= k < |fs| => if k < |ranks| then fs[k].(order := ranks[k]) else fs[k]))
  }

  function IntToReal(x: int): real { x as real }

  /** `_median` of the ranks. */
  function MedianOrder(ranks: seq<int>): real
    requires |ranks| > 0
  {
    Median(Map(IntToReal, ranks))
  }

  /** The layouts after the loop of `sort`: each ranked layout renumbered by its ranks. */
  function Relabelled(layouts: seq<Layout>, lo: seq<seq<int>>): (rl: seq<Layout>)
    requires |lo| == |layouts|
    ensures |rl| == |layouts|
  {
    seq(|layouts|, i requires 0 <= i < |layouts| => if |lo[i]| == 0 then layouts[i] else Relabel(layouts[i], lo[i]))
  }

  /** `mean_orders`: the median rank of each ranked layout, 0.0 for the others. */
  function MeanOrders(lo: seq<seq<int>>): (means: seq<real>)
    ensures |means| == |lo|
  {
    seq(|lo|, i requires 0 <= i < |lo| => if |lo[i]| == 0 then 0.0 else MedianOrder(lo[i]))
  }

  /** The flags of the split in `sort`: a layout is placed when it received a rank. */
  function Ranked(lo: seq<seq<int>>): (flags: seq<bool>)
    ensures |flags| == |lo|
  {
    seq(|lo|, i requires 0 <= i < |lo| => |lo[i]| > 0)
  }

  function MeanAt(means: seq<real>, k: nat): real {
    if k < |means| then means[k] else 0.0
  }

  /** The key of `sorted_layouts.sort`: `mean_orders[x[0]]`. */
  function ByMedian(means: seq<real>): (Entry, Entry) -> bool {
    (a: Entry, b: Entry) => MeanAt(means, a.0) <= MeanAt(means, b.0)
  }

  lemma ByMedianIsTotalPreorder(means: seq<real>)
    ensures TotalPreorder(ByMedian(means))
  {
  }

  /** The entries `sort` ends with, before dropping the indices. */
  function ArrangedEntries(layouts: seq<Layout>, lo: seq<seq<int>>): seq<Entry>
    requires |lo| == |layouts|
  {
    var rl := Relabelled(layouts, lo);
    var flags := Ranked(lo);
    ReinsertAll(SortBy(Split(rl, flags, true), ByMedian(MeanOrders(lo))), Split(rl, flags, false))
  }

  /** What `sort` returns, or the division by zero `_layout_orders` raises. */
  function SortOf(layouts: seq<Layout>, width: int, height: int, orders: seq<int>): (r: Result<seq<Layout>, Fault>)
    ensures width == 0 || height == 0 ==> r == Success(layouts)
    ensures (var bs := CollectBBoxes(layouts, LineHeightOf(layouts), width, height);
      bs.Success? && |bs.value| > MaxBoxes ==> r == Success(layouts))
  {
    if width == 0 || height == 0 then Success(layouts)
    else
      match LayoutOrdersOf(layouts, width, height, orders)
      case Failure(e) => Failure(e)
      case Success(None) => Success(layouts)
      case Success(Some(lo)) => Success(Values(ArrangedEntries(layouts, lo)))
  }

  /** The loop of `_layout_orders` that fills `bbox_list`. */
  method BuildBBoxes(layouts: seq<Layout>, lineHeight: real, width: int, height: int) returns (r: Result<seq<BBox>, Fault>)
    ensures r == CollectBBoxes(layouts, lineHeight, width, height)
  {
    var bboxList: seq<BBox> := [];
    for i := 0 to |layouts|
      invariant CollectBBoxes(layouts[..i], lineHeight, width, height) == Success(bboxList)
    {
      assert layouts[..i + 1][..i] == layouts[..i];
      var more := BuildLayoutBBoxes(layouts[i], i, lineHeight, width, height);
      if more.Failure? {
        CollectFailurePersists(layouts, i + 1, lineHeight, width, height);
        return Failure(more.error);
      }
      bboxList := bboxList + more.value;
    }
    assert layouts[..|layouts|] == layouts;
    return Success(bboxList);
  }

  /** Once a prefix of the layouts fails, the whole list fails the same way. */
  lemma {:induction false} CollectFailurePersists(layouts: seq<Layout>, i: nat, lineHeight: real, width: int, height: int)
    requires i <= |layouts|
    requires CollectBBoxes(layouts[..i], lineHeight, width, height).Failure?
    ensures CollectBBoxes(layouts, lineHeight, width, height) == CollectBBoxes(layouts[..i], lineHeight, width, height)
    decreases |layouts| - i
  {
    if i == |layouts| {
      assert layouts[..i] == layouts;
    } else {
      var n := |layouts| - 1;
      assert layouts[..n][..i] == layouts[..i];
      CollectFailurePersists(layouts[..n], i, lineHeight, width, height);
    }
  }

  /** One pass of that loop: the fragments' boxes, or the layout's virtual lines. */
  method BuildLayoutBBoxes(layout: Layout, i: nat, lineHeight: real, width: int, height: int) returns (r: Result<seq<BBox>, Fault>)
    ensures r == LayoutBBoxes(layout, i, lineHeight, width, height)
  {
    if layout.Class() == PlainText && |layout.fragments| > 0 {
      var bs: seq<BBox> := [];
      for j := 0 to |layout.fragments|
        invariant bs == FragmentBBoxes(layout, i)[..j]
      {
        bs := bs + [BBox(i, j, false, Wrapper(layout.fragments[j].rect))];
        assert FragmentBBoxes(layout, i)[..j + 1] == FragmentBBoxes(layout, i)[..j] + [FragmentBBoxes(layout, i)[j]];
      }
      assert FragmentBBoxes(layout, i)[..|layout.fragments|] == FragmentBBoxes(layout, i);
      r := Success(bs);
    } else {
      r := GenerateVirtualLines(layout, i, lineHeight, width, height);
    }
  }

  /** The loop of `_layout_orders` that overwrites each `bbox.value` with its scaled box. */
  method ScaleBBoxes(bboxList: seq<BBox>, width: int, height: int) returns (scaled: seq<BBox>)
    requires width != 0 && height != 0
    ensures scaled == ScaleBoxes(bboxList, width, height)
  {
    scaled := bboxList;
    for k := 0 to |scaled|
      invariant |scaled| == |bboxList|
      invariant forall j :: 0 <= j < k ==> scaled[j] == bboxList[j].(value := ScaledBox(bboxList[j].value, width, height))
      invariant forall j :: k <= j < |scaled| ==> scaled[j] == bboxList[j]
    {
      var v := ScaleBBox(scaled[k].value, width, height);
      scaled := scaled[k := scaled[k].(value := v)];
    }
  }

  /** The body of that loop: squeeze into the page, scale to 0..1000, round each coordinate. */
  method ScaleBBox(b: Box, width: int, height: int) returns (v: Box)
    requires width != 0 && height != 0
    ensures v == ScaledBox(b, width, height)
  {
    var xScale := LayoutReaderSize / (width as real);
    var yScale := LayoutReaderSize / (height as real);
    var s := Squeeze(b, width, height);
    v := Box(Scaled(s.left, xScale), Scaled(s.top, yScale), Scaled(s.right, xScale), Scaled(s.bottom, yScale));
  }

  /** The zip loop that appends each rank to its box's layout list. */
  method CollectRanks(n: nat, orders: seq<int>, boxes: seq<BBox>) returns (layoutOrders: seq<seq<int>>)
    requires forall k :: 0 <= k < |boxes| ==> boxes[k].layoutIndex < n
    ensures layoutOrders == CollectedRanks(n, orders, boxes)
  {
    var m := MinOf(|orders|, |boxes|);
    layoutOrders := seq(n, _ => []);
    for k := 0 to m
      invariant |layoutOrders| == n
      invariant forall i :: 0 <= i < n ==> layoutOrders[i] == RanksOf(i, orders, boxes, k)
    {
      var j := boxes[k].layoutIndex;
      ghost var before := layoutOrders;
      layoutOrders := layoutOrders[j := layoutOrders[j] + [orders[k]]];
      forall i | 0 <= i < n
        ensures layoutOrders[i] == RanksOf(i, orders, boxes, k + 1)
      {
        if i == j {
          assert layoutOrders[i] == before[j] + [orders[k]];
        } else {
          assert layoutOrders[i] == before[i];
        }
      }
    }
    SameRanks(layoutOrders, n, orders, boxes, m);
  }

  lemma SameRanks(lo: seq<seq<int>>, n: nat, orders: seq<int>, boxes: seq<BBox>, m: nat)
    requires m <= |orders| && m <= |boxes|
    requires |lo| == n && forall i :: 0 <= i < n ==> lo[i] == RanksOf(i, orders, boxes, m)
    ensures lo == RanksUpTo(n, orders, boxes, m)
  {
  }

  /** `_layout_orders`, with the scorer's output given as `orders`. */
  method LayoutOrders(layouts: seq<Layout>, width: int, height: int, orders: seq<int>)
    returns (r: Result<Option<seq<seq<int>>>, Fault>)
    ensures r == LayoutOrdersOf(layouts, width, height, orders)
  {
    var lineHeight := LineHeight(layouts);
    var bboxList := BuildBBoxes(layouts, lineHeight, width, height);
    if bboxList.Failure? {
      return Failure(bboxList.error);
    }
    if |bboxList.value| > 200 {
      return Success(None);
    }
    if width == 0 || height == 0 {
      return Failure(ZeroDivision);
    }
    var scaled := ScaleBBoxes(bboxList.value, width, height);
    var sorted := SortBy(scaled, BBoxLe);
    assert multiset(sorted) == multiset(scaled);
    forall k | 0 <= k < |sorted|
      ensures sorted[k].layoutIndex < |layouts|
    {
      assert sorted[k] in multiset(scaled);
    }
    var layoutOrders := CollectRanks(|layouts|, orders, sorted);
    return Success(Some(layoutOrders));
  }

  /** `LayoutOrder.sort`, with the scorer's output given as `orders`. */
  method Sort(layouts: seq<Layout>, width: int, height: int, orders: seq<int>) returns (r: Result<seq<Layout>, Fault>)
    ensures r == SortOf(layouts, width, height, orders)
  {
    if width == 0 || height == 0 {
      return Success(layouts);
    }
    var layoutOrders := LayoutOrders(layouts, width, height, orders);
    if layoutOrders.Failure? {
      return Failure(layoutOrders.error);
    }
    if layoutOrders.value.None? {
      return Success(layouts);
    }
    var lo := layoutOrders.value.value;
    var meanOrders, sortedLayouts, emptyLayouts := SplitByRanks(layouts, lo);
    sortedLayouts := SortBy(sortedLayouts, ByMedian(meanOrders));
    var entries := Reinsert(sortedLayouts, emptyLayouts);
    return Success(Values(entries));
  }

  /** The loop of `sort` that computes the medians and splits the layouts into ranked and unranked ones. */
  method SplitByRanks(layouts: seq<Layout>, lo: seq<seq<int>>)
    returns (meanOrders: seq<real>, sortedLayouts: seq<Entry>, emptyLayouts: seq<Entry>)
    requires |lo| == |layouts|
    ensures meanOrders == MeanOrders(lo)
    ensures sortedLayouts == Split(Relabelled(layouts, lo), Ranked(lo), true)
    ensures emptyLayouts == Split(Relabelled(layouts, lo), Ranked(lo), false)
  {
    meanOrders := [];
    sortedLayouts := [];
    emptyLayouts := [];
    ghost var rl := Relabelled(layouts, lo);
    ghost var flags := Ranked(lo);
    for i := 0 to |lo|
      invariant meanOrders == MeanOrders(lo)[..i]
      invariant sortedLayouts == Split(rl[..i], flags[..i], true)
      invariant emptyLayouts == Split(rl[..i], flags[..i], false)
    {
      SplitLast(rl, flags, true, i);
      SplitLast(rl, flags, false, i);
      TakeOneMore(MeanOrders(lo), i);
      var layout := layouts[i];
      var meanOrder := 0.0;
      if |lo[i]| == 0 {
        emptyLayouts := emptyLayouts + [(i, layout)];
      } else {
        meanOrder := MedianOrder(lo[i]);
        layout := ZipOrders(layout, lo[i]);
        sortedLayouts := sortedLayouts + [(i, layout)];
      }
      meanOrders := meanOrders + [meanOrder];
    }
    assert rl[..|lo|] == rl && flags[..|lo|] == flags && MeanOrders(lo)[..|lo|] == MeanOrders(lo);
  }

  /** `for order, fragment in zip(orders, layout.fragments): fragment.order = order`. */
  method ZipOrders(layout: Layout, ranks: seq<int>) returns (r: Layout)
    ensures r == Relabel(layout, ranks)
  {
    var fragments := layout.fragments;
    var m := MinOf(|ranks|, |fragments|);
    for k := 0 to m
      invariant |fragments| == |layout.fragments|
      invariant forall j :: 0 <= j < k ==> fragments[j] == layout.fragments[j].(order := ranks[j])
      invariant forall j :: k <= j < |fragments| ==> fragments[j] == layout.fragments[j]
    {
      fragments := fragments[k := fragments[k].(order := ranks[k])];
    }
    r := layout.(fragments := fragments);
  }

  /** `enumerate(layouts)`. */
  function Enumerate(ls: seq<Layout>): (r: seq<Entry>)
    ensures |r| == |ls| && forall k :: 0 <= k < |r| ==> r[k] == (k, ls[k])
  {
    seq(|ls|, k requires 0 <= k < |ls| => (k, ls[k]))
  }

  /** The split in `sort` puts every indexed layout on exactly one of its two sides. */
  lemma {:induction false} SplitPartition(ls: seq<Layout>, placed: seq<bool>)
    requires |placed| == |ls|
    ensures multiset(Split(ls, placed, true)) + multiset(Split(ls, placed, false)) == multiset(Enumerate(ls))
    decreases |ls|
  {
    if ls != [] {
      var n := |ls| - 1;
      SplitPartition(ls[..n], placed[..n]);
      EnumerateLast(ls);
      PartitionStep(Split(ls[..n], placed[..n], true), Split(ls[..n], placed[..n], false), Enumerate(ls[..n]), [(n, ls[n])],
        placed[n], Split(ls, placed, true), Split(ls, placed, false));
    }
  }

  lemma EnumerateLast(ls: seq<Layout>)
    requires ls != []
    ensures Enumerate(ls) == Enumerate(ls[..|ls| - 1]) + [(|ls| - 1, ls[|ls| - 1])]
  {
  }

  /** Adding one more element to one side of a partition. */
  lemma PartitionStep<T>(yes: seq<T>, no: seq<T>, all: seq<T>, last: seq<T>, b: bool, yes': seq<T>, no': seq<T>)
    requires multiset(yes) + multiset(no) == multiset(all)
    requires yes' == (if b then yes + last else yes) && no' == (if b then no else no + last)
    ensures multiset(yes') + multiset(no') == multiset(all + last)
  {
  }

  /** `sort` returns the relabelled layouts, each exactly once. */
  lemma ArrangedPermutes(layouts: seq<Layout>, lo: seq<seq<int>>)
    requires |lo| == |layouts|
    ensures |Values(ArrangedEntries(layouts, lo))| == |layouts|
    ensures multiset(Values(ArrangedEntries(layouts, lo))) == multiset(Relabelled(layouts, lo))
  {
    var rl := Relabelled(layouts, lo);
    var flags := Ranked(lo);
    var sorted := SortBy(Split(rl, flags, true), ByMedian(MeanOrders(lo)));
    var empty := Split(rl, flags, false);
    ReinsertAllPermutes(sorted, empty);
    SplitPartition(rl, flags);
    MapPermutes(EntryLayout, ArrangedEntries(layouts, lo), Enumerate(rl));
    assert Values(Enumerate(rl)) == rl;
  }

  /** On a ranked page `sort` loses and duplicates no layout. */
  lemma SortPermutes(layouts: seq<Layout>, width: int, height: int, orders: seq<int>, lo: seq<seq<int>>)
    requires width != 0 && height != 0
    requires LayoutOrdersOf(layouts, width, height, orders) == Success(Some(lo))
    ensures var r := SortOf(layouts, width, height, orders);
      r.Success? && |r.value| == |layouts| && multiset(r.value) == multiset(Relabelled(layouts, lo))
  {
    ArrangedPermutes(layouts, lo);
  }

  /** The indices of the layouts that received no rank. */
  function UnrankedIndices(lo: seq<seq<int>>): set<nat> {
    set i: nat | i < |lo| && |lo[i]| == 0
  }

  /** Read without the unranked layouts, `sort`'s result is the ranked layouts stably sorted by median rank. */
  lemma RankedInMedianOrder(layouts: seq<Layout>, lo: seq<seq<int>>)
    requires |lo| == |layouts|
    ensures Without(ArrangedEntries(layouts, lo), UnrankedIndices(lo))
         == SortBy(Split(Relabelled(layouts, lo), Ranked(lo), true), ByMedian(MeanOrders(lo)))
    ensures Sorted(Without(ArrangedEntries(layouts, lo), UnrankedIndices(lo)), ByMedian(MeanOrders(lo)))
  {
    var rl := Relabelled(layouts, lo);
    var flags := Ranked(lo);
    var placed := Split(rl, flags, true);
    var sorted := SortBy(placed, ByMedian(MeanOrders(lo)));
    var empty := Split(rl, flags, false);
    var ks := UnrankedIndices(lo);
    forall j | 0 <= j < |sorted|
      ensures sorted[j].0 !in ks
    {
      assert sorted[j] in multiset(placed);
    }
    ReinsertAllRestores(sorted, empty, ks);
    ByMedianIsTotalPreorder(MeanOrders(lo));
    SortBySorted(placed, ByMedian(MeanOrders(lo)));
  }

  /** The median key of a ranked layout lies between its smallest and largest rank. */
  lemma MedianWithinRanks(lo: seq<seq<int>>, i: nat)
    requires i < |lo| && |lo[i]| > 0
    ensures exists a :: 0 <= a < |lo[i]| && (lo[i][a] as real) <= MeanOrders(lo)[i]
    ensures exists b :: 0 <= b < |lo[i]| && MeanOrders(lo)[i] <= (lo[i][b] as real)
  {
    var rs := Map(IntToReal, lo[i]);
    var a :| 0 <= a < |rs| && rs[a] <= Median(rs);
    var b :| 0 <= b < |rs| && Median(rs) <= rs[b];
    assert (lo[i][a] as real) <= MeanOrders(lo)[i];
    assert MeanOrders(lo)[i] <= (lo[i][b] as real);
  }

  /** `layout_orders` flattened, layout by layout. */
  function Flatten(lo: seq<seq<int>>): seq<int>
    decreases |lo|
  {
    if lo == [] then [] else Flatten(lo[..|lo| - 1]) + lo[|lo| - 1]
  }

  lemma {:induction false} FlattenEmpty(lo: seq<seq<int>>)
    requires forall i :: 0 <= i < |lo| ==> lo[i] == []
    ensures Flatten(lo) == []
    decreases |lo|
  {
    if lo != [] {
      FlattenEmpty(lo[..|lo| - 1]);
    }
  }

  lemma {:induction false} FlattenAppend(lo: seq<seq<int>>, j: nat, o: int)
    requires j < |lo|
    ensures multiset(Flatten(lo[j := lo[j] + [o]])) == multiset(Flatten(lo)) + multiset{o}
    decreases |lo|
  {
    var n := |lo| - 1;
    var lo' := lo[j := lo[j] + [o]];
    UpdatePrefix(lo, j, lo[j] + [o], n);
    if j == n {
      assert Flatten(lo') == Flatten(lo[..n]) + (lo[n] + [o]);
      assert Flatten(lo) == Flatten(lo[..n]) + lo[n];
    } else {
      FlattenAppend(lo[..n], j, o);
      assert Flatten(lo') == Flatten(lo[..n][j := lo[j] + [o]]) + lo[n];
      assert Flatten(lo) == Flatten(lo[..n]) + lo[n];
    }
  }

  /** Updating an entry, then taking a prefix, is taking the prefix, then updating. */
  lemma UpdatePrefix<T>(s: seq<T>, j: int, v: T, n: int)
    requires 0 <= j < |s| && 0 <= n <= |s|
    ensures j < n ==> s[j := v][..n] == s[..n][j := v]
    ensures j >= n ==> s[j := v][..n] == s[..n]
  {
  }

  /** The zip drops no rank and invents none: the lists hold exactly the first `m` ranks. */
  lemma {:induction false} RanksConserved(n: nat, orders: seq<int>, boxes: seq<BBox>, m: nat)
    requires m <= |orders| && m <= |boxes|
    requires forall k :: 0 <= k < |boxes| ==> boxes[k].layoutIndex < n
    ensures multiset(Flatten(RanksUpTo(n, orders, boxes, m))) == multiset(orders[..m])
  {
    if m == 0 {
      FlattenEmpty(RanksUpTo(n, orders, boxes, 0));
    } else {
      assert orders[..m] == orders[..m - 1] + [orders[m - 1]];
      RanksConserved(n, orders, boxes, m - 1);
      var before := RanksUpTo(n, orders, boxes, m - 1);
      var j := boxes[m - 1].layoutIndex;
      forall i | 0 <= i < n
        ensures RanksUpTo(n, orders, boxes, m)[i] == before[j := before[j] + [orders[m - 1]]][i]
      {
        assert RanksOf(i, orders, boxes, m) == RanksOf(i, orders, boxes, m - 1) + (if j == i then [orders[m - 1]] else []);
      }
      assert RanksUpTo(n, orders, boxes, m) == before[j := before[j] + [orders[m - 1]]];
      FlattenAppend(before, j, orders[m - 1]);
    }
  }

  /** Every rank in a layout's list is the rank of one of that layout's boxes. */
  lemma {:induction false} RanksFromOwnBoxes(i: nat, orders: seq<int>, boxes: seq<BBox>, m: nat, k: nat)
    requires m <= |orders| && m <= |boxes|
    requires k < |RanksOf(i, orders, boxes, m)|
    ensures exists p :: 0 <= p < m && boxes[p].layoutIndex == i && orders[p] == RanksOf(i, orders, boxes, m)[k]
    decreases m
  {
    var before := RanksOf(i, orders, boxes, m - 1);
    if k < |before| {
      RanksFromOwnBoxes(i, orders, boxes, m - 1, k);
      var p :| 0 <= p < m - 1 && boxes[p].layoutIndex == i && orders[p] == before[k];
      assert RanksOf(i, orders, boxes, m)[k] == before[k];
    } else {
      assert boxes[m - 1].layoutIndex == i && RanksOf(i, orders, boxes, m)[k] == orders[m - 1];
    }
  }

  /** A plain-text layout with fragments gives one real box per fragment, each bounding its fragment tightly. */
  lemma PlainLayoutBoxes(layout: Layout, layoutIndex: nat, lineHeight: real, width: int, height: int)
    requires HasFragmentBoxes(layout)
    ensures var r := LayoutBBoxes(layout, layoutIndex, lineHeight, width, height);
      && r.Success? && |r.value| == |layout.fragments|
      && forall j :: 0 <= j < |r.value| ==>
           && r.value[j].layoutIndex == layoutIndex && r.value[j].fragmentIndex == j && !r.value[j].virtual
           && (forall p :: p in Points(layout.fragments[j].rect) ==> Contains(r.value[j].value, p))
           && Attained(r.value[j].value, Points(layout.fragments[j].rect))
  {
    forall j | 0 <= j < |layout.fragments| {
      WrapperIsTightest(layout.fragments[j].rect);
    }
  }

  /** Box `b` is the real box of fragment `j` of layout `i`. */
  predicate OwnBox(b: BBox, i: nat, j: int) {
    b.layoutIndex == i && b.fragmentIndex == j && !b.virtual
  }

  /** The position of the first of the first `m` boxes that is fragment `j`'s own box. */
  function FirstOwnBox(i: nat, j: int, boxes: seq<BBox>, m: nat): (p: Option<nat>)
    requires m <= |boxes|
    ensures p.Some? ==> p.value < m && OwnBox(boxes[p.value], i, j)
    ensures p.None? ==> forall q :: 0 <= q < m ==> !OwnBox(boxes[q], i, j)
    decreases m
  {
    if m == 0 then None
    else
      match FirstOwnBox(i, j, boxes, m - 1)
      case Some(p) => Some(p)
      case None => if OwnBox(boxes[m - 1], i, j) then Some(m - 1) else None
  }

  /** Corrected renumbering: each fragment of layout `i` takes the rank of its own box, found by `fragment_index`. */
  function RelabelByBox(layout: Layout, i: nat, orders: seq<int>, boxes: seq<BBox>): (r: Layout)
    ensures r == layout.(fragments := r.fragments) && |r.fragments| == |layout.fragments|
    ensures forall k :: 0 <= k < |r.fragments| ==> r.fragments[k] == layout.fragments[k].(order := r.fragments[k].order)
  {
    var fs := layout.fragments;
    var m := MinOf(|orders|, |boxes|);
    layout.(fragments := seq(|fs|, k requires 0 <= k < |fs| =>
      match FirstOwnBox(i, k, boxes, m)
      case Some(p) => fs[k].(order := orders[p])
      case None => fs[k]))
  }

  /** Under the corrected renumbering a fragment with a ranked box gets that box's rank, and any other fragment keeps its order. */
  lemma RelabelByBoxTakesOwnRank(layout: Layout, i: nat, orders: seq<int>, boxes: seq<BBox>, k: nat)
    requires k < |layout.fragments|
    ensures var m := MinOf(|orders|, |boxes|);
      var r := RelabelByBox(layout, i, orders, boxes);
      && ((exists p :: 0 <= p < m && OwnBox(boxes[p], i, k)) ==>
            exists p :: 0 <= p < m && OwnBox(boxes[p], i, k) && r.fragments[k].order == orders[p])
      && ((forall p :: 0 <= p < m ==> !OwnBox(boxes[p], i, k)) ==> r.fragments[k] == layout.fragments[k])
  {
    var m := MinOf(|orders|, |boxes|);
    match FirstOwnBox(i, k, boxes, m)
    case Some(p) =>
      assert RelabelByBox(layout, i, orders, boxes).fragments[k].order == orders[p];
    case None =>
  }

  /** The layout of the first-line-indented paragraph below. */
  function IndentedParagraph(): Layout {
    Paragraph([IndentedLine(), SecondLine()])
  }

  function Paragraph(fragments: seq<OCRFragment>): Layout {
    PlainLayout(AxisRect(Box(50.0, 10.0, 500.0, 40.0)), fragments, PlainText)
  }

  function IndentedLine(): OCRFragment {
    OCRFragment(0, "first", 1.0, AxisRect(Box(100.0, 10.0, 500.0, 20.0)))
  }

  function SecondLine(): OCRFragment {
    OCRFragment(1, "second", 1.0, AxisRect(Box(50.0, 30.0, 500.0, 40.0)))
  }

  /** The scorer sees the second line's box first, because it starts further left. */
  lemma IndentedParagraphBoxes()
    ensures CollectBBoxes([IndentedParagraph()], LineHeightOf([IndentedParagraph()]), 1000, 1000)
         == Success([BBox(0, 0, false, Box(100.0, 10.0, 500.0, 20.0)), BBox(0, 1, false, Box(50.0, 30.0, 500.0, 40.0))])
    ensures ScorerBoxes(FragmentBBoxes(IndentedParagraph(), 0), 1000, 1000)
         == [BBox(0, 1, false, Box(50.0, 30.0, 500.0, 40.0)), BBox(0, 0, false, Box(100.0, 10.0, 500.0, 20.0))]
  {
    IndentedFragmentBoxes();
    IndentedCollectBoxes();
    IndentedScaledBoxes();
    IndentedSortedBoxes();
  }

  lemma IndentedSortedBoxes()
    ensures SortBy([BBox(0, 0, false, Box(100.0, 10.0, 500.0, 20.0)), BBox(0, 1, false, Box(50.0, 30.0, 500.0, 40.0))], BBoxLe)
         == [BBox(0, 1, false, Box(50.0, 30.0, 500.0, 40.0)), BBox(0, 0, false, Box(100.0, 10.0, 500.0, 20.0))]
  {
    var b0 := BBox(0, 0, false, Box(100.0, 10.0, 500.0, 20.0));
    var b1 := BBox(0, 1, false, Box(50.0, 30.0, 500.0, 40.0));
    assert [b0, b1][1..] == [b1];
    assert SortBy([b1], BBoxLe) == [b1];
    assert !BBoxLe(b0, b1);
  }

  lemma IndentedFragmentBoxes()
    ensures FragmentBBoxes(IndentedParagraph(), 0)
         == [BBox(0, 0, false, Box(100.0, 10.0, 500.0, 20.0)), BBox(0, 1, false, Box(50.0, 30.0, 500.0, 40.0))]
  {
    WrapperOfAxisRect(Box(100.0, 10.0, 500.0, 20.0));
    WrapperOfAxisRect(Box(50.0, 30.0, 500.0, 40.0));
  }

  lemma IndentedCollectBoxes()
    requires FragmentBBoxes(IndentedParagraph(), 0)
         == [BBox(0, 0, false, Box(100.0, 10.0, 500.0, 20.0)), BBox(0, 1, false, Box(50.0, 30.0, 500.0, 40.0))]
    ensures CollectBBoxes([IndentedParagraph()], LineHeightOf([IndentedParagraph()]), 1000, 1000)
         == Success(FragmentBBoxes(IndentedParagraph(), 0))
  {
    var bs := FragmentBBoxes(IndentedParagraph(), 0);
    var lineHeight := LineHeightOf([IndentedParagraph()]);
    assert HasFragmentBoxes(IndentedParagraph());
    assert [IndentedParagraph()][..0] == [];
    assert CollectBBoxes([], lineHeight, 1000, 1000) == Success([]);
    assert LayoutBBoxes(IndentedParagraph(), 0, lineHeight, 1000, 1000) == Success(bs);
    assert [] + bs == bs;
  }

  lemma IndentedScaledBoxes()
    ensures ScaleBoxes([BBox(0, 0, false, Box(100.0, 10.0, 500.0, 20.0)), BBox(0, 1, false, Box(50.0, 30.0, 500.0, 40.0))], 1000, 1000)
         == [BBox(0, 0, false, Box(100.0, 10.0, 500.0, 20.0)), BBox(0, 1, false, Box(50.0, 30.0, 500.0, 40.0))]
  {
    assert LayoutReaderSize / (1000 as real) == 1.0;
    assert ScaledBox(Box(100.0, 10.0, 500.0, 20.0), 1000, 1000) == Box(100.0, 10.0, 500.0, 20.0);
    assert ScaledBox(Box(50.0, 30.0, 500.0, 40.0), 1000, 1000) == Box(50.0, 30.0, 500.0, 40.0);
  }

  /** The scorer's ranks `[1, 0]` all go to the paragraph, in the scorer's box order. */
  lemma IndentedParagraphRanks()
    ensures LayoutOrdersOf([IndentedParagraph()], 1000, 1000, [1, 0]) == Success(Some([[1, 0]]))
  {
    IndentedParagraphBoxes();
    var boxes := [BBox(0, 1, false, Box(50.0, 30.0, 500.0, 40.0)), BBox(0, 0, false, Box(100.0, 10.0, 500.0, 20.0))];
    assert RanksOf(0, [1, 0], boxes, 2) == [1, 0];
    assert CollectedRanks(1, [1, 0], boxes) == [[1, 0]];
  }

  /**
   * The zip in `sort` ignores `fragment_index`: when the scorer ranks the
   * indented first line 0 and the second line 1 (ranks `[1, 0]` for its boxes
   * in the order above), `sort` gives the first line rank 1 and the second
   * rank 0, reversing the paragraph.
   */
  lemma SwappedRanksAsWritten()
    ensures SortOf([IndentedParagraph()], 1000, 1000, [1, 0])
         == Success([Paragraph([IndentedLine().(order := 1), SecondLine().(order := 0)])])
  {
    IndentedParagraphRanks();
    IndentedParagraphArranged();
    var relabelled := Paragraph([IndentedLine().(order := 1), SecondLine().(order := 0)]);
    assert Values([(0, relabelled)]) == [relabelled];
  }

  lemma IndentedParagraphArranged()
    ensures ArrangedEntries([IndentedParagraph()], [[1, 0]])
         == [(0, Paragraph([IndentedLine().(order := 1), SecondLine().(order := 0)]))]
  {
    var layout := IndentedParagraph();
    var lo := [[1, 0]];
    var relabelled := Paragraph([IndentedLine().(order := 1), SecondLine().(order := 0)]);
    assert Relabel(layout, [1, 0]).fragments == relabelled.fragments;
    assert Relabelled([layout], lo) == [relabelled];
    assert Ranked(lo) == [true];
    assert [relabelled][..0] == [] && [true][..0] == [];
    assert Split([relabelled], [true], true) == [(0, relabelled)];
    assert Split([relabelled], [true], false) == [];
  }

  /** On the same page the corrected renumbering keeps the paragraph in order. */
  lemma IndentedParagraphByBox()
    ensures RelabelByBox(IndentedParagraph(), 0, [1, 0], ScorerBoxes(FragmentBBoxes(IndentedParagraph(), 0), 1000, 1000)).fragments
         == [IndentedLine().(order := 0), SecondLine().(order := 1)]
  {
    IndentedParagraphBoxes();
    var boxes := [BBox(0, 1, false, Box(50.0, 30.0, 500.0, 40.0)), BBox(0, 0, false, Box(100.0, 10.0, 500.0, 20.0))];
    assert FirstOwnBox(0, 0, boxes, 2) == Some(1);
    assert FirstOwnBox(0, 1, boxes, 2) == Some(0);
  }
}
