# doc_page_extractor — a verified model of the page-layout core

`doc_page_extractor` turns a scanned document page into an ordered list of
layouts: regions classified as title, plain text, figure, table, formula and
so on, each holding the OCR text fragments that fall inside it. This project
models, in Dafny, the geometric and ordering core of that pipeline:

- the page data model (OCR fragments, layout classes, plain and formula
  layouts) and the quadrilateral `Rectangle` with its corner order, edges,
  axis-aligned wrapper box and size;
- the overlap rates used to merge one layout into another, and the
  merge-and-drop pass `remove_overlap_layouts`;
- the page skew estimate `calculate_rotation` (per-fragment edge angles,
  medians, the vertical/horizontal split);
- the clipping helpers (crop size from edge lengths, affine matrices, the
  bounding box of a warped rectangle);
- reading order: the heuristic `order2` ordering (top-line sort, consecutive
  fragment numbering, the re-insertion of empty layouts) and the
  `LayoutOrder.sort` path (reader boxes, virtual lines, squeeze and scale to
  the reader's 0..1000 grid, lexicographic box sort, collection of the
  reader's ranks per layout, median sort and the same re-insertion);
- the response-to-layout pairing of the DeepSeek extractor
  (`_parse_response`, `extract`);
- the round-robin resource pool `ResourceLocks` and the memoising
  `lazy_load` getter.

Python's in-place mutations of layout and fragment objects become functions
and methods that return the new values. Python's `list.sort` and `sorted`
become one stable insertion sort, `Sorting.SortBy`, with its sortedness,
permutation and stability proved once. `math.atan2`, `math.pi` and
`math.sqrt` are function parameters constrained by predicates, since Dafny
has no trigonometry. The neural reading-order model is represented by the
list of ranks it returns, which is a parameter. Floats are Dafny `real`s.

Every operation is specified by a function, and the methods that mirror the
source's loops are proved equal to it. The lemmas then prove what the source
promises about those functions:

- sorting is a permutation, and is sorted and stable;
- re-insertion puts each empty layout right after the largest smaller index
  and leaves the non-empty layouts in their relative order;
- the overlap pass keeps every fragment and the order of the survivors;
- virtual lines tile the layout's box;
- scaled boxes land on the whole-number reader grid;
- every rank is collected exactly once;
- extracted pairs come out in input order and each is drawn from the input;
- the lock scan visits each resource once and finds a free one iff one
  exists;
- a lazy getter returns the first loaded value forever after.

Two things are used but not defined in `rectangle.py`: `Rectangle.wrapper`
and `Rectangle.size`. `wrapper` is modelled as the min/max box over the four
corners, `Rectangles.Wrapper`, proved to be the tightest box containing them
(`Rectangles.WrapperIsTightest`). `size` is modelled as that box's width and
height. `clipper.py` imports `calculate_rotation_with_rect`, which
`rotation.py` does not define, so `clip` and `clip_from_image` are left out.
Layout rectangles are quadrilaterals, and `overlap.py` and `utils.py` hand
them to Shapely as they are; only the normaliser in `utils.py` reads their
`.wrapper`. The model computes every Shapely polygon and intersection on the
rectangles' axis-aligned wrapper boxes. The two agree on axis-aligned
rectangles; skewed quadrilaterals are left out.

## Model

| member | source | states |
|---|---|---|
| Types.ClassId | doc_page_extractor/types.py:14-24 | each layout class has an enum value below 10 |
| Types.ClassOf | doc_page_extractor/types.py:14-24 | `LayoutClass(id)`: defined exactly for 0..9, and then the member whose value is `id` |
| Types.ClassIdIsBijective | doc_page_extractor/types.py:14-24 | value and lookup are mutually inverse: the ten classes are numbered 0..9 without gaps or repeats |
| Types.Layout.Class | doc_page_extractor/types.py:31-50 | a layout is ISOLATE_FORMULA exactly when it is a formula layout, otherwise it carries its plain class |
| Types.AllFragmentsAppend | doc_page_extractor/order2.py:132-134 | iterating the fragments of two layout lists in turn is iterating those of their concatenation |
| Rectangles.SegmentsFollowPoints | doc_page_extractor/rectangle.py:15-26 | there are four corners and four edges, and edge k runs from corner k to corner k+1 (mod 4) in the iteration order lt, lb, rb, rt |
| Rectangles.SegmentsFormClosedLoop | doc_page_extractor/rectangle.py:21-26 | each edge ends where the next begins, and the last returns to the first |
| Rectangles.Bounds | doc_page_extractor/overlap.py:57-67 | the min/max accumulator over a non-empty point list gives a box that contains every point and whose four sides are each attained by some point |
| Rectangles.ScanBounds | doc_page_extractor/overlap.py:58-66 | the imperative min/max loop computes that box |
| Rectangles.Wrapper | doc_page_extractor/utils.py:38 | a rectangle's wrapper is a well-formed box (left ≤ right, top ≤ bottom) |
| Rectangles.WrapperIsBounds | doc_page_extractor/order2.py:119-129 | the wrapper is the min/max box of the four corners |
| Rectangles.WrapperIsTightest | doc_page_extractor/order2.py:124-128 | the wrapper contains all four corners and each of its sides touches one |
| Rectangles.Size | doc_page_extractor/layout_order.py:141 | `rect.size` has a non-negative width and height |
| Rectangles.WrapperOfAxisRect | doc_page_extractor/rectangle.py:8-13 | the rectangle whose corners are those of a box wraps back to exactly that box |
| Rectangles.BoundsOfExterior | doc_page_extractor/overlap.py:62-67 | the min/max box over a box's exterior ring is the box itself |
| Rectangles.IntersectIsCommonPart | doc_page_extractor/rectangle.py:32-38 | two boxes intersect iff they share a point, and the intersection holds exactly their common points |
| Rectangles.IntersectInside | doc_page_extractor/rectangle.py:35 | the intersection lies inside both boxes |
| Rectangles.IntersectIsSymmetric | doc_page_extractor/rectangle.py:35 | intersection does not depend on argument order |
| EdgeSums.ParitySumOfFour | doc_page_extractor/rotation.py:47-51 | over four edge values, the even-index sum is edges 0 + 2 and the odd-index sum is edges 1 + 3 |
| Utils.IsSpaceText | doc_page_extractor/utils.py:12-13 | `re.match(r"^\s*$", text)` succeeds iff some all-whitespace prefix reaches the end of the text, i.e. the text is all whitespace |
| Utils.NoMatchPastNonSpace | doc_page_extractor/utils.py:12-13 | one non-whitespace character anywhere defeats the pattern |
| Utils.OverlapRatio | doc_page_extractor/utils.py:19-40 | the overlap rate normalised by rect1 is in 0..1 whenever it is defined; disjoint boxes rate 0, and an intersection that is only a segment or a point (no exterior ring) is a failure |
| Utils.RatioAtMostOne | doc_page_extractor/utils.py:40 | a part over a whole is in (0, 1] and is 1 only when they are equal |
| Utils.OverlapRate | doc_page_extractor/utils.py:19-40 | the loop version computes the overlap rate |
| Utils.ExteriorExtent | doc_page_extractor/utils.py:26-37 | the accumulator over the intersection's exterior gives its width and height |
| Utils.WrapperCorners | doc_page_extractor/utils.py:38 | unpacking `rect1.wrapper` gives its four sides |
| Utils.OverlapRatioIsOneIffInside | doc_page_extractor/utils.py:19-40 | the rate is exactly 1 iff rect1 lies inside rect2 |
| Utils.RatesAreMirrored | doc_page_extractor/utils.py:38-40 | `utils.overlap_rate(a, b)` equals `overlap.overlap_rate(b, a)`: the two modules normalise by opposite arguments |
| Utils.OverlapRatioOfItself | doc_page_extractor/utils.py:19-40 | a box with area overlaps itself at rate 1 |
| Overlap.PolygonSize | doc_page_extractor/overlap.py:57-67 | `_polygon_size` returns the non-negative width and height of the points' bounding box |
| Overlap.OverlapRatio | doc_page_extractor/overlap.py:48-55 | the overlap rate normalised by polygon2 is in 0..1 whenever it is defined |
| Overlap.RatioBounds | doc_page_extractor/overlap.py:55 | each normalised extent is in (0, 1] |
| Overlap.OverlapRate | doc_page_extractor/overlap.py:48-55 | the method computes that rate |
| Overlap.BoxPolygonSize | doc_page_extractor/overlap.py:54 | the size of a box polygon is its width and height |
| Overlap.Neighbours | doc_page_extractor/overlap.py:17-27 | the collected indexes are all in range |
| Overlap.NeighboursAreCollected | doc_page_extractor/overlap.py:17-27 | j is collected iff layout j differs from layout i, is not removed and has a positive rate; the indexes come out increasing |
| Overlap.MembersAreElements | doc_page_extractor/overlap.py:35 | `removed_indexes.update(...)` adds exactly the listed indexes |
| Overlap.Visit | doc_page_extractor/overlap.py:8-37 | one outer turn only grows the removed set and keeps the list length; a removed layout is skipped |
| Overlap.VisitChangesOnlyFragmentsOfI | doc_page_extractor/overlap.py:29-37 | one turn changes no layout but layout i, whose rectangle, class and LaTeX stay as they were |
| Overlap.Pass | doc_page_extractor/overlap.py:8-37 | the outer loop keeps the list length |
| Overlap.RemoveOverlapLayouts | doc_page_extractor/overlap.py:4-42 | the two nested loops compute the merge pass followed by the survivor filter |
| Overlap.CollectIncludes | doc_page_extractor/overlap.py:13-27 | the inner loop's three parallel lists are the collected indexes, their layouts and their rates, in step |
| Overlap.ExtendFragments | doc_page_extractor/overlap.py:36-37 | extending layout i's fragments appends the included layouts' fragments in order |
| Overlap.KeepSurvivors | doc_page_extractor/overlap.py:39-42 | the comprehension keeps exactly the layouts whose index was not removed |
| Overlap.KeptFragmentsOfSurvivors | doc_page_extractor/overlap.py:39-42 | the fragments of the surviving layouts are the fragments of the unremoved indexes |
| Overlap.KeptFragmentsRemoveAll | doc_page_extractor/overlap.py:35 | removing a list of layouts takes away exactly their fragments |
| Overlap.KeptFragmentsExtend | doc_page_extractor/overlap.py:36-37 | extending an unremoved layout adds exactly the new fragments |
| Overlap.VisitKeepsFragments | doc_page_extractor/overlap.py:29-37 | one turn neither loses nor duplicates a fragment of the unremoved layouts: what it removes it moves into layout i |
| Overlap.PassKeepsFragments | doc_page_extractor/overlap.py:8-37 | the whole pass keeps the multiset of fragments of the unremoved layouts |
| Overlap.PassKeepsShapes | doc_page_extractor/overlap.py:8-37 | the pass changes no layout's rectangle, class or LaTeX |
| Overlap.SurvivorsOfNone | doc_page_extractor/overlap.py:39-42 | with nothing removed every layout survives |
| Overlap.RemoveOverlapKeepsFragments | doc_page_extractor/overlap.py:4-42 | the result holds exactly the fragments of the input page, each as often as before |
| Overlap.KeptIndexes | doc_page_extractor/overlap.py:39-42 | the unremoved indexes, in increasing order |
| Overlap.SurvivorsAtKeptIndexes | doc_page_extractor/overlap.py:39-42 | the m-th survivor is the layout at the m-th unremoved index |
| Overlap.RemoveOverlapKeepsOrder | doc_page_extractor/overlap.py:4-42 | the survivors come in input order, each with its original rectangle, class and LaTeX |
| Overlap.PassWithoutOverlap | doc_page_extractor/overlap.py:24-30 | when no rate is positive, the pass changes nothing and removes nothing |
| Overlap.VisitWithoutNeighbours | doc_page_extractor/overlap.py:29-30 | a layout with nothing collected is left alone |
| Overlap.RemoveOverlapWithoutOverlap | doc_page_extractor/overlap.py:4-42 | a page without overlapping layouts is returned unchanged |
| Rotation.EdgeAngleRange | doc_page_extractor/rotation.py:40-42 | an edge angle after adding pi to negative atan2 values lies in [0, pi] (in [0, pi) under the mod-pi rule) |
| Rotation.AnglesOfEdges | doc_page_extractor/rotation.py:35-43 | the angle list is missing iff some edge has zero length, and otherwise holds one angle per edge |
| Rotation.RotationPair | doc_page_extractor/rotation.py:57 | the per-fragment pair is ordered (min, max) |
| Rotation.RotationPairOfCorners | doc_page_extractor/rotation.py:33-57 | the pair is None iff an edge is degenerate, and otherwise is the min and max of the mean of the two vertical edges and the mean of the two horizontal edges |
| Rotation.RotationPairRange | doc_page_extractor/rotation.py:45-57 | both components of the pair lie in [0, pi] |
| Rotation.PairsOfFragments | doc_page_extractor/rotation.py:9-14 | every collected pair is the pair of some fragment |
| Rotation.Firsts | doc_page_extractor/rotation.py:12-13 | `rotations0` holds the first components |
| Rotation.Seconds | doc_page_extractor/rotation.py:12-14 | `rotations1` holds the second components |
| Rotation.Orientation | doc_page_extractor/rotation.py:21-26 | the vertical median is the one closer to pi/2, ties going to the second median |
| Rotation.SkewRange | doc_page_extractor/rotation.py:28-31 | for angles in [0, pi] the skew lies in (-pi/2, pi/2] |
| Rotation.RotationWithoutPairs | doc_page_extractor/rotation.py:16-17 | a page where no fragment yields a pair has rotation 0 |
| Rotation.RotationRange | doc_page_extractor/rotation.py:5-31 | the page rotation always lies in (-pi/2, pi/2] |
| Rotation.RotationWith | doc_page_extractor/rotation.py:33-57 | the loop version of `_rotation_with` computes the pair |
| Rotation.FindMedian | doc_page_extractor/rotation.py:59-68 | sorts the array in place into the stable sorted order of its old contents and returns their median |
| Rotation.CalculateRotation | doc_page_extractor/rotation.py:5-31 | the loop version computes the page rotation |
| Rotation.UprightPairAsWritten | doc_page_extractor/rotation.py:40-42 | as written, an upright axis-aligned fragment yields the pair (pi/2, pi/2) |
| Rotation.UprightPairModPi | doc_page_extractor/rotation.py:40-42 | with angles taken mod pi, the same fragment yields (0, pi/2) |
| Rotation.PairsOfEqualPairs | doc_page_extractor/rotation.py:9-14 | fragments that all yield one pair give a list of that pair |
| Rotation.UprightPageAsWritten | doc_page_extractor/rotation.py:5-57 | as written, a page of upright fragments gets rotation pi/4 |
| Rotation.UprightPageModPi | doc_page_extractor/rotation.py:5-57 | with angles taken mod pi, a page of upright fragments gets rotation 0 |
| Clipper.Ceil | doc_page_extractor/clipper.py:42 | `ceil(x)` is the integer c with c - 1 < x ≤ c |
| Clipper.CeilIsLeast | doc_page_extractor/clipper.py:42 | no integer at or above x is below `ceil(x)` |
| Clipper.DistanceIsNonNegative | doc_page_extractor/clipper.py:35-37 | edge lengths are never negative |
| Clipper.DistanceAlongAxis | doc_page_extractor/clipper.py:35-37 | an axis-parallel edge's length is the absolute coordinate difference |
| Clipper.EdgeLengths | doc_page_extractor/clipper.py:34-37 | one length per rectangle edge, in edge order |
| Clipper.SizeOfCorners | doc_page_extractor/clipper.py:30-42 | the crop width is the ceiling of the mean length of edges lb→rb and rt→lt, the height that of lt→lb and rb→rt, both non-negative |
| Clipper.SizeOfAxisRect | doc_page_extractor/clipper.py:30-42 | an axis-aligned rectangle's crop size is the ceiling of its width and height |
| Clipper.SizeWithRect | doc_page_extractor/clipper.py:30-42 | the loop over the edges computes that size |
| Clipper.MoveMatrix | doc_page_extractor/clipper.py:76-81 | the move matrix is the identity with (dx, dy) in the last column |
| Clipper.TransformPointScales | doc_page_extractor/clipper.py:68-74 | the transformed point times z is the first two rows of the product |
| Clipper.MoveTranslates | doc_page_extractor/clipper.py:68-81 | transforming by the move matrix translates a point by (dx, dy) |
| Clipper.AffineTransform | doc_page_extractor/clipper.py:68-74 | under an affine matrix (last row 0 0 1) z is 1 and the point is the plain product |
| Clipper.ToPillowMatrix | doc_page_extractor/clipper.py:62-66 | the Pillow tuple is the first two rows, row-major |
| Clipper.Warped | doc_page_extractor/clipper.py:49-50 | the warped corners are the four corners transformed, in iteration order |
| Clipper.Warp | doc_page_extractor/clipper.py:44-60 | the origin is the least x and the least y of the warped corners, each attained; origin plus size covers every corner, and some corner lies beyond origin plus size minus one on each axis, so width and height are the ceilings of the warped extents |
| Clipper.WarpRectangle | doc_page_extractor/clipper.py:44-60 | the min/max loop and the two `ceil`s compute that origin and size |
| Clipper.WarpedBounds | doc_page_extractor/clipper.py:45-55 | after the loop, left, top, right and bottom are the bounds of the transformed corners |
| Sorting.Insert | doc_page_extractor/order2.py:61 | inserting adds exactly one element |
| Sorting.SortBy | doc_page_extractor/order2.py:61 | `list.sort(key=...)` returns a permutation of its input |
| Sorting.InsertSorted | doc_page_extractor/order2.py:61 | inserting into a sorted list under a total preorder keeps it sorted |
| Sorting.SortBySorted | doc_page_extractor/order2.py:61 | the sort's output is sorted under any total preorder |
| Sorting.InsertStable | doc_page_extractor/layout_order.py:60 | insertion keeps the relative order of equal keys |
| Sorting.SortByStable | doc_page_extractor/layout_order.py:60 | the sort is stable: elements with equal keys keep their input order |
| Sorting.RealLeIsTotalPreorder | doc_page_extractor/rotation.py:60 | `<=` on floats is a total preorder |
| Sorting.Median | doc_page_extractor/layout_order.py:201-213 | the median lies between two elements of the list |
| Sorting.MedianOfConstant | doc_page_extractor/rotation.py:59-68 | the median of a constant list is that constant |
| Sorting.Map | doc_page_extractor/layout_order.py:125 | a comprehension maps each element in place |
| Sorting.MapPermutes | doc_page_extractor/layout_order.py:125 | mapping preserves permutations |
| Sorting.SortByMap | doc_page_extractor/order2.py:24 | sorting by a key and then projecting equals projecting and then sorting by the projected key |
| Reinsertion.Values | doc_page_extractor/order2.py:88 | the final comprehension drops the indexes and keeps the layouts in order |
| Reinsertion.MaxLessPos | doc_page_extractor/order2.py:74-81 | the inner scan finds the first position of the largest original index below i, or -1 when there is none |
| Reinsertion.InsertEmpty | doc_page_extractor/order2.py:83-86 | re-inserting one empty layout adds exactly that entry |
| Reinsertion.InsertEmptyPlacement | doc_page_extractor/order2.py:73-86 | the entry goes first when no placed index is smaller, else right after the first entry carrying the largest smaller index |
| Reinsertion.Reinsert | doc_page_extractor/order2.py:73-86 | the loop over the empty layouts computes that re-insertion |
| Reinsertion.InsertEntry | doc_page_extractor/order2.py:74-86 | one turn of that loop inserts the empty layout where InsertEmpty places it |
| Reinsertion.FindMaxLess | doc_page_extractor/order2.py:74-81 | the inner scan yields that first position of the largest smaller index, and reports whether there is one |
| Reinsertion.ReinsertAllPermutes | doc_page_extractor/order2.py:73-86 | re-insertion loses and duplicates nothing |
| Reinsertion.InsertKeepsIncreasing | doc_page_extractor/order2.py:73-86 | re-inserting into an index-ordered list keeps it index-ordered |
| Reinsertion.ReinsertAllKeepsIncreasing | doc_page_extractor/order2.py:73-86 | when the placed layouts are already in index order, re-insertion restores the plain index order |
| Reinsertion.ReinsertAllRestores | doc_page_extractor/order2.py:73-86 | removing the re-inserted entries gives back the sorted list: their relative order is untouched |
| Reinsertion.Split | doc_page_extractor/order2.py:66-70 | the split keeps, in index order, exactly the enumerated layouts whose flag matches |
| Reinsertion.SplitSizes | doc_page_extractor/order2.py:66-70 | the two halves of the split together are as long as the list |
| Reinsertion.EntriesAreEnumeration | doc_page_extractor/order2.py:66-88 | an index-ordered list of all enumerated entries is the enumeration |
| Reinsertion.ReinsertAllEntries | doc_page_extractor/order2.py:73-86 | every entry still pairs an index with the layout found at that index |
| Order2.KeysArePreorders | doc_page_extractor/order2.py:24 | sorting by the top line (`lt.y + rt.y`) is a total preorder on fragments and on layouts |
| Order2.Numbered | doc_page_extractor/order2.py:25-27 | numbering keeps the fragment count |
| Order2.PrimitiveOrder | doc_page_extractor/order2.py:21-27 | the primitive ordering keeps the layout count |
| Order2.OrderByPrimitiveLayouts | doc_page_extractor/order2.py:21-27 | the nested loops compute the primitive ordering |
| Order2.UnnumberedNumbered | doc_page_extractor/order2.py:25-27 | numbering changes nothing but `order` |
| Order2.PrimitiveOrderIsConsecutive | doc_page_extractor/order2.py:21-27 | over the whole page the fragments are numbered 0, 1, 2, ... in layout order, with none lost |
| Order2.PrimitiveOrderAt | doc_page_extractor/order2.py:21-27 | layout i is sorted and numbered from the count of fragments before it |
| Order2.PrimitiveOrderSortsEachLayout | doc_page_extractor/order2.py:24-27 | each layout keeps its other fields; its fragments are a stable sort of the old ones by top line, numbered consecutively from the running count |
| Order2.HasFragments | doc_page_extractor/order2.py:67 | one non-emptiness flag per layout |
| Order2.SortLayouts | doc_page_extractor/order2.py:60-88 | the loops compute sort + split + re-insertion |
| Order2.ReadingOrderIsSortByTopLine | doc_page_extractor/order2.py:60-88 | sort, split by emptiness and re-insertion together equal one top-line sort: after a stable sort the re-insertion puts every layout back where it was |
| Order2.OrderLayoutsAndFragments | doc_page_extractor/order2.py:15-19 | without a reader model the result is the numbered layouts sorted by top line |
| Order2.FragmentBoxes | doc_page_extractor/order2.py:117-130 | one box per fragment |
| Order2.GetBoxes | doc_page_extractor/order2.py:117-130 | the loop computes those boxes |
| Order2.FragmentBoxesBound | doc_page_extractor/order2.py:119-129 | each box is well-formed, contains its fragment's corners and touches them on every side |
| Order2.Hull | doc_page_extractor/order2.py:92-101 | the accumulated box contains every fragment box |
| Order2.HullAttained | doc_page_extractor/order2.py:97-101 | each side of the accumulated box is a side of some fragment box |
| Order2.HullStep | doc_page_extractor/order2.py:97-101 | one accumulator step takes the min/max with the next box |
| Order2.RateBoxesOf | doc_page_extractor/order2.py:90-115 | the generator yields nothing or one box per fragment |
| Order2.CollectRateBoxes | doc_page_extractor/order2.py:90-115 | the loops compute those normalised boxes |
| Order2.CollectRates | doc_page_extractor/order2.py:92-115 | the hull-and-normalise loops compute them from given boxes |
| Order2.RateBoxesEmptyIffFlat | doc_page_extractor/order2.py:103-107 | nothing is yielded iff there are no boxes or the hull has zero width or height |
| Order2.RateBoxesInUnitSquare | doc_page_extractor/order2.py:109-115 | every yielded box lies in the unit square with left ≤ right and top ≤ bottom |
| Order2.RateBoxesReachSides | doc_page_extractor/order2.py:109-115 | some yielded box touches each side of the unit square |
| Order2.IterFragmentsConcatenates | doc_page_extractor/order2.py:132-134 | `_iter_fragments` yields layout by layout |
| LayoutLines.FragmentHeight | doc_page_extractor/layout_order.py:141 | a fragment's height is non-negative |
| LayoutLines.Heights | doc_page_extractor/layout_order.py:139-143 | one height per fragment |
| LayoutLines.LineHeight | doc_page_extractor/layout_order.py:136-146 | the loop computes the mean fragment height, 10 on a page without fragments |
| LayoutLines.SumZeroIff | doc_page_extractor/layout_order.py:142 | a sum of non-negative heights is non-negative and zero iff every height is |
| LayoutLines.LineHeightNonNegative | doc_page_extractor/layout_order.py:136-146 | the line height is never negative |
| LayoutLines.LineHeightZeroIff | doc_page_extractor/layout_order.py:136-146 | the line height is 0 iff the page has fragments and all of them are flat |
| LayoutLines.MeanZeroIff | doc_page_extractor/layout_order.py:146 | a mean is zero iff the sum is |
| LayoutLines.SumOfEqual | doc_page_extractor/layout_order.py:142 | n equal heights sum to n times the height |
| LayoutLines.MeanOfEqual | doc_page_extractor/layout_order.py:146 | the mean of equal heights is that height |
| LayoutLines.LineHeightOfEqualHeights | doc_page_extractor/layout_order.py:136-146 | a page of equally tall fragments has that line height |
| LayoutLines.Trunc | doc_page_extractor/layout_order.py:161 | `int()` truncates toward zero |
| LayoutLines.Bands | doc_page_extractor/layout_order.py:189-199 | splitting into bands fails (ZeroDivisionError) iff the line count is 0 |
| LayoutLines.GenerateVirtualLines | doc_page_extractor/layout_order.py:148-199 | the generator's branches compute the virtual lines, with ZeroDivisionError where the source divides by zero |
| LayoutLines.EmitBands | doc_page_extractor/layout_order.py:189-199 | the band loop computes the bands |
| LayoutLines.BandsTile | doc_page_extractor/layout_order.py:189-199 | n bands share the layout's left and right, start at its top, end at its bottom, touch one another and are numbered 0..n-1 as virtual boxes of the layout |
| LayoutLines.ShortLayoutIsOneLine | doc_page_extractor/layout_order.py:163-170 | a layout at most two lines tall yields its whole box as one virtual line |
| LayoutLines.WideLayoutIsThreeLines | doc_page_extractor/layout_order.py:172-176 | a taller layout wider than 0.4 of the page is split into three lines |
| LayoutLines.TruncAtLeastTwo | doc_page_extractor/layout_order.py:161 | above 2, truncation gives at least 2 |
| LayoutLines.RatioAboveTwo | doc_page_extractor/layout_order.py:161-163 | a layout taller than two line heights has a height ratio above 2 |
| LayoutLines.VirtualLinesCover | doc_page_extractor/layout_order.py:148-199 | with a positive line height, failure needs a zero-width layout; on success the lines are virtual, belong to the layout, span its width and tile it from top to bottom |
| LayoutLines.SqueezeValue | doc_page_extractor/layout_order.py:223-228 | the squeezed position lies in [0, size] and is unchanged when it already did |
| LayoutLines.RoundHalfEven | doc_page_extractor/layout_order.py:115-118 | Python's `round` gives the nearest integer, ties to the even one |
| LayoutLines.ScaleIntoRange | doc_page_extractor/layout_order.py:109-118 | a squeezed position times 1000/size lies in [0, 1000] |
| LayoutLines.ScaledValueInRange | doc_page_extractor/layout_order.py:115-118 | rounding such a product gives a whole number in 0..1000 |
| LayoutLines.RoundedInRange | doc_page_extractor/layout_order.py:115 | rounding keeps [0, 1000] values on the whole-number grid 0..1000 |
| LayoutLines.ScaledInRange | doc_page_extractor/layout_order.py:113-118 | squeeze then scale then round lands on the grid |
| LayoutLines.ScaledBoxInRange | doc_page_extractor/layout_order.py:113-119 | all four coordinates of a scaled box are whole numbers in 0..1000 |
| LayoutOrder.FragmentBBoxes | doc_page_extractor/layout_order.py:87-93 | one reader box per fragment |
| LayoutOrder.CollectBBoxes | doc_page_extractor/layout_order.py:84-103 | every collected box names a layout of the page |
| LayoutOrder.LayoutBBoxesIndex | doc_page_extractor/layout_order.py:84-103 | the boxes of layout i all carry layout index i |
| LayoutOrder.PlainLayoutBoxes | doc_page_extractor/layout_order.py:85-93 | a non-empty plain-text layout yields box j for fragment j, real (not virtual), containing and touching that fragment's corners |
| LayoutOrder.ScaleBoxes | doc_page_extractor/layout_order.py:113-119 | scaling keeps the box count |
| LayoutOrder.BBoxLeIsTotalPreorder | doc_page_extractor/layout_order.py:121 | comparing the value tuples lexicographically is a total preorder |
| LayoutOrder.ScorerBoxesInRangeAndSorted | doc_page_extractor/layout_order.py:109-121 | the boxes handed to the reader are on the 0..1000 grid, sorted by value, and a permutation of the scaled boxes |
| LayoutOrder.RanksUpTo | doc_page_extractor/layout_order.py:130-132 | after m steps of the zip, layout i's list holds the ranks of the boxes of layout i among the first m, in order |
| LayoutOrder.CollectedRanks | doc_page_extractor/layout_order.py:130-132 | one rank list per layout |
| LayoutOrder.RanksConserved | doc_page_extractor/layout_order.py:130-132 | the collected lists together hold exactly the zipped ranks, each once |
| LayoutOrder.RanksFromOwnBoxes | doc_page_extractor/layout_order.py:131-132 | every rank in layout i's list came from a box of layout i |
| LayoutOrder.BuildBBoxes | doc_page_extractor/layout_order.py:84-103 | the loop collects the boxes, stopping at the first ZeroDivisionError |
| LayoutOrder.CollectFailurePersists | doc_page_extractor/layout_order.py:84-103 | once a prefix of the page fails, the whole collection fails with that error |
| LayoutOrder.BuildLayoutBBoxes | doc_page_extractor/layout_order.py:85-103 | the per-layout branch computes that layout's boxes |
| LayoutOrder.ScaleBBoxes | doc_page_extractor/layout_order.py:113-119 | the loop scales every box |
| LayoutOrder.ScaleBBox | doc_page_extractor/layout_order.py:114-119 | one box is squeezed, scaled and rounded |
| LayoutOrder.CollectRanks | doc_page_extractor/layout_order.py:130-132 | the zip loop computes the per-layout rank lists |
| LayoutOrder.LayoutOrders | doc_page_extractor/layout_order.py:80-134 | the method computes the rank lists: a failure propagates, more than 200 boxes give None |
| LayoutOrder.Relabel | doc_page_extractor/layout_order.py:56-57 | zipping ranks onto fragments gives fragment k the k-th rank while ranks last, keeps the rest unchanged and touches nothing but `order` |
| LayoutOrder.Relabelled | doc_page_extractor/layout_order.py:48-58 | one relabelled layout per layout |
| LayoutOrder.MeanOrders | doc_page_extractor/layout_order.py:50-58 | one median per layout |
| LayoutOrder.MedianWithinRanks | doc_page_extractor/layout_order.py:55 | a ranked layout's median lies between two of its ranks |
| LayoutOrder.Ranked | doc_page_extractor/layout_order.py:51 | one ranked/empty flag per layout |
| LayoutOrder.ByMedianIsTotalPreorder | doc_page_extractor/layout_order.py:60 | sorting by `mean_orders[x[0]]` is a total preorder |
| LayoutOrder.SortOf | doc_page_extractor/layout_order.py:35-42 | a zero page size, or more than 200 boxes, returns the layouts as given |
| LayoutOrder.Sort | doc_page_extractor/layout_order.py:35-78 | the method computes the reading order of the layouts |
| LayoutOrder.SplitByRanks | doc_page_extractor/layout_order.py:48-58 | the loop computes the medians and the ranked and empty halves of the relabelled layouts |
| LayoutOrder.ZipOrders | doc_page_extractor/layout_order.py:56-57 | the zip loop computes the relabelled layout |
| LayoutOrder.Enumerate | doc_page_extractor/layout_order.py:48 | pairs each layout with its index |
| LayoutOrder.SplitPartition | doc_page_extractor/layout_order.py:48-58 | the two halves together are the enumeration |
| LayoutOrder.ArrangedPermutes | doc_page_extractor/layout_order.py:60-78 | the arranged page is a permutation of the relabelled layouts |
| LayoutOrder.SortPermutes | doc_page_extractor/layout_order.py:35-78 | when the reader ranks the page, sort returns every relabelled layout exactly once |
| LayoutOrder.RankedInMedianOrder | doc_page_extractor/layout_order.py:60-76 | without the re-inserted empty layouts, the result is the ranked layouts stably sorted by median, and so sorted by median |
| LayoutOrder.FirstOwnBox | doc_page_extractor/layout_order.py:14-18 | finds the first box recorded for fragment j of layout i, or proves there is none |
| LayoutOrder.RelabelByBox | doc_page_extractor/layout_order.py:56-57 | the corrected zip changes nothing but `order` |
| LayoutOrder.RelabelByBoxTakesOwnRank | doc_page_extractor/layout_order.py:14-18 | in the corrected zip each fragment takes the rank of its own box, and keeps its order when it has none |
| LayoutOrder.IndentedParagraphBoxes | doc_page_extractor/layout_order.py:84-121 | for an indented two-line paragraph, the second line's box sorts before the first's |
| LayoutOrder.IndentedParagraphRanks | doc_page_extractor/layout_order.py:130-132 | a reader that ranks the first line 0 gives the rank list [1, 0] |
| LayoutOrder.IndentedParagraphArranged | doc_page_extractor/layout_order.py:48-78 | the page arranges to the paragraph with swapped orders |
| LayoutOrder.SwappedRanksAsWritten | doc_page_extractor/layout_order.py:56-57 | as written, the first line gets order 1 and the second order 0 |
| LayoutOrder.IndentedParagraphByBox | doc_page_extractor/layout_order.py:56-57 | the corrected zip gives the first line order 0 and the second order 1 |
| Extractor.ParseResponse | doc_page_extractor/extractor.py:31-51 | the loop yields what the pairing model yields |
| Extractor.ExtractLayouts | doc_page_extractor/extractor.py:26-28 | one layout per yielded triple, with `ref`, `det` and `text` in place: the positional call swaps the first two, and so does the unpacking |
| Extractor.Extract | doc_page_extractor/extractor.py:18-29 | one page per stage, whose k-th layout is `Layout(ref, det, text)` built from the k-th triple that page's response yields |
| Extractor.StepCases | doc_page_extractor/extractor.py:36-49 | a text closes a complete pending pair with that text; any other item closes it without text and is dropped; otherwise DET and REF set their slot |
| Extractor.RunProvenance | doc_page_extractor/extractor.py:36-49 | every pending and yielded ref, det and text is the content of an input item of that kind at the recorded position |
| Extractor.RunOrder | doc_page_extractor/extractor.py:36-49 | the pairs come out in input order, none interleaving with the next, and the pending state comes after them |
| Extractor.StepOrder | doc_page_extractor/extractor.py:36-49 | one item keeps the pairs in input order |
| Extractor.PairsInInputOrder | doc_page_extractor/extractor.py:31-51 | all yielded pairs, the final flush included, come in input order and are drawn from the input |
| Extractor.RunCounts | doc_page_extractor/extractor.py:36-49 | every pair and the pending state use distinct DET and REF items |
| Extractor.ParsedCountBound | doc_page_extractor/extractor.py:31-51 | there are no more pairs than DET items, nor than REF items |
| Extractor.NoTextNoText | doc_page_extractor/extractor.py:42-51 | a response without text items yields only text-less pairs |
| Extractor.ParseExamples | doc_page_extractor/extractor.py:36-51 | REF, DET, TEXT yields one pair with that text; REF, DET, REF yields one text-less pair and drops the second REF |
| ResourceLocks.FirstFreeOffset | doc_page_extractor/resource_locks.py:46-51 | the scan stops at the first free lock from the start index round the ring, or reports that all are held |
| ResourceLocks.OffsetOf | doc_page_extractor/resource_locks.py:47 | every index is reached at some offset below the count |
| ResourceLocks.OffsetOfScan | doc_page_extractor/resource_locks.py:47 | that offset is the one the scan used |
| ResourceLocks.ScanVisitsEachOnce | doc_page_extractor/resource_locks.py:46-48 | the scan never visits a resource twice |
| ResourceLocks.FreeFoundIffSomeFree | doc_page_extractor/resource_locks.py:46-55 | the non-blocking scan fails iff every lock is held |
| ResourceLocks.ResourceLocks.constructor | doc_page_extractor/resource_locks.py:32-38 | all locks free and the next index at 0 |
| ResourceLocks.ResourceLocks.TryAcquire | doc_page_extractor/resource_locks.py:50 | `acquire(blocking=False)` succeeds iff the lock was free, and leaves it held |
| ResourceLocks.ResourceLocks.Access | doc_page_extractor/resource_locks.py:40-55 | the next index advances by one mod the count; the first free lock from the old index is taken, round the ring; when all are held, the start index's lock is returned without acquiring |
| ResourceLocks.NewResourceLocks | doc_page_extractor/resource_locks.py:32-38 | an empty resource list raises ValueError, any other gives a pool of free locks |
| ResourceLocks.ResourceLock.constructor | doc_page_extractor/resource_locks.py:14-21 | the handle names the resource at its index |
| ResourceLocks.ResourceLock.Enter | doc_page_extractor/resource_locks.py:23-25 | `__enter__` on a free lock takes it and yields the resource, and on a held one blocks |
| ResourceLocks.ResourceLock.Exit | doc_page_extractor/resource_locks.py:27-28 | `__exit__` frees a held lock; releasing a free lock is an error (RuntimeError) |
| ResourceLocks.ResourceLock.EnterHeld | doc_page_extractor/resource_locks.py:23-25 | the corrected `__enter__` yields the resource of the lock that `access` already holds |
| ResourceLocks.WithAccessAsWritten | doc_page_extractor/resource_locks.py:40-55 | as written, `with locks.access() as r:` always blocks |
| ResourceLocks.WithAccessCorrected | doc_page_extractor/resource_locks.py:40-55 | with the corrected `__enter__`, a free lock yields the resource the scan picked and is released afterwards; only an all-held pool blocks |
| ResourceLocks.SingleResourceDeadlocks | doc_page_extractor/resource_locks.py:23-25 | a one-resource pool blocks on its first `with` |
| LazyLoader.LazyGetter.constructor | doc_page_extractor/lazy_loader.py:10-13 | nothing loaded yet |
| LazyLoader.LazyGetter.Get | doc_page_extractor/lazy_loader.py:15-21 | the first call loads and returns the loaded value; every later call returns that value and loads nothing |
| LazyLoader.CallsAgree | doc_page_extractor/lazy_loader.py:10-22 | every call to one getter returns the first loaded value |

## Left out

- The neural reading-order model (LayoutLMv3) behind `_get_model`, `boxes2inputs`, `prepare_inputs` and `parse_logits`: its output ranks are a parameter `orders` of `LayoutOrder.LayoutOrders` and `LayoutOrder.Sort`.
- `order_fragments_by_ai`: it needs the same model. `order_layouts_and_fragments` is modelled for `order_ai is None`. Note that line 18 passes `layouts`, not fragments, to a function that renumbers fragments.
- `LayoutOrder.Sort` renumbers the caller's fragment objects in place. The model returns new values, so aliasing and the caller-visible mutation are not captured. The same holds for `_order_by_primitive_layouts`, `remove_overlap_layouts` (which extends `layout1.fragments`) and `FindMedian`'s caller lists.
- The DeepSeek OCR model call in `extract` and `parse_ocr_response`: the parser is not part of this model. Its item stream is the input of `Extractor.ParseResponse`, and `Extractor.Extract` takes one item list per stage. Image width and height only feed that parser.
- Threads: `ResourceLocks.ResourceLocks.Access` and `ResourceLocks.ResourceLock.Enter` report blocking as a result (`acquired == false`, `Blocks`) instead of waiting. The index lock's mutual exclusion is not modelled (one caller at a time). `lazy_load`'s lock is not modelled either.
- LazyLoader.LazyGetter.Get: the `load` callback is passed in as the value it would return. A load that raises is not modelled.
- Shapely: polygons and their intersection are modelled as axis-aligned boxes. This is exact for the wrappers of axis-aligned rectangles and does not cover skewed quadrilaterals. An intersection touching only along an edge or at a point (no `exterior`) is a failure.
- Utils.OverlapRatio and Overlap.OverlapRatio: a flat rectangle meets another at most in a segment, so it hits the no-exterior failure before the division by its zero width could raise ZeroDivisionError. In `remove_overlap_layouts` the rate is a function parameter, so the merge pass is proved for any rate function.
- Overlap.RemoveOverlapLayouts: `rate` is a total function parameter, so the model does not capture the source pass aborting when `overlap_rate` raises. Two touching layouts, for example, intersect in a LineString, and its missing `.exterior` raises at overlap.py:62 (reached from line 53) midway through the pass.
- Floating point: floats are exact reals. `math.atan2`, `math.pi` and `math.sqrt` are parameters constrained by predicates (range, values on the axes, square root law). The ±inf accumulators are replaced by starting from the first element; every such loop runs over a non-empty list.
- `clip` and `clip_from_image` (Pillow's affine transform, and the `_get_rotate_matrix` sine and cosine), because they call the missing `calculate_rotation_with_rect`. The `print` in `_warp_rectangle` is output only.
- `utils.ensure_dir` (filesystem) and `LayoutOrder._get_model` (model download); `Rectangle.area` and `intersection_area` beyond the box intersection they rest on.
- LayoutOrder.Sort: Python's `round` on a float on the .5 boundary is modelled as exact half-to-even on reals.

## Findings

| source | as written | input that shows it | evidently intended | confidence | as-written member | corrected member |
|---|---|---|---|---|---|---|
| doc_page_extractor/rotation.py:40-42 | `atan2(dy, dx)` is shifted by pi only when negative, so an edge pointing left (`atan2(0, -w) = pi`) keeps the angle pi while the opposite edge gets 0 | a page of upright axis-aligned fragments: edge angles pi/2, 0, pi/2, pi give the pair (pi/2, pi/2) and the page rotation pi/4 | angles taken mod pi, so opposite edges agree: the pair (0, pi/2) and rotation 0 | high (not executed) | Rotation.UprightPageAsWritten | Rotation.UprightPageModPi |
| doc_page_extractor/layout_order.py:56-57 | the ranks of layout i are collected in the order of the lexicographically sorted boxes (lines 121, 130-132) but zipped onto `layout.fragments` in list order; `_BBox.fragment_index` is never read | an indented first line at (100,10)-(500,20) above a second line at (50,30)-(500,40): the second line's box sorts first, so reader ranks (0 for line 1, 1 for line 2) arrive as [1, 0] and line 1 gets order 1 | each fragment takes the rank of its own box, found by `fragment_index` | high (not executed) | LayoutOrder.SwappedRanksAsWritten | LayoutOrder.RelabelByBoxTakesOwnRank |
| doc_page_extractor/resource_locks.py:23-25 | `access` already holds the lock it returns (line 50 or 54), and `__enter__` acquires the same non-reentrant `threading.Lock` again | `with ResourceLocks([r]).access() as x:` blocks forever on its first use | `__enter__` only hands out the resource the held lock guards; `__exit__` releases it | high (not executed) | ResourceLocks.WithAccessAsWritten | ResourceLocks.WithAccessCorrected |
