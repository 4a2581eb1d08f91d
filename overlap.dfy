/**
 * doc_page_extractor/overlap.py: the overlap rate normalised by the second
 * polygon, and the single pass that drops near-duplicate layouts and moves
 * their fragments into the layout that covers them.
 *
 * Layout objects are values here: the in-place `fragments.extend` becomes an
 * update of the layout at that index of a sequence the pass threads through.
 */
module Overlap {
  import opened Wrappers
  import opened Rectangles
  import opened Types

  /** `includes_min_rate`. */
  const IncludesMinRate: real := 0.99

  /** `_polygon_size`: the width and height of the min/max box of the ring's coordinates. */
  method PolygonSize(coords: seq<Point>) returns (width: real, height: real)
    requires |coords| > 0
    ensures width == Width(Bounds(coords)) && height == Height(Bounds(coords))
    ensures width >= 0.0 && height >= 0.0
  {
    var b := ScanBounds(coords);
    assert Contains(b, coords[0]);
    width, height := b.right - b.left, b.bottom - b.top;
  }

  /**
   * The rate `overlap_rate(polygon1, polygon2)` promises, on boxes: 0.0 for
   * an empty intersection, the `.exterior` failure for a line or point, and
   * otherwise the mean of the intersection's width over `polygon2`'s width
   * and its height over `polygon2`'s height.
   */
  function OverlapRatio(polygon1: Box, polygon2: Box): (r: Result<real, Fault>)
    requires WellFormed(polygon1) && WellFormed(polygon2)
    ensures r.Success? ==> 0.0 <= r.value <= 1.0
  {
    match Intersect(polygon1, polygon2)
    case None => Success(0.0)
    case Some(i) =>
      if Width(i) == 0.0 || Height(i) == 0.0 then Failure(NotAPolygon)
      else
        IntersectInside(polygon1, polygon2);
        RatioBounds(Width(i), Width(polygon2));
        RatioBounds(Height(i), Height(polygon2));
        Success((Width(i) / Width(polygon2) + Height(i) / Height(polygon2)) / 2.0)
  }

  lemma RatioBounds(a: real, b: real)
    requires 0.0 < a <= b
    ensures 0.0 < a / b <= 1.0
  {
  }

  /** `overlap_rate`: both sizes come from `_polygon_size` over an exterior ring. */
  method OverlapRate(polygon1: Box, polygon2: Box) returns (r: Result<real, Fault>)
    requires WellFormed(polygon1) && WellFormed(polygon2)
    ensures r == OverlapRatio(polygon1, polygon2)
  {
    var intersection := Intersect(polygon1, polygon2);
    if intersection.None? {
      return Success(0.0);
    }
    var i := intersection.value;
    if Width(i) == 0.0 || Height(i) == 0.0 {
      return Failure(NotAPolygon);
    }
    var overlayWidth, overlayHeight := BoxPolygonSize(i);
    var polygon2Width, polygon2Height := BoxPolygonSize(polygon2);
    r := Success((overlayWidth / polygon2Width + overlayHeight / polygon2Height) / 2.0);
  }

  /** `_polygon_size` of the polygon of a box, whose exterior ring is the box's closed corner list. */
  method BoxPolygonSize(b: Box) returns (width: real, height: real)
    requires WellFormed(b)
    ensures width == Width(b) && height == Height(b)
  {
    width, height := PolygonSize(Exterior(b));
    BoundsOfExterior(b);
  }

  // ---------------------------------------------------------------------
  // remove_overlap_layouts, as a specification

  /** The pass's state: the layouts as updated so far and `removed_indexes`. */
  datatype PassState = PassState(layouts: seq<Layout>, removed: set<int>)

  /** Layout j is collected for layout i: not equal to it, not removed, and overlapping it. */
  predicate Collected(ls: seq<Layout>, removed: set<int>, i: int, j: int, rate: (Rectangle, Rectangle) -> real)
    requires 0 <= i < |ls| && 0 <= j < |ls|
  {
    ls[i] != ls[j] && j !in removed && rate(ls[i].rect, ls[j].rect) > 0.0
  }

  /** `includes_layout_indexes` after the inner loop has seen the indices below `upTo`. */
  function Neighbours(ls: seq<Layout>, removed: set<int>, i: int, rate: (Rectangle, Rectangle) -> real, upTo: int): (ns: seq<int>)
    requires 0 <= i < |ls| && 0 <= upTo <= |ls|
    ensures forall k :: 0 <= k < |ns| ==> 0 <= ns[k] < upTo
    decreases upTo
  {
    if upTo == 0 then []
    else Neighbours(ls, removed, i, rate, upTo - 1) + (if Collected(ls, removed, i, upTo - 1, rate) then [upTo - 1] else [])
  }

  /** Exactly the collected indices below `upTo` are gathered, in ascending order. */
  lemma {:induction false} NeighboursAreCollected(ls: seq<Layout>, removed: set<int>, i: int, rate: (Rectangle, Rectangle) -> real, upTo: int)
    requires 0 <= i < |ls| && 0 <= upTo <= |ls|
    ensures forall j :: j in Neighbours(ls, removed, i, rate, upTo) <==> 0 <= j < upTo && Collected(ls, removed, i, j, rate)
    ensures forall a, b :: 0 <= a < b < |Neighbours(ls, removed, i, rate, upTo)| ==>
      Neighbours(ls, removed, i, rate, upTo)[a] < Neighbours(ls, removed, i, rate, upTo)[b]
    decreases upTo
  {
    if upTo > 0 {
      NeighboursAreCollected(ls, removed, i, rate, upTo - 1);
    }
  }

  predicate ValidIndexes(ls: seq<Layout>, ns: seq<int>) {
    forall k :: 0 <= k < |ns| ==> 0 <= ns[k] < |ls|
  }

  /** The fragments of the layouts at `ns`, in that order. */
  function Gather(ls: seq<Layout>, ns: seq<int>): seq<OCRFragment>
    requires ValidIndexes(ls, ns)
    decreases |ns|
  {
    if ns == [] then []
    else Gather(ls, ns[..|ns| - 1]) + ls[ns[|ns| - 1]].fragments
  }

  /** The indices of `ns` as a set: what `removed_indexes.update(ns)` adds. */
  function Members(ns: seq<int>): set<int>
    decreases |ns|
  {
    if ns == [] then {} else Members(ns[..|ns| - 1]) + {ns[|ns| - 1]}
  }

  lemma {:induction false} MembersAreElements(ns: seq<int>)
    ensures forall j :: j in Members(ns) <==> j in ns
    decreases |ns|
  {
    if ns != [] {
      MembersAreElements(ns[..|ns| - 1]);
      assert ns == ns[..|ns| - 1] + [ns[|ns| - 1]];
    }
  }

  /** `all(x > includes_min_rate for x in rates)` for the rates of the collected neighbours. */
  predicate AllRatesAbove(ls: seq<Layout>, i: int, ns: seq<int>, rate: (Rectangle, Rectangle) -> real)
    requires 0 <= i < |ls| && ValidIndexes(ls, ns)
  {
    forall k :: 0 <= k < |ns| ==> rate(ls[i].rect, ls[ns[k]].rect) > IncludesMinRate
  }

  /** Everything but the fragment list is the same. */
  predicate SameButFragments(a: Layout, b: Layout) {
    a.rect == b.rect && a.Class() == b.Class() && (a.FormulaLayout? ==> a.latex == b.latex)
  }

  /** One turn of the outer loop, for layout i. */
  function Visit(st: PassState, i: int, rate: (Rectangle, Rectangle) -> real): (r: PassState)
    requires 0 <= i < |st.layouts|
    ensures |r.layouts| == |st.layouts| && st.removed <= r.removed
    ensures i in st.removed ==> r == st
  {
    var ls := st.layouts;
    if i in st.removed then st
    else
      var ns := Neighbours(ls, st.removed, i, rate, |ls|);
      if |ns| == 0 || !AllRatesAbove(ls, i, ns, rate) then st
      else if |ls[i].fragments| == 0 then PassState(ls, st.removed + {i})
      else PassState(ls[i := ls[i].(fragments := ls[i].fragments + Gather(ls, ns))], st.removed + Members(ns))
  }

  /** A visit changes only the fragment list of layout i. */
  lemma VisitChangesOnlyFragmentsOfI(st: PassState, i: int, rate: (Rectangle, Rectangle) -> real)
    requires 0 <= i < |st.layouts|
    ensures var r := Visit(st, i, rate);
      && (forall k :: 0 <= k < |st.layouts| && k != i ==> r.layouts[k] == st.layouts[k])
      && SameButFragments(st.layouts[i], r.layouts[i])
  {
  }

  /** The state after the outer loop has visited the indices below `upTo`. */
  function Pass(layouts: seq<Layout>, rate: (Rectangle, Rectangle) -> real, upTo: int): (st: PassState)
    requires 0 <= upTo <= |layouts|
    ensures |st.layouts| == |layouts|
    decreases upTo
  {
    if upTo == 0 then PassState(layouts, {})
    else Visit(Pass(layouts, rate, upTo - 1), upTo - 1, rate)
  }

  /** The layouts whose index is not removed, in order. */
  function Survivors(ls: seq<Layout>, removed: set<int>): seq<Layout>
    decreases |ls|
  {
    if ls == [] then []
    else
      var n := |ls| - 1;
      Survivors(ls[..n], removed) + (if n in removed then [] else [ls[n]])
  }

  /** `remove_overlap_layouts(layouts)`, with the rate as a parameter. */
  function RemoveOverlap(layouts: seq<Layout>, rate: (Rectangle, Rectangle) -> real): seq<Layout>
  {
    var st := Pass(layouts, rate, |layouts|);
    Survivors(st.layouts, st.removed)
  }

  // ---------------------------------------------------------------------
  // remove_overlap_layouts, the loops

  method RemoveOverlapLayouts(layouts: seq<Layout>, rate: (Rectangle, Rectangle) -> real) returns (result: seq<Layout>)
    ensures result == RemoveOverlap(layouts, rate)
  {
    var ls := layouts;
    var removed: set<int> := {};
    for i := 0 to |layouts|
      invariant PassState(ls, removed) == Pass(layouts, rate, i)
    {
      if i in removed {
        continue;
      }
      var layout1 := ls[i];
      var rates, includesLayouts, includesIndexes := CollectIncludes(ls, removed, i, rate);
      var allAbove := forall k :: 0 <= k < |rates| ==> rates[k] > IncludesMinRate;
      assert allAbove <==> AllRatesAbove(ls, i, includesIndexes, rate);
      if |rates| == 0 || !allAbove {
      } else if |layout1.fragments| == 0 {
        removed := removed + {i};
      } else {
        removed := removed + Members(includesIndexes);
        var fragments := ExtendFragments(ls, layout1.fragments, includesLayouts, includesIndexes);
        ls := ls[i := layout1.(fragments := fragments)];
      }
    }
    result := KeepSurvivors(ls, removed);
  }

  /** The inner loop: the positive rates, the layouts they belong to and their indices. */
  method CollectIncludes(ls: seq<Layout>, removed: set<int>, i: int, rate: (Rectangle, Rectangle) -> real)
    returns (rates: seq<real>, includesLayouts: seq<Layout>, includesIndexes: seq<int>)
    requires 0 <= i < |ls|
    ensures includesIndexes == Neighbours(ls, removed, i, rate, |ls|)
    ensures |rates| == |includesIndexes| == |includesLayouts|
    ensures forall k :: 0 <= k < |includesIndexes| ==>
      rates[k] == rate(ls[i].rect, ls[includesIndexes[k]].rect) && includesLayouts[k] == ls[includesIndexes[k]]
  {
    var layout1 := ls[i];
    rates, includesLayouts, includesIndexes := [], [], [];
    for j := 0 to |ls|
      invariant includesIndexes == Neighbours(ls, removed, i, rate, j)
      invariant |rates| == |includesIndexes| == |includesLayouts|
      invariant forall k :: 0 <= k < |includesIndexes| ==>
        rates[k] == rate(layout1.rect, ls[includesIndexes[k]].rect) && includesLayouts[k] == ls[includesIndexes[k]]
    {
      var layout2 := ls[j];
      if layout1 == layout2 || j in removed {
        continue;
      }
      var r := rate(layout1.rect, layout2.rect);
      if r > 0.0 {
        rates := rates + [r];
        includesLayouts := includesLayouts + [layout2];
        includesIndexes := includesIndexes + [j];
      }
    }
  }

  /** `layout1.fragments.extend(layout.fragments)` for every included layout, in order. */
  method ExtendFragments(ls: seq<Layout>, start: seq<OCRFragment>, includesLayouts: seq<Layout>, includesIndexes: seq<int>)
    returns (fragments: seq<OCRFragment>)
    requires ValidIndexes(ls, includesIndexes) && |includesLayouts| == |includesIndexes|
    requires forall k :: 0 <= k < |includesIndexes| ==> includesLayouts[k] == ls[includesIndexes[k]]
    ensures fragments == start + Gather(ls, includesIndexes)
  {
    fragments := start;
    for k := 0 to |includesLayouts|
      invariant fragments == start + Gather(ls, includesIndexes[..k])
    {
      assert includesIndexes[..k + 1][..k] == includesIndexes[..k];
      fragments := fragments + includesLayouts[k].fragments;
    }
    assert includesIndexes[..|includesIndexes|] == includesIndexes;
  }

  /** The closing list comprehension. */
  method KeepSurvivors(ls: seq<Layout>, removed: set<int>) returns (result: seq<Layout>)
    ensures result == Survivors(ls, removed)
  {
    result := [];
    for k := 0 to |ls|
      invariant result == Survivors(ls[..k], removed)
    {
      assert ls[..k + 1][..k] == ls[..k];
      if k !in removed {
        result := result + [ls[k]];
      }
    }
    assert ls[..|ls|] == ls;
  }

  // ---------------------------------------------------------------------
  // No fragment is lost or duplicated

  /** The multiset of the fragments of the first `n` layouts whose index is not removed. */
  ghost function KeptUpTo(ls: seq<Layout>, removed: set<int>, n: int): multiset<OCRFragment>
    requires 0 <= n <= |ls|
    decreases n
  {
    if n == 0 then multiset{}
    else KeptUpTo(ls, removed, n - 1) + (if n - 1 in removed then multiset{} else multiset(ls[n - 1].fragments))
  }

  /** The multiset of the fragments of the layouts whose index is not removed. */
  ghost function KeptFragments(ls: seq<Layout>, removed: set<int>): multiset<OCRFragment>
  {
    KeptUpTo(ls, removed, |ls|)
  }

  /** Only the first `n` layouts and the removal of their indices matter. */
  lemma {:induction false} KeptUpToAgree(a: seq<Layout>, b: seq<Layout>, r1: set<int>, r2: set<int>, n: int)
    requires 0 <= n <= |a| && n <= |b|
    requires forall k :: 0 <= k < n ==> a[k] == b[k] && (k in r1 <==> k in r2)
    ensures KeptUpTo(a, r1, n) == KeptUpTo(b, r2, n)
    decreases n
  {
    if n > 0 {
      KeptUpToAgree(a, b, r1, r2, n - 1);
    }
  }

  lemma {:induction false} KeptFragmentsOfSurvivors(ls: seq<Layout>, removed: set<int>)
    ensures multiset(AllFragments(Survivors(ls, removed))) == KeptFragments(ls, removed)
    decreases |ls|
  {
    if ls != [] {
      var n := |ls| - 1;
      KeptFragmentsOfSurvivors(ls[..n], removed);
      KeptUpToAgree(ls[..n], ls, removed, removed, n);
      var tail := if n in removed then [] else [ls[n]];
      AllFragmentsAppend(Survivors(ls[..n], removed), tail);
      if n !in removed {
        assert [ls[n]][..0] == [];
      }
    }
  }

  lemma {:induction false} KeptUpToRemoveOne(ls: seq<Layout>, removed: set<int>, j: int, n: int)
    requires 0 <= j < n <= |ls| && j !in removed
    ensures KeptUpTo(ls, removed, n) == KeptUpTo(ls, removed + {j}, n) + multiset(ls[j].fragments)
    decreases n
  {
    if j == n - 1 {
      KeptUpToRemoveLast(ls, removed, n);
    } else {
      var tail := if n - 1 in removed then multiset{} else multiset(ls[n - 1].fragments);
      KeptUpToRemoveOne(ls, removed, j, n - 1);
      assert n - 1 in removed <==> n - 1 in removed + {j};
      AddSame(KeptUpTo(ls, removed, n - 1), KeptUpTo(ls, removed + {j}, n - 1), multiset(ls[j].fragments), tail);
    }
  }

  lemma KeptUpToRemoveLast(ls: seq<Layout>, removed: set<int>, n: int)
    requires 0 < n <= |ls| && n - 1 !in removed
    ensures KeptUpTo(ls, removed, n) == KeptUpTo(ls, removed + {n - 1}, n) + multiset(ls[n - 1].fragments)
  {
    KeptUpToAgree(ls, ls, removed, removed + {n - 1}, n - 1);
  }

  lemma KeptFragmentsRemoveOne(ls: seq<Layout>, removed: set<int>, j: int)
    requires 0 <= j < |ls| && j !in removed
    ensures KeptFragments(ls, removed) == KeptFragments(ls, removed + {j}) + multiset(ls[j].fragments)
  {
    KeptUpToRemoveOne(ls, removed, j, |ls|);
  }

  lemma {:induction false} KeptFragmentsRemoveAll(ls: seq<Layout>, removed: set<int>, ns: seq<int>)
    requires ValidIndexes(ls, ns)
    requires forall a, b :: 0 <= a < b < |ns| ==> ns[a] < ns[b]
    requires forall k :: 0 <= k < |ns| ==> ns[k] !in removed
    ensures KeptFragments(ls, removed) == KeptFragments(ls, removed + Members(ns)) + multiset(Gather(ls, ns))
    decreases |ns|
  {
    if ns == [] {
      assert removed + Members(ns) == removed;
    } else {
      var init := ns[..|ns| - 1];
      var last := ns[|ns| - 1];
      var r := removed + Members(init);
      var g := multiset(Gather(ls, init));
      var f := multiset(ls[last].fragments);
      var kept := KeptFragments(ls, removed + Members(ns));
      assert KeptFragments(ls, removed) == KeptFragments(ls, r) + g by {
        KeptFragmentsRemoveAll(ls, removed, init);
      }
      assert KeptFragments(ls, r) == kept + f by {
        assert ns == init + [last];
        LastIsNew(removed, ns);
        KeptFragmentsRemoveOne(ls, r, last);
        assert r + {last} == removed + Members(ns);
      }
      assert multiset(Gather(ls, ns)) == g + f by {
        assert Gather(ls, ns) == Gather(ls, init) + ls[last].fragments;
      }
      Regroup(KeptFragments(ls, removed), KeptFragments(ls, r), kept, f, g, multiset(Gather(ls, ns)));
    }
  }

  /** The last of strictly increasing fresh indices is not among the earlier ones. */
  lemma LastIsNew(removed: set<int>, ns: seq<int>)
    requires |ns| > 0
    requires forall a, b :: 0 <= a < b < |ns| ==> ns[a] < ns[b]
    requires ns[|ns| - 1] !in removed
    ensures ns[|ns| - 1] !in removed + Members(ns[..|ns| - 1])
  {
    var init := ns[..|ns| - 1];
    MembersAreElements(init);
    assert forall k :: 0 <= k < |init| ==> init[k] == ns[k] < ns[|ns| - 1];
  }

  lemma Regroup<T>(all: multiset<T>, rest: multiset<T>, kept: multiset<T>, f: multiset<T>, g: multiset<T>, m: multiset<T>)
    requires all == rest + g && rest == kept + f && m == g + f
    ensures all == kept + m
  {
  }

  /**
   * `ms` is `ls` with the fragments of the unremoved layout `i` extended by
   * `extra`: the first `n` kept fragments grow by exactly `extra`.
   */
  lemma {:induction false} KeptUpToExtend(ls: seq<Layout>, ms: seq<Layout>, removed: set<int>, i: int, extra: seq<OCRFragment>, n: int)
    requires 0 <= i < n <= |ls| == |ms| && i !in removed
    requires forall k :: 0 <= k < |ls| && k != i ==> ms[k] == ls[k]
    requires ms[i].fragments == ls[i].fragments + extra
    ensures KeptUpTo(ms, removed, n) == KeptUpTo(ls, removed, n) + multiset(extra)
    decreases n
  {
    if i == n - 1 {
      KeptUpToAgree(ms, ls, removed, removed, n - 1);
    } else {
      KeptUpToExtend(ls, ms, removed, i, extra, n - 1);
      assert ms[n - 1] == ls[n - 1];
      AddSame(KeptUpTo(ms, removed, n - 1), KeptUpTo(ls, removed, n - 1), multiset(extra),
        if n - 1 in removed then multiset{} else multiset(ls[n - 1].fragments));
    }
  }

  lemma AddSame<T>(a: multiset<T>, b: multiset<T>, f: multiset<T>, t: multiset<T>)
    requires a == b + f
    ensures a + t == b + t + f
  {
  }

  lemma KeptFragmentsExtend(ls: seq<Layout>, removed: set<int>, i: int, l: Layout, extra: seq<OCRFragment>)
    requires 0 <= i < |ls| && i !in removed
    requires l.fragments == ls[i].fragments + extra
    ensures KeptFragments(ls[i := l], removed) == KeptFragments(ls, removed) + multiset(extra)
  {
    KeptUpToExtend(ls, ls[i := l], removed, i, extra, |ls|);
  }

  lemma VisitKeepsFragments(st: PassState, i: int, rate: (Rectangle, Rectangle) -> real)
    requires 0 <= i < |st.layouts|
    ensures var r := Visit(st, i, rate); KeptFragments(r.layouts, r.removed) == KeptFragments(st.layouts, st.removed)
  {
    var ls := st.layouts;
    if i !in st.removed {
      var ns := Neighbours(ls, st.removed, i, rate, |ls|);
      if |ns| == 0 || !AllRatesAbove(ls, i, ns, rate) {
      } else if |ls[i].fragments| == 0 {
        KeptFragmentsRemoveOne(ls, st.removed, i);
      } else {
        var s := st.removed + Members(ns);
        NeighboursAreCollected(ls, st.removed, i, rate, |ls|);
        MembersAreElements(ns);
        forall k | 0 <= k < |ns|
          ensures ns[k] !in st.removed
        {
          assert ns[k] in ns;
        }
        KeptFragmentsRemoveAll(ls, st.removed, ns);
        assert i !in s;
        KeptFragmentsExtend(ls, s, i, ls[i].(fragments := ls[i].fragments + Gather(ls, ns)), Gather(ls, ns));
      }
    }
  }

  /** The outer loop keeps the multiset of kept fragments, turn by turn. */
  lemma PassKeepsFragments(layouts: seq<Layout>, rate: (Rectangle, Rectangle) -> real, upTo: int)
    requires 0 <= upTo <= |layouts|
    ensures KeptFragments(Pass(layouts, rate, upTo).layouts, Pass(layouts, rate, upTo).removed) == KeptFragments(layouts, {})
  {
    var st := PassState(layouts, {});
    for k := 0 to upTo
      invariant st == Pass(layouts, rate, k)
      invariant KeptFragments(st.layouts, st.removed) == KeptFragments(layouts, {})
    {
      VisitKeepsFragments(st, k, rate);
      st := Visit(st, k, rate);
    }
  }

  lemma {:induction false} PassKeepsShapes(layouts: seq<Layout>, rate: (Rectangle, Rectangle) -> real, upTo: int)
    requires 0 <= upTo <= |layouts|
    ensures forall k :: 0 <= k < |layouts| ==> SameButFragments(layouts[k], Pass(layouts, rate, upTo).layouts[k])
    decreases upTo
  {
    if upTo > 0 {
      PassKeepsShapes(layouts, rate, upTo - 1);
      var before := Pass(layouts, rate, upTo - 1);
      var after := Visit(before, upTo - 1, rate);
      VisitChangesOnlyFragmentsOfI(before, upTo - 1, rate);
      forall k | 0 <= k < |layouts|
        ensures SameButFragments(layouts[k], after.layouts[k])
      {
        SameButFragmentsTransitive(layouts[k], before.layouts[k], after.layouts[k]);
      }
    }
  }

  lemma SameButFragmentsTransitive(a: Layout, b: Layout, c: Layout)
    requires SameButFragments(a, b) && SameButFragments(b, c)
    ensures SameButFragments(a, c)
  {
  }

  lemma {:induction false} SurvivorsOfNone(ls: seq<Layout>)
    ensures Survivors(ls, {}) == ls
    decreases |ls|
  {
    if ls != [] {
      SurvivorsOfNone(ls[..|ls| - 1]);
    }
  }

  /** The survivors hold exactly the input's fragments: none lost, none duplicated. */
  lemma RemoveOverlapKeepsFragments(layouts: seq<Layout>, rate: (Rectangle, Rectangle) -> real)
    ensures multiset(AllFragments(RemoveOverlap(layouts, rate))) == multiset(AllFragments(layouts))
  {
    var st := Pass(layouts, rate, |layouts|);
    PassKeepsFragments(layouts, rate, |layouts|);
    KeptFragmentsOfSurvivors(st.layouts, st.removed);
    KeptFragmentsOfSurvivors(layouts, {});
    SurvivorsOfNone(layouts);
  }

  // ---------------------------------------------------------------------
  // The survivors are input layouts, in input order

  /** The indices below n that are not removed, ascending. */
  function KeptIndexes(removed: set<int>, n: int): (ks: seq<int>)
    requires 0 <= n
    ensures forall k :: 0 <= k < |ks| ==> 0 <= ks[k] < n && ks[k] !in removed
    ensures forall j :: j in ks <==> 0 <= j < n && j !in removed
    ensures forall a, b :: 0 <= a < b < |ks| ==> ks[a] < ks[b]
    decreases n
  {
    if n == 0 then [] else KeptIndexes(removed, n - 1) + (if n - 1 in removed then [] else [n - 1])
  }

  lemma {:induction false} SurvivorsAtKeptIndexes(ls: seq<Layout>, removed: set<int>)
    ensures |Survivors(ls, removed)| == |KeptIndexes(removed, |ls|)|
    ensures forall m :: 0 <= m < |Survivors(ls, removed)| ==> Survivors(ls, removed)[m] == ls[KeptIndexes(removed, |ls|)[m]]
    decreases |ls|
  {
    if ls != [] {
      var n := |ls| - 1;
      var init := ls[..n];
      SurvivorsAtKeptIndexes(init, removed);
      var s0 := Survivors(init, removed);
      var k0 := KeptIndexes(removed, n);
      var ss := Survivors(ls, removed);
      var ks := KeptIndexes(removed, |ls|);
      forall m | 0 <= m < |ss|
        ensures ss[m] == ls[ks[m]]
      {
        if m < |s0| {
          assert ss[m] == s0[m] && ks[m] == k0[m];
          assert init[k0[m]] == ls[k0[m]];
        }
      }
    }
  }

  /**
   * The result is the input with the removed indices dropped: the m-th
   * survivor is the layout at the m-th kept index, with its rectangle, class
   * and LaTeX unchanged.
   */
  lemma RemoveOverlapKeepsOrder(layouts: seq<Layout>, rate: (Rectangle, Rectangle) -> real)
    ensures var ks := KeptIndexes(Pass(layouts, rate, |layouts|).removed, |layouts|);
      var result := RemoveOverlap(layouts, rate);
      && |result| == |ks|
      && (forall a, b :: 0 <= a < b < |ks| ==> ks[a] < ks[b])
      && (forall m :: 0 <= m < |result| ==> SameButFragments(layouts[ks[m]], result[m]))
  {
    var st := Pass(layouts, rate, |layouts|);
    PassKeepsShapes(layouts, rate, |layouts|);
    SurvivorsAtKeptIndexes(st.layouts, st.removed);
  }

  lemma {:induction false} PassWithoutOverlap(layouts: seq<Layout>, rate: (Rectangle, Rectangle) -> real, upTo: int)
    requires 0 <= upTo <= |layouts|
    requires forall a, b :: 0 <= a < |layouts| && 0 <= b < |layouts| ==> rate(layouts[a].rect, layouts[b].rect) <= 0.0
    ensures Pass(layouts, rate, upTo) == PassState(layouts, {})
    decreases upTo
  {
    if upTo > 0 {
      PassWithoutOverlap(layouts, rate, upTo - 1);
      NoNeighbours(layouts, upTo - 1, rate, |layouts|);
      VisitWithoutNeighbours(PassState(layouts, {}), upTo - 1, rate);
      PassStep(layouts, rate, upTo);
    }
  }

  lemma VisitWithoutNeighbours(st: PassState, i: int, rate: (Rectangle, Rectangle) -> real)
    requires 0 <= i < |st.layouts|
    requires Neighbours(st.layouts, st.removed, i, rate, |st.layouts|) == []
    ensures Visit(st, i, rate) == st
  {
  }

  lemma PassStep(layouts: seq<Layout>, rate: (Rectangle, Rectangle) -> real, upTo: int)
    requires 0 < upTo <= |layouts|
    ensures Pass(layouts, rate, upTo) == Visit(Pass(layouts, rate, upTo - 1), upTo - 1, rate)
  {
  }

  lemma {:induction false} NoNeighbours(ls: seq<Layout>, i: int, rate: (Rectangle, Rectangle) -> real, upTo: int)
    requires 0 <= i < |ls| && 0 <= upTo <= |ls|
    requires forall b :: 0 <= b < |ls| ==> rate(ls[i].rect, ls[b].rect) <= 0.0
    ensures Neighbours(ls, {}, i, rate, upTo) == []
    decreases upTo
  {
    if upTo > 0 {
      NoNeighbours(ls, i, rate, upTo - 1);
    }
  }

  /** With no positive rate between any two layouts, the pass returns its input unchanged. */
  lemma RemoveOverlapWithoutOverlap(layouts: seq<Layout>, rate: (Rectangle, Rectangle) -> real)
    requires forall a, b :: 0 <= a < |layouts| && 0 <= b < |layouts| ==> rate(layouts[a].rect, layouts[b].rect) <= 0.0
    ensures RemoveOverlap(layouts, rate) == layouts
  {
    PassWithoutOverlap(layouts, rate, |layouts|);
    SurvivorsOfNone(layouts);
  }
}

