/**
 * doc_page_extractor/rotation.py: the page skew estimated from the edge
 * directions of the OCR fragments.
 *
 * `atan2` and `pi` are parameters. Only the facts a property needs are
 * assumed of them, as the predicates `Atan2Range` and `Atan2OnAxes`. A zero
 * difference of two coordinates is +0.0, so `atan2(0.0, dx)` is the value at
 * +0.0.
 */
module Rotation {
  import opened Wrappers
  import opened Rectangles
  import opened EdgeSums
  import opened Types
  import opened Sorting

  /** `math.atan2` takes its values in (-pi, pi]. */
  ghost predicate Atan2Range(atan2: (real, real) -> real, pi: real) {
    pi > 0.0 && forall dy, dx :: -pi < atan2(dy, dx) <= pi
  }

  /** `math.atan2` on the axes: up, down, right, and left from +0.0. */
  ghost predicate Atan2OnAxes(atan2: (real, real) -> real, pi: real) {
    && (forall dy :: dy > 0.0 ==> atan2(dy, 0.0) == pi / 2.0)
    && (forall dy :: dy < 0.0 ==> atan2(dy, 0.0) == -pi / 2.0)
    && (forall dx :: dx > 0.0 ==> atan2(0.0, dx) == 0.0)
    && (forall dx :: dx < 0.0 ==> atan2(0.0, dx) == pi)
  }

  /**
   * How an `atan2` value becomes an edge angle: `AsWritten` only adds pi to a
   * negative value; `ModPi` also maps pi itself to 0, so that an edge and its
   * reverse always get the same angle.
   */
  datatype AngleRule = AsWritten | ModPi

  function EdgeAngle(atan2: (real, real) -> real, pi: real, rule: AngleRule, dy: real, dx: real): real
  {
    var a := atan2(dy, dx);
    if a < 0.0 then a + pi
    else if rule == ModPi && a == pi then 0.0
    else a
  }

  /** An edge angle lies in [0, pi], and below pi once pi is wrapped to 0. */
  lemma EdgeAngleRange(atan2: (real, real) -> real, pi: real, rule: AngleRule, dy: real, dx: real)
    requires Atan2Range(atan2, pi)
    ensures 0.0 <= EdgeAngle(atan2, pi, rule, dy, dx) <= pi
    ensures rule == ModPi ==> EdgeAngle(atan2, pi, rule, dy, dx) < pi
  {
    assert -pi < atan2(dy, dx) <= pi;
  }

  /** An edge of zero length: `dx == 0.0 and dy == 0.0`. */
  predicate Degenerate(s: Segment) {
    s.end.x - s.start.x == 0.0 && s.end.y - s.start.y == 0.0
  }

  function SegmentAngle(s: Segment, atan2: (real, real) -> real, pi: real, rule: AngleRule): real {
    EdgeAngle(atan2, pi, rule, s.end.y - s.start.y, s.end.x - s.start.x)
  }

  /** The angles of the edges in order, or None as soon as an edge has zero length. */
  function Angles(segs: seq<Segment>, atan2: (real, real) -> real, pi: real, rule: AngleRule): Option<seq<real>>
    decreases |segs|
  {
    if segs == [] then Some([])
    else
      match Angles(segs[..|segs| - 1], atan2, pi, rule)
      case None => None
      case Some(rs) =>
        var s := segs[|segs| - 1];
        if Degenerate(s) then None else Some(rs + [SegmentAngle(s, atan2, pi, rule)])
  }

  /** No angles exactly when some edge has zero length; otherwise one angle per edge, in edge order. */
  lemma {:induction false} AnglesOfEdges(segs: seq<Segment>, atan2: (real, real) -> real, pi: real, rule: AngleRule)
    ensures Angles(segs, atan2, pi, rule).None? <==> exists k :: 0 <= k < |segs| && Degenerate(segs[k])
    ensures Angles(segs, atan2, pi, rule).Some? ==>
      |Angles(segs, atan2, pi, rule).value| == |segs| &&
      forall k :: 0 <= k < |segs| ==> Angles(segs, atan2, pi, rule).value[k] == SegmentAngle(segs[k], atan2, pi, rule)
    decreases |segs|
  {
    if segs != [] {
      var init := segs[..|segs| - 1];
      AnglesOfEdges(init, atan2, pi, rule);
      assert forall k :: 0 <= k < |init| ==> init[k] == segs[k];
    }
  }

  /**
   * `_rotation_with`: None when an edge has zero length; otherwise the means
   * of the even-position and of the odd-position edge angles, smaller first.
   */
  function RotationPair(rect: Rectangle, atan2: (real, real) -> real, pi: real, rule: AngleRule): (p: Option<(real, real)>)
    ensures p.Some? ==> p.value.0 <= p.value.1
  {
    match Angles(Segments(rect), atan2, pi, rule)
    case None => None
    case Some(rs) =>
      var r0 := ParitySum(rs, 0) / 2.0;
      var r1 := ParitySum(rs, 1) / 2.0;
      Some((Min(r0, r1), Max(r0, r1)))
  }

  /**
   * The pair in terms of the corners: no pair iff some edge of
   * lt->lb, lb->rb, rb->rt, rt->lt has zero length; otherwise the smaller and
   * larger of the mean angle of lt->lb and rb->rt and that of lb->rb and rt->lt.
   */
  lemma RotationPairOfCorners(rect: Rectangle, atan2: (real, real) -> real, pi: real, rule: AngleRule)
    ensures RotationPair(rect, atan2, pi, rule).None? <==>
      Degenerate(Segment(rect.lt, rect.lb)) || Degenerate(Segment(rect.lb, rect.rb)) ||
      Degenerate(Segment(rect.rb, rect.rt)) || Degenerate(Segment(rect.rt, rect.lt))
    ensures RotationPair(rect, atan2, pi, rule).Some? ==>
      var v := (SegmentAngle(Segment(rect.lt, rect.lb), atan2, pi, rule) + SegmentAngle(Segment(rect.rb, rect.rt), atan2, pi, rule)) / 2.0;
      var h := (SegmentAngle(Segment(rect.lb, rect.rb), atan2, pi, rule) + SegmentAngle(Segment(rect.rt, rect.lt), atan2, pi, rule)) / 2.0;
      RotationPair(rect, atan2, pi, rule).value == (Min(v, h), Max(v, h))
  {
    var segs := Segments(rect);
    AnglesOfEdges(segs, atan2, pi, rule);
    if Angles(segs, atan2, pi, rule).Some? {
      ParitySumOfFour(Angles(segs, atan2, pi, rule).value);
    } else {
      var k :| 0 <= k < 4 && Degenerate(segs[k]);
      assert k == 0 || k == 1 || k == 2 || k == 3;
    }
  }

  /** Both components of a pair are angles, in [0, pi]. */
  lemma RotationPairRange(rect: Rectangle, atan2: (real, real) -> real, pi: real, rule: AngleRule)
    requires Atan2Range(atan2, pi)
    requires RotationPair(rect, atan2, pi, rule).Some?
    ensures 0.0 <= RotationPair(rect, atan2, pi, rule).value.0 && RotationPair(rect, atan2, pi, rule).value.1 <= pi
  {
    RotationPairOfCorners(rect, atan2, pi, rule);
    EdgeAngleRange(atan2, pi, rule, rect.lb.y - rect.lt.y, rect.lb.x - rect.lt.x);
    EdgeAngleRange(atan2, pi, rule, rect.rb.y - rect.lb.y, rect.rb.x - rect.lb.x);
    EdgeAngleRange(atan2, pi, rule, rect.rt.y - rect.rb.y, rect.rt.x - rect.rb.x);
    EdgeAngleRange(atan2, pi, rule, rect.lt.y - rect.rt.y, rect.lt.x - rect.rt.x);
  }

  /** The pairs of the fragments that yield one, in fragment order. */
  function Pairs(fragments: seq<OCRFragment>, atan2: (real, real) -> real, pi: real, rule: AngleRule): seq<(real, real)>
    decreases |fragments|
  {
    if fragments == [] then []
    else
      var n := |fragments| - 1;
      var p := RotationPair(fragments[n].rect, atan2, pi, rule);
      Pairs(fragments[..n], atan2, pi, rule) + (if p.Some? then [p.value] else [])
  }

  /** Every collected pair is the pair of some fragment. */
  lemma {:induction false} PairsOfFragments(fragments: seq<OCRFragment>, atan2: (real, real) -> real, pi: real, rule: AngleRule)
    ensures forall k :: 0 <= k < |Pairs(fragments, atan2, pi, rule)| ==>
      exists j :: 0 <= j < |fragments| && RotationPair(fragments[j].rect, atan2, pi, rule) == Some(Pairs(fragments, atan2, pi, rule)[k])
    decreases |fragments|
  {
    if fragments != [] {
      var n := |fragments| - 1;
      var init := fragments[..n];
      PairsOfFragments(init, atan2, pi, rule);
      var ps := Pairs(fragments, atan2, pi, rule);
      forall k | 0 <= k < |ps|
        ensures exists j :: 0 <= j < |fragments| && RotationPair(fragments[j].rect, atan2, pi, rule) == Some(ps[k])
      {
        var p := RotationPair(fragments[n].rect, atan2, pi, rule);
        assert ps == Pairs(init, atan2, pi, rule) + (if p.Some? then [p.value] else []);
        if k < |Pairs(init, atan2, pi, rule)| {
          var j :| 0 <= j < |init| && RotationPair(init[j].rect, atan2, pi, rule) == Some(Pairs(init, atan2, pi, rule)[k]);
          assert fragments[j] == init[j] && ps[k] == Pairs(init, atan2, pi, rule)[k];
          assert RotationPair(fragments[j].rect, atan2, pi, rule) == Some(ps[k]);
        } else {
          assert RotationPair(fragments[n].rect, atan2, pi, rule) == Some(ps[k]);
        }
      }
    } else {
      assert Pairs(fragments, atan2, pi, rule) == [];
    }
  }

  function Firsts(ps: seq<(real, real)>): (r: seq<real>)
    ensures |r| == |ps| && forall k :: 0 <= k < |ps| ==> r[k] == ps[k].0
  {
    seq(|ps|, k requires 0 <= k < |ps| => ps[k].0)
  }

  function Seconds(ps: seq<(real, real)>): (r: seq<real>)
    ensures |r| == |ps| && forall k :: 0 <= k < |ps| ==> r[k] == ps[k].1
  {
    seq(|ps|, k requires 0 <= k < |ps| => ps[k].1)
  }

  function Abs(x: real): real { if x < 0.0 then -x else x }

  /**
   * The median closer to pi/2 is the vertical one, the other the horizontal
   * one; on a tie the second median is vertical.
   */
  function Orientation(median0: real, median1: real, pi: real): (vh: (real, real))
    ensures Abs(vh.0 - 0.5 * pi) <= Abs(vh.1 - 0.5 * pi)
    ensures Abs(median0 - 0.5 * pi) < Abs(median1 - 0.5 * pi) ==> vh.0 == median0
    ensures vh == (median0, median1) || vh == (median1, median0)
    ensures Abs(median0 - 0.5 * pi) == Abs(median1 - 0.5 * pi) ==> vh.0 == median1
  {
    if Abs(median0 - 0.5 * pi) < Abs(median1 - 0.5 * pi) then (median0, median1) else (median1, median0)
  }

  /** A horizontal angle above pi/2 is reduced by pi; the skew is the mean of both deviations. */
  function Skew(vertical: real, horizontal: real, pi: real): real {
    var h := if horizontal > 0.5 * pi then horizontal - pi else horizontal;
    0.5 * (vertical - 0.5 * pi + h)
  }

  /** For angles in [0, pi] the skew lies in (-pi/2, pi/2]. */
  lemma SkewRange(vertical: real, horizontal: real, pi: real)
    requires 0.0 < pi
    requires 0.0 <= vertical <= pi && 0.0 <= horizontal <= pi
    ensures -0.5 * pi < Skew(vertical, horizontal, pi) <= 0.5 * pi
  {
  }

  /** `calculate_rotation`: 0.0 without pairs, otherwise the skew of the two component medians. */
  function RotationOf(fragments: seq<OCRFragment>, atan2: (real, real) -> real, pi: real, rule: AngleRule): real
  {
    var ps := Pairs(fragments, atan2, pi, rule);
    if |ps| == 0 then 0.0
    else
      var vh := Orientation(Median(Firsts(ps)), Median(Seconds(ps)), pi);
      Skew(vh.0, vh.1, pi)
  }

  /** No fragment with four non-zero edges, in particular no fragment at all: rotation 0.0. */
  lemma RotationWithoutPairs(fragments: seq<OCRFragment>, atan2: (real, real) -> real, pi: real, rule: AngleRule)
    requires forall k :: 0 <= k < |fragments| ==> RotationPair(fragments[k].rect, atan2, pi, rule).None?
    ensures RotationOf(fragments, atan2, pi, rule) == 0.0
  {
    if Pairs(fragments, atan2, pi, rule) != [] {
      PairsOfFragments(fragments, atan2, pi, rule);
      var ps := Pairs(fragments, atan2, pi, rule);
      var j :| 0 <= j < |fragments| && RotationPair(fragments[j].rect, atan2, pi, rule) == Some(ps[0]);
    }
  }

  /** The rotation always lies in (-pi/2, pi/2]. */
  lemma RotationRange(fragments: seq<OCRFragment>, atan2: (real, real) -> real, pi: real, rule: AngleRule)
    requires Atan2Range(atan2, pi)
    ensures -0.5 * pi < RotationOf(fragments, atan2, pi, rule) <= 0.5 * pi
  {
    var ps := Pairs(fragments, atan2, pi, rule);
    if |ps| > 0 {
      PairsOfFragments(fragments, atan2, pi, rule);
      forall k | 0 <= k < |ps|
        ensures 0.0 <= ps[k].0 <= ps[k].1 <= pi
      {
        var j :| 0 <= j < |fragments| && RotationPair(fragments[j].rect, atan2, pi, rule) == Some(ps[k]);
        RotationPairRange(fragments[j].rect, atan2, pi, rule);
      }
      var m0 := Median(Firsts(ps));
      var m1 := Median(Seconds(ps));
      var i0 :| 0 <= i0 < |ps| && Firsts(ps)[i0] <= m0;
      var j0 :| 0 <= j0 < |ps| && m0 <= Firsts(ps)[j0];
      var i1 :| 0 <= i1 < |ps| && Seconds(ps)[i1] <= m1;
      var j1 :| 0 <= j1 < |ps| && m1 <= Seconds(ps)[j1];
      var vh := Orientation(m0, m1, pi);
      SkewRange(vh.0, vh.1, pi);
    }
  }

  // ---------------------------------------------------------------------
  // The source, step by step

  /** `_rotation_with`: the edge loop with its early return, then the alternating sums. */
  method RotationWith(fragment: OCRFragment, atan2: (real, real) -> real, pi: real) returns (result: Option<(real, real)>)
    ensures result == RotationPair(fragment.rect, atan2, pi, AsWritten)
  {
    var segments := Segments(fragment.rect);
    var rotations: seq<real> := [];
    for k := 0 to 4
      invariant Angles(segments[..k], atan2, pi, AsWritten) == Some(rotations)
    {
      var s := segments[k];
      assert segments[..k + 1][..k] == segments[..k];
      var dx := s.end.x - s.start.x;
      var dy := s.end.y - s.start.y;
      if dx == 0.0 && dy == 0.0 {
        AnglesOfEdges(segments, atan2, pi, AsWritten);
        return None;
      }
      var rotation := atan2(dy, dx);
      if rotation < 0.0 {
        rotation := rotation + pi;
      }
      rotations := rotations + [rotation];
    }
    assert segments[..4] == segments;
    var rotation0, rotation1 := AlternateSums(rotations);
    rotation0 := rotation0 / 2.0;
    rotation1 := rotation1 / 2.0;
    result := Some((Min(rotation0, rotation1), Max(rotation0, rotation1)));
  }

  /** The `i % 2` loop of `_rotation_with`: the angles at even and at odd positions, summed. */
  method AlternateSums(rotations: seq<real>) returns (rotation0: real, rotation1: real)
    ensures rotation0 == ParitySum(rotations, 0) && rotation1 == ParitySum(rotations, 1)
  {
    rotation0 := 0.0;
    rotation1 := 0.0;
    for i := 0 to |rotations|
      invariant rotation0 == ParitySum(rotations[..i], 0) && rotation1 == ParitySum(rotations[..i], 1)
    {
      assert rotations[..i + 1][..i] == rotations[..i];
      if i % 2 == 0 {
        rotation0 := rotation0 + rotations[i];
      } else {
        rotation1 := rotation1 + rotations[i];
      }
    }
    assert rotations[..|rotations|] == rotations;
  }

  /** `_find_median`: sorts the list in place, then takes the middle. */
  method FindMedian(rotations: array<real>) returns (m: real)
    requires rotations.Length > 0
    modifies rotations
    ensures rotations[..] == SortBy(old(rotations[..]), RealLe)
    ensures m == Median(old(rotations[..]))
  {
    var sorted := SortBy(rotations[..], RealLe);
    for k := 0 to rotations.Length
      invariant forall j :: 0 <= j < k ==> rotations[j] == sorted[j]
    {
      rotations[k] := sorted[k];
    }
    assert rotations[..] == sorted;
    var n := rotations.Length;
    if n % 2 == 1 {
      m := rotations[n / 2];
    } else {
      var mid1 := rotations[n / 2 - 1];
      var mid2 := rotations[n / 2];
      m := (mid1 + mid2) / 2.0;
    }
  }

  /** `calculate_rotation`. */
  method CalculateRotation(fragments: seq<OCRFragment>, atan2: (real, real) -> real, pi: real) returns (r: real)
    ensures r == RotationOf(fragments, atan2, pi, AsWritten)
  {
    var rotations0: seq<real> := [];
    var rotations1: seq<real> := [];
    for k := 0 to |fragments|
      invariant rotations0 == Firsts(Pairs(fragments[..k], atan2, pi, AsWritten))
      invariant rotations1 == Seconds(Pairs(fragments[..k], atan2, pi, AsWritten))
    {
      assert fragments[..k + 1][..k] == fragments[..k];
      var result := RotationWith(fragments[k], atan2, pi);
      if result.Some? {
        var (rotation0, rotation1) := result.value;
        rotations0 := rotations0 + [rotation0];
        rotations1 := rotations1 + [rotation1];
      }
    }
    assert fragments[..|fragments|] == fragments;
    if |rotations0| == 0 || |rotations1| == 0 {
      return 0.0;
    }
    var list0 := new real[|rotations0|](j requires 0 <= j < |rotations0| => rotations0[j]);
    var list1 := new real[|rotations1|](j requires 0 <= j < |rotations1| => rotations1[j]);
    assert list0[..] == rotations0 && list1[..] == rotations1;
    var median0 := FindMedian(list0);
    var median1 := FindMedian(list1);
    var vh := Orientation(median0, median1, pi);
    r := Skew(vh.0, vh.1, pi);
  }

  // ---------------------------------------------------------------------
  // An upright page

  /** A fragment whose corners are those of an axis-aligned box of positive width and height. */
  predicate Upright(f: OCRFragment) {
    var r := f.rect;
    && r.lt.x == r.lb.x && r.rt.x == r.rb.x && r.lt.y == r.rt.y && r.lb.y == r.rb.y
    && r.lt.x < r.rt.x && r.lt.y < r.lb.y
  }

  /**
   * As written, an upright fragment's horizontal edges get the angles 0
   * (lb->rb) and pi (rt->lt), so their mean is pi/2, like the vertical edges'.
   */
  lemma UprightPairAsWritten(f: OCRFragment, atan2: (real, real) -> real, pi: real)
    requires pi > 0.0
    requires Atan2OnAxes(atan2, pi)
    requires Upright(f)
    ensures RotationPair(f.rect, atan2, pi, AsWritten) == Some((pi / 2.0, pi / 2.0))
  {
    var b := Box(f.rect.lt.x, f.rect.lt.y, f.rect.rb.x, f.rect.rb.y);
    RotationPairOfCorners(f.rect, atan2, pi, AsWritten);
    assert atan2(b.bottom - b.top, 0.0) == pi / 2.0;
    assert atan2(b.top - b.bottom, 0.0) == -pi / 2.0;
    assert atan2(0.0, b.right - b.left) == 0.0;
    assert atan2(0.0, b.left - b.right) == pi;
  }

  /** With pi wrapped to 0, the horizontal mean is 0 and the vertical one pi/2. */
  lemma UprightPairModPi(f: OCRFragment, atan2: (real, real) -> real, pi: real)
    requires pi > 0.0
    requires Atan2OnAxes(atan2, pi)
    requires Upright(f)
    ensures RotationPair(f.rect, atan2, pi, ModPi) == Some((0.0, pi / 2.0))
  {
    var b := Box(f.rect.lt.x, f.rect.lt.y, f.rect.rb.x, f.rect.rb.y);
    RotationPairOfCorners(f.rect, atan2, pi, ModPi);
    assert atan2(b.bottom - b.top, 0.0) == pi / 2.0;
    assert atan2(b.top - b.bottom, 0.0) == -pi / 2.0;
    assert atan2(0.0, b.right - b.left) == 0.0;
    assert atan2(0.0, b.left - b.right) == pi;
  }

  /** When every fragment yields the same pair, that pair is what is collected, once per fragment. */
  lemma {:induction false} PairsOfEqualPairs(fragments: seq<OCRFragment>, atan2: (real, real) -> real, pi: real, rule: AngleRule, p: (real, real))
    requires forall k :: 0 <= k < |fragments| ==> RotationPair(fragments[k].rect, atan2, pi, rule) == Some(p)
    ensures |Pairs(fragments, atan2, pi, rule)| == |fragments|
    ensures forall k :: 0 <= k < |fragments| ==> Pairs(fragments, atan2, pi, rule)[k] == p
    decreases |fragments|
  {
    if fragments != [] {
      var n := |fragments| - 1;
      assert forall k :: 0 <= k < n ==> fragments[..n][k] == fragments[k];
      PairsOfEqualPairs(fragments[..n], atan2, pi, rule, p);
    }
  }

  /** As written: a page of upright fragments is reported as turned by pi/4. */
  lemma UprightPageAsWritten(fragments: seq<OCRFragment>, atan2: (real, real) -> real, pi: real)
    requires pi > 0.0
    requires Atan2OnAxes(atan2, pi)
    requires |fragments| > 0 && forall k :: 0 <= k < |fragments| ==> Upright(fragments[k])
    ensures RotationOf(fragments, atan2, pi, AsWritten) == pi / 4.0
  {
    var p := (pi / 2.0, pi / 2.0);
    forall k | 0 <= k < |fragments|
      ensures RotationPair(fragments[k].rect, atan2, pi, AsWritten) == Some(p)
    {
      UprightPairAsWritten(fragments[k], atan2, pi);
    }
    PairsOfEqualPairs(fragments, atan2, pi, AsWritten, p);
    var ps := Pairs(fragments, atan2, pi, AsWritten);
    MedianOfConstant(Firsts(ps), pi / 2.0);
    MedianOfConstant(Seconds(ps), pi / 2.0);
  }

  /** With pi wrapped to 0: a page of upright fragments has rotation 0. */
  lemma UprightPageModPi(fragments: seq<OCRFragment>, atan2: (real, real) -> real, pi: real)
    requires pi > 0.0
    requires Atan2OnAxes(atan2, pi)
    requires |fragments| > 0 && forall k :: 0 <= k < |fragments| ==> Upright(fragments[k])
    ensures RotationOf(fragments, atan2, pi, ModPi) == 0.0
  {
    var p := (0.0, pi / 2.0);
    forall k | 0 <= k < |fragments|
      ensures RotationPair(fragments[k].rect, atan2, pi, ModPi) == Some(p)
    {
      UprightPairModPi(fragments[k], atan2, pi);
    }
    PairsOfEqualPairs(fragments, atan2, pi, ModPi, p);
    var ps := Pairs(fragments, atan2, pi, ModPi);
    MedianOfConstant(Firsts(ps), 0.0);
    MedianOfConstant(Seconds(ps), pi / 2.0);
  }
}
