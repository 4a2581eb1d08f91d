/**
 * Quadrilaterals and the axis-aligned boxes derived from them
 * (doc_page_extractor/rectangle.py). A `Rectangle` is four corner points,
 * not necessarily axis-aligned. Coordinates are reals.
 */
module Rectangles {
  import opened Wrappers

  datatype Point = Point(x: real, y: real)

  /** Field order as declared: left-top, right-top, left-bottom, right-bottom. */
  datatype Rectangle = Rectangle(lt: Point, rt: Point, lb: Point, rb: Point)

  datatype Segment = Segment(start: Point, end: Point)

  /** An axis-aligned box (left, top, right, bottom), the shape of `Rectangle.wrapper`. */
  datatype Box = Box(left: real, top: real, right: real, bottom: real)

  /** `Rectangle.__iter__`: the corners in boundary order. */
  function Points(r: Rectangle): seq<Point>
  {
    [r.lt, r.lb, r.rb, r.rt]
  }

  /** `Rectangle.segments`: the four boundary edges. */
  function Segments(r: Rectangle): seq<Segment>
  {
    [Segment(r.lt, r.lb), Segment(r.lb, r.rb), Segment(r.rb, r.rt), Segment(r.rt, r.lt)]
  }

  /** Edge k runs from the k-th corner of the iteration order to the next one. */
  lemma SegmentsFollowPoints(r: Rectangle)
    ensures |Points(r)| == 4 && |Segments(r)| == 4
    ensures forall k :: 0 <= k < 4 ==>
      Segments(r)[k].start == Points(r)[k] && Segments(r)[k].end == Points(r)[(k + 1) % 4]
  {
    forall k | 0 <= k < 4
      ensures Segments(r)[k].start == Points(r)[k] && Segments(r)[k].end == Points(r)[(k + 1) % 4]
    {
      if k == 3 { assert (k + 1) % 4 == 0; } else { assert (k + 1) % 4 == k + 1; }
    }
  }

  /** The edges form a closed loop: each ends where the next begins, the last where the first begins. */
  lemma SegmentsFormClosedLoop(r: Rectangle)
    ensures forall k :: 0 <= k < 4 ==> Segments(r)[k].end == Segments(r)[(k + 1) % 4].start
  {
    forall k | 0 <= k < 4
      ensures Segments(r)[k].end == Segments(r)[(k + 1) % 4].start
    {
      if k == 3 { assert (k + 1) % 4 == 0; } else { assert (k + 1) % 4 == k + 1; }
    }
  }

  function Min(a: real, b: real): real { if b < a then b else a }
  function Max(a: real, b: real): real { if b > a then b else a }

  predicate Contains(b: Box, p: Point) {
    b.left <= p.x <= b.right && b.top <= p.y <= b.bottom
  }

  /** Every bound of `b` is reached by some point of `ps`. */
  ghost predicate Attained(b: Box, ps: seq<Point>) {
    && (exists k :: 0 <= k < |ps| && ps[k].x == b.left)
    && (exists k :: 0 <= k < |ps| && ps[k].y == b.top)
    && (exists k :: 0 <= k < |ps| && ps[k].x == b.right)
    && (exists k :: 0 <= k < |ps| && ps[k].y == b.bottom)
  }

  /**
   * The min/max fold over the points, in order. The source seeds it with
   * +inf/-inf; on a non-empty sequence that gives the same box as seeding
   * with the first point.
   */
  function Bounds(ps: seq<Point>): (b: Box)
    requires |ps| > 0
    ensures forall k :: 0 <= k < |ps| ==> Contains(b, ps[k])
    ensures Attained(b, ps)
    decreases |ps|
  {
    if |ps| == 1 then Box(ps[0].x, ps[0].y, ps[0].x, ps[0].y)
    else
      var init := ps[..|ps| - 1];
      var b := Bounds(init);
      var p := ps[|ps| - 1];
      assert forall k :: 0 <= k < |init| ==> ps[k] == init[k];
      Box(Min(b.left, p.x), Min(b.top, p.y), Max(b.right, p.x), Max(b.bottom, p.y))
  }

  /**
   * The min/max accumulator loop shared by `Polygon` sizes, overlap rates and
   * fragment boxes (utils.py, overlap.py, order2.py).
   */
  method ScanBounds(ps: seq<Point>) returns (b: Box)
    requires |ps| > 0
    ensures b == Bounds(ps)
  {
    b := Box(ps[0].x, ps[0].y, ps[0].x, ps[0].y);
    assert ps[..1] == [ps[0]];
    for k := 1 to |ps|
      invariant b == Bounds(ps[..k])
    {
      var p := ps[k];
      b := Box(Min(b.left, p.x), Min(b.top, p.y), Max(b.right, p.x), Max(b.bottom, p.y));
      assert ps[..k + 1][..k] == ps[..k];
    }
    assert ps[..|ps|] == ps;
  }

  /** `Rectangle.wrapper`: the min/max fold over the four corners in iteration order. */
  function Wrapper(r: Rectangle): (b: Box)
    ensures WellFormed(b)
  {
    Box(Min(Min(Min(r.lt.x, r.lb.x), r.rb.x), r.rt.x), Min(Min(Min(r.lt.y, r.lb.y), r.rb.y), r.rt.y),
        Max(Max(Max(r.lt.x, r.lb.x), r.rb.x), r.rt.x), Max(Max(Max(r.lt.y, r.lb.y), r.rb.y), r.rt.y))
  }

  /** The wrapper is the fold `Bounds` over the corners. */
  lemma WrapperIsBounds(r: Rectangle)
    ensures Wrapper(r) == Bounds(Points(r))
  {
    var ps := Points(r);
    assert ps[..3] == [ps[0], ps[1], ps[2]];
    assert ps[..3][..2] == [ps[0], ps[1]];
    assert ps[..3][..2][..1] == [ps[0]];
  }

  /** The wrapper is the tightest box around the corners: it holds them all and each side touches one. */
  lemma WrapperIsTightest(r: Rectangle)
    ensures forall p :: p in Points(r) ==> Contains(Wrapper(r), p)
    ensures Attained(Wrapper(r), Points(r))
  {
    WrapperIsBounds(r);
  }

  function Width(b: Box): real { b.right - b.left }
  function Height(b: Box): real { b.bottom - b.top }

  /** `Rectangle.size`: the wrapper's width and height, never negative. */
  function Size(r: Rectangle): (wh: (real, real))
    ensures wh.0 >= 0.0 && wh.1 >= 0.0
  {
    var b := Wrapper(r);
    (Width(b), Height(b))
  }

  predicate WellFormed(b: Box) {
    b.left <= b.right && b.top <= b.bottom
  }

  /** The axis-aligned quadrilateral with the corners of `b`. */
  function AxisRect(b: Box): Rectangle
  {
    Rectangle(Point(b.left, b.top), Point(b.right, b.top), Point(b.left, b.bottom), Point(b.right, b.bottom))
  }

  lemma WrapperOfAxisRect(b: Box)
    requires WellFormed(b)
    ensures Wrapper(AxisRect(b)) == b
  {
  }

  /** The exterior ring shapely reports for the polygon of a box: its corners, closed. */
  function Exterior(b: Box): seq<Point>
  {
    Points(AxisRect(b)) + [Point(b.left, b.top)]
  }

  lemma BoundsOfExterior(b: Box)
    requires WellFormed(b)
    ensures Bounds(Exterior(b)) == b
  {
    var ps := Exterior(b);
    assert ps[..4] == Points(AxisRect(b));
    assert ps[..4][..3] == [ps[0], ps[1], ps[2]];
    assert ps[..4][..3][..2] == [ps[0], ps[1]];
    assert ps[..4][..3][..2][..1] == [ps[0]];
  }

  /**
   * The intersection of two closed axis-aligned boxes, or None when they
   * share no point.
   */
  function Intersect(a: Box, b: Box): Option<Box>
  {
    var i := Box(Max(a.left, b.left), Max(a.top, b.top), Min(a.right, b.right), Min(a.bottom, b.bottom));
    if WellFormed(i) then Some(i) else None
  }

  /** Intersect is the common part: present exactly when a point is shared, and then holding exactly the shared points. */
  lemma IntersectIsCommonPart(a: Box, b: Box)
    ensures Intersect(a, b).Some? <==> exists p :: Contains(a, p) && Contains(b, p)
    ensures Intersect(a, b).Some? ==> forall p :: Contains(Intersect(a, b).value, p) <==> Contains(a, p) && Contains(b, p)
  {
    var i := Box(Max(a.left, b.left), Max(a.top, b.top), Min(a.right, b.right), Min(a.bottom, b.bottom));
    if WellFormed(i) {
      assert Contains(a, Point(i.left, i.top));
    }
  }

  /** The intersection lies inside both boxes. */
  lemma IntersectInside(a: Box, b: Box)
    requires Intersect(a, b).Some?
    ensures var i := Intersect(a, b).value;
      a.left <= i.left && i.right <= a.right && a.top <= i.top && i.bottom <= a.bottom &&
      b.left <= i.left && i.right <= b.right && b.top <= i.top && i.bottom <= b.bottom
  {
  }

  lemma IntersectIsSymmetric(a: Box, b: Box)
    ensures Intersect(a, b) == Intersect(b, a)
  {
  }
}
