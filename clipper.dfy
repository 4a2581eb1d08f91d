/**
 * The geometry helpers of doc_page_extractor/clipper.py: the output size of
 * a crop, 3x3 homogeneous matrices, the transform of a point and the
 * bounding box of a warped quadrilateral.
 *
 * `sqrt` is a parameter; `SqrtLaw` is all that is assumed of it.
 */
module Clipper {
  import opened Rectangles
  import opened EdgeSums

  function Square(x: real): real { x * x }

  /** `math.sqrt`: non-negative on non-negative arguments, and the inverse of squaring there. */
  ghost predicate SqrtLaw(sqrt: real -> real) {
    && (forall y :: y >= 0.0 ==> sqrt(y) >= 0.0)
    && (forall x :: x >= 0.0 ==> sqrt(Square(x)) == x)
  }

  /** `math.ceil`: the least integer not below `x`. */
  function Ceil(x: real): (c: int)
    ensures c as real - 1.0 < x <= c as real
  {
    if x.Floor as real == x then x.Floor else x.Floor + 1
  }

  lemma CeilIsLeast(x: real, n: int)
    requires x <= n as real
    ensures Ceil(x) <= n
  {
  }

  // ---------------------------------------------------------------------
  // _size_with_rect

  /** `sqrt(dx*dx + dy*dy)`. */
  function Distance(dx: real, dy: real, sqrt: real -> real): real {
    sqrt(Square(dx) + Square(dy))
  }

  lemma DistanceIsNonNegative(dx: real, dy: real, sqrt: real -> real)
    requires SqrtLaw(sqrt)
    ensures Distance(dx, dy, sqrt) >= 0.0
  {
    assert Square(dx) >= 0.0 && Square(dy) >= 0.0;
  }

  /** Along an axis the distance is the absolute difference. */
  lemma DistanceAlongAxis(d: real, sqrt: real -> real)
    requires SqrtLaw(sqrt)
    ensures Distance(0.0, d, sqrt) == (if d < 0.0 then -d else d)
    ensures Distance(d, 0.0, sqrt) == (if d < 0.0 then -d else d)
  {
    var a := if d < 0.0 then -d else d;
    assert Square(a) == Square(d);
    assert Square(0.0) + Square(d) == Square(a);
    assert Square(d) + Square(0.0) == Square(a);
  }

  function EdgeLength(s: Segment, sqrt: real -> real): real {
    Distance(s.end.x - s.start.x, s.end.y - s.start.y, sqrt)
  }

  /** The lengths of the edges in `segments` order. */
  function EdgeLengths(rect: Rectangle, sqrt: real -> real): (ls: seq<real>)
    ensures |ls| == 4 && forall k :: 0 <= k < 4 ==> ls[k] == EdgeLength(Segments(rect)[k], sqrt)
  {
    seq(4, k requires 0 <= k < 4 => EdgeLength(Segments(rect)[k], sqrt))
  }

  /**
   * The crop size (width, height): the even-position edges add to the height,
   * the odd-position ones to the width, and each sum is halved and rounded up.
   */
  function SizeOf(rect: Rectangle, sqrt: real -> real): (int, int)
  {
    var ls := EdgeLengths(rect, sqrt);
    (Ceil(ParitySum(ls, 1) / 2.0), Ceil(ParitySum(ls, 0) / 2.0))
  }

  /**
   * In terms of the corners: the width is the rounded-up mean length of
   * lb->rb and rt->lt, the height that of lt->lb and rb->rt; neither is negative.
   */
  lemma SizeOfCorners(rect: Rectangle, sqrt: real -> real)
    requires SqrtLaw(sqrt)
    ensures SizeOf(rect, sqrt).0 == Ceil((EdgeLength(Segment(rect.lb, rect.rb), sqrt) + EdgeLength(Segment(rect.rt, rect.lt), sqrt)) / 2.0)
    ensures SizeOf(rect, sqrt).1 == Ceil((EdgeLength(Segment(rect.lt, rect.lb), sqrt) + EdgeLength(Segment(rect.rb, rect.rt), sqrt)) / 2.0)
    ensures SizeOf(rect, sqrt).0 >= 0 && SizeOf(rect, sqrt).1 >= 0
  {
    var ls := EdgeLengths(rect, sqrt);
    ParitySumOfFour(ls);
    forall k | 0 <= k < 4
      ensures ls[k] >= 0.0
    {
      var s := Segments(rect)[k];
      DistanceIsNonNegative(s.end.x - s.start.x, s.end.y - s.start.y, sqrt);
    }
  }

  /** A w x h box gives (ceil w, ceil h). */
  lemma SizeOfAxisRect(b: Box, sqrt: real -> real)
    requires SqrtLaw(sqrt)
    requires WellFormed(b)
    ensures SizeOf(AxisRect(b), sqrt) == (Ceil(Width(b)), Ceil(Height(b)))
  {
    var r := AxisRect(b);
    var w := Width(b);
    var h := Height(b);
    SizeOfCorners(r, sqrt);
    DistanceAlongAxis(w, sqrt);
    DistanceAlongAxis(-w, sqrt);
    DistanceAlongAxis(h, sqrt);
    DistanceAlongAxis(-h, sqrt);
    assert EdgeLength(Segment(r.lt, r.lb), sqrt) == h && EdgeLength(Segment(r.rb, r.rt), sqrt) == h;
    assert EdgeLength(Segment(r.lb, r.rb), sqrt) == w && EdgeLength(Segment(r.rt, r.lt), sqrt) == w;
  }

  /** `_size_with_rect`: the loop over the edges with its two accumulators. */
  method SizeWithRect(rect: Rectangle, sqrt: real -> real) returns (size: (int, int))
    ensures size == SizeOf(rect, sqrt)
  {
    var n := 4.0 / 2.0;
    var width := 0.0;
    var height := 0.0;
    var segments := Segments(rect);
    ghost var lengths := EdgeLengths(rect, sqrt);
    for i := 0 to 4
      invariant height == ParitySum(lengths[..i], 0) && width == ParitySum(lengths[..i], 1)
    {
      var s := segments[i];
      var dx := s.end.x - s.start.x;
      var dy := s.end.y - s.start.y;
      var distance := Distance(dx, dy, sqrt);
      assert lengths[..i + 1][..i] == lengths[..i];
      if i % 2 == 0 {
        height := height + distance;
      } else {
        width := width + distance;
      }
    }
    assert lengths[..4] == lengths;
    size := (Ceil(width / n), Ceil(height / n));
  }

  // ---------------------------------------------------------------------
  // Matrices

  /** A 3x3 matrix as the flat row-major 9-tuple the helpers build and `reshape(3, 3)` reads. */
  type Matrix3 = m: seq<real> | |m| == 9 witness [1.0, 0.0, 0.0, 0.0, 1.0, 0.0, 0.0, 0.0, 1.0]

  function Entry(m: Matrix3, r: int, c: int): real
    requires 0 <= r < 3 && 0 <= c < 3
  {
    m[3 * r + c]
  }

  /** `_get_move_matrix`: the identity with (dx, dy) in the last column. */
  function MoveMatrix(dx: real, dy: real): (m: Matrix3)
    ensures forall r, c :: 0 <= r < 3 && 0 <= c < 2 ==> Entry(m, r, c) == (if r == c then 1.0 else 0.0)
    ensures Entry(m, 0, 2) == dx && Entry(m, 1, 2) == dy && Entry(m, 2, 2) == 1.0
  {
    [1.0, 0.0, dx,
     0.0, 1.0, dy,
     0.0, 0.0, 1.0]
  }

  /** Row `r` of the matrix applied to the column (x, y, 1). */
  function RowTimes(m: Matrix3, r: int, p: Point): real
    requires 0 <= r < 3
  {
    Entry(m, r, 0) * p.x + Entry(m, r, 1) * p.y + Entry(m, r, 2) * 1.0
  }

  /**
   * `_transform_point`: the product with (x, y, 1), divided by its third
   * component. The division needs that component to be non-zero.
   */
  function TransformPoint(m: Matrix3, p: Point): Point
    requires RowTimes(m, 2, p) != 0.0
  {
    var z := RowTimes(m, 2, p);
    Point(RowTimes(m, 0, p) / z, RowTimes(m, 1, p) / z)
  }

  /** Scaled back by the third component, the transformed point is the first two components of the product. */
  lemma TransformPointScales(m: Matrix3, p: Point)
    requires RowTimes(m, 2, p) != 0.0
    ensures TransformPoint(m, p).x * RowTimes(m, 2, p) == RowTimes(m, 0, p)
    ensures TransformPoint(m, p).y * RowTimes(m, 2, p) == RowTimes(m, 1, p)
  {
  }

  /** The move matrix translates every point by (dx, dy). */
  lemma MoveTranslates(dx: real, dy: real, p: Point)
    ensures RowTimes(MoveMatrix(dx, dy), 2, p) == 1.0
    ensures TransformPoint(MoveMatrix(dx, dy), p) == Point(p.x + dx, p.y + dy)
  {
    var m := MoveMatrix(dx, dy);
    assert Entry(m, 2, 0) == 0.0 && Entry(m, 2, 1) == 0.0;
    assert Entry(m, 0, 0) == 1.0 && Entry(m, 0, 1) == 0.0;
    assert Entry(m, 1, 0) == 0.0 && Entry(m, 1, 1) == 1.0;
  }

  /** For a matrix whose last row is (0, 0, 1) the transform is the plain product. */
  lemma AffineTransform(m: Matrix3, p: Point)
    requires Entry(m, 2, 0) == 0.0 && Entry(m, 2, 1) == 0.0 && Entry(m, 2, 2) == 1.0
    ensures RowTimes(m, 2, p) == 1.0
    ensures TransformPoint(m, p) == Point(RowTimes(m, 0, p), RowTimes(m, 1, p))
  {
  }

  /** `_to_pillow_matrix`: the first two rows, row-major. */
  function ToPillowMatrix(m: Matrix3): (t: seq<real>)
    ensures |t| == 6
    ensures forall r, c :: 0 <= r < 2 && 0 <= c < 3 ==> t[3 * r + c] == Entry(m, r, c)
  {
    [m[0], m[1], m[2], m[3], m[4], m[5]]
  }

  // ---------------------------------------------------------------------
  // _warp_rectangle

  /** Every corner has a non-zero homogeneous component under `m`. */
  predicate Warpable(rect: Rectangle, m: Matrix3) {
    forall k :: 0 <= k < 4 ==> RowTimes(m, 2, Points(rect)[k]) != 0.0
  }

  /** The transformed corners, in iteration order. */
  function Warped(rect: Rectangle, m: Matrix3): (ws: seq<Point>)
    requires Warpable(rect, m)
    ensures |ws| == 4 && forall k :: 0 <= k < 4 ==> ws[k] == TransformPoint(m, Points(rect)[k])
  {
    var ps := Points(rect);
    [TransformPoint(m, ps[0]), TransformPoint(m, ps[1]), TransformPoint(m, ps[2]), TransformPoint(m, ps[3])]
  }

  /**
   * ((left, top), (width, height)): the least transformed x and y, reached by
   * some corner, and the rounded-up extents, which are never negative and
   * cover every transformed corner. They are the least such integers: some
   * corner lies beyond `left + width - 1` and some beyond `top + height - 1`,
   * so width and height are the ceilings of the extents.
   */
  function Warp(rect: Rectangle, m: Matrix3): (r: ((real, real), (int, int)))
    requires Warpable(rect, m)
    ensures forall k :: 0 <= k < 4 ==> r.0.0 <= Warped(rect, m)[k].x && r.0.1 <= Warped(rect, m)[k].y
    ensures (exists k :: 0 <= k < 4 && Warped(rect, m)[k].x == r.0.0) && (exists k :: 0 <= k < 4 && Warped(rect, m)[k].y == r.0.1)
    ensures r.1.0 >= 0 && r.1.1 >= 0
    ensures forall k :: 0 <= k < 4 ==>
      Warped(rect, m)[k].x <= r.0.0 + r.1.0 as real && Warped(rect, m)[k].y <= r.0.1 + r.1.1 as real
    ensures exists k :: 0 <= k < 4 && Warped(rect, m)[k].x > r.0.0 + (r.1.0 - 1) as real
    ensures exists k :: 0 <= k < 4 && Warped(rect, m)[k].y > r.0.1 + (r.1.1 - 1) as real
  {
    var ws := Warped(rect, m);
    var b := Bounds(ws);
    assert Contains(b, ws[0]);
    ((b.left, b.top), (Ceil(Width(b)), Ceil(Height(b))))
  }

  /** `_warp_rectangle`: one min/max pass over the transformed corners, then the rounded-up extents. */
  method WarpRectangle(originRect: Rectangle, matrix: Matrix3) returns (r: ((real, real), (int, int)))
    requires Warpable(originRect, matrix)
    ensures r == Warp(originRect, matrix)
  {
    var b := WarpedBounds(originRect, matrix);
    var width := Ceil(Width(b));
    var height := Ceil(Height(b));
    r := ((b.left, b.top), (width, height));
    WarpOfBounds(originRect, matrix, b);
  }

  lemma WarpOfBounds(rect: Rectangle, m: Matrix3, b: Box)
    requires Warpable(rect, m) && b == Bounds(Warped(rect, m))
    ensures Warp(rect, m) == ((b.left, b.top), (Ceil(Width(b)), Ceil(Height(b))))
  {
  }

  /** The loop of `_warp_rectangle`: transform each corner and widen the box. */
  method WarpedBounds(originRect: Rectangle, matrix: Matrix3) returns (b: Box)
    requires Warpable(originRect, matrix)
    ensures b == Bounds(Warped(originRect, matrix))
  {
    var points := Points(originRect);
    ghost var warped := Warped(originRect, matrix);
    var p := TransformPoint(matrix, points[0]);
    var left, top, right, bottom := p.x, p.y, p.x, p.y;
    assert warped[..1] == [p];
    for k := 1 to 4
      invariant Box(left, top, right, bottom) == Bounds(warped[..k])
    {
      var q := TransformPoint(matrix, points[k]);
      assert warped[..k + 1][..k] == warped[..k];
      left := Min(left, q.x);
      right := Max(right, q.x);
      top := Min(top, q.y);
      bottom := Max(bottom, q.y);
    }
    assert warped[..4] == warped;
    b := Box(left, top, right, bottom);
  }
}
