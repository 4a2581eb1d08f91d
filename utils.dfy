/**
 * doc_page_extractor/utils.py: the whitespace test and the overlap rate
 * normalised by the first rectangle. Rectangles are modelled as well-formed
 * axis-aligned boxes, whose polygon intersection is again a box.
 */
module Utils {
  import opened Wrappers
  import opened Rectangles
  import Overlap

  /** The characters Python's `str.isspace` accepts, which `\s` matches in a str pattern. */
  predicate IsWhitespace(c: char) {
    || ('\t' <= c <= '\r')
    || ('\U{1c}' <= c <= '\U{1f}')
    || c == ' '
    || c == '\U{85}'
    || c == '\U{a0}'
    || c == '\U{1680}'
    || ('\U{2000}' <= c <= '\U{200a}')
    || c == '\U{2028}'
    || c == '\U{2029}'
    || c == '\U{202f}'
    || c == '\U{205f}'
    || c == '\U{3000}'
  }

  predicate AllWhitespace(s: string) {
    forall i :: 0 <= i < |s| ==> IsWhitespace(s[i])
  }

  /**
   * `re.match(r"^\s*$", text)` succeeds: a run of whitespace from the start
   * reaches a place where `$` matches, the end of the text or just before a
   * final newline.
   */
  ghost predicate SpacePatternMatches(text: string) {
    exists k :: 0 <= k <= |text| && AllWhitespace(text[..k]) &&
      (k == |text| || (k == |text| - 1 && text[k] == '\n'))
  }

  /** `is_space_text`: truthy exactly when the pattern matches, i.e. every character is whitespace. */
  function IsSpaceText(text: string): (r: bool)
    ensures r <==> SpacePatternMatches(text)
  {
    if AllWhitespace(text) then
      assert text[..|text|] == text;
      true
    else
      var i :| 0 <= i < |text| && !IsWhitespace(text[i]);
      NoMatchPastNonSpace(text, i);
      false
  }

  /** A non-whitespace character anywhere defeats the pattern. */
  lemma NoMatchPastNonSpace(text: string, i: int)
    requires 0 <= i < |text| && !IsWhitespace(text[i])
    ensures !SpacePatternMatches(text)
  {
    forall k | 0 <= k <= |text| && (k == |text| || (k == |text| - 1 && text[k] == '\n'))
      ensures !AllWhitespace(text[..k])
    {
      if i < k {
        assert text[..k][i] == text[i];
      }
    }
  }

  /**
   * The rate `overlap_rate(rect1, rect2)` promises: 0.0 when the boxes share
   * no point; the `.exterior` failure when the shared part is a line or a
   * point; otherwise the mean of the intersection's width over `rect1`'s
   * width and its height over `rect1`'s height. (For a box, `rect1.wrapper`
   * is the box itself: WrapperOfAxisRect.)
   */
  function OverlapRatio(rect1: Box, rect2: Box): (r: Result<real, Fault>)
    requires WellFormed(rect1) && WellFormed(rect2)
    ensures r.Success? ==> 0.0 <= r.value <= 1.0
  {
    match Intersect(rect1, rect2)
    case None => Success(0.0)
    case Some(i) =>
      if Width(i) == 0.0 || Height(i) == 0.0 then Failure(NotAPolygon)
      else
        var w := rect1;
        RatioAtMostOne(Width(i), Width(w));
        RatioAtMostOne(Height(i), Height(w));
        Success((Width(i) / Width(w) + Height(i) / Height(w)) / 2.0)
  }

  lemma RatioAtMostOne(a: real, b: real)
    requires 0.0 < a <= b
    ensures 0.0 < a / b <= 1.0
    ensures a / b == 1.0 <==> a == b
  {
  }

  /** `overlap_rate` itself: the min/max scan over the intersection's exterior ring. */
  method OverlapRate(rect1: Box, rect2: Box) returns (r: Result<real, Fault>)
    requires WellFormed(rect1) && WellFormed(rect2)
    ensures r == OverlapRatio(rect1, rect2)
  {
    var intersection := Intersect(rect1, rect2);
    if intersection.None? {
      return Success(0.0);
    }
    var i := intersection.value;
    if Width(i) == 0.0 || Height(i) == 0.0 {
      return Failure(NotAPolygon);
    }
    var overlayWidth, overlayHeight := ExteriorExtent(i);
    var x1, y1, x2, y2 := WrapperCorners(rect1);
    r := Success((overlayWidth / (x2 - x1) + overlayHeight / (y2 - y1)) / 2.0);
  }

  /** The four accumulators of the scan over a box's exterior ring end at its width and height. */
  method ExteriorExtent(i: Box) returns (width: real, height: real)
    requires WellFormed(i)
    ensures width == Width(i) && height == Height(i)
  {
    var b := ScanBounds(Exterior(i));
    BoundsOfExterior(i);
    width := b.right - b.left;
    height := b.bottom - b.top;
  }

  /** `x1, y1, x2, y2 = rect1.wrapper` for the quadrilateral of a box. */
  method WrapperCorners(b: Box) returns (x1: real, y1: real, x2: real, y2: real)
    requires WellFormed(b)
    ensures Box(x1, y1, x2, y2) == b
  {
    var w := Wrapper(AxisRect(b));
    WrapperOfAxisRect(b);
    x1, y1, x2, y2 := w.left, w.top, w.right, w.bottom;
  }

  predicate Inside(inner: Box, outer: Box) {
    outer.left <= inner.left && inner.right <= outer.right && outer.top <= inner.top && inner.bottom <= outer.bottom
  }

  /** A box of positive size overlaps another at rate exactly 1.0 iff it lies inside it. */
  lemma OverlapRatioIsOneIffInside(rect1: Box, rect2: Box)
    requires WellFormed(rect2)
    requires Width(rect1) > 0.0 && Height(rect1) > 0.0
    ensures OverlapRatio(rect1, rect2) == Success(1.0) <==> Inside(rect1, rect2)
  {
    if Inside(rect1, rect2) {
      assert Intersect(rect1, rect2) == Some(rect1);
      RatioAtMostOne(Width(rect1), Width(rect1));
      RatioAtMostOne(Height(rect1), Height(rect1));
    }
    if OverlapRatio(rect1, rect2) == Success(1.0) {
      var i := Intersect(rect1, rect2).value;
      IntersectInside(rect1, rect2);
      RatioAtMostOne(Width(i), Width(rect1));
      RatioAtMostOne(Height(i), Height(rect1));
      assert Width(i) / Width(rect1) == 1.0 && Height(i) / Height(rect1) == 1.0;
      assert i == rect1;
    }
  }

  /**
   * The two `overlap_rate`s differ only in which argument normalises: this
   * one divides by its first rectangle, overlap.py's by its second polygon.
   */
  lemma RatesAreMirrored(rect1: Box, rect2: Box)
    requires WellFormed(rect1) && WellFormed(rect2)
    ensures OverlapRatio(rect1, rect2) == Overlap.OverlapRatio(rect2, rect1)
  {

  }

  /** Identical non-degenerate boxes overlap at rate exactly 1.0. */
  lemma OverlapRatioOfItself(b: Box)
    requires Width(b) > 0.0 && Height(b) > 0.0
    ensures OverlapRatio(b, b) == Success(1.0)
  {
    OverlapRatioIsOneIffInside(b, b);
  }
}
