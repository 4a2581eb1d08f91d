/**
 * The geometry of doc_page_extractor/layout_order.py: the mean line height,
 * the virtual lines that stand in for layouts without plain-text fragments,
 * the clamping of coordinates into the page and Python's `round`.
 */
module LayoutLines {
  import opened Wrappers
  import opened Rectangles
  import opened Types
  import opened Sorting

  /** `_BBox`: the box handed to the reading-order scorer and where it came from. */
  datatype BBox = BBox(layoutIndex: nat, fragmentIndex: int, virtual: bool, value: Box)

  /** The largest coordinate the scorer accepts (`layoutreader_size`). */
  const LayoutReaderSize: real := 1000.0

  /** Above this many boxes the scorer is skipped. */
  const MaxBoxes: nat := 200

  /** `_line_height`'s answer when no fragment is on the page. */
  const DefaultLineHeight: real := 10.0

  /** The height of the fragment's wrapper box, `fragment.rect.size[1]`. */
  function FragmentHeight(f: OCRFragment): (h: real)
    ensures h >= 0.0
  {
    Size(f.rect).1
  }

  function Heights(fs: seq<OCRFragment>): (hs: seq<real>)
    ensures |hs| == |fs| && forall k :: 0 <= k < |fs| ==> hs[k] == FragmentHeight(fs[k]) >= 0.0
  {
    Map(FragmentHeight, fs)
  }

  function Sum(hs: seq<real>): real
    decreases |hs|
  {
    if hs == [] then 0.0 else Sum(hs[..|hs| - 1]) + hs[|hs| - 1]
  }

  /** What `_line_height` returns: the mean fragment height, or 10.0 with no fragment. */
  function LineHeightOf(layouts: seq<Layout>): real {
    var fs := AllFragments(layouts);
    if |fs| == 0 then DefaultLineHeight else Mean(Heights(fs))
  }

  function Mean(hs: seq<real>): real
    requires |hs| > 0
  {
    Sum(hs) / (|hs| as real)
  }

  /** `_line_height`: the two nested accumulator loops. */
  method LineHeight(layouts: seq<Layout>) returns (lineHeight: real)
    ensures lineHeight == LineHeightOf(layouts)
  {
    var total: real := 0.0;
    var count: int := 0;
    for i := 0 to |layouts|
      invariant total == Sum(Heights(AllFragments(layouts[..i])))
      invariant count == |AllFragments(layouts[..i])|
    {
      assert layouts[..i + 1][..i] == layouts[..i];
      var fs := layouts[i].fragments;
      ghost var before := AllFragments(layouts[..i]);
      assert before + fs[..0] == before;
      for k := 0 to |fs|
        invariant total == Sum(Heights(before + fs[..k]))
        invariant count == |before| + k
      {
        SumHeightsStep(before, fs, k);
        var (_, height) := Size(fs[k].rect);
        total := total + height;
        count := count + 1;
      }
      assert fs[..|fs|] == fs;
    }
    assert layouts[..|layouts|] == layouts;
    if count == 0 {
      return DefaultLineHeight;
    }
    return total / (count as real);
  }

  lemma SumHeightsStep(before: seq<OCRFragment>, fs: seq<OCRFragment>, k: int)
    requires 0 <= k < |fs|
    ensures Sum(Heights(before + fs[..k + 1])) == Sum(Heights(before + fs[..k])) + Size(fs[k].rect).1
  {
    var next := before + fs[..k + 1];
    assert next[..|next| - 1] == before + fs[..k];
    assert Heights(next)[..|next| - 1] == Heights(before + fs[..k]);
  }

  /** A sum of non-negative numbers is non-negative, and zero exactly when every term is. */
  lemma {:induction false} SumZeroIff(hs: seq<real>)
    requires forall k :: 0 <= k < |hs| ==> hs[k] >= 0.0
    ensures Sum(hs) >= 0.0
    ensures Sum(hs) == 0.0 <==> forall k :: 0 <= k < |hs| ==> hs[k] == 0.0
    decreases |hs|
  {
    if hs != [] {
      var n := |hs| - 1;
      assert forall k :: 0 <= k < n ==> hs[..n][k] == hs[k];
      SumZeroIff(hs[..n]);
    }
  }

  /** The line height is never negative. */
  lemma LineHeightNonNegative(layouts: seq<Layout>)
    ensures LineHeightOf(layouts) >= 0.0
  {
    SumZeroIff(Heights(AllFragments(layouts)));
  }

  /**
   * The line height is zero, which makes `_generate_virtual_lines` divide
   * by zero, exactly when there are fragments and all of them are flat.
   */
  lemma LineHeightZeroIff(layouts: seq<Layout>)
    ensures var fs := AllFragments(layouts);
      LineHeightOf(layouts) == 0.0 <==> |fs| > 0 && forall k :: 0 <= k < |fs| ==> FragmentHeight(fs[k]) == 0.0
  {
    var fs := AllFragments(layouts);
    SumZeroIff(Heights(fs));
    if |fs| > 0 {
      MeanZeroIff(Sum(Heights(fs)), |Heights(fs)| as real);
    }
  }

  lemma MeanZeroIff(s: real, n: real)
    requires n > 0.0
    ensures s / n == 0.0 <==> s == 0.0
  {
  }

  lemma {:induction false} SumOfEqual(hs: seq<real>, h: real)
    requires forall k :: 0 <= k < |hs| ==> hs[k] == h
    ensures Sum(hs) == (|hs| as real) * h
    decreases |hs|
  {
    if hs != [] {
      var n := |hs| - 1;
      assert forall k :: 0 <= k < n ==> hs[..n][k] == hs[k];
      SumOfEqual(hs[..n], h);
    }
  }

  /** The mean of equal numbers is that number. */
  lemma MeanOfEqual(hs: seq<real>, h: real)
    requires |hs| > 0
    requires forall k :: 0 <= k < |hs| ==> hs[k] == h
    ensures Mean(hs) == h
  {
    SumOfEqual(hs, h);
  }

  /** When all fragments have the same height, that height is the line height. */
  lemma LineHeightOfEqualHeights(layouts: seq<Layout>, h: real)
    requires |AllFragments(layouts)| > 0
    requires forall k :: 0 <= k < |AllFragments(layouts)| ==> FragmentHeight(AllFragments(layouts)[k]) == h
    ensures LineHeightOf(layouts) == h
  {
    MeanOfEqual(Heights(AllFragments(layouts)), h);
  }

  /** Python's `int(x)` on a float: truncation toward zero. */
  function Trunc(x: real): (t: int)
    ensures x >= 0.0 ==> t as real <= x < t as real + 1.0
    ensures x < 0.0 ==> t as real - 1.0 < x <= t as real
  {
    if x >= 0.0 then x.Floor else -((-x).Floor)
  }

  /** The page-relative tests of `_generate_virtual_lines` that may split a tall layout. */
  predicate MaySplit(layoutHeight: real, layoutWeight: real, width: int, height: int) {
    || layoutHeight <= (height as real) * 0.25
    || (width as real) * 0.5 <= layoutWeight
    || (width as real) * 0.25 < layoutWeight
  }

  /** The whole wrapper box as one virtual line. */
  function WholeLine(b: Box, layoutIndex: nat): BBox {
    BBox(layoutIndex, 0, true, b)
  }

  /** Band `i` of `lines` equal bands, as the loop's running `current_y` gives it. */
  function Band(b: Box, layoutIndex: nat, lines: int, i: nat): BBox
    requires lines != 0
  {
    var lineHeight := (b.bottom - b.top) / (lines as real);
    var currentY := b.top + (i as real) * lineHeight;
    BBox(layoutIndex, i, true, Box(b.left, currentY, b.right, currentY + lineHeight))
  }

  /** `range(lines)` bands, or the division by zero of `(y1 - y0) / lines`. */
  function Bands(b: Box, layoutIndex: nat, lines: int): (r: Result<seq<BBox>, Fault>)
    ensures r.Failure? <==> lines == 0
  {
    if lines == 0 then Failure(ZeroDivision)
    else Success(seq(if lines > 0 then lines else 0, i requires 0 <= i => Band(b, layoutIndex, lines, i)))
  }

  /** What `_generate_virtual_lines` yields, or the division by zero it raises. */
  function VirtualLines(rect: Rectangle, layoutIndex: nat, lineHeight: real, width: int, height: int): Result<seq<BBox>, Fault> {
    var b := Wrapper(rect);
    var layoutHeight := b.bottom - b.top;
    var layoutWeight := b.right - b.left;
    if lineHeight == 0.0 then Failure(ZeroDivision)
    else
      var lines := Trunc(layoutHeight / lineHeight);
      if layoutHeight <= lineHeight * 2.0 then Success([WholeLine(b, layoutIndex)])
      else if MaySplit(layoutHeight, layoutWeight, width, height) then
        if layoutWeight > (width as real) * 0.4 then Bands(b, layoutIndex, 3)
        else if layoutWeight <= (width as real) * 0.25 then
          if layoutWeight == 0.0 then Failure(ZeroDivision)
          else if layoutHeight / layoutWeight > 1.2 then Success([WholeLine(b, layoutIndex)])
          else Bands(b, layoutIndex, 2)
        else Bands(b, layoutIndex, lines)
      else Bands(b, layoutIndex, lines)
  }

  /** `_generate_virtual_lines`, with the generator's yields collected in order. */
  method GenerateVirtualLines(layout: Layout, layoutIndex: nat, lineHeight: real, width: int, height: int)
    returns (r: Result<seq<BBox>, Fault>)
    ensures r == VirtualLines(layout.rect, layoutIndex, lineHeight, width, height)
  {
    var b := Wrapper(layout.rect);
    var x0, y0, x1, y1 := b.left, b.top, b.right, b.bottom;
    var layoutHeight := y1 - y0;
    var layoutWeight := x1 - x0;
    if lineHeight == 0.0 {
      return Failure(ZeroDivision);
    }
    var lines := Trunc(layoutHeight / lineHeight);
    if layoutHeight <= lineHeight * 2.0 {
      return Success([BBox(layoutIndex, 0, true, Box(x0, y0, x1, y1))]);
    } else if MaySplit(layoutHeight, layoutWeight, width, height) {
      if layoutWeight > (width as real) * 0.4 {
        lines := 3;
      } else if layoutWeight <= (width as real) * 0.25 {
        if layoutWeight == 0.0 {
          return Failure(ZeroDivision);
        }
        if layoutHeight / layoutWeight > 1.2 {
          return Success([BBox(layoutIndex, 0, true, Box(x0, y0, x1, y1))]);
        } else {
          lines := 2;
        }
      }
    }
    if lines == 0 {
      return Failure(ZeroDivision);
    }
    var bands := EmitBands(b, layoutIndex, lines);
    return Success(bands);
  }

  /** The closing loop of `_generate_virtual_lines`: `lines` bands, advancing `current_y`. */
  method EmitBands(b: Box, layoutIndex: nat, lines: int) returns (bands: seq<BBox>)
    requires lines != 0
    ensures Success(bands) == Bands(b, layoutIndex, lines)
  {
    var x0, y0, x1, y1 := b.left, b.top, b.right, b.bottom;
    var lineHeight := (y1 - y0) / (lines as real);
    var currentY := y0;
    bands := [];
    var i := 0;
    while i < lines
      invariant 0 <= i && (lines > 0 ==> i <= lines) && (lines <= 0 ==> i == 0)
      invariant currentY == y0 + (i as real) * lineHeight
      invariant |bands| == i && forall j :: 0 <= j < i ==> bands[j] == Band(b, layoutIndex, lines, j)
    {
      bands := bands + [BBox(layoutIndex, i, true, Box(x0, currentY, x1, currentY + lineHeight))];
      currentY := currentY + lineHeight;
      i := i + 1;
    }
    var n := if lines > 0 then lines else 0;
    assert i == n;
    var expected := seq(n, j requires 0 <= j => Band(b, layoutIndex, lines, j));
    assert |expected| == |bands|;
    assert forall j :: 0 <= j < n ==> expected[j] == bands[j];
    assert bands == expected;
  }

  /** Bands of a box: each spans its width, and together they tile its height without gap or overlap. */
  lemma BandsTile(b: Box, layoutIndex: nat, lines: int)
    requires lines > 0
    ensures var bs := Bands(b, layoutIndex, lines).value;
      && |bs| == lines
      && bs[0].value.top == b.top
      && bs[lines - 1].value.bottom == b.bottom
      && (forall i :: 0 <= i < lines ==> bs[i].value.left == b.left && bs[i].value.right == b.right)
      && (forall i :: 0 <= i < lines ==> bs[i].layoutIndex == layoutIndex && bs[i].fragmentIndex == i && bs[i].virtual)
      && (forall i :: 0 <= i < lines - 1 ==> bs[i].value.bottom == bs[i + 1].value.top)
  {
    var bs := Bands(b, layoutIndex, lines).value;
    var n := lines as real;
    var bh := (b.bottom - b.top) / n;
    forall i | 0 <= i < lines - 1
      ensures bs[i].value.bottom == bs[i + 1].value.top
    {
      assert (i as real) * bh + bh == ((i + 1) as real) * bh;
    }
    assert (n - 1.0) * bh + bh == n * bh;
    assert n * bh == b.bottom - b.top;
  }

  /**
   * With a positive line height, a layout whose wrapper box is not taller
   * than two lines is one virtual line, its whole box.
   */
  lemma ShortLayoutIsOneLine(rect: Rectangle, layoutIndex: nat, lineHeight: real, width: int, height: int)
    requires lineHeight > 0.0
    requires Height(Wrapper(rect)) <= lineHeight * 2.0
    ensures VirtualLines(rect, layoutIndex, lineHeight, width, height) == Success([WholeLine(Wrapper(rect), layoutIndex)])
  {
  }

  /** A taller layout wider than 0.4 of the page becomes exactly three bands. */
  lemma WideLayoutIsThreeLines(rect: Rectangle, layoutIndex: nat, lineHeight: real, width: int, height: int)
    requires lineHeight > 0.0 && width > 0
    requires Height(Wrapper(rect)) > lineHeight * 2.0
    requires Width(Wrapper(rect)) > (width as real) * 0.4
    ensures VirtualLines(rect, layoutIndex, lineHeight, width, height).Success?
    ensures |VirtualLines(rect, layoutIndex, lineHeight, width, height).value| == 3
  {
  }

  lemma TruncAtLeastTwo(x: real)
    requires x > 2.0
    ensures Trunc(x) >= 2
  {
  }

  lemma RatioAboveTwo(h: real, lh: real)
    requires lh > 0.0 && h > lh * 2.0
    ensures h / lh > 2.0
  {
  }

  /**
   * With a positive line height the only failure is the division by a zero
   * layout width; every success is at least one band, and the bands span
   * the wrapper's width and tile its height.
   */
  lemma VirtualLinesCover(rect: Rectangle, layoutIndex: nat, lineHeight: real, width: int, height: int)
    requires lineHeight > 0.0
    ensures var r := VirtualLines(rect, layoutIndex, lineHeight, width, height);
      r.Failure? ==> Width(Wrapper(rect)) == 0.0
    ensures var r := VirtualLines(rect, layoutIndex, lineHeight, width, height);
      r.Success? ==> |r.value| >= 1
    ensures var r := VirtualLines(rect, layoutIndex, lineHeight, width, height); var b := Wrapper(rect);
      r.Success? ==> r.value[0].value.top == b.top && r.value[|r.value| - 1].value.bottom == b.bottom
    ensures var r := VirtualLines(rect, layoutIndex, lineHeight, width, height); var b := Wrapper(rect);
      r.Success? ==> forall i :: 0 <= i < |r.value| - 1 ==> r.value[i].value.bottom == r.value[i + 1].value.top
    ensures var r := VirtualLines(rect, layoutIndex, lineHeight, width, height); var b := Wrapper(rect);
      r.Success? ==> forall i :: 0 <= i < |r.value| ==>
        r.value[i].virtual && r.value[i].layoutIndex == layoutIndex && r.value[i].value.left == b.left && r.value[i].value.right == b.right
  {
    var b := Wrapper(rect);
    var layoutHeight := b.bottom - b.top;
    if layoutHeight > lineHeight * 2.0 {
      RatioAboveTwo(layoutHeight, lineHeight);
      TruncAtLeastTwo(layoutHeight / lineHeight);
      var lines := Trunc(layoutHeight / lineHeight);
      BandsTile(b, layoutIndex, lines);
      BandsTile(b, layoutIndex, 3);
      BandsTile(b, layoutIndex, 2);
    }
  }

  /** `_squeeze_value`: the position clamped into [0, size]. */
  function SqueezeValue(position: real, size: int): (r: real)
    ensures size >= 0 ==> 0.0 <= r <= size as real
    ensures 0.0 <= position <= size as real ==> r == position
  {
    var p := if position < 0.0 then 0.0 else position;
    if p > size as real then size as real else p
  }

  /** `_squeeze`: x clamped by the page width, y by its height. */
  function Squeeze(b: Box, width: int, height: int): Box {
    Box(SqueezeValue(b.left, width), SqueezeValue(b.top, height), SqueezeValue(b.right, width), SqueezeValue(b.bottom, height))
  }

  /** Python's `round` on a float: to the nearest integer, ties to the even one. */
  function RoundHalfEven(x: real): (r: int)
    ensures x - 0.5 <= r as real <= x + 0.5
    ensures (r as real - x == 0.5 || x - r as real == 0.5) ==> r % 2 == 0
  {
    var f := x.Floor;
    var d := x - f as real;
    if d < 0.5 then f
    else if d > 0.5 then f + 1
    else if f % 2 == 0 then f else f + 1
  }

  /** A clamped coordinate scaled by `1000 / size` and rounded. */
  function Scaled(position: real, scale: real): real {
    RoundHalfEven(position * scale) as real
  }

  /** The value `_layout_orders` writes back into each box. */
  function ScaledBox(b: Box, width: int, height: int): Box
    requires width != 0 && height != 0
  {
    var s := Squeeze(b, width, height);
    var xScale := LayoutReaderSize / (width as real);
    var yScale := LayoutReaderSize / (height as real);
    Box(Scaled(s.left, xScale), Scaled(s.top, yScale), Scaled(s.right, xScale), Scaled(s.bottom, yScale))
  }

  /** A whole number in 0..1000. */
  predicate InScorerRange(v: real) {
    0.0 <= v <= LayoutReaderSize && v == v.Floor as real
  }

  lemma ScaleIntoRange(p: real, size: int)
    requires size > 0 && 0.0 <= p <= size as real
    ensures 0.0 <= p * (LayoutReaderSize / (size as real)) <= LayoutReaderSize
  {
    var s := size as real;
    var q := p / s;
    assert 0.0 <= q <= 1.0;
    assert p * (LayoutReaderSize / s) == LayoutReaderSize * q;
  }

  lemma ScaledValueInRange(q: real, scale: real)
    requires 0.0 <= q * scale <= LayoutReaderSize
    ensures InScorerRange(Scaled(q, scale))
  {
    RoundedInRange(q * scale);
  }

  lemma RoundedInRange(x: real)
    requires 0.0 <= x <= LayoutReaderSize
    ensures InScorerRange(RoundHalfEven(x) as real)
  {
  }

  /** A coordinate clamped into a page side of positive size, then scaled and rounded, is a whole number in 0..1000. */
  lemma ScaledInRange(p: real, size: int)
    requires size > 0
    ensures InScorerRange(Scaled(SqueezeValue(p, size), LayoutReaderSize / (size as real)))
  {
    var q := SqueezeValue(p, size);
    ScaleIntoRange(q, size);
    ScaledValueInRange(q, LayoutReaderSize / (size as real));
  }

  /** On a page of positive size, every scaled coordinate is a whole number in 0..1000. */
  lemma ScaledBoxInRange(b: Box, width: int, height: int)
    requires width > 0 && height > 0
    ensures var v := ScaledBox(b, width, height);
      InScorerRange(v.left) && InScorerRange(v.top) && InScorerRange(v.right) && InScorerRange(v.bottom)
  {
    ScaledInRange(b.left, width);
    ScaledInRange(b.right, width);
    ScaledInRange(b.top, height);
    ScaledInRange(b.bottom, height);
  }
}
