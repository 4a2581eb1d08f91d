/**
 * The page data model of doc_page_extractor/types.py: OCR fragments, the
 * ten layout classes, and the plain/formula layout sum type.
 */
module Types {
  import opened Wrappers
  import opened Rectangles

  /** An OCR text span: reading-order position, text, confidence and quadrilateral. */
  datatype OCRFragment = OCRFragment(order: int, text: string, rank: real, rect: Rectangle)

  /** `LayoutClass`, in declaration order. */
  datatype LayoutClass =
    | Title
    | PlainText
    | Abandon
    | Figure
    | FigureCaption
    | Table
    | TableCaption
    | TableFootnote
    | IsolateFormula
    | FormulaCaption

  /** The enum value of each member. */
  function ClassId(c: LayoutClass): (id: nat)
    ensures id < 10
  {
    match c
    case Title => 0
    case PlainText => 1
    case Abandon => 2
    case Figure => 3
    case FigureCaption => 4
    case Table => 5
    case TableCaption => 6
    case TableFootnote => 7
    case IsolateFormula => 8
    case FormulaCaption => 9
  }

  /** `LayoutClass(id)`: the member with that value, None where the enum raises ValueError. */
  function ClassOf(id: int): (c: Option<LayoutClass>)
    ensures c.Some? <==> 0 <= id < 10
    ensures c.Some? ==> ClassId(c.value) == id
  {
    if id == 0 then Some(Title)
    else if id == 1 then Some(PlainText)
    else if id == 2 then Some(Abandon)
    else if id == 3 then Some(Figure)
    else if id == 4 then Some(FigureCaption)
    else if id == 5 then Some(Table)
    else if id == 6 then Some(TableCaption)
    else if id == 7 then Some(TableFootnote)
    else if id == 8 then Some(IsolateFormula)
    else if id == 9 then Some(FormulaCaption)
    else None
  }

  /** Exactly ten members with the ids 0..9: the id map is a bijection onto 0..9. */
  lemma ClassIdIsBijective(c: LayoutClass, id: int)
    ensures ClassOf(ClassId(c)) == Some(c)
    ensures ClassOf(id) == Some(c) <==> ClassId(c) == id
  {
  }

  /** The classes a `PlainLayout` may carry: all but ISOLATE_FORMULA. */
  type PlainClass = c: LayoutClass | c != IsolateFormula witness Title

  /**
   * `Layout = PlainLayout | FormulaLayout`. Both share the `BaseLayout`
   * fields `rect` and `fragments`; only the formula variant has a (possibly
   * absent) LaTeX payload.
   */
  datatype Layout =
    | PlainLayout(rect: Rectangle, fragments: seq<OCRFragment>, cls: PlainClass)
    | FormulaLayout(rect: Rectangle, fragments: seq<OCRFragment>, latex: Option<string>)
  {
    /** The layout's class; ISOLATE_FORMULA exactly for the formula variant. */
    function Class(): (c: LayoutClass)
      ensures c == IsolateFormula <==> this.FormulaLayout?
      ensures this.PlainLayout? ==> c == this.cls
    {
      match this
      case PlainLayout(_, _, cls) => cls
      case FormulaLayout(_, _, _) => IsolateFormula
    }
  }

  /** The page-level result; the two images are opaque values of type `Image`. */
  datatype ExtractedResult<Image> =
    ExtractedResult(rotation: real, layouts: seq<Layout>, extractedImage: Image, adjustedImage: Option<Image>)

  /** `_iter_fragments`: every layout's fragments, layout by layout. */
  function AllFragments(layouts: seq<Layout>): seq<OCRFragment>
  {
    if layouts == [] then []
    else
      var init := layouts[..|layouts| - 1];
      AllFragments(init) + layouts[|layouts| - 1].fragments
  }

  lemma {:induction false} AllFragmentsAppend(a: seq<Layout>, b: seq<Layout>)
    ensures AllFragments(a + b) == AllFragments(a) + AllFragments(b)
    decreases |b|
  {
    if b == [] {
      assert a + b == a;
    } else {
      var b' := b[..|b| - 1];
      assert (a + b)[..|a + b| - 1] == a + b';
      AllFragmentsAppend(a, b');
    }
  }
}
