/**
 * `PageExtractor._parse_response` and `extract` of doc_page_extractor/extractor.py.
 * The items of `parse_ocr_response` are an input; the OCR model's responses
 * are inputs too, one item sequence per stage.
 */
module Extractor {
  import opened Wrappers
  import opened Sorting

  type Det = (int, int, int, int)

  /** The `(kind, content)` items of a parsed response: TEXT, DET or REF with its content. */
  datatype Item = TextItem(text: string) | DetItem(det: Det) | RefItem(ref: string)

  /** The `Layout` record of extractor.py. */
  datatype Layout = Layout(ref: string, det: Det, text: Option<string>)

  /** What `_parse_response` yields: `(ref, det, text)`. */
  type Yielded = (string, Det, Option<string>)

  /**
   * The specification keeps, with each pending or emitted value, the position
   * of the item it came from.
   */
  datatype Pending = Pending(det: Option<(nat, Det)>, ref: Option<(nat, string)>) {
    predicate Complete() { det.Some? && ref.Some? }
  }

  datatype Pair = Pair(ref: (nat, string), det: (nat, Det), text: Option<(nat, string)>)

  const Empty := Pending(None, None)

  /** The pair a complete pending state forms with an optional text. */
  function Emit(p: Pending, text: Option<(nat, string)>): Pair
    requires p.Complete()
  {
    Pair(p.ref.value, p.det.value, text)
  }

  /** One pass of the loop: item `items[k]` arriving in state `p`. */
  function Step(p: Pending, k: nat, item: Item): (Pending, seq<Pair>) {
    var (p1, out1) :=
      if item.TextItem? && p.Complete() then (Empty, [Emit(p, Some((k, item.text)))]) else (p, []);
    if p1.Complete() then (Empty, out1 + [Emit(p1, None)])
    else if item.DetItem? then (p1.(det := Some((k, item.det))), out1)
    else if item.RefItem? then (p1.(ref := Some((k, item.ref))), out1)
    else (p1, out1)
  }

  /** The state and the pairs after the loop has consumed `items`. */
  function Run(items: seq<Item>): (Pending, seq<Pair>)
    decreases |items|
  {
    if items == [] then (Empty, [])
    else
      var n := |items| - 1;
      var (p, out) := Run(items[..n]);
      var (p', more) := Step(p, n, items[n]);
      (p', out + more)
  }

  /** What the end of input adds: the complete pending pair, without text. */
  function Flush(p: Pending): seq<Pair> {
    if p.Complete() then [Emit(p, None)] else []
  }

  function PairsOf(items: seq<Item>): seq<Pair> {
    Run(items).1 + Flush(Run(items).0)
  }

  function YieldOf(p: Pair): Yielded {
    (p.ref.1, p.det.1, if p.text.Some? then Some(p.text.value.1) else None)
  }

  /** Everything `_parse_response` yields for `items`. */
  function ParsedOf(items: seq<Item>): seq<Yielded> {
    Map(YieldOf, PairsOf(items))
  }

  function DetValue(p: Pending): Option<Det> {
    if p.det.Some? then Some(p.det.value.1) else None
  }

  function RefValue(p: Pending): Option<string> {
    if p.ref.Some? then Some(p.ref.value.1) else None
  }

  /** `_parse_response`, collecting what it yields. */
  method ParseResponse(items: seq<Item>) returns (yielded: seq<Yielded>)
    ensures yielded == ParsedOf(items)
  {
    var det: Option<Det> := None;
    var ref: Option<string> := None;
    yielded := [];
    for k := 0 to |items|
      invariant DetValue(Run(items[..k]).0) == det && RefValue(Run(items[..k]).0) == ref
      invariant yielded == Map(YieldOf, Run(items[..k]).1)
    {
      assert items[..k + 1][..k] == items[..k];
      ghost var before := Run(items[..k]);
      MapAppend(YieldOf, before.1, Step(before.0, k, items[k]).1);
      var item := items[k];
      if item.TextItem? {
        if det.Some? && ref.Some? {
          yielded := yielded + [(ref.value, det.value, Some(item.text))];
          det := None;
          ref := None;
        }
      }
      if det.Some? && ref.Some? {
        yielded := yielded + [(ref.value, det.value, None)];
        det := None;
        ref := None;
      } else if item.DetItem? {
        det := Some(item.det);
      } else if item.RefItem? {
        ref := Some(item.ref);
      }
    }
    assert items[..|items|] == items;
    MapAppend(YieldOf, Run(items).1, Flush(Run(items).0));
    if det.Some? && ref.Some? {
      yielded := yielded + [(ref.value, det.value, None)];
    }
  }

  /** One stage of `extract`: the yielded triples unpacked as `det, ref, text` and rebuilt as `Layout(det, ref, text)`. */
  method ExtractLayouts(items: seq<Item>) returns (layouts: seq<Layout>)
    ensures |layouts| == |ParsedOf(items)|
    ensures forall k :: 0 <= k < |layouts| ==>
      layouts[k].ref == ParsedOf(items)[k].0 && layouts[k].det == ParsedOf(items)[k].1 && layouts[k].text == ParsedOf(items)[k].2
  {
    var parsed := ParseResponse(items);
    layouts := [];
    for k := 0 to |parsed|
      invariant |layouts| == k
      invariant forall j :: 0 <= j < k ==> layouts[j] == Layout(parsed[j].0, parsed[j].1, parsed[j].2)
    {
      var (det, ref, text) := parsed[k];
      layouts := layouts + [Layout(det, ref, text)];
    }
  }

  /** `extract`: one list of layouts per stage, the OCR model's responses given as parsed items. */
  method Extract(responses: seq<seq<Item>>) returns (pages: seq<seq<Layout>>)
    ensures |pages| == |responses|
    ensures forall s :: 0 <= s < |pages| ==> |pages[s]| == |ParsedOf(responses[s])|
    ensures forall s, k :: 0 <= s < |pages| && 0 <= k < |pages[s]| ==>
      pages[s][k] == Layout(ParsedOf(responses[s])[k].0, ParsedOf(responses[s])[k].1, ParsedOf(responses[s])[k].2)
  {
    pages := [];
    for s := 0 to |responses|
      invariant |pages| == s
      invariant forall t :: 0 <= t < s ==> |pages[t]| == |ParsedOf(responses[t])|
      invariant forall t, k :: 0 <= t < s && 0 <= k < |pages[t]| ==>
        pages[t][k] == Layout(ParsedOf(responses[t])[k].0, ParsedOf(responses[t])[k].1, ParsedOf(responses[t])[k].2)
    {
      var layouts := ExtractLayouts(responses[s]);
      pages := pages + [layouts];
    }
  }

  /** The four cases of one pass of the loop. */
  lemma StepCases(p: Pending, k: nat, item: Item)
    ensures item.TextItem? && p.Complete() ==> Step(p, k, item) == (Empty, [Emit(p, Some((k, item.text)))])
    ensures item.TextItem? && !p.Complete() ==> Step(p, k, item) == (p, [])
    ensures !item.TextItem? && p.Complete() ==> Step(p, k, item) == (Empty, [Emit(p, None)])
    ensures item.DetItem? && !p.Complete() ==> Step(p, k, item) == (p.(det := Some((k, item.det))), [])
    ensures item.RefItem? && !p.Complete() ==> Step(p, k, item) == (p.(ref := Some((k, item.ref))), [])
  {
    if !item.TextItem? && p.Complete() {
      var none: seq<Pair> := [];
      assert none + [Emit(p, None)] == [Emit(p, None)];
    }
  }

  /** A pair's values come from the items at its positions, its text strictly after its det and ref. */
  ghost predicate FromItems(items: seq<Item>, q: Pair) {
    && q.ref.0 < |items| && items[q.ref.0] == RefItem(q.ref.1)
    && q.det.0 < |items| && items[q.det.0] == DetItem(q.det.1)
    && (q.text.Some? ==> q.text.value.0 < |items| && items[q.text.value.0] == TextItem(q.text.value.1)
                         && q.ref.0 < q.text.value.0 && q.det.0 < q.text.value.0)
  }

  ghost predicate PendingFromItems(items: seq<Item>, p: Pending) {
    && (p.det.Some? ==> p.det.value.0 < |items| && items[p.det.value.0] == DetItem(p.det.value.1))
    && (p.ref.Some? ==> p.ref.value.0 < |items| && items[p.ref.value.0] == RefItem(p.ref.value.1))
  }

  function First(q: Pair): nat {
    if q.ref.0 < q.det.0 then q.ref.0 else q.det.0
  }

  function Last(q: Pair): nat {
    var m := if q.ref.0 < q.det.0 then q.det.0 else q.ref.0;
    if q.text.Some? && q.text.value.0 > m then q.text.value.0 else m
  }

  /** Pairs do not interleave: every item of one pair comes before every item of the next. */
  predicate InInputOrder(out: seq<Pair>) {
    forall a, b :: 0 <= a < b < |out| ==> Last(out[a]) < First(out[b])
  }

  /** Every pending position is after every emitted pair. */
  predicate PendingAfter(out: seq<Pair>, p: Pending) {
    && (p.det.Some? ==> forall a :: 0 <= a < |out| ==> Last(out[a]) < p.det.value.0)
    && (p.ref.Some? ==> forall a :: 0 <= a < |out| ==> Last(out[a]) < p.ref.value.0)
  }

  lemma {:induction false} RunProvenance(items: seq<Item>)
    ensures PendingFromItems(items, Run(items).0)
    ensures forall a :: 0 <= a < |Run(items).1| ==> FromItems(items, Run(items).1[a])
    decreases |items|
  {
    if items != [] {
      var n := |items| - 1;
      RunProvenance(items[..n]);
      var (p, out) := Run(items[..n]);
      var (p', more) := Step(p, n, items[n]);
      assert Run(items) == (p', out + more);
      forall a | 0 <= a < |out + more|
        ensures FromItems(items, (out + more)[a])
      {
        if a < |out| {
          assert FromItems(items[..n], out[a]);
        }
      }
    }
  }

  lemma {:induction false} RunOrder(items: seq<Item>)
    ensures InInputOrder(Run(items).1)
    ensures PendingAfter(Run(items).1, Run(items).0)
    ensures forall a :: 0 <= a < |Run(items).1| ==> Last(Run(items).1[a]) < |items|
    ensures Run(items).0.det.Some? ==> Run(items).0.det.value.0 < |items|
    ensures Run(items).0.ref.Some? ==> Run(items).0.ref.value.0 < |items|
    decreases |items|
  {
    if items != [] {
      var n := |items| - 1;
      RunOrder(items[..n]);
      var (p, out) := Run(items[..n]);
      var (p', more) := Step(p, n, items[n]);
      assert Run(items) == (p', out + more);
      StepOrder(out, p, n, items[n]);
    }
  }

  lemma StepOrder(out: seq<Pair>, p: Pending, n: nat, item: Item)
    requires InInputOrder(out) && PendingAfter(out, p)
    requires forall a :: 0 <= a < |out| ==> Last(out[a]) < n
    requires p.det.Some? ==> p.det.value.0 < n
    requires p.ref.Some? ==> p.ref.value.0 < n
    ensures var (p', more) := Step(p, n, item);
      && InInputOrder(out + more) && PendingAfter(out + more, p')
      && (forall a :: 0 <= a < |out + more| ==> Last((out + more)[a]) < n + 1)
  {
    var (p', more) := Step(p, n, item);
    if p.Complete() {
      var q := (out + more)[|out|];
      assert |more| == 1 && q == more[0];
      assert Last(q) <= n;
      forall a | 0 <= a < |out| ensures Last(out[a]) < First(q) { }
    }
  }

  /** The pairs of `_parse_response`, end of input included, do not interleave and come from their items. */
  lemma PairsInInputOrder(items: seq<Item>)
    ensures InInputOrder(PairsOf(items))
    ensures forall a :: 0 <= a < |PairsOf(items)| ==> FromItems(items, PairsOf(items)[a])
  {
    RunOrder(items);
    RunProvenance(items);
    var (p, out) := Run(items);
    if p.Complete() {
      var q := Emit(p, None);
      assert PairsOf(items) == out + [q];
      forall a | 0 <= a < |out| ensures Last(out[a]) < First(q) { }
    }
  }

  function CountDets(items: seq<Item>): nat
    decreases |items|
  {
    if items == [] then 0 else CountDets(items[..|items| - 1]) + (if items[|items| - 1].DetItem? then 1 else 0)
  }

  function CountRefs(items: seq<Item>): nat
    decreases |items|
  {
    if items == [] then 0 else CountRefs(items[..|items| - 1]) + (if items[|items| - 1].RefItem? then 1 else 0)
  }

  lemma {:induction false} RunCounts(items: seq<Item>)
    ensures |Run(items).1| + (if Run(items).0.det.Some? then 1 else 0) <= CountDets(items)
    ensures |Run(items).1| + (if Run(items).0.ref.Some? then 1 else 0) <= CountRefs(items)
    decreases |items|
  {
    if items != [] {
      RunCounts(items[..|items| - 1]);
    }
  }

  /** `_parse_response` yields at most one triple per DET item and at most one per REF item. */
  lemma ParsedCountBound(items: seq<Item>)
    ensures |ParsedOf(items)| <= CountDets(items)
    ensures |ParsedOf(items)| <= CountRefs(items)
  {
    RunCounts(items);
  }

  /** A response without TEXT items yields triples without text. */
  lemma {:induction false} NoTextNoText(items: seq<Item>)
    requires forall k :: 0 <= k < |items| ==> !items[k].TextItem?
    ensures forall a :: 0 <= a < |ParsedOf(items)| ==> ParsedOf(items)[a].2 == None
  {
    PairsInInputOrder(items);
    forall a | 0 <= a < |ParsedOf(items)|
      ensures ParsedOf(items)[a].2 == None
    {
      assert FromItems(items, PairsOf(items)[a]);
    }
  }

  /** REF, DET, TEXT yields the triple with the text; REF, DET, REF yields it without text and drops the second REF. */
  lemma ParseExamples(r: string, d: Det, t: string, r2: string)
    ensures ParsedOf([RefItem(r), DetItem(d), TextItem(t)]) == [(r, d, Some(t))]
    ensures ParsedOf([RefItem(r), DetItem(d), RefItem(r2)]) == [(r, d, None)]
  {
    var a := [RefItem(r), DetItem(d), TextItem(t)];
    var b := [RefItem(r), DetItem(d), RefItem(r2)];
    var ab := [RefItem(r), DetItem(d)];
    assert ab[..1] == [RefItem(r)] && [RefItem(r)][..0] == [];
    var none: seq<Pair> := [];
    assert none + none == none;
    var noItems: seq<Item> := [];
    assert [RefItem(r)][..0] == noItems && Run(noItems) == (Empty, none);
    assert Step(Empty, 0, RefItem(r)) == (Pending(None, Some((0, r))), none);
    assert Run([RefItem(r)]) == (Pending(None, Some((0, r))), none);
    var p := Pending(Some((1, d)), Some((0, r)));
    assert Step(Pending(None, Some((0, r))), 1, DetItem(d)) == (p, none);
    assert Run(ab) == (p, none);
    assert Step(p, 2, TextItem(t)) == (Empty, [Emit(p, Some((2, t)))]);
    assert Step(p, 2, RefItem(r2)) == (Empty, none + [Emit(p, None)]);
    assert a[..2] == ab && b[..2] == ab;
    assert none + [Emit(p, Some((2, t)))] == [Emit(p, Some((2, t)))];
    assert none + (none + [Emit(p, None)]) == [Emit(p, None)];
    assert Run(a) == (Empty, [Emit(p, Some((2, t)))]);
    assert Run(b) == (Empty, [Emit(p, None)]);
  }
}
