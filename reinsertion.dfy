/**
 * The reinsertion loop shared by `_sort_layouts` (doc_page_extractor/order2.py)
 * and `LayoutOrder.sort` (doc_page_extractor/layout_order.py): layouts that
 * were set aside are put back, one after the other, right after the placed
 * entry with the largest smaller original index, or at the front when there
 * is none.
 */
module Reinsertion {
  import opened Types
  import opened Sorting

  /** A layout paired with its index in the list being sorted. */
  type Entry = (nat, Layout)

  function EntryLayout(e: Entry): Layout { e.1 }

  /** `[layout for _, layout in entries]`. */
  function Values(s: seq<Entry>): (vs: seq<Layout>)
    ensures |vs| == |s| && forall k :: 0 <= k < |s| ==> vs[k] == s[k].1
  {
    Map(EntryLayout, s)
  }

  /**
   * The scan for `max_less_index_in_enumerated`: the position of the first
   * entry with the largest index below `i`, or -1 when no index is below `i`.
   */
  function MaxLessPos(s: seq<Entry>, i: nat): (p: int)
    ensures -1 <= p < |s|
    ensures p == -1 ==> forall j :: 0 <= j < |s| ==> s[j].0 >= i
    ensures p >= 0 ==> s[p].0 < i
    ensures p >= 0 ==> forall j :: 0 <= j < |s| && s[j].0 < i ==> s[j].0 <= s[p].0
    ensures p >= 0 ==> forall j :: 0 <= j < p ==> s[j].0 != s[p].0
    decreases |s|
  {
    if s == [] then -1
    else
      var n := |s| - 1;
      var p := MaxLessPos(s[..n], i);
      var k := s[n].0;
      if k < i && k > (if p == -1 then -1 else s[p].0) then n else p
  }

  /** One empty layout put back after the placed entry with the largest smaller index. */
  function InsertEmpty(s: seq<Entry>, e: Entry): (r: seq<Entry>)
    ensures |r| == |s| + 1
    ensures multiset(r) == multiset(s) + multiset{e}
  {
    var p := MaxLessPos(s, e.0) + 1;
    assert s == s[..p] + s[p..];
    s[..p] + [e] + s[p..]
  }

  /**
   * `e` goes in at some position `p`, with every other entry keeping its
   * place: at the front when no index is below its own, else right after the
   * first entry with the largest index below its own.
   */
  lemma InsertEmptyPlacement(s: seq<Entry>, e: Entry)
    ensures exists p :: (
      && 0 <= p <= |s|
      && InsertEmpty(s, e) == s[..p] + [e] + s[p..]
      && (p == 0 ==> forall j :: 0 <= j < |s| ==> s[j].0 >= e.0)
      && (p > 0 ==> s[p - 1].0 < e.0)
      && (p > 0 ==> forall j :: 0 <= j < |s| && s[j].0 < e.0 ==> s[j].0 <= s[p - 1].0)
      && (p > 0 ==> forall j :: 0 <= j < p - 1 ==> s[j].0 != s[p - 1].0))
  {
    var p := MaxLessPos(s, e.0) + 1;
    assert InsertEmpty(s, e) == s[..p] + [e] + s[p..];
  }

  /** The empty layouts put back in their order. */
  function ReinsertAll(s: seq<Entry>, es: seq<Entry>): seq<Entry>
    decreases |es|
  {
    if es == [] then s
    else InsertEmpty(ReinsertAll(s, es[..|es| - 1]), es[|es| - 1])
  }

  /** The reinsertion loop of both sorts, with its inner scan. */
  method Reinsert(sortedLayouts: seq<Entry>, emptyLayouts: seq<Entry>) returns (result: seq<Entry>)
    ensures result == ReinsertAll(sortedLayouts, emptyLayouts)
  {
    result := sortedLayouts;
    for n := 0 to |emptyLayouts|
      invariant result == ReinsertAll(sortedLayouts, emptyLayouts[..n])
    {
      ReinsertAllLast(sortedLayouts, emptyLayouts, n);
      result := InsertEntry(result, emptyLayouts[n]);
    }
    assert emptyLayouts[..|emptyLayouts|] == emptyLayouts;
  }

  /** One turn of the reinsertion loop: the scan, then the insertion after the entry it found. */
  method InsertEntry(result: seq<Entry>, entry: Entry) returns (r: seq<Entry>)
    ensures r == InsertEmpty(result, entry)
  {
    var (i, layout) := entry;
    var maxLessFound, maxLessIndexInEnumerated := FindMaxLess(result, i);
    if !maxLessFound {
      r := [entry] + result;
      PrependIsInsertAtFront(result, entry);
    } else {
      r := result[..maxLessIndexInEnumerated + 1] + [entry] + result[maxLessIndexInEnumerated + 1..];
    }
  }

  lemma PrependIsInsertAtFront(s: seq<Entry>, e: Entry)
    ensures [e] + s == s[..0] + [e] + s[0..]
  {
  }

  lemma ReinsertAllLast(s: seq<Entry>, es: seq<Entry>, n: int)
    requires 0 <= n < |es|
    ensures ReinsertAll(s, es[..n + 1]) == InsertEmpty(ReinsertAll(s, es[..n]), es[n])
  {
    assert es[..n + 1][..n] == es[..n];
  }

  /** The inner scan for the first entry carrying the largest index below `i`. */
  method FindMaxLess(sortedLayouts: seq<Entry>, i: nat) returns (maxLessFound: bool, maxLessIndexInEnumerated: int)
    ensures maxLessIndexInEnumerated == MaxLessPos(sortedLayouts, i)
    ensures maxLessFound <==> maxLessIndexInEnumerated != -1
  {
    var maxLessIndex: int := -1;
    maxLessFound := false;
    maxLessIndexInEnumerated := -1;
    for j := 0 to |sortedLayouts|
      invariant maxLessIndexInEnumerated == MaxLessPos(sortedLayouts[..j], i)
      invariant maxLessFound <==> maxLessIndexInEnumerated != -1
      invariant maxLessIndex == if maxLessIndexInEnumerated == -1 then -1 else sortedLayouts[maxLessIndexInEnumerated].0
    {
      assert sortedLayouts[..j + 1][..j] == sortedLayouts[..j];
      var (k, sortedLayout) := sortedLayouts[j];
      if k < i && k > maxLessIndex {
        maxLessIndex := k;
        maxLessFound := true;
        maxLessIndexInEnumerated := j;
      }
    }
    assert sortedLayouts[..|sortedLayouts|] == sortedLayouts;
  }

  /** Nothing is lost or duplicated: the result holds the placed and the empty entries. */
  lemma {:induction false} ReinsertAllPermutes(s: seq<Entry>, es: seq<Entry>)
    ensures |ReinsertAll(s, es)| == |s| + |es|
    ensures multiset(ReinsertAll(s, es)) == multiset(s) + multiset(es)
    decreases |es|
  {
    if es != [] {
      var init := es[..|es| - 1];
      ReinsertAllPermutes(s, init);
      assert es == init + [es[|es| - 1]];
    }
  }

  predicate KeysIncreasing(s: seq<Entry>) {
    forall a, b :: 0 <= a < b < |s| ==> s[a].0 < s[b].0
  }

  /** Into entries of increasing index, a new index goes in at its sorted place. */
  lemma InsertKeepsIncreasing(s: seq<Entry>, e: Entry)
    requires KeysIncreasing(s)
    requires forall j :: 0 <= j < |s| ==> s[j].0 != e.0
    ensures KeysIncreasing(InsertEmpty(s, e))
  {
    var p := MaxLessPos(s, e.0) + 1;
    var r := InsertEmpty(s, e);
    assert r == s[..p] + [e] + s[p..];
    forall j | 0 <= j < |s|
      ensures j < p ==> s[j].0 < e.0
      ensures j >= p ==> s[j].0 > e.0
    {
      if j < p {
        assert s[j].0 <= s[p - 1].0;
      } else if p > 0 {
        assert s[p - 1].0 < s[j].0;
      }
    }
    forall a, b | 0 <= a < b < |r|
      ensures r[a].0 < r[b].0
    {
      if b < p {
        assert r[a] == s[a] && r[b] == s[b];
      } else if b == p {
        assert r[a] == s[a];
      } else if a < p {
        assert r[a] == s[a] && r[b] == s[b - 1];
      } else if a == p {
        assert r[b] == s[b - 1];
      } else {
        assert r[a] == s[a - 1] && r[b] == s[b - 1];
      }
    }
  }

  /** Indices that are all distinct. */
  predicate DistinctKeys(s: seq<Entry>) {
    forall a, b :: 0 <= a < b < |s| ==> s[a].0 != s[b].0
  }

  /**
   * When the placed entries have increasing indices and no index occurs
   * twice among all entries, the result has increasing indices.
   */
  lemma {:induction false} ReinsertAllKeepsIncreasing(s: seq<Entry>, es: seq<Entry>)
    requires KeysIncreasing(s)
    requires DistinctKeys(es)
    requires forall j, k :: 0 <= j < |s| && 0 <= k < |es| ==> s[j].0 != es[k].0
    ensures KeysIncreasing(ReinsertAll(s, es))
    decreases |es|
  {
    if es != [] {
      var init := es[..|es| - 1];
      var e := es[|es| - 1];
      ReinsertAllKeepsIncreasing(s, init);
      ReinsertAllPermutes(s, init);
      var r := ReinsertAll(s, init);
      forall j | 0 <= j < |r|
        ensures r[j].0 != e.0
      {
        assert r[j] in multiset(s) + multiset(init);
        if r[j] in multiset(s) {
          var a :| 0 <= a < |s| && s[a] == r[j];
        } else {
          var a :| 0 <= a < |init| && init[a] == r[j];
          assert es[a] == init[a];
        }
      }
      InsertKeepsIncreasing(r, e);
    }
  }

  /** The entries whose index is not in `ks`, in order. */
  function Without(s: seq<Entry>, ks: set<nat>): seq<Entry>
    decreases |s|
  {
    if s == [] then []
    else Without(s[..|s| - 1], ks) + (if s[|s| - 1].0 in ks then [] else [s[|s| - 1]])
  }

  lemma {:induction false} WithoutAppend(a: seq<Entry>, b: seq<Entry>, ks: set<nat>)
    ensures Without(a + b, ks) == Without(a, ks) + Without(b, ks)
    decreases |b|
  {
    if b == [] {
      assert a + b == a;
    } else {
      var b' := b[..|b| - 1];
      assert (a + b)[..|a + b| - 1] == a + b';
      WithoutAppend(a, b', ks);
    }
  }

  /**
   * The placed entries keep their relative order: taking the reinserted
   * entries out again gives back the placed list.
   */
  lemma {:induction false} ReinsertAllRestores(s: seq<Entry>, es: seq<Entry>, ks: set<nat>)
    requires forall j :: 0 <= j < |s| ==> s[j].0 !in ks
    requires forall k :: 0 <= k < |es| ==> es[k].0 in ks
    ensures Without(ReinsertAll(s, es), ks) == s
    decreases |es|
  {
    if es == [] {
      WithoutNone(s, ks);
    } else {
      var init := es[..|es| - 1];
      var e := es[|es| - 1];
      ReinsertAllRestores(s, init, ks);
      WithoutInsert(ReinsertAll(s, init), e, ks);
    }
  }

  lemma WithoutInsert(r: seq<Entry>, e: Entry, ks: set<nat>)
    requires e.0 in ks
    ensures Without(InsertEmpty(r, e), ks) == Without(r, ks)
  {
    var p := MaxLessPos(r, e.0) + 1;
    assert [e][..0] == [];
    assert Without([e], ks) == [];
    WithoutAppend(r[..p], [e], ks);
    WithoutAppend(r[..p] + [e], r[p..], ks);
    WithoutAppend(r[..p], r[p..], ks);
    assert r[..p] + r[p..] == r;
  }

  lemma {:induction false} WithoutNone(s: seq<Entry>, ks: set<nat>)
    requires forall j :: 0 <= j < |s| ==> s[j].0 !in ks
    ensures Without(s, ks) == s
    decreases |s|
  {
    if s != [] {
      WithoutNone(s[..|s| - 1], ks);
    }
  }

  /**
   * The enumeration loop that splits the layouts: the entries `(i, ls[i])`
   * whose flag equals `want`, in index order.
   */
  function Split(ls: seq<Layout>, placed: seq<bool>, want: bool): (r: seq<Entry>)
    requires |placed| == |ls|
    ensures forall j :: 0 <= j < |r| ==> r[j].0 < |ls| && r[j].1 == ls[r[j].0] && placed[r[j].0] == want
    ensures KeysIncreasing(r)
    decreases |ls|
  {
    if ls == [] then []
    else
      var n := |ls| - 1;
      Split(ls[..n], placed[..n], want) + (if placed[n] == want then [(n, ls[n])] else [])
  }

  /** One more turn of the enumeration loop appends at most the entry of that turn. */
  lemma SplitLast(ls: seq<Layout>, placed: seq<bool>, want: bool, i: int)
    requires |placed| == |ls| && 0 <= i < |ls|
    ensures Split(ls[..i + 1], placed[..i + 1], want) == Split(ls[..i], placed[..i], want) + (if placed[i] == want then [(i, ls[i])] else [])
  {
    assert ls[..i + 1][..i] == ls[..i] && placed[..i + 1][..i] == placed[..i];
  }

  /** Every index lands on exactly one side. */
  lemma {:induction false} SplitSizes(ls: seq<Layout>, placed: seq<bool>)
    requires |placed| == |ls|
    ensures |Split(ls, placed, true)| + |Split(ls, placed, false)| == |ls|
    decreases |ls|
  {
    if ls != [] {
      SplitSizes(ls[..|ls| - 1], placed[..|ls| - 1]);
    }
  }

  /** The entry at position `b` has an index at least `b - a` past the one at `a`. */
  lemma {:induction false} KeyGap(r: seq<Entry>, a: int, b: int)
    requires KeysIncreasing(r)
    requires 0 <= a <= b < |r|
    ensures r[b].0 - r[a].0 >= b - a
    decreases b - a
  {
    if a < b {
      KeyGap(r, a, b - 1);
    }
  }

  /**
   * |ls| entries of increasing index, each `(i, ls[i])` for some `i`, are
   * exactly the enumeration of `ls`.
   */
  lemma EntriesAreEnumeration(r: seq<Entry>, ls: seq<Layout>)
    requires |r| == |ls|
    requires KeysIncreasing(r)
    requires forall j :: 0 <= j < |r| ==> r[j].0 < |ls| && r[j].1 == ls[r[j].0]
    ensures Values(r) == ls
  {
    forall j | 0 <= j < |r|
      ensures r[j].0 == j
    {
      KeyGap(r, 0, j);
      KeyGap(r, j, |r| - 1);
    }
  }

  /** Entries `(i, ls[i])` stay of that form through reinsertion. */
  lemma ReinsertAllEntries(s: seq<Entry>, es: seq<Entry>, ls: seq<Layout>)
    requires forall j :: 0 <= j < |s| ==> s[j].0 < |ls| && s[j].1 == ls[s[j].0]
    requires forall j :: 0 <= j < |es| ==> es[j].0 < |ls| && es[j].1 == ls[es[j].0]
    ensures var r := ReinsertAll(s, es);
      forall j :: 0 <= j < |r| ==> r[j].0 < |ls| && r[j].1 == ls[r[j].0]
  {
    var r := ReinsertAll(s, es);
    ReinsertAllPermutes(s, es);
    forall j | 0 <= j < |r|
      ensures r[j].0 < |ls| && r[j].1 == ls[r[j].0]
    {
      assert r[j] in multiset(s) + multiset(es);
      if r[j] in multiset(s) {
        var a :| 0 <= a < |s| && s[a] == r[j];
      } else {
        var a :| 0 <= a < |es| && es[a] == r[j];
      }
    }
  }
}
