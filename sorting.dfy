/**
 * Python's `list.sort(key=...)` and `sorted(...)` are stable sorts. They are
 * modelled here by a stable insertion sort over a "less or equal" relation,
 * together with the three facts the callers rely on: the result is ordered,
 * it is a permutation of the input, and elements that compare equal keep
 * their relative order.
 */
module Sorting {

  /** `le` is total and transitive, as a comparison of keys is. */
  ghost predicate TotalPreorder<T(!new)>(le: (T, T) -> bool) {
    && (forall a, b :: le(a, b) || le(b, a))
    && (forall a, b, c :: le(a, b) && le(b, c) ==> le(a, c))
  }

  predicate Sorted<T>(s: seq<T>, le: (T, T) -> bool) {
    forall i, j :: 0 <= i < j < |s| ==> le(s[i], s[j])
  }

  /** Inserts `x` before the first element that is not smaller than it. */
  function Insert<T>(x: T, s: seq<T>, le: (T, T) -> bool): (r: seq<T>)
    ensures |r| == |s| + 1
    ensures multiset(r) == multiset(s) + multiset{x}
  {
    if s == [] || le(x, s[0]) then [x] + s
    else
      assert s == [s[0]] + s[1..];
      [s[0]] + Insert(x, s[1..], le)
  }

  /** The stable sort: each element goes in front of every later element it does not exceed. */
  function SortBy<T>(s: seq<T>, le: (T, T) -> bool): (r: seq<T>)
    ensures |r| == |s|
    ensures multiset(r) == multiset(s)
  {
    if s == [] then []
    else
      assert s == [s[0]] + s[1..];
      Insert(s[0], SortBy(s[1..], le), le)
  }

  lemma {:induction false} InsertSorted<T(!new)>(x: T, s: seq<T>, le: (T, T) -> bool)
    requires TotalPreorder(le)
    requires Sorted(s, le)
    ensures Sorted(Insert(x, s, le), le)
  {
    if s == [] || le(x, s[0]) {
    } else {
      var t := Insert(x, s[1..], le);
      InsertSorted(x, s[1..], le);
      forall e | e in t
        ensures le(s[0], e)
      {
        assert e in multiset(t);
        if e != x {
          assert e in multiset(s[1..]);
          var j :| 0 <= j < |s[1..]| && s[1..][j] == e;
          assert s[j + 1] == e;
        }
      }
      var r := [s[0]] + t;
      forall i, j | 0 <= i < j < |r|
        ensures le(r[i], r[j])
      {
        if i == 0 {
          assert r[j] == t[j - 1];
          assert r[j] in t;
        } else {
          assert r[i] == t[i - 1] && r[j] == t[j - 1];
        }
      }
    }
  }

  lemma {:induction false} SortBySorted<T(!new)>(s: seq<T>, le: (T, T) -> bool)
    requires TotalPreorder(le)
    ensures Sorted(SortBy(s, le), le)
  {
    if s != [] {
      SortBySorted(s[1..], le);
      InsertSorted(s[0], SortBy(s[1..], le), le);
    }
  }

  /** The elements of `s` that compare equal to `v`, in their order in `s`. */
  function Equivalents<T>(s: seq<T>, v: T, le: (T, T) -> bool): seq<T>
  {
    if s == [] then []
    else (if le(s[0], v) && le(v, s[0]) then [s[0]] else []) + Equivalents(s[1..], v, le)
  }

  lemma {:induction false} InsertStable<T(!new)>(x: T, s: seq<T>, v: T, le: (T, T) -> bool)
    requires TotalPreorder(le)
    ensures Equivalents(Insert(x, s, le), v, le)
         == (if le(x, v) && le(v, x) then [x] else []) + Equivalents(s, v, le)
  {
    var ex := if le(x, v) && le(v, x) then [x] else [];
    if s == [] || le(x, s[0]) {
      assert ([x] + s)[1..] == s;
    } else {
      var t := Insert(x, s[1..], le);
      var e0 := if le(s[0], v) && le(v, s[0]) then [s[0]] else [];
      InsertStable(x, s[1..], v, le);
      assert ([s[0]] + t)[1..] == t;
      assert Equivalents([s[0]] + t, v, le) == e0 + Equivalents(t, v, le);
      assert Equivalents(s, v, le) == e0 + Equivalents(s[1..], v, le);
      var s0 := s[0];
      assert !(le(x, v) && le(v, s0)) by {
        assert !le(x, s0);
      }
      var rest := Equivalents(s[1..], v, le);
      SwapAroundEmpty(e0, ex, rest);
      calc {
        Equivalents(Insert(x, s, le), v, le);
        Equivalents([s0] + t, v, le);
        e0 + Equivalents(t, v, le);
        e0 + (ex + rest);
        ex + (e0 + rest);
        ex + Equivalents(s, v, le);
      }
    }
  }

  lemma SwapAroundEmpty<T>(a: seq<T>, b: seq<T>, c: seq<T>)
    requires a == [] || b == []
    ensures a + (b + c) == b + (a + c)
  {
  }

  /** Stability: for every key, the elements with that key appear in their input order. */
  lemma {:induction false} SortByStable<T(!new)>(s: seq<T>, v: T, le: (T, T) -> bool)
    requires TotalPreorder(le)
    ensures Equivalents(SortBy(s, le), v, le) == Equivalents(s, v, le)
  {
    if s != [] {
      SortByStable(s[1..], v, le);
      InsertStable(s[0], SortBy(s[1..], le), v, le);
    }
  }

  function RealLe(a: real, b: real): bool { a <= b }

  lemma RealLeIsTotalPreorder()
    ensures TotalPreorder(RealLe)
  {
  }

  /**
   * The median as `_find_median` and `_median` compute it: sort, then take
   * the middle element, or the mean of the two middle elements.
   */
  function Median(s: seq<real>): (m: real)
    requires |s| > 0
    ensures exists i :: 0 <= i < |s| && s[i] <= m
    ensures exists j :: 0 <= j < |s| && m <= s[j]
  {
    var t := SortBy(s, RealLe);
    var n := |t|;
    RealLeIsTotalPreorder();
    SortBySorted(s, RealLe);
    assert t[0] in multiset(s) && t[n - 1] in multiset(s);
    var lo := if n % 2 == 1 then n / 2 else n / 2 - 1;
    assert t[0] <= t[lo] && t[n / 2] <= t[n - 1] by {
      if 0 < lo { assert RealLe(t[0], t[lo]); }
      if n / 2 < n - 1 { assert RealLe(t[n / 2], t[n - 1]); }
    }
    assert t[lo] <= t[n / 2] by {
      if lo < n / 2 { assert RealLe(t[lo], t[n / 2]); }
    }
    if n % 2 == 1 then t[n / 2] else (t[n / 2 - 1] + t[n / 2]) / 2.0
  }

  lemma MedianOfConstant(s: seq<real>, c: real)
    requires |s| > 0
    requires forall i :: 0 <= i < |s| ==> s[i] == c
    ensures Median(s) == c
  {
    var t := SortBy(s, RealLe);
    forall k | 0 <= k < |t|
      ensures t[k] == c
    {
      assert t[k] in multiset(s);
    }
  }

  /** `[f(x) for x in s]`. */
  function Map<T, U>(f: T -> U, s: seq<T>): (r: seq<U>)
    ensures |r| == |s| && forall k :: 0 <= k < |s| ==> r[k] == f(s[k])
  {
    seq(|s|, k requires 0 <= k < |s| => f(s[k]))
  }

  lemma MapAppend<T, U>(f: T -> U, a: seq<T>, b: seq<T>)
    ensures Map(f, a + b) == Map(f, a) + Map(f, b)
  {
  }

  lemma RemoveAt<T>(b: seq<T>, j: int)
    requires 0 <= j < |b|
    ensures multiset(b[..j] + b[j + 1..]) == multiset(b) - multiset{b[j]}
  {
    assert b == b[..j] + [b[j]] + b[j + 1..];
  }

  lemma MapRemoveAt<T, U>(f: T -> U, b: seq<T>, j: int)
    requires 0 <= j < |b|
    ensures multiset(Map(f, b)) == multiset(Map(f, b[..j] + b[j + 1..])) + multiset{f(b[j])}
  {
    var v := Map(f, b);
    assert v == v[..j] + [v[j]] + v[j + 1..];
    assert Map(f, b[..j] + b[j + 1..]) == v[..j] + v[j + 1..];
  }

  /** Mapping two permutations of each other gives permutations of each other. */
  lemma {:induction false} MapPermutes<T, U>(f: T -> U, a: seq<T>, b: seq<T>)
    requires multiset(a) == multiset(b)
    ensures multiset(Map(f, a)) == multiset(Map(f, b))
    decreases |a|
  {
    if a == [] {
      assert |b| == |multiset(b)| == 0;
    } else {
      var n := |a| - 1;
      var x := a[n];
      assert x in multiset(b);
      var j :| 0 <= j < |b| && b[j] == x;
      RemoveAt(a, n);
      RemoveAt(b, j);
      assert a[..n] + a[n + 1..] == a[..n];
      MapPermutes(f, a[..n], b[..j] + b[j + 1..]);
      MapRemoveAt(f, a, n);
      MapRemoveAt(f, b, j);
    }
  }

  /** A map that keeps every comparison commutes with insertion. */
  lemma {:induction false} InsertMap<T, U>(f: T -> U, x: T, s: seq<T>, le: (T, T) -> bool, leU: (U, U) -> bool)
    requires forall a, b :: le(a, b) == leU(f(a), f(b))
    ensures Map(f, Insert(x, s, le)) == Insert(f(x), Map(f, s), leU)
  {
    if s == [] {
    } else if le(x, s[0]) {
      MapTail(f, s);
      assert leU(f(x), Map(f, s)[0]);
      MapAppend(f, [x], s);
    } else {
      var m := Map(f, s);
      MapTail(f, s);
      assert !leU(f(x), m[0]);
      assert Insert(f(x), m, leU) == [m[0]] + Insert(f(x), m[1..], leU);
      InsertMap(f, x, s[1..], le, leU);
      MapAppend(f, [s[0]], Insert(x, s[1..], le));
    }
  }

  /** A map that keeps every comparison commutes with the stable sort. */
  lemma {:induction false} SortByMap<T, U>(f: T -> U, s: seq<T>, le: (T, T) -> bool, leU: (U, U) -> bool)
    requires forall a, b :: le(a, b) == leU(f(a), f(b))
    ensures Map(f, SortBy(s, le)) == SortBy(Map(f, s), leU)
  {
    if s != [] {
      SortByMap(f, s[1..], le, leU);
      InsertMap(f, s[0], SortBy(s[1..], le), le, leU);
      MapTail(f, s);
    }
  }

  lemma TakeOneMore<T>(s: seq<T>, i: int)
    requires 0 <= i < |s|
    ensures s[..i + 1] == s[..i] + [s[i]]
  {
  }

  lemma MapTail<T, U>(f: T -> U, s: seq<T>)
    requires s != []
    ensures Map(f, s)[0] == f(s[0]) && Map(f, s)[1..] == Map(f, s[1..])
  {
  }
}
