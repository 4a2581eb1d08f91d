/**
 * `lazy_load` of doc_page_extractor/lazy_loader.py: a getter that calls
 * `load` on its first call only and then keeps returning that value. The
 * closure state `did_load`/`value` becomes the fields of `LazyGetter`.
 * What `load()` would return is not known in advance, so each call receives
 * it as `loaded`; the getter only uses it when it actually calls `load`.
 * The lock is left out: calls are sequential here.
 */
module LazyLoader {
  import opened Wrappers

  class LazyGetter<T> {
    var didLoad: bool
    var value: Option<T>
    /** How many times `load` has been called. */
    ghost var loads: nat

    ghost predicate Valid()
      reads this
    {
      (didLoad <==> value.Some?) && loads == (if didLoad then 1 else 0)
    }

    /** `lazy_load(load)`: nothing is loaded yet. */
    constructor ()
      ensures Valid() && !didLoad && value == None && loads == 0
    {
      didLoad := false;
      value := None;
      loads := 0;
    }

    /** `getter()`: the first call loads and records; every call returns the recorded value. */
    method Get(loaded: T) returns (v: T)
      requires Valid()
      modifies this
      ensures Valid() && didLoad && value == Some(v)
      ensures !old(didLoad) ==> v == loaded && loads == 1
      ensures old(didLoad) ==> v == old(value).value && value == old(value) && loads == old(loads)
    {
      if !didLoad {
        value := Some(loaded);
        loads := loads + 1;
        didLoad := true;
      }
      v := value.value;
    }
  }

  /** Whatever `load` would return later, every call of a getter returns what the first call loaded, and `load` runs once. */
  method CallsAgree<T>(first: T, later: seq<T>) returns (results: seq<T>)
    ensures |results| == |later| + 1
    ensures forall k :: 0 <= k < |results| ==> results[k] == first
  {
    var getter := new LazyGetter<T>();
    var v := getter.Get(first);
    results := [v];
    for k := 0 to |later|
      invariant getter.Valid() && getter.didLoad && getter.value == Some(first) && getter.loads == 1
      invariant |results| == k + 1 && forall j :: 0 <= j < |results| ==> results[j] == first
    {
      v := getter.Get(later[k]);
      results := results + [v];
    }
  }
}
