/**
 * `ResourceLocks` and `ResourceLock` of doc_page_extractor/resource_locks.py.
 * Threads are not modelled: each `threading.Lock` is a flag in `held`, a
 * non-blocking acquire reads and sets its flag, and a blocking acquire of a
 * lock that is held is reported instead of waited on.
 */
module ResourceLocks {
  import opened Wrappers

  /** The index the scan visits at `offset` when it starts at `start`. */
  function ScanIndex(start: nat, offset: nat, count: nat): nat
    requires count > 0
  {
    (start + offset) % count
  }

  /** The first offset at or after `offset` whose lock is free, scanning from `start`. */
  function FirstFreeOffset(held: seq<bool>, start: nat, offset: nat): (f: Option<nat>)
    requires |held| > 0
    ensures f.Some? ==> offset <= f.value < |held| && !held[ScanIndex(start, f.value, |held|)]
    ensures f.Some? ==> forall o :: offset <= o < f.value ==> held[ScanIndex(start, o, |held|)]
    ensures f.None? ==> forall o :: offset <= o < |held| ==> held[ScanIndex(start, o, |held|)]
    decreases |held| - offset
  {
    if offset >= |held| then None
    else if !held[ScanIndex(start, offset, |held|)] then Some(offset)
    else FirstFreeOffset(held, start, offset + 1)
  }

  /** The offset at which a scan from `start` reaches index `i`. */
  function OffsetOf(start: nat, i: nat, count: nat): (o: nat)
    requires start < count && i < count
    ensures o < count && ScanIndex(start, o, count) == i
  {
    if i >= start then i - start else i + count - start
  }

  /** `OffsetOf` undoes the scan, so no index is visited twice. */
  lemma OffsetOfScan(start: nat, o: nat, count: nat)
    requires start < count && o < count
    ensures OffsetOf(start, ScanIndex(start, o, count), count) == o
  {
    var a := start + o;
    if a >= count {
      assert a % count == a - count;
    } else {
      assert a % count == a;
    }
  }

  lemma ScanVisitsEachOnce(start: nat, count: nat)
    requires start < count
    ensures forall o1, o2 :: 0 <= o1 < o2 < count ==> ScanIndex(start, o1, count) != ScanIndex(start, o2, count)
  {
    forall o1, o2 | 0 <= o1 < o2 < count
      ensures ScanIndex(start, o1, count) != ScanIndex(start, o2, count)
    {
      OffsetOfScan(start, o1, count);
      OffsetOfScan(start, o2, count);
    }
  }

  /** The scan finds a free lock exactly when some lock is free. */
  lemma FreeFoundIffSomeFree(held: seq<bool>, start: nat)
    requires start < |held|
    ensures FirstFreeOffset(held, start, 0).None? <==> forall i :: 0 <= i < |held| ==> held[i]
  {
    if FirstFreeOffset(held, start, 0).None? {
      forall i | 0 <= i < |held| ensures held[i] {
        var o := OffsetOf(start, i, |held|);
        assert held[ScanIndex(start, o, |held|)];
      }
    }
  }

  /** The outcome of a `with` block on a handle: its resource, or a wait that is never satisfied. */
  datatype Entry<T> = Entered(resource: T) | Blocks

  class ResourceLocks<T> {
    const resources: seq<T>
    /** `_nodes[i].lock.locked()`. */
    var held: seq<bool>
    /** `_next_index`. */
    var nextIndex: nat

    ghost predicate Valid()
      reads this
    {
      |resources| > 0 && |held| == |resources| && nextIndex < |resources|
    }

    /** The part of `__init__` after the emptiness check. */
    constructor (resources: seq<T>)
      requires |resources| > 0
      ensures Valid() && this.resources == resources
      ensures held == seq(|resources|, _ => false) && nextIndex == 0
    {
      this.resources := resources;
      held := seq(|resources|, _ => false);
      nextIndex := 0;
    }

    /** `lock.acquire(blocking=False)`: takes the lock and reports whether it was free. */
    method TryAcquire(index: nat) returns (acquired: bool)
      requires Valid() && index < |resources|
      modifies this
      ensures Valid() && acquired == !old(held[index])
      ensures held == old(held)[index := true] && nextIndex == old(nextIndex)
    {
      acquired := !held[index];
      held := held[index := true];
    }

    /**
     * `access`: advance `_next_index` round-robin, then take the first free
     * lock scanning from the old `_next_index`. When every lock is held the
     * source waits on the lock at that start; the model reports `acquired ==
     * false` and leaves the locks as they are.
     */
    method Access() returns (lock: ResourceLock<T>, acquired: bool)
      requires Valid()
      modifies this
      ensures Valid() && nextIndex == (old(nextIndex) + 1) % |resources|
      ensures fresh(lock) && lock.pool == this && lock.index < |resources| && lock.resource == resources[lock.index]
      ensures var f := FirstFreeOffset(old(held), old(nextIndex), 0);
        && (f.Some? ==> acquired && lock.index == ScanIndex(old(nextIndex), f.value, |resources|) && held == old(held)[lock.index := true])
        && (f.None? ==> !acquired && lock.index == old(nextIndex) && held == old(held))
    {
      var start := nextIndex;
      nextIndex := (nextIndex + 1) % |resources|;
      for offset := 0 to |resources|
        invariant Valid() && held == old(held) && nextIndex == (old(nextIndex) + 1) % |resources|
        invariant FirstFreeOffset(held, start, 0) == FirstFreeOffset(held, start, offset)
      {
        var index := (start + offset) % |resources|;
        acquired := TryAcquire(index);
        if acquired {
          lock := new ResourceLock(this, index);
          return;
        }
      }
      lock := new ResourceLock(this, start);
      acquired := false;
    }
  }

  /** `__init__`, with its ValueError on an empty list. */
  method NewResourceLocks<T>(resources: seq<T>) returns (r: Result<ResourceLocks<T>, Fault>)
    ensures resources == [] <==> r.Failure?
    ensures r.Failure? ==> r.error == EmptyResources
    ensures r.Success? ==> fresh(r.value) && r.value.Valid() && r.value.resources == resources
    ensures r.Success? ==> r.value.held == seq(|resources|, _ => false) && r.value.nextIndex == 0
  {
    if resources == [] {
      return Failure(EmptyResources);
    }
    var locks := new ResourceLocks(resources);
    return Success(locks);
  }

  /** The handle `access` returns: a resource and the lock of its node. */
  class ResourceLock<T> {
    const pool: ResourceLocks<T>
    const index: nat
    const resource: T

    constructor (pool: ResourceLocks<T>, index: nat)
      requires index < |pool.resources|
      ensures this.pool == pool && this.index == index && resource == pool.resources[index]
    {
      this.pool := pool;
      this.index := index;
      resource := pool.resources[index];
    }

    /** `__enter__`: acquires the lock (blocking), then hands out the resource. */
    method Enter() returns (r: Entry<T>)
      requires pool.Valid() && index < |pool.resources|
      modifies pool
      ensures pool.Valid() && pool.nextIndex == old(pool.nextIndex)
      ensures old(pool.held[index]) ==> r == Blocks && pool.held == old(pool.held)
      ensures !old(pool.held[index]) ==> r == Entered(resource) && pool.held == old(pool.held)[index := true]
    {
      if pool.held[index] {
        return Blocks;
      }
      pool.held := pool.held[index := true];
      return Entered(resource);
    }

    /** `__exit__`: releases the lock; releasing a free lock raises. */
    method Exit() returns (r: Result<(), Fault>)
      requires pool.Valid() && index < |pool.resources|
      modifies pool
      ensures pool.Valid() && pool.nextIndex == old(pool.nextIndex)
      ensures old(pool.held[index]) ==> r == Success(()) && pool.held == old(pool.held)[index := false]
      ensures !old(pool.held[index]) ==> r == Failure(ReleaseUnlocked) && pool.held == old(pool.held)
    {
      if !pool.held[index] {
        return Failure(ReleaseUnlocked);
      }
      pool.held := pool.held[index := false];
      return Success(());
    }

    /** Corrected `__enter__`: the lock is already held by `access`, so it only hands out the resource. */
    method EnterHeld() returns (r: Entry<T>)
      requires pool.Valid() && index < |pool.resources|
      ensures r == Entered(resource)
    {
      return Entered(resource);
    }
  }

  /**
   * `with locks.access() as resource:` as written: `access` leaves the lock
   * held and `__enter__` acquires it again, so the block is never entered.
   */
  method WithAccessAsWritten<T>(locks: ResourceLocks<T>) returns (r: Entry<T>)
    requires locks.Valid()
    modifies locks
    ensures r == Blocks
  {
    ghost var start := locks.nextIndex;
    var lock, acquired := locks.Access();
    if !acquired {
      assert ScanIndex(start, 0, |locks.resources|) == start;
    }
    r := lock.Enter();
  }

  /**
   * The same block with the corrected `__enter__`: when `access` found a free
   * lock the body gets that resource, and leaving the block frees the lock
   * again, so only `_next_index` has moved.
   */
  method WithAccessCorrected<T>(locks: ResourceLocks<T>) returns (r: Entry<T>, release: Result<(), Fault>)
    requires locks.Valid()
    modifies locks
    ensures locks.Valid() && locks.nextIndex == (old(locks.nextIndex) + 1) % |locks.resources|
    ensures FirstFreeOffset(old(locks.held), old(locks.nextIndex), 0).Some? ==>
      && r.Entered? && release == Success(())
      && locks.held == old(locks.held)
      && r.resource == locks.resources[ScanIndex(old(locks.nextIndex), FirstFreeOffset(old(locks.held), old(locks.nextIndex), 0).value, |locks.resources|)]
    ensures FirstFreeOffset(old(locks.held), old(locks.nextIndex), 0).None? ==> r == Blocks && locks.held == old(locks.held)
  {
    var lock, acquired := locks.Access();
    if !acquired {
      return Blocks, Success(());
    }
    r := lock.EnterHeld();
    release := lock.Exit();
  }

  /** A fresh pool of one resource: the first `with` block as written deadlocks even though nothing else holds the lock. */
  method SingleResourceDeadlocks() returns (r: Entry<int>)
    ensures r == Blocks
  {
    var created := NewResourceLocks([7]);
    var locks := created.value;
    var lock, acquired := locks.Access();
    assert acquired by {
      assert FirstFreeOffset([false], 0, 0) == Some(0);
    }
    r := lock.Enter();
  }
}
