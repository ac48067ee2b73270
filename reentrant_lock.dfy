/**
 * `ReentrantLock` in apps/core/helpers.py: a Redis lock that the same thread may take
 * several times. A per-thread registry (a defaultdict(int) keyed by lock name) counts
 * the nesting; only the outermost acquire and release reach the Redis lock underneath.
 * Several lock objects may carry the same name: they share the registry entry, while
 * the Redis token belongs to the one object whose acquire was granted.
 */
module ReentrantLocks {

  /** The per-thread registry returned by get_lock_registry: nesting depth per lock name. */
  class LockRegistry {
    var counts: map<string, int>
    /** For each name whose Redis lock is held: the lock object holding its token. */
    ghost var owner: map<string, object>

    constructor ()
      ensures counts == map[] && owner == map[]
      ensures Valid()
    {
      counts := map[];
      owner := map[];
    }

    /** registry[name] on a defaultdict(int): a missing name reads as 0. */
    function Depth(name: string): (d: int)
      reads this
      ensures name !in counts ==> d == 0
      ensures name in counts ==> d == counts[name]
    {
      if name in counts then counts[name] else 0
    }

    /**
     * No depth is negative, and a name has a positive depth exactly while some lock
     * object of that name holds the Redis token.
     */
    ghost predicate Valid()
      reads this
    {
      && (forall n :: n in counts ==> counts[n] >= 0)
      && (forall n :: Depth(n) > 0 <==> n in owner)
    }
  }

  /** A call that reaches the Redis lock underneath. */
  datatype UnderlyingCall = AcquireCall | ReleaseCall

  /** Why a release fails: the underlying lock holds no token (redis-py's LockError). */
  datatype ReleaseResult = Released | LockError

  class ReentrantLock {
    const name: string
    const registry: LockRegistry
    /** The underlying Redis lock of this object holds a token (set by a granted acquire). */
    var tokenHeld: bool
    /** The calls this object made on its underlying lock, in order. */
    var calls: seq<UnderlyingCall>

    /** The registry is consistent, and this object holds the token exactly when it is the owner. */
    ghost predicate Valid()
      reads this, registry
    {
      && registry.Valid()
      && (tokenHeld <==> name in registry.owner && registry.owner[name] == this)
    }

    constructor (name: string, registry: LockRegistry)
      requires registry.Valid()
      ensures this.name == name && this.registry == registry
      ensures !tokenHeld && calls == []
      ensures Valid()
    {
      this.name := name;
      this.registry := registry;
      tokenHeld := false;
      calls := [];
    }

    /**
     * acquire. `granted` is what the underlying acquire would answer (the Redis SET NX,
     * possibly after blocking); it is consulted only when the depth is 0.
     */
    method Acquire(granted: bool) returns (ok: bool)
      requires Valid()
      modifies this, registry
      ensures Valid()
      ensures old(registry.Depth(name)) > 0 ==>
                ok && calls == old(calls) && tokenHeld == old(tokenHeld) &&
                registry.owner == old(registry.owner)
      ensures old(registry.Depth(name)) <= 0 ==>
                ok == granted && calls == old(calls) + [AcquireCall] && tokenHeld == granted &&
                registry.owner == if granted then old(registry.owner)[name := this] else old(registry.owner)
      ensures registry.counts ==
                old(registry.counts)[name := if ok then old(registry.Depth(name)) + 1 else old(registry.Depth(name))]
    {
      var depth := registry.Depth(name);
      registry.counts := registry.counts[name := depth];  // the defaultdict lookup inserts 0
      if depth > 0 {
        ok := true;
      } else {
        calls := calls + [AcquireCall];
        ok := granted;
        if granted {
          tokenHeld := true;
          registry.owner := registry.owner[name := this];
        }
      }
      if ok {
        registry.counts := registry.counts[name := depth + 1];
      }
    }

    /**
     * release. An inner release only decrements the depth; the outermost one releases
     * the underlying lock and then drops the registry entry. When this object holds no
     * token, the underlying release fails before the registry is touched.
     */
    method Release() returns (r: ReleaseResult)
      requires Valid()
      modifies this, registry
      ensures Valid()
      ensures old(registry.Depth(name)) > 1 ==>
                r == Released && calls == old(calls) && tokenHeld == old(tokenHeld) &&
                registry.owner == old(registry.owner) &&
                registry.counts == old(registry.counts)[name := old(registry.Depth(name)) - 1]
      ensures old(registry.Depth(name)) <= 1 && old(tokenHeld) ==>
                r == Released && calls == old(calls) + [ReleaseCall] && !tokenHeld &&
                registry.owner == old(registry.owner) - {name} &&
                registry.counts == old(registry.counts) - {name}
      ensures old(registry.Depth(name)) <= 1 && !old(tokenHeld) ==>
                r == LockError && calls == old(calls) + [ReleaseCall] && !tokenHeld &&
                registry.owner == old(registry.owner) &&
                registry.counts == old(registry.counts)[name := old(registry.Depth(name))]
    {
      var depth := registry.Depth(name);
      registry.counts := registry.counts[name := depth];  // the defaultdict lookup inserts 0
      if depth > 1 {
        registry.counts := registry.counts[name := depth - 1];
        return Released;
      }
      calls := calls + [ReleaseCall];
      if !tokenHeld {
        return LockError;
      }
      tokenHeld := false;
      registry.owner := registry.owner - {name};
      registry.counts := registry.counts[name := depth - 1];
      if registry.counts[name] <= 0 {
        registry.counts := registry.counts - {name};
      }
      r := Released;
    }
  }

  /** Nested use of one lock: only the outer acquire and the outer release reach the Redis lock. */
  method NestedUse(registry: LockRegistry, name: string) returns (calls: seq<UnderlyingCall>)
    requires registry.Valid() && registry.Depth(name) == 0
    modifies registry
    ensures registry.Valid() && registry.Depth(name) == 0
    ensures calls == [AcquireCall, ReleaseCall]
  {
    var lock := new ReentrantLock(name, registry);
    var outer := lock.Acquire(true);
    var inner := lock.Acquire(false);
    assert outer && inner && registry.Depth(name) == 2;
    var r1 := lock.Release();
    assert r1 == Released && lock.tokenHeld && registry.Depth(name) == 1;
    var r2 := lock.Release();
    assert r2 == Released && !lock.tokenHeld;
    calls := lock.calls;
  }

  /**
   * Two lock objects on one name, released in the reverse order of acquiring: the second
   * object only moves the shared depth, and the first one takes and gives back the Redis lock.
   */
  method SharedNesting(registry: LockRegistry, name: string)
    returns (first: seq<UnderlyingCall>, second: seq<UnderlyingCall>)
    requires registry.Valid() && registry.Depth(name) == 0
    modifies registry
    ensures registry.Valid() && registry.Depth(name) == 0 && name !in registry.owner
    ensures first == [AcquireCall, ReleaseCall] && second == []
  {
    var a := new ReentrantLock(name, registry);
    var b := new ReentrantLock(name, registry);
    var okA := a.Acquire(true);
    assert b.Valid();
    var okB := b.Acquire(false);
    assert okA && okB && registry.Depth(name) == 2 && a.Valid();
    var rB := b.Release();
    assert rB == Released && registry.Depth(name) == 1 && a.Valid();
    var rA := a.Release();
    assert rA == Released;
    first, second := a.calls, b.calls;
  }

  /**
   * Two lock objects on one name, where the object without the token makes the outermost
   * release: the Redis release fails with LockError and the depth stays at 1, still
   * owned by the first object.
   */
  method SharedMisorderedRelease(registry: LockRegistry, name: string)
    returns (r: ReleaseResult, first: seq<UnderlyingCall>, second: seq<UnderlyingCall>)
    requires registry.Valid() && registry.Depth(name) == 0
    modifies registry
    ensures r == LockError
    ensures registry.Valid() && registry.Depth(name) == 1 && name in registry.owner
    ensures first == [AcquireCall] && second == [ReleaseCall]
  {
    var a := new ReentrantLock(name, registry);
    var b := new ReentrantLock(name, registry);
    var okA := a.Acquire(true);
    assert b.Valid();
    var okB := b.Acquire(false);
    assert okA && okB && registry.Depth(name) == 2 && a.Valid();
    var rA := a.Release();
    assert rA == Released && a.tokenHeld && registry.Depth(name) == 1 && b.Valid();
    r := b.Release();
    first, second := a.calls, b.calls;
  }
}
