/**
 * `fiberThrow.ts`: what the render does with a thrown value.  A thenable
 * (a wakeable) marks the innermost Suspense boundary `ShouldCapture` and
 * registers a ping listener on `root.pingCache`, at most one per wakeable
 * and lane; the ping forgets the wakeable, marks the root pinged and
 * updated for the lane, and schedules the root again.
 *
 * `wakeable.then`, `markRootUpdated` and `ensureRootIsScheduled` are calls
 * into code this model does not contain, recorded as `Call`s in the order
 * they are made.
 */
module FiberThrow {
  import opened Wrappers
  import opened Js
  import opened Lanes
  import opened FiberFlags
  import opened Fiber
  import opened RootLanes
  import opened SuspenseContext

  /** A call out of this file: `wakeable.then(ping, ping)` for a lane, `markRootUpdated(root, lane)`, `ensureRootIsScheduled(root)`. */
  datatype Call = Then(wakeable: WakeableRef, lane: Lane) | MarkRootUpdated(lane: Lane) | EnsureRootIsScheduled

  /** The ping cache: for each wakeable, the lanes a listener is registered for. */
  type PingCache = Option<map<WakeableRef, set<Lane>>>

  /** `value !== null && typeof value === 'object' && typeof value.then === 'function'`. */
  predicate IsThenable(value: JsValue)
  {
    IsObject(value) && Get(value, "then").Fn?
  }

  /** A thenable is an object; its identity is the key of the ping cache. */
  function WakeableOf(value: JsValue): (w: WakeableRef)
    requires IsThenable(value)
    ensures value == Obj(w, value.fields)
  {
    value.oid
  }

  /** `threadIDs.has(lane)` for the wakeable's entry. */
  predicate Registered(cache: PingCache, w: WakeableRef, lane: Lane)
  {
    cache.Some? && w in cache.value && lane in cache.value[w]
  }

  /** The ping cache after `attachPingListener(root, w, lane)`. */
  function Attached(cache: PingCache, w: WakeableRef, lane: Lane): (r: map<WakeableRef, set<Lane>>)
    ensures Registered(Some(r), w, lane)
    ensures r.Keys == (if cache.Some? then cache.value.Keys else {}) + {w}
    ensures forall v | v in r && v != w :: cache.Some? && r[v] == cache.value[v]
    ensures r[w] == (if cache.Some? && w in cache.value then cache.value[w] else {}) + {lane}
  {
    var m := if cache.Some? then cache.value else map[];
    m[w := (if w in m then m[w] else {}) + {lane}]
  }

  /** The calls `attachPingListener(root, w, lane)` makes: `then` only for a lane not registered yet. */
  function AttachCalls(cache: PingCache, w: WakeableRef, lane: Lane): (calls: seq<Call>)
    ensures |calls| <= 1
    ensures calls == [Then(w, lane)] <==> !Registered(cache, w, lane)
    ensures calls == [] <==> Registered(cache, w, lane)
  {
    if Registered(cache, w, lane) then [] else [Then(w, lane)]
  }

  /** The ping cache after `ping()`: the wakeable's whole entry is deleted. */
  function AfterPing(cache: PingCache, w: WakeableRef): (r: PingCache)
    ensures r.Some? <==> cache.Some?
    ensures r.Some? ==> w !in r.value && forall v | v in cache.value && v != w :: v in r.value && r.value[v] == cache.value[v]
    ensures r.Some? ==> r.value.Keys == cache.value.Keys - {w}
  {
    if cache.Some? then Some(cache.value - {w}) else None
  }

  /**
   * `attachPingListener(root, wakeable, lane)`: creates the cache on the
   * first attach, an empty lane set on the wakeable's first attach, and
   * calls `then` when the lane is not in the set yet.
   */
  method AttachPingListener(root: FiberRootNode, w: WakeableRef, lane: Lane) returns (calls: seq<Call>)
    modifies root`pingCache
    ensures root.pingCache == Some(Attached(old(root.pingCache), w, lane))
    ensures calls == AttachCalls(old(root.pingCache), w, lane)
  {
    var pingCache := root.pingCache;
    var threadIDs: set<Lane>;
    var cache: map<WakeableRef, set<Lane>>;
    if pingCache.None? {
      threadIDs := {};
      cache := map[w := threadIDs];
      root.pingCache := Some(cache);
    } else {
      cache := pingCache.value;
      if w in cache {
        threadIDs := cache[w];
      } else {
        threadIDs := {};
        cache := cache[w := threadIDs];
        root.pingCache := Some(cache);
      }
    }
    ghost var attached := Attached(pingCache, w, lane);
    assert cache == (if pingCache.Some? then pingCache.value else map[])[w := threadIDs];
    assert root.pingCache == Some(cache);
    if lane !in threadIDs {
      threadIDs := threadIDs + {lane};
      root.pingCache := Some(cache[w := threadIDs]);
      calls := [Then(w, lane)];
      assert threadIDs == attached[w];
      assert cache[w := threadIDs].Keys == attached.Keys;
      assert forall v | v in attached :: cache[w := threadIDs][v] == attached[v];
      assert cache[w := threadIDs] == attached;
    } else {
      calls := [];
      assert threadIDs == attached[w];
      assert cache.Keys == attached.Keys;
      assert forall v | v in attached :: cache[v] == attached[v];
      assert cache == attached;
    }
  }

  /**
   * `ping()` of the listener for `w` and `lane`: deletes the wakeable's
   * entry, marks the lane pinged, then updated, and schedules the root.
   */
  method Ping(root: FiberRootNode, w: WakeableRef, lane: Lane) returns (calls: seq<Call>)
    modifies root`pingCache, root`pingedLanes
    ensures root.pingCache == AfterPing(old(root.pingCache), w)
    ensures root.pingedLanes == MergeLanes(old(root.pingedLanes), root.suspendedLanes & lane)
    ensures calls == [MarkRootUpdated(lane), EnsureRootIsScheduled]
  {
    if root.pingCache.Some? {
      root.pingCache := Some(root.pingCache.value - {w});
    }
    MarkRootPinged(root, lane);
    calls := [MarkRootUpdated(lane), EnsureRootIsScheduled];
  }

  /** The arena with `ShouldCapture` added to the boundary's flags, as `suspenseBoundary.flags |= ShouldCapture` leaves it. */
  function Captured(fibers: map<FiberId, FiberNode>, boundary: FiberId): (r: map<FiberId, FiberNode>)
    requires boundary in fibers
    ensures r.Keys == fibers.Keys
    ensures r[boundary].flags & ShouldCapture == ShouldCapture
    ensures r[boundary].flags & !ShouldCapture == fibers[boundary].flags & !ShouldCapture
    ensures r[boundary] == fibers[boundary].(flags := r[boundary].flags)
    ensures forall x | x in fibers && x != boundary :: r[x] == fibers[x]
  {
    fibers[boundary := fibers[boundary].(flags := fibers[boundary].flags | ShouldCapture)]
  }

  /**
   * `throwException(root, value, lane)`: a thenable flags the innermost
   * Suspense handler, if there is one, with `ShouldCapture` and attaches a
   * ping listener; any other value changes nothing.
   */
  method ThrowException(root: FiberRootNode, store: FiberStore, handlers: SuspenseHandlerStack, value: JsValue, lane: Lane)
    returns (calls: seq<Call>)
    requires handlers.GetSuspenseHandler().Some? ==> handlers.GetSuspenseHandler().value in store.fibers
    modifies root`pingCache, store`fibers
    ensures !IsThenable(value) ==> calls == [] && root.pingCache == old(root.pingCache) && store.fibers == old(store.fibers)
    ensures IsThenable(value) ==>
              root.pingCache == Some(Attached(old(root.pingCache), WakeableOf(value), lane)) &&
              calls == AttachCalls(old(root.pingCache), WakeableOf(value), lane)
    ensures IsThenable(value) && handlers.GetSuspenseHandler().Some? ==>
              store.fibers == Captured(old(store.fibers), handlers.GetSuspenseHandler().value)
    ensures handlers.GetSuspenseHandler().None? ==> store.fibers == old(store.fibers)
  {
    calls := [];
    if IsObject(value) && Get(value, "then").Fn? {
      var wakeable := value.oid;
      var suspenseBoundary := handlers.GetSuspenseHandler();
      if suspenseBoundary.Some? {
        store.fibers := Captured(store.fibers, suspenseBoundary.value);
      }
      calls := AttachPingListener(root, wakeable, lane);
    }
  }

  // ---------------------------------------------------------------------
  // One listener per wakeable and lane
  // ---------------------------------------------------------------------

  /** Attaching twice for the same wakeable and lane: the second attach changes nothing and calls nothing. */
  lemma AttachIdempotent(cache: PingCache, w: WakeableRef, lane: Lane)
    ensures Attached(Some(Attached(cache, w, lane)), w, lane) == Attached(cache, w, lane)
    ensures AttachCalls(Some(Attached(cache, w, lane)), w, lane) == []
  {
    var r := Attached(cache, w, lane);
    assert r[w] + {lane} == r[w];
    assert r[w := r[w] + {lane}] == r;
  }

  /** Another lane of the same wakeable, or another wakeable, keeps its own registration. */
  lemma RegisteredAfterAttach(cache: PingCache, w: WakeableRef, lane: Lane, w': WakeableRef, lane': Lane)
    ensures Registered(Some(Attached(cache, w, lane)), w', lane') <==> Registered(cache, w', lane') || (w', lane') == (w, lane)
  {
  }

  /** The ping cache and the calls after attaching `pairs` in order. */
  function AttachAll(cache: PingCache, pairs: seq<(WakeableRef, Lane)>): (r: (PingCache, seq<Call>))
    decreases |pairs|
  {
    if pairs == [] then (cache, [])
    else
      var (w, lane) := pairs[0];
      var rest := AttachAll(Some(Attached(cache, w, lane)), pairs[1..]);
      (rest.0, AttachCalls(cache, w, lane) + rest.1)
  }

  /**
   * However many times listeners are attached, `then` is called once for a
   * wakeable and lane that some attach names and that was not registered
   * before, and never otherwise.
   */
  lemma {:induction false} ThenOncePerLane(cache: PingCache, pairs: seq<(WakeableRef, Lane)>, w: WakeableRef, lane: Lane)
    ensures multiset(AttachAll(cache, pairs).1)[Then(w, lane)] == if (w, lane) in pairs && !Registered(cache, w, lane) then 1 else 0
    decreases |pairs|
  {
    if pairs != [] {
      var (w0, lane0) := pairs[0];
      var next := Some(Attached(cache, w0, lane0));
      ThenOncePerLane(next, pairs[1..], w, lane);
      RegisteredAfterAttach(cache, w0, lane0, w, lane);
      var first := AttachCalls(cache, w0, lane0);
      assert multiset(first + AttachAll(next, pairs[1..]).1) == multiset(first) + multiset(AttachAll(next, pairs[1..]).1);
      assert (w, lane) in pairs <==> (w, lane) == (w0, lane0) || (w, lane) in pairs[1..] by {
        assert pairs == [pairs[0]] + pairs[1..];
      }
    }
  }

  /** Only the lanes attached, and those registered before, are registered afterwards. */
  lemma {:induction false} AttachAllRegisters(cache: PingCache, pairs: seq<(WakeableRef, Lane)>, w: WakeableRef, lane: Lane)
    ensures Registered(AttachAll(cache, pairs).0, w, lane) <==> Registered(cache, w, lane) || (w, lane) in pairs
    decreases |pairs|
  {
    if pairs != [] {
      var (w0, lane0) := pairs[0];
      AttachAllRegisters(Some(Attached(cache, w0, lane0)), pairs[1..], w, lane);
      RegisteredAfterAttach(cache, w0, lane0, w, lane);
      assert pairs == [pairs[0]] + pairs[1..];
    }
  }

  /** The first attach creates the cache; a later one reuses it and keeps every other entry. */
  lemma CacheCreatedOnce(cache: PingCache, w: WakeableRef, lane: Lane, w': WakeableRef, lane': Lane)
    ensures cache.None? ==> Attached(cache, w, lane) == map[w := {lane}]
    ensures var c1 := Attached(cache, w, lane);
            var c2 := Attached(Some(c1), w', lane');
            w' != w ==> w in c2 && c2[w] == c1[w]
  {
    if cache.None? {
      var r := Attached(cache, w, lane);
      assert r.Keys == {w};
      assert r[w] == {lane};
    }
  }

  /** After a ping, every lane of the wakeable is forgotten: the next attach calls `then` again. */
  lemma PingForgets(cache: PingCache, w: WakeableRef, lane: Lane, lane': Lane)
    ensures AttachCalls(AfterPing(Some(Attached(cache, w, lane)), w), w, lane') == [Then(w, lane')]
  {
  }
}
