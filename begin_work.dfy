/** The begin phase's `didReceiveUpdate`, which the state hook also raises. */
module DidReceiveUpdate {

  /** The module-level flag: whether the fiber being rendered received an update, so that it cannot bail out. */
  class UpdateFlag {
    var didReceiveUpdate: bool

    constructor ()
      ensures !didReceiveUpdate
    {
      didReceiveUpdate := false;
    }

    /** `markWorkInProgressReceivedUpdate()` */
    method MarkWorkInProgressReceivedUpdate()
      modifies this
      ensures didReceiveUpdate
    {
      didReceiveUpdate := true;
    }
  }
}

/**
 * The begin phase: `beginWork(wip, renderLane)` either bails out or, by the
 * fiber's tag, computes its children and returns the first of them.
 */
module BeginWork {
  import opened Wrappers
  import opened Js
  import opened FiberFlags
  import opened WorkTags
  import opened Lanes
  import opened Fiber
  import opened ChildFibers
  import opened DidReceiveUpdate
  import opened Hooks
  import opened FiberHooks
  import FiberContext
  import SuspenseContext
  import UQ = UpdateQueue

  /** The current fiber of `wip`, when it has one. */
  function CurrentOf(fibers: map<FiberId, FiberNode>, wip: FiberId): Option<FiberNode>
    requires wip in fibers
  {
    var alternate := fibers[wip].alternate;
    if alternate.Some? && alternate.value in fibers then Some(fibers[alternate.value]) else None
  }

  /** The old first child `reconcileChildren` compares with: `current.child`, and none on mount. */
  function CurrentFirstChild(fibers: map<FiberId, FiberNode>, wip: FiberId): Option<FiberId>
    requires wip in fibers
  {
    match CurrentOf(fibers, wip)
    case None => None
    case Some(current) => current.child
  }

  /**
   * What reconciling the children of `wip` needs of the arena: `chain` is the
   * list of old children, and it holds neither `wip`, its current fiber, nor
   * a fiber paired with another of the list.
   */
  ghost predicate ReadyIn(fibers: map<FiberId, FiberNode>, wip: FiberId, chain: seq<FiberId>)
  {
    AlternatesPaired(fibers) && wip in fibers &&
    IsChain(fibers, CurrentFirstChild(fibers, wip), chain) && ApartFrom(fibers, chain, wip) &&
    (fibers[wip].alternate.Some? ==> fibers[wip].alternate.value !in chain)
  }

  /** A write that keeps the alternate and the child of a fiber outside the old children keeps them ready. */
  lemma ReadyAfterWrite(fibers: map<FiberId, FiberNode>, id: FiberId, f: FiberNode, wip: FiberId, chain: seq<FiberId>)
    requires ReadyIn(fibers, wip, chain) && id in fibers && id !in chain
    requires f.alternate == fibers[id].alternate && f.child == fibers[id].child
    ensures ReadyIn(fibers[id := f], wip, chain)
  {
    PairedAfterUpdate(fibers, id, f);
    assert CurrentFirstChild(fibers[id := f], wip) == CurrentFirstChild(fibers, wip);
    ChainAfterWrite(fibers, id, f, CurrentFirstChild(fibers, wip), chain);
  }

  /** `checkScheduledUpdateOrContext(current, renderLane)`: the current fiber has an update in the render lane. */
  predicate CheckScheduledUpdateOrContext(current: FiberNode, renderLane: Lane)
  {
    IncludeSomeLanes(current.lanes, renderLane)
  }

  /**
   * `beginWork` bails out before looking at the tag when the fiber has a
   * current fiber with the same props object and type and no update in the
   * render lane.
   */
  predicate BailsOut(fibers: map<FiberId, FiberNode>, wip: FiberId, renderLane: Lane)
    requires wip in fibers
  {
    match CurrentOf(fibers, wip)
    case None => false
    case Some(current) =>
      ObjectIs(current.memoizedProps, fibers[wip].pendingProps) && ObjectIs(current.elementType, fibers[wip].elementType) &&
      !CheckScheduledUpdateOrContext(current, renderLane)
  }

  /**
   * `bailoutOnAlreadyFinishedWork(wip, renderLane)`: nothing below the fiber
   * when its subtree has no work in the render lane, and otherwise its child.
   * The cloning of the children done in between is not part of this model.
   */
  function BailoutOnAlreadyFinishedWork(wip: FiberNode, renderLane: Lane): (next: Option<FiberId>)
    ensures next.Some? <==> IncludeSomeLanes(wip.childLanes, renderLane) && wip.child.Some?
    ensures next.Some? ==> next == wip.child
  {
    if !IncludeSomeLanes(wip.childLanes, renderLane) then None else wip.child
  }

  /** A render without a lane finds no work in any subtree, so every bailout stops the descent. */
  lemma NoLaneBailoutStops(wip: FiberNode)
    ensures BailoutOnAlreadyFinishedWork(wip, NoLane).None?
  {
  }

  /** The flags `markRef(current, wip)` leaves: `Ref` is raised when a ref is attached or changed. */
  function MarkRef(current: Option<FiberNode>, wip: FiberNode): (flags: Flags)
    ensures HasFlag(flags, FiberFlags.Ref) <==>
              HasFlag(wip.flags, FiberFlags.Ref) || (current.None? && wip.ref != Null) || (current.Some? && !ObjectIs(current.value.ref, wip.ref))
    ensures flags & !FiberFlags.Ref == wip.flags & !FiberFlags.Ref
  {
    if (current.None? && wip.ref != Null) || (current.Some? && !ObjectIs(current.value.ref, wip.ref)) then wip.flags | FiberFlags.Ref
    else wip.flags
  }

  /**
   * The children of `wip` were reconciled from `fibers0`: `mid` is the arena
   * `reconcileChildFibers` (with effects tracked iff `wip` has a current
   * fiber) or `mountChildFibers` left, and `fibers1` is `mid` with
   * `wip.child` pointing at the child it yielded, or `mid` itself when the
   * reconciler threw.
   */
  ghost predicate ChildrenReconciled(fibers0: map<FiberId, FiberNode>, mid: map<FiberId, FiberNode>, fibers1: map<FiberId, FiberNode>,
                                     next0: Ref, next1: Ref, wip: FiberId, chain: seq<FiberId>, children: JsValue,
                                     r: Result<Option<FiberId>>)
    requires wip in fibers0 && InArena(fibers0, chain)
  {
    ReconciledChildren(fibers0, mid, next0, next1, wip, chain, children, fibers0[wip].alternate.Some?, r) &&
    fibers1 == if r.Ok? then mid[wip := mid[wip].(child := r.value)] else mid
  }

  /** `reconcileChildren(wip, children)` */
  method ReconcileChildren(store: FiberStore, alloc: Allocator, wip: FiberId, ghost chain: seq<FiberId>, children: JsValue)
    returns (r: Result<Option<FiberId>>, ghost mid: map<FiberId, FiberNode>)
    requires store.Valid() && ReadyIn(store.fibers, wip, chain)
    modifies store, alloc
    ensures store.Valid() && AlternatesPaired(store.fibers) && InArena(old(store.fibers), chain)
    ensures ChildrenReconciled(old(store.fibers), mid, store.fibers, old(alloc.next), alloc.next, wip, chain, children, r)
    ensures r.Ok? ==> store.fibers[wip].child == r.value
  {
    var current := store.fibers[wip].alternate;
    if current.None? {
      r := ReconcileChildFibers(store, alloc, wip, None, chain, children, false);
    } else {
      r := ReconcileChildFibers(store, alloc, wip, store.fibers[current.value].child, chain, children, true);
    }
    mid := store.fibers;
    if r.Ok? {
      store.SetFiber(wip, store.fibers[wip].(child := r.value));
    }
  }

  /** `updateHostComponent(wip)`: marks the ref, then reconciles `pendingProps.children`. */
  method UpdateHostComponent(store: FiberStore, alloc: Allocator, wip: FiberId, ghost chain: seq<FiberId>)
    returns (r: Result<Option<FiberId>>, ghost mid: map<FiberId, FiberNode>)
    requires store.Valid() && ReadyIn(store.fibers, wip, chain)
    modifies store, alloc
    ensures store.Valid() && AlternatesPaired(store.fibers) && InArena(old(store.fibers), chain)
    ensures var w := old(store.fibers[wip]);
            ChildrenReconciled(old(store.fibers)[wip := w.(flags := MarkRef(CurrentOf(old(store.fibers), wip), w))], mid,
                               store.fibers, old(alloc.next), alloc.next, wip, chain, Get(w.pendingProps, "children"), r)
  {
    var w := store.fibers[wip];
    var marked := w.(flags := MarkRef(CurrentOf(store.fibers, wip), w));
    ReadyAfterWrite(store.fibers, wip, marked, wip, chain);
    store.SetFiber(wip, marked);
    r, mid := ReconcileChildren(store, alloc, wip, chain, Get(w.pendingProps, "children"));
  }

  /** `updateFragment(wip)`: a fragment's pending props are its children. */
  method UpdateFragment(store: FiberStore, alloc: Allocator, wip: FiberId, ghost chain: seq<FiberId>)
    returns (r: Result<Option<FiberId>>, ghost mid: map<FiberId, FiberNode>)
    requires store.Valid() && ReadyIn(store.fibers, wip, chain)
    modifies store, alloc
    ensures store.Valid() && AlternatesPaired(store.fibers) && InArena(old(store.fibers), chain)
    ensures ChildrenReconciled(old(store.fibers), mid, store.fibers, old(alloc.next), alloc.next, wip, chain,
                               old(store.fibers[wip].pendingProps), r)
  {
    r, mid := ReconcileChildren(store, alloc, wip, chain, store.fibers[wip].pendingProps);
  }

  /** `updateOffscreenComponent(wip)`: reconciles `pendingProps.children`. */
  method UpdateOffscreenComponent(store: FiberStore, alloc: Allocator, wip: FiberId, ghost chain: seq<FiberId>)
    returns (r: Result<Option<FiberId>>, ghost mid: map<FiberId, FiberNode>)
    requires store.Valid() && ReadyIn(store.fibers, wip, chain)
    modifies store, alloc
    ensures store.Valid() && AlternatesPaired(store.fibers) && InArena(old(store.fibers), chain)
    ensures ChildrenReconciled(old(store.fibers), mid, store.fibers, old(alloc.next), alloc.next, wip, chain,
                               Get(old(store.fibers[wip].pendingProps), "children"), r)
  {
    r, mid := ReconcileChildren(store, alloc, wip, chain, Get(store.fibers[wip].pendingProps, "children"));
  }

  /** `!state` for a fiber's `memoizedState`: a hook list is an object, so only a falsy plain value counts. */
  predicate MemoizedStateFalsy(state: MemoizedState)
  {
    state.StateValue? && !Truthy(state.value)
  }

  /**
   * The arena after `updateHostRoot` has processed the pending update into
   * `memoizedState`: the work-in-progress root holds it, and so does the
   * current root if its own state was falsy.
   */
  function HostRootProcessed(fibers: map<FiberId, FiberNode>, wip: FiberId, memoizedState: JsValue): (r: map<FiberId, FiberNode>)
    requires wip in fibers
    ensures r.Keys == fibers.Keys && r[wip] == fibers[wip].(memoizedState := StateValue(memoizedState))
  {
    var alternate := fibers[wip].alternate;
    var f := if alternate.Some? && alternate.value in fibers && alternate.value != wip &&
                MemoizedStateFalsy(fibers[alternate.value].memoizedState)
             then fibers[alternate.value := fibers[alternate.value].(memoizedState := StateValue(memoizedState))]
             else fibers;
    f[wip := f[wip].(memoizedState := StateValue(memoizedState))]
  }

  /** Stores the processed state in the work-in-progress root, and in the current root when its state is falsy. */
  method StoreRootState(store: FiberStore, wip: FiberId, memoizedState: JsValue, ghost chain: seq<FiberId>)
    requires store.Valid() && ReadyIn(store.fibers, wip, chain)
    modifies store`fibers
    ensures store.Valid() && ReadyIn(store.fibers, wip, chain)
    ensures store.fibers == HostRootProcessed(old(store.fibers), wip, memoizedState)
  {
    var current := store.fibers[wip].alternate;
    if current.Some? {
      var c := store.fibers[current.value];
      if MemoizedStateFalsy(c.memoizedState) {
        ReadyAfterWrite(store.fibers, current.value, c.(memoizedState := StateValue(memoizedState)), wip, chain);
        store.SetFiber(current.value, c.(memoizedState := StateValue(memoizedState)));
      }
    }
    var w := store.fibers[wip].(memoizedState := StateValue(memoizedState));
    ReadyAfterWrite(store.fibers, wip, w, wip, chain);
    store.SetFiber(wip, w);
  }

  /** `updateHostRoot(wip, renderLane)`: takes the pending update, computes the new element, and reconciles it unless unchanged. */
  method UpdateHostRoot(store: FiberStore, alloc: Allocator, wip: FiberId, renderLane: Lane, ghost chain: seq<FiberId>)
    returns (r: Result<Option<FiberId>>, ghost mid: map<FiberId, FiberNode>)
    requires store.Valid() && ReadyIn(store.fibers, wip, chain)
    requires store.fibers[wip].updateQueue.RootQueue? && store.fibers[wip].memoizedState.StateValue?
    modifies store, alloc, store.fibers[wip].updateQueue.queue
    ensures store.Valid() && AlternatesPaired(store.fibers) && InArena(old(store.fibers), chain)
    ensures old(store.fibers[wip].updateQueue.queue).pending.None?
    ensures var prevChildren := old(store.fibers[wip].memoizedState.value);
            var nextChildren := UQ.ProcessUpdateQueue(prevChildren, old(store.fibers[wip].updateQueue.queue.pending));
            var processed := HostRootProcessed(old(store.fibers), wip, nextChildren);
            (ObjectIs(prevChildren, nextChildren) ==>
               r == Ok(BailoutOnAlreadyFinishedWork(processed[wip], renderLane)) && store.fibers == processed &&
               alloc.next == old(alloc.next)) &&
            (!ObjectIs(prevChildren, nextChildren) ==>
               ChildrenReconciled(processed, mid, store.fibers, old(alloc.next), alloc.next, wip, chain, nextChildren, r))
  {
    ghost var f0 := store.fibers;
    var queue := store.fibers[wip].updateQueue.queue;
    var pending := queue.pending;
    queue.pending := None;
    var prevChildren := store.fibers[wip].memoizedState.value;
    var memoizedState := UQ.ProcessUpdateQueue(prevChildren, pending);
    StoreRootState(store, wip, memoizedState, chain);
    if ObjectIs(prevChildren, memoizedState) {
      r := Ok(BailoutOnAlreadyFinishedWork(store.fibers[wip], renderLane));
      mid := store.fibers;
      ChainInArena(f0, CurrentFirstChild(f0, wip), chain);
      return;
    }
    r, mid := ReconcileChildren(store, alloc, wip, chain, memoizedState);
  }

  /** The identity of the context a provider fiber provides, `wip.type._context`. */
  function ContextOf(wip: FiberNode): Option<Ref>
  {
    var context := Get(wip.elementType, "_context");
    if context.Obj? then Some(context.oid) else None
  }

  /** A provider that rendered before with the same value and the same children bails out. */
  predicate ProviderBailsOut(wip: FiberNode)
  {
    wip.memoizedProps != Null &&
    ObjectIs(Get(wip.memoizedProps, "value"), Get(wip.pendingProps, "value")) &&
    ObjectIs(Get(wip.memoizedProps, "children"), Get(wip.pendingProps, "children"))
  }

  /**
   * `updateContextProvider(wip, renderLane)`: provides the new value, then
   * bails out if value and children are unchanged and reconciles the
   * children otherwise.  Propagating a changed value to the consumers is not
   * part of this model.
   */
  method UpdateContextProvider(store: FiberStore, alloc: Allocator, contexts: FiberContext.ContextStack, wip: FiberId,
                               renderLane: Lane, ghost chain: seq<FiberId>)
    returns (r: Result<Option<FiberId>>, ghost mid: map<FiberId, FiberNode>)
    requires store.Valid() && ReadyIn(store.fibers, wip, chain) && ContextOf(store.fibers[wip]).Some?
    modifies store, alloc, contexts
    ensures store.Valid() && AlternatesPaired(store.fibers) && InArena(old(store.fibers), chain)
    ensures var w := old(store.fibers[wip]);
            contexts.State() == FiberContext.Push(old(contexts.State()), ContextOf(w).value, Get(w.pendingProps, "value"))
    ensures var w := old(store.fibers[wip]);
            (ProviderBailsOut(w) ==>
               r == Ok(BailoutOnAlreadyFinishedWork(w, renderLane)) && store.fibers == old(store.fibers) && alloc.next == old(alloc.next)) &&
            (!ProviderBailsOut(w) ==>
               ChildrenReconciled(old(store.fibers), mid, store.fibers, old(alloc.next), alloc.next, wip, chain,
                                  Get(w.pendingProps, "children"), r))
  {
    var w := store.fibers[wip];
    contexts.PushProvider(ContextOf(w).value, Get(w.pendingProps, "value"));
    if ProviderBailsOut(w) {
      r := Ok(BailoutOnAlreadyFinishedWork(w, renderLane));
      mid := store.fibers;
      ChainInArena(store.fibers, CurrentFirstChild(store.fibers, wip), chain);
      return;
    }
    r, mid := ReconcileChildren(store, alloc, wip, chain, Get(w.pendingProps, "children"));
  }

  // ---------------------------------------------------------------------
  // Suspense: a Suspense fiber's child is an Offscreen fiber holding the
  // primary children; while the fallback shows, a Fragment fiber holding the
  // fallback follows it.

  /** The mode of the primary Offscreen fiber. */
  function OffscreenMode(showFallback: bool): string
  {
    if showFallback then "hidden" else "visible"
  }

  /** The `OffscreenProps` object `{ mode, children }` allocated with identity `oid`. */
  function PrimaryChildProps(oid: Ref, showFallback: bool, primaryChildren: JsValue): (props: JsValue)
    ensures Get(props, "mode") == Str(OffscreenMode(showFallback)) && Get(props, "children") == primaryChildren
  {
    Obj(oid, map["mode" := Str(OffscreenMode(showFallback)), "children" := primaryChildren])
  }

  /** The current Suspense fiber's primary child and the fallback fiber that may follow it are apart from `wip` and from each other. */
  ghost predicate SuspenseShaped(fibers: map<FiberId, FiberNode>, wip: FiberId)
    requires wip in fibers
  {
    var alternate := fibers[wip].alternate;
    alternate.Some? ==>
      var current := alternate.value;
      current in fibers && fibers[current].child.Some? &&
      var primary := fibers[current].child.value;
      primary in fibers && primary != wip && primary != current &&
      (fibers[primary].sibling.Some? ==>
         var fallback := fibers[primary].sibling.value;
         fallback in fibers && fallback != wip && fallback != current && fallback != primary)
  }

  /** The Offscreen fiber `createFiberFromOffscreen` makes for the primary children, returning to `wip`. */
  function PrimaryFiber(oid: Ref, showFallback: bool, primaryChildren: JsValue, wip: FiberId): (f: FiberNode)
    ensures f.tag == OffscreenComponent && f.ret == Some(wip) && f.alternate.None? && f.sibling.None? && f.flags == NoFlags
    ensures Get(f.pendingProps, "mode") == Str(OffscreenMode(showFallback)) && Get(f.pendingProps, "children") == primaryChildren
  {
    InitialFiber(OffscreenComponent, PrimaryChildProps(oid, showFallback, primaryChildren), Null).(ret := Some(wip))
  }

  /** The Fragment fiber made for the fallback on mount: placed, returning to `wip`. */
  function FallbackFiber(fallbackChildren: JsValue, wip: FiberId): (f: FiberNode)
    ensures f.tag == Fragment && f.ret == Some(wip) && f.alternate.None? && f.sibling.None? && f.flags == Placement
    ensures f.pendingProps == fallbackChildren
  {
    InitialFiber(Fragment, fallbackChildren, Null).(flags := Placement, ret := Some(wip))
  }

  /** Allocates the Offscreen props and the primary fiber. */
  method NewPrimaryFiber(store: FiberStore, alloc: Allocator, wip: FiberId, showFallback: bool, primaryChildren: JsValue)
    returns (primary: FiberId)
    requires store.Valid()
    modifies store, alloc
    ensures store.Valid() && (AlternatesPaired(old(store.fibers)) ==> AlternatesPaired(store.fibers))
    ensures alloc.next == old(alloc.next) + 1 && primary !in old(store.fibers)
    ensures store.fibers == old(store.fibers)[primary := PrimaryFiber(old(alloc.next), showFallback, primaryChildren, wip)]
  {
    var props := alloc.NewObject(map["mode" := Str(OffscreenMode(showFallback)), "children" := primaryChildren]);
    primary := store.CreateFiberFromOffscreen(props);
    store.SetFiber(primary, store.fibers[primary].(ret := Some(wip)));
  }

  /** `mountSuspensePrimaryChildren(wip, primaryChildren)` */
  method MountSuspensePrimaryChildren(store: FiberStore, alloc: Allocator, wip: FiberId, primaryChildren: JsValue)
    returns (primary: FiberId)
    requires store.Valid() && AlternatesPaired(store.fibers) && wip in store.fibers
    modifies store, alloc
    ensures store.Valid() && AlternatesPaired(store.fibers) && alloc.next == old(alloc.next) + 1
    ensures primary !in old(store.fibers)
    ensures store.fibers == old(store.fibers)[primary := PrimaryFiber(old(alloc.next), false, primaryChildren, wip)]
                                             [wip := old(store.fibers[wip]).(child := Some(primary))]
  {
    primary := NewPrimaryFiber(store, alloc, wip, false, primaryChildren);
    store.SetFiber(wip, store.fibers[wip].(child := Some(primary)));
  }

  /** `mountSuspenseFallbackChildren(wip, primaryChildren, fallbackChildren)`: a hidden primary child followed by a placed fallback. */
  method MountSuspenseFallbackChildren(store: FiberStore, alloc: Allocator, wip: FiberId, primaryChildren: JsValue,
                                       fallbackChildren: JsValue)
    returns (fallback: FiberId, primary: FiberId)
    requires store.Valid() && AlternatesPaired(store.fibers) && wip in store.fibers
    modifies store, alloc
    ensures store.Valid() && AlternatesPaired(store.fibers) && alloc.next == old(alloc.next) + 1
    ensures primary !in old(store.fibers) && fallback !in old(store.fibers) && primary != fallback
    ensures store.fibers == old(store.fibers)[primary := PrimaryFiber(old(alloc.next), true, primaryChildren, wip).(sibling := Some(fallback))]
                                             [fallback := FallbackFiber(fallbackChildren, wip)]
                                             [wip := old(store.fibers[wip]).(child := Some(primary))]
  {
    ghost var f0 := store.fibers;
    primary := NewPrimaryFiber(store, alloc, wip, true, primaryChildren);
    var p := store.fibers[primary];
    fallback := store.CreateFiberFromFragment(fallbackChildren, Null);
    ghost var f1 := store.fibers;
    store.SetFiber(fallback, FallbackFiber(fallbackChildren, wip));
    store.SetFiber(primary, p.(sibling := Some(fallback)));
    UpdatesCommute(f0[primary := p], fallback, primary, f1[fallback], p, FallbackFiber(fallbackChildren, wip));
    UpdatesCommute(f0, primary, fallback, p, FallbackFiber(fallbackChildren, wip), p.(sibling := Some(fallback)));
    store.SetFiber(wip, store.fibers[wip].(child := Some(primary)));
  }

  /**
   * `createWorkInProgress(current, pendingProps)` for a child of the
   * Suspense fiber `wip`, followed by `child.return = wip`.
   */
  method WorkInProgressChild(store: FiberStore, current: FiberId, pendingProps: JsValue, wip: FiberId) returns (child: FiberId)
    requires store.Valid() && AlternatesPaired(store.fibers) && current in store.fibers && wip in store.fibers && current != wip
    requires store.fibers[current].alternate != Some(wip)
    modifies store
    ensures store.Valid() && AlternatesPaired(store.fibers)
    ensures child in store.fibers && child != current && child != wip
    ensures old(store.fibers[current].alternate).Some? ==> child == old(store.fibers[current].alternate.value)
    ensures old(store.fibers[current].alternate).None? ==> child !in old(store.fibers)
    ensures store.fibers.Keys == old(store.fibers).Keys + {child}
    ensures store.fibers[current] == old(store.fibers[current]).(alternate := Some(child))
    ensures forall id | id in old(store.fibers) && id != current && id != child :: store.fibers[id] == old(store.fibers[id])
    ensures var c, f := old(store.fibers[current]), store.fibers[child];
            f.alternate == Some(current) && f.ret == Some(wip) && f.pendingProps == pendingProps &&
            f.elementType == c.elementType && f.child == c.child && f.memoizedProps == c.memoizedProps &&
            f.memoizedState == c.memoizedState && f.ref == c.ref && f.flags == NoFlags && f.subtreeFlags == NoFlags &&
            f.deletions.None?
  {
    child := store.CreateWorkInProgress(current, pendingProps);
    store.SetFiber(child, store.fibers[child].(ret := Some(wip)));
  }

  /** The primary child of the current Suspense fiber, with its alternate and the fallback fiber after it, sit where a rendered tree puts them. */
  ghost predicate SuspenseUpdateShaped(fibers: map<FiberId, FiberNode>, wip: FiberId)
    requires wip in fibers
  {
    AlternatesPaired(fibers) && fibers[wip].alternate.Some? && SuspenseShaped(fibers, wip) &&
    var current := fibers[wip].alternate.value;
    var primary := fibers[current].child.value;
    var fallback := fibers[primary].sibling;
    fallback.Some? ==> fibers[primary].alternate != fallback
  }

  /** The primary child of the current Suspense fiber. */
  function CurrentPrimary(fibers: map<FiberId, FiberNode>, wip: FiberId): (primary: FiberId)
    requires wip in fibers && SuspenseUpdateShaped(fibers, wip)
    ensures primary in fibers && primary != wip
  {
    fibers[fibers[wip].alternate.value].child.value
  }

  /** The fallback fiber the current Suspense fiber shows, when it shows one. */
  function CurrentFallback(fibers: map<FiberId, FiberNode>, wip: FiberId): (fallback: Option<FiberId>)
    requires wip in fibers && SuspenseUpdateShaped(fibers, wip)
    ensures fallback.Some? ==> fallback.value in fibers && fallback.value != wip && fallback.value != CurrentPrimary(fibers, wip)
  {
    fibers[CurrentPrimary(fibers, wip)].sibling
  }

  /** The Offscreen props for the primary children and the work-in-progress copy of the current primary child that takes them. */
  method CopyCurrentPrimary(store: FiberStore, alloc: Allocator, wip: FiberId, showFallback: bool, primaryChildren: JsValue)
    returns (primary: FiberId)
    requires store.Valid() && wip in store.fibers && SuspenseUpdateShaped(store.fibers, wip)
    modifies store, alloc
    ensures store.Valid() && AlternatesPaired(store.fibers) && alloc.next == old(alloc.next) + 1
    ensures var cp := CurrentPrimary(old(store.fibers), wip);
            primary in store.fibers && primary != cp && primary != wip &&
            (old(store.fibers[cp].alternate).Some? ==> primary == old(store.fibers[cp].alternate.value)) &&
            (old(store.fibers[cp].alternate).None? ==> primary !in old(store.fibers)) &&
            store.fibers.Keys == old(store.fibers).Keys + {primary} &&
            store.fibers[cp] == old(store.fibers[cp]).(alternate := Some(primary)) &&
            (forall id | id in old(store.fibers) && id != cp && id != primary :: store.fibers[id] == old(store.fibers[id]))
    ensures var f := store.fibers[primary];
            var cp := CurrentPrimary(old(store.fibers), wip);
            f.ret == Some(wip) && f.alternate == Some(cp) && f.child == old(store.fibers[cp].child) &&
            f.pendingProps == PrimaryChildProps(old(alloc.next), showFallback, primaryChildren)
  {
    var currentPrimary := CurrentPrimary(store.fibers, wip);
    var props := alloc.NewObject(map["mode" := Str(OffscreenMode(showFallback)), "children" := primaryChildren]);
    primary := WorkInProgressChild(store, currentPrimary, props, wip);
  }

  /** `updateSuspenseFallbackChildren(wip, primaryChildren, fallbackChildren)`: both children are taken over from the current tree, or the fallback is created and placed. */
  method UpdateSuspenseFallbackChildren(store: FiberStore, alloc: Allocator, wip: FiberId, primaryChildren: JsValue,
                                        fallbackChildren: JsValue)
    returns (fallback: FiberId, primary: FiberId)
    requires store.Valid() && wip in store.fibers && SuspenseUpdateShaped(store.fibers, wip)
    modifies store, alloc
    ensures store.Valid() && AlternatesPaired(store.fibers) && alloc.next == old(alloc.next) + 1
    ensures primary != fallback && primary != wip && fallback != wip
    ensures wip in store.fibers && primary in store.fibers && fallback in store.fibers
    ensures store.fibers[wip] == old(store.fibers[wip]).(child := Some(primary))
    ensures var f := store.fibers[primary];
            var cp := CurrentPrimary(old(store.fibers), wip);
            f.ret == Some(wip) && f.sibling == Some(fallback) && f.alternate == Some(cp) &&
            f.child == old(store.fibers[cp].child) && f.pendingProps == PrimaryChildProps(old(alloc.next), true, primaryChildren)
    ensures var f := store.fibers[fallback];
            f.ret == Some(wip) && f.pendingProps == fallbackChildren &&
            (CurrentFallback(old(store.fibers), wip).None? ==> f == FallbackFiber(fallbackChildren, wip) && fallback !in old(store.fibers)) &&
            (CurrentFallback(old(store.fibers), wip).Some? ==> f.alternate == CurrentFallback(old(store.fibers), wip) && f.flags == NoFlags)
  {
    var currentFallback := CurrentFallback(store.fibers, wip);
    primary := CopyCurrentPrimary(store, alloc, wip, true, primaryChildren);
    assert currentFallback.Some? ==> store.fibers[currentFallback.value] == old(store.fibers[currentFallback.value]);
    fallback := AttachFallback(store, wip, currentFallback, fallbackChildren, primary);
  }

  /** The fallback's fiber after the primary child, which becomes the Suspense fiber's child. */
  method AttachFallback(store: FiberStore, wip: FiberId, currentFallback: Option<FiberId>, fallbackChildren: JsValue,
                        primary: FiberId)
    returns (fallback: FiberId)
    requires store.Valid() && AlternatesPaired(store.fibers) && wip in store.fibers && primary in store.fibers && wip != primary
    requires currentFallback.Some? ==>
               currentFallback.value in store.fibers && currentFallback.value != wip && currentFallback.value != primary &&
               store.fibers[currentFallback.value].alternate != Some(wip) && store.fibers[currentFallback.value].alternate != Some(primary)
    modifies store
    ensures store.Valid() && AlternatesPaired(store.fibers)
    ensures fallback in store.fibers && fallback != wip && fallback != primary && wip in store.fibers && primary in store.fibers
    ensures store.fibers[wip] == old(store.fibers[wip]).(child := Some(primary))
    ensures store.fibers[primary] == old(store.fibers[primary]).(sibling := Some(fallback))
    ensures var f := store.fibers[fallback];
            f.ret == Some(wip) && f.pendingProps == fallbackChildren &&
            (currentFallback.None? ==> f == FallbackFiber(fallbackChildren, wip) && fallback !in old(store.fibers)) &&
            (currentFallback.Some? ==> f.alternate == currentFallback && f.flags == NoFlags)
  {
    fallback := FallbackChild(store, wip, currentFallback, fallbackChildren, primary);
    LinkSuspenseChildren(store, wip, primary, Some(fallback));
  }

  /** The fallback's fiber: the work-in-progress copy of the current fallback, or a new placed Fragment when none is shown. */
  method FallbackChild(store: FiberStore, wip: FiberId, currentFallback: Option<FiberId>, fallbackChildren: JsValue,
                       primary: FiberId)
    returns (fallback: FiberId)
    requires store.Valid() && AlternatesPaired(store.fibers) && wip in store.fibers && primary in store.fibers && wip != primary
    requires currentFallback.Some? ==>
               currentFallback.value in store.fibers && currentFallback.value != wip && currentFallback.value != primary &&
               store.fibers[currentFallback.value].alternate != Some(wip) && store.fibers[currentFallback.value].alternate != Some(primary)
    modifies store
    ensures store.Valid() && AlternatesPaired(store.fibers)
    ensures fallback in store.fibers && fallback != wip && fallback != primary && wip in store.fibers && primary in store.fibers
    ensures store.fibers[wip] == old(store.fibers[wip]) && store.fibers[primary] == old(store.fibers[primary])
    ensures var f := store.fibers[fallback];
            f.ret == Some(wip) && f.pendingProps == fallbackChildren &&
            (currentFallback.None? ==> f == FallbackFiber(fallbackChildren, wip) && fallback !in old(store.fibers)) &&
            (currentFallback.Some? ==> f.alternate == currentFallback && f.flags == NoFlags)
  {
    if currentFallback.Some? {
      fallback := WorkInProgressChild(store, currentFallback.value, fallbackChildren, wip);
    } else {
      fallback := store.CreateFiberFromFragment(fallbackChildren, Null);
      store.SetFiber(fallback, FallbackFiber(fallbackChildren, wip));
    }
  }

  /** `primaryChildFragment.sibling = fallback; wip.child = primaryChildFragment` */
  method LinkSuspenseChildren(store: FiberStore, wip: FiberId, primary: FiberId, fallback: Option<FiberId>)
    requires store.Valid() && wip in store.fibers && primary in store.fibers && wip != primary
    modifies store`fibers
    ensures store.Valid() && (AlternatesPaired(old(store.fibers)) ==> AlternatesPaired(store.fibers))
    ensures store.fibers == old(store.fibers)[primary := old(store.fibers[primary]).(sibling := fallback)]
                                             [wip := old(store.fibers[wip]).(child := Some(primary))]
  {
    store.SetFiber(primary, store.fibers[primary].(sibling := fallback));
    store.SetFiber(wip, store.fibers[wip].(child := Some(primary)));
  }

  /**
   * `updateSuspensePrimaryChildren(wip, primaryChildren)`: the primary child
   * is taken over from the current tree and shown, and a fallback shown
   * before is queued for deletion.
   */
  method UpdateSuspensePrimaryChildren(store: FiberStore, alloc: Allocator, wip: FiberId, primaryChildren: JsValue)
    returns (primary: FiberId)
    requires store.Valid() && wip in store.fibers && SuspenseUpdateShaped(store.fibers, wip)
    modifies store, alloc
    ensures store.Valid() && AlternatesPaired(store.fibers) && alloc.next == old(alloc.next) + 1
    ensures primary != wip && wip in store.fibers && primary in store.fibers
    ensures var fallback := CurrentFallback(old(store.fibers), wip);
            store.fibers[wip] == WithDeletions(old(store.fibers[wip]).(child := Some(primary)), if fallback.Some? then [fallback.value] else [])
    ensures var f := store.fibers[primary];
            f.ret == Some(wip) && f.sibling.None? && f.alternate == Some(CurrentPrimary(old(store.fibers), wip)) &&
            f.child == old(store.fibers[CurrentPrimary(store.fibers, wip)].child) &&
            f.pendingProps == PrimaryChildProps(old(alloc.next), false, primaryChildren)
  {
    var currentFallback := CurrentFallback(store.fibers, wip);
    primary := CopyCurrentPrimary(store, alloc, wip, false, primaryChildren);
    LinkSuspenseChildren(store, wip, primary, None);
    if currentFallback.Some? {
      DeleteChild(store, wip, currentFallback.value, true);
    }
  }

  /** What a Suspense fiber needs before `updateSuspenseComponent`: on update, a current tree of the usual shape. */
  ghost predicate SuspenseReady(fibers: map<FiberId, FiberNode>, wip: FiberId)
  {
    AlternatesPaired(fibers) && wip in fibers && (fibers[wip].alternate.Some? ==> SuspenseUpdateShaped(fibers, wip))
  }

  /**
   * The children a Suspense fiber gets: an Offscreen primary child holding
   * `primaryChildren`, in mode "hidden" when the fallback is shown, and then
   * the fallback fiber after it, which is the next unit of work; otherwise
   * the primary child alone, which is.
   */
  ghost predicate SuspenseChildrenPlaced(fibers: map<FiberId, FiberNode>, wip: FiberId, showFallback: bool,
                                         primaryChildren: JsValue, fallbackChildren: JsValue, next: FiberId)
  {
    wip in fibers && fibers[wip].child.Some? &&
    var primary := fibers[wip].child.value;
    primary in fibers && primary != wip && fibers[primary].ret == Some(wip) &&
    Get(fibers[primary].pendingProps, "mode") == Str(OffscreenMode(showFallback)) &&
    Get(fibers[primary].pendingProps, "children") == primaryChildren &&
    (showFallback ==>
       fibers[primary].sibling == Some(next) && next in fibers && next != wip && next != primary &&
       fibers[next].ret == Some(wip) && fibers[next].pendingProps == fallbackChildren) &&
    (!showFallback ==> next == primary && fibers[primary].sibling.None?)
  }

  /**
   * `updateSuspenseComponent(wip)`: the handler is pushed and `DidCapture`
   * cleared; the primary Offscreen child is hidden exactly when the fiber
   * had captured a suspension, and then the fallback follows it and is the
   * next unit of work, while otherwise the primary child is.
   */
  method UpdateSuspenseComponent(store: FiberStore, alloc: Allocator, handlers: SuspenseContext.SuspenseHandlerStack, wip: FiberId)
    returns (next: FiberId)
    requires store.Valid() && SuspenseReady(store.fibers, wip)
    modifies store, alloc, handlers
    ensures store.Valid() && AlternatesPaired(store.fibers) && alloc.next == old(alloc.next) + 1
    ensures handlers.handlers == old(handlers.handlers) + [wip]
    ensures wip in store.fibers && !HasFlag(store.fibers[wip].flags, DidCapture)
    ensures store.fibers[wip].alternate == old(store.fibers[wip].alternate)
    ensures var props := old(store.fibers[wip].pendingProps);
            SuspenseChildrenPlaced(store.fibers, wip, HasFlag(old(store.fibers[wip].flags), DidCapture),
                                   Get(props, "children"), Get(props, "fallback"), next)
    ensures var primary := store.fibers[wip].child.value;
            (old(store.fibers[wip].alternate).None? ==> primary !in old(store.fibers)) &&
            (old(store.fibers[wip].alternate).Some? ==> store.fibers[primary].alternate == Some(CurrentPrimary(old(store.fibers), wip)))
  {
    var w := store.fibers[wip];
    var showFallback := false;
    var didSuspend := HasFlag(w.flags, DidCapture);
    if didSuspend {
      showFallback := true;
      store.SetFiber(wip, w.(flags := w.flags & !DidCapture));
    }
    ClearedCapture(old(store.fibers), store.fibers, wip);
    var nextPrimaryChildren := Get(w.pendingProps, "children");
    var nextFallbackChildren := Get(w.pendingProps, "fallback");
    handlers.PushSuspenseHandler(wip);
    if w.alternate.None? {
      next := MountSuspenseChildren(store, alloc, wip, showFallback, nextPrimaryChildren, nextFallbackChildren);
    } else {
      next := UpdateSuspenseChildren(store, alloc, wip, showFallback, nextPrimaryChildren, nextFallbackChildren);
    }
  }

  /** Clearing `DidCapture` on the Suspense fiber leaves the current tree it reads as it was. */
  lemma ClearedCapture(fibers0: map<FiberId, FiberNode>, fibers1: map<FiberId, FiberNode>, wip: FiberId)
    requires SuspenseReady(fibers0, wip)
    requires fibers1 == fibers0 || fibers1 == fibers0[wip := fibers0[wip].(flags := fibers0[wip].flags & !DidCapture)]
    ensures SuspenseReady(fibers1, wip) && fibers1[wip] == fibers0[wip].(flags := fibers1[wip].flags)
    ensures fibers0[wip].alternate.Some? ==> CurrentPrimary(fibers1, wip) == CurrentPrimary(fibers0, wip)
  {
  }

  /** The children of a Suspense fiber on mount: both created, or the primary child alone. */
  method MountSuspenseChildren(store: FiberStore, alloc: Allocator, wip: FiberId, showFallback: bool,
                               primaryChildren: JsValue, fallbackChildren: JsValue)
    returns (next: FiberId)
    requires store.Valid() && AlternatesPaired(store.fibers) && wip in store.fibers
    modifies store, alloc
    ensures store.Valid() && AlternatesPaired(store.fibers) && alloc.next == old(alloc.next) + 1
    ensures wip in store.fibers && store.fibers[wip] == old(store.fibers[wip]).(child := store.fibers[wip].child)
    ensures SuspenseChildrenPlaced(store.fibers, wip, showFallback, primaryChildren, fallbackChildren, next)
    ensures store.fibers[wip].child.value !in old(store.fibers)
  {
    if showFallback {
      var primary;
      next, primary := MountSuspenseFallbackChildren(store, alloc, wip, primaryChildren, fallbackChildren);
    } else {
      next := MountSuspensePrimaryChildren(store, alloc, wip, primaryChildren);
    }
  }

  /** The children of a Suspense fiber on update: taken over from the current tree. */
  method UpdateSuspenseChildren(store: FiberStore, alloc: Allocator, wip: FiberId, showFallback: bool,
                                primaryChildren: JsValue, fallbackChildren: JsValue)
    returns (next: FiberId)
    requires store.Valid() && wip in store.fibers && SuspenseUpdateShaped(store.fibers, wip)
    modifies store, alloc
    ensures store.Valid() && AlternatesPaired(store.fibers) && alloc.next == old(alloc.next) + 1
    ensures wip in store.fibers && store.fibers[wip].alternate == old(store.fibers[wip].alternate)
    ensures !HasFlag(old(store.fibers[wip].flags), DidCapture) ==> !HasFlag(store.fibers[wip].flags, DidCapture)
    ensures SuspenseChildrenPlaced(store.fibers, wip, showFallback, primaryChildren, fallbackChildren, next)
    ensures store.fibers[store.fibers[wip].child.value].alternate == Some(CurrentPrimary(old(store.fibers), wip))
  {
    if showFallback {
      var primary;
      next, primary := UpdateSuspenseFallbackChildren(store, alloc, wip, primaryChildren, fallbackChildren);
    } else {
      next := UpdateSuspensePrimaryChildren(store, alloc, wip, primaryChildren);
    }
  }

  // ---------------------------------------------------------------------
  // Function and memo components

  /** A render that changed only the hook fields of `wip` leaves its old children ready to reconcile. */
  lemma ReadyAfterRender(fibers: map<FiberId, FiberNode>, fibers': map<FiberId, FiberNode>, wip: FiberId, chain: seq<FiberId>)
    requires ReadyIn(fibers, wip, chain) && HooksFramed(fibers, fibers', wip)
    ensures ReadyIn(fibers', wip, chain) && fibers'[wip].childLanes == fibers[wip].childLanes && fibers'[wip].child == fibers[wip].child
  {
    assert Shape(fibers'[wip]) == Shape(fibers[wip]);
    assert fibers' == fibers[wip := fibers'[wip]];
    ReadyAfterWrite(fibers, wip, fibers'[wip], wip, chain);
  }

  /** The hook list of the current fiber, when it has one, is a list that holds at least one hook. */
  ghost predicate CurrentHooksReady(fibers: map<FiberId, FiberNode>, lists: map<HookId, seq<Hook>>, wip: FiberId)
    requires wip in fibers
  {
    var current := CurrentFirstHook(fibers, wip);
    current.Some? ==> current.value in lists && |lists[current.value]| > 0
  }

  /**
   * What `updateFunctionComponent` leaves, from the arena `fibers0` it starts
   * from: the render rewrites only the fiber's hook state (`rendered`), a
   * render that throws (`threw`) leaves the fiber rendering, a completed
   * render builds exactly one hook per call and uses no more hooks than the
   * current fiber had; after a render on update that received no update
   * the fiber bails out, and otherwise the returned children are reconciled.
   * `lists0`/`lists1` are the hook lists before and after, `rendering` the
   * fiber left rendering and `didReceiveUpdate` the flag at the end.
   */
  ghost predicate FunctionUpdated(fibers0: map<FiberId, FiberNode>, rendered: map<FiberId, FiberNode>, mid: map<FiberId, FiberNode>,
                                  fibers1: map<FiberId, FiberNode>, allocNext: Ref, next1: Ref, wip: FiberId, chain: seq<FiberId>,
                                  renderLane: Lane, calls: seq<HookCall>, children: JsValue,
                                  lists0: map<HookId, seq<Hook>>, lists1: map<HookId, seq<Hook>>, rendering: Option<FiberId>,
                                  didReceiveUpdate: bool, threw: bool, r: Result<Option<FiberId>>)
    requires wip in fibers0
  {
    var alternate := fibers0[wip].alternate;
    HooksFramed(fibers0, rendered, wip) && wip in rendered && InArena(rendered, chain) &&
    (threw ==> r.Err? && fibers1 == rendered && rendering == Some(wip)) &&
    (!threw ==> rendering.None? && ListLength(rendered[wip].memoizedState, lists1) == HooksUsed(calls)) &&
    (alternate.None? ==> !threw) &&
    (alternate.Some? ==>
       var count := CurrentCount(fibers0, wip, lists0);
       (!threw ==> HooksUsed(calls) <= count) && (threw && r == Err(MoreHooksThanBefore) ==> HooksUsed(calls) > count)) &&
    (!threw && alternate.Some? && !didReceiveUpdate ==>
       rendered[wip].alternate == alternate && alternate.value in rendered && alternate.value != wip &&
       r == Ok(BailoutOnAlreadyFinishedWork(fibers0[wip], renderLane)) && fibers1 == BailedOut(rendered, wip, renderLane)) &&
    // `== true` keeps the nested predicate whole, so the verifier does not unfold it into every goal.
    (!threw && (alternate.None? || didReceiveUpdate) ==>
       ChildrenReconciled(rendered, mid, fibers1, allocNext, next1, wip, chain, children, r) == true)
  }

  /**
   * `updateFunctionComponent(wip, Component, renderLane)`, with the
   * component's render given as the hook calls it makes and the children it
   * returns.  A render that throws (`threw`) ends the work on the fiber.
   * After a render on update that received no update the fiber bails out,
   * and otherwise the returned children are reconciled, which may throw in
   * turn.  `rendered` is the arena the render left and `allocNext` the
   * allocator's counter after it.
   */
  method UpdateFunctionComponent(store: FiberStore, alloc: Allocator, hooks: HooksState, flag: UpdateFlag,
                                 contexts: FiberContext.ContextStack, process: Process, wip: FiberId, renderLane: Lane,
                                 ghost chain: seq<FiberId>, calls: seq<HookCall>, children: JsValue)
    returns (r: Result<Option<FiberId>>, ghost rendered: map<FiberId, FiberNode>, ghost allocNext: Ref, ghost mid: map<FiberId, FiberNode>,
             ghost threw: bool)
    requires store.Valid() && ReadyIn(store.fibers, wip, chain)
    requires hooks.Idle() && CurrentHooksReady(store.fibers, hooks.lists, wip)
    modifies store, alloc, hooks, flag
    ensures store.Valid() && AlternatesPaired(store.fibers) && (r.Ok? ==> hooks.Idle()) && (r.Err? ==> hooks.Valid(store))
    ensures InArena(old(store.fibers), chain)
    ensures FunctionUpdated(old(store.fibers), rendered, mid, store.fibers, allocNext, alloc.next, wip, chain, renderLane, calls,
                            children, old(hooks.lists), hooks.lists, hooks.currentlyRenderingFiber, flag.didReceiveUpdate, threw, r)
  {
    hooks.IdleValid(store);
    var result := hooks.RenderWithHooks(store, alloc, flag, contexts, process, wip, renderLane, calls);
    rendered, allocNext, mid := store.fibers, alloc.next, store.fibers;
    ReadyAfterRender(old(store.fibers), rendered, wip, chain);
    if result.Err? {
      ChainInArena(old(store.fibers), CurrentFirstChild(old(store.fibers), wip), chain);
      return Err(result.message), rendered, allocNext, mid, true;
    }
    threw := false;
    hooks.IdleValid(store);
    r, mid := FinishFunctionComponent(store, alloc, flag, wip, renderLane, chain, children);
    hooks.IdleValid(store);
  }

  /** The part of `updateFunctionComponent` after the render: the bailout, or the reconciliation of the returned children. */
  method FinishFunctionComponent(store: FiberStore, alloc: Allocator, flag: UpdateFlag, wip: FiberId, renderLane: Lane,
                                 ghost chain: seq<FiberId>, children: JsValue)
    returns (r: Result<Option<FiberId>>, ghost mid: map<FiberId, FiberNode>)
    requires store.Valid() && ReadyIn(store.fibers, wip, chain)
    modifies store, alloc
    ensures store.Valid() && AlternatesPaired(store.fibers) && InArena(old(store.fibers), chain)
    ensures old(store.fibers[wip].alternate).Some? && !flag.didReceiveUpdate ==>
              r == Ok(BailoutOnAlreadyFinishedWork(old(store.fibers[wip]), renderLane)) &&
              store.fibers == BailedOut(old(store.fibers), wip, renderLane)
    ensures old(store.fibers[wip].alternate).None? || flag.didReceiveUpdate ==>
              ChildrenReconciled(old(store.fibers), mid, store.fibers, old(alloc.next), alloc.next, wip, chain, children, r)
  {
    if store.fibers[wip].alternate.Some? && !flag.didReceiveUpdate {
      ChainInArena(store.fibers, CurrentFirstChild(store.fibers, wip), chain);
      BailoutHook(store, wip, renderLane);
      return Ok(BailoutOnAlreadyFinishedWork(store.fibers[wip], renderLane)), store.fibers;
    }
    r, mid := ReconcileChildren(store, alloc, wip, chain, children);
  }

  /**
   * A memo fiber whose current fiber has shallowly equal props and the same
   * ref: `updateMemoComponent` then takes the old props and clears
   * `didReceiveUpdate`.
   */
  predicate MemoPropsKept(fibers: map<FiberId, FiberNode>, wip: FiberId, shallowEqual: (JsValue, JsValue) -> bool)
    requires wip in fibers
  {
    match CurrentOf(fibers, wip)
    case None => false
    case Some(current) => shallowEqual(current.memoizedProps, fibers[wip].pendingProps) && ObjectIs(current.ref, fibers[wip].ref)
  }

  /** A write to `wip` that keeps its alternate keeps the hook list of its current fiber. */
  lemma CurrentHookAfterWrite(fibers: map<FiberId, FiberNode>, wip: FiberId, f: FiberNode)
    requires AlternatesPaired(fibers) && wip in fibers && f.alternate == fibers[wip].alternate
    ensures CurrentFirstHook(fibers[wip := f], wip) == CurrentFirstHook(fibers, wip)
  {
  }

  /** A memo fiber with kept props and no update in the render lane skips the render. */
  predicate MemoBailsOut(fibers: map<FiberId, FiberNode>, wip: FiberId, renderLane: Lane, shallowEqual: (JsValue, JsValue) -> bool)
    requires wip in fibers
  {
    MemoPropsKept(fibers, wip, shallowEqual) && !CheckScheduledUpdateOrContext(CurrentOf(fibers, wip).value, renderLane)
  }

  /** The arena `updateMemoComponent` goes on to render in: with the old props when they were kept. */
  function MemoStart(fibers: map<FiberId, FiberNode>, wip: FiberId, shallowEqual: (JsValue, JsValue) -> bool): (start: map<FiberId, FiberNode>)
    requires wip in fibers
    ensures start.Keys == fibers.Keys
    ensures MemoPropsKept(fibers, wip, shallowEqual) ==>
              start[wip] == fibers[wip].(pendingProps := CurrentOf(fibers, wip).value.memoizedProps)
    ensures !MemoPropsKept(fibers, wip, shallowEqual) ==> start == fibers
    ensures forall id | id in fibers && id != wip :: start[id] == fibers[id]
  {
    if MemoPropsKept(fibers, wip, shallowEqual) then fibers[wip := fibers[wip].(pendingProps := CurrentOf(fibers, wip).value.memoizedProps)]
    else fibers
  }

  /**
   * The part of `updateMemoComponent` before the render: kept props are
   * taken over and clear `didReceiveUpdate`, and without an update in the
   * render lane the fiber takes its current fiber's lanes and bails out.
   */
  method PrepareMemo(store: FiberStore, flag: UpdateFlag, wip: FiberId, renderLane: Lane,
                     shallowEqual: (JsValue, JsValue) -> bool, ghost chain: seq<FiberId>)
    returns (bail: bool, next: Option<FiberId>)
    requires store.Valid() && ReadyIn(store.fibers, wip, chain)
    modifies store`fibers, flag
    ensures store.Valid() && ReadyIn(store.fibers, wip, chain) && InArena(old(store.fibers), chain)
    ensures bail == MemoBailsOut(old(store.fibers), wip, renderLane, shallowEqual)
    ensures MemoPropsKept(old(store.fibers), wip, shallowEqual) ==> !flag.didReceiveUpdate
    ensures bail ==>
              next == BailoutOnAlreadyFinishedWork(old(store.fibers[wip]), renderLane) &&
              var start := MemoStart(old(store.fibers), wip, shallowEqual);
              store.fibers == start[wip := start[wip].(lanes := CurrentOf(old(store.fibers), wip).value.lanes)]
    ensures !bail ==> store.fibers == MemoStart(old(store.fibers), wip, shallowEqual)
  {
    ChainInArena(store.fibers, CurrentFirstChild(store.fibers, wip), chain);
    var current := store.fibers[wip].alternate;
    if current.Some? {
      var c := store.fibers[current.value];
      var w := store.fibers[wip];
      if shallowEqual(c.memoizedProps, w.pendingProps) && ObjectIs(c.ref, w.ref) {
        flag.didReceiveUpdate := false;
        ReadyAfterWrite(store.fibers, wip, w.(pendingProps := c.memoizedProps), wip, chain);
        store.SetFiber(wip, w.(pendingProps := c.memoizedProps));
        if !CheckScheduledUpdateOrContext(c, renderLane) {
          ReadyAfterWrite(store.fibers, wip, store.fibers[wip].(lanes := c.lanes), wip, chain);
          store.SetFiber(wip, store.fibers[wip].(lanes := c.lanes));
          return true, BailoutOnAlreadyFinishedWork(store.fibers[wip], renderLane);
        }
      }
    }
    return false, None;
  }

  /**
   * What `updateMemoComponent` leaves: the bailout when the props were kept
   * and the fiber has no update in the render lane, and otherwise what
   * `updateFunctionComponent` leaves from the arena `start` holding the
   * props the render sees.
   */
  ghost predicate MemoUpdated(fibers0: map<FiberId, FiberNode>, start: map<FiberId, FiberNode>, rendered: map<FiberId, FiberNode>,
                              mid: map<FiberId, FiberNode>, fibers1: map<FiberId, FiberNode>, allocNext: Ref, next1: Ref,
                              wip: FiberId, chain: seq<FiberId>, renderLane: Lane, shallowEqual: (JsValue, JsValue) -> bool,
                              calls: seq<HookCall>, children: JsValue,
                              lists0: map<HookId, seq<Hook>>, lists1: map<HookId, seq<Hook>>, rendering: Option<FiberId>,
                              didReceiveUpdate: bool, threw: bool, r: Result<Option<FiberId>>)
    requires wip in fibers0
  {
    start == MemoStart(fibers0, wip, shallowEqual) && wip in start &&
    (MemoBailsOut(fibers0, wip, renderLane, shallowEqual) ==>
       CurrentOf(fibers0, wip).Some? &&
       r == Ok(BailoutOnAlreadyFinishedWork(fibers0[wip], renderLane)) && !didReceiveUpdate && !threw &&
       fibers1 == start[wip := start[wip].(lanes := CurrentOf(fibers0, wip).value.lanes)]) &&
    // `== true` keeps the nested predicate whole, as in `FunctionUpdated`.
    (!MemoBailsOut(fibers0, wip, renderLane, shallowEqual) ==>
       FunctionUpdated(start, rendered, mid, fibers1, allocNext, next1, wip, chain, renderLane, calls, children,
                       lists0, lists1, rendering, didReceiveUpdate, threw, r) == true)
  }

  /**
   * `updateMemoComponent(wip, renderLane)`, with `shallowEqual` given: a
   * memo fiber with kept props and no update in the render lane takes its
   * current fiber's lanes and bails out; any other renders the inner
   * component as `updateFunctionComponent` does, from the arena `start`.
   */
  method UpdateMemoComponent(store: FiberStore, alloc: Allocator, hooks: HooksState, flag: UpdateFlag,
                             contexts: FiberContext.ContextStack, process: Process, wip: FiberId, renderLane: Lane,
                             shallowEqual: (JsValue, JsValue) -> bool, ghost chain: seq<FiberId>, calls: seq<HookCall>, children: JsValue)
    returns (r: Result<Option<FiberId>>, ghost start: map<FiberId, FiberNode>, ghost rendered: map<FiberId, FiberNode>,
             ghost allocNext: Ref, ghost mid: map<FiberId, FiberNode>, ghost threw: bool)
    requires store.Valid() && ReadyIn(store.fibers, wip, chain)
    requires hooks.Idle() && CurrentHooksReady(store.fibers, hooks.lists, wip)
    modifies store, alloc, hooks, flag
    ensures store.Valid() && AlternatesPaired(store.fibers) && InArena(old(store.fibers), chain)
    ensures (r.Ok? ==> hooks.Idle()) && (r.Err? ==> hooks.Valid(store))
    ensures MemoUpdated(old(store.fibers), start, rendered, mid, store.fibers, allocNext, alloc.next, wip, chain, renderLane,
                        shallowEqual, calls, children, old(hooks.lists), hooks.lists, hooks.currentlyRenderingFiber,
                        flag.didReceiveUpdate, threw, r)
  {
    start := MemoStart(store.fibers, wip, shallowEqual);
    var bail, next := PrepareMemo(store, flag, wip, renderLane, shallowEqual, chain);
    if bail {
      return Ok(next), start, store.fibers, alloc.next, store.fibers, false;
    }
    CurrentHookAfterWrite(old(store.fibers), wip, start[wip]);
    r, rendered, allocNext, mid, threw := UpdateFunctionComponent(store, alloc, hooks, flag, contexts, process, wip, renderLane,
                                                                  chain, calls, children);
  }

  // ---------------------------------------------------------------------
  // beginWork

  /** What the update of a fiber's tag needs beyond its old children: a root's queue and state, a provider's context, a Suspense fiber's shape. */
  ghost predicate TagReady(fibers: map<FiberId, FiberNode>, wip: FiberId)
    requires wip in fibers
  {
    match fibers[wip].tag
    case HostRoot => fibers[wip].updateQueue.RootQueue? && fibers[wip].memoizedState.StateValue?
    case ContextProvider => ContextOf(fibers[wip]).Some?
    case SuspenseComponent => SuspenseReady(fibers, wip)
    case _ => true
  }

  /** The root's shared queue, which `updateHostRoot` empties. */
  function RootQueueOf(fibers: map<FiberId, FiberNode>, wip: FiberId): set<object>
    requires wip in fibers
  {
    if fibers[wip].updateQueue.RootQueue? then {fibers[wip].updateQueue.queue} else {}
  }

  /** The update the root's queue holds, which `updateHostRoot` processes. */
  ghost function RootPending(fibers: map<FiberId, FiberNode>, wip: FiberId): Option<UQ.Update<JsValue>>
    requires wip in fibers
    reads RootQueueOf(fibers, wip)
  {
    if fibers[wip].updateQueue.RootQueue? then fibers[wip].updateQueue.queue.pending else None
  }

  /**
   * What the switch of `beginWork` leaves for a fiber that is not a
   * component, tag by tag, from the arena `fibers0` (`pending` is the
   * root's pending update, `contexts0`/`contexts1` the context module's
   * state and `handlers0`/`handlers1` the Suspense handler stack before and
   * after, `next0`/`next1` the allocator's counter).  A host text fiber has
   * no children; a root, host component, fragment, provider or Offscreen
   * fiber reconciles its children, or bails out when its children or
   * provided value did not change; a Suspense fiber places its primary
   * child and, when it had captured, its fallback.  Only a provider touches
   * the contexts and only a Suspense fiber the handler stack.
   */
  ghost predicate HostTagUpdated(fibers0: map<FiberId, FiberNode>, mid: map<FiberId, FiberNode>, fibers1: map<FiberId, FiberNode>,
                                 next0: Ref, next1: Ref, wip: FiberId, chain: seq<FiberId>, renderLane: Lane,
                                 pending: Option<UQ.Update<JsValue>>,
                                 contexts0: FiberContext.ContextState, contexts1: FiberContext.ContextState,
                                 handlers0: seq<FiberId>, handlers1: seq<FiberId>, r: Result<Option<FiberId>>)
    requires wip in fibers0 && InArena(fibers0, chain)
  {
    var w := fibers0[wip];
    (w.tag != ContextProvider ==> contexts1 == contexts0) && (w.tag != SuspenseComponent ==> handlers1 == handlers0) &&
    match w.tag
    case HostRoot =>
      w.memoizedState.StateValue? &&
      var prevChildren := w.memoizedState.value;
      var nextChildren := UQ.ProcessUpdateQueue(prevChildren, pending);
      var processed := HostRootProcessed(fibers0, wip, nextChildren);
      (ObjectIs(prevChildren, nextChildren) ==>
         r == Ok(BailoutOnAlreadyFinishedWork(processed[wip], renderLane)) && fibers1 == processed && next1 == next0) &&
      (!ObjectIs(prevChildren, nextChildren) ==>
         InArena(processed, chain) && ChildrenReconciled(processed, mid, fibers1, next0, next1, wip, chain, nextChildren, r))
    case HostComponent =>
      var marked := fibers0[wip := w.(flags := MarkRef(CurrentOf(fibers0, wip), w))];
      InArena(marked, chain) && ChildrenReconciled(marked, mid, fibers1, next0, next1, wip, chain, Get(w.pendingProps, "children"), r)
    case HostText => r == Ok(None) && fibers1 == fibers0 && next1 == next0
    case Fragment => ChildrenReconciled(fibers0, mid, fibers1, next0, next1, wip, chain, w.pendingProps, r)
    case ContextProvider =>
      ContextOf(w).Some? && contexts1 == FiberContext.Push(contexts0, ContextOf(w).value, Get(w.pendingProps, "value")) &&
      (ProviderBailsOut(w) ==> r == Ok(BailoutOnAlreadyFinishedWork(w, renderLane)) && fibers1 == fibers0 && next1 == next0) &&
      (!ProviderBailsOut(w) ==> ChildrenReconciled(fibers0, mid, fibers1, next0, next1, wip, chain, Get(w.pendingProps, "children"), r))
    case SuspenseComponent =>
      handlers1 == handlers0 + [wip] && next1 == next0 + 1 && r.Ok? && r.value.Some? &&
      SuspenseChildrenPlaced(fibers1, wip, HasFlag(w.flags, DidCapture), Get(w.pendingProps, "children"),
                             Get(w.pendingProps, "fallback"), r.value.value) &&
      !HasFlag(fibers1[wip].flags, DidCapture) && fibers1[wip].alternate == w.alternate
    case OffscreenComponent =>
      ChildrenReconciled(fibers0, mid, fibers1, next0, next1, wip, chain, Get(w.pendingProps, "children"), r)
    case _ => false
  }

  /** The cases of the switch of `beginWork` for fibers that are not components: each computes the children and returns the next unit of work. */
  method DispatchHost(store: FiberStore, alloc: Allocator, contexts: FiberContext.ContextStack,
                      handlers: SuspenseContext.SuspenseHandlerStack, wip: FiberId, renderLane: Lane, ghost chain: seq<FiberId>)
    returns (r: Result<Option<FiberId>>, ghost mid: map<FiberId, FiberNode>)
    requires store.Valid() && ReadyIn(store.fibers, wip, chain) && TagReady(store.fibers, wip)
    requires !IsComponent(store.fibers[wip].tag)
    modifies store, alloc, contexts, handlers, RootQueueOf(store.fibers, wip)
    ensures store.Valid() && AlternatesPaired(store.fibers) && InArena(old(store.fibers), chain)
    ensures HostTagUpdated(old(store.fibers), mid, store.fibers, old(alloc.next), alloc.next, wip, chain, renderLane,
                           old(RootPending(store.fibers, wip)), old(contexts.State()), contexts.State(),
                           old(handlers.handlers), handlers.handlers, r)
  {
    mid := store.fibers;
    ChainInArena(store.fibers, CurrentFirstChild(store.fibers, wip), chain);
    match store.fibers[wip].tag {
      case HostRoot =>
        r, mid := UpdateHostRoot(store, alloc, wip, renderLane, chain);
      case HostComponent =>
        r, mid := UpdateHostComponent(store, alloc, wip, chain);
      case HostText =>
        r := Ok(None);
      case Fragment =>
        r, mid := UpdateFragment(store, alloc, wip, chain);
      case ContextProvider =>
        r, mid := UpdateContextProvider(store, alloc, contexts, wip, renderLane, chain);
      case SuspenseComponent =>
        var primary := UpdateSuspenseComponent(store, alloc, handlers, wip);
        r := Ok(Some(primary));
      case OffscreenComponent =>
        r, mid := UpdateOffscreenComponent(store, alloc, wip, chain);
    }
  }

  /** A Suspense fiber keeps its shape when its own lanes are rewritten. */
  lemma SuspenseReadyAfterLanes(fibers: map<FiberId, FiberNode>, wip: FiberId, lanes: Lanes)
    requires SuspenseReady(fibers, wip)
    ensures SuspenseReady(fibers[wip := fibers[wip].(lanes := lanes)], wip)
  {
    PairedAfterUpdate(fibers, wip, fibers[wip].(lanes := lanes));
  }

  /** `wip.lanes = NoLanes`: the fiber's own work is about to be done. */
  method ResetLanes(store: FiberStore, wip: FiberId, ghost chain: seq<FiberId>)
    requires store.Valid() && ReadyIn(store.fibers, wip, chain) && TagReady(store.fibers, wip)
    modifies store`fibers
    ensures store.Valid() && ReadyIn(store.fibers, wip, chain) && TagReady(store.fibers, wip)
    ensures store.fibers == old(store.fibers)[wip := old(store.fibers[wip]).(lanes := NoLanes)]
  {
    var w := store.fibers[wip].(lanes := NoLanes);
    ReadyAfterWrite(store.fibers, wip, w, wip, chain);
    if w.tag == SuspenseComponent {
      SuspenseReadyAfterLanes(store.fibers, wip, NoLanes);
    }
    store.SetFiber(wip, w);
  }

  /** The current fiber's props object or type differs from the work-in-progress fiber's: `beginWork` then records an update. */
  predicate PropsOrTypeChanged(fibers: map<FiberId, FiberNode>, wip: FiberId)
    requires wip in fibers
  {
    match CurrentOf(fibers, wip)
    case None => false
    case Some(current) =>
      !ObjectIs(current.memoizedProps, fibers[wip].pendingProps) || !ObjectIs(current.elementType, fibers[wip].elementType)
  }

  /** A fiber whose work is a component render, which may throw. */
  predicate IsComponent(tag: WorkTag)
  {
    tag == FunctionComponent || tag == MemoComponent
  }

  /** The bailout of `beginWork` before the switch: no update received, a provider provides its memoized value again. */
  method BailoutBeforeTag(flag: UpdateFlag, contexts: FiberContext.ContextStack, w: FiberNode, renderLane: Lane)
    returns (next: Option<FiberId>)
    requires w.tag == ContextProvider ==> ContextOf(w).Some?
    modifies flag, contexts
    ensures next == BailoutOnAlreadyFinishedWork(w, renderLane) && !flag.didReceiveUpdate
    ensures w.tag == ContextProvider ==>
              contexts.State() == FiberContext.Push(old(contexts.State()), ContextOf(w).value, Get(w.memoizedProps, "value"))
    ensures w.tag != ContextProvider ==> contexts.State() == old(contexts.State())
  {
    flag.didReceiveUpdate := false;
    if w.tag == ContextProvider {
      contexts.PushProvider(ContextOf(w).value, Get(w.memoizedProps, "value"));
    }
    next := BailoutOnAlreadyFinishedWork(w, renderLane);
  }

  /**
   * `beginWork(wip, renderLane)`: a fiber with a current fiber, the same
   * props object and type and no update in the render lane bails out
   * (a provider first provides its memoized value again); any other fiber
   * has its lanes cleared and is updated by its tag from the arena `begun`.
   * `didReceiveUpdate` records whether props or type changed; function and
   * memo components may change it further while they render.  A fiber that
   * is not a component throws only when a child element of a `null` type
   * has to be created.
   */
  method BeginWork(store: FiberStore, alloc: Allocator, hooks: HooksState, flag: UpdateFlag,
                   contexts: FiberContext.ContextStack, handlers: SuspenseContext.SuspenseHandlerStack, process: Process,
                   wip: FiberId, renderLane: Lane, shallowEqual: (JsValue, JsValue) -> bool, ghost chain: seq<FiberId>,
                   calls: seq<HookCall>, children: JsValue)
    returns (r: Result<Option<FiberId>>, ghost begun: map<FiberId, FiberNode>, ghost start: map<FiberId, FiberNode>,
             ghost rendered: map<FiberId, FiberNode>, ghost allocNext: Ref, ghost mid: map<FiberId, FiberNode>, ghost threw: bool)
    requires store.Valid() && ReadyIn(store.fibers, wip, chain) && TagReady(store.fibers, wip)
    requires hooks.Idle() && CurrentHooksReady(store.fibers, hooks.lists, wip)
    modifies store, alloc, hooks, flag, contexts, handlers, RootQueueOf(store.fibers, wip)
    ensures store.Valid() && AlternatesPaired(store.fibers) && InArena(old(store.fibers), chain)
    ensures (r.Ok? ==> hooks.Idle()) && (r.Err? ==> hooks.Valid(store))
    ensures BailsOut(old(store.fibers), wip, renderLane) ==>
              var w := old(store.fibers[wip]);
              r == Ok(BailoutOnAlreadyFinishedWork(w, renderLane)) && store.fibers == old(store.fibers) && !flag.didReceiveUpdate &&
              (w.tag == ContextProvider ==>
                 contexts.State() == FiberContext.Push(old(contexts.State()), ContextOf(w).value, Get(w.memoizedProps, "value"))) &&
              (w.tag != ContextProvider ==> contexts.State() == old(contexts.State()))
    ensures !BailsOut(old(store.fibers), wip, renderLane) ==>
              begun == old(store.fibers)[wip := old(store.fibers[wip]).(lanes := NoLanes)] && InArena(begun, chain) &&
              (IsComponent(begun[wip].tag) ==>
                 ComponentUpdated(begun, start, rendered, mid, store.fibers, allocNext, alloc.next, wip, chain, renderLane,
                                  shallowEqual, calls, children, old(hooks.lists), hooks.lists, hooks.currentlyRenderingFiber,
                                  flag.didReceiveUpdate, threw, r) == true) &&
              (!IsComponent(begun[wip].tag) ==>
                 flag.didReceiveUpdate == PropsOrTypeChanged(old(store.fibers), wip) && (r.Err? ==> r == Err(ReadOfUndefined)) &&
                 HostTagUpdated(begun, mid, store.fibers, old(alloc.next), alloc.next, wip, chain, renderLane,
                                old(RootPending(store.fibers, wip)), old(contexts.State()), contexts.State(),
                                old(handlers.handlers), handlers.handlers, r) == true)
  {
    if BailsOut(store.fibers, wip, renderLane) {
      var next := BailoutBeforeTag(flag, contexts, store.fibers[wip], renderLane);
      ChainInArena(store.fibers, CurrentFirstChild(store.fibers, wip), chain);
      return Ok(next), store.fibers, store.fibers, store.fibers, alloc.next, store.fibers, false;
    }
    flag.didReceiveUpdate := PropsOrTypeChanged(store.fibers, wip);
    r, begun, start, rendered, allocNext, mid, threw :=
      UpdateByTag(store, alloc, hooks, flag, contexts, handlers, process, wip, renderLane, shallowEqual, chain, calls, children);
  }

  /**
   * `beginWork` as the work loop is meant to run it: when the fiber's work
   * throws, `resetHooksOnUnwind` follows, so the next fiber's `beginWork`
   * finds the hooks idle whether this one threw or not.
   */
  method BeginWorkThenUnwind(store: FiberStore, alloc: Allocator, hooks: HooksState, flag: UpdateFlag,
                             contexts: FiberContext.ContextStack, handlers: SuspenseContext.SuspenseHandlerStack, process: Process,
                             wip: FiberId, renderLane: Lane, shallowEqual: (JsValue, JsValue) -> bool, ghost chain: seq<FiberId>,
                             calls: seq<HookCall>, children: JsValue)
    returns (r: Result<Option<FiberId>>)
    requires store.Valid() && ReadyIn(store.fibers, wip, chain) && TagReady(store.fibers, wip)
    requires hooks.Idle() && CurrentHooksReady(store.fibers, hooks.lists, wip)
    modifies store, alloc, hooks, flag, contexts, handlers, RootQueueOf(store.fibers, wip)
    ensures store.Valid() && AlternatesPaired(store.fibers) && hooks.Idle()
  {
    ghost var begun, start, rendered, allocNext, mid, threw;
    r, begun, start, rendered, allocNext, mid, threw :=
      BeginWork(store, alloc, hooks, flag, contexts, handlers, process, wip, renderLane, shallowEqual, chain, calls, children);
    if r.Err? {
      hooks.ResetHooksOnUnwind(store);
    }
  }

  /** The part of `beginWork` once the fiber does not bail out: `wip.lanes = NoLanes`, then the switch on the tag. */
  method UpdateByTag(store: FiberStore, alloc: Allocator, hooks: HooksState, flag: UpdateFlag,
                     contexts: FiberContext.ContextStack, handlers: SuspenseContext.SuspenseHandlerStack, process: Process,
                     wip: FiberId, renderLane: Lane, shallowEqual: (JsValue, JsValue) -> bool, ghost chain: seq<FiberId>,
                     calls: seq<HookCall>, children: JsValue)
    returns (r: Result<Option<FiberId>>, ghost begun: map<FiberId, FiberNode>, ghost start: map<FiberId, FiberNode>,
             ghost rendered: map<FiberId, FiberNode>, ghost allocNext: Ref, ghost mid: map<FiberId, FiberNode>, ghost threw: bool)
    requires store.Valid() && ReadyIn(store.fibers, wip, chain) && TagReady(store.fibers, wip)
    requires hooks.Idle() && CurrentHooksReady(store.fibers, hooks.lists, wip)
    modifies store, alloc, hooks, flag, contexts, handlers, RootQueueOf(store.fibers, wip)
    ensures store.Valid() && AlternatesPaired(store.fibers) && InArena(old(store.fibers), chain)
    ensures (r.Ok? ==> hooks.Idle()) && (r.Err? ==> hooks.Valid(store))
    ensures begun == old(store.fibers)[wip := old(store.fibers[wip]).(lanes := NoLanes)] && InArena(begun, chain)
    ensures IsComponent(begun[wip].tag) ==>
              ComponentUpdated(begun, start, rendered, mid, store.fibers, allocNext, alloc.next, wip, chain, renderLane,
                               shallowEqual, calls, children, old(hooks.lists), hooks.lists, hooks.currentlyRenderingFiber,
                               flag.didReceiveUpdate, threw, r) == true
    ensures !IsComponent(begun[wip].tag) ==>
              flag.didReceiveUpdate == old(flag.didReceiveUpdate) && (r.Err? ==> r == Err(ReadOfUndefined)) &&
              HostTagUpdated(begun, mid, store.fibers, old(alloc.next), alloc.next, wip, chain, renderLane,
                             old(RootPending(store.fibers, wip)), old(contexts.State()), contexts.State(),
                             old(handlers.handlers), handlers.handlers, r) == true
  {
    if IsComponent(store.fibers[wip].tag) {
      begun, start, rendered, allocNext, r, mid, threw :=
        UpdateComponentByTag(store, alloc, hooks, flag, contexts, process, wip, renderLane, shallowEqual, chain, calls, children);
    } else {
      start, rendered, allocNext, threw := old(store.fibers), old(store.fibers), alloc.next, false;
      begun, r, mid := UpdateHostByTag(store, alloc, hooks, contexts, handlers, wip, renderLane, chain);
    }
  }

  /** `wip.lanes = NoLanes`, then the function and memo cases of the switch. */
  method UpdateComponentByTag(store: FiberStore, alloc: Allocator, hooks: HooksState, flag: UpdateFlag,
                              contexts: FiberContext.ContextStack, process: Process,
                              wip: FiberId, renderLane: Lane, shallowEqual: (JsValue, JsValue) -> bool, ghost chain: seq<FiberId>,
                              calls: seq<HookCall>, children: JsValue)
    returns (ghost begun: map<FiberId, FiberNode>, ghost start: map<FiberId, FiberNode>, ghost rendered: map<FiberId, FiberNode>,
             ghost allocNext: Ref, r: Result<Option<FiberId>>, ghost mid: map<FiberId, FiberNode>, ghost threw: bool)
    requires store.Valid() && ReadyIn(store.fibers, wip, chain) && IsComponent(store.fibers[wip].tag)
    requires hooks.Idle() && CurrentHooksReady(store.fibers, hooks.lists, wip)
    modifies store, alloc, hooks, flag
    ensures store.Valid() && AlternatesPaired(store.fibers) && InArena(old(store.fibers), chain)
    ensures (r.Ok? ==> hooks.Idle()) && (r.Err? ==> hooks.Valid(store))
    ensures begun == old(store.fibers)[wip := old(store.fibers[wip]).(lanes := NoLanes)] && InArena(begun, chain)
    ensures ComponentUpdated(begun, start, rendered, mid, store.fibers, allocNext, alloc.next, wip, chain, renderLane,
                             shallowEqual, calls, children, old(hooks.lists), hooks.lists, hooks.currentlyRenderingFiber,
                             flag.didReceiveUpdate, threw, r)
  {
    var w := store.fibers[wip];
    CurrentHookAfterWrite(store.fibers, wip, w.(lanes := NoLanes));
    ChainInArena(store.fibers, CurrentFirstChild(store.fibers, wip), chain);
    ResetLanes(store, wip, chain);
    begun := store.fibers;
    r, start, rendered, allocNext, mid, threw :=
      DispatchComponent(store, alloc, hooks, flag, contexts, process, wip, renderLane, shallowEqual, chain, calls, children);
  }

  /** `wip.lanes = NoLanes`, then the cases of the switch for fibers that are not components. */
  method UpdateHostByTag(store: FiberStore, alloc: Allocator, hooks: HooksState,
                         contexts: FiberContext.ContextStack, handlers: SuspenseContext.SuspenseHandlerStack,
                         wip: FiberId, renderLane: Lane, ghost chain: seq<FiberId>)
    returns (ghost begun: map<FiberId, FiberNode>, r: Result<Option<FiberId>>, ghost mid: map<FiberId, FiberNode>)
    requires store.Valid() && ReadyIn(store.fibers, wip, chain) && TagReady(store.fibers, wip)
    requires !IsComponent(store.fibers[wip].tag) && hooks.Idle()
    modifies store, alloc, contexts, handlers, RootQueueOf(store.fibers, wip)
    ensures store.Valid() && AlternatesPaired(store.fibers) && InArena(old(store.fibers), chain)
    ensures hooks.Idle() && hooks.Valid(store)
    ensures r.Err? ==> r == Err(ReadOfUndefined)
    ensures begun == old(store.fibers)[wip := old(store.fibers[wip]).(lanes := NoLanes)] && InArena(begun, chain)
    ensures HostTagUpdated(begun, mid, store.fibers, old(alloc.next), alloc.next, wip, chain, renderLane,
                           old(RootPending(store.fibers, wip)), old(contexts.State()), contexts.State(),
                           old(handlers.handlers), handlers.handlers, r)
  {
    var w := store.fibers[wip];
    ghost var pending := RootPending(store.fibers, wip);
    ChainInArena(store.fibers, CurrentFirstChild(store.fibers, wip), chain);
    ResetLanes(store, wip, chain);
    begun := store.fibers;
    assert RootPending(begun, wip) == pending;
    r, mid := DispatchHost(store, alloc, contexts, handlers, wip, renderLane, chain);
    HostTagThrowsOnNullType(begun, mid, store.fibers, old(alloc.next), alloc.next, wip, chain, renderLane,
                            pending, old(contexts.State()), contexts.State(), old(handlers.handlers), handlers.handlers, r);
    hooks.IdleValid(store);
  }

  /** A fiber that is not a component throws only the `TypeError` of creating a fiber for an element of a `null` type. */
  lemma HostTagThrowsOnNullType(fibers0: map<FiberId, FiberNode>, mid: map<FiberId, FiberNode>, fibers1: map<FiberId, FiberNode>,
                                next0: Ref, next1: Ref, wip: FiberId, chain: seq<FiberId>, renderLane: Lane,
                                pending: Option<UQ.Update<JsValue>>,
                                contexts0: FiberContext.ContextState, contexts1: FiberContext.ContextState,
                                handlers0: seq<FiberId>, handlers1: seq<FiberId>, r: Result<Option<FiberId>>)
    requires wip in fibers0 && InArena(fibers0, chain)
    requires HostTagUpdated(fibers0, mid, fibers1, next0, next1, wip, chain, renderLane, pending, contexts0, contexts1,
                            handlers0, handlers1, r)
    ensures r.Err? ==> r == Err(ReadOfUndefined)
  {
  }

  /**
   * What the switch of `beginWork` leaves for a function or memo component:
   * `start` is the arena a memo component renders in and `rendered` the
   * arena the render left.
   */
  ghost predicate ComponentUpdated(fibers0: map<FiberId, FiberNode>, start: map<FiberId, FiberNode>, rendered: map<FiberId, FiberNode>,
                                   mid: map<FiberId, FiberNode>, fibers1: map<FiberId, FiberNode>, allocNext: Ref, next1: Ref,
                                   wip: FiberId, chain: seq<FiberId>, renderLane: Lane, shallowEqual: (JsValue, JsValue) -> bool,
                                   calls: seq<HookCall>, children: JsValue,
                                   lists0: map<HookId, seq<Hook>>, lists1: map<HookId, seq<Hook>>, rendering: Option<FiberId>,
                                   didReceiveUpdate: bool, threw: bool, r: Result<Option<FiberId>>)
    requires wip in fibers0
  {
    match fibers0[wip].tag
    case FunctionComponent =>
      FunctionUpdated(fibers0, rendered, mid, fibers1, allocNext, next1, wip, chain, renderLane, calls, children,
                      lists0, lists1, rendering, didReceiveUpdate, threw, r)
    case MemoComponent =>
      MemoUpdated(fibers0, start, rendered, mid, fibers1, allocNext, next1, wip, chain, renderLane, shallowEqual, calls, children,
                  lists0, lists1, rendering, didReceiveUpdate, threw, r)
    case _ => false
  }

  /** The cases of the switch of `beginWork` for function and memo components. */
  method DispatchComponent(store: FiberStore, alloc: Allocator, hooks: HooksState, flag: UpdateFlag,
                           contexts: FiberContext.ContextStack, process: Process, wip: FiberId, renderLane: Lane,
                           shallowEqual: (JsValue, JsValue) -> bool, ghost chain: seq<FiberId>, calls: seq<HookCall>, children: JsValue)
    returns (r: Result<Option<FiberId>>, ghost start: map<FiberId, FiberNode>, ghost rendered: map<FiberId, FiberNode>,
             ghost allocNext: Ref, ghost mid: map<FiberId, FiberNode>, ghost threw: bool)
    requires store.Valid() && ReadyIn(store.fibers, wip, chain) && IsComponent(store.fibers[wip].tag)
    requires hooks.Idle() && CurrentHooksReady(store.fibers, hooks.lists, wip)
    modifies store, alloc, hooks, flag
    ensures store.Valid() && AlternatesPaired(store.fibers) && InArena(old(store.fibers), chain)
    ensures (r.Ok? ==> hooks.Idle()) && (r.Err? ==> hooks.Valid(store))
    ensures ComponentUpdated(old(store.fibers), start, rendered, mid, store.fibers, allocNext, alloc.next, wip, chain, renderLane,
                             shallowEqual, calls, children, old(hooks.lists), hooks.lists, hooks.currentlyRenderingFiber,
                             flag.didReceiveUpdate, threw, r)
  {
    if store.fibers[wip].tag == FunctionComponent {
      start := store.fibers;
      r, rendered, allocNext, mid, threw := UpdateFunctionComponent(store, alloc, hooks, flag, contexts, process, wip, renderLane,
                                                                    chain, calls, children);
    } else {
      r, start, rendered, allocNext, mid, threw := UpdateMemoComponent(store, alloc, hooks, flag, contexts, process, wip, renderLane,
                                                                       shallowEqual, chain, calls, children);
    }
  }
}
