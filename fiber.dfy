/**
 * Fibers and the fiber root.
 *
 * Fibers are records in an arena (`FiberStore.fibers`), addressed by
 * `FiberId`; a write to a field of a fiber object is an update of that
 * fiber's record, and a link (`return`, `child`, `sibling`, `alternate`) is
 * an optional id.
 */
module Fiber {
  import opened Wrappers
  import opened Js
  import opened ReactSymbols
  import opened FiberFlags
  import opened WorkTags
  import opened Lanes
  import opened HostTypes
  import opened Scheduler
  import UQ = UpdateQueue

  type FiberId = nat
  /** Hooks and effects live in the hooks module's arena; fibers and the root only point at them. */
  type HookId = nat
  type EffectId = nat
  /** A thenable, identified by its object identity. */
  type WakeableRef = Js.Ref

  /** `stateNode`: the host instance of a host fiber, the root of a host root fiber. */
  datatype StateNode = NoStateNode | HostNode(instance: InstanceRef) | RootNode(root: FiberRootNode)

  /** `memoizedState`: a plain value (the host root's element), or the first hook of a function component. */
  datatype MemoizedState = StateValue(value: JsValue) | FirstHook(hook: HookId)

  /**
   * `updateQueue`: the host root's shared queue, or a function component's
   * effect list.  The latter is created afresh for each render of the fiber
   * that owns it and written only during that render, so it is a value here.
   */
  datatype FiberQueue = NoQueue | RootQueue(queue: UQ.UpdateQueue<JsValue>) | EffectQueue(lastEffect: Option<EffectId>)

  /** The fields of a `FiberNode`; `ret` is `return` and `elementType` is `type`. */
  datatype FiberNode = FiberNode(
    tag: WorkTag,
    key: JsValue,
    stateNode: StateNode,
    elementType: JsValue,
    ref: JsValue,
    ret: Option<FiberId>,
    child: Option<FiberId>,
    sibling: Option<FiberId>,
    index: int,
    pendingProps: JsValue,
    memoizedProps: JsValue,
    memoizedState: MemoizedState,
    alternate: Option<FiberId>,
    updateQueue: FiberQueue,
    flags: Flags,
    subtreeFlags: Flags,
    deletions: Option<seq<FiberId>>,
    lanes: Lanes,
    childLanes: Lanes)

  /** The record the `FiberNode` constructor initialises. */
  function InitialFiber(tag: WorkTag, pendingProps: JsValue, key: JsValue): FiberNode
  {
    FiberNode(tag, if IsNullish(key) then Null else key, NoStateNode, Null, Null,
              None, None, None, 0, pendingProps, Null, StateValue(Null), None, NoQueue,
              NoFlags, NoFlags, None, NoLanes, NoLanes)
  }

  /** Two writes to different keys commute, and a later write to a key hides an earlier one. */
  lemma UpdatesCommute<K, V>(m: map<K, V>, a: K, b: K, x: V, y: V, z: V)
    requires a != b
    ensures m[a := x][b := y][a := z] == m[a := z][b := y]
    ensures m[a := x][a := z] == m[a := z]
  {
  }

  /** Alternates come in pairs: if `a`'s alternate is `b` then `b` is another fiber whose alternate is `a`. */
  ghost predicate AlternatesPaired(fibers: map<FiberId, FiberNode>)
  {
    forall a | a in fibers && fibers[a].alternate.Some? ::
      fibers[a].alternate.value in fibers && fibers[a].alternate.value != a &&
      fibers[fibers[a].alternate.value].alternate == Some(a)
  }

  /** Rewriting a fiber without touching its alternate keeps the pairing. */
  lemma PairedAfterUpdate(fibers: map<FiberId, FiberNode>, id: FiberId, f: FiberNode)
    requires AlternatesPaired(fibers) && id in fibers && f.alternate == fibers[id].alternate
    ensures AlternatesPaired(fibers[id := f])
  {
  }

  /** Adding a fiber without an alternate keeps the pairing. */
  lemma PairedAfterAdd(fibers: map<FiberId, FiberNode>, id: FiberId, f: FiberNode)
    requires AlternatesPaired(fibers) && id !in fibers && f.alternate.None?
    ensures AlternatesPaired(fibers[id := f])
  {
  }

  /** Linking an unpaired fiber with a new one pairs them and nothing else. */
  lemma PairedAfterLink(fibers: map<FiberId, FiberNode>, current: FiberId, wip: FiberId, w: FiberNode)
    requires AlternatesPaired(fibers) && current in fibers && fibers[current].alternate.None?
    requires wip !in fibers && w.alternate == Some(current)
    ensures AlternatesPaired(fibers[current := fibers[current].(alternate := Some(wip))][wip := w])
  {
    var m := fibers[current := fibers[current].(alternate := Some(wip))][wip := w];
    forall a | a in m && m[a].alternate.Some?
      ensures m[a].alternate.value in m && m[a].alternate.value != a && m[m[a].alternate.value].alternate == Some(a)
    {
      if a != current && a != wip {
        var b := fibers[a].alternate.value;
        assert b != current && b != wip;
      }
    }
  }

  /** The tag the branches of `createFiberFromElement` leave for a type whose `$$typeof` can be read. */
  function ElementTag(elementType: JsValue): WorkTag
  {
    if elementType.Str? then HostComponent
    else if IsObject(elementType) && ObjectIs(Get(elementType, "$$typeof"), REACT_PROVIDER_TYPE) then ContextProvider
    else if ObjectIs(elementType, REACT_SUSPENSE_TYPE) then SuspenseComponent
    else FunctionComponent
  }

  /**
   * The tag `createFiberFromElement` chooses for an element type.  `typeof
   * null` is `'object'`, so a `null` type has its `$$typeof` read and throws.
   */
  function FiberTagFromType(elementType: JsValue): (r: Result<WorkTag>)
    ensures r.Err? <==> elementType.Null?
    ensures r.Err? ==> r.message == ReadOfUndefined
    ensures r == Ok(HostComponent) <==> elementType.Str?
    ensures r == Ok(ContextProvider) <==> IsObject(elementType) && ObjectIs(Get(elementType, "$$typeof"), REACT_PROVIDER_TYPE)
    ensures r == Ok(SuspenseComponent) <==> ObjectIs(elementType, REACT_SUSPENSE_TYPE)
    ensures r.Ok? ==> r.value in {HostComponent, ContextProvider, SuspenseComponent, FunctionComponent}
  {
    if elementType.Null? then Err(ReadOfUndefined) else Ok(ElementTag(elementType))
  }

  /** The fiber `createFiberFromElement(element)` makes when it returns. */
  function ElementFiber(element: JsValue): FiberNode
  {
    var elementType := Get(element, "type");
    InitialFiber(ElementTag(elementType), Get(element, "props"), Get(element, "key")).(elementType := elementType, ref := Get(element, "ref"))
  }

  /** The heap of fiber objects. */
  class FiberStore {
    var fibers: map<FiberId, FiberNode>
    var nextFiber: FiberId

    /** Every fiber's id was handed out already, so `nextFiber` is fresh. */
    ghost predicate Valid()
      reads this
    {
      forall id | id in fibers :: id < nextFiber
    }

    constructor ()
      ensures fibers == map[] && nextFiber == 0 && Valid()
    {
      fibers := map[];
      nextFiber := 0;
    }

    /** `new FiberNode(tag, pendingProps, key)` */
    method NewFiberNode(tag: WorkTag, pendingProps: JsValue, key: JsValue) returns (id: FiberId)
      requires Valid()
      modifies this
      ensures Valid()
      ensures id !in old(fibers) && fibers == old(fibers)[id := InitialFiber(tag, pendingProps, key)]
      ensures fibers[id].key == (if IsNullish(key) then Null else key)
      ensures fibers[id].ret.None? && fibers[id].child.None? && fibers[id].sibling.None? && fibers[id].alternate.None?
      ensures fibers[id].index == 0 && fibers[id].memoizedProps == Null && fibers[id].memoizedState == StateValue(Null)
      ensures fibers[id].flags == NoFlags && fibers[id].subtreeFlags == NoFlags && fibers[id].deletions.None?
      ensures AlternatesPaired(old(fibers)) ==> AlternatesPaired(fibers)
    {
      id := nextFiber;
      if AlternatesPaired(fibers) {
        PairedAfterAdd(fibers, id, InitialFiber(tag, pendingProps, key));
      }
      fibers := fibers[id := InitialFiber(tag, pendingProps, key)];
      nextFiber := nextFiber + 1;
    }

    /** A write to fields of an existing fiber object other than its `alternate`. */
    method SetFiber(id: FiberId, f: FiberNode)
      requires Valid() && id in fibers && f.alternate == fibers[id].alternate
      modifies this`fibers
      ensures Valid() && fibers == old(fibers)[id := f]
      ensures AlternatesPaired(old(fibers)) ==> AlternatesPaired(fibers)
    {
      if AlternatesPaired(fibers) {
        PairedAfterUpdate(fibers, id, f);
      }
      fibers := fibers[id := f];
    }

    /**
     * `createWorkInProgress(current, pendingProps)`: reuses the alternate of
     * `current` when there is one, and otherwise allocates it and links the
     * pair both ways; in both cases the alternate takes the type, queue,
     * child, memoized props and state and the ref of `current`.
     */
    method CreateWorkInProgress(current: FiberId, pendingProps: JsValue) returns (wip: FiberId)
      requires Valid() && current in fibers
      requires fibers[current].alternate.Some? ==> fibers[current].alternate.value in fibers
      modifies this
      ensures Valid() && wip in fibers
      ensures old(fibers[current].alternate).None? ==>
                wip !in old(fibers) && wip == old(nextFiber) &&
                fibers == old(fibers)[current := old(fibers[current]).(alternate := Some(wip))]
                                     [wip := CopyFromCurrent(InitialFiber(old(fibers[current]).tag, pendingProps, old(fibers[current]).key)
                                                               .(stateNode := old(fibers[current]).stateNode, alternate := Some(current)),
                                                             old(fibers[current]))]
      ensures old(fibers[current].alternate).Some? ==>
                wip == old(fibers[current].alternate.value) &&
                fibers == old(fibers)[wip := CopyFromCurrent(old(fibers[wip]).(pendingProps := pendingProps, flags := NoFlags,
                                                                                 subtreeFlags := NoFlags, deletions := None),
                                                             old(fibers[current]))]
      ensures fibers[wip].pendingProps == pendingProps
      ensures fibers[wip].flags == NoFlags && fibers[wip].subtreeFlags == NoFlags && fibers[wip].deletions.None?
      ensures fibers[wip].elementType == old(fibers[current].elementType) && fibers[wip].updateQueue == old(fibers[current].updateQueue)
      ensures fibers[wip].child == old(fibers[current].child) && fibers[wip].ref == old(fibers[current].ref)
      ensures fibers[wip].memoizedProps == old(fibers[current].memoizedProps)
      ensures fibers[wip].memoizedState == old(fibers[current].memoizedState)
      ensures AlternatesPaired(old(fibers)) ==> AlternatesPaired(fibers) && fibers[current].alternate == Some(wip)
    {
      if fibers[current].alternate.None? {
        wip := CreateAlternate(current, pendingProps);
      } else {
        wip := ResetAlternate(current, pendingProps);
      }
    }

    /** The mount branch of `createWorkInProgress`: a new fiber paired with `current`. */
    method CreateAlternate(current: FiberId, pendingProps: JsValue) returns (wip: FiberId)
      requires Valid() && current in fibers && fibers[current].alternate.None?
      modifies this
      ensures Valid() && wip in fibers && wip !in old(fibers) && wip == old(nextFiber)
      ensures fibers == old(fibers)[current := old(fibers[current]).(alternate := Some(wip))]
                                   [wip := CopyFromCurrent(InitialFiber(old(fibers[current]).tag, pendingProps, old(fibers[current]).key)
                                                             .(stateNode := old(fibers[current]).stateNode, alternate := Some(current)),
                                                           old(fibers[current]))]
      ensures AlternatesPaired(old(fibers)) ==> AlternatesPaired(fibers)
    {
      var c := fibers[current];
      wip := nextFiber;
      nextFiber := nextFiber + 1;
      var w := InitialFiber(c.tag, pendingProps, c.key).(stateNode := c.stateNode, alternate := Some(current));
      if AlternatesPaired(fibers) {
        PairedAfterLink(fibers, current, wip, CopyFromCurrent(w, c));
      }
      fibers := fibers[current := c.(alternate := Some(wip))];
      fibers := fibers[wip := CopyFromCurrent(w, c)];
    }

    /** The update branch of `createWorkInProgress`: the existing alternate, reset for new work. */
    method ResetAlternate(current: FiberId, pendingProps: JsValue) returns (wip: FiberId)
      requires Valid() && current in fibers && fibers[current].alternate.Some? && fibers[current].alternate.value in fibers
      modifies this`fibers
      ensures Valid() && wip == old(fibers[current].alternate.value)
      ensures fibers == old(fibers)[wip := CopyFromCurrent(old(fibers[wip]).(pendingProps := pendingProps, flags := NoFlags,
                                                                             subtreeFlags := NoFlags, deletions := None),
                                                         old(fibers[current]))]
      ensures AlternatesPaired(old(fibers)) ==> AlternatesPaired(fibers)
    {
      var c := fibers[current];
      wip := c.alternate.value;
      var w := fibers[wip].(pendingProps := pendingProps, flags := NoFlags, subtreeFlags := NoFlags, deletions := None);
      if AlternatesPaired(fibers) {
        PairedAfterUpdate(fibers, wip, CopyFromCurrent(w, c));
      }
      fibers := fibers[wip := CopyFromCurrent(w, c)];
    }

    /** `createFiberFromElement(element)`: throws, creating nothing, when the element's type is `null`. */
    method CreateFiberFromElement(element: JsValue) returns (r: Result<FiberId>)
      requires Valid()
      modifies this
      ensures Valid()
      ensures r.Err? <==> Get(element, "type").Null?
      ensures r.Err? ==> r.message == ReadOfUndefined && fibers == old(fibers)
      ensures r.Ok? ==> r.value !in old(fibers) && fibers == old(fibers)[r.value := ElementFiber(element)]
      ensures AlternatesPaired(old(fibers)) ==> AlternatesPaired(fibers)
    {
      var elementType, props, key, ref := Get(element, "type"), Get(element, "props"), Get(element, "key"), Get(element, "ref");
      var tag := FiberTagFromType(elementType);
      if tag.Err? {
        return Err(tag.message);
      }
      var id := NewFiberNode(tag.value, props, key);
      fibers := fibers[id := fibers[id].(elementType := elementType, ref := ref)];
      r := Ok(id);
    }

    /** `createFiberFromFragment(elements, key)`: a fragment's pending props are its children. */
    method CreateFiberFromFragment(elements: JsValue, key: JsValue) returns (id: FiberId)
      requires Valid()
      modifies this
      ensures Valid() && id !in old(fibers)
      ensures fibers == old(fibers)[id := InitialFiber(Fragment, elements, key)]
      ensures fibers[id].tag == Fragment && fibers[id].pendingProps == elements
      ensures AlternatesPaired(old(fibers)) ==> AlternatesPaired(fibers)
    {
      id := NewFiberNode(Fragment, elements, key);
    }

    /** `createFiberFromOffscreen(pendingProps)` */
    method CreateFiberFromOffscreen(pendingProps: JsValue) returns (id: FiberId)
      requires Valid()
      modifies this
      ensures Valid() && id !in old(fibers)
      ensures fibers == old(fibers)[id := InitialFiber(OffscreenComponent, pendingProps, Null)]
      ensures fibers[id].tag == OffscreenComponent && fibers[id].key == Null
      ensures AlternatesPaired(old(fibers)) ==> AlternatesPaired(fibers)
    {
      id := NewFiberNode(OffscreenComponent, pendingProps, Null);
    }
  }

  /** The fields every work-in-progress fiber takes from its current fiber. */
  function CopyFromCurrent(wip: FiberNode, current: FiberNode): (r: FiberNode)
    ensures r.elementType == current.elementType && r.updateQueue == current.updateQueue && r.child == current.child
    ensures r.memoizedProps == current.memoizedProps && r.memoizedState == current.memoizedState && r.ref == current.ref
    ensures r.pendingProps == wip.pendingProps && r.flags == wip.flags && r.subtreeFlags == wip.subtreeFlags
    ensures r.deletions == wip.deletions && r.alternate == wip.alternate
  {
    wip.(elementType := current.elementType, updateQueue := current.updateQueue, child := current.child,
         memoizedProps := current.memoizedProps, memoizedState := current.memoizedState, ref := current.ref)
  }

  /**
   * Effects collected at commit, to run after paint: the effect lists of
   * unmounted fibers and of updated ones, each named by its newest effect
   * (`None` for a fiber whose list is empty).
   */
  datatype PendingPassiveEffects = PendingPassiveEffects(unmount: seq<Option<EffectId>>, update: seq<Option<EffectId>>)

  /** The root of a fiber tree, attached to a host container. */
  class FiberRootNode {
    /** Never reassigned after construction. */
    const container: ContainerRef
    /** The host root fiber of the tree on screen. */
    var current: FiberId
    var finishedWork: Option<FiberId>
    var pendingLanes: Lanes
    var finishedLane: Lane
    var pendingPassiveEffects: PendingPassiveEffects
    var callbackNode: Option<CallbackNode>
    var callbackPriority: Lane
    /** For each wakeable, the lanes a ping listener is registered for (a `WeakMap` of `Set`s). */
    var pingCache: Option<map<WakeableRef, set<Lane>>>
    var suspendedLanes: Lanes
    var pingedLanes: Lanes

    /** `new FiberRootNode(container, hostRootFiber)`, which also points the host root fiber's `stateNode` at the root. */
    constructor (container: ContainerRef, hostRootFiber: FiberId, store: FiberStore)
      requires hostRootFiber in store.fibers
      modifies store
      ensures this.container == container && current == hostRootFiber && finishedWork.None?
      ensures pendingLanes == NoLanes && suspendedLanes == NoLanes && pingedLanes == NoLanes && finishedLane == NoLane
      ensures pendingPassiveEffects == PendingPassiveEffects([], [])
      ensures callbackNode.None? && callbackPriority == NoLane && pingCache.None?
      ensures store.fibers == old(store.fibers)[hostRootFiber := old(store.fibers[hostRootFiber]).(stateNode := RootNode(this))]
      ensures store.nextFiber == old(store.nextFiber)
    {
      this.container := container;
      current := hostRootFiber;
      finishedWork := None;
      pendingLanes := NoLanes;
      suspendedLanes := NoLanes;
      pingedLanes := NoLanes;
      finishedLane := NoLane;
      pendingPassiveEffects := PendingPassiveEffects([], []);
      callbackNode := None;
      callbackPriority := NoLane;
      pingCache := None;
      new;
      store.fibers := store.fibers[hostRootFiber := store.fibers[hostRootFiber].(stateNode := RootNode(this))];
    }
  }
}
