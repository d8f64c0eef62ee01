/**
 * `fiberReconciler.ts`: the two entry points `createRoot` and `render`
 * reach.  `createContainer` makes the host root fiber of an empty tree and
 * the root that owns it; `updateContainer` puts the element to render on
 * the host root's update queue and schedules the host root fiber.
 */
module FiberReconciler {
  import opened Wrappers
  import opened Js
  import opened WorkTags
  import opened Lanes
  import opened HostTypes
  import opened Fiber
  import opened FiberTree
  import opened ChildFibers
  import opened RenderWalk
  import opened WorkLoop
  import UQ = UpdateQueue

  /**
   * `createContainer(container)`: a fresh `HostRoot` fiber with pending
   * props `{}` and a null key, a fresh root on `container` whose `current`
   * it is and which its `stateNode` points back at, and an empty update
   * queue on the fiber.  No other fiber changes.
   */
  method CreateContainer(store: FiberStore, alloc: Allocator, container: ContainerRef) returns (root: FiberRootNode)
    requires store.Valid()
    modifies store, alloc
    ensures fresh(root) && store.Valid()
    ensures root.container == container && root.finishedWork.None? && root.pendingLanes == NoLanes && root.pingCache.None?
    ensures root.current !in old(store.fibers) && store.fibers.Keys == old(store.fibers.Keys) + {root.current}
    ensures forall x | x in old(store.fibers) :: store.fibers[x] == old(store.fibers[x])
    ensures var f := store.fibers[root.current];
            f.tag == HostRoot && f.key == Null && f.pendingProps == Obj(old(alloc.next), map[]) &&
            f.stateNode == RootNode(root) &&
            f.updateQueue.RootQueue? && fresh(f.updateQueue.queue) && f.updateQueue.queue.pending.None? &&
            f.ret.None? && f.child.None? && f.sibling.None? && f.alternate.None?
    ensures RootOf(store.fibers, root.current) == Some(root)
    ensures ReturnChain(store.fibers, Some(root.current), [root.current])
  {
    var props := alloc.NewObject(map[]);
    var hostRootFiber := store.NewFiberNode(HostRoot, props, Null);
    root := new FiberRootNode(container, hostRootFiber, store);
    var queue := new UQ.UpdateQueue<JsValue>();
    store.SetFiber(hostRootFiber, store.fibers[hostRootFiber].(updateQueue := RootQueue(queue)));
  }

  /** The update queue object of the fiber `x`, when it has one. */
  function QueueOf(fibers: map<FiberId, FiberNode>, x: FiberId): (r: set<UQ.UpdateQueue<JsValue>>)
    requires x in fibers
    ensures r == {} <==> !fibers[x].updateQueue.RootQueue?
    ensures fibers[x].updateQueue.RootQueue? ==> r == {fibers[x].updateQueue.queue}
  {
    if fibers[x].updateQueue.RootQueue? then {fibers[x].updateQueue.queue} else {}
  }

  /**
   * `updateContainer(element, root)`: enqueues an update whose action is
   * `element` on the queue of `root.current`, schedules `root.current`, and
   * gives back `element`.  A host root fiber without an update queue makes
   * `enqueueUpdate` read a property of `null`; a fiber that does not lead
   * to a root makes the scheduling fail as `ScheduleUpdateOnFiber` says.
   */
  method UpdateContainer(render: RenderState, store: FiberStore, alloc: Allocator, begin: BeginFn, complete: CompleteFn,
                         element: JsValue, root: FiberRootNode, ghost chain: seq<FiberId>, ghost t: Tree)
    returns (r: Result<JsValue>, ghost done: seq<Step>)
    requires root.current in store.fibers && ReturnChain(store.fibers, Some(root.current), chain)
    requires chain != [] && chain[|chain| - 1] in store.fibers && RootOf(store.fibers, chain[|chain| - 1]).Some? ==>
               var top := RootOf(store.fibers, chain[|chain| - 1]).value;
               store.Valid() && top.current in store.fibers &&
               (var c := store.fibers[top.current];
                c.alternate.Some? ==> c.alternate.value in store.fibers && c.alternate.value != top.current &&
                                      store.fibers[c.alternate.value].ret.None? && store.fibers[c.alternate.value].sibling.None?) &&
               (var fibers1 := FreshStack(store.fibers, store.nextFiber, top.current, Obj(alloc.next, map[]));
                t.id == FreshWip(store.fibers, store.nextFiber, top.current) && Distinct(Visit(t)) &&
                BuildsChildren(begin, complete, fibers1, t) && KeepsLinks(begin, complete, fibers1))
    modifies render, store, alloc, TopRoots(store.fibers, chain)`finishedWork, QueueOf(store.fibers, root.current)
    ensures chain != [] && chain[|chain| - 1] in old(store.fibers)
    ensures !old(store.fibers[root.current]).updateQueue.RootQueue? ==>
              r == Err(ReadOfUndefined) && store.fibers == old(store.fibers) && render.workInProgress == old(render.workInProgress)
    ensures old(store.fibers[root.current]).updateQueue.RootQueue? ==>
              old(store.fibers[root.current]).updateQueue.queue.pending == Some(UQ.Update(UQ.State(element)))
    ensures old(store.fibers[root.current]).updateQueue.RootQueue? ==>
              (r.Ok? <==> RootOf(old(store.fibers), chain[|chain| - 1]).Some?) && (r.Ok? ==> r.value == element)
    ensures old(store.fibers[root.current]).updateQueue.RootQueue? && r.Err? ==>
              r.message == ReadOfUndefined && store.fibers == old(store.fibers)
    ensures old(store.fibers[root.current]).updateQueue.RootQueue? && r.Ok? ==>
              var top := RootOf(old(store.fibers), chain[|chain| - 1]).value;
              var fibers1 := FreshStack(old(store.fibers), old(store.nextFiber), old(top.current), Obj(old(alloc.next), map[]));
              render.workInProgress.None? && done <= WorkOrder(t) && store.fibers == Replay(begin, complete, fibers1, done) &&
              (NeverThrows(begin, complete, fibers1) ==> done == WorkOrder(t)) &&
              top.current in store.fibers && top.finishedWork == store.fibers[top.current].alternate
  {
    ReturnChainFacts(store.fibers, Some(root.current), chain, |chain| - 1);
    var hostRootFiber := root.current;
    var update := UQ.CreateUpdate(UQ.State(element));
    if !store.fibers[hostRootFiber].updateQueue.RootQueue? {
      return Err(ReadOfUndefined), [];
    }
    var queue := store.fibers[hostRootFiber].updateQueue.queue;
    queue.EnqueueUpdate(update);
    var scheduled;
    scheduled, done := ScheduleUpdateOnFiber(render, store, alloc, begin, complete, hostRootFiber, chain, t);
    if scheduled.Err? {
      return Err(scheduled.message), done;
    }
    r := Ok(element);
  }
}
