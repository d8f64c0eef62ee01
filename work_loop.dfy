/**
 * The synchronous render loop of `workLoop.ts`: `scheduleUpdateOnFiber`
 * climbs to the root, `renderRoot` prepares the work-in-progress root and
 * runs `workloop`, which begins fibers on the way down (`performUnitOfWork`)
 * and completes them on the way up (`completeUnitOfWork`); `commitRoot`
 * commits the finished tree and swaps `root.current`.  The loop records the
 * calls it makes as `Step`s of `RenderWalk`.
 */
module WorkLoop {
  import opened Wrappers
  import opened Js
  import opened WorkTags
  import opened FiberFlags
  import opened HostTypes
  import opened Fiber
  import opened FiberTree
  import opened ChildFibers
  import opened HostConfig
  import CommitWork
  import opened CommitEffects
  import opened CommitWalk
  import opened RenderWalk

  /** The module state of `workLoop.ts`: `workInProgress`. */
  class RenderState {
    var workInProgress: Option<FiberId>

    constructor ()
      ensures workInProgress.None?
    {
      workInProgress := None;
    }
  }

  /**
   * `performUnitOfWork(fiber)`: begins the fiber, records its props as
   * memoized, and goes on to the fiber `beginWork` returned, or completes
   * upwards when it returned null.
   */
  method PerformUnitOfWork(render: RenderState, store: FiberStore, begin: BeginFn, complete: CompleteFn, fiber: FiberId,
                           ghost t: Tree, ghost fibers0: map<FiberId, FiberNode>, ghost p: seq<nat>, ghost done0: seq<Step>)
    returns (r: Result<()>, ghost p': seq<nat>, ghost done: seq<Step>)
    requires Distinct(Visit(t)) && InProgress(store.fibers, t, p, done0) && fiber == Sub(t, p).id
    requires render.workInProgress == Some(fiber)
    requires store.fibers == Replay(begin, complete, fibers0, done0)
    requires begin(store.fibers, fiber).Ok? ==>
               BuildsAt(store.fibers, begin(store.fibers, fiber).value.0, begin(store.fibers, fiber).value.1, t, Sub(t, p))
    requires KeepsLinks(begin, complete, fibers0)
    modifies render, store`fibers
    ensures store.fibers == Replay(begin, complete, fibers0, done)
    ensures Grows(old(store.fibers), store.fibers)
    ensures r.Err? ==> done < WorkOrder(t) && !NeverThrows(begin, complete, fibers0)
    ensures r.Ok? ==> |done| > |done0|
    ensures r.Ok? && render.workInProgress.Some? ==>
              InProgress(store.fibers, t, p', done) && render.workInProgress == Some(Sub(t, p').id)
    ensures r.Ok? && render.workInProgress.None? ==> AllDone(store.fibers, t, done)
  {
    var res := begin(store.fibers, fiber);
    if res.Err? {
      ThrowsHere(begin, complete, fibers0, done0, fiber);
      r, p', done := Err(res.message), p, done0;
      return;
    }
    var begun, next := res.value.0, res.value.1;
    BeginStep(store.fibers, begun, next, t, p, done0);
    store.fibers := Memoized(begun, fiber);
    ReplaySnoc(begin, complete, fibers0, done0, Begin(fiber));
    done := done0 + [Begin(fiber)];
    if next.None? {
      r, p', done := CompleteUnitOfWork(render, store, begin, complete, fiber, t, fibers0, p, done);
    } else {
      render.workInProgress := next;
      r, p' := Ok(()), p + [0];
    }
  }

  /**
   * `completeUnitOfWork(fiber)`: completes the fiber and its ancestors, up
   * to the first one with a sibling, which becomes the work in progress; past
   * the top, the work in progress is null.
   */
  method CompleteUnitOfWork(render: RenderState, store: FiberStore, begin: BeginFn, complete: CompleteFn, fiber: FiberId,
                            ghost t: Tree, ghost fibers0: map<FiberId, FiberNode>,  ghost p: seq<nat>, ghost done0: seq<Step>)
    returns (r: Result<()>, ghost p': seq<nat>, ghost done: seq<Step>)
    requires Climbing(store.fibers, t, p, done0) && fiber == Sub(t, p).id
    requires store.fibers == Replay(begin, complete, fibers0, done0)
    requires KeepsLinks(begin, complete, fibers0)
    modifies render, store`fibers
    ensures store.fibers == Replay(begin, complete, fibers0, done)
    ensures Grows(old(store.fibers), store.fibers)
    ensures r.Err? ==> done < WorkOrder(t) && !NeverThrows(begin, complete, fibers0)
    ensures r.Ok? ==> |done| > |done0|
    ensures r.Ok? && render.workInProgress.Some? ==>
              InProgress(store.fibers, t, p', done) && render.workInProgress == Some(Sub(t, p').id)
    ensures r.Ok? && render.workInProgress.None? ==> AllDone(store.fibers, t, done)
  {
    var node := fiber;
    ghost var cp := p;
    done := done0;
    while true
      invariant Climbing(store.fibers, t, cp, done) && node == Sub(t, cp).id && |done| >= |done0|
      invariant store.fibers == Replay(begin, complete, fibers0, done)
      invariant Grows(old(store.fibers), store.fibers)
      decreases |cp|
    {
      KeepsHere(begin, complete, fibers0, done, node);
      var res := complete(store.fibers, node);
      if res.Err? {
        WorkPrefix(t, cp);
        ThrowsHere(begin, complete, fibers0, done, node);
        r, p' := Err(res.message), cp;
        return;
      }
      ReadyKept(store.fibers, res.value, t, Before(t, cp) + Visit(Sub(t, cp)));
      KeptGrows(store.fibers, res.value);
      CompleteStep(res.value, t, cp, done);
      ReplaySnoc(begin, complete, fibers0, done, Complete(node));
      store.fibers := res.value;
      done := done + [Complete(node)];
      var sibling := store.fibers[node].sibling;
      if sibling.Some? {
        render.workInProgress := sibling;
        r, p' := Ok(()), Across(cp);
        return;
      }
      var parent := store.fibers[node].ret;
      render.workInProgress := parent;
      if parent.None? {
        r, p' := Ok(()), cp;
        return;
      }
      node := parent.value;
      cp := cp[..|cp| - 1];
    }
  }

  /** `workloop()`: performs units of work until there is no work in progress. */
  method Workloop(render: RenderState, store: FiberStore, begin: BeginFn, complete: CompleteFn, ghost t: Tree)
    returns (r: Result<()>, ghost done: seq<Step>)
    requires render.workInProgress.Some? ==> Distinct(Visit(t)) && render.workInProgress == Some(t.id) && Ready(store.fibers, t, [])
    requires render.workInProgress.Some? ==> BuildsChildren(begin, complete, store.fibers, t) && KeepsLinks(begin, complete, store.fibers)
    modifies render, store`fibers
    ensures store.fibers == Replay(begin, complete, old(store.fibers), done)
    ensures Grows(old(store.fibers), store.fibers)
    ensures old(render.workInProgress).None? ==> r.Ok? && done == [] && render.workInProgress.None?
    ensures old(render.workInProgress).Some? && r.Ok? ==>
              done == WorkOrder(t) && render.workInProgress.None? && RenderedLinks(store.fibers, t)
    ensures old(render.workInProgress).Some? && r.Err? ==> done < WorkOrder(t) && !NeverThrows(begin, complete, old(store.fibers))
  {
    done := [];
    r := Ok(());
    if render.workInProgress.None? {
      return;
    }
    ghost var fibers0 := store.fibers;
    ghost var p: seq<nat> := [];
    assert WorkOrder(t) == [Begin(t.id)] + WorkOrderAll(t.kids) + [Complete(t.id)];
    assert InProgress(store.fibers, t, p, done);
    while render.workInProgress.Some?
      invariant r.Ok?
      invariant render.workInProgress.Some? ==> InProgress(store.fibers, t, p, done) && render.workInProgress == Some(Sub(t, p).id)
      invariant render.workInProgress.None? ==> AllDone(store.fibers, t, done)
      invariant store.fibers == Replay(begin, complete, fibers0, done)
      invariant Grows(fibers0, store.fibers)
      decreases |WorkOrder(t)| - |done|
    {
      BuildsHere(begin, complete, fibers0, t, done, p);
      r, p, done := PerformUnitOfWork(render, store, begin, complete, render.workInProgress.value, t, fibers0, p, done);
      if r.Err? {
        return;
      }
    }
    ReadyBuilt(store.fibers, t);
  }

  // ---------------------------------------------------------------------
  // The render of a root
  // ---------------------------------------------------------------------

  /** The work-in-progress host root `createWorkInProgress(current, props)` returns: the alternate, or the next fresh fiber. */
  ghost function FreshWip(fibers: map<FiberId, FiberNode>, nextFiber: FiberId, current: FiberId): FiberId
    requires current in fibers
  {
    if fibers[current].alternate.None? then nextFiber else fibers[current].alternate.value
  }

  /** The arena after `createWorkInProgress(current, props)`, as `Fiber.FiberStore.CreateWorkInProgress` leaves it. */
  ghost function FreshStack(fibers: map<FiberId, FiberNode>, nextFiber: FiberId, current: FiberId, props: JsValue): map<FiberId, FiberNode>
    requires current in fibers && (fibers[current].alternate.Some? ==> fibers[current].alternate.value in fibers)
  {
    var c := fibers[current];
    if c.alternate.None? then
      fibers[current := c.(alternate := Some(nextFiber))]
            [nextFiber := CopyFromCurrent(InitialFiber(c.tag, props, c.key).(stateNode := c.stateNode, alternate := Some(current)), c)]
    else
      var w := c.alternate.value;
      fibers[w := CopyFromCurrent(fibers[w].(pendingProps := props, flags := NoFlags, subtreeFlags := NoFlags, deletions := None), c)]
  }

  /** `prepareFreshStack(root)`: the work in progress is a fresh alternate of `root.current`, with pending props `{}`. */
  method PrepareFreshStack(render: RenderState, root: FiberRootNode, store: FiberStore, alloc: Allocator)
    requires store.Valid() && root.current in store.fibers
    requires store.fibers[root.current].alternate.Some? ==> store.fibers[root.current].alternate.value in store.fibers
    modifies render, store, alloc
    ensures store.Valid() && alloc.next == old(alloc.next) + 1
    ensures store.fibers == FreshStack(old(store.fibers), old(store.nextFiber), root.current, Obj(old(alloc.next), map[]))
    ensures render.workInProgress == Some(FreshWip(old(store.fibers), old(store.nextFiber), root.current))
    ensures store.fibers[root.current].alternate == render.workInProgress
    ensures store.fibers[render.workInProgress.value].pendingProps == Obj(old(alloc.next), map[])
  {
    var props := alloc.NewObject(map[]);
    var wip := store.CreateWorkInProgress(root.current, props);
    render.workInProgress := Some(wip);
  }

  /**
   * `renderRoot(root)`: prepares the fresh stack and runs the work loop;
   * an exception it throws is caught once, empties the work in progress and
   * the loop is run again, which then does nothing.  The finished work is
   * what `root.current.alternate` is afterwards.
   */
  method RenderRoot(render: RenderState, root: FiberRootNode, store: FiberStore, alloc: Allocator, begin: BeginFn, complete: CompleteFn, ghost t: Tree)
    returns (ghost done: seq<Step>)
    requires store.Valid() && root.current in store.fibers
    requires var c := store.fibers[root.current];
             c.alternate.Some? ==> c.alternate.value in store.fibers && c.alternate.value != root.current &&
                                   store.fibers[c.alternate.value].ret.None? && store.fibers[c.alternate.value].sibling.None?
    requires var fibers1 := FreshStack(store.fibers, store.nextFiber, root.current, Obj(alloc.next, map[]));
             t.id == FreshWip(store.fibers, store.nextFiber, root.current) && Distinct(Visit(t)) &&
             BuildsChildren(begin, complete, fibers1, t) && KeepsLinks(begin, complete, fibers1)
    modifies render, store, alloc, root`finishedWork
    ensures render.workInProgress.None? && done <= WorkOrder(t)
    ensures var fibers1 := FreshStack(old(store.fibers), old(store.nextFiber), root.current, Obj(old(alloc.next), map[]));
            store.fibers == Replay(begin, complete, fibers1, done) &&
            (NeverThrows(begin, complete, fibers1) ==> done == WorkOrder(t))
    ensures done == WorkOrder(t) ==> RenderedLinks(store.fibers, t)
    ensures root.current in store.fibers && root.finishedWork == store.fibers[root.current].alternate
  {
    PrepareFreshStack(render, root, store, alloc);
    ghost var fibers1 := store.fibers;
    assert Ready(fibers1, t, []);
    ghost var first := true;
    done := [];
    while true
      invariant root.current in fibers1
      invariant first ==> render.workInProgress == Some(t.id) && store.fibers == fibers1 && done == []
      invariant !first ==> render.workInProgress.None? && done < WorkOrder(t) && !NeverThrows(begin, complete, fibers1)
      invariant store.fibers == Replay(begin, complete, fibers1, done) && Grows(fibers1, store.fibers)
      decreases if first then 1 else 0
    {
      var r;
      ghost var d;
      r, d := Workloop(render, store, begin, complete, t);
      if r.Ok? {
        if first {
          done := d;
        }
        break;
      }
      render.workInProgress := None;
      done, first := d, false;
    }
    root.finishedWork := store.fibers[root.current].alternate;
  }

  // ---------------------------------------------------------------------
  // From an updated fiber to its root
  // ---------------------------------------------------------------------

  /** The root a top fiber stands for: the `stateNode` of a `HostRoot`. */
  function RootOf(fibers: map<FiberId, FiberNode>, x: FiberId): (r: Option<FiberRootNode>)
    requires x in fibers
    ensures r.Some? <==> fibers[x].tag == HostRoot && fibers[x].stateNode.RootNode?
    ensures r.Some? ==> fibers[x].stateNode == RootNode(r.value)
  {
    if fibers[x].tag == HostRoot && fibers[x].stateNode.RootNode? then Some(fibers[x].stateNode.root) else None
  }

  /** `markUpdateFromFiberToRoot(fiber)`: follows `return` to the top, and gives its root iff it is a `HostRoot`. */
  method MarkUpdateFromFiberToRoot(store: FiberStore, fiber: FiberId, ghost chain: seq<FiberId>) returns (r: Option<FiberRootNode>)
    requires ReturnChain(store.fibers, Some(fiber), chain)
    ensures chain != [] && chain[|chain| - 1] in store.fibers && r == RootOf(store.fibers, chain[|chain| - 1])
  {
    ReturnChainFacts(store.fibers, Some(fiber), chain, 0);
    var node := fiber;
    var parent := store.fibers[fiber].ret;
    ghost var i := 0;
    while parent.Some?
      invariant 0 <= i < |chain| && node == chain[i] && node in store.fibers && parent == store.fibers[node].ret
      invariant parent == if i + 1 < |chain| then Some(chain[i + 1]) else None
      decreases |chain| - i
    {
      ReturnChainFacts(store.fibers, Some(fiber), chain, i + 1);
      node := parent.value;
      parent := store.fibers[node].ret;
      i := i + 1;
    }
    if store.fibers[node].tag == HostRoot && store.fibers[node].stateNode.RootNode? {
      r := Some(store.fibers[node].stateNode.root);
    } else {
      r := None;
    }
  }

  /** The fibers from the node at `p` up to the top of `t`. */
  ghost function Ancestors(t: Tree, p: seq<nat>): (r: seq<FiberId>)
    requires ValidPath(t, p)
    ensures r != [] && r[|r| - 1] == t.id
    decreases p
  {
    if p == [] then [t.id] else Ancestors(t.kids[p[0]], p[1..]) + [t.id]
  }

  /**
   * In a tree whose fibers point back at their parents, the return chain
   * from any fiber is its ancestors, followed by the chain above the top.
   */
  lemma {:induction false} AncestorsChain(fibers: map<FiberId, FiberNode>, t: Tree, p: seq<nat>, above: seq<FiberId>)
    requires Parented(fibers, t) && t.id in fibers && ReturnChain(fibers, fibers[t.id].ret, above) && ValidPath(t, p)
    ensures ReturnChain(fibers, Some(Sub(t, p).id), Ancestors(t, p) + above)
    decreases p
  {
    assert ([t.id] + above)[1..] == above;
    if p != [] {
      var kid := t.kids[p[0]];
      AncestorsChain(fibers, kid, p[1..], [t.id] + above);
      assert Ancestors(t, p) + above == Ancestors(kid, p[1..]) + ([t.id] + above);
    }
  }

  /** Every fiber of a rendered tree whose top has no parent finds the top's root. */
  lemma MarkFindsTop(fibers: map<FiberId, FiberNode>, t: Tree, p: seq<nat>)
    requires Parented(fibers, t) && t.id in fibers && fibers[t.id].ret.None? && ValidPath(t, p)
    ensures ReturnChain(fibers, Some(Sub(t, p).id), Ancestors(t, p)) && Ancestors(t, p)[|Ancestors(t, p)| - 1] == t.id
  {
    AncestorsChain(fibers, t, p, []);
    assert Ancestors(t, p) + [] == Ancestors(t, p);
  }

  /** The root at the end of `chain`, if any. */
  ghost function TopRoots(fibers: map<FiberId, FiberNode>, chain: seq<FiberId>): set<FiberRootNode>
  {
    if chain != [] && chain[|chain| - 1] in fibers && RootOf(fibers, chain[|chain| - 1]).Some?
    then {RootOf(fibers, chain[|chain| - 1]).value} else {}
  }

  /**
   * `scheduleUpdateOnFiber(fiber)`: finds the root and renders it; a top
   * that is no `HostRoot` gives `null`, and rendering `null` throws.
   */
  method ScheduleUpdateOnFiber(render: RenderState, store: FiberStore, alloc: Allocator, begin: BeginFn, complete: CompleteFn,
                               fiber: FiberId, ghost chain: seq<FiberId>, ghost t: Tree)
    returns (r: Result<()>, ghost done: seq<Step>)
    requires ReturnChain(store.fibers, Some(fiber), chain)
    requires chain != [] && chain[|chain| - 1] in store.fibers && RootOf(store.fibers, chain[|chain| - 1]).Some? ==>
               var root := RootOf(store.fibers, chain[|chain| - 1]).value;
               store.Valid() && root.current in store.fibers &&
               (var c := store.fibers[root.current];
                c.alternate.Some? ==> c.alternate.value in store.fibers && c.alternate.value != root.current &&
                                      store.fibers[c.alternate.value].ret.None? && store.fibers[c.alternate.value].sibling.None?) &&
               (var fibers1 := FreshStack(store.fibers, store.nextFiber, root.current, Obj(alloc.next, map[]));
                t.id == FreshWip(store.fibers, store.nextFiber, root.current) && Distinct(Visit(t)) &&
                BuildsChildren(begin, complete, fibers1, t) && KeepsLinks(begin, complete, fibers1))
    modifies render, store, alloc, TopRoots(store.fibers, chain)`finishedWork
    ensures chain != [] && chain[|chain| - 1] in old(store.fibers)
    ensures r.Err? <==> RootOf(old(store.fibers), chain[|chain| - 1]).None?
    ensures r.Err? ==> r.message == ReadOfUndefined && store.fibers == old(store.fibers) && render.workInProgress == old(render.workInProgress)
    ensures r.Ok? ==>
              var root := RootOf(old(store.fibers), chain[|chain| - 1]).value;
              var fibers1 := FreshStack(old(store.fibers), old(store.nextFiber), old(root.current), Obj(old(alloc.next), map[]));
              render.workInProgress.None? && done <= WorkOrder(t) && store.fibers == Replay(begin, complete, fibers1, done) &&
              (NeverThrows(begin, complete, fibers1) ==> done == WorkOrder(t)) &&
              root.current in store.fibers && root.finishedWork == store.fibers[root.current].alternate
  {
    var root := MarkUpdateFromFiberToRoot(store, fiber, chain);
    if root.None? {
      return Err(ReadOfUndefined), [];
    }
    done := RenderRoot(render, root.value, store, alloc, begin, complete, t);
    r := Ok(());
  }

  // ---------------------------------------------------------------------
  // The commit
  // ---------------------------------------------------------------------

  /** `subtreeHasEffect || rootHasEffect`: the finished work or a fiber below it is flagged for mutation. */
  predicate HasMutationEffect(f: FiberNode)
  {
    f.subtreeFlags & MutationMask != NoFlags || f.flags & MutationMask != NoFlags
  }

  /**
   * `commitRoot(root)`: nothing without finished work; else it clears
   * `root.finishedWork` and, if a mutation is flagged, runs the mutation pass
   * over the finished tree and makes it current.
   */
  method CommitRoot(root: FiberRootNode, store: FiberStore, host: NoopHost, trace: CommitWork.Trace, ghost t: Tree, ghost dels: map<FiberId, Deletion>)
    returns (r: Result<()>)
    requires root.finishedWork.Some? ==> root.finishedWork.value in store.fibers
    requires root.finishedWork.Some? && HasMutationEffect(store.fibers[root.finishedWork.value]) ==>
               t.id == root.finishedWork.value && WalkReady(Mutation, store.fibers, host.instances, host.containers, t, dels)
    modifies root`finishedWork, root`current, root`pendingPassiveEffects, store`fibers, host`instances, host`containers, trace`events
    ensures root.finishedWork.None?
    ensures old(root.finishedWork).None? || !HasMutationEffect(old(store.fibers[root.finishedWork.value])) ==>
              r.Ok? && root.current == old(root.current) && store.fibers == old(store.fibers) && trace.events == old(trace.events) &&
              host.instances == old(host.instances) && host.containers == old(host.containers) &&
              root.pendingPassiveEffects == old(root.pendingPassiveEffects)
    ensures old(root.finishedWork).Some? && HasMutationEffect(old(store.fibers[root.finishedWork.value])) ==>
              (r.Ok? ==> root.current == old(root.finishedWork.value)) &&
              (r.Err? ==> root.current == old(root.current))
    ensures old(root.finishedWork).Some? && HasMutationEffect(old(store.fibers[root.finishedWork.value])) && r.Ok? ==>
              store.fibers == Committed(Mutation, old(store.fibers), Walked(Mutation, old(store.fibers), t)) &&
              trace.events == old(trace.events) + WalkEvents(Mutation, old(store.fibers), t, dels, Walked(Mutation, old(store.fibers), t)) &&
              root.pendingPassiveEffects ==
                PendingPassiveEffects(old(root.pendingPassiveEffects.unmount) + WalkUnmounts(Mutation, old(store.fibers), dels, Walked(Mutation, old(store.fibers), t)),
                                      old(root.pendingPassiveEffects.update) + WalkUpdates(Mutation, old(store.fibers), Walked(Mutation, old(store.fibers), t))) &&
              SameHostShape(old(host.instances), old(host.containers), host.instances, host.containers)
  {
    var finishedWork := root.finishedWork;
    if finishedWork.None? {
      return Ok(());
    }
    root.finishedWork := None;
    if HasMutationEffect(store.fibers[finishedWork.value]) {
      r := CommitPass(Mutation, store, host, trace, root, finishedWork.value, t, dels);
      if r.Err? {
        return;
      }
      root.current := finishedWork.value;
    } else {
      r := Ok(());
    }
  }
}
