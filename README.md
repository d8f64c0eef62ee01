# A verified model of the react-from-scratch reconciler

This project is a Dafny model of the single-threaded reconciliation core of
yshwaker/react-from-scratch, together with proofs of what that core promises.
The model covers:

- the priority lanes and the root's lane bookkeeping;
- the update queue;
- the context value stack and the Suspense handler stack;
- the sync callback queue;
- fibers and the fiber root;
- the single-child reconciler;
- the begin, complete and commit phases;
- the synchronous work loop;
- the hooks;
- the handling of thrown wakeables;
- the container entry points;
- the noop renderer's host;
- `jsx`;
- the synthetic event path.

How the model is built:

- **Fibers.** Fibers are records in an arena (`Fiber.FiberStore.fibers`, a
  map from `FiberId` to `FiberNode`). Writing a field of a fiber object is
  an update of that fiber's record. The `return`, `child`, `sibling` and
  `alternate` links are ids.
- **Tree walks.** The walks that follow those links take a ghost
  `FiberTree.Tree` as a precondition. The tree is the shape the links span.
  Against it, the walks are proved to visit fibers in pre-order or
  post-order, with the commit walk skipping subtrees whose `subtreeFlags`
  miss the mask.
- **The render loop.** `RenderWalk` gives the order in which the loop calls
  `beginWork` and `completeWork`. It takes both as function parameters;
  `beginWork` gives the arena after the call and the fiber it returns. The
  ghost tree of the render is the tree the loop walks: a fiber's children
  are the fiber its `beginWork` returns and that fiber's siblings.
- **The other arenas.** Hooks, effects and hook updates live in arenas of
  their own (`FiberHooks.HooksState`), as do the noop host's instances and
  containers (`HostConfig.NoopHost`).
- **Module-level state.** The source's module-level variables become the
  fields of small classes whose methods update them in place. Examples are
  the context stack, the Suspense handler stack, the sync queue,
  `didReceiveUpdate` and the hook cursors.
- **JavaScript values.** Values are `Js.JsValue`. Objects, arrays and
  functions carry an allocation identity, so `Object.is` compares them by
  reference.
- **Exceptions.** A thrown exception is the `Err` case of a `Result`.
- **User code.** Component bodies are sequences of hook calls. Effect
  callbacks, actions, refs and event handlers are opaque values, and the
  calls to them are recorded as events of a trace.
- **Host calls.** The commit phase works on the noop host's children
  arrays. It also calls the hiding operations (`hideInstance` and the
  like), which the noop host does not define; those calls go into the
  trace as well.
- **Bit vectors.** Lanes and flags are 8-bit vectors. JavaScript works on
  32-bit integers. The flag file declares `Placement`, `Update` and
  `ChildDeletion` as bits 0-2, and the lanes used are bits 0-4. The other
  flags and the hook effect tags are given bits of this model's choosing
  (listed under the left-out items below). The operators used (`|`, `&`, `& ~`, `x & -x`)
  compute each low bit from the same or lower bits, so the 8-bit values are
  exactly the low bits of the JavaScript values.

## Model

| member | source | states |
|---|---|---|
| Lanes.MergeLanes | packages/react-reconciler/src/fiberLanes.ts:23-25 | the merge contains both operands |
| Lanes.MergeLanesIsUnion | packages/react-reconciler/src/fiberLanes.ts:23-25 | a lane is in `mergeLanes(a, b)` iff it is in `a` or in `b` |
| Lanes.MergeLanesAlgebra | packages/react-reconciler/src/fiberLanes.ts:23-25 | merging is commutative, associative and idempotent, with `NoLanes` as unit |
| Lanes.GetHighestPriorityLane | packages/react-reconciler/src/fiberLanes.ts:40-43 | `lanes & -lanes` is `NoLane` for the empty set, otherwise a single lane of the set with no lower lane of the set |
| Lanes.GetHighestPriorityLaneIsMostUrgent | packages/react-reconciler/src/fiberLanes.ts:40-43 | the result is a lane of the set and every lane of the set is at least as large (no more urgent) |
| Lanes.IsSubsetOfLanesMeans | packages/react-reconciler/src/fiberLanes.ts:45-47 | `(set & subset) === subset` holds iff every lane of `subset` is a lane of `set` |
| Lanes.IncludeSomeLanesMeans | packages/react-reconciler/src/fiberLanes.ts:117-119 | `(set & subset) !== NoLanes` holds iff the two sets share a lane |
| Lanes.RemoveLanes | packages/react-reconciler/src/fiberLanes.ts:121-123 | the result is within `set`, shares no lane with `subset`, and together with `subset` covers `set` |
| Lanes.RemoveLanesIsDifference | packages/react-reconciler/src/fiberLanes.ts:121-123 | a lane is left iff it is in `set` and not in `subset` |
| Lanes.RequestUpdateLanes | packages/react-reconciler/src/fiberLanes.ts:27-38 | a non-null batch-config transition gives `TransitionLane`; otherwise the lane of the current scheduler level |
| Lanes.TransitionIgnoresPriority | packages/react-reconciler/src/fiberLanes.ts:27-32 | inside a transition the lane is `TransitionLane` whatever the scheduler level |
| Lanes.LanesToSchedulerPriority | packages/react-reconciler/src/fiberLanes.ts:55-67 | Immediate iff the set holds `SyncLane`, UserBlocking iff its most urgent lane is `InputContinuousLane`, Normal iff it is `DefaultLane`, Idle otherwise |
| Lanes.SchedulerPriorityToLane | packages/react-reconciler/src/fiberLanes.ts:69-81 | a single lane or `NoLane`, and `NoLane` exactly for the Low and Idle levels |
| Lanes.SchedulerPriorityRoundTrip | packages/react-reconciler/src/fiberLanes.ts:55-81 | Immediate, UserBlocking and Normal survive the lane round trip; Low, Idle, `TransitionLane` and `IdleLane` map to Idle |
| RootLanes.MarkRootFinished | packages/react-reconciler/src/fiberLanes.ts:49-53 | clears exactly `lane` from the pending lanes, empties the suspended and pinged lanes, and so keeps pinged within suspended |
| RootLanes.MarkRootSuspended | packages/react-reconciler/src/fiberLanes.ts:83-86 | adds the lane to the suspended lanes, removes it from the pinged lanes, and keeps pinged within suspended |
| RootLanes.MarkRootPinged | packages/react-reconciler/src/fiberLanes.ts:88-91 | adds to the pinged lanes only the part of the lane that is suspended, and keeps pinged within suspended |
| RootLanes.PingStaysWithin | packages/react-reconciler/src/fiberLanes.ts:88-91 | pinging only suspended bits preserves pinged within suspended |
| RootLanes.GetNextLane | packages/react-reconciler/src/fiberLanes.ts:93-115 | `NoLane` with nothing pending; else the most urgent pending unsuspended lane; else the most urgent pending pinged lane; else `NoLane` |
| UpdateQueue.CreateUpdate | packages/react-reconciler/src/updateQueue.ts:13-17 | the update holds the action unchanged |
| UpdateQueue.UpdateQueue.constructor | packages/react-reconciler/src/updateQueue.ts:19-26 | a new queue has nothing pending |
| UpdateQueue.UpdateQueue.EnqueueUpdate | packages/react-reconciler/src/updateQueue.ts:28-33 | the update becomes the pending one, replacing any earlier one |
| UpdateQueue.EnqueueTwiceLastWins | packages/react-reconciler/src/updateQueue.ts:28-33 | after two enqueues only the second is pending and processing sees only it |
| UpdateQueue.ProcessUpdateQueue | packages/react-reconciler/src/updateQueue.ts:35-55 | no pending update keeps the base state; a function action gives `action(baseState)`; a value action gives the value |
| UpdateQueue.ValueUpdateIgnoresBaseState | packages/react-reconciler/src/updateQueue.ts:48-51 | a value action gives the same state whatever the base state |
| FiberContext.ContextStack.constructor | packages/react-reconciler/src/fiberContext.ts:6-7 | the saved value starts null and the stack empty |
| FiberContext.ContextStack.PushProvider | packages/react-reconciler/src/fiberContext.ts:9-13 | saves the previous saved value on the stack, saves the context's value, sets the context to the new value; the stack grows by one |
| FiberContext.ContextStack.PopProvider | packages/react-reconciler/src/fiberContext.ts:15-18 | puts the saved value back into the context and pops the stack into the saved value (`undefined` on an empty stack); the stack shrinks by one |
| FiberContext.PushPopRestores | packages/react-reconciler/src/fiberContext.ts:9-18 | a push then a pop of the same context restores the context value, the saved value and the stack |
| FiberContext.NestedProvidersRestore | packages/react-reconciler/src/fiberContext.ts:9-18 | a depth-first walk over any nested providers, push on enter and pop on leave, ends in the state it started from |
| SuspenseContext.SuspenseHandlerStack.constructor | packages/react-reconciler/src/suspenseContext.ts:3 | the handler stack starts empty |
| SuspenseContext.SuspenseHandlerStack.GetSuspenseHandler | packages/react-reconciler/src/suspenseContext.ts:5-7 | no handler on an empty stack, otherwise the last handler pushed and not popped |
| SuspenseContext.SuspenseHandlerStack.PushSuspenseHandler | packages/react-reconciler/src/suspenseContext.ts:9-11 | appends the handler, which becomes the current one |
| SuspenseContext.SuspenseHandlerStack.PopSuspenseHandler | packages/react-reconciler/src/suspenseContext.ts:13-15 | drops only the top handler and keeps the rest in order; on an empty stack does nothing |
| SuspenseContext.PushPopLeavesStack | packages/react-reconciler/src/suspenseContext.ts:9-15 | a push then a pop leaves the stack exactly as it was |
| EarlyExit.UpToFirst | packages/react-reconciler/src/syncTaskQueue.ts:17-22 | the steps taken are a prefix of the list in order, none but the last ends the run, and a run cut short ends at a step that ends it; a sync flush and an event flow (`syntheticEvents.ts:88-99`) both run this way |
| EarlyExit.UpToFirstRunsAll | packages/react-reconciler/src/syncTaskQueue.ts:18 | when no step ends the run (no callback throws, no handler stops propagation), every step is taken |
| EarlyExit.UpToFirstStopsAt | packages/react-dom/src/syntheticEvents.ts:95-97 | the steps up to and including the first that ends the run are taken, and no later one |
| EarlyExit.UpToFirstEndsBy | packages/react-dom/src/syntheticEvents.ts:95-97 | a handler that stops propagation at position `i` bounds the handlers run to `i + 1` |
| SyncTaskQueue.SyncQueue.constructor | packages/react-reconciler/src/syncTaskQueue.ts:1-2 | no queue and not flushing |
| SyncTaskQueue.SyncQueue.ScheduleSyncCallback | packages/react-reconciler/src/syncTaskQueue.ts:4-10 | the first call creates a one-element queue, later calls append in call order |
| SyncTaskQueue.SyncQueue.FlushSyncCallbacks | packages/react-reconciler/src/syncTaskQueue.ts:13-27 | while flushing or without a queue nothing is called; otherwise the queue is called in order up to the first throw, the throw is swallowed, the flag is false again and the queue is unchanged |
| Fiber.FiberStore.NewFiberNode | packages/react-reconciler/src/fiber.ts:56-82 | a fresh fiber with the tag and pending props, a null key for a null or undefined key, no links, index 0, null memoized props and state, no flags and no deletions |
| Fiber.FiberStore.CreateWorkInProgress | packages/react-reconciler/src/fiber.ts:146-176 | without an alternate, a fresh fiber with the tag, key and state node of `current`, linked both ways; with one, that same fiber with the new pending props and flags, subtree flags and deletions reset; in both cases type, queue, child, memoized props and state and ref copied from `current` |
| Fiber.FiberStore.CreateAlternate | packages/react-reconciler/src/fiber.ts:152-157 | the mount branch: a new fiber paired with `current` both ways, keeping alternates paired |
| Fiber.FiberStore.ResetAlternate | packages/react-reconciler/src/fiber.ts:158-165 | the update branch: only the existing alternate changes, with new pending props and cleared flags and deletions |
| Fiber.CopyFromCurrent | packages/react-reconciler/src/fiber.ts:167-173 | the fields taken from `current` are type, queue, child, memoized props and state and ref; the rest stay the work-in-progress fiber's |
| Fiber.FiberTagFromType | packages/react-reconciler/src/fiber.ts:180-194 | a `null` type throws the `TypeError` of reading `$$typeof` (the `typeof type === 'object'` test lets `null` through); otherwise HostComponent iff the type is a string, ContextProvider iff it is an object whose `$$typeof` is the provider symbol, SuspenseComponent iff it is the suspense symbol, FunctionComponent otherwise |
| Fiber.FiberStore.CreateFiberFromElement | packages/react-reconciler/src/fiber.ts:178-201 | fails iff the element's type is `null`, and then adds no fiber; otherwise a fresh fiber with the tag chosen from the element's type, its props and key, and the type and ref copied |
| Fiber.FiberStore.CreateFiberFromFragment | packages/react-reconciler/src/fiber.ts:204-207 | a fresh Fragment fiber whose pending props are the elements |
| Fiber.FiberStore.CreateFiberFromOffscreen | packages/react-reconciler/src/fiber.ts:209-214 | a fresh OffscreenComponent fiber with the props and a null key |
| Fiber.FiberRootNode.constructor | packages/react-reconciler/src/fiber.ts:125-143 | `current` is the host root fiber and its state node is the root; all lane sets empty, no finished work, empty passive queues, no callback and no ping cache |
| ChildFibers.WithDeletions | packages/react-reconciler/src/childFibers.ts:12-23 | deleting fibers one after the other queues them in call order after those already queued, raises `ChildDeletion` only on the first deletion into a null list, and changes nothing else of the parent |
| ChildFibers.WithDeletionsSnoc | packages/react-reconciler/src/childFibers.ts:12-23 | one more `deleteChild` after a run of deletions is the run extended by that fiber |
| ChildFibers.DeleteChild | packages/react-reconciler/src/childFibers.ts:12-23 | with tracking, queues the child on the parent (creating `[child]` and raising `ChildDeletion` when `deletions` was null); without tracking, changes nothing |
| ChildFibers.DeleteRemainingChildren | packages/react-reconciler/src/childFibers.ts:25-37 | queues the whole old sibling list from `currentFirstChild`, in order, when tracking; changes nothing otherwise |
| ChildFibers.WithDeletionsAppend | packages/react-reconciler/src/childFibers.ts:25-37 | deleting `a` and then `b` is deleting `a + b` |
| ChildFibers.UseFiber | packages/react-reconciler/src/childFibers.ts:153-158 | the alternate of the old fiber (reused or fresh) with the new props, index 0, no sibling, no flags, and the old fiber's type, queue, child, memoized props and state and ref; only the fiber and its clone change |
| ChildFibers.ReuseMatch | packages/react-reconciler/src/childFibers.ts:52-56 | on a match the clone gets the new props and `return = returnFiber`, and every later old sibling is queued for deletion |
| ChildFibers.FirstKeyMatch | packages/react-reconciler/src/childFibers.ts:45-47 | the position of the first old child whose key is `===` the element's key; no earlier child has that key |
| ChildFibers.FirstHostText | packages/react-reconciler/src/childFibers.ts:85-87 | the position of the first old `HostText` child; no earlier child is a text fiber |
| ChildFibers.ElementPlanPartitions | packages/react-reconciler/src/childFibers.ts:39-78 | for an element every old child is either reused or deleted, not both; the reused child has the element's key and type and every earlier child another key; with no reuse every old child is deleted |
| ChildFibers.TextPlanPartitions | packages/react-reconciler/src/childFibers.ts:80-103 | every old child is either reused or deleted; the reused child is the first text fiber; with no text fiber every old child is deleted |
| ChildFibers.DeleteUntil | packages/react-reconciler/src/childFibers.ts:45-71 | deletes the old children from the front, in order, until the first that matches, and stops there (or at the end) |
| ChildFibers.ReconcileSingleElement | packages/react-reconciler/src/childFibers.ts:39-78 | carries out the element plan: deletions queued in order, and either the matching old fiber reused via `createWorkInProgress` with the element's props, index 0, no sibling and `return = returnFiber`, or a fresh fiber from the element under `returnFiber`; fails iff no old fiber is reused and the type is `null`, after queuing the plan's deletions |
| ChildFibers.FinishSingleElement | packages/react-reconciler/src/childFibers.ts:47-77 | after the walk stopped at the first old child with the element's key: reuse on a type match, otherwise delete from that child on and create, failing iff the type is `null` |
| ChildFibers.CreateAfterDeletions | packages/react-reconciler/src/childFibers.ts:74-77 | once the plan's deletions are queued, a fresh fiber under `returnFiber` carries out a plan that reuses nothing; a `null` type fails and leaves the arena as it was |
| ChildFibers.CreateElementChild | packages/react-reconciler/src/childFibers.ts:74-77 | a fresh fiber from the element, with `return = returnFiber`; a `null` type fails and adds no fiber |
| ChildFibers.ReconcileSingleTextNode | packages/react-reconciler/src/childFibers.ts:80-103 | carries out the text plan: the first old text fiber reused with props `{content}`, the non-text children before it and every child after it deleted; or a fresh `HostText` fiber with a null key |
| ChildFibers.CreateTextChild | packages/react-reconciler/src/childFibers.ts:99-102 | a fresh `HostText` fiber with props `{content}` and a null key under `returnFiber` |
| ChildFibers.Placed | packages/react-reconciler/src/childFibers.ts:105-111 | `Placement` is added iff tracking effects and the fiber has no alternate; no other flag and no other field changes |
| ChildFibers.PlaceSingleChild | packages/react-reconciler/src/childFibers.ts:105-111 | only the fiber's flags change, as `Placed` says |
| ChildFibers.PlacedKeepsReused | packages/react-reconciler/src/childFibers.ts:105-111 | a reused fiber (it has an alternate) is never flagged `Placement`, with or without tracking |
| ChildFibers.ReconcileChildFibers | packages/react-reconciler/src/childFibers.ts:113-150 | an element or a string or number child is reconciled by its plan and placed, an element whose fiber cannot be created fails with the deletions queued; any other child yields null and queues only the old first child, if there is one, for deletion |
| DidReceiveUpdate.UpdateFlag.constructor | packages/react-reconciler/src/beginWork.ts:44 | `didReceiveUpdate` starts false |
| DidReceiveUpdate.UpdateFlag.MarkWorkInProgressReceivedUpdate | packages/react-reconciler/src/beginWork.ts:46-48 | sets `didReceiveUpdate` |
| BeginWork.BailoutOnAlreadyFinishedWork | packages/react-reconciler/src/beginWork.ts:137-152 | null iff the fiber's child lanes share no lane with the render lane (or it has no child); otherwise its child |
| BeginWork.NoLaneBailoutStops | packages/react-reconciler/src/beginWork.ts:137-144 | a render without a lane never descends below a bailed-out fiber |
| BeginWork.MarkRef | packages/react-reconciler/src/beginWork.ts:464-472 | `Ref` is raised iff (no current fiber and a non-null ref) or (a current fiber whose ref differs); no other flag changes |
| BeginWork.ReconcileChildren | packages/react-reconciler/src/beginWork.ts:450-462 | without a current fiber the children are mounted untracked against no old child; otherwise reconciled with tracking against `current.child`; `wip.child` is the result, and is left alone when reconciliation throws |
| BeginWork.UpdateHostComponent | packages/react-reconciler/src/beginWork.ts:415-423 | marks the ref, then reconciles `pendingProps.children` |
| BeginWork.UpdateFragment | packages/react-reconciler/src/beginWork.ts:377-383 | reconciles the pending props themselves as the children |
| BeginWork.UpdateOffscreenComponent | packages/react-reconciler/src/beginWork.ts:339-346 | reconciles `pendingProps.children` |
| BeginWork.HostRootProcessed | packages/react-reconciler/src/beginWork.ts:395-402 | the work-in-progress root holds the processed state; no fiber is added or removed |
| BeginWork.StoreRootState | packages/react-reconciler/src/beginWork.ts:395-402 | stores the processed state in the work-in-progress root, and in the current root only when its state was falsy |
| BeginWork.UpdateHostRoot | packages/react-reconciler/src/beginWork.ts:385-413 | empties the shared pending update, processes it into the new element, bails out when the element is unchanged and reconciles it otherwise |
| BeginWork.UpdateContextProvider | packages/react-reconciler/src/beginWork.ts:348-375 | pushes the new value for the provider's context; bails out when value and children are unchanged, otherwise reconciles the children |
| BeginWork.PrimaryChildProps | packages/react-reconciler/src/beginWork.ts:238-241 | the Offscreen props carry mode 'hidden' when the fallback shows and 'visible' otherwise, and the primary children |
| BeginWork.PrimaryFiber | packages/react-reconciler/src/beginWork.ts:326-334 | a new Offscreen fiber under the Suspense fiber, with the mode and children, no sibling and no flags |
| BeginWork.FallbackFiber | packages/react-reconciler/src/beginWork.ts:310-318 | a new Fragment fiber for the fallback under the Suspense fiber, flagged `Placement` |
| BeginWork.MountSuspensePrimaryChildren | packages/react-reconciler/src/beginWork.ts:325-337 | a new visible Offscreen fiber becomes the Suspense fiber's only child |
| BeginWork.MountSuspenseFallbackChildren | packages/react-reconciler/src/beginWork.ts:299-323 | a new hidden Offscreen fiber followed by a new placed fallback Fragment; the primary is the Suspense fiber's child and the fallback is returned |
| BeginWork.CopyCurrentPrimary | packages/react-reconciler/src/beginWork.ts:272-283 | the work-in-progress copy of the current primary child takes the new Offscreen props, returns to the Suspense fiber and keeps the current primary's child |
| BeginWork.UpdateSuspenseFallbackChildren | packages/react-reconciler/src/beginWork.ts:228-264 | the hidden primary copy is the Suspense fiber's child with the fallback as sibling; the fallback is the copy of the current one, or a new placed Fragment when none was shown |
| BeginWork.UpdateSuspensePrimaryChildren | packages/react-reconciler/src/beginWork.ts:266-297 | the visible primary copy is the only child (no sibling); a fallback shown before is queued for deletion, raising `ChildDeletion` when `deletions` was null |
| BeginWork.UpdateSuspenseComponent | packages/react-reconciler/src/beginWork.ts:185-226 | pushes the Suspense fiber as handler and clears `DidCapture`; the fallback shows iff `DidCapture` was set, with a hidden primary and the fallback as next unit of work; otherwise the visible primary is |
| BeginWork.UpdateFunctionComponent | packages/react-reconciler/src/beginWork.ts:425-443 | renders the hooks (`FunctionUpdated`): a render that throws leaves the fiber rendering and throws only with more hooks than before; on update with no update received it bails the hooks out and returns the bailout result; otherwise it reconciles the rendered children |
| BeginWork.MemoStart | packages/react-reconciler/src/beginWork.ts:119-125 | with shallow-equal props and the same ref the memo fiber takes the old props; no other fiber changes |
| BeginWork.PrepareMemo | packages/react-reconciler/src/beginWork.ts:114-131 | kept props clear `didReceiveUpdate`; with no update in the render lane the fiber takes its current fiber's lanes and bails out |
| BeginWork.UpdateMemoComponent | packages/react-reconciler/src/beginWork.ts:114-134 | bails out as `PrepareMemo` says, and otherwise goes on as `updateFunctionComponent` does, with the component's render given as its hook calls (`MemoUpdated`) |
| BeginWork.DispatchHost | packages/react-reconciler/src/beginWork.ts:84-111 | per tag (`HostTagUpdated`): HostText returns null and changes nothing; HostRoot, HostComponent, Fragment, ContextProvider and Offscreen reconcile their children or bail out as their update says; Suspense places its children and returns the primary or the fallback; only a provider changes the contexts and only Suspense the handler stack |
| BeginWork.BailoutBeforeTag | packages/react-reconciler/src/beginWork.ts:66-77 | clears `didReceiveUpdate`, pushes a provider's memoized value again, and returns the bailout result |
| BeginWork.BeginWork | packages/react-reconciler/src/beginWork.ts:51-112 | with a current fiber holding the same props object and type and no update in the render lane, returns the bailout result and changes no fiber; otherwise clears `wip.lanes`, records in `didReceiveUpdate` whether props or type changed, and leaves what the fiber's tag's update leaves (`ComponentUpdated`, `HostTagUpdated`); a fiber that is not a component fails only on an element of a `null` type |
| BeginWork.BeginWorkThenUnwind | packages/react-reconciler/src/fiberHooks.ts:452-456 | `beginWork` followed, when it throws, by `resetHooksOnUnwind`: the hooks are idle afterwards whether the fiber's work threw or not, so the next `beginWork` may run |
| BeginWork.UpdateByTag | packages/react-reconciler/src/beginWork.ts:82-111 | `wip.lanes = NoLanes` before the switch, then what the tag's update leaves (`ComponentUpdated`, `HostTagUpdated`) |
| BeginWork.UpdateComponentByTag | packages/react-reconciler/src/beginWork.ts:82-111 | `wip.lanes = NoLanes`, then the function or memo component case (`ComponentUpdated`) |
| BeginWork.UpdateHostByTag | packages/react-reconciler/src/beginWork.ts:82-111 | `wip.lanes = NoLanes`, then the case of a tag that is not a component (`HostTagUpdated`); fails only on an element of a `null` type |
| BeginWork.HostTagThrowsOnNullType | packages/react-reconciler/src/beginWork.ts:84-111 | for a fiber that is not a component, the only error is the `TypeError` of creating a fiber for a `null` element type |
| BeginWork.DispatchComponent | packages/react-reconciler/src/beginWork.ts:93-108 | a function component is updated as `FunctionUpdated` says, a memo component as `MemoUpdated` says |
| CompleteWork.BubbleProperties | packages/react-reconciler/src/completeWork.ts:149-162 | the arena afterwards is `Bubbled`: each child of the chain points back at `wip`, and `wip`'s subtree flags gain every flag and subtree flag of its children |
| CompleteWork.ChildFlagsCollected | packages/react-reconciler/src/completeWork.ts:152-157 | every flag a child carries on itself or in its subtree is among the collected flags |
| CompleteWork.OnlyChildFlagsCollected | packages/react-reconciler/src/completeWork.ts:152-157 | the collected flags hold no flag that no child carries |
| CompleteWork.BubbleKeeps | packages/react-reconciler/src/completeWork.ts:149-162 | bubbling keeps every fiber, keeps all of `wip` but its subtree flags (and none of those is lost), changes each child only in `return`, and touches no other fiber |
| CompleteWork.BubbleCollects | packages/react-reconciler/src/completeWork.ts:149-162 | after bubbling, `wip`'s subtree flags include every flag and subtree flag of each child |
| CompleteWork.BubbleAddsOnlyChildFlags | packages/react-reconciler/src/completeWork.ts:149-162 | a flag no child carries is in `wip`'s subtree flags after bubbling only if it was before |
| CompleteWork.BubbleIdempotent | packages/react-reconciler/src/completeWork.ts:149-162 | bubbling twice leaves the arena bubbling once leaves |
| CompleteWork.AppendNode | packages/react-reconciler/src/completeWork.ts:121-122 | a host fiber's instance is appended to the parent, and the call fails exactly when the append step of the plan does; other fibers are passed over |
| CompleteWork.AppendAllChildren | packages/react-reconciler/src/completeWork.ts:116-146 | the walk succeeds exactly when the plan over the pre-order visit of the subtree does, fails with the plan's message, and on success leaves the instances the plan's appends produce; the arena is unchanged |
| CompleteWork.PlanAdoptable | packages/react-reconciler/src/completeWork.ts:116-146 | the append plan succeeds exactly when every fiber it meets is adoptable, and then appends the instances of the host fibers, in order |
| CompleteWork.AppendsTopHosts | packages/react-reconciler/src/completeWork.ts:116-146 | `appendAllChildren` appends the instances of the host fibers nearest to `wip`, left to right, and fails exactly when one of them has no instance or has another parent |
| CompleteWork.HostComponentFlags | packages/react-reconciler/src/completeWork.ts:37-55 | `Update` is raised iff the fiber is updating (or had it); `Ref` iff an updating fiber's ref changed, or a mounting fiber has a ref (or had it); no other flag changes |
| CompleteWork.HostTextFlags | packages/react-reconciler/src/completeWork.ts:60-66 | `Update` is raised iff an updating text fiber's content changed (or it had the flag); no other flag changes |
| CompleteWork.CompleteHostComponent | packages/react-reconciler/src/completeWork.ts:36-58 | update: flags then bubbling, instances untouched; mount: a new instance numbered by the counter, the append plan towards it (its failure fails the call and leaves the arena), then the `stateNode`, flags and bubbling |
| CompleteWork.MountHostComponent | packages/react-reconciler/src/completeWork.ts:45-57 | the mount path of a host component, with the same outcome as `CompleteHostComponent` |
| CompleteWork.HostComponentOutcome | packages/react-reconciler/src/completeWork.ts:36-58 | after a successful completion the host component carries the flags of its rule and a mounted one holds the instance numbered by the counter it found |
| CompleteWork.CompleteHostText | packages/react-reconciler/src/completeWork.ts:59-74 | update: flags then bubbling; mount: a text instance with the props' content, numbered by the counter, stored in `stateNode`; then bubbling; it never fails |
| CompleteWork.HostTextOutcome | packages/react-reconciler/src/completeWork.ts:59-74 | after completion the text fiber carries the flags of its rule and a mounted one holds the new text instance |
| CompleteWork.ShowOrHide | packages/react-reconciler/src/completeWork.ts:96-103 | raises `Visibility` on the Offscreen fiber and bubbles it again |
| CompleteWork.CompleteOffscreen | packages/react-reconciler/src/completeWork.ts:90-104 | the Offscreen child is completed as `OffscreenCompleted` says, and the Suspense fiber with its chain of children is left as it was |
| CompleteWork.OffscreenFlags | packages/react-reconciler/src/completeWork.ts:90-104 | the Offscreen fiber gains `Visibility` exactly when its mode changed since the current tree or a new one mounts hidden, and no other flag |
| CompleteWork.CompleteSuspense | packages/react-reconciler/src/completeWork.ts:86-107 | pops the Suspense handler; without a child it fails reading the Offscreen props and changes no fiber; otherwise completes the Offscreen child and bubbles the Suspense fiber |
| CompleteWork.SuspenseRaisesVisibility | packages/react-reconciler/src/completeWork.ts:90-104 | completing a Suspense fiber raises `Visibility` on its Offscreen child exactly when the child shows or hides (or mounts hidden), and no other flag of it |
| CompleteWork.CompleteOther | packages/react-reconciler/src/completeWork.ts:75-85 | function components, fragments, roots and Offscreen fibers only bubble; a provider pops its context value and bubbles, failing without a context; a memo fiber is left untouched |
| CompleteWork.CompleteWork | packages/react-reconciler/src/completeWork.ts:31-114 | the state afterwards is the one `Completed` prescribes for the fiber's tag, and the host's containers are untouched |
| CommitWork.EffectAfterCallback | packages/react-reconciler/src/commitWork.ts:273-300 | a callback never changes an effect's `next`, `create` or `deps` |
| CommitWork.CommitHookEffectList | packages/react-reconciler/src/commitWork.ts:257-270 | once round the ring from `lastEffect.next`: every selected effect (its tag holds all `flags`) gets its callback, in ring order, with the calls recorded in that order; the ring's links are kept |
| CommitWork.VisitEffect | packages/react-reconciler/src/commitWork.ts:264-269 | one round of the do-while: the callback on the current effect, then the next effect of the ring, which is back at the first only after the last |
| CommitWork.RunEffectCallback | packages/react-reconciler/src/commitWork.ts:265-267 | the callback runs, and changes the effect, exactly when the effect's tag holds all of `flags` |
| CommitWork.UnmountDisarms | packages/react-reconciler/src/commitWork.ts:273-281 | after an Unmount walk with flags that include `HookHasEffect`, a second walk with the same flags calls nothing |
| CommitWork.CreateThenDestroy | packages/react-reconciler/src/commitWork.ts:284-300 | after a Create walk, the next Destroy walk calls, for each selected effect, the value its `create` returned |
| CommitWork.NoneSelectedNoCalls | packages/react-reconciler/src/commitWork.ts:265 | a walk over effects none of which is selected calls nothing |
| CommitWork.CommitPassiveEffect | packages/react-reconciler/src/commitWork.ts:231-255 | a function component's `lastEffect` is pushed on the named list ('update' only when flagged `PassiveEffect`, and only with an update queue); otherwise nothing changes |
| CommitWork.RefWrite | packages/react-reconciler/src/commitWork.ts:196-217 | nothing for a null ref, a call for a function ref, an assignment to `current` for an object; any other ref throws |
| CommitWork.SafelyAttachRef | packages/react-reconciler/src/commitWork.ts:207-217 | the ref receives the fiber's `stateNode`; a ref that cannot take it fails and records nothing |
| CommitWork.SafelyDetachRef | packages/react-reconciler/src/commitWork.ts:196-205 | the ref receives `null`; a ref that cannot take it fails and records nothing |
| CommitWork.GetHostParent | packages/react-reconciler/src/commitWork.ts:462-482 | null exactly when no ancestor is a HostComponent or HostRoot; otherwise the instance, or the root's container, of the nearest such ancestor |
| CommitWork.GetHostSibling | packages/react-reconciler/src/commitWork.ts:414-459 | the instance of the first host fiber after the fiber, not itself being placed, found without leaving the nearest host ancestor (`HostSiblingOf`); the arena is unchanged |
| CommitWork.ClimbToSibling | packages/react-reconciler/src/commitWork.ts:418-435 | the climb up `return` to the next sibling stops, with nothing, at a HostRoot or HostComponent parent or at the top, and otherwise reaches the sibling at the path `Climb` gives |
| CommitWork.DescendToHost | packages/react-reconciler/src/commitWork.ts:437-456 | the descent through first children ends at a host fiber it returns unless that fiber is being placed, or stops early at a placed fiber or one without children |
| CommitWork.DescendFrom | packages/react-reconciler/src/commitWork.ts:437-456 | the descent ends on a valid path, and a host it reports is one not being placed |
| CommitWork.Search | packages/react-reconciler/src/commitWork.ts:417-458 | a host the search finds lies after the fiber's subtree and is a host fiber not being placed |
| CommitWork.PlaceStep | packages/react-reconciler/src/commitWork.ts:490-497 | an append the host takes puts the instance last and marks it adopted; an insertion adopts nothing |
| CommitWork.PlaceHost | packages/react-reconciler/src/commitWork.ts:490-497 | the corrected placement (see the findings below), one host call: fails exactly when the host refuses the step, with its message, and otherwise the host stands where the step leaves the placement |
| CommitWork.InsertOrAppendPlacementNode | packages/react-reconciler/src/commitWork.ts:485-510 | the corrected placement (see the findings below): the host calls of `PlacementSteps`, in order, stopping at the first the host refuses, with its message |
| CommitWork.PlaceChildren | packages/react-reconciler/src/commitWork.ts:500-509 | the corrected placement (see the findings below): each child of a non-host fiber placed in turn, with the same `before`, where the code passes none; the outcome is the placement of all of them |
| CommitWork.PlaceKid | packages/react-reconciler/src/commitWork.ts:503-507 | one child placed, and the next sibling read; a refusal is the refusal of the whole placement |
| CommitWork.AppendsAccepted | packages/react-reconciler/src/commitWork.ts:494 | appending only, the host takes every instance exactly when each is free or already the parent's |
| CommitWork.AppendsInOrder | packages/react-reconciler/src/commitWork.ts:494 | appending only, the instances taken end up after the old children, in call order |
| CommitWork.InsertsInOrder | packages/react-reconciler/src/commitWork.ts:491-492 | inserting distinct new instances before a child `b` leaves them, in call order, right before `b` |
| CommitWork.PlacementPlacesTopHosts | packages/react-reconciler/src/commitWork.ts:485-510 | a placement makes one host call per host fiber nearest the top of the placed subtree (the ones `appendAllChildren` appends), all with the same `before` |
| CommitWork.PlacementAsWrittenAppendsPastSibling | packages/react-reconciler/src/commitWork.ts:502-506 | as written, placing a non-host subtree before the instance 5 yields `[5, 7]`; as intended `[7, 5]` |
| CommitWork.AncestorsChain | packages/react-reconciler/src/commitWork.ts:463-475 | in the whole tree the `return` chain of a node is its ancestors, parent first |
| CommitWork.CommitPlacement | packages/react-reconciler/src/commitWork.ts:398-412 | runs the corrected placement (see the findings below): without a host parent no call is made; otherwise the host calls of the placement before the host sibling, under the host parent, fail exactly when the host refuses one, and leave the host where the placement ends; no fiber changes |
| CommitWork.HostParentAtKept | packages/react-reconciler/src/commitWork.ts:462-475 | where a fiber is placed does not depend on any fiber's flags |
| CommitWalk.CommitLayoutEffectsOnFiber | packages/react-reconciler/src/commitWork.ts:183-194 | fails exactly when a HostComponent flagged `Ref` has a ref that cannot take its instance; otherwise only that fiber's `Ref` flag is cleared, and the attach calls are recorded |
| CommitWalk.LayoutOutcome | packages/react-reconciler/src/commitWork.ts:189-193 | a HostComponent flagged `Ref` loses exactly `Ref` and writes its instance to the ref; any other fiber keeps its flags and makes no call |
| CommitWalk.LayoutOnce | packages/react-reconciler/src/commitWork.ts:189-193 | running the layout callback twice on a fiber attaches its ref once |
| CommitWalk.MutationTakesRef | packages/react-reconciler/src/commitWork.ts:103-106 | a HostComponent whose ref the mutation pass attached has no `Ref` left, so the layout pass attaches nothing on it |
| CommitWalk.CallBack | packages/react-reconciler/src/commitWork.ts:58 | the pass's callback on the fiber whose children's subtrees are done takes the state from the walk before it to the walk including it |
| CommitWalk.MutationStep | packages/react-reconciler/src/commitWork.ts:73-113 | the mutation callback on one more fiber extends the fibers, calls and queued effects by that fiber's step, and leaves the host `MutatedHost` gives for that fiber |
| CommitWalk.LayoutStep | packages/react-reconciler/src/commitWork.ts:183-194 | the layout callback on one more fiber extends the walk's state by that fiber's step |
| CommitWalk.ClimbUp | packages/react-reconciler/src/commitWork.ts:57-67 | the `up:` loop runs the callback on the leaf and on each parent it climbs to, and stops at the next sibling (later in the walk) or above the top, with the state of the walk so far |
| CommitWalk.WalkStep | packages/react-reconciler/src/commitWork.ts:50-68 | one turn of the outer loop: down to the first child when the subtree flags meet the mask, otherwise the `up:` loop; the walk moves strictly forward |
| CommitWalk.CommitPass | packages/react-reconciler/src/commitWork.ts:40-71 | unless a callback throws, the fibers, the calls made and the queued passive effects are those of the callback run on `Walked`, the post-order walk of the tree cut below each fiber whose subtree flags miss the pass's mask; the host keeps its shape |
| CommitWalk.WalkStart | packages/react-reconciler/src/commitWork.ts:46 | the walk starts at `finishedWork` with nothing done |
| CommitWalk.WalkedFlagged | packages/react-reconciler/src/commitWork.ts:48-69 | with flags bubbled, the pass runs its callback on `finishedWork` and on every fiber of the tree carrying a flag of its mask |
| CommitWalk.WalkedOnce | packages/react-reconciler/src/commitWork.ts:48-69 | the pass runs its callback on fibers of the tree only, each of them once |
| CommitWalk.MutationPassClears | packages/react-reconciler/src/commitWork.ts:219-223 | after the mutation pass no fiber of the tree has a flag of the mutation or passive mask left |
| CommitWalk.CommittedShape | packages/react-reconciler/src/commitWork.ts:73-113 | committing drops no fiber and changes no fiber's `stateNode` |
| CommitEffects.WalkMeetsTopHosts | packages/react-reconciler/src/commitWork.ts:128-181 | under a top that is no host, the host fibers `findHostSubtreeRoot` meets are exactly the top host fibers |
| CommitEffects.HideOrUnhideAllChildren | packages/react-reconciler/src/commitWork.ts:115-181 | one hide (or show) call per host fiber nearest the top, skipping nested hidden Offscreen subtrees, left to right; no fiber changes |
| CommitEffects.HideAndMove | packages/react-reconciler/src/commitWork.ts:135-180 | one round of `findHostSubtreeRoot`: the calls so far are those of the host fibers met, and the walk moves forward or ends having made the calls of all top host fibers |
| CommitEffects.HideAt | packages/react-reconciler/src/commitWork.ts:136-155 | the callback on one node adds its hide call; the walk goes down exactly at a non-stopping fiber with a child |
| CommitEffects.HideOne | packages/react-reconciler/src/commitWork.ts:136-155 | a HostComponent or HostText gets its call and becomes the host subtree root if it is a component; the walk goes down only through fibers that do not stop it |
| CommitEffects.LeaveHost | packages/react-reconciler/src/commitWork.ts:157-179 | up to the next sibling, with the fiber just finished added to those met, or the end, where the host fibers met are the top ones |
| CommitEffects.CommitDeletions | packages/react-reconciler/src/commitWork.ts:89-97 | the listed deletions in order: each subtree cut loose, its ref detaches recorded and its effect lists queued as 'unmount', and its top host instances removed from its host parent (`HostAfterDeletions`), the first error stopping the rest; the 'update' list untouched |
| CommitEffects.CommitMutationEffectsOnFiber | packages/react-reconciler/src/commitWork.ts:73-113 | unless it throws: deletions cut loose and handled flags cleared, the ref detaches of the deletions, the ref attach and the visibility calls recorded, the effect lists queued, and the host that the placement, the text update and the listed deletions leave in turn (`MutatedHost`) |
| CommitEffects.HostMutations | packages/react-reconciler/src/commitWork.ts:79-97 | placement, update and deletions: `Placement`, `Update` and `ChildDeletion` cleared, the listed deletions cut loose with their detaches and unmounts, and the host `MutatedHost` gives |
| CommitEffects.PlaceAndUpdate | packages/react-reconciler/src/commitWork.ts:79-87 | placement and update clear exactly `Placement` and `Update`; it fails exactly when the placement does (`PlacedIfFlagged`), with its message, and otherwise the host is the placed one with the text update applied |
| CommitEffects.UpdateFiber | packages/react-reconciler/src/commitWork.ts:84-87 | `commitUpdate` then `Update` cleared; it never fails; when flagged, a host text fiber's text instance takes its `content` prop (`TextUpdated`) and nothing else on the host changes |
| CommitEffects.PlaceIfFlagged | packages/react-reconciler/src/commitWork.ts:79-82 | only a fiber flagged `Placement` is placed and loses the flag; it fails exactly when `PlacedHost` does, and otherwise leaves the host `PlacedHost` gives |
| CommitEffects.PlaceFiber | packages/react-reconciler/src/commitWork.ts:398-412 | `commitPlacement` changes no fiber; it throws exactly when `PlacedHost` is an error, with its message, and otherwise leaves the host `PlacedHost` gives: unchanged without a host parent, else every placement step applied to the host parent's children |
| CommitEffects.DeleteListed | packages/react-reconciler/src/commitWork.ts:89-97 | only a fiber flagged `ChildDeletion` deletes its listed children and loses the flag; fibers, calls, unmounts and host as `CommitDeletions` gives |
| CommitEffects.DeleteOne | packages/react-reconciler/src/commitWork.ts:323-368 | one deletion: the subtree is cut loose, its ref detaches recorded, its effect lists queued as 'unmount', and its top host instances removed from the host parent (`HostAfterDeletion`) |
| CommitEffects.HostAfterDeletionsKept | packages/react-reconciler/src/commitWork.ts:89-97 | what the deletions do to the host depends on the fibers' kinds and host nodes only, so clearing flags before them does not change it |
| CommitEffects.DeleteAll | packages/react-reconciler/src/commitWork.ts:90-95 | each listed deletion committed in turn, in list order, the host ending as `HostAfterDeletions` gives |
| CommitEffects.PassiveRefVisibility | packages/react-reconciler/src/commitWork.ts:98-112 | the passive, ref and visibility parts: each flag cleared where its part ran, the ref and hide calls recorded, the effect list queued as 'update' |
| CommitEffects.QueuePassive | packages/react-reconciler/src/commitWork.ts:98-101 | a fiber flagged `PassiveEffect` queues its effect list and loses the flag |
| CommitEffects.AttachRef | packages/react-reconciler/src/commitWork.ts:103-106 | only a HostComponent loses `Ref`, after its ref is attached |
| CommitEffects.HideOffscreen | packages/react-reconciler/src/commitWork.ts:108-112 | only an Offscreen fiber loses `Visibility`, after hiding or showing its content as its `mode` says |
| CommitDeletion.UnmountPlanMeaning | packages/react-reconciler/src/commitWork.ts:337-355 | unmounting a subtree fails exactly when one of its HostComponents has a ref that cannot be detached; otherwise every HostComponent's ref got `null` and every function component's effect list was queued as 'unmount', in order |
| CommitDeletion.UnmountPlanKept | packages/react-reconciler/src/commitWork.ts:337-355 | unmounting reads no fiber's `flags` |
| CommitDeletion.UnmountFiber | packages/react-reconciler/src/commitWork.ts:338-354 | the callback on one fiber: a ref detached for a HostComponent, an effect list queued for a function component, nothing otherwise; fails as `UnmountStep` does |
| CommitDeletion.CommitNestedComponent | packages/react-reconciler/src/commitWork.ts:370-396 | the callback runs on every fiber of the subtree in pre-order until it throws, with that error; no fiber changes and the 'update' list is untouched |
| CommitDeletion.UnmountAndMove | packages/react-reconciler/src/commitWork.ts:375-395 | one round: the callback on the node, then down, or across, or the end of the walk, with the state of the walk so far |
| CommitDeletion.LeaveLeaf | packages/react-reconciler/src/commitWork.ts:383-394 | after a node without children the walk ends at the top, or climbs to the next sibling, which comes right after the node in pre-order |
| CommitDeletion.ChainDistinct | packages/react-reconciler/src/commitWork.ts:312-318 | a sibling chain that ends meets no fiber twice |
| CommitDeletion.RecordHostChildrenToDelete | packages/react-reconciler/src/commitWork.ts:302-320 | with nothing recorded the fiber is recorded; otherwise it is recorded once for each time the sibling chain after the last record meets it |
| CommitDeletion.DeletionAsWrittenMissesNestedHost | packages/react-reconciler/src/commitWork.ts:302-320 | for a function component holding a `div` and a second function component that renders a `p`, the recording as written keeps only the `div`, while the top host fibers are both |
| CommitDeletion.TopHostsCover | packages/react-reconciler/src/commitWork.ts:323-365 | every host fiber of the deleted subtree is a top host fiber or lies below one, so removing the top ones takes every host node off the parent |
| CommitDeletion.CollectHostChildrenToDelete | packages/react-reconciler/src/commitWork.ts:330-355 | the records are the top host fibers of the deleted subtree, each holding a host node |
| CommitDeletion.CollectChildHosts | packages/react-reconciler/src/commitWork.ts:330-355 | the top host fibers under each child, first child to last |
| CommitDeletion.RemoveEachMeaning | packages/react-reconciler/src/commitWork.ts:361-363 | the removals succeed exactly when the parent holds every node as many times as it is listed, and then take out one copy per listing |
| CommitDeletion.RemoveHostChildren | packages/react-reconciler/src/commitWork.ts:358-365 | removes the nodes in order: fails exactly when `RemoveEach` does, with its message, and otherwise leaves the parent's children `RemoveEach` gives and nothing else changed |
| CommitDeletion.RemoveOne | packages/react-reconciler/src/commitWork.ts:362 | one `removeChild`, with the rest of the removals still ahead |
| CommitDeletion.CommitDeletion | packages/react-reconciler/src/commitWork.ts:323-368 | runs the corrected deletion (see the findings below): an unmount that throws changes neither fibers nor host; otherwise the refs and effect lists of the walk, then all the top host nodes of the subtree removed from the host parent if there is one, then the deleted fiber's `return` and `child` cleared |
| FiberThrow.WakeableOf | packages/react-reconciler/src/fiberThrow.ts:17 | a thenable is an object, whose identity is the wakeable |
| FiberThrow.Attached | packages/react-reconciler/src/fiberThrow.ts:49-62 | after an attach the lane is registered for the wakeable, and the cache holds the wakeables it held plus this one |
| FiberThrow.AttachCalls | packages/react-reconciler/src/fiberThrow.ts:61-66 | `then` is called, once, exactly when the lane was not registered for the wakeable yet |
| FiberThrow.AfterPing | packages/react-reconciler/src/fiberThrow.ts:40-42 | a ping deletes the wakeable's entry and keeps every other entry; no cache stays no cache |
| FiberThrow.AttachPingListener | packages/react-reconciler/src/fiberThrow.ts:29-67 | the root's ping cache becomes `Attached` (created on first use) and the calls are `AttachCalls` |
| FiberThrow.Ping | packages/react-reconciler/src/fiberThrow.ts:38-47 | the wakeable's entry is deleted, the lane is marked pinged where the root is suspended on it, then `markRootUpdated` and `ensureRootIsScheduled` are called, in that order |
| FiberThrow.Captured | packages/react-reconciler/src/fiberThrow.ts:22 | the boundary gains `ShouldCapture` and keeps every other flag; no other fiber changes |
| FiberThrow.ThrowException | packages/react-reconciler/src/fiberThrow.ts:8-27 | a value that is not a thenable changes nothing; a thenable flags the innermost Suspense handler, if any, with `ShouldCapture`, and attaches a ping listener |
| FiberThrow.AttachIdempotent | packages/react-reconciler/src/fiberThrow.ts:61-66 | attaching the same wakeable and lane twice: the second attach changes nothing and calls nothing |
| FiberThrow.RegisteredAfterAttach | packages/react-reconciler/src/fiberThrow.ts:49-62 | an attach registers exactly its own wakeable and lane on top of what was registered |
| FiberThrow.ThenOncePerLane | packages/react-reconciler/src/fiberThrow.ts:64-65 | over any sequence of attaches, `then` is called once for each wakeable and lane attached and not registered before, and never otherwise |
| FiberThrow.AttachAllRegisters | packages/react-reconciler/src/fiberThrow.ts:49-62 | after a sequence of attaches exactly the attached and the earlier registered lanes are registered |
| FiberThrow.CacheCreatedOnce | packages/react-reconciler/src/fiberThrow.ts:49-58 | the first attach creates the cache with this wakeable alone; a later one keeps the other wakeables' entries |
| FiberThrow.PingForgets | packages/react-reconciler/src/fiberThrow.ts:38-66 | after a ping every lane of the wakeable is forgotten, so the next attach calls `then` again |
| FiberReconciler.CreateContainer | packages/react-reconciler/src/fiberReconciler.ts:14-21 | a fresh HostRoot fiber with props `{}`, a null key and an empty update queue, a fresh root on the container whose `current` it is and which its `stateNode` points back at; no other fiber changes |
| FiberReconciler.QueueOf | packages/react-reconciler/src/fiberReconciler.ts:32 | the host root's queue object, when it has one |
| FiberReconciler.UpdateContainer | packages/react-reconciler/src/fiberReconciler.ts:24-40 | the element becomes the queue's pending update and is returned; without a queue the call fails and changes nothing; the scheduling renders exactly when the fiber leads to a root, and then hands the root the finished tree |
| WorkLoop.RenderState.constructor | packages/react-reconciler/src/workLoop.ts:8 | there is no work in progress before a render starts |
| WorkLoop.PerformUnitOfWork | packages/react-reconciler/src/workLoop.ts:95-104 | one unit of work extends the replayed begin/complete order by at least one step; the next work in progress is the fiber `beginWork` returned, or, when it returned null, the fiber completion climbs to, which is the next fiber of the depth-first order of the walked tree, or none once that tree is done; an error leaves a strict prefix of the order and can only come from a phase that throws |
| WorkLoop.CompleteUnitOfWork | packages/react-reconciler/src/workLoop.ts:106-120 | completing climbs to the first ancestor with a sibling, which becomes the work in progress; past the top nothing is left and every fiber of the tree is done |
| WorkLoop.Workloop | packages/react-reconciler/src/workLoop.ts:89-93 | starting at the top, the loop begins and completes every fiber in exactly the depth-first work order of the walked tree, whose children are the fibers each `beginWork` returns and their siblings; afterwards every child points back at its parent, the children of each fiber are the sibling chain from the fiber its `beginWork` returned, and the top has no parent or sibling; with no work in progress it does nothing |
| WorkLoop.PrepareFreshStack | packages/react-reconciler/src/workLoop.ts:85-87 | the work in progress is the alternate of the current host root, linked both ways, with fresh empty pending props |
| WorkLoop.RenderRoot | packages/react-reconciler/src/workLoop.ts:33-51 | a render replays a prefix of the work order from the fresh stack, the whole order when no phase throws, and after the whole order the links are those of the walked tree; a thrown error stops the render with nothing in progress; the root's finished work is the current root's alternate |
| WorkLoop.RootOf | packages/react-reconciler/src/workLoop.ts:26-30 | a top fiber yields a root exactly when it is a `HostRoot` whose state node is a root |
| WorkLoop.MarkUpdateFromFiberToRoot | packages/react-reconciler/src/workLoop.ts:17-31 | the search follows the `return` chain to its last fiber and yields that fiber's root, if any |
| WorkLoop.AncestorsChain | packages/react-reconciler/src/workLoop.ts:18-24 | in a tree whose children point back at their parents, the `return` chain from any fiber is its ancestors up to the top, then the chain above |
| WorkLoop.MarkFindsTop | packages/react-reconciler/src/workLoop.ts:17-28 | from every fiber of a rendered tree with a parentless top, the `return` chain ends at that top |
| WorkLoop.ScheduleUpdateOnFiber | packages/react-reconciler/src/workLoop.ts:10-14 | scheduling fails, with nothing changed, exactly when the top of the fiber's chain is no host root (reading a property of `null`); otherwise it renders that root as `RenderRoot` states |
| WorkLoop.CommitRoot | packages/react-reconciler/src/workLoop.ts:56-83 | the finished work is always cleared; without it, or without a mutation flag on it or below it, nothing else changes; otherwise the mutation pass runs over the finished tree with the effects, host shape, trace and pending passive effects it specifies, and the finished tree becomes current |
| RenderWalk.WorkOrderVisits | packages/react-reconciler/src/workLoop.ts:95-120 | in the loop's call order, fibers are begun in pre-order and completed in post-order |
| RenderWalk.RenderedOnce | packages/react-reconciler/src/workLoop.ts:95-120 | in a tree with distinct fibers, each fiber is begun once and completed once, and its whole subtree is begun and completed between the two |
| RenderWalk.WorkSplits | packages/react-reconciler/src/workLoop.ts:95-120 | the calls of a render are those before a node, then the node's own subtree, then those after it |
| RenderWalk.WorkPrefix | packages/react-reconciler/src/workLoop.ts:95-120 | what is done when a node is completed is a start of the whole order, and what is done before that completion is a proper start |
| RenderWalk.Memoized | packages/react-reconciler/src/workLoop.ts:97 | after a begin, the fiber's memoized props are its pending props and nothing else in the arena changes |
| RenderWalk.BeginStep | packages/react-reconciler/src/workLoop.ts:96-103 | when `beginWork` returns a fiber, that fiber is the first child of the walked tree and the next work in progress; when it returns null, the fiber is a leaf of the walk and is completed next |
| RenderWalk.CompleteStep | packages/react-reconciler/src/workLoop.ts:109-119 | after `completeWork`, a sibling is the next work in progress; else the parent is completed next; a fiber without parent is the top and ends the render |
| RenderWalk.ReadyBuilt | packages/react-reconciler/src/workLoop.ts:95-120 | once every fiber of the walk is begun, each child points back at its parent, each fiber's children are the sibling chain from the fiber its `beginWork` returned, and the top has no parent or sibling |
| RenderWalk.BailoutIsLeaf | packages/react-reconciler/src/workLoop.ts:96-100 | a fiber whose `beginWork` returns null is a leaf of the walk even when its `child` link from the last commit is set |
| RenderWalk.FallbackIsOnlyChild | packages/react-reconciler/src/workLoop.ts:96-103 | a Suspense fiber whose `beginWork` returns the fallback has that fallback as its only child in the walk, while its `child` link is the hidden primary child |
| HostConfig.IndexOf | packages/react-noop-renderer/src/hostConfig.ts:75 | the position of the first occurrence of `x`, or -1 exactly when `x` is absent |
| HostConfig.RemoveFirstOccurrence | packages/react-noop-renderer/src/hostConfig.ts:109-113 | `splice(indexOf(x), 1)` takes out one copy of `x` and keeps the rest |
| HostConfig.InsertBefore | packages/react-noop-renderer/src/hostConfig.ts:70-84 | the intended insertion fails exactly when `before` is no child; otherwise `child` stands right before `before`, added once if new and moved (same children) if present |
| HostConfig.InsertNewChildAsIntended | packages/react-noop-renderer/src/hostConfig.ts:75-83 | for a child not yet in the list, the insertion as written is the intended one |
| HostConfig.InsertBeforeAsWrittenMisplaces | packages/react-noop-renderer/src/hostConfig.ts:75-83 | moving `c` before `b` in `[c, b]` as written gives `[b, c]`, where the intended result is `[c, b]` |
| HostConfig.NoopHost.constructor | packages/react-noop-renderer/src/hostConfig.ts:22 | the instance counter starts at 0 with no instances |
| HostConfig.NoopHost.SetChildren | packages/react-noop-renderer/src/hostConfig.ts:47 | only the children array of the given parent changes |
| HostConfig.NoopHost.CreateInstance | packages/react-noop-renderer/src/hostConfig.ts:24-34 | a fresh instance with the next id, no children, parent -1 and the given type and props; the counter goes up by one |
| HostConfig.NoopHost.CreateTextInstance | packages/react-noop-renderer/src/hostConfig.ts:50-58 | a fresh text instance with the next id and parent -1; the counter goes up by one |
| HostConfig.NoopHost.Adopt | packages/react-noop-renderer/src/hostConfig.ts:40-47 | it throws, changing nothing, exactly when the child already has another parent id; otherwise it records the parent id and pushes the child |
| HostConfig.NoopHost.PushToContainer | packages/react-noop-renderer/src/hostConfig.ts:66-67 | the child records the parent id and is pushed at the end of the container's children |
| HostConfig.NoopHost.PushToInstance | packages/react-noop-renderer/src/hostConfig.ts:46-47 | the child records the parent id and is pushed at the end of the instance's children, the instance being possibly the child itself |
| HostConfig.NoopHost.AppendInitialChild | packages/react-noop-renderer/src/hostConfig.ts:36-48 | it throws exactly when the child was adopted under another id (`rootID` of a container, `id` of an instance); otherwise the child is appended, adopted under that id, and no other instance changes |
| HostConfig.NoopHost.AppendChildToContainer | packages/react-noop-renderer/src/hostConfig.ts:60-68 | the same check against `rootID` (undefined for an instance parent); otherwise the child is appended and no other instance changes |
| HostConfig.NoopHost.InsertChildToContainer | packages/react-noop-renderer/src/hostConfig.ts:70-84 | the children become `InsertBeforeAsWritten` of the old ones, or it throws, changing nothing, when `before` is no child |
| HostConfig.NoopHost.InsertChildBefore | packages/react-noop-renderer/src/hostConfig.ts:70-84 | it throws exactly when `before` is no child; otherwise the children become the intended `InsertBefore` |
| HostConfig.NoopHost.RemoveChild | packages/react-noop-renderer/src/hostConfig.ts:105-114 | it throws, changing nothing, exactly when the child is absent; otherwise one copy of it leaves the children |
| HostConfig.NoopHost.CommitUpdate | packages/react-noop-renderer/src/hostConfig.ts:86-99 | a host text fiber's text instance takes the `content` of its memoized props; any other fiber changes nothing |
| HostConfig.NoopHost.CommitTextUpdate | packages/react-noop-renderer/src/hostConfig.ts:101-103 | a text instance's text becomes the content and nothing else changes |
| Jsx.ReactElementFields | packages/react/src/jsx.ts:12-30 | an element record has exactly the fields `$$typeof`, `type`, `key`, `ref`, `props` and `__mark` |
| Jsx.CopiedProps | packages/react/src/jsx.ts:43-56 | props hold every config entry but the held-back ones, with the config's values |
| Jsx.JsxPropsFacts | packages/react/src/jsx.ts:37-64 | props built as written never hold `key`, keep every other config entry (`ref` included), and take one child as is, several as the rest array, none leaving props as copied |
| Jsx.JsxPropsCorrectedFacts | packages/react/src/jsx.ts:49-52 | the intended props hold neither `key` nor `ref`, and are the written ones without `ref` |
| Jsx.Jsx | packages/react/src/jsx.ts:32-67 | when the config's key converts to a string, the element takes the type, that key, a `null` ref and a fresh props object filled as `JsxPropsFacts` says; the children array, the props and the element take three fresh identities in that order. A key holding a symbol throws the string-conversion `TypeError` after the children array and the props are allocated, and no element is made |
| Jsx.JsxCorrected | packages/react/src/jsx.ts:32-67 | the same element with the intended ref of the config and props without `ref`, and the same throw on a symbol key |
| Jsx.JsxDropsRef | packages/react/src/jsx.ts:49 | for a config `{ref: f}`, the element as written has a `null` ref and `f` in its props, while the intended element has ref `f` and empty props |
| Jsx.KeyOfFacts | packages/react/src/jsx.ts:45-48 | a defined key becomes its string form (`'' + val`), an undefined or missing one gives `null`, and a symbol key throws |
| Jsx.KeyDecides | packages/react/src/jsx.ts:43-48 | the key depends only on the config's `key` entry, so the loop's throw on that entry is the throw of the whole config |
| Js.ToJsString | packages/react/src/jsx.ts:47 | `'' + v` throws exactly when a symbol is met, in the value or in an array item at any depth; a string is itself and an integer its decimal form |
| Js.ItemString | packages/react/src/jsx.ts:47 | an array item converts as `join` does: `undefined` and `null` give the empty string, and an item throws exactly when it reaches a symbol |
| Js.JoinItems | packages/react/src/jsx.ts:47 | `items.join(',')` throws exactly when some item reaches a symbol, and then with the symbol `TypeError` |
| Js.JoinItemsFront | packages/react/src/jsx.ts:47 | a join of two or more items is the first item's string, a comma and the join of the rest, and succeeds iff both parts do |
| Js.JoinExamples | packages/react/src/jsx.ts:47 | an illustration on concrete arrays: `[]` gives `""`, `['x', null, 2]` gives `"x,,2"`, `[['x', 'y'], 'z']` gives `"x,y,z"`, and `['x', symbol]` throws |
| SyntheticEvents.GetEventCallbackNameFromEventType | packages/react-dom/src/syntheticEvents.ts:101-108 | only `click` has callback names, `onClickCapture` then `onClick` |
| SyntheticEvents.EventTypeToSchedulerPriority | packages/react-dom/src/syntheticEvents.ts:145-156 | click, keydown and keyup run at immediate priority, scroll at user-blocking, every other type at normal |
| SyntheticEvents.ClickUpdatesAreSync | packages/react-dom/src/syntheticEvents.ts:145-152 | an update a click handler makes outside a transition takes the sync lane, one a scroll handler makes the input-continuous lane |
| SyntheticEvents.Visited | packages/react-dom/src/syntheticEvents.ts:120 | the walk visits a start of the parent chain that holds no container node and stops right at the container |
| SyntheticEvents.CallbacksAppend | packages/react-dom/src/syntheticEvents.ts:125-135 | the callbacks of two stretches of nodes are those of the first followed by those of the second |
| SyntheticEvents.CaptureOuterFirstBubbleInnerFirst | packages/react-dom/src/syntheticEvents.ts:128-133 | a node above the ones already visited has its capture handlers run before theirs and its bubble handlers after theirs |
| SyntheticEvents.CollectPaths | packages/react-dom/src/syntheticEvents.ts:110-143 | the capture path is the visited nodes' capture handlers from the outermost in, the bubble path their bubble handlers from the target out; other event types collect nothing |
| SyntheticEvents.OnlyClickCollects | packages/react-dom/src/syntheticEvents.ts:123-124 | an event type other than click collects no handler |
| SyntheticEvents.SyntheticEvent.constructor | packages/react-dom/src/syntheticEvents.ts:49-51 | a synthetic event starts with its propagation flag cleared |
| SyntheticEvents.SyntheticEvent.StopPropagation | packages/react-dom/src/syntheticEvents.ts:54-59 | a call sets the propagation flag |
| SyntheticEvents.TriggerEventFlow | packages/react-dom/src/syntheticEvents.ts:88-99 | the handlers run are `EarlyExit.UpToFirst` of the path with `stops`, each at the priority of the event's type, and the flag is set exactly when one of them stopped propagation |
| SyntheticEvents.DispatchEvent | packages/react-dom/src/syntheticEvents.ts:64-86 | without a target nothing runs; otherwise the capture flow runs, then the bubble flow unless capture stopped propagation, each handler at the priority of the event type |
| SyntheticEvents.StopDuringCaptureSkipsBubble | packages/react-dom/src/syntheticEvents.ts:83-85 | a capture handler that stops propagation keeps every bubble handler, and every later capture handler, from running |
| Hooks.JoinRingsConcatenates | packages/react-reconciler/src/fiberHooks.ts:221-227 | joining a pending ring onto a disjoint base ring gives one ring holding the base updates, then the pending ones, with the newest pending update last |
| Hooks.PushEffectAppends | packages/react-reconciler/src/fiberHooks.ts:178-196 | pushing an effect appends it to the fiber's effect ring, whose newest effect it becomes, or starts a ring of one |
| Hooks.AreHookInputsEqual | packages/react-reconciler/src/fiberHooks.ts:151-162 | the loop answers `HookInputsEqual`: both lists exist and agree by `Object.is` on their common prefix |
| Hooks.HookInputsComparePrefix | packages/react-reconciler/src/fiberHooks.ts:155 | only the common prefix is compared, so a list that grew or shrank counts as unchanged |
| Hooks.HookInputsWithoutDeps | packages/react-reconciler/src/fiberHooks.ts:152-154 | a missing list on either side always counts as changed, even against itself |
| Hooks.HookInputsDetectChange | packages/react-reconciler/src/fiberHooks.ts:156-159 | changing one dependency to a value that is not `Object.is` the old one makes the lists differ |
| Hooks.CloneHook | packages/react-reconciler/src/fiberHooks.ts:382-388 | the clone copies the state, queue, base state and base queue of the current hook |
| Hooks.NextCurrentHookAtCount | packages/react-reconciler/src/fiberHooks.ts:354-376 | with the cursors aligned, the current list runs out exactly when the work-in-progress list already has as many hooks as the current one, and it never has more |
| Hooks.HooksUsedGrows | packages/react-reconciler/src/fiberHooks.ts:93-109 | the calls up to any point put no more hooks on the list than all of them |
| FiberHooks.BailedOut | packages/react-reconciler/src/fiberHooks.ts:458-464 | the work-in-progress fiber takes its current fiber's queue and loses `PassiveEffect` (its other flags kept); the current fiber loses the render lane from its lanes and keeps the others; no other fiber changes |
| FiberHooks.BailoutHook | packages/react-reconciler/src/fiberHooks.ts:458-464 | the arena becomes `BailedOut` and stays valid |
| FiberHooks.BatchConfig.constructor | packages/react-reconciler/src/fiberHooks.ts:294 | no transition is in progress at first |
| FiberHooks.PendingShowsFirst | packages/react-reconciler/src/fiberHooks.ts:291-301 | started outside a transition, the `isPending = true` update takes a more urgent lane than the `false` one, which waits in the transition lane |
| FiberHooks.StartTransition | packages/react-reconciler/src/fiberHooks.ts:291-301 | the steps are pending-true in the caller's lane, the callback inside the transition, pending-false in the transition lane; the batch config is restored |
| FiberHooks.HooksState.IdleValid | packages/react-reconciler/src/fiberHooks.ts:28-31 | between renders the hook state is valid for every fiber arena and no fiber renders |
| FiberHooks.HooksState.constructor | packages/react-reconciler/src/fiberHooks.ts:28-31 | no fiber renders, both cursors are null and the render lane is none |
| FiberHooks.HooksState.AppendHook | packages/react-reconciler/src/fiberHooks.ts:331-345 | the first hook starts a fresh list that becomes the fiber's `memoizedState`; a later one goes behind the work-in-progress hook |
| FiberHooks.HooksState.MountWorkInProgressHook | packages/react-reconciler/src/fiberHooks.ts:322-348 | outside a component it throws, changing nothing; otherwise a `null` hook goes behind the last one (or starts the fiber's list) and becomes the cursor |
| FiberHooks.HooksState.AdvanceCurrentHook | packages/react-reconciler/src/fiberHooks.ts:352-379 | the current cursor moves to the first hook of the current fiber's list, or to the next one of its list, when there is one |
| FiberHooks.HooksState.UpdateWorkInProgressHook | packages/react-reconciler/src/fiberHooks.ts:350-408 | outside a component it throws; it throws "Rendered more hooks" exactly when the current list has no next hook; otherwise the next current hook's clone goes behind the cursor, and aligned cursors stay aligned |
| FiberHooks.HooksState.PushEffect | packages/react-reconciler/src/fiberHooks.ts:164-198 | a fresh effect is appended to the fiber's effect ring, and the fiber's queue names it as its newest effect |
| FiberHooks.HooksState.MountEffect | packages/react-reconciler/src/fiberHooks.ts:111-122 | outside a component it throws; otherwise one new hook holds a new effect tagged `Passive \| HookHasEffect`, with the given deps and no destroy, and only the fiber's flags (plus `PassiveEffect`) and queue change |
| FiberHooks.HooksState.UpdateEffect | packages/react-reconciler/src/fiberHooks.ts:124-149 | it throws "Rendered more hooks" exactly when the current list has run out; otherwise one hook is added, aligned cursors stay aligned and the current list is kept |
| FiberHooks.HooksState.UpdateEffectOnHook | packages/react-reconciler/src/fiberHooks.ts:129-148 | throws, changing nothing, exactly when reading the previous state's deps throws (`Hooks.PrevDepsEqual`); otherwise the new effect keeps the `destroy` read from the previous state, and it is tagged `HookHasEffect`, with the fiber flagged `PassiveEffect`, exactly when the deps compare as changed |
| Hooks.PrevDepsEqual | packages/react-reconciler/src/fiberHooks.ts:129-135 | an effect state compares its own deps with `areHookInputsEqual`; a `null` or `undefined` state throws; the comparison is never equal without new deps |
| FiberHooks.HooksState.CompareWithPrevious | packages/react-reconciler/src/fiberHooks.ts:130-135 | reads the previous deps and compares them as `PrevDepsEqual` says |
| Hooks.PrevDepsOfOtherState | packages/react-reconciler/src/fiberHooks.ts:130-161 | a non-effect state without `deps` counts as changed when no deps are given, and throws when deps are given (`prevDeps.length` of `undefined`) |
| FiberHooks.HooksState.MountState | packages/react-reconciler/src/fiberHooks.ts:259-280 | outside a component it throws; otherwise a hook holds the initial state (the initializer's result for a function) as state and base state, with a fresh empty queue whose new `dispatch` is returned |
| FiberHooks.HooksState.MountRef | packages/react-reconciler/src/fiberHooks.ts:410-415 | a new hook holds a fresh `{ current: initialValue }` object, which is returned |
| FiberHooks.HooksState.MountTransition | packages/react-reconciler/src/fiberHooks.ts:282-289 | two hooks are added, a state hook holding `false` and one holding a fresh `start`; `[false, start]` is returned |
| FiberHooks.HooksState.JoinPending | packages/react-reconciler/src/fiberHooks.ts:211-232 | pending updates join behind the current hook's base queue, the current hook keeps them as its base queue and `pending` is cleared; the base queue to process is returned |
| FiberHooks.HooksState.ProcessBaseQueue | packages/react-reconciler/src/fiberHooks.ts:234-254 | the hook takes the processed state, base state and base queue; the fiber takes back the skipped lanes; an update is marked exactly when the state is not `Object.is` the previous one |
| FiberHooks.HooksState.UpdateStateOnHook | packages/react-reconciler/src/fiberHooks.ts:211-256 | the state returned is the processed base queue's state (the hook's state without one) with the queue's `dispatch`; reading a missing queue throws |
| FiberHooks.HooksState.UpdateState | packages/react-reconciler/src/fiberHooks.ts:206-257 | it throws "Rendered more hooks" exactly when the current list has run out; otherwise one hook is added holding the returned state |
| FiberHooks.HooksState.UpdateValueHook | packages/react-reconciler/src/fiberHooks.ts:417-420 | the cloned next current hook's value is returned; a current list that ran out throws |
| FiberHooks.HooksState.UpdateRef | packages/react-reconciler/src/fiberHooks.ts:417-420 | the ref object the hook has held since mount is returned, whatever the argument |
| FiberHooks.HooksState.UpdateTransition | packages/react-reconciler/src/fiberHooks.ts:303-309 | two hooks are added, the second holding the returned `start`; too many hooks throws |
| FiberHooks.HooksState.ReadContext | packages/react-reconciler/src/fiberHooks.ts:425-434 | outside a component it throws; otherwise it is the context's current value (innermost provider or default), and no hook is added |
| FiberHooks.HooksState.ResetHooksOnUnwind | packages/react-reconciler/src/fiberHooks.ts:452-456 | afterwards no fiber renders and both cursors are cleared; from a valid state the state stays valid |
| FiberHooks.HooksState.MountHook | packages/react-reconciler/src/fiberHooks.ts:93-100 | a hook call on mount never throws inside a component and adds the hooks the call counts |
| FiberHooks.HooksState.UpdateHook | packages/react-reconciler/src/fiberHooks.ts:102-109 | a hook call on update succeeds only while the current list still has the hooks it needs, and throws "Rendered more hooks" only when it has not |
| FiberHooks.HooksState.BeginRender | packages/react-reconciler/src/fiberHooks.ts:59-65 | `wip` renders at the lane with its hook list and effect queue reset, and the cursors stay as the last render left them: cleared, the state is valid; a stale work-in-progress cursor makes it invalid, with `wip`'s new list still empty |
| FiberHooks.HooksState.EndRender | packages/react-reconciler/src/fiberHooks.ts:81-85 | no fiber renders, both cursors are cleared and the render lane is none |
| FiberHooks.HooksState.RunHooks | packages/react-reconciler/src/fiberHooks.ts:77-79 | the component's calls add exactly the hooks they count; on mount they never throw, on update they succeed only within the current fiber's hook count |
| FiberHooks.HooksState.RenderWithHooks | packages/react-reconciler/src/fiberHooks.ts:59-88 | from cleared cursors, whichever fiber rendered last: a mount always succeeds; an update succeeds only when it uses no more hooks than the previous render and fails with "Rendered more hooks" when it uses more; afterwards the fiber's list holds one hook per hook used and the module state is reset; only the hook fields of `wip` change |

## Left out

- **Multi-child arrays.** Keyed array diffing and `lastPlacedIndex` are a TODO in `childFibers.ts:132`, so the reconciler has no array path. An array child takes the unsupported-child path, as in the code.
- **Update skipping by lane.** `updateQueue.ts` keeps a single pending update: a new update overwrites `shared.pending`. The model follows that code. It has no circular queue with a carried base state.
- **Hook update processing.** The hooks' lane-aware `processUpdateQueue` comes from a different snapshot of `updateQueue.ts`. It is a parameter of the state hook (`Process`).
- **State setter.** `dispatchSetState` is not modelled, because its `enqueueUpdate` belongs to that other snapshot. The hook update arena therefore never grows inside the model.
- **Concurrent scheduling.** Time-sliced rendering, preemption, `ensureRootIsScheduled` and `markRootUpdated` are not in the `workLoop.ts` shown. Where the code calls them (`fiberThrow.ts`), the call is recorded as an event.
- **Microtasks.** `scheduleMicroTask` of the noop host is a deferral through the JavaScript event loop. It is left out.
- **Context propagation.** `propagateContextChange` and `prepareToReadContext` are not part of this model, and neither are `cloneChildFibers` and `shared/shallowEquals`. `shallowEqual` is a function parameter of the memo component path.
- **`use`.** The `use` hook and `trackUsedThenable` (`./thenable`) are not part of this model.
- **Development-only code and logging.** `__DEV__` logging is left out, and so are the `console.warn` calls outside `__DEV__`, such as `ping!` in `ping` (`fiberThrow.ts:39`) and the missing-target warning of `dispatchEvent` (`syntheticEvents.ts:68`); they write to the console and change no state. So is the scheduler package's own behaviour: priorities are its five levels, and the current level is a parameter.
- **Weak maps.** A `WeakMap` (`pingCache`) is a finite map. Garbage collection is not modelled.
- **DOM event wiring.** `initEvent`'s `addEventListener` and the native `stopPropagation` call on the DOM event are left out. So is `updateFiberProps`: the element's stored props are a field of the DOM node value.
- **Import mismatch.** `workLoop.ts` imports `commitMutationEffect`, while `commitWork.ts` exports `commitMutationEffects`. It also calls it with `finishedWork` alone (`workLoop.ts:74`), while the walk takes `(finishedWork, root)` (`commitWork.ts:44`), so the first passive push on `root.pendingPassiveEffects` (`commitWork.ts:253`) would throw. The model calls the exported walk and passes it the root.
- WorkLoop.CommitRoot: passes the root to the mutation walk, which the call as written omits (see the line above), so it does not model the error that omission raises at the first passive push. It states the host the pass leaves only up to shape, as `CommitWalk.CommitPass` does.
- CommitWalk.CommitPass: states the host the whole pass leaves only up to shape (the same instances and containers, with the same kinds). The host each callback leaves is stated exactly, by `CommitWalk.MutationStep` and `CommitEffects.CommitMutationEffectsOnFiber` through `CommitEffects.MutatedHost`, but the walk does not compose those steps into one host.
- **Render lane.** `workLoop.ts` calls `beginWork` without a lane. The lane is then `undefined`, which acts as `NoLane` in the bitwise tests, so the work loop passes `NoLane`.
- **Layout pass.** `commitRoot` does not run the layout pass: `workLoop.ts` has only a `// layout` placeholder where it would go. The layout walk is modelled (`CommitWalk.CommitPass` with the layout phase), but `WorkLoop.CommitRoot` does not run it.
- **Passive effect flush.** Flushing the pending passive effects after commit is not in the `workLoop.ts` shown. The effect-list walks it would use are modelled (`CommitWork.CommitHookEffectList`).
- **`child` links after a render.** The render loop states the links of the tree it walks, whose children are what each `beginWork` returns and that fiber's siblings. The arena's `child` link of a fiber is not promised to match: a bailed-out fiber keeps the children of its last commit, and a Suspense fiber showing its fallback points at the hidden primary child.
- WorkLoop.RenderRoot: stops once `root.finishedWork` is set. Its final `commitRoot(root)` call (`workLoop.ts:53`) is `WorkLoop.CommitRoot`, stated separately. No single method chains the two.
- WorkLoop.ScheduleUpdateOnFiber: renders the root, but does not go on to commit, for the same reason.
- HostConfig.NoopHost.CommitTextUpdate: states only the text-instance case. On any other instance, `commitUpdate` of the noop host changes nothing, and the method leaves it unchanged.
- FiberHooks.HooksState.MountHook: states how many hooks the call adds and that it does not throw, not the value the hook returns.
- FiberHooks.HooksState.RunHooks: states the hook counts and when the update render throws, not the values the hooks return.
- FiberHooks.HooksState.UpdateTransition: does not state the returned `isPending` value.
- Js.ToJsString: a function converts to the text `function`, not to its source text, and an object to `[object Object]`: a `toString` or `valueOf` of the object's own is not run.
- Js.ToJsString: numbers are integers, so the strings of fractions, `NaN`, `Infinity` and `-0` are not modelled; nor is `Object.is`, which tells `NaN` and `-0` apart.
- **Undeclared flags.** `fiberFlags.ts` declares only `Placement`, `Update`, `ChildDeletion` and `MutationMask`. `PassiveEffect`, `Ref`, `Visibility`, `DidCapture`, `ShouldCapture`, `PassiveMask` and `LayoutMask` are used by the reconciler but declared nowhere in the source; the model gives them the distinct bits 3-7 and the masks built from them. The hook effect tags `HookHasEffect` and `Passive` come from `hookEffectTags.ts`, which is not part of this model; they are the distinct bits 0 and 1 of a separate tag set. Because each is a distinct bit here, the model does not cover real values that would overlap one another.
- Hooks.PrevDepsEqual: previous deps that are neither an array nor `null` or `undefined` are taken to have no `length`, so they compare as equal. That holds for numbers, booleans and symbols. A string, a function, or an object with a `length` of its own would have its entries compared; the model does not read them.
- **Corrected commit steps.** The commit phase (`CommitWork.CommitPlacement`, `CommitDeletion.CommitDeletion` and the walks that call them) runs the corrected placement and the corrected deletion of the first two findings. The placement as written, which appends a non-host fiber's host children, and the deletion as written, which records only later siblings of the first host, are modelled on their own (`CommitWork.PlacementAsWrittenAppendsPastSibling`, `CommitDeletion.RecordHostChildrenToDelete`) but no commit method runs them. Likewise `CommitWork.PlaceHost` calls the corrected `HostConfig.NoopHost.InsertChildBefore` where the code calls `insertChildToContainer` as written. The two agree on every reachable state, since a placed child is never already in its parent's list (`HostConfig.InsertNewChildAsIntended`).
- BeginWork.UpdateFunctionComponent: hands the render lane to the hooks. As written, `beginWork.ts:432` calls `renderWithHooks(wip, Component, renderLane)` while `fiberHooks.ts:59` declares `renderWithHooks(wip, lane)`, so the hooks' render lane (`fiberHooks.ts:65`) is the component function, which `updateState` passes to `processUpdateQueue` (`fiberHooks.ts:240`), and the real lane is dropped. The work loop renders at `NoLane` (see the render lane line above), and a function acts as 0 in a bitwise lane test, but `processUpdateQueue` is a parameter of this model, so the model does not promise that the two agree.
- BeginWork.UpdateMemoComponent: passes the inner component `wip.type.type` (`beginWork.ts:117`), but `renderWithHooks` ignores that argument and calls `wip.type` (`fiberHooks.ts:77`), which for a memo fiber is the memo object and not a function. The model takes the component's render as its hook calls, so it does not model the throw of that call. No fiber of this code reaches the path: `workTags.ts` declares no `MemoComponent`, and `createFiberFromElement` never produces one.
- BeginWork.UpdateFunctionComponent: requires the hooks to be idle (no fiber rendering, both cursors cleared). After a render that threw, the code as written leaves them stale (see the findings), so this call is modelled on the corrected path, `BeginWork.BeginWorkThenUnwind`.
- BeginWork.UpdateMemoComponent: requires the hooks to be idle (no fiber rendering, both cursors cleared). After a render that threw, the code as written leaves them stale (see the findings), so this call is modelled on the corrected path, `BeginWork.BeginWorkThenUnwind`.
- BeginWork.BeginWork: requires the hooks to be idle (no fiber rendering, both cursors cleared). After a render that threw, the code as written leaves them stale (see the findings), so this call is modelled on the corrected path, `BeginWork.BeginWorkThenUnwind`.
- BeginWork.UpdateByTag: requires the hooks to be idle (no fiber rendering, both cursors cleared). After a render that threw, the code as written leaves them stale (see the findings), so this call is modelled on the corrected path, `BeginWork.BeginWorkThenUnwind`.
- BeginWork.UpdateComponentByTag: requires the hooks to be idle (no fiber rendering, both cursors cleared). After a render that threw, the code as written leaves them stale (see the findings), so this call is modelled on the corrected path, `BeginWork.BeginWorkThenUnwind`.
- BeginWork.UpdateHostByTag: requires the hooks to be idle (no fiber rendering, both cursors cleared). After a render that threw, the code as written leaves them stale (see the findings), so this call is modelled on the corrected path, `BeginWork.BeginWorkThenUnwind`.
- BeginWork.DispatchComponent: requires the hooks to be idle (no fiber rendering, both cursors cleared). After a render that threw, the code as written leaves them stale (see the findings), so this call is modelled on the corrected path, `BeginWork.BeginWorkThenUnwind`.
- FiberHooks.HooksState.RenderWithHooks: requires both cursors cleared. A stale fiber left rendering by a render that threw is allowed, but stale cursors are modelled only by `FiberHooks.HooksState.BeginRender`.
- **Ghost preconditions.** The tree walks require a ghost `FiberTree.Tree` that the links span, and that the tree has no cycles. The source assumes a well-formed fiber tree, and the model makes that assumption explicit. A cyclic link structure, on which the JavaScript would loop forever, is outside the model.

## Findings

| source | as written | input that shows it | evidently intended | confidence | as-written member | corrected member |
|---|---|---|---|---|---|---|
| packages/react-reconciler/src/commitWork.ts:502-506 | when the placed fiber is not a host, its host descendants are placed with no `before`, so they are appended | a placed function component whose host child is instance 7, placed before the host sibling 5 in a parent holding `[5]`: the result is `[5, 7]` | the descendants are inserted before the same host sibling: `[7, 5]` | not executed | CommitWork.PlacementAsWrittenAppendsPastSibling | CommitWork.InsertOrAppendPlacementNode |
| packages/react-reconciler/src/commitWork.ts:302-320 | after the first host found, only hosts that are later siblings of it are recorded for removal | a deleted function component 1 whose children are a `div` 2 and a function component 3, where 3 renders a `p` 4: only 2 is recorded, and 4 stays in the host parent | every top-level host node of the deleted subtree is removed: `[2, 4]` | not executed | CommitDeletion.DeletionAsWrittenMissesNestedHost | CommitDeletion.CollectHostChildrenToDelete |
| packages/react-noop-renderer/src/hostConfig.ts:75-83 | the index of `before` is taken before the child is removed from the array | moving child 0 before child 1 in `[0, 1]` gives `[1, 0]` | the child ends up in front of `before`: `[0, 1]` | not executed | HostConfig.InsertBeforeAsWrittenMisplaces | HostConfig.InsertBefore |
| packages/react/src/jsx.ts:49 | the ref branch tests `props === 'ref'`, comparing the props object with a string, which never holds | a config `{ref: f}`: the element's ref is `null` and `props.ref` is `f` | the element's ref is `f`, and `ref` is not copied into props | not executed | Jsx.JsxDropsRef | Jsx.JsxCorrected |
| packages/react-reconciler/src/fiberHooks.ts:79-85 | the hook cursors are reset only after `Component(props)` returns; when it throws, the work loop's catch (`workLoop.ts:41-46`) only clears `workInProgress`, and `resetHooksOnUnwind` (`fiberHooks.ts:452-456`) is never called | an update render of a component that throws "Rendered more hooks" after its first hook, followed by the next render of a function component: that render starts with the old `workInProgressHook`, so its first hook is chained onto the previous fiber's list and its own list stays empty | the cursors are reset when the fiber's work throws, so every render starts from idle hooks | not executed | FiberHooks.HooksState.BeginRender | BeginWork.BeginWorkThenUnwind |
