/**
 * Hooks, effects and state updates as values, and the facts about the
 * render cursors that the hooks code keeps.
 *
 * Effects and updates live in arenas addressed by id, and their `next`
 * links are ids.  A fiber's hook list is a sequence named by the id of its
 * first hook, which is what the fiber's `memoizedState` holds; a hook's
 * `next` is the one after it in that sequence.
 */
module Hooks {
  import opened Wrappers
  import opened Js
  import opened FiberFlags
  import opened HookEffectTags
  import opened Lanes
  import opened Fiber
  import opened DidReceiveUpdate
  import FiberContext
  import UQ = UpdateQueue

  type QueueId = nat
  type UpdateId = nat

  const HooksOutsideComponent: string := "hooks can only be used in the context of function component"
  const MoreHooksThanBefore: string := "Rendered more hooks than during the previous render."

  /** A hook's `memoizedState`: a value (state, ref object, transition starter) or the effect of an effect hook. */
  datatype HookValue = Value(value: JsValue) | EffectOf(effect: EffectId)

  datatype Hook = Hook(memoizedState: HookValue, updateQueue: Option<QueueId>, baseState: JsValue, baseQueue: Option<UpdateId>)

  /** The hook `mountWorkInProgressHook` allocates: everything `null`. */
  const NewHook: Hook := Hook(Value(Null), None, Null, None)

  /** Where a hook sits: the list it belongs to, named by that list's first hook, and its position in it. */
  datatype HookPos = HookPos(list: HookId, index: nat)

  /** `deps` is `null` or an array of values. */
  datatype Effect = Effect(tag: Flags, create: JsValue, destroy: JsValue, deps: Option<seq<JsValue>>, next: Option<EffectId>)

  /** An update of a state hook: a node of the circular list its queue and base queue point into. */
  datatype RingUpdate = RingUpdate(action: UQ.Action<JsValue>, lane: Lane, next: UpdateId)

  /** A state hook's queue: `shared.pending`, the newest update of a ring, and the bound `dispatch`. */
  datatype HookQueue = HookQueue(pending: Option<UpdateId>, dispatch: JsValue)

  ghost predicate Distinct<T>(s: seq<T>)
  {
    forall i, j | 0 <= i < j < |s| :: s[i] != s[j]
  }

  // ---------------------------------------------------------------------
  // Circular lists

  /** `last` is the newest node of a ring that holds `ring` in order: each node's `next` is the one after it, and the last one's is the first. */
  ghost predicate UpdateRing(updates: map<UpdateId, RingUpdate>, last: UpdateId, ring: seq<UpdateId>)
  {
    |ring| > 0 && ring[|ring| - 1] == last && Distinct(ring) &&
    (forall i | 0 <= i < |ring| :: ring[i] in updates) &&
    (forall i {:trigger updates[ring[i]]} | 0 <= i < |ring| - 1 :: updates[ring[i]].next == ring[i + 1]) &&
    updates[last].next == ring[0]
  }

  /** The links the join in `updateState` writes: the base's last node points at the pending first, the pending last at the base first. */
  function JoinRings(updates: map<UpdateId, RingUpdate>, baseLast: UpdateId, pendingLast: UpdateId): (r: map<UpdateId, RingUpdate>)
    requires baseLast in updates && pendingLast in updates
    ensures r.Keys == updates.Keys
  {
    var baseFirst := updates[baseLast].next;
    var pendingFirst := updates[pendingLast].next;
    updates[baseLast := updates[baseLast].(next := pendingFirst)][pendingLast := updates[pendingLast].(next := baseFirst)]
  }

  /** Joining two disjoint rings gives one ring: the base updates in order, then the pending ones, with the newest pending update last. */
  lemma JoinRingsConcatenates(updates: map<UpdateId, RingUpdate>, baseLast: UpdateId, base: seq<UpdateId>,
                              pendingLast: UpdateId, pending: seq<UpdateId>)
    requires UpdateRing(updates, baseLast, base) && UpdateRing(updates, pendingLast, pending)
    requires forall i, j | 0 <= i < |base| && 0 <= j < |pending| :: base[i] != pending[j]
    ensures UpdateRing(JoinRings(updates, baseLast, pendingLast), pendingLast, base + pending)
  {
    var r := JoinRings(updates, baseLast, pendingLast);
    var joined := base + pending;
    assert baseLast != pendingLast by {
      assert base[|base| - 1] == baseLast && pending[|pending| - 1] == pendingLast;
    }
    forall i | 0 <= i < |joined| - 1
      ensures r[joined[i]].next == joined[i + 1]
    {
      if i < |base| - 1 {
        assert joined[i] == base[i] && joined[i + 1] == base[i + 1];
        assert base[i] != baseLast && base[i] != pendingLast;
      } else if i == |base| - 1 {
        assert joined[i] == baseLast && joined[i + 1] == pending[0];
      } else {
        var j := i - |base|;
        assert joined[i] == pending[j] && joined[i + 1] == pending[j + 1];
        assert pending[j] != pendingLast && pending[j] != baseLast;
      }
    }
    assert r[pendingLast].next == joined[0];
    forall i, j | 0 <= i < j < |joined|
      ensures joined[i] != joined[j]
    {
      if j < |base| {
      } else if i >= |base| {
        assert joined[i] == pending[i - |base|] && joined[j] == pending[j - |base|];
      } else {
        assert joined[j] == pending[j - |base|];
      }
    }
  }

  /** `last` is the newest effect of a ring that holds `ring` in order. */
  ghost predicate EffectRing(effects: map<EffectId, Effect>, last: EffectId, ring: seq<EffectId>)
  {
    |ring| > 0 && ring[|ring| - 1] == last && Distinct(ring) &&
    (forall i | 0 <= i < |ring| :: ring[i] in effects) &&
    (forall i {:trigger effects[ring[i]]} | 0 <= i < |ring| - 1 :: effects[ring[i]].next == Some(ring[i + 1])) &&
    effects[last].next == Some(ring[0])
  }

  /** The effects the ring of a function component's `updateQueue` holds, in insertion order. */
  ghost predicate EffectList(effects: map<EffectId, Effect>, queue: FiberQueue, ring: seq<EffectId>)
  {
    match queue
    case NoQueue => ring == []
    case RootQueue(_) => false
    case EffectQueue(lastEffect) => if lastEffect.None? then ring == [] else EffectRing(effects, lastEffect.value, ring)
  }

  /** The effects after `pushEffect` has linked the new effect `e` in behind `last`. */
  function EffectsAfterPush(effects: map<EffectId, Effect>, queue: FiberQueue, e: EffectId, effect: Effect): (r: map<EffectId, Effect>)
    requires queue.EffectQueue? && queue.lastEffect.Some? ==> queue.lastEffect.value in effects
    ensures r.Keys == effects.Keys + {e}
  {
    if queue.EffectQueue? && queue.lastEffect.Some? then
      var last := queue.lastEffect.value;
      effects[last := effects[last].(next := Some(e))][e := effect.(next := effects[last].next)]
    else effects[e := effect.(next := Some(e))]
  }

  /** Pushing a new effect appends it to the ring, whose newest effect it becomes. */
  lemma PushEffectAppends(effects: map<EffectId, Effect>, queue: FiberQueue, ring: seq<EffectId>, e: EffectId, effect: Effect)
    requires EffectList(effects, queue, ring) && e !in effects
    ensures queue.EffectQueue? && queue.lastEffect.Some? ==> queue.lastEffect.value in effects
    ensures EffectRing(EffectsAfterPush(effects, queue, e, effect), e, ring + [e])
    ensures forall x | x in ring :: x in effects
  {
    var r := EffectsAfterPush(effects, queue, e, effect);
    var ring' := ring + [e];
    if ring != [] {
      var last := queue.lastEffect.value;
      forall i | 0 <= i < |ring'| - 1
        ensures r[ring'[i]].next == Some(ring'[i + 1])
      {
        if i < |ring| - 1 {
          assert ring'[i] == ring[i] && ring'[i + 1] == ring[i + 1] && ring[i] != last;
        }
      }
      forall i, j | 0 <= i < j < |ring'|
        ensures ring'[i] != ring'[j]
      {
        if j == |ring| {
          assert ring'[i] == ring[i] && ring[i] in effects;
        }
      }
    }
    forall x | x in ring
      ensures x in effects
    {
      var i :| 0 <= i < |ring| && ring[i] == x;
    }
  }

  // ---------------------------------------------------------------------
  // Effect dependencies

  /** The dependencies count as unchanged when both lists exist and agree, by `Object.is`, wherever both have an entry. */
  predicate HookInputsEqual(nextDeps: Option<seq<JsValue>>, prevDeps: Option<seq<JsValue>>)
  {
    nextDeps.Some? && prevDeps.Some? &&
    forall i | 0 <= i < |prevDeps.value| && i < |nextDeps.value| :: ObjectIs(prevDeps.value[i], nextDeps.value[i])
  }

  /** `areHookInputsEqual(nextDeps, prevDeps)` */
  method AreHookInputsEqual(nextDeps: Option<seq<JsValue>>, prevDeps: Option<seq<JsValue>>) returns (equal: bool)
    ensures equal == HookInputsEqual(nextDeps, prevDeps)
  {
    if prevDeps.None? || nextDeps.None? {
      return false;
    }
    var prev, next := prevDeps.value, nextDeps.value;
    var i := 0;
    while i < |prev| && i < |next|
      invariant i <= |prev| && i <= |next|
      invariant forall k | 0 <= k < i :: ObjectIs(prev[k], next[k])
    {
      if ObjectIs(prev[i], next[i]) {
        i := i + 1;
        continue;
      }
      return false;
    }
    return true;
  }

  /** Only the common prefix is compared: a list that grew or shrank still counts as unchanged. */
  lemma HookInputsComparePrefix(deps: seq<JsValue>, extra: seq<JsValue>)
    ensures HookInputsEqual(Some(deps + extra), Some(deps))
    ensures HookInputsEqual(Some(deps), Some(deps + extra))
    ensures HookInputsEqual(Some([]), Some(extra))
  {
    ObjectIsReflexiveOn(deps);
    assert forall i | 0 <= i < |deps| :: (deps + extra)[i] == deps[i];
  }

  /** A missing list on either side always counts as changed, even against itself. */
  lemma HookInputsWithoutDeps(deps: Option<seq<JsValue>>)
    ensures !HookInputsEqual(None, deps) && !HookInputsEqual(deps, None)
  {
  }

  /** Every value is `Object.is` itself. */
  lemma ObjectIsReflexiveOn(s: seq<JsValue>)
    ensures forall i | 0 <= i < |s| :: ObjectIs(s[i], s[i])
  {
  }

  /** A dependency that changed its identity makes the lists differ. */
  lemma HookInputsDetectChange(deps: seq<JsValue>, i: nat, v: JsValue)
    requires i < |deps| && !ObjectIs(deps[i], v)
    ensures !HookInputsEqual(Some(deps[i := v]), Some(deps))
  {
    assert !ObjectIs(deps[i], deps[i := v][i]);
  }

  /**
   * What `updateEffect` finds when it reads the current hook's state as an
   * effect and compares the new deps with its `deps`.  An effect gives its own
   * deps; any other value gives its `deps` property, which is `undefined`
   * unless the value is an object holding one.  Reading through `null` or
   * `undefined` throws, and so does `areHookInputsEqual` when deps are given
   * and the previous deps are `undefined`.
   */
  function PrevDepsEqual(state: HookValue, effects: map<EffectId, Effect>, nextDeps: Option<seq<JsValue>>): (r: Result<bool>)
    ensures state.EffectOf? && state.effect in effects ==> r == Ok(HookInputsEqual(nextDeps, effects[state.effect].deps))
    ensures state.Value? && IsNullish(state.value) ==> r == Err(ReadOfUndefined)
    ensures r.Err? ==> r.message == ReadOfUndefined
    ensures r.Ok? && r.value ==> nextDeps.Some?
  {
    match state
    case EffectOf(e) => if e in effects then Ok(HookInputsEqual(nextDeps, effects[e].deps)) else Err(ReadOfUndefined)
    case Value(v) =>
      if IsNullish(v) then Err(ReadOfUndefined)
      else
        var prevDeps := Get(v, "deps");
        if prevDeps.Null? || nextDeps.None? then Ok(false)
        else if prevDeps.Undefined? then Err(ReadOfUndefined)
        else if prevDeps.Arr? then Ok(HookInputsEqual(nextDeps, Some(prevDeps.items)))
        else Ok(true)
  }

  /** The `destroy` that `updateEffect` reads from the current hook's state. */
  function PrevDestroy(state: HookValue, effects: map<EffectId, Effect>): JsValue
  {
    match state
    case EffectOf(e) => if e in effects then effects[e].destroy else Undefined
    case Value(v) => Get(v, "destroy")
  }

  /**
   * A state that is not an effect and has no `deps` of its own, such as a
   * state hook's number or a ref object, met where an effect was: without
   * deps the effect counts as changed, and with deps the comparison throws.
   */
  lemma PrevDepsOfOtherState(v: JsValue, nextDeps: Option<seq<JsValue>>)
    requires !IsNullish(v) && Get(v, "deps") == Undefined
    ensures nextDeps.None? ==> PrevDepsEqual(Value(v), map[], nextDeps) == Ok(false)
    ensures nextDeps.Some? ==> PrevDepsEqual(Value(v), map[], nextDeps) == Err(ReadOfUndefined)
    ensures PrevDestroy(Value(v), map[]) == Get(v, "destroy")
  {
  }

  // ---------------------------------------------------------------------
  // The render cursors

  /** The list of the current fiber of `wip`: its `memoizedState`, and none without a current fiber or hooks. */
  function CurrentFirstHook(fibers: map<FiberId, FiberNode>, wip: FiberId): Option<HookId>
    requires wip in fibers
  {
    var alternate := fibers[wip].alternate;
    if alternate.Some? && alternate.value in fibers && fibers[alternate.value].memoizedState.FirstHook? then
      Some(fibers[alternate.value].memoizedState.hook)
    else None
  }

  /** A function component's `updateQueue`: none yet, or an effect queue whose newest effect, if any, is in the arena. */
  ghost predicate EffectQueueIn(effects: map<EffectId, Effect>, queue: FiberQueue)
  {
    match queue
    case NoQueue => true
    case RootQueue(_) => false
    case EffectQueue(lastEffect) => lastEffect.Some? ==> lastEffect.value in effects
  }

  /** The work-in-progress cursor agrees with the fiber: none and a `null` `memoizedState`, or the last hook of the fiber's list. */
  ghost predicate WipCursor(memoizedState: MemoizedState, lists: map<HookId, seq<Hook>>, workInProgressHook: Option<HookPos>)
  {
    match workInProgressHook
    case None => memoizedState == StateValue(Null)
    case Some(p) => memoizedState == FirstHook(p.list) && p.list in lists && p.index == |lists[p.list]| - 1
  }

  /**
   * While `wip` renders: `workInProgressHook` closes its list, `currentHook`
   * is a hook of its current fiber's list, the two lists differ, and its
   * `updateQueue` is an effect queue whose newest effect is in the arena.
   */
  ghost predicate Cursors(fibers: map<FiberId, FiberNode>, wip: FiberId, lists: map<HookId, seq<Hook>>,
                          workInProgressHook: Option<HookPos>, currentHook: Option<HookPos>,
                          effects: map<EffectId, Effect>)
  {
    wip in fibers && fibers[wip].alternate != Some(wip) &&
    WipCursor(fibers[wip].memoizedState, lists, workInProgressHook) &&
    var current := CurrentFirstHook(fibers, wip);
    (current.Some? ==> current.value in lists && |lists[current.value]| > 0) &&
    (currentHook.Some? ==> current == Some(currentHook.value.list) && currentHook.value.index < |lists[currentHook.value.list]|) &&
    (current.Some? && workInProgressHook.Some? ==> current.value != workInProgressHook.value.list) &&
    EffectQueueIn(effects, fibers[wip].updateQueue)
  }

  /** The current hook after `currentHook`: the first of the current fiber's list, or the next one of its own list. */
  function NextCurrentHook(fibers: map<FiberId, FiberNode>, wip: FiberId, lists: map<HookId, seq<Hook>>, currentHook: Option<HookPos>): Option<HookPos>
    requires wip in fibers && (currentHook.Some? ==> currentHook.value.list in lists)
  {
    match currentHook
    case None => (match CurrentFirstHook(fibers, wip) case None => None case Some(l) => Some(HookPos(l, 0)))
    case Some(p) => if p.index + 1 < |lists[p.list]| then Some(HookPos(p.list, p.index + 1)) else None
  }

  /** The clone `updateWorkInProgressHook` makes of a current hook: every field, and no `next`. */
  function CloneHook(hook: Hook): (r: Hook)
    ensures r.memoizedState == hook.memoizedState && r.updateQueue == hook.updateQueue
    ensures r.baseState == hook.baseState && r.baseQueue == hook.baseQueue
  {
    Hook(hook.memoizedState, hook.updateQueue, hook.baseState, hook.baseQueue)
  }

  /** Starting a fresh list `l` as the fiber's first hook moves the work-in-progress cursor onto it. */
  lemma CursorsAfterFirstHook(fibers: map<FiberId, FiberNode>, fibers': map<FiberId, FiberNode>, wip: FiberId,
                              lists: map<HookId, seq<Hook>>, lists': map<HookId, seq<Hook>>, l: HookId, hook: Hook,
                              currentHook: Option<HookPos>, effects: map<EffectId, Effect>)
    requires Cursors(fibers, wip, lists, None, currentHook, effects) && l !in lists
    requires fibers' == fibers[wip := fibers[wip].(memoizedState := FirstHook(l))] && lists' == lists[l := [hook]]
    ensures Cursors(fibers', wip, lists', Some(HookPos(l, 0)), currentHook, effects)
  {
    assert CurrentFirstHook(fibers', wip) == CurrentFirstHook(fibers, wip);
  }

  /** Putting a hook behind the last one moves the work-in-progress cursor onto it. */
  lemma CursorsAfterNextHook(fibers: map<FiberId, FiberNode>, wip: FiberId,
                             lists: map<HookId, seq<Hook>>, lists': map<HookId, seq<Hook>>, p: HookPos, hook: Hook,
                             currentHook: Option<HookPos>, effects: map<EffectId, Effect>)
    requires Cursors(fibers, wip, lists, Some(p), currentHook, effects)
    requires lists' == lists[p.list := lists[p.list] + [hook]]
    ensures Cursors(fibers, wip, lists', Some(HookPos(p.list, p.index + 1)), currentHook, effects)
  {
  }

  /** Moving the current cursor to the next current hook keeps the cursors. */
  lemma CursorsAfterCurrentMove(fibers: map<FiberId, FiberNode>, wip: FiberId, lists: map<HookId, seq<Hook>>,
                                workInProgressHook: Option<HookPos>, currentHook: Option<HookPos>,
                                effects: map<EffectId, Effect>)
    requires Cursors(fibers, wip, lists, workInProgressHook, currentHook, effects)
    requires NextCurrentHook(fibers, wip, lists, currentHook).Some?
    ensures var next := NextCurrentHook(fibers, wip, lists, currentHook).value;
            next.list in lists && next.index < |lists[next.list]| &&
            Cursors(fibers, wip, lists, workInProgressHook, Some(next), effects)
  {
  }

  /** Rewriting a hook in place keeps the cursors. */
  lemma CursorsAfterHookWrite(fibers: map<FiberId, FiberNode>, wip: FiberId, lists: map<HookId, seq<Hook>>,
                              workInProgressHook: Option<HookPos>, currentHook: Option<HookPos>,
                              effects: map<EffectId, Effect>, p: HookPos, hook: Hook)
    requires Cursors(fibers, wip, lists, workInProgressHook, currentHook, effects)
    requires p.list in lists && p.index < |lists[p.list]|
    ensures Cursors(fibers, wip, lists[p.list := lists[p.list][p.index := hook]], workInProgressHook, currentHook, effects)
  {
  }

  /** Rewriting a fiber keeps the cursors when its alternate, its hooks and, for `wip`, its effect queue stay. */
  lemma CursorsAfterFiberWrite(fibers: map<FiberId, FiberNode>, wip: FiberId, lists: map<HookId, seq<Hook>>,
                               workInProgressHook: Option<HookPos>, currentHook: Option<HookPos>,
                               effects: map<EffectId, Effect>, id: FiberId, node: FiberNode)
    requires Cursors(fibers, wip, lists, workInProgressHook, currentHook, effects)
    requires id in fibers && node.alternate == fibers[id].alternate && node.memoizedState == fibers[id].memoizedState
    requires id == wip ==> node.updateQueue == fibers[id].updateQueue
    ensures Cursors(fibers[id := node], wip, lists, workInProgressHook, currentHook, effects)
  {
    assert CurrentFirstHook(fibers[id := node], wip) == CurrentFirstHook(fibers, wip);
  }

  /** Pushing an effect onto the fiber's queue keeps the cursors, with the effect at the end of the ring. */
  lemma CursorsAfterPushEffect(fibers: map<FiberId, FiberNode>, wip: FiberId, lists: map<HookId, seq<Hook>>,
                               workInProgressHook: Option<HookPos>, currentHook: Option<HookPos>,
                               effects: map<EffectId, Effect>, e: EffectId, effect: Effect)
    requires Cursors(fibers, wip, lists, workInProgressHook, currentHook, effects) && e !in effects
    ensures var queue := fibers[wip].updateQueue;
            (queue.EffectQueue? && queue.lastEffect.Some? ==> queue.lastEffect.value in effects) &&
            Cursors(fibers[wip := fibers[wip].(updateQueue := EffectQueue(Some(e)))], wip, lists, workInProgressHook, currentHook,
                    EffectsAfterPush(effects, queue, e, effect))
  {
    assert CurrentFirstHook(fibers[wip := fibers[wip].(updateQueue := EffectQueue(Some(e)))], wip) == CurrentFirstHook(fibers, wip);
  }

  /** The `k`-th hook of the work-in-progress list is the clone of the `k`-th hook of the current list. */
  predicate Aligned(workInProgressHook: Option<HookPos>, currentHook: Option<HookPos>)
  {
    match (workInProgressHook, currentHook)
    case (None, None) => true
    case (Some(w), Some(c)) => w.index == c.index
    case _ => false
  }

  /** The hooks of the current fiber of `wip`: none without a current fiber that has hooks. */
  ghost function CurrentCount(fibers: map<FiberId, FiberNode>, wip: FiberId, lists: map<HookId, seq<Hook>>): nat
    requires wip in fibers
  {
    var current := CurrentFirstHook(fibers, wip);
    if current.Some? && current.value in lists then |lists[current.value]| else 0
  }

  /** A step of the render kept the current fiber's hook list where it was and as long as it was. */
  ghost predicate CurrentKept(fibers: map<FiberId, FiberNode>, lists: map<HookId, seq<Hook>>,
                              fibers': map<FiberId, FiberNode>, lists': map<HookId, seq<Hook>>, wip: FiberId)
  {
    wip in fibers && wip in fibers' && CurrentFirstHook(fibers', wip) == CurrentFirstHook(fibers, wip) &&
    CurrentCount(fibers', wip, lists') == CurrentCount(fibers, wip, lists)
  }

  /** How many hooks the work-in-progress list holds up to and including the cursor. */
  function Total(workInProgressHook: Option<HookPos>): nat
  {
    match workInProgressHook
    case None => 0
    case Some(p) => p.index + 1
  }

  /** Only the fiber `wip` was rewritten, and it kept its alternate. */
  ghost predicate OnlyWipChanged(fibers: map<FiberId, FiberNode>, fibers': map<FiberId, FiberNode>, wip: FiberId)
  {
    wip in fibers && wip in fibers' && fibers' == fibers[wip := fibers'[wip]] && fibers'[wip].alternate == fibers[wip].alternate
  }

  /**
   * What `processUpdateQueue(baseState, baseQueue, renderLane, onSkip)`
   * gives back: the new state, the new base state and base queue, and the
   * lanes of the updates it skipped, which `onSkip` merges into the fiber.
   */
  datatype Processed = Processed(memoizedState: JsValue, baseState: JsValue, baseQueue: Option<UpdateId>, skipped: Lanes)

  /** `processUpdateQueue` over the update arena: the base state, the newest update of the base ring, and the render lane. */
  type Process = (map<UpdateId, RingUpdate>, JsValue, UpdateId, Lane) -> Processed

  /** The hook at `p` is a state hook: it holds a value and a queue that is in the arena. */
  ghost predicate StateHookAt(lists: map<HookId, seq<Hook>>, queues: map<QueueId, HookQueue>, p: HookPos)
  {
    p.list in lists && p.index < |lists[p.list]| &&
    var hook := lists[p.list][p.index];
    hook.memoizedState.Value? && hook.updateQueue.Some? && hook.updateQueue.value in queues
  }

  /** Joining a pending ring onto a base ring needs both newest updates in the arena. */
  predicate JoinDangling(updates: map<UpdateId, RingUpdate>, pending: Option<UpdateId>, baseQueue: Option<UpdateId>)
  {
    pending.Some? && baseQueue.Some? && (pending.value !in updates || baseQueue.value !in updates)
  }

  // ---------------------------------------------------------------------
  // A render's hook calls

  /** A hook call a function component makes while it renders, with the results of the user code it runs. */
  datatype HookCall =
    | UseState(initialState: JsValue, initializerResult: JsValue)
    | UseEffect(create: JsValue, deps: Option<seq<JsValue>>)
    | UseTransition
    | UseRef(initialValue: JsValue)
    | UseContext(context: Ref)

  /** What a hook call returns: a pair (`[state, dispatch]`, `[isPending, start]`), a value, or nothing (an effect was pushed). */
  datatype HookResult = Pair(first: JsValue, second: JsValue) | Single(value: JsValue) | Pushed(effect: EffectId)

  /** How many hooks a call puts on the fiber's list: a transition two, a context read none. */
  function HookCount(call: HookCall): nat
  {
    match call
    case UseTransition => 2
    case UseContext(_) => 0
    case _ => 1
  }

  /** How many hooks a sequence of calls puts on the list. */
  function HooksUsed(calls: seq<HookCall>): nat
  {
    if |calls| == 0 then 0 else HooksUsed(calls[..|calls| - 1]) + HookCount(calls[|calls| - 1])
  }

  /** One more call adds its own hooks to those of the calls before it. */
  lemma HooksUsedStep(calls: seq<HookCall>, i: nat)
    requires i < |calls|
    ensures HooksUsed(calls[..i + 1]) == HooksUsed(calls[..i]) + HookCount(calls[i])
  {
    assert calls[..i + 1][..i] == calls[..i];
  }

  /** The calls up to any point use no more hooks than all of them. */
  lemma {:induction false} HooksUsedGrows(calls: seq<HookCall>, i: nat)
    requires i <= |calls|
    ensures HooksUsed(calls[..i]) <= HooksUsed(calls)
    decreases |calls| - i
  {
    if i < |calls| {
      HooksUsedStep(calls, i);
      HooksUsedGrows(calls, i + 1);
      assert calls[..|calls|] == calls;
    } else {
      assert calls[..i] == calls;
    }
  }

  /** The length of the hook list a fiber's `memoizedState` names; none for a `null` state. */
  ghost function ListLength(memoizedState: MemoizedState, lists: map<HookId, seq<Hook>>): nat
  {
    if memoizedState.FirstHook? && memoizedState.hook in lists then |lists[memoizedState.hook]| else 0
  }

  /**
   * With the cursors aligned, the current list has run out exactly when the
   * work-in-progress list already has as many hooks as the current one, and
   * it never has more.
   */
  lemma NextCurrentHookAtCount(fibers: map<FiberId, FiberNode>, wip: FiberId, lists: map<HookId, seq<Hook>>,
                               workInProgressHook: Option<HookPos>, currentHook: Option<HookPos>, effects: map<EffectId, Effect>)
    requires Cursors(fibers, wip, lists, workInProgressHook, currentHook, effects) && Aligned(workInProgressHook, currentHook)
    ensures Total(workInProgressHook) <= CurrentCount(fibers, wip, lists)
    ensures NextCurrentHook(fibers, wip, lists, currentHook).None? <==> Total(workInProgressHook) == CurrentCount(fibers, wip, lists)
  {
    if currentHook.Some? {
      assert CurrentFirstHook(fibers, wip) == Some(currentHook.value.list);
    }
  }

  /** The work-in-progress list has as many hooks as the cursor has passed. */
  lemma ListLengthIsTotal(memoizedState: MemoizedState, lists: map<HookId, seq<Hook>>, workInProgressHook: Option<HookPos>)
    requires WipCursor(memoizedState, lists, workInProgressHook)
    ensures ListLength(memoizedState, lists) == Total(workInProgressHook)
  {
  }

  /** A fiber with the fields a hook writes blanked out: `memoizedState`, `updateQueue`, `flags` and `lanes`. */
  function Shape(f: FiberNode): FiberNode
  {
    f.(memoizedState := StateValue(Null), updateQueue := NoQueue, flags := NoFlags, lanes := NoLanes)
  }

  /** The hooks of a render changed no fiber but `wip`, and of `wip` only the fields a hook writes. */
  ghost predicate HooksFramed(fibers: map<FiberId, FiberNode>, fibers': map<FiberId, FiberNode>, wip: FiberId)
  {
    fibers'.Keys == fibers.Keys && (forall id | id in fibers && id != wip :: fibers'[id] == fibers[id]) &&
    (wip in fibers ==> Shape(fibers'[wip]) == Shape(fibers[wip]))
  }

  lemma HooksFramedTrans(f0: map<FiberId, FiberNode>, f1: map<FiberId, FiberNode>, f2: map<FiberId, FiberNode>, wip: FiberId)
    requires HooksFramed(f0, f1, wip) && HooksFramed(f1, f2, wip)
    ensures HooksFramed(f0, f2, wip)
  {
  }

  lemma CurrentKeptTrans(f0: map<FiberId, FiberNode>, l0: map<HookId, seq<Hook>>, f1: map<FiberId, FiberNode>, l1: map<HookId, seq<Hook>>,
                         f2: map<FiberId, FiberNode>, l2: map<HookId, seq<Hook>>, wip: FiberId)
    requires CurrentKept(f0, l0, f1, l1, wip) && CurrentKept(f1, l1, f2, l2, wip)
    ensures CurrentKept(f0, l0, f2, l2, wip)
  {
  }

}

/**
 * Hooks of function components: the module-level cursors of the hooks code
 * (`currentlyRenderingFiber`, `workInProgressHook`, `currentHook`,
 * `renderLane`) and the hook, effect and update arenas they point into are
 * the fields of one `HooksState` object.
 */
module FiberHooks {
  import opened Wrappers
  import opened Scheduler
  import opened Js
  import opened FiberFlags
  import opened HookEffectTags
  import opened Lanes
  import opened Fiber
  import opened DidReceiveUpdate
  import opened Hooks
  import FiberContext
  import UQ = UpdateQueue

  // ---------------------------------------------------------------------
  // Bailout

  /**
   * `bailoutHook(wip, renderLane)` on the arena: the work-in-progress fiber
   * takes its current fiber's queue and drops `PassiveEffect`, and the
   * current fiber's lanes lose the render lane.
   */
  function BailedOut(fibers: map<FiberId, FiberNode>, wip: FiberId, renderLane: Lane): (r: map<FiberId, FiberNode>)
    requires wip in fibers && fibers[wip].alternate.Some? && fibers[wip].alternate.value in fibers
    requires fibers[wip].alternate.value != wip
    ensures var current := fibers[wip].alternate.value;
            r.Keys == fibers.Keys &&
            r[wip] == fibers[wip].(updateQueue := fibers[current].updateQueue, flags := r[wip].flags) &&
            !HasFlag(r[wip].flags, PassiveEffect) && r[wip].flags | PassiveEffect == fibers[wip].flags | PassiveEffect &&
            r[current] == fibers[current].(lanes := r[current].lanes) &&
            !IncludeSomeLanes(r[current].lanes, renderLane) && IsSubsetOfLanes(fibers[current].lanes, r[current].lanes) &&
            IsSubsetOfLanes(MergeLanes(r[current].lanes, renderLane), fibers[current].lanes) &&
            forall id | id in fibers && id != wip && id != current :: r[id] == fibers[id]
  {
    var current := fibers[wip].alternate.value;
    var w := fibers[wip];
    var c := fibers[current];
    fibers[wip := w.(updateQueue := c.updateQueue, flags := w.flags & !PassiveEffect)]
          [current := c.(lanes := RemoveLanes(c.lanes, renderLane))]
  }

  /** `bailoutHook(wip, renderLane)` */
  method BailoutHook(store: FiberStore, wip: FiberId, renderLane: Lane)
    requires store.Valid() && AlternatesPaired(store.fibers) && wip in store.fibers && store.fibers[wip].alternate.Some?
    modifies store`fibers
    ensures store.Valid() && AlternatesPaired(store.fibers)
    ensures store.fibers == BailedOut(old(store.fibers), wip, renderLane)
  {
    var current := store.fibers[wip].alternate.value;
    var w := store.fibers[wip];
    store.SetFiber(wip, w.(updateQueue := store.fibers[current].updateQueue, flags := w.flags & !PassiveEffect));
    var c := store.fibers[current];
    store.SetFiber(current, c.(lanes := RemoveLanes(c.lanes, renderLane)));
  }


  // ---------------------------------------------------------------------
  // Transitions

  /** `ReactCurrentBatchConfig`: `transition` is set while updates belong to a transition. */
  class BatchConfig {
    var transition: Option<int>

    constructor ()
      ensures transition.None?
    {
      transition := None;
    }
  }

  /** A step of `startTransition`: a call of `setPending` with the lane its update requests, or the user's callback. */
  datatype TransitionStep = SetPending(isPending: bool, lane: Lane) | RunCallback(transition: Option<int>)

  /**
   * The steps of `startTransition` from a batch config holding `transition`:
   * `isPending` becomes true in the lane the caller's context gives, the
   * callback runs inside the transition, and `isPending` becomes false in
   * the transition's lane.
   */
  function TransitionSteps(transition: Option<int>, priority: SchedulerPriority): seq<TransitionStep>
  {
    [SetPending(true, RequestUpdateLanes(transition, priority)), RunCallback(Some(1)), SetPending(false, RequestUpdateLanes(Some(1), priority))]
  }

  /**
   * Started outside a transition from a discrete or continuous event or by
   * default, the `true` update takes a more urgent lane than the `false`
   * one, which waits with the callback's updates in the transition lane.
   */
  lemma PendingShowsFirst(priority: SchedulerPriority)
    requires priority in {ImmediatePriority, UserBlockingPriority, NormalPriority}
    ensures var steps := TransitionSteps(None, priority);
            steps[2].lane == TransitionLane && steps[0].lane != NoLane &&
            steps[0].lane < steps[2].lane && GetHighestPriorityLane(steps[0].lane | steps[2].lane) == steps[0].lane
  {
    var lane := SchedulerPriorityToLane(priority);
    assert lane in {SyncLane, InputContinuousLane, DefaultLane};
  }

  /** `startTransition(setPending, callback)`, with the scheduler's current level as a parameter. */
  method StartTransition(config: BatchConfig, priority: SchedulerPriority) returns (steps: seq<TransitionStep>)
    modifies config
    ensures steps == TransitionSteps(old(config.transition), priority)
    ensures config.transition == old(config.transition)
  {
    steps := [SetPending(true, RequestUpdateLanes(config.transition, priority))];
    var prevTransition := config.transition;
    config.transition := Some(1);
    steps := steps + [RunCallback(config.transition)];
    steps := steps + [SetPending(false, RequestUpdateLanes(config.transition, priority))];
    config.transition := prevTransition;
  }


  class HooksState {
    var currentlyRenderingFiber: Option<FiberId>
    var workInProgressHook: Option<HookPos>
    var currentHook: Option<HookPos>
    var renderLane: Lane
    var lists: map<HookId, seq<Hook>>
    var nextHook: HookId
    var effects: map<EffectId, Effect>
    var nextEffect: EffectId
    var updates: map<UpdateId, RingUpdate>
    var queues: map<QueueId, HookQueue>
    var nextQueue: QueueId

    /** The arenas hand out fresh ids, and the cursors are set exactly while a fiber renders. */
    ghost predicate Valid(store: FiberStore)
      reads this, store
    {
      Fresh() &&
      (currentlyRenderingFiber.None? ==> workInProgressHook.None? && currentHook.None?) &&
      (currentlyRenderingFiber.Some? ==>
         Cursors(store.fibers, currentlyRenderingFiber.value, lists, workInProgressHook, currentHook, effects))
    }

    /** The arenas hand out fresh ids: every hook list, effect and queue has an id below the next one. */
    ghost predicate Fresh()
      reads this
    {
      (forall l | l in lists :: l < nextHook) && (forall e | e in effects :: e < nextEffect) &&
      (forall q | q in queues :: q < nextQueue)
    }

    /** Between renders: fresh ids ahead of the arenas and no fiber rendering, whatever the fiber arena holds. */
    ghost predicate Idle()
      reads this
    {
      Fresh() && currentlyRenderingFiber.None? && workInProgressHook.None? && currentHook.None?
    }

    lemma IdleValid(store: FiberStore)
      ensures Idle() <==> Valid(store) && currentlyRenderingFiber.None?
    {
    }

    /** The module's state before any render. */
    constructor ()
      ensures currentlyRenderingFiber.None? && workInProgressHook.None? && currentHook.None? && renderLane == NoLane
      ensures lists == map[] && effects == map[] && updates == map[] && queues == map[]
      ensures forall store: FiberStore :: Valid(store)
    {
      currentlyRenderingFiber, workInProgressHook, currentHook, renderLane := None, None, None, NoLane;
      lists, nextHook, effects, nextEffect, updates, queues, nextQueue := map[], 0, map[], 0, map[], map[], 0;
    }

    /** The first hook of a render starts a fresh list, which becomes the fiber's `memoizedState`. */
    method AppendFirstHook(store: FiberStore, hook: Hook) returns (pos: HookPos)
      requires store.Valid() && Valid(store) && currentlyRenderingFiber.Some? && workInProgressHook.None?
      modifies this`lists, this`nextHook, this`workInProgressHook, store`fibers
      ensures store.Valid() && Valid(store) && workInProgressHook == Some(pos)
      ensures pos.list !in old(lists) && pos.index == 0 && lists == old(lists)[pos.list := [hook]]
      ensures var wip := currentlyRenderingFiber.value;
              store.fibers == old(store.fibers)[wip := old(store.fibers)[wip].(memoizedState := FirstHook(pos.list))]
      ensures currentlyRenderingFiber.Some? ==> HooksFramed(old(store.fibers), store.fibers, currentlyRenderingFiber.value)
    {
      var wip := currentlyRenderingFiber.value;
      ghost var fibers0, lists0 := store.fibers, lists;
      pos := HookPos(nextHook, 0);
      CursorsAfterFirstHook(fibers0, fibers0[wip := fibers0[wip].(memoizedState := FirstHook(pos.list))], wip,
                            lists0, lists0[pos.list := [hook]], pos.list, hook, currentHook, effects);
      nextHook := nextHook + 1;
      lists := lists[pos.list := [hook]];
      store.SetFiber(wip, store.fibers[wip].(memoizedState := FirstHook(pos.list)));
      workInProgressHook := Some(pos);
    }

    /** A later hook goes behind the work-in-progress hook, in the same list. */
    method AppendNextHook(store: FiberStore, hook: Hook) returns (pos: HookPos)
      requires Valid(store) && currentlyRenderingFiber.Some? && workInProgressHook.Some?
      modifies this`lists, this`workInProgressHook
      ensures Valid(store) && workInProgressHook == Some(pos)
      ensures pos == HookPos(old(workInProgressHook).value.list, old(workInProgressHook).value.index + 1)
      ensures lists == old(lists)[pos.list := old(lists)[pos.list] + [hook]]
    {
      var last := workInProgressHook.value;
      pos := HookPos(last.list, last.index + 1);
      CursorsAfterNextHook(store.fibers, currentlyRenderingFiber.value, lists, lists[pos.list := lists[pos.list] + [hook]],
                           last, hook, currentHook, effects);
      lists := lists[pos.list := lists[pos.list] + [hook]];
      workInProgressHook := Some(pos);
    }

    /** Puts `hook` behind the work-in-progress hook; the first one starts a fresh list that becomes the fiber's `memoizedState`. */
    method AppendHook(store: FiberStore, hook: Hook) returns (pos: HookPos)
      requires store.Valid() && Valid(store) && currentlyRenderingFiber.Some?
      modifies this`lists, this`nextHook, this`workInProgressHook, store`fibers
      ensures store.Valid() && Valid(store) && workInProgressHook == Some(pos)
      ensures var wip := currentlyRenderingFiber.value;
              old(workInProgressHook).None? ==>
                pos.list !in old(lists) && pos.index == 0 && lists == old(lists)[pos.list := [hook]] &&
                store.fibers == old(store.fibers)[wip := old(store.fibers)[wip].(memoizedState := FirstHook(pos.list))]
      ensures old(workInProgressHook).Some? ==>
                pos == HookPos(old(workInProgressHook).value.list, old(workInProgressHook).value.index + 1) &&
                lists == old(lists)[pos.list := old(lists)[pos.list] + [hook]] && store.fibers == old(store.fibers)
      ensures currentlyRenderingFiber.Some? ==> HooksFramed(old(store.fibers), store.fibers, currentlyRenderingFiber.value)
    {
      if workInProgressHook.None? {
        pos := AppendFirstHook(store, hook);
      } else {
        pos := AppendNextHook(store, hook);
      }
    }

    /** `mountWorkInProgressHook()`: a `null` hook behind the last one, outside a component an error. */
    method MountWorkInProgressHook(store: FiberStore) returns (r: Result<HookPos>)
      requires store.Valid() && Valid(store)
      modifies this`lists, this`nextHook, this`workInProgressHook, store`fibers
      ensures store.Valid() && Valid(store)
      ensures r.Err? <==> old(currentlyRenderingFiber).None?
      ensures r.Err? ==> r.message == HooksOutsideComponent && lists == old(lists) && store.fibers == old(store.fibers)
      ensures r.Ok? ==> workInProgressHook == Some(r.value) && r.value.list in lists && r.value.index < |lists[r.value.list]|
      ensures r.Ok? && old(workInProgressHook).None? ==>
                var wip := currentlyRenderingFiber.value;
                r.value.list !in old(lists) && r.value.index == 0 && lists == old(lists)[r.value.list := [NewHook]] &&
                store.fibers == old(store.fibers)[wip := old(store.fibers)[wip].(memoizedState := FirstHook(r.value.list))]
      ensures r.Ok? && old(workInProgressHook).Some? ==>
                r.value == HookPos(old(workInProgressHook).value.list, old(workInProgressHook).value.index + 1) &&
                lists == old(lists)[r.value.list := old(lists)[r.value.list] + [NewHook]] && store.fibers == old(store.fibers)
      ensures r.Ok? ==> Total(workInProgressHook) == Total(old(workInProgressHook)) + 1 &&
                        CurrentKept(old(store.fibers), old(lists), store.fibers, lists, currentlyRenderingFiber.value)
      ensures currentlyRenderingFiber.Some? ==> HooksFramed(old(store.fibers), store.fibers, currentlyRenderingFiber.value)
    {
      if currentlyRenderingFiber.None? {
        return Err(HooksOutsideComponent);
      }
      var pos := AppendHook(store, NewHook);
      r := Ok(pos);
    }

    /** Moves `currentHook` to the next current hook, when there is one. */
    method AdvanceCurrentHook(store: FiberStore) returns (next: Option<HookPos>)
      requires Valid(store) && currentlyRenderingFiber.Some?
      modifies this`currentHook
      ensures Valid(store)
      ensures next == NextCurrentHook(store.fibers, currentlyRenderingFiber.value, lists, old(currentHook))
      ensures next.Some? ==> currentHook == next && next.value.list in lists && next.value.index < |lists[next.value.list]|
      ensures next.None? ==> currentHook == old(currentHook)
    {
      var wip := currentlyRenderingFiber.value;
      next := NextCurrentHook(store.fibers, wip, lists, currentHook);
      if next.Some? {
        CursorsAfterCurrentMove(store.fibers, wip, lists, workInProgressHook, currentHook, effects);
        currentHook := next;
      }
    }

    /**
     * `updateWorkInProgressHook()`: the next hook of the current fiber's list
     * becomes `currentHook` and its clone goes behind the work-in-progress
     * hook; when the current list has no next hook the render has called
     * more hooks than the previous one.
     */
    method UpdateWorkInProgressHook(store: FiberStore) returns (r: Result<HookPos>)
      requires store.Valid() && Valid(store)
      modifies this`lists, this`nextHook, this`workInProgressHook, this`currentHook, store`fibers
      ensures store.Valid() && Valid(store)
      ensures old(currentlyRenderingFiber).None? ==> r == Err(HooksOutsideComponent)
      ensures old(currentlyRenderingFiber).Some? ==>
                var wip := currentlyRenderingFiber.value;
                var next := NextCurrentHook(old(store.fibers), wip, old(lists), old(currentHook));
                (r.Err? <==> next.None?) && (r.Err? ==> r.message == MoreHooksThanBefore) &&
                (r.Ok? ==> currentHook == next && workInProgressHook == Some(r.value) &&
                           lists[r.value.list][r.value.index] == CloneHook(old(lists)[next.value.list][next.value.index]) &&
                           (Aligned(old(workInProgressHook), old(currentHook)) ==> Aligned(workInProgressHook, currentHook)))
      ensures r.Err? ==> lists == old(lists) && store.fibers == old(store.fibers) &&
                         workInProgressHook == old(workInProgressHook) && currentHook == old(currentHook)
      ensures r.Ok? && old(workInProgressHook).None? ==>
                var wip := currentlyRenderingFiber.value;
                r.value.list !in old(lists) && r.value.index == 0 && lists == old(lists)[r.value.list := [lists[r.value.list][0]]] &&
                store.fibers == old(store.fibers)[wip := old(store.fibers)[wip].(memoizedState := FirstHook(r.value.list))]
      ensures r.Ok? && old(workInProgressHook).Some? ==>
                r.value == HookPos(old(workInProgressHook).value.list, old(workInProgressHook).value.index + 1) &&
                lists == old(lists)[r.value.list := old(lists)[r.value.list] + [lists[r.value.list][r.value.index]]] &&
                store.fibers == old(store.fibers)
      ensures currentlyRenderingFiber.Some? ==> CurrentKept(old(store.fibers), old(lists), store.fibers, lists, currentlyRenderingFiber.value)
      ensures currentlyRenderingFiber.Some? ==> HooksFramed(old(store.fibers), store.fibers, currentlyRenderingFiber.value)
    {
      if currentlyRenderingFiber.None? {
        return Err(HooksOutsideComponent);
      }
      var next := AdvanceCurrentHook(store);
      if next.None? {
        return Err(MoreHooksThanBefore);
      }
      var newHook := CloneHook(lists[next.value.list][next.value.index]);
      var pos := AppendHook(store, newHook);
      r := Ok(pos);
    }

    /** `pushEffect(tag, create, destroy, deps)`: a new effect at the end of the fiber's effect ring, which the first push creates. */
    method PushEffect(store: FiberStore, tag: Flags, create: JsValue, destroy: JsValue, deps: Option<seq<JsValue>>) returns (e: EffectId)
      requires store.Valid() && Valid(store) && currentlyRenderingFiber.Some?
      modifies this`effects, this`nextEffect, store`fibers
      ensures store.Valid() && Valid(store)
      ensures var wip := currentlyRenderingFiber.value;
              var queue := old(store.fibers[wip].updateQueue);
              e !in old(effects) && (queue.EffectQueue? && queue.lastEffect.Some? ==> queue.lastEffect.value in old(effects)) &&
              effects == EffectsAfterPush(old(effects), queue, e, Effect(tag, create, destroy, deps, None)) &&
              store.fibers == old(store.fibers)[wip := old(store.fibers[wip]).(updateQueue := EffectQueue(Some(e)))]
      ensures currentlyRenderingFiber.Some? ==> HooksFramed(old(store.fibers), store.fibers, currentlyRenderingFiber.value)
    {
      var wip := currentlyRenderingFiber.value;
      var effect := Effect(tag, create, destroy, deps, None);
      CursorsAfterPushEffect(store.fibers, wip, lists, workInProgressHook, currentHook, effects, nextEffect, effect);
      e := LinkEffect(store.fibers[wip].updateQueue, effect);
      store.SetFiber(wip, store.fibers[wip].(updateQueue := EffectQueue(Some(e))));
    }

    /** The arena part of `pushEffect`: a fresh effect linked in behind the newest one of `queue`, or into a ring of its own. */
    method LinkEffect(queue: FiberQueue, effect: Effect) returns (e: EffectId)
      requires (forall x | x in effects :: x < nextEffect) && EffectQueueIn(effects, queue)
      modifies this`effects, this`nextEffect
      ensures e == old(nextEffect) && nextEffect == e + 1 && (forall x | x in effects :: x < nextEffect)
      ensures effects == EffectsAfterPush(old(effects), queue, e, effect)
    {
      e := nextEffect;
      nextEffect := nextEffect + 1;
      if queue.EffectQueue? && queue.lastEffect.Some? {
        var last := queue.lastEffect.value;
        effects := effects[last := effects[last].(next := Some(e))][e := effect.(next := effects[last].next)];
      } else {
        effects := effects[e := effect.(next := Some(e))];
      }
    }

    /** Rewrites the work-in-progress hook. */
    method WriteWipHook(store: FiberStore, hook: Hook)
      requires Valid(store) && currentlyRenderingFiber.Some? && workInProgressHook.Some?
      modifies this`lists
      ensures Valid(store)
      ensures var p := workInProgressHook.value;
              p.list in old(lists) && p.index < |old(lists)[p.list]| &&
              lists == old(lists)[p.list := old(lists)[p.list][p.index := hook]]
    {
      var p := workInProgressHook.value;
      CursorsAfterHookWrite(store.fibers, currentlyRenderingFiber.value, lists, workInProgressHook, currentHook, effects, p, hook);
      lists := lists[p.list := lists[p.list][p.index := hook]];
    }

    /** `currentlyRenderingFiber.flags |= flag` */
    method MarkFiber(store: FiberStore, flag: Flags)
      requires store.Valid() && Valid(store) && currentlyRenderingFiber.Some?
      modifies store`fibers
      ensures store.Valid() && Valid(store)
      ensures var wip := currentlyRenderingFiber.value;
              wip in old(store.fibers) &&
              store.fibers == old(store.fibers)[wip := old(store.fibers[wip]).(flags := old(store.fibers[wip].flags) | flag)]
      ensures currentlyRenderingFiber.Some? ==> HooksFramed(old(store.fibers), store.fibers, currentlyRenderingFiber.value)
    {
      var wip := currentlyRenderingFiber.value;
      var node := store.fibers[wip].(flags := store.fibers[wip].flags | flag);
      CursorsAfterFiberWrite(store.fibers, wip, lists, workInProgressHook, currentHook, effects, wip, node);
      store.SetFiber(wip, node);
    }

    /**
     * The effect part of `mountEffect` and `updateEffect`: the fiber's flags
     * take `flag` (`PassiveEffect`, or nothing), a new effect is pushed and
     * the work-in-progress hook holds it.
     */
    method EffectHook(store: FiberStore, flag: Flags, tag: Flags, create: JsValue, destroy: JsValue, deps: Option<seq<JsValue>>)
      returns (e: EffectId)
      requires store.Valid() && Valid(store) && currentlyRenderingFiber.Some? && workInProgressHook.Some?
      modifies this`lists, this`effects, this`nextEffect, store`fibers
      ensures store.Valid() && Valid(store)
      ensures var wip := currentlyRenderingFiber.value;
              var p := workInProgressHook.value;
              wip in old(store.fibers) && p.list in old(lists) && p.index < |old(lists)[p.list]| && e !in old(effects)
      ensures var wip := currentlyRenderingFiber.value;
              effects == EffectsAfterPush(old(effects), old(store.fibers[wip].updateQueue), e, Effect(tag, create, destroy, deps, None))
      ensures var wip := currentlyRenderingFiber.value;
              store.fibers == old(store.fibers)[wip := old(store.fibers[wip]).(flags := old(store.fibers[wip].flags) | flag,
                                                                                updateQueue := EffectQueue(Some(e)))]
      ensures var p := workInProgressHook.value;
              lists == old(lists)[p.list := old(lists)[p.list][p.index := old(lists)[p.list][p.index].(memoizedState := EffectOf(e))]]
      ensures CurrentKept(old(store.fibers), old(lists), store.fibers, lists, currentlyRenderingFiber.value)
      ensures currentlyRenderingFiber.Some? ==> HooksFramed(old(store.fibers), store.fibers, currentlyRenderingFiber.value)
    {
      e := FlagAndPush(store, flag, tag, create, destroy, deps);
      var p := workInProgressHook.value;
      WriteWipHook(store, lists[p.list][p.index].(memoizedState := EffectOf(e)));
    }

    /** Flags the fiber with `flag`, then pushes a new effect. */
    method FlagAndPush(store: FiberStore, flag: Flags, tag: Flags, create: JsValue, destroy: JsValue, deps: Option<seq<JsValue>>)
      returns (e: EffectId)
      requires store.Valid() && Valid(store) && currentlyRenderingFiber.Some?
      modifies this`effects, this`nextEffect, store`fibers
      ensures store.Valid() && Valid(store)
      ensures var wip := currentlyRenderingFiber.value;
              wip in old(store.fibers) && e !in old(effects) &&
              effects == EffectsAfterPush(old(effects), old(store.fibers[wip].updateQueue), e, Effect(tag, create, destroy, deps, None)) &&
              store.fibers == old(store.fibers)[wip := old(store.fibers[wip]).(flags := old(store.fibers[wip].flags) | flag,
                                                                                updateQueue := EffectQueue(Some(e)))]
      ensures currentlyRenderingFiber.Some? ==> HooksFramed(old(store.fibers), store.fibers, currentlyRenderingFiber.value)
    {
      var wip := currentlyRenderingFiber.value;
      ghost var f0 := store.fibers;
      MarkFiber(store, flag);
      e := PushEffect(store, tag, create, destroy, deps);
      ghost var flagged := f0[wip].(flags := f0[wip].flags | flag);
      ghost var pushed := f0[wip].(flags := f0[wip].flags | flag, updateQueue := EffectQueue(Some(e)));
      assert flagged.(updateQueue := EffectQueue(Some(e))) == pushed;
      UpdatesCommute(f0, wip, wip + 1, flagged, flagged, pushed);
    }

    /**
     * `mountEffect(create, deps)`: a new hook holding a new effect tagged
     * `Passive | HookHasEffect`, with no destroy callback yet, and the fiber
     * flagged `PassiveEffect`.
     */
    method MountEffect(store: FiberStore, create: JsValue, deps: Option<seq<JsValue>>) returns (r: Result<EffectId>)
      requires store.Valid() && Valid(store)
      modifies this`lists, this`nextHook, this`workInProgressHook, this`effects, this`nextEffect, store`fibers
      ensures store.Valid() && Valid(store)
      ensures r.Err? <==> old(currentlyRenderingFiber).None?
      ensures r.Err? ==> r.message == HooksOutsideComponent && lists == old(lists) && effects == old(effects) && store.fibers == old(store.fibers)
      ensures r.Ok? ==>
                var wip := currentlyRenderingFiber.value;
                wip in old(store.fibers) && workInProgressHook.Some? && Total(workInProgressHook) == Total(old(workInProgressHook)) + 1 &&
                var p := workInProgressHook.value;
                p.list in lists && p.index < |lists[p.list]| && lists[p.list][p.index] == NewHook.(memoizedState := EffectOf(r.value)) &&
                r.value !in old(effects) &&
                effects == EffectsAfterPush(old(effects), old(store.fibers[wip].updateQueue), r.value,
                                            Effect(Passive | HookHasEffect, create, Undefined, deps, None)) &&
                store.fibers[wip].flags == old(store.fibers[wip].flags) | PassiveEffect &&
                store.fibers[wip].updateQueue == EffectQueue(Some(r.value)) &&
                OnlyWipChanged(old(store.fibers), store.fibers, wip)
      ensures r.Ok? ==> CurrentKept(old(store.fibers), old(lists), store.fibers, lists, currentlyRenderingFiber.value)
      ensures currentlyRenderingFiber.Some? ==> HooksFramed(old(store.fibers), store.fibers, currentlyRenderingFiber.value)
    {
      ghost var f0, l0 := store.fibers, lists;
      var h := MountWorkInProgressHook(store);
      if h.Err? {
        return Err(h.message);
      }
      ghost var f1, l1 := store.fibers, lists;
      ghost var wip := currentlyRenderingFiber.value;
      assert l1[h.value.list][h.value.index] == NewHook && Total(workInProgressHook) == Total(old(workInProgressHook)) + 1;
      assert f1[wip].updateQueue == f0[wip].updateQueue && f1[wip].flags == f0[wip].flags;
      var e := EffectHook(store, PassiveEffect, Passive | HookHasEffect, create, Undefined, deps);
      assert lists[h.value.list][h.value.index] == NewHook.(memoizedState := EffectOf(e));
      assert OnlyWipChanged(f0, store.fibers, wip);
      HooksFramedTrans(f0, f1, store.fibers, wip);
      CurrentKeptTrans(f0, l0, f1, l1, store.fibers, lists, wip);
      r := Ok(e);
    }

    /**
     * `updateEffect(create, deps)`: the hook is the clone of the current one,
     * and its new effect keeps the previous effect's destroy callback; it is
     * tagged `Passive | HookHasEffect`, and the fiber flagged
     * `PassiveEffect`, exactly when the dependencies changed.
     */
    method UpdateEffect(store: FiberStore, create: JsValue, deps: Option<seq<JsValue>>) returns (r: Result<EffectId>)
      requires store.Valid() && Valid(store)
      modifies this`lists, this`nextHook, this`workInProgressHook, this`currentHook, this`effects, this`nextEffect, store`fibers
      ensures store.Valid() && Valid(store)
      ensures old(currentlyRenderingFiber).None? ==> r == Err(HooksOutsideComponent)
      ensures old(currentlyRenderingFiber).Some? ==>
                var next := NextCurrentHook(old(store.fibers), currentlyRenderingFiber.value, old(lists), old(currentHook));
                (next.None? <==> r == Err(MoreHooksThanBefore)) && (next.Some? ==> currentHook == next)
      ensures r.Ok? ==>
                Total(workInProgressHook) == Total(old(workInProgressHook)) + 1 &&
                (Aligned(old(workInProgressHook), old(currentHook)) ==> Aligned(workInProgressHook, currentHook)) &&
                CurrentKept(old(store.fibers), old(lists), store.fibers, lists, currentlyRenderingFiber.value)
      ensures old(currentlyRenderingFiber).Some? && Aligned(old(workInProgressHook), old(currentHook)) && r == Err(MoreHooksThanBefore) ==>
                Total(old(workInProgressHook)) + 1 > CurrentCount(old(store.fibers), currentlyRenderingFiber.value, old(lists))
      ensures currentlyRenderingFiber.Some? ==> HooksFramed(old(store.fibers), store.fibers, currentlyRenderingFiber.value)
    {
      if currentlyRenderingFiber.Some? && Aligned(workInProgressHook, currentHook) {
        NextCurrentHookAtCount(store.fibers, currentlyRenderingFiber.value, lists, workInProgressHook, currentHook, effects);
      }
      r := UpdateEffectBody(store, create, deps);
    }

    /** `updateEffect` after the count of the current hooks is known. */
    method UpdateEffectBody(store: FiberStore, create: JsValue, deps: Option<seq<JsValue>>) returns (r: Result<EffectId>)
      requires store.Valid() && Valid(store)
      modifies this`lists, this`nextHook, this`workInProgressHook, this`currentHook, this`effects, this`nextEffect, store`fibers
      ensures store.Valid() && Valid(store)
      ensures old(currentlyRenderingFiber).None? ==> r == Err(HooksOutsideComponent)
      ensures old(currentlyRenderingFiber).Some? ==>
                var next := NextCurrentHook(old(store.fibers), currentlyRenderingFiber.value, old(lists), old(currentHook));
                (next.None? <==> r == Err(MoreHooksThanBefore)) && (next.Some? ==> currentHook == next)
      ensures r.Ok? ==>
                Total(workInProgressHook) == Total(old(workInProgressHook)) + 1 &&
                (Aligned(old(workInProgressHook), old(currentHook)) ==> Aligned(workInProgressHook, currentHook)) &&
                CurrentKept(old(store.fibers), old(lists), store.fibers, lists, currentlyRenderingFiber.value)
      ensures currentlyRenderingFiber.Some? ==> HooksFramed(old(store.fibers), store.fibers, currentlyRenderingFiber.value)
    {
      ghost var f0, l0 := store.fibers, lists;
      var h := UpdateWorkInProgressHook(store);
      if h.Err? {
        return Err(h.message);
      }
      ghost var f1, l1 := store.fibers, lists;
      ghost var wip, cursors := currentlyRenderingFiber.value, (workInProgressHook, currentHook);
      assert currentHook == NextCurrentHook(f0, wip, l0, old(currentHook)) && Total(workInProgressHook) == Total(old(workInProgressHook)) + 1;
      r := UpdateEffectOnHook(store, create, deps);
      assert (workInProgressHook, currentHook) == cursors;
      HooksFramedTrans(f0, f1, store.fibers, wip);
      CurrentKeptTrans(f0, l0, f1, l1, store.fibers, lists, wip);
    }

    /** `prevEffect.deps` read from the current hook's state and compared with `areHookInputsEqual`. */
    method CompareWithPrevious(state: HookValue, nextDeps: Option<seq<JsValue>>) returns (r: Result<bool>)
      ensures r == PrevDepsEqual(state, effects, nextDeps)
    {
      match state
      case EffectOf(id) =>
        if id !in effects {
          return Err(ReadOfUndefined);
        }
        var equal := AreHookInputsEqual(nextDeps, effects[id].deps);
        return Ok(equal);
      case Value(v) =>
        if IsNullish(v) {
          return Err(ReadOfUndefined);
        }
        var prevDeps := Get(v, "deps");
        if prevDeps.Null? || nextDeps.None? {
          return Ok(false);
        }
        if prevDeps.Undefined? {
          return Err(ReadOfUndefined);
        }
        if !prevDeps.Arr? {
          return Ok(true);
        }
        var equal := AreHookInputsEqual(nextDeps, Some(prevDeps.items));
        return Ok(equal);
    }

    /** The part of `updateEffect` after `updateWorkInProgressHook`: compare the dependencies and push. */
    method UpdateEffectOnHook(store: FiberStore, create: JsValue, deps: Option<seq<JsValue>>) returns (r: Result<EffectId>)
      requires store.Valid() && Valid(store) && currentlyRenderingFiber.Some? && workInProgressHook.Some? && currentHook.Some?
      modifies this`lists, this`effects, this`nextEffect, store`fibers
      ensures store.Valid() && Valid(store)
      ensures var wip, c, p := currentlyRenderingFiber.value, currentHook.value, workInProgressHook.value;
              wip in old(store.fibers) && c.list in old(lists) && c.index < |old(lists)[c.list]| &&
              p.list in old(lists) && p.index < |old(lists)[p.list]| &&
              var prevState := old(lists)[c.list][c.index].memoizedState;
              var compared := PrevDepsEqual(prevState, old(effects), deps);
              (r.Err? <==> compared.Err?) &&
              (r.Err? ==> r.message == ReadOfUndefined && lists == old(lists) && effects == old(effects) && store.fibers == old(store.fibers)) &&
              (r.Ok? ==>
                 var changed := !compared.value;
                 effects == EffectsAfterPush(old(effects), old(store.fibers[wip].updateQueue), r.value,
                                             Effect(if changed then Passive | HookHasEffect else Passive, create,
                                                    PrevDestroy(prevState, old(effects)), deps, None)) &&
                 store.fibers == old(store.fibers)[wip := old(store.fibers[wip]).(flags := old(store.fibers[wip].flags) | (if changed then PassiveEffect else NoFlags),
                                                                                   updateQueue := EffectQueue(Some(r.value)))] &&
                 lists == old(lists)[p.list := old(lists)[p.list][p.index := old(lists)[p.list][p.index].(memoizedState := EffectOf(r.value))]])
      ensures CurrentKept(old(store.fibers), old(lists), store.fibers, lists, currentlyRenderingFiber.value)
      ensures currentlyRenderingFiber.Some? ==> HooksFramed(old(store.fibers), store.fibers, currentlyRenderingFiber.value)
    {
      var c := currentHook.value;
      var prevState := lists[c.list][c.index].memoizedState;
      var compared := CompareWithPrevious(prevState, deps);
      if compared.Err? {
        return Err(compared.message);
      }
      var destroy := PrevDestroy(prevState, effects);
      var e;
      if compared.value {
        e := EffectHook(store, NoFlags, Passive, create, destroy, deps);
      } else {
        e := EffectHook(store, PassiveEffect, Passive | HookHasEffect, create, destroy, deps);
      }
      r := Ok(e);
    }

    /** The queue part of `mountState`: a fresh queue whose `dispatch` is a new bound function, and the hook holding `state`. */
    method StateHook(store: FiberStore, alloc: Allocator, state: JsValue) returns (q: QueueId, dispatch: JsValue)
      requires Valid(store) && currentlyRenderingFiber.Some? && workInProgressHook.Some?
      modifies this`lists, this`queues, this`nextQueue, alloc
      ensures Valid(store)
      ensures q !in old(queues) && dispatch == Fn(old(alloc.next)) && alloc.next == old(alloc.next) + 1 && queues == old(queues)[q := HookQueue(None, dispatch)]
      ensures var p := workInProgressHook.value;
              p.list in old(lists) && p.index < |old(lists)[p.list]| &&
              lists == old(lists)[p.list := old(lists)[p.list][p.index := Hook(Value(state), Some(q), state, None)]]
    {
      q := nextQueue;
      nextQueue := nextQueue + 1;
      dispatch := alloc.NewFunction();
      queues := queues[q := HookQueue(None, dispatch)];
      WriteWipHook(store, Hook(Value(state), Some(q), state, None));
    }

    /**
     * `mountState(initialState)`: a new hook whose state and base state are
     * the initial state, or what the initializer returns when the initial
     * state is a function, with a fresh empty queue; it returns the state and
     * the queue's `dispatch`.
     */
    method MountState(store: FiberStore, alloc: Allocator, initialState: JsValue, initializerResult: JsValue)
      returns (r: Result<(JsValue, JsValue)>)
      requires store.Valid() && Valid(store)
      modifies this`lists, this`nextHook, this`workInProgressHook, this`queues, this`nextQueue, store`fibers, alloc
      ensures store.Valid() && Valid(store)
      ensures r.Err? <==> old(currentlyRenderingFiber).None?
      ensures r.Err? ==> r.message == HooksOutsideComponent && lists == old(lists) && queues == old(queues) && store.fibers == old(store.fibers)
      ensures r.Ok? ==>
                var state := if initialState.Fn? then initializerResult else initialState;
                r.value == (state, Fn(old(alloc.next))) && alloc.next == old(alloc.next) + 1 && workInProgressHook.Some? &&
                var p := workInProgressHook.value;
                p.list in lists && p.index < |lists[p.list]| &&
                var hook := lists[p.list][p.index];
                hook == Hook(Value(state), hook.updateQueue, state, None) && hook.updateQueue.Some? &&
                hook.updateQueue.value !in old(queues) && queues == old(queues)[hook.updateQueue.value := HookQueue(None, r.value.1)]
      ensures r.Ok? ==> Total(workInProgressHook) == Total(old(workInProgressHook)) + 1 &&
                        CurrentKept(old(store.fibers), old(lists), store.fibers, lists, currentlyRenderingFiber.value)
      ensures currentlyRenderingFiber.Some? ==> HooksFramed(old(store.fibers), store.fibers, currentlyRenderingFiber.value)
    {
      var h := MountWorkInProgressHook(store);
      if h.Err? {
        return Err(h.message);
      }
      var state := if initialState.Fn? then initializerResult else initialState;
      var q, dispatch := StateHook(store, alloc, state);
      r := Ok((state, dispatch));
    }

    /** A new hook holding `v`: what `mountRef` and the second hook of `mountTransition` allocate. */
    method MountValueHook(store: FiberStore, v: JsValue) returns (r: Result<HookPos>)
      requires store.Valid() && Valid(store)
      modifies this`lists, this`nextHook, this`workInProgressHook, store`fibers
      ensures store.Valid() && Valid(store)
      ensures r.Err? <==> old(currentlyRenderingFiber).None?
      ensures r.Err? ==> r.message == HooksOutsideComponent && lists == old(lists) && store.fibers == old(store.fibers)
      ensures r.Ok? ==> workInProgressHook == Some(r.value) && r.value.list in lists && r.value.index < |lists[r.value.list]| &&
                        lists[r.value.list][r.value.index] == NewHook.(memoizedState := Value(v))
      ensures r.Ok? && old(workInProgressHook).Some? ==>
                r.value == HookPos(old(workInProgressHook).value.list, old(workInProgressHook).value.index + 1) &&
                lists[r.value.list][..r.value.index] == old(lists)[r.value.list]
      ensures r.Ok? ==> Total(workInProgressHook) == Total(old(workInProgressHook)) + 1 &&
                        CurrentKept(old(store.fibers), old(lists), store.fibers, lists, currentlyRenderingFiber.value)
      ensures currentlyRenderingFiber.Some? ==> HooksFramed(old(store.fibers), store.fibers, currentlyRenderingFiber.value)
    {
      ghost var l0 := lists;
      r := MountWorkInProgressHook(store);
      if r.Ok? {
        ghost var l1 := lists;
        var hook := NewHook.(memoizedState := Value(v));
        WriteWipHook(store, hook);
        var p := r.value;
        assert lists == l1[p.list := l1[p.list][p.index := hook]];
        assert CurrentCount(store.fibers, currentlyRenderingFiber.value, lists) ==
               CurrentCount(store.fibers, currentlyRenderingFiber.value, l1);
        if old(workInProgressHook).Some? {
          assert l1[p.list] == l0[p.list] + [NewHook] && p.index == |l0[p.list]|;
          assert lists[p.list][..p.index] == l0[p.list];
        }
      }
    }

    /** `mountRef(initialValue)`: a new hook holding a new `{ current: initialValue }` object, which it returns. */
    method MountRef(store: FiberStore, alloc: Allocator, initialValue: JsValue) returns (r: Result<JsValue>)
      requires store.Valid() && Valid(store)
      modifies this`lists, this`nextHook, this`workInProgressHook, store`fibers, alloc
      ensures store.Valid() && Valid(store)
      ensures r.Err? <==> old(currentlyRenderingFiber).None?
      ensures r.Err? ==> r.message == HooksOutsideComponent && lists == old(lists) && store.fibers == old(store.fibers)
      ensures r.Ok? ==> r.value == Obj(old(alloc.next), map["current" := initialValue]) && Get(r.value, "current") == initialValue &&
                        workInProgressHook.Some? && var p := workInProgressHook.value;
                        p.list in lists && p.index < |lists[p.list]| && lists[p.list][p.index] == NewHook.(memoizedState := Value(r.value))
      ensures r.Ok? ==> Total(workInProgressHook) == Total(old(workInProgressHook)) + 1 &&
                        CurrentKept(old(store.fibers), old(lists), store.fibers, lists, currentlyRenderingFiber.value)
      ensures currentlyRenderingFiber.Some? ==> HooksFramed(old(store.fibers), store.fibers, currentlyRenderingFiber.value)
    {
      var ref := alloc.NewObject(map["current" := initialValue]);
      var h := MountValueHook(store, ref);
      if h.Err? {
        return Err(h.message);
      }
      r := Ok(ref);
    }

    /**
     * `mountTransition()`: a state hook holding `false`, then a hook holding
     * a new `start` function; it returns `false` and `start`.
     */
    method MountTransition(store: FiberStore, alloc: Allocator) returns (r: Result<(JsValue, JsValue)>)
      requires store.Valid() && Valid(store)
      modifies this`lists, this`nextHook, this`workInProgressHook, this`queues, this`nextQueue, store`fibers, alloc
      ensures store.Valid() && Valid(store)
      ensures r.Err? <==> old(currentlyRenderingFiber).None?
      ensures r.Err? ==> r.message == HooksOutsideComponent && lists == old(lists) && store.fibers == old(store.fibers)
      ensures r.Ok? ==> r.value == (Bool(false), Fn(old(alloc.next) + 1)) && workInProgressHook.Some? &&
                        var p := workInProgressHook.value;
                        p.list in lists && 0 < p.index < |lists[p.list]| &&
                        lists[p.list][p.index] == NewHook.(memoizedState := Value(r.value.1)) &&
                        lists[p.list][p.index - 1].memoizedState == Value(Bool(false)) && lists[p.list][p.index - 1].updateQueue.Some?
      ensures r.Ok? ==> Total(workInProgressHook) == Total(old(workInProgressHook)) + 2 &&
                        CurrentKept(old(store.fibers), old(lists), store.fibers, lists, currentlyRenderingFiber.value)
      ensures currentlyRenderingFiber.Some? ==> HooksFramed(old(store.fibers), store.fibers, currentlyRenderingFiber.value)
    {
      var s := MountState(store, alloc, Bool(false), Undefined);
      if s.Err? {
        return Err(s.message);
      }
      var start := MountStartHook(store, alloc);
      r := Ok((s.value.0, start));
    }

    /** The second hook of `mountTransition`: it holds a new function bound to the state hook's `dispatch`. */
    method MountStartHook(store: FiberStore, alloc: Allocator) returns (start: JsValue)
      requires store.Valid() && Valid(store) && currentlyRenderingFiber.Some? && workInProgressHook.Some?
      modifies this`lists, this`nextHook, this`workInProgressHook, store`fibers, alloc
      ensures store.Valid() && Valid(store)
      ensures start == Fn(old(alloc.next)) && workInProgressHook.Some? &&
              var p, q := workInProgressHook.value, old(workInProgressHook).value;
              p == HookPos(q.list, q.index + 1) && p.list in lists && p.index < |lists[p.list]| &&
              lists[p.list][p.index] == NewHook.(memoizedState := Value(start)) && lists[p.list][..p.index] == old(lists)[p.list]
      ensures Total(workInProgressHook) == Total(old(workInProgressHook)) + 1 &&
              CurrentKept(old(store.fibers), old(lists), store.fibers, lists, currentlyRenderingFiber.value)
      ensures currentlyRenderingFiber.Some? ==> HooksFramed(old(store.fibers), store.fibers, currentlyRenderingFiber.value)
    {
      start := alloc.NewFunction();
      var h := MountValueHook(store, start);
    }

    /**
     * The first half of `updateState`: pending updates of the hook's queue
     * are joined behind the current hook's base queue, the current hook keeps
     * them as its base queue and the queue's `pending` is cleared; the result
     * is the base queue to process.
     */
    method JoinPending(store: FiberStore) returns (r: Result<Option<UpdateId>>)
      requires Valid(store) && currentlyRenderingFiber.Some? && workInProgressHook.Some? && currentHook.Some?
      modifies this`updates, this`queues, this`lists
      ensures Valid(store)
      ensures var p, c := workInProgressHook.value, currentHook.value;
              p.list in old(lists) && p.index < |old(lists)[p.list]| && c.list in old(lists) && c.index < |old(lists)[c.list]| &&
              p.list != c.list &&
              (!StateHookAt(old(lists), old(queues), p) ==> r == Err(ReadOfUndefined))
      ensures r.Err? ==> r.message == ReadOfUndefined && lists == old(lists) && queues == old(queues) && updates == old(updates)
      ensures var p, c := workInProgressHook.value, currentHook.value;
              StateHookAt(old(lists), old(queues), p) ==>
                var q := old(lists)[p.list][p.index].updateQueue.value;
                var pending, baseQueue := old(queues)[q].pending, old(lists)[c.list][c.index].baseQueue;
                (r.Err? <==> JoinDangling(old(updates), pending, baseQueue)) &&
                (r.Ok? && pending.None? ==> r.value == baseQueue && lists == old(lists) && queues == old(queues) && updates == old(updates)) &&
                (r.Ok? && pending.Some? ==>
                   r.value == pending && queues == old(queues)[q := old(queues)[q].(pending := None)] &&
                   lists == old(lists)[c.list := old(lists)[c.list][c.index := old(lists)[c.list][c.index].(baseQueue := pending)]] &&
                   updates == (if baseQueue.Some? then JoinRings(old(updates), baseQueue.value, pending.value) else old(updates)))
    {
      var p, c := workInProgressHook.value, currentHook.value;
      var hook := lists[p.list][p.index];
      if !hook.memoizedState.Value? || hook.updateQueue.None? || hook.updateQueue.value !in queues {
        return Err(ReadOfUndefined);
      }
      var q := hook.updateQueue.value;
      var pending, baseQueue := queues[q].pending, lists[c.list][c.index].baseQueue;
      if pending.None? {
        return Ok(baseQueue);
      }
      if JoinDangling(updates, pending, baseQueue) {
        return Err(ReadOfUndefined);
      }
      if baseQueue.Some? {
        updates := JoinRings(updates, baseQueue.value, pending.value);
      }
      CursorsAfterHookWrite(store.fibers, currentlyRenderingFiber.value, lists, workInProgressHook, currentHook, effects,
                            c, lists[c.list][c.index].(baseQueue := pending));
      lists := lists[c.list := lists[c.list][c.index := lists[c.list][c.index].(baseQueue := pending)]];
      queues := queues[q := queues[q].(pending := None)];
      r := Ok(pending);
    }

    /** `fiber.lanes = mergeLanes(fiber.lanes, lanes)` on the rendering fiber: the lanes of skipped updates go back onto it. */
    method MergeFiberLanes(store: FiberStore, lanes: Lanes)
      requires store.Valid() && Valid(store) && currentlyRenderingFiber.Some?
      modifies store`fibers
      ensures store.Valid() && Valid(store)
      ensures var wip := currentlyRenderingFiber.value;
              wip in old(store.fibers) &&
              store.fibers == old(store.fibers)[wip := old(store.fibers[wip]).(lanes := MergeLanes(old(store.fibers[wip].lanes), lanes))]
      ensures currentlyRenderingFiber.Some? ==> HooksFramed(old(store.fibers), store.fibers, currentlyRenderingFiber.value)
    {
      var wip := currentlyRenderingFiber.value;
      var node := store.fibers[wip].(lanes := MergeLanes(store.fibers[wip].lanes, lanes));
      CursorsAfterFiberWrite(store.fibers, wip, lists, workInProgressHook, currentHook, effects, wip, node);
      store.SetFiber(wip, node);
    }

    /**
     * The second half of `updateState`: the base queue is processed from the
     * hook's base state; a new state that is not `Object.is` the previous one
     * marks that the fiber received an update, and the hook takes the new
     * state, base state and base queue.
     */
    method ProcessBaseQueue(store: FiberStore, flag: UpdateFlag, process: Process, baseQueue: UpdateId)
      requires store.Valid() && Valid(store) && currentlyRenderingFiber.Some? && workInProgressHook.Some?
      requires var p := workInProgressHook.value; p.list in lists && p.index < |lists[p.list]| && lists[p.list][p.index].memoizedState.Value?
      modifies this`lists, store`fibers, flag
      ensures store.Valid() && Valid(store)
      ensures var wip, p := currentlyRenderingFiber.value, workInProgressHook.value;
              var hook := old(lists)[p.list][p.index];
              var res := process(updates, hook.baseState, baseQueue, renderLane);
              wip in old(store.fibers) &&
              flag.didReceiveUpdate == (old(flag.didReceiveUpdate) || !ObjectIs(hook.memoizedState.value, res.memoizedState)) &&
              lists == old(lists)[p.list := old(lists)[p.list][p.index := hook.(memoizedState := Value(res.memoizedState),
                                                                               baseState := res.baseState, baseQueue := res.baseQueue)]] &&
              store.fibers == old(store.fibers)[wip := old(store.fibers[wip]).(lanes := MergeLanes(old(store.fibers[wip].lanes), res.skipped))]
      ensures currentlyRenderingFiber.Some? ==> HooksFramed(old(store.fibers), store.fibers, currentlyRenderingFiber.value)
    {
      var p := workInProgressHook.value;
      var hook := lists[p.list][p.index];
      var res := process(updates, hook.baseState, baseQueue, renderLane);
      if !ObjectIs(hook.memoizedState.value, res.memoizedState) {
        flag.MarkWorkInProgressReceivedUpdate();
      }
      StoreProcessed(store, hook.(memoizedState := Value(res.memoizedState), baseState := res.baseState, baseQueue := res.baseQueue),
                     res.skipped);
    }

    /** The rendering fiber takes back the skipped lanes, and the work-in-progress hook becomes `hook`. */
    method StoreProcessed(store: FiberStore, hook: Hook, skipped: Lanes)
      requires store.Valid() && Valid(store) && currentlyRenderingFiber.Some? && workInProgressHook.Some?
      modifies this`lists, store`fibers
      ensures store.Valid() && Valid(store)
      ensures var wip, p := currentlyRenderingFiber.value, workInProgressHook.value;
              wip in old(store.fibers) && p.list in old(lists) && p.index < |old(lists)[p.list]| &&
              lists == old(lists)[p.list := old(lists)[p.list][p.index := hook]] &&
              store.fibers == old(store.fibers)[wip := old(store.fibers[wip]).(lanes := MergeLanes(old(store.fibers[wip].lanes), skipped))]
      ensures currentlyRenderingFiber.Some? ==> HooksFramed(old(store.fibers), store.fibers, currentlyRenderingFiber.value)
    {
      MergeFiberLanes(store, skipped);
      WriteWipHook(store, hook);
    }

    /**
     * The part of `updateState` after `updateWorkInProgressHook`: join the
     * pending updates, process the base queue when there is one, and return
     * the hook's state with its queue's `dispatch`.
     */
    method UpdateStateOnHook(store: FiberStore, flag: UpdateFlag, process: Process) returns (r: Result<(JsValue, JsValue)>)
      requires store.Valid() && Valid(store) && currentlyRenderingFiber.Some? && workInProgressHook.Some? && currentHook.Some?
      modifies this`lists, this`updates, this`queues, store`fibers, flag
      ensures store.Valid() && Valid(store)
      ensures var p := workInProgressHook.value;
              !StateHookAt(old(lists), old(queues), p) ==>
                r == Err(ReadOfUndefined) && lists == old(lists) && queues == old(queues) && store.fibers == old(store.fibers)
      ensures var p, c := workInProgressHook.value, currentHook.value;
              StateHookAt(old(lists), old(queues), p) ==>
                c.list in old(lists) && c.index < |old(lists)[c.list]| &&
                var hook := old(lists)[p.list][p.index];
                var q := hook.updateQueue.value;
                var pending, baseQueue := old(queues)[q].pending, old(lists)[c.list][c.index].baseQueue;
                var base := if pending.Some? then pending else baseQueue;
                (r.Err? <==> JoinDangling(old(updates), pending, baseQueue)) &&
                (r.Err? ==> r.message == ReadOfUndefined) &&
                (r.Ok? ==>
                   r.value.1 == old(queues)[q].dispatch &&
                   (base.None? ==> r.value.0 == hook.memoizedState.value && flag.didReceiveUpdate == old(flag.didReceiveUpdate)) &&
                   (base.Some? ==>
                      var res := process(updates, hook.baseState, base.value, renderLane);
                      r.value.0 == res.memoizedState &&
                      flag.didReceiveUpdate == (old(flag.didReceiveUpdate) || !ObjectIs(hook.memoizedState.value, res.memoizedState))))
      ensures r.Ok? ==> var p := workInProgressHook.value;
                        p.list in lists && p.index < |lists[p.list]| && lists[p.list][p.index].memoizedState == Value(r.value.0)
      ensures CurrentKept(old(store.fibers), old(lists), store.fibers, lists, currentlyRenderingFiber.value)
      ensures currentlyRenderingFiber.Some? ==> HooksFramed(old(store.fibers), store.fibers, currentlyRenderingFiber.value)
    {
      var j := JoinPending(store);
      if j.Err? {
        return Err(j.message);
      }
      if j.value.Some? {
        ProcessBaseQueue(store, flag, process, j.value.value);
      }
      var p := workInProgressHook.value;
      var hook := lists[p.list][p.index];
      r := Ok((hook.memoizedState.value, queues[hook.updateQueue.value].dispatch));
    }

    /**
     * `updateState()`: the hook is the clone of the current one; its pending
     * updates are processed into the state it returns with its `dispatch`.
     */
    method UpdateState(store: FiberStore, flag: UpdateFlag, process: Process) returns (r: Result<(JsValue, JsValue)>)
      requires store.Valid() && Valid(store)
      modifies this`lists, this`nextHook, this`workInProgressHook, this`currentHook, this`updates, this`queues, store`fibers, flag
      ensures store.Valid() && Valid(store)
      ensures old(currentlyRenderingFiber).None? ==> r == Err(HooksOutsideComponent)
      ensures old(currentlyRenderingFiber).Some? ==>
                var next := NextCurrentHook(old(store.fibers), currentlyRenderingFiber.value, old(lists), old(currentHook));
                (next.None? <==> r == Err(MoreHooksThanBefore)) && (next.Some? ==> currentHook == next)
      ensures r.Ok? ==> workInProgressHook.Some? && var p := workInProgressHook.value;
                        p.list in lists && p.index < |lists[p.list]| && lists[p.list][p.index].memoizedState == Value(r.value.0)
      ensures r.Ok? ==>
                Total(workInProgressHook) == Total(old(workInProgressHook)) + 1 &&
                (Aligned(old(workInProgressHook), old(currentHook)) ==> Aligned(workInProgressHook, currentHook)) &&
                CurrentKept(old(store.fibers), old(lists), store.fibers, lists, currentlyRenderingFiber.value)
      ensures old(currentlyRenderingFiber).Some? && Aligned(old(workInProgressHook), old(currentHook)) && r == Err(MoreHooksThanBefore) ==>
                Total(old(workInProgressHook)) + 1 > CurrentCount(old(store.fibers), currentlyRenderingFiber.value, old(lists))
      ensures currentlyRenderingFiber.Some? ==> HooksFramed(old(store.fibers), store.fibers, currentlyRenderingFiber.value)
    {
      if currentlyRenderingFiber.Some? && Aligned(workInProgressHook, currentHook) {
        NextCurrentHookAtCount(store.fibers, currentlyRenderingFiber.value, lists, workInProgressHook, currentHook, effects);
      }
      ghost var wip := currentlyRenderingFiber;
      var h := UpdateWorkInProgressHook(store);
      if h.Err? {
        return Err(h.message);
      }
      ghost var next := currentHook;
      r := UpdateStateOnHook(store, flag, process);
      assert currentlyRenderingFiber == wip && currentHook == next;
    }

    /** The clone of the next current hook, read as a value: what `updateRef` and the second hook of `updateTransition` return. */
    method UpdateValueHook(store: FiberStore) returns (r: Result<JsValue>)
      requires store.Valid() && Valid(store)
      modifies this`lists, this`nextHook, this`workInProgressHook, this`currentHook, store`fibers
      ensures store.Valid() && Valid(store)
      ensures old(currentlyRenderingFiber).None? ==> r == Err(HooksOutsideComponent)
      ensures old(currentlyRenderingFiber).Some? ==>
                var next := NextCurrentHook(old(store.fibers), currentlyRenderingFiber.value, old(lists), old(currentHook));
                (next.None? ==> r == Err(MoreHooksThanBefore)) &&
                (next.Some? ==> currentHook == next && next.value.list in old(lists) && next.value.index < |old(lists)[next.value.list]| &&
                                var state := old(lists)[next.value.list][next.value.index].memoizedState;
                                r == if state.Value? then Ok(state.value) else Err(ReadOfUndefined))
      ensures r.Ok? ==> workInProgressHook.Some? && var p := workInProgressHook.value;
                        p.list in lists && p.index < |lists[p.list]| && lists[p.list][p.index].memoizedState == Value(r.value) &&
                        (old(workInProgressHook).Some? ==> p == HookPos(old(workInProgressHook).value.list, old(workInProgressHook).value.index + 1))
      ensures r.Ok? ==>
                Total(workInProgressHook) == Total(old(workInProgressHook)) + 1 &&
                (Aligned(old(workInProgressHook), old(currentHook)) ==> Aligned(workInProgressHook, currentHook)) &&
                CurrentKept(old(store.fibers), old(lists), store.fibers, lists, currentlyRenderingFiber.value)
      ensures old(currentlyRenderingFiber).Some? && Aligned(old(workInProgressHook), old(currentHook)) && r == Err(MoreHooksThanBefore) ==>
                Total(old(workInProgressHook)) + 1 > CurrentCount(old(store.fibers), currentlyRenderingFiber.value, old(lists))
      ensures currentlyRenderingFiber.Some? ==> HooksFramed(old(store.fibers), store.fibers, currentlyRenderingFiber.value)
    {
      if currentlyRenderingFiber.Some? && Aligned(workInProgressHook, currentHook) {
        NextCurrentHookAtCount(store.fibers, currentlyRenderingFiber.value, lists, workInProgressHook, currentHook, effects);
      }
      var h := UpdateWorkInProgressHook(store);
      if h.Err? {
        return Err(h.message);
      }
      var state := lists[h.value.list][h.value.index].memoizedState;
      if !state.Value? {
        return Err(ReadOfUndefined);
      }
      r := Ok(state.value);
    }

    /** `updateRef(initialValue)`: the ref object the hook has held since mount; the argument is ignored. */
    method UpdateRef(store: FiberStore, initialValue: JsValue) returns (r: Result<JsValue>)
      requires store.Valid() && Valid(store)
      modifies this`lists, this`nextHook, this`workInProgressHook, this`currentHook, store`fibers
      ensures store.Valid() && Valid(store)
      ensures old(currentlyRenderingFiber).None? ==> r == Err(HooksOutsideComponent)
      ensures old(currentlyRenderingFiber).Some? ==>
                var next := NextCurrentHook(old(store.fibers), currentlyRenderingFiber.value, old(lists), old(currentHook));
                (next.None? ==> r == Err(MoreHooksThanBefore)) &&
                (next.Some? ==> next.value.list in old(lists) && next.value.index < |old(lists)[next.value.list]| &&
                                var state := old(lists)[next.value.list][next.value.index].memoizedState;
                                r == if state.Value? then Ok(state.value) else Err(ReadOfUndefined))
      ensures r.Ok? ==>
                Total(workInProgressHook) == Total(old(workInProgressHook)) + 1 &&
                (Aligned(old(workInProgressHook), old(currentHook)) ==> Aligned(workInProgressHook, currentHook)) &&
                CurrentKept(old(store.fibers), old(lists), store.fibers, lists, currentlyRenderingFiber.value)
      ensures currentlyRenderingFiber.Some? ==> HooksFramed(old(store.fibers), store.fibers, currentlyRenderingFiber.value)
    {
      r := UpdateValueHook(store);
    }

    /**
     * `updateTransition()`: the state hook's processed state as `isPending`,
     * and the `start` function the next hook has held since mount.
     */
    method UpdateTransition(store: FiberStore, flag: UpdateFlag, process: Process) returns (r: Result<(JsValue, JsValue)>)
      requires store.Valid() && Valid(store)
      modifies this`lists, this`nextHook, this`workInProgressHook, this`currentHook, this`updates, this`queues, store`fibers, flag
      ensures store.Valid() && Valid(store)
      ensures old(currentlyRenderingFiber).None? ==> r == Err(HooksOutsideComponent)
      ensures r.Ok? ==> workInProgressHook.Some? && var p := workInProgressHook.value;
                        p.list in lists && 0 < p.index < |lists[p.list]| &&
                        lists[p.list][p.index].memoizedState == Value(r.value.1)
      ensures r.Ok? ==>
                Total(workInProgressHook) == Total(old(workInProgressHook)) + 2 &&
                (Aligned(old(workInProgressHook), old(currentHook)) ==> Aligned(workInProgressHook, currentHook)) &&
                CurrentKept(old(store.fibers), old(lists), store.fibers, lists, currentlyRenderingFiber.value)
      ensures old(currentlyRenderingFiber).Some? && Aligned(old(workInProgressHook), old(currentHook)) && r == Err(MoreHooksThanBefore) ==>
                Total(old(workInProgressHook)) + 2 > CurrentCount(old(store.fibers), currentlyRenderingFiber.value, old(lists))
      ensures currentlyRenderingFiber.Some? ==> HooksFramed(old(store.fibers), store.fibers, currentlyRenderingFiber.value)
    {
      var s := UpdateState(store, flag, process);
      if s.Err? {
        return Err(s.message);
      }
      var start := UpdateValueHook(store);
      if start.Err? {
        return Err(start.message);
      }
      r := Ok((s.value.0, start.value));
    }

    /**
     * `readContext(context)`: outside a component an error; otherwise the
     * context's current value, the one its innermost provider pushed or the
     * default. It puts no hook on the list.
     */
    function ReadContext(contexts: FiberContext.ContextStack, context: Ref): (r: Result<JsValue>)
      reads this, contexts
      ensures r.Err? <==> currentlyRenderingFiber.None?
      ensures r.Err? ==> r.message == HooksOutsideComponent
      ensures r.Ok? ==> r.value == FiberContext.CurrentValue(contexts.State(), context)
    {
      if currentlyRenderingFiber.None? then Err(HooksOutsideComponent)
      else Ok(FiberContext.CurrentValue(contexts.State(), context))
    }

    /** `resetHooksOnUnwind()`: after a render threw, no fiber is rendering and both cursors are cleared. */
    method ResetHooksOnUnwind(store: FiberStore)
      modifies this`currentlyRenderingFiber, this`currentHook, this`workInProgressHook
      ensures currentlyRenderingFiber.None? && currentHook.None? && workInProgressHook.None?
      ensures old(Valid(store)) ==> Valid(store) && Idle()
    {
      currentlyRenderingFiber, currentHook, workInProgressHook := None, None, None;
    }

    /** A hook call on mount: `HooksDispatcherOnMount`. */
    method MountHook(store: FiberStore, alloc: Allocator, contexts: FiberContext.ContextStack, call: HookCall) returns (r: Result<HookResult>)
      requires store.Valid() && Valid(store) && currentlyRenderingFiber.Some?
      modifies this`lists, this`nextHook, this`workInProgressHook, this`queues, this`nextQueue, this`effects, this`nextEffect,
               store`fibers, alloc
      ensures store.Valid() && Valid(store) && r.Ok?
      ensures Total(workInProgressHook) == Total(old(workInProgressHook)) + HookCount(call)
      ensures CurrentKept(old(store.fibers), old(lists), store.fibers, lists, currentlyRenderingFiber.value)
      ensures currentlyRenderingFiber.Some? ==> HooksFramed(old(store.fibers), store.fibers, currentlyRenderingFiber.value)
    {
      match call
      case UseState(initialState, initializerResult) =>
        var s := MountState(store, alloc, initialState, initializerResult);
        r := Ok(Pair(s.value.0, s.value.1));
      case UseEffect(create, deps) =>
        var e := MountEffect(store, create, deps);
        r := Ok(Pushed(e.value));
      case UseTransition =>
        var t := MountTransition(store, alloc);
        r := Ok(Pair(t.value.0, t.value.1));
      case UseRef(initialValue) =>
        var ref := MountRef(store, alloc, initialValue);
        r := Ok(Single(ref.value));
      case UseContext(context) =>
        r := Ok(Single(ReadContext(contexts, context).value));
    }

    /**
     * A hook call on update: `HooksDispatcherOnUpdate`.  With the cursors
     * aligned, a call that succeeds keeps them aligned, and one that runs
     * past the end of the current list fails.
     */
    method UpdateHook(store: FiberStore, flag: UpdateFlag, contexts: FiberContext.ContextStack, process: Process, call: HookCall)
      returns (r: Result<HookResult>)
      requires store.Valid() && Valid(store) && currentlyRenderingFiber.Some? && Aligned(workInProgressHook, currentHook)
      modifies this`lists, this`nextHook, this`workInProgressHook, this`currentHook, this`updates, this`queues,
               this`effects, this`nextEffect, store`fibers, flag
      ensures store.Valid() && Valid(store)
      ensures r.Ok? ==> Aligned(workInProgressHook, currentHook) &&
                        Total(workInProgressHook) == Total(old(workInProgressHook)) + HookCount(call) &&
                        CurrentKept(old(store.fibers), old(lists), store.fibers, lists, currentlyRenderingFiber.value)
      ensures var count := CurrentCount(old(store.fibers), currentlyRenderingFiber.value, old(lists));
              (r == Err(MoreHooksThanBefore) ==> Total(old(workInProgressHook)) + HookCount(call) > count) &&
              (r.Ok? ==> Total(old(workInProgressHook)) + HookCount(call) <= count)
      ensures currentlyRenderingFiber.Some? ==> HooksFramed(old(store.fibers), store.fibers, currentlyRenderingFiber.value)
    {
      match call {
        case UseState(_, _) =>
          var s := UpdateState(store, flag, process);
          r := if s.Ok? then Ok(Pair(s.value.0, s.value.1)) else Err(s.message);
        case UseEffect(create, deps) =>
          var e := UpdateEffect(store, create, deps);
          r := if e.Ok? then Ok(Pushed(e.value)) else Err(e.message);
        case UseTransition =>
          var t := UpdateTransition(store, flag, process);
          r := if t.Ok? then Ok(Pair(t.value.0, t.value.1)) else Err(t.message);
        case UseRef(initialValue) =>
          var ref := UpdateRef(store, initialValue);
          r := if ref.Ok? then Ok(Single(ref.value)) else Err(ref.message);
        case UseContext(context) =>
          r := Ok(Single(ReadContext(contexts, context).value));
      }
      if r.Ok? {
        NextCurrentHookAtCount(store.fibers, currentlyRenderingFiber.value, lists, workInProgressHook, currentHook, effects);
      }
    }

    /**
     * The start of `renderWithHooks(wip, lane)`: `wip` renders, with its hook
     * list and effect list reset, whichever fiber rendered before.  The
     * cursors are left as they are: cleared, the hooks are valid for `wip`;
     * a work-in-progress hook left over by a render that threw disagrees
     * with the reset `memoizedState`, so the hooks are not.
     */
    method BeginRender(store: FiberStore, wip: FiberId, lane: Lane)
      requires store.Valid() && Fresh()
      requires wip in store.fibers && store.fibers[wip].alternate != Some(wip)
      requires var current := CurrentFirstHook(store.fibers, wip); current.Some? ==> current.value in lists && |lists[current.value]| > 0
      modifies this`currentlyRenderingFiber, this`renderLane, store`fibers
      ensures store.Valid() && currentlyRenderingFiber == Some(wip) && renderLane == lane
      ensures workInProgressHook == old(workInProgressHook) && currentHook == old(currentHook)
      ensures store.fibers == old(store.fibers)[wip := old(store.fibers[wip]).(memoizedState := StateValue(Null), updateQueue := NoQueue)]
      ensures CurrentKept(old(store.fibers), lists, store.fibers, lists, wip)
      ensures HooksFramed(old(store.fibers), store.fibers, wip)
      ensures workInProgressHook.None? && currentHook.None? ==> Valid(store)
      ensures workInProgressHook.Some? ==> !Valid(store) && ListLength(store.fibers[wip].memoizedState, lists) == 0
    {
      var node := store.fibers[wip].(memoizedState := StateValue(Null), updateQueue := NoQueue);
      assert CurrentFirstHook(store.fibers[wip := node], wip) == CurrentFirstHook(store.fibers, wip);
      store.SetFiber(wip, node);
      currentlyRenderingFiber := Some(wip);
      renderLane := lane;
    }

    /**
     * `renderWithHooks(wip, lane)`, with the component's render given as the
     * hook calls it makes.  On mount every call succeeds; on update a render
     * that succeeds used no more hooks than the current fiber holds, and one
     * that stops with "Rendered more hooks" used more.  After a render that
     * succeeds no fiber is rendering and the fiber's list holds one hook per
     * hook call; one that throws leaves `wip` rendering and the cursors where
     * the throw left them.  The render starts from cleared cursors, whichever
     * fiber rendered last.
     */
    method RenderWithHooks(store: FiberStore, alloc: Allocator, flag: UpdateFlag, contexts: FiberContext.ContextStack,
                           process: Process, wip: FiberId, lane: Lane, calls: seq<HookCall>)
      returns (r: Result<seq<HookResult>>)
      requires store.Valid() && Fresh() && workInProgressHook.None? && currentHook.None?
      requires wip in store.fibers && store.fibers[wip].alternate != Some(wip)
      requires var current := CurrentFirstHook(store.fibers, wip); current.Some? ==> current.value in lists && |lists[current.value]| > 0
      modifies this`currentlyRenderingFiber, this`renderLane, this`lists, this`nextHook, this`workInProgressHook, this`currentHook,
               this`updates, this`queues, this`nextQueue, this`effects, this`nextEffect, store`fibers, alloc, flag
      ensures store.Valid() && Valid(store) && wip in store.fibers
      ensures r.Ok? ==> currentlyRenderingFiber.None? && workInProgressHook.None? && currentHook.None? && renderLane == NoLane &&
                        |r.value| == |calls| && ListLength(store.fibers[wip].memoizedState, lists) == HooksUsed(calls)
      ensures r.Err? ==> currentlyRenderingFiber == Some(wip)
      ensures old(store.fibers[wip].alternate).None? ==> r.Ok?
      ensures old(store.fibers[wip].alternate).Some? ==>
                var count := CurrentCount(old(store.fibers), wip, old(lists));
                (r.Ok? ==> HooksUsed(calls) <= count) && (r == Err(MoreHooksThanBefore) ==> HooksUsed(calls) > count)
      ensures HooksFramed(old(store.fibers), store.fibers, wip)
    {
      var mount := store.fibers[wip].alternate.None?;
      BeginRender(store, wip, lane);
      r := RunHooks(store, alloc, flag, contexts, process, mount, calls);
      if r.Ok? {
        ListLengthIsTotal(store.fibers[wip].memoizedState, lists, workInProgressHook);
        EndRender(store);
      }
    }

    /** The end of `renderWithHooks`: no fiber is rendering, both cursors are cleared and the render lane is none. */
    method EndRender(store: FiberStore)
      requires Valid(store)
      modifies this`currentlyRenderingFiber, this`workInProgressHook, this`currentHook, this`renderLane
      ensures Valid(store)
      ensures currentlyRenderingFiber.None? && workInProgressHook.None? && currentHook.None? && renderLane == NoLane
    {
      currentlyRenderingFiber, workInProgressHook, currentHook, renderLane := None, None, None, NoLane;
    }

    /** A hook call by the mount dispatcher or, on update, by the update dispatcher. */
    method CallHook(store: FiberStore, alloc: Allocator, flag: UpdateFlag, contexts: FiberContext.ContextStack,
                    process: Process, mount: bool, call: HookCall)
      returns (r: Result<HookResult>)
      requires store.Valid() && Valid(store) && currentlyRenderingFiber.Some? && (!mount ==> Aligned(workInProgressHook, currentHook))
      modifies this`lists, this`nextHook, this`workInProgressHook, this`currentHook, this`updates, this`queues, this`nextQueue,
               this`effects, this`nextEffect, store`fibers, alloc, flag
      ensures store.Valid() && Valid(store)
      ensures r.Ok? ==> Total(workInProgressHook) == Total(old(workInProgressHook)) + HookCount(call) &&
                        CurrentKept(old(store.fibers), old(lists), store.fibers, lists, currentlyRenderingFiber.value)
      ensures mount ==> r.Ok?
      ensures !mount ==>
                var count := CurrentCount(old(store.fibers), currentlyRenderingFiber.value, old(lists));
                (r.Ok? ==> Aligned(workInProgressHook, currentHook) && Total(old(workInProgressHook)) + HookCount(call) <= count) &&
                (r == Err(MoreHooksThanBefore) ==> Total(old(workInProgressHook)) + HookCount(call) > count)
      ensures currentlyRenderingFiber.Some? ==> HooksFramed(old(store.fibers), store.fibers, currentlyRenderingFiber.value)
    {
      if mount {
        r := MountHook(store, alloc, contexts, call);
      } else {
        r := UpdateHook(store, flag, contexts, process, call);
      }
    }

    /** The component's hook calls, one after the other, by the mount or the update dispatcher; the first that throws ends the render. */
    method RunHooks(store: FiberStore, alloc: Allocator, flag: UpdateFlag, contexts: FiberContext.ContextStack,
                    process: Process, mount: bool, calls: seq<HookCall>)
      returns (r: Result<seq<HookResult>>)
      requires store.Valid() && Valid(store) && currentlyRenderingFiber.Some? && workInProgressHook.None? && currentHook.None?
      modifies this`lists, this`nextHook, this`workInProgressHook, this`currentHook, this`updates, this`queues, this`nextQueue,
               this`effects, this`nextEffect, store`fibers, alloc, flag
      ensures store.Valid() && Valid(store)
      ensures r.Ok? ==> |r.value| == |calls| && Total(workInProgressHook) == HooksUsed(calls)
      ensures mount ==> r.Ok?
      ensures !mount ==>
                var count := CurrentCount(old(store.fibers), currentlyRenderingFiber.value, old(lists));
                (r.Ok? ==> HooksUsed(calls) <= count) && (r == Err(MoreHooksThanBefore) ==> HooksUsed(calls) > count)
      ensures currentlyRenderingFiber.Some? ==> HooksFramed(old(store.fibers), store.fibers, currentlyRenderingFiber.value)
    {
      var wip := currentlyRenderingFiber.value;
      ghost var count := CurrentCount(store.fibers, wip, lists);
      ghost var fibers0, lists0 := store.fibers, lists;
      var results: seq<HookResult> := [];
      var i := 0;
      while i < |calls|
        invariant 0 <= i <= |calls| && |results| == i
        invariant store.Valid() && Valid(store) && currentlyRenderingFiber == Some(wip)
        invariant Total(workInProgressHook) == HooksUsed(calls[..i])
        invariant CurrentKept(fibers0, lists0, store.fibers, lists, wip)
        invariant HooksFramed(fibers0, store.fibers, wip)
        invariant !mount ==> Aligned(workInProgressHook, currentHook) && HooksUsed(calls[..i]) <= count
      {
        HooksUsedStep(calls, i);
        var c := CallHook(store, alloc, flag, contexts, process, mount, calls[i]);
        if c.Err? {
          HooksUsedGrows(calls, i + 1);
          return Err(c.message);
        }
        results := results + [c.value];
        i := i + 1;
      }
      assert calls[..i] == calls;
      r := Ok(results);
    }
  }
}
