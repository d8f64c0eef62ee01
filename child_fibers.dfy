/**
 * The single-child reconciler: `ChildReconciler(shouldTrackEffects)`.
 *
 * The closure's flag is a parameter of every operation; `reconcileChildFibers`
 * is the reconciler with `shouldTrackEffects = true` and `mountChildFibers`
 * the one with `false`.  The old children are a sibling list; each operation
 * that walks it takes, as a ghost parameter, the list of fibers on it.
 */
module ChildFibers {
  import opened Wrappers
  import opened Js
  import opened ReactSymbols
  import opened FiberFlags
  import opened WorkTags
  import opened Fiber

  /** `chain` is the sibling list that starts at `first` and ends with a `null` sibling. */
  ghost predicate IsChain(fibers: map<FiberId, FiberNode>, first: Option<FiberId>, chain: seq<FiberId>)
    decreases |chain|
  {
    if chain == [] then first.None?
    else first == Some(chain[0]) && chain[0] in fibers && IsChain(fibers, fibers[chain[0]].sibling, chain[1..])
  }

  /** A chain survives any write that leaves the siblings of its fibers alone. */
  lemma {:induction false} ChainFrame(fibers: map<FiberId, FiberNode>, fibers': map<FiberId, FiberNode>, first: Option<FiberId>, chain: seq<FiberId>)
    requires IsChain(fibers, first, chain)
    requires forall k | 0 <= k < |chain| && chain[k] in fibers :: chain[k] in fibers' && fibers'[chain[k]].sibling == fibers[chain[k]].sibling
    ensures IsChain(fibers', first, chain)
    decreases |chain|
  {
    if chain != [] {
      assert chain[0] in fibers';
      ChainFrame(fibers, fibers', fibers[chain[0]].sibling, chain[1..]);
    }
  }

  /** Writing a fiber outside a chain keeps the chain. */
  lemma ChainAfterWrite(fibers: map<FiberId, FiberNode>, id: FiberId, f: FiberNode, first: Option<FiberId>, chain: seq<FiberId>)
    requires IsChain(fibers, first, chain) && id !in chain
    ensures IsChain(fibers[id := f], first, chain)
  {
    ChainFrame(fibers, fibers[id := f], first, chain);
  }

  /** Every fiber of a chain is in the arena, and the rest of a chain is the chain of the next sibling. */
  lemma {:induction false} ChainFacts(fibers: map<FiberId, FiberNode>, first: Option<FiberId>, chain: seq<FiberId>, i: nat)
    requires IsChain(fibers, first, chain) && i < |chain|
    ensures chain[i] in fibers && IsChain(fibers, Some(chain[i]), chain[i..])
    ensures IsChain(fibers, fibers[chain[i]].sibling, chain[i + 1..])
    decreases i
  {
    if i > 0 {
      ChainFacts(fibers, fibers[chain[0]].sibling, chain[1..], i - 1);
      assert chain[1..][i - 1..] == chain[i..];
      assert chain[1..][i..] == chain[i + 1..];
    }
  }

  /**
   * The chain is apart from the fiber being reconciled into: it contains
   * neither `returnFiber` nor an alternate of one of its own fibers, and no
   * alternate of its fibers is `returnFiber` (the old children belong to the
   * current tree, `returnFiber` to the work-in-progress tree).
   */
  ghost predicate ApartFrom(fibers: map<FiberId, FiberNode>, chain: seq<FiberId>, returnFiber: FiberId)
  {
    returnFiber !in chain &&
    forall k | 0 <= k < |chain| && chain[k] in fibers && fibers[chain[k]].alternate.Some? ::
      fibers[chain[k]].alternate.value !in chain && fibers[chain[k]].alternate.value != returnFiber
  }

  /** The fibers already queued for deletion on `f`. */
  function Queued(f: FiberNode): seq<FiberId>
  {
    if f.deletions.Some? then f.deletions.value else []
  }

  /** `deleteChild` on a tracking reconciler, as a change of the parent's record. */
  function WithDeletion(returnFiber: FiberNode, childToDelete: FiberId): FiberNode
  {
    if returnFiber.deletions.None? then returnFiber.(deletions := Some([childToDelete]), flags := returnFiber.flags | ChildDeletion)
    else returnFiber.(deletions := Some(returnFiber.deletions.value + [childToDelete]))
  }

  /**
   * Deleting the fibers `xs` one after the other: they are queued in order
   * after those queued already, `ChildDeletion` is raised by the first
   * deletion into an empty list, and nothing else of the parent changes.
   */
  function WithDeletions(returnFiber: FiberNode, xs: seq<FiberId>): (r: FiberNode)
    ensures r == returnFiber.(deletions := r.deletions, flags := r.flags)
    ensures xs == [] ==> r == returnFiber
    ensures xs != [] ==> r.deletions == Some(Queued(returnFiber) + xs)
    ensures r.flags == if returnFiber.deletions.None? && xs != [] then returnFiber.flags | ChildDeletion else returnFiber.flags
    decreases |xs|
  {
    if xs == [] then returnFiber
    else
      var f := WithDeletion(returnFiber, xs[0]);
      assert Queued(returnFiber) + [xs[0]] == if returnFiber.deletions.Some? then returnFiber.deletions.value + [xs[0]] else [xs[0]];
      assert f.deletions == Some(Queued(returnFiber) + [xs[0]]);
      assert Queued(returnFiber) + [xs[0]] + xs[1..] == Queued(returnFiber) + xs;
      assert xs[1..] == [] ==> xs == [xs[0]];
      WithDeletions(f, xs[1..])
  }

  /** Deleting one more fiber after a run of deletions is the run extended by it. */
  lemma {:induction false} WithDeletionsSnoc(returnFiber: FiberNode, xs: seq<FiberId>, x: FiberId)
    ensures WithDeletions(returnFiber, xs + [x]) == WithDeletion(WithDeletions(returnFiber, xs), x)
    decreases |xs|
  {
    if xs != [] {
      assert (xs + [x])[1..] == xs[1..] + [x];
      WithDeletionsSnoc(WithDeletion(returnFiber, xs[0]), xs[1..], x);
    }
  }

  /** The record of the parent after deleting `xs` with effects tracked or not. */
  function AfterDeletions(returnFiber: FiberNode, xs: seq<FiberId>, shouldTrackEffects: bool): FiberNode
  {
    if shouldTrackEffects then WithDeletions(returnFiber, xs) else returnFiber
  }

  /** `deleteChild(returnFiber, childToDelete)` */
  method DeleteChild(store: FiberStore, returnFiber: FiberId, childToDelete: FiberId, shouldTrackEffects: bool)
    requires store.Valid() && returnFiber in store.fibers
    modifies store`fibers
    ensures store.Valid()
    ensures store.fibers == old(store.fibers)[returnFiber := AfterDeletions(old(store.fibers[returnFiber]), [childToDelete], shouldTrackEffects)]
    ensures AlternatesPaired(old(store.fibers)) ==> AlternatesPaired(store.fibers)
  {
    if !shouldTrackEffects {
      return;
    }
    var f := store.fibers[returnFiber];
    if f.deletions.None? {
      store.SetFiber(returnFiber, f.(deletions := Some([childToDelete]), flags := f.flags | ChildDeletion));
    } else {
      store.SetFiber(returnFiber, f.(deletions := Some(f.deletions.value + [childToDelete])));
    }
    assert WithDeletions(f, [childToDelete]) == WithDeletion(f, childToDelete);
  }

  /** `deleteRemainingChildren(returnFiber, currentFirstChild)`: deletes the whole sibling list, in order. */
  method DeleteRemainingChildren(store: FiberStore, returnFiber: FiberId, currentFirstChild: Option<FiberId>,
                                 ghost chain: seq<FiberId>, shouldTrackEffects: bool)
    requires store.Valid() && returnFiber in store.fibers
    requires IsChain(store.fibers, currentFirstChild, chain) && returnFiber !in chain
    modifies store`fibers
    ensures store.Valid()
    ensures store.fibers == old(store.fibers)[returnFiber := AfterDeletions(old(store.fibers[returnFiber]), chain, shouldTrackEffects)]
    ensures AlternatesPaired(old(store.fibers)) ==> AlternatesPaired(store.fibers)
  {
    if !shouldTrackEffects {
      return;
    }
    ghost var fibers0 := store.fibers;
    ghost var f0 := store.fibers[returnFiber];
    var childToDelete := currentFirstChild;
    ghost var i := 0;
    while childToDelete.Some?
      invariant 0 <= i <= |chain|
      invariant store.Valid() && returnFiber in store.fibers
      invariant store.fibers == fibers0[returnFiber := WithDeletions(f0, chain[..i])]
      invariant IsChain(store.fibers, childToDelete, chain[i..])
      invariant AlternatesPaired(fibers0) ==> AlternatesPaired(store.fibers)
      decreases |chain| - i
    {
      ghost var before := store.fibers;
      ChainAfterWrite(store.fibers, returnFiber, WithDeletion(store.fibers[returnFiber], childToDelete.value), childToDelete, chain[i..]);
      DeleteChild(store, returnFiber, childToDelete.value, true);
      DeletedOneMore(fibers0, before, store.fibers, returnFiber, f0, chain, i);
      childToDelete := store.fibers[childToDelete.value].sibling;
      assert chain[i..][1..] == chain[i + 1..];
      i := i + 1;
    }
    assert chain[..i] == chain;
  }

  /** One more step of `deleteRemainingChildren` extends the run of deletions by the next fiber of the chain. */
  lemma DeletedOneMore(fibers0: map<FiberId, FiberNode>, before: map<FiberId, FiberNode>, after: map<FiberId, FiberNode>,
                       returnFiber: FiberId, f0: FiberNode, chain: seq<FiberId>, i: nat)
    requires i < |chain|
    requires before == fibers0[returnFiber := WithDeletions(f0, chain[..i])]
    requires after == before[returnFiber := AfterDeletions(before[returnFiber], [chain[i]], true)]
    ensures after == fibers0[returnFiber := WithDeletions(f0, chain[..i + 1])]
  {
    WithDeletionsSnoc(f0, chain[..i], chain[i]);
    assert chain[..i + 1] == chain[..i] + [chain[i]];
    assert WithDeletions(before[returnFiber], [chain[i]]) == WithDeletion(before[returnFiber], chain[i]);
  }

  /** Deleting `a` and then `b` is deleting `a + b`. */
  lemma {:induction false} WithDeletionsAppend(returnFiber: FiberNode, a: seq<FiberId>, b: seq<FiberId>)
    ensures WithDeletions(WithDeletions(returnFiber, a), b) == WithDeletions(returnFiber, a + b)
    decreases |a|
  {
    if a == [] {
      assert a + b == b;
    } else {
      assert (a + b)[0] == a[0] && (a + b)[1..] == a[1..] + b;
      WithDeletionsAppend(WithDeletion(returnFiber, a[0]), a[1..], b);
    }
  }

  /**
   * `clone` is the work-in-progress fiber `useFiber(current, props)` made of
   * `current`: the alternate of `current` (reused
   * if it had one), holding the new props at index 0 with no sibling and no
   * flags, and the type, queue, child, memoized props and state and ref of
   * `current`.
   */
  ghost predicate ReusedInto(fibers0: map<FiberId, FiberNode>, fibers1: map<FiberId, FiberNode>,
                             current: FiberId, clone: FiberId, props: JsValue)
  {
    current in fibers0 && current in fibers1 && clone in fibers1 &&
    fibers1[current] == fibers0[current].(alternate := Some(clone)) &&
    (fibers0[current].alternate.Some? ==> clone == fibers0[current].alternate.value) &&
    (fibers0[current].alternate.None? ==> clone !in fibers0) &&
    var w, c := fibers1[clone], fibers0[current];
    w.pendingProps == props && w.index == 0 && w.sibling.None? && w.alternate == Some(current) &&
    w.flags == NoFlags && w.subtreeFlags == NoFlags && w.deletions.None? &&
    w.elementType == c.elementType && w.updateQueue == c.updateQueue && w.child == c.child &&
    w.memoizedProps == c.memoizedProps && w.memoizedState == c.memoizedState && w.ref == c.ref
  }

  /** Only the fibers in `touched` differ between the two arenas, and `added` is the only new one. */
  ghost predicate OnlyTouched(fibers0: map<FiberId, FiberNode>, fibers1: map<FiberId, FiberNode>, touched: set<FiberId>, added: FiberId)
  {
    fibers1.Keys == fibers0.Keys + {added} &&
    forall id | id in fibers0 && id !in touched :: fibers1[id] == fibers0[id]
  }

  /** `useFiber(fiber, pendingProps)` */
  method UseFiber(store: FiberStore, fiber: FiberId, pendingProps: JsValue) returns (clone: FiberId)
    requires store.Valid() && fiber in store.fibers && AlternatesPaired(store.fibers)
    modifies store
    ensures store.Valid() && AlternatesPaired(store.fibers)
    ensures ReusedInto(old(store.fibers), store.fibers, fiber, clone, pendingProps)
    ensures clone in old(store.fibers) ==> store.fibers[clone].ret == old(store.fibers[clone]).ret
    ensures OnlyTouched(old(store.fibers), store.fibers, {fiber, clone}, clone)
  {
    clone := store.CreateWorkInProgress(fiber, pendingProps);
    assert store.fibers[fiber] == old(store.fibers[fiber]).(alternate := Some(clone));
    store.SetFiber(clone, store.fibers[clone].(index := 0, sibling := None));
  }

  lemma AfterDeletionsAppend(returnFiber: FiberNode, a: seq<FiberId>, b: seq<FiberId>, shouldTrackEffects: bool)
    ensures AfterDeletions(AfterDeletions(returnFiber, a, shouldTrackEffects), b, shouldTrackEffects)
         == AfterDeletions(returnFiber, a + b, shouldTrackEffects)
  {
    if shouldTrackEffects {
      WithDeletionsAppend(returnFiber, a, b);
    }
  }

  /**
   * The common tail of both single-child reconcilers once an old child `c`
   * matches: reuse it with the new props, attach the clone to `returnFiber`
   * and delete the siblings after `c`.
   */
  method ReuseMatch(store: FiberStore, returnFiber: FiberId, c: FiberId, ghost rest: seq<FiberId>, props: JsValue,
                    shouldTrackEffects: bool) returns (existing: FiberId)
    requires store.Valid() && AlternatesPaired(store.fibers) && returnFiber in store.fibers && c in store.fibers
    requires c != returnFiber && store.fibers[c].alternate != Some(returnFiber)
    requires IsChain(store.fibers, store.fibers[c].sibling, rest) && returnFiber !in rest
    requires store.fibers[c].alternate.Some? ==> store.fibers[c].alternate.value !in rest
    modifies store
    ensures store.Valid() && AlternatesPaired(store.fibers) && returnFiber in store.fibers
    ensures store.fibers[returnFiber] == AfterDeletions(old(store.fibers[returnFiber]), rest, shouldTrackEffects)
    ensures ReusedInto(old(store.fibers), store.fibers, c, existing, props) && store.fibers[existing].ret == Some(returnFiber)
    ensures OnlyTouched(old(store.fibers), store.fibers, {returnFiber, c, existing}, existing)
  {
    ghost var f0 := store.fibers;
    ChainInArena(f0, f0[c].sibling, rest);
    existing := UseFiber(store, c, props);
    ghost var f1 := store.fibers;
    AttachClone(store, existing, returnFiber, f0, c, rest);
    ghost var f2 := store.fibers;
    DeleteRemainingChildren(store, returnFiber, store.fibers[c].sibling, rest, shouldTrackEffects);
    ReusedThenWritten(f0, f1, f2, store.fibers, c, existing, props, returnFiber,
                      AfterDeletions(f2[returnFiber], rest, shouldTrackEffects));
  }

  /** `existing.return = returnFiber` after `useFiber`, keeping the chain after the reused child. */
  method AttachClone(store: FiberStore, existing: FiberId, returnFiber: FiberId,
                     ghost f0: map<FiberId, FiberNode>, ghost c: FiberId, ghost rest: seq<FiberId>)
    requires store.Valid() && AlternatesPaired(store.fibers) && existing in store.fibers
    requires c in f0 && c in store.fibers && store.fibers[c].sibling == f0[c].sibling
    requires IsChain(f0, f0[c].sibling, rest) && InArena(f0, rest) && OnlyTouched(f0, store.fibers, {c, existing}, existing)
    requires existing !in rest
    modifies store`fibers
    ensures store.Valid() && AlternatesPaired(store.fibers)
    ensures store.fibers == old(store.fibers)[existing := old(store.fibers[existing]).(ret := Some(returnFiber))]
    ensures IsChain(store.fibers, store.fibers[c].sibling, rest)
  {
    store.SetFiber(existing, store.fibers[existing].(ret := Some(returnFiber)));
    ChainFrame(f0, store.fibers, f0[c].sibling, rest);
  }

  /** Attaching the clone to its parent and rewriting the parent keep what `useFiber` established. */
  lemma ReusedThenWritten(f0: map<FiberId, FiberNode>, f1: map<FiberId, FiberNode>, f2: map<FiberId, FiberNode>,
                          f3: map<FiberId, FiberNode>, c: FiberId, clone: FiberId,
                          props: JsValue, returnFiber: FiberId, parent: FiberNode)
    requires ReusedInto(f0, f1, c, clone, props) && OnlyTouched(f0, f1, {c, clone}, clone)
    requires returnFiber in f0 && returnFiber != c && returnFiber != clone && c != clone
    requires f2 == f1[clone := f1[clone].(ret := Some(returnFiber))]
    requires f3 == f2[returnFiber := parent]
    ensures f2[returnFiber] == f0[returnFiber]
    ensures ReusedInto(f0, f3, c, clone, props) && OnlyTouched(f0, f3, {returnFiber, c, clone}, clone)
    ensures f3[clone].ret == Some(returnFiber) && f3[returnFiber] == parent
  {
  }

  /** Every fiber of the chain is in the arena. */
  ghost predicate InArena(fibers: map<FiberId, FiberNode>, chain: seq<FiberId>)
  {
    forall j | 0 <= j < |chain| :: chain[j] in fibers
  }

  lemma {:induction false} ChainInArena(fibers: map<FiberId, FiberNode>, first: Option<FiberId>, chain: seq<FiberId>)
    requires IsChain(fibers, first, chain)
    ensures InArena(fibers, chain)
    decreases |chain|
  {
    if chain != [] {
      ChainInArena(fibers, fibers[chain[0]].sibling, chain[1..]);
      assert forall j | 1 <= j < |chain| :: chain[j] == chain[1..][j - 1];
    }
  }

  /** The position of the first old child whose key is `key` (`===`), or `|chain|` if there is none. */
  function FirstKeyMatch(fibers: map<FiberId, FiberNode>, chain: seq<FiberId>, key: JsValue): (k: nat)
    requires InArena(fibers, chain)
    ensures k <= |chain|
    ensures forall j | 0 <= j < k :: !ObjectIs(fibers[chain[j]].key, key)
    ensures k < |chain| ==> ObjectIs(fibers[chain[k]].key, key)
    decreases |chain|
  {
    if chain == [] then 0
    else if ObjectIs(fibers[chain[0]].key, key) then 0
    else
      var k := FirstKeyMatch(fibers, chain[1..], key);
      assert forall j | 1 <= j < 1 + k :: chain[j] == chain[1..][j - 1];
      1 + k
  }

  /** The position of the first old `HostText` child, or `|chain|` if there is none. */
  function FirstHostText(fibers: map<FiberId, FiberNode>, chain: seq<FiberId>): (k: nat)
    requires InArena(fibers, chain)
    ensures k <= |chain|
    ensures forall j | 0 <= j < k :: fibers[chain[j]].tag != HostText
    ensures k < |chain| ==> fibers[chain[k]].tag == HostText
    decreases |chain|
  {
    if chain == [] then 0
    else if fibers[chain[0]].tag == HostText then 0
    else
      var k := FirstHostText(fibers, chain[1..]);
      assert forall j | 1 <= j < 1 + k :: chain[j] == chain[1..][j - 1];
      1 + k
  }

  /** Which old child a single-child reconciler reuses, if any, and which it queues for deletion, in order. */
  datatype Plan = Plan(reuse: Option<nat>, deleted: seq<FiberId>)

  /** The plan of `reconcileSingleElement(returnFiber, chain[0], element)`. */
  function ElementPlan(fibers: map<FiberId, FiberNode>, chain: seq<FiberId>, element: JsValue): Plan
    requires InArena(fibers, chain)
  {
    var k := FirstKeyMatch(fibers, chain, Get(element, "key"));
    if k == |chain| then Plan(None, chain)
    else if !ObjectIs(Get(element, "$$typeof"), REACT_ELEMENT_TYPE) then Plan(None, chain[..k])
    else if ObjectIs(fibers[chain[k]].elementType, Get(element, "type")) then Plan(Some(k), chain[..k] + chain[k + 1..])
    else Plan(None, chain)
  }

  /** The plan of `reconcileSingleTextNode(returnFiber, chain[0], content)`. */
  function TextPlan(fibers: map<FiberId, FiberNode>, chain: seq<FiberId>): Plan
    requires InArena(fibers, chain)
  {
    var k := FirstHostText(fibers, chain);
    if k == |chain| then Plan(None, chain) else Plan(Some(k), chain[..k] + chain[k + 1..])
  }

  /** A fiber occurs at most once in a sibling list. */
  ghost predicate Distinct(chain: seq<FiberId>)
  {
    forall a, b | 0 <= a < b < |chain| :: chain[a] != chain[b]
  }

  /**
   * For a React element every old child is either reused or queued for
   * deletion, and not both; the reused child has the element's key and type,
   * and all children before it have other keys.
   */
  lemma ElementPlanPartitions(fibers: map<FiberId, FiberNode>, chain: seq<FiberId>, element: JsValue)
    requires InArena(fibers, chain) && Distinct(chain)
    requires ObjectIs(Get(element, "$$typeof"), REACT_ELEMENT_TYPE)
    ensures var p := ElementPlan(fibers, chain, element);
            forall j | 0 <= j < |chain| :: (chain[j] in p.deleted <==> p.reuse != Some(j))
    ensures var p := ElementPlan(fibers, chain, element);
            p.reuse.Some? ==> p.reuse.value < |chain| &&
                              ObjectIs(fibers[chain[p.reuse.value]].key, Get(element, "key")) &&
                              ObjectIs(fibers[chain[p.reuse.value]].elementType, Get(element, "type")) &&
                              forall j | 0 <= j < p.reuse.value :: !ObjectIs(fibers[chain[j]].key, Get(element, "key"))
    ensures var p := ElementPlan(fibers, chain, element);
            p.reuse.None? ==> p.deleted == chain
  {
    var p := ElementPlan(fibers, chain, element);
    if p.reuse.Some? {
      var k := p.reuse.value;
      forall j | 0 <= j < |chain| ensures chain[j] in p.deleted <==> j != k {
        if j < k {
          assert p.deleted[j] == chain[j];
        } else if j > k {
          assert p.deleted[j - 1] == chain[j];
        }
      }
    }
  }

  /** Old children before the first text fiber are deleted in order; the text fiber is reused and the rest deleted. */
  lemma TextPlanPartitions(fibers: map<FiberId, FiberNode>, chain: seq<FiberId>)
    requires InArena(fibers, chain) && Distinct(chain)
    ensures var p := TextPlan(fibers, chain);
            forall j | 0 <= j < |chain| :: (chain[j] in p.deleted <==> p.reuse != Some(j))
    ensures var p := TextPlan(fibers, chain);
            p.reuse.Some? ==> p.reuse.value < |chain| && fibers[chain[p.reuse.value]].tag == HostText &&
                              forall j | 0 <= j < p.reuse.value :: fibers[chain[j]].tag != HostText
    ensures var p := TextPlan(fibers, chain);
            p.reuse.None? ==> p.deleted == chain && forall j | 0 <= j < |chain| :: fibers[chain[j]].tag != HostText
  {
    var p := TextPlan(fibers, chain);
    if p.reuse.Some? {
      var k := p.reuse.value;
      forall j | 0 <= j < |chain| ensures chain[j] in p.deleted <==> j != k {
        if j < k {
          assert p.deleted[j] == chain[j];
        } else if j > k {
          assert p.deleted[j - 1] == chain[j];
        }
      }
    }
  }

  /** The fiber `createFiberFromElement(element)` makes, attached to `returnFiber`. */
  function NewElementFiber(element: JsValue, returnFiber: FiberId): FiberNode
  {
    ElementFiber(element).(ret := Some(returnFiber))
  }

  /**
   * `reconcileSingleElement` throws: it finds no old child to reuse, and
   * `createFiberFromElement` throws on the element's `null` type.
   */
  ghost predicate CreateThrows(fibers: map<FiberId, FiberNode>, chain: seq<FiberId>, element: JsValue)
    requires InArena(fibers, chain)
  {
    ElementPlan(fibers, chain, element).reuse.None? && Get(element, "type").Null?
  }

  /** What a single-child reconciler leaves in the arena when it carries out `plan` and yields `fiber`. */
  ghost predicate Carried(fibers0: map<FiberId, FiberNode>, fibers1: map<FiberId, FiberNode>, returnFiber: FiberId,
                          chain: seq<FiberId>, plan: Plan, props: JsValue, created: FiberNode, fiber: FiberId,
                          shouldTrackEffects: bool)
    requires returnFiber in fibers0
  {
    match plan.reuse
    case Some(k) =>
      k < |chain| && returnFiber in fibers1 &&
      fibers1[returnFiber] == AfterDeletions(fibers0[returnFiber], plan.deleted, shouldTrackEffects) &&
      ReusedInto(fibers0, fibers1, chain[k], fiber, props) && fibers1[fiber].ret == Some(returnFiber) &&
      OnlyTouched(fibers0, fibers1, {returnFiber, chain[k], fiber}, fiber)
    case None =>
      fiber !in fibers0 &&
      fibers1 == fibers0[returnFiber := AfterDeletions(fibers0[returnFiber], plan.deleted, shouldTrackEffects)][fiber := created]
  }

  /** The requirements every walk over the old children shares. */
  ghost predicate CanReconcile(store: FiberStore, returnFiber: FiberId, currentFiber: Option<FiberId>, chain: seq<FiberId>)
    reads store
  {
    store.Valid() && AlternatesPaired(store.fibers) && returnFiber in store.fibers &&
    IsChain(store.fibers, currentFiber, chain) && ApartFrom(store.fibers, chain, returnFiber)
  }

  /**
   * The walk both single-child reconcilers start with: delete old children
   * from the front while `matches` fails, and stop at the first that matches
   * (at index `i`, or `|chain|` when none does).
   */
  method DeleteUntil(store: FiberStore, returnFiber: FiberId, currentFiber: Option<FiberId>, ghost chain: seq<FiberId>,
                     matches: FiberNode -> bool, shouldTrackEffects: bool)
    returns (current: Option<FiberId>, ghost i: nat)
    requires CanReconcile(store, returnFiber, currentFiber, chain)
    modifies store`fibers
    ensures store.Valid() && AlternatesPaired(store.fibers) && InArena(old(store.fibers), chain)
    ensures i <= |chain| && (forall j | 0 <= j < i :: !matches(old(store.fibers)[chain[j]]))
    ensures i < |chain| ==> matches(old(store.fibers)[chain[i]]) && current == Some(chain[i])
    ensures i == |chain| ==> current.None?
    ensures store.fibers == old(store.fibers)[returnFiber := AfterDeletions(old(store.fibers[returnFiber]), chain[..i], shouldTrackEffects)]
    ensures IsChain(store.fibers, current, chain[i..])
  {
    ghost var f0 := store.fibers;
    ghost var rf0 := f0[returnFiber];
    ChainInArena(f0, currentFiber, chain);
    current := currentFiber;
    i := 0;
    while current.Some? && !matches(store.fibers[current.value])
      invariant 0 <= i <= |chain| && forall j | 0 <= j < i :: !matches(f0[chain[j]])
      invariant store.Valid()
      invariant store.fibers == f0[returnFiber := AfterDeletions(rf0, chain[..i], shouldTrackEffects)]
      invariant IsChain(store.fibers, current, chain[i..])
      decreases |chain| - i
    {
      current := DeleteAndAdvance(store, returnFiber, current.value, f0, chain, i, shouldTrackEffects);
      i := i + 1;
    }
    if current.Some? {
      assert chain[i] == current.value;
    }
    PairedAfterUpdate(f0, returnFiber, AfterDeletions(rf0, chain[..i], shouldTrackEffects));
  }

  /** One step of the walk: delete the old child at position `i` and move to its sibling. */
  method DeleteAndAdvance(store: FiberStore, returnFiber: FiberId, c: FiberId, ghost f0: map<FiberId, FiberNode>,
                          ghost chain: seq<FiberId>, ghost i: nat, shouldTrackEffects: bool)
    returns (next: Option<FiberId>)
    requires store.Valid() && returnFiber in f0 && returnFiber !in chain && i < |chain|
    requires store.fibers == f0[returnFiber := AfterDeletions(f0[returnFiber], chain[..i], shouldTrackEffects)]
    requires IsChain(store.fibers, Some(c), chain[i..])
    modifies store`fibers
    ensures store.Valid() && chain[i] == c
    ensures store.fibers == f0[returnFiber := AfterDeletions(f0[returnFiber], chain[..i + 1], shouldTrackEffects)]
    ensures IsChain(store.fibers, next, chain[i + 1..])
  {
    assert chain[i] == c && chain[i..][1..] == chain[i + 1..];
    ChainAfterWrite(store.fibers, returnFiber, AfterDeletions(store.fibers[returnFiber], [c], shouldTrackEffects), Some(c), chain[i..]);
    DeleteChild(store, returnFiber, c, shouldTrackEffects);
    AfterDeletionsAppend(f0[returnFiber], chain[..i], [c], shouldTrackEffects);
    assert chain[..i + 1] == chain[..i] + [c];
    next := store.fibers[c].sibling;
  }

  /** The first old child `DeleteUntil` stops at, for a key. */
  lemma StopsAtKey(fibers: map<FiberId, FiberNode>, chain: seq<FiberId>, key: JsValue, i: nat)
    requires InArena(fibers, chain) && i <= |chain|
    requires forall j | 0 <= j < i :: !ObjectIs(fibers[chain[j]].key, key)
    requires i < |chain| ==> ObjectIs(fibers[chain[i]].key, key)
    ensures i == FirstKeyMatch(fibers, chain, key)
  {
  }

  /**
   * `reconcileSingleElement(returnFiber, currentFiber, element)`: walks the
   * old children, deleting those with another key; on a key match it reuses
   * the child if the type matches too and deletes the rest, and otherwise
   * deletes it with the rest and creates a fresh fiber.
   */
  method ReconcileSingleElement(store: FiberStore, returnFiber: FiberId, currentFiber: Option<FiberId>,
                                ghost chain: seq<FiberId>, element: JsValue, shouldTrackEffects: bool)
    returns (r: Result<FiberId>, ghost plan: Plan)
    requires CanReconcile(store, returnFiber, currentFiber, chain)
    modifies store
    ensures store.Valid() && AlternatesPaired(store.fibers)
    ensures InArena(old(store.fibers), chain) && plan == ElementPlan(old(store.fibers), chain, element)
    ensures r.Err? <==> CreateThrows(old(store.fibers), chain, element)
    ensures r.Err? ==>
              r.message == ReadOfUndefined &&
              store.fibers == old(store.fibers)[returnFiber := AfterDeletions(old(store.fibers[returnFiber]), plan.deleted, shouldTrackEffects)]
    ensures r.Ok? ==>
              Carried(old(store.fibers), store.fibers, returnFiber, chain, plan, Get(element, "props"),
                      NewElementFiber(element, returnFiber), r.value, shouldTrackEffects)
  {
    var key := Get(element, "key");
    var current;
    ghost var i;
    current, i := DeleteUntil(store, returnFiber, currentFiber, chain, (f: FiberNode) => ObjectIs(f.key, key), shouldTrackEffects);
    StopsAtKey(old(store.fibers), chain, key, i);
    plan := ElementPlan(old(store.fibers), chain, element);
    r := FinishSingleElement(store, returnFiber, current, old(store.fibers), chain, i, element, shouldTrackEffects);
  }

  /** The part of `reconcileSingleElement` after the walk has stopped at the first old child with the element's key, if any. */
  method FinishSingleElement(store: FiberStore, returnFiber: FiberId, current: Option<FiberId>, ghost f0: map<FiberId, FiberNode>,
                             ghost chain: seq<FiberId>, ghost i: nat, element: JsValue, shouldTrackEffects: bool)
    returns (r: Result<FiberId>)
    requires store.Valid() && AlternatesPaired(store.fibers) && returnFiber in f0
    requires InArena(f0, chain) && ApartFrom(f0, chain, returnFiber)
    requires i == FirstKeyMatch(f0, chain, Get(element, "key"))
    requires i < |chain| ==> current == Some(chain[i])
    requires i == |chain| ==> current.None?
    requires store.fibers == f0[returnFiber := AfterDeletions(f0[returnFiber], chain[..i], shouldTrackEffects)]
    requires IsChain(store.fibers, current, chain[i..])
    modifies store
    ensures store.Valid() && AlternatesPaired(store.fibers)
    ensures r.Err? <==> CreateThrows(f0, chain, element)
    ensures r.Err? ==>
              r.message == ReadOfUndefined &&
              store.fibers == f0[returnFiber := AfterDeletions(f0[returnFiber], ElementPlan(f0, chain, element).deleted, shouldTrackEffects)]
    ensures r.Ok? ==>
              Carried(f0, store.fibers, returnFiber, chain, ElementPlan(f0, chain, element), Get(element, "props"),
                      NewElementFiber(element, returnFiber), r.value, shouldTrackEffects)
  {
    ghost var plan := ElementPlan(f0, chain, element);
    ghost var deleted := chain[..i];
    if current.Some? {
      var c := current.value;
      assert chain[i..][1..] == chain[i + 1..];
      if ObjectIs(Get(element, "$$typeof"), REACT_ELEMENT_TYPE) {
        if ObjectIs(store.fibers[c].elementType, Get(element, "type")) {
          var fiber := ReuseAt(store, returnFiber, c, f0, chain, i, Get(element, "props"), NewElementFiber(element, returnFiber),
                               shouldTrackEffects);
          return Ok(fiber);
        }
        DeleteFromMatch(store, returnFiber, c, f0, chain, i, shouldTrackEffects);
        deleted := chain;
      }
    } else {
      assert deleted == chain;
    }
    assert plan == Plan(None, deleted);
    r := CreateAfterDeletions(store, returnFiber, f0, chain, plan, element, shouldTrackEffects);
  }

  /** The end of `reconcileSingleElement` when no old child is reused: a fresh fiber from the element, which throws for a `null` type. */
  method CreateAfterDeletions(store: FiberStore, returnFiber: FiberId, ghost f0: map<FiberId, FiberNode>, ghost chain: seq<FiberId>,
                              ghost plan: Plan, element: JsValue, shouldTrackEffects: bool)
    returns (r: Result<FiberId>)
    requires store.Valid() && AlternatesPaired(store.fibers) && returnFiber in f0 && plan.reuse.None?
    requires store.fibers == f0[returnFiber := AfterDeletions(f0[returnFiber], plan.deleted, shouldTrackEffects)]
    modifies store
    ensures store.Valid() && AlternatesPaired(store.fibers)
    ensures r.Err? <==> Get(element, "type").Null?
    ensures r.Err? ==> r.message == ReadOfUndefined && store.fibers == old(store.fibers)
    ensures r.Ok? ==>
              Carried(f0, store.fibers, returnFiber, chain, plan, Get(element, "props"),
                      NewElementFiber(element, returnFiber), r.value, shouldTrackEffects)
  {
    ghost var fi := store.fibers;
    r := CreateElementChild(store, returnFiber, element);
    if r.Ok? {
      CarriedByCreate(f0, fi, store.fibers, returnFiber, chain, plan, Get(element, "props"),
                      NewElementFiber(element, returnFiber), r.value, shouldTrackEffects);
    }
  }

  /** `createFiberFromElement(element)` with its `return` set to `returnFiber`; a `null` type throws. */
  method CreateElementChild(store: FiberStore, returnFiber: FiberId, element: JsValue) returns (r: Result<FiberId>)
    requires store.Valid() && AlternatesPaired(store.fibers)
    modifies store
    ensures store.Valid() && AlternatesPaired(store.fibers)
    ensures r.Err? <==> Get(element, "type").Null?
    ensures r.Err? ==> r.message == ReadOfUndefined && store.fibers == old(store.fibers)
    ensures r.Ok? ==> r.value !in old(store.fibers) && store.fibers == old(store.fibers)[r.value := NewElementFiber(element, returnFiber)]
  {
    ghost var f0 := store.fibers;
    r := store.CreateFiberFromElement(element);
    if r.Err? {
      return;
    }
    var fiber := r.value;
    ghost var f1 := store.fibers;
    store.SetFiber(fiber, store.fibers[fiber].(ret := Some(returnFiber)));
    CreatedThenParented(f0, f1, store.fibers, fiber, element, returnFiber);
  }

  /** Setting the return fiber of a fiber just created from `element` gives the element's fiber under `returnFiber`. */
  lemma CreatedThenParented(f0: map<FiberId, FiberNode>, f1: map<FiberId, FiberNode>, f2: map<FiberId, FiberNode>,
                            fiber: FiberId, element: JsValue, returnFiber: FiberId)
    requires f1 == f0[fiber := ElementFiber(element)]
    requires f2 == f1[fiber := f1[fiber].(ret := Some(returnFiber))]
    ensures f2 == f0[fiber := NewElementFiber(element, returnFiber)]
  {
  }

  /** Creating a fresh fiber after deleting every old child the plan lists carries out a plan that reuses nothing. */
  lemma CarriedByCreate(f0: map<FiberId, FiberNode>, fi: map<FiberId, FiberNode>, f1: map<FiberId, FiberNode>,
                        returnFiber: FiberId, chain: seq<FiberId>, plan: Plan, props: JsValue, created: FiberNode,
                        fiber: FiberId, shouldTrackEffects: bool)
    requires returnFiber in f0 && plan.reuse.None?
    requires fi == f0[returnFiber := AfterDeletions(f0[returnFiber], plan.deleted, shouldTrackEffects)]
    requires fiber !in fi && f1 == fi[fiber := created]
    ensures Carried(f0, f1, returnFiber, chain, plan, props, created, fiber, shouldTrackEffects)
  {
  }

  /** The reuse branch: `useFiber` on the matching old child at `i`, then delete the children after it. */
  method ReuseAt(store: FiberStore, returnFiber: FiberId, c: FiberId, ghost f0: map<FiberId, FiberNode>,
                 ghost chain: seq<FiberId>, ghost i: nat, props: JsValue, ghost created: FiberNode, shouldTrackEffects: bool)
    returns (fiber: FiberId)
    requires store.Valid() && AlternatesPaired(store.fibers) && returnFiber in f0 && i < |chain| && chain[i] == c
    requires InArena(f0, chain) && ApartFrom(f0, chain, returnFiber)
    requires store.fibers == f0[returnFiber := AfterDeletions(f0[returnFiber], chain[..i], shouldTrackEffects)]
    requires IsChain(store.fibers, Some(c), chain[i..])
    modifies store
    ensures store.Valid() && AlternatesPaired(store.fibers)
    ensures Carried(f0, store.fibers, returnFiber, chain, Plan(Some(i), chain[..i] + chain[i + 1..]), props, created, fiber,
                    shouldTrackEffects)
  {
    assert chain[i..][1..] == chain[i + 1..];
    ghost var fi := store.fibers;
    fiber := ReuseMatch(store, returnFiber, c, chain[i + 1..], props, shouldTrackEffects);
    CarriedByReuse(f0, fi, store.fibers, returnFiber, chain, i, props, created, fiber, shouldTrackEffects);
  }

  /** The mismatch branch: the old child with the key is deleted with every child after it. */
  method DeleteFromMatch(store: FiberStore, returnFiber: FiberId, c: FiberId, ghost f0: map<FiberId, FiberNode>,
                         ghost chain: seq<FiberId>, ghost i: nat, shouldTrackEffects: bool)
    requires store.Valid() && AlternatesPaired(store.fibers) && returnFiber in f0 && returnFiber !in chain && i <= |chain|
    requires store.fibers == f0[returnFiber := AfterDeletions(f0[returnFiber], chain[..i], shouldTrackEffects)]
    requires IsChain(store.fibers, Some(c), chain[i..])
    modifies store`fibers
    ensures store.Valid() && AlternatesPaired(store.fibers)
    ensures store.fibers == f0[returnFiber := AfterDeletions(f0[returnFiber], chain, shouldTrackEffects)]
  {
    DeleteRemainingChildren(store, returnFiber, Some(c), chain[i..], shouldTrackEffects);
    AfterDeletionsAppend(f0[returnFiber], chain[..i], chain[i..], shouldTrackEffects);
    assert chain[..i] + chain[i..] == chain;
  }

  /** Reusing the old child at `i` after deleting those before it carries out the plan that reuses it. */
  lemma CarriedByReuse(f0: map<FiberId, FiberNode>, fi: map<FiberId, FiberNode>, f1: map<FiberId, FiberNode>,
                       returnFiber: FiberId, chain: seq<FiberId>, i: nat, props: JsValue, created: FiberNode,
                       fiber: FiberId, shouldTrackEffects: bool)
    requires returnFiber in f0 && i < |chain| && returnFiber !in chain
    requires fi == f0[returnFiber := AfterDeletions(f0[returnFiber], chain[..i], shouldTrackEffects)]
    requires returnFiber in f1 && f1[returnFiber] == AfterDeletions(fi[returnFiber], chain[i + 1..], shouldTrackEffects)
    requires ReusedInto(fi, f1, chain[i], fiber, props) && f1[fiber].ret == Some(returnFiber)
    requires OnlyTouched(fi, f1, {returnFiber, chain[i], fiber}, fiber)
    ensures Carried(f0, f1, returnFiber, chain, Plan(Some(i), chain[..i] + chain[i + 1..]), props, created, fiber, shouldTrackEffects)
  {
    AfterDeletionsAppend(f0[returnFiber], chain[..i], chain[i + 1..], shouldTrackEffects);
  }

  /** The old child the text walk stops at: the first `HostText` fiber. */
  lemma StopsAtText(fibers: map<FiberId, FiberNode>, chain: seq<FiberId>, i: nat)
    requires InArena(fibers, chain) && i <= |chain|
    requires forall j | 0 <= j < i :: fibers[chain[j]].tag != HostText
    requires i < |chain| ==> fibers[chain[i]].tag == HostText
    ensures i == FirstHostText(fibers, chain)
  {
  }

  /** The props object `{ content }` a text fiber receives. */
  function TextProps(oid: Ref, content: JsValue): JsValue
  {
    Obj(oid, map["content" := content])
  }

  /** The fiber `new FiberNode(HostText, props, null)` makes, attached to `returnFiber`. */
  function NewTextFiber(props: JsValue, returnFiber: FiberId): FiberNode
  {
    InitialFiber(HostText, props, Null).(ret := Some(returnFiber))
  }

  /** `new FiberNode(HostText, props, null)` with its `return` set to `returnFiber`. */
  method CreateTextChild(store: FiberStore, returnFiber: FiberId, props: JsValue) returns (fiber: FiberId)
    requires store.Valid() && AlternatesPaired(store.fibers)
    modifies store
    ensures store.Valid() && AlternatesPaired(store.fibers)
    ensures fiber !in old(store.fibers) && store.fibers == old(store.fibers)[fiber := NewTextFiber(props, returnFiber)]
  {
    fiber := store.NewFiberNode(HostText, props, Null);
    store.SetFiber(fiber, store.fibers[fiber].(ret := Some(returnFiber)));
  }

  /**
   * `reconcileSingleTextNode(returnFiber, currentFiber, content)`: deletes old
   * children up to the first text fiber, reuses that one with props
   * `{ content }` and deletes the rest; with no text fiber every old child is
   * deleted and a fresh text fiber is made.  The one props object takes the
   * next identity on either path.
   */
  method ReconcileSingleTextNode(store: FiberStore, alloc: Allocator, returnFiber: FiberId, currentFiber: Option<FiberId>,
                                 ghost chain: seq<FiberId>, content: JsValue, shouldTrackEffects: bool)
    returns (fiber: FiberId, ghost plan: Plan)
    requires CanReconcile(store, returnFiber, currentFiber, chain)
    modifies store, alloc
    ensures store.Valid() && AlternatesPaired(store.fibers) && alloc.next == old(alloc.next) + 1
    ensures InArena(old(store.fibers), chain) && plan == TextPlan(old(store.fibers), chain)
    ensures Carried(old(store.fibers), store.fibers, returnFiber, chain, plan, TextProps(old(alloc.next), content),
                    NewTextFiber(TextProps(old(alloc.next), content), returnFiber), fiber, shouldTrackEffects)
  {
    ghost var f0 := store.fibers;
    var current;
    ghost var i;
    current, i := DeleteUntil(store, returnFiber, currentFiber, chain, (f: FiberNode) => f.tag == HostText, shouldTrackEffects);
    StopsAtText(f0, chain, i);
    plan := TextPlan(f0, chain);
    var props := alloc.NewObject(map["content" := content]);
    if current.Some? {
      fiber := ReuseAt(store, returnFiber, current.value, f0, chain, i, props, NewTextFiber(props, returnFiber),
                       shouldTrackEffects);
      return;
    }
    assert chain[..i] == chain;
    ghost var fi := store.fibers;
    fiber := CreateTextChild(store, returnFiber, props);
    CarriedByCreate(f0, fi, store.fibers, returnFiber, chain, plan, props, NewTextFiber(props, returnFiber), fiber,
                    shouldTrackEffects);
  }

  /** The flags `placeSingleChild` leaves on `f`: `Placement` is added when tracking effects and `f` has no alternate. */
  function Placed(f: FiberNode, shouldTrackEffects: bool): (r: FiberNode)
    ensures r == f.(flags := r.flags)
    ensures r.flags & Placement != 0 <==> f.flags & Placement != 0 || (shouldTrackEffects && f.alternate.None?)
    ensures r.flags & !Placement == f.flags & !Placement
  {
    if shouldTrackEffects && f.alternate.None? then f.(flags := f.flags | Placement) else f
  }

  /** `placeSingleChild(fiber)` */
  method PlaceSingleChild(store: FiberStore, fiber: FiberId, shouldTrackEffects: bool)
    requires store.Valid() && fiber in store.fibers
    modifies store`fibers
    ensures store.Valid() && store.fibers == old(store.fibers)[fiber := Placed(old(store.fibers[fiber]), shouldTrackEffects)]
    ensures AlternatesPaired(old(store.fibers)) ==> AlternatesPaired(store.fibers)
  {
    if shouldTrackEffects && store.fibers[fiber].alternate.None? {
      store.SetFiber(fiber, store.fibers[fiber].(flags := store.fibers[fiber].flags | Placement));
    } else {
      assert store.fibers == store.fibers[fiber := store.fibers[fiber]];
    }
  }

  /** A child `reconcileChildFibers` treats as a single React element. */
  predicate IsElementChild(newChild: JsValue)
  {
    IsObject(newChild) && ObjectIs(Get(newChild, "$$typeof"), REACT_ELEMENT_TYPE)
  }

  /** A child `reconcileChildFibers` treats as text. */
  predicate IsTextChild(newChild: JsValue)
  {
    newChild.Num? || newChild.Str?
  }

  /** A reused fiber is never placed, whatever `shouldTrackEffects` says. */
  lemma PlacedKeepsReused(fibers0: map<FiberId, FiberNode>, fibers1: map<FiberId, FiberNode>, current: FiberId,
                          clone: FiberId, props: JsValue, shouldTrackEffects: bool)
    requires ReusedInto(fibers0, fibers1, current, clone, props)
    ensures fibers1[clone] == Placed(fibers1[clone], shouldTrackEffects)
    ensures fibers1[clone].flags == NoFlags
  {
  }

  /**
   * What `reconcileChildFibers(returnFiber, chain[0], newChild)` leaves in the
   * arena and the allocator, and the child it yields: an element or a text
   * is reconciled by its plan and placed, and anything else yields no child
   * and deletes only the first old child.
   */
  ghost predicate ReconciledChildren(fibers0: map<FiberId, FiberNode>, fibers1: map<FiberId, FiberNode>, next0: Ref, next1: Ref,
                                     returnFiber: FiberId, chain: seq<FiberId>, newChild: JsValue, shouldTrackEffects: bool,
                                     r: Result<Option<FiberId>>)
    requires returnFiber in fibers0 && InArena(fibers0, chain)
  {
    returnFiber in fibers1 &&
    if IsElementChild(newChild) && CreateThrows(fibers0, chain, newChild) then
      r == Err(ReadOfUndefined) && next1 == next0 &&
      fibers1 == fibers0[returnFiber := AfterDeletions(fibers0[returnFiber], ElementPlan(fibers0, chain, newChild).deleted, shouldTrackEffects)]
    else if IsElementChild(newChild) then
      r.Ok? && r.value.Some? && next1 == next0 &&
      Carried(fibers0, fibers1, returnFiber, chain, ElementPlan(fibers0, chain, newChild), Get(newChild, "props"),
              Placed(NewElementFiber(newChild, returnFiber), shouldTrackEffects), r.value.value, shouldTrackEffects)
    else if IsTextChild(newChild) then
      r.Ok? && r.value.Some? && next1 == next0 + 1 &&
      Carried(fibers0, fibers1, returnFiber, chain, TextPlan(fibers0, chain), TextProps(next0, newChild),
              Placed(NewTextFiber(TextProps(next0, newChild), returnFiber), shouldTrackEffects), r.value.value, shouldTrackEffects)
    else
      r == Ok(None) && next1 == next0 &&
      fibers1 == fibers0[returnFiber := AfterDeletions(fibers0[returnFiber], chain[..if chain == [] then 0 else 1], shouldTrackEffects)]
  }

  /**
   * `reconcileChildFibers(returnFiber, currentFiber, newChild)` of
   * `ChildReconciler(shouldTrackEffects)`: `reconcileChildFibers` itself is
   * the tracking reconciler and `mountChildFibers` the one with
   * `shouldTrackEffects == false`.
   */
  method ReconcileChildFibers(store: FiberStore, alloc: Allocator, returnFiber: FiberId, currentFiber: Option<FiberId>,
                              ghost chain: seq<FiberId>, newChild: JsValue, shouldTrackEffects: bool)
    returns (r: Result<Option<FiberId>>)
    requires CanReconcile(store, returnFiber, currentFiber, chain)
    modifies store, alloc
    ensures store.Valid() && AlternatesPaired(store.fibers) && InArena(old(store.fibers), chain)
    ensures ReconciledChildren(old(store.fibers), store.fibers, old(alloc.next), alloc.next, returnFiber, chain, newChild,
                               shouldTrackEffects, r)
  {
    ChainInArena(store.fibers, currentFiber, chain);
    if IsElementChild(newChild) {
      var res, plan := ReconcileSingleElement(store, returnFiber, currentFiber, chain, newChild, shouldTrackEffects);
      if res.Err? {
        return Err(res.message);
      }
      PlaceChild(store, returnFiber, res.value, plan, old(store.fibers), chain, Get(newChild, "props"),
                 NewElementFiber(newChild, returnFiber), shouldTrackEffects);
      return Ok(Some(res.value));
    }
    if IsTextChild(newChild) {
      var fiber, plan := ReconcileSingleTextNode(store, alloc, returnFiber, currentFiber, chain, newChild, shouldTrackEffects);
      PlaceChild(store, returnFiber, fiber, plan, old(store.fibers), chain, TextProps(old(alloc.next), newChild),
                 NewTextFiber(TextProps(old(alloc.next), newChild), returnFiber), shouldTrackEffects);
      return Ok(Some(fiber));
    }
    if currentFiber.Some? {
      DeleteChild(store, returnFiber, currentFiber.value, shouldTrackEffects);
      assert chain[..1] == [currentFiber.value];
    } else {
      assert store.fibers == store.fibers[returnFiber := store.fibers[returnFiber]];
    }
    r := Ok(None);
  }

  /** `placeSingleChild` applied to the fiber a single-child reconciler yielded, keeping what that reconciler did. */
  method PlaceChild(store: FiberStore, returnFiber: FiberId, fiber: FiberId, ghost plan: Plan,
                    ghost f0: map<FiberId, FiberNode>, ghost chain: seq<FiberId>, ghost props: JsValue,
                    ghost created: FiberNode, shouldTrackEffects: bool)
    requires store.Valid() && AlternatesPaired(store.fibers) && returnFiber in f0
    requires Carried(f0, store.fibers, returnFiber, chain, plan, props, created, fiber, shouldTrackEffects)
    requires plan.reuse.None? ==> created.alternate.None?
    modifies store`fibers
    ensures store.Valid() && AlternatesPaired(store.fibers)
    ensures Carried(f0, store.fibers, returnFiber, chain, plan, props, Placed(created, shouldTrackEffects), fiber,
                    shouldTrackEffects)
  {
    if plan.reuse.Some? {
      PlacedKeepsReused(f0, store.fibers, chain[plan.reuse.value], fiber, props, shouldTrackEffects);
    }
    PlaceSingleChild(store, fiber, shouldTrackEffects);
  }
}
