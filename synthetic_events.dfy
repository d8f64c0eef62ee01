/**
 * Synthetic events of the DOM renderer: one listener on the container
 * collects the React handlers on the path from the event target up to the
 * container and runs the capture handlers outermost first, then the bubble
 * handlers innermost first (the two phases of section 2.9 "Dispatching
 * events" of the WHATWG DOM Standard).
 *
 * The DOM is given as the target's ancestor chain: the target, its
 * `parentNode`, that node's `parentNode`, and so on up to the node whose
 * `parentNode` is `null`.  Each node carries the props the renderer stored on
 * it under `__reactProps` (`undefined` if none).
 */
module SyntheticEvents {
  import opened Wrappers
  import opened Js
  import opened Scheduler
  import opened Lanes
  import opened EarlyExit

  type NodeRef = nat

  datatype DomNode = DomNode(id: NodeRef, reactProps: JsValue)

  /** The event types `initEvent` installs a listener for. */
  const validEventTypeList: seq<string> := ["click"]

  /** `initEvent` listens only for a supported type (the listener itself is the DOM's). */
  predicate InitEventListens(eventType: string)
  {
    eventType in validEventTypeList
  }

  /** `[captureEventName, bubbleEventName]` of an event type. */
  function GetEventCallbackNameFromEventType(eventType: string): (names: Option<(string, string)>)
    ensures names.Some? <==> eventType == "click"
    ensures names.Some? ==> names.value == ("onClickCapture", "onClick")
  {
    if eventType == "click" then Some(("onClickCapture", "onClick")) else None
  }

  function EventTypeToSchedulerPriority(eventType: string): (p: SchedulerPriority)
    ensures p == ImmediatePriority <==> eventType in {"click", "keydown", "keyup"}
    ensures p == UserBlockingPriority <==> eventType == "scroll"
    ensures p == NormalPriority <==> eventType !in {"click", "keydown", "keyup", "scroll"}
  {
    if eventType == "click" || eventType == "keydown" || eventType == "keyup" then ImmediatePriority
    else if eventType == "scroll" then UserBlockingPriority
    else NormalPriority
  }

  /** Updates made by a click handler outside a transition get the sync lane. */
  lemma ClickUpdatesAreSync()
    ensures RequestUpdateLanes(None, EventTypeToSchedulerPriority("click")) == SyncLane
    ensures RequestUpdateLanes(None, EventTypeToSchedulerPriority("scroll")) == InputContinuousLane
  {
  }

  /** The nodes `collectPaths` visits: the chain up to, and not including, the container. */
  function Visited(chain: seq<DomNode>, container: NodeRef): (visited: seq<DomNode>)
    ensures visited <= chain
    ensures forall k | 0 <= k < |visited| :: visited[k].id != container
    ensures |visited| < |chain| ==> chain[|visited|].id == container
  {
    if chain == [] || chain[0].id == container then [] else [chain[0]] + Visited(chain[1..], container)
  }

  /** The callback a node contributes under `name`, if it has props holding a truthy one. */
  function CallbackOf(node: DomNode, name: string): seq<JsValue>
  {
    if Truthy(node.reactProps) && Truthy(Get(node.reactProps, name)) then [Get(node.reactProps, name)] else []
  }

  /** The callbacks stored under `name` on `nodes`, in the order of `nodes`. */
  function Callbacks(nodes: seq<DomNode>, name: string): (cbs: seq<JsValue>)
    ensures |cbs| <= |nodes|
  {
    if nodes == [] then [] else CallbackOf(nodes[0], name) + Callbacks(nodes[1..], name)
  }

  function Reverse<T>(s: seq<T>): (r: seq<T>)
    ensures |r| == |s| && forall i | 0 <= i < |s| :: r[i] == s[|s| - 1 - i]
  {
    if s == [] then [] else Reverse(s[1..]) + [s[0]]
  }

  lemma {:induction false} CallbacksAppend(a: seq<DomNode>, b: seq<DomNode>, name: string)
    ensures Callbacks(a + b, name) == Callbacks(a, name) + Callbacks(b, name)
    decreases |a|
  {
    if a == [] {
      assert a + b == b;
    } else {
      assert (a + b)[1..] == a[1..] + b;
      CallbacksAppend(a[1..], b, name);
    }
  }

  lemma ReverseAppend<T>(a: seq<T>, b: seq<T>)
    ensures Reverse(a + b) == Reverse(b) + Reverse(a)
  {
    var l, r := Reverse(a + b), Reverse(b) + Reverse(a);
    assert |l| == |r|;
    forall i | 0 <= i < |l| ensures l[i] == r[i] {
      if i < |b| {
        assert l[i] == (a + b)[|a| + |b| - 1 - i];
      } else {
        assert l[i] == (a + b)[|a| + |b| - 1 - i];
      }
    }
  }

  /**
   * Capture runs outermost first and bubble innermost first: for a node
   * `outer` above the nodes `inner`, the capture handlers of `outer` come
   * before those of `inner`, and its bubble handlers after theirs.
   */
  lemma CaptureOuterFirstBubbleInnerFirst(inner: seq<DomNode>, outer: DomNode, name: string)
    ensures Reverse(Callbacks(inner + [outer], name)) == CallbackOf(outer, name) + Reverse(Callbacks(inner, name))
    ensures Callbacks(inner + [outer], name) == Callbacks(inner, name) + CallbackOf(outer, name)
  {
    var cbs, own := Callbacks(inner, name), CallbackOf(outer, name);
    CallbacksAppend(inner, [outer], name);
    assert [outer][1..] == [];
    assert Callbacks([outer], name) == own + Callbacks([], name);
    ReverseAppend(cbs, own);
    ReverseShort(own);
  }

  lemma ReverseShort<T>(s: seq<T>)
    requires |s| <= 1
    ensures Reverse(s) == s
  {
  }

  datatype Paths = Paths(capture: seq<JsValue>, bubble: seq<JsValue>)

  /** The paths `collectPaths` yields, stated without its loop. */
  function ExpectedPaths(chain: seq<DomNode>, container: NodeRef, eventType: string): Paths
  {
    match GetEventCallbackNameFromEventType(eventType)
    case None => Paths([], [])
    case Some((captureName, bubbleName)) =>
      Paths(Reverse(Callbacks(Visited(chain, container), captureName)), Callbacks(Visited(chain, container), bubbleName))
  }

  /** A chain that never reaches the container is visited whole. */
  lemma VisitedWhole(chain: seq<DomNode>, container: NodeRef)
    requires forall k | 0 <= k < |chain| :: chain[k].id != container
    ensures Visited(chain, container) == chain
  {
  }

  /** One more node of the chain that is not the container is visited after the earlier ones. */
  lemma VisitedPrefix(chain: seq<DomNode>, container: NodeRef, i: nat)
    requires i < |chain| && forall k | 0 <= k <= i :: chain[k].id != container
    ensures Visited(chain[..i + 1], container) == Visited(chain[..i], container) + [chain[i]]
  {
    var before, upto := chain[..i], chain[..i + 1];
    assert forall k | 0 <= k < |upto| :: upto[k] == chain[k];
    VisitedWhole(upto, container);
    VisitedWhole(before, container);
    assert upto == before + [chain[i]];
  }

  lemma {:induction false} VisitedStops(chain: seq<DomNode>, container: NodeRef, i: nat)
    requires i <= |chain| && forall k | 0 <= k < i :: chain[k].id != container
    requires i == |chain| || chain[i].id == container
    ensures Visited(chain, container) == Visited(chain[..i], container)
    decreases i
  {
    if i == 0 {
    } else {
      VisitedStops(chain[1..], container, i - 1);
      assert chain[1..][..i - 1] == chain[..i][1..];
    }
  }

  /** `collectPaths(target, container, eventType)`, walking `parentNode` links until the container or `null`. */
  method CollectPaths(chain: seq<DomNode>, container: NodeRef, eventType: string) returns (paths: Paths)
    ensures paths == ExpectedPaths(chain, container, eventType)
  {
    paths := Paths([], []);
    var i := 0;
    while i < |chain| && chain[i].id != container
      invariant 0 <= i <= |chain|
      invariant forall k | 0 <= k < i :: chain[k].id != container
      invariant GetEventCallbackNameFromEventType(eventType).None? ==> paths == Paths([], [])
      invariant GetEventCallbackNameFromEventType(eventType).Some? ==>
                  paths == Paths(Reverse(Callbacks(Visited(chain[..i], container), "onClickCapture")),
                                 Callbacks(Visited(chain[..i], container), "onClick"))
    {
      var node := chain[i];
      VisitedPrefix(chain, container, i);
      CaptureOuterFirstBubbleInnerFirst(Visited(chain[..i], container), node, "onClickCapture");
      CaptureOuterFirstBubbleInnerFirst(Visited(chain[..i], container), node, "onClick");
      if Truthy(node.reactProps) {
        var callbackNameList := GetEventCallbackNameFromEventType(eventType);
        if callbackNameList.Some? {
          var (captureName, bubbleName) := callbackNameList.value;
          var captureCallback := Get(node.reactProps, captureName);
          if Truthy(captureCallback) {
            paths := paths.(capture := [captureCallback] + paths.capture);
          }
          var bubbleCallback := Get(node.reactProps, bubbleName);
          if Truthy(bubbleCallback) {
            paths := paths.(bubble := paths.bubble + [bubbleCallback]);
          }
        }
      }
      i := i + 1;
    }
    VisitedStops(chain, container, i);
  }

  /** The event object handed to handlers; `__stopPropagation` is its own flag. */
  class SyntheticEvent {
    const eventType: string
    var stopPropagationFlag: bool

    /** `createSyntheticEvent(e)` */
    constructor (eventType: string)
      ensures this.eventType == eventType && !stopPropagationFlag
    {
      this.eventType := eventType;
      stopPropagationFlag := false;
    }

    /** The `stopPropagation` handlers call (the native one it forwards to is the DOM's). */
    method StopPropagation()
      modifies this
      ensures stopPropagationFlag
    {
      stopPropagationFlag := true;
    }
  }

  /** A handler invocation together with the scheduler level it ran at. */
  datatype Call = Call(callback: JsValue, priority: SchedulerPriority)

  /** Whether some handler of the flow stopped propagation. */
  predicate FlowStops(paths: seq<JsValue>, stops: JsValue -> bool)
  {
    exists i | 0 <= i < |paths| :: stops(paths[i])
  }

  /** The calls made are the handlers `handlers`, in order, each run at `priority`. */
  predicate RunAt(calls: seq<Call>, handlers: seq<JsValue>, priority: SchedulerPriority)
  {
    |calls| == |handlers| && forall i | 0 <= i < |calls| :: calls[i] == Call(handlers[i], priority)
  }

  /** Running one list of handlers and then another runs the two lists joined. */
  lemma RunAtConcat(a: seq<Call>, b: seq<Call>, x: seq<JsValue>, y: seq<JsValue>, priority: SchedulerPriority)
    requires RunAt(a, x, priority) && RunAt(b, y, priority)
    ensures RunAt(a + b, x + y, priority)
  {
    forall i | 0 <= i < |a + b|
      ensures (a + b)[i] == Call((x + y)[i], priority)
    {
      if i >= |a| {
        assert (a + b)[i] == b[i - |a|] && (x + y)[i] == y[i - |a|];
      }
    }
  }

  /**
   * `triggerEventFlow(paths, se)`: every handler runs at the level of the
   * event's type, and the loop stops right after the one that set the flag.
   */
  method TriggerEventFlow(paths: seq<JsValue>, se: SyntheticEvent, stops: JsValue -> bool) returns (calls: seq<Call>)
    requires !se.stopPropagationFlag
    modifies se
    ensures RunAt(calls, UpToFirst(paths, stops), EventTypeToSchedulerPriority(se.eventType))
    ensures se.stopPropagationFlag <==> FlowStops(paths, stops)
  {
    var priority := EventTypeToSchedulerPriority(se.eventType);
    calls := [];
    var i := 0;
    while i < |paths| && !se.stopPropagationFlag
      invariant 0 <= i <= |paths|
      invariant forall j | 0 <= j < i :: !stops(paths[j])
      invariant !se.stopPropagationFlag ==> |calls| == i
      invariant se.stopPropagationFlag ==> i < |paths| && stops(paths[i]) && |calls| == i + 1
      invariant forall j | 0 <= j < |calls| :: calls[j] == Call(paths[j], priority)
      decreases |paths| - i, !se.stopPropagationFlag
    {
      var callback := paths[i];
      calls := calls + [Call(callback, priority)];
      if stops(callback) {
        se.StopPropagation();
      } else {
        i := i + 1;
      }
    }
    if se.stopPropagationFlag {
      UpToFirstStopsAt(paths, stops, i);
    } else {
      UpToFirstRunsAll(paths, stops);
    }
  }

  /** The handlers a dispatch runs: the capture flow, then the bubble flow unless capture stopped propagation. */
  function Dispatched(paths: Paths, stops: JsValue -> bool): seq<JsValue>
  {
    UpToFirst(paths.capture, stops) + (if FlowStops(paths.capture, stops) then [] else UpToFirst(paths.bubble, stops))
  }

  /**
   * `dispatchEvent(container, eventType, e)`; `target` is the ancestor chain
   * of `e.target`, or `None` when the event has no target (then nothing runs).
   */
  method DispatchEvent(container: NodeRef, eventType: string, target: Option<seq<DomNode>>, stops: JsValue -> bool)
    returns (calls: seq<Call>)
    ensures target.None? ==> calls == []
    ensures target.Some? ==> RunAt(calls, Dispatched(ExpectedPaths(target.value, container, eventType), stops),
                                   EventTypeToSchedulerPriority(eventType))
  {
    if target.None? {
      return [];
    }
    var paths := CollectPaths(target.value, container, eventType);
    var se := new SyntheticEvent(eventType);
    calls := TriggerEventFlow(paths.capture, se, stops);
    if !se.stopPropagationFlag {
      var bubbleCalls := TriggerEventFlow(paths.bubble, se, stops);
      RunAtConcat(calls, bubbleCalls, UpToFirst(paths.capture, stops), UpToFirst(paths.bubble, stops), EventTypeToSchedulerPriority(eventType));
      calls := calls + bubbleCalls;
    } else {
      assert Dispatched(paths, stops) == UpToFirst(paths.capture, stops) + [];
    }
  }

  /** A handler that stops propagation during capture keeps every bubble handler from running. */
  lemma StopDuringCaptureSkipsBubble(paths: Paths, stops: JsValue -> bool, i: nat)
    requires i < |paths.capture| && stops(paths.capture[i])
    ensures Dispatched(paths, stops) == UpToFirst(paths.capture, stops)
    ensures |Dispatched(paths, stops)| <= i + 1
  {
    UpToFirstEndsBy(paths.capture, stops, i);
  }

  /** Only clicks collect handlers. */
  lemma OnlyClickCollects(chain: seq<DomNode>, container: NodeRef, eventType: string)
    requires eventType != "click"
    ensures ExpectedPaths(chain, container, eventType) == Paths([], [])
  {
  }
}
