/**
 * Context values during rendering.  Providers nest, so the value a provider
 * overwrote is saved on a stack and put back when the provider is left.
 * `context._currentValue` lives on the user's context object; here it is
 * kept in a map from the context's identity.
 */
module FiberContext {
  import opened Js

  /** The module's state: `prevContextValue`, `prevContextValueStack` and every context's `_currentValue`. */
  datatype ContextState = ContextState(prevContextValue: JsValue, prevContextValueStack: seq<JsValue>, currentValues: map<Ref, JsValue>)

  /** `context._currentValue`, `undefined` for a context never written. */
  function CurrentValue(s: ContextState, context: Ref): JsValue
  {
    if context in s.currentValues then s.currentValues[context] else Undefined
  }

  function Push(s: ContextState, context: Ref, newValue: JsValue): ContextState
  {
    ContextState(CurrentValue(s, context), s.prevContextValueStack + [s.prevContextValue], s.currentValues[context := newValue])
  }

  /** `Array.prototype.pop` gives `undefined` on an empty array. */
  function Pop(s: ContextState, context: Ref): ContextState
  {
    var stack := s.prevContextValueStack;
    ContextState(if |stack| == 0 then Undefined else stack[|stack| - 1],
                 if |stack| == 0 then [] else stack[..|stack| - 1],
                 s.currentValues[context := s.prevContextValue])
  }

  class ContextStack {
    var prevContextValue: JsValue
    var prevContextValueStack: seq<JsValue>
    var currentValues: map<Ref, JsValue>

    function State(): ContextState
      reads this
    {
      ContextState(prevContextValue, prevContextValueStack, currentValues)
    }

    /** The module's initial state, with the contexts' default values. */
    constructor (defaults: map<Ref, JsValue>)
      ensures State() == ContextState(Null, [], defaults)
    {
      prevContextValue := Null;
      prevContextValueStack := [];
      currentValues := defaults;
    }

    /** `pushProvider(context, newValue)` */
    method PushProvider(context: Ref, newValue: JsValue)
      modifies this
      ensures State() == Push(old(State()), context, newValue)
      ensures CurrentValue(State(), context) == newValue
      ensures |prevContextValueStack| == |old(prevContextValueStack)| + 1
    {
      prevContextValueStack := prevContextValueStack + [prevContextValue];
      prevContextValue := CurrentValue(State(), context);
      currentValues := currentValues[context := newValue];
    }

    /** `popProvider(context)` */
    method PopProvider(context: Ref)
      modifies this
      ensures State() == Pop(old(State()), context)
      ensures |old(prevContextValueStack)| > 0 ==> |prevContextValueStack| == |old(prevContextValueStack)| - 1
    {
      currentValues := currentValues[context := prevContextValue];
      if |prevContextValueStack| == 0 {
        prevContextValue := Undefined;
      } else {
        prevContextValue := prevContextValueStack[|prevContextValueStack| - 1];
        prevContextValueStack := prevContextValueStack[..|prevContextValueStack| - 1];
      }
    }
  }

  /** A push immediately undone by a pop of the same context leaves the whole state as it was. */
  lemma PushPopRestores(s: ContextState, context: Ref, newValue: JsValue)
    requires context in s.currentValues
    ensures Pop(Push(s, context, newValue), context) == s
  {
    assert (s.prevContextValueStack + [s.prevContextValue])[..|s.prevContextValueStack|] == s.prevContextValueStack;
  }

  /** Providers as they nest in a tree: each is entered, its children are rendered, then it is left. */
  datatype Provider = Provider(context: Ref, value: JsValue, children: seq<Provider>)

  datatype ContextOp = PushOp(context: Ref, value: JsValue) | PopOp(context: Ref)

  /** The pushes and pops a depth-first walk over nested providers performs. */
  function Walk(ps: seq<Provider>): seq<ContextOp>
    decreases ps
  {
    if ps == [] then []
    else [PushOp(ps[0].context, ps[0].value)] + Walk(ps[0].children) + [PopOp(ps[0].context)] + Walk(ps[1..])
  }

  function Step(s: ContextState, op: ContextOp): ContextState
  {
    match op
    case PushOp(c, v) => Push(s, c, v)
    case PopOp(c) => Pop(s, c)
  }

  function Run(s: ContextState, ops: seq<ContextOp>): ContextState
    decreases |ops|
  {
    if ops == [] then s else Run(Step(s, ops[0]), ops[1..])
  }

  /** Every context that providers write has a current value. */
  predicate Known(ps: seq<Provider>, values: map<Ref, JsValue>)
    decreases ps
  {
    forall i | 0 <= i < |ps| :: ps[i].context in values && Known(ps[i].children, values)
  }

  lemma {:induction false} RunAppend(s: ContextState, a: seq<ContextOp>, b: seq<ContextOp>)
    ensures Run(s, a + b) == Run(Run(s, a), b)
    decreases |a|
  {
    if a != [] {
      assert (a + b)[0] == a[0];
      assert (a + b)[1..] == a[1..] + b;
      RunAppend(Step(s, a[0]), a[1..], b);
    } else {
      assert a + b == b;
    }
  }

  lemma KnownStays(ps: seq<Provider>, values: map<Ref, JsValue>, c: Ref, v: JsValue)
    requires Known(ps, values) && c in values
    ensures Known(ps, values[c := v])
    decreases ps
  {
    forall i | 0 <= i < |ps| ensures ps[i].context in values[c := v] && Known(ps[i].children, values[c := v]) {
      KnownStays(ps[i].children, values, c, v);
    }
  }

  /**
   * Properly nested providers restore everything level by level: after the
   * walk over any forest of providers, every context's value, the saved
   * value and the stack are what they were before it.
   */
  lemma {:induction false} NestedProvidersRestore(s: ContextState, ps: seq<Provider>)
    requires Known(ps, s.currentValues)
    ensures Run(s, Walk(ps)) == s
    decreases ps
  {
    if ps != [] {
      var p := ps[0];
      var push, pop := PushOp(p.context, p.value), PopOp(p.context);
      var s1 := Push(s, p.context, p.value);
      assert Walk(ps) == [push] + (Walk(p.children) + ([pop] + Walk(ps[1..])));
      RunAppend(s, [push], Walk(p.children) + ([pop] + Walk(ps[1..])));
      assert Run(s, [push]) == s1;
      KnownStays(p.children, s.currentValues, p.context, p.value);
      RunAppend(s1, Walk(p.children), [pop] + Walk(ps[1..]));
      NestedProvidersRestore(s1, p.children);
      RunAppend(s1, [pop], Walk(ps[1..]));
      assert Run(s1, [pop]) == Pop(s1, p.context);
      PushPopRestores(s, p.context, p.value);
      NestedProvidersRestore(s, ps[1..]);
    }
  }
}
