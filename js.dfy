/**
 * The JavaScript values the reconciler handles.
 *
 * Objects, arrays and functions carry the identity of the allocation that
 * created them, so `Object.is` and `===` compare them by reference, as the
 * engine does.  The objects this core creates (props, elements, provider
 * types) are never mutated after creation, so their fields are stored in the
 * value; the one mutable field the core writes on a user object,
 * `context._currentValue`, is kept by `FiberContext` keyed by the context's
 * identity.
 */
module Js {
  import opened Wrappers

  /** The identity of an allocated object, array or function. */
  type Ref = nat

  datatype JsValue =
    | Undefined
    | Null
    | Bool(b: bool)
    | Num(n: int)
    | Str(s: string)
    /** A symbol of the global registry, `Symbol.for(key)`: one key gives one symbol, so the key is its identity. */
    | Sym(description: string)
    | Fn(fid: Ref)
    | Obj(oid: Ref, fields: map<string, JsValue>)
    | Arr(aid: Ref, items: seq<JsValue>)

  /** `Object.is(a, b)`; on this value domain it coincides with `===` (numbers are integers here). */
  predicate ObjectIs(a: JsValue, b: JsValue)
  {
    match a
    case Fn(x) => b.Fn? && b.fid == x
    case Obj(x, _) => b.Obj? && b.oid == x
    case Arr(x, _) => b.Arr? && b.aid == x
    case _ => a == b
  }

  lemma ObjectIsIsAnEquivalence(a: JsValue, b: JsValue, c: JsValue)
    ensures ObjectIs(a, a)
    ensures ObjectIs(a, b) ==> ObjectIs(b, a)
    ensures ObjectIs(a, b) && ObjectIs(b, c) ==> ObjectIs(a, c)
  {
  }

  /** `v[name]`; a missing property, or a read through a non-object, gives `undefined`. */
  function Get(v: JsValue, name: string): JsValue
  {
    if v.Obj? && name in v.fields then v.fields[name] else Undefined
  }

  /** JavaScript truthiness (`if (v)`). */
  predicate Truthy(v: JsValue)
  {
    match v
    case Undefined => false
    case Null => false
    case Bool(b) => b
    case Num(n) => n != 0
    case Str(s) => s != ""
    case _ => true
  }

  /** `null` or `undefined`, the two values `??` replaces. */
  predicate IsNullish(v: JsValue)
  {
    v.Undefined? || v.Null?
  }

  /** `typeof v === 'object' && v !== null`. */
  predicate IsObject(v: JsValue)
  {
    v.Obj? || v.Arr?
  }

  /** The `TypeError` of converting a symbol to a string. */
  const SymbolToString: string := "TypeError: Cannot convert a Symbol value to a string"

  /** A symbol that a string conversion meets: the value itself, or an item of an array at any depth. */
  predicate ReachesSymbol(v: JsValue)
  {
    match v
    case Sym(_) => true
    case Arr(_, items) => exists i | 0 <= i < |items| :: ReachesSymbol(items[i])
    case _ => false
  }

  /**
   * `'' + v`, the string conversion `jsx` applies to a key: a symbol throws,
   * an array is joined with commas.  A function gives `function` and an
   * object `[object Object]` in place of the function's source text and of
   * a `toString` of the object's own.
   */
  function ToJsString(v: JsValue): (r: Result<string>)
    ensures r.Err? <==> ReachesSymbol(v)
    ensures r.Err? ==> r.message == SymbolToString
    ensures v.Str? ==> r == Ok(v.s)
    ensures v.Num? ==> r == Ok(IntToString(v.n))
    decreases v, 0
  {
    match v
    case Undefined => Ok("undefined")
    case Null => Ok("null")
    case Bool(b) => Ok(if b then "true" else "false")
    case Num(n) => Ok(IntToString(n))
    case Str(s) => Ok(s)
    case Sym(_) => Err(SymbolToString)
    case Fn(_) => Ok("function")
    case Obj(_, _) => Ok("[object Object]")
    case Arr(_, items) => JoinItems(items)
  }

  /** How `Array.prototype.join` converts one item: `undefined` and `null` give the empty string. */
  function ItemString(v: JsValue): (r: Result<string>)
    ensures r.Err? <==> ReachesSymbol(v)
    ensures IsNullish(v) ==> r == Ok("")
    decreases v, 1
  {
    if IsNullish(v) then Ok("") else ToJsString(v)
  }

  /** `items.join(',')`, which adds each item's string after the ones before it and a comma. */
  function JoinItems(items: seq<JsValue>): (r: Result<string>)
    ensures r.Err? <==> exists i | 0 <= i < |items| :: ReachesSymbol(items[i])
    ensures r.Err? ==> r.message == SymbolToString
  {
    if items == [] then Ok("")
    else if |items| == 1 then ItemString(items[0])
    else
      var init := items[..|items| - 1];
      assert forall i | 0 <= i < |init| :: init[i] == items[i];
      match JoinItems(init)
      case Err(e) => Err(e)
      case Ok(head) =>
        match ItemString(items[|items| - 1])
        case Err(e) => Err(e)
        case Ok(last) => Ok(head + "," + last)
  }

  /** Joining from the front: the first item's string, a comma, and the join of the rest. */
  lemma {:induction false} JoinItemsFront(x: JsValue, rest: seq<JsValue>)
    requires rest != []
    ensures JoinItems([x] + rest).Ok? <==> ItemString(x).Ok? && JoinItems(rest).Ok?
    ensures JoinItems([x] + rest).Ok? ==> JoinItems([x] + rest).value == ItemString(x).value + "," + JoinItems(rest).value
    decreases |rest|
  {
    var items := [x] + rest;
    assert items[..|items| - 1] == [x] + rest[..|rest| - 1];
    assert items[|items| - 1] == rest[|rest| - 1];
    if |rest| > 1 {
      JoinItemsFront(x, rest[..|rest| - 1]);
    } else {
      assert rest[..|rest| - 1] == [];
      assert items[..|items| - 1] == [x];
    }
  }

  /**
   * An illustration of `ToJsString` on arrays used as keys, on concrete
   * values; the general facts are the contracts above.
   */
  lemma JoinExamples(a: Ref, b: Ref)
    ensures ToJsString(Arr(a, [])) == Ok("")
    ensures ToJsString(Arr(a, [Str("x"), Null, Num(2)])) == Ok("x,,2")
    ensures ToJsString(Arr(a, [Arr(b, [Str("x"), Str("y")]), Str("z")])) == Ok("x,y,z")
    ensures ToJsString(Arr(a, [Str("x"), Sym("s")])) == Err(SymbolToString)
  {
    assert [Str("x"), Null, Num(2)][..2] == [Str("x"), Null];
    assert [Str("x"), Null][..1] == [Str("x")];
    assert JoinItems([Str("x")]) == Ok("x");
    assert ItemString(Null) == Ok("");
    assert "x" + "," + "" == "x,";
    assert JoinItems([Str("x"), Null]) == Ok("x,");
    assert IntToString(2) == "2";
    assert ItemString(Num(2)) == Ok("2");
    assert "x," + "," + "2" == "x,,2";
    assert [Str("x"), Str("y")][..1] == [Str("x")];
    assert JoinItems([Str("y")]) == Ok("y");
    assert "x" + "," + "y" == "x,y";
    assert JoinItems([Str("x"), Str("y")]) == Ok("x,y");
    assert ItemString(Arr(b, [Str("x"), Str("y")])) == Ok("x,y");
    assert [Arr(b, [Str("x"), Str("y")]), Str("z")][..1] == [Arr(b, [Str("x"), Str("y")])];
    assert JoinItems([Arr(b, [Str("x"), Str("y")])]) == Ok("x,y");
    assert ItemString(Str("z")) == Ok("z");
    assert "x,y" + "," + "z" == "x,y,z";
    assert JoinItems([Arr(b, [Str("x"), Str("y")]), Str("z")]) == Ok("x,y,z");
    assert [Str("x"), Sym("s")][..1] == [Str("x")];
  }

  /** Hands out the identities of newly allocated objects. */
  class Allocator {
    var next: Ref

    constructor ()
      ensures next == 0
    {
      next := 0;
    }

    /** A fresh object literal with the given properties. */
    method NewObject(fields: map<string, JsValue>) returns (v: JsValue)
      modifies this
      ensures v == Obj(old(next), fields) && next == old(next) + 1
    {
      v := Obj(next, fields);
      next := next + 1;
    }

    /** The identity of an object literal whose properties are filled in afterwards, such as `const props = {}`. */
    method NewRef() returns (id: Ref)
      modifies this
      ensures id == old(next) && next == old(next) + 1
    {
      id := next;
      next := next + 1;
    }

    /** A fresh function object, such as the result of `Function.prototype.bind`. */
    method NewFunction() returns (v: JsValue)
      modifies this
      ensures v == Fn(old(next)) && next == old(next) + 1
    {
      v := Fn(next);
      next := next + 1;
    }

    /** A fresh array literal with the given items. */
    method NewArray(items: seq<JsValue>) returns (v: JsValue)
      modifies this
      ensures v == Arr(old(next), items) && next == old(next) + 1
    {
      v := Arr(next, items);
      next := next + 1;
    }
  }

  function DigitsOf(n: nat): string
    decreases n
  {
    var d := [(n % 10) as char + '0'];
    if n < 10 then d else DigitsOf(n / 10) + d
  }

  function IntToString(n: int): string
  {
    if n < 0 then "-" + DigitsOf(-n) else DigitsOf(n)
  }
}

/** The well-known symbols the React packages compare `$$typeof` and `type` against. */
module ReactSymbols {
  import opened Js

  /** `Symbol.for('react.element')`: the host supports symbols. */
  const REACT_ELEMENT_TYPE: JsValue := Sym("react.element")
  /** Imported by the reconciler but not declared in the symbol file; distinct symbols here. */
  const REACT_PROVIDER_TYPE: JsValue := Sym("react.provider")
  const REACT_SUSPENSE_TYPE: JsValue := Sym("react.suspense")
  const REACT_CONTEXT_TYPE: JsValue := Sym("react.context")
}
