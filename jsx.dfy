/**
 * Element construction: `jsx(type, config, ...children)`.
 *
 * The config object is given by its own enumerable properties; its keys are
 * distinct, so the order `Object.keys` returns them in does not change the
 * element, and the loop below takes them in any order.
 */
module Jsx {
  import opened Wrappers
  import opened Js
  import opened ReactSymbols

  /** The record `ReactElement(type, key, ref, props)` allocates. */
  function ReactElementFields(elementType: JsValue, key: JsValue, ref: JsValue, props: JsValue): (fields: map<string, JsValue>)
    ensures fields.Keys == {"$$typeof", "type", "key", "ref", "props", "__mark"}
    ensures fields["$$typeof"] == REACT_ELEMENT_TYPE && fields["__mark"] == Str("unofficial")
    ensures fields["type"] == elementType && fields["key"] == key && fields["ref"] == ref && fields["props"] == props
  {
    map["$$typeof" := REACT_ELEMENT_TYPE, "type" := elementType, "key" := key, "ref" := ref,
        "props" := props, "__mark" := Str("unofficial")]
  }

  /** The element's key: the string form of `config.key` when it is defined, and `null` otherwise; a key that cannot be converted throws. */
  function KeyOf(config: map<string, JsValue>): Result<JsValue>
  {
    if "key" in config && config["key"] != Undefined then
      match ToJsString(config["key"])
      case Ok(s) => Ok(Str(s))
      case Err(e) => Err(e)
    else Ok(Null)
  }

  /** The config entries that are copied into props: every key except the `reserved` ones. */
  function CopiedProps(config: map<string, JsValue>, reserved: set<string>): (props: map<string, JsValue>)
    ensures props.Keys == config.Keys - reserved
    ensures forall k | k in props :: props[k] == config[k]
  {
    map k | k in config && k !in reserved :: config[k]
  }

  /** The children argument: one child is stored as is, several as the rest-parameter array, none leaves props alone. */
  function WithChildren(props: map<string, JsValue>, maybeChildren: seq<JsValue>, rest: JsValue): map<string, JsValue>
  {
    if |maybeChildren| == 1 then props["children" := maybeChildren[0]]
    else if |maybeChildren| > 1 then props["children" := rest]
    else props
  }

  /** How `jsx` as written fills props: only `key` is held back, because the ref test compares `props`, not `prop`. */
  function JsxProps(config: map<string, JsValue>, maybeChildren: seq<JsValue>, rest: JsValue): map<string, JsValue>
  {
    WithChildren(CopiedProps(config, {"key"}), maybeChildren, rest)
  }

  /** The intended props: `key` and `ref` are both held back. */
  function JsxPropsCorrected(config: map<string, JsValue>, maybeChildren: seq<JsValue>, rest: JsValue): map<string, JsValue>
  {
    WithChildren(CopiedProps(config, {"key", "ref"}), maybeChildren, rest)
  }

  /** The intended ref: `config.ref` when it is defined, and `null` otherwise. */
  function RefOf(config: map<string, JsValue>): JsValue
  {
    if "ref" in config && config["ref"] != Undefined then config["ref"] else Null
  }

  /** What the props built by `jsx` hold, for every config and every children list. */
  lemma JsxPropsFacts(config: map<string, JsValue>, maybeChildren: seq<JsValue>, rest: JsValue)
    ensures "key" !in JsxProps(config, maybeChildren, rest)
    ensures forall k | k in config && k != "key" && k != "children" :: k in JsxProps(config, maybeChildren, rest) && JsxProps(config, maybeChildren, rest)[k] == config[k]
    ensures "ref" in config ==> "ref" in JsxProps(config, maybeChildren, rest)
    ensures |maybeChildren| == 1 ==> JsxProps(config, maybeChildren, rest)["children"] == maybeChildren[0]
    ensures |maybeChildren| > 1 ==> JsxProps(config, maybeChildren, rest)["children"] == rest
    ensures |maybeChildren| == 0 ==> JsxProps(config, maybeChildren, rest) == CopiedProps(config, {"key"})
  {
  }

  /** The intended props keep neither `key` nor `ref`, and agree with the written ones everywhere else. */
  lemma JsxPropsCorrectedFacts(config: map<string, JsValue>, maybeChildren: seq<JsValue>, rest: JsValue)
    ensures "key" !in JsxPropsCorrected(config, maybeChildren, rest)
    ensures "ref" !in JsxPropsCorrected(config, maybeChildren, rest)
    ensures JsxPropsCorrected(config, maybeChildren, rest) == JsxProps(config, maybeChildren, rest) - {"ref"}
  {
    var a, b := JsxPropsCorrected(config, maybeChildren, rest), JsxProps(config, maybeChildren, rest) - {"ref"};
    assert a.Keys == b.Keys;
  }

  /**
   * `jsx(type, config, ...maybeChildren)` as written.  The children array,
   * the props object and the element take fresh identities in that order.
   * Converting a symbol key to a string throws, after the children array
   * and the props object exist.
   */
  method Jsx(alloc: Allocator, elementType: JsValue, config: map<string, JsValue>, maybeChildren: seq<JsValue>)
    returns (r: Result<JsValue>)
    modifies alloc
    ensures r.Err? <==> KeyOf(config).Err?
    ensures r.Err? ==> r.message == SymbolToString && alloc.next == old(alloc.next) + 2
    ensures r.Ok? ==>
              r.value == Obj(old(alloc.next) + 2,
                             ReactElementFields(elementType, KeyOf(config).value, Null,
                                                Obj(old(alloc.next) + 1, JsxProps(config, maybeChildren, Arr(old(alloc.next), maybeChildren))))) &&
              alloc.next == old(alloc.next) + 3
  {
    var rest := alloc.NewArray(maybeChildren);
    var key := Null;
    var propsId := alloc.NewRef();
    var ref := Null;
    var props: map<string, JsValue> := map[];
    var keys := config.Keys;
    var done: set<string> := {};
    while keys != {}
      invariant keys == config.Keys - done && done <= config.Keys
      invariant props == CopiedProps(map k | k in done :: config[k], {"key"})
      invariant KeyOf(map k | k in done :: config[k]) == Ok(key)
      invariant ref == Null
      decreases keys
    {
      var prop :| prop in keys;
      var val := config[prop];
      if prop == "key" {
        if val != Undefined {
          var converted := ToJsString(val);
          if converted.Err? {
            KeyDecides(config, done);
            return Err(converted.message);
          }
          key := Str(converted.value);
        }
      } else if false {
        // `props === 'ref'` compares the props object with a string, which never holds.
        ref := val;
      } else {
        props := props[prop := val];
      }
      keys := keys - {prop};
      done := done + {prop};
    }
    assert (map k | k in done :: config[k]) == config;
    props := WithChildren(props, maybeChildren, rest);
    var element := alloc.NewObject(ReactElementFields(elementType, key, ref, Obj(propsId, props)));
    r := Ok(element);
  }

  /** `jsx` with the ref branch testing the property name, as intended. */
  method JsxCorrected(alloc: Allocator, elementType: JsValue, config: map<string, JsValue>, maybeChildren: seq<JsValue>)
    returns (r: Result<JsValue>)
    modifies alloc
    ensures r.Err? <==> KeyOf(config).Err?
    ensures r.Err? ==> r.message == SymbolToString && alloc.next == old(alloc.next) + 2
    ensures r.Ok? ==>
              r.value == Obj(old(alloc.next) + 2,
                             ReactElementFields(elementType, KeyOf(config).value, RefOf(config),
                                                Obj(old(alloc.next) + 1, JsxPropsCorrected(config, maybeChildren, Arr(old(alloc.next), maybeChildren))))) &&
              alloc.next == old(alloc.next) + 3
  {
    var rest := alloc.NewArray(maybeChildren);
    var key := Null;
    var propsId := alloc.NewRef();
    var ref := Null;
    var props: map<string, JsValue> := map[];
    var keys := config.Keys;
    var done: set<string> := {};
    while keys != {}
      invariant keys == config.Keys - done && done <= config.Keys
      invariant props == CopiedProps(map k | k in done :: config[k], {"key", "ref"})
      invariant KeyOf(map k | k in done :: config[k]) == Ok(key)
      invariant ref == RefOf(map k | k in done :: config[k])
      decreases keys
    {
      var prop :| prop in keys;
      var val := config[prop];
      if prop == "key" {
        if val != Undefined {
          var converted := ToJsString(val);
          if converted.Err? {
            KeyDecides(config, done);
            return Err(converted.message);
          }
          key := Str(converted.value);
        }
      } else if prop == "ref" {
        if val != Undefined {
          ref := val;
        }
      } else {
        props := props[prop := val];
      }
      keys := keys - {prop};
      done := done + {prop};
    }
    assert (map k | k in done :: config[k]) == config;
    props := WithChildren(props, maybeChildren, rest);
    var element := alloc.NewObject(ReactElementFields(elementType, key, ref, Obj(propsId, props)));
    r := Ok(element);
  }

  /**
   * A config with a ref: as written the element's ref is `null` and the ref
   * travels in props, while the intended element carries it as its ref.
   */
  lemma JsxDropsRef(f: Ref)
    ensures ReactElementFields(Str("div"), KeyOf(map["ref" := Fn(f)]).value, Null, Null)["ref"] == Null
    ensures JsxProps(map["ref" := Fn(f)], [], Null) == map["ref" := Fn(f)]
    ensures RefOf(map["ref" := Fn(f)]) == Fn(f)
    ensures JsxPropsCorrected(map["ref" := Fn(f)], [], Null) == map[]
  {
    assert JsxProps(map["ref" := Fn(f)], [], Null).Keys == {"ref"};
  }

  /** A defined key becomes its string form, an undefined one gives `null`, and a symbol throws. */
  lemma KeyOfFacts(config: map<string, JsValue>, n: int, s: string, d: string)
    ensures KeyOf(config["key" := Undefined]) == Ok(Null)
    ensures KeyOf(config["key" := Str(s)]) == Ok(Str(s))
    ensures KeyOf(config["key" := Num(n)]) == Ok(Str(IntToString(n)))
    ensures KeyOf(config["key" := Sym(d)]) == Err(SymbolToString)
    ensures "key" !in config ==> KeyOf(config) == Ok(Null)
  {
  }

  /** The key of a config depends on its `key` entry only, so any part of the config holding that entry decides it. */
  lemma KeyDecides(config: map<string, JsValue>, done: set<string>)
    requires "key" in config && done <= config.Keys
    ensures KeyOf(config) == KeyOf((map k | k in done :: config[k])["key" := config["key"]])
  {
  }
}
