/**
 * JavaScript values as they travel over the message channel (after the
 * structured clone performed by `postMessage`).
 */
module Js {

  /**
   * A JavaScript value as the protocol sees it.  Numbers are modelled by
   * integers; an object that is not an array is opaque and known only by
   * an identity, since nothing in the protocol inspects its fields.
   */
  datatype Value =
    | Undefined
    | Null
    | Bool(b: bool)
    | Num(n: int)
    | Str(s: string)
    | Arr(items: seq<Value>)
    | Obj(id: nat)

  /**
   * The falsy values a message can carry: `undefined`, `null`, `false`, `0`
   * and the empty string (`NaN` and `-0` are outside the integer model).
   */
  const Falsy: set<Value> := {Undefined, Null, Bool(false), Num(0), Str("")}

  /** JavaScript truthiness: the value of `!!v`; exactly the values outside `Falsy` are truthy. */
  predicate Truthy(v: Value)
    ensures Truthy(v) <==> v !in Falsy
  {
    match v
    case Undefined => false
    case Null => false
    case Bool(b) => b
    case Num(n) => n != 0
    case Str(s) => s != ""
    case Arr(_) => true
    case Obj(_) => true
  }
}
