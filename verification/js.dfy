/**
 * JSON-like values as the client and the request handlers see them.
 * Numbers are integers here; objects keep their keys in insertion order.
 */
module Js {
  import opened Wrappers

  datatype JsValue =
    | Undefined
    | Null
    | Bool(b: bool)
    | Num(n: int)
    | Str(s: string)
    | Arr(elems: seq<JsValue>)
    | Obj(fields: seq<(string, JsValue)>)

  /** The value of the first property named `key`, if the object has one. */
  function Field(fields: seq<(string, JsValue)>, key: string): (r: Option<JsValue>)
    ensures r.Some? ==> exists i :: 0 <= i < |fields| && fields[i] == (key, r.value)
    ensures r.None? <==> forall i :: 0 <= i < |fields| ==> fields[i].0 != key
    decreases |fields|
  {
    if |fields| == 0 then None
    else if fields[0].0 == key then Some(fields[0].1)
    else Field(fields[1..], key)
  }

  /** JavaScript falsiness: `undefined`, `null`, `false`, `0` and `""`. */
  predicate Falsy(v: JsValue) {
    v.Undefined? || v.Null? || v == Bool(false) || v == Num(0) || v == Str("")
  }

  /** `v == null`: only `null` and `undefined`. */
  predicate Nullish(v: JsValue) {
    v.Undefined? || v.Null?
  }
}
