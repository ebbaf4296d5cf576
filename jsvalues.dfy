/** JavaScript value slots shared by the authentication model.

    A property of a JavaScript object can be absent (`undefined`), explicitly
    `null`, or hold a value. The source treats the first two differently in
    places (`x ?? undefined` maps `null` to `undefined`, a plain assignment
    keeps `null`), so the model keeps all three apart.
 */
module JsValues {

  datatype Option<+T> = None | Some(value: T)

  datatype JsValue<+T> = Undefined | Null | Val(value: T)

  /** A string slot is truthy when it holds a non-empty string (`""`,
      `null` and `undefined` are falsy). */
  predicate Truthy(s: JsValue<string>) {
    s.Val? && s.value != ""
  }

  /** `v ?? undefined`: the result is never `null`; a `null` becomes
      `undefined`, and any other value, `undefined` included, is kept. */
  function OrUndefined<T>(v: JsValue<T>): (r: JsValue<T>)
    ensures !r.Null?
    ensures v.Null? ==> r.Undefined?
    ensures !v.Null? ==> r == v
  {
    if v.Null? then Undefined else v
  }
}
