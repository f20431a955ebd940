/** The JavaScript values the hub's handlers read out of client payloads. */
module JsValues {

  /** A payload field that may be missing (`undefined` or `null`). */
  datatype Option<+T> = None | Some(value: T)

  /** JavaScript truthiness of an optional string: present and not empty. */
  predicate Truthy(x: Option<string>)
  {
    x.Some? && x.value != ""
  }

  /** `x || fallback` on an optional string. */
  function OrElse(x: Option<string>, fallback: string): (r: string)
    ensures Truthy(x) ==> r == x.value
    ensures !Truthy(x) ==> r == fallback
  {
    if Truthy(x) then x.value else fallback
  }

  /** `x || null` on an optional string: an empty string never survives. */
  function OrNull(x: Option<string>): (r: Option<string>)
    ensures r.None? || Truthy(r)
    ensures r.Some? ==> r == x
    ensures Truthy(x) ==> r == x
  {
    if Truthy(x) then x else None
  }
}
