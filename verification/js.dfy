/** The few JavaScript notions the pages rely on: values that may be
    `undefined`, values a rejected promise carries, truthiness of strings,
    and `Math.min`. */
module Js {

  /** `undefined`/`null` (None) or a present value. */
  datatype Option<+T> = None | Some(value: T)

  /** What an `await` can throw: an `Error` instance, whose `message` may be
      missing, or any other value. */
  datatype Thrown = ErrorObject(message: Option<string>) | NonError

  /** The outcome of a foreign conversion such as `parseUnits` or `BigInt`:
      a value, or a synchronous throw. */
  datatype Attempt<+T> = Value(get: T) | Throws(reason: Thrown)

  /** `!!s` for a string that may be absent: both absence and '' are falsy. */
  predicate Truthy(s: Option<string>) {
    s.Some? && s.value != ""
  }

  /** `Math.min` on integers. */
  function Min(a: int, b: int): (m: int)
    ensures m <= a && m <= b
    ensures m == a || m == b
  {
    if a <= b then a else b
  }
}
