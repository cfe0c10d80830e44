/**
  Request parameters as the routes see them: a query-string or body member is
  absent or a string, except a body password, which the routes also test for
  being a string at all. A route's `!x` test rejects absent and empty values.
*/
module Requests {
  import opened Wrappers

  /**
    A string parameter is usable when it is present and not empty
    (an absent or empty parameter is falsy and fails the route's `!x` test).
  */
  predicate Present(p: Option<string>) {
    p.Some? && p.value != ""
  }

  /** A JSON body member: absent, a string, or some other JSON value (with its JavaScript truthiness). */
  datatype BodyValue = Missing | Text(s: string) | NonText(truthy: bool)

  /** The `!x` test on a body member, negated. */
  predicate Truthy(v: BodyValue) {
    match v
    case Missing => false
    case Text(s) => s != ""
    case NonText(t) => t
  }
}
