/** HTTP status codes the handlers write, and the untyped per-request value
    that Fiber's `c.Locals("userID")` holds. */
module Http {
  const OK: int := 200
  const ALREADY_REPORTED: int := 208
  const BAD_REQUEST: int := 400
  const UNAUTHORIZED: int := 401
  const NOT_FOUND: int := 404
  const INTERNAL_SERVER_ERROR: int := 500

  /** The dynamic value stored under "userID" in the request context.
      `Unset` is Go's nil interface; `UIntVal` a Go `uint`; `StrVal` stands for a
      value of any other dynamic type (a string is the representative one). */
  datatype Local = Unset | UIntVal(n: nat) | StrVal(s: string)

  /** Go's `==` between an `interface{}` and a `string`: true only when the
      interface holds a string with the same contents. */
  predicate LocalEqualsString(l: Local, s: string)
  {
    l.StrVal? && l.s == s
  }
}
