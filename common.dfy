/** Shared vocabulary of every handler: optional values, tagged failures,
    handler results and the already-verified caller. */
module Common {

  datatype Option<T> = None | Some(value: T)

  /** The HTTP failures the handlers raise. `Unprocessable` is the framework's
      rejection of a request body that breaks a declared field bound; it happens
      before the handler runs. `Internal` stands for a store- or storage-level
      failure the handler turns into a 500. */
  datatype Failure = Unprocessable | BadRequest | Forbidden | NotFound | TooLarge | Internal

  function StatusCode(f: Failure): (code: int)
    ensures 400 <= code < 600
    ensures f == Unprocessable <==> code == 422
    ensures f == NotFound <==> code == 404
    ensures f == Forbidden <==> code == 403
  {
    match f
    case Unprocessable => 422
    case BadRequest => 400
    case Forbidden => 403
    case NotFound => 404
    case TooLarge => 413
    case Internal => 500
  }

  datatype Result<T> = Ok(value: T) | Err(failure: Failure)

  /** Row ids handed out by the store. */
  type Id = nat

  /** The identity the request layer has already verified: subject and e-mail. */
  datatype Caller = Caller(sub: string, email: Option<string>)

  /** Python's `x or default` on an optional string: a missing or empty value
      gives the default. */
  function OrDefault(x: Option<string>, default: string): (r: string)
    ensures x.Some? && x.value != "" ==> r == x.value
    ensures x.None? || x.value == "" ==> r == default
  {
    if x.Some? && x.value != "" then x.value else default
  }

  /** A pydantic field default: it applies only when the field is absent from
      the request body; a field that is present, even empty, is kept. */
  function Given(x: Option<string>, default: string): (r: string)
    ensures x.Some? ==> r == x.value
    ensures x.None? ==> r == default
  {
    if x.Some? then x.value else default
  }

  /** `user.email or ""`. */
  function EmailOf(c: Caller): (r: string)
    ensures c.email.Some? ==> r == c.email.value
    ensures c.email.None? ==> r == ""
  {
    OrDefault(c.email, "")
  }

  /** A pydantic `Field(min_length=lo, max_length=hi)` bound on a string. */
  predicate Within(s: string, lo: nat, hi: nat) {
    lo <= |s| <= hi
  }

  function Min(a: nat, b: nat): nat {
    if a <= b then a else b
  }
}
