/** Failure-carrying values shared by every module of the model.

    The application is written in Python, where most helpers either return
    `None` or raise. `Option` models the first, `Outcome` the second: an
    operation that can raise returns `Raised(kind)` instead of a value, and
    each caller states explicitly which kinds it catches.
 */
module Base {

  datatype Option<+T> = None | Some(value: T)

  /** The Python exception classes the modelled code raises or catches. */
  datatype PyError = ValueError | TypeError | AttributeError

  datatype Outcome<+T> = Ok(value: T) | Raised(error: PyError)

  /** Why a page or endpoint refused a request (it then changes nothing). */
  datatype Refusal =
    | NotBookable
    | EndNotAfterStart
    | InPast
    | Unavailable
    | NotFound
    | Forbidden
    | WrongStatus
    | AlreadyWaiting
    | SlotAvailable
    | MissingField
    | Conflict
    | Duplicate
    | Invalid

  /** The result of a request: refused with a reason, or done with a value. */
  datatype Verdict<+T> = Refused(reason: Refusal) | Done(value: T)

  /** `sum(xs)` over naturals. */
  function Sum(xs: seq<nat>): nat
  {
    if |xs| == 0 then 0 else Sum(xs[..|xs| - 1]) + xs[|xs| - 1]
  }
}
