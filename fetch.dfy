/**
 * What the front end's handlers see of one awaited request: either a
 * response, with its `ok` flag, or a rejection (a network failure, or a body
 * that `response.json()` cannot read), which reaches the handler's `catch`
 * as an `Error` carrying its own message. Every handler modelled here ends
 * in `setError(err instanceof Error ? err.message : …)`, so a rejection
 * shows its message and a non-ok response shows the text of the handler's
 * own `throw new Error(…)`.
 */
module Fetch {

  datatype Reply = Answered(ok: bool) | Rejected(message: string)

  /** The request went through and its response is ok. */
  predicate Succeeded(r: Reply)
  {
    r.Answered? && r.ok
  }

  /**
   * The error text a failing request leaves: the rejection's own message,
   * or the handler's `fallback` thrown after a non-ok response.
   */
  function FailureMessage(r: Reply, fallback: string): string
    requires !Succeeded(r)
  {
    if r.Rejected? then r.message else fallback
  }

  /** The failure leaves some text on screen: it is not a rejection with an empty message. */
  predicate Audible(r: Reply)
  {
    !(r.Rejected? && r.message == "")
  }
}
