/** What a service operation ends with, and the `catch` block every
    operation shares: an error carrying `response.data.message` is
    replaced by a new Error with that message, anything else is re-thrown
    as it is. */
module Failures {
  import opened JsValue

  /** A thrown value. */
  datatype Failure =
    | Raised(message: Value)     // `new Error(message)` thrown by the service itself
    | TypeErr(property: string)  // the TypeError of reading `property` of undefined or null
    | External(reason: Value)    // whatever the client call rejected with

  /** How an operation's promise settles. */
  datatype Outcome = Returned(value: Value) | Threw(failure: Failure)

  /** `error?.response?.data?.message` on a thrown value. */
  function NestedMessage(f: Failure): (m: Value)
    ensures !f.External? ==> m == Undefined
    ensures f.External? && !f.reason.Obj? ==> m == Undefined
  {
    match f
    case External(e) => Member(Member(Member(e, "response"), "data"), "message")
    case _ => Undefined  // an Error built here has no `response` property
  }

  /** The `catch (error)` block's rule for one thrown value. */
  function Normalise(f: Failure): (g: Failure)
    ensures Truthy(NestedMessage(f)) ==> g == Raised(NestedMessage(f))
    ensures !Truthy(NestedMessage(f)) ==> g == f
    ensures !Truthy(NestedMessage(g))
  {
    var m := NestedMessage(f);
    if Truthy(m) then Raised(m) else f
  }

  /** An operation's body wrapped in its `try { ... } catch`. */
  function Catch(o: Outcome): (r: Outcome)
    ensures o.Returned? ==> r == o
    ensures o.Threw? ==> r.Threw? && r.failure == Normalise(o.failure)
  {
    match o
    case Returned(_) => o
    case Threw(f) => Threw(Normalise(f))
  }

  /** Errors the services raise themselves pass through the catch block
      unchanged, and a second catch block (the Grade lookup inside update
      and delete) changes nothing the first one produced. */
  lemma CatchKeepsOwnErrors(o: Outcome)
    ensures o.Threw? && !o.failure.External? ==> Catch(o) == o
    ensures Catch(Catch(o)) == Catch(o)
  {
  }
}
