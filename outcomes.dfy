/** Optional values, results and the error kinds the handlers report. */
module Outcomes {

  datatype Option<T> = None | Some(value: T)

  /** Why a handler refused a request. HTTP status codes are not modelled. */
  datatype Error =
    | NotFound                 // get_object_or_404 matched no row (HTTP 404)
    | AlreadyExists            // favourite, cart entry or subscription already present (HTTP 400)
    | SelfSubscription         // a user tried to (un)subscribe to themself (HTTP 400)
    | MultipleObjectsReturned  // a `.get()` lookup matched more than one row (uncaught exception)
    | MalformedDataUri         // a data:image value did not split into header and payload (ValueError)
    | NotAnInteger             // `int(recipes_limit)` failed (ValueError)
    | NegativeSlice            // a queryset sliced with a negative bound (refused by the ORM)

  datatype Result<T> = Ok(value: T) | Err(error: Error)
}
