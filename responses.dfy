/** HTTP responses of the controllers and the two ways they map an empty service result. */
module Responses {
  import opened Wrappers

  /** A `ResponseEntity`: its status code and its body, if any. */
  datatype Response<T> = Response(status: int, body: Option<T>)

  /** `Optional.map(ResponseEntity::ok).orElse(notFound().build())` */
  function OkOrNotFound<T>(result: Option<T>): (r: Response<T>)
    ensures r.status == 404 <==> result.None?
    ensures r.status == 200 <==> result.Some?
    ensures r.body == result
  {
    match result
    case Some(v) => Response(200, Some(v))
    case None => Response(404, None)
  }

  /** `Optional.map(ResponseEntity::ok).orElse(badRequest().build())` */
  function OkOrBadRequest<T>(result: Option<T>): (r: Response<T>)
    ensures r.status == 400 <==> result.None?
    ensures r.status == 200 <==> result.Some?
    ensures r.body == result
  {
    match result
    case Some(v) => Response(200, Some(v))
    case None => Response(400, None)
  }
}
