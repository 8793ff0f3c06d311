/**
 * The JSON error handlers registered on the application: each HTTP status
 * that the handlers `abort` with is rendered as
 * `{success: false, message: <fixed text>, error: <status>}` with that status.
 * Any other failing status (an uncaught exception becomes 500) has no JSON
 * handler and is answered by the framework's default page.
 */
module Errors {
  import opened Wrappers

  datatype ErrorKind = BadRequest | NotFound | MethodNotAllowed | Unprocessable

  /** HTTP status of each kind of error. */
  function Code(k: ErrorKind): int {
    match k
    case BadRequest => 400
    case NotFound => 404
    case MethodNotAllowed => 405
    case Unprocessable => 422
  }

  /** The fixed message text of each handler. */
  function Message(k: ErrorKind): string {
    match k
    case BadRequest => "bad request"
    case NotFound => "resource not found"
    case MethodNotAllowed => "method not allowed"
    case Unprocessable => "unprocessable"
  }

  /** Which handler, if any, is registered for a status. */
  function KindOf(status: int): (k: Option<ErrorKind>)
    ensures k.Some? <==> status in {400, 404, 405, 422}
  {
    if status == 400 then Some(BadRequest)
    else if status == 404 then Some(NotFound)
    else if status == 405 then Some(MethodNotAllowed)
    else if status == 422 then Some(Unprocessable)
    else None
  }

  datatype ErrorBody = ErrorBody(success: bool, message: string, error: int)

  /** A JSON error reply: the body and the HTTP status it is sent with. */
  datatype ErrorReply = ErrorReply(body: ErrorBody, status: int)

  /**
   * The reply the registered handlers give for a failing status; `None`
   * when no handler is registered for it.
   */
  function HandleError(status: int): (r: Option<ErrorReply>)
    ensures r.Some? <==> status in {400, 404, 405, 422}
    ensures r.Some? ==> !r.value.body.success
    ensures r.Some? ==> r.value.status == status && r.value.body.error == status
    ensures r.Some? ==> r.value.body.message == Message(KindOf(status).value)
  {
    match KindOf(status)
    case None => None
    case Some(k) => Some(ErrorReply(ErrorBody(false, Message(k), Code(k)), Code(k)))
  }

  /** Each kind is found again from its status. */
  lemma KindOfCode(k: ErrorKind)
    ensures KindOf(Code(k)) == Some(k)
  {
  }

  /** Each handled status is the status of the kind it is handled by. */
  lemma CodeOfKindOf(status: int)
    requires KindOf(status).Some?
    ensures Code(KindOf(status).value) == status
  {
  }

  /** Different errors are told apart by their messages, not only their codes. */
  lemma MessagesDistinct(k1: ErrorKind, k2: ErrorKind)
    requires k1 != k2
    ensures Message(k1) != Message(k2)
  {
  }
}
