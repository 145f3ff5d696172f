/** `httputil.WriteError`: the choice of status and body for an error; the
    write itself is I/O and is not modelled. */
module HttpUtil {
  import opened Wrappers
  import opened AppErr

  /** The JSON error body `{"error": message}`. */
  function ErrorBody(msg: string): map<string, string> { map["error" := msg] }

  /** The status and body `WriteError` answers with for `err`. */
  function WriteError(e: Error): (r: (int, map<string, string>))
    ensures r.1.Keys == {"error"}
    ensures As(e).Some? ==> r.0 == As(e).value.code && r.1["error"] == As(e).value.message
    ensures As(e).None? ==> r.0 == StatusInternalServerError && r.1["error"] == InternalMessage
  {
    match As(e)
    case Some(app) => (app.code, ErrorBody(app.message))
    case None => (StatusInternalServerError, ErrorBody(InternalMessage))
  }

  /** The cause of an error never reaches the response. */
  lemma WriteErrorHidesCause(code: int, msg: string, c1: Option<Error>, c2: Option<Error>)
    ensures WriteError(AppError(code, msg, c1)) == WriteError(AppError(code, msg, c2))
  {
  }

  /** The constructors' status codes are what the response carries. */
  lemma WriteErrorStatuses(msg: string, cause: Option<Error>, inner: Error)
    ensures WriteError(NotFound(msg, cause)).0 == 404
    ensures WriteError(Conflict(msg, cause)).0 == 409
    ensures WriteError(Validation(msg)).0 == 400
    ensures WriteError(Forbidden(msg)).0 == 403
    ensures WriteError(Internal(inner)) == (500, ErrorBody(InternalMessage))
    ensures WriteError(SentinelError(GuestErrNotFound)) == (500, ErrorBody(InternalMessage))
  {
  }
}
