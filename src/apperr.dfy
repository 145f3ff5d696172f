/** Go errors as the backend produces them: the package sentinels, the
    application error that carries an HTTP status and a safe message, and any
    other error. The chain `errors.Is` and `errors.As` walk is the `cause` of
    an application error (its `Unwrap`). */
module AppErr {
  import opened Wrappers

  const StatusOK := 200
  const StatusCreated := 201
  const StatusNoContent := 204
  const StatusBadRequest := 400
  const StatusUnauthorized := 401
  const StatusForbidden := 403
  const StatusNotFound := 404
  const StatusConflict := 409
  const StatusInternalServerError := 500

  const InternalMessage: string := "Erro interno do servidor"

  /** The exported sentinel errors of the `guest` and `user` packages. */
  datatype Sentinel =
    | GuestErrNotFound        // guest.ErrNotFound
    | ErrAlreadyRegistered    // user.ErrAlreadyRegistered
    | ErrGuestNotFound        // user.ErrGuestNotFound
    | ErrURACFTaken           // user.ErrURACFTaken

  datatype Error =
    | SentinelError(sentinel: Sentinel)
    | AppError(code: int, message: string, cause: Option<Error>)
    | OtherError(text: string)

  function SentinelText(s: Sentinel): string {
    match s
    case GuestErrNotFound => "guest not found"
    case ErrAlreadyRegistered => "user already registered"
    case ErrGuestNotFound => "no guest found with this phone"
    case ErrURACFTaken => "uracf already in use"
  }

  /** `err.Error()`: for an application error, its message and nothing of its cause. */
  function ErrorString(e: Error): string {
    match e
    case SentinelError(s) => SentinelText(s)
    case AppError(_, m, _) => m
    case OtherError(t) => t
  }

  /** `errors.Unwrap(err)`. */
  function Unwrap(e: Error): Option<Error> {
    if e.AppError? then e.cause else None
  }

  /** `errors.Is(err, target)` for a sentinel target: the sentinel occurs in the chain. */
  predicate Is(e: Error, target: Sentinel) {
    match e
    case SentinelError(s) => s == target
    case AppError(_, _, cause) => cause.Some? && Is(cause.value, target)
    case OtherError(_) => false
  }

  /** `errors.As(err, &appErr)`: the first application error in the chain. */
  function As(e: Error): (r: Option<Error>)
    ensures r.Some? ==> r.value.AppError?
    ensures e.AppError? ==> r == Some(e)
  {
    match e
    case AppError(_, _, _) => Some(e)
    case _ => None
  }

  function NotFound(msg: string, cause: Option<Error>): (e: Error)
    ensures e.AppError? && e.code == StatusNotFound
    ensures ErrorString(e) == msg && Unwrap(e) == cause
  {
    AppError(StatusNotFound, msg, cause)
  }

  function Conflict(msg: string, cause: Option<Error>): (e: Error)
    ensures e.AppError? && e.code == StatusConflict
    ensures ErrorString(e) == msg && Unwrap(e) == cause
  {
    AppError(StatusConflict, msg, cause)
  }

  /** Validation errors carry no cause. */
  function Validation(msg: string): (e: Error)
    ensures e.AppError? && e.code == StatusBadRequest
    ensures ErrorString(e) == msg && Unwrap(e) == None
  {
    AppError(StatusBadRequest, msg, None)
  }

  /** Forbidden errors carry no cause. */
  function Forbidden(msg: string): (e: Error)
    ensures e.AppError? && e.code == StatusForbidden
    ensures ErrorString(e) == msg && Unwrap(e) == None
  {
    AppError(StatusForbidden, msg, None)
  }

  /** An internal error keeps its cause for logging but always reads as the generic message. */
  function Internal(cause: Error): (e: Error)
    ensures e.AppError? && e.code == StatusInternalServerError
    ensures ErrorString(e) == InternalMessage && Unwrap(e) == Some(cause)
  {
    AppError(StatusInternalServerError, InternalMessage, Some(cause))
  }

  /** Wrapping a sentinel in a not-found error keeps `errors.Is` working up the stack. */
  lemma NotFoundKeepsSentinel(msg: string, s: Sentinel)
    ensures Is(NotFound(msg, Some(SentinelError(s))), s)
    ensures forall t :: Is(NotFound(msg, Some(SentinelError(s))), t) <==> t == s
  {
  }

  /** A validation or forbidden error matches no sentinel. */
  lemma CauselessMatchesNoSentinel(msg: string, s: Sentinel)
    ensures !Is(Validation(msg), s) && !Is(Forbidden(msg), s)
    ensures !Is(NotFound(msg, None), s) && !Is(Conflict(msg, None), s)
  {
  }

  /** The text of an error never depends on its cause. */
  lemma TextIgnoresCause(code: int, msg: string, c1: Option<Error>, c2: Option<Error>)
    ensures ErrorString(AppError(code, msg, c1)) == ErrorString(AppError(code, msg, c2))
    ensures ErrorString(Internal(c1.GetOr(OtherError("")))) == ErrorString(Internal(c2.GetOr(OtherError(""))))
  {
  }
}
