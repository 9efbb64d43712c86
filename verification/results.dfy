/** Error values of the backend and the result shapes its functions return.

    Go functions here return `(value, error)` pairs; a `Result` carries one or
    the other. Named sentinel errors of the `domain` package are constructors
    of `Error`; errors raised by infrastructure the model does not look into
    (the SQL driver, Redis transport, JSON, key files) are `External`, tagged
    with where they came from. A Go run-time panic is `NilDereference`, so that
    the paths on which the source dereferences a nil pointer are visible. */
module Results {

  /** Where an infrastructure error came from. */
  datatype Origin = Database | RedisTransport | JsonDecode | KeyFile | Signer | Upload | Mail | TokenParse

  datatype Error =
    // domain/user.go
    | ErrUserNotFound
    | ErrUserAlreadyExists
    | ErrHashingPassword
    | ErrInvalidPassword
    | ErrEmailNotConfirmed
    | ErrNameIsSame
    | ErrUserNotFoundInContext
    | ErrInvalidOldPassword
    | ErrPasswordIsSame
    // domain/user_session.go
    | ErrTokenInvalid
    | ErrSessionNotFound
    | ErrorUnexpectedMethod
    | ErrOTPNotFound
    | ErrOTPInvalid
    // domain/store.go
    | ErrStoresNotFound
    | ErrStoreNotFound
    | ErrUnauthorizedAction
    // JWT library errors other than the sentinel above
    | ErrKeyInvalidType
    | ErrSignatureInvalid
    // util/validators.go
    | ErrFileRequired
    | ErrInvalidFileType
    // google/uuid parse error
    | ErrInvalidUuid
    // validator/v10 struct check failure
    | ErrValidation
    // the sentinel `redis.Nil` reply of a GET on an absent key
    | RedisNil
    // an error built with `fmt.Errorf("%w: ...", base)`
    | Wrapped(base: Error)
    | External(origin: Origin)
    | NilDereference

  /** `errors.Is`: the error itself or any error it wraps equals `target`. */
  predicate Is(e: Error, target: Error)
    decreases e
  {
    e == target || (e.Wrapped? && Is(e.base, target))
  }

  datatype Result<+T> = Ok(value: T) | Err(error: Error) {
    predicate IsFailure() { Err? }
    function PropagateFailure<U>(): Result<U>
      requires Err?
    {
      Err(error)
    }
    function Extract(): T
      requires Ok?
    {
      value
    }
  }

  /** The result of a Go function that returns only an `error`. */
  datatype Outcome = Pass | Fail(error: Error) {
    predicate IsFailure() { Fail? }
    function PropagateFailure<U>(): Result<U>
      requires Fail?
    {
      Err(error)
    }
  }

  datatype Option<+T> = None | Some(value: T)

  /** The reply of a repository lookup that returns `(*T, error)`: a row,
      `(nil, nil)` for "no such row", or `(nil, err)`. */
  datatype Lookup<+T> = Found(row: T) | Missing | Failed(error: Error)
}
