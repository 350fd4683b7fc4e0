/** Result shapes and the error values the services and stores return.
    Go returns `(value, error)` pairs; here a success and each failure are
    separate constructors, and `Message` gives the text Go's `error` carries. */
module Errors {

  datatype Option<+T> = None | Some(value: T)

  /** The errors the core produces. Each service-level kind carries the exact
      text of the `errors.New` call that creates it. */
  datatype Error =
    | CodeAlreadyExists        // referral service, CreateReferralCode
    | CodeExpired              // referral service, read path and redemption
    | InvalidCode              // referral service, redemption with an unknown code
    | UserAlreadyExists        // auth service, RegisterUser
    | UserNotFound             // auth service LoginUser; user store and reverse code lookup
    | InvalidCredentials       // auth service, LoginUser
    | CodeNotFound             // code store, lookup by owner
    | UniqueViolation(table: string)  // an insert refused by a uniqueness rule of the store
    | Fault(detail: string)    // any other store, driver or hashing failure

  function Message(e: Error): string
  {
    match e
    case CodeAlreadyExists => "referral code already exists for user"
    case CodeExpired => "referral code has expired"
    case InvalidCode => "invalid referral code"
    case UserAlreadyExists => "user already exists"
    case UserNotFound => "user not found"
    case InvalidCredentials => "invalid credentials"
    case CodeNotFound => "referral code not found"
    case UniqueViolation(table) => "duplicate key value violates unique constraint on " + table
    case Fault(detail) => detail
  }

  /** A value or the error that replaced it. */
  datatype Result<+T> = Ok(value: T) | Err(error: Error)

  /** An operation that returns only an error (Go's bare `error`). */
  datatype Outcome = Pass | Fail(error: Error)

  /** A store lookup, three ways: the row, the store's own "not found" error,
      or any other failure. */
  datatype Lookup<+T> = Found(value: T) | NotFound(error: Error) | Failed(error: Error)
}
