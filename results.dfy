/** Outcomes shared by every service: the application's exceptions become error values. */
module Results {

  datatype Option<+T> = None | Some(value: T)

  /** Which field an IllegalArgumentException complains about. */
  datatype Field = Description | Owner | StatusName

  /** Which uniqueness check of the registration failed. */
  datatype Duplicate = DuplicateUsername | DuplicateEmail

  /** Which length bound of the registration password was violated. */
  datatype Bound = TooShort | TooLong

  /** The exceptions the core throws, one constructor per exception class. */
  datatype Error =
    | IllegalArgument(field: Field)
    | NoSuchElement
    | StatusNotFound
    | UsernameNotFound
    | UserNotFound
    | UserAlreadyExists(duplicate: Duplicate)
    | InvalidPasswordLength(bound: Bound)
    | InvalidPassword
    | RoleNotFound
    | FailedRoleUpdate

  datatype Result<+T> = Ok(value: T) | Err(error: Error)

  /** Outcome of a service call whose return value the caller ignores. */
  datatype Outcome = Done | Raised(error: Error)
}
