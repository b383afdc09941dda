/** Values shared by every route handler: optional values, the caller's
    session and the error answers a handler gives instead of its result. */
module Common {

  datatype Option<+T> = None | Some(value: T)

  /** A user's role, as stored in the user table. */
  datatype Role = Admin | Editor | Viewer

  /** The authenticated caller: the session provider is outside the model,
      so every handler receives the session (or its absence) explicitly. */
  datatype Session = Session(userId: string, role: Role)

  /** Why a request was refused; each case is a distinct answer of the
      source's handlers. */
  datatype Reason =
    | InvalidDays               // maintenance: `days` missing or not a number
    | MissingFields             // user creation: email, password or name missing
    | EmailRegistered           // user creation: email already in the table
    | CurrentPasswordRequired   // profile: sensitive change without current password
    | WrongCurrentPassword      // profile: current password does not match
    | EmailInUse                // profile: email held by another user

  datatype Failure =
    | Unauthorized              // HTTP 401
    | BadRequest(reason: Reason) // HTTP 400
    | NotFound                  // HTTP 404

  datatype Result<+T> = Ok(value: T) | Err(failure: Failure)

  /** The caller holds an ADMIN session. */
  predicate IsAdmin(session: Option<Session>) {
    session.Some? && session.value.role == Admin
  }
}
