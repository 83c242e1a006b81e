/** The core user entity and its repository errors (crates/core/src/domain). */
module Domain {
  datatype User = User(id: string, username: string, email: string, active: bool)

  /** `User::new`: a new user is active. */
  function NewUser(id: string, username: string, email: string): (u: User)
    ensures u.id == id && u.username == username && u.email == email
    ensures u.active
  {
    User(id, username, email, true)
  }

  /** The user repository port's errors. */
  datatype UserError = NotFound | System(detail: string)
}
