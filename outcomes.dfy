/** Error values and result wrappers shared by the in-memory repositories of
    the forum backend (packages `posts` and `user`). Each constructor of
    `Error` stands for one of the sentinel errors the Go packages declare. */
module Outcomes {

  /** ErrNoComment, ErrNoPost, ErrNoUser and ErrBadPass. */
  datatype Error = NoComment | NoPost | NoUser | BadPass

  /** A repository call that yields a value or one of the sentinel errors. */
  datatype Result<+T> = Ok(value: T) | Err(error: Error)

  /** A repository call that yields only `nil` or one of the sentinel errors. */
  datatype Outcome = Pass | Fail(error: Error)
}
