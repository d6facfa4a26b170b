/** Errors as the create handler's catch block and the error-handling
    middleware see them. */
module Errors {
  import opened Wrappers
  import opened Text

  /** A thrown error: its `message` and its `status` property, None when
      the property is not set. */
  datatype Error = Error(message: string, status: Option<int>)

  /** The prefix of the storage engine's duplicate-key error message. */
  const DuplicateKeyCode := "E11000"

  const SlugInUse := "Slug in use!"

  /** The catch block of the create handler: a duplicate-key error gets the
      message "Slug in use!"; any other error passes through unchanged. */
  function RewriteDuplicate(e: Error): (r: Error)
    ensures r.status == e.status
    ensures StartsWith(e.message, DuplicateKeyCode) ==> r.message == SlugInUse
    ensures !StartsWith(e.message, DuplicateKeyCode) ==> r == e
  {
    if StartsWith(e.message, DuplicateKeyCode) then e.(message := SlugInUse) else e
  }

  /** The status the responder sets: the error's own status when it is set
      (truthy), and 500 otherwise; never 0. */
  function StatusOf(e: Error): (code: int)
    ensures code != 0
    ensures e.status.Some? && e.status.value != 0 ==> code == e.status.value
    ensures e.status.None? || e.status.value == 0 ==> code == 500
  {
    if e.status.Some? && e.status.value != 0 then e.status.value else 500
  }
}
