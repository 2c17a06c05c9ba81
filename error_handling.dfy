/**
 * The error-handling service: the classification of an exception into the
 * message shown to the user, and the user label written into log lines.
 */
module ErrorHandling {
  import opened Domain
  import opened Text

  /** The exception types the classification distinguishes, with the subclasses that reach its branches. */
  datatype ExceptionKind =
    | UnauthorizedAccess
    | KeyNotFound
    | Argument
    | ArgumentNull          // derives from ArgumentException
    | ArgumentOutOfRange    // derives from ArgumentException
    | InvalidOperation
    | ObjectDisposed        // derives from InvalidOperationException
    | DbUpdate
    | DbUpdateConcurrency   // derives from DbUpdateException
    | Timeout
    | Other(typeName: string)

  predicate IsArgument(k: ExceptionKind) {
    k == Argument || k == ArgumentNull || k == ArgumentOutOfRange
  }

  predicate IsInvalidOperation(k: ExceptionKind) {
    k == InvalidOperation || k == ObjectDisposed
  }

  predicate IsDbUpdate(k: ExceptionKind) {
    k == DbUpdate || k == DbUpdateConcurrency
  }

  const PERMISSION_MESSAGE := "You don't have permission to perform this action."
  const NOT_FOUND_MESSAGE := "The requested item was not found."
  const INVALID_INPUT_MESSAGE := "Invalid input provided. Please check your data."
  const CANNOT_COMPLETE_MESSAGE := "This operation cannot be completed at this time."
  const SAVE_ERROR_MESSAGE := "There was an error saving your changes. Please try again."
  const TIMEOUT_MESSAGE := "The operation timed out. Please try again."
  const UNEXPECTED_MESSAGE := "An unexpected error occurred. Please try again later."

  /** `GetUserFriendlyMessage`: the first type test that matches decides the message. */
  function FriendlyMessage(k: ExceptionKind): (m: string)
    ensures k == UnauthorizedAccess ==> m == PERMISSION_MESSAGE
    ensures k == KeyNotFound ==> m == NOT_FOUND_MESSAGE
    ensures IsArgument(k) ==> m == INVALID_INPUT_MESSAGE
    ensures IsInvalidOperation(k) ==> m == CANNOT_COMPLETE_MESSAGE
    ensures IsDbUpdate(k) ==> m == SAVE_ERROR_MESSAGE
    ensures k == Timeout ==> m == TIMEOUT_MESSAGE
    ensures k.Other? ==> m == UNEXPECTED_MESSAGE
  {
    if k == UnauthorizedAccess then PERMISSION_MESSAGE
    else if k == KeyNotFound then NOT_FOUND_MESSAGE
    else if IsArgument(k) then INVALID_INPUT_MESSAGE
    else if IsInvalidOperation(k) then CANNOT_COMPLETE_MESSAGE
    else if IsDbUpdate(k) then SAVE_ERROR_MESSAGE
    else if k == Timeout then TIMEOUT_MESSAGE
    else UNEXPECTED_MESSAGE
  }

  /**
   * The classification is total, and the message tells the families apart:
   * two exceptions get the same message exactly when they fall in the same branch.
   */
  lemma FriendlyMessageSeparatesFamilies(a: ExceptionKind, b: ExceptionKind)
    ensures FriendlyMessage(a) in {PERMISSION_MESSAGE, NOT_FOUND_MESSAGE, INVALID_INPUT_MESSAGE,
                                   CANNOT_COMPLETE_MESSAGE, SAVE_ERROR_MESSAGE, TIMEOUT_MESSAGE,
                                   UNEXPECTED_MESSAGE}
    ensures FriendlyMessage(a) == FriendlyMessage(b) <==>
      || (a == UnauthorizedAccess && b == UnauthorizedAccess)
      || (a == KeyNotFound && b == KeyNotFound)
      || (IsArgument(a) && IsArgument(b))
      || (IsInvalidOperation(a) && IsInvalidOperation(b))
      || (IsDbUpdate(a) && IsDbUpdate(b))
      || (a == Timeout && b == Timeout)
      || (a.Other? && b.Other?)
  {
  }

  const ANONYMOUS := "Anonymous"
  const USER_PREFIX := "UserId: "

  /** The `userInfo` of `LogError` and `LogWarning`. */
  function UserLabel(userId: Option<string>): (r: string)
    ensures IsNullOrEmpty(userId) <==> r == ANONYMOUS
    ensures !IsNullOrEmpty(userId) ==> r == USER_PREFIX + userId.value
  {
    if IsNullOrEmpty(userId) then ANONYMOUS
    else
      assert (USER_PREFIX + userId.value)[0] == 'U';
      USER_PREFIX + userId.value
  }

  /** Different non-empty user ids always get different labels. */
  lemma UserLabelInjective(a: string, b: string)
    requires a != "" && b != ""
    requires UserLabel(Some(a)) == UserLabel(Some(b))
    ensures a == b
  {
    assert (USER_PREFIX + a)[|USER_PREFIX|..] == a;
    assert (USER_PREFIX + b)[|USER_PREFIX|..] == b;
  }
}
