/**
 * The structured denials the flows return: each carries the machine-readable
 * `actualError` code, the user-facing `msg` and, where the source sends one,
 * the `STATUS_CODE` inside the body.
 */
module AuthErrors {
  import opened Wrappers
  import opened JsText
  import Enums
  import Constants

  datatype Code =
    | NonExistentEmail
    | PasswordUnset(email: string)
    | IncorrectPassword
    /** `status !== ACTIVE` for a status that has a registered name. */
    | AccountStatus(status: int)
    | AccountLocked(until: int)
    /** A thrown error turned into a generic failure at the flow's boundary. */
    | Unexpected
    | MissingFields
    | InvalidEmail
    | EmailExists
    | NotAuthenticated
    | EmailRequired
    | PasswordNotSet
    | InvalidOrExpiredToken
    | PasswordTooShort
    | PasswordRequired
    | OldPasswordRequired
    | PasswordSame
    | PasswordAlreadySet
    | GoogleOnly
    | UserNotFound
    | WrongOldPassword
    | AlreadyVerified
    | UserNotAuthenticated
    | Unauthorized(redirectTo: string)

  /** A request guard's decision: call `next()`, or answer with a denial and stop. */
  datatype Gate = Next | Deny(code: Code)

  /** A flow's answer: `error: false` with a payload, or `error: true` with a denial. */
  datatype Reply<T> = Ok(value: T) | Fail(code: Code)

  /** The registered name of a status, `undefined` for any other number. */
  function StatusName(status: int): Option<string> {
    Enums.GetById(Constants.UserStatus, status)
  }

  /**
   * The denial for a non-ACTIVE status: building its message calls
   * `getById(status).toLowerCase()`, which throws for an unregistered status.
   */
  function StatusDenial(status: int): (c: Code)
    ensures c.AccountStatus? <==> StatusName(status).Some?
    ensures c.AccountStatus? ==> c.status == status
    ensures !c.AccountStatus? ==> c == Unexpected
  {
    if StatusName(status).Some? then AccountStatus(status) else Unexpected
  }

  /** `actualError`, for the denials that carry one. */
  function ActualError(c: Code): Option<string> {
    match c
    case NonExistentEmail => Some("NON_EXISTENT_EMAIL")
    case PasswordUnset(_) => Some("PASSWORD_UNSET")
    case IncorrectPassword => Some("INCORRECT_PASSWORD")
    case AccountStatus(s) => Some("ACCOUNT_" + Upper(StatusName(s).GetOr("Disabled")))
    case AccountLocked(_) => Some("ACCOUNT_LOCKED")
    case UserNotAuthenticated => Some("USER_NOT_AUTHENTICATED")
    case _ => None
  }

  /** The user-facing `msg` of the authentication denials. */
  function Message(c: Code): Option<string> {
    match c
    case NonExistentEmail => Some("Invalid email or password")
    case IncorrectPassword => Some("Invalid email or password")
    case PasswordUnset(email) => Some("Password not set for " + email)
    case AccountStatus(s) => Some("Your account is " + Lower(StatusName(s).GetOr("")) + ". Please contact support.")
    case AccountLocked(_) => Some("Your account is temporarily locked")
    case InvalidOrExpiredToken => Some("Invalid or expired token.")
    case Unauthorized(_) => Some("Unauthorized")
    case _ => None
  }

  /** The `STATUS_CODE` a denial reports. */
  function StatusCode(c: Code): Option<int> {
    match c
    case AccountLocked(_) => Some(403)
    case AccountStatus(_) => Some(403)
    case UserNotAuthenticated => Some(401)
    case Unauthorized(_) => Some(401)
    case _ => None
  }

  /** `canSetPassword` in a login denial: true only for an unset password. */
  function CanSetPassword(c: Code): bool {
    c.PasswordUnset?
  }

  /**
   * An unknown email and a wrong password look the same to the caller; only
   * the internal `actualError` tells them apart.
   */
  lemma CredentialDenialsLookAlike()
    ensures Message(NonExistentEmail) == Message(IncorrectPassword)
    ensures ActualError(NonExistentEmail) != ActualError(IncorrectPassword)
    ensures !CanSetPassword(NonExistentEmail) && !CanSetPassword(IncorrectPassword)
  {
  }

  /** Only the registered non-ACTIVE statuses get an account-status denial. */
  lemma StatusDenials()
    ensures StatusDenial(Constants.DISABLED) == AccountStatus(Constants.DISABLED)
    ensures StatusDenial(Constants.BANNED) == AccountStatus(Constants.BANNED)
    ensures forall s :: s !in {1, 2, 3} ==> StatusDenial(s) == Unexpected
  {
    Constants.UserStatusTable();
  }

  /** Upper-casing a name letter by letter, for the status names. */
  lemma UpperName(name: string, upper: string)
    requires |name| == |upper|
    requires forall i :: 0 <= i < |name| ==> UpperChar(name[i]) == upper[i]
    ensures Upper(name) == upper
  {
  }

  /** A disabled account is reported as `ACCOUNT_DISABLED`. */
  lemma DisabledCode()
    ensures ActualError(AccountStatus(Constants.DISABLED)) == Some("ACCOUNT_DISABLED")
  {
    Constants.UserStatusSorted();
    Enums.NameInAt(Constants.UserStatus.names, 1);
    assert StatusName(Constants.DISABLED) == Some("Disabled");
    UpperName("Disabled", "DISABLED");
    assert "ACCOUNT_" + "DISABLED" == "ACCOUNT_DISABLED";
  }

  /** A banned account is reported as `ACCOUNT_BANNED`. */
  lemma BannedCode()
    ensures ActualError(AccountStatus(Constants.BANNED)) == Some("ACCOUNT_BANNED")
  {
    Constants.UserStatusSorted();
    Enums.NameInAt(Constants.UserStatus.names, 2);
    assert StatusName(Constants.BANNED) == Some("Banned");
    UpperName("Banned", "BANNED");
    assert "ACCOUNT_" + "BANNED" == "ACCOUNT_BANNED";
  }
}
