# Authentication core of node-express-mongo-ts-starter, in Dafny

This project models the authentication state machine of the Express/Mongoose
starter. The model is pure: each request handler becomes a function from a
store and the request to a reply and a new store. Time (`now`), bcrypt (a
`Hasher`), the random token and the `ENV == "PROD"` switch are parameters.

The parts modelled:

- **User model** (`UserModel`): the user record, lockout policy, login
  history, the pre-save password hook and `comparePassword`.
- **Store** (`Store`): users held in insertion order, with `findOne` as the
  first match. Also two session stores:
  - the transport session store, whose entries carry `_id` and `passport.user`;
  - the `UserSession` registry.
- **Strategies** (`AuthStrategies`): the local and Google passport verify
  callbacks, as decision functions.
- **Guards**: `CheckAccountLocked` (`AccountLockMiddleware`), `CheckUserStatus`
  (`UserStatusMiddleware`) and `ensureAuthenticated` (`AuthMiddleware`).
- **Controller** (`AuthController`): login, signup, logout, login status,
  forgot and reset password, verify and resend the email link, set and change
  password.
- **Revocation** (`UserSessions`): `deleteUserSessions` and `createUserSession`.
- **Routes** (`AuthRouter`): the `/login` route, which composes the lock guard
  with the controller.
- **Utilities**:
  - `millisecondsIn` (`MsConverter`);
  - `flatten` (`Flatten`);
  - the e-mail template renderer (`EmailTemplates`);
  - the `Enum` class and its constants (`Enums`, `Constants`);
  - the signup e-mail pattern (`EmailPattern`).
- **Shared helpers**:
  - JavaScript truthiness, `length` in UTF-16 code units, `trim` and ASCII
    case mapping (`JsText`);
  - the denial codes and their messages (`AuthErrors`);
  - `Option` (`Wrappers`).

Request outcomes are `Reply<T> = Ok(value) | Fail(code)`. A denial code stands
for the JSON body the handler sends. Middleware outcomes are `Gate = Next |
Deny(code)`. Errors the source catches before its first write become the
code `Unexpected` and leave the store unchanged. A mail failure after the
account is written is not modelled (see "Left out").

These are the modelling choices where the source's behaviour depends on the
framework:

- **Validation before hooks.** Mongoose validates a document before the
  pre-save hook runs. So the schema's `minlength: 6` applies to the plaintext
  password at signup, and a shorter one is a caught error.
- **String lengths.** `password.length` and the schema's `minlength: 6`
  count UTF-16 code units, so a character beyond U+FFFF counts twice. Every
  six-character guard uses `JsText.Utf16Length`.
- **Modified passwords.** `isModified("password")` is read as "the value
  assigned differs from the value stored".
- **Comparing a missing password.** `bcrypt.compare` against a missing
  password throws. `ComparePassword` then returns `None`.
- **Sessions.** `req.user` is the user whose id is in the transport session of
  the request, found with `findById`. `req.logIn` binds the request's session
  id to the user.
- **Status names.** A status id that is not in `UserStatus` makes
  `getById(..).toLowerCase()` throw, which the model reports as `Unexpected`.

Where the documented behaviour and the code differ, the model follows the code:

- **Expired lock.** A failure after an expired lock resets the counter to 0
  and does not count that failure (`src/database/models/User.model.ts:111-115`).
  The documentation says the counter becomes 1.
- **Fifth failure.** The fifth failed login locks the account, but that
  attempt itself is answered `INCORRECT_PASSWORD`.
- **No lock check in the strategy.** The local strategy never looks at the
  lock. Only the route's guard does, and through it a logged-in session can
  bypass the lock (see Findings).

## Model

| member | source | states |
|---|---|---|
| UserModel.LockDuration | src/database/models/User.model.ts:118 | the lock lasts `millisecondsIn(5, 'minute')` = 300000 ms |
| UserModel.IncrementFailedLogins | src/database/models/User.model.ts:110-121 | an expired lock (set and earlier than now) is cleared and the counter reset to 0; otherwise the counter grows by exactly one, an existing lock is never extended, and a count of five or more on an unlocked account locks it until now + 300000; the result is locked iff one of those cases says so; nothing else changes |
| UserModel.ResetFailedLogins | src/database/models/User.model.ts:123-128 | the counter is 0, the lock is cleared, `lastLogin` is now, whatever the prior state; the account is unlocked at every time; nothing else changes |
| UserModel.AppendHistory | src/database/models/User.model.ts:131-139 | the history has length min(old, 9) + 1 ≤ 10, ends with the new entry, and the kept entries are the newest old ones in their original order |
| UserModel.AddLoginHistory | src/database/models/User.model.ts:130-141 | only the history changes, and it changes as `AppendHistory` says |
| UserModel.AssignPassword | src/database/models/User.model.ts:96-104 | an unchanged value leaves the account as it was; a changed non-empty password is stored hashed and stamps `lastPasswordChange`; a changed null or empty one is stored as given and not stamped; no other field changes |
| UserModel.ComparePassword | src/database/models/User.model.ts:143-146 | the comparison fails (throws) exactly when no password is stored |
| UserModel.PasswordRoundTrip | src/database/models/User.model.ts:96-146 | after assigning a new non-empty password through the save hook, comparing that password succeeds |
| UserModel.Create | src/database/models/User.model.ts:7-104 | a new account has the schema defaults: ACTIVE, no failures, no lock, empty history, no reset token, `lastPasswordChange` now; a given password is stored hashed; a verification token pair given together leaves the account valid |
| UserModel.LockoutKeepsValid | src/database/models/User.model.ts:110-141 | counting a failure, resetting the counter and appending history all keep the token pairs paired and the history at most 10 |
| UserModel.FiveFailuresLock | src/database/models/User.model.ts:116-119 | from a clean account, four failures leave it unlocked with count 4; the fifth sets the count to 5 and locks it until now + 300000 |
| UserModel.ExpiredLockResets | src/database/models/User.model.ts:111-119 | a lock strictly in the past is cleared with the counter at 0; a lock ending exactly now takes the normal increment path and is renewed at the threshold |
| AuthErrors.StatusDenial | src/config/auth-strategies.ts:121-128 | a non-ACTIVE status is reported with its own id when `UserStatus` names it, and as an unexpected error otherwise |
| AuthErrors.CredentialDenialsLookAlike | src/config/auth-strategies.ts:96-120 | an unknown e-mail and a wrong password get the same user-facing message, and neither offers to set a password |
| AuthErrors.StatusDenials | src/config/auth-strategies.ts:121-128 | DISABLED and BANNED are reported as account-status denials; every id outside 1..3 as an unexpected error |
| AuthErrors.DisabledCode | src/api/middlewares/checkUserStatus.middleware.ts:22 | the DISABLED denial carries `ACCOUNT_DISABLED` |
| AuthErrors.BannedCode | src/api/middlewares/checkUserStatus.middleware.ts:22 | the BANNED denial carries `ACCOUNT_BANNED` |
| Store.FindByEmail | src/config/auth-strategies.ts:96 | `findOne({email})`: absent iff no account has that e-mail; otherwise the first account that has it |
| Store.FindById | src/config/passport.ts:24 | `findById`: absent iff no account has that id; otherwise the first account that has it |
| Store.FindByGoogleId | src/config/auth-strategies.ts:22 | `findOne({googleId})`: absent iff no account is linked to that Google id; otherwise the first one |
| Store.FindByResetToken | src/api/controllers/auth.controller.ts:342-345 | absent iff no account holds exactly that reset token with an expiry strictly after now; otherwise the first account that does |
| Store.FindByVerificationToken | src/api/controllers/auth.controller.ts:407-410 | absent iff no account holds exactly that verification token with an expiry strictly after now; otherwise the first account that does |
| Store.SessionUser | src/config/passport.ts:19-26 | a resolved `req.user` is an account of the store whose id is stored in a transport session with the request's id |
| Store.PutKeepsValid | src/database/models/User.model.ts:24-28 | replacing an account by a valid one with the same id and e-mail keeps ids and e-mails unique |
| Store.InsertKeepsValid | src/database/models/User.model.ts:24-28 | inserting a valid account with a fresh id and e-mail keeps ids and e-mails unique |
| Store.EmailFindsTheOwner | src/database/models/User.model.ts:24-28 | with unique e-mails, looking up an account's e-mail finds that account |
| Store.IdFindsTheOwner | src/config/passport.ts:23-26 | with unique ids, looking up an account's id finds that account |
| Store.SessionResolves | src/config/passport.ts:19-26 | a session that stores an account's id resolves to that account |
| UserSessions.DeleteUserSessions | src/utils/deleteUserSessions.ts:10-56 | the result is a failure iff a fault strikes a step that runs, and the message names the user; with no matching transport session nothing changes; a completed run removes exactly the doomed transport sessions and, after them, exactly the doomed registry entries; nothing is ever added |
| UserSessions.RevocationClears | src/utils/deleteUserSessions.ts:14-39 | after a completed revocation, no session of the user but the kept one remains in either store, the kept one survives, and other users' sessions are untouched |
| UserSessions.RevocationWithoutExceptionClearsAll | src/utils/deleteUserSessions.ts:17-19 | with no session to keep, every session of the user leaves both stores |
| UserSessions.StaleRecordsSurvive | src/utils/deleteUserSessions.ts:21-24 | the early return: with no transport session of the user, the user's registry entries are not removed |
| UserSessions.CreateUserSession | src/utils/createUserSession.ts:10-51 | a login records `(userId, sessionID)` in the registry; when the location lookup fails, nothing is recorded |
| UserSessions.RecordedSessionIsRevocable | src/utils/deleteUserSessions.ts:14-39 | a recorded login is removed from both stores by a later revocation that does not spare its session |
| AccountLockMiddleware.CheckAccountLocked | src/api/middlewares/checkAccountLock.middleware.ts:6-36 | no user and no body e-mail passes; a body e-mail matching no account passes; otherwise the request is denied iff the judged account is locked; the denial echoes the `accountLockedUntil` of the judged account (the session's user, or else the account the body's e-mail names), which is later than now |
| AccountLockMiddleware.SessionUserTakesPrecedence | src/api/middlewares/checkAccountLock.middleware.ts:9-21 | once a session user is present, the body e-mail has no influence on the decision |
| UserStatusMiddleware.CheckUserStatus | src/api/middlewares/checkUserStatus.middleware.ts:7-29 | passes iff a user is present and ACTIVE; a missing user or a status of 0 is `USER_NOT_AUTHENTICATED`; any other status is the account-status denial |
| UserStatusMiddleware.StatusGateCodes | src/api/middlewares/checkUserStatus.middleware.ts:8-26 | a DISABLED or BANNED user gets `ACCOUNT_DISABLED`/`ACCOUNT_BANNED` with 403; a missing user gets 401 |
| AuthMiddleware.EnsureAuthenticated | src/api/middlewares/auth.middleware.ts:19-28 | passes iff the request is authenticated and its user has a non-empty id; otherwise 401 with `Unauthorized` and a redirect to `clientAppURL + "/login"` |
| AuthStrategies.LocalVerify | src/config/auth-strategies.ts:94-138 | an unknown e-mail is rejected with no change; a Google account without a password gets `PASSWORD_UNSET`; a wrong password gets `INCORRECT_PASSWORD` and counts exactly one failure on that account; success iff the account exists, has a password that matches, and is ACTIVE; nothing else changes the store |
| AuthStrategies.WrongPasswordHidesStatus | src/config/auth-strategies.ts:112-128 | a wrong password on a non-ACTIVE account is reported as a wrong password and counts |
| AuthStrategies.StatusDenialKeepsCounter | src/config/auth-strategies.ts:121-128 | a right password on a non-ACTIVE account is denied with its status and leaves the counter alone |
| AuthStrategies.LocalIgnoresLock | src/config/auth-strategies.ts:94-129 | the strategy accepts a locked account whose password matches |
| AuthStrategies.GoogleAccount | src/config/auth-strategies.ts:61-70 | a new Google account is created iff the profile has a non-empty e-mail and a non-empty display name (the schema requires both); it carries the Google id, no password, a verified e-mail, and is valid |
| AuthStrategies.GoogleVerify | src/config/auth-strategies.ts:16-84 | a linked account succeeds iff ACTIVE and unlocked, the status checked first; otherwise an account with the profile's e-mail is linked (Google id and image set) iff ACTIVE; otherwise a new account is appended iff the profile's e-mail and display name are non-empty, and nothing is written when it is not |
| AuthStrategies.GoogleRefusesLockedOrInactive | src/config/auth-strategies.ts:22-42 | a linked account that is locked or not ACTIVE never signs in |
| AuthStrategies.LinkingIgnoresLock | src/config/auth-strategies.ts:45-59 | the linking branch accepts a locked ACTIVE account |
| AuthStrategies.LocalKeepsValid | src/config/auth-strategies.ts:112-120 | the local strategy keeps ids and e-mails unique and every account valid |
| AuthStrategies.GoogleKeepsValid | src/config/auth-strategies.ts:45-78 | the Google strategy, given a fresh id, keeps ids and e-mails unique and every account valid |
| AuthController.SanitizeHidesExactlySecrets | src/api/controllers/auth.controller.ts:59-65 | two accounts give the same login response iff they differ only in the password, the two token pairs and the Google id |
| AuthController.BindSession | src/api/controllers/auth.controller.ts:48 | after `logIn` the request's session stores the user, and every other session is kept as it was |
| AuthController.LoggedIn | src/api/controllers/auth.controller.ts:56-57 | after login, the counter is 0, the lock is cleared, `lastLogin` is now, and one successful history entry is appended; nothing else changes |
| AuthController.UserLogin | src/api/controllers/auth.controller.ts:22-81 | a missing e-mail or password is rejected with no change; success iff the local strategy accepts; a failure answers with the local strategy's denial code and keeps the strategy's writes (the failed-login count of a wrong password) and touches no session; success writes the logged-in account, binds the session, records it, and answers with the sanitized account |
| AuthController.LoginCredentialDenials | src/api/controllers/auth.controller.ts:31-46 | through the login, an unknown e-mail is refused with no change, a wrong password is refused and counts exactly one failure against the account, and both denials carry the same message |
| AuthController.LoginEstablishesSession | src/api/controllers/auth.controller.ts:48-69 | after a successful login, the request's session resolves to the account with that e-mail, and the response is that account sanitized |
| AuthController.LoginKeepsValid | src/api/controllers/auth.controller.ts:56-58 | login keeps ids and e-mails unique and every account valid |
| AuthController.SignupToken | src/api/controllers/auth.controller.ts:116-118 | a verification token is issued iff in production, always with its expiry, and then with expiry now + 3600000 |
| AuthController.SignupAccount | src/api/controllers/auth.controller.ts:107-120 | the new account has the fresh id, the given e-mail, no Google id, the password hashed, a verified e-mail iff not in production, ACTIVE status, and is valid |
| AuthController.UserSignup | src/api/controllers/auth.controller.ts:83-148 | rejects in order a missing field, an e-mail failing the pattern, an e-mail already taken ignoring case; succeeds iff all guards pass and the password has at least six UTF-16 code units, as the schema's `minlength` counts them; a rejection writes nothing; success appends exactly the new account |
| AuthController.SignupVerification | src/api/controllers/auth.controller.ts:116-118 | a new account is verified iff not in production; its token and expiry are both absent or both set, and in production they are the token and now + 3600000 |
| AuthController.SignupKeepsValid | src/api/controllers/auth.controller.ts:100-120 | signup with a fresh id keeps ids and e-mails unique and every account valid |
| AuthController.SignupThenLogin | src/api/controllers/auth.controller.ts:83-120 | right after an accepted signup, logging in with the same e-mail and password succeeds |
| AuthController.UserLogout | src/api/controllers/auth.controller.ts:150-173 | an unauthenticated request is refused with no change; otherwise exactly the request's transport session is destroyed, one copy of the registry entry for this user and session is removed (none when there is no such entry), nothing else leaves the registry, and the accounts are unchanged |
| AuthController.LogoutEndsSession | src/api/controllers/auth.controller.ts:157-171 | after logout the request's session resolves to no user |
| AuthController.CheckLoginStatus | src/api/controllers/auth.controller.ts:242-277 | a user is reported iff authenticated; `isPasswordSet` iff a non-empty password is stored; `isEmailVerified` iff linked to Google or verified |
| AuthController.GoogleAccountStatus | src/api/controllers/auth.controller.ts:254-257 | an account created by the Google strategy reports a verified e-mail, no password set, and a Google account |
| AuthController.WithResetToken | src/api/controllers/auth.controller.ts:318-321 | the account holds the token, pending until now + 3600000; nothing else changes |
| AuthController.ForgotPassword | src/api/controllers/auth.controller.ts:279-337 | a missing e-mail is refused; an unknown e-mail gets the same success reply with no change; a locked account gets the lock denial and a non-ACTIVE one its status denial, with no change; a token is issued iff the account is unlocked, ACTIVE and has a password |
| AuthController.ForgotHidesExistence | src/api/controllers/auth.controller.ts:288-328 | an unknown e-mail and an e-mail that receives a token get the same reply |
| AuthController.RevokeOthers | src/api/controllers/auth.controller.ts:383-385 | other sessions are revoked only when asked, sparing the request's own, and the accounts are untouched |
| AuthController.Redeemed | src/api/controllers/auth.controller.ts:386-389 | the spent token pair is cleared and the new password goes through the save hook |
| AuthController.ResetPassword | src/api/controllers/auth.controller.ts:339-402 | a token not held and unexpired is refused with no change; success iff the account is unlocked, ACTIVE, the new password has six or more UTF-16 code units and differs from the current one; the refusals come in that order (locked, then status, then too short, then same as before, and a missing stored password as a caught error); a refusal writes nothing; success revokes if asked, stores the new password and clears the token |
| AuthController.ResetTokenSingleUse | src/api/controllers/auth.controller.ts:342-389 | a redeemed reset token is refused as invalid or expired on any later attempt |
| AuthController.ForgotThenReset | src/api/controllers/auth.controller.ts:279-402 | a token issued by forgot-password redeems within the hour, after which the new password matches |
| AuthController.Verified | src/api/controllers/auth.controller.ts:414-416 | the e-mail is verified and the token pair cleared; nothing else changes |
| AuthController.VerifyEmail | src/api/controllers/auth.controller.ts:404-427 | redirects with `tokenExpired=true` and no change iff no account holds that unexpired token; otherwise verifies exactly that account |
| AuthController.ResendVerificationLink | src/api/controllers/auth.controller.ts:429-465 | an unknown e-mail is refused; succeeds iff the account is unverified; success replaces its token pair with the token and now + 3600000; a refusal writes nothing |
| AuthController.ResendThenVerify | src/api/controllers/auth.controller.ts:404-465 | a resent link verifies the account within the hour, and the same link then fails |
| AuthController.SetPassword | src/api/controllers/auth.controller.ts:467-516 | succeeds iff the password is not blank, has at least six UTF-16 code units, no password is set, the account is linked to Google, and it is still in the store; a blank password and a short one get their own refusals; success stores the password through the save hook; no write without six UTF-16 code units |
| AuthController.ChangeGuard | src/api/controllers/auth.controller.ts:528-565 | no guard fails iff the old password is given and matches, the new one is non-blank, has six or more UTF-16 code units and differs from the current one; a blank old password and a wrong one get their own refusals |
| AuthController.ChangePassword | src/api/controllers/auth.controller.ts:518-583 | an account missing from the store is refused; success iff the guards pass on the stored account; a refusal writes nothing; success revokes if asked and stores the new password; no write without six UTF-16 code units |
| AuthController.ChangeReplacesPassword | src/api/controllers/auth.controller.ts:559-570 | after a change, the new password matches and the old one no longer does |
| AuthController.ForgotKeepsValid | src/api/controllers/auth.controller.ts:318-321 | forgot-password keeps ids and e-mails unique and every account valid |
| AuthController.ResetKeepsValid | src/api/controllers/auth.controller.ts:386-389 | reset keeps ids and e-mails unique and every account valid |
| AuthController.VerificationKeepsValid | src/api/controllers/auth.controller.ts:414-448 | verify and resend keep ids and e-mails unique, and the verification token pair paired |
| AuthController.PasswordFlowsKeepValid | src/api/controllers/auth.controller.ts:502-570 | set and change password keep ids and e-mails unique and every account valid |
| AuthRouter.LoginRouteAsWritten | src/api/routers/auth.router.ts:8 | `/login` as written: denied with the lock code and no change when the guard denies, otherwise exactly `UserLogin` |
| AuthRouter.LoggedInSessionBypassesLock | src/api/middlewares/checkAccountLock.middleware.ts:9-21 | from a session logged in to an unlocked account, a locked ACTIVE account with the right password logs in |
| AuthRouter.BypassExample | src/api/middlewares/checkAccountLock.middleware.ts:19-21 | a concrete store where a locked account logs in through another account's session |
| AuthRouter.LoginRoute | src/api/routers/auth.router.ts:8 | `/login` with the lock judged on the account named in the body: a locked account is denied with its lock and no change; for any other request the route answers and writes exactly what the controller does |
| AuthRouter.LoginRouteSucceedsIff | src/api/routers/auth.router.ts:8 | a login through the route succeeds iff the account exists, is unlocked, is not a password-less Google account, the password matches and it is ACTIVE |
| AuthRouter.LockedAccountNeverLogsIn | src/api/middlewares/checkAccountLock.middleware.ts:23-35 | a locked account never logs in through the route, and the attempt changes nothing |
| AuthRouter.LoggedInPassesProtectedGates | src/api/routers/auth.router.ts:27-35 | after a login through the route, the session passes `ensureAuthenticated` and `CheckUserStatus` |
| EmailPattern.ValidEmailIffMatches | src/api/controllers/auth.controller.ts:86 | the direct check accepts exactly the strings the signup pattern matches |
| MsConverter.Factor | src/utils/msConverter.ts:13-28 | the factors are second 1000, minute 60000, hour 3600000, day 86400000, week 7 days, month 30 days, year 365 days, and no other unit has one |
| MsConverter.MillisecondsIn | src/utils/msConverter.ts:8-30 | a non-number, NaN, an absent unit or an unknown unit gives null; otherwise the amount times the factor of the lower-cased unit |
| MsConverter.UnitIgnoresCase | src/utils/msConverter.ts:12 | the unit is matched ignoring ASCII case |
| MsConverter.Linear | src/utils/msConverter.ts:13-26 | for a supported unit the conversion is additive in the amount |
| MsConverter.FiveMinutes | src/utils/msConverter.ts:16 | five minutes is 300000 ms |
| Flatten.Flatten | src/utils/flatten.ts:8-24 | the result is the accumulator followed by the pre-order of the forest |
| Flatten.EmptyForest | src/utils/flatten.ts:13 | an empty forest returns the accumulator unchanged |
| Flatten.PrefixAndLength | src/utils/flatten.ts:11-23 | the prior accumulator is a prefix of the result, which grows by the number of nodes |
| Flatten.PreorderLength | src/utils/flatten.ts:17-23 | the pre-order holds every node once: its length is the node count |
| Flatten.Leaf | src/utils/flatten.ts:19-21 | a node without children contributes only itself |
| Flatten.PreorderSubtrees | src/utils/flatten.ts:15-23 | in the pre-order every node is immediately followed by its descendants, which come before its later siblings |
| Flatten.FlattenSubtrees | src/utils/flatten.ts:15-23 | the same ordering holds for every node the flattening pushes |
| EmailTemplates.ReplaceAll | src/email-templates/index.ts:13-17 | a global one-character replace leaves no occurrence when the replacement has none, and changes nothing when there is none |
| EmailTemplates.EscapeIsPerCharacter | src/email-templates/index.ts:13-17 | the chain of replaces, `&` first, escapes each character on its own: no entity is escaped twice |
| EmailTemplates.EscapeRemovesMarkup | src/email-templates/index.ts:11-17 | escaped text contains none of `< > " '` |
| EmailTemplates.EscapePlainText | src/email-templates/index.ts:13-17 | text without any of the five special characters is left alone |
| EmailTemplates.WordRun | src/email-templates/index.ts:9 | `\w+` takes the longest run of word characters |
| EmailTemplates.PlaceholderAt | src/email-templates/index.ts:9 | a placeholder found at the front has a non-empty word-character key and is spelled out at the front |
| EmailTemplates.Render | src/email-templates/index.ts:9-20 | a template without markup renders without markup: every inserted value is escaped |
| EmailTemplates.RenderWithoutData | src/email-templates/index.ts:19 | with no data, every placeholder is left verbatim and the template comes back unchanged |
| EmailTemplates.RenderAbsentPlaceholder | src/email-templates/index.ts:9-19 | whatever the data, a placeholder whose key is absent stays verbatim and the rest of the template renders on its own |
| EmailTemplates.RenderPlainChar | src/email-templates/index.ts:9 | whatever the data, a character other than `$` cannot start a match and is copied unchanged |
| EmailTemplates.RenderPlainPrefix | src/email-templates/index.ts:9 | whatever the data, text holding no `$` passes through unchanged and the rest renders on its own |
| EmailTemplates.RenderPlaceholder | src/email-templates/index.ts:9-18 | a placeholder whose key is in the data becomes the escaped value, and the rest of the template renders on its own, so inserted text is not scanned again |
| Enums.NameInAt | src/core/constants/enum.ts:6-9 | `getById` of a listed id returns that id's name |
| Enums.Const | src/core/constants/Constants.ts:37-44 | a forward key stands for the id listed with it, and a missing key for none |
| Enums.FirstNamed | src/core/constants/enum.ts:12-17 | `getByName` finds no id iff no name equals the given one ignoring case; otherwise the id of a name that does |
| Enums.GetAll | src/core/constants/enum.ts:19-31 | one `{title, id}` per numeric key, in order, with `title = getById(id)` |
| Enums.GetByNameOfGetById | src/core/constants/enum.ts:6-17 | in a table with distinct names, `getByName(getById(k)) = k` for every registered `k` |
| Enums.GetByIdOfGetByName | src/core/constants/enum.ts:6-17 | a name found by `getByName` is, ignoring case, the registered name of the id found |
| Constants.UserStatusTable | src/core/constants/Constants.ts:37-44 | ACTIVE = 1, DISABLED = 2, BANNED = 3, named Active, Disabled, Banned; no other id has a name |
| Constants.UserStatusWellFormed | src/core/constants/Constants.ts:37-44 | the user-status names are distinct ignoring case, sorted by id, and agree with the forward keys |
| Constants.GroupStatusTable | src/core/constants/Constants.ts:46-53 | ACTIVE = 1, ARCHIVED = 2, DELETED = 3, named Active, Archived, Deleted |
| Constants.GroupStatusWellFormed | src/core/constants/Constants.ts:46-53 | the group-status names are distinct ignoring case, sorted by id, and agree with the forward keys |
| Constants.LoginTypeTable | src/core/constants/Constants.ts:3-8 | GOOGLE = 1, CUSTOM = 2, in both directions |
| Constants.LoginTypeWellFormed | src/core/constants/Constants.ts:3-8 | the login-type names are distinct ignoring case and sorted by id |
| Constants.MonthTable | src/core/constants/Constants.ts:10-35 | exactly the ids 1..12 have month names, 1 being January and 12 December |
| Constants.MonthWellFormed | src/core/constants/Constants.ts:10-35 | the month names are distinct ignoring case, sorted by id, and agree with the forward keys |
| JsText.Utf16Length | src/api/controllers/auth.controller.ts:370 | `length` counts at least one and at most two code units per character |
| JsText.Utf16LengthAppend | src/api/controllers/auth.controller.ts:477 | the `length` of a concatenation is the sum of the lengths |
| JsText.Utf16LengthIsCount | src/api/controllers/auth.controller.ts:547 | `length` equals the character count iff no character lies beyond U+FFFF |
| JsText.AstralPasswordLength | src/database/models/User.model.ts:32-35 | three emoji are three characters but six code units, so they meet the six-unit minimum |
| JsText.TrimEmptyIffAllWhite | src/api/controllers/auth.controller.ts:471 | `password.trim()` is empty iff every character is white space |
| JsText.LowerOfUpper | src/api/middlewares/checkUserStatus.middleware.ts:20-22 | lower-casing an upper-cased name gives the lower-cased name |

## Left out

- I/O is not modelled: the network, the SMTP mailer, the template file read, the
  logger, and the ipapi lookup in `createUserSession` (its failure is a boolean).
- Rate limiting (`authLimiter`), `UrlSession`, the `/login` redirect capture and
  the redirect building in `GoogleAuthCallback`/`FacebookAuthCallback` are
  framework wiring.
- The Facebook strategy and its routes are not part of this model.
- Session-id regeneration on `logIn` and the express-session cookie are not
  modelled; the request's session id is a parameter.
- Bcrypt salt and cost are not modelled; the hash is an uninterpreted function.
- `crypto.randomBytes` is not modelled; the fresh token is a parameter, and its
  uniqueness is a precondition where a lemma needs it.
- Concurrency is not modelled; every flow is one atomic transition, so the
  read-modify-write races on `failedLoginAttempts` are not represented.
- Signup uniqueness uses `new RegExp("^" + email + "$", "i")` built from the
  unescaped address. The model reads it as equality ignoring ASCII case, so a
  `.` in the new address does not act as a wildcard here.
- A missing `token` or a non-string `newPassword` in the reset body is not
  modelled; the token is a string and the password an optional string.
- A Google profile without an e-mail matches no account by e-mail in the
  model. What Mongoose does with `findOne({email: undefined})` is not modelled.
- Case mapping is ASCII only: `toLowerCase`/`toUpperCase` of letters outside
  A-Z are not modelled. (`trim` is complete: it removes exactly the ECMAScript
  WhiteSpace and LineTerminator characters.)
- `String(value)` in the renderer is modelled for strings, integers, booleans,
  `null` and `undefined`; floating-point numbers are left out.
- MsConverter.MillisecondsIn: the amount is an integer. JavaScript numbers
  such as `1.5`, `Infinity`, or products beyond 2^53 that round, are not
  modelled; every caller in the core passes an integer literal.
- A mail failure after a write is not modelled, since the mailer is I/O.
  In the source, signup writes the account and then awaits the welcome mail
  (auth.controller.ts lines 109 and 127); a rejected send is caught and the
  reply is "Couldn't signup", but the account stays. The Google strategy
  creates the account and then sends the mail (auth-strategies.ts lines
  61-77), so a rejected send ends in `done(error)` with the account kept. The
  model treats the mail as always sent: signup answers `Ok` and the Google
  strategy `Accept` once the account is written.
- Schema `timestamps`, `isDeleted`, `facebookId` writes and
  `emailNotificationsEnabled` are carried as data but no flow changes them.
- `ChangePassword`'s "Password not set" refusal is modelled. It cannot be
  reached after a successful comparison of the old password, because that
  comparison throws when no password is stored.
- AuthController.ForgotThenReset: requires that the new plaintext differ from the stored digest, since the save hook
  leaves an unchanged value unhashed.
- AuthController.ChangeReplacesPassword: requires that the new plaintext differ from the stored digest, for the same
  reason.
- AuthController.ForgotHidesExistence: compares an unknown address with one
  that receives a token. Locked, non-ACTIVE and password-less accounts get
  distinguishable replies, as in the source.

## Findings

| source | as written | input that shows it | evidently intended | confidence | as-written member | corrected member |
|---|---|---|---|---|---|---|
| src/api/middlewares/checkAccountLock.middleware.ts:9-21 | on `/login`, when the request already carries a logged-in user, the lock guard judges that user and ignores the account named in the body | session `s` logged in to unlocked account `a`; `POST /login` from `s` with the e-mail and password of `b`, locked until 1000, at time 10: the login succeeds and clears `b`'s lock | a locked account is refused whatever session the request comes from | medium, not executed | AuthRouter.LoginRouteAsWritten, AuthRouter.BypassExample | AuthRouter.LoginRoute, AuthRouter.LockedAccountNeverLogsIn |
