# Salon authentication and session engine, in Dafny

This project models how the salon application signs people in and keeps them signed in.

On the server (Node/Express over MongoDB):
- **Account record.** It carries a lock-out policy: three failed passwords lock the account for fifteen minutes. Its public projection (`toJSON`) drops the password digest, the one-time codes and the counters.
- **Token revocation table.** Logged-out session tokens are stored here. Lapsed entries are evicted lazily on lookup and in bulk by a sweep.
- **Request gate.** It refuses a request that has no bearer token, or whose token is revoked, badly signed or expired, or whose account is missing or inactive. A role check follows.
- **Sign-in.** Password with lock-out, then a six-digit code mailed for ten minutes, then a 24-hour session token. Google sign-in and logout are part of this flow.
- **Sign-up.** An inactive account with a ten-minute verification code, activation by that code, and code re-sending.
- **Password recovery.** It is rate-limited and never reveals whether an address has an account.

In the browser (React):
- the client session, restored from storage and ended fifteen minutes after its token was issued;
- the route guard;
- the page frame's area/role gate;
- the two-step sign-in form with its landing page per role;
- the sign-up form's field checks.

Modelling conventions:
- **Time.** `now` is an integer in milliseconds. JWT time claims are whole seconds, rounded down, as the token library reads the clock.
- **Randomness.** Each six-digit code is a `SixDigit` parameter in [100000, 999999].
- **External libraries are parameters:**
  - bcrypt (`hash`, `compare`);
  - JWT signing (`sign`) and signature checking (`check`);
  - mail delivery (`mailOk`);
  - the configuration (`Env`: Gmail credentials present, production mode, JWT secret present).
- **Store.** MongoDB is the `Store` class over `map<UserId, Usuario>`. Its invariant is that addresses are unique and every record passes the schema validators. `findOne` by address is the function `ByEmail`.
- **Routes.** Each route is a map-level function returning `Outcome(reply, accounts)`. A method over the `Store` is proved equal to that function. The properties are proved as lemmas about the functions.

Where the code and its comments or messages disagree, the model follows the code:
- A sign-in code with no stored expiry is accepted, and so is a sign-up code with no stored expiry. Recovery refuses a missing expiry.
- The failed password that engages the lock is answered 400. Only later attempts get 423.
- A failure at exactly `lockUntil == now` neither resets the count nor locks again, so the count passes three.
- A wrong password for an account with attempts left is answered "n attempts left". That wording differs from the one for an unknown address.
- The verify-mfa reply carries the secret question and the hashed answer.

## Model

| member | source | states |
|---|---|---|
| UsuarioModel.ParseTipo | backend/models/Usuario.js:49-54 | A role name is read only when it is one of the four enumerated roles, and each role reads back from its own name |
| UsuarioModel.WithDefaults | backend/models/Usuario.js:4-92 | A new record takes the schema defaults: role Cliente, state Inactivo, mail second factor, no codes, zero failures and no lock |
| UsuarioModel.ValidityKept | backend/models/Usuario.js:4-92 | Changing codes, counters, role or state keeps a valid record valid. So does storing a 60-character bcrypt digest as the password |
| UsuarioModel.FailedAttempt | backend/models/Usuario.js:106-123 | A failed password changes only the two counters. The count ends at least one. A lock in force is kept. Any lock afterwards is the old one or now + 15 min |
| UsuarioModel.LapsedLockRestartsCount | backend/models/Usuario.js:107-112 | A lock strictly in the past is dropped and the count restarts at one, nothing else changing |
| UsuarioModel.FailureCounts | backend/models/Usuario.js:115 | Otherwise the count grows by exactly one |
| UsuarioModel.ThirdFailureLocks | backend/models/Usuario.js:118-120 | The failure that brings an unlocked account to three sets the lock to now + 15 min. A recorded lock is never extended |
| UsuarioModel.Cleared | backend/models/Usuario.js:126-130 | `resetLoginAttempts` zeroes the count, removes the lock and leaves the account unlocked at every instant |
| UsuarioModel.ClearedIdempotent | backend/models/Usuario.js:126-130 | Resetting twice is the same as resetting once |
| UsuarioModel.FailuresAccumulate | backend/models/Usuario.js:106-123 | From an unlocked record, consecutive failures add up one by one. The lock appears exactly at the failure that makes three, fifteen minutes after it |
| UsuarioModel.ThreeFailuresLock | backend/models/Usuario.js:101-123 | Three failures on a clean record keep it locked until fifteen minutes after the third |
| UsuarioModel.FailureAtLockEndOvercounts | backend/models/Usuario.js:108-120 | A failure at the very instant the lock ends makes the count four, with the account unlocked |
| UsuarioModel.ToJSONKeepsExactlyPublicFields | backend/models/Usuario.js:133-143 | Two records project alike exactly when they agree on the public fields. The password, codes, expiries and counters never show |
| UsuarioStore.ByEmail | backend/models/Usuario.js:28-35 | An address lookup finds a record holding the address, or none exists |
| UsuarioStore.SavePreservesIndex | backend/models/Usuario.js:4-92 | Saving a valid record that keeps its address keeps addresses unique and all records valid |
| UsuarioStore.InsertPreservesIndex | backend/models/Usuario.js:28-32 | Inserting a valid record under an unused identifier, when no record holds its address, keeps addresses unique and all records valid |
| UsuarioStore.Store.FindByEmail | backend/routes/Login.js:50 | The store lookup answers `ByEmail` |
| UsuarioStore.Store.FindByVerificationCode | backend/routes/RegistroUsuarios.js:216 | Finds a record holding the code, or answers none only when no record holds it |
| UsuarioStore.Store.Create | backend/routes/RegistroUsuarios.js:133-149 | An insert succeeds exactly when the record is valid and its address is free. It then adds only that record under a fresh identifier and keeps the invariant |
| UsuarioStore.Store.Save | backend/routes/Login.js:107-118 | Replaces one record and keeps the invariant |
| UsuarioStore.Store.IncLoginAttempts | backend/models/Usuario.js:106-123 | The stored record becomes `FailedAttempt` of the old one, step by step as in the source |
| UsuarioStore.Store.ResetLoginAttempts | backend/models/Usuario.js:126-130 | The stored record becomes `Cleared` of the old one |
| TokenBlacklist.AfterLookup | backend/utils/tokenBlacklist.js:28-41 | A lookup deletes only the looked-up token, and only when its entry has strictly lapsed |
| TokenBlacklist.Swept | backend/utils/tokenBlacklist.js:46-62 | The sweep keeps exactly the entries not yet lapsed, unchanged |
| TokenBlacklist.EvictionKeepsAnswers | backend/utils/tokenBlacklist.js:35-40 | Neither lazy eviction nor the sweep changes any revocation answer at the same instant |
| TokenBlacklist.EvictionKeepsLaterAnswers | backend/utils/tokenBlacklist.js:46-62 | A sweep changes no answer at any later instant either |
| TokenBlacklist.Blacklist.AddToBlacklist | backend/utils/tokenBlacklist.js:11-21 | The entry becomes now + duration (24 h by default), overwriting an old one. Other entries are untouched. The token is revoked exactly when non-empty with a non-negative duration |
| TokenBlacklist.Blacklist.IsBlacklisted | backend/utils/tokenBlacklist.js:28-41 | Answers whether the token is non-empty with an unlapsed entry. The table becomes `AfterLookup` |
| TokenBlacklist.Blacklist.CleanExpiredTokens | backend/utils/tokenBlacklist.js:46-62 | The table becomes `Swept`. The count returned plus what remains equals what there was |
| Jwt.Seconds | backend/routes/Login.js:286-297 | The token clock is the millisecond clock rounded down to whole seconds |
| Jwt.Issue | backend/routes/Login.js:286-297 | A session token carries id, address and role, issued at the current second and expiring 86400 s later |
| Jwt.Verify | backend/routes/auth.js:22 | Verification succeeds exactly with a secret, a good signature and an unexpired token, and yields the signed claims |
| Jwt.IssuedTokenLifetime | backend/routes/Login.js:286-297 | A new token stays current exactly until its expiry second begins, between 24 h − 1 s and 24 h after issue |
| AuthMiddleware.Split | backend/routes/auth.js:8 | `split(' ')` yields at least one block, none holding a space, and joining the blocks gives back the header |
| AuthMiddleware.BearerToken | backend/routes/auth.js:8-13 | The token taken from a header is non-empty and space-free. A missing or empty header gives none |
| AuthMiddleware.BearerTokenOf | backend/routes/auth.js:8-13 | `Bearer <t>` gives `t`, with or without trailing fields. A bare scheme gives none |
| AuthMiddleware.GateStatus | backend/routes/auth.js:11-37 | A signature or expiry failure is 403. A missing or revoked token or an invalid user is 401 |
| AuthMiddleware.GateDecision | backend/routes/auth.js:8-37 | Admitted exactly when a token exists, is not revoked, verifies and names an active account. The refusals come in that order, each pinned to its condition: no token 401, revoked 401, failed verification 403, missing or inactive account 401 |
| AuthMiddleware.GateSoundness | backend/routes/auth.js:17-33 | A revoked token is refused whatever its signature. An admitted request has a secret, a good signature, an unexpired token and an active account |
| AuthMiddleware.CurrentTokenAdmitted | backend/routes/auth.js:7-33 | `Bearer <t>`, for a token that verifies, has not expired and is not revoked, and that names an active account, is admitted as that account |
| AuthMiddleware.AuthenticateToken | backend/routes/auth.js:6-38 | The middleware answers `Gate`. The table changes only by the lookup's eviction of the presented token |
| AuthMiddleware.AuthorizeRoles | backend/routes/auth.js:42-61 | No user gives 401. A role outside the list gives 403. Otherwise the request proceeds |
| LoginRoutes.FailureMessage | backend/routes/Login.js:85-101 | The refusal reports the lock when one is in force, in minutes rounded up, otherwise the attempts left (1 to 3, adding up to three with the count), otherwise the plain wording |
| LoginRoutes.LockedReply | backend/routes/Login.js:65-72 | A lock in force answers 423 with the lock's end, and the time left rounded up to whole minutes and to whole seconds |
| LoginRoutes.CodeSentReply | backend/routes/Login.js:158-180 | The answer is 200 exactly when the mail went out or the server is not in production. The code appears in the answer only outside production after a mail failure |
| LoginRoutes.WithMfaCode | backend/routes/Login.js:107-118 | A correct password resets the counters and stores a six-digit code expiring ten minutes later |
| LoginRoutes.CredentialsOutcome | backend/routes/Login.js:33-188 | See below for the full list of guarantees |
| LoginRoutes.LockedRefusesAnyPassword | backend/routes/Login.js:65-73 | A locked account gets 423 for any password and nothing is recorded |
| LoginRoutes.InactiveRefusedBeforePassword | backend/routes/Login.js:76-79 | An unverified account is refused before the password is looked at, with no failure counted |
| LoginRoutes.WrongPasswordCounted | backend/routes/Login.js:82-102 | A wrong password is 400 and counted. The wording equals the unknown-address one exactly when no attempt is left and no lock is in force |
| LoginRoutes.LockingFailureIs400 | backend/routes/Login.js:94-101 | The failure that locks is answered 400 with the fifteen-minute wording. The next attempt within the window gets 423 |
| LoginRoutes.CorrectPasswordIssuesCode | backend/routes/Login.js:104-183 | A correct password stores a new code whether or not mail goes out. It answers 200 unless the mail failed in production. The code is in the reply only outside production |
| LoginRoutes.SessionUserOf | backend/routes/Login.js:302-319 | The session payload carries the account's id, address and role |
| LoginRoutes.VerifyMfaOutcome | backend/routes/Login.js:191-349 | A session is issued exactly when id and code are given, the account exists, the code is accepted and the secret is set. Each refusal is pinned to its condition in the source's order: no id, no code, no account, no pending code, mismatch (before expiry), expired, then 500 for a missing secret. Success clears the code and signs the claims. Every refusal changes nothing |
| LoginRoutes.MfaCodeSingleUse | backend/routes/Login.js:279-281 | A used code is refused when submitted again |
| LoginRoutes.IssuedCodeWindow | backend/routes/Login.js:215-268 | The issued code, padded with white space or not, is accepted up to and including ten minutes after issue, and refused as expired afterwards |
| LoginRoutes.MfaIgnoresLock | backend/routes/Login.js:218-268 | The code step answers the same whatever the lock and failure count |
| LoginRoutes.GoogleRecord | backend/routes/Login.js:369-381 | The record built for an unknown Google address is an active client with empty `ApellidoM` and `Telefono` |
| LoginRoutes.GoogleRecordNeverValid | backend/routes/Login.js:369-381 | The schema refuses every such record |
| LoginRoutes.GoogleOutcome | backend/routes/Login.js:352-421 | A session needs a verified identity and a secret. A known address changes nothing. Any change is the insert of the Google record |
| LoginRoutes.GoogleNewAccountRefused | backend/routes/Login.js:367-385 | As written, an unknown Google address never signs in and nothing is stored (Findings) |
| LoginRoutes.GoogleIgnoresLockAndState | backend/routes/Login.js:367-395 | A known address signs in through Google whatever its lock and state |
| LoginRoutes.GoogleOutcomeIntended | backend/routes/Login.js:352-421 | Corrected route: a session exactly when the identity verifies and the secret is set. Otherwise the same as written |
| LoginRoutes.GoogleIntendedAdmitsNewUser | backend/routes/Login.js:367-416 | With the corrected route, a new Google user is an active client whose token the gate admits until expiry |
| LoginRoutes.RevocationTtl | backend/routes/Login.js:475 | A logged-out token stays revoked until its own expiry (never negative), or 24 h without one |
| LoginRoutes.Logout | backend/routes/Login.js:456-489 | A refused gate gives its error. An admitted token is entered in the table until its expiry, and only that entry changes |
| LoginRoutes.LogoutIsFinal | backend/routes/Login.js:468-484 | After logout the gate never admits that token again, at any later instant, sweep or not |
| LoginRoutes.Login | backend/routes/Login.js:33-188 | The route over the store answers and changes as `CredentialsOutcome` for the record found by address |
| LoginRoutes.VerifyMfa | backend/routes/Login.js:191-349 | The route over the store answers and changes as `VerifyMfaOutcome` |
| LoginRoutes.ConsumeMfaCode | backend/routes/Login.js:279-297 | An accepted code is cleared from the stored account and a session token is signed for it, nothing else changing |
| LoginRoutes.GoogleAuth | backend/routes/Login.js:352-421 | The route over the store answers and changes as `GoogleOutcome` |
| RegistroRoutes.RegistrationShapeMeetsSchema | backend/routes/RegistroUsuarios.js:95-99 | Every address the route accepts also passes the schema's pattern |
| RegistroRoutes.RequestedTipo | backend/routes/RegistroUsuarios.js:112-116 | A sign-up is Propietario exactly when it asks for it. Otherwise it is Cliente |
| RegistroRoutes.StoredAnswer | backend/routes/RegistroUsuarios.js:119-126 | The secret answer is stored as the digest of its trimmed text, or empty when blank |
| RegistroRoutes.NewAccount | backend/routes/RegistroUsuarios.js:129-147 | A new account is inactive, with the requested role, a hashed password and a code expiring ten minutes later. Name, surnames and phone are stored trimmed, as the schema's `trim: true` setters leave them |
| RegistroRoutes.SignUpIgnoresPadding | backend/models/Usuario.js:8-26 | White space around the name, surnames and phone changes nothing about a sign-up's reply or stored record |
| RegistroRoutes.PaddedShortNameRefused | backend/models/Usuario.js:5-11 | A name under four characters is refused however much white space pads it, and nothing is stored |
| RegistroRoutes.RegisterOutcome | backend/routes/RegistroUsuarios.js:89-200 | The account is stored exactly when the address is well formed and free and the record, with its trimmed fields, passes the schema. Nothing else changes. Each refusal is pinned: a malformed address gets `InvalidEmail` (400) before any lookup, then a taken address `EmailTaken` (400), then a failed validation `SaveFailed` (500). The code is in the reply only outside production. A stored sign-up answers `Registered` exactly when mail is configured and went out |
| RegistroRoutes.SignUpPrivileges | backend/routes/RegistroUsuarios.js:112-147 | Sign-up never grants administrator or courier, never stores an active account, and stores password and answer only as digests |
| RegistroRoutes.MailFailureKeepsAccount | backend/routes/RegistroUsuarios.js:149-185 | A production mail failure answers 500 yet keeps the account, so a retry is refused as already registered |
| RegistroRoutes.Activated | backend/routes/RegistroUsuarios.js:240-243 | Verification activates the account and clears code and expiry, nothing else |
| RegistroRoutes.VerifyEmailOutcome | backend/routes/RegistroUsuarios.js:203-256 | Activation happens exactly for a six-character trimmed code that is found and unexpired (or has no expiry). A malformed or unknown code is refused as invalid, and a found code past its expiry as expired. Every refusal changes nothing |
| RegistroRoutes.SignUpCodeWindow | backend/routes/RegistroUsuarios.js:212-243 | The stored code activates up to and including ten minutes later, is refused as expired afterwards, and never activates again once used |
| RegistroRoutes.MalformedCodeRefused | backend/routes/RegistroUsuarios.js:212-214 | A code not trimming to six characters is refused whatever the table |
| RegistroRoutes.WithNewCode | backend/routes/RegistroUsuarios.js:293-298 | Resending stores a new code expiring ten minutes later |
| RegistroRoutes.ResendOutcome | backend/routes/RegistroUsuarios.js:259-330 | The code is replaced exactly for a given, known, inactive address with mail configured. Each reply is pinned to its condition, in order: no address 400, unknown address 400, already active 400, mail settings missing 500; then sent (200), echoed outside production (200) or 500 |
| RegistroRoutes.ResendReplacesCode | backend/routes/RegistroUsuarios.js:293-298 | After a resend the previous code no longer activates the account |
| RegistroRoutes.Register | backend/routes/RegistroUsuarios.js:89-200 | The route over the store answers and changes as `RegisterOutcome` |
| RegistroRoutes.VerifyEmail | backend/routes/RegistroUsuarios.js:203-256 | The route over the store answers and changes as `VerifyEmailOutcome` for what the lookup found |
| RegistroRoutes.ResendCode | backend/routes/RegistroUsuarios.js:259-330 | The route over the store answers and changes as `ResendOutcome` |
| RecoveryRoutes.Counted | backend/routes/recovery.js:15-33 | Every request is counted. A missing or ended window is replaced by a new fifteen-minute one |
| RecoveryRoutes.WindowAllowance | backend/routes/recovery.js:15-33 | Within an open window, requests are let through until the count reaches three and none after |
| RecoveryRoutes.AtMostThreePerWindow | backend/routes/recovery.js:15-33 | In a window opened by a request, exactly the first three requests get through |
| RecoveryRoutes.RateLimiter.Hit | backend/routes/recovery.js:15-33 | The client's window becomes `Counted`. The request passes exactly when its count is at most three |
| RecoveryRoutes.WithResetCode | backend/routes/recovery.js:64-69 | The reset code is stored in the sign-in code slot, expiring ten minutes later, with the counters untouched |
| RecoveryRoutes.RequestOutcome | backend/routes/recovery.js:25-120 | 429 exactly when the limiter refuses, with retryAfter 900. An allowed, configured request for a known address stores the reset code on that account. Every other request changes nothing |
| RecoveryRoutes.RequestDoesNotEnumerate | backend/routes/recovery.js:51-61 | The answer is the same whether or not the address has an account |
| RecoveryRoutes.VerifyCodeReply | backend/routes/recovery.js:132-170 | Valid exactly for given fields, a known address and a matching unexpired code with an expiry. Every other case is one identical error |
| RecoveryRoutes.WithNewPassword | backend/routes/recovery.js:209-215 | The reset stores the new digest and clears the code, keeping the lock counters |
| RecoveryRoutes.ResetOutcome | backend/routes/recovery.js:173-224 | The password changes exactly under the same conditions (and a new password). Success stores `hash(newPassword)` and clears the code. Failure changes nothing. It answers `DataRequired` for a missing field, and otherwise the one `InvalidOrExpired` error, whether the address is unknown or the code wrong or expired |
| RecoveryRoutes.ResetCodeWindow | backend/routes/recovery.js:149-215 | The reset code passes both checks up to and including ten minutes later. A successful reset consumes it |
| RecoveryRoutes.RequestReset | backend/routes/recovery.js:15-129 | The route over limiter and store answers and changes as `RequestOutcome` |
| RecoveryRoutes.VerifyCode | backend/routes/recovery.js:132-170 | The route answers `VerifyCodeReply` and changes nothing |
| RecoveryRoutes.ResetPassword | backend/routes/recovery.js:173-224 | The route over the store answers and changes as `ResetOutcome` |
| AuthContext.UserTypeOf | frontend/src/Componentes/Autenticacion/AuthContext.js:160-163 | No user gives no role. Otherwise `TipoUsuario` when non-empty, else `tipo` |
| AuthContext.SessionCheck | frontend/src/Componentes/Autenticacion/AuthContext.js:42-85 | No token: nothing. An undecodable token or 15 min elapsed since `iat` (missing counts as 0): sign out now. Otherwise sign-out is scheduled for the instant 15 min have elapsed |
| AuthContext.SessionDeadlineFixed | frontend/src/Componentes/Autenticacion/AuthContext.js:48-72 | Whenever the effect runs, the session ends at the same instant |
| AuthContext.Session.Restore | frontend/src/Componentes/Autenticacion/AuthContext.js:13-39 | The stored session is taken over only when both user and token are stored. Loading ends either way |
| AuthContext.Session.Login | frontend/src/Componentes/Autenticacion/AuthContext.js:87-127 | User and token are held in memory and in storage |
| AuthContext.Session.Logout | frontend/src/Componentes/Autenticacion/AuthContext.js:129-157 | The held or else the stored token is sent for revocation. Memory and storage always end empty |
| AuthContext.Session.CheckSession | frontend/src/Componentes/Autenticacion/AuthContext.js:42-85 | The effect acts as `SessionCheck` and signs out when it says so |
| ProtectedRoute.Guard | frontend/src/Componentes/Autenticacion/ProtectedRoute.jsx:9-30 | Signed out: redirect to login with `from`. Otherwise children exactly when no roles are listed or the role is listed, else redirect marked unauthorized |
| ProtectedRoute.GuardWithoutRoles | frontend/src/Componentes/Autenticacion/ProtectedRoute.jsx:19-29 | A missing and an empty role list behave alike and admit exactly the signed-in. A role list only narrows |
| LayoutGate.AreaRoles | src/Componentes/Layout/LayoutEncabezado.jsx:28-43 | `/admin` admits Administrador, `/cliente` Cliente and Propietario, `/repartidor` and `/recepcion` Repartidor. Every other path is public |
| LayoutGate.Layout | src/Componentes/Layout/LayoutEncabezado.jsx:13-43 | Nothing is decided while loading. An area path sends anyone without an admitted role home. Public paths get the public frame |
| LayoutGate.PublicPathsIgnoreUser | src/Componentes/Layout/LayoutEncabezado.jsx:40-43 | A public path is framed the same signed in or not |
| LoginForm.LandingPath | frontend/src/Componentes/Autenticacion/Login.jsx:278-303 | Administrador lands on `/admin`, Repartidor on `/recepcion`, every other role (or none) on `/cliente` |
| LoginForm.Form.Change | frontend/src/Componentes/Autenticacion/Login.jsx:74-85 | Typing sets one field. Address and code are kept trimmed |
| LoginForm.Form.SubmitCredentials | frontend/src/Componentes/Autenticacion/Login.jsx:88-145 | Sent only with address and password. A reply naming the account moves to step two with its id |
| LoginForm.Form.SubmitMfa | frontend/src/Componentes/Autenticacion/Login.jsx:204-387 | Sent only with a six-character code. A reply with token and user signs the session in and redirects to `LandingPath` of the role (`TipoUsuario`, else `tipo`) |
| LoginForm.Form.GoBack | frontend/src/Componentes/Autenticacion/Login.jsx:389-394 | Back to step one with every field emptied |
| RegistroForm.CheckPassword | src/Componentes/Autenticacion/Registro.jsx:118-140 | The verdict is the common-sequence error exactly when a pattern occurs in the lower-cased password. Otherwise it is too-short below eight characters, else no error |
| RegistroForm.Registro.ValidateField | src/Componentes/Autenticacion/Registro.jsx:52-116 | The field's error is present exactly when it fails its check. Every other entry is unchanged |
| RegistroForm.Registro.HandleChange | src/Componentes/Autenticacion/Registro.jsx:35-50 | Validates the field. A password change also records the password verdict |
| RegistroForm.Registro.constructor | src/Componentes/Autenticacion/Registro.jsx:18-19 | A fresh form records no errors, so the submit gate (171-181) is open until a field is checked |
| RegistroForm.SixteenCharPasswordAccepted | src/Componentes/Autenticacion/Registro.jsx:74-76 | As written, a 16-character password passes both checks although the message announces at most 15 (Findings) |
| RegistroForm.IntendedPasswordBounds | src/Componentes/Autenticacion/Registro.jsx:74-76 | With the announced pattern, the checks accept exactly what the written ones accept up to fifteen characters: 8 to 15 allowed characters and no common sequence. The sixteen-character counterexample is refused |
| Scenarios.PasswordSignInReachesGate | backend/routes/Login.js:33-349 | A correct password, then the mailed code within ten minutes, gives a session. The gate admits its token as that account, with counters and code cleared |
| Scenarios.SignedTokenAdmitted | backend/routes/auth.js:8-33 | A freshly signed, unrevoked token for an active account, sent as `Bearer <token>`, passes the gate as that account |
| Scenarios.ThreeWrongPasswordsThenLocked | backend/routes/Login.js:65-101 | Three wrong passwords report 2 and 1 attempts left, then the lock with 400. Any attempt in the next fifteen minutes gets 423 |
| Scenarios.SignUpNeedsVerification | backend/routes/Login.js:76-79 | A fresh sign-up is refused as unverified for any password, with nothing recorded |
| Scenarios.ResetKeepsLock | backend/routes/recovery.js:209-215 | A password reset does not lift a lock: the new password still meets 423 |
| Scenarios.ResetCodeSharesSignInSlot | backend/routes/recovery.js:64-69 | The reset code replaces any pending sign-in code and completes the sign-in code step within its ten minutes |
| Scenarios.ClientUserOf | backend/routes/Login.js:302-319 | The browser reads the account's role name from a session reply |
| Scenarios.ClientSessionEndsFirst | frontend/src/Componentes/Autenticacion/AuthContext.js:48-64 | The browser ends a session fifteen minutes after issue, while the server still accepts the token |
| Scenarios.AppRouteRoles | frontend/src/App.js:41-48 | As written, the `/cliente` route admits Cliente only |
| Scenarios.OwnerBouncedFromLanding | frontend/src/App.js:44 | As written, an owner lands on `/cliente`, is framed there, but is redirected to sign-in as unauthorized (Findings) |
| Scenarios.AppRouteRolesIntended | frontend/src/App.js:41-48 | Corrected: `/cliente` admits Cliente and Propietario, and the other routes are unchanged |
| Scenarios.EveryRoleReachesLanding | frontend/src/Componentes/Autenticacion/Login.jsx:278-303 | With the corrected route roles, every role lands on a page whose route and frame both admit it |
| Common.Trim | backend/routes/Login.js:215 | `trim()` removes exactly the leading and trailing ECMAScript white space, and leaves a string without white space at its ends unchanged |
| Common.CodeString | backend/routes/Login.js:30 | A code in [100000, 999999] prints as six decimal digits whose value is the code |
| Common.CodeStringInjective | backend/routes/RegistroUsuarios.js:20-21 | Distinct codes print differently |

`LoginRoutes.CredentialsOutcome` (backend/routes/Login.js:33-188) guarantees:
- 500 `ServerMisconfigured` exactly when the mail settings are missing, before any lookup;
- an unknown address gets 400 with the shared "wrong address or password" wording;
- only the found record can change;
- 423 exactly for a found, locked account, with `minutes` = ceil(left/60000) and `retryAfter` = ceil(left/1000) s for the time `left` until `lockUntil`;
- 200 only for an active, unlocked account with the right password;
- a code in the reply only outside production after a mail failure.

## Left out

- Mail delivery, Google token verification, bcrypt and JWT cryptography are parameters. Any salted hash is a deterministic `hash` function.
- The MongoDB connection, Express wiring, CORS and helmet are left out. Database errors and the `catch` branches that answer 500 for them are not modelled. This includes a malformed `userId` that fails the ObjectId cast.
- The recovery request's catch-all reply outside production (a fixed `123456` code, backend/routes/recovery.js:121-128) is left out. It is reached only through a database or save error.
- Mongoose's `lowercase`/`trim` setters on `Correo` are left out. Addresses are compared exactly as stored and submitted. The `trim` setters on `Nombre`, `ApellidoP`, `ApellidoM` and `Telefono` are modelled.
- `createdAt`/`updatedAt`-style timestamps and the logging are left out.
- Request fields that are absent or not strings (e.g. a numeric `mfaCode`, an undefined `correo` in a lookup) are modelled as the empty string or `None` where the route tests them, and otherwise as strings.
- Each request reads the clock once (`now`). The source reads `Date.now()` several times within one request.
- `setTimeout` eviction of each revoked token and the scheduled browser sign-out are left out. Lookups, the sweep and `SessionCheck` decide by an explicit clock.
- RecoveryRoutes.RateLimiter: express-rate-limit's store internals are left out. The model keeps a per-client fixed window that opens with the first request, and refused requests are counted too.
- The half-second delay before the unknown-address reply in recovery is left out, because timing is not modelled.
- Test-mail routes and `backend/test-brevo.js` are left out.
- React rendering, alerts, DOMPurify sanitising (treated as identity on text without markup), the zxcvbn strength meter and the HIBP breach check (src/Componentes/Autenticacion/Registro.jsx:146-159, 183-190) are left out.
- The browser's Google sign-in handler is left out. It always navigates to `/cliente`.
- String lengths are counted in Unicode code points. JavaScript counts UTF-16 units; the two differ only outside the Basic Multilingual Plane.
- `toLowerCase` is modelled on ASCII letters only.
- Concurrent requests updating the same record are left out.
- A stored user that fails `JSON.parse` on restore is left out.

## Findings

| source | as written | input that shows it | evidently intended | confidence | as-written member | corrected member |
|---|---|---|---|---|---|---|
| backend/routes/Login.js:367-385 | An unknown Google address is inserted with `ApellidoM: ''` and `Telefono: ''`, which the schema's `required` validators refuse. The save throws and the route answers 500 | any verified Google identity whose address has no account | create an active client account and sign it in | high (not executed) | LoginRoutes.GoogleNewAccountRefused | LoginRoutes.GoogleIntendedAdmitsNewUser |
| frontend/src/App.js:44 | `/cliente` is guarded by `allowedRoles={['Cliente']}`, while the landing switch sends Propietario there and the page frame admits Propietario | an owner (Propietario) completing sign-in | `['Cliente', 'Propietario']`, so that every role reaches its landing page | medium (not executed) | Scenarios.OwnerBouncedFromLanding | Scenarios.EveryRoleReachesLanding |
| src/Componentes/Autenticacion/Registro.jsx:74-76 | the password pattern allows 5 to 20 characters while its message announces 8 to 15 | the password `Zxcvbnm9Zxcvbnm9` (16 characters) | an upper bound of 15 characters, the lower one already being 8 by the password check | medium (not executed) | RegistroForm.SixteenCharPasswordAccepted | RegistroForm.IntendedPasswordBounds |
