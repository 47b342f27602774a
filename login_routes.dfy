/** The sign-in routes of backend/routes/Login.js: the credentials step that
    applies the lock-out policy and issues a one-time MFA code, the code step
    that consumes it and issues a session token, the Google sign-in, and the
    logout that revokes the presented token. Each route is a function from the
    table of accounts to its reply and the table it leaves, and a method over
    the store proved to behave as that function. */
module LoginRoutes {
  import opened Common
  import opened UsuarioModel
  import opened UsuarioStore
  import opened TokenBlacklist
  import opened Jwt
  import opened AuthMiddleware

  // ---------------------------------------------------------------------------
  // POST /  (credentials)
  // ---------------------------------------------------------------------------

  /** The three wordings of a refused password: the plain one, the one that
      counts the attempts left, and the one that reports the lock. */
  datatype FailMsg = WrongCredentials | AttemptsLeft(n: nat) | LockedFor(minutes: int)

  datatype LoginReply =
    | ServerMisconfigured
    | InvalidLogin(msg: FailMsg)
    | AccountLocked(minutes: int, lockUntil: int, retryAfter: int)
    | NotVerified
    | MfaSent(userId: UserId, email: string)
    | MfaDevCode(userId: UserId, email: string, devMfaCode: string)
    | MfaNotSent
  {
    function Status(): int
    {
      match this
      case ServerMisconfigured => 500
      case InvalidLogin(_) => 400
      case AccountLocked(_, _, _) => 423
      case NotVerified => 400
      case MfaSent(_, _) => 200
      case MfaDevCode(_, _, _) => 200
      case MfaNotSent => 500
    }
  }

  /** The message for a refused password, read from the record after the
      failure was counted. */
  function FailureMessage(v: Usuario, now: int): (m: FailMsg)
    ensures m.LockedFor? <==> IsLocked(v, now)
    ensures m.LockedFor? ==>
              && m.minutes >= 1 && m.minutes == CeilDiv(v.lockUntil.value - now, MINUTE_MS)
              && (m.minutes - 1) * MINUTE_MS < v.lockUntil.value - now <= m.minutes * MINUTE_MS
    ensures m.AttemptsLeft? ==> 1 <= m.n <= MAX_FAILED_ATTEMPTS && m.n + v.failedAttempts == MAX_FAILED_ATTEMPTS
    ensures m == WrongCredentials <==> !IsLocked(v, now) && v.failedAttempts >= MAX_FAILED_ATTEMPTS
  {
    var remaining := Max(0, MAX_FAILED_ATTEMPTS - v.failedAttempts);
    if IsLocked(v, now) then LockedFor(CeilDiv(v.lockUntil.value - now, MINUTE_MS))
    else if remaining > 0 then AttemptsLeft(remaining)
    else WrongCredentials
  }

  /** The record after a correct password: counters reset, a fresh code that
      expires ten minutes from now. */
  function WithMfaCode(u: Usuario, code: SixDigit, now: int): (v: Usuario)
    ensures SameValidatedFields(u, v) && v.Estado == u.Estado && v.TipoUsuario == u.TipoUsuario
    ensures v.failedAttempts == 0 && v.lockUntil.None?
    ensures v.MFACode.Some? && |v.MFACode.value| == 6 && AllDigits(v.MFACode.value)
    ensures v.MFAExpiry == Some(now + CODE_TTL_MS)
  {
    Cleared(u).(MFACode := Some(CodeString(code)), MFAExpiry := Some(now + CODE_TTL_MS))
  }

  /** The 423 reply for a lock in force until `lockUntil`: the time left,
      rounded up to whole minutes and to whole seconds. */
  function LockedReply(lockUntil: int, now: int): (r: LoginReply)
    requires lockUntil > now
    ensures r.AccountLocked? && r.lockUntil == lockUntil && r.minutes >= 1 && r.retryAfter >= 1
    ensures r.minutes == CeilDiv(lockUntil - now, MINUTE_MS)
    ensures (r.minutes - 1) * MINUTE_MS < lockUntil - now <= r.minutes * MINUTE_MS
    ensures r.retryAfter == CeilDiv(lockUntil - now, SECOND_MS)
    ensures (r.retryAfter - 1) * SECOND_MS < lockUntil - now <= r.retryAfter * SECOND_MS
  {
    var left := lockUntil - now;
    AccountLocked(CeilDiv(left, MINUTE_MS), lockUntil, CeilDiv(left, SECOND_MS))
  }

  /** Only record `id`, if any, differs between the two tables. */
  predicate OnlyChanged(before: map<UserId, Usuario>, after: map<UserId, Usuario>, id: Option<UserId>)
  {
    && after.Keys == before.Keys
    && forall i :: i in before && (id.None? || i != id.value) ==> after[i] == before[i]
  }

  /** POST / at time `now` for the account `found` by the submitted address,
      given the submitted password, the password check, the code drawn and
      whether the mail went out. */
  function CredentialsOutcome(accounts: map<UserId, Usuario>, found: Option<UserId>, password: string,
                              compare: (string, string) -> bool, now: int, env: Env,
                              code: SixDigit, mailOk: bool): (o: Outcome<LoginReply>)
    requires found.Some? ==> found.value in accounts
    ensures OnlyChanged(accounts, o.accounts, found)
    ensures o.reply.Status() == 423 <==> env.gmailConfigured && found.Some? && IsLocked(accounts[found.value], now)
    ensures o.reply.AccountLocked? ==>
              && found.Some? && o.reply.lockUntil == accounts[found.value].lockUntil.value > now
              && o.reply.minutes >= 1 && o.reply.retryAfter >= 1
              && o.reply.minutes == CeilDiv(o.reply.lockUntil - now, MINUTE_MS)
              && o.reply.retryAfter == CeilDiv(o.reply.lockUntil - now, SECOND_MS)
    ensures o.reply.Status() == 200 ==>
              found.Some? && accounts[found.value].Estado == Activo && !IsLocked(accounts[found.value], now)
              && compare(password, accounts[found.value].Password)
    ensures o.reply.MfaDevCode? ==> !env.production && !mailOk
    ensures o.accounts != accounts ==> found.Some? && env.gmailConfigured && accounts[found.value].Estado == Activo
    ensures o.reply == ServerMisconfigured <==> !env.gmailConfigured
    ensures env.gmailConfigured && found.None? ==> o.reply == InvalidLogin(WrongCredentials)
  {
    if !env.gmailConfigured then Outcome(ServerMisconfigured, accounts)
    else if found.None? then Outcome(InvalidLogin(WrongCredentials), accounts)
    else
      var id := found.value;
      var u := accounts[id];
      if IsLocked(u, now) then Outcome(LockedReply(u.lockUntil.value, now), accounts)
      else if u.Estado != Activo then Outcome(NotVerified, accounts)
      else if !compare(password, u.Password) then
        var v := FailedAttempt(u, now);
        Outcome(InvalidLogin(FailureMessage(v, now)), accounts[id := v])
      else
        Outcome(CodeSentReply(id, u.Correo, code, env, mailOk), accounts[id := WithMfaCode(u, code, now)])
  }

  /** The answer once the code is stored: sent by mail, shown in the answer
      outside production, or a 500 when neither is possible. */
  function CodeSentReply(id: UserId, correo: string, code: SixDigit, env: Env, mailOk: bool): (r: LoginReply)
    ensures r.Status() == 200 <==> mailOk || !env.production
    ensures r.MfaSent? <==> mailOk
    ensures r.MfaDevCode? ==> !env.production && !mailOk && r.devMfaCode == CodeString(code)
  {
    if mailOk then MfaSent(id, correo)
    else if !env.production then MfaDevCode(id, correo, CodeString(code))
    else MfaNotSent
  }

  /** A locked account is refused with 423 whatever password is given and
      whatever its state, and nothing is recorded. */
  lemma LockedRefusesAnyPassword(accounts: map<UserId, Usuario>, id: UserId, p1: string, p2: string,
                                 compare: (string, string) -> bool, now: int, env: Env,
                                 code: SixDigit, mailOk: bool)
    requires env.gmailConfigured && id in accounts && IsLocked(accounts[id], now)
    ensures var o := CredentialsOutcome(accounts, Some(id), p1, compare, now, env, code, mailOk);
            o.reply.AccountLocked? && o.accounts == accounts
            && o == CredentialsOutcome(accounts, Some(id), p2, compare, now, env, code, mailOk)
  {
  }

  /** An unlocked account that is not active is refused before its password is
      checked: same answer for any password, no failure counted. */
  lemma InactiveRefusedBeforePassword(accounts: map<UserId, Usuario>, id: UserId, p1: string, p2: string,
                                      compare: (string, string) -> bool, now: int, env: Env,
                                      code: SixDigit, mailOk: bool)
    requires env.gmailConfigured && id in accounts && !IsLocked(accounts[id], now)
    requires accounts[id].Estado == Inactivo
    ensures var o := CredentialsOutcome(accounts, Some(id), p1, compare, now, env, code, mailOk);
            o.reply == NotVerified && o.accounts == accounts
            && o == CredentialsOutcome(accounts, Some(id), p2, compare, now, env, code, mailOk)
  {
  }

  /** A wrong password for an active, unlocked account is answered 400 and
      counted, and its wording equals the one for an unknown address exactly
      when no attempt is left and no lock is in force afterwards. */
  lemma WrongPasswordCounted(accounts: map<UserId, Usuario>, id: UserId, password: string,
                             compare: (string, string) -> bool, now: int, env: Env,
                             code: SixDigit, mailOk: bool)
    requires env.gmailConfigured && id in accounts && !IsLocked(accounts[id], now)
    requires accounts[id].Estado == Activo && !compare(password, accounts[id].Password)
    ensures var o := CredentialsOutcome(accounts, Some(id), password, compare, now, env, code, mailOk);
            var v := FailedAttempt(accounts[id], now);
            && o.reply.Status() == 400
            && o.accounts == accounts[id := v]
            && (o.reply == CredentialsOutcome(accounts, None, password, compare, now, env, code, mailOk).reply
                <==> !IsLocked(v, now) && v.failedAttempts >= MAX_FAILED_ATTEMPTS)
  {
  }

  /** The failure that engages the lock is itself answered 400 with the
      fifteen-minute wording; only the next attempt within the window gets 423. */
  lemma LockingFailureIs400(accounts: map<UserId, Usuario>, id: UserId, password: string,
                            compare: (string, string) -> bool, now: int, later: int, env: Env,
                            code: SixDigit, mailOk: bool)
    requires env.gmailConfigured && id in accounts
    requires accounts[id].Estado == Activo && !compare(password, accounts[id].Password)
    requires accounts[id].failedAttempts == MAX_FAILED_ATTEMPTS - 1 && accounts[id].lockUntil.None?
    requires now <= later < now + LOCK_MS
    ensures var o := CredentialsOutcome(accounts, Some(id), password, compare, now, env, code, mailOk);
            && o.reply == InvalidLogin(LockedFor(15))
            && o.accounts[id].lockUntil == Some(now + LOCK_MS)
            && CredentialsOutcome(o.accounts, Some(id), password, compare, later, env, code, mailOk).reply.Status() == 423
  {
    assert CeilDiv(LOCK_MS, MINUTE_MS) == 15;
  }

  /** A correct password for an active, unlocked account resets the counters
      and stores a new code valid for ten minutes, whether or not the mail
      goes out; the code reaches the reply only outside production. */
  lemma CorrectPasswordIssuesCode(accounts: map<UserId, Usuario>, id: UserId, password: string,
                                  compare: (string, string) -> bool, now: int, env: Env,
                                  code: SixDigit, mailOk: bool)
    requires env.gmailConfigured && id in accounts && !IsLocked(accounts[id], now)
    requires accounts[id].Estado == Activo && compare(password, accounts[id].Password)
    ensures var o := CredentialsOutcome(accounts, Some(id), password, compare, now, env, code, mailOk);
            && o.accounts == accounts[id := WithMfaCode(accounts[id], code, now)]
            && (o.reply.Status() == 200 <==> mailOk || !env.production)
            && (o.reply.MfaDevCode? ==> o.reply.devMfaCode == CodeString(code))
  {
  }

  // ---------------------------------------------------------------------------
  // POST /verify-mfa
  // ---------------------------------------------------------------------------

  datatype MfaError = UserIdRequired | CodeRequired | UserNotFound | NoPendingCode
                    | CodeMismatch | CodeExpired | SecretMissing

  /** The account data a successful sign-in returns. The source sends the
      name, address and role twice under two spellings; each appears once
      here. The secret answer is the stored digest. */
  datatype SessionUser = SessionUser(
    id_usuarios: UserId,
    Nombre: string,
    ApellidoP: string,
    ApellidoM: string,
    Correo: string,
    Telefono: string,
    PreguntaSecreta: string,
    RespuestaSecreta: string,
    TipoUsuario: TipoUsuario)

  function SessionUserOf(id: UserId, u: Usuario): (s: SessionUser)
    ensures s.id_usuarios == id && s.Correo == u.Correo && s.TipoUsuario == u.TipoUsuario
  {
    SessionUser(id, u.Nombre, u.ApellidoP, u.ApellidoM, u.Correo, u.Telefono,
                u.PreguntaSecreta, u.RespuestaSecreta, u.TipoUsuario)
  }

  datatype MfaReply = MfaRefused(error: MfaError) | LoggedIn(token: string, user: SessionUser)
  {
    function Status(): int
    {
      match this
      case MfaRefused(e) => if e == SecretMissing then 500 else 400
      case LoggedIn(_, _) => 200
    }
  }

  /** The code is accepted: the stored code is truthy and equal to the
      submitted one once both are trimmed, and its expiry, when recorded, has
      not passed. A code without a recorded expiry never lapses. */
  predicate MfaCodeAccepted(u: Usuario, submitted: string, now: int)
  {
    && Truthy(u.MFACode)
    && Trim(u.MFACode.value) == Trim(submitted)
    && (u.MFAExpiry.None? || now <= u.MFAExpiry.value)
  }

  /** The checks of a submitted code against the account's pending one, in
      order: is a code pending, does it match, has it expired. */
  function CodeRefusal(u: Usuario, submitted: string, now: int): (e: Option<MfaError>)
    ensures e.None? <==> MfaCodeAccepted(u, submitted, now)
    ensures e == Some(NoPendingCode) <==> !Truthy(u.MFACode)
    ensures e == Some(CodeMismatch) <==> Truthy(u.MFACode) && Trim(u.MFACode.value) != Trim(submitted)
    ensures e == Some(CodeExpired) <==>
              && Truthy(u.MFACode) && Trim(u.MFACode.value) == Trim(submitted)
              && u.MFAExpiry.Some? && now > u.MFAExpiry.value
    ensures e.None? || e == Some(NoPendingCode) || e == Some(CodeMismatch) || e == Some(CodeExpired)
  {
    if !Truthy(u.MFACode) then Some(NoPendingCode)
    else if Trim(u.MFACode.value) != Trim(submitted) then Some(CodeMismatch)
    else if u.MFAExpiry.Some? && now > u.MFAExpiry.value then Some(CodeExpired)
    else None
  }

  /** The request names an identifier and a code, and an account has that
      identifier: the checks of the code itself come next. */
  predicate NamesAccount(accounts: map<UserId, Usuario>, userId: Option<UserId>, mfaCode: string)
  {
    userId.Some? && mfaCode != "" && userId.value in accounts
  }

  /** POST /verify-mfa at time `now`. Each refusal is answered for the first
      check that fails, in this order: identifier, code, account, pending
      code, match, expiry, then the signing secret. */
  function VerifyMfaOutcome(accounts: map<UserId, Usuario>, userId: Option<UserId>, mfaCode: string,
                            now: int, env: Env, sign: Claims -> string): (o: Outcome<MfaReply>)
    ensures o.reply.LoggedIn? <==>
              NamesAccount(accounts, userId, mfaCode) && MfaCodeAccepted(accounts[userId.value], mfaCode, now)
              && env.jwtSecretSet
    ensures o.reply == MfaRefused(UserIdRequired) <==> userId.None?
    ensures o.reply == MfaRefused(CodeRequired) <==> userId.Some? && mfaCode == ""
    ensures o.reply == MfaRefused(UserNotFound) <==> userId.Some? && mfaCode != "" && userId.value !in accounts
    ensures o.reply == MfaRefused(NoPendingCode) <==>
              NamesAccount(accounts, userId, mfaCode) && !Truthy(accounts[userId.value].MFACode)
    ensures o.reply == MfaRefused(CodeMismatch) <==>
              && NamesAccount(accounts, userId, mfaCode) && Truthy(accounts[userId.value].MFACode)
              && Trim(accounts[userId.value].MFACode.value) != Trim(mfaCode)
    ensures o.reply == MfaRefused(CodeExpired) <==>
              && NamesAccount(accounts, userId, mfaCode) && Truthy(accounts[userId.value].MFACode)
              && Trim(accounts[userId.value].MFACode.value) == Trim(mfaCode)
              && accounts[userId.value].MFAExpiry.Some? && now > accounts[userId.value].MFAExpiry.value
    ensures o.reply.Status() == 500 <==>
              NamesAccount(accounts, userId, mfaCode) && MfaCodeAccepted(accounts[userId.value], mfaCode, now)
              && !env.jwtSecretSet
    ensures o.reply.MfaRefused? ==> o.accounts == accounts
    ensures o.reply.LoggedIn? ==>
              var id := userId.value;
              var u := accounts[id];
              && o.accounts == accounts[id := u.(MFACode := None, MFAExpiry := None)]
              && o.reply.token == sign(Issue(id, u.Correo, u.TipoUsuario, now))
              && o.reply.user == SessionUserOf(id, u)
  {
    if userId.None? then Outcome(MfaRefused(UserIdRequired), accounts)
    else if mfaCode == "" then Outcome(MfaRefused(CodeRequired), accounts)
    else if userId.value !in accounts then Outcome(MfaRefused(UserNotFound), accounts)
    else
      var id := userId.value;
      var u := accounts[id];
      var refusal := CodeRefusal(u, mfaCode, now);
      if refusal.Some? then Outcome(MfaRefused(refusal.value), accounts)
      else if !env.jwtSecretSet then Outcome(MfaRefused(SecretMissing), accounts)
      else
        var v := u.(MFACode := None, MFAExpiry := None);
        Outcome(LoggedIn(sign(Issue(id, u.Correo, u.TipoUsuario, now)), SessionUserOf(id, v)), accounts[id := v])
  }

  /** A code is consumed by its use: submitting it again is refused as having
      no pending code. */
  lemma MfaCodeSingleUse(accounts: map<UserId, Usuario>, id: UserId, mfaCode: string, now: int, later: int,
                         env: Env, sign: Claims -> string)
    requires VerifyMfaOutcome(accounts, Some(id), mfaCode, now, env, sign).reply.LoggedIn?
    ensures var o := VerifyMfaOutcome(accounts, Some(id), mfaCode, now, env, sign);
            VerifyMfaOutcome(o.accounts, Some(id), mfaCode, later, env, sign).reply == MfaRefused(NoPendingCode)
  {
  }

  /** The code the credentials step issued at `t0` is accepted, white space
      around it allowed, up to and including ten minutes later, and refused as
      expired afterwards. */
  lemma {:induction false} IssuedCodeWindow(u: Usuario, code: SixDigit, t0: int, t1: int, pad: string)
    requires forall i :: 0 <= i < |pad| ==> IsJsSpace(pad[i])
    ensures MfaCodeAccepted(WithMfaCode(u, code, t0), pad + CodeString(code) + pad, t1) <==> t1 <= t0 + CODE_TTL_MS
    ensures t1 > t0 + CODE_TTL_MS ==>
              CodeRefusal(WithMfaCode(u, code, t0), pad + CodeString(code) + pad, t1) == Some(CodeExpired)
  {
    var c := CodeString(code);
    var s := pad + c + pad;
    assert TrimmedAt(s, c, |pad|);
    TrimOfPadded(s, c, |pad|);
  }

  /** The code step checks neither the lock nor the failure count: a pending
      code works the same on a locked account. */
  lemma MfaIgnoresLock(accounts: map<UserId, Usuario>, id: UserId, mfaCode: string, now: int,
                       env: Env, sign: Claims -> string, n: nat, lock: Option<int>)
    requires id in accounts
    ensures var locked := accounts[id := accounts[id].(failedAttempts := n, lockUntil := lock)];
            VerifyMfaOutcome(locked, Some(id), mfaCode, now, env, sign).reply
            == VerifyMfaOutcome(accounts, Some(id), mfaCode, now, env, sign).reply
  {
  }

  // ---------------------------------------------------------------------------
  // POST /auth/google
  // ---------------------------------------------------------------------------

  /** The address and display name of a verified Google identity token. */
  datatype GoogleProfile = GoogleProfile(email: string, name: string)

  datatype GoogleReply = GoogleFailed | GoogleLoggedIn(token: string, user: SessionUser)
  {
    function Status(): int
    {
      if GoogleFailed? then 500 else 200
    }
  }

  /** The record the route builds for an address it does not know. The
      profile name goes through the `trim` setter; the constant surnames and
      the empty phone number are already trimmed (`GoogleConstantsTrimmed`). */
  function GoogleRecord(p: GoogleProfile): (u: Usuario)
    ensures u.Correo == p.email && u.Estado == Activo && u.TipoUsuario == Cliente
    ensures u.Nombre == Trim(p.name) && u.ApellidoM == "" && u.Telefono == ""
  {
    WithDefaults(Trim(p.name), "Google", "", "", p.email, "google-auth").(Estado := Activo)
  }

  /** The setter leaves the constant fields of a Google record as they are. */
  lemma GoogleConstantsTrimmed()
    ensures Trim("Google") == "Google" && Trim("") == ""
  {
    TrimKeepsUnpadded("Google");
    TrimKeepsUnpadded("");
  }

  /** The schema refuses every such record: `ApellidoM` and `Telefono` are
      required and both are left empty. */
  lemma GoogleRecordNeverValid(p: GoogleProfile)
    ensures !SchemaValid(GoogleRecord(p))
  {
  }

  /** POST /auth/google as written, for a verified profile (or none when the
      identity token does not verify) and the account found by its address;
      `newId` is the identifier an insert would receive. */
  function GoogleOutcome(accounts: map<UserId, Usuario>, profile: Option<GoogleProfile>, found: Option<UserId>,
                         newId: UserId, now: int, env: Env, sign: Claims -> string): (o: Outcome<GoogleReply>)
    requires found.Some? ==> found.value in accounts
    requires newId !in accounts
    ensures o.reply.GoogleLoggedIn? ==> profile.Some? && env.jwtSecretSet
    ensures found.Some? ==> o.accounts == accounts
    ensures o.accounts != accounts ==> profile.Some? && o.accounts == accounts[newId := GoogleRecord(profile.value)]
  {
    if profile.None? then Outcome(GoogleFailed, accounts)
    else
      var p := profile.value;
      var (id, accounts') :=
        if found.Some? then (Some(found.value), accounts)
        else if SchemaValid(GoogleRecord(p)) then (Some(newId), accounts[newId := GoogleRecord(p)])
        else (None, accounts);
      if id.None? || !env.jwtSecretSet then Outcome(GoogleFailed, accounts')
      else
        var u := accounts'[id.value];
        Outcome(GoogleLoggedIn(sign(Issue(id.value, p.email, u.TipoUsuario, now)), SessionUserOf(id.value, u)),
                accounts')
  }

  /** As written, a Google identity whose address has no account never signs
      in: the insert is refused and the route answers 500. */
  lemma GoogleNewAccountRefused(accounts: map<UserId, Usuario>, p: GoogleProfile, newId: UserId,
                                now: int, env: Env, sign: Claims -> string)
    requires newId !in accounts
    ensures var o := GoogleOutcome(accounts, Some(p), None, newId, now, env, sign);
            o.reply == GoogleFailed && o.accounts == accounts
  {
    GoogleRecordNeverValid(p);
  }

  /** A known address signs in through Google without the lock or the
      account state being looked at. */
  lemma GoogleIgnoresLockAndState(accounts: map<UserId, Usuario>, p: GoogleProfile, id: UserId, newId: UserId,
                                  now: int, env: Env, sign: Claims -> string)
    requires id in accounts && newId !in accounts && env.jwtSecretSet
    ensures GoogleOutcome(accounts, Some(p), Some(id), newId, now, env, sign).reply
            == GoogleLoggedIn(sign(Issue(id, p.email, accounts[id].TipoUsuario, now)), SessionUserOf(id, accounts[id]))
  {
  }

  /** The route as evidently intended: an unknown address gets a new active
      client account, stored without the validators that a federated identity
      cannot satisfy, and a session. */
  function GoogleOutcomeIntended(accounts: map<UserId, Usuario>, profile: Option<GoogleProfile>, found: Option<UserId>,
                                 newId: UserId, now: int, env: Env, sign: Claims -> string): (o: Outcome<GoogleReply>)
    requires found.Some? ==> found.value in accounts
    requires newId !in accounts
    ensures o.reply.GoogleLoggedIn? <==> profile.Some? && env.jwtSecretSet
    ensures found.Some? || profile.None? ==> o == GoogleOutcome(accounts, profile, found, newId, now, env, sign)
  {
    if profile.None? || found.Some? then GoogleOutcome(accounts, profile, found, newId, now, env, sign)
    else
      var p := profile.value;
      var accounts' := accounts[newId := GoogleRecord(p)];
      if !env.jwtSecretSet then Outcome(GoogleFailed, accounts')
      else Outcome(GoogleLoggedIn(sign(Issue(newId, p.email, Cliente, now)), SessionUserOf(newId, GoogleRecord(p))),
                   accounts')
  }

  /** With the intended route a new Google user holds a session the gate
      admits, as an active client, until the token expires. */
  lemma GoogleIntendedAdmitsNewUser(accounts: map<UserId, Usuario>, p: GoogleProfile, newId: UserId,
                                    now: int, later: int, env: Env, sign: Claims -> string,
                                    check: string -> Option<Claims>, entries: map<string, int>)
    requires newId !in accounts && env.jwtSecretSet
    requires forall c :: check(sign(c)) == Some(c)
    requires ' ' !in sign(Issue(newId, p.email, Cliente, now)) && sign(Issue(newId, p.email, Cliente, now)) != ""
    requires now <= later < now + DAY_MS - SECOND_MS
    requires !Revoked(entries, sign(Issue(newId, p.email, Cliente, now)), later)
    ensures var o := GoogleOutcomeIntended(accounts, Some(p), None, newId, now, env, sign);
            && o.reply.GoogleLoggedIn?
            && o.accounts[newId].TipoUsuario == Cliente
            && Gate(Some("Bearer " + o.reply.token), later, env, check, entries, o.accounts).Admitted?
  {
    var c := Issue(newId, p.email, Cliente, now);
    var t := sign(c);
    var u := GoogleRecord(p);
    var o := GoogleOutcomeIntended(accounts, Some(p), None, newId, now, env, sign);
    assert o.reply == GoogleLoggedIn(t, SessionUserOf(newId, u)) && o.accounts == accounts[newId := u];
    IssuedTokenLifetime(newId, p.email, Cliente, now, later);
    assert check(t) == Some(c);
    CurrentTokenAdmitted(t, c, later, env, check, entries, o.accounts);
  }

  // ---------------------------------------------------------------------------
  // POST /logout
  // ---------------------------------------------------------------------------

  /** How long the logged-out token stays revoked: until its own expiry when
      it carries one (never negative), twenty-four hours when it does not. */
  function RevocationTtl(exp: Option<int>, now: int): (ttl: int)
    ensures ttl >= 0
    ensures exp.Some? && exp.value != 0 && now <= exp.value * SECOND_MS ==> now + ttl == exp.value * SECOND_MS
    ensures exp.Some? && exp.value != 0 && now > exp.value * SECOND_MS ==> ttl == 0
    ensures exp.None? || exp.value == 0 ==> ttl == DAY_MS
  {
    var expiresInMs := if exp.Some? && exp.value != 0 then exp.value * SECOND_MS - now else DAY_MS;
    Max(expiresInMs, 0)
  }

  datatype LogoutReply = LogoutRefused(error: GateError) | LoggedOut

  /** POST /logout at time `now`: the gate first; an admitted token is then
      revoked until its expiry. */
  method Logout(header: Option<string>, now: int, env: Env, check: string -> Option<Claims>,
                blacklist: Blacklist, store: Store) returns (r: LogoutReply)
    modifies blacklist
    ensures var g := Gate(header, now, env, check, old(blacklist.entries), store.accounts);
            var token := BearerToken(header);
            && (g.Rejected? ==>
                  && r == LogoutRefused(g.error)
                  && blacklist.entries == if token.Some? then AfterLookup(old(blacklist.entries), token.value, now)
                                          else old(blacklist.entries))
            && (g.Admitted? ==>
                  && r == LoggedOut
                  && blacklist.entries == old(blacklist.entries)[token.value := now + RevocationTtl(g.claims.exp, now)])
  {
    var g := AuthenticateToken(header, now, env, check, blacklist, store);
    if g.Rejected? {
      return LogoutRefused(g.error);
    }
    var token := BearerToken(header);
    var ttl := RevocationTtl(g.claims.exp, now);
    blacklist.AddToBlacklist(token.value, Some(ttl), now);
    r := LoggedOut;
  }

  /** After logout, the gate never again admits that token, at any later
      instant: it is revoked until its expiry and expired after. Later sweeps
      do not change this, since they drop only lapsed entries. */
  lemma LogoutIsFinal(header: Option<string>, now: int, later: int, env: Env, check: string -> Option<Claims>,
                      entries: map<string, int>, accounts: map<UserId, Usuario>, accounts': map<UserId, Usuario>)
    requires var g := Gate(header, now, env, check, entries, accounts);
             g.Admitted? && g.claims.exp.Some?
    requires 0 <= now <= later
    ensures var g := Gate(header, now, env, check, entries, accounts);
            var token := BearerToken(header).value;
            var after := entries[token := now + RevocationTtl(g.claims.exp, now)];
            && !Gate(header, later, env, check, after, accounts').Admitted?
            && !Gate(header, later, env, check, Swept(after, later), accounts').Admitted?
  {
    var g := Gate(header, now, env, check, entries, accounts);
    var token := BearerToken(header).value;
    var after := entries[token := now + RevocationTtl(g.claims.exp, now)];
    var e := g.claims.exp.value;
    assert Seconds(now) < e;
    assert now < e * SECOND_MS;
    if later <= e * SECOND_MS {
      assert Revoked(after, token, later);
    } else {
      assert Seconds(later) >= e;
      assert Expired(g.claims, later);
    }
    EvictionKeepsAnswers(after, token, later, token);
  }

  // ---------------------------------------------------------------------------
  // The routes over the store
  // ---------------------------------------------------------------------------

  /** The refused-password branch of POST /: count the failure, then word the
      reply from the reloaded record. */
  method RefusePassword(store: Store, id: UserId, now: int) returns (reply: LoginReply)
    requires store.Valid() && id in store.accounts
    modifies store
    ensures store.Valid()
    ensures store.accounts == old(store.accounts)[id := FailedAttempt(old(store.accounts)[id], now)]
    ensures reply == InvalidLogin(FailureMessage(FailedAttempt(old(store.accounts)[id], now), now))
  {
    store.IncLoginAttempts(id, now);
    var updated := store.accounts[id];
    reply := InvalidLogin(FailureMessage(updated, now));
  }

  /** The accepted-password branch of POST /: reset the counters when they
      are set, store the code, then answer according to the mail delivery. */
  method IssueMfaCode(store: Store, id: UserId, now: int, env: Env, code: SixDigit, mailOk: bool)
    returns (reply: LoginReply)
    requires store.Valid() && id in store.accounts
    modifies store
    ensures store.Valid()
    ensures var u := old(store.accounts)[id];
            && store.accounts == old(store.accounts)[id := WithMfaCode(u, code, now)]
            && reply == if mailOk then MfaSent(id, u.Correo)
                        else if !env.production then MfaDevCode(id, u.Correo, CodeString(code))
                        else MfaNotSent
  {
    var u := store.accounts[id];
    if u.failedAttempts > 0 || u.lockUntil.Some? {
      store.ResetLoginAttempts(id);
    } else {
      assert Cleared(u) == u;
    }
    assert store.accounts == old(store.accounts)[id := Cleared(u)];
    var v := WithMfaCode(u, code, now);
    ValidityKept(u, v);
    assert store.accounts[id := v] == old(store.accounts)[id := v];
    store.Save(id, v);
    if mailOk {
      reply := MfaSent(id, u.Correo);
    } else if !env.production {
      reply := MfaDevCode(id, u.Correo, CodeString(code));
    } else {
      reply := MfaNotSent;
    }
  }

  /** POST / with address `correo` and password `password`. */
  method Login(store: Store, correo: string, password: string, compare: (string, string) -> bool,
               now: int, env: Env, code: SixDigit, mailOk: bool) returns (reply: LoginReply)
    requires store.Valid()
    modifies store
    ensures store.Valid()
    ensures Outcome(reply, store.accounts)
            == CredentialsOutcome(old(store.accounts), ByEmail(old(store.accounts), correo), password,
                                  compare, now, env, code, mailOk)
  {
    if !env.gmailConfigured {
      return ServerMisconfigured;
    }
    var found := store.FindByEmail(correo);
    if found.None? {
      return InvalidLogin(WrongCredentials);
    }
    var id := found.value;
    var u := store.accounts[id];
    if u.lockUntil.Some? && u.lockUntil.value > now {
      var left := u.lockUntil.value - now;
      return AccountLocked(CeilDiv(left, MINUTE_MS), u.lockUntil.value, CeilDiv(left, SECOND_MS));
    }
    if u.Estado != Activo {
      return NotVerified;
    }
    if !compare(password, u.Password) {
      reply := RefusePassword(store, id, now);
    } else {
      reply := IssueMfaCode(store, id, now, env, code, mailOk);
    }
  }

  /** POST /verify-mfa with the submitted identifier and code. */
  method VerifyMfa(store: Store, userId: Option<UserId>, mfaCode: string, now: int, env: Env,
                   sign: Claims -> string) returns (reply: MfaReply)
    requires store.Valid()
    modifies store
    ensures store.Valid()
    ensures Outcome(reply, store.accounts) == VerifyMfaOutcome(old(store.accounts), userId, mfaCode, now, env, sign)
  {
    if userId.None? {
      return MfaRefused(UserIdRequired);
    }
    if mfaCode == "" {
      return MfaRefused(CodeRequired);
    }
    var codeToVerify := Trim(mfaCode);
    var id := userId.value;
    if id !in store.accounts {
      return MfaRefused(UserNotFound);
    }
    var u := store.accounts[id];
    if u.MFACode.None? || u.MFACode.value == "" {
      return MfaRefused(NoPendingCode);
    }
    if Trim(u.MFACode.value) != codeToVerify {
      return MfaRefused(CodeMismatch);
    }
    if u.MFAExpiry.Some? && now > u.MFAExpiry.value {
      return MfaRefused(CodeExpired);
    }
    if !env.jwtSecretSet {
      return MfaRefused(SecretMissing);
    }
    reply := ConsumeMfaCode(store, id, now, sign);
  }

  /** The success path of POST /verify-mfa: the code is cleared and the
      session token signed for the account. */
  method ConsumeMfaCode(store: Store, id: UserId, now: int, sign: Claims -> string) returns (reply: MfaReply)
    requires store.Valid() && id in store.accounts
    modifies store
    ensures store.Valid()
    ensures var u := old(store.accounts)[id];
            var v := u.(MFACode := None, MFAExpiry := None);
            && store.accounts == old(store.accounts)[id := v]
            && reply == LoggedIn(sign(Issue(id, u.Correo, u.TipoUsuario, now)), SessionUserOf(id, v))
  {
    var u := store.accounts[id];
    var v := u.(MFACode := None, MFAExpiry := None);
    ValidityKept(u, v);
    store.Save(id, v);
    reply := LoggedIn(sign(Issue(id, u.Correo, u.TipoUsuario, now)), SessionUserOf(id, v));
  }

  /** POST /auth/google for the profile of the identity token, if it verifies. */
  method GoogleAuth(store: Store, profile: Option<GoogleProfile>, now: int, env: Env,
                    sign: Claims -> string) returns (reply: GoogleReply)
    requires store.Valid()
    modifies store
    ensures store.Valid()
    ensures profile.Some? ==>
              Outcome(reply, store.accounts)
              == GoogleOutcome(old(store.accounts), profile, ByEmail(old(store.accounts), profile.value.email),
                               old(store.nextId), now, env, sign)
    ensures profile.None? ==> reply == GoogleFailed && store.accounts == old(store.accounts)
  {
    if profile.None? {
      return GoogleFailed;
    }
    var p := profile.value;
    var found := store.FindByEmail(p.email);
    var id: UserId;
    if found.Some? {
      id := found.value;
    } else {
      var created := store.Create(GoogleRecord(p));
      match created {
        case None => return GoogleFailed;
        case Some(newId) => id := newId;
      }
    }
    if !env.jwtSecretSet {
      return GoogleFailed;
    }
    var u := store.accounts[id];
    reply := GoogleLoggedIn(sign(Issue(id, p.email, u.TipoUsuario, now)), SessionUserOf(id, u));
  }
}
