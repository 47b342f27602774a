/** Properties that span several routes, or the server and the browser: a
    whole password sign-in ending at the request gate, the lock across
    consecutive attempts, what a fresh sign-up and a password reset leave for
    the next sign-in, and where each role lands after signing in. */
module Scenarios {
  import opened Common
  import opened UsuarioModel
  import opened UsuarioStore
  import opened TokenBlacklist
  import opened Jwt
  import opened AuthMiddleware
  import opened LoginRoutes
  import opened RegistroRoutes
  import opened RecoveryRoutes
  import opened AuthContext
  import opened ProtectedRoute
  import opened LoginForm
  import opened LayoutGate

  // ---------------------------------------------------------------------------
  // Server-side sequences
  // ---------------------------------------------------------------------------

  /** A correct password followed, within ten minutes, by the mailed code
      signs the account in, and the token it receives is admitted by the
      request gate as that account, provided the signature check accepts
      exactly what was signed and the token has not been revoked. */
  lemma PasswordSignInReachesGate(accounts: map<UserId, Usuario>, id: UserId, password: string,
                                  compare: (string, string) -> bool, t0: int, t1: int, env: Env,
                                  code: SixDigit, mailOk: bool, sign: Claims -> string,
                                  check: string -> Option<Claims>, entries: map<string, int>)
    requires env.gmailConfigured && env.jwtSecretSet
    requires id in accounts && accounts[id].Estado == Activo && !IsLocked(accounts[id], t0)
    requires compare(password, accounts[id].Password)
    requires t0 <= t1 <= t0 + CODE_TTL_MS
    requires forall c :: check(sign(c)) == Some(c) && sign(c) != "" && ' ' !in sign(c)
    requires sign(Issue(id, accounts[id].Correo, accounts[id].TipoUsuario, t1)) !in entries
    ensures var o1 := CredentialsOutcome(accounts, Some(id), password, compare, t0, env, code, mailOk);
            var o2 := VerifyMfaOutcome(o1.accounts, Some(id), CodeString(code), t1, env, sign);
            && o2.reply.LoggedIn?
            && o2.accounts[id].failedAttempts == 0 && o2.accounts[id].MFACode.None?
            && Gate(Some("Bearer " + o2.reply.token), t1, env, check, entries, o2.accounts)
               == Admitted(id, o2.accounts[id], Issue(id, accounts[id].Correo, accounts[id].TipoUsuario, t1))
  {
    var u := accounts[id];
    var o1 := CredentialsOutcome(accounts, Some(id), password, compare, t0, env, code, mailOk);
    CorrectPasswordIssuesCode(accounts, id, password, compare, t0, env, code, mailOk);
    CodeStringTrimmed(code);
    var o2 := VerifyMfaOutcome(o1.accounts, Some(id), CodeString(code), t1, env, sign);
    var c := Issue(id, u.Correo, u.TipoUsuario, t1);
    assert o2.reply.token == sign(c);
    SignedTokenAdmitted(o2.accounts, id, u.Correo, u.TipoUsuario, t1, env, sign, check, entries);
  }

  /** A token signed at `t1` for an active account passes the gate at `t1` as
      that account, when the signature check accepts what was signed and the
      token is not revoked. */
  lemma SignedTokenAdmitted(accounts: map<UserId, Usuario>, id: UserId, correo: string, tipo: TipoUsuario,
                            t1: int, env: Env, sign: Claims -> string, check: string -> Option<Claims>,
                            entries: map<string, int>)
    requires env.jwtSecretSet && id in accounts && accounts[id].Estado == Activo
    requires forall c :: check(sign(c)) == Some(c) && sign(c) != "" && ' ' !in sign(c)
    requires sign(Issue(id, correo, tipo, t1)) !in entries
    ensures Gate(Some("Bearer " + sign(Issue(id, correo, tipo, t1))), t1, env, check, entries, accounts)
            == Admitted(id, accounts[id], Issue(id, correo, tipo, t1))
  {
    var c := Issue(id, correo, tipo, t1);
    assert check(sign(c)) == Some(c) && sign(c) != "" && ' ' !in sign(c);
    IssuedTokenLifetime(id, correo, tipo, t1, t1);
    CurrentTokenAdmitted(sign(c), c, t1, env, check, entries, accounts);
  }

  /** Three wrong passwords in a row on a clean, active account: the first two
      report the attempts left, the third engages the lock with a 400 and any
      attempt within the next fifteen minutes, right password or not, is
      refused with 423. */
  lemma ThreeWrongPasswordsThenLocked(accounts: map<UserId, Usuario>, id: UserId, wrong: string, any: string,
                                      compare: (string, string) -> bool, t1: int, t2: int, t3: int, t4: int,
                                      env: Env, code: SixDigit, mailOk: bool)
    requires env.gmailConfigured && id in accounts && accounts[id].Estado == Activo
    requires accounts[id].failedAttempts == 0 && accounts[id].lockUntil.None?
    requires !compare(wrong, accounts[id].Password)
    requires t1 <= t2 <= t3 <= t4 < t3 + LOCK_MS
    ensures var o1 := CredentialsOutcome(accounts, Some(id), wrong, compare, t1, env, code, mailOk);
            var o2 := CredentialsOutcome(o1.accounts, Some(id), wrong, compare, t2, env, code, mailOk);
            var o3 := CredentialsOutcome(o2.accounts, Some(id), wrong, compare, t3, env, code, mailOk);
            var o4 := CredentialsOutcome(o3.accounts, Some(id), any, compare, t4, env, code, mailOk);
            && o1.reply == InvalidLogin(AttemptsLeft(2))
            && o2.reply == InvalidLogin(AttemptsLeft(1))
            && o3.reply == InvalidLogin(LockedFor(15))
            && o4.reply.Status() == 423 && o4.accounts == o3.accounts
  {
    var o1 := CredentialsOutcome(accounts, Some(id), wrong, compare, t1, env, code, mailOk);
    WrongPasswordCounted(accounts, id, wrong, compare, t1, env, code, mailOk);
    var o2 := CredentialsOutcome(o1.accounts, Some(id), wrong, compare, t2, env, code, mailOk);
    WrongPasswordCounted(o1.accounts, id, wrong, compare, t2, env, code, mailOk);
    LockingFailureIs400(o2.accounts, id, wrong, compare, t3, t4, env, code, mailOk);
  }

  /** A fresh sign-up cannot sign in before the address is confirmed: the
      credentials step answers that the account is not verified, for any
      password, and records nothing. */
  lemma SignUpNeedsVerification(accounts: map<UserId, Usuario>, f: SignUp, newId: UserId,
                                hash: string -> BcryptHash, code: SixDigit, t0: int, t1: int, env: Env,
                                mailOk: bool, password: string, compare: (string, string) -> bool,
                                loginCode: SixDigit)
    requires env.gmailConfigured
    requires RegisterOutcome(accounts, f, false, newId, hash, code, t0, env, mailOk).reply.Stored()
    ensures var a := RegisterOutcome(accounts, f, false, newId, hash, code, t0, env, mailOk).accounts;
            var o := CredentialsOutcome(a, Some(newId), password, compare, t1, env, loginCode, mailOk);
            o.reply == NotVerified && o.accounts == a
  {
  }

  /** A password reset does not lift a lock: right after the new password is
      stored, signing in with it is still refused with 423 while the lock
      lasts. */
  lemma ResetKeepsLock(accounts: map<UserId, Usuario>, id: UserId, correo: string, resetCode: string,
                       newPassword: string, now: int, hash: string -> BcryptHash, compare: (string, string) -> bool,
                       env: Env, code: SixDigit, mailOk: bool)
    requires id in accounts && env.gmailConfigured && IsLocked(accounts[id], now)
    requires ResetOutcome(accounts, correo, resetCode, newPassword, Some(id), now, hash).reply == PasswordUpdated
    ensures var a := ResetOutcome(accounts, correo, resetCode, newPassword, Some(id), now, hash).accounts;
            && a[id].Password == hash(newPassword)
            && CredentialsOutcome(a, Some(id), newPassword, compare, now, env, code, mailOk).reply.Status() == 423
  {
  }

  /** The reset code lives in the slot of the sign-in code: it completes the
      second sign-in step within its ten minutes, and it replaces any sign-in
      code pending before it. */
  lemma ResetCodeSharesSignInSlot(accounts: map<UserId, Usuario>, id: UserId, code: SixDigit, t0: int, t1: int,
                                  env: Env, sign: Claims -> string)
    requires id in accounts && env.gmailConfigured && env.jwtSecretSet
    ensures var a := RequestOutcome(accounts, true, Some(id), code, t0, env).accounts;
            && a[id].MFACode == Some(CodeString(code))
            && (VerifyMfaOutcome(a, Some(id), CodeString(code), t1, env, sign).reply.LoggedIn?
                <==> t1 <= t0 + CODE_TTL_MS)
  {
    CodeStringTrimmed(code);
  }

  // ---------------------------------------------------------------------------
  // Server and browser
  // ---------------------------------------------------------------------------

  /** The user object the browser keeps from a session reply: the role under
      both `TipoUsuario` and `tipo`. */
  function ClientUserOf(s: SessionUser): (c: ClientUser)
    ensures UserTypeOf(Some(c)) == Some(TipoName(s.TipoUsuario))
  {
    ClientUser(Some(TipoName(s.TipoUsuario)), Some(TipoName(s.TipoUsuario)))
  }

  /** The browser ends a session fifteen minutes after issue, long before the
      server would refuse the token as expired. */
  lemma ClientSessionEndsFirst(id: UserId, correo: string, tipo: TipoUsuario, now: int)
    ensures var c := Issue(id, correo, tipo, now);
            IssuedAtMs(Some(c.iat)) + SESSION_MS < c.exp.value * SECOND_MS
            && !Expired(c, IssuedAtMs(Some(c.iat)) + SESSION_MS)
  {
    var c := Issue(id, correo, tipo, now);
    IssuedTokenLifetime(id, correo, tipo, now, IssuedAtMs(Some(c.iat)) + SESSION_MS);
  }

  /** The roles each guarded route of frontend/src/App.js admits, as written. */
  function AppRouteRoles(path: string): (r: Option<seq<string>>)
    ensures path == "/cliente" ==> r == Some(["Cliente"])
    ensures r.Some? <==> path in {"/admin", "/cliente", "/recepcion"}
  {
    if path == "/admin" then Some(["Administrador"])
    else if path == "/cliente" then Some(["Cliente"])
    else if path == "/recepcion" then Some(["Repartidor"])
    else None
  }

  /** As written, an owner who signs in lands on `/cliente`, whose frame
      admits owners, but whose route admits clients only: the page sends the
      owner back to sign-in marked unauthorized. */
  lemma OwnerBouncedFromLanding(token: string, s: SessionUser)
    requires token != "" && s.TipoUsuario == Propietario
    ensures var u := Some(ClientUserOf(s));
            var landing := LandingPath(UserTypeOf(u));
            && landing == "/cliente"
            && Layout(false, u, landing) == Framed(ClienteHeader, ClienteFooter)
            && Guard(u, Some(token), AppRouteRoles(landing), landing) == RedirectToLogin("/cliente", true)
  {
    ClienteAreaOnly();
  }

  /** The client landing page lies in the client area and in no other. */
  lemma ClienteAreaOnly()
    ensures StartsWith("/cliente", "/cliente") && !StartsWith("/cliente", "/admin")
    ensures AreaRoles("/cliente") == Some({"Cliente", "Propietario"})
    ensures AreaRoles("/admin") == Some({"Administrador"})
    ensures AreaRoles("/recepcion") == Some({"Repartidor"})
  {
    assert "/cliente"[..6][1] != "/admin"[1];
    assert "/recepcion"[..6][1] != "/admin"[1];
    assert "/recepcion"[..8][1] != "/cliente"[1];
    assert "/recepcion"[..|"/recepcion"|] == "/recepcion";
    assert "/admin"[..|"/admin"|] == "/admin";
    assert "/cliente"[..|"/cliente"|] == "/cliente";
  }

  /** The route roles consistent with the landing switch and the frame: the
      client area admits owners as well. */
  function AppRouteRolesIntended(path: string): (r: Option<seq<string>>)
    ensures path == "/cliente" ==> r == Some(["Cliente", "Propietario"])
    ensures path != "/cliente" ==> r == AppRouteRoles(path)
  {
    if path == "/cliente" then Some(["Cliente", "Propietario"]) else AppRouteRoles(path)
  }

  /** With the intended route roles, every role that signs in lands on a page
      whose route and frame both admit it. */
  lemma EveryRoleReachesLanding(token: string, s: SessionUser)
    requires token != ""
    ensures var u := Some(ClientUserOf(s));
            var landing := LandingPath(UserTypeOf(u));
            && Guard(u, Some(token), AppRouteRolesIntended(landing), landing) == RenderChildren
            && Layout(false, u, landing).Framed?
  {
    ClienteAreaOnly();
  }
}
