/** The password-recovery routes of backend/routes/recovery.js: a rate-limited
    request that stores a reset code in the account's one-time-code slot and
    always answers with the same generic message, a check of that code, and
    the reset that replaces the password digest and consumes the code. */
module RecoveryRoutes {
  import opened Common
  import opened UsuarioModel
  import opened UsuarioStore

  // ---------------------------------------------------------------------------
  // The request limiter (three requests per client per fifteen minutes)
  // ---------------------------------------------------------------------------

  const RECOVERY_WINDOW_MS: int := 15 * MINUTE_MS
  const RECOVERY_MAX: nat := 3
  /** The fixed `retryAfter` the refusal reports, in seconds. */
  const RECOVERY_RETRY_AFTER_S: int := 15 * 60

  /** One client's counter: requests counted in the current window and the
      instant the window ends. */
  datatype Window = Window(hits: nat, resetTime: int)

  /** The counter after one more request at `now`: a missing or ended window
      is replaced by a new one of fifteen minutes; every request is counted,
      refused ones included. */
  function Counted(w: Option<Window>, now: int): (r: Window)
    ensures w.None? || w.value.resetTime <= now ==> r == Window(1, now + RECOVERY_WINDOW_MS)
    ensures w.Some? && now < w.value.resetTime ==> r == Window(w.value.hits + 1, w.value.resetTime)
  {
    if w.None? || w.value.resetTime <= now then Window(1, now + RECOVERY_WINDOW_MS)
    else Window(w.value.hits + 1, w.value.resetTime)
  }

  /** A request is let through when its count is within the maximum. */
  predicate Admits(w: Window)
  {
    w.hits <= RECOVERY_MAX
  }

  /** How many of the requests at the instants `ts` are let through. */
  function AdmittedCount(w: Option<Window>, ts: seq<int>): nat
    decreases |ts|
  {
    if ts == [] then 0
    else
      var w' := Counted(w, ts[0]);
      (if Admits(w') then 1 else 0) + AdmittedCount(Some(w'), ts[1..])
  }

  /** Within an open window holding `hits` requests, further requests before
      it ends are let through until the count reaches three, and no more. */
  lemma {:induction false} WindowAllowance(hits: nat, resetTime: int, ts: seq<int>)
    requires forall i :: 0 <= i < |ts| ==> ts[i] < resetTime
    ensures AdmittedCount(Some(Window(hits, resetTime)), ts)
            == if hits >= RECOVERY_MAX then 0 else Min(RECOVERY_MAX - hits, |ts|)
    decreases |ts|
  {
    if ts != [] {
      WindowAllowance(hits + 1, resetTime, ts[1..]);
    }
  }

  function Min(a: int, b: int): (r: int)
    ensures r <= a && r <= b && (r == a || r == b)
  {
    if a <= b then a else b
  }

  /** A client's first request, or the first after its window ended, opens a
      window in which exactly the first three requests get through. */
  lemma {:induction false} AtMostThreePerWindow(w: Option<Window>, ts: seq<int>)
    requires |ts| >= 1 && (w.None? || w.value.resetTime <= ts[0])
    requires forall i :: 0 <= i < |ts| ==> ts[i] < ts[0] + RECOVERY_WINDOW_MS
    ensures AdmittedCount(w, ts) == Min(RECOVERY_MAX, |ts|)
  {
    WindowAllowance(1, ts[0] + RECOVERY_WINDOW_MS, ts[1..]);
  }

  /** The limiter's table of client windows, keyed by client address. */
  class RateLimiter {
    var clients: map<string, Window>

    constructor ()
      ensures clients == map[]
    {
      clients := map[];
    }

    /** Count a request from `client` at `now`; answer whether it may proceed. */
    method Hit(client: string, now: int) returns (allowed: bool)
      modifies this
      ensures var w := Counted(if client in old(clients) then Some(old(clients)[client]) else None, now);
              clients == old(clients)[client := w] && allowed == Admits(w)
    {
      var w: Window;
      if client !in clients || clients[client].resetTime <= now {
        w := Window(1, now + RECOVERY_WINDOW_MS);
      } else {
        w := Window(clients[client].hits + 1, clients[client].resetTime);
      }
      clients := clients[client := w];
      allowed := w.hits <= RECOVERY_MAX;
    }
  }

  // ---------------------------------------------------------------------------
  // POST /  (request a reset code)
  // ---------------------------------------------------------------------------

  datatype RequestReply = TooManyRequests(retryAfter: int) | RecoveryConfigMissing | GenericNotice
  {
    function Status(): int
    {
      match this
      case TooManyRequests(_) => 429
      case RecoveryConfigMissing => 500
      case GenericNotice => 200
    }
  }

  /** The record holding a reset code valid for ten minutes, in the slot the
      sign-in code uses. */
  function WithResetCode(u: Usuario, code: SixDigit, now: int): (v: Usuario)
    ensures SameValidatedFields(u, v) && v.Estado == u.Estado
    ensures v.failedAttempts == u.failedAttempts && v.lockUntil == u.lockUntil
    ensures v.MFACode == Some(CodeString(code)) && v.MFAExpiry == Some(now + CODE_TTL_MS)
  {
    u.(MFACode := Some(CodeString(code)), MFAExpiry := Some(now + CODE_TTL_MS))
  }

  /** POST / once the limiter has let the request through (`allowed`), for
      the account `found` by the address. Mail delivery does not influence
      the answer. */
  function RequestOutcome(accounts: map<UserId, Usuario>, allowed: bool, found: Option<UserId>,
                          code: SixDigit, now: int, env: Env): (o: Outcome<RequestReply>)
    requires found.Some? ==> found.value in accounts
    ensures o.reply.Status() == 429 <==> !allowed
    ensures o.reply.TooManyRequests? ==> o.reply.retryAfter == RECOVERY_RETRY_AFTER_S
    ensures o.reply.Status() == 500 <==> allowed && !env.gmailConfigured
    ensures allowed && env.gmailConfigured && found.Some? ==>
              o.accounts == accounts[found.value := WithResetCode(accounts[found.value], code, now)]
    ensures !(allowed && env.gmailConfigured && found.Some?) ==> o.accounts == accounts
  {
    if !allowed then Outcome(TooManyRequests(RECOVERY_RETRY_AFTER_S), accounts)
    else if !env.gmailConfigured then Outcome(RecoveryConfigMissing, accounts)
    else if found.None? then Outcome(GenericNotice, accounts)
    else
      var id := found.value;
      Outcome(GenericNotice, accounts[id := WithResetCode(accounts[id], code, now)])
  }

  /** The answer does not reveal whether the address has an account. */
  lemma RequestDoesNotEnumerate(accounts: map<UserId, Usuario>, allowed: bool, id: UserId,
                                code: SixDigit, now: int, env: Env)
    requires id in accounts
    ensures RequestOutcome(accounts, allowed, Some(id), code, now, env).reply
            == RequestOutcome(accounts, allowed, None, code, now, env).reply
  {
  }

  // ---------------------------------------------------------------------------
  // POST /verify-code and POST /verify
  // ---------------------------------------------------------------------------

  /** A reset code is valid: a stored code that trims to something non-empty
      and equal to the submitted code trimmed, with a recorded expiry that has
      not passed. Unlike the sign-in step, a code without an expiry is
      refused. */
  predicate ResetCodeValid(u: Usuario, resetCode: string, now: int)
  {
    && Truthy(u.MFACode)
    && Trim(u.MFACode.value) != ""
    && Trim(u.MFACode.value) == Trim(resetCode)
    && u.MFAExpiry.Some? && now <= u.MFAExpiry.value
  }

  /** Both refusals after the lookup read the same: unknown address, wrong
      code and expired code are indistinguishable. */
  datatype CheckReply = DataRequired | InvalidOrExpired | CodeValid | PasswordUpdated
  {
    function Status(): int
    {
      if CodeValid? || PasswordUpdated? then 200 else 400
    }
  }

  /** POST /verify-code: answers only, never changes anything. */
  function VerifyCodeReply(accounts: map<UserId, Usuario>, correo: string, resetCode: string,
                           found: Option<UserId>, now: int): (r: CheckReply)
    requires found.Some? ==> found.value in accounts
    ensures r == CodeValid <==>
              correo != "" && resetCode != "" && found.Some? && ResetCodeValid(accounts[found.value], resetCode, now)
    ensures r != CodeValid ==>
              r == (if correo == "" || resetCode == "" then DataRequired else InvalidOrExpired)
  {
    if correo == "" || resetCode == "" then DataRequired
    else if found.None? then InvalidOrExpired
    else if !ResetCodeValid(accounts[found.value], resetCode, now) then InvalidOrExpired
    else CodeValid
  }

  /** The record after a reset: the new digest stored, the code consumed. The
      lock-out counters are left as they were. */
  function WithNewPassword(u: Usuario, digest: BcryptHash): (v: Usuario)
    ensures v.Password == digest && v.MFACode.None? && v.MFAExpiry.None?
    ensures v.failedAttempts == u.failedAttempts && v.lockUntil == u.lockUntil && v.Estado == u.Estado
    ensures SameValidatedFields(u, v.(Password := u.Password))
  {
    u.(Password := digest, MFACode := None, MFAExpiry := None)
  }

  /** POST /verify: the same checks, then the reset. */
  function ResetOutcome(accounts: map<UserId, Usuario>, correo: string, resetCode: string, newPassword: string,
                        found: Option<UserId>, now: int, hash: string -> BcryptHash): (o: Outcome<CheckReply>)
    requires found.Some? ==> found.value in accounts
    ensures o.reply == PasswordUpdated <==>
              && correo != "" && resetCode != "" && newPassword != "" && found.Some?
              && ResetCodeValid(accounts[found.value], resetCode, now)
    ensures o.reply == PasswordUpdated ==>
              o.accounts == accounts[found.value := WithNewPassword(accounts[found.value], hash(newPassword))]
    ensures o.reply != PasswordUpdated ==> o.accounts == accounts
    ensures o.reply != PasswordUpdated ==>
              o.reply == (if correo == "" || resetCode == "" || newPassword == "" then DataRequired else InvalidOrExpired)
  {
    if correo == "" || resetCode == "" || newPassword == "" then Outcome(DataRequired, accounts)
    else if found.None? then Outcome(InvalidOrExpired, accounts)
    else
      var id := found.value;
      var u := accounts[id];
      if !ResetCodeValid(u, resetCode, now) then Outcome(InvalidOrExpired, accounts)
      else Outcome(PasswordUpdated, accounts[id := WithNewPassword(u, hash(newPassword))])
  }

  /** The reset code issued at `t0` passes both checks up to and including ten
      minutes later and neither afterwards; a successful reset consumes it. */
  lemma {:induction false} ResetCodeWindow(accounts: map<UserId, Usuario>, id: UserId, correo: string,
                                           code: SixDigit, t0: int, t1: int, newPassword: string,
                                           hash: string -> BcryptHash)
    requires id in accounts && correo != "" && newPassword != ""
    ensures var a := accounts[id := WithResetCode(accounts[id], code, t0)];
            var c := CodeString(code);
            && (VerifyCodeReply(a, correo, c, Some(id), t1) == CodeValid <==> t1 <= t0 + CODE_TTL_MS)
            && (ResetOutcome(a, correo, c, newPassword, Some(id), t1, hash).reply == PasswordUpdated
                <==> t1 <= t0 + CODE_TTL_MS)
            && (t1 <= t0 + CODE_TTL_MS ==>
                  var o := ResetOutcome(a, correo, c, newPassword, Some(id), t1, hash);
                  ResetOutcome(o.accounts, correo, c, newPassword, Some(id), t1, hash).reply == InvalidOrExpired)
  {
    CodeStringTrimmed(code);
  }

  // ---------------------------------------------------------------------------
  // The routes over the store
  // ---------------------------------------------------------------------------

  /** POST / from client `client` with address `correo`. */
  method RequestReset(store: Store, limiter: RateLimiter, client: string, correo: string,
                      code: SixDigit, now: int, env: Env) returns (reply: RequestReply)
    requires store.Valid()
    modifies store, limiter
    ensures store.Valid()
    ensures var w := Counted(if client in old(limiter.clients) then Some(old(limiter.clients)[client]) else None, now);
            && limiter.clients == old(limiter.clients)[client := w]
            && Outcome(reply, store.accounts)
               == RequestOutcome(old(store.accounts), Admits(w), ByEmail(old(store.accounts), correo), code, now, env)
  {
    var allowed := limiter.Hit(client, now);
    if !allowed {
      return TooManyRequests(RECOVERY_RETRY_AFTER_S);
    }
    if !env.gmailConfigured {
      return RecoveryConfigMissing;
    }
    var found := store.FindByEmail(correo);
    if found.None? {
      return GenericNotice;
    }
    var id := found.value;
    var u := store.accounts[id];
    var v := WithResetCode(u, code, now);
    ValidityKept(u, v);
    store.Save(id, v);
    reply := GenericNotice;
  }

  /** POST /verify-code. */
  method VerifyCode(store: Store, correo: string, resetCode: string, now: int) returns (reply: CheckReply)
    requires store.Valid()
    ensures reply == VerifyCodeReply(store.accounts, correo, resetCode, ByEmail(store.accounts, correo), now)
  {
    if correo == "" || resetCode == "" {
      return DataRequired;
    }
    var found := store.FindByEmail(correo);
    if found.None? {
      return InvalidOrExpired;
    }
    var u := store.accounts[found.value];
    var codeToVerify := Trim(resetCode);
    var storedCode := if Truthy(u.MFACode) then Trim(u.MFACode.value) else "";
    if storedCode == "" || storedCode != codeToVerify {
      return InvalidOrExpired;
    }
    if u.MFAExpiry.None? || now > u.MFAExpiry.value {
      return InvalidOrExpired;
    }
    reply := CodeValid;
  }

  /** POST /verify. */
  method ResetPassword(store: Store, correo: string, resetCode: string, newPassword: string, now: int,
                       hash: string -> BcryptHash) returns (reply: CheckReply)
    requires store.Valid()
    modifies store
    ensures store.Valid()
    ensures Outcome(reply, store.accounts)
            == ResetOutcome(old(store.accounts), correo, resetCode, newPassword, ByEmail(old(store.accounts), correo),
                            now, hash)
  {
    if correo == "" || resetCode == "" || newPassword == "" {
      return DataRequired;
    }
    var found := store.FindByEmail(correo);
    if found.None? {
      return InvalidOrExpired;
    }
    var id := found.value;
    var u := store.accounts[id];
    var codeToVerify := Trim(resetCode);
    var storedCode := if Truthy(u.MFACode) then Trim(u.MFACode.value) else "";
    if storedCode == "" || storedCode != codeToVerify {
      return InvalidOrExpired;
    }
    if u.MFAExpiry.None? || now > u.MFAExpiry.value {
      return InvalidOrExpired;
    }
    var v := WithNewPassword(u, hash(newPassword));
    ValidityKept(u, v);
    store.Save(id, v);
    reply := PasswordUpdated;
  }
}
