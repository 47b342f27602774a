/** The registration routes of backend/routes/RegistroUsuarios.js: sign-up,
    which stores an inactive account holding a six-digit verification code;
    the activation by that code; and the re-issue of a code for an account
    still inactive. */
module RegistroRoutes {
  import opened Common
  import opened UsuarioModel
  import opened UsuarioStore

  // ---------------------------------------------------------------------------
  // POST /  (sign-up)
  // ---------------------------------------------------------------------------

  /** `/^[^\s@]+@[^\s@]+\.[^\s@]+$/`: no white space, exactly one `@` with
      something before it, and after it a `.` with something on each side. */
  predicate RegistrationEmailShape(s: string)
  {
    && NoSpace(s)
    && multiset(s)['@'] == 1
    && exists a, d | 0 < a && a + 1 < d < |s| - 1 :: s[a] == '@' && s[d] == '.'
  }

  /** Every address the route accepts also satisfies the schema's pattern. */
  lemma RegistrationShapeMeetsSchema(s: string)
    requires RegistrationEmailShape(s)
    ensures SchemaEmailShape(s)
  {
  }

  /** The role a sign-up may choose: `Cliente` or `Propietario`; anything
      else, or nothing, becomes `Cliente`. */
  function RequestedTipo(tipousuario: Option<string>): (t: TipoUsuario)
    ensures t == Cliente || t == Propietario
    ensures tipousuario == Some("Propietario") <==> t == Propietario
  {
    if Truthy(tipousuario) && tipousuario.value == "Propietario" then Propietario else Cliente
  }

  /** The stored secret answer: the digest of the trimmed answer, or empty
      when the answer is missing or only white space. */
  function StoredAnswer(respuestaSecreta: Option<string>, hash: string -> BcryptHash): (r: string)
    ensures r == "" <==> !Truthy(respuestaSecreta) || Trim(respuestaSecreta.value) == ""
    ensures r != "" ==> r == hash(Trim(respuestaSecreta.value))
  {
    var answer := OrElse(respuestaSecreta, Some("")).value;
    if answer != "" && |Trim(answer)| > 0 then hash(Trim(answer)) else ""
  }

  /** The submitted sign-up form. */
  datatype SignUp = SignUp(
    nombre: string,
    apellidopa: string,
    apellidoma: string,
    correo: string,
    telefono: string,
    password: string,
    tipousuario: Option<string>,
    preguntaSecreta: Option<string>,
    respuestaSecreta: Option<string>)

  /** The record sign-up builds at time `now` with code `code`. */
  function NewAccount(f: SignUp, hash: string -> BcryptHash, code: SixDigit, now: int): (u: Usuario)
    ensures u.Estado == Inactivo && u.Metodo2FA == Correo
    ensures u.TipoUsuario == RequestedTipo(f.tipousuario)
    ensures u.Nombre == Trim(f.nombre) && u.ApellidoP == Trim(f.apellidopa)
    ensures u.ApellidoM == Trim(f.apellidoma) && u.Telefono == Trim(f.telefono)
    ensures u.Password == hash(f.password) && u.Correo == f.correo
    ensures u.VerificacionCodigo == Some(CodeString(code)) && u.VerificacionExpiry == Some(now + CODE_TTL_MS)
    ensures u.MFACode.None? && u.failedAttempts == 0 && u.lockUntil.None?
  {
    WithDefaults(Trim(f.nombre), Trim(f.apellidopa), Trim(f.apellidoma), Trim(f.telefono), f.correo, hash(f.password)).(
      PreguntaSecreta := OrElse(f.preguntaSecreta, Some("")).value,
      RespuestaSecreta := StoredAnswer(f.respuestaSecreta, hash),
      TipoUsuario := RequestedTipo(f.tipousuario),
      VerificacionCodigo := Some(CodeString(code)),
      VerificacionExpiry := Some(now + CODE_TTL_MS))
  }

  datatype RegisterReply =
    | InvalidEmail
    | EmailTaken
    | SaveFailed
    | Registered(email: string)
    | RegisteredDevCode(email: string, verificationCode: string)
    | RegisterConfigMissing
    | RegisterMailFailed
  {
    function Status(): int
    {
      match this
      case InvalidEmail => 400
      case EmailTaken => 400
      case SaveFailed => 500
      case Registered(_) => 201
      case RegisteredDevCode(_, _) => 201
      case RegisterConfigMissing => 500
      case RegisterMailFailed => 500
    }

    /** The account was stored (whatever was then answered). */
    predicate Stored()
    {
      Registered? || RegisteredDevCode? || RegisterConfigMissing? || RegisterMailFailed?
    }
  }

  /** POST / at time `now`: `emailTaken` is whether an account holds the
      address, `newId` the identifier an insert receives. */
  function RegisterOutcome(accounts: map<UserId, Usuario>, f: SignUp, emailTaken: bool, newId: UserId,
                           hash: string -> BcryptHash, code: SixDigit, now: int, env: Env,
                           mailOk: bool): (o: Outcome<RegisterReply>)
    ensures o.reply.Stored() <==>
              RegistrationEmailShape(f.correo) && !emailTaken && SchemaValid(NewAccount(f, hash, code, now))
    ensures o.reply.Stored() ==> o.accounts == accounts[newId := NewAccount(f, hash, code, now)]
    ensures !o.reply.Stored() ==> o.accounts == accounts
    ensures o.reply.RegisteredDevCode? ==> !env.production && o.reply.verificationCode == CodeString(code)
    ensures o.reply.Registered? <==> o.reply.Stored() && env.gmailConfigured && mailOk
    ensures o.reply == InvalidEmail <==> !RegistrationEmailShape(f.correo)
    ensures o.reply == EmailTaken <==> RegistrationEmailShape(f.correo) && emailTaken
    ensures o.reply == SaveFailed <==>
              RegistrationEmailShape(f.correo) && !emailTaken && !SchemaValid(NewAccount(f, hash, code, now))
  {
    var u := NewAccount(f, hash, code, now);
    var refusal := SignUpRefusal(f.correo, emailTaken, u);
    if refusal.Some? then Outcome(refusal.value, accounts)
    else Outcome(StoredReply(f.correo, code, env, mailOk), accounts[newId := u])
  }

  /** The refusal of a sign-up, if any, in the route's order: a malformed
      address, a taken address, then a record the schema refuses on save. */
  function SignUpRefusal(correo: string, emailTaken: bool, u: Usuario): (r: Option<RegisterReply>)
    ensures r.None? <==> RegistrationEmailShape(correo) && !emailTaken && SchemaValid(u)
    ensures r.Some? ==> !r.value.Stored()
    ensures r == Some(EmailTaken) <==> RegistrationEmailShape(correo) && emailTaken
    ensures r == Some(InvalidEmail) <==> !RegistrationEmailShape(correo)
    ensures r == Some(SaveFailed) <==> RegistrationEmailShape(correo) && !emailTaken && !SchemaValid(u)
  {
    if !RegistrationEmailShape(correo) then Some(InvalidEmail)
    else if emailTaken then Some(EmailTaken)
    else if !SchemaValid(u) then Some(SaveFailed)
    else None
  }

  /** The reply once the account is stored: the mail went out, or the code is
      echoed outside production, or 500. */
  function StoredReply(correo: string, code: SixDigit, env: Env, mailOk: bool): (r: RegisterReply)
    ensures r.Stored()
    ensures r.RegisteredDevCode? ==> !env.production && r.verificationCode == CodeString(code)
    ensures r.Registered? <==> env.gmailConfigured && mailOk
  {
    if env.gmailConfigured && mailOk then Registered(correo)
    else if !env.production then RegisteredDevCode(correo, CodeString(code))
    else if !env.gmailConfigured then RegisterConfigMissing
    else RegisterMailFailed
  }

  /** Sign-up never grants the administrator or courier role, never stores an
      active account, and never stores the password or the answer in clear
      (they are stored as digests). */
  lemma SignUpPrivileges(accounts: map<UserId, Usuario>, f: SignUp, emailTaken: bool, newId: UserId,
                         hash: string -> BcryptHash, code: SixDigit, now: int, env: Env, mailOk: bool)
    ensures var o := RegisterOutcome(accounts, f, emailTaken, newId, hash, code, now, env, mailOk);
            o.reply.Stored() ==>
              && o.accounts[newId].TipoUsuario != Administrador
              && o.accounts[newId].TipoUsuario != Repartidor
              && o.accounts[newId].Estado == Inactivo
              && |o.accounts[newId].Password| == 60
              && (o.accounts[newId].RespuestaSecreta == "" || |o.accounts[newId].RespuestaSecreta| == 60)
  {
    var o := RegisterOutcome(accounts, f, emailTaken, newId, hash, code, now, env, mailOk);
    if o.reply.Stored() {
      var u := NewAccount(f, hash, code, now);
      NewAccountDigests(f, hash, code, now);
      assert o.accounts[newId] == u;
    }
  }

  /** The record sign-up builds holds digests, never the password or answer in clear. */
  lemma NewAccountDigests(f: SignUp, hash: string -> BcryptHash, code: SixDigit, now: int)
    ensures var u := NewAccount(f, hash, code, now);
            |u.Password| == 60 && (u.RespuestaSecreta == "" || |u.RespuestaSecreta| == 60)
  {
    var u := NewAccount(f, hash, code, now);
    var a := StoredAnswer(f.respuestaSecreta, hash);
    assert u.RespuestaSecreta == a;
    assert a == "" || a == hash(Trim(f.respuestaSecreta.value));
  }

  /** The form with white space `a` before and `b` after the name, surnames and phone. */
  function Padded(f: SignUp, a: string, b: string): SignUp
  {
    f.(nombre := a + f.nombre + b, apellidopa := a + f.apellidopa + b,
       apellidoma := a + f.apellidoma + b, telefono := a + f.telefono + b)
  }

  /** The schema trims the name, surnames and phone when the record is built,
      so white space around them changes nothing about a sign-up. */
  lemma SignUpIgnoresPadding(accounts: map<UserId, Usuario>, f: SignUp, a: string, b: string, emailTaken: bool,
                             newId: UserId, hash: string -> BcryptHash, code: SixDigit, now: int, env: Env,
                             mailOk: bool)
    requires AllSpace(a) && AllSpace(b)
    ensures RegisterOutcome(accounts, Padded(f, a, b), emailTaken, newId, hash, code, now, env, mailOk)
            == RegisterOutcome(accounts, f, emailTaken, newId, hash, code, now, env, mailOk)
  {
    PaddedRecord(f, a, b, hash, code, now);
  }

  lemma PaddedRecord(f: SignUp, a: string, b: string, hash: string -> BcryptHash, code: SixDigit, now: int)
    requires AllSpace(a) && AllSpace(b)
    ensures NewAccount(Padded(f, a, b), hash, code, now) == NewAccount(f, hash, code, now)
  {
    TrimIgnoresPadding(a, f.nombre, b);
    TrimIgnoresPadding(a, f.apellidopa, b);
    TrimIgnoresPadding(a, f.apellidoma, b);
    TrimIgnoresPadding(a, f.telefono, b);
  }

  /** A name shorter than four characters is refused however much white space
      pads it (`"  Al  "`, say): the length check runs on the trimmed value,
      so nothing is stored. */
  lemma PaddedShortNameRefused(accounts: map<UserId, Usuario>, f: SignUp, a: string, name: string, b: string,
                               emailTaken: bool, newId: UserId, hash: string -> BcryptHash, code: SixDigit,
                               now: int, env: Env, mailOk: bool)
    requires AllSpace(a) && AllSpace(b) && |name| < 4 && f.nombre == a + name + b
    ensures !RegisterOutcome(accounts, f, emailTaken, newId, hash, code, now, env, mailOk).reply.Stored()
  {
    TrimIgnoresPadding(a, name, b);
    var u := NewAccount(f, hash, code, now);
    assert |u.Nombre| < 4;
    assert !SchemaValid(u);
  }

  /** A failed mail delivery in production answers `RegisterMailFailed`
      (status 500), yet the account is stored: its address is now held, so
      signing up again with it gets `EmailTaken`. */
  lemma MailFailureKeepsAccount(accounts: map<UserId, Usuario>, f: SignUp, newId: UserId,
                                hash: string -> BcryptHash, code: SixDigit, now: int, env: Env)
    requires env.production && env.gmailConfigured
    requires RegistrationEmailShape(f.correo) && SchemaValid(NewAccount(f, hash, code, now))
    ensures var o := RegisterOutcome(accounts, f, false, newId, hash, code, now, env, false);
            && o == Outcome(RegisterMailFailed, accounts[newId := NewAccount(f, hash, code, now)])
            && HasEmail(o.accounts, newId, f.correo)
            && RegisterOutcome(o.accounts, f, true, newId + 1, hash, code, now, env, true).reply == EmailTaken
  {
    TakenAddressRefused(accounts[newId := NewAccount(f, hash, code, now)], f, newId + 1, hash, code, now, env, true);
  }

  /** A well-formed address that an account already holds is refused before
      anything is built or stored. */
  lemma TakenAddressRefused(accounts: map<UserId, Usuario>, f: SignUp, newId: UserId,
                            hash: string -> BcryptHash, code: SixDigit, now: int, env: Env, mailOk: bool)
    requires RegistrationEmailShape(f.correo)
    ensures RegisterOutcome(accounts, f, true, newId, hash, code, now, env, mailOk) == Outcome(EmailTaken, accounts)
  {
  }

  // ---------------------------------------------------------------------------
  // GET /verify/:code
  // ---------------------------------------------------------------------------

  /** `findOne({ VerificacionCodigo: code })` may answer `found`: a record
      holding the code, or none when no record holds it. */
  predicate CodeLookup(accounts: map<UserId, Usuario>, code: string, found: Option<UserId>)
  {
    if found.Some? then found.value in accounts && accounts[found.value].VerificacionCodigo == Some(code)
    else forall id :: id in accounts ==> accounts[id].VerificacionCodigo != Some(code)
  }

  datatype VerifyReply = InvalidCode | VerificationExpired | Verified(email: string)
  {
    function Status(): int
    {
      if Verified? then 200 else 400
    }
  }

  /** The record once verified: active, its code and expiry cleared. */
  function Activated(u: Usuario): (v: Usuario)
    ensures SameValidatedFields(u, v) && v.Estado == Activo
    ensures v.VerificacionCodigo.None? && v.VerificacionExpiry.None?
    ensures v.failedAttempts == u.failedAttempts && v.lockUntil == u.lockUntil && v.MFACode == u.MFACode
  {
    u.(Estado := Activo, VerificacionCodigo := None, VerificacionExpiry := None)
  }

  /** GET /verify/:code at time `now`, where `found` is what the lookup of the
      trimmed code answered. A code whose record has no expiry never lapses. */
  function VerifyEmailOutcome(accounts: map<UserId, Usuario>, code: string, found: Option<UserId>,
                              now: int): (o: Outcome<VerifyReply>)
    requires |Trim(code)| == 6 ==> CodeLookup(accounts, Trim(code), found)
    ensures o.reply.Verified? <==>
              && |Trim(code)| == 6 && found.Some?
              && (accounts[found.value].VerificacionExpiry.None? || now <= accounts[found.value].VerificacionExpiry.value)
    ensures o.reply.Verified? ==>
              && o.accounts == accounts[found.value := Activated(accounts[found.value])]
              && o.reply.email == accounts[found.value].Correo
    ensures !o.reply.Verified? ==> o.accounts == accounts
    ensures o.reply == VerificationExpired <==>
              && |Trim(code)| == 6 && found.Some?
              && accounts[found.value].VerificacionExpiry.Some? && now > accounts[found.value].VerificacionExpiry.value
    ensures o.reply == InvalidCode <==> |Trim(code)| != 6 || found.None?
  {
    var vc := Trim(code);
    if code == "" || |vc| != 6 then Outcome(InvalidCode, accounts)
    else if found.None? then Outcome(InvalidCode, accounts)
    else
      var u := accounts[found.value];
      if u.VerificacionExpiry.Some? && now > u.VerificacionExpiry.value then Outcome(VerificationExpired, accounts)
      else Outcome(Verified(u.Correo), accounts[found.value := Activated(u)])
  }

  /** The code a sign-up stored, submitted with or without white space around
      it, activates its account up to and including ten minutes later and is
      refused as expired afterwards; once used it is gone and activates
      nothing. */
  lemma SignUpCodeWindow(accounts: map<UserId, Usuario>, id: UserId, code: SixDigit, submitted: string,
                         t0: int, t1: int)
    requires id in accounts && Trim(submitted) == CodeString(code)
    requires accounts[id].VerificacionCodigo == Some(CodeString(code))
    requires accounts[id].VerificacionExpiry == Some(t0 + CODE_TTL_MS)
    ensures var o := VerifyEmailOutcome(accounts, submitted, Some(id), t1);
            && (o.reply.Verified? <==> t1 <= t0 + CODE_TTL_MS)
            && (t1 > t0 + CODE_TTL_MS ==> o.reply == VerificationExpired)
            && (o.reply.Verified? ==>
                  && o.accounts[id].Estado == Activo
                  && (forall found :: CodeLookup(o.accounts, CodeString(code), found) && found.Some? ==> found.value != id))
  {
  }

  /** A code that does not trim to six characters is refused without a
      lookup, whatever the table. */
  lemma MalformedCodeRefused(accounts: map<UserId, Usuario>, code: string, found: Option<UserId>, now: int)
    requires |Trim(code)| != 6
    ensures VerifyEmailOutcome(accounts, code, found, now) == Outcome(InvalidCode, accounts)
  {
  }

  // ---------------------------------------------------------------------------
  // POST /resend-code
  // ---------------------------------------------------------------------------

  datatype ResendReply =
    | ResendEmailRequired
    | ResendNoAccount
    | AlreadyVerified
    | ResendConfigMissing
    | CodeResent(email: string)
    | CodeResentDev(email: string, verificationCode: string)
    | ResendMailFailed
  {
    function Status(): int
    {
      match this
      case ResendEmailRequired => 400
      case ResendNoAccount => 400
      case AlreadyVerified => 400
      case ResendConfigMissing => 500
      case CodeResent(_) => 200
      case CodeResentDev(_, _) => 200
      case ResendMailFailed => 500
    }
  }

  /** The record holding a new code that expires ten minutes from now. */
  function WithNewCode(u: Usuario, code: SixDigit, now: int): (v: Usuario)
    ensures SameValidatedFields(u, v) && v.Estado == u.Estado
    ensures v.VerificacionCodigo == Some(CodeString(code)) && v.VerificacionExpiry == Some(now + CODE_TTL_MS)
  {
    u.(VerificacionCodigo := Some(CodeString(code)), VerificacionExpiry := Some(now + CODE_TTL_MS))
  }

  /** POST /resend-code for the submitted address (absent when missing) and
      the account `found` by it. */
  function ResendOutcome(accounts: map<UserId, Usuario>, correo: Option<string>, found: Option<UserId>,
                         code: SixDigit, now: int, env: Env, mailOk: bool): (o: Outcome<ResendReply>)
    requires found.Some? ==> found.value in accounts
    ensures var changed := Truthy(correo) && found.Some? && accounts[found.value].Estado != Activo && env.gmailConfigured;
            && (changed ==> o.accounts == accounts[found.value := WithNewCode(accounts[found.value], code, now)])
            && (!changed ==> o.accounts == accounts)
    ensures o.reply.Status() == 200 ==> found.Some? && accounts[found.value].Estado == Inactivo
    ensures o.reply.CodeResentDev? ==> !env.production && !mailOk
    ensures o.reply == ResendEmailRequired <==> !Truthy(correo)
    ensures o.reply == ResendNoAccount <==> Truthy(correo) && found.None?
    ensures o.reply == AlreadyVerified <==> Truthy(correo) && found.Some? && accounts[found.value].Estado == Activo
    ensures o.reply == ResendConfigMissing <==>
              Truthy(correo) && found.Some? && accounts[found.value].Estado != Activo && !env.gmailConfigured
    ensures o.reply.CodeResent? <==>
              Truthy(correo) && found.Some? && accounts[found.value].Estado != Activo && env.gmailConfigured && mailOk
    ensures o.reply == ResendMailFailed <==>
              && Truthy(correo) && found.Some? && accounts[found.value].Estado != Activo && env.gmailConfigured
              && !mailOk && env.production
  {
    if !Truthy(correo) then Outcome(ResendEmailRequired, accounts)
    else if found.None? then Outcome(ResendNoAccount, accounts)
    else
      var u := accounts[found.value];
      if u.Estado == Activo then Outcome(AlreadyVerified, accounts)
      else if !env.gmailConfigured then Outcome(ResendConfigMissing, accounts)
      else
        Outcome(ResentReply(correo.value, code, env, mailOk), accounts[found.value := WithNewCode(u, code, now)])
  }

  /** The reply once the new code is stored: sent by mail, echoed outside
      production, or 500. */
  function ResentReply(email: string, code: SixDigit, env: Env, mailOk: bool): (r: ResendReply)
    ensures r.CodeResent? <==> mailOk
    ensures r.CodeResentDev? <==> !mailOk && !env.production
    ensures r.CodeResentDev? ==> r.verificationCode == CodeString(code)
    ensures r == ResendMailFailed <==> !mailOk && env.production
  {
    if mailOk then CodeResent(email)
    else if !env.production then CodeResentDev(email, CodeString(code))
    else ResendMailFailed
  }

  /** A re-issued code replaces the previous one: the previous code, if
      different, no longer activates this account. */
  lemma ResendReplacesCode(accounts: map<UserId, Usuario>, correo: string, id: UserId,
                           oldCode: SixDigit, code: SixDigit, now: int, env: Env, mailOk: bool, later: int)
    requires id in accounts && accounts[id].Estado == Inactivo && env.gmailConfigured && correo != ""
    requires oldCode != code
    ensures var o := ResendOutcome(accounts, Some(correo), Some(id), code, now, env, mailOk);
            forall found :: CodeLookup(o.accounts, CodeString(oldCode), found) && found.Some? ==> found.value != id
  {
    if CodeString(oldCode) == CodeString(code) {
      CodeStringInjective(oldCode, code);
    }
  }

  // ---------------------------------------------------------------------------
  // The routes over the store
  // ---------------------------------------------------------------------------

  /** POST / with the submitted form. */
  method Register(store: Store, f: SignUp, hash: string -> BcryptHash, code: SixDigit, now: int,
                  env: Env, mailOk: bool) returns (reply: RegisterReply)
    requires store.Valid()
    modifies store
    ensures store.Valid()
    ensures Outcome(reply, store.accounts)
            == RegisterOutcome(old(store.accounts), f, ByEmail(old(store.accounts), f.correo).Some?,
                               old(store.nextId), hash, code, now, env, mailOk)
  {
    if !RegistrationEmailShape(f.correo) {
      return InvalidEmail;
    }
    var existing := store.FindByEmail(f.correo);
    if existing.Some? {
      return EmailTaken;
    }
    var u := NewAccount(f, hash, code, now);
    var created := store.Create(u);
    if created.None? {
      return SaveFailed;
    }
    if !env.gmailConfigured {
      if !env.production {
        return RegisteredDevCode(f.correo, CodeString(code));
      }
      return RegisterConfigMissing;
    }
    if !mailOk {
      if !env.production {
        return RegisteredDevCode(f.correo, CodeString(code));
      }
      return RegisterMailFailed;
    }
    reply := Registered(f.correo);
  }

  /** GET /verify/:code; `matched` is the record the lookup answered, if any. */
  method VerifyEmail(store: Store, code: string, now: int) returns (reply: VerifyReply, matched: Option<UserId>)
    requires store.Valid()
    modifies store
    ensures store.Valid()
    ensures |Trim(code)| == 6 ==> CodeLookup(old(store.accounts), Trim(code), matched)
    ensures Outcome(reply, store.accounts) == VerifyEmailOutcome(old(store.accounts), code, matched, now)
  {
    matched := None;
    if code == "" || |Trim(code)| != 6 {
      return InvalidCode, matched;
    }
    var verificationCode := Trim(code);
    matched := store.FindByVerificationCode(verificationCode);
    if matched.None? {
      return InvalidCode, matched;
    }
    var id := matched.value;
    var u := store.accounts[id];
    if u.VerificacionExpiry.Some? && now > u.VerificacionExpiry.value {
      return VerificationExpired, matched;
    }
    var v := Activated(u);
    ValidityKept(u, v);
    store.Save(id, v);
    reply := Verified(u.Correo);
  }

  /** POST /resend-code for the submitted address. */
  method ResendCode(store: Store, correo: Option<string>, code: SixDigit, now: int, env: Env, mailOk: bool)
    returns (reply: ResendReply)
    requires store.Valid()
    modifies store
    ensures store.Valid()
    ensures Truthy(correo) ==>
              Outcome(reply, store.accounts)
              == ResendOutcome(old(store.accounts), correo, ByEmail(old(store.accounts), correo.value),
                               code, now, env, mailOk)
    ensures !Truthy(correo) ==> reply == ResendEmailRequired && store.accounts == old(store.accounts)
  {
    if correo.None? || correo.value == "" {
      return ResendEmailRequired;
    }
    var found := store.FindByEmail(correo.value);
    if found.None? {
      return ResendNoAccount;
    }
    var id := found.value;
    var u := store.accounts[id];
    if u.Estado == Activo {
      return AlreadyVerified;
    }
    if !env.gmailConfigured {
      return ResendConfigMissing;
    }
    var v := WithNewCode(u, code, now);
    ValidityKept(u, v);
    store.Save(id, v);
    if mailOk {
      reply := CodeResent(correo.value);
    } else if !env.production {
      reply := CodeResentDev(correo.value, CodeString(code));
    } else {
      reply := ResendMailFailed;
    }
  }
}
