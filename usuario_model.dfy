/** The account record (`Usuario`) of backend/models/Usuario.js: its closed
    enumerations and defaults, the validation the schema applies on every save,
    the lazy lock-out state machine over `failedAttempts`/`lockUntil`, and the
    sanitising projection sent to clients. */
module UsuarioModel {
  import opened Common

  /** Identifier the document store assigns (`_id`). */
  type UserId = nat

  datatype TipoUsuario = Cliente | Propietario | Administrador | Repartidor
  datatype Estado = Activo | Inactivo
  datatype Metodo2FA = Correo | SMS | App

  /** A bcrypt digest: always 60 characters long. */
  type BcryptHash = s: string | |s| == 60 witness seq(60, i => '$')

  datatype Usuario = Usuario(
    Nombre: string,
    ApellidoP: string,
    ApellidoM: string,
    Telefono: string,
    Correo: string,
    Password: string,
    PreguntaSecreta: string,
    RespuestaSecreta: string,
    TipoUsuario: TipoUsuario,
    Estado: Estado,
    Metodo2FA: Metodo2FA,
    VerificacionCodigo: Option<string>,
    VerificacionExpiry: Option<int>,
    MFACode: Option<string>,
    MFAExpiry: Option<int>,
    failedAttempts: nat,
    lockUntil: Option<int>)

  /** The role's name as the schema enumeration spells it. */
  function TipoName(t: TipoUsuario): string
  {
    match t
    case Cliente => "Cliente"
    case Propietario => "Propietario"
    case Administrador => "Administrador"
    case Repartidor => "Repartidor"
  }

  /** Reads a role name; anything outside the enumeration is refused. */
  function ParseTipo(s: string): (r: Option<TipoUsuario>)
    ensures r.Some? ==> TipoName(r.value) == s
    ensures forall t :: TipoName(t) == s ==> r == Some(t)
  {
    if s == "Cliente" then Some(Cliente)
    else if s == "Propietario" then Some(Propietario)
    else if s == "Administrador" then Some(Administrador)
    else if s == "Repartidor" then Some(Repartidor)
    else None
  }

  /** A record built from the required fields, every other field at its schema
      default. The caller passes `Nombre`, `ApellidoP`, `ApellidoM` and
      `Telefono` as their `trim: true` setters leave them, that is, after `Trim`. */
  function WithDefaults(nombre: string, apellidoP: string, apellidoM: string, telefono: string,
                        correo: string, password: string): (u: Usuario)
    ensures u.TipoUsuario == Cliente && u.Estado == Inactivo && u.Metodo2FA == Correo
    ensures u.PreguntaSecreta == "" && u.RespuestaSecreta == ""
    ensures u.VerificacionCodigo.None? && u.VerificacionExpiry.None?
    ensures u.MFACode.None? && u.MFAExpiry.None?
    ensures u.failedAttempts == 0 && u.lockUntil.None?
    ensures u.Nombre == nombre && u.ApellidoP == apellidoP && u.ApellidoM == apellidoM
    ensures u.Telefono == telefono && u.Correo == correo && u.Password == password
  {
    Usuario(nombre, apellidoP, apellidoM, telefono, correo, password, "", "",
            Cliente, Inactivo, Correo, None, None, None, None, 0, None)
  }

  // ---------------------------------------------------------------------------
  // Schema validation (run by the store on every save)
  // ---------------------------------------------------------------------------

  /** `/^\d{10}$/`. */
  predicate PhoneShape(s: string)
  {
    |s| == 10 && AllDigits(s)
  }

  /** `/^\S+@\S+\.\S+$/`: no white space, an `@` after at least one character,
      and a `.` with at least one character on each side after the `@` part. */
  predicate SchemaEmailShape(s: string)
  {
    && NoSpace(s)
    && exists a, d | 0 < a && a + 1 < d < |s| - 1 :: s[a] == '@' && s[d] == '.'
  }

  /** The schema's validators: a `required` string must be non-empty, `Nombre`
      has 4 to 50 characters, `Telefono` and `Correo` match their patterns and
      `Password` has at least 8 characters. The enumerations hold by typing. */
  predicate SchemaValid(u: Usuario)
  {
    && 4 <= |u.Nombre| <= 50
    && u.ApellidoP != ""
    && u.ApellidoM != ""
    && PhoneShape(u.Telefono)
    && SchemaEmailShape(u.Correo)
    && |u.Password| >= 8
  }

  /** Two records agree on the fields the schema validates. */
  predicate SameValidatedFields(u: Usuario, v: Usuario)
  {
    && u.Nombre == v.Nombre && u.ApellidoP == v.ApellidoP && u.ApellidoM == v.ApellidoM
    && u.Telefono == v.Telefono && u.Correo == v.Correo && u.Password == v.Password
  }

  /** Updating codes, counters, role, state or the secret question keeps a valid
      record valid, and so does storing a bcrypt digest as the password. */
  lemma ValidityKept(u: Usuario, v: Usuario)
    requires SchemaValid(u)
    requires SameValidatedFields(u, v) || (SameValidatedFields(u, v.(Password := u.Password)) && |v.Password| == 60)
    ensures SchemaValid(v)
  {
  }

  // ---------------------------------------------------------------------------
  // Lock-out policy
  // ---------------------------------------------------------------------------

  /** The `isLocked` virtual: a lock is set and still in the future. */
  predicate IsLocked(u: Usuario, now: int)
  {
    u.lockUntil.Some? && u.lockUntil.value > now
  }

  /** A lock is set and has strictly passed. */
  predicate LockLapsed(u: Usuario, now: int)
  {
    u.lockUntil.Some? && u.lockUntil.value < now
  }

  /** The record after `incLoginAttempts` at time `now`: a lapsed lock restarts
      the count at one; otherwise the count grows by one and the third failure
      engages a fifteen-minute lock unless a lock is already recorded. */
  function FailedAttempt(u: Usuario, now: int): (r: Usuario)
    ensures r == u.(failedAttempts := r.failedAttempts, lockUntil := r.lockUntil)
    ensures r.failedAttempts >= 1
    ensures IsLocked(u, now) ==> r.lockUntil == u.lockUntil
    ensures r.lockUntil.Some? ==> r.lockUntil == u.lockUntil || r.lockUntil == Some(now + LOCK_MS)
  {
    if LockLapsed(u, now) then
      u.(failedAttempts := 1, lockUntil := None)
    else
      var n := u.failedAttempts + 1;
      u.(failedAttempts := n,
         lockUntil := if n >= MAX_FAILED_ATTEMPTS && (u.lockUntil.None? || u.lockUntil.value < now)
                      then Some(now + LOCK_MS) else u.lockUntil)
  }

  /** The record after `resetLoginAttempts`. */
  function Cleared(u: Usuario): (r: Usuario)
    ensures r == u.(failedAttempts := 0, lockUntil := None)
    ensures forall now :: !IsLocked(r, now)
  {
    u.(failedAttempts := 0, lockUntil := None)
  }

  /** A lapsed lock is forgotten by the next failure: the count restarts at one. */
  lemma LapsedLockRestartsCount(u: Usuario, now: int)
    requires LockLapsed(u, now)
    ensures FailedAttempt(u, now) == u.(failedAttempts := 1, lockUntil := None)
  {
  }

  /** Otherwise a failure adds exactly one to the count. */
  lemma FailureCounts(u: Usuario, now: int)
    requires !LockLapsed(u, now)
    ensures FailedAttempt(u, now).failedAttempts == u.failedAttempts + 1
  {
  }

  /** The failure that brings an unlocked account to three engages the lock for
      fifteen minutes from now; a lock already recorded is never extended. */
  lemma ThirdFailureLocks(u: Usuario, now: int)
    requires !LockLapsed(u, now)
    ensures u.failedAttempts + 1 >= MAX_FAILED_ATTEMPTS && u.lockUntil.None?
            ==> FailedAttempt(u, now).lockUntil == Some(now + LOCK_MS)
    ensures u.lockUntil.Some? ==> FailedAttempt(u, now).lockUntil == u.lockUntil
  {
  }

  /** Resetting clears both counters and is idempotent. */
  lemma ClearedIdempotent(u: Usuario)
    ensures Cleared(Cleared(u)) == Cleared(u)
    ensures Cleared(u).failedAttempts == 0 && Cleared(u).lockUntil.None?
  {
  }

  /** Consecutive failed passwords at the instants `ts`, in order. */
  function FailuresAt(u: Usuario, ts: seq<int>): Usuario
    decreases |ts|
  {
    if ts == [] then u else FailuresAt(FailedAttempt(u, ts[0]), ts[1..])
  }

  /** From an unlocked record, failures add up one by one, and the lock appears
      exactly at the failure that makes the count three. */
  lemma {:induction false} FailuresAccumulate(u: Usuario, ts: seq<int>)
    requires u.lockUntil.None?
    requires u.failedAttempts + |ts| <= MAX_FAILED_ATTEMPTS
    ensures FailuresAt(u, ts).failedAttempts == u.failedAttempts + |ts|
    ensures FailuresAt(u, ts).lockUntil
            == if |ts| > 0 && u.failedAttempts + |ts| == MAX_FAILED_ATTEMPTS
               then Some(ts[|ts| - 1] + LOCK_MS) else None
    decreases |ts|
  {
    if |ts| == 1 {
      assert FailuresAt(u, ts) == FailuresAt(FailedAttempt(u, ts[0]), []);
    } else if |ts| > 1 {
      var v := FailedAttempt(u, ts[0]);
      FailuresAccumulate(v, ts[1..]);
      assert ts[1..][|ts[1..]| - 1] == ts[|ts| - 1];
    }
  }

  /** Three failures on a clean record lock it for fifteen minutes from the
      third, whatever the instants of the three failures. */
  lemma {:induction false} ThreeFailuresLock(u: Usuario, ts: seq<int>)
    requires u.failedAttempts == 0 && u.lockUntil.None? && |ts| == 3
    ensures FailuresAt(u, ts).lockUntil == Some(ts[2] + LOCK_MS)
    ensures forall t :: t < ts[2] + LOCK_MS ==> IsLocked(FailuresAt(u, ts), t)
  {
    FailuresAccumulate(u, ts);
  }

  /** A failure at the very millisecond the lock ends neither resets the count
      nor locks again: the count passes three with the account unlocked. */
  lemma FailureAtLockEndOvercounts(u: Usuario, now: int)
    requires u.lockUntil == Some(now) && u.failedAttempts == MAX_FAILED_ATTEMPTS
    ensures FailedAttempt(u, now).failedAttempts == MAX_FAILED_ATTEMPTS + 1
    ensures !IsLocked(FailedAttempt(u, now), now)
  {
  }

  // ---------------------------------------------------------------------------
  // toJSON
  // ---------------------------------------------------------------------------

  /** What `toJSON` leaves of a record: no password digest, no one-time codes or
      their expiries, no lock-out counters. */
  datatype UsuarioJSON = UsuarioJSON(
    Nombre: string,
    ApellidoP: string,
    ApellidoM: string,
    Telefono: string,
    Correo: string,
    PreguntaSecreta: string,
    RespuestaSecreta: string,
    TipoUsuario: TipoUsuario,
    Estado: Estado,
    Metodo2FA: Metodo2FA)

  function ToJSON(u: Usuario): UsuarioJSON
  {
    UsuarioJSON(u.Nombre, u.ApellidoP, u.ApellidoM, u.Telefono, u.Correo,
                u.PreguntaSecreta, u.RespuestaSecreta, u.TipoUsuario, u.Estado, u.Metodo2FA)
  }

  /** Two records agree on every field other than the seven sensitive ones. */
  predicate SamePublicFields(u: Usuario, v: Usuario)
  {
    && u.Nombre == v.Nombre && u.ApellidoP == v.ApellidoP && u.ApellidoM == v.ApellidoM
    && u.Telefono == v.Telefono && u.Correo == v.Correo
    && u.PreguntaSecreta == v.PreguntaSecreta && u.RespuestaSecreta == v.RespuestaSecreta
    && u.TipoUsuario == v.TipoUsuario && u.Estado == v.Estado && u.Metodo2FA == v.Metodo2FA
  }

  /** The projection depends on nothing but the public fields, and keeps every
      one of them: two records have the same projection exactly when they agree
      on the public fields, whatever their passwords, codes and counters. */
  lemma ToJSONKeepsExactlyPublicFields(u: Usuario, v: Usuario)
    ensures ToJSON(u) == ToJSON(v) <==> SamePublicFields(u, v)
  {
  }
}
