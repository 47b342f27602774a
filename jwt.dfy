/** The session token as the backend issues and checks it (HS256, lifetime
    24 h): the claims it carries and the clock rule by which a verified token
    is still current. Signing and signature checking are cryptography and are
    passed to the routes as functions. */
module Jwt {
  import opened Common
  import opened UsuarioModel

  /** Lifetime of a session token in seconds (`expiresIn: '24h'`). */
  const TOKEN_LIFETIME_S: int := 24 * 60 * 60

  /** The payload of a session token: the account, its address and role, the
      issue instant and the expiry instant in whole seconds. `exp` is absent
      for a token signed without a lifetime. */
  datatype Claims = Claims(id: UserId, correo: string, tipo: TipoUsuario, iat: int, exp: Option<int>)

  /** The clock as the token library reads it: whole seconds, rounded down. */
  function Seconds(now: int): (s: int)
    ensures s * SECOND_MS <= now < (s + 1) * SECOND_MS
  {
    now / SECOND_MS
  }

  /** The claims `jwt.sign` stamps at time `now` for an account. */
  function Issue(id: UserId, correo: string, tipo: TipoUsuario, now: int): (c: Claims)
    ensures c.id == id && c.correo == correo && c.tipo == tipo
    ensures c.iat * SECOND_MS <= now < (c.iat + 1) * SECOND_MS
    ensures c.exp == Some(c.iat + TOKEN_LIFETIME_S)
  {
    var iat := Seconds(now);
    Claims(id, correo, tipo, iat, Some(iat + TOKEN_LIFETIME_S))
  }

  /** The library refuses a token whose expiry second has been reached. */
  predicate Expired(c: Claims, now: int)
  {
    c.exp.Some? && Seconds(now) >= c.exp.value
  }

  /** `jwt.verify(token, secret)` at time `now`: refused without a secret,
      with a bad signature, or once expired; otherwise the claims. */
  function Verify(check: string -> Option<Claims>, token: string, now: int, secretSet: bool): (r: Option<Claims>)
    ensures r.Some? <==> secretSet && check(token).Some? && !Expired(check(token).value, now)
    ensures r.Some? ==> r == check(token)
  {
    if !secretSet then None
    else match check(token)
      case None => None
      case Some(c) => if Expired(c, now) then None else Some(c)
  }

  /** A freshly issued token is current exactly until its expiry second
      begins, which is between 24 h minus one second and 24 h after issue. */
  lemma {:induction false} IssuedTokenLifetime(id: UserId, correo: string, tipo: TipoUsuario, now: int, later: int)
    ensures var c := Issue(id, correo, tipo, now);
            && (!Expired(c, later) <==> later < c.exp.value * SECOND_MS)
            && now + DAY_MS - SECOND_MS < c.exp.value * SECOND_MS <= now + DAY_MS
  {
    var c := Issue(id, correo, tipo, now);
    var s := Seconds(later);
    if later < c.exp.value * SECOND_MS {
      assert s * SECOND_MS <= later;
      assert s < c.exp.value;
    } else {
      assert later < (s + 1) * SECOND_MS;
      assert s >= c.exp.value;
    }
  }
}
