/** The request gate of backend/routes/auth.js: `authenticateToken` takes the
    bearer token from the `Authorization` header, refuses it when it is
    missing, revoked, badly signed or expired, or when its account is missing
    or not active, and otherwise admits the request with the account attached;
    `authorizeRoles` then admits only the listed roles. */
module AuthMiddleware {
  import opened Common
  import opened UsuarioModel
  import opened UsuarioStore
  import opened TokenBlacklist
  import opened Jwt

  // ---------------------------------------------------------------------------
  // Header parsing
  // ---------------------------------------------------------------------------

  /** `parts.join(sep)`. */
  function Join(parts: seq<string>, sep: char): string
    requires |parts| >= 1
    decreases |parts|
  {
    if |parts| == 1 then parts[0] else parts[0] + [sep] + Join(parts[1..], sep)
  }

  /** `s.split(sep)` for a one-character separator: the maximal blocks without
      the separator, empty blocks included, that join back to `s`. */
  function Split(s: string, sep: char): (parts: seq<string>)
    ensures |parts| >= 1
    ensures forall i :: 0 <= i < |parts| ==> sep !in parts[i]
    ensures Join(parts, sep) == s
    decreases |s|
  {
    if s == [] then [[]]
    else
      var rest := Split(s[1..], sep);
      if s[0] == sep then
        assert ([[]] + rest)[1..] == rest;
        [[]] + rest
      else
        var parts := [[s[0]] + rest[0]] + rest[1..];
        assert parts[1..] == rest[1..];
        assert |rest| > 1 ==> Join(rest, sep) == rest[0] + [sep] + Join(rest[1..], sep);
        assert s == [s[0]] + s[1..];
        parts
  }

  /** A block without the separator is kept whole. */
  lemma {:induction false} SplitSingle(a: string, sep: char)
    requires sep !in a
    ensures Split(a, sep) == [a]
    decreases |a|
  {
    if a != [] {
      SplitSingle(a[1..], sep);
    }
  }

  /** A separator after a block without one ends that block. */
  lemma {:induction false} SplitFirst(a: string, b: string, sep: char)
    requires sep !in a
    ensures Split(a + [sep] + b, sep) == [a] + Split(b, sep)
    decreases |a|
  {
    var s := a + [sep] + b;
    if a == [] {
      assert s[1..] == b;
    } else {
      assert s[1..] == a[1..] + [sep] + b;
      SplitFirst(a[1..], b, sep);
      assert [a[0]] + a[1..] == a;
    }
  }

  /** `authHeader && authHeader.split(' ')[1]`, kept only when it is truthy:
      the second space-separated field of a non-empty header. */
  function BearerToken(header: Option<string>): (r: Option<string>)
    ensures r.Some? ==> r.value != "" && ' ' !in r.value
    ensures !Truthy(header) ==> r.None?
  {
    if !Truthy(header) then None
    else
      var parts := Split(header.value, ' ');
      if |parts| >= 2 && parts[1] != "" then Some(parts[1]) else None
  }

  /** `Bearer <token>`, with anything after a further space, yields the token;
      a scheme without a following token yields none. */
  lemma BearerTokenOf(scheme: string, token: string, tail: string)
    requires ' ' !in scheme && ' ' !in token && token != ""
    ensures BearerToken(Some(scheme + " " + token)) == Some(token)
    ensures BearerToken(Some(scheme + " " + token + " " + tail)) == Some(token)
    ensures BearerToken(Some(scheme)) == None
  {
    BearerTokenOfPair(scheme, token);
    assert BearerToken(Some(scheme + " " + token + " " + tail)) == Some(token) by {
      SplitFirst(scheme, token + " " + tail, ' ');
      SplitFirst(token, tail, ' ');
      assert scheme + " " + token + " " + tail == scheme + [' '] + (token + [' '] + tail);
    }
    SplitSingle(scheme, ' ');
  }

  /** `scheme token` yields the token. */
  lemma BearerTokenOfPair(scheme: string, token: string)
    requires ' ' !in scheme && ' ' !in token && token != ""
    ensures BearerToken(Some(scheme + " " + token)) == Some(token)
  {
    SplitFirst(scheme, token, ' ');
    SplitSingle(token, ' ');
    assert scheme + " " + token == scheme + [' '] + token;
  }

  // ---------------------------------------------------------------------------
  // authenticateToken
  // ---------------------------------------------------------------------------

  datatype GateError = TokenRequired | TokenRevoked | TokenInvalid | UserInvalid

  /** HTTP status of each refusal: a failed signature or expiry is 403, the
      other three are 401. */
  function GateStatus(e: GateError): (s: int)
    ensures s == 403 <==> e == TokenInvalid
    ensures s == 401 <==> e != TokenInvalid
  {
    if e == TokenInvalid then 403 else 401
  }

  /** Either a refusal, or the request proceeds with the account (`req.user`). */
  datatype GateResult = Rejected(error: GateError) | Admitted(id: UserId, user: Usuario, claims: Claims)

  /** `findOne({ _id: id, Estado: 'Activo' })` finds a record. */
  predicate ActiveAccount(accounts: map<UserId, Usuario>, id: UserId)
  {
    id in accounts && accounts[id].Estado == Activo
  }

  /** The gate's answer given the extracted token, the revocation answer, the
      verification answer and the accounts. The checks run in this order: a
      revoked token is refused as revoked whatever its signature, and a token
      that fails verification is refused whatever its account. */
  function GateDecision(token: Option<string>, revoked: bool, verified: Option<Claims>,
                        accounts: map<UserId, Usuario>): (r: GateResult)
    ensures r.Admitted? <==> token.Some? && !revoked && verified.Some? && ActiveAccount(accounts, verified.value.id)
    ensures r.Admitted? ==> r.claims == verified.value && r.id == r.claims.id && r.user == accounts[r.id]
    ensures token.None? ==> r == Rejected(TokenRequired)
    ensures token.Some? && revoked ==> r == Rejected(TokenRevoked)
    ensures token.Some? && !revoked && verified.None? ==> r == Rejected(TokenInvalid)
    ensures r == Rejected(UserInvalid) <==>
              token.Some? && !revoked && verified.Some? && !ActiveAccount(accounts, verified.value.id)
  {
    if token.None? then Rejected(TokenRequired)
    else if revoked then Rejected(TokenRevoked)
    else if verified.None? then Rejected(TokenInvalid)
    else if !ActiveAccount(accounts, verified.value.id) then Rejected(UserInvalid)
    else Admitted(verified.value.id, accounts[verified.value.id], verified.value)
  }

  /** The gate over the header at time `now`. */
  function Gate(header: Option<string>, now: int, env: Env, check: string -> Option<Claims>,
                entries: map<string, int>, accounts: map<UserId, Usuario>): GateResult
  {
    var token := BearerToken(header);
    GateDecision(token,
                 token.Some? && Revoked(entries, token.value, now),
                 if token.Some? then Verify(check, token.value, now, env.jwtSecretSet) else None,
                 accounts)
  }

  /** Whatever the signature and the account, a revoked bearer token is
      refused with 401, and an admitted request's account is active, its
      token current and correctly signed. */
  lemma GateSoundness(header: Option<string>, now: int, env: Env, check: string -> Option<Claims>,
                      entries: map<string, int>, accounts: map<UserId, Usuario>)
    ensures var token := BearerToken(header);
            token.Some? && Revoked(entries, token.value, now)
            ==> Gate(header, now, env, check, entries, accounts) == Rejected(TokenRevoked)
    ensures var r := Gate(header, now, env, check, entries, accounts);
            r.Admitted? ==>
              && env.jwtSecretSet
              && check(BearerToken(header).value) == Some(r.claims)
              && !Expired(r.claims, now)
              && r.user.Estado == Activo
  {
  }

  /** A bearer token that is not revoked, correctly signed and current, and
      whose account is active, is admitted with its claims. */
  lemma CurrentTokenAdmitted(t: string, c: Claims, now: int, env: Env, check: string -> Option<Claims>,
                             entries: map<string, int>, accounts: map<UserId, Usuario>)
    requires ' ' !in t && t != "" && env.jwtSecretSet && check(t) == Some(c) && !Expired(c, now)
    requires !Revoked(entries, t, now) && ActiveAccount(accounts, c.id)
    ensures Gate(Some("Bearer " + t), now, env, check, entries, accounts) == Admitted(c.id, accounts[c.id], c)
  {
    assert BearerToken(Some("Bearer " + t)) == Some(t) by {
      BearerTokenOfPair("Bearer", t);
      assert "Bearer " + t == "Bearer" + " " + t;
    }
  }

  /** `authenticateToken` on a request with the given header at time `now`; the
      revocation lookup may evict the token's own lapsed entry. */
  method AuthenticateToken(header: Option<string>, now: int, env: Env, check: string -> Option<Claims>,
                           blacklist: Blacklist, store: Store) returns (r: GateResult)
    modifies blacklist
    ensures r == Gate(header, now, env, check, old(blacklist.entries), store.accounts)
    ensures var token := BearerToken(header);
            blacklist.entries == if token.Some? then AfterLookup(old(blacklist.entries), token.value, now)
                                 else old(blacklist.entries)
  {
    var token := BearerToken(header);
    if token.None? {
      return Rejected(TokenRequired);
    }
    var revoked := blacklist.IsBlacklisted(token.value, now);
    if revoked {
      return Rejected(TokenRevoked);
    }
    var decoded := Verify(check, token.value, now, env.jwtSecretSet);
    if decoded.None? {
      return Rejected(TokenInvalid);
    }
    var id := decoded.value.id;
    if !(id in store.accounts && store.accounts[id].Estado == Activo) {
      return Rejected(UserInvalid);
    }
    r := Admitted(id, store.accounts[id], decoded.value);
  }

  // ---------------------------------------------------------------------------
  // authorizeRoles
  // ---------------------------------------------------------------------------

  datatype RoleDecision = NotAuthenticated | Forbidden | Allowed

  function RoleStatus(d: RoleDecision): int
  {
    match d
    case NotAuthenticated => 401
    case Forbidden => 403
    case Allowed => 200
  }

  /** `authorizeRoles(...allowed)` for the request's account, if any. */
  function AuthorizeRoles(user: Option<Usuario>, allowed: seq<TipoUsuario>): (r: RoleDecision)
    ensures r == Allowed <==> user.Some? && user.value.TipoUsuario in allowed
    ensures r == NotAuthenticated <==> user.None?
  {
    if user.None? then NotAuthenticated
    else if user.value.TipoUsuario !in allowed then Forbidden
    else Allowed
  }
}
