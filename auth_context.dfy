/** The browser-side session of frontend/src/Componentes/Autenticacion/AuthContext.js:
    the user and token held in memory and mirrored in browser storage, their
    restoration when the page loads, sign-in, sign-out, and the rule that
    ends a session fifteen minutes after its token was issued. */
module AuthContext {
  import opened Common

  /** The fields of the stored user object that the client reads: the role
      under `TipoUsuario` and, as a fallback, under `tipo`. */
  datatype ClientUser = ClientUser(TipoUsuario: Option<string>, tipo: Option<string>)

  /** Longest a client session lasts after its token's issue instant. */
  const SESSION_MS: int := 15 * MINUTE_MS

  /** `getUserType()`: nothing without a user; otherwise its `TipoUsuario`
      when that is non-empty, else its `tipo`. */
  function UserTypeOf(user: Option<ClientUser>): (r: Option<string>)
    ensures user.None? ==> r.None?
    ensures user.Some? && Truthy(user.value.TipoUsuario) ==> r == user.value.TipoUsuario
    ensures user.Some? && !Truthy(user.value.TipoUsuario) ==> r == user.value.tipo
  {
    if user.None? then None else OrElse(user.value.TipoUsuario, user.value.tipo)
  }

  /** `isAuthenticated()`: both a user and a non-empty token are held. */
  predicate IsAuthenticated(user: Option<ClientUser>, token: Option<string>)
  {
    user.Some? && Truthy(token)
  }

  /** What the session effect does for the current token. */
  datatype SessionAction = Idle | LogoutNow | LogoutAfter(ms: int)

  /** The issue instant in milliseconds; a token without `iat` counts as
      issued at time zero. */
  function IssuedAtMs(iat: Option<int>): int
  {
    if iat.Some? then iat.value * SECOND_MS else 0
  }

  /** The session effect at time `now`. `decoded` is the token's decoded
      `iat` claim, or None when the token cannot be decoded. The session ends
      at once when it cannot be decoded or fifteen minutes have passed since
      issue; otherwise the sign-out is scheduled for the moment they will have
      passed. */
  function SessionCheck(token: Option<string>, decoded: Option<Option<int>>, now: int): (a: SessionAction)
    ensures a == Idle <==> !Truthy(token)
    ensures a == LogoutNow <==>
              Truthy(token) && (decoded.None? || now - IssuedAtMs(decoded.value) >= SESSION_MS)
    ensures a.LogoutAfter? ==>
              decoded.Some? && 0 < a.ms && now + a.ms == IssuedAtMs(decoded.value) + SESSION_MS
  {
    if !Truthy(token) then Idle
    else if decoded.None? then LogoutNow
    else
      var elapsed := now - IssuedAtMs(decoded.value);
      if elapsed >= SESSION_MS then LogoutNow else LogoutAfter(SESSION_MS - elapsed)
  }

  /** Whenever it runs, the effect ends a decodable token's session at the
      same instant, fifteen minutes after issue: a scheduled sign-out falls
      due then, and any later check signs out at once. */
  lemma SessionDeadlineFixed(token: Option<string>, iat: Option<int>, now1: int, now2: int)
    requires Truthy(token) && now1 <= now2
    ensures var a1 := SessionCheck(token, Some(iat), now1);
            a1.LogoutAfter? && now2 >= now1 + a1.ms ==> SessionCheck(token, Some(iat), now2) == LogoutNow
    ensures var a2 := SessionCheck(token, Some(iat), now2);
            a2.LogoutAfter? ==> SessionCheck(token, Some(iat), now1) == LogoutAfter(a2.ms + (now2 - now1))
  {
  }

  /** The client's session state and its copy in browser storage. */
  class Session {
    var user: Option<ClientUser>
    var token: Option<string>
    var isLoading: bool
    var storedUser: Option<ClientUser>
    var storedToken: Option<string>

    /** A freshly mounted provider: nothing in memory, still loading, storage
        as the browser holds it. */
    constructor (storedUser: Option<ClientUser>, storedToken: Option<string>)
      ensures user.None? && token.None? && isLoading
      ensures this.storedUser == storedUser && this.storedToken == storedToken
    {
      user := None;
      token := None;
      isLoading := true;
      this.storedUser := storedUser;
      this.storedToken := storedToken;
    }

    /** The mount effect: the stored session is taken over only when both a
        stored user and a non-empty stored token exist; loading ends either
        way. */
    method Restore()
      modifies this
      ensures old(storedUser).Some? && Truthy(old(storedToken)) ==>
                user == old(storedUser) && token == old(storedToken)
      ensures !(old(storedUser).Some? && Truthy(old(storedToken))) ==>
                user == old(user) && token == old(token)
      ensures !isLoading && storedUser == old(storedUser) && storedToken == old(storedToken)
    {
      if storedUser.Some? && Truthy(storedToken) {
        user := storedUser;
        token := storedToken;
      }
      isLoading := false;
    }

    /** `login(userData, authToken)`: held in memory and in storage. */
    method Login(userData: ClientUser, authToken: string)
      modifies this
      ensures user == Some(userData) && token == Some(authToken)
      ensures storedUser == Some(userData) && storedToken == Some(authToken)
      ensures isLoading == old(isLoading)
      ensures IsAuthenticated(user, token) <==> authToken != ""
    {
      user := Some(userData);
      token := Some(authToken);
      storedUser := Some(userData);
      storedToken := Some(authToken);
    }

    /** `logout()`: the token held in memory, or else the stored one, is sent
        for revocation when non-empty (`sent`); whether that call succeeds,
        memory and storage end up empty. */
    method Logout() returns (sent: Option<string>)
      modifies this
      ensures var current := OrElse(old(token), old(storedToken));
              sent == if Truthy(current) then current else None
      ensures user.None? && token.None? && storedUser.None? && storedToken.None?
      ensures isLoading == old(isLoading)
      ensures !IsAuthenticated(user, token) && UserTypeOf(user).None?
    {
      var current := if Truthy(token) then token else storedToken;
      sent := if Truthy(current) then current else None;
      user := None;
      token := None;
      storedUser := None;
      storedToken := None;
    }

    /** The session effect for the held token at time `now`, given the decoded
        `iat` (None when decoding fails); signs out when it decides to. */
    method CheckSession(decoded: Option<Option<int>>, now: int) returns (action: SessionAction, sent: Option<string>)
      modifies this
      ensures action == SessionCheck(old(token), decoded, now)
      ensures action == LogoutNow ==> user.None? && token.None? && storedUser.None? && storedToken.None?
      ensures action == LogoutNow ==> sent == old(token)
      ensures action != LogoutNow ==>
                sent.None? && user == old(user) && token == old(token)
                && storedUser == old(storedUser) && storedToken == old(storedToken)
      ensures isLoading == old(isLoading)
    {
      action := SessionCheck(token, decoded, now);
      sent := None;
      if action == LogoutNow {
        sent := Logout();
      }
    }
  }
}
