/** The route guard of frontend/src/Componentes/Autenticacion/ProtectedRoute.jsx:
    a signed-out visitor is sent to the sign-in page remembering where they
    were going; a signed-in user whose role is not among the route's allowed
    roles is sent there too, marked unauthorized. */
module ProtectedRoute {
  import opened Common
  import opened AuthContext

  datatype RouteResult = RenderChildren | RedirectToLogin(from: string, unauthorized: bool)

  /** `allowedRoles.includes(getUserType())`: a role is held and listed. */
  predicate RoleListed(user: Option<ClientUser>, roles: seq<string>)
  {
    var t := UserTypeOf(user);
    t.Some? && t.value in roles
  }

  /** The guard for the session (`user`, `token`) on route `pathname`;
      `allowedRoles` is None when the route lists none. Authentication is
      decided first, roles only for a signed-in user. */
  function Guard(user: Option<ClientUser>, token: Option<string>, allowedRoles: Option<seq<string>>,
                 pathname: string): (r: RouteResult)
    ensures !IsAuthenticated(user, token) ==> r == RedirectToLogin(pathname, false)
    ensures r == RenderChildren <==>
              IsAuthenticated(user, token)
              && (allowedRoles.None? || |allowedRoles.value| == 0 || RoleListed(user, allowedRoles.value))
    ensures IsAuthenticated(user, token) && r != RenderChildren ==> r == RedirectToLogin(pathname, true)
  {
    if !IsAuthenticated(user, token) then RedirectToLogin(pathname, false)
    else if allowedRoles.Some? && |allowedRoles.value| > 0 && !RoleListed(user, allowedRoles.value) then
      RedirectToLogin(pathname, true)
    else RenderChildren
  }

  /** Without a role list any signed-in user gets through, and a signed-out
      visitor never does, whatever the roles. */
  lemma GuardWithoutRoles(user: Option<ClientUser>, token: Option<string>, roles: seq<string>, pathname: string)
    ensures Guard(user, token, None, pathname) == Guard(user, token, Some([]), pathname)
    ensures Guard(user, token, None, pathname) == RenderChildren <==> IsAuthenticated(user, token)
    ensures Guard(user, token, Some(roles), pathname) == RenderChildren ==>
              Guard(user, token, None, pathname) == RenderChildren
  {
  }
}
