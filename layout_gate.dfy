/** The page frame of src/Componentes/Layout/LayoutEncabezado.jsx: nothing is
    decided while the session loads; the `/admin`, `/cliente` and
    `/repartidor`/`/recepcion` areas each admit only their roles and send
    anyone else home; every other path is public. */
module LayoutGate {
  import opened Common
  import opened AuthContext

  datatype Header = AdminHeader | ClienteHeader | PublicHeader | NoHeader
  datatype Footer = AdminFooter | ClienteFooter | RepartidorFooter | PublicFooter
  datatype LayoutResult = Loading | RedirectHome | Framed(header: Header, footer: Footer)

  /** The roles an area admits; None for a public path. */
  function AreaRoles(pathname: string): (r: Option<set<string>>)
    ensures StartsWith(pathname, "/admin") ==> r == Some({"Administrador"})
    ensures r.None? <==>
              !StartsWith(pathname, "/admin") && !StartsWith(pathname, "/cliente")
              && !StartsWith(pathname, "/repartidor") && !StartsWith(pathname, "/recepcion")
  {
    if StartsWith(pathname, "/admin") then Some({"Administrador"})
    else if StartsWith(pathname, "/cliente") then Some({"Cliente", "Propietario"})
    else if StartsWith(pathname, "/repartidor") || StartsWith(pathname, "/recepcion") then Some({"Repartidor"})
    else None
  }

  /** The frame for `pathname` given the session's loading flag and user. */
  function Layout(isLoading: bool, user: Option<ClientUser>, pathname: string): (r: LayoutResult)
    ensures isLoading <==> r == Loading
    ensures !isLoading && AreaRoles(pathname).None? ==> r == Framed(PublicHeader, PublicFooter)
    ensures !isLoading && AreaRoles(pathname).Some? ==>
              (r == RedirectHome <==>
                 user.None? || UserTypeOf(user).None? || UserTypeOf(user).value !in AreaRoles(pathname).value)
    ensures r == Framed(AdminHeader, AdminFooter) <==>
              !isLoading && StartsWith(pathname, "/admin") && UserTypeOf(user) == Some("Administrador")
  {
    if isLoading then Loading
    else
      var userType := UserTypeOf(user);
      if StartsWith(pathname, "/admin") then
        if user.None? || userType != Some("Administrador") then RedirectHome
        else Framed(AdminHeader, AdminFooter)
      else if StartsWith(pathname, "/cliente") then
        if user.None? || (userType != Some("Cliente") && userType != Some("Propietario")) then RedirectHome
        else Framed(ClienteHeader, ClienteFooter)
      else if StartsWith(pathname, "/repartidor") || StartsWith(pathname, "/recepcion") then
        if user.None? || userType != Some("Repartidor") then RedirectHome
        else Framed(NoHeader, RepartidorFooter)
      else Framed(PublicHeader, PublicFooter)
  }

  /** A public path is framed the same for everyone, signed in or not. */
  lemma PublicPathsIgnoreUser(user: Option<ClientUser>, pathname: string)
    requires AreaRoles(pathname).None?
    ensures Layout(false, user, pathname) == Layout(false, None, pathname)
  {
  }
}
