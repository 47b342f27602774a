/** The two-step sign-in form of frontend/src/Componentes/Autenticacion/Login.jsx:
    step one sends address and password and moves on when the server names
    the account; step two sends the six-character code, hands the returned
    session to the client session and picks the landing page by role. */
module LoginForm {
  import opened Common
  import opened AuthContext

  datatype FormData = FormData(correo: string, password: string, userId: string, mfaCode: string)

  const EmptyForm := FormData("", "", "", "")

  /** The credentials step is sent only with both fields non-empty. */
  predicate CredentialsReady(f: FormData)
  {
    f.correo != "" && f.password != ""
  }

  /** The code step is sent only with a code of exactly six characters. */
  predicate MfaReady(f: FormData)
  {
    f.mfaCode != "" && |f.mfaCode| == 6
  }

  /** The landing page by role: administrators to `/admin`, delivery staff to
      `/recepcion`, everyone else, unknown or missing roles included, to
      `/cliente`. */
  function LandingPath(userType: Option<string>): (p: string)
    ensures p == "/admin" <==> userType == Some("Administrador")
    ensures p == "/recepcion" <==> userType == Some("Repartidor")
    ensures p != "/admin" && p != "/recepcion" ==> p == "/cliente"
  {
    if userType == Some("Cliente") then "/cliente"
    else if userType == Some("Propietario") then "/cliente"
    else if userType == Some("Repartidor") then "/recepcion"
    else if userType == Some("Administrador") then "/admin"
    else "/cliente"
  }

  /** A session reply from the code step: token and user object. */
  datatype MfaSession = MfaSession(token: string, user: ClientUser)

  /** The form's state: the current step and the field values. */
  class Form {
    var step: nat
    var data: FormData

    constructor ()
      ensures step == 1 && data == EmptyForm
    {
      step := 1;
      data := EmptyForm;
    }

    /** Typing into a field: the address and the code are kept trimmed, the
        password as typed; any other field is left alone. */
    method Change(name: string, value: string)
      modifies this
      ensures step == old(step)
      ensures data == (if name == "correo" then old(data).(correo := Trim(value))
                       else if name == "mfaCode" then old(data).(mfaCode := Trim(value))
                       else if name == "password" then old(data).(password := value)
                       else if name == "userId" then old(data).(userId := value)
                       else old(data))
    {
      if name == "correo" {
        data := data.(correo := Trim(value));
      } else if name == "mfaCode" {
        data := data.(mfaCode := Trim(value));
      } else if name == "password" {
        data := data.(password := value);
      } else if name == "userId" {
        data := data.(userId := value);
      }
    }

    /** Submitting step one. `sent` says whether the request went out;
        `replyUserId` is the `userId` of the server's reply (None for a
        refusal). A non-empty one is kept and the form moves to step two. */
    method SubmitCredentials(replyUserId: Option<string>) returns (sent: bool)
      modifies this
      ensures sent <==> CredentialsReady(old(data))
      ensures sent && Truthy(replyUserId) ==> step == 2 && data == old(data).(userId := replyUserId.value)
      ensures !(sent && Truthy(replyUserId)) ==> step == old(step) && data == old(data)
    {
      if !(data.correo != "" && data.password != "") {
        return false;
      }
      sent := true;
      if replyUserId.Some? && replyUserId.value != "" {
        data := data.(userId := replyUserId.value);
        step := 2;
      }
    }

    /** Submitting step two. `reply` is the server's session when its reply
        carries a non-empty token and a user. On success the session is
        handed to the client session and `redirect` names the landing page. */
    method SubmitMfa(reply: Option<MfaSession>, session: Session) returns (sent: bool, redirect: Option<string>)
      modifies session
      ensures sent <==> MfaReady(data)
      ensures redirect.Some? <==> sent && reply.Some? && reply.value.token != ""
      ensures redirect.Some? ==>
                redirect.value == LandingPath(UserTypeOf(Some(reply.value.user)))
                && session.user == Some(reply.value.user) && session.token == Some(reply.value.token)
                && session.storedUser == session.user && session.storedToken == session.token
                && IsAuthenticated(session.user, session.token)
      ensures redirect.None? ==>
                session.user == old(session.user) && session.token == old(session.token)
                && session.storedUser == old(session.storedUser) && session.storedToken == old(session.storedToken)
      ensures session.isLoading == old(session.isLoading)
    {
      if data.mfaCode == "" || |data.mfaCode| != 6 {
        return false, None;
      }
      sent := true;
      if reply.None? || reply.value.token == "" {
        return sent, None;
      }
      session.Login(reply.value.user, reply.value.token);
      var userType := OrElse(reply.value.user.TipoUsuario, reply.value.user.tipo);
      redirect := Some(LandingPath(userType));
    }

    /** `goBack`: back to step one with every field emptied. */
    method GoBack()
      modifies this
      ensures step == 1 && data == EmptyForm
    {
      step := 1;
      data := EmptyForm;
    }
  }
}
