/** The login form: its input check, the request it sends, how it turns the reply into
    `onLogin` or an error message, and when its submit button is disabled. */
module LoginFormView {
  import opened Wrappers
  import opened Text

  const CredentialsMissing := "Podaj nazwę użytkownika i hasło"
  const LoginFailed := "Błąd logowania"
  const BadCredentialsFallback := "Nieprawidłowa nazwa użytkownika lub hasło"

  /** The body posted to `/api/auth/login`. */
  datatype LoginRequest = LoginRequest(name: string, password: string)

  /** The parsed JSON body of the reply. */
  datatype LoginBody = LoginBody(playerId: string, playerName: string, error: Option<string>)

  /** How the request ended: the server answered with `ok` status or not, or fetching or
      parsing the body threw an error with `message`. */
  datatype LoginReply = Answered(ok: bool, body: LoginBody) | Threw(message: string)

  /** What `onLogin` receives: the id and the name, no token. */
  datatype LoggedIn = LoggedIn(playerId: string, playerName: string)

  /** The check run before anything is sent. */
  function Validate(name: string, password: string): (error: Option<string>)
    ensures error.None? <==> Trim(name) != [] && password != []
    ensures error.Some? ==> error.value == CredentialsMissing
  {
    if Trim(name) == [] || password == [] then Some(CredentialsMissing) else None
  }

  /** The message a failed login shows. A non-ok answer throws the server's `error` text,
      or "Błąd logowania" when it has none; the handler then shows the thrown message, or
      the bad-credentials text when that message is empty. So an answered failure shows
      the server's text or "Błąd logowania", never the bad-credentials fallback. */
  function FailureMessage(reply: LoginReply): (message: string)
    requires !(reply.Answered? && reply.ok)
    ensures message != []
    ensures reply.Answered? && reply.body.error.Some? && reply.body.error.value != [] ==> message == reply.body.error.value
    ensures reply.Answered? && (reply.body.error.None? || reply.body.error.value == []) ==> message == LoginFailed
    ensures reply.Threw? ==> message == if reply.message != [] then reply.message else BadCredentialsFallback
  {
    var thrown :=
      if reply.Threw? then reply.message
      else if reply.body.error.Some? && reply.body.error.value != [] then reply.body.error.value
      else LoginFailed;
    if thrown != [] then thrown else BadCredentialsFallback
  }

  /** The form's state variables. */
  class Form {
    var name: string
    var password: string
    var loading: bool
    var error: string

    constructor ()
      ensures name == [] && password == [] && !loading && error == []
    {
      name, password, loading, error := [], [], false, [];
    }

    /** `handleSubmit` up to its request: a blank name or an empty password shows the
        message and sends nothing; otherwise `loading` is set, the message cleared, and the
        trimmed name and the unchanged password are sent. */
    method BeginSubmit() returns (request: Option<LoginRequest>)
      modifies this`loading, this`error
      ensures old(Validate(name, password)).Some? ==>
                request.None? && error == CredentialsMissing && loading == old(loading)
      ensures old(Validate(name, password)).None? ==>
                request == Some(LoginRequest(old(Trim(name)), old(password))) && loading && error == []
    {
      var check := Validate(name, password);
      var sent := LoginRequest(Trim(name), password);
      if check.Some? {
        error := check.value;
        request := None;
      } else {
        loading, error := true, [];
        request := Some(sent);
      }
    }

    /** `handleSubmit` after its request: an ok answer hands the id and name to `onLogin`;
        any failure shows its message; `loading` is reset either way. */
    method EndSubmit(reply: LoginReply) returns (loggedIn: Option<LoggedIn>)
      modifies this`loading, this`error
      ensures !loading
      ensures reply.Answered? && reply.ok ==>
                loggedIn == Some(LoggedIn(reply.body.playerId, reply.body.playerName)) && error == old(error)
      ensures !(reply.Answered? && reply.ok) ==> loggedIn.None? && error == FailureMessage(reply)
    {
      loggedIn := None;
      if reply.Answered? && reply.ok {
        loggedIn := Some(LoggedIn(reply.body.playerId, reply.body.playerName));
      } else {
        error := FailureMessage(reply);
      }
      loading := false;
    }

    /** The submit button's `disabled`: exactly while loading or when the check would fail. */
    function SubmitDisabled(): (disabled: bool)
      reads this
      ensures disabled <==> loading || Validate(name, password).Some?
    {
      loading || Trim(name) == [] || password == []
    }
  }
}
