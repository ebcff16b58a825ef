/** The registration form: its ordered input checks, the request it sends, the state its
    submit handler steps through, and when its submit button is disabled. */
module RegistrationForm {
  import opened Wrappers
  import opened Text

  const NameMissing := "Podaj swoją nazwę gracza"
  const PasswordTooShort := "Hasło musi mieć co najmniej 6 znaków"
  const PasswordsDiffer := "Hasła nie są identyczne"
  /** Shown for every failed request, whatever the server answered. */
  const NameTaken := "Nazwa gracze jest juz zajęta"

  /** The same threshold as the server's, counted the same way (UTF-16 code units). */
  const MinPasswordLength := 6

  /** The body posted to `/api/auth/register`. */
  datatype RegisterRequest = RegisterRequest(name: string, password: string)

  /** What `onPlayerRegistered` receives. */
  datatype Registered = Registered(playerId: string, playerName: string, token: string)

  /** The checks run before anything is sent, in order; the message of the first that fails. */
  function Validate(name: string, password: string, confirmPassword: string): (error: Option<string>)
    ensures error.None? <==> Trim(name) != [] && Utf16Length(password) >= MinPasswordLength && password == confirmPassword
    ensures Trim(name) == [] ==> error == Some(NameMissing)
    ensures Trim(name) != [] && Utf16Length(password) < MinPasswordLength ==> error == Some(PasswordTooShort)
    ensures (Trim(name) != [] && Utf16Length(password) >= MinPasswordLength && password != confirmPassword)
              ==> error == Some(PasswordsDiffer)
  {
    if Trim(name) == [] then Some(NameMissing)
    else if password == [] || Utf16Length(password) < MinPasswordLength then Some(PasswordTooShort)
    else if password != confirmPassword then Some(PasswordsDiffer)
    else None
  }

  /** The form's state variables. */
  class Form {
    var name: string
    var password: string
    var confirmPassword: string
    var loading: bool
    var error: string

    constructor ()
      ensures name == [] && password == [] && confirmPassword == [] && !loading && error == []
    {
      name, password, confirmPassword, loading, error := [], [], [], false, [];
    }

    /** `handleSubmit` up to its request: a failed check shows its message and sends
        nothing; otherwise `loading` is set, the message cleared, and the trimmed name and
        the unchanged password are sent. The inputs themselves are left as typed. */
    method BeginSubmit() returns (request: Option<RegisterRequest>)
      modifies this`loading, this`error
      ensures old(Validate(name, password, confirmPassword)).Some? ==>
                request.None? && error == old(Validate(name, password, confirmPassword)).value && loading == old(loading)
      ensures old(Validate(name, password, confirmPassword)).None? ==>
                request == Some(RegisterRequest(old(Trim(name)), old(password))) && loading && error == []
    {
      var check := Validate(name, password, confirmPassword);
      var sent := RegisterRequest(Trim(name), password);
      if check.Some? {
        error := check.value;
        request := None;
      } else {
        loading, error := true, [];
        request := Some(sent);
      }
    }

    /** `handleSubmit` after its request: a successful reply goes to `onPlayerRegistered`;
        any failure shows the fixed "name taken" message; `loading` is reset either way. */
    method EndSubmit(reply: Result<Registered, string>) returns (registered: Option<Registered>)
      modifies this`loading, this`error
      ensures !loading
      ensures reply.Ok? ==> registered == Some(reply.value) && error == old(error)
      ensures reply.Err? ==> registered.None? && error == NameTaken
    {
      registered := None;
      if reply.Ok? {
        registered := Some(reply.value);
      } else {
        error := NameTaken;
      }
      loading := false;
    }

    /** The submit button's `disabled`: while loading, or with a blank name or an empty
        password or confirmation. It never blocks a form the checks would accept. */
    function SubmitDisabled(): (disabled: bool)
      reads this
      ensures !loading && Validate(name, password, confirmPassword).None? ==> !disabled
      ensures loading ==> disabled
    {
      loading || Trim(name) == [] || password == [] || confirmPassword == []
    }
  }
}
