/** How the client forms and the server's handlers fit together: what a form lets through
    the server accepts, and a player registered through the form can log in through the
    login form with what they typed. */
module Agreement {
  import opened Wrappers
  import opened Text
  import RegistrationForm
  import LoginFormView
  import Server
  import Records

  /** A registration the form's checks accept passes the server's checks for a blank name
      and a short password; the server stores the name exactly as sent, and the login form
      accepts the same typed name and password and sends that stored name. */
  lemma RegistrationFormAgreesWithServer(typedName: string, password: string, confirmPassword: string)
    requires RegistrationForm.Validate(typedName, password, confirmPassword).None?
    ensures var sent := RegistrationForm.RegisterRequest(Trim(typedName), password);
      && !Server.Blank(Some(sent.name)) && Trim(sent.name) != []
      && !Server.Blank(Some(sent.password)) && Utf16Length(sent.password) >= Server.MinPasswordLength
      && Trim(sent.name) == sent.name
      && LoginFormView.Validate(typedName, password).None?
      && LoginFormView.LoginRequest(Trim(typedName), password).name == Trim(sent.name)
  {
    TrimIdempotent(typedName);
  }

  /** A login the form's check accepts never draws the server's 400 for a missing name or
      password: both fields it sends are non-empty. */
  lemma LoginFormPassesPresenceCheck(typedName: string, password: string)
    requires LoginFormView.Validate(typedName, password).None?
    ensures var sent := LoginFormView.LoginRequest(Trim(typedName), password);
      !Server.Blank(Some(sent.name)) && !Server.Blank(Some(sent.password)) && Trim(sent.name) == sent.name
  {
    TrimIdempotent(typedName);
  }

  /** In a consistent players document a name belongs to one player only. */
  lemma NamesIdentifyPlayers(players: map<string, Records.Player>, order: seq<string>, a: string, b: string)
    requires Server.StoreConsistent(players, order)
    requires a in players && b in players && players[a].name == players[b].name
    ensures a == b
  {
  }

  /** A player registers through the registration form and then logs in through the login
      form with the same typed name and password: when the registration succeeds, so does
      the login, and it answers with the new player's id and stored name; the only way the
      registration can fail is a name already taken. */
  method RegisterThenLogin(server: Server.GameServer, typedName: string, password: string,
                           newId: string, registerToken: string, loginToken: string, now: int)
    returns (registered: Result<Server.AuthReply, Server.ApiError>, loggedIn: Result<Server.AuthReply, Server.ApiError>)
    requires server.Valid() && newId !in server.players
    requires RegistrationForm.Validate(typedName, password, password).None?
    modifies server
    ensures server.Valid()
    ensures registered.Ok? ==> loggedIn == Ok(Server.AuthReply(newId, Trim(typedName), loginToken))
    ensures registered.Err? ==> registered == Err(Server.NameTaken)
  {
    RegistrationFormAgreesWithServer(typedName, password, password);
    var name := Trim(typedName);
    Server.RegisterOutcomeCases(server.players, server.order, Some(name), Some(password), newId, registerToken);
    registered := server.Register(Some(name), Some(password), newId, registerToken, now);
    loggedIn := server.Login(Some(name), Some(password), loginToken);
    if registered.Ok? {
      assert server.players[newId].name == name && server.players[newId].password == password;
      NamesIdentifyPlayers(server.players, server.order, loggedIn.value.playerId, newId);
    }
  }
}
