/** The HTTP handlers of the game server over its three pieces of state: the players
    document, the games document and the in-memory `activeGames` registry. Each request
    is handled to completion before the next one starts. */
module Server {
  import opened Wrappers
  import opened Text
  import opened Sorting
  import opened Dice
  import opened Records
  import opened Ranking

  /** An error response: its HTTP status and the `error` text. */
  datatype ApiError = ApiError(status: nat, message: string)

  const NameRequired := ApiError(400, "Nazwa gracza jest wymagana")
  const PasswordTooShort := ApiError(400, "Hasło musi mieć co najmniej 6 znaków")
  const NameTaken := ApiError(400, "Nazwa gracza jest już zajęta")
  const CredentialsRequired := ApiError(400, "Nazwa użytkownika i hasło są wymagane")
  const BadCredentials := ApiError(401, "Nieprawidłowa nazwa użytkownika lub hasło")
  const UnknownPlayer := ApiError(404, "Gracz nie znaleziony")
  const PlayerNotFound := ApiError(404, "Player not found")

  /** The shortest password registration accepts, in UTF-16 code units. */
  const MinPasswordLength := 6

  /** The body of a successful registration or login. */
  datatype AuthReply = AuthReply(playerId: string, playerName: string, token: string)

  /** The body of a successful finish: the stored record and the `result` summary. */
  datatype FinishReply = FinishReply(game: GameRecord, playerTotal: int, computerTotal: int, winner: Winner)

  /** `!x` for a request field: missing or the empty string, the only falsy string. A
      field that is not blank once trimmed is never blank. */
  function Blank(x: Option<string>): (blank: bool)
    ensures x.None? ==> blank
    ensures x.Some? ==> (blank <==> |x.value| == 0)
    ensures x.Some? && Trim(x.value) != [] ==> !blank
  {
    x.None? || x.value == []
  }

  /** `verifyPassword`: the submitted password equals the stored one, compared as plain text
      code unit by code unit, with no hashing. */
  function VerifyPassword(password: string, stored: string): (ok: bool)
    ensures ok <==> |password| == |stored| && forall i :: 0 <= i < |password| ==> password[i] == stored[i]
  {
    password == stored
  }

  /** `Object.values(players).find(p => p.name === name)`: the first entry, in document
      order, whose name is exactly `name`. */
  function FindByName(players: map<string, Player>, order: seq<string>, name: string): (found: Option<Player>)
    requires forall i :: 0 <= i < |order| ==> order[i] in players
    ensures found.None? <==> forall i :: 0 <= i < |order| ==> players[order[i]].name != name
    ensures found.Some? ==> exists i :: 0 <= i < |order| && players[order[i]] == found.value && found.value.name == name
                                      && forall j :: 0 <= j < i ==> players[order[j]].name != name
  {
    if order == [] then None
    else if players[order[0]].name == name then Some(players[order[0]])
    else
      var found := FindByName(players, order[1..], name);
      assert found.Some? ==> exists i :: 0 <= i < |order| && players[order[i]] == found.value && found.value.name == name
                                         && forall j :: 0 <= j < i ==> players[order[j]].name != name by {
        if found.Some? {
          var i :| 0 <= i < |order| - 1 && players[order[1..][i]] == found.value && found.value.name == name
                   && forall j :: 0 <= j < i ==> players[order[1..][j]].name != name;
          assert players[order[i + 1]] == found.value;
          assert forall j :: 1 <= j < i + 1 ==> players[order[j]].name != name by {
            forall j | 1 <= j < i + 1 ensures players[order[j]].name != name {
              assert order[j] == order[1..][j - 1];
            }
          }
        }
      }
      found
  }

  /** The players document: `order` lists its keys in insertion order, each once; every
      entry is stored under its own id; no two players share a name. */
  ghost predicate StoreConsistent(players: map<string, Player>, order: seq<string>) {
    && Distinct(order)
    && (forall k :: k in players <==> k in order)
    && (forall k :: k in players ==> players[k].id == k)
    && (forall a, b :: a in players && b in players && a != b ==> players[a].name != players[b].name)
  }

  /** Every record of the games document belongs to a registered player, carries that
      player's name and is well formed. */
  ghost predicate LogConsistent(players: map<string, Player>, games: seq<GameRecord>) {
    forall i :: 0 <= i < |games| ==>
      && games[i].playerId in players
      && games[i].playerName == players[games[i].playerId].name
      && WellFormed(games[i])
  }

  /** Every player's counters are exactly the tally of that player's records in the log. */
  ghost predicate StatsMatchLog(players: map<string, Player>, games: seq<GameRecord>) {
    forall k :: k in players ==> Agrees(players[k], Tally(games, k))
  }

  /** Every active game is stored under its own id, belongs to a registered player, carries
      that player's name, and still has empty roll lists: no handler appends to them. */
  ghost predicate RegistryConsistent(players: map<string, Player>, activeGames: map<string, Session>) {
    forall g :: g in activeGames ==>
      && activeGames[g].id == g
      && activeGames[g].playerId in players
      && activeGames[g].playerName == players[activeGames[g].playerId].name
      && activeGames[g].playerRolls == []
      && activeGames[g].computerRolls == []
  }

  ghost predicate Consistent(players: map<string, Player>, order: seq<string>, games: seq<GameRecord>,
                             activeGames: map<string, Session>) {
    && StoreConsistent(players, order)
    && LogConsistent(players, games)
    && StatsMatchLog(players, games)
    && RegistryConsistent(players, activeGames)
  }

  /** In a consistent store every leaderboard row has a win rate, and it is at most 100. */
  lemma ConsistentWinRates(players: map<string, Player>, order: seq<string>, games: seq<GameRecord>)
    requires StoreConsistent(players, order) && StatsMatchLog(players, games)
    ensures forall i :: 0 <= i < |Leaderboard(players, order)| ==>
              Leaderboard(players, order)[i].winRate.Some? && Leaderboard(players, order)[i].winRate.value <= 100
  {
    var board := Leaderboard(players, order);
    LeaderboardListsEachPlayerOnce(players, order);
    forall i | 0 <= i < |board| ensures board[i].winRate.Some? && board[i].winRate.value <= 100 {
      var k := board[i].id;
      assert board[i] == ToEntry(players[k]);
      TalliedWinRate(players[k], games);
    }
  }

  /** An entry whose counters are a tally of the log has a win rate of at most 100. */
  lemma TalliedWinRate(p: Player, games: seq<GameRecord>)
    requires Agrees(p, Tally(games, p.id))
    ensures WinRate(p).Some? && WinRate(p).value <= 100
  {
    TallyFacts(games, p.id);
  }

  /** Crediting a record's player and appending the record keeps the stores consistent,
      and so does dropping any id from the registry. */
  lemma FinishKeepsConsistent(players: map<string, Player>, order: seq<string>, games: seq<GameRecord>,
                              activeGames: map<string, Session>, record: GameRecord, gameId: string)
    requires Consistent(players, order, games, activeGames)
    requires record.playerId in players && record.playerName == players[record.playerId].name && WellFormed(record)
    ensures var credited := ApplyResult(players[record.playerId], record.playerTotal, record.winner == PlayerWon);
      Consistent(players[record.playerId := credited], order, games + [record], activeGames - {gameId})
  {
    var credited := ApplyResult(players[record.playerId], record.playerTotal, record.winner == PlayerWon);
    var players' := players[record.playerId := credited];
    assert StoreConsistent(players', order);
    LogAppend(players, games, record, credited);
    StatsAppend(players, games, record);
    assert RegistryConsistent(players', activeGames - {gameId});
  }

  /** The registration handler's answer: the first of its checks that fails, or the new
      id, the trimmed name and the new token. */
  function RegisterOutcome(players: map<string, Player>, order: seq<string>, name: Option<string>,
                           password: Option<string>, newId: string, token: string): (r: Result<AuthReply, ApiError>)
    requires forall i :: 0 <= i < |order| ==> order[i] in players
    ensures r.Err? ==> r.error == NameRequired || r.error == PasswordTooShort || r.error == NameTaken
    ensures r.Ok? ==> name.Some? && r.value.playerId == newId && r.value.token == token
                      && r.value.playerName == Trim(name.value) && r.value.playerName != []
  {
    if name.None? || Trim(name.value) == [] then Err(NameRequired)
    else if password.None? || Utf16Length(password.value) < MinPasswordLength then Err(PasswordTooShort)
    else if FindByName(players, order, Trim(name.value)).Some? then Err(NameTaken)
    else Ok(AuthReply(newId, Trim(name.value), token))
  }

  /** The registration checks, in order: a non-blank name, a password of at least six code
      units, a trimmed name no player has yet; an accepted registration answers with the
      new id, the trimmed name and the new token, and that name is free. */
  lemma RegisterOutcomeCases(players: map<string, Player>, order: seq<string>, name: Option<string>,
                             password: Option<string>, newId: string, token: string)
    requires forall i :: 0 <= i < |order| ==> order[i] in players
    requires forall k :: k in players ==> k in order
    ensures var r := RegisterOutcome(players, order, name, password, newId, token);
      && (name.None? || Trim(name.value) == [] ==> r == Err(NameRequired))
      && ((name.Some? && Trim(name.value) != [] && (password.None? || Utf16Length(password.value) < MinPasswordLength))
          ==> r == Err(PasswordTooShort))
      && ((name.Some? && Trim(name.value) != [] && password.Some? && Utf16Length(password.value) >= MinPasswordLength)
          ==> if exists k :: k in players && players[k].name == Trim(name.value)
              then r == Err(NameTaken) else r.Ok?)
      && (r.Ok? ==> r.value == AuthReply(newId, Trim(name.value), token)
                    && forall k :: k in players ==> players[k].name != r.value.playerName)
  {
    if name.Some? {
      NameLookup(players, order, Trim(name.value));
    }
  }

  /** When `order` lists the keys of the players document, the lookup by name finds an
      entry exactly when some player has that name. */
  lemma NameLookup(players: map<string, Player>, order: seq<string>, name: string)
    requires forall i :: 0 <= i < |order| ==> order[i] in players
    requires forall k :: k in players ==> k in order
    ensures FindByName(players, order, name).Some? <==> exists k :: k in players && players[k].name == name
  {
    if FindByName(players, order, name).None? {
      forall k | k in players ensures players[k].name != name {
        var i :| 0 <= i < |order| && order[i] == k;
      }
    }
  }

  /** Storing a fresh player under an unused id, with a name no one has, keeps the stores
      consistent: the new entry's zero counters are the tally of a log without its records. */
  lemma RegisterKeepsConsistent(players: map<string, Player>, order: seq<string>, games: seq<GameRecord>,
                                activeGames: map<string, Session>, newcomer: Player)
    requires Consistent(players, order, games, activeGames)
    requires newcomer.id !in players && Agrees(newcomer, NoGames)
    requires forall k :: k in players ==> players[k].name != newcomer.name
    ensures Consistent(players[newcomer.id := newcomer], order + [newcomer.id], games, activeGames)
  {
    var players' := players[newcomer.id := newcomer];
    var order' := order + [newcomer.id];
    forall i, j | 0 <= i < j < |order'| ensures order'[i] != order'[j] {
      if j == |order| { assert order[i] in players; }
    }
    assert StoreConsistent(players', order');
    forall i | 0 <= i < |games| ensures games[i].playerId != newcomer.id { }
    TallyOfStranger(games, newcomer.id);
    assert StatsMatchLog(players', games);
  }

  lemma LogAppend(players: map<string, Player>, games: seq<GameRecord>, record: GameRecord, credited: Player)
    requires LogConsistent(players, games)
    requires record.playerId in players && record.playerName == players[record.playerId].name && WellFormed(record)
    requires credited.name == players[record.playerId].name
    ensures LogConsistent(players[record.playerId := credited], games + [record])
  {
    var log := games + [record];
    forall i | 0 <= i < |log|
      ensures log[i].playerId in players[record.playerId := credited]
      ensures log[i].playerName == players[record.playerId := credited][log[i].playerId].name
      ensures WellFormed(log[i])
    {
      if i < |games| {
        assert log[i] == games[i];
      }
    }
  }

  lemma StatsAppend(players: map<string, Player>, games: seq<GameRecord>, record: GameRecord)
    requires StatsMatchLog(players, games) && record.playerId in players
    ensures StatsMatchLog(players[record.playerId := ApplyResult(players[record.playerId], record.playerTotal, record.winner == PlayerWon)],
                          games + [record])
  {
    var players' := players[record.playerId := ApplyResult(players[record.playerId], record.playerTotal, record.winner == PlayerWon)];
    forall k | k in players' ensures Agrees(players'[k], Tally(games + [record], k)) {
      TallyAppend(games, record, k);
    }
  }

  class GameServer {
    var players: map<string, Player>
    /** The players document's keys in insertion order, the order of `Object.values`. */
    var order: seq<string>
    var games: seq<GameRecord>
    var activeGames: map<string, Session>

    ghost predicate Valid()
      reads this
    {
      Consistent(players, order, games, activeGames)
    }

    /** A server started on freshly created, empty stores. */
    constructor ()
      ensures Valid()
      ensures players == map[] && order == [] && games == [] && activeGames == map[]
    {
      players, order, games, activeGames := map[], [], [], map[];
    }

    /** `POST /api/auth/register`: answers as `RegisterOutcome` decides (its cases are
        `RegisterOutcomeCases`); on success stores
        a fresh player under the new id with the trimmed name and zero counters, appended
        to the document's order. A rejection changes nothing. `newId` and `token` are what
        `uuidv4` returns, `now` the clock. */
    method Register(name: Option<string>, password: Option<string>, newId: string, token: string, now: int)
      returns (r: Result<AuthReply, ApiError>)
      requires Valid()
      requires newId !in players
      modifies this
      ensures Valid()
      ensures r == RegisterOutcome(old(players), old(order), name, password, newId, token)
      ensures r.Err? ==> players == old(players) && order == old(order)
      ensures r.Ok? ==>
                && players == old(players)[newId := NewPlayer(newId, r.value.playerName, password.value, now)]
                && order == old(order) + [newId]
      ensures games == old(games) && activeGames == old(activeGames)
    {
      r := RegisterOutcome(players, order, name, password, newId, token);
      if r.Err? {
        return;
      }
      RegisterOutcomeCases(players, order, name, password, newId, token);
      var entry := NewPlayer(newId, r.value.playerName, password.value, now);
      RegisterKeepsConsistent(players, order, games, activeGames, entry);
      players, order := players[newId := entry], order + [newId];
    }

    /** `POST /api/auth/login`: a missing or empty name or password is a 400; otherwise the
        login succeeds exactly when a player has this exact (untrimmed) name and this
        password, and it answers with that player's id and name. */
    method Login(name: Option<string>, password: Option<string>, token: string) returns (r: Result<AuthReply, ApiError>)
      requires Valid()
      ensures Blank(name) || Blank(password) ==> r == Err(CredentialsRequired)
      ensures r.Ok? <==> !Blank(name) && !Blank(password)
                         && exists k :: k in players && players[k].name == name.value && VerifyPassword(password.value, players[k].password)
      ensures r.Ok? ==> r.value.playerId in players && players[r.value.playerId].name == name.value
                        && r.value.playerName == name.value && r.value.token == token
      ensures r.Err? && !Blank(name) && !Blank(password) ==> r == Err(BadCredentials)
    {
      if Blank(name) || Blank(password) {
        return Err(CredentialsRequired);
      }
      var found := FindByName(players, order, name.value);
      if found.None? || !VerifyPassword(password.value, found.value.password) {
        return Err(BadCredentials);
      }
      r := Ok(AuthReply(found.value.id, found.value.name, token));
    }

    /** `POST /api/auth/verify`: the stored entry of a known player (password included),
        404 otherwise; the token is not looked at. */
    method Verify(playerId: string, token: string) returns (r: Result<Player, ApiError>)
      requires Valid()
      ensures r.Err? <==> playerId !in players
      ensures r.Err? ==> r.error == UnknownPlayer
      ensures r.Ok? ==> r.value == players[playerId] && r.value.id == playerId
    {
      if playerId !in players {
        return Err(UnknownPlayer);
      }
      r := Ok(players[playerId]);
    }

    /** `GET /api/players`: every player exactly once, sorted by non-increasing points,
        each row the player's counters with missing ones as 0, and every win rate present
        and at most 100. */
    method ListPlayers() returns (board: seq<Entry>)
      requires Valid()
      ensures |board| == |players|
      ensures SortedDesc(board, Points)
      ensures forall k :: k in players ==> exists i :: 0 <= i < |board| && board[i] == ToEntry(players[k])
      ensures forall i :: 0 <= i < |board| ==> board[i].id in players && board[i] == ToEntry(players[board[i].id])
      ensures forall i, j :: 0 <= i < j < |board| ==> board[i].id != board[j].id
      ensures forall i :: 0 <= i < |board| ==> board[i].winRate.Some? && board[i].winRate.value <= 100
    {
      LeaderboardListsEachPlayerOnce(players, order);
      ConsistentWinRates(players, order, games);
      board := Leaderboard(players, order);
    }

    /** `POST /api/game/start`: 404 for an unknown player, with the registry unchanged;
        otherwise registers a session with empty roll lists and the player's name under
        `gameId` (what `uuidv4` returns). */
    method StartGame(playerId: string, gameId: string, now: int) returns (r: Result<string, ApiError>)
      requires Valid()
      modifies this
      ensures Valid()
      ensures r.Err? <==> playerId !in players
      ensures r.Err? ==> r.error == PlayerNotFound && activeGames == old(activeGames)
      ensures r.Ok? ==>
                && r.value == gameId
                && activeGames == old(activeGames)[gameId := Session(gameId, playerId, players[playerId].name, [], [], now)]
                && (gameId !in old(activeGames) ==> |activeGames| == |old(activeGames)| + 1)
      ensures players == old(players) && order == old(order) && games == old(games)
    {
      if playerId !in players {
        return Err(PlayerNotFound);
      }
      activeGames := activeGames[gameId := Session(gameId, playerId, players[playerId].name, [], [], now)];
      r := Ok(gameId);
    }

    /** `POST /api/game/roll`: 404 for an unknown player; otherwise one die face in 1..6
        from the draw `u`. Neither the session nor its existence is looked at, and nothing
        is recorded. */
    method Roll(gameId: string, playerId: string, u: real) returns (r: Result<int, ApiError>)
      requires Valid() && IsDraw(u)
      ensures r.Err? <==> playerId !in players
      ensures r.Err? ==> r.error == PlayerNotFound
      ensures r.Ok? ==> 1 <= r.value <= 6 && r.value == RollDie(u)
    {
      if playerId !in players {
        return Err(PlayerNotFound);
      }
      r := Ok(RollDie(u));
    }

    /** `POST /api/game/finish`: 404 for an unknown player, changing nothing. Otherwise the
        totals are the sums of the submitted lists (no length or range check), the player
        wins exactly with the larger total, the player's counters are credited with the
        game, one record is appended to the log, and `gameId` leaves the registry (whether
        or not it was there). Reply and record agree on totals and winner. */
    method Finish(playerId: string, playerRolls: seq<int>, computerRolls: seq<int>, gameId: string,
                  recordId: string, now: int)
      returns (r: Result<FinishReply, ApiError>)
      requires Valid()
      modifies this
      ensures Valid()
      ensures r.Err? <==> playerId !in old(players)
      ensures r.Err? ==> r.error == PlayerNotFound && players == old(players) && games == old(games)
                         && activeGames == old(activeGames)
      ensures r.Ok? ==>
                var pt, ct := Sum(playerRolls), Sum(computerRolls);
                && r.value.playerTotal == pt && r.value.computerTotal == ct
                && r.value.winner == DecideWinner(pt, ct) && r.value.game.winner == r.value.winner
                && r.value.game == GameRecord(recordId, playerId, old(players)[playerId].name, playerRolls, pt,
                                              computerRolls, ct, r.value.winner, now)
                && players == old(players)[playerId := ApplyResult(old(players)[playerId], pt, pt > ct)]
                && games == old(games) + [r.value.game]
                && activeGames == old(activeGames) - {gameId}
      ensures order == old(order)
    {
      if playerId !in players {
        return Err(PlayerNotFound);
      }
      var playerTotal := Sum(playerRolls);
      var computerTotal := Sum(computerRolls);
      var playerWon := playerTotal > computerTotal;
      var player := ApplyResult(players[playerId], playerTotal, playerWon);
      var winner := if playerWon then PlayerWon else ComputerWon;
      var record := GameRecord(recordId, playerId, player.name, playerRolls, playerTotal,
                               computerRolls, computerTotal, winner, now);
      FinishKeepsConsistent(players, order, games, activeGames, record, gameId);
      players := players[playerId := player];
      games := games + [record];
      activeGames := activeGames - {gameId};
      r := Ok(FinishReply(record, playerTotal, computerTotal, winner));
    }

    /** `GET /api/games/recent`: the at most ten latest records, latest first. */
    method Recent() returns (recent: seq<GameRecord>)
      requires Valid()
      ensures |recent| == if |games| < 10 then |games| else 10
      ensures SortedDesc(recent, CompletedAt)
      ensures multiset(recent) <= multiset(games)
      ensures forall g :: g in multiset(games) - multiset(recent) ==>
                forall i :: 0 <= i < |recent| ==> g.completedAt <= recent[i].completedAt
    {
      recent := RecentGames(games);
    }
  }
}
