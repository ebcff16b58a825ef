# Dice game: a Dafny model of the server handlers and the client forms

This project models the core of a small two-tier dice game. A registered player rolls a die five
times against a computer opponent that rolls five times. The larger total wins, and a tie goes to
the computer. The server keeps three pieces of state:

- the players document (name, plain-text password, game counters);
- the games document (one record per finished game, append only);
- an in-memory registry of started games.

The model covers the server's HTTP handlers and four client components:

- the game board with its five guarded rolls;
- the recent-games panel;
- the registration form;
- the login form.

Files and modules:

- `wrappers.dfy` (`Wrappers`): `Option` and `Result`.
- `text.dfy` (`Text`): JavaScript's `trim` and `length`.
- `sorting.dfy` (`Sorting`): the stable descending sort both listings use.
- `dice.dfy` (`Dice`): a die roll, the computer's hand, the sum and the winner rule.
- `records.dfy` (`Records`): the stored documents, and what a finished game does to a player's counters.
- `ranking.dfy` (`Ranking`): the leaderboard and the recent-games listing.
- `server.dfy` (`Server`): the handlers, as the class `GameServer`.
- `game_board.dfy` (`GameBoard`), `recent_games.dfy` (`RecentGamesView`), `player_registration.dfy` (`RegistrationForm`) and `login_form.dfy` (`LoginFormView`): the four client components.
- `agreement.dfy` (`Agreement`): how the forms and the handlers fit together.

How the source's features are represented:

- **Key order.** `Object.values(players)` follows key insertion order. The model keeps that order as `order: seq<string>` beside the `players: map`.
- **Class invariant.** `GameServer.Valid()` holds after every handler. It states:
  - `order` lists each key of the players document exactly once;
  - every player is stored under its own id;
  - no two players share a name;
  - every record of the games document belongs to a registered player, carries that player's name, and has totals equal to the sums of its rolls and the winner those totals decide;
  - every player's counters are exactly the tally of that player's records in the log;
  - every active game is stored under its own id, belongs to a registered player, carries that player's name, and still has empty roll lists.
- **Missing counters.** A counter missing from a document is `None`, and the handlers' `|| 0` is `GetOr(0)`. Under the class invariant every counter of every player is present, because each equals a tally. So the `|| 0` defaults and the `null` win rate appear only in the contracts of `Records.ApplyResult`, `Ranking.WinRate` and `Ranking.ToEntry`, never in a handler's contract.
- **Split handlers.** Each asynchronous client handler is split at its `await` into a method for what happens before the request and a method for what happens with the reply.
- **Parameters.** Identifiers from `uuidv4`, draws of `Math.random()` (a `real` in [0, 1)) and the clock (an `int` of milliseconds) are parameters.

The finish handler checks neither the number nor the range of the submitted rolls. The roll
handler ignores the game id.

## Model

| member | source | states |
|---|---|---|
| Text.TrimStartShape | server/index.js:123 | what `trim` strips at the front is white space, and what remains is a suffix starting with a non-white-space character |
| Text.TrimEndShape | server/index.js:123 | what `trim` strips at the end is white space, and what remains is a prefix ending with a non-white-space character |
| Text.TrimShape | server/index.js:142 | the input is white space, then the trimmed name as a contiguous slice, then white space, and the trimmed name neither starts nor ends with white space |
| Text.TrimBlankIff | server/index.js:123 | `name.trim() === ''` holds exactly when the name is all white space |
| Text.TrimIdempotent | src/components/PlayerRegistration.tsx:45 | trimming an already trimmed name changes nothing |
| Text.Utf16LengthBounds | server/index.js:127 | `password.length` counts UTF-16 code units: between one and two per character, one per character exactly when all are in the BMP |
| Sorting.Insert | server/index.js:186 | inserting into a descending sequence keeps it descending and adds exactly the one element |
| Sorting.SortDesc | server/index.js:186 | the sort's result is in non-increasing key order and is a permutation of its input |
| Sorting.PermutationKeepsDistinct | server/index.js:186 | sorting a list without repetitions yields one without repetitions |
| Dice.RollDie | server/index.js:88 | a roll is a die face from 1 to 6 |
| Dice.RollDieFace | server/index.js:88 | each face is rolled exactly for the draws in its own sixth of [0, 1) |
| Dice.Sum | server/index.js:240-241 | the `reduce` total of non-negative values is non-negative |
| Dice.SumAppend | src/components/GameBoard.tsx:159-160 | the left-fold total of two lists is the sum of their totals, so the fold order does not matter |
| Dice.SumOfFaces | server/index.js:240-241 | a sum of die faces lies between 1 and 6 points per roll |
| Dice.DecideWinner | server/index.js:242 | the player wins exactly with a strictly larger total; a tie goes to the computer |
| Dice.ComputerPlay | src/components/GameBoard.tsx:118-124 | the computer's hand is five rolls, each a die face, the i-th from the i-th draw |
| Records.NewPlayer | server/index.js:138-149 | a registered player starts with all four counters present and zero |
| Records.ApplyResult | server/index.js:245-252 | finishing a game adds one game and the total to the points, raises the best score to the total, adds a win only when the player won, reads missing counters as 0, keeps identity, name and password, and credits the game to counters the entry agreed with |
| Records.TallyAppend | server/index.js:258-268 | appending a record changes only its own player's tally, by crediting that game |
| Records.TallyOfStranger | server/index.js:138-149 | a player without records in the log has zero counters |
| Records.TallyFacts | server/index.js:245-252 | tallied wins never exceed games, and the best score is at least 0, at least every own total, and is 0 or one of those totals |
| Records.TallyPointsBounds | server/index.js:245-252 | when every own total is a full hand's score, the points lie between 5 and 30 per game |
| Ranking.RoundedPercent | server/index.js:185 | `Math.round(wins / games * 100)` is the nearest whole percentage, a half rounding up, and at most 100 when wins do not exceed games |
| Ranking.WinRate | server/index.js:185 | the win rate is 0 without games, `null` when games were played but `wins` is missing, otherwise the rounded percentage |
| Ranking.ToEntry | server/index.js:177-185 | a leaderboard row copies the id and name and shows every missing counter as 0 |
| Ranking.Rows | server/index.js:177-185 | one row per key, in document order |
| Ranking.Leaderboard | server/index.js:176-189 | the rows sorted by non-increasing points, as a permutation of the rows |
| Ranking.LeaderboardListsEachPlayerOnce | server/index.js:176-189 | the leaderboard has one row per player: every player's row appears, every row is its player's row, and no id repeats |
| Ranking.RecentGames | server/index.js:292-299 | at most ten records, latest first, all from the log, and none left out is later than any listed |
| Ranking.SortedPrefixIsTop | server/index.js:295-296 | the first ten of a sorted log are the latest records |
| Server.Blank | server/index.js:103 | `!x` holds for a missing field and for exactly the empty string, and never for a name that is not blank once trimmed |
| Server.VerifyPassword | server/index.js:22-24 | the password matches exactly when it equals the stored one code unit by code unit, with no hashing |
| Server.RegisterOutcome | server/index.js:120-163 | a rejection is one of the three registration errors; an acceptance answers with the new id, the token and the trimmed, non-empty name |
| Server.FindByName | server/index.js:108 | the lookup finds the first entry in document order with exactly that name, or none exactly when no entry has it |
| Server.NameLookup | server/index.js:132 | the lookup succeeds exactly when some player has the name |
| Server.RegisterOutcomeCases | server/index.js:120-163 | registration checks, in order, for a blank name, then a password shorter than six code units, then a taken trimmed name; success answers with the new id, the trimmed name and the token, and that name was free |
| Server.RegisterKeepsConsistent | server/index.js:138-150 | storing a new player under an unused id with a free name keeps the stores consistent |
| Server.FinishKeepsConsistent | server/index.js:245-272 | crediting the player, appending the record and dropping the game id keep the stores consistent |
| Server.TalliedWinRate | server/index.js:185 | a player whose counters are a tally of the log has a win rate of at most 100 |
| Server.ConsistentWinRates | server/index.js:176-189 | in consistent stores every leaderboard row has a win rate, and it is at most 100 |
| Server.GameServer.constructor | server/index.js:31-37 | a server starts from empty, consistent stores |
| Server.GameServer.Register | server/index.js:120-163 | the answer is the registration outcome; a rejection changes nothing; success stores a zero-counter player with the trimmed name under the new id, at the end of the document order; consistency is kept |
| Server.GameServer.Login | server/index.js:100-119 | a missing or empty name or password gives 400; otherwise login succeeds exactly when a player has that exact name and password, answering with that player's id and name, and fails with 401 |
| Server.GameServer.Verify | server/index.js:164-174 | the stored entry of a known id, 404 exactly for an unknown one |
| Server.GameServer.ListPlayers | server/index.js:176-189 | every player exactly once, by non-increasing points, with win rates present and at most 100 |
| Server.GameServer.StartGame | server/index.js:192-219 | 404 exactly for an unknown player; otherwise a session with empty rolls is registered under the new id |
| Server.GameServer.Roll | server/index.js:220-231 | 404 exactly for an unknown player; otherwise a die face from the draw, with nothing recorded |
| Server.GameServer.Finish | server/index.js:232-290 | 404 exactly for an unknown player, changing nothing; otherwise totals are the sums, the winner follows the rule, the player is credited, one record is appended, the game id leaves the registry, and consistency is kept |
| Server.GameServer.Recent | server/index.js:292-299 | at most ten records, latest first, none left out later than any listed |
| GameBoard.Board.constructor | src/components/GameBoard.tsx:24-32 | the board starts with no game and no rolls |
| GameBoard.Board.StartNewGame | src/components/GameBoard.tsx:47-77 | a started game resets rolls, count and winner and records the game id; a failed request changes nothing |
| GameBoard.Board.BeginRoll | src/components/GameBoard.tsx:79-84 | nothing happens while a roll is in flight or after five rolls; otherwise only `isRolling` is set |
| GameBoard.Board.CompleteRoll | src/components/GameBoard.tsx:85-116 | a reply appends the roll to the captured rolls and counts it; the finish is scheduled exactly at the fifth roll; `isRolling` is always cleared and at most five rolls are kept |
| GameBoard.Board.FinishGame | src/components/GameBoard.tsx:126-157 | the request carries the player's rolls, the game id and five computer die faces; a reply shows them and the server's winner; a failure changes nothing |
| GameBoard.Board.PlayerTotal | src/components/GameBoard.tsx:159 | the player's total of die faces lies between 1 and 6 points per roll |
| GameBoard.Board.ComputerTotal | src/components/GameBoard.tsx:160 | the computer's total of die faces lies between 1 and 6 points per roll |
| GameBoard.Board.EmptySlots | src/components/GameBoard.tsx:280 | the empty placeholders number 0 to 5, and rolls, spinner and placeholders fill exactly five slots |
| RecentGamesView.FormatTime | src/components/RecentGames.tsx:21-41 | exactly one label applies: unknown, invalid, just now under a minute, whole minutes 1 to 59, whole hours 1 to 23, or whole days |
| RecentGamesView.LabelText | src/components/RecentGames.tsx:36-40 | the shown text is never empty, and it starts with a digit exactly when it shows a count |
| RecentGamesView.LabelTextInjective | src/components/RecentGames.tsx:36-40 | different labels are shown as different texts |
| RecentGamesView.Decimal | src/components/RecentGames.tsx:37-39 | a count is shown as a non-empty string of digits without a leading zero, one digit exactly for counts below ten |
| RecentGamesView.DecimalRoundTrip | src/components/RecentGames.tsx:37-39 | reading the shown digits back gives the count |
| RecentGamesView.IsComplete | src/components/RecentGames.tsx:42 | a game lacking `completedAt` or either total is never complete, and a complete game's `completedAt` is a non-empty string |
| RecentGamesView.CompletedGames | src/components/RecentGames.tsx:42 | the filter keeps only complete games |
| RecentGamesView.CompletedGamesCounts | src/components/RecentGames.tsx:42 | the filter keeps every complete game as often as the input has it, and nothing else |
| RecentGamesView.CompletedGamesKeepsOrder | src/components/RecentGames.tsx:42 | the filter keeps the input's order |
| RecentGamesView.VisibleGames | src/components/RecentGames.tsx:44-99 | the compact view lists every game as received; the full view lists exactly the complete ones |
| RegistrationForm.Validate | src/components/PlayerRegistration.tsx:20-33 | the form sends exactly when the name is not blank, the password has at least six code units, and both passwords match, and otherwise shows the first failing check's message |
| RegistrationForm.Form.constructor | src/components/PlayerRegistration.tsx:11-15 | the form starts empty, not loading, without a message |
| RegistrationForm.Form.BeginSubmit | src/components/PlayerRegistration.tsx:17-47 | a failing check shows its message and sends nothing; otherwise the form is loading, the message cleared, and the trimmed name and the password are sent |
| RegistrationForm.Form.EndSubmit | src/components/PlayerRegistration.tsx:48-63 | success hands the reply to the callback; every failure shows the fixed name-taken message; loading ends either way |
| RegistrationForm.Form.SubmitDisabled | src/components/PlayerRegistration.tsx:139 | the button is disabled while loading and never disabled for a form the checks accept |
| LoginFormView.Validate | src/components/LoginForm.tsx:18-21 | the form sends exactly when the name is not blank and the password is not empty |
| LoginFormView.FailureMessage | src/components/LoginForm.tsx:40-47 | the message shown on failure is never empty: the server's text, else a generic failure, and the bad-credentials fallback only for a thrown error without a message |
| LoginFormView.Form.constructor | src/components/LoginForm.tsx:10-13 | the form starts empty, not loading, without a message |
| LoginFormView.Form.BeginSubmit | src/components/LoginForm.tsx:15-35 | a failing check shows its message and sends nothing; otherwise the form is loading, the message cleared, and the trimmed name and the password are sent |
| LoginFormView.Form.EndSubmit | src/components/LoginForm.tsx:36-50 | an ok answer hands id and name to the callback; a failure shows its message; loading ends either way |
| LoginFormView.Form.SubmitDisabled | src/components/LoginForm.tsx:108 | the button is disabled exactly while loading or when the check would fail |
| Agreement.RegistrationFormAgreesWithServer | src/components/PlayerRegistration.tsx:20-47 | a registration the form accepts passes the server's name and password checks, is sent already trimmed, and would also pass the login form's check |
| Agreement.LoginFormPassesPresenceCheck | src/components/LoginForm.tsx:18-35 | a login the form accepts never draws the server's 400 for missing credentials |
| Agreement.RegisterThenLogin | server/index.js:100-163 | after a registration the form accepts, the only possible failure is a taken name, and after a success a login with the same typed name and password answers with the new player's id and name |

## Left out

- File I/O: the two JSON documents are kept in memory as fields, and writes and their failures are not modelled. The fail-soft reads are not modelled either: a document that cannot be read is taken as empty. With an unreadable games document, a finish would overwrite the log with that single record (server/index.js:51-57, 257, 270-274). That breaks the invariant that counters equal the tally of the log.
- WebSocket broadcasts: the messages sent after a registration or a finished game are not modelled, and neither are the connected clients.
- `App.tsx` and the rendering of `Leaderboard.tsx` and `DiceAnimation.tsx` are not part of this model. The same holds for the markup of the four components and their input `onChange` handlers.
- Ranking.RoundedPercent: floating-point division is modelled with exact rationals and half-up rounding, because `Math.round` of a double can differ from this by one unit of rounding error at exact halves.
- RecentGamesView.FormatTime: date parsing is abstracted to a timestamp that is missing, unparseable or some milliseconds in the past, because string-to-date parsing depends on the runtime.
- Server.GameServer.Recent: timestamps are whole milliseconds rather than ISO strings parsed by `new Date`, and sort stability among equal times is not stated.
- Server.GameServer.ListPlayers: the order among equal points is not stated, although the sort is stable.
- Request fields that are not strings, such as numbers or objects in the JSON body, are not modelled. A field is a string or missing.
- Keys inherited through the object prototype are not modelled.
- Concurrency is not modelled: each request runs to completion, so overlapping read-modify-write cycles on the documents cannot lose updates here.
- The game board's celebration timer and the 1-second delay before the finish request are not modelled. The finish is returned as a request to make rather than scheduled.
- Server.GameServer.Register: the new id is assumed unused, because a `uuidv4` collision is not modelled.
- Server.GameServer.Roll ignores the game id, as the handler does.
- Server.GameServer.Finish does not check the number or the range of the submitted rolls, as the handler does not.
- Server.GameServer.Finish assumes both roll lists are present arrays of integers. Without one, `reduce` throws, the server answers 500, and no store has changed. Entries that are not integers are folded as JavaScript values, so string entries are concatenated into the total and then into `totalPoints`.
- Strings are sequences of Unicode scalar values. JavaScript strings are UTF-16 code units and may hold lone surrogates, which a Dafny `char` cannot hold.
- RegistrationForm.Form.EndSubmit shows the same name-taken message for every failure, as the component does.
- Server.GameServer.constructor starts from empty stores; stores loaded from existing documents are assumed consistent.
