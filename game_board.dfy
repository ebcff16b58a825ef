/** The game board's client state: start a game, five guarded rolls, each answered by the
    server, and the finish request once the fifth roll is in. Each asynchronous handler
    is split at its `await`: what it does before the request and what it does with the
    reply (or the failure) afterwards. */
module GameBoard {
  import opened Wrappers
  import opened Dice

  const RollsPerGame := 5

  /** The rolls and the count the roll handler saw when it was called; the reply handler
      builds the new state from them, not from the state at the time of the reply. */
  datatype RollSnapshot = RollSnapshot(rolls: seq<int>, count: int)

  /** The body the board posts to `/api/game/finish`. */
  datatype FinishRequest = FinishRequest(playerId: string, playerRolls: seq<int>, computerRolls: seq<int>,
                                         gameId: Option<string>)

  /** The component's `GameState`, with the signed-in player's id. */
  class Board {
    const playerId: string
    var playerRolls: seq<int>
    var computerRolls: seq<int>
    var currentRoll: int
    var isRolling: bool
    var gameStarted: bool
    var gameFinished: bool
    var winner: Option<Winner>
    var gameId: Option<string>

    /** One roll value per counted roll, never more than five, and a roll in flight only
        while fewer than five are in. */
    ghost predicate Valid()
      reads this
    {
      && |playerRolls| == currentRoll <= RollsPerGame
      && (isRolling ==> currentRoll < RollsPerGame)
    }

    /** The initial state: no game, no rolls. */
    constructor (playerId: string)
      ensures Valid() && this.playerId == playerId
      ensures playerRolls == [] && computerRolls == [] && currentRoll == 0 && !isRolling
      ensures !gameStarted && !gameFinished && winner == None && gameId == None
    {
      this.playerId := playerId;
      playerRolls, computerRolls, currentRoll, isRolling := [], [], 0, false;
      gameStarted, gameFinished, winner, gameId := false, false, None, None;
    }

    /** `startNewGame` after its request: a reply carrying a game id resets the board to a
        started, unfinished game with no rolls and no winner; a failed request changes nothing. */
    method StartNewGame(reply: Result<string, string>)
      requires Valid()
      modifies this
      ensures Valid()
      ensures reply.Ok? ==>
                && playerRolls == [] && computerRolls == [] && currentRoll == 0 && !isRolling
                && gameStarted && !gameFinished && winner == None && gameId == Some(reply.value)
      ensures reply.Err? ==> unchanged(this)
    {
      if reply.Ok? {
        playerRolls, computerRolls, currentRoll, isRolling := [], [], 0, false;
        gameStarted, gameFinished, winner, gameId := true, false, None, Some(reply.value);
      }
    }

    /** `rollDice` up to its request: nothing at all while a roll is in flight or once five
        rolls are in; otherwise `isRolling` is set, and only that, and the handler keeps
        the rolls and count it was called with. */
    method BeginRoll() returns (snapshot: Option<RollSnapshot>)
      requires Valid()
      modifies this
      ensures Valid()
      ensures snapshot.None? <==> old(isRolling) || old(currentRoll) >= RollsPerGame
      ensures snapshot.None? ==> unchanged(this)
      ensures snapshot.Some? ==>
                && snapshot.value == RollSnapshot(old(playerRolls), old(currentRoll))
                && |snapshot.value.rolls| == snapshot.value.count < RollsPerGame
                && isRolling && playerRolls == old(playerRolls) && currentRoll == old(currentRoll)
                && computerRolls == old(computerRolls) && gameStarted == old(gameStarted)
                && gameFinished == old(gameFinished) && winner == old(winner) && gameId == old(gameId)
    {
      if isRolling || currentRoll >= RollsPerGame {
        return None;
      }
      snapshot := Some(RollSnapshot(playerRolls, currentRoll));
      isRolling := true;
    }

    /** `rollDice` after its request. A roll reply appends the roll to the captured rolls,
        counts one more roll and clears `isRolling`; the finish is scheduled, with the new
        rolls, exactly when the count reaches five. A failed request only clears `isRolling`. */
    method CompleteRoll(snapshot: RollSnapshot, reply: Result<int, string>) returns (finishWith: Option<seq<int>>)
      requires Valid()
      requires |snapshot.rolls| == snapshot.count < RollsPerGame
      modifies this
      ensures Valid() && !isRolling
      ensures reply.Ok? ==>
                && playerRolls == snapshot.rolls + [reply.value] && currentRoll == snapshot.count + 1
                && (finishWith.Some? <==> currentRoll == RollsPerGame)
                && (finishWith.Some? ==> finishWith.value == playerRolls)
      ensures reply.Err? ==> playerRolls == old(playerRolls) && currentRoll == old(currentRoll) && finishWith.None?
      ensures computerRolls == old(computerRolls) && gameStarted == old(gameStarted)
      ensures gameFinished == old(gameFinished) && winner == old(winner) && gameId == old(gameId)
    {
      isRolling := false;
      finishWith := None;
      if reply.Ok? {
        var newRolls := snapshot.rolls + [reply.value];
        var newRollCount := snapshot.count + 1;
        playerRolls, currentRoll := newRolls, newRollCount;
        if newRollCount == RollsPerGame {
          finishWith := Some(newRolls);
        }
      }
    }

    /** `finishGame(playerRolls)`: draws the computer's five rolls, posts them with the
        player's rolls and the game id, and on a reply shows the computer's rolls, marks
        the game finished and takes the winner from the server's result (it is not
        computed here); a failed request changes nothing. */
    method FinishGame(rolls: seq<int>, draws: seq<real>, reply: Result<Winner, string>) returns (request: FinishRequest)
      requires Valid()
      requires |draws| == 5 && forall i :: 0 <= i < 5 ==> IsDraw(draws[i])
      modifies this
      ensures Valid()
      ensures request.playerId == playerId && request.playerRolls == rolls && request.gameId == old(gameId)
      ensures |request.computerRolls| == 5 && AllFaces(request.computerRolls)
      ensures reply.Ok? ==>
                && computerRolls == request.computerRolls && gameFinished && winner == Some(reply.value)
                && playerRolls == old(playerRolls) && currentRoll == old(currentRoll) && isRolling == old(isRolling)
                && gameStarted == old(gameStarted) && gameId == old(gameId)
      ensures reply.Err? ==> unchanged(this)
    {
      var drawn := ComputerPlay(draws);
      request := FinishRequest(playerId, rolls, drawn, gameId);
      if reply.Ok? {
        computerRolls, gameFinished, winner := drawn, true, Some(reply.value);
      }
    }

    /** `playerTotal`: the sum of the player's rolls, one to six points per die face. */
    function PlayerTotal(): (total: int)
      reads this
      ensures AllFaces(playerRolls) ==> |playerRolls| <= total <= 6 * |playerRolls|
    {
      SumOfFaces(playerRolls);
      Sum(playerRolls)
    }

    /** `computerTotal`: the sum of the computer's rolls, one to six points per die face. */
    function ComputerTotal(): (total: int)
      reads this
      ensures AllFaces(computerRolls) ==> |computerRolls| <= total <= 6 * |computerRolls|
    {
      SumOfFaces(computerRolls);
      Sum(computerRolls)
    }

    /** The number of empty placeholders drawn after the rolls and the spinning die: the
        roll guard keeps it between 0 and 5, and the three kinds of slot fill exactly five. */
    function EmptySlots(): (n: int)
      reads this
      requires Valid()
      ensures 0 <= n <= RollsPerGame
      ensures |playerRolls| + (if isRolling then 1 else 0) + n == RollsPerGame
    {
      RollsPerGame - |playerRolls| - (if isRolling then 1 else 0)
    }
  }
}
