/** The documents of the server's two JSON stores and its in-memory session, and the
    effect a finished game has on a player's counters. */
module Records {
  import opened Wrappers
  import opened Dice

  /** An entry of the players document. The counters are optional because a document
      field may be missing; the handlers read a missing counter as 0 (`|| 0`). */
  datatype Player = Player(
    id: string,
    name: string,
    password: string,
    totalGames: Option<nat>,
    wins: Option<nat>,
    totalPoints: Option<int>,
    bestScore: Option<int>,
    createdAt: int)

  /** An entry of the in-memory `activeGames` registry. */
  datatype Session = Session(
    id: string,
    playerId: string,
    playerName: string,
    playerRolls: seq<int>,
    computerRolls: seq<int>,
    createdAt: int)

  /** An entry of the games document, written once when a game is finished. */
  datatype GameRecord = GameRecord(
    id: string,
    playerId: string,
    playerName: string,
    playerRolls: seq<int>,
    playerTotal: int,
    computerRolls: seq<int>,
    computerTotal: int,
    winner: Winner,
    completedAt: int)

  /** A record as the finish handler writes it: the totals are the sums of the submitted
      rolls and the winner follows from the totals. */
  predicate WellFormed(g: GameRecord) {
    && g.playerTotal == Sum(g.playerRolls)
    && g.computerTotal == Sum(g.computerRolls)
    && g.winner == DecideWinner(g.playerTotal, g.computerTotal)
  }

  /** A player's four counters with every field present. */
  datatype Stats = Stats(totalGames: nat, wins: nat, totalPoints: int, bestScore: int)

  const NoGames := Stats(0, 0, 0, 0)

  function Max(a: int, b: int): int {
    if a >= b then a else b
  }

  /** What one finished game adds to the counters. */
  function Credit(s: Stats, total: int, won: bool): Stats {
    Stats(s.totalGames + 1, if won then s.wins + 1 else s.wins, s.totalPoints + total, Max(s.bestScore, total))
  }

  /** The counters of `playerId` implied by a game log: every one of the player's records
      credited in log order, starting from a fresh player's zeros. */
  function Tally(log: seq<GameRecord>, playerId: string): Stats {
    if log == [] then NoGames
    else
      var g := log[|log| - 1];
      var before := Tally(log[..|log| - 1], playerId);
      if g.playerId == playerId then Credit(before, g.playerTotal, g.winner == PlayerWon) else before
  }

  /** The document entry carries exactly the counters `s`, none missing. */
  predicate Agrees(p: Player, s: Stats) {
    && p.totalGames == Some(s.totalGames)
    && p.wins == Some(s.wins)
    && p.totalPoints == Some(s.totalPoints)
    && p.bestScore == Some(s.bestScore)
  }

  /** A new entry as registration writes it. */
  function NewPlayer(id: string, name: string, password: string, now: int): (p: Player)
    ensures Agrees(p, NoGames)
  {
    Player(id, name, password, Some(0), Some(0), Some(0), Some(0), now)
  }

  /** The finish handler's in-place update of a player entry: one more game, the total
      added to the points, the best score raised to the total, one more win only for a
      won game (a lost game leaves `wins` as it was, even missing); a missing counter
      counts as 0. Identity, name, password and creation time are kept, and an entry
      that agreed with counters `s` agrees with `s` credited with this game. */
  function ApplyResult(p: Player, total: int, won: bool): (q: Player)
    ensures q.id == p.id && q.name == p.name && q.password == p.password && q.createdAt == p.createdAt
    ensures q.totalGames == Some(p.totalGames.GetOr(0) + 1)
    ensures q.totalPoints == Some(p.totalPoints.GetOr(0) + total)
    ensures q.bestScore.Some? && q.bestScore.value >= total && q.bestScore.value >= p.bestScore.GetOr(0)
    ensures q.bestScore.value == total || q.bestScore.value == p.bestScore.GetOr(0)
    ensures q.wins == if won then Some(p.wins.GetOr(0) + 1) else p.wins
    ensures forall s :: Agrees(p, s) ==> Agrees(q, Credit(s, total, won))
  {
    p.(totalGames := Some(p.totalGames.GetOr(0) + 1),
       totalPoints := Some(p.totalPoints.GetOr(0) + total),
       bestScore := Some(Max(p.bestScore.GetOr(0), total)),
       wins := if won then Some(p.wins.GetOr(0) + 1) else p.wins)
  }

  /** Appending a record changes the tally of its own player only, by crediting it. */
  lemma TallyAppend(log: seq<GameRecord>, g: GameRecord, playerId: string)
    ensures Tally(log + [g], playerId)
         == if g.playerId == playerId then Credit(Tally(log, playerId), g.playerTotal, g.winner == PlayerWon)
            else Tally(log, playerId)
  {
    assert (log + [g])[..|log|] == log;
  }

  /** A player without records in the log has a fresh player's counters. */
  lemma {:induction false} TallyOfStranger(log: seq<GameRecord>, playerId: string)
    requires forall i :: 0 <= i < |log| ==> log[i].playerId != playerId
    ensures Tally(log, playerId) == NoGames
  {
    if log != [] {
      TallyOfStranger(log[..|log| - 1], playerId);
    }
  }

  /** What the counters mean: wins never exceed games; the best score is at least 0 and at
      least every total of the player's own records, and it is 0 or one of those totals. */
  lemma {:induction false} TallyFacts(log: seq<GameRecord>, playerId: string)
    ensures Tally(log, playerId).wins <= Tally(log, playerId).totalGames
    ensures Tally(log, playerId).bestScore >= 0
    ensures forall i :: 0 <= i < |log| && log[i].playerId == playerId ==> log[i].playerTotal <= Tally(log, playerId).bestScore
    ensures Tally(log, playerId).bestScore == 0
         || exists i :: 0 <= i < |log| && log[i].playerId == playerId && log[i].playerTotal == Tally(log, playerId).bestScore
  {
    if log != [] {
      var init := log[..|log| - 1];
      TallyFacts(init, playerId);
      var t := Tally(log, playerId);
      var b := Tally(init, playerId);
      forall i | 0 <= i < |log| && log[i].playerId == playerId ensures log[i].playerTotal <= t.bestScore {
        if i < |log| - 1 {
          assert log[i] == init[i];
        }
      }
      if t.bestScore != 0 && t.bestScore == b.bestScore {
        var i :| 0 <= i < |init| && init[i].playerId == playerId && init[i].playerTotal == b.bestScore;
        assert log[i] == init[i];
      }
    }
  }

  /** When every total of the player's records is a full hand's score (5 to 30), the points
      lie between 5 and 30 per game played. */
  lemma {:induction false} TallyPointsBounds(log: seq<GameRecord>, playerId: string)
    requires forall i :: 0 <= i < |log| && log[i].playerId == playerId ==> 5 <= log[i].playerTotal <= 30
    ensures 5 * Tally(log, playerId).totalGames <= Tally(log, playerId).totalPoints <= 30 * Tally(log, playerId).totalGames
  {
    if log != [] {
      var init := log[..|log| - 1];
      assert forall i :: 0 <= i < |init| ==> init[i] == log[i];
      TallyPointsBounds(init, playerId);
    }
  }
}
