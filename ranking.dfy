/** The two read-only projections of the stores: the leaderboard (`GET /api/players`) and
    the recent games (`GET /api/games/recent`). */
module Ranking {
  import opened Wrappers
  import opened Sorting
  import opened Records

  /** One leaderboard row. `winRate` is `None` where JavaScript computes `NaN`
      (games played but `wins` missing), which JSON serialises as `null`. */
  datatype Entry = Entry(
    id: string,
    name: string,
    totalGames: nat,
    wins: nat,
    totalPoints: int,
    bestScore: int,
    winRate: Option<nat>)

  /** `Math.round(wins / games * 100)` for non-negative operands: the nearest whole
      percentage, a half rounding up. */
  function RoundedPercent(wins: nat, games: nat): (n: nat)
    requires games > 0
    ensures (2 * n - 1) * games <= 200 * wins < (2 * n + 1) * games
    ensures wins <= games ==> n <= 100
  {
    RoundingIsNearest(wins, games);
    (200 * wins + games) / (2 * games)
  }

  lemma RoundingIsNearest(wins: nat, games: nat)
    requires games > 0
    ensures var n := (200 * wins + games) / (2 * games);
      && (2 * n - 1) * games <= 200 * wins < (2 * n + 1) * games
      && (wins <= games ==> n <= 100)
  {
    var a, b := 200 * wins + games, 2 * games;
    var n, r := a / b, a % b;
    assert a == n * b + r && 0 <= r < b;
    var m := n * games;
    assert n * b == 2 * m;
    assert (2 * n - 1) * games == 2 * m - games;
    assert (2 * n + 1) * games == 2 * m + games;
  }

  /** The `winRate` column: 0 unless `totalGames` is present and positive; then the
      rounded percentage of wins, or `None` (JSON `null`) when `wins` is missing, since
      this expression, unlike the others, has no `|| 0`. */
  function WinRate(p: Player): (rate: Option<nat>)
    ensures p.totalGames.GetOr(0) == 0 ==> rate == Some(0)
    ensures p.totalGames.GetOr(0) > 0 ==> (rate.None? <==> p.wins.None?)
    ensures p.totalGames.GetOr(0) > 0 && p.wins.Some? && p.wins.value <= p.totalGames.value ==> rate.value <= 100
  {
    match p.totalGames
    case None => Some(0)
    case Some(games) =>
      if games == 0 then Some(0)
      else
        match p.wins
        case None => None
        case Some(wins) => Some(RoundedPercent(wins, games))
  }

  /** One player's row: id and name copied, every missing counter shown as 0. */
  function ToEntry(p: Player): (e: Entry)
    ensures e.id == p.id && e.name == p.name && e.winRate == WinRate(p)
    ensures e.totalGames == p.totalGames.GetOr(0) && e.wins == p.wins.GetOr(0)
    ensures e.totalPoints == p.totalPoints.GetOr(0) && e.bestScore == p.bestScore.GetOr(0)
  {
    Entry(p.id, p.name, p.totalGames.GetOr(0), p.wins.GetOr(0), p.totalPoints.GetOr(0), p.bestScore.GetOr(0), WinRate(p))
  }

  function Points(e: Entry): int {
    e.totalPoints
  }

  function CompletedAt(g: GameRecord): int {
    g.completedAt
  }

  /** `Object.values(players).map(...)`: one row per key, in key insertion order. */
  function Rows(players: map<string, Player>, order: seq<string>): (rows: seq<Entry>)
    requires forall i :: 0 <= i < |order| ==> order[i] in players
    ensures |rows| == |order|
    ensures forall i :: 0 <= i < |order| ==> rows[i] == ToEntry(players[order[i]])
  {
    seq(|order|, i requires 0 <= i < |order| => ToEntry(players[order[i]]))
  }

  /** The leaderboard: the rows sorted by non-increasing `totalPoints`, ties kept in
      document order. It has one row per player and is a permutation of the rows. */
  function Leaderboard(players: map<string, Player>, order: seq<string>): (board: seq<Entry>)
    requires forall i :: 0 <= i < |order| ==> order[i] in players
    ensures |board| == |order|
    ensures SortedDesc(board, Points)
    ensures multiset(board) == multiset(Rows(players, order))
  {
    SortDesc(Rows(players, order), Points)
  }

  /** When `order` lists every key of the players document exactly once and every entry
      is stored under its own id, the leaderboard lists every player exactly once: each
      player's row appears, every row is the row of the player its id names, and no id
      appears twice. */
  lemma LeaderboardListsEachPlayerOnce(players: map<string, Player>, order: seq<string>)
    requires Distinct(order)
    requires forall k :: k in players <==> k in order
    requires forall k :: k in players ==> players[k].id == k
    ensures var board := Leaderboard(players, order);
      && |board| == |players|
      && (forall k :: k in players ==> exists i :: 0 <= i < |board| && board[i] == ToEntry(players[k]))
      && (forall i :: 0 <= i < |board| ==> board[i].id in players && board[i] == ToEntry(players[board[i].id]))
      && (forall i, j :: 0 <= i < j < |board| ==> board[i].id != board[j].id)
  {
    var rows := Rows(players, order);
    var board := Leaderboard(players, order);
    KeysCount(players, order);
    EveryPlayerHasARow(players, order, board);
    EveryRowIsAPlayer(players, order, board);
    assert Distinct(rows) by {
      forall i, j | 0 <= i < j < |rows| ensures rows[i] != rows[j] {
        assert rows[i].id == order[i] && rows[j].id == order[j];
      }
    }
    PermutationKeepsDistinct(rows, board);
  }

  lemma KeysCount(players: map<string, Player>, order: seq<string>)
    requires Distinct(order)
    requires forall k :: k in players <==> k in order
    ensures |players| == |order|
  {
    assert players.Keys == set k | k in order;
    DistinctCard(order);
  }

  lemma EveryPlayerHasARow(players: map<string, Player>, order: seq<string>, board: seq<Entry>)
    requires forall k :: k in players <==> k in order
    requires multiset(board) == multiset(Rows(players, order))
    ensures forall k :: k in players ==> exists i :: 0 <= i < |board| && board[i] == ToEntry(players[k])
  {
    var rows := Rows(players, order);
    forall k | k in players ensures exists i :: 0 <= i < |board| && board[i] == ToEntry(players[k]) {
      var j :| 0 <= j < |order| && order[j] == k;
      assert rows[j] in multiset(rows);
      assert ToEntry(players[k]) in multiset(board);
    }
  }

  lemma EveryRowIsAPlayer(players: map<string, Player>, order: seq<string>, board: seq<Entry>)
    requires forall k :: k in players <==> k in order
    requires forall k :: k in players ==> players[k].id == k
    requires multiset(board) == multiset(Rows(players, order))
    ensures forall i :: 0 <= i < |board| ==> board[i].id in players && board[i] == ToEntry(players[board[i].id])
  {
    var rows := Rows(players, order);
    forall i | 0 <= i < |board| ensures board[i].id in players && board[i] == ToEntry(players[board[i].id]) {
      assert board[i] in multiset(rows);
      var j :| 0 <= j < |rows| && rows[j] == board[i];
      assert board[i].id == order[j];
    }
  }

  /** A sequence without repetitions has as many elements as its set. */
  lemma {:induction false} DistinctCard(order: seq<string>)
    requires Distinct(order)
    ensures |set k | k in order| == |order|
  {
    if order != [] {
      var rest := order[1..];
      assert Distinct(rest);
      DistinctCard(rest);
      assert (set k | k in order) == (set k | k in rest) + {order[0]};
      assert order[0] !in rest;
    }
  }

  /** `GET /api/games/recent`: at most ten records, ordered by non-increasing completion
      time, all taken from the log, and no record left out was completed later than any
      record listed. */
  function RecentGames(games: seq<GameRecord>): (recent: seq<GameRecord>)
    ensures |recent| == if |games| < 10 then |games| else 10
    ensures SortedDesc(recent, CompletedAt)
    ensures multiset(recent) <= multiset(games)
    ensures forall g :: g in multiset(games) - multiset(recent) ==>
              forall i :: 0 <= i < |recent| ==> g.completedAt <= recent[i].completedAt
  {
    var sorted := SortDesc(games, CompletedAt);
    var k := if |sorted| < 10 then |sorted| else 10;
    SortedPrefixIsTop(sorted, k);
    sorted[..k]
  }

  /** A prefix of a sorted log holds the latest records: everything after it was completed
      no later than anything in it. */
  lemma SortedPrefixIsTop(sorted: seq<GameRecord>, k: nat)
    requires SortedDesc(sorted, CompletedAt) && k <= |sorted|
    ensures SortedDesc(sorted[..k], CompletedAt)
    ensures multiset(sorted) - multiset(sorted[..k]) == multiset(sorted[k..])
    ensures multiset(sorted[..k]) <= multiset(sorted)
    ensures forall g :: g in multiset(sorted[k..]) ==> forall i :: 0 <= i < k ==> g.completedAt <= sorted[..k][i].completedAt
  {
    assert sorted == sorted[..k] + sorted[k..];
    forall g, i | g in multiset(sorted[k..]) && 0 <= i < k ensures g.completedAt <= sorted[..k][i].completedAt {
      var j :| 0 <= j < |sorted[k..]| && sorted[k..][j] == g;
      assert sorted[k + j] == g;
    }
  }
}
