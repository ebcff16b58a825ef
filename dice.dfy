/** The game engine shared by the server and the game board: one die roll from a
    `Math.random()` draw, the five-roll computer hand, the score sum and the winner rule. */
module Dice {

  /** The `winner` field of a game: `'player'` or `'computer'`. */
  datatype Winner = PlayerWon | ComputerWon

  /** A draw of `Math.random()`. */
  predicate IsDraw(u: real) {
    0.0 <= u < 1.0
  }

  /** `Math.floor(Math.random() * 6) + 1` for the draw `u`. */
  function RollDie(u: real): (face: int)
    requires IsDraw(u)
    ensures 1 <= face <= 6
  {
    (u * 6.0).Floor + 1
  }

  /** Each face is rolled exactly for draws in its own sixth of [0, 1), so with a uniform
      draw the six faces are equally likely. */
  lemma RollDieFace(u: real, k: int)
    requires IsDraw(u) && 1 <= k <= 6
    ensures RollDie(u) == k <==> (k - 1) as real / 6.0 <= u < k as real / 6.0
  {
  }

  /** `rolls.reduce((sum, roll) => sum + roll, 0)`, folding from the left. */
  function Sum(rolls: seq<int>): (total: int)
    ensures (forall i :: 0 <= i < |rolls| ==> 0 <= rolls[i]) ==> 0 <= total
  {
    if rolls == [] then 0 else Sum(rolls[..|rolls| - 1]) + rolls[|rolls| - 1]
  }

  /** The left fold adds up each part separately: the total of two lists of rolls is the
      sum of their totals, so the order of folding does not matter. */
  lemma {:induction false} SumAppend(a: seq<int>, b: seq<int>)
    ensures Sum(a + b) == Sum(a) + Sum(b)
  {
    if b == [] {
      assert a + b == a;
    } else {
      assert (a + b)[..|a + b| - 1] == a + b[..|b| - 1];
      SumAppend(a, b[..|b| - 1]);
    }
  }

  /** Every value is a die face. */
  predicate AllFaces(rolls: seq<int>) {
    forall i :: 0 <= i < |rolls| ==> 1 <= rolls[i] <= 6
  }

  /** A sum of die faces lies between one and six points per roll: 5 to 30 for a full hand. */
  lemma {:induction false} SumOfFaces(rolls: seq<int>)
    ensures AllFaces(rolls) ==> |rolls| <= Sum(rolls) <= 6 * |rolls|
  {
    if rolls != [] {
      SumOfFaces(rolls[..|rolls| - 1]);
    }
  }

  /** `playerTotal > computerTotal ? 'player' : 'computer'`: the player wins only with a
      strictly larger total, so a tie goes to the computer. */
  function DecideWinner(playerTotal: int, computerTotal: int): (w: Winner)
    ensures w == PlayerWon <==> playerTotal > computerTotal
    ensures playerTotal == computerTotal ==> w == ComputerWon
  {
    if playerTotal > computerTotal then PlayerWon else ComputerWon
  }

  /** `computerPlay()`: five rolls, pushed one per loop turn, the i-th from the i-th draw. */
  method ComputerPlay(draws: seq<real>) returns (rolls: seq<int>)
    requires |draws| == 5 && forall i :: 0 <= i < 5 ==> IsDraw(draws[i])
    ensures |rolls| == 5
    ensures AllFaces(rolls)
    ensures forall i :: 0 <= i < 5 ==> rolls[i] == RollDie(draws[i])
  {
    rolls := [];
    var i := 0;
    while i < 5
      invariant 0 <= i <= 5 && |rolls| == i
      invariant forall j :: 0 <= j < i ==> rolls[j] == RollDie(draws[j])
    {
      rolls := rolls + [RollDie(draws[i])];
      i := i + 1;
    }
  }
}
