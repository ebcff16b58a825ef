/** The recent-games panel: how long ago a game was completed, and which games the full
    view lists. */
module RecentGamesView {
  import opened Wrappers

  const MsPerMinute := 60000
  const MsPerHour := 3600000
  const MsPerDay := 86400000

  /** The `completedAt` string as `formatTime` sees it: missing or empty, not a date, or a
      date that lies `diffMs` milliseconds before the current time (negative in the future). */
  datatype Timestamp = Missing | Unparseable | Elapsed(diffMs: int)

  datatype TimeLabel = UnknownTime | InvalidTime | JustNow | MinutesAgo(n: nat) | HoursAgo(n: nat) | DaysAgo(n: nat)

  /** `formatTime`: exactly one bucket applies. Under a minute (the future included) is
      "just now"; up to an hour the whole minutes, 1 to 59; up to a day the whole hours,
      1 to 23; beyond that the whole days, at least 1. Each count is the elapsed time
      rounded down to its unit. */
  function FormatTime(t: Timestamp): (bucket: TimeLabel)
    ensures t.Missing? ==> bucket == UnknownTime
    ensures t.Unparseable? ==> bucket == InvalidTime
    ensures t.Elapsed? && t.diffMs < MsPerMinute ==> bucket == JustNow
    ensures t.Elapsed? && MsPerMinute <= t.diffMs < MsPerHour ==>
              bucket.MinutesAgo? && 1 <= bucket.n <= 59
              && bucket.n * MsPerMinute <= t.diffMs < (bucket.n + 1) * MsPerMinute
    ensures t.Elapsed? && MsPerHour <= t.diffMs < MsPerDay ==>
              bucket.HoursAgo? && 1 <= bucket.n <= 23
              && bucket.n * MsPerHour <= t.diffMs < (bucket.n + 1) * MsPerHour
    ensures t.Elapsed? && MsPerDay <= t.diffMs ==>
              bucket.DaysAgo? && 1 <= bucket.n
              && bucket.n * MsPerDay <= t.diffMs < (bucket.n + 1) * MsPerDay
  {
    match t
    case Missing => UnknownTime
    case Unparseable => InvalidTime
    case Elapsed(diffMs) =>
      // Dafny's `/` by a positive divisor rounds down, as `Math.floor` of the quotient does.
      var minutes := diffMs / MsPerMinute;
      var hours := diffMs / MsPerHour;
      var days := diffMs / MsPerDay;
      if minutes < 1 then JustNow
      else if minutes < 60 then MinutesAgo(minutes)
      else if hours < 24 then HoursAgo(hours)
      else DaysAgo(days)
  }

  function DigitChar(d: nat): char
    requires d < 10
  {
    ('0' as int + d) as char
  }

  /** `${n}`: the decimal numeral of `n`. */
  function Decimal(n: nat): (s: string)
    ensures |s| >= 1 && forall i :: 0 <= i < |s| ==> '0' <= s[i] <= '9'
    ensures |s| == 1 <==> n < 10
    ensures |s| == 1 || s[0] != '0'
  {
    if n < 10 then [DigitChar(n)] else Decimal(n / 10) + [DigitChar(n % 10)]
  }

  /** Reads a decimal numeral back. */
  function ParseDecimal(s: string): nat
    requires forall i :: 0 <= i < |s| ==> '0' <= s[i] <= '9'
  {
    if s == [] then 0 else ParseDecimal(s[..|s| - 1]) * 10 + (s[|s| - 1] as int - '0' as int)
  }

  /** The numeral names its number: reading it back gives `n`, so distinct counts are
      shown differently. */
  lemma {:induction false} DecimalRoundTrip(n: nat)
    ensures ParseDecimal(Decimal(n)) == n
  {
    if n >= 10 {
      var d := Decimal(n / 10);
      var s := d + [DigitChar(n % 10)];
      assert Decimal(n) == s && s[..|s| - 1] == d;
      DecimalRoundTrip(n / 10);
    }
  }

  /** The text shown for a label: never empty, and it starts with a digit exactly when it
      shows a count. */
  function LabelText(bucket: TimeLabel): (text: string)
    ensures text != []
    ensures '0' <= text[0] <= '9' <==> bucket.MinutesAgo? || bucket.HoursAgo? || bucket.DaysAgo?
  {
    match bucket
    case UnknownTime => "Unknown time"
    case InvalidTime => "Invalid time"
    case JustNow => "przed chwilą"
    case MinutesAgo(n) => Decimal(n) + " min temu"
    case HoursAgo(n) => Decimal(n) + " godz. temu"
    case DaysAgo(n) => Decimal(n) + " dni temu"
  }

  /** Different labels are shown as different texts, so the text tells which bucket and
      which count `formatTime` chose. */
  lemma LabelTextInjective(a: TimeLabel, b: TimeLabel)
    ensures LabelText(a) == LabelText(b) ==> a == b
  {
    if LabelText(a) == LabelText(b) && (a.MinutesAgo? || a.HoursAgo? || a.DaysAgo?) {
      assert b.MinutesAgo? || b.HoursAgo? || b.DaysAgo?;
      var da, db := Decimal(a.n), Decimal(b.n);
      var ua, ub := LabelText(a)[|da|..], LabelText(b)[|db|..];
      assert LabelText(a) == da + ua && LabelText(b) == db + ub;
      SplitAtFirstNonDigit(da, ua, db, ub);
      DecimalRoundTrip(a.n);
      DecimalRoundTrip(b.n);
    }
  }

  /** A numeral followed by a text that starts with a non-digit splits in one way only. */
  lemma SplitAtFirstNonDigit(x: string, s: string, y: string, t: string)
    requires forall i :: 0 <= i < |x| ==> '0' <= x[i] <= '9'
    requires forall i :: 0 <= i < |y| ==> '0' <= y[i] <= '9'
    requires s != [] && !('0' <= s[0] <= '9') && t != [] && !('0' <= t[0] <= '9')
    requires x + s == y + t
    ensures x == y && s == t
  {
    FirstNonDigit(x, s);
    FirstNonDigit(y, t);
    assert x == (x + s)[..|x|] && y == (y + t)[..|y|];
  }

  /** In a numeral followed by a non-digit, the first non-digit sits right after the numeral. */
  lemma FirstNonDigit(x: string, s: string)
    requires forall i :: 0 <= i < |x| ==> '0' <= x[i] <= '9'
    requires s != [] && !('0' <= s[0] <= '9')
    ensures forall i :: 0 <= i < |x| ==> '0' <= (x + s)[i] <= '9'
    ensures !('0' <= (x + s)[|x|] <= '9')
  {
  }

  /** A game as the panel receives it; `None` is a field the JSON object lacks. */
  datatype GameView = GameView(
    id: string,
    playerName: string,
    playerRolls: seq<int>,
    playerTotal: Option<int>,
    computerRolls: seq<int>,
    computerTotal: Option<int>,
    winner: string,
    completedAt: Option<string>)

  /** A truthy `completedAt` and both totals defined: a game lacking any of the three is
      never complete. */
  function IsComplete(g: GameView): (complete: bool)
    ensures g.completedAt.None? || g.playerTotal.None? || g.computerTotal.None? ==> !complete
    ensures complete ==> |g.completedAt.value| > 0
  {
    g.completedAt.Some? && g.completedAt.value != [] && g.playerTotal.Some? && g.computerTotal.Some?
  }

  /** `completedGames`: the complete games of the input, and only those. */
  function CompletedGames(games: seq<GameView>): (kept: seq<GameView>)
    ensures |kept| <= |games|
    ensures forall i :: 0 <= i < |kept| ==> IsComplete(kept[i])
  {
    if games == [] then []
    else if IsComplete(games[0]) then [games[0]] + CompletedGames(games[1..])
    else CompletedGames(games[1..])
  }

  /** The filter keeps every complete game as often as the input has it. */
  lemma {:induction false} CompletedGamesCounts(games: seq<GameView>)
    ensures forall g :: multiset(CompletedGames(games))[g] == if IsComplete(g) then multiset(games)[g] else 0
  {
    if games != [] {
      assert games == [games[0]] + games[1..];
      CompletedGamesCounts(games[1..]);
    }
  }

  /** The filter keeps the input's order: filtering a concatenation concatenates the
      filtered parts. */
  lemma {:induction false} CompletedGamesKeepsOrder(a: seq<GameView>, b: seq<GameView>)
    ensures CompletedGames(a + b) == CompletedGames(a) + CompletedGames(b)
  {
    if a == [] {
      assert a + b == b;
    } else {
      var x, tail := a[0], a[1..];
      assert a == [x] + tail;
      assert a + b == [x] + (tail + b);
      CompletedGamesKeepsOrder(tail, b);
      CompletedGamesCons(x, tail + b);
      CompletedGamesCons(x, tail);
    }
  }

  /** Filtering a list that starts with `x` keeps `x` exactly when it is complete. */
  lemma CompletedGamesCons(x: GameView, s: seq<GameView>)
    ensures CompletedGames([x] + s) == if IsComplete(x) then [x] + CompletedGames(s) else CompletedGames(s)
  {
    var xs := [x] + s;
    assert xs[0] == x && xs[1..] == s;
  }

  /** The games each view lists: the compact view every game as received, the full view
      only the complete ones. */
  function VisibleGames(games: seq<GameView>, compact: bool): (shown: seq<GameView>)
    ensures compact ==> shown == games
    ensures !compact ==> forall g :: g in shown <==> g in games && IsComplete(g)
  {
    if compact then games
    else
      var kept := CompletedGames(games);
      CompletedGamesCounts(games);
      assert forall g :: g in kept <==> multiset(kept)[g] > 0;
      kept
  }
}
