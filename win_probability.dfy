/** The win-probability estimator shown beside each game: season point
    differential sets a base value, a live score shifts it by how far the game
    has progressed, and the result is rounded and capped to 1..99. */
module WinProbability {
  import opened Schema

  /** The side of the game whose chance is asked for. */
  datatype TeamSide = Team1 | Team2

  /** `standings.find(s => s.team === name)`: the first row for `name`, if any. */
  function Find(standings: seq<Standing>, name: string): (r: Option<Standing>)
    ensures r.None? <==> forall i :: 0 <= i < |standings| ==> standings[i].team != name
    ensures r.Some? ==> exists i :: 0 <= i < |standings| && standings[i] == r.value
                                   && r.value.team == name
                                   && forall j :: 0 <= j < i ==> standings[j].team != name
    ensures forall i :: 0 <= i < |standings| && standings[i].team == name
                        && (forall j :: 0 <= j < i ==> standings[j].team != name)
                        ==> r == Some(standings[i])
  {
    if standings == [] then None
    else if standings[0].team == name then Some(standings[0])
    else
      var rest := Find(standings[1..], name);
      assert rest.Some? ==> exists i :: 0 <= i < |standings[1..]| && standings[1..][i] == rest.value
                                   && forall j :: 0 <= j < i ==> standings[1..][j].team != name;
      assert rest.Some? ==> exists i :: 1 <= i < |standings| && standings[i] == rest.value
                                   && forall j :: 0 <= j < i ==> standings[j].team != name;
      rest
  }

  /** `find(...)?.pointDifferential || 0`: the differential of the first row
      for `name`, or 0 when there are no standings, no row, or a null value. */
  function PointDifferential(standings: Option<seq<Standing>>, name: string): (pd: int)
    ensures standings.None? ==> pd == 0
    ensures standings.Some? && (forall i :: 0 <= i < |standings.value| ==> standings.value[i].team != name)
            ==> pd == 0
    ensures pd != 0 ==>
              && standings.Some?
              && exists i :: 0 <= i < |standings.value| && standings.value[i].team == name
                             && standings.value[i].pointDifferential == Some(pd)
                             && forall j :: 0 <= j < i ==> standings.value[j].team != name
    ensures forall i :: standings.Some? && 0 <= i < |standings.value| && standings.value[i].team == name
                        && (forall j :: 0 <= j < i ==> standings.value[j].team != name)
                        ==> pd == match standings.value[i].pointDifferential
                                  case None => 0
                                  case Some(d) => d
  {
    match standings
    case None => 0
    case Some(rows) =>
      match Find(rows, name)
      case None => 0
      case Some(row) =>
        match row.pointDifferential
        case None => 0
        case Some(d) => d
  }

  /** The live adjustment applies when the game is live and its quarter is
      present, non-empty and not "Scheduled". */
  predicate LiveBranch(game: Game) {
    game.isLive && game.quarter.Some? && game.quarter.value != "" && game.quarter.value != "Scheduled"
  }

  /** What the source needs of a game: scores present whenever the live branch
      reads them (it asserts them non-null). */
  predicate ScoresWhenLive(game: Game) {
    LiveBranch(game) ==> game.team1Score.Some? && game.team2Score.Some?
  }

  /** Progress weight of a quarter; anything unrecognised counts as half-time. */
  function QuarterProgress(quarter: string): (w: real)
    ensures 0.25 <= w <= 0.8
    ensures quarter == "Q1" ==> w == 0.25
    ensures quarter == "Q2" ==> w == 0.4
    ensures quarter == "Q3" ==> w == 0.6
    ensures quarter == "Q4" ==> w == 0.8
    ensures quarter !in {"Q1", "Q2", "Q3", "Q4"} ==> w == 0.5
  {
    if quarter == "Q1" then 0.25
    else if quarter == "Q2" then 0.4
    else if quarter == "Q3" then 0.6
    else if quarter == "Q4" then 0.8
    else 0.5
  }

  /** The same weight times 20, an integer: 60 times the score impact of a
      score difference `d` is `QuarterFactor(q) * d`. */
  function QuarterFactor(quarter: string): (k: int)
    ensures k as real == 20.0 * QuarterProgress(quarter)
  {
    if quarter == "Q1" then 5
    else if quarter == "Q2" then 8
    else if quarter == "Q3" then 12
    else if quarter == "Q4" then 16
    else 10
  }

  /** The unrounded probability (in percent) that team1 wins: the base value
      from the differentials, raised by a live lead and lowered by a live
      deficit, and untouched by a tie or outside the live branch. */
  function RawProbability(game: Game, standings: Option<seq<Standing>>): (p: real)
    requires ScoresWhenLive(game)
    ensures var base := 50.0 + (PointDifferential(standings, game.team1) - PointDifferential(standings, game.team2)) as real / 20.0;
            && (!LiveBranch(game) ==> p == base)
            && (LiveBranch(game) ==>
                  && (game.team1Score.value > game.team2Score.value <==> p > base)
                  && (game.team1Score.value == game.team2Score.value <==> p == base)
                  && (game.team1Score.value < game.team2Score.value <==> p < base))
  {
    var pdDifference := PointDifferential(standings, game.team1) - PointDifferential(standings, game.team2);
    var probability := 50.0 + pdDifference as real / 20.0;
    if LiveBranch(game) then
      var scoreDifference := game.team1Score.value - game.team2Score.value;
      probability + (scoreDifference as real / 3.0) * QuarterProgress(game.quarter.value)
    else probability
  }

  /** `Math.round`: the nearest integer, halves rounded up. */
  function Round(x: real): (n: int)
    ensures x - 0.5 < n as real <= x + 0.5
  {
    (x + 0.5).Floor
  }

  /** `Math.max(1, Math.min(99, n))`. */
  function Clamp(n: int): (r: int)
    ensures 1 <= r <= 99
    ensures 1 <= n <= 99 ==> r == n
    ensures n < 1 ==> r == 1
    ensures n > 99 ==> r == 99
  {
    if n > 99 then 99 else if n < 1 then 1 else n
  }

  /** `calculateWinProbability(game, team, standings)`: the rounded, capped
      team1 value, or 100 minus it for team2. */
  function CalculateWinProbability(game: Game, team: TeamSide, standings: Option<seq<Standing>>): (p: int)
    requires ScoresWhenLive(game)
    ensures 1 <= p <= 99
  {
    var probability := Clamp(Round(RawProbability(game, standings)));
    if team == Team1 then probability else 100 - probability
  }

  /** The two sides' chances always add up to exactly 100. */
  lemma ComplementSumsTo100(game: Game, standings: Option<seq<Standing>>)
    requires ScoresWhenLive(game)
    ensures CalculateWinProbability(game, Team1, standings) + CalculateWinProbability(game, Team2, standings) == 100
  {
  }

  /** Without the live branch, the scores do not influence the result. */
  lemma ScoresIgnoredUnlessLive(game: Game, score1: Option<int>, score2: Option<int>,
                                team: TeamSide, standings: Option<seq<Standing>>)
    requires !LiveBranch(game)
    ensures CalculateWinProbability(game, team, standings)
         == CalculateWinProbability(game.(team1Score := score1, team2Score := score2), team, standings)
  {
  }

  /** Equal differentials and no live adjustment give an even 50 for both. */
  lemma EvenMatchupIsFifty(game: Game, standings: Option<seq<Standing>>)
    requires !LiveBranch(game)
    requires PointDifferential(standings, game.team1) == PointDifferential(standings, game.team2)
    ensures CalculateWinProbability(game, Team1, standings) == 50
    ensures CalculateWinProbability(game, Team2, standings) == 50
  {
  }

  /** Raising team1's differential, all else fixed, never lowers team1's
      chance and never raises team2's. */
  lemma MonotoneInTeam1Differential(game: Game, before: Option<seq<Standing>>, after: Option<seq<Standing>>)
    requires ScoresWhenLive(game)
    requires PointDifferential(before, game.team1) <= PointDifferential(after, game.team1)
    requires PointDifferential(before, game.team2) == PointDifferential(after, game.team2)
    ensures CalculateWinProbability(game, Team1, before) <= CalculateWinProbability(game, Team1, after)
    ensures CalculateWinProbability(game, Team2, before) >= CalculateWinProbability(game, Team2, after)
  {
    assert RawProbability(game, before) <= RawProbability(game, after);
  }

  /** With team1 ahead on the scoreboard, the same game in Q4 gives team1 at
      least the chance it gets in Q1. */
  lemma LateLeadCountsMore(game: Game, standings: Option<seq<Standing>>)
    requires game.isLive && game.team1Score.Some? && game.team2Score.Some?
    requires game.team1Score.value > game.team2Score.value
    ensures CalculateWinProbability(game.(quarter := Some("Q1")), Team1, standings)
         <= CalculateWinProbability(game.(quarter := Some("Q4")), Team1, standings)
  {
    var q1, q4 := game.(quarter := Some("Q1")), game.(quarter := Some("Q4"));
    assert LiveBranch(q1) && LiveBranch(q4);
    assert RawProbability(q1, standings) <= RawProbability(q4, standings);
  }

  /** 60 times the unrounded team1 value, an integer:
      `3000 + 3 * pdDifference + k * scoreDifference` with k = 5, 8, 12, 16
      for Q1 to Q4 and 10 otherwise (no score term outside the live branch). */
  function ScaledProbability(game: Game, standings: Option<seq<Standing>>): int
    requires ScoresWhenLive(game)
  {
    var pdDifference := PointDifferential(standings, game.team1) - PointDifferential(standings, game.team2);
    3000 + 3 * pdDifference
      + (if LiveBranch(game)
         then QuarterFactor(game.quarter.value) * (game.team1Score.value - game.team2Score.value)
         else 0)
  }

  /** The real-valued formula is exactly the scaled integer over 60. */
  lemma RawIsScaledOver60(game: Game, standings: Option<seq<Standing>>)
    requires ScoresWhenLive(game)
    ensures 60.0 * RawProbability(game, standings) == ScaledProbability(game, standings) as real
  {
    if LiveBranch(game) {
      var d := game.team1Score.value - game.team2Score.value;
      var q := game.quarter.value;
      assert 60.0 * ((d as real / 3.0) * QuarterProgress(q)) == (QuarterFactor(q) * d) as real;
    }
  }

  /** The whole computation in integers: rounding is `(60p + 30) / 60` in
      floor division, so no fractional arithmetic is needed. */
  lemma ScaledIntegerForm(game: Game, standings: Option<seq<Standing>>)
    requires ScoresWhenLive(game)
    ensures CalculateWinProbability(game, Team1, standings) == Clamp((ScaledProbability(game, standings) + 30) / 60)
  {
    RawIsScaledOver60(game, standings);
    RoundScaled(ScaledProbability(game, standings), RawProbability(game, standings));
  }

  /** Rounding a value whose 60-fold is the integer `s` is floor division. */
  lemma RoundScaled(s: int, x: real)
    requires 60.0 * x == s as real
    ensures Round(x) == (s + 30) / 60
  {
    var q, m := (s + 30) / 60, (s + 30) % 60;
    assert s + 30 == 60 * q + m && 0 <= m < 60;
    assert x + 0.5 == q as real + m as real / 60.0;
  }

  /** The code rounds first and then caps; capping the real value first and
      then rounding gives the same integer. */
  lemma RoundThenClampIsClampThenRound(x: real)
    ensures Clamp(Round(x)) == Round(if x < 1.0 then 1.0 else if x > 99.0 then 99.0 else x)
  {
  }

  /** PDs 40 and 0: 52 before kickoff; live in Q3 at 21-10 the raw value is
      54.2, so team1 shows 54 and team2 46. */
  lemma WorkedExample()
    ensures var standings := Some([Standing("A", Some(40)), Standing("B", Some(0))]);
            var scheduled := Game("g", 1, "A", "B", None, None, false, false, Some("Scheduled"));
            var live := scheduled.(team1Score := Some(21), team2Score := Some(10), isLive := true, quarter := Some("Q3"));
            && CalculateWinProbability(scheduled, Team1, standings) == 52
            && RawProbability(live, standings) == 54.2
            && CalculateWinProbability(live, Team1, standings) == 54
            && CalculateWinProbability(live, Team2, standings) == 46
  {
    var standings := Some([Standing("A", Some(40)), Standing("B", Some(0))]);
    assert PointDifferential(standings, "A") == 40;
    assert PointDifferential(standings, "B") == 0;
  }
}
