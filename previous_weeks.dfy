/** The "previous weeks" page: all games of the season grouped by week, the
    weeks listed in ascending order under a heading each, and a status badge
    per game. */
module PreviousWeeks {
  import opened Schema

  /** The games of one week, in the order they were received. */
  function GamesInWeek(games: seq<Game>, week: int): (r: seq<Game>)
    ensures |r| <= |games|
    ensures forall i :: 0 <= i < |r| ==> r[i].week == week
  {
    if games == [] then []
    else if games[0].week == week then [games[0]] + GamesInWeek(games[1..], week)
    else GamesInWeek(games[1..], week)
  }

  /** A week's group holds exactly the games of that week. */
  lemma {:induction false} GamesInWeekMembers(games: seq<Game>, week: int)
    ensures forall g :: g in GamesInWeek(games, week) <==> g in games && g.week == week
  {
    if games != [] {
      GamesInWeekMembers(games[1..], week);
      assert forall g :: g in games <==> g == games[0] || g in games[1..];
    }
  }

  /** Grouping two consecutive runs of games gives the first run's games of
      the week followed by the second's: relative order is kept. */
  lemma {:induction false} GamesInWeekAppend(a: seq<Game>, b: seq<Game>, week: int)
    ensures GamesInWeek(a + b, week) == GamesInWeek(a, week) + GamesInWeek(b, week)
  {
    if a == [] {
      assert a + b == b;
    } else {
      assert (a + b)[1..] == a[1..] + b;
      GamesInWeekAppend(a[1..], b, week);
    }
  }

  /** The weeks that occur among the games. */
  function WeeksOf(games: seq<Game>): set<int> {
    set g | g in games :: g.week
  }

  /** The intended grouping: one entry per week that occurs, holding that
      week's games in input order. */
  function GroupSpec(games: seq<Game>): map<int, seq<Game>> {
    map w | w in WeeksOf(games) :: GamesInWeek(games, w)
  }

  /** One step of the `reduce`: the game pushed onto its week's list, which
      is created empty if missing. */
  function AddToGroup(groups: map<int, seq<Game>>, game: Game): map<int, seq<Game>> {
    groups[game.week := (if game.week in groups then groups[game.week] else []) + [game]]
  }

  /** A reduce step adds the game's week if missing, puts the game last in
      that week's list after the games already there, and leaves every other
      week as it was. */
  lemma AddToGroupPushes(groups: map<int, seq<Game>>, game: Game)
    ensures var r := AddToGroup(groups, game);
            && r.Keys == groups.Keys + {game.week}
            && |r[game.week]| >= 1 && r[game.week][|r[game.week]| - 1] == game
            && (game.week in groups ==> r[game.week][..|r[game.week]| - 1] == groups[game.week])
            && (game.week !in groups ==> r[game.week] == [game])
            && (forall w :: w in groups && w != game.week ==> r[w] == groups[w])
  {
    var r := AddToGroup(groups, game);
    if game.week in groups {
      assert r[game.week][..|r[game.week]| - 1] == groups[game.week];
    }
  }

  /** Adding one game to the input appends it to its own week's group and
      leaves the other groups alone. */
  lemma GroupSpecSnoc(games: seq<Game>, game: Game)
    ensures GroupSpec(games + [game]) == AddToGroup(GroupSpec(games), game)
  {
    var before, after := GroupSpec(games), GroupSpec(games + [game]);
    var updated := AddToGroup(before, game);
    assert WeeksOf(games + [game]) == WeeksOf(games) + {game.week} by {
      assert forall g :: g in games + [game] <==> g in games || g == game;
    }
    assert after.Keys == updated.Keys;
    forall w | w in after
      ensures after[w] == updated[w]
    {
      GamesInWeekAppend(games, [game], w);
      if w == game.week && w !in before {
        GamesInWeekAbsent(games, w);
      }
    }
  }

  /** A week that does not occur has no games. */
  lemma {:induction false} GamesInWeekAbsent(games: seq<Game>, week: int)
    requires week !in WeeksOf(games)
    ensures GamesInWeek(games, week) == []
  {
    if games != [] {
      assert WeeksOf(games[1..]) <= WeeksOf(games) by {
        assert forall g :: g in games[1..] ==> g in games;
      }
      GamesInWeekAbsent(games[1..], week);
    }
  }

  /** The `reduce` written as a fold: the groups after the given games. */
  function Grouped(games: seq<Game>): map<int, seq<Game>> {
    if games == [] then map[] else AddToGroup(Grouped(games[..|games| - 1]), games[|games| - 1])
  }

  /** The fold builds exactly the intended grouping. */
  lemma {:induction false} GroupedIsGroupSpec(games: seq<Game>)
    ensures Grouped(games) == GroupSpec(games)
  {
    if games == [] {
      assert WeeksOf(games) == {};
    } else {
      var init, last := games[..|games| - 1], games[|games| - 1];
      GroupedIsGroupSpec(init);
      GroupSpecSnoc(init, last);
      assert init + [last] == games;
    }
  }

  /** The `reduce` over all games: create a week's list on first sight, then
      push the game onto it. Missing data (`allGames` undefined) gives `{}`. */
  method GroupByWeek(allGames: Option<seq<Game>>) returns (gamesByWeek: map<int, seq<Game>>)
    ensures allGames.None? ==> gamesByWeek == map[]
    ensures allGames.Some? ==> gamesByWeek == GroupSpec(allGames.value)
  {
    gamesByWeek := map[];
    if allGames.None? {
      return;
    }
    var games := allGames.value;
    var i := 0;
    while i < |games|
      invariant 0 <= i <= |games|
      invariant gamesByWeek == Grouped(games[..i])
    {
      ghost var before := gamesByWeek;
      var game := games[i];
      if game.week !in gamesByWeek {
        gamesByWeek := gamesByWeek[game.week := []];
      }
      gamesByWeek := gamesByWeek[game.week := gamesByWeek[game.week] + [game]];
      assert gamesByWeek == AddToGroup(before, game);
      assert games[..i + 1][..i] == games[..i];
      i := i + 1;
    }
    assert games[..|games|] == games;
    GroupedIsGroupSpec(games);
  }

  /** Every game lands in the group of its own week and in no other; every
      group is non-empty and holds only games of its week. */
  lemma GroupingPartitions(games: seq<Game>)
    ensures GroupSpec(games).Keys == WeeksOf(games)
    ensures forall g :: g in games ==> g.week in GroupSpec(games) && g in GroupSpec(games)[g.week]
    ensures forall w, g :: w in GroupSpec(games) && g in GroupSpec(games)[w] ==> g in games && g.week == w
    ensures forall w :: w in GroupSpec(games) ==> GroupSpec(games)[w] != []
  {
    forall w | w in WeeksOf(games) {
      GamesInWeekMembers(games, w);
    }
  }

  /** No games (or no data at all) means no groups and no weeks. */
  lemma NoGamesNoWeeks()
    ensures GroupSpec([]) == map[]
    ensures Weeks(map[], []) == []
  {
    assert WeeksOf([]) == {};
  }

  /** Strictly ascending, hence without repeats. */
  predicate StrictlyAscending(xs: seq<int>) {
    forall i, j :: 0 <= i < j < |xs| ==> xs[i] < xs[j]
  }

  /** Inserts `x` into an ascending list at its place, unless already there. */
  function Insert(sorted: seq<int>, x: int): (r: seq<int>)
    requires StrictlyAscending(sorted)
    ensures StrictlyAscending(r)
    ensures forall y :: y in r <==> y in sorted || y == x
  {
    if sorted == [] then [x]
    else if x < sorted[0] then
      assert forall y :: y in sorted ==> x < y;
      ConsAscending(x, sorted);
      [x] + sorted
    else if x == sorted[0] then sorted
    else
      var rest := Insert(sorted[1..], x);
      assert forall y :: y in sorted <==> y == sorted[0] || y in sorted[1..];
      assert forall y :: y in rest ==> sorted[0] < y;
      ConsAscending(sorted[0], rest);
      [sorted[0]] + rest
  }

  /** A head below every element of an ascending tail keeps the list ascending. */
  lemma ConsAscending(head: int, tail: seq<int>)
    requires StrictlyAscending(tail)
    requires forall y :: y in tail ==> head < y
    ensures StrictlyAscending([head] + tail)
    ensures forall y :: y in [head] + tail <==> y == head || y in tail
  {
    var r := [head] + tail;
    forall i, j | 0 <= i < j < |r| ensures r[i] < r[j] {
      assert r[j] == tail[j - 1] && tail[j - 1] in tail;
      if i > 0 {
        assert r[i] == tail[i - 1];
      }
    }
  }

  /** `keys.sort((a, b) => a - b)` by insertion, ascending. */
  function SortAscending(keys: seq<int>): (r: seq<int>)
    ensures StrictlyAscending(r)
    ensures forall y :: y in r <==> y in keys
  {
    if keys == [] then []
    else
      var init := keys[..|keys| - 1];
      assert forall y :: y in keys <==> y in init || y == keys[|keys| - 1] by {
        assert keys == init + [keys[|keys| - 1]];
      }
      Insert(SortAscending(init), keys[|keys| - 1])
  }

  /** The first element of a non-empty list occurs in it. */
  lemma HeadIsMember(s: seq<int>)
    ensures |s| > 0 ==> s[0] in s
  {
  }

  /** Two strictly ascending lists with the same elements are the same list. */
  lemma {:induction false} AscendingUnique(a: seq<int>, b: seq<int>)
    requires StrictlyAscending(a) && StrictlyAscending(b)
    requires forall y :: y in a <==> y in b
    ensures a == b
  {
    if a == [] || b == [] {
      HeadIsMember(a);
      HeadIsMember(b);
    } else {
      assert a[0] in b && b[0] in a;
      assert a[0] == b[0] by {
        var i :| 0 <= i < |b| && b[i] == a[0];
        var j :| 0 <= j < |a| && a[j] == b[0];
        assert b[0] <= b[i] && a[0] <= a[j];
      }
      forall y ensures y in a[1..] <==> y in b[1..] {
        assert y in a[1..] <==> y in a && y != a[0];
        assert y in b[1..] <==> y in b && y != b[0];
      }
      AscendingUnique(a[1..], b[1..]);
      assert a == [a[0]] + a[1..] && b == [b[0]] + b[1..];
    }
  }

  /** `Object.keys(gamesByWeek).map(Number).sort((a, b) => a - b)`, where
      `keyOrder` is the order in which the keys are enumerated. */
  function Weeks(gamesByWeek: map<int, seq<Game>>, keyOrder: seq<int>): (weeks: seq<int>)
    requires forall k :: k in keyOrder <==> k in gamesByWeek
    ensures forall w :: w in weeks <==> w in gamesByWeek
    ensures forall i, j :: 0 <= i < j < |weeks| ==> weeks[i] < weeks[j]
  {
    SortAscending(keyOrder)
  }

  /** The week list does not depend on the order the keys are enumerated in. */
  lemma WeeksIgnoreKeyOrder(gamesByWeek: map<int, seq<Game>>, order1: seq<int>, order2: seq<int>)
    requires forall k :: k in order1 <==> k in gamesByWeek
    requires forall k :: k in order2 <==> k in gamesByWeek
    ensures Weeks(gamesByWeek, order1) == Weeks(gamesByWeek, order2)
  {
    AscendingUnique(Weeks(gamesByWeek, order1), Weeks(gamesByWeek, order2));
  }

  /** The decimal digit `d` as a character. */
  function DigitChar(d: int): (c: char)
    requires 0 <= d < 10
    ensures '0' <= c <= '9' && c as int - '0' as int == d
  {
    ('0' as int + d) as char
  }

  /** Every character of `s` is a decimal digit. */
  predicate AllDigits(s: string) {
    forall i :: 0 <= i < |s| ==> '0' <= s[i] <= '9'
  }

  /** The decimal rendering of a natural number, without leading zeros. */
  function NatToString(n: nat): (s: string)
    ensures |s| >= 1 && AllDigits(s)
    ensures s[0] == '0' <==> n == 0
    ensures |s| == 1 || s[0] != '0'
    decreases n
  {
    if n < 10 then [DigitChar(n)] else NatToString(n / 10) + [DigitChar(n % 10)]
  }

  /** How a template literal renders an integer: a minus sign, then digits. */
  function IntToString(n: int): (s: string)
    ensures |s| >= 1
    ensures s[0] == '-' <==> n < 0
    ensures n < 0 ==> |s| >= 2 && AllDigits(s[1..]) && s[1] != '0'
    ensures n >= 0 ==> AllDigits(s) && (|s| == 1 || s[0] != '0')
  {
    if n < 0 then "-" + NatToString(-n) else NatToString(n)
  }

  /** Reads a string of decimal digits back as a number. */
  function ParseDigits(s: string): nat
    requires AllDigits(s)
  {
    if s == [] then 0 else ParseDigits(s[..|s| - 1]) * 10 + (s[|s| - 1] as int - '0' as int)
  }

  /** Reads an optionally signed decimal back as an integer (0 if malformed). */
  function ParseInt(s: string): int {
    if |s| > 0 && s[0] == '-' && AllDigits(s[1..]) then -(ParseDigits(s[1..]) as int)
    else if AllDigits(s) then ParseDigits(s)
    else 0
  }

  /** The decimal rendering of a natural number reads back as that number. */
  lemma {:induction false} NatToStringRoundTrip(n: nat)
    ensures ParseDigits(NatToString(n)) == n
    decreases n
  {
    if n >= 10 {
      NatToStringRoundTrip(n / 10);
      var s := NatToString(n);
      assert s[..|s| - 1] == NatToString(n / 10);
    }
  }

  /** The decimal rendering of an integer reads back as that integer. */
  lemma IntToStringRoundTrip(n: int)
    ensures ParseInt(IntToString(n)) == n
  {
    var s := IntToString(n);
    if n < 0 {
      NatToStringRoundTrip(-n);
      assert s[1..] == NatToString(-n);
    } else {
      NatToStringRoundTrip(n);
      assert '0' <= s[0] <= '9';
    }
  }

  /** `getRoundName(week)`: the playoff weeks get their round's name, every
      other week "Week n". */
  function RoundName(week: int): (name: string)
    ensures 11 <= week <= 14 <==> name in {"WILDCARD", "DIVISIONAL", "CONFERENCE", "SUPER BOWL"}
    ensures week == 11 ==> name == "WILDCARD"
    ensures week == 12 ==> name == "DIVISIONAL"
    ensures week == 13 ==> name == "CONFERENCE"
    ensures week == 14 ==> name == "SUPER BOWL"
    ensures !(11 <= week <= 14) ==> name == "Week " + IntToString(week)
  {
    if week == 11 then "WILDCARD"
    else if week == 12 then "DIVISIONAL"
    else if week == 13 then "CONFERENCE"
    else if week == 14 then "SUPER BOWL"
    else
      var name := "Week " + IntToString(week);
      assert name[1] == 'e';
      name
  }

  /** Different weeks get different headings. */
  lemma RoundNameInjective(w1: int, w2: int)
    requires RoundName(w1) == RoundName(w2)
    ensures w1 == w2
  {
    if !(11 <= w1 <= 14) {
      var s1, s2 := IntToString(w1), IntToString(w2);
      assert s1 == RoundName(w1)[5..];
      assert s2 == RoundName(w2)[5..];
      IntToStringRoundTrip(w1);
      IntToStringRoundTrip(w2);
    }
  }

  /** The badge text of a game card. */
  function StatusLabel(game: Game): (badge: string)
    ensures badge in {"LIVE", "FINAL", "Scheduled"}
  {
    if game.isLive then "LIVE" else if game.isFinal then "FINAL" else "Scheduled"
  }

  /** The score line is shown only on final games. */
  predicate ShowsScore(game: Game) {
    game.isFinal
  }

  /** The badge checks live before final: it says LIVE for every live game,
      FINAL only for a final game that is not live, and Scheduled otherwise;
      the score line follows the final flag alone, so a game flagged both
      live and final shows LIVE and its score. */
  lemma StatusLabelFaithful(game: Game)
    ensures StatusLabel(game) == "LIVE" <==> game.isLive
    ensures StatusLabel(game) == "FINAL" <==> !game.isLive && game.isFinal
    ensures StatusLabel(game) == "Scheduled" <==> !game.isLive && !game.isFinal
    ensures ShowsScore(game) <==> game.isFinal
  {
  }

  /** For a game that is not both live and final, the badge names its state
      exactly, and the score is shown exactly when the badge says FINAL. */
  lemma StatusLabelExclusive(game: Game)
    requires !(game.isLive && game.isFinal)
    ensures StatusLabel(game) == "FINAL" <==> game.isFinal
    ensures ShowsScore(game) <==> StatusLabel(game) == "FINAL"
  {
    StatusLabelFaithful(game);
  }
}
