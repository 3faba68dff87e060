# NFL pick'em client core in Dafny

This project models the computing core of the web client of a small NFL
pick'em / playoff site. It covers three parts.

- **Win probability** (`win_probability.dfy`, module `WinProbability`). This
  is the percentage shown beside each game. The base value is
  `50 + pdDifference / 20`, from the two teams' season point differentials
  (the first standings row for each team; 0 when there is no row or no value).
  A live game with a known quarter other than "Scheduled" adds
  `(scoreDifference / 3) * progress`. The progress is 0.25, 0.4, 0.6 or 0.8
  for Q1 to Q4 and 0.5 for anything else. The value is rounded half up,
  capped to 1..99, and team2 gets `100 - p`. The arithmetic uses exact
  `real`s.
- **Playoff bracket** (`playoffs.dfy`, module `Playoffs`). The page keeps the
  eleven-match bracket as state:
  - left and right play-in, divisional and conference matches, then the
    final "sb";
  - every edit replaces one field of the match with a given id, and only when
    the user is authenticated;
  - a column is the bracket filtered by round and side;
  - typing a name into a slot stores a team whose id is derived from the match
    and the slot, and an empty input clears the slot;
  - the "W" buttons, offered only when both slots are filled, record a slot's
    team id as the winner.

  The state is the class `Bracket`, with a `seq` field that the methods
  reassign.
- **Previous weeks** (`previous_weeks.dfy`, module `PreviousWeeks`). All games
  are grouped by week with a loop that creates a week's list on first sight
  and pushes each game onto it. The weeks are listed in ascending order. Each
  week gets a heading (the four playoff weeks 11 to 14 get round names) and
  each game a status badge.

`schema.dfy` (module `Schema`) holds the shared records: `Game` and
`Standing`, plus an `Option`. The shared schema file is not part of this
model. The record fields are the ones the three core files read.

## Model

| member | source | states |
|---|---|---|
| WinProbability.Find | client/src/lib/winProbability.ts:14-15 | `find` yields nothing exactly when no row has the team's name; otherwise it yields a row with that name, and no earlier row has that name (the first match) |
| WinProbability.PointDifferential | client/src/lib/winProbability.ts:14-18 | the differential is 0 without standings or without a row for the team; when the team has a first row, the result is that row's `pointDifferential`, or 0 if it is null |
| WinProbability.LiveBranch | client/src/lib/winProbability.ts:25 | the live adjustment applies exactly when the game is live and its quarter is present, non-empty and not "Scheduled" (a definition; its consequences are stated by `RawProbability` and `ScoresIgnoredUnlessLive`) |
| WinProbability.RawProbability | client/src/lib/winProbability.ts:20-41 | outside the live branch the unrounded value is `50 + pdDifference / 20`; in the live branch it lies above that base exactly when team1 leads, on it exactly on a tie, and below it exactly when team1 trails |
| WinProbability.QuarterProgress | client/src/lib/winProbability.ts:29-36 | Q1, Q2, Q3 and Q4 weigh 0.25, 0.4, 0.6 and 0.8; any other quarter falls back to 0.5; so every weight lies in 0.25..0.8 |
| WinProbability.QuarterFactor | client/src/lib/winProbability.ts:29-36 | the integer quarter factor is exactly 20 times the progress weight (5, 8, 12, 16 for Q1 to Q4, 10 otherwise) |
| WinProbability.Round | client/src/lib/winProbability.ts:44 | `Math.round` gives the integer within half of x, with halves going up (`x - 0.5 < n <= x + 0.5`) |
| WinProbability.Clamp | client/src/lib/winProbability.ts:44 | the result lies in 1..99; values inside are unchanged, values below become 1 and values above become 99 |
| WinProbability.CalculateWinProbability | client/src/lib/winProbability.ts:9-52 | every probability shown lies in 1..99 |
| WinProbability.ComplementSumsTo100 | client/src/lib/winProbability.ts:46-51 | team1's and team2's probabilities for the same game add up to exactly 100 |
| WinProbability.ScoresIgnoredUnlessLive | client/src/lib/winProbability.ts:25-41 | outside the live branch, changing either score never changes the result |
| WinProbability.EvenMatchupIsFifty | client/src/lib/winProbability.ts:20-22 | equal differentials and no live adjustment give 50 to both teams |
| WinProbability.MonotoneInTeam1Differential | client/src/lib/winProbability.ts:17-22 | a higher team1 differential never lowers team1's chance and never raises team2's |
| WinProbability.LateLeadCountsMore | client/src/lib/winProbability.ts:28-40 | with team1 leading in a live game, its chance in Q4 is at least its chance in Q1 |
| WinProbability.RawIsScaledOver60 | client/src/lib/winProbability.ts:20-40 | 60 times the unrounded value is the integer `3000 + 3*pdDifference + k*scoreDifference` (k = 5, 8, 12, 16, or 10 when the quarter is unrecognised) |
| WinProbability.RoundScaled | client/src/lib/winProbability.ts:44 | rounding a value whose 60-fold is the integer s equals `(s + 30) / 60` in floor division |
| WinProbability.ScaledIntegerForm | client/src/lib/winProbability.ts:9-52 | the whole computation equals `Clamp((S + 30) / 60)`, using only integer arithmetic |
| WinProbability.RoundThenClampIsClampThenRound | client/src/lib/winProbability.ts:44 | rounding then capping (as the code does) gives the same integer as capping then rounding |
| WinProbability.WorkedExample | client/src/lib/winProbability.ts:9-52 | with PDs 40 and 0, a scheduled game shows 52; live in Q3 at 21-10, the raw value is 54.2 and the display is 54/46 |
| Playoffs.InitialBracket | client/src/pages/Playoffs.tsx:41-60 | the starting bracket has eleven matches, the last being the final "sb" in round 4, tagged left (its columns and ids are stated by `InitialColumns` and `InitialIdsDistinct`) |
| Playoffs.WithField | client/src/pages/Playoffs.tsx:66 | the spread update replaces exactly the named field and keeps id, round, side and the other fields |
| Playoffs.UpdateById | client/src/pages/Playoffs.tsx:64-68 | the `map` keeps the length; matches with the id get the field replaced, all others are unchanged |
| Playoffs.Select | client/src/pages/Playoffs.tsx:72 | the filter is never longer than the bracket, and every match it returns has the asked round and side |
| Playoffs.SelectMembers | client/src/pages/Playoffs.tsx:71-73 | the filter holds exactly the bracket's matches of that round and side |
| Playoffs.SelectAppend | client/src/pages/Playoffs.tsx:71-73 | the filter keeps bracket order: filtering two consecutive stretches gives the two results one after the other |
| Playoffs.SlotTeamIdInjective | client/src/pages/Playoffs.tsx:84-87 | equal slot-derived team ids come from the same match and the same slot |
| Playoffs.TeamEntry | client/src/pages/Playoffs.tsx:84-87 | empty text stores no team; other text stores a team with that name and the id `matchId-t1` / `-t2` of its slot |
| Playoffs.TeamIdIndependentOfName | client/src/pages/Playoffs.tsx:109-112 | any two names typed into the same slot get the same team id |
| Playoffs.WinnerOffered | client/src/pages/Playoffs.tsx:127 | the winner buttons appear exactly for an authenticated user when both slots hold a team (a definition; it is the precondition of `SelectWinner`) |
| Playoffs.Layout | client/src/pages/Playoffs.tsx:41-60 | the skeleton has one (id, round, side) triple per match, in bracket order |
| Playoffs.InitialIdsDistinct | client/src/pages/Playoffs.tsx:41-60 | the starting bracket has eleven matches with pairwise distinct ids |
| Playoffs.InitialColumns | client/src/pages/Playoffs.tsx:41-60 | the starting columns are two matches per side in rounds 1 and 2, one per side in round 3, the single final "sb" in round 4 left, and nothing in round 4 right |
| Playoffs.InitialSlotsEmpty | client/src/pages/Playoffs.tsx:41-60 | every slot and winner of the starting bracket is empty |
| Playoffs.EntrySetsSlot | client/src/pages/Playoffs.tsx:83-88 | after a slot edit, that slot of every match with the id holds exactly the entered team |
| Playoffs.EntryKeepsTeamIds | client/src/pages/Playoffs.tsx:83-88 | a slot edit keeps every team's id derived from its match and slot |
| Playoffs.Bracket.constructor | client/src/pages/Playoffs.tsx:41-60 | the page starts from the fixed bracket, with a valid skeleton and consistent team ids |
| Playoffs.Bracket.ValidIdsDistinct | client/src/pages/Playoffs.tsx:41-69 | in any state reachable by edits, match ids stay distinct |
| Playoffs.Bracket.UpdateMatch | client/src/pages/Playoffs.tsx:62-69 | without authentication nothing changes; otherwise the bracket becomes the id-wise update; the skeleton is kept, and an unknown id changes nothing |
| Playoffs.Bracket.GetMatches | client/src/pages/Playoffs.tsx:71-73 | a column holds exactly the current matches of that round and side |
| Playoffs.Bracket.EnterTeam | client/src/pages/Playoffs.tsx:83-88 | an authenticated edit of a slot's input leaves every match with that id holding exactly the entered team; slot-derived ids and the skeleton are preserved |
| Playoffs.Bracket.SelectWinner | client/src/pages/Playoffs.tsx:127-146 | pressing a "W" button (offered only when authenticated with both slots filled) sets the match's winner to that slot's team id, which is `matchId-t1` / `-t2` when the ids follow their slots |
| PreviousWeeks.GamesInWeek | client/src/pages/PreviousWeeks.tsx:28-34 | a week's list is never longer than the input and holds only games of that week |
| PreviousWeeks.GamesInWeekMembers | client/src/pages/PreviousWeeks.tsx:28-34 | a week's list holds exactly the games of that week |
| PreviousWeeks.GamesInWeekAppend | client/src/pages/PreviousWeeks.tsx:28-34 | a week's list keeps the games in the order they were received |
| PreviousWeeks.GamesInWeekAbsent | client/src/pages/PreviousWeeks.tsx:28-34 | a week that does not occur has no games |
| PreviousWeeks.AddToGroupPushes | client/src/pages/PreviousWeeks.tsx:29-32 | a reduce step adds the game's week if it is missing, puts the game last in that week's list after the games already there, and leaves every other week unchanged |
| PreviousWeeks.GroupSpecSnoc | client/src/pages/PreviousWeeks.tsx:29-32 | one reduce step pushes the game onto its own week's list (created empty if missing) and leaves the other weeks alone |
| PreviousWeeks.GroupedIsGroupSpec | client/src/pages/PreviousWeeks.tsx:28-34 | folding the reduce step over the games builds exactly the week-to-games grouping |
| PreviousWeeks.GroupByWeek | client/src/pages/PreviousWeeks.tsx:28-34 | missing data gives `{}`; otherwise the loop builds the grouping: each week that occurs maps to its games in input order |
| PreviousWeeks.GroupingPartitions | client/src/pages/PreviousWeeks.tsx:28-34 | the keys are exactly the weeks that occur; every game is in its own week's list and no other; lists are non-empty |
| PreviousWeeks.NoGamesNoWeeks | client/src/pages/PreviousWeeks.tsx:34-36 | no games give no groups and no weeks |
| PreviousWeeks.Insert | client/src/pages/PreviousWeeks.tsx:36 | inserting into a strictly ascending list keeps it strictly ascending and adds exactly the new element |
| PreviousWeeks.SortAscending | client/src/pages/PreviousWeeks.tsx:36 | the sorted keys are strictly ascending and are exactly the given keys |
| PreviousWeeks.AscendingUnique | client/src/pages/PreviousWeeks.tsx:36 | two strictly ascending lists with the same elements are equal, so the sorted result is unique |
| PreviousWeeks.Weeks | client/src/pages/PreviousWeeks.tsx:36 | the week list holds exactly the grouped weeks, in strictly ascending order |
| PreviousWeeks.WeeksIgnoreKeyOrder | client/src/pages/PreviousWeeks.tsx:36 | the week list does not depend on the order in which the keys are enumerated |
| PreviousWeeks.NatToString | client/src/pages/PreviousWeeks.tsx:43 | a week number renders as a non-empty string of decimal digits without leading zeros; it starts with '0' only for 0 itself |
| PreviousWeeks.IntToString | client/src/pages/PreviousWeeks.tsx:43 | a number renders with a leading '-' exactly when negative, followed by decimal digits without leading zeros |
| PreviousWeeks.IntToStringRoundTrip | client/src/pages/PreviousWeeks.tsx:43 | the rendered week number reads back as the same integer |
| PreviousWeeks.RoundName | client/src/pages/PreviousWeeks.tsx:38-44 | week 11 is WILDCARD, 12 DIVISIONAL, 13 CONFERENCE and 14 SUPER BOWL; a round name appears exactly for those weeks, and every other week gets "Week " and its number |
| PreviousWeeks.RoundNameInjective | client/src/pages/PreviousWeeks.tsx:38-44 | different weeks never get the same heading |
| PreviousWeeks.StatusLabel | client/src/pages/PreviousWeeks.tsx:56 | the badge text is always one of LIVE, FINAL and Scheduled |
| PreviousWeeks.ShowsScore | client/src/pages/PreviousWeeks.tsx:63 | the score line is shown exactly for final games (a definition; related to the badge by `StatusLabelFaithful`) |
| PreviousWeeks.StatusLabelFaithful | client/src/pages/PreviousWeeks.tsx:56-67 | for every game the badge checks live before final: LIVE exactly for live games, FINAL exactly for final games that are not live, Scheduled otherwise; the score line shows exactly for final games, so a game flagged both shows LIVE and its score |
| PreviousWeeks.StatusLabelExclusive | client/src/pages/PreviousWeeks.tsx:56-67 | when the two flags exclude each other, FINAL is shown exactly for final games and the score line exactly when the badge says FINAL |

## Left out

- Rendering (JSX, CSS classes, the `BracketColumn` spacing, the team
  `datalist`, links and skeleton loaders) is not modelled. It computes nothing
  that the page's state depends on.
- React hooks are left out. `useAuth` becomes the `isAuthenticated`
  parameter, and the games query becomes the `allGames: Option<seq<Game>>`
  parameter. The loading and error screens are not modelled.
- App.tsx, Header.tsx, Landing.tsx and nflTeams.ts (routing, navigation and
  the team name list) are not part of this model.
- Server-side creating, deleting and seeding of bracket matches and games,
  with their error responses, is not part of this model. The client page keeps
  the bracket only in local state and never sends it anywhere.
- WinProbability.CalculateWinProbability: IEEE-754 doubles are replaced by
  exact reals. Floating-point rounding at exact halves (such as x.5 produced
  by inexact division) is not captured.
- WinProbability.CalculateWinProbability: requires both scores present
  whenever the live branch reads them (`ScoresWhenLive`). The `!` in the
  source is a type annotation only and checks nothing when the code runs. In
  the subtraction a null score counts as 0 and an undefined one gives `NaN`.
  The model covers neither case.
- Playoffs.Bracket.UpdateMatch: the field is one of team1, team2 and winner,
  the only keys the page ever passes. The source accepts any key, including
  `id`, `round` and `side`. The promise that an edit keeps the skeleton rests
  on this restriction.
- WinProbability.QuarterProgress: a quarter string that names an inherited
  object property (such as "constructor") is not modelled. Every unrecognised
  quarter gives 0.5.
- PreviousWeeks.Weeks: the order in which `Object.keys` enumerates the keys is
  the `keyOrder` parameter. `WeeksIgnoreKeyOrder` shows the result does not
  depend on it. Integer keys are kept as integers, so the round trip through
  strings and `Number` is not modelled.
- PreviousWeeks.SortAscending: duplicates are dropped. `Object.keys` never
  yields one, so this matches the source for every input that can occur.
- PreviousWeeks.RoundName: the week number is rendered as an unbounded
  integer in decimal. Non-integer or exponent-formatted numbers are not
  modelled.
- The comments at lines 22 and 38 of winProbability.ts promise a 10% swing
  per 20 points of differential and a 3% swing per 3 points of score. The
  arithmetic gives 1% and at most 0.8%. The model follows the arithmetic.
  The code rounds before it caps. `RoundThenClampIsClampThenRound` shows that
  capping first gives the same integer.
