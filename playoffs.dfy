/** The fixed-slot playoff bracket page: eleven matches with hard-wired ids,
    whose team slots and winners an authenticated user edits one field at a
    time. */
module Playoffs {
  import opened Schema

  /** A team entered into a slot; its id is derived from the slot. */
  datatype BracketTeam = BracketTeam(id: string, name: string)

  datatype Side = Left | Right

  datatype BracketMatch = BracketMatch(
    id: string,
    team1: Option<BracketTeam>,
    team2: Option<BracketTeam>,
    winner: Option<string>,
    round: int,
    side: Side)

  /** The one field an edit sets, with its new value (`[field]: value`). */
  datatype Field =
    | Team1Field(team: Option<BracketTeam>)
    | Team2Field(team: Option<BracketTeam>)
    | WinnerField(winner: Option<string>)

  /** The two team slots of a match. */
  datatype Slot = Slot1 | Slot2

  function EmptyMatch(id: string, round: int, side: Side): BracketMatch {
    BracketMatch(id, None, None, None, round, side)
  }

  /** The bracket the page starts from: the left side's play-in, divisional
      and conference matches, then the right side's, then the final. */
  function InitialBracket(): (b: seq<BracketMatch>)
    ensures |b| == 11
    ensures b[10].id == "sb" && b[10].round == 4 && b[10].side == Left
  {
    LeftSide() + RightSide() + [EmptyMatch("sb", 4, Left)]
  }

  function LeftSide(): seq<BracketMatch> {
    [ EmptyMatch("l_pi1", 1, Left), EmptyMatch("l_pi2", 1, Left),
      EmptyMatch("l_div1", 2, Left), EmptyMatch("l_div2", 2, Left),
      EmptyMatch("l_conf", 3, Left) ]
  }

  function RightSide(): seq<BracketMatch> {
    [ EmptyMatch("r_pi1", 1, Right), EmptyMatch("r_pi2", 1, Right),
      EmptyMatch("r_div1", 2, Right), EmptyMatch("r_div2", 2, Right),
      EmptyMatch("r_conf", 3, Right) ]
  }

  /** `{ ...match, [field]: value }`: the named field replaced, the rest kept. */
  function WithField(m: BracketMatch, f: Field): (r: BracketMatch)
    ensures r.id == m.id && r.round == m.round && r.side == m.side
    ensures r.team1 == (if f.Team1Field? then f.team else m.team1)
    ensures r.team2 == (if f.Team2Field? then f.team else m.team2)
    ensures r.winner == (if f.WinnerField? then f.winner else m.winner)
  {
    match f
    case Team1Field(t) => m.(team1 := t)
    case Team2Field(t) => m.(team2 := t)
    case WinnerField(w) => m.(winner := w)
  }

  /** `bracket.map(match => match.id === matchId ? ... : match)`. */
  function UpdateById(ms: seq<BracketMatch>, matchId: string, f: Field): (r: seq<BracketMatch>)
    ensures |r| == |ms|
    ensures forall i :: 0 <= i < |ms| && ms[i].id == matchId ==> r[i] == WithField(ms[i], f)
    ensures forall i :: 0 <= i < |ms| && ms[i].id != matchId ==> r[i] == ms[i]
  {
    if ms == [] then []
    else
      var rest := UpdateById(ms[1..], matchId, f);
      var head := if ms[0].id == matchId then WithField(ms[0], f) else ms[0];
      assert forall i :: 1 <= i < |ms| ==> ms[i] == ms[1..][i - 1];
      [head] + rest
  }

  /** `bracket.filter(m => m.round === round && m.side === side)`. */
  function Select(ms: seq<BracketMatch>, round: int, side: Side): (r: seq<BracketMatch>)
    ensures |r| <= |ms|
    ensures forall i :: 0 <= i < |r| ==> r[i].round == round && r[i].side == side
  {
    if ms == [] then []
    else if ms[0].round == round && ms[0].side == side then [ms[0]] + Select(ms[1..], round, side)
    else Select(ms[1..], round, side)
  }

  /** The selection holds exactly the matches of that round and side. */
  lemma {:induction false} SelectMembers(ms: seq<BracketMatch>, round: int, side: Side)
    ensures forall m :: m in Select(ms, round, side) <==> m in ms && m.round == round && m.side == side
  {
    if ms != [] {
      SelectMembers(ms[1..], round, side);
      assert forall m :: m in ms <==> m == ms[0] || m in ms[1..];
    }
  }

  /** Selecting from two consecutive stretches of a bracket gives the two
      selections one after the other: the filter keeps bracket order. */
  lemma {:induction false} SelectAppend(a: seq<BracketMatch>, b: seq<BracketMatch>, round: int, side: Side)
    ensures Select(a + b, round, side) == Select(a, round, side) + Select(b, round, side)
  {
    if a != [] {
      assert (a + b)[1..] == a[1..] + b;
      SelectAppend(a[1..], b, round, side);
    } else {
      assert a + b == b;
    }
  }

  /** The id a team gets in the given slot of match `matchId`. */
  function SlotTeamId(matchId: string, slot: Slot): string {
    matchId + (if slot == Slot1 then "-t1" else "-t2")
  }

  /** A slot-derived id names its match and its slot: different slots never
      share a team id. */
  lemma SlotTeamIdInjective(a: string, s: Slot, b: string, t: Slot)
    requires SlotTeamId(a, s) == SlotTeamId(b, t)
    ensures a == b && s == t
  {
    var x, y := SlotTeamId(a, s), SlotTeamId(b, t);
    assert |a| == |b|;
    assert a == x[..|a|] && b == y[..|b|];
    assert x[|x| - 1] == (if s == Slot1 then '1' else '2');
    assert y[|y| - 1] == (if t == Slot1 then '1' else '2');
  }

  /** What typing `text` into a slot's input stores: nothing for the empty
      string, otherwise a team named `text` with the slot-derived id. */
  function TeamEntry(matchId: string, slot: Slot, text: string): (r: Option<BracketTeam>)
    ensures r.None? <==> text == ""
    ensures r.Some? ==> r.value.name == text && r.value.id == SlotTeamId(matchId, slot)
  {
    if text == "" then None else Some(BracketTeam(SlotTeamId(matchId, slot), text))
  }

  /** Two names typed into the same slot give teams with the same id. */
  lemma TeamIdIndependentOfName(matchId: string, slot: Slot, name1: string, name2: string)
    requires name1 != "" && name2 != ""
    ensures TeamEntry(matchId, slot, name1).value.id == TeamEntry(matchId, slot, name2).value.id
  {
  }

  function SlotField(slot: Slot, team: Option<BracketTeam>): Field {
    if slot == Slot1 then Team1Field(team) else Team2Field(team)
  }

  /** The team in a slot of a match. */
  function SlotTeam(m: BracketMatch, slot: Slot): Option<BracketTeam> {
    if slot == Slot1 then m.team1 else m.team2
  }

  /** The winner buttons are shown only to an authenticated user, and only
      when both slots hold a team. */
  predicate WinnerOffered(isAuthenticated: bool, m: BracketMatch) {
    isAuthenticated && m.team1.Some? && m.team2.Some?
  }

  /** The (id, round, side) skeleton of a bracket, which no edit changes. */
  function Layout(ms: seq<BracketMatch>): (r: seq<(string, int, Side)>)
    ensures |r| == |ms|
    ensures forall i :: 0 <= i < |ms| ==> r[i] == (ms[i].id, ms[i].round, ms[i].side)
  {
    seq(|ms|, i requires 0 <= i < |ms| => (ms[i].id, ms[i].round, ms[i].side))
  }

  /** No two matches share an id. */
  predicate DistinctIds(ms: seq<BracketMatch>) {
    forall i, j :: 0 <= i < j < |ms| ==> ms[i].id != ms[j].id
  }

  /** Every team in a slot carries the id derived from its match and slot. */
  predicate TeamIdsFollowSlots(ms: seq<BracketMatch>) {
    forall i :: 0 <= i < |ms| ==>
      && (ms[i].team1.Some? ==> ms[i].team1.value.id == SlotTeamId(ms[i].id, Slot1))
      && (ms[i].team2.Some? ==> ms[i].team2.value.id == SlotTeamId(ms[i].id, Slot2))
  }

  /** Proof aid, not part of the page: a short fingerprint of a match id
      (first character, length, third character, last character) that tells
      the eleven literal ids apart cheaply. */
  function IdSignature(id: string): (char, int, char, char)
    requires |id| >= 3
  {
    (id[0], |id|, id[2], id[|id| - 1])
  }

  /** Proof aid: the fingerprints of the ten side matches' ids, in bracket
      order, none of which is the final's id. */
  lemma InitialSignatures()
    ensures |InitialBracket()| == 11
    ensures forall i :: 0 <= i < 10 ==> |InitialBracket()[i].id| >= 3
    ensures forall i :: 0 <= i < 10 ==> IdSignature(InitialBracket()[i].id) == SideSignatures()[i]
    ensures forall i :: 0 <= i < 10 ==> InitialBracket()[i].id != InitialBracket()[10].id
  {
  }

  /** Proof aid: the expected fingerprints of the ten side matches. */
  function SideSignatures(): seq<(char, int, char, char)> {
    [('l', 5, 'p', '1'), ('l', 5, 'p', '2'), ('l', 6, 'd', '1'), ('l', 6, 'd', '2'), ('l', 6, 'c', 'f'),
     ('r', 5, 'p', '1'), ('r', 5, 'p', '2'), ('r', 6, 'd', '1'), ('r', 6, 'd', '2'), ('r', 6, 'c', 'f')]
  }

  /** The starting bracket has eleven matches with distinct ids. */
  lemma InitialIdsDistinct()
    ensures |InitialBracket()| == 11
    ensures DistinctIds(InitialBracket())
  {
    var b, sigs := InitialBracket(), SideSignatures();
    InitialSignatures();
    forall i, j | 0 <= i < j < 11 ensures b[i].id != b[j].id {
      if j < 10 {
        assert sigs[i] != sigs[j];
      }
    }
  }

  /** The left side's columns, in order. */
  lemma LeftColumns()
    ensures Select(LeftSide(), 1, Left) == LeftSide()[..2]
    ensures Select(LeftSide(), 2, Left) == LeftSide()[2..4]
    ensures Select(LeftSide(), 3, Left) == LeftSide()[4..]
    ensures Select(LeftSide(), 4, Left) == []
  {
  }

  /** The right side's columns, in order. */
  lemma RightColumns()
    ensures Select(RightSide(), 1, Right) == RightSide()[..2]
    ensures Select(RightSide(), 2, Right) == RightSide()[2..4]
    ensures Select(RightSide(), 3, Right) == RightSide()[4..]
    ensures Select(RightSide(), 4, Right) == []
  {
  }

  /** A left column of the starting bracket is the left side's column,
      plus the final for round 4. */
  lemma InitialLeftColumn(round: int)
    ensures Select(InitialBracket(), round, Left)
         == Select(LeftSide(), round, Left) + Select([EmptyMatch("sb", 4, Left)], round, Left)
  {
    var left, right, final := LeftSide(), RightSide(), [EmptyMatch("sb", 4, Left)];
    SelectAppend(left + right, final, round, Left);
    SelectAppend(left, right, round, Left);
    NoneSelected(right, round, Left);
  }

  /** A right column of the starting bracket is the right side's column. */
  lemma InitialRightColumn(round: int)
    ensures Select(InitialBracket(), round, Right) == Select(RightSide(), round, Right)
  {
    var left, right, final := LeftSide(), RightSide(), [EmptyMatch("sb", 4, Left)];
    SelectAppend(left + right, final, round, Right);
    SelectAppend(left, right, round, Right);
    NoneSelected(left, round, Right);
    NoneSelected(final, round, Right);
  }

  /** The starting columns: two matches per side in rounds 1 and 2, one per
      side in round 3, and a single round-4 match "sb", tagged left. */
  lemma InitialColumns()
    ensures Select(InitialBracket(), 1, Left) == LeftSide()[..2]
    ensures Select(InitialBracket(), 2, Left) == LeftSide()[2..4]
    ensures Select(InitialBracket(), 3, Left) == LeftSide()[4..]
    ensures Select(InitialBracket(), 1, Right) == RightSide()[..2]
    ensures Select(InitialBracket(), 2, Right) == RightSide()[2..4]
    ensures Select(InitialBracket(), 3, Right) == RightSide()[4..]
    ensures Select(InitialBracket(), 4, Left) == [EmptyMatch("sb", 4, Left)]
    ensures Select(InitialBracket(), 4, Right) == []
  {
    LeftColumns();
    RightColumns();
    InitialLeftColumn(1);
    InitialLeftColumn(2);
    InitialLeftColumn(3);
    InitialLeftColumn(4);
    InitialRightColumn(1);
    InitialRightColumn(2);
    InitialRightColumn(3);
    InitialRightColumn(4);
  }

  /** A stretch with no match on the given side selects nothing. */
  lemma {:induction false} NoneSelected(ms: seq<BracketMatch>, round: int, side: Side)
    requires forall i :: 0 <= i < |ms| ==> ms[i].side != side
    ensures Select(ms, round, side) == []
  {
    if ms != [] {
      NoneSelected(ms[1..], round, side);
    }
  }

  /** Every slot and every winner of the starting bracket is empty. */
  lemma InitialSlotsEmpty()
    ensures forall m :: m in InitialBracket() ==> m.team1.None? && m.team2.None? && m.winner.None?
    ensures TeamIdsFollowSlots(InitialBracket())
  {
  }

  /** Entering a team into a slot sets that slot of every match with the id. */
  lemma EntrySetsSlot(ms: seq<BracketMatch>, matchId: string, slot: Slot, text: string)
    ensures var r := UpdateById(ms, matchId, SlotField(slot, TeamEntry(matchId, slot, text)));
            forall i :: 0 <= i < |r| && r[i].id == matchId ==> SlotTeam(r[i], slot) == TeamEntry(matchId, slot, text)
  {
    var f := SlotField(slot, TeamEntry(matchId, slot, text));
    var r := UpdateById(ms, matchId, f);
    forall i | 0 <= i < |r| && r[i].id == matchId
      ensures SlotTeam(r[i], slot) == TeamEntry(matchId, slot, text)
    {
      assert r[i].id == ms[i].id;
    }
  }

  /** Entering a team keeps every team's id derived from its match and slot. */
  lemma EntryKeepsTeamIds(ms: seq<BracketMatch>, matchId: string, slot: Slot, text: string)
    requires TeamIdsFollowSlots(ms)
    ensures TeamIdsFollowSlots(UpdateById(ms, matchId, SlotField(slot, TeamEntry(matchId, slot, text))))
  {
    var f := SlotField(slot, TeamEntry(matchId, slot, text));
    var r := UpdateById(ms, matchId, f);
    forall i | 0 <= i < |r|
      ensures r[i].team1.Some? ==> r[i].team1.value.id == SlotTeamId(r[i].id, Slot1)
      ensures r[i].team2.Some? ==> r[i].team2.value.id == SlotTeamId(r[i].id, Slot2)
    {
      if ms[i].id == matchId {
        assert r[i] == WithField(ms[i], f);
      } else {
        assert r[i] == ms[i];
      }
    }
  }

  /** The page's bracket state, replaced wholesale by each edit. */
  class Bracket {
    var matches: seq<BracketMatch>

    /** The skeleton is the starting one, so ids stay distinct. */
    ghost predicate Valid()
      reads this
    {
      Layout(matches) == Layout(InitialBracket())
    }

    constructor ()
      ensures matches == InitialBracket()
      ensures Valid() && TeamIdsFollowSlots(matches)
    {
      matches := InitialBracket();
      InitialSlotsEmpty();
    }

    /** Under a valid state no two matches share an id. */
    lemma ValidIdsDistinct()
      requires Valid()
      ensures DistinctIds(matches)
    {
      InitialIdsDistinct();
      var b := InitialBracket();
      forall i, j | 0 <= i < j < |matches| ensures matches[i].id != matches[j].id {
        assert Layout(matches)[i].0 == b[i].id && Layout(matches)[j].0 == b[j].id;
      }
    }

    /** `updateMatch(matchId, field, value)`: a no-op unless authenticated;
        otherwise the named field of the match(es) with that id is replaced. */
    method UpdateMatch(isAuthenticated: bool, matchId: string, f: Field)
      modifies this
      ensures matches == if isAuthenticated then UpdateById(old(matches), matchId, f) else old(matches)
      ensures Layout(matches) == Layout(old(matches))
      ensures old(Valid()) ==> Valid()
      ensures (forall m :: m in old(matches) ==> m.id != matchId) ==> matches == old(matches)
    {
      if !isAuthenticated {
        return;
      }
      var updated := UpdateById(matches, matchId, f);
      assert Layout(updated) == Layout(matches);
      if forall m :: m in matches ==> m.id != matchId {
        assert updated == matches;
      }
      matches := updated;
    }

    /** `getMatches(round, side)`: the matches of one column, in bracket order. */
    function GetMatches(round: int, side: Side): (r: seq<BracketMatch>)
      reads this
      ensures forall m :: m in r <==> m in matches && m.round == round && m.side == side
    {
      SelectMembers(matches, round, side);
      Select(matches, round, side)
    }

    /** The onChange handler of a slot's input: empty text clears the slot,
        other text stores a team with the slot-derived id. */
    method EnterTeam(isAuthenticated: bool, matchId: string, slot: Slot, text: string)
      modifies this
      ensures matches == if isAuthenticated
                         then UpdateById(old(matches), matchId, SlotField(slot, TeamEntry(matchId, slot, text)))
                         else old(matches)
      ensures old(Valid()) ==> Valid()
      ensures old(TeamIdsFollowSlots(matches)) ==> TeamIdsFollowSlots(matches)
      ensures forall i :: 0 <= i < |matches| && isAuthenticated && matches[i].id == matchId ==>
                SlotTeam(matches[i], slot) == TeamEntry(matchId, slot, text)
    {
      ghost var before := matches;
      UpdateMatch(isAuthenticated, matchId, SlotField(slot, TeamEntry(matchId, slot, text)));
      if isAuthenticated {
        EntrySetsSlot(before, matchId, slot, text);
        if TeamIdsFollowSlots(before) {
          EntryKeepsTeamIds(before, matchId, slot, text);
        }
      }
    }

    /** The "W" button of a slot of the rendered match `m`: records that
        slot's team id as the winner. */
    method SelectWinner(isAuthenticated: bool, m: BracketMatch, slot: Slot)
      requires WinnerOffered(isAuthenticated, m)
      modifies this
      ensures matches == UpdateById(old(matches), m.id, WinnerField(Some(SlotTeam(m, slot).value.id)))
      ensures old(Valid()) ==> Valid()
      ensures old(TeamIdsFollowSlots(matches)) ==> TeamIdsFollowSlots(matches)
      ensures forall i :: 0 <= i < |matches| && matches[i].id == m.id ==>
                matches[i].winner == Some(SlotTeam(m, slot).value.id)
      ensures m in old(matches) && old(TeamIdsFollowSlots(matches)) ==>
                forall i :: 0 <= i < |matches| && matches[i].id == m.id ==>
                  matches[i].winner == Some(SlotTeamId(m.id, slot))
    {
      UpdateMatch(isAuthenticated, m.id, WinnerField(Some(SlotTeam(m, slot).value.id)));
    }
  }
}
