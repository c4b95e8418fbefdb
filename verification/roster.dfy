/** The organizer's "Add Team" form: its two checks and the write that
    follows them. */
module Roster {
  import opened Wrappers
  import opened Records

  /** The teams the Teams tab lists and checks against: every team when no
      tournament is active, else the active tournament's teams (a team with
      no tournament does not match `tournament_id = :tid`). */
  function InScope(teams: seq<Team>, active: Option<int>): seq<Team> {
    if teams == [] then []
    else
      var t := teams[|teams| - 1];
      InScope(teams[..|teams| - 1], active) +
        (if active.None? || t.tournamentId == active then [t] else [])
  }

  lemma {:induction false} InScopeAppend(a: seq<Team>, b: seq<Team>, active: Option<int>)
    ensures InScope(a + b, active) == InScope(a, active) + InScope(b, active)
  {
    if b == [] {
      assert a + b == a;
    } else {
      var init := b[..|b| - 1];
      InScopeAppend(a, init, active);
      assert (a + b)[..|a + b| - 1] == a + init;
    }
  }

  lemma {:induction false} InScopeMembers(teams: seq<Team>, active: Option<int>)
    ensures forall t :: t in InScope(teams, active) <==> t in teams && (active.None? || t.tournamentId == active)
  {
    if teams != [] {
      InScopeMembers(teams[..|teams| - 1], active);
      assert teams == teams[..|teams| - 1] + [teams[|teams| - 1]];
    }
  }

  /** Whether some team carries the id. */
  function HasId(teams: seq<Team>, id: int): bool {
    teams != [] && (HasId(teams[..|teams| - 1], id) || teams[|teams| - 1].teamId == Some(id))
  }

  lemma {:induction false} HasIdSpec(teams: seq<Team>, id: int)
    ensures HasId(teams, id) <==> exists k :: 0 <= k < |teams| && teams[k].teamId == Some(id)
  {
    if teams != [] {
      var init := teams[..|teams| - 1];
      HasIdSpec(init, id);
      if HasId(init, id) {
        var k :| 0 <= k < |init| && init[k].teamId == Some(id);
        assert teams[k] == init[k];
      }
      if exists k :: 0 <= k < |teams| && teams[k].teamId == Some(id) {
        var k :| 0 <= k < |teams| && teams[k].teamId == Some(id);
        if k < |init| {
          assert init[k] == teams[k];
        }
      }
    }
  }

  datatype TeamError = NameRequired | DuplicateId

  /** The checks of "Add Team", in order: a name is required, and the id must
      not already be taken in scope. */
  function CheckNewTeam(scoped: seq<Team>, id: nat, name: string): (r: Option<TeamError>)
    ensures r == Some(NameRequired) <==> name == ""
    ensures r == Some(DuplicateId) <==> name != "" && exists k :: 0 <= k < |scoped| && scoped[k].teamId == Some(id)
    ensures r == None <==> name != "" && forall k :: 0 <= k < |scoped| ==> scoped[k].teamId != Some(id)
  {
    HasIdSpec(scoped, id);
    if name == "" then Some(NameRequired)
    else if HasId(scoped, id) then Some(DuplicateId)
    else None
  }

  /** The row the form builds; the group always comes from the selector. */
  function NewTeam(id: nat, name: string, player1: string, player2: string, group: string, seed: nat,
                   active: Option<int>): Team {
    Team(Some(id), Some(name), Some(player1), Some(player2), Some(group), Some(seed), active)
  }

  /** The teams of tournaments other than `active`; pandas' `!=` keeps the
      teams with no tournament. */
  function OtherTournaments(teams: seq<Team>, active: int): seq<Team> {
    if teams == [] then []
    else
      var t := teams[|teams| - 1];
      OtherTournaments(teams[..|teams| - 1], active) +
        (if t.tournamentId != Some(active) then [t] else [])
  }

  lemma {:induction false} OtherTournamentsOutOfScope(teams: seq<Team>, active: int)
    ensures InScope(OtherTournaments(teams, active), Some(active)) == []
  {
    if teams != [] {
      var init := teams[..|teams| - 1];
      var t := teams[|teams| - 1];
      OtherTournamentsOutOfScope(init, active);
      InScopeAppend(OtherTournaments(init, active), if t.tournamentId != Some(active) then [t] else [], Some(active));
    }
  }

  /** The write as it stands: with a tournament active, the new team replaces
      that tournament's teams. */
  function WriteTeamAsWritten(cur: seq<Team>, active: Option<int>, row: Team): seq<Team> {
    if active.None? then cur + [row] else OtherTournaments(cur, active.value) + [row]
  }

  /** "Add Team" as the handler is written. */
  function AddTeamAsWritten(cur: seq<Team>, active: Option<int>, id: nat, name: string,
                            player1: string, player2: string, group: string, seed: nat): Result<seq<Team>, TeamError>
  {
    match CheckNewTeam(InScope(cur, active), id, name)
    case Some(e) => Err(e)
    case None => Ok(WriteTeamAsWritten(cur, active, NewTeam(id, name, player1, player2, group, seed, active)))
  }

  /** "Add Team" appending the new row to every existing team. */
  function AddTeam(cur: seq<Team>, active: Option<int>, id: nat, name: string,
                   player1: string, player2: string, group: string, seed: nat): Result<seq<Team>, TeamError>
  {
    match CheckNewTeam(InScope(cur, active), id, name)
    case Some(e) => Err(e)
    case None => Ok(cur + [NewTeam(id, name, player1, player2, group, seed, active)])
  }

  predicate UniqueIds(teams: seq<Team>) {
    forall i, j :: 0 <= i < j < |teams| && teams[i].teamId.Some? ==> teams[i].teamId != teams[j].teamId
  }

  /** "Add Team" succeeds exactly when both checks pass; the active
      tournament then holds its previous teams followed by the new one, every
      other team is kept, and ids stay unique within the tournament. */
  lemma AddTeamSpec(cur: seq<Team>, active: Option<int>, id: nat, name: string,
                    player1: string, player2: string, group: string, seed: nat)
    ensures AddTeam(cur, active, id, name, player1, player2, group, seed).Ok? <==>
            CheckNewTeam(InScope(cur, active), id, name).None?
    ensures var r := AddTeam(cur, active, id, name, player1, player2, group, seed);
            r.Ok? ==>
              r.value[..|cur|] == cur &&
              InScope(r.value, active) == InScope(cur, active) + [NewTeam(id, name, player1, player2, group, seed, active)] &&
              (UniqueIds(InScope(cur, active)) ==> UniqueIds(InScope(r.value, active)))
  {
    var r := AddTeam(cur, active, id, name, player1, player2, group, seed);
    if r.Ok? {
      var row := NewTeam(id, name, player1, player2, group, seed, active);
      var scoped := InScope(cur, active);
      InScopeAppend(cur, [row], active);
      assert InScope([row], active) == [row] by {
        assert [row][..0] == [];
      }
      var after := scoped + [row];
      if UniqueIds(scoped) {
        forall i, j | 0 <= i < j < |after| && after[i].teamId.Some?
          ensures after[i].teamId != after[j].teamId
        {
          if j == |scoped| {
            assert after[i] == scoped[i];
          }
        }
      }
    }
  }

  /** A tournament with team 1 gains team 2: as written, team 1 is gone. */
  lemma AddTeamDropsTournamentTeams()
    ensures var old1 := Team(Some(1), Some("A"), Some("p"), Some("q"), Some("A"), Some(0), Some(7));
            var row := NewTeam(2, "B", "r", "s", "A", 0, Some(7));
            AddTeamAsWritten([old1], Some(7), 2, "B", "r", "s", "A", 0) == Ok([row]) &&
            AddTeam([old1], Some(7), 2, "B", "r", "s", "A", 0) == Ok([old1, row])
  {
    var old1 := Team(Some(1), Some("A"), Some("p"), Some("q"), Some("A"), Some(0), Some(7));
    assert InScope([old1], Some(7)) == [old1] by {
      assert [old1][..0] == [];
    }
    assert OtherTournaments([old1], 7) == [] by {
      assert [old1][..0] == [];
    }
    assert CheckNewTeam([old1], 2, "B") == None;
    var row := NewTeam(2, "B", "r", "s", "A", 0, Some(7));
    assert WriteTeamAsWritten([old1], Some(7), row) == [row];
    assert AddTeamAsWritten([old1], Some(7), 2, "B", "r", "s", "A", 0) == Ok([row]);
    assert [old1] + [row] == [old1, row];
  }
}
