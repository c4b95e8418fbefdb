/** The Team and Match rows the pages read from the store, with pandas' missing
    values as `None`. Matches and teams carry the tournament they belong to;
    `None` there is the legacy global scope. */
module Records {
  import opened Wrappers

  datatype Team = Team(
    teamId: Option<int>,
    teamName: Option<string>,
    player1: Option<string>,
    player2: Option<string>,
    group: Option<string>,
    seed: Option<int>,
    tournamentId: Option<int>)

  /** The two game counts of one set. */
  datatype SetScore = SetScore(t1: Option<int>, t2: Option<int>)

  datatype Match = Match(
    matchId: Option<int>,
    group: Option<string>,
    team1Id: Option<int>,
    team2Id: Option<int>,
    status: Option<string>,
    set1T1: Option<int>, set1T2: Option<int>,
    set2T1: Option<int>, set2T2: Option<int>,
    set3T1: Option<int>, set3T2: Option<int>,
    tournamentId: Option<int>)

  const Scheduled: string := "Scheduled"
  const InProgress: string := "In Progress"
  const Completed: string := "Completed"

  /** The three sets of a match, in order. */
  function Sets(m: Match): (r: seq<SetScore>)
    ensures |r| == 3
  {
    [SetScore(m.set1T1, m.set1T2), SetScore(m.set2T1, m.set2T2), SetScore(m.set3T1, m.set3T2)]
  }

  /** Both game counts of the set are present. */
  predicate Decided(s: SetScore) {
    s.t1.Some? && s.t2.Some?
  }
}
