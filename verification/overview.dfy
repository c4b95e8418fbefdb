/** The overview page: which matches are listed as played, the per-match
    summary rows, team labels, the leaderboard and the table headers. */
module Overview {
  import opened Wrappers
  import opened Records
  import opened PyInt
  import opened Ordering
  import opened Standings

  // ------------------------------------------------------------ played matches

  /** A match is listed once it is marked completed or any game count is entered. */
  predicate IsPlayed(m: Match) {
    m.status == Some(Completed) ||
    m.set1T1.Some? || m.set1T2.Some? || m.set2T1.Some? ||
    m.set2T2.Some? || m.set3T1.Some? || m.set3T2.Some?
  }

  /** The played matches, in table order. */
  function Played(ms: seq<Match>): seq<Match> {
    if ms == [] then []
    else Played(ms[..|ms| - 1]) + (if IsPlayed(ms[|ms| - 1]) then [ms[|ms| - 1]] else [])
  }

  lemma {:induction false} PlayedSpec(ms: seq<Match>)
    ensures forall m :: m in Played(ms) <==> m in ms && IsPlayed(m)
    ensures |Played(ms)| <= |ms|
  {
    if ms != [] {
      PlayedSpec(ms[..|ms| - 1]);
      assert ms == ms[..|ms| - 1] + [ms[|ms| - 1]];
    }
  }

  /** Every match that counts in the standings is listed as played. */
  lemma CountedIsPlayed(m: Match)
    requires Counted(m)
    ensures IsPlayed(m)
  {
    var sets := Sets(m);
    if !IsPlayed(m) {
      forall i | 0 <= i < |sets|
        ensures SetWinner(sets[i]) == 0
      {
      }
      NoWinnerNoSets(sets, 1);
      NoWinnerNoSets(sets, 2);
    }
  }

  // ------------------------------------------------------------ labels

  /** A team's label: its name when non-empty, else its two players. */
  function TeamLabel(t: Team): (r: string)
    ensures |r| > 0
    ensures t.teamName.Some? && t.teamName.value != "" ==> r == t.teamName.value
    ensures t.teamName.None? || t.teamName.value == "" ==> r == t.player1.GetOr("") + " vs " + t.player2.GetOr("")
  {
    var name := t.teamName.GetOr("");
    if |name| > 0 then name else t.player1.GetOr("") + " vs " + t.player2.GetOr("")
  }

  /** `id2lab.get(id)`: the label of the last team carrying the id, as
      `dict(zip(...))` keeps the last of duplicate keys. */
  function LabelOf(teams: seq<Team>, id: int): Option<string> {
    if teams == [] then None
    else if teams[|teams| - 1].teamId == Some(id) then Some(TeamLabel(teams[|teams| - 1]))
    else LabelOf(teams[..|teams| - 1], id)
  }

  /** The lookup finds a team exactly when one carries the id, and then it is
      the label of the last such team. */
  lemma {:induction false} LabelOfSpec(teams: seq<Team>, id: int)
    ensures LabelOf(teams, id).None? <==> forall k :: 0 <= k < |teams| ==> teams[k].teamId != Some(id)
    ensures LabelOf(teams, id).Some? ==>
              exists k :: 0 <= k < |teams| && teams[k].teamId == Some(id) &&
                LabelOf(teams, id) == Some(TeamLabel(teams[k])) &&
                forall k' :: k < k' < |teams| ==> teams[k'].teamId != Some(id)
  {
    if teams != [] {
      var init := teams[..|teams| - 1];
      LabelOfSpec(init, id);
      if teams[|teams| - 1].teamId != Some(id) && LabelOf(init, id).Some? {
        var k :| 0 <= k < |init| && init[k].teamId == Some(id) &&
                 LabelOf(init, id) == Some(TeamLabel(init[k])) &&
                 forall k' :: k < k' < |init| ==> init[k'].teamId != Some(id);
        assert teams[k] == init[k];
      }
    }
  }

  /** How one side of a match is shown: "?" for a missing id, "None" for an
      id no team carries (the f-string of a failed `dict.get`), else its label. */
  function SideLabel(teams: seq<Team>, id: Option<int>): string {
    match id
    case None => "?"
    case Some(v) =>
      match LabelOf(teams, v)
      case None => "None"
      case Some(l) => l
  }

  // ------------------------------------------------------------ summary rows

  datatype SummaryRow = SummaryRow(
    matchId: string, court: Option<string>, players: string,
    sets: string, games: string, status: Option<string>)

  /** The summary of one played match: sets as the evaluator counts them,
      games over every fully entered set, ties included. */
  function SummaryOf(teams: seq<Team>, m: Match): SummaryRow {
    var (a, b) := MatchResult(m);
    SummaryRow(
      if m.matchId.Some? then Show(m.matchId.value) else "",
      m.group,
      SideLabel(teams, m.team1Id) + " vs " + SideLabel(teams, m.team2Id),
      Show(a) + " - " + Show(b),
      Show(Games(Sets(m), 1)) + " : " + Show(Games(Sets(m), 2)),
      m.status)
  }

  function Summaries(teams: seq<Team>, ms: seq<Match>): (r: seq<SummaryRow>)
    ensures |r| == |ms|
  {
    seq(|ms|, k requires 0 <= k < |ms| => SummaryOf(teams, ms[k]))
  }

  /** The "Played Matches" rows. */
  function Summary(teams: seq<Team>, matches: seq<Match>): seq<SummaryRow> {
    Summaries(teams, Played(matches))
  }

  /** The loop over one match's three sets: a set with both counts counts
      for the side with more games (for neither on a tie), and its games are
      added to each side's total. */
  method TallySets(sets: seq<SetScore>) returns (t1Sets: int, t2Sets: int, gw1: int, gw2: int)
    ensures t1Sets == SetsWon(sets, 1) && t2Sets == SetsWon(sets, 2)
    ensures gw1 == Games(sets, 1) && gw2 == Games(sets, 2)
  {
    t1Sets, t2Sets, gw1, gw2 := 0, 0, 0, 0;
    for j := 0 to |sets|
      invariant t1Sets == SetsWon(sets[..j], 1) && t2Sets == SetsWon(sets[..j], 2)
      invariant gw1 == Games(sets[..j], 1) && gw2 == Games(sets[..j], 2)
    {
      var s := sets[j];
      assert sets[..j + 1][..j] == sets[..j];
      if s.t1.Some? && s.t2.Some? {
        if s.t1.value > s.t2.value {
          t1Sets := t1Sets + 1;
        } else if s.t2.value > s.t1.value {
          t2Sets := t2Sets + 1;
        }
        gw1 := gw1 + s.t1.value;
        gw2 := gw2 + s.t2.value;
      }
    }
    assert sets[..|sets|] == sets;
  }

  /** The summary loop: one row per played match, counting sets and summing
      games over the three sets as it goes. */
  method PlayedSummary(teams: seq<Team>, matches: seq<Match>) returns (rows: seq<SummaryRow>)
    ensures rows == Summary(teams, matches)
  {
    var played := Played(matches);
    rows := [];
    for i := 0 to |played|
      invariant rows == Summaries(teams, played[..i])
    {
      var m := played[i];
      var t1l := SideLabel(teams, m.team1Id);
      var t2l := SideLabel(teams, m.team2Id);
      var t1Sets, t2Sets, gw1, gw2 := TallySets(Sets(m));
      rows := rows + [SummaryRow(
        if m.matchId.Some? then Show(m.matchId.value) else "",
        m.group, t1l + " vs " + t2l,
        Show(t1Sets) + " - " + Show(t2Sets),
        Show(gw1) + " : " + Show(gw2),
        m.status)];
      assert played[..i + 1] == played[..i] + [m];
    }
    assert played[..|played|] == played;
  }

  /** The set counts a summary row shows never add up to more than the sets
      with both counts entered. */
  lemma SummarySetsBound(m: Match)
    ensures MatchResult(m).0 + MatchResult(m).1 <= DecidedCount(Sets(m)) <= 3
  {
    SetsWonBound(Sets(m));
  }

  // ------------------------------------------------------------ leaderboard

  /** The leaderboard's order: points, wins, sets_diff, games_diff, all
      descending; the group plays no part. */
  predicate RankBefore(a: StandingRow, b: StandingRow) {
    KeyLe(RankKey(a), RankKey(b))
  }

  lemma RankOrderIsTotalPreorder()
    ensures TotalPreorder(RankBefore)
  {
    forall a: StandingRow, b: StandingRow, c: StandingRow {
      KeyLeTotalOrder(RankKey(a), RankKey(b), RankKey(c));
    }
  }

  datatype BoardRow = BoardRow(
    rank: int, team: Option<string>, played: int, wins: int, losses: int, points: int)

  function BoardRowOf(r: StandingRow, rank: int): BoardRow {
    BoardRow(rank, r.teamName, r.stats.played, r.stats.wins, r.stats.losses, r.stats.points)
  }

  /** The winner board: the standings re-sorted by rank order, numbered from 1. */
  function Leaderboard(table: seq<StandingRow>): (r: seq<BoardRow>)
    ensures |r| == |table|
  {
    var sorted := SortBy(table, RankBefore);
    seq(|sorted|, k requires 0 <= k < |sorted| => BoardRowOf(sorted[k], k + 1))
  }

  /** The leaderboard's order stated on the fields: more points first, then
      more wins, then the larger sets difference, then the larger games
      difference; rows equal on all four tie. */
  predicate RankFieldsOrdered(x: StandingRow, y: StandingRow) {
    x.stats.points > y.stats.points ||
    (x.stats.points == y.stats.points &&
      (x.stats.wins > y.stats.wins ||
       (x.stats.wins == y.stats.wins &&
         (x.setsDiff > y.setsDiff ||
          (x.setsDiff == y.setsDiff && x.gamesDiff >= y.gamesDiff)))))
  }

  /** Rank order is exactly the four descending keys, in that order. */
  lemma RankBeforeFields(x: StandingRow, y: StandingRow)
    ensures RankBefore(x, y) <==> RankFieldsOrdered(x, y)
  {
    var a, b := RankKey(x), RankKey(y);
    var a1, b1 := [-x.stats.wins, -x.setsDiff, -x.gamesDiff], [-y.stats.wins, -y.setsDiff, -y.gamesDiff];
    var a2, b2 := [-x.setsDiff, -x.gamesDiff], [-y.setsDiff, -y.gamesDiff];
    var a3, b3 := [-x.gamesDiff], [-y.gamesDiff];
    assert a[1..] == a1 && b[1..] == b1;
    assert a1[1..] == a2 && b1[1..] == b2;
    assert a2[1..] == a3 && b2[1..] == b3;
    assert a3[1..] == [] && b3[1..] == [];
    assert LexLe(a3, b3, IntLt) <==> x.gamesDiff >= y.gamesDiff;
    assert LexLe(a2, b2, IntLt) <==> x.setsDiff > y.setsDiff || (x.setsDiff == y.setsDiff && LexLe(a3, b3, IntLt));
    assert LexLe(a1, b1, IntLt) <==> x.stats.wins > y.stats.wins || (x.stats.wins == y.stats.wins && LexLe(a2, b2, IntLt));
    assert LexLe(a, b, IntLt) <==> x.stats.points > y.stats.points || (x.stats.points == y.stats.points && LexLe(a1, b1, IntLt));
  }

  /** The rank sort lists every standings row once, in rank order. */
  lemma RankSortFields(table: seq<StandingRow>)
    ensures multiset(SortBy(table, RankBefore)) == multiset(table)
    ensures forall i, j :: 0 <= i < j < |table| ==>
              RankFieldsOrdered(SortBy(table, RankBefore)[i], SortBy(table, RankBefore)[j])
  {
    var sorted := SortBy(table, RankBefore);
    RankOrderIsTotalPreorder();
    SortBySorted(table, RankBefore);
    forall i, j | 0 <= i < j < |sorted|
      ensures RankFieldsOrdered(sorted[i], sorted[j])
    {
      RankBeforeFields(sorted[i], sorted[j]);
    }
  }

  /** Row k of the board is the k-th row of the rank sort, ranked k + 1; the
      rank sort is a permutation of the standings ordered by rank; down the
      board points never rise, nor wins on equal points; rank 1 has at least
      the points of every team in the standings. */
  lemma LeaderboardSpec(table: seq<StandingRow>)
    ensures |Leaderboard(table)| == |table|
    ensures forall k :: 0 <= k < |table| ==>
              Leaderboard(table)[k] == BoardRowOf(SortBy(table, RankBefore)[k], k + 1)
    ensures multiset(SortBy(table, RankBefore)) == multiset(table)
    ensures SortedBy(SortBy(table, RankBefore), RankBefore)
    ensures forall i, j :: 0 <= i < j < |table| ==>
              Leaderboard(table)[i].points >= Leaderboard(table)[j].points &&
              (Leaderboard(table)[i].points == Leaderboard(table)[j].points ==>
                 Leaderboard(table)[i].wins >= Leaderboard(table)[j].wins)
    ensures forall k :: 0 <= k < |table| ==> Leaderboard(table)[0].points >= table[k].stats.points
  {
    var sorted := SortBy(table, RankBefore);
    var board := Leaderboard(table);
    assert forall k :: 0 <= k < |board| ==> board[k] == BoardRowOf(sorted[k], k + 1);
    RankOrderIsTotalPreorder();
    SortBySorted(table, RankBefore);
    RankSortFields(table);
    forall i, j | 0 <= i < j < |table|
      ensures board[i].points >= board[j].points &&
              (board[i].points == board[j].points ==> board[i].wins >= board[j].wins)
    {
      assert |sorted| == |table|;
      assert RankFieldsOrdered(sorted[i], sorted[j]);
      assert board[i].points == sorted[i].stats.points && board[i].wins == sorted[i].stats.wins;
      assert board[j].points == sorted[j].stats.points && board[j].wins == sorted[j].stats.wins;
    }
    forall k | 0 <= k < |table|
      ensures board[0].points >= table[k].stats.points
    {
      assert table[k] in multiset(sorted);
      var m :| 0 <= m < |sorted| && sorted[m] == table[k];
      assert board[m].points == table[k].stats.points;
      if m > 0 {
        assert RankFieldsOrdered(sorted[0], sorted[m]);
      }
    }
  }

  // ------------------------------------------------------------ columns and headers

  const PlayedColumns: seq<string> := ["MatchId", "Court", "Players", "Sets", "Games", "Status"]
  const BoardColumns: seq<string> := ["Rank", "Team", "MatchesPlayed", "MatchesWon", "MatchesLost", "Points"]

  /** `get_json_setting(key) or all`: the stored list, or every column when
      nothing or an empty list is stored. */
  function VisibleColumns(setting: Option<seq<string>>, all: seq<string>): (r: seq<string>)
    ensures setting.Some? && setting.value != [] ==> r == setting.value
    ensures setting.None? || setting.value == [] ==> r == all
    ensures r == [] ==> all == []
  {
    if setting.None? || setting.value == [] then all else setting.value
  }

  /** `[labels.get(c, c) for c in cols]`. */
  function Headers(cols: seq<string>, labels: Option<map<string, string>>): (r: seq<string>)
    ensures |r| == |cols|
  {
    var m := if labels.None? then map[] else labels.value;
    seq(|cols|, k requires 0 <= k < |cols| => if cols[k] in m then m[cols[k]] else cols[k])
  }

  /** One header per visible column: the stored label when one is stored for
      that column, else the column name. With no labels stored the headers
      are the column names, and a label stored for a column that is not shown
      changes nothing. */
  lemma HeadersSpec(cols: seq<string>, labels: Option<map<string, string>>, c: string, l: string)
    ensures |Headers(cols, labels)| == |cols|
    ensures forall k :: 0 <= k < |cols| && labels.Some? && cols[k] in labels.value ==>
              Headers(cols, labels)[k] == labels.value[cols[k]]
    ensures forall k :: 0 <= k < |cols| && !(labels.Some? && cols[k] in labels.value) ==>
              Headers(cols, labels)[k] == cols[k]
    ensures Headers(cols, None) == cols
    ensures labels.Some? && c !in cols ==> Headers(cols, Some(labels.value[c := l])) == Headers(cols, labels)
  {
  }
}
