/** The match result evaluator and the standings aggregator
    (services/standings.py). */
module Standings {
  import opened Wrappers
  import opened Records
  import opened Ordering

  // ---------------------------------------------------------------- evaluator

  /** Who won one set: 0 for nobody (a score missing, or a tie), else 1 or 2. */
  function SetWinner(s: SetScore): nat {
    if !Decided(s) then 0
    else if s.t1.value > s.t2.value then 1
    else if s.t2.value > s.t1.value then 2
    else 0
  }

  /** The number of sets `side` won. */
  function SetsWon(sets: seq<SetScore>, side: nat): nat {
    if sets == [] then 0
    else SetsWon(sets[..|sets| - 1], side) + (if SetWinner(sets[|sets| - 1]) == side then 1 else 0)
  }

  /** The number of sets with both game counts present. */
  function DecidedCount(sets: seq<SetScore>): nat {
    if sets == [] then 0
    else DecidedCount(sets[..|sets| - 1]) + (if Decided(sets[|sets| - 1]) then 1 else 0)
  }

  /** The games `side` took over the sets with both counts present, ties included. */
  function Games(sets: seq<SetScore>, side: nat): int
    requires side == 1 || side == 2
  {
    if sets == [] then 0
    else
      var s := sets[|sets| - 1];
      Games(sets[..|sets| - 1], side) +
        (if Decided(s) then (if side == 1 then s.t1.value else s.t2.value) else 0)
  }

  /** Sets won by team 1 and by team 2. */
  function MatchResult(m: Match): (nat, nat) {
    (SetsWon(Sets(m), 1), SetsWon(Sets(m), 2))
  }

  /** Sets won by the two sides together never exceed the decided sets, and
      neither count exceeds the number of sets. */
  lemma {:induction false} SetsWonBound(sets: seq<SetScore>)
    ensures SetsWon(sets, 1) + SetsWon(sets, 2) <= DecidedCount(sets) <= |sets|
  {
    if sets != [] {
      SetsWonBound(sets[..|sets| - 1]);
    }
  }

  /** When no set has a winner, neither side has won a set. */
  lemma {:induction false} NoWinnerNoSets(sets: seq<SetScore>, side: nat)
    requires side != 0
    requires forall i :: 0 <= i < |sets| ==> SetWinner(sets[i]) == 0
    ensures SetsWon(sets, side) == 0
  {
    if sets != [] {
      NoWinnerNoSets(sets[..|sets| - 1], side);
    }
  }

  /** `compute_match_result`: counts the sets each side won, skipping a set
      with a missing count and awarding a tied set to nobody. */
  method ComputeMatchResult(m: Match) returns (t1Sets: nat, t2Sets: nat)
    ensures (t1Sets, t2Sets) == MatchResult(m)
    ensures t1Sets + t2Sets <= DecidedCount(Sets(m)) <= 3
  {
    var sets := Sets(m);
    t1Sets, t2Sets := 0, 0;
    for i := 0 to 3
      invariant t1Sets == SetsWon(sets[..i], 1) && t2Sets == SetsWon(sets[..i], 2)
    {
      var s := sets[i];
      assert sets[..i + 1][..i] == sets[..i];
      if s.t1.Some? && s.t2.Some? {
        if s.t1.value > s.t2.value {
          t1Sets := t1Sets + 1;
        } else if s.t2.value > s.t1.value {
          t2Sets := t2Sets + 1;
        }
      }
    }
    assert sets[..3] == sets;
    SetsWonBound(sets);
  }

  /** The games each side took over the sets with both counts present. */
  method GameTotals(m: Match) returns (gw1: int, gw2: int)
    ensures gw1 == Games(Sets(m), 1) && gw2 == Games(Sets(m), 2)
  {
    var sets := Sets(m);
    gw1, gw2 := 0, 0;
    for i := 0 to 3
      invariant gw1 == Games(sets[..i], 1) && gw2 == Games(sets[..i], 2)
    {
      var s := sets[i];
      assert sets[..i + 1][..i] == sets[..i];
      if s.t1.Some? && s.t2.Some? {
        gw1 := gw1 + s.t1.value;
        gw2 := gw2 + s.t2.value;
      }
    }
    assert sets[..3] == sets;
  }

  // ---------------------------------------------------------------- aggregator

  datatype Stats = Stats(
    played: int, wins: int, losses: int,
    setsWon: int, setsLost: int, gamesWon: int, gamesLost: int,
    points: int)

  const Zero := Stats(0, 0, 0, 0, 0, 0, 0, 0)

  function Add(a: Stats, b: Stats): Stats {
    Stats(a.played + b.played, a.wins + b.wins, a.losses + b.losses,
          a.setsWon + b.setsWon, a.setsLost + b.setsLost,
          a.gamesWon + b.gamesWon, a.gamesLost + b.gamesLost,
          a.points + b.points)
  }

  /** One row of the standings table. */
  datatype StandingRow = StandingRow(
    teamId: Option<int>, teamName: Option<string>, group: Option<string>,
    stats: Stats, setsDiff: int, gamesDiff: int)

  /** The zeroed row a team starts with. */
  function InitRow(t: Team): StandingRow {
    StandingRow(t.teamId, t.teamName, t.group, Zero, 0, 0)
  }

  function InitRows(teams: seq<Team>): (r: seq<StandingRow>)
    ensures |r| == |teams|
  {
    seq(|teams|, k requires 0 <= k < |teams| => InitRow(teams[k]))
  }

  /** A match changes the table only when both team ids are present and some
      set has a winner. */
  predicate Counted(m: Match) {
    m.team1Id.Some? && m.team2Id.Some? && MatchResult(m) != (0, 0)
  }

  /** What one counted match adds to the row of `side` (1 or 2). */
  function SideDelta(m: Match, side: nat): Stats
    requires side == 1 || side == 2
  {
    var (s1, s2) := MatchResult(m);
    var (own, opp) := if side == 1 then (s1, s2) else (s2, s1);
    var (gOwn, gOpp) := if side == 1 then (Games(Sets(m), 1), Games(Sets(m), 2))
                        else (Games(Sets(m), 2), Games(Sets(m), 1));
    Stats(1, if own > opp then 1 else 0, if opp > own then 1 else 0,
          own, opp, gOwn, gOpp, if own > opp then 3 else 0)
  }

  /** The additions the source makes to one row for one counted match: every
      row whose id equals team 1's gets team 1's delta, and likewise for team 2. */
  function UpdateRow(r: StandingRow, m: Match): StandingRow
    requires Counted(m)
  {
    var d1 := if r.teamId == m.team1Id then SideDelta(m, 1) else Zero;
    var d2 := if r.teamId == m.team2Id then SideDelta(m, 2) else Zero;
    r.(stats := Add(Add(r.stats, d1), d2))
  }

  predicate SameTeams(a: seq<StandingRow>, b: seq<StandingRow>) {
    |a| == |b| &&
    forall k :: 0 <= k < |a| ==>
      a[k].teamId == b[k].teamId && a[k].teamName == b[k].teamName && a[k].group == b[k].group &&
      a[k].setsDiff == b[k].setsDiff && a[k].gamesDiff == b[k].gamesDiff
  }

  /** One pass of the source's loop body over the table. */
  function ApplyMatch(rows: seq<StandingRow>, m: Match): (r: seq<StandingRow>)
    ensures SameTeams(r, rows)
  {
    if !Counted(m) then rows
    else seq(|rows|, k requires 0 <= k < |rows| => UpdateRow(rows[k], m))
  }

  /** The table after every match of `ms`, in order. */
  function Fold(rows: seq<StandingRow>, ms: seq<Match>): (r: seq<StandingRow>)
    ensures SameTeams(r, rows)
  {
    if ms == [] then rows else ApplyMatch(Fold(rows, ms[..|ms| - 1]), ms[|ms| - 1])
  }

  /** `sets_diff` and `games_diff` filled in from the accumulated counts. */
  function WithDiffs(rows: seq<StandingRow>): (r: seq<StandingRow>)
    ensures |r| == |rows|
  {
    seq(|rows|, k requires 0 <= k < |rows| =>
      rows[k].(setsDiff := rows[k].stats.setsWon - rows[k].stats.setsLost,
               gamesDiff := rows[k].stats.gamesWon - rows[k].stats.gamesLost))
  }

  /** The tie-break key, each component negated so that larger comes first:
      points, wins, sets_diff, games_diff. */
  function RankKey(r: StandingRow): seq<int> {
    [-r.stats.points, -r.stats.wins, -r.setsDiff, -r.gamesDiff]
  }

  /** Group ascending, a missing group last. */
  predicate GroupBefore(a: Option<string>, b: Option<string>) {
    match (a, b)
    case (Some(x), Some(y)) => StrLe(x, y) && x != y
    case (Some(_), None) => true
    case (None, _) => false
  }

  /** The standings order: group ascending, then points, wins, sets_diff,
      games_diff descending. */
  predicate StandingBefore(a: StandingRow, b: StandingRow) {
    GroupBefore(a.group, b.group) || (a.group == b.group && KeyLe(RankKey(a), RankKey(b)))
  }

  lemma StandingOrderIsTotalPreorder()
    ensures TotalPreorder(StandingBefore)
  {
    forall a: StandingRow, b: StandingRow
      ensures StandingBefore(a, b) || StandingBefore(b, a)
    {
      KeyLeTotalOrder(RankKey(a), RankKey(b), RankKey(a));
      if a.group.Some? && b.group.Some? {
        StrLeTotalOrder(a.group.value, b.group.value, a.group.value);
      }
    }
    forall a: StandingRow, b: StandingRow, c: StandingRow
      | StandingBefore(a, b) && StandingBefore(b, c)
      ensures StandingBefore(a, c)
    {
      KeyLeTotalOrder(RankKey(a), RankKey(b), RankKey(c));
      if a.group.Some? && b.group.Some? && c.group.Some? {
        var x, y, z := a.group.value, b.group.value, c.group.value;
        StrLeTotalOrder(x, y, z);
        StrLeTotalOrder(y, x, z);
        StrLeTotalOrder(x, z, y);
      }
    }
  }

  /** The whole table the source returns. */
  function Table(teams: seq<Team>, matches: seq<Match>): seq<StandingRow> {
    SortBy(WithDiffs(Fold(InitRows(teams), matches)), StandingBefore)
  }

  /** The eighteen `base.loc[...] += ...` updates of one counted match, applied
      row by row: each row whose id is team 1's or team 2's gets that side's
      additions, every other row is left alone. */
  method AddMatch(base: array<StandingRow>, m: Match, t1Sets: nat, t2Sets: nat, gw1: int, gw2: int)
    requires Counted(m) && (t1Sets, t2Sets) == MatchResult(m)
    requires gw1 == Games(Sets(m), 1) && gw2 == Games(Sets(m), 2)
    modifies base
    ensures base[..] == ApplyMatch(old(base[..]), m)
  {
    ghost var before := base[..];
    var win1 := if t1Sets > t2Sets then 1 else 0;
    var win2 := if t2Sets > t1Sets then 1 else 0;
    var side1 := Stats(1, win1, win2, t1Sets, t2Sets, gw1, gw2, 3 * win1);
    var side2 := Stats(1, win2, win1, t2Sets, t1Sets, gw2, gw1, 3 * win2);
    assert side1 == SideDelta(m, 1) && side2 == SideDelta(m, 2);
    for k := 0 to base.Length
      invariant forall j :: 0 <= j < k ==> base[j] == UpdateRow(before[j], m)
      invariant forall j :: k <= j < base.Length ==> base[j] == before[j]
    {
      var r := base[k];
      var d1 := if r.teamId == m.team1Id then side1 else Zero;
      var d2 := if r.teamId == m.team2Id then side2 else Zero;
      base[k] := r.(stats := Add(Add(r.stats, d1), d2));
    }
  }

  /** `compute_standings`: a zeroed row per team, updated in place for every
      counted match, then the differences, then the sort. */
  method ComputeStandings(teams: seq<Team>, matches: seq<Match>) returns (table: seq<StandingRow>)
    ensures table == Table(teams, matches)
    ensures SortedBy(table, StandingBefore)
    ensures multiset(table) == multiset(WithDiffs(Fold(InitRows(teams), matches)))
  {
    var base := new StandingRow[|teams|](k requires 0 <= k < |teams| => InitRow(teams[k]));
    assert base[..] == InitRows(teams);
    for i := 0 to |matches|
      invariant base[..] == Fold(InitRows(teams), matches[..i])
    {
      var m := matches[i];
      assert matches[..i + 1][..i] == matches[..i];
      if m.team1Id.Some? && m.team2Id.Some? {
        var t1Sets, t2Sets := ComputeMatchResult(m);
        if !(t1Sets == 0 && t2Sets == 0) {
          var gw1, gw2 := GameTotals(m);
          AddMatch(base, m, t1Sets, t2Sets, gw1, gw2);
        }
      }
    }
    assert matches[..|matches|] == matches;
    var rows := WithDiffs(base[..]);
    table := SortBy(rows, StandingBefore);
    StandingOrderIsTotalPreorder();
    SortBySorted(rows, StandingBefore);
  }
}
