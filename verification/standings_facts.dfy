/** What the standings aggregator guarantees, proved about the functions that
    specify `compute_standings`. */
module StandingsFacts {
  import opened Wrappers
  import opened Records
  import opened Ordering
  import opened Standings

  /** A match with a missing team id, or in which no set has a winner (every
      set unscored, half scored or tied, whatever games were entered), changes
      no row. */
  lemma NoResultChangesNothing(rows: seq<StandingRow>, m: Match)
    requires m.team1Id.None? || m.team2Id.None? ||
             forall i :: 0 <= i < |Sets(m)| ==> SetWinner(Sets(m)[i]) == 0
    ensures ApplyMatch(rows, m) == rows
  {
    if m.team1Id.Some? && m.team2Id.Some? {
      NoWinnerNoSets(Sets(m), 1);
      NoWinnerNoSets(Sets(m), 2);
    }
  }

  /** A counted match adds one to `played` for each of its two team ids (so
      two for a team that meets itself), and leaves every other row as it was. */
  lemma CountedMatchRow(rows: seq<StandingRow>, m: Match, k: nat)
    requires Counted(m) && k < |rows|
    ensures ApplyMatch(rows, m)[k].stats.played ==
            rows[k].stats.played + (if rows[k].teamId == m.team1Id then 1 else 0)
                                 + (if rows[k].teamId == m.team2Id then 1 else 0)
    ensures rows[k].teamId != m.team1Id && rows[k].teamId != m.team2Id ==>
            ApplyMatch(rows, m)[k] == rows[k]
  {
  }

  /** What one side wins the other loses: the sets and games credited to team
      1 are debited to team 2 and back. */
  lemma DeltasMirror(m: Match)
    ensures SideDelta(m, 1).setsWon == SideDelta(m, 2).setsLost
    ensures SideDelta(m, 1).setsLost == SideDelta(m, 2).setsWon
    ensures SideDelta(m, 1).gamesWon == SideDelta(m, 2).gamesLost
    ensures SideDelta(m, 1).gamesLost == SideDelta(m, 2).gamesWon
    ensures SideDelta(m, 1).wins == SideDelta(m, 2).losses
    ensures SideDelta(m, 1).losses == SideDelta(m, 2).wins
  {
  }

  /** Strictly more sets: the winner gets one win and three points, the loser
      one loss; equal sets: nobody's wins, losses or points change. */
  lemma WinnerTakesThree(rows: seq<StandingRow>, m: Match, k: nat)
    requires Counted(m) && k < |rows| && m.team1Id != m.team2Id
    ensures var (s1, s2) := MatchResult(m);
            var before, after := rows[k].stats, ApplyMatch(rows, m)[k].stats;
            && (rows[k].teamId == m.team1Id && s1 > s2 ==>
                  after.wins == before.wins + 1 && after.points == before.points + 3 && after.losses == before.losses)
            && (rows[k].teamId == m.team2Id && s1 > s2 ==>
                  after.losses == before.losses + 1 && after.points == before.points && after.wins == before.wins)
            && (rows[k].teamId == m.team2Id && s2 > s1 ==>
                  after.wins == before.wins + 1 && after.points == before.points + 3 && after.losses == before.losses)
            && (rows[k].teamId == m.team1Id && s2 > s1 ==>
                  after.losses == before.losses + 1 && after.points == before.points && after.wins == before.wins)
            && (s1 == s2 ==>
                  after.wins == before.wins && after.losses == before.losses && after.points == before.points)
  {
  }

  // ------------------------------------------------------------ row invariant

  /** Every row: three points per win, and no more decided matches than played. */
  predicate ValidStats(s: Stats) {
    && s.points == 3 * s.wins
    && 0 <= s.wins && 0 <= s.losses && s.wins + s.losses <= s.played
    && 0 <= s.setsWon && 0 <= s.setsLost
  }

  predicate AllValid(rows: seq<StandingRow>) {
    forall k :: 0 <= k < |rows| ==> ValidStats(rows[k].stats)
  }

  lemma ApplyMatchKeepsValid(rows: seq<StandingRow>, m: Match)
    requires AllValid(rows)
    ensures AllValid(ApplyMatch(rows, m))
  {
    if Counted(m) {
      var r := ApplyMatch(rows, m);
      forall k | 0 <= k < |r| ensures ValidStats(r[k].stats) {
        assert r[k] == UpdateRow(rows[k], m);
      }
    }
  }

  lemma {:induction false} FoldKeepsValid(rows: seq<StandingRow>, ms: seq<Match>)
    requires AllValid(rows)
    ensures AllValid(Fold(rows, ms))
  {
    if ms != [] {
      FoldKeepsValid(rows, ms[..|ms| - 1]);
      ApplyMatchKeepsValid(Fold(rows, ms[..|ms| - 1]), ms[|ms| - 1]);
    }
  }

  /** Every row of the final table: points = 3 * wins, wins + losses <= played,
      sets_diff = sets_won - sets_lost and games_diff = games_won - games_lost;
      and there is one row per team. */
  lemma StandingsRows(teams: seq<Team>, matches: seq<Match>)
    ensures |Table(teams, matches)| == |teams|
    ensures forall r :: r in Table(teams, matches) ==>
      && ValidStats(r.stats)
      && r.setsDiff == r.stats.setsWon - r.stats.setsLost
      && r.gamesDiff == r.stats.gamesWon - r.stats.gamesLost
  {
    var folded := Fold(InitRows(teams), matches);
    FoldKeepsValid(InitRows(teams), matches);
    var rows := WithDiffs(folded);
    forall r | r in Table(teams, matches)
      ensures ValidStats(r.stats)
      ensures r.setsDiff == r.stats.setsWon - r.stats.setsLost
      ensures r.gamesDiff == r.stats.gamesWon - r.stats.gamesLost
    {
      assert r in multiset(SortBy(rows, StandingBefore));
      assert r in multiset(rows);
      var k :| 0 <= k < |rows| && rows[k] == r;
    }
  }

  /** The table is sorted by group, then points, wins, sets_diff, games_diff,
      and holds exactly the aggregated rows. */
  lemma StandingsSorted(teams: seq<Team>, matches: seq<Match>)
    ensures SortedBy(Table(teams, matches), StandingBefore)
    ensures multiset(Table(teams, matches)) == multiset(WithDiffs(Fold(InitRows(teams), matches)))
  {
    StandingOrderIsTotalPreorder();
    SortBySorted(WithDiffs(Fold(InitRows(teams), matches)), StandingBefore);
  }

  /** A row whose team is named by no match keeps its statistics: a team with
      no matches ends with every statistic zero. */
  lemma {:induction false} UnreferencedRowUnchanged(rows: seq<StandingRow>, ms: seq<Match>, k: nat)
    requires k < |rows|
    requires forall i :: 0 <= i < |ms| ==> ms[i].team1Id != rows[k].teamId && ms[i].team2Id != rows[k].teamId
    ensures Fold(rows, ms)[k] == rows[k]
  {
    if ms != [] {
      UnreferencedRowUnchanged(rows, ms[..|ms| - 1], k);
      var prev := Fold(rows, ms[..|ms| - 1]);
      if Counted(ms[|ms| - 1]) {
        CountedMatchRow(prev, ms[|ms| - 1], k);
      }
    }
  }

  // ------------------------------------------------------------ balance

  function TotalStats(rows: seq<StandingRow>): Stats {
    if rows == [] then Zero else Add(TotalStats(rows[..|rows| - 1]), rows[|rows| - 1].stats)
  }

  function CountId(rows: seq<StandingRow>, id: Option<int>): nat {
    if rows == [] then 0
    else CountId(rows[..|rows| - 1], id) + (if rows[|rows| - 1].teamId == id then 1 else 0)
  }

  function Times(n: nat, d: Stats): Stats {
    if n == 0 then Zero else Add(Times(n - 1, d), d)
  }

  lemma SnocAlgebra(total: Stats, totalInit: Stats, lastNew: Stats, init: Stats, last: Stats,
                    t1: Stats, e1: Stats, t2: Stats, e2: Stats, whole: Stats, x1: Stats, x2: Stats)
    requires total == Add(totalInit, lastNew)
    requires totalInit == Add(Add(init, t1), t2)
    requires lastNew == Add(Add(last, e1), e2)
    requires whole == Add(init, last) && x1 == Add(t1, e1) && x2 == Add(t2, e2)
    ensures total == Add(Add(whole, x1), x2)
  {
  }

  lemma TimesStep(cnt: nat, c: nat, hit: bool, d: Stats, e: Stats)
    requires cnt == c + (if hit then 1 else 0) && e == (if hit then d else Zero)
    ensures Times(cnt, d) == Add(Times(c, d), e)
  {
  }

  lemma TotalSnoc(rows: seq<StandingRow>)
    requires rows != []
    ensures TotalStats(rows) == Add(TotalStats(rows[..|rows| - 1]), rows[|rows| - 1].stats)
  {
  }

  lemma CountSnoc(rows: seq<StandingRow>, id: Option<int>)
    requires rows != []
    ensures CountId(rows, id) ==
            CountId(rows[..|rows| - 1], id) + (if rows[|rows| - 1].teamId == id then 1 else 0)
  {
  }

  function Bump(r: StandingRow, id1: Option<int>, d1: Stats, id2: Option<int>, d2: Stats): StandingRow {
    r.(stats := Add(Add(r.stats, if r.teamId == id1 then d1 else Zero), if r.teamId == id2 then d2 else Zero))
  }

  /** Every row carrying `id1` gets `d1` added, every row carrying `id2` gets `d2`. */
  function AddAt(rows: seq<StandingRow>, id1: Option<int>, d1: Stats, id2: Option<int>, d2: Stats): (r: seq<StandingRow>)
    ensures |r| == |rows|
    ensures forall k :: 0 <= k < |rows| ==> r[k] == Bump(rows[k], id1, d1, id2, d2)
  {
    if rows == [] then []
    else AddAt(rows[..|rows| - 1], id1, d1, id2, d2) + [Bump(rows[|rows| - 1], id1, d1, id2, d2)]
  }

  lemma ApplyMatchIsAddAt(rows: seq<StandingRow>, m: Match)
    requires Counted(m)
    ensures ApplyMatch(rows, m) == AddAt(rows, m.team1Id, SideDelta(m, 1), m.team2Id, SideDelta(m, 2))
  {
  }

  lemma {:induction false} AddAtTotals(rows: seq<StandingRow>, id1: Option<int>, d1: Stats, id2: Option<int>, d2: Stats)
    ensures TotalStats(AddAt(rows, id1, d1, id2, d2)) ==
            Add(Add(TotalStats(rows), Times(CountId(rows, id1), d1)), Times(CountId(rows, id2), d2))
  {
    if rows != [] {
      var n := |rows|;
      var init := rows[..n - 1];
      var last := rows[n - 1];
      var applied := AddAt(rows, id1, d1, id2, d2);
      var lastNew := Bump(last, id1, d1, id2, d2);
      assert applied == AddAt(init, id1, d1, id2, d2) + [lastNew];
      assert applied[..n - 1] == AddAt(init, id1, d1, id2, d2);
      AddAtTotals(init, id1, d1, id2, d2);
      var hit1, hit2 := last.teamId == id1, last.teamId == id2;
      var e1 := if hit1 then d1 else Zero;
      var e2 := if hit2 then d2 else Zero;
      var c1, c2 := CountId(init, id1), CountId(init, id2);
      CountSnoc(rows, id1);
      CountSnoc(rows, id2);
      TimesStep(CountId(rows, id1), c1, hit1, d1, e1);
      TimesStep(CountId(rows, id2), c2, hit2, d2, e2);
      TotalSnoc(rows);
      TotalSnoc(applied);
      SnocAlgebra(TotalStats(applied), TotalStats(applied[..n - 1]), lastNew.stats,
                  TotalStats(init), last.stats, Times(c1, d1), e1, Times(c2, d2), e2,
                  TotalStats(rows), Times(CountId(rows, id1), d1), Times(CountId(rows, id2), d2));
    } else {
      var empty: seq<StandingRow> := [];
      assert TotalStats(empty) == Zero && CountId(empty, id1) == 0 && CountId(empty, id2) == 0;
      assert Times(0, d1) == Zero && Times(0, d2) == Zero;
      assert AddAt(empty, id1, d1, id2, d2) == empty;
      assert rows == empty;
    }
  }

  /** Summed over the table, what one counted match adds: team 1's additions
      once per row carrying its id, team 2's likewise. */
  lemma ApplyMatchTotals(rows: seq<StandingRow>, m: Match)
    requires Counted(m)
    ensures TotalStats(ApplyMatch(rows, m)) ==
            Add(Add(TotalStats(rows), Times(CountId(rows, m.team1Id), SideDelta(m, 1))),
                Times(CountId(rows, m.team2Id), SideDelta(m, 2)))
  {
    ApplyMatchIsAddAt(rows, m);
    AddAtTotals(rows, m.team1Id, SideDelta(m, 1), m.team2Id, SideDelta(m, 2));
  }

  /** Over the whole table, sets won equal sets lost, games won equal games
      lost, and wins equal losses. */
  predicate Balanced(s: Stats) {
    s.setsWon == s.setsLost && s.gamesWon == s.gamesLost && s.wins == s.losses
  }

  predicate UniqueIds(rows: seq<StandingRow>) {
    forall i, j :: 0 <= i < j < |rows| && rows[i].teamId.Some? ==> rows[i].teamId != rows[j].teamId
  }

  function RowIds(rows: seq<StandingRow>): set<Option<int>> {
    set k | 0 <= k < |rows| :: rows[k].teamId
  }

  lemma {:induction false} CountUnique(rows: seq<StandingRow>, id: Option<int>)
    requires UniqueIds(rows) && id.Some?
    ensures CountId(rows, id) == if id in RowIds(rows) then 1 else 0
  {
    if rows != [] {
      var n := |rows|;
      var init := rows[..n - 1];
      assert UniqueIds(init);
      CountUnique(init, id);
      assert RowIds(rows) == RowIds(init) + {rows[n - 1].teamId};
      if rows[n - 1].teamId == id {
        assert id !in RowIds(init);
      }
    }
  }

  lemma {:induction false} FoldBalanced(rows: seq<StandingRow>, ms: seq<Match>)
    requires Balanced(TotalStats(rows)) && UniqueIds(rows)
    requires forall i :: 0 <= i < |ms| && Counted(ms[i]) ==>
               ms[i].team1Id in RowIds(rows) && ms[i].team2Id in RowIds(rows)
    ensures Balanced(TotalStats(Fold(rows, ms)))
  {
    if ms != [] {
      var prevMs := ms[..|ms| - 1];
      var m := ms[|ms| - 1];
      FoldBalanced(rows, prevMs);
      var prev := Fold(rows, prevMs);
      if Counted(m) {
        assert RowIds(prev) == RowIds(rows);
        assert UniqueIds(prev);
        CountUnique(prev, m.team1Id);
        CountUnique(prev, m.team2Id);
        ApplyMatchTotals(prev, m);
      }
    }
  }

  lemma {:induction false} InitRowsTotalZero(teams: seq<Team>)
    ensures TotalStats(InitRows(teams)) == Zero
  {
    if teams != [] {
      var n := |teams|;
      assert InitRows(teams)[..n - 1] == InitRows(teams[..n - 1]);
      InitRowsTotalZero(teams[..n - 1]);
    }
  }

  function TeamIds(teams: seq<Team>): set<Option<int>> {
    set k | 0 <= k < |teams| :: teams[k].teamId
  }

  /** The initial table holds a row for exactly the listed team ids. */
  lemma InitRowIds(teams: seq<Team>)
    ensures RowIds(InitRows(teams)) == TeamIds(teams)
  {
    var rows := InitRows(teams);
    forall x | x in RowIds(rows)
      ensures x in TeamIds(teams)
    {
      var k :| 0 <= k < |rows| && rows[k].teamId == x;
      assert teams[k].teamId == x;
    }
    forall x | x in TeamIds(teams)
      ensures x in RowIds(rows)
    {
      var k :| 0 <= k < |teams| && teams[k].teamId == x;
      assert rows[k].teamId == x;
    }
  }

  /** When team ids are unique and every counted match names two listed teams,
      the table's total sets won equal its total sets lost, and likewise games
      and wins against losses. */
  lemma TableBalanced(teams: seq<Team>, matches: seq<Match>)
    requires forall i, j :: 0 <= i < j < |teams| && teams[i].teamId.Some? ==> teams[i].teamId != teams[j].teamId
    requires forall i :: 0 <= i < |matches| && Counted(matches[i]) ==>
      matches[i].team1Id in TeamIds(teams) && matches[i].team2Id in TeamIds(teams)
    ensures Balanced(TotalStats(Fold(InitRows(teams), matches)))
  {
    InitRowsTotalZero(teams);
    InitRowIds(teams);
    FoldBalanced(InitRows(teams), matches);
  }

  // ------------------------------------------------------------ order

  lemma ApplyMatchCommutes(rows: seq<StandingRow>, a: Match, b: Match)
    ensures ApplyMatch(ApplyMatch(rows, a), b) == ApplyMatch(ApplyMatch(rows, b), a)
  {
  }

  lemma {:induction false} MoveToEnd(rows: seq<StandingRow>, front: seq<Match>, x: Match, back: seq<Match>)
    ensures Fold(rows, front + [x] + back) == Fold(rows, front + back + [x])
  {
    if back != [] {
      var b' := back[..|back| - 1];
      var y := back[|back| - 1];
      assert back == b' + [y];
      assert (front + [x] + back)[..|front + [x] + back| - 1] == front + [x] + b';
      assert (front + [x] + back)[|front + [x] + back| - 1] == y;
      MoveToEnd(rows, front, x, b');
      assert (front + b' + [x])[..|front + b'|] == front + b';
      assert (front + back)[..|front + back| - 1] == front + b';
      assert (front + back + [x])[..|front + back|] == front + back;
      var base := Fold(rows, front + b');
      ApplyMatchCommutes(base, x, y);
      calc {
        Fold(rows, front + [x] + back);
        ApplyMatch(Fold(rows, front + [x] + b'), y);
        ApplyMatch(Fold(rows, front + b' + [x]), y);
        ApplyMatch(ApplyMatch(base, x), y);
        ApplyMatch(ApplyMatch(base, y), x);
        ApplyMatch(Fold(rows, front + back), x);
        Fold(rows, front + back + [x]);
      }
    } else {
      assert front + [x] + back == front + back + [x];
    }
  }

  /** The statistics do not depend on the order of the match list. */
  lemma {:induction false} FoldOrderIndependent(rows: seq<StandingRow>, ms: seq<Match>, ms': seq<Match>)
    requires multiset(ms) == multiset(ms')
    ensures Fold(rows, ms) == Fold(rows, ms')
    decreases |ms|
  {
    if ms != [] {
      var n := |ms|;
      var x := ms[n - 1];
      assert ms == ms[..n - 1] + [x];
      assert x in multiset(ms');
      var k :| 0 <= k < |ms'| && ms'[k] == x;
      var rest := ms'[..k] + ms'[k + 1..];
      assert ms' == ms'[..k] + [x] + ms'[k + 1..];
      MoveToEnd(rows, ms'[..k], x, ms'[k + 1..]);
      assert multiset(ms) == multiset(ms[..n - 1]) + multiset{x};
      assert multiset(ms') == multiset(ms'[..k]) + multiset{x} + multiset(ms'[k + 1..]);
      calc {
        multiset(ms[..n - 1]) + multiset{x};
        multiset(ms);
        multiset(ms');
        { assert ms' == ms'[..k] + [x] + ms'[k + 1..]; }
        multiset(ms'[..k]) + multiset{x} + multiset(ms'[k + 1..]);
        multiset(rest) + multiset{x};
      }
      forall y ensures multiset(ms[..n - 1])[y] == multiset(rest)[y] {
        assert (multiset(ms[..n - 1]) + multiset{x})[y] == (multiset(rest) + multiset{x})[y];
      }
      assert multiset(ms[..n - 1]) == multiset(rest);
      FoldOrderIndependent(rows, ms[..n - 1], rest);
      assert (rest + [x])[..|rest|] == rest;
    }
  }
}
