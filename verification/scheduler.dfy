/** The organizer's scheduler: round-robin fixtures per group, renumbering
    from a chosen first match id, the replace / append write modes, and the
    manual match maker. */
module Scheduler {
  import opened Wrappers
  import opened Records
  import opened PyInt
  import opened Ordering

  // ------------------------------------------------------------ groups

  /** The group labels present among `teams`, each once, in first-seen order
      (missing groups dropped, as `groupby` drops them). */
  function SeenGroups(teams: seq<Team>): seq<string> {
    if teams == [] then []
    else
      var prev := SeenGroups(teams[..|teams| - 1]);
      var t := teams[|teams| - 1];
      if t.group.Some? && t.group.value !in prev then prev + [t.group.value] else prev
  }

  predicate Distinct<T(==)>(s: seq<T>) {
    forall i, j :: 0 <= i < j < |s| ==> s[i] != s[j]
  }

  function GroupSet(teams: seq<Team>): set<string> {
    set k | 0 <= k < |teams| && teams[k].group.Some? :: teams[k].group.value
  }

  lemma {:induction false} SeenGroupsSpec(teams: seq<Team>)
    ensures Distinct(SeenGroups(teams))
    ensures forall g :: g in SeenGroups(teams) <==> g in GroupSet(teams)
  {
    if teams != [] {
      var init := teams[..|teams| - 1];
      SeenGroupsSpec(init);
      assert GroupSet(teams) == GroupSet(init) +
        (if teams[|teams| - 1].group.Some? then {teams[|teams| - 1].group.value} else {});
    }
  }

  /** The groups `df.groupby("group")` visits: every present label once, in
      ascending order. */
  function Groups(teams: seq<Team>): seq<string> {
    SortBy(SeenGroups(teams), StrLe)
  }

  lemma {:induction false} DistinctCount<T>(s: seq<T>, x: T)
    requires Distinct(s)
    ensures multiset(s)[x] <= 1
  {
    if s != [] {
      var init := s[..|s| - 1];
      assert s == init + [s[|s| - 1]];
      DistinctCount(init, x);
      if x == s[|s| - 1] {
        assert x !in init;
      }
    }
  }

  lemma RepeatCount<T>(s: seq<T>, i: nat, j: nat)
    requires i < j < |s| && s[i] == s[j]
    ensures multiset(s)[s[i]] >= 2
  {
    assert s == s[..j] + [s[j]] + s[j + 1..];
    assert s[i] in s[..j];
  }

  lemma StrLeTotalPreorder()
    ensures TotalPreorder(StrLe)
  {
    forall a: string, b: string, c: string {
      StrLeTotalOrder(a, b, c);
    }
  }

  /** The groups come out strictly ascending and are exactly the present labels. */
  lemma GroupsSpec(teams: seq<Team>)
    ensures forall i, j :: 0 <= i < j < |Groups(teams)| ==>
              StrLe(Groups(teams)[i], Groups(teams)[j]) && Groups(teams)[i] != Groups(teams)[j]
    ensures forall g :: g in Groups(teams) <==> g in GroupSet(teams)
  {
    var seen := SeenGroups(teams);
    var gs := Groups(teams);
    SeenGroupsSpec(teams);
    StrLeTotalPreorder();
    SortBySorted(seen, StrLe);
    forall i, j | 0 <= i < j < |gs|
      ensures gs[i] != gs[j]
    {
      if gs[i] == gs[j] {
        RepeatCount(gs, i, j);
        DistinctCount(seen, gs[i]);
        assert false;
      }
    }
    forall g
      ensures g in gs <==> g in GroupSet(teams)
    {
      assert g in gs <==> g in multiset(gs);
      assert g in seen <==> g in multiset(seen);
    }
  }

  /** `[int(x) for x in gdf["team_id"].dropna()]`: the ids of group `g`'s
      teams in input order, missing ids dropped. */
  function GroupIds(teams: seq<Team>, g: string): seq<int> {
    if teams == [] then []
    else
      var t := teams[|teams| - 1];
      GroupIds(teams[..|teams| - 1], g) +
        (if t.group == Some(g) && t.teamId.Some? then [t.teamId.value] else [])
  }

  lemma {:induction false} GroupIdsMembers(teams: seq<Team>, g: string, x: int)
    requires x in GroupIds(teams, g)
    ensures exists k :: 0 <= k < |teams| && teams[k].group == Some(g) && teams[k].teamId == Some(x)
  {
    var init := teams[..|teams| - 1];
    if x in GroupIds(init, g) {
      GroupIdsMembers(init, g, x);
      var k :| 0 <= k < |init| && init[k].group == Some(g) && init[k].teamId == Some(x);
      assert teams[k] == init[k];
    } else {
      assert teams[|teams| - 1].group == Some(g) && teams[|teams| - 1].teamId == Some(x);
    }
  }

  // ------------------------------------------------------------ pairs

  /** Row `i` of the pairing triangle: `ids[i]` against every later id. */
  function RowPairs(ids: seq<int>, i: nat): (r: seq<(int, int)>)
    requires i < |ids|
    ensures |r| == |ids| - i - 1
  {
    seq(|ids| - i - 1, k requires 0 <= k < |ids| - i - 1 => (ids[i], ids[i + 1 + k]))
  }

  /** Rows `0 .. i-1` of the triangle, outer index first. */
  function Triangle(ids: seq<int>, i: nat): seq<(int, int)>
    requires i <= |ids|
  {
    if i == 0 then [] else Triangle(ids, i - 1) + RowPairs(ids, i - 1)
  }

  /** Every `(ids[i], ids[j])` with `i < j`, outer loop over `i`, inner over `j`. */
  function Pairs(ids: seq<int>): seq<(int, int)> {
    Triangle(ids, |ids|)
  }

  lemma {:induction false} TriangleSize(ids: seq<int>, i: nat)
    requires i <= |ids|
    ensures 2 * |Triangle(ids, i)| == i * (2 * |ids| - i - 1)
  {
    if i > 0 {
      TriangleSize(ids, i - 1);
      var n := |ids|;
      calc {
        2 * |Triangle(ids, i)|;
        2 * |Triangle(ids, i - 1)| + 2 * (n - i);
        (i - 1) * (2 * n - i) + 2 * (n - i);
        { assert (i - 1) * (2 * n - i) == i * (2 * n - i) - (2 * n - i); }
        i * (2 * n - i) - i;
        i * (2 * n - i - 1);
      }
    }
  }

  /** n teams give n·(n−1)/2 pairs; a group of 0 or 1 teams gives none. */
  lemma PairsCount(ids: seq<int>)
    ensures 2 * |Pairs(ids)| == |ids| * (|ids| - 1)
    ensures |ids| <= 1 ==> Pairs(ids) == []
  {
    TriangleSize(ids, |ids|);
  }

  lemma {:induction false} TrianglePrefix(ids: seq<int>, a: nat, b: nat)
    requires a <= b <= |ids|
    ensures |Triangle(ids, a)| <= |Triangle(ids, b)|
    ensures Triangle(ids, a) == Triangle(ids, b)[..|Triangle(ids, a)|]
    decreases b
  {
    if a < b {
      TrianglePrefix(ids, a, b - 1);
    }
  }

  /** Where the pair of positions `i < j` sits in the enumeration. */
  function Slot(ids: seq<int>, i: nat, j: nat): nat
    requires i < j <= |ids|
  {
    |Triangle(ids, i)| + (j - i - 1)
  }

  /** The pair of positions `i < j` is `(ids[i], ids[j])` at its slot. */
  lemma PairAt(ids: seq<int>, i: nat, j: nat)
    requires i < j < |ids|
    ensures Slot(ids, i, j) < |Pairs(ids)|
    ensures Pairs(ids)[Slot(ids, i, j)] == (ids[i], ids[j])
  {
    var upTo := Triangle(ids, i + 1);
    assert upTo == Triangle(ids, i) + RowPairs(ids, i);
    assert upTo[Slot(ids, i, j)] == RowPairs(ids, i)[j - i - 1];
    TrianglePrefix(ids, i + 1, |ids|);
    assert Pairs(ids)[..|upTo|] == upTo;
  }

  lemma {:induction false} PairOriginUpTo(ids: seq<int>, m: nat, k: nat)
    requires m <= |ids| && k < |Triangle(ids, m)|
    ensures exists i, j :: 0 <= i < m && i < j < |ids| && Slot(ids, i, j) == k
  {
    var prev := Triangle(ids, m - 1);
    if k < |prev| {
      PairOriginUpTo(ids, m - 1, k);
    } else {
      var i, j := m - 1, m + (k - |prev|);
      assert Slot(ids, i, j) == k;
    }
  }

  /** Every entry of the enumeration is the pair of some positions `i < j`. */
  lemma PairOrigin(ids: seq<int>, k: nat)
    requires k < |Pairs(ids)|
    ensures exists i, j :: 0 <= i < j < |ids| && Slot(ids, i, j) == k && Pairs(ids)[k] == (ids[i], ids[j])
  {
    PairOriginUpTo(ids, |ids|, k);
    var i, j :| 0 <= i < j < |ids| && Slot(ids, i, j) == k;
    PairAt(ids, i, j);
  }

  /** With distinct ids, no unordered pair of teams meets twice. */
  lemma PairsUnique(ids: seq<int>, p: nat, q: nat)
    requires Distinct(ids)
    requires p < q < |Pairs(ids)|
    ensures Pairs(ids)[p] != Pairs(ids)[q]
    ensures Pairs(ids)[p] != (Pairs(ids)[q].1, Pairs(ids)[q].0)
  {
    PairOrigin(ids, p);
    var i, j :| 0 <= i < j < |ids| && Slot(ids, i, j) == p && Pairs(ids)[p] == (ids[i], ids[j]);
    PairOrigin(ids, q);
    var i', j' :| 0 <= i' < j' < |ids| && Slot(ids, i', j') == q && Pairs(ids)[q] == (ids[i'], ids[j']);
  }

  // ------------------------------------------------------------ fixtures

  /** A generated fixture: scheduled, unscored, not yet numbered or scoped. */
  function Fixture(g: string, p: (int, int)): Match {
    Match(None, Some(g), Some(p.0), Some(p.1), Some(Scheduled),
          None, None, None, None, None, None, None)
  }

  function Fixtures(g: string, ps: seq<(int, int)>): (r: seq<Match>)
    ensures |r| == |ps|
  {
    seq(|ps|, k requires 0 <= k < |ps| => Fixture(g, ps[k]))
  }

  function GroupFixtures(teams: seq<Team>, g: string): seq<Match> {
    Fixtures(g, Pairs(GroupIds(teams, g)))
  }

  /** The fixtures of the groups `gs`, group after group. */
  function FixturesOf(teams: seq<Team>, gs: seq<string>): seq<Match> {
    if gs == [] then []
    else FixturesOf(teams, gs[..|gs| - 1]) + GroupFixtures(teams, gs[|gs| - 1])
  }

  /** What `generate_round_robin` emits before numbering. */
  function RoundRobin(teams: seq<Team>): seq<Match> {
    FixturesOf(teams, Groups(teams))
  }

  /** Match ids `start, start + 1, …` by position: the `next_id` counter and
      the renumbering by `range(start_id, start_id + len(rr))`. */
  function Numbered(ms: seq<Match>, start: int): (r: seq<Match>)
    ensures |r| == |ms|
  {
    seq(|ms|, k requires 0 <= k < |ms| => ms[k].(matchId := Some(start + k)))
  }

  lemma NumberedSnoc(ms: seq<Match>, m: Match, start: int)
    ensures Numbered(ms + [m], start) == Numbered(ms, start) + [m.(matchId := Some(start + |ms|))]
  {
  }

  lemma FixturesSnoc(g: string, ps: seq<(int, int)>, p: (int, int))
    ensures Fixtures(g, ps + [p]) == Fixtures(g, ps) + [Fixture(g, p)]
  {
  }

  lemma FixturesAppend(g: string, ps: seq<(int, int)>, qs: seq<(int, int)>)
    ensures Fixtures(g, ps + qs) == Fixtures(g, ps) + Fixtures(g, qs)
  {
  }

  /** The inner loop's pairs so far gain `(ids[i], ids[j])` at step `j`. */
  lemma RowPairsSnoc(ids: seq<int>, i: nat, j: nat)
    requires i < j < |ids|
    ensures RowPairs(ids, i)[..j - i] == RowPairs(ids, i)[..j - i - 1] + [(ids[i], ids[j])]
  {
  }

  /** The outer loop: group `gi` adds its whole triangle of fixtures. */
  lemma RoundRobinGroupStep(teams: seq<Team>, groups: seq<string>, gi: nat)
    requires gi < |groups|
    ensures FixturesOf(teams, groups[..gi + 1]) ==
            FixturesOf(teams, groups[..gi]) +
            Fixtures(groups[gi], Pairs(GroupIds(teams, groups[gi])))
  {
    assert groups[..gi + 1][..gi] == groups[..gi];
  }

  /** `generate_round_robin`: for each group in ascending order, the nested
      `i < j` loops over the group's ids, numbering from 1. */
  method GenerateRoundRobin(teams: seq<Team>) returns (ms: seq<Match>)
    ensures ms == Numbered(RoundRobin(teams), 1)
  {
    var groups := Groups(teams);
    ms := [];
    var nextId := 1;
    ghost var done: seq<Match> := [];
    for gi := 0 to |groups|
      invariant done == FixturesOf(teams, groups[..gi])
      invariant ms == Numbered(done, 1) && nextId == |ms| + 1
    {
      var g := groups[gi];
      ms, nextId := EmitGroup(done, ms, nextId, g, GroupIds(teams, g));
      RoundRobinGroupStep(teams, groups, gi);
      done := done + Fixtures(g, Pairs(GroupIds(teams, g)));
    }
    assert groups[..|groups|] == groups;
  }

  /** The body of the group loop in `generate_round_robin`: the nested
      `i < j` loops over one group's ids, numbering on from `nextId`. */
  method EmitGroup(ghost done: seq<Match>, ms: seq<Match>, nextId: int, g: string, ids: seq<int>)
    returns (ms': seq<Match>, nextId': int)
    requires ms == Numbered(done, 1) && nextId == |ms| + 1
    ensures ms' == Numbered(done + Fixtures(g, Pairs(ids)), 1) && nextId' == |ms'| + 1
  {
    ms', nextId' := ms, nextId;
    var n := |ids|;
    ghost var pairs: seq<(int, int)> := [];
    ghost var emitted := done;
    for i := 0 to n
      invariant pairs == Triangle(ids, i)
      invariant emitted == done + Fixtures(g, pairs)
      invariant ms' == Numbered(emitted, 1) && nextId' == |ms'| + 1
    {
      for j := i + 1 to n
        invariant pairs == Triangle(ids, i) + RowPairs(ids, i)[..j - i - 1]
        invariant emitted == done + Fixtures(g, pairs)
        invariant ms' == Numbered(emitted, 1) && nextId' == |ms'| + 1
      {
        RowPairsSnoc(ids, i, j);
        FixturesSnoc(g, pairs, (ids[i], ids[j]));
        NumberedSnoc(emitted, Fixture(g, (ids[i], ids[j])), 1);
        ms' := ms' + [Match(Some(nextId'), Some(g), Some(ids[i]), Some(ids[j]), Some(Scheduled),
                            None, None, None, None, None, None, None)];
        nextId' := nextId' + 1;
        pairs := pairs + [(ids[i], ids[j])];
        emitted := emitted + [Fixture(g, (ids[i], ids[j]))];
      }
      assert RowPairs(ids, i)[..n - i - 1] == RowPairs(ids, i);
    }
  }

  /** Each group contributes n·(n−1)/2 fixtures, n being its number of team ids. */
  lemma GroupFixturesCount(teams: seq<Team>, g: string)
    ensures 2 * |GroupFixtures(teams, g)| == |GroupIds(teams, g)| * (|GroupIds(teams, g)| - 1)
  {
    PairsCount(GroupIds(teams, g));
  }

  /** A fixture of group `g` at position `k` pairs the group's `i`-th and
      `j`-th ids for some `i < j`, and is scheduled with every score absent. */
  lemma GroupFixtureShape(teams: seq<Team>, g: string, k: nat)
    requires k < |GroupFixtures(teams, g)|
    ensures GroupFixtures(teams, g)[k].status == Some(Scheduled)
    ensures forall s :: s in Sets(GroupFixtures(teams, g)[k]) ==> s == SetScore(None, None)
    ensures GroupFixtures(teams, g)[k].group == Some(g)
    ensures exists i, j :: 0 <= i < j < |GroupIds(teams, g)| &&
              GroupFixtures(teams, g)[k].team1Id == Some(GroupIds(teams, g)[i]) &&
              GroupFixtures(teams, g)[k].team2Id == Some(GroupIds(teams, g)[j])
  {
    PairOrigin(GroupIds(teams, g), k);
  }

  lemma {:induction false} FixturesOfMember(teams: seq<Team>, gs: seq<string>, k: nat)
    requires k < |FixturesOf(teams, gs)|
    ensures exists gi, k' :: 0 <= gi < |gs| && 0 <= k' < |GroupFixtures(teams, gs[gi])| &&
              FixturesOf(teams, gs)[k] == GroupFixtures(teams, gs[gi])[k']
  {
    var init := gs[..|gs| - 1];
    var prev := FixturesOf(teams, init);
    if k < |prev| {
      FixturesOfMember(teams, init, k);
      var gi, k' :| 0 <= gi < |init| && 0 <= k' < |GroupFixtures(teams, init[gi])| &&
                    prev[k] == GroupFixtures(teams, init[gi])[k'];
      assert gs[gi] == init[gi];
    } else {
      var gi, k' := |gs| - 1, k - |prev|;
      assert FixturesOf(teams, gs)[k] == GroupFixtures(teams, gs[gi])[k'];
    }
  }

  /** Every generated fixture is scheduled and unscored, and both of its teams
      are teams of the fixture's group, the earlier one in input order first. */
  lemma RoundRobinShape(teams: seq<Team>, k: nat)
    requires k < |RoundRobin(teams)|
    ensures RoundRobin(teams)[k].status == Some(Scheduled)
    ensures forall s :: s in Sets(RoundRobin(teams)[k]) ==> s == SetScore(None, None)
    ensures RoundRobin(teams)[k].group.Some?
    ensures exists t :: 0 <= t < |teams| &&
              teams[t].group == RoundRobin(teams)[k].group && teams[t].teamId == RoundRobin(teams)[k].team1Id
    ensures exists t :: 0 <= t < |teams| &&
              teams[t].group == RoundRobin(teams)[k].group && teams[t].teamId == RoundRobin(teams)[k].team2Id
  {
    var gs := Groups(teams);
    FixturesOfMember(teams, gs, k);
    var gi, k' :| 0 <= gi < |gs| && 0 <= k' < |GroupFixtures(teams, gs[gi])| &&
                  RoundRobin(teams)[k] == GroupFixtures(teams, gs[gi])[k'];
    var g := gs[gi];
    var ids := GroupIds(teams, g);
    GroupFixtureShape(teams, g, k');
    var i, j :| 0 <= i < j < |ids| &&
                GroupFixtures(teams, g)[k'].team1Id == Some(ids[i]) &&
                GroupFixtures(teams, g)[k'].team2Id == Some(ids[j]);
    GroupIdsMembers(teams, g, ids[i]);
    GroupIdsMembers(teams, g, ids[j]);
  }

  /** The worked example: four teams of one group meet in six fixtures, in the
      order (1,2) (1,3) (1,4) (2,3) (2,4) (3,4). */
  lemma FourTeamsExample()
    ensures Pairs([1, 2, 3, 4]) == [(1, 2), (1, 3), (1, 4), (2, 3), (2, 4), (3, 4)]
  {
    var ids := [1, 2, 3, 4];
    assert RowPairs(ids, 0) == [(1, 2), (1, 3), (1, 4)];
    assert RowPairs(ids, 1) == [(2, 3), (2, 4)];
    assert RowPairs(ids, 2) == [(3, 4)];
    assert RowPairs(ids, 3) == [];
  }

  // ------------------------------------------------------------ renumbering and scope

  /** Match ids after `rr["match_id"] = range(start_id, start_id + len(rr))`
      are `start_id … start_id + len − 1` in order, each once. */
  lemma NumberedIds(ms: seq<Match>, start: int)
    ensures forall k :: 0 <= k < |ms| ==> Numbered(ms, start)[k].matchId.Some?
    ensures |ms| > 0 ==> Numbered(ms, start)[0].matchId == Some(start)
    ensures forall k :: 0 < k < |ms| ==>
              Numbered(ms, start)[k].matchId.value == Numbered(ms, start)[k - 1].matchId.value + 1
    ensures forall k :: 0 <= k < |ms| ==> start <= Numbered(ms, start)[k].matchId.value < start + |ms|
    ensures forall p, q :: 0 <= p < q < |ms| ==> Numbered(ms, start)[p].matchId != Numbered(ms, start)[q].matchId
  {
  }

  /** Renumbering forgets the ids the generator gave: only the start counts. */
  lemma RenumberOverrides(ms: seq<Match>, first: int, start: int)
    ensures Numbered(Numbered(ms, first), start) == Numbered(ms, start)
  {
  }

  /** `rr["tournament_id"] = tid`: every generated match joins the active scope. */
  function Stamp(ms: seq<Match>, tid: Option<int>): (r: seq<Match>)
    ensures |r| == |ms|
  {
    seq(|ms|, k requires 0 <= k < |ms| => ms[k].(tournamentId := tid))
  }

  /** `fillna(-1)` on a tournament id, the key both write modes compare. */
  function ScopeKey(tid: Option<int>): int {
    tid.GetOr(-1)
  }

  predicate InScope(m: Match, tid: Option<int>) {
    ScopeKey(m.tournamentId) == ScopeKey(tid)
  }

  /** The rows of `ms` outside the scope of `tid`, in order. */
  function OutOfScope(ms: seq<Match>, tid: Option<int>): seq<Match> {
    if ms == [] then []
    else
      OutOfScope(ms[..|ms| - 1], tid) +
        (if InScope(ms[|ms| - 1], tid) then [] else [ms[|ms| - 1]])
  }

  /** The rows of `ms` inside the scope of `tid`, in order. */
  function Scoped(ms: seq<Match>, tid: Option<int>): seq<Match> {
    if ms == [] then []
    else
      Scoped(ms[..|ms| - 1], tid) +
        (if InScope(ms[|ms| - 1], tid) then [ms[|ms| - 1]] else [])
  }

  lemma {:induction false} SplitScope(ms: seq<Match>, tid: Option<int>)
    ensures forall m :: m in OutOfScope(ms, tid) <==> m in ms && !InScope(m, tid)
    ensures forall m :: m in Scoped(ms, tid) <==> m in ms && InScope(m, tid)
    ensures |OutOfScope(ms, tid)| + |Scoped(ms, tid)| == |ms|
  {
    if ms != [] {
      var init := ms[..|ms| - 1];
      SplitScope(init, tid);
      assert ms == init + [ms[|ms| - 1]];
    }
  }

  lemma {:induction false} OutOfScopeAppend(a: seq<Match>, b: seq<Match>, tid: Option<int>)
    ensures OutOfScope(a + b, tid) == OutOfScope(a, tid) + OutOfScope(b, tid)
  {
    if b == [] {
      assert a + b == a;
    } else {
      var init := b[..|b| - 1];
      OutOfScopeAppend(a, init, tid);
      assert (a + b)[..|a + b| - 1] == a + init;
      assert (a + b)[|a + b| - 1] == b[|b| - 1];
    }
  }

  lemma {:induction false} ScopedAppend(a: seq<Match>, b: seq<Match>, tid: Option<int>)
    ensures Scoped(a + b, tid) == Scoped(a, tid) + Scoped(b, tid)
  {
    if b == [] {
      assert a + b == a;
    } else {
      var init := b[..|b| - 1];
      ScopedAppend(a, init, tid);
      assert (a + b)[..|a + b| - 1] == a + init;
      assert (a + b)[|a + b| - 1] == b[|b| - 1];
    }
  }

  lemma {:induction false} AllInScope(ms: seq<Match>, tid: Option<int>)
    requires forall k :: 0 <= k < |ms| ==> InScope(ms[k], tid)
    ensures OutOfScope(ms, tid) == [] && Scoped(ms, tid) == ms
  {
    if ms != [] {
      AllInScope(ms[..|ms| - 1], tid);
    }
  }

  lemma {:induction false} NoneInScope(ms: seq<Match>, tid: Option<int>)
    requires forall k :: 0 <= k < |ms| ==> !InScope(ms[k], tid)
    ensures OutOfScope(ms, tid) == ms && Scoped(ms, tid) == []
  {
    if ms != [] {
      NoneInScope(ms[..|ms| - 1], tid);
    }
  }

  datatype WriteMode = ReplaceAll | Append

  /** The match table after writing the generated `rr` for the scope `tid`:
      "Replace all" keeps only the rows of other scopes, "Append" keeps every row. */
  function Merge(cur: seq<Match>, rr: seq<Match>, tid: Option<int>, mode: WriteMode): seq<Match> {
    match mode
    case ReplaceAll => OutOfScope(cur, tid) + rr
    case Append => cur + rr
  }

  /** After either mode the other scopes' rows are untouched, and the active
      scope holds the generated rows, alone after "Replace all" and after its
      previous rows after "Append". */
  lemma MergeScopes(cur: seq<Match>, rr: seq<Match>, tid: Option<int>, mode: WriteMode)
    requires forall k :: 0 <= k < |rr| ==> InScope(rr[k], tid)
    ensures OutOfScope(Merge(cur, rr, tid, mode), tid) == OutOfScope(cur, tid)
    ensures Scoped(Merge(cur, rr, tid, mode), tid) ==
            (if mode == ReplaceAll then rr else Scoped(cur, tid) + rr)
  {
    AllInScope(rr, tid);
    match mode
    case ReplaceAll =>
      OutOfScopeAppend(OutOfScope(cur, tid), rr, tid);
      ScopedAppend(OutOfScope(cur, tid), rr, tid);
      OutOfScopeIdempotent(cur, tid);
    case Append =>
      OutOfScopeAppend(cur, rr, tid);
      ScopedAppend(cur, rr, tid);
  }

  lemma {:induction false} OutOfScopeIdempotent(ms: seq<Match>, tid: Option<int>)
    ensures OutOfScope(OutOfScope(ms, tid), tid) == OutOfScope(ms, tid)
    ensures Scoped(OutOfScope(ms, tid), tid) == []
  {
    var out := OutOfScope(ms, tid);
    SplitScope(ms, tid);
    forall k | 0 <= k < |out|
      ensures !InScope(out[k], tid)
    {
      assert out[k] in out;
    }
    NoneInScope(out, tid);
  }

  /** Replacing twice with the same fixtures is the same as replacing once. */
  lemma ReplaceIdempotent(cur: seq<Match>, rr: seq<Match>, tid: Option<int>)
    requires forall k :: 0 <= k < |rr| ==> InScope(rr[k], tid)
    ensures Merge(Merge(cur, rr, tid, ReplaceAll), rr, tid, ReplaceAll) == Merge(cur, rr, tid, ReplaceAll)
  {
    MergeScopes(cur, rr, tid, ReplaceAll);
  }

  /** The "Generate Matches" action: fixtures of the chosen groups (all groups
      when none is chosen), numbered from `start`, stamped with the active
      tournament and written in the chosen mode. */
  function GenerateAndWrite(cur: seq<Match>, teams: seq<Team>, chosen: seq<string>, start: int,
                            tid: Option<int>, mode: WriteMode): seq<Match> {
    var picked := if chosen == [] then teams else ChosenGroups(teams, chosen);
    Merge(cur, Stamp(Numbered(Numbered(RoundRobin(picked), 1), start), tid), tid, mode)
  }

  /** `df[df["group"].isin(gen_groups)]`. */
  function ChosenGroups(teams: seq<Team>, chosen: seq<string>): seq<Team> {
    if teams == [] then []
    else
      var t := teams[|teams| - 1];
      ChosenGroups(teams[..|teams| - 1], chosen) +
        (if t.group.Some? && t.group.value in chosen then [t] else [])
  }

  lemma {:induction false} ChosenGroupsSpec(teams: seq<Team>, chosen: seq<string>)
    ensures forall t :: t in ChosenGroups(teams, chosen) <==>
              t in teams && t.group.Some? && t.group.value in chosen
  {
    if teams != [] {
      ChosenGroupsSpec(teams[..|teams| - 1], chosen);
      assert teams == teams[..|teams| - 1] + [teams[|teams| - 1]];
    }
  }

  /** After "Generate Matches" the active scope holds the new fixtures (alone
      after "Replace all"), numbered `start …`, one per pair of teams in each
      chosen group, and every other scope is untouched. */
  lemma GenerateAndWriteSpec(cur: seq<Match>, teams: seq<Team>, chosen: seq<string>, start: int,
                             tid: Option<int>, mode: WriteMode)
    ensures OutOfScope(GenerateAndWrite(cur, teams, chosen, start, tid, mode), tid) == OutOfScope(cur, tid)
    ensures var picked := if chosen == [] then teams else ChosenGroups(teams, chosen);
            var rr := Stamp(Numbered(RoundRobin(picked), start), tid);
            Scoped(GenerateAndWrite(cur, teams, chosen, start, tid, mode), tid) ==
              (if mode == ReplaceAll then rr else Scoped(cur, tid) + rr)
  {
    var picked := if chosen == [] then teams else ChosenGroups(teams, chosen);
    RenumberOverrides(RoundRobin(picked), 1, start);
    var rr := Stamp(Numbered(RoundRobin(picked), start), tid);
    MergeScopes(cur, rr, tid, mode);
  }

  // ------------------------------------------------------------ manual match maker

  /** `parse_team`: the integer before the first separator of `str(opt)`; an
      empty selector stringifies to "None", which, like any other text that
      is not an integer, gives None. */
  function ParseTeam(opt: Option<string>): Option<int> {
    var text := if opt.Some? then opt.value else "None";
    ParseInt(FirstField(text, LabelSep))
  }

  /** Every option the selector offers parses back to its team id. */
  lemma ParseTeamOption(id: int, name: string)
    ensures ParseTeam(Some(OptionLabel(id, name))) == Some(id)
  {
    LabelId(id, name);
  }

  /** An empty selector gives no team. */
  lemma ParseTeamEmpty()
    ensures ParseTeam(None) == None
  {
    var text := "None";
    assert text[0] == 'N' && text[|text| - 1] == 'e';
    FirstFieldWhole(text, LabelSep);
    ParseIntRejects(text);
  }

  /** `pd.to_numeric(match_id).max()`: the largest present match id, None
      when no id is present. */
  function MaxId(ms: seq<Match>): Option<int> {
    if ms == [] then None
    else
      var prev := MaxId(ms[..|ms| - 1]);
      var id := ms[|ms| - 1].matchId;
      if id.None? then prev
      else if prev.None? || prev.value < id.value then id
      else prev
  }

  lemma {:induction false} MaxIdSpec(ms: seq<Match>)
    ensures MaxId(ms).None? <==> forall k :: 0 <= k < |ms| ==> ms[k].matchId.None?
    ensures MaxId(ms).Some? ==> exists k :: 0 <= k < |ms| && ms[k].matchId == MaxId(ms)
    ensures forall k :: 0 <= k < |ms| && ms[k].matchId.Some? ==> ms[k].matchId.value <= MaxId(ms).value
  {
    if ms != [] {
      var init := ms[..|ms| - 1];
      MaxIdSpec(init);
      if MaxId(ms) == MaxId(init) && MaxId(init).Some? {
        var k :| 0 <= k < |init| && init[k].matchId == MaxId(init);
        assert ms[k] == init[k];
      }
      forall k | 0 <= k < |ms| && ms[k].matchId.Some?
        ensures ms[k].matchId.value <= MaxId(ms).value
      {
        if k < |init| {
          assert ms[k] == init[k];
        }
      }
    }
  }

  /** The automatic id: one past the largest id in scope, or 1 when the scope
      is empty or none of its ids is numeric (`int(nan)` raises and the
      handler falls back to 1). */
  function NextAutoId(scoped: seq<Match>): int {
    if scoped == [] then 1
    else
      match MaxId(scoped)
      case None => 1
      case Some(v) => v + 1
  }

  /** The automatic id is above every id in scope, and is either 1 or one
      more than an id in scope. */
  lemma NextAutoIdFresh(scoped: seq<Match>)
    ensures forall k :: 0 <= k < |scoped| && scoped[k].matchId.Some? ==>
              scoped[k].matchId.value < NextAutoId(scoped)
    ensures NextAutoId(scoped) == 1 || exists k :: 0 <= k < |scoped| && scoped[k].matchId == Some(NextAutoId(scoped) - 1)
  {
    MaxIdSpec(scoped);
  }

  /** A positive custom id wins; otherwise the automatic one. */
  function ChooseId(custom: nat, scoped: seq<Match>): int {
    if custom > 0 then custom else NextAutoId(scoped)
  }

  datatype ManualError = NoGroup | MissingTeam | SameTeam | FillRaised

  /** The checks of "Add Match", in the order the handler makes them. */
  function CheckSelection(group: Option<string>, t1: Option<int>, t2: Option<int>): (r: Option<ManualError>)
    ensures r == None <==> group.Some? && group.value != "" && t1.Some? && t2.Some? && t1 != t2
    ensures r == Some(NoGroup) <==> group.None? || group.value == ""
    ensures r == Some(MissingTeam) <==> group.Some? && group.value != "" && (t1.None? || t2.None?)
    ensures r == Some(SameTeam) <==> group.Some? && group.value != "" && t1.Some? && t2.Some? && t1 == t2
  {
    if group.None? || group.value == "" then Some(NoGroup)
    else if t1.None? || t2.None? then Some(MissingTeam)
    else if t1 == t2 then Some(SameTeam)
    else None
  }

  function ManualRow(id: int, group: string, t1: int, t2: int, status: string, tid: Option<int>): Match {
    Match(Some(id), Some(group), Some(t1), Some(t2), Some(status),
          None, None, None, None, None, None, tid)
  }

  /** `fillna({"tournament_id": v})` on one row. */
  function Fill(m: Match, v: int): Match {
    if m.tournamentId.None? then m.(tournamentId := Some(v)) else m
  }

  function FillAll(ms: seq<Match>, v: int): (r: seq<Match>)
    ensures |r| == |ms|
  {
    seq(|ms|, k requires 0 <= k < |ms| => Fill(ms[k], v))
  }

  /** The rows "Add Match" writes before any fill: other scopes, the scope,
      then the new row. */
  function ManualLayout(cur: seq<Match>, tid: Option<int>, row: Match): seq<Match> {
    OutOfScope(cur, tid) + Scoped(cur, tid) + [row]
  }

  /** "Add Match" as the handler is written: with no active tournament the
      final `fillna` is handed None as the fill value, which pandas rejects,
      and the write does not happen. */
  function AddManualMatchAsWritten(cur: seq<Match>, tid: Option<int>, group: Option<string>,
                                   opt1: Option<string>, opt2: Option<string>,
                                   status: string, custom: nat): Result<seq<Match>, ManualError>
  {
    var t1, t2 := ParseTeam(opt1), ParseTeam(opt2);
    match CheckSelection(group, t1, t2)
    case Some(e) => Err(e)
    case None =>
      if tid.None? then Err(FillRaised)
      else
        var row := ManualRow(ChooseId(custom, Scoped(cur, tid)), group.value, t1.value, t2.value, status, tid);
        Ok(FillAll(ManualLayout(cur, tid, row), tid.value))
  }

  /** "Add Match" with the fill applied only when there is a tournament to
      fill with. */
  function AddManualMatch(cur: seq<Match>, tid: Option<int>, group: Option<string>,
                          opt1: Option<string>, opt2: Option<string>,
                          status: string, custom: nat): Result<seq<Match>, ManualError>
  {
    var t1, t2 := ParseTeam(opt1), ParseTeam(opt2);
    match CheckSelection(group, t1, t2)
    case Some(e) => Err(e)
    case None =>
      var row := ManualRow(ChooseId(custom, Scoped(cur, tid)), group.value, t1.value, t2.value, status, tid);
      var layout := ManualLayout(cur, tid, row);
      Ok(if tid.Some? then FillAll(layout, tid.value) else layout)
  }

  lemma {:induction false} SplitPermutes(ms: seq<Match>, tid: Option<int>)
    ensures multiset(OutOfScope(ms, tid) + Scoped(ms, tid)) == multiset(ms)
  {
    if ms != [] {
      var init := ms[..|ms| - 1];
      SplitPermutes(init, tid);
      assert ms == init + [ms[|ms| - 1]];
    }
  }

  lemma FillAllAppend(a: seq<Match>, b: seq<Match>, v: int)
    ensures FillAll(a + b, v) == FillAll(a, v) + FillAll(b, v)
  {
  }

  lemma MultisetSplice<T>(p: seq<T>, x: T, q: seq<T>)
    ensures multiset(p + [x] + q) == multiset(p + q) + multiset{x}
  {
  }

  lemma MultisetCancel<T>(m1: multiset<T>, m2: multiset<T>, x: T)
    requires m1 + multiset{x} == m2 + multiset{x}
    ensures m1 == m2
  {
    forall y
      ensures m1[y] == m2[y]
    {
      assert (m1 + multiset{x})[y] == (m2 + multiset{x})[y];
    }
  }

  /** Filling commutes with taking out one row. */
  lemma FillAllSplice(p: seq<Match>, x: Match, q: seq<Match>, v: int)
    ensures multiset(FillAll(p + [x] + q, v)) == multiset(FillAll(p + q, v)) + multiset{Fill(x, v)}
  {
    FillAllAppend(p + [x], q, v);
    FillAllAppend(p, [x], v);
    FillAllAppend(p, q, v);
    assert FillAll([x], v) == [Fill(x, v)];
    MultisetSplice(FillAll(p, v), Fill(x, v), FillAll(q, v));
  }

  lemma {:induction false} FillPermutes(a: seq<Match>, b: seq<Match>, v: int)
    requires multiset(a) == multiset(b)
    ensures multiset(FillAll(a, v)) == multiset(FillAll(b, v))
    decreases |a|
  {
    if a != [] {
      var x := a[|a| - 1];
      var a' := a[..|a| - 1];
      assert a == a' + [x] + [];
      assert x in multiset(b);
      var k :| 0 <= k < |b| && b[k] == x;
      var b' := b[..k] + b[k + 1..];
      assert b == b[..k] + [x] + b[k + 1..];
      MultisetSplice(a', x, []);
      MultisetSplice(b[..k], x, b[k + 1..]);
      assert a' + [] == a';
      MultisetCancel(multiset(a'), multiset(b'), x);
      FillPermutes(a', b', v);
      FillAllSplice(a', x, [], v);
      FillAllSplice(b[..k], x, b[k + 1..], v);
    }
  }

  /** The written rows are the old rows, regrouped by scope, then the new row. */
  lemma ManualLayoutKeeps(cur: seq<Match>, tid: Option<int>, row: Match)
    ensures |ManualLayout(cur, tid, row)| == |cur| + 1
    ensures ManualLayout(cur, tid, row)[|cur|] == row
    ensures multiset(ManualLayout(cur, tid, row)[..|cur|]) == multiset(cur)
    ensures forall v :: multiset(FillAll(ManualLayout(cur, tid, row), v)[..|cur|]) == multiset(FillAll(cur, v))
  {
    var kept := OutOfScope(cur, tid) + Scoped(cur, tid);
    SplitPermutes(cur, tid);
    SplitScope(cur, tid);
    assert ManualLayout(cur, tid, row)[..|cur|] == kept;
    forall v
      ensures multiset(FillAll(ManualLayout(cur, tid, row), v)[..|cur|]) == multiset(FillAll(cur, v))
    {
      assert FillAll(ManualLayout(cur, tid, row), v)[..|cur|] == FillAll(kept, v);
      FillPermutes(kept, cur, v);
    }
  }

  /** Every id in scope is below the automatic id. */
  lemma ScopeBelowAutoId(cur: seq<Match>, tid: Option<int>)
    ensures forall k :: 0 <= k < |cur| && InScope(cur[k], tid) && cur[k].matchId.Some? ==>
              cur[k].matchId.value < NextAutoId(Scoped(cur, tid))
  {
    var scoped := Scoped(cur, tid);
    NextAutoIdFresh(scoped);
    SplitScope(cur, tid);
    forall k | 0 <= k < |cur| && InScope(cur[k], tid) && cur[k].matchId.Some?
      ensures cur[k].matchId.value < NextAutoId(scoped)
    {
      assert cur[k] in scoped;
      var j :| 0 <= j < |scoped| && scoped[j] == cur[k];
    }
  }

  /** "Add Match" refuses exactly the selections `CheckSelection` rejects;
      otherwise it appends one row, scheduled or as chosen, unscored, in the
      active scope, under the custom id when positive and otherwise under an
      id above every id in scope, and keeps every existing row, with legacy
      rows adopted into the active tournament when there is one. */
  lemma AddManualMatchSpec(cur: seq<Match>, tid: Option<int>, group: Option<string>,
                           opt1: Option<string>, opt2: Option<string>, status: string, custom: nat)
    ensures var check := CheckSelection(group, ParseTeam(opt1), ParseTeam(opt2));
            AddManualMatch(cur, tid, group, opt1, opt2, status, custom).Err? <==> check.Some?
    ensures var r := AddManualMatch(cur, tid, group, opt1, opt2, status, custom);
            r.Ok? ==>
              |r.value| == |cur| + 1 &&
              var row := r.value[|cur|];
              row.group == group && row.team1Id == ParseTeam(opt1) && row.team2Id == ParseTeam(opt2) &&
              row.team1Id != row.team2Id && row.status == Some(status) &&
              row.tournamentId == tid && InScope(row, tid) &&
              (forall s :: s in Sets(row) ==> s == SetScore(None, None)) &&
              (custom > 0 ==> row.matchId == Some(custom)) &&
              (custom == 0 ==> forall k :: 0 <= k < |cur| && InScope(cur[k], tid) && cur[k].matchId.Some? ==>
                                 cur[k].matchId.value < row.matchId.value) &&
              multiset(r.value[..|cur|]) == multiset(if tid.Some? then FillAll(cur, tid.value) else cur)
  {
    var r := AddManualMatch(cur, tid, group, opt1, opt2, status, custom);
    if r.Ok? {
      var t1, t2 := ParseTeam(opt1), ParseTeam(opt2);
      assert CheckSelection(group, t1, t2).None?;
      var row := ManualRow(ChooseId(custom, Scoped(cur, tid)), group.value, t1.value, t2.value, status, tid);
      ManualAppended(cur, tid, row);
      ScopeBelowAutoId(cur, tid);
      assert r.value == (if tid.Some? then FillAll(ManualLayout(cur, tid, row), tid.value) else ManualLayout(cur, tid, row));
    }
  }

  /** The stored table is the kept rows, filled when there is a tournament,
      followed by the new row, which the fill leaves alone. */
  lemma ManualAppended(cur: seq<Match>, tid: Option<int>, row: Match)
    requires row.tournamentId == tid
    ensures var layout := ManualLayout(cur, tid, row);
            var out := if tid.Some? then FillAll(layout, tid.value) else layout;
            |out| == |cur| + 1 && out[|cur|] == row &&
            multiset(out[..|cur|]) == multiset(if tid.Some? then FillAll(cur, tid.value) else cur)
  {
    var layout := ManualLayout(cur, tid, row);
    ManualLayoutKeeps(cur, tid, row);
    if tid.Some? {
      var out := FillAll(layout, tid.value);
      assert out[|cur|] == Fill(row, tid.value) == row;
    }
  }

  /** With no active tournament a valid selection is lost as written, and is
      stored, unscoped, once the fill is skipped. */
  lemma ManualMatchWithoutTournament()
    ensures AddManualMatchAsWritten([], None, Some("A"), Some(OptionLabel(1, "X")), Some(OptionLabel(2, "Y")),
                                    Scheduled, 0) == Err(FillRaised)
    ensures AddManualMatch([], None, Some("A"), Some(OptionLabel(1, "X")), Some(OptionLabel(2, "Y")),
                           Scheduled, 0) == Ok([ManualRow(1, "A", 1, 2, Scheduled, None)])
  {
    ParseTeamOption(1, "X");
    ParseTeamOption(2, "Y");
    var none: seq<Match> := [];
    assert Scoped(none, None) == [] && OutOfScope(none, None) == [];
    assert ChooseId(0, Scoped(none, None)) == 1;
    assert CheckSelection(Some("A"), Some(1), Some(2)) == None;
    var row := ManualRow(1, "A", 1, 2, Scheduled, None);
    assert ManualLayout(none, None, row) == [row];
  }

  /** With an active tournament the two agree. */
  lemma ManualMatchWithTournament(cur: seq<Match>, tid: Option<int>, group: Option<string>,
                                  opt1: Option<string>, opt2: Option<string>, status: string, custom: nat)
    requires tid.Some?
    ensures AddManualMatchAsWritten(cur, tid, group, opt1, opt2, status, custom) ==
            AddManualMatch(cur, tid, group, opt1, opt2, status, custom)
  {
  }
}
