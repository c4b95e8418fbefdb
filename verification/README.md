# padelapp, modelled in Dafny

padelapp runs padel tournaments. Organizers register teams in groups and
generate round-robin fixtures, either for every group or for the groups they
pick. They can also add single matches by hand, enter set scores, and move
teams and matches in and out through a two-sheet spreadsheet. One
tournament at a time is *active*. Its id is kept as text under the
`active_tournament_id` settings key, and the pages scope their teams and
matches to it. The overview page lists the played matches and shows a
winner board ranked by points. The home page lists upcoming and held
tournaments as cards; an upcoming card links to `?tid=<id>`, which makes
that tournament active.

This project models the parts of the system that decide anything:

- the standings evaluator (`services/standings.py`);
- from the organizer page:
  - the round-robin generator and match renumbering;
  - the replace/append write;
  - the manual match form;
  - the team form;
  - the active-tournament getter, setter and selector;
- from the overview page:
  - the played filter;
  - the per-match summary;
  - team labels;
  - the leaderboard;
  - column headers;
- the spreadsheet validation, load normalisation and export layout;
- the home page's upcoming/held selection, card links and deep link.

Modules, one per file:

| file | module | what it holds |
|---|---|---|
| `wrappers.dfy` | `Wrappers` | `Option`, `Result` |
| `pyint.dfy` | `PyInt` | Python's `int(str)` and `str(int)`, `split(sep)[0]`, the `"<id> — <name>"` option labels |
| `ordering.dfy` | `Ordering` | total preorders, a stable sort (pandas' multi-key `sort_values`), `head(n)`, lexicographic keys |
| `records.dfy` | `Records` | the `Team` and `Match` rows, with missing values as `None` |
| `standings.dfy` | `Standings` | `compute_match_result` and `compute_standings`, as methods over an array proved against functions |
| `standings_facts.dfy` | `StandingsFacts` | the evaluator's guarantees: mirrored bookkeeping, three points per win, balance, order independence |
| `scheduler.dfy` | `Scheduler` | round robin, renumbering, replace/append, the manual match |
| `roster.dfy` | `Roster` | the "Add Team" checks and write |
| `settings.dfy` | `Settings` | the active tournament in the settings store, and the selector |
| `overview.dfy` | `Overview` | played matches, summary rows, labels, leaderboard, headers |
| `spreadsheet.dfy` | `Spreadsheet` | `validate_excel`, `load_excel`, the export reindex |
| `tournaments.dfy` | `Tournaments` | upcoming/held lists, card links, the `?tid=` deep link |

The settings table is a `map<string, string>`. A spreadsheet is a map from
sheet name to a `Frame`, which holds a row count and a map from column name
to that column's cells. Dates are integer day numbers, and today's date is
a parameter.

## Model

| member | source | states |
|---|---|---|
| Standings.ComputeMatchResult | services/standings.py:3-17 | The loop's two counters are the sets each side won, a set counting only when both scores are present and unequal; together they never exceed the fully scored sets, at most 3 |
| Standings.SetsWonBound | services/standings.py:6-17 | Sets won by both sides together are at most the fully scored sets, which are at most the sets |
| Standings.NoWinnerNoSets | services/standings.py:11-16 | When no set has a winner (missing scores or ties), neither side has won a set |
| Standings.GameTotals | services/standings.py:39-47 | The games each side took over every fully scored set, tied sets included, partial sets skipped |
| Standings.AddMatch | services/standings.py:48-65 | The eighteen in-place `+=` updates of one counted match leave the array equal to the specification's one-match step applied to the old contents |
| Standings.ApplyMatch | services/standings.py:31-65 | One match changes no row's team, name or group, and keeps the row count |
| Standings.Fold | services/standings.py:31-65 | Processing the match list changes no row's team, name or group, and keeps the row count |
| Standings.StandingOrderIsTotalPreorder | services/standings.py:70-72 | Group ascending (missing last), then points, wins, sets_diff, games_diff descending, is a total preorder |
| Standings.ComputeStandings | services/standings.py:20-73 | The returned table is the specification table; it is sorted by that order and is a permutation of the per-team rows with diffs filled in |
| StandingsFacts.NoResultChangesNothing | services/standings.py:32-38 | A match with a missing team id, or in which no set has a winner (even with games entered), changes no row |
| StandingsFacts.CountedMatchRow | services/standings.py:48-49 | A counted match adds one to `played` for each of its team ids a row carries, and leaves every other row unchanged |
| StandingsFacts.DeltasMirror | services/standings.py:50-65 | Team 1's sets and games won are team 2's sets and games lost and vice versa; one side's win is the other's loss |
| StandingsFacts.WinnerTakesThree | services/standings.py:58-65 | More sets gives the winner one win and three points and the loser one loss; equal sets change no win, loss or point |
| StandingsFacts.ApplyMatchKeepsValid | services/standings.py:48-65 | One match keeps every row's points at three times its wins and its wins plus losses at most its played |
| StandingsFacts.FoldKeepsValid | services/standings.py:31-65 | The whole match list keeps those row invariants |
| StandingsFacts.StandingsRows | services/standings.py:20-73 | The table has one row per team; every row has points = 3·wins, wins + losses ≤ played, and both diffs consistent with its counts |
| StandingsFacts.StandingsSorted | services/standings.py:70-72 | The table is sorted by group, then points, wins, sets_diff and games_diff descending, and is a permutation of the computed rows |
| StandingsFacts.UnreferencedRowUnchanged | services/standings.py:31-65 | A team named by no match keeps its zeroed statistics |
| StandingsFacts.ApplyMatchTotals | services/standings.py:48-65 | Summed over the table, a counted match adds team 1's increments once per row carrying team 1's id and team 2's once per row carrying team 2's |
| StandingsFacts.TableBalanced | services/standings.py:50-65 | With unique team ids and every counted match naming listed teams, total sets won equal total sets lost, games won equal games lost, wins equal losses |
| StandingsFacts.ApplyMatchCommutes | services/standings.py:31-65 | Two matches applied in either order give the same table |
| StandingsFacts.FoldOrderIndependent | services/standings.py:31-65 | Any reordering of the match list gives the same statistics |
| Scheduler.SeenGroupsSpec | pages/2_Organizer.py:623 | The groups met while scanning the teams are distinct and are exactly the groups present |
| Scheduler.GroupsSpec | pages/2_Organizer.py:623 | `groupby("group")` visits the present groups in strictly ascending order, each once, missing groups dropped |
| Scheduler.GroupIdsMembers | pages/2_Organizer.py:624 | Every id of a group's list is the id of a team in that group |
| Scheduler.PairsCount | pages/2_Organizer.py:625-627 | n ids give n·(n−1)/2 pairs; 0 or 1 ids give none |
| Scheduler.PairAt | pages/2_Organizer.py:626-632 | The pair of positions i < j is (ids[i], ids[j]), at its place in outer-i, inner-j order |
| Scheduler.PairOrigin | pages/2_Organizer.py:626-632 | Every generated pair is (ids[i], ids[j]) for some i < j |
| Scheduler.PairsUnique | pages/2_Organizer.py:626-632 | With distinct ids no unordered pair of teams appears twice |
| Scheduler.GenerateRoundRobin | pages/2_Organizer.py:620-642 | The nested loops with the `next_id` counter produce the group-by-group fixtures numbered 1, 2, … |
| Scheduler.EmitGroup | pages/2_Organizer.py:626-638 | One group's `i < j` loops append that group's fixtures, in loop order, numbered on from the counter, and leave the counter one past the last id |
| Scheduler.GroupFixturesCount | pages/2_Organizer.py:624-637 | A group with n team ids contributes n·(n−1)/2 fixtures |
| Scheduler.GroupFixtureShape | pages/2_Organizer.py:628-636 | Each fixture of a group is scheduled, has no set scores, carries the group, and pairs its i-th and j-th ids, i < j |
| Scheduler.RoundRobinShape | pages/2_Organizer.py:620-642 | Every generated match is scheduled and unscored, and both its teams belong to its group |
| Scheduler.FourTeamsExample | pages/2_Organizer.py:626-632 | Four teams give (1,2), (1,3), (1,4), (2,3), (2,4), (3,4) |
| Scheduler.NumberedIds | pages/2_Organizer.py:668 | After renumbering, ids run start, start+1, … in generation order, all distinct and within [start, start+len) |
| Scheduler.RenumberOverrides | pages/2_Organizer.py:668 | Renumbering discards the ids the generator gave: only the start id matters |
| Scheduler.ChosenGroupsSpec | pages/2_Organizer.py:664-665 | The group filter keeps exactly the teams whose group was chosen |
| Scheduler.SplitScope | pages/2_Organizer.py:676-677 | Every match is in exactly one of "other scopes" and "this scope" (missing tournament read as −1) |
| Scheduler.MergeScopes | pages/2_Organizer.py:676-680 | Either write mode leaves other scopes' matches untouched; the scope then holds the new fixtures alone (replace) or after its old matches (append) |
| Scheduler.ReplaceIdempotent | pages/2_Organizer.py:676-678 | Replacing twice with the same fixtures equals replacing once |
| Scheduler.GenerateAndWriteSpec | pages/2_Organizer.py:663-681 | "Generate Matches" leaves other scopes alone and puts the renumbered, stamped fixtures of the chosen groups into the active scope, replacing or appending |
| Scheduler.ParseTeamOption | pages/2_Organizer.py:722-726 | Every team option `"<id> — <name>"` parses back to its id |
| Scheduler.ParseTeamEmpty | pages/2_Organizer.py:722-726 | An empty team selector parses to no team |
| Scheduler.MaxIdSpec | pages/2_Organizer.py:751 | The maximum id is missing exactly when no match has an id; otherwise it is some match's id and no id exceeds it |
| Scheduler.NextAutoIdFresh | pages/2_Organizer.py:747-754 | The automatic id is above every id in scope, and is 1 or one more than an id in scope |
| Scheduler.ScopeBelowAutoId | pages/2_Organizer.py:746-754 | Every id of the active scope is below the automatic id |
| Scheduler.CheckSelection | pages/2_Organizer.py:731-736 | A selection passes exactly when a group is chosen, both teams parse and differ; otherwise the first failing check is reported |
| Scheduler.ManualLayoutKeeps | pages/2_Organizer.py:768-769 | The written rows are all old rows, regrouped by scope, then the new row, also after the fill |
| Scheduler.AddManualMatchSpec | pages/2_Organizer.py:728-769 | "Add Match" refuses exactly the selections the checks reject; otherwise it appends a scheduled-or-chosen, unscored row in the active scope with the custom id or one above every id in scope, keeping every old row (with missing tournaments filled) |
| Scheduler.ManualMatchWithoutTournament | pages/2_Organizer.py:769 | With no active tournament, the handler as written fails in its final fill; the corrected one adds the row |
| Scheduler.ManualMatchWithTournament | pages/2_Organizer.py:769 | With an active tournament the as-written and the corrected handlers agree |
| Roster.InScopeMembers | pages/2_Organizer.py:489-496 | The Teams tab lists every team when no tournament is active, else exactly the active tournament's teams |
| Roster.HasIdSpec | pages/2_Organizer.py:579 | The duplicate check finds the id exactly when some listed team carries it |
| Roster.CheckNewTeam | pages/2_Organizer.py:577-580 | "Name required" exactly when the name is empty; "ID already exists" exactly when named and the id is taken in scope; otherwise accepted |
| Roster.OtherTournamentsOutOfScope | pages/2_Organizer.py:592 | The teams kept by `tournament_id != active` include none of the active tournament's |
| Roster.AddTeamSpec | pages/2_Organizer.py:577-594 | Adding succeeds exactly when the checks pass; every existing team is kept, the active scope gains the new team at the end, and unique ids stay unique |
| Roster.AddTeamDropsTournamentTeams | pages/2_Organizer.py:589-594 | A tournament with one team, given a second: as written only the new team remains, corrected both do |
| Settings.GetActive | pages/2_Organizer.py:219-224 | A returned id is the `int()` reading of the stored text |
| Settings.GetActiveSpec | pages/2_Organizer.py:219-224 | The getter returns exactly the `int()` reading of the stored text, and none when nothing is stored: the "" and "null" guards change nothing |
| Settings.ShowIsNotReserved | pages/2_Organizer.py:222 | A stored id is never "" or "null" |
| Settings.SetThenGet | pages/2_Organizer.py:219-227 | Setting then getting returns what was set, None included, and no other setting changes |
| Settings.SetFromArgThenGet | pages/1_Active_Tournament.py:33-41 | The overview's setter fails exactly on non-integer text; otherwise it agrees with the organizer's and the getter returns the value meant |
| Settings.SelectorOptions | pages/2_Organizer.py:244-245 | "-- none --" first, then `"<id> — <name>"` per tournament, in order |
| Settings.ParseTidLabel | pages/2_Organizer.py:250-256 | Every tournament label parses back to its id |
| Settings.SelectOption | pages/2_Organizer.py:238-259 | Picking option 0 leaves no active tournament; picking option k+1 makes the k-th tournament active |
| Settings.FirstIndexSpec | pages/2_Organizer.py:247-248 | `1 + ids.index(x)` for a listed id points at its first occurrence; 0 exactly when the id is not listed |
| Settings.SelectDefault | pages/2_Organizer.py:239-259 | On load the selector shows the active tournament when it is listed and nothing is written; an active id that names no listed tournament makes the selector show "-- none --" and the page clears it |
| Overview.PlayedSpec | pages/1_Active_Tournament.py:231-232 | A match is listed exactly when it is completed or has any set score |
| Overview.CountedIsPlayed | pages/1_Active_Tournament.py:231-232 | Every match counted in the standings is listed as played |
| Overview.TeamLabel | pages/1_Active_Tournament.py:233-241 | A label is never empty; it is the team name when that is non-empty, else "player1 vs player2" |
| Overview.LabelOfSpec | pages/1_Active_Tournament.py:242 | The label lookup finds an id exactly when a team carries it, and gives the last such team's label |
| Overview.PlayedSummary | pages/1_Active_Tournament.py:243-268 | The summary loop builds one row per played match, with "?" for a missing team, sets counted as the evaluator counts them and games summed over fully scored sets |
| Overview.TallySets | pages/1_Active_Tournament.py:249-259 | The per-set loop counts each fully scored set for the side with more games (neither on a tie) and sums the games of every fully scored set |
| Overview.SummarySetsBound | pages/1_Active_Tournament.py:247-258 | The two set counts of a summary row add up to at most the fully scored sets, at most 3 |
| Overview.RankOrderIsTotalPreorder | pages/1_Active_Tournament.py:279-281 | Points, wins, sets_diff, games_diff descending, group ignored, is a total preorder |
| Overview.RankBeforeFields | pages/1_Active_Tournament.py:279-281 | A row comes no later than another exactly when it has more points, or equal points and more wins, or equal points and wins and a larger sets_diff, or all three equal and at least its games_diff |
| Overview.RankSortFields | pages/1_Active_Tournament.py:279-281 | The sort lists every standings row once, and any earlier row comes no later on points, then wins, then sets_diff, then games_diff |
| Overview.LeaderboardSpec | pages/1_Active_Tournament.py:278-291 | Board row k shows the k-th row of the rank sort with rank k+1; that sort is a permutation of the standings in rank order; points never rise down the board, nor wins on equal points; rank 1 has at least every team's points |
| Overview.VisibleColumns | pages/1_Active_Tournament.py:273 | A stored non-empty list is shown as stored; nothing or an empty list shows every column |
| Overview.HeadersSpec | pages/1_Active_Tournament.py:274-275 | One header per visible column: its stored label when one is stored, else the column name; with no labels the headers are the column names; a label for a hidden column changes nothing |
| Spreadsheet.Missing | services/import_export.py:32 | The missing columns are exactly the schema's columns absent from the sheet |
| Spreadsheet.MissingAppend | services/import_export.py:32-36 | Missing columns are listed in schema order |
| Spreadsheet.MissingNonEmpty | services/import_export.py:33-36 | The missing list is non-empty exactly when some schema column is absent |
| Spreadsheet.PyList | services/import_export.py:34 | The list is written in brackets, and is "[]" only for the empty list |
| Spreadsheet.ValidateExcel | services/import_export.py:24-38 | Validation passes exactly when both sheets exist and each has every column of its schema |
| Spreadsheet.ValidateOrder | services/import_export.py:26-37 | The reported problem is the first of: no Teams sheet, no Matches sheet, Teams columns missing, Matches columns missing; a column message names exactly the missing columns |
| Spreadsheet.ToNumber | services/import_export.py:50 | A coerced cell is an integer or empty: integers stay, text `int()` reads is read, other text becomes empty |
| Spreadsheet.CoerceColumnIdempotent | services/import_export.py:48-53 | Coercing a coerced column changes nothing |
| Spreadsheet.NormalStatus | services/import_export.py:54-56 | A loaded status is one of the three known ones: a known one is kept, anything else or nothing becomes "Scheduled" |
| Spreadsheet.CoerceNumeric | services/import_export.py:48-53 | The per-column loop replaces each listed column the sheet has by its integer reading and leaves the others and the column order |
| Spreadsheet.CoerceStep | services/import_export.py:48-53 | One pass of that loop reads one more listed column; a repeated column is unchanged by the second reading |
| Spreadsheet.LoadExcel | services/import_export.py:41-57 | Loading fails, with the validation message, exactly when validation fails; otherwise it returns the two normalised sheets |
| Spreadsheet.SchemaFacts | services/import_export.py:4-8 | The integer columns belong to their schemas, and the status column is a Matches column outside them |
| Spreadsheet.LoadedCells | services/import_export.py:48-56 | After a load every status is known, and is the original when that was known; every integer column holds the coerced cells |
| Spreadsheet.CoerceColumnsShape | services/import_export.py:48-53 | Coercion keeps the sheet's columns, their order and its rows, and leaves unlisted columns alone |
| Spreadsheet.DefaultStatusShape | services/import_export.py:54-56 | Status defaulting keeps the sheet's columns, their order and its rows, and touches no other column |
| Spreadsheet.LoadedShape | services/import_export.py:46-57 | Loading keeps both sheets' columns, column order and rows, and leaves the text columns other than status unchanged |
| Spreadsheet.LoadedFixed | services/import_export.py:48-56 | A loaded sheet is left unchanged by a second normalisation |
| Spreadsheet.Reindex | services/import_export.py:63-64 | The exported sheet has exactly the schema's columns and the same rows |
| Spreadsheet.ReindexSpec | services/import_export.py:63-64 | The columns are the schema's, in schema order, each once when the schema names each once; present schema columns are kept, absent ones are blank, others dropped, rectangular shape kept |
| Spreadsheet.ExportValidates | services/import_export.py:60-64 | Every exported workbook passes validation and loads; each sheet is written with its schema's columns, once each, in schema order |
| Spreadsheet.ReimportStable | services/import_export.py:41-64 | Loading the export of loaded sheets gives back exactly the exported sheets |
| Tournaments.UpcomingOrHeld | app.py:177-179 | Every tournament is upcoming or held |
| Tournaments.UpcomingAndHeld | app.py:98-99 | A tournament is in both lists exactly when it has no end and started before today, or ended before today with no start or a start today or later |
| Tournaments.Where | app.py:100 | The boolean-mask filter keeps exactly the tournaments meeting the condition |
| Tournaments.StartBeforeIsTotalPreorder | app.py:101 | Start ascending with missing starts last is a total preorder |
| Tournaments.HeldBeforeIsTotalPreorder | app.py:180 | End then start, both descending with missing last, is a total preorder |
| Tournaments.StartBeforeFields | app.py:101 | In start order, dated tournaments come before undated ones and earlier starts first |
| Tournaments.HeldBeforeFields | app.py:180 | In held order, ended tournaments come before those with no end, later ends first, later starts first on equal ends |
| Tournaments.UpcomingListSpec | app.py:98-101 | At most 6 upcoming tournaments, ordered by start with missing last; any upcoming one left out starts no earlier than every one shown; with 6 or fewer, all are shown |
| Tournaments.HeldListSpec | app.py:177-180 | At most 12 held tournaments, latest end first, then latest start, missing last; any held one left out comes no earlier than every one shown; with 12 or fewer, all are shown |
| Tournaments.CardHref | app.py:133 | A card links to `#` exactly when it has no tournament id |
| Tournaments.DeepLinkSpec | app.py:35-39 | A `tid` that `int()` reads makes that tournament active |
| Tournaments.DeepLinkRejected | app.py:37-39 | A value `int()` rejects leaves the settings unchanged |
| Tournaments.DeepLinkNoValue | app.py:35-37 | An empty list or no parameter leaves the settings unchanged |
| Tournaments.DeepLinkOtherKeys | app.py:39 | The deep link writes no setting but the active tournament |
| Tournaments.DeepLinkFirstValue | app.py:36 | A list-valued parameter acts as its first value |
| Tournaments.CardLinkActivates | app.py:133 | Following an upcoming card's link makes its tournament active; a card with no id changes nothing |

## Left out

- Streamlit widgets and page flow are not modelled. This covers `st.rerun`, `switch_page`, clearing the query parameters and autorefresh. The HTML/CSS of cards and tables is not modelled either, including `render_table` (pages/1_Active_Tournament.py:187-207). All of this is presentation.
- SQL and persistence are not modelled: reading and writing tables, `to_sql` replacing a whole table, and the settings table. The stores are values passed in and returned. Exceptions from the database, which the source swallows, are not modelled.
- Authentication, icon upload, file paths and base64 images are not modelled. They rely on foreign crypto and filesystem calls.
- Spreadsheet bytes are not modelled. Workbooks are reduced to their parsed sheets, so `create_template_excel` and the openpyxl reading and writing are absent.
- Spreadsheet.ToNumber: decimal and exponent text is blanked like any other text that is not an integer. The source behaves differently. `pd.to_numeric` reads "1.0" or "1e3" as a whole number, and `astype("Int64")` keeps it. On "1.5" that cast raises, so the whole import fails. Float cells are not modelled at all: cells are integers, text or empty.
- `int()` on text with `_` separators, non-ASCII digits or non-ASCII whitespace is not modelled. `ParseInt` strips the ASCII characters `int()` strips (the six C whitespace characters and 0x1C-0x1F), then reads a sign and ASCII digits.
- Dates are already-parsed day numbers. `pd.to_datetime(errors="coerce")` is outside the model, and so are times of day.
- `Tournaments.UpcomingListSpec`: the upcoming list is sorted on one key, and pandas' default single-key sort does not keep ties in input order. The model uses a stable sort, so the order among tournaments with equal start dates is the model's own. The lemma states only what holds for any tie order.
- `Standings.AddMatch`: the eighteen `base.loc[...] += ...` statements of one match are applied as one addition per row. Updating a row twice in a row for the same team id (team 1 = team 2) gives the same sums.
- The team roster section of the overview page (pages/1_Active_Tournament.py:300-321) is not modelled. Neither are the organizer's delete-team, save-scores and save-teams paths. These paths are outside the modelled core.
- JSON settings that are not a list or not a dict are not modelled. `VisibleColumns` and `Headers` take the decoded value, or none.
- A match table whose `tournament_id` column is absent is not modelled. There, `cur.get("tournament_id")` is None and `.fillna` would fail.
- Concurrent organizer writes are not modelled.

## Findings

| source | as written | input that shows it | evidently intended | confidence | as-written member | corrected member |
|---|---|---|---|---|---|---|
| pages/2_Organizer.py:589-594 | With a tournament active, "Add Team" writes back the teams of *other* tournaments plus the new team. Every team already in the active tournament is deleted. | Tournament 7 holds team 1; add team 2 to it | The new team is added to all existing teams | high, not executed | Roster.AddTeamAsWritten (shown by Roster.AddTeamDropsTournamentTeams) | Roster.AddTeam (proved by Roster.AddTeamSpec) |
| pages/2_Organizer.py:769 | With no tournament active, "Add Match" calls `fillna({"tournament_id": None})`. pandas rejects a None fill value, so the match is never written. | No active tournament; group "A", teams 1 and 2 | The row is written, and the fill applies only when a tournament is active | medium, not executed | Scheduler.AddManualMatchAsWritten (shown by Scheduler.ManualMatchWithoutTournament) | Scheduler.AddManualMatch (proved by Scheduler.AddManualMatchSpec) |
