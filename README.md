# tournament-manager data layer, in Dafny

This project models the in-browser data layer of tournament-manager, which is
`src/utils/db.js` over `src/utils/storage.js`. The layer keeps users, teams
(with their players), tournament applications and divisions (brackets), each
as one list in localStorage. Every exported function reads a list, finds a
record by id, replaces it and writes the list back; a few are filters.
On top of this sits the logic that matters most:

- round-robin fixture generation for a division;
- the standings calculator that turns a division's scored matches into a
  sorted table.

Modules, in dependency order:

- `Wrappers`: `Option`, the model of JavaScript's `null`.
- `Ids`: the id generator, replaced by a counter. `MintId(k)` is `"id_"`
  followed by the decimal digits of `k`; it is injective.
- `Seqs`: the array operations the store uses (`findIndex`, `filter`, the
  `filter` that drops one value) and "no repeats".
- `Applications`, `Teams`, `Divisions`: the records and the effect of each
  mutator on the one record it touches.
- `Fixtures`: the fixture list `generateRoundRobin` builds, specified by the
  pairs of positions `a < b` in loop order, with its counting, ordering and
  no-self-pair laws.
- `Standings`: `computeStandings` as a fold over the matches plus a sort,
  the imperative calculator proved equal to it, and the laws of the table:
  - per-row arithmetic;
  - goals for equal goals against in total;
  - the table is a permutation of the roster;
  - it is sorted, and independent of roster order.
- `Db`: class `Store`, one field per modelled storage key (`tm_users`,
  `tm_teams`, `tm_applications`, `tm_brackets`). The store's methods are the
  exported mutators of those collections; its functions are their exported
  queries. `Valid()` is the
  invariant all of them keep:
  - ids are distinct within each collection, and users are keyed by email;
  - a division never lists a team twice or repeats a match id;
  - every team, player, application and division id was handed out by the
    counter, so the next id is fresh.

Each mutator's `ensures` gives the whole new state: every field it may
modify, the ghost set of issued ids included (it grows by exactly the ids the
call draws). An unknown id leaves the collection unchanged; the methods that
return a record then give `None`, and `RenameTeam`, `RemovePlayerFromTeam` and
`SetPlayerCard` return nothing, as in the code. A known id replaces the record
at the first matching position by the record-level function of its module,
and nothing else changes.

Where the documented behaviour and the code differ, the model follows the code:

- The default division name is written in db.js with the three characters
  U+00E2 U+20AC U+00A2 where a bullet was meant; `Divisions.DefaultName`
  keeps them.
- `setMatchDetails` uses `??`, so a `null` kickoff keeps the old time
  (`Divisions.NullKickoffKeepsTime`). The schedule editor's attempt to clear
  a kickoff therefore has no effect.

## Model

| member | source | states |
|---|---|---|
| Ids.MintIdInjective | src/utils/db.js:13-17 | different counter values give different ids, so a counter is a sound stand-in for the random generator |
| Ids.Decimal | src/utils/db.js:13-17 | the id suffix is a non-empty string of decimal digits |
| Seqs.FirstIndex | src/utils/db.js:318 | `findIndex` is `None` exactly when the key is absent; otherwise it is a position holding the key with no earlier one |
| Seqs.FirstIndexUnique | src/utils/db.js:318 | when keys do not repeat, `findIndex` finds the one position holding the key |
| Seqs.Filter | src/utils/db.js:311-314 | `filter` keeps exactly the elements satisfying the predicate, each as often as before |
| Seqs.Without | src/utils/db.js:334 | dropping a value removes every occurrence and keeps the count of every other value |
| Seqs.WithoutOne | src/utils/db.js:334 | in a list without repeats, dropping a present value closes its one gap and keeps the rest in order |
| Seqs.WithoutNoDup | src/utils/db.js:334 | dropping a value keeps a list free of repeats |
| Divisions.DefaultName | src/utils/db.js:299 | defines the name of an unnamed division: the tier, or "Tier", then the separator exactly as written in the code, then "Pool" and the pool, or "-" |
| Divisions.NewDivision | src/utils/db.js:296-306 | the record `createDivision` builds: the given name, or the default one when empty, so the name is never empty; no teams, no matches, unpublished |
| Divisions.WithPublished | src/utils/db.js:379 | `published` takes the given flag and no other field changes |
| Divisions.WithTeam | src/utils/db.js:316-326 | only `teamIds` changes; an absent team is appended at the end, a present one changes nothing; no repeat is introduced |
| Divisions.WithTeamIdempotent | src/utils/db.js:316-326 | adding the same team twice is the same as adding it once |
| Divisions.WithoutTeam | src/utils/db.js:328-338 | only `teamIds` changes; the team is absent afterwards and every other team keeps its count; matches stay |
| Divisions.WithoutTeamKeepsOrder | src/utils/db.js:328-338 | with no repeats, removal deletes the team's one position and keeps the relative order of the rest |
| Divisions.WithoutAbsentTeam | src/utils/db.js:328-338 | removing a team that is not there changes nothing |
| Divisions.ScoreMatches | src/utils/db.js:390-398 | same length and match ids; the matches with that id get both scores, every other match is unchanged |
| Divisions.DetailMatches | src/utils/db.js:411-419 | same length and match ids; on the matches with that id a given field or kickoff overwrites and a missing one keeps the old value; other matches unchanged |
| Divisions.NullKickoffKeepsTime | src/utils/db.js:416 | passing no kickoff never clears a scheduled kickoff |
| Divisions.EditTouchesOneMatch | src/utils/db.js:390-419 | when match ids are distinct, a score or details edit leaves every match but the addressed one unchanged |
| Fixtures.NewFixture | src/utils/db.js:349-357 | defines a pushed fixture: the id and both team ids, no scores, no kickoff, an empty field |
| Fixtures.Fixtures | src/utils/db.js:345-359 | defines the list the nested loops build: fixture `k` pairs the `k`-th visited positions and takes the `k`-th id drawn from `first` on; its shape is stated by `Fixtures.RoundRobinShape` |
| Fixtures.WithFixtures | src/utils/db.js:360 | defines the division after `generateRoundRobin`: `matches` replaced by `Fixtures`, every other field kept |
| Fixtures.PairsBefore | src/utils/db.js:346-358 | after `a` outer turns, every visited pair has first position below `a` and `p.0 < p.1 < n` |
| Fixtures.IndexPairs | src/utils/db.js:346-358 | every pair the nested loops visit is a pair of positions `a < b` |
| Fixtures.PairsBeforeLength | src/utils/db.js:346-358 | after `a` outer turns, `a*(2n-a-1)/2` pairs have been visited |
| Fixtures.RoundRobinCount | src/utils/db.js:346-358 | `n` teams give exactly `n*(n-1)/2` fixtures |
| Fixtures.PairsBeforeOrdered | src/utils/db.js:346-358 | the pairs visited so far are in strictly increasing loop order |
| Fixtures.PairsBeforeComplete | src/utils/db.js:346-358 | every pair with first position below `a` has been visited after `a` outer turns |
| Fixtures.RoundRobinLoopOrder | src/utils/db.js:346-358 | the fixtures appear in `(a, b)` loop order, and every pair `a < b` appears |
| Fixtures.RoundRobinPairsExactlyOnce | src/utils/db.js:346-358 | with a roster without repeats: no team meets itself, no pairing repeats, and each `(t[i], t[j])` with `i < j` occurs while its reverse does not |
| Fixtures.RoundRobinShape | src/utils/db.js:349-357 | fixture `k` pairs the `k`-th visited teams, has no scores, no kickoff, empty field and the `k`-th fresh id |
| Fixtures.FixturesOfSnoc | src/utils/db.js:349-357 | each `push` appends the fixture for the next pair with the next id |
| Fixtures.FixtureIdsDistinct | src/utils/db.js:350 | the generated fixtures have pairwise different ids |
| Fixtures.ThreeTeamExample | src/utils/db.js:346-358 | teams T1, T2, T3 give exactly T1vT2, T1vT3, T2vT3 in that order |
| Standings.Seed | src/utils/db.js:431-435 | defines the starting map: one zero row, filed under its own id, per distinct id of `teamIds` |
| Standings.Credit | src/utils/db.js:446-466 | one counted side: a game played, goals for and against added, exactly one of win, draw and loss, the win exactly when more goals were scored, the loss exactly when fewer, and 3 points per win plus 1 per draw |
| Standings.Counted | src/utils/db.js:440-444 | defines which matches the loop credits: both team ids have a row and both scores are set |
| Standings.Tally | src/utils/db.js:437-467 | one loop turn keeps the set of teams with a row |
| Standings.Fold | src/utils/db.js:437-467 | the loop over all matches keeps the set of teams with a row |
| Standings.Tallied | src/utils/db.js:431-469 | after both loops there is a row for exactly the ids listed in `teamIds` |
| Standings.Standings | src/utils/db.js:427-480 | defines the table `computeStandings` returns: the rows of `teamIds` after both loops, sorted; the table laws below are stated about it |
| Standings.StrLe | src/utils/db.js:478 | defines lexicographic order on team ids, the stand-in for `localeCompare(…) <= 0` |
| Standings.RanksFirst | src/utils/db.js:474-479 | defines when the comparator lets one row stand before another: more points, then greater goal difference, then more goals for, then the smaller team id |
| Standings.StrLeTotal | src/utils/db.js:478 | the tie-break order on team ids is total |
| Standings.StrLeAntisymmetric | src/utils/db.js:478 | the tie-break order on team ids is antisymmetric |
| Standings.StrLeTransitive | src/utils/db.js:478 | the tie-break order on team ids is transitive |
| Standings.RanksTotal | src/utils/db.js:474-479 | any two rows are comparable under (pts, gd, gf descending, team id ascending) |
| Standings.RanksTransitive | src/utils/db.js:474-479 | the ranking comparator is transitive |
| Standings.RanksAntisymmetric | src/utils/db.js:474-479 | two rows ranked each before the other agree on pts, gd, gf and team id |
| Standings.Insert | src/utils/db.js:474-479 | inserting a row adds exactly that row |
| Standings.SortRows | src/utils/db.js:474-479 | the sort is a permutation of its input |
| Standings.InsertSorted | src/utils/db.js:474-479 | inserting into a sorted table keeps it sorted |
| Standings.SortRowsSorted | src/utils/db.js:474-479 | the sorted table is ordered by the comparator at every pair of positions |
| Standings.SortedUnique | src/utils/db.js:474-479 | two sorted permutations of rows keyed by team are equal, so any correct sort gives this table |
| Standings.SortingLaw | src/utils/db.js:475 | a row with more points comes earlier |
| Standings.CreditInvariant | src/utils/db.js:446-466 | crediting one side of a match keeps `w+d+l == gp` and `pts == 3w+d`, and keeps goals non-negative for non-negative scores |
| Standings.TallyInvariant | src/utils/db.js:437-467 | one loop turn keeps every row consistent and keyed by its team |
| Standings.FoldInvariant | src/utils/db.js:437-467 | the whole loop keeps every row consistent, and goals non-negative when all scores are |
| Standings.StandingsRowArithmetic | src/utils/db.js:446-469 | every row has `w+d+l == gp`, `pts == 3w+d`, `gd == gf-ga`, and non-negative goals when scores are |
| Standings.StandingsArePermutation | src/utils/db.js:472-473 | the table has exactly one row per entry of `teamIds`, as a multiset of team ids |
| Standings.TeamIdsOfPermutation | src/utils/db.js:472-479 | permuting rows permutes their team ids |
| Standings.IgnoredMatch | src/utils/db.js:437-444 | a match with an endpoint outside the roster or an unset score, inserted anywhere in `matches`, leaves the table unchanged |
| Standings.FoldConcat | src/utils/db.js:437-467 | the loop over two lists of matches one after the other is the loop over their concatenation |
| Standings.TallyBalanced | src/utils/db.js:448-451 | one counted match adds the same amount to total goals for and total goals against |
| Standings.FoldBalanced | src/utils/db.js:437-467 | over the whole loop the two goal totals grow by the same amount |
| Standings.GoalsBalance | src/utils/db.js:446-469 | over a roster without repeats, total goals for equals total goals against |
| Standings.TablePermutation | src/utils/db.js:472 | reordering the roster permutes the mapped rows |
| Standings.StandingsIgnoreRosterOrder | src/utils/db.js:472-479 | listing the same teams in another order gives the same table, order included; repeated calls agree |
| Standings.ComputeStandings | src/utils/db.js:427-480 | the two loops and the sort return exactly the table `Standings` specifies |
| Standings.ThreeTeamTable | src/utils/db.js:427-480 | T1 beats T2 2:1 and draws T3 0:0: the table is T1 (4 pts), T3 (1), T2 (0) with the listed columns |
| Applications.NewApplication | src/utils/db.js:206-217 | defines the record `submitApplication` builds: pending, assigned to the requested tier with an empty pool, no reason |
| Applications.Approve | src/utils/db.js:235-239 | status approved, assigned the application's tier and the given pool ("A" by default); nothing else changes |
| Applications.Reject | src/utils/db.js:250 | status rejected with the given reason; nothing else changes |
| Applications.Reassign | src/utils/db.js:262-263 | keys present in the patch overwrite the assignment, absent ones keep it; status and everything else untouched |
| Applications.ReassignIdempotent | src/utils/db.js:257-266 | applying the same assignment edit twice equals applying it once |
| Applications.ApproveThenRetier | src/utils/db.js:231-266 | approving a pending Gold application into pool B, then moving it to Silver, gives Silver/B and stays approved |
| Applications.ApproveAfterReject | src/utils/db.js:231-255 | a rejected application can be approved, and it keeps its rejection reason |
| Teams.SeedUsers | src/utils/db.js:29-30 | the two demo users seeded on first run, with distinct emails |
| Teams.LocalPart | src/utils/db.js:63 | the text before the first "@" (all of it when there is none) |
| Teams.DefaultUserName | src/utils/db.js:63 | the name given to a user created by a role update: the local part of the email, or "User" when that is empty, so never empty |
| Teams.SpacesBefore | src/utils/db.js:152 | counts exactly the leading white space: all of it is white space and the next character is not |
| Teams.SpacesAfter | src/utils/db.js:152 | counts exactly the trailing white space: all of it is white space and the character before is not |
| Teams.Trim | src/utils/db.js:152 | the result is the slice after the leading white space; it neither starts nor ends with white space, and every character outside it is white space |
| Teams.NewPlayer | src/utils/db.js:152-159 | defines the record `addPlayerToTeam` builds: the trimmed name, the jersey and date of birth, and no card when the document id is empty |
| Teams.WithPlayer | src/utils/db.js:160 | only `players` changes, and the new player goes first |
| Teams.DropPlayers | src/utils/db.js:173 | the `filter` keeps exactly the players with another id, and its id list is the old one with that id dropped |
| Teams.WithoutPlayer | src/utils/db.js:171-174 | only `players` changes; it keeps exactly the players with another id, adds no id, and no id repeats afterwards when none did |
| Teams.WithCard | src/utils/db.js:183-188 | only `players` changes, ids and length kept; the players with that id get the card, the others are unchanged |
| Db.RegeneratedTableIsBlank | src/utils/db.js:349-360 | after fixtures are regenerated every standings row is a zero row: all scores are discarded |
| Db.Store.constructor | src/utils/db.js:23-43 | a first run: the two demo users and empty collections, satisfying the invariant |
| Db.Store.NewId | src/utils/db.js:13-17 | the id is fresh, distinct from every id handed out before, and the invariant is kept |
| Db.Store.EnsureUser | src/utils/db.js:45-54 | empty email refused; a new email appended with role "parent" and name "User" unless given; a known one changes nothing |
| Db.Store.UpsertUserRole | src/utils/db.js:56-66 | a known email gets the role in place; an unknown one is appended with the text before "@" (or "User") as name |
| Db.Store.ListUsersByRole | src/utils/db.js:68-71 | exactly the users holding the role |
| Db.Store.CreateTeam | src/utils/db.js:120-132 | a team with a fresh id and no players is put first; only that id joins the issued ids |
| Db.Store.ListTeamsByCoach | src/utils/db.js:134-137 | exactly the teams of that coach |
| Db.Store.RenameTeam | src/utils/db.js:139-146 | only the first team with that id is renamed; unknown id changes nothing |
| Db.Store.AddPlayerToTeam | src/utils/db.js:148-165 | for a known team, a player with a fresh id and trimmed name is put first and returned; unknown team gives `None`, draws no id and changes nothing |
| Db.Store.RemovePlayerFromTeam | src/utils/db.js:167-177 | the addressed team loses every player with that id; nothing else changes |
| Db.Store.SetPlayerCard | src/utils/db.js:179-191 | the addressed team's players with that id get the document as card; nothing else changes |
| Db.Store.GetTeamById | src/utils/db.js:193-196 | `None` exactly when no team has the id; otherwise the first stored team with that id, as `find` returns |
| Db.Store.SubmitApplication | src/utils/db.js:198-219 | a pending application with a fresh id, assigned `{tier, ""}`, is put first |
| Db.Store.ListApplicationsByCoach | src/utils/db.js:221-224 | exactly the applications of that coach |
| Db.Store.ListApplicationsByTournament | src/utils/db.js:226-229 | exactly the applications to that tournament |
| Db.Store.ApproveApplication | src/utils/db.js:231-244 | the addressed application is approved and returned; unknown id gives `None` and changes nothing |
| Db.Store.RejectApplication | src/utils/db.js:246-255 | the addressed application is rejected with the given reason, `""` when the argument is omitted, and returned; unknown id gives `None` and changes nothing |
| Db.Store.UpdateApplicationAssignment | src/utils/db.js:257-266 | the patch is merged into the addressed application's assignment and it is returned; unknown id gives `None` |
| Db.Store.CreateDivision | src/utils/db.js:294-309 | an unpublished division with a fresh id, no teams and no matches is put first, named by default when no name is given |
| Db.Store.ListDivisionsByTournament | src/utils/db.js:311-314 | exactly the divisions of that tournament |
| Db.Store.AddTeamToDivision | src/utils/db.js:316-326 | the addressed division gains the team unless present and is returned; unknown id gives `None` and changes nothing |
| Db.Store.RemoveTeamFromDivision | src/utils/db.js:328-338 | the addressed division loses the team and is returned; unknown id gives `None` and changes nothing |
| Db.Store.PairUp | src/utils/db.js:345-359 | the nested loops build exactly the fixture list `Fixtures` specifies, drawing one fresh id per fixture; the issued ids grow by exactly the ids drawn |
| Db.Store.PairRow | src/utils/db.js:347-358 | one turn of the outer loop appends the fixtures of the pairs `(a, b)`, `b > a`, in order, one id drawn per fixture, and the issued ids grow by exactly those |
| Db.Store.GenerateRoundRobin | src/utils/db.js:340-363 | only the addressed division's `matches` is replaced, by the whole new fixture list; one id drawn per fixture; unknown id gives `None` and changes nothing |
| Db.Store.SetDivisionPublished | src/utils/db.js:375-382 | only the published flag of the addressed division changes; unknown id gives `None` |
| Db.Store.SetMatchScore | src/utils/db.js:385-403 | only the addressed division's matches change, as `ScoreMatches` states; unknown division gives `None` |
| Db.Store.SetMatchDetails | src/utils/db.js:406-424 | only the addressed division's matches change, as `DetailMatches` states; unknown division gives `None` |

## Left out

- Persistence: `getJSON`/`setJSON` and JSON (de)serialisation over localStorage (`src/utils/storage.js`) are I/O; the store is the in-memory state the lists hold.
- `init` on later runs: `ensureKey` and the re-seeding of missing demo users when storage already holds data are not modelled; the constructor is the first run on empty storage.
- Db.Store.NewId: ids come from a counter instead of `crypto.randomUUID` or the `Date.now`/`Math.random` fallback (randomness); only their freshness is modelled.
- `Date.now()` timestamps are the `now` parameter: clocks are outside the model.
- `listAllDivisions` returns the list unchanged; it is `Db.Store.ListAllDivisions` and has no contract of its own.
- Documents, shares and roster submissions (`addDocuments`, `listDocumentsByOwner`, `getDocumentById`, `shareDocument`, `listSharesTo`, `submitRoster`, `listRostersForDirector`, `listRostersByCoach`) are prepend-and-filter records over opaque file payloads, outside the modelled core.
- Scores are integers or `None`: JavaScript values that `Number.isFinite` rejects (NaN, Infinity, strings) are not representable, so that check is the identity here; fractional scores are not modelled.
- Standings.Counted: a match is skipped whenever an endpoint is not in `teamIds`. In the code `S` is a plain object (src/utils/db.js:431-435), so `S[id]` for an id naming an `Object.prototype` member (`"constructor"`, `"toString"`, `"__proto__"`, …) is truthy, passes the `!a || !b` test at src/utils/db.js:440 and lets the roster side be credited. Ids are generated strings, so such an id does not arise; `Standings.IgnoredMatch`, `Standings.GoalsBalance` and the other table laws are stated under that assumption.
- Standings.StrLe: `localeCompare` follows the user's locale; the model uses lexicographic order on code points.
- Standings.SortRows: the JavaScript engine's sort algorithm is replaced by insertion sort; `Standings.SortedUnique` shows that every correct sort gives the same table.
- Missing fields (`teamIds || []`, `players || []`, `m.field ?? ""`, `m.kickoffAt ?? null`) cannot occur: records in the model always carry every field.
- Explicitly passed `undefined` values and non-string arguments are not modelled; an omitted optional argument is `None`, and a falsy string argument is the empty string.
- Teams.Trim: only the ECMAScript white-space code points are removed; JavaScript strings are UTF-16, `string` here is a sequence of code points.
- React components, the score parser of the bracket editor, schedule sorting by date, CSV export, network clients and the weather panel are outside the data layer.
