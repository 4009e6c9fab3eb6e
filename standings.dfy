/**
 * The standings calculator (`computeStandings`, src/utils/db.js:427-480).
 * One zero row is seeded per team id; each match whose two teams both have a
 * row and whose two scores are both set is credited to both rows; goal
 * difference is filled in afterwards; the rows are then sorted by points,
 * goal difference and goals for, all descending, then team id ascending.
 */
module Standings {
  import opened Wrappers
  import opened Ids
  import opened Seqs
  import opened Divisions

  datatype Row = Row(teamId: Id, gp: nat, w: nat, d: nat, l: nat, gf: int, ga: int, gd: int, pts: nat)

  function ZeroRow(id: Id): (r: Row) {
    Row(id, 0, 0, 0, 0, 0, 0, 0, 0)
  }

  /** `Object.fromEntries(teamIds.map(...))`: one zero row per distinct id. */
  function Seed(teamIds: seq<Id>): (S: map<Id, Row>) {
    map id | id in teamIds :: ZeroRow(id)
  }

  /** One side of a counted match: a game played, goals both ways, and 3/1/0 points. */
  function Credit(r: Row, goalsFor: int, goalsAgainst: int): (c: Row)
    ensures c.teamId == r.teamId && c.gd == r.gd && c.gp == r.gp + 1
    ensures c.gf == r.gf + goalsFor && c.ga == r.ga + goalsAgainst
    ensures c.w >= r.w && c.d >= r.d && c.l >= r.l && (c.w - r.w) + (c.d - r.d) + (c.l - r.l) == 1
    ensures c.w > r.w <==> goalsFor > goalsAgainst
    ensures c.l > r.l <==> goalsFor < goalsAgainst
    ensures c.pts == r.pts + 3 * (c.w - r.w) + (c.d - r.d)
  {
    var r1 := r.(gp := r.gp + 1, gf := r.gf + goalsFor, ga := r.ga + goalsAgainst);
    if goalsFor > goalsAgainst then r1.(w := r1.w + 1, pts := r1.pts + 3)
    else if goalsFor < goalsAgainst then r1.(l := r1.l + 1)
    else r1.(d := r1.d + 1, pts := r1.pts + 1)
  }

  /** The match survives the two `continue`s of src/utils/db.js:440 and :444. */
  predicate Counted(S: map<Id, Row>, m: Match) {
    m.aTeamId in S && m.bTeamId in S && m.aScore.Some? && m.bScore.Some?
  }

  /**
   * One turn of the `for…of` loop. The `b` row is read after the `a` row has
   * been credited, so a match of a team against itself credits its one row
   * twice, as the aliased JavaScript objects do.
   */
  function Tally(S: map<Id, Row>, m: Match): (S': map<Id, Row>)
    ensures S'.Keys == S.Keys
  {
    if Counted(S, m) then
      var S1 := S[m.aTeamId := Credit(S[m.aTeamId], m.aScore.value, m.bScore.value)];
      S1[m.bTeamId := Credit(S1[m.bTeamId], m.bScore.value, m.aScore.value)]
    else S
  }

  /** The whole loop over `matches`, in order. */
  function Fold(S: map<Id, Row>, ms: seq<Match>): (S': map<Id, Row>)
    ensures S'.Keys == S.Keys
    decreases |ms|
  {
    if ms == [] then S else Tally(Fold(S, ms[..|ms| - 1]), ms[|ms| - 1])
  }

  /** Unrolling the loop by its last turn. */
  lemma FoldStep(S: map<Id, Row>, ms: seq<Match>, m: Match)
    ensures Fold(S, ms + [m]) == Tally(Fold(S, ms), m)
  {
    assert (ms + [m])[..|ms|] == ms;
  }

  function Settle(r: Row): (s: Row) {
    r.(gd := r.gf - r.ga)
  }

  /** The second loop, `S[id].gd = S[id].gf - S[id].ga`. */
  function SettleAll(S: map<Id, Row>): (S': map<Id, Row>)
    ensures S'.Keys == S.Keys
  {
    map id | id in S :: Settle(S[id])
  }

  /** `teamIds.map((id) => S[id])`. */
  function Table(teamIds: seq<Id>, S: map<Id, Row>): (t: seq<Row>)
    requires forall id :: id in teamIds ==> id in S
  {
    seq(|teamIds|, k requires 0 <= k < |teamIds| => S[teamIds[k]])
  }

  /** The rows after both loops. */
  function Tallied(d: Division): (S: map<Id, Row>)
    ensures S.Keys == set id | id in d.teamIds
  {
    SettleAll(Fold(Seed(d.teamIds), d.matches))
  }

  /** The value `computeStandings(d)` returns. */
  function Standings(d: Division): (t: seq<Row>) {
    SortRows(Table(d.teamIds, Tallied(d)))
  }

  // ---------------------------------------------------------------------------
  // The order of the table

  /** Lexicographic order on strings, the model of `localeCompare(…) <= 0`. */
  predicate StrLe(a: string, b: string)
    decreases |a|
  {
    a == [] || (b != [] && (a[0] < b[0] || (a[0] == b[0] && StrLe(a[1..], b[1..]))))
  }

  lemma {:induction false} StrLeTotal(a: string, b: string)
    ensures StrLe(a, b) || StrLe(b, a)
    decreases |a|
  {
    if a != [] && b != [] && a[0] == b[0] { StrLeTotal(a[1..], b[1..]); }
  }

  lemma {:induction false} StrLeAntisymmetric(a: string, b: string)
    requires StrLe(a, b) && StrLe(b, a)
    ensures a == b
    decreases |a|
  {
    if a != [] && b != [] {
      StrLeAntisymmetric(a[1..], b[1..]);
      assert a == [a[0]] + a[1..] && b == [b[0]] + b[1..];
    }
  }

  lemma {:induction false} StrLeTransitive(a: string, b: string, c: string)
    requires StrLe(a, b) && StrLe(b, c)
    ensures StrLe(a, c)
    decreases |a|
  {
    if a != [] && b != [] && c != [] && a[0] == b[0] == c[0] {
      StrLeTransitive(a[1..], b[1..], c[1..]);
    }
  }

  /**
   * `x` may stand before `y`: the comparator of src/utils/db.js:474-479 does
   * not return a positive number for `(x, y)`.
   */
  predicate RanksFirst(x: Row, y: Row) {
    || x.pts > y.pts
    || (x.pts == y.pts && x.gd > y.gd)
    || (x.pts == y.pts && x.gd == y.gd && x.gf > y.gf)
    || (x.pts == y.pts && x.gd == y.gd && x.gf == y.gf && StrLe(x.teamId, y.teamId))
  }

  lemma RanksTotal(x: Row, y: Row)
    ensures RanksFirst(x, y) || RanksFirst(y, x)
  {
    StrLeTotal(x.teamId, y.teamId);
  }

  lemma RanksTransitive(x: Row, y: Row, z: Row)
    requires RanksFirst(x, y) && RanksFirst(y, z)
    ensures RanksFirst(x, z)
  {
    if x.pts == y.pts == z.pts && x.gd == y.gd == z.gd && x.gf == y.gf == z.gf {
      StrLeTransitive(x.teamId, y.teamId, z.teamId);
    }
  }

  /** Two rows that may each stand first agree on every sort key, the team id included. */
  lemma RanksAntisymmetric(x: Row, y: Row)
    requires RanksFirst(x, y) && RanksFirst(y, x)
    ensures x.pts == y.pts && x.gd == y.gd && x.gf == y.gf && x.teamId == y.teamId
  {
    StrLeAntisymmetric(x.teamId, y.teamId);
  }

  ghost predicate Sorted(s: seq<Row>) {
    forall i, j :: 0 <= i < j < |s| ==> RanksFirst(s[i], s[j])
  }

  /** Insertion into a sorted table. */
  function Insert(x: Row, s: seq<Row>): (r: seq<Row>)
    ensures multiset(r) == multiset(s) + multiset{x}
  {
    if s == [] || RanksFirst(x, s[0]) then [x] + s
    else
      assert s == [s[0]] + s[1..];
      [s[0]] + Insert(x, s[1..])
  }

  /** The sort of src/utils/db.js:474, as insertion sort. */
  function SortRows(s: seq<Row>): (r: seq<Row>)
    ensures multiset(r) == multiset(s)
  {
    if s == [] then []
    else
      assert s == [s[0]] + s[1..];
      Insert(s[0], SortRows(s[1..]))
  }

  /** A row that may stand before every row of a sorted table may head it. */
  lemma ConsSorted(h: Row, t: seq<Row>)
    requires Sorted(t) && forall y :: y in t ==> RanksFirst(h, y)
    ensures Sorted([h] + t)
  {
    var r := [h] + t;
    forall i, j | 0 <= i < j < |r| ensures RanksFirst(r[i], r[j]) {
      assert r[j] == t[j - 1];
      if i > 0 { assert r[i] == t[i - 1]; }
    }
  }

  /** The head of a sorted table may stand before each row after it. */
  lemma SortedHead(s: seq<Row>)
    requires Sorted(s) && s != []
    ensures forall y :: y in s[1..] ==> RanksFirst(s[0], y)
  {
    forall y | y in s[1..] ensures RanksFirst(s[0], y) {
      var k :| 0 <= k < |s[1..]| && s[1..][k] == y;
      assert s[k + 1] == y;
    }
  }

  lemma {:induction false} InsertSorted(x: Row, s: seq<Row>)
    requires Sorted(s)
    ensures Sorted(Insert(x, s))
  {
    if s == [] {
    } else if RanksFirst(x, s[0]) {
      SortedHead(s);
      forall y | y in s ensures RanksFirst(x, y) {
        if y != s[0] {
          assert s == [s[0]] + s[1..];
          RanksTransitive(x, s[0], y);
        }
      }
      ConsSorted(x, s);
    } else {
      RanksTotal(x, s[0]);
      SortedTail(s);
      SortedHead(s);
      InsertSorted(x, s[1..]);
      var tail := Insert(x, s[1..]);
      forall y | y in tail ensures RanksFirst(s[0], y) {
        assert y in multiset(tail);
      }
      ConsSorted(s[0], tail);
    }
  }

  /** The table comes out ordered by the comparator. */
  lemma {:induction false} SortRowsSorted(s: seq<Row>)
    ensures Sorted(SortRows(s))
  {
    if s != [] {
      SortRowsSorted(s[1..]);
      InsertSorted(s[0], SortRows(s[1..]));
    }
  }

  /** Rows with the same team id are the same row (true of every table built from one map). */
  ghost predicate KeyedByTeam(s: seq<Row>) {
    forall x, y :: x in s && y in s && x.teamId == y.teamId ==> x == y
  }

  /**
   * A sorted arrangement of rows keyed by team is unique: whatever sorting
   * algorithm the JavaScript engine uses, the table comes out the same.
   */
  lemma {:induction false} SortedUnique(s1: seq<Row>, s2: seq<Row>)
    requires Sorted(s1) && Sorted(s2) && multiset(s1) == multiset(s2) && KeyedByTeam(s1)
    ensures s1 == s2
  {
    if s1 != [] {
      assert s1[0] in multiset(s2);
      var x, y := s1[0], s2[0];
      assert y in multiset(s1);
      SortedHeadFirst(s2, x);
      SortedHeadFirst(s1, y);
      RanksAntisymmetric(x, y);
      assert x == y;
      assert s1 == [x] + s1[1..] && s2 == [x] + s2[1..];
      assert multiset(s1) == multiset{x} + multiset(s1[1..]);
      assert multiset(s2) == multiset{x} + multiset(s2[1..]);
      MultisetCancel(multiset(s1[1..]), multiset(s2[1..]), x);
      SortedTail(s1);
      SortedTail(s2);
      assert KeyedByTeam(s1[1..]) by {
        forall u, v | u in s1[1..] && v in s1[1..] && u.teamId == v.teamId ensures u == v {
          assert u in s1 && v in s1;
        }
      }
      SortedUnique(s1[1..], s2[1..]);
    }
  }

  lemma SortedHeadFirst(s: seq<Row>, x: Row)
    requires Sorted(s) && x in s
    ensures RanksFirst(s[0], x)
  {
    var j :| 0 <= j < |s| && s[j] == x;
    if j == 0 { StrLeTotal(x.teamId, x.teamId); }
  }

  lemma SortedTail(s: seq<Row>)
    requires Sorted(s) && s != []
    ensures Sorted(s[1..])
  {
    forall a, b | 0 <= a < b < |s[1..]| ensures RanksFirst(s[1..][a], s[1..][b]) {
      assert s[1..][a] == s[a + 1] && s[1..][b] == s[b + 1];
    }
  }

  /**
   * The sorting law: of two rows, the one with more points is listed first;
   * on equal points the greater goal difference; then the greater goals for;
   * then the smaller team id.
   */
  lemma SortingLaw(s: seq<Row>, i: nat, j: nat)
    requires Sorted(s) && i < |s| && j < |s|
    requires s[i].pts > s[j].pts
          || (s[i].pts == s[j].pts && s[i].gd > s[j].gd)
          || (s[i].pts == s[j].pts && s[i].gd == s[j].gd && s[i].gf > s[j].gf)
          || (s[i].pts == s[j].pts && s[i].gd == s[j].gd && s[i].gf == s[j].gf
              && StrLe(s[i].teamId, s[j].teamId) && s[i].teamId != s[j].teamId)
    ensures i < j
  {
    if j < i {
      assert RanksFirst(s[j], s[i]);
      if s[i].pts == s[j].pts && s[i].gd == s[j].gd && s[i].gf == s[j].gf {
        StrLeAntisymmetric(s[i].teamId, s[j].teamId);
      }
    }
  }

  // ---------------------------------------------------------------------------
  // What the loops keep true of every row

  /** `w + d + l == gp` and `pts == 3w + d`. */
  predicate Consistent(r: Row) {
    r.w + r.d + r.l == r.gp && r.pts == 3 * r.w + r.d
  }

  /** Every row is filed under its own team id and is consistent. */
  ghost predicate RowsInvariant(S: map<Id, Row>) {
    forall id :: id in S ==> S[id].teamId == id && Consistent(S[id])
  }

  /** Scores are never negative (what the score-entry boundary guarantees). */
  ghost predicate ScoresNonNegative(ms: seq<Match>) {
    forall m :: m in ms ==> (m.aScore.Some? ==> m.aScore.value >= 0) && (m.bScore.Some? ==> m.bScore.value >= 0)
  }

  ghost predicate GoalsNonNegative(S: map<Id, Row>) {
    forall id :: id in S ==> S[id].gf >= 0 && S[id].ga >= 0
  }

  lemma CreditInvariant(r: Row, goalsFor: int, goalsAgainst: int)
    requires Consistent(r)
    ensures Consistent(Credit(r, goalsFor, goalsAgainst)) && Credit(r, goalsFor, goalsAgainst).teamId == r.teamId
    ensures r.gf >= 0 && r.ga >= 0 && goalsFor >= 0 && goalsAgainst >= 0 ==>
      Credit(r, goalsFor, goalsAgainst).gf >= 0 && Credit(r, goalsFor, goalsAgainst).ga >= 0
  {
  }

  lemma TallyInvariant(S: map<Id, Row>, m: Match)
    requires RowsInvariant(S)
    ensures RowsInvariant(Tally(S, m))
    ensures GoalsNonNegative(S) && ScoresNonNegative([m]) ==> GoalsNonNegative(Tally(S, m))
  {
    if Counted(S, m) {
      var aS, bS := m.aScore.value, m.bScore.value;
      CreditInvariant(S[m.aTeamId], aS, bS);
      var S1 := S[m.aTeamId := Credit(S[m.aTeamId], aS, bS)];
      assert RowsInvariant(S1);
      CreditInvariant(S1[m.bTeamId], bS, aS);
      assert m in [m];
    }
  }

  lemma {:induction false} FoldInvariant(S: map<Id, Row>, ms: seq<Match>)
    requires RowsInvariant(S)
    ensures RowsInvariant(Fold(S, ms))
    ensures GoalsNonNegative(S) && ScoresNonNegative(ms) ==> GoalsNonNegative(Fold(S, ms))
    decreases |ms|
  {
    if ms != [] {
      var front, last := ms[..|ms| - 1], ms[|ms| - 1];
      FoldInvariant(S, front);
      TallyInvariant(Fold(S, front), last);
      if ScoresNonNegative(ms) {
        assert ScoresNonNegative(front) by {
          forall m | m in front ensures m in ms { }
        }
        assert ScoresNonNegative([last]) by { assert last in ms; }
      }
    }
  }

  /** A property of every row before sorting. */
  ghost predicate Settled(r: Row, nonNegative: bool) {
    Consistent(r) && r.gd == r.gf - r.ga && (nonNegative ==> r.gf >= 0 && r.ga >= 0)
  }

  lemma TableSettled(d: Division)
    ensures forall r :: r in Table(d.teamIds, Tallied(d)) ==> Settled(r, ScoresNonNegative(d.matches))
  {
    var S := Fold(Seed(d.teamIds), d.matches);
    FoldInvariant(Seed(d.teamIds), d.matches);
    var t := Table(d.teamIds, Tallied(d));
    forall k | 0 <= k < |t| ensures Settled(t[k], ScoresNonNegative(d.matches)) {
      assert t[k] == Settle(S[d.teamIds[k]]);
    }
  }

  /** Sorting introduces no row. */
  lemma SortedFrom(s: seq<Row>)
    ensures forall r :: r in SortRows(s) ==> r in s
  {
    forall r | r in SortRows(s) ensures r in s {
      assert r in multiset(SortRows(s));
    }
  }

  /** Every row of the table is consistent and has `gd == gf - ga`. */
  lemma StandingsRowArithmetic(d: Division)
    ensures forall r :: r in Standings(d) ==>
      r.w + r.d + r.l == r.gp && r.pts == 3 * r.w + r.d && r.gd == r.gf - r.ga
    ensures ScoresNonNegative(d.matches) ==> forall r :: r in Standings(d) ==> r.gf >= 0 && r.ga >= 0
  {
    TableSettled(d);
    SortedFrom(Table(d.teamIds, Tallied(d)));
    forall r | r in Standings(d) ensures Settled(r, ScoresNonNegative(d.matches)) {
    }
  }

  /** `computeStandings` returns one row per entry of `teamIds`: a permutation of them. */
  lemma {:induction false} StandingsArePermutation(d: Division)
    ensures |Standings(d)| == |d.teamIds|
    ensures multiset(TeamIdsOf(Standings(d))) == multiset(d.teamIds)
  {
    var S := Fold(Seed(d.teamIds), d.matches);
    FoldInvariant(Seed(d.teamIds), d.matches);
    var t := Table(d.teamIds, Tallied(d));
    assert TeamIdsOf(t) == d.teamIds;
    assert |Standings(d)| == |multiset(Standings(d))| == |multiset(t)| == |t|;
    TeamIdsOfPermutation(t, Standings(d));
  }

  function TeamIdsOf(s: seq<Row>): (ids: seq<Id>) {
    seq(|s|, k requires 0 <= k < |s| => s[k].teamId)
  }

  lemma TeamIdsOfConcat(a: seq<Row>, b: seq<Row>)
    ensures TeamIdsOf(a + b) == TeamIdsOf(a) + TeamIdsOf(b)
  {
  }

  lemma {:induction false} TeamIdsOfPermutation(s: seq<Row>, r: seq<Row>)
    requires multiset(s) == multiset(r)
    ensures multiset(TeamIdsOf(s)) == multiset(TeamIdsOf(r))
    decreases |s|
  {
    if s != [] {
      var i := Pick(s, r);
      var pre, post := r[..i], r[i + 1..];
      TeamIdsOfPermutation(s[1..], pre + post);
      assert TeamIdsOf(s) == [s[0].teamId] + TeamIdsOf(s[1..]);
      assert TeamIdsOf(r) == TeamIdsOf(pre) + [s[0].teamId] + TeamIdsOf(post);
      assert TeamIdsOf(pre + post) == TeamIdsOf(pre) + TeamIdsOf(post);
    }
  }

  /** The loop over `a + b` is the loop over `a` followed by the loop over `b`. */
  lemma {:induction false} FoldConcat(S: map<Id, Row>, a: seq<Match>, b: seq<Match>)
    ensures Fold(S, a + b) == Fold(Fold(S, a), b)
    decreases |b|
  {
    if b == [] {
      assert a + b == a;
    } else {
      var b' := b[..|b| - 1];
      assert a + b == (a + b') + [b[|b| - 1]] && b == b' + [b[|b| - 1]];
      FoldStep(S, a + b', b[|b| - 1]);
      FoldStep(Fold(S, a), b', b[|b| - 1]);
      FoldConcat(S, a, b');
    }
  }

  /**
   * A match that is not counted (an endpoint without a row, or a score unset)
   * leaves the table exactly as it was, wherever it stands in `matches`.
   */
  lemma IgnoredMatch(d: Division, pre: seq<Match>, m: Match, post: seq<Match>)
    requires !(m.aTeamId in d.teamIds && m.bTeamId in d.teamIds && m.aScore.Some? && m.bScore.Some?)
    ensures Standings(d.(matches := pre + [m] + post)) == Standings(d.(matches := pre + post))
  {
    var S := Seed(d.teamIds);
    FoldConcat(S, pre + [m], post);
    FoldConcat(S, pre, post);
    FoldStep(S, pre, m);
    assert !Counted(Fold(S, pre), m);
  }

  // ---------------------------------------------------------------------------
  // Goals for and against balance

  function SumGf(s: seq<Row>): (n: int) {
    if s == [] then 0 else s[0].gf + SumGf(s[1..])
  }

  function SumGa(s: seq<Row>): (n: int) {
    if s == [] then 0 else s[0].ga + SumGa(s[1..])
  }

  lemma {:induction false} InsertSums(x: Row, s: seq<Row>)
    ensures SumGf(Insert(x, s)) == x.gf + SumGf(s) && SumGa(Insert(x, s)) == x.ga + SumGa(s)
  {
    if s != [] && !RanksFirst(x, s[0]) {
      InsertSums(x, s[1..]);
    }
  }

  lemma {:induction false} SortSums(s: seq<Row>)
    ensures SumGf(SortRows(s)) == SumGf(s) && SumGa(SortRows(s)) == SumGa(s)
  {
    if s != [] {
      SortSums(s[1..]);
      InsertSums(s[0], SortRows(s[1..]));
    }
  }

  lemma TableCons(ks: seq<Id>, S: map<Id, Row>)
    requires ks != [] && forall id :: id in ks ==> id in S
    ensures Table(ks, S) == [S[ks[0]]] + Table(ks[1..], S)
  {
  }

  lemma {:induction false} TableSkipsUpdate(ks: seq<Id>, S: map<Id, Row>, x: Id, r: Row)
    requires x !in ks && forall id :: id in ks ==> id in S
    ensures Table(ks, S[x := r]) == Table(ks, S)
  {
  }

  /** Replacing the row of one listed team moves the sums by exactly that row's change. */
  lemma {:induction false} UpdateSums(ks: seq<Id>, S: map<Id, Row>, x: Id, r: Row)
    requires NoDup(ks) && x in ks && forall id :: id in ks ==> id in S
    ensures SumGf(Table(ks, S[x := r])) == SumGf(Table(ks, S)) - S[x].gf + r.gf
    ensures SumGa(Table(ks, S[x := r])) == SumGa(Table(ks, S)) - S[x].ga + r.ga
  {
    var S' := S[x := r];
    TableCons(ks, S);
    TableCons(ks, S');
    TailNoDup(ks);
    if ks[0] == x {
      assert x !in ks[1..] by {
        forall k | 0 <= k < |ks[1..]| ensures ks[1..][k] != x { assert ks[1..][k] == ks[k + 1]; }
      }
      TableSkipsUpdate(ks[1..], S, x, r);
    } else {
      UpdateSums(ks[1..], S, x, r);
    }
  }

  /** One match adds as many goals for as goals against over the listed teams. */
  lemma TallyBalanced(ks: seq<Id>, S: map<Id, Row>, m: Match)
    requires NoDup(ks) && S.Keys == set id | id in ks
    ensures SumGf(Table(ks, Tally(S, m))) - SumGa(Table(ks, Tally(S, m))) == SumGf(Table(ks, S)) - SumGa(Table(ks, S))
  {
    if Counted(S, m) {
      var aS, bS := m.aScore.value, m.bScore.value;
      var S1 := S[m.aTeamId := Credit(S[m.aTeamId], aS, bS)];
      UpdateSums(ks, S, m.aTeamId, Credit(S[m.aTeamId], aS, bS));
      UpdateSums(ks, S1, m.bTeamId, Credit(S1[m.bTeamId], bS, aS));
    }
  }

  lemma {:induction false} FoldBalanced(ks: seq<Id>, S: map<Id, Row>, ms: seq<Match>)
    requires NoDup(ks) && S.Keys == set id | id in ks
    ensures SumGf(Table(ks, Fold(S, ms))) - SumGa(Table(ks, Fold(S, ms))) == SumGf(Table(ks, S)) - SumGa(Table(ks, S))
    decreases |ms|
  {
    if ms != [] {
      FoldBalanced(ks, S, ms[..|ms| - 1]);
      TallyBalanced(ks, Fold(S, ms[..|ms| - 1]), ms[|ms| - 1]);
    }
  }

  lemma {:induction false} SeedSums(ks: seq<Id>, S: map<Id, Row>)
    requires forall id :: id in ks ==> id in S && S[id].gf == 0 && S[id].ga == 0
    ensures SumGf(Table(ks, S)) == 0 && SumGa(Table(ks, S)) == 0
  {
    if ks != [] {
      TableCons(ks, S);
      SeedSums(ks[1..], S);
    }
  }

  lemma {:induction false} SettleSums(ks: seq<Id>, S: map<Id, Row>)
    requires forall id :: id in ks ==> id in S
    ensures SumGf(Table(ks, SettleAll(S))) == SumGf(Table(ks, S))
    ensures SumGa(Table(ks, SettleAll(S))) == SumGa(Table(ks, S))
  {
    if ks != [] {
      TableCons(ks, S);
      TableCons(ks, SettleAll(S));
      SettleSums(ks[1..], S);
    }
  }

  /**
   * Over a roster without repeats, the total of goals for equals the total of
   * goals against: each counted match adds its score to both columns.
   */
  lemma GoalsBalance(d: Division)
    requires NoDup(d.teamIds)
    ensures SumGf(Standings(d)) == SumGa(Standings(d))
  {
    var ks := d.teamIds;
    var S := Fold(Seed(ks), d.matches);
    SeedSums(ks, Seed(ks));
    FoldBalanced(ks, Seed(ks), d.matches);
    SettleSums(ks, S);
    SortSums(Table(ks, Tallied(d)));
  }

  // ---------------------------------------------------------------------------
  // The table does not depend on the order of the roster

  lemma TableConcat(a: seq<Id>, b: seq<Id>, S: map<Id, Row>)
    requires forall id :: id in a + b ==> id in S
    ensures Table(a + b, S) == Table(a, S) + Table(b, S)
  {
  }

  lemma {:induction false} TablePermutation(ks: seq<Id>, ks': seq<Id>, S: map<Id, Row>)
    requires multiset(ks) == multiset(ks')
    requires forall id :: id in ks ==> id in S
    requires forall id :: id in ks' ==> id in S
    ensures multiset(Table(ks, S)) == multiset(Table(ks', S))
    decreases |ks|
  {
    if ks != [] {
      var i := Pick(ks, ks');
      var pre, post := ks'[..i], ks'[i + 1..];
      assert forall id :: id in ks[1..] ==> id in ks;
      assert forall id :: id in pre + post ==> id in ks';
      TablePermutation(ks[1..], pre + post, S);
      assert Table(ks, S) == [S[ks[0]]] + Table(ks[1..], S);
      assert Table(ks', S) == Table(pre, S) + [S[ks[0]]] + Table(post, S);
      assert Table(pre + post, S) == Table(pre, S) + Table(post, S);
    }
  }

  lemma TableKeyed(ks: seq<Id>, S: map<Id, Row>)
    requires forall id :: id in S ==> S[id].teamId == id
    requires forall id :: id in ks ==> id in S
    ensures KeyedByTeam(Table(ks, S))
  {
    var t := Table(ks, S);
    forall x, y | x in t && y in t && x.teamId == y.teamId ensures x == y {
      var i :| 0 <= i < |t| && t[i] == x;
      var j :| 0 <= j < |t| && t[j] == y;
    }
  }

  /**
   * The table depends on the roster only as a collection: listing the same
   * teams in another order gives the same table, order included. In
   * particular a second call on the same division returns the same table.
   */
  lemma StandingsIgnoreRosterOrder(d: Division, teamIds: seq<Id>)
    requires multiset(teamIds) == multiset(d.teamIds)
    ensures Standings(d.(teamIds := teamIds)) == Standings(d)
  {
    var d2 := d.(teamIds := teamIds);
    assert forall id :: id in teamIds <==> id in d.teamIds by {
      forall id ensures id in teamIds <==> id in d.teamIds {
        assert id in teamIds <==> id in multiset(teamIds);
        assert id in d.teamIds <==> id in multiset(d.teamIds);
      }
    }
    assert Seed(teamIds) == Seed(d.teamIds);
    var T := Tallied(d);
    assert Tallied(d2) == T;
    FoldInvariant(Seed(d.teamIds), d.matches);
    var t1, t2 := Table(d.teamIds, T), Table(teamIds, T);
    TablePermutation(d.teamIds, teamIds, T);
    SortRowsSorted(t1);
    SortRowsSorted(t2);
    TableKeyed(d.teamIds, T);
    var s1 := SortRows(t1);
    assert KeyedByTeam(s1) by {
      forall x | x in s1 ensures x in t1 { assert x in multiset(s1); }
    }
    SortedUnique(s1, SortRows(t2));
  }

  // ---------------------------------------------------------------------------
  // The calculator itself

  /**
   * `computeStandings`: the seeding, the `for…of` loop that credits each
   * counted match, the loop that fills in goal difference, and the sort.
   */
  method ComputeStandings(d: Division) returns (table: seq<Row>)
    ensures table == Standings(d)
  {
    var S := Seed(d.teamIds);
    for i := 0 to |d.matches|
      invariant S == Fold(Seed(d.teamIds), d.matches[..i])
    {
      var m := d.matches[i];
      assert d.matches[..i + 1][..i] == d.matches[..i];
      if m.aTeamId in S && m.bTeamId in S && m.aScore.Some? && m.bScore.Some? {
        var aS, bS := m.aScore.value, m.bScore.value;
        S := S[m.aTeamId := Credit(S[m.aTeamId], aS, bS)];
        S := S[m.bTeamId := Credit(S[m.bTeamId], bS, aS)];
      }
    }
    assert d.matches[..|d.matches|] == d.matches;
    ghost var folded := S;
    for k := 0 to |d.teamIds|
      invariant S.Keys == folded.Keys
      invariant forall id :: id in S ==> S[id] == if id in d.teamIds[..k] then Settle(folded[id]) else folded[id]
    {
      var id := d.teamIds[k];
      assert d.teamIds[..k + 1] == d.teamIds[..k] + [id];
      S := S[id := S[id].(gd := S[id].gf - S[id].ga)];
    }
    assert d.teamIds[..|d.teamIds|] == d.teamIds;
    assert S == SettleAll(folded);
    table := SortRows(Table(d.teamIds, S));
  }

  /** The three matches of the worked example. */
  predicate ExampleMatches(m1: Match, m2: Match, m3: Match) {
    && m1 == Match("m1", "T1", "T2", Some(2), Some(1), None, "")
    && m2 == Match("m2", "T1", "T3", Some(0), Some(0), None, "")
    && m3 == Match("m3", "T2", "T3", None, None, None, "")
  }

  /** The loop over the worked example: a win, a draw, and an unplayed match that is skipped. */
  lemma ExampleFold(ks: seq<Id>, m1: Match, m2: Match, m3: Match)
    requires ks == ["T1", "T2", "T3"] && ExampleMatches(m1, m2, m3)
    ensures var S := Fold(Seed(ks), [m1, m2, m3]);
      && S.Keys == {"T1", "T2", "T3"}
      && S["T1"] == Row("T1", 2, 1, 1, 0, 2, 1, 0, 4)
      && S["T2"] == Row("T2", 1, 0, 0, 1, 1, 2, 0, 0)
      && S["T3"] == Row("T3", 1, 0, 1, 0, 0, 0, 0, 1)
  {
    var S0 := Seed(ks);
    assert S0.Keys == {"T1", "T2", "T3"} by {
      forall id ensures id in S0.Keys <==> id in {"T1", "T2", "T3"} {
        assert id in ks <==> id == "T1" || id == "T2" || id == "T3";
      }
    }
    var S1 := Tally(S0, m1);
    assert S1["T1"] == Row("T1", 1, 1, 0, 0, 2, 1, 0, 3) && S1["T2"] == Row("T2", 1, 0, 0, 1, 1, 2, 0, 0);
    assert S1["T3"] == ZeroRow("T3");
    var S2 := Tally(S1, m2);
    assert S2["T1"] == Row("T1", 2, 1, 1, 0, 2, 1, 0, 4) && S2["T3"] == Row("T3", 1, 0, 1, 0, 0, 0, 0, 1);
    assert S2["T2"] == S1["T2"];
    assert Tally(S2, m3) == S2;
    FoldStep(S0, [], m1);
    assert [] + [m1] == [m1];
    FoldStep(S0, [m1], m2);
    assert [m1] + [m2] == [m1, m2];
    FoldStep(S0, [m1, m2], m3);
    assert [m1, m2] + [m3] == [m1, m2, m3];
    assert Fold(S0, [m1, m2, m3]) == S2;
  }

  lemma ExampleSort(r1: Row, r2: Row, r3: Row)
    requires r1 == Row("T1", 2, 1, 1, 0, 2, 1, 1, 4)
    requires r2 == Row("T2", 1, 0, 0, 1, 1, 2, -1, 0)
    requires r3 == Row("T3", 1, 0, 1, 0, 0, 0, 0, 1)
    ensures SortRows([r1, r2, r3]) == [r1, r3, r2]
  {
    assert [r1, r2, r3][1..] == [r2, r3] && [r2, r3][1..] == [r3] && [r3][1..] == [];
    assert SortRows([r3]) == [r3];
    assert Insert(r2, [r3]) == [r3, r2];
    assert Insert(r1, [r3, r2]) == [r1, r3, r2];
  }

  /**
   * A worked example: T1 beats T2 2:1, T1 and T3 draw 0:0, T2 v T3 is
   * unplayed. The table reads T1, T3, T2.
   */
  lemma ThreeTeamTable(d: Division)
    requires d.teamIds == ["T1", "T2", "T3"] && |d.matches| == 3
    requires ExampleMatches(d.matches[0], d.matches[1], d.matches[2])
    ensures Standings(d) == [Row("T1", 2, 1, 1, 0, 2, 1, 1, 4),
                             Row("T3", 1, 0, 1, 0, 0, 0, 0, 1),
                             Row("T2", 1, 0, 0, 1, 1, 2, -1, 0)]
  {
    var r1, r2, r3 := Row("T1", 2, 1, 1, 0, 2, 1, 1, 4), Row("T2", 1, 0, 0, 1, 1, 2, -1, 0), Row("T3", 1, 0, 1, 0, 0, 0, 0, 1);
    assert d.matches == [d.matches[0], d.matches[1], d.matches[2]];
    ExampleFold(d.teamIds, d.matches[0], d.matches[1], d.matches[2]);
    var F := Fold(Seed(d.teamIds), d.matches);
    var T := Tallied(d);
    assert T["T1"] == Settle(F["T1"]) && T["T2"] == Settle(F["T2"]) && T["T3"] == Settle(F["T3"]);
    assert Table(d.teamIds, T) == [r1, r2, r3];
    ExampleSort(r1, r2, r3);
  }
}
