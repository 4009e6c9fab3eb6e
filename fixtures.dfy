/**
 * Round-robin fixture generation (`generateRoundRobin`, src/utils/db.js:340-363),
 * specified on positions: the outer loop variable `a` and the inner `b`
 * enumerate every pair of positions `a < b` of `teamIds`, row by row. The Db
 * store builds the list with the same nested loops and is proved to produce
 * `Fixtures(teamIds, first)`.
 */
module Fixtures {
  import opened Wrappers
  import opened Ids
  import opened Seqs
  import opened Divisions

  /** The pairs the inner loop visits for outer index `a`: `(a, a+1), …, (a, n-1)`. */
  function RowPairs(n: nat, a: nat): (r: seq<(nat, nat)>)
    requires a < n
    ensures forall p :: p in r ==> p.0 == a && a < p.1 < n
  {
    seq(n - a - 1, k requires 0 <= k < n - a - 1 => (a, a + 1 + k))
  }

  /** The pairs visited before the outer loop reaches `a`. */
  function PairsBefore(n: nat, a: nat): (r: seq<(nat, nat)>)
    requires a <= n
    ensures forall p :: p in r ==> p.0 < a && p.0 < p.1 < n
  {
    if a == 0 then [] else PairsBefore(n, a - 1) + RowPairs(n, a - 1)
  }

  /** The pairs visited when the inner loop is about to take `(a, b)`. */
  function Visited(n: nat, a: nat, b: nat): (r: seq<(nat, nat)>)
    requires a < n && a + 1 <= b <= n
    ensures forall p :: p in r ==> p.0 < n && p.1 < n
  {
    PairsBefore(n, a) + RowPairs(n, a)[..b - a - 1]
  }

  /** One inner turn visits `(a, b)`. */
  lemma VisitedStep(n: nat, a: nat, b: nat)
    requires a < n && a + 1 <= b < n
    ensures Visited(n, a, b + 1) == Visited(n, a, b) + [(a, b)]
  {
    assert RowPairs(n, a)[..b - a] == RowPairs(n, a)[..b - a - 1] + [(a, b)];
  }

  /** The inner loop starts where the earlier rows ended and ends where the next row starts. */
  lemma VisitedRow(n: nat, a: nat)
    requires a < n
    ensures Visited(n, a, a + 1) == PairsBefore(n, a)
    ensures Visited(n, a, n) == PairsBefore(n, a + 1)
  {
    assert RowPairs(n, a)[..n - a - 1] == RowPairs(n, a);
  }

  /** Every pair of positions the nested loops visit, in visiting order. */
  function IndexPairs(n: nat): (r: seq<(nat, nat)>)
    ensures forall p :: p in r ==> p.0 < p.1 < n
  {
    PairsBefore(n, n)
  }

  /** `(p, q)` comes before `(p', q')` in the order of the nested loops. */
  predicate LoopOrder(x: (nat, nat), y: (nat, nat)) {
    x.0 < y.0 || (x.0 == y.0 && x.1 < y.1)
  }

  /** The team pairs of the fixtures: `(teamIds[a], teamIds[b])` for each visited `(a, b)`. */
  function TeamPairs(t: seq<Id>): (r: seq<(Id, Id)>) {
    var ps := IndexPairs(|t|);
    seq(|ps|, k requires 0 <= k < |ps| => (t[ps[k].0], t[ps[k].1]))
  }

  /** A freshly generated match: no scores, no kickoff, empty field. */
  function NewFixture(id: Id, aTeamId: Id, bTeamId: Id): (m: Match) {
    Match(id, aTeamId, bTeamId, None, None, None, "")
  }

  /** Fixtures for the pairs `ps`; the k-th takes the k-th id handed out from `first` on. */
  function FixturesOf(t: seq<Id>, first: nat, ps: seq<(nat, nat)>): (ms: seq<Match>)
    requires forall p :: p in ps ==> p.0 < |t| && p.1 < |t|
  {
    seq(|ps|, k requires 0 <= k < |ps| => NewFixture(MintId(first + k), t[ps[k].0], t[ps[k].1]))
  }

  /** The whole list that replaces a division's `matches`. */
  function Fixtures(t: seq<Id>, first: nat): (ms: seq<Match>) {
    FixturesOf(t, first, IndexPairs(|t|))
  }

  /** `generateRoundRobin` on the record: only `matches` changes. */
  function WithFixtures(d: Division, first: nat): (r: Division) {
    d.(matches := Fixtures(d.teamIds, first))
  }

  lemma {:induction false} PairsBeforeLength(n: nat, a: nat)
    requires a <= n
    ensures 2 * |PairsBefore(n, a)| == a * (2 * n - a - 1)
  {
    if a > 0 {
      PairsBeforeLength(n, a - 1);
      assert |RowPairs(n, a - 1)| == n - a;
      calc {
        2 * |PairsBefore(n, a)|;
        2 * |PairsBefore(n, a - 1)| + 2 * (n - a);
        (a - 1) * (2 * n - a) + 2 * (n - a);
        { assert (a - 1) * (2 * n - a) == a * (2 * n - a) - (2 * n - a); }
        a * (2 * n - a) - a;
        a * (2 * n - a - 1);
      }
    }
  }

  /** For n teams there are exactly n*(n-1)/2 fixtures. */
  lemma RoundRobinCount(t: seq<Id>, first: nat)
    ensures |Fixtures(t, first)| == |t| * (|t| - 1) / 2
    ensures |TeamPairs(t)| == |Fixtures(t, first)|
  {
    PairsBeforeLength(|t|, |t|);
  }

  lemma {:induction false} PairsBeforeOrdered(n: nat, a: nat)
    requires a <= n
    ensures forall i, j :: 0 <= i < j < |PairsBefore(n, a)| ==> LoopOrder(PairsBefore(n, a)[i], PairsBefore(n, a)[j])
  {
    if a > 0 {
      PairsBeforeOrdered(n, a - 1);
      var front, row := PairsBefore(n, a - 1), RowPairs(n, a - 1);
      var r := PairsBefore(n, a);
      assert r == front + row;
      forall i, j | 0 <= i < j < |r| ensures LoopOrder(r[i], r[j]) {
        if j < |front| {
          assert r[i] == front[i] && r[j] == front[j];
        } else if i < |front| {
          assert r[i] == front[i] && r[i] in front;
          assert r[j] == row[j - |front|];
        } else {
          assert r[i] == row[i - |front|] && r[j] == row[j - |front|];
        }
      }
    }
  }

  lemma {:induction false} PairsBeforeComplete(n: nat, a: nat)
    requires a <= n
    ensures forall i, j :: 0 <= i < a && i < j < n ==> (i, j) in PairsBefore(n, a)
  {
    if a > 0 {
      PairsBeforeComplete(n, a - 1);
      forall i, j | 0 <= i < a && i < j < n ensures (i, j) in PairsBefore(n, a) {
        if i == a - 1 {
          assert RowPairs(n, a - 1)[j - a] == (i, j);
        } else {
          assert (i, j) in PairsBefore(n, a - 1);
        }
      }
    }
  }

  /**
   * The fixtures come in the order of the nested loops (strictly increasing
   * `(a, b)`), and every pair of positions `a < b` is among them.
   */
  lemma RoundRobinLoopOrder(n: nat)
    ensures forall i, j :: 0 <= i < j < |IndexPairs(n)| ==> LoopOrder(IndexPairs(n)[i], IndexPairs(n)[j])
    ensures forall a, b :: 0 <= a < b < n ==> (a, b) in IndexPairs(n)
  {
    PairsBeforeOrdered(n, n);
    PairsBeforeComplete(n, n);
  }

  /**
   * For a roster without repeats: no team is paired with itself, each pair of
   * teams meets exactly once, and it is listed with the earlier-added team as
   * the `a` side.
   */
  lemma RoundRobinPairsExactlyOnce(t: seq<Id>)
    requires NoDup(t)
    ensures forall p :: p in TeamPairs(t) ==> p.0 != p.1
    ensures NoDup(TeamPairs(t))
    ensures forall i, j :: 0 <= i < j < |t| ==> (t[i], t[j]) in TeamPairs(t) && (t[j], t[i]) !in TeamPairs(t)
  {
    var ps := IndexPairs(|t|);
    var tp := TeamPairs(t);
    RoundRobinLoopOrder(|t|);
    forall p | p in tp ensures p.0 != p.1 {
      var k :| 0 <= k < |tp| && tp[k] == p;
      assert ps[k] in ps;
    }
    forall x, y | 0 <= x < y < |tp| ensures tp[x] != tp[y] {
      assert ps[x] in ps && ps[y] in ps;
      assert LoopOrder(ps[x], ps[y]);
    }
    forall i, j | 0 <= i < j < |t| ensures (t[i], t[j]) in tp && (t[j], t[i]) !in tp {
      assert (i, j) in ps;
      var k :| 0 <= k < |ps| && ps[k] == (i, j);
      assert tp[k] == (t[i], t[j]);
      forall k' | 0 <= k' < |tp| ensures tp[k'] != (t[j], t[i]) {
        assert ps[k'] in ps;
      }
    }
  }

  /**
   * Each generated match pairs the teams of `TeamPairs` at its position and
   * starts with both scores `null`, an empty field and no kickoff.
   */
  lemma RoundRobinShape(t: seq<Id>, first: nat)
    ensures |Fixtures(t, first)| == |TeamPairs(t)|
    ensures forall k :: 0 <= k < |Fixtures(t, first)| ==>
      var m := Fixtures(t, first)[k];
      && (m.aTeamId, m.bTeamId) == TeamPairs(t)[k]
      && m.aScore.None? && m.bScore.None? && m.kickoffAt.None? && m.field == ""
      && m.id == MintId(first + k)
  {
  }

  /** Pushing the fixture for one more pair extends the list by that fixture, with the next id. */
  lemma FixturesOfSnoc(t: seq<Id>, first: nat, ps: seq<(nat, nat)>, p: (nat, nat))
    requires forall q :: q in ps ==> q.0 < |t| && q.1 < |t|
    requires p.0 < |t| && p.1 < |t|
    ensures FixturesOf(t, first, ps + [p]) == FixturesOf(t, first, ps) + [NewFixture(MintId(first + |ps|), t[p.0], t[p.1])]
  {
  }

  /** One `push` of the inner loop, with the id drawn for it. */
  lemma PushFixture(t: seq<Id>, first: nat, a: nat, b: nat, ms: seq<Match>, id: Id)
    requires a < |t| && a + 1 <= b < |t|
    requires ms == FixturesOf(t, first, Visited(|t|, a, b)) && id == MintId(first + |ms|)
    ensures ms + [NewFixture(id, t[a], t[b])] == FixturesOf(t, first, Visited(|t|, a, b + 1))
    ensures MatchKeys(ms + [NewFixture(id, t[a], t[b])]) == MatchKeys(ms) + [id]
  {
    VisitedStep(|t|, a, b);
    FixturesOfSnoc(t, first, Visited(|t|, a, b), (a, b));
    MatchKeysSnoc(ms, NewFixture(id, t[a], t[b]));
  }

  /** The generated matches have pairwise different ids. */
  lemma FixtureIdsDistinct(t: seq<Id>, first: nat, ps: seq<(nat, nat)>)
    requires forall p :: p in ps ==> p.0 < |t| && p.1 < |t|
    ensures NoDup(MatchKeys(FixturesOf(t, first, ps)))
  {
    var ks := MatchKeys(FixturesOf(t, first, ps));
    forall i, j | 0 <= i < j < |ks| ensures ks[i] != ks[j] {
      if ks[i] == ks[j] { MintIdInjective(first + i, first + j); }
    }
  }

  /** Three teams give exactly T1 v T2, T1 v T3, T2 v T3, in that order. */
  lemma ThreeTeamExample()
    ensures TeamPairs(["T1", "T2", "T3"]) == [("T1", "T2"), ("T1", "T3"), ("T2", "T3")]
  {
    assert PairsBefore(3, 1) == [(0, 1), (0, 2)];
    assert PairsBefore(3, 2) == [(0, 1), (0, 2), (1, 2)];
    assert IndexPairs(3) == [(0, 1), (0, 2), (1, 2)];
  }
}
