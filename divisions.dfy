/**
 * Divisions and their matches (src/utils/db.js:294-424): the records, and the
 * record-level effect of each division mutator. The store in Db applies these
 * to the one division it locates by id.
 */
module Divisions {
  import opened Wrappers
  import opened Ids
  import opened Seqs

  /** One fixture. A score or a kickoff of `None` is JavaScript's `null` (unset / TBD). */
  datatype Match = Match(
    id: Id,
    aTeamId: Id,
    bTeamId: Id,
    aScore: Option<int>,
    bScore: Option<int>,
    kickoffAt: Option<string>,
    field: string)

  /** A tier+pool grouping of teams inside one tournament, with its fixture list. */
  datatype Division = Division(
    id: Id,
    tournamentId: Id,
    name: string,
    tier: string,
    pool: string,
    teamIds: seq<Id>,
    matches: seq<Match>,
    createdAt: int,
    published: bool)

  function DivisionKeys(ds: seq<Division>): (ks: seq<Id>) {
    seq(|ds|, i requires 0 <= i < |ds| => ds[i].id)
  }

  function MatchKeys(ms: seq<Match>): (ks: seq<Id>) {
    seq(|ms|, i requires 0 <= i < |ms| => ms[i].id)
  }

  lemma MatchKeysSnoc(ms: seq<Match>, m: Match)
    ensures MatchKeys(ms + [m]) == MatchKeys(ms) + [m.id]
  {
  }

  /**
   * The name `createDivision` makes up when none is given: `${tier || "Tier"}`,
   * a separator, `Pool ${pool || "-"}`. The separator is written in db.js as
   * the three characters U+00E2 U+20AC U+00A2 (a bullet that was encoded twice).
   */
  function DefaultName(tier: string, pool: string): (r: string) {
    (if tier == "" then "Tier" else tier) + " \U{E2}\U{20AC}\U{A2} Pool " + (if pool == "" then "-" else pool)
  }

  /** The record `createDivision` builds; empty strings stand for JavaScript's falsy arguments. */
  function NewDivision(id: Id, tournamentId: Id, name: string, tier: string, pool: string, createdAt: int): (r: Division)
    ensures r.name != "" && (name != "" ==> r.name == name)
    ensures r.teamIds == [] && r.matches == [] && !r.published
  {
    Division(id, tournamentId, if name == "" then DefaultName(tier, pool) else name,
             tier, pool, [], [], createdAt, false)
  }

  /**
   * `addTeamToDivision` on the record: a team not yet present is appended at
   * the end, a present one changes nothing.
   */
  function WithTeam(d: Division, teamId: Id): (r: Division)
    ensures r == d.(teamIds := r.teamIds)
    ensures teamId in r.teamIds
    ensures d.teamIds <= r.teamIds && |r.teamIds| <= |d.teamIds| + 1
    ensures teamId in d.teamIds ==> r == d
    ensures teamId !in d.teamIds ==> r.teamIds[|r.teamIds| - 1] == teamId
    ensures NoDup(d.teamIds) ==> NoDup(r.teamIds)
  {
    if teamId in d.teamIds then d else d.(teamIds := d.teamIds + [teamId])
  }

  lemma WithTeamIdempotent(d: Division, teamId: Id)
    ensures WithTeam(WithTeam(d, teamId), teamId) == WithTeam(d, teamId)
  {
  }

  /**
   * `removeTeamFromDivision` on the record: every occurrence of the team
   * leaves `teamIds`; the matches, including those that name the team, stay.
   */
  function WithoutTeam(d: Division, teamId: Id): (r: Division)
    ensures r == d.(teamIds := r.teamIds)
    ensures forall x :: x in r.teamIds <==> x in d.teamIds && x != teamId
    ensures forall x :: x != teamId ==> multiset(r.teamIds)[x] == multiset(d.teamIds)[x]
    ensures NoDup(d.teamIds) ==> NoDup(r.teamIds)
  {
    WithoutNoDup(d.teamIds, teamId);
    d.(teamIds := Without(d.teamIds, teamId))
  }

  /** With no repeats, removing a team closes the gap and keeps the others in order. */
  lemma WithoutTeamKeepsOrder(d: Division, teamId: Id, i: nat)
    requires NoDup(d.teamIds) && i < |d.teamIds| && d.teamIds[i] == teamId
    ensures WithoutTeam(d, teamId).teamIds == d.teamIds[..i] + d.teamIds[i + 1..]
  {
    WithoutOne(d.teamIds, teamId, i);
  }

  lemma WithoutAbsentTeam(d: Division, teamId: Id)
    requires teamId !in d.teamIds
    ensures WithoutTeam(d, teamId) == d
  {
    WithoutAbsent(d.teamIds, teamId);
  }

  /** `setDivisionPublished` on the record. */
  function WithPublished(d: Division, published: bool): (r: Division)
    ensures r.published == published && r == d.(published := r.published)
  {
    d.(published := published)
  }

  /**
   * The `matches.map` of `setMatchScore`: every match whose id is `matchId`
   * gets both scores; every other match is left as it was.
   */
  function ScoreMatches(ms: seq<Match>, matchId: Id, aScore: Option<int>, bScore: Option<int>): (r: seq<Match>)
    ensures |r| == |ms| && MatchKeys(r) == MatchKeys(ms)
    ensures forall i :: 0 <= i < |ms| && ms[i].id != matchId ==> r[i] == ms[i]
    ensures forall i :: 0 <= i < |ms| && ms[i].id == matchId ==>
      r[i].aScore == aScore && r[i].bScore == bScore && r[i] == ms[i].(aScore := aScore, bScore := bScore)
  {
    seq(|ms|, i requires 0 <= i < |ms| =>
      if ms[i].id == matchId then ms[i].(aScore := aScore, bScore := bScore) else ms[i])
  }

  /**
   * The `matches.map` of `setMatchDetails`: `field ?? m.field` and
   * `kickoffAt ?? m.kickoffAt` on every match whose id is `matchId`. A `None`
   * (null or omitted) keeps the old value.
   */
  function DetailMatches(ms: seq<Match>, matchId: Id, field: Option<string>, kickoffAt: Option<string>): (r: seq<Match>)
    ensures |r| == |ms| && MatchKeys(r) == MatchKeys(ms)
    ensures forall i :: 0 <= i < |ms| && ms[i].id != matchId ==> r[i] == ms[i]
    ensures forall i :: 0 <= i < |ms| && ms[i].id == matchId ==>
      && r[i] == ms[i].(field := r[i].field, kickoffAt := r[i].kickoffAt)
      && (field.Some? ==> r[i].field == field.value)
      && (field.None? ==> r[i].field == ms[i].field)
      && (kickoffAt.Some? ==> r[i].kickoffAt == kickoffAt)
      && (kickoffAt.None? ==> r[i].kickoffAt == ms[i].kickoffAt)
  {
    seq(|ms|, i requires 0 <= i < |ms| =>
      if ms[i].id == matchId
      then ms[i].(field := field.GetOr(ms[i].field),
                  kickoffAt := if kickoffAt.Some? then kickoffAt else ms[i].kickoffAt)
      else ms[i])
  }

  /**
   * Passing `null` for `kickoffAt` cannot clear a scheduled kickoff: the
   * match keeps the time it had (the `??` at src/utils/db.js:416).
   */
  lemma NullKickoffKeepsTime(ms: seq<Match>, matchId: Id, field: Option<string>, i: nat)
    requires i < |ms| && ms[i].kickoffAt.Some?
    ensures DetailMatches(ms, matchId, field, None)[i].kickoffAt == ms[i].kickoffAt
  {
  }

  /** When match ids are distinct, an edit by id changes at most the one match with that id. */
  lemma EditTouchesOneMatch(ms: seq<Match>, matchId: Id, j: nat, aScore: Option<int>, bScore: Option<int>,
                            field: Option<string>, kickoffAt: Option<string>)
    requires NoDup(MatchKeys(ms)) && j < |ms| && ms[j].id == matchId
    ensures forall i :: 0 <= i < |ms| && i != j ==> ScoreMatches(ms, matchId, aScore, bScore)[i] == ms[i]
    ensures forall i :: 0 <= i < |ms| && i != j ==> DetailMatches(ms, matchId, field, kickoffAt)[i] == ms[i]
  {
    forall i | 0 <= i < |ms| && i != j ensures ms[i].id != matchId {
      assert MatchKeys(ms)[i] == ms[i].id && MatchKeys(ms)[j] == ms[j].id;
    }
  }
}
