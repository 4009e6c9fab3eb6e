/**
 * The team registry and the user list (src/utils/db.js:45-71, 120-196): the
 * records and their record-level updates.
 */
module Teams {
  import opened Wrappers
  import opened Ids
  import opened Seqs

  datatype User = User(email: string, role: string, name: string)

  /** `cardDocId` is `None` where the source stores `null`. */
  datatype Player = Player(id: Id, name: string, jersey: string, dob: string, cardDocId: Option<Id>)

  datatype Team = Team(id: Id, coachEmail: string, name: string, ageGroup: string, players: seq<Player>, createdAt: int)

  /** The `player` argument of `addPlayerToTeam`; an absent field is the empty string. */
  datatype PlayerInput = PlayerInput(name: string, jersey: string, dob: string, cardDocId: string)

  function UserKeys(users: seq<User>): (ks: seq<string>) {
    seq(|users|, i requires 0 <= i < |users| => users[i].email)
  }

  function TeamKeys(teams: seq<Team>): (ks: seq<Id>) {
    seq(|teams|, i requires 0 <= i < |teams| => teams[i].id)
  }

  function PlayerKeys(players: seq<Player>): (ks: seq<Id>) {
    seq(|players|, i requires 0 <= i < |players| => players[i].id)
  }

  /** The two demo identities the first run seeds (src/utils/db.js:23-32). */
  function SeedUsers(): (r: seq<User>)
    ensures NoDup(UserKeys(r))
  {
    [User("coach@example.com", "coach", "Coach Demo"),
     User("director@example.com", "director", "Director Demo")]
  }

  /** `email.split("@")[0]`: everything before the first "@", or the whole string. */
  function LocalPart(email: string): (r: string)
    ensures r <= email && '@' !in r
    ensures |r| < |email| ==> email[|r|] == '@'
  {
    if email == [] || email[0] == '@' then []
    else
      assert email == [email[0]] + email[1..];
      [email[0]] + LocalPart(email[1..])
  }

  /** The name `upsertUserRole` gives a new user: `email.split("@")[0] || "User"`. */
  function DefaultUserName(email: string): (r: string)
    ensures r != "" && (LocalPart(email) != "" ==> r == LocalPart(email))
  {
    if LocalPart(email) == "" then "User" else LocalPart(email)
  }

  /** ECMAScript WhiteSpace and LineTerminator code points, the ones `String.prototype.trim` removes. */
  const JsSpaces: set<char> := {
    '\t', '\n', '\U{B}', '\U{C}', '\r', ' ', '\U{A0}', '\U{1680}',
    '\U{2000}', '\U{2001}', '\U{2002}', '\U{2003}', '\U{2004}', '\U{2005}',
    '\U{2006}', '\U{2007}', '\U{2008}', '\U{2009}', '\U{200A}',
    '\U{2028}', '\U{2029}', '\U{202F}', '\U{205F}', '\U{3000}', '\U{FEFF}'}

  predicate IsJsSpace(c: char) {
    c in JsSpaces
  }

  /** How many white-space characters `s` starts with. */
  function SpacesBefore(s: string): (n: nat)
    ensures n <= |s|
    ensures forall k :: 0 <= k < n ==> IsJsSpace(s[k])
    ensures n == |s| || !IsJsSpace(s[n])
  {
    if s == [] || !IsJsSpace(s[0]) then 0 else 1 + SpacesBefore(s[1..])
  }

  /** How many white-space characters `s` ends with. */
  function SpacesAfter(s: string): (n: nat)
    ensures n <= |s|
    ensures forall k :: |s| - n <= k < |s| ==> IsJsSpace(s[k])
    ensures n == |s| || !IsJsSpace(s[|s| - n - 1])
  {
    if s == [] || !IsJsSpace(s[|s| - 1]) then 0
    else
      var n := SpacesAfter(s[..|s| - 1]);
      assert forall k :: |s| - 1 - n <= k < |s| - 1 ==> s[k] == s[..|s| - 1][k];
      1 + n
  }

  /**
   * `String.prototype.trim`: the slice of `s` between its leading and its
   * trailing white space. It neither starts nor ends with white space, and
   * every character of `s` outside it is white space.
   */
  function Trim(s: string): (r: string)
    ensures r == [] || (!IsJsSpace(r[0]) && !IsJsSpace(r[|r| - 1]))
    ensures SpacesBefore(s) + |r| <= |s| && r == s[SpacesBefore(s)..SpacesBefore(s) + |r|]
    ensures forall k :: 0 <= k < |s| && !(SpacesBefore(s) <= k < SpacesBefore(s) + |r|) ==> IsJsSpace(s[k])
  {
    var i := SpacesBefore(s);
    if i == |s| then []
    else
      var j := |s| - SpacesAfter(s);
      assert i < j;
      s[i..j]
  }

  /** The record `addPlayerToTeam` builds: the name trimmed, an empty card id stored as `null`. */
  function NewPlayer(id: Id, input: PlayerInput): (p: Player) {
    Player(id, Trim(input.name), input.jersey, input.dob, if input.cardDocId == "" then None else Some(input.cardDocId))
  }

  /** `addPlayerToTeam` on the record: the new player goes first. */
  function WithPlayer(t: Team, p: Player): (r: Team)
    ensures r == t.(players := r.players) && |r.players| == |t.players| + 1 && r.players[0] == p && r.players[1..] == t.players
  {
    t.(players := [p] + t.players)
  }

  /** `players.filter((p) => p.id !== playerId)`. */
  function DropPlayers(ps: seq<Player>, playerId: Id): (r: seq<Player>)
    ensures forall p :: p in r <==> p in ps && p.id != playerId
    ensures PlayerKeys(r) == Without(PlayerKeys(ps), playerId)
  {
    if ps == [] then []
    else
      assert ps == [ps[0]] + ps[1..];
      assert PlayerKeys(ps)[1..] == PlayerKeys(ps[1..]);
      var rest := DropPlayers(ps[1..], playerId);
      if ps[0].id != playerId then
        assert PlayerKeys([ps[0]] + rest) == [ps[0].id] + PlayerKeys(rest);
        [ps[0]] + rest
      else rest
  }

  /**
   * `removePlayerFromTeam` on the record: every player with that id leaves,
   * the others keep their order; no id is added and none comes to repeat.
   */
  function WithoutPlayer(t: Team, playerId: Id): (r: Team)
    ensures r == t.(players := r.players)
    ensures forall p :: p in r.players <==> p in t.players && p.id != playerId
    ensures PlayerKeys(r.players) == Without(PlayerKeys(t.players), playerId)
    ensures NoDup(PlayerKeys(t.players)) ==> NoDup(PlayerKeys(r.players))
  {
    WithoutNoDup(PlayerKeys(t.players), playerId);
    t.(players := DropPlayers(t.players, playerId))
  }

  /** `setPlayerCard` on the record: the players with that id get the document as their card. */
  function WithCard(t: Team, playerId: Id, documentId: Option<Id>): (r: Team)
    ensures r == t.(players := r.players) && |r.players| == |t.players|
    ensures PlayerKeys(r.players) == PlayerKeys(t.players)
    ensures forall i :: 0 <= i < |t.players| ==>
      r.players[i] == if t.players[i].id == playerId then t.players[i].(cardDocId := documentId) else t.players[i]
  {
    t.(players := seq(|t.players|, i requires 0 <= i < |t.players| =>
      if t.players[i].id == playerId then t.players[i].(cardDocId := documentId) else t.players[i]))
  }
}
