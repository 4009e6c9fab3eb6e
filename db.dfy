/**
 * The localStorage-backed store of src/utils/db.js as one object. Each
 * storage key the core reads and writes becomes a field of `Store`; every
 * exported function becomes a method that updates those fields, or a function
 * reading them. Ids come from a counter (`serial`), which stands in for
 * `crypto.randomUUID`; the ghost set `issued` records every id handed out.
 */
module Db {
  import opened Wrappers
  import opened Ids
  import opened Seqs
  import opened Teams
  import opened Applications
  import opened Divisions
  import opened Fixtures
  import opened Standings

  /** Every key in `ks` has been handed out. */
  ghost predicate Issued(ks: seq<Id>, issued: set<Id>) {
    forall k :: k in ks ==> k in issued
  }

  ghost predicate TeamValid(t: Team, issued: set<Id>) {
    NoDup(PlayerKeys(t.players)) && Issued(PlayerKeys(t.players), issued)
  }

  ghost predicate TeamsValid(ts: seq<Team>, issued: set<Id>) {
    && NoDup(TeamKeys(ts)) && Issued(TeamKeys(ts), issued)
    && forall j :: 0 <= j < |ts| ==> TeamValid(ts[j], issued)
  }

  ghost predicate AppsValid(apps: seq<Application>, issued: set<Id>) {
    NoDup(AppKeys(apps)) && Issued(AppKeys(apps), issued)
  }

  ghost predicate DivisionValid(d: Division) {
    NoDup(d.teamIds) && NoDup(MatchKeys(d.matches))
  }

  ghost predicate DivisionsValid(ds: seq<Division>, issued: set<Id>) {
    && NoDup(DivisionKeys(ds)) && Issued(DivisionKeys(ds), issued)
    && forall j :: 0 <= j < |ds| ==> DivisionValid(ds[j])
  }

  lemma ConsNoDup<T>(x: T, s: seq<T>)
    requires NoDup(s) && x !in s
    ensures NoDup([x] + s)
  {
    var xs := [x] + s;
    forall i, j | 0 <= i < j < |xs| ensures xs[i] != xs[j] {
      assert xs[j] == s[j - 1];
      if i > 0 { assert xs[i] == s[i - 1]; }
    }
  }

  lemma SnocNoDup<T>(s: seq<T>, x: T)
    requires NoDup(s) && x !in s
    ensures NoDup(s + [x])
  {
  }

  lemma RecordsGrow(ts: seq<Team>, apps: seq<Application>, ds: seq<Division>, issued: set<Id>, more: set<Id>)
    requires TeamsValid(ts, issued) && AppsValid(apps, issued) && DivisionsValid(ds, issued)
    ensures TeamsValid(ts, issued + more) && AppsValid(apps, issued + more) && DivisionsValid(ds, issued + more)
  {
  }

  lemma TeamsReplace(ts: seq<Team>, issued: set<Id>, i: nat, t: Team)
    requires TeamsValid(ts, issued) && i < |ts| && t.id == ts[i].id && TeamValid(t, issued)
    ensures TeamsValid(ts[i := t], issued)
  {
    assert TeamKeys(ts[i := t]) == TeamKeys(ts);
  }

  lemma TeamsPrepend(ts: seq<Team>, issued: set<Id>, t: Team)
    requires TeamsValid(ts, issued) && t.id in issued && t.id !in TeamKeys(ts) && TeamValid(t, issued)
    ensures TeamsValid([t] + ts, issued)
  {
    assert TeamKeys([t] + ts) == [t.id] + TeamKeys(ts);
    ConsNoDup(t.id, TeamKeys(ts));
    forall j | 0 <= j < |[t] + ts| ensures TeamValid(([t] + ts)[j], issued) {
      if j > 0 { assert ([t] + ts)[j] == ts[j - 1]; }
    }
  }

  lemma AppsReplace(apps: seq<Application>, issued: set<Id>, i: nat, a: Application)
    requires AppsValid(apps, issued) && i < |apps| && a.id == apps[i].id
    ensures AppsValid(apps[i := a], issued)
  {
    assert AppKeys(apps[i := a]) == AppKeys(apps);
  }

  lemma AppsPrepend(apps: seq<Application>, issued: set<Id>, a: Application)
    requires AppsValid(apps, issued) && a.id in issued && a.id !in AppKeys(apps)
    ensures AppsValid([a] + apps, issued)
  {
    assert AppKeys([a] + apps) == [a.id] + AppKeys(apps);
    ConsNoDup(a.id, AppKeys(apps));
  }

  lemma DivisionsReplace(ds: seq<Division>, issued: set<Id>, i: nat, d: Division)
    requires DivisionsValid(ds, issued) && i < |ds| && d.id == ds[i].id && DivisionValid(d)
    ensures DivisionsValid(ds[i := d], issued)
  {
    assert DivisionKeys(ds[i := d]) == DivisionKeys(ds);
  }

  lemma DivisionsPrepend(ds: seq<Division>, issued: set<Id>, d: Division)
    requires DivisionsValid(ds, issued) && d.id in issued && d.id !in DivisionKeys(ds) && DivisionValid(d)
    ensures DivisionsValid([d] + ds, issued)
  {
    assert DivisionKeys([d] + ds) == [d.id] + DivisionKeys(ds);
    ConsNoDup(d.id, DivisionKeys(ds));
    forall j | 0 <= j < |[d] + ds| ensures DivisionValid(([d] + ds)[j]) {
      if j > 0 { assert ([d] + ds)[j] == ds[j - 1]; }
    }
  }

  /** A fold over matches none of which has a score leaves every row as it was. */
  lemma {:induction false} FoldUnscored(S: map<Id, Row>, ms: seq<Match>)
    requires forall m :: m in ms ==> m.aScore.None?
    ensures Fold(S, ms) == S
    decreases |ms|
  {
    if ms != [] {
      assert forall m :: m in ms[..|ms| - 1] ==> m in ms;
      FoldUnscored(S, ms[..|ms| - 1]);
      assert ms[|ms| - 1] in ms;
    }
  }

  /**
   * Regenerating a division's fixtures discards every score: its standings
   * table afterwards holds only zero rows.
   */
  lemma RegeneratedTableIsBlank(d: Division, first: nat)
    ensures forall r :: r in Standings.Standings(WithFixtures(d, first)) ==> r == ZeroRow(r.teamId)
  {
    var d2 := WithFixtures(d, first);
    FoldUnscored(Seed(d.teamIds), d2.matches);
    var t := Table(d2.teamIds, Tallied(d2));
    forall k | 0 <= k < |t| ensures t[k] == ZeroRow(t[k].teamId) {
      assert t[k] == Settle(Seed(d.teamIds)[d.teamIds[k]]);
    }
    SortedFrom(t);
  }

  class Store {
    /** `tm_users` */
    var users: seq<User>
    /** `tm_teams`, newest first */
    var teams: seq<Team>
    /** `tm_applications`, newest first */
    var applications: seq<Application>
    /** `tm_brackets`, newest first */
    var divisions: seq<Division>
    /** How many ids have been handed out. */
    var serial: nat
    ghost var issued: set<Id>

    /**
     * The store's invariant: every id handed out so far is below the counter,
     * so the next one is fresh; users are keyed by email; the ids of teams,
     * players, applications and divisions are distinct and handed out; a
     * division lists each team and each match id at most once.
     */
    ghost predicate Valid()
      reads this
    {
      && (forall k: nat :: MintId(k) in issued ==> k < serial)
      && NoDup(UserKeys(users))
      && TeamsValid(teams, issued)
      && AppsValid(applications, issued)
      && DivisionsValid(divisions, issued)
    }

    /** A first run: empty collections, and the two demo users seeded by `init`. */
    constructor ()
      ensures Valid()
      ensures users == SeedUsers() && teams == [] && applications == [] && divisions == []
      ensures serial == 0 && issued == {}
    {
      users := SeedUsers();
      teams := [];
      applications := [];
      divisions := [];
      serial := 0;
      issued := {};
    }

    /** `generateId`: a fresh id, different from every id handed out before. */
    method NewId() returns (id: Id)
      requires Valid()
      modifies this`serial, this`issued
      ensures Valid()
      ensures id == MintId(old(serial)) && id !in old(issued)
      ensures serial == old(serial) + 1 && issued == old(issued) + {id}
    {
      id := MintId(serial);
      RecordsGrow(teams, applications, divisions, issued, {id});
      issued := issued + {id};
      serial := serial + 1;
      forall k: nat | MintId(k) in issued ensures k < serial {
        if MintId(k) == id { MintIdInjective(k, serial - 1); }
      }
    }

    // ---- users ----

    /**
     * `ensureUser`: an empty email is refused; a new email is appended with
     * the given role and name ("parent" and "User" when omitted); a known one
     * changes nothing.
     */
    method EnsureUser(email: string, role: Option<string>, name: Option<string>) returns (r: Option<string>)
      requires Valid()
      modifies this`users
      ensures Valid()
      ensures email == "" ==> r.None? && users == old(users)
      ensures email != "" ==> r == Some(email)
      ensures email != "" && email in UserKeys(old(users)) ==> users == old(users)
      ensures email != "" && email !in UserKeys(old(users)) ==>
        users == old(users) + [User(email, role.GetOr("parent"), name.GetOr("User"))]
    {
      if email == "" { return None; }
      if FirstIndex(UserKeys(users), email).None? {
        var u := User(email, role.GetOr("parent"), name.GetOr("User"));
        assert UserKeys(users + [u]) == UserKeys(users) + [email];
        SnocNoDup(UserKeys(users), email);
        users := users + [u];
      }
      r := Some(email);
    }

    /**
     * `upsertUserRole`: the user with that email gets the role; an unknown
     * email is appended with the part before "@" as name.
     */
    method UpsertUserRole(email: string, role: string)
      requires Valid()
      modifies this`users
      ensures Valid()
      ensures email == "" ==> users == old(users)
      ensures email != "" ==> match FirstIndex(UserKeys(old(users)), email)
        case Some(i) => users == old(users)[i := old(users)[i].(role := role)]
        case None => users == old(users) + [User(email, role, DefaultUserName(email))]
    {
      if email == "" { return; }
      match FirstIndex(UserKeys(users), email)
      case Some(i) =>
        assert UserKeys(users[i := users[i].(role := role)]) == UserKeys(users);
        users := users[i := users[i].(role := role)];
      case None =>
        var u := User(email, role, DefaultUserName(email));
        assert UserKeys(users + [u]) == UserKeys(users) + [email];
        SnocNoDup(UserKeys(users), email);
        users := users + [u];
    }

    /** `listUsersByRole`: the users holding `role`, in stored order. */
    function ListUsersByRole(role: string): (r: seq<User>)
      reads this
      ensures forall u :: u in r <==> u in users && u.role == role
      ensures |r| <= |users|
    {
      Filter(users, (u: User) => u.role == role)
    }

    // ---- teams ----

    /** `createTeam`: a new team with a fresh id and no players goes first. */
    method CreateTeam(coachEmail: string, name: string, ageGroup: string, now: int) returns (t: Team)
      requires Valid()
      modifies this`teams, this`serial, this`issued
      ensures Valid()
      ensures t == Team(MintId(old(serial)), coachEmail, name, ageGroup, [], now)
      ensures t.id !in TeamKeys(old(teams))
      ensures teams == [t] + old(teams) && serial == old(serial) + 1 && issued == old(issued) + {t.id}
    {
      var id := NewId();
      t := Team(id, coachEmail, name, ageGroup, [], now);
      TeamsPrepend(teams, issued, t);
      teams := [t] + teams;
    }

    /** `listTeamsByCoach`: the teams owned by `coachEmail`, in stored order. */
    function ListTeamsByCoach(coachEmail: string): (r: seq<Team>)
      reads this
      ensures forall t :: t in r <==> t in teams && t.coachEmail == coachEmail
      ensures |r| <= |teams|
    {
      Filter(teams, (t: Team) => t.coachEmail == coachEmail)
    }

    /** `renameTeam`: the team with that id gets the name; an unknown id changes nothing. */
    method RenameTeam(teamId: Id, name: string)
      requires Valid()
      modifies this`teams
      ensures Valid()
      ensures match FirstIndex(TeamKeys(old(teams)), teamId)
        case None => teams == old(teams)
        case Some(i) => teams == old(teams)[i := old(teams)[i].(name := name)]
    {
      match FirstIndex(TeamKeys(teams), teamId)
      case None =>
      case Some(i) =>
        TeamsReplace(teams, issued, i, teams[i].(name := name));
        teams := teams[i := teams[i].(name := name)];
    }

    /**
     * `addPlayerToTeam`: for a known team, a player with a fresh id and the
     * trimmed name is put first and returned; for an unknown one nothing
     * changes (no id is drawn either) and the answer is `None`.
     */
    method AddPlayerToTeam(teamId: Id, input: PlayerInput) returns (p: Option<Player>)
      requires Valid()
      modifies this`teams, this`serial, this`issued
      ensures Valid()
      ensures match FirstIndex(TeamKeys(old(teams)), teamId)
        case None => p.None? && teams == old(teams) && serial == old(serial) && issued == old(issued)
        case Some(i) =>
          && p == Some(NewPlayer(MintId(old(serial)), input))
          && teams == old(teams)[i := WithPlayer(old(teams)[i], p.value)]
          && serial == old(serial) + 1 && issued == old(issued) + {p.value.id}
    {
      match FirstIndex(TeamKeys(teams), teamId)
      case None => p := None;
      case Some(i) =>
        var id := NewId();
        var player := NewPlayer(id, input);
        var t := WithPlayer(teams[i], player);
        assert id !in PlayerKeys(teams[i].players);
        assert PlayerKeys(t.players) == [id] + PlayerKeys(teams[i].players);
        ConsNoDup(id, PlayerKeys(teams[i].players));
        TeamsReplace(teams, issued, i, t);
        teams := teams[i := t];
        p := Some(player);
    }

    /** `removePlayerFromTeam`: the team loses every player with that id. */
    method RemovePlayerFromTeam(teamId: Id, playerId: Id)
      requires Valid()
      modifies this`teams
      ensures Valid()
      ensures match FirstIndex(TeamKeys(old(teams)), teamId)
        case None => teams == old(teams)
        case Some(i) => teams == old(teams)[i := WithoutPlayer(old(teams)[i], playerId)]
    {
      match FirstIndex(TeamKeys(teams), teamId)
      case None =>
      case Some(i) =>
        var t := WithoutPlayer(teams[i], playerId);
        TeamsReplace(teams, issued, i, t);
        teams := teams[i := t];
    }

    /** `setPlayerCard`: the players with that id on that team get the document as card. */
    method SetPlayerCard(teamId: Id, playerId: Id, documentId: Option<Id>)
      requires Valid()
      modifies this`teams
      ensures Valid()
      ensures match FirstIndex(TeamKeys(old(teams)), teamId)
        case None => teams == old(teams)
        case Some(i) => teams == old(teams)[i := WithCard(old(teams)[i], playerId, documentId)]
    {
      match FirstIndex(TeamKeys(teams), teamId)
      case None =>
      case Some(i) =>
        var t := WithCard(teams[i], playerId, documentId);
        TeamsReplace(teams, issued, i, t);
        teams := teams[i := t];
    }

    /** `getTeamById`: the first team with that id, `None` (null) when there is none. */
    function GetTeamById(teamId: Id): (r: Option<Team>)
      reads this
      ensures r.None? <==> teamId !in TeamKeys(teams)
      ensures r.Some? ==> r.value in teams && r.value.id == teamId
      ensures r.Some? ==> exists i :: 0 <= i < |teams| && teams[i] == r.value && teamId !in TeamKeys(teams)[..i]
    {
      match FirstIndex(TeamKeys(teams), teamId)
      case None => None
      case Some(i) => Some(teams[i])
    }

    // ---- applications ----

    /** `submitApplication`: a pending application with a fresh id goes first. */
    method SubmitApplication(tournamentId: Id, teamId: Id, coachEmail: string, tier: string,
                             poolPref: string, now: int) returns (app: Application)
      requires Valid()
      modifies this`applications, this`serial, this`issued
      ensures Valid()
      ensures app == NewApplication(MintId(old(serial)), tournamentId, teamId, coachEmail, tier, poolPref, now)
      ensures app.status == Pending && app.id !in AppKeys(old(applications))
      ensures applications == [app] + old(applications) && serial == old(serial) + 1 && issued == old(issued) + {app.id}
    {
      var id := NewId();
      app := NewApplication(id, tournamentId, teamId, coachEmail, tier, poolPref, now);
      AppsPrepend(applications, issued, app);
      applications := [app] + applications;
    }

    /** `listApplicationsByCoach` */
    function ListApplicationsByCoach(coachEmail: string): (r: seq<Application>)
      reads this
      ensures forall a :: a in r <==> a in applications && a.coachEmail == coachEmail
      ensures |r| <= |applications|
    {
      Filter(applications, (a: Application) => a.coachEmail == coachEmail)
    }

    /** `listApplicationsByTournament` */
    function ListApplicationsByTournament(tournamentId: Id): (r: seq<Application>)
      reads this
      ensures forall a :: a in r <==> a in applications && a.tournamentId == tournamentId
      ensures |r| <= |applications|
    {
      Filter(applications, (a: Application) => a.tournamentId == tournamentId)
    }

    /** `approveApplication`: the application is approved and returned; an unknown id gives `None`. */
    method ApproveApplication(appId: Id, pool: Option<string>) returns (r: Option<Application>)
      requires Valid()
      modifies this`applications
      ensures Valid()
      ensures match FirstIndex(AppKeys(old(applications)), appId)
        case None => r.None? && applications == old(applications)
        case Some(i) =>
          && applications == old(applications)[i := Approve(old(applications)[i], pool)]
          && r == Some(applications[i])
    {
      match FirstIndex(AppKeys(applications), appId)
      case None => r := None;
      case Some(i) =>
        AppsReplace(applications, issued, i, Approve(applications[i], pool));
        applications := applications[i := Approve(applications[i], pool)];
        r := Some(applications[i]);
    }

    /** `rejectApplication`: the application is rejected with the reason, `""` when none is given, and returned. */
    method RejectApplication(appId: Id, reason: Option<string>) returns (r: Option<Application>)
      requires Valid()
      modifies this`applications
      ensures Valid()
      ensures match FirstIndex(AppKeys(old(applications)), appId)
        case None => r.None? && applications == old(applications)
        case Some(i) =>
          && applications == old(applications)[i := Reject(old(applications)[i], reason.GetOr(""))]
          && r == Some(applications[i])
    {
      match FirstIndex(AppKeys(applications), appId)
      case None => r := None;
      case Some(i) =>
        AppsReplace(applications, issued, i, Reject(applications[i], reason.GetOr("")));
        applications := applications[i := Reject(applications[i], reason.GetOr(""))];
        r := Some(applications[i]);
    }

    /** `updateApplicationAssignment`: the patch is merged into the assignment; status is untouched. */
    method UpdateApplicationAssignment(appId: Id, patch: AssignmentPatch) returns (r: Option<Application>)
      requires Valid()
      modifies this`applications
      ensures Valid()
      ensures match FirstIndex(AppKeys(old(applications)), appId)
        case None => r.None? && applications == old(applications)
        case Some(i) =>
          && applications == old(applications)[i := Reassign(old(applications)[i], patch)]
          && r == Some(applications[i])
    {
      match FirstIndex(AppKeys(applications), appId)
      case None => r := None;
      case Some(i) =>
        AppsReplace(applications, issued, i, Reassign(applications[i], patch));
        applications := applications[i := Reassign(applications[i], patch)];
        r := Some(applications[i]);
    }

    // ---- divisions ----

    /** `createDivision`: a new unpublished division with a fresh id and no teams goes first. */
    method CreateDivision(tournamentId: Id, name: string, tier: string, pool: string, now: int) returns (d: Division)
      requires Valid()
      modifies this`divisions, this`serial, this`issued
      ensures Valid()
      ensures d == NewDivision(MintId(old(serial)), tournamentId, name, tier, pool, now)
      ensures d.id !in DivisionKeys(old(divisions))
      ensures divisions == [d] + old(divisions) && serial == old(serial) + 1 && issued == old(issued) + {d.id}
    {
      var id := NewId();
      d := NewDivision(id, tournamentId, name, tier, pool, now);
      DivisionsPrepend(divisions, issued, d);
      divisions := [d] + divisions;
    }

    /** `listDivisionsByTournament` */
    function ListDivisionsByTournament(tournamentId: Id): (r: seq<Division>)
      reads this
      ensures forall d :: d in r <==> d in divisions && d.tournamentId == tournamentId
      ensures |r| <= |divisions|
    {
      Filter(divisions, (d: Division) => d.tournamentId == tournamentId)
    }

    /** `addTeamToDivision`: the team is appended unless already present; the division is returned. */
    method AddTeamToDivision(divisionId: Id, teamId: Id) returns (r: Option<Division>)
      requires Valid()
      modifies this`divisions
      ensures Valid()
      ensures match FirstIndex(DivisionKeys(old(divisions)), divisionId)
        case None => r.None? && divisions == old(divisions)
        case Some(i) =>
          && divisions == old(divisions)[i := WithTeam(old(divisions)[i], teamId)]
          && r == Some(divisions[i])
    {
      match FirstIndex(DivisionKeys(divisions), divisionId)
      case None => r := None;
      case Some(i) =>
        DivisionsReplace(divisions, issued, i, WithTeam(divisions[i], teamId));
        divisions := divisions[i := WithTeam(divisions[i], teamId)];
        r := Some(divisions[i]);
    }

    /** `removeTeamFromDivision`: the team leaves the division; the division is returned. */
    method RemoveTeamFromDivision(divisionId: Id, teamId: Id) returns (r: Option<Division>)
      requires Valid()
      modifies this`divisions
      ensures Valid()
      ensures match FirstIndex(DivisionKeys(old(divisions)), divisionId)
        case None => r.None? && divisions == old(divisions)
        case Some(i) =>
          && divisions == old(divisions)[i := WithoutTeam(old(divisions)[i], teamId)]
          && r == Some(divisions[i])
    {
      match FirstIndex(DivisionKeys(divisions), divisionId)
      case None => r := None;
      case Some(i) =>
        DivisionsReplace(divisions, issued, i, WithoutTeam(divisions[i], teamId));
        divisions := divisions[i := WithoutTeam(divisions[i], teamId)];
        r := Some(divisions[i]);
    }

    /**
     * The nested loops of `generateRoundRobin`: one fresh fixture per pair of
     * positions `a < b` of `teamIds`, in loop order, one id drawn per fixture.
     */
    method PairUp(teamIds: seq<Id>) returns (matches: seq<Match>)
      requires Valid()
      modifies this`serial, this`issued
      ensures Valid()
      ensures matches == Fixtures.Fixtures(teamIds, old(serial))
      ensures serial == old(serial) + |matches| && issued == old(issued) + IdsBetween(old(serial), serial)
    {
      var n := |teamIds|;
      ghost var first := serial;
      matches := [];
      var a := 0;
      while a < n
        invariant 0 <= a <= n
        invariant matches == FixturesOf(teamIds, first, PairsBefore(n, a))
        invariant serial == first + |matches| && issued == old(issued) + IdsBetween(first, serial)
        invariant Valid()
      {
        ghost var mid := serial;
        matches := PairRow(teamIds, a, first, matches);
        IdsBetweenConcat(first, mid, serial);
        a := a + 1;
      }
    }

    /** The inner loop of `generateRoundRobin` for outer index `a`: pairs `(a, b)` for `b > a`. */
    method PairRow(teamIds: seq<Id>, a: nat, ghost first: nat, matches: seq<Match>) returns (r: seq<Match>)
      requires Valid() && a < |teamIds|
      requires matches == FixturesOf(teamIds, first, PairsBefore(|teamIds|, a))
      requires serial == first + |matches|
      modifies this`serial, this`issued
      ensures Valid()
      ensures r == FixturesOf(teamIds, first, PairsBefore(|teamIds|, a + 1))
      ensures serial == first + |r| && issued == old(issued) + IdsBetween(old(serial), serial)
    {
      var n := |teamIds|;
      VisitedRow(n, a);
      r := matches;
      var b := a + 1;
      while b < n
        invariant a + 1 <= b <= n
        invariant r == FixturesOf(teamIds, first, Visited(n, a, b))
        invariant serial == first + |r| && issued == old(issued) + IdsBetween(old(serial), serial)
        invariant Valid()
      {
        var id := NewId();
        PushFixture(teamIds, first, a, b, r, id);
        r := r + [NewFixture(id, teamIds[a], teamIds[b])];
        b := b + 1;
      }
    }

    /**
     * `generateRoundRobin`: the division's matches are replaced by one fresh
     * fixture per pair of positions `a < b` of its team list, in loop order;
     * one id is drawn per fixture.
     */
    method GenerateRoundRobin(divisionId: Id) returns (r: Option<Division>)
      requires Valid()
      modifies this`divisions, this`serial, this`issued
      ensures Valid()
      ensures match FirstIndex(DivisionKeys(old(divisions)), divisionId)
        case None => r.None? && divisions == old(divisions) && serial == old(serial) && issued == old(issued)
        case Some(i) =>
          && divisions == old(divisions)[i := WithFixtures(old(divisions)[i], old(serial))]
          && r == Some(divisions[i])
          && serial == old(serial) + |divisions[i].matches|
          && issued == old(issued) + IdsBetween(old(serial), serial)
    {
      match FirstIndex(DivisionKeys(divisions), divisionId)
      case None => r := None;
      case Some(i) =>
        ghost var first := serial;
        var matches := PairUp(divisions[i].teamIds);
        var d := divisions[i].(matches := matches);
        FixtureIdsDistinct(d.teamIds, first, IndexPairs(|d.teamIds|));
        DivisionsReplace(divisions, issued, i, d);
        divisions := divisions[i := d];
        r := Some(d);
    }

    /** `listAllDivisions`: every division, newest first. */
    function ListAllDivisions(): (r: seq<Division>)
      reads this
    {
      divisions
    }

    /** `setDivisionPublished`: the division's published flag is set; the division is returned. */
    method SetDivisionPublished(divisionId: Id, published: bool) returns (r: Option<Division>)
      requires Valid()
      modifies this`divisions
      ensures Valid()
      ensures match FirstIndex(DivisionKeys(old(divisions)), divisionId)
        case None => r.None? && divisions == old(divisions)
        case Some(i) =>
          && divisions == old(divisions)[i := WithPublished(old(divisions)[i], published)]
          && r == Some(divisions[i])
    {
      match FirstIndex(DivisionKeys(divisions), divisionId)
      case None => r := None;
      case Some(i) =>
        DivisionsReplace(divisions, issued, i, WithPublished(divisions[i], published));
        divisions := divisions[i := WithPublished(divisions[i], published)];
        r := Some(divisions[i]);
    }

    /**
     * `setMatchScore`: in that division the match with that id gets both
     * scores (`None` clears one); an unknown match id still rewrites the
     * division unchanged.
     */
    method SetMatchScore(divisionId: Id, matchId: Id, aScore: Option<int>, bScore: Option<int>) returns (r: Option<Division>)
      requires Valid()
      modifies this`divisions
      ensures Valid()
      ensures match FirstIndex(DivisionKeys(old(divisions)), divisionId)
        case None => r.None? && divisions == old(divisions)
        case Some(i) =>
          && divisions == old(divisions)[i := old(divisions)[i].(matches := ScoreMatches(old(divisions)[i].matches, matchId, aScore, bScore))]
          && r == Some(divisions[i])
    {
      match FirstIndex(DivisionKeys(divisions), divisionId)
      case None => r := None;
      case Some(i) =>
        var d := divisions[i].(matches := ScoreMatches(divisions[i].matches, matchId, aScore, bScore));
        DivisionsReplace(divisions, issued, i, d);
        divisions := divisions[i := d];
        r := Some(d);
    }

    /** `setMatchDetails`: the match's field and kickoff are overwritten by the values given. */
    method SetMatchDetails(divisionId: Id, matchId: Id, field: Option<string>, kickoffAt: Option<string>) returns (r: Option<Division>)
      requires Valid()
      modifies this`divisions
      ensures Valid()
      ensures match FirstIndex(DivisionKeys(old(divisions)), divisionId)
        case None => r.None? && divisions == old(divisions)
        case Some(i) =>
          && divisions == old(divisions)[i := old(divisions)[i].(matches := DetailMatches(old(divisions)[i].matches, matchId, field, kickoffAt))]
          && r == Some(divisions[i])
    {
      match FirstIndex(DivisionKeys(divisions), divisionId)
      case None => r := None;
      case Some(i) =>
        var d := divisions[i].(matches := DetailMatches(divisions[i].matches, matchId, field, kickoffAt));
        DivisionsReplace(divisions, issued, i, d);
        divisions := divisions[i := d];
        r := Some(d);
    }
  }
}
