/** Teams: provisioning, adding and removing members, and the role grants that follow membership. */
module Teams {
  import opened Strings
  import opened Rbac

  datatype MemberRole = Owner | TeamAdmin | Member | TeamViewer | InvalidRole(name: string)

  datatype SpaceRow = SpaceRow(org: Id, slug: string, owner: Option<string>)

  datatype Team = Team(space: Id, slug: string, createdBy: string)

  /** The tables of one organisation; `next` is the first id not handed out yet. */
  datatype Db = Db(org: Id, spaces: map<Id, SpaceRow>, teams: map<Id, Team>, grants: seq<Grant>,
                   members: map<(Id, string), MemberRole>, next: Id) {
    /** What the access checks read. */
    function AccessTables(): Tables {
      Tables(map s | s in spaces :: Space(spaces[s].org, spaces[s].owner), map[], [], grants)
    }
  }

  datatype Outcome = Done | ReservedSlug | SlugTaken | TeamNotFound | AdminRequired | BadRole
                   | AlreadyMember | MemberNotFound

  function TeamGroup(slug: string): string {
    "team:" + slug
  }

  function GroupGrantFor(slug: string, space: Id): Grant {
    Grant(GroupGrant, TeamGroup(slug), Editor, SpaceScope, space)
  }

  function AdminGrantFor(user: string, space: Id): Grant {
    Grant(UserGrant, user, Admin, SpaceScope, space)
  }

  /** The team id a slug names. */
  predicate Names(db: Db, slug: string, t: Id) {
    t in db.teams && db.teams[t].slug == slug
  }

  ghost predicate Unnamed(db: Db, slug: string) {
    forall t :: !Names(db, slug, t)
  }

  /** The groups a user gains from memberships. */
  function TeamGroups(db: Db, user: string): set<string> {
    set m | m in db.members && m.1 == user && m.0 in db.teams :: TeamGroup(db.teams[m.0].slug)
  }

  predicate MayManage(db: Db, p: Principal, devEnv: bool, t: Id)
    requires t in db.teams
  {
    CanAdmin(p, db.AccessTables(), Some(Scope(SpaceScope, Some(db.teams[t].space))), devEnv)
  }

  predicate SlugFree(db: Db, slug: string) {
    && (forall s | s in db.spaces :: !(db.spaces[s].org == db.org && db.spaces[s].slug == slug))
    && forall t | t in db.teams :: db.teams[t].slug != slug
  }

  // ---------------------------------------------------------------- what each operation does

  /** A successful creation: a space, a team over it, two grants and the owner. */
  function Provisioned(db: Db, slug: string, owner: string): Db {
    var space, team := db.next, db.next + 1;
    db.(spaces := db.spaces[space := SpaceRow(db.org, slug, None)],
        teams := db.teams[team := Team(space, slug, owner)],
        grants := db.grants + [GroupGrantFor(slug, space), AdminGrantFor(owner, space)],
        members := db.members[(team, owner) := Owner],
        next := db.next + 2)
  }

  function Joined(db: Db, t: Id, user: string, role: MemberRole): Db
    requires t in db.teams
  {
    db.(members := db.members[(t, user) := role],
        grants := db.grants + if role == TeamAdmin then [AdminGrantFor(user, db.teams[t].space)] else [])
  }

  function Without(grants: seq<Grant>, g: Grant): seq<Grant> {
    if grants == [] then []
    else
      var rest := Without(grants[..|grants| - 1], g);
      if grants[|grants| - 1] == g then rest else rest + [grants[|grants| - 1]]
  }

  function Left(db: Db, t: Id, user: string): Db
    requires t in db.teams
  {
    db.(members := db.members - {(t, user)}, grants := Without(db.grants, AdminGrantFor(user, db.teams[t].space)))
  }

  /** The checks of the two membership endpoints, in their order. */
  function AddOutcome(db: Db, t: Id, user: string, role: MemberRole, caller: Principal, devEnv: bool): Outcome
    requires t in db.teams
  {
    if !MayManage(db, caller, devEnv, t) then AdminRequired
    else if role.InvalidRole? then BadRole
    else if (t, user) in db.members then AlreadyMember
    else Done
  }

  function RemoveOutcome(db: Db, t: Id, user: string, caller: Principal, devEnv: bool): Outcome
    requires t in db.teams
  {
    if !MayManage(db, caller, devEnv, t) then AdminRequired
    else if (t, user) !in db.members then MemberNotFound
    else Done
  }

  // ---------------------------------------------------------------- the store

  class TeamStore {
    var spaces: map<Id, SpaceRow>
    var teams: map<Id, Team>
    var grants: seq<Grant>
    var members: map<(Id, string), MemberRole>
    var next: Id
    const org: Id

    function View(): Db
      reads this
    {
      Db(org, spaces, teams, grants, members, next)
    }

    method ProvisionTeam(slug: string, owner: string) returns (outcome: Outcome)
      modifies this
      ensures outcome == if slug == "personal" then ReservedSlug
        else if (forall s | s in old(spaces) :: old(spaces)[s].org != org || old(spaces)[s].slug != slug)
             && (forall t | t in old(teams) :: old(teams)[t].slug != slug) then Done else SlugTaken
      ensures View() == if outcome == Done then Provisioned(old(View()), slug, owner) else old(View())
    {
      if slug == "personal" {
        return ReservedSlug;
      }
      if !SlugFree(View(), slug) {
        return SlugTaken;
      }
      var space := next;
      spaces := spaces[space := SpaceRow(org, slug, None)];
      var team := space + 1;
      teams := teams[team := Team(space, slug, owner)];
      next := team + 1;
      grants := grants + [GroupGrantFor(slug, space)];
      grants := grants + [AdminGrantFor(owner, space)];
      members := members[(team, owner) := Owner];
      outcome := Done;
    }

    method FindTeam(slug: string) returns (team: Option<Id>)
      ensures team.Some? ==> Names(View(), slug, team.value)
      ensures team.None? ==> Unnamed(View(), slug)
    {
      var todo := teams.Keys;
      while todo != {}
        invariant todo <= teams.Keys && forall t | t in teams && t !in todo :: teams[t].slug != slug
      {
        var t :| t in todo;
        if teams[t].slug == slug {
          return Some(t);
        }
        todo := todo - {t};
      }
      team := None;
    }

    method AddMember(slug: string, user: string, role: MemberRole, caller: Principal, devEnv: bool)
      returns (outcome: Outcome, ghost team: Id)
      modifies this
      ensures outcome == TeamNotFound <==> Unnamed(old(View()), slug)
      ensures outcome != TeamNotFound ==>
        Names(old(View()), slug, team) && outcome == AddOutcome(old(View()), team, user, role, caller, devEnv)
      ensures View() == if outcome == Done then Joined(old(View()), team, user, role) else old(View())
    {
      var found := FindTeam(slug);
      team := 0;
      if found.None? {
        return TeamNotFound, 0;
      }
      var t := found.value;
      team := t;
      if !MayManage(View(), caller, devEnv, t) {
        return AdminRequired, t;
      }
      if role.InvalidRole? {
        return BadRole, t;
      }
      if (t, user) in members {
        return AlreadyMember, t;
      }
      members := members[(t, user) := role];
      if role == TeamAdmin {
        grants := grants + [AdminGrantFor(user, teams[t].space)];
      } else {
        assert grants + [] == grants;
      }
      outcome := Done;
    }

    method RemoveMember(slug: string, user: string, caller: Principal, devEnv: bool)
      returns (outcome: Outcome, ghost team: Id)
      modifies this
      ensures outcome == TeamNotFound <==> Unnamed(old(View()), slug)
      ensures outcome != TeamNotFound ==>
        Names(old(View()), slug, team) && outcome == RemoveOutcome(old(View()), team, user, caller, devEnv)
      ensures View() == if outcome == Done then Left(old(View()), team, user) else old(View())
    {
      var found := FindTeam(slug);
      team := 0;
      if found.None? {
        return TeamNotFound, 0;
      }
      var t := found.value;
      team := t;
      if !MayManage(View(), caller, devEnv, t) {
        return AdminRequired, t;
      }
      if (t, user) !in members {
        return MemberNotFound, t;
      }
      members := members - {(t, user)};
      grants := Without(grants, AdminGrantFor(user, teams[t].space));
      outcome := Done;
    }
  }

  // ---------------------------------------------------------------- the invariant

  /** Only managers hold an admin grant of their own at a team's space. */
  predicate GrantIsEarned(db: Db, t: Id, g: Grant)
    requires t in db.teams
  {
    g.scopeKind == SpaceScope && g.scopeId == db.teams[t].space ==>
      || g == GroupGrantFor(db.teams[t].slug, db.teams[t].space)
      || (g == AdminGrantFor(g.principal, db.teams[t].space) && (t, g.principal) in db.members
          && db.members[(t, g.principal)] in {Owner, TeamAdmin})
  }

  predicate AdminsHold(db: Db, t: Id, user: string)
    requires t in db.teams
  {
    (t, user) in db.members && db.members[(t, user)] == TeamAdmin ==>
      AdminGrantFor(user, db.teams[t].space) in db.grants
  }

  predicate GrantsUnique(grants: seq<Grant>) {
    forall i, j | 0 <= i < j < |grants| :: grants[i] != grants[j]
  }

  predicate TeamsApart(db: Db, t: Id, t': Id)
    requires t in db.teams && t' in db.teams
  {
    t != t' ==> db.teams[t].slug != db.teams[t'].slug && db.teams[t].space != db.teams[t'].space
  }

  /** Ids in use lie below `next`. */
  predicate IdsBelowNext(db: Db) {
    && (forall s | s in db.spaces :: s < db.next)
    && (forall t | t in db.teams :: t < db.next && db.teams[t].space < db.next)
    && (forall g | g in db.grants :: g.scopeId < db.next)
  }

  ghost predicate Inv(db: Db) {
    && IdsBelowNext(db)
    && GrantsUnique(db.grants)
    && (forall m | m in db.members :: m.0 in db.teams)
    && (forall t, t' | t in db.teams && t' in db.teams :: TeamsApart(db, t, t'))
    && (forall t | t in db.teams :: GroupGrantFor(db.teams[t].slug, db.teams[t].space) in db.grants)
    && (forall t, g | t in db.teams && g in db.grants :: GrantIsEarned(db, t, g))
    && (forall t, u | t in db.teams :: AdminsHold(db, t, u))
  }

  /** An organisation with spaces and grants of its own, but no team yet. */
  predicate NoTeams(db: Db) {
    db.teams == map[] && db.members == map[] && IdsBelowNext(db) && GrantsUnique(db.grants)
  }

  /** One successful request; a refused one changes nothing. */
  ghost predicate Step(db: Db, db': Db) {
    || (exists slug, owner :: slug != "personal" && SlugFree(db, slug) && db' == Provisioned(db, slug, owner))
    || (exists t, user, role: MemberRole ::
         t in db.teams && (t, user) !in db.members && db' == Joined(db, t, user, role))
    || (exists t, user :: t in db.teams && (t, user) in db.members && db' == Left(db, t, user))
  }

  // ---------------------------------------------------------------- every step keeps the invariant

  lemma ProvisionApart(db: Db, slug: string, owner: string, t: Id, t': Id)
    requires Inv(db) && SlugFree(db, slug)
    requires t in Provisioned(db, slug, owner).teams && t' in Provisioned(db, slug, owner).teams
    ensures TeamsApart(Provisioned(db, slug, owner), t, t')
  {
    assert t in db.teams && t' in db.teams ==> TeamsApart(db, t, t');
  }

  lemma ProvisionUnique(db: Db, slug: string, owner: string)
    requires IdsBelowNext(db) && GrantsUnique(db.grants)
    ensures IdsBelowNext(Provisioned(db, slug, owner)) && GrantsUnique(Provisioned(db, slug, owner).grants)
  {
  }

  lemma ProvisionGroupGrant(db: Db, slug: string, owner: string, t: Id)
    requires Inv(db) && t in Provisioned(db, slug, owner).teams
    ensures var db' := Provisioned(db, slug, owner); GroupGrantFor(db'.teams[t].slug, db'.teams[t].space) in db'.grants
  {
    var db' := Provisioned(db, slug, owner);
    assert db'.grants[|db.grants|] == GroupGrantFor(slug, db.next);
  }

  lemma ProvisionEarned(db: Db, slug: string, owner: string, t: Id, g: Grant)
    requires Inv(db) && t in Provisioned(db, slug, owner).teams && g in Provisioned(db, slug, owner).grants
    ensures GrantIsEarned(Provisioned(db, slug, owner), t, g)
  {
    assert t in db.teams && g in db.grants ==> GrantIsEarned(db, t, g);
  }

  lemma ProvisionAdmins(db: Db, slug: string, owner: string, t: Id, user: string)
    requires Inv(db) && t in Provisioned(db, slug, owner).teams
    ensures AdminsHold(Provisioned(db, slug, owner), t, user)
  {
    assert t in db.teams ==> AdminsHold(db, t, user);
  }

  lemma ProvisionKeeps(db: Db, slug: string, owner: string)
    requires Inv(db) && SlugFree(db, slug)
    ensures Inv(Provisioned(db, slug, owner))
  {
    var db' := Provisioned(db, slug, owner);
    ProvisionUnique(db, slug, owner);
    forall t, t' | t in db'.teams && t' in db'.teams
      ensures TeamsApart(db', t, t')
    {
      ProvisionApart(db, slug, owner, t, t');
    }
    forall t | t in db'.teams
      ensures GroupGrantFor(db'.teams[t].slug, db'.teams[t].space) in db'.grants
    {
      ProvisionGroupGrant(db, slug, owner, t);
    }
    forall t, g | t in db'.teams && g in db'.grants
      ensures GrantIsEarned(db', t, g)
    {
      ProvisionEarned(db, slug, owner, t, g);
    }
    forall t, u | t in db'.teams
      ensures AdminsHold(db', t, u)
    {
      ProvisionAdmins(db, slug, owner, t, u);
    }
  }

  lemma JoinKeeps(db: Db, t0: Id, user: string, role: MemberRole)
    requires Inv(db) && t0 in db.teams && (t0, user) !in db.members
    ensures Inv(Joined(db, t0, user, role))
  {
    var db' := Joined(db, t0, user, role);
    var mine := AdminGrantFor(user, db.teams[t0].space);
    assert mine in db.grants ==> GrantIsEarned(db, t0, mine);
    forall t, t' | t in db'.teams && t' in db'.teams
      ensures TeamsApart(db', t, t')
    {
      assert TeamsApart(db, t, t');
    }
    forall t, g | t in db'.teams && g in db'.grants
      ensures GrantIsEarned(db', t, g)
    {
      assert TeamsApart(db, t, t0);
      assert g in db.grants ==> GrantIsEarned(db, t, g);
    }
    forall t, u | t in db'.teams
      ensures AdminsHold(db', t, u)
    {
      assert AdminsHold(db, t, u);
      assert role == TeamAdmin ==> db'.grants[|db.grants|] == mine;
    }
  }

  lemma {:induction false} WithoutExact(grants: seq<Grant>, g: Grant)
    requires GrantsUnique(grants)
    ensures forall x :: x in Without(grants, g) <==> x in grants && x != g
    ensures GrantsUnique(Without(grants, g))
  {
    if grants != [] {
      var front, last := grants[..|grants| - 1], grants[|grants| - 1];
      WithoutExact(front, g);
      assert grants == front + [last];
      assert last !in front;
    }
  }

  lemma LeaveKeeps(db: Db, t0: Id, user: string)
    requires Inv(db) && t0 in db.teams && (t0, user) in db.members
    ensures Inv(Left(db, t0, user))
  {
    var db' := Left(db, t0, user);
    var mine := AdminGrantFor(user, db.teams[t0].space);
    WithoutExact(db.grants, mine);
    forall t, t' | t in db'.teams && t' in db'.teams
      ensures TeamsApart(db', t, t')
    {
      assert TeamsApart(db, t, t');
    }
    forall t, g | t in db'.teams && g in db'.grants
      ensures GrantIsEarned(db', t, g)
    {
      assert GrantIsEarned(db, t, g);
      assert TeamsApart(db, t, t0);
    }
    forall t, u | t in db'.teams
      ensures AdminsHold(db', t, u)
    {
      assert AdminsHold(db, t, u);
      assert TeamsApart(db, t, t0);
    }
  }

  lemma StepKeeps(db: Db, db': Db)
    requires Inv(db) && Step(db, db')
    ensures Inv(db')
  {
    if slug, owner :| slug != "personal" && SlugFree(db, slug) && db' == Provisioned(db, slug, owner) {
      ProvisionKeeps(db, slug, owner);
    } else if t, user, role: MemberRole :|
        t in db.teams && (t, user) !in db.members && db' == Joined(db, t, user, role) {
      JoinKeeps(db, t, user, role);
    } else {
      var t, user :| t in db.teams && (t, user) in db.members && db' == Left(db, t, user);
      LeaveKeeps(db, t, user);
    }
  }

  ghost predicate IsRun(run: seq<Db>) {
    run != [] && NoTeams(run[0]) && forall i | 0 < i < |run| :: Step(run[i - 1], run[i])
  }

  /** Over every run: unique grants, a group grant per team, admin grants for managers only, and one
      for every admin member. */
  lemma {:induction false} RunsKeepInv(run: seq<Db>, i: nat)
    requires IsRun(run) && i < |run|
    ensures Inv(run[i])
  {
    if i > 0 {
      RunsKeepInv(run, i - 1);
      assert Step(run[i - 1], run[i]);
      StepKeeps(run[i - 1], run[i]);
    }
  }

  // ---------------------------------------------------------------- what removal cuts off

  lemma TeamGroupInjective(a: string, b: string)
    ensures TeamGroup(a) == TeamGroup(b) <==> a == b
  {
    assert a == TeamGroup(a)[5..] && b == TeamGroup(b)[5..];
  }

  /** The principal of a later request: declared groups and those of the memberships left. */
  function NextRequest(db: Db, user: string, roles: set<string>, declared: set<string>): Principal {
    Principal(user, UserPrincipal, roles, declared + TeamGroups(db, user))
  }

  ghost predicate HasGrantAtSpace(db: Db, p: Principal, space: Id) {
    exists g :: g in db.grants && Matches(p, g) && g.scopeKind == SpaceScope && g.scopeId == space
  }

  /** No membership that is left brings back the group of the team that was left. */
  lemma GroupGone(db: Db, t0: Id, user: string)
    requires t0 in db.teams && Inv(Left(db, t0, user))
    ensures TeamGroup(db.teams[t0].slug) !in TeamGroups(Left(db, t0, user), user)
  {
    var db' := Left(db, t0, user);
    forall m | m in db'.members && m.1 == user && m.0 in db'.teams
      ensures TeamGroup(db'.teams[m.0].slug) != TeamGroup(db.teams[t0].slug)
    {
      assert m.0 != t0 && TeamsApart(db', m.0, t0);
      TeamGroupInjective(db'.teams[m.0].slug, db.teams[t0].slug);
    }
  }

  lemma NotPublic(slug: string)
    ensures TeamGroup(slug) != "public"
  {
    assert TeamGroup(slug)[0] == 't';
  }

  /** At a team's space a user who is no member is matched through the team's group alone. */
  lemma OutsiderNeedsGroup(db: Db, t: Id, p: Principal, g: Grant)
    requires Inv(db) && t in db.teams && (t, p.userId) !in db.members && p.kind == UserPrincipal
    requires g in db.grants && Matches(p, g) && g.scopeKind == SpaceScope && g.scopeId == db.teams[t].space
    ensures TeamGroup(db.teams[t].slug) in p.groups
  {
    assert GrantIsEarned(db, t, g);
    NotPublic(db.teams[t].slug);
  }

  /** After removal a grant at the team's space matches the user only through a group of the team's
      name that the identity provider itself declares. */
  lemma RemovalCutsAccess(db: Db, t0: Id, user: string, roles: set<string>, declared: set<string>)
    requires Inv(db) && t0 in db.teams && (t0, user) in db.members
    ensures var db' := Left(db, t0, user);
      HasGrantAtSpace(db', NextRequest(db', user, roles, declared), db.teams[t0].space) <==>
        TeamGroup(db.teams[t0].slug) in declared
  {
    var db' := Left(db, t0, user);
    var slug, space := db.teams[t0].slug, db.teams[t0].space;
    var p := NextRequest(db', user, roles, declared);
    LeaveKeeps(db, t0, user);
    GroupGone(db, t0, user);
    if g :| g in db'.grants && Matches(p, g) && g.scopeKind == SpaceScope && g.scopeId == space {
      OutsiderNeedsGroup(db', t0, p, g);
    }
    if TeamGroup(slug) in declared {
      assert GroupGrantFor(slug, space) in db'.grants;
      assert Matches(p, GroupGrantFor(slug, space));
    }
  }

  /** A member holds an admin grant of their own right after joining exactly when joining as admin;
      one who joins as owner does not. */
  lemma JoiningGrantsAdminsOnly(db: Db, t0: Id, user: string, role: MemberRole)
    requires Inv(db) && t0 in db.teams && (t0, user) !in db.members
    ensures AdminGrantFor(user, db.teams[t0].space) in Joined(db, t0, user, role).grants <==> role == TeamAdmin
  {
    var mine := AdminGrantFor(user, db.teams[t0].space);
    assert mine in db.grants ==> GrantIsEarned(db, t0, mine);
    assert role == TeamAdmin ==> Joined(db, t0, user, role).grants[|db.grants|] == mine;
  }

  // ---------------------------------------------------------------- who may manage and who may write

  /** An admin grant at the team's space, or at the organisation the space belongs to. */
  predicate AdminsTeam(db: Db, g: Grant, t: Id)
    requires t in db.teams
  {
    var space := db.teams[t].space;
    && g.role == Admin
    && ((g.scopeKind == SpaceScope && g.scopeId == space)
        || (g.scopeKind == OrgScope && space in db.spaces && db.spaces[space].org == g.scopeId))
  }

  /** The caller has the admin role by header, is the local developer, or holds such a grant. */
  ghost predicate IsManager(db: Db, p: Principal, devEnv: bool, t: Id)
    requires t in db.teams
  {
    || "admin" in p.roles || IsDeveloper(p, devEnv)
    || exists g :: g in db.grants && MadeOutTo(g, p) && AdminsTeam(db, g, t)
  }

  lemma ManageIff(db: Db, p: Principal, devEnv: bool, t: Id)
    requires t in db.teams
    ensures MayManage(db, p, devEnv, t) <==> IsManager(db, p, devEnv, t)
  {
    var tables, scope := db.AccessTables(), Scope(SpaceScope, Some(db.teams[t].space));
    GatesExact(p, tables, Some(scope), devEnv);
    forall g
      ensures Confers(g, p, {Admin}) && GrantCoversScope(tables, g, scope) <==> MadeOutTo(g, p) && AdminsTeam(db, g, t)
    {
    }
    if HoldsRole(p, tables, {Admin}, Some(scope)) {
      var g :| g in tables.grants && Confers(g, p, {Admin}) && GrantCoversScope(tables, g, scope);
      assert MadeOutTo(g, p) && AdminsTeam(db, g, t);
    }
    if g :| g in db.grants && MadeOutTo(g, p) && AdminsTeam(db, g, t) {
      assert Confers(g, p, {Admin}) && GrantCoversScope(tables, g, scope);
    }
  }

  /** Whoever is no manager is refused, whatever is asked; to a manager the requests answer for themselves. */
  lemma OutcomesExact(db: Db, t: Id, user: string, role: MemberRole, caller: Principal, devEnv: bool)
    requires t in db.teams
    ensures var manager, member := IsManager(db, caller, devEnv, t), (t, user) in db.members;
      var add, remove := AddOutcome(db, t, user, role, caller, devEnv), RemoveOutcome(db, t, user, caller, devEnv);
      && (add == AdminRequired <==> !manager) && (remove == AdminRequired <==> !manager)
      && (add == BadRole <==> manager && role !in {Owner, TeamAdmin, Member, TeamViewer})
      && (add == AlreadyMember <==> manager && role in {Owner, TeamAdmin, Member, TeamViewer} && member)
      && (add == Done <==> manager && role in {Owner, TeamAdmin, Member, TeamViewer} && !member)
      && (remove == MemberNotFound <==> manager && !member) && (remove == Done <==> manager && member)
  {
    ManageIff(db, caller, devEnv, t);
  }

  /** Over every run the members of a team may write in its space, of whatever role. */
  lemma MembersMayWrite(db: Db, t: Id, user: string, roles: set<string>, declared: set<string>, devEnv: bool)
    requires Inv(db) && t in db.teams && (t, user) in db.members
    ensures CanWrite(NextRequest(db, user, roles, declared), db.AccessTables(),
                     Some(Scope(SpaceScope, Some(db.teams[t].space))), devEnv)
  {
    var p, team := NextRequest(db, user, roles, declared), db.teams[t];
    var scope := Some(Scope(SpaceScope, Some(team.space)));
    var g := Grant(GroupGrant, "team:" + team.slug, Editor, SpaceScope, team.space);
    assert (t, user).0 == t && (t, user).1 == user;
    assert g in db.grants && g.principal in p.groups;
    GatesExact(p, db.AccessTables(), scope, devEnv);
    assert Confers(g, p, {Editor, Reviewer, Admin}) && GrantCoversScope(db.AccessTables(), g, scope.value);
    assert HoldsRole(p, db.AccessTables(), {Editor, Reviewer, Admin}, scope);
  }

  /** They manage it only by a header, as the developer, by an admin grant of their own at its space, which
      only owners and admins of the team have, or by one at the organisation. */
  lemma ManagersAreAdmins(db: Db, t: Id, p: Principal, devEnv: bool)
    requires Inv(db) && t in db.teams && p.kind == UserPrincipal && IsManager(db, p, devEnv, t)
    ensures "admin" in p.roles || IsDeveloper(p, devEnv)
      || ((t, p.userId) in db.members && db.members[(t, p.userId)] in {Owner, TeamAdmin})
      || exists g :: g in db.grants && MadeOutTo(g, p) && g.role == Admin && g.scopeKind == OrgScope
  {
    if "admin" !in p.roles && !IsDeveloper(p, devEnv) {
      var g :| g in db.grants && MadeOutTo(g, p) && AdminsTeam(db, g, t);
      assert GrantIsEarned(db, t, g);
    }
  }

  /** A slug names a new team unless it is reserved or in use; the new team has a shared space of its own,
      which its owner may manage. */
  lemma ProvisionedIsManaged(db: Db, slug: string, owner: string, roles: set<string>, declared: set<string>,
                             devEnv: bool)
    requires Inv(db) && SlugFree(db, slug)
    ensures var out := Provisioned(db, slug, owner);
      exists t :: t in out.teams && t !in db.teams && out.teams[t].slug == slug && out.teams[t].space !in db.spaces
        && out.spaces.Keys == db.spaces.Keys + {out.teams[t].space}
        && out.spaces[out.teams[t].space] == SpaceRow(db.org, slug, None)
        && (t, owner) in out.members && out.members[(t, owner)] == Owner
        && MayManage(out, NextRequest(out, owner, roles, declared), devEnv, t)
  {
    var out, t := Provisioned(db, slug, owner), db.next + 1;
    var p := NextRequest(out, owner, roles, declared);
    var g := Grant(UserGrant, owner, Admin, SpaceScope, out.teams[t].space);
    assert g in out.grants && MadeOutTo(g, p) && AdminsTeam(out, g, t);
    ManageIff(out, p, devEnv, t);
  }
}
