/** Hierarchical role-based access: which pages a principal may read, and the scope walk that decides
    writes. Both resolve the same role grants over org, space and project containment. */
module Rbac {
  import opened Strings

  type Id = nat

  datatype Role = Viewer | Editor | Reviewer | Admin | OtherRole(name: string)

  datatype ScopeKind = OrgScope | SpaceScope | ProjectScope | OtherScope(name: string)

  datatype GrantKind = UserGrant | GroupGrant | AppGrant | OtherGrant(name: string)

  datatype Grant = Grant(kind: GrantKind, principal: string, role: Role, scopeKind: ScopeKind, scopeId: Id)

  datatype PrincipalKind = UserPrincipal | AppPrincipal | OtherPrincipal

  datatype Principal = Principal(userId: string, kind: PrincipalKind, roles: set<string>, groups: set<string>)

  datatype Space = Space(org: Id, owner: Option<string>)

  /** The columns of a knowledge item the resolver reads. */
  datatype Item = Item(id: Id, slug: string, isSource: bool, allowedGroups: Option<seq<string>>,
                       sourcePages: seq<string>,
                       org: Option<Id>, space: Option<Id>, project: Option<Id>, published: bool, hasVersion: bool)

  datatype Tables = Tables(spaces: map<Id, Space>, projects: map<Id, Id>, items: seq<Item>, grants: seq<Grant>)

  /** A scope to be covered; an item without any containment id names the org `None`. */
  datatype Scope = Scope(kind: ScopeKind, id: Option<Id>)

  function Rank(r: Role): int {
    match r
    case Viewer => 0
    case Editor => 1
    case Reviewer => 2
    case Admin => 3
    case OtherRole(_) => -1
  }

  predicate RoleAtLeast(r: Role, minimum: Role) {
    Rank(r) >= Rank(minimum)
  }

  function EffectiveGroups(p: Principal): set<string> {
    p.groups + {"public"}
    + if p.kind == UserPrincipal && p.userId != "" && p.userId != "anonymous" then {"user:" + p.userId} else {}
  }

  // ---------------------------------------------------------------- grants

  /** An app matches app grants on its slug only; everyone else user and group grants. */
  predicate Matches(p: Principal, g: Grant) {
    if p.kind == AppPrincipal then g.kind == AppGrant && g.principal == p.userId
    else ((g.kind == UserGrant && g.principal == p.userId)
          || (g.kind == GroupGrant && g.principal in p.groups + {"public"}))
  }

  predicate Grants(p: Principal, g: Grant, minimum: Role) {
    Matches(p, g) && RoleAtLeast(g.role, minimum)
  }

  // ---------------------------------------------------------------- the read resolver

  /** The read side's containment test: the grant's scope is one of the item's own ids. */
  predicate Reaches(g: Grant, it: Item) {
    || (g.scopeKind == OrgScope && it.org == Some(g.scopeId))
    || (g.scopeKind == SpaceScope && it.space == Some(g.scopeId))
    || (g.scopeKind == ProjectScope && it.project == Some(g.scopeId))
  }

  ghost predicate Admitted(p: Principal, t: Tables, it: Item) {
    exists g :: g in t.grants && Grants(p, g, Viewer) && Reaches(g, it)
  }

  /** A personal space is private to its owner. */
  predicate PersonalOk(p: Principal, t: Tables, it: Item) {
    it.space.Some? && it.space.value in t.spaces && t.spaces[it.space.value].owner.Some? ==>
      t.spaces[it.space.value].owner.value == p.userId
  }

  predicate GroupsPass(p: Principal, allowedGroups: Option<seq<string>>) {
    allowedGroups.Some? && allowedGroups.value != [] ==> exists g | g in allowedGroups.value :: g in EffectiveGroups(p)
  }

  /** A source page the principal may read. */
  ghost predicate ReadableSource(p: Principal, t: Tables, it: Item) {
    && it in t.items && it.published && it.hasVersion && it.isSource
    && Admitted(p, t, it) && GroupsPass(p, it.allowedGroups) && PersonalOk(p, t, it)
  }

  ghost predicate HasReadableSource(p: Principal, t: Tables, slug: string) {
    exists src: Item :: ReadableSource(p, t, src) && src.slug == slug
  }

  /** A page the principal may read; a derived page needs every page it was derived from. */
  ghost predicate Readable(p: Principal, t: Tables, it: Item) {
    if it.isSource then ReadableSource(p, t, it)
    else
      && it in t.items && it.published && it.hasVersion
      && Admitted(p, t, it) && PersonalOk(p, t, it)
      && forall i | 0 <= i < |it.sourcePages| :: HasReadableSource(p, t, it.sourcePages[i])
  }

  /** The scope ids covered by the grants seen so far, by kind. */
  datatype Covered = Covered(orgs: set<Id>, spaces: set<Id>, projects: set<Id>) {
    predicate Admits(it: Item) {
      || (it.org.Some? && it.org.value in orgs)
      || (it.space.Some? && it.space.value in spaces)
      || (it.project.Some? && it.project.value in projects)
    }
  }

  method CoveredScopes(p: Principal, t: Tables) returns (c: Covered)
    ensures forall it :: c.Admits(it) <==> Admitted(p, t, it)
  {
    c := Covered({}, {}, {});
    for i := 0 to |t.grants|
      invariant forall id :: id in c.orgs <==> GrantedAt(p, t.grants[..i], OrgScope, id)
      invariant forall id :: id in c.spaces <==> GrantedAt(p, t.grants[..i], SpaceScope, id)
      invariant forall id :: id in c.projects <==> GrantedAt(p, t.grants[..i], ProjectScope, id)
    {
      var g := t.grants[i];
      GrantedStep(p, t.grants, i);
      if Grants(p, g, Viewer) {
        match g.scopeKind
        case OrgScope => c := c.(orgs := c.orgs + {g.scopeId});
        case SpaceScope => c := c.(spaces := c.spaces + {g.scopeId});
        case ProjectScope => c := c.(projects := c.projects + {g.scopeId});
        case OtherScope(_) =>
      }
    }
    assert t.grants[..|t.grants|] == t.grants;
    forall it
      ensures c.Admits(it) <==> Admitted(p, t, it)
    {
      AdmittedByKind(p, t, it);
    }
  }

  predicate GrantedBy(p: Principal, g: Grant, kind: ScopeKind, id: Id) {
    Grants(p, g, Viewer) && g.scopeKind == kind && g.scopeId == id
  }

  ghost predicate GrantedAt(p: Principal, grants: seq<Grant>, kind: ScopeKind, id: Id) {
    exists g :: g in grants && GrantedBy(p, g, kind, id)
  }

  lemma GrantedStep(p: Principal, grants: seq<Grant>, i: nat)
    requires i < |grants|
    ensures forall kind, id :: GrantedAt(p, grants[..i + 1], kind, id) <==>
      GrantedAt(p, grants[..i], kind, id) || GrantedBy(p, grants[i], kind, id)
  {
    var now, before, g := grants[..i + 1], grants[..i], grants[i];
    assert now == before + [g];
    forall kind, id
      ensures GrantedAt(p, now, kind, id) <==> GrantedAt(p, before, kind, id) || GrantedBy(p, g, kind, id)
    {
      if x :| x in before && GrantedBy(p, x, kind, id) {
        assert x in now;
      }
      if GrantedBy(p, g, kind, id) {
        assert g in now;
      }
    }
  }

  lemma AdmittedByKind(p: Principal, t: Tables, it: Item)
    ensures Admitted(p, t, it) <==>
      || (it.org.Some? && GrantedAt(p, t.grants, OrgScope, it.org.value))
      || (it.space.Some? && GrantedAt(p, t.grants, SpaceScope, it.space.value))
      || (it.project.Some? && GrantedAt(p, t.grants, ProjectScope, it.project.value))
  {
    if g :| g in t.grants && Grants(p, g, Viewer) && Reaches(g, it) {
      assert GrantedBy(p, g, g.scopeKind, g.scopeId);
    }
    if it.org.Some? && GrantedAt(p, t.grants, OrgScope, it.org.value) {
      var g :| g in t.grants && GrantedBy(p, g, OrgScope, it.org.value);
      assert Reaches(g, it);
    }
    if it.space.Some? && GrantedAt(p, t.grants, SpaceScope, it.space.value) {
      var g :| g in t.grants && GrantedBy(p, g, SpaceScope, it.space.value);
      assert Reaches(g, it);
    }
    if it.project.Some? && GrantedAt(p, t.grants, ProjectScope, it.project.value) {
      var g :| g in t.grants && GrantedBy(p, g, ProjectScope, it.project.value);
      assert Reaches(g, it);
    }
  }

  /** The id belongs to a page the principal may read. */
  ghost predicate IsAllowed(p: Principal, t: Tables, id: Id) {
    exists it :: Readable(p, t, it) && it.id == id
  }

  method AllowedItemIds(p: Principal, t: Tables) returns (allowed: set<Id>)
    ensures forall id :: id in allowed <==> IsAllowed(p, t, id)
  {
    var covered := CoveredScopes(p, t);
    var slugs := VisibleSourceSlugs(p, t, covered);
    allowed := {};
    for i := 0 to |t.items|
      invariant forall id :: id in allowed <==> exists k: nat :: k < i && ReadableAt(p, t, k, id)
    {
      var it := t.items[i];
      ghost var before := allowed;
      if it.published && it.hasVersion && covered.Admits(it) && PersonalOk(p, t, it) {
        if it.isSource {
          if GroupsPass(p, it.allowedGroups) {
            allowed := allowed + {it.id};
          }
        } else if forall k | 0 <= k < |it.sourcePages| :: it.sourcePages[k] in slugs {
          allowed := allowed + {it.id};
        }
      }
      assert Readable(p, t, it) <==> ReadableAt(p, t, i, it.id);
      forall id
        ensures id in allowed <==> exists k: nat :: k < i + 1 && ReadableAt(p, t, k, id)
      {
        assert id in before <==> exists k: nat :: k < i && ReadableAt(p, t, k, id);
        assert id in allowed <==> id in before || ReadableAt(p, t, i, id);
      }
    }
    forall id
      ensures id in allowed <==> IsAllowed(p, t, id)
    {
      AllIndices(p, t, id);
    }
  }

  ghost predicate ReadableAt(p: Principal, t: Tables, k: nat, id: Id) {
    k < |t.items| && Readable(p, t, t.items[k]) && t.items[k].id == id
  }

  lemma AllIndices(p: Principal, t: Tables, id: Id)
    ensures (exists k: nat :: k < |t.items| && ReadableAt(p, t, k, id)) <==> IsAllowed(p, t, id)
  {
    if it :| Readable(p, t, it) && it.id == id {
      var k: nat :| k < |t.items| && t.items[k] == it;
      assert ReadableAt(p, t, k, id);
    }
  }

  method VisibleSourceSlugs(p: Principal, t: Tables, covered: Covered) returns (slugs: set<string>)
    requires forall it :: covered.Admits(it) <==> Admitted(p, t, it)
    ensures forall slug :: slug in slugs <==> HasReadableSource(p, t, slug)
  {
    slugs := {};
    for i := 0 to |t.items|
      invariant forall slug :: slug in slugs <==> exists k: nat :: k < i && SourceAt(p, t, k, slug)
    {
      var it := t.items[i];
      ghost var before := slugs;
      if it.published && it.hasVersion && it.isSource && covered.Admits(it)
         && GroupsPass(p, it.allowedGroups) && PersonalOk(p, t, it) {
        slugs := slugs + {it.slug};
      }
      forall slug
        ensures slug in slugs <==> exists k: nat :: k < i + 1 && SourceAt(p, t, k, slug)
      {
        assert slug in before <==> exists k: nat :: k < i && SourceAt(p, t, k, slug);
        assert slug in slugs <==> slug in before || SourceAt(p, t, i, slug);
      }
    }
    forall slug
      ensures slug in slugs <==> HasReadableSource(p, t, slug)
    {
      AllSources(p, t, slug);
    }
  }

  lemma AllSources(p: Principal, t: Tables, slug: string)
    ensures (exists k: nat :: k < |t.items| && SourceAt(p, t, k, slug)) <==> HasReadableSource(p, t, slug)
  {
    if src: Item :| ReadableSource(p, t, src) && src.slug == slug {
      var k: nat :| k < |t.items| && t.items[k] == src;
      assert SourceAt(p, t, k, slug);
    }
  }

  ghost predicate SourceAt(p: Principal, t: Tables, k: nat, slug: string) {
    k < |t.items| && ReadableSource(p, t, t.items[k]) && t.items[k].slug == slug
  }

  // ---------------------------------------------------------------- the write walk

  function ProjectSpace(t: Tables, project: Id): Option<Id> {
    if project in t.projects then Some(t.projects[project]) else None
  }

  function SpaceOrg(t: Tables, space: Option<Id>): Option<Id> {
    if space.Some? && space.value in t.spaces then Some(t.spaces[space.value].org) else None
  }

  /** The grant's scope is at or above the wanted one. */
  predicate GrantCoversScope(t: Tables, g: Grant, s: Scope) {
    match s.kind
    case OrgScope => g.scopeKind == OrgScope && s.id == Some(g.scopeId)
    case SpaceScope =>
      if g.scopeKind == SpaceScope then s.id == Some(g.scopeId)
      else g.scopeKind == OrgScope && SpaceOrg(t, s.id) == Some(g.scopeId)
    case ProjectScope =>
      if g.scopeKind == ProjectScope then s.id == Some(g.scopeId)
      else if s.id.None? || s.id.value !in t.projects then false
      else if g.scopeKind == SpaceScope then t.projects[s.id.value] == g.scopeId
      else g.scopeKind == OrgScope && SpaceOrg(t, Some(t.projects[s.id.value])) == Some(g.scopeId)
    case OtherScope(_) => false
  }

  /** A grant of at least `minimum` at a scope covering `scope`; at any scope when there is none. */
  predicate HasGrantAtLeast(p: Principal, t: Tables, minimum: Role, scope: Option<Scope>) {
    exists g :: g in t.grants && Grants(p, g, minimum) && (scope.Some? ==> GrantCoversScope(t, g, scope.value))
  }

  /** The header role or development user that passes a gate without any grant. */
  predicate PassesByHeader(p: Principal, accepted: set<string>, devEnv: bool) {
    p.roles * accepted != {} || (devEnv && p.kind == UserPrincipal && p.userId == "dev")
  }

  predicate CanWrite(p: Principal, t: Tables, scope: Option<Scope>, devEnv: bool) {
    PassesByHeader(p, {"editor", "reviewer", "admin"}, devEnv) || HasGrantAtLeast(p, t, Editor, scope)
  }

  predicate CanReview(p: Principal, t: Tables, scope: Option<Scope>, devEnv: bool) {
    PassesByHeader(p, {"reviewer"}, devEnv) || HasGrantAtLeast(p, t, Reviewer, scope)
  }

  predicate CanAdmin(p: Principal, t: Tables, scope: Option<Scope>, devEnv: bool) {
    PassesByHeader(p, {"admin"}, devEnv) || HasGrantAtLeast(p, t, Admin, scope)
  }

  /** The scope the archive endpoint checks: the item's narrowest containment id. */
  function NarrowestScope(it: Item): Scope {
    if it.project.Some? then Scope(ProjectScope, it.project)
    else if it.space.Some? then Scope(SpaceScope, it.space)
    else Scope(OrgScope, it.org)
  }

  // ---------------------------------------------------------------- the two walks agree

  /** The item's wider ids are the ones its narrowest id leads to. */
  predicate Consistent(t: Tables, it: Item) {
    if it.project.Some? then it.space == ProjectSpace(t, it.project.value) && it.org == SpaceOrg(t, it.space)
    else it.space.Some? ==> it.org == SpaceOrg(t, it.space)
  }

  /** A grant of any role that shows the ids of a scope kind apart. */
  function Probe(kind: ScopeKind, id: Id): Grant {
    Grant(UserGrant, "", Viewer, kind, id)
  }

  predicate Agree(t: Tables, it: Item, g: Grant) {
    Reaches(g, it) <==> GrantCoversScope(t, g, NarrowestScope(it))
  }

  /** Read admission and the scope walk agree on every grant exactly for consistent items. */
  lemma WalksAgreeIffConsistent(t: Tables, it: Item)
    ensures Consistent(t, it) <==> forall g :: Agree(t, it, g)
  {
    if !Consistent(t, it) {
      var space := if it.project.Some? then ProjectSpace(t, it.project.value) else it.space;
      if it.space != space {
        var id := if it.space.Some? then it.space.value else space.value;
        assert !Agree(t, it, Probe(SpaceScope, id));
      } else {
        var org := SpaceOrg(t, it.space);
        var id := if it.org.Some? then it.org.value else org.value;
        assert !Agree(t, it, Probe(OrgScope, id));
      }
    }
  }

  /** On consistent items: admitted for reading iff a viewer-or-higher grant covers the narrowest scope. */
  lemma AdmittedIffScopeCovered(p: Principal, t: Tables, it: Item)
    requires Consistent(t, it)
    ensures Admitted(p, t, it) <==> HasGrantAtLeast(p, t, Viewer, Some(NarrowestScope(it)))
  {
    WalksAgreeIffConsistent(t, it);
    if g :| g in t.grants && Grants(p, g, Viewer) && Reaches(g, it) {
      assert Agree(t, it, g);
    }
    if g :| g in t.grants && Grants(p, g, Viewer) && GrantCoversScope(t, g, NarrowestScope(it)) {
      assert Agree(t, it, g);
    }
  }

  /** Whoever passes the write gate of an item other than by header is admitted to read it. */
  lemma WritersAreAdmitted(p: Principal, t: Tables, it: Item, devEnv: bool)
    requires Consistent(t, it) && CanWrite(p, t, Some(NarrowestScope(it)), devEnv)
    ensures PassesByHeader(p, {"editor", "reviewer", "admin"}, devEnv) || Admitted(p, t, it)
  {
    AdmittedIffScopeCovered(p, t, it);
    if g :| g in t.grants && Grants(p, g, Editor) && GrantCoversScope(t, g, NarrowestScope(it)) {
      assert Grants(p, g, Viewer);
    }
  }

  /** The gates nest: whoever may review or administer may write. */
  lemma GatesNest(p: Principal, t: Tables, scope: Option<Scope>, devEnv: bool)
    requires CanReview(p, t, scope, devEnv) || CanAdmin(p, t, scope, devEnv)
    ensures CanWrite(p, t, scope, devEnv)
  {
    HigherRolesPass(p, t, Reviewer, scope);
    HigherRolesPass(p, t, Admin, scope);
    var one, two, all := {"reviewer"}, {"admin"}, {"editor", "reviewer", "admin"};
    assert one <= all && two <= all;
    HeaderNests(p, one, all, devEnv);
    HeaderNests(p, two, all, devEnv);
  }

  lemma HigherRolesPass(p: Principal, t: Tables, minimum: Role, scope: Option<Scope>)
    requires Rank(minimum) >= Rank(Editor)
    ensures HasGrantAtLeast(p, t, minimum, scope) ==> HasGrantAtLeast(p, t, Editor, scope)
  {
    if g :| g in t.grants && Grants(p, g, minimum) && (scope.Some? ==> GrantCoversScope(t, g, scope.value)) {
      assert Grants(p, g, Editor);
    }
  }

  lemma HeaderNests(p: Principal, accepted: set<string>, more: set<string>, devEnv: bool)
    requires accepted <= more
    ensures PassesByHeader(p, accepted, devEnv) ==> PassesByHeader(p, more, devEnv)
  {
    if role :| role in p.roles * accepted {
      assert role in p.roles * more;
    }
  }

  // ---------------------------------------------------------------- the allowed set

  /** More grants never hide a page. */
  lemma ReadableIsMonotone(p: Principal, t: Tables, more: seq<Grant>, it: Item)
    requires (forall g | g in t.grants :: g in more) && Readable(p, t, it)
    ensures Readable(p, t.(grants := more), it)
  {
    AdmittedIsMonotone(p, t, more, it);
    if !it.isSource {
      forall i | 0 <= i < |it.sourcePages|
        ensures HasReadableSource(p, t.(grants := more), it.sourcePages[i])
      {
        assert HasReadableSource(p, t, it.sourcePages[i]);
        var src :| ReadableSource(p, t, src) && src.slug == it.sourcePages[i];
        AdmittedIsMonotone(p, t, more, src);
        assert ReadableSource(p, t.(grants := more), src);
      }
    }
  }

  lemma AdmittedIsMonotone(p: Principal, t: Tables, more: seq<Grant>, it: Item)
    requires (forall g | g in t.grants :: g in more) && Admitted(p, t, it)
    ensures Admitted(p, t.(grants := more), it)
  {
    var g :| g in t.grants && Grants(p, g, Viewer) && Reaches(g, it);
    assert g in more;
  }

  /** A derived page that may be read names only source pages that may themselves be read. */
  lemma SourcesOfReadableAreReadable(p: Principal, t: Tables, it: Item, i: nat)
    requires !it.isSource && Readable(p, t, it) && i < |it.sourcePages|
    ensures exists src: Item :: src.isSource && src.slug == it.sourcePages[i] && Readable(p, t, src)
  {
    assert HasReadableSource(p, t, it.sourcePages[i]);
    var src :| ReadableSource(p, t, src) && src.slug == it.sourcePages[i];
    assert Readable(p, t, src);
  }

  // ---------------------------------------------------------------- who may read and who may write

  /** The grant is made out to the principal: an app by its slug, anyone else by name or by a group. */
  predicate MadeOutTo(g: Grant, p: Principal) {
    || (p.kind == AppPrincipal && g.kind == AppGrant && g.principal == p.userId)
    || (p.kind != AppPrincipal && g.kind == UserGrant && g.principal == p.userId)
    || (p.kind != AppPrincipal && g.kind == GroupGrant && (g.principal == "public" || g.principal in p.groups))
  }

  predicate Confers(g: Grant, p: Principal, roles: set<Role>) {
    MadeOutTo(g, p) && g.role in roles
  }

  predicate AtScopeOf(g: Grant, it: Item) {
    || (g.scopeKind == OrgScope && it.org == Some(g.scopeId))
    || (g.scopeKind == SpaceScope && it.space == Some(g.scopeId))
    || (g.scopeKind == ProjectScope && it.project == Some(g.scopeId))
  }

  /** Any known role admits to the items of its scope. */
  lemma AdmittedExact(p: Principal, t: Tables, it: Item)
    ensures Admitted(p, t, it) <==>
      exists g :: g in t.grants && Confers(g, p, {Viewer, Editor, Reviewer, Admin}) && AtScopeOf(g, it)
  {
    forall g
      ensures Grants(p, g, Viewer) && Reaches(g, it) <==>
        Confers(g, p, {Viewer, Editor, Reviewer, Admin}) && AtScopeOf(g, it)
    {
      RanksOf(g.role);
    }
  }

  lemma RanksOf(r: Role)
    ensures RoleAtLeast(r, Viewer) <==> r in {Viewer, Editor, Reviewer, Admin}
    ensures RoleAtLeast(r, Editor) <==> r in {Editor, Reviewer, Admin}
    ensures RoleAtLeast(r, Reviewer) <==> r in {Reviewer, Admin}
    ensures RoleAtLeast(r, Admin) <==> r == Admin
  {
  }

  /** If the item's space has an owner, the principal is the one. */
  predicate OwnOrShared(p: Principal, t: Tables, it: Item) {
    forall k | k in t.spaces && it.space == Some(k) :: t.spaces[k].owner in {None, Some(p.userId)}
  }

  /** The group is everybody's, one of the principal's, or that of the one user. */
  predicate IsIn(p: Principal, group: string) {
    || group == "public" || group in p.groups
    || (p.kind == UserPrincipal && p.userId !in {"", "anonymous"} && group == "user:" + p.userId)
  }

  predicate InOneOf(p: Principal, groups: seq<string>) {
    exists i | 0 <= i < |groups| :: IsIn(p, groups[i])
  }

  lemma EffectiveExact(p: Principal, group: string)
    ensures group in EffectiveGroups(p) <==> IsIn(p, group)
  {
  }

  lemma GroupsPassExact(p: Principal, groups: seq<string>)
    ensures GroupsPass(p, Some(groups)) <==> groups == [] || InOneOf(p, groups)
  {
    if InOneOf(p, groups) {
      var i :| 0 <= i < |groups| && IsIn(p, groups[i]);
      EffectiveExact(p, groups[i]);
      assert groups[i] in groups;
    }
    if g :| g in groups && g in EffectiveGroups(p) {
      EffectiveExact(p, g);
      var i :| 0 <= i < |groups| && groups[i] == g;
    }
  }

  /** What may be read of a personal space is read by its owner alone. */
  lemma PersonalSpaceIsPrivate(p: Principal, t: Tables, it: Item, k: Id, owner: string)
    requires Readable(p, t, it) && it.space == Some(k) && k in t.spaces && t.spaces[k].owner == Some(owner)
    ensures owner == p.userId
  {
  }

  /** A source page may be read exactly by those admitted to it, in a shared space or their own, and in one
      of its groups if it has any. */
  lemma SourceReadableIff(p: Principal, t: Tables, it: Item)
    requires it.isSource
    ensures Readable(p, t, it) <==>
      && it in t.items && it.published && it.hasVersion && Admitted(p, t, it) && OwnOrShared(p, t, it)
      && (it.allowedGroups.Some? && it.allowedGroups.value != [] ==> InOneOf(p, it.allowedGroups.value))
  {
    OwnOrSharedExact(p, t, it);
    if it.allowedGroups.Some? {
      GroupsPassExact(p, it.allowedGroups.value);
    }
  }

  lemma OwnOrSharedExact(p: Principal, t: Tables, it: Item)
    ensures PersonalOk(p, t, it) <==> OwnOrShared(p, t, it)
  {
    if it.space.Some? && it.space.value in t.spaces {
      var k := it.space.value;
      assert OwnOrShared(p, t, it) ==> t.spaces[k].owner in {None, Some(p.userId)};
    }
  }

  /** A derived page may be read exactly by those admitted to it, in a shared space or their own, who may
      read a source page under every slug it names. */
  lemma DerivedReadableIff(p: Principal, t: Tables, it: Item)
    requires !it.isSource
    ensures Readable(p, t, it) <==>
      && it in t.items && it.published && it.hasVersion && Admitted(p, t, it) && OwnOrShared(p, t, it)
      && forall i | 0 <= i < |it.sourcePages| :: ReadsSource(p, t, it.sourcePages[i])
  {
    forall slug
      ensures ReadsSource(p, t, slug) <==> HasReadableSource(p, t, slug)
    {
      if ReadsSource(p, t, slug) {
        var src :| src in t.items && src.isSource && src.slug == slug && Readable(p, t, src);
        assert ReadableSource(p, t, src);
      }
      if HasReadableSource(p, t, slug) {
        var src :| ReadableSource(p, t, src) && src.slug == slug;
        assert Readable(p, t, src);
      }
    }
  }

  ghost predicate ReadsSource(p: Principal, t: Tables, slug: string) {
    exists src :: src in t.items && src.isSource && src.slug == slug && Readable(p, t, src)
  }

  /** A grant of one of these roles whose scope is at or above the wanted one, if one is wanted. */
  ghost predicate HoldsRole(p: Principal, t: Tables, roles: set<Role>, scope: Option<Scope>) {
    exists g :: g in t.grants && Confers(g, p, roles) && (scope.Some? ==> GrantCoversScope(t, g, scope.value))
  }

  predicate IsDeveloper(p: Principal, devEnv: bool) {
    devEnv && p.kind == UserPrincipal && p.userId == "dev"
  }

  /** Who passes which gate: by header role, as the local developer, or by a grant. */
  lemma GatesExact(p: Principal, t: Tables, scope: Option<Scope>, devEnv: bool)
    ensures CanWrite(p, t, scope, devEnv) <==>
      || "editor" in p.roles || "reviewer" in p.roles || "admin" in p.roles || IsDeveloper(p, devEnv)
      || HoldsRole(p, t, {Editor, Reviewer, Admin}, scope)
    ensures CanReview(p, t, scope, devEnv) <==>
      "reviewer" in p.roles || IsDeveloper(p, devEnv) || HoldsRole(p, t, {Reviewer, Admin}, scope)
    ensures CanAdmin(p, t, scope, devEnv) <==>
      "admin" in p.roles || IsDeveloper(p, devEnv) || HoldsRole(p, t, {Admin}, scope)
  {
    HeldRoles(p, t, Editor, {Editor, Reviewer, Admin}, scope);
    HeldRoles(p, t, Reviewer, {Reviewer, Admin}, scope);
    HeldRoles(p, t, Admin, {Admin}, scope);
    assert "reviewer" in p.roles ==> "reviewer" in p.roles * {"reviewer"};
    assert "admin" in p.roles ==> "admin" in p.roles * {"admin"};
    var writers := {"editor", "reviewer", "admin"};
    assert "editor" in p.roles ==> "editor" in p.roles * writers;
    assert "reviewer" in p.roles ==> "reviewer" in p.roles * writers;
    assert "admin" in p.roles ==> "admin" in p.roles * writers;
  }

  lemma HeldRoles(p: Principal, t: Tables, minimum: Role, roles: set<Role>, scope: Option<Scope>)
    requires forall r: Role :: r in roles <==> RoleAtLeast(r, minimum)
    ensures HasGrantAtLeast(p, t, minimum, scope) <==> HoldsRole(p, t, roles, scope)
  {
    forall g
      ensures Grants(p, g, minimum) <==> Confers(g, p, roles)
    {
    }
    if HoldsRole(p, t, roles, scope) {
      var g :| g in t.grants && Confers(g, p, roles) && (scope.Some? ==> GrantCoversScope(t, g, scope.value));
      assert Grants(p, g, minimum);
    }
  }
}
