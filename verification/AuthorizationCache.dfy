/**
 The tenant resolver's permission cache, keyed by organization, user, membership and
 `authorizationVersion`. A request reads its membership, organization and role, later looks in the
 cache, later still reads the grants, and last stores them; writers run anywhere in between.
 */
module AuthorizationCache {
  import opened Prelude
  import opened Rbac

  // ---------------------------------------------------------------------------------------------
  // What a write may do to a membership that may have a live cache entry
  // ---------------------------------------------------------------------------------------------

  /** The resolver accepts this membership, and its organization has left set-up. */
  ghost predicate Protected(db: Db, id: MembershipId) {
    && id in db.memberships
    && db.memberships[id].status == ActiveMember
    && Usable(db, db.memberships[id])
    && db.memberships[id].org in db.orgs
    && db.orgs[db.memberships[id].org].status != PendingSetup
  }

  ghost predicate SameAuthority(db: Db, db': Db, id: MembershipId)
    requires Protected(db, id)
  {
    && Protected(db', id)
    && db'.memberships[id].user == db.memberships[id].user
    && db'.memberships[id].org == db.memberships[id].org
    && db'.memberships[id].role == db.memberships[id].role
    && ActiveActions(db', db.memberships[id].role.value) == ActiveActions(db, db.memberships[id].role.value)
  }

  /** The write bumped the membership's organization, or left the membership's authority as it was. */
  ghost predicate Covered(db: Db, db': Db, id: MembershipId)
    requires Protected(db, id)
  {
    var org := db.memberships[id].org;
    org in db'.orgs && (db'.orgs[org].version == db.orgs[org].version ==> SameAuthority(db, db', id))
  }

  /** Versions only grow, organizations stay, and none returns to set-up. */
  ghost predicate OrgsKept(db: Db, db': Db) {
    forall o | o in db.orgs ::
      && o in db'.orgs && db.orgs[o].version <= db'.orgs[o].version
      && (db'.orgs[o].status == PendingSetup ==> db.orgs[o].status == PendingSetup)
  }

  ghost predicate GrantsLinked(db: Db) {
    forall g | g in db.grants :: g.permission in db.permissions
  }

  lemma BumpOrgs(db: Db, orgs: set<OrgId>)
    ensures var db' := Bump(db, orgs);
      && db'.(orgs := db.orgs) == db && db'.orgs.Keys == db.orgs.Keys
      && (forall o | o in db.orgs ::
            db'.orgs[o].status == db.orgs[o].status
            && db'.orgs[o].version == db.orgs[o].version + if o in orgs then 1 else 0)
  {
  }

  /** Authority is read from memberships, roles, grants and permissions only. */
  lemma UnchangedAuthority(db: Db, db': Db, id: MembershipId)
    requires Protected(db, id) && OrgsKept(db, db')
    requires id in db'.memberships && db'.memberships[id] == db.memberships[id]
    requires var r := db.memberships[id].role.value; r in db'.roles && db'.roles[r] == db.roles[r]
    requires ActiveActions(db', db.memberships[id].role.value) == ActiveActions(db, db.memberships[id].role.value)
    ensures SameAuthority(db, db', id)
  {
  }

  lemma TenantCovered(db: Db, w: Write, id: MembershipId)
    requires w.CreateTenantRole? || w.UpdateTenantRole? || w.ReplaceTenantPermissions? || w.AssignRole? || w.RevokeRole?
    requires Protected(db, id)
    ensures Covered(db, ApplyTenant(db, w).0, id)
  {
    var db' := ApplyTenant(db, w).0;
    if db' != db {
      BumpOrgs(db'.(orgs := db.orgs), {w.org});
      if db.memberships[id].org != w.org {
        var r := db.memberships[id].role.value;
        assert ActiveActions(db', r) == ActiveActions(db, r);
        UnchangedAuthority(db, db', id);
      }
    }
  }

  lemma TenantRolesCovered(db: Db, w: Write, id: MembershipId)
    requires w.CreateRoleQuietly? || w.ToggleTenantRole? || w.RemoveTenantRole?
    requires Protected(db, id)
    ensures Covered(db, ApplyTenantRoles(db, w).0, id)
  {
    var db' := ApplyTenantRoles(db, w).0;
    if db' != db {
      var r := db.memberships[id].role.value;
      if w.ToggleTenantRole? { BumpOrgs(db'.(orgs := db.orgs), {w.org}); }
      if w.RemoveTenantRole? { assert w.role != r by { assert !InUse(db, w.role); } }
      assert w.role != r ==> ActiveActions(db', r) == ActiveActions(db, r);
    }
  }

  /** A permission write bumps every organization one of whose usable roles grants the permission. */
  lemma GrantingOrgAffected(db: Db, id: MembershipId, permission: PermId)
    requires Protected(db, id)
    requires db.memberships[id].org !in Affected(db, GrantedRoles(db, permission))
    ensures forall g | g in db.grants && g.role == db.memberships[id].role :: g.permission != permission
  {
    var m := db.memberships[id];
    var roles := GrantedRoles(db, permission);
    if m.role.value in roles {
      assert !Depends(db, roles, m.org);
      if db.roles[m.role.value].scope == Tenant {
        assert IsTenantOf(db, m.role.value, m.org);
      } else {
        assert IsActiveOn(db, m, roles, m.org);
      }
    }
  }

  lemma PermissionCovered(db: Db, w: Write, id: MembershipId)
    requires w.CreatePermission? || w.UpdatePermission? || w.DeletePermission?
    requires Protected(db, id) && GrantsLinked(db)
    ensures Covered(db, ApplyPermission(db, w).0, id)
  {
    var db' := ApplyPermission(db, w).0;
    if db' != db {
      var m := db.memberships[id];
      var roles := GrantedRoles(db, w.permission);
      if !w.CreatePermission? { BumpOrgs(db'.(orgs := db.orgs), Affected(db, roles)); }
      if db'.orgs[m.org].version == db.orgs[m.org].version {
        if !w.CreatePermission? { GrantingOrgAffected(db, id, w.permission); }
        SameActions(db, db', m.role.value, w.permission);
      }
    }
  }

  lemma SameActions(db: Db, db': Db, role: RoleId, permission: PermId)
    requires GrantsLinked(db)
    requires forall g: Grant | g.role == Some(role) && g.permission != permission :: g in db'.grants <==> g in db.grants
    requires permission in db.permissions ==> forall g | g in db.grants && g.role == Some(role) :: g.permission != permission
    requires db'.grants <= db.grants
    requires forall p | p != permission :: p in db'.permissions <==> p in db.permissions
    requires forall p | p != permission && p in db.permissions :: db'.permissions[p] == db.permissions[p]
    ensures ActiveActions(db', role) == ActiveActions(db, role)
  {
    forall a ensures a in ActiveActions(db', role) <==> a in ActiveActions(db, role) {
      if a in ActiveActions(db, role) {
        var g :| g in db.grants && g.role == Some(role) && IsLive(db.permissions, g.permission)
          && db.permissions[g.permission].action == a;
        assert g in db'.grants && IsLive(db'.permissions, g.permission);
      }
    }
  }

  lemma SystemCovered(db: Db, w: Write, id: MembershipId)
    requires w.UpdateSystemRole? || w.ReplaceSystemPermissions? || w.GrantToSystem? || w.RevokeFromSystem?
    requires Protected(db, id)
    ensures Covered(db, ApplySystem(db, w).0, id)
  {
    var db' := ApplySystem(db, w).0;
    if db' != db {
      BumpOrgs(db'.(orgs := db.orgs), db.orgs.Keys);
    }
  }

  /** Repair touches only a membership the resolver refuses; a new membership is a new row. */
  lemma MemberCovered(db: Db, w: Write, id: MembershipId)
    requires w.CreateMembership? || w.RepairRole? || w.Deactivate? || w.Activate? || w.Reconcile?
    requires Protected(db, id)
    ensures Covered(db, ApplyMember(db, w).0, id)
  {
    var db' := ApplyMember(db, w).0;
    if db' != db && (w.Deactivate? || w.Activate? || w.Reconcile?) {
      BumpOrgs(db'.(orgs := db.orgs), {w.org});
    }
  }

  /** Provisioning rewrites memberships of an organization in set-up only. */
  lemma OrgCovered(db: Db, w: Write, id: MembershipId)
    requires w.CreateOrg? || w.Provision? || w.FailProvisioning? || w.TransitionOrg?
    requires Protected(db, id)
    ensures Covered(db, ApplyOrg(db, w).0, id)
  {
  }

  lemma WriteCovered(db: Db, w: Write, id: MembershipId)
    requires Protected(db, id) && GrantsLinked(db)
    ensures Covered(db, Apply(db, w).0, id)
  {
    if w.CreateTenantRole? || w.UpdateTenantRole? || w.ReplaceTenantPermissions? || w.AssignRole? || w.RevokeRole? {
      TenantCovered(db, w, id);
    } else if w.CreateRoleQuietly? || w.ToggleTenantRole? || w.RemoveTenantRole? {
      TenantRolesCovered(db, w, id);
    } else if w.CreatePermission? || w.UpdatePermission? || w.DeletePermission? {
      PermissionCovered(db, w, id);
    } else if w.UpdateSystemRole? || w.ReplaceSystemPermissions? || w.GrantToSystem? || w.RevokeFromSystem? {
      SystemCovered(db, w, id);
    } else if w.CreateOrg? || w.Provision? || w.FailProvisioning? || w.TransitionOrg? {
      OrgCovered(db, w, id);
    } else {
      MemberCovered(db, w, id);
    }
  }

  lemma TenantKeepsOrgs(db: Db, w: Write)
    requires w.CreateTenantRole? || w.UpdateTenantRole? || w.ReplaceTenantPermissions? || w.AssignRole? || w.RevokeRole?
    ensures OrgsKept(db, ApplyTenant(db, w).0)
  {
    var db' := ApplyTenant(db, w).0;
    if db' != db { BumpOrgs(db'.(orgs := db.orgs), {w.org}); }
  }

  lemma TenantRolesKeepOrgs(db: Db, w: Write)
    requires w.CreateRoleQuietly? || w.ToggleTenantRole? || w.RemoveTenantRole?
    ensures OrgsKept(db, ApplyTenantRoles(db, w).0)
  {
    if w.ToggleTenantRole? { BumpOrgs(ApplyTenantRoles(db, w).0.(orgs := db.orgs), {w.org}); }
  }

  lemma PermissionKeepsOrgs(db: Db, w: Write)
    requires w.CreatePermission? || w.UpdatePermission? || w.DeletePermission?
    ensures OrgsKept(db, ApplyPermission(db, w).0)
  {
    var db' := ApplyPermission(db, w).0;
    if db' != db && !w.CreatePermission? {
      BumpOrgs(db'.(orgs := db.orgs), Affected(db, GrantedRoles(db, w.permission)));
    }
  }

  lemma SystemKeepsOrgs(db: Db, w: Write)
    requires w.UpdateSystemRole? || w.ReplaceSystemPermissions? || w.GrantToSystem? || w.RevokeFromSystem?
    ensures OrgsKept(db, ApplySystem(db, w).0)
  {
    var db' := ApplySystem(db, w).0;
    if db' != db { BumpOrgs(db'.(orgs := db.orgs), db.orgs.Keys); }
  }

  lemma MemberKeepsOrgs(db: Db, w: Write)
    requires w.CreateMembership? || w.RepairRole? || w.Deactivate? || w.Activate? || w.Reconcile?
    ensures OrgsKept(db, ApplyMember(db, w).0)
  {
    var db' := ApplyMember(db, w).0;
    if db' != db && (w.Deactivate? || w.Activate? || w.Reconcile?) { BumpOrgs(db'.(orgs := db.orgs), {w.org}); }
  }

  lemma OrgWriteKeepsOrgs(db: Db, w: Write)
    requires w.CreateOrg? || w.Provision? || w.FailProvisioning? || w.TransitionOrg?
    ensures OrgsKept(db, ApplyOrg(db, w).0)
  {
  }

  lemma WriteKeepsOrgs(db: Db, w: Write)
    ensures OrgsKept(db, Apply(db, w).0)
  {
    if w.CreateTenantRole? || w.UpdateTenantRole? || w.ReplaceTenantPermissions? || w.AssignRole? || w.RevokeRole? {
      TenantKeepsOrgs(db, w);
    } else if w.CreateRoleQuietly? || w.ToggleTenantRole? || w.RemoveTenantRole? {
      TenantRolesKeepOrgs(db, w);
    } else if w.CreatePermission? || w.UpdatePermission? || w.DeletePermission? {
      PermissionKeepsOrgs(db, w);
    } else if w.UpdateSystemRole? || w.ReplaceSystemPermissions? || w.GrantToSystem? || w.RevokeFromSystem? {
      SystemKeepsOrgs(db, w);
    } else if w.CreateOrg? || w.Provision? || w.FailProvisioning? || w.TransitionOrg? {
      OrgWriteKeepsOrgs(db, w);
    } else {
      MemberKeepsOrgs(db, w);
    }
  }

  lemma WriteKeepsGrants(db: Db, w: Write)
    requires GrantsLinked(db)
    ensures GrantsLinked(Apply(db, w).0)
  {
  }

  // ---------------------------------------------------------------------------------------------
  // The resolver's checks
  // ---------------------------------------------------------------------------------------------

  datatype Rejection = InvalidMembership | InactiveRole | MissingRole | CrossTenantRole

  /** The checks of `buildContext`, in their order; None accepts. */
  function Check(db: Db, id: MembershipId, user: UserId, org: OrgId): Option<Rejection> {
    if id !in db.memberships || db.memberships[id].user != user || db.memberships[id].org != org
       || db.memberships[id].status != ActiveMember || org !in db.orgs || db.orgs[org].status != ActiveOrg
    then Some(InvalidMembership)
    else
      var role := db.memberships[id].role;
      if role.Some? && role.value in db.roles && !db.roles[role.value].active then Some(InactiveRole)
      else if role.None? || role.value !in db.roles then Some(MissingRole)
      else
        var row := db.roles[role.value];
        if (row.scope == Tenant && row.org != Some(org)) || (row.scope == System && row.org != None)
        then Some(CrossTenantRole) else None
  }

  /** The resolver accepts exactly an ACTIVE membership of that user in an ACTIVE organization with a valid role. */
  lemma AcceptsExactly(db: Db, id: MembershipId, user: UserId, org: OrgId)
    ensures Check(db, id, user, org) == None <==>
      && id in db.memberships && db.memberships[id].user == user && db.memberships[id].org == org
      && db.memberships[id].status == ActiveMember && org in db.orgs && db.orgs[org].status == ActiveOrg
      && Usable(db, db.memberships[id])
    ensures Check(db, id, user, org) == None ==> Protected(db, id)
  {
  }

  /** Some grant of the role names an active permission with that action. */
  ghost predicate Holds(db: Db, role: RoleId, action: string) {
    exists g :: g in db.grants && Gives(db, g, role, action)
  }

  ghost predicate Gives(db: Db, g: Grant, role: RoleId, action: string) {
    && g.role == Some(role) && g.permission in db.permissions
    && db.permissions[g.permission].active && db.permissions[g.permission].action == action
  }

  lemma ActionsExactly(db: Db, role: RoleId, action: string)
    ensures action in ActiveActions(db, role) <==> Holds(db, role, action)
  {
    if Holds(db, role, action) {
      var g :| g in db.grants && Gives(db, g, role, action);
      assert IsLive(db.permissions, g.permission);
    }
  }

  // ---------------------------------------------------------------------------------------------
  // Requests and writers interleaved
  // ---------------------------------------------------------------------------------------------

  datatype CacheKey = CacheKey(org: OrgId, user: UserId, membership: MembershipId, version: nat)

  /** A request past its checks, with the role it fetched; `missed` once it has looked in the cache. */
  datatype Reader = Reader(key: CacheKey, role: RoleId, missed: bool, permissions: Option<set<string>>)

  datatype World = World(db: Db, cache: map<CacheKey, set<string>>, readers: map<nat, Reader>)

  datatype Action =
    | DoWrite(write: Write)
    | Fetch(id: nat, membership: MembershipId, user: UserId, org: OrgId)
    | Lookup(id: nat)
    | ReadGrants(id: nat)
    | Store(id: nat)
    | Evict(key: CacheKey)

  function Step(w: World, a: Action): World {
    match a
    case DoWrite(write) => w.(db := Apply(w.db, write).0)
    case Fetch(id, membership, user, org) =>
      if id in w.readers || Check(w.db, membership, user, org).Some? then w
      else
        var key := CacheKey(org, user, membership, w.db.orgs[org].version);
        w.(readers := w.readers[id := Reader(key, w.db.memberships[membership].role.value, false, None)])
    case Lookup(id) =>
      if id !in w.readers then w
      else if w.readers[id].key in w.cache then w.(readers := w.readers - {id})   // a hit: answered from the cache
      else w.(readers := w.readers[id := w.readers[id].(missed := true)])
    case ReadGrants(id) =>
      if id !in w.readers || !w.readers[id].missed then w
      else w.(readers := w.readers[id := w.readers[id].(permissions := Some(ActiveActions(w.db, w.readers[id].role)))])
    case Store(id) =>
      if id !in w.readers || w.readers[id].permissions.None? then w
      else w.(cache := w.cache[w.readers[id].key := w.readers[id].permissions.value], readers := w.readers - {id})
    case Evict(key) => w.(cache := w.cache - {key})
  }

  function Run(w: World, actions: seq<Action>): World {
    if actions == [] then w else Step(Run(w, actions[..|actions| - 1]), actions[|actions| - 1])
  }

  ghost predicate Past(db: Db, key: CacheKey) {
    key.org in db.orgs && key.version <= db.orgs[key.org].version
  }

  ghost predicate IsAt(db: Db, key: CacheKey) {
    key.org in db.orgs && key.version == db.orgs[key.org].version
  }

  ghost predicate Owns(db: Db, key: CacheKey) {
    && Protected(db, key.membership)
    && db.memberships[key.membership].user == key.user && db.memberships[key.membership].org == key.org
  }

  ghost predicate EntryFresh(db: Db, key: CacheKey, permissions: set<string>) {
    Owns(db, key) && permissions == ActiveActions(db, db.memberships[key.membership].role.value)
  }

  ghost predicate ReaderFresh(db: Db, r: Reader) {
    && Owns(db, r.key) && db.memberships[r.key.membership].role == Some(r.role)
    && (r.permissions.Some? ==> r.permissions.value == ActiveActions(db, r.role))
  }

  ghost predicate CacheCoherent(db: Db, cache: map<CacheKey, set<string>>) {
    forall key | key in cache :: Past(db, key) && (IsAt(db, key) ==> EntryFresh(db, key, cache[key]))
  }

  ghost predicate Coherent(w: World) {
    && GrantsLinked(w.db)
    && CacheCoherent(w.db, w.cache)
    && (forall id | id in w.readers ::
          Past(w.db, w.readers[id].key) && (IsAt(w.db, w.readers[id].key) ==> ReaderFresh(w.db, w.readers[id])))
  }

  lemma WriteCoherent(w: World, write: Write)
    requires Coherent(w)
    ensures Coherent(Step(w, DoWrite(write)))
  {
    var db' := Apply(w.db, write).0;
    WriteKeepsOrgs(w.db, write);
    WriteKeepsGrants(w.db, write);
    forall key | key in w.cache
      ensures Past(db', key) && (IsAt(db', key) ==> EntryFresh(db', key, w.cache[key]))
    {
      assert Past(w.db, key);
      if IsAt(db', key) { WriteCovered(w.db, write, key.membership); }
    }
    forall id | id in w.readers
      ensures Past(db', w.readers[id].key) && (IsAt(db', w.readers[id].key) ==> ReaderFresh(db', w.readers[id]))
    {
      assert Past(w.db, w.readers[id].key);
      if IsAt(db', w.readers[id].key) { WriteCovered(w.db, write, w.readers[id].key.membership); }
    }
  }

  lemma StepCoherent(w: World, a: Action)
    requires Coherent(w)
    ensures Coherent(Step(w, a))
  {
    match a
    case DoWrite(write) => WriteCoherent(w, write);
    case Fetch(_, membership, user, org) => AcceptsExactly(w.db, membership, user, org);
    case Lookup(_) =>
    case ReadGrants(_) =>
    case Store(_) =>
    case Evict(_) =>
  }

  lemma {:induction false} RunCoherent(db: Db, actions: seq<Action>)
    requires GrantsLinked(db)
    ensures Coherent(Run(World(db, map[], map[]), actions))
  {
    if actions != [] {
      RunCoherent(db, actions[..|actions| - 1]);
      StepCoherent(Run(World(db, map[], map[]), actions[..|actions| - 1]), actions[|actions| - 1]);
    }
  }

  /**
   Cache coherence: in every interleaving, a permission list keyed by its organization's current version
   belongs to an ACTIVE membership of that user there, with a valid role, and is exactly the active
   grants of that role.
   */
  lemma HitIsFresh(db: Db, actions: seq<Action>, key: CacheKey)
    requires GrantsLinked(db)
    ensures var w := Run(World(db, map[], map[]), actions);
      key in w.cache && IsAt(w.db, key) ==>
        && key.membership in w.db.memberships
        && var m := w.db.memberships[key.membership];
           m.user == key.user && m.org == key.org && m.status == ActiveMember && Usable(w.db, m)
           && w.cache[key] == ActiveActions(w.db, m.role.value)
  {
    RunCoherent(db, actions);
  }

  /** So a cached list at the current version has an action exactly when an active grant of the role gives it. */
  lemma CachedExactly(db: Db, actions: seq<Action>, key: CacheKey, action: string)
    requires GrantsLinked(db)
    ensures var w := Run(World(db, map[], map[]), actions);
      key in w.cache && IsAt(w.db, key) ==>
        && key.membership in w.db.memberships && w.db.memberships[key.membership].role.Some?
        && (action in w.cache[key] <==> Holds(w.db, w.db.memberships[key.membership].role.value, action))
  {
    HitIsFresh(db, actions, key);
    var w := Run(World(db, map[], map[]), actions);
    if key in w.cache && IsAt(w.db, key) { ActionsExactly(w.db, w.db.memberships[key.membership].role.value, action); }
  }

  // ---------------------------------------------------------------------------------------------
  // The service
  // ---------------------------------------------------------------------------------------------

  datatype Context = Context(permissions: set<string>, role: RoleId, version: nat)

  class TenantResolverService {
    var permissionCache: map<CacheKey, set<string>>

    constructor ()
      ensures permissionCache == map[]
    {
      permissionCache := map[];
    }

    /** `buildContext` without interference: refuse as `Check` does, or answer with the role's active grants. */
    method BuildContext(db: Db, id: MembershipId, user: UserId, org: OrgId) returns (context: Option<Context>)
      requires CacheCoherent(db, permissionCache)
      modifies this
      ensures CacheCoherent(db, permissionCache)
      ensures context.None? <==> Check(db, id, user, org).Some?
      ensures context.Some? ==>
        && id in db.memberships && db.memberships[id].role == Some(context.value.role)
        && (forall a :: a in context.value.permissions <==> Holds(db, context.value.role, a))
        && org in db.orgs && context.value.version == db.orgs[org].version
    {
      if Check(db, id, user, org).Some? { return None; }
      AcceptsExactly(db, id, user, org);
      var role := db.memberships[id].role.value;
      var key := CacheKey(org, user, id, db.orgs[org].version);
      var permissions: set<string>;
      if key in permissionCache {
        permissions := permissionCache[key];
      } else {
        permissions := ActiveActions(db, role);
        permissionCache := permissionCache[key := permissions];
      }
      forall a ensures a in permissions <==> Holds(db, role, a) { ActionsExactly(db, role, a); }
      return Some(Context(permissions, role, db.orgs[org].version));
    }
  }

  // ---------------------------------------------------------------------------------------------
  // The organization lifecycle
  // ---------------------------------------------------------------------------------------------

  ghost predicate LifecycleKept(db: Db, db': Db) {
    forall o | o in db.orgs ::
      && o in db'.orgs
      && (db'.orgs[o].status == PendingSetup ==> db.orgs[o].status == PendingSetup)
      && (db.orgs[o].status == ArchivedOrg ==> db'.orgs[o].status == ArchivedOrg)
  }

  /** An organization that becomes ACTIVE was provisioned and had an active owner with a usable role. */
  ghost predicate ActivationsReady(db: Db, db': Db) {
    forall o | o in db.orgs && o in db'.orgs && db.orgs[o].status != ActiveOrg && db'.orgs[o].status == ActiveOrg ::
      db.orgs[o].onboarding == Ready && HasUsableOwner(db, o)
  }

  lemma OrgWriteLifecycle(db: Db, w: Write)
    requires w.CreateOrg? || w.Provision? || w.FailProvisioning? || w.TransitionOrg?
    ensures LifecycleKept(db, ApplyOrg(db, w).0) && ActivationsReady(db, ApplyOrg(db, w).0)
  {
  }

  ghost predicate SameStatuses(db: Db, db': Db) {
    forall o | o in db.orgs :: o in db'.orgs && db'.orgs[o].status == db.orgs[o].status
  }

  lemma OtherWritesKeepStatus(db: Db, w: Write)
    requires !w.CreateOrg? && !w.Provision? && !w.FailProvisioning? && !w.TransitionOrg?
    ensures SameStatuses(db, Apply(db, w).0)
  {
  }

  lemma WriteLifecycle(db: Db, w: Write)
    ensures LifecycleKept(db, Apply(db, w).0) && ActivationsReady(db, Apply(db, w).0)
  {
    if w.CreateOrg? || w.Provision? || w.FailProvisioning? || w.TransitionOrg? {
      OrgWriteLifecycle(db, w);
    } else {
      OtherWritesKeepStatus(db, w);
    }
  }

  function WriteRun(db: Db, writes: seq<Write>): Db {
    if writes == [] then db else Apply(WriteRun(db, writes[..|writes| - 1]), writes[|writes| - 1]).0
  }

  /** In every run no organization returns to set-up or leaves the archive. */
  lemma {:induction false} LifecycleSafe(db: Db, writes: seq<Write>)
    ensures LifecycleKept(db, WriteRun(db, writes))
  {
    if writes != [] {
      LifecycleSafe(db, writes[..|writes| - 1]);
      WriteLifecycle(WriteRun(db, writes[..|writes| - 1]), writes[|writes| - 1]);
    }
  }
}
