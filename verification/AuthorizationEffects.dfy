/**
 What each write of roles, grants, permissions, memberships and organizations means for the next
 request: whom the resolver accepts, and which actions it answers. Stated on the tables alone.
 */
module AuthorizationEffects {
  import opened Prelude
  import opened Rbac
  import opened AuthorizationCache

  // ---------------------------------------------------------------------------------------------
  // Acceptance
  // ---------------------------------------------------------------------------------------------

  /** An active role of the whole system, or of this organization. */
  predicate RoleServes(db: Db, role: RoleId, org: OrgId) {
    && role in db.roles && db.roles[role].active
    && db.roles[role].org == (if db.roles[role].scope == Tenant then Some(org) else None)
  }

  /** The resolver accepts this membership for its own user and organization. */
  predicate Accepted(db: Db, id: MembershipId) {
    id in db.memberships && Check(db, id, db.memberships[id].user, db.memberships[id].org) == None
  }

  lemma AcceptedExactly(db: Db, id: MembershipId)
    ensures Accepted(db, id) <==>
      && id in db.memberships && db.memberships[id].status == ActiveMember
      && db.memberships[id].org in db.orgs && db.orgs[db.memberships[id].org].status == ActiveOrg
      && db.memberships[id].role.Some? && RoleServes(db, db.memberships[id].role.value, db.memberships[id].org)
  {
  }

  // ---------------------------------------------------------------------------------------------
  // Writes of memberships
  // ---------------------------------------------------------------------------------------------

  ghost predicate OtherMembersSame(db: Db, db': Db, id: MembershipId) {
    && (forall m | m in db.memberships && m != id :: m in db'.memberships && db'.memberships[m] == db.memberships[m])
    && (forall m | m in db'.memberships && m != id :: m in db.memberships)
  }

  /** Exactly a role that serves the tenant may be assigned, and it is then the membership's. */
  lemma AssignExactly(db: Db, id: MembershipId, org: OrgId, role: RoleId)
    ensures var (db', outcome) := Apply(db, AssignRole(id, org, role));
      && (outcome == Done <==> id in db.memberships && db.memberships[id].org == org && RoleServes(db, role, org))
      && (outcome != Done ==> db' == db)
      && (outcome == Done ==>
            && id in db'.memberships && db'.memberships[id] == db.memberships[id].(role := Some(role))
            && OtherMembersSame(db, db', id)
            && (db.memberships[id].status == ActiveMember && org in db.orgs && db.orgs[org].status == ActiveOrg ==>
                  Accepted(db', id)))
  {
  }

  /** Only a membership that is not ACTIVE loses its role. */
  lemma RevokeExactly(db: Db, id: MembershipId, org: OrgId)
    ensures var (db', outcome) := Apply(db, RevokeRole(id, org));
      && (outcome == Done <==>
            id in db.memberships && db.memberships[id].org == org && db.memberships[id].status != ActiveMember)
      && (outcome != Done ==> db' == db)
      && (outcome == Done ==>
            id in db'.memberships && db'.memberships[id] == db.memberships[id].(role := None) && OtherMembersSame(db, db', id))
  {
  }

  /** A new member is accepted at once in an ACTIVE organization; a second membership there is refused. */
  lemma JoinExactly(db: Db, id: MembershipId, user: UserId, org: OrgId, role: RoleId)
    ensures var (db', outcome) := Apply(db, CreateMembership(id, user, org, role));
      && (outcome == Done <==>
            && org in db.orgs && id !in db.memberships && RoleServes(db, role, org)
            && (forall m | m in db.memberships :: db.memberships[m].user != user || db.memberships[m].org != org))
      && (outcome != Done ==> db' == db)
      && (outcome == Done ==>
            && id in db'.memberships && db'.memberships[id] == Membership(user, org, Some(role), ActiveMember, false)
            && OtherMembersSame(db, db', id) && (db.orgs[org].status == ActiveOrg ==> Accepted(db', id)))
  {
  }

  /** A repair leaves a usable role alone and replaces any other. */
  lemma RepairExactly(db: Db, id: MembershipId, role: RoleId)
    requires id in db.memberships
    ensures var (db', outcome) := Apply(db, RepairRole(id, role));
      var m := db.memberships[id];
      var usable := m.role.Some? && RoleServes(db, m.role.value, m.org);
      && (outcome == Done <==> m.status == ActiveMember && (usable || RoleServes(db, role, m.org)))
      && db' == if outcome == Done && !usable then db.(memberships := db.memberships[id := m.(role := Some(role))]) else db
  {
  }

  /** A deactivated user is accepted nowhere in that organization; nobody else is touched. */
  lemma DeactivateRefuses(db: Db, user: UserId, org: OrgId, id: MembershipId)
    requires user in db.users && id in db.memberships
    ensures var (db', outcome) := Apply(db, Deactivate(user, org));
      var m := db.memberships[id];
      && outcome == Done && user in db'.users && !db'.users[user].active && id in db'.memberships
      && (m.user == user && m.org == org ==> !Accepted(db', id))
      && db'.memberships[id] ==
           if m.user == user && m.org == org && m.status == ActiveMember then m.(status := SuspendedMember) else m
  {
  }

  /** An activated user's membership there is ACTIVE again, and accepted if its role and organization allow it. */
  lemma ActivateRestores(db: Db, user: UserId, org: OrgId, id: MembershipId)
    requires id in db.memberships && db.memberships[id].user == user && db.memberships[id].org == org
    ensures var (db', outcome) := Apply(db, Activate(user, org));
      var m := db.memberships[id];
      && (outcome == Done <==> user in db.users && !db.users[user].active)
      && (outcome == Done ==>
            && db'.users[user].active && id in db'.memberships && db'.memberships[id] == m.(status := ActiveMember)
            && (org in db.orgs && db.orgs[org].status == ActiveOrg && m.role.Some? && RoleServes(db, m.role.value, org) ==>
                  Accepted(db', id)))
  {
  }

  // ---------------------------------------------------------------------------------------------
  // Writes of roles
  // ---------------------------------------------------------------------------------------------

  /** A tenant switches off only a role no ACTIVE member has, and a system role, once off, serves nobody. */
  lemma RoleSwitches(db: Db, role: RoleId, org: OrgId, value: bool, id: MembershipId)
    requires role in db.roles
    ensures var (db', outcome) := Apply(db, UpdateTenantRole(role, org, Some(value)));
      && (outcome == Done <==>
            && db.roles[role].scope == Tenant && db.roles[role].org == Some(org)
            && (value || forall m | m in db.memberships ::
                  db.memberships[m].role != Some(role) || db.memberships[m].status != ActiveMember))
      && (outcome == Done ==> db'.roles == db.roles[role := db.roles[role].(active := value)])
    ensures var (db', outcome) := Apply(db, UpdateSystemRole(role, Some(value)));
      && (outcome == Done <==> db.roles[role].scope == System && db.roles[role].org == None)
      && (outcome == Done ==>
            && db'.roles == db.roles[role := db.roles[role].(active := value)]
            && (!value && id in db.memberships && db.memberships[id].role == Some(role) ==> !Accepted(db', id)))
  {
  }

  /** A new tenant role holds nothing of its own yet, and an existing one is never overwritten. */
  lemma NewRoles(db: Db, role: RoleId, org: OrgId, code: string, base: BaseRole, value: bool, other: RoleId, action: string)
    ensures var (db', outcome) := Apply(db, CreateTenantRole(role, org, code, base));
      && (outcome == Done <==> role !in db.roles) && (outcome != Done ==> db' == db)
      && (outcome == Done ==>
            db'.roles == db.roles[role := Role(code, base, Tenant, Some(org), true)]
            && (Holds(db', other, action) <==> Holds(db, other, action)))
    ensures var (db', outcome) := Apply(db, CreateRoleQuietly(role, org, code, base, value));
      && (outcome == Done <==> role !in db.roles)
      && db' == if role in db.roles then db
                else db.(roles := db.roles[role := Role(code, base, Tenant, Some(org), value)])
    ensures var (db', outcome) := Apply(db, ToggleTenantRole(role, org, Some(value)));
      && (outcome == Done <==> role in db.roles && db.roles[role].scope == Tenant && db.roles[role].org == Some(org))
      && (outcome == Done ==> db'.roles == db.roles[role := db.roles[role].(active := value)])
  {
    SameGrantsSameHolds(db, Apply(db, CreateTenantRole(role, org, code, base)).0, other, action);
  }

  /** A new permission is nobody's, and its action is new. */
  lemma NewPermission(db: Db, p: PermId, name: string, value: bool)
    ensures var (db', outcome) := Apply(db, CreatePermission(p, name, value));
      && (outcome == Done <==> p !in db.permissions && forall q | q in db.permissions :: db.permissions[q].action != name)
      && db' == if outcome == Done then db.(permissions := db.permissions[p := Permission(name, value, false)]) else db
  {
  }

  /** A new organization is in set-up, and a failed provisioning is noted only there. */
  lemma NewOrganization(db: Db, org: OrgId)
    ensures var (db', outcome) := Apply(db, CreateOrg(org));
      && (outcome == Done <==> org !in db.orgs)
      && db' == if org in db.orgs then db else db.(orgs := db.orgs[org := Org(PendingSetup, NotStarted, 1)])
    ensures var (db', _) := Apply(db, FailProvisioning(org));
      db' == if org in db.orgs && db.orgs[org].status == PendingSetup
             then db.(orgs := db.orgs[org := db.orgs[org].(onboarding := Failed)]) else db
  {
  }

  /** Only a role no membership and no user has is removed, with its grants. */
  lemma RemoveExactly(db: Db, role: RoleId, org: OrgId, action: string)
    requires role in db.roles && db.roles[role].scope == Tenant && db.roles[role].org == Some(org)
    ensures var (db', outcome) := Apply(db, RemoveTenantRole(role, org));
      && (outcome == Done <==>
            && (forall m | m in db.memberships :: db.memberships[m].role != Some(role))
            && (forall u | u in db.users :: db.users[u].role != Some(role)))
      && (outcome == Done ==> role !in db'.roles && !Holds(db', role, action))
  {
  }

  // ---------------------------------------------------------------------------------------------
  // Writes of grants and permissions
  // ---------------------------------------------------------------------------------------------

  /** One of these permissions is active and has the action. */
  predicate AnyGives(db: Db, permissions: set<PermId>, action: string) {
    exists p | p in permissions :: p in db.permissions && db.permissions[p].active && db.permissions[p].action == action
  }

  /** The role holds the action through a permission outside the set. */
  ghost predicate HoldsBeside(db: Db, role: RoleId, action: string, permissions: set<PermId>) {
    exists g :: g in db.grants && g.permission !in permissions && Gives(db, g, role, action)
  }

  /** Replaced, a tenant role holds exactly the actions of the given permissions; other roles hold what they held. */
  lemma TenantGrantsExactly(db: Db, role: RoleId, org: OrgId, permissions: set<PermId>, other: RoleId, action: string)
    ensures var (db', outcome) := Apply(db, ReplaceTenantPermissions(role, org, permissions));
      && (outcome == Done <==>
            && role in db.roles && db.roles[role].scope == Tenant && db.roles[role].org == Some(org) && db.roles[role].active
            && (forall p | p in permissions :: p in db.permissions && db.permissions[p].active))
      && (outcome == Done ==> (Holds(db', role, action) <==> AnyGives(db, permissions, action)))
      && (outcome == Done && other != role ==> (Holds(db', other, action) <==> Holds(db, other, action)))
  {
    var (db', outcome) := Apply(db, ReplaceTenantPermissions(role, org, permissions));
    if outcome == Done {
      ReplacedHolds(db, db', role, None, permissions, action);
      if other != role {
        assert forall g: Grant :: g.role == Some(other) ==> (g in db'.grants <==> g in db.grants);
        SameGrantsSameHolds(db, db', other, action);
      }
    }
  }

  lemma ReplacedHolds(db: Db, db': Db, role: RoleId, base: Option<BaseRole>, permissions: set<PermId>, action: string)
    requires db'.permissions == db.permissions
    requires forall g: Grant | g.role == Some(role) :: g in db'.grants <==> (g.permission in permissions && g.base == base)
    ensures Holds(db', role, action) <==> AnyGives(db, permissions, action)
  {
    if AnyGives(db, permissions, action) {
      var p :| p in permissions && p in db.permissions && db.permissions[p].active && db.permissions[p].action == action;
      assert Grant(base, Some(role), p) in db'.grants && Gives(db', Grant(base, Some(role), p), role, action);
    }
  }

  lemma SameGrantsSameHolds(db: Db, db': Db, role: RoleId, action: string)
    requires db'.permissions == db.permissions
    requires forall g: Grant | g.role == Some(role) :: g in db'.grants <==> g in db.grants
    ensures Holds(db', role, action) <==> Holds(db, role, action)
  {
    if Holds(db, role, action) {
      var g :| g in db.grants && Gives(db, g, role, action);
      assert g in db'.grants && Gives(db', g, role, action);
    }
  }

  predicate SystemRole(db: Db, role: RoleId) {
    role in db.roles && db.roles[role].scope == System && db.roles[role].org == None
  }

  /** Does one of the permissions, active or not, have the action? */
  predicate Named(db: Db, permissions: set<PermId>, action: string) {
    exists p | p in permissions :: p in db.permissions && db.permissions[p].action == action
  }

  /** Replaced, a system role holds exactly the given actions; the ADMIN role keeps its two management actions. */
  lemma SystemGrantsExactly(db: Db, role: RoleId, permissions: set<PermId>, action: string)
    ensures var (db', outcome) := Apply(db, ReplaceSystemPermissions(role, permissions));
      && (outcome == Done <==>
            && SystemRole(db, role)
            && (forall p | p in permissions :: p in db.permissions && db.permissions[p].active)
            && (db.roles[role].code == "ADMIN" ==>
                  Named(db, permissions, "permission:manage") && Named(db, permissions, "role:manage")))
      && (outcome != Done ==> db' == db)
      && (outcome == Done ==> (Holds(db', role, action) <==> AnyGives(db, permissions, action)))
  {
    var (db', outcome) := Apply(db, ReplaceSystemPermissions(role, permissions));
    var actions := set p | p in permissions && p in db.permissions :: db.permissions[p].action;
    assert forall x :: x in actions <==> Named(db, permissions, x);
    assert ADMIN_REQUIRED <= actions <==> "permission:manage" in actions && "role:manage" in actions;
    if outcome == Done { ReplacedHolds(db, db', role, Some(db.roles[role].base), permissions, action); }
  }

  /** It also takes the grants of its base role from every other role, and leaves the rest. */
  lemma SystemReplaceReach(db: Db, role: RoleId, permissions: set<PermId>, other: RoleId, action: string)
    requires Apply(db, ReplaceSystemPermissions(role, permissions)).1 == Done && other != role
    ensures Holds(Apply(db, ReplaceSystemPermissions(role, permissions)).0, other, action) <==>
      exists g :: g in db.grants && g.base != Some(db.roles[role].base) && Gives(db, g, other, action)
  {
    var db' := Apply(db, ReplaceSystemPermissions(role, permissions)).0;
    assert forall g: Grant | g.role == Some(other) :: g in db'.grants <==> (g in db.grants && g.base != Some(db.roles[role].base));
    if g :| g in db.grants && g.base != Some(db.roles[role].base) && Gives(db, g, other, action) {
      assert g in db'.grants && Gives(db', g, other, action);
    }
  }

  predicate Granted(db: Db, role: RoleId, permission: PermId) {
    exists g | g in db.grants :: g.role == Some(role) && g.permission == permission
  }

  /** Granting adds exactly the actions of the given permissions, and is refused when all are there. */
  lemma GrantExactly(db: Db, role: RoleId, permissions: set<PermId>, other: RoleId, action: string)
    ensures var (db', outcome) := Apply(db, GrantToSystem(role, permissions));
      && (outcome == Done <==>
            && SystemRole(db, role) && db.roles[role].active && (forall p | p in permissions :: p in db.permissions)
            && (exists p | p in permissions :: !Granted(db, role, p)))
      && (outcome != Done ==> db' == db)
      && (outcome == Done ==>
            && (Holds(db', role, action) <==> (Holds(db, role, action) || AnyGives(db, permissions, action)))
            && (other != role ==> (Holds(db', other, action) <==> Holds(db, other, action))))
  {
    var (db', outcome) := Apply(db, GrantToSystem(role, permissions));
    var granted := set g | g in db.grants && g.role == Some(role) :: g.permission;
    assert forall p :: p in granted <==> Granted(db, role, p);
    if outcome == Done {
      assert forall g | g in db.grants :: g in db'.grants;
      GrantAdds(db, db', role, permissions, action);
      if other != role { SameGrantsSameHolds(db, db', other, action); }
    }
  }

  lemma GrantAdds(db: Db, db': Db, role: RoleId, permissions: set<PermId>, action: string)
    requires db'.permissions == db.permissions && db.grants <= db'.grants
    requires forall g | g in db'.grants && g !in db.grants :: g.permission in permissions
    requires forall p | p in permissions :: Granted(db', role, p)
    ensures Holds(db', role, action) <==> (Holds(db, role, action) || AnyGives(db, permissions, action))
  {
    if Holds(db, role, action) {
      var g :| g in db.grants && Gives(db, g, role, action);
      assert g in db'.grants && Gives(db', g, role, action);
    }
    if AnyGives(db, permissions, action) {
      var p :| p in permissions && p in db.permissions && db.permissions[p].active && db.permissions[p].action == action;
      var g :| g in db'.grants && g.role == Some(role) && g.permission == p;
      assert Gives(db', g, role, action);
    }
    if Holds(db', role, action) {
      var g :| g in db'.grants && Gives(db', g, role, action);
      assert g in db.grants ==> Gives(db, g, role, action);
    }
  }

  /** What is left of the grants keeps its meaning. */
  lemma LeftHolds(db: Db, db': Db, role: RoleId, action: string, permissions: set<PermId>)
    requires forall p | p !in permissions && p in db.permissions :: p in db'.permissions && db'.permissions[p] == db.permissions[p]
    requires db'.permissions.Keys <= db.permissions.Keys
    requires forall g: Grant | g.role == Some(role) :: g in db'.grants <==> (g in db.grants && g.permission !in permissions)
    ensures Holds(db', role, action) <==> HoldsBeside(db, role, action, permissions)
  {
    if HoldsBeside(db, role, action, permissions) {
      var g :| g in db.grants && g.permission !in permissions && Gives(db, g, role, action);
      assert g in db'.grants && Gives(db', g, role, action);
    }
    if Holds(db', role, action) {
      var g :| g in db'.grants && Gives(db', g, role, action);
      assert Gives(db, g, role, action);
    }
  }

  /** Revoking takes exactly the given permissions from the role, and is refused when it has none of them. */
  lemma RevokeGrantsExactly(db: Db, role: RoleId, permissions: set<PermId>, other: RoleId, action: string)
    ensures var (db', outcome) := Apply(db, RevokeFromSystem(role, permissions));
      && (outcome == Done <==>
            && SystemRole(db, role) && db.roles[role].active && (forall p | p in permissions :: p in db.permissions)
            && (exists p | p in permissions :: Granted(db, role, p)))
      && (outcome != Done ==> db' == db)
      && (outcome == Done ==>
            && (Holds(db', role, action) <==> HoldsBeside(db, role, action, permissions))
            && (other != role ==> (Holds(db', other, action) <==> Holds(db, other, action))))
  {
    var (db', outcome) := Apply(db, RevokeFromSystem(role, permissions));
    var revoked := set g | g in db.grants && g.role == Some(role) && g.permission in permissions;
    assert revoked != {} <==> exists p | p in permissions :: Granted(db, role, p) by {
      if revoked != {} {
        var g :| g in revoked;
        assert Granted(db, role, g.permission);
      }
      if p :| p in permissions && Granted(db, role, p) {
        var g :| g in db.grants && g.role == Some(role) && g.permission == p;
        assert g in revoked;
      }
    }
    if outcome == Done {
      LeftHolds(db, db', role, action, permissions);
      if other != role { SameGrantsSameHolds(db, db', other, action); }
    }
  }

  /** Deleted, a permission gives nobody its action; a guarded delete spares system permissions. */
  lemma DeleteExactly(db: Db, p: PermId, guarded: bool, role: RoleId, action: string)
    ensures var (db', outcome) := Apply(db, DeletePermission(p, guarded));
      && (outcome == Done <==> p in db.permissions && !(guarded && db.permissions[p].system))
      && (outcome != Done ==> db' == db)
      && (outcome == Done ==>
            p !in db'.permissions && (Holds(db', role, action) <==> HoldsBeside(db, role, action, {p})))
  {
    var (db', outcome) := Apply(db, DeletePermission(p, guarded));
    if outcome == Done { LeftHolds(db, db', role, action, {p}); }
  }

  /** Which updates of a permission are accepted, and the row they leave. */
  lemma PermissionUpdateExactly(db: Db, p: PermId, newAction: Option<string>, active: Option<bool>)
    ensures var (db', outcome) := Apply(db, UpdatePermission(p, newAction, active));
      && (outcome == Done <==>
            && p in db.permissions
            && var row := db.permissions[p];
               && (row.system && newAction.Some? ==> newAction.value == row.action)
               && (row.system && row.action in {"permission:manage", "role:manage"} ==> active != Some(false))
               && (newAction.Some? ==> forall q | q in db.permissions && q != p :: db.permissions[q].action != newAction.value))
      && (outcome != Done ==> db' == db)
      && (outcome == Done ==>
            && p in db'.permissions && db'.grants == db.grants && db'.roles == db.roles && db'.memberships == db.memberships
            && db'.permissions == db.permissions[p := db'.permissions[p]]
            && var row, row' := db.permissions[p], db'.permissions[p];
               && row'.system == row.system
               && row'.action == (if newAction.Some? then newAction.value else row.action)
               && row'.active == (if active.Some? then active.value else row.active))
  {
  }

  /** Switched off, a permission's action is left only to roles that hold it through another active permission. */
  lemma SwitchedOffIsGone(db: Db, p: PermId, role: RoleId)
    requires Apply(db, UpdatePermission(p, None, Some(false))).1 == Done
    ensures p in db.permissions
    ensures var db', action := Apply(db, UpdatePermission(p, None, Some(false))).0, db.permissions[p].action;
      Holds(db', role, action) <==> HoldsBeside(db, role, action, {p})
  {
    var db', action := Apply(db, UpdatePermission(p, None, Some(false))).0, db.permissions[p].action;
    PermissionUpdateExactly(db, p, None, Some(false));
    if HoldsBeside(db, role, action, {p}) {
      var g :| g in db.grants && g.permission !in {p} && Gives(db, g, role, action);
      assert g in db'.grants && Gives(db', g, role, action);
    }
    if Holds(db', role, action) {
      var g :| g in db'.grants && Gives(db', g, role, action);
      assert Gives(db, g, role, action);
    }
  }

  /**
   In every run, from the moment the switch is answered, no cached list at the current version has the
   action, whatever requests were in flight, unless another active permission of the role gives it.
   */
  lemma SwitchedOffInRuns(db: Db, actions: seq<Action>, p: PermId, key: CacheKey)
    requires GrantsLinked(db)
    ensures var w := Run(World(db, map[], map[]), actions);
      var w' := Step(w, DoWrite(UpdatePermission(p, None, Some(false))));
      Apply(w.db, UpdatePermission(p, None, Some(false))).1 == Done && key in w'.cache && IsAt(w'.db, key) ==>
        && p in w.db.permissions && key.membership in w'.db.memberships && w'.db.memberships[key.membership].role.Some?
        && (w.db.permissions[p].action in w'.cache[key] <==>
              HoldsBeside(w.db, w'.db.memberships[key.membership].role.value, w.db.permissions[p].action, {p}))
  {
    var a := DoWrite(UpdatePermission(p, None, Some(false)));
    var w := Run(World(db, map[], map[]), actions);
    var w' := Step(w, a);
    assert (actions + [a])[..|actions|] == actions;
    if Apply(w.db, UpdatePermission(p, None, Some(false))).1 == Done && key in w'.cache && IsAt(w'.db, key) {
      PermissionUpdateExactly(w.db, p, None, Some(false));
      CachedExactly(db, actions + [a], key, w.db.permissions[p].action);
      SwitchedOffIsGone(w.db, p, w'.db.memberships[key.membership].role.value);
    }
  }

  /** Switched on, it gives its action to every role that has it granted. */
  lemma SwitchedOnIsGiven(db: Db, p: PermId, role: RoleId)
    requires Apply(db, UpdatePermission(p, None, Some(true))).1 == Done && Granted(db, role, p)
    ensures p in db.permissions && Holds(Apply(db, UpdatePermission(p, None, Some(true))).0, role, db.permissions[p].action)
  {
    var db' := Apply(db, UpdatePermission(p, None, Some(true))).0;
    PermissionUpdateExactly(db, p, None, Some(true));
    var g :| g in db.grants && g.role == Some(role) && g.permission == p;
    assert g in db'.grants && Gives(db', g, role, db.permissions[p].action);
  }

  // ---------------------------------------------------------------------------------------------
  // Writes of organizations
  // ---------------------------------------------------------------------------------------------

  ghost predicate ActiveOwner(db: Db, m: Membership, org: OrgId) {
    && m.org == org && m.owner && m.status == ActiveMember && m.role.Some? && RoleServes(db, m.role.value, org)
    && m.user in db.users && db.users[m.user].active
  }

  /** The six transitions of the lifecycle succeed, activation only when provisioned and owned. */
  lemma OrgTransitionExactly(db: Db, org: OrgId, target: OrgStatus)
    requires org in db.orgs
    ensures var (db', outcome) := Apply(db, TransitionOrg(org, target));
      var row := db.orgs[org];
      && (outcome == Done <==>
            || row.status == target
            || ((row.status, target) in {
                  (PendingSetup, ActiveOrg), (PendingSetup, ArchivedOrg), (ActiveOrg, SuspendedOrg), (ActiveOrg, ArchivedOrg),
                  (SuspendedOrg, ActiveOrg), (SuspendedOrg, ArchivedOrg)}
                && (target == ActiveOrg ==>
                      row.onboarding == Ready
                      && exists m | m in db.memberships :: ActiveOwner(db, db.memberships[m], org))))
      && db' == if outcome == Done then db.(orgs := db.orgs[org := row.(status := target)]) else db
  {
    if HasUsableOwner(db, org) {
      var m :| m in db.memberships && db.memberships[m].org == org && db.memberships[m].owner
        && db.memberships[m].status == ActiveMember && Usable(db, db.memberships[m])
        && db.memberships[m].user in db.users && db.users[db.memberships[m].user].active;
      assert ActiveOwner(db, db.memberships[m], org);
    }
  }

  predicate AdminRole(db: Db, role: RoleId) {
    SystemRole(db, role) && db.roles[role].active && db.roles[role].base == Admin
  }

  /** Provisioning succeeds in set-up for an active user and a single ADMIN role, and leaves an active owner. */
  lemma ProvisionExactly(db: Db, org: OrgId, user: UserId, id: MembershipId, role: RoleId, m: MembershipId)
    ensures var (db', outcome) := Apply(db, Provision(org, user, id, role));
      var exists_ := exists x | x in db.memberships :: db.memberships[x].user == user && db.memberships[x].org == org;
      && (outcome == Done <==>
            && org in db.orgs && db.orgs[org].status == PendingSetup && user in db.users && db.users[user].active
            && AdminRole(db, role) && (forall r | r in db.roles && AdminRole(db, r) :: r == role)
            && (exists_ || id !in db.memberships))
      && (outcome != Done ==> db' == db)
      && (outcome == Done ==>
            && db'.orgs == db.orgs[org := db.orgs[org].(onboarding := Ready)] && db'.roles == db.roles && db'.users == db.users
            && (m in db'.memberships && (m !in db.memberships || db'.memberships[m] != db.memberships[m]) ==>
                  ActiveOwner(db', db'.memberships[m], org) && db'.memberships[m].user == user)
            && (exists x | x in db'.memberships :: ActiveOwner(db', db'.memberships[x], org)))
  {
    var (db', outcome) := Apply(db, Provision(org, user, id, role));
    if outcome == Done {
      if HasMembership(db, user, org) {
        var x :| x in db.memberships && db.memberships[x].user == user && db.memberships[x].org == org;
        assert x in db'.memberships && ActiveOwner(db', db'.memberships[x], org);
      } else {
        assert id in db'.memberships && ActiveOwner(db', db'.memberships[id], org);
      }
    }
  }
}
