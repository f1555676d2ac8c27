/** The versioned writers working on their tables; each commits what `Rbac.Apply` says of its write. */
module RbacServices {
  import opened Prelude
  import opened Rbac

  class RbacAdministration {
    var db: Db

    constructor (initial: Db)
      ensures db == initial
    {
      db := initial;
    }

    method IncrementVersions(orgs: set<OrgId>)
      modifies this
      ensures db == Bump(old(db), orgs)
    {
      var rest := orgs;
      while rest != {}
        invariant rest <= orgs && db == Bump(old(db), orgs - rest)
        decreases rest
      {
        var org :| org in rest;
        if org in db.orgs {
          db := db.(orgs := db.orgs[org := db.orgs[org].(version := db.orgs[org].version + 1)]);
        }
        rest := rest - {org};
      }
      assert orgs - rest == orgs;
    }

    /** The tenants that own one of the roles. */
    method OwningTenants(roles: set<RoleId>) returns (orgs: set<OrgId>)
      ensures forall o :: o in orgs <==> exists r | r in roles :: IsTenantOf(db, r, o)
    {
      orgs := {};
      var rest := roles;
      while rest != {}
        invariant rest <= roles
        invariant forall o :: o in orgs <==> exists r | r in roles - rest :: IsTenantOf(db, r, o)
        decreases rest
      {
        var r :| r in rest;
        ghost var before := orgs;
        if r in db.roles && db.roles[r].scope == Tenant && db.roles[r].org.Some? {
          orgs := orgs + {db.roles[r].org.value};
        }
        assert forall o :: o in orgs <==> o in before || IsTenantOf(db, r, o);
        assert roles - (rest - {r}) == roles - rest + {r};
        rest := rest - {r};
      }
      assert roles - rest == roles;
    }

    /** The organizations with an ACTIVE membership on a SYSTEM role among the roles. */
    method UsingTenants(roles: set<RoleId>) returns (orgs: set<OrgId>)
      ensures forall o :: o in orgs <==> exists m | m in db.memberships :: IsActiveOn(db, db.memberships[m], roles, o)
    {
      orgs := {};
      var all := db.memberships.Keys;
      var rest := all;
      while rest != {}
        invariant rest <= all
        invariant forall o :: o in orgs <==> exists m | m in all - rest :: IsActiveOn(db, db.memberships[m], roles, o)
        decreases rest
      {
        var m :| m in rest;
        ghost var before := orgs;
        var row := db.memberships[m];
        if row.status == ActiveMember && row.role.Some? && row.role.value in roles
           && row.role.value in db.roles && db.roles[row.role.value].scope == System {
          orgs := orgs + {row.org};
        }
        assert forall o :: o in orgs <==> o in before || IsActiveOn(db, row, roles, o);
        assert all - (rest - {m}) == all - rest + {m};
        rest := rest - {m};
      }
      assert all - rest == all;
    }

    /** `incrementAuthorizationVersionsForRoleIds`: grow the set, then increment. */
    method IncrementForRoles(roles: set<RoleId>) returns (affected: set<OrgId>)
      modifies this
      ensures db == Bump(old(db), Affected(old(db), roles))
      ensures affected * old(db).orgs.Keys == Affected(old(db), roles)
    {
      if roles == {} {
        assert Affected(db, roles) == {};
        assert Bump(db, {}) == db;
        return {};
      }
      affected := OwningTenants(roles);
      var using := UsingTenants(roles);
      affected := affected + using;
      ghost var depending := Affected(db, roles);
      assert affected * db.orgs.Keys == depending;
      assert Bump(db, affected) == Bump(db, depending);
      IncrementVersions(affected);
    }

    method UpdatePermission(id: PermId, action: Option<string>, active: Option<bool>) returns (outcome: Outcome)
      modifies this
      ensures (db, outcome) == Apply(old(db), Write.UpdatePermission(id, action, active))
    {
      if id !in db.permissions { return NotFound; }
      var current := db.permissions[id];
      if current.system && action.Some? && action.value != current.action { return Forbidden; }
      if current.system && current.action in ADMIN_REQUIRED && active == Some(false) { return Forbidden; }
      if action.Some? && ActionTaken(db, id, action.value) { return Conflict; }
      var granted := GrantedRoles(db, id);
      ghost var before := db;
      db := db.(permissions := db.permissions[id :=
        current.(action := action.GetOr(current.action), active := active.GetOr(current.active))]);
      SameAffected(before, db, granted);
      var _ := IncrementForRoles(granted);
      return Done;
    }

    method DeletePermission(id: PermId, guarded: bool) returns (outcome: Outcome)
      modifies this
      ensures (db, outcome) == Apply(old(db), Write.DeletePermission(id, guarded))
    {
      if id !in db.permissions { return NotFound; }
      if guarded && db.permissions[id].system { return Forbidden; }
      var granted := GrantedRoles(db, id);
      ghost var before := db;
      db := db.(permissions := db.permissions - {id}, grants := set g | g in db.grants && g.permission != id);
      SameAffected(before, db, granted);
      var _ := IncrementForRoles(granted);
      return Done;
    }

    method UpdateSystemRole(id: RoleId, active: Option<bool>) returns (outcome: Outcome)
      modifies this
      ensures (db, outcome) == Apply(old(db), Write.UpdateSystemRole(id, active))
    {
      if !IsSystemRole(db, id) { return NotFound; }
      if active.Some? {
        db := WithRole(db, id, db.roles[id].(active := active.value));
      } else {
        db := WithRole(db, id, db.roles[id]);
      }
      IncrementVersions(db.orgs.Keys);
      return Done;
    }

    method ReplaceSystemPermissions(id: RoleId, permissions: set<PermId>) returns (outcome: Outcome)
      modifies this
      ensures (db, outcome) == Apply(old(db), Write.ReplaceSystemPermissions(id, permissions))
    {
      if !IsSystemRole(db, id) { return NotFound; }
      if !AllLive(db, permissions) { return BadRequest; }
      var role := db.roles[id];
      var actions := set p | p in permissions && p in db.permissions :: db.permissions[p].action;
      if role.code == "ADMIN" && !(ADMIN_REQUIRED <= actions) { return Forbidden; }
      ghost var before := db;
      var kept := set g | g in db.grants && g.role != Some(id) && g.base != Some(role.base);
      db := db.(grants := kept + set p | p in permissions :: Grant(Some(role.base), Some(id), p));
      assert db.grants == ReplaceGrants(before, id, Some(role.base), permissions).grants;
      IncrementVersions(db.orgs.Keys);
      return Done;
    }

    method GrantToSystem(id: RoleId, permissions: set<PermId>) returns (outcome: Outcome)
      modifies this
      ensures (db, outcome) == Apply(old(db), Write.GrantToSystem(id, permissions))
    {
      if !IsSystemRole(db, id) || !db.roles[id].active || !(permissions <= db.permissions.Keys) { return NotFound; }
      var granted := set g | g in db.grants && g.role == Some(id) :: g.permission;
      if permissions <= granted { return BadRequest; }
      db := db.(grants := db.grants + set p | p in permissions && p !in granted :: Grant(Some(db.roles[id].base), Some(id), p));
      IncrementVersions(db.orgs.Keys);
      return Done;
    }

    method RevokeFromSystem(id: RoleId, permissions: set<PermId>) returns (outcome: Outcome)
      modifies this
      ensures (db, outcome) == Apply(old(db), Write.RevokeFromSystem(id, permissions))
    {
      if !IsSystemRole(db, id) || !db.roles[id].active || !(permissions <= db.permissions.Keys) { return NotFound; }
      var revoked := set g | g in db.grants && g.role == Some(id) && g.permission in permissions;
      if revoked == {} { return NotFound; }
      db := db.(grants := db.grants - revoked);
      IncrementVersions(db.orgs.Keys);
      return Done;
    }

    method UpdateTenantRole(id: RoleId, org: OrgId, active: Option<bool>) returns (outcome: Outcome)
      modifies this
      ensures (db, outcome) == Apply(old(db), Write.UpdateTenantRole(id, org, active))
    {
      if !IsTenantRole(db, id, org) { return NotFound; }
      if active == Some(false) && InActiveUse(db, id) { return Conflict; }
      db := WithRole(db, id, if active.Some? then db.roles[id].(active := active.value) else db.roles[id]);
      IncrementVersions({org});
      return Done;
    }

    method ReplaceTenantPermissions(id: RoleId, org: OrgId, permissions: set<PermId>) returns (outcome: Outcome)
      modifies this
      ensures (db, outcome) == Apply(old(db), Write.ReplaceTenantPermissions(id, org, permissions))
    {
      if !IsTenantRole(db, id, org) || !db.roles[id].active { return NotFound; }
      if !AllLive(db, permissions) { return BadRequest; }
      ghost var before := db;
      db := db.(grants := set g | g in db.grants && g.role != Some(id));
      db := db.(grants := db.grants + set p | p in permissions :: Grant(None, Some(id), p));
      assert db.grants == ReplaceGrants(before, id, None, permissions).grants;
      IncrementVersions({org});
      return Done;
    }

    method AssignRole(id: MembershipId, org: OrgId, role: RoleId) returns (outcome: Outcome)
      modifies this
      ensures (db, outcome) == Apply(old(db), Write.AssignRole(id, org, role))
    {
      if !MemberOf(db, id, org) { return NotFound; }
      if !Assignable(db, role, org) { return NotFound; }
      db := WithMember(db, id, db.memberships[id].(role := Some(role)));
      IncrementVersions({org});
      return Done;
    }

    method RevokeRole(id: MembershipId, org: OrgId) returns (outcome: Outcome)
      modifies this
      ensures (db, outcome) == Apply(old(db), Write.RevokeRole(id, org))
    {
      if !MemberOf(db, id, org) { return NotFound; }
      if db.memberships[id].status == ActiveMember { return Conflict; }
      db := WithMember(db, id, db.memberships[id].(role := None));
      IncrementVersions({org});
      return Done;
    }

    method SetOnboarding(org: OrgId, onboarding: Onboarding)
      requires org in db.orgs
      modifies this
      ensures db == old(db).(orgs := old(db).orgs[org := old(db).orgs[org].(onboarding := onboarding)])
    {
      db := db.(orgs := db.orgs[org := db.orgs[org].(onboarding := onboarding)]);
    }

    /** The upsert of the owner's membership: every row of that user there, or a new one. */
    method UpsertOwners(owned: set<MembershipId>, owner: Membership)
      modifies this
      ensures db == old(db).(memberships := map m | m in old(db).memberships.Keys + owned ::
        if m in owned then owner else old(db).memberships[m])
    {
      var rest := owned;
      while rest != {}
        invariant rest <= owned && db == old(db).(memberships := db.memberships)
        invariant db.memberships.Keys == old(db).memberships.Keys + (owned - rest)
        invariant forall m | m in db.memberships ::
          db.memberships[m] == if m in owned - rest then owner else old(db).memberships[m]
        decreases rest
      {
        var m :| m in rest;
        db := WithMember(db, m, owner);
        rest := rest - {m};
      }
      assert owned - rest == owned;
    }

    method Provision(org: OrgId, user: UserId, id: MembershipId, role: RoleId) returns (outcome: Outcome)
      modifies this
      ensures (db, outcome) == Apply(old(db), Write.Provision(org, user, id, role))
    {
      if org !in db.orgs { return NotFound; }
      if db.orgs[org].status != PendingSetup { return Conflict; }
      if user !in db.users || !db.users[user].active { return BadRequest; }
      if !IsOnlyAdmin(db, role) { return BadRequest; }
      if !HasMembership(db, user, org) && id in db.memberships { return Conflict; }
      SetOnboarding(org, InProgress);
      var owned := if HasMembership(db, user, org) then MembershipsOf(db, user, org) else {id};
      UpsertOwners(owned, Membership(user, org, Some(role), ActiveMember, true));
      SetOnboarding(org, Ready);
      assert db.orgs == old(db).orgs[org := old(db).orgs[org].(onboarding := Ready)];
      return Done;
    }

    method RecordProvisioningFailure(org: OrgId) returns (outcome: Outcome)
      modifies this
      ensures (db, outcome) == Apply(old(db), Write.FailProvisioning(org))
    {
      if org !in db.orgs || db.orgs[org].status != PendingSetup { return Done; }
      SetOnboarding(org, Failed);
      return Done;
    }

    method TransitionOrg(org: OrgId, target: OrgStatus) returns (outcome: Outcome)
      modifies this
      ensures (db, outcome) == Apply(old(db), Write.TransitionOrg(org, target))
    {
      if org !in db.orgs { return NotFound; }
      var current := db.orgs[org];
      if current.status == target { return Done; }
      if !LifecycleAllows(current.status, target) { return Conflict; }
      if target == ActiveOrg {
        if current.onboarding != Ready { return Conflict; }
        if !HasUsableOwner(db, org) { return Conflict; }
      }
      db := db.(orgs := db.orgs[org := current.(status := target)]);
      return Done;
    }
  }

  /** Who depends on a role is read from roles and memberships alone. */
  lemma SameAffected(db: Db, db': Db, roles: set<RoleId>)
    requires db'.orgs == db.orgs && db'.roles == db.roles && db'.memberships == db.memberships
    ensures Affected(db', roles) == Affected(db, roles)
  {
    forall o ensures Depends(db', roles, o) <==> Depends(db, roles, o) {
      assert forall r :: IsTenantOf(db', r, o) <==> IsTenantOf(db, r, o);
      assert forall m :: IsActiveOn(db', m, roles, o) <==> IsActiveOn(db, m, roles, o);
    }
  }
}
