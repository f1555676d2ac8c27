/**
 Roles, grants, permissions, memberships and organizations: every service that writes them, with the
 `authorizationVersion` bump each write makes, or deliberately does not make.
 */
module Rbac {
  import opened Prelude

  type OrgId = string
  type UserId = string
  type RoleId = string
  type PermId = string
  type MembershipId = string

  datatype Scope = System | Tenant
  datatype BaseRole = Admin | Manager | Rep | Boards
  datatype OrgStatus = PendingSetup | ActiveOrg | SuspendedOrg | ArchivedOrg
  datatype Onboarding = NotStarted | InProgress | Ready | Failed
  datatype MemberStatus = Invited | ActiveMember | SuspendedMember

  datatype Org = Org(status: OrgStatus, onboarding: Onboarding, version: nat)
  datatype Membership = Membership(user: UserId, org: OrgId, role: Option<RoleId>, status: MemberStatus, owner: bool)
  datatype Role = Role(code: string, base: BaseRole, scope: Scope, org: Option<OrgId>, active: bool)
  datatype Permission = Permission(action: string, active: bool, system: bool)
  datatype Grant = Grant(base: Option<BaseRole>, role: Option<RoleId>, permission: PermId)
  datatype User = User(active: bool, base: BaseRole, role: Option<RoleId>)

  datatype Db = Db(
    orgs: map<OrgId, Org>, memberships: map<MembershipId, Membership>, roles: map<RoleId, Role>,
    permissions: map<PermId, Permission>, grants: set<Grant>, users: map<UserId, User>)

  const ADMIN_REQUIRED := {"permission:manage", "role:manage"}

  // ---------------------------------------------------------------------------------------------
  // Reads
  // ---------------------------------------------------------------------------------------------

  predicate IsLive(permissions: map<PermId, Permission>, id: PermId) {
    id in permissions && permissions[id].active
  }

  /** The actions of a role's grants whose permission is active. */
  function ActionsOf(grants: set<Grant>, permissions: map<PermId, Permission>, role: RoleId): set<string> {
    set g | g in grants && g.role == Some(role) && IsLive(permissions, g.permission) :: permissions[g.permission].action
  }

  function ActiveActions(db: Db, role: RoleId): set<string> {
    ActionsOf(db.grants, db.permissions, role)
  }

  /** `validRole`, and the filter of every service that assigns a role. */
  predicate ValidRole(role: Role, org: OrgId) {
    role.active && ((role.scope == System && role.org == None) || (role.scope == Tenant && role.org == Some(org)))
  }

  /** The membership's role exists and is valid for its organization. */
  predicate Usable(db: Db, m: Membership) {
    m.role.Some? && m.role.value in db.roles && ValidRole(db.roles[m.role.value], m.org)
  }

  predicate IsTenantRole(db: Db, id: RoleId, org: OrgId) {
    id in db.roles && db.roles[id].scope == Tenant && db.roles[id].org == Some(org)
  }

  predicate IsSystemRole(db: Db, id: RoleId) {
    id in db.roles && db.roles[id].scope == System && db.roles[id].org == None
  }

  predicate Assignable(db: Db, id: RoleId, org: OrgId) {
    id in db.roles && ValidRole(db.roles[id], org)
  }

  predicate InUse(db: Db, id: RoleId) {
    exists m | m in db.memberships :: db.memberships[m].role == Some(id)
  }

  predicate InActiveUse(db: Db, id: RoleId) {
    exists m | m in db.memberships :: db.memberships[m].role == Some(id) && db.memberships[m].status == ActiveMember
  }

  predicate HasMembership(db: Db, user: UserId, org: OrgId) {
    exists m | m in db.memberships :: db.memberships[m].user == user && db.memberships[m].org == org
  }

  predicate MemberOf(db: Db, id: MembershipId, org: OrgId) {
    id in db.memberships && db.memberships[id].org == org
  }

  predicate AllLive(db: Db, permissions: set<PermId>) {
    forall p | p in permissions :: IsLive(db.permissions, p)
  }

  predicate ActionTaken(db: Db, id: PermId, action: string) {
    exists p | p in db.permissions :: p != id && db.permissions[p].action == action
  }

  // ---------------------------------------------------------------------------------------------
  // Version bumps
  // ---------------------------------------------------------------------------------------------

  function Bump(db: Db, orgs: set<OrgId>): Db {
    db.(orgs := map o | o in db.orgs ::
      if o in orgs then db.orgs[o].(version := db.orgs[o].version + 1) else db.orgs[o])
  }

  function BumpAll(db: Db): Db {
    Bump(db, db.orgs.Keys)
  }

  predicate Depends(db: Db, roles: set<RoleId>, org: OrgId) {
    || (exists r | r in roles :: IsTenantOf(db, r, org))
    || (exists m | m in db.memberships :: IsActiveOn(db, db.memberships[m], roles, org))
  }

  predicate IsTenantOf(db: Db, r: RoleId, org: OrgId) {
    r in db.roles && db.roles[r].scope == Tenant && db.roles[r].org == Some(org)
  }

  predicate IsActiveOn(db: Db, m: Membership, roles: set<RoleId>, org: OrgId) {
    && m.org == org && m.status == ActiveMember
    && m.role.Some? && m.role.value in roles && m.role.value in db.roles && db.roles[m.role.value].scope == System
  }

  /** `incrementAuthorizationVersionsForRoleIds`: the organizations that depend on any of these roles. */
  function Affected(db: Db, roles: set<RoleId>): set<OrgId> {
    set o | o in db.orgs && Depends(db, roles, o)
  }

  function GrantedRoles(db: Db, permission: PermId): set<RoleId> {
    set g | g in db.grants && g.permission == permission && g.role.Some? :: g.role.value
  }

  // ---------------------------------------------------------------------------------------------
  // Writes
  // ---------------------------------------------------------------------------------------------

  datatype Write =
    // tenant-rbac.service.ts
    | CreateTenantRole(role: RoleId, org: OrgId, code: string, base: BaseRole)
    | UpdateTenantRole(role: RoleId, org: OrgId, active: Option<bool>)
    | ReplaceTenantPermissions(role: RoleId, org: OrgId, permissions: set<PermId>)
    | AssignRole(membership: MembershipId, org: OrgId, role: RoleId)
    | RevokeRole(membership: MembershipId, org: OrgId)
    // tenant-roles.service.ts
    | CreateRoleQuietly(role: RoleId, org: OrgId, code: string, base: BaseRole, isActive: bool)
    | ToggleTenantRole(role: RoleId, org: OrgId, active: Option<bool>)
    | RemoveTenantRole(role: RoleId, org: OrgId)
    // rbac-management.service.ts
    | CreatePermission(permission: PermId, action: string, isActive: bool)
    | UpdatePermission(permission: PermId, newAction: Option<string>, active: Option<bool>)
    | DeletePermission(permission: PermId, guarded: bool)
    | UpdateSystemRole(role: RoleId, active: Option<bool>)
    | ReplaceSystemPermissions(role: RoleId, permissions: set<PermId>)
    // admin-permissions.service.ts
    | GrantToSystem(role: RoleId, permissions: set<PermId>)
    | RevokeFromSystem(role: RoleId, permissions: set<PermId>)
    // users.service.ts, sso, organization-memberships.service.ts
    | CreateMembership(membership: MembershipId, user: UserId, org: OrgId, role: RoleId)
    | RepairRole(membership: MembershipId, role: RoleId)
    | Deactivate(user: UserId, org: OrgId)
    | Activate(user: UserId, org: OrgId)
    // organizations.service.ts
    | CreateOrg(org: OrgId)
    | Provision(org: OrgId, user: UserId, newMembership: MembershipId, role: RoleId)
    | FailProvisioning(org: OrgId)
    | TransitionOrg(org: OrgId, target: OrgStatus)
    // tenant-rbac-maintenance.ts
    | Reconcile(org: OrgId, assignments: map<MembershipId, RoleId>)

  datatype Outcome = Done | NotFound | Conflict | BadRequest | Forbidden

  function WithMember(db: Db, id: MembershipId, m: Membership): Db {
    db.(memberships := db.memberships[id := m])
  }

  function WithRole(db: Db, id: RoleId, role: Role): Db {
    db.(roles := db.roles[id := role])
  }

  function ReplaceGrants(db: Db, role: RoleId, base: Option<BaseRole>, permissions: set<PermId>): Db {
    db.(grants := (set g | g in db.grants && g.role != Some(role) && (base.None? || g.base != base))
                  + (set p | p in permissions :: Grant(base, Some(role), p)))
  }

  /** The LIFECYCLE_TRANSITIONS table. */
  predicate LifecycleAllows(from: OrgStatus, to: OrgStatus) {
    match from
    case PendingSetup => to == ActiveOrg || to == ArchivedOrg
    case ActiveOrg => to == SuspendedOrg || to == ArchivedOrg
    case SuspendedOrg => to == ActiveOrg || to == ArchivedOrg
    case ArchivedOrg => false
  }

  predicate HasUsableOwner(db: Db, org: OrgId) {
    exists m | m in db.memberships ::
      var row := db.memberships[m];
      row.org == org && row.owner && row.status == ActiveMember && Usable(db, row)
      && row.user in db.users && db.users[row.user].active
  }

  predicate IsActiveAdmin(db: Db, id: RoleId) {
    IsSystemRole(db, id) && db.roles[id].active && db.roles[id].base == Admin
  }

  /** `resolveMembershipRole` for ADMIN: exactly one active SYSTEM role must qualify. */
  predicate IsOnlyAdmin(db: Db, id: RoleId) {
    IsActiveAdmin(db, id) && forall r | r in db.roles && IsActiveAdmin(db, r) :: r == id
  }

  function MembershipsOf(db: Db, user: UserId, org: OrgId): set<MembershipId> {
    set m | m in db.memberships && db.memberships[m].user == user && db.memberships[m].org == org
  }

  function SuspendRow(m: Membership, user: UserId, org: OrgId): Membership {
    if m.user == user && m.org == org && m.status == ActiveMember then m.(status := SuspendedMember) else m
  }

  function ActivateRow(m: Membership, user: UserId, org: OrgId): Membership {
    if m.user == user && m.org == org then m.(status := ActiveMember) else m
  }

  function ReconcileRow(m: Membership, id: MembershipId, org: OrgId, assignments: map<MembershipId, RoleId>): Membership {
    if id in assignments && m.org == org && m.role.None? then m.(role := Some(assignments[id])) else m
  }

  predicate AnyReconciled(db: Db, org: OrgId, assignments: map<MembershipId, RoleId>) {
    exists m | m in db.memberships :: ReconcileRow(db.memberships[m], m, org, assignments) != db.memberships[m]
  }

  function WithUser(db: Db, user: UserId, active: bool): Db {
    if user in db.users then db.(users := db.users[user := db.users[user].(active := active)]) else db
  }


  function ApplyTenant(db: Db, w: Write): (Db, Outcome)
    requires w.CreateTenantRole? || w.UpdateTenantRole? || w.ReplaceTenantPermissions? || w.AssignRole? || w.RevokeRole?
  {
    match w
    case CreateTenantRole(id, org, code, base) =>
      if id in db.roles then (db, Conflict)
      else (Bump(WithRole(db, id, Role(code, base, Tenant, Some(org), true)), {org}), Done)
    case UpdateTenantRole(id, org, active) =>
      if !IsTenantRole(db, id, org) then (db, NotFound)
      else if active == Some(false) && InActiveUse(db, id) then (db, Conflict)
      else (Bump(WithRole(db, id, db.roles[id].(active := active.GetOr(db.roles[id].active))), {org}), Done)
    case ReplaceTenantPermissions(id, org, permissions) =>
      if !IsTenantRole(db, id, org) || !db.roles[id].active then (db, NotFound)
      else if !AllLive(db, permissions) then (db, BadRequest)
      else (Bump(ReplaceGrants(db, id, None, permissions), {org}), Done)
    case AssignRole(id, org, role) =>
      if !MemberOf(db, id, org) then (db, NotFound)
      else if !Assignable(db, role, org) then (db, NotFound)
      else (Bump(WithMember(db, id, db.memberships[id].(role := Some(role))), {org}), Done)
    case RevokeRole(id, org) =>
      if !MemberOf(db, id, org) then (db, NotFound)
      else if db.memberships[id].status == ActiveMember then (db, Conflict)
      else (Bump(WithMember(db, id, db.memberships[id].(role := None)), {org}), Done)
  }

  function ApplyTenantRoles(db: Db, w: Write): (Db, Outcome)
    requires w.CreateRoleQuietly? || w.ToggleTenantRole? || w.RemoveTenantRole?
  {
    match w
    case CreateRoleQuietly(id, org, code, base, active) =>
      if id in db.roles then (db, Conflict) else (WithRole(db, id, Role(code, base, Tenant, Some(org), active)), Done)
    case ToggleTenantRole(id, org, active) =>
      if !IsTenantRole(db, id, org) then (db, NotFound)
      else (Bump(WithRole(db, id, db.roles[id].(active := active.GetOr(db.roles[id].active))), {org}), Done)
    case RemoveTenantRole(id, org) =>
      if !IsTenantRole(db, id, org) then (db, NotFound)
      else if InUse(db, id) || (exists u | u in db.users :: db.users[u].role == Some(id)) then (db, Conflict)
      else (db.(roles := db.roles - {id}, grants := set g | g in db.grants && g.role != Some(id)), Done)
  }

  function ApplyPermission(db: Db, w: Write): (Db, Outcome)
    requires w.CreatePermission? || w.UpdatePermission? || w.DeletePermission?
  {
    match w
    case CreatePermission(id, action, active) =>
      if id in db.permissions || ActionTaken(db, id, action) then (db, Conflict)
      else (db.(permissions := db.permissions[id := Permission(action, active, false)]), Done)
    case UpdatePermission(id, action, active) =>
      if id !in db.permissions then (db, NotFound)
      else
        var current := db.permissions[id];
        if current.system && action.Some? && action.value != current.action then (db, Forbidden)
        else if current.system && current.action in ADMIN_REQUIRED && active == Some(false) then (db, Forbidden)
        else if action.Some? && ActionTaken(db, id, action.value) then (db, Conflict)
        else
          var next := current.(action := action.GetOr(current.action), active := active.GetOr(current.active));
          (Bump(db.(permissions := db.permissions[id := next]), Affected(db, GrantedRoles(db, id))), Done)
    case DeletePermission(id, guarded) =>
      if id !in db.permissions then (db, NotFound)
      else if guarded && db.permissions[id].system then (db, Forbidden)
      else
        (Bump(db.(permissions := db.permissions - {id}, grants := set g | g in db.grants && g.permission != id),
              Affected(db, GrantedRoles(db, id))), Done)
  }

  function ApplySystem(db: Db, w: Write): (Db, Outcome)
    requires w.UpdateSystemRole? || w.ReplaceSystemPermissions? || w.GrantToSystem? || w.RevokeFromSystem?
  {
    match w
    case UpdateSystemRole(id, active) =>
      if !IsSystemRole(db, id) then (db, NotFound)
      else (BumpAll(WithRole(db, id, db.roles[id].(active := active.GetOr(db.roles[id].active)))), Done)
    case ReplaceSystemPermissions(id, permissions) =>
      if !IsSystemRole(db, id) then (db, NotFound)
      else if !AllLive(db, permissions) then (db, BadRequest)
      else if db.roles[id].code == "ADMIN"
        && !(ADMIN_REQUIRED <= set p | p in permissions && p in db.permissions :: db.permissions[p].action)
      then (db, Forbidden)
      else (BumpAll(ReplaceGrants(db, id, Some(db.roles[id].base), permissions)), Done)
    case GrantToSystem(id, permissions) =>
      if !IsSystemRole(db, id) || !db.roles[id].active || !(permissions <= db.permissions.Keys) then (db, NotFound)
      else
        var granted := set g | g in db.grants && g.role == Some(id) :: g.permission;
        if permissions <= granted then (db, BadRequest)
        else
          (BumpAll(db.(grants := db.grants
            + set p | p in permissions && p !in granted :: Grant(Some(db.roles[id].base), Some(id), p))), Done)
    case RevokeFromSystem(id, permissions) =>
      if !IsSystemRole(db, id) || !db.roles[id].active || !(permissions <= db.permissions.Keys) then (db, NotFound)
      else
        var revoked := set g | g in db.grants && g.role == Some(id) && g.permission in permissions;
        if revoked == {} then (db, NotFound) else (BumpAll(db.(grants := db.grants - revoked)), Done)
  }

  function ApplyMember(db: Db, w: Write): (Db, Outcome)
    requires w.CreateMembership? || w.RepairRole? || w.Deactivate? || w.Activate? || w.Reconcile?
  {
    match w
    case CreateMembership(id, user, org, role) =>
      if org !in db.orgs || id in db.memberships || HasMembership(db, user, org) then (db, Conflict)
      else if !Assignable(db, role, org) then (db, BadRequest)
      else (WithMember(db, id, Membership(user, org, Some(role), ActiveMember, false)), Done)
    case RepairRole(id, role) =>
      if id !in db.memberships || db.memberships[id].status != ActiveMember then (db, Forbidden)
      else if Usable(db, db.memberships[id]) then (db, Done)
      else if !Assignable(db, role, db.memberships[id].org) then (db, BadRequest)
      else (WithMember(db, id, db.memberships[id].(role := Some(role))), Done)   // no bump
    case Deactivate(user, org) =>
      if user !in db.users then (db, NotFound)
      else (Bump(WithUser(db.(memberships := map m | m in db.memberships :: SuspendRow(db.memberships[m], user, org)),
                     user, false), {org}), Done)
    case Activate(user, org) =>
      if user !in db.users || !HasMembership(db, user, org) then (db, NotFound)
      else if db.users[user].active then (db, BadRequest)
      else
        (Bump(WithUser(db.(memberships := map m | m in db.memberships :: ActivateRow(db.memberships[m], user, org)),
                       user, true), {org}), Done)
    case Reconcile(org, assignments) =>
      if exists m | m in assignments :: !Assignable(db, assignments[m], org) then (db, Conflict)
      else if !AnyReconciled(db, org, assignments) then (db, Done)
      else
        (Bump(db.(memberships := map m | m in db.memberships :: ReconcileRow(db.memberships[m], m, org, assignments)),
              {org}), Done)
  }

  function ApplyOrg(db: Db, w: Write): (Db, Outcome)
    requires w.CreateOrg? || w.Provision? || w.FailProvisioning? || w.TransitionOrg?
  {
    match w
    case CreateOrg(org) =>
      if org in db.orgs then (db, Conflict) else (db.(orgs := db.orgs[org := Org(PendingSetup, NotStarted, 1)]), Done)
    case Provision(org, user, id, role) =>
      if org !in db.orgs then (db, NotFound)
      else if db.orgs[org].status != PendingSetup then (db, Conflict)
      else if user !in db.users || !db.users[user].active then (db, BadRequest)
      else if !IsOnlyAdmin(db, role) then (db, BadRequest)
      else if !HasMembership(db, user, org) && id in db.memberships then (db, Conflict)
      else
        var owned := if HasMembership(db, user, org) then MembershipsOf(db, user, org) else {id};
        (db.(orgs := db.orgs[org := db.orgs[org].(onboarding := Ready)],
             memberships := map m | m in db.memberships.Keys + owned ::
               if m in owned then Membership(user, org, Some(role), ActiveMember, true) else db.memberships[m]), Done)
    case FailProvisioning(org) =>
      if org !in db.orgs || db.orgs[org].status != PendingSetup then (db, Done)
      else (db.(orgs := db.orgs[org := db.orgs[org].(onboarding := Failed)]), Done)
    case TransitionOrg(org, target) =>
      if org !in db.orgs then (db, NotFound)
      else if db.orgs[org].status == target then (db, Done)
      else if !LifecycleAllows(db.orgs[org].status, target) then (db, Conflict)
      else if target == ActiveOrg && (db.orgs[org].onboarding != Ready || !HasUsableOwner(db, org)) then (db, Conflict)
      else (db.(orgs := db.orgs[org := db.orgs[org].(status := target)]), Done)
  }

  /** The committed effect and answer of each write; a refused write changes nothing. */
  function Apply(db: Db, w: Write): (Db, Outcome) {
    if w.CreateTenantRole? || w.UpdateTenantRole? || w.ReplaceTenantPermissions? || w.AssignRole? || w.RevokeRole?
    then ApplyTenant(db, w)
    else if w.CreateRoleQuietly? || w.ToggleTenantRole? || w.RemoveTenantRole? then ApplyTenantRoles(db, w)
    else if w.CreatePermission? || w.UpdatePermission? || w.DeletePermission? then ApplyPermission(db, w)
    else if w.UpdateSystemRole? || w.ReplaceSystemPermissions? || w.GrantToSystem? || w.RevokeFromSystem? then ApplySystem(db, w)
    else if w.CreateOrg? || w.Provision? || w.FailProvisioning? || w.TransitionOrg? then ApplyOrg(db, w)
    else ApplyMember(db, w)
  }
}
