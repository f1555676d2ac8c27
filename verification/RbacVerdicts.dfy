/** What the reconciliation plan decides for each membership, stated on roles and grants alone. */
module RbacVerdicts {
  import opened Prelude
  import opened Text
  import opened Rbac
  import opened AuthorizationEffects
  import opened RbacReconciliation
  import AuthorizationCache

  /** What the user's legacy role, or without one the base role, grants today. */
  ghost predicate LegacyHolds(db: Db, user: User, action: string) {
    if user.role.Some? then AuthorizationCache.Holds(db, user.role.value, action) else BaseHolds(db, user.base, action)
  }

  ghost predicate BaseHolds(db: Db, base: BaseRole, action: string) {
    exists g :: g in db.grants && BaseGives(db, g, base, action)
  }

  ghost predicate BaseGives(db: Db, g: Grant, base: BaseRole, action: string) {
    && g.base == Some(base) && g.permission in db.permissions
    && db.permissions[g.permission].active && db.permissions[g.permission].action == action
  }

  lemma LegacyExactly(db: Db, user: User, action: string)
    ensures action in LegacyActions(db, user) <==> LegacyHolds(db, user, action)
  {
    if user.role.Some? {
      AuthorizationCache.ActionsExactly(db, user.role.value, action);
    } else if BaseHolds(db, user.base, action) {
      var g :| g in db.grants && BaseGives(db, g, user.base, action);
      assert IsLive(db.permissions, g.permission);
    }
  }

  ghost predicate SameAsLegacy(db: Db, user: User, role: RoleId) {
    forall action :: LegacyHolds(db, user, action) <==> AuthorizationCache.Holds(db, role, action)
  }

  lemma SameAsLegacyExactly(db: Db, user: User, role: RoleId)
    ensures SameAsLegacy(db, user, role) <==> LegacyActions(db, user) == ActiveActions(db, role)
  {
    forall action
      ensures action in LegacyActions(db, user) <==> LegacyHolds(db, user, action)
      ensures action in ActiveActions(db, role) <==> AuthorizationCache.Holds(db, role, action)
    {
      LegacyExactly(db, user, action);
      AuthorizationCache.ActionsExactly(db, role, action);
    }
    if SameAsLegacy(db, user, role) {
      forall action ensures action in LegacyActions(db, user) <==> action in ActiveActions(db, role) {
        assert LegacyHolds(db, user, action) <==> AuthorizationCache.Holds(db, role, action);
      }
    }
  }

  /** The permission lists of an audit: what the user has today, and what the membership's role grants. */
  lemma AuditLists(db: Db, id: MembershipId, org: OrgId, action: string)
    requires id in db.memberships && db.memberships[id].user in db.users
    ensures var audit, m := Classify(db, id, org), db.memberships[id];
      && (action in audit.legacyPermissions <==> LegacyHolds(db, db.users[m.user], action))
      && (action in audit.rolePermissions <==>
            m.role.Some? && m.role.value in db.roles && AuthorizationCache.Holds(db, m.role.value, action))
      && (action in audit.legacyOnly <==> action in audit.legacyPermissions && action !in audit.rolePermissions)
      && (action in audit.roleOnly <==> action in audit.rolePermissions && action !in audit.legacyPermissions)
  {
    var m := db.memberships[id];
    LegacyExactly(db, db.users[m.user], action);
    if m.role.Some? { AuthorizationCache.ActionsExactly(db, m.role.value, action); }
    assert action in Sorted(LegacyActions(db, db.users[m.user])) <==> action in LegacyActions(db, db.users[m.user]);
    assert action in Sorted(RoleActions(db, m)) <==> action in RoleActions(db, m);
  }

  // ---------------------------------------------------------------------------------------------
  // The verdict
  // ---------------------------------------------------------------------------------------------

  predicate Serves(db: Db, m: Membership, org: OrgId) {
    m.role.Some? && RoleServes(db, m.role.value, org)
  }

  ghost predicate OwnerAtRisk(db: Db, m: Membership, org: OrgId) {
    m.owner && !(Serves(db, m, org)
                 && AuthorizationCache.Holds(db, m.role.value, "role:manage")
                 && AuthorizationCache.Holds(db, m.role.value, "user:manage"))
  }

  predicate HasOther(db: Db, id: MembershipId)
    requires id in db.memberships
  {
    exists other | other in db.memberships :: other != id && db.memberships[other].user == db.memberships[id].user
  }

  /** A role the membership could be given: the legacy role, or a system role of the legacy base. */
  predicate IsCandidate(db: Db, user: User, org: OrgId, role: RoleId) {
    && RoleServes(db, role, org)
    && (if user.role.Some? then role == user.role.value
        else db.roles[role].scope == System && db.roles[role].base == user.base)
  }

  predicate OnlyCandidate(db: Db, user: User, org: OrgId, role: RoleId) {
    IsCandidate(db, user, org, role) && forall other | other in db.roles && IsCandidate(db, user, org, other) :: other == role
  }

  lemma OtherExactly(db: Db, id: MembershipId)
    requires id in db.memberships
    ensures HasOther(db, id) <==> MembershipCount(db, db.memberships[id].user) > 1
  {
    var all := set m | m in db.memberships && db.memberships[m].user == db.memberships[id].user;
    if HasOther(db, id) {
      var other :| other in db.memberships && other != id && db.memberships[other].user == db.memberships[id].user;
      assert {id, other} <= all;
      TwoAtMost(all, id, other);
    } else {
      assert all == {id};
    }
  }

  lemma TwoAtMost(all: set<MembershipId>, a: MembershipId, b: MembershipId)
    requires a in all && b in all && a != b
    ensures |all| > 1
  {
    assert |all - {a}| == |all| - 1 && b in all - {a};
  }

  lemma CandidatesExactly(db: Db, user: User, org: OrgId, role: RoleId)
    ensures OnlyOne(Candidates(db, user, org)) == Some(role) <==> OnlyCandidate(db, user, org, role)
  {
    var all := Candidates(db, user, org);
    assert forall r :: r in all <==> IsCandidate(db, user, org, r);
    if OnlyCandidate(db, user, org, role) {
      assert all == {role};
      var only := OnlyOne(all);
      assert only.value in all;
    }
    if OnlyOne(all) == Some(role) { assert role in all; }
  }

  /** What the tool looks at first: the structure of the membership's role. */
  lemma StatusExactly(db: Db, m: Membership, org: OrgId)
    ensures var status := StructuralStatus(db, m, org);
      && (status == ExactMatch <==> Serves(db, m, org))
      && (status == AssignmentMissing <==> m.role.None?)
      && (status == RoleNotFound <==> m.role.Some? && m.role.value !in db.roles)
      && (status == RoleInactive <==> m.role.Some? && m.role.value in db.roles && !db.roles[m.role.value].active)
      && (status == ScopeInvalid <==>
            m.role.Some? && m.role.value in db.roles && db.roles[m.role.value].active
            && (db.roles[m.role.value].scope == System <==> db.roles[m.role.value].org.Some?))
      && status in {ExactMatch, AssignmentMissing, RoleNotFound, RoleInactive, ScopeInvalid, CrossTenant}
  {
  }

  lemma RiskExactly(db: Db, m: Membership, org: OrgId)
    ensures OwnerAtRisk(db, m, org) <==>
      m.owner && (StructuralStatus(db, m, org) != ExactMatch || OwnerMissing(m, Sorted(RoleActions(db, m))) != [])
  {
    StatusExactly(db, m, org);
    OwnerMissingEmpty(m, RoleActions(db, m));
    if Serves(db, m, org) {
      AuthorizationCache.ActionsExactly(db, m.role.value, "role:manage");
      AuthorizationCache.ActionsExactly(db, m.role.value, "user:manage");
    }
  }

  /** Line by line, for a membership with a role: the status decides, and for a valid SYSTEM role the lists. */
  lemma StatusDecides(db: Db, id: MembershipId, org: OrgId)
    requires id in db.memberships && db.memberships[id].user in db.users
    ensures var audit, m := Classify(db, id, org), db.memberships[id];
      var status := StructuralStatus(db, m, org);
      var risk := m.owner && (status != ExactMatch || OwnerMissing(m, Sorted(RoleActions(db, m))) != []);
      && (audit.verdict == OwnerRisk <==> risk)
      && (!risk && m.role.Some? ==>
            if status == ExactMatch && m.role.value in db.roles then
              audit.verdict ==
                if db.roles[m.role.value].scope == Tenant || (audit.legacyOnly == [] && audit.roleOnly == [])
                then SafeNoChange else PermissionDivergence
            else audit.verdict == if status == CrossTenant then CrossTenantRole else InvalidRole)
  {
    StatusExactly(db, db.memberships[id], org);
  }

  lemma ListsAgree(db: Db, id: MembershipId, org: OrgId)
    requires id in db.memberships && db.memberships[id].user in db.users && Serves(db, db.memberships[id], org)
    ensures var audit, m := Classify(db, id, org), db.memberships[id];
      SameAsLegacy(db, db.users[m.user], m.role.value) <==> (audit.legacyOnly == [] && audit.roleOnly == [])
  {
    var m := db.memberships[id];
    SameAsLegacyExactly(db, db.users[m.user], m.role.value);
    DifferenceEmpty(LegacyActions(db, db.users[m.user]), RoleActions(db, m));
    DifferenceEmpty(RoleActions(db, m), LegacyActions(db, db.users[m.user]));
  }

  /** Risky owners first, then the verdicts on an existing role. */
  lemma RoleVerdictExactly(db: Db, id: MembershipId, org: OrgId)
    requires id in db.memberships && db.memberships[id].user in db.users
    ensures var verdict, m := Classify(db, id, org).verdict, db.memberships[id];
      && (verdict == OwnerRisk <==> OwnerAtRisk(db, m, org))
      && (!OwnerAtRisk(db, m, org) && m.role.Some? ==>
            var role := m.role.value;
            && (verdict == SafeNoChange <==>
                  Serves(db, m, org) && (db.roles[role].scope == Tenant || SameAsLegacy(db, db.users[m.user], role)))
            && (verdict == PermissionDivergence <==>
                  Serves(db, m, org) && db.roles[role].scope == System && !SameAsLegacy(db, db.users[m.user], role))
            && (verdict == CrossTenantRole <==>
                  role in db.roles && db.roles[role].active && db.roles[role].scope == Tenant
                  && db.roles[role].org.Some? && db.roles[role].org != Some(org))
            && verdict in {SafeNoChange, PermissionDivergence, CrossTenantRole, InvalidRole})
  {
    var m := db.memberships[id];
    RiskExactly(db, m, org);
    StatusExactly(db, m, org);
    StatusDecides(db, id, org);
    if Serves(db, m, org) { ListsAgree(db, id, org); }
  }

  ghost predicate Plannable(db: Db, id: MembershipId, org: OrgId, role: RoleId)
    requires id in db.memberships && db.memberships[id].user in db.users
  {
    var m, user := db.memberships[id], db.users[db.memberships[id].user];
    && m.role.None? && !m.owner && !HasOther(db, id)
    && OnlyCandidate(db, user, org, role) && SameAsLegacy(db, user, role)
  }

  /** Without a role: a risky owner, a second tenant, then the candidate decide. */
  lemma UnassignedSteps(db: Db, id: MembershipId, org: OrgId)
    requires id in db.memberships && db.memberships[id].user in db.users && db.memberships[id].role.None?
    ensures var m, user := db.memberships[id], db.users[db.memberships[id].user];
      var candidate, verdict := OnlyOne(Candidates(db, user, org)), Classify(db, id, org).verdict;
      && (verdict == MultiTenantAmbiguity <==> !m.owner && MembershipCount(db, m.user) > 1)
      && (verdict == SafeAssignRole <==>
            !m.owner && MembershipCount(db, m.user) <= 1 && candidate.Some?
            && Sorted(LegacyActions(db, user)) == Sorted(ActiveActions(db, candidate.value)))
  {
  }

  lemma AssignedSteps(db: Db, id: MembershipId, org: OrgId)
    requires id in db.memberships && db.memberships[id].user in db.users && db.memberships[id].role.Some?
    ensures Classify(db, id, org).verdict !in {MultiTenantAmbiguity, SafeAssignRole}
  {
  }

  lemma AssignRoleIs(db: Db, id: MembershipId, org: OrgId)
    requires id in db.memberships && db.memberships[id].user in db.users
    ensures Assign(db, id, org).Some? <==> Classify(db, id, org).verdict == SafeAssignRole
    ensures Assign(db, id, org).Some? ==>
      OnlyOne(Candidates(db, db.users[db.memberships[id].user], org)) == Some(Assign(db, id, org).value.role)
  {
    if Assign(db, id, org).Some? {
      if db.memberships[id].role.None? { UnassignedSteps(db, id, org); } else { AssignedSteps(db, id, org); }
    }
  }

  /**
   A role is planned exactly for a plain member without a role and without a second tenant, when it is
   the only candidate and grants exactly what the user has today.
   */
  lemma PlannedExactly(db: Db, id: MembershipId, org: OrgId, role: RoleId)
    requires id in db.memberships && db.memberships[id].user in db.users
    ensures (Assign(db, id, org).Some? && Assign(db, id, org).value.role == role) <==> Plannable(db, id, org, role)
  {
    var user := db.users[db.memberships[id].user];
    AssignRoleIs(db, id, org);
    if db.memberships[id].role.None? { UnassignedSteps(db, id, org); } else { AssignedSteps(db, id, org); }
    OtherExactly(db, id);
    CandidatesExactly(db, user, org, role);
    SameAsLegacyExactly(db, user, role);
    SortedIsSame(LegacyActions(db, user), ActiveActions(db, role));
  }

  lemma AmbiguousExactly(db: Db, id: MembershipId, org: OrgId)
    requires id in db.memberships && db.memberships[id].user in db.users
    ensures Classify(db, id, org).verdict == MultiTenantAmbiguity <==>
      db.memberships[id].role.None? && !db.memberships[id].owner && HasOther(db, id)
  {
    if db.memberships[id].role.None? { UnassignedSteps(db, id, org); } else { AssignedSteps(db, id, org); }
    OtherExactly(db, id);
  }

  // ---------------------------------------------------------------------------------------------
  // The apply, as the permission cache sees it
  // ---------------------------------------------------------------------------------------------

  /** If an entry was written, some membership that had no role has one. */
  lemma {:induction false} WrittenShows(db: Db, org: OrgId, plan: seq<Assignment>)
    requires |StaleIn(db, org, plan)| < |plan|
    ensures var each := ApplyEach(db, org, plan);
      exists m :: m in db.memberships && m in each.memberships && db.memberships[m].role.None? && each.memberships[m].role.Some?
  {
    var rest, a := plan[..|plan| - 1], plan[|plan| - 1];
    var mid := ApplyEach(db, org, rest);
    AppliedOnlyJustified(db, org, rest);
    if StaleReason(mid, org, a).Some? {
      WrittenShows(db, org, rest);
    } else {
      assert mid.memberships[a.membership].role.None? && a.membership in db.memberships;
      assert mid.memberships[a.membership] == db.memberships[a.membership];
    }
  }

  /** The roles an apply wrote. */
  function WrittenRoles(db: Db, each: Db): map<MembershipId, RoleId> {
    map m | m in db.memberships && m in each.memberships && each.memberships[m] != db.memberships[m] ::
      each.memberships[m].role.GetOr("")
  }

  lemma WrittenRows(db: Db, org: OrgId, plan: seq<Assignment>, m: MembershipId)
    requires m in db.memberships
    ensures var each := ApplyEach(db, org, plan);
      var written := WrittenRoles(db, each);
      && m in each.memberships && each.memberships[m] == ReconcileRow(db.memberships[m], m, org, written)
      && (m in written ==> Assignable(db, written[m], org))
  {
    AppliedOnlyJustified(db, org, plan);
    var each := ApplyEach(db, org, plan);
    if each.memberships[m] != db.memberships[m] {
      var a :| a in plan && FilledBy(db, each, org, a, m);
    }
  }

  lemma ReconcileRows(db: Db, db': Db, org: OrgId, written: map<MembershipId, RoleId>)
    requires forall m | m in written :: Assignable(db, written[m], org)
    requires db' == db.(memberships := map m | m in db.memberships :: ReconcileRow(db.memberships[m], m, org, written))
    ensures Apply(db, Reconcile(org, written)).0 == if AnyReconciled(db, org, written) then Bump(db', {org}) else db
  {
  }

  lemma ReconcileIs(db: Db, db': Db, org: OrgId, written: map<MembershipId, RoleId>)
    requires forall m | m in written :: Assignable(db, written[m], org)
    requires db'.memberships.Keys == db.memberships.Keys && db'.(memberships := db.memberships) == db
    requires forall m | m in db.memberships :: db'.memberships[m] == ReconcileRow(db.memberships[m], m, org, written)
    ensures Apply(db, Reconcile(org, written)).0 == if db' == db then db else Bump(db', {org})
  {
    assert (map m | m in db.memberships :: ReconcileRow(db.memberships[m], m, org, written)) == db'.memberships;
    ReconcileRows(db, db', org, written);
    if db' == db {
      assert !AnyReconciled(db, org, written);
    } else {
      assert db'.memberships != db.memberships;
      var m :| m in db.memberships && db'.memberships[m] != db.memberships[m];
      assert AnyReconciled(db, org, written);
    }
  }

  /** Every apply is one of the versioned writes the permission cache's theorems are about. */
  lemma ApplyIsWrite(db: Db, org: OrgId, plan: seq<Assignment>)
    ensures ApplyPlan(db, org, plan) == Apply(db, Reconcile(org, WrittenRoles(db, ApplyEach(db, org, plan)))).0
  {
    var each := ApplyEach(db, org, plan);
    var written := WrittenRoles(db, each);
    AppliedOnlyJustified(db, org, plan);
    forall m | m in db.memberships
      ensures each.memberships[m] == ReconcileRow(db.memberships[m], m, org, written)
      ensures m in written ==> Assignable(db, written[m], org)
    {
      WrittenRows(db, org, plan, m);
    }
    ReconcileIs(db, each, org, written);
    StaleBound(db, org, plan);
    if |StaleIn(db, org, plan)| < |plan| { WrittenShows(db, org, plan); }
  }
}
