/**
 Reconciliation of memberships that still rely on a user's legacy role: plan, guarded apply and the
 readiness verdict of the maintenance tool.
 */
module RbacReconciliation {
  import opened Prelude
  import opened Text
  import opened Rbac
  import AuthorizationCache

  const OWNER_PERMISSIONS := ["role:manage", "user:manage"]

  datatype Status =
    | ExactMatch | AssignmentMissing | RoleNotFound | RoleInactive | ScopeInvalid | CrossTenant | CustomRole | SetsDiverge

  datatype Verdict =
    | SafeNoChange | SafeAssignRole | PermissionDivergence | MultiTenantAmbiguity
    | CrossTenantRole | InvalidRole | OwnerRisk | LegacyConflict

  datatype Assignment = Assignment(
    user: UserId, membership: MembershipId, role: RoleId, userBase: BaseRole, userRole: Option<RoleId>,
    membershipCount: nat, permissions: seq<string>)

  datatype Audit = Audit(
    membership: MembershipId, roleId: Option<RoleId>, status: Status, verdict: Verdict,
    legacyPermissions: seq<string>, rolePermissions: seq<string>, legacyOnly: seq<string>, roleOnly: seq<string>,
    ownerMissing: seq<string>, multiTenant: bool, candidate: Option<RoleId>)

  // ---------------------------------------------------------------------------------------------
  // Helpers of the tool
  // ---------------------------------------------------------------------------------------------

  /** `difference`: the elements of the left list that the right one lacks, in order. */
  function Difference(left: seq<string>, right: seq<string>): (r: seq<string>)
    ensures forall x :: x in r <==> x in left && x !in right
  {
    if left == [] then []
    else if left[0] in right then Difference(left[1..], right)
    else [left[0]] + Difference(left[1..], right)
  }

  lemma DifferenceEmpty(a: set<string>, b: set<string>)
    ensures Difference(Sorted(a), Sorted(b)) == [] <==> a <= b
  {
    var d := Difference(Sorted(a), Sorted(b));
    if d != [] { assert d[0] in d; }
    if !(a <= b) {
      var x :| x in a && x !in b;
      assert x in d;
    }
  }

  /** Every membership's user exists. */
  ghost predicate UsersExist(db: Db) {
    forall m | m in db.memberships :: db.memberships[m].user in db.users
  }

  function EnumActions(db: Db, base: BaseRole): set<string> {
    set g | g in db.grants && g.base == Some(base) && IsLive(db.permissions, g.permission) :: db.permissions[g.permission].action
  }

  /** What the user may do today without the membership's role. */
  function LegacyActions(db: Db, user: User): set<string> {
    if user.role.Some? then ActiveActions(db, user.role.value) else EnumActions(db, user.base)
  }

  function RoleActions(db: Db, m: Membership): set<string> {
    if m.role.Some? && m.role.value in db.roles then ActiveActions(db, m.role.value) else {}
  }

  function MembershipCount(db: Db, user: UserId): nat {
    |set m | m in db.memberships && db.memberships[m].user == user|
  }

  /** Lines 38-43. */
  function StructuralStatus(db: Db, m: Membership, org: OrgId): Status {
    if m.role.None? then AssignmentMissing
    else if m.role.value !in db.roles then RoleNotFound
    else
      var role := db.roles[m.role.value];
      if !role.active then RoleInactive
      else if (role.scope == System && role.org.Some?) || (role.scope == Tenant && role.org.None?) then ScopeInvalid
      else if role.scope == Tenant && role.org != Some(org) then CrossTenant
      else ExactMatch
  }

  /** The roles that could replace the legacy one; exactly one must be valid here. */
  function Candidates(db: Db, user: User, org: OrgId): set<RoleId> {
    if user.role.Some? then
      if user.role.value in db.roles && ValidRole(db.roles[user.role.value], org) then {user.role.value} else {}
    else
      set r | r in db.roles && db.roles[r].scope == System && db.roles[r].org.None? && db.roles[r].active
        && db.roles[r].base == user.base && ValidRole(db.roles[r], org)
  }

  function OnlyOne(s: set<RoleId>): (r: Option<RoleId>)
    ensures r.Some? <==> |s| == 1
    ensures r.Some? ==> s == {r.value}
  {
    if |s| != 1 then None
    else
      SingletonUnique(s);
      var x :| x in s;
      Some(x)
  }

  lemma SingletonUnique(s: set<RoleId>)
    requires |s| == 1
    ensures exists x :: s == {x}
    ensures forall x, y | x in s && y in s :: x == y
  {
    var x :| x in s;
    assert |s - {x}| == 0;
    assert s == {x};
  }

  // ---------------------------------------------------------------------------------------------
  // The classification of one membership
  // ---------------------------------------------------------------------------------------------

  function OwnerMissing(m: Membership, actions: seq<string>): seq<string> {
    if m.owner then Difference(OWNER_PERMISSIONS, actions) else []
  }

  /** Lines 35-85 for one membership, without the diagnostics texts. */
  function Classify(db: Db, id: MembershipId, org: OrgId): Audit
    requires id in db.memberships && db.memberships[id].user in db.users
  {
    var m := db.memberships[id];
    var user := db.users[m.user];
    var legacy, actions := Sorted(LegacyActions(db, user)), Sorted(RoleActions(db, m));
    var legacyOnly, roleOnly := Difference(legacy, actions), Difference(actions, legacy);
    var structural := StructuralStatus(db, m, org);
    var valid := structural == ExactMatch;
    var custom := valid && m.role.Some? && m.role.value in db.roles && db.roles[m.role.value].scope == Tenant;
    var status :=
      if custom then CustomRole else if valid && (legacyOnly != [] || roleOnly != []) then SetsDiverge else structural;
    var missing := OwnerMissing(m, actions);
    var multi := MembershipCount(db, m.user) > 1;
    var candidate := OnlyOne(Candidates(db, user, org));
    var assignable := candidate.Some? && legacy == Sorted(ActiveActions(db, candidate.value));
    var verdict :=
      if m.owner && (!valid || missing != []) then OwnerRisk
      else if status == CrossTenant then CrossTenantRole
      else if status == RoleNotFound || status == RoleInactive || status == ScopeInvalid then InvalidRole
      else if status == SetsDiverge then PermissionDivergence
      else if status != AssignmentMissing then SafeNoChange
      else if multi then MultiTenantAmbiguity
      else if assignable then SafeAssignRole
      else LegacyConflict;
    Audit(id, m.role, status, verdict, legacy, actions, legacyOnly, roleOnly, missing, multi,
          if verdict == SafeAssignRole || verdict == LegacyConflict then candidate else None)
  }

  /** The planned write of a SAFE_ASSIGN_ROLE membership. */
  function Assign(db: Db, id: MembershipId, org: OrgId): (a: Option<Assignment>)
    requires id in db.memberships && db.memberships[id].user in db.users
    ensures a.Some? <==> Classify(db, id, org).verdict == SafeAssignRole
  {
    var m := db.memberships[id];
    var user := db.users[m.user];
    var audit := Classify(db, id, org);
    if audit.verdict == SafeAssignRole then
      var role := OnlyOne(Candidates(db, user, org)).value;
      Some(Assignment(m.user, id, role, user.base, user.role, MembershipCount(db, m.user), Sorted(ActiveActions(db, role))))
    else None
  }

  /** The organization's memberships, `orderBy: { id: 'asc' }`. */
  function IdsOf(db: Db, org: OrgId): (ids: seq<MembershipId>)
    ensures forall m :: m in ids <==> m in db.memberships && db.memberships[m].org == org
  {
    Sorted(set m | m in db.memberships && db.memberships[m].org == org)
  }

  /** The listed memberships and their users exist. */
  ghost predicate Listed(db: Db, ids: seq<MembershipId>) {
    forall i | 0 <= i < |ids| :: ids[i] in db.memberships && db.memberships[ids[i]].user in db.users
  }

  lemma IdsListed(db: Db, org: OrgId)
    requires UsersExist(db)
    ensures Listed(db, IdsOf(db, org))
  {
    var ids := IdsOf(db, org);
    forall i | 0 <= i < |ids| ensures ids[i] in db.memberships {
      assert ids[i] in ids;
    }
  }

  function Audits(db: Db, org: OrgId, ids: seq<MembershipId>): seq<Audit>
    requires Listed(db, ids)
  {
    if ids == [] then [] else Audits(db, org, ids[..|ids| - 1]) + [Classify(db, ids[|ids| - 1], org)]
  }

  function Assignments(db: Db, org: OrgId, ids: seq<MembershipId>): seq<Assignment>
    requires Listed(db, ids)
  {
    if ids == [] then []
    else
      var rest, last := Assignments(db, org, ids[..|ids| - 1]), Assign(db, ids[|ids| - 1], org);
      if last.Some? then rest + [last.value] else rest
  }

  /** `plan`, its audits and its assignments. */
  function AuditsOf(db: Db, org: OrgId): seq<Audit>
    requires UsersExist(db)
  {
    IdsListed(db, org);
    Audits(db, org, IdsOf(db, org))
  }

  function PlanOf(db: Db, org: OrgId): seq<Assignment>
    requires UsersExist(db)
  {
    IdsListed(db, org);
    Assignments(db, org, IdsOf(db, org))
  }

  // ---------------------------------------------------------------------------------------------
  // The guarded apply
  // ---------------------------------------------------------------------------------------------

  datatype Stale =
    | MembershipNotFound | IdentityChanged | RoleChanged | LegacySourceChanged | CountChanged
    | CandidateRoleChanged | CandidatePermissionsChanged

  /** Line 99: the first guard that fails. */
  function StaleReason(db: Db, org: OrgId, a: Assignment): Option<Stale> {
    if a.membership !in db.memberships then Some(MembershipNotFound)
    else
      var m := db.memberships[a.membership];
      if m.user != a.user || m.org != org then Some(IdentityChanged)
      else if m.role.Some? then Some(RoleChanged)
      else if m.user !in db.users || db.users[m.user].base != a.userBase || db.users[m.user].role != a.userRole
      then Some(LegacySourceChanged)
      else if MembershipCount(db, m.user) != a.membershipCount then Some(CountChanged)
      else if a.role !in db.roles || !ValidRole(db.roles[a.role], org) then Some(CandidateRoleChanged)
      else if Sorted(ActiveActions(db, a.role)) != a.permissions then Some(CandidatePermissionsChanged)
      else None
  }

  function ApplyOne(db: Db, org: OrgId, a: Assignment): Db {
    if StaleReason(db, org, a).Some? then db
    else WithMember(db, a.membership, db.memberships[a.membership].(role := Some(a.role)))
  }

  function ApplyEach(db: Db, org: OrgId, plan: seq<Assignment>): Db {
    if plan == [] then db else ApplyOne(ApplyEach(db, org, plan[..|plan| - 1]), org, plan[|plan| - 1])
  }

  function StaleIn(db: Db, org: OrgId, plan: seq<Assignment>): seq<(MembershipId, Stale)> {
    if plan == [] then []
    else
      var reason := StaleReason(ApplyEach(db, org, plan[..|plan| - 1]), org, plan[|plan| - 1]);
      StaleIn(db, org, plan[..|plan| - 1]) + if reason.Some? then [(plan[|plan| - 1].membership, reason.value)] else []
  }

  /** The apply transaction: the version is bumped only if something was written. */
  function ApplyPlan(db: Db, org: OrgId, plan: seq<Assignment>): Db {
    if |StaleIn(db, org, plan)| == |plan| then db else Bump(ApplyEach(db, org, plan), {org})
  }

  lemma {:induction false} StaleBound(db: Db, org: OrgId, plan: seq<Assignment>)
    ensures |StaleIn(db, org, plan)| <= |plan|
    ensures |StaleIn(db, org, plan)| == |plan| ==> ApplyEach(db, org, plan) == db
  {
    if plan != [] { StaleBound(db, org, plan[..|plan| - 1]); }
  }

  class TenantRbacMaintenance {
    var db: Db

    constructor (initial: Db)
      ensures db == initial
    {
      db := initial;
    }

    /** `plan`; it throws for an unknown organization. */
    method Plan(org: OrgId) returns (found: bool, audits: seq<Audit>, assignments: seq<Assignment>)
      requires UsersExist(db)
      ensures found == (org in db.orgs)
      ensures found ==> audits == AuditsOf(db, org) && assignments == PlanOf(db, org)
    {
      found, audits, assignments := org in db.orgs, [], [];
      if found {
        var ids := IdsOf(db, org);
        IdsListed(db, org);
        assignments, audits := PlanListed(org, ids);
      }
    }

    /**
     `backfill` with `apply`, undisturbed: no entry is stale, and it answers ready exactly when every
     membership can now do without the fallback.
     */
    method Backfill(org: OrgId) returns (found: bool, applied: nat, stale: seq<(MembershipId, Stale)>, ready: bool)
      requires UsersExist(db)
      modifies this
      ensures found == (org in old(db).orgs)
      ensures !found ==> db == old(db)
      ensures found ==>
        && db == Reconciled(old(db), org) && UsersExist(db)
        && stale == [] && applied == |PlanOf(old(db), org)|
        && (ready <==> AllSufficient(db, org))
    {
      var audits, plan;
      found, audits, plan := Plan(org);
      applied, stale, ready := 0, [], false;
      if found {
        Undisturbed(db, org);
        applied, stale := ApplyAssignments(org, plan);
        var _, after, _ := Plan(org);
        ready := ReadyForRemoval(after) && stale == [];
      }
    }

    method PlanListed(org: OrgId, ids: seq<MembershipId>) returns (assignments: seq<Assignment>, audits: seq<Audit>)
      requires Listed(db, ids)
      ensures audits == Audits(db, org, ids) && assignments == Assignments(db, org, ids)
    {
      audits, assignments := [], [];
      var i := 0;
      while i < |ids|
        invariant 0 <= i <= |ids|
        invariant audits == Audits(db, org, ids[..i]) && assignments == Assignments(db, org, ids[..i])
      {
        assert ids[..i + 1][..i] == ids[..i];
        var assignment := Assign(db, ids[i], org);
        if assignment.Some? { assignments := assignments + [assignment.value]; }
        audits := audits + [Classify(db, ids[i], org)];
        i := i + 1;
      }
      assert ids[..i] == ids;
    }

    method ApplyAssignments(org: OrgId, plan: seq<Assignment>) returns (applied: nat, stale: seq<(MembershipId, Stale)>)
      modifies this
      ensures db == ApplyPlan(old(db), org, plan)
      ensures stale == StaleIn(old(db), org, plan) && applied + |stale| == |plan|
    {
      applied, stale := 0, [];
      var i := 0;
      while i < |plan|
        invariant 0 <= i <= |plan| && applied + |stale| == i
        invariant db == ApplyEach(old(db), org, plan[..i]) && stale == StaleIn(old(db), org, plan[..i])
      {
        assert plan[..i + 1][..i] == plan[..i];
        var a := plan[i];
        var reason := StaleReason(db, org, a);
        if reason.Some? {
          stale := stale + [(a.membership, reason.value)];
        } else {
          db := db.(memberships := db.memberships[a.membership := db.memberships[a.membership].(role := Some(a.role))]);
          applied := applied + 1;
        }
        i := i + 1;
      }
      assert plan[..i] == plan;
      StaleBound(old(db), org, plan);
      if applied > 0 {
        db := Bump(db, {org});
      }
    }
  }

  // ---------------------------------------------------------------------------------------------
  // What the apply can have written, whatever happened since the plan
  // ---------------------------------------------------------------------------------------------

  /** An assignment is right to write on this database. */
  ghost predicate Justified(db: Db, org: OrgId, a: Assignment) {
    && a.membership in db.memberships && db.memberships[a.membership].org == org
    && db.memberships[a.membership].role.None?
    && a.role in db.roles && ValidRole(db.roles[a.role], org)
    && Sorted(ActiveActions(db, a.role)) == a.permissions
  }

  ghost predicate FilledBy(db: Db, db': Db, org: OrgId, a: Assignment, id: MembershipId)
    requires id in db.memberships && id in db'.memberships
  {
    a.membership == id && Justified(db, org, a) && db'.memberships[id] == db.memberships[id].(role := Some(a.role))
  }

  ghost predicate OnlyRolesFilled(db: Db, db': Db, org: OrgId, plan: seq<Assignment>) {
    && db'.memberships.Keys == db.memberships.Keys
    && db'.(memberships := db.memberships) == db
    && (forall m | m in db.memberships && db'.memberships[m] != db.memberships[m] ::
          exists a | a in plan :: FilledBy(db, db', org, a, m))
  }

  lemma {:induction false} AppliedOnlyJustified(db: Db, org: OrgId, plan: seq<Assignment>)
    ensures OnlyRolesFilled(db, ApplyEach(db, org, plan), org, plan)
  {
    if plan != [] {
      var rest, a := plan[..|plan| - 1], plan[|plan| - 1];
      AppliedOnlyJustified(db, org, rest);
      var mid := ApplyEach(db, org, rest);
      var db' := ApplyOne(mid, org, a);
      forall m | m in db.memberships && db'.memberships[m] != db.memberships[m]
        ensures exists b | b in plan :: FilledBy(db, db', org, b, m)
      {
        if m == a.membership && mid.memberships[m] == db.memberships[m] {
          assert a in plan && FilledBy(db, db', org, a, m);
        } else {
          var b :| b in rest && FilledBy(db, mid, org, b, m);
          assert b in plan && FilledBy(db, db', org, b, m);
        }
      }
    }
  }

  /** What a planned assignment says. */
  lemma AssignFacts(db: Db, id: MembershipId, org: OrgId)
    requires id in db.memberships && db.memberships[id].user in db.users && Assign(db, id, org).Some?
    ensures var a, m := Assign(db, id, org).value, db.memberships[id];
      && m.role.None? && !m.owner && a.membership == id && a.user == m.user
      && a.userBase == db.users[m.user].base && a.userRole == db.users[m.user].role
      && a.membershipCount == MembershipCount(db, m.user)
      && a.role in db.roles && ValidRole(db.roles[a.role], org)
      && a.permissions == Sorted(ActiveActions(db, a.role)) == Sorted(LegacyActions(db, db.users[m.user]))
  {
    var only := OnlyOne(Candidates(db, db.users[db.memberships[id].user], org));
    assert only.value in {only.value};
  }

  /** Every planned assignment is that of one listed membership. */
  lemma {:induction false} PlannedFrom(db: Db, org: OrgId, ids: seq<MembershipId>, a: Assignment)
    requires Listed(db, ids) && a in Assignments(db, org, ids)
    ensures exists i | 0 <= i < |ids| :: Assign(db, ids[i], org) == Some(a)
  {
    var rest := ids[..|ids| - 1];
    if a in Assignments(db, org, rest) {
      PlannedFrom(db, org, rest, a);
      var i :| 0 <= i < |rest| && Assign(db, rest[i], org) == Some(a);
      assert ids[i] == rest[i];
    }
  }

  ghost predicate SameTables(db: Db, db': Db) {
    db'.roles == db.roles && db'.permissions == db.permissions && db'.grants == db.grants && db'.users == db.users
  }

  /** A role is filled as planned: null before, valid now, and granting exactly the planned legacy actions. */
  ghost predicate FilledAsPlanned(planned: Db, current: Db, after: Db, org: OrgId, id: MembershipId)
    requires id in current.memberships && id in after.memberships
  {
    var m, m' := current.memberships[id], after.memberships[id];
    && m.org == org && m.role.None? && m'.role.Some? && m' == m.(role := m'.role)
    && m'.role.value in current.roles && ValidRole(current.roles[m'.role.value], org)
    && id in planned.memberships && planned.memberships[id].user in planned.users
    && ActiveActions(current, m'.role.value) == LegacyActions(planned, planned.users[planned.memberships[id].user])
  }

  /**
   For arbitrary changes between plan and apply: the apply fills null roles of that organization only,
   with a role valid at that moment whose active actions are, as a set, the planned legacy ones; nothing
   else changes but the version.
   */
  lemma ApplyPreservesPermissions(planned: Db, current: Db, org: OrgId, id: MembershipId)
    requires UsersExist(planned)
    ensures var after := ApplyPlan(current, org, PlanOf(planned, org));
      && after.memberships.Keys == current.memberships.Keys && SameTables(current, after)
      && (id in current.memberships && after.memberships[id] != current.memberships[id] ==>
            FilledAsPlanned(planned, current, after, org, id))
  {
    var ids := IdsOf(planned, org);
    IdsListed(planned, org);
    var plan := Assignments(planned, org, ids);
    AppliedOnlyJustified(current, org, plan);
    StaleBound(current, org, plan);
    var each := ApplyEach(current, org, plan);
    if id in current.memberships && each.memberships[id] != current.memberships[id] {
      var a :| a in plan && FilledBy(current, each, org, a, id);
      PlannedFrom(planned, org, ids, a);
      var i :| 0 <= i < |ids| && Assign(planned, ids[i], org) == Some(a);
      AssignFacts(planned, ids[i], org);
      SortedIsSame(ActiveActions(current, a.role), LegacyActions(planned, planned.users[planned.memberships[id].user]));
    }
  }

  /** If every planned entry has gone stale, nothing is written and no version moves. */
  lemma NothingAppliedNothingBumped(db: Db, org: OrgId, plan: seq<Assignment>)
    requires |StaleIn(db, org, plan)| == |plan|
    ensures ApplyPlan(db, org, plan) == db
  {
  }

  // ---------------------------------------------------------------------------------------------
  // Convergence
  // ---------------------------------------------------------------------------------------------

  ghost predicate SameUsers(db: Db, db': Db) {
    && db'.memberships.Keys == db.memberships.Keys
    && forall m | m in db.memberships :: db'.memberships[m].user == db.memberships[m].user
  }

  lemma SameCount(db: Db, db': Db, user: UserId)
    requires SameUsers(db, db')
    ensures MembershipCount(db', user) == MembershipCount(db, user)
  {
    assert (set m | m in db'.memberships && db'.memberships[m].user == user)
      == (set m | m in db.memberships && db.memberships[m].user == user);
  }

  lemma SameTablesSameSources(db: Db, db': Db, user: User, m: Membership, org: OrgId)
    requires SameTables(db, db')
    ensures Candidates(db', user, org) == Candidates(db, user, org)
    ensures LegacyActions(db', user) == LegacyActions(db, user)
    ensures RoleActions(db', m) == RoleActions(db, m)
    ensures StructuralStatus(db', m, org) == StructuralStatus(db, m, org)
    ensures forall r :: ActiveActions(db', r) == ActiveActions(db, r)
  {
  }

  lemma SameClassification(db: Db, db': Db, id: MembershipId, org: OrgId)
    requires SameTables(db, db') && SameUsers(db, db')
    requires id in db.memberships && db.memberships[id].user in db.users && db'.memberships[id] == db.memberships[id]
    ensures Classify(db', id, org) == Classify(db, id, org)
  {
    SameCount(db, db', db.memberships[id].user);
    SameTablesSameSources(db, db', db.users[db.memberships[id].user], db.memberships[id], org);
    assert Sorted(RoleActions(db', db.memberships[id])) == Sorted(RoleActions(db, db.memberships[id]));
  }

  /** A plain member whose valid role grants exactly the legacy actions needs no change. */
  lemma SafeWhenFaithful(db: Db, id: MembershipId, org: OrgId)
    requires id in db.memberships && db.memberships[id].user in db.users && !db.memberships[id].owner
    requires StructuralStatus(db, db.memberships[id], org) == ExactMatch
    requires RoleActions(db, db.memberships[id]) == LegacyActions(db, db.users[db.memberships[id].user])
    ensures Classify(db, id, org).verdict == SafeNoChange
  {
    var actions := RoleActions(db, db.memberships[id]);
    DifferenceEmpty(actions, actions);
  }

  lemma FilledIsSafe(db: Db, db': Db, id: MembershipId, org: OrgId)
    requires SameTables(db, db') && SameUsers(db, db')
    requires id in db.memberships && db.memberships[id].user in db.users && Assign(db, id, org).Some?
    requires db'.memberships[id] == db.memberships[id].(role := Some(Assign(db, id, org).value.role))
    ensures Classify(db', id, org).verdict == SafeNoChange
  {
    AssignFacts(db, id, org);
    var user, role := db.users[db.memberships[id].user], Assign(db, id, org).value.role;
    assert LegacyActions(db', user) == LegacyActions(db, user);
    assert RoleActions(db', db'.memberships[id]) == ActiveActions(db, role);
    SortedIsSame(ActiveActions(db, role), LegacyActions(db, user));
    SafeWhenFaithful(db', id, org);
  }

  lemma StaleSame(db: Db, mid: Db, org: OrgId, a: Assignment)
    requires SameTables(db, mid) && SameUsers(db, mid)
    requires a.membership in db.memberships && mid.memberships[a.membership] == db.memberships[a.membership]
    ensures StaleReason(mid, org, a) == StaleReason(db, org, a)
  {
    SameCount(db, mid, db.memberships[a.membership].user);
    assert ActiveActions(mid, a.role) == ActiveActions(db, a.role);
  }

  /** Distinct memberships, none stale on this database. */
  ghost predicate Current(db: Db, org: OrgId, plan: seq<Assignment>) {
    && (forall i, j | 0 <= i < j < |plan| :: plan[i].membership != plan[j].membership)
    && (forall i | 0 <= i < |plan| :: StaleReason(db, org, plan[i]) == None)
  }

  predicate Named(plan: seq<Assignment>, id: MembershipId) {
    exists i | 0 <= i < |plan| :: plan[i].membership == id
  }

  ghost predicate Full(db: Db, db': Db, plan: seq<Assignment>) {
    && SameTables(db, db') && SameUsers(db, db')
    && (forall i | 0 <= i < |plan| :: RowFilled(db, db', plan[i]))
    && (forall m | m in db.memberships && !Named(plan, m) :: db'.memberships[m] == db.memberships[m])
  }

  ghost predicate RowFilled(db: Db, db': Db, a: Assignment) {
    && a.membership in db.memberships && a.membership in db'.memberships
    && db'.memberships[a.membership] == db.memberships[a.membership].(role := Some(a.role))
  }

  lemma NamedLonger(plan: seq<Assignment>, a: Assignment, m: MembershipId)
    ensures Named(plan + [a], m) <==> Named(plan, m) || a.membership == m
  {
    var longer := plan + [a];
    assert longer[|plan|] == a;
    assert forall i | 0 <= i < |plan| :: longer[i] == plan[i];
  }

  /** One more current entry is applied in full. */
  lemma FullStep(db: Db, mid: Db, org: OrgId, plan: seq<Assignment>, a: Assignment)
    requires Current(db, org, plan + [a]) && Full(db, mid, plan)
    ensures StaleReason(mid, org, a) == None && Full(db, ApplyOne(mid, org, a), plan + [a])
  {
    var longer := plan + [a];
    assert longer[|plan|] == a;
    assert forall i | 0 <= i < |plan| :: longer[i] == plan[i];
    assert !Named(plan, a.membership);
    StaleSame(db, mid, org, a);
    var db' := ApplyOne(mid, org, a);
    forall m | m in db.memberships && !Named(longer, m) ensures db'.memberships[m] == db.memberships[m] {
      NamedLonger(plan, a, m);
    }
    forall i | 0 <= i < |longer| ensures RowFilled(db, db', longer[i]) {
      assert i < |plan| ==> RowFilled(db, mid, plan[i]);
    }
  }

  lemma CurrentPrefix(db: Db, org: OrgId, plan: seq<Assignment>)
    requires Current(db, org, plan) && plan != []
    ensures Current(db, org, plan[..|plan| - 1])
  {
    assert forall i | 0 <= i < |plan| - 1 :: plan[..|plan| - 1][i] == plan[i];
  }

  /** A plan that is current is applied in full. */
  lemma {:induction false} CurrentAppliesInFull(db: Db, org: OrgId, plan: seq<Assignment>)
    requires Current(db, org, plan)
    ensures Full(db, ApplyEach(db, org, plan), plan) && StaleIn(db, org, plan) == []
  {
    if plan != [] {
      var rest, a := plan[..|plan| - 1], plan[|plan| - 1];
      CurrentPrefix(db, org, plan);
      CurrentAppliesInFull(db, org, rest);
      assert rest + [a] == plan;
      FullStep(db, ApplyEach(db, org, rest), org, rest, a);
    }
  }

  lemma NotStale(db: Db, org: OrgId, id: MembershipId)
    requires id in db.memberships && db.memberships[id].user in db.users && db.memberships[id].org == org
    requires Assign(db, id, org).Some?
    ensures StaleReason(db, org, Assign(db, id, org).value) == None
  {
    AssignFacts(db, id, org);
  }

  /** Every listed membership that should be assigned is planned. */
  lemma {:induction false} AssignedIsPlanned(db: Db, org: OrgId, ids: seq<MembershipId>, i: nat)
    requires Listed(db, ids) && i < |ids| && Assign(db, ids[i], org).Some?
    ensures Assign(db, ids[i], org).value in Assignments(db, org, ids)
  {
    if i < |ids| - 1 {
      assert ids[..|ids| - 1][i] == ids[i];
      AssignedIsPlanned(db, org, ids[..|ids| - 1], i);
    }
  }

  /** An entry for a listed membership is what that membership should be assigned. */
  lemma PlannedIsAssigned(db: Db, org: OrgId, ids: seq<MembershipId>, a: Assignment)
    requires Listed(db, ids) && a in Assignments(db, org, ids)
    ensures a.membership in ids && a.membership in db.memberships && db.memberships[a.membership].user in db.users
    ensures Assign(db, a.membership, org) == Some(a)
  {
    PlannedFrom(db, org, ids, a);
    var i :| 0 <= i < |ids| && Assign(db, ids[i], org) == Some(a);
    AssignFacts(db, ids[i], org);
  }

  /** A fresh plan is current. */
  lemma {:induction false} PlanIsCurrent(db: Db, org: OrgId, ids: seq<MembershipId>)
    requires Listed(db, ids) && Ascending(ids)
    requires forall i | 0 <= i < |ids| :: db.memberships[ids[i]].org == org
    ensures Current(db, org, Assignments(db, org, ids))
  {
    if ids != [] {
      var rest, last := ids[..|ids| - 1], ids[|ids| - 1];
      PlanIsCurrent(db, org, rest);
      var a := Assign(db, last, org);
      if a.Some? { CurrentStep(db, org, rest, last); }
    }
  }

  lemma CurrentStep(db: Db, org: OrgId, rest: seq<MembershipId>, last: MembershipId)
    requires Listed(db, rest) && Ascending(rest + [last]) && Current(db, org, Assignments(db, org, rest))
    requires last in db.memberships && db.memberships[last].user in db.users && db.memberships[last].org == org
    requires Assign(db, last, org).Some?
    ensures Current(db, org, Assignments(db, org, rest) + [Assign(db, last, org).value])
  {
    AssignFacts(db, last, org);
    NotStale(db, org, last);
    forall a | a in Assignments(db, org, rest) ensures a.membership != last {
      PlannedIsAssigned(db, org, rest, a);
      AscendingLast(rest, last, a.membership);
    }
    CurrentLonger(db, org, Assignments(db, org, rest), Assign(db, last, org).value);
  }

  lemma CurrentLonger(db: Db, org: OrgId, plan: seq<Assignment>, a: Assignment)
    requires Current(db, org, plan) && StaleReason(db, org, a) == None
    requires forall b | b in plan :: b.membership != a.membership
    ensures Current(db, org, plan + [a])
  {
    assert forall i | 0 <= i < |plan| :: plan[i] in plan;
  }

  lemma AscendingLast(rest: seq<string>, last: string, x: string)
    requires Ascending(rest + [last]) && x in rest
    ensures x != last
  {
    var k :| 0 <= k < |rest| && rest[k] == x;
    assert Less((rest + [last])[k], (rest + [last])[|rest|]);
    LessIrreflexive(last);
  }

  lemma {:induction false} NothingPlanned(db: Db, org: OrgId, ids: seq<MembershipId>)
    requires Listed(db, ids) && forall i | 0 <= i < |ids| :: Assign(db, ids[i], org).None?
    ensures Assignments(db, org, ids) == []
  {
    if ids != [] { NothingPlanned(db, org, ids[..|ids| - 1]); }
  }

  /** The database after an apply with nothing in between. */
  function Reconciled(db: Db, org: OrgId): Db
    requires UsersExist(db)
  {
    ApplyPlan(db, org, PlanOf(db, org))
  }

  lemma PlanOfIsCurrent(db: Db, org: OrgId)
    requires UsersExist(db)
    ensures Current(db, org, PlanOf(db, org))
  {
    var ids := IdsOf(db, org);
    IdsListed(db, org);
    forall i | 0 <= i < |ids| ensures db.memberships[ids[i]].org == org {
      assert ids[i] in ids;
    }
    PlanIsCurrent(db, org, ids);
  }

  lemma ReconciledIsFull(db: Db, org: OrgId)
    requires UsersExist(db)
    ensures Full(db, Reconciled(db, org), PlanOf(db, org))
  {
    PlanOfIsCurrent(db, org);
    CurrentAppliesInFull(db, org, PlanOf(db, org));
    FullIgnoresVersions(db, ApplyEach(db, org, PlanOf(db, org)), org, PlanOf(db, org));
  }

  lemma FullIgnoresVersions(db: Db, mid: Db, org: OrgId, plan: seq<Assignment>)
    requires Full(db, mid, plan)
    ensures Full(db, Bump(mid, {org}), plan)
  {
    assert forall i | 0 <= i < |plan| :: RowFilled(db, mid, plan[i]);
  }

  lemma FullKeepsIds(db: Db, db': Db, org: OrgId, plan: seq<Assignment>, id: MembershipId)
    requires Full(db, db', plan)
    ensures id in db.memberships <==> id in db'.memberships
    ensures id in db.memberships ==> db'.memberships[id].org == db.memberships[id].org
  {
    if id in db.memberships && Named(plan, id) {
      var i :| 0 <= i < |plan| && plan[i].membership == id;
      assert RowFilled(db, db', plan[i]);
    }
  }

  lemma ReconciledKeepsIds(db: Db, org: OrgId)
    requires UsersExist(db)
    ensures var db' := Reconciled(db, org);
      SameTables(db, db') && SameUsers(db, db') && UsersExist(db') && IdsOf(db', org) == IdsOf(db, org)
  {
    var db' := Reconciled(db, org);
    ReconciledIsFull(db, org);
    forall m ensures m in IdsOf(db', org) <==> m in IdsOf(db, org) {
      FullKeepsIds(db, db', org, PlanOf(db, org), m);
    }
    AscendingUnique(IdsOf(db', org), IdsOf(db, org));
  }

  lemma ReconciledRow(db: Db, org: OrgId, id: MembershipId)
    requires UsersExist(db) && id in IdsOf(db, org)
    ensures id in Reconciled(db, org).memberships
    ensures var m, m', a := db.memberships[id], Reconciled(db, org).memberships[id], Assign(db, id, org);
      m' == if a.Some? then m.(role := Some(a.value.role)) else m
  {
    var ids, plan := IdsOf(db, org), PlanOf(db, org);
    IdsListed(db, org);
    ReconciledIsFull(db, org);
    var i :| 0 <= i < |ids| && ids[i] == id;
    if Assign(db, id, org).Some? {
      AssignedIsPlanned(db, org, ids, i);
      AssignFacts(db, id, org);
      var k :| 0 <= k < |plan| && plan[k] == Assign(db, id, org).value;
      assert RowFilled(db, Reconciled(db, org), plan[k]);
    } else if Named(plan, id) {
      var k :| 0 <= k < |plan| && plan[k].membership == id;
      PlannedIsAssigned(db, org, ids, plan[k]);
      assert false;
    }
  }

  /** Every assigned membership becomes SAFE_NO_CHANGE and no other classification changes. */
  lemma ReconciledClassifies(db: Db, org: OrgId, id: MembershipId)
    requires UsersExist(db) && id in IdsOf(db, org)
    ensures var db' := Reconciled(db, org);
      && id in db'.memberships && db'.memberships[id].user in db'.users
      && if Classify(db, id, org).verdict == SafeAssignRole then Classify(db', id, org).verdict == SafeNoChange
         else Classify(db', id, org) == Classify(db, id, org)
  {
    ReconciledKeepsIds(db, org);
    ReconciledRow(db, org, id);
    if Assign(db, id, org).Some? {
      FilledIsSafe(db, Reconciled(db, org), id, org);
    } else {
      SameClassification(db, Reconciled(db, org), id, org);
    }
  }

  /** Reconciling converges: a second plan is empty, so a second apply changes and bumps nothing. */
  lemma Converges(db: Db, org: OrgId)
    requires UsersExist(db)
    ensures var db' := Reconciled(db, org);
      UsersExist(db') && PlanOf(db', org) == [] && Reconciled(db', org) == db'
  {
    var db' := Reconciled(db, org);
    ReconciledKeepsIds(db, org);
    IdsListed(db', org);
    var ids := IdsOf(db', org);
    forall i | 0 <= i < |ids| ensures Assign(db', ids[i], org).None? {
      assert ids[i] in IdsOf(db, org);
      ReconciledClassifies(db, org, ids[i]);
    }
    NothingPlanned(db', org, ids);
  }

  // ---------------------------------------------------------------------------------------------
  // The readiness verdict
  // ---------------------------------------------------------------------------------------------

  /** The counts of `report` that make a reason when positive. */
  predicate Counts(a: Audit) {
    a.roleId.None? || a.multiTenant
    || a.verdict in {InvalidRole, CrossTenantRole, PermissionDivergence, OwnerRisk, LegacyConflict}
  }

  /** READY_FOR_FALLBACK_REMOVAL: no reason at all. */
  predicate ReadyForRemoval(audits: seq<Audit>) {
    forall a | a in audits :: !Counts(a)
  }

  /** A membership that can do without the fallback. */
  ghost predicate Sufficient(db: Db, id: MembershipId, org: OrgId)
    requires id in db.memberships && db.memberships[id].user in db.users
  {
    var m := db.memberships[id];
    && m.role.Some? && m.role.value in db.roles && ValidRole(db.roles[m.role.value], org)
    && MembershipCount(db, m.user) <= 1
    && (db.roles[m.role.value].scope == System ==> LegacyActions(db, db.users[m.user]) == ActiveActions(db, m.role.value))
    && (m.owner ==> "role:manage" in ActiveActions(db, m.role.value) && "user:manage" in ActiveActions(db, m.role.value))
  }

  ghost predicate AllSufficient(db: Db, org: OrgId)
    requires UsersExist(db)
  {
    forall m | m in IdsOf(db, org) :: Sufficient(db, m, org)
  }

  lemma {:induction false} AuditAt(db: Db, org: OrgId, ids: seq<MembershipId>, i: nat)
    requires Listed(db, ids)
    ensures |Audits(db, org, ids)| == |ids|
    ensures i < |ids| ==> Audits(db, org, ids)[i] == Classify(db, ids[i], org)
  {
    if ids != [] {
      AuditAt(db, org, ids[..|ids| - 1], i);
      assert i < |ids| - 1 ==> ids[..|ids| - 1][i] == ids[i];
    }
  }

  lemma OwnerMissingEmpty(m: Membership, actions: set<string>)
    ensures OwnerMissing(m, Sorted(actions)) == [] <==>
      (m.owner ==> "role:manage" in actions && "user:manage" in actions)
  {
    var missing := OwnerMissing(m, Sorted(actions));
    assert OWNER_PERMISSIONS[0] == "role:manage" && OWNER_PERMISSIONS[1] == "user:manage";
    if missing != [] { assert missing[0] in missing; }
    assert "role:manage" in OWNER_PERMISSIONS && "user:manage" in OWNER_PERMISSIONS;
  }

  lemma NotCountedExactly(db: Db, id: MembershipId, org: OrgId)
    requires id in db.memberships && db.memberships[id].user in db.users
    ensures !Counts(Classify(db, id, org)) <==> Sufficient(db, id, org)
  {
    if StructuralStatus(db, db.memberships[id], org) == ExactMatch { ServedNotCounted(db, id, org); }
  }

  /** A valid role is judged by the owner's permissions, then by its scope or its lists. */
  lemma ServedVerdict(db: Db, id: MembershipId, org: OrgId)
    requires id in db.memberships && db.memberships[id].user in db.users
    requires StructuralStatus(db, db.memberships[id], org) == ExactMatch
    ensures var audit, m := Classify(db, id, org), db.memberships[id];
      var legacy, actions := Sorted(LegacyActions(db, db.users[m.user])), Sorted(RoleActions(db, m));
      && audit.roleId == m.role && audit.multiTenant == (MembershipCount(db, m.user) > 1)
      && audit.verdict ==
           if OwnerMissing(m, actions) != [] then OwnerRisk
           else if db.roles[m.role.value].scope == System
             && (Difference(legacy, actions) != [] || Difference(actions, legacy) != []) then PermissionDivergence
           else SafeNoChange
  {
  }

  lemma ServedNotCounted(db: Db, id: MembershipId, org: OrgId)
    requires id in db.memberships && db.memberships[id].user in db.users
    requires StructuralStatus(db, db.memberships[id], org) == ExactMatch
    ensures !Counts(Classify(db, id, org)) <==> Sufficient(db, id, org)
  {
    var m := db.memberships[id];
    var legacy := LegacyActions(db, db.users[m.user]);
    ServedVerdict(db, id, org);
    DifferenceEmpty(legacy, RoleActions(db, m));
    DifferenceEmpty(RoleActions(db, m), legacy);
    OwnerMissingEmpty(m, RoleActions(db, m));
  }

  lemma AuditCounted(db: Db, org: OrgId, ids: seq<MembershipId>, i: nat)
    requires Listed(db, ids) && i < |ids|
    ensures |Audits(db, org, ids)| == |ids|
    ensures !Counts(Audits(db, org, ids)[i]) <==> Sufficient(db, ids[i], org)
  {
    AuditAt(db, org, ids, i);
    NotCountedExactly(db, ids[i], org);
  }

  /** The verdict is ready exactly when every membership of the organization can do without the fallback. */
  lemma ReadyExactly(db: Db, org: OrgId)
    requires UsersExist(db)
    ensures ReadyForRemoval(AuditsOf(db, org)) <==> AllSufficient(db, org)
  {
    var ids, audits := IdsOf(db, org), AuditsOf(db, org);
    IdsListed(db, org);
    ReadyByIndex(audits);
    AuditAt(db, org, ids, 0);
    if AllSufficient(db, org) {
      forall i | 0 <= i < |ids| ensures !Counts(audits[i]) {
        assert ids[i] in ids;
        AuditCounted(db, org, ids, i);
      }
    } else {
      var i :| 0 <= i < |ids| && !Sufficient(db, ids[i], org);
      AuditCounted(db, org, ids, i);
    }
  }

  lemma ReadyByIndex(audits: seq<Audit>)
    ensures ReadyForRemoval(audits) <==> forall i | 0 <= i < |audits| :: !Counts(audits[i])
  {
  }

  /** An apply right after its plan: nothing is stale, and the new verdict is exact. */
  lemma Undisturbed(db: Db, org: OrgId)
    requires UsersExist(db) && org in db.orgs
    ensures StaleIn(db, org, PlanOf(db, org)) == []
    ensures var db' := Reconciled(db, org);
      && UsersExist(db') && org in db'.orgs
      && (ReadyForRemoval(AuditsOf(db', org)) <==> AllSufficient(db', org))
  {
    PlanOfIsCurrent(db, org);
    CurrentAppliesInFull(db, org, PlanOf(db, org));
    ReconciledKeepsIds(db, org);
    OrgsRemain(db, org, PlanOf(db, org));
    ReadyExactly(Reconciled(db, org), org);
  }

  lemma OrgsRemain(db: Db, org: OrgId, plan: seq<Assignment>)
    ensures ApplyPlan(db, org, plan).orgs.Keys == db.orgs.Keys
  {
    AppliedOnlyJustified(db, org, plan);
  }

  /** A ready organization's memberships all pass the resolver's role checks. */
  lemma ReadyResolves(db: Db, org: OrgId, id: MembershipId)
    requires UsersExist(db) && ReadyForRemoval(AuditsOf(db, org)) && id in IdsOf(db, org)
    ensures Usable(db, db.memberships[id])
    ensures db.memberships[id].status == ActiveMember && org in db.orgs && db.orgs[org].status == ActiveOrg ==>
      AuthorizationCache.Check(db, id, db.memberships[id].user, org) == None
  {
    ReadyExactly(db, org);
    assert Sufficient(db, id, org);
  }
}
