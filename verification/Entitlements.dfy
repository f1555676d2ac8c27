/**
 Plans, subscriptions and overrides: the platform service that writes them and bumps
 `entitlementVersion`, and what every write keeps of the subscription lifecycle.
 */
module Entitlements {
  import opened Prelude

  type OrgId = string
  type PlanId = string
  type SubId = string

  datatype Feature = Sso | Passkey | AdvancedRbac | CustomDomains | Branding | Audit | Reporting
  datatype OrgStatus = PendingSetup | ActiveOrg | SuspendedOrg | ArchivedOrg
  datatype SubStatus = Pending | Active | Suspended | Cancelled | Expired
  datatype SubType = Standard | Trial | ManualContract
  datatype OverrideState = Enabled | Disabled

  datatype Org = Org(status: OrgStatus, version: nat)
  datatype Plan = Plan(code: string, active: bool, features: map<Feature, bool>)
  datatype Sub = Sub(
    org: OrgId, plan: PlanId, kind: SubType, status: SubStatus,
    startAt: int, endAt: Option<int>, graceEndAt: Option<int>)

  datatype Db = Db(
    orgs: map<OrgId, Org>, plans: map<PlanId, Plan>, subs: map<SubId, Sub>,
    overrides: map<(OrgId, Feature), OverrideState>)

  predicate IsCurrent(status: SubStatus) {
    status == Pending || status == Active || status == Suspended
  }

  /** The TRANSITIONS table. */
  predicate Allowed(from: SubStatus, to: SubStatus) {
    match from
    case Pending => to == Active || to == Cancelled
    case Active => to == Suspended || to == Cancelled || to == Expired
    case Suspended => to == Active || to == Cancelled || to == Expired
    case Cancelled => false
    case Expired => false
  }

  /** A nullable field of an update: absent, null, or a value. */
  datatype Patch = Keep | Clear | Put(value: int)

  function Patched(old_: Option<int>, patch: Patch): Option<int> {
    match patch
    case Keep => old_
    case Clear => None
    case Put(v) => Some(v)
  }

  datatype Write =
    | CreatePlan(planId: PlanId, code: string)
    | UpdatePlan(planId: PlanId, newActive: Option<bool>)
    | SetFeature(planId: PlanId, feature: Feature, enabled: bool)
    | CreateSubscription(subId: SubId, org: OrgId, planId: PlanId, kind: SubType, initial: Option<SubStatus>,
                         startAt: int, endAt: Option<int>, graceEndAt: Option<int>)
    | UpdateSubscription(subId: SubId, newPlan: Option<PlanId>, newStart: Option<int>, end: Patch, grace: Patch)
    | Transition(subId: SubId, to: SubStatus)
    | SetOverride(org: OrgId, feature: Feature, state: OverrideState)
    | RemoveOverride(org: OrgId, feature: Feature)

  datatype Outcome = Done | BadRequest | NotFound | Conflict

  predicate BadDates(kind: SubType, startAt: int, endAt: Option<int>, graceEndAt: Option<int>) {
    || (endAt.Some? && endAt.value <= startAt)
    || (graceEndAt.Some? && (endAt.None? || graceEndAt.value <= endAt.value))
    || (kind == Trial && endAt.None?)
  }

  predicate HasCurrent(db: Db, org: OrgId) {
    exists id | id in db.subs :: db.subs[id].org == org && IsCurrent(db.subs[id].status)
  }

  predicate ActivePlan(db: Db, planId: PlanId) {
    planId in db.plans && db.plans[planId].active
  }

  function Bump(db: Db, orgs: set<OrgId>): Db {
    db.(orgs := map o | o in db.orgs ::
      if o in orgs then db.orgs[o].(version := db.orgs[o].version + 1) else db.orgs[o])
  }

  function Subscribers(db: Db, planId: PlanId): set<OrgId> {
    set id | id in db.subs && db.subs[id].plan == planId && IsCurrent(db.subs[id].status) :: db.subs[id].org
  }

  /** The foreign key from subscriptions to plans. */
  ghost predicate PlansExist(db: Db) {
    forall id | id in db.subs :: db.subs[id].plan in db.plans
  }

  /** The committed effect and answer of each write; a refused write changes nothing. */
  function Apply(db: Db, w: Write): (Db, Outcome) {
    match w
    case CreatePlan(id, code) =>
      if id in db.plans || (exists p | p in db.plans :: db.plans[p].code == code) then (db, Conflict)
      else (db.(plans := db.plans[id := Plan(code, true, map[])]), Done)
    case UpdatePlan(id, active) =>
      if id !in db.plans then (db, NotFound)
      else
        var plan := db.plans[id].(active := active.GetOr(db.plans[id].active));
        (Bump(db.(plans := db.plans[id := plan]), Subscribers(db, id)), Done)
    case SetFeature(id, feature, enabled) =>
      if id !in db.plans then (db, NotFound)
      else
        var plan := db.plans[id].(features := db.plans[id].features[feature := enabled]);
        (Bump(db.(plans := db.plans[id := plan]), Subscribers(db, id)), Done)
    case CreateSubscription(id, org, planId, kind, initial, startAt, endAt, graceEndAt) =>
      var status := initial.GetOr(Pending);
      if status != Pending && status != Active then (db, BadRequest)
      else if BadDates(kind, startAt, endAt, graceEndAt) then (db, BadRequest)
      else if org !in db.orgs then (db, NotFound)
      else if !ActivePlan(db, planId) then (db, BadRequest)
      else if HasCurrent(db, org) || id in db.subs then (db, Conflict)
      else (Bump(db.(subs := db.subs[id := Sub(org, planId, kind, status, startAt, endAt, graceEndAt)]), {org}), Done)
    case UpdateSubscription(id, newPlan, newStart, end, grace) =>
      if id !in db.subs then (db, NotFound)
      else
        var sub := db.subs[id];
        var next := sub.(startAt := newStart.GetOr(sub.startAt), endAt := Patched(sub.endAt, end),
                         graceEndAt := Patched(sub.graceEndAt, grace), plan := newPlan.GetOr(sub.plan));
        if BadDates(sub.kind, next.startAt, next.endAt, next.graceEndAt) then (db, BadRequest)
        else if newPlan.Some? && !ActivePlan(db, newPlan.value) then (db, BadRequest)
        else (Bump(db.(subs := db.subs[id := next]), {sub.org}), Done)
    case Transition(id, to) =>
      if id !in db.subs then (db, NotFound)
      else
        var sub := db.subs[id];
        if sub.status == to then (db, Done)
        else if !Allowed(sub.status, to) then (db, Conflict)
        else (Bump(db.(subs := db.subs[id := sub.(status := to)]), {sub.org}), Done)
    case SetOverride(org, feature, state) =>
      if org !in db.orgs then (db, NotFound)
      else (Bump(db.(overrides := db.overrides[(org, feature) := state]), {org}), Done)
    case RemoveOverride(org, feature) =>
      if (org, feature) !in db.overrides then (db, NotFound)
      else (Bump(db.(overrides := db.overrides - {(org, feature)}), {org}), Done)
  }

  // ---------------------------------------------------------------------------------------------
  // The service, on its tables
  // ---------------------------------------------------------------------------------------------

  class PlatformEntitlementsService {
    var db: Db

    constructor (initial: Db)
      ensures db == initial
    {
      db := initial;
    }

    method CreatePlan(id: PlanId, code: string) returns (outcome: Outcome)
      modifies this
      ensures (db, outcome) == Apply(old(db), Write.CreatePlan(id, code))
    {
      if id in db.plans || exists p | p in db.plans :: db.plans[p].code == code { return Conflict; }
      db := db.(plans := db.plans[id := Plan(code, true, map[])]);
      return Done;
    }

    method IncrementVersions(orgs: set<OrgId>)
      modifies this
      ensures db == Bump(old(db), orgs)
    {
      var rest := orgs;
      while rest != {}
        invariant rest <= orgs && db == Bump(old(db), orgs - rest)
        decreases rest
      {
        var org :| org in rest;
        if org in db.orgs {
          db := db.(orgs := db.orgs[org := db.orgs[org].(version := db.orgs[org].version + 1)]);
        }
        rest := rest - {org};
      }
      assert orgs - rest == orgs;
    }

    method UpdatePlan(id: PlanId, active: Option<bool>) returns (outcome: Outcome)
      modifies this
      ensures (db, outcome) == Apply(old(db), Write.UpdatePlan(id, active))
    {
      if id !in db.plans { return NotFound; }
      var plan := db.plans[id];
      if active.Some? { plan := plan.(active := active.value); }
      db := db.(plans := db.plans[id := plan]);
      IncrementVersions(Subscribers(db, id));
      return Done;
    }

    method SetFeature(id: PlanId, feature: Feature, enabled: bool) returns (outcome: Outcome)
      modifies this
      ensures (db, outcome) == Apply(old(db), Write.SetFeature(id, feature, enabled))
    {
      if id !in db.plans { return NotFound; }
      var plan := db.plans[id];
      db := db.(plans := db.plans[id := plan.(features := plan.features[feature := enabled])]);
      IncrementVersions(Subscribers(db, id));
      return Done;
    }

    method CreateSubscription(
      id: SubId, org: OrgId, planId: PlanId, kind: SubType, initial: Option<SubStatus>,
      startAt: int, endAt: Option<int>, graceEndAt: Option<int>)
      returns (outcome: Outcome)
      modifies this
      ensures (db, outcome) ==
        Apply(old(db), Write.CreateSubscription(id, org, planId, kind, initial, startAt, endAt, graceEndAt))
    {
      var status := if initial.Some? then initial.value else Pending;
      if status !in {Pending, Active} { return BadRequest; }
      if endAt.Some? && endAt.value <= startAt { return BadRequest; }
      if graceEndAt.Some? && (endAt.None? || graceEndAt.value <= endAt.value) { return BadRequest; }
      if kind == Trial && endAt.None? { return BadRequest; }
      if org !in db.orgs { return NotFound; }
      if !ActivePlan(db, planId) { return BadRequest; }
      if HasCurrent(db, org) || id in db.subs { return Conflict; }
      db := db.(subs := db.subs[id := Sub(org, planId, kind, status, startAt, endAt, graceEndAt)]);
      IncrementVersions({org});
      return Done;
    }

    method UpdateSubscription(id: SubId, newPlan: Option<PlanId>, newStart: Option<int>, end: Patch, grace: Patch)
      returns (outcome: Outcome)
      modifies this
      ensures (db, outcome) == Apply(old(db), Write.UpdateSubscription(id, newPlan, newStart, end, grace))
    {
      if id !in db.subs { return NotFound; }
      var current := db.subs[id];
      var startAt := if newStart.Some? then newStart.value else current.startAt;
      var endAt := if end.Clear? then None else if end.Put? then Some(end.value) else current.endAt;
      var graceEndAt := if grace.Clear? then None else if grace.Put? then Some(grace.value) else current.graceEndAt;
      if endAt.Some? && endAt.value <= startAt { return BadRequest; }
      if graceEndAt.Some? && (endAt.None? || graceEndAt.value <= endAt.value) { return BadRequest; }
      if current.kind == Trial && endAt.None? { return BadRequest; }
      if newPlan.Some? && !ActivePlan(db, newPlan.value) { return BadRequest; }
      var updated := current.(startAt := startAt, endAt := endAt, graceEndAt := graceEndAt);
      if newPlan.Some? { updated := updated.(plan := newPlan.value); }
      db := db.(subs := db.subs[id := updated]);
      IncrementVersions({current.org});
      return Done;
    }

    method Transition(id: SubId, to: SubStatus) returns (outcome: Outcome)
      modifies this
      ensures (db, outcome) == Apply(old(db), Write.Transition(id, to))
    {
      if id !in db.subs { return NotFound; }
      var current := db.subs[id];
      if current.status == to { return Done; }
      if !Allowed(current.status, to) { return Conflict; }
      db := db.(subs := db.subs[id := current.(status := to)]);
      IncrementVersions({current.org});
      return Done;
    }

    method SetOverride(org: OrgId, feature: Feature, state: OverrideState) returns (outcome: Outcome)
      modifies this
      ensures (db, outcome) == Apply(old(db), Write.SetOverride(org, feature, state))
    {
      if org !in db.orgs { return NotFound; }
      db := db.(overrides := db.overrides[(org, feature) := state]);
      IncrementVersions({org});
      return Done;
    }

    method RemoveOverride(org: OrgId, feature: Feature) returns (outcome: Outcome)
      modifies this
      ensures (db, outcome) == Apply(old(db), Write.RemoveOverride(org, feature))
    {
      if (org, feature) !in db.overrides { return NotFound; }
      db := db.(overrides := db.overrides - {(org, feature)});
      IncrementVersions({org});
      return Done;
    }
  }

  // ---------------------------------------------------------------------------------------------
  // The subscription lifecycle over whole runs
  // ---------------------------------------------------------------------------------------------

  ghost predicate SubSound(sub: Sub) {
    && (sub.endAt.Some? ==> sub.startAt < sub.endAt.value)
    && (sub.graceEndAt.Some? ==> sub.endAt.Some? && sub.endAt.value < sub.graceEndAt.value)
    && (sub.kind == Trial ==> sub.endAt.Some?)
  }

  ghost predicate CurrentOf(db: Db, id: SubId, org: OrgId) {
    id in db.subs && db.subs[id].org == org && IsCurrent(db.subs[id].status)
  }

  ghost predicate SubsSound(db: Db) {
    && (forall id | id in db.subs :: SubSound(db.subs[id]))
    && (forall org, i, j | CurrentOf(db, i, org) && CurrentOf(db, j, org) :: i == j)
  }

  /** A subscription stays with its organization and type, and CANCELLED and EXPIRED are final. */
  ghost predicate SubKept(sub: Sub, sub': Sub) {
    && sub'.org == sub.org && sub'.kind == sub.kind
    && (sub'.status != sub.status ==> Allowed(sub.status, sub'.status))
  }

  ghost predicate SubsKept(db: Db, db': Db) {
    forall id | id in db.subs :: id in db'.subs && SubKept(db.subs[id], db'.subs[id])
  }

  lemma WriteKeepsSubs(db: Db, w: Write)
    requires SubsSound(db)
    ensures SubsSound(Apply(db, w).0) && SubsKept(db, Apply(db, w).0)
  {
    var db' := Apply(db, w).0;
    if w.Transition? && db' != db {
      assert IsCurrent(db.subs[w.subId].status);
    }
    forall org, i, j | CurrentOf(db', i, org) && CurrentOf(db', j, org) ensures i == j {
      assert CurrentOf(db, i, org) || w.CreateSubscription?;
      assert CurrentOf(db, j, org) || w.CreateSubscription?;
    }
  }

  function Run(db: Db, writes: seq<Write>): Db {
    if writes == [] then db else Apply(Run(db, writes[..|writes| - 1]), writes[|writes| - 1]).0
  }

  ghost predicate FinalKept(db: Db, db': Db) {
    forall id | id in db.subs && !IsCurrent(db.subs[id].status) ::
      id in db'.subs && db'.subs[id].status == db.subs[id].status
  }

  /** In every run: one current subscription per organization, ordered dates, and terminal states stay. */
  lemma {:induction false} LifecycleSafe(db: Db, writes: seq<Write>)
    requires SubsSound(db)
    ensures SubsSound(Run(db, writes)) && FinalKept(db, Run(db, writes))
  {
    if writes != [] {
      var before, w := Run(db, writes[..|writes| - 1]), writes[|writes| - 1];
      LifecycleSafe(db, writes[..|writes| - 1]);
      WriteKeepsSubs(before, w);
      forall id | id in db.subs && !IsCurrent(db.subs[id].status)
        ensures id in Apply(before, w).0.subs && Apply(before, w).0.subs[id].status == db.subs[id].status
      {
        assert SubKept(before.subs[id], Apply(before, w).0.subs[id]);
      }
    }
  }
}
