/** What a tenant gets, and what each platform write changes of it, stated on the tables alone. */
module EntitlementEffects {
  import opened Prelude
  import opened Entitlements
  import opened EntitlementCache

  // ---------------------------------------------------------------------------------------------
  // What a resolve answers
  // ---------------------------------------------------------------------------------------------

  ghost predicate OnlyCurrent(db: Db, org: OrgId, id: SubId) {
    && id in db.subs && db.subs[id].org == org && db.subs[id].status in {Pending, Active, Suspended}
    && (forall other | other in db.subs && db.subs[other].org == org && db.subs[other].status in {Pending, Active, Suspended} ::
          other == id)
  }

  /** ACTIVE, begun, and before the end or, when there is one, the end of the grace period. */
  predicate InForce(sub: Sub, now: int) {
    && sub.status == Active && sub.startAt <= now
    && (sub.endAt.None? || now < sub.endAt.value || (sub.graceEndAt.Some? && now < sub.graceEndAt.value))
  }

  /** The plan is active and lists the feature as enabled. */
  predicate PlanGives(db: Db, plan: PlanId, feature: Feature) {
    && plan in db.plans && db.plans[plan].active
    && feature in db.plans[plan].features && db.plans[plan].features[feature]
  }

  lemma OnlyIsFirst(db: Db, org: OrgId, id: SubId)
    requires OnlyCurrent(db, org, id)
    ensures FirstCurrent(db, org) == Some(id)
  {
    assert IsFirst(db, org, id);
    FirstUnique(db, org, id, FirstCurrent(db, org).value);
  }

  /**
   With a current subscription the feature is enabled exactly when the term is in force and the override
   says ENABLED or, without one, the plan gives the feature; the answer names its reason.
   */
  lemma SubscribedExactly(db: Db, org: OrgId, feature: Feature, now: int, id: SubId)
    requires org in db.orgs && db.orgs[org].status == ActiveOrg && PlansExist(db) && OnlyCurrent(db, org, id)
    ensures var result, sub := FreshResult(db, org, feature, now), db.subs[id];
      var overridden := (org, feature) in db.overrides;
      && result.feature == feature
      && (result.enabled <==>
            InForce(sub, now)
            && (if overridden then db.overrides[(org, feature)] == Enabled else PlanGives(db, sub.plan, feature)))
      && (!InForce(sub, now) ==> result.source == Denied && result.subscriptionId.None? && result.planCode.None?)
      && (InForce(sub, now) ==>
            && result.subscriptionId == Some(id) && result.planCode == Some(db.plans[sub.plan].code)
            && (result.source == FromOverride <==> overridden)
            && (result.source == FromGrace <==> !overridden && sub.endAt.Some? && sub.endAt.value <= now)
            && (result.source == FromPlan <==> !overridden && (sub.endAt.None? || now < sub.endAt.value)))
  {
    OnlyIsFirst(db, org, id);
  }

  /** An organization that never subscribed keeps every feature that no override disables. */
  lemma LegacyExactly(db: Db, org: OrgId, feature: Feature, now: int)
    requires org in db.orgs && db.orgs[org].status == ActiveOrg
    requires forall id | id in db.subs :: db.subs[id].org != org
    ensures var result := FreshResult(db, org, feature, now);
      && (result.enabled <==> ((org, feature) in db.overrides ==> db.overrides[(org, feature)] != Disabled))
      && result.source == (if (org, feature) in db.overrides then FromOverride else FromLegacy)
      && result.feature == feature && result.subscriptionId.None? && result.planCode.None?
  {
  }

  /** Nothing is enabled once every subscription has ended, nor outside an ACTIVE organization. */
  lemma EndedIsDenied(db: Db, org: OrgId, feature: Feature, now: int)
    requires org !in db.orgs || db.orgs[org].status != ActiveOrg
      || ((exists id | id in db.subs :: db.subs[id].org == org)
          && forall id | id in db.subs && db.subs[id].org == org :: db.subs[id].status in {Cancelled, Expired})
    ensures FreshResult(db, org, feature, now) == Entitlement(feature, false, Denied, None, None)
  {
    if org in db.orgs && db.orgs[org].status == ActiveOrg {
      assert FirstCurrent(db, org).None?;
    }
  }

  // ---------------------------------------------------------------------------------------------
  // What a write changes of it
  // ---------------------------------------------------------------------------------------------

  ghost predicate SubscribedInForce(db: Db, org: OrgId, id: SubId, now: int) {
    && org in db.orgs && db.orgs[org].status == ActiveOrg && PlansExist(db)
    && OnlyCurrent(db, org, id) && InForce(db.subs[id], now)
  }

  /** An override decides its feature from the moment it is set; removed, the plan decides again. */
  lemma OverrideDecides(db: Db, org: OrgId, feature: Feature, state: OverrideState, now: int, id: SubId)
    requires SubscribedInForce(db, org, id, now)
    ensures var db' := Apply(db, SetOverride(org, feature, state)).0;
      FreshResult(db', org, feature, now).enabled <==> state == Enabled
    ensures var db' := Apply(db, RemoveOverride(org, feature)).0;
      FreshResult(db', org, feature, now).enabled <==> PlanGives(db, db.subs[id].plan, feature)
  {
    var set_, removed := Apply(db, SetOverride(org, feature, state)).0, Apply(db, RemoveOverride(org, feature)).0;
    SubscribedExactly(set_, org, feature, now, id);
    SubscribedExactly(removed, org, feature, now, id);
  }

  /** Setting a plan's feature, or its activity, reaches the subscribers without an override. */
  lemma PlanDecides(db: Db, org: OrgId, feature: Feature, value: bool, now: int, id: SubId)
    requires SubscribedInForce(db, org, id, now) && (org, feature) !in db.overrides
    ensures var plan := db.subs[id].plan;
      var db' := Apply(db, SetFeature(plan, feature, value)).0;
      FreshResult(db', org, feature, now).enabled <==> db.plans[plan].active && value
    ensures var plan := db.subs[id].plan;
      var db' := Apply(db, UpdatePlan(plan, Some(value))).0;
      FreshResult(db', org, feature, now).enabled <==>
        value && feature in db.plans[plan].features && db.plans[plan].features[feature]
  {
    var plan := db.subs[id].plan;
    SubscribedExactly(Apply(db, SetFeature(plan, feature, value)).0, org, feature, now, id);
    SubscribedExactly(Apply(db, UpdatePlan(plan, Some(value))).0, org, feature, now, id);
  }

  /** A new plan is active and gives nothing yet; a code is used once. */
  lemma PlanCreated(db: Db, plan: PlanId, code: string, feature: Feature)
    ensures var (db', outcome) := Apply(db, CreatePlan(plan, code));
      && (outcome == Done <==> plan !in db.plans && forall p | p in db.plans :: db.plans[p].code != code)
      && (outcome == Done ==> plan in db'.plans && db'.plans[plan].active && !PlanGives(db', plan, feature))
      && (outcome != Done ==> db' == db)
  {
  }

  // ---------------------------------------------------------------------------------------------
  // What subscriptions may become
  // ---------------------------------------------------------------------------------------------

  ghost predicate OnlyBumped(db: Db, db': Db, org: OrgId) {
    && db'.orgs.Keys == db.orgs.Keys
    && (forall o | o in db.orgs :: db'.orgs[o] == db.orgs[o].(version := db.orgs[o].version + if o == org then 1 else 0))
  }

  /** Only the subscription row changed, and its organization's version. */
  ghost predicate SubPut(db: Db, db': Db, id: SubId, sub: Sub) {
    db'.plans == db.plans && db'.overrides == db.overrides && db'.subs == db.subs[id := sub] && OnlyBumped(db, db', sub.org)
  }

  /** The eight transitions of the lifecycle, and no other, succeed. */
  lemma TransitionExactly(db: Db, id: SubId, to: SubStatus)
    ensures var (db', outcome) := Apply(db, Transition(id, to));
      && (id !in db.subs ==> outcome == NotFound && db' == db)
      && (id in db.subs ==>
            var sub := db.subs[id];
            if sub.status == to then outcome == Done && db' == db
            else if (sub.status, to) in {
              (Pending, Active), (Pending, Cancelled), (Active, Suspended), (Active, Cancelled), (Active, Expired),
              (Suspended, Active), (Suspended, Cancelled), (Suspended, Expired)}
            then outcome == Done && SubPut(db, db', id, sub.(status := to))
            else outcome == Conflict && db' == db)
  {
  }

  /** An end after the start, a grace end after the end, and an end for a TRIAL. */
  predicate DatesHold(kind: SubType, startAt: int, endAt: Option<int>, graceEndAt: Option<int>) {
    && (endAt.Some? ==> startAt < endAt.value)
    && (graceEndAt.Some? ==> endAt.Some? && endAt.value < graceEndAt.value)
    && (kind == Trial ==> endAt.Some?)
  }

  /** A subscription is created exactly when its dates hold, its plan is active and the organization has no current one. */
  lemma CreateExactly(
    db: Db, id: SubId, org: OrgId, plan: PlanId, kind: SubType, initial: Option<SubStatus>,
    startAt: int, endAt: Option<int>, graceEndAt: Option<int>)
    ensures var (db', outcome) := Apply(db, CreateSubscription(id, org, plan, kind, initial, startAt, endAt, graceEndAt));
      && (outcome == Done <==>
            && initial in {None, Some(Pending), Some(Active)} && DatesHold(kind, startAt, endAt, graceEndAt)
            && org in db.orgs && plan in db.plans && db.plans[plan].active && id !in db.subs
            && (forall s | s in db.subs && db.subs[s].org == org :: db.subs[s].status in {Cancelled, Expired}))
      && (outcome != Done ==> db' == db)
      && (outcome == Done ==>
            SubPut(db, db', id,
                   Sub(org, plan, kind, if initial == Some(Active) then Active else Pending, startAt, endAt, graceEndAt)))
  {
  }

  /** A patch leaves, clears or replaces the date. */
  predicate PatchedTo(before: Option<int>, patch: Patch, after: Option<int>) {
    match patch
    case Keep => after == before
    case Clear => after == None
    case Put(value) => after == Some(value)
  }

  /** An update is accepted exactly when the dates hold as they would become and a new plan is active. */
  lemma SubUpdateExactly(
    db: Db, id: SubId, newPlan: Option<PlanId>, newStart: Option<int>, end: Patch, grace: Patch, next: Sub)
    requires id in db.subs
    requires next == db.subs[id].(plan := next.plan, startAt := next.startAt, endAt := next.endAt, graceEndAt := next.graceEndAt)
    requires next.plan == (if newPlan.Some? then newPlan.value else db.subs[id].plan)
    requires next.startAt == (if newStart.Some? then newStart.value else db.subs[id].startAt)
    requires PatchedTo(db.subs[id].endAt, end, next.endAt) && PatchedTo(db.subs[id].graceEndAt, grace, next.graceEndAt)
    ensures var (db', outcome) := Apply(db, UpdateSubscription(id, newPlan, newStart, end, grace));
      && (outcome == Done <==>
            && DatesHold(next.kind, next.startAt, next.endAt, next.graceEndAt)
            && (newPlan.Some? ==> newPlan.value in db.plans && db.plans[newPlan.value].active))
      && (outcome == Done ==> SubPut(db, db', id, next))
      && (outcome != Done ==> db' == db)
  {
  }
}
