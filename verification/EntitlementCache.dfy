/**
 `EntitlementService.resolve` and its cache, keyed by organization, `entitlementVersion` and feature.
 A resolver reads the version first and the data later, in separate steps with no transaction.
 */
module EntitlementCache {
  import opened Prelude
  import opened Text
  import opened Entitlements

  datatype Source = FromPlan | FromOverride | FromGrace | FromLegacy | Denied

  datatype Entitlement = Entitlement(
    feature: Feature, enabled: bool, source: Source, subscriptionId: Option<SubId>, planCode: Option<string>)

  /** The current subscription as `findFirst` returns it, with the plan columns the service uses. */
  datatype SubRow = SubRow(
    id: SubId, status: SubStatus, startAt: int, endAt: Option<int>, graceEndAt: Option<int>,
    planActive: bool, planCode: string, featureEnabled: bool)

  function DeniedFor(feature: Feature): Entitlement {
    Entitlement(feature, false, Denied, None, None)
  }

  // ---------------------------------------------------------------------------------------------
  // The three reads
  // ---------------------------------------------------------------------------------------------

  /** `orderBy: [{ startAt: 'desc' }, { id: 'desc' }]`: does `a` come no later than `b`? */
  predicate ComesFirst(db: Db, a: SubId, b: SubId)
    requires a in db.subs && b in db.subs
  {
    db.subs[a].startAt > db.subs[b].startAt
    || (db.subs[a].startAt == db.subs[b].startAt && (a == b || Less(b, a)))
  }

  predicate IsFirst(db: Db, org: OrgId, id: SubId) {
    && id in db.subs && db.subs[id].org == org && IsCurrent(db.subs[id].status)
    && (forall other | other in db.subs && db.subs[other].org == org && IsCurrent(db.subs[other].status) ::
          ComesFirst(db, id, other))
  }

  lemma FirstUnique(db: Db, org: OrgId, a: SubId, b: SubId)
    requires IsFirst(db, org, a) && IsFirst(db, org, b)
    ensures a == b
  {
    if a != b {
      LessTransitive(a, b, a);
      LessIrreflexive(a);
    }
  }

  ghost function FirstCurrent(db: Db, org: OrgId): Option<SubId> {
    if id :| IsFirst(db, org, id) then Some(id) else None
  }

  function RowOf(db: Db, id: SubId, feature: Feature): SubRow
    requires id in db.subs
  {
    var sub := db.subs[id];
    var plan := if sub.plan in db.plans then db.plans[sub.plan] else Plan("", false, map[]);
    SubRow(id, sub.status, sub.startAt, sub.endAt, sub.graceEndAt, plan.active, plan.code,
           feature in plan.features && plan.features[feature])
  }

  ghost function ReadSub(db: Db, org: OrgId, feature: Feature): Option<SubRow> {
    var id := FirstCurrent(db, org);
    if id.Some? then Some(RowOf(db, id.value, feature)) else None
  }

  function ReadOverride(db: Db, org: OrgId, feature: Feature): Option<OverrideState> {
    if (org, feature) in db.overrides then Some(db.overrides[(org, feature)]) else None
  }

  predicate ReadHistory(db: Db, org: OrgId) {
    exists id | id in db.subs :: db.subs[id].org == org
  }

  // ---------------------------------------------------------------------------------------------
  // The evaluation
  // ---------------------------------------------------------------------------------------------

  /** Lines 34-51: the result at `now` from the rows that were read. */
  function Evaluate(feature: Feature, row: Option<SubRow>, over: Option<OverrideState>, history: bool, now: int): Entitlement {
    if row.None? then
      if !history then
        Entitlement(feature, over != Some(Disabled), if over.Some? then FromOverride else FromLegacy, None, None)
      else DeniedFor(feature)
    else
      var sub := row.value;
      if sub.status != Active || sub.startAt > now then DeniedFor(feature)
      else
        var inTerm := sub.endAt.None? || now < sub.endAt.value;
        var inGrace := sub.endAt.Some? && sub.graceEndAt.Some? && now >= sub.endAt.value && now < sub.graceEndAt.value;
        if !inTerm && !inGrace then DeniedFor(feature)
        else
          var enabled := if over.Some? then over.value == Enabled else sub.planActive && sub.featureEnabled;
          Entitlement(feature, enabled, if over.Some? then FromOverride else if inGrace then FromGrace else FromPlan,
                      Some(sub.id), Some(sub.planCode))
  }

  /** `validUntil`: the next instant at which time alone can change the result. */
  function ValidUntil(row: Option<SubRow>, now: int): Option<int> {
    if row.None? || row.value.status != Active then None
    else if row.value.startAt > now then Some(row.value.startAt)
    else if row.value.endAt.Some? && now < row.value.endAt.value then row.value.endAt
    else if row.value.graceEndAt.Some? && now < row.value.graceEndAt.value then row.value.graceEndAt
    else None
  }

  predicate StillValid(validUntil: Option<int>, now: int) {
    validUntil.None? || now < validUntil.value
  }

  /** Until `validUntil` the clock cannot change the result, for any subscription row whatever. */
  lemma ResultStable(feature: Feature, row: Option<SubRow>, over: Option<OverrideState>, history: bool, t0: int, t: int)
    requires t0 <= t && StillValid(ValidUntil(row, t0), t)
    ensures Evaluate(feature, row, over, history, t) == Evaluate(feature, row, over, history, t0)
  {
  }

  ghost function FreshResult(db: Db, org: OrgId, feature: Feature, now: int): Entitlement {
    if org !in db.orgs || db.orgs[org].status != ActiveOrg then DeniedFor(feature)
    else Evaluate(feature, ReadSub(db, org, feature), ReadOverride(db, org, feature), ReadHistory(db, org), now)
  }

  // ---------------------------------------------------------------------------------------------
  // Which organizations a write reaches
  // ---------------------------------------------------------------------------------------------

  ghost predicate SameReads(db: Db, db': Db, org: OrgId, feature: Feature) {
    && ReadSub(db', org, feature) == ReadSub(db, org, feature)
    && ReadOverride(db', org, feature) == ReadOverride(db, org, feature)
    && ReadHistory(db', org) == ReadHistory(db, org)
  }

  ghost predicate SameSubs(db: Db, db': Db, org: OrgId) {
    forall id :: (id in db.subs && db.subs[id].org == org) || (id in db'.subs && db'.subs[id].org == org) ==>
      id in db.subs && id in db'.subs && db'.subs[id] == db.subs[id]
  }

  lemma SameFirst(db: Db, db': Db, org: OrgId, id: SubId)
    requires SameSubs(db, db', org)
    ensures IsFirst(db, org, id) <==> IsFirst(db', org, id)
  {
  }

  lemma SameSubsSameFirst(db: Db, db': Db, org: OrgId)
    requires SameSubs(db, db', org)
    ensures FirstCurrent(db', org) == FirstCurrent(db, org) && ReadHistory(db', org) == ReadHistory(db, org)
  {
    var a, b := FirstCurrent(db, org), FirstCurrent(db', org);
    if a.Some? { SameFirst(db, db', org, a.value); }
    if b.Some? {
      SameFirst(db, db', org, b.value);
      FirstUnique(db, org, a.value, b.value);
    }
    if ReadHistory(db, org) {
      var id :| id in db.subs && db.subs[id].org == org;
      assert id in db'.subs && db'.subs[id].org == org;
    }
    if ReadHistory(db', org) {
      var id :| id in db'.subs && db'.subs[id].org == org;
      assert id in db.subs && db.subs[id].org == org;
    }
  }

  /** A plan write reaches only the organizations whose current subscription is on that plan. */
  lemma PlanWriteReach(db: Db, db': Db, planId: PlanId, org: OrgId, feature: Feature)
    requires db'.subs == db.subs && db'.overrides == db.overrides
    requires forall p | p in db.plans && p != planId :: p in db'.plans && db'.plans[p] == db.plans[p]
    requires forall p | p in db'.plans && p != planId :: p in db.plans
    requires org !in Subscribers(db, planId)
    ensures SameReads(db, db', org, feature)
  {
    SameSubsSameFirst(db, db', org);
    var id := FirstCurrent(db, org);
    if id.Some? {
      assert IsFirst(db, org, id.value);
      assert db.subs[id.value].plan != planId;
    }
  }

  lemma BumpVersions(db: Db, orgs: set<OrgId>, org: OrgId)
    requires org in db.orgs
    ensures var db' := Bump(db, orgs);
      && db'.subs == db.subs && db'.plans == db.plans && db'.overrides == db.overrides
      && org in db'.orgs && db'.orgs[org].status == db.orgs[org].status
      && db'.orgs[org].version == db.orgs[org].version + if org in orgs then 1 else 0
  {
  }

  ghost predicate Covered(db: Db, db': Db, org: OrgId, feature: Feature) {
    && org in db.orgs && org in db'.orgs && db'.orgs[org].status == db.orgs[org].status
    && (db'.orgs[org].version == db.orgs[org].version + 1
        || (db'.orgs[org].version == db.orgs[org].version && SameReads(db, db', org, feature)))
  }

  lemma PlanWriteCoverage(db: Db, w: Write, org: OrgId, feature: Feature)
    requires org in db.orgs && PlansExist(db) && (w.CreatePlan? || w.UpdatePlan? || w.SetFeature?)
    ensures Covered(db, Apply(db, w).0, org, feature)
  {
    var db' := Apply(db, w).0;
    if db' != db {
      if !w.CreatePlan? { BumpVersions(db.(plans := db'.plans), Subscribers(db, w.planId), org); }
      if org !in Subscribers(db, w.planId) { PlanWriteReach(db, db', w.planId, org, feature); }
    }
  }

  lemma OverrideWriteCoverage(db: Db, w: Write, org: OrgId, feature: Feature)
    requires org in db.orgs && (w.SetOverride? || w.RemoveOverride?)
    ensures Covered(db, Apply(db, w).0, org, feature)
  {
    var db' := Apply(db, w).0;
    if db' != db {
      BumpVersions(db.(overrides := db'.overrides), {w.org}, org);
      SameSubsSameFirst(db, db', org);
    }
  }

  /** One subscription of `owner` written, and its version bumped. */
  ghost predicate SubWritten(db: Db, db': Db, owner: OrgId) {
    && db' == Bump(db.(subs := db'.subs), {owner})
    && (forall org | org != owner :: SameSubs(db, db', org))
  }

  lemma SubWrittenCovered(db: Db, db': Db, owner: OrgId, org: OrgId, feature: Feature)
    requires org in db.orgs && SubWritten(db, db', owner)
    ensures Covered(db, db', org, feature)
  {
    BumpVersions(db.(subs := db'.subs), {owner}, org);
    if org != owner { SameSubsSameFirst(db, db', org); }
  }

  lemma SubWriteShape(db: Db, w: Write)
    requires w.CreateSubscription? || w.UpdateSubscription? || w.Transition?
    ensures var db' := Apply(db, w).0;
      db' == db || (w.subId in db'.subs && SubWritten(db, db', db'.subs[w.subId].org))
  {
  }

  lemma SubWriteCoverage(db: Db, w: Write, org: OrgId, feature: Feature)
    requires org in db.orgs && (w.CreateSubscription? || w.UpdateSubscription? || w.Transition?)
    ensures Covered(db, Apply(db, w).0, org, feature)
  {
    var db' := Apply(db, w).0;
    SubWriteShape(db, w);
    if db' != db { SubWrittenCovered(db, db', db'.subs[w.subId].org, org, feature); }
  }

  /** Every write either bumps an organization's version or changes nothing its resolver reads. */
  lemma WriteCoverage(db: Db, w: Write, org: OrgId, feature: Feature)
    requires org in db.orgs && PlansExist(db)
    ensures Covered(db, Apply(db, w).0, org, feature)
  {
    match w
    case CreatePlan(_, _) => PlanWriteCoverage(db, w, org, feature);
    case UpdatePlan(_, _) => PlanWriteCoverage(db, w, org, feature);
    case SetFeature(_, _, _) => PlanWriteCoverage(db, w, org, feature);
    case SetOverride(_, _, _) => OverrideWriteCoverage(db, w, org, feature);
    case RemoveOverride(_, _) => OverrideWriteCoverage(db, w, org, feature);
    case _ => SubWriteCoverage(db, w, org, feature);
  }

  // ---------------------------------------------------------------------------------------------
  // Resolvers and writers interleaved
  // ---------------------------------------------------------------------------------------------

  datatype CacheKey = CacheKey(org: OrgId, version: nat, feature: Feature)
  /** `computedAt`, the `now` of the computing request, is not stored by the service; the claims speak of it. */
  datatype Entry = Entry(result: Entitlement, validUntil: Option<int>, computedAt: int)

  /** A resolver past its version read and cache miss; each field is filled by one later read. */
  datatype Reader = Reader(
    key: CacheKey, now: int, row: Option<Option<SubRow>>, over: Option<Option<OverrideState>>, history: Option<bool>)

  datatype World = World(db: Db, cache: map<CacheKey, Entry>, readers: map<nat, Reader>)

  datatype Action =
    | DoWrite(write: Write)
    | SetStatus(org: OrgId, status: OrgStatus)
    | BumpOnly(orgs: set<OrgId>)
    | NewOrg(org: OrgId)
    | ReadVersion(id: nat, org: OrgId, feature: Feature, now: int)
    | FetchSub(id: nat)
    | FetchOverride(id: nat)
    | FetchHistory(id: nat)
    | Store(id: nat)
    | Evict(key: CacheKey)

  ghost function Step(w: World, a: Action): World {
    match a
    case DoWrite(write) => w.(db := Apply(w.db, write).0)
    case SetStatus(org, status) =>
      if org in w.db.orgs then w.(db := w.db.(orgs := w.db.orgs[org := w.db.orgs[org].(status := status)])) else w
    case BumpOnly(orgs) => w.(db := Bump(w.db, orgs))
    case NewOrg(org) => if org in w.db.orgs then w else w.(db := w.db.(orgs := w.db.orgs[org := Org(PendingSetup, 1)]))
    case ReadVersion(id, org, feature, now) =>
      if org !in w.db.orgs || w.db.orgs[org].status != ActiveOrg || id in w.readers then w
      else
        var key := CacheKey(org, w.db.orgs[org].version, feature);
        if key in w.cache && StillValid(w.cache[key].validUntil, now) then w   // a hit: answered from the cache
        else w.(readers := w.readers[id := Reader(key, now, None, None, None)])
    case FetchSub(id) =>
      if id !in w.readers then w
      else
        var r := w.readers[id];
        w.(readers := w.readers[id := r.(row := Some(ReadSub(w.db, r.key.org, r.key.feature)))])
    case FetchOverride(id) =>
      if id !in w.readers then w
      else
        var r := w.readers[id];
        w.(readers := w.readers[id := r.(over := Some(ReadOverride(w.db, r.key.org, r.key.feature)))])
    case FetchHistory(id) =>
      // Counted only when there is no current subscription; otherwise taken as present.
      if id !in w.readers || w.readers[id].row.None? then w
      else
        var r := w.readers[id];
        w.(readers := w.readers[id := r.(history := Some(r.row.value.Some? || ReadHistory(w.db, r.key.org)))])
    case Store(id) =>
      if id !in w.readers || w.readers[id].row.None? || w.readers[id].over.None? || w.readers[id].history.None? then w
      else
        var r := w.readers[id];
        var result := Evaluate(r.key.feature, r.row.value, r.over.value, r.history.value, r.now);
        w.(cache := w.cache[r.key := Entry(result, ValidUntil(r.row.value, r.now), r.now)], readers := w.readers - {id})
    case Evict(key) => w.(cache := w.cache - {key})
  }

  // ---------------------------------------------------------------------------------------------
  // Coherence
  // ---------------------------------------------------------------------------------------------

  ghost predicate EntryFresh(db: Db, key: CacheKey, e: Entry) {
    var row := ReadSub(db, key.org, key.feature);
    && e.result == Evaluate(key.feature, row, ReadOverride(db, key.org, key.feature), ReadHistory(db, key.org), e.computedAt)
    && e.validUntil == ValidUntil(row, e.computedAt)
  }

  ghost predicate ReaderFresh(db: Db, r: Reader) {
    && (r.row.Some? ==> r.row.value == ReadSub(db, r.key.org, r.key.feature))
    && (r.over.Some? ==> r.over.value == ReadOverride(db, r.key.org, r.key.feature))
    && (r.history.Some? ==> r.row.Some? && r.history.value == (r.row.value.Some? || ReadHistory(db, r.key.org)))
  }

  ghost predicate Past(db: Db, key: CacheKey) {
    key.org in db.orgs && key.version <= db.orgs[key.org].version
  }

  ghost predicate IsAt(db: Db, key: CacheKey) {
    key.org in db.orgs && key.version == db.orgs[key.org].version
  }

  ghost predicate CacheCoherent(db: Db, cache: map<CacheKey, Entry>) {
    forall key | key in cache :: Past(db, key) && (IsAt(db, key) ==> EntryFresh(db, key, cache[key]))
  }

  ghost predicate Coherent(w: World) {
    && PlansExist(w.db)
    && CacheCoherent(w.db, w.cache)
    && (forall id | id in w.readers ::
          Past(w.db, w.readers[id].key) && (IsAt(w.db, w.readers[id].key) ==> ReaderFresh(w.db, w.readers[id])))
  }

  ghost predicate AllCovered(db: Db, db': Db) {
    && (forall org | org in db.orgs :: org in db'.orgs && db.orgs[org].version <= db'.orgs[org].version)
    && (forall org, feature ::
          org in db.orgs && db'.orgs[org].version == db.orgs[org].version ==> SameReads(db, db', org, feature))
  }

  lemma CoveredStaysCoherent(w: World, db': Db)
    requires Coherent(w) && PlansExist(db') && AllCovered(w.db, db')
    ensures Coherent(w.(db := db'))
  {
    forall key | key in w.cache
      ensures Past(db', key) && (IsAt(db', key) ==> EntryFresh(db', key, w.cache[key]))
    {
      assert Past(w.db, key);
      if IsAt(db', key) { assert SameReads(w.db, db', key.org, key.feature); }
    }
    forall id | id in w.readers
      ensures Past(db', w.readers[id].key) && (IsAt(db', w.readers[id].key) ==> ReaderFresh(db', w.readers[id]))
    {
      var key := w.readers[id].key;
      assert Past(w.db, key);
      if IsAt(db', key) { assert SameReads(w.db, db', key.org, key.feature); }
    }
  }

  lemma WriteKeepsPlans(db: Db, w: Write)
    requires PlansExist(db)
    ensures PlansExist(Apply(db, w).0)
  {
  }

  lemma SameTables(db: Db, db': Db, org: OrgId, feature: Feature)
    requires db'.subs == db.subs && db'.plans == db.plans && db'.overrides == db.overrides
    ensures SameReads(db, db', org, feature)
  {
    SameSubsSameFirst(db, db', org);
  }

  lemma WriteCovered(db: Db, w: Write)
    requires PlansExist(db)
    ensures AllCovered(db, Apply(db, w).0)
  {
    var db' := Apply(db, w).0;
    forall org | org in db.orgs ensures org in db'.orgs && db.orgs[org].version <= db'.orgs[org].version {
      WriteCoverage(db, w, org, Sso);
    }
    forall org, feature | org in db.orgs && db'.orgs[org].version == db.orgs[org].version
      ensures SameReads(db, db', org, feature)
    {
      WriteCoverage(db, w, org, feature);
    }
  }

  lemma OtherDbStepCovered(w: World, a: Action)
    requires PlansExist(w.db) && (a.SetStatus? || a.BumpOnly? || a.NewOrg?)
    ensures PlansExist(Step(w, a).db) && AllCovered(w.db, Step(w, a).db)
  {
    var db' := Step(w, a).db;
    forall org, feature ensures SameReads(w.db, db', org, feature) { SameTables(w.db, db', org, feature); }
  }

  lemma StepCoherent(w: World, a: Action)
    requires Coherent(w)
    ensures Coherent(Step(w, a))
  {
    if a.DoWrite? {
      WriteKeepsPlans(w.db, a.write);
      WriteCovered(w.db, a.write);
      CoveredStaysCoherent(w, Step(w, a).db);
    } else if a.SetStatus? || a.BumpOnly? || a.NewOrg? {
      OtherDbStepCovered(w, a);
      CoveredStaysCoherent(w, Step(w, a).db);
    }
  }

  ghost function Run(w: World, actions: seq<Action>): World {
    if actions == [] then w else Step(Run(w, actions[..|actions| - 1]), actions[|actions| - 1])
  }

  lemma {:induction false} RunCoherent(db: Db, actions: seq<Action>)
    requires PlansExist(db)
    ensures Coherent(Run(World(db, map[], map[]), actions))
  {
    if actions != [] {
      RunCoherent(db, actions[..|actions| - 1]);
      StepCoherent(Run(World(db, map[], map[]), actions[..|actions| - 1]), actions[|actions| - 1]);
    }
  }

  /**
   A hit is a fresh answer: in every interleaving, an entry keyed by the organization's current
   version and consulted while valid equals what resolving from scratch at that moment gives.
   */
  lemma HitIsFresh(db: Db, actions: seq<Action>, key: CacheKey, now: int)
    requires PlansExist(db)
    ensures var w := Run(World(db, map[], map[]), actions);
      key in w.cache && IsAt(w.db, key) && w.db.orgs[key.org].status == ActiveOrg
      && w.cache[key].computedAt <= now && StillValid(w.cache[key].validUntil, now)
      ==> w.cache[key].result == FreshResult(w.db, key.org, key.feature, now)
  {
    RunCoherent(db, actions);
    var w := Run(World(db, map[], map[]), actions);
    if key in w.cache && IsAt(w.db, key) && w.cache[key].computedAt <= now && StillValid(w.cache[key].validUntil, now) {
      ResultStable(key.feature, ReadSub(w.db, key.org, key.feature), ReadOverride(w.db, key.org, key.feature),
                   ReadHistory(w.db, key.org), w.cache[key].computedAt, now);
    }
  }

  lemma StoredCoherent(db: Db, cache: map<CacheKey, Entry>, key: CacheKey, e: Entry)
    requires CacheCoherent(db, cache) && IsAt(db, key) && EntryFresh(db, key, e)
    ensures CacheCoherent(db, cache[key := e])
  {
  }

  // ---------------------------------------------------------------------------------------------
  // The service
  // ---------------------------------------------------------------------------------------------

  class EntitlementService {
    var cache: map<CacheKey, Entry>

    constructor ()
      ensures cache == map[]
    {
      cache := map[];
    }

    /** `findFirst` with its ordering: scan the current subscriptions of the organization. */
    method FindCurrent(db: Db, org: OrgId) returns (first: Option<SubId>)
      ensures first == FirstCurrent(db, org)
    {
      first := None;
      var rest := set id | id in db.subs && db.subs[id].org == org && IsCurrent(db.subs[id].status);
      ghost var all := rest;
      while rest != {}
        invariant rest <= all
        invariant first.None? ==> rest == all
        invariant first.Some? ==> first.value in all && forall id | id in all - rest :: ComesFirst(db, first.value, id)
        decreases rest
      {
        var id :| id in rest;
        if first.None? {
          first := Some(id);
        } else {
          KeepsFirst(db, first.value, id, all - rest);
          if !ComesFirst(db, first.value, id) { first := Some(id); }
        }
        rest := rest - {id};
      }
      assert FirstCurrent(db, org).Some? ==> FirstCurrent(db, org).value in all;
      if first.Some? {
        assert IsFirst(db, org, first.value);
        FirstUnique(db, org, first.value, FirstCurrent(db, org).value);
      }
    }

    method EvaluateRows(feature: Feature, row: Option<SubRow>, over: Option<OverrideState>, history: bool, now: int)
      returns (result: Entitlement)
      ensures result == Evaluate(feature, row, over, history, now)
    {
      if row.None? && !history {
        result := Entitlement(feature, over != Some(Disabled), if over.Some? then FromOverride else FromLegacy, None, None);
      } else if row.None? {
        result := DeniedFor(feature);
      } else if row.value.status != Active || row.value.startAt > now {
        result := DeniedFor(feature);
      } else {
        var sub := row.value;
        var inTerm := sub.endAt.None? || now < sub.endAt.value;
        var inGrace := sub.endAt.Some? && sub.graceEndAt.Some? && now >= sub.endAt.value && now < sub.graceEndAt.value;
        if !inTerm && !inGrace {
          result := DeniedFor(feature);
        } else {
          var baseline := sub.planActive && sub.featureEnabled;
          var enabled := if over.Some? then over.value == Enabled else baseline;
          result := Entitlement(feature, enabled, if over.Some? then FromOverride else if inGrace then FromGrace else FromPlan,
                                Some(sub.id), Some(sub.planCode));
        }
      }
    }

    /** `resolve` without interference. */
    method Resolve(db: Db, org: OrgId, feature: Feature, now: int) returns (result: Entitlement)
      requires CacheCoherent(db, cache)
      requires forall key | key in cache && IsAt(db, key) :: cache[key].computedAt <= now
      modifies this
      ensures result == FreshResult(db, org, feature, now)
      ensures CacheCoherent(db, cache)
      ensures forall key | key in cache && IsAt(db, key) :: cache[key].computedAt <= now
    {
      if org !in db.orgs || db.orgs[org].status != ActiveOrg { return DeniedFor(feature); }
      var key := CacheKey(org, db.orgs[org].version, feature);
      if key in cache && StillValid(cache[key].validUntil, now) {
        ResultStable(feature, ReadSub(db, org, feature), ReadOverride(db, org, feature), ReadHistory(db, org),
                     cache[key].computedAt, now);
        return cache[key].result;
      }
      var id := FindCurrent(db, org);
      var row := if id.Some? then Some(RowOf(db, id.value, feature)) else None;
      var over := if (org, feature) in db.overrides then Some(db.overrides[(org, feature)]) else None;
      var history := row.Some? || ReadHistory(db, org);
      result := EvaluateRows(feature, row, over, history, now);
      StoredCoherent(db, cache, key, Entry(result, ValidUntil(row, now), now));
      cache := cache[key := Entry(result, ValidUntil(row, now), now)];
    }
  }

  lemma KeepsFirst(db: Db, best: SubId, id: SubId, seen: set<SubId>)
    requires best in db.subs && id in db.subs && seen <= db.subs.Keys
    requires forall s | s in seen :: ComesFirst(db, best, s)
    ensures !ComesFirst(db, best, id) ==> ComesFirst(db, id, id) && forall s | s in seen :: ComesFirst(db, id, s)
  {
    if !ComesFirst(db, best, id) {
      LessTotal(best, id);
      forall s | s in seen ensures ComesFirst(db, id, s) {
        if db.subs[best].startAt == db.subs[s].startAt == db.subs[id].startAt && s != best {
          LessTransitive(s, best, id);
        }
      }
    }
  }
}
