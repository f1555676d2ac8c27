/** `QuotaResolverService.resolveWithDb`: which quota is in force for an organization, metric and instant. */
module QuotaResolver {
  import opened Prelude
  import opened QuotaTypes
  import PeriodCalendar
  import Entitlements
  import EntitlementCache

  /** A `PlanQuota` row, or an override row whose null columns inherit. */
  datatype QuotaRow = QuotaRow(
    enabled: Option<bool>, unlimited: Option<bool>, softLimit: Option<int>, hardLimit: Option<int>,
    resetPeriod: Option<ResetPeriod>)

  /** Everything the resolver reads for one organization and metric. */
  datatype Inputs = Inputs(
    active: bool,
    subscription: Option<EntitlementCache.SubRow>,
    history: bool,
    baseline: Option<QuotaRow>,
    over: Option<QuotaRow>)

  predicate InTerm(sub: EntitlementCache.SubRow, now: int) {
    && sub.status == Entitlements.Active
    && sub.startAt <= now
    && (sub.endAt.None? || now < sub.endAt.value || (sub.graceEndAt.Some? && now < sub.graceEndAt.value))
  }

  function Inherit<T>(over: Option<T>, baseline: Option<T>): Option<T> {
    if over.Some? then over else baseline
  }

  function Compatibility(lock: LockId, state: ConfigurationState): EffectiveQuota {
    EffectiveQuota(lock, state, false, true, None, None, NoReset, 0, None)
  }

  const NO_ROW := QuotaRow(None, None, None, None, None)

  /** None when the period is not a date: the database then refuses the query. */
  function Resolve(lock: LockId, i: Inputs, now: int): Option<EffectiveQuota> {
    if !i.active then Some(Compatibility(lock, InactiveOrganization))
    else if i.subscription.None? then
      Some(Compatibility(lock, if !i.history then LegacyCompatibility else InactiveSubscription))
    else
      var sub := i.subscription.value;
      if !InTerm(sub, now) || !sub.planActive then Some(Compatibility(lock, InactiveSubscription))
      else if i.baseline.None? && i.over.None? then Some(Compatibility(lock, Unconfigured))
      else
        var over, base := i.over.GetOr(NO_ROW), i.baseline.GetOr(NO_ROW);
        var enabled := Inherit(over.enabled, base.enabled).GetOr(false);
        var unlimited := Inherit(over.unlimited, base.unlimited).GetOr(false);
        var hardLimit := Inherit(over.hardLimit, base.hardLimit);
        var reset := Inherit(over.resetPeriod, base.resetPeriod).GetOr(NoReset);
        var period := PeriodCalendar.PeriodOf(reset, now, Some(sub.startAt), sub.endAt);
        var state :=
          if !enabled then Disabled else if unlimited then Unlimited else if hardLimit.None? then Unconfigured else Enforced;
        if !period.start.At? || period.end.InvalidDate? then None
        else
          Some(EffectiveQuota(
            lock, state, state == Enforced || state == Unlimited, state == Unlimited,
            Inherit(over.softLimit, base.softLimit), hardLimit, reset, period.start.ms,
            if period.end.At? then Some(period.end.ms) else None))
  }

  /** `reserve` compares with a limit exactly in the state ENFORCED, and every other state lets pass. */
  lemma EnforcedExactly(lock: LockId, i: Inputs, now: int)
    requires Resolve(lock, i, now).Some?
    ensures var quota := Resolve(lock, i, now).value;
      && (quota.Enforces() <==> quota.state == Enforced)
      && (quota.state == Enforced <==>
            i.active && i.subscription.Some? && InTerm(i.subscription.value, now) && i.subscription.value.planActive
            && var over, base := i.over.GetOr(NO_ROW), i.baseline.GetOr(NO_ROW);
               Inherit(over.enabled, base.enabled) == Some(true) && Inherit(over.unlimited, base.unlimited) != Some(true)
               && Inherit(over.hardLimit, base.hardLimit).Some?)
  {
  }

  lemma ResolvedPeriod(lock: LockId, i: Inputs, now: int)
    requires Resolve(lock, i, now).Some? && Resolve(lock, i, now).value.resetPeriod in {Daily, Monthly}
    ensures var quota := Resolve(lock, i, now).value;
      var period := PeriodCalendar.PeriodOf(quota.resetPeriod, now, None, None);
      && period.start == PeriodCalendar.At(quota.periodStart)
      && (period.end.At? ==> quota.periodEnd == Some(period.end.ms))
  {
  }

  /** A calendar quota counts `now` in its period, for the years the calendar tiles. */
  lemma PeriodContainsNow(lock: LockId, i: Inputs, now: int)
    requires 100 <= PeriodCalendar.YearOf(PeriodCalendar.Day(now)) < 275760
    requires Resolve(lock, i, now).Some? && Resolve(lock, i, now).value.resetPeriod in {Daily, Monthly}
    ensures var quota := Resolve(lock, i, now).value;
      quota.periodStart <= now && quota.periodEnd.Some? && now < quota.periodEnd.value
  {
    var reset := Resolve(lock, i, now).value.resetPeriod;
    ResolvedPeriod(lock, i, now);
    PeriodCalendar.TilesFromYear100(reset, now);
    assert PeriodCalendar.Tiles(reset, now);
  }

  /**
   At every instant the two resolvers agree on whether a current subscription's term is in force: the
   entitlement resolver denies exactly outside it, and the quota resolver calls the subscription
   inactive exactly outside it or under an inactive plan.
   */
  lemma ResolversAgree(lock: LockId, i: Inputs, feature: Entitlements.Feature, over: Option<Entitlements.OverrideState>, now: int)
    requires i.active && i.subscription.Some?
    ensures EntitlementCache.Evaluate(feature, i.subscription, over, i.history, now).source == EntitlementCache.Denied
      <==> !InTerm(i.subscription.value, now)
    ensures Resolve(lock, i, now) == Some(Compatibility(lock, InactiveSubscription))
      <==> !InTerm(i.subscription.value, now) || !i.subscription.value.planActive
  {
    assert Compatibility(lock, InactiveSubscription).state == InactiveSubscription;
  }

  // ---------------------------------------------------------------------------------------------
  // The resolved quota, column by column
  // ---------------------------------------------------------------------------------------------

  /** The override's column if it has one, else the plan's, else nothing. */
  ghost predicate Takes<T>(taken: Option<T>, over: Option<QuotaRow>, plan: Option<QuotaRow>, column: QuotaRow -> Option<T>) {
    && (over.Some? && column(over.value).Some? ==> taken == column(over.value))
    && (plan.Some? && !(over.Some? && column(over.value).Some?) ==> taken == column(plan.value))
    && (plan.None? && !(over.Some? && column(over.value).Some?) ==> taken == None)
  }

  /** The answers that limit nothing, in the order they are given. */
  lemma UnlimitedAnswers(lock: LockId, i: Inputs, now: int)
    ensures var free := (state: ConfigurationState) => Some(EffectiveQuota(lock, state, false, true, None, None, NoReset, 0, None));
      && (!i.active ==> Resolve(lock, i, now) == free(InactiveOrganization))
      && (i.active && i.subscription.None? ==>
            Resolve(lock, i, now) == free(if i.history then InactiveSubscription else LegacyCompatibility))
      && (i.active && i.subscription.Some? ==>
            var sub := i.subscription.value;
            var inForce := sub.status == Entitlements.Active && sub.startAt <= now && sub.planActive
              && (sub.endAt.None? || now < sub.endAt.value || (sub.graceEndAt.Some? && now < sub.graceEndAt.value));
            && (!inForce ==> Resolve(lock, i, now) == free(InactiveSubscription))
            && (inForce && i.baseline.None? && i.over.None? ==> Resolve(lock, i, now) == free(Unconfigured)))
  {
  }

  /** Once a quota row applies, each column is the override's where it has one and the plan's elsewhere. */
  lemma OverrideWins(
    lock: LockId, i: Inputs, now: int, enabled: Option<bool>, unlimited: Option<bool>, soft: Option<int>, hard: Option<int>,
    reset: Option<ResetPeriod>)
    requires i.active && i.subscription.Some? && i.subscription.value.planActive && InTerm(i.subscription.value, now)
    requires (i.over.Some? || i.baseline.Some?) && Resolve(lock, i, now).Some?
    requires Takes(enabled, i.over, i.baseline, (r: QuotaRow) => r.enabled)
    requires Takes(unlimited, i.over, i.baseline, (r: QuotaRow) => r.unlimited)
    requires Takes(soft, i.over, i.baseline, (r: QuotaRow) => r.softLimit)
    requires Takes(hard, i.over, i.baseline, (r: QuotaRow) => r.hardLimit)
    requires Takes(reset, i.over, i.baseline, (r: QuotaRow) => r.resetPeriod)
    ensures var quota := Resolve(lock, i, now).value;
      && quota.lock == lock && quota.softLimit == soft && quota.hardLimit == hard
      && quota.resetPeriod == (if reset.Some? then reset.value else NoReset)
      && (quota.state == Disabled <==> enabled != Some(true))
      && (quota.state == Unlimited <==> enabled == Some(true) && unlimited == Some(true))
      && (quota.state == Unconfigured <==> enabled == Some(true) && unlimited != Some(true) && hard.None?)
      && (quota.state == Enforced <==> enabled == Some(true) && unlimited != Some(true) && hard.Some?)
      && (quota.enabled <==> quota.state in {Enforced, Unlimited}) && (quota.unlimited <==> quota.state == Unlimited)
  {
  }

  /** A quota that resets with the subscription has its term for a period; one that never resets has all time since 1970. */
  lemma OtherPeriods(lock: LockId, i: Inputs, now: int)
    requires i.active && i.subscription.Some? && i.subscription.value.planActive && InTerm(i.subscription.value, now)
    requires (i.over.Some? || i.baseline.Some?) && Resolve(lock, i, now).Some?
    ensures var quota, sub := Resolve(lock, i, now).value, i.subscription.value;
      && (quota.resetPeriod == SubscriptionTerm ==> quota.periodStart == sub.startAt && quota.periodEnd == sub.endAt)
      && (quota.resetPeriod == NoReset ==> quota.periodStart == 0 && quota.periodEnd == None)
  {
  }
}
