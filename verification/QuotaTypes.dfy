/** The values the quota services exchange. Instants are milliseconds since the Unix epoch. */
module QuotaTypes {
  import opened Prelude

  datatype Metric =
    | ActiveUsers | Files | StorageBytes
    | ApiCalls | WorkflowRuns | WebhookDeliveries | EmailSends | AiRequests

  /** Metrics that only grow by consumption; the others are counted from the business tables. */
  predicate IsEvent(metric: Metric) {
    !metric.ActiveUsers? && !metric.Files? && !metric.StorageBytes?
  }

  datatype ResetPeriod = NoReset | Daily | Monthly | SubscriptionTerm

  datatype ConfigurationState =
    | Enforced | Unlimited | Disabled | Unconfigured
    | LegacyCompatibility | InactiveOrganization | InactiveSubscription

  /** The advisory-lock identity of a counter: one lock per organization and metric. */
  datatype LockId = LockId(organization: string, metric: Metric)

  datatype EffectiveQuota = EffectiveQuota(
    lock: LockId,
    state: ConfigurationState,
    enabled: bool,
    unlimited: bool,
    softLimit: Option<int>,
    hardLimit: Option<int>,
    resetPeriod: ResetPeriod,
    periodStart: int,
    periodEnd: Option<int>)
  {
    /** The test `reserve` makes before it compares a projection with the limit. */
    predicate Enforces() {
      enabled && !unlimited && hardLimit.Some?
    }
  }
}
