# Protocols of a multi-tenant backend, verified

This Dafny project models the small protocols over database rows that a multi-tenant NestJS and Prisma
backend runs, and proves what they keep in every run. It verifies with `dafny verify dfyconfig.toml`.

The services are classes over their tables. Each method is proved against a specification function of
the tables before it, and the theorems are about those functions: either single steps, or whole runs in
which any number of requests interleave. A `$transaction` is one step; a stand-alone read is a step of its
own; where a property depends on what happens inside a transaction (a quota commit), the transaction is
split further.

| file | content |
|---|---|
| `Prelude.dfy`, `Text.dfy` | options, sums over tables, rounding; the string order, sorting and `lastIndexOf` of JavaScript |
| `QuotaTypes.dfy`, `QuotaLedger.dfy` | counters, reservations and threshold events, and the service that writes them |
| `QuotaAdmission.dfy` | what each ledger transaction answers and writes, row by row |
| `QuotaInterleaving.dfy` | concurrent reserve, commit, release, synchronization and expiry: hard-limit safety and conservation |
| `QuotaThresholds.dfy`, `QuotaEvents.dfy` | threshold events; at-most-once usage events |
| `QuotaLocks.dfy`, `QuotaSnapshots.dfy` | advisory lock order and deadlock; closed-period snapshots |
| `PeriodCalendar.dfy`, `QuotaResolver.dfy` | the UTC period calendar; which quota is in force |
| `Entitlements.dfy`, `EntitlementCache.dfy` | plans, subscriptions and overrides; the version-keyed entitlement cache |
| `EntitlementEffects.dfy` | what a tenant gets, and what each platform write changes of it |
| `Rbac.dfy`, `RbacServices.dfy`, `AuthorizationCache.dfy` | roles, grants, memberships and organizations; their versioned writers; the version-keyed permission cache |
| `AuthorizationEffects.dfy` | whom the resolver accepts and which actions it answers after each write |
| `RbacReconciliation.dfy`, `RbacVerdicts.dfy` | planning, guarded apply and readiness of the membership reconciliation |
| `RefreshSessions.dfy`, `RefreshLiveness.dfy` | refresh-token rotation, replay detection and revocation; how long a session can be used |
| `WorkspaceTopics.dfy` | compatibility of workspaces, topics and domains across two services |
| `AuditSanitizer.dfy` | the audit payload sanitizer, its fixed points and its storage form |

Rows are named by their unique keys: a counter by organization, metric and period start; a reservation by
organization, metric and idempotency key; a usage event by the key of the reservation it belongs to. A fresh
identifier is the next number, or a parameter of the write that stores it. Clocks, inventories counted from
business tables, and everything else a request reads from outside are parameters. Instants are integers of
milliseconds; amounts are unbounded integers, as the `bigint`s of the source are.

Three things the source does differ from what one would hope for, and are proved as they are:

- `Date.UTC` reads the years 0 to 99 as 1900 to 1999. A calendar period contains its instant and tiles time
  exactly when neither of its ends lies in those years and both are representable dates
  (`PeriodCalendar.TilingExactly`); on each of their New Year's days it fails (`PeriodCalendar.TwoDigitYearFails`).
- The sanitizer passes the text of a `bigint` on uncut. Sanitizing again changes the value exactly when such a
  text of more than 4000 characters was reached (`AuditSanitizer.FixpointExactly`,
  `AuditSanitizer.HugeBigIntChanges`).
- A payload too large to be stored whole is stored with a preview of 30000 characters, which every read
  cuts again to 4000 (`AuditSanitizer.PreviewIsCutAgain`).

The requirements documents speak of quota metrics for companies and opportunities; the schema has none, and the
model follows the schema.

## Model

| member | source | states |
|---|---|---|
| `QuotaLedger.QuotaService.Reserve` | src/quota/quota.service.ts:43-180 | refuses a non-positive amount or blank key; a key of another amount rolls everything back; a RESERVED or COMMITTED key is answered as it is; otherwise the amount is refused over an enforced limit, or becomes a RESERVED row of this period's counter, an old released or expired key moving there |
| `QuotaLedger.QuotaService.UpsertCounter` | src/quota/quota.service.ts:368-401 | a new period starts from zero or the counted inventory; an existing counter gets new configuration and keeps its value and version |
| `QuotaLedger.QuotaService.ExpireTimedOut` | src/quota/quota-scheduler.service.ts:11-17 | exactly the RESERVED rows whose time has come become EXPIRED, of one counter or of all |
| `QuotaLedger.QuotaService.SumReserved` | src/quota/quota.service.ts:96-101 | the sum of the RESERVED amounts on one counter and nothing else |
| `QuotaLedger.QuotaService.CommitReservations` | src/quota/quota.service.ts:188-254 | null and repeated ids are skipped, each remaining one is committed in order, and the answers follow that order |
| `QuotaLedger.QuotaService.CommitReserved` | src/quota/quota.service.ts:217-251 | a RESERVED row adds its amount to its own counter, becomes COMMITTED and has its thresholds checked; any other row changes nothing |
| `QuotaLedger.QuotaService.RecordThresholds` | src/quota/quota.service.ts:473-515 | under a positive limit the 80 and 90 percent events are each inserted, and audited, if reached and not there yet |
| `QuotaLedger.QuotaService.ReleaseReservation` | src/quota/quota.service.ts:256-263 | only a RESERVED row is released, and the answer says whether one was |
| `QuotaLedger.QuotaService.SynchronizeInventory` | src/quota/quota.service.ts:403-444 | an inventory counter is set to the counted inventory; an event metric is refused |
| `QuotaAdmission.FreeKeyExactly` | src/quota/quota.service.ts:96-117 | a free key is reserved exactly when the quota is not enabled, unlimited or without a limit, or when usage, live reservations and the amount together are at most the limit; otherwise the refusal tells usage and limit |
| `QuotaAdmission.OtherAnswersExactly` | src/quota/quota.service.ts:75-95 | when each other answer is given: amount not positive, blank key, another amount, or a key still in force, which includes a late reservation of another period; the first three change nothing |
| `QuotaAdmission.ReserveWrites` | src/quota/quota.service.ts:66-139 | the refreshed counter with its usage kept, the new row RESERVED for fifteen minutes, late rows of this counter expired, and every other row and counter as it was |
| `QuotaAdmission.CommitExactly` | src/quota/quota.service.ts:217-251 | the answer, the row and the counter of each case, usage growing by exactly the reserved amount |
| `QuotaAdmission.ThresholdsWrite` | src/quota/quota.service.ts:473-515 | a check writes, and audits once, exactly the events due, with the usage and limit of that moment |
| `QuotaAdmission.ReleaseGivesBack` | src/quota/quota.service.ts:256-263 | releasing lowers the live total by exactly the amount and frees the key |
| `QuotaAdmission.SyncExactly` | src/quota/quota.service.ts:403-444 | an inventory counter shows the counted inventory, everything else stays, and an event metric changes nothing |
| `QuotaInterleaving.StepSound` | src/quota/quota.service.ts:84-95 | every step keeps each row's counter and positive amount, keeps COMMITTED absorbing on the same counter, and keeps a commit's reads true while it holds the lock, unlocked releases and sweeps notwithstanding |
| `QuotaInterleaving.ReserveBalanced` | src/quota/quota.service.ts:58-145 | on its own counter a `reserve` that reserves nothing does not raise usage plus what may still be added, and a successful enforced one leaves that at most its limit; usage and counted rows stay equal |
| `QuotaInterleaving.ReserveElsewhereBalanced` | src/quota/quota.service.ts:118-139 | a `reserve` working on another counter, even when it takes a key away from this one, never raises this counter's usage plus what may still be added |
| `QuotaInterleaving.StepBalanced` | src/quota/quota.service.ts:188-263 | no other step raises usage plus what may still be added, and none separates usage from the rows it stands for |
| `QuotaInterleaving.CommitUninterrupted` | src/quota/quota.service.ts:217-251 | read, increment and mark without interference are one turn of the commit loop |
| `QuotaInterleaving.PendingIsReserved` | src/quota/quota.service.ts:96-101 | with the lock free, what may still be added is exactly the RESERVED sum the service aggregates |
| `QuotaInterleaving.RowsForever` | src/quota/quota.service.ts:84-95 | over any run and any continuation, a key's amount never changes and COMMITTED stays, on the same counter |
| `QuotaInterleaving.Conservation` | src/quota/quota.service.ts:217-250 | in every run an event counter with a free lock equals the sum of the COMMITTED amounts on it |
| `QuotaInterleaving.HardLimitSafe` | src/quota/quota.service.ts:103-117 | in every run under one enforced limit, usage plus everything that may still be added is within the limit at every moment, hence usage plus RESERVED whenever the lock is free |
| `QuotaThresholds.RecordedLevels` | src/quota/quota.service.ts:473-515 | in every run under a fixed positive limit, whenever the lock is free the recorded events are exactly the levels among 80 and 90 that usage has reached, each audited once |
| `QuotaThresholds.SummaryAgrees` | src/quota/quota.service.ts:342-361 | the summary's floored basis points show exactly the highest level whose event would be recorded |
| `QuotaEvents.CountedAtMostOnce` | src/quota/quota.service.ts:265-310 | however calls of one key are repeated, interleaved or cut off, an amount counted for it has an event row of that amount, is counted by one counter only, and one call at most recorded it |
| `QuotaEvents.CountedWithinEvents` | src/quota/quota.service.ts:265-310 | for a metric fed by events only, the counters of all periods together never exceed the recorded events |
| `QuotaEvents.TraceIsRun` | src/quota/quota.service.ts:265-310 | every run of calls is a run of the ledger, so all ledger theorems hold of it |
| `QuotaEvents.ConsumeCounts` | src/quota/quota.service.ts:265-310 | a consumed call leaves its key COMMITTED and its amount, and only that, added to that row's counter |
| `QuotaEvents.ConsumeRecords` | src/quota/quota.service.ts:285-309 | a consumed call writes one new event of its amount and period; any other call writes none; an event already there is never consumed again |
| `QuotaEvents.CallUninterrupted` | src/quota/quota.service.ts:265-310 | reserve, insert, then lock, read, increment, mark and end, or release, with nothing in between, give exactly the ledger and the events of one call |
| `QuotaEvents.RetryIsIdempotent` | src/quota/quota.service.ts:265-310 | a retry of a consumed call, at any time and under any quota, is answered as repeated and changes no counter's value |
| `QuotaEvents.EventMeter.ConsumeEvent` | src/quota/quota.service.ts:265-310 | reserve, insert the event unless it exists, then commit; a repeated event releases only a reservation of its own |
| `QuotaLocks.SplitRebuilds` | src/quota/quota.service.ts:200-210 | splitting at the last colon rebuilds organization and metric, whatever the organization contains |
| `QuotaLocks.KeyInjective` | src/quota/quota.service.ts:200-210 | distinct pairs have distinct keys |
| `QuotaLocks.LockPlan` | src/quota/quota.service.ts:200-210 | a commit locks each distinct pair of its rows once, in ascending key order |
| `QuotaLocks.DeadlockFree` | src/quota/quota.service.ts:200-210 | in every run, crashes included, some running transaction can take its next lock or end |
| `QuotaLocks.AllFinish` | src/quota/quota.service.ts:200-210 | from every such moment some schedule of takes and ends alone brings all running transactions to their end |
| `QuotaSnapshots.QuotaScheduler.OldestPending` | src/quota/quota-scheduler.service.ts:18-36 | the oldest closed counters without a snapshot, at most 500, oldest first and each once |
| `QuotaSnapshots.QuotaScheduler.FinalizeClosedPeriods` | src/quota/quota-scheduler.service.ts:10-81 | late reservations expire, and each counter of the batch gets the snapshot of its row and one audit entry; older snapshots stay |
| `QuotaSnapshots.QuotaScheduler.InsertSnapshots` | src/quota/quota-scheduler.service.ts:37-80 | the insert loop adds exactly the batch's snapshots and counts them |
| `QuotaSnapshots.PassDrains` | src/quota/quota-scheduler.service.ts:18-79 | a pass over k pending counters leaves max(0, k - 500) and alters no snapshot |
| `QuotaSnapshots.PassIsComplete` | src/quota/quota-scheduler.service.ts:18-62 | with at most 500 pending, after a pass every counter whose period has ended has a snapshot telling its row |
| `QuotaSnapshots.PassIsSound` | src/quota/quota-scheduler.service.ts:20-62 | a pass writes only for ended periods, and the snapshot repeats usage and limits, says whether usage exceeds the limit, and gives the share rounded toward zero |
| `QuotaSnapshots.PassesDrain` | src/quota/quota-scheduler.service.ts:18-79 | n passes with nothing newly closed leave max(0, k - 500 n) |
| `QuotaSnapshots.SnapshotsFinal` | src/quota/quota-scheduler.service.ts:43-62 | among running requests and competing schedulers a snapshot, once there, never changes, and an event metric's final usage never exceeds the counter's later value |
| `QuotaSnapshots.PercentageAgrees` | src/quota/quota-scheduler.service.ts:39-56 | for a positive limit, exceeded implies at least 10000 basis points, and more than 10000 implies exceeded |
| `PeriodCalendar.MakeDayIsFirst` | src/quota/quota-resolver.service.ts:173-183 | `Date.UTC` of a month's first, carried past December if need be, is the first of that month by the getters |
| `PeriodCalendar.MakeDayOfGetters` | src/quota/quota-resolver.service.ts:164-172 | the getters take any day apart and `Date.UTC`'s MakeDay puts it together again |
| `PeriodCalendar.EpochDay` | src/quota/quota-resolver.service.ts:164-172 | day 0 is 1 January 1970 by the getters |
| `PeriodCalendar.CivilSuccessor` | src/quota/quota-resolver.service.ts:164-172 | from each day to the next the getters move as the Gregorian calendar does, leap years and century years included |
| `PeriodCalendar.PeriodDays` | src/quota/quota-resolver.service.ts:164-183 | a DAILY period is the day of its instant, a MONTHLY one runs from that month's first to the next month's |
| `PeriodCalendar.PeriodShape` | src/quota/quota-resolver.service.ts:164-183 | a representable period begins and ends at the midnights of those days |
| `PeriodCalendar.TilingExactly` | src/quota/quota-resolver.service.ts:158-183 | a DAILY or MONTHLY period contains its instant, is shared by all its instants and is followed by the next exactly at its end, if and only if neither end lies in a year 0 to 99 and both are representable |
| `PeriodCalendar.TwoDigitYearFails` | src/quota/quota-resolver.service.ts:164-172 | on New Year's day of each year 0 to 99 the daily period begins 1900 years later |
| `PeriodCalendar.TilesFromYear100` | src/quota/quota-resolver.service.ts:158-183 | every instant of the years 100 to 275759 is tiled |
| `QuotaResolver.EnforcedExactly` | src/quota/quota-resolver.service.ts:51-156 | `reserve` compares with a limit exactly for an active organization with a subscription in term on an active plan whose overridden quota is enabled, not unlimited and limited |
| `QuotaResolver.UnlimitedAnswers` | src/quota/quota-resolver.service.ts:62-122 | which answer that limits nothing is given for an inactive organization, no subscription, a subscription out of force, and no quota row |
| `QuotaResolver.OverrideWins` | src/quota/quota-resolver.service.ts:123-155 | each column is the override's where it has one and the plan's elsewhere, and the state follows from enabled, unlimited and the hard limit in that order |
| `QuotaResolver.OtherPeriods` | src/quota/quota-resolver.service.ts:184-189 | the subscription's term, or all time since 1970 |
| `QuotaResolver.PeriodContainsNow` | src/quota/quota-resolver.service.ts:51-156 | the calendar period of a resolved quota contains the instant it was resolved at |
| `QuotaResolver.ResolversAgree` | src/quota/quota-resolver.service.ts:96-111 | at every instant the entitlement resolver denies exactly outside the term, and the quota resolver calls the subscription inactive exactly outside it or under an inactive plan |
| `Entitlements.WriteKeepsSubs` | src/entitlements/platform-entitlements.service.ts:29-56 | every write keeps one current subscription per organization, ordered dates, an end for a TRIAL, and allowed transitions only |
| `Entitlements.LifecycleSafe` | src/entitlements/platform-entitlements.service.ts:7-12 | in every run those hold, and CANCELLED and EXPIRED are final |
| `EntitlementEffects.TransitionExactly` | src/entitlements/platform-entitlements.service.ts:54-56 | exactly eight transitions succeed, each writing the status and bumping its organization once; the same status does nothing and any other conflicts |
| `EntitlementEffects.CreateExactly` | src/entitlements/platform-entitlements.service.ts:29-44 | a subscription is created exactly when its dates hold, its plan is active and the organization has no current one, and its row is as given |
| `EntitlementEffects.SubUpdateExactly` | src/entitlements/platform-entitlements.service.ts:45-53 | an update is accepted exactly when the dates hold as they would become and a new plan is active, and its row has exactly the given fields replaced |
| `EntitlementEffects.PlanCreated` | src/entitlements/platform-entitlements.service.ts:18-21 | a code is used once, and a new plan is active and gives nothing |
| `Entitlements.PlatformEntitlementsService.UpdatePlan` | src/entitlements/platform-entitlements.service.ts:22-24 | the plan changes and exactly the organizations with a current subscription on it are bumped |
| `Entitlements.PlatformEntitlementsService.SetFeature` | src/entitlements/platform-entitlements.service.ts:25-27 | the feature is set and the plan's current subscribers are bumped |
| `Entitlements.PlatformEntitlementsService.CreateSubscription` | src/entitlements/platform-entitlements.service.ts:29-44 | status, dates, organization, plan and the one-current rule are checked in the service's order, then the row is written and the version bumped |
| `Entitlements.PlatformEntitlementsService.UpdateSubscription` | src/entitlements/platform-entitlements.service.ts:45-53 | the dates are checked as they would become, a new plan must be active, then row and version change |
| `Entitlements.PlatformEntitlementsService.Transition` | src/entitlements/platform-entitlements.service.ts:54-56 | the same status does nothing, a transition outside the table conflicts, any other is written and bumped |
| `Entitlements.PlatformEntitlementsService.SetOverride` | src/entitlements/platform-entitlements.service.ts:58-60 | the override is written and its organization bumped |
| `Entitlements.PlatformEntitlementsService.RemoveOverride` | src/entitlements/platform-entitlements.service.ts:61 | an existing override is removed and its organization bumped |
| `EntitlementCache.ResultStable` | src/entitlements/entitlement.service.ts:51-59 | until `validUntil` the clock cannot change the result, for any subscription row |
| `EntitlementCache.PlanWriteReach` | src/entitlements/platform-entitlements.service.ts:64 | an organization without a current subscription on the written plan reads nothing different |
| `EntitlementCache.WriteCoverage` | src/entitlements/platform-entitlements.service.ts:22-64 | every write bumps an organization's version or changes nothing its resolver reads |
| `EntitlementCache.HitIsFresh` | src/entitlements/entitlement.service.ts:19-60 | in every interleaving of split reads and writes, an entry at the organization's current version and still valid equals a fresh resolve |
| `EntitlementCache.EntitlementService.FindCurrent` | src/entitlements/entitlement.service.ts:26-33 | the current subscription with the latest start and, among equals, the greatest id |
| `EntitlementCache.EntitlementService.EvaluateRows` | src/entitlements/entitlement.service.ts:34-50 | the branches over legacy, term, grace, override and plan give the specified result |
| `EntitlementCache.EntitlementService.Resolve` | src/entitlements/entitlement.service.ts:19-61 | from a coherent cache, hit or miss, the answer is the fresh one and the cache stays coherent |
| `EntitlementEffects.SubscribedExactly` | src/entitlements/entitlement.service.ts:39-49 | with a current subscription a feature is enabled exactly when the term is in force and the override says ENABLED or, without one, the active plan lists it; source, subscription and plan code are named |
| `EntitlementEffects.LegacyExactly` | src/entitlements/entitlement.service.ts:35-36 | an organization that never subscribed has every feature that no override disables |
| `EntitlementEffects.EndedIsDenied` | src/entitlements/entitlement.service.ts:22-38 | nothing is enabled once every subscription has ended, nor outside an ACTIVE organization |
| `EntitlementEffects.OverrideDecides` | src/entitlements/platform-entitlements.service.ts:58-61 | from the moment it is set an override decides its feature, and removed it leaves the decision to the plan |
| `EntitlementEffects.PlanDecides` | src/entitlements/platform-entitlements.service.ts:22-27 | a plan's feature or activity, once set, decides for its subscribers without an override |
| `AuthorizationCache.AcceptsExactly` | src/organization-memberships/tenant-resolver.service.ts:182-212 | accepted exactly are an ACTIVE membership of that user in an ACTIVE organization with an existing, active, correctly scoped role |
| `AuthorizationCache.GrantingOrgAffected` | src/admin/authorization-version.ts:3-40 | the organizations bumped for a permission include every one of whose accepted memberships' roles grant it |
| `AuthorizationCache.MemberCovered` | src/auth/sso/oidc.service.ts:238-255 | membership writes, the unbumped repair included, bump a membership's organization or leave an accepted membership's authority as it was |
| `AuthorizationCache.OrgCovered` | src/organizations/organizations.service.ts:158-206 | provisioning rewrites memberships without a bump, but only in an organization in set-up, where none is accepted |
| `AuthorizationCache.WriteCovered` | src/admin/authorization-version.ts:3-40 | every writer of roles, grants, permissions, memberships and organizations bumps a membership's organization or leaves its authority as it was |
| `AuthorizationCache.HitIsFresh` | src/organization-memberships/tenant-resolver.service.ts:214-232 | in every interleaving, a permission list at the organization's current version belongs to an ACTIVE membership of that user with a valid role and is exactly that role's active grants |
| `AuthorizationCache.ActionsExactly` | src/organization-memberships/tenant-resolver.service.ts:222-230 | an action is answered exactly when some grant of the role names an active permission with that action |
| `AuthorizationCache.CachedExactly` | src/organization-memberships/tenant-resolver.service.ts:214-232 | so it is, in every interleaving, of every cached list at its organization's current version |
| `AuthorizationCache.TenantResolverService.BuildContext` | src/organization-memberships/tenant-resolver.service.ts:175-251 | refuses exactly as the checks do; otherwise answers the role's active grants at the current version, from a coherent cache that stays coherent |
| `AuthorizationCache.WriteLifecycle` | src/organizations/organizations.service.ts:224-260 | an organization that becomes ACTIVE was provisioned and had an active owner with a usable role; none returns to set-up or leaves the archive |
| `AuthorizationCache.LifecycleSafe` | src/organizations/organizations.service.ts:25-30 | so it is over every run |
| `AuthorizationEffects.AcceptedExactly` | src/organization-memberships/tenant-resolver.service.ts:182-212 | the acceptance condition on the fields: ACTIVE membership and organization, and an active role of the system or of that tenant |
| `AuthorizationEffects.AssignExactly` | src/organization-memberships/tenant-rbac.service.ts:72-82 | exactly a role serving the tenant is assigned, to that membership only, which is then accepted if it and its organization are ACTIVE |
| `AuthorizationEffects.RevokeExactly` | src/organization-memberships/tenant-rbac.service.ts:84-93 | exactly a membership that is not ACTIVE loses its role |
| `AuthorizationEffects.JoinExactly` | src/organization-memberships/organization-memberships.service.ts:79-101 | a first membership with a role serving the tenant is created ACTIVE, and accepted at once in an ACTIVE organization |
| `AuthorizationEffects.RepairExactly` | src/auth/sso/oidc.service.ts:252-255 | a usable role is left alone, any other replaced by one that serves |
| `AuthorizationEffects.DeactivateRefuses` | src/users/users.service.ts:282-304 | a deactivated user is accepted nowhere in that organization, and no other membership changes |
| `AuthorizationEffects.ActivateRestores` | src/users/users.service.ts:323-360 | only an inactive user is activated, whose membership is ACTIVE again and accepted if role and organization allow |
| `AuthorizationEffects.RoleSwitches` | src/organization-memberships/tenant-rbac.service.ts:47-56 | a tenant switches off exactly a role no ACTIVE member has; a system role switched off serves nobody |
| `AuthorizationEffects.NewRoles` | src/organization-memberships/tenant-rbac.service.ts:28-45 | a new role overwrites none and changes nobody's actions |
| `AuthorizationEffects.RemoveExactly` | src/admin/tenant-roles.service.ts:162-180 | exactly an unused role is removed, with its grants |
| `AuthorizationEffects.TenantGrantsExactly` | src/organization-memberships/tenant-rbac.service.ts:58-70 | replaced, a tenant role holds exactly the actions of the given permissions and other roles what they held |
| `AuthorizationEffects.SystemGrantsExactly` | src/admin/rbac-management.service.ts:63-77 | replaced, a system role holds exactly the given actions, and ADMIN is refused without its two |
| `AuthorizationEffects.SystemReplaceReach` | src/admin/rbac-management.service.ts:63-77 | other roles keep exactly what they hold beside the grants of that base role |
| `AuthorizationEffects.GrantExactly` | src/admin/admin-permissions.service.ts:75-90 | granting adds exactly the actions of the given permissions, and is refused when all are there |
| `AuthorizationEffects.RevokeGrantsExactly` | src/admin/admin-permissions.service.ts:92-106 | revoking takes exactly the given permissions, and is refused when none is there |
| `AuthorizationEffects.DeleteExactly` | src/admin/rbac-management.service.ts:30-41 | a deleted permission gives nobody its action, and nobody loses another |
| `AuthorizationEffects.PermissionUpdateExactly` | src/admin/rbac-management.service.ts:15-29 | exactly when an update is accepted, and the row it leaves |
| `AuthorizationEffects.SwitchedOffIsGone` | src/admin/rbac-management.service.ts:15-29 | switched off, a permission's action is left exactly to roles holding it through another active permission |
| `AuthorizationEffects.SwitchedOffInRuns` | src/organization-memberships/tenant-resolver.service.ts:214-232 | and so for every cached list at the current version, whatever requests were in flight |
| `AuthorizationEffects.SwitchedOnIsGiven` | src/admin/rbac-management.service.ts:15-29 | switched on, it gives its action to every role that has it granted |
| `AuthorizationEffects.OrgTransitionExactly` | src/organizations/organizations.service.ts:224-260 | exactly the six transitions of the table succeed, and the present status again, activation only when provisioned and with an active owner |
| `AuthorizationEffects.ProvisionExactly` | src/organizations/organizations.service.ts:158-206 | provisioning succeeds exactly in set-up for an active user and a single ADMIN role; every membership it writes is an active owner's |
| `RbacServices.RbacAdministration.IncrementForRoles` | src/admin/authorization-version.ts:3-40 | the loops collect exactly the owners of the TENANT roles and the users of the SYSTEM roles, and each is bumped once |
| `RbacServices.RbacAdministration.UpdatePermission` | src/admin/rbac-management.service.ts:15-29 | protected permissions are refused; otherwise the permission changes and its dependants are bumped |
| `RbacServices.RbacAdministration.DeletePermission` | src/admin/rbac-management.service.ts:30-41 | permission and grants go, and the organizations that depended on it before are bumped |
| `RbacServices.RbacAdministration.UpdateSystemRole` | src/admin/rbac-management.service.ts:46-60 | a SYSTEM role's activity changes and every organization is bumped |
| `RbacServices.RbacAdministration.ReplaceSystemPermissions` | src/admin/rbac-management.service.ts:63-77 | only active permissions, ADMIN keeps its required ones, all grants are replaced and every organization is bumped |
| `RbacServices.RbacAdministration.GrantToSystem` | src/admin/admin-permissions.service.ts:75-90 | the missing grants are added, with none missing refused, and every organization is bumped |
| `RbacServices.RbacAdministration.RevokeFromSystem` | src/admin/admin-permissions.service.ts:92-106 | the present grants are removed, with none present refused, and every organization is bumped |
| `RbacServices.RbacAdministration.UpdateTenantRole` | src/organization-memberships/tenant-rbac.service.ts:47-56 | a role in active use cannot be switched off; otherwise it changes and its tenant is bumped |
| `RbacServices.RbacAdministration.ReplaceTenantPermissions` | src/organization-memberships/tenant-rbac.service.ts:58-70 | only active permissions, all grants of the active role are replaced and its tenant is bumped |
| `RbacServices.RbacAdministration.AssignRole` | src/organization-memberships/tenant-rbac.service.ts:72-82 | only a role valid for the tenant is assigned, and the tenant is bumped |
| `RbacServices.RbacAdministration.RevokeRole` | src/organization-memberships/tenant-rbac.service.ts:84-93 | an ACTIVE membership keeps its role; any other loses it and the tenant is bumped |
| `RbacServices.RbacAdministration.Provision` | src/organizations/organizations.service.ts:158-206 | in set-up only, with an active owner and exactly one ADMIN role, the owner's membership is upserted and onboarding is READY |
| `RbacServices.RbacAdministration.RecordProvisioningFailure` | src/organizations/organizations.service.ts:295-307 | a failure is noted only while the organization is in set-up |
| `RbacServices.RbacAdministration.TransitionOrg` | src/organizations/organizations.service.ts:224-260 | the lifecycle table, and readiness for activation |
| `RefreshSessions.RefreshTokenService.CreateSession` | src/auth/refresh-token.service.ts:86-116 | a fresh unrevoked session of that user |
| `RefreshSessions.RefreshTokenService.GetActiveSession` | src/auth/refresh-token.service.ts:62-84 | accepts exactly a live session of an active user; a ROTATED token revokes all live sessions of its user |
| `RefreshSessions.RefreshTokenService.RotateRefreshToken` | src/auth/refresh-token.service.ts:118-219 | each of the five answers with the table it leaves: unknown, revoked (all live sessions revoked), expired (only this one revoked), inactive user, rotated |
| `RefreshSessions.RefreshTokenService.RevokeActiveSessions` | src/auth/refresh-token.service.ts:358-375 | exactly the live sessions of the user, but for the excepted one, are revoked, and counted |
| `RefreshSessions.RefreshTokenService.RevokeByToken` | src/auth/refresh-token.service.ts:221-237 | an unrevoked session is revoked; a revoked one keeps its time and reason |
| `RefreshSessions.RefreshTokenService.RevokeUserSession` | src/auth/refresh-token.service.ts:292-329 | found exactly when it is the user's own session |
| `RefreshSessions.RevocationPermanent` | src/auth/refresh-token.service.ts:170-218 | over every run and continuation a revoked session keeps its time, first reason and replacement |
| `RefreshSessions.Replacements` | src/auth/refresh-token.service.ts:170-218 | in every run ROTATED means replaced, and a replacement is younger, of the same user, and replaces nobody else |
| `RefreshSessions.OneUnrevoked` | src/auth/refresh-token.service.ts:170-188 | in every run each login chain has at most one unrevoked session |
| `RefreshSessions.PresentationCaught` | src/auth/refresh-token.service.ts:67-70 | presenting a ROTATED token, to the precheck or to a rotation, always leads to the mass revocation of its user |
| `RefreshSessions.ReplayEndsChain` | src/auth/refresh-token.service.ts:134-141 | once that revocation is done, no token of the login chain is ever accepted again, rotations in flight included |
| `RefreshLiveness.StepExactly` | src/auth/refresh-token.service.ts:118-375 | one step revokes a live session exactly when it ends it: its own revocation, its user's, a punished replay, or its rotation |
| `RefreshLiveness.AcceptedExactly` | src/auth/refresh-token.service.ts:62-84 | from any moment on, a session is accepted exactly as long as it was unrevoked then, no step since ended it, and its time has not come |
| `RefreshLiveness.LoginUsable` | src/auth/refresh-token.service.ts:86-116 | in every run a login's session is its user's, unrevoked, and usable for exactly `ttl` unless a step ends it |
| `RefreshLiveness.RotationUsable` | src/auth/refresh-token.service.ts:164-218 | in every run a rotation of a session still accepted leaves a new one of the same user and chain, usable for exactly `ttl` from then unless a step ends it; any other rotation in flight creates nothing |
| `RefreshLiveness.LiveRotates` | src/auth/refresh-token.service.ts:118-219 | an undisturbed rotation of a live session succeeds |
| `RefreshLiveness.RevokedForGood` | src/auth/refresh-token.service.ts:221-258 | a step that ends a session ends it for every continuation |
| `RbacReconciliation.DifferenceEmpty` | src/organization-memberships/tenant-rbac-maintenance.ts:6-8 | the difference of two sorted lists is empty exactly when the first is a subset |
| `RbacReconciliation.TenantRbacMaintenance.Plan` | src/organization-memberships/tenant-rbac-maintenance.ts:14-87 | one audit per membership in id order, and one assignment for each that is SAFE_ASSIGN_ROLE |
| `RbacReconciliation.TenantRbacMaintenance.ApplyAssignments` | src/organization-memberships/tenant-rbac-maintenance.ts:92-109 | every entry is checked against the current rows, stale ones are listed with their reason, the others written, and the version bumped only if one was |
| `RbacReconciliation.TenantRbacMaintenance.Backfill` | src/organization-memberships/tenant-rbac-maintenance.ts:89-120 | undisturbed, every entry is applied and none is stale, and the answer is ready exactly when every membership can do without the fallback |
| `RbacReconciliation.AssignFacts` | src/organization-memberships/tenant-rbac-maintenance.ts:72-83 | a planned entry is for a null-role member who is no owner, with a valid role granting exactly the legacy actions |
| `RbacVerdicts.AuditLists` | src/organization-memberships/tenant-rbac-maintenance.ts:50-52 | the audit's lists are what the user's legacy role, or without one the base role, grants through active permissions, what the membership's role grants, and their differences |
| `RbacVerdicts.RoleVerdictExactly` | src/organization-memberships/tenant-rbac-maintenance.ts:66-70 | exactly when a membership with a role is judged a risky owner, safe, divergent or cross-tenant |
| `RbacVerdicts.AmbiguousExactly` | src/organization-memberships/tenant-rbac-maintenance.ts:71 | exactly a plain member without a role but with a second membership is ambiguous |
| `RbacVerdicts.PlannedExactly` | src/organization-memberships/tenant-rbac-maintenance.ts:72-83 | a role is planned exactly for a plain member without a role or a second tenant, when it is the only candidate and grants exactly what the user has today |
| `RbacVerdicts.ApplyIsWrite` | src/organization-memberships/tenant-rbac-maintenance.ts:92-109 | every apply is one of the versioned writes of the permission cache's theorems |
| `RbacReconciliation.ApplyPreservesPermissions` | src/organization-memberships/tenant-rbac-maintenance.ts:89-109 | whatever changed since the plan, the apply fills only null roles, of that organization, with a role valid now that grants exactly the planned actions; nothing else changes but the version |
| `RbacReconciliation.NothingAppliedNothingBumped` | src/organization-memberships/tenant-rbac-maintenance.ts:105-106 | if every entry is stale nothing changes |
| `RbacReconciliation.ReconciledClassifies` | src/organization-memberships/tenant-rbac-maintenance.ts:35-85 | after an undisturbed apply every assigned membership is SAFE_NO_CHANGE and no other classification differs |
| `RbacReconciliation.Converges` | src/organization-memberships/tenant-rbac-maintenance.ts:89-109 | the next plan is empty, and the next apply changes and bumps nothing |
| `RbacReconciliation.ReadyExactly` | src/organization-memberships/tenant-rbac-maintenance.ts:124-128 | READY_FOR_FALLBACK_REMOVAL exactly when every membership has an existing, active, correctly scoped role, a SYSTEM role matching the legacy actions as a set, no second tenant, and owners hold both management permissions |
| `RbacReconciliation.ReadyResolves` | src/organization-memberships/tenant-resolver.service.ts:194-212 | the resolver's role checks accept every membership of a ready organization |
| `Text.SortedIsSame` | src/organization-memberships/tenant-rbac-maintenance.ts:6-8 | two sorted lists are the same exactly when their sets are |
| `WorkspaceTopics.SelectionExactly` | src/workspaces/workspaces.service.ts:233-241 | a selection is accepted exactly when it repeats nothing, is known, and adds nothing inactive |
| `WorkspaceTopics.TopicsExactly` | src/workspaces/workspaces.service.ts:243-255 | topics are accepted exactly when each is known, shares a domain unless there are none, and is active unless it was there before |
| `WorkspaceTopics.UpdateExactly` | src/workspaces/workspaces.service.ts:103-151 | on a compatible workspace, a partial update, which looks only at the fields it carries, is accepted exactly when the whole merged workspace is compatible and links nothing new that is inactive |
| `WorkspaceTopics.TopicUpdateExactly` | src/topics/topics.service.ts:44-50 | replacing a topic's domains is allowed exactly when every workspace, archived ones too, stays compatible |
| `WorkspaceTopics.AlwaysCompatible` | src/workspaces/workspaces.service.ts:36-59 | in every run of both services each workspace with domains shares one with each of its topics, and its default language is among its outputs |
| `WorkspaceTopics.AlwaysShares` | src/workspaces/workspaces.service.ts:229-255 | said of one workspace in any run: existing links, the default among the outputs, and for each topic a domain in both |
| `WorkspaceTopics.UpdateWrites` | src/workspaces/workspaces.service.ts:103-151 | an update leaves exactly the given fields replaced, and is accepted exactly when that workspace is compatible and nothing is repeated or newly linked while inactive |
| `WorkspaceTopics.CreateWrites` | src/workspaces/workspaces.service.ts:36-64 | a workspace is created exactly as given, when what it links is active, compatible and not repeated and its code is free |
| `WorkspaceTopics.TopicWrites` | src/topics/topics.service.ts:38-57 | a topic's domains become exactly the given ones, when active, not repeated and no workspace loses its shared one |
| `WorkspaceTopics.TopicRows` | src/topics/topics.service.ts:31-58 | a new topic is active with the given domains; switching one touches nothing else |
| `WorkspaceTopics.ArchiveWrites` | src/workspaces/workspaces.service.ts:153-165 | archiving keeps every link and is answered for the tenant's own workspaces |
| `WorkspaceTopics.CatalogServices.CreateWorkspace` | src/workspaces/workspaces.service.ts:36-64 | the five checks in the service's order, the unique code, then the row with its links |
| `WorkspaceTopics.CatalogServices.UpdateWorkspace` | src/workspaces/workspaces.service.ts:103-151 | an archived workspace is refused, only given fields are validated and replaced, and the default language is always checked |
| `WorkspaceTopics.CatalogServices.ArchiveWorkspace` | src/workspaces/workspaces.service.ts:153-165 | the workspace is archived, links untouched; archiving again does nothing |
| `WorkspaceTopics.CatalogServices.CreateTopic` | src/topics/topics.service.ts:31-37 | validated domains, the unique code, an active topic |
| `WorkspaceTopics.CatalogServices.UpdateTopic` | src/topics/topics.service.ts:38-57 | given domains are validated, then refused if a workspace would be stranded, then replaced |
| `WorkspaceTopics.CatalogServices.SetTopicActive` | src/topics/topics.service.ts:58 | only the flag changes |
| `AuditSanitizer.SensitiveAnywhere` | src/audit-log/audit-log.service.ts:426-430 | a sensitive key stays sensitive inside any longer key |
| `AuditSanitizer.SensitiveExactly` | src/audit-log/audit-log.service.ts:426-430 | a key is sensitive exactly when it contains, in any case, password, hash, token, secret, authorization, cookie, credential or session, or private and key with at most one character between that ends no line |
| `AuditSanitizer.OutputIsClean` | src/audit-log/audit-log.service.ts:414-437 | for every value, cyclic and `toJSON` values included, no sensitive key is left at any depth |
| `AuditSanitizer.EntriesExactly` | src/audit-log/audit-log.service.ts:423-433 | of an object's first hundred entries exactly the non-sensitive ones come out, each with its sanitized value |
| `AuditSanitizer.KindsExactly` | src/audit-log/audit-log.service.ts:414-437 | what becomes of each kind of value: the depth mark below depth six, texts whole up to 4000 characters and cut with the mark beyond, arrays' first hundred items, dates, bigints and `toJSON` results |
| `AuditSanitizer.DigitsDenote` | src/audit-log/audit-log.service.ts:417 | a bigint's text denotes it, without leading zeros |
| `AuditSanitizer.FixedExactly` | src/audit-log/audit-log.service.ts:414-437 | a value is left as it is exactly when it is in normal form at that depth: short or already cut texts, at most a hundred items, no sensitive key, the depth mark below depth six |
| `AuditSanitizer.FixpointExactly` | src/audit-log/audit-log.service.ts:414-437 | sanitizing again, at the same or a shallower depth, changes nothing if and only if no `bigint` of over 4000 characters was reached |
| `AuditSanitizer.HugeBigIntChanges` | src/audit-log/audit-log.service.ts:417 | every power of ten from the 4000th on is passed on whole the first time and cut the second |
| `AuditSanitizer.StoredWholeReadsBack` | src/audit-log/audit-log.service.ts:521-524 | a payload stored whole reads back as stored under exactly that condition |
| `AuditSanitizer.StoresExactly` | src/audit-log/audit-log.service.ts:521-530 | up to 32768 characters of JSON the payload is stored whole, beyond that its size and the first 30000 |
| `AuditSanitizer.PreviewIsCutAgain` | src/audit-log/audit-log.service.ts:525-529 | a payload stored as a preview never reads back as stored |

## Left out

- Controllers, guards, DTO validation, lists and searches, exports, settings, branding, teams, aliases and names: easy members with no property across operations.
- Passkeys, OIDC and SAML messages, DNS, object storage, password hashing, encryption and JWT signing: foreign calls. Token hashes are fresh identifiers, and permission actions are opaque strings but for the three the code names.
- PostgreSQL itself: transactions are atomic, unique keys and advisory locks hold. Collisions of `hashtext`, anomalies of READ COMMITTED and deadlocks on row locks are not modelled; in particular a workspace update and a topic update are each one step.
- Prisma's `include` reads a row and its relations in one step; the separate SELECTs behind it are not split.
- The deletion check of a tenant role with its delete, and the SAML repair of a membership, are one step each; so is the subscription transition with the row it reads before its lock (src/entitlements/platform-entitlements.service.ts:55), and a rotation's `now` with its transaction.
- Time-to-live expiry of both caches is an eviction that may happen at any moment.
- Seeds and operator scripts that change grants without a version bump are not among the writers.
- Exactly-once event counting is not claimed: a repeated call may release the reservation another call has recorded but not yet committed (src/quota/quota.service.ts:302-304).
- Equality of the ACTIVE_USERS counter with the number of memberships is not claimed: a repeated activation reuses a committed key (src/users/users.service.ts:337-345).
- That an active organization always keeps an active owner is not claimed: deactivation clears the user's flag before the owner check counts active users.
- The choice of the default membership, rejection logging, the diagnostics texts of the reconciliation plan and its dry-run report, platform authorities, session metadata, token generation and parsing of durations.
- The precision of `Number` in basis points beyond 2 to the power 53.
- In the sanitizer: function and symbol values, invalid dates (`toISOString` throws), getters with side effects, and what JSON transport does to `undefined` and to non-finite numbers. Strings are sequences of characters; a surrogate pair counts as one.
- `AuditLog` rows and their texts, except the audits of threshold events and snapshots.
