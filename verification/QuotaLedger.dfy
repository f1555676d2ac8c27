/**
 The quota ledger: counters, reservations and threshold events, with `QuotaService` working on
 them in place and one specification function for every committed transaction.

 A counter row is named by its unique key (organization, metric, period start) and a reservation
 row by its unique key (organization, metric, idempotency key); the surrogate ids of the tables
 are in bijection with these.
 */
module QuotaLedger {
  import opened Prelude
  import opened Totals
  import opened QuotaTypes

  const RESERVATION_TTL_MS := 15 * 60 * 1000

  datatype CounterId = CounterId(lock: LockId, periodStart: int)
  datatype Key = Key(lock: LockId, idempotencyKey: string)
  datatype ThresholdKey = ThresholdKey(counter: CounterId, threshold: int)

  datatype Counter = Counter(
    periodEnd: Option<int>, value: int, softLimit: Option<int>, hardLimit: Option<int>,
    resetPeriod: ResetPeriod, state: ConfigurationState, version: int)

  datatype Status = Reserved | Committed | Released | Expired

  datatype Reservation = Reservation(
    counter: CounterId, amount: int, status: Status, expiresAt: int,
    committedAt: Option<int>, releasedAt: Option<int>)

  datatype ThresholdEvent = ThresholdEvent(usage: int, limit: int, createdAt: int)

  datatype Ledger = Ledger(
    counters: map<CounterId, Counter>,
    reservations: map<Key, Reservation>,
    thresholds: map<ThresholdKey, ThresholdEvent>,
    thresholdAudits: multiset<ThresholdKey>)

  const EMPTY := Ledger(map[], map[], map[], multiset{})

  datatype ReserveOutcome =
    | InvalidAmount
    | MissingKey
    | AmountMismatch
    | AlreadyReserved
    | Exceeded(current: int, limit: int, resetAt: Option<int>)
    | NewlyReserved

  datatype CommitOutcome =
    | Missing
    | Idempotent(committed: bool)
    | NowCommitted(currentValue: int)

  /** JavaScript's white space and line terminators, as `String.prototype.trim` strips them. */
  predicate IsSpace(c: char) {
    c in "\t\n\U{000b}\U{000c}\r \U{00a0}\U{1680}\U{2028}\U{2029}\U{202f}\U{205f}\U{3000}\U{feff}" || '\U{2000}' <= c <= '\U{200a}'
  }

  predicate IsBlank(s: string) {
    forall c | c in s :: IsSpace(c)
  }

  // ---------------------------------------------------------------------------------------------
  // Specification of each transaction
  // ---------------------------------------------------------------------------------------------

  /** The value a new counter starts from: the counted inventory, or zero for an event metric. */
  function Baseline(metric: Metric, inventory: int): int {
    if IsEvent(metric) then 0 else inventory
  }

  function CounterOf(quota: EffectiveQuota): CounterId {
    CounterId(quota.lock, quota.periodStart)
  }

  /** `counter`: create the period's row from the baseline, or refresh its configuration only. */
  function Upsert(l: Ledger, quota: EffectiveQuota, inventory: int): Ledger {
    var id := CounterOf(quota);
    var row :=
      if id in l.counters then
        l.counters[id].(periodEnd := quota.periodEnd, softLimit := quota.softLimit, hardLimit := quota.hardLimit,
                        resetPeriod := quota.resetPeriod, state := quota.state)
      else
        Counter(quota.periodEnd, Baseline(quota.lock.metric, inventory), quota.softLimit, quota.hardLimit,
                quota.resetPeriod, quota.state, 1);
    l.(counters := l.counters[id := row])
  }

  predicate TimedOut(r: Reservation, now: int) {
    r.status == Reserved && r.expiresAt <= now
  }

  function ExpireRow(r: Reservation, only: Option<CounterId>, now: int): Reservation {
    if TimedOut(r, now) && (only.None? || r.counter == only.value)
    then r.(status := Expired, releasedAt := Some(now))
    else r
  }

  /** Expire the timed-out reservations: of one counter (`reserve`) or of all (the scheduler). */
  function Expire(l: Ledger, only: Option<CounterId>, now: int): Ledger {
    l.(reservations := map k | k in l.reservations :: ExpireRow(l.reservations[k], only, now))
  }

  function ReservedAmount(r: Reservation, c: CounterId): int {
    if r.counter == c && r.status == Reserved then r.amount else 0
  }

  /** The rows `aggregate` sums in `reserve`, as amounts; all other rows count zero. */
  function ReservedRows(l: Ledger, c: CounterId): map<Key, int> {
    map k | k in l.reservations :: ReservedAmount(l.reservations[k], c)
  }

  ghost function ReservedSum(l: Ledger, c: CounterId): int {
    Total(ReservedRows(l, c))
  }

  /** Would this amount take the counter over an enforced limit? */
  ghost predicate OverLimit(l: Ledger, quota: EffectiveQuota, amount: int)
    requires CounterOf(quota) in l.counters
  {
    quota.Enforces() &&
    l.counters[CounterOf(quota)].value + ReservedSum(l, CounterOf(quota)) + amount > quota.hardLimit.value
  }

  /** `reserve` after its argument checks: one transaction under the organization-metric lock. */
  ghost function ReserveTx(
    l: Ledger, quota: EffectiveQuota, amount: int, idempotencyKey: string, now: int, inventory: int)
    : (Ledger, ReserveOutcome)
  {
    var c := CounterOf(quota);
    var k := Key(quota.lock, idempotencyKey);
    var l1 := Expire(Upsert(l, quota, inventory), Some(c), now);
    if k in l1.reservations && l1.reservations[k].amount != amount then
      (l, AmountMismatch)   // the throw rolls the whole transaction back
    else if k in l1.reservations && (l1.reservations[k].status == Reserved || l1.reservations[k].status == Committed) then
      (l1, AlreadyReserved)
    else if OverLimit(l1, quota, amount) then
      (l1, Exceeded(l1.counters[c].value + ReservedSum(l1, c), quota.hardLimit.value, quota.periodEnd))
    else
      (l1.(reservations := l1.reservations[
         k := Reservation(c, amount, Reserved, now + RESERVATION_TTL_MS, None, None)]), NewlyReserved)
  }

  ghost function ReserveSpec(
    l: Ledger, quota: EffectiveQuota, amount: int, idempotencyKey: string, now: int, inventory: int)
    : (Ledger, ReserveOutcome)
  {
    if amount <= 0 then (l, InvalidAmount)
    else if IsBlank(idempotencyKey) then (l, MissingKey)
    else ReserveTx(l, quota, amount, idempotencyKey, now, inventory)
  }

  function Release(l: Ledger, k: Key, now: int): Ledger {
    if k in l.reservations && l.reservations[k].status == Reserved then
      l.(reservations := l.reservations[k := l.reservations[k].(status := Released, releasedAt := Some(now))])
    else l
  }

  function Increment(l: Ledger, c: CounterId, amount: int): Ledger
    requires c in l.counters
  {
    var row := l.counters[c];
    l.(counters := l.counters[c := row.(value := row.value + amount, version := row.version + 1)])
  }

  predicate Reached(usage: int, limit: int, threshold: int) {
    usage * 100 >= limit * threshold
  }

  /** `createMany` with `skipDuplicates`, and one audit row when it did insert. */
  function RecordThreshold(l: Ledger, key: ThresholdKey, usage: int, limit: int, now: int): Ledger {
    if Reached(usage, limit, key.threshold) && key !in l.thresholds then
      l.(thresholds := l.thresholds[key := ThresholdEvent(usage, limit, now)],
         thresholdAudits := l.thresholdAudits + multiset{key})
    else l
  }

  /** `thresholds`: at most the 80 and the 90 percent event of the counter's period. */
  function Thresholds(l: Ledger, c: CounterId, now: int): Ledger
    requires c in l.counters
  {
    var row := l.counters[c];
    if row.hardLimit.None? || row.hardLimit.value <= 0 then l
    else
      var limit := row.hardLimit.value;
      RecordThreshold(RecordThreshold(l, ThresholdKey(c, 80), row.value, limit, now),
                      ThresholdKey(c, 90), row.value, limit, now)
  }

  function MarkCommitted(l: Ledger, k: Key, now: int): Ledger
    requires k in l.reservations
  {
    l.(reservations := l.reservations[k := l.reservations[k].(status := Committed, committedAt := Some(now))])
  }

  /** Every row's counter exists: the foreign key of `usage_reservations`. */
  predicate CountersExist(l: Ledger) {
    forall k | k in l.reservations :: l.reservations[k].counter in l.counters
  }

  /** One turn of the loop of `commitReservations`. */
  function CommitOne(l: Ledger, k: Key, now: int): (r: (Ledger, CommitOutcome))
    requires CountersExist(l)
    ensures CountersExist(r.0)
  {
    if k !in l.reservations then (l, Missing)
    else
      var row := l.reservations[k];
      if row.status != Reserved then (l, Idempotent(row.status == Committed))
      else
        var l1 := Increment(l, row.counter, row.amount);
        (Thresholds(MarkCommitted(l1, k, now), row.counter, now), NowCommitted(l1.counters[row.counter].value))
  }

  function CommitAll(l: Ledger, keys: seq<Key>, now: int): (r: (Ledger, seq<CommitOutcome>))
    requires CountersExist(l)
    ensures CountersExist(r.0)
  {
    if keys == [] then (l, [])
    else
      var (l1, done) := CommitAll(l, keys[..|keys| - 1], now);
      var (l2, last) := CommitOne(l1, keys[|keys| - 1], now);
      (l2, done + [last])
  }

  /** `synchronizeInventory` and the reconciliation job; an event metric is refused. */
  function SyncInventory(l: Ledger, quota: EffectiveQuota, inventory: int): Ledger {
    var id := CounterOf(quota);
    if IsEvent(quota.lock.metric) then l
    else if id in l.counters then
      l.(counters := l.counters[id := l.counters[id].(value := inventory, version := l.counters[id].version + 1)])
    else Upsert(l, quota, inventory)
  }

  // ---------------------------------------------------------------------------------------------
  // The service, on its tables
  // ---------------------------------------------------------------------------------------------

  /** `new Set(ids)` without the nulls: the first occurrence of each, in order. */
  function Distinct(ids: seq<Option<Key>>): (r: seq<Key>)
    ensures forall k :: k in r <==> Some(k) in ids
    ensures forall i, j | 0 <= i < j < |r| :: r[i] != r[j]
  {
    if ids == [] then []
    else
      var rest := Distinct(ids[..|ids| - 1]);
      var last := ids[|ids| - 1];
      if last.None? || last.value in rest then rest else rest + [last.value]
  }

  class QuotaService {
    var counters: map<CounterId, Counter>
    var reservations: map<Key, Reservation>
    var thresholdEvents: map<ThresholdKey, ThresholdEvent>
    var thresholdAudits: multiset<ThresholdKey>

    function State(): Ledger
      reads this
    {
      Ledger(counters, reservations, thresholdEvents, thresholdAudits)
    }

    constructor ()
      ensures State() == EMPTY
    {
      counters, reservations, thresholdEvents, thresholdAudits := map[], map[], map[], multiset{};
    }

    method Reserve(quota: EffectiveQuota, amount: int, idempotencyKey: string, now: int, inventory: int)
      returns (outcome: ReserveOutcome)
      modifies this
      ensures (State(), outcome) == ReserveSpec(old(State()), quota, amount, idempotencyKey, now, inventory)
    {
      if amount <= 0 { return InvalidAmount; }
      if IsBlank(idempotencyKey) { return MissingKey; }
      var savedCounters, savedReservations := counters, reservations;
      UpsertCounter(quota, inventory);
      var c := CounterOf(quota);
      ExpireTimedOut(Some(c), now);
      var k := Key(quota.lock, idempotencyKey);
      if k in reservations && reservations[k].amount != amount {
        counters, reservations := savedCounters, savedReservations;
        return AmountMismatch;
      }
      if k in reservations && (reservations[k].status == Reserved || reservations[k].status == Committed) {
        return AlreadyReserved;
      }
      var reserved := SumReserved(c);
      var projected := counters[c].value + reserved + amount;
      if quota.enabled && !quota.unlimited && quota.hardLimit.Some? && projected > quota.hardLimit.value {
        return Exceeded(counters[c].value + reserved, quota.hardLimit.value, quota.periodEnd);
      }
      if k in reservations {
        reservations := reservations[k := reservations[k].(
          counter := c, amount := amount, status := Reserved, expiresAt := now + RESERVATION_TTL_MS,
          committedAt := None, releasedAt := None)];
      } else {
        reservations := reservations[k := Reservation(c, amount, Reserved, now + RESERVATION_TTL_MS, None, None)];
      }
      return NewlyReserved;
    }

    method UpsertCounter(quota: EffectiveQuota, inventory: int)
      modifies this
      ensures State() == Upsert(old(State()), quota, inventory)
    {
      var id := CounterOf(quota);
      if id in counters {
        counters := counters[id := counters[id].(
          periodEnd := quota.periodEnd, softLimit := quota.softLimit, hardLimit := quota.hardLimit,
          resetPeriod := quota.resetPeriod, state := quota.state)];
      } else {
        var baseline := if IsEvent(quota.lock.metric) then 0 else inventory;
        counters := counters[id := Counter(
          quota.periodEnd, baseline, quota.softLimit, quota.hardLimit, quota.resetPeriod, quota.state, 1)];
      }
    }

    /** Row by row, as the database applies `updateMany`. */
    method ExpireTimedOut(only: Option<CounterId>, now: int)
      modifies this
      ensures State() == Expire(old(State()), only, now)
    {
      var rest := reservations.Keys;
      while rest != {}
        invariant rest <= reservations.Keys == old(reservations).Keys
        invariant counters == old(counters) && thresholdEvents == old(thresholdEvents)
        invariant thresholdAudits == old(thresholdAudits)
        invariant forall k | k in rest :: reservations[k] == old(reservations)[k]
        invariant forall k | k in reservations.Keys - rest ::
          reservations[k] == ExpireRow(old(reservations)[k], only, now)
        decreases rest
      {
        var k :| k in rest;
        var row := reservations[k];
        if row.status == Reserved && row.expiresAt <= now && (only.None? || row.counter == only.value) {
          reservations := reservations[k := row.(status := Expired, releasedAt := Some(now))];
        }
        rest := rest - {k};
      }
      assert reservations == Expire(old(State()), only, now).reservations;
    }

    method SumReserved(c: CounterId) returns (sum: int)
      ensures sum == ReservedSum(State(), c)
    {
      sum := 0;
      var rest := reservations.Keys;
      ghost var left := ReservedRows(State(), c);
      while rest != {}
        invariant rest <= reservations.Keys && left.Keys == rest
        invariant forall k | k in rest :: left[k] == ReservedRows(State(), c)[k]
        invariant sum + Total(left) == ReservedSum(State(), c)
        decreases rest
      {
        var k :| k in rest;
        TotalRemove(left, k);
        if reservations[k].counter == c && reservations[k].status == Reserved {
          sum := sum + reservations[k].amount;
        }
        rest, left := rest - {k}, left - {k};
      }
    }

    method CommitReservations(ids: seq<Option<Key>>, now: int) returns (results: seq<CommitOutcome>)
      requires CountersExist(State())
      modifies this
      ensures (State(), results) == CommitAll(old(State()), Distinct(ids), now)
    {
      results := [];
      var keys := Distinct(ids);
      var i := 0;
      while i < |keys|
        invariant 0 <= i <= |keys|
        invariant (State(), results) == CommitAll(old(State()), keys[..i], now)
      {
        assert keys[..i + 1][..i] == keys[..i];
        var done := CommitReserved(keys[i], now);
        results := results + [done];
        i := i + 1;
      }
      assert keys[..i] == keys;
    }

    method CommitReserved(k: Key, now: int) returns (outcome: CommitOutcome)
      requires CountersExist(State())
      modifies this
      ensures (State(), outcome) == CommitOne(old(State()), k, now)
    {
      if k !in reservations { return Missing; }
      var current := reservations[k];
      if current.status != Reserved { return Idempotent(current.status == Committed); }
      var row := counters[current.counter];
      counters := counters[current.counter := row.(value := row.value + current.amount, version := row.version + 1)];
      reservations := reservations[k := current.(status := Committed, committedAt := Some(now))];
      assert State() == MarkCommitted(Increment(old(State()), current.counter, current.amount), k, now);
      RecordThresholds(current.counter, now);
      return NowCommitted(row.value + current.amount);
    }

    method RecordThresholds(c: CounterId, now: int)
      requires c in counters
      modifies this
      ensures State() == Thresholds(old(State()), c, now)
    {
      var usage, limit := counters[c].value, counters[c].hardLimit;
      if limit.None? || limit.value <= 0 { return; }
      var levels := [80, 90];
      var i := 0;
      while i < 2
        invariant 0 <= i <= 2
        invariant counters == old(counters) && reservations == old(reservations)
        invariant State() ==
          if i == 0 then old(State())
          else if i == 1 then RecordThreshold(old(State()), ThresholdKey(c, 80), usage, limit.value, now)
          else Thresholds(old(State()), c, now)
      {
        var key := ThresholdKey(c, levels[i]);
        if usage * 100 >= limit.value * levels[i] {
          if key !in thresholdEvents {
            thresholdEvents := thresholdEvents[key := ThresholdEvent(usage, limit.value, now)];
            thresholdAudits := thresholdAudits + multiset{key};
          }
        }
        i := i + 1;
      }
    }

    method ReleaseReservation(k: Key, now: int) returns (released: bool)
      modifies this
      ensures State() == Release(old(State()), k, now)
      ensures released <==> k in old(reservations) && old(reservations)[k].status == Reserved
    {
      released := k in reservations && reservations[k].status == Reserved;
      if released {
        reservations := reservations[k := reservations[k].(status := Released, releasedAt := Some(now))];
      }
    }

    method SynchronizeInventory(quota: EffectiveQuota, inventory: int) returns (isInventory: bool)
      modifies this
      ensures State() == SyncInventory(old(State()), quota, inventory)
      ensures isInventory <==> !IsEvent(quota.lock.metric)
    {
      isInventory := !IsEvent(quota.lock.metric);
      if !isInventory { return; }
      var id := CounterOf(quota);
      if id in counters {
        counters := counters[id := counters[id].(value := inventory, version := counters[id].version + 1)];
      } else {
        UpsertCounter(quota, inventory);
      }
    }
  }
}
