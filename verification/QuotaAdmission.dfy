/** What each ledger transaction answers and writes, stated on the rows alone. */
module QuotaAdmission {
  import opened Prelude
  import opened Totals
  import opened QuotaTypes
  import opened QuotaLedger
  import QuotaInterleaving

  /** The usage a `reserve` starts from: the counter's, or what a new counter begins with. */
  function UsageBefore(l: Ledger, quota: EffectiveQuota, inventory: int): int {
    var c := CounterId(quota.lock, quota.periodStart);
    if c in l.counters then l.counters[c].value
    else if quota.lock.metric in {ActiveUsers, Files, StorageBytes} then inventory
    else 0
  }

  /** The amounts on a counter that are RESERVED and not yet late; all other rows count zero. */
  function LiveAmounts(l: Ledger, c: CounterId, now: int): map<Key, int> {
    map k | k in l.reservations :: LiveAmount(l.reservations[k], c, now)
  }

  function LiveAmount(r: Reservation, c: CounterId, now: int): int {
    if r.counter == c && r.status == Reserved && now < r.expiresAt then r.amount else 0
  }

  /** A row that stands in the way of reserving its key again on counter `c`. */
  predicate InForce(r: Reservation, c: CounterId, now: int) {
    r.status == Committed || (r.status == Reserved && (r.counter != c || now < r.expiresAt))
  }

  /** The key is free for this amount: no row, or one of that amount no longer in force. */
  predicate Free(l: Ledger, k: Key, c: CounterId, amount: int, now: int) {
    k in l.reservations ==> l.reservations[k].amount == amount && !InForce(l.reservations[k], c, now)
  }

  predicate Fits(quota: EffectiveQuota, projected: int) {
    !quota.enabled || quota.unlimited || quota.hardLimit.None? || projected <= quota.hardLimit.value
  }

  lemma LiveIsReserved(l: Ledger, quota: EffectiveQuota, now: int, inventory: int)
    ensures var c := CounterOf(quota);
      ReservedRows(Expire(Upsert(l, quota, inventory), Some(c), now), c) == LiveAmounts(l, c, now)
  {
  }

  /**
   A key that is free is reserved exactly when the quota does not limit or usage, live reservations and
   the amount together are at most the limit; otherwise the answer tells current usage and limit.
   */
  lemma FreeKeyExactly(l: Ledger, quota: EffectiveQuota, amount: int, key: string, now: int, inventory: int)
    requires 0 < amount && !IsBlank(key)
    requires Free(l, Key(quota.lock, key), CounterId(quota.lock, quota.periodStart), amount, now)
    ensures var c, outcome := CounterId(quota.lock, quota.periodStart), ReserveSpec(l, quota, amount, key, now, inventory).1;
      var current := UsageBefore(l, quota, inventory) + Total(LiveAmounts(l, c, now));
      && (outcome == NewlyReserved <==> Fits(quota, current + amount))
      && (!Fits(quota, current + amount) ==> outcome == Exceeded(current, quota.hardLimit.value, quota.periodEnd))
  {
    LiveIsReserved(l, quota, now, inventory);
  }

  /** A key in force is never reserved twice, and never under another amount; a bad request changes nothing. */
  lemma OtherAnswersExactly(l: Ledger, quota: EffectiveQuota, amount: int, key: string, now: int, inventory: int)
    ensures var k, c := Key(quota.lock, key), CounterId(quota.lock, quota.periodStart);
      var (l', outcome) := ReserveSpec(l, quota, amount, key, now, inventory);
      && (outcome == InvalidAmount <==> amount <= 0)
      && (outcome == MissingKey <==> 0 < amount && IsBlank(key))
      && (outcome == AmountMismatch <==>
            0 < amount && !IsBlank(key) && k in l.reservations && l.reservations[k].amount != amount)
      && (outcome == AlreadyReserved <==>
            0 < amount && !IsBlank(key) && k in l.reservations && l.reservations[k].amount == amount
            && InForce(l.reservations[k], c, now))
      && (outcome in {InvalidAmount, MissingKey, AmountMismatch} ==> l' == l)
      && (outcome == AlreadyReserved ==> k in l'.reservations && l'.reservations[k] == l.reservations[k])
  {
  }

  /** What a `reserve` that is not refused as a bad request writes to its counter and to every row. */
  lemma ReserveWrites(l: Ledger, quota: EffectiveQuota, amount: int, key: string, now: int, inventory: int, j: Key)
    requires ReserveSpec(l, quota, amount, key, now, inventory).1 !in {InvalidAmount, MissingKey, AmountMismatch}
    ensures var k, c := Key(quota.lock, key), CounterId(quota.lock, quota.periodStart);
      var (l', outcome) := ReserveSpec(l, quota, amount, key, now, inventory);
      && l'.counters.Keys == l.counters.Keys + {c}
      && l'.counters[c] == Counter(
           quota.periodEnd, UsageBefore(l, quota, inventory), quota.softLimit, quota.hardLimit, quota.resetPeriod,
           quota.state, if c in l.counters then l.counters[c].version else 1)
      && (forall d | d in l.counters && d != c :: l'.counters[d] == l.counters[d])
      && (outcome == NewlyReserved ==>
            k in l'.reservations
            && l'.reservations[k] == Reservation(c, amount, Reserved, now + 900000, None, None))
      && (j in l.reservations && (j != k || outcome != NewlyReserved) ==>
            var r := l.reservations[j];
            j in l'.reservations && l'.reservations[j] ==
              if r.counter == c && r.status == Reserved && r.expiresAt <= now
              then r.(status := Expired, releasedAt := Some(now)) else r)
      && (j !in l.reservations && (j != k || outcome != NewlyReserved) ==> j !in l'.reservations)
  {
  }

  /** A committed row's amount joins usage, and the answer tells usage as it then is. */
  lemma CommitExactly(l: Ledger, k: Key, now: int)
    requires CountersExist(l)
    ensures var (l', outcome) := CommitOne(l, k, now);
      && (k !in l.reservations ==> outcome == Missing && l' == l)
      && (k in l.reservations && l.reservations[k].status != Reserved ==>
            l' == l && outcome == Idempotent(l.reservations[k].status == Committed))
      && (k in l.reservations && l.reservations[k].status == Reserved ==>
            var r := l.reservations[k];
            var row := l.counters[r.counter];
            && outcome == NowCommitted(row.value + r.amount)
            && l'.counters == l.counters[r.counter := row.(value := row.value + r.amount, version := row.version + 1)]
            && l'.reservations == l.reservations[k := r.(status := Committed, committedAt := Some(now))])
  {
    if k in l.reservations && l.reservations[k].status == Reserved {
      var r := l.reservations[k];
      QuotaInterleaving.ThresholdsOnly(MarkCommitted(Increment(l, r.counter, r.amount), k, now), r.counter, now);
    }
  }

  /** Releasing a reservation gives its amount back: exactly so much more fits under the same limit. */
  lemma ReleaseGivesBack(l: Ledger, k: Key, now: int, c: CounterId)
    requires k in l.reservations && l.reservations[k].status == Reserved
    ensures var l', r := Release(l, k, now), l.reservations[k];
      && l'.counters == l.counters && l'.reservations == l.reservations[k := r.(status := Released, releasedAt := Some(now))]
      && Total(LiveAmounts(l', c, now)) ==
           Total(LiveAmounts(l, c, now)) - (if r.counter == c && now < r.expiresAt then r.amount else 0)
      && Free(l', k, c, r.amount, now)
  {
    var l' := Release(l, k, now);
    assert LiveAmounts(l', c, now) == LiveAmounts(l, c, now)[k := 0];
    TotalUpdate(LiveAmounts(l, c, now), k, 0);
  }

  /** A row that is not RESERVED is not released. */
  lemma ReleaseOnlyReserved(l: Ledger, k: Key, now: int)
    requires k in l.reservations ==> l.reservations[k].status != Reserved
    ensures Release(l, k, now) == l
  {
  }

  /** An inventory counter shows the counted inventory and its reservations stay; an event metric changes nothing. */
  lemma SyncExactly(l: Ledger, quota: EffectiveQuota, inventory: int)
    ensures var l', c := SyncInventory(l, quota, inventory), CounterId(quota.lock, quota.periodStart);
      && l'.reservations == l.reservations
      && (quota.lock.metric in {ActiveUsers, Files, StorageBytes} ==>
            && c in l'.counters && l'.counters[c].value == inventory
            && (forall d | d in l.counters && d != c :: d in l'.counters && l'.counters[d] == l.counters[d])
            && l'.counters[c].version == if c in l.counters then l.counters[c].version + 1 else 1)
      && (quota.lock.metric !in {ActiveUsers, Files, StorageBytes} ==> l' == l)
  {
  }

  /** A threshold check writes an event exactly for each of 80 and 90 percent reached and not yet recorded. */
  lemma ThresholdsWrite(l: Ledger, c: CounterId, now: int, key: ThresholdKey)
    requires c in l.counters
    ensures var l', row := Thresholds(l, c, now), l.counters[c];
      var due := key.counter == c && key.threshold in {80, 90} && key !in l.thresholds
        && row.hardLimit.Some? && 0 < row.hardLimit.value && row.value * 100 >= row.hardLimit.value * key.threshold;
      && (key in l'.thresholds <==> key in l.thresholds || due)
      && (due ==> l'.thresholds[key] == ThresholdEvent(row.value, row.hardLimit.value, now))
      && (key in l.thresholds ==> l'.thresholds[key] == l.thresholds[key])
      && l'.thresholdAudits[key] == l.thresholdAudits[key] + if due then 1 else 0
  {
  }
}
