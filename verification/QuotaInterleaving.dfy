/**
 Concurrent quota requests on one ledger. `reserve` and inventory synchronization are atomic under
 their lock; a commit is split into lock, read, increment and mark; releases and the scheduler's
 expiry sweep take no lock and fall anywhere between those.
 */
module QuotaInterleaving {
  import opened Prelude
  import opened Totals
  import opened QuotaTypes
  import opened QuotaLedger

  /** A reservation a commit transaction has read as RESERVED, with the values it read. */
  datatype Claim = Claim(tx: nat, counter: CounterId, amount: int, incremented: bool)

  datatype World = World(ledger: Ledger, held: map<LockId, nat>, claims: map<Key, Claim>)

  const INITIAL := World(EMPTY, map[], map[])

  datatype Action =
    | DoReserve(quota: EffectiveQuota, amount: int, idempotencyKey: string, now: int, inventory: int)
    | DoSync(quota: EffectiveQuota, inventory: int)
    | DoRelease(key: Key, now: int)
    | DoSweep(now: int)
    | TakeLock(tx: nat, lock: LockId)
    | ReadRow(tx: nat, key: Key)
    | AddUsage(tx: nat, key: Key)
    | Mark(tx: nat, key: Key, now: int)
    | EndCommit(tx: nat)

  /** One atomic step; an action that is not enabled leaves the world as it is. */
  ghost function Step(w: World, a: Action): World {
    match a
    case DoReserve(quota, amount, key, now, inventory) =>
      if quota.lock in w.held then w
      else w.(ledger := ReserveSpec(w.ledger, quota, amount, key, now, inventory).0)
    case DoSync(quota, inventory) =>
      if quota.lock in w.held then w else w.(ledger := SyncInventory(w.ledger, quota, inventory))
    case DoRelease(key, now) => w.(ledger := Release(w.ledger, key, now))
    case DoSweep(now) => w.(ledger := Expire(w.ledger, None, now))
    case TakeLock(tx, lock) => if lock in w.held then w else w.(held := w.held[lock := tx])
    case ReadRow(tx, k) =>
      if k in w.ledger.reservations && k !in w.claims && w.ledger.reservations[k].status == Reserved
         && k.lock in w.held && w.held[k.lock] == tx
      then
        var row := w.ledger.reservations[k];
        w.(claims := w.claims[k := Claim(tx, row.counter, row.amount, false)])
      else w
    case AddUsage(tx, k) =>
      if k in w.claims && w.claims[k].tx == tx && !w.claims[k].incremented && w.claims[k].counter in w.ledger.counters then
        w.(ledger := Increment(w.ledger, w.claims[k].counter, w.claims[k].amount),
           claims := w.claims[k := w.claims[k].(incremented := true)])
      else w
    case Mark(tx, k, now) =>
      if k in w.claims && w.claims[k].tx == tx && w.claims[k].incremented
         && k in w.ledger.reservations && w.claims[k].counter in w.ledger.counters
      then
        w.(ledger := Thresholds(MarkCommitted(w.ledger, k, now), w.claims[k].counter, now), claims := w.claims - {k})
      else w
    case EndCommit(tx) =>
      // The end of the transaction, or its crash before it wrote anything.
      if exists k | k in w.claims :: w.claims[k].tx == tx && w.claims[k].incremented then w
      else
        w.(held := map l | l in w.held && w.held[l] != tx :: w.held[l],
           claims := map k | k in w.claims && w.claims[k].tx != tx :: w.claims[k])
  }

  ghost function Run(w: World, actions: seq<Action>): World {
    if actions == [] then w else Step(Run(w, actions[..|actions| - 1]), actions[|actions| - 1])
  }

  // ---------------------------------------------------------------------------------------------
  // Soundness of the rows
  // ---------------------------------------------------------------------------------------------

  ghost predicate RowSound(l: Ledger, k: Key, r: Reservation) {
    r.counter in l.counters && r.counter.lock == k.lock && r.amount > 0
  }

  /** The row is still as the commit read it, not committed, and its lock is held by that commit. */
  ghost predicate ClaimSound(w: World, k: Key, claim: Claim) {
    && k in w.ledger.reservations
    && claim.counter == w.ledger.reservations[k].counter
    && claim.amount == w.ledger.reservations[k].amount
    && w.ledger.reservations[k].status != Committed
    && k.lock in w.held && w.held[k.lock] == claim.tx
  }

  ghost predicate Sound(w: World) {
    && (forall k | k in w.ledger.reservations :: RowSound(w.ledger, k, w.ledger.reservations[k]))
    && (forall k | k in w.claims :: ClaimSound(w, k, w.claims[k]))
  }

  ghost predicate RowKept(r: Reservation, r': Reservation) {
    r'.amount == r.amount && (r.status == Committed ==> r'.status == Committed && r'.counter == r.counter)
  }

  /** No row disappears or changes its amount, and COMMITTED is absorbing, on the same counter. */
  ghost predicate RowsKept(w: World, w': World) {
    && w.ledger.counters.Keys <= w'.ledger.counters.Keys
    && (forall k | k in w.ledger.reservations ::
          k in w'.ledger.reservations && RowKept(w.ledger.reservations[k], w'.ledger.reservations[k]))
  }

  ghost predicate Keeps(w: World, w': World) {
    Sound(w') && RowsKept(w, w')
  }

  lemma KeepsTransitive(w: World, w': World, w'': World)
    requires Keeps(w, w') && Keeps(w', w'')
    ensures Keeps(w, w'')
  {
    forall k | k in w.ledger.reservations
      ensures k in w''.ledger.reservations && RowKept(w.ledger.reservations[k], w''.ledger.reservations[k])
    {
      assert RowKept(w.ledger.reservations[k], w'.ledger.reservations[k]);
    }
  }

  lemma UpsertSound(w: World, quota: EffectiveQuota, inventory: int)
    requires Sound(w)
    ensures Keeps(w, w.(ledger := Upsert(w.ledger, quota, inventory)))
  {
  }

  lemma ExpireSound(w: World, only: Option<CounterId>, now: int)
    requires Sound(w)
    ensures Keeps(w, w.(ledger := Expire(w.ledger, only, now)))
  {
  }

  function PutRow(w: World, k: Key, row: Reservation): World {
    w.(ledger := w.ledger.(reservations := w.ledger.reservations[k := row]))
  }

  lemma PutRowSound(w: World, k: Key, row: Reservation)
    requires Sound(w) && RowSound(w.ledger, k, row)
    requires k in w.ledger.reservations ==> RowKept(w.ledger.reservations[k], row)
    requires k in w.claims ==>
      k in w.ledger.reservations && row.counter == w.ledger.reservations[k].counter && row.status != Committed
    ensures Keeps(w, PutRow(w, k, row))
  {
  }

  /** The ledger inside `reserve` when it has refreshed its counter and expired the late rows. */
  function Prepared(w: World, a: Action): World
    requires a.DoReserve?
  {
    w.(ledger := Expire(Upsert(w.ledger, a.quota, a.inventory), Some(CounterOf(a.quota)), a.now))
  }

  function NewRow(a: Action): Reservation
    requires a.DoReserve?
  {
    Reservation(CounterOf(a.quota), a.amount, Reserved, a.now + RESERVATION_TTL_MS, None, None)
  }

  function ReserveKey(a: Action): Key
    requires a.DoReserve?
  {
    Key(a.quota.lock, a.idempotencyKey)
  }

  ghost function OutcomeOf(w: World, a: Action): ReserveOutcome
    requires a.DoReserve?
  {
    ReserveSpec(w.ledger, a.quota, a.amount, a.idempotencyKey, a.now, a.inventory).1
  }

  /** `reserve` is nothing, or its preparation, or its preparation and one row put in. */
  lemma ReserveCases(w: World, a: Action)
    requires a.DoReserve?
    ensures Step(w, a) == w || Step(w, a) == Prepared(w, a)
      || Step(w, a) == PutRow(Prepared(w, a), ReserveKey(a), NewRow(a))
    ensures OutcomeOf(w, a) != NewlyReserved ==> Step(w, a) == w || Step(w, a) == Prepared(w, a)
    ensures OutcomeOf(w, a) == NewlyReserved && a.quota.lock !in w.held ==>
      var w2 := Prepared(w, a);
      && Step(w, a) == PutRow(w2, ReserveKey(a), NewRow(a))
      && a.amount > 0 && !OverLimit(w2.ledger, a.quota, a.amount)
      && (ReserveKey(a) in w2.ledger.reservations ==>
            w2.ledger.reservations[ReserveKey(a)].amount == a.amount
            && w2.ledger.reservations[ReserveKey(a)].status != Reserved
            && w2.ledger.reservations[ReserveKey(a)].status != Committed)
  {
  }

  lemma PreparedSound(w: World, a: Action)
    requires Sound(w) && a.DoReserve?
    ensures Keeps(w, Prepared(w, a))
  {
    var w1 := w.(ledger := Upsert(w.ledger, a.quota, a.inventory));
    UpsertSound(w, a.quota, a.inventory);
    ExpireSound(w1, Some(CounterOf(a.quota)), a.now);
    KeepsTransitive(w, w1, Prepared(w, a));
  }

  lemma ReserveSound(w: World, a: Action)
    requires Sound(w) && a.DoReserve?
    ensures Keeps(w, Step(w, a))
  {
    ReserveCases(w, a);
    PreparedSound(w, a);
    if a.quota.lock !in w.held && OutcomeOf(w, a) == NewlyReserved {
      PutRowSound(Prepared(w, a), ReserveKey(a), NewRow(a));
      KeepsTransitive(w, Prepared(w, a), Step(w, a));
    }
  }

  lemma ReleaseSound(w: World, k: Key, now: int)
    requires Sound(w)
    ensures Keeps(w, Step(w, DoRelease(k, now)))
  {
    if Step(w, DoRelease(k, now)) != w {
      PutRowSound(w, k, w.ledger.reservations[k].(status := Released, releasedAt := Some(now)));
    }
  }

  lemma SyncSound(w: World, quota: EffectiveQuota, inventory: int)
    requires Sound(w)
    ensures Keeps(w, Step(w, DoSync(quota, inventory)))
  {
    UpsertSound(w, quota, inventory);
  }

  lemma ReadSound(w: World, tx: nat, k: Key)
    requires Sound(w)
    ensures Keeps(w, Step(w, ReadRow(tx, k)))
  {
  }

  lemma AddUsageSound(w: World, tx: nat, k: Key)
    requires Sound(w)
    ensures Keeps(w, Step(w, AddUsage(tx, k)))
  {
  }

  lemma MarkSound(w: World, tx: nat, k: Key, now: int)
    requires Sound(w)
    ensures Keeps(w, Step(w, Mark(tx, k, now)))
  {
    if Step(w, Mark(tx, k, now)) != w {
      assert ClaimSound(w, k, w.claims[k]);
      var w1 := w.(claims := w.claims - {k});
      PutRowSound(w1, k, w.ledger.reservations[k].(status := Committed, committedAt := Some(now)));
    }
  }

  lemma EndSound(w: World, tx: nat)
    requires Sound(w)
    ensures Keeps(w, Step(w, EndCommit(tx)))
  {
    var w' := Step(w, EndCommit(tx));
    if w' != w {
      forall k | k in w'.claims ensures ClaimSound(w', k, w'.claims[k]) {
        assert ClaimSound(w, k, w.claims[k]);
      }
    }
  }

  lemma StepSound(w: World, a: Action)
    requires Sound(w)
    ensures Keeps(w, Step(w, a))
  {
    match a
    case DoReserve(_, _, _, _, _) => ReserveSound(w, a);
    case DoSync(quota, inventory) => SyncSound(w, quota, inventory);
    case DoRelease(k, now) => ReleaseSound(w, k, now);
    case DoSweep(now) => ExpireSound(w, None, now);
    case TakeLock(_, _) =>
    case ReadRow(tx, k) => ReadSound(w, tx, k);
    case AddUsage(tx, k) => AddUsageSound(w, tx, k);
    case Mark(tx, k, now) => MarkSound(w, tx, k, now);
    case EndCommit(tx) => EndSound(w, tx);
  }

  // ---------------------------------------------------------------------------------------------
  // Conservation and exposure of one counter
  // ---------------------------------------------------------------------------------------------

  function ClaimOn(w: World, k: Key): Option<Claim> {
    if k in w.claims then Some(w.claims[k]) else None
  }

  predicate Added(claim: Option<Claim>) {
    claim.Some? && claim.value.incremented
  }

  /** The row's amount if the counter's value already contains it. */
  function CountedAmount(r: Reservation, claim: Option<Claim>, c: CounterId): int {
    if r.counter == c && (r.status == Committed || Added(claim)) then r.amount else 0
  }

  /** The row's amount if it may still be added: it is RESERVED, or a commit has read it so. */
  function PendingAmount(r: Reservation, claim: Option<Claim>, c: CounterId): int {
    if r.counter == c && !Added(claim) && (r.status == Reserved || claim.Some?) then r.amount else 0
  }

  function Counted(w: World, c: CounterId): map<Key, int> {
    map k | k in w.ledger.reservations :: CountedAmount(w.ledger.reservations[k], ClaimOn(w, k), c)
  }

  function Pending(w: World, c: CounterId): map<Key, int> {
    map k | k in w.ledger.reservations :: PendingAmount(w.ledger.reservations[k], ClaimOn(w, k), c)
  }

  /** Usage already counted plus everything that may still be added to it. */
  ghost function Exposure(w: World, c: CounterId): int
    requires c in w.ledger.counters
  {
    w.ledger.counters[c].value + Total(Pending(w, c))
  }

  /** How far a counter's value is from the amounts it should stand for. */
  ghost function Drift(w: World, c: CounterId): int
    requires c in w.ledger.counters
  {
    w.ledger.counters[c].value - Total(Counted(w, c))
  }

  ghost predicate Balanced(w: World, w': World, c: CounterId) {
    && c in w.ledger.counters && c in w'.ledger.counters
    && Drift(w', c) == Drift(w, c) && Exposure(w', c) <= Exposure(w, c)
  }

  ghost predicate SameValue(w: World, w': World, c: CounterId) {
    && c in w.ledger.counters && c in w'.ledger.counters
    && w'.ledger.counters[c].value == w.ledger.counters[c].value
  }

  ghost predicate RowDown(r: Reservation, claim: Option<Claim>, r': Reservation, claim': Option<Claim>, c: CounterId) {
    && CountedAmount(r', claim', c) == CountedAmount(r, claim, c)
    && 0 <= PendingAmount(r', claim', c) <= PendingAmount(r, claim, c)
  }

  ghost predicate RowsDown(w: World, w': World, c: CounterId) {
    && w'.ledger.reservations.Keys == w.ledger.reservations.Keys
    && (forall k | k in w.ledger.reservations ::
          RowDown(w.ledger.reservations[k], ClaimOn(w, k), w'.ledger.reservations[k], ClaimOn(w', k), c))
  }

  lemma TotalsDown(w: World, w': World, c: CounterId)
    requires RowsDown(w, w', c)
    ensures Total(Counted(w', c)) == Total(Counted(w, c))
    ensures Total(Pending(w', c)) <= Total(Pending(w, c))
  {
    assert Counted(w', c) == Counted(w, c);
    TotalCovered(Pending(w', c), Pending(w, c));
  }

  lemma BalancedByRows(w: World, w': World, c: CounterId)
    requires SameValue(w, w', c) && RowsDown(w, w', c)
    ensures Balanced(w, w', c)
  {
    TotalsDown(w, w', c);
  }

  lemma ExpireRowsDown(w: World, only: Option<CounterId>, now: int, c: CounterId)
    requires Sound(w)
    ensures RowsDown(w, w.(ledger := Expire(w.ledger, only, now)), c)
  {
    var w' := w.(ledger := Expire(w.ledger, only, now));
    forall k | k in w.ledger.reservations
      ensures RowDown(w.ledger.reservations[k], ClaimOn(w, k), w'.ledger.reservations[k], ClaimOn(w', k), c)
    {
      assert RowSound(w.ledger, k, w.ledger.reservations[k]);
    }
  }

  lemma UpsertRowsDown(w: World, quota: EffectiveQuota, inventory: int, c: CounterId)
    requires Sound(w)
    ensures RowsDown(w, w.(ledger := Upsert(w.ledger, quota, inventory)), c)
    ensures c in w.ledger.counters ==> SameValue(w, w.(ledger := Upsert(w.ledger, quota, inventory)), c)
  {
    forall k | k in w.ledger.reservations ensures 0 <= PendingAmount(w.ledger.reservations[k], ClaimOn(w, k), c) {
      assert RowSound(w.ledger, k, w.ledger.reservations[k]);
    }
  }

  lemma PutRowTotals(w: World, k: Key, row: Reservation, c: CounterId)
    ensures var w', old_ := PutRow(w, k, row), k in w.ledger.reservations;
      && Total(Counted(w', c)) == Total(Counted(w, c)) + CountedAmount(row, ClaimOn(w, k), c)
           - (if old_ then CountedAmount(w.ledger.reservations[k], ClaimOn(w, k), c) else 0)
      && Total(Pending(w', c)) == Total(Pending(w, c)) + PendingAmount(row, ClaimOn(w, k), c)
           - (if old_ then PendingAmount(w.ledger.reservations[k], ClaimOn(w, k), c) else 0)
  {
    var w' := PutRow(w, k, row);
    assert Counted(w', c) == Counted(w, c)[k := CountedAmount(row, ClaimOn(w, k), c)];
    assert Pending(w', c) == Pending(w, c)[k := PendingAmount(row, ClaimOn(w, k), c)];
    TotalUpdate(Counted(w, c), k, CountedAmount(row, ClaimOn(w, k), c));
    TotalUpdate(Pending(w, c), k, PendingAmount(row, ClaimOn(w, k), c));
  }

  lemma AddUsageRows(w: World, k: Key, c: CounterId)
    requires Sound(w) && k in w.claims
    ensures k in w.ledger.reservations
    ensures var w' := w.(claims := w.claims[k := w.claims[k].(incremented := true)]);
      && Counted(w', c) == Counted(w, c)[k := if w.ledger.reservations[k].counter == c then w.ledger.reservations[k].amount else 0]
      && Pending(w', c) == Pending(w, c)[k := 0]
  {
    assert ClaimSound(w, k, w.claims[k]);
    var w' := w.(claims := w.claims[k := w.claims[k].(incremented := true)]);
    forall j | j in w.ledger.reservations && j != k ensures ClaimOn(w', j) == ClaimOn(w, j) {}
  }

  lemma AddUsageTotals(w: World, k: Key, c: CounterId)
    requires Sound(w) && k in w.claims && !w.claims[k].incremented
    ensures k in w.ledger.reservations
    ensures var w' := w.(claims := w.claims[k := w.claims[k].(incremented := true)]);
      var added := if w.ledger.reservations[k].counter == c then w.ledger.reservations[k].amount else 0;
      Total(Counted(w', c)) == Total(Counted(w, c)) + added && Total(Pending(w', c)) == Total(Pending(w, c)) - added
  {
    assert ClaimSound(w, k, w.claims[k]);
    AddUsageRows(w, k, c);
    TotalUpdate(Counted(w, c), k, if w.ledger.reservations[k].counter == c then w.ledger.reservations[k].amount else 0);
    TotalUpdate(Pending(w, c), k, 0);
  }

  lemma AddUsageBalanced(w: World, tx: nat, k: Key, c: CounterId)
    requires Sound(w) && c in w.ledger.counters
    ensures Balanced(w, Step(w, AddUsage(tx, k)), c)
  {
    var w' := Step(w, AddUsage(tx, k));
    if w' != w {
      assert ClaimSound(w, k, w.claims[k]);
      AddUsageTotals(w, k, c);
      var w1 := w.(claims := w.claims[k := w.claims[k].(incremented := true)]);
      assert Counted(w', c) == Counted(w1, c) && Pending(w', c) == Pending(w1, c);
    }
  }

  lemma MarkRowsDown(w: World, k: Key, now: int, c: CounterId)
    requires Sound(w) && k in w.claims && w.claims[k].incremented
    ensures k in w.ledger.reservations
    ensures RowsDown(w, w.(ledger := MarkCommitted(w.ledger, k, now), claims := w.claims - {k}), c)
  {
    assert ClaimSound(w, k, w.claims[k]);
    var w' := w.(ledger := MarkCommitted(w.ledger, k, now), claims := w.claims - {k});
    forall j | j in w.ledger.reservations
      ensures RowDown(w.ledger.reservations[j], ClaimOn(w, j), w'.ledger.reservations[j], ClaimOn(w', j), c)
    {
      assert RowSound(w.ledger, j, w.ledger.reservations[j]);
      if j != k { assert ClaimOn(w', j) == ClaimOn(w, j); }
    }
  }

  lemma ThresholdsOnly(l: Ledger, c: CounterId, now: int)
    requires c in l.counters
    ensures var l' := Thresholds(l, c, now); l'.reservations == l.reservations && l'.counters == l.counters
  {
  }

  lemma MarkBalanced(w: World, tx: nat, k: Key, now: int, c: CounterId)
    requires Sound(w) && c in w.ledger.counters
    ensures Balanced(w, Step(w, Mark(tx, k, now)), c)
  {
    var w' := Step(w, Mark(tx, k, now));
    if w' == w {
    } else {
      MarkRowsDown(w, k, now, c);
      var w1 := w.(ledger := MarkCommitted(w.ledger, k, now), claims := w.claims - {k});
      ThresholdsOnly(w1.ledger, w.claims[k].counter, now);
      BalancedByRows(w, w1, c);
      SameRowsBalanced(w, w1, w', c);
    }
  }

  lemma SameRowsBalanced(w: World, w1: World, w': World, c: CounterId)
    requires Balanced(w, w1, c) && w'.claims == w1.claims
    requires w'.ledger.counters == w1.ledger.counters && w'.ledger.reservations == w1.ledger.reservations
    ensures Balanced(w, w', c)
  {
    assert Counted(w', c) == Counted(w1, c) && Pending(w', c) == Pending(w1, c);
  }

  lemma ReleaseBalanced(w: World, k: Key, now: int, c: CounterId)
    requires Sound(w) && c in w.ledger.counters
    ensures Balanced(w, Step(w, DoRelease(k, now)), c)
  {
    var w' := Step(w, DoRelease(k, now));
    if w' != w {
      assert RowSound(w.ledger, k, w.ledger.reservations[k]);
      PutRowTotals(w, k, w'.ledger.reservations[k], c);
    }
  }

  lemma ReadBalanced(w: World, tx: nat, k: Key, c: CounterId)
    requires Sound(w) && c in w.ledger.counters
    ensures Balanced(w, Step(w, ReadRow(tx, k)), c)
  {
    var w' := Step(w, ReadRow(tx, k));
    assert Counted(w', c) == Counted(w, c);
    assert Pending(w', c) == Pending(w, c);
  }

  lemma EndBalanced(w: World, tx: nat, c: CounterId)
    requires Sound(w) && c in w.ledger.counters
    ensures Balanced(w, Step(w, EndCommit(tx)), c)
  {
    var w' := Step(w, EndCommit(tx));
    forall j | j in w.ledger.reservations
      ensures RowDown(w.ledger.reservations[j], ClaimOn(w, j), w'.ledger.reservations[j], ClaimOn(w', j), c)
    {
      assert RowSound(w.ledger, j, w.ledger.reservations[j]);
    }
    BalancedByRows(w, w', c);
  }

  lemma PreparedBalanced(w: World, a: Action, c: CounterId)
    requires Sound(w) && a.DoReserve? && c in w.ledger.counters
    ensures Balanced(w, Prepared(w, a), c)
  {
    var w1 := w.(ledger := Upsert(w.ledger, a.quota, a.inventory));
    UpsertRowsDown(w, a.quota, a.inventory, c);
    BalancedByRows(w, w1, c);
    UpsertSound(w, a.quota, a.inventory);
    ExpireRowsDown(w1, Some(CounterOf(a.quota)), a.now, c);
    BalancedByRows(w1, Prepared(w, a), c);
  }

  /** The counter a `reserve` has just created stands at its baseline and nothing is pending on it. */
  lemma PreparedNew(w: World, a: Action)
    requires Sound(w) && a.DoReserve? && CounterOf(a.quota) !in w.ledger.counters
    ensures var w', c := Prepared(w, a), CounterOf(a.quota);
      && w'.ledger.counters[c].value == Baseline(a.quota.lock.metric, a.inventory)
      && Total(Counted(w', c)) == 0 && Total(Pending(w', c)) == 0
  {
    var w', c := Prepared(w, a), CounterOf(a.quota);
    forall k | k in w'.ledger.reservations ensures w'.ledger.reservations[k].counter != c {
      assert RowSound(w.ledger, k, w.ledger.reservations[k]);
    }
    TotalZero(Counted(w', c));
    TotalZero(Pending(w', c));
  }

  /** Putting in a row that is neither RESERVED nor COMMITTED nor being committed: pending only. */
  lemma ReservedRowTotals(w: World, a: Action, c: CounterId)
    requires Sound(w) && a.DoReserve? && a.quota.lock !in w.held && OutcomeOf(w, a) == NewlyReserved
    ensures var w2, w' := Prepared(w, a), Step(w, a);
      && Total(Counted(w', c)) == Total(Counted(w2, c))
      && Total(Pending(w', c)) == Total(Pending(w2, c)) + if c == CounterOf(a.quota) then a.amount else 0
  {
    var w2, k := Prepared(w, a), ReserveKey(a);
    ReserveCases(w, a);
    PreparedSound(w, a);
    assert k !in w2.claims || ClaimSound(w2, k, w2.claims[k]);
    PutRowTotals(w2, k, NewRow(a), c);
  }

  ghost predicate ReservesOn(a: Action, c: CounterId) {
    a.DoReserve? && CounterOf(a.quota) == c
  }

  /** A reactivation may take the row from another counter: that counter keeps its balance too. */
  lemma ReserveElsewhereBalanced(w: World, a: Action, c: CounterId)
    requires Sound(w) && a.DoReserve? && c in w.ledger.counters && !ReservesOn(a, c)
    ensures Balanced(w, Step(w, a), c)
  {
    ReserveCases(w, a);
    PreparedBalanced(w, a, c);
    if a.quota.lock !in w.held && OutcomeOf(w, a) == NewlyReserved {
      ReservedRowTotals(w, a, c);
    }
  }

  /** Only `reserve` on the counter itself can raise an event counter's exposure, and nothing makes it drift. */
  lemma StepBalanced(w: World, a: Action, c: CounterId)
    requires Sound(w) && c in w.ledger.counters && IsEvent(c.lock.metric) && !ReservesOn(a, c)
    ensures Balanced(w, Step(w, a), c)
  {
    match a
    case DoReserve(_, _, _, _, _) => ReserveElsewhereBalanced(w, a, c);
    case DoSync(quota, inventory) =>
      UpsertRowsDown(w, quota, inventory, c);
      assert RowsDown(w, w, c);
      BalancedByRows(w, Step(w, a), c);
    case DoRelease(k, now) => ReleaseBalanced(w, k, now, c);
    case DoSweep(now) =>
      ExpireRowsDown(w, None, now, c);
      BalancedByRows(w, Step(w, a), c);
    case TakeLock(_, _) => assert Pending(Step(w, a), c) == Pending(w, c) && Counted(Step(w, a), c) == Counted(w, c);
    case ReadRow(tx, k) => ReadBalanced(w, tx, k, c);
    case AddUsage(tx, k) => AddUsageBalanced(w, tx, k, c);
    case Mark(tx, k, now) => MarkBalanced(w, tx, k, now, c);
    case EndCommit(tx) => EndBalanced(w, tx, c);
  }

  /** With no commit holding the lock, what may still be added is exactly what `aggregate` sums. */
  lemma PendingIsReserved(w: World, c: CounterId)
    requires Sound(w) && c.lock !in w.held
    ensures Pending(w, c) == ReservedRows(w.ledger, c)
    ensures c in w.ledger.counters ==> Exposure(w, c) == w.ledger.counters[c].value + ReservedSum(w.ledger, c)
  {
    forall k | k in w.ledger.reservations
      ensures PendingAmount(w.ledger.reservations[k], ClaimOn(w, k), c) == ReservedAmount(w.ledger.reservations[k], c)
    {
      assert RowSound(w.ledger, k, w.ledger.reservations[k]);
      if k in w.claims { assert ClaimSound(w, k, w.claims[k]); }
    }
  }

  /** What `reserve` does to the counter it works on. */
  lemma ReserveBalanced(w: World, a: Action, c: CounterId)
    requires Sound(w) && ReservesOn(a, c) && c in Step(w, a).ledger.counters
    requires IsEvent(c.lock.metric)
    ensures Drift(Step(w, a), c) == if c in w.ledger.counters then Drift(w, c) else 0
    ensures OutcomeOf(w, a) != NewlyReserved || a.quota.lock in w.held ==>
      Exposure(Step(w, a), c) <= if c in w.ledger.counters then Exposure(w, c) else 0
    ensures OutcomeOf(w, a) == NewlyReserved && a.quota.lock !in w.held && a.quota.Enforces() ==>
      Exposure(Step(w, a), c) <= a.quota.hardLimit.value
  {
    ReserveCases(w, a);
    var w2 := Prepared(w, a);
    if c in w.ledger.counters { PreparedBalanced(w, a, c); } else { PreparedNew(w, a); }
    if a.quota.lock !in w.held && OutcomeOf(w, a) == NewlyReserved {
      ReservedRowTotals(w, a, c);
      PreparedSound(w, a);
      PendingIsReserved(w2, c);
    }
  }

  /** Without interference, lock, read, increment and mark are one turn of the commit loop. */
  lemma CommitUninterrupted(w: World, tx: nat, k: Key, now: int)
    requires Sound(w) && k in w.ledger.reservations && k !in w.claims
    requires k.lock in w.held && w.held[k.lock] == tx
    requires CountersExist(w.ledger)
    ensures Step(Step(Step(w, ReadRow(tx, k)), AddUsage(tx, k)), Mark(tx, k, now))
      == w.(ledger := CommitOne(w.ledger, k, now).0)
  {
    assert RowSound(w.ledger, k, w.ledger.reservations[k]);
    if w.ledger.reservations[k].status == Reserved {
      var w1 := Step(w, ReadRow(tx, k));
      var w2 := Step(w1, AddUsage(tx, k));
      assert w2.claims - {k} == w.claims;
      assert w2.ledger == Increment(w.ledger, w.ledger.reservations[k].counter, w.ledger.reservations[k].amount);
    }
  }

  // ---------------------------------------------------------------------------------------------
  // Whole runs
  // ---------------------------------------------------------------------------------------------

  lemma {:induction false} RunSound(actions: seq<Action>)
    ensures Sound(Run(INITIAL, actions))
  {
    if actions != [] {
      RunSound(actions[..|actions| - 1]);
      StepSound(Run(INITIAL, actions[..|actions| - 1]), actions[|actions| - 1]);
    }
  }

  /** Once COMMITTED always COMMITTED on that counter, and a key's amount never changes, whatever follows. */
  lemma {:induction false} RowsForever(actions: seq<Action>, more: seq<Action>)
    ensures Keeps(Run(INITIAL, actions), Run(Run(INITIAL, actions), more))
  {
    var w := Run(INITIAL, actions);
    RunSound(actions);
    if more != [] {
      RowsForever(actions, more[..|more| - 1]);
      var w' := Run(w, more[..|more| - 1]);
      StepSound(w', more[|more| - 1]);
      KeepsTransitive(w, w', Run(w, more));
    }
  }

  /** The rows whose amounts a settled counter stands for. */
  function CommittedRows(l: Ledger, c: CounterId): map<Key, int> {
    map k | k in l.reservations ::
      if l.reservations[k].counter == c && l.reservations[k].status == Committed then l.reservations[k].amount else 0
  }

  lemma CountedIsCommitted(w: World, c: CounterId)
    requires Sound(w) && c.lock !in w.held
    ensures Counted(w, c) == CommittedRows(w.ledger, c)
  {
    forall k | k in w.ledger.reservations
      ensures CountedAmount(w.ledger.reservations[k], ClaimOn(w, k), c) == CommittedRows(w.ledger, c)[k]
    {
      assert RowSound(w.ledger, k, w.ledger.reservations[k]);
      if k in w.claims { assert ClaimSound(w, k, w.claims[k]); }
    }
  }

  lemma {:induction false} NoDrift(actions: seq<Action>, c: CounterId)
    requires IsEvent(c.lock.metric)
    ensures var w := Run(INITIAL, actions); c in w.ledger.counters ==> Drift(w, c) == 0
  {
    if actions != [] {
      var w, a := Run(INITIAL, actions[..|actions| - 1]), actions[|actions| - 1];
      RunSound(actions[..|actions| - 1]);
      NoDrift(actions[..|actions| - 1], c);
      if c in Step(w, a).ledger.counters {
        if ReservesOn(a, c) { ReserveBalanced(w, a, c); }
        else { CounterCreated(w, a, c); StepBalanced(w, a, c); }
      }
    }
  }

  /** Only `reserve` on it creates an event counter. */
  lemma CounterCreated(w: World, a: Action, c: CounterId)
    requires Sound(w) && IsEvent(c.lock.metric) && !ReservesOn(a, c) && c in Step(w, a).ledger.counters
    ensures c in w.ledger.counters
  {
    if a.DoReserve? { ReserveCases(w, a); }
    if a.Mark? && Step(w, a) != w { ThresholdsOnly(MarkCommitted(w.ledger, a.key, a.now), w.claims[a.key].counter, a.now); }
  }

  /** An event counter is the sum of the COMMITTED amounts on it whenever no commit holds its lock. */
  lemma Conservation(actions: seq<Action>, c: CounterId)
    requires IsEvent(c.lock.metric)
    ensures var w := Run(INITIAL, actions);
      c in w.ledger.counters && c.lock !in w.held ==>
        w.ledger.counters[c].value == Total(CommittedRows(w.ledger, c))
  {
    NoDrift(actions, c);
    RunSound(actions);
    var w := Run(INITIAL, actions);
    if c.lock !in w.held { CountedIsCommitted(w, c); }
  }

  /** Every `reserve` on the counter runs under the enforced limit `limit`. */
  ghost predicate Limited(actions: seq<Action>, c: CounterId, limit: int) {
    forall a | a in actions && ReservesOn(a, c) :: a.quota.Enforces() && a.quota.hardLimit == Some(limit)
  }

  lemma {:induction false} ExposureBounded(actions: seq<Action>, c: CounterId, limit: int)
    requires IsEvent(c.lock.metric) && 0 <= limit && Limited(actions, c, limit)
    ensures var w := Run(INITIAL, actions); c in w.ledger.counters ==> Exposure(w, c) <= limit
  {
    if actions != [] {
      var w, a := Run(INITIAL, actions[..|actions| - 1]), actions[|actions| - 1];
      RunSound(actions[..|actions| - 1]);
      ExposureBounded(actions[..|actions| - 1], c, limit);
      if c in Step(w, a).ledger.counters {
        if ReservesOn(a, c) { ReserveBalanced(w, a, c); }
        else { CounterCreated(w, a, c); StepBalanced(w, a, c); }
      }
    }
  }

  /**
   Hard-limit safety: at every moment usage plus everything that may still be added is within the
   limit; so usage plus the RESERVED amounts is, whenever the lock is free.
   */
  lemma HardLimitSafe(actions: seq<Action>, c: CounterId, limit: int)
    requires IsEvent(c.lock.metric) && 0 <= limit && Limited(actions, c, limit)
    ensures var w := Run(INITIAL, actions);
      c in w.ledger.counters ==>
        && Exposure(w, c) <= limit
        && (c.lock !in w.held ==> w.ledger.counters[c].value + ReservedSum(w.ledger, c) <= limit)
  {
    ExposureBounded(actions, c, limit);
    RunSound(actions);
    if c.lock !in Run(INITIAL, actions).held { PendingIsReserved(Run(INITIAL, actions), c); }
  }
}
