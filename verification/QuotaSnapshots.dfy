/** The hourly scheduler: expire late reservations, then snapshot closed counters, at most 500 a pass. */
module QuotaSnapshots {
  import opened Prelude
  import opened Rounding
  import opened QuotaTypes
  import opened QuotaLedger
  import opened QuotaInterleaving

  const BATCH := 500

  datatype Snapshot = Snapshot(
    periodEnd: Option<int>, finalUsage: int, softLimit: Option<int>, hardLimit: Option<int>,
    percentageBasisPts: Option<int>, exceeded: bool, capturedAt: int)

  /** BigInt division truncates toward zero. */
  function Truncated(a: int, b: int): int
    requires b > 0
  {
    if a >= 0 then a / b else -(-a / b)
  }

  function SnapshotOf(row: Counter, now: int): Snapshot {
    Snapshot(
      row.periodEnd, row.value, row.softLimit, row.hardLimit,
      if row.hardLimit.Some? && row.hardLimit.value > 0 then Some(Truncated(row.value * 10000, row.hardLimit.value)) else None,
      row.hardLimit.Some? && row.value > row.hardLimit.value, now)
  }

  /** A snapshot repeats its row, says whether usage exceeds the limit, and gives the share rounded toward zero. */
  ghost predicate Tells(s: Snapshot, row: Counter, now: int) {
    && s.periodEnd == row.periodEnd && s.finalUsage == row.value && s.softLimit == row.softLimit
    && s.hardLimit == row.hardLimit && s.capturedAt == now
    && (s.exceeded <==> row.hardLimit.Some? && row.hardLimit.value < row.value)
    && (s.percentageBasisPts.Some? <==> row.hardLimit.Some? && 0 < row.hardLimit.value)
    && (s.percentageBasisPts.Some? && 0 <= row.value ==>
          s.percentageBasisPts.value * row.hardLimit.value <= row.value * 10000
          < (s.percentageBasisPts.value + 1) * row.hardLimit.value)
    && (s.percentageBasisPts.Some? && row.value < 0 ==>
          (s.percentageBasisPts.value - 1) * row.hardLimit.value < row.value * 10000
          <= s.percentageBasisPts.value * row.hardLimit.value)
  }

  lemma SnapshotTells(row: Counter, now: int)
    ensures Tells(SnapshotOf(row, now), row, now)
  {
    if row.hardLimit.Some? && 0 < row.hardLimit.value {
      TruncatedBetween(row.value * 10000, row.hardLimit.value);
    }
  }

  lemma TruncatedBetween(a: int, b: int)
    requires 0 < b
    ensures 0 <= a ==> Truncated(a, b) * b <= a < (Truncated(a, b) + 1) * b
    ensures a < 0 ==> (Truncated(a, b) - 1) * b < a <= Truncated(a, b) * b
  {
    if 0 <= a {
      QuotientBounds(a, b);
    } else {
      QuotientBounds(-a, b);
      assert Truncated(a, b) == -(-a / b);
      NegatedProduct(-a / b, b);
      NegatedProduct(-a / b + 1, b);
    }
  }

  lemma QuotientBounds(a: int, b: int)
    requires 0 < b
    ensures a / b * b <= a < (a / b + 1) * b
  {
    assert a == a / b * b + a % b;
    assert (a / b + 1) * b == a / b * b + b;
  }

  lemma NegatedProduct(q: int, b: int)
    ensures -q * b == -(q * b)
  {
  }

  /** The rounded-down percentage and the exact flag agree everywhere but at 100 percent itself. */
  lemma PercentageAgrees(row: Counter, now: int)
    requires row.hardLimit.Some? && row.hardLimit.value > 0
    ensures var s := SnapshotOf(row, now);
      && s.percentageBasisPts.Some?
      && (s.exceeded ==> s.percentageBasisPts.value >= 10000)
      && (s.percentageBasisPts.value > 10000 ==> s.exceeded)
  {
    var limit := row.hardLimit.value;
    if row.value >= 0 {
      QuotientAtLeast(row.value * 10000, limit, 10000);
      QuotientAtLeast(row.value * 10000, limit, 10001);
    } else {
      assert -(row.value * 10000) / limit >= 0;
    }
  }

  // ---------------------------------------------------------------------------------------------
  // One pass
  // ---------------------------------------------------------------------------------------------

  predicate Closed(row: Counter, now: int) {
    row.periodEnd.Some? && row.periodEnd.value <= now
  }

  /** The `ORDER BY` value of a counter. */
  function EndOf(counters: map<CounterId, Counter>, c: CounterId): int {
    if c in counters then counters[c].periodEnd.GetOr(0) else 0
  }

  /** Closed counters without a snapshot. */
  function Unsnapped(counters: map<CounterId, Counter>, snapshots: map<CounterId, Snapshot>, now: int): set<CounterId> {
    set c | c in counters && Closed(counters[c], now) && c !in snapshots
  }

  predicate NoRepeats(batch: seq<CounterId>) {
    forall i, j | 0 <= i < j < |batch| :: batch[i] != batch[j]
  }

  predicate OldestFirst(counters: map<CounterId, Counter>, batch: seq<CounterId>) {
    forall i, j | 0 <= i < j < |batch| :: EndOf(counters, batch[i]) <= EndOf(counters, batch[j])
  }

  predicate Older(counters: map<CounterId, Counter>, batch: seq<CounterId>, rest: set<CounterId>) {
    forall c, d | c in batch && d in rest :: EndOf(counters, c) <= EndOf(counters, d)
  }

  lemma ExtendBatch(counters: map<CounterId, Counter>, batch: seq<CounterId>, c: CounterId, rest: set<CounterId>)
    requires NoRepeats(batch) && OldestFirst(counters, batch) && Older(counters, batch, rest)
    requires c in rest && (forall d | d in rest :: EndOf(counters, c) <= EndOf(counters, d)) && c !in batch
    ensures NoRepeats(batch + [c]) && OldestFirst(counters, batch + [c]) && Older(counters, batch + [c], rest - {c})
  {
    forall i | 0 <= i < |batch| ensures batch[i] in batch {}
  }

  /** The raw query: the oldest 500 pending counters, by period end. */
  ghost predicate IsBatch(
    counters: map<CounterId, Counter>, snapshots: map<CounterId, Snapshot>, now: int, batch: seq<CounterId>)
  {
    var pending := Unsnapped(counters, snapshots, now);
    && (forall c | c in batch :: c in pending)
    && NoRepeats(batch)
    && |batch| == (if |pending| < BATCH then |pending| else BATCH)
    && OldestFirst(counters, batch)
    && Older(counters, batch, pending - Elements(batch))
  }

  /** The rows a pass inserts for its batch. */
  function SnapshotsOf(counters: map<CounterId, Counter>, batch: seq<CounterId>, now: int): map<CounterId, Snapshot> {
    map c | c in batch && c in counters :: SnapshotOf(counters[c], now)
  }

  function Elements(batch: seq<CounterId>): set<CounterId> {
    set c | c in batch
  }

  ghost predicate Insertable(counters: map<CounterId, Counter>, snapshots: map<CounterId, Snapshot>, batch: seq<CounterId>) {
    NoRepeats(batch) && forall c | c in batch :: c in counters && c !in snapshots
  }

  /** The insert loop: `skipDuplicates` keeps a row that is already there. */
  function Inserted(
    snapshots: map<CounterId, Snapshot>, counters: map<CounterId, Counter>, batch: seq<CounterId>, now: int)
    : map<CounterId, Snapshot>
  {
    if batch == [] then snapshots
    else
      var c, done := batch[|batch| - 1], Inserted(snapshots, counters, batch[..|batch| - 1], now);
      if c in done || c !in counters then done else done[c := SnapshotOf(counters[c], now)]
  }

  lemma {:induction false} InsertedAt(
    snapshots: map<CounterId, Snapshot>, counters: map<CounterId, Counter>, batch: seq<CounterId>, now: int, d: CounterId)
    requires Insertable(counters, snapshots, batch)
    ensures d in Inserted(snapshots, counters, batch, now) <==> d in snapshots || d in batch
    ensures d in Inserted(snapshots, counters, batch, now) ==>
      Inserted(snapshots, counters, batch, now)[d]
        == if d in batch then SnapshotOf(counters[d], now) else snapshots[d]
  {
    if batch != [] {
      var c, rest := batch[|batch| - 1], batch[..|batch| - 1];
      assert d in batch <==> d in rest || d == c;
      assert c !in rest;
      InsertedAt(snapshots, counters, rest, now, d);
      InsertedAt(snapshots, counters, rest, now, c);
    }
  }

  lemma InsertedIsSum(
    snapshots: map<CounterId, Snapshot>, counters: map<CounterId, Counter>, batch: seq<CounterId>, now: int)
    requires Insertable(counters, snapshots, batch)
    ensures Inserted(snapshots, counters, batch, now) == snapshots + SnapshotsOf(counters, batch, now)
  {
    forall d
      ensures d in Inserted(snapshots, counters, batch, now) <==> d in snapshots || d in batch
      ensures d in Inserted(snapshots, counters, batch, now) ==>
        Inserted(snapshots, counters, batch, now)[d] == if d in batch then SnapshotOf(counters[d], now) else snapshots[d]
    {
      InsertedAt(snapshots, counters, batch, now, d);
    }
  }

  lemma PrefixInserted(
    snapshots: map<CounterId, Snapshot>, counters: map<CounterId, Counter>, batch: seq<CounterId>, i: nat, now: int)
    requires i < |batch| && Insertable(counters, snapshots, batch)
    ensures batch[i] !in Inserted(snapshots, counters, batch[..i], now)
    ensures batch[i] in counters
    ensures Inserted(snapshots, counters, batch[..i + 1], now)
      == Inserted(snapshots, counters, batch[..i], now)[batch[i] := SnapshotOf(counters[batch[i]], now)]
  {
    InsertedAt(snapshots, counters, batch[..i], now, batch[i]);
    assert batch[..i + 1][..i] == batch[..i];
  }

  lemma {:induction false} DistinctSize(batch: seq<CounterId>)
    requires NoRepeats(batch)
    ensures |Elements(batch)| == |batch|
  {
    if batch != [] {
      var rest := batch[..|batch| - 1];
      DistinctSize(rest);
      assert Elements(batch) == Elements(rest) + {batch[|batch| - 1]};
    }
  }

  class QuotaScheduler {
    var ledger: Ledger
    var snapshots: map<CounterId, Snapshot>
    var audits: seq<CounterId>

    constructor (initial: Ledger)
      ensures ledger == initial && snapshots == map[] && audits == []
    {
      ledger, snapshots, audits := initial, map[], [];
    }

    method Earliest(ids: set<CounterId>, now: int) returns (best: CounterId)
      requires ids != {} && forall c | c in ids :: c in ledger.counters && Closed(ledger.counters[c], now)
      ensures best in ids
      ensures forall c | c in ids :: EndOf(ledger.counters, best) <= EndOf(ledger.counters, c)
    {
      best :| best in ids;
      var rest := ids - {best};
      while rest != {}
        invariant rest <= ids && best in ids
        invariant forall c | c in ids - rest :: EndOf(ledger.counters, best) <= EndOf(ledger.counters, c)
        decreases rest
      {
        var c :| c in rest;
        if EndOf(ledger.counters, c) < EndOf(ledger.counters, best) { best := c; }
        rest := rest - {c};
      }
    }

    method OldestPending(now: int) returns (batch: seq<CounterId>)
      ensures IsBatch(ledger.counters, snapshots, now, batch)
    {
      batch := [];
      var rest := Unsnapped(ledger.counters, snapshots, now);
      ghost var pending := rest;
      while rest != {} && |batch| < BATCH
        invariant rest <= pending && |batch| <= BATCH && |batch| + |rest| == |pending|
        invariant forall c :: c in batch <==> c in pending - rest
        invariant NoRepeats(batch) && OldestFirst(ledger.counters, batch) && Older(ledger.counters, batch, rest)
        decreases rest
      {
        var c := Earliest(rest, now);
        ExtendBatch(ledger.counters, batch, c, rest);
        batch, rest := batch + [c], rest - {c};
      }
    }

    method FinalizeClosedPeriods(now: int) returns (created: nat, ghost batch: seq<CounterId>)
      modifies this
      ensures ledger == Expire(old(ledger), None, now)
      ensures IsBatch(ledger.counters, old(snapshots), now, batch)
      ensures snapshots == old(snapshots) + SnapshotsOf(ledger.counters, batch, now)
      ensures created == |batch| && audits == old(audits) + batch
      ensures forall c | c in batch :: c in ledger.counters && c in snapshots && Tells(snapshots[c], ledger.counters[c], now)
    {
      ledger := Expire(ledger, None, now);
      var closed := OldestPending(now);
      batch := closed;
      assert Insertable(ledger.counters, snapshots, closed);
      created := InsertSnapshots(closed, now);
      forall c | c in batch ensures Tells(SnapshotOf(ledger.counters[c], now), ledger.counters[c], now) {
        SnapshotTells(ledger.counters[c], now);
      }
    }

    method InsertSnapshots(closed: seq<CounterId>, now: int) returns (created: nat)
      requires Insertable(ledger.counters, snapshots, closed)
      modifies this`snapshots, this`audits
      ensures snapshots == old(snapshots) + SnapshotsOf(ledger.counters, closed, now)
      ensures created == |closed| && audits == old(audits) + closed
    {
      created := 0;
      var i := 0;
      var counters := ledger.counters;
      ghost var before := snapshots;
      while i < |closed|
        invariant 0 <= i <= |closed| && created == i
        invariant snapshots == Inserted(before, counters, closed[..i], now)
        invariant audits == old(audits) + closed[..i]
      {
        var c := closed[i];
        assert closed[..i + 1] == closed[..i] + [c];
        PrefixInserted(before, counters, closed, i, now);
        if c !in snapshots {
          snapshots := snapshots[c := SnapshotOf(counters[c], now)];
          created := created + 1;
          audits := audits + [c];
        }
        i := i + 1;
      }
      assert closed[..i] == closed;
      InsertedIsSum(before, counters, closed, now);
    }
  }

  // ---------------------------------------------------------------------------------------------
  // Repeated passes
  // ---------------------------------------------------------------------------------------------

  datatype Store = Store(ledger: Ledger, snapshots: map<CounterId, Snapshot>)

  /** What `FinalizeClosedPeriods` ensures of the tables before and after it. */
  ghost predicate Pass(before: Store, after: Store, now: int, batch: seq<CounterId>) {
    && after.ledger == Expire(before.ledger, None, now)
    && IsBatch(after.ledger.counters, before.snapshots, now, batch)
    && after.snapshots == before.snapshots + SnapshotsOf(after.ledger.counters, batch, now)
  }

  function UnsnappedIn(s: Store, now: int): nat {
    |Unsnapped(s.ledger.counters, s.snapshots, now)|
  }

  lemma PassDrains(before: Store, after: Store, now: int, batch: seq<CounterId>)
    requires Pass(before, after, now, batch)
    ensures UnsnappedIn(after, now) == if UnsnappedIn(before, now) <= BATCH then 0 else UnsnappedIn(before, now) - BATCH
    ensures forall c | c in before.snapshots :: c in after.snapshots && after.snapshots[c] == before.snapshots[c]
  {
    DistinctSize(batch);
    assert Unsnapped(after.ledger.counters, after.snapshots, now)
      == Unsnapped(before.ledger.counters, before.snapshots, now) - Elements(batch);
  }

  /** With nothing newly closed, n passes leave max(0, k - 500 n) of k pending counters: the backlog drains. */
  lemma {:induction false} PassesDrain(stores: seq<Store>, batches: seq<seq<CounterId>>, now: int)
    requires |stores| == |batches| + 1
    requires forall i | 0 <= i < |batches| :: Pass(stores[i], stores[i + 1], now, batches[i])
    ensures UnsnappedIn(stores[|batches|], now)
      == if UnsnappedIn(stores[0], now) <= BATCH * |batches| then 0 else UnsnappedIn(stores[0], now) - BATCH * |batches|
  {
    if batches != [] {
      var n := |batches| - 1;
      PassesDrain(stores[..n + 1], batches[..n], now);
      PassDrains(stores[n], stores[n + 1], now, batches[n]);
    }
  }

  // ---------------------------------------------------------------------------------------------
  // Passes among running requests and other schedulers
  // ---------------------------------------------------------------------------------------------

  datatype SnapWorld = SnapWorld(
    quota: World, read: map<(nat, CounterId), Counter>, snapshots: map<CounterId, Snapshot>)

  const SNAP_INITIAL := SnapWorld(QuotaInterleaving.INITIAL, map[], map[])

  datatype SnapAction =
    | Request(action: Action)
    | ReadClosed(job: nat, counter: CounterId, now: int)
    | Insert(job: nat, counter: CounterId, now: int)

  ghost function SnapStep(w: SnapWorld, a: SnapAction): SnapWorld {
    match a
    case Request(action) => w.(quota := Step(w.quota, action))
    case ReadClosed(job, c, now) =>
      if c in w.quota.ledger.counters && Closed(w.quota.ledger.counters[c], now)
      then w.(read := w.read[(job, c) := w.quota.ledger.counters[c]]) else w
    case Insert(job, c, now) =>
      if (job, c) in w.read && c !in w.snapshots
      then w.(snapshots := w.snapshots[c := SnapshotOf(w.read[(job, c)], now)]) else w
  }

  ghost function SnapRun(w: SnapWorld, actions: seq<SnapAction>): SnapWorld {
    if actions == [] then w else SnapStep(SnapRun(w, actions[..|actions| - 1]), actions[|actions| - 1])
  }

  /** An event counter never goes down. */
  lemma ValueGrows(w: World, a: Action, c: CounterId)
    requires Sound(w) && c in w.ledger.counters && IsEvent(c.lock.metric)
    ensures c in Step(w, a).ledger.counters
    ensures Step(w, a).ledger.counters[c].value >= w.ledger.counters[c].value
  {
    if a.DoReserve? { ReserveCases(w, a); }
    if a.AddUsage? && Step(w, a) != w {
      assert ClaimSound(w, a.key, w.claims[a.key]) && RowSound(w.ledger, a.key, w.ledger.reservations[a.key]);
    }
    if a.Mark? && Step(w, a) != w {
      ThresholdsOnly(MarkCommitted(w.ledger, a.key, a.now), w.claims[a.key].counter, a.now);
    }
  }

  ghost predicate Below(w: SnapWorld, c: CounterId, value: int) {
    c in w.quota.ledger.counters && (IsEvent(c.lock.metric) ==> value <= w.quota.ledger.counters[c].value)
  }

  ghost predicate SnapSound(w: SnapWorld) {
    && Sound(w.quota)
    && (forall k | k in w.read :: Below(w, k.1, w.read[k].value))
    && (forall c | c in w.snapshots :: Below(w, c, w.snapshots[c].finalUsage))
  }

  lemma SnapStepSound(w: SnapWorld, a: SnapAction)
    requires SnapSound(w)
    ensures SnapSound(SnapStep(w, a))
  {
    if a.Request? {
      StepSound(w.quota, a.action);
      var w' := SnapStep(w, a);
      forall c, value | Below(w, c, value) ensures Below(w', c, value) {
        if IsEvent(c.lock.metric) { ValueGrows(w.quota, a.action, c); }
      }
    }
  }

  lemma {:induction false} SnapRunSound(actions: seq<SnapAction>)
    ensures SnapSound(SnapRun(SNAP_INITIAL, actions))
  {
    if actions != [] {
      SnapRunSound(actions[..|actions| - 1]);
      SnapStepSound(SnapRun(SNAP_INITIAL, actions[..|actions| - 1]), actions[|actions| - 1]);
    }
  }

  /**
   A snapshot, once inserted, is never altered, by any request or by a second scheduler; and an event
   metric's final usage never exceeds what its counter shows at any later moment.
   */
  lemma {:induction false} SnapshotsFinal(actions: seq<SnapAction>, more: seq<SnapAction>, c: CounterId)
    requires c in SnapRun(SNAP_INITIAL, actions).snapshots
    ensures var w, w' := SnapRun(SNAP_INITIAL, actions), SnapRun(SnapRun(SNAP_INITIAL, actions), more);
      && c in w'.snapshots && w'.snapshots[c] == w.snapshots[c]
      && SnapSound(w')
      && c in w'.quota.ledger.counters
      && (IsEvent(c.lock.metric) ==> w.snapshots[c].finalUsage <= w'.quota.ledger.counters[c].value)
  {
    SnapRunSound(actions);
    var w := SnapRun(SNAP_INITIAL, actions);
    if more == [] {
      assert Below(w, c, w.snapshots[c].finalUsage);
    } else {
      SnapshotsFinal(actions, more[..|more| - 1], c);
      SnapStepSound(SnapRun(w, more[..|more| - 1]), more[|more| - 1]);
      assert Below(SnapRun(w, more), c, SnapRun(w, more).snapshots[c].finalUsage);
    }
  }

  /** Every counter whose period has ended has its snapshot after one pass, if at most 500 lacked one. */
  lemma PassIsComplete(before: Store, after: Store, now: int, batch: seq<CounterId>, c: CounterId)
    requires Pass(before, after, now, batch) && UnsnappedIn(before, now) <= 500
    requires c in before.ledger.counters
    requires before.ledger.counters[c].periodEnd.Some? && before.ledger.counters[c].periodEnd.value <= now
    ensures c in after.snapshots
    ensures c !in before.snapshots ==> Tells(after.snapshots[c], before.ledger.counters[c], now)
  {
    PassDrains(before, after, now, batch);
    SnapshotTells(before.ledger.counters[c], now);
    assert c !in after.snapshots ==> c in Unsnapped(after.ledger.counters, after.snapshots, now);
  }

  /** No other counter gets one: a pass writes only for periods that have ended. */
  lemma PassIsSound(before: Store, after: Store, now: int, batch: seq<CounterId>, c: CounterId)
    requires Pass(before, after, now, batch) && c in after.snapshots && c !in before.snapshots
    ensures c in before.ledger.counters
    ensures before.ledger.counters[c].periodEnd.Some? && before.ledger.counters[c].periodEnd.value <= now
    ensures Tells(after.snapshots[c], before.ledger.counters[c], now)
  {
    assert c in batch;
    SnapshotTells(before.ledger.counters[c], now);
  }
}
