/**
 `consumeEvent`: reserve under "event:" + key, insert the usage event unless it exists, and commit
 or release. Calls run concurrently, are retried, and crash between any two of these steps.
 */
module QuotaEvents {
  import opened Prelude
  import opened Totals
  import opened QuotaTypes
  import opened QuotaLedger
  import opened QuotaInterleaving
  import QuotaAdmission

  const EVENT_PREFIX := "event:"

  predicate IsEventKey(k: Key) {
    EVENT_PREFIX <= k.idempotencyKey
  }

  datatype UsageEvent = UsageEvent(amount: int, periodStart: int)

  /** A call past its `reserve`; `isNew` tells RESERVED from ALREADY_RESERVED. */
  datatype Call = Call(key: Key, amount: int, periodStart: int, isNew: bool, recorded: bool)

  /** An event row (organization, metric, key) is filed under the ledger key of its reservation. */
  datatype EventWorld = EventWorld(quota: World, events: map<Key, UsageEvent>, calls: map<nat, Call>)

  const START := EventWorld(QuotaInterleaving.INITIAL, map[], map[])

  datatype EventAction =
    | Quota(action: Action)
    | ReserveFor(id: nat, reserve: Action)
    | Record(id: nat)
    | Forget(id: nat)

  ghost predicate CommitAllowed(w: EventWorld, k: Key) {
    IsEventKey(k) ==> exists id :: id in w.calls && w.calls[id].key == k && w.calls[id].recorded
  }

  /** "event:" keys are reserved by `consumeEvent` only, and committed only by a call that recorded its event. */
  ghost predicate Admitted(w: EventWorld, a: Action) {
    && (a.DoReserve? ==> !IsEventKey(ReserveKey(a)))
    && (a.ReadRow? ==> CommitAllowed(w, a.key))
  }

  ghost function EventStep(w: EventWorld, e: EventAction): EventWorld {
    match e
    case Quota(a) => if Admitted(w, a) then w.(quota := Step(w.quota, a)) else w
    case ReserveFor(id, a) =>
      if !a.DoReserve? || !IsEventKey(ReserveKey(a)) || a.quota.lock in w.quota.held || id in w.calls then w
      else
        var outcome := OutcomeOf(w.quota, a);
        var w1 := w.(quota := Step(w.quota, a));
        if outcome == NewlyReserved || outcome == AlreadyReserved then
          w1.(calls := w.calls[id := Call(ReserveKey(a), a.amount, a.quota.periodStart, outcome == NewlyReserved, false)])
        else w1
    case Record(id) =>
      if id !in w.calls || w.calls[id].key in w.events then w
      else
        var call := w.calls[id];
        w.(events := w.events[call.key := UsageEvent(call.amount, call.periodStart)],
           calls := w.calls[id := call.(recorded := true)])
    case Forget(id) => w.(calls := w.calls - {id})   // the call returned or crashed
  }

  ghost function EventRun(actions: seq<EventAction>): EventWorld {
    if actions == [] then START
    else EventStep(EventRun(actions[..|actions| - 1]), actions[|actions| - 1])
  }

  ghost predicate Backed(w: EventWorld, k: Key, amount: int) {
    k in w.quota.ledger.reservations && w.quota.ledger.reservations[k].amount == amount
  }

  ghost predicate Entered(w: World, k: Key) {
    k in w.claims || (k in w.ledger.reservations && w.ledger.reservations[k].status == Committed)
  }

  ghost predicate CallSound(w: EventWorld, call: Call) {
    IsEventKey(call.key) && Backed(w, call.key, call.amount) && (call.recorded ==> call.key in w.events)
  }

  ghost predicate EventSound(w: EventWorld) {
    && Sound(w.quota)
    && (forall k | k in w.events :: Backed(w, k, w.events[k].amount))
    && (forall id | id in w.calls :: CallSound(w, w.calls[id]))
    && (forall k | Entered(w.quota, k) && IsEventKey(k) :: k in w.events)
    && (forall i, j | i in w.calls && j in w.calls && i != j && w.calls[i].recorded && w.calls[j].recorded ::
          w.calls[i].key != w.calls[j].key)
  }

  /** A row enters the counted amounts only through a commit that read it. */
  lemma EntersByRead(w: World, a: Action, k: Key)
    requires Sound(w) && Entered(Step(w, a), k)
    ensures Entered(w, k) || (a.ReadRow? && a.key == k)
  {
    if a.DoReserve? { ReserveCases(w, a); }
    if a.Mark? && Step(w, a) != w {
      ThresholdsOnly(MarkCommitted(w.ledger, a.key, a.now), w.claims[a.key].counter, a.now);
    }
  }

  lemma ReserveBacks(w: World, a: Action)
    requires Sound(w) && a.DoReserve? && a.quota.lock !in w.held
    requires OutcomeOf(w, a) == NewlyReserved || OutcomeOf(w, a) == AlreadyReserved
    ensures ReserveKey(a) in Step(w, a).ledger.reservations
      && Step(w, a).ledger.reservations[ReserveKey(a)].amount == a.amount
  {
  }

  lemma QuotaStepSound(w: EventWorld, a: Action)
    requires EventSound(w) && (Admitted(w, a) || a.DoReserve?)
    ensures EventSound(w.(quota := Step(w.quota, a)))
  {
    var w' := w.(quota := Step(w.quota, a));
    StepSound(w.quota, a);
    forall k, amount | Backed(w, k, amount) ensures Backed(w', k, amount) {
      assert RowKept(w.quota.ledger.reservations[k], w'.quota.ledger.reservations[k]);
    }
    forall k | Entered(w'.quota, k) && IsEventKey(k) ensures k in w.events {
      EntersByRead(w.quota, a, k);
    }
  }

  lemma ReserveForSound(w: EventWorld, id: nat, a: Action)
    requires EventSound(w)
    ensures EventSound(EventStep(w, ReserveFor(id, a)))
  {
    var w' := EventStep(w, ReserveFor(id, a));
    if w' != w {
      QuotaStepSound(w, a);
      if OutcomeOf(w.quota, a) == NewlyReserved || OutcomeOf(w.quota, a) == AlreadyReserved {
        ReserveBacks(w.quota, a);
        assert CallSound(w', w'.calls[id]);
        forall i | i in w'.calls ensures CallSound(w', w'.calls[i]) {
          assert i != id ==> CallSound(w.(quota := Step(w.quota, a)), w.calls[i]);
        }
      }
    }
  }

  lemma RecordSound(w: EventWorld, id: nat)
    requires EventSound(w)
    ensures EventSound(EventStep(w, Record(id)))
  {
    var w' := EventStep(w, Record(id));
    if w' != w {
      assert CallSound(w, w.calls[id]);
      forall i | i in w'.calls ensures CallSound(w', w'.calls[i]) {
        assert CallSound(w, w.calls[i]);
      }
    }
  }

  lemma EventStepSound(w: EventWorld, e: EventAction)
    requires EventSound(w)
    ensures EventSound(EventStep(w, e))
  {
    match e
    case Quota(a) => if Admitted(w, a) { QuotaStepSound(w, a); }
    case ReserveFor(id, a) => ReserveForSound(w, id, a);
    case Record(id) => RecordSound(w, id);
    case Forget(id) =>
  }

  lemma {:induction false} EventRunSound(actions: seq<EventAction>)
    ensures EventSound(EventRun(actions))
  {
    if actions != [] {
      EventRunSound(actions[..|actions| - 1]);
      EventStepSound(EventRun(actions[..|actions| - 1]), actions[|actions| - 1]);
    }
  }

  // ---------------------------------------------------------------------------------------------
  // Counted usage against recorded events
  // ---------------------------------------------------------------------------------------------

  /** The ledger actions a run of calls performed: what holds of every ledger run holds of it. */
  ghost function Trace(actions: seq<EventAction>): seq<Action> {
    if actions == [] then []
    else
      var before, e := actions[..|actions| - 1], actions[|actions| - 1];
      match e
      case Quota(a) => if Admitted(EventRun(before), a) then Trace(before) + [a] else Trace(before)
      case ReserveFor(_, a) => if EventStep(EventRun(before), e) == EventRun(before) then Trace(before) else Trace(before) + [a]
      case _ => Trace(before)
  }

  lemma {:induction false} TraceIsRun(actions: seq<EventAction>)
    ensures EventRun(actions).quota == Run(QuotaInterleaving.INITIAL, Trace(actions))
  {
    if actions != [] {
      var before := actions[..|actions| - 1];
      TraceIsRun(before);
      if |Trace(actions)| > |Trace(before)| {
        assert Trace(actions)[..|Trace(actions)| - 1] == Trace(before);
      }
    }
  }

  function CountedAmountIn(r: Reservation, claim: Option<Claim>, cs: set<CounterId>): int {
    if r.counter in cs then CountedAmount(r, claim, r.counter) else 0
  }

  /** The rows counted in any counter of `cs`. */
  function CountedIn(w: World, cs: set<CounterId>): map<Key, int> {
    map k | k in w.ledger.reservations :: CountedAmountIn(w.ledger.reservations[k], ClaimOn(w, k), cs)
  }

  function Values(l: Ledger, cs: set<CounterId>): map<CounterId, int>
    requires cs <= l.counters.Keys
  {
    map c | c in cs :: l.counters[c].value
  }

  lemma CountedInSplit(w: World, c: CounterId, cs: set<CounterId>)
    requires c in cs
    ensures Total(CountedIn(w, cs)) == Total(CountedIn(w, cs - {c})) + Total(Counted(w, c))
  {
    forall k | k in w.ledger.reservations
      ensures CountedAmountIn(w.ledger.reservations[k], ClaimOn(w, k), cs)
        == CountedAmountIn(w.ledger.reservations[k], ClaimOn(w, k), cs - {c})
           + CountedAmount(w.ledger.reservations[k], ClaimOn(w, k), c)
    {
    }
    TotalAdd(CountedIn(w, cs - {c}), Counted(w, c), CountedIn(w, cs));
  }

  lemma {:induction false} ValuesAreCounted(w: World, cs: set<CounterId>)
    requires cs <= w.ledger.counters.Keys && forall c | c in cs :: Drift(w, c) == 0
    ensures Total(Values(w.ledger, cs)) == Total(CountedIn(w, cs))
    decreases |cs|
  {
    if cs == {} {
      TotalZero(CountedIn(w, cs));
    } else {
      var c :| c in cs;
      var rest := cs - {c};
      ValuesAreCounted(w, rest);
      TotalRemove(Values(w.ledger, cs), c);
      assert Values(w.ledger, cs) - {c} == Values(w.ledger, rest);
      CountedInSplit(w, c, cs);
    }
  }

  ghost predicate OnlyConsumed(actions: seq<EventAction>, lock: LockId) {
    forall e | e in actions && e.Quota? && e.action.DoReserve? :: e.action.quota.lock != lock
  }

  lemma {:induction false} OnlyEventKeys(actions: seq<EventAction>, lock: LockId, k: Key)
    requires OnlyConsumed(actions, lock)
    requires k in EventRun(actions).quota.ledger.reservations && k.lock == lock
    ensures IsEventKey(k)
  {
    if actions != [] {
      var before, e := actions[..|actions| - 1], actions[|actions| - 1];
      var w := EventRun(before);
      if k in w.quota.ledger.reservations {
        OnlyEventKeys(before, lock, k);
      } else if e.Quota? {
        RowsOnlyReserved(w.quota, e.action, k);
      } else {
        RowsOnlyReserved(w.quota, e.reserve, k);
      }
    }
  }

  lemma RowsOnlyReserved(w: World, a: Action, k: Key)
    requires k in Step(w, a).ledger.reservations && k !in w.ledger.reservations
    ensures a.DoReserve? && k == ReserveKey(a)
  {
    if a.DoReserve? { ReserveCases(w, a); }
    if a.Mark? && Step(w, a) != w {
      ThresholdsOnly(MarkCommitted(w.ledger, a.key, a.now), w.claims[a.key].counter, a.now);
    }
  }

  /** The recorded events of one organization and metric. */
  function Recorded(w: EventWorld, lock: LockId): map<Key, int> {
    map k | k in w.events && k.lock == lock :: w.events[k].amount
  }

  function CountersOf(w: EventWorld, lock: LockId): set<CounterId> {
    set c | c in w.quota.ledger.counters && c.lock == lock
  }

  /** Counted usage over all periods never exceeds the recorded events of an event-fed metric. */
  lemma CountedWithinEvents(actions: seq<EventAction>, lock: LockId)
    requires IsEvent(lock.metric) && OnlyConsumed(actions, lock)
    ensures var w := EventRun(actions);
      Total(Values(w.quota.ledger, CountersOf(w, lock))) <= Total(Recorded(w, lock))
  {
    var w := EventRun(actions);
    var cs := CountersOf(w, lock);
    EventRunSound(actions);
    TraceIsRun(actions);
    forall c | c in cs ensures Drift(w.quota, c) == 0 { NoDrift(Trace(actions), c); }
    ValuesAreCounted(w.quota, cs);
    forall k | k in w.quota.ledger.reservations && CountedIn(w.quota, cs)[k] > 0
      ensures k in Recorded(w, lock) && CountedIn(w.quota, cs)[k] <= Recorded(w, lock)[k]
    {
      assert RowSound(w.quota.ledger, k, w.quota.ledger.reservations[k]);
      OnlyEventKeys(actions, lock, k);
      assert Entered(w.quota, k);
      assert Backed(w, k, w.events[k].amount);
    }
    forall k | k in Recorded(w, lock) ensures 0 <= Recorded(w, lock)[k] {
      assert Backed(w, k, w.events[k].amount);
      assert RowSound(w.quota.ledger, k, w.quota.ledger.reservations[k]);
    }
    TotalCovered(CountedIn(w.quota, cs), Recorded(w, lock));
  }

  /**
   At most once: however the calls of one key interleave, its event row exists if any counter counts
   it, the amount is the event's, one counter at most counts it, and one call at most recorded it.
   */
  lemma CountedAtMostOnce(actions: seq<EventAction>, k: Key, c: CounterId, d: CounterId, i: nat, j: nat)
    requires IsEventKey(k)
    ensures var w := EventRun(actions);
      && (k in Counted(w.quota, c) && Counted(w.quota, c)[k] != 0 ==>
            k in w.events && Counted(w.quota, c)[k] == w.events[k].amount
            && (Counted(w.quota, d)[k] != 0 ==> c == d))
      && (i in w.calls && j in w.calls && w.calls[i].key == k == w.calls[j].key ==>
            !w.calls[i].recorded || !w.calls[j].recorded || i == j)
  {
    EventRunSound(actions);
    var w := EventRun(actions);
    if k in Counted(w.quota, c) && Counted(w.quota, c)[k] != 0 {
      assert Entered(w.quota, k);
      assert Backed(w, k, w.events[k].amount);
    }
  }

  // ---------------------------------------------------------------------------------------------
  // One uninterrupted call
  // ---------------------------------------------------------------------------------------------

  datatype ConsumeResult = Rejected(why: ReserveOutcome) | Consumed | Repeated

  ghost function Consume(
    l: Ledger, events: map<Key, UsageEvent>, quota: EffectiveQuota, amount: int, idempotencyKey: string, now: int,
    inventory: int)
    : (Ledger, map<Key, UsageEvent>, ConsumeResult)
    requires CountersExist(l)
  {
    var k := Key(quota.lock, EVENT_PREFIX + idempotencyKey);
    var (l1, outcome) := ReserveSpec(l, quota, amount, EVENT_PREFIX + idempotencyKey, now, inventory);
    ReserveKeepsCounters(l, quota, amount, EVENT_PREFIX + idempotencyKey, now, inventory);
    if outcome != NewlyReserved && outcome != AlreadyReserved then (l1, events, Rejected(outcome))
    else if k !in events then
      (CommitOne(l1, k, now).0, events[k := UsageEvent(amount, quota.periodStart)], Consumed)
    else if outcome == NewlyReserved then (Release(l1, k, now), events, Repeated)
    else (l1, events, Repeated)
  }

  lemma ReserveKeepsCounters(
    l: Ledger, quota: EffectiveQuota, amount: int, idempotencyKey: string, now: int, inventory: int)
    requires CountersExist(l)
    ensures CountersExist(ReserveSpec(l, quota, amount, idempotencyKey, now, inventory).0)
  {
  }

  class EventMeter {
    const quota: QuotaService
    var events: map<Key, UsageEvent>

    constructor (service: QuotaService)
      ensures quota == service && events == map[]
    {
      quota, events := service, map[];
    }

    method ConsumeEvent(effective: EffectiveQuota, amount: int, idempotencyKey: string, now: int, inventory: int)
      returns (result: ConsumeResult)
      requires CountersExist(quota.State())
      modifies this, quota
      ensures (quota.State(), events, result) ==
        Consume(old(quota.State()), old(events), effective, amount, idempotencyKey, now, inventory)
    {
      var k := Key(effective.lock, EVENT_PREFIX + idempotencyKey);
      ReserveKeepsCounters(quota.State(), effective, amount, EVENT_PREFIX + idempotencyKey, now, inventory);
      var outcome := quota.Reserve(effective, amount, EVENT_PREFIX + idempotencyKey, now, inventory);
      if outcome != NewlyReserved && outcome != AlreadyReserved { return Rejected(outcome); }
      var recorded := k !in events;
      if recorded {
        events := events[k := UsageEvent(amount, effective.periodStart)];
        var _ := quota.CommitReserved(k, now);
        return Consumed;
      }
      if outcome == NewlyReserved {
        var _ := quota.ReleaseReservation(k, now);
      }
      return Repeated;
    }
  }

  /** A consumed call leaves its reservation COMMITTED, with exactly its amount added to that row's counter. */
  lemma ConsumeCounts(
    l: Ledger, events: map<Key, UsageEvent>, quota: EffectiveQuota, amount: int, idempotencyKey: string, now: int,
    inventory: int)
    requires CountersExist(l)
    requires Consume(l, events, quota, amount, idempotencyKey, now, inventory).2 == Consumed
    ensures var l' := Consume(l, events, quota, amount, idempotencyKey, now, inventory).0;
      var k := Key(quota.lock, EVENT_PREFIX + idempotencyKey);
      && k in l'.reservations && l'.reservations[k].status == Committed && l'.reservations[k].amount == amount
      && var c := l'.reservations[k].counter;
         c in l'.counters && l'.counters[c].value ==
           (if c in l.counters then l.counters[c].value else Baseline(quota.lock.metric, inventory))
           + (if k in l.reservations && l.reservations[k].status == Committed then 0 else amount)
  {
    var text := EVENT_PREFIX + idempotencyKey;
    var (l1, outcome) := ReserveSpec(l, quota, amount, text, now, inventory);
    ReserveKeepsCounters(l, quota, amount, text, now, inventory);
    ReserveLeaves(l, quota, amount, text, now, inventory);
    QuotaAdmission.CommitExactly(l1, Key(quota.lock, text), now);
  }

  /** A reservation that can be committed, on a counter whose usage it has not changed. */
  lemma ReserveLeaves(l: Ledger, quota: EffectiveQuota, amount: int, text: string, now: int, inventory: int)
    requires CountersExist(l)
    requires ReserveSpec(l, quota, amount, text, now, inventory).1 in {NewlyReserved, AlreadyReserved}
    ensures var l1, k := ReserveSpec(l, quota, amount, text, now, inventory).0, Key(quota.lock, text);
      && k in l1.reservations && l1.reservations[k].amount == amount && l1.reservations[k].status in {Reserved, Committed}
      && (l1.reservations[k].status == Committed <==> k in l.reservations && l.reservations[k].status == Committed)
      && var c := l1.reservations[k].counter;
         c in l1.counters && l1.counters[c].value ==
           if c in l.counters then l.counters[c].value else Baseline(quota.lock.metric, inventory)
  {
    QuotaAdmission.ReserveWrites(l, quota, amount, text, now, inventory, Key(quota.lock, text));
    QuotaAdmission.OtherAnswersExactly(l, quota, amount, text, now, inventory);
  }

  /** A retry of a consumed call, whenever and under whatever quota, consumes nothing more. */
  lemma RetryIsIdempotent(
    l: Ledger, events: map<Key, UsageEvent>, quota: EffectiveQuota, amount: int, idempotencyKey: string, now: int,
    inventory: int)
    requires CountersExist(l)
    requires var k := Key(quota.lock, EVENT_PREFIX + idempotencyKey);
      k in events && k in l.reservations && l.reservations[k].status == Committed && l.reservations[k].amount == amount
    requires 0 < amount
    ensures var (l', events', result) := Consume(l, events, quota, amount, idempotencyKey, now, inventory);
      && result == Repeated && events' == events
      && (forall c | c in l.counters :: c in l'.counters && l'.counters[c].value == l.counters[c].value)
  {
    var text := EVENT_PREFIX + idempotencyKey;
    assert text[0] == 'e' && !IsSpace('e');
    assert 'e' in text;
  }

  /** A consumed call writes one usage event, of its amount and in its period; any other call writes none. */
  lemma ConsumeRecords(
    l: Ledger, events: map<Key, UsageEvent>, quota: EffectiveQuota, amount: int, idempotencyKey: string, now: int,
    inventory: int)
    requires CountersExist(l)
    ensures var (_, events', result) := Consume(l, events, quota, amount, idempotencyKey, now, inventory);
      var k := Key(quota.lock, "event:" + idempotencyKey);
      && (result == Consumed ==> k !in events && events' == events[k := UsageEvent(amount, quota.periodStart)])
      && (result != Consumed ==> events' == events)
      && (k in events ==> result != Consumed)
      && (k !in events ==> result != Repeated)
  {
  }

  // ---------------------------------------------------------------------------------------------
  // The steps of one call, and the call
  // ---------------------------------------------------------------------------------------------

  /** What a call does after its insert: commit what it recorded, or give back what it newly reserved. */
  ghost function FinishCall(w: EventWorld, id: nat, tx: nat, k: Key, now: int): EventWorld {
    var done :=
      if id !in w.calls then w
      else if w.calls[id].recorded then
        var locked := EventStep(w, Quota(TakeLock(tx, k.lock)));
        var added := EventStep(EventStep(locked, Quota(ReadRow(tx, k))), Quota(AddUsage(tx, k)));
        EventStep(EventStep(added, Quota(Mark(tx, k, now))), Quota(EndCommit(tx)))
      else if w.calls[id].isNew then EventStep(w, Quota(DoRelease(k, now)))
      else w;
    EventStep(done, Forget(id))
  }

  lemma SoundCountersExist(w: World)
    requires Sound(w)
    ensures CountersExist(w.ledger)
  {
    forall k | k in w.ledger.reservations ensures w.ledger.reservations[k].counter in w.ledger.counters {
      assert RowSound(w.ledger, k, w.ledger.reservations[k]);
    }
  }

  /** A commit alone under its lock leaves the locks as they were and does one turn of the commit loop. */
  lemma CommitAlone(w: EventWorld, id: nat, tx: nat, now: int)
    requires EventSound(w) && id in w.calls && w.calls[id].recorded
    requires w.calls[id].key.lock !in w.quota.held && forall l | l in w.quota.held :: w.quota.held[l] != tx
    requires CountersExist(w.quota.ledger)
    ensures var k := w.calls[id].key;
      FinishCall(w, id, tx, k, now)
        == w.(quota := w.quota.(ledger := CommitOne(w.quota.ledger, k, now).0), calls := w.calls - {id})
  {
    var k := w.calls[id].key;
    assert CallSound(w, w.calls[id]);
    NoClaim(w.quota, k);
    var locked := Step(w.quota, TakeLock(tx, k.lock));
    TakeSound(w.quota, tx, k.lock);
    CommitUninterrupted(locked, tx, k, now);
    var marked := Step(Step(Step(locked, ReadRow(tx, k)), AddUsage(tx, k)), Mark(tx, k, now));
    EndsAlone(w.quota, tx, k.lock, marked);
    assert Admitted(w.(quota := locked), ReadRow(tx, k));
  }

  lemma NoClaim(w: World, k: Key)
    requires Sound(w) && k.lock !in w.held
    ensures k !in w.claims
  {
    assert k in w.claims ==> ClaimSound(w, k, w.claims[k]);
  }

  lemma TakeSound(w: World, tx: nat, lock: LockId)
    requires Sound(w)
    ensures Sound(Step(w, TakeLock(tx, lock)))
  {
    StepSound(w, TakeLock(tx, lock));
  }

  lemma EndsAlone(w: World, tx: nat, lock: LockId, marked: World)
    requires Sound(w) && lock !in w.held && forall l | l in w.held :: w.held[l] != tx
    requires marked.held == w.held[lock := tx] && marked.claims == w.claims
    ensures Step(marked, EndCommit(tx)) == marked.(held := w.held)
  {
    forall k | k in w.claims ensures w.claims[k].tx != tx {
      assert ClaimSound(w, k, w.claims[k]);
    }
    var w' := Step(marked, EndCommit(tx));
    assert w'.held == w.held && w'.claims == w.claims;
  }

  /** The world when the call has made its `reserve` and its insert, by the answer and by the events there were. */
  lemma ReserveAndRecord(w: EventWorld, id: nat, a: Action)
    requires a.DoReserve? && IsEventKey(ReserveKey(a)) && a.quota.lock !in w.quota.held && id !in w.calls
    ensures var outcome, k := OutcomeOf(w.quota, a), ReserveKey(a);
      var w2 := EventStep(EventStep(w, ReserveFor(id, a)), Record(id));
      var reserved := w.(quota := w.quota.(ledger :=
        ReserveSpec(w.quota.ledger, a.quota, a.amount, a.idempotencyKey, a.now, a.inventory).0));
      var call := Call(k, a.amount, a.quota.periodStart, outcome == NewlyReserved, k !in w.events);
      w2 ==
        if outcome != NewlyReserved && outcome != AlreadyReserved then reserved
        else if k in w.events then reserved.(calls := w.calls[id := call])
        else reserved.(calls := w.calls[id := call], events := w.events[k := UsageEvent(a.amount, a.quota.periodStart)])
  {
    if OutcomeOf(w.quota, a) == NewlyReserved || OutcomeOf(w.quota, a) == AlreadyReserved {
      var k := ReserveKey(a);
      var call := Call(k, a.amount, a.quota.periodStart, OutcomeOf(w.quota, a) == NewlyReserved, false);
      assert w.calls[id := call][id := call.(recorded := true)] == w.calls[id := call.(recorded := true)];
    }
  }

  lemma FinishRepeated(w: EventWorld, id: nat, tx: nat, k: Key, now: int)
    requires id in w.calls && !w.calls[id].recorded
    ensures FinishCall(w, id, tx, k, now) ==
      w.(quota := w.quota.(ledger := if w.calls[id].isNew then Release(w.quota.ledger, k, now) else w.quota.ledger),
         calls := w.calls - {id})
  {
  }

  /** `consumeEvent`'s steps, with nothing in between, give exactly the ledger and the events of one call. */
  lemma CallUninterrupted(w: EventWorld, id: nat, tx: nat, a: Action, key: string)
    requires EventSound(w) && CountersExist(w.quota.ledger)
    requires a.DoReserve? && a.idempotencyKey == EVENT_PREFIX + key && a.quota.lock !in w.quota.held && id !in w.calls
    requires forall l | l in w.quota.held :: w.quota.held[l] != tx
    ensures var (l', events', _) := Consume(w.quota.ledger, w.events, a.quota, a.amount, key, a.now, a.inventory);
      FinishCall(EventStep(EventStep(w, ReserveFor(id, a)), Record(id)), id, tx, ReserveKey(a), a.now)
        == w.(quota := w.quota.(ledger := l'), events := events')
  {
    ReserveAndRecord(w, id, a);
    ReserveKeepsCounters(w.quota.ledger, a.quota, a.amount, a.idempotencyKey, a.now, a.inventory);
    var w2 := EventStep(EventStep(w, ReserveFor(id, a)), Record(id));
    assert w2.calls - {id} == w.calls;
    if id !in w2.calls {
      assert FinishCall(w2, id, tx, ReserveKey(a), a.now) == w2;
    } else if w2.calls[id].recorded {
      SoundAfter(w, id, a);
      CommitAlone(w2, id, tx, a.now);
    } else {
      FinishRepeated(w2, id, tx, ReserveKey(a), a.now);
    }
  }

  lemma SoundAfter(w: EventWorld, id: nat, a: Action)
    requires EventSound(w)
    ensures EventSound(EventStep(EventStep(w, ReserveFor(id, a)), Record(id)))
  {
    ReserveForSound(w, id, a);
    RecordSound(EventStep(w, ReserveFor(id, a)), id);
  }
}
