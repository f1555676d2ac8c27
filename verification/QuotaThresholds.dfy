/** The 80 and 90 percent events of an event counter under a fixed positive limit. */
module QuotaThresholds {
  import opened Prelude
  import opened Rounding
  import opened QuotaTypes
  import opened QuotaLedger
  import opened QuotaInterleaving

  predicate Level(t: int) {
    t == 80 || t == 90
  }

  /** Some commit has added to the counter and not yet reached its threshold check. */
  ghost predicate CheckDue(w: World, c: CounterId) {
    exists k :: k in w.claims && w.claims[k].counter == c && w.claims[k].incremented
  }

  /** The recorded events are those the usage has reached, but for a check that is still due. */
  ghost predicate Exact(w: World, c: CounterId, limit: int) {
    && (c in w.ledger.counters ==> w.ledger.counters[c].hardLimit == Some(limit))
    && (forall t :: ThresholdKey(c, t) in w.ledger.thresholds ==>
          Level(t) && c in w.ledger.counters && Reached(w.ledger.counters[c].value, limit, t))
    && (c in w.ledger.counters && !CheckDue(w, c) ==>
          forall t :: Level(t) && Reached(w.ledger.counters[c].value, limit, t) ==> ThresholdKey(c, t) in w.ledger.thresholds)
  }

  ghost predicate AuditedOnce(l: Ledger) {
    forall key :: l.thresholdAudits[key] == if key in l.thresholds then 1 else 0
  }

  ghost predicate FixedLimit(a: Action, c: CounterId, limit: int) {
    ReservesOn(a, c) ==> a.quota.hardLimit == Some(limit)
  }

  /** A level this counter has reached under its positive limit. */
  predicate IsReached(key: ThresholdKey, c: CounterId, row: Counter) {
    key.counter == c && Level(key.threshold)
    && row.hardLimit.Some? && row.hardLimit.value > 0 && Reached(row.value, row.hardLimit.value, key.threshold)
  }

  lemma RecordOne(l: Ledger, key: ThresholdKey, usage: int, limit: int, now: int)
    requires AuditedOnce(l)
    ensures var l' := RecordThreshold(l, key, usage, limit, now);
      && AuditedOnce(l')
      && (forall k :: k in l'.thresholds <==> k in l.thresholds || (k == key && Reached(usage, limit, key.threshold)))
  {
  }

  lemma ThresholdsExact(l: Ledger, c: CounterId, now: int)
    requires c in l.counters && AuditedOnce(l)
    ensures var l', row := Thresholds(l, c, now), l.counters[c];
      && AuditedOnce(l')
      && (forall key :: key in l'.thresholds <==> key in l.thresholds || IsReached(key, c, row))
  {
    var row := l.counters[c];
    if row.hardLimit.Some? && row.hardLimit.value > 0 {
      var limit := row.hardLimit.value;
      var l1 := RecordThreshold(l, ThresholdKey(c, 80), row.value, limit, now);
      RecordOne(l, ThresholdKey(c, 80), row.value, limit, now);
      RecordOne(l1, ThresholdKey(c, 90), row.value, limit, now);
      var l' := Thresholds(l, c, now);
      assert l' == RecordThreshold(l1, ThresholdKey(c, 90), row.value, limit, now);
      forall key ensures key in l'.thresholds <==> key in l.thresholds || IsReached(key, c, row) {
        assert key in l'.thresholds <==> (key in l1.thresholds || (key == ThresholdKey(c, 90) && Reached(row.value, limit, 90)));
      }
    }
  }

  lemma ReserveExact(w: World, a: Action, c: CounterId, limit: int)
    requires Sound(w) && IsEvent(c.lock.metric) && 0 < limit && a.DoReserve? && FixedLimit(a, c, limit)
    requires Exact(w, c, limit) && AuditedOnce(w.ledger)
    ensures Exact(Step(w, a), c, limit) && AuditedOnce(Step(w, a).ledger)
  {
    ReserveCases(w, a);
  }

  lemma AddUsageExact(w: World, a: Action, c: CounterId, limit: int)
    requires Sound(w) && a.AddUsage? && 0 < limit && Exact(w, c, limit)
    ensures Exact(Step(w, a), c, limit)
  {
    var w' := Step(w, a);
    if w' != w {
      assert ClaimSound(w, a.key, w.claims[a.key]);
      assert RowSound(w.ledger, a.key, w.ledger.reservations[a.key]);
      if w.claims[a.key].counter == c {
        assert w'.claims[a.key].counter == c && w'.claims[a.key].incremented;
      } else {
        if !CheckDue(w', c) {
          forall k | k in w.claims && w.claims[k].counter == c ensures !w.claims[k].incremented {
            assert k in w'.claims && w'.claims[k] == w.claims[k];
          }
        }
      }
    }
  }

  lemma MarkLedger(w: World, a: Action)
    requires a.Mark? && Step(w, a) != w && AuditedOnce(w.ledger)
    ensures var l', d := Step(w, a).ledger, w.claims[a.key].counter;
      && l'.counters == w.ledger.counters && AuditedOnce(l')
      && d in l'.counters
      && (forall key :: key in l'.thresholds <==> key in w.ledger.thresholds || IsReached(key, d, l'.counters[d]))
  {
    var marked := MarkCommitted(w.ledger, a.key, a.now);
    ThresholdsOnly(marked, w.claims[a.key].counter, a.now);
    ThresholdsExact(marked, w.claims[a.key].counter, a.now);
  }

  lemma MarkExact(w: World, a: Action, c: CounterId, limit: int)
    requires a.Mark? && 0 < limit && Exact(w, c, limit) && AuditedOnce(w.ledger)
    ensures Exact(Step(w, a), c, limit) && AuditedOnce(Step(w, a).ledger)
  {
    var w' := Step(w, a);
    if w' != w {
      MarkLedger(w, a);
      if w.claims[a.key].counter != c && !CheckDue(w', c) {
        forall k | k in w.claims && w.claims[k].counter == c ensures !w.claims[k].incremented {
          assert k in w'.claims && w'.claims[k] == w.claims[k];
        }
      }
    }
  }

  lemma EndExact(w: World, a: Action, c: CounterId, limit: int)
    requires Sound(w) && a.EndCommit? && Exact(w, c, limit)
    ensures Exact(Step(w, a), c, limit)
  {
    var w' := Step(w, a);
    if w' != w && !CheckDue(w', c) {
      forall k | k in w.claims && w.claims[k].counter == c ensures !w.claims[k].incremented {
        if w.claims[k].tx != a.tx { assert k in w'.claims && w'.claims[k] == w.claims[k]; }
      }
    }
  }

  lemma ReadExact(w: World, a: Action, c: CounterId, limit: int)
    requires Sound(w) && a.ReadRow? && Exact(w, c, limit)
    ensures Exact(Step(w, a), c, limit)
  {
    var w' := Step(w, a);
    if w' != w && !CheckDue(w', c) {
      forall k | k in w.claims && w.claims[k].counter == c ensures !w.claims[k].incremented {
        assert k in w'.claims && w'.claims[k] == w.claims[k];
      }
    }
  }

  lemma SyncExact(w: World, a: Action, c: CounterId, limit: int)
    requires a.DoSync? && IsEvent(c.lock.metric) && Exact(w, c, limit)
    ensures Exact(Step(w, a), c, limit) && Step(w, a).ledger.thresholdAudits == w.ledger.thresholdAudits
    ensures Step(w, a).ledger.thresholds == w.ledger.thresholds
  {
    assert Step(w, a).claims == w.claims;
  }

  lemma OtherExact(w: World, a: Action, c: CounterId, limit: int)
    requires (a.DoRelease? || a.DoSweep? || a.TakeLock?) && Exact(w, c, limit)
    ensures Exact(Step(w, a), c, limit)
    ensures Step(w, a).ledger.thresholdAudits == w.ledger.thresholdAudits
    ensures Step(w, a).ledger.thresholds == w.ledger.thresholds
  {
    assert Step(w, a).claims == w.claims && Step(w, a).ledger.counters == w.ledger.counters;
  }

  lemma StepExact(w: World, a: Action, c: CounterId, limit: int)
    requires Sound(w) && IsEvent(c.lock.metric) && 0 < limit && FixedLimit(a, c, limit)
    requires Exact(w, c, limit) && AuditedOnce(w.ledger)
    ensures Exact(Step(w, a), c, limit) && AuditedOnce(Step(w, a).ledger)
  {
    match a
    case DoReserve(_, _, _, _, _) => ReserveExact(w, a, c, limit);
    case AddUsage(_, _) => AddUsageExact(w, a, c, limit);
    case Mark(_, _, _) => MarkExact(w, a, c, limit);
    case EndCommit(_) => EndExact(w, a, c, limit);
    case ReadRow(_, _) => ReadExact(w, a, c, limit);
    case DoSync(_, _) => SyncExact(w, a, c, limit);
    case _ => OtherExact(w, a, c, limit);
  }

  lemma {:induction false} RunExact(actions: seq<Action>, c: CounterId, limit: int)
    requires IsEvent(c.lock.metric) && 0 < limit
    requires forall a | a in actions :: FixedLimit(a, c, limit)
    ensures Exact(Run(INITIAL, actions), c, limit) && AuditedOnce(Run(INITIAL, actions).ledger)
  {
    if actions != [] {
      RunSound(actions[..|actions| - 1]);
      RunExact(actions[..|actions| - 1], c, limit);
      StepExact(Run(INITIAL, actions[..|actions| - 1]), actions[|actions| - 1], c, limit);
    }
  }

  lemma NothingDue(w: World, c: CounterId)
    requires Sound(w) && c.lock !in w.held
    ensures !CheckDue(w, c)
  {
    forall k | k in w.claims ensures w.claims[k].counter != c {
      assert ClaimSound(w, k, w.claims[k]) && RowSound(w.ledger, k, w.ledger.reservations[k]);
    }
  }

  /**
   Under a fixed positive limit, whenever the counter's lock is free the recorded events are exactly
   the levels its usage has reached, each inserted and audited once.
   */
  lemma RecordedLevels(actions: seq<Action>, c: CounterId, limit: int, t: int)
    requires IsEvent(c.lock.metric) && 0 < limit
    requires forall a | a in actions :: FixedLimit(a, c, limit)
    ensures var w := Run(INITIAL, actions);
      c in w.ledger.counters && c.lock !in w.held ==>
        && (ThresholdKey(c, t) in w.ledger.thresholds <==> Level(t) && Reached(w.ledger.counters[c].value, limit, t))
        && w.ledger.thresholdAudits[ThresholdKey(c, t)] == if ThresholdKey(c, t) in w.ledger.thresholds then 1 else 0
  {
    RunExact(actions, c, limit);
    RunSound(actions);
    if c.lock !in Run(INITIAL, actions).held { NothingDue(Run(INITIAL, actions), c); }
  }

  // ---------------------------------------------------------------------------------------------
  // The summary's threshold
  // ---------------------------------------------------------------------------------------------

  /** The threshold `summaryForTenant` shows: from the usage in basis points, rounded down. */
  function SummaryThreshold(usage: nat, limit: Option<int>): Option<int> {
    if limit.None? || limit.value <= 0 then None
    else
      var basis := usage * 10000 / limit.value;
      if basis >= 9000 then Some(90) else if basis >= 8000 then Some(80) else None
  }

  /** Rounding down loses nothing: the summary shows the highest level whose event would be recorded. */
  lemma SummaryAgrees(usage: nat, limit: int)
    requires 0 < limit
    ensures SummaryThreshold(usage, Some(limit)) ==
      if Reached(usage, limit, 90) then Some(90) else if Reached(usage, limit, 80) then Some(80) else None
    ensures Reached(usage, limit, 90) ==> Reached(usage, limit, 80)
  {
    QuotientAtLeast(usage * 10000, limit, 9000);
    QuotientAtLeast(usage * 10000, limit, 8000);
  }
}
