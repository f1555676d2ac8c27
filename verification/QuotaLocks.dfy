/**
 The advisory locks of `reserve`, `synchronizeInventory` and `commitReservations`: each transaction
 takes its keys one by one in ascending order, waits when a key is taken, and frees all at its end.
 Distinct keys are distinct locks.
 */
module QuotaLocks {
  import opened Text
  import opened Totals

  datatype LockPair = LockPair(organization: string, metric: string)

  /** The key the service sorts by and splits again. */
  function KeyOf(pair: LockPair): string {
    pair.organization + ":" + pair.metric
  }

  predicate IsMetricName(metric: string) {
    ':' !in metric
  }

  /** The last colon separates organization and metric, whatever the organization contains. */
  lemma SplitRebuilds(pair: LockPair)
    requires IsMetricName(pair.metric)
    ensures var separator := LastIndexOf(KeyOf(pair), ':');
      && separator == |pair.organization|
      && KeyOf(pair)[..separator] == pair.organization
      && KeyOf(pair)[separator + 1..] == pair.metric
  {
    var key := KeyOf(pair);
    assert key[|pair.organization|] == ':';
    assert forall j | |pair.organization| < j < |key| :: key[j] == pair.metric[j - |pair.organization| - 1];
  }

  lemma KeyInjective(a: LockPair, b: LockPair)
    requires IsMetricName(a.metric) && IsMetricName(b.metric) && KeyOf(a) == KeyOf(b)
    ensures a == b
  {
    SplitRebuilds(a);
    SplitRebuilds(b);
  }

  /** The keys a transaction over these rows takes, in the order it takes them. */
  function Wanted(rows: set<LockPair>): seq<string> {
    Sorted(set row | row in rows :: KeyOf(row))
  }

  /** `commitReservations`, lines 200-210: one lock per distinct row key, ascending, rebuilt by splitting. */
  method LockPlan(rows: seq<LockPair>) returns (locks: seq<LockPair>)
    requires forall row | row in rows :: IsMetricName(row.metric)
    ensures forall pair :: pair in locks <==> pair in rows
    ensures |locks| == |Wanted(set row | row in rows)|
    ensures forall i | 0 <= i < |locks| :: KeyOf(locks[i]) == Wanted(set row | row in rows)[i]
  {
    var keys := Wanted(set row | row in rows);
    locks := [];
    for i := 0 to |keys|
      invariant |locks| == i
      invariant forall j | 0 <= j < i :: locks[j] in rows && KeyOf(locks[j]) == keys[j]
    {
      assert keys[i] in keys;
      ghost var row :| row in rows && KeyOf(row) == keys[i];
      SplitRebuilds(row);
      var separator := LastIndexOf(keys[i], ':');
      locks := locks + [LockPair(keys[i][..separator], keys[i][separator + 1..])];
    }
    forall pair | pair in rows ensures pair in locks {
      assert KeyOf(pair) in keys;
      var i :| 0 <= i < |keys| && keys[i] == KeyOf(pair);
      KeyInjective(pair, locks[i]);
    }
  }

  // ---------------------------------------------------------------------------------------------
  // Concurrent transactions
  // ---------------------------------------------------------------------------------------------

  datatype Tx = Tx(wanted: seq<string>, taken: nat)

  type Running = map<nat, Tx>

  datatype LockAction = Begin(id: nat, rows: set<LockPair>) | Take(id: nat) | End(id: nat) | Crash(id: nat)

  predicate Holds(tx: Tx, key: string) {
    tx.taken <= |tx.wanted| && key in tx.wanted[..tx.taken]
  }

  predicate CanTake(w: Running, id: nat) {
    id in w && w[id].taken < |w[id].wanted|
    && forall other | other in w :: !Holds(w[other], w[id].wanted[w[id].taken])
  }

  predicate CanEnd(w: Running, id: nat) {
    id in w && w[id].taken == |w[id].wanted|
  }

  function LockStep(w: Running, a: LockAction): Running {
    match a
    case Begin(id, rows) => if id in w then w else w[id := Tx(Wanted(rows), 0)]
    case Take(id) => if CanTake(w, id) then w[id := w[id].(taken := w[id].taken + 1)] else w
    case End(id) => if CanEnd(w, id) then w - {id} else w
    case Crash(id) => w - {id}
  }

  function LockRun(w: Running, actions: seq<LockAction>): Running
    decreases |actions|
  {
    if actions == [] then w else LockRun(LockStep(w, actions[0]), actions[1..])
  }

  ghost predicate Ordered(w: Running) {
    && (forall id | id in w :: w[id].taken <= |w[id].wanted| && Ascending(w[id].wanted))
    && (forall i, j, key | i in w && j in w && Holds(w[i], key) && Holds(w[j], key) :: i == j)
  }

  lemma StepOrdered(w: Running, a: LockAction)
    requires Ordered(w)
    ensures Ordered(LockStep(w, a))
  {
    var w' := LockStep(w, a);
    if a.Take? && w' != w {
      var tx := w[a.id];
      assert tx.wanted[..tx.taken + 1] == tx.wanted[..tx.taken] + [tx.wanted[tx.taken]];
      forall i, j, key | i in w' && j in w' && Holds(w'[i], key) && Holds(w'[j], key) ensures i == j {
        assert i != a.id ==> Holds(w[i], key);
        assert j != a.id ==> Holds(w[j], key);
      }
    }
  }

  lemma {:induction false} RunOrdered(w: Running, actions: seq<LockAction>)
    requires Ordered(w)
    ensures Ordered(LockRun(w, actions))
    decreases |actions|
  {
    if actions != [] {
      StepOrdered(w, actions[0]);
      RunOrdered(LockStep(w, actions[0]), actions[1..]);
    }
  }

  function Next(w: Running, id: nat): string
    requires id in w && w[id].taken < |w[id].wanted|
  {
    w[id].wanted[w[id].taken]
  }

  /** Among transactions that all still want a key, one wants a greatest key. */
  lemma {:induction false} GreatestWanted(w: Running, ids: set<nat>) returns (top: nat)
    requires ids != {} && forall id | id in ids :: id in w && w[id].taken < |w[id].wanted|
    ensures top in ids && forall id | id in ids :: Next(w, id) == Next(w, top) || Less(Next(w, id), Next(w, top))
    decreases |ids|
  {
    top :| top in ids;
    if ids != {top} {
      var best := GreatestWanted(w, ids - {top});
      LessTotal(Next(w, best), Next(w, top));
      if Less(Next(w, top), Next(w, best)) {
        top := best;
      } else {
        forall id | id in ids ensures Next(w, id) == Next(w, top) || Less(Next(w, id), Next(w, top)) {
          if id != top && Next(w, id) != Next(w, best) && Next(w, best) != Next(w, top) {
            LessTransitive(Next(w, id), Next(w, best), Next(w, top));
          }
        }
      }
    }
  }

  /** No deadlock: as long as any transaction runs, one of them can take its next lock or end. */
  lemma SomeoneProceeds(w: Running) returns (id: nat)
    requires Ordered(w) && w != map[]
    ensures CanTake(w, id) || CanEnd(w, id)
  {
    if done :| done in w && w[done].taken == |w[done].wanted| {
      return done;
    }
    assert w.Keys != {} by { var any :| any in w; }
    id := GreatestWanted(w, w.Keys);
    forall other | other in w ensures !Holds(w[other], Next(w, id)) {
      if Holds(w[other], Next(w, id)) {
        var tx := w[other];
        var i :| 0 <= i < tx.taken && tx.wanted[i] == Next(w, id);
        assert Less(tx.wanted[i], tx.wanted[tx.taken]);
        assert Next(w, other) == tx.wanted[tx.taken];
        LessIrreflexive(Next(w, id));
        if Next(w, other) != Next(w, id) {
          LessTransitive(Next(w, id), Next(w, other), Next(w, id));
        }
      }
    }
  }

  lemma DeadlockFree(actions: seq<LockAction>)
    ensures var w := LockRun(map[], actions);
      w != map[] ==> exists id :: CanTake(w, id) || CanEnd(w, id)
  {
    RunOrdered(map[], actions);
    if LockRun(map[], actions) != map[] {
      var id := SomeoneProceeds(LockRun(map[], actions));
    }
  }

  /** The steps a transaction still has to make. */
  function Left(w: Running): map<nat, int> {
    map id | id in w :: |w[id].wanted| - w[id].taken + 1
  }

  /** From any reachable moment on, takes and ends alone bring every running transaction to its end. */
  lemma {:induction false} AllFinish(w: Running) returns (schedule: seq<LockAction>)
    requires Ordered(w)
    ensures LockRun(w, schedule) == map[]
    ensures forall a | a in schedule :: a.Take? || a.End?
    ensures |schedule| == Total(Left(w))
    decreases var n := Total(Left(w)); if n < 0 then 0 else n
  {
    TotalNonNegative(Left(w));
    if w == map[] {
      return [];
    }
    var id := SomeoneProceeds(w);
    var a := if CanTake(w, id) then Take(id) else End(id);
    var w' := LockStep(w, a);
    StepOrdered(w, a);
    if CanTake(w, id) {
      assert Left(w') == Left(w)[id := |w[id].wanted| - w[id].taken];
      TotalUpdate(Left(w), id, |w[id].wanted| - w[id].taken);
    } else {
      assert Left(w') == Left(w) - {id};
      TotalRemove(Left(w), id);
    }
    TotalNonNegative(Left(w'));
    var rest := AllFinish(w');
    schedule := [a] + rest;
    assert schedule[1..] == rest;
  }
}
