/** What the credit service promises: the best allocation, a balance that can be spent, one
    settlement per reservation, and exactly when the expiry sweep can run. */
module CreditTheorems {
  import opened Common
  import opened EarliestFirst
  import opened Credits
  import opened CreditInvariant

  // ---- Earliest expiry first is optimal ----------------------------------------------

  /** Drawing given amounts from given rows, one update per row. */
  function DrawFrom(lots: seq<Lot>, rows: seq<nat>, takes: seq<int>): (after: seq<Lot>)
    requires |rows| == |takes| && forall i :: 0 <= i < |rows| ==> rows[i] < |lots|
    ensures |after| == |lots|
    decreases |rows|
  {
    if rows == [] then lots
    else DrawFrom(lots[rows[0] := MoveLot(lots[rows[0]], Hold, takes[0])], rows[1..], takes[1..])
  }

  lemma {:induction false} DrawFromAt(lots: seq<Lot>, rows: seq<nat>, takes: seq<int>, i: nat)
    requires |rows| == |takes| && Distinct(rows) && (forall k :: 0 <= k < |rows| ==> rows[k] < |lots|) && i < |lots|
    ensures i !in rows ==> DrawFrom(lots, rows, takes)[i] == lots[i]
    ensures forall k :: 0 <= k < |rows| && rows[k] == i ==> DrawFrom(lots, rows, takes)[i] == MoveLot(lots[i], Hold, takes[k])
    decreases |rows|
  {
    if rows != [] {
      DrawFromAt(lots[rows[0] := MoveLot(lots[rows[0]], Hold, takes[0])], rows[1..], takes[1..], i);
    }
  }

  lemma {:induction false} DrawFromSpendable(lots: seq<Lot>, rows: seq<nat>, takes: seq<int>, instant: int)
    requires |rows| == |takes| && Distinct(rows) && forall k :: 0 <= k < |rows| ==> rows[k] < |lots|
    ensures SpendableAt(DrawFrom(lots, rows, takes), instant)
            == SpendableAt(lots, instant) - DrawnAlive(takes, ExpiriesOf(lots, rows), instant)
    decreases |rows|
  {
    if rows != [] {
      var lots' := lots[rows[0] := MoveLot(lots[rows[0]], Hold, takes[0])];
      SumUpdate(lots, rows[0], lots'[rows[0]], AliveRemaining(instant));
      DrawFromSpendable(lots', rows[1..], takes[1..], instant);
      assert ExpiriesOf(lots', rows[1..]) == ExpiriesOf(lots, rows)[1..];
    }
  }

  lemma {:induction false} DrawNothing(lots: seq<Lot>, rows: seq<nat>, amounts: seq<int>)
    requires |rows| == |amounts| && (forall k :: 0 <= k < |rows| ==> rows[k] < |lots|)
    requires forall k :: 0 <= k < |amounts| ==> amounts[k] >= 0
    ensures DrawFrom(lots, rows, Greedy(amounts, 0)) == lots
    decreases |rows|
  {
    if rows != [] {
      assert lots[rows[0] := MoveLot(lots[rows[0]], Hold, 0)] == lots;
      DrawNothing(lots, rows[1..], amounts[1..]);
      assert Greedy(amounts, 0)[1..] == Greedy(amounts[1..], 0);
    }
  }

  lemma DrawFirst(lots: seq<Lot>, rows: seq<nat>, take: int)
    requires rows != [] && Distinct(rows) && RowsPositive(lots, rows)
    ensures var lots' := lots[rows[0] := MoveLot(lots[rows[0]], Hold, take)];
            && RowsPositive(lots', rows[1..])
            && AmountsOf(lots', rows[1..]) == AmountsOf(lots, rows)[1..]
  {
  }

  /** The loop of `reserve` draws what the greedy rule says. */
  lemma {:induction false} WalkIsGreedy(lots: seq<Lot>, rows: seq<nat>, need: int)
    requires Distinct(rows) && RowsPositive(lots, rows) && need >= 0
    ensures WalkRows(lots, rows, need).lots == DrawFrom(lots, rows, Greedy(AmountsOf(lots, rows), need))
    decreases |rows|
  {
    var amounts := AmountsOf(lots, rows);
    if need == 0 {
      DrawNothing(lots, rows, amounts);
    } else if rows != [] {
      var take := Min(need, lots[rows[0]].remaining);
      DrawFirst(lots, rows, take);
      WalkIsGreedy(lots[rows[0] := MoveLot(lots[rows[0]], Hold, take)], rows[1..], need - take);
      assert Greedy(amounts, need)[1..] == Greedy(amounts[1..], need - take);
    }
  }

  lemma {:induction false} WalkLeaves(lots: seq<Lot>, rows: seq<nat>, need: int)
    requires Distinct(rows) && RowsPositive(lots, rows) && need >= 0
    ensures WalkRows(lots, rows, need).left == need - Min(need, SumBy(AmountsOf(lots, rows), Identity))
    decreases |rows|
  {
    var amounts := AmountsOf(lots, rows);
    SumNonNegative(amounts, Identity);
    if rows != [] && need != 0 {
      var take := Min(need, lots[rows[0]].remaining);
      var lots' := lots[rows[0] := MoveLot(lots[rows[0]], Hold, take)];
      DrawFirst(lots, rows, take);
      WalkLeaves(lots', rows[1..], need - take);
      assert WalkRows(lots, rows, need).left == need - take - Min(need - take, SumBy(amounts[1..], Identity));
      SumFront(amounts);
      SumNonNegative(amounts[1..], Identity);
    }
  }

  lemma QueryRowsPositive(lots: seq<Lot>, now: int, rows: seq<nat>)
    requires SpendableQuery(lots, now, rows)
    ensures RowsPositive(lots, rows)
  {
    assert forall i :: 0 <= i < |rows| ==> rows[i] in rows;
  }

  /** For every instant, the credit unexpired at that instant after `reserve` is at least what
      any other way of drawing the same quantity from the same lots leaves. */
  lemma EarliestExpiryFirstIsBest(
    w: Wallet, quantity: int, reference: string, rows: seq<nat>, now: int, other: seq<int>, instant: int)
    requires Inv(w) && quantity > 0 && SpendableQuery(w.lots, now, rows)
    requires ReserveRows(w, quantity, reference, rows).Done?
    requires Draws(AmountsOf(w.lots, rows), other, quantity)
    ensures SpendableAt(ReserveRows(w, quantity, reference, rows).wallet.lots, instant)
            >= SpendableAt(DrawFrom(w.lots, rows, other), instant)
  {
    QueryRowsPositive(w.lots, now, rows);
    var amounts := AmountsOf(w.lots, rows);
    WalkIsGreedy(w.lots, rows, quantity);
    DrawFromSpendable(w.lots, rows, Greedy(amounts, quantity), instant);
    DrawFromSpendable(w.lots, rows, other, instant);
    GreedyDrawsLeastAlive(amounts, ExpiriesOf(w.lots, rows), quantity, other, quantity, instant);
  }

  /** The rows of the query hold all the spendable credit there is. */
  lemma QueryHoldsAll(w: Wallet, rows: seq<nat>, now: int)
    requires Inv(w) && SpendableQuery(w.lots, now, rows)
    ensures SumBy(AmountsOf(w.lots, rows), Identity) == SpendableAt(w.lots, now)
  {
    var amounts := AmountsOf(w.lots, rows);
    QueryRowsPositive(w.lots, now, rows);
    DrawFromSpendable(w.lots, rows, amounts, now);
    assert forall i :: 0 <= i < |rows| ==> rows[i] in rows;
    DrawnAliveBounds(amounts, ExpiriesOf(w.lots, rows), now);
    var emptied := DrawFrom(w.lots, rows, amounts);
    forall i | 0 <= i < |emptied| ensures AliveRemaining(now)(emptied[i]) == 0 {
      DrawFromAt(w.lots, rows, amounts, i);
      assert LotBalanced(w, i);
      if i in rows {
        var k :| 0 <= k < |rows| && rows[k] == i;
        assert emptied[i] == MoveLot(w.lots[i], Hold, amounts[k]);
      }
    }
    SumZero(emptied, AliveRemaining(now));
  }

  /** A reservation is refused for lack of credit exactly when the unexpired total is too small. */
  lemma ReserveSucceedsExactlyWhenCovered(w: Wallet, quantity: int, reference: string, rows: seq<nat>, now: int)
    requires Inv(w) && quantity > 0 && SpendableQuery(w.lots, now, rows)
    ensures ReserveRows(w, quantity, reference, rows) == Thrown(InsufficientCredits) <==> SpendableAt(w.lots, now) < quantity
    ensures ReserveRows(w, quantity, reference, rows).Done? <==>
              SpendableAt(w.lots, now) >= quantity && !ReferenceUsed(w.reservations, reference)
  {
    QueryRowsPositive(w.lots, now, rows);
    WalkLeaves(w.lots, rows, quantity);
    QueryHoldsAll(w, rows, now);
  }

  // ---- The reported balance ----------------------------------------------------------

  function DeadRemaining(instant: int): Lot -> int {
    (lot: Lot) => if Alive(lot.expiresAt, instant) then 0 else lot.remaining
  }

  lemma {:induction false} AliveAndDead(lots: seq<Lot>, instant: int)
    ensures SumBy(lots, LotRemaining) == SpendableAt(lots, instant) + SumBy(lots, DeadRemaining(instant))
  {
    if lots != [] {
      AliveAndDead(lots[..|lots| - 1], instant);
    }
  }

  /** At any instant the balance is the spendable credit plus what expired lots still hold. */
  lemma BalanceSplits(w: Wallet, now: int)
    requires Inv(w)
    ensures Balance(w) == SpendableAt(w.lots, now) + SumBy(w.lots, DeadRemaining(now))
    ensures Balance(w) >= SpendableAt(w.lots, now) >= 0
    ensures Balance(w) == SpendableAt(w.lots, now) <==> (forall i :: 0 <= i < |w.lots| ==> !Sweepable(w.lots[i], now))
  {
    AliveAndDead(w.lots, now);
    InvNoneNegative(w);
    SumNonNegative(w.lots, AliveRemaining(now));
    SumNonNegative(w.lots, DeadRemaining(now));
    if forall i :: 0 <= i < |w.lots| ==> !Sweepable(w.lots[i], now) {
      SumZero(w.lots, DeadRemaining(now));
    } else {
      var i :| 0 <= i < |w.lots| && Sweepable(w.lots[i], now);
      assert DeadRemaining(now)(w.lots[i]) > 0;
    }
  }

  lemma {:induction false} SweepClears(w: Wallet, rows: seq<nat>)
    requires Distinct(rows) && (forall i :: 0 <= i < |rows| ==> rows[i] < |w.lots|) && SweepRows(w, rows).Done?
    ensures var lots' := SweepRows(w, rows).wallet.lots;
            && |lots'| == |w.lots|
            && forall i :: 0 <= i < |lots'| ==> lots'[i] == if i in rows then w.lots[i].(remaining := 0) else w.lots[i]
    decreases |rows|
  {
    if rows != [] {
      SweepClears(SweepLot(w, rows[0]), rows[1..]);
    }
  }

  /** After a successful sweep the reported balance is the largest quantity that a fresh
      reservation accepts at that instant. */
  lemma SweptBalanceIsLargestReservation(w: Wallet, now: int, swept: seq<nat>, rows: seq<nat>, quantity: int, reference: string)
    requires Inv(w) && SweepQuery(w.lots, now, swept) && SweepRows(w, swept).Done?
    requires SpendableQuery(SweepRows(w, swept).wallet.lots, now, rows)
    requires quantity > 0 && !ReferenceUsed(SweepRows(w, swept).wallet.reservations, reference)
    ensures ReserveRows(SweepRows(w, swept).wallet, quantity, reference, rows).Done?
            <==> quantity <= Balance(SweepRows(w, swept).wallet)
  {
    var w' := SweepRows(w, swept).wallet;
    SweepKeepsInv(w, swept);
    SweepClears(w, swept);
    BalanceSplits(w', now);
    ReserveSucceedsExactlyWhenCovered(w', quantity, reference, rows, now);
  }

  // ---- When the sweep can run --------------------------------------------------------

  /** An expired lot that holds credit although it has been written off before. */
  predicate Stuck(w: Wallet, i: nat, now: int) {
    i < |w.lots| && Sweepable(w.lots[i], now) && ScopeUsed(w.ledger, ExpireLot(i))
  }

  /** The sweep aborts exactly when some lot it has to visit was written off before. */
  lemma SweepAbortsExactlyWhenStuck(w: Wallet, now: int, rows: seq<nat>)
    requires SweepQuery(w.lots, now, rows)
    ensures SweepRows(w, rows).Thrown? <==> exists i: nat :: Stuck(w, i, now)
  {
    SweepAborts(w, rows);
    if SweepRows(w, rows).Thrown? {
      var k :| 0 <= k < |rows| && ScopeUsed(w.ledger, ExpireLot(rows[k]));
      assert rows[k] in rows;
      assert Stuck(w, rows[k], now);
    }
    if i: nat :| Stuck(w, i, now) {
      assert i in rows;
      var k :| 0 <= k < |rows| && rows[k] == i;
      assert ScopeUsed(w.ledger, ExpireLot(rows[k]));
    }
  }

  lemma {:induction false} SweepAborts(w: Wallet, rows: seq<nat>)
    requires Distinct(rows) && forall i :: 0 <= i < |rows| ==> rows[i] < |w.lots|
    ensures SweepRows(w, rows).Thrown? <==> exists k :: 0 <= k < |rows| && ScopeUsed(w.ledger, ExpireLot(rows[k]))
    decreases |rows|
  {
    if rows != [] {
      var first, rest := rows[0], rows[1..];
      if !ScopeUsed(w.ledger, ExpireLot(first)) {
        var w' := SweepLot(w, first);
        SweepAborts(w', rest);
        forall k | 0 <= k < |rest| ensures ScopeUsed(w'.ledger, ExpireLot(rest[k])) <==> ScopeUsed(w.ledger, ExpireLot(rows[k + 1])) {
          ScopeUsedAppend(w.ledger, w'.ledger[|w.ledger|], ExpireLot(rest[k]));
        }
        if k :| 0 <= k < |rows| && ScopeUsed(w.ledger, ExpireLot(rows[k])) {
          assert rest[k - 1] == rows[k];
        }
      }
    }
  }

  lemma ScopeUsedAppend(ledger: seq<Entry>, e: Entry, scope: Scope)
    ensures ScopeUsed(ledger + [e], scope) <==> ScopeUsed(ledger, scope) || e.scope == Some(scope)
  {
    var all := ledger + [e];
    assert all[|ledger|] == e;
    if i :| 0 <= i < |ledger| && ledger[i].scope == Some(scope) {
      assert all[i].scope == Some(scope);
    }
  }

  lemma {:induction false} PurchaseLotMatches(w: Wallet, orderId: string, from: nat)
    requires from <= |w.lots| && PurchaseLot(w, orderId, from).Some?
    ensures var lot := w.lots[PurchaseLot(w, orderId, from).value];
            lot.source < |w.ledger| && PurchaseEntry(w.ledger[lot.source], orderId)
    decreases |w.lots| - from
  {
    if !(w.lots[from].source < |w.ledger| && PurchaseEntry(w.ledger[w.lots[from].source], orderId)) {
      PurchaseLotMatches(w, orderId, from + 1);
    }
  }

  lemma StepKeepsStuck(w: Wallet, step: Step, before: int, now: int, i: nat)
    requires Inv(w) && Stuck(w, i, before) && before <= now && StepOk(w, step, now)
    ensures Stuck(Next(w, step, now), i, now)
  {
    var s :| 0 <= s < |w.ledger| && w.ledger[s].scope == Some(ExpireLot(i));
    var w' := Next(w, step, now);
    if step.SweepStep? {
      assert Stuck(w, i, now);
      SweepAbortsExactlyWhenStuck(w, now, step.swept);
    } else if w' != w {
      assert w'.ledger[s].scope == Some(ExpireLot(i));
      match step {
        case GrantStep(g) =>
        case ReserveStep(q, reference, key, rows) =>
          assert i !in rows;
          QueryRowsPositive(w.lots, now, rows);
          WalkIsGreedy(w.lots, rows, q);
          DrawFromAt(w.lots, rows, Greedy(AmountsOf(w.lots, rows), q), i);
        case SettleStep(id, confirm) =>
          var r := w.reservations[id];
          assert ReservationOk(r, |w.lots|);
          MoveAllAt(w.lots, r.allocations, if confirm then Consume else GiveBack, i);
          SumNonNegative(r.allocations, OnLot(i));
        case RefundStep(orderId, q, refundId) =>
          PurchaseLotMatches(w, orderId, 0);
          assert SourceOk(w, w.lots[PurchaseLot(w, orderId, 0).value]);
      }
    }
  }

  /** A stuck lot stays stuck: from then on every sweep of the wallet aborts, and the ledger
      balance stays above what can be spent. */
  lemma {:induction false} StuckForever(trace: seq<Wallet>, events: seq<Event>, i: nat, before: int, k: nat, now: int, rows: seq<nat>)
    requires Run(trace, events) && Inv(trace[0]) && Stuck(trace[0], i, before)
    requires |events| > 0 ==> before <= events[0].now
    requires k < |trace| && before <= now && (k > 0 ==> events[k - 1].now <= now)
    ensures SweepQuery(trace[k].lots, now, rows) ==> SweepRows(trace[k], rows).Thrown?
    ensures Balance(trace[k]) > SpendableAt(trace[k].lots, now)
  {
    RunKeepsInv(trace, events);
    for n := 0 to k
      invariant Stuck(trace[n], i, if n == 0 then before else events[n - 1].now)
    {
      StepKeepsStuck(trace[n], events[n].step, if n == 0 then before else events[n - 1].now, events[n].now, i);
    }
    assert Stuck(trace[k], i, now);
    if SweepQuery(trace[k].lots, now, rows) {
      SweepAbortsExactlyWhenStuck(trace[k], now, rows);
    }
    BalanceSplits(trace[k], now);
  }

  ghost predicate AnyStuck(w: Wallet, now: int) {
    exists i: nat :: Stuck(w, i, now)
  }

  /** The release of a reservation that holds credit of an expired lot already written off. */
  predicate ReleasesOntoSweptLot(w: Wallet, step: Step, now: int)
    requires ReservationsInRange(w)
  {
    && step.SettleStep? && !step.confirm && step.reservation < |w.reservations|
    && var r := w.reservations[step.reservation];
      && r.status == Reserved
      && exists k :: 0 <= k < |r.allocations| && OntoSweptLot(w, r.allocations[k], now)
  }

  predicate OntoSweptLot(w: Wallet, a: Allocation, now: int) {
    a.lot < |w.lots| && !Alive(w.lots[a.lot].expiresAt, now) && ScopeUsed(w.ledger, ExpireLot(a.lot))
  }

  predicate Returns(w: Wallet, a: Allocation, i: nat, now: int) {
    a.lot == i && OntoSweptLot(w, a, now)
  }

  /** A lot can only get stuck by getting credit back, and only a release gives any back. */
  lemma NewlyStuckWasReleased(w: Wallet, step: Step, now: int, i: nat)
    requires Inv(w) && StepOk(w, step, now) && !Stuck(w, i, now) && Stuck(Next(w, step, now), i, now)
    ensures ReservationsInRange(w) && ReleasesOntoSweptLot(w, step, now)
  {
    InRange(w);
    var w' := Next(w, step, now);
    match step
    case GrantStep(g) => GrantedIsNotStuck(w, g, now, i);
    case ReserveStep(q, reference, key, rows) => ReservedIsNotStuck(w, q, reference, key, rows, now, i);
    case SettleStep(id, confirm) => SettledLot(w, id, confirm, now, i);
    case RefundStep(orderId, q, refundId) => PurchasedIsNotStuck(w, orderId, q, refundId, now, i);
    case SweepStep(rows) => SweptIsNotStuck(w, rows, now, i);
  }

  lemma GrantedIsNotStuck(w: Wallet, g: Grant, now: int, i: nat)
    requires Inv(w) && !Stuck(w, i, now)
    ensures !Stuck(WalletOf(w, GrantCredits(w, g)), i, now)
  {
    var w' := WalletOf(w, GrantCredits(w, g));
    if w' != w {
      forall s | 0 <= s < |w.ledger| ensures w.ledger[s].scope != Some(ExpireLot(|w.lots|)) {
        assert EntryOk(w.ledger[s], |w.lots|);
      }
      ScopeUsedAppend(w.ledger, w'.ledger[|w.ledger|], ExpireLot(i));
    }
  }

  lemma ReservedIsNotStuck(w: Wallet, q: int, reference: string, key: string, rows: seq<nat>, now: int, i: nat)
    requires Inv(w) && SpendableQuery(w.lots, now, rows) && !Stuck(w, i, now)
    ensures !Stuck(WalletOf(w, ReserveCredits(w, q, reference, key, rows)), i, now)
  {
    var w' := WalletOf(w, ReserveCredits(w, q, reference, key, rows));
    if w' != w && i < |w.lots| {
      ScopeUsedAppend(w.ledger, w'.ledger[|w.ledger|], ExpireLot(i));
      QueryRowsPositive(w.lots, now, rows);
      WalkIsGreedy(w.lots, rows, q);
      DrawFromAt(w.lots, rows, Greedy(AmountsOf(w.lots, rows), q), i);
      hide Inv;
      if i in rows {
        var k :| 0 <= k < |rows| && rows[k] == i;
        assert w'.lots[i] == MoveLot(w.lots[i], Hold, Greedy(AmountsOf(w.lots, rows), q)[k]);
      }
    }
  }

  lemma PurchasedIsNotStuck(w: Wallet, orderId: string, q: int, refundId: string, now: int, i: nat)
    requires Inv(w) && !Stuck(w, i, now)
    ensures !Stuck(WalletOf(w, ReservePaidOrderRefund(w, orderId, q, refundId)), i, now)
  {
    var w' := WalletOf(w, ReservePaidOrderRefund(w, orderId, q, refundId));
    if w' != w && q > 0 {
      ScopeUsedAppend(w.ledger, w'.ledger[|w.ledger|], ExpireLot(i));
    }
  }

  lemma SweptIsNotStuck(w: Wallet, rows: seq<nat>, now: int, i: nat)
    requires SweepQuery(w.lots, now, rows) && !Stuck(w, i, now)
    ensures !Stuck(WalletOf(w, SweepRows(w, rows)), i, now)
  {
    if SweepRows(w, rows).Done? {
      SweepClears(w, rows);
    }
  }

  /** A settlement makes a lot stuck exactly when it releases credit onto it and the lot is expired
      and written off. */
  lemma SettledLot(w: Wallet, id: nat, confirm: bool, now: int, i: nat)
    requires Inv(w) && ReservationsInRange(w) && !Stuck(w, i, now)
    ensures Stuck(WalletOf(w, SettleReservation(w, id, confirm)), i, now) <==>
              && !confirm && id < |w.reservations| && w.reservations[id].status == Reserved
              && exists k :: 0 <= k < |w.reservations[id].allocations| && Returns(w, w.reservations[id].allocations[k], i, now)
  {
    var w' := WalletOf(w, SettleReservation(w, id, confirm));
    if id < |w.reservations| && w.reservations[id].status == Reserved {
      var r := w.reservations[id];
      assert ReservationOk(r, |w.lots|);
      ScopeUsedAppend(w.ledger, Entry(r.quantity, Release, r.reference, None), ExpireLot(i));
      if i < |w.lots| {
        assert LotBalanced(w, i);
        MoveAllAt(w.lots, r.allocations, if confirm then Consume else GiveBack, i);
        AllocatedExactlyWhenNamed(r.allocations, i);
      }
    }
  }

  lemma {:induction false} AllocatedExactlyWhenNamed(allocations: seq<Allocation>, i: nat)
    requires forall k :: 0 <= k < |allocations| ==> allocations[k].quantity > 0
    ensures AllocatedTo(allocations, i) >= 0
    ensures AllocatedTo(allocations, i) > 0 <==> exists k :: 0 <= k < |allocations| && allocations[k].lot == i
  {
    if allocations != [] {
      AllocatedExactlyWhenNamed(allocations[..|allocations| - 1], i);
      var last := |allocations| - 1;
      if k :| 0 <= k < last && allocations[k].lot == i {
        assert allocations[..last][k].lot == i;
      }
    }
  }

  /** A wallet without a stuck lot gets one exactly by releasing a reservation with an allocation on
      an expired lot that was already written off. */
  lemma GetsStuckExactlyByRelease(w: Wallet, step: Step, now: int)
    requires Inv(w) && StepOk(w, step, now) && !AnyStuck(w, now)
    ensures ReservationsInRange(w)
    ensures AnyStuck(Next(w, step, now), now) <==> ReleasesOntoSweptLot(w, step, now)
  {
    InRange(w);
    if AnyStuck(Next(w, step, now), now) {
      var i: nat :| Stuck(Next(w, step, now), i, now);
      NewlyStuckWasReleased(w, step, now, i);
    }
    if ReleasesOntoSweptLot(w, step, now) {
      var r := w.reservations[step.reservation];
      var k :| 0 <= k < |r.allocations| && OntoSweptLot(w, r.allocations[k], now);
      assert Returns(w, r.allocations[k], r.allocations[k].lot, now);
      SettledLot(w, step.reservation, false, now, r.allocations[k].lot);
      assert Stuck(Next(w, step, now), r.allocations[k].lot, now);
    }
  }

  // ---- Reservations settle once ------------------------------------------------------

  ghost predicate SameReservation(a: Reservation, b: Reservation) {
    && b == a.(status := b.status)
    && (a.status != Reserved ==> b.status == a.status)
  }

  ghost predicate Extends(a: Wallet, b: Wallet) {
    && |a.reservations| <= |b.reservations|
    && (forall i :: 0 <= i < |a.reservations| ==> SameReservation(a.reservations[i], b.reservations[i]))
    && (forall id :: id in a.keys ==> id in b.keys && b.keys[id] == a.keys[id])
  }

  lemma {:induction false} SweepLeavesReservations(w: Wallet, rows: seq<nat>)
    requires forall i :: 0 <= i < |rows| ==> rows[i] < |w.lots|
    ensures SweepRows(w, rows).Done? ==>
              SweepRows(w, rows).wallet.reservations == w.reservations && SweepRows(w, rows).wallet.keys == w.keys
    decreases |rows|
  {
    if rows != [] {
      SweepLeavesReservations(SweepLot(w, rows[0]), rows[1..]);
    }
  }

  lemma StepExtends(w: Wallet, step: Step, now: int)
    requires StepOk(w, step, now)
    ensures Extends(w, Next(w, step, now))
  {
    if step.SweepStep? {
      SweepLeavesReservations(w, step.swept);
    }
  }

  /** A confirmed or released reservation never changes again, and idempotency keys are kept. */
  lemma {:induction false} RunExtends(trace: seq<Wallet>, events: seq<Event>, from: nat, to: nat)
    requires Run(trace, events) && from <= to < |trace|
    ensures Extends(trace[from], trace[to])
  {
    hide Next, StepOk;
    for n := from to to
      invariant Extends(trace[from], trace[n])
    {
      StepExtends(trace[n], events[n].step, events[n].now);
    }
  }

  /** Retrying a reservation with its key, at any later point of any run, returns the first
      reservation and changes nothing. */
  lemma RetriedReserveIsNoOp(
    trace: seq<Wallet>, events: seq<Event>, from: nat, to: nat, later: int, rows: seq<nat>)
    requires Run(trace, events) && from < to < |trace| && events[from].step.ReserveStep? && events[to - 1].now <= later
    requires var s := events[from].step; ReserveCredits(trace[from], s.quantity, s.reference, s.key, s.rows).Done?
    requires SpendableQuery(trace[to].lots, later, rows)
    ensures var s := events[from].step;
            ReserveCredits(trace[to], s.quantity, s.reference, s.key, rows)
            == Done(trace[to], ReserveCredits(trace[from], s.quantity, s.reference, s.key, s.rows).value)
  {
    RunExtends(trace, events, from + 1, to);
  }

  /** Releasing a reservation at once restores every lot counter and the balance. */
  lemma ReleaseUndoesReserve(w: Wallet, quantity: int, reference: string, rows: seq<nat>, now: int)
    requires Inv(w) && quantity > 0 && SpendableQuery(w.lots, now, rows)
    requires ReserveRows(w, quantity, reference, rows).Done?
    ensures var held := ReserveRows(w, quantity, reference, rows);
            && ReservationsInRange(held.wallet)
            && SettleReservation(held.wallet, held.value, false).Done?
            && SettleReservation(held.wallet, held.value, false).wallet.lots == w.lots
            && Balance(SettleReservation(held.wallet, held.value, false).wallet) == Balance(w)
            && Balance(held.wallet) == Balance(w) - quantity
  {
    var held := ReserveRows(w, quantity, reference, rows);
    var walk := WalkRows(w.lots, rows, quantity);
    QueryRowsPositive(w.lots, now, rows);
    InvNoneNegative(w);
    WalkHolds(w.lots, rows, quantity);
    var r := held.wallet.reservations[held.value];
    forall i | 0 <= i < |held.wallet.reservations|
      ensures AllocationsInRange(held.wallet.reservations[i].allocations, |held.wallet.lots|)
    {
      assert i < |w.reservations| ==> ReservationOk(w.reservations[i], |w.lots|);
    }
    SumAppend(w.ledger, Entry(-quantity, Reserve, reference, None), EntryQuantity);
    SumAppend(held.wallet.ledger, Entry(quantity, Release, reference, None), EntryQuantity);
    GiveBackUndoesHold(w.lots, walk.allocations);
  }

  lemma GiveBackUndoesHold(lots: seq<Lot>, allocations: seq<Allocation>)
    requires AllocationsInRange(allocations, |lots|)
    ensures MoveAll(MoveAll(lots, allocations, Hold), allocations, GiveBack) == lots
  {
    var held := MoveAll(lots, allocations, Hold);
    forall i | 0 <= i < |lots| ensures MoveAll(held, allocations, GiveBack)[i] == lots[i] {
      MoveAllAt(lots, allocations, Hold, i);
      MoveAllAt(held, allocations, GiveBack, i);
    }
  }

  // ---- A run that gets stuck ---------------------------------------------------------

  const DEMO_KEY := "0123456789abcdef"
  const DEMO_GRANT := Grant(AdminCreditGrant, DEMO_KEY, "", 5, "admin:", Some(10))
  const DEMO_HOLD := Reservation(3, Reserved, "job", [Allocation(0, 3)])
  const GRANTED := Wallet([Lot(5, 5, 0, Some(10), 0)], [Entry(5, AdminGrant, "admin:", None)], [],
                          map[KeyId(AdminCreditGrant, DEMO_KEY) := KeyRecord(GrantBody(""), 0)])
  const HELD := GRANTED.(lots := [Lot(5, 2, 3, Some(10), 0)], reservations := [DEMO_HOLD],
                         ledger := GRANTED.ledger + [Entry(-3, Reserve, "job", None)],
                         keys := GRANTED.keys[KeyId(CreditReserve, DEMO_KEY) := KeyRecord(ReserveBody(3, "job"), 0)])
  const SWEPT := HELD.(lots := [Lot(5, 0, 3, Some(10), 0)], ledger := HELD.ledger + [ExpiryEntry(0, 2)])
  const RETURNED := SWEPT.(lots := [Lot(5, 3, 0, Some(10), 0)], reservations := [DEMO_HOLD.(status := Released)],
                           ledger := SWEPT.ledger + [Entry(3, Release, "job", None)])

  lemma DemoHold()
    ensures StepOk(GRANTED, ReserveStep(3, "job", DEMO_KEY, [0]), 1)
    ensures Next(GRANTED, ReserveStep(3, "job", DEMO_KEY, [0]), 1) == HELD
  {
    assert WalkRows(HELD.lots, [0][1..], 0) == Walk(HELD.lots, [], 0);
    assert WalkRows(GRANTED.lots, [0], 3) == Walk(HELD.lots, [Allocation(0, 3)], 0);
  }

  lemma DemoSweep()
    ensures StepOk(HELD, SweepStep([0]), 10) && Next(HELD, SweepStep([0]), 10) == SWEPT
  {
    assert SweepLot(HELD, 0) == SWEPT;
    assert SweepRows(SWEPT, [0][1..]) == Done(SWEPT, ());
  }

  lemma DemoReturn()
    ensures StepOk(SWEPT, SettleStep(0, false), 11) && Next(SWEPT, SettleStep(0, false), 11) == RETURNED
  {
    MoveAllAt(SWEPT.lots, DEMO_HOLD.allocations, GiveBack, 0);
    SumAppend([], Allocation(0, 3), OnLot(0));
    assert [] + [Allocation(0, 3)] == DEMO_HOLD.allocations;
    assert MoveAll(SWEPT.lots, DEMO_HOLD.allocations, GiveBack) == RETURNED.lots;
  }

  lemma DemoGrant()
    ensures Next(Empty, GrantStep(DEMO_GRANT), 0) == GRANTED
  {
  }

  lemma DemoStuck()
    ensures Stuck(RETURNED, 0, 12)
  {
    assert RETURNED.ledger[2] == ExpiryEntry(0, 2);
  }

  lemma RunThenStep(trace: seq<Wallet>, events: seq<Event>, e: Event, after: Wallet)
    returns (trace': seq<Wallet>, events': seq<Event>)
    requires RunFromEmpty(trace, events) && StepOk(trace[|events|], e.step, e.now)
    requires after == Next(trace[|events|], e.step, e.now)
    requires events != [] ==> events[|events| - 1].now <= e.now
    ensures RunFromEmpty(trace', events') && |events'| == |events| + 1
    ensures trace'[|events'|] == after && events'[|events|] == e
  {
    trace', events' := trace + [after], events + [e];
  }

  lemma DemoHeldRun() returns (trace: seq<Wallet>, events: seq<Event>)
    ensures RunFromEmpty(trace, events) && |events| == 2 && trace[2] == HELD && events[1].now == 1
  {
    DemoGrant();
    trace, events := RunThenStep([Empty], [], Event(0, GrantStep(DEMO_GRANT)), GRANTED);
    DemoHold();
    trace, events := RunThenStep(trace, events, Event(1, ReserveStep(3, "job", DEMO_KEY, [0])), HELD);
  }

  lemma DemoSweptRun() returns (trace: seq<Wallet>, events: seq<Event>)
    ensures RunFromEmpty(trace, events) && |events| == 3 && trace[3] == SWEPT && events[2].now == 10
  {
    trace, events := DemoHeldRun();
    DemoSweep();
    trace, events := RunThenStep(trace, events, Event(10, SweepStep([0])), SWEPT);
  }

  /** Grant five credits that expire, reserve three, let the sweep write off the other two,
      release: the three are back on a lot that can no longer be swept. */
  lemma SweepCanGetStuck()
    ensures exists trace, events, now, i :: RunFromEmpty(trace, events) && |trace| == 5 && Stuck(trace[4], i, now)
  {
    var trace, events := DemoSweptRun();
    DemoReturn();
    trace, events := RunThenStep(trace, events, Event(11, SettleStep(0, false)), RETURNED);
    DemoStuck();
  }
}
