/** Double entry: the ledger, the lot counters and the reservations always tell the same story. */
module CreditInvariant {
  import opened Common
  import opened Credits

  // ---- The invariant ----------------------------------------------------------------

  ghost predicate LotBalanced(w: Wallet, i: nat)
    requires i < |w.lots|
  {
    var lot := w.lots[i];
    && lot.remaining >= 0
    && lot.reserved == Held(w.reservations, i, Reserved)
    && lot.total == lot.remaining + lot.reserved + Held(w.reservations, i, Confirmed) + WrittenOff(w.ledger, i)
  }

  ghost predicate ReservationOk(r: Reservation, lots: nat) {
    && r.quantity == SumBy(r.allocations, AllocationQuantity)
    && AllocationsInRange(r.allocations, lots)
    && forall k :: 0 <= k < |r.allocations| ==> r.allocations[k].quantity > 0
  }

  ghost predicate EntryOk(e: Entry, lots: nat) {
    match e.scope
    case Some(ExpireLot(lot)) => lot < lots && e.quantity <= 0
    case _ => true
  }

  /** Purchased lots never expire. */
  ghost predicate SourceOk(w: Wallet, lot: Lot) {
    lot.source < |w.ledger| && (w.ledger[lot.source].kind == Purchase ==> lot.expiresAt == None)
  }

  ghost predicate Inv(w: Wallet) {
    && Balance(w) == SumBy(w.lots, LotRemaining)
    && (forall i :: 0 <= i < |w.lots| ==> LotBalanced(w, i))
    && (forall i :: 0 <= i < |w.reservations| ==> ReservationOk(w.reservations[i], |w.lots|))
    && (forall i :: 0 <= i < |w.ledger| ==> EntryOk(w.ledger[i], |w.lots|))
    && (forall i :: 0 <= i < |w.lots| ==> SourceOk(w, w.lots[i]))
  }

  /** No counter of a lot is negative and none exceeds what was granted. */
  lemma CountersInRange(w: Wallet, i: nat)
    requires Inv(w) && i < |w.lots|
    ensures 0 <= w.lots[i].remaining <= w.lots[i].total
    ensures 0 <= w.lots[i].reserved <= w.lots[i].total
    ensures 0 <= WrittenOff(w.ledger, i) <= w.lots[i].total
  {
    assert LotBalanced(w, i);
    HeldNonNegative(w, i, Reserved);
    HeldNonNegative(w, i, Confirmed);
    forall k | 0 <= k < |w.ledger| ensures ExpiredOn(i)(w.ledger[k]) >= 0 {
      assert EntryOk(w.ledger[k], |w.lots|);
    }
    SumNonNegative(w.ledger, ExpiredOn(i));
  }

  /** Every allocation names a lot of the wallet. */
  lemma InRange(w: Wallet)
    requires Inv(w)
    ensures ReservationsInRange(w)
  {
    forall i | 0 <= i < |w.reservations| ensures AllocationsInRange(w.reservations[i].allocations, |w.lots|) {
      assert ReservationOk(w.reservations[i], |w.lots|);
    }
  }

  lemma HeldNonNegative(w: Wallet, i: nat, status: Status)
    requires Inv(w)
    ensures Held(w.reservations, i, status) >= 0
  {
    forall k | 0 <= k < |w.reservations| ensures HeldOn(i, status)(w.reservations[k]) >= 0 {
      assert ReservationOk(w.reservations[k], |w.lots|);
      SumNonNegative(w.reservations[k].allocations, OnLot(i));
    }
    SumNonNegative(w.reservations, HeldOn(i, status));
  }

  // ---- What a list of movements does to each lot -------------------------------------

  lemma {:induction false} MoveAllAt(lots: seq<Lot>, allocations: seq<Allocation>, m: Move, i: nat)
    requires AllocationsInRange(allocations, |lots|) && i < |lots|
    ensures MoveAll(lots, allocations, m)[i] == MoveLot(lots[i], m, AllocatedTo(allocations, i))
  {
    if allocations != [] {
      MoveAllAt(lots, allocations[..|allocations| - 1], m, i);
    }
  }

  lemma {:induction false} MoveAllSum(lots: seq<Lot>, allocations: seq<Allocation>, m: Move)
    requires AllocationsInRange(allocations, |lots|)
    ensures SumBy(MoveAll(lots, allocations, m), LotRemaining)
            == SumBy(lots, LotRemaining) + RemainingDelta(m, SumBy(allocations, AllocationQuantity))
  {
    if allocations != [] {
      var n := |allocations| - 1;
      var a := allocations[n];
      var before := MoveAll(lots, allocations[..n], m);
      MoveAllSum(lots, allocations[..n], m);
      SumUpdate(before, a.lot, MoveLot(before[a.lot], m, a.quantity), LotRemaining);
    }
  }

  lemma {:induction false} MoveAllFront(lots: seq<Lot>, a: Allocation, rest: seq<Allocation>, m: Move)
    requires a.lot < |lots| && AllocationsInRange(rest, |lots|)
    ensures AllocationsInRange([a] + rest, |lots|)
    ensures MoveAll(lots, [a] + rest, m) == MoveAll(lots[a.lot := MoveLot(lots[a.lot], m, a.quantity)], rest, m)
  {
    var all := [a] + rest;
    if rest == [] {
      assert all[..0] == [];
    } else {
      var n := |rest| - 1;
      MoveAllFront(lots, a, rest[..n], m);
      assert all[..|all| - 1] == [a] + rest[..n];
    }
  }

  // ---- Reserve ----------------------------------------------------------------------

  predicate RowsPositive(lots: seq<Lot>, rows: seq<nat>) {
    forall i :: 0 <= i < |rows| ==> rows[i] < |lots| && lots[rows[i]].remaining > 0
  }

  ghost predicate NoneNegative(lots: seq<Lot>) {
    forall i :: 0 <= i < |lots| ==> lots[i].remaining >= 0
  }

  lemma InvNoneNegative(w: Wallet)
    requires Inv(w)
    ensures NoneNegative(w.lots)
  {
    forall i | 0 <= i < |w.lots| ensures w.lots[i].remaining >= 0 {
      assert LotBalanced(w, i);
    }
  }

  /** The walk is a list of positive holds that never overdraws a lot. */
  lemma {:induction false} WalkHolds(lots: seq<Lot>, rows: seq<nat>, need: int)
    requires Distinct(rows) && RowsPositive(lots, rows) && need >= 0 && NoneNegative(lots)
    ensures var walk := WalkRows(lots, rows, need);
            && ReservationOk(Reservation(need - walk.left, Reserved, "", walk.allocations), |lots|)
            && walk.left >= 0
            && walk.lots == MoveAll(lots, walk.allocations, Hold)
            && NoneNegative(walk.lots)
    decreases |rows|
  {
    if rows != [] && need != 0 {
      var take := Min(need, lots[rows[0]].remaining);
      var lots' := lots[rows[0] := MoveLot(lots[rows[0]], Hold, take)];
      assert RowsPositive(lots', rows[1..]);
      WalkHolds(lots', rows[1..], need - take);
      var rest := WalkRows(lots', rows[1..], need - take);
      MoveAllFront(lots, Allocation(rows[0], take), rest.allocations, Hold);
      SumPrepend(Allocation(rows[0], take), rest.allocations, AllocationQuantity);
    }
  }

  lemma ReserveKeepsInv(w: Wallet, quantity: int, reference: string, key: string, rows: seq<nat>, now: int)
    requires Inv(w) && SpendableQuery(w.lots, now, rows)
    ensures Inv(WalletOf(w, ReserveCredits(w, quantity, reference, key, rows)))
  {
    if quantity > 0 && ReserveRows(w, quantity, reference, rows).Done? {
      InvNoneNegative(w);
      assert forall i :: 0 <= i < |rows| ==> rows[i] in rows;
      WalkHolds(w.lots, rows, quantity);
      var walk := WalkRows(w.lots, rows, quantity);
      HoldKeepsInv(w, Reservation(quantity, Reserved, reference, walk.allocations), Entry(-quantity, Reserve, reference, None));
    }
    if quantity > 0 {
      ExecuteKeepsInv(w, KeyId(CreditReserve, key), ReserveBody(quantity, reference), ReserveRows(w, quantity, reference, rows));
    }
  }

  /** Going through the idempotency table keeps whatever the action keeps. */
  lemma ExecuteKeepsInv(w: Wallet, id: KeyId, body: Body, action: Outcome<nat>)
    requires Inv(w) && (action.Done? ==> Inv(action.wallet))
    ensures Inv(WalletOf(w, Execute(w, id, body, action)))
  {
    var b := WalletOf(w, Execute(w, id, body, action));
    var a := if action.Done? then action.wallet else w;
    if b != w {
      forall i | 0 <= i < |b.lots| ensures LotBalanced(b, i) && SourceOk(b, b.lots[i]) {
        assert LotBalanced(a, i) && SourceOk(a, a.lots[i]);
      }
    }
  }

  /** Recording a new reservation together with its holds and its ledger debit. */
  lemma HoldKeepsInv(w: Wallet, r: Reservation, e: Entry)
    requires Inv(w) && ReservationOk(r, |w.lots|) && r.status == Reserved
    requires e.quantity == -r.quantity && (e.scope.Some? ==> e.scope.value.RefundOf?)
    requires NoneNegative(MoveAll(w.lots, r.allocations, Hold))
    ensures Inv(w.(lots := MoveAll(w.lots, r.allocations, Hold), reservations := w.reservations + [r], ledger := w.ledger + [e]))
  {
    var lots' := MoveAll(w.lots, r.allocations, Hold);
    var w' := w.(lots := lots', reservations := w.reservations + [r], ledger := w.ledger + [e]);
    MoveAllSum(w.lots, r.allocations, Hold);
    SumAppend(w.ledger, e, EntryQuantity);
    forall i | 0 <= i < |lots'| ensures LotBalanced(w', i) && SourceOk(w', lots'[i]) {
      assert LotBalanced(w, i) && SourceOk(w, w.lots[i]);
      MoveAllAt(w.lots, r.allocations, Hold, i);
      SumAppend(w.reservations, r, HeldOn(i, Reserved));
      SumAppend(w.reservations, r, HeldOn(i, Confirmed));
      SumAppend(w.ledger, e, ExpiredOn(i));
    }
  }

  lemma RefundKeepsInv(w: Wallet, orderId: string, quantity: int, refundId: string)
    requires Inv(w)
    ensures Inv(WalletOf(w, ReservePaidOrderRefund(w, orderId, quantity, refundId)))
  {
    var o := ReservePaidOrderRefund(w, orderId, quantity, refundId);
    if quantity > 0 && o.Done? {
      var lot := PurchaseLot(w, orderId, 0).value;
      var a := Allocation(lot, quantity);
      var r := Reservation(quantity, Reserved, "refund:" + refundId, [a]);
      assert [a][..0] == [];
      assert MoveAll(w.lots, [a], Hold) == w.lots[lot := MoveLot(w.lots[lot], Hold, quantity)];
      SumAppend([], a, AllocationQuantity);
      assert [] + [a] == [a];
      InvNoneNegative(w);
      HoldKeepsInv(w, r, Entry(-quantity, PurchaseRefundReserve, "refund:" + refundId, Some(RefundOf(refundId))));
    }
  }

  // ---- Settle -----------------------------------------------------------------------

  lemma SettledLotBalanced(w: Wallet, id: nat, confirm: bool, i: nat)
    requires Inv(w) && ReservationsInRange(w) && i < |w.lots|
    requires id < |w.reservations| && w.reservations[id].status == Reserved
    ensures LotBalanced(SettleReservation(w, id, confirm).wallet, i)
  {
    var r := w.reservations[id];
    var r' := r.(status := if confirm then Confirmed else Released);
    assert LotBalanced(w, i) && ReservationOk(r, |w.lots|);
    MoveAllAt(w.lots, r.allocations, if confirm then Consume else GiveBack, i);
    SumNonNegative(r.allocations, OnLot(i));
    SumUpdate(w.reservations, id, r', HeldOn(i, Reserved));
    SumUpdate(w.reservations, id, r', HeldOn(i, Confirmed));
    SumAppend(w.ledger, Entry(r.quantity, Release, r.reference, None), ExpiredOn(i));
  }

  lemma SettledSums(w: Wallet, id: nat, confirm: bool)
    requires Inv(w) && ReservationsInRange(w)
    requires id < |w.reservations| && w.reservations[id].status == Reserved
    ensures var w' := SettleReservation(w, id, confirm).wallet; Balance(w') == SumBy(w'.lots, LotRemaining)
  {
    var r := w.reservations[id];
    assert ReservationOk(r, |w.lots|);
    MoveAllSum(w.lots, r.allocations, if confirm then Consume else GiveBack);
    SumAppend(w.ledger, Entry(r.quantity, Release, r.reference, None), EntryQuantity);
  }

  lemma SettledSourcesOk(w: Wallet, id: nat, confirm: bool)
    requires Inv(w) && ReservationsInRange(w) && id < |w.reservations| && w.reservations[id].status == Reserved
    ensures var w' := WalletOf(w, SettleReservation(w, id, confirm));
            |w'.lots| == |w.lots| && forall i :: 0 <= i < |w'.lots| ==> SourceOk(w', w'.lots[i])
  {
    var w' := WalletOf(w, SettleReservation(w, id, confirm));
    forall i | 0 <= i < |w'.lots| ensures SourceOk(w', w'.lots[i]) {
      assert SourceOk(w, w.lots[i]);
      MoveAllAt(w.lots, w.reservations[id].allocations, if confirm then Consume else GiveBack, i);
    }
  }

  lemma SettleKeepsInv(w: Wallet, id: nat, confirm: bool)
    requires Inv(w) && ReservationsInRange(w)
    ensures Inv(WalletOf(w, SettleReservation(w, id, confirm)))
  {
    if id < |w.reservations| && w.reservations[id].status == Reserved {
      var w' := SettleReservation(w, id, confirm).wallet;
      SettledSums(w, id, confirm);
      SettledSourcesOk(w, id, confirm);
      forall i | 0 <= i < |w'.lots| ensures LotBalanced(w', i) {
        SettledLotBalanced(w, id, confirm, i);
      }
      forall i | 0 <= i < |w'.reservations| ensures ReservationOk(w'.reservations[i], |w'.lots|) {
        assert ReservationOk(w.reservations[i], |w.lots|);
      }
    }
  }

  // ---- Grant ------------------------------------------------------------------------

  lemma NothingOnUnknownLot(w: Wallet, status: Status)
    requires Inv(w)
    ensures Held(w.reservations, |w.lots|, status) == 0 && WrittenOff(w.ledger, |w.lots|) == 0
  {
    var n := |w.lots|;
    forall k | 0 <= k < |w.reservations| ensures HeldOn(n, status)(w.reservations[k]) == 0 {
      assert ReservationOk(w.reservations[k], n);
      SumZero(w.reservations[k].allocations, OnLot(n));
    }
    SumZero(w.reservations, HeldOn(n, status));
    forall k | 0 <= k < |w.ledger| ensures ExpiredOn(n)(w.ledger[k]) == 0 {
      assert EntryOk(w.ledger[k], n);
    }
    SumZero(w.ledger, ExpiredOn(n));
  }

  /** The tables after a grant. */
  function WithLot(w: Wallet, e: Entry, expiresAt: Option<int>): Wallet {
    w.(ledger := w.ledger + [e], lots := w.lots + [Lot(e.quantity, e.quantity, 0, expiresAt, |w.ledger|)])
  }

  lemma GrantedLotBalanced(w: Wallet, e: Entry, expiresAt: Option<int>, i: nat)
    requires Inv(w) && e.quantity > 0 && e.scope == None && i <= |w.lots|
    ensures LotBalanced(WithLot(w, e, expiresAt), i)
  {
    NothingOnUnknownLot(w, Reserved);
    NothingOnUnknownLot(w, Confirmed);
    assert i < |w.lots| ==> LotBalanced(w, i);
    hide Inv;
    SumAppend(w.ledger, e, ExpiredOn(i));
  }

  lemma GrantedRowsOk(w: Wallet, e: Entry, expiresAt: Option<int>)
    requires Inv(w) && e.scope == None && (e.kind == Purchase ==> expiresAt == None)
    ensures var w' := WithLot(w, e, expiresAt);
            && (forall i :: 0 <= i < |w'.lots| ==> SourceOk(w', w'.lots[i]))
            && (forall i :: 0 <= i < |w'.reservations| ==> ReservationOk(w'.reservations[i], |w'.lots|))
            && (forall i :: 0 <= i < |w'.ledger| ==> EntryOk(w'.ledger[i], |w'.lots|))
  {
    var w' := WithLot(w, e, expiresAt);
    forall i | 0 <= i < |w'.lots| ensures SourceOk(w', w'.lots[i]) {
      assert i < |w.lots| ==> SourceOk(w, w.lots[i]);
    }
    forall i | 0 <= i < |w'.reservations| ensures ReservationOk(w'.reservations[i], |w'.lots|) {
      assert ReservationOk(w.reservations[i], |w.lots|);
    }
    forall i | 0 <= i < |w'.ledger| ensures EntryOk(w'.ledger[i], |w'.lots|) {
      assert i < |w.ledger| ==> EntryOk(w.ledger[i], |w.lots|);
    }
  }

  lemma WithLotKeepsInv(w: Wallet, e: Entry, expiresAt: Option<int>)
    requires Inv(w) && e.quantity > 0 && e.scope == None && (e.kind == Purchase ==> expiresAt == None)
    ensures Inv(WithLot(w, e, expiresAt))
  {
    var w' := WithLot(w, e, expiresAt);
    SumAppend(w.ledger, e, EntryQuantity);
    SumAppend(w.lots, w'.lots[|w.lots|], LotRemaining);
    GrantedRowsOk(w, e, expiresAt);
    hide LotBalanced, SourceOk, ReservationOk, EntryOk;
    forall i | 0 <= i < |w'.lots| ensures LotBalanced(w', i) {
      GrantedLotBalanced(w, e, expiresAt, i);
    }
  }

  lemma GrantKeepsInv(w: Wallet, g: Grant)
    requires Inv(w) && GrantOk(g)
    ensures Inv(WalletOf(w, GrantCredits(w, g)))
  {
    hide Inv;
    if g.quantity > 0 {
      WithLotKeepsInv(w, Entry(g.quantity, KindOf(g.operation), g.reference, None), g.expiresAt);
    }
    ExecuteKeepsInv(w, KeyId(g.operation, g.key), GrantBody(g.body),
                    GrantLot(w, g.quantity, KindOf(g.operation), g.reference, g.expiresAt));
  }

  // ---- Sweep ------------------------------------------------------------------------

  lemma SweepLotKeepsInv(w: Wallet, row: nat)
    requires Inv(w) && row < |w.lots|
    ensures Inv(SweepLot(w, row))
  {
    var w' := SweepLot(w, row);
    var e := ExpiryEntry(row, w.lots[row].remaining);
    assert LotBalanced(w, row);
    SumUpdate(w.lots, row, w.lots[row].(remaining := 0), LotRemaining);
    SumAppend(w.ledger, e, EntryQuantity);
    forall i | 0 <= i < |w'.lots| ensures LotBalanced(w', i) && SourceOk(w', w'.lots[i]) {
      assert LotBalanced(w, i) && SourceOk(w, w.lots[i]);
      SumAppend(w.ledger, e, ExpiredOn(i));
    }
  }

  lemma {:induction false} SweepKeepsInv(w: Wallet, rows: seq<nat>)
    requires Inv(w) && forall i :: 0 <= i < |rows| ==> rows[i] < |w.lots|
    ensures SweepRows(w, rows).Done? ==> Inv(SweepRows(w, rows).wallet)
    decreases |rows|
  {
    if rows != [] {
      SweepLotKeepsInv(w, rows[0]);
      SweepKeepsInv(SweepLot(w, rows[0]), rows[1..]);
    }
  }

  // ---- Every run --------------------------------------------------------------------

  lemma StepKeepsInv(w: Wallet, step: Step, now: int)
    requires Inv(w) && StepOk(w, step, now)
    ensures Inv(Next(w, step, now))
  {
    match step
    case GrantStep(g) => GrantKeepsInv(w, g);
    case ReserveStep(q, reference, key, rows) => ReserveKeepsInv(w, q, reference, key, rows, now);
    case SettleStep(id, confirm) => SettleKeepsInv(w, id, confirm);
    case RefundStep(orderId, q, refundId) => RefundKeepsInv(w, orderId, q, refundId);
    case SweepStep(rows) => SweepKeepsInv(w, rows);
  }

  /** Double entry holds in every reachable wallet. */
  lemma {:induction false} EveryRunBalances(trace: seq<Wallet>, events: seq<Event>)
    requires RunFromEmpty(trace, events)
    ensures forall i :: 0 <= i < |trace| ==> Inv(trace[i])
  {
    RunKeepsInv(trace, events);
  }

  lemma {:induction false} RunKeepsInv(trace: seq<Wallet>, events: seq<Event>)
    requires Run(trace, events) && Inv(trace[0])
    ensures forall i :: 0 <= i < |trace| ==> Inv(trace[i])
  {
    for k := 0 to |events|
      invariant forall i :: 0 <= i <= k ==> Inv(trace[i])
    {
      StepKeepsInv(trace[k], events[k].step, events[k].now);
    }
  }
}
