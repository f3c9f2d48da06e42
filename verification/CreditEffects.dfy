/** Which rows the credit service touches: the lot of the right order, the first answer of a key. */
module CreditEffects {
  import opened Common
  import opened Credits
  import opened CreditInvariant
  import opened CreditTheorems

  // ---- The lot of a paid order ----------------------------------------------------------------------

  /** The lot came from a PURCHASE booked for the order. */
  predicate BoughtBy(w: Wallet, lot: nat, orderId: string) {
    && lot < |w.lots| && w.lots[lot].source < |w.ledger|
    && w.ledger[w.lots[lot].source].kind == Purchase && w.ledger[w.lots[lot].source].reference == "order:" + orderId
  }

  ghost predicate FirstBoughtBy(w: Wallet, lot: nat, orderId: string) {
    BoughtBy(w, lot, orderId) && forall k :: 0 <= k < lot ==> !BoughtBy(w, k, orderId)
  }

  lemma {:induction false} PurchaseLotIsFirst(w: Wallet, orderId: string, from: nat)
    requires from <= |w.lots|
    ensures match PurchaseLot(w, orderId, from)
            case Some(lot) => BoughtBy(w, lot, orderId) && forall k :: from <= k < lot ==> !BoughtBy(w, k, orderId)
            case None => forall k :: from <= k ==> !BoughtBy(w, k, orderId)
    decreases |w.lots| - from
  {
    if from < |w.lots| && !BoughtBy(w, from, orderId) {
      PurchaseLotIsFirst(w, orderId, from + 1);
    }
  }

  /** The wallet when the refund holds `quantity` on one lot and on nothing else. */
  ghost predicate HeldOnLot(w: Wallet, after: Wallet, lot: nat, quantity: int, refundId: string)
    requires lot < |w.lots|
  {
    var reference := "refund:" + refundId;
    && after.lots == w.lots[lot := w.lots[lot].(remaining := w.lots[lot].remaining - quantity, reserved := w.lots[lot].reserved + quantity)]
    && after.reservations == w.reservations + [Reservation(quantity, Reserved, reference, [Allocation(lot, quantity)])]
    && after.ledger == w.ledger + [Entry(-quantity, PurchaseRefundReserve, reference, Some(RefundOf(refundId)))]
    && after.keys == w.keys
  }

  /** The refund was held before: its reservation or its ledger row exists. */
  ghost predicate RefundKnown(w: Wallet, refundId: string) {
    || (exists i :: 0 <= i < |w.reservations| && w.reservations[i].reference == "refund:" + refundId)
    || (exists i :: 0 <= i < |w.ledger| && w.ledger[i].scope == Some(RefundOf(refundId)))
  }

  /** A refund is refused for used credits exactly when no lot was bought by its order, or the first
      such lot holds less than the refund takes back; otherwise it holds that quantity on that lot. */
  lemma RefundTakesTheOrdersLot(w: Wallet, orderId: string, quantity: int, refundId: string)
    requires quantity > 0
    ensures var o := ReservePaidOrderRefund(w, orderId, quantity, refundId);
            && (o == Thrown(CreditsAlreadyUsed) <==>
                  forall lot: nat :: FirstBoughtBy(w, lot, orderId) ==> w.lots[lot].remaining < quantity)
            && (o == Thrown(UniqueViolation) <==>
                  RefundKnown(w, refundId) && exists lot: nat :: FirstBoughtBy(w, lot, orderId) && w.lots[lot].remaining >= quantity)
            && (o.Thrown? ==> o.error in {CreditsAlreadyUsed, UniqueViolation})
            && (o.Done? ==> o.value == Some(|w.reservations|))
            && (o.Done? ==>
                  exists lot: nat :: FirstBoughtBy(w, lot, orderId) && w.lots[lot].remaining >= quantity && HeldOnLot(w, o.wallet, lot, quantity, refundId))
  {
    PurchaseLotIsFirst(w, orderId, 0);
    var found := PurchaseLot(w, orderId, 0);
    if found.Some? {
      assert FirstBoughtBy(w, found.value, orderId);
      forall lot: nat | FirstBoughtBy(w, lot, orderId) ensures lot == found.value {
        assert !(lot < found.value) && !(found.value < lot);
      }
    }
    hide PurchaseLot, BoughtBy;
  }

  // ---- Reserving and settling ---------------------------------------------------------------------------

  /** What a fresh reservation writes: one reservation of the quantity, made of holds on the lots of the
      query, and one RESERVE row. */
  lemma ReservationStored(w: Wallet, quantity: int, reference: string, key: string, rows: seq<nat>, now: int)
    requires Inv(w) && SpendableQuery(w.lots, now, rows) && KeyId(CreditReserve, key) !in w.keys
    ensures match ReserveCredits(w, quantity, reference, key, rows)
            case Thrown(e) => true
            case Done(after, id) =>
              && quantity > 0 && 16 <= |key| <= 128 && id == |w.reservations| && |after.reservations| == id + 1
              && after.ledger == w.ledger + [Entry(-quantity, Reserve, reference, None)]
              && after.keys == w.keys[KeyId(CreditReserve, key) := KeyRecord(ReserveBody(quantity, reference), id)]
              && var r := after.reservations[id];
                 && after.reservations == w.reservations + [r] && r.status == Reserved && r.quantity == quantity && r.reference == reference
                 && AllocationsInRange(r.allocations, |w.lots|) && after.lots == MoveAll(w.lots, r.allocations, Hold)
                 && SumBy(r.allocations, AllocationQuantity) == quantity
  {
    hide Inv, WalkRows, MoveAll, ReferenceUsed, SpendableQuery, AllocationsInRange, SumBy;
    assert forall i :: 0 <= i < |rows| ==> rows[i] < |w.lots| by { QueryInRange(w, rows, now); }
    if quantity > 0 {
      QueryIsWalked(w, rows, quantity, now);
    }
  }

  lemma QueryInRange(w: Wallet, rows: seq<nat>, now: int)
    requires SpendableQuery(w.lots, now, rows)
    ensures forall i :: 0 <= i < |rows| ==> rows[i] < |w.lots|
  {
  }

  lemma QueryIsWalked(w: Wallet, rows: seq<nat>, quantity: int, now: int)
    requires Inv(w) && SpendableQuery(w.lots, now, rows) && quantity > 0
    ensures var walk := WalkRows(w.lots, rows, quantity);
            && walk.left >= 0 && AllocationsInRange(walk.allocations, |w.lots|) && walk.lots == MoveAll(w.lots, walk.allocations, Hold)
            && SumBy(walk.allocations, AllocationQuantity) == quantity - walk.left
  {
    forall i | 0 <= i < |w.lots| ensures w.lots[i].remaining >= 0 {
      assert LotBalanced(w, i);
    }
    hide Inv, MoveAll, WalkRows;
    WalkHolds(w.lots, rows, quantity);
  }

  /** Settling decides once: a confirmation consumes the holds and books nothing, a release gives them
      back and books them under the reservation's reference. */
  lemma SettlementStored(w: Wallet, id: nat, confirm: bool)
    requires ReservationsInRange(w)
    ensures var o := SettleReservation(w, id, confirm);
            if id >= |w.reservations| then o == Thrown(NotFound)
            else
              var r := w.reservations[id];
              if r.status != Reserved then o == Done(w, r.status)
              else if confirm then
                o == Done(w.(lots := MoveAll(w.lots, r.allocations, Consume), reservations := w.reservations[id := r.(status := Confirmed)]), Confirmed)
              else
                o == Done(w.(lots := MoveAll(w.lots, r.allocations, GiveBack), reservations := w.reservations[id := r.(status := Released)],
                             ledger := w.ledger + [Entry(r.quantity, Release, r.reference, None)]),
                          Released)
  {
    hide MoveAll;
  }

  // ---- Keys ------------------------------------------------------------------------------------------------

  /** In every run a key that was used for a reservation is refused for any other quantity or reference
      and answered with the first reservation for the same. */
  lemma ReservationKeyIsBound(trace: seq<Wallet>, events: seq<Event>, from: nat, to: nat, quantity: int, reference: string, rows: seq<nat>)
    requires Run(trace, events) && from < to < |trace| && events[from].step.ReserveStep?
    requires var s := events[from].step; ReserveCredits(trace[from], s.quantity, s.reference, s.key, s.rows).Done?
    requires forall i :: 0 <= i < |rows| ==> rows[i] < |trace[to].lots|
    ensures var s := events[from].step;
            ReserveCredits(trace[to], quantity, reference, s.key, rows)
            == if quantity <= 0 then Thrown(ValidationFailed)
               else if quantity == s.quantity && reference == s.reference
               then Done(trace[to], ReserveCredits(trace[from], s.quantity, s.reference, s.key, s.rows).value)
               else Thrown(BodyMismatch)
  {
    RunExtends(trace, events, from + 1, to);
    hide ReserveRows;
  }

  /** The same for grants: a purchase, an administrative grant, a refund or a paid order happens once
      for its key. */
  lemma GrantKeyIsBound(trace: seq<Wallet>, events: seq<Event>, from: nat, to: nat, g: Grant)
    requires Run(trace, events) && from < to < |trace| && events[from].step.GrantStep?
    requires GrantCredits(trace[from], events[from].step.grant).Done?
    requires g.operation == events[from].step.grant.operation && g.key == events[from].step.grant.key
    ensures GrantCredits(trace[to], g)
            == if g.quantity <= 0 && g.operation == AdminCreditGrant then Thrown(Forbidden)
               else if g.quantity <= 0 && g.operation != CreditPurchase then Thrown(ValidationFailed)
               else if g.body == events[from].step.grant.body then Done(trace[to], GrantCredits(trace[from], events[from].step.grant).value)
               else Thrown(BodyMismatch)
  {
    RunExtends(trace, events, from + 1, to);
    hide GrantLot;
  }

  /** What a fresh grant writes: one entry of its kind and one lot that names it. */
  lemma GrantStored(w: Wallet, g: Grant)
    requires KeyId(g.operation, g.key) !in w.keys
    ensures var kind := match g.operation case AdminCreditGrant => AdminGrant case CreditRefund => Refund case _ => Purchase;
            var entry := |w.ledger|;
            GrantCredits(w, g)
            == if g.quantity <= 0 && g.operation == AdminCreditGrant then Thrown(Forbidden)
               else if !(16 <= |g.key| <= 128) || g.quantity <= 0 then Thrown(ValidationFailed)
               else Done(Wallet(w.lots + [Lot(g.quantity, g.quantity, 0, g.expiresAt, entry)], w.ledger + [Entry(g.quantity, kind, g.reference, None)],
                                w.reservations, w.keys[KeyId(g.operation, g.key) := KeyRecord(GrantBody(g.body), entry)]),
                         entry)
  {
  }
}
