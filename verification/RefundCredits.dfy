/** The credit side of refunding one paid order: each refund holds its share of the credits that
    the order bought, in the owner's wallet, while any other credit operation goes on. */
module RefundCredits {
  import opened Common
  import opened Credits
  import opened CreditInvariant
  import CreditTheorems

  datatype RefundStatus = InProgress | Settled | Failed

  datatype OrderRefund = OrderRefund(amount: int, status: RefundStatus, reservation: Option<nat>)

  /** `total` is the order's amount and `included` the credits its plan granted. */
  datatype Account = Account(orderId: string, total: int, included: nat, succeeded: bool, refunded: int,
                             refunds: seq<OrderRefund>, wallet: Wallet)

  /** The credits that a refund of `amount` takes back. */
  function Share(included: nat, amount: int, total: int): int
    requires total > 0
  {
    if amount == total then included else included * amount / total
  }

  datatype Answer = Accepted(id: nat) | Refused(error: Error) | Rejected

  datatype Reply = Reply(account: Account, answer: Answer)

  /** Hold the share; when the provider then throws, release it again. */
  function HoldShare(w: Wallet, orderId: string, share: int, refundId: string, providerOk: bool): Outcome<Option<nat>> {
    match ReservePaidOrderRefund(w, orderId, share, refundId)
    case Thrown(e) => Thrown(e)
    case Done(held, reservation) => Done(if providerOk then held else Release(held, reservation), reservation)
  }

  /** `RefundService::request`: a refund that the provider refuses is kept as FAILED. */
  function Request(a: Account, amount: int, refundId: string, providerOk: bool): Reply
    requires a.total > 0
  {
    if amount <= 0 || !a.succeeded || a.refunded + amount > a.total then Reply(a, Rejected)
    else match HoldShare(a.wallet, a.orderId, Share(a.included, amount, a.total), refundId, providerOk)
      case Thrown(e) => Reply(a, Refused(e))
      case Done(after, reservation) =>
        Reply(a.(wallet := after, refunds := a.refunds + [OrderRefund(amount, if providerOk then InProgress else Failed, reservation)]),
              Accepted(|a.refunds|))
  }

  function Release(w: Wallet, reservation: Option<nat>): Wallet {
    if reservation.Some? && ReservationsInRange(w) then WalletOf(w, SettleReservation(w, reservation.value, false)) else w
  }

  /** `RefundService::confirm`. */
  function Confirm(a: Account, id: nat, succeeded: bool): Account
    requires ReservationsInRange(a.wallet)
  {
    if id >= |a.refunds| || a.refunds[id].status != InProgress then a
    else
      var r := a.refunds[id];
      if succeeded && a.refunded + r.amount > a.total then a
      else
        var wallet := if r.reservation.Some? then WalletOf(a.wallet, SettleReservation(a.wallet, r.reservation.value, succeeded)) else a.wallet;
        a.(wallet := wallet,
           refunds := a.refunds[id := r.(status := if succeeded then Settled else Failed)],
           refunded := if succeeded then a.refunded + r.amount else a.refunded,
           succeeded := a.succeeded && !succeeded)
  }

  // ---- Invariant ----------------------------------------------------------------------

  function ReservationStatus(s: RefundStatus): Status {
    match s case InProgress => Reserved case Settled => Confirmed case Failed => Released
  }

  function SettledAmount(r: OrderRefund): int {
    if r.status == Settled then r.amount else 0
  }

  ghost predicate RefundOk(a: Account, r: OrderRefund)
    requires a.total > 0
  {
    && 0 < r.amount <= a.total
    && match r.reservation
       case None => Share(a.included, r.amount, a.total) <= 0
       case Some(k) =>
         && k < |a.wallet.reservations|
         && a.wallet.reservations[k].quantity == Share(a.included, r.amount, a.total) > 0
         && a.wallet.reservations[k].status == ReservationStatus(r.status)
  }

  ghost predicate AccountOk(a: Account) {
    && a.total > 0 && Inv(a.wallet)
    && (forall i :: 0 <= i < |a.refunds| ==> RefundOk(a, a.refunds[i]))
    && (forall i, j :: 0 <= i < j < |a.refunds| && a.refunds[i].reservation.Some? ==> a.refunds[i].reservation != a.refunds[j].reservation)
    && a.refunded == SumBy(a.refunds, SettledAmount) && a.refunded <= a.total
  }

  /** A single hold and its immediate release cancel out. */
  lemma ReleaseUndoesHold(w: Wallet, orderId: string, quantity: int, refundId: string)
    requires Inv(w) && quantity > 0 && ReservePaidOrderRefund(w, orderId, quantity, refundId).Done?
    ensures var held := ReservePaidOrderRefund(w, orderId, quantity, refundId);
            && held.value == Some(|w.reservations|) && Inv(held.wallet) && ReservationsInRange(held.wallet)
            && var after := Release(held.wallet, held.value);
               && Inv(after) && after.lots == w.lots && Balance(after) == Balance(w)
               && after.reservations == w.reservations + [held.wallet.reservations[|w.reservations|].(status := Released)]
  {
    var held := ReservePaidOrderRefund(w, orderId, quantity, refundId);
    RefundKeepsInv(w, orderId, quantity, refundId);
    InRange(held.wallet);
    var n := |w.reservations|;
    var r := held.wallet.reservations[n];
    SettleKeepsInv(held.wallet, n, false);
    var a := r.allocations[0];
    assert r.allocations[..0] == [];
    assert MoveAll(w.lots, r.allocations, Hold) == held.wallet.lots;
    CreditTheorems.GiveBackUndoesHold(w.lots, r.allocations);
    SumAppend(w.ledger, held.wallet.ledger[|w.ledger|], EntryQuantity);
    SumAppend(held.wallet.ledger, Entry(r.quantity, Credits.Release, r.reference, None), EntryQuantity);
  }

  /** A refund that the provider refuses leaves every lot counter and the balance as they were. */
  lemma FailedRequestRestores(a: Account, amount: int, refundId: string)
    requires AccountOk(a) && ReservationsInRange(a.wallet)
    ensures var after := Request(a, amount, refundId, false).account;
            && after.wallet.lots == a.wallet.lots && Balance(after.wallet) == Balance(a.wallet) && after.refunded == a.refunded
  {
    var share := Share(a.included, amount, a.total);
    if share > 0 && ReservePaidOrderRefund(a.wallet, a.orderId, share, refundId).Done? {
      ReleaseUndoesHold(a.wallet, a.orderId, share, refundId);
    }
  }

  /** A refund that fails later gives back exactly what it still holds, and only that. */
  lemma FailedConfirmGivesBack(a: Account, id: nat)
    requires AccountOk(a) && ReservationsInRange(a.wallet) && id < |a.refunds| && a.refunds[id].status == InProgress
    ensures var after := Confirm(a, id, false);
            var share := Share(a.included, a.refunds[id].amount, a.total);
            && after.refunded == a.refunded && |after.wallet.lots| == |a.wallet.lots|
            && Balance(after.wallet) == Balance(a.wallet) + Max(share, 0)
            && (a.refunds[id].reservation.Some? ==>
                  forall i :: 0 <= i < |a.wallet.lots| ==>
                    after.wallet.lots[i] == MoveLot(a.wallet.lots[i], GiveBack, AllocatedTo(a.wallet.reservations[a.refunds[id].reservation.value].allocations, i)))
  {
    var r := a.refunds[id];
    assert RefundOk(a, r);
    if r.reservation.Some? {
      var reservation := a.wallet.reservations[r.reservation.value];
      assert ReservationOk(reservation, |a.wallet.lots|);
      SumAppend(a.wallet.ledger, Entry(reservation.quantity, Credits.Release, reservation.reference, None), EntryQuantity);
      forall i | 0 <= i < |a.wallet.lots|
        ensures MoveAll(a.wallet.lots, reservation.allocations, GiveBack)[i] == MoveLot(a.wallet.lots[i], GiveBack, AllocatedTo(reservation.allocations, i))
      {
        MoveAllAt(a.wallet.lots, reservation.allocations, GiveBack, i);
      }
    }
  }

  /** The wallet after a request, and the reservation that the refund refers to. */
  lemma RequestWallet(a: Account, amount: int, refundId: string, providerOk: bool, after: Account)
    requires AccountOk(a) && ReservationsInRange(a.wallet) && after == Request(a, amount, refundId, providerOk).account && after != a
    ensures Inv(after.wallet) && 0 < amount <= a.total && |after.refunds| == |a.refunds| + 1
    ensures var r := after.refunds[|a.refunds|];
            && after == a.(wallet := after.wallet, refunds := a.refunds + [r])
            && r.amount == amount && r.status != Settled && RefundOk(after, r)
            && (r.reservation.Some? ==> r.reservation.value == |a.wallet.reservations|)
    ensures a.wallet.reservations <= after.wallet.reservations
  {
    var share := Share(a.included, amount, a.total);
    assert a.refunded >= 0 by {
      SumNonNegative(a.refunds, SettledAmount);
      assert forall i :: 0 <= i < |a.refunds| ==> RefundOk(a, a.refunds[i]);
    }
    RefundKeepsInv(a.wallet, a.orderId, share, refundId);
    if share > 0 {
      ReleaseUndoesHold(a.wallet, a.orderId, share, refundId);
    }
  }

  lemma RequestKeepsAccount(a: Account, amount: int, refundId: string, providerOk: bool)
    requires AccountOk(a) && ReservationsInRange(a.wallet)
    ensures AccountOk(Request(a, amount, refundId, providerOk).account)
  {
    var after := Request(a, amount, refundId, providerOk).account;
    if after != a {
      RequestWallet(a, amount, refundId, providerOk, after);
      hide Request, ReservationsInRange;
      AddedRefundOk(a, after.wallet, after.refunds[|a.refunds|]);
    }
  }

  /** Adding a refund with a reservation of its own keeps the account in order. */
  lemma AddedRefundOk(a: Account, wallet: Wallet, r: OrderRefund)
    requires AccountOk(a) && Inv(wallet) && a.wallet.reservations <= wallet.reservations
    requires r.status != Settled && RefundOk(a.(wallet := wallet), r)
    requires r.reservation.Some? ==> r.reservation.value == |a.wallet.reservations|
    ensures AccountOk(a.(wallet := wallet, refunds := a.refunds + [r]))
  {
    hide Inv, Share;
    var after := a.(wallet := wallet, refunds := a.refunds + [r]);
    SumAppend(a.refunds, r, SettledAmount);
    forall i | 0 <= i < |after.refunds| ensures RefundOk(after, after.refunds[i]) {
      assert i < |a.refunds| ==> RefundOk(a, a.refunds[i]);
    }
    forall i, j | 0 <= i < j < |after.refunds| && after.refunds[i].reservation.Some?
      ensures after.refunds[i].reservation != after.refunds[j].reservation
    {
      assert RefundOk(a, a.refunds[i]);
    }
  }

  /** Settling touches the one reservation only. */
  lemma SettledReservations(w: Wallet, k: nat, confirm: bool)
    requires ReservationsInRange(w) && k < |w.reservations|
    ensures WalletOf(w, SettleReservation(w, k, confirm)).reservations
            == if w.reservations[k].status != Reserved then w.reservations
               else w.reservations[k := w.reservations[k].(status := if confirm then Confirmed else Released)]
  {
    hide MoveAll;
  }

  /** What a confirmation does to the wallet and to the one refund. */
  lemma ConfirmWallet(a: Account, id: nat, succeeded: bool, after: Account)
    requires AccountOk(a) && ReservationsInRange(a.wallet) && after == Confirm(a, id, succeeded) && after != a
    ensures Inv(after.wallet) && id < |a.refunds| && a.refunds[id].status == InProgress
    ensures |after.wallet.reservations| == |a.wallet.reservations|
    ensures after.refunds == a.refunds[id := a.refunds[id].(status := if succeeded then Settled else Failed)]
    ensures after == a.(wallet := after.wallet, refunds := after.refunds, succeeded := after.succeeded, refunded := after.refunded)
    ensures after.refunded == (if succeeded then a.refunded + a.refunds[id].amount else a.refunded) <= a.total
    ensures RefundOk(after, after.refunds[id])
    ensures forall k :: 0 <= k < |a.wallet.reservations| && Some(k) != a.refunds[id].reservation ==>
              after.wallet.reservations[k] == a.wallet.reservations[k]
  {
    var r := a.refunds[id];
    assert RefundOk(a, r);
    hide Inv, SettleReservation, AccountOk;
    assert Inv(a.wallet) by { AccountWallet(a); }
    if r.reservation.Some? {
      SettleKeepsInv(a.wallet, r.reservation.value, succeeded);
      SettledReservations(a.wallet, r.reservation.value, succeeded);
    }
    assert a.refunded <= a.total by { AccountWallet(a); }
  }

  lemma AccountWallet(a: Account)
    requires AccountOk(a)
    ensures Inv(a.wallet) && a.refunded <= a.total
  {
  }

  /** Two refunds never share a reservation, so the others keep theirs. */
  lemma OtherRefundOk(a: Account, id: nat, after: Account, i: nat)
    requires AccountOk(a) && id < |a.refunds| && i < |a.refunds| && i != id && after.total == a.total && after.included == a.included
    requires |after.wallet.reservations| == |a.wallet.reservations|
    requires forall k :: 0 <= k < |a.wallet.reservations| && Some(k) != a.refunds[id].reservation ==>
               after.wallet.reservations[k] == a.wallet.reservations[k]
    ensures RefundOk(after, a.refunds[i])
  {
    hide Inv;
    assert RefundOk(a, a.refunds[i]);
    assert a.refunds[i].reservation.Some? ==> a.refunds[i].reservation != a.refunds[id].reservation;
  }

  lemma ConfirmKeepsAccount(a: Account, id: nat, succeeded: bool)
    requires AccountOk(a) && ReservationsInRange(a.wallet)
    ensures AccountOk(Confirm(a, id, succeeded))
  {
    var after := Confirm(a, id, succeeded);
    if after != a {
      ConfirmWallet(a, id, succeeded, after);
      hide Confirm, Inv, RefundOk;
      SumUpdate(a.refunds, id, after.refunds[id], SettledAmount);
      forall i | 0 <= i < |after.refunds| ensures RefundOk(after, after.refunds[i]) {
        if i != id {
          OtherRefundOk(a, id, after, i);
        }
      }
    }
  }

  // ---- Runs ---------------------------------------------------------------------------

  datatype Step =
    | RequestStep(amount: int, refundId: string, providerOk: bool)
    | ConfirmStep(id: nat, confirmed: bool)
    | ReviewStep
    | CreditStep(credit: Credits.Step, now: int)

  /** The rest of the system settles only its own reservations. */
  predicate StepAllowed(a: Account, step: Step) {
    && a.total > 0 && ReservationsInRange(a.wallet)
    && (step.CreditStep? ==>
          && StepOk(a.wallet, step.credit, step.now)
          && (step.credit.SettleStep? ==> forall i :: 0 <= i < |a.refunds| ==> a.refunds[i].reservation != Some(step.credit.reservation)))
  }

  function Next(a: Account, step: Step): Account
    requires StepAllowed(a, step)
  {
    match step
    case RequestStep(amount, refundId, providerOk) => Request(a, amount, refundId, providerOk).account
    case ConfirmStep(id, confirmed) => Confirm(a, id, confirmed)
    case ReviewStep => a.(succeeded := false)
    case CreditStep(credit, now) => a.(wallet := Credits.Next(a.wallet, credit, now))
  }

  lemma OnlySettleSettles(w: Wallet, step: Credits.Step, now: int, k: nat)
    requires StepOk(w, step, now) && k < |w.reservations| && !(step.SettleStep? && step.reservation == k)
    ensures k < |Credits.Next(w, step, now).reservations| && Credits.Next(w, step, now).reservations[k] == w.reservations[k]
  {
    if step.SweepStep? {
      CreditTheorems.SweepLeavesReservations(w, step.swept);
    }
  }

  lemma StepKeepsAccount(a: Account, step: Step)
    requires AccountOk(a) && StepAllowed(a, step)
    ensures AccountOk(Next(a, step))
  {
    match step
    case RequestStep(amount, refundId, providerOk) => RequestKeepsAccount(a, amount, refundId, providerOk);
    case ConfirmStep(id, confirmed) => ConfirmKeepsAccount(a, id, confirmed);
    case ReviewStep =>
      var after := Next(a, step);
      forall i | 0 <= i < |after.refunds| ensures RefundOk(after, after.refunds[i]) {
        assert RefundOk(a, a.refunds[i]);
      }
    case CreditStep(credit, now) =>
      StepKeepsInv(a.wallet, credit, now);
      var after := Next(a, step);
      forall i | 0 <= i < |after.refunds| ensures RefundOk(after, after.refunds[i]) {
        assert RefundOk(a, a.refunds[i]);
        if a.refunds[i].reservation.Some? {
          OnlySettleSettles(a.wallet, credit, now, a.refunds[i].reservation.value);
        }
      }
  }

  ghost predicate Run(trace: seq<Account>, steps: seq<Step>) {
    && |trace| == |steps| + 1 && AccountOk(trace[0]) && trace[0].refunds == []
    && forall i :: 0 <= i < |steps| ==> StepAllowed(trace[i], steps[i]) && trace[i + 1] == Next(trace[i], steps[i])
  }

  lemma {:induction false} Reachable(trace: seq<Account>, steps: seq<Step>, i: nat)
    requires Run(trace, steps) && i < |trace|
    ensures AccountOk(trace[i])
    ensures trace[i].total == trace[0].total && trace[i].included == trace[0].included
  {
    if i > 0 {
      Reachable(trace, steps, i - 1);
      StepKeepsAccount(trace[i - 1], steps[i - 1]);
    }
  }

  // ---- How much is taken back -----------------------------------------------------------

  function TakenFor(a: Account): OrderRefund -> int {
    (r: OrderRefund) =>
      if r.status == Settled && r.reservation.Some? && r.reservation.value < |a.wallet.reservations|
      then a.wallet.reservations[r.reservation.value].quantity else 0
  }

  /** The credits consumed by the confirmed refunds, as their reservations record them. */
  function TakenBack(a: Account): int {
    SumBy(a.refunds, TakenFor(a))
  }

  function CountSettled(r: OrderRefund): int {
    if r.status == Settled then 1 else 0
  }

  lemma ShareRounds(included: nat, amount: int, total: int)
    requires 0 < amount <= total
    ensures 0 <= included * amount - total * Share(included, amount, total) < total
    ensures Share(included, amount, total) >= 0
  {
    var x := included * amount;
    assert x >= 0;
    if amount == total {
      assert x == total * included;
    } else {
      assert x == x / total * total + x % total;
      assert x / total >= 0;
    }
  }

  /** What rounding has kept back so far, in units of 1 / total credit. */
  function Gap(included: nat, total: int, amount: int, taken: int): int {
    included * amount - total * taken
  }

  function Ceiling(total: int, count: int): int {
    total * count
  }

  lemma GapAdds(included: nat, total: int, amount: int, taken: int, more: int, share: int, count: int)
    ensures Gap(included, total, amount + more, taken + share) == Gap(included, total, amount, taken) + Gap(included, total, more, share)
    ensures Ceiling(total, count + 1) == Ceiling(total, count) + total
  {
    assert included * (amount + more) == included * amount + included * more;
    assert total * (taken + share) == total * taken + total * share;
  }

  lemma {:induction false} RoundingAddsUp(a: Account, refunds: seq<OrderRefund>)
    requires AccountOk(a) && forall i :: 0 <= i < |refunds| ==> RefundOk(a, refunds[i])
    ensures var amounts, taken, count := SumBy(refunds, SettledAmount), SumBy(refunds, TakenFor(a)), SumBy(refunds, CountSettled);
            && 0 <= Gap(a.included, a.total, amounts, taken) && count >= 0
            && (count > 0 ==> Gap(a.included, a.total, amounts, taken) < Ceiling(a.total, count))
            && (count == 0 ==> amounts == 0 && taken == 0)
  {
    if refunds == [] {
      assert Gap(a.included, a.total, 0, 0) == 0;
    } else {
      hide AccountOk;
      var rest, r := refunds[..|refunds| - 1], refunds[|refunds| - 1];
      RoundingAddsUp(a, rest);
      var share := Share(a.included, r.amount, a.total);
      ShareRounds(a.included, r.amount, a.total);
      GapAdds(a.included, a.total, SumBy(rest, SettledAmount), SumBy(rest, TakenFor(a)), r.amount, share, SumBy(rest, CountSettled));
      if r.status == Settled {
        assert Gap(a.included, a.total, r.amount, share) == a.included * r.amount - a.total * share;
        assert TakenFor(a)(r) == share;
        assert Ceiling(a.total, 0) == 0 && Gap(a.included, a.total, 0, 0) == 0;
        hide Gap, Ceiling, Share;
        assert SumBy(refunds, TakenFor(a)) == SumBy(rest, TakenFor(a)) + share;
        assert SumBy(refunds, SettledAmount) == SumBy(rest, SettledAmount) + r.amount;
        assert SumBy(refunds, CountSettled) == SumBy(rest, CountSettled) + 1;
      }
    }
  }

  /** Rounding down costs the service less than one credit per confirmed refund: k confirmed
      refunds of the whole amount take back between included - k + 1 and included credits. */
  lemma FullyRefundedTakesBackAlmostAll(trace: seq<Account>, steps: seq<Step>, i: nat)
    requires Run(trace, steps) && i < |trace|
    ensures var a := trace[i];
            var k := SumBy(a.refunds, CountSettled);
            && a.total * TakenBack(a) <= a.included * a.refunded
            && (a.refunded == a.total ==> k >= 1 && a.included - k + 1 <= TakenBack(a) <= a.included)
  {
    Reachable(trace, steps, i);
    var a := trace[i];
    RoundingAddsUp(a, a.refunds);
    if a.refunded == a.total {
      ScaledBounds(a.total, a.included, TakenBack(a), SumBy(a.refunds, CountSettled));
    }
  }

  lemma ScaledBounds(total: int, included: nat, taken: int, k: int)
    requires total > 0
    ensures 0 <= Gap(included, total, total, taken) ==> taken <= included
    ensures Gap(included, total, total, taken) < Ceiling(total, k) ==> included - taken < k
  {
    var missing := included - taken;
    assert Gap(included, total, total, taken) == total * missing;
    if missing >= k {
      assert total * missing == total * k + total * (missing - k);
      assert total * (missing - k) >= 0;
    }
    if missing < 0 {
      assert total * (-missing) > 0;
    }
  }
}
