/** The refund service over one paid order, calling the wallet's own transactions. */
module RefundDesk {
  import opened Common
  import Credits
  import opened RefundCredits
  import CreditInvariant
  import CreditWallet

  class Desk {
    const wallet: CreditWallet.WalletTables
    const orderId: string
    const total: int
    const included: nat
    var succeeded: bool
    var refunded: int
    var refunds: seq<OrderRefund>

    ghost function Books(): Account
      reads this, wallet
    {
      Account(orderId, total, included, succeeded, refunded, refunds, wallet.State())
    }

    ghost predicate Valid()
      reads this, wallet
    {
      wallet.Valid() && AccountOk(Books())
    }

    constructor (wallet: CreditWallet.WalletTables, orderId: string, total: int, included: nat)
      requires wallet.Valid() && total > 0
      ensures Valid() && refunds == [] && refunded == 0 && this.wallet == wallet
    {
      this.wallet, this.orderId, this.total, this.included := wallet, orderId, total, included;
      succeeded, refunded, refunds := true, 0, [];
    }

    method Hold(share: int, refundId: string, providerOk: bool) returns (r: Result<Option<nat>, Credits.Error>)
      requires wallet.Valid()
      modifies wallet
      ensures wallet.Valid() && wallet.State() == Credits.WalletOf(old(wallet.State()), HoldShare(old(wallet.State()), orderId, share, refundId, providerOk))
      ensures match HoldShare(old(wallet.State()), orderId, share, refundId, providerOk) case Done(_, v) => r == Success(v) case Thrown(e) => r == Failure(e)
    {
      hide CreditInvariant.Inv, Credits.ReservationsInRange, Credits.ReservePaidOrderRefund, Credits.SettleReservation;
      r := wallet.ReserveForRefund(orderId, share, refundId);
      if r.Success? && r.value.Some? && !providerOk {
        var _ := wallet.Settle(r.value.value, false);
      }
    }

    /** `RefundService::request`; `providerOk` is false when the provider's call throws. */
    method Request(amount: int, refundId: string, providerOk: bool) returns (answer: Answer)
      requires Valid()
      modifies this`refunds, wallet
      ensures Valid() && Reply(Books(), answer) == RefundCredits.Request(old(Books()), amount, refundId, providerOk)
    {
      ghost var before := Books();
      RequestKeepsAccount(before, amount, refundId, providerOk);
      hide AccountOk, HoldShare;
      if amount <= 0 || !succeeded || refunded + amount > total {
        return Rejected;
      }
      var share := if amount == total then included else included * amount / total;
      var reservation := Hold(share, refundId, providerOk);
      if reservation.Failure? {
        return Refused(reservation.error);
      }
      refunds := refunds + [OrderRefund(amount, if providerOk then InProgress else Failed, reservation.value)];
      answer := Accepted(|refunds| - 1);
    }

    /** `RefundService::confirm`: an excessive confirmation throws and leaves everything as it was. */
    method Confirm(id: nat, confirmed: bool)
      requires Valid()
      modifies this, wallet
      ensures Valid() && Books() == RefundCredits.Confirm(old(Books()), id, confirmed)
    {
      ghost var before := Books();
      ConfirmKeepsAccount(before, id, confirmed);
      assert id < |refunds| && refunds[id].reservation.Some? ==> refunds[id].reservation.value < |wallet.reservations| by {
        assert id < |refunds| ==> RefundOk(before, refunds[id]);
      }
      hide AccountOk, CreditInvariant.Inv, Credits.ReservationsInRange, Credits.SettleReservation;
      if id >= |refunds| || refunds[id].status != InProgress {
        return;
      }
      var r := refunds[id];
      if confirmed && refunded + r.amount > total {
        return;
      }
      if r.reservation.Some? {
        var _ := wallet.Settle(r.reservation.value, confirmed);
      }
      refunds := refunds[id := r.(status := if confirmed then Settled else Failed)];
      if confirmed {
        refunded := refunded + r.amount;
        succeeded := false;
      }
    }
  }
}
