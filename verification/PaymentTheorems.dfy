/** Payment at most once and bounded refunds, over runs that mix events, expiry, reconciliation
    and refunds in any order. */
module PaymentTheorems {
  import opened Common
  import opened Payments

  // ---- Counting rows ------------------------------------------------------------------

  function OnOrder(kind: MoneyKind, order: nat): Money -> int {
    (m: Money) => if m.kind == kind && m.order == order then 1 else 0
  }

  function PaymentRows(s: Shop, order: nat): int {
    SumBy(s.money, OnOrder(PaymentRow, order))
  }

  function SameOrder(order: nat): nat -> int {
    (o: nat) => if o == order then 1 else 0
  }

  function LotRows(s: Shop, order: nat): int {
    SumBy(s.lots, SameOrder(order))
  }

  function IsKey(key: OutboxKey): OutboxKey -> int {
    (k: OutboxKey) => if k == key then 1 else 0
  }

  function OutboxRows(s: Shop, key: OutboxKey): int {
    SumBy(s.outbox, IsKey(key))
  }

  function ConfirmedOn(order: nat): Refund -> int {
    (r: Refund) => if r.order == order && r.status == Confirmed then r.amount else 0
  }

  /** The sum of the confirmed refunds of one order. */
  function ConfirmedSum(s: Shop, order: nat): int {
    SumBy(s.refunds, ConfirmedOn(order))
  }

  // ---- The invariant ------------------------------------------------------------------

  ghost predicate Untouched(s: Shop, order: nat) {
    && (forall i :: 0 <= i < |s.transitions| ==> s.transitions[i].order != order)
    && (forall i :: 0 <= i < |s.refunds| ==> s.refunds[i].order != order)
  }

  ghost predicate OrderOk(s: Shop, k: nat)
    requires k < |s.orders|
  {
    var o := s.orders[k];
    var paid := PaymentRows(s, k);
    && (paid == 0 || paid == 1)
    && (Open(o.status) ==> Untouched(s, k))
    && (o.status in {Succeeded, PartiallyRefunded, Refunded} ==> paid == 1)
    && (o.status in {Pending, Processing, Failed, Expired} ==> paid == 0)
    && (paid == 0 ==> forall i :: 0 <= i < |s.refunds| ==> s.refunds[i].order != k)
    && LotRows(s, k) == (if SellsCredits(o) then paid else 0)
    && (k in s.granted ==> paid == 1)
    && OutboxRows(s, PaymentSucceededFor(k)) == paid
    && o.refunded == ConfirmedSum(s, k) && 0 <= o.refunded <= o.amount
  }

  ghost predicate RowsOk(s: Shop) {
    && |s.attempts| == |s.orders|
    && (forall k :: 0 <= k < |s.orders| ==> OrderOk(s, k))
    && (forall i :: 0 <= i < |s.refunds| ==> s.refunds[i].order < |s.orders| && s.refunds[i].amount > 0)
    && (forall i :: 0 <= i < |s.transitions| ==> s.transitions[i].order < |s.orders|)
    && (forall i :: 0 <= i < |s.money| ==> s.money[i].order < |s.orders|)
    && (forall i :: 0 <= i < |s.lots| ==> s.lots[i] < |s.orders|)
    && (forall k :: k in s.granted ==> k < |s.orders|)
    && (forall i :: 0 <= i < |s.outbox| ==>
          match s.outbox[i]
          case PaymentSucceededFor(k) => k < |s.orders|
          case RefundConfirmedFor(r) => r < |s.refunds| && s.refunds[r].status == Confirmed)
  }

  /** No two attempts of one provider carry the same reference. */
  ghost predicate ReferencesUnique(s: Shop) {
    forall i, j :: 0 <= i < j < |s.orders| && j < |s.attempts| && s.orders[i].provider == s.orders[j].provider && s.attempts[i].reference.Some? ==>
      s.attempts[i].reference != s.attempts[j].reference
  }

  /** Every refund was requested under a key that is still recorded. */
  ghost predicate RefundsKeyed(s: Shop) {
    forall i :: 0 <= i < |s.refunds| && s.refunds[i].order < |s.orders| ==>
      RefundKey(s.orders[s.refunds[i].order].owner, s.orders[s.refunds[i].order].provider, s.refunds[i].key) in s.keys
  }

  ghost predicate Inv(s: Shop) {
    RowsOk(s) && ReferencesUnique(s) && RefundsKeyed(s)
  }

  // ---- When a unique index fires ----------------------------------------------------------

  lemma AbsentKey(s: Shop, key: OutboxKey)
    requires OutboxRows(s, key) == 0
    ensures key !in s.outbox
  {
    SumNonNegative(s.outbox, IsKey(key));
    forall i | 0 <= i < |s.outbox| ensures s.outbox[i] != key {
      assert IsKey(key)(s.outbox[i]) <= 0;
    }
  }

  /** An open order carries no trace of a payment, so of all unique indexes settling it can meet only
      the one on the references: exactly when an attempt of another order of the same provider
      already holds the reference of the event. */
  lemma SettleMeetsOnlyTheReferenceIndex(s: Shop, e: Event, creditOk: bool, subscriptionOk: bool)
    requires RowsOk(s) && e.order < |s.orders| && Open(s.orders[e.order].status)
    ensures Settle(s, e, creditOk, subscriptionOk) == Thrown(UniqueViolation) <==>
              ReferenceTaken(s, s.orders[e.order].provider, e.reference, e.order)
    ensures !TransitionClash(s.transitions, Transition(e.order, Failed, e.key.eventId))
    ensures e.order !in s.granted
  {
    assert OrderOk(s, e.order);
    AbsentKey(s, PaymentSucceededFor(e.order));
    hide OrderOk;
  }

  const DEMO_CART := Cart("u", 1, "XOF", "p", OneTime, None, 30, "a")
  const DEMO_EVENT := Event(EventKey("p", "1", "paid"), 1, "a", PaymentSucceeded, Some(1), Some("XOF"))
  const DEMO_ORDER := Order("u", 1, "XOF", "p", OneTime, None, Pending, 0, Some(30))
  const ONE_ORDER := Empty.(orders := [DEMO_ORDER], attempts := [Attempt(AttemptPending, Some("a"))])
  const TWO_ORDERS := Empty.(orders := [DEMO_ORDER, DEMO_ORDER],
                             attempts := [Attempt(AttemptPending, Some("a")), Attempt(AttemptPending, Some("b"))])

  lemma DemoCheckouts()
    ensures Checkout(Empty, DEMO_CART) == Done(ONE_ORDER, 0)
    ensures Checkout(ONE_ORDER, DEMO_CART.(reference := "b")) == Done(TWO_ORDERS, 1)
  {
    assert Upper("XOF") == "XOF";
    assert "a"[0] != "b"[0];
  }

  lemma DemoEvent()
    ensures ProcessEvent(TWO_ORDERS, DEMO_EVENT, true, true) == Thrown(UniqueViolation)
  {
    assert Upper("XOF") == "XOF";
    assert HoldsReference(TWO_ORDERS.(events := {DEMO_EVENT.key}), 0, "p", "a");
    assert TWO_ORDERS.events + {DEMO_EVENT.key} == {DEMO_EVENT.key};
  }

  /** Two orders of one provider: a SUCCEEDED event for the second that carries the reference of the
      first aborts, and the second order stays PENDING. */
  lemma TakenReferenceAborts()
    ensures var trace := [Empty, ONE_ORDER, TWO_ORDERS, TWO_ORDERS];
            && Run(trace, [CheckoutStep(DEMO_CART), CheckoutStep(DEMO_CART.(reference := "b")), EventStep(DEMO_EVENT, true, true)])
            && ProcessEvent(TWO_ORDERS, DEMO_EVENT, true, true) == Thrown(UniqueViolation)
            && TWO_ORDERS.orders[1].status == Pending
  {
    DemoCheckouts();
    DemoEvent();
    hide Checkout, ProcessEvent;
  }

  // ---- Each step ------------------------------------------------------------------------

  lemma CheckoutKeepsRows(s: Shop, c: Cart)
    requires RowsOk(s)
    ensures RowsOk(ShopOf(s, Checkout(s, c)))
  {
    var s' := ShopOf(s, Checkout(s, c));
    var n := |s.orders|;
    SumZero(s.money, OnOrder(PaymentRow, n));
    SumZero(s.lots, SameOrder(n));
    SumZero(s.outbox, IsKey(PaymentSucceededFor(n)));
    SumZero(s.refunds, ConfirmedOn(n));
    forall k | 0 <= k < |s'.orders| ensures OrderOk(s', k) {
      assert k < n ==> OrderOk(s, k);
    }
  }

  lemma CheckoutKeepsReferences(s: Shop, c: Cart)
    requires |s.attempts| == |s.orders| && ReferencesUnique(s)
    ensures ReferencesUnique(ShopOf(s, Checkout(s, c)))
  {
    if !ReferenceTaken(s, c.provider, c.reference, |s.orders|) {
      forall i | 0 <= i < |s.orders| ensures s.orders[i].provider == c.provider ==> s.attempts[i].reference != Some(c.reference) {
        assert !HoldsReference(s, i, c.provider, c.reference);
      }
    }
  }

  lemma CheckoutKeepsInv(s: Shop, c: Cart)
    requires Inv(s)
    ensures Inv(ShopOf(s, Checkout(s, c)))
  {
    hide RowsOk, ReferencesUnique;
    CheckoutKeepsRows(s, c);
    assert |s.attempts| == |s.orders| && forall i :: 0 <= i < |s.refunds| ==> s.refunds[i].order < |s.orders| by { ShapeOf(s); }
    CheckoutKeepsReferences(s, c);
  }

  /** The tables that settling writes, and those that it leaves alone. */
  lemma SettledTables(s: Shop, e: Event, s': Shop)
    requires e.order < |s.orders| == |s.attempts| && Settle(s, e, true, true) == Done(s', Processed)
    ensures var o := s.orders[e.order];
            && s'.orders == s.orders[e.order := o.(status := Succeeded)] && s'.refunds == s.refunds
            && s'.money == s.money + [Money(PaymentRow, e.order, o.amount)]
            && s'.transitions == s.transitions + [Transition(e.order, Succeeded, e.key.eventId)]
            && s'.outbox == s.outbox + [PaymentSucceededFor(e.order)]
            && if SellsCredits(o) && e.order !in s.granted then s'.lots == s.lots + [e.order] && s'.granted == s.granted + {e.order}
               else s'.lots == s.lots && s'.granted == s.granted
  {
    hide ReferenceTaken, TransitionClash;
  }

  lemma SettledOrderOk(s: Shop, e: Event, s': Shop, k: nat)
    requires RowsOk(s) && e.order < |s.orders| && Open(s.orders[e.order].status) && k < |s.orders|
    requires Settle(s, e, true, true) == Done(s', Processed)
    ensures k < |s'.orders| && OrderOk(s', k)
  {
    assert OrderOk(s, k);
    assert OrderOk(s, e.order);
    SettledTables(s, e, s');
    hide RowsOk, Settle;
    SumAppend(s.money, Money(PaymentRow, e.order, s.orders[e.order].amount), OnOrder(PaymentRow, k));
    SumAppend(s.lots, e.order, SameOrder(k));
    SumAppend(s.outbox, PaymentSucceededFor(e.order), IsKey(PaymentSucceededFor(k)));
  }

  lemma SettleKeepsRows(s: Shop, e: Event, creditOk: bool, subscriptionOk: bool)
    requires RowsOk(s) && e.order < |s.orders| && Open(s.orders[e.order].status)
    ensures RowsOk(ShopOf(s, Settle(s, e, creditOk, subscriptionOk)))
  {
    hide OrderOk, ReferenceTaken;
    var s' := ShopOf(s, Settle(s, e, creditOk, subscriptionOk));
    if s' != s {
      forall k | 0 <= k < |s'.orders| ensures OrderOk(s', k) {
        SettledOrderOk(s, e, s', k);
      }
    }
  }

  lemma SettleKeepsReferences(s: Shop, e: Event, creditOk: bool, subscriptionOk: bool)
    requires e.order < |s.orders| == |s.attempts| && ReferencesUnique(s) && RefundsKeyed(s)
    ensures var s' := ShopOf(s, Settle(s, e, creditOk, subscriptionOk)); ReferencesUnique(s') && RefundsKeyed(s')
  {
    if Settle(s, e, creditOk, subscriptionOk).Done? {
      var provider := s.orders[e.order].provider;
      forall i | 0 <= i < |s.orders| && i != e.order
        ensures s.orders[i].provider == provider ==> s.attempts[i].reference != Some(e.reference)
      {
        assert !HoldsReference(s, i, provider, e.reference);
      }
    }
  }

  /** Changing only the status of some orders, away from being open, keeps the invariant when
      the payment rows allow the new status. */
  lemma RestatusKeepsInv(s: Shop, s': Shop)
    requires Inv(s) && |s'.orders| == |s.orders| == |s'.attempts|
    requires s'.money == s.money && s'.lots == s.lots && s'.granted == s.granted && s'.outbox == s.outbox
    requires s'.refunds == s.refunds && s'.keys == s.keys
    requires forall k :: 0 <= k < |s.orders| ==> s'.attempts[k].reference == s.attempts[k].reference
    requires forall i :: 0 <= i < |s'.transitions| ==>
               && s'.transitions[i].order < |s.orders|
               && (s'.transitions[i] in s.transitions || !Open(s'.orders[s'.transitions[i].order].status))
    requires forall k :: 0 <= k < |s.orders| ==>
               s'.orders[k] == s.orders[k].(status := s'.orders[k].status) &&
               (s'.orders[k].status == s.orders[k].status || s'.orders[k].status == NeedsReview
                || (Open(s.orders[k].status) && s'.orders[k].status in {Failed, Expired}))
    ensures Inv(s')
  {
    forall k | 0 <= k < |s'.orders| ensures OrderOk(s', k) {
      assert OrderOk(s, k);
    }
  }

  lemma EventKeepsInv(s: Shop, e: Event, creditOk: bool, subscriptionOk: bool)
    requires Inv(s)
    ensures Inv(ShopOf(s, ProcessEvent(s, e, creditOk, subscriptionOk)))
  {
    var seen := s.(events := s.events + {e.key});
    RestatusKeepsInv(s, seen);
    if e.order < |s.orders| && Open(s.orders[e.order].status) {
      if e.status == PaymentSucceeded {
        SettleKeepsRows(seen, e, creditOk, subscriptionOk);
        SettleKeepsReferences(seen, e, creditOk, subscriptionOk);
        hide Settle, RowsOk, ReferencesUnique, RefundsKeyed;
      } else if e.status == PaymentFailed {
        var t := Transition(e.order, Failed, e.key.eventId);
        RestatusKeepsInv(s, seen.(orders := s.orders[e.order := s.orders[e.order].(status := Failed)], transitions := s.transitions + [t]));
      }
    }
  }

  /** The unique index on the refunds never fires: a key that was used is still recorded. */
  lemma RefundIndexNeverFires(s: Shop, q: RefundRequest, creditsOk: bool, providerOk: bool)
    requires Inv(s)
    ensures RequestRefund(s, q, creditsOk, providerOk) != Thrown(UniqueViolation)
  {
    if RefundError(s, q).None? && RefundKeyOf(s, q) !in s.keys {
      forall i | 0 <= i < |s.refunds| && s.refunds[i].order == q.order ensures s.refunds[i].key != q.key {
        assert RefundKey(s.orders[q.order].owner, s.orders[q.order].provider, s.refunds[i].key) in s.keys;
      }
    }
  }

  lemma RequestKeepsRows(s: Shop, q: RefundRequest, creditsOk: bool, providerOk: bool)
    requires RowsOk(s)
    ensures RowsOk(ShopOf(s, RequestRefund(s, q, creditsOk, providerOk)))
  {
    var s' := ShopOf(s, RequestRefund(s, q, creditsOk, providerOk));
    if s' != s {
      var r := s'.refunds[|s.refunds|];
      forall k | 0 <= k < |s'.orders| ensures OrderOk(s', k) {
        assert OrderOk(s, k);
        SumAppend(s.refunds, r, ConfirmedOn(k));
      }
    }
  }

  lemma RequestKeepsInv(s: Shop, q: RefundRequest, creditsOk: bool, providerOk: bool)
    requires Inv(s)
    ensures Inv(ShopOf(s, RequestRefund(s, q, creditsOk, providerOk)))
  {
    hide RowsOk;
    RequestKeepsRows(s, q, creditsOk, providerOk);
  }

  lemma ConfirmKeepsRows(s: Shop, refund: nat, provider: string, succeeded: bool, subscriptionOk: bool)
    requires RowsOk(s)
    ensures RowsOk(ShopOf(s, ConfirmRefund(s, refund, provider, succeeded, subscriptionOk)))
    ensures ConfirmRefund(s, refund, provider, succeeded, subscriptionOk) != Thrown(UniqueViolation)
  {
    var s' := ShopOf(s, ConfirmRefund(s, refund, provider, succeeded, subscriptionOk));
    if s' != s {
      forall k | 0 <= k < |s'.orders| ensures OrderOk(s', k) {
        ConfirmedOrderOk(s, refund, provider, succeeded, subscriptionOk, s', k);
      }
      hide OrderOk;
    }
  }

  lemma ConfirmedOrderOk(s: Shop, refund: nat, provider: string, succeeded: bool, subscriptionOk: bool, s': Shop, k: nat)
    requires RowsOk(s) && s' == ShopOf(s, ConfirmRefund(s, refund, provider, succeeded, subscriptionOk)) && s' != s && k < |s'.orders|
    ensures OrderOk(s', k)
  {
    var r, r' := s.refunds[refund], s'.refunds[refund];
    assert OrderOk(s, k);
    SumUpdate(s.refunds, refund, r', ConfirmedOn(k));
    SumAppend(s.money, Money(RefundRow, r.order, r.amount), OnOrder(PaymentRow, k));
    SumAppend(s.outbox, RefundConfirmedFor(refund), IsKey(PaymentSucceededFor(k)));
  }

  lemma ConfirmKeepsInv(s: Shop, refund: nat, provider: string, succeeded: bool, subscriptionOk: bool)
    requires Inv(s)
    ensures Inv(ShopOf(s, ConfirmRefund(s, refund, provider, succeeded, subscriptionOk)))
    ensures ConfirmRefund(s, refund, provider, succeeded, subscriptionOk) != Thrown(UniqueViolation)
  {
    hide RowsOk;
    ConfirmKeepsRows(s, refund, provider, succeeded, subscriptionOk);
  }

  lemma StepKeepsInv(s: Shop, step: Step)
    requires Inv(s)
    ensures Inv(Next(s, step))
  {
    match step
    case CheckoutStep(cart) => CheckoutKeepsInv(s, cart);
    case EventStep(e, creditOk, subscriptionOk) => EventKeepsInv(s, e, creditOk, subscriptionOk);
    case ExpireStep(now) => RestatusKeepsInv(s, ExpirePending(s, now));
    case ReviewStep(order) => RestatusKeepsInv(s, Next(s, step));
    case RefundStep(q, creditsOk, providerOk) => RequestKeepsInv(s, q, creditsOk, providerOk);
    case ConfirmStep(refund, provider, succeeded, subscriptionOk) => ConfirmKeepsInv(s, refund, provider, succeeded, subscriptionOk);
  }

  lemma {:induction false} Reachable(trace: seq<Shop>, steps: seq<Step>, i: nat)
    requires Run(trace, steps) && i < |trace|
    ensures Inv(trace[i])
  {
    if i > 0 {
      Reachable(trace, steps, i - 1);
      StepKeepsInv(trace[i - 1], steps[i - 1]);
    }
  }

  // ---- Whole runs -----------------------------------------------------------------------

  /** In every reachable state an order has at most one PAYMENT row, one outbox announcement and,
      when it sells credits, one purchase lot: all of them together or none. */
  lemma PaidAtMostOnce(trace: seq<Shop>, steps: seq<Step>, i: nat, k: nat)
    requires Run(trace, steps) && i < |trace| && k < |trace[i].orders|
    ensures PaymentRows(trace[i], k) in {0, 1}
    ensures OutboxRows(trace[i], PaymentSucceededFor(k)) == PaymentRows(trace[i], k)
    ensures LotRows(trace[i], k) == if SellsCredits(trace[i].orders[k]) then PaymentRows(trace[i], k) else 0
    ensures trace[i].orders[k].status in {Succeeded, PartiallyRefunded, Refunded} ==> PaymentRows(trace[i], k) == 1
    ensures trace[i].orders[k].status in {Pending, Processing, Failed, Expired} ==> PaymentRows(trace[i], k) == 0
  {
    Reachable(trace, steps, i);
    assert OrderOk(trace[i], k);
  }

  ghost predicate Progress(s: Shop, s': Shop, k: nat)
    requires k < |s.orders|
  {
    && |s.orders| <= |s'.orders|
    && (s'.orders[k].status in {Pending, Processing} ==> s'.orders[k].status == s.orders[k].status)
    && PaymentRows(s', k) >= PaymentRows(s, k)
    && (PaymentRows(s', k) > PaymentRows(s, k) ==> s'.orders[k].status == Succeeded)
    && s.events <= s'.events
  }

  /** An event books either nothing or one payment, and then the order is SUCCEEDED. */
  lemma EventBooks(s: Shop, e: Event, creditOk: bool, subscriptionOk: bool, s': Shop)
    requires Inv(s) && s' == ShopOf(s, ProcessEvent(s, e, creditOk, subscriptionOk))
    ensures |s'.orders| == |s.orders| && s.events <= s'.events
    ensures forall k :: 0 <= k < |s.orders| && s'.orders[k].status in {Pending, Processing} ==> s'.orders[k].status == s.orders[k].status
    ensures s'.money == s.money || (e.order < |s.orders| && s'.orders[e.order].status == Succeeded
              && s'.money == s.money + [Money(PaymentRow, e.order, s.orders[e.order].amount)])
  {
    assert |s.attempts| == |s.orders|;
    hide Inv, ReferenceTaken, TransitionClash;
    if e.order < |s.orders| {
      SettleBooks(s.(events := s.events + {e.key}), e, creditOk, subscriptionOk);
    }
    hide Settle;
  }

  lemma SettleBooks(s: Shop, e: Event, creditOk: bool, subscriptionOk: bool)
    requires e.order < |s.orders| == |s.attempts|
    ensures match Settle(s, e, creditOk, subscriptionOk)
            case Thrown(_) => true
            case Done(s', _) =>
              && s'.orders == s.orders[e.order := s.orders[e.order].(status := Succeeded)] && s'.events == s.events
              && s'.money == s.money + [Money(PaymentRow, e.order, s.orders[e.order].amount)]
  {
    hide ReferenceTaken, TransitionClash;
  }

  lemma EventProgresses(s: Shop, e: Event, creditOk: bool, subscriptionOk: bool, k: nat)
    requires Inv(s) && k < |s.orders|
    ensures Progress(s, ShopOf(s, ProcessEvent(s, e, creditOk, subscriptionOk)), k)
  {
    hide ProcessEvent, Inv;
    assert |s.attempts| == |s.orders| by { ShapeOf(s); }
    var s' := ShopOf(s, ProcessEvent(s, e, creditOk, subscriptionOk));
    EventBooks(s, e, creditOk, subscriptionOk, s');
    if s'.money != s.money {
      SumAppend(s.money, Money(PaymentRow, e.order, s.orders[e.order].amount), OnOrder(PaymentRow, k));
    }
  }

  lemma ShapeOf(s: Shop)
    requires Inv(s)
    ensures |s.attempts| == |s.orders| && forall i :: 0 <= i < |s.refunds| ==> s.refunds[i].order < |s.orders|
  {
  }

  lemma ConfirmProgresses(s: Shop, refund: nat, provider: string, succeeded: bool, subscriptionOk: bool, k: nat)
    requires Inv(s) && k < |s.orders|
    ensures Progress(s, ShopOf(s, ConfirmRefund(s, refund, provider, succeeded, subscriptionOk)), k)
  {
    if refund < |s.refunds| {
      SumAppend(s.money, Money(RefundRow, s.refunds[refund].order, s.refunds[refund].amount), OnOrder(PaymentRow, k));
    }
  }

  lemma StepProgresses(s: Shop, step: Step, k: nat)
    requires Inv(s) && k < |s.orders|
    ensures Progress(s, Next(s, step), k)
  {
    match step
    case EventStep(e, creditOk, subscriptionOk) => EventProgresses(s, e, creditOk, subscriptionOk, k);
    case ConfirmStep(refund, provider, succeeded, subscriptionOk) => ConfirmProgresses(s, refund, provider, succeeded, subscriptionOk, k);
    case CheckoutStep(_) =>
    case ExpireStep(_) =>
    case ReviewStep(_) =>
    case RefundStep(_, _, _) =>
  }

  lemma NewOrderIsUnpaid(s: Shop, step: Step, k: nat)
    requires Inv(s) && |s.orders| <= k < |Next(s, step).orders|
    ensures PaymentRows(Next(s, step), k) == 0
  {
    SumZero(s.money, OnOrder(PaymentRow, k));
  }

  /** An order never becomes PENDING again. */
  lemma {:induction false} NeverPendingAgain(trace: seq<Shop>, steps: seq<Step>, i: nat, j: nat, k: nat)
    requires Run(trace, steps) && i <= j < |trace| && k < |trace[i].orders|
    ensures k < |trace[j].orders| && trace[i].events <= trace[j].events && PaymentRows(trace[i], k) <= PaymentRows(trace[j], k)
    ensures trace[j].orders[k].status == Pending ==> trace[i].orders[k].status == Pending
    decreases j
  {
    if i < j {
      NeverPendingAgain(trace, steps, i, j - 1, k);
      Reachable(trace, steps, j - 1);
      StepProgresses(trace[j - 1], steps[j - 1], k);
    }
  }

  /** An order has its PAYMENT row exactly when it has been SUCCEEDED at some earlier or present point. */
  lemma {:induction false} PaidExactlyWhenSucceeded(trace: seq<Shop>, steps: seq<Step>, i: nat, k: nat)
    requires Run(trace, steps) && i < |trace| && k < |trace[i].orders|
    ensures PaymentRows(trace[i], k) == 1 <==>
              exists j :: 0 <= j <= i && k < |trace[j].orders| && trace[j].orders[k].status == Succeeded
  {
    Reachable(trace, steps, i);
    assert OrderOk(trace[i], k);
    if j :| 0 <= j <= i && k < |trace[j].orders| && trace[j].orders[k].status == Succeeded {
      PaidAtMostOnce(trace, steps, j, k);
      NeverPendingAgain(trace, steps, j, i, k);
    }
    if PaymentRows(trace[i], k) == 1 && trace[i].orders[k].status != Succeeded {
      FirstPaid(trace, steps, i, k);
    }
  }

  lemma {:induction false} FirstPaid(trace: seq<Shop>, steps: seq<Step>, i: nat, k: nat)
    requires Run(trace, steps) && i < |trace| && k < |trace[i].orders| && PaymentRows(trace[i], k) == 1
    ensures exists j :: 0 <= j <= i && k < |trace[j].orders| && trace[j].orders[k].status == Succeeded
  {
    if i > 0 {
      var s := trace[i - 1];
      Reachable(trace, steps, i - 1);
      if k < |s.orders| {
        assert OrderOk(s, k);
        StepProgresses(s, steps[i - 1], k);
        if PaymentRows(s, k) == 1 {
          FirstPaid(trace, steps, i - 1, k);
        }
      } else {
        NewOrderIsUnpaid(s, steps[i - 1], k);
      }
    }
  }

  /** Redelivering an event that was processed once is a no-op at every later point. */
  lemma RedeliveredEventIsNoOp(trace: seq<Shop>, steps: seq<Step>, i: nat, j: nat, e: Event, creditOk: bool, subscriptionOk: bool)
    requires Run(trace, steps) && i < j < |trace| && steps[i] == EventStep(e, creditOk, subscriptionOk)
    requires ProcessEvent(trace[i], e, creditOk, subscriptionOk).Done?
    ensures |trace[j].attempts| == |trace[j].orders|
    ensures ProcessEvent(trace[j], e, creditOk, subscriptionOk) == Done(trace[j], Duplicate)
  {
    Reachable(trace, steps, j);
    assert e.key in trace[i + 1].events;
    EventsGrow(trace, steps, i + 1, j);
  }

  lemma {:induction false} EventsGrow(trace: seq<Shop>, steps: seq<Step>, i: nat, j: nat)
    requires Run(trace, steps) && i <= j < |trace|
    ensures trace[i].events <= trace[j].events
    decreases j
  {
    if i < j {
      hide Next;
      EventsGrow(trace, steps, i, j - 1);
      EventsKept(trace[j - 1], steps[j - 1]);
    }
  }

  lemma EventsKept(s: Shop, step: Step)
    requires |s.attempts| == |s.orders|
    ensures s.events <= Next(s, step).events
  {
    hide ReferenceTaken, RefundError, RefundClash, TransitionClash, Overdue, ExpireAttempt, SellsCredits;
  }

  predicate KeysKept(s: Shop, s': Shop) {
    && |s.orders| <= |s'.orders|
    && (forall k :: 0 <= k < |s.orders| ==> s'.orders[k].owner == s.orders[k].owner && s'.orders[k].provider == s.orders[k].provider)
    && (forall key :: key in s.keys ==> key in s'.keys && s'.keys[key] == s.keys[key])
  }

  lemma EventKeepsKeys(s: Shop, e: Event, creditOk: bool, subscriptionOk: bool)
    requires |s.attempts| == |s.orders|
    ensures KeysKept(s, ShopOf(s, ProcessEvent(s, e, creditOk, subscriptionOk)))
  {
    hide ReferenceTaken;
  }

  lemma StepKeepsKeys(s: Shop, step: Step)
    requires |s.attempts| == |s.orders|
    ensures KeysKept(s, Next(s, step))
  {
    hide ProcessEvent;
    match step
    case CheckoutStep(_) =>
    case EventStep(e, creditOk, subscriptionOk) => EventKeepsKeys(s, e, creditOk, subscriptionOk);
    case ExpireStep(_) =>
    case ReviewStep(_) =>
    case RefundStep(_, _, _) =>
    case ConfirmStep(_, _, _, _) =>
  }

  lemma {:induction false} KeysStay(trace: seq<Shop>, steps: seq<Step>, i: nat, j: nat)
    requires Run(trace, steps) && i <= j < |trace|
    ensures KeysKept(trace[i], trace[j])
    decreases j
  {
    hide Next;
    if i < j {
      KeysStay(trace, steps, i, j - 1);
      StepKeepsKeys(trace[j - 1], steps[j - 1]);
    }
  }

  /** Retrying a refund request with its key, at any later point of every run, never requests a second
      refund: it is answered with the first one exactly while the checks in front of the key still
      pass, and refused by them otherwise, as after the refund was confirmed. */
  lemma RetriedRefundIsNoOp(trace: seq<Shop>, steps: seq<Step>, i: nat, j: nat, q: RefundRequest, creditsOk: bool, providerOk: bool,
                            laterCredits: bool, laterProvider: bool)
    requires Run(trace, steps) && i < j < |trace| && steps[i] == RefundStep(q, creditsOk, providerOk)
    requires RequestRefund(trace[i], q, creditsOk, providerOk).Done?
    ensures RequestRefund(trace[j], q, laterCredits, laterProvider)
            == match RefundError(trace[j], q)
               case None => Done(trace[j], RequestRefund(trace[i], q, creditsOk, providerOk).value)
               case Some(error) => Thrown(error)
  {
    KeysStay(trace, steps, i + 1, j);
  }

  /** `refunded_amount_minor` is the sum of the confirmed refunds and never exceeds the order. */
  lemma RefundsAreBounded(trace: seq<Shop>, steps: seq<Step>, i: nat, k: nat)
    requires Run(trace, steps) && i < |trace| && k < |trace[i].orders|
    ensures trace[i].orders[k].refunded == ConfirmedSum(trace[i], k)
    ensures 0 <= trace[i].orders[k].refunded <= trace[i].orders[k].amount
  {
    Reachable(trace, steps, i);
    assert OrderOk(trace[i], k);
  }

  /** A confirmation is refused for its amount exactly when it would push the sum of the confirmed
      refunds above the order; `request` alone does not prevent that. */
  lemma ConfirmationRefusedExactlyWhenExcessive(s: Shop, refund: nat, provider: string, subscriptionOk: bool)
    requires Inv(s) && refund < |s.refunds| && s.refunds[refund].status in {Requested, InProgress}
    requires s.orders[s.refunds[refund].order].provider == provider
    ensures ConfirmRefund(s, refund, provider, true, subscriptionOk) == Thrown(RefundInvalid) <==>
              ConfirmedSum(s, s.refunds[refund].order) + s.refunds[refund].amount > s.orders[s.refunds[refund].order].amount
  {
    assert OrderOk(s, s.refunds[refund].order);
  }
}
