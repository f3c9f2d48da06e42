/** When an event settles an order, what refunds and expiry write, in terms of rows only. */
module PaymentEffects {
  import opened Common
  import opened Payments
  import opened PaymentTheorems

  // ---- Currencies ---------------------------------------------------------------------------------

  /** The same letter, perhaps in the other case. */
  predicate SameLetter(a: char, b: char) {
    a == b || ('a' <= a <= 'z' && b as int == a as int - 32) || ('a' <= b <= 'z' && a as int == b as int - 32)
  }

  /** `strtoupper` makes two texts equal exactly when they differ in the case of letters only, and
      leaves no small letter. */
  lemma UpperForgetsCase(a: string, b: string)
    ensures Upper(a) == Upper(b) <==> |a| == |b| && forall i :: 0 <= i < |a| ==> SameLetter(a[i], b[i])
    ensures |Upper(a)| == |a| && forall i :: 0 <= i < |a| ==> SameLetter(Upper(a)[i], a[i]) && !('a' <= Upper(a)[i] <= 'z')
  {
    if Upper(a) == Upper(b) {
      forall i | 0 <= i < |a| ensures SameLetter(a[i], b[i]) {
        assert Upper(a)[i] == Upper(b)[i];
      }
    }
  }

  // ---- Events ---------------------------------------------------------------------------------------

  /** Another attempt of the provider holds the reference already. */
  ghost predicate HeldElsewhere(s: Shop, order: nat, reference: string)
    requires order < |s.orders| == |s.attempts|
  {
    exists i :: 0 <= i < |s.orders| && i != order && s.orders[i].provider == s.orders[order].provider && s.attempts[i].reference == Some(reference)
  }

  lemma HeldElsewhereIsTaken(s: Shop, order: nat, reference: string)
    requires order < |s.orders| == |s.attempts|
    ensures ReferenceTaken(s, s.orders[order].provider, reference, order) <==> HeldElsewhere(s, order, reference)
  {
    if HeldElsewhere(s, order, reference) {
      var i :| 0 <= i < |s.orders| && i != order && s.orders[i].provider == s.orders[order].provider && s.attempts[i].reference == Some(reference);
      assert HoldsReference(s, i, s.orders[order].provider, reference);
    }
  }

  /** The event is new and names an order of its provider. */
  predicate Addresses(s: Shop, e: Event) {
    e.key !in s.events && e.order < |s.orders| && s.orders[e.order].provider == e.key.provider
  }

  /** The event reports a payment of the whole price. */
  predicate ReportsPayment(s: Shop, e: Event)
    requires e.order < |s.orders|
  {
    e.status == PaymentSucceeded && e.amount == Some(s.orders[e.order].amount) && e.currency.Some? && Upper(e.currency.value) == s.orders[e.order].currency
  }

  predicate WaitsForPayment(o: Order) {
    o.status == Pending || o.status == Processing
  }

  /** The calls into the catalog and the subscriptions that the order needs succeed. */
  predicate Delivers(o: Order, creditOk: bool, subscriptionOk: bool) {
    (o.purpose == Credits && o.priceId.Some? ==> creditOk) && (o.purpose == Subscription ==> subscriptionOk)
  }

  /** The tables after a settled payment. */
  ghost predicate SettledBy(s: Shop, after: Shop, e: Event)
    requires e.order < |s.orders| == |s.attempts|
  {
    var o := s.orders[e.order];
    var sells := o.purpose == Credits && o.priceId.Some?;
    after == Shop(s.orders[e.order := o.(status := Succeeded)], s.attempts[e.order := Attempt(AttemptSucceeded, Some(e.reference))],
                  s.events + {e.key}, s.money + [Money(PaymentRow, e.order, o.amount)],
                  if sells then s.lots + [e.order] else s.lots, if sells then s.granted + {e.order} else s.granted,
                  s.transitions + [Transition(e.order, Succeeded, e.key.eventId)], s.outbox + [PaymentSucceededFor(e.order)], s.refunds, s.keys)
  }

  lemma SettledExactlyWhen(s: Shop, e: Event, creditOk: bool, subscriptionOk: bool)
    requires Inv(s) && e.key !in s.events && e.order < |s.orders| && WaitsForPayment(s.orders[e.order])
    ensures var o := Settle(s.(events := s.events + {e.key}), e, creditOk, subscriptionOk);
            if HeldElsewhere(s, e.order, e.reference) then o == Thrown(UniqueViolation)
            else if Delivers(s.orders[e.order], creditOk, subscriptionOk) then o.Done? && o.value == Processed && SettledBy(s, o.shop, e)
            else o == Thrown(if s.orders[e.order].purpose == Credits then CreditGrantFailed else SubscriptionFailed)
  {
    SettleMeetsOnlyTheReferenceIndex(s, e, creditOk, subscriptionOk);
    HeldElsewhereIsTaken(s, e.order, e.reference);
    var seen := s.(events := s.events + {e.key});
    RestatusKeepsInv(s, seen);
    SettleMeetsOnlyTheReferenceIndex(seen, e, creditOk, subscriptionOk);
    HeldElsewhereIsTaken(seen, e.order, e.reference);
    hide Inv, RowsOk, ReferenceTaken, TransitionClash;
  }

  /** The answer to every event, and the exact condition of each refusal. */
  lemma EventAnswered(s: Shop, e: Event, creditOk: bool, subscriptionOk: bool)
    requires Inv(s)
    ensures var o := ProcessEvent(s, e, creditOk, subscriptionOk);
            var seen := s.(events := s.events + {e.key});
            && (e.key in s.events ==> o == Done(s, Duplicate))
            && (o == Thrown(NotFound) <==> e.key !in s.events && !Addresses(s, e))
            && (o == Thrown(EventMismatch) <==> Addresses(s, e) && e.status == PaymentSucceeded && !ReportsPayment(s, e))
            && (o == Thrown(TransitionInvalid) <==>
                  Addresses(s, e) && ReportsPayment(s, e) && s.orders[e.order].status != Succeeded && !WaitsForPayment(s.orders[e.order]))
            && (o == Thrown(UniqueViolation) <==>
                  Addresses(s, e) && ReportsPayment(s, e) && WaitsForPayment(s.orders[e.order]) && HeldElsewhere(s, e.order, e.reference))
            && (Addresses(s, e) && ReportsPayment(s, e) && WaitsForPayment(s.orders[e.order]) && !HeldElsewhere(s, e.order, e.reference)
                && !Delivers(s.orders[e.order], creditOk, subscriptionOk) ==>
                  o == Thrown(if s.orders[e.order].purpose == Credits then CreditGrantFailed else SubscriptionFailed))
            && (Addresses(s, e) && e.status == Ignored ==> o == Done(seen, AnsweredIgnored))
            && (Addresses(s, e) && e.status.Other? ==> o == Done(seen, Processed))
            && (Addresses(s, e) && e.status == PaymentFailed ==>
                  o == Done(if WaitsForPayment(s.orders[e.order])
                            then seen.(orders := s.orders[e.order := s.orders[e.order].(status := Failed)],
                                       transitions := s.transitions + [Transition(e.order, Failed, e.key.eventId)])
                            else seen,
                            Processed))
            && (Addresses(s, e) && ReportsPayment(s, e) && s.orders[e.order].status == Succeeded ==> o == Done(seen, Duplicate))
            && (Settles(s, e, creditOk, subscriptionOk) ==> o.Done? && o.value == Processed && SettledBy(s, o.shop, e))
  {
    if e.key !in s.events && e.order < |s.orders| && WaitsForPayment(s.orders[e.order]) {
      SettledExactlyWhen(s, e, creditOk, subscriptionOk);
      SettleMeetsOnlyTheReferenceIndex(s, e, creditOk, subscriptionOk);
    }
    hide Inv, Settle, SettledBy, HeldElsewhere, TransitionClash, Delivers;
  }

  /** An unseen event that reports the payment of an open order, under a free reference. */
  ghost predicate Settles(s: Shop, e: Event, creditOk: bool, subscriptionOk: bool)
    requires |s.orders| == |s.attempts|
  {
    && Addresses(s, e) && ReportsPayment(s, e) && WaitsForPayment(s.orders[e.order])
    && !HeldElsewhere(s, e.order, e.reference) && Delivers(s.orders[e.order], creditOk, subscriptionOk)
  }

  lemma EventBooksExactly(s: Shop, e: Event, creditOk: bool, subscriptionOk: bool, k: nat)
    requires Inv(s) && k < |s.orders|
    ensures PaymentRows(ShopOf(s, ProcessEvent(s, e, creditOk, subscriptionOk)), k)
            == PaymentRows(s, k) + if e.order == k && Settles(s, e, creditOk, subscriptionOk) then 1 else 0
  {
    EventAnswered(s, e, creditOk, subscriptionOk);
    hide Inv, ProcessEvent, HeldElsewhere, Delivers;
    if Settles(s, e, creditOk, subscriptionOk) {
      SumAppend(s.money, Money(PaymentRow, e.order, s.orders[e.order].amount), OnOrder(PaymentRow, k));
    }
  }

  lemma OtherStepsBookNothing(s: Shop, step: Step, k: nat)
    requires Inv(s) && k < |s.orders| && !step.EventStep?
    ensures PaymentRows(Next(s, step), k) == PaymentRows(s, k)
  {
    if step.ConfirmStep? && step.refund < |s.refunds| {
      SumAppend(s.money, Money(RefundRow, s.refunds[step.refund].order, s.refunds[step.refund].amount), OnOrder(PaymentRow, k));
    }
    hide Inv, SumBy, ReferenceTaken, RefundClash, RefundError;
  }

  /** In every run a payment of an order is booked by a step exactly when the step is an unseen
      SUCCEEDED event of the order's provider for its amount and currency, the order is open, no
      other attempt of the provider holds the event's reference and the calls it needs succeed. */
  lemma PaymentBookedExactlyWhen(trace: seq<Shop>, steps: seq<Step>, i: nat, k: nat)
    requires Run(trace, steps) && i < |steps| && k < |trace[i].orders|
    ensures PaymentRows(trace[i + 1], k) != PaymentRows(trace[i], k)
            <==> steps[i].EventStep? && steps[i].event.order == k && Settles(trace[i], steps[i].event, steps[i].creditOk, steps[i].subscriptionOk)
  {
    Reachable(trace, steps, i);
    hide Inv, ProcessEvent, Settles, PaymentRows;
    match steps[i]
    case EventStep(e, creditOk, subscriptionOk) => EventBooksExactly(trace[i], e, creditOk, subscriptionOk, k);
    case _ => OtherStepsBookNothing(trace[i], steps[i], k);
  }

  // ---- Checkout and expiry ------------------------------------------------------------------------------

  /** A checkout opens one PENDING order with its attempt, unless the provider's reference is held. */
  lemma CheckoutStored(s: Shop, c: Cart)
    requires Inv(s)
    ensures var o := Checkout(s, c);
            var held := exists i :: 0 <= i < |s.orders| && s.orders[i].provider == c.provider && s.attempts[i].reference == Some(c.reference);
            if held then o == Thrown(UniqueViolation)
            else o == Done(s.(orders := s.orders + [Order(c.owner, c.amount, Upper(c.currency), c.provider, c.purpose, c.priceId, Pending, 0, Some(c.expiresAt))],
                              attempts := s.attempts + [Attempt(AttemptPending, Some(c.reference))]),
                           |s.orders|)
  {
    if i :| 0 <= i < |s.orders| && s.orders[i].provider == c.provider && s.attempts[i].reference == Some(c.reference) {
      assert HoldsReference(s, i, c.provider, c.reference);
    }
    hide Inv;
  }

  /** The sweep expires exactly the open orders whose time has come, with their attempts, and touches
      nothing else. */
  lemma ExpiredExactlyWhen(s: Shop, now: int, k: nat)
    requires Inv(s) && k < |s.orders|
    ensures var after := ExpirePending(s, now);
            var overdue := WaitsForPayment(s.orders[k]) && s.orders[k].expiresAt.Some? && s.orders[k].expiresAt.value <= now;
            && after == s.(orders := after.orders, attempts := after.attempts) && |after.orders| == |after.attempts| == |s.orders|
            && after.orders[k] == s.orders[k].(status := if overdue then Expired else s.orders[k].status)
            && after.attempts[k] == s.attempts[k].(status := if overdue && s.attempts[k].status in {AttemptCreated, AttemptPending, AttemptProcessing}
                                                             then AttemptExpired else s.attempts[k].status)
  {
  }

  // ---- Refunds ------------------------------------------------------------------------------------------

  /** What a confirmation writes: the refund, the order's refunded amount and status, one REFUND row of
      the refund's amount and one message. */
  lemma ConfirmationStored(s: Shop, refund: nat, provider: string, succeeded: bool, subscriptionOk: bool)
    requires Inv(s)
    ensures var o := ConfirmRefund(s, refund, provider, succeeded, subscriptionOk);
            if refund >= |s.refunds| then o == Done(s, None)
            else
              var r := s.refunds[refund];
              var order := s.orders[r.order];
              var total := order.refunded + r.amount;
              if r.status == Confirmed || r.status == RefundFailed then o == Done(s, Some(r.status))
              else if order.provider != provider then o == Done(s, None)
              else if !succeeded then o == Done(s.(refunds := s.refunds[refund := r.(status := RefundFailed)]), Some(RefundFailed))
              else if total > order.amount then o == Thrown(RefundInvalid)
              else if order.purpose == Subscription && total == order.amount && !subscriptionOk then o == Thrown(SubscriptionFailed)
              else o == Done(s.(refunds := s.refunds[refund := r.(status := Confirmed)],
                                orders := s.orders[r.order := order.(refunded := total, status := if total < order.amount then PartiallyRefunded else Refunded)],
                                money := s.money + [Money(RefundRow, r.order, r.amount)],
                                outbox := s.outbox + [RefundConfirmedFor(refund)]),
                             Some(Confirmed))
  {
    ConfirmKeepsInv(s, refund, provider, succeeded, subscriptionOk);
    hide Inv, RowsOk, OrderOk;
    ShapeOf(s);
  }

  function RefundedOn(order: nat): Money -> int {
    (m: Money) => if m.kind == RefundRow && m.order == order then m.amount else 0
  }

  /** The REFUND rows of the order add up to what it says is refunded, and its status tells how much. */
  ghost predicate RefundsBooked(s: Shop, k: nat) {
    && k < |s.orders|
    && var o := s.orders[k];
       && SumBy(s.money, RefundedOn(k)) == o.refunded
       && (o.status in {Pending, Processing, Succeeded} ==> o.refunded == 0)
       && (o.status == PartiallyRefunded ==> 0 < o.refunded < o.amount)
       && (o.status == Refunded ==> 0 < o.refunded == o.amount)
  }

  lemma ConfirmKeepsBooked(s: Shop, step: Step, k: nat)
    requires Inv(s) && step.ConfirmStep? && k < |s.orders| && RefundsBooked(s, k)
    ensures RefundsBooked(Next(s, step), k)
  {
    ConfirmationStored(s, step.refund, step.provider, step.succeeded, step.subscriptionOk);
    assert |s.attempts| == |s.orders| && (forall i :: 0 <= i < |s.refunds| ==> s.refunds[i].order < |s.orders| && s.refunds[i].amount > 0);
    assert s.orders[k].refunded >= 0 by { assert OrderOk(s, k); }
    hide Inv, RowsOk, OrderOk, ConfirmRefund, SumBy;
    if step.refund < |s.refunds| {
      SumAppend(s.money, Money(RefundRow, s.refunds[step.refund].order, s.refunds[step.refund].amount), RefundedOn(k));
    }
    hide Inv, RowsOk, OrderOk, ConfirmRefund, SumBy;
  }

  lemma EventKeepsBooked(s: Shop, step: Step, k: nat)
    requires Inv(s) && step.EventStep? && k < |s.orders| && RefundsBooked(s, k)
    ensures RefundsBooked(Next(s, step), k)
  {
    var e := step.event;
    hide Inv, ProcessEvent, SumBy;
    assert |s.attempts| == |s.orders| by { ShapeOf(s); }
    EventMovesStatus(s, e, step.creditOk, step.subscriptionOk, k);
    EventBooks(s, e, step.creditOk, step.subscriptionOk, Next(s, step));
    if e.order < |s.orders| {
      SumAppend(s.money, Money(PaymentRow, e.order, s.orders[e.order].amount), RefundedOn(k));
    }
  }

  /** Of the orders an event changes nothing but the status of one that waits for its payment. */
  lemma EventMovesStatus(s: Shop, e: Event, creditOk: bool, subscriptionOk: bool, k: nat)
    requires Inv(s) && k < |s.orders|
    ensures var after := ShopOf(s, ProcessEvent(s, e, creditOk, subscriptionOk));
            && |after.orders| == |s.orders|
            && var o, o' := s.orders[k], after.orders[k];
               && o' == o.(status := o'.status)
               && (o'.status == o.status || (WaitsForPayment(o) && (o'.status == Succeeded || o'.status == Failed)))
  {
    EventAnswered(s, e, creditOk, subscriptionOk);
    hide Inv, ProcessEvent, HeldElsewhere, Delivers;
  }

  lemma OtherStepsKeepBooked(s: Shop, step: Step, k: nat)
    requires Inv(s) && !step.ConfirmStep? && !step.EventStep? && k < |s.orders| && RefundsBooked(s, k)
    ensures RefundsBooked(Next(s, step), k)
  {
    assert |s.attempts| == |s.orders|;
    hide Inv, SumBy, ReferenceTaken, RefundClash, RefundError;
  }

  lemma NewOrderIsBooked(s: Shop, step: Step, k: nat)
    requires Inv(s) && |s.orders| <= k < |Next(s, step).orders|
    ensures RefundsBooked(Next(s, step), k)
  {
    SumZero(s.money, RefundedOn(k));
    if step.EventStep? {
      EventBooks(s, step.event, step.creditOk, step.subscriptionOk, Next(s, step));
    }
    hide Inv, SumBy, ReferenceTaken, ProcessEvent;
  }

  /** In every run the REFUND rows of an order add up to its refunded amount; SUCCEEDED means nothing
      of it, PARTIALLY_REFUNDED a part and REFUNDED all of the price. */
  lemma {:induction false} StatusTellsRefunds(trace: seq<Shop>, steps: seq<Step>, i: nat, k: nat)
    requires Run(trace, steps) && i < |trace| && k < |trace[i].orders|
    ensures RefundsBooked(trace[i], k)
    decreases i
  {
    hide Inv, Next, RefundsBooked;
    if i > 0 {
      var s, step := trace[i - 1], steps[i - 1];
      Reachable(trace, steps, i - 1);
      if k >= |s.orders| {
        NewOrderIsBooked(s, step, k);
      } else {
        StatusTellsRefunds(trace, steps, i - 1, k);
        if step.ConfirmStep? {
          ConfirmKeepsBooked(s, step, k);
        } else if step.EventStep? {
          EventKeepsBooked(s, step, k);
        } else {
          OtherStepsKeepBooked(s, step, k);
        }
      }
    }
  }

  /** The answer to every refund request, and what an accepted one stores. */
  lemma RefundRequestStored(s: Shop, q: RefundRequest, creditsOk: bool, providerOk: bool)
    requires Inv(s) && q.order < |s.orders|
    ensures var o := RequestRefund(s, q, creditsOk, providerOk);
            var order, attempt := s.orders[q.order], s.attempts[q.order];
            var key := RefundKey(q.owner, order.provider, q.key);
            if q.amount <= 0 || Blank(q.reason) then o == Thrown(ValidationFailed)
            else if order.owner != q.owner then o == Thrown(NotFound)
            else if order.status != Succeeded || order.amount < order.refunded + q.amount then o == Thrown(RefundInvalid)
            else if attempt.status != AttemptSucceeded || attempt.reference.None? then o == Thrown(RefundNotConfirmed)
            else if !(16 <= |q.key| <= 128) then o == Thrown(ValidationFailed)
            else if key in s.keys then
              var first := s.keys[key];
              if first.order == q.order && first.amount == q.amount && first.reason == q.reason then o == Done(s, first.result) else o == Thrown(BodyMismatch)
            else if order.purpose == Credits && order.priceId.Some? && !creditsOk then o == Thrown(CreditsAlreadyUsed)
            else o == Done(s.(refunds := s.refunds + [Refund(q.order, q.amount, if providerOk then InProgress else RefundFailed, q.key)],
                              keys := s.keys[key := RefundRecord(q.order, q.amount, q.reason, |s.refunds|)]),
                           |s.refunds|)
  {
    RefundIndexNeverFires(s, q, creditsOk, providerOk);
    hide Inv, RefundClash, Blank;
    ShapeOf(s);
  }

  // ---- Reasons ---------------------------------------------------------------------------------------------

  /** The white space that `trim` strips: tab, line feed, vertical tab, return, space and NUL. */
  predicate Strips(c: char) {
    c as int in {9, 10, 11, 13, 32, 0}
  }

  function TrimLeft(text: string): string {
    if text != "" && Strips(text[0]) then TrimLeft(text[1..]) else text
  }

  function TrimRight(text: string): string
    decreases |text|
  {
    if text != "" && Strips(text[|text| - 1]) then TrimRight(text[..|text| - 1]) else text
  }

  lemma {:induction false} TrimmedAway(text: string)
    ensures TrimLeft(text) == "" <==> forall i :: 0 <= i < |text| ==> Strips(text[i])
  {
    if text != "" {
      TrimmedAway(text[1..]);
      if Strips(text[0]) {
        assert forall i :: 0 < i < |text| ==> text[i] == text[1..][i - 1];
        assert forall i :: 0 <= i < |text[1..]| ==> text[1..][i] == text[i + 1];
      }
    }
  }

  /** The reason of a refund counts as missing exactly when trimming both ends leaves nothing of it. */
  lemma BlankIsTrimmedAway(text: string)
    ensures Blank(text) <==> TrimRight(TrimLeft(text)) == ""
  {
    TrimmedAway(text);
    assert forall i :: 0 <= i < |text| ==> (text[i] in " \t\n\r\0\U{000B}" <==> Strips(text[i]));
    TrimmedFront(text);
  }

  lemma {:induction false} TrimmedFront(text: string)
    ensures TrimLeft(text) != "" ==> !Strips(TrimLeft(text)[0]) && TrimRight(TrimLeft(text)) != ""
  {
    if text != "" && Strips(text[0]) {
      TrimmedFront(text[1..]);
    } else if text != "" {
      KeepsFront(text);
    }
  }

  lemma {:induction false} KeepsFront(text: string)
    requires text != "" && !Strips(text[0])
    ensures TrimRight(text) != ""
    decreases |text|
  {
    if Strips(text[|text| - 1]) {
      KeepsFront(text[..|text| - 1]);
    }
  }
}
