/** The payment services as they run, one method per transaction, with the rows updated in place
    and rolled back on an error. */
module PaymentTables {
  import opened Common
  import opened Payments
  import opened PaymentTheorems

  /** An event seen before is a duplicate; a new one that is accepted leaves its row. */
  lemma EventMarks(s: Shop, e: Event, creditOk: bool, subscriptionOk: bool)
    requires |s.attempts| == |s.orders|
    ensures match ProcessEvent(s, e, creditOk, subscriptionOk)
            case Done(after, v) => after.events == s.events + {e.key} && (e.key in s.events ==> after == s && v == Duplicate)
            case Thrown(_) => e.key !in s.events
  {
    hide ReferenceTaken, TransitionClash;
  }

  class Tables {
    var orders: seq<Order>
    var attempts: seq<Attempt>
    var events: set<EventKey>
    var money: seq<Money>
    var lots: seq<nat>
    var granted: set<nat>
    var transitions: seq<Transition>
    var outbox: seq<OutboxKey>
    var refunds: seq<Refund>
    var keys: map<RefundKey, RefundRecord>

    ghost function State(): Shop
      reads this
    {
      Shop(orders, attempts, events, money, lots, granted, transitions, outbox, refunds, keys)
    }

    constructor ()
      ensures State() == Empty
    {
      orders, attempts, events, money := [], [], {}, [];
      lots, granted, transitions, outbox, refunds, keys := [], {}, [], [], [], map[];
    }

    method Rollback(saved: Shop)
      modifies this
      ensures State() == saved
    {
      orders, attempts, events, money := saved.orders, saved.attempts, saved.events, saved.money;
      lots, granted, transitions := saved.lots, saved.granted, saved.transitions;
      outbox, refunds, keys := saved.outbox, saved.refunds, saved.keys;
    }

    /** `grantPaidOrder`, once per order. */
    method Grant(order: nat)
      modifies this`lots, this`granted
      ensures State() == GrantPaidOrder(old(State()), order)
    {
      if order !in granted {
        lots := lots + [order];
        granted := granted + {order};
      }
    }

    /** The writes of the SUCCEEDED branch, in the order of the source. */
    method SettleOrder(e: Event, creditOk: bool, subscriptionOk: bool) returns (r: Result<Answer, Error>)
      requires e.order < |orders| && e.order < |attempts|
      modifies this
      ensures State() == ShopOf(old(State()), Settle(old(State()), e, creditOk, subscriptionOk)) || r.Failure?
      ensures match Settle(old(State()), e, creditOk, subscriptionOk) case Done(_, v) => r == Success(v) case Thrown(err) => r == Failure(err)
    {
      var o := orders[e.order];
      hide ReferenceTaken, SellsCredits;
      if ReferenceTaken(Shop(orders, attempts, events, money, lots, granted, transitions, outbox, refunds, keys), o.provider, e.reference, e.order) {
        return Failure(UniqueViolation);
      }
      orders := orders[e.order := o.(status := Succeeded)];
      attempts := attempts[e.order := Attempt(AttemptSucceeded, Some(e.reference))];
      money := money + [Money(PaymentRow, e.order, o.amount)];
      if SellsCredits(o) {
        if !creditOk {
          return Failure(CreditGrantFailed);
        }
        Grant(e.order);
      }
      if o.purpose == Subscription && !subscriptionOk {
        return Failure(SubscriptionFailed);
      }
      var t := Transition(e.order, Succeeded, e.key.eventId);
      if t in transitions || PaymentSucceededFor(e.order) in outbox {
        return Failure(UniqueViolation);
      }
      transitions := transitions + [t];
      outbox := outbox + [PaymentSucceededFor(e.order)];
      r := Success(Processed);
    }

    /** `PaymentWebhookProcessor::process`: a thrown error also forgets that the event was seen. */
    method Receive(e: Event, creditOk: bool, subscriptionOk: bool) returns (r: Result<Answer, Error>)
      requires Inv(State())
      modifies this
      ensures Inv(State()) && State() == ShopOf(old(State()), ProcessEvent(old(State()), e, creditOk, subscriptionOk))
      ensures match ProcessEvent(old(State()), e, creditOk, subscriptionOk) case Done(_, v) => r == Success(v) case Thrown(err) => r == Failure(err)
    {
      ShapeOf(State());
      hide Inv;
      EventKeepsInv(State(), e, creditOk, subscriptionOk);
      EventMarks(State(), e, creditOk, subscriptionOk);
      hide ProcessEvent;
      if e.key in events {
        return Success(Duplicate);
      }
      var saved := Shop(orders, attempts, events, money, lots, granted, transitions, outbox, refunds, keys);
      events := events + {e.key};
      r := Dispatch(e, creditOk, subscriptionOk);
      if r.Failure? {
        Rollback(saved);
      }
    }

    /** The branches on the order and on the event's status, once the event row is inserted. */
    method Dispatch(e: Event, creditOk: bool, subscriptionOk: bool) returns (r: Result<Answer, Error>)
      requires |attempts| == |orders| && e.key in events
      modifies this
      ensures var before := old(State()).(events := old(events) - {e.key});
              match ProcessEvent(before, e, creditOk, subscriptionOk)
              case Done(after, v) => State() == after.(events := after.events + {e.key}) && r == Success(v)
              case Thrown(err) => r == Failure(err)
    {
      assert old(events) - {e.key} + {e.key} == old(events);
      if e.order >= |orders| || orders[e.order].provider != e.key.provider {
        return Failure(NotFound);
      }
      var o := orders[e.order];
      match e.status
      case Ignored => r := Success(AnsweredIgnored);
      case PaymentSucceeded =>
        if e.amount.None? || e.currency.None? || e.amount.value != o.amount || Upper(e.currency.value) != o.currency {
          return Failure(EventMismatch);
        }
        if o.status == Succeeded {
          return Success(Duplicate);
        }
        if o.status !in {Pending, Processing} {
          return Failure(TransitionInvalid);
        }
        r := SettleOrder(e, creditOk, subscriptionOk);
      case PaymentFailed =>
        if o.status in {Pending, Processing} {
          var t := Transition(e.order, Failed, e.key.eventId);
          if t in transitions {
            return Failure(UniqueViolation);
          }
          orders := orders[e.order := o.(status := Failed)];
          transitions := transitions + [t];
        }
        r := Success(Processed);
      case Other(_) => r := Success(Processed);
    }

    /** `PaymentMaintenanceService::expirePending`. */
    method Expire(now: int) returns (count: nat)
      requires Inv(State())
      modifies this`orders, this`attempts
      ensures Inv(State()) && State() == ExpirePending(old(State()), now)
    {
      ghost var before := State();
      StepKeepsInv(before, ExpireStep(now));
      count := 0;
      for i := 0 to |orders|
        invariant |orders| == |attempts| == |before.orders|
        invariant forall k :: i <= k < |orders| ==> orders[k] == before.orders[k] && attempts[k] == before.attempts[k]
        invariant forall k :: 0 <= k < i ==> orders[k] == ExpirePending(before, now).orders[k] && attempts[k] == ExpirePending(before, now).attempts[k]
      {
        if Overdue(orders[i], now) {
          attempts := attempts[i := ExpireAttempt(attempts[i])];
          orders := orders[i := orders[i].(status := Expired)];
          count := count + 1;
        }
      }
      assert orders == ExpirePending(before, now).orders && attempts == ExpirePending(before, now).attempts;
    }

    method Review(order: nat)
      requires Inv(State()) && order < |orders|
      modifies this`orders, this`attempts
      ensures Inv(State()) && State() == MarkForReview(old(State()), order)
    {
      StepKeepsInv(State(), ReviewStep(order));
      orders := orders[order := orders[order].(status := NeedsReview)];
      attempts := attempts[order := attempts[order].(status := AttemptReview)];
    }

    /** The checkout transaction, once the provider has answered. */
    method PlaceOrder(c: Cart) returns (r: Result<nat, Error>)
      requires Inv(State())
      modifies this`orders, this`attempts
      ensures Inv(State()) && State() == ShopOf(old(State()), Checkout(old(State()), c))
      ensures match Checkout(old(State()), c) case Done(_, v) => r == Success(v) case Thrown(err) => r == Failure(err)
    {
      CheckoutKeepsInv(State(), c);
      hide Inv;
      if ReferenceTaken(Shop(orders, attempts, events, money, lots, granted, transitions, outbox, refunds, keys), c.provider, c.reference, |orders|) {
        return Failure(UniqueViolation);
      }
      r := Success(|orders|);
      orders := orders + [Order(c.owner, c.amount, Upper(c.currency), c.provider, c.purpose, c.priceId, Pending, 0, Some(c.expiresAt))];
      attempts := attempts + [Attempt(AttemptPending, Some(c.reference))];
    }

    method Request(q: RefundRequest, creditsOk: bool, providerOk: bool) returns (r: Result<nat, Error>)
      requires Inv(State())
      modifies this`refunds, this`keys
      ensures Inv(State()) && State() == ShopOf(old(State()), RequestRefund(old(State()), q, creditsOk, providerOk))
      ensures match RequestRefund(old(State()), q, creditsOk, providerOk) case Done(_, v) => r == Success(v) case Thrown(err) => r == Failure(err)
    {
      RequestKeepsInv(State(), q, creditsOk, providerOk);
      RefundIndexNeverFires(State(), q, creditsOk, providerOk);
      ShapeOf(State());
      hide Inv;
      if q.amount <= 0 || Blank(q.reason) {
        return Failure(ValidationFailed);
      }
      if q.order >= |orders| || orders[q.order].owner != q.owner {
        return Failure(NotFound);
      }
      var o := orders[q.order];
      if o.status != Succeeded || o.refunded + q.amount > o.amount {
        return Failure(RefundInvalid);
      }
      if attempts[q.order].status != AttemptSucceeded || attempts[q.order].reference.None? {
        return Failure(RefundNotConfirmed);
      }
      if !KeyLengthOk(q.key) {
        return Failure(ValidationFailed);
      }
      var key := RefundKey(q.owner, o.provider, q.key);
      if key in keys {
        var first := keys[key];
        if first.order != q.order || first.amount != q.amount || first.reason != q.reason {
          return Failure(BodyMismatch);
        }
        return Success(first.result);
      }
      if SellsCredits(o) && !creditsOk {
        return Failure(CreditsAlreadyUsed);
      }
      var id := |refunds|;
      ghost var before := refunds;
      refunds := refunds + [Refund(q.order, q.amount, Requested, q.key)];
      refunds := refunds[id := refunds[id].(status := if providerOk then InProgress else RefundFailed)];
      assert refunds == before + [Refund(q.order, q.amount, if providerOk then InProgress else RefundFailed, q.key)];
      keys := keys[key := RefundRecord(q.order, q.amount, q.reason, id)];
      r := Success(id);
    }

    method Confirm(refund: nat, provider: string, succeeded: bool, subscriptionOk: bool) returns (r: Result<Option<RefundStatus>, Error>)
      requires Inv(State())
      modifies this
      ensures Inv(State()) && State() == ShopOf(old(State()), ConfirmRefund(old(State()), refund, provider, succeeded, subscriptionOk))
      ensures match ConfirmRefund(old(State()), refund, provider, succeeded, subscriptionOk) case Done(_, v) => r == Success(v) case Thrown(err) => r == Failure(err)
    {
      ConfirmKeepsInv(State(), refund, provider, succeeded, subscriptionOk);
      if refund >= |refunds| {
        return Success(None);
      }
      var row := refunds[refund];
      if row.status in {Confirmed, RefundFailed} {
        return Success(Some(row.status));
      }
      if row.order >= |orders| || orders[row.order].provider != provider {
        return Success(None);
      }
      if !succeeded {
        refunds := refunds[refund := row.(status := RefundFailed)];
        return Success(Some(RefundFailed));
      }
      var o := orders[row.order];
      if o.refunded + row.amount > o.amount {
        return Failure(RefundInvalid);
      }
      var saved := Shop(orders, attempts, events, money, lots, granted, transitions, outbox, refunds, keys);
      refunds := refunds[refund := row.(status := Confirmed)];
      var total := o.refunded + row.amount;
      orders := orders[row.order := o.(refunded := total, status := if total == o.amount then Refunded else PartiallyRefunded)];
      money := money + [Money(RefundRow, row.order, row.amount)];
      if o.purpose == Subscription && total == o.amount && !subscriptionOk {
        Rollback(saved);
        return Failure(SubscriptionFailed);
      }
      assert RefundConfirmedFor(refund) !in outbox;
      outbox := outbox + [RefundConfirmedFor(refund)];
      r := Success(Some(Confirmed));
    }
  }
}
