/** Orders, payment attempts, webhook events and refunds as tables. Every function is one database
    transaction; a thrown error keeps the old tables. Each order has the one attempt that its
    checkout created, stored under the same index. */
module Payments {
  import opened Common

  datatype Status = Pending | Processing | Succeeded | Failed | Expired | NeedsReview | PartiallyRefunded | Refunded

  datatype Purpose = Credits | Subscription | OneTime

  datatype Order = Order(owner: string, amount: int, currency: string, provider: string, purpose: Purpose, priceId: Option<string>,
                         status: Status, refunded: int, expiresAt: Option<int>)

  datatype AttemptStatus = AttemptCreated | AttemptPending | AttemptProcessing | AttemptSucceeded | AttemptExpired | AttemptReview

  datatype Attempt = Attempt(status: AttemptStatus, reference: Option<string>)

  datatype RefundStatus = Requested | InProgress | Confirmed | RefundFailed

  datatype Refund = Refund(order: nat, amount: int, status: RefundStatus, key: string)

  /** A row of `idempotency_keys` for refund requests. */
  datatype RefundKey = RefundKey(owner: string, provider: string, key: string)

  datatype RefundRecord = RefundRecord(order: nat, amount: int, reason: string, result: nat)

  datatype MoneyKind = PaymentRow | RefundRow

  datatype Money = Money(kind: MoneyKind, order: nat, amount: int)

  datatype Transition = Transition(order: nat, to: Status, event: string)

  datatype OutboxKey = PaymentSucceededFor(order: nat) | RefundConfirmedFor(refund: nat)

  datatype EventKey = EventKey(provider: string, eventId: string, eventType: string)

  datatype Shop = Shop(orders: seq<Order>, attempts: seq<Attempt>, events: set<EventKey>, money: seq<Money>,
                       lots: seq<nat>, granted: set<nat>, transitions: seq<Transition>, outbox: seq<OutboxKey>, refunds: seq<Refund>,
                       keys: map<RefundKey, RefundRecord>)

  datatype Error = NotFound | EventMismatch | TransitionInvalid | CreditGrantFailed | SubscriptionFailed | UniqueViolation
                 | RefundInvalid | RefundNotConfirmed | CreditsAlreadyUsed | BodyMismatch | ValidationFailed

  datatype Outcome<+T> = Done(shop: Shop, value: T) | Thrown(error: Error)

  const Empty := Shop([], [], {}, [], [], {}, [], [], [], map[])

  function ShopOf<T>(s: Shop, o: Outcome<T>): Shop {
    match o case Done(after, _) => after case Thrown(_) => s
  }

  // ---- Checkout ---------------------------------------------------------------------

  /** The unique index over (provider, provider reference) of the attempts of other orders. */
  predicate ReferenceTaken(s: Shop, provider: string, reference: string, own: nat) {
    exists i :: 0 <= i < |s.attempts| && i < |s.orders| && i != own && HoldsReference(s, i, provider, reference)
  }

  predicate HoldsReference(s: Shop, i: nat, provider: string, reference: string)
    requires i < |s.orders| && i < |s.attempts|
  {
    s.orders[i].provider == provider && s.attempts[i].reference == Some(reference)
  }

  /** What a checkout stores; the provider has answered with `reference`. */
  datatype Cart = Cart(owner: string, amount: nat, currency: string, provider: string, purpose: Purpose, priceId: Option<string>,
                       expiresAt: int, reference: string)

  function Checkout(s: Shop, c: Cart): Outcome<nat> {
    if ReferenceTaken(s, c.provider, c.reference, |s.orders|) then Thrown(UniqueViolation)
    else Done(s.(orders := s.orders + [Order(c.owner, c.amount, Upper(c.currency), c.provider, c.purpose, c.priceId, Pending, 0, Some(c.expiresAt))],
                 attempts := s.attempts + [Attempt(AttemptPending, Some(c.reference))]),
              |s.orders|)
  }

  // ---- Webhook events ---------------------------------------------------------------

  datatype EventStatus = Ignored | PaymentSucceeded | PaymentFailed | Other(text: string)

  datatype Event = Event(key: EventKey, order: nat, reference: string, status: EventStatus, amount: Option<int>, currency: Option<string>)

  datatype Answer = Duplicate | AnsweredIgnored | Processed

  predicate Open(s: Status) {
    s in {Pending, Processing}
  }

  predicate TransitionClash(transitions: seq<Transition>, t: Transition) {
    t in transitions
  }

  /** `grantPaidOrder` runs once per order, under the key `paid-order-<order>`. */
  function GrantPaidOrder(s: Shop, order: nat): Shop {
    if order in s.granted then s else s.(lots := s.lots + [order], granted := s.granted + {order})
  }

  predicate SellsCredits(o: Order) {
    o.purpose == Credits && o.priceId.Some?
  }

  /** The body of the SUCCEEDED branch, once amount and currency agree and the order is open.
      The new reference of the attempt meets its unique index before anything else is called;
      `creditOk` and `subscriptionOk` stand for the calls into the catalog and the subscriptions. */
  function Settle(s: Shop, e: Event, creditOk: bool, subscriptionOk: bool): Outcome<Answer>
    requires e.order < |s.orders| && e.order < |s.attempts|
  {
    var o := s.orders[e.order];
    var t := Transition(e.order, Succeeded, e.key.eventId);
    if ReferenceTaken(s, o.provider, e.reference, e.order) then Thrown(UniqueViolation)
    else if SellsCredits(o) && !creditOk then Thrown(CreditGrantFailed)
    else if o.purpose == Subscription && !subscriptionOk then Thrown(SubscriptionFailed)
    else if TransitionClash(s.transitions, t) || PaymentSucceededFor(e.order) in s.outbox then Thrown(UniqueViolation)
    else
      var paid := s.(orders := s.orders[e.order := o.(status := Succeeded)],
                     attempts := s.attempts[e.order := Attempt(AttemptSucceeded, Some(e.reference))],
                     money := s.money + [Money(PaymentRow, e.order, o.amount)],
                     transitions := s.transitions + [t],
                     outbox := s.outbox + [PaymentSucceededFor(e.order)]);
      Done(if SellsCredits(o) then GrantPaidOrder(paid, e.order) else paid, Processed)
  }

  /** `PaymentWebhookProcessor::process`. */
  function ProcessEvent(s: Shop, e: Event, creditOk: bool, subscriptionOk: bool): Outcome<Answer>
    requires |s.attempts| == |s.orders|
  {
    var seen := s.(events := s.events + {e.key});
    if e.key in s.events then Done(s, Duplicate)
    else if e.order >= |s.orders| || s.orders[e.order].provider != e.key.provider then Thrown(NotFound)
    else
      var o := s.orders[e.order];
      match e.status
      case Ignored => Done(seen, AnsweredIgnored)
      case PaymentSucceeded =>
        if e.amount != Some(o.amount) || e.currency.None? || Upper(e.currency.value) != o.currency then Thrown(EventMismatch)
        else if o.status == Succeeded then Done(seen, Duplicate)
        else if !Open(o.status) then Thrown(TransitionInvalid)
        else Settle(seen, e, creditOk, subscriptionOk)
      case PaymentFailed =>
        var t := Transition(e.order, Failed, e.key.eventId);
        if !Open(o.status) then Done(seen, Processed)
        else if TransitionClash(s.transitions, t) then Thrown(UniqueViolation)
        else Done(seen.(orders := s.orders[e.order := o.(status := Failed)], transitions := s.transitions + [t]), Processed)
      case Other(_) => Done(seen, Processed)
  }

  // ---- Maintenance and reconciliation -------------------------------------------------

  predicate Overdue(o: Order, now: int) {
    Open(o.status) && o.expiresAt.Some? && o.expiresAt.value <= now
  }

  function ExpireAttempt(a: Attempt): Attempt {
    if a.status in {AttemptCreated, AttemptPending, AttemptProcessing} then a.(status := AttemptExpired) else a
  }

  /** `PaymentMaintenanceService::expirePending`. */
  function ExpirePending(s: Shop, now: int): Shop
    requires |s.attempts| == |s.orders|
  {
    s.(orders := seq(|s.orders|, i requires 0 <= i < |s.orders| =>
                   if Overdue(s.orders[i], now) then s.orders[i].(status := Expired) else s.orders[i]),
       attempts := seq(|s.orders|, i requires 0 <= i < |s.orders| =>
                   if Overdue(s.orders[i], now) then ExpireAttempt(s.attempts[i]) else s.attempts[i]))
  }

  /** The review branch of `reconcile`; it overwrites any status. */
  function MarkForReview(s: Shop, order: nat): Shop
    requires order < |s.orders| && order < |s.attempts|
  {
    s.(orders := s.orders[order := s.orders[order].(status := NeedsReview)],
       attempts := s.attempts[order := s.attempts[order].(status := AttemptReview)])
  }

  // ---- Refunds ------------------------------------------------------------------------

  datatype RefundRequest = RefundRequest(owner: string, order: nat, amount: int, reason: string, key: string)

  /** `trim` leaves nothing of the text. */
  predicate Blank(text: string) {
    forall i :: 0 <= i < |text| ==> text[i] in " \t\n\r\0\U{000B}"
  }

  /** The checks of `RefundService::request` before the idempotency key is looked at. */
  function RefundError(s: Shop, q: RefundRequest): Option<Error> {
    if q.amount <= 0 || Blank(q.reason) then Some(ValidationFailed)
    else if q.order >= |s.orders| || q.order >= |s.attempts| || s.orders[q.order].owner != q.owner then Some(NotFound)
    else if s.orders[q.order].status != Succeeded || s.orders[q.order].refunded + q.amount > s.orders[q.order].amount then Some(RefundInvalid)
    else if s.attempts[q.order].status != AttemptSucceeded || s.attempts[q.order].reference.None? then Some(RefundNotConfirmed)
    else if !KeyLengthOk(q.key) then Some(ValidationFailed)
    else None
  }

  function RefundKeyOf(s: Shop, q: RefundRequest): RefundKey
    requires q.order < |s.orders|
  {
    RefundKey(q.owner, s.orders[q.order].provider, q.key)
  }

  /** The unique index over (attempt, key); each order has one attempt. */
  predicate RefundClash(s: Shop, q: RefundRequest) {
    exists i :: 0 <= i < |s.refunds| && s.refunds[i].order == q.order && s.refunds[i].key == q.key
  }

  /** `RefundService::request`; `creditsOk` says whether the credits of the order can be held, as
      RefundCredits models it. */
  function RequestRefund(s: Shop, q: RefundRequest, creditsOk: bool, providerOk: bool): Outcome<nat> {
    if RefundError(s, q).Some? then Thrown(RefundError(s, q).value)
    else
      var key := RefundKeyOf(s, q);
      if key in s.keys then
        if s.keys[key] == RefundRecord(q.order, q.amount, q.reason, s.keys[key].result) then Done(s, s.keys[key].result)
        else Thrown(BodyMismatch)
      else if RefundClash(s, q) then Thrown(UniqueViolation)
      else if SellsCredits(s.orders[q.order]) && !creditsOk then Thrown(CreditsAlreadyUsed)
      else Done(s.(refunds := s.refunds + [Refund(q.order, q.amount, if providerOk then InProgress else RefundFailed, q.key)],
                   keys := s.keys[key := RefundRecord(q.order, q.amount, q.reason, |s.refunds|)]),
                |s.refunds|)
  }

  /** `RefundService::confirm`; None when the refund or the provider is unknown. */
  function ConfirmRefund(s: Shop, refund: nat, provider: string, succeeded: bool, subscriptionOk: bool): Outcome<Option<RefundStatus>> {
    if refund >= |s.refunds| then Done(s, None)
    else
      var r := s.refunds[refund];
      if r.status in {Confirmed, RefundFailed} then Done(s, Some(r.status))
      else if r.order >= |s.orders| || s.orders[r.order].provider != provider then Done(s, None)
      else if !succeeded then Done(s.(refunds := s.refunds[refund := r.(status := RefundFailed)]), Some(RefundFailed))
      else
        var o := s.orders[r.order];
        var total := o.refunded + r.amount;
        if total > o.amount then Thrown(RefundInvalid)
        else if o.purpose == Subscription && total == o.amount && !subscriptionOk then Thrown(SubscriptionFailed)
        else if RefundConfirmedFor(refund) in s.outbox then Thrown(UniqueViolation)
        else Done(s.(refunds := s.refunds[refund := r.(status := Confirmed)],
                     orders := s.orders[r.order := o.(refunded := total, status := if total == o.amount then Refunded else PartiallyRefunded)],
                     money := s.money + [Money(RefundRow, r.order, r.amount)],
                     outbox := s.outbox + [RefundConfirmedFor(refund)]),
                  Some(Confirmed))
  }

  // ---- Runs -----------------------------------------------------------------------------

  datatype Step =
    | CheckoutStep(cart: Cart)
    | EventStep(event: Event, creditOk: bool, subscriptionOk: bool)
    | ExpireStep(now: int)
    | ReviewStep(order: nat)
    | RefundStep(request: RefundRequest, creditsOk: bool, providerOk: bool)
    | ConfirmStep(refund: nat, provider: string, succeeded: bool, subscriptionOk: bool)

  function Next(s: Shop, step: Step): Shop
    requires |s.attempts| == |s.orders|
  {
    match step
    case CheckoutStep(cart) => ShopOf(s, Checkout(s, cart))
    case EventStep(e, creditOk, subscriptionOk) => ShopOf(s, ProcessEvent(s, e, creditOk, subscriptionOk))
    case ExpireStep(now) => ExpirePending(s, now)
    case ReviewStep(order) => if order < |s.orders| then MarkForReview(s, order) else s
    case RefundStep(q, creditsOk, providerOk) => ShopOf(s, RequestRefund(s, q, creditsOk, providerOk))
    case ConfirmStep(refund, provider, succeeded, subscriptionOk) => ShopOf(s, ConfirmRefund(s, refund, provider, succeeded, subscriptionOk))
  }

  ghost predicate Run(trace: seq<Shop>, steps: seq<Step>) {
    && |trace| == |steps| + 1 && trace[0] == Empty
    && forall i :: 0 <= i < |steps| ==> |trace[i].attempts| == |trace[i].orders| && trace[i + 1] == Next(trace[i], steps[i])
  }
}
