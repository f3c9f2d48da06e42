/** One credit wallet as rows: lots, an append-only ledger, reservations and idempotency
    keys. Row ids are insertion indices, because rows are never deleted. Every function here
    is one database transaction of the credit service; a thrown error keeps the old wallet. */
module Credits {
  import opened Common
  import opened EarliestFirst
  import Decimal

  datatype Lot = Lot(total: int, remaining: int, reserved: int, expiresAt: Option<int>, source: nat)

  datatype Kind = Purchase | AdminGrant | Refund | Reserve | Release | Expiration | PurchaseRefundReserve

  /** The values of the unique column `idempotency_scope`. */
  datatype Scope = ExpireLot(lot: nat) | RefundOf(refund: string)

  datatype Entry = Entry(quantity: int, kind: Kind, reference: string, scope: Option<Scope>)

  datatype Allocation = Allocation(lot: nat, quantity: int)

  datatype Status = Reserved | Confirmed | Released

  datatype Reservation = Reservation(quantity: int, status: Status, reference: string, allocations: seq<Allocation>)

  datatype Operation = CreditPurchase | AdminCreditGrant | CreditReserve | CreditRefund | CreditPaidOrder(provider: string)

  datatype KeyId = KeyId(operation: Operation, key: string)

  datatype Body = ReserveBody(quantity: int, reference: string) | GrantBody(text: string)

  datatype KeyRecord = KeyRecord(body: Body, result: nat)

  datatype Wallet = Wallet(lots: seq<Lot>, ledger: seq<Entry>, reservations: seq<Reservation>, keys: map<KeyId, KeyRecord>)

  datatype Error = ValidationFailed | Forbidden | InsufficientCredits | BodyMismatch | NotFound | CreditsAlreadyUsed | UniqueViolation

  datatype Outcome<+T> = Done(wallet: Wallet, value: T) | Thrown(error: Error)

  const Empty := Wallet([], [], [], map[])

  // ---- Idempotency ------------------------------------------------------------------

  /** `PersistentIdempotency::execute`: replay the stored result or keep what the action does to `w`. */
  function Execute(w: Wallet, id: KeyId, body: Body, action: Outcome<nat>): Outcome<nat> {
    if !KeyLengthOk(id.key) then Thrown(ValidationFailed)
    else if id in w.keys then
      if w.keys[id].body != body then Thrown(BodyMismatch) else Done(w, w.keys[id].result)
    else match action
      case Thrown(e) => Thrown(e)
      case Done(after, value) => Done(after.(keys := after.keys[id := KeyRecord(body, value)]), value)
  }

  // ---- Movements between the counters of a lot --------------------------------------

  datatype Move = Hold | GiveBack | Consume

  function RemainingDelta(m: Move, q: int): int {
    match m case Hold => -q case GiveBack => q case Consume => 0
  }

  function ReservedDelta(m: Move, q: int): int {
    match m case Hold => q case GiveBack => -q case Consume => -q
  }

  function MoveLot(lot: Lot, m: Move, q: int): Lot {
    lot.(remaining := lot.remaining + RemainingDelta(m, q), reserved := lot.reserved + ReservedDelta(m, q))
  }

  predicate AllocationsInRange(allocations: seq<Allocation>, n: nat) {
    forall i :: 0 <= i < |allocations| ==> allocations[i].lot < n
  }

  /** One update statement per allocation, in order. */
  function MoveAll(lots: seq<Lot>, allocations: seq<Allocation>, m: Move): (after: seq<Lot>)
    requires AllocationsInRange(allocations, |lots|)
    ensures |after| == |lots|
  {
    if allocations == [] then lots
    else
      var n := |allocations| - 1;
      var before := MoveAll(lots, allocations[..n], m);
      var a := allocations[n];
      before[a.lot := MoveLot(before[a.lot], m, a.quantity)]
  }

  // ---- Reserve ----------------------------------------------------------------------

  predicate Spendable(lot: Lot, now: int) {
    lot.remaining > 0 && Alive(lot.expiresAt, now)
  }

  function ExpiriesOf(lots: seq<Lot>, rows: seq<nat>): (e: seq<Option<int>>)
    requires forall i :: 0 <= i < |rows| ==> rows[i] < |lots|
    ensures |e| == |rows|
  {
    seq(|rows|, i requires 0 <= i < |rows| => lots[rows[i]].expiresAt)
  }

  function AmountsOf(lots: seq<Lot>, rows: seq<nat>): (a: seq<int>)
    requires forall i :: 0 <= i < |rows| ==> rows[i] < |lots|
    ensures |a| == |rows|
  {
    seq(|rows|, i requires 0 <= i < |rows| => lots[rows[i]].remaining)
  }

  predicate Distinct(rows: seq<nat>) {
    forall i, j :: 0 <= i < j < |rows| ==> rows[i] != rows[j]
  }

  /** `rows` is an answer the database may give to the query of `reserve`: all spendable lots,
      earliest expiry first, lots without expiry last, ties in any order. */
  predicate SpendableQuery(lots: seq<Lot>, now: int, rows: seq<nat>) {
    && Distinct(rows)
    && (forall i :: 0 <= i < |rows| ==> rows[i] < |lots|)
    && (forall r: nat :: r < |lots| ==> (r in rows <==> Spendable(lots[r], now)))
    && Ordered(ExpiriesOf(lots, rows))
  }

  datatype Walk = Walk(lots: seq<Lot>, allocations: seq<Allocation>, left: int)

  /** The loop of `reserve`, from the first row on. */
  function WalkRows(lots: seq<Lot>, rows: seq<nat>, need: int): Walk
    requires forall i :: 0 <= i < |rows| ==> rows[i] < |lots|
    decreases |rows|
  {
    if rows == [] || need == 0 then Walk(lots, [], need)
    else
      var take := Min(need, lots[rows[0]].remaining);
      var rest := WalkRows(lots[rows[0] := MoveLot(lots[rows[0]], Hold, take)], rows[1..], need - take);
      Walk(rest.lots, [Allocation(rows[0], take)] + rest.allocations, rest.left)
  }

  predicate ReferenceUsed(reservations: seq<Reservation>, reference: string) {
    exists i :: 0 <= i < |reservations| && reservations[i].reference == reference
  }

  /** The body of `reserve`, given the rows its query returned. */
  function ReserveRows(w: Wallet, quantity: int, reference: string, rows: seq<nat>): Outcome<nat>
    requires forall i :: 0 <= i < |rows| ==> rows[i] < |w.lots|
  {
    var walk := WalkRows(w.lots, rows, quantity);
    if walk.left > 0 then Thrown(InsufficientCredits)
    else if ReferenceUsed(w.reservations, reference) then Thrown(UniqueViolation)
    else Done(w.(lots := walk.lots,
                 reservations := w.reservations + [Reservation(quantity, Reserved, reference, walk.allocations)],
                 ledger := w.ledger + [Entry(-quantity, Reserve, reference, None)]),
              |w.reservations|)
  }

  function ReserveCredits(w: Wallet, quantity: int, reference: string, key: string, rows: seq<nat>): Outcome<nat>
    requires forall i :: 0 <= i < |rows| ==> rows[i] < |w.lots|
  {
    if quantity <= 0 then Thrown(ValidationFailed)
    else Execute(w, KeyId(CreditReserve, key), ReserveBody(quantity, reference), ReserveRows(w, quantity, reference, rows))
  }

  // ---- Settle -----------------------------------------------------------------------

  predicate ReservationsInRange(w: Wallet) {
    forall i :: 0 <= i < |w.reservations| ==> AllocationsInRange(w.reservations[i].allocations, |w.lots|)
  }

  function SettleReservation(w: Wallet, id: nat, confirm: bool): Outcome<Status>
    requires ReservationsInRange(w)
  {
    if id >= |w.reservations| then Thrown(NotFound)
    else
      var r := w.reservations[id];
      if r.status != Reserved then Done(w, r.status)
      else
        var status := if confirm then Confirmed else Released;
        Done(w.(lots := MoveAll(w.lots, r.allocations, if confirm then Consume else GiveBack),
                reservations := w.reservations[id := r.(status := status)],
                ledger := if confirm then w.ledger else w.ledger + [Entry(r.quantity, Release, r.reference, None)]),
             status)
  }

  // ---- Grant ------------------------------------------------------------------------

  function GrantLot(w: Wallet, quantity: int, kind: Kind, reference: string, expiresAt: Option<int>): Outcome<nat> {
    if quantity <= 0 then Thrown(ValidationFailed)
    else Done(w.(ledger := w.ledger + [Entry(quantity, kind, reference, None)],
                 lots := w.lots + [Lot(quantity, quantity, 0, expiresAt, |w.ledger|)]),
              |w.ledger|)
  }

  /** The public grants: purchase, administrative grant, refund and paid order. */
  datatype Grant = Grant(operation: Operation, key: string, body: string, quantity: int, reference: string, expiresAt: Option<int>)

  function KindOf(operation: Operation): Kind {
    match operation
    case AdminCreditGrant => AdminGrant
    case CreditRefund => Refund
    case _ => Purchase
  }

  /** Only an administrative grant may carry an expiry; a reservation is not a grant. */
  predicate GrantOk(g: Grant) {
    g.operation != CreditReserve && (g.expiresAt.Some? ==> g.operation == AdminCreditGrant)
  }

  /** All grants but a purchase look at the quantity before the key. */
  function GrantCredits(w: Wallet, g: Grant): Outcome<nat> {
    if g.quantity <= 0 && g.operation == AdminCreditGrant then Thrown(Forbidden)
    else if g.quantity <= 0 && g.operation != CreditPurchase then Thrown(ValidationFailed)
    else Execute(w, KeyId(g.operation, g.key), GrantBody(g.body), GrantLot(w, g.quantity, KindOf(g.operation), g.reference, g.expiresAt))
  }

  // ---- Reserving the lot of a paid order for a refund ---------------------------------

  predicate PurchaseEntry(e: Entry, orderId: string) {
    e.kind == Purchase && e.reference == "order:" + orderId
  }

  /** The first lot that a PURCHASE entry of this order created. */
  function PurchaseLot(w: Wallet, orderId: string, from: nat): (lot: Option<nat>)
    requires from <= |w.lots|
    ensures lot.Some? ==> from <= lot.value < |w.lots|
    decreases |w.lots| - from
  {
    if from == |w.lots| then None
    else if w.lots[from].source < |w.ledger| && PurchaseEntry(w.ledger[w.lots[from].source], orderId) then Some(from)
    else PurchaseLot(w, orderId, from + 1)
  }

  predicate ScopeUsed(ledger: seq<Entry>, scope: Scope) {
    exists i :: 0 <= i < |ledger| && ledger[i].scope == Some(scope)
  }

  function ReservePaidOrderRefund(w: Wallet, orderId: string, quantity: int, refundId: string): Outcome<Option<nat>> {
    if quantity <= 0 then Done(w, None)
    else
      var lot := PurchaseLot(w, orderId, 0);
      var reference := "refund:" + refundId;
      if lot.None? || w.lots[lot.value].remaining < quantity then Thrown(CreditsAlreadyUsed)
      else if ReferenceUsed(w.reservations, reference) || ScopeUsed(w.ledger, RefundOf(refundId)) then Thrown(UniqueViolation)
      else Done(w.(lots := w.lots[lot.value := MoveLot(w.lots[lot.value], Hold, quantity)],
                   reservations := w.reservations + [Reservation(quantity, Reserved, reference, [Allocation(lot.value, quantity)])],
                   ledger := w.ledger + [Entry(-quantity, PurchaseRefundReserve, reference, Some(RefundOf(refundId)))]),
                Some(|w.reservations|))
  }

  // ---- Expiry sweep -----------------------------------------------------------------

  predicate Sweepable(lot: Lot, now: int) {
    lot.remaining > 0 && !Alive(lot.expiresAt, now)
  }

  /** `rows` answers the query of `expire`: the expired lots that still hold credit, in any order. */
  predicate SweepQuery(lots: seq<Lot>, now: int, rows: seq<nat>) {
    && Distinct(rows)
    && (forall i :: 0 <= i < |rows| ==> rows[i] < |lots|)
    && (forall r: nat :: r < |lots| ==> (r in rows <==> Sweepable(lots[r], now)))
  }

  function ExpiryEntry(lot: nat, quantity: int): Entry {
    Entry(-quantity, Expiration, "lot:" + Decimal.Print(lot), Some(ExpireLot(lot)))
  }

  function SweepLot(w: Wallet, row: nat): Wallet
    requires row < |w.lots|
  {
    w.(lots := w.lots[row := w.lots[row].(remaining := 0)],
       ledger := w.ledger + [ExpiryEntry(row, w.lots[row].remaining)])
  }

  /** The loop of `expire`; the unique index on the scope aborts it. */
  function SweepRows(w: Wallet, rows: seq<nat>): Outcome<()>
    requires forall i :: 0 <= i < |rows| ==> rows[i] < |w.lots|
    decreases |rows|
  {
    if rows == [] then Done(w, ())
    else if ScopeUsed(w.ledger, ExpireLot(rows[0])) then Thrown(UniqueViolation)
    else SweepRows(SweepLot(w, rows[0]), rows[1..])
  }

  // ---- Derived quantities -----------------------------------------------------------

  function EntryQuantity(e: Entry): int { e.quantity }

  function LotRemaining(lot: Lot): int { lot.remaining }

  function AllocationQuantity(a: Allocation): int { a.quantity }

  /** The balance that `summary` reports. */
  function Balance(w: Wallet): int {
    SumBy(w.ledger, EntryQuantity)
  }

  function AliveRemaining(instant: int): Lot -> int {
    (lot: Lot) => if Alive(lot.expiresAt, instant) then lot.remaining else 0
  }

  /** The credit that has not expired at `instant`. */
  function SpendableAt(lots: seq<Lot>, instant: int): int {
    SumBy(lots, AliveRemaining(instant))
  }

  function OnLot(lot: nat): Allocation -> int {
    (a: Allocation) => if a.lot == lot then a.quantity else 0
  }

  function AllocatedTo(allocations: seq<Allocation>, lot: nat): int {
    SumBy(allocations, OnLot(lot))
  }

  function HeldOn(lot: nat, status: Status): Reservation -> int {
    (r: Reservation) => if r.status == status then AllocatedTo(r.allocations, lot) else 0
  }

  /** What the reservations in `status` hold of one lot. */
  function Held(reservations: seq<Reservation>, lot: nat, status: Status): int {
    SumBy(reservations, HeldOn(lot, status))
  }

  function ExpiredOn(lot: nat): Entry -> int {
    (e: Entry) => if e.scope == Some(ExpireLot(lot)) then -e.quantity else 0
  }

  /** What the sweep has written off one lot. */
  function WrittenOff(ledger: seq<Entry>, lot: nat): int {
    SumBy(ledger, ExpiredOn(lot))
  }

  // ---- Steps ------------------------------------------------------------------------

  datatype Step =
    | GrantStep(grant: Grant)
    | ReserveStep(quantity: int, reference: string, key: string, rows: seq<nat>)
    | SettleStep(reservation: nat, confirm: bool)
    | RefundStep(orderId: string, quantity: int, refundId: string)
    | SweepStep(swept: seq<nat>)

  /** The inputs are ones that the service can meet at instant `now`. */
  predicate StepOk(w: Wallet, step: Step, now: int) {
    match step
    case GrantStep(g) => GrantOk(g)
    case ReserveStep(_, _, _, rows) => SpendableQuery(w.lots, now, rows)
    case SettleStep(_, _) => ReservationsInRange(w)
    case RefundStep(_, _, _) => true
    case SweepStep(rows) => SweepQuery(w.lots, now, rows)
  }

  function WalletOf<T>(w: Wallet, o: Outcome<T>): Wallet {
    match o case Done(after, _) => after case Thrown(_) => w
  }

  function Next(w: Wallet, step: Step, now: int): Wallet
    requires StepOk(w, step, now)
  {
    match step
    case GrantStep(g) => WalletOf(w, GrantCredits(w, g))
    case ReserveStep(q, reference, key, rows) => WalletOf(w, ReserveCredits(w, q, reference, key, rows))
    case SettleStep(id, confirm) => WalletOf(w, SettleReservation(w, id, confirm))
    case RefundStep(orderId, q, refundId) => WalletOf(w, ReservePaidOrderRefund(w, orderId, q, refundId))
    case SweepStep(rows) => WalletOf(w, SweepRows(w, rows))
  }

  datatype Event = Event(now: int, step: Step)

  /** `trace[i + 1]` is the wallet after `events[i]`; the clock never goes back. */
  ghost predicate Run(trace: seq<Wallet>, events: seq<Event>) {
    && |trace| == |events| + 1
    && (forall i, j :: 0 <= i < j < |events| ==> events[i].now <= events[j].now)
    && (forall i :: 0 <= i < |events| ==>
          StepOk(trace[i], events[i].step, events[i].now) && trace[i + 1] == Next(trace[i], events[i].step, events[i].now))
  }

  ghost predicate RunFromEmpty(trace: seq<Wallet>, events: seq<Event>) {
    Run(trace, events) && trace[0] == Empty
  }
}
