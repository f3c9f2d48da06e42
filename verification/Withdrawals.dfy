/** Withdrawals, their money ledger and their history as tables. Every function is one database
    transaction; a thrown error keeps the old tables. Ids are insertion indices. */
module Withdrawals {
  import opened Common

  datatype Status = Requested | Verifying | Approved | Sent | Pending | Paid | Failed | Cancelled | Reconciled

  datatype Owner = Owner(ownerType: string, id: string)

  datatype Item = Item(owner: Owner, currency: string, amount: int, provider: string, status: Status,
                       attempts: int, availableAt: Option<int>, claimedUntil: Option<int>,
                       reference: Option<string>, lastError: Option<string>)

  datatype Kind = Payment | Refund | AdjustmentCredit | WithdrawalReserve | ReserveRelease | WithdrawalPaid

  /** `withdrawal:<id>:reserve`, `:release` and `:paid`, the values of a unique column. */
  datatype Scope = Scope(withdrawal: nat, kind: Kind)

  datatype Money = Money(owner: Owner, currency: string, amount: int, kind: Kind, withdrawal: Option<nat>, scope: Option<Scope>)

  datatype Transition = Transition(withdrawal: nat, before: Option<Status>, after: Status, event: Option<string>)

  datatype CallbackKey = CallbackKey(provider: string, eventId: string, eventType: string)

  /** A row of `idempotency_keys` for requests: who asked, through which provider, under which key. */
  datatype RequestKey = RequestKey(ownerId: string, provider: string, key: string)

  datatype RequestRecord = RequestRecord(account: string, amount: int, currency: string, result: nat)

  datatype Db = Db(items: seq<Item>, ledger: seq<Money>, history: seq<Transition>,
                   callbacks: set<CallbackKey>, outbox: set<(Status, nat)>, keys: map<RequestKey, RequestRecord>)

  datatype Error = ValidationFailed | NotFound | InsufficientBalance | TransitionInvalid | Suspended
                 | CallbackMismatch | BodyMismatch | UniqueViolation

  datatype Outcome<+T> = Done(db: Db, value: T) | Thrown(error: Error)

  datatype Config = Config(minimum: nat, maximum: nat, currencies: set<string>, leaseSeconds: nat, maxAttempts: int)

  const Empty := Db([], [], [], {}, {}, map[])

  function DbOf<T>(db: Db, o: Outcome<T>): Db {
    match o case Done(after, _) => after case Thrown(_) => db
  }

  // ---- The status graph -------------------------------------------------------------

  function Targets(s: Status): set<Status> {
    match s
    case Requested => {Verifying, Cancelled}
    case Verifying => {Approved, Cancelled}
    case Approved => {Sent, Cancelled}
    case Sent => {Pending, Paid, Failed}
    case Pending => {Paid, Failed}
    case Failed => {Reconciled}
    case Paid => {Reconciled}
    case Cancelled => {}
    case Reconciled => {}
  }

  predicate Terminal(s: Status) {
    s in {Paid, Failed, Cancelled, Reconciled}
  }

  predicate Active(s: Status) {
    s in {Requested, Verifying, Approved, Sent, Pending}
  }

  function SetStatus(db: Db, id: nat, to: Status): Db
    requires id < |db.items|
  {
    db.(items := db.items[id := db.items[id].(status := to)])
  }

  /** The unique index over (withdrawal, external event, status); null events never collide. */
  predicate HistoryClash(history: seq<Transition>, t: Transition) {
    t.event.Some? && exists i ::
      && 0 <= i < |history|
      && history[i].withdrawal == t.withdrawal && history[i].event == t.event && history[i].after == t.after
  }

  /** `WithdrawalService::transition`: check the graph, write the status, append history. */
  function MoveTo(db: Db, id: nat, to: Status, event: Option<string>): Outcome<()>
    requires id < |db.items|
  {
    var from := db.items[id].status;
    var t := Transition(id, Some(from), to, event);
    if to !in Targets(from) then Thrown(TransitionInvalid)
    else if HistoryClash(db.history, t) then Thrown(UniqueViolation)
    else Done(SetStatus(db, id, to).(history := db.history + [t]), ())
  }

  // ---- The ledger -------------------------------------------------------------------

  predicate ScopeUsed(ledger: seq<Money>, scope: Scope) {
    exists i :: 0 <= i < |ledger| && ledger[i].scope == Some(scope)
  }

  /** `WithdrawalLedger::append`: insert, or ignore when the scope is taken. */
  function Append(ledger: seq<Money>, item: Item, id: nat, kind: Kind): seq<Money> {
    var scope := Scope(id, kind);
    if ScopeUsed(ledger, scope) then ledger
    else ledger + [Money(item.owner, item.currency, item.amount, kind, Some(id), Some(scope))]
  }

  function Book(db: Db, id: nat, kind: Kind): Db
    requires id < |db.items|
  {
    db.(ledger := Append(db.ledger, db.items[id], id, kind))
  }

  function Sign(kind: Kind): int {
    match kind
    case Payment => 1
    case ReserveRelease => 1
    case AdjustmentCredit => 1
    case _ => -1
  }

  predicate OfOwner(owner: Owner, currency: string, o: Owner, c: string) {
    owner == o && currency == c
  }

  function Signed(owner: Owner, currency: string): Money -> int {
    (m: Money) => if OfOwner(m.owner, m.currency, owner, currency) then Sign(m.kind) * m.amount else 0
  }

  /** `WithdrawalLedger::available`. */
  function Available(ledger: seq<Money>, owner: Owner, currency: string): int {
    SumBy(ledger, Signed(owner, currency))
  }

  function ReservedOf(owner: Owner, currency: string): Item -> int {
    (item: Item) => if OfOwner(item.owner, item.currency, owner, currency) && Active(item.status) then item.amount else 0
  }

  function PaidOf(owner: Owner, currency: string): Item -> int {
    (item: Item) => if OfOwner(item.owner, item.currency, owner, currency) && item.status == Paid then item.amount else 0
  }

  /** The reserved and paid parts of `WithdrawalLedger::summary`. */
  function ReservedSum(items: seq<Item>, owner: Owner, currency: string): int {
    SumBy(items, ReservedOf(owner, currency))
  }

  function PaidSum(items: seq<Item>, owner: Owner, currency: string): int {
    SumBy(items, PaidOf(owner, currency))
  }

  function Inflow(owner: Owner, currency: string): Money -> int {
    (m: Money) => if OfOwner(m.owner, m.currency, owner, currency) && m.kind in {Payment, AdjustmentCredit, Refund}
                  then Sign(m.kind) * m.amount else 0
  }

  /** Payments and adjustments less refunds: the money that entered from outside. */
  function InflowSum(ledger: seq<Money>, owner: Owner, currency: string): int {
    SumBy(ledger, Inflow(owner, currency))
  }

  // ---- Owner and administrator ------------------------------------------------------

  /** What the owner submits; `verified` says whether the payout account, in this currency, is. */
  datatype Submission = Submission(owner: Owner, account: string, verified: bool, currency: string, amount: int,
                                   provider: string, key: string, now: int)

  /** Three capital letters; the pattern of the source also lets one line feed follow. */
  predicate CurrencyCode(text: string) {
    && (|text| == 3 || (|text| == 4 && text[3] == '\n'))
    && forall i :: 0 <= i < 3 ==> 'A' <= text[i] <= 'Z'
  }

  predicate Acceptable(c: Config, s: Submission) {
    c.minimum <= s.amount <= c.maximum && CurrencyCode(Upper(s.currency)) && Upper(s.currency) in c.currencies
  }

  function KeyOf(s: Submission): RequestKey {
    RequestKey(s.owner.id, s.provider, s.key)
  }

  function NewItem(s: Submission): Item {
    Item(s.owner, Upper(s.currency), s.amount, s.provider, Requested, 0, Some(s.now), None, None, None)
  }

  /** A new withdrawal with its reserve, its first history row and its idempotency key. */
  function OpenWithdrawal(db: Db, s: Submission): Db {
    var id := |db.items|;
    db.(items := db.items + [NewItem(s)],
        ledger := Append(db.ledger, NewItem(s), id, WithdrawalReserve),
        history := db.history + [Transition(id, None, Requested, None)],
        keys := db.keys[KeyOf(s) := RequestRecord(s.account, s.amount, Upper(s.currency), id)])
  }

  /** `WithdrawalService::request`, after its rate limit. */
  function Request(db: Db, c: Config, s: Submission): Outcome<nat> {
    if !Acceptable(c, s) then Thrown(ValidationFailed)
    else if !s.verified then Thrown(NotFound)
    else if !KeyLengthOk(s.key) then Thrown(ValidationFailed)
    else if KeyOf(s) in db.keys then
      var first := db.keys[KeyOf(s)];
      if first == RequestRecord(s.account, s.amount, Upper(s.currency), first.result) then Done(db, first.result)
      else Thrown(BodyMismatch)
    else if Available(db.ledger, s.owner, Upper(s.currency)) < s.amount then Thrown(InsufficientBalance)
    else Done(OpenWithdrawal(db, s), |db.items|)
  }

  function Cancel(db: Db, owner: Owner, id: nat): Outcome<()> {
    if id >= |db.items| || db.items[id].owner != owner then Thrown(NotFound)
    else match MoveTo(db, id, Cancelled, None)
      case Thrown(e) => Thrown(e)
      case Done(moved, _) => Done(Book(moved, id, ReserveRelease), ())
  }

  /** `cleared` stands for the checks on the owner, the payout account and the provider. */
  function AdminTransition(db: Db, id: nat, to: Status, cleared: bool, now: int): Outcome<()> {
    if id >= |db.items| then Thrown(NotFound)
    else if !cleared then Thrown(Suspended)
    else match MoveTo(db, id, to, None)
      case Thrown(e) => Thrown(e)
      case Done(moved, _) =>
        if to == Verifying then Done(moved, ())
        else Done(moved.(items := moved.items[id := moved.items[id].(availableAt := Some(now))]), ())
  }

  // ---- The payout worker ------------------------------------------------------------

  predicate Claimable(item: Item, now: int) {
    && item.status in {Approved, Sent}
    && (item.availableAt.None? || item.availableAt.value <= now)
    && (item.claimedUntil.None? || item.claimedUntil.value < now)
  }

  function ClaimOne(item: Item, until: int): Item {
    item.(claimedUntil := Some(until), attempts := item.attempts + 1)
  }

  /** `ids` answers the query of `runOnce`: claimable rows in order of creation, the oldest
      ones first, up to the limit. */
  predicate ClaimQuery(items: seq<Item>, now: int, limit: int, ids: seq<nat>) {
    && (forall i, j :: 0 <= i < j < |ids| ==> ids[i] < ids[j])
    && (forall i :: 0 <= i < |ids| ==> ids[i] < |items| && Claimable(items[ids[i]], now))
    && |ids| <= Max(1, Min(100, limit))
    && (forall k: nat :: k < |items| && Claimable(items[k], now) && k !in ids ==>
          |ids| == Max(1, Min(100, limit)) && forall i :: 0 <= i < |ids| ==> ids[i] < k)
  }

  function Claim(db: Db, ids: seq<nat>, until: int): Db
    requires forall i :: 0 <= i < |ids| ==> ids[i] < |db.items|
  {
    db.(items := seq(|db.items|, k requires 0 <= k < |db.items| => if k in ids then ClaimOne(db.items[k], until) else db.items[k]))
  }

  datatype ProviderStatus = ProviderPaid | ProviderFailed | ProviderOther(text: string)

  datatype PayoutResult = PayoutResult(reference: string, status: ProviderStatus)

  function TargetOf(s: ProviderStatus): Status {
    match s case ProviderPaid => Paid case ProviderFailed => Failed case ProviderOther(_) => Pending
  }

  /** The second half of `applyResult`: move to the reported status, record it, book the rows. */
  function WriteResult(db: Db, id: nat, to: Status, reference: string, event: Option<string>): Outcome<Option<Status>>
    requires id < |db.items|
  {
    match MoveTo(db, id, to, event)
    case Thrown(e) => Thrown(e)
    case Done(moved, _) =>
      var item := moved.items[id].(reference := Some(reference), claimedUntil := None, lastError := None);
      var written := moved.(items := moved.items[id := item]);
      var released := if to == Failed || to == Paid then Book(written, id, ReserveRelease) else written;
      var paid := if to == Paid then Book(released, id, WithdrawalPaid) else released;
      Done(paid.(outbox := paid.outbox + {(to, id)}), Some(to))
  }

  /** `PayoutWorker::applyResult`; an unknown withdrawal is reported as None. */
  function ApplyResult(db: Db, id: nat, result: PayoutResult, event: Option<string>): Outcome<Option<Status>> {
    if id >= |db.items| then Done(db, None)
    else
      var status := db.items[id].status;
      var to := TargetOf(result.status);
      if Terminal(status) then Done(db, Some(status))
      else if status == to then Done(db, Some(to))
      else if status == Approved then
        match MoveTo(db, id, Sent, event)
        case Thrown(e) => Thrown(e)
        case Done(sent, _) => WriteResult(sent, id, to, result.reference, event)
      else WriteResult(db, id, to, result.reference, event)
  }

  function Pow2(n: nat): nat {
    if n == 0 then 1 else 2 * Pow2(n - 1)
  }

  function Backoff(attempts: int): int {
    Min(3600, Pow2(if attempts <= 0 then 0 else if attempts >= 10 then 10 else attempts))
  }

  /** After the last attempt: force SENT without a history row, fail, release the reserve. */
  function CloseExhausted(db: Db, c: Config, id: nat): Outcome<()>
    requires id < |db.items|
  {
    if db.items[id].attempts >= c.maxAttempts && db.items[id].status in {Sent, Approved} then
      match MoveTo(SetStatus(db, id, Sent), id, Failed, None)
      case Thrown(e) => Thrown(e)
      case Done(moved, _) => Done(Book(moved, id, ReserveRelease), ())
    else Done(db, ())
  }

  function Postpone(db: Db, id: nat, attempts: int, code: string, now: int): Db
    requires id < |db.items|
  {
    db.(items := db.items[id := db.items[id].(claimedUntil := None, availableAt := Some(now + Backoff(attempts)), lastError := Some(code))])
  }

  /** The transaction of the `catch` branch of `process`. */
  function RecordFailure(db: Db, c: Config, id: nat, code: string, now: int): Outcome<()>
    requires id < |db.items|
  {
    match CloseExhausted(db, c, id)
    case Thrown(e) => Thrown(e)
    case Done(after, _) => Done(Postpone(after, id, db.items[id].attempts, code, now), ())
  }

  // ---- Callbacks --------------------------------------------------------------------

  datatype Callback = Callback(key: CallbackKey, withdrawal: nat, result: PayoutResult)

  datatype CallbackAnswer = Duplicate | Applied(status: Option<Status>)

  function ProcessCallback(db: Db, cb: Callback): Outcome<CallbackAnswer> {
    if cb.key in db.callbacks then Done(db, Duplicate)
    else
      var seen := db.(callbacks := db.callbacks + {cb.key});
      if cb.withdrawal >= |db.items| || db.items[cb.withdrawal].provider != cb.key.provider
         || (db.items[cb.withdrawal].reference.Some? && db.items[cb.withdrawal].reference.value != cb.result.reference)
      then Thrown(CallbackMismatch)
      else match ApplyResult(seen, cb.withdrawal, cb.result, Some(cb.key.eventId))
        case Thrown(e) => Thrown(e)
        case Done(after, status) => Done(after, Applied(status))
  }

  /** A ledger row written by another part of the system: payments, refunds, adjustments. */
  function External(db: Db, owner: Owner, currency: string, amount: nat, kind: Kind): Db {
    db.(ledger := db.ledger + [Money(owner, currency, amount, kind, None, None)])
  }
}
