/** The ledger follows the status of every withdrawal, whatever order the steps come in. */
module WithdrawalInvariant {
  import opened Common
  import opened Withdrawals

  // ---- The invariant ----------------------------------------------------------------

  function OnWithdrawal(id: nat, kind: Kind): Money -> int {
    (m: Money) => if m.withdrawal == Some(id) && m.kind == kind then 1 else 0
  }

  /** How many ledger rows of this kind refer to the withdrawal. */
  function Rows(ledger: seq<Money>, id: nat, kind: Kind): int {
    SumBy(ledger, OnWithdrawal(id, kind))
  }

  ghost predicate RowOk(items: seq<Item>, m: Money) {
    match m.withdrawal
    case None => m.scope == None && m.kind in {Payment, Refund, AdjustmentCredit} && m.amount >= 0
    case Some(id) =>
      && id < |items| && m.kind in {WithdrawalReserve, ReserveRelease, WithdrawalPaid}
      && m.owner == items[id].owner && m.currency == items[id].currency && m.amount == items[id].amount
      && m.scope == Some(Scope(id, m.kind))
  }

  /** Active: one RESERVE row. Cancelled or failed: also one RELEASE. Paid: also one PAID. */
  ghost predicate Follows(ledger: seq<Money>, id: nat, item: Item) {
    && item.amount >= 0 && item.status != Reconciled
    && Rows(ledger, id, WithdrawalReserve) == 1
    && Rows(ledger, id, ReserveRelease) == (if Terminal(item.status) then 1 else 0)
    && Rows(ledger, id, WithdrawalPaid) == (if item.status == Paid then 1 else 0)
  }

  /** Every status write raises the rank, so a withdrawal takes each status at most once. */
  function Rank(s: Status): nat {
    match s
    case Requested => 0 case Verifying => 1 case Approved => 2 case Sent => 3 case Pending => 4
    case Paid => 5 case Failed => 5 case Cancelled => 5 case Reconciled => 6
  }

  /** `b` is `a` or a status that a withdrawal can still take after `a`. */
  predicate Later(a: Status, b: Status) {
    a == b || (!Terminal(a) && Rank(a) < Rank(b) && b != Reconciled && (b == Cancelled ==> Rank(a) <= Rank(Approved)))
  }

  ghost predicate HistoryOk(items: seq<Item>, history: seq<Transition>) {
    && (forall i :: 0 <= i < |history| ==>
          history[i].withdrawal < |items| && Rank(history[i].after) <= Rank(items[history[i].withdrawal].status))
    && (forall i, j :: 0 <= i < j < |history| && history[i].withdrawal == history[j].withdrawal ==>
          Rank(history[i].after) < Rank(history[j].after))
  }

  ghost predicate LedgerOk(items: seq<Item>, ledger: seq<Money>) {
    && (forall i :: 0 <= i < |ledger| ==> RowOk(items, ledger[i]))
    && (forall id :: 0 <= id < |items| ==> Follows(ledger, id, items[id]))
  }

  ghost predicate Inv(db: Db) {
    LedgerOk(db.items, db.ledger) && HistoryOk(db.items, db.history)
  }

  // ---- Ledger rows ------------------------------------------------------------------

  function LedgerRow(item: Item, id: nat, kind: Kind): Money {
    Money(item.owner, item.currency, item.amount, kind, Some(id), Some(Scope(id, kind)))
  }

  /** Insert-or-ignore never ignores: a withdrawal row is appended only once. */
  lemma AppendInserts(items: seq<Item>, ledger: seq<Money>, item: Item, id: nat, kind: Kind)
    requires forall i :: 0 <= i < |ledger| ==> RowOk(items, ledger[i])
    requires Rows(ledger, id, kind) == 0
    ensures Append(ledger, item, id, kind) == ledger + [LedgerRow(item, id, kind)]
  {
    SumNonNegative(ledger, OnWithdrawal(id, kind));
    forall i | 0 <= i < |ledger| ensures ledger[i].scope != Some(Scope(id, kind)) {
      assert RowOk(items, ledger[i]) && OnWithdrawal(id, kind)(ledger[i]) <= 0;
    }
  }

  function ClosingRows(item: Item, id: nat, to: Status): seq<Money> {
    if to == Paid then [LedgerRow(item, id, ReserveRelease), LedgerRow(item, id, WithdrawalPaid)]
    else if Terminal(to) then [LedgerRow(item, id, ReserveRelease)]
    else []
  }

  /** The same withdrawal with another status. */
  ghost predicate SameMoney(a: Item, b: Item) {
    b.owner == a.owner && b.currency == a.currency && b.amount == a.amount
  }

  lemma {:induction false} SumClosing(ledger: seq<Money>, item: Item, id: nat, to: Status, f: Money -> int)
    ensures SumBy(ledger + ClosingRows(item, id, to), f) == SumBy(ledger, f)
              + (if Terminal(to) then f(LedgerRow(item, id, ReserveRelease)) else 0)
              + (if to == Paid then f(LedgerRow(item, id, WithdrawalPaid)) else 0)
  {
    var release, paid := LedgerRow(item, id, ReserveRelease), LedgerRow(item, id, WithdrawalPaid);
    SumAppend(ledger, release, f);
    SumAppend(ledger + [release], paid, f);
    assert ledger + [release, paid] == ledger + [release] + [paid];
    assert ledger + [] == ledger;
  }

  /** Moving one active withdrawal to another status, with the rows that status calls for. */
  lemma StatusChangeFollows(items: seq<Item>, ledger: seq<Money>, id: nat, item: Item)
    requires LedgerOk(items, ledger) && id < |items|
    requires Active(items[id].status) && SameMoney(items[id], item) && item.status != Reconciled
    ensures LedgerOk(items[id := item], ledger + ClosingRows(item, id, item.status))
  {
    var items' := items[id := item];
    var ledger' := ledger + ClosingRows(item, id, item.status);
    forall i | 0 <= i < |ledger'| ensures RowOk(items', ledger'[i]) {
      assert i < |ledger| ==> RowOk(items, ledger[i]);
    }
    forall k | 0 <= k < |items'| ensures Follows(ledger', k, items'[k]) {
      assert Follows(ledger, k, items[k]);
      SumClosing(ledger, item, id, item.status, OnWithdrawal(k, WithdrawalReserve));
      SumClosing(ledger, item, id, item.status, OnWithdrawal(k, ReserveRelease));
      SumClosing(ledger, item, id, item.status, OnWithdrawal(k, WithdrawalPaid));
    }
  }

  /** The same change keeps available + reserved + paid, and never lowers what is available. */
  lemma StatusChangeConserves(items: seq<Item>, ledger: seq<Money>, id: nat, item: Item, owner: Owner, currency: string)
    requires id < |items| && Active(items[id].status) && SameMoney(items[id], item) && item.status != Reconciled
    ensures var ledger' := ledger + ClosingRows(item, id, item.status);
            && Available(ledger', owner, currency) + ReservedSum(items[id := item], owner, currency) + PaidSum(items[id := item], owner, currency)
               == Available(ledger, owner, currency) + ReservedSum(items, owner, currency) + PaidSum(items, owner, currency)
            && InflowSum(ledger', owner, currency) == InflowSum(ledger, owner, currency)
            && (item.amount >= 0 ==> Available(ledger', owner, currency) >= Available(ledger, owner, currency))
            && (item.status == Paid ==> Available(ledger', owner, currency) == Available(ledger, owner, currency))
  {
    SumClosing(ledger, item, id, item.status, Signed(owner, currency));
    SumClosing(ledger, item, id, item.status, Inflow(owner, currency));
    hide SumBy, ClosingRows;
    SumUpdate(items, id, item, ReservedOf(owner, currency));
    SumUpdate(items, id, item, PaidOf(owner, currency));
  }

  // ---- History ----------------------------------------------------------------------

  /** The unique index of the history never fires, so only the status graph can refuse a move. */
  lemma MoveRefusedOnlyByGraph(db: Db, id: nat, to: Status, event: Option<string>)
    requires HistoryOk(db.items, db.history) && id < |db.items|
    ensures MoveTo(db, id, to, event).Done? <==> to in Targets(db.items[id].status)
    ensures MoveTo(db, id, to, event) != Thrown(UniqueViolation)
    ensures MoveTo(db, id, to, event).Done? ==>
              var after := MoveTo(db, id, to, event).db;
              HistoryOk(after.items, after.history) && Rank(to) > Rank(db.items[id].status)
  {
    if to in Targets(db.items[id].status) {
      TargetsRise(db.items[id].status, to);
    }
    hide Targets, Rank;
  }

  lemma TargetsRise(from: Status, to: Status)
    requires to in Targets(from)
    ensures Rank(to) > Rank(from)
  {
  }

  /** Rewriting a row without lowering its status keeps the history consistent. */
  lemma HistoryKept(items: seq<Item>, history: seq<Transition>, id: nat, item: Item)
    requires HistoryOk(items, history) && id < |items| && Rank(item.status) >= Rank(items[id].status)
    ensures HistoryOk(items[id := item], history)
  {
  }

  // ---- One transaction each -----------------------------------------------------------

  lemma NoRowsYet(items: seq<Item>, ledger: seq<Money>, kind: Kind)
    requires forall i :: 0 <= i < |ledger| ==> RowOk(items, ledger[i])
    ensures Rows(ledger, |items|, kind) == 0
  {
    forall i | 0 <= i < |ledger| ensures OnWithdrawal(|items|, kind)(ledger[i]) == 0 {
      assert RowOk(items, ledger[i]);
    }
    SumZero(ledger, OnWithdrawal(|items|, kind));
  }

  /** A new withdrawal brings its reserve row and nothing else. */
  lemma OpeningReserves(db: Db, s: Submission)
    requires LedgerOk(db.items, db.ledger)
    ensures OpenWithdrawal(db, s).ledger == db.ledger + [LedgerRow(NewItem(s), |db.items|, WithdrawalReserve)]
  {
    NoRowsYet(db.items, db.ledger, WithdrawalReserve);
    AppendInserts(db.items, db.ledger, NewItem(s), |db.items|, WithdrawalReserve);
  }

  lemma OpeningKeepsLedger(items: seq<Item>, ledger: seq<Money>, item: Item)
    requires LedgerOk(items, ledger) && item.amount >= 0 && item.status == Requested
    ensures LedgerOk(items + [item], ledger + [LedgerRow(item, |items|, WithdrawalReserve)])
  {
    var id, row := |items|, LedgerRow(item, |items|, WithdrawalReserve);
    var items', ledger' := items + [item], ledger + [row];
    forall i | 0 <= i < |ledger'| ensures RowOk(items', ledger'[i]) {
      assert i < |ledger| ==> RowOk(items, ledger[i]);
    }
    NoRowsYet(items, ledger, WithdrawalReserve);
    NoRowsYet(items, ledger, ReserveRelease);
    NoRowsYet(items, ledger, WithdrawalPaid);
    forall k | 0 <= k <= id ensures Follows(ledger', k, items'[k]) {
      assert k < id ==> Follows(ledger, k, items[k]);
      SumAppend(ledger, row, OnWithdrawal(k, WithdrawalReserve));
      SumAppend(ledger, row, OnWithdrawal(k, ReserveRelease));
      SumAppend(ledger, row, OnWithdrawal(k, WithdrawalPaid));
    }
  }

  lemma RequestKeepsInv(db: Db, c: Config, s: Submission)
    requires Inv(db)
    ensures Inv(DbOf(db, Request(db, c, s)))
  {
    var after := DbOf(db, Request(db, c, s));
    if after != db {
      OpeningReserves(db, s);
      OpeningKeepsLedger(db.items, db.ledger, NewItem(s));
      hide LedgerOk, Append;
      assert after.items == db.items + [NewItem(s)];
    }
  }

  /** Closing a withdrawal through `release` and, when paid, the PAID entry. */
  lemma BookingInserts(db: Db, id: nat, written: Db, to: Status)
    requires Inv(db) && id < |db.items| && Active(db.items[id].status) && Terminal(to)
    requires written.ledger == db.ledger && |written.items| == |db.items| && SameMoney(db.items[id], written.items[id])
    ensures var released := Book(written, id, ReserveRelease);
            && released.ledger == db.ledger + [LedgerRow(written.items[id], id, ReserveRelease)]
            && Book(released, id, WithdrawalPaid).ledger
               == db.ledger + [LedgerRow(written.items[id], id, ReserveRelease), LedgerRow(written.items[id], id, WithdrawalPaid)]
  {
    var item := written.items[id];
    var release := LedgerRow(item, id, ReserveRelease);
    assert Follows(db.ledger, id, db.items[id]);
    AppendInserts(db.items, db.ledger, item, id, ReserveRelease);
    SumAppend(db.ledger, release, OnWithdrawal(id, WithdrawalPaid));
    forall i | 0 <= i < |db.ledger + [release]| ensures RowOk(db.items, (db.ledger + [release])[i]) {
      assert i < |db.ledger| ==> RowOk(db.items, db.ledger[i]);
    }
    AppendInserts(db.items, db.ledger + [release], item, id, WithdrawalPaid);
    assert db.ledger + [release] + [LedgerRow(item, id, WithdrawalPaid)] == db.ledger + [release, LedgerRow(item, id, WithdrawalPaid)];
  }

  /** What a transaction on one withdrawal does: nothing, or one status change with its rows. */
  ghost predicate OneChange(db: Db, after: Db, id: nat) {
    && id < |db.items| && |after.items| == |db.items|
    && SameMoney(db.items[id], after.items[id])
    && after.items == db.items[id := after.items[id]]
    && HistoryOk(after.items, after.history)
    && Later(db.items[id].status, after.items[id].status)
    && after.items[id].status != Reconciled
    && after.items[id].attempts == db.items[id].attempts
    && db.callbacks <= after.callbacks && after.keys == db.keys
    && after.items[id].provider == db.items[id].provider
    && if after.items[id].status == db.items[id].status then after.ledger == db.ledger
       else Active(db.items[id].status) && after.ledger == db.ledger + ClosingRows(after.items[id], id, after.items[id].status)
  }

  lemma OneChangeKeepsInv(db: Db, after: Db, id: nat)
    requires Inv(db) && OneChange(db, after, id)
    ensures Inv(after)
  {
    if after.items[id].status == db.items[id].status {
      forall i | 0 <= i < |after.ledger| ensures RowOk(after.items, after.ledger[i]) {
        assert RowOk(db.items, db.ledger[i]);
      }
      forall k | 0 <= k < |after.items| ensures Follows(after.ledger, k, after.items[k]) {
        assert Follows(db.ledger, k, db.items[k]);
      }
    } else {
      StatusChangeFollows(db.items, db.ledger, id, after.items[id]);
    }
  }

  lemma CancelIsOneChange(db: Db, owner: Owner, id: nat)
    requires Inv(db) && Cancel(db, owner, id).Done?
    ensures OneChange(db, DbOf(db, Cancel(db, owner, id)), id)
    ensures DbOf(db, Cancel(db, owner, id)).items[id].status == Cancelled
  {
    MoveRefusedOnlyByGraph(db, id, Cancelled, None);
    BookingInserts(db, id, MoveTo(db, id, Cancelled, None).db, Cancelled);
  }

  lemma AdminIsOneChange(db: Db, id: nat, to: Status, cleared: bool, now: int)
    requires Inv(db) && to in {Verifying, Approved} && AdminTransition(db, id, to, cleared, now).Done?
    ensures OneChange(db, DbOf(db, AdminTransition(db, id, to, cleared, now)), id)
    ensures DbOf(db, AdminTransition(db, id, to, cleared, now)).items[id].status == to
  {
    MoveRefusedOnlyByGraph(db, id, to, None);
    assert db.ledger + [] == db.ledger;
  }

  lemma SendIsOneChange(db: Db, id: nat)
    requires Inv(db) && id < |db.items| && MoveTo(db, id, Sent, None).Done?
    ensures OneChange(db, MoveTo(db, id, Sent, None).db, id)
  {
    MoveRefusedOnlyByGraph(db, id, Sent, None);
    assert db.ledger + [] == db.ledger;
  }

  lemma WriteResultEffect(db: Db, sent: Db, id: nat, to: Status, reference: string, event: Option<string>)
    requires Inv(db) && id < |db.items| && Active(db.items[id].status) && to in {Pending, Paid, Failed}
    requires OneChange(db, sent, id) && sent.ledger == db.ledger
    ensures var o := WriteResult(sent, id, to, reference, event);
            && (o.Done? <==> to in Targets(sent.items[id].status))
            && (o.Done? ==> OneChange(db, o.db, id) && o.db.items[id].status == to)
  {
    MoveRefusedOnlyByGraph(sent, id, to, event);
    hide HistoryClash, ScopeUsed, Targets, LedgerOk;
    if MoveTo(sent, id, to, event).Done? {
      var moved := MoveTo(sent, id, to, event).db;
      var item := moved.items[id].(reference := Some(reference), claimedUntil := None, lastError := None);
      var written := moved.(items := moved.items[id := item]);
      HistoryKept(moved.items, moved.history, id, item);
      assert db.ledger + [] == db.ledger;
      if Terminal(to) {
        BookingInserts(db, id, written, to);
      }
    }
  }

  /** A result is refused only while the withdrawal waits for approval; a terminal withdrawal
      keeps everything; any other one takes the status the provider reported. */
  lemma ResultIsOneChange(db: Db, id: nat, result: PayoutResult, event: Option<string>)
    requires Inv(db) && id < |db.items|
    ensures ApplyResult(db, id, result, event).Thrown? <==> db.items[id].status in {Requested, Verifying}
    ensures OneChange(db, DbOf(db, ApplyResult(db, id, result, event)), id)
    ensures Terminal(db.items[id].status) ==> DbOf(db, ApplyResult(db, id, result, event)) == db
    ensures db.items[id].status in {Approved, Sent, Pending} ==>
              DbOf(db, ApplyResult(db, id, result, event)).items[id].status == TargetOf(result.status)
  {
    var status := db.items[id].status;
    var to := TargetOf(result.status);
    assert db.ledger + [] == db.ledger;
    if status == Approved {
      MoveRefusedOnlyByGraph(db, id, Sent, event);
      WriteResultEffect(db, MoveTo(db, id, Sent, event).db, id, to, result.reference, event);
    } else if !Terminal(status) && status != to {
      WriteResultEffect(db, db, id, to, result.reference, event);
    }
  }

  lemma FailureIsOneChange(db: Db, c: Config, id: nat, code: string, now: int)
    requires Inv(db) && id < |db.items|
    ensures RecordFailure(db, c, id, code, now).Done?
    ensures OneChange(db, DbOf(db, RecordFailure(db, c, id, code, now)), id)
    ensures DbOf(db, RecordFailure(db, c, id, code, now)).items[id].status ==
              if db.items[id].attempts >= c.maxAttempts && db.items[id].status in {Sent, Approved} then Failed
              else db.items[id].status
  {
    var item := db.items[id];
    if item.attempts >= c.maxAttempts && item.status in {Sent, Approved} {
      var sent := SetStatus(db, id, Sent);
      HistoryKept(db.items, db.history, id, sent.items[id]);
      MoveRefusedOnlyByGraph(sent, id, Failed, None);
      var moved := MoveTo(sent, id, Failed, None).db;
      BookingInserts(db, id, moved, Failed);
      var after := RecordFailure(db, c, id, code, now).db;
      HistoryKept(moved.items, moved.history, id, after.items[id]);
    } else {
      var after := RecordFailure(db, c, id, code, now).db;
      HistoryKept(db.items, db.history, id, after.items[id]);
    }
  }

  lemma CallbackIsOneChange(db: Db, cb: Callback)
    requires Inv(db) && ProcessCallback(db, cb).Done? && cb.key !in db.callbacks
    ensures OneChange(db, DbOf(db, ProcessCallback(db, cb)), cb.withdrawal)
  {
    var seen := db.(callbacks := db.callbacks + {cb.key});
    ResultIsOneChange(seen, cb.withdrawal, cb.result, Some(cb.key.eventId));
  }

  lemma ClaimKeepsInv(db: Db, ids: seq<nat>, until: int)
    requires Inv(db) && forall i :: 0 <= i < |ids| ==> ids[i] < |db.items|
    ensures Inv(Claim(db, ids, until))
  {
    var after := Claim(db, ids, until);
    forall i | 0 <= i < |after.ledger| ensures RowOk(after.items, after.ledger[i]) {
      assert RowOk(db.items, db.ledger[i]);
    }
    forall k | 0 <= k < |after.items| ensures Follows(after.ledger, k, after.items[k]) {
      assert Follows(db.ledger, k, db.items[k]);
    }
  }

  lemma ExternalKeepsInv(db: Db, owner: Owner, currency: string, amount: nat, kind: Kind)
    requires Inv(db) && kind in {Payment, Refund, AdjustmentCredit}
    ensures Inv(External(db, owner, currency, amount, kind))
  {
    var after := External(db, owner, currency, amount, kind);
    var row := after.ledger[|db.ledger|];
    forall i | 0 <= i < |after.ledger| ensures RowOk(after.items, after.ledger[i]) {
      assert i < |db.ledger| ==> RowOk(db.items, db.ledger[i]);
    }
    forall k | 0 <= k < |after.items| ensures Follows(after.ledger, k, after.items[k]) {
      assert Follows(db.ledger, k, db.items[k]);
      SumAppend(db.ledger, row, OnWithdrawal(k, WithdrawalReserve));
      SumAppend(db.ledger, row, OnWithdrawal(k, ReserveRelease));
      SumAppend(db.ledger, row, OnWithdrawal(k, WithdrawalPaid));
    }
  }
}
