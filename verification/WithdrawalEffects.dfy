/** What each transaction on a withdrawal refuses and stores, row by row, and what that means for
    the provider reference and the lease over whole runs. */
module WithdrawalEffects {
  import opened Common
  import opened Withdrawals
  import opened WithdrawalInvariant
  import opened WithdrawalSystem
  import opened WithdrawalTheorems

  // ---- Results of the provider ------------------------------------------------------------------

  /** The status that the provider's word calls for. */
  predicate Means(word: ProviderStatus, to: Status) {
    match word
    case ProviderPaid => to == Paid
    case ProviderFailed => to == Failed
    case ProviderOther(_) => to == Pending
  }

  /** The report says something new about a withdrawal that may take it. */
  predicate IsNews(item: Item, result: PayoutResult) {
    item.status in {Approved, Sent, Pending} && !Means(result.status, item.status)
  }

  /** The tables after a report: status, reference, released claim, one history row per status, the
      money rows of a closed withdrawal and one message. */
  ghost predicate Reported(db: Db, after: Db, id: nat, result: PayoutResult, event: Option<string>)
    requires id < |db.items|
  {
    var item := db.items[id];
    var from := if item.status == Approved then Sent else item.status;
    var sent := if item.status == Approved then [Transition(id, Some(Approved), Sent, event)] else [];
    var release := Money(item.owner, item.currency, item.amount, ReserveRelease, Some(id), Some(Scope(id, ReserveRelease)));
    var paid := Money(item.owner, item.currency, item.amount, WithdrawalPaid, Some(id), Some(Scope(id, WithdrawalPaid)));
    var to := match result.status case ProviderPaid => Paid case ProviderFailed => Failed case ProviderOther(_) => Pending;
    after == Db(db.items[id := item.(status := to, reference := Some(result.reference), claimedUntil := None, lastError := None)],
                db.ledger + (match result.status case ProviderPaid => [release, paid] case ProviderFailed => [release] case ProviderOther(_) => []),
                db.history + sent + [Transition(id, Some(from), to, event)],
                db.callbacks, db.outbox + {(to, id)}, db.keys)
  }

  lemma WrittenResult(db: Db, sent: Db, id: nat, result: PayoutResult, event: Option<string>)
    requires Inv(db) && id < |db.items| && HistoryOk(sent.items, sent.history) && Active(db.items[id].status)
    requires sent == db.(items := sent.items, history := sent.history) && id < |sent.items| && sent.items == db.items[id := db.items[id].(status := sent.items[id].status)]
    requires sent.items[id].status in {Sent, Pending} && !Means(result.status, sent.items[id].status)
    ensures var to := TargetOf(result.status);
            var o := WriteResult(sent, id, to, result.reference, event);
            && o.Done? && o.value == Some(to)
            && o.db.items == db.items[id := db.items[id].(status := to, reference := Some(result.reference), claimedUntil := None, lastError := None)]
            && o.db.ledger == db.ledger + ClosingRows(db.items[id], id, to)
            && o.db.history == sent.history + [Transition(id, Some(sent.items[id].status), to, event)]
            && o.db.outbox == db.outbox + {(to, id)} && o.db.callbacks == db.callbacks && o.db.keys == db.keys
  {
    var to := TargetOf(result.status);
    MoveRefusedOnlyByGraph(sent, id, to, event);
    var moved := MoveTo(sent, id, to, event).db;
    var item := moved.items[id].(reference := Some(result.reference), claimedUntil := None, lastError := None);
    var written := moved.(items := moved.items[id := item]);
    hide HistoryOk, HistoryClash;
    assert db.ledger + [] == db.ledger;
    if Terminal(to) {
      BookingInserts(db, id, written, to);
    }
    hide Inv, Append;
  }

  /** `applyResult`, in full: an unknown id and a report without news change nothing, a report before
      approval is refused, and news are stored. */
  lemma ResultStored(db: Db, id: nat, result: PayoutResult, event: Option<string>)
    requires Inv(db)
    ensures var o := ApplyResult(db, id, result, event);
            if id >= |db.items| then o == Done(db, None)
            else if db.items[id].status in {Requested, Verifying} then o == Thrown(TransitionInvalid)
            else if !IsNews(db.items[id], result) then o == Done(db, Some(db.items[id].status))
            else o.Done? && o.value == Some(o.db.items[id].status) && Reported(db, o.db, id, result, event)
  {
    if id < |db.items| && db.items[id].status == Approved {
      MoveRefusedOnlyByGraph(db, id, Sent, event);
      WrittenResult(db, MoveTo(db, id, Sent, event).db, id, result, event);
    } else if id < |db.items| && db.items[id].status in {Sent, Pending} && IsNews(db.items[id], result) {
      WrittenResult(db, db, id, result, event);
      assert db.history + [] == db.history;
    } else if id < |db.items| {
      MoveRefusedOnlyByGraph(db, id, TargetOf(result.status), event);
    }
    hide Inv, WriteResult, HistoryOk, HistoryClash;
  }

  /** A callback that was not seen before is refused exactly for an unknown withdrawal, another
      provider or another reference than the stored one; otherwise its report is stored. */
  lemma CallbackStored(db: Db, cb: Callback)
    requires Inv(db) && cb.key !in db.callbacks
    ensures var o := ProcessCallback(db, cb);
            var known := cb.withdrawal < |db.items| && db.items[cb.withdrawal].provider == cb.key.provider
                         && (db.items[cb.withdrawal].reference.None? || db.items[cb.withdrawal].reference == Some(cb.result.reference));
            && (o == Thrown(CallbackMismatch) <==> !known)
            && (known && db.items[cb.withdrawal].status in {Requested, Verifying} ==> o == Thrown(TransitionInvalid))
            && (known && db.items[cb.withdrawal].status !in {Requested, Verifying} ==>
                  var seen := db.(callbacks := db.callbacks + {cb.key});
                  && o.Done? && cb.withdrawal < |o.db.items| && o.value == CallbackAnswer.Applied(Some(o.db.items[cb.withdrawal].status))
                  && if IsNews(db.items[cb.withdrawal], cb.result) then Reported(seen, o.db, cb.withdrawal, cb.result, Some(cb.key.eventId)) else o.db == seen)
  {
    ResultStored(db.(callbacks := db.callbacks + {cb.key}), cb.withdrawal, cb.result, Some(cb.key.eventId));
    hide ApplyResult, Inv, Reported;
  }

  /** A poll asks the provider exactly for a withdrawal under way that has a reference, and stores
      what it reports. */
  lemma PollStored(db: Db, id: nat, answer: Option<PayoutResult>)
    requires Inv(db)
    ensures var (after, status) := PollOf(db, id, answer);
            if id >= |db.items| then after == db && status == Unknown
            else
              var item := db.items[id];
              if item.reference.None? || item.status !in {Sent, Pending} then after == db && status == Known(item.status)
              else if answer.None? then after == db && status == QueryFailed
              else
                && id < |after.items| && status == Known(after.items[id].status)
                && if IsNews(item, answer.value) then Reported(db, after, id, answer.value, Some("poll:" + item.reference.value)) else after == db
  {
    if id < |db.items| && db.items[id].reference.Some? && answer.Some? {
      ResultStored(db, id, answer.value, Some("poll:" + db.items[id].reference.value));
    }
    hide ApplyResult, Inv, Reported;
  }

  // ---- Owner and administrator ------------------------------------------------------------------

  /** A cancellation is accepted exactly from its owner and before the payout is under way. */
  lemma CancelStored(db: Db, owner: Owner, id: nat)
    requires Inv(db)
    ensures var o := Cancel(db, owner, id);
            if id >= |db.items| || db.items[id].owner != owner then o == Thrown(NotFound)
            else
              var item := db.items[id];
              if item.status !in {Requested, Verifying, Approved} then o == Thrown(TransitionInvalid)
              else o == Done(db.(items := db.items[id := item.(status := Cancelled)],
                                 ledger := db.ledger + [Money(item.owner, item.currency, item.amount, ReserveRelease, Some(id), Some(Scope(id, ReserveRelease)))],
                                 history := db.history + [Transition(id, Some(item.status), Cancelled, None)]),
                             ())
  {
    if id < |db.items| {
      MoveRefusedOnlyByGraph(db, id, Cancelled, None);
      if db.items[id].status in {Requested, Verifying, Approved} {
        BookingInserts(db, id, MoveTo(db, id, Cancelled, None).db, Cancelled);
      }
    }
    hide Inv, HistoryClash, Append;
  }

  /** Verification starts from REQUESTED and approval from VERIFYING, which is due at once. */
  lemma AdminStored(db: Db, id: nat, to: Status, cleared: bool, now: int)
    requires Inv(db) && to in {Verifying, Approved}
    ensures var o := AdminTransition(db, id, to, cleared, now);
            if id >= |db.items| then o == Thrown(NotFound)
            else if !cleared then o == Thrown(Suspended)
            else
              var item := db.items[id];
              if item.status != (if to == Verifying then Requested else Verifying) then o == Thrown(TransitionInvalid)
              else o == Done(db.(items := db.items[id := item.(status := to, availableAt := if to == Approved then Some(now) else item.availableAt)],
                                 history := db.history + [Transition(id, Some(item.status), to, None)]),
                             ())
  {
    if id < |db.items| {
      MoveRefusedOnlyByGraph(db, id, to, None);
    }
    hide Inv, HistoryClash;
  }

  /** Three capital letters; one line feed may follow. */
  predicate ThreeCapitals(text: string) {
    && (|text| == 3 || (|text| == 4 && text[3] as int == 10))
    && 65 <= text[0] as int <= 90 && 65 <= text[1] as int <= 90 && 65 <= text[2] as int <= 90
  }

  /** The answer to every request: the refusals in their order, the replay of a used key, and the new
      withdrawal, whose amount is reserved exactly when the available balance covers it. */
  lemma RequestStored(db: Db, c: Config, s: Submission)
    requires Inv(db)
    ensures var o := Request(db, c, s);
            var id, currency, key := |db.items|, Upper(s.currency), RequestKey(s.owner.id, s.provider, s.key);
            if s.amount < c.minimum || s.amount > c.maximum || !ThreeCapitals(currency) || currency !in c.currencies then o == Thrown(ValidationFailed)
            else if !s.verified then o == Thrown(NotFound)
            else if !(16 <= |s.key| <= 128) then o == Thrown(ValidationFailed)
            else if key in db.keys then
              var first := db.keys[key];
              if first.account == s.account && first.amount == s.amount && first.currency == currency then o == Done(db, first.result)
              else o == Thrown(BodyMismatch)
            else if Available(db.ledger, s.owner, currency) < s.amount then o == Thrown(InsufficientBalance)
            else o == Done(db.(items := db.items + [Item(s.owner, currency, s.amount, s.provider, Requested, 0, Some(s.now), None, None, None)],
                               ledger := db.ledger + [Money(s.owner, currency, s.amount, WithdrawalReserve, Some(id), Some(Scope(id, WithdrawalReserve)))],
                               history := db.history + [Transition(id, None, Requested, None)],
                               keys := db.keys[key := RequestRecord(s.account, s.amount, currency, id)]),
                           id)
  {
    OpeningReserves(db, s);
    hide Inv, Append, Available, Upper;
  }

  // ---- The balance --------------------------------------------------------------------------------

  function OfKind(owner: Owner, currency: string, kind: Kind): Money -> int {
    (m: Money) => if m.owner == owner && m.currency == currency && m.kind == kind then m.amount else 0
  }

  function Total(ledger: seq<Money>, owner: Owner, currency: string, kind: Kind): int {
    SumBy(ledger, OfKind(owner, currency, kind))
  }

  /** The available balance: payments, adjustments and releases less refunds, reserves and payouts. */
  lemma {:induction false} AvailableIs(ledger: seq<Money>, owner: Owner, currency: string)
    ensures Available(ledger, owner, currency)
            == Total(ledger, owner, currency, Payment) + Total(ledger, owner, currency, AdjustmentCredit) + Total(ledger, owner, currency, ReserveRelease)
               - Total(ledger, owner, currency, Refund) - Total(ledger, owner, currency, WithdrawalReserve) - Total(ledger, owner, currency, WithdrawalPaid)
    ensures InflowSum(ledger, owner, currency)
            == Total(ledger, owner, currency, Payment) + Total(ledger, owner, currency, AdjustmentCredit) - Total(ledger, owner, currency, Refund)
    decreases |ledger|
  {
    if ledger != [] {
      AvailableIs(ledger[..|ledger| - 1], owner, currency);
    }
  }

  /** The codes of the detector: a paid withdrawal without its PAID or its RELEASE row, a cancelled or
      failed one without its RELEASE row, else what the poll said. */
  lemma AnomalyDetected(status: Status, ledger: seq<Money>, id: nat, answer: PollAnswer)
    ensures var released := exists i :: 0 <= i < |ledger| && ledger[i].withdrawal == Some(id) && ledger[i].kind == ReserveRelease;
            var paid := exists i :: 0 <= i < |ledger| && ledger[i].withdrawal == Some(id) && ledger[i].kind == WithdrawalPaid;
            var code := AnomalyCode(status, ledger, id, answer);
            && (code == Some(PaidLedgerMismatch) <==> status == Paid && !(released && paid))
            && (code == Some(ReserveNotReleased) <==> (status == Cancelled || status == Failed) && !released)
            && (code.None? ==> answer.Known?) && (code == Some(ProviderStatusUnknown) ==> answer == Unknown)
            && (code == Some(ProviderQueryFailed) ==> answer == QueryFailed)
  {
  }

  // ---- The worker ---------------------------------------------------------------------------------

  /** Seconds until a failed withdrawal may be claimed again, by the number of its claims. */
  const DELAYS := [1, 2, 4, 8, 16, 32, 64, 128, 256, 512, 1024]

  lemma DelayDoubles(attempts: int)
    ensures Backoff(attempts) == DELAYS[Max(0, Min(attempts, 10))]
  {
    var n := Max(0, Min(attempts, 10));
    assert Pow2(0) == 1 && Pow2(1) == 2 && Pow2(2) == 4 && Pow2(3) == 8 && Pow2(4) == 16 && Pow2(5) == 32;
    assert Pow2(6) == 64 && Pow2(7) == 128 && Pow2(8) == 256 && Pow2(9) == 512 && Pow2(10) == 1024;
    assert n in {0, 1, 2, 3, 4, 5, 6, 7, 8, 9, 10};
  }

  /** A failure releases the claim and delays the next one; after the last attempt it closes the
      withdrawal as FAILED and gives the reserve back. */
  lemma FailureStored(db: Db, c: Config, id: nat, code: string, now: int)
    requires Inv(db) && id < |db.items|
    ensures var item := db.items[id];
            var closed := item.attempts >= c.maxAttempts && item.status in {Approved, Sent};
            RecordFailure(db, c, id, code, now)
            == Done(db.(items := db.items[id := item.(status := if closed then Failed else item.status, claimedUntil := None,
                                                      availableAt := Some(now + DELAYS[Max(0, Min(item.attempts, 10))]), lastError := Some(code))],
                        ledger := if closed then db.ledger + [Money(item.owner, item.currency, item.amount, ReserveRelease, Some(id), Some(Scope(id, ReserveRelease)))]
                                  else db.ledger,
                        history := if closed then db.history + [Transition(id, Some(Sent), Failed, None)] else db.history),
                    ())
  {
    DelayDoubles(db.items[id].attempts);
    ExhaustedStored(db, c, id);
    hide Inv, CloseExhausted, Backoff, DELAYS;
  }

  lemma ExhaustedStored(db: Db, c: Config, id: nat)
    requires Inv(db) && id < |db.items|
    ensures var item := db.items[id];
            CloseExhausted(db, c, id)
            == Done(if item.attempts >= c.maxAttempts && item.status in {Approved, Sent} then
                      db.(items := db.items[id := item.(status := Failed)],
                          ledger := db.ledger + [Money(item.owner, item.currency, item.amount, ReserveRelease, Some(id), Some(Scope(id, ReserveRelease)))],
                          history := db.history + [Transition(id, Some(Sent), Failed, None)])
                    else db,
                    ())
  {
    var sent := SetStatus(db, id, Sent);
    if db.items[id].attempts >= c.maxAttempts && db.items[id].status in {Sent, Approved} {
      HistoryKept(db.items, db.history, id, sent.items[id]);
      MoveRefusedOnlyByGraph(sent, id, Failed, None);
      BookingInserts(db, id, MoveTo(sent, id, Failed, None).db, Failed);
    }
    hide Inv, HistoryOk, HistoryClash, Append;
  }

  // ---- Whole runs: the provider reference -----------------------------------------------------------

  /** The report that a step brings to a withdrawal. */
  function Delivered(s: System, step: Step): Option<(nat, PayoutResult)> {
    match step
    case StoreStep(j) => if PhaseOf(s, j).Returned? then Some((s.jobs[j].id, s.jobs[j].phase.result)) else None
    case CallbackStep(cb) => Some((cb.withdrawal, cb.result))
    case PollStep(id, result, _) => Some((id, result))
    case _ => None
  }

  /** The step brings a report to the withdrawal and its status changes. */
  predicate TookResult(s: System, after: System, step: Step, id: nat) {
    && Delivered(s, step).Some? && Delivered(s, step).value.0 == id
    && id < |s.db.items| && id < |after.db.items| && after.db.items[id].status != s.db.items[id].status
  }

  predicate FailureRecorded(s: System, step: Step, id: nat) {
    step.FailStep? && step.job < |s.jobs| && s.jobs[step.job].id == id
  }

  predicate Takes(step: Step, id: nat) {
    step.ClaimStep? && id in step.ids
  }

  /** How the row of a withdrawal may move in one step. */
  ghost predicate RowMoves(c: Config, s: System, after: System, step: Step, id: nat) {
    && id < |s.db.items| && id < |after.db.items|
    && var row, row' := s.db.items[id], after.db.items[id];
       if TookResult(s, after, step, id) then
         row' == row.(status := row'.status, reference := Some(Delivered(s, step).value.1.reference), claimedUntil := None, lastError := None)
       else if FailureRecorded(s, step, id) then row'.reference == row.reference && row'.claimedUntil == None
       else if Takes(step, id) then row' == row.(claimedUntil := Some(step.at + c.leaseSeconds), attempts := row.attempts + 1)
       else row'.reference == row.reference && row'.claimedUntil == row.claimedUntil
  }

  lemma ReportMovesRow(db: Db, after: Db, target: nat, result: PayoutResult, event: Option<string>, id: nat)
    requires target < |db.items| && id < |db.items| && Reported(db, after, target, result, event)
    ensures |after.items| == |db.items|
    ensures var row, row' := db.items[id], after.items[id];
            if id == target then row' == row.(status := row'.status, reference := Some(result.reference), claimedUntil := None, lastError := None)
            else row' == row
    ensures Means(result.status, after.items[target].status)
  {
  }

  lemma ResultStepMoves(c: Config, s: System, step: Step, id: nat)
    requires Inv(s.db) && Enabled(s, c, step) && id < |s.db.items| && (step.StoreStep? || step.PollStep?)
    ensures RowMoves(c, s, Next(s, c, step), step, id)
  {
    var (target, result) := Delivered(s, step).value;
    var event := if step.StoreStep? then None else Some("poll:" + step.polled);
    var o := ApplyResult(s.db, target, result, event);
    ResultStored(s.db, target, result, event);
    hide Inv, ApplyResult;
    if o.Done? && target < |s.db.items| && IsNews(s.db.items[target], result) {
      ReportMovesRow(s.db, o.db, target, result, event, id);
    }
    hide Reported;
  }

  lemma CallbackStepMoves(c: Config, s: System, step: Step, id: nat)
    requires Inv(s.db) && Enabled(s, c, step) && id < |s.db.items| && step.CallbackStep?
    ensures RowMoves(c, s, Next(s, c, step), step, id)
  {
    var cb := step.callback;
    if cb.key !in s.db.callbacks {
      CallbackStored(s.db, cb);
      var o, seen := ProcessCallback(s.db, cb), s.db.(callbacks := s.db.callbacks + {cb.key});
      hide Inv, ProcessCallback;
      if o.Done? && IsNews(s.db.items[cb.withdrawal], cb.result) {
        ReportMovesRow(seen, o.db, cb.withdrawal, cb.result, Some(cb.key.eventId), id);
      }
      hide Reported;
    }
  }

  lemma FailureStepMoves(c: Config, s: System, step: Step, id: nat)
    requires Inv(s.db) && Enabled(s, c, step) && id < |s.db.items| && step.FailStep?
    ensures RowMoves(c, s, Next(s, c, step), step, id)
  {
    FailureStored(s.db, c, s.jobs[step.job].id, step.code, step.at);
    hide Inv, RecordFailure, DELAYS;
  }

  lemma OtherStepMoves(c: Config, s: System, step: Step, id: nat)
    requires Inv(s.db) && Enabled(s, c, step) && id < |s.db.items|
    requires !step.StoreStep? && !step.PollStep? && !step.CallbackStep? && !step.FailStep?
    ensures RowMoves(c, s, Next(s, c, step), step, id)
  {
    hide Inv, Acceptable, Available, HistoryClash, Append, Targets, Claimable;
  }

  lemma StepMovesRow(c: Config, s: System, step: Step, id: nat)
    requires Inv(s.db) && Enabled(s, c, step) && id < |s.db.items|
    ensures RowMoves(c, s, Next(s, c, step), step, id)
  {
    hide Inv, Enabled, Next, RowMoves;
    match step
    case StoreStep(_) => ResultStepMoves(c, s, step, id);
    case PollStep(_, _, _) => ResultStepMoves(c, s, step, id);
    case CallbackStep(_) => CallbackStepMoves(c, s, step, id);
    case FailStep(_, _, _) => FailureStepMoves(c, s, step, id);
    case _ => OtherStepMoves(c, s, step, id);
  }

  lemma NewRowsAreBlank(c: Config, s: System, step: Step, id: nat)
    requires Inv(s.db) && Enabled(s, c, step) && |s.db.items| <= id < |Next(s, c, step).db.items|
    ensures Next(s, c, step).db.items[id].reference == None
  {
    StepPerforms(s, c, step);
    hide Inv, Next, Enabled;
  }

  /** The reference of the last report that changed the status before step `i`. */
  function LastReference(trace: seq<System>, steps: seq<Step>, i: nat, id: nat): Option<string>
    requires |trace| == |steps| + 1 && i < |trace|
  {
    if i == 0 then None
    else if TookResult(trace[i - 1], trace[i], steps[i - 1], id) then Some(Delivered(trace[i - 1], steps[i - 1]).value.1.reference)
    else LastReference(trace, steps, i - 1, id)
  }

  lemma {:induction false} NoReferenceYet(trace: seq<System>, steps: seq<Step>, i: nat, id: nat)
    requires |trace| == |steps| + 1 && i < |trace| && forall k :: 0 <= k < i ==> |trace[k].db.items| <= id
    ensures LastReference(trace, steps, i, id) == None
  {
    if i > 0 {
      NoReferenceYet(trace, steps, i - 1, id);
    }
  }

  /** In every run the stored reference of a withdrawal is the one that came with the last report
      that changed its status, and none before the first. */
  lemma {:induction false} ReferenceIsLastReported(c: Config, trace: seq<System>, steps: seq<Step>, i: nat, id: nat)
    requires Run(c, trace, steps) && trace[0] == Start && i < |trace| && id < |trace[i].db.items|
    ensures trace[i].db.items[id].reference == LastReference(trace, steps, i, id)
    decreases i
  {
    hide Inv, Next, Enabled, TookResult;
    if i > 0 {
      Reachable(c, trace, steps, i - 1);
      if id < |trace[i - 1].db.items| {
        ReferenceIsLastReported(c, trace, steps, i - 1, id);
        StepMovesRow(c, trace[i - 1], steps[i - 1], id);
      } else {
        forall k | 0 <= k < i ensures |trace[k].db.items| <= id {
          Reachable(c, trace, steps, k);
          RunAdvances(c, trace, steps, k, i - 1);
        }
        NoReferenceYet(trace, steps, i, id);
        NewRowsAreBlank(c, trace[i - 1], steps[i - 1], id);
      }
    }
  }

  // ---- Whole runs: the lease --------------------------------------------------------------------------

  /** A claim takes rows that wait for a payout, are due and not leased, the oldest first; each is
      then leased until exactly `leaseSeconds` later and counts one attempt more. */
  lemma ClaimLeases(c: Config, s: System, ids: seq<nat>, limit: int, at: int, id: nat)
    requires Enabled(s, c, ClaimStep(ids, limit, at)) && id < |s.db.items|
    ensures var row, row' := s.db.items[id], Next(s, c, ClaimStep(ids, limit, at)).db.items[id];
            var waits := row.status in {Approved, Sent} && (row.availableAt.None? || row.availableAt.value <= at)
                         && (row.claimedUntil.None? || row.claimedUntil.value < at);
            var size := if limit < 1 then 1 else if limit > 100 then 100 else limit;
            && |ids| <= size
            && (id in ids ==> waits && row' == row.(claimedUntil := Some(at + c.leaseSeconds), attempts := row.attempts + 1))
            && (id !in ids ==> row' == row && (waits ==> |ids| == size && forall k :: k in ids ==> k < id))
  {
  }

  /** A step that records a report of news or a failure of the withdrawal, which frees its claim. */
  predicate Frees(s: System, after: System, step: Step, id: nat) {
    TookResult(s, after, step, id) || FailureRecorded(s, step, id)
  }

  /** However workers, callbacks and polls interleave: between two claims of one withdrawal either a
      report or a failure of it was recorded, or the lease of the first had run out. */
  lemma LeaseExcludesClaims(c: Config, trace: seq<System>, steps: seq<Step>, i: nat, j: nat, id: nat)
    requires Run(c, trace, steps) && trace[0] == Start && i < j < |steps| && Takes(steps[i], id) && Takes(steps[j], id)
    requires forall k :: i < k < j ==> !Frees(trace[k], trace[k + 1], steps[k], id)
    ensures steps[j].at > steps[i].at + c.leaseSeconds
  {
    hide Inv, Next, TookResult, FailureRecorded;
    assert id < |trace[i].db.items|;
    Reachable(c, trace, steps, i);
    StepMovesRow(c, trace[i], steps[i], id);
    ClaimMovesNoReport(trace[i], trace[i + 1], steps[i], id);
    for n := i + 1 to j
      invariant id < |trace[n].db.items|
      invariant trace[n].db.items[id].claimedUntil.Some? && trace[n].db.items[id].claimedUntil.value >= steps[i].at + c.leaseSeconds
    {
      Reachable(c, trace, steps, n);
      StepMovesRow(c, trace[n], steps[n], id);
    }
  }

  lemma ClaimMovesNoReport(s: System, after: System, step: Step, id: nat)
    requires Takes(step, id)
    ensures !Frees(s, after, step, id)
  {
  }
}
