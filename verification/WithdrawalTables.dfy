/** The withdrawal services as they run: each method is one transaction that rewrites rows, and a
    thrown error rolls the tables back. */
module WithdrawalTables {
  import opened Common
  import opened Withdrawals
  import opened WithdrawalInvariant
  import WithdrawalTheorems

  /** The first `k` rows are claimed and the others are as before. */
  ghost predicate ClaimedTo(db: Db, ids: seq<nat>, k: nat, until: int, items: seq<Item>) {
    && k <= |ids| && (forall i :: 0 <= i < |ids| ==> ids[i] < |db.items|)
    && items == Claim(db, ids[..k], until).items
  }

  lemma ClaimStarts(db: Db, ids: seq<nat>, until: int)
    requires forall i :: 0 <= i < |ids| ==> ids[i] < |db.items|
    ensures ClaimedTo(db, ids, 0, until, db.items)
  {
  }

  lemma ClaimNext(db: Db, ids: seq<nat>, k: nat, until: int, items: seq<Item>)
    requires k < |ids| && (forall i, j :: 0 <= i < j < |ids| ==> ids[i] < ids[j]) && ClaimedTo(db, ids, k, until, items)
    ensures ids[k] < |items| && ClaimedTo(db, ids, k + 1, until, items[ids[k] := ClaimOne(items[ids[k]], until)])
  {
    hide ClaimOne;
    assert ids[k] !in ids[..k];
    assert ids[..k + 1] == ids[..k] + [ids[k]];
  }

  lemma ClaimEnds(db: Db, ids: seq<nat>, until: int, items: seq<Item>)
    requires ClaimedTo(db, ids, |ids|, until, items)
    ensures (forall i :: 0 <= i < |ids| ==> ids[i] < |db.items|) && Claim(db, ids, until) == db.(items := items)
  {
    assert ids[..|ids|] == ids;
  }

  class Tables {
    const config: Config
    var items: seq<Item>
    var ledger: seq<Money>
    var history: seq<Transition>
    var callbacks: set<CallbackKey>
    var outbox: set<(Status, nat)>
    var keys: map<RequestKey, RequestRecord>

    ghost function State(): Db
      reads this
    {
      Db(items, ledger, history, callbacks, outbox, keys)
    }

    constructor (config: Config)
      ensures State() == Empty && this.config == config
    {
      this.config := config;
      items, ledger, history, callbacks, outbox, keys := [], [], [], {}, {}, map[];
    }

    method Rollback(saved: Db)
      modifies this
      ensures State() == saved
    {
      items, ledger, history := saved.items, saved.ledger, saved.history;
      callbacks, outbox, keys := saved.callbacks, saved.outbox, saved.keys;
    }

    /** `WithdrawalLedger::available`: one pass over the owner's rows. */
    method ComputeAvailable(owner: Owner, currency: string) returns (balance: int)
      ensures balance == Available(ledger, owner, currency)
    {
      balance := 0;
      for i := 0 to |ledger|
        invariant balance == Available(ledger[..i], owner, currency)
      {
        var entry := ledger[i];
        SumAppend(ledger[..i], entry, Signed(owner, currency));
        assert ledger[..i] + [entry] == ledger[..i + 1];
        if entry.owner == owner && entry.currency == currency {
          if entry.kind in {Payment, ReserveRelease, AdjustmentCredit} {
            balance := balance + entry.amount;
          } else {
            balance := balance - entry.amount;
          }
        }
      }
      assert ledger[..|ledger|] == ledger;
    }

    /** `WithdrawalLedger::append`. */
    method InsertOrIgnore(item: Item, id: nat, kind: Kind)
      modifies this`ledger
      ensures ledger == Append(old(ledger), item, id, kind)
    {
      var taken := false;
      for i := 0 to |ledger|
        invariant taken == exists k :: 0 <= k < i && ledger[k].scope == Some(Scope(id, kind))
      {
        taken := taken || ledger[i].scope == Some(Scope(id, kind));
      }
      if !taken {
        ledger := ledger + [Money(item.owner, item.currency, item.amount, kind, Some(id), Some(Scope(id, kind)))];
      }
    }

    /** `WithdrawalService::transition`. */
    method Transit(id: nat, to: Status, event: Option<string>) returns (r: Result<(), Error>)
      requires id < |items|
      modifies this`items, this`history
      ensures State() == DbOf(old(State()), MoveTo(old(State()), id, to, event))
      ensures match MoveTo(old(State()), id, to, event) case Done(_, _) => r.Success? case Thrown(e) => r == Failure(e)
    {
      var item := items[id];
      if to !in Targets(item.status) {
        return Failure(TransitionInvalid);
      }
      var t := Transition(id, Some(item.status), to, event);
      if HistoryClash(history, t) {
        return Failure(UniqueViolation);
      }
      items := items[id := item.(status := to)];
      history := history + [t];
      r := Success(());
    }

    /** `WithdrawalService::request`, after its rate limit. */
    method SubmitRequest(s: Submission) returns (r: Result<nat, Error>)
      requires Inv(State())
      modifies this
      ensures Inv(State()) && State() == DbOf(old(State()), Request(old(State()), config, s))
      ensures match Request(old(State()), config, s) case Done(_, id) => r == Success(id) case Thrown(e) => r == Failure(e)
    {
      RequestKeepsInv(State(), config, s);
      hide Inv;
      var currency := Upper(s.currency);
      if s.amount < config.minimum || s.amount > config.maximum || !CurrencyCode(currency) || currency !in config.currencies {
        return Failure(ValidationFailed);
      }
      if !s.verified {
        return Failure(NotFound);
      }
      if !KeyLengthOk(s.key) {
        return Failure(ValidationFailed);
      }
      var key := RequestKey(s.owner.id, s.provider, s.key);
      if key in keys {
        var first := keys[key];
        if first.account != s.account || first.amount != s.amount || first.currency != currency {
          return Failure(BodyMismatch);
        }
        return Success(first.result);
      }
      var available := ComputeAvailable(s.owner, currency);
      if available < s.amount {
        return Failure(InsufficientBalance);
      }
      var id := |items|;
      var item := Item(s.owner, currency, s.amount, s.provider, Requested, 0, Some(s.now), None, None, None);
      items := items + [item];
      InsertOrIgnore(item, id, WithdrawalReserve);
      history := history + [Transition(id, None, Requested, None)];
      keys := keys[key := RequestRecord(s.account, s.amount, currency, id)];
      r := Success(id);
    }

    method CancelByOwner(owner: Owner, id: nat) returns (r: Result<(), Error>)
      requires Inv(State())
      modifies this
      ensures Inv(State()) && State() == DbOf(old(State()), Cancel(old(State()), owner, id))
      ensures match Cancel(old(State()), owner, id) case Done(_, _) => r.Success? case Thrown(e) => r == Failure(e)
    {
      ghost var before := State();
      if id >= |items| || items[id].owner != owner {
        return Failure(NotFound);
      }
      r := Transit(id, Cancelled, None);
      if r.Failure? {
        return;
      }
      InsertOrIgnore(items[id], id, ReserveRelease);
      CancelIsOneChange(before, owner, id);
      OneChangeKeepsInv(before, State(), id);
    }

    method AdminMove(id: nat, to: Status, cleared: bool, now: int) returns (r: Result<(), Error>)
      requires Inv(State()) && to in {Verifying, Approved}
      modifies this
      ensures Inv(State()) && State() == DbOf(old(State()), AdminTransition(old(State()), id, to, cleared, now))
      ensures match AdminTransition(old(State()), id, to, cleared, now) case Done(_, _) => r.Success? case Thrown(e) => r == Failure(e)
    {
      ghost var before := State();
      if id >= |items| {
        return Failure(NotFound);
      }
      if !cleared {
        return Failure(Suspended);
      }
      r := Transit(id, to, None);
      if r.Failure? {
        return;
      }
      if to != Verifying {
        items := items[id := items[id].(availableAt := Some(now))];
      }
      AdminIsOneChange(before, id, to, cleared, now);
      OneChangeKeepsInv(before, State(), id);
    }

    /** The claiming transaction of `runOnce`: lease every row of the query and count the attempt. */
    method ClaimBatch(ids: seq<nat>, limit: int, now: int)
      requires Inv(State()) && ClaimQuery(items, now, limit, ids)
      modifies this`items
      ensures Inv(State()) && State() == Claim(old(State()), ids, now + config.leaseSeconds)
    {
      hide Inv, Claimable, Claim, ClaimedTo;
      ghost var before := State();
      ClaimKeepsInv(before, ids, now + config.leaseSeconds);
      ClaimStarts(before, ids, now + config.leaseSeconds);
      for k := 0 to |ids|
        invariant ClaimedTo(before, ids, k, now + config.leaseSeconds, items)
      {
        ClaimNext(before, ids, k, now + config.leaseSeconds, items);
        var item := items[ids[k]];
        items := items[ids[k] := item.(claimedUntil := Some(now + config.leaseSeconds), attempts := item.attempts + 1)];
      }
      ClaimEnds(before, ids, now + config.leaseSeconds, items);
    }

    /** The second half of `applyResult`. */
    method WriteOutcome(id: nat, to: Status, reference: string, event: Option<string>) returns (r: Result<Option<Status>, Error>)
      requires id < |items|
      modifies this
      ensures State() == DbOf(old(State()), WriteResult(old(State()), id, to, reference, event))
      ensures match WriteResult(old(State()), id, to, reference, event) case Done(_, v) => r == Success(v) case Thrown(e) => r == Failure(e)
    {
      var moved := Transit(id, to, event);
      if moved.Failure? {
        return Failure(moved.error);
      }
      var item := items[id].(reference := Some(reference), claimedUntil := None, lastError := None);
      items := items[id := item];
      if to == Failed || to == Paid {
        InsertOrIgnore(item, id, ReserveRelease);
      }
      if to == Paid {
        InsertOrIgnore(item, id, WithdrawalPaid);
      }
      outbox := outbox + {(to, id)};
      r := Success(Some(to));
    }

    /** `PayoutWorker::applyResult`. */
    method StoreResult(id: nat, result: PayoutResult, event: Option<string>) returns (r: Result<Option<Status>, Error>)
      requires Inv(State())
      modifies this
      ensures Inv(State()) && State() == DbOf(old(State()), ApplyResult(old(State()), id, result, event))
      ensures match ApplyResult(old(State()), id, result, event) case Done(_, v) => r == Success(v) case Thrown(e) => r == Failure(e)
    {
      ghost var before := State();
      if id >= |items| {
        return Success(None);
      }
      assert Inv(DbOf(before, ApplyResult(before, id, result, event))) by {
        ResultIsOneChange(before, id, result, event);
        OneChangeKeepsInv(before, DbOf(before, ApplyResult(before, id, result, event)), id);
      }
      var status, to := items[id].status, TargetOf(result.status);
      if Terminal(status) {
        return Success(Some(status));
      }
      if status == to {
        return Success(Some(to));
      }
      var saved := Db(items, ledger, history, callbacks, outbox, keys);
      if status == Approved {
        var sent := Transit(id, Sent, event);
        if sent.Failure? {
          return Failure(sent.error);
        }
      }
      r := WriteOutcome(id, to, result.reference, event);
      if r.Failure? {
        Rollback(saved);
      }
    }

    /** The last attempt: force SENT if needed, fail, release the reserve. */
    method CloseIfExhausted(id: nat)
      requires Inv(State()) && id < |items|
      modifies this
      ensures |items| == |old(items)| && CloseExhausted(old(State()), config, id) == Done(State(), ())
    {
      ghost var before := State();
      if items[id].attempts >= config.maxAttempts && items[id].status in {Sent, Approved} {
        if items[id].status == Approved {
          items := items[id := items[id].(status := Sent)];
        }
        assert State() == SetStatus(before, id, Sent);
        HistoryKept(before.items, before.history, id, items[id]);
        MoveRefusedOnlyByGraph(State(), id, Failed, None);
        var r := Transit(id, Failed, None);
        InsertOrIgnore(items[id], id, ReserveRelease);
      }
    }

    /** The `catch` transaction of `process`. */
    method GiveUpOrRetry(id: nat, code: string, now: int)
      requires Inv(State()) && id < |items|
      modifies this
      ensures Inv(State()) && State() == DbOf(old(State()), RecordFailure(old(State()), config, id, code, now))
      ensures items[id].status in {Approved, Sent} ==> items[id].attempts < config.maxAttempts
    {
      hide CloseExhausted, RecordFailure, Inv;
      ghost var before := State();
      var attempts := items[id].attempts;
      CloseIfExhausted(id);
      PostponedIsRecorded(before, config, id, code, now, State());
      items := items[id := items[id].(claimedUntil := None, availableAt := Some(now + Backoff(attempts)), lastError := Some(code))];
    }

    /** `PayoutCallbackProcessor::process`. */
    method Receive(cb: Callback) returns (r: Result<CallbackAnswer, Error>)
      requires Inv(State())
      modifies this
      ensures Inv(State()) && State() == DbOf(old(State()), ProcessCallback(old(State()), cb))
      ensures match ProcessCallback(old(State()), cb) case Done(_, v) => r == Success(v) case Thrown(e) => r == Failure(e)
    {
      if cb.key in callbacks {
        return Success(Duplicate);
      }
      var saved := Db(items, ledger, history, callbacks, outbox, keys);
      callbacks := callbacks + {cb.key};
      if cb.withdrawal >= |items| || items[cb.withdrawal].provider != cb.key.provider
         || (items[cb.withdrawal].reference.Some? && items[cb.withdrawal].reference.value != cb.result.reference) {
        Rollback(saved);
        return Failure(CallbackMismatch);
      }
      var applied := StoreResult(cb.withdrawal, cb.result, Some(cb.key.eventId));
      if applied.Failure? {
        Rollback(saved);
        return Failure(applied.error);
      }
      r := Success(Applied(applied.value));
    }

    /** `PayoutPollingService::poll`, given what the provider answers; None is a thrown query. */
    method Poll(id: nat, answer: Option<PayoutResult>) returns (status: WithdrawalTheorems.PollAnswer)
      requires Inv(State())
      modifies this
      ensures Inv(State()) && (State(), status) == WithdrawalTheorems.PollOf(old(State()), id, answer)
    {
      if id >= |items| {
        return WithdrawalTheorems.Unknown;
      }
      var item := items[id];
      if item.reference.None? || item.status !in {Sent, Pending} {
        return WithdrawalTheorems.Known(item.status);
      }
      if answer.None? {
        return WithdrawalTheorems.QueryFailed;
      }
      var r := StoreResult(id, answer.value, Some("poll:" + item.reference.value));
      match r
      case Success(Some(stored)) => status := WithdrawalTheorems.Known(stored);
      case Success(None) => status := WithdrawalTheorems.Unknown;
      case Failure(_) => status := WithdrawalTheorems.QueryFailed;
    }

    /** `WithdrawalReconciliationService::run` over the ids its query returned: every anomaly it
        counts is a failed query, never a ledger that disagrees with a status. */
    method Reconcile(ids: seq<nat>, answers: seq<Option<PayoutResult>>)
      returns (checked: nat, anomalies: nat, codes: seq<WithdrawalTheorems.Code>)
      requires Inv(State()) && |answers| == |ids| && forall i :: 0 <= i < |ids| ==> ids[i] < |items|
      modifies this
      ensures Inv(State()) && checked == |ids| && anomalies == |codes| <= checked
      ensures forall i :: 0 <= i < |codes| ==> codes[i] == WithdrawalTheorems.ProviderQueryFailed
      ensures (forall i :: 0 <= i < |answers| ==> answers[i].Some?) ==> anomalies == 0
    {
      checked, anomalies, codes := 0, 0, [];
      for k := 0 to |ids|
        invariant Inv(State()) && |items| == |old(items)| && checked == k && anomalies == |codes| <= k
        invariant forall i :: 0 <= i < |codes| ==> codes[i] == WithdrawalTheorems.ProviderQueryFailed
        invariant (forall i :: 0 <= i < k ==> answers[i].Some?) ==> anomalies == 0
      {
        checked := checked + 1;
        WithdrawalTheorems.PollAnswers(State(), ids[k], answers[k]);
        var status := Poll(ids[k], answers[k]);
        WithdrawalTheorems.LedgerExplains(State(), ledger, ids[k]);
        var code := WithdrawalTheorems.AnomalyCode(items[ids[k]].status, ledger, ids[k], status);
        if code.Some? {
          anomalies := anomalies + 1;
          codes := codes + [code.value];
        }
      }
    }
  }

  /** The end of the `catch` transaction, once the exhausted withdrawal is closed. */
  lemma PostponedIsRecorded(db: Db, c: Config, id: nat, code: string, now: int, closed: Db)
    requires Inv(db) && id < |db.items| && CloseExhausted(db, c, id) == Done(closed, ()) && id < |closed.items|
    ensures var after := Postpone(closed, id, db.items[id].attempts, code, now);
            && RecordFailure(db, c, id, code, now) == Done(after, ()) && Inv(after)
            && (after.items[id].status in {Approved, Sent} ==> after.items[id].attempts < c.maxAttempts)
  {
    FailureIsOneChange(db, c, id, code, now);
    OneChangeKeepsInv(db, RecordFailure(db, c, id, code, now).db, id);
  }
}
