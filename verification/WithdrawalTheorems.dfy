/** What the withdrawal protocol promises over whole runs. */
module WithdrawalTheorems {
  import opened Common
  import opened Withdrawals
  import opened WithdrawalInvariant
  import opened WithdrawalSystem

  // ---- Money is conserved -------------------------------------------------------------

  ghost predicate Conserved(db: Db, owner: Owner, currency: string) {
    Available(db.ledger, owner, currency) + ReservedSum(db.items, owner, currency) + PaidSum(db.items, owner, currency)
    == InflowSum(db.ledger, owner, currency)
  }

  /** A request reserves from what is available, never more. */
  lemma RequestConserves(db: Db, c: Config, s: Submission, o: Owner, cur: string)
    requires Inv(db) && Conserved(db, o, cur)
    ensures var after := DbOf(db, Request(db, c, s));
            && Conserved(after, o, cur)
            && (Available(db.ledger, o, cur) >= 0 ==> Available(after.ledger, o, cur) >= 0)
  {
    var after := DbOf(db, Request(db, c, s));
    if after != db {
      OpeningReserves(db, s);
      hide Inv, Append;
      OpeningConserves(db.items, db.ledger, NewItem(s), o, cur);
    }
  }

  lemma OpeningConserves(items: seq<Item>, ledger: seq<Money>, item: Item, o: Owner, cur: string)
    requires item.status == Requested
    ensures var ledger' := ledger + [LedgerRow(item, |items|, WithdrawalReserve)];
            && Available(ledger', o, cur) == Available(ledger, o, cur) - (if OfOwner(item.owner, item.currency, o, cur) then item.amount else 0)
            && ReservedSum(items + [item], o, cur) == ReservedSum(items, o, cur) + (if OfOwner(item.owner, item.currency, o, cur) then item.amount else 0)
            && PaidSum(items + [item], o, cur) == PaidSum(items, o, cur)
            && InflowSum(ledger', o, cur) == InflowSum(ledger, o, cur)
  {
    var row := LedgerRow(item, |items|, WithdrawalReserve);
    SumAppend(ledger, row, Signed(o, cur));
    SumAppend(ledger, row, Inflow(o, cur));
    SumAppend(items, item, ReservedOf(o, cur));
    SumAppend(items, item, PaidOf(o, cur));
  }

  lemma ClaimConserves(db: Db, ids: seq<nat>, until: int, o: Owner, cur: string)
    requires forall i :: 0 <= i < |ids| ==> ids[i] < |db.items|
    ensures ReservedSum(Claim(db, ids, until).items, o, cur) == ReservedSum(db.items, o, cur)
    ensures PaidSum(Claim(db, ids, until).items, o, cur) == PaidSum(db.items, o, cur)
  {
    var after := Claim(db, ids, until);
    SumCongruent(after.items, db.items, ReservedOf(o, cur), ReservedOf(o, cur));
    SumCongruent(after.items, db.items, PaidOf(o, cur), PaidOf(o, cur));
  }

  lemma ChangeConserves(before: Db, after: Db, id: nat, o: Owner, cur: string)
    requires Inv(before) && OneChange(before, after, id) && Conserved(before, o, cur)
    ensures Conserved(after, o, cur) && Available(after.ledger, o, cur) >= Available(before.ledger, o, cur)
  {
    assert Follows(before.ledger, id, before.items[id]);
    hide Inv;
    if after.items[id].status == before.items[id].status {
      SumUpdate(before.items, id, after.items[id], ReservedOf(o, cur));
      SumUpdate(before.items, id, after.items[id], PaidOf(o, cur));
    } else {
      StatusChangeConserves(before.items, before.ledger, id, after.items[id], o, cur);
    }
  }

  lemma BookingConserves(before: Db, owner: Owner, currency: string, amount: nat, kind: Kind, o: Owner, cur: string)
    requires Conserved(before, o, cur) && kind in {Payment, Refund, AdjustmentCredit}
    ensures Conserved(External(before, owner, currency, amount, kind), o, cur)
    ensures Available(External(before, owner, currency, amount, kind).ledger, o, cur)
            == Available(before.ledger, o, cur) + if OfOwner(owner, currency, o, cur) then Sign(kind) * amount else 0
  {
    var row := Money(owner, currency, amount, kind, None, None);
    SumAppend(before.ledger, row, Signed(o, cur));
    SumAppend(before.ledger, row, Inflow(o, cur));
  }

  /** One step keeps the equation. It turns a balance negative exactly when it is a refund of that
      owner and currency, booked from outside, that exceeds what is available. */
  lemma EffectConserves(c: Config, before: Db, after: Db, e: Effect, o: Owner, cur: string)
    requires Inv(before) && Performs(c, before, after, e) && Conserved(before, o, cur)
    ensures Conserved(after, o, cur)
    ensures Available(before.ledger, o, cur) >= 0 ==>
              (Available(after.ledger, o, cur) < 0 <==>
                 e.Booked? && e.kind == Refund && e.owner == o && e.currency == cur && e.booked > Available(before.ledger, o, cur))
  {
    hide Inv, OneChange, Request, External, Claim;
    match e
    case Nothing =>
    case Opened(submission) => RequestConserves(before, c, submission, o, cur);
    case Changed(id) => ChangeConserves(before, after, id, o, cur);
    case Leased(ids, until) =>
      ClaimConserves(before, ids, until, o, cur);
      assert after.ledger == before.ledger by { ClaimKeepsLedger(before, ids, until); }
    case Booked(owner, currency, amount, kind) => BookingConserves(before, owner, currency, amount, kind, o, cur);
  }

  lemma ClaimKeepsLedger(db: Db, ids: seq<nat>, until: int)
    requires forall i :: 0 <= i < |ids| ==> ids[i] < |db.items|
    ensures Claim(db, ids, until).ledger == db.ledger
  {
  }

  /** A refund booked for an owner without money leaves a negative balance, in a run of one step. */
  lemma RefundOverdraws(c: Config, o: Owner, cur: string, amount: nat)
    requires amount > 0
    ensures var step := ExternalStep(o, cur, amount, Refund);
            && Run(c, [Start, Next(Start, c, step)], [step])
            && Available(Next(Start, c, step).db.ledger, o, cur) == 0 - amount
  {
    BookingConserves(Empty, o, cur, amount, Refund, o, cur);
  }

  /** In every reachable state, for every owner and currency: available + reserved + paid is what
      came in; and without refunds from outside no balance is ever negative. */
  lemma {:induction false} MoneyIsConserved(c: Config, trace: seq<System>, steps: seq<Step>, i: nat, o: Owner, cur: string)
    requires Run(c, trace, steps) && trace[0] == Start && i < |trace|
    ensures Conserved(trace[i].db, o, cur)
    ensures (forall k :: 0 <= k < i ==> !(steps[k].ExternalStep? && steps[k].kind == Refund)) ==> Available(trace[i].db.ledger, o, cur) >= 0
  {
    if i > 0 {
      MoneyIsConserved(c, trace, steps, i - 1, o, cur);
      Reachable(c, trace, steps, i - 1);
      StepPerforms(trace[i - 1], c, steps[i - 1]);
      EffectConserves(c, trace[i - 1].db, trace[i].db, EffectOf(trace[i - 1], c, steps[i - 1]), o, cur);
    }
  }

  /** Paying out books a release and a payment that cancel: the available balance does not move. */
  lemma PayingIsNetZero(db: Db, id: nat, result: PayoutResult, event: Option<string>, o: Owner, cur: string)
    requires Inv(db) && id < |db.items| && db.items[id].status in {Approved, Sent, Pending} && result.status == ProviderPaid
    ensures var after := DbOf(db, ApplyResult(db, id, result, event));
            && after.items[id].status == Paid
            && Available(after.ledger, o, cur) == Available(db.ledger, o, cur)
            && |after.ledger| == |db.ledger| + 2
  {
    ResultIsOneChange(db, id, result, event);
    var after := DbOf(db, ApplyResult(db, id, result, event));
    StatusChangeConserves(db.items, db.ledger, id, after.items[id], o, cur);
  }

  // ---- First terminal result wins -----------------------------------------------------

  /** Delivering results one after the other, with any event ids. */
  function ApplyAll(db: Db, id: nat, results: seq<PayoutResult>, events: seq<Option<string>>): Db
    requires |results| == |events|
    decreases |results|
  {
    if results == [] then db
    else ApplyAll(DbOf(db, ApplyResult(db, id, results[0], events[0])), id, results[1..], events[1..])
  }

  /** Where the first PAID or FAILED report is. */
  function FirstTerminal(results: seq<PayoutResult>): (k: Option<nat>)
    ensures match k
            case Some(i) => i < |results| && TargetOf(results[i].status) != Pending && forall j :: 0 <= j < i ==> TargetOf(results[j].status) == Pending
            case None => forall j :: 0 <= j < |results| ==> TargetOf(results[j].status) == Pending
  {
    if results == [] then None
    else if TargetOf(results[0].status) != Pending then Some(0)
    else match FirstTerminal(results[1..])
      case Some(i) => Some(i + 1)
      case None => None
  }

  lemma {:induction false} TerminalStays(db: Db, id: nat, results: seq<PayoutResult>, events: seq<Option<string>>)
    requires |results| == |events| && id < |db.items| && Terminal(db.items[id].status)
    ensures ApplyAll(db, id, results, events) == db
    decreases |results|
  {
    if results != [] {
      TerminalStays(db, id, results[1..], events[1..]);
    }
  }

  lemma {:induction false} PendingReports(db: Db, id: nat, results: seq<PayoutResult>, events: seq<Option<string>>)
    requires Inv(db) && |results| == |events| && id < |db.items| && db.items[id].status == Pending
    ensures var all := ApplyAll(db, id, results, events);
            match FirstTerminal(results)
            case None => all == db
            case Some(k) => all == DbOf(db, ApplyResult(db, id, results[k], events[k])) && all.items[id].status == TargetOf(results[k].status)
    decreases |results|
  {
    if results != [] {
      if TargetOf(results[0].status) == Pending {
        PendingReports(db, id, results[1..], events[1..]);
      } else {
        ResultIsOneChange(db, id, results[0], events[0]);
        TerminalStays(DbOf(db, ApplyResult(db, id, results[0], events[0])), id, results[1..], events[1..]);
      }
    }
  }

  /** Results in any order and with any repeats leave the tables, as a whole, as the first report
      followed by the first terminal one does; without a terminal one the withdrawal is PENDING. */
  lemma FirstTerminalWins(db: Db, id: nat, results: seq<PayoutResult>, events: seq<Option<string>>)
    requires Inv(db) && |results| == |events| && results != [] && id < |db.items| && db.items[id].status in {Approved, Sent, Pending}
    ensures var all, first := ApplyAll(db, id, results, events), DbOf(db, ApplyResult(db, id, results[0], events[0]));
            && id < |all.items|
            && match FirstTerminal(results)
               case None => all == first && all.items[id].status == Pending
               case Some(k) =>
                 && all == DbOf(first, ApplyResult(first, id, results[k], events[k]))
                 && all.items[id].status == TargetOf(results[k].status)
  {
    var first := DbOf(db, ApplyResult(db, id, results[0], events[0]));
    AppliesFirst(db, id, results, events);
    hide ApplyResult, ApplyAll, Inv, MoveTo;
    FirstReport(db, id, results[0], events[0]);
    if TargetOf(results[0].status) != Pending {
      TerminalStays(first, id, results[1..], events[1..]);
    } else {
      PendingReports(first, id, results[1..], events[1..]);
    }
  }

  lemma AppliesFirst(db: Db, id: nat, results: seq<PayoutResult>, events: seq<Option<string>>)
    requires |results| == |events| && results != []
    ensures ApplyAll(db, id, results, events) == ApplyAll(DbOf(db, ApplyResult(db, id, results[0], events[0])), id, results[1..], events[1..])
  {
    hide ApplyResult;
  }

  /** The first report sets the status it names; the same report again changes nothing. */
  lemma FirstReport(db: Db, id: nat, result: PayoutResult, event: Option<string>)
    requires Inv(db) && id < |db.items| && db.items[id].status in {Approved, Sent, Pending}
    ensures var first := DbOf(db, ApplyResult(db, id, result, event));
            && Inv(first) && id < |first.items| && first.items[id].status == TargetOf(result.status)
            && DbOf(first, ApplyResult(first, id, result, event)) == first
  {
    var first := DbOf(db, ApplyResult(db, id, result, event));
    ResultIsOneChange(db, id, result, event);
    OneChangeKeepsInv(db, first, id);
    hide Inv, MoveTo;
  }

  /** A callback that was processed once is a duplicate at every later point of every run. */
  lemma RedeliveredCallbackIsNoOp(c: Config, trace: seq<System>, steps: seq<Step>, i: nat, j: nat, cb: Callback)
    requires Run(c, trace, steps) && trace[0] == Start && i < j < |trace|
    requires steps[i] == CallbackStep(cb) && ProcessCallback(trace[i].db, cb).Done?
    ensures ProcessCallback(trace[j].db, cb) == Done(trace[j].db, Duplicate)
  {
    Reachable(c, trace, steps, i);
    Reachable(c, trace, steps, i + 1);
    if cb.key !in trace[i].db.callbacks {
      CallbackMarks(trace[i].db, cb);
    }
    RunAdvances(c, trace, steps, i + 1, j);
  }

  lemma CallbackMarks(db: Db, cb: Callback)
    requires Inv(db) && ProcessCallback(db, cb).Done?
    ensures cb.key in ProcessCallback(db, cb).db.callbacks
  {
    if cb.key !in db.callbacks {
      var seen := db.(callbacks := db.callbacks + {cb.key});
      ResultIsOneChange(seen, cb.withdrawal, cb.result, Some(cb.key.eventId));
    }
  }

  // ---- History ------------------------------------------------------------------------

  /** In every run a withdrawal takes each status at most once, so no history insert can
      violate the unique index, whatever event id comes with it. */
  lemma StatusesAreWrittenOnce(c: Config, trace: seq<System>, steps: seq<Step>, i: nat)
    requires Run(c, trace, steps) && trace[0] == Start && i < |trace|
    ensures var history := trace[i].db.history;
            forall a, b :: 0 <= a < b < |history| && history[a].withdrawal == history[b].withdrawal ==> history[a].after != history[b].after
    ensures forall id: nat, to, event :: id < |trace[i].db.items| ==> MoveTo(trace[i].db, id, to, event) != Thrown(UniqueViolation)
  {
    Reachable(c, trace, steps, i);
    forall id: nat, to, event | id < |trace[i].db.items| ensures MoveTo(trace[i].db, id, to, event) != Thrown(UniqueViolation) {
      MoveRefusedOnlyByGraph(trace[i].db, id, to, event);
    }
  }

  // ---- Reconciliation -----------------------------------------------------------------

  predicate HasKind(ledger: seq<Money>, id: nat, kind: Kind) {
    exists i :: 0 <= i < |ledger| && ledger[i].withdrawal == Some(id) && ledger[i].kind == kind
  }

  datatype Code = PaidLedgerMismatch | ReserveNotReleased | ProviderStatusUnknown | ProviderQueryFailed

  datatype PollAnswer = Known(status: Status) | Unknown | QueryFailed

  /** The anomaly code of one checked withdrawal. */
  function AnomalyCode(status: Status, ledger: seq<Money>, id: nat, answer: PollAnswer): Option<Code> {
    if status == Paid && (!HasKind(ledger, id, WithdrawalPaid) || !HasKind(ledger, id, ReserveRelease)) then Some(PaidLedgerMismatch)
    else if status in {Cancelled, Failed} && !HasKind(ledger, id, ReserveRelease) then Some(ReserveNotReleased)
    else match answer
      case Unknown => Some(ProviderStatusUnknown)
      case QueryFailed => Some(ProviderQueryFailed)
      case Known(_) => None
  }

  lemma CountedRowExists(ledger: seq<Money>, id: nat, kind: Kind)
    requires Rows(ledger, id, kind) == 1
    ensures HasKind(ledger, id, kind)
  {
    if !HasKind(ledger, id, kind) {
      SumZero(ledger, OnWithdrawal(id, kind));
    }
  }

  /** The ledger codes are unreachable even when other steps run between the read of the status
      and the read of the ledger rows; the code then depends on the poll alone. */
  lemma NoLedgerAnomaly(c: Config, trace: seq<System>, steps: seq<Step>, i: nat, j: nat, id: nat, answer: PollAnswer)
    requires Run(c, trace, steps) && trace[0] == Start && i <= j < |trace| && id < |trace[i].db.items|
    ensures AnomalyCode(trace[i].db.items[id].status, trace[j].db.ledger, id, answer)
            == (match answer case Unknown => Some(ProviderStatusUnknown) case QueryFailed => Some(ProviderQueryFailed) case Known(_) => None)
  {
    Reachable(c, trace, steps, i);
    RunAdvances(c, trace, steps, i, j);
    LedgerExplains(trace[i].db, trace[j].db.ledger, id);
  }

  lemma LedgerExplains(db: Db, ledger: seq<Money>, id: nat)
    requires Inv(db) && id < |db.items| && db.ledger <= ledger
    ensures db.items[id].status in {Paid, Cancelled, Failed} ==> HasKind(ledger, id, ReserveRelease)
    ensures db.items[id].status == Paid ==> HasKind(ledger, id, WithdrawalPaid)
  {
    assert Follows(db.ledger, id, db.items[id]);
    if db.items[id].status in {Paid, Cancelled, Failed} {
      CountedRowExists(db.ledger, id, ReserveRelease);
      var k :| 0 <= k < |db.ledger| && db.ledger[k].withdrawal == Some(id) && db.ledger[k].kind == ReserveRelease;
      assert ledger[k] == db.ledger[k];
    }
    if db.items[id].status == Paid {
      CountedRowExists(db.ledger, id, WithdrawalPaid);
      var k :| 0 <= k < |db.ledger| && db.ledger[k].withdrawal == Some(id) && db.ledger[k].kind == WithdrawalPaid;
      assert ledger[k] == db.ledger[k];
    }
  }

  /** `PayoutPollingService::poll`, given what the provider answers; `None` is a thrown query. */
  function PollOf(db: Db, id: nat, answer: Option<PayoutResult>): (Db, PollAnswer) {
    if id >= |db.items| then (db, Unknown)
    else
      var item := db.items[id];
      if item.reference.None? || item.status !in {Sent, Pending} then (db, Known(item.status))
      else if answer.None? then (db, QueryFailed)
      else match ApplyResult(db, id, answer.value, Some("poll:" + item.reference.value))
        case Done(after, status) => (after, if status.Some? then Known(status.value) else Unknown)
        case Thrown(_) => (db, QueryFailed)
  }

  /** Polling a known withdrawal answers its status, or that the query failed; never UNKNOWN. */
  lemma PollAnswers(db: Db, id: nat, answer: Option<PayoutResult>)
    requires Inv(db) && id < |db.items|
    ensures var (after, status) := PollOf(db, id, answer);
            && |after.items| == |db.items| && Inv(after)
            && (status == QueryFailed <==> answer.None? && db.items[id].reference.Some? && db.items[id].status in {Sent, Pending})
            && (status == QueryFailed || status == Known(after.items[id].status))
  {
    var item := db.items[id];
    if item.reference.Some? && item.status in {Sent, Pending} && answer.Some? {
      ResultIsOneChange(db, id, answer.value, Some("poll:" + item.reference.value));
      OneChangeKeepsInv(db, PollOf(db, id, answer).0, id);
    }
  }

  // ---- Requests -------------------------------------------------------------------------

  /** Retrying a request with its key, at any later point of every run and whatever happened to the
      withdrawal since, returns the first withdrawal and reserves nothing more. */
  lemma RetriedRequestIsNoOp(c: Config, trace: seq<System>, steps: seq<Step>, i: nat, j: nat, s: Submission, retry: Submission)
    requires Run(c, trace, steps) && trace[0] == Start && i < j < |trace|
    requires steps[i] == RequestStep(s) && Request(trace[i].db, c, s).Done?
    requires retry == s.(now := retry.now)
    ensures Request(trace[j].db, c, retry) == Done(trace[j].db, Request(trace[i].db, c, s).value)
  {
    Reachable(c, trace, steps, i);
    Reachable(c, trace, steps, i + 1);
    RunAdvances(c, trace, steps, i + 1, j);
  }

  // ---- Initiating a cancelled withdrawal ------------------------------------------------

  /** Statuses from which CANCELLED can no longer be reached. */
  predicate PastCancelling(s: Status) {
    s in {Sent, Pending, Paid, Failed}
  }

  ghost predicate SeenOk(seen: Status, now: Status) {
    (seen == Cancelled ==> now == Cancelled) && (PastCancelling(seen) ==> PastCancelling(now)) && (seen == Approved || seen == Cancelled || PastCancelling(seen))
  }

  ghost predicate JobOk(s: System, job: Job) {
    && job.id < |s.db.items| && Rank(s.db.items[job.id].status) >= Rank(Approved)
    && var now := s.db.items[job.id].status;
       match job.phase
       case Fetched(seen) => SeenOk(seen, now)
       case Ready(seen) => SeenOk(seen, now) && (seen == Approved ==> PastCancelling(now))
       case Returned(seen, _) => SeenOk(seen, now) && (seen == Approved ==> PastCancelling(now))
       case _ => true
  }

  ghost predicate InitiationOk(i: Initiation) {
    (i.actual == Cancelled <==> i.seen == Cancelled) && Rank(i.actual) > Rank(Approved)
  }

  ghost predicate JobsOk(s: System) {
    && Inv(s.db)
    && (forall j :: 0 <= j < |s.jobs| ==> JobOk(s, s.jobs[j]))
    && (forall k :: 0 <= k < |s.initiations| ==> InitiationOk(s.initiations[k]))
  }

  lemma JobStays(before: System, after: System, job: Job)
    requires JobOk(before, job) && Inv(before.db) && Advances(before.db, after.db)
    ensures JobOk(after, job)
  {
    assert Follows(before.db.ledger, job.id, before.db.items[job.id]);
  }

  /** How a job can change: it reads the status, passes SENT, gets an answer, or is over. */
  lemma JobPhases(s: System, c: Config, step: Step, s': System, j: nat)
    requires Enabled(s, c, step) && s' == Next(s, c, step) && j < |s.jobs| && s'.jobs[j] != s.jobs[j]
    ensures s'.jobs[j].id == s.jobs[j].id
    ensures match s'.jobs[j].phase
            case Fetched(seen) => s.jobs[j].id < |s.db.items| && s'.db == s.db && seen == s.db.items[s.jobs[j].id].status
            case Ready(seen) => s.jobs[j].phase == Fetched(seen) && (seen == Approved ==>
                s.jobs[j].id < |s.db.items| && |s'.db.items| == |s.db.items| && s'.db.items[s.jobs[j].id].status == Sent)
            case Returned(seen, _) => s.jobs[j].phase == Ready(seen) && s'.db == s.db
            case Claimed => false
            case _ => true
  {
  }

  /** The step that touches a job leaves it in order. */
  lemma JobMoves(s: System, c: Config, step: Step, s': System, j: nat)
    requires JobsOk(s) && Enabled(s, c, step) && s' == Next(s, c, step) && j < |s.jobs| && s'.jobs[j] != s.jobs[j]
    requires Advances(s.db, s'.db)
    ensures JobOk(s', s'.jobs[j])
  {
    hide Next, Enabled;
    assert JobOk(s, s.jobs[j]);
    assert Follows(s.db.ledger, s.jobs[j].id, s.db.items[s.jobs[j].id]);
    JobPhases(s, c, step, s', j);
    JobStays(s, s', s.jobs[j]);
  }

  lemma JobsAfter(s: System, c: Config, step: Step)
    requires Enabled(s, c, step)
    ensures |s.jobs| <= |Next(s, c, step).jobs|
    ensures forall j :: |s.jobs| <= j < |Next(s, c, step).jobs| ==>
              var job := Next(s, c, step).jobs[j];
              job.phase == Claimed && job.id < |s.db.items| && s.db.items[job.id].status in {Approved, Sent}
  {
  }

  lemma StepKeepsInitiations(s: System, c: Config, step: Step)
    requires JobsOk(s) && Enabled(s, c, step)
    ensures forall k :: 0 <= k < |Next(s, c, step).initiations| ==> InitiationOk(Next(s, c, step).initiations[k])
  {
    if step.InitiateStep? {
      assert JobOk(s, s.jobs[step.job]);
      assert Follows(s.db.ledger, s.jobs[step.job].id, s.db.items[s.jobs[step.job].id]);
    }
  }

  lemma StepKeepsJobs(s: System, c: Config, step: Step, s': System)
    requires JobsOk(s) && Enabled(s, c, step) && s' == Next(s, c, step)
    ensures JobsOk(s')
  {
    hide Next, Enabled;
    StepPerforms(s, c, step);
    EffectKeepsInv(c, s.db, s'.db, EffectOf(s, c, step));
    EffectAdvances(c, s.db, s'.db, EffectOf(s, c, step));
    JobsAfter(s, c, step);
    StepKeepsInitiations(s, c, step);
    forall j | 0 <= j < |s'.jobs| ensures JobOk(s', s'.jobs[j]) {
      if j < |s.jobs| {
        if s'.jobs[j] == s.jobs[j] {
          JobStays(s, s', s.jobs[j]);
        } else {
          JobMoves(s, c, step, s', j);
        }
      }
    }
  }

  lemma {:induction false} RunKeepsJobs(c: Config, trace: seq<System>, steps: seq<Step>, i: nat)
    requires Run(c, trace, steps) && trace[0] == Start && i < |trace|
    ensures JobsOk(trace[i])
  {
    if i > 0 {
      RunKeepsJobs(c, trace, steps, i - 1);
      StepKeepsJobs(trace[i - 1], c, steps[i - 1], trace[i]);
    }
  }

  /** A cancelled withdrawal is sent to the provider exactly when `process` had already read
      CANCELLED at its first line; a worker that read APPROVED or SENT never does it. */
  lemma CancelledIsInitiatedExactlyWhenReadCancelled(c: Config, trace: seq<System>, steps: seq<Step>, i: nat, k: nat)
    requires Run(c, trace, steps) && trace[0] == Start && i < |trace| && k < |trace[i].initiations|
    ensures trace[i].initiations[k].actual == Cancelled <==> trace[i].initiations[k].seen == Cancelled
    ensures trace[i].initiations[k].actual !in {Requested, Verifying, Approved}
  {
    RunKeepsJobs(c, trace, steps, i);
    assert InitiationOk(trace[i].initiations[k]);
  }

  // ---- It does happen -------------------------------------------------------------------

  const OWNER := Owner("USER", "u")
  const DEMO_KEY := "0123456789abcdef"

  lemma RunThenStep(c: Config, trace: seq<System>, steps: seq<Step>, step: Step)
    returns (trace': seq<System>, steps': seq<Step>, s': System)
    requires Run(c, trace, steps) && trace[0] == Start && Enabled(trace[|steps|], c, step)
    ensures s' == Next(trace[|steps|], c, step)
    ensures Run(c, trace', steps') && trace'[0] == Start && |steps'| == |steps| + 1 && trace'[|steps'|] == s'
  {
    s' := Next(trace[|steps|], c, step);
    trace', steps' := trace + [s'], steps + [step];
  }

  /** One withdrawal of OWNER in the given status, not claimed yet. */
  ghost predicate Single(s: System, status: Status) {
    && |s.db.items| == 1 && s.db.items[0].owner == OWNER && s.db.items[0].status == status
    && s.db.items[0].availableAt == Some(0) && s.db.items[0].claimedUntil == None
    && s.jobs == [] && s.initiations == []
  }

  lemma ReachRequested(c: Config) returns (trace: seq<System>, steps: seq<Step>)
    requires c.minimum <= c.maximum && "XOF" in c.currencies
    ensures Run(c, trace, steps) && trace[0] == Start && Single(trace[|steps|], Requested)
  {
    var s: System;
    trace, steps, s := RunThenStep(c, [Start], [], ExternalStep(OWNER, "XOF", c.minimum, Payment));
    SumAppend([], s.db.ledger[0], Signed(OWNER, "XOF"));
    assert s.db.ledger == [] + [s.db.ledger[0]];
    assert Upper("XOF") == "XOF";
    trace, steps, s := RunThenStep(c, trace, steps, RequestStep(Submission(OWNER, "a", true, "XOF", c.minimum, "p", DEMO_KEY, 0)));
  }

  lemma ReachApproved(c: Config) returns (trace: seq<System>, steps: seq<Step>)
    requires c.minimum <= c.maximum && "XOF" in c.currencies
    ensures Run(c, trace, steps) && trace[0] == Start && Single(trace[|steps|], Approved)
  {
    var s: System;
    trace, steps := ReachRequested(c);
    trace, steps, s := RunThenStep(c, trace, steps, AdminStep(0, Verifying, true, 0));
    assert Single(s, Verifying);
    trace, steps, s := RunThenStep(c, trace, steps, AdminStep(0, Approved, true, 0));
  }

  lemma ReachCancelled(c: Config) returns (trace: seq<System>, steps: seq<Step>)
    requires c.minimum <= c.maximum && "XOF" in c.currencies
    ensures Run(c, trace, steps) && trace[0] == Start
    ensures var s := trace[|steps|];
            s.jobs == [Job(0, Claimed)] && |s.db.items| == 1 && s.db.items[0].status == Cancelled && s.initiations == []
  {
    var s: System;
    trace, steps := ReachApproved(c);
    trace, steps, s := RunThenStep(c, trace, steps, ClaimStep([0], 25, 0));
    assert s.jobs == [Job(0, Claimed)] && s.db.items[0].status == Approved && s.db.items[0].owner == OWNER;
    trace, steps, s := RunThenStep(c, trace, steps, CancelStep(OWNER, 0));
  }

  /** Claimed while APPROVED, cancelled by its owner before `process` reads it: the provider is
      asked to pay a withdrawal whose reserve has been released. */
  lemma CancelledCanBeInitiated(c: Config)
    requires c.minimum <= c.maximum && "XOF" in c.currencies
    ensures exists trace: seq<System>, steps: seq<Step> ::
              && Run(c, trace, steps) && trace[0] == Start
              && trace[|steps|].initiations == [Initiation(0, Cancelled, Cancelled)]
  {
    var s: System;
    var trace, steps := ReachCancelled(c);
    trace, steps, s := RunThenStep(c, trace, steps, FetchStep(0));
    assert s.jobs == [Job(0, Fetched(Cancelled))];
    trace, steps, s := RunThenStep(c, trace, steps, PrepareStep(0, true));
    assert s.jobs == [Job(0, Ready(Cancelled))];
    trace, steps, s := RunThenStep(c, trace, steps, InitiateStep(0, true, None));
  }

  // ---- Attempts -----------------------------------------------------------------------

  predicate Open(s: System, id: nat) {
    exists j :: 0 <= j < |s.jobs| && s.jobs[j].id == id && s.jobs[j].phase != Finished
  }

  /** No worker dies, and a withdrawal is claimed again only after its last `process` ended. */
  predicate Disciplined(s: System, step: Step) {
    match step
    case CrashStep(_) => false
    case ClaimStep(ids, _, _) => forall i :: 0 <= i < |ids| ==> !Open(s, ids[i])
    case _ => true
  }

  function Limit(c: Config): int {
    Max(1, c.maxAttempts)
  }

  ghost predicate AttemptsOk(s: System, c: Config, id: nat)
    requires id < |s.db.items|
  {
    var item := s.db.items[id];
    && 0 <= item.attempts <= Limit(c)
    && (item.status in {Requested, Verifying} ==> item.attempts == 0)
    && (item.status in {Approved, Sent} && !Open(s, id) ==> item.attempts < Limit(c))
  }

  /** A worker step that ends a job leaves its withdrawal either with attempts to spare or out
      of the worker's reach. */
  lemma JobEndsWell(s: System, c: Config, step: Step, j: nat)
    requires JobsOk(s) && Enabled(s, c, step) && (step == StoreStep(j) || (step.FailStep? && step.job == j))
    requires Next(s, c, step).jobs[j].phase == Finished
    ensures var item := Next(s, c, step).db.items[s.jobs[j].id];
            item.status in {Approved, Sent} ==> item.attempts < Limit(c)
  {
    var id := s.jobs[j].id;
    assert JobOk(s, s.jobs[j]);
    match step
    case StoreStep(_) => ResultIsOneChange(s.db, id, s.jobs[j].phase.result, None);
    case FailStep(_, code, at) => FailureIsOneChange(s.db, c, id, code, at);
  }

  /** Without a crash, only those two worker steps end a job. */
  lemma OnlyWorkersEndJobs(s: System, c: Config, step: Step, j: nat)
    requires Enabled(s, c, step) && Disciplined(s, step) && j < |s.jobs| && s.jobs[j].phase != Finished
    ensures |s.jobs| <= |Next(s, c, step).jobs| && Next(s, c, step).jobs[j].id == s.jobs[j].id
    ensures Next(s, c, step).jobs[j].phase == Finished ==> step == StoreStep(j) || (step.FailStep? && step.job == j)
  {
  }

  /** Attempts change only through a claim, and a closed withdrawal stays closed otherwise. */
  lemma StepWithoutClaim(s: System, c: Config, step: Step, id: nat)
    requires Inv(s.db) && Enabled(s, c, step) && id < |s.db.items| && !(step.ClaimStep? && id in step.ids)
    ensures var after := Next(s, c, step).db;
            && id < |after.items| && after.items[id].attempts == s.db.items[id].attempts
            && Later(s.db.items[id].status, after.items[id].status)
  {
    StepPerforms(s, c, step);
    EffectAdvances(c, s.db, Next(s, c, step).db, EffectOf(s, c, step));
  }

  lemma StepKeepsAttempts(s: System, c: Config, step: Step, s': System, id: nat)
    requires JobsOk(s) && Enabled(s, c, step) && Disciplined(s, step) && s' == Next(s, c, step)
    requires id < |s.db.items| && AttemptsOk(s, c, id)
    ensures id < |s'.db.items| && AttemptsOk(s', c, id)
  {
    if step.ClaimStep? && id in step.ids {
      var i :| 0 <= i < |step.ids| && step.ids[i] == id;
      assert s'.jobs[|s.jobs| + i] == Job(id, Claimed);
    } else {
      StepWithoutClaim(s, c, step, id);
      if Open(s, id) && !Open(s', id) {
        var j :| 0 <= j < |s.jobs| && s.jobs[j].id == id && s.jobs[j].phase != Finished;
        OnlyWorkersEndJobs(s, c, step, j);
        JobEndsWell(s, c, step, j);
      }
    }
  }

  lemma NewWithdrawalsAreFresh(s: System, c: Config, step: Step, s': System, id: nat)
    requires JobsOk(s) && Enabled(s, c, step) && s' == Next(s, c, step) && |s.db.items| <= id < |s'.db.items|
    ensures AttemptsOk(s', c, id)
  {
    StepPerforms(s, c, step);
  }

  ghost predicate AllAttemptsOk(s: System, c: Config) {
    JobsOk(s) && forall id :: 0 <= id < |s.db.items| ==> AttemptsOk(s, c, id)
  }

  lemma StepKeepsAllAttempts(s: System, c: Config, step: Step, s': System)
    requires AllAttemptsOk(s, c) && Enabled(s, c, step) && Disciplined(s, step) && s' == Next(s, c, step)
    ensures AllAttemptsOk(s', c)
  {
    hide Next, Disciplined, Enabled, AttemptsOk, JobsOk;
    StepKeepsJobs(s, c, step, s');
    forall id | 0 <= id < |s'.db.items| ensures AttemptsOk(s', c, id) {
      if id < |s.db.items| {
        StepKeepsAttempts(s, c, step, s', id);
      } else {
        NewWithdrawalsAreFresh(s, c, step, s', id);
      }
    }
  }

  lemma {:induction false} RunKeepsAttempts(c: Config, trace: seq<System>, steps: seq<Step>, i: nat)
    requires Run(c, trace, steps) && trace[0] == Start && i < |trace|
    requires forall k :: 0 <= k < |steps| ==> Disciplined(trace[k], steps[k])
    ensures AllAttemptsOk(trace[i], c)
  {
    hide Next, Enabled, Disciplined;
    if i == 0 {
      assert trace[0].jobs == [] && trace[0].initiations == [];
    } else {
      hide AllAttemptsOk;
      RunKeepsAttempts(c, trace, steps, i - 1);
      StepKeepsAllAttempts(trace[i - 1], c, steps[i - 1], trace[i]);
    }
  }

  function CountOf(id: nat): nat -> int {
    (claimed: nat) => if claimed == id then 1 else 0
  }

  function AttemptsOf(db: Db, id: nat): int {
    if id < |db.items| then db.items[id].attempts else 0
  }

  lemma OnlyClaimsClaim(s: System, c: Config, step: Step)
    requires Enabled(s, c, step)
    ensures Next(s, c, step).claims == if step.ClaimStep? then s.claims + step.ids else s.claims
  {
  }

  lemma StepCountsClaims(s: System, c: Config, step: Step, s': System, id: nat)
    requires Inv(s.db) && Enabled(s, c, step) && s' == Next(s, c, step)
    requires SumBy(s.claims, CountOf(id)) == AttemptsOf(s.db, id)
    ensures SumBy(s'.claims, CountOf(id)) == AttemptsOf(s'.db, id)
  {
    OnlyClaimsClaim(s, c, step);
    if step.ClaimStep? {
      SumConcat(s.claims, step.ids, CountOf(id));
      CountDistinct(step.ids, id);
    } else if id < |s.db.items| {
      hide Next;
      StepWithoutClaim(s, c, step, id);
    } else {
      NewWithdrawalsAreUnclaimed(s, c, step, id);
    }
  }

  lemma NewWithdrawalsAreUnclaimed(s: System, c: Config, step: Step, id: nat)
    requires Inv(s.db) && Enabled(s, c, step) && id >= |s.db.items|
    ensures AttemptsOf(Next(s, c, step).db, id) == 0
  {
    StepPerforms(s, c, step);
  }

  /** `attempts` counts the claims of the whole run. */
  lemma {:induction false} AttemptsCountClaims(c: Config, trace: seq<System>, steps: seq<Step>, i: nat, id: nat)
    requires Run(c, trace, steps) && trace[0] == Start && i < |trace|
    ensures SumBy(trace[i].claims, CountOf(id)) == AttemptsOf(trace[i].db, id)
  {
    if i > 0 {
      AttemptsCountClaims(c, trace, steps, i - 1, id);
      Reachable(c, trace, steps, i - 1);
      StepCountsClaims(trace[i - 1], c, steps[i - 1], trace[i], id);
    }
  }

  lemma {:induction false} CountDistinct(ids: seq<nat>, id: nat)
    requires forall i, j :: 0 <= i < j < |ids| ==> ids[i] < ids[j]
    ensures SumBy(ids, CountOf(id)) == if id in ids then 1 else 0
  {
    if ids != [] {
      CountDistinct(ids[..|ids| - 1], id);
    }
  }

  /** When every claim is followed by its `process`, a withdrawal is claimed at most
      `max_attempts` times, and after that it has left APPROVED and SENT. */
  lemma ClaimsAreBounded(c: Config, trace: seq<System>, steps: seq<Step>, i: nat, id: nat)
    requires Run(c, trace, steps) && trace[0] == Start && i < |trace| && id < |trace[i].db.items|
    requires forall k :: 0 <= k < |steps| ==> Disciplined(trace[k], steps[k])
    ensures SumBy(trace[i].claims, CountOf(id)) <= Limit(c)
    ensures SumBy(trace[i].claims, CountOf(id)) == Limit(c) && !Open(trace[i], id) ==> trace[i].db.items[id].status !in {Approved, Sent}
  {
    RunKeepsAttempts(c, trace, steps, i);
    assert AttemptsOk(trace[i], c, id);
    AttemptsCountClaims(c, trace, steps, i, id);
  }
}
