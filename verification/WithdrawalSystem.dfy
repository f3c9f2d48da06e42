/** Owners, administrators, any number of payout workers, callbacks and polls over the same
    tables. A worker's `process` is split at its transactions, so other steps run in between. */
module WithdrawalSystem {
  import opened Common
  import opened Withdrawals
  import opened WithdrawalInvariant

  /** Where one call of `process` stands; `seen` is the status it read first. */
  datatype Phase =
    | Claimed
    | Fetched(seen: Status)
    | Ready(seen: Status)
    | Returned(seen: Status, result: PayoutResult)
    | Broken
    | Finished

  datatype Job = Job(id: nat, phase: Phase)

  /** One call of the provider's `initiate`: the status read at first and the status in the table. */
  datatype Initiation = Initiation(id: nat, seen: Status, actual: Status)

  datatype System = System(db: Db, jobs: seq<Job>, initiations: seq<Initiation>, claims: seq<nat>)

  datatype Step =
    | RequestStep(submission: Submission)
    | CancelStep(owner: Owner, id: nat)
    | AdminStep(id: nat, to: Status, cleared: bool, at: int)
    | ExternalStep(owner: Owner, currency: string, booked: nat, kind: Kind)
    | ClaimStep(ids: seq<nat>, limit: int, at: int)
    | FetchStep(job: nat)
    | PrepareStep(job: nat, providerKnown: bool)
    | InitiateStep(job: nat, accountReadable: bool, answer: Option<PayoutResult>)
    | StoreStep(job: nat)
    | FailStep(job: nat, code: string, at: int)
    | CrashStep(job: nat)
    | CallbackStep(callback: Callback)
    | PollStep(id: nat, result: PayoutResult, polled: string)

  const Start := System(Empty, [], [], [])

  function PhaseOf(s: System, job: nat): Phase {
    if job < |s.jobs| then s.jobs[job].phase else Finished
  }

  predicate Enabled(s: System, c: Config, step: Step) {
    match step
    case RequestStep(_) => true
    case CancelStep(_, _) => true
    case AdminStep(_, to, _, _) => to in {Verifying, Approved}
    case ExternalStep(_, _, _, kind) => kind in {Payment, Refund, AdjustmentCredit}
    case ClaimStep(ids, limit, at) => ClaimQuery(s.db.items, at, limit, ids)
    case FetchStep(j) => PhaseOf(s, j) == Claimed && s.jobs[j].id < |s.db.items|
    case PrepareStep(j, _) => PhaseOf(s, j).Fetched? && s.jobs[j].id < |s.db.items|
    case InitiateStep(j, _, _) => PhaseOf(s, j).Ready? && s.jobs[j].id < |s.db.items|
    case StoreStep(j) => PhaseOf(s, j).Returned?
    case FailStep(j, _, _) => PhaseOf(s, j) == Broken && s.jobs[j].id < |s.db.items|
    case CrashStep(j) => PhaseOf(s, j) != Finished
    case CallbackStep(_) => true
    case PollStep(_, _, _) => true
  }

  function SetPhase(s: System, job: nat, phase: Phase): System
    requires job < |s.jobs|
  {
    s.(jobs := s.jobs[job := s.jobs[job].(phase := phase)])
  }

  function Next(s: System, c: Config, step: Step): System
    requires Enabled(s, c, step)
  {
    match step
    case RequestStep(submission) => s.(db := DbOf(s.db, Request(s.db, c, submission)))
    case CancelStep(owner, id) => s.(db := DbOf(s.db, Cancel(s.db, owner, id)))
    case AdminStep(id, to, cleared, at) => s.(db := DbOf(s.db, AdminTransition(s.db, id, to, cleared, at)))
    case ExternalStep(owner, currency, amount, kind) => s.(db := External(s.db, owner, currency, amount, kind))
    case ClaimStep(ids, _, at) =>
      s.(db := Claim(s.db, ids, at + c.leaseSeconds),
         jobs := s.jobs + seq(|ids|, i requires 0 <= i < |ids| => Job(ids[i], Claimed)),
         claims := s.claims + ids)
    case FetchStep(j) => SetPhase(s, j, Fetched(s.db.items[s.jobs[j].id].status))
    case PrepareStep(j, providerKnown) =>
      var seen := s.jobs[j].phase.seen;
      if !providerKnown then SetPhase(s, j, Broken)
      else if seen != Approved then SetPhase(s, j, Ready(seen))
      else (match MoveTo(s.db, s.jobs[j].id, Sent, None)
            case Thrown(_) => SetPhase(s, j, Broken)
            case Done(after, _) => SetPhase(s, j, Ready(seen)).(db := after))
    case InitiateStep(j, accountReadable, answer) =>
      var seen := s.jobs[j].phase.seen;
      if !accountReadable then SetPhase(s, j, Broken)
      else
        SetPhase(s, j, if answer.Some? then Returned(seen, answer.value) else Broken)
          .(initiations := s.initiations + [Initiation(s.jobs[j].id, seen, s.db.items[s.jobs[j].id].status)])
    case StoreStep(j) =>
      (match ApplyResult(s.db, s.jobs[j].id, s.jobs[j].phase.result, None)
       case Thrown(_) => SetPhase(s, j, Broken)
       case Done(after, _) => SetPhase(s, j, Finished).(db := after))
    case FailStep(j, code, at) => SetPhase(s, j, Finished).(db := DbOf(s.db, RecordFailure(s.db, c, s.jobs[j].id, code, at)))
    case CrashStep(j) => SetPhase(s, j, Finished)
    case CallbackStep(cb) => s.(db := DbOf(s.db, ProcessCallback(s.db, cb)))
    case PollStep(id, result, polled) => s.(db := DbOf(s.db, ApplyResult(s.db, id, result, Some("poll:" + polled))))
  }

  /** `trace[i + 1]` is the system after `steps[i]`, from any starting point. */
  ghost predicate Run(c: Config, trace: seq<System>, steps: seq<Step>) {
    && |trace| == |steps| + 1
    && forall i :: 0 <= i < |steps| ==> Enabled(trace[i], c, steps[i]) && trace[i + 1] == Next(trace[i], c, steps[i])
  }

  // ---- What one step does to the tables ----------------------------------------------

  datatype Effect =
    | Nothing
    | Opened(submission: Submission)
    | Changed(id: nat)
    | Leased(ids: seq<nat>, until: int)
    | Booked(owner: Owner, currency: string, booked: nat, kind: Kind)

  ghost predicate Performs(c: Config, before: Db, after: Db, e: Effect) {
    match e
    case Nothing => after == before
    case Opened(submission) => after == DbOf(before, Request(before, c, submission))
    case Changed(id) => OneChange(before, after, id)
    case Leased(ids, until) => (forall i :: 0 <= i < |ids| ==> ids[i] < |before.items|) && after == Claim(before, ids, until)
    case Booked(owner, currency, amount, kind) => kind in {Payment, Refund, AdjustmentCredit} && after == External(before, owner, currency, amount, kind)
  }

  function EffectOf(s: System, c: Config, step: Step): Effect
    requires Enabled(s, c, step)
  {
    var after := Next(s, c, step).db;
    match step
    case RequestStep(submission) => Opened(submission)
    case ExternalStep(owner, currency, amount, kind) => Booked(owner, currency, amount, kind)
    case ClaimStep(ids, _, at) => Leased(ids, at + c.leaseSeconds)
    case CancelStep(_, id) => if after == s.db then Nothing else Changed(id)
    case AdminStep(id, _, _, _) => if after == s.db then Nothing else Changed(id)
    case CallbackStep(cb) => if after == s.db then Nothing else Changed(cb.withdrawal)
    case PollStep(id, _, _) => if after == s.db then Nothing else Changed(id)
    case PrepareStep(j, _) => if after == s.db then Nothing else Changed(s.jobs[j].id)
    case StoreStep(j) => if after == s.db then Nothing else Changed(s.jobs[j].id)
    case FailStep(j, _, _) => if after == s.db then Nothing else Changed(s.jobs[j].id)
    case _ => Nothing
  }

  predicate WorkerStep(step: Step) {
    step.PrepareStep? || step.StoreStep? || step.FailStep?
  }

  lemma WorkerStepPerforms(s: System, c: Config, step: Step)
    requires Inv(s.db) && Enabled(s, c, step) && WorkerStep(step)
    ensures Performs(c, s.db, Next(s, c, step).db, EffectOf(s, c, step))
  {
    match step
    case PrepareStep(j, _) =>
      if MoveTo(s.db, s.jobs[j].id, Sent, None).Done? {
        SendIsOneChange(s.db, s.jobs[j].id);
      }
    case StoreStep(j) =>
      if s.jobs[j].id < |s.db.items| {
        ResultIsOneChange(s.db, s.jobs[j].id, s.jobs[j].phase.result, None);
      }
    case FailStep(j, code, at) => FailureIsOneChange(s.db, c, s.jobs[j].id, code, at);
  }

  lemma OutsideStepPerforms(s: System, c: Config, step: Step)
    requires Inv(s.db) && Enabled(s, c, step) && OutsideStep(step)
    ensures Performs(c, s.db, Next(s, c, step).db, EffectOf(s, c, step))
  {
    if Next(s, c, step).db != s.db {
      match step
      case CancelStep(owner, id) => CancelIsOneChange(s.db, owner, id);
      case AdminStep(id, to, cleared, at) => AdminIsOneChange(s.db, id, to, cleared, at);
      case CallbackStep(cb) => CallbackIsOneChange(s.db, cb);
      case PollStep(id, result, polled) => ResultIsOneChange(s.db, id, result, Some("poll:" + polled));
    }
  }

  predicate OutsideStep(step: Step) {
    step.CancelStep? || step.AdminStep? || step.CallbackStep? || step.PollStep?
  }

  lemma PlainStepPerforms(s: System, c: Config, step: Step)
    requires Enabled(s, c, step) && !WorkerStep(step) && !OutsideStep(step)
    ensures Performs(c, s.db, Next(s, c, step).db, EffectOf(s, c, step))
  {
    match step
    case RequestStep(submission) =>
    case ExternalStep(owner, currency, amount, kind) =>
    case ClaimStep(ids, limit, at) =>
    case FetchStep(j) =>
    case InitiateStep(j, _, _) =>
    case CrashStep(j) =>
  }

  lemma StepPerforms(s: System, c: Config, step: Step)
    requires Inv(s.db) && Enabled(s, c, step)
    ensures Performs(c, s.db, Next(s, c, step).db, EffectOf(s, c, step))
  {
    if WorkerStep(step) {
      WorkerStepPerforms(s, c, step);
    } else if OutsideStep(step) {
      OutsideStepPerforms(s, c, step);
    } else {
      PlainStepPerforms(s, c, step);
    }
  }

  lemma EffectKeepsInv(c: Config, before: Db, after: Db, e: Effect)
    requires Inv(before) && Performs(c, before, after, e)
    ensures Inv(after)
  {
    match e
    case Nothing =>
    case Opened(submission) => RequestKeepsInv(before, c, submission);
    case Changed(id) => OneChangeKeepsInv(before, after, id);
    case Leased(ids, until) => ClaimKeepsInv(before, ids, until);
    case Booked(owner, currency, amount, kind) => ExternalKeepsInv(before, owner, currency, amount, kind);
  }

  /** Tables only grow, and a status only moves on. */
  ghost predicate Advances(before: Db, after: Db) {
    && |before.items| <= |after.items|
    && (forall id :: 0 <= id < |before.items| ==>
          SameMoney(before.items[id], after.items[id]) && Later(before.items[id].status, after.items[id].status))
    && before.ledger <= after.ledger
    && before.callbacks <= after.callbacks
    && (forall key :: key in before.keys ==> key in after.keys && after.keys[key] == before.keys[key])
  }

  lemma EffectAdvances(c: Config, before: Db, after: Db, e: Effect)
    requires Inv(before) && Performs(c, before, after, e)
    ensures Advances(before, after)
  {
    match e
    case Opened(submission) => OpeningReserves(before, submission);
    case _ =>
  }

  lemma AdvancesNowhere(db: Db)
    ensures Advances(db, db)
  {
  }

  lemma AdvancesOn(a: Db, b: Db, c: Db)
    requires Advances(a, b) && Advances(b, c)
    ensures Advances(a, c)
  {
  }

  lemma StepAdvances(c: Config, s: System, step: Step)
    requires Inv(s.db) && Enabled(s, c, step)
    ensures Inv(Next(s, c, step).db) && Advances(s.db, Next(s, c, step).db)
  {
    StepPerforms(s, c, step);
    hide Inv, Advances, Next, Performs, EffectOf;
    EffectKeepsInv(c, s.db, Next(s, c, step).db, EffectOf(s, c, step));
    EffectAdvances(c, s.db, Next(s, c, step).db, EffectOf(s, c, step));
  }

  lemma {:induction false} RunAdvances(c: Config, trace: seq<System>, steps: seq<Step>, i: nat, j: nat)
    requires Run(c, trace, steps) && i <= j < |trace| && Inv(trace[i].db)
    ensures Inv(trace[j].db) && Advances(trace[i].db, trace[j].db)
  {
    AdvancesNowhere(trace[i].db);
    hide Inv, Advances, Next;
    for n := i to j
      invariant Inv(trace[n].db) && Advances(trace[i].db, trace[n].db)
    {
      StepAdvances(c, trace[n], steps[n]);
      AdvancesOn(trace[i].db, trace[n].db, trace[n + 1].db);
    }
  }

  lemma Reachable(c: Config, trace: seq<System>, steps: seq<Step>, i: nat)
    requires Run(c, trace, steps) && trace[0] == Start && i < |trace|
    ensures Inv(trace[i].db)
  {
    RunAdvances(c, trace, steps, 0, i);
  }

  /** In every reachable state the ledger rows of each withdrawal are the ones its status calls for. */
  lemma {:induction false} LedgerFollowsStatus(c: Config, trace: seq<System>, steps: seq<Step>, i: nat, id: nat)
    requires Run(c, trace, steps) && trace[0] == Start && i < |trace| && id < |trace[i].db.items|
    ensures Rows(trace[i].db.ledger, id, WithdrawalReserve) == 1
    ensures Rows(trace[i].db.ledger, id, ReserveRelease) == if trace[i].db.items[id].status in {Cancelled, Failed, Paid} then 1 else 0
    ensures Rows(trace[i].db.ledger, id, WithdrawalPaid) == if trace[i].db.items[id].status == Paid then 1 else 0
  {
    Reachable(c, trace, steps, i);
    assert Follows(trace[i].db.ledger, id, trace[i].db.items[id]);
  }
}
