/** Retries are bounded and final, leases exclusive, whatever the workers do. */
module OutboxTheorems {
  import opened Common
  import opened Outbox

  /** What the history of effective finishes says about a message. */
  predicate MessageOk(m: Message, outcomes: seq<bool>) {
    && m.attempts == |outcomes| <= MAX_ATTEMPTS
    && (forall i :: 0 <= i < |outcomes| - 1 ==> !outcomes[i])
    && (m.status.Sent? <==> outcomes != [] && outcomes[|outcomes| - 1])
    && (m.status.Dead? <==> |outcomes| == MAX_ATTEMPTS && !outcomes[MAX_ATTEMPTS - 1])
    && (m.leaseUntil.Some? <==> m.status.Processing?)
  }

  ghost predicate Inv(s: System) {
    && |s.outcomes| == |s.outbox|
    && (forall i :: 0 <= i < |s.outbox| ==> MessageOk(s.outbox[i], s.outcomes[i]))
    && (forall w, i :: 0 <= w < |s.workers| && i in s.workers[w] ==> i < |s.outbox|)
  }

  lemma LeaseKeepsMessages(s: System, batch: seq<nat>, asked: int, stamped: int)
    requires Inv(s) && forall i :: i in batch ==> i < |s.outbox| && Due(s.outbox[i], asked)
    ensures Inv(System(Lease(s.outbox, batch, stamped), s.workers + [batch], s.outcomes))
  {
    var outbox' := Lease(s.outbox, batch, stamped);
    forall i | 0 <= i < |outbox'| ensures MessageOk(outbox'[i], s.outcomes[i]) {
      assert MessageOk(s.outbox[i], s.outcomes[i]);
    }
  }

  lemma FinishKeepsMessage(m: Message, outcomes: seq<bool>, success: bool, now: int)
    requires MessageOk(m, outcomes)
    ensures MessageOk(Finish(m, success, now), if m.status.Processing? then outcomes + [success] else outcomes)
  {
  }

  lemma StepKeepsInv(s: System, e: Event)
    requires Inv(s)
    ensures Inv(Step(s, e))
  {
    match e
    case Enqueue(now) =>
    case Claim(limit, asked, stamped) => LeaseKeepsMessages(s, Batch(s.outbox, limit, asked), asked, stamped);
    case Deliver(worker, success, now) =>
      if worker < |s.workers| && s.workers[worker] != [] {
        var i := s.workers[worker][0];
        assert i in s.workers[worker];
        FinishKeepsMessage(s.outbox[i], s.outcomes[i], success, now);
        assert forall j :: j in s.workers[worker][1..] ==> j in s.workers[worker];
      }
  }

  /** Histories only grow, and a message that is sent or dead never changes again. */
  ghost predicate Follows(s: System, s': System) {
    && |s.outbox| <= |s'.outbox| && |s.outcomes| == |s.outbox| && |s'.outcomes| == |s'.outbox|
    && forall i :: 0 <= i < |s.outbox| ==> MessageFollows(s, s', i)
  }

  predicate MessageFollows(s: System, s': System, i: nat)
    requires i < |s.outbox| == |s.outcomes| && i < |s'.outbox| == |s'.outcomes|
  {
    && s.outcomes[i] <= s'.outcomes[i]
    && (s.outbox[i].status in {Sent, Dead} ==> s'.outbox[i] == s.outbox[i] && s'.outcomes[i] == s.outcomes[i])
  }

  lemma StepFollows(s: System, e: Event)
    requires Inv(s)
    ensures Follows(s, Step(s, e))
  {
    StepKeepsInv(s, e);
    var s' := Step(s, e);
    forall i | 0 <= i < |s.outbox| ensures MessageFollows(s, s', i) {
      assert MessageOk(s.outbox[i], s.outcomes[i]);
    }
  }

  lemma {:induction false} RunFollows(s: System, events: seq<Event>)
    requires Inv(s)
    ensures Inv(Run(s, events)) && Follows(s, Run(s, events))
    decreases |events|
  {
    if events == [] {
      forall i | 0 <= i < |s.outbox| ensures MessageFollows(s, s, i) {
      }
    } else {
      var s' := Step(s, events[0]);
      StepKeepsInv(s, events[0]);
      StepFollows(s, events[0]);
      RunFollows(s', events[1..]);
      hide Inv, Run, Step;
      var last := Run(s', events[1..]);
      forall i | 0 <= i < |s.outbox| ensures MessageFollows(s, last, i) {
        assert MessageFollows(s, s', i) && MessageFollows(s', last, i);
      }
      assert last == Run(s, events) by {
        RunUnfolds(s, events);
      }
    }
  }

  lemma RunUnfolds(s: System, events: seq<Event>)
    requires events != []
    ensures Run(s, events) == Run(Step(s, events[0]), events[1..])
  {
  }

  /** In every run each message has at most five effective finishes: failures first, and at most
      one success, as the last. It is SENT exactly after that success, DEAD exactly after five
      failures, and holds a lease exactly while PROCESSING. */
  lemma FinishesAreBounded(events: seq<Event>, i: nat)
    requires i < |Run(EMPTY, events).outbox|
    ensures i < |Run(EMPTY, events).outcomes| && MessageOk(Run(EMPTY, events).outbox[i], Run(EMPTY, events).outcomes[i])
  {
    RunFollows(EMPTY, events);
  }

  /** SENT and DEAD are never left, in any continuation of any run. */
  lemma FinalForGood(before: seq<Event>, after: seq<Event>, i: nat)
    requires i < |Run(EMPTY, before).outbox| && Run(EMPTY, before).outbox[i].status in {Sent, Dead}
    ensures i < |Run(Run(EMPTY, before), after).outbox| && Run(Run(EMPTY, before), after).outbox[i] == Run(EMPTY, before).outbox[i]
  {
    RunFollows(EMPTY, before);
    RunFollows(Run(EMPTY, before), after);
    assert MessageFollows(Run(EMPTY, before), Run(Run(EMPTY, before), after), i);
  }

  // ---- Leases and delays ----------------------------------------------------------------------

  lemma {:induction false} DueFromIsComplete(outbox: seq<Message>, now: int, limit: nat, from: nat, i: nat)
    requires from <= i < |outbox| && Due(outbox[i], now)
    ensures i in DueFrom(outbox, now, limit, from) || |DueFrom(outbox, now, limit, from)| == limit
    ensures |DueFrom(outbox, now, limit, from)| == limit && i !in DueFrom(outbox, now, limit, from) ==>
              forall k :: k in DueFrom(outbox, now, limit, from) ==> k < i
    decreases |outbox| - from
  {
    if limit > 0 {
      if Due(outbox[from], now) {
        if i != from {
          DueFromIsComplete(outbox, now, limit - 1, from + 1, i);
        }
      } else {
        DueFromIsComplete(outbox, now, limit, from + 1, i);
      }
    }
  }

  /** A claim takes a due message unless the batch is full of earlier due messages. */
  lemma ClaimTakesOldestDue(outbox: seq<Message>, limit: int, now: int, i: nat)
    requires i < |outbox| && Due(outbox[i], now)
    ensures i in Batch(outbox, limit, now) ||
              (|Batch(outbox, limit, now)| == BatchLimit(limit) && forall k :: k in Batch(outbox, limit, now) ==> k < i)
  {
    DueFromIsComplete(outbox, now, BatchLimit(limit), 0, i);
  }

  /** Every claim of the run asks before `instant`. */
  predicate ClaimsBefore(events: seq<Event>, instant: int) {
    forall k :: 0 <= k < |events| ==> (events[k].Claim? ==> events[k].asked < instant)
  }

  lemma LeaseLasts(s: System, e: Event, i: nat)
    requires Inv(s) && i < |s.outbox| && s.outbox[i].status.Processing?
    requires e.Claim? ==> e.asked < s.outbox[i].leaseUntil.value
    ensures i < |Step(s, e).outbox|
    ensures Step(s, e).outbox[i] == s.outbox[i] || s.outcomes[i] < Step(s, e).outcomes[i]
  {
    StepKeepsInv(s, e);
    assert MessageOk(s.outbox[i], s.outcomes[i]);
    if e.Claim? {
      var batch := Batch(s.outbox, e.limit, e.asked);
      assert i !in batch;
    }
  }

  /** However the workers interleave, a leased message stays as it is, and in no other batch, until
      its lease runs out or some finish takes effect on it. */
  lemma {:induction false} LeaseExcludesOthers(s: System, events: seq<Event>, i: nat, limit: int, asked: int)
    requires Inv(s) && i < |s.outbox| && s.outbox[i].status.Processing?
    requires ClaimsBefore(events, s.outbox[i].leaseUntil.value) && asked < s.outbox[i].leaseUntil.value
    ensures var s' := Run(s, events);
            && i < |s'.outbox| && i < |s'.outcomes|
            && (s'.outcomes[i] == s.outcomes[i] ==> s'.outbox[i] == s.outbox[i] && i !in Batch(s'.outbox, limit, asked))
    decreases |events|
  {
    RunFollows(s, events);
    if events != [] {
      var next := Step(s, events[0]);
      LeaseLasts(s, events[0], i);
      StepKeepsInv(s, events[0]);
      RunFollows(next, events[1..]);
      assert MessageFollows(next, Run(next, events[1..]), i);
      if next.outbox[i] == s.outbox[i] {
        StepFollows(s, events[0]);
        assert MessageFollows(s, next, i);
        LeaseExcludesOthers(next, events[1..], i, limit, asked);
      }
    }
  }

  /** A claim takes messages that are due, waiting or left by a worker whose lease ran out, at least one
      and at most a hundred of those asked for, leases each for sixty seconds and changes nothing else. */
  lemma ClaimLeasesForAMinute(s: System, limit: int, asked: int, stamped: int, i: nat)
    requires i < |s.outbox|
    ensures var after := Step(s, Claim(limit, asked, stamped));
            var before := s.outbox[i];
            var due := before.availableAt <= asked
                       && (before.status == Pending || (before.status == Processing && before.leaseUntil.Some? && before.leaseUntil.value <= asked));
            var size := if limit < 1 then 1 else if limit > 100 then 100 else limit;
            && |after.outbox| == |s.outbox| && |after.workers| == |s.workers| + 1 && after.outcomes == s.outcomes
            && var batch := after.workers[|s.workers|];
               && |batch| <= size
               && after.outbox[i] == (if i in batch then before.(status := Processing, leaseUntil := Some(stamped + 60000)) else before)
               && (i in batch ==> due) && (due && i !in batch ==> |batch| == size && forall k :: k in batch ==> k < i)
  {
    var batch := Batch(s.outbox, limit, asked);
    if Due(s.outbox[i], asked) {
      ClaimTakesOldestDue(s.outbox, limit, asked, i);
    }
  }

  /** For sixty seconds after its claim no other claim takes the message, unless some finish takes
      effect on it. */
  lemma NoSecondClaimForAMinute(s: System, limit: int, asked: int, stamped: int, i: nat, events: seq<Event>, limit': int, asked': int)
    requires Inv(s) && i < |s.outbox| && i in Batch(s.outbox, limit, asked)
    requires ClaimsBefore(events, stamped + 60000) && asked' < stamped + 60000
    ensures var claimed := Step(s, Claim(limit, asked, stamped));
            var s' := Run(claimed, events);
            && i < |claimed.outcomes| && i < |s'.outbox| == |s'.outcomes|
            && (s'.outcomes[i] == claimed.outcomes[i] ==> i !in Batch(s'.outbox, limit', asked'))
  {
    var claimed := Step(s, Claim(limit, asked, stamped));
    StepKeepsInv(s, Claim(limit, asked, stamped));
    ClaimLeasesForAMinute(s, limit, asked, stamped, i);
    LeaseExcludesOthers(claimed, events, i, limit', asked');
    RunFollows(claimed, events);
  }

  /** A delivery takes the next message off its worker's list, finishes that one and nothing else. */
  lemma DeliveryTakesNext(s: System, worker: nat, success: bool, now: int)
    requires Inv(s) && worker < |s.workers| && s.workers[worker] != []
    ensures var i, after := s.workers[worker][0], Step(s, Deliver(worker, success, now));
            && i < |s.outbox| && after.workers == s.workers[worker := s.workers[worker][1..]]
            && after.outbox == s.outbox[i := Finish(s.outbox[i], success, now)]
            && (forall k :: 0 <= k < |s.outcomes| && k != i ==> after.outcomes[k] == s.outcomes[k])
            && after.outcomes[i] == s.outcomes[i] + if s.outbox[i].status == Processing then [success] else []
  {
    assert s.workers[worker][0] in s.workers[worker];
  }

  /** A new message waits at the end of the list, is due at once and is not before. */
  lemma EnqueuedIsDueAtOnce(s: System, now: int, asked: int)
    requires Inv(s)
    ensures var after := Step(s, Enqueue(now));
            && after.outbox[..|s.outbox|] == s.outbox && |after.outbox| == |s.outbox| + 1
            && after.outbox[|s.outbox|].status == Pending && after.outbox[|s.outbox|].attempts == 0
            && (Due(after.outbox[|s.outbox|], asked) <==> now <= asked)
  {
  }

  /** After a failed delivery a message waits 30, 60, 120 or 240 seconds before the next claim. */
  lemma FailureDelaysNextClaim(m: Message, outcomes: seq<bool>, now: int, later: int)
    requires MessageOk(m, outcomes) && m.status.Processing?
    ensures var failed := Finish(m, false, now);
            if m.attempts == 4 then failed.status == Dead && !Due(failed, later)
            else Due(failed, later) <==> now + 1000 * [30, 60, 120, 240][m.attempts] <= later
  {
    assert Power(1) == 2 && Power(2) == 4 && Power(3) == 8 && Power(4) == 16;
  }

  // ---- A run with no other worker around --------------------------------------------------------

  /** The finishes of one run, in order. */
  function FinishAll(outbox: seq<Message>, batch: seq<nat>, results: seq<bool>, nows: seq<int>): (r: seq<Message>)
    requires |results| == |batch| == |nows| && Within(batch, |outbox|)
    ensures |r| == |outbox|
    decreases |batch|
  {
    if batch == [] then outbox
    else
      var last := |batch| - 1;
      var before := FinishAll(outbox, batch[..last], results[..last], nows[..last]);
      before[batch[last] := Finish(before[batch[last]], results[last], nows[last])]
  }

  predicate Increasing(batch: seq<nat>) {
    forall j, k :: 0 <= j < k < |batch| ==> batch[j] < batch[k]
  }

  predicate Within(batch: seq<nat>, n: nat) {
    forall k :: 0 <= k < |batch| ==> batch[k] < n
  }

  lemma IncreasingPrepend(i: nat, rest: seq<nat>)
    requires Increasing(rest) && forall k :: k in rest ==> i < k
    ensures Increasing([i] + rest)
  {
    assert forall k :: 0 <= k < |rest| ==> rest[k] in rest;
  }

  lemma {:induction false} DueFromIncreases(outbox: seq<Message>, now: int, limit: nat, from: nat)
    requires from <= |outbox|
    ensures Increasing(DueFrom(outbox, now, limit, from))
    decreases |outbox| - from
  {
    if from < |outbox| && limit > 0 {
      if Due(outbox[from], now) {
        DueFromIncreases(outbox, now, limit - 1, from + 1);
        IncreasingPrepend(from, DueFrom(outbox, now, limit - 1, from + 1));
      } else {
        DueFromIncreases(outbox, now, limit, from + 1);
      }
    }
  }

  lemma BatchIsIncreasing(outbox: seq<Message>, limit: int, now: int)
    ensures Increasing(Batch(outbox, limit, now)) && Within(Batch(outbox, limit, now), |outbox|)
  {
    DueFromIncreases(outbox, now, BatchLimit(limit), 0);
    var batch := Batch(outbox, limit, now);
    assert forall k :: 0 <= k < |batch| ==> batch[k] in batch;
  }

  lemma {:induction false} FinishAllAt(outbox: seq<Message>, batch: seq<nat>, results: seq<bool>, nows: seq<int>, i: nat)
    requires |results| == |batch| == |nows| && Within(batch, |outbox|) && Increasing(batch) && i < |outbox|
    ensures i !in batch ==> FinishAll(outbox, batch, results, nows)[i] == outbox[i]
    ensures forall k :: 0 <= k < |batch| && batch[k] == i ==> FinishAll(outbox, batch, results, nows)[i] == Finish(outbox[i], results[k], nows[k])
    decreases |batch|
  {
    if batch != [] {
      var last := |batch| - 1;
      assert batch[last] !in batch[..last];
      FinishAllAt(outbox, batch[..last], results[..last], nows[..last], i);
      FinishAllAt(outbox, batch[..last], results[..last], nows[..last], batch[last]);
    }
  }

  /** A run on its own settles every claimed message by the result of its delivery, and touches
      no other. */
  lemma LoneRunSettlesBatch(outbox: seq<Message>, limit: int, asked: int, stamped: int, results: seq<bool>, nows: seq<int>, k: nat)
    requires |results| == |nows| == |Batch(outbox, limit, asked)| && k < |outbox|
    ensures var batch := Batch(outbox, limit, asked);
            && Within(batch, |outbox|)
            && var after := FinishAll(Lease(outbox, batch, stamped), batch, results, nows);
            && (k !in batch ==> after[k] == outbox[k])
            && forall j :: 0 <= j < |batch| && batch[j] == k ==>
                 && after[k].attempts == outbox[k].attempts + 1 && after[k].leaseUntil == None
                 && (after[k].status == Sent <==> results[j]) && after[k].status != Processing
  {
    var batch := Batch(outbox, limit, asked);
    BatchIsIncreasing(outbox, limit, asked);
    assert forall j :: 0 <= j < |batch| ==> batch[j] in batch;
    FinishAllAt(Lease(outbox, batch, stamped), batch, results, nows, k);
  }
}
