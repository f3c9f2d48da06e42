/** The outbox worker as an object that updates the message list in place. */
module OutboxTables {
  import opened Common
  import opened Outbox
  import opened OutboxTheorems

  function Successes(results: seq<bool>): nat
    decreases |results|
  {
    if results == [] then 0
    else var last := |results| - 1; Successes(results[..last]) + if results[last] then 1 else 0
  }

  /** What is due from place `i` on completes the batch found so far. */
  ghost predicate FoundTo(outbox: seq<Message>, limit: int, now: int, i: nat, batch: seq<nat>) {
    && i <= |outbox| && |batch| <= BatchLimit(limit)
    && Batch(outbox, limit, now) == batch + DueFrom(outbox, now, BatchLimit(limit) - |batch|, i)
  }

  lemma FoundNone(outbox: seq<Message>, limit: int, now: int)
    ensures FoundTo(outbox, limit, now, 0, [])
  {
  }

  lemma FoundNext(outbox: seq<Message>, limit: int, now: int, i: nat, batch: seq<nat>)
    requires FoundTo(outbox, limit, now, i, batch) && i < |outbox| && |batch| < BatchLimit(limit)
    ensures FoundTo(outbox, limit, now, i + 1, if Due(outbox[i], now) then batch + [i] else batch)
  {
    hide Due, BatchLimit, Batch;
  }

  lemma FoundAll(outbox: seq<Message>, limit: int, now: int, i: nat, batch: seq<nat>)
    requires FoundTo(outbox, limit, now, i, batch) && (i == |outbox| || |batch| == BatchLimit(limit))
    ensures Batch(outbox, limit, now) == batch
  {
    hide Due, BatchLimit, Batch;
  }

  lemma LeaseNothing(outbox: seq<Message>, stamped: int)
    ensures Lease(outbox, [], stamped) == outbox
  {
  }

  lemma LeaseNext(outbox: seq<Message>, batch: seq<nat>, k: nat, stamped: int)
    requires k < |batch| && Within(batch, |outbox|)
    ensures var before := Lease(outbox, batch[..k], stamped);
            Lease(outbox, batch[..k + 1], stamped)
            == before[batch[k] := before[batch[k]].(status := Processing, leaseUntil := Some(stamped + LEASE))]
  {
    assert batch[..k + 1] == batch[..k] + [batch[k]];
  }

  /** The outbox when the first `k` messages of the batch are finished. */
  function FinishedTo(outbox: seq<Message>, batch: seq<nat>, results: seq<bool>, nows: seq<int>, k: nat): (r: seq<Message>)
    requires |results| == |batch| == |nows| && k <= |batch| && Within(batch, |outbox|)
    ensures |r| == |outbox|
  {
    FinishAll(outbox, batch[..k], results[..k], nows[..k])
  }

  lemma FinishedNothing(outbox: seq<Message>, batch: seq<nat>, results: seq<bool>, nows: seq<int>)
    requires |results| == |batch| == |nows| && Within(batch, |outbox|)
    ensures FinishedTo(outbox, batch, results, nows, 0) == outbox && Successes(results[..0]) == 0
  {
    assert batch[..0] == [] && results[..0] == [] && nows[..0] == [];
  }

  lemma FinishAllNext(outbox: seq<Message>, batch: seq<nat>, results: seq<bool>, nows: seq<int>, k: nat)
    requires |results| == |batch| == |nows| && k < |batch| && Within(batch, |outbox|)
    ensures var before := FinishedTo(outbox, batch, results, nows, k);
            FinishedTo(outbox, batch, results, nows, k + 1) == before[batch[k] := Finish(before[batch[k]], results[k], nows[k])]
    ensures Successes(results[..k + 1]) == Successes(results[..k]) + if results[k] then 1 else 0
  {
    assert batch[..k + 1][..k] == batch[..k] && results[..k + 1][..k] == results[..k] && nows[..k + 1][..k] == nows[..k];
  }

  /** `OutboxWorker` over `state.outbox`. */
  class OutboxWorker {
    var outbox: seq<Message>

    constructor ()
      ensures outbox == []
    {
      outbox := [];
    }

    method Put(now: int)
      modifies this
      ensures outbox == old(outbox) + [Message(Pending, 0, now, None)]
    {
      outbox := outbox + [Message(Pending, 0, now, None)];
    }

    method DueMessages(limit: int, asked: int) returns (batch: seq<nat>)
      ensures batch == Batch(outbox, limit, asked)
    {
      var size := BatchLimit(limit);
      batch := [];
      var i := 0;
      FoundNone(outbox, limit, asked);
      while i < |outbox| && |batch| < size
        invariant i <= |outbox| && |batch| <= size && FoundTo(outbox, limit, asked, i, batch)
      {
        hide FoundTo;
        FoundNext(outbox, limit, asked, i, batch);
        if Due(outbox[i], asked) {
          batch := batch + [i];
        }
        i := i + 1;
      }
      FoundAll(outbox, limit, asked, i, batch);
    }

    method ClaimBatch(limit: int, asked: int, stamped: int) returns (batch: seq<nat>)
      modifies this
      ensures batch == Batch(old(outbox), limit, asked) && outbox == Lease(old(outbox), batch, stamped)
    {
      batch := DueMessages(limit, asked);
      BatchIsIncreasing(outbox, limit, asked);
      hide Batch, Lease;
      ghost var before := outbox;
      LeaseNothing(before, stamped);
      assert batch[..0] == [];
      var k := 0;
      while k < |batch|
        invariant k <= |batch| && outbox == Lease(before, batch[..k], stamped)
      {
        LeaseNext(before, batch, k, stamped);
        outbox := outbox[batch[k] := outbox[batch[k]].(status := Processing, leaseUntil := Some(stamped + LEASE))];
        k := k + 1;
      }
      assert batch[..k] == batch;
    }

    method FinishMessage(i: nat, success: bool, now: int)
      modifies this
      ensures outbox == if i < |old(outbox)| then old(outbox)[i := Finish(old(outbox)[i], success, now)] else old(outbox)
    {
      if i >= |outbox| || !outbox[i].status.Processing? {
        return;
      }
      var message := outbox[i].(attempts := outbox[i].attempts + 1, leaseUntil := None);
      if success {
        message := message.(status := Sent);
      } else if message.attempts >= MAX_ATTEMPTS {
        message := message.(status := Dead);
      } else {
        message := message.(status := Pending, availableAt := now + Delay(message.attempts) * 1000);
      }
      outbox := outbox[i := message];
    }

    /** The loop over the claimed messages: deliver, then finish by the result. */
    method FinishBatch(batch: seq<nat>, results: seq<bool>, nows: seq<int>) returns (sent: nat, failed: nat)
      requires |results| == |nows| == |batch| && Within(batch, |outbox|)
      modifies this
      ensures outbox == FinishAll(old(outbox), batch, results, nows)
      ensures sent == Successes(results) && sent + failed == |results|
    {
      ghost var before := outbox;
      FinishedNothing(before, batch, results, nows);
      hide FinishAll, Finish, Successes;
      sent, failed := 0, 0;
      var k := 0;
      while k < |batch|
        invariant k <= |batch| && outbox == FinishedTo(before, batch, results, nows, k)
        invariant sent == Successes(results[..k]) && sent + failed == k
      {
        FinishAllNext(before, batch, results, nows, k);
        FinishMessage(batch[k], results[k], nows[k]);
        if results[k] {
          sent := sent + 1;
        } else {
          failed := failed + 1;
        }
        k := k + 1;
      }
      assert batch[..k] == batch && results[..k] == results && nows[..k] == nows;
    }

    /** `runOnce` undisturbed; `results[k]` says whether the k-th delivery succeeds and `nows[k]`
        when it is finished. */
    method RunOnce(limit: int, asked: int, stamped: int, results: seq<bool>, nows: seq<int>) returns (sent: nat, failed: nat)
      requires |results| == |nows| == |Batch(outbox, limit, asked)|
      modifies this
      ensures var batch := Batch(old(outbox), limit, asked);
              && Within(batch, |old(outbox)|)
              && outbox == FinishAll(Lease(old(outbox), batch, stamped), batch, results, nows)
      ensures sent == Successes(results) && sent + failed == |results|
    {
      BatchIsIncreasing(outbox, limit, asked);
      hide Batch, Lease, FinishAll, Successes;
      var batch := ClaimBatch(limit, asked, stamped);
      sent, failed := FinishBatch(batch, results, nows);
    }
  }
}
