/** The transactional outbox: leases, retries and any number of interleaved workers. Instants
    are milliseconds; a message is named by its place in the list, which only grows. */
module Outbox {
  import opened Common

  datatype Status = Pending | Processing | Sent | Dead

  datatype Message = Message(status: Status, attempts: nat, availableAt: int, leaseUntil: Option<int>)

  const LEASE := 60000
  const MAX_ATTEMPTS := 5

  /** The filter of `runOnce`. */
  predicate Due(m: Message, now: int) {
    && (m.status.Pending? || (m.status.Processing? && m.leaseUntil.Some? && m.leaseUntil.value <= now))
    && m.availableAt <= now
  }

  /** `slice(0, limit)` of the due messages, from place `from` on. */
  function DueFrom(outbox: seq<Message>, now: int, limit: nat, from: nat): (batch: seq<nat>)
    requires from <= |outbox|
    ensures |batch| <= limit
    ensures forall i :: i in batch ==> from <= i < |outbox| && Due(outbox[i], now)
    decreases |outbox| - from
  {
    if from == |outbox| || limit == 0 then []
    else if Due(outbox[from], now) then [from] + DueFrom(outbox, now, limit - 1, from + 1)
    else DueFrom(outbox, now, limit, from + 1)
  }

  function BatchLimit(limit: int): (n: nat)
    ensures 1 <= n <= 100
  {
    Min(Max(limit, 1), 100)
  }

  function Batch(outbox: seq<Message>, limit: int, now: int): seq<nat> {
    DueFrom(outbox, now, BatchLimit(limit), 0)
  }

  function Lease(outbox: seq<Message>, batch: seq<nat>, stamped: int): (r: seq<Message>)
    ensures |r| == |outbox|
  {
    seq(|outbox|, i requires 0 <= i < |outbox| =>
      if i in batch then outbox[i].(status := Processing, leaseUntil := Some(stamped + LEASE)) else outbox[i])
  }

  function Power(n: nat): nat {
    if n == 0 then 1 else 2 * Power(n - 1)
  }

  /** Seconds to wait after the n-th failure. */
  function Delay(attempts: nat): int {
    Min(3600, Power(attempts) * 15)
  }

  /** `finish`, guarded by the status alone. */
  function Finish(m: Message, success: bool, now: int): Message {
    if !m.status.Processing? then m
    else
      var counted := m.(attempts := m.attempts + 1, leaseUntil := None);
      if success then counted.(status := Sent)
      else if counted.attempts >= MAX_ATTEMPTS then counted.(status := Dead)
      else counted.(status := Pending, availableAt := now + Delay(counted.attempts) * 1000)
  }

  // ---- Interleaved workers --------------------------------------------------------------------

  datatype Event =
    | Enqueue(now: int)
    | Claim(limit: int, asked: int, stamped: int)
    | Deliver(worker: nat, success: bool, now: int)

  /** The outbox, what each run of a worker has still to deliver, and the outcome of every
      finish that took effect, message by message. */
  datatype System = System(outbox: seq<Message>, workers: seq<seq<nat>>, outcomes: seq<seq<bool>>)

  function Step(s: System, e: Event): System {
    match e
    case Enqueue(now) => System(s.outbox + [Message(Pending, 0, now, None)], s.workers, s.outcomes + [[]])
    case Claim(limit, asked, stamped) =>
      var batch := Batch(s.outbox, limit, asked);
      System(Lease(s.outbox, batch, stamped), s.workers + [batch], s.outcomes)
    case Deliver(worker, success, now) =>
      if worker >= |s.workers| || s.workers[worker] == [] then s
      else
        var i := s.workers[worker][0];
        var left := s.(workers := s.workers[worker := s.workers[worker][1..]]);
        if i >= |s.outbox| || i >= |s.outcomes| then left
        else left.(outbox := s.outbox[i := Finish(s.outbox[i], success, now)],
                   outcomes := if s.outbox[i].status.Processing? then s.outcomes[i := s.outcomes[i] + [success]] else s.outcomes)
  }

  function Run(s: System, events: seq<Event>): System
    decreases |events|
  {
    if events == [] then s else Run(Step(s, events[0]), events[1..])
  }

  const EMPTY := System([], [], [])
}
