/** The two rate limiters: PHP keeps a counter per window and a block, TypeScript keeps the log
    of recent attempts. Instants are integers; the cache key is an injective hash. */
module RateLimits {
  import opened Common

  // ---- PHP: one counter per scope -----------------------------------------------------------

  datatype Window = Window(attempts: nat, startedAt: int, blockedUntil: Option<int>)

  datatype Verdict = Verdict(record: Option<Window>, allowed: bool)

  /** `assertAllowed`: a block still in the future refuses, a window wholly past is deleted. */
  function AssertAllowed(record: Option<Window>, window: int, now: int): Verdict {
    match record
    case None => Verdict(None, true)
    case Some(w) =>
      if w.blockedUntil.Some? && w.blockedUntil.value > now then Verdict(record, false)
      else if w.startedAt + window < now then Verdict(None, true)
      else Verdict(record, true)
  }

  /** `hit`: the first hit of a window never blocks, whatever the limit. */
  function Hit(record: Option<Window>, limit: int, window: int, now: int): Window {
    if record.None? || record.value.startedAt + window < now then Window(1, now, None)
    else
      var attempts := record.value.attempts + 1;
      Window(attempts, record.value.startedAt, if attempts >= limit then Some(now + window) else None)
  }

  /** What callers do, each in a transaction of its own: ask, hit once allowed, or leave without. */
  datatype Event = Asked(now: int) | Hitting(now: int) | GivenUp(now: int)

  /** The record of one scope, how many callers are between an allowed question and their hit, and
      the instants of all hits so far: the passes. */
  datatype Race = Race(record: Option<Window>, waiting: nat, passes: seq<int>)

  function Next(m: Race, e: Event, limit: int, window: int): Race {
    match e
    case Asked(now) =>
      var asked := AssertAllowed(m.record, window, now);
      m.(record := asked.record, waiting := if asked.allowed then m.waiting + 1 else m.waiting)
    case Hitting(now) =>
      if m.waiting == 0 then m
      else Race(Some(Hit(m.record, limit, window, now)), m.waiting - 1, m.passes + [now])
    case GivenUp(_) => if m.waiting == 0 then m else m.(waiting := m.waiting - 1)
  }

  function Run(m: Race, events: seq<Event>, limit: int, window: int): Race
    decreases |events|
  {
    if events == [] then m else Run(Next(m, events[0], limit, window), events[1..], limit, window)
  }

  /** The clock never goes back. */
  predicate Timed(events: seq<Event>, clock: int)
    decreases |events|
  {
    events == [] || (clock <= events[0].now && Timed(events[1..], events[0].now))
  }

  /** At no point of the run do more than `c` callers wait between question and hit. */
  predicate Crowd(m: Race, events: seq<Event>, limit: int, window: int, c: nat)
    decreases |events|
  {
    m.waiting <= c && (events == [] || Crowd(Next(m, events[0], limit, window), events[1..], limit, window, c))
  }

  const NEVER_USED := Race(None, 0, [])

  // ---- TypeScript: the log of recent attempts -----------------------------------------------

  function Recent(times: seq<int>, threshold: int): (kept: seq<int>)
    ensures forall t :: t in kept ==> t in times && t >= threshold
  {
    if times == [] then []
    else (if times[0] >= threshold then [times[0]] else []) + Recent(times[1..], threshold)
  }

  /** `consumeRateLimit`: the threshold and the stamp are two readings of the clock. A refusal
      throws, so the transaction leaves the log as it was. */
  function Consume(log: seq<int>, limit: int, window: int, asked: int, stamped: int): Result<seq<int>, ()> {
    var kept := Recent(log, asked - window);
    if |kept| >= limit then Failure(()) else Success(kept + [stamped])
  }

  datatype Reading = Reading(asked: int, stamped: int)

  datatype Logged = Logged(log: seq<int>, passes: seq<int>)

  function Record(m: Logged, r: Reading, limit: int, window: int): Logged {
    match Consume(m.log, limit, window, r.asked, r.stamped)
    case Success(log) => Logged(log, m.passes + [r.stamped])
    case Failure(_) => m
  }

  function RecordAll(m: Logged, readings: seq<Reading>, limit: int, window: int): Logged
    decreases |readings|
  {
    if readings == [] then m else RecordAll(Record(m, readings[0], limit, window), readings[1..], limit, window)
  }

  predicate InOrder(readings: seq<Reading>, clock: int)
    decreases |readings|
  {
    readings == [] ||
    (clock <= readings[0].asked <= readings[0].stamped && InOrder(readings[1..], readings[0].stamped))
  }
}
