/** The two limiters as objects that update their records in place. */
module RateLimitTables {
  import opened Common
  import opened RateLimits

  type Scope = string

  /** `PersistentRateLimiter` over the table `rate_limits`, at most one row per scope. */
  class PersistentRateLimiter {
    var rows: map<Scope, Window>

    function RowOf(scope: Scope): Option<Window>
      reads this
    {
      if scope in rows then Some(rows[scope]) else None
    }

    constructor ()
      ensures rows == map[]
    {
      rows := map[];
    }

    /** Returns false where the source throws RATE_LIMITED. */
    method AssertAllowed(scope: Scope, window: int, now: int) returns (allowed: bool)
      modifies this
      ensures Verdict(RowOf(scope), allowed) == RateLimits.AssertAllowed(old(RowOf(scope)), window, now)
      ensures forall other :: other != scope ==> RowOf(other) == old(RowOf(other))
    {
      if scope !in rows {
        return true;
      }
      var record := rows[scope];
      if record.blockedUntil.Some? && record.blockedUntil.value > now {
        return false;
      }
      if record.startedAt + window < now {
        rows := rows - {scope};
      }
      allowed := true;
    }

    method Hit(scope: Scope, limit: int, window: int, now: int)
      modifies this
      ensures RowOf(scope) == Some(RateLimits.Hit(old(RowOf(scope)), limit, window, now))
      ensures forall other :: other != scope ==> RowOf(other) == old(RowOf(other))
    {
      if scope !in rows {
        rows := rows[scope := Window(1, now, None)];
        return;
      }
      var record := rows[scope];
      if record.startedAt + window < now {
        rows := rows[scope := Window(1, now, None)];
        return;
      }
      var attempts := record.attempts + 1;
      rows := rows[scope := Window(attempts, record.startedAt, if attempts >= limit then Some(now + window) else None)];
    }

    method Clear(scope: Scope)
      modifies this
      ensures RowOf(scope) == None
      ensures forall other :: other != scope ==> RowOf(other) == old(RowOf(other))
    {
      rows := rows - {scope};
    }

    /** The calling pattern of the password reset and withdrawal services. */
    method AskThenHit(scope: Scope, limit: int, window: int, asked: int, now: int, ghost passes: seq<int>)
      returns (allowed: bool, ghost passes': seq<int>)
      modifies this
      ensures Race(RowOf(scope), 0, passes') == Run(Race(old(RowOf(scope)), 0, passes), [Asked(asked), Hitting(now)], limit, window)
      ensures allowed <==> |passes'| > |passes|
      ensures forall other :: other != scope ==> RowOf(other) == old(RowOf(other))
    {
      TwoEvents(Race(RowOf(scope), 0, passes), Asked(asked), Hitting(now), limit, window);
      passes' := passes;
      allowed := AssertAllowed(scope, window, asked);
      if allowed {
        Hit(scope, limit, window, now);
        passes' := passes + [now];
      }
    }
  }

  lemma TwoEvents(m: Race, a: Event, b: Event, limit: int, window: int)
    ensures Run(m, [a, b], limit, window) == Next(Next(m, a, limit, window), b, limit, window)
  {
    var next := Next(m, a, limit, window);
    hide Next;
    assert [a, b][1..] == [b] && [b][1..] == [];
    assert Run(next, [b], limit, window) == Run(Next(next, b, limit, window), [], limit, window);
  }

  datatype Entry = Entry(key: Scope, attempts: seq<int>)

  /** The log of the first record with this key, empty when there is none. */
  function Lookup(records: seq<Entry>, key: Scope, from: nat): seq<int>
    requires from <= |records|
    decreases |records| - from
  {
    if from == |records| then []
    else if records[from].key == key then records[from].attempts
    else Lookup(records, key, from + 1)
  }

  /** Writing the first record of a key, or a new one at the end, changes that key alone. */
  lemma {:induction false} LookupAfterWrite(before: seq<Entry>, i: nat, key: Scope, log: seq<int>, asked: Scope, from: nat)
    requires from <= i <= |before| && (i < |before| ==> before[i].key == key)
    requires forall k :: from <= k < i ==> before[k].key != key
    ensures var after := if i < |before| then before[i := Entry(key, log)] else before + [Entry(key, log)];
            Lookup(after, asked, from) == if asked == key then log else Lookup(before, asked, from)
    decreases |before| - from
  {
    var after := if i < |before| then before[i := Entry(key, log)] else before + [Entry(key, log)];
    if from < i {
      LookupAfterWrite(before, i, key, log, asked, from + 1);
    } else if asked != key {
      SameTail(before, after, asked, from + 1);
    }
  }

  lemma {:induction false} SameTail(before: seq<Entry>, after: seq<Entry>, asked: Scope, from: nat)
    requires |before| <= |after| && from <= |after|
    requires forall k :: from <= k < |before| ==> after[k] == before[k]
    requires |before| < |after| ==> from == |after|
    ensures from <= |before| ==> Lookup(after, asked, from) == Lookup(before, asked, from)
    decreases |after| - from
  {
    if from < |before| {
      SameTail(before, after, asked, from + 1);
    }
  }

  /** `state.rateLimits` of the TypeScript backend, one record per key. */
  class AttemptLog {
    var records: seq<Entry>

    function LogOf(key: Scope): seq<int>
      reads this
    {
      Lookup(records, key, 0)
    }

    constructor ()
      ensures records == []
    {
      records := [];
    }

    method Find(key: Scope) returns (i: nat)
      ensures i <= |records| && (i < |records| ==> records[i].key == key)
      ensures forall k :: 0 <= k < i ==> records[k].key != key
      ensures LogOf(key) == if i < |records| then records[i].attempts else []
    {
      i := 0;
      while i < |records| && records[i].key != key
        invariant i <= |records| && LogOf(key) == Lookup(records, key, i)
        invariant forall k :: 0 <= k < i ==> records[k].key != key
      {
        i := i + 1;
      }
    }

    static method Filter(attempts: seq<int>, threshold: int) returns (kept: seq<int>)
      ensures kept == Recent(attempts, threshold)
    {
      kept := [];
      var i := 0;
      while i < |attempts|
        invariant i <= |attempts| && kept + Recent(attempts[i..], threshold) == Recent(attempts, threshold)
      {
        assert attempts[i..][1..] == attempts[i + 1..];
        if attempts[i] >= threshold {
          kept := kept + [attempts[i]];
        }
        i := i + 1;
      }
    }

    /** A refusal is thrown, and the store then drops every change of the transaction. */
    method ConsumeRateLimit(key: Scope, limit: int, window: int, asked: int, stamped: int) returns (r: Result<(), ()>)
      modifies this
      ensures match Consume(old(LogOf(key)), limit, window, asked, stamped)
              case Success(log) => r == Success(()) && LogOf(key) == log
              case Failure(_) => r == Failure(()) && records == old(records)
      ensures forall other :: other != key ==> LogOf(other) == old(LogOf(other))
    {
      var before := records;
      var i := Find(key);
      if i == |records| {
        records := records + [Entry(key, [])];
      }
      var kept := Filter(records[i].attempts, asked - window);
      if |kept| >= limit {
        records := before;
        return Failure(());
      }
      records := records[i := Entry(key, kept + [stamped])];
      r := Success(());
      assert records == if i < |before| then before[i := Entry(key, kept + [stamped])] else before + [Entry(key, kept + [stamped])];
      forall asked ensures LogOf(asked) == if asked == key then kept + [stamped] else old(LogOf(asked)) {
        LookupAfterWrite(before, i, key, kept + [stamped], asked, 0);
      }
    }
  }
}
