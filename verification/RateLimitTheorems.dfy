/** How many passes each limiter lets through in any stretch of one window length. */
module RateLimitTheorems {
  import opened Common
  import opened RateLimits

  // ---- PHP ------------------------------------------------------------------------------------

  /** The limit that is really enforced: a window blocks from its second hit at the earliest. */
  function Effective(limit: int): (l: nat)
    ensures l >= 2
  {
    Max(limit, 2)
  }

  predicate Rising(times: seq<int>) {
    forall i, j :: 0 <= i <= j < |times| ==> times[i] <= times[j]
  }

  /** How many passes fit into less than one window, when at most `c` callers wait at once. */
  function Bound(l: nat, c: nat): (k: nat)
    requires l >= 2 && c >= 1
    ensures k == 2 * l + 2 * c - 4
  {
    2 * (l + c - 2)
  }

  /** One pass more than the bound takes at least a whole window. */
  predicate Spread(passes: seq<int>, l: nat, c: nat, window: int)
    requires l >= 2 && c >= 1
  {
    forall i, j :: 0 <= i < |passes| && j == i + Bound(l, c) && i <= j < |passes| ==> passes[i] + window <= passes[j]
  }

  function First(w: Window, passes: seq<int>): int {
    |passes| - w.attempts
  }

  /** The record counts the passes since its window opened, and most earlier passes lie a whole
      window back. */
  predicate Counts(w: Window, passes: seq<int>, l: nat, c: nat, window: int)
    requires l >= 2 && c >= 1
  {
    && 1 <= w.attempts <= |passes|
    && passes[First(w, passes)] == w.startedAt && passes[|passes| - 1] <= w.startedAt + window
    && w.blockedUntil == (if w.attempts >= l then Some(passes[|passes| - 1] + window) else None)
    && forall i :: 0 <= i <= First(w, passes) - (l + c - 2) ==> passes[i] + window <= w.startedAt
  }

  /** Once a window blocks, the callers still waiting are all that can hit in it. */
  predicate Plain(w: Window, waiting: nat, l: nat, c: nat) {
    w.attempts >= l ==> w.attempts - l + waiting <= c - 1
  }

  /** At the very end of the window, when all its passes before lie at its start, the block is over:
      `edge` passes have been made at that last instant. */
  predicate Edge(w: Window, passes: seq<int>, waiting: nat, l: nat, c: nat, window: int, clock: int, edge: nat)
    requires 1 <= w.attempts <= |passes| && l >= 1
  {
    && edge + waiting <= c && l <= w.attempts - edge <= l + c - 1
    && passes[|passes| - edge - 1] == w.startedAt
    && (edge > 0 ==> passes[|passes| - 1] == w.startedAt + window)
    && clock >= w.startedAt + window
  }

  predicate Forgotten(passes: seq<int>, l: nat, c: nat, window: int, clock: int) {
    forall i :: 0 <= i < |passes| && i <= |passes| - (l + c - 2) ==> passes[i] + window <= clock
  }

  predicate RecordOk(m: Race, l: nat, c: nat, window: int, clock: int, edge: Option<nat>)
    requires l >= 2 && c >= 1
  {
    match m.record
    case None => Forgotten(m.passes, l, c, window, clock)
    case Some(w) =>
      && Counts(w, m.passes, l, c, window)
      && match edge
         case None => Plain(w, m.waiting, l, c)
         case Some(e) => Edge(w, m.passes, m.waiting, l, c, window, clock, e)
  }

  predicate RaceInv(m: Race, limit: int, c: nat, window: int, clock: int, edge: Option<nat>)
    requires c >= 1
  {
    var l := Effective(limit);
    && Rising(m.passes) && Spread(m.passes, l, c, window) && m.waiting <= c
    && (m.passes != [] ==> m.passes[|m.passes| - 1] <= clock)
    && RecordOk(m, l, c, window, clock, edge)
  }

  /** A question deletes a window that is wholly past and no longer blocks. */
  lemma DeletedWindow(w: Window, passes: seq<int>, l: nat, c: nat, window: int, now: int)
    requires l >= 2 && c >= 1 && window > 0 && Rising(passes) && Counts(w, passes, l, c, window)
    requires w.startedAt + window < now && (w.blockedUntil.Some? ==> w.blockedUntil.value <= now)
    ensures Forgotten(passes, l, c, window, now)
  {
    forall i | 0 <= i < |passes| && i <= |passes| - (l + c - 2) ensures passes[i] + window <= now {
      if w.attempts >= l {
        assert passes[i] <= passes[|passes| - 1];
      } else {
        assert passes[i] <= passes[First(w, passes)];
      }
    }
  }

  /** A waiting caller that hits after the end of the window opens a new one, block or no block. */
  lemma OverdueHit(m: Race, l: nat, c: nat, window: int, clock: int, edge: Option<nat>, now: int)
    requires l >= 2 && c >= 1 && window > 0 && Rising(m.passes) && m.record.Some? && RecordOk(m, l, c, window, clock, edge)
    requires m.waiting >= 1 && m.record.value.startedAt + window < now
    ensures Forgotten(m.passes, l, c, window, now)
  {
    var w := m.record.value;
    forall i | 0 <= i < |m.passes| && i <= |m.passes| - (l + c - 2) ensures m.passes[i] + window <= now {
      if edge.None? {
        assert m.passes[i] <= m.passes[First(w, m.passes)];
      } else {
        assert m.passes[i] <= m.passes[|m.passes| - edge.value - 1];
      }
    }
  }

  /** A pass that opens a window. */
  lemma OpeningPass(passes: seq<int>, l: nat, c: nat, window: int, now: int)
    requires l >= 2 && c >= 1 && window > 0 && Rising(passes) && Spread(passes, l, c, window) && Forgotten(passes, l, c, window, now)
    requires passes != [] ==> passes[|passes| - 1] <= now
    ensures Rising(passes + [now]) && Spread(passes + [now], l, c, window)
    ensures Counts(Window(1, now, None), passes + [now], l, c, window)
  {
  }

  /** A pass inside the open window. */
  lemma InnerPass(m: Race, limit: int, c: nat, window: int, clock: int, edge: Option<nat>, now: int)
    requires c >= 1 && window > 0 && RaceInv(m, limit, c, window, clock, edge) && m.record.Some? && m.waiting >= 1
    requires clock <= now <= m.record.value.startedAt + window
    ensures var l, w := Effective(limit), Hit(m.record, limit, window, now);
            && Rising(m.passes + [now]) && Spread(m.passes + [now], l, c, window) && Counts(w, m.passes + [now], l, c, window)
            && match edge
               case None => Plain(w, m.waiting - 1, l, c)
               case Some(e) => Edge(w, m.passes + [now], m.waiting - 1, l, c, window, now, e + 1)
  {
    var l, w := Effective(limit), m.record.value;
    var first, n := First(w, m.passes), |m.passes|;
    InnerPassIsLate(m, limit, c, window, clock, edge, now);
    assert (m.passes + [now])[first] == w.startedAt;
  }

  /** It comes a whole window after the pass that the bound compares it with. */
  lemma InnerPassIsLate(m: Race, limit: int, c: nat, window: int, clock: int, edge: Option<nat>, now: int)
    requires c >= 1 && window > 0 && RaceInv(m, limit, c, window, clock, edge) && m.record.Some? && m.waiting >= 1
    requires clock <= now <= m.record.value.startedAt + window
    ensures var i := |m.passes| - Bound(Effective(limit), c); i >= 0 ==> m.passes[i] + window <= now
  {
    var l, w := Effective(limit), m.record.value;
    var first, i := First(w, m.passes), |m.passes| - Bound(l, c);
    if i >= 0 {
      if i <= first - (l + c - 2) {
        assert m.passes[i] + window <= w.startedAt <= now by { assert m.passes[first] <= m.passes[|m.passes| - 1]; }
      } else {
        assert edge.Some? && i <= first;
        assert m.passes[i] <= m.passes[first];
      }
    }
  }

  lemma AskKeepsInv(m: Race, limit: int, c: nat, window: int, clock: int, edge: Option<nat>, now: int) returns (edge': Option<nat>)
    requires c >= 1 && window > 0 && RaceInv(m, limit, c, window, clock, edge) && clock <= now
    requires Next(m, Asked(now), limit, window).waiting <= c
    ensures RaceInv(Next(m, Asked(now), limit, window), limit, c, window, now, edge')
  {
    var l := Effective(limit);
    edge' := edge;
    if m.record.Some? {
      var w := m.record.value;
      var asked := AssertAllowed(m.record, window, now);
      if asked.record.None? {
        DeletedWindow(w, m.passes, l, c, window, now);
      } else if asked.allowed && w.attempts >= l {
        assert m.passes[First(w, m.passes)] <= m.passes[|m.passes| - 1];
        edge' := Some(0);
      }
    }
  }

  /** A hit on no record, or after the end of the window, opens a window. */
  lemma OpeningHitKeepsInv(m: Race, limit: int, c: nat, window: int, clock: int, edge: Option<nat>, now: int)
    requires c >= 1 && window > 0 && RaceInv(m, limit, c, window, clock, edge) && clock <= now && m.waiting >= 1
    requires m.record.None? || m.record.value.startedAt + window < now
    ensures RaceInv(Next(m, Hitting(now), limit, window), limit, c, window, now, None)
  {
    var l := Effective(limit);
    if m.record.Some? {
      OverdueHit(m, l, c, window, clock, edge, now);
    }
    OpeningPass(m.passes, l, c, window, now);
    hide Spread, Counts, Forgotten, Rising;
  }

  lemma InnerHitKeepsInv(m: Race, limit: int, c: nat, window: int, clock: int, edge: Option<nat>, now: int)
    requires c >= 1 && window > 0 && RaceInv(m, limit, c, window, clock, edge) && clock <= now && m.waiting >= 1
    requires m.record.Some? && now <= m.record.value.startedAt + window
    ensures RaceInv(Next(m, Hitting(now), limit, window), limit, c, window, now, if edge.None? then None else Some(edge.value + 1))
  {
    InnerPass(m, limit, c, window, clock, edge, now);
    hide Spread, Counts, Forgotten, Rising, Plain, Edge;
  }

  lemma HitKeepsInv(m: Race, limit: int, c: nat, window: int, clock: int, edge: Option<nat>, now: int) returns (edge': Option<nat>)
    requires c >= 1 && window > 0 && RaceInv(m, limit, c, window, clock, edge) && clock <= now && m.waiting >= 1
    ensures RaceInv(Next(m, Hitting(now), limit, window), limit, c, window, now, edge')
  {
    hide RaceInv, Next;
    if m.record.None? || m.record.value.startedAt + window < now {
      OpeningHitKeepsInv(m, limit, c, window, clock, edge, now);
      edge' := None;
    } else {
      InnerHitKeepsInv(m, limit, c, window, clock, edge, now);
      edge' := if edge.None? then None else Some(edge.value + 1);
    }
  }

  lemma LaterClock(m: Race, limit: int, c: nat, window: int, clock: int, edge: Option<nat>, fewer: nat, now: int)
    requires c >= 1 && RaceInv(m, limit, c, window, clock, edge) && clock <= now && fewer <= m.waiting
    ensures RaceInv(m.(waiting := fewer), limit, c, window, now, edge)
  {
  }

  lemma StepKeepsInv(m: Race, e: Event, limit: int, c: nat, window: int, clock: int, edge: Option<nat>) returns (edge': Option<nat>)
    requires c >= 1 && window > 0 && RaceInv(m, limit, c, window, clock, edge) && clock <= e.now
    requires Next(m, e, limit, window).waiting <= c
    ensures RaceInv(Next(m, e, limit, window), limit, c, window, e.now, edge')
  {
    hide RaceInv;
    edge' := edge;
    match e
    case Asked(now) => edge' := AskKeepsInv(m, limit, c, window, clock, edge, now);
    case Hitting(now) =>
      if m.waiting == 0 {
        LaterClock(m, limit, c, window, clock, edge, 0, now);
      } else {
        edge' := HitKeepsInv(m, limit, c, window, clock, edge, now);
      }
    case GivenUp(now) => LaterClock(m, limit, c, window, clock, edge, if m.waiting == 0 then 0 else m.waiting - 1, now);
  }

  function ClockAfter(events: seq<Event>, clock: int): int {
    if events == [] then clock else events[|events| - 1].now
  }

  lemma {:induction false} RunKeepsInv(m: Race, events: seq<Event>, limit: int, c: nat, window: int, clock: int, edge: Option<nat>)
    returns (edge': Option<nat>)
    requires c >= 1 && window > 0 && RaceInv(m, limit, c, window, clock, edge)
    requires Timed(events, clock) && Crowd(m, events, limit, window, c)
    ensures RaceInv(Run(m, events, limit, window), limit, c, window, ClockAfter(events, clock), edge')
    decreases |events|
  {
    hide RaceInv, Next;
    edge' := edge;
    if events != [] {
      edge' := StepKeepsInv(m, events[0], limit, c, window, clock, edge);
      edge' := RunKeepsInv(Next(m, events[0], limit, window), events[1..], limit, c, window, events[0].now, edge');
    }
  }

  /** In every interleaving of callers of which at most `c` wait between question and hit, no
      half-open stretch of one window length holds more than 2L + 2c - 4 passes, where L is the limit
      but at least 2. Callers one after the other have c = 1, and the bound is 2L - 2. */
  lemma PhpPassesAreSpread(events: seq<Event>, limit: int, window: int, c: nat, clock: int, i: nat)
    requires c >= 1 && window > 0 && Timed(events, clock) && Crowd(NEVER_USED, events, limit, window, c)
    requires i + Bound(Effective(limit), c) < |Run(NEVER_USED, events, limit, window).passes|
    ensures var passes := Run(NEVER_USED, events, limit, window).passes;
            passes[i] + window <= passes[i + Bound(Effective(limit), c)]
  {
    var edge := RunKeepsInv(NEVER_USED, events, limit, c, window, clock, None);
  }

  /** After any interleaving a caller is refused exactly when the open window already has L passes
      and the last of them is less than a window ago. */
  lemma RefusedExactlyWhen(events: seq<Event>, limit: int, window: int, c: nat, clock: int, now: int)
    requires c >= 1 && window > 0 && Timed(events, clock) && Crowd(NEVER_USED, events, limit, window, c) && ClockAfter(events, clock) <= now
    ensures var m := Run(NEVER_USED, events, limit, window);
            !AssertAllowed(m.record, window, now).allowed <==>
              && m.record.Some? && m.record.value.attempts >= Effective(limit)
              && m.passes != [] && now < m.passes[|m.passes| - 1] + window
  {
    var edge := RunKeepsInv(NEVER_USED, events, limit, c, window, clock, None);
  }

  /** A hit in a blocked window lets the next caller in exactly when it comes after the end of that
      window: it then opens a new one and the block is gone. */
  lemma LateHitErasesBlock(w: Window, limit: int, window: int, now: int)
    requires window > 0 && w.attempts >= Effective(limit) && w.blockedUntil.Some? && now < w.blockedUntil.value
    ensures !AssertAllowed(Some(w), window, now).allowed
    ensures AssertAllowed(Some(Hit(Some(w), limit, window, now)), window, now).allowed <==> w.startedAt + window < now
  {
  }

  // ---- The bound is reached ---------------------------------------------------------------------

  function Times(n: nat, e: Event): (events: seq<Event>)
    ensures |events| == n
  {
    if n == 0 then [] else [e] + Times(n - 1, e)
  }

  /** Callers one after the other at one instant. */
  function Turns(n: nat, now: int): seq<Event> {
    if n == 0 then [] else [Asked(now), Hitting(now)] + Turns(n - 1, now)
  }

  function Instants(n: nat, now: int): (passes: seq<int>)
    ensures |passes| == n && forall i :: 0 <= i < n ==> passes[i] == now
  {
    seq(n, i => now)
  }

  /** The run takes `m` to `after` with at most `c` callers waiting and all instants within the clock. */
  ghost predicate Leads(m: Race, events: seq<Event>, limit: int, window: int, c: nat, after: Race, clock: int, end: int) {
    Run(m, events, limit, window) == after && Crowd(m, events, limit, window, c) && forall rest :: Timed(rest, end) ==> Timed(events + rest, clock)
  }

  lemma {:induction false} RunConcat(m: Race, a: seq<Event>, b: seq<Event>, limit: int, window: int, c: nat)
    ensures Run(m, a + b, limit, window) == Run(Run(m, a, limit, window), b, limit, window)
    ensures Crowd(m, a, limit, window, c) && Crowd(Run(m, a, limit, window), b, limit, window, c) ==> Crowd(m, a + b, limit, window, c)
    decreases |a|
  {
    if a == [] {
      assert a + b == b;
    } else {
      assert (a + b)[1..] == a[1..] + b;
      RunConcat(Next(m, a[0], limit, window), a[1..], b, limit, window, c);
    }
  }

  lemma LeadsOn(m: Race, a: seq<Event>, b: seq<Event>, limit: int, window: int, c: nat, middle: Race, after: Race, t0: int, t1: int, t2: int)
    requires Leads(m, a, limit, window, c, middle, t0, t1) && Leads(middle, b, limit, window, c, after, t1, t2)
    ensures Leads(m, a + b, limit, window, c, after, t0, t2)
  {
    RunConcat(m, a, b, limit, window, c);
    forall rest | Timed(rest, t2) ensures Timed(a + b + rest, t0) {
      assert a + b + rest == a + (b + rest);
    }
  }

  lemma LeadsNowhere(m: Race, limit: int, window: int, c: nat, t0: int, t1: int)
    requires m.waiting <= c && t0 <= t1
    ensures Leads(m, [], limit, window, c, m, t0, t1)
  {
    forall rest | Timed(rest, t1) ensures Timed([] + rest, t0) {
      assert [] + rest == rest;
    }
  }

  lemma LeadsOnce(m: Race, e: Event, limit: int, window: int, c: nat, t0: int)
    requires m.waiting <= c && Next(m, e, limit, window).waiting <= c && t0 <= e.now
    ensures Leads(m, [e], limit, window, c, Next(m, e, limit, window), t0, e.now)
  {
    assert [e][1..] == [];
    forall rest | Timed(rest, e.now) ensures Timed([e] + rest, t0) {
      assert ([e] + rest)[1..] == rest;
    }
  }

  /** Callers in turn fill an open window that is not yet full. */
  lemma {:induction false} TurnsFill(a: nat, s: int, waiting: nat, passes: seq<int>, n: nat, now: int, limit: int, window: int, c: nat, t0: int)
    requires a >= 1 && a + n < Effective(limit) && s <= now <= s + window && waiting < c && t0 <= now
    ensures Leads(Race(Some(Window(a, s, None)), waiting, passes), Turns(n, now), limit, window, c,
                  Race(Some(Window(a + n, s, None)), waiting, passes + Instants(n, now)), t0, now)
    decreases n
  {
    var m := Race(Some(Window(a, s, None)), waiting, passes);
    if n == 0 {
      assert passes + Instants(0, now) == passes;
      LeadsNowhere(m, limit, window, c, t0, now);
    } else {
      var asked := m.(waiting := waiting + 1);
      var hit := Race(Some(Window(a + 1, s, None)), waiting, passes + [now]);
      LeadsOnce(m, Asked(now), limit, window, c, t0);
      LeadsOnce(asked, Hitting(now), limit, window, c, now);
      hide Leads;
      LeadsOn(m, [Asked(now)], [Hitting(now)], limit, window, c, asked, hit, t0, now, now);
      TurnsFill(a + 1, s, waiting, passes + [now], n - 1, now, limit, window, c, now);
      assert passes + [now] + Instants(n - 1, now) == passes + Instants(n, now);
      assert [Asked(now)] + [Hitting(now)] == [Asked(now), Hitting(now)];
      LeadsOn(m, [Asked(now), Hitting(now)], Turns(n - 1, now), limit, window, c, hit,
              Race(Some(Window(a + n, s, None)), waiting, passes + Instants(n, now)), t0, now, now);
    }
  }

  /** Callers that only ask, while nothing blocks, all wait. */
  lemma {:induction false} AsksWait(m: Race, n: nat, now: int, limit: int, window: int, c: nat, t0: int)
    requires AssertAllowed(m.record, window, now) == Verdict(m.record, true) && m.waiting + n <= c && t0 <= now
    ensures Leads(m, Times(n, Asked(now)), limit, window, c, m.(waiting := m.waiting + n), t0, now)
    decreases n
  {
    if n == 0 {
      LeadsNowhere(m, limit, window, c, t0, now);
    } else {
      LeadsOnce(m, Asked(now), limit, window, c, t0);
      hide Leads;
      AsksWait(m.(waiting := m.waiting + 1), n - 1, now, limit, window, c, now);
      LeadsOn(m, [Asked(now)], Times(n - 1, Asked(now)), limit, window, c, m.(waiting := m.waiting + 1), m.(waiting := m.waiting + n), t0, now, now);
    }
  }

  /** Callers that wait all hit, whatever the record says; the window stays the same. */
  lemma {:induction false} HitsLand(m: Race, n: nat, now: int, limit: int, window: int, c: nat, t0: int) returns (after: Race)
    requires m.record.Some? && now <= m.record.value.startedAt + window && n <= m.waiting <= c && t0 <= now
    ensures Leads(m, Times(n, Hitting(now)), limit, window, c, after, t0, now)
    ensures after.record.Some? && after.record.value.startedAt == m.record.value.startedAt
    ensures after.waiting == m.waiting - n && after.passes == m.passes + Instants(n, now)
    decreases n
  {
    after := m;
    if n == 0 {
      LeadsNowhere(m, limit, window, c, t0, now);
    } else {
      var next := Next(m, Hitting(now), limit, window);
      LeadsOnce(m, Hitting(now), limit, window, c, t0);
      hide Leads;
      after := HitsLand(next, n - 1, now, limit, window, c, now);
      LeadsOn(m, [Hitting(now)], Times(n - 1, Hitting(now)), limit, window, c, next, after, t0, now, now);
      assert m.passes + [now] + Instants(n - 1, now) == m.passes + Instants(n, now);
    }
  }

  /** From the first hit of a window: all but one of the limit in turn, then `c` together, of which
      `left` do not hit. */
  function Group(l: nat, c: nat, left: nat, now: int): seq<Event>
    requires l >= 2 && left <= c
  {
    Turns(l - 2, now) + Times(c, Asked(now)) + Times(c - left, Hitting(now))
  }

  lemma InstantsConcat(passes: seq<int>, a: nat, b: nat, now: int)
    ensures passes + Instants(a, now) + Instants(b, now) == passes + Instants(a + b, now)
  {
  }

  lemma GroupFills(s: int, passes: seq<int>, limit: int, c: nat, left: nat, now: int, window: int, t0: int) returns (after: Race)
    requires c >= 1 && left <= c && s <= now <= s + window && t0 <= now
    ensures var l := Effective(limit);
            Leads(Race(Some(Window(1, s, None)), 0, passes), Group(l, c, left, now), limit, window, c, after, t0, now)
            && after.passes == passes + Instants(l - 2 + (c - left), now)
    ensures after.record.Some? && after.record.value.startedAt == s && after.waiting == left
  {
    var l := Effective(limit);
    var begun := Race(Some(Window(1, s, None)), 0, passes);
    var filled := Race(Some(Window(l - 1, s, None)), 0, passes + Instants(l - 2, now));
    var crowded := filled.(waiting := c);
    hide Leads;
    TurnsFill(1, s, 0, passes, l - 2, now, limit, window, c, t0);
    AsksWait(filled, c, now, limit, window, c, now);
    after := HitsLand(crowded, c - left, now, limit, window, c, now);
    InstantsConcat(passes, l - 2, c - left, now);
    hide Next, AssertAllowed, Hit, Turns, Times, Instants;
    LeadsOn(begun, Turns(l - 2, now), Times(c, Asked(now)), limit, window, c, filled, crowded, t0, now, now);
    LeadsOn(begun, Turns(l - 2, now) + Times(c, Asked(now)), Times(c - left, Hitting(now)), limit, window, c, crowded, after, t0, now, now);
  }

  /** One caller at 0; a full group when the window is about to close, of which one caller hits only
      after its end and so erases the block; a full group in the window that this opens. */
  function Worst(l: nat, c: nat, window: int): seq<Event>
    requires l >= 2 && c >= 1
  {
    Turns(1, 0) + Group(l, c, 1, window) + [Hitting(window + 1)] + Group(l, c, 0, window + 1)
  }

  lemma FirstTurn(limit: int, window: int, c: nat)
    requires c >= 1
    ensures Leads(NEVER_USED, Turns(1, 0), limit, window, c, Race(Some(Window(1, 0, None)), 0, [0]), 0, 0)
  {
    LeadsOnce(NEVER_USED, Asked(0), limit, window, c, 0);
    LeadsOnce(Race(None, 1, []), Hitting(0), limit, window, c, 0);
    hide Leads;
    LeadsOn(NEVER_USED, [Asked(0)], [Hitting(0)], limit, window, c, Race(None, 1, []), Race(Some(Window(1, 0, None)), 0, [0]), 0, 0, 0);
    assert Turns(1, 0) == [Asked(0)] + [Hitting(0)] by { assert Turns(0, 0) == []; }
  }

  /** The bound cannot be lowered, for any limit and any crowd: 2L + 2c - 4 passes can fall within one
      time unit. */
  lemma PhpBoundIsReached(limit: int, window: int, c: nat)
    requires window >= 1 && c >= 1
    ensures var l := Effective(limit);
            && Timed(Worst(l, c, window), 0) && Crowd(NEVER_USED, Worst(l, c, window), limit, window, c)
            && Run(NEVER_USED, Worst(l, c, window), limit, window).passes
               == [0] + Instants(l + c - 3, window) + Instants(l + c - 1, window + 1)
            && (l + c - 3) + (l + c - 1) == Bound(l, c)
  {
    hide Leads, Group, Turns, Times;
    var l := Effective(limit);
    var one := Race(Some(Window(1, 0, None)), 0, [0]);
    FirstTurn(limit, window, c);
    var two := GroupFills(0, [0], limit, c, 1, window, window, 0);
    var three := Race(Some(Window(1, window + 1, None)), 0, two.passes + [window + 1]);
    LeadsOnce(two, Hitting(window + 1), limit, window, c, window);
    var four := GroupFills(window + 1, three.passes, limit, c, 0, window + 1, window, window + 1);
    hide Next, Hit, AssertAllowed, Instants;
    WorstLeads(limit, window, c, one, two, three, four);
    LeadsFromStart(NEVER_USED, Worst(l, c, window), limit, window, c, four, 0, window + 1);
    InstantsConcat(two.passes, 1, l - 2 + c, window + 1);
    assert Instants(1, window + 1) == [window + 1];
  }

  lemma LeadsFromStart(m: Race, events: seq<Event>, limit: int, window: int, c: nat, after: Race, t0: int, t1: int)
    requires Leads(m, events, limit, window, c, after, t0, t1)
    ensures Run(m, events, limit, window) == after && Timed(events, t0) && Crowd(m, events, limit, window, c)
  {
    assert events + [] == events;
    assert Timed([], t1);
  }

  lemma WorstLeads(limit: int, window: int, c: nat, one: Race, two: Race, three: Race, four: Race)
    requires c >= 1
    requires var l := Effective(limit);
             && Leads(NEVER_USED, Turns(1, 0), limit, window, c, one, 0, 0)
             && Leads(one, Group(l, c, 1, window), limit, window, c, two, 0, window)
             && Leads(two, [Hitting(window + 1)], limit, window, c, three, window, window + 1)
             && Leads(three, Group(l, c, 0, window + 1), limit, window, c, four, window + 1, window + 1)
    ensures Leads(NEVER_USED, Worst(Effective(limit), c, window), limit, window, c, four, 0, window + 1)
  {
    hide Leads;
    var l := Effective(limit);
    LeadsOn(NEVER_USED, Turns(1, 0), Group(l, c, 1, window), limit, window, c, one, two, 0, 0, window);
    LeadsOn(NEVER_USED, Turns(1, 0) + Group(l, c, 1, window), [Hitting(window + 1)], limit, window, c, two, three, 0, window, window + 1);
    LeadsOn(NEVER_USED, Turns(1, 0) + Group(l, c, 1, window) + [Hitting(window + 1)], Group(l, c, 0, window + 1), limit, window, c,
            three, four, 0, window + 1, window + 1);
  }

  /** Any number of callers that all ask before any of them hits pass at one instant. */
  lemma TogetherAllPass(n: nat, now: int, limit: int, window: int)
    requires n >= 1 && window >= 0
    ensures Run(NEVER_USED, Times(n, Asked(now)) + Times(n, Hitting(now)), limit, window).passes == Instants(n, now)
    ensures Timed(Times(n, Asked(now)) + Times(n, Hitting(now)), now)
  {
    var waiting := Race(None, n, []);
    var begun := Race(Some(Window(1, now, None)), n - 1, [now]);
    AsksWait(NEVER_USED, n, now, limit, window, n, now);
    LeadsOnce(waiting, Hitting(now), limit, window, n, now);
    var after := HitsLand(begun, n - 1, now, limit, window, n, now);
    LeadsOn(waiting, [Hitting(now)], Times(n - 1, Hitting(now)), limit, window, n, begun, after, now, now, now);
    LeadsOn(NEVER_USED, Times(n, Asked(now)), Times(n, Hitting(now)), limit, window, n, waiting, after, now, now, now);
    var all := Times(n, Asked(now)) + Times(n, Hitting(now));
    assert all + [] == all;
    assert [now] + Instants(n - 1, now) == Instants(n, now);
  }

  // ---- TypeScript -----------------------------------------------------------------------------------

  lemma {:induction false} RecentTwice(times: seq<int>, low: int, high: int)
    requires low <= high
    ensures Recent(Recent(times, low), high) == Recent(times, high)
  {
    if times != [] {
      RecentTwice(times[1..], low, high);
      var kept := Recent(times, low);
      if times[0] >= low {
        assert kept == [times[0]] + Recent(times[1..], low) && kept[1..] == Recent(times[1..], low);
      } else {
        assert kept == Recent(times[1..], low);
      }
    }
  }

  lemma {:induction false} RecentAppend(times: seq<int>, t: int, low: int)
    requires t >= low
    ensures Recent(times + [t], low) == Recent(times, low) + [t]
  {
    if times != [] {
      assert (times + [t])[1..] == times[1..] + [t];
      RecentAppend(times[1..], t, low);
    }
  }

  /** The recent part of a rising log is at least as long as the run of recent times at its end. */
  lemma {:induction false} RecentIsLong(times: seq<int>, low: int, i: nat)
    requires Rising(times) && i < |times| && times[i] >= low
    ensures |Recent(times, low)| >= |times| - i
    decreases |times|
  {
    if i > 0 {
      RecentIsLong(times[1..], low, i - 1);
    } else if |times| > 1 {
      assert times[1..][0] == times[1] >= times[0];
      RecentIsLong(times[1..], low, 0);
    }
  }

  /** More than `limit` passes never fall in a closed stretch of one window length. */
  predicate Sparse(passes: seq<int>, limit: int, window: int) {
    forall i, j :: 0 <= i < |passes| && j == i + limit && i <= j < |passes| ==> passes[i] + window < passes[j]
  }

  predicate LoggedInv(m: Logged, limit: int, window: int, clock: int, threshold: int) {
    && m.log == Recent(m.passes, threshold) && threshold <= clock - window
    && Rising(m.passes) && Sparse(m.passes, limit, window)
    && (m.passes != [] ==> m.passes[|m.passes| - 1] <= clock && limit >= 1)
  }

  /** A caller passes exactly when fewer than `limit` passes lie in the closed window before it. */
  lemma TsAllowsExactly(m: Logged, limit: int, window: int, clock: int, threshold: int, r: Reading)
    requires LoggedInv(m, limit, window, clock, threshold) && clock <= r.asked
    ensures Consume(m.log, limit, window, r.asked, r.stamped).Success? <==> |Recent(m.passes, r.asked - window)| < limit
  {
    RecentTwice(m.passes, threshold, r.asked - window);
  }

  lemma RecordKeepsInv(m: Logged, r: Reading, limit: int, window: int, clock: int, threshold: int) returns (threshold': int)
    requires window >= 0 && LoggedInv(m, limit, window, clock, threshold) && clock <= r.asked <= r.stamped
    ensures LoggedInv(Record(m, r, limit, window), limit, window, r.stamped, threshold')
  {
    threshold' := threshold;
    if Consume(m.log, limit, window, r.asked, r.stamped).Success? {
      threshold' := r.asked - window;
      RecentTwice(m.passes, threshold, threshold');
      RecentAppend(m.passes, r.stamped, threshold');
      var i := |m.passes| - limit;
      if 0 <= i < |m.passes| && m.passes[i] >= threshold' {
        RecentIsLong(m.passes, threshold', i);
        assert false;
      }
    }
  }

  lemma {:induction false} RecordAllKeepsInv(m: Logged, readings: seq<Reading>, limit: int, window: int, clock: int, threshold: int)
    returns (clock': int, threshold': int)
    requires window >= 0 && LoggedInv(m, limit, window, clock, threshold) && InOrder(readings, clock)
    ensures LoggedInv(RecordAll(m, readings, limit, window), limit, window, clock', threshold')
    decreases |readings|
  {
    clock', threshold' := clock, threshold;
    if readings != [] {
      var t := RecordKeepsInv(m, readings[0], limit, window, clock, threshold);
      clock', threshold' := RecordAllKeepsInv(Record(m, readings[0], limit, window), readings[1..], limit, window, readings[0].stamped, t);
    }
  }

  /** In every run, any closed stretch of one window length holds at most `limit` passes. */
  lemma TsPassesAreSparse(readings: seq<Reading>, limit: nat, window: int, clock: int, i: nat)
    requires window >= 0 && InOrder(readings, clock)
    requires i + limit < |RecordAll(Logged([], []), readings, limit, window).passes|
    ensures var passes := RecordAll(Logged([], []), readings, limit, window).passes; passes[i] + window < passes[i + limit]
  {
    var clock', t := RecordAllKeepsInv(Logged([], []), readings, limit, window, clock, clock - window);
  }
}
