/** Consumption takes exactly what is asked, first-expiring-first is optimal up to the year 9999,
    and the ledger and the lots agree. */
module TsBillingTheorems {
  import opened Common
  import opened EarliestFirst
  import opened TsBilling

  // ---- The chosen lots -------------------------------------------------------------------------

  predicate Distinct(chosen: seq<nat>) {
    forall j, k :: 0 <= j < k < |chosen| ==> chosen[j] != chosen[k]
  }

  ghost predicate SortedByKey(chosen: seq<nat>, lots: seq<Lot>)
    requires Within(chosen, |lots|)
  {
    forall j, k :: 0 <= j < k < |chosen| ==> Before(lots[chosen[j]], lots[chosen[k]])
  }

  lemma {:induction false} CandidatesDistinct(lots: seq<Lot>, owner: Owner, currency: Currency, now: int, from: nat)
    requires from <= |lots|
    ensures Distinct(CandidatesFrom(lots, owner, currency, now, from))
    decreases |lots| - from
  {
    if from < |lots| {
      CandidatesDistinct(lots, owner, currency, now, from + 1);
      var rest := CandidatesFrom(lots, owner, currency, now, from + 1);
      assert forall k :: 0 <= k < |rest| ==> rest[k] in rest;
    }
  }

  lemma BeforeIsTotalPreorder(a: Lot, b: Lot, c: Lot)
    ensures Before(a, b) || Before(b, a)
    ensures Before(a, b) && Before(b, c) ==> Before(a, c)
  {
  }

  lemma PrependKeepsOrder(i: nat, rest: seq<nat>, lots: seq<Lot>)
    requires i < |lots| && Within(rest, |lots|) && SortedByKey(rest, lots) && Distinct(rest) && i !in rest
    requires forall k :: 0 <= k < |rest| ==> Before(lots[i], lots[rest[k]])
    ensures Within([i] + rest, |lots|) && SortedByKey([i] + rest, lots) && Distinct([i] + rest)
  {
    hide Before;
  }

  lemma {:induction false} InsertKeepsOrder(i: nat, sorted: seq<nat>, lots: seq<Lot>)
    requires i < |lots| && Within(sorted, |lots|)
    requires SortedByKey(sorted, lots) && Distinct(sorted) && i !in sorted
    ensures SortedByKey(Insert(i, sorted, lots), lots) && Distinct(Insert(i, sorted, lots))
    decreases |sorted|
  {
    hide Before;
    if sorted == [] || Before(lots[i], lots[sorted[0]]) {
      forall k | 0 <= k < |sorted| ensures Before(lots[i], lots[sorted[k]]) {
        BeforeIsTotalPreorder(lots[i], lots[sorted[0]], lots[sorted[k]]);
      }
      PrependKeepsOrder(i, sorted, lots);
    } else {
      InsertKeepsOrder(i, sorted[1..], lots);
      var rest := Insert(i, sorted[1..], lots);
      BeforeIsTotalPreorder(lots[i], lots[sorted[0]], lots[i]);
      forall k | 0 <= k < |rest| ensures Before(lots[sorted[0]], lots[rest[k]]) {
        assert rest[k] in rest;
      }
      PrependKeepsOrder(sorted[0], rest, lots);
    }
  }

  lemma {:induction false} SortKeepsOrder(chosen: seq<nat>, lots: seq<Lot>)
    requires Within(chosen, |lots|) && Distinct(chosen)
    ensures var r := Sort(chosen, lots); Within(r, |lots|) && SortedByKey(r, lots) && Distinct(r)
    decreases |chosen|
  {
    if chosen != [] {
      SortKeepsOrder(chosen[1..], lots);
      assert forall k :: 0 < k < |chosen| ==> chosen[1..][k - 1] == chosen[k];
      InsertKeepsOrder(chosen[0], Sort(chosen[1..], lots), lots);
    }
  }

  /** The lots walked are exactly the candidates, each once, in order of their keys. */
  lemma ChosenAreSorted(lots: seq<Lot>, owner: Owner, currency: Currency, now: int)
    ensures var chosen := Chosen(lots, owner, currency, now);
            && SortedByKey(chosen, lots) && Distinct(chosen)
            && forall k :: 0 <= k < |chosen| ==> Candidate(lots[chosen[k]], owner, currency, now)
  {
    CandidatesDistinct(lots, owner, currency, now, 0);
    SortKeepsOrder(CandidatesFrom(lots, owner, currency, now, 0), lots);
    var chosen := Chosen(lots, owner, currency, now);
    assert forall k :: 0 <= k < |chosen| ==> chosen[k] in chosen;
  }

  // ---- The walk is the greedy allocation ----------------------------------------------------------

  lemma {:induction false} GreedyOfNothing(amounts: seq<int>)
    requires forall i :: 0 <= i < |amounts| ==> amounts[i] >= 0
    ensures Greedy(amounts, 0) == seq(|amounts|, i => 0)
  {
    if amounts != [] {
      GreedyOfNothing(amounts[1..]);
    }
  }

  /** Different lots, none overdrawn. */
  ghost predicate Drawable(lots: seq<Lot>, chosen: seq<nat>)
    requires Within(chosen, |lots|)
  {
    Distinct(chosen) && forall k :: 0 <= k < |chosen| ==> lots[chosen[k]].remaining >= 0
  }

  /** The lots after the first iteration of the walk. */
  function AfterFirst(lots: seq<Lot>, chosen: seq<nat>, need: int): (r: seq<Lot>)
    requires Within(chosen, |lots|) && chosen != []
    ensures |r| == |lots| && Within(chosen[1..], |r|)
  {
    var lot := lots[chosen[0]];
    lots[chosen[0] := lot.(remaining := lot.remaining - Min(lot.remaining, need))]
  }

  lemma FirstStep(lots: seq<Lot>, chosen: seq<nat>, need: int)
    requires Within(chosen, |lots|) && Drawable(lots, chosen) && chosen != [] && need >= 0
    ensures var lots', need' := AfterFirst(lots, chosen, need), need - Min(lots[chosen[0]].remaining, need);
            && need' >= 0 && Drawable(lots', chosen[1..])
            && Amounts(lots', chosen[1..]) == Amounts(lots, chosen)[1..]
            && Walk(lots, chosen, need) == if need' == 0 then lots' else Walk(lots', chosen[1..], need')
  {
  }

  /** A lot of the walk gives what the greedy allocation takes from it. */
  lemma {:induction false} WalkAt(lots: seq<Lot>, chosen: seq<nat>, need: int, k: nat)
    requires Within(chosen, |lots|) && Drawable(lots, chosen) && need >= 0 && k < |chosen|
    ensures Walk(lots, chosen, need)[chosen[k]]
            == lots[chosen[k]].(remaining := lots[chosen[k]].remaining - Greedy(Amounts(lots, chosen), need)[k])
    decreases k
  {
    var lots', need' := AfterFirst(lots, chosen, need), need - Min(lots[chosen[0]].remaining, need);
    FirstStep(lots, chosen, need);
    if need' == 0 {
      GreedyOfNothing(Amounts(lots, chosen)[1..]);
    } else if k == 0 {
      WalkElsewhere(lots', chosen[1..], need', chosen[0]);
    } else {
      WalkAt(lots', chosen[1..], need', k - 1);
    }
  }

  /** The other lots keep all they have. */
  lemma {:induction false} WalkElsewhere(lots: seq<Lot>, chosen: seq<nat>, need: int, i: nat)
    requires Within(chosen, |lots|) && i < |lots| && i !in chosen
    ensures Walk(lots, chosen, need)[i] == lots[i]
    decreases |chosen|
  {
    if chosen != [] && need != Min(lots[chosen[0]].remaining, need) {
      assert chosen[0] in chosen;
      WalkElsewhere(AfterFirst(lots, chosen, need), chosen[1..], need - Min(lots[chosen[0]].remaining, need), i);
    }
  }

  // ---- Optimality ----------------------------------------------------------------------------------

  /** No other way of drawing as much touches less of what is still alive at `instant`. */
  ghost predicate Best(amounts: seq<int>, expiries: seq<Option<int>>, need: int, instant: int)
    requires |amounts| == |expiries|
  {
    forall other :: Draws(amounts, other, need) ==>
      DrawnAlive(Greedy(amounts, need), expiries, instant) <= DrawnAlive(other, expiries, instant)
  }

  /** Whatever has expired by `instant` is walked before what has not. */
  predicate DeadFirst(expiries: seq<Option<int>>, instant: int) {
    forall j, k :: 0 <= j < k < |expiries| ==> Alive(expiries[j], instant) ==> Alive(expiries[k], instant)
  }

  /** The expiries as seen from `instant`. */
  function SeenFrom(expiries: seq<Option<int>>, instant: int): (r: seq<Option<int>>)
    ensures |r| == |expiries|
  {
    seq(|expiries|, k requires 0 <= k < |expiries| => if Alive(expiries[k], instant) then None else Some(instant))
  }

  lemma {:induction false} SameDrawnAlive(takes: seq<int>, expiries: seq<Option<int>>, instant: int)
    requires |takes| == |expiries|
    ensures DrawnAlive(takes, SeenFrom(expiries, instant), instant) == DrawnAlive(takes, expiries, instant)
  {
    if takes != [] {
      assert SeenFrom(expiries, instant)[1..] == SeenFrom(expiries[1..], instant);
      SameDrawnAlive(takes[1..], expiries[1..], instant);
    }
  }

  lemma DeadFirstIsBest(amounts: seq<int>, expiries: seq<Option<int>>, need: int, instant: int)
    requires |amounts| == |expiries| && DeadFirst(expiries, instant) && need >= 0
    ensures Best(amounts, expiries, need, instant)
  {
    var seen := SeenFrom(expiries, instant);
    forall other | Draws(amounts, other, need)
      ensures DrawnAlive(Greedy(amounts, need), expiries, instant) <= DrawnAlive(other, expiries, instant)
    {
      GreedyDrawsLeastAlive(amounts, seen, need, other, need, instant);
      SameDrawnAlive(other, expiries, instant);
      SameDrawnAlive(Greedy(amounts, need), expiries, instant);
    }
  }

  /** Taking everything before place p and one unit there. */
  function OneBeyond(amounts: seq<int>, p: nat, q: nat): (takes: seq<int>)
    requires p <= q < |amounts|
    ensures |takes| == |amounts|
  {
    seq(|amounts|, k requires 0 <= k < |amounts| => if k < p then amounts[k] else if k == q then 1 else 0)
  }

  lemma {:induction false} SumOneBeyond(amounts: seq<int>, p: nat, q: nat)
    requires p <= q < |amounts|
    ensures SumBy(OneBeyond(amounts, p, q), Identity) == SumBy(amounts[..p], Identity) + 1
    decreases |amounts|
  {
    var takes := OneBeyond(amounts, p, q);
    SumFront(takes);
    if p > 0 {
      assert takes[1..] == OneBeyond(amounts[1..], p - 1, q - 1);
      SumFront(amounts[..p]);
      assert amounts[..p][1..] == amounts[1..][..p - 1];
      SumOneBeyond(amounts[1..], p - 1, q - 1);
    } else if q > 0 {
      assert takes[1..] == OneBeyond(amounts[1..], 0, q - 1);
      assert amounts[..0] == amounts[1..][..0];
      SumOneBeyond(amounts[1..], 0, q - 1);
    } else {
      SumZero(takes[1..], Identity);
      assert amounts[..0] == [];
    }
  }

  lemma {:induction false} GreedyTakesOneBeyond(amounts: seq<int>, p: nat)
    requires p < |amounts| && forall k :: 0 <= k < |amounts| ==> amounts[k] > 0
    ensures Greedy(amounts, SumBy(amounts[..p], Identity) + 1) == OneBeyond(amounts, p, p)
    decreases p
  {
    if p == 0 {
      assert amounts[..0] == [];
      GreedyOfNothing(amounts[1..]);
    } else {
      SumFront(amounts[..p]);
      assert amounts[..p][1..] == amounts[1..][..p - 1];
      SumNonNegative(amounts[1..][..p - 1], Identity);
      GreedyTakesOneBeyond(amounts[1..], p - 1);
      assert OneBeyond(amounts, p, p) == [amounts[0]] + OneBeyond(amounts[1..], p - 1, p - 1);
    }
  }

  lemma {:induction false} DrawnAliveOneBeyond(amounts: seq<int>, expiries: seq<Option<int>>, p: nat, q: nat, instant: int)
    requires p <= q < |amounts| == |expiries| && forall k :: 0 <= k < p ==> !Alive(expiries[k], instant)
    ensures DrawnAlive(OneBeyond(amounts, p, q), expiries, instant) == if Alive(expiries[q], instant) then 1 else 0
    decreases |amounts|
  {
    var takes := OneBeyond(amounts, p, q);
    if p > 0 {
      assert takes[1..] == OneBeyond(amounts[1..], p - 1, q - 1);
      DrawnAliveOneBeyond(amounts[1..], expiries[1..], p - 1, q - 1, instant);
    } else if q > 0 {
      assert takes[1..] == OneBeyond(amounts[1..], 0, q - 1);
      DrawnAliveOneBeyond(amounts[1..], expiries[1..], 0, q - 1, instant);
    } else {
      NothingDrawn(takes[1..], expiries[1..], instant);
    }
  }

  lemma {:induction false} NothingDrawn(takes: seq<int>, expiries: seq<Option<int>>, instant: int)
    requires |takes| == |expiries| && forall k :: 0 <= k < |takes| ==> takes[k] == 0
    ensures DrawnAlive(takes, expiries, instant) == 0
  {
    if takes != [] {
      NothingDrawn(takes[1..], expiries[1..], instant);
    }
  }

  /** A lot alive at `instant` walked before a dead one makes the walk waste a unit. */
  lemma NotDeadFirstIsNotBest(amounts: seq<int>, expiries: seq<Option<int>>, p: nat, q: nat, instant: int)
    requires |amounts| == |expiries| && (forall k :: 0 <= k < |amounts| ==> amounts[k] > 0)
    requires p < q < |amounts| && Alive(expiries[p], instant) && !Alive(expiries[q], instant)
    requires forall k :: 0 <= k < p ==> !Alive(expiries[k], instant)
    ensures var need := SumBy(amounts[..p], Identity) + 1; 0 < need <= SumBy(amounts, Identity) && !Best(amounts, expiries, need, instant)
  {
    var need := SumBy(amounts[..p], Identity) + 1;
    var other := OneBeyond(amounts, p, q);
    SumNonNegative(amounts[..p], Identity);
    SumOneBeyond(amounts, p, q);
    GreedyTakesOneBeyond(amounts, p);
    DrawnAliveOneBeyond(amounts, expiries, p, p, instant);
    DrawnAliveOneBeyond(amounts, expiries, p, q, instant);
    assert Draws(amounts, other, need);
    SumConcat(amounts[..p], amounts[p..], Identity);
    assert amounts[..p] + amounts[p..] == amounts;
    SumNonNegative(amounts[p..], Identity);
    assert amounts[p..][0] == amounts[p];
  }

  lemma {:induction false} FirstAlive(expiries: seq<Option<int>>, j: nat, instant: int) returns (p: nat)
    requires j < |expiries| && Alive(expiries[j], instant)
    ensures p <= j && Alive(expiries[p], instant) && forall k :: 0 <= k < p ==> !Alive(expiries[k], instant)
  {
    p := 0;
    while !Alive(expiries[p], instant)
      invariant p <= j && forall k :: 0 <= k < p ==> !Alive(expiries[k], instant)
      decreases j - p
    {
      p := p + 1;
    }
  }

  /** The walk is the best allocation at `instant`, for every amount, exactly when the dead lots
      come first. */
  lemma BestExactlyWhenDeadFirst(amounts: seq<int>, expiries: seq<Option<int>>, instant: int)
    requires |amounts| == |expiries| && forall k :: 0 <= k < |amounts| ==> amounts[k] > 0
    ensures (forall need :: 0 < need <= SumBy(amounts, Identity) ==> Best(amounts, expiries, need, instant)) <==> DeadFirst(expiries, instant)
  {
    if DeadFirst(expiries, instant) {
      forall need | 0 < need <= SumBy(amounts, Identity) ensures Best(amounts, expiries, need, instant) {
        DeadFirstIsBest(amounts, expiries, need, instant);
      }
    } else {
      var j, q :| 0 <= j < q < |expiries| && Alive(expiries[j], instant) && !Alive(expiries[q], instant);
      var p := FirstAlive(expiries, j, instant);
      NotDeadFirstIsNotBest(amounts, expiries, p, q, instant);
    }
  }

  /** Some candidate never expires while another expires in the year 9999 or later, by `instant`. */
  ghost predicate LateExpiry(lots: seq<Lot>, owner: Owner, currency: Currency, now: int, instant: int) {
    && (exists i :: 0 <= i < |lots| && Candidate(lots[i], owner, currency, now) && lots[i].expiresAt.None?)
    && (exists i :: 0 <= i < |lots| && Candidate(lots[i], owner, currency, now) && ExpiresLate(lots[i], instant))
  }

  predicate ExpiresLate(lot: Lot, instant: int) {
    lot.expiresAt.Some? && YEAR_9999 <= lot.expiresAt.value <= instant
  }

  lemma KeysDecide(lots: seq<Lot>, chosen: seq<nat>, instant: int)
    requires Within(chosen, |lots|) && SortedByKey(chosen, lots)
    ensures DeadFirst(Expiries(lots, chosen), instant) <==>
              !((exists p :: 0 <= p < |chosen| && lots[chosen[p]].expiresAt.None?)
                && (exists q :: 0 <= q < |chosen| && ExpiresLate(lots[chosen[q]], instant)))
  {
    var expiries := Expiries(lots, chosen);
    if !DeadFirst(expiries, instant) {
      var j, k :| 0 <= j < k < |expiries| && Alive(expiries[j], instant) && !Alive(expiries[k], instant);
      assert Before(lots[chosen[j]], lots[chosen[k]]);
      assert lots[chosen[j]].expiresAt.None? && ExpiresLate(lots[chosen[k]], instant);
    } else if exists q :: 0 <= q < |chosen| && ExpiresLate(lots[chosen[q]], instant) {
      var q :| 0 <= q < |chosen| && ExpiresLate(lots[chosen[q]], instant);
      forall p | 0 <= p < |chosen| ensures lots[chosen[p]].expiresAt.Some? {
        assert expiries[p] == lots[chosen[p]].expiresAt && expiries[q] == lots[chosen[q]].expiresAt;
        if q < p {
          assert Before(lots[chosen[q]], lots[chosen[p]]);
        }
      }
    }
  }

  lemma ChosenAreCandidates(lots: seq<Lot>, owner: Owner, currency: Currency, now: int, i: nat)
    requires i < |lots| && Candidate(lots[i], owner, currency, now)
    ensures exists k :: 0 <= k < |Chosen(lots, owner, currency, now)| && Chosen(lots, owner, currency, now)[k] == i
  {
    assert i in Chosen(lots, owner, currency, now);
  }

  lemma LateExpiryAmongChosen(lots: seq<Lot>, owner: Owner, currency: Currency, now: int, instant: int)
    ensures var chosen := Chosen(lots, owner, currency, now);
            LateExpiry(lots, owner, currency, now, instant) <==>
              && (exists p :: 0 <= p < |chosen| && lots[chosen[p]].expiresAt.None?)
              && (exists q :: 0 <= q < |chosen| && ExpiresLate(lots[chosen[q]], instant))
  {
    ChosenAreSorted(lots, owner, currency, now);
    var chosen := Chosen(lots, owner, currency, now);
    if LateExpiry(lots, owner, currency, now, instant) {
      var i :| 0 <= i < |lots| && Candidate(lots[i], owner, currency, now) && lots[i].expiresAt.None?;
      var j :| 0 <= j < |lots| && Candidate(lots[j], owner, currency, now) && ExpiresLate(lots[j], instant);
      ChosenAreCandidates(lots, owner, currency, now, i);
      ChosenAreCandidates(lots, owner, currency, now, j);
      var p :| 0 <= p < |chosen| && chosen[p] == i;
      var q :| 0 <= q < |chosen| && chosen[q] == j;
      assert lots[chosen[p]].expiresAt.None? && ExpiresLate(lots[chosen[q]], instant);
    }
  }

  /** First-expiring-first is optimal for every amount, as seen from `instant`, exactly unless a
      lot that never expires meets one that expires in the year 9999 or later. */
  lemma ConsumeIsBestExactlyBefore9999(lots: seq<Lot>, owner: Owner, currency: Currency, now: int, instant: int)
    ensures var chosen := Chosen(lots, owner, currency, now);
            var amounts, expiries := Amounts(lots, chosen), Expiries(lots, chosen);
            (forall need :: 0 < need <= SumBy(amounts, Identity) ==> Best(amounts, expiries, need, instant))
            <==> !LateExpiry(lots, owner, currency, now, instant)
  {
    var chosen := Chosen(lots, owner, currency, now);
    ChosenAreSorted(lots, owner, currency, now);
    LateExpiryAmongChosen(lots, owner, currency, now, instant);
    hide Chosen, LateExpiry, Best;
    BestExactlyWhenDeadFirst(Amounts(lots, chosen), Expiries(lots, chosen), instant);
    KeysDecide(lots, chosen, instant);
  }

  // ---- Ledger and lots agree ------------------------------------------------------------------------

  /** One currency, or all of them together. */
  predicate Covers(c: Option<Currency>, currency: Currency) {
    c.None? || c.value == currency
  }

  function Share(owner: Owner, c: Option<Currency>): Lot -> int {
    (l: Lot) => if l.owner == owner && Covers(c, l.currency) then l.remaining else 0
  }

  function Signed(owner: Owner, c: Option<Currency>): Entry -> int {
    (e: Entry) => if e.owner != owner || !Covers(c, e.currency) then 0 else if e.kind == Credit then e.amount else -e.amount
  }

  /** What an owner's lots still hold, and what the ledger says they hold. */
  function Held(s: State, owner: Owner, c: Option<Currency>): int {
    SumBy(s.lots, Share(owner, c))
  }

  function Recorded(s: State, owner: Owner, c: Option<Currency>): int {
    SumBy(s.ledger, Signed(owner, c))
  }

  predicate NamesOldLot(e: Entry, lots: nat) {
    match e.reference
    case GrantOf(lot) => e.kind == Credit ==> lot < lots
    case PurchaseOf(lot) => e.kind == Credit ==> lot < lots
    case Other(_) => true
  }

  ghost predicate Agreed(s: State) {
    && (forall owner, c :: Held(s, owner, c) == Recorded(s, owner, c))
    && (forall i :: 0 <= i < |s.lots| ==> s.lots[i].remaining >= 0)
    && (forall i :: 0 <= i < |s.ledger| ==> NamesOldLot(s.ledger[i], |s.lots|))
  }

  ghost predicate BelongTo(lots: seq<Lot>, chosen: seq<nat>, owner: Owner, currency: Currency)
    requires Within(chosen, |lots|)
  {
    forall k :: 0 <= k < |chosen| ==> lots[chosen[k]].owner == owner && lots[chosen[k]].currency == currency
  }

  lemma FirstStepBelongs(lots: seq<Lot>, chosen: seq<nat>, need: int, owner: Owner, currency: Currency)
    requires Within(chosen, |lots|) && BelongTo(lots, chosen, owner, currency) && chosen != []
    ensures BelongTo(AfterFirst(lots, chosen, need), chosen[1..], owner, currency)
  {
  }

  /** The first lot gives its part to the owner and currency of the walk only. */
  lemma FirstStepTakes(lots: seq<Lot>, chosen: seq<nat>, need: int, owner: Owner, currency: Currency, o: Owner, c: Option<Currency>)
    requires Within(chosen, |lots|) && BelongTo(lots, chosen, owner, currency) && chosen != []
    ensures SumBy(AfterFirst(lots, chosen, need), Share(o, c))
            == SumBy(lots, Share(o, c)) - (if o == owner && Covers(c, currency) then Min(lots[chosen[0]].remaining, need) else 0)
  {
    SumUpdate(lots, chosen[0], AfterFirst(lots, chosen, need)[chosen[0]], Share(o, c));
    hide SumBy;
  }

  /** What is still needed is covered by the other chosen lots. */
  lemma FirstStepCovers(lots: seq<Lot>, chosen: seq<nat>, need: int)
    requires Within(chosen, |lots|) && Drawable(lots, chosen) && chosen != [] && 0 <= need <= SumBy(Amounts(lots, chosen), Identity)
    ensures 0 <= need - Min(lots[chosen[0]].remaining, need)
    ensures need != Min(lots[chosen[0]].remaining, need) ==>
              need - Min(lots[chosen[0]].remaining, need) <= SumBy(Amounts(AfterFirst(lots, chosen, need), chosen[1..]), Identity)
  {
    FirstStep(lots, chosen, need);
    SumFront(Amounts(lots, chosen));
    hide Walk, AfterFirst, SumBy, Drawable;
  }

  lemma NothingToWalk(lots: seq<Lot>, need: int)
    requires 0 <= need <= SumBy(Amounts(lots, []), Identity)
    ensures need == 0 && Walk(lots, [], need) == lots
  {
  }

  /** The walk takes exactly what is needed, all of it from the chosen owner and currency. */
  lemma {:induction false} WalkTakesNeed(lots: seq<Lot>, chosen: seq<nat>, need: int, owner: Owner, currency: Currency, o: Owner, c: Option<Currency>)
    requires Within(chosen, |lots|) && 0 <= need <= SumBy(Amounts(lots, chosen), Identity)
    requires Drawable(lots, chosen) && BelongTo(lots, chosen, owner, currency)
    ensures SumBy(Walk(lots, chosen, need), Share(o, c)) == SumBy(lots, Share(o, c)) - if o == owner && Covers(c, currency) then need else 0
    decreases |chosen|
  {
    hide Walk, SumBy, AfterFirst, Amounts, Drawable, BelongTo, Share, Greedy;
    if chosen == [] {
      NothingToWalk(lots, need);
    } else {
      var lots', need' := AfterFirst(lots, chosen, need), need - Min(lots[chosen[0]].remaining, need);
      FirstStep(lots, chosen, need);
      FirstStepBelongs(lots, chosen, need, owner, currency);
      FirstStepTakes(lots, chosen, need, owner, currency, o, c);
      FirstStepCovers(lots, chosen, need);
      if need' != 0 {
        WalkTakesNeed(lots', chosen[1..], need', owner, currency, o, c);
      }
    }
  }

  /** Drawing more than asked, or from another owner, cannot happen: what a consumption leaves. */
  lemma ConsumedLots(lots: seq<Lot>, owner: Owner, amount: int, currency: Currency, now: int, o: Owner, c: Option<Currency>)
    requires amount > 0 && amount <= SumBy(Amounts(lots, Chosen(lots, owner, currency, now)), Identity)
    requires forall i :: 0 <= i < |lots| ==> lots[i].remaining >= 0
    ensures var after := Walk(lots, Chosen(lots, owner, currency, now), amount);
            && (forall i :: 0 <= i < |after| ==> 0 <= after[i].remaining <= lots[i].remaining && after[i] == lots[i].(remaining := after[i].remaining))
            && SumBy(after, Share(o, c)) == SumBy(lots, Share(o, c)) - if o == owner && Covers(c, currency) then amount else 0
  {
    var chosen := Chosen(lots, owner, currency, now);
    ChosenAreSorted(lots, owner, currency, now);
    WalkTakesNeed(lots, chosen, amount, owner, currency, o, c);
    var amounts := Amounts(lots, chosen);
    GreedyDraws(amounts, amount);
    var after := Walk(lots, chosen, amount);
    forall i | 0 <= i < |after|
      ensures 0 <= after[i].remaining <= lots[i].remaining && after[i] == lots[i].(remaining := after[i].remaining)
    {
      if i in chosen {
        var k :| 0 <= k < |chosen| && chosen[k] == i;
        WalkAt(lots, chosen, amount, k);
        assert 0 <= Greedy(amounts, amount)[k] <= amounts[k];
      } else {
        WalkElsewhere(lots, chosen, amount, i);
      }
    }
  }

  lemma ConsumeEffect(s: State, owner: Owner, amount: int, currency: Currency, reference: Reference, now: int)
    requires Consume(s, owner, amount, currency, reference, now).result.Success?
    ensures var s' := Consume(s, owner, amount, currency, reference, now).state;
            && s'.lots == Walk(s.lots, Chosen(s.lots, owner, currency, now), amount)
            && s'.ledger == s.ledger + [Entry(owner, Debit, amount, currency, reference)]
            && 0 < amount <= SumBy(Amounts(s.lots, Chosen(s.lots, owner, currency, now)), Identity)
  {
  }

  lemma ConsumeKeepsAgreed(s: State, owner: Owner, amount: int, currency: Currency, reference: Reference, now: int)
    requires Agreed(s) && Consume(s, owner, amount, currency, reference, now).result.Success?
    ensures Agreed(Consume(s, owner, amount, currency, reference, now).state)
  {
    ConsumeEffect(s, owner, amount, currency, reference, now);
    hide Consume, Walk, Chosen, Amounts;
    var s' := Consume(s, owner, amount, currency, reference, now).state;
    var entry := Entry(owner, Debit, amount, currency, reference);
    forall o, c ensures Held(s', o, c) == Recorded(s', o, c) {
      ConsumedLots(s.lots, owner, amount, currency, now, o, c);
      SumAppend(s.ledger, entry, Signed(o, c));
      assert Held(s, o, c) == Recorded(s, o, c);
    }
    ConsumedLots(s.lots, owner, amount, currency, now, owner, Some(currency));
    forall i | 0 <= i < |s'.ledger| ensures NamesOldLot(s'.ledger[i], |s'.lots|) {
      assert i < |s.ledger| ==> NamesOldLot(s.ledger[i], |s.lots|);
    }
  }

  /** A new lot always gets its ledger entry: its reference cannot be taken. */
  lemma NewLotIsBooked(s: State, owner: Owner, amount: int, currency: Currency, expiresAt: Option<int>, purchase: bool, now: int)
    requires Agreed(s) && IsPositiveMinor(amount)
    ensures AddLot(s, owner, amount, currency, expiresAt, purchase, now).result.Success?
    ensures Agreed(AddLot(s, owner, amount, currency, expiresAt, purchase, now).state)
  {
    var s' := AddLot(s, owner, amount, currency, expiresAt, purchase, now).state;
    var reference := if purchase then PurchaseOf(|s.lots|) else GrantOf(|s.lots|);
    var entry := Entry(owner, Credit, amount, currency, reference);
    forall i | 0 <= i < |s.ledger| ensures !SameEntry(s.ledger[i], entry) {
      assert NamesOldLot(s.ledger[i], |s.lots|);
    }
    assert s'.lots == s.lots + [Lot(owner, amount, currency, expiresAt, now)] && s'.ledger == s.ledger + [entry];
    forall o, c ensures Held(s', o, c) == Recorded(s', o, c) {
      assert Held(s, o, c) == Recorded(s, o, c);
      SumAppend(s.lots, Lot(owner, amount, currency, expiresAt, now), Share(o, c));
      SumAppend(s.ledger, entry, Signed(o, c));
    }
    forall i | 0 <= i < |s'.ledger| ensures NamesOldLot(s'.ledger[i], |s'.lots|) {
      assert i < |s.ledger| ==> NamesOldLot(s.ledger[i], |s.lots|);
    }
  }

  lemma TransactKeepsAgreed(s: State, r: Request)
    requires Agreed(s)
    ensures Agreed(Transact(s, r))
  {
    hide Agreed, Consume, AddLot;
    if Perform(s, r).result.Success? {
      match r
      case Grant(owner, amount, currency, expiresAt, now) =>
        ValidAmount(s, owner, amount, currency, expiresAt, false, now);
        NewLotIsBooked(s, owner, amount, currency, expiresAt, false, now);
      case Purchase(owner, amount, currency, now) =>
        ValidAmount(s, owner, amount, currency, None, true, now);
        NewLotIsBooked(s, owner, amount, currency, None, true, now);
      case Use(owner, amount, currency, reference, now) =>
        ConsumeKeepsAgreed(s, owner, amount, currency, reference, now);
    }
  }

  lemma ValidAmount(s: State, owner: Owner, amount: int, currency: Currency, expiresAt: Option<int>, purchase: bool, now: int)
    ensures AddLot(s, owner, amount, currency, expiresAt, purchase, now).result.Success? ==> IsPositiveMinor(amount)
  {
  }

  /** In every run of grants, purchases and consumptions the ledger of each owner sums to what
      the lots still hold, in each currency and in all of them together. */
  lemma {:induction false} RunKeepsAgreed(s: State, requests: seq<Request>)
    requires Agreed(s)
    ensures Agreed(Run(s, requests))
    decreases |requests|
  {
    hide Agreed, Transact;
    if requests != [] {
      TransactKeepsAgreed(s, requests[0]);
      RunKeepsAgreed(Transact(s, requests[0]), requests[1..]);
    }
  }

  // ---- Throwing after the lots were drained -----------------------------------------------------------

  /** A consumption whose reference is taken drains the lots and then throws; only because the
      store drops the working copy does nothing happen. */
  lemma ConflictIsUndoneByTheStore(s: State, owner: Owner, amount: int, currency: Currency, reference: Reference, now: int)
    requires Agreed(s) && IsPositiveMinor(amount) && Booked(s.ledger, Entry(owner, Debit, amount, currency, reference))
    requires amount <= SumBy(Amounts(s.lots, Chosen(s.lots, owner, currency, now)), Identity)
    ensures var outcome := Consume(s, owner, amount, currency, reference, now);
            && outcome.result == Failure(Conflict)
            && Held(outcome.state, owner, Some(currency)) == Held(s, owner, Some(currency)) - amount
            && Recorded(outcome.state, owner, Some(currency)) == Recorded(s, owner, Some(currency))
            && !Agreed(outcome.state)
    ensures Transact(s, Use(owner, amount, currency, reference, now)) == s
  {
    ConsumedLots(s.lots, owner, amount, currency, now, owner, Some(currency));
    var outcome := Consume(s, owner, amount, currency, reference, now);
    assert Held(s, owner, Some(currency)) == Recorded(s, owner, Some(currency));
  }

  /** A consumption succeeds exactly when the amount is valid, the unexpired lots cover it and
      the reference is new; repeated with the same reference it changes nothing. */
  lemma ConsumeSucceedsExactlyWhenCovered(s: State, owner: Owner, amount: int, currency: Currency, reference: Reference, now: int, later: int)
    requires Agreed(s)
    ensures var outcome := Consume(s, owner, amount, currency, reference, now);
            && (outcome.result.Success? <==>
                  && IsPositiveMinor(amount) && amount <= Unexpired(s.lots, owner, currency, now)
                  && !Booked(s.ledger, Entry(owner, Debit, amount, currency, reference)))
            && (outcome.result.Success? ==> Transact(outcome.state, Use(owner, amount, currency, reference, later)) == outcome.state)
  {
    var outcome := Consume(s, owner, amount, currency, reference, now);
    UnexpiredIsChosen(s.lots, owner, currency, now);
    if outcome.result.Success? {
      var entry := Entry(owner, Debit, amount, currency, reference);
      assert SameEntry(outcome.state.ledger[|s.ledger|], entry);
      assert Booked(outcome.state.ledger, entry);
    }
  }

  /** What the owner can spend of one currency, read off the lots in any order. */
  function Unexpired(lots: seq<Lot>, owner: Owner, currency: Currency, now: int): int {
    SumBy(lots, SpendableAt(owner, currency, now))
  }

  function SpendableAt(owner: Owner, currency: Currency, now: int): Lot -> int {
    (l: Lot) => if Candidate(l, owner, currency, now) then l.remaining else 0
  }

  lemma {:induction false} InsertSum(i: nat, sorted: seq<nat>, lots: seq<Lot>)
    requires i < |lots| && Within(sorted, |lots|)
    ensures SumBy(Amounts(lots, Insert(i, sorted, lots)), Identity) == lots[i].remaining + SumBy(Amounts(lots, sorted), Identity)
    decreases |sorted|
  {
    var r := Insert(i, sorted, lots);
    SumFront(Amounts(lots, r));
    assert Amounts(lots, r)[1..] == Amounts(lots, r[1..]);
    if sorted == [] || Before(lots[i], lots[sorted[0]]) {
      assert r[1..] == sorted;
    } else {
      InsertSum(i, sorted[1..], lots);
      assert r[1..] == Insert(i, sorted[1..], lots);
      SumFront(Amounts(lots, sorted));
      assert Amounts(lots, sorted)[1..] == Amounts(lots, sorted[1..]);
    }
  }

  lemma {:induction false} SortSum(chosen: seq<nat>, lots: seq<Lot>)
    requires Within(chosen, |lots|)
    ensures SumBy(Amounts(lots, Sort(chosen, lots)), Identity) == SumBy(Amounts(lots, chosen), Identity)
    decreases |chosen|
  {
    if chosen != [] {
      SortSum(chosen[1..], lots);
      InsertSum(chosen[0], Sort(chosen[1..], lots), lots);
      SumFront(Amounts(lots, chosen));
      assert Amounts(lots, chosen)[1..] == Amounts(lots, chosen[1..]);
    }
  }

  lemma AmountsPrepend(lots: seq<Lot>, i: nat, rest: seq<nat>)
    requires i < |lots| && Within(rest, |lots|)
    ensures SumBy(Amounts(lots, [i] + rest), Identity) == lots[i].remaining + SumBy(Amounts(lots, rest), Identity)
  {
    var amounts := Amounts(lots, [i] + rest);
    SumFront(amounts);
    assert amounts[1..] == Amounts(lots, rest);
  }

  lemma {:induction false} CandidatesSum(lots: seq<Lot>, owner: Owner, currency: Currency, now: int, from: nat)
    requires from <= |lots|
    ensures SumBy(Amounts(lots, CandidatesFrom(lots, owner, currency, now, from)), Identity) == SumBy(lots[from..], SpendableAt(owner, currency, now))
    decreases |lots| - from
  {
    hide Amounts;
    if from == |lots| {
      assert Amounts(lots, []) == [];
    } else {
      var rest := CandidatesFrom(lots, owner, currency, now, from + 1);
      CandidatesSum(lots, owner, currency, now, from + 1);
      SumPrepend(lots[from], lots[from + 1..], SpendableAt(owner, currency, now));
      assert [lots[from]] + lots[from + 1..] == lots[from..];
      AmountsPrepend(lots, from, rest);
      assert [] + rest == rest;
    }
  }

  lemma UnexpiredIsChosen(lots: seq<Lot>, owner: Owner, currency: Currency, now: int)
    ensures SumBy(Amounts(lots, Chosen(lots, owner, currency, now)), Identity) == Unexpired(lots, owner, currency, now)
  {
    CandidatesSum(lots, owner, currency, now, 0);
    SortSum(CandidatesFrom(lots, owner, currency, now, 0), lots);
    assert lots[0..] == lots;
  }

  // ---- Who is walked, and when a consumption is refused -----------------------------------------------

  /** Milliseconds from 1970 to the start of a year of the Gregorian calendar. */
  function StartOf(year: nat): int
    requires year >= 1970
  {
    var leaps := (year - 1) / 4 - (year - 1) / 100 + (year - 1) / 400;
    (365 * (year - 1970) + leaps - (1969 / 4 - 1969 / 100 + 1969 / 400)) * 86400000
  }

  /** The lots walked are the owner's, in the currency, with credit left and unexpired; earlier expiry
      first, among equal ones the older first, and a lot without expiry after all that expire before
      the year 9999 and before all others. */
  lemma WalkedLots(lots: seq<Lot>, owner: Owner, currency: Currency, now: int)
    ensures var chosen := Chosen(lots, owner, currency, now);
            && (forall i: nat :: i in chosen <==>
                  && i < |lots| && lots[i].owner == owner && lots[i].currency == currency && lots[i].remaining > 0
                  && (lots[i].expiresAt.None? || now < lots[i].expiresAt.value))
            && forall j, k :: 0 <= j < k < |chosen| ==>
                 var a, b := lots[chosen[j]], lots[chosen[k]];
                 && (a.expiresAt == b.expiresAt ==> a.createdAt <= b.createdAt)
                 && (a.expiresAt.Some? && b.expiresAt.Some? ==> a.expiresAt.value <= b.expiresAt.value)
                 && (a.expiresAt.None? && b.expiresAt.Some? ==> b.expiresAt.value >= StartOf(9999))
                 && (a.expiresAt.Some? && b.expiresAt.None? ==> a.expiresAt.value < StartOf(9999))
  {
    ChosenAreSorted(lots, owner, currency, now);
    assert StartOf(9999) == 253370764800000;
    hide Chosen, StartOf;
  }

  /** A consumption is refused for its amount, then for missing credit, then for its reference. */
  lemma ConsumptionRefused(s: State, owner: Owner, amount: int, currency: Currency, reference: Reference, now: int)
    ensures var result := Consume(s, owner, amount, currency, reference, now).result;
            var taken := exists i :: 0 <= i < |s.ledger| && s.ledger[i].owner == owner && s.ledger[i].kind == Debit && s.ledger[i].reference == reference;
            if amount <= 0 || amount > 9007199254740991 then result == Failure(ValidationFailed)
            else if amount > Unexpired(s.lots, owner, currency, now) then result == Failure(InsufficientBalance)
            else if taken then result == Failure(Conflict)
            else result == Success(Entry(owner, Debit, amount, currency, reference))
  {
    UnexpiredIsChosen(s.lots, owner, currency, now);
    hide Chosen, Unexpired, Walk;
  }

  /** A grant or purchase of a valid amount adds one lot and one CREDIT entry under the lot's name. */
  lemma LotStored(s: State, owner: Owner, amount: int, currency: Currency, expiresAt: Option<int>, purchase: bool, now: int)
    requires Agreed(s)
    ensures var o := AddLot(s, owner, amount, currency, expiresAt, purchase, now);
            var entry := Entry(owner, Credit, amount, currency, if purchase then PurchaseOf(|s.lots|) else GrantOf(|s.lots|));
            o == if amount <= 0 || amount > 9007199254740991 then Outcome(s, Failure(ValidationFailed))
                 else Outcome(State(s.lots + [Lot(owner, amount, currency, expiresAt, now)], s.ledger + [entry]), Success(entry))
  {
    if IsPositiveMinor(amount) {
      NewLotIsBooked(s, owner, amount, currency, expiresAt, purchase, now);
    }
    hide Agreed, Booked;
  }
}
