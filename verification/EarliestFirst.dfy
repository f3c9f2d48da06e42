/** The allocation rule shared by the PHP and the TypeScript billing services: walk the
    lots in order of expiry and take as much as is still needed from each. */
module EarliestFirst {
  import opened Common

  function Identity(x: int): int { x }

  /** A lot without an expiry instant never expires. */
  predicate Alive(expiry: Option<int>, instant: int) {
    expiry.None? || expiry.value > instant
  }

  /** `a` is read no later than `b` when the lots without expiry come last. */
  predicate NoLater(a: Option<int>, b: Option<int>) {
    b.None? || (a.Some? && a.value <= b.value)
  }

  predicate Ordered(expiries: seq<Option<int>>) {
    forall i, j :: 0 <= i < j < |expiries| ==> NoLater(expiries[i], expiries[j])
  }

  /** What the walk takes from each amount, in order. */
  function Greedy(amounts: seq<int>, need: int): (takes: seq<int>)
    ensures |takes| == |amounts|
  {
    if amounts == [] then []
    else var t := Min(need, amounts[0]); [t] + Greedy(amounts[1..], need - t)
  }

  /** A way of drawing `need` from the same amounts. */
  predicate Draws(amounts: seq<int>, takes: seq<int>, need: int) {
    && |takes| == |amounts|
    && (forall i :: 0 <= i < |takes| ==> 0 <= takes[i] <= amounts[i])
    && SumBy(takes, Identity) == need
  }

  /** The part of `takes` drawn from lots still alive at `instant`. */
  function DrawnAlive(takes: seq<int>, expiries: seq<Option<int>>, instant: int): int
    requires |takes| == |expiries|
  {
    if takes == [] then 0
    else (if Alive(expiries[0], instant) then takes[0] else 0)
         + DrawnAlive(takes[1..], expiries[1..], instant)
  }

  lemma SumFront(s: seq<int>)
    requires s != []
    ensures SumBy(s, Identity) == s[0] + SumBy(s[1..], Identity)
  {
    SumPrepend(s[0], s[1..], Identity);
    assert [s[0]] + s[1..] == s;
  }

  /** The walk draws exactly what is needed, or everything when that is not enough. */
  lemma {:induction false} GreedyDraws(amounts: seq<int>, need: int)
    requires need >= 0 && forall i :: 0 <= i < |amounts| ==> amounts[i] >= 0
    ensures Draws(amounts, Greedy(amounts, need), Min(need, SumBy(amounts, Identity)))
  {
    if amounts != [] {
      var t := Min(need, amounts[0]);
      GreedyDraws(amounts[1..], need - t);
      SumFront(amounts);
      SumNonNegative(amounts[1..], Identity);
      var takes := Greedy(amounts, need);
      assert takes[1..] == Greedy(amounts[1..], need - t);
      SumFront(takes);
    }
  }

  lemma {:induction false} DrawnAliveBounds(takes: seq<int>, expiries: seq<Option<int>>, instant: int)
    requires |takes| == |expiries| && forall i :: 0 <= i < |takes| ==> takes[i] >= 0
    ensures 0 <= DrawnAlive(takes, expiries, instant) <= SumBy(takes, Identity)
    ensures (forall i :: 0 <= i < |expiries| ==> Alive(expiries[i], instant)) ==>
              DrawnAlive(takes, expiries, instant) == SumBy(takes, Identity)
  {
    if takes != [] {
      DrawnAliveBounds(takes[1..], expiries[1..], instant);
      SumFront(takes);
    }
  }

  /** Exchange argument: no drawing of at least as much touches less of what is still alive later. */
  lemma {:induction false} GreedyDrawsLeastAlive(
    amounts: seq<int>, expiries: seq<Option<int>>, need: int, other: seq<int>, otherNeed: int, instant: int)
    requires |amounts| == |expiries| && Ordered(expiries)
    requires 0 <= need <= otherNeed && Draws(amounts, other, otherNeed)
    ensures DrawnAlive(Greedy(amounts, need), expiries, instant) <= DrawnAlive(other, expiries, instant)
  {
    DrawnAliveBounds(other, expiries, instant);
    GreedyDraws(amounts, need);
    DrawnAliveBounds(Greedy(amounts, need), expiries, instant);
    if amounts != [] {
      var t := Min(need, amounts[0]);
      SumFront(other);
      SumNonNegative(other[1..], Identity);
      if Alive(expiries[0], instant) {
        assert forall i :: 0 < i < |expiries| ==> NoLater(expiries[0], expiries[i]);
      } else {
        GreedyDrawsLeastAlive(amounts[1..], expiries[1..], need - t, other[1..], otherNeed - other[0], instant);
        assert Greedy(amounts, need)[1..] == Greedy(amounts[1..], need - t);
      }
    }
  }
}
