/** The TypeScript billing service as an object that mutates lots and appends to the ledger. */
module TsBillingTables {
  import opened Common
  import opened EarliestFirst
  import opened TsBilling
  import opened TsBillingTheorems

  class BillingService {
    var lots: seq<Lot>
    var ledger: seq<Entry>

    constructor ()
      ensures State(lots, ledger) == State([], [])
    {
      lots, ledger := [], [];
    }

    method Append(entry: Entry) returns (result: Result<Entry, Problem>)
      modifies this`ledger
      ensures Outcome(State(lots, ledger), result) == AppendLedger(State(lots, old(ledger)), entry)
    {
      var i := 0;
      while i < |ledger|
        invariant i <= |ledger| && forall k :: 0 <= k < i ==> !SameEntry(ledger[k], entry)
      {
        if SameEntry(ledger[i], entry) {
          return Failure(Conflict);
        }
        i := i + 1;
      }
      ledger := ledger + [entry];
      result := Success(entry);
    }

    method Grant(owner: Owner, amount: int, currency: Currency, expiresAt: Option<int>, purchase: bool, now: int)
      returns (result: Result<Entry, Problem>)
      modifies this
      ensures Outcome(State(lots, ledger), result)
              == AddLot(State(old(lots), old(ledger)), owner, amount, currency, expiresAt, purchase, now)
    {
      if !IsPositiveMinor(amount) {
        return Failure(ValidationFailed);
      }
      var lot := |lots|;
      lots := lots + [Lot(owner, amount, currency, expiresAt, now)];
      result := Append(Entry(owner, Credit, amount, currency, if purchase then PurchaseOf(lot) else GrantOf(lot)));
    }

    method Candidates(owner: Owner, currency: Currency, now: int) returns (chosen: seq<nat>)
      ensures chosen == CandidatesFrom(lots, owner, currency, now, 0)
    {
      chosen := [];
      var i := 0;
      while i < |lots|
        invariant i <= |lots| && Within(chosen, |lots|)
        invariant chosen + CandidatesFrom(lots, owner, currency, now, i) == CandidatesFrom(lots, owner, currency, now, 0)
      {
        if Candidate(lots[i], owner, currency, now) {
          chosen := chosen + [i];
        }
        i := i + 1;
      }
    }

    method Total(chosen: seq<nat>) returns (total: int)
      requires Within(chosen, |lots|)
      ensures total == SumBy(Amounts(lots, chosen), Identity)
    {
      total := 0;
      ghost var amounts := Amounts(lots, chosen);
      var k := 0;
      while k < |chosen|
        invariant k <= |chosen| && total == SumBy(amounts[..k], Identity)
      {
        assert amounts[..k + 1][..k] == amounts[..k];
        total := total + lots[chosen[k]].remaining;
        k := k + 1;
      }
      assert amounts[..k] == amounts;
    }

    method Draw(chosen: seq<nat>, need: int)
      requires Within(chosen, |lots|) && need > 0
      modifies this`lots
      ensures lots == Walk(old(lots), chosen, need)
    {
      var remaining := need;
      var k := 0;
      while k < |chosen| && remaining != 0
        invariant k <= |chosen| && |lots| == |old(lots)| && Within(chosen[k..], |lots|)
        invariant Walk(old(lots), chosen, need) == if remaining == 0 then lots else Walk(lots, chosen[k..], remaining)
      {
        assert chosen[k..][0] == chosen[k] && chosen[k..][1..] == chosen[k + 1..];
        var lot := lots[chosen[k]];
        var used := Min(lot.remaining, remaining);
        lots := lots[chosen[k] := lot.(remaining := lot.remaining - used)];
        remaining := remaining - used;
        k := k + 1;
      }
    }

    /** On CONFLICT the lots stay drained: the caller's transaction must drop them. */
    method Use(owner: Owner, amount: int, currency: Currency, reference: Reference, now: int)
      returns (result: Result<Entry, Problem>)
      modifies this
      ensures Outcome(State(lots, ledger), result)
              == Consume(State(old(lots), old(ledger)), owner, amount, currency, reference, now)
    {
      if !IsPositiveMinor(amount) {
        return Failure(ValidationFailed);
      }
      var found := Candidates(owner, currency, now);
      var chosen := Sort(found, lots);
      var total := Total(chosen);
      if total < amount {
        return Failure(InsufficientBalance);
      }
      Draw(chosen, amount);
      result := Append(Entry(owner, Debit, amount, currency, reference));
    }

    /** `credits`: the entries of the owner in every currency; only credits and debits occur. */
    method AvailableMinor(owner: Owner) returns (available: int)
      ensures available == Recorded(State(lots, ledger), owner, None)
    {
      available := 0;
      var i := 0;
      while i < |ledger|
        invariant i <= |ledger| && available == SumBy(ledger[..i], Signed(owner, None))
      {
        assert ledger[..i + 1][..i] == ledger[..i];
        if ledger[i].owner == owner {
          available := if ledger[i].kind == Credit then available + ledger[i].amount else available - ledger[i].amount;
        }
        i := i + 1;
      }
      assert ledger[..i] == ledger;
    }
  }
}
