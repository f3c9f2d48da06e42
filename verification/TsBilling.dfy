/** The TypeScript billing service: grants, first-expiring-first consumption and the ledger.
    Instants are milliseconds and stand for their ISO texts in UTC. */
module TsBilling {
  import opened Common
  import opened EarliestFirst

  type Owner = nat
  type Currency = nat

  /** `grant:<lot>` and `purchase:<lot>` name a new lot; a consumption names anything. */
  datatype Reference = GrantOf(lot: nat) | PurchaseOf(lot: nat) | Other(text: string)

  datatype Kind = Credit | Debit

  datatype Lot = Lot(owner: Owner, remaining: int, currency: Currency, expiresAt: Option<int>, createdAt: int)

  datatype Entry = Entry(owner: Owner, kind: Kind, amount: int, currency: Currency, reference: Reference)

  datatype State = State(lots: seq<Lot>, ledger: seq<Entry>)

  datatype Problem = ValidationFailed | InsufficientBalance | Conflict

  /** The state that the operation leaves behind, even where it throws. */
  datatype Outcome = Outcome(state: State, result: Result<Entry, Problem>)

  const MAX_SAFE_INTEGER := 9007199254740991

  /** The instant 9999-01-01T00:00:00.000Z. */
  const YEAR_9999 := 253370764800000

  predicate IsPositiveMinor(amount: int) {
    0 < amount <= MAX_SAFE_INTEGER
  }

  // ---- The ledger -----------------------------------------------------------------------------

  predicate SameEntry(a: Entry, b: Entry) {
    a.owner == b.owner && a.kind == b.kind && a.reference == b.reference
  }

  predicate Booked(ledger: seq<Entry>, entry: Entry) {
    exists i :: 0 <= i < |ledger| && SameEntry(ledger[i], entry)
  }

  function AppendLedger(s: State, entry: Entry): Outcome {
    if Booked(s.ledger, entry) then Outcome(s, Failure(Conflict))
    else Outcome(s.(ledger := s.ledger + [entry]), Success(entry))
  }

  /** `grant`, and `purchaseCredits` with the other reference and no expiry. */
  function AddLot(s: State, owner: Owner, amount: int, currency: Currency, expiresAt: Option<int>, purchase: bool, now: int): Outcome {
    if !IsPositiveMinor(amount) then Outcome(s, Failure(ValidationFailed))
    else
      var lot := |s.lots|;
      var reference := if purchase then PurchaseOf(lot) else GrantOf(lot);
      AppendLedger(s.(lots := s.lots + [Lot(owner, amount, currency, expiresAt, now)]), Entry(owner, Credit, amount, currency, reference))
  }

  // ---- Choosing lots ----------------------------------------------------------------------------

  predicate Candidate(lot: Lot, owner: Owner, currency: Currency, now: int) {
    && lot.owner == owner && lot.currency == currency && lot.remaining > 0
    && (lot.expiresAt.None? || lot.expiresAt.value > now)
  }

  predicate Within(chosen: seq<nat>, n: nat) {
    forall k :: 0 <= k < |chosen| ==> chosen[k] < n
  }

  function CandidatesFrom(lots: seq<Lot>, owner: Owner, currency: Currency, now: int, from: nat): (r: seq<nat>)
    requires from <= |lots|
    ensures Within(r, |lots|)
    ensures forall i: nat :: i in r <==> from <= i < |lots| && Candidate(lots[i], owner, currency, now)
    decreases |lots| - from
  {
    if from == |lots| then []
    else (if Candidate(lots[from], owner, currency, now) then [from] else []) + CandidatesFrom(lots, owner, currency, now, from + 1)
  }

  /** The text compared: a missing expiry is "9999", which comes after every instant of the year
      9998 and before every instant of the year 9999. */
  function Key(expiresAt: Option<int>): int {
    match expiresAt
    case None => 2 * YEAR_9999 - 1
    case Some(instant) => 2 * instant
  }

  predicate Before(a: Lot, b: Lot) {
    Key(a.expiresAt) < Key(b.expiresAt) || (Key(a.expiresAt) == Key(b.expiresAt) && a.createdAt <= b.createdAt)
  }

  function Insert(i: nat, sorted: seq<nat>, lots: seq<Lot>): (r: seq<nat>)
    requires i < |lots| && Within(sorted, |lots|)
    ensures Within(r, |lots|) && |r| == |sorted| + 1
    ensures forall k :: k in r <==> k == i || k in sorted
  {
    if sorted == [] || Before(lots[i], lots[sorted[0]]) then [i] + sorted
    else [sorted[0]] + Insert(i, sorted[1..], lots)
  }

  /** The stable sort of the candidates. */
  function Sort(chosen: seq<nat>, lots: seq<Lot>): (r: seq<nat>)
    requires Within(chosen, |lots|)
    ensures Within(r, |lots|) && |r| == |chosen|
    ensures forall k :: k in r <==> k in chosen
  {
    if chosen == [] then [] else Insert(chosen[0], Sort(chosen[1..], lots), lots)
  }

  function Chosen(lots: seq<Lot>, owner: Owner, currency: Currency, now: int): (r: seq<nat>)
    ensures Within(r, |lots|)
    ensures forall i: nat :: i in r <==> i < |lots| && Candidate(lots[i], owner, currency, now)
  {
    Sort(CandidatesFrom(lots, owner, currency, now, 0), lots)
  }

  function Amounts(lots: seq<Lot>, chosen: seq<nat>): (r: seq<int>)
    requires Within(chosen, |lots|)
    ensures |r| == |chosen|
  {
    seq(|chosen|, k requires 0 <= k < |chosen| => lots[chosen[k]].remaining)
  }

  function Expiries(lots: seq<Lot>, chosen: seq<nat>): (r: seq<Option<int>>)
    requires Within(chosen, |lots|)
    ensures |r| == |chosen|
  {
    seq(|chosen|, k requires 0 <= k < |chosen| => lots[chosen[k]].expiresAt)
  }

  // ---- Consuming -------------------------------------------------------------------------------

  /** The loop: take from each lot in turn, until nothing is needed any more. */
  function Walk(lots: seq<Lot>, chosen: seq<nat>, need: int): (r: seq<Lot>)
    requires Within(chosen, |lots|)
    ensures |r| == |lots|
    decreases |chosen|
  {
    if chosen == [] then lots
    else
      var lot := lots[chosen[0]];
      var used := Min(lot.remaining, need);
      var lots' := lots[chosen[0] := lot.(remaining := lot.remaining - used)];
      assert Within(chosen[1..], |lots'|);
      if need - used == 0 then lots' else Walk(lots', chosen[1..], need - used)
  }

  function Consume(s: State, owner: Owner, amount: int, currency: Currency, reference: Reference, now: int): Outcome {
    if !IsPositiveMinor(amount) then Outcome(s, Failure(ValidationFailed))
    else
      var chosen := Chosen(s.lots, owner, currency, now);
      if SumBy(Amounts(s.lots, chosen), Identity) < amount then Outcome(s, Failure(InsufficientBalance))
      else AppendLedger(s.(lots := Walk(s.lots, chosen, amount)), Entry(owner, Debit, amount, currency, reference))
  }

  // ---- Transactions -----------------------------------------------------------------------------

  datatype Request =
    | Grant(owner: Owner, amount: int, currency: Currency, expiresAt: Option<int>, now: int)
    | Purchase(owner: Owner, amount: int, currency: Currency, now: int)
    | Use(owner: Owner, amount: int, currency: Currency, reference: Reference, now: int)

  function Perform(s: State, r: Request): Outcome {
    match r
    case Grant(owner, amount, currency, expiresAt, now) => AddLot(s, owner, amount, currency, expiresAt, false, now)
    case Purchase(owner, amount, currency, now) => AddLot(s, owner, amount, currency, None, true, now)
    case Use(owner, amount, currency, reference, now) => Consume(s, owner, amount, currency, reference, now)
  }

  /** The store drops the working copy of a transaction that throws. */
  function Transact(s: State, r: Request): State {
    var outcome := Perform(s, r);
    if outcome.result.Success? then outcome.state else s
  }

  function Run(s: State, requests: seq<Request>): State
    decreases |requests|
  {
    if requests == [] then s else Run(Transact(s, requests[0]), requests[1..])
  }
}
