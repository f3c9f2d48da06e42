/** The credit service as it runs: tables updated row by row inside a transaction. The answers
    of the two ordered queries are parameters, and a thrown error rolls the tables back. */
module CreditWallet {
  import opened Common
  import opened EarliestFirst
  import opened Credits
  import opened CreditInvariant
  import CreditTheorems

  /** One round of the loop of `reserve`. */
  lemma WalkNext(lots: seq<Lot>, rows: seq<nat>, k: nat, left: int)
    requires (forall i :: 0 <= i < |rows| ==> rows[i] < |lots|) && k < |rows| && left != 0
    ensures var take := Min(left, lots[rows[k]].remaining);
            var rest := WalkRows(lots[rows[k] := MoveLot(lots[rows[k]], Hold, take)], rows[k + 1..], left - take);
            WalkRows(lots, rows[k..], left) == Walk(rest.lots, [Allocation(rows[k], take)] + rest.allocations, rest.left)
  {
    hide MoveLot;
    assert rows[k..][1..] == rows[k + 1..];
  }

  /** After `k` rows: what the rest of the walk will add completes the whole walk. */
  ghost predicate WalkedTo(before: seq<Lot>, rows: seq<nat>, quantity: int, k: nat, now: Walk)
    requires |before| == |now.lots| && k <= |rows|
    requires forall i :: 0 <= i < |rows| ==> rows[i] < |now.lots|
  {
    var rest := WalkRows(now.lots, rows[k..], now.left);
    WalkRows(before, rows, quantity) == Walk(rest.lots, now.allocations + rest.allocations, rest.left)
  }

  lemma WalkStarts(lots: seq<Lot>, rows: seq<nat>, quantity: int)
    requires forall i :: 0 <= i < |rows| ==> rows[i] < |lots|
    ensures WalkedTo(lots, rows, quantity, 0, Walk(lots, [], quantity))
  {
    hide WalkRows;
    assert rows[0..] == rows;
  }

  lemma WalkStep(before: seq<Lot>, rows: seq<nat>, quantity: int, k: nat, now: Walk)
    requires |before| == |now.lots| && k < |rows| && forall i :: 0 <= i < |rows| ==> rows[i] < |now.lots|
    requires WalkedTo(before, rows, quantity, k, now) && now.left != 0
    ensures var lot := now.lots[rows[k]];
            var take := Min(now.left, lot.remaining);
            WalkedTo(before, rows, quantity, k + 1,
                     Walk(now.lots[rows[k] := MoveLot(lot, Hold, take)], now.allocations + [Allocation(rows[k], take)], now.left - take))
  {
    WalkNext(now.lots, rows, k, now.left);
    hide WalkRows, MoveLot;
  }

  lemma WalkEnds(before: seq<Lot>, rows: seq<nat>, quantity: int, k: nat, now: Walk)
    requires |before| == |now.lots| && k <= |rows| && forall i :: 0 <= i < |rows| ==> rows[i] < |now.lots|
    requires WalkedTo(before, rows, quantity, k, now) && (k == |rows| || now.left == 0)
    ensures WalkRows(before, rows, quantity) == now
  {
  }

  /** One round of the loop of `expire`. */
  lemma SweepNext(w: Wallet, rows: seq<nat>, k: nat)
    requires (forall i :: 0 <= i < |rows| ==> rows[i] < |w.lots|) && k < |rows|
    ensures SweepRows(w, rows[k..])
            == if ScopeUsed(w.ledger, ExpireLot(rows[k])) then Thrown(UniqueViolation) else SweepRows(SweepLot(w, rows[k]), rows[k + 1..])
  {
    hide ScopeUsed, SweepLot;
    assert rows[k..][1..] == rows[k + 1..];
  }

  /** After `k` rows: sweeping the others completes the whole sweep. */
  ghost predicate SweptTo(before: Wallet, rows: seq<nat>, k: nat, now: Wallet) {
    && k <= |rows| && |now.lots| == |before.lots| && (forall i :: 0 <= i < |rows| ==> rows[i] < |now.lots|)
    && SweepRows(before, rows) == SweepRows(now, rows[k..])
  }

  lemma SweepStarts(w: Wallet, rows: seq<nat>)
    requires forall i :: 0 <= i < |rows| ==> rows[i] < |w.lots|
    ensures SweptTo(w, rows, 0, w)
  {
    hide SweepRows;
    assert rows[0..] == rows;
  }

  lemma SweepGoesOn(before: Wallet, rows: seq<nat>, k: nat, now: Wallet)
    requires k < |rows| && SweptTo(before, rows, k, now)
    ensures rows[k] < |now.lots|
    ensures if ScopeUsed(now.ledger, ExpireLot(rows[k])) then
              (forall i :: 0 <= i < |rows| ==> rows[i] < |before.lots|) && SweepRows(before, rows) == Thrown(UniqueViolation)
            else SweptTo(before, rows, k + 1, SweepLot(now, rows[k]))
  {
    SweepNext(now, rows, k);
    hide SweepRows, ScopeUsed;
  }

  lemma SweepEnds(before: Wallet, rows: seq<nat>, now: Wallet)
    requires SweptTo(before, rows, |rows|, now)
    ensures (forall i :: 0 <= i < |rows| ==> rows[i] < |before.lots|) && SweepRows(before, rows) == Done(now, ())
  {
    assert rows[|rows|..] == [];
  }

  class WalletTables {
    var lots: seq<Lot>
    var ledger: seq<Entry>
    var reservations: seq<Reservation>
    var keys: map<KeyId, KeyRecord>

    ghost function State(): Wallet
      reads this
    {
      Wallet(lots, ledger, reservations, keys)
    }

    ghost predicate Valid()
      reads this
    {
      Inv(State()) && ReservationsInRange(State())
    }

    constructor ()
      ensures State() == Empty && Valid()
    {
      lots, ledger, reservations, keys := [], [], [], map[];
    }

    method Rollback(saved: Wallet)
      modifies this
      ensures State() == saved
    {
      lots, ledger, reservations, keys := saved.lots, saved.ledger, saved.reservations, saved.keys;
    }

    /** The private `entry`: one appended ledger row. */
    method AppendEntry(quantity: int, kind: Kind, reference: string, scope: Option<Scope>) returns (id: nat)
      modifies this`ledger
      ensures ledger == old(ledger) + [Entry(quantity, kind, reference, scope)] && id == |old(ledger)|
    {
      id := |ledger|;
      ledger := ledger + [Entry(quantity, kind, reference, scope)];
    }

    /** The query of `ReferenceUsed`'s unique index, row by row. */
    method FindReference(reference: string) returns (used: bool)
      ensures used == ReferenceUsed(reservations, reference)
    {
      used := false;
      for i := 0 to |reservations|
        invariant used == exists k :: 0 <= k < i && reservations[k].reference == reference
      {
        used := used || reservations[i].reference == reference;
      }
    }

    method FindScope(scope: Scope) returns (used: bool)
      ensures used == ScopeUsed(ledger, scope)
    {
      used := false;
      for i := 0 to |ledger|
        invariant used == exists k :: 0 <= k < i && ledger[k].scope == Some(scope)
      {
        used := used || ledger[i].scope == Some(scope);
      }
    }

    method Grant(g: Grant) returns (r: Result<nat, Error>)
      requires Valid() && GrantOk(g)
      modifies this
      ensures Valid() && State() == WalletOf(old(State()), GrantCredits(old(State()), g))
      ensures match GrantCredits(old(State()), g)
              case Done(_, v) => r == Success(v)
              case Thrown(e) => r == Failure(e)
    {
      hide Inv, ReservationsInRange;
      ghost var before := State();
      GrantKeepsInv(before, g);
      InRange(WalletOf(before, GrantCredits(before, g)));
      if g.quantity <= 0 && g.operation != CreditPurchase {
        return Failure(if g.operation == AdminCreditGrant then Forbidden else ValidationFailed);
      }
      var id := KeyId(g.operation, g.key);
      if !KeyLengthOk(g.key) {
        return Failure(ValidationFailed);
      }
      if id in keys {
        return if keys[id].body != GrantBody(g.body) then Failure(BodyMismatch) else Success(keys[id].result);
      }
      if g.quantity <= 0 {
        return Failure(ValidationFailed);
      }
      var entry := AppendEntry(g.quantity, KindOf(g.operation), g.reference, None);
      lots := lots + [Lot(g.quantity, g.quantity, 0, g.expiresAt, entry)];
      keys := keys[id := KeyRecord(GrantBody(g.body), entry)];
      r := Success(entry);
    }

    /** Walks the rows, lowering what is still needed, as the `foreach` of `reserve` does. */
    method WalkLots(rows: seq<nat>, quantity: int) returns (allocations: seq<Allocation>, left: int)
      requires forall i :: 0 <= i < |rows| ==> rows[i] < |lots|
      modifies this`lots
      ensures Walk(lots, allocations, left) == WalkRows(old(lots), rows, quantity)
    {
      allocations, left := [], quantity;
      var k := 0;
      hide WalkRows, WalkedTo;
      WalkStarts(lots, rows, quantity);
      while k < |rows| && left != 0
        invariant 0 <= k <= |rows| && |lots| == |old(lots)|
        invariant WalkedTo(old(lots), rows, quantity, k, Walk(lots, allocations, left))
      {
        WalkStep(old(lots), rows, quantity, k, Walk(lots, allocations, left));
        var lot := lots[rows[k]];
        var take := Min(left, lot.remaining);
        lots := lots[rows[k] := lot.(remaining := lot.remaining - take, reserved := lot.reserved + take)];
        allocations := allocations + [Allocation(rows[k], take)];
        left := left - take;
        k := k + 1;
      }
      WalkEnds(old(lots), rows, quantity, k, Walk(lots, allocations, left));
    }

    method Reserve(quantity: int, reference: string, key: string, rows: seq<nat>, ghost now: int) returns (r: Result<nat, Error>)
      requires Valid() && SpendableQuery(lots, now, rows)
      modifies this
      ensures Valid() && State() == WalletOf(old(State()), ReserveCredits(old(State()), quantity, reference, key, rows))
      ensures match ReserveCredits(old(State()), quantity, reference, key, rows)
              case Done(_, v) => r == Success(v)
              case Thrown(e) => r == Failure(e)
    {
      hide Inv, ReservationsInRange, ReferenceUsed, WalkRows;
      ghost var before := State();
      ReserveKeepsInv(before, quantity, reference, key, rows, now);
      InRange(WalletOf(before, ReserveCredits(before, quantity, reference, key, rows)));
      var id := KeyId(CreditReserve, key);
      if quantity <= 0 || !KeyLengthOk(key) {
        return Failure(ValidationFailed);
      }
      if id in keys {
        return if keys[id].body != ReserveBody(quantity, reference) then Failure(BodyMismatch) else Success(keys[id].result);
      }
      var saved := Wallet(lots, ledger, reservations, keys);
      var allocations, left := WalkLots(rows, quantity);
      if left > 0 {
        Rollback(saved);
        return Failure(InsufficientCredits);
      }
      var used := FindReference(reference);
      if used {
        Rollback(saved);
        return Failure(UniqueViolation);
      }
      var reservation := |reservations|;
      reservations := reservations + [Reservation(quantity, Reserved, reference, allocations)];
      var _ := AppendEntry(-quantity, Credits.Reserve, reference, None);
      keys := keys[id := KeyRecord(ReserveBody(quantity, reference), reservation)];
      r := Success(reservation);
    }

    /** The `foreach` of `settle`: one update per allocation. */
    method MoveBack(rows: seq<Allocation>, confirm: bool)
      requires AllocationsInRange(rows, |lots|)
      modifies this`lots
      ensures lots == MoveAll(old(lots), rows, if confirm then Consume else GiveBack)
    {
      for k := 0 to |rows|
        invariant |lots| == |old(lots)|
        invariant lots == MoveAll(old(lots), rows[..k], if confirm then Consume else GiveBack)
      {
        assert rows[..k + 1][..k] == rows[..k];
        var lot := lots[rows[k].lot];
        if confirm {
          lots := lots[rows[k].lot := lot.(reserved := lot.reserved - rows[k].quantity)];
        } else {
          lots := lots[rows[k].lot := lot.(remaining := lot.remaining + rows[k].quantity, reserved := lot.reserved - rows[k].quantity)];
        }
      }
      assert rows[..|rows|] == rows;
    }

    method Settle(id: nat, confirm: bool) returns (r: Result<Status, Error>)
      requires Valid()
      modifies this
      ensures Valid() && State() == WalletOf(old(State()), SettleReservation(old(State()), id, confirm))
      ensures match SettleReservation(old(State()), id, confirm)
              case Done(_, v) => r == Success(v)
              case Thrown(e) => r == Failure(e)
    {
      ghost var before := State();
      SettleKeepsInv(before, id, confirm);
      InRange(WalletOf(before, SettleReservation(before, id, confirm)));
      assert id < |reservations| ==> AllocationsInRange(reservations[id].allocations, |lots|);
      hide Inv, ReservationsInRange, AllocationsInRange;
      if id >= |reservations| {
        return Failure(NotFound);
      }
      var reservation := reservations[id];
      if reservation.status != Reserved {
        return Success(reservation.status);
      }
      MoveBack(reservation.allocations, confirm);
      var status := if confirm then Confirmed else Released;
      reservations := reservations[id := reservation.(status := status)];
      if !confirm {
        var _ := AppendEntry(reservation.quantity, Release, reservation.reference, None);
      }
      r := Success(status);
    }

    method ReserveForRefund(orderId: string, quantity: int, refundId: string) returns (r: Result<Option<nat>, Error>)
      requires Valid()
      modifies this
      ensures Valid() && State() == WalletOf(old(State()), ReservePaidOrderRefund(old(State()), orderId, quantity, refundId))
      ensures match ReservePaidOrderRefund(old(State()), orderId, quantity, refundId)
              case Done(_, v) => r == Success(v)
              case Thrown(e) => r == Failure(e)
    {
      hide Inv, ReservationsInRange, ReferenceUsed, ScopeUsed;
      ghost var before := State();
      RefundKeepsInv(before, orderId, quantity, refundId);
      InRange(WalletOf(before, ReservePaidOrderRefund(before, orderId, quantity, refundId)));
      if quantity <= 0 {
        return Success(None);
      }
      var row := PurchaseLot(Wallet(lots, ledger, reservations, keys), orderId, 0);
      hide PurchaseLot;
      if row.None? || lots[row.value].remaining < quantity {
        return Failure(CreditsAlreadyUsed);
      }
      var saved := Wallet(lots, ledger, reservations, keys);
      var lot := lots[row.value];
      lots := lots[row.value := lot.(remaining := lot.remaining - quantity, reserved := lot.reserved + quantity)];
      var reference := "refund:" + refundId;
      var usedReference := FindReference(reference);
      var usedScope := FindScope(RefundOf(refundId));
      if usedReference || usedScope {
        Rollback(saved);
        return Failure(UniqueViolation);
      }
      var id := |reservations|;
      reservations := reservations + [Reservation(quantity, Reserved, reference, [Allocation(row.value, quantity)])];
      var _ := AppendEntry(-quantity, PurchaseRefundReserve, reference, Some(RefundOf(refundId)));
      r := Success(Some(id));
    }

    method Expire(rows: seq<nat>, ghost now: int) returns (r: Result<(), Error>)
      requires Valid() && SweepQuery(lots, now, rows)
      modifies this
      ensures Valid() && State() == WalletOf(old(State()), SweepRows(old(State()), rows))
      ensures match SweepRows(old(State()), rows)
              case Done(_, v) => r == Success(v)
              case Thrown(e) => r == Failure(e)
    {
      hide Inv, ReservationsInRange, Sweepable, SweepRows, SweptTo, ScopeUsed;
      ghost var before := State();
      SweepKeepsInv(before, rows);
      InRange(WalletOf(before, SweepRows(before, rows)));
      var saved := Wallet(lots, ledger, reservations, keys);
      SweepStarts(before, rows);
      for k := 0 to |rows|
        invariant SweptTo(before, rows, k, State())
      {
        SweepGoesOn(before, rows, k, State());
        var quantity := lots[rows[k]].remaining;
        var used := FindScope(ExpireLot(rows[k]));
        if used {
          Rollback(saved);
          return Failure(UniqueViolation);
        }
        lots := lots[rows[k] := lots[rows[k]].(remaining := 0)];
        var _ := AppendEntry(-quantity, Expiration, ExpiryEntry(rows[k], quantity).reference, Some(ExpireLot(rows[k])));
      }
      SweepEnds(before, rows, State());
      r := Success(());
    }

    /** The `sum` query over the ledger. */
    method SumLedger() returns (balance: int)
      ensures balance == Balance(State())
    {
      balance := 0;
      for i := 0 to |ledger|
        invariant balance == SumBy(ledger[..i], EntryQuantity)
      {
        SumAppend(ledger[..i], ledger[i], EntryQuantity);
        assert ledger[..i] + [ledger[i]] == ledger[..i + 1];
        balance := balance + ledger[i].quantity;
      }
      assert ledger[..|ledger|] == ledger;
    }

    /** The balance part of `summary`: sweep, then add up the ledger. After it succeeds the
        balance is exactly the unexpired credit; it fails only on a stuck lot. */
    method Summary(rows: seq<nat>, now: int) returns (r: Result<int, Error>)
      requires Valid() && SweepQuery(lots, now, rows)
      modifies this
      ensures Valid() && (r.Success? ==> r.value == SpendableAt(lots, now) == SpendableAt(old(lots), now))
      ensures r.Failure? <==> exists i: nat :: CreditTheorems.Stuck(old(State()), i, now)
      ensures State() == WalletOf(old(State()), SweepRows(old(State()), rows))
    {
      ghost var before := State();
      CreditTheorems.SweepAbortsExactlyWhenStuck(before, now, rows);
      var swept := Expire(rows, now);
      if swept.Failure? {
        return Failure(swept.error);
      }
      CreditTheorems.SweepClears(before, rows);
      CreditTheorems.BalanceSplits(State(), now);
      SumCongruent(before.lots, lots, AliveRemaining(now), AliveRemaining(now));
      var balance := SumLedger();
      r := Success(balance);
    }

    /** The negative branch of `exceptionalAdjustment`: reserve, then confirm at once. Retrying
        it with the same key debits nothing more. */
    method AdjustDown(quantity: int, key: string, rows: seq<nat>, ghost now: int) returns (r: Result<Status, Error>)
      requires Valid() && quantity > 0 && SpendableQuery(lots, now, rows)
      modifies this
      ensures Valid()
      ensures r.Failure? ==> State() == old(State())
      ensures r.Success? && KeyId(CreditReserve, key) !in old(keys) ==>
                && Balance(State()) == Balance(old(State())) - quantity
                && SpendableAt(lots, now) == SpendableAt(old(lots), now) - quantity
      ensures r.Success? && KeyId(CreditReserve, key) in old(keys) ==>
                && Balance(State()) == Balance(old(State()))
                && State() == WalletOf(old(State()), SettleReservation(old(State()), old(keys)[KeyId(CreditReserve, key)].result, true))
    {
      ghost var before := State();
      var reservation := Reserve(quantity, "adjustment:" + key, key, rows, now);
      if reservation.Failure? {
        return Failure(reservation.error);
      }
      ghost var held := State();
      r := Settle(reservation.value, true);
      if KeyId(CreditReserve, key) !in before.keys {
        ReserveDebits(before, quantity, "adjustment:" + key, rows, now);
        ConsumeKeepsSpendable(held.lots, held.reservations[reservation.value].allocations, now);
      }
    }
  }

  /** A reservation takes its quantity out of the balance and out of the spendable credit. */
  lemma ReserveDebits(w: Wallet, quantity: int, reference: string, rows: seq<nat>, now: int)
    requires Inv(w) && quantity > 0 && SpendableQuery(w.lots, now, rows)
    requires ReserveRows(w, quantity, reference, rows).Done?
    ensures var held := ReserveRows(w, quantity, reference, rows).wallet;
            && Balance(held) == Balance(w) - quantity
            && SpendableAt(held.lots, now) == SpendableAt(w.lots, now) - quantity
  {
    SumAppend(w.ledger, Entry(-quantity, Credits.Reserve, reference, None), EntryQuantity);
    CreditTheorems.QueryRowsPositive(w.lots, now, rows);
    CreditTheorems.WalkIsGreedy(w.lots, rows, quantity);
    CreditTheorems.ReserveSucceedsExactlyWhenCovered(w, quantity, reference, rows, now);
    CreditTheorems.QueryHoldsAll(w, rows, now);
    var takes := Greedy(AmountsOf(w.lots, rows), quantity);
    GreedyDraws(AmountsOf(w.lots, rows), quantity);
    CreditTheorems.DrawFromSpendable(w.lots, rows, takes, now);
    assert forall i :: 0 <= i < |rows| ==> rows[i] in rows;
    DrawnAliveBounds(takes, ExpiriesOf(w.lots, rows), now);
  }

  /** Confirming leaves what can be spent as it is. */
  lemma ConsumeKeepsSpendable(lots: seq<Lot>, allocations: seq<Allocation>, now: int)
    requires AllocationsInRange(allocations, |lots|)
    ensures SpendableAt(MoveAll(lots, allocations, Consume), now) == SpendableAt(lots, now)
  {
    var after := MoveAll(lots, allocations, Consume);
    forall i | 0 <= i < |after| ensures AliveRemaining(now)(after[i]) == AliveRemaining(now)(lots[i]) {
      MoveAllAt(lots, allocations, Consume, i);
    }
    SumCongruent(after, lots, AliveRemaining(now), AliveRemaining(now));
  }
}
