/** Every run of purchases, cancellations, webhooks and tier edits. */
module OrderRuns {
  import opened Prelude
  import opened OrderBook
  import opened OrderInvariants

  lemma EmptyHolds()
    ensures Inv(EMPTY_DB)
  {
  }

  // ---- each kind of step keeps the invariant ---------------------------------------------

  lemma PlacedOrderIsSound(db: Db, user: nat, event: nat, lines: seq<Line>, now: int)
    requires |lines| > 0 && PlaceOrder(db, user, event, lines, now).Placed?
    ensures
      var after := PlaceOrder(db, user, event, lines, now).db;
      && |after.orders| == |db.orders| + 1
      && after.orders == db.orders + [after.orders[|db.orders|]]
      && after.orders[|db.orders|].status.Pending?
      && Reserves(db.tiers, after.tiers, after.orders[|db.orders|].items)
      && SoundOrder(after.orders[|db.orders|], after.tiers)
  {
    var d := DraftOf(db.tiers, event, lines, now, |lines|);
    DraftIs(db.tiers, event, lines, now, |lines|);
    forall k | 0 <= k < |d.items|
      ensures d.items[k].tier in d.tiers && d.items[k].unitPrice >= 0 && d.items[k].quantity > 0
      ensures d.items[k].subtotal == Wrap64(d.items[k].unitPrice * d.items[k].quantity)
    {
      assert d.items[k] == PricedItem(db.tiers[lines[k].tier], lines[k]);
    }
  }

  lemma PlaceOrderKeeps(db: Db, user: nat, event: nat, lines: seq<Line>, now: int)
    requires Inv(db) && |lines| > 0 && PlaceOrder(db, user, event, lines, now).Placed?
    ensures Inv(PlaceOrder(db, user, event, lines, now).db)
  {
    var after := PlaceOrder(db, user, event, lines, now).db;
    PlacedOrderIsSound(db, user, event, lines, now);
    NewOrderKeeps(db, after, after.orders[|db.orders|]);
  }

  lemma NewOrderKeeps(db: Db, after: Db, o: Order)
    requires Inv(db) && after == db.(tiers := after.tiers, orders := db.orders + [o])
    requires Reserves(db.tiers, after.tiers, o.items) && SoundOrder(o, after.tiers) && o.status.Pending?
    ensures Inv(after)
  {
    forall t | t in after.tiers
      ensures after.tiers[t].sold == Held(after.orders, t, |after.orders|)
    {
      HeldPrefix(db.orders, [o], t, |db.orders|);
    }
    forall k | 0 <= k < |db.orders| ensures SoundOrder(after.orders[k], after.tiers) {
      assert SoundOrder(db.orders[k], db.tiers);
    }
    forall at: nat ensures LedgerAgreesAt(after, at) {
      assert LedgerAgreesAt(db, at);
    }
    forall at: nat, line: nat ensures Issued(after.tickets, at, line) == TicketsDue(after, at, line) {
      assert Issued(db.tickets, at, line) == TicketsDue(db, at, line);
    }
  }

  lemma InitiateKeeps(db: Db, id: nat, checkout: Checkout)
    requires Inv(db) && id < |db.orders| && db.orders[id].status.Pending? && Initiate(db, id, checkout).Placed?
    ensures Inv(Initiate(db, id, checkout).db)
  {
    var after := Initiate(db, id, checkout).db;
    assert SoundOrder(db.orders[id], db.tiers);
    forall at: nat ensures LedgerAgreesAt(after, at) {
      assert LedgerAgreesAt(db, at);
    }
    forall at: nat, line: nat ensures Issued(after.tickets, at, line) == TicketsDue(after, at, line) {
      assert Issued(db.tickets, at, line) == TicketsDue(db, at, line);
    }
  }

  /** Letting go of a pending order's stock: the released tiers hold what the remaining
      pending and paid orders ask for, and no tier's floor is reached. */
  lemma ReleaseKeepsStock(db: Db, id: nat, o: Order)
    requires Inv(db) && id < |db.orders| && db.orders[id].status.Pending?
    requires !HoldsStock(o.status) && o.items == db.orders[id].items
    ensures
      var tiers := ReleaseAll(db.tiers, o.items, |o.items|);
      && tiers.Keys == db.tiers.Keys
      && StockConserved(db.(tiers := tiers, orders := db.orders[id := o]))
      && forall t :: t in tiers ==>
           tiers[t] == db.tiers[t].(sold := tiers[t].sold) && tiers[t].sold == db.tiers[t].sold - Units(o.items, t, |o.items|)
  {
    assert SoundOrder(db.orders[id], db.tiers);
    forall k | 0 <= k < |db.orders| ensures PositiveQuantities(db.orders[k].items) {
      assert SoundOrder(db.orders[k], db.tiers);
    }
    forall t | t in db.tiers
      ensures Units(o.items, t, |o.items|) <= db.tiers[t].sold
      ensures Held(db.orders[id := o], t, |db.orders|) == db.tiers[t].sold - Units(o.items, t, |o.items|)
    {
      HeldAtLeast(db.orders, id, t, |db.orders|);
      HeldReplace(db.orders, id, o, t, |db.orders|);
    }
    ReleaseIsExact(db.tiers, o.items, |o.items|);
  }

  lemma CancelKeeps(db: Db, user: nat, id: nat, now: int)
    requires Inv(db) && Cancel(db, user, id, now).Settled?
    ensures Inv(Cancel(db, user, id, now).db)
  {
    var after := Cancel(db, user, id, now).db;
    ReleaseKeepsStock(db, id, after.orders[id]);
    SettledKeepsRest(db, after, id);
    assert LedgerAgreesAt(db, id);
    assert LedgerAgreesAt(after, id);
    LedgerElsewhere(db, after, id);
  }

  /** Settling one pending order without tickets leaves every order sound and every ticket
      count right. */
  lemma SettledKeepsRest(db: Db, after: Db, id: nat)
    requires Inv(db) && id < |db.orders| && db.orders[id].status.Pending?
    requires after.tickets == db.tickets && after.tiers.Keys == db.tiers.Keys
    requires |after.orders| == |db.orders| && after.orders == db.orders[id := after.orders[id]]
    requires
      var o := after.orders[id];
      && (o.status.Failed? || o.status.Cancelled?)
      && o.(status := Pending, cancelledAt := None) == db.orders[id]
      && (o.cancelledAt.Some? <==> o.status.Cancelled?)
    ensures SoundOrders(after) && TicketsExact(after)
  {
    forall k | 0 <= k < |after.orders| ensures SoundOrder(after.orders[k], after.tiers) {
      assert SoundOrder(db.orders[k], db.tiers);
    }
    forall at: nat, line: nat ensures Issued(after.tickets, at, line) == TicketsDue(after, at, line) {
      assert Issued(db.tickets, at, line) == TicketsDue(db, at, line);
    }
  }

  /** The ledger's rows of other orders still agree. */
  lemma LedgerElsewhere(db: Db, after: Db, id: nat)
    requires LedgerAgrees(db) && LedgerAgreesAt(after, id) && id < |db.orders|
    requires |after.orders| == |db.orders| && forall k :: 0 <= k < |db.orders| && k != id ==> after.orders[k] == db.orders[k]
    requires forall k :: k != id ==> (k in after.ledger <==> k in db.ledger)
    requires forall k :: k != id && k in db.ledger ==> after.ledger[k] == db.ledger[k]
    ensures LedgerAgrees(after)
  {
    forall at: nat ensures LedgerAgreesAt(after, at) {
      assert LedgerAgreesAt(db, at);
    }
  }

  lemma SuccessKeeps(db: Db, id: nat, now: int)
    requires Inv(db) && ApplySuccess(db, id, now).Settled?
    ensures Inv(ApplySuccess(db, id, now).db)
    ensures id < |db.orders| && db.orders[id].status.Pending? ==> ApplySuccess(db, id, now).db.orders[id].status.Paid?
  {
    if ConfirmPaid(db, id, now).Moved? {
      var after := ApplySuccess(db, id, now).db;
      var o := db.orders[id];
      assert SoundOrder(o, db.tiers);
      forall t | t in after.tiers ensures Held(after.orders, t, |after.orders|) == Held(db.orders, t, |db.orders|) {
        HeldReplace(db.orders, id, after.orders[id], t, |db.orders|);
      }
      assert StockConserved(after);
      forall k | 0 <= k < |after.orders| ensures SoundOrder(after.orders[k], after.tiers) {
        assert SoundOrder(db.orders[k], db.tiers);
      }
      forall at: nat, line: nat ensures Issued(after.tickets, at, line) == TicketsDue(after, at, line) {
        assert Issued(db.tickets, at, line) == TicketsDue(db, at, line);
        IssuedAppend(db.tickets, IssueAll(o, id, |o.items|), at, line);
        IssueAllCounts(o, id, |o.items|, at, line);
      }
      assert LedgerAgreesAt(db, id);
      assert LedgerAgreesAt(after, id);
      LedgerElsewhere(db, after, id);
    }
  }

  lemma FailureKeeps(db: Db, id: nat, amount: int, currency: string, now: int)
    requires Inv(db) && ApplyFailure(db, id, amount, currency, now).Settled?
    ensures Inv(ApplyFailure(db, id, amount, currency, now).db)
  {
    var t := FailPayment(db, id);
    if t.Moved? {
      assert SoundOrder(db.orders[id], db.tiers);
      ReleaseKeepsStock(db, id, t.db.orders[id]);
      SettledKeepsRest(db, t.db, id);
      RecordFailureKeeps(db, t.db, id, amount, currency, now);
    } else if t.NothingToDo? {
      RecordFailureKeeps(db, db, id, amount, currency, now);
    }
  }

  /** The failed row written for an order that is failed or cancelled by then. */
  lemma RecordFailureKeeps(db: Db, mid: Db, id: nat, amount: int, currency: string, now: int)
    requires LedgerAgrees(db) && mid.ledger == db.ledger
    requires StockConserved(mid) && SoundOrders(mid) && TicketsExact(mid)
    requires id < |db.orders| == |mid.orders| && mid.orders == db.orders[id := mid.orders[id]]
    requires mid.orders[id].currency == db.orders[id].currency
    requires mid.orders[id].status.Failed? || mid.orders[id].status.Cancelled?
    requires !db.orders[id].status.Paid?
    requires RecordFailure(mid, id, amount, currency, now).Settled?
    ensures Inv(RecordFailure(mid, id, amount, currency, now).db)
  {
    var after := RecordFailure(mid, id, amount, currency, now).db;
    assert after.orders == mid.orders && after.tiers == mid.tiers && after.tickets == mid.tickets;
    assert LedgerAgreesAt(db, id);
    assert LedgerAgreesAt(after, id);
    LedgerElsewhere(db, after, id);
    forall at: nat, line: nat ensures Issued(after.tickets, at, line) == TicketsDue(after, at, line) {
      assert Issued(mid.tickets, at, line) == TicketsDue(mid, at, line);
    }
  }

  lemma HookKeeps(db: Db, hook: Webhook, now: int)
    requires Inv(db) && HandleWebhook(db, hook, now).Settled?
    ensures Inv(HandleWebhook(db, hook, now).db)
  {
    match hook.verdict.value
    case Succeeded => SuccessKeeps(db, hook.txRef.value, now);
    case Declined(amount, currency) => FailureKeeps(db, hook.txRef.value, amount, currency, now);
    case StillPending =>
  }

  /** Editing or opening a tier touches no order, so no total, and no sold count. */
  lemma TierStepKeeps(db: Db, step: Step)
    requires Inv(db) && (step.Edit? || step.Open?)
    ensures Inv(Do(db, step))
    ensures Do(db, step).orders == db.orders && Do(db, step).tickets == db.tickets && Do(db, step).ledger == db.ledger
  {
    var after := Do(db, step);
    if step.Open? {
      UnknownTierUnheld(db, step.tier, |db.orders|);
    }
    forall k | 0 <= k < |after.orders| ensures SoundOrder(after.orders[k], after.tiers) {
      assert SoundOrder(db.orders[k], db.tiers);
    }
    forall at: nat, line: nat ensures Issued(after.tickets, at, line) == TicketsDue(after, at, line) {
      assert Issued(db.tickets, at, line) == TicketsDue(db, at, line);
    }
    forall at: nat ensures LedgerAgreesAt(after, at) {
      assert LedgerAgreesAt(db, at);
    }
  }

  lemma {:induction false} UnknownTierUnheld(db: Db, t: nat, n: nat)
    requires SoundOrders(db) && n <= |db.orders|
    ensures t !in db.tiers ==> Held(db.orders, t, n) == 0
  {
    if n > 0 {
      UnknownTierUnheld(db, t, n - 1);
      assert SoundOrder(db.orders[n - 1], db.tiers);
      NoUnits(db.orders[n - 1].items, t, db.tiers, |db.orders[n - 1].items|);
    }
  }

  lemma {:induction false} NoUnits(items: seq<Item>, t: nat, tiers: map<nat, Tier>, n: nat)
    requires n <= |items| && forall k :: 0 <= k < |items| ==> items[k].tier in tiers
    ensures t !in tiers ==> Units(items, t, n) == 0
  {
    if n > 0 {
      NoUnits(items, t, tiers, n - 1);
    }
  }

  lemma BuyKeeps(db: Db, user: nat, event: nat, lines: seq<Line>, eventFound: bool, checkout: Checkout, now: int)
    requires Inv(db) && PlaceAndPay(db, user, event, lines, eventFound, checkout, now).Placed?
    ensures Inv(PlaceAndPay(db, user, event, lines, eventFound, checkout, now).db)
  {
    var p := CreateOrder(db, user, event, lines, eventFound, now);
    PlaceOrderKeeps(db, user, event, lines, now);
    InitiateKeeps(p.db, p.id, checkout);
  }

  lemma StepKeeps(db: Db, step: Step)
    requires Inv(db)
    ensures Inv(Do(db, step))
  {
    match step
    case Buy(user, event, lines, eventFound, checkout, at) =>
      if PlaceAndPay(db, user, event, lines, eventFound, checkout, at).Placed? {
        BuyKeeps(db, user, event, lines, eventFound, checkout, at);
      }
    case CancelStep(user, order, at) =>
      if Cancel(db, user, order, at).Settled? {
        CancelKeeps(db, user, order, at);
      }
    case Hook(hook, at) =>
      if HandleWebhook(db, hook, at).Settled? {
        HookKeeps(db, hook, at);
      }
    case Edit(_, _, _, _, _, _) => TierStepKeeps(db, step);
    case Open(_, _, _, _, _, _, _) => TierStepKeeps(db, step);
  }

  /** Conservation of stock, soundness of totals, ticket exactness and ledger agreement along
      every run. */
  lemma {:induction false} RunKeeps(db: Db, steps: seq<Step>)
    requires Inv(db)
    ensures Inv(Run(db, steps))
  {
    if steps != [] {
      RunKeeps(db, steps[..|steps| - 1]);
      StepKeeps(Run(db, steps[..|steps| - 1]), steps[|steps| - 1]);
    }
  }

  /** Every state reachable from empty tables has all of it. */
  lemma ReachableHolds(steps: seq<Step>)
    ensures Inv(Run(EMPTY_DB, steps))
  {
    EmptyHolds();
    RunKeeps(EMPTY_DB, steps);
  }
}
