/** What every reachable state of the order tables satisfies. */
module OrderInvariants {
  import opened Prelude
  import opened OrderBook

  // ---- stock -------------------------------------------------------------------------

  /** Units of a tier on the first n lines. */
  function Units(items: seq<Item>, t: nat, n: nat): int
    requires n <= |items|
  {
    if n == 0 then 0 else Units(items, t, n - 1) + if items[n - 1].tier == t then items[n - 1].quantity else 0
  }

  predicate HoldsStock(s: Status) { s.Pending? || s.Paid? }

  function HeldBy(o: Order, t: nat): int {
    if HoldsStock(o.status) then Units(o.items, t, |o.items|) else 0
  }

  /** Units of a tier over the pending and paid orders among the first n. */
  function Held(orders: seq<Order>, t: nat, n: nat): int
    requires n <= |orders|
  {
    if n == 0 then 0 else Held(orders, t, n - 1) + HeldBy(orders[n - 1], t)
  }

  ghost predicate PositiveQuantities(items: seq<Item>) {
    forall k :: 0 <= k < |items| ==> items[k].quantity > 0
  }

  lemma {:induction false} UnitsNotNegative(items: seq<Item>, t: nat, n: nat)
    requires n <= |items| && PositiveQuantities(items)
    ensures Units(items, t, n) >= 0
  {
    if n > 0 {
      UnitsNotNegative(items, t, n - 1);
    }
  }

  lemma {:induction false} UnitsPrefix(items: seq<Item>, more: seq<Item>, t: nat, n: nat)
    requires n <= |items|
    ensures Units(items + more, t, n) == Units(items, t, n)
  {
    if n > 0 {
      UnitsPrefix(items, more, t, n - 1);
    }
  }

  lemma {:induction false} HeldPrefix(orders: seq<Order>, more: seq<Order>, t: nat, n: nat)
    requires n <= |orders|
    ensures Held(orders + more, t, n) == Held(orders, t, n)
  {
    if n > 0 {
      HeldPrefix(orders, more, t, n - 1);
    }
  }

  /** Replacing one order moves the total by that order's share. */
  lemma {:induction false} HeldReplace(orders: seq<Order>, id: nat, o: Order, t: nat, n: nat)
    requires id < |orders| && n <= |orders|
    ensures Held(orders[id := o], t, n)
            == Held(orders, t, n) + if id < n then HeldBy(o, t) - HeldBy(orders[id], t) else 0
  {
    if n > 0 {
      HeldReplace(orders, id, o, t, n - 1);
    }
  }

  /** No order holds more of a tier than all orders together. */
  lemma {:induction false} HeldAtLeast(orders: seq<Order>, id: nat, t: nat, n: nat)
    requires id < n <= |orders|
    requires forall k :: 0 <= k < |orders| ==> PositiveQuantities(orders[k].items)
    ensures HeldBy(orders[id], t) <= Held(orders, t, n)
    decreases n
  {
    HeldNotNegative(orders, t, n - 1);
    UnitsNotNegative(orders[n - 1].items, t, |orders[n - 1].items|);
    if id < n - 1 {
      HeldAtLeast(orders, id, t, n - 1);
    }
  }

  lemma {:induction false} HeldNotNegative(orders: seq<Order>, t: nat, n: nat)
    requires n <= |orders|
    requires forall k :: 0 <= k < |orders| ==> PositiveQuantities(orders[k].items)
    ensures Held(orders, t, n) >= 0
  {
    if n > 0 {
      HeldNotNegative(orders, t, n - 1);
      UnitsNotNegative(orders[n - 1].items, t, |orders[n - 1].items|);
    }
  }

  /** Reserving a draft's lines raises each tier's sold count by exactly the draft's units,
      changes nothing else about a tier, and never passes a set total. */
  ghost predicate Reserves(before: map<nat, Tier>, after: map<nat, Tier>, items: seq<Item>) {
    && after.Keys == before.Keys
    && forall t :: t in before ==>
         && after[t] == before[t].(sold := after[t].sold)
         && after[t].sold == before[t].sold + Units(items, t, |items|)
         && (before[t].total.Some? && before[t].sold <= before[t].total.value ==> after[t].sold <= before[t].total.value)
  }

  /** Gross price of the first n lines, in unbounded arithmetic. */
  function Gross(items: seq<Item>, n: nat): int
    requires n <= |items|
  {
    if n == 0 then 0 else Gross(items, n - 1) + items[n - 1].unitPrice * items[n - 1].quantity
  }

  ghost predicate Priced(items: seq<Item>, lines: seq<Line>, n: nat, tiers: map<nat, Tier>) {
    && |items| == n <= |lines|
    && forall k :: 0 <= k < n ==>
         && lines[k].tier in tiers
         && lines[k].quantity > 0
         && items[k] == PricedItem(tiers[lines[k].tier], lines[k])
  }

  lemma {:induction false} GrossPrefix(items: seq<Item>, more: seq<Item>, n: nat)
    requires n <= |items|
    ensures Gross(items + more, n) == Gross(items, n)
  {
    if n > 0 {
      GrossPrefix(items, more, n - 1);
    }
  }

  lemma ReserveOne(tiers: map<nat, Tier>, t: nat, q: int)
    requires Reserve(tiers, t, q).Reserved?
    ensures q > 0 && t in tiers
    ensures
      var after := Reserve(tiers, t, q).tiers;
      && after.Keys == tiers.Keys
      && (forall u :: u in tiers ==> after[u] == tiers[u].(sold := tiers[u].sold + if u == t then q else 0))
      && (tiers[t].total.Some? ==> after[t].sold <= tiers[t].total.value)
  {
  }

  lemma AddLineIs(d: Draft, event: nat, line: Line, now: int)
    requires d.Draft? && AddLine(d, event, line, now).Draft?
    ensures line.tier in d.tiers && line.quantity > 0
    ensures
      var e, item := AddLine(d, event, line, now), PricedItem(d.tiers[line.tier], line);
      && e.items == d.items + [item]
      && Reserve(d.tiers, item.tier, item.quantity) == Reserved(e.tiers)
      && e.subtotal == Wrap64(d.subtotal + Wrap64(item.unitPrice * item.quantity))
  {
  }

  /** The first n lines priced at the given tiers' prices, exactly their units reserved,
      and the subtotal the gross price as int64 arithmetic leaves it. */
  ghost predicate DraftFor(tiers: map<nat, Tier>, lines: seq<Line>, n: nat, d: Draft) {
    && d.Draft?
    && Priced(d.items, lines, n, tiers)
    && Reserves(tiers, d.tiers, d.items)
    && d.subtotal == Wrap64(Gross(d.items, n))
  }

  lemma AddLineExtends(tiers: map<nat, Tier>, d: Draft, event: nat, lines: seq<Line>, now: int, n: nat)
    requires n < |lines| && DraftFor(tiers, lines, n, d) && AddLine(d, event, lines[n], now).Draft?
    ensures DraftFor(tiers, lines, n + 1, AddLine(d, event, lines[n], now))
  {
    var line, e := lines[n], AddLine(d, event, lines[n], now);
    AddLineIs(d, event, line, now);
    var item := PricedItem(tiers[line.tier], line);
    assert item == PricedItem(d.tiers[line.tier], line);
    GrossPrefix(d.items, [item], n);
    WrapAdd(Gross(d.items, n), item.unitPrice * item.quantity);
    DraftReserves(tiers, d.tiers, e.tiers, d.items, item);
  }

  lemma {:induction false} DraftIs(tiers: map<nat, Tier>, event: nat, lines: seq<Line>, now: int, n: nat)
    requires n <= |lines| && DraftOf(tiers, event, lines, now, n).Draft?
    ensures DraftFor(tiers, lines, n, DraftOf(tiers, event, lines, now, n))
  {
    if n > 0 {
      DraftIs(tiers, event, lines, now, n - 1);
      AddLineExtends(tiers, DraftOf(tiers, event, lines, now, n - 1), event, lines, now, n - 1);
    }
  }

  lemma DraftReserves(before: map<nat, Tier>, mid: map<nat, Tier>, after: map<nat, Tier>, items: seq<Item>, item: Item)
    requires Reserves(before, mid, items)
    requires Reserve(mid, item.tier, item.quantity) == Reserved(after)
    ensures Reserves(before, after, items + [item])
  {
    ReserveOne(mid, item.tier, item.quantity);
    forall t | t in before
      ensures Units(items + [item], t, |items| + 1) == Units(items, t, |items|) + if t == item.tier then item.quantity else 0
    {
      UnitsPrefix(items, [item], t, |items|);
    }
  }

  /** Releasing lines no tier holds less of than they ask back takes off exactly their
      units: the floor at zero is never reached. */
  lemma {:induction false} ReleaseIsExact(tiers: map<nat, Tier>, items: seq<Item>, n: nat)
    requires n <= |items| && PositiveQuantities(items)
    requires forall t :: t in tiers ==> Units(items, t, n) <= tiers[t].sold
    ensures
      var after := ReleaseAll(tiers, items, n);
      && after.Keys == tiers.Keys
      && forall t :: t in tiers ==>
           && Units(items, t, n) >= 0
           && after[t] == tiers[t].(sold := tiers[t].sold - Units(items, t, n))
  {
    if n > 0 {
      forall t | t in tiers ensures 0 <= Units(items, t, n - 1) <= tiers[t].sold {
        UnitsNotNegative(items, t, n - 1);
      }
      ReleaseIsExact(tiers, items, n - 1);
    }
  }

  // ---- tickets -----------------------------------------------------------------------

  /** Tickets issued for one order line. */
  function Issued(tickets: seq<Ticket>, id: nat, line: nat): nat {
    if tickets == [] then 0
    else Issued(tickets[..|tickets| - 1], id, line)
         + if tickets[|tickets| - 1].order == id && tickets[|tickets| - 1].line == line then 1 else 0
  }

  lemma {:induction false} IssuedAppend(a: seq<Ticket>, b: seq<Ticket>, id: nat, line: nat)
    ensures Issued(a + b, id, line) == Issued(a, id, line) + Issued(b, id, line)
  {
    if b == [] {
      assert a + b == a;
    } else {
      var front := b[..|b| - 1];
      IssuedAppend(a, front, id, line);
      assert (a + b)[..|a + b| - 1] == a + front;
    }
  }

  lemma {:induction false} IssueLineCounts(o: Order, id: nat, l: nat, n: nat, at: nat, line: nat)
    requires l < |o.items|
    ensures Issued(IssueLine(o, id, l, n), at, line) == if at == id && line == l then n else 0
  {
    if n > 0 {
      var rest, one := IssueLine(o, id, l, n - 1), Ticket(id, l, o.user, o.event, o.items[l].tier);
      IssueLineCounts(o, id, l, n - 1, at, line);
      assert (rest + [one])[..|rest|] == rest;
    } else {
      assert IssueLine(o, id, l, n) == [];
    }
  }

  lemma {:induction false} IssueAllCounts(o: Order, id: nat, n: nat, at: nat, line: nat)
    requires n <= |o.items| && PositiveQuantities(o.items)
    ensures Issued(IssueAll(o, id, n), at, line) == if at == id && line < n then o.items[line].quantity else 0
  {
    if n > 0 {
      var q := o.items[n - 1].quantity;
      IssueAllCounts(o, id, n - 1, at, line);
      IssueLineCounts(o, id, n - 1, q, at, line);
      IssuedAppend(IssueAll(o, id, n - 1), IssueLine(o, id, n - 1, q), at, line);
    }
  }

  // ---- the invariant -----------------------------------------------------------------

  ghost predicate StockConserved(db: Db) {
    forall t :: t in db.tiers ==>
      && db.tiers[t].sold == Held(db.orders, t, |db.orders|)
      && (db.tiers[t].total.Some? ==> db.tiers[t].sold <= db.tiers[t].total.value)
  }

  /** Lines are of known tiers, at least one, in the order's currency, and add up to the
      order's total. */
  ghost predicate SoundOrder(o: Order, tiers: map<nat, Tier>) {
    && |o.items| > 0
    && PositiveQuantities(o.items)
    && (forall k :: 0 <= k < |o.items| ==>
          && o.items[k].tier in tiers
          && o.items[k].unitPrice >= 0
          && o.items[k].currency == o.currency
          && o.items[k].subtotal == Wrap64(o.items[k].unitPrice * o.items[k].quantity) >= 0)
    && o.total == Wrap64(Gross(o.items, |o.items|)) >= 0
    && (o.paidAt.Some? <==> o.status.Paid?)
    && (o.cancelledAt.Some? <==> o.status.Cancelled?)
  }

  ghost predicate SoundOrders(db: Db) {
    forall id :: 0 <= id < |db.orders| ==> SoundOrder(db.orders[id], db.tiers)
  }

  /** Each line of a paid order has exactly its quantity of tickets, every other line none. */
  ghost predicate TicketsExact(db: Db) {
    forall id: nat, line: nat :: Issued(db.tickets, id, line) == TicketsDue(db, id, line)
  }

  function TicketsDue(db: Db, id: nat, line: nat): int {
    if id < |db.orders| && db.orders[id].status.Paid? && line < |db.orders[id].items|
    then db.orders[id].items[line].quantity else 0
  }

  /** A ledger row is paid exactly when its order is, and then for the order's total and with
      the order's stamp; a failed row belongs to a failed or cancelled order, and every paid
      order has a row. */
  predicate LedgerAgreesAt(db: Db, id: nat) {
    && (id in db.ledger ==>
          && id < |db.orders|
          && (db.ledger[id].status.PaymentPaid? <==> db.orders[id].status.Paid?)
          && (db.ledger[id].status.PaymentFailed? ==> db.orders[id].status.Failed? || db.orders[id].status.Cancelled?)
          && (db.ledger[id].paidAt.Some? <==> db.ledger[id].status.PaymentPaid?)
          && (db.ledger[id].paidAt.Some? ==> db.ledger[id].paidAt == db.orders[id].paidAt)
          && (db.ledger[id].failedAt.Some? <==> db.ledger[id].status.PaymentFailed?)
          && db.ledger[id].currency == db.orders[id].currency
          && (!db.ledger[id].status.PaymentFailed? ==> db.ledger[id].amount == db.orders[id].total)
          && db.ledger[id].amount >= 0)
    && (id < |db.orders| && db.orders[id].status.Paid? ==> id in db.ledger)
  }

  ghost predicate LedgerAgrees(db: Db) {
    forall id: nat :: LedgerAgreesAt(db, id)
  }

  ghost predicate Inv(db: Db) {
    StockConserved(db) && SoundOrders(db) && TicketsExact(db) && LedgerAgrees(db)
  }
}
