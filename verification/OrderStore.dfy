/** The order, payment and inventory repositories over mutable tables, each method tied to
    the function of OrderBook it computes. */
module OrderStore {
  import opened Prelude
  import opened OrderBook

  datatype Outcome = Done(id: nat) | Refusal(error: Error)

  function OutcomeOf(s: Settlement, id: nat): Outcome {
    if s.Settled? then Done(id) else Refusal(s.error)
  }

  class Store {
    var tiers: map<nat, Tier>
    var orders: seq<Order>
    var ledger: map<nat, Payment>
    var tickets: seq<Ticket>

    constructor ()
      ensures State() == EMPTY_DB
    {
      tiers, orders, ledger, tickets := map[], [], map[], [];
    }

    function State(): Db
      reads this
    {
      Db(tiers, orders, ledger, tickets)
    }

    method ReserveInventory(t: nat, q: int) returns (raised: bool, reserved: bool)
      modifies this`tiers
      ensures raised <==> Reserve(old(tiers), t, q).Raised?
      ensures reserved <==> Reserve(old(tiers), t, q).Reserved?
      ensures tiers == if reserved then Reserve(old(tiers), t, q).tiers else old(tiers)
    {
      if q <= 0 {
        return true, false;
      }
      if t !in tiers || !tiers[t].active {
        return false, false;
      }
      var sold := tiers[t].sold + q;
      if sold > INT4_MAX {
        return true, false;
      }
      if tiers[t].total.Some? && sold > tiers[t].total.value {
        return false, false;
      }
      tiers := tiers[t := tiers[t].(sold := sold)];
      return false, true;
    }

    method ReleaseInventory(t: nat, q: int) returns (raised: bool)
      modifies this`tiers
      ensures raised <==> q <= 0
      ensures tiers == if raised then old(tiers) else Release(old(tiers), t, q)
    {
      if q <= 0 {
        return true;
      }
      if t in tiers {
        var sold := tiers[t].sold - q;
        if sold < 0 {
          sold := 0;
        }
        tiers := tiers[t := tiers[t].(sold := sold)];
      }
      return false;
    }

    method ReleaseItems(items: seq<Item>) returns (raised: bool)
      modifies this`tiers
      ensures raised <==> !Releasable(items)
      ensures !raised ==> tiers == ReleaseAll(old(tiers), items, |items|)
    {
      for k := 0 to |items|
        invariant tiers == ReleaseAll(old(tiers), items, k)
        invariant forall j :: 0 <= j < k ==> items[j].quantity > 0
      {
        raised := ReleaseInventory(items[k].tier, items[k].quantity);
        if raised {
          return;
        }
      }
      return false;
    }

    /** One pass of CreateOrder's line loop. */
    method ReserveLine(event: nat, line: Line, now: int, currency: string, subtotal: int, items: seq<Item>)
        returns (error: Option<Error>, newCurrency: string, newSubtotal: int, newItems: seq<Item>)
      modifies this`tiers
      ensures
        var d := AddLine(Draft(old(tiers), currency, subtotal, items), event, line, now);
        if error.Some? then d == Rejected(error.value) else d == Draft(tiers, newCurrency, newSubtotal, newItems)
    {
      error, newCurrency, newSubtotal, newItems := None, currency, subtotal, items;
      if line.tier !in tiers || tiers[line.tier].event != event {
        error := Some(InvalidItems);
        return;
      }
      var tier := tiers[line.tier];
      if !tier.active || (tier.salesStart.Some? && now < tier.salesStart.value)
         || (tier.salesEnd.Some? && now > tier.salesEnd.value) {
        error := Some(SalesClosed);
        return;
      }
      if currency == "" {
        newCurrency := tier.currency;
      } else if currency != tier.currency {
        error := Some(InvalidItems);
        return;
      }
      var raised, reserved := ReserveInventory(line.tier, line.quantity);
      if raised || !reserved {
        error := Some(if raised then DatabaseError else SoldOut);
        return;
      }
      var lineSubtotal := Wrap64(tier.price * line.quantity);
      newSubtotal := Wrap64(subtotal + lineSubtotal);
      newItems := items + [Item(line.tier, line.quantity, tier.currency, tier.price, lineSubtotal)];
    }

    /** The line loop of CreateOrder. A rejected order may leave reservations behind; the
        request transaction takes them back. */
    method ReserveLines(event: nat, lines: seq<Line>, now: int)
        returns (error: Option<Error>, currency: string, subtotal: int, items: seq<Item>)
      modifies this`tiers
      ensures
        var d := DraftOf(old(tiers), event, lines, now, |lines|);
        if error.Some? then d == Rejected(error.value) else d == Draft(tiers, currency, subtotal, items)
    {
      error, currency, subtotal, items := None, "", 0, [];
      for k := 0 to |lines|
        invariant error.None?
        invariant DraftOf(old(tiers), event, lines, now, k) == Draft(tiers, currency, subtotal, items)
      {
        error, currency, subtotal, items := ReserveLine(event, lines[k], now, currency, subtotal, items);
        if error.Some? {
          RejectedStays(old(tiers), event, lines, now, k + 1, |lines|);
          return;
        }
      }
    }

    method CreateOrder(user: nat, event: nat, lines: seq<Line>, eventFound: bool, now: int) returns (r: Outcome)
      modifies this
      ensures
        var p := OrderBook.CreateOrder(old(State()), user, event, lines, eventFound, now);
        if p.Placed? then r == Done(p.id) && State() == p.db else r == Refusal(p.error)
    {
      if |lines| == 0 || exists k :: 0 <= k < |lines| && lines[k].quantity < 1 {
        return Refusal(ValidationError);
      }
      if !eventFound {
        return Refusal(NotFound);
      }
      var error, currency, subtotal, items := ReserveLines(event, lines, now);
      if error.Some? {
        return Refusal(error.value);
      }
      if subtotal < 0 || exists k :: 0 <= k < |items| && (items[k].subtotal < 0 || items[k].currency != currency) {
        return Refusal(DatabaseError);
      }
      r := Done(|orders|);
      orders := orders + [Order(user, event, Pending, currency, subtotal, items, None, None)];
    }

    method Initiate(id: nat, checkout: Checkout) returns (r: Outcome)
      requires id < |orders|
      modifies this
      ensures
        var p := OrderBook.Initiate(old(State()), id, checkout);
        if p.Placed? then r == Done(id) && State() == p.db else r == Refusal(p.error)
    {
      match checkout
      case NoProvider =>
        r := Done(id);
      case CheckoutFailed =>
        r := Refusal(PaymentUnavailable);
      case CheckoutOpened =>
        if id in ledger {
          return Refusal(DatabaseError);
        }
        ledger := ledger[id := Payment(PaymentPending, orders[id].total, orders[id].currency, None, None)];
        r := Done(id);
    }

    /** The checkout request inside its transaction: on any error every table is as before. */
    method PlaceAndPay(user: nat, event: nat, lines: seq<Line>, eventFound: bool, checkout: Checkout, now: int)
        returns (r: Outcome)
      modifies this
      ensures State() == Do(old(State()), Buy(user, event, lines, eventFound, checkout, now))
      ensures
        var p := OrderBook.PlaceAndPay(old(State()), user, event, lines, eventFound, checkout, now);
        r == if p.Placed? then Done(p.id) else Refusal(p.error)
    {
      var tiers0, orders0, ledger0, tickets0 := tiers, orders, ledger, tickets;
      r := CreateOrder(user, event, lines, eventFound, now);
      if r.Done? {
        r := Initiate(r.id, checkout);
      }
      if r.Refusal? {
        tiers, orders, ledger, tickets := tiers0, orders0, ledger0, tickets0;
      }
    }

    method Cancel(user: nat, id: nat, now: int) returns (r: Outcome)
      modifies this
      ensures State() == Do(old(State()), CancelStep(user, id, now))
      ensures r == OutcomeOf(OrderBook.Cancel(old(State()), user, id, now), id)
    {
      if id >= |orders| {
        return Refusal(NotFound);
      }
      if orders[id].user != user {
        return Refusal(Forbidden);
      }
      if orders[id].status != Pending {
        return Refusal(NotCancellable);
      }
      var tiers0, orders0 := tiers, orders;
      var items := orders[id].items;
      orders := orders[id := orders[id].(status := Cancelled, cancelledAt := Some(now))];
      var raised := ReleaseItems(items);
      if raised {
        tiers, orders := tiers0, orders0;
        return Refusal(DatabaseError);
      }
      r := Done(id);
    }

    /** The ticket loop of ConfirmPaid: one ticket per unit of every line. */
    method IssueTickets(id: nat)
      requires id < |orders|
      modifies this`tickets
      ensures tickets == old(tickets) + IssueAll(orders[id], id, |orders[id].items|)
    {
      var o := orders[id];
      for line := 0 to |o.items|
        invariant tickets == old(tickets) + IssueAll(o, id, line)
      {
        ghost var before := tickets;
        var item := o.items[line];
        var n := if item.quantity > 0 then item.quantity else 0;
        for unit := 0 to n
          invariant tickets == before + IssueLine(o, id, line, unit)
        {
          tickets := tickets + [Ticket(id, line, o.user, o.event, item.tier)];
        }
      }
    }

    method ConfirmPaid(id: nat, now: int) returns (t: Transition)
      modifies this
      ensures t == OrderBook.ConfirmPaid(old(State()), id, now)
      ensures State() == if t.Moved? then t.db else old(State())
    {
      if id >= |orders| {
        return Missing;
      }
      if orders[id].status != Pending {
        return AlreadyPaid;
      }
      ghost var o := orders[id];
      orders := orders[id := orders[id].(status := Paid, paidAt := Some(now))];
      SameTickets(o, orders[id], id, |o.items|);
      IssueTickets(id);
      t := Moved(Db(tiers, orders, ledger, tickets));
    }

    method FailPayment(id: nat) returns (t: Transition)
      modifies this
      ensures t == OrderBook.FailPayment(old(State()), id)
      ensures !t.Aborted? ==> State() == if t.Moved? then t.db else old(State())
    {
      if id >= |orders| {
        return Missing;
      }
      if orders[id].status == Paid {
        return AlreadyPaid;
      }
      if orders[id].status != Pending {
        return NothingToDo;
      }
      var items := orders[id].items;
      orders := orders[id := orders[id].(status := Failed)];
      var raised := ReleaseItems(items);
      if raised {
        return Aborted;
      }
      t := Moved(Db(tiers, orders, ledger, tickets));
    }

    method UpsertFromWebhook(id: nat, status: PaymentStatus, amount: int, currency: string, now: int)
        returns (ok: bool)
      requires id < |orders|
      modifies this
      ensures ok <==> OrderBook.UpsertFromWebhook(old(State()), id, status, amount, currency, now).Settled?
      ensures State() == Committed(OrderBook.UpsertFromWebhook(old(State()), id, status, amount, currency, now), old(State()))
    {
      if currency != orders[id].currency || amount < 0 {
        return false;
      }
      var row := if id in ledger then ledger[id] else Payment(status, amount, currency, None, None);
      row := row.(status := status);
      if status.PaymentPaid? {
        row := row.(paidAt := Some(now));
      }
      if status.PaymentFailed? {
        row := row.(failedAt := Some(now));
      }
      ledger := ledger[id := row];
      return true;
    }

    method ApplySuccess(id: nat, now: int) returns (r: Outcome)
      modifies this
      ensures r == OutcomeOf(OrderBook.ApplySuccess(old(State()), id, now), id)
      ensures r.Done? ==> State() == OrderBook.ApplySuccess(old(State()), id, now).db
    {
      var t := ConfirmPaid(id, now);
      if t.Missing? {
        return Refusal(NotFound);
      }
      if t.Moved? {
        var ok := UpsertFromWebhook(id, PaymentPaid, orders[id].total, orders[id].currency, now);
        if !ok {
          return Refusal(DatabaseError);
        }
      }
      r := Done(id);
    }

    method ApplyFailure(id: nat, amount: int, currency: string, now: int) returns (r: Outcome)
      modifies this
      ensures r == OutcomeOf(OrderBook.ApplyFailure(old(State()), id, amount, currency, now), id)
      ensures r.Done? ==> State() == OrderBook.ApplyFailure(old(State()), id, amount, currency, now).db
    {
      var t := FailPayment(id);
      if t.Aborted? {
        return Refusal(DatabaseError);
      }
      if t.Missing? {
        return Refusal(NotFound);
      }
      if !t.AlreadyPaid? {
        var amountDue, currencyDue := amount, currency;
        if amountDue <= 0 {
          amountDue := orders[id].total;
        }
        if currencyDue == "" {
          currencyDue := orders[id].currency;
        }
        var ok := UpsertFromWebhook(id, PaymentFailed, amountDue, currencyDue, now);
        if !ok {
          return Refusal(DatabaseError);
        }
      }
      r := Done(id);
    }

    /** The webhook request inside its transaction. */
    method HandleWebhook(hook: Webhook, now: int) returns (r: Outcome)
      modifies this
      ensures State() == Do(old(State()), Hook(hook, now))
      ensures
        var s := OrderBook.HandleWebhook(old(State()), hook, now);
        if s.Settled? then hook.txRef.Some? && r == Done(hook.txRef.value) else r == Refusal(s.error)
    {
      if !hook.signed {
        return Refusal(Forbidden);
      }
      if hook.txRef.None? {
        return Refusal(ValidationError);
      }
      if hook.verdict.None? {
        return Refusal(PaymentUnavailable);
      }
      var tiers0, orders0, ledger0, tickets0 := tiers, orders, ledger, tickets;
      match hook.verdict.value {
        case Succeeded =>
          r := ApplySuccess(hook.txRef.value, now);
        case Declined(amount, currency) =>
          r := ApplyFailure(hook.txRef.value, amount, currency, now);
        case StillPending =>
          r := Done(hook.txRef.value);
      }
      if r.Refusal? {
        tiers, orders, ledger, tickets := tiers0, orders0, ledger0, tickets0;
      }
    }
  }

  lemma {:induction false} RejectedStays(tiers: map<nat, Tier>, event: nat, lines: seq<Line>, now: int, k: nat, n: nat)
    requires k <= n <= |lines| && DraftOf(tiers, event, lines, now, k).Rejected?
    ensures DraftOf(tiers, event, lines, now, n) == DraftOf(tiers, event, lines, now, k)
  {
    if k < n {
      RejectedStays(tiers, event, lines, now, k, n - 1);
    }
  }

  /** Tickets depend on an order's buyer, event and lines only. */
  lemma {:induction false} SameTickets(o: Order, p: Order, id: nat, n: nat)
    requires n <= |o.items| && p.items == o.items && p.user == o.user && p.event == o.event
    ensures IssueAll(o, id, n) == IssueAll(p, id, n)
  {
    if n > 0 {
      SameTickets(o, p, id, n - 1);
      var q := o.items[n - 1].quantity;
      SameLineTickets(o, p, id, n - 1, if q > 0 then q else 0);
    }
  }

  lemma {:induction false} SameLineTickets(o: Order, p: Order, id: nat, line: nat, n: nat)
    requires line < |o.items| && p.items == o.items && p.user == o.user && p.event == o.event
    ensures IssueLine(o, id, line, n) == IssueLine(p, id, line, n)
  {
    if n > 0 {
      SameLineTickets(o, p, id, line, n - 1);
    }
  }
}
