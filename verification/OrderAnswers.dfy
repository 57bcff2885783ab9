/** What each order request answers and leaves behind, told without the tables' statements. */
module OrderAnswers {
  import opened Prelude
  import opened OrderBook
  import opened OrderInvariants
  import opened OrderPlacement
  import opened OrderRuns
  import opened OrderOutcomes

  // ---- a placed order ------------------------------------------------------------------

  /** The order a request asks for: its buyer and event, its lines in request order at the
      tiers' prices, and the int64 sum of the prices. */
  ghost predicate IsOrderFor(o: Order, tiers: map<nat, Tier>, user: nat, event: nat, lines: seq<Line>) {
    && o.user == user
    && o.event == event
    && o.status.Pending? && o.paidAt.None? && o.cancelledAt.None?
    && lines != []
    && |o.items| == |lines|
    && (forall k :: 0 <= k < |lines| ==>
          && lines[k].tier in tiers
          && var tier, item := tiers[lines[k].tier], o.items[k];
             && item.tier == lines[k].tier && item.quantity == lines[k].quantity
             && item.currency == tier.currency == o.currency
             && item.unitPrice == tier.price
             && item.subtotal == Wrap64(tier.price * lines[k].quantity))
    && o.total == Wrap64(Price(tiers, lines, |lines|))
  }

  /** Every tier has sold what the lines ask of it more, and is otherwise as before. */
  ghost predicate Sells(before: map<nat, Tier>, after: map<nat, Tier>, lines: seq<Line>) {
    && after.Keys == before.Keys
    && forall t :: t in before ==>
         && after[t] == before[t].(sold := after[t].sold)
         && after[t].sold == before[t].sold + Asked(lines, t, |lines|)
  }

  lemma CreatedOrderIs(db: Db, user: nat, event: nat, lines: seq<Line>, eventFound: bool, now: int)
    requires CreateOrder(db, user, event, lines, eventFound, now).Placed?
    ensures
      var p := CreateOrder(db, user, event, lines, eventFound, now);
      && p.id == |db.orders|
      && |p.db.orders| == p.id + 1 && p.db.orders[..p.id] == db.orders
      && IsOrderFor(p.db.orders[p.id], db.tiers, user, event, lines)
      && Sells(db.tiers, p.db.tiers, lines)
      && p.db.ledger == db.ledger && p.db.tickets == db.tickets
  {
    var d := DraftOf(db.tiers, event, lines, now, |lines|);
    DraftIs(db.tiers, event, lines, now, |lines|);
    forall k | 0 <= k < |lines|
      ensures lines[k].tier in db.tiers && d.items[k] == PricedItem(db.tiers[lines[k].tier], lines[k])
      ensures d.items[k].currency == d.currency
    {
    }
    GrossIsPrice(db.tiers, lines, d.items, |lines|);
    forall t ensures Units(d.items, t, |lines|) == Asked(lines, t, |lines|) {
      UnitsAreAsked(d.items, lines, t, |lines|);
    }
  }

  /** An order that is placed and can be paid for. The new ledger row exists exactly when a
      checkout was opened, and no other row moves. */
  lemma PlacedOrderIs(db: Db, user: nat, event: nat, lines: seq<Line>, eventFound: bool, checkout: Checkout, now: int)
    requires PlaceAndPay(db, user, event, lines, eventFound, checkout, now).Placed?
    ensures
      var p := PlaceAndPay(db, user, event, lines, eventFound, checkout, now);
      && p.id == |db.orders|
      && |p.db.orders| == p.id + 1 && p.db.orders[..p.id] == db.orders
      && IsOrderFor(p.db.orders[p.id], db.tiers, user, event, lines)
      && Sells(db.tiers, p.db.tiers, lines)
      && p.db.tickets == db.tickets
      && p.db.ledger == (if checkout.CheckoutOpened? then
                           db.ledger[p.id := Payment(PaymentPending, p.db.orders[p.id].total, p.db.orders[p.id].currency, None, None)]
                         else db.ledger)
  {
    CreatedOrderIs(db, user, event, lines, eventFound, now);
  }

  /** From every reachable state, an order is placed if and only if its event is found, its
      lines are placeable and the provider's checkout call does not fail. */
  lemma PlaceAndPayIff(db: Db, user: nat, event: nat, lines: seq<Line>, eventFound: bool, checkout: Checkout, now: int)
    requires Inv(db)
    ensures PlaceAndPay(db, user, event, lines, eventFound, checkout, now).Placed?
            <==> eventFound && Placeable(db.tiers, event, lines, now) && !checkout.CheckoutFailed?
  {
    PlacedIff(db, user, event, lines, eventFound, now);
    assert LedgerAgreesAt(db, |db.orders|);
  }

  /** A request that places no order leaves every table as it was, whatever it had reserved
      before it failed. */
  lemma UnplacedLeavesNothing(db: Db, user: nat, event: nat, lines: seq<Line>, eventFound: bool, checkout: Checkout, now: int)
    requires Inv(db)
    requires !eventFound || !Placeable(db.tiers, event, lines, now) || checkout.CheckoutFailed?
    ensures Do(db, Buy(user, event, lines, eventFound, checkout, now)) == db
  {
    PlaceAndPayIff(db, user, event, lines, eventFound, checkout, now);
  }

  /** In every reachable state the ledger row of a new order appears with its checkout only. */
  lemma RowIffCheckout(db: Db, user: nat, event: nat, lines: seq<Line>, eventFound: bool, checkout: Checkout, now: int)
    requires Inv(db) && PlaceAndPay(db, user, event, lines, eventFound, checkout, now).Placed?
    ensures |db.orders| in PlaceAndPay(db, user, event, lines, eventFound, checkout, now).db.ledger <==> checkout.CheckoutOpened?
  {
    PlacedOrderIs(db, user, event, lines, eventFound, checkout, now);
    assert LedgerAgreesAt(db, |db.orders|);
  }

  // ---- why an order is refused -----------------------------------------------------------

  /** What is wrong with line k, the lines before it being fine, told by the tiers as they
      were before the request. */
  ghost function WrongWith(tiers: map<nat, Tier>, event: nat, lines: seq<Line>, now: int, k: nat): Error
    requires k < |lines|
    requires forall j :: 0 <= j < k ==> lines[j].tier in tiers
  {
    if lines[k].tier !in tiers || tiers[lines[k].tier].event != event then InvalidItems
    else
      var tier := tiers[lines[k].tier];
      var sold := tier.sold + Asked(lines, lines[k].tier, k + 1);
      if !tier.active || (tier.salesStart.Some? && now < tier.salesStart.value)
         || (tier.salesEnd.Some? && tier.salesEnd.value < now) then SalesClosed
      else if k > 0 && tiers[lines[k - 1].tier].currency !in {"", tier.currency} then InvalidItems
      else if sold > INT4_MAX then DatabaseError
      else SoldOut
  }

  /** A request with positive quantities is refused for its first line that cannot be
      reserved beside the lines before it. */
  lemma {:induction false} RefusedFor(tiers: map<nat, Tier>, event: nat, lines: seq<Line>, now: int, k: nat, n: nat)
    requires k < n <= |lines| && lines[k].quantity > 0
    requires Reservable(tiers, event, lines, now, k) && !Reservable(tiers, event, lines, now, k + 1)
    ensures forall j :: 0 <= j < k ==> lines[j].tier in tiers
    ensures DraftOf(tiers, event, lines, now, n) == Rejected(WrongWith(tiers, event, lines, now, k))
    decreases n
  {
    assert forall j :: 0 <= j < k ==> Offered(tiers, event, lines[j], now);
    if k + 1 < n {
      RefusedFor(tiers, event, lines, now, k, n - 1);
    } else {
      DraftIff(tiers, event, lines, now, k);
      DraftIff(tiers, event, lines, now, k + 1);
      DraftIs(tiers, event, lines, now, k);
      CurrencyIs(tiers, lines, k);
      var d := DraftOf(tiers, event, lines, now, k);
      UnitsAreAsked(d.items, lines, lines[k].tier, k);
      LineWrong(tiers, event, lines, now, k, d);
    }
  }

  lemma LineWrong(tiers: map<nat, Tier>, event: nat, lines: seq<Line>, now: int, k: nat, d: Draft)
    requires k < |lines| && lines[k].quantity > 0
    requires forall j :: 0 <= j < k ==> lines[j].tier in tiers
    requires DraftFor(tiers, lines, k, d) && AddLine(d, event, lines[k], now).Rejected?
    requires Units(d.items, lines[k].tier, k) == Asked(lines, lines[k].tier, k)
    requires d.currency == if k == 0 then "" else tiers[lines[k - 1].tier].currency
    ensures AddLine(d, event, lines[k], now) == Rejected(WrongWith(tiers, event, lines, now, k))
  {
    if lines[k].tier in tiers {
      assert d.tiers[lines[k].tier] == tiers[lines[k].tier].(sold := d.tiers[lines[k].tier].sold);
    }
  }

  lemma {:induction false} FirstWrong(tiers: map<nat, Tier>, event: nat, lines: seq<Line>, now: int, n: nat) returns (k: nat)
    requires n <= |lines| && !Reservable(tiers, event, lines, now, n)
    ensures k < n && Reservable(tiers, event, lines, now, k) && !Reservable(tiers, event, lines, now, k + 1)
  {
    if Reservable(tiers, event, lines, now, n - 1) {
      k := n - 1;
    } else {
      k := FirstWrong(tiers, event, lines, now, n - 1);
    }
  }

  /** The answer to every request that places no order: the checks on the request first, then
      the event, then the first line that cannot be reserved, then the table constraints,
      then the provider. */
  lemma RefusalIs(db: Db, user: nat, event: nat, lines: seq<Line>, eventFound: bool, checkout: Checkout, now: int)
    requires Inv(db)
    ensures
      var answer := PlaceAndPay(db, user, event, lines, eventFound, checkout, now);
      if lines == [] || exists k :: 0 <= k < |lines| && lines[k].quantity < 1 then answer == NotPlaced(ValidationError)
      else if !eventFound then answer == NotPlaced(NotFound)
      else if !Reservable(db.tiers, event, lines, now, |lines|) then
        exists k :: 0 <= k < |lines|
                    && Reservable(db.tiers, event, lines, now, k) && !Reservable(db.tiers, event, lines, now, k + 1)
                    && answer == NotPlaced(WrongWith(db.tiers, event, lines, now, k))
      else if !Placeable(db.tiers, event, lines, now) then answer == NotPlaced(DatabaseError)
      else if checkout.CheckoutFailed? then answer == NotPlaced(PaymentUnavailable)
      else answer.Placed?
  {
    if lines != [] && eventFound && forall k :: 0 <= k < |lines| ==> lines[k].quantity >= 1 {
      PlaceAndPayIff(db, user, event, lines, eventFound, checkout, now);
      if Reservable(db.tiers, event, lines, now, |lines|) {
        DraftIff(db.tiers, event, lines, now, |lines|);
        DraftPlaceable(db.tiers, event, lines, now);
      } else {
        var k := FirstWrong(db.tiers, event, lines, now, |lines|);
        RefusedFor(db.tiers, event, lines, now, k, |lines|);
      }
    }
  }

  // ---- a cancellation ----------------------------------------------------------------------

  /** One order replaced, its units back with their tiers, and nothing else touched. */
  ghost predicate LetsGo(db: Db, after: Db, id: nat, o: Order)
    requires id < |db.orders|
  {
    && after.orders == db.orders[id := o]
    && after.tickets == db.tickets
    && after.tiers.Keys == db.tiers.Keys
    && forall t :: t in db.tiers ==>
         && after.tiers[t] == db.tiers[t].(sold := after.tiers[t].sold)
         && after.tiers[t].sold == db.tiers[t].sold - Units(o.items, t, |o.items|)
  }

  /** Only the buyer can cancel, and only while the order is pending. */
  lemma CancelIs(db: Db, user: nat, id: nat, now: int)
    requires Inv(db)
    ensures
      var answer := Cancel(db, user, id, now);
      if id >= |db.orders| then answer == NotSettled(NotFound)
      else if db.orders[id].user != user then answer == NotSettled(Forbidden)
      else if !db.orders[id].status.Pending? then answer == NotSettled(NotCancellable)
      else
        && answer.Settled?
        && LetsGo(db, answer.db, id, db.orders[id].(status := Cancelled, cancelledAt := Some(now)))
        && answer.db.ledger == db.ledger
  {
    if id < |db.orders| && db.orders[id].status.Pending? {
      assert SoundOrder(db.orders[id], db.tiers);
      ReleaseKeepsStock(db, id, db.orders[id].(status := Cancelled, cancelledAt := Some(now)));
    }
  }

  // ---- a webhook -----------------------------------------------------------------------------

  /** A call that is not signed, names no order, or cannot be checked with the provider is
      refused; so is a decision on an order that does not exist. */
  lemma WebhookRefusals(db: Db, hook: Webhook, now: int)
    ensures
      var answer := HandleWebhook(db, hook, now);
      if !hook.signed then answer == NotSettled(Forbidden)
      else if hook.txRef.None? then answer == NotSettled(ValidationError)
      else if hook.verdict.None? then answer == NotSettled(PaymentUnavailable)
      else if hook.verdict.value.StillPending? then answer == Settled(db)
      else hook.txRef.value >= |db.orders| ==> answer == NotSettled(NotFound)
  {
  }

  /** A success pays a pending order: its tickets are issued, its ledger row is paid for its
      total, and no tier moves. Repeated, or for an order that is settled, it does nothing. */
  lemma SuccessIs(db: Db, id: nat, now: int)
    requires Inv(db) && id < |db.orders|
    ensures
      var o, answer := db.orders[id], HandleWebhook(db, Webhook(true, Some(id), Some(Succeeded)), now);
      && answer.Settled?
      && (if o.status.Pending? then
            && answer.db.orders == db.orders[id := o.(status := Paid, paidAt := Some(now))]
            && answer.db.ledger == db.ledger[id := Payment(PaymentPaid, o.total, o.currency, Some(now), None)]
            && answer.db.tiers == db.tiers
            && db.tickets <= answer.db.tickets
          else answer.db == db)
  {
    assert SoundOrder(db.orders[id], db.tiers);
    assert LedgerAgreesAt(db, id);
  }

  /** The ledger row a failure leaves: a new row takes the provider's amount where it gave a
      positive one and the order's total otherwise; an existing row keeps its amount. */
  ghost predicate FailedRow(db: Db, row: Payment, id: nat, amount: int, now: int)
    requires id < |db.orders|
  {
    && row.status.PaymentFailed?
    && row.currency == db.orders[id].currency
    && row.failedAt == Some(now)
    && row.paidAt.None?
    && row.amount == if id in db.ledger then db.ledger[id].amount else if amount > 0 then amount else db.orders[id].total
  }

  /** A failure lets a pending order go and marks its ledger row; for an order that failed or
      was cancelled it only marks the row, and a paid order it leaves alone. One in another
      currency than the order's is rolled back with a database error, unless the order is paid. */
  lemma FailureIs(db: Db, id: nat, amount: int, currency: string, now: int)
    requires Inv(db) && id < |db.orders|
    ensures
      var o, answer := db.orders[id], HandleWebhook(db, Webhook(true, Some(id), Some(Declined(amount, currency))), now);
      if o.status.Paid? then answer == Settled(db)
      else if currency != "" && currency != o.currency then answer == NotSettled(DatabaseError)
      else
        && answer.Settled?
        && id in answer.db.ledger
        && answer.db.ledger == db.ledger[id := answer.db.ledger[id]]
        && FailedRow(db, answer.db.ledger[id], id, amount, now)
        && (if o.status.Pending? then LetsGo(db, answer.db, id, o.(status := Failed))
            else answer.db == db.(ledger := answer.db.ledger))
  {
    assert SoundOrder(db.orders[id], db.tiers);
    assert LedgerAgreesAt(db, id);
    if db.orders[id].status.Pending? {
      ReleaseKeepsStock(db, id, db.orders[id].(status := Failed));
    }
  }

  // ---- tickets and tiers over runs ---------------------------------------------------------

  /** A ticket is for its order's buyer and event and for the tier of its line. */
  ghost predicate TicketSound(db: Db, k: nat)
    requires k < |db.tickets|
  {
    var t := db.tickets[k];
    && t.order < |db.orders|
    && var o := db.orders[t.order];
       && t.line < |o.items|
       && t.user == o.user
       && t.event == o.event
       && t.tier == o.items[t.line].tier
  }

  ghost predicate TicketsSound(db: Db) {
    forall k :: 0 <= k < |db.tickets| ==> TicketSound(db, k)
  }

  lemma {:induction false} IssuedLineIs(o: Order, id: nat, line: nat, n: nat)
    requires line < |o.items|
    ensures forall k :: 0 <= k < |IssueLine(o, id, line, n)| ==>
              var t := IssueLine(o, id, line, n)[k];
              t.order == id && t.line == line && t.user == o.user && t.event == o.event && t.tier == o.items[line].tier
  {
    if n > 0 {
      IssuedLineIs(o, id, line, n - 1);
    }
  }

  lemma {:induction false} IssuedAllIs(o: Order, id: nat, n: nat)
    requires n <= |o.items|
    ensures forall k :: 0 <= k < |IssueAll(o, id, n)| ==>
              var t := IssueAll(o, id, n)[k];
              t.order == id && t.line < |o.items| && t.user == o.user && t.event == o.event && t.tier == o.items[t.line].tier
  {
    if n > 0 {
      var q := o.items[n - 1].quantity;
      IssuedAllIs(o, id, n - 1);
      IssuedLineIs(o, id, n - 1, if q > 0 then q else 0);
    }
  }

  /** The tickets a request appends. */
  lemma TicketStep(db: Db, step: Step)
    ensures db.tickets <= Do(db, step).tickets
    ensures forall k :: |db.tickets| <= k < |Do(db, step).tickets| ==> TicketSound(Do(db, step), k)
  {
    if step.Hook? && step.hook.signed && step.hook.txRef.Some? && step.hook.txRef.value < |db.orders|
       && step.hook.verdict == Some(Succeeded) {
      var id := step.hook.txRef.value;
      IssuedAllIs(db.orders[id], id, |db.orders[id].items|);
    }
  }

  /** Whatever the run, every ticket names an order, its buyer, its event and the tier of one
      of its lines. */
  lemma {:induction false} TicketsAreSound(db: Db, steps: seq<Step>)
    requires TicketsSound(db)
    ensures TicketsSound(Run(db, steps))
  {
    if steps != [] {
      var mid, last := Run(db, steps[..|steps| - 1]), steps[|steps| - 1];
      TicketsAreSound(db, steps[..|steps| - 1]);
      TicketStep(mid, last);
      forall k | 0 <= k < |mid.tickets| ensures TicketSound(Do(mid, last), k) {
        assert TicketSound(mid, k) && Do(mid, last).tickets[k] == mid.tickets[k];
        OrderStep(mid, last, mid.tickets[k].order);
      }
    }
  }
}
