/** Orders, inventory, tickets and the payment ledger: the tables, and what each SQL
    statement and each request does to them. */
module OrderBook {
  import opened Prelude

  const INT4_MAX: int := 0x7FFF_FFFF

  datatype Tier = Tier(event: nat, price: nat, currency: string, total: Option<nat>, sold: nat,
                       salesStart: Option<int>, salesEnd: Option<int>, active: bool)

  datatype Status = Pending | Paid | Failed | Cancelled

  datatype Item = Item(tier: nat, quantity: int, currency: string, unitPrice: int, subtotal: int)

  datatype Order = Order(user: nat, event: nat, status: Status, currency: string, total: int, items: seq<Item>,
                         paidAt: Option<int>, cancelledAt: Option<int>)

  datatype Ticket = Ticket(order: nat, line: nat, user: nat, event: nat, tier: nat)

  datatype PaymentStatus = PaymentPending | PaymentPaid | PaymentFailed

  datatype Payment = Payment(status: PaymentStatus, amount: int, currency: string,
                             paidAt: Option<int>, failedAt: Option<int>)

  /** Orders are numbered in creation order: an order's id is its index. The ledger is
      keyed by the provider's payment id, which is the order id. */
  datatype Db = Db(tiers: map<nat, Tier>, orders: seq<Order>, ledger: map<nat, Payment>, tickets: seq<Ticket>)

  const EMPTY_DB := Db(map[], [], map[], [])

  datatype Error =
    | ValidationError | InvalidItems | SalesClosed | SoldOut | PaymentUnavailable
    | NotFound | Forbidden | NotCancellable | DatabaseError

  // ---- inventory ---------------------------------------------------------------------

  datatype Reservation = Reserved(tiers: map<nat, Tier>) | Refused | Raised

  /** reserve_ticket_inventory. */
  function Reserve(tiers: map<nat, Tier>, t: nat, q: int): Reservation {
    if q <= 0 then Raised
    else if t !in tiers || !tiers[t].active then Refused
    else if tiers[t].sold + q > INT4_MAX then Raised
    else if tiers[t].total.Some? && tiers[t].sold + q > tiers[t].total.value then Refused
    else Reserved(tiers[t := tiers[t].(sold := tiers[t].sold + q)])
  }

  /** release_ticket_inventory raises on a quantity below one. */
  predicate Releasable(items: seq<Item>) { forall k :: 0 <= k < |items| ==> items[k].quantity > 0 }

  /** What it does for a positive quantity: never below zero. */
  function Release(tiers: map<nat, Tier>, t: nat, q: int): map<nat, Tier> {
    if t !in tiers then tiers
    else tiers[t := tiers[t].(sold := if tiers[t].sold - q > 0 then tiers[t].sold - q else 0)]
  }

  function ReleaseAll(tiers: map<nat, Tier>, items: seq<Item>, n: nat): map<nat, Tier>
    requires n <= |items|
  {
    if n == 0 then tiers
    else Release(ReleaseAll(tiers, items, n - 1), items[n - 1].tier, items[n - 1].quantity)
  }

  // ---- placing an order --------------------------------------------------------------

  datatype Line = Line(tier: nat, quantity: int)

  /** The loop state of CreateOrder after some lines. */
  datatype Draft =
    | Draft(tiers: map<nat, Tier>, currency: string, subtotal: int, items: seq<Item>)
    | Rejected(error: Error)

  predicate OnSale(tier: Tier, now: int) {
    && tier.active
    && (tier.salesStart.Some? ==> now >= tier.salesStart.value)
    && (tier.salesEnd.Some? ==> now <= tier.salesEnd.value)
  }

  function PricedItem(tier: Tier, line: Line): Item {
    Item(line.tier, line.quantity, tier.currency, tier.price, Wrap64(tier.price * line.quantity))
  }

  function AddLine(d: Draft, event: nat, line: Line, now: int): Draft
    requires d.Draft?
  {
    if line.tier !in d.tiers || d.tiers[line.tier].event != event then Rejected(InvalidItems)
    else
      var tier := d.tiers[line.tier];
      if !OnSale(tier, now) then Rejected(SalesClosed)
      else if d.currency != "" && d.currency != tier.currency then Rejected(InvalidItems)
      else
        match Reserve(d.tiers, line.tier, line.quantity)
        case Raised => Rejected(DatabaseError)
        case Refused => Rejected(SoldOut)
        case Reserved(tiers) =>
          var item := PricedItem(tier, line);
          Draft(tiers, if d.currency == "" then tier.currency else d.currency,
                Wrap64(d.subtotal + item.subtotal), d.items + [item])
  }

  function DraftOf(tiers: map<nat, Tier>, event: nat, lines: seq<Line>, now: int, n: nat): Draft
    requires n <= |lines|
  {
    if n == 0 then Draft(tiers, "", 0, [])
    else
      var d := DraftOf(tiers, event, lines, now, n - 1);
      if d.Rejected? then d else AddLine(d, event, lines[n - 1], now)
  }

  /** The table constraints and the currency trigger on the inserted rows. */
  predicate Insertable(d: Draft)
    requires d.Draft?
  {
    && d.subtotal >= 0
    && forall k :: 0 <= k < |d.items| ==> d.items[k].subtotal >= 0 && d.items[k].currency == d.currency
  }

  datatype Placement = Placed(db: Db, id: nat) | NotPlaced(error: Error)

  /** OrderRepository.CreateOrder. */
  function PlaceOrder(db: Db, user: nat, event: nat, lines: seq<Line>, now: int): Placement {
    var d := DraftOf(db.tiers, event, lines, now, |lines|);
    if d.Rejected? then NotPlaced(d.error)
    else if !Insertable(d) then NotPlaced(DatabaseError)
    else
      var order := Order(user, event, Pending, d.currency, d.subtotal, d.items, None, None);
      Placed(db.(tiers := d.tiers, orders := db.orders + [order]), |db.orders|)
  }

  /** The quantity checks of OrderService.CreateOrder, then the repository call. */
  function CreateOrder(db: Db, user: nat, event: nat, lines: seq<Line>, eventFound: bool, now: int): Placement {
    if |lines| == 0 || (exists k :: 0 <= k < |lines| && lines[k].quantity < 1) then NotPlaced(ValidationError)
    else if !eventFound then NotPlaced(NotFound)
    else PlaceOrder(db, user, event, lines, now)
  }

  /** How the provider's checkout call ends; a noop provider opens no checkout. */
  datatype Checkout = NoProvider | CheckoutOpened | CheckoutFailed

  /** Initiate: a ledger row is opened only when a checkout was. An existing row violates the
      ledger's unique key: the error is overlooked, but it has aborted the transaction. */
  function Initiate(db: Db, id: nat, checkout: Checkout): Placement
    requires id < |db.orders|
  {
    match checkout
    case NoProvider => Placed(db, id)
    case CheckoutFailed => NotPlaced(PaymentUnavailable)
    case CheckoutOpened =>
      if id in db.ledger then NotPlaced(DatabaseError)
      else
        var o := db.orders[id];
        Placed(db.(ledger := db.ledger[id := Payment(PaymentPending, o.total, o.currency, None, None)]), id)
  }

  /** POST /events/{id}/orders: the order and its checkout, in one request transaction. */
  function PlaceAndPay(db: Db, user: nat, event: nat, lines: seq<Line>, eventFound: bool, checkout: Checkout, now: int): Placement {
    var p := CreateOrder(db, user, event, lines, eventFound, now);
    if p.NotPlaced? then p else Initiate(p.db, p.id, checkout)
  }

  // ---- settling an order -------------------------------------------------------------

  datatype Settlement = Settled(db: Db) | NotSettled(error: Error)

  /** CancelOrder: the caller's own pending order. */
  function Cancel(db: Db, user: nat, id: nat, now: int): Settlement {
    if id >= |db.orders| then NotSettled(NotFound)
    else if db.orders[id].user != user then NotSettled(Forbidden)
    else if db.orders[id].status != Pending then NotSettled(NotCancellable)
    else if !Releasable(db.orders[id].items) then NotSettled(DatabaseError)
    else
      var o := db.orders[id];
      Settled(db.(tiers := ReleaseAll(db.tiers, o.items, |o.items|),
                  orders := db.orders[id := o.(status := Cancelled, cancelledAt := Some(now))]))
  }

  function IssueLine(o: Order, id: nat, line: nat, n: nat): seq<Ticket>
    requires line < |o.items|
  {
    if n == 0 then [] else IssueLine(o, id, line, n - 1) + [Ticket(id, line, o.user, o.event, o.items[line].tier)]
  }

  /** The tickets of the first n lines, one per unit. */
  function IssueAll(o: Order, id: nat, n: nat): seq<Ticket>
    requires n <= |o.items|
  {
    if n == 0 then []
    else
      var q := o.items[n - 1].quantity;
      IssueAll(o, id, n - 1) + IssueLine(o, id, n - 1, if q > 0 then q else 0)
  }

  datatype Transition = Moved(db: Db) | AlreadyPaid | NothingToDo | Missing | Aborted

  /** ConfirmPaid: every status but pending is reported as already paid. */
  function ConfirmPaid(db: Db, id: nat, now: int): Transition {
    if id >= |db.orders| then Missing
    else if db.orders[id].status != Pending then AlreadyPaid
    else
      var o := db.orders[id];
      Moved(db.(orders := db.orders[id := o.(status := Paid, paidAt := Some(now))],
                tickets := db.tickets + IssueAll(o, id, |o.items|)))
  }

  /** FailPayment. */
  function FailPayment(db: Db, id: nat): Transition {
    if id >= |db.orders| then Missing
    else if db.orders[id].status == Paid then AlreadyPaid
    else if db.orders[id].status != Pending then NothingToDo
    else if !Releasable(db.orders[id].items) then Aborted
    else
      var o := db.orders[id];
      Moved(db.(tiers := ReleaseAll(db.tiers, o.items, |o.items|),
                orders := db.orders[id := o.(status := Failed)]))
  }

  /** UpsertFromWebhook. The row trigger sees the proposed row first, so a currency other
      than the order's raises even when a row exists; COALESCE prefers the new stamp. */
  function UpsertFromWebhook(db: Db, id: nat, status: PaymentStatus, amount: int, currency: string, now: int): Settlement
    requires id < |db.orders|
  {
    if currency != db.orders[id].currency || amount < 0 then NotSettled(DatabaseError)
    else
      var paid := if status.PaymentPaid? then Some(now) else None;
      var failed := if status.PaymentFailed? then Some(now) else None;
      var row :=
        if id !in db.ledger then Payment(status, amount, currency, paid, failed)
        else
          var was := db.ledger[id];
          was.(status := status,
               paidAt := if paid.Some? then paid else was.paidAt,
               failedAt := if failed.Some? then failed else was.failedAt);
      Settled(db.(ledger := db.ledger[id := row]))
  }

  function ApplySuccess(db: Db, id: nat, now: int): Settlement {
    match ConfirmPaid(db, id, now)
    case Missing => NotSettled(NotFound)
    case Aborted => NotSettled(DatabaseError)
    case AlreadyPaid => Settled(db)
    case NothingToDo => Settled(db)
    case Moved(after) =>
      UpsertFromWebhook(after, id, PaymentPaid, after.orders[id].total, after.orders[id].currency, now)
  }

  function ApplyFailure(db: Db, id: nat, amount: int, currency: string, now: int): Settlement {
    match FailPayment(db, id)
    case Missing => NotSettled(NotFound)
    case Aborted => NotSettled(DatabaseError)
    case AlreadyPaid => Settled(db)
    case NothingToDo => RecordFailure(db, id, amount, currency, now)
    case Moved(after) => RecordFailure(after, id, amount, currency, now)
  }

  /** The provider's amount and currency, where it gave them; the order's otherwise. */
  function RecordFailure(db: Db, id: nat, amount: int, currency: string, now: int): Settlement
    requires id < |db.orders|
  {
    var o := db.orders[id];
    UpsertFromWebhook(db, id, PaymentFailed,
                      if amount <= 0 then o.total else amount,
                      if currency == "" then o.currency else currency, now)
  }

  datatype Verdict = Succeeded | Declined(amount: int, currency: string) | StillPending

  /** A webhook call: whether its signature is valid, the reference in its body, and what
      the provider answers when asked again (nothing when that call fails). */
  datatype Webhook = Webhook(signed: bool, txRef: Option<nat>, verdict: Option<Verdict>)

  function HandleWebhook(db: Db, hook: Webhook, now: int): Settlement {
    if !hook.signed then NotSettled(Forbidden)
    else if hook.txRef.None? then NotSettled(ValidationError)
    else if hook.verdict.None? then NotSettled(PaymentUnavailable)
    else
      match hook.verdict.value
      case Succeeded => ApplySuccess(db, hook.txRef.value, now)
      case Declined(amount, currency) => ApplyFailure(db, hook.txRef.value, amount, currency, now)
      case StillPending => Settled(db)
  }

  // ---- tiers -------------------------------------------------------------------------

  /** UpdateTicketType: neither event, currency nor quantity_sold can change, and the
      table rejects a total below what is sold. */
  function EditTier(db: Db, t: nat, price: nat, total: Option<nat>, salesStart: Option<int>, salesEnd: Option<int>, active: bool): Settlement {
    if t !in db.tiers then NotSettled(NotFound)
    else if total.Some? && db.tiers[t].sold > total.value then NotSettled(DatabaseError)
    else
      Settled(db.(tiers := db.tiers[t := db.tiers[t].(price := price, total := total,
                                                      salesStart := salesStart, salesEnd := salesEnd, active := active)]))
  }

  function CreateTier(db: Db, t: nat, event: nat, price: nat, currency: string, total: Option<nat>,
                      salesStart: Option<int>, salesEnd: Option<int>): Settlement {
    if t in db.tiers then NotSettled(DatabaseError)
    else Settled(db.(tiers := db.tiers[t := Tier(event, price, currency, total, 0, salesStart, salesEnd, true)]))
  }

  // ---- steps -------------------------------------------------------------------------

  /** One committed or rolled-back request. */
  datatype Step =
    | Buy(user: nat, event: nat, lines: seq<Line>, eventFound: bool, checkout: Checkout, at: int)
    | CancelStep(user: nat, order: nat, at: int)
    | Hook(hook: Webhook, at: int)
    | Edit(tier: nat, price: nat, total: Option<nat>, salesStart: Option<int>, salesEnd: Option<int>, active: bool)
    | Open(tier: nat, event: nat, price: nat, currency: string, total: Option<nat>, salesStart: Option<int>, salesEnd: Option<int>)

  function Committed(s: Settlement, before: Db): Db {
    if s.Settled? then s.db else before
  }

  /** The request transaction: an error status rolls everything back. */
  function Do(db: Db, step: Step): Db {
    match step
    case Buy(user, event, lines, eventFound, checkout, at) =>
      var p := PlaceAndPay(db, user, event, lines, eventFound, checkout, at);
      if p.Placed? then p.db else db
    case CancelStep(user, order, at) => Committed(Cancel(db, user, order, at), db)
    case Hook(hook, at) => Committed(HandleWebhook(db, hook, at), db)
    case Edit(t, price, total, from, to, active) => Committed(EditTier(db, t, price, total, from, to, active), db)
    case Open(t, event, price, currency, total, from, to) =>
      Committed(CreateTier(db, t, event, price, currency, total, from, to), db)
  }

  function Run(db: Db, steps: seq<Step>): Db {
    if steps == [] then db else Do(Run(db, steps[..|steps| - 1]), steps[|steps| - 1])
  }
}
