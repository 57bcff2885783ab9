/** Whole-run results about single orders and ledger rows. */
module OrderOutcomes {
  import opened Prelude
  import opened OrderBook
  import opened OrderInvariants
  import opened OrderRuns

  // ---- settled orders do not move ----------------------------------------------------

  /** A step leaves every order that is no longer pending as it is; a pending order only
      ever changes its status and stamps. */
  lemma OrderStep(db: Db, step: Step, id: nat)
    requires id < |db.orders|
    ensures id < |Do(db, step).orders|
    ensures !db.orders[id].status.Pending? ==> Do(db, step).orders[id] == db.orders[id]
    ensures
      var o := Do(db, step).orders[id];
      o == db.orders[id].(status := o.status, paidAt := o.paidAt, cancelledAt := o.cancelledAt)
  {
    match step
    case Hook(hook, at) =>
      if hook.signed && hook.txRef.Some? && hook.verdict.Some? {
        OrderHook(db, hook, at, id);
      }
    case Buy(_, _, _, _, _, _) =>
    case CancelStep(_, _, _) =>
    case Edit(_, _, _, _, _, _) =>
    case Open(_, _, _, _, _, _, _) =>
  }

  lemma OrderHook(db: Db, hook: Webhook, at: int, id: nat)
    requires id < |db.orders| && hook.signed && hook.txRef.Some? && hook.verdict.Some?
    ensures
      var o := HandleWebhook(db, hook, at);
      o.Settled? ==>
        && id < |o.db.orders|
        && (!db.orders[id].status.Pending? ==> o.db.orders[id] == db.orders[id])
        && o.db.orders[id] == db.orders[id].(status := o.db.orders[id].status, paidAt := o.db.orders[id].paidAt)
  {
  }

  /** In a reachable state a settled order's tickets do not move either. */
  lemma SettledStep(db: Db, step: Step, id: nat, line: nat)
    requires Inv(db) && id < |db.orders| && !db.orders[id].status.Pending?
    ensures id < |Do(db, step).orders| && Do(db, step).orders[id] == db.orders[id]
    ensures Issued(Do(db, step).tickets, id, line) == Issued(db.tickets, id, line)
  {
    StepKeeps(db, step);
    OrderStep(db, step, id);
    assert Issued(db.tickets, id, line) == TicketsDue(db, id, line);
    assert Issued(Do(db, step).tickets, id, line) == TicketsDue(Do(db, step), id, line);
  }

  /** An order that left pending never changes again, and neither do its tickets. */
  lemma {:induction false} SettledIsFinal(db: Db, steps: seq<Step>, id: nat, line: nat)
    requires Inv(db) && id < |db.orders| && !db.orders[id].status.Pending?
    ensures id < |Run(db, steps).orders| && Run(db, steps).orders[id] == db.orders[id]
    ensures Issued(Run(db, steps).tickets, id, line) == Issued(db.tickets, id, line)
  {
    if steps != [] {
      var front := steps[..|steps| - 1];
      SettledIsFinal(db, front, id, line);
      RunKeeps(db, front);
      SettledStep(Run(db, front), steps[|steps| - 1], id, line);
    }
  }

  // ---- the first decisive event wins ---------------------------------------------------

  datatype Decision = Undecided | ByCancel | BySuccess | ByFailure

  /** What a request means for a pending order of this buyer and currency. A failure event
      in another currency is rolled back by the ledger's currency trigger. */
  function DecisionOf(step: Step, id: nat, user: nat, currency: string): Decision {
    match step
    case CancelStep(u, order, _) => if order == id && u == user then ByCancel else Undecided
    case Hook(hook, _) =>
      if !hook.signed || hook.txRef != Some(id) || hook.verdict.None? then Undecided
      else (match hook.verdict.value
            case Succeeded => BySuccess
            case Declined(_, c) => if c == "" || c == currency then ByFailure else Undecided
            case StillPending => Undecided)
    case Buy(_, _, _, _, _, _) => Undecided
    case Edit(_, _, _, _, _, _) => Undecided
    case Open(_, _, _, _, _, _, _) => Undecided
  }

  function FirstDecision(steps: seq<Step>, id: nat, user: nat, currency: string): Decision {
    if steps == [] then Undecided
    else
      var d := FirstDecision(steps[..|steps| - 1], id, user, currency);
      if d.Undecided? then DecisionOf(steps[|steps| - 1], id, user, currency) else d
  }

  function StatusAfter(d: Decision): Status {
    match d
    case Undecided => Pending
    case ByCancel => Cancelled
    case BySuccess => Paid
    case ByFailure => Failed
  }

  lemma PendingOrderStep(db: Db, step: Step, id: nat)
    requires Inv(db) && id < |db.orders| && db.orders[id].status.Pending?
    ensures Do(db, step).orders[id].status == StatusAfter(DecisionOf(step, id, db.orders[id].user, db.orders[id].currency))
  {
    assert SoundOrder(db.orders[id], db.tiers);
    match step
    case Hook(hook, at) =>
      if hook.signed && hook.txRef.Some? && hook.verdict.Some? {
        HookOnPending(db, hook, at, id);
      }
    case Buy(_, _, _, _, _, _) =>
    case CancelStep(_, _, _) =>
    case Edit(_, _, _, _, _, _) =>
    case Open(_, _, _, _, _, _, _) =>
  }

  lemma HookOnPending(db: Db, hook: Webhook, at: int, id: nat)
    requires Inv(db) && id < |db.orders| && db.orders[id].status.Pending?
    requires hook.signed && hook.txRef.Some? && hook.verdict.Some?
    ensures Do(db, Hook(hook, at)).orders[id].status
            == StatusAfter(DecisionOf(Hook(hook, at), id, db.orders[id].user, db.orders[id].currency))
  {
    assert SoundOrder(db.orders[id], db.tiers);
    var ref := hook.txRef.value;
    match hook.verdict.value
    case Succeeded =>
      if ref < |db.orders| { assert SoundOrder(db.orders[ref], db.tiers); }
    case Declined(_, _) =>
      if ref < |db.orders| { assert SoundOrder(db.orders[ref], db.tiers); }
    case StillPending =>
  }

  /** From any reachable state, a pending order ends up as the first cancel by its buyer,
      success or failure event of the run leaves it, whatever else the run contains and
      however often events repeat; its tickets and its claim on stock follow its status. */
  lemma {:induction false} FirstDecisiveEventWins(db: Db, steps: seq<Step>, id: nat, line: nat, t: nat)
    requires Inv(db) && id < |db.orders| && db.orders[id].status.Pending?
    ensures Inv(Run(db, steps)) && id < |Run(db, steps).orders|
    ensures
      var first := FirstDecision(steps, id, db.orders[id].user, db.orders[id].currency);
      var end := Run(db, steps);
      var o := end.orders[id];
      && o.status == StatusAfter(first)
      && o == db.orders[id].(status := o.status, paidAt := o.paidAt, cancelledAt := o.cancelledAt)
      && Issued(end.tickets, id, line) == (if first.BySuccess? && line < |o.items| then o.items[line].quantity else 0)
      && HeldBy(o, t) == (if first.Undecided? || first.BySuccess? then Units(o.items, t, |o.items|) else 0)
  {
    RunKeeps(db, steps);
    if steps != [] {
      var front, last := steps[..|steps| - 1], steps[|steps| - 1];
      FirstDecisiveEventWins(db, front, id, line, t);
      var mid := Run(db, front);
      OrderStep(mid, last, id);
      if mid.orders[id].status.Pending? {
        PendingOrderStep(mid, last, id);
      }
    }
    assert Issued(Run(db, steps).tickets, id, line) == TicketsDue(Run(db, steps), id, line);
  }

  // ---- the ledger over runs ------------------------------------------------------------

  /** A paid ledger row stays paid with the same paid_at and amount. */
  lemma PaidRowIsFinal(db: Db, step: Step, id: nat)
    requires Inv(db) && id in db.ledger && db.ledger[id].status.PaymentPaid?
    ensures id in Do(db, step).ledger && Do(db, step).ledger[id] == db.ledger[id]
  {
    assert LedgerAgreesAt(db, id);
    match step
    case Hook(hook, at) =>
      if hook.signed && hook.txRef.Some? && hook.verdict.Some? {
        PaidRowHook(db, hook, at, id);
      }
    case Buy(_, _, _, _, _, _) =>
    case CancelStep(_, _, _) =>
    case Edit(_, _, _, _, _, _) =>
    case Open(_, _, _, _, _, _, _) =>
  }

  lemma PaidRowHook(db: Db, hook: Webhook, at: int, id: nat)
    requires hook.signed && hook.txRef.Some? && hook.verdict.Some?
    requires LedgerAgreesAt(db, id) && id in db.ledger && db.ledger[id].status.PaymentPaid?
    ensures id in Do(db, Hook(hook, at)).ledger && Do(db, Hook(hook, at)).ledger[id] == db.ledger[id]
  {
  }

  lemma {:induction false} PaidAtNeverChanges(db: Db, steps: seq<Step>, id: nat)
    requires Inv(db) && id in db.ledger && db.ledger[id].paidAt.Some?
    ensures id in Run(db, steps).ledger && Run(db, steps).ledger[id] == db.ledger[id]
  {
    assert LedgerAgreesAt(db, id);
    if steps != [] {
      var mid := Run(db, steps[..|steps| - 1]);
      PaidAtNeverChanges(db, steps[..|steps| - 1], id);
      RunKeeps(db, steps[..|steps| - 1]);
      assert LedgerAgreesAt(mid, id);
      PaidRowIsFinal(mid, steps[|steps| - 1], id);
    }
  }

  /** failed_at is not set once: a step moves it exactly when it is a further accepted
      failure event for the order, delivered at another time. */
  lemma FailedAtMovesIff(db: Db, step: Step, id: nat)
    requires Inv(db) && id in db.ledger && db.ledger[id].failedAt.Some?
    ensures id in Do(db, step).ledger
    ensures id < |db.orders|
    ensures Do(db, step).ledger[id].failedAt != db.ledger[id].failedAt
            <==> DecisionOf(step, id, db.orders[id].user, db.orders[id].currency).ByFailure?
                 && Some(step.at) != db.ledger[id].failedAt
  {
    assert LedgerAgreesAt(db, id);
    assert SoundOrder(db.orders[id], db.tiers);
    match step
    case Hook(hook, at) =>
      if hook.signed && hook.txRef.Some? && hook.verdict.Some? {
        FailedRowHook(db, hook, at, id);
      }
    case Buy(_, _, _, _, _, _) =>
    case CancelStep(_, _, _) =>
    case Edit(_, _, _, _, _, _) =>
    case Open(_, _, _, _, _, _, _) =>
  }

  lemma FailedRowHook(db: Db, hook: Webhook, at: int, id: nat)
    requires Inv(db) && id in db.ledger && db.ledger[id].failedAt.Some?
    requires hook.signed && hook.txRef.Some? && hook.verdict.Some?
    ensures id in Do(db, Hook(hook, at)).ledger
    ensures id < |db.orders|
    ensures Do(db, Hook(hook, at)).ledger[id].failedAt != db.ledger[id].failedAt
            <==> DecisionOf(Hook(hook, at), id, db.orders[id].user, db.orders[id].currency).ByFailure?
                 && Some(at) != db.ledger[id].failedAt
  {
    assert LedgerAgreesAt(db, id);
    var ref := hook.txRef.value;
    if ref < |db.orders| {
      assert SoundOrder(db.orders[ref], db.tiers);
      assert LedgerAgreesAt(db, ref);
    }
  }

  // ---- amounts ----------------------------------------------------------------------------

  /** The total on an order is the exact sum of unit price times quantity over its lines if
      and only if that sum fits int64; tier edits never reach it. */
  lemma TotalExactIff(db: Db, steps: seq<Step>, id: nat)
    requires Inv(db) && id < |Run(db, steps).orders|
    ensures
      var o := Run(db, steps).orders[id];
      o.total == Gross(o.items, |o.items|) <==> Gross(o.items, |o.items|) < TWO63
  {
    RunKeeps(db, steps);
    var o := Run(db, steps).orders[id];
    assert SoundOrder(o, Run(db, steps).tiers);
    GrossNotNegative(o.items, |o.items|);
    WrapExact(Gross(o.items, |o.items|));
  }

  lemma {:induction false} GrossNotNegative(items: seq<Item>, n: nat)
    requires n <= |items|
    requires forall k :: 0 <= k < |items| ==> items[k].unitPrice >= 0 && items[k].quantity > 0
    ensures Gross(items, n) >= 0
  {
    if n > 0 {
      GrossNotNegative(items, n - 1);
      assert items[n - 1].unitPrice * items[n - 1].quantity >= 0;
    }
  }

  /** Four tickets at 2^62 minor units cost nothing: the total wraps to zero and every
      table constraint accepts it. */
  lemma TotalCanWrap()
    ensures
      var tier := Tier(1, 0x4000_0000_0000_0000, "ETB", None, 0, None, None, true);
      var p := PlaceOrder(Db(map[1 := tier], [], map[], []), 7, 1, [Line(1, 4)], 0);
      p.Placed? && p.db.orders[0].total == 0 && Gross(p.db.orders[0].items, 1) == TWO64
  {
    var tier := Tier(1, 0x4000_0000_0000_0000, "ETB", None, 0, None, None, true);
    var tiers := map[1 := tier];
    var lines := [Line(1, 4)];
    var d := DraftOf(tiers, 1, lines, 0, 1);
    assert DraftOf(tiers, 1, lines, 0, 0) == Draft(tiers, "", 0, []);
    assert d == AddLine(Draft(tiers, "", 0, []), 1, lines[0], 0);
    assert d.items == [PricedItem(tier, lines[0])];
    assert Gross(d.items, 1) == Gross(d.items, 0) + d.items[0].unitPrice * d.items[0].quantity;
  }

  /** An order placed without error never leaves a tier sold past a set total, and raises
      each tier's sold count by the units it bought. */
  lemma PurchaseWithinTotal(db: Db, step: Step, t: nat)
    requires Inv(db) && step.Buy? && t in db.tiers
    ensures t in Do(db, step).tiers
    ensures
      var before, after := db.tiers[t], Do(db, step).tiers[t];
      && (after.total.Some? ==> after.sold <= after.total.value)
      && (Do(db, step) != db ==>
            after.sold == before.sold + Units(Do(db, step).orders[|db.orders|].items, t,
                                              |Do(db, step).orders[|db.orders|].items|))
  {
    var p := PlaceAndPay(db, step.user, step.event, step.lines, step.eventFound, step.checkout, step.at);
    if p.Placed? {
      PlacedOrderIsSound(db, step.user, step.event, step.lines, step.at);
    }
  }

  /** A cancellation or a first failure gives back exactly what the order had reserved. */
  lemma SettlementGivesBack(db: Db, step: Step, id: nat, t: nat)
    requires Inv(db) && id < |db.orders| && db.orders[id].status.Pending? && t in db.tiers
    requires DecisionOf(step, id, db.orders[id].user, db.orders[id].currency) in {ByCancel, ByFailure}
    ensures t in Do(db, step).tiers
    ensures Do(db, step).tiers[t].sold == db.tiers[t].sold - Units(db.orders[id].items, t, |db.orders[id].items|)
  {
    assert SoundOrder(db.orders[id], db.tiers);
    ReleaseKeepsStock(db, id, db.orders[id].(status := Failed));
  }
}
