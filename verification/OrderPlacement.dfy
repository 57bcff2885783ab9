/** When an order can be placed: the line loop's outcome without the loop. */
module OrderPlacement {
  import opened Prelude
  import opened OrderBook
  import opened OrderInvariants

  /** Units asked of a tier by the first n lines. */
  function Asked(lines: seq<Line>, t: nat, n: nat): int
    requires n <= |lines|
  {
    if n == 0 then 0 else Asked(lines, t, n - 1) + if lines[n - 1].tier == t then lines[n - 1].quantity else 0
  }

  /** The most a tier may have sold. */
  function Capacity(tier: Tier): int {
    if tier.total.Some? && tier.total.value < INT4_MAX then tier.total.value else INT4_MAX
  }

  /** A positive quantity of a tier of the event that is active and inside its sales window,
      both ends included. */
  predicate Offered(tiers: map<nat, Tier>, event: nat, line: Line, now: int) {
    && line.tier in tiers
    && line.quantity > 0
    && var tier := tiers[line.tier];
       && tier.event == event
       && tier.active
       && (tier.salesStart.None? || tier.salesStart.value <= now)
       && (tier.salesEnd.None? || now <= tier.salesEnd.value)
  }

  /** The currency the loop holds after n lines; None when it has met two. An empty currency
      counts as none yet. */
  function CurrencyOf(tiers: map<nat, Tier>, lines: seq<Line>, n: nat): Option<string>
    requires n <= |lines|
    requires forall k :: 0 <= k < n ==> lines[k].tier in tiers
  {
    if n == 0 then Some("")
    else
      var held, c := CurrencyOf(tiers, lines, n - 1), tiers[lines[n - 1].tier].currency;
      if held.Some? && (held.value == "" || held.value == c) then Some(c) else None
  }

  /** The first n lines can be reserved: each is on sale, one currency was met, and every tier
      has room for all that these lines ask of it together. */
  ghost predicate Reservable(tiers: map<nat, Tier>, event: nat, lines: seq<Line>, now: int, n: nat)
    requires n <= |lines|
  {
    && (forall k :: 0 <= k < n ==> Offered(tiers, event, lines[k], now))
    && CurrencyOf(tiers, lines, n).Some?
    && (forall k :: 0 <= k < n ==>
          tiers[lines[k].tier].sold + Asked(lines, lines[k].tier, n) <= Capacity(tiers[lines[k].tier]))
  }

  lemma {:induction false} AskedNotLess(lines: seq<Line>, t: nat, m: nat, n: nat)
    requires m <= n <= |lines| && forall k :: 0 <= k < n ==> lines[k].quantity > 0
    ensures 0 <= Asked(lines, t, m) <= Asked(lines, t, n)
    decreases n, m
  {
    if m < n {
      AskedNotLess(lines, t, m, n - 1);
    } else if n > 0 {
      AskedNotLess(lines, t, n - 1, n - 1);
    }
  }

  lemma {:induction false} UnitsAreAsked(items: seq<Item>, lines: seq<Line>, t: nat, n: nat)
    requires n <= |items| && n <= |lines|
    requires forall k :: 0 <= k < n ==> items[k].tier == lines[k].tier && items[k].quantity == lines[k].quantity
    ensures Units(items, t, n) == Asked(lines, t, n)
  {
    if n > 0 {
      UnitsAreAsked(items, lines, t, n - 1);
    }
  }

  /** One more line: it can be added to a draft exactly when it is offered, in the currency
      held, and its tier has room beyond what the lines before it took. */
  lemma AddLineIff(tiers: map<nat, Tier>, event: nat, lines: seq<Line>, now: int, n: nat, d: Draft)
    requires n < |lines| && DraftFor(tiers, lines, n, d)
    ensures AddLine(d, event, lines[n], now).Draft?
            <==> && Offered(tiers, event, lines[n], now)
                 && (d.currency == "" || d.currency == tiers[lines[n].tier].currency)
                 && tiers[lines[n].tier].sold + Asked(lines, lines[n].tier, n + 1) <= Capacity(tiers[lines[n].tier])
    ensures AddLine(d, event, lines[n], now).Draft? ==>
              AddLine(d, event, lines[n], now).currency == tiers[lines[n].tier].currency
  {
    UnitsAreAsked(d.items, lines, lines[n].tier, n);
  }

  /** Earlier lines of other tiers do not feel line n; earlier lines of its tier do. */
  lemma ReservableSteps(tiers: map<nat, Tier>, event: nat, lines: seq<Line>, now: int, n: nat)
    requires n < |lines|
    ensures Reservable(tiers, event, lines, now, n + 1)
            <==> && Reservable(tiers, event, lines, now, n)
                 && Offered(tiers, event, lines[n], now)
                 && (CurrencyOf(tiers, lines, n).value == "" || CurrencyOf(tiers, lines, n).value == tiers[lines[n].tier].currency)
                 && tiers[lines[n].tier].sold + Asked(lines, lines[n].tier, n + 1) <= Capacity(tiers[lines[n].tier])
  {
    if forall k :: 0 <= k < n + 1 ==> Offered(tiers, event, lines[k], now) {
      forall k | 0 <= k < n ensures 0 <= Asked(lines, lines[k].tier, n) <= Asked(lines, lines[k].tier, n + 1) {
        AskedNotLess(lines, lines[k].tier, n, n + 1);
      }
      assert Offered(tiers, event, lines[n], now);
    }
  }

  /** The line loop goes through if and only if its lines can be reserved together: neither
      their order nor how a tier's units are spread over lines matters. */
  lemma {:induction false} DraftIff(tiers: map<nat, Tier>, event: nat, lines: seq<Line>, now: int, n: nat)
    requires n <= |lines|
    ensures DraftOf(tiers, event, lines, now, n).Draft? <==> Reservable(tiers, event, lines, now, n)
    ensures Reservable(tiers, event, lines, now, n) ==>
              DraftOf(tiers, event, lines, now, n).currency == CurrencyOf(tiers, lines, n).value
  {
    if n > 0 {
      DraftIff(tiers, event, lines, now, n - 1);
      ReservableSteps(tiers, event, lines, now, n - 1);
      var d := DraftOf(tiers, event, lines, now, n - 1);
      if d.Draft? {
        DraftIs(tiers, event, lines, now, n - 1);
        AddLineIff(tiers, event, lines, now, n - 1, d);
      }
    }
  }

  // ---- the whole order ---------------------------------------------------------------------

  /** Price of the first n lines at the tiers' prices, in unbounded arithmetic. */
  function Price(tiers: map<nat, Tier>, lines: seq<Line>, n: nat): int
    requires n <= |lines|
    requires forall k :: 0 <= k < n ==> lines[k].tier in tiers
  {
    if n == 0 then 0 else Price(tiers, lines, n - 1) + tiers[lines[n - 1].tier].price * lines[n - 1].quantity
  }

  lemma {:induction false} GrossIsPrice(tiers: map<nat, Tier>, lines: seq<Line>, items: seq<Item>, n: nat)
    requires n <= |lines| && n <= |items|
    requires forall k :: 0 <= k < n ==> lines[k].tier in tiers
    requires forall k :: 0 <= k < n ==>
               items[k].unitPrice == tiers[lines[k].tier].price && items[k].quantity == lines[k].quantity
    ensures Gross(items, n) == Price(tiers, lines, n)
  {
    if n > 0 {
      GrossIsPrice(tiers, lines, items, n - 1);
    }
  }

  /** All lines in one currency, whatever it is. */
  ghost predicate OneCurrency(tiers: map<nat, Tier>, lines: seq<Line>, n: nat)
    requires n <= |lines|
    requires forall k :: 0 <= k < n ==> lines[k].tier in tiers
  {
    forall j, k :: 0 <= j < n && 0 <= k < n ==> tiers[lines[j].tier].currency == tiers[lines[k].tier].currency
  }

  lemma {:induction false} CurrencyIs(tiers: map<nat, Tier>, lines: seq<Line>, n: nat)
    requires n <= |lines|
    requires forall k :: 0 <= k < n ==> lines[k].tier in tiers
    ensures OneCurrency(tiers, lines, n) && n > 0 ==> CurrencyOf(tiers, lines, n) == Some(tiers[lines[0].tier].currency)
    ensures CurrencyOf(tiers, lines, n).Some? && n > 0 ==> CurrencyOf(tiers, lines, n).value == tiers[lines[n - 1].tier].currency
  {
    if n > 0 {
      CurrencyIs(tiers, lines, n - 1);
    }
  }

  ghost predicate NotNegative(tiers: map<nat, Tier>, lines: seq<Line>)
    requires forall k :: 0 <= k < |lines| ==> lines[k].tier in tiers
  {
    && (forall k :: 0 <= k < |lines| ==> Wrap64(tiers[lines[k].tier].price * lines[k].quantity) >= 0)
    && Wrap64(Price(tiers, lines, |lines|)) >= 0
  }

  /** Lines of one currency, each for a positive quantity of a tier of the event on sale; every
      tier with room for everything asked of it; no amount negative in int64 arithmetic. */
  ghost predicate Placeable(tiers: map<nat, Tier>, event: nat, lines: seq<Line>, now: int) {
    && lines != []
    && (forall k :: 0 <= k < |lines| ==> Offered(tiers, event, lines[k], now))
    && OneCurrency(tiers, lines, |lines|)
    && (forall k :: 0 <= k < |lines| ==>
          tiers[lines[k].tier].sold + Asked(lines, lines[k].tier, |lines|) <= Capacity(tiers[lines[k].tier]))
    && NotNegative(tiers, lines)
  }

  lemma InsertableIff(tiers: map<nat, Tier>, lines: seq<Line>, d: Draft)
    requires lines != [] && DraftFor(tiers, lines, |lines|, d)
    requires d.currency == tiers[lines[|lines| - 1].tier].currency
    ensures Insertable(d) <==> OneCurrency(tiers, lines, |lines|) && NotNegative(tiers, lines)
  {
    GrossIsPrice(tiers, lines, d.items, |lines|);
    var last := |lines| - 1;
    assert d.currency == tiers[lines[last].tier].currency;
    if Insertable(d) {
      forall k | 0 <= k < |lines| ensures tiers[lines[k].tier].currency == d.currency {
        assert d.items[k].currency == d.currency;
      }
    }
  }

  lemma DraftPlaceable(tiers: map<nat, Tier>, event: nat, lines: seq<Line>, now: int)
    requires lines != []
    ensures
      var d := DraftOf(tiers, event, lines, now, |lines|);
      d.Draft? && Insertable(d) <==> Placeable(tiers, event, lines, now)
  {
    var n := |lines|;
    DraftIff(tiers, event, lines, now, n);
    if forall k :: 0 <= k < n ==> Offered(tiers, event, lines[k], now) {
      CurrencyIs(tiers, lines, n);
      if Reservable(tiers, event, lines, now, n) {
        DraftIs(tiers, event, lines, now, n);
        InsertableIff(tiers, lines, DraftOf(tiers, event, lines, now, n));
      }
    }
  }

  /** A request for tickets places an order if and only if its event is found and its lines are
      placeable, whatever their order and however a tier's units are spread over them. */
  lemma PlacedIff(db: Db, user: nat, event: nat, lines: seq<Line>, eventFound: bool, now: int)
    ensures CreateOrder(db, user, event, lines, eventFound, now).Placed?
            <==> eventFound && Placeable(db.tiers, event, lines, now)
  {
    if lines != [] {
      DraftPlaceable(db.tiers, event, lines, now);
      assert Placeable(db.tiers, event, lines, now) ==> forall k :: 0 <= k < |lines| ==> Offered(db.tiers, event, lines[k], now);
    }
  }
}
