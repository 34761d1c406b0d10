/** Where cart and order meet: both show the same total, and storage rounds it within bounds. */
module Checkout {
  import opened Base
  import opened Pricing
  import opened Stock
  import opened Orders
  import opened Interleaving
  import opened Accounting
  import opened Sums
  import Money
  import Shop
  import ShopRules

  /** The lines ask for the listed cart entries: product, variant and quantity; the rest is up to the client. */
  ghost predicate OrdersEntries(ls: seq<Line>, es: Shop.Entries, order: seq<string>) {
    && Enumerates(order, es.Keys)
    && |ls| == |order|
    && forall i :: 0 <= i < |order| ==>
         && order[i] in es
         && ls[i].productId == es[order[i]].productId
         && ls[i].variantId == es[order[i]].variantId
         && ls[i].quantity == es[order[i]].quantity
  }

  /** A synced entry that the order can price shows the order's price. */
  lemma SyncedPriceIsOrderPrice(catalog: Catalog, es: Shop.Entries, f: string, x: real)
    requires f in Shop.Synced(catalog, es)
    requires var it := Shop.Synced(catalog, es)[f]; FetchServerPrice(catalog, it.productId, it.variantId) == Ok(x)
    ensures Shop.Synced(catalog, es)[f].price == x
  {
    SelectorsAgree(catalog, es[f].productId, es[f].variantId, x);
  }

  lemma PricesAgree(catalog: Catalog, cart: Shop.Entries, order: seq<string>, ls: seq<Line>, i: nat)
    requires OrdersEntries(ls, Shop.Synced(catalog, cart), order)
    requires Repriced(catalog, ls).Ok? && i < |order|
    ensures var it, l := Shop.Synced(catalog, cart)[order[i]], Repriced(catalog, ls).value[i];
            l.unitPrice == it.price && l.quantity == it.quantity
  {
    RepricedLines(catalog, ls);
    SyncedPriceIsOrderPrice(catalog, cart, order[i], Repriced(catalog, ls).value[i].unitPrice);
  }

  /** Line by line, the order's amounts are the synced cart's. */
  lemma AmountsAgree(catalog: Catalog, cart: Shop.Entries, order: seq<string>, ls: seq<Line>)
    requires OrdersEntries(ls, Shop.Synced(catalog, cart), order)
    requires Repriced(catalog, ls).Ok?
    ensures (forall f :: f in order ==> f in Shop.Amounts(Shop.Synced(catalog, cart)))
    ensures Money.Amounts(EntriesOf(Repriced(catalog, ls).value)) == Listed(Shop.Amounts(Shop.Synced(catalog, cart)), order)
  {
    var es, priced := Shop.Synced(catalog, cart), Repriced(catalog, ls).value;
    forall i: nat | i < |order| ensures Money.Amounts(EntriesOf(priced))[i] == Shop.Amounts(es)[order[i]] {
      PricesAgree(catalog, cart, order, ls, i);
      assert EntriesOf(priced)[i] == Money.Entry(es[order[i]].price, es[order[i]].quantity);
    }
  }

  /**
   On one store snapshot: if the entries of a synced cart, taken in any order, can be repriced, their order total is
   the cart total, whatever unit prices the client sent and in whatever order the hash was listed.
   */
  lemma TotalsAgree(catalog: Catalog, cart: Shop.Entries, order: seq<string>, ls: seq<Line>)
    requires OrdersEntries(ls, Shop.Synced(catalog, cart), order)
    requires Repriced(catalog, ls).Ok?
    ensures Money.Total(EntriesOf(Repriced(catalog, ls).value)) == Shop.HashTotal(Shop.Synced(catalog, cart))
  {
    AmountsAgree(catalog, cart, order, ls);
    Money.TotalIsSum(EntriesOf(Repriced(catalog, ls).value));
    var amounts := Shop.Amounts(Shop.Synced(catalog, cart));
    assert amounts.Keys == Shop.Synced(catalog, cart).Keys;
    SumOfAnyOrder(amounts, order);
  }

  lemma AnsweredTotal(w: World, request: OrderRequest, faults: Faults)
    requires Replay(w, request.key).None? && CreateOrder(w, request, faults).reply.Ok?
    ensures Repriced(w.shop.catalog, request.lines).Ok?
    ensures CreateOrder(w, request, faults).reply.value.order.total
            == Money.Total(EntriesOf(Repriced(w.shop.catalog, request.lines).value))
  {
  }

  /**
   Getting the cart and ordering what it showed, at any later time with the same store snapshot and whatever happened
   in between: a newly created order's total is the total the cart showed.
   */
  lemma CheckoutTotalIsCartTotal(w: World, userId: string, order: seq<string>, later: World, request: OrderRequest, faults: Faults)
    requires var shown := Shop.GetHash(w.shop, Shop.CartKey(userId));
             OrdersEntries(request.lines, Shop.Hgetall(shown.redis, Shop.CartKey(userId)), order)
    requires later.shop.catalog == w.shop.catalog
    requires Replay(later, request.key).None? && CreateOrder(later, request, faults).reply.Ok?
    ensures var shown := Shop.GetHash(w.shop, Shop.CartKey(userId));
            CreateOrder(later, request, faults).reply.value.order.total
            == Shop.HashTotal(Shop.Hgetall(shown.redis, Shop.CartKey(userId)))
  {
    var cart := Shop.Hgetall(w.shop.redis, Shop.CartKey(userId));
    var shown := Shop.GetHash(w.shop, Shop.CartKey(userId));
    assert Shop.Hgetall(shown.redis, Shop.CartKey(userId)) == Shop.Synced(w.shop.catalog, cart);
    AnsweredTotal(later, request, faults);
    TotalsAgree(w.shop.catalog, cart, order, request.lines);
  }

  /**
   What is stored of a new order: its total differs from the sum over its stored lines by at most half a cent times
   one plus the units sold, and not at all when every server price is a whole number of cents.
   */
  lemma StoredTotalIsClose(request: OrderRequest, ls: seq<Line>, now: int)
    requires ls != [] && forall l :: l in ls ==> l.quantity >= 0
    ensures var o := Stored(NewOrder(request, ls, now));
            && Money.Near(o.total, Money.Total(EntriesOf(o.lines)), Money.HalfCents(1 + Money.Quantity(EntriesOf(o.lines))))
            && ((forall l :: l in ls ==> Money.WholeCents(l.unitPrice)) ==> o.total == Money.Total(EntriesOf(o.lines)))
  {
    var es, o := EntriesOf(ls), Stored(NewOrder(request, ls, now));
    forall e | e in es ensures e.quantity >= 0 {
      var i :| 0 <= i < |es| && es[i] == e;
      assert ls[i] in ls;
    }
    assert EntriesOf(o.lines) == Money.Rounded(es);
    SameQuantity(es, Money.Rounded(es));
    Money.StoredTotalBound(es);
    if forall l :: l in ls ==> Money.WholeCents(l.unitPrice) {
      forall e | e in es ensures Money.WholeCents(e.price) {
        var i :| 0 <= i < |es| && es[i] == e;
        assert ls[i] in ls;
      }
    }
  }

  lemma {:induction false} SameQuantity(a: seq<Money.Entry>, b: seq<Money.Entry>)
    requires |a| == |b| && forall i :: 0 <= i < |a| ==> a[i].quantity == b[i].quantity
    ensures Money.Quantity(a) == Money.Quantity(b)
  {
    if a != [] {
      SameQuantity(a[..|a| - 1], b[..|b| - 1]);
    }
  }

  ghost predicate CloseTotal(o: Order) {
    Money.Near(o.total, Money.Total(EntriesOf(o.lines)), Money.HalfCents(1 + Money.Quantity(EntriesOf(o.lines))))
  }

  ghost predicate CloseTotals(w: World) {
    forall id: nat :: id < |w.orders| ==> CloseTotal(w.orders[id])
  }

  /** The order a checkout adds: when its items fail to be written, its total stays without them. */
  function AddedOrder(w: World, request: OrderRequest, save: SaveFault): Order
    requires request.lines != [] && Repriced(w.shop.catalog, request.lines).Ok?
  {
    var order := Stored(NewOrder(request, Repriced(w.shop.catalog, request.lines).value, w.shop.now));
    if save.ItemRowsFail? then order.(lines := []) else order
  }

  lemma PersistAddsOrder(w: World, request: OrderRequest, ls: seq<Line>, save: SaveFault)
    requires ls != [] && !save.OrderRowFails?
    ensures var order := Stored(NewOrder(request, ls, w.shop.now));
            Persist(w, request, ls, save).world.orders == w.orders + [if save.ItemRowsFail? then order.(lines := []) else order]
  {
  }

  lemma CheckoutAddsOrder(w: World, request: OrderRequest, faults: Faults)
    requires Creates(w, request, faults)
    ensures AfterKeyCheck(w, request, faults).world.orders == w.orders + [AddedOrder(w, request, faults.save)]
  {
    var ls := Repriced(w.shop.catalog, request.lines).value;
    PersistAddsOrder(AfterReserving(w, ls, faults.reserve), request, ls, faults.save);
  }

  /** A checkout whose items fail to be written adds an order only for a total that rounds to nothing. */
  predicate ItemizedCheckout(w: World, request: OrderRequest, faults: Faults) {
    Creates(w, request, faults) && faults.save.ItemRowsFail? ==>
      Money.Round2(Money.Total(EntriesOf(Repriced(w.shop.catalog, request.lines).value))) == 0.0
  }

  /** The rounding bound holds for the order that a checkout adds exactly when its items were written or its total is nothing. */
  lemma AddedTotalExactly(w: World, request: OrderRequest, faults: Faults)
    requires Creates(w, request, faults) && forall l :: l in request.lines ==> l.quantity > 0
    ensures CloseTotal(AddedOrder(w, request, faults.save)) <==> ItemizedCheckout(w, request, faults)
  {
    var ls, order := Repriced(w.shop.catalog, request.lines).value, AddedOrder(w, request, faults.save);
    RepricedQuantities(w.shop.catalog, request.lines);
    StoredTotalIsClose(request, ls, w.shop.now);
    if faults.save.ItemRowsFail? {
      assert EntriesOf(order.lines) == [];
      Money.SmallestTotal(Money.Total(EntriesOf(ls)));
    }
  }

  /** Such an order: one unit at 5.00 whose item row fails leaves a stored total of 5.00 over no items. */
  lemma UnitemizedTotalIsOff()
    ensures var item := StoreItem("p", true, "Beans", [], [], [BasePrice(Regular, 5.0, None)]);
            var line := Line("p", None, Display("Beans", None, None), 1, 0.0, UAH, Regular);
            var w := Opening(Shop.Opening(0, map["p" := Replied(item)]), map[]);
            var c := CreateOrder(w, OrderRequest("u", [line], None, None), Faults(NO_RESERVE_FAULTS, ItemRowsFail));
            && c.reply == Err(Internal) && |c.world.orders| == 1
            && c.world.orders[0].total == 5.0 && c.world.orders[0].lines == [] && !CloseTotal(c.world.orders[0])
  {
    var item := StoreItem("p", true, "Beans", [], [], [BasePrice(Regular, 5.0, None)]);
    var line := Line("p", None, Display("Beans", None, None), 1, 0.0, UAH, Regular);
    var w := Opening(Shop.Opening(0, map["p" := Replied(item)]), map[]);
    var request, faults := OrderRequest("u", [line], None, None), Faults(NO_RESERVE_FAULTS, ItemRowsFail);
    var priced := [line.(unitPrice := 5.0)];
    assert FindPrice(item.prices, Regular) == Some(item.prices[0]);
    assert FindPrice(item.prices, Discount) == None;
    assert FetchServerPrice(w.shop.catalog, "p", None) == Ok(5.0);
    assert [line][1..] == [] && priced + [] == priced;
    assert Repriced(w.shop.catalog, []) == Ok([]);
    assert Repriced(w.shop.catalog, [line]) == Ok(priced);
    assert ReserveFrom(w.counters, ParcelsOf(priced), 1, [], NO_RESERVE_FAULTS).outcome.Reserved?;
    assert Reserve(w.counters, ParcelsOf(priced), NO_RESERVE_FAULTS).outcome.Reserved?;
    CheckoutAddsOrder(w, request, faults);
    AddedTotalExactly(w, request, faults);
    var es := EntriesOf(priced);
    assert es == [Money.Entry(5.0, 1)] && es[..0] == [];
    assert Money.Total(es) == 5.0 && Money.Round2(5.0) == 5.0;
  }

  // ---- Stored totals over runs ----

  predicate Itemized(s: Split, step: SplitStep) {
    match step
    case Whole(Place(request, faults)) => Replay(s.world, request.key).None? ==> ItemizedCheckout(s.world, request, faults)
    case Late(request, faults) => ItemizedCheckout(s.world, request, faults)
    case _ => true
  }

  ghost predicate AllItemized(s: Split, steps: seq<SplitStep>)
    decreases |steps|
  {
    steps == [] || (Itemized(s, steps[0]) && AllItemized(SplitDo(s, steps[0]), steps[1..]))
  }

  /** No order is ever dropped, and lines and totals never change once written. */
  ghost predicate SameAmounts(a: seq<Order>, b: seq<Order>) {
    |a| <= |b| && forall id: nat :: id < |a| ==> a[id].lines == b[id].lines && a[id].total == b[id].total
  }

  lemma CheckoutTotals(w: World, w': World, request: OrderRequest, faults: Faults)
    requires forall l :: l in request.lines ==> l.quantity > 0
    requires request.lines != [] && w'.orders == AfterKeyCheck(w, request, faults).world.orders
    ensures SameAmounts(w.orders, w'.orders)
    ensures CloseTotals(w) ==> (CloseTotals(w') <==> ItemizedCheckout(w, request, faults))
  {
    if Creates(w, request, faults) {
      CheckoutAddsOrder(w, request, faults);
      AddedTotalExactly(w, request, faults);
      assert w'.orders[|w.orders|] == AddedOrder(w, request, faults.save);
    } else {
      CheckoutAddsNothing(w, request, faults);
    }
  }

  lemma CheckoutAddsNothing(w: World, request: OrderRequest, faults: Faults)
    requires request.lines != [] && !Creates(w, request, faults)
    ensures AfterKeyCheck(w, request, faults).world.orders == w.orders
  {
  }

  lemma SameAmountsSameTotals(w: World, w': World)
    requires SameAmounts(w.orders, w'.orders)
    ensures CloseTotals(w') ==> CloseTotals(w)
    ensures |w.orders| == |w'.orders| ==> (CloseTotals(w) ==> CloseTotals(w'))
  {
    forall id: nat | id < |w.orders| ensures CloseTotal(w.orders[id]) <==> CloseTotal(w'.orders[id]) {
    }
  }

  lemma StepKeepsTotals(s: Split, step: SplitStep)
    requires PositiveRequests(step)
    ensures SameAmounts(s.world.orders, SplitDo(s, step).world.orders)
    ensures CloseTotals(s.world) ==> (CloseTotals(SplitDo(s, step).world) <==> Itemized(s, step))
  {
    var w, w' := s.world, SplitDo(s, step).world;
    match step
    case Whole(Place(request, faults)) =>
      if request.lines != [] && Replay(w, request.key).None? {
        CheckoutTotals(w, w', request, faults);
      }
    case Late(request, faults) =>
      if request.lines != [] {
        CheckoutTotals(w, w', request, faults);
      }
    case _ => SameAmountsSameTotals(w, w');
  }

  lemma {:induction false} TotalsNeverHeal(s: Split, steps: seq<SplitStep>)
    requires CloseTotals(SplitRun(s, steps).world) && forall step :: step in steps ==> PositiveRequests(step)
    ensures CloseTotals(s.world)
    decreases |steps|
  {
    if steps != [] {
      assert steps[0] in steps;
      assert forall step :: step in steps[1..] ==> step in steps;
      TotalsNeverHeal(SplitDo(s, steps[0]), steps[1..]);
      StepKeepsTotals(s, steps[0]);
      SameAmountsSameTotals(s.world, SplitDo(s, steps[0]).world);
    }
  }

  /**
   However handlers interleave and whatever fails: every stored total stays within its rounding bound if and only if no
   checkout whose total does not round to nothing adds an order while its items fail to be written.
   */
  lemma {:induction false} TotalsStayClose(s: Split, steps: seq<SplitStep>)
    requires CloseTotals(s.world) && forall step :: step in steps ==> PositiveRequests(step)
    ensures CloseTotals(SplitRun(s, steps).world) <==> AllItemized(s, steps)
    decreases |steps|
  {
    if steps != [] {
      var s' := SplitDo(s, steps[0]);
      assert steps[0] in steps;
      assert forall step :: step in steps[1..] ==> step in steps;
      StepKeepsTotals(s, steps[0]);
      if Itemized(s, steps[0]) {
        TotalsStayClose(s', steps[1..]);
      } else if CloseTotals(SplitRun(s', steps[1..]).world) {
        TotalsNeverHeal(s', steps[1..]);
      }
    }
  }

  /** The same for every run of the system from its opening. */
  lemma ReachableTotalsStayClose(shop: Shop.Shop, counters: Counters, steps: seq<SplitStep>)
    requires forall step :: step in steps ==> PositiveRequests(step)
    ensures CloseTotals(Reached(shop, counters, steps).world) <==> AllItemized(Split(Opening(shop, counters), []), steps)
  {
    TotalsStayClose(Split(Opening(shop, counters), []), steps);
  }

  // ---- All or nothing ----

  ghost predicate NoFaults(faults: Faults) {
    Faultless(faults.reserve) && faults.save.AllSaved?
  }

  /**
   Without failures a new checkout succeeds exactly when it has lines, every line has a server price and for every
   tracked key the summed demand fits the stock. Then the stock drops by exactly that demand and the order joins
   the table; otherwise nothing in the whole system changes.
   */
  lemma CheckoutAllOrNothing(w: World, request: OrderRequest, faults: Faults)
    requires NoFaults(faults) && NonNegative(w.counters) && Replay(w, request.key).None?
    requires forall l :: l in request.lines ==> l.quantity > 0
    ensures var c, demand := CreateOrder(w, request, faults), ParcelsOf(request.lines);
            && (c.reply.Ok? <==> request.lines != [] && Repriced(w.shop.catalog, request.lines).Ok? && Fits(w.counters, demand))
            && (c.reply.Err? ==> c.world == w)
            && (c.reply.Ok? ==>
                  && c.world.counters == Lowered(w.counters, demand)
                  && |c.world.orders| == |w.orders| + 1
                  && ParcelsOf(c.world.orders[|w.orders|].lines) == demand
                  && c.reply.value.id == |w.orders|)
  {
    if request.lines != [] {
      var priced := Repriced(w.shop.catalog, request.lines);
      if priced.Ok? {
        RepricedQuantities(w.shop.catalog, request.lines);
        var ps := ParcelsOf(priced.value);
        DemandNonNegative(priced.value);
        ReserveAllOrNothing(w.counters, ps, faults.reserve);
        assert w.lost + [] == w.lost;
        if Fits(w.counters, ps) {
          PersistedOrder(AfterReserving(w, priced.value, faults.reserve), request, priced.value);
        } else {
          assert AfterReserving(w, priced.value, faults.reserve) == w;
        }
      }
    }
  }

  lemma PersistedOrder(w: World, request: OrderRequest, ls: seq<Line>)
    requires ls != []
    ensures var c := Persist(w, request, ls, AllSaved);
            && c.reply.Ok? && c.reply.value.id == |w.orders| && c.world.counters == w.counters
            && |c.world.orders| == |w.orders| + 1 && ParcelsOf(c.world.orders[|w.orders|].lines) == ParcelsOf(ls)
  {
    ParcelsOfStored(request, ls, w.shop.now);
  }

  /**
   The order is a snapshot of the request at server prices: line by line the requested product, variant, display and
   quantity, the server's price rounded to cents, and a definite currency and price type.
   */
  ghost predicate IsSnapshot(o: Order, request: OrderRequest, catalog: Catalog)
    requires request.lines != []
  {
    && |o.lines| == |request.lines|
    && o.currency == (if request.lines[0].currency == Unspecified then UAH else request.lines[0].currency)
    && forall i: nat :: i < |request.lines| ==>
         var asked, kept := request.lines[i], o.lines[i];
         && (kept.productId, kept.variantId, kept.display, kept.quantity)
            == (asked.productId, asked.variantId, asked.display, asked.quantity)
         && FetchServerPrice(catalog, asked.productId, asked.variantId).Ok?
         && kept.unitPrice == Money.Round2(FetchServerPrice(catalog, asked.productId, asked.variantId).value)
         && kept.currency == (if asked.currency == Unspecified then UAH else asked.currency)
         && kept.priceType == (if asked.priceType == UnspecifiedPrice then Regular else asked.priceType)
  }

  lemma StoredIsSnapshot(request: OrderRequest, catalog: Catalog, now: int)
    requires request.lines != [] && Repriced(catalog, request.lines).Ok?
    ensures IsSnapshot(Stored(NewOrder(request, Repriced(catalog, request.lines).value, now)), request, catalog)
  {
    RepricedLines(catalog, request.lines);
  }

  lemma AnsweredAllSaved(w: World, request: OrderRequest, faults: Faults)
    requires Replay(w, request.key).None? && CreateOrder(w, request, faults).reply.Ok?
    ensures Creates(w, request, faults) && !faults.save.ItemRowsFail?
    ensures CreateOrder(w, request, faults) == AfterKeyCheck(w, request, faults)
  {
  }

  /** An answered new checkout adds exactly one order, and that is the customer's pending snapshot of the request. */
  lemma SnapshotOfRequest(w: World, request: OrderRequest, faults: Faults)
    requires Replay(w, request.key).None? && CreateOrder(w, request, faults).reply.Ok?
    ensures var orders := CreateOrder(w, request, faults).world.orders;
            && |orders| == |w.orders| + 1 && orders[..|w.orders|] == w.orders
            && var o := orders[|w.orders|];
               && IsSnapshot(o, request, w.shop.catalog)
               && o.userId == request.userId && o.notes == request.notes && o.status == Pending && o.createdAt == w.shop.now
  {
    AnsweredAllSaved(w, request, faults);
    CheckoutAddsOrder(w, request, faults);
    StoredIsSnapshot(request, w.shop.catalog, w.shop.now);
  }

  // ---- Orders acting on the cart ----

  /** A checkout leaves carts, wishlists and jobs alone or clears exactly the customer's cart and reminders. */
  lemma CheckoutClearsCart(w: World, request: OrderRequest, faults: Faults)
    ensures var c := CreateOrder(w, request, faults);
            && (c.world.shop == w.shop || c.world.shop == Shop.ClearCart(w.shop, request.userId))
            && (c.reply.Ok? && Replay(w, request.key).None? ==> c.world.shop == Shop.ClearCart(w.shop, request.userId))
  {
    if request.lines != [] && Replay(w, request.key).None? {
      var priced := Repriced(w.shop.catalog, request.lines);
      if priced.Ok? {
        PersistClearsCart(AfterReserving(w, priced.value, faults.reserve), request, priced.value, faults.save);
      }
    }
  }

  lemma PersistClearsCart(w: World, request: OrderRequest, ls: seq<Line>, save: SaveFault)
    requires ls != []
    ensures var c := Persist(w, request, ls, save);
            && (c.world.shop == w.shop || c.world.shop == Shop.ClearCart(w.shop, request.userId))
            && (c.reply.Ok? ==> c.world.shop == Shop.ClearCart(w.shop, request.userId))
  {
  }

  lemma OrderStepKeepsShopGood(w: World, step: Step)
    requires ShopRules.Good(w.shop)
    ensures ShopRules.Good(Do(w, step).shop)
  {
    match step
    case Place(request, faults) =>
      CheckoutClearsCart(w, request, faults);
      ShopRules.StepKeepsGood(w.shop, Shop.DoClearCart(request.userId));
    case On(call) =>
      if Decide(w, call).Proceed? {
        assert Commit(w, Decide(w, call).ticket).shop == w.shop;
      }
    case Return(_, _) =>
    case Shopping(s) => ShopRules.StepKeepsGood(w.shop, s);
  }

  /** The cart, wishlist and job invariant also holds through every run of both components together. */
  lemma {:induction false} RunKeepsShopGood(w: World, steps: seq<Step>)
    requires ShopRules.Good(w.shop)
    ensures ShopRules.Good(Run(w, steps).shop)
    decreases |steps|
  {
    if steps != [] {
      OrderStepKeepsShopGood(w, steps[0]);
      RunKeepsShopGood(Do(w, steps[0]), steps[1..]);
    }
  }

  /** A newly answered order leaves its customer with an empty cart and no pending reminder. */
  lemma OrderSettlesCart(w: World, request: OrderRequest, faults: Faults)
    requires ShopRules.Good(w.shop) && Replay(w, request.key).None? && CreateOrder(w, request, faults).reply.Ok?
    ensures var s := CreateOrder(w, request, faults).world.shop;
            Shop.Hgetall(s.redis, Shop.CartKey(request.userId)) == map[] && ShopRules.NoReminders(s, request.userId)
  {
    CheckoutClearsCart(w, request, faults);
    ShopRules.CartHandlersSettle(w.shop, request.userId, Shop.DoClearCart(request.userId));
  }
}
