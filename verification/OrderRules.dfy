/**
 What each order handler does, written out: when it succeeds, the error it gives otherwise, the order it answers with,
 and everything it writes.
 */
module OrderRules {
  import opened Base
  import opened Pricing
  import opened Stock
  import opened Orders
  import opened OrderViews
  import opened Accounting
  import opened Lifecycle
  import opened Checkout
  import Money
  import Shop

  // ---- Stock keys ----

  /** The units that order lines ask for of one item and variant; an empty variant id is none. */
  function Demand(ls: seq<Line>, itemId: string, variantId: Option<string>): int {
    if ls == [] then 0
    else
      var last := ls[|ls| - 1];
      var asked := last.productId == itemId && (if last.variantId == Some("") then None else last.variantId) == variantId;
      Demand(ls[..|ls| - 1], itemId, variantId) + if asked then last.quantity else 0
  }

  lemma {:induction false} DemandIsCarried(ls: seq<Line>, itemId: string, variantId: Option<string>)
    ensures Carried(ParcelsOf(ls), Key(itemId, variantId)) == Demand(ls, itemId, variantId)
  {
    if ls != [] {
      var n := |ls| - 1;
      DemandIsCarried(ls[..n], itemId, variantId);
      assert ParcelsOf(ls)[..n] == ParcelsOf(ls[..n]);
    }
  }

  /** Every tracked item and variant has stock for what the lines ask for. */
  ghost predicate InStock(c: Counters, ls: seq<Line>) {
    forall itemId, variantId :: Key(itemId, variantId) in c ==> Demand(ls, itemId, variantId) <= c[Key(itemId, variantId)]
  }

  lemma FitsIsInStock(c: Counters, ls: seq<Line>)
    ensures Fits(c, ParcelsOf(ls)) <==> InStock(c, ls)
  {
    forall itemId, variantId ensures Carried(ParcelsOf(ls), Key(itemId, variantId)) == Demand(ls, itemId, variantId) {
      DemandIsCarried(ls, itemId, variantId);
    }
    if InStock(c, ls) {
      forall key | key in c ensures Carried(ParcelsOf(ls), key) <= c[key] {
        assert key == Key(key.itemId, key.variantId);
      }
    }
  }

  // ---- createOrder ----

  ghost predicate AllPriced(catalog: Catalog, ls: seq<Line>) {
    forall l :: l in ls ==> FetchServerPrice(catalog, l.productId, l.variantId).Ok?
  }

  /** Lines can be priced exactly when each of them can. */
  lemma {:induction false} RepricedExactly(catalog: Catalog, ls: seq<Line>)
    ensures Repriced(catalog, ls).Ok? <==> AllPriced(catalog, ls)
    decreases |ls|
  {
    if ls != [] {
      RepricedExactly(catalog, ls[1..]);
      assert ls == [ls[0]] + ls[1..];
    }
  }

  /** Otherwise the first line without a price decides the error. */
  lemma {:induction false} FirstUnpriced(catalog: Catalog, ls: seq<Line>, i: nat)
    requires i < |ls| && FetchServerPrice(catalog, ls[i].productId, ls[i].variantId).Err?
    requires forall j :: 0 <= j < i ==> FetchServerPrice(catalog, ls[j].productId, ls[j].variantId).Ok?
    ensures Repriced(catalog, ls) == Err(FetchServerPrice(catalog, ls[i].productId, ls[i].variantId).error)
    decreases i
  {
    if i > 0 {
      assert forall j :: 0 <= j < i - 1 ==> ls[1..][j] == ls[j + 1];
      FirstUnpriced(catalog, ls[1..], i - 1);
    }
  }

  /** A line without a price is a failed precondition, unless the store failed in another way than not knowing the item. */
  lemma ServerPriceErrors(catalog: Catalog, productId: string, variantId: Option<string>)
    ensures var price, fetch := FetchServerPrice(catalog, productId, variantId), Lookup(catalog, productId);
            && (price == Err(Internal) <==> fetch.Refused? && fetch.code != 5)
            && (price.Err? && price.error != Internal ==> price.error == PreconditionFailed)
  {
  }

  /** The key's answer is still remembered. */
  predicate Remembered(w: World, key: Option<string>) {
    key.Some? && key.value != "" && key.value in w.cache && w.shop.now < w.cache[key.value].deadline
  }

  /** The save fault stops the checkout after its reservation. */
  predicate SaveFails(request: OrderRequest, save: SaveFault) {
    || save in {OrderRowFails, ItemRowsFail, HistoryRowFails, CartClearFails}
    || (save == CacheFails && request.key.Some? && request.key.value != "")
  }

  /** The reply of a checkout: each error, and the answer, by its own condition. */
  lemma CheckoutReplies(w: World, request: OrderRequest, faults: Faults)
    ensures var r, key := CreateOrder(w, request, faults).reply, request.key;
            && (request.lines == [] <==> r == Err(BadRequest))
            && (request.lines != [] && Remembered(w, key) ==>
                  r == if w.cache[key.value].userId == request.userId then Ok(w.cache[key.value].response) else Err(Forbidden))
            && (request.lines != [] && !Remembered(w, key) ==>
                  && r != Err(Forbidden)
                  && (!AllPriced(w.shop.catalog, request.lines) ==> r == Err(PreconditionFailed) || r == Err(Internal))
                  && (AllPriced(w.shop.catalog, request.lines) ==>
                        match Reserve(w.counters, ParcelsOf(request.lines), faults.reserve).outcome
                        case Short => r == Err(PreconditionFailed)
                        case Broken => r == Err(Internal)
                        case Reserved => if SaveFails(request, faults.save) then r == Err(Internal) else r.Ok?))
  {
    RepricedExactly(w.shop.catalog, request.lines);
    UnpricedErrors(w.shop.catalog, request.lines);
    if AllPriced(w.shop.catalog, request.lines) {
      SameParcels(w.shop.catalog, request.lines);
    }
    assert Remembered(w, request.key) <==> Replay(w, request.key).Some?;
  }

  lemma {:induction false} UnpricedErrors(catalog: Catalog, ls: seq<Line>)
    ensures Repriced(catalog, ls).Err? ==> Repriced(catalog, ls).error in {PreconditionFailed, Internal}
    decreases |ls|
  {
    if ls != [] {
      ServerPriceErrors(catalog, ls[0].productId, ls[0].variantId);
      UnpricedErrors(catalog, ls[1..]);
    }
  }

  lemma SameParcels(catalog: Catalog, ls: seq<Line>)
    requires Repriced(catalog, ls).Ok?
    ensures ParcelsOf(Repriced(catalog, ls).value) == ParcelsOf(ls)
  {
    RepricedLines(catalog, ls);
  }

  /**
   Without failures a new checkout is answered exactly when it has lines, every line has a server price and each tracked
   item and variant has stock for the units asked of it. Each counter then falls by exactly those units; a shortage
   is a failed precondition, and any error leaves everything as it was.
   */
  lemma CheckoutTakesDemand(w: World, request: OrderRequest, faults: Faults)
    requires NoFaults(faults) && NonNegative(w.counters) && !Remembered(w, request.key)
    requires forall l :: l in request.lines ==> l.quantity > 0
    ensures var c := CreateOrder(w, request, faults);
            && (c.reply.Ok? <==>
                  request.lines != [] && AllPriced(w.shop.catalog, request.lines) && InStock(w.counters, request.lines))
            && (c.reply.Ok? ==>
                  && c.world.counters.Keys == w.counters.Keys
                  && forall itemId, variantId :: Key(itemId, variantId) in w.counters ==>
                       c.world.counters[Key(itemId, variantId)]
                       == w.counters[Key(itemId, variantId)] - Demand(request.lines, itemId, variantId))
            && (request.lines != [] && AllPriced(w.shop.catalog, request.lines) && !InStock(w.counters, request.lines) ==>
                  c.reply == Err(PreconditionFailed))
            && (c.reply.Err? ==> c.world == w)
  {
    RepricedExactly(w.shop.catalog, request.lines);
    CheckoutAllOrNothing(w, request, faults);
    FitsIsInStock(w.counters, request.lines);
    forall itemId, variantId
      ensures Carried(ParcelsOf(request.lines), Key(itemId, variantId)) == Demand(request.lines, itemId, variantId)
    {
      DemandIsCarried(request.lines, itemId, variantId);
    }
    if request.lines != [] && AllPriced(w.shop.catalog, request.lines) && !InStock(w.counters, request.lines) {
      ShortageReply(w, request, faults);
    }
  }

  lemma ShortageReply(w: World, request: OrderRequest, faults: Faults)
    requires NoFaults(faults) && NonNegative(w.counters) && !Remembered(w, request.key)
    requires forall l :: l in request.lines ==> l.quantity > 0
    requires request.lines != [] && AllPriced(w.shop.catalog, request.lines) && !InStock(w.counters, request.lines)
    ensures CreateOrder(w, request, faults).reply == Err(PreconditionFailed)
  {
    FitsIsInStock(w.counters, request.lines);
    DemandNonNegative(request.lines);
    ReserveAllOrNothing(w.counters, ParcelsOf(request.lines), faults.reserve);
    CheckoutReplies(w, request, faults);
  }

  /** An answered new checkout writes one order, its first row, its cache entry and its mail, and answers with that order. */
  lemma CheckoutWrites(w: World, request: OrderRequest, faults: Faults)
    requires !Remembered(w, request.key) && CreateOrder(w, request, faults).reply.Ok?
    ensures var c, id := CreateOrder(w, request, faults), |w.orders|;
            var answer := c.reply.value;
            && answer.id == id && |c.world.orders| == id + 1 && c.world.orders[..id] == w.orders
            && c.world.log == w.log + [Row(id, None, Pending, request.userId, None, w.shop.now)]
            && c.world.mail == w.mail + [Confirmation(request.userId, id)]
            && c.world.cache == (if request.key.Some? && request.key.value != ""
                                 then w.cache[request.key.value := Cached(request.userId, answer, w.shop.now + 24 * 3600 * 1000)]
                                 else w.cache)
            && c.world.inflight == w.inflight && c.world.returned == w.returned
            && SameUpToCents(answer.order, c.world.orders[id])
  {
    AnsweredAllSaved(w, request, faults);
    var ls := Repriced(w.shop.catalog, request.lines).value;
    PersistWrites(AfterReserving(w, ls, faults.reserve), request, ls, faults.save);
  }

  /** The same order, but for prices and total rounded to cents. */
  ghost predicate SameUpToCents(answered: Order, stored: Order) {
    && stored == answered.(total := stored.total, lines := stored.lines)
    && stored.total == Money.Round2(answered.total)
    && |stored.lines| == |answered.lines|
    && forall i :: 0 <= i < |stored.lines| ==>
         stored.lines[i] == answered.lines[i].(unitPrice := Money.Round2(answered.lines[i].unitPrice))
  }

  lemma PersistWrites(w: World, request: OrderRequest, ls: seq<Line>, save: SaveFault)
    requires ls != [] && Persist(w, request, ls, save).reply.Ok?
    ensures var c, id := Persist(w, request, ls, save), |w.orders|;
            && c.reply.value.id == id
            && c.world.orders == w.orders + [Stored(c.reply.value.order)]
            && c.world.log == w.log + [Row(id, None, Pending, request.userId, None, w.shop.now)]
            && c.world.mail == w.mail + [Confirmation(request.userId, id)]
            && c.world.cache == (if request.key.Some? && request.key.value != ""
                                 then w.cache[request.key.value := Cached(request.userId, c.reply.value, w.shop.now + 24 * 3600 * 1000)]
                                 else w.cache)
            && c.world.inflight == w.inflight && c.world.returned == w.returned
  {
  }

  /** What a failing write leaves behind: nothing after it, and everything before it. */
  lemma FailedWriteLeaves(w: World, request: OrderRequest, faults: Faults)
    requires !Remembered(w, request.key) && request.lines != [] && AllPriced(w.shop.catalog, request.lines)
    requires Reserve(w.counters, ParcelsOf(request.lines), faults.reserve).outcome.Reserved?
    requires SaveFails(request, faults.save)
    ensures var c, id := CreateOrder(w, request, faults), |w.orders|;
            && c.reply == Err(Internal)
            && c.world.mail == w.mail && c.world.cache == w.cache
            && |c.world.orders| == id + (if faults.save == OrderRowFails then 0 else 1)
            && (faults.save != OrderRowFails ==>
                  (c.world.orders[id].lines == [] <==> faults.save == ItemRowsFail))
            && c.world.log == (if faults.save in {CartClearFails, CacheFails}
                               then w.log + [Row(id, None, Pending, request.userId, None, w.shop.now)] else w.log)
            && c.world.shop == (if faults.save == CacheFails then Shop.ClearCart(w.shop, request.userId) else w.shop)
  {
    RepricedExactly(w.shop.catalog, request.lines);
    SameParcels(w.shop.catalog, request.lines);
    var ls := Repriced(w.shop.catalog, request.lines).value;
    FailedPersist(AfterReserving(w, ls, faults.reserve), request, ls, faults.save);
  }

  lemma FailedPersist(w: World, request: OrderRequest, ls: seq<Line>, save: SaveFault)
    requires ls != [] && SaveFails(request, save)
    ensures var c, id := Persist(w, request, ls, save), |w.orders|;
            && c.reply == Err(Internal)
            && c.world.mail == w.mail && c.world.cache == w.cache
            && |c.world.orders| == id + (if save == OrderRowFails then 0 else 1)
            && (save != OrderRowFails ==> (c.world.orders[id].lines == [] <==> save == ItemRowsFail))
            && c.world.log == (if save in {CartClearFails, CacheFails}
                               then w.log + [Row(id, None, Pending, request.userId, None, w.shop.now)] else w.log)
            && c.world.shop == (if save == CacheFails then Shop.ClearCart(w.shop, request.userId) else w.shop)
  {
  }

  // ---- Status handlers ----

  /** What a handler answers, given whether its transaction goes through. */
  function ReplyOf(w: World, call: Call, commits: bool): Result<Response> {
    match Decide(w, call)
    case Reject(e) => Err(e)
    case Skip => Err(NotFound)
    case Proceed(t) => if commits then Ok(Response(t.id, w.orders[t.id].(status := t.to))) else Err(Internal)
  }

  /** The state a handler leaves: a failed transaction changes nothing. */
  function AfterCall(w: World, call: Call, commits: bool): World {
    if commits then Handle(w, call) else w
  }

  /** One return message per line, in order, each for that line's item, variant and quantity. */
  ghost predicate SentBack(before: seq<Parcel>, after: seq<Parcel>, ls: seq<Line>) {
    && |after| == |before| + |ls| && after[..|before|] == before
    && forall i :: 0 <= i < |ls| ==>
         var p := after[|before| + i];
         && p.key.itemId == ls[i].productId
         && p.key.variantId == (if ls[i].variantId == Some("") then None else ls[i].variantId)
         && p.quantity == ls[i].quantity
  }

  /** The status and one row are written; nothing else changes but mail, returns and what is on its way back. */
  ghost predicate Moves(w: World, w': World, id: nat, from: Status, to: Status, changedBy: string, notes: Option<string>)
    requires id < |w.orders|
  {
    && w'.orders == w.orders[id := w.orders[id].(status := to)]
    && w'.log == w.log + [Row(id, Some(from), to, changedBy, notes, w.shop.now)]
    && w' == w.(orders := w'.orders, log := w'.log, mail := w'.mail, inflight := w'.inflight, returned := w'.returned)
  }

  /** The owner is mailed, and the stock is handed back once. */
  ghost predicate MailsAndReturns(w: World, w': World, id: nat, to: Status)
    requires id < |w.orders|
  {
    && w'.mail == w.mail + [StatusUpdate(w.orders[id].userId, id, to)]
    && w'.returned == w.returned + [id]
    && SentBack(w.inflight, w'.inflight, w.orders[id].lines)
  }

  /** A cancellation by a user: each reply by its own condition, and all it does. */
  lemma CancelExactly(w: World, id: nat, userId: string, commits: bool)
    ensures var r, w' := ReplyOf(w, UserCancel(id, userId), commits), AfterCall(w, UserCancel(id, userId), commits);
            var found := id < |w.orders|;
            var owned := found && w.orders[id].userId == userId;
            && (r == Err(NotFound) <==> !found)
            && (r == Err(Forbidden) <==> found && !owned)
            && (r == Err(PreconditionFailed) <==> owned && w.orders[id].status != Pending)
            && (r == Err(Internal) <==> owned && w.orders[id].status == Pending && !commits)
            && (r.Ok? <==> owned && w.orders[id].status == Pending && commits)
            && (r.Ok? ==>
                  && r.value == Response(id, w'.orders[id]) && w'.orders[id].status == Cancelled
                  && Moves(w, w', id, Pending, Cancelled, userId, None) && MailsAndReturns(w, w', id, Cancelled))
            && (r.Err? ==> w' == w)
  {
  }

  /** A delivery row of the order is at most thirty days old. */
  ghost predicate RecentlyDelivered(w: World, id: nat) {
    exists r :: r in w.log && r.orderId == id && r.to == Delivered && w.shop.now - r.changedAt <= 30 * 24 * 3600 * 1000
  }

  ghost predicate EverDelivered(w: World, id: nat) {
    exists r :: r in w.log && r.orderId == id && r.to == Delivered
  }

  lemma WindowExactly(w: World, id: nat)
    ensures DeliveredAt(w.log, id).Some? <==> EverDelivered(w, id)
    ensures RecentlyDelivered(w, id) <==>
            DeliveredAt(w.log, id).Some? && w.shop.now - DeliveredAt(w.log, id).value <= 30 * 24 * 3600 * 1000
  {
    DeliveredAtIsARow(w.log, id);
    var at := DeliveredAt(w.log, id);
    if at.Some? {
      var r :| r in w.log && IsDelivery(r, id) && r.changedAt == at.value;
      assert EverDelivered(w, id);
    }
    if EverDelivered(w, id) {
      var r :| r in w.log && r.orderId == id && r.to == Delivered;
      assert IsDelivery(r, id);
    }
    if RecentlyDelivered(w, id) {
      var r :| r in w.log && r.orderId == id && r.to == Delivered && w.shop.now - r.changedAt <= 30 * 24 * 3600 * 1000;
      assert IsDelivery(r, id);
    }
  }

  /** A refund: each reply by its own condition, and all it does. */
  lemma RefundReplies(w: World, id: nat, userId: string, reason: Option<string>, commits: bool)
    ensures var r, w' := ReplyOf(w, Refund(id, userId, reason), commits), AfterCall(w, Refund(id, userId, reason), commits);
            var found := id < |w.orders|;
            var owned := found && w.orders[id].userId == userId;
            var delivered := owned && w.orders[id].status == Delivered;
            && (r == Err(NotFound) <==> !found)
            && (r == Err(Forbidden) <==> found && !owned)
            && (r == Err(PreconditionFailed) <==>
                  owned && (w.orders[id].status != Delivered || (EverDelivered(w, id) && !RecentlyDelivered(w, id))))
            && (r == Err(Internal) <==> delivered && (!EverDelivered(w, id) || (RecentlyDelivered(w, id) && !commits)))
            && (r.Ok? <==> delivered && RecentlyDelivered(w, id) && commits)
            && (r.Ok? ==>
                  && r.value == Response(id, w'.orders[id]) && w'.orders[id].status == Refunded
                  && Moves(w, w', id, Delivered, Refunded, userId, reason) && MailsAndReturns(w, w', id, Refunded))
            && (r.Err? ==> w' == w)
  {
    WindowExactly(w, id);
  }

  /** An admin update: each reply by its own condition, and all it does; exactly four statuses are mailed. */
  lemma UpdateExactly(w: World, id: nat, status: Option<Status>, changedBy: string, notes: Option<string>, commits: bool)
    ensures var call := Update(id, status, changedBy, notes);
            var r, w' := ReplyOf(w, call, commits), AfterCall(w, call, commits);
            && (r == Err(NotFound) <==> id >= |w.orders|)
            && (r == Err(BadRequest) <==> id < |w.orders| && status == None)
            && (r == Err(Internal) <==> id < |w.orders| && status != None && !commits)
            && (r.Ok? <==> id < |w.orders| && status != None && commits)
            && (r.Ok? ==>
                  var to := status.value;
                  && r.value == Response(id, w'.orders[id]) && w'.orders[id].status == to
                  && Moves(w, w', id, w.orders[id].status, to, changedBy, notes)
                  && w'.inflight == w.inflight && w'.returned == w.returned
                  && w'.mail == w.mail + if to == Shipped || to == Delivered || to == Cancelled || to == Refunded
                                         then [StatusUpdate(w.orders[id].userId, id, to)] else [])
            && (r.Err? ==> w' == w)
  {
  }

  /** A payment confirmation acts exactly on a pending order whose transaction goes through. */
  lemma ConfirmExactly(w: World, id: nat, commits: bool)
    ensures var w' := AfterCall(w, Confirm(id), commits);
            if id < |w.orders| && w.orders[id].status == Pending && commits
            then && Moves(w, w', id, Pending, Confirmed, "payment-saga", None)
                 && w'.mail == w.mail && w'.inflight == w.inflight && w'.returned == w.returned
            else w' == w
  {
  }

  /** A failed payment does too, and hands the stock back. */
  lemma SagaCancelExactly(w: World, id: nat, reason: Option<string>, commits: bool)
    ensures var w' := AfterCall(w, SagaCancel(id, reason), commits);
            if id < |w.orders| && w.orders[id].status == Pending && commits
            then Moves(w, w', id, Pending, Cancelled, "payment-saga", reason) && MailsAndReturns(w, w', id, Cancelled)
            else w' == w
  {
  }

  /** A return message that arrives raises exactly its own tracked counter, and is off the wire either way. */
  lemma ArriveExactly(w: World, i: nat, arrives: bool)
    requires i < |w.inflight|
    ensures var w', p := Arrive(w, i, arrives), w.inflight[i];
            && w'.inflight == w.inflight[..i] + w.inflight[i + 1..]
            && w'.counters.Keys == w.counters.Keys
            && (forall key :: key in w.counters ==>
                  w'.counters[key] == w.counters[key] + if arrives && key == p.key then p.quantity else 0)
            && w'.lost == w.lost + (if arrives then [] else [p])
            && w' == w.(inflight := w'.inflight, counters := w'.counters, lost := w'.lost)
  {
  }

  /** An order's rows are exactly the log's rows with its id. */
  lemma {:induction false} RowsOfExactly(log: seq<Row>, id: nat, r: Row)
    ensures multiset(RowsOf(log, id))[r] == if r.orderId == id then multiset(log)[r] else 0
  {
    if log != [] {
      var n := |log| - 1;
      RowsOfExactly(log[..n], id, r);
      assert log == log[..n] + [log[n]];
    }
  }
}
