/**
 Orders, their audit log, remote stock, the idempotency cache and the outbox. A status handler is
 split in what it decides from the order it reads (`Decide`) and the transaction it then commits
 (`Commit`); run together they are the atomic handler.
 */
module Orders {
  import opened Base
  import opened Pricing
  import opened Stock
  import Money
  import Shop

  datatype Status = Pending | Confirmed | Processing | Shipped | Delivered | Cancelled | Refunded

  datatype Display = Display(title: string, variantName: Option<string>, imageUrl: Option<string>)

  datatype Line = Line(
    productId: string, variantId: Option<string>, display: Display, quantity: int, unitPrice: real,
    currency: Currency, priceType: PriceType)

  /** An order is known by its place in the sequence of all orders ever created. */
  datatype Order = Order(
    userId: string, status: Status, currency: Currency, total: real, notes: Option<string>,
    lines: seq<Line>, createdAt: int)

  datatype Row = Row(orderId: nat, from: Option<Status>, to: Status, changedBy: string, notes: Option<string>, changedAt: int)

  /** An order as a reply shows it. */
  datatype Response = Response(id: nat, order: Order)

  datatype Cached = Cached(userId: string, response: Response, deadline: int)

  datatype Mail = Confirmation(userId: string, orderId: nat) | StatusUpdate(userId: string, orderId: nat, status: Status)

  /** `lost` and `returned` only record history: parcels dropped by failed calls, orders whose stock was handed back. */
  datatype World = World(
    shop: Shop.Shop, counters: Counters, orders: seq<Order>, log: seq<Row>, inflight: seq<Parcel>,
    cache: map<string, Cached>, mail: seq<Mail>, lost: seq<Parcel>, returned: seq<nat>)

  // ---- createOrder ----

  datatype OrderRequest = OrderRequest(userId: string, lines: seq<Line>, notes: Option<string>, key: Option<string>)

  /** Which step after the reservation fails, if any. */
  datatype SaveFault = AllSaved | OrderRowFails | ItemRowsFail | HistoryRowFails | CartClearFails | CacheFails

  datatype Faults = Faults(reserve: ReserveFaults, save: SaveFault)

  const IDEMPOTENCY_TTL := 24 * HOUR

  function ParcelOf(l: Line): Parcel {
    Parcel(Key(l.productId, Norm(l.variantId)), l.quantity)
  }

  function ParcelsOf(ls: seq<Line>): seq<Parcel> {
    seq(|ls|, i requires 0 <= i < |ls| => ParcelOf(ls[i]))
  }

  function EntriesOf(ls: seq<Line>): seq<Money.Entry> {
    seq(|ls|, i requires 0 <= i < |ls| => Money.Entry(ls[i].unitPrice, ls[i].quantity))
  }

  function DbCurrency(c: Currency): Currency {
    if c.Unspecified? then UAH else c
  }

  function DbPriceType(p: PriceType): PriceType {
    if p.UnspecifiedPrice? then Regular else p
  }

  /** Every line at the server's price, or the error of the first line without one. */
  function Repriced(catalog: Catalog, ls: seq<Line>): (r: Result<seq<Line>>)
    ensures r.Ok? ==> |r.value| == |ls|
  {
    if ls == [] then Ok([])
    else
      match FetchServerPrice(catalog, ls[0].productId, ls[0].variantId)
      case Err(e) => Err(e)
      case Ok(price) =>
        match Repriced(catalog, ls[1..])
        case Err(e) => Err(e)
        case Ok(rest) => Ok([ls[0].(unitPrice := price)] + rest)
  }

  /** The order entity built from repriced lines. */
  function NewOrder(request: OrderRequest, ls: seq<Line>, now: int): Order
    requires ls != []
  {
    Order(request.userId, Pending, DbCurrency(ls[0].currency), Money.Total(EntriesOf(ls)), request.notes,
          seq(|ls|, i requires 0 <= i < |ls| =>
            ls[i].(currency := DbCurrency(ls[i].currency), priceType := DbPriceType(ls[i].priceType))),
          now)
  }

  /** What the decimal columns keep of it. */
  function Stored(o: Order): Order {
    o.(total := Money.Round2(o.total),
       lines := seq(|o.lines|, i requires 0 <= i < |o.lines| => o.lines[i].(unitPrice := Money.Round2(o.lines[i].unitPrice))))
  }

  datatype Created = Created(world: World, reply: Result<Response>)

  /** Everything after a successful reservation, up to the first failing step. */
  function Persist(w: World, request: OrderRequest, ls: seq<Line>, save: SaveFault): Created
    requires ls != []
  {
    var id, now, u := |w.orders|, w.shop.now, request.userId;
    var order := NewOrder(request, ls, now);
    var bare := w.(orders := w.orders + [Stored(order).(lines := [])], lost := w.lost + ParcelsOf(ls));
    var rows := w.(orders := w.orders + [Stored(order)]);
    var logged := rows.(log := rows.log + [Row(id, None, Pending, u, None, now)]);
    var cleared := logged.(shop := Shop.ClearCart(logged.shop, u));
    var cached := if !Present(request.key) then cleared
                  else cleared.(cache := cleared.cache[request.key.value := Cached(u, Response(id, order), now + IDEMPOTENCY_TTL)]);
    match save
    case OrderRowFails => Created(w.(lost := w.lost + ParcelsOf(ls)), Err(Internal))
    case ItemRowsFail => Created(bare, Err(Internal))
    case HistoryRowFails => Created(rows, Err(Internal))
    case CartClearFails => Created(logged, Err(Internal))
    case _ =>
      if save.CacheFails? && Present(request.key) then Created(cleared, Err(Internal))
      else Created(cached.(mail := cached.mail + [Confirmation(u, id)]), Ok(Response(id, order)))
  }

  /** The counters and losses after the reservation loop. */
  function AfterReserving(w: World, ls: seq<Line>, faults: ReserveFaults): World {
    var r := Reserve(w.counters, ParcelsOf(ls), faults);
    w.(counters := r.counters, lost := w.lost + r.lost)
  }

  function ReserveAndPersist(w: World, request: OrderRequest, ls: seq<Line>, faults: Faults): Created
    requires ls != []
  {
    var w' := AfterReserving(w, ls, faults.reserve);
    match Reserve(w.counters, ParcelsOf(ls), faults.reserve).outcome
    case Short => Created(w', Err(PreconditionFailed))
    case Broken => Created(w', Err(Internal))
    case Reserved => Persist(w', request, ls, faults.save)
  }

  /** The live cache entry of an idempotency key. */
  function Replay(w: World, key: Option<string>): Option<Cached> {
    if Present(key) && key.value in w.cache && w.shop.now < w.cache[key.value].deadline then Some(w.cache[key.value]) else None
  }

  /** What follows once the key has been looked up and found unknown. */
  function AfterKeyCheck(w: World, request: OrderRequest, faults: Faults): Created
    requires request.lines != []
  {
    match Repriced(w.shop.catalog, request.lines)
    case Err(e) => Created(w, Err(e))
    case Ok(ls) => ReserveAndPersist(w, request, ls, faults)
  }

  /** Past its key lookup a checkout gets as far as its order row. */
  predicate Creates(w: World, request: OrderRequest, faults: Faults) {
    && request.lines != []
    && var priced := Repriced(w.shop.catalog, request.lines);
    && priced.Ok?
    && Reserve(w.counters, ParcelsOf(priced.value), faults.reserve).outcome.Reserved?
    && !faults.save.OrderRowFails?
  }

  function CreateOrder(w: World, request: OrderRequest, faults: Faults): Created {
    if request.lines == [] then Created(w, Err(BadRequest))
    else
      match Replay(w, request.key)
      case Some(c) => Created(w, if c.userId != request.userId then Err(Forbidden) else Ok(c.response))
      case None => AfterKeyCheck(w, request, faults)
  }

  // ---- The audit log ----

  /** One order's rows, in the order they were written. */
  function RowsOf(log: seq<Row>, id: nat): seq<Row> {
    if log == [] then []
    else
      var last := log[|log| - 1];
      RowsOf(log[..|log| - 1], id) + if last.orderId == id then [last] else []
  }

  predicate IsDelivery(r: Row, id: nat) {
    r.orderId == id && r.to == Delivered
  }

  /** The time of an order's latest delivery row. */
  function DeliveredAt(log: seq<Row>, id: nat): Option<int> {
    if log == [] then None
    else
      var last, before := log[|log| - 1], DeliveredAt(log[..|log| - 1], id);
      if !IsDelivery(last, id) then before
      else if before.Some? && before.value > last.changedAt then before
      else Some(last.changedAt)
  }

  // ---- Status handlers ----

  datatype Call =
    | Confirm(id: nat)
    | SagaCancel(id: nat, reason: Option<string>)
    | UserCancel(id: nat, userId: string)
    | Refund(id: nat, userId: string, reason: Option<string>)
    | Update(id: nat, status: Option<Status>, changedBy: string, notes: Option<string>)

  /** The transaction a handler has decided on, with what follows it. */
  datatype Ticket = Ticket(id: nat, from: Status, to: Status, changedBy: string, notes: Option<string>, restock: bool, notify: bool)

  datatype Decision = Proceed(ticket: Ticket) | Skip | Reject(error: Error)

  const SAGA_ACTOR := "payment-saga"
  const REFUND_WINDOW := 30 * DAY

  predicate Notifiable(s: Status) {
    s in {Shipped, Delivered, Cancelled, Refunded}
  }

  function Cancellation(id: nat, changedBy: string, reason: Option<string>): Ticket {
    Ticket(id, Pending, Cancelled, changedBy, reason, true, true)
  }

  /** What a handler decides on the order it reads. */
  function Decide(w: World, call: Call): (d: Decision)
    ensures d.Proceed? ==> d.ticket.id == call.id < |w.orders|
  {
    if call.id >= |w.orders| then if call.Confirm? || call.SagaCancel? then Skip else Reject(NotFound)
    else
      var order := w.orders[call.id];
      match call
      case Confirm(id) =>
        if order.status != Pending then Skip
        else Proceed(Ticket(id, Pending, Confirmed, SAGA_ACTOR, None, false, false))
      case SagaCancel(id, reason) =>
        if order.status != Pending then Skip else Proceed(Cancellation(id, SAGA_ACTOR, reason))
      case UserCancel(id, userId) =>
        if order.userId != userId then Reject(Forbidden)
        else if order.status != Pending then Reject(PreconditionFailed)
        else Proceed(Cancellation(id, userId, None))
      case Refund(id, userId, reason) =>
        if order.userId != userId then Reject(Forbidden)
        else if order.status != Delivered then Reject(PreconditionFailed)
        else
          (match DeliveredAt(w.log, id)
           case None => Reject(Internal)
           case Some(at) =>
             if w.shop.now - at > REFUND_WINDOW then Reject(PreconditionFailed)
             else Proceed(Ticket(id, Delivered, Refunded, userId, reason, true, true)))
      case Update(id, status, changedBy, notes) =>
        match status
        case None => Reject(BadRequest)
        case Some(to) => Proceed(Ticket(id, order.status, to, changedBy, notes, false, Notifiable(to)))
  }

  /** The status change and its row in one transaction, then the stock on its way back and the mail. */
  function Commit(w: World, t: Ticket): World
    requires t.id < |w.orders|
  {
    var order := w.orders[t.id];
    w.(orders := w.orders[t.id := order.(status := t.to)],
       log := w.log + [Row(t.id, Some(t.from), t.to, t.changedBy, t.notes, w.shop.now)],
       inflight := w.inflight + (if t.restock then ParcelsOf(order.lines) else []),
       returned := w.returned + (if t.restock then [t.id] else []),
       mail := w.mail + (if t.notify then [StatusUpdate(order.userId, t.id, t.to)] else []))
  }

  /** The atomic handler: decide and commit with nothing in between. */
  function Handle(w: World, call: Call): World {
    match Decide(w, call)
    case Proceed(t) => Commit(w, t)
    case _ => w
  }

  /** The `i`th return message reaches the store, or fails and is only logged. */
  function Arrive(w: World, i: nat, arrives: bool): World {
    if i >= |w.inflight| then w
    else
      var p, rest := w.inflight[i], w.(inflight := w.inflight[..i] + w.inflight[i + 1..]);
      if arrives then rest.(counters := PutBack(w.counters, p)) else rest.(lost := w.lost + [p])
  }

  // ---- Runs of atomic handlers ----

  datatype Step =
    | Place(request: OrderRequest, faults: Faults)
    | On(call: Call)
    | Return(i: nat, arrives: bool)
    | Shopping(step: Shop.ShopStep)

  ghost function Do(w: World, step: Step): World {
    match step
    case Place(request, faults) => CreateOrder(w, request, faults).world
    case On(call) => Handle(w, call)
    case Return(i, arrives) => Arrive(w, i, arrives)
    case Shopping(s) => w.(shop := Shop.Do(w.shop, s))
  }

  ghost function Run(w: World, steps: seq<Step>): World
    decreases |steps|
  {
    if steps == [] then w else Run(Do(w, steps[0]), steps[1..])
  }

  function Opening(shop: Shop.Shop, counters: Counters): World {
    World(shop, counters, [], [], [], map[], [], [], [])
  }
}
