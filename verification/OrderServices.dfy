/** The order service, its history log and the payment saga consumer, proved against the order state machine. */
module OrderServices {
  import opened Base
  import opened Stock
  import opened Environments
  import opened O = Orders
  import opened OrderRules
  import opened CartServices
  import Shop

  // ---- The append-only log ----

  ghost predicate InTimeOrder(rows: seq<Row>) {
    forall i, j :: 0 <= i < j < |rows| ==> rows[i].changedAt <= rows[j].changedAt
  }

  /** The rows with one more, behind all that are not later. */
  function Placed(rows: seq<Row>, r: Row): seq<Row> {
    if rows == [] || rows[|rows| - 1].changedAt <= r.changedAt then rows + [r]
    else Placed(rows[..|rows| - 1], r) + [rows[|rows| - 1]]
  }

  /** One order's rows sorted by time, as the database returns them. */
  function Timeline(log: seq<Row>, id: nat): seq<Row> {
    if log == [] then []
    else
      var last, before := log[|log| - 1], Timeline(log[..|log| - 1], id);
      if last.orderId == id then Placed(before, last) else before
  }

  lemma {:induction false} PlacedKeepsRows(rows: seq<Row>, r: Row)
    ensures multiset(Placed(rows, r)) == multiset(rows) + multiset{r}
  {
    if rows != [] && rows[|rows| - 1].changedAt > r.changedAt {
      var n := |rows| - 1;
      PlacedKeepsRows(rows[..n], r);
      assert rows == rows[..n] + [rows[n]];
    }
  }

  lemma SortedWithLast(rows: seq<Row>, last: Row)
    requires InTimeOrder(rows) && forall r :: r in rows ==> r.changedAt <= last.changedAt
    ensures InTimeOrder(rows + [last])
  {
  }

  lemma {:induction false} PlacedIsSorted(rows: seq<Row>, r: Row)
    requires InTimeOrder(rows)
    ensures InTimeOrder(Placed(rows, r))
  {
    var n := |rows| - 1;
    if rows == [] || rows[n].changedAt <= r.changedAt {
      SortedWithLast(rows, r);
    } else {
      PlacedIsSorted(rows[..n], r);
      PlacedKeepsRows(rows[..n], r);
      forall x | x in Placed(rows[..n], r) ensures x.changedAt <= rows[n].changedAt {
        assert x in multiset(rows[..n]) + multiset{r};
      }
      SortedWithLast(Placed(rows[..n], r), rows[n]);
    }
  }

  /** Whatever order the log is in, the timeline is sorted and has exactly the order's rows. */
  lemma {:induction false} TimelineIsSorted(log: seq<Row>, id: nat)
    ensures InTimeOrder(Timeline(log, id)) && multiset(Timeline(log, id)) == multiset(RowsOf(log, id))
  {
    if log != [] {
      TimelineIsSorted(log[..|log| - 1], id);
      PlacedIsSorted(Timeline(log[..|log| - 1], id), log[|log| - 1]);
      PlacedKeepsRows(Timeline(log[..|log| - 1], id), log[|log| - 1]);
    }
  }

  /** On a log written in time order, as every sound state has, it is the rows as they were written. */
  lemma {:induction false} TimelineOfOrdered(log: seq<Row>, id: nat)
    requires InTimeOrder(log)
    ensures Timeline(log, id) == RowsOf(log, id) && forall r :: r in RowsOf(log, id) ==> r in log
  {
    if log != [] {
      var n := |log| - 1;
      TimelineOfOrdered(log[..n], id);
      var rows := RowsOf(log[..n], id);
      if rows != [] {
        assert rows[|rows| - 1] in log[..n];
      }
    }
  }

  class OrderStatusHistoryService {
    const env: Environment

    constructor (env: Environment)
      ensures this.env == env
    {
      this.env := env;
    }

    method Append(id: nat, from: Option<Status>, to: Status, changedBy: string, notes: Option<string>)
      modifies env`log
      ensures env.log == old(env.log) + [Row(id, from, to, changedBy, notes, env.now)]
    {
      env.log := env.log + [Row(id, from, to, changedBy, notes, env.now)];
    }

    /** The latest time at which the order was delivered. */
    method FindDeliveredAt(id: nat) returns (at: Option<int>)
      ensures at == DeliveredAt(env.log, id)
    {
      at := None;
      for i := 0 to |env.log|
        invariant at == DeliveredAt(env.log[..i], id)
      {
        var row := env.log[i];
        assert env.log[..i + 1][..i] == env.log[..i];
        if IsDelivery(row, id) && (at.None? || at.value <= row.changedAt) {
          at := Some(row.changedAt);
        }
      }
      assert env.log[..|env.log|] == env.log;
    }

    /** The order's rows, earliest first. */
    method FindByOrderId(id: nat) returns (rows: seq<Row>)
      ensures InTimeOrder(rows) && multiset(rows) == multiset(RowsOf(env.log, id))
      ensures InTimeOrder(env.log) ==> rows == RowsOf(env.log, id)
    {
      rows := [];
      for i := 0 to |env.log|
        invariant rows == Timeline(env.log[..i], id)
      {
        assert env.log[..i + 1][..i] == env.log[..i];
        if env.log[i].orderId == id {
          rows := Placed(rows, env.log[i]);
        }
      }
      assert env.log[..|env.log|] == env.log;
      TimelineIsSorted(env.log, id);
      if InTimeOrder(env.log) {
        TimelineOfOrdered(env.log, id);
      }
    }
  }

  datatype Delivery = Acked | Nacked

  class OrderService {
    const env: Environment
    const cart: CartService
    const history: OrderStatusHistoryService

    constructor (cart: CartService, history: OrderStatusHistoryService)
      ensures this.cart == cart && this.history == history && env == cart.env
    {
      this.env := cart.env;
      this.cart := cart;
      this.history := history;
    }

    ghost predicate Wired() {
      cart.env == env && cart.reminders.env == env && history.env == env
    }

    // ---- createOrder ----

    method ReserveStock(ps: seq<Parcel>, faults: ReserveFaults) returns (outcome: Outcome)
      modifies env`counters, env`lost
      ensures var r := Reserve(old(env.counters), ps, faults);
              outcome == r.outcome && env.counters == r.counters && env.lost == old(env.lost) + r.lost
    {
      var reservations: seq<Parcel> := [];
      for i := 0 to |ps|
        invariant Reserve(old(env.counters), ps, faults) == ReserveFrom(env.counters, ps, i, reservations, faults)
        invariant env.lost == old(env.lost)
      {
        ghost var took := FaultOf(faults, i).ReplyLost? && Covers(env.counters, ps[i]);
        var reply := env.AttemptReserveStock(ps[i], FaultOf(faults, i));
        if reply.CallFailed? {
          env.lost := env.lost + (if took then reservations + [ps[i]] else reservations);
          return Broken;
        }
        if reply.tracked && !reply.reserved {
          RollBackAll(reservations, faults.failedReturns);
          return Short;
        }
        if reply.tracked {
          reservations := reservations + [ps[i]];
        }
      }
      return Reserved;
    }

    method RollBackAll(reservations: seq<Parcel>, failed: set<nat>)
      modifies env`counters, env`lost
      ensures var r := RollBack(old(env.counters), reservations, failed);
              env.counters == r.counters && env.lost == old(env.lost) + r.lost
    {
      for j := 0 to |reservations|
        invariant env.counters == RollBack(old(env.counters), reservations[..j], failed).counters
        invariant env.lost == old(env.lost) + RollBack(old(env.counters), reservations[..j], failed).lost
      {
        assert reservations[..j + 1][..j] == reservations[..j];
        env.ReturnStock(reservations[j], j in failed);
      }
      assert reservations[..|reservations|] == reservations;
    }

    /** Two inserts, the order row and then its items; either may fail. */
    method CreateWithItems(order: O.Order, save: SaveFault) returns (saved: bool)
      modifies env`orders
      ensures saved <==> !save.OrderRowFails? && !save.ItemRowsFail?
      ensures env.orders == if save.OrderRowFails? then old(env.orders)
                            else if save.ItemRowsFail? then old(env.orders) + [Stored(order).(lines := [])]
                            else old(env.orders) + [Stored(order)]
    {
      if save.OrderRowFails? { return false; }
      env.orders := env.orders + [Stored(order).(lines := [])];
      if save.ItemRowsFail? { return false; }
      var id := |env.orders| - 1;
      env.orders := env.orders[id := Stored(order)];
      return true;
    }

    method PersistOrder(request: OrderRequest, ls: seq<Line>, save: SaveFault) returns (r: Result<Response>)
      requires ls != [] && Wired()
      modifies env`orders, env`log, env`redis, env`jobs, env`cache, env`mail, env`lost
      ensures var c := Persist(old(env.State()), request, ls, save); env.State() == c.world && r == c.reply
    {
      var id, order := |env.orders|, NewOrder(request, ls, env.now);
      var saved := CreateWithItems(order, save);
      if !saved {
        env.lost := env.lost + ParcelsOf(ls);
        return Err(Internal);
      }
      ghost var w := old(env.State());
      assert env.State() == w.(orders := w.orders + [Stored(order)]);
      if save.HistoryRowFails? { return Err(Internal); }
      history.Append(id, None, Pending, request.userId, None);
      if save.CartClearFails? { return Err(Internal); }
      r := FinishOrder(id, order, request, save);
    }

    /** The steps after the order and its first row are in the database. */
    method FinishOrder(id: nat, order: O.Order, request: OrderRequest, save: SaveFault) returns (r: Result<Response>)
      requires Wired()
      modifies env`redis, env`jobs, env`cache, env`mail
      ensures var w := old(env.State());
              var cleared := w.(shop := Shop.ClearCart(w.shop, request.userId));
              var fails := save.CacheFails? && Present(request.key);
              && r == (if fails then Err(Internal) else Ok(Response(id, order)))
              && env.State() ==
                   if fails then cleared
                   else cleared.(mail := w.mail + [Confirmation(request.userId, id)],
                                 cache := if !Present(request.key) then w.cache
                                          else w.cache[request.key.value := Cached(request.userId, Response(id, order), w.shop.now + IDEMPOTENCY_TTL)])
    {
      cart.ClearCart(request.userId);
      var response := Response(id, order);
      if Present(request.key) {
        if save.CacheFails? { return Err(Internal); }
        env.cache := env.cache[request.key.value := Cached(request.userId, response, env.now + IDEMPOTENCY_TTL)];
      }
      env.mail := env.mail + [Confirmation(request.userId, id)];
      return Ok(response);
    }

    method CreateOrder(request: OrderRequest, faults: Faults) returns (r: Result<Response>)
      requires Wired()
      modifies env`counters, env`orders, env`log, env`redis, env`jobs, env`cache, env`mail, env`lost
      ensures var c := O.CreateOrder(old(env.State()), request, faults); env.State() == c.world && r == c.reply
    {
      if request.lines == [] { return Err(BadRequest); }
      if Present(request.key) && request.key.value in env.cache && env.now < env.cache[request.key.value].deadline {
        var cached := env.cache[request.key.value];
        if cached.userId != request.userId { return Err(Forbidden); }
        return Ok(cached.response);
      }
      var priced := Repriced(env.catalog, request.lines);
      if priced.Err? { return Err(priced.error); }
      var outcome := ReserveStock(ParcelsOf(priced.value), faults.reserve);
      assert env.State() == AfterReserving(old(env.State()), priced.value, faults.reserve);
      if outcome.Short? { return Err(PreconditionFailed); }
      if outcome.Broken? { return Err(Internal); }
      r := PersistOrder(request, priced.value, faults.save);
    }

    // ---- Status handlers ----

    /** The return messages of an order's items leave one by one. */
    method ReturnStockForOrder(ls: seq<Line>)
      modifies env`inflight
      ensures env.inflight == old(env.inflight) + ParcelsOf(ls)
    {
      for i := 0 to |ls|
        invariant env.inflight == old(env.inflight) + ParcelsOf(ls[..i])
      {
        env.inflight := env.inflight + [ParcelOf(ls[i])];
        assert ParcelsOf(ls[..i + 1]) == ParcelsOf(ls[..i]) + [ParcelOf(ls[i])];
      }
      assert ls[..|ls|] == ls;
    }

    /** Status and history row in one transaction. */
    method SaveStatus(id: nat, from: Status, to: Status, changedBy: string, notes: Option<string>)
      requires id < |env.orders| && Wired()
      modifies env`orders, env`log
      ensures env.orders == old(env.orders)[id := old(env.orders)[id].(status := to)]
      ensures env.log == old(env.log) + [Row(id, Some(from), to, changedBy, notes, env.now)]
    {
      env.orders := env.orders[id := env.orders[id].(status := to)];
      history.Append(id, Some(from), to, changedBy, notes);
    }

    method SendStatusMail(id: nat, to: Status)
      requires id < |env.orders|
      modifies env`mail
      ensures env.mail == old(env.mail) + [StatusUpdate(env.orders[id].userId, id, to)]
    {
      env.mail := env.mail + [StatusUpdate(env.orders[id].userId, id, to)];
    }

    method PerformCancellation(id: nat, changedBy: string, reason: Option<string>)
      requires id < |env.orders| && Wired()
      modifies env`orders, env`log, env`inflight, env`mail, env`returned
      ensures env.State() == Commit(old(env.State()), Cancellation(id, changedBy, reason))
    {
      SaveStatus(id, Pending, Cancelled, changedBy, reason);
      ReturnStockForOrder(env.orders[id].lines);
      env.returned := env.returned + [id];
      SendStatusMail(id, Cancelled);
    }

    method CancelOrder(id: nat, userId: string, commits: bool) returns (r: Result<Response>)
      requires Wired()
      modifies env`orders, env`log, env`inflight, env`mail, env`returned
      ensures env.State() == AfterCall(old(env.State()), UserCancel(id, userId), commits)
      ensures r == ReplyOf(old(env.State()), UserCancel(id, userId), commits)
    {
      if id >= |env.orders| { return Err(NotFound); }
      var order := env.orders[id];
      if order.userId != userId { return Err(Forbidden); }
      if order.status != Pending { return Err(PreconditionFailed); }
      if !commits { return Err(Internal); }
      PerformCancellation(id, userId, None);
      return Ok(Response(id, env.orders[id]));
    }

    method RefundOrder(id: nat, userId: string, reason: Option<string>, commits: bool) returns (r: Result<Response>)
      requires Wired()
      modifies env`orders, env`log, env`inflight, env`mail, env`returned
      ensures env.State() == AfterCall(old(env.State()), Refund(id, userId, reason), commits)
      ensures r == ReplyOf(old(env.State()), Refund(id, userId, reason), commits)
    {
      if id >= |env.orders| { return Err(NotFound); }
      var order := env.orders[id];
      if order.userId != userId { return Err(Forbidden); }
      if order.status != Delivered { return Err(PreconditionFailed); }
      var deliveredAt := history.FindDeliveredAt(id);
      if deliveredAt.None? { return Err(Internal); }
      if env.now - deliveredAt.value > REFUND_WINDOW { return Err(PreconditionFailed); }
      if !commits { return Err(Internal); }
      PerformRefund(id, userId, reason);
      return Ok(Response(id, env.orders[id]));
    }

    method PerformRefund(id: nat, userId: string, reason: Option<string>)
      requires id < |env.orders| && Wired()
      modifies env`orders, env`log, env`inflight, env`mail, env`returned
      ensures env.State() == Commit(old(env.State()), Ticket(id, Delivered, Refunded, userId, reason, true, true))
    {
      SaveStatus(id, Delivered, Refunded, userId, reason);
      ReturnStockForOrder(env.orders[id].lines);
      env.returned := env.returned + [id];
      SendStatusMail(id, Refunded);
    }

    method UpdateOrderStatus(id: nat, status: Option<Status>, changedBy: string, notes: Option<string>, commits: bool)
      returns (r: Result<Response>)
      requires Wired()
      modifies env`orders, env`log, env`mail
      ensures env.State() == AfterCall(old(env.State()), Update(id, status, changedBy, notes), commits)
      ensures r == ReplyOf(old(env.State()), Update(id, status, changedBy, notes), commits)
    {
      if id >= |env.orders| { return Err(NotFound); }
      if status.None? { return Err(BadRequest); }
      if !commits { return Err(Internal); }
      var to := status.value;
      SaveStatus(id, env.orders[id].status, to, changedBy, notes);
      if Notifiable(to) {
        SendStatusMail(id, to);
      }
      return Ok(Response(id, env.orders[id]));
    }

    /** A missing or already resolved order is skipped; only a failed transaction throws. */
    method ConfirmOrder(id: nat, commits: bool) returns (threw: bool)
      requires Wired()
      modifies env`orders, env`log
      ensures env.State() == AfterCall(old(env.State()), Confirm(id), commits)
      ensures threw <==> !commits && id < |old(env.orders)| && old(env.orders)[id].status == Pending
    {
      if id >= |env.orders| || env.orders[id].status != Pending { return false; }
      if !commits { return true; }
      SaveStatus(id, Pending, Confirmed, SAGA_ACTOR, None);
      return false;
    }

    method CancelOrderBySaga(id: nat, reason: Option<string>, commits: bool) returns (threw: bool)
      requires Wired()
      modifies env`orders, env`log, env`inflight, env`mail, env`returned
      ensures env.State() == AfterCall(old(env.State()), SagaCancel(id, reason), commits)
      ensures threw <==> !commits && id < |old(env.orders)| && old(env.orders)[id].status == Pending
    {
      if id >= |env.orders| || env.orders[id].status != Pending { return false; }
      if !commits { return true; }
      PerformCancellation(id, SAGA_ACTOR, reason);
      return false;
    }
  }

  // ---- The payment event consumer ----

  class OrderSagaController {
    const service: OrderService

    constructor (service: OrderService)
      ensures this.service == service
    {
      this.service := service;
    }

    /** The event is acknowledged unless the order was pending and the transaction failed; it is never requeued. */
    method OnPaymentSucceeded(id: nat, commits: bool) returns (d: Delivery)
      requires service.Wired()
      modifies service.env`orders, service.env`log
      ensures service.env.State() == AfterCall(old(service.env.State()), Confirm(id), commits)
      ensures d == if !commits && id < |old(service.env.orders)| && old(service.env.orders)[id].status == Pending then Nacked else Acked
    {
      var threw := service.ConfirmOrder(id, commits);
      d := if threw then Nacked else Acked;
    }

    method OnPaymentFailed(id: nat, reason: Option<string>, commits: bool) returns (d: Delivery)
      requires service.Wired()
      modifies service.env`orders, service.env`log, service.env`inflight, service.env`mail, service.env`returned
      ensures service.env.State() == AfterCall(old(service.env.State()), SagaCancel(id, reason), commits)
      ensures d == if !commits && id < |old(service.env.orders)| && old(service.env.orders)[id].status == Pending then Nacked else Acked
    {
      var threw := service.CancelOrderBySaga(id, reason, commits);
      d := if threw then Nacked else Acked;
    }
  }
}
