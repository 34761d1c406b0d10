/** One order as seen across the orders table, the audit log, the returned stock and the outbox. */
module OrderViews {
  import opened Base
  import opened Orders

  /** The status mails about one order, in order. */
  function UpdatesOf(mail: seq<Mail>, id: nat): seq<Mail> {
    if mail == [] then []
    else
      var last := mail[|mail| - 1];
      UpdatesOf(mail[..|mail| - 1], id) + if last.StatusUpdate? && last.orderId == id then [last] else []
  }

  datatype View = View(order: Order, rows: seq<Row>, handed: nat, updates: seq<Mail>)

  function ViewOf(w: World, id: nat): View
    requires id < |w.orders|
  {
    View(w.orders[id], RowsOf(w.log, id), multiset(w.returned)[id], UpdatesOf(w.mail, id))
  }

  lemma RowsOfAppend(log: seq<Row>, r: Row, id: nat)
    ensures RowsOf(log + [r], id) == RowsOf(log, id) + if r.orderId == id then [r] else []
  {
    assert (log + [r])[..|log|] == log;
  }

  lemma UpdatesOfAppend(mail: seq<Mail>, m: Mail, id: nat)
    ensures UpdatesOf(mail + [m], id) == UpdatesOf(mail, id) + if m.StatusUpdate? && m.orderId == id then [m] else []
  {
    assert (mail + [m])[..|mail|] == mail;
  }

  lemma {:induction false} RowsOfAreItsRows(log: seq<Row>, id: nat)
    ensures forall r :: r in RowsOf(log, id) ==> r.orderId == id && r in log
  {
    if log != [] {
      RowsOfAreItsRows(log[..|log| - 1], id);
    }
  }

  // ---- References stay inside the table ----

  /** Rows, mails and returns only mention orders that exist. */
  ghost predicate Closed(w: World) {
    && (forall r :: r in w.log ==> r.orderId < |w.orders|)
    && (forall m :: m in w.mail ==> m.orderId < |w.orders|)
    && (forall id :: id in w.returned ==> id < |w.orders|)
  }

  lemma {:induction false} NoRows(log: seq<Row>, id: nat)
    requires forall r :: r in log ==> r.orderId != id
    ensures RowsOf(log, id) == []
  {
    if log != [] {
      assert log[|log| - 1] in log;
      NoRows(log[..|log| - 1], id);
    }
  }

  lemma {:induction false} NoUpdates(mail: seq<Mail>, id: nat)
    requires forall m :: m in mail ==> m.orderId != id
    ensures UpdatesOf(mail, id) == []
  {
    if mail != [] {
      assert mail[|mail| - 1] in mail;
      NoUpdates(mail[..|mail| - 1], id);
    }
  }

  // ---- What each step does to the views ----

  /** The view of an order after a transaction on it. */
  function Moved(v: View, t: Ticket, now: int): View {
    View(v.order.(status := t.to),
         v.rows + [Row(t.id, Some(t.from), t.to, t.changedBy, t.notes, now)],
         v.handed + (if t.restock then 1 else 0),
         v.updates + (if t.notify then [StatusUpdate(v.order.userId, t.id, t.to)] else []))
  }

  lemma CommitLists(w: World, t: Ticket, id: nat)
    requires t.id < |w.orders| && id < |w.orders|
    ensures var w', o := Commit(w, t), w.orders[t.id];
            && RowsOf(w'.log, id) == RowsOf(w.log, id)
               + (if id == t.id then [Row(t.id, Some(t.from), t.to, t.changedBy, t.notes, w.shop.now)] else [])
            && UpdatesOf(w'.mail, id) == UpdatesOf(w.mail, id)
               + (if id == t.id && t.notify then [StatusUpdate(o.userId, t.id, t.to)] else [])
  {
    RowsOfAppend(w.log, Row(t.id, Some(t.from), t.to, t.changedBy, t.notes, w.shop.now), id);
    assert w.mail + [] == w.mail;
    UpdatesOfAppend(w.mail, StatusUpdate(w.orders[t.id].userId, t.id, t.to), id);
  }

  lemma CommitReturns(w: World, t: Ticket, id: nat)
    requires t.id < |w.orders|
    ensures multiset(Commit(w, t).returned)[id] == multiset(w.returned)[id] + if t.restock && t.id == id then 1 else 0
  {
  }

  lemma CommitViews(w: World, t: Ticket, id: nat)
    requires t.id < |w.orders| && id < |w.orders|
    ensures ViewOf(Commit(w, t), id) == if id == t.id then Moved(ViewOf(w, id), t, w.shop.now) else ViewOf(w, id)
  {
    CommitLists(w, t, id);
    CommitReturns(w, t, id);
    var v, v' := ViewOf(w, id), ViewOf(Commit(w, t), id);
    assert v'.order == if id == t.id then v.order.(status := t.to) else v.order;
  }

  /** One pending order of the user, created now, stands behind the earlier ones. */
  ghost predicate OneMore(orders: seq<Order>, orders': seq<Order>, userId: string, now: int) {
    && |orders'| == |orders| + 1
    && orders'[..|orders|] == orders
    && var o := orders'[|orders|];
       o.status == Pending && o.userId == userId && o.createdAt == now
  }

  /** All that persisting adds to the shared tables. */
  lemma PersistTables(w: World, request: OrderRequest, ls: seq<Line>, save: SaveFault)
    requires ls != []
    ensures var id, w' := |w.orders|, Persist(w, request, ls, save).world;
            && (w'.orders == w.orders || OneMore(w.orders, w'.orders, request.userId, w.shop.now))
            && w'.log == (if save.OrderRowFails? || save.ItemRowsFail? || save.HistoryRowFails? then w.log
                          else w.log + [Row(id, None, Pending, request.userId, None, w.shop.now)])
            && (w'.mail == w.mail || w'.mail == w.mail + [Confirmation(request.userId, id)])
            && (w'.orders == w.orders ==> w'.log == w.log && w'.mail == w.mail)
            && w'.returned == w.returned
  {
    var order := NewOrder(request, ls, w.shop.now);
    assert Stored(order).status == Pending;
  }

  /** The tables are as they were, or have one new order with at most its creation row and its confirmation mail. */
  ghost predicate OnlyAdds(w: World, w': World, request: OrderRequest, save: SaveFault) {
    var id := |w.orders|;
    && (w'.orders == w.orders || OneMore(w.orders, w'.orders, request.userId, w.shop.now))
    && (w'.log == w.log || w'.log == w.log + [Row(id, None, Pending, request.userId, None, w.shop.now)])
    && (w'.mail == w.mail || w'.mail == w.mail + [Confirmation(request.userId, id)])
    && (w'.orders == w.orders ==> w'.log == w.log && w'.mail == w.mail)
    && (w'.orders != w.orders ==> (w'.log == w.log <==> save.ItemRowsFail? || save.HistoryRowFails?))
    && w'.returned == w.returned
  }

  /** A checkout touches the tables only by persisting one order. */
  lemma CreateTables(w: World, request: OrderRequest, faults: Faults)
    ensures OnlyAdds(w, CreateOrder(w, request, faults).world, request, faults.save)
  {
    if request.lines != [] && Replay(w, request.key).None? {
      var priced := Repriced(w.shop.catalog, request.lines);
      if priced.Ok? {
        PersistTables(AfterReserving(w, priced.value, faults.reserve), request, priced.value, faults.save);
      }
    }
  }

  /** Whether a checkout past its key lookup adds an order is settled by its prices, its stock and its first write. */
  lemma CreatesExactly(w: World, request: OrderRequest, faults: Faults)
    requires request.lines != []
    ensures |AfterKeyCheck(w, request, faults).world.orders| == |w.orders| + if Creates(w, request, faults) then 1 else 0
  {
    var priced := Repriced(w.shop.catalog, request.lines);
    if priced.Ok? {
      PersistAdds(AfterReserving(w, priced.value, faults.reserve), request, priced.value, faults.save);
    }
  }

  lemma PersistAdds(w: World, request: OrderRequest, ls: seq<Line>, save: SaveFault)
    requires ls != []
    ensures |Persist(w, request, ls, save).world.orders| == |w.orders| + if save.OrderRowFails? then 0 else 1
  {
  }

  /** Adding leaves the existing orders alone. */
  lemma AddingKeepsView(w: World, w': World, request: OrderRequest, save: SaveFault, id: nat)
    requires OnlyAdds(w, w', request, save) && id < |w.orders|
    ensures id < |w'.orders| && ViewOf(w', id) == ViewOf(w, id)
  {
    RowsOfAppend(w.log, Row(|w.orders|, None, Pending, request.userId, None, w.shop.now), id);
    UpdatesOfAppend(w.mail, Confirmation(request.userId, |w.orders|), id);
  }

  lemma AddingStaysClosed(w: World, w': World, request: OrderRequest, save: SaveFault)
    requires Closed(w) && OnlyAdds(w, w', request, save)
    ensures Closed(w') && |w.orders| <= |w'.orders| <= |w.orders| + 1
  {
  }

  lemma CommitStaysClosed(w: World, t: Ticket)
    requires Closed(w) && t.id < |w.orders|
    ensures Closed(Commit(w, t))
  {
  }

  /** The transaction an atomic step commits on one order, if any. */
  function TicketOn(w: World, step: Step, id: nat): Option<Ticket> {
    if step.On? && step.call.id == id && Decide(w, step.call).Proceed? then Some(Decide(w, step.call).ticket) else None
  }

  /** The creation row is written along with the order. */
  predicate CreationLogged(step: Step) {
    step.Place? ==> !step.faults.save.ItemRowsFail? && !step.faults.save.HistoryRowFails?
  }

  /** An order nothing has happened to yet. */
  ghost predicate BrandNew(v: View, logged: bool) {
    && v.order.status == Pending
    && (if logged then |v.rows| == 1 && v.rows[0].from == None && v.rows[0].to == Pending else v.rows == [])
    && v.handed == 0 && v.updates == []
  }

  /** The orders after a step: the old ones moved by their own transaction at most, the others brand new. */
  ghost predicate Evolves(w: World, w': World, step: Step) {
    && |w.orders| <= |w'.orders|
    && (forall id: nat :: id < |w.orders| ==>
          ViewOf(w', id) == (match TicketOn(w, step, id)
                             case Some(t) => Moved(ViewOf(w, id), t, w.shop.now)
                             case None => ViewOf(w, id)))
    && (forall id: nat :: |w.orders| <= id < |w'.orders| ==> BrandNew(ViewOf(w', id), CreationLogged(step)))
  }

  /** A new order starts pending, at most with its creation row, its stock not handed back and unmailed. */
  lemma AddedIsBrandNew(w: World, w': World, request: OrderRequest, save: SaveFault)
    requires Closed(w) && OnlyAdds(w, w', request, save) && w'.orders != w.orders
    ensures BrandNew(ViewOf(w', |w.orders|), !save.ItemRowsFail? && !save.HistoryRowFails?)
  {
    var id := |w.orders|;
    NoRows(w.log, id);
    NoUpdates(w.mail, id);
    assert id !in w.returned;
    RowsOfAppend(w.log, Row(id, None, Pending, request.userId, None, w.shop.now), id);
    UpdatesOfAppend(w.mail, Confirmation(request.userId, id), id);
  }

  lemma AddingEvolves(w: World, w': World, step: Step)
    requires Closed(w) && step.Place? && OnlyAdds(w, w', step.request, step.faults.save)
    ensures Evolves(w, w', step)
  {
    forall id: nat | id < |w.orders| ensures ViewOf(w', id) == ViewOf(w, id) {
      AddingKeepsView(w, w', step.request, step.faults.save, id);
    }
    if w'.orders != w.orders {
      AddedIsBrandNew(w, w', step.request, step.faults.save);
    }
  }

  lemma CommitEvolves(w: World, call: Call)
    requires Decide(w, call).Proceed?
    ensures Evolves(w, Commit(w, Decide(w, call).ticket), On(call))
  {
    var t := Decide(w, call).ticket;
    forall id: nat | id < |w.orders|
      ensures ViewOf(Commit(w, t), id) == if id == t.id then Moved(ViewOf(w, id), t, w.shop.now) else ViewOf(w, id)
    {
      CommitViews(w, t, id);
    }
  }

  lemma SameTablesEvolve(w: World, w': World, step: Step)
    requires w'.orders == w.orders && w'.log == w.log && w'.mail == w.mail && w'.returned == w.returned
    requires forall id: nat :: TicketOn(w, step, id) == None
    ensures Evolves(w, w', step) && (Closed(w) ==> Closed(w'))
  {
    forall id: nat | id < |w.orders| ensures ViewOf(w', id) == ViewOf(w, id) {
    }
  }

  /** A step's effect on the orders and on what refers to them. */
  lemma StepEvolves(w: World, step: Step)
    requires Closed(w)
    ensures Closed(Do(w, step)) && Evolves(w, Do(w, step), step)
  {
    match step
    case Place(request, faults) =>
      CreateTables(w, request, faults);
      AddingStaysClosed(w, Do(w, step), request, faults.save);
      AddingEvolves(w, Do(w, step), step);
    case On(call) =>
      if Decide(w, call).Proceed? {
        CommitStaysClosed(w, Decide(w, call).ticket);
        CommitEvolves(w, call);
      } else {
        SameTablesEvolve(w, w, step);
      }
    case Return(_, _) => SameTablesEvolve(w, Do(w, step), step);
    case Shopping(_) => SameTablesEvolve(w, Do(w, step), step);
  }

  /** A run's first step: some state the orders evolve into, from which the rest of the run goes on. */
  lemma FirstStep(w: World, steps: seq<Step>) returns (w': World)
    requires Closed(w) && steps != []
    ensures w' == Do(w, steps[0]) && Closed(w') && Evolves(w, w', steps[0])
    ensures Run(w, steps) == Run(w', steps[1..])
  {
    w' := Do(w, steps[0]);
    StepEvolves(w, steps[0]);
  }
}
