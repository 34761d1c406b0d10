/** Conservation of stock over every interleaved run, with remote calls and database writes failing at will. */
module Accounting {
  import opened Base
  import opened Pricing
  import opened Stock
  import opened Orders
  import opened OrderViews
  import opened Interleaving
  import opened Returns
  import Shop

  /** What the orders ever created hold of one key. */
  function Held(orders: seq<Order>, key: Key): int {
    if orders == [] then 0
    else Held(orders[..|orders| - 1], key) + Carried(ParcelsOf(orders[|orders| - 1].lines), key)
  }

  /** What handlers have handed back of one key, order by order. */
  function HandedBack(returned: seq<nat>, orders: seq<Order>, key: Key): int
    requires forall id :: id in returned ==> id < |orders|
  {
    if returned == [] then 0
    else
      var n := |returned| - 1;
      assert returned[n] in returned;
      assert forall id :: id in returned[..n] ==> id in returned;
      HandedBack(returned[..n], orders, key) + Carried(ParcelsOf(orders[returned[n]].lines), key)
  }

  ghost predicate InTable(w: World) {
    forall id :: id in w.returned ==> id < |w.orders|
  }

  /** For one key: counter = initial - held by orders + handed back - in flight - lost. */
  ghost predicate Balanced(w: World, initial: Counters, key: Key)
    requires InTable(w)
  {
    && key in w.counters && key in initial
    && w.counters[key] == initial[key] - Held(w.orders, key) + HandedBack(w.returned, w.orders, key)
                          - Carried(w.inflight, key) - Carried(w.lost, key)
  }

  ghost predicate Accounted(w: World, initial: Counters) {
    && w.counters.Keys == initial.Keys
    && InTable(w)
    && forall key :: key in initial ==> Balanced(w, initial, key)
  }

  ghost predicate SameLines(a: seq<Order>, b: seq<Order>) {
    |a| <= |b| && forall i :: 0 <= i < |a| ==> a[i].lines == b[i].lines
  }

  lemma {:induction false} HeldByLines(a: seq<Order>, b: seq<Order>, key: Key)
    requires |a| == |b| && SameLines(a, b)
    ensures Held(a, key) == Held(b, key)
  {
    if a != [] {
      HeldByLines(a[..|a| - 1], b[..|b| - 1], key);
    }
  }

  lemma {:induction false} HandedBackByLines(returned: seq<nat>, a: seq<Order>, b: seq<Order>, key: Key)
    requires SameLines(a, b) && forall id :: id in returned ==> id < |a|
    ensures HandedBack(returned, a, key) == HandedBack(returned, b, key)
  {
    if returned != [] {
      var n := |returned| - 1;
      assert returned[n] in returned;
      assert forall id :: id in returned[..n] ==> id in returned;
      HandedBackByLines(returned[..n], a, b, key);
    }
  }

  // ---- Checkout ----

  lemma ParcelsOfStored(request: OrderRequest, ls: seq<Line>, now: int)
    requires ls != []
    ensures ParcelsOf(Stored(NewOrder(request, ls, now)).lines) == ParcelsOf(ls)
  {
  }

  lemma HeldWithOneMore(orders: seq<Order>, o: Order, key: Key)
    ensures Held(orders + [o], key) == Held(orders, key) + Carried(ParcelsOf(o.lines), key)
  {
    assert (orders + [o])[..|orders|] == orders;
  }

  /** What persisting makes of the reserved parcels: an order's lines, or a loss. */
  lemma PersistedParcels(w: World, request: OrderRequest, ls: seq<Line>, save: SaveFault)
    requires ls != []
    ensures var w', o := Persist(w, request, ls, save).world, Stored(NewOrder(request, ls, w.shop.now));
            || (w'.orders == w.orders && w'.lost == w.lost + ParcelsOf(ls))
            || (w'.orders == w.orders + [o.(lines := [])] && w'.lost == w.lost + ParcelsOf(ls))
            || (w'.orders == w.orders + [o] && w'.lost == w.lost)
  {
  }

  lemma PersistAccounts(w: World, request: OrderRequest, ls: seq<Line>, save: SaveFault, key: Key)
    requires ls != []
    ensures var w' := Persist(w, request, ls, save).world;
            Held(w'.orders, key) + Carried(w'.lost, key)
            == Held(w.orders, key) + Carried(w.lost, key) + Carried(ParcelsOf(ls), key)
  {
    var o := Stored(NewOrder(request, ls, w.shop.now));
    PersistedParcels(w, request, ls, save);
    ParcelsOfStored(request, ls, w.shop.now);
    CarriedConcat(w.lost, ParcelsOf(ls), key);
    HeldWithOneMore(w.orders, o, key);
    HeldWithOneMore(w.orders, o.(lines := []), key);
    assert ParcelsOf([]) == [];
  }

  lemma PersistTouches(w: World, request: OrderRequest, ls: seq<Line>, save: SaveFault)
    requires ls != []
    ensures var w' := Persist(w, request, ls, save).world;
            && w'.counters == w.counters && w'.inflight == w.inflight && w'.returned == w.returned
            && SameLines(w.orders, w'.orders)
  {
  }

  lemma ReservePersistAccounts(w: World, request: OrderRequest, ls: seq<Line>, faults: Faults, initial: Counters)
    requires ls != [] && Accounted(w, initial)
    ensures Accounted(ReserveAndPersist(w, request, ls, faults).world, initial)
  {
    var w1, w2 := AfterReserving(w, ls, faults.reserve), ReserveAndPersist(w, request, ls, faults).world;
    var r := Reserve(w.counters, ParcelsOf(ls), faults.reserve);
    ReserveKeepsKeys(w.counters, ParcelsOf(ls), faults.reserve);
    PersistTouches(w1, request, ls, faults.save);
    forall key | key in initial ensures Balanced(w2, initial, key) {
      ReserveAccounts(w.counters, ParcelsOf(ls), faults.reserve, key);
      CarriedConcat(w.lost, r.lost, key);
      PersistAccounts(w1, request, ls, faults.save, key);
      HandedBackByLines(w.returned, w.orders, w2.orders, key);
      assert Balanced(w, initial, key);
    }
  }

  lemma CreateAccounts(w: World, request: OrderRequest, faults: Faults, initial: Counters)
    requires Accounted(w, initial)
    ensures Accounted(CreateOrder(w, request, faults).world, initial)
  {
    if request.lines != [] && Replay(w, request.key).None? {
      var priced := Repriced(w.shop.catalog, request.lines);
      if priced.Ok? {
        ReservePersistAccounts(w, request, priced.value, faults, initial);
      }
    }
  }

  // ---- Status transactions and returns ----

  lemma CommitAccounts(w: World, t: Ticket, initial: Counters)
    requires Accounted(w, initial) && t.id < |w.orders|
    ensures Accounted(Commit(w, t), initial)
  {
    var w', ps := Commit(w, t), ParcelsOf(w.orders[t.id].lines);
    forall key | key in initial ensures Balanced(w', initial, key) {
      HeldByLines(w.orders, w'.orders, key);
      HandedBackByLines(w.returned, w.orders, w'.orders, key);
      assert Balanced(w, initial, key);
      if t.restock {
        CarriedConcat(w.inflight, ps, key);
        assert (w.returned + [t.id])[..|w.returned|] == w.returned;
      } else {
        assert w'.inflight == w.inflight && w'.returned == w.returned;
      }
    }
  }

  lemma CarriedWithout(ps: seq<Parcel>, i: nat, key: Key)
    requires i < |ps|
    ensures Carried(ps, key) == Carried(ps[..i] + ps[i + 1..], key) + Carried([ps[i]], key)
  {
    assert ps == ps[..i] + [ps[i]] + ps[i + 1..];
    CarriedConcat(ps[..i] + [ps[i]], ps[i + 1..], key);
    CarriedConcat(ps[..i], [ps[i]], key);
    CarriedConcat(ps[..i], ps[i + 1..], key);
  }

  lemma ArriveAccounts(w: World, i: nat, arrives: bool, initial: Counters)
    requires Accounted(w, initial)
    ensures Accounted(Arrive(w, i, arrives), initial)
  {
    if i < |w.inflight| {
      var p, w' := w.inflight[i], Arrive(w, i, arrives);
      forall key | key in initial ensures Balanced(w', initial, key) {
        assert Balanced(w, initial, key);
        CarriedWithout(w.inflight, i, key);
        CarriedOne(p, key);
        CarriedConcat(w.lost, [p], key);
      }
    }
  }

  lemma StepAccounts(s: Split, step: SplitStep, initial: Counters)
    requires Accounted(s.world, initial)
    ensures Accounted(SplitDo(s, step).world, initial)
  {
    var w := s.world;
    match step
    case Read(call) =>
    case CommitAt(k) =>
      if k < |s.pending| && s.pending[k].id < |w.orders| {
        CommitAccounts(w, s.pending[k], initial);
      }
    case AbortAt(k) =>
    case Whole(st) =>
      match st {
        case Place(request, faults) => CreateAccounts(w, request, faults, initial);
        case On(call) =>
          if Decide(w, call).Proceed? {
            CommitAccounts(w, Decide(w, call).ticket, initial);
          }
        case Return(i, arrives) => ArriveAccounts(w, i, arrives, initial);
        case Shopping(_) =>
          forall key | key in initial ensures Balanced(Do(w, st), initial, key) {
            assert Balanced(w, initial, key);
          }
      }
    case Late(request, faults) =>
      if request.lines != [] {
        LateAccounts(w, request, faults, initial);
      }
  }

  lemma LateAccounts(w: World, request: OrderRequest, faults: Faults, initial: Counters)
    requires Accounted(w, initial) && request.lines != []
    ensures Accounted(AfterKeyCheck(w, request, faults).world, initial)
  {
    var priced := Repriced(w.shop.catalog, request.lines);
    if priced.Ok? {
      ReservePersistAccounts(w, request, priced.value, faults, initial);
    }
  }

  /**
   In every interleaved run, with any failures: for each tracked key the stock on hand is the
   initial stock, less what created orders hold, plus what handlers handed back, less what is on its way, less
   what failed calls lost; and the tracked keys never change.
   */
  lemma {:induction false} StockIsAccounted(s: Split, steps: seq<SplitStep>, initial: Counters)
    requires Accounted(s.world, initial)
    ensures Accounted(SplitRun(s, steps).world, initial)
    decreases |steps|
  {
    if steps != [] {
      StepAccounts(s, steps[0], initial);
      StockIsAccounted(SplitDo(s, steps[0]), steps[1..], initial);
    }
  }

  lemma OpeningIsAccounted(shop: Shop.Shop, counters: Counters)
    ensures Accounted(Opening(shop, counters), counters)
  {
    forall key | key in counters ensures Balanced(Opening(shop, counters), counters, key) {
    }
  }

  /** So the stock is accounted for in every state the system can reach from its opening. */
  lemma ReachableIsAccounted(shop: Shop.Shop, counters: Counters, steps: seq<SplitStep>)
    ensures Accounted(Reached(shop, counters, steps).world, counters)
  {
    OpeningIsAccounted(shop, counters);
    StockIsAccounted(Split(Opening(shop, counters), []), steps, counters);
  }

  // ---- Stock and live orders ----

  /** What the orders that are neither cancelled nor refunded hold of one key. */
  function HeldByLive(orders: seq<Order>, key: Key): int {
    if orders == [] then 0
    else
      var last := orders[|orders| - 1];
      HeldByLive(orders[..|orders| - 1], key) + if Terminal(last.status) then 0 else Carried(ParcelsOf(last.lines), key)
  }

  ghost predicate InRange(returned: seq<nat>, n: nat) {
    forall id :: id in returned ==> id < n
  }

  lemma HandedBackAppend(returned: seq<nat>, id: nat, orders: seq<Order>, key: Key)
    requires InRange(returned, |orders|) && id < |orders|
    ensures InRange(returned + [id], |orders|)
    ensures HandedBack(returned + [id], orders, key)
            == HandedBack(returned, orders, key) + Carried(ParcelsOf(orders[id].lines), key)
  {
    assert (returned + [id])[..|returned|] == returned;
  }

  lemma InRangeParts(a: seq<nat>, b: seq<nat>, n: nat)
    ensures InRange(a + b, n) <==> InRange(a, n) && InRange(b, n)
  {
    if InRange(a + b, n) {
      assert forall id :: id in a || id in b ==> id in a + b;
    }
  }

  lemma {:induction false} HandedBackParts(a: seq<nat>, b: seq<nat>, orders: seq<Order>, key: Key)
    requires InRange(a, |orders|) && InRange(b, |orders|)
    ensures InRange(a + b, |orders|)
    ensures HandedBack(a + b, orders, key) == HandedBack(a, orders, key) + HandedBack(b, orders, key)
  {
    InRangeParts(a, b, |orders|);
    if b == [] {
      assert a + b == a;
    } else {
      var n := |b| - 1;
      assert b == b[..n] + [b[n]];
      InRangeParts(b[..n], [b[n]], |orders|);
      assert b[n] in b;
      HandedBackParts(a, b[..n], orders, key);
      HandedBackAppend(a + b[..n], b[n], orders, key);
      HandedBackAppend(b[..n], b[n], orders, key);
      assert a + b == (a + b[..n]) + [b[n]];
    }
  }

  lemma HandedBackWithout(returned: seq<nat>, k: nat, orders: seq<Order>, key: Key)
    requires k < |returned| && InRange(returned, |orders|)
    ensures InRange(returned[..k] + returned[k + 1..], |orders|) && returned[k] in returned
    ensures HandedBack(returned, orders, key)
            == HandedBack(returned[..k] + returned[k + 1..], orders, key) + Carried(ParcelsOf(orders[returned[k]].lines), key)
  {
    var a, b := returned[..k], returned[k + 1..];
    assert returned == (a + [returned[k]]) + b;
    InRangeParts(a + [returned[k]], b, |orders|);
    InRangeParts(a, [returned[k]], |orders|);
    assert returned[k] in returned;
    HandedBackParts(a + [returned[k]], b, orders, key);
    HandedBackAppend(a, returned[k], orders, key);
    HandedBackParts(a, b, orders, key);
  }

  /** Each cancelled or refunded order was handed back once, and no other. */
  ghost predicate OncePerTerminal(returned: seq<nat>, orders: seq<Order>) {
    && InRange(returned, |orders|)
    && forall id: nat :: id < |orders| ==> multiset(returned)[id] == if Terminal(orders[id].status) then 1 else 0
  }

  lemma RemovedOnce(returned: seq<nat>, k: nat)
    requires k < |returned|
    ensures multiset(returned) == multiset(returned[..k] + returned[k + 1..]) + multiset([returned[k]])
  {
    assert returned == returned[..k] + [returned[k]] + returned[k + 1..];
  }

  lemma StillOncePerTerminal(returned: seq<nat>, rest: seq<nat>, orders: seq<Order>)
    requires orders != [] && OncePerTerminal(returned, orders)
    requires var n: nat := |orders| - 1;
             multiset(returned) == multiset(rest) + if Terminal(orders[n].status) then multiset([n]) else multiset([])
    ensures OncePerTerminal(rest, orders[..|orders| - 1])
  {
    var n: nat := |orders| - 1;
    assert multiset(returned)[n] == multiset(rest)[n] + if Terminal(orders[n].status) then 1 else 0;
    forall id | id in rest ensures id < n {
      assert id in multiset(rest) && id in multiset(returned);
      assert id in returned && multiset(rest)[n] == 0;
    }
    forall id: nat | id < n ensures multiset(rest)[id] == if Terminal(orders[id].status) then 1 else 0 {
      assert multiset(rest)[id] == multiset(returned)[id];
    }
  }

  lemma NoneInRange(returned: seq<nat>)
    ensures InRange(returned, 0) ==> returned == []
  {
    if returned != [] {
      assert returned[0] in returned;
    }
  }

  /** Then what was handed back is what the orders no longer alive held. */
  lemma {:induction false} HandedBackIsDead(returned: seq<nat>, orders: seq<Order>, key: Key)
    requires OncePerTerminal(returned, orders)
    ensures HandedBack(returned, orders, key) == Held(orders, key) - HeldByLive(orders, key)
  {
    if orders == [] {
      NoneInRange(returned);
    } else {
      var n, rest := |orders| - 1, returned;
      if Terminal(orders[n].status) {
        assert n in multiset(returned);
        var k: nat :| k < |returned| && returned[k] == n;
        HandedBackWithout(returned, k, orders, key);
        RemovedOnce(returned, k);
        rest := returned[..k] + returned[k + 1..];
      }
      StillOncePerTerminal(returned, rest, orders);
      HandedBackIsDead(rest, orders[..n], key);
      HandedBackByLines(rest, orders[..n], orders, key);
    }
  }

  lemma SingleReturnsPerTerminal(w: World)
    requires Closed(w) && SingleReturns(w)
    ensures OncePerTerminal(w.returned, w.orders)
  {
    forall id: nat | id < |w.orders| ensures multiset(w.returned)[id] == if Terminal(w.orders[id].status) then 1 else 0 {
      assert HandedRight(ViewOf(w, id));
    }
  }

  /**
   In every state the system can reach by commits that suit the orders, whatever fails: the initial stock is what is
   on hand, what orders neither cancelled nor refunded hold, what is on its way back and what failed calls lost.
   */
  lemma StockBelongsToLiveOrders(shop: Shop.Shop, counters: Counters, steps: seq<SplitStep>, key: Key)
    requires key in counters && AllSuit(Split(Opening(shop, counters), []), steps)
    ensures var w := Reached(shop, counters, steps).world;
            && key in w.counters
            && counters[key] == w.counters[key] + HeldByLive(w.orders, key) + Carried(w.inflight, key) + Carried(w.lost, key)
  {
    var s := Split(Opening(shop, counters), []);
    var w := Reached(shop, counters, steps).world;
    ReachableIsAccounted(shop, counters, steps);
    ReachableIsSound(shop, counters, steps);
    ReachableSingleReturn(shop, counters, steps);
    RightAtTheEnd(s, steps);
    SingleReturnsPerTerminal(w);
    HandedBackIsDead(w.returned, w.orders, key);
    assert Balanced(w, counters, key);
  }

  // ---- Losses and negative stock ----

  /** A step in which no remote call and no write fails. */
  ghost predicate NoFailure(step: SplitStep) {
    match step
    case Whole(Place(_, faults)) => Faultless(faults.reserve) && faults.save.AllSaved?
    case Whole(Return(_, arrives)) => arrives
    case Late(_, faults) => Faultless(faults.reserve) && faults.save.AllSaved?
    case _ => true
  }

  /** Nothing is lost without a failure. */
  lemma {:induction false} NoFailureNoLoss(s: Split, steps: seq<SplitStep>)
    requires forall step :: step in steps ==> NoFailure(step)
    ensures SplitRun(s, steps).world.lost == s.world.lost
    decreases |steps|
  {
    if steps != [] {
      assert steps[0] in steps;
      assert forall step :: step in steps[1..] ==> step in steps;
      StepLosesNothing(s, steps[0]);
      NoFailureNoLoss(SplitDo(s, steps[0]), steps[1..]);
    }
  }

  lemma StepLosesNothing(s: Split, step: SplitStep)
    requires NoFailure(step)
    ensures SplitDo(s, step).world.lost == s.world.lost
  {
    if step.Whole? && step.step.Place? {
      CheckoutLosesNothing(s.world, step.step.request, step.step.faults);
    } else if step.Late? {
      CheckoutLosesNothing(s.world, step.request, step.faults);
    }
  }

  lemma CheckoutLosesNothing(w: World, request: OrderRequest, faults: Faults)
    requires Faultless(faults.reserve) && faults.save.AllSaved?
    ensures request.lines != [] ==> AfterKeyCheck(w, request, faults).world.lost == w.lost
  {
    var priced := Repriced(w.shop.catalog, request.lines);
    if priced.Ok? {
      ReserveFromLosesNothing(w.counters, ParcelsOf(priced.value), 0, [], faults.reserve);
      assert w.lost + [] == w.lost;
    }
  }

  /** No quantity in the system is negative, the counters included. */
  ghost predicate Physical(w: World) {
    && NonNegative(w.counters)
    && (forall o, l :: o in w.orders && l in o.lines ==> l.quantity >= 0)
    && (forall p :: p in w.inflight ==> p.quantity >= 0)
  }

  ghost predicate PositiveRequests(step: SplitStep) {
    match step
    case Whole(Place(request, _)) => forall l :: l in request.lines ==> l.quantity > 0
    case Late(request, _) => forall l :: l in request.lines ==> l.quantity > 0
    case _ => true
  }

  lemma {:induction false} RepricedLines(catalog: Catalog, ls: seq<Line>)
    ensures var r := Repriced(catalog, ls);
            r.Ok? ==> forall i :: 0 <= i < |ls| ==>
              && FetchServerPrice(catalog, ls[i].productId, ls[i].variantId) == Ok(r.value[i].unitPrice)
              && r.value[i] == ls[i].(unitPrice := r.value[i].unitPrice)
    decreases |ls|
  {
    if ls != [] {
      RepricedLines(catalog, ls[1..]);
    }
  }

  lemma RepricedQuantities(catalog: Catalog, ls: seq<Line>)
    requires Repriced(catalog, ls).Ok? && forall l :: l in ls ==> l.quantity > 0
    ensures forall l :: l in Repriced(catalog, ls).value ==> l.quantity > 0
    ensures ParcelsOf(Repriced(catalog, ls).value) == ParcelsOf(ls)
  {
    var priced := Repriced(catalog, ls).value;
    RepricedLines(catalog, ls);
    forall l | l in priced ensures l.quantity > 0 {
      var i :| 0 <= i < |priced| && priced[i] == l;
      assert ls[i] in ls;
    }
  }

  lemma DemandNonNegative(ls: seq<Line>)
    requires forall l :: l in ls ==> l.quantity > 0
    ensures forall p :: p in ParcelsOf(ls) ==> p.quantity >= 0
  {
    var ps := ParcelsOf(ls);
    forall p | p in ps ensures p.quantity >= 0 {
      var i :| 0 <= i < |ps| && ps[i] == p;
      assert ls[i] in ls;
    }
  }

  lemma LateStaysPhysical(w: World, request: OrderRequest, faults: Faults)
    requires Physical(w) && request.lines != [] && forall l :: l in request.lines ==> l.quantity > 0
    ensures Physical(AfterKeyCheck(w, request, faults).world)
  {
    var priced := Repriced(w.shop.catalog, request.lines);
    if priced.Ok? {
      var ls := priced.value;
      RepricedQuantities(w.shop.catalog, request.lines);
      DemandNonNegative(ls);
      ReserveStaysNonNegative(w.counters, ParcelsOf(ls), 0, [], faults.reserve);
      PersistStaysPhysical(AfterReserving(w, ls, faults.reserve), request, ls, faults.save);
    }
  }

  lemma CreateStaysPhysical(w: World, request: OrderRequest, faults: Faults)
    requires Physical(w) && forall l :: l in request.lines ==> l.quantity > 0
    ensures Physical(CreateOrder(w, request, faults).world)
  {
    if request.lines != [] {
      LateStaysPhysical(w, request, faults);
    }
  }

  lemma PersistStaysPhysical(w: World, request: OrderRequest, ls: seq<Line>, save: SaveFault)
    requires ls != [] && Physical(w) && forall l :: l in ls ==> l.quantity > 0
    ensures Physical(Persist(w, request, ls, save).world)
  {
    var order := Stored(NewOrder(request, ls, w.shop.now));
    forall i | 0 <= i < |order.lines| ensures order.lines[i].quantity > 0 {
      assert ls[i] in ls;
    }
    var w' := Persist(w, request, ls, save).world;
    assert forall o :: o in w'.orders ==> o in w.orders || o == order || o == order.(lines := []);
  }

  lemma CommitStaysPhysical(w: World, t: Ticket)
    requires Physical(w) && t.id < |w.orders|
    ensures Physical(Commit(w, t))
  {
    var order, ps := w.orders[t.id], ParcelsOf(w.orders[t.id].lines);
    assert order in w.orders;
    forall p | p in ps ensures p.quantity >= 0 {
      var i :| 0 <= i < |ps| && ps[i] == p;
      assert order.lines[i] in order.lines;
    }
    assert forall o :: o in Commit(w, t).orders ==> o in w.orders || o == order.(status := t.to);
  }

  lemma StepStaysPhysical(s: Split, step: SplitStep)
    requires Physical(s.world) && PositiveRequests(step)
    ensures Physical(SplitDo(s, step).world)
  {
    var w := s.world;
    match step
    case Read(_) =>
    case CommitAt(k) =>
      if k < |s.pending| && s.pending[k].id < |w.orders| {
        CommitStaysPhysical(w, s.pending[k]);
      }
    case AbortAt(_) =>
    case Whole(st) =>
      match st {
        case Place(request, faults) => CreateStaysPhysical(w, request, faults);
        case On(call) =>
          if Decide(w, call).Proceed? {
            CommitStaysPhysical(w, Decide(w, call).ticket);
          }
        case Return(_, _) =>
        case Shopping(_) =>
      }
    case Late(request, faults) =>
      if request.lines != [] {
        LateStaysPhysical(w, request, faults);
      }
  }

  /** With positive order quantities no interleaving and no failure drives a stock counter below zero. */
  lemma {:induction false} StockStaysNonNegative(s: Split, steps: seq<SplitStep>)
    requires Physical(s.world) && forall step :: step in steps ==> PositiveRequests(step)
    ensures Physical(SplitRun(s, steps).world)
    decreases |steps|
  {
    if steps != [] {
      assert steps[0] in steps;
      assert forall step :: step in steps[1..] ==> step in steps;
      StepStaysPhysical(s, steps[0]);
      StockStaysNonNegative(SplitDo(s, steps[0]), steps[1..]);
    }
  }

  /** From an opening with no negative stock none is ever reached. */
  lemma ReachableIsPhysical(shop: Shop.Shop, counters: Counters, steps: seq<SplitStep>)
    requires NonNegative(counters) && forall step :: step in steps ==> PositiveRequests(step)
    ensures Physical(Reached(shop, counters, steps).world)
  {
    StockStaysNonNegative(Split(Opening(shop, counters), []), steps);
  }
}
