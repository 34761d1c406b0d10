/** What atomic handlers guarantee about the life of an order. */
module Lifecycle {
  import opened Base
  import opened Stock
  import opened Orders
  import opened OrderViews
  import opened Interleaving
  import opened Returns
  import Shop

  // ---- The unbroken path ----

  /** An atomic handler commits from the status the order has. */
  lemma TicketFromCurrent(w: World, step: Step, id: nat)
    requires id < |w.orders|
    ensures match TicketOn(w, step, id)
            case None => true
            case Some(t) => t.id == id && t.from == w.orders[id].status && GoodTicket(t)
  {
  }

  lemma PathsEvolve(w: World, w': World, step: Step)
    requires Audited(w) && Paths(w) && Evolves(w, w', step)
    ensures Paths(w')
  {
    forall id: nat | id < |w'.orders| ensures Linked(RowsOf(w'.log, id)) {
      var v' := ViewOf(w', id);
      assert RowsOf(w'.log, id) == v'.rows;
      if id < |w.orders| {
        assert AuditedView(ViewOf(w, id), id) && Linked(RowsOf(w.log, id));
        TicketFromCurrent(w, step, id);
        var t := TicketOn(w, step, id);
        if t.Some? {
          LinkedExactly(ViewOf(w, id), t.value, w.shop.now);
        }
      } else {
        assert BrandNew(v', CreationLogged(step));
      }
    }
  }

  /** With atomic handlers the rows of each order form an unbroken path, whatever fails around them. */
  lemma {:induction false} AtomicPathsUnbroken(w: World, steps: seq<Step>)
    requires Sound(Split(w, [])) && Paths(w)
    ensures Sound(Split(Run(w, steps), [])) && Paths(Run(w, steps))
    decreases |steps|
  {
    if steps != [] {
      StepIsSound(Split(w, []), Whole(steps[0]));
      var w' := FirstStep(w, steps);
      PathsEvolve(w, w', steps[0]);
      AtomicPathsUnbroken(w', steps[1..]);
    }
  }

  predicate StartedView(v: View) {
    v.rows != [] && v.rows[0].from == None && v.rows[0].to == Pending
  }

  /** Every order's log opens with null -> PENDING. */
  ghost predicate Started(w: World) {
    forall id: nat :: id < |w.orders| ==> StartedView(ViewOf(w, id))
  }

  /** A step adds no order, or one with its creation row. */
  predicate StartsLogged(s: Split, step: SplitStep) {
    Adds(s, step) ==> Logs(step)
  }

  ghost predicate AllStartLogged(s: Split, steps: seq<SplitStep>)
    decreases |steps|
  {
    steps == [] || (StartsLogged(s, steps[0]) && AllStartLogged(SplitDo(s, steps[0]), steps[1..]))
  }

  lemma StepKeepsStarted(s: Split, w': World, step: SplitStep)
    requires Started(s.world) && SplitEvolves(s, w', step)
    requires |w'.orders| == |s.world.orders| + if Adds(s, step) then 1 else 0
    ensures Started(w') <==> StartsLogged(s, step)
  {
    forall id: nat | id < |w'.orders|
      ensures StartedView(ViewOf(w', id)) <==> id < |s.world.orders| || Logs(step)
    {
      if id < |s.world.orders| {
        assert StartedView(ViewOf(s.world, id));
      } else {
        assert BrandNew(ViewOf(w', id), Logs(step));
      }
    }
    if !StartsLogged(s, step) {
      assert !StartedView(ViewOf(w', |s.world.orders|));
    }
  }

  /** The log only grows, so an order without its creation row never gets one. */
  lemma StepStartsNothing(s: Split, w': World, step: SplitStep)
    requires SplitEvolves(s, w', step) && Started(w')
    ensures Started(s.world)
  {
    forall id: nat | id < |s.world.orders| ensures StartedView(ViewOf(s.world, id)) {
      assert StartedView(ViewOf(w', id));
    }
  }

  lemma {:induction false} StartedBefore(s: Split, steps: seq<SplitStep>)
    requires Closed(s.world) && Started(SplitRun(s, steps).world)
    ensures Started(s.world)
    decreases |steps|
  {
    if steps != [] {
      var s' := FirstClosedStep(s, steps);
      StartedBefore(s', steps[1..]);
      StepStartsNothing(s, s'.world, steps[0]);
    }
  }

  /**
   However handlers interleave and whatever fails: every order's log opens with null -> PENDING if and only if no
   checkout that adds an order has its item or its history write fail.
   */
  lemma {:induction false} PathsStartPending(s: Split, steps: seq<SplitStep>)
    requires Closed(s.world) && Started(s.world)
    ensures Started(SplitRun(s, steps).world) <==> AllStartLogged(s, steps)
    decreases |steps|
  {
    if steps != [] {
      var s' := FirstClosedStep(s, steps);
      AddsExactly(s, steps[0]);
      StepKeepsStarted(s, s'.world, steps[0]);
      if StartsLogged(s, steps[0]) {
        PathsStartPending(s', steps[1..]);
      } else if Started(SplitRun(s', steps[1..]).world) {
        StartedBefore(s', steps[1..]);
      }
    }
  }

  /** The same for every run of the system from its opening. */
  lemma ReachablePathsStartPending(shop: Shop.Shop, counters: Counters, steps: seq<SplitStep>)
    ensures Started(Reached(shop, counters, steps).world) <==> AllStartLogged(Split(Opening(shop, counters), []), steps)
  {
    PathsStartPending(Split(Opening(shop, counters), []), steps);
  }

  /** So then every order has a last row, and that row has its status. */
  lemma LastRowIsStatus(shop: Shop.Shop, counters: Counters, steps: seq<SplitStep>, id: nat)
    requires AllStartLogged(Split(Opening(shop, counters), []), steps)
    requires id < |Reached(shop, counters, steps).world.orders|
    ensures var w := Reached(shop, counters, steps).world;
            LastRow(w.log, id).Some? && LastRow(w.log, id).value.to == w.orders[id].status
  {
    var w := Reached(shop, counters, steps).world;
    ReachablePathsStartPending(shop, counters, steps);
    ReachableIsSound(shop, counters, steps);
    assert StartedView(ViewOf(w, id)) && AuditedView(ViewOf(w, id), id);
  }

  /** A checkout that adds an order leaves it without any row exactly when its item or its history write fails. */
  lemma UnloggedOrder(w: World, request: OrderRequest, faults: Faults)
    requires Closed(w) && Replay(w, request.key).None? && Creates(w, request, faults)
    ensures var w' := CreateOrder(w, request, faults).world;
            && |w'.orders| == |w.orders| + 1
            && (RowsOf(w'.log, |w.orders|) == [] <==> faults.save in {ItemRowsFail, HistoryRowFails})
  {
    CreatesExactly(w, request, faults);
    CreateTables(w, request, faults);
    AddedIsBrandNew(w, CreateOrder(w, request, faults).world, request, faults.save);
  }

  // ---- First resolution wins ----

  /** A payment event or a cancellation by the owner, for one order. */
  predicate Resolves(step: Step, id: nat, owner: string) {
    step.On? && step.call.id == id && (step.call.Confirm? || step.call.SagaCancel? || step.call == UserCancel(id, owner))
  }

  predicate IsUpdateOf(step: Step, id: nat) {
    step.On? && step.call.Update? && step.call.id == id
  }

  function FirstResolution(steps: seq<Step>, id: nat, owner: string): Option<Call> {
    if steps == [] then None
    else if Resolves(steps[0], id, owner) then Some(steps[0].call)
    else FirstResolution(steps[1..], id, owner)
  }

  /** What one resolving call makes of a pending order. */
  ghost predicate ResolvedBy(v: View, v': View, call: Call) {
    var to := if call.Confirm? then Confirmed else Cancelled;
    && v'.order == v.order.(status := to)
    && |v'.rows| == |v.rows| + 1 && v'.rows[..|v.rows|] == v.rows
    && var row := v'.rows[|v.rows|];
    && row.from == Some(Pending) && row.to == to
    && row.changedBy == (if call.UserCancel? then v.order.userId else SAGA_ACTOR)
    && row.notes == (if call.SagaCancel? then call.reason else None)
    && v'.handed == v.handed + (if to == Cancelled then 1 else 0)
    && v'.updates == v.updates + (if to == Cancelled then [StatusUpdate(v.order.userId, call.id, Cancelled)] else [])
  }

  lemma ResolvedIgnores(w: World, step: Step, id: nat)
    requires id < |w.orders| && w.orders[id].status in {Confirmed, Cancelled} && !IsUpdateOf(step, id)
    ensures TicketOn(w, step, id) == None
  {
  }

  /** A resolved order ignores payment events, cancellations and refunds. */
  lemma {:induction false} ResolvedStays(w: World, steps: seq<Step>, id: nat)
    requires Closed(w) && id < |w.orders| && w.orders[id].status in {Confirmed, Cancelled}
    requires forall step :: step in steps ==> !IsUpdateOf(step, id)
    ensures id < |Run(w, steps).orders| && ViewOf(Run(w, steps), id) == ViewOf(w, id)
    decreases |steps|
  {
    if steps != [] {
      var w' := FirstStep(w, steps);
      assert !IsUpdateOf(steps[0], id);
      assert forall step :: step in steps[1..] ==> step in steps;
      ResolvedIgnores(w, steps[0], id);
      assert ViewOf(w', id) == ViewOf(w, id);
      assert ViewOf(w', id).order == w'.orders[id];
      ResolvedStays(w', steps[1..], id);
    }
  }

  /** One step on a pending order. */
  lemma PendingStep(w: World, w': World, step: Step, id: nat)
    requires id < |w.orders| && w.orders[id].status == Pending && Evolves(w, w', step) && !IsUpdateOf(step, id)
    ensures if Resolves(step, id, w.orders[id].userId) then ResolvedBy(ViewOf(w, id), ViewOf(w', id), step.call)
            else ViewOf(w', id) == ViewOf(w, id)
  {
    assert ViewOf(w, id).order == w.orders[id];
  }

  /**
   For any finite mix of steps without an admin update of this pending order, the first payment event or owner's
   cancellation alone fixes its status: one row more, and the stock handed back and the cancellation mailed
   exactly once if it was a cancellation, never otherwise. Without such a step nothing about the order changes.
   */
  lemma {:induction false} FirstResolutionWins(w: World, steps: seq<Step>, id: nat)
    requires Closed(w) && id < |w.orders| && w.orders[id].status == Pending
    requires forall step :: step in steps ==> !IsUpdateOf(step, id)
    ensures id < |Run(w, steps).orders|
    ensures match FirstResolution(steps, id, w.orders[id].userId)
            case None => ViewOf(Run(w, steps), id) == ViewOf(w, id)
            case Some(call) => ResolvedBy(ViewOf(w, id), ViewOf(Run(w, steps), id), call)
    decreases |steps|
  {
    if steps != [] {
      var w' := FirstStep(w, steps);
      assert !IsUpdateOf(steps[0], id);
      assert forall step :: step in steps[1..] ==> step in steps;
      PendingStep(w, w', steps[0], id);
      assert ViewOf(w', id).order == w'.orders[id] && ViewOf(w, id).order == w.orders[id];
      if Resolves(steps[0], id, w.orders[id].userId) {
        ResolvedStays(w', steps[1..], id);
      } else {
        FirstResolutionWins(w', steps[1..], id);
      }
    }
  }

  // ---- Documented admin updates ----

  predicate Documented(from: Status, to: Status) {
    (from, to) in {(Confirmed, Processing), (Processing, Shipped), (Shipped, Delivered)}
  }

  /** Admin updates take only the documented edges. */
  ghost predicate Disciplined(w: World, step: Step) {
    step.On? && step.call.Update? && step.call.id < |w.orders| && step.call.status.Some? ==>
      Documented(w.orders[step.call.id].status, step.call.status.value)
  }

  ghost predicate DisciplinedRun(w: World, steps: seq<Step>)
    decreases |steps|
  {
    steps == [] || (Disciplined(w, steps[0]) && DisciplinedRun(Do(w, steps[0]), steps[1..]))
  }

  /** The number of statuses on the way to this one, itself included. */
  function Depth(s: Status): nat {
    match s
    case Pending => 1
    case Confirmed => 2
    case Processing => 3
    case Shipped => 4
    case Delivered => 5
    case Cancelled => 2
    case Refunded => 6
  }

  /** One row per status passed, less a creation row that failed. */
  ghost predicate LifeView(v: View) {
    |v.rows| + (if v.rows != [] && v.rows[0].from == None then 0 else 1) == Depth(v.order.status)
  }

  ghost predicate Lives(w: World) {
    forall id: nat :: id < |w.orders| ==> LifeView(ViewOf(w, id))
  }

  /** Every committed transaction of a disciplined step moves one level deeper, away from a non-terminal status. */
  lemma OneLevelDeeper(w: World, step: Step, id: nat)
    requires id < |w.orders| && Disciplined(w, step)
    ensures match TicketOn(w, step, id)
            case None => true
            case Some(t) =>
              && !Terminal(w.orders[id].status)
              && t.from == w.orders[id].status
              && Depth(t.to) == Depth(w.orders[id].status) + 1
  {
  }

  lemma LivesEvolve(w: World, w': World, step: Step)
    requires Lives(w) && Disciplined(w, step) && Evolves(w, w', step)
    ensures Lives(w')
  {
    forall id: nat | id < |w'.orders| ensures LifeView(ViewOf(w', id)) {
      if id < |w.orders| {
        OneLevelDeeper(w, step, id);
        assert LifeView(ViewOf(w, id)) && ViewOf(w, id).order == w.orders[id];
        var t := TicketOn(w, step, id);
        if t.Some? {
          LifeMoves(ViewOf(w, id), t.value, w.shop.now);
        }
      } else {
        assert BrandNew(ViewOf(w', id), CreationLogged(step));
      }
    }
  }

  lemma LifeMoves(v: View, t: Ticket, now: int)
    requires LifeView(v) && t.from == v.order.status && Depth(t.to) == Depth(v.order.status) + 1
    ensures LifeView(Moved(v, t, now))
  {
    var rows := Moved(v, t, now).rows;
    assert v.rows != [] ==> rows[0] == v.rows[0];
  }

  /** How many transactions a run commits on one order. */
  ghost function Commits(w: World, steps: seq<Step>, id: nat): nat
    decreases |steps|
  {
    if steps == [] then 0
    else (if TicketOn(w, steps[0], id).Some? then 1 else 0) + Commits(Do(w, steps[0]), steps[1..], id)
  }

  /**
   If admin updates take only the documented edges: after any run each order has one row per status it passed, so
   never more than six; each committed transaction uses up one of the at most five levels left; and cancelled and
   refunded orders never change again.
   */
  lemma {:induction false} LifecycleIsBounded(w: World, steps: seq<Step>)
    requires Closed(w) && Lives(w) && DisciplinedRun(w, steps)
    ensures |w.orders| <= |Run(w, steps).orders|
    ensures Closed(Run(w, steps)) && Lives(Run(w, steps))
    ensures forall id: nat :: id < |w.orders| ==>
              && Depth(w.orders[id].status) + Commits(w, steps, id) == Depth(ViewOf(Run(w, steps), id).order.status)
              && (Terminal(w.orders[id].status) ==> ViewOf(Run(w, steps), id) == ViewOf(w, id))
    decreases |steps|
  {
    if steps != [] {
      var w' := FirstStep(w, steps);
      LivesEvolve(w, w', steps[0]);
      LifecycleIsBounded(w', steps[1..]);
      forall id: nat | id < |w.orders|
        ensures Depth(w.orders[id].status) + Commits(w, steps, id) == Depth(ViewOf(Run(w, steps), id).order.status)
        ensures Terminal(w.orders[id].status) ==> ViewOf(Run(w, steps), id) == ViewOf(w, id)
      {
        OneLevelDeeper(w, steps[0], id);
        assert ViewOf(w', id).order == w'.orders[id] && ViewOf(w, id).order == w.orders[id];
      }
    }
  }

  /** The documented edges never cross into or out of the cancelled and refunded statuses. */
  lemma {:induction false} DisciplinedNeverCrosses(w: World, steps: seq<Step>)
    requires DisciplinedRun(w, steps)
    ensures NoneCross(w, steps)
    decreases |steps|
  {
    if steps != [] {
      DisciplinedNeverCrosses(Do(w, steps[0]), steps[1..]);
    }
  }

  /** So from the opening on these edges each order's stock is handed back once exactly when it is cancelled or refunded. */
  lemma DocumentedSingleReturn(shop: Shop.Shop, counters: Counters, steps: seq<Step>)
    requires DisciplinedRun(Opening(shop, counters), steps)
    ensures RightInEveryState(Opening(shop, counters), steps)
  {
    DisciplinedNeverCrosses(Opening(shop, counters), steps);
    ReachableAtomicSingleReturn(shop, counters, steps);
  }

  /** So no order of a run from the opening ever has more than six rows. */
  lemma AtMostSixRows(shop: Shop.Shop, counters: Counters, steps: seq<Step>, id: nat)
    requires DisciplinedRun(Opening(shop, counters), steps)
    requires id < |Run(Opening(shop, counters), steps).orders|
    ensures |RowsOf(Run(Opening(shop, counters), steps).log, id)| <= 6
  {
    LifecycleIsBounded(Opening(shop, counters), steps);
    SixRows(Run(Opening(shop, counters), steps), id);
  }

  lemma SixRows(w: World, id: nat)
    requires Lives(w) && id < |w.orders|
    ensures |RowsOf(w.log, id)| <= 6
  {
    assert LifeView(ViewOf(w, id));
  }

  // ---- The refund window ----

  lemma {:induction false} DeliveredAtIsARow(log: seq<Row>, id: nat)
    ensures match DeliveredAt(log, id)
            case None => forall r :: r in log ==> !IsDelivery(r, id)
            case Some(at) =>
              && (exists r :: r in log && IsDelivery(r, id) && r.changedAt == at)
              && (forall r :: r in log && IsDelivery(r, id) ==> r.changedAt <= at)
  {
    if log != [] {
      var n := |log| - 1;
      DeliveredAtIsARow(log[..n], id);
      assert log == log[..n] + [log[n]];
      assert log[n] in log;
      var before := DeliveredAt(log[..n], id);
      if before.Some? {
        var r :| r in log[..n] && IsDelivery(r, id) && r.changedAt == before.value;
        assert r in log;
      }
    }
  }

  lemma {:induction false} LastDeliveryIsLatest(log: seq<Row>, id: nat)
    requires forall i, j :: 0 <= i < j < |log| ==> log[i].changedAt <= log[j].changedAt
    requires var rows := RowsOf(log, id); rows != [] && rows[|rows| - 1].to == Delivered
    ensures var rows := RowsOf(log, id); DeliveredAt(log, id) == Some(rows[|rows| - 1].changedAt)
  {
    var n := |log| - 1;
    if log[n].orderId == id {
      DeliveredAtIsARow(log[..n], id);
      var before := DeliveredAt(log[..n], id);
      if before.Some? {
        var r :| r in log[..n] && r.changedAt == before.value;
        var i :| 0 <= i < n && log[i] == r;
      }
    } else {
      LastDeliveryIsLatest(log[..n], id);
    }
  }

  /** The last row of an order. */
  function LastRow(log: seq<Row>, id: nat): Option<Row> {
    var rows := RowsOf(log, id);
    if rows == [] then None else Some(rows[|rows| - 1])
  }

  /** In every sound state a delivered order's last row is the delivery that `findDeliveredAt` picks. */
  lemma DeliveryIsLastRow(w: World, id: nat)
    requires Audited(w) && LogInOrder(w) && id < |w.orders| && w.orders[id].status == Delivered
    ensures var last := LastRow(w.log, id);
            last.Some? && last.value.to == Delivered && DeliveredAt(w.log, id) == Some(last.value.changedAt)
  {
    assert AuditedView(ViewOf(w, id), id);
    LastDeliveryIsLatest(w.log, id);
  }

  /**
   In every sound state: a refund is granted exactly to the owner of a delivered order whose
   last row is at most thirty days old, and the missing-delivery-date error never occurs.
   */
  lemma RefundExactly(s: Split, id: nat, userId: string, reason: Option<string>)
    requires Sound(s)
    ensures var w, d := s.world, Decide(s.world, Refund(id, userId, reason));
            && d != Reject(Internal)
            && (d.Proceed? <==>
                  && id < |w.orders| && w.orders[id].userId == userId && w.orders[id].status == Delivered
                  && LastRow(w.log, id).Some?
                  && w.shop.now - LastRow(w.log, id).value.changedAt <= 30 * 24 * 3600 * 1000)
            && (d.Proceed? ==> d.ticket == Ticket(id, Delivered, Refunded, userId, reason, true, true))
  {
    if id < |s.world.orders| && s.world.orders[id].status == Delivered {
      DeliveryIsLastRow(s.world, id);
    }
  }

  /** A refund is granted exactly within the window, in every state the system can reach from its opening. */
  lemma ReachableRefundExactly(shop: Shop.Shop, counters: Counters, steps: seq<SplitStep>, id: nat, userId: string, reason: Option<string>)
    ensures var w, d := Reached(shop, counters, steps).world, Decide(Reached(shop, counters, steps).world, Refund(id, userId, reason));
            && d != Reject(Internal)
            && (d.Proceed? <==>
                  && id < |w.orders| && w.orders[id].userId == userId && w.orders[id].status == Delivered
                  && LastRow(w.log, id).Some?
                  && w.shop.now - LastRow(w.log, id).value.changedAt <= 30 * 24 * 3600 * 1000)
  {
    ReachableIsSound(shop, counters, steps);
    RefundExactly(Reached(shop, counters, steps), id, userId, reason);
  }
}
