/** When an order's stock is handed back exactly once: for each commit, and over whole runs. */
module Returns {
  import opened Base
  import opened Stock
  import opened Orders
  import opened OrderViews
  import opened Interleaving
  import Shop

  predicate Terminal(s: Status) {
    s in {Cancelled, Refunded}
  }

  /** The stock was handed back once if the order is cancelled or refunded, and not otherwise. */
  ghost predicate HandedRight(v: View) {
    v.handed == if Terminal(v.order.status) then 1 else 0
  }

  ghost predicate SingleReturns(w: World) {
    forall id: nat :: id < |w.orders| ==> HandedRight(ViewOf(w, id))
  }

  /**
   A transaction suits the order's present status: one that hands stock back finds the order not yet cancelled
   or refunded, and any other carries no order into or out of these two statuses. No handler checks this when it
   commits.
   */
  predicate Suits(status: Status, t: Ticket) {
    if t.restock then !Terminal(status) else Terminal(status) == Terminal(t.to)
  }

  lemma MovedHandsRight(v: View, t: Ticket, now: int)
    requires HandedRight(v) && GoodTicket(t)
    ensures HandedRight(Moved(v, t, now)) <==> Suits(v.order.status, t)
  {
  }

  /** A commit keeps an order's stock handed back exactly as it should be if and only if it suits the order's status. */
  lemma CommitKeepsSingleReturn(w: World, t: Ticket)
    requires t.id < |w.orders| && GoodTicket(t) && HandedRight(ViewOf(w, t.id))
    ensures HandedRight(ViewOf(Commit(w, t), t.id)) <==> Suits(w.orders[t.id].status, t)
  {
    CommitViews(w, t, t.id);
    MovedHandsRight(ViewOf(w, t.id), t, w.shop.now);
  }

  // ---- Interleaved runs ----

  ghost predicate StepSuits(s: Split, step: SplitStep) {
    match Committed(s, step)
    case None => true
    case Some(t) => Suits(s.world.orders[t.id].status, t)
  }

  /** Every transaction committed in the run suits the status it finds. */
  ghost predicate AllSuit(s: Split, steps: seq<SplitStep>)
    decreases |steps|
  {
    steps == [] || (StepSuits(s, steps[0]) && AllSuit(SplitDo(s, steps[0]), steps[1..]))
  }

  /** Stock is handed back right in every state of the run, the first and the last included. */
  ghost predicate RightThroughout(s: Split, steps: seq<SplitStep>)
    decreases |steps|
  {
    SingleReturns(s.world) && (steps == [] || RightThroughout(SplitDo(s, steps[0]), steps[1..]))
  }

  lemma CommitsGoodTickets(s: Split, step: SplitStep)
    requires Sound(s)
    ensures Committed(s, step).Some? ==> GoodTicket(Committed(s, step).value)
  {
  }

  lemma StepKeepsSingleReturns(s: Split, w': World, step: SplitStep)
    requires Sound(s) && SingleReturns(s.world) && SplitEvolves(s, w', step)
    ensures SingleReturns(w') <==> StepSuits(s, step)
  {
    var t := Committed(s, step);
    CommitsGoodTickets(s, step);
    forall id: nat | id < |w'.orders|
      ensures HandedRight(ViewOf(w', id)) <==> (t.Some? && t.value.id == id ==> Suits(s.world.orders[id].status, t.value))
    {
      if id < |s.world.orders| {
        assert HandedRight(ViewOf(s.world, id));
        if t.Some? && t.value.id == id {
          MovedHandsRight(ViewOf(s.world, id), t.value, s.world.shop.now);
        }
      } else {
        assert BrandNew(ViewOf(w', id), Logs(step));
      }
    }
  }

  /**
   However handlers interleave and whatever fails: in every state of the run each order's stock has been handed
   back once if it is cancelled or refunded and never otherwise, if and only if every commit suits the status it finds.
   */
  lemma {:induction false} SingleReturnExactly(s: Split, steps: seq<SplitStep>)
    requires Sound(s) && SingleReturns(s.world)
    ensures RightThroughout(s, steps) <==> AllSuit(s, steps)
    decreases |steps|
  {
    if steps != [] {
      var s' := FirstSplitStep(s, steps);
      StepKeepsSingleReturns(s, s'.world, steps[0]);
      if StepSuits(s, steps[0]) {
        SingleReturnExactly(s', steps[1..]);
      }
    }
  }

  lemma {:induction false} RightAtTheEnd(s: Split, steps: seq<SplitStep>)
    requires RightThroughout(s, steps)
    ensures SingleReturns(SplitRun(s, steps).world)
    decreases |steps|
  {
    if steps != [] {
      RightAtTheEnd(SplitDo(s, steps[0]), steps[1..]);
    }
  }

  /** The same for every run of the system from its opening. */
  lemma ReachableSingleReturn(shop: Shop.Shop, counters: Counters, steps: seq<SplitStep>)
    ensures var s := Split(Opening(shop, counters), []);
            RightThroughout(s, steps) <==> AllSuit(s, steps)
  {
    OpeningIsSound(shop, counters);
    SingleReturnExactly(Split(Opening(shop, counters), []), steps);
  }

  /** Two cancellations of a pending order that both read before either commits: the late one does not suit, and the stock goes back twice. */
  lemma RaceReturnsStockTwice(w: World, id: nat)
    requires id < |w.orders| && w.orders[id].status == Pending
    requires Audited(w) && Linked(RowsOf(w.log, id))
    ensures var race := [Read(SagaCancel(id, None)), Read(UserCancel(id, w.orders[id].userId)), CommitAt(0), CommitAt(0)];
            var w' := SplitRun(Split(w, []), race).world;
            id < |w'.orders| && ViewOf(w', id).handed == ViewOf(w, id).handed + 2
  {
    RaceOutcome(w, SagaCancel(id, None), UserCancel(id, w.orders[id].userId));
    LateCommitBreaksPath(w, Cancellation(id, SAGA_ACTOR, None), Cancellation(id, w.orders[id].userId, None));
  }

  // ---- Atomic runs ----

  /** An admin update that takes an order into or out of the cancelled and refunded statuses. */
  predicate Crosses(w: World, step: Step) {
    && step.On? && step.call.Update?
    && step.call.id < |w.orders| && step.call.status.Some?
    && Terminal(w.orders[step.call.id].status) != Terminal(step.call.status.value)
  }

  ghost predicate NoneCross(w: World, steps: seq<Step>)
    decreases |steps|
  {
    steps == [] || (!Crosses(w, steps[0]) && NoneCross(Do(w, steps[0]), steps[1..]))
  }

  ghost predicate RightInEveryState(w: World, steps: seq<Step>)
    decreases |steps|
  {
    SingleReturns(w) && (steps == [] || RightInEveryState(Do(w, steps[0]), steps[1..]))
  }

  /** An atomic handler commits what suits the order, unless it is a crossing update. */
  lemma HandlerSuits(w: World, step: Step, id: nat)
    requires id < |w.orders|
    ensures match TicketOn(w, step, id)
            case None => Crosses(w, step) ==> step.call.id != id
            case Some(t) => GoodTicket(t) && (Suits(w.orders[id].status, t) <==> !Crosses(w, step))
  {
  }

  lemma AtomicStepKeepsSingleReturns(w: World, w': World, step: Step)
    requires SingleReturns(w) && Evolves(w, w', step)
    ensures SingleReturns(w') <==> !Crosses(w, step)
  {
    forall id: nat | id < |w'.orders|
      ensures HandedRight(ViewOf(w', id)) <==> !(Crosses(w, step) && step.call.id == id)
    {
      if id < |w.orders| {
        assert HandedRight(ViewOf(w, id));
        HandlerSuits(w, step, id);
        var t := TicketOn(w, step, id);
        if t.Some? {
          MovedHandsRight(ViewOf(w, id), t.value, w.shop.now);
        }
      } else {
        assert BrandNew(ViewOf(w', id), CreationLogged(step));
      }
    }
    if Crosses(w, step) {
      assert !HandedRight(ViewOf(w', step.call.id));
    }
  }

  /**
   With atomic handlers and whatever fails: in every state of the run each order's stock has been handed back once
   if it is cancelled or refunded and never otherwise, if and only if no admin update crosses into or out of these
   two statuses.
   */
  lemma {:induction false} AtomicSingleReturnExactly(w: World, steps: seq<Step>)
    requires Closed(w) && SingleReturns(w)
    ensures RightInEveryState(w, steps) <==> NoneCross(w, steps)
    decreases |steps|
  {
    if steps != [] {
      var w' := FirstStep(w, steps);
      AtomicStepKeepsSingleReturns(w, w', steps[0]);
      if !Crosses(w, steps[0]) {
        AtomicSingleReturnExactly(w', steps[1..]);
      }
    }
  }

  /** The same for every atomic run of the system from its opening. */
  lemma ReachableAtomicSingleReturn(shop: Shop.Shop, counters: Counters, steps: seq<Step>)
    ensures RightInEveryState(Opening(shop, counters), steps) <==> NoneCross(Opening(shop, counters), steps)
  {
    AtomicSingleReturnExactly(Opening(shop, counters), steps);
  }

  /** A crossing update that the code accepts: an admin cancels a pending order, and no stock goes back. */
  lemma AdminCancelReturnsNothing(w: World, id: nat, changedBy: string)
    requires id < |w.orders| && w.orders[id].status == Pending
    ensures var w' := Do(w, On(Update(id, Some(Cancelled), changedBy, None)));
            && ViewOf(w', id).order.status == Cancelled
            && ViewOf(w', id).handed == ViewOf(w, id).handed
            && w'.counters == w.counters && w'.inflight == w.inflight
  {
    CommitViews(w, Decide(w, Update(id, Some(Cancelled), changedBy, None)).ticket, id);
    assert w.inflight + [] == w.inflight;
  }
}
