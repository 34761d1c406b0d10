/**
 Runs in which a status handler reads the order in one step and commits in a later one, and a checkout looks its
 idempotency key up some time before it goes on, with anything in between. Whole atomic steps are steps too, so
 whatever holds here holds for atomic runs.
 */
module Interleaving {
  import opened Base
  import opened Stock
  import opened Orders
  import opened OrderViews
  import Shop

  datatype Split = Split(world: World, pending: seq<Ticket>)

  datatype SplitStep =
    | Read(call: Call)
    | CommitAt(k: nat)
    | AbortAt(k: nat)
    | Whole(step: Step)
    | Late(request: OrderRequest, faults: Faults)

  function Without(ts: seq<Ticket>, k: nat): seq<Ticket>
    requires k < |ts|
  {
    ts[..k] + ts[k + 1..]
  }

  /**
   A ticket waits for an order that exists; `SplitDo` ignores a number that names no ticket. A late checkout found its
   key unknown at some earlier time and goes on without looking again.
   */
  ghost function SplitDo(s: Split, step: SplitStep): Split {
    match step
    case Read(call) =>
      var d := Decide(s.world, call);
      if d.Proceed? then s.(pending := s.pending + [d.ticket]) else s
    case CommitAt(k) =>
      if k < |s.pending| && s.pending[k].id < |s.world.orders|
      then Split(Commit(s.world, s.pending[k]), Without(s.pending, k)) else s
    case AbortAt(k) => if k < |s.pending| then s.(pending := Without(s.pending, k)) else s
    case Whole(st) => s.(world := Do(s.world, st))
    case Late(request, faults) =>
      if request.lines == [] then s else s.(world := AfterKeyCheck(s.world, request, faults).world)
  }

  ghost function SplitRun(s: Split, steps: seq<SplitStep>): Split
    decreases |steps|
  {
    if steps == [] then s else SplitRun(SplitDo(s, steps[0]), steps[1..])
  }

  /** Atomic runs are the split runs made of whole steps. */
  lemma {:induction false} AtomicRunsAreSplitRuns(w: World, steps: seq<Step>, pending: seq<Ticket>)
    ensures SplitRun(Split(w, pending), seq(|steps|, i requires 0 <= i < |steps| => Whole(steps[i]))) == Split(Run(w, steps), pending)
    decreases |steps|
  {
    var whole := seq(|steps|, i requires 0 <= i < |steps| => Whole(steps[i]));
    if steps != [] {
      assert whole[1..] == seq(|steps| - 1, i requires 0 <= i < |steps| - 1 => Whole(steps[1..][i]));
      AtomicRunsAreSplitRuns(Do(w, steps[0]), steps[1..], pending);
    }
  }

  /** A handler is its read and its commit back to back. */
  lemma HandlerIsReadThenCommit(s: Split, call: Call)
    ensures var k := |s.pending|;
            Decide(s.world, call).Proceed? ==>
              SplitDo(SplitDo(s, Read(call)), CommitAt(k)) == SplitDo(s, Whole(On(call)))
  {
    var d := Decide(s.world, call);
    if d.Proceed? {
      assert Without(s.pending + [d.ticket], |s.pending|) == s.pending;
    }
  }

  function Uncached(w: World): World {
    w.(cache := map[])
  }

  /** But for the cache a late checkout does what an atomic one does when no key is known. */
  lemma LateIsCreate(w: World, request: OrderRequest, faults: Faults)
    requires request.lines != []
    ensures var late, create := AfterKeyCheck(w, request, faults).world, CreateOrder(Uncached(w), request, faults).world;
            late == create.(cache := late.cache)
  {
    var priced := Repriced(w.shop.catalog, request.lines);
    if priced.Ok? {
      UncachedPersist(AfterReserving(w, priced.value, faults.reserve), request, priced.value, faults.save);
    }
  }

  lemma UncachedPersist(w: World, request: OrderRequest, ls: seq<Line>, save: SaveFault)
    requires ls != []
    ensures var w1, w2 := Persist(w, request, ls, save).world, Persist(Uncached(w), request, ls, save).world;
            w1 == w2.(cache := w1.cache)
  {
  }

  // ---- Tickets ----

  /** Only cancellations and refunds hand stock back, and a mail goes out exactly for the notifiable statuses. */
  predicate GoodTicket(t: Ticket) {
    && (t.notify <==> t.to in {Shipped, Delivered, Cancelled, Refunded})
    && (t.restock ==> t.to in {Cancelled, Refunded})
  }

  lemma DecidesGoodTickets(w: World, call: Call)
    ensures Decide(w, call).Proceed? ==> GoodTicket(Decide(w, call).ticket)
  {
  }

  /** The transaction a step commits, if any. */
  ghost function Committed(s: Split, step: SplitStep): (t: Option<Ticket>)
    ensures t.Some? ==> t.value.id < |s.world.orders|
  {
    match step
    case CommitAt(k) =>
      if k < |s.pending| && s.pending[k].id < |s.world.orders| then Some(s.pending[k]) else None
    case Whole(st) =>
      if st.On? && Decide(s.world, st.call).Proceed? then Some(Decide(s.world, st.call).ticket) else None
    case _ => None
  }

  /** An order's view after the commit of a step. */
  function ViewAfter(v: View, committed: Option<Ticket>, id: nat, now: int): View {
    if committed.Some? && committed.value.id == id then Moved(v, committed.value, now) else v
  }

  /** A checkout step whose item and history writes do not fail. */
  predicate Logs(step: SplitStep) {
    match step
    case Whole(st) => CreationLogged(st)
    case Late(request, faults) => CreationLogged(Place(request, faults))
    case _ => true
  }

  /** A checkout step that adds an order: its key is unknown or not looked at, and it gets as far as the order row. */
  predicate Adds(s: Split, step: SplitStep) {
    match step
    case Whole(Place(request, faults)) => Replay(s.world, request.key).None? && Creates(s.world, request, faults)
    case Late(request, faults) => Creates(s.world, request, faults)
    case _ => false
  }

  lemma AddsExactly(s: Split, step: SplitStep)
    ensures |SplitDo(s, step).world.orders| == |s.world.orders| + if Adds(s, step) then 1 else 0
  {
    match step
    case Whole(Place(request, faults)) =>
      if request.lines != [] {
        CreatesExactly(s.world, request, faults);
      }
    case Late(request, faults) =>
      if request.lines != [] {
        CreatesExactly(s.world, request, faults);
      }
    case _ =>
  }

  /** The orders after a step: the one whose transaction was committed has moved, the others stay, new ones are brand new. */
  ghost predicate SplitEvolves(s: Split, w': World, step: SplitStep) {
    && |s.world.orders| <= |w'.orders|
    && (forall id: nat :: id < |s.world.orders| ==>
          ViewOf(w', id) == ViewAfter(ViewOf(s.world, id), Committed(s, step), id, s.world.shop.now))
    && (forall id: nat :: |s.world.orders| <= id < |w'.orders| ==> BrandNew(ViewOf(w', id), Logs(step)))
  }

  lemma SplitStepEvolves(s: Split, step: SplitStep)
    requires Closed(s.world)
    ensures SplitEvolves(s, SplitDo(s, step).world, step)
  {
    var t := Committed(s, step);
    match step
    case CommitAt(k) =>
      if t.Some? {
        forall id: nat | id < |s.world.orders|
          ensures ViewOf(SplitDo(s, step).world, id) == ViewAfter(ViewOf(s.world, id), t, id, s.world.shop.now)
        {
          CommitViews(s.world, t.value, id);
        }
      }
    case Whole(st) =>
      StepEvolves(s.world, st);
      WholeStepEvolves(s, st, Do(s.world, st));
    case Late(request, faults) =>
      if request.lines != [] {
        LateEvolves(s, request, faults);
      }
    case _ =>
  }

  lemma LateEvolves(s: Split, request: OrderRequest, faults: Faults)
    requires Closed(s.world) && request.lines != []
    ensures SplitEvolves(s, AfterKeyCheck(s.world, request, faults).world, Late(request, faults))
  {
    var w, w' := Uncached(s.world), AfterKeyCheck(s.world, request, faults).world;
    var created := Do(w, Place(request, faults));
    LateIsCreate(s.world, request, faults);
    StepEvolves(w, Place(request, faults));
    forall id: nat | id < |w'.orders|
      ensures id < |w.orders| ==> ViewOf(w', id) == ViewOf(s.world, id)
      ensures id >= |w.orders| ==> BrandNew(ViewOf(w', id), CreationLogged(Place(request, faults)))
    {
      assert ViewOf(w', id) == ViewOf(created, id);
      if id < |w.orders| {
        assert ViewOf(w, id) == ViewOf(s.world, id);
      } else {
        assert BrandNew(ViewOf(created, id), CreationLogged(Place(request, faults)));
      }
    }
  }

  lemma WholeStepEvolves(s: Split, st: Step, w': World)
    requires Evolves(s.world, w', st)
    ensures SplitEvolves(s, w', Whole(st))
  {
  }

  // ---- The audit log under interleaving ----

  function NotifiedBy(rows: seq<Row>, userId: string, id: nat): seq<Mail> {
    if rows == [] then []
    else
      var last := rows[|rows| - 1];
      NotifiedBy(rows[..|rows| - 1], userId, id)
      + if last.to in {Shipped, Delivered, Cancelled, Refunded} then [StatusUpdate(userId, id, last.to)] else []
  }

  /** The status is that of the last row, and the owner was mailed once per row with a notifiable status, in order. */
  ghost predicate AuditedView(v: View, id: nat) {
    && v.order.status == (if v.rows == [] then Pending else v.rows[|v.rows| - 1].to)
    && v.updates == NotifiedBy(v.rows, v.order.userId, id)
  }

  ghost predicate Audited(w: World) {
    forall id: nat :: id < |w.orders| ==> AuditedView(ViewOf(w, id), id)
  }

  /** Rows carry times in the order they were written, none in the future. */
  ghost predicate LogInOrder(w: World) {
    && (forall i, j :: 0 <= i < j < |w.log| ==> w.log[i].changedAt <= w.log[j].changedAt)
    && (forall r :: r in w.log ==> r.changedAt <= w.shop.now)
  }

  ghost predicate Sound(s: Split) {
    && Closed(s.world)
    && Audited(s.world)
    && LogInOrder(s.world)
    && (forall t :: t in s.pending ==> t.id < |s.world.orders| && GoodTicket(t))
  }

  lemma MovedIsAudited(v: View, t: Ticket, now: int)
    requires AuditedView(v, t.id) && GoodTicket(t)
    ensures AuditedView(Moved(v, t, now), t.id)
  {
    assert Moved(v, t, now).rows[..|v.rows|] == v.rows;
  }

  lemma CommitIsSound(w: World, t: Ticket)
    requires Closed(w) && Audited(w) && LogInOrder(w) && t.id < |w.orders| && GoodTicket(t)
    ensures Closed(Commit(w, t)) && Audited(Commit(w, t)) && LogInOrder(Commit(w, t))
  {
    CommitStaysClosed(w, t);
    forall id: nat | id < |w.orders| ensures AuditedView(ViewOf(Commit(w, t), id), id) {
      CommitViews(w, t, id);
      MovedIsAudited(ViewOf(w, t.id), t, w.shop.now);
    }
  }

  lemma PlaceIsAudited(w: World, w': World, step: Step)
    requires Audited(w) && Evolves(w, w', step) && step.Place?
    ensures Audited(w')
  {
    forall id: nat | id < |w'.orders| ensures AuditedView(ViewOf(w', id), id) {
      if id < |w.orders| {
        assert ViewOf(w', id) == ViewOf(w, id);
      } else {
        BrandNewIsAudited(ViewOf(w', id), id, CreationLogged(step));
      }
    }
  }

  lemma BrandNewIsAudited(v: View, id: nat, logged: bool)
    requires BrandNew(v, logged)
    ensures AuditedView(v, id)
  {
    if v.rows != [] {
      assert v.rows[..0] == [];
    }
  }

  lemma PlaceKeepsLogInOrder(w: World, request: OrderRequest, faults: Faults)
    requires LogInOrder(w)
    ensures LogInOrder(CreateOrder(w, request, faults).world)
  {
    CreateTables(w, request, faults);
    CreateKeepsClock(w, request, faults);
  }

  lemma CreateKeepsClock(w: World, request: OrderRequest, faults: Faults)
    ensures CreateOrder(w, request, faults).world.shop.now == w.shop.now
  {
    var priced := Repriced(w.shop.catalog, request.lines);
    if priced.Ok? {
      assert AfterReserving(w, priced.value, faults.reserve).shop == w.shop;
    }
  }

  lemma StepKeepsClock(w: World, step: Step)
    ensures w.shop.now <= Do(w, step).shop.now
  {
    match step
    case Place(request, faults) => CreateKeepsClock(w, request, faults);
    case On(call) => HandleKeepsShop(w, call);
    case Return(_, _) =>
    case Shopping(s) => Shop.ClockNeverGoesBack(w.shop, s);
  }

  lemma HandleKeepsShop(w: World, call: Call)
    ensures Handle(w, call).shop == w.shop
  {
  }

  lemma HandleIsSound(w: World, call: Call)
    requires Closed(w) && Audited(w) && LogInOrder(w)
    ensures Closed(Handle(w, call)) && Audited(Handle(w, call)) && LogInOrder(Handle(w, call))
  {
    DecidesGoodTickets(w, call);
    if Decide(w, call).Proceed? {
      CommitIsSound(w, Decide(w, call).ticket);
    }
  }

  lemma WholeStepIsSound(w: World, step: Step)
    requires Closed(w) && Audited(w) && LogInOrder(w)
    ensures var w' := Do(w, step); Closed(w') && Audited(w') && LogInOrder(w') && |w.orders| <= |w'.orders|
  {
    StepEvolves(w, step);
    match step
    case Place(request, faults) =>
      PlaceIsAudited(w, Do(w, step), step);
      PlaceKeepsLogInOrder(w, request, faults);
    case On(call) => HandleIsSound(w, call);
    case Return(_, _) => SameViewsSameAudit(w, Do(w, step));
    case Shopping(s) =>
      Shop.ClockNeverGoesBack(w.shop, s);
      SameViewsSameAudit(w, Do(w, step));
  }

  lemma StepIsSound(s: Split, step: SplitStep)
    requires Sound(s)
    ensures Sound(SplitDo(s, step))
  {
    match step
    case Read(call) => DecidesGoodTickets(s.world, call);
    case CommitAt(k) =>
      if k < |s.pending| {
        CommitIsSound(s.world, s.pending[k]);
      }
    case AbortAt(k) =>
    case Whole(st) => WholeStepIsSound(s.world, st);
    case Late(request, faults) =>
      if request.lines != [] {
        LateIsSound(s.world, request, faults);
      }
  }

  lemma LateIsSound(w: World, request: OrderRequest, faults: Faults)
    requires Closed(w) && Audited(w) && LogInOrder(w) && request.lines != []
    ensures var w' := AfterKeyCheck(w, request, faults).world;
            Closed(w') && Audited(w') && LogInOrder(w') && |w.orders| <= |w'.orders|
  {
    SameViewsSameAudit(w, Uncached(w));
    WholeStepIsSound(Uncached(w), Place(request, faults));
    LateIsCreate(w, request, faults);
    SameViewsSameAudit(Do(Uncached(w), Place(request, faults)), AfterKeyCheck(w, request, faults).world);
  }

  lemma SameViewsSameAudit(w: World, w': World)
    requires Audited(w) && LogInOrder(w) && w.shop.now <= w'.shop.now
    requires w'.orders == w.orders && w'.log == w.log && w'.mail == w.mail && w'.returned == w.returned
    ensures Audited(w') && LogInOrder(w')
  {
    forall id: nat | id < |w'.orders| ensures AuditedView(ViewOf(w', id), id) {
      assert ViewOf(w', id) == ViewOf(w, id);
    }
  }

  /**
   Whatever the interleaving and the faults: every order's status is the one of its last row, its owner was mailed
   exactly once per row with a notifiable status, and rows are in time order.
   */
  lemma {:induction false} AuditSurvivesInterleaving(s: Split, steps: seq<SplitStep>)
    requires Sound(s)
    ensures Sound(SplitRun(s, steps))
    decreases |steps|
  {
    if steps != [] {
      StepIsSound(s, steps[0]);
      AuditSurvivesInterleaving(SplitDo(s, steps[0]), steps[1..]);
    }
  }

  /** Rows are only ever added at the end. */
  lemma {:induction false} LogOnlyGrows(s: Split, steps: seq<SplitStep>)
    ensures s.world.log <= SplitRun(s, steps).world.log
    decreases |steps|
  {
    if steps != [] {
      LogGrows(s, steps[0]);
      LogOnlyGrows(SplitDo(s, steps[0]), steps[1..]);
    }
  }

  lemma LogGrows(s: Split, step: SplitStep)
    ensures s.world.log <= SplitDo(s, step).world.log
  {
    if step.Whole? && step.step.Place? {
      CreateTables(s.world, step.step.request, step.step.faults);
    } else if step.Late? && step.request.lines != [] {
      LateIsCreate(s.world, step.request, step.faults);
      CreateTables(Uncached(s.world), step.request, step.faults);
    }
  }

  lemma OpeningIsSound(shop: Shop.Shop, counters: Counters)
    ensures Sound(Split(Opening(shop, counters), []))
  {
  }

  /** A state the system can reach from its opening, handlers interleaved and calls and writes failing at will. */
  ghost function Reached(shop: Shop.Shop, counters: Counters, steps: seq<SplitStep>): Split {
    SplitRun(Split(Opening(shop, counters), []), steps)
  }

  /** So in every reachable state the log, the statuses and the status mails agree. */
  lemma ReachableIsSound(shop: Shop.Shop, counters: Counters, steps: seq<SplitStep>)
    ensures Sound(Reached(shop, counters, steps))
  {
    OpeningIsSound(shop, counters);
    AuditSurvivesInterleaving(Split(Opening(shop, counters), []), steps);
  }

  lemma SplitStaysClosed(s: Split, step: SplitStep)
    requires Closed(s.world)
    ensures Closed(SplitDo(s, step).world)
  {
    match step
    case CommitAt(k) =>
      if Committed(s, step).Some? {
        CommitStaysClosed(s.world, s.pending[k]);
      }
    case Whole(st) => StepEvolves(s.world, st);
    case Late(request, faults) =>
      if request.lines != [] {
        LateIsCreate(s.world, request, faults);
        StepEvolves(Uncached(s.world), Place(request, faults));
      }
    case _ =>
  }

  /** A run's first step: some closed state the orders evolve into, from which the rest of the run goes on. */
  lemma FirstClosedStep(s: Split, steps: seq<SplitStep>) returns (s': Split)
    requires Closed(s.world) && steps != []
    ensures s' == SplitDo(s, steps[0]) && Closed(s'.world) && SplitEvolves(s, s'.world, steps[0])
    ensures SplitRun(s, steps) == SplitRun(s', steps[1..])
  {
    s' := SplitDo(s, steps[0]);
    SplitStaysClosed(s, steps[0]);
    SplitStepEvolves(s, steps[0]);
  }

  /** A run's first step: some sound state the orders evolve into, from which the rest of the run goes on. */
  lemma FirstSplitStep(s: Split, steps: seq<SplitStep>) returns (s': Split)
    requires Sound(s) && steps != []
    ensures s' == SplitDo(s, steps[0]) && Sound(s') && SplitEvolves(s, s'.world, steps[0])
    ensures SplitRun(s, steps) == SplitRun(s', steps[1..])
  {
    s' := FirstClosedStep(s, steps);
    StepIsSound(s, steps[0]);
  }

  // ---- What interleaving breaks ----

  /** Each row continues from the status the previous row reached. */
  ghost predicate Linked(rows: seq<Row>) {
    && (rows != [] ==> if rows[0].from == None then rows[0].to == Pending else rows[0].from == Some(Pending))
    && forall i :: 1 <= i < |rows| ==> rows[i].from == Some(rows[i - 1].to)
  }

  /** A commit keeps the path unbroken exactly when the order still has the status the handler read. */
  lemma CommitKeepsPath(w: World, t: Ticket)
    requires Audited(w) && t.id < |w.orders| && Linked(RowsOf(w.log, t.id))
    ensures Linked(RowsOf(Commit(w, t).log, t.id)) <==> w.orders[t.id].status == t.from
  {
    CommitViews(w, t, t.id);
    assert AuditedView(ViewOf(w, t.id), t.id);
    LinkedExactly(ViewOf(w, t.id), t, w.shop.now);
  }

  ghost predicate Paths(w: World) {
    forall id: nat :: id < |w.orders| ==> Linked(RowsOf(w.log, id))
  }

  /** A step commits nothing, or on an order that still has the status the handler read. */
  ghost predicate Fresh(s: Split, step: SplitStep) {
    match Committed(s, step)
    case None => true
    case Some(t) => s.world.orders[t.id].status == t.from
  }

  ghost predicate AllFresh(s: Split, steps: seq<SplitStep>)
    decreases |steps|
  {
    steps == [] || (Fresh(s, steps[0]) && AllFresh(SplitDo(s, steps[0]), steps[1..]))
  }

  lemma LinkedExactly(v: View, t: Ticket, now: int)
    requires AuditedView(v, t.id) && Linked(v.rows)
    ensures Linked(Moved(v, t, now).rows) <==> v.order.status == t.from
  {
    var n, rows := |v.rows|, Moved(v, t, now).rows;
    assert rows == v.rows + [rows[n]] && rows[n].from == Some(t.from);
    if n > 0 && t.from != v.order.status {
      assert rows[n].from != Some(rows[n - 1].to);
    }
  }

  lemma StepKeepsPaths(s: Split, w': World, step: SplitStep)
    requires Audited(s.world) && Paths(s.world) && SplitEvolves(s, w', step)
    ensures Paths(w') <==> Fresh(s, step)
  {
    var t := Committed(s, step);
    forall id: nat | id < |w'.orders|
      ensures Linked(RowsOf(w'.log, id)) <==>
              (t.Some? && t.value.id == id ==> s.world.orders[id].status == t.value.from)
    {
      assert RowsOf(w'.log, id) == ViewOf(w', id).rows;
      if id < |s.world.orders| {
        assert AuditedView(ViewOf(s.world, id), id) && Linked(RowsOf(s.world.log, id));
        if t.Some? && t.value.id == id {
          LinkedExactly(ViewOf(s.world, id), t.value, s.world.shop.now);
        }
      } else {
        assert BrandNew(ViewOf(w', id), Logs(step));
      }
    }
  }

  /** The log only grows, so a broken path stays broken. */
  lemma StepHealsNoPath(s: Split, w': World, step: SplitStep)
    requires SplitEvolves(s, w', step) && Paths(w')
    ensures Paths(s.world)
  {
    forall id: nat | id < |s.world.orders| ensures Linked(RowsOf(s.world.log, id)) {
      var rows, rows' := ViewOf(s.world, id).rows, ViewOf(w', id).rows;
      assert Linked(RowsOf(w'.log, id)) && rows <= rows';
      assert rows != [] ==> rows[0] == rows'[0];
      forall i | 1 <= i < |rows| ensures rows[i].from == Some(rows[i - 1].to) {
        assert rows[i] == rows'[i] && rows[i - 1] == rows'[i - 1];
      }
    }
  }

  lemma {:induction false} PathsNeverHeal(s: Split, steps: seq<SplitStep>)
    requires Sound(s) && Paths(SplitRun(s, steps).world)
    ensures Paths(s.world)
    decreases |steps|
  {
    if steps != [] {
      var s' := FirstSplitStep(s, steps);
      PathsNeverHeal(s', steps[1..]);
      StepHealsNoPath(s, s'.world, steps[0]);
    }
  }

  /** After any run all paths are unbroken exactly when every commit of the run found the status its handler had read. */
  lemma {:induction false} PathsUnbrokenExactly(s: Split, steps: seq<SplitStep>)
    requires Sound(s) && Paths(s.world)
    ensures Paths(SplitRun(s, steps).world) <==> AllFresh(s, steps)
    decreases |steps|
  {
    if steps != [] {
      var s' := FirstSplitStep(s, steps);
      StepKeepsPaths(s, s'.world, steps[0]);
      if Fresh(s, steps[0]) {
        PathsUnbrokenExactly(s', steps[1..]);
      } else if Paths(SplitRun(s', steps[1..]).world) {
        PathsNeverHeal(s', steps[1..]);
      }
    }
  }

  /** Two handlers that both read before either commits. */
  lemma RaceOutcome(w: World, a: Call, b: Call)
    requires Decide(w, a).Proceed? && Decide(w, b).Proceed?
    ensures SplitRun(Split(w, []), [Read(a), Read(b), CommitAt(0), CommitAt(0)]) ==
            Split(Commit(Commit(w, Decide(w, a).ticket), Decide(w, b).ticket), [])
  {
    var ta, tb := Decide(w, a).ticket, Decide(w, b).ticket;
    var steps := [Read(a), Read(b), CommitAt(0), CommitAt(0)];
    var s2 := SplitDo(SplitDo(Split(w, []), steps[0]), steps[1]);
    assert s2 == Split(w, [ta, tb]);
    assert SplitDo(s2, CommitAt(0)) == Split(Commit(w, ta), [tb]);
    assert steps[1..][1..] == [CommitAt(0), CommitAt(0)];
    assert SplitRun(Split(w, []), steps) == SplitRun(s2, [CommitAt(0), CommitAt(0)]);
    assert [CommitAt(0), CommitAt(0)][1..] == [CommitAt(0)];
  }

  lemma LateCommitBreaksPath(w: World, t0: Ticket, t1: Ticket)
    requires Audited(w) && t0.id == t1.id < |w.orders| && GoodTicket(t0)
    requires t0.from == w.orders[t0.id].status && t1.from != t0.to && Linked(RowsOf(w.log, t0.id))
    ensures var w' := Commit(Commit(w, t0), t1);
            && !Linked(RowsOf(w'.log, t0.id))
            && ViewOf(w', t0.id) == Moved(Moved(ViewOf(w, t0.id), t0, w.shop.now), t1, w.shop.now)
  {
    var id, v, now := t0.id, ViewOf(w, t0.id), w.shop.now;
    assert AuditedView(v, id);
    CommitViews(w, t0, id);
    CommitViews(Commit(w, t0), t1, id);
    LinkedExactly(v, t0, now);
    MovedIsAudited(v, t0, now);
    LinkedExactly(Moved(v, t0, now), t1, now);
  }

  /**
   A payment confirmation and the owner's cancellation that both read the order while it is pending both commit:
   the log leaves PENDING twice, and the confirmed order ends up cancelled with its stock handed back.
   */
  lemma InterleavingBreaksPath(w: World, id: nat)
    requires id < |w.orders| && w.orders[id].status == Pending
    requires Audited(w) && Linked(RowsOf(w.log, id))
    ensures var race := [Read(Confirm(id)), Read(UserCancel(id, w.orders[id].userId)), CommitAt(0), CommitAt(0)];
            var w' := SplitRun(Split(w, []), race).world;
            && id < |w'.orders|
            && !Linked(RowsOf(w'.log, id))
            && ViewOf(w', id).order.status == Cancelled
            && ViewOf(w', id).handed == ViewOf(w, id).handed + 1
  {
    RaceOutcome(w, Confirm(id), UserCancel(id, w.orders[id].userId));
    LateCommitBreaksPath(w, Decide(w, Confirm(id)).ticket, Cancellation(id, w.orders[id].userId, None));
  }
}
