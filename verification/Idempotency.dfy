/** Replays of `createOrder` under an idempotency key. */
module Idempotency {
  import opened Base
  import opened Pricing
  import opened Stock
  import opened Orders
  import opened OrderViews
  import opened Interleaving
  import opened Accounting
  import Shop

  /** What persisting does to the cache: one entry for the new order, exactly when the call succeeds under a key. */
  lemma PersistCache(w: World, request: OrderRequest, ls: seq<Line>, save: SaveFault)
    requires ls != []
    ensures var c, order := Persist(w, request, ls, save), NewOrder(request, ls, w.shop.now);
            && c.world.shop.now == w.shop.now
            && (c.reply.Ok? ==> c.reply.value == Response(|w.orders|, order) && c.world.orders == w.orders + [Stored(order)])
            && c.world.cache == (if c.reply.Ok? && Present(request.key)
                                 then w.cache[request.key.value := Cached(request.userId, c.reply.value, w.shop.now + 24 * 3600 * 1000)]
                                 else w.cache)
  {
  }

  // ---- The cache over steps ----

  /** A write fails after the order row is in the database. */
  predicate FailsAfterOrderRow(save: SaveFault) {
    save in {ItemRowsFail, HistoryRowFails, CartClearFails, CacheFails}
  }

  lemma PersistForgets(w: World, request: OrderRequest, ls: seq<Line>, save: SaveFault)
    requires ls != [] && Present(request.key)
    ensures var c := Persist(w, request, ls, save);
            c.reply.Ok? <==> |c.world.orders| > |w.orders| && !FailsAfterOrderRow(save)
  {
  }

  /** A checkout that goes on stores its key exactly when it creates an order and no later write fails. */
  lemma CheckoutCache(w: World, request: OrderRequest, faults: Faults)
    requires request.lines != []
    ensures var c := AfterKeyCheck(w, request, faults);
            var remembers := |c.world.orders| > |w.orders| && !FailsAfterOrderRow(faults.save);
            && c.world.shop.now == w.shop.now
            && (c.reply.Ok? ==> c.reply.value.id == |w.orders|)
            && (Present(request.key) ==> (c.reply.Ok? <==> remembers))
            && c.world.cache == (if c.reply.Ok? && Present(request.key)
                                 then w.cache[request.key.value := Cached(request.userId, c.reply.value, w.shop.now + 24 * 3600 * 1000)]
                                 else w.cache)
  {
    var priced := Repriced(w.shop.catalog, request.lines);
    if priced.Ok? {
      var w1 := AfterReserving(w, priced.value, faults.reserve);
      PersistCache(w1, request, priced.value, faults.save);
      if Present(request.key) {
        PersistForgets(w1, request, priced.value, faults.save);
      }
    }
  }

  /**
   A keyed request that is not a replay leaves a live cache entry exactly when it answers with an order; then the
   entry holds that very answer for twenty-four hours. After any error a retry is not recognised.
   */
  lemma CachedExactlyWhenAnswered(w: World, request: OrderRequest, faults: Faults)
    requires Present(request.key) && Replay(w, request.key).None?
    ensures var c := CreateOrder(w, request, faults);
            Replay(c.world, request.key) ==
              match c.reply
              case Ok(response) => Some(Cached(request.userId, response, w.shop.now + 24 * 3600 * 1000))
              case Err(_) => None
  {
    if request.lines != [] {
      CheckoutCache(w, request, faults);
    }
  }

  /** The request of a checkout step under this key. */
  predicate Under(step: SplitStep, key: string) {
    match step
    case Whole(Place(request, _)) => request.key == Some(key)
    case Late(request, _) => request.key == Some(key)
    case _ => false
  }

  /** A checkout step in which a write fails after the order row. */
  predicate ForgetsKey(step: SplitStep) {
    match step
    case Whole(Place(_, faults)) => FailsAfterOrderRow(faults.save)
    case Late(_, faults) => FailsAfterOrderRow(faults.save)
    case _ => false
  }

  /** A checkout under this key creates an order. */
  ghost predicate Places(s: Split, step: SplitStep, key: string) {
    Under(step, key) && |SplitDo(s, step).world.orders| > |s.world.orders|
  }

  /** Whether a checkout under the key will create an order can be told before it goes on. */
  lemma PlacesExactly(s: Split, step: SplitStep, key: string)
    ensures Places(s, step, key) <==> Under(step, key) && Adds(s, step)
  {
    AddsExactly(s, step);
  }

  /** A key's entry changes only by a checkout under it that creates an order and does not fail later on. */
  lemma StepEntry(s: Split, step: SplitStep, key: string)
    requires key != ""
    ensures var w, w' := s.world, SplitDo(s, step).world;
            if Places(s, step, key) && !ForgetsKey(step)
            then && key in w'.cache && w'.cache[key].deadline == w.shop.now + 24 * 3600 * 1000
                 && w'.cache[key].response.id == |w.orders|
            else (key in w'.cache <==> key in w.cache) && (key in w.cache ==> w'.cache[key] == w.cache[key])
  {
    match step
    case Late(request, faults) =>
      if request.lines != [] {
        CheckoutCache(s.world, request, faults);
      }
    case Whole(Place(request, faults)) =>
      if request.lines != [] {
        CheckoutCache(s.world, request, faults);
      }
    case _ =>
  }

  /** While its key is known an atomic checkout creates nothing. */
  lemma KnownKeyPlacesNothing(s: Split, step: SplitStep, key: string)
    requires step.Whole? && Replay(s.world, Some(key)).Some?
    ensures !Places(s, step, key)
  {
  }

  /** A live entry survives every atomic step. */
  lemma StepKeepsLiveEntry(w: World, step: Step, key: string)
    requires Replay(w, Some(key)).Some?
    ensures key in Do(w, step).cache && Do(w, step).cache[key] == w.cache[key]
  {
    KnownKeyPlacesNothing(Split(w, []), Whole(step), key);
    StepEntry(Split(w, []), Whole(step), key);
  }

  lemma {:induction false} RunKeepsClock(w: World, steps: seq<Step>)
    ensures w.shop.now <= Run(w, steps).shop.now
    decreases |steps|
  {
    if steps != [] {
      StepKeepsClock(w, steps[0]);
      RunKeepsClock(Do(w, steps[0]), steps[1..]);
    }
  }

  /** A live entry survives every run until its deadline. */
  lemma {:induction false} RunKeepsLiveEntry(w: World, steps: seq<Step>, key: Option<string>)
    requires Replay(w, key).Some?
    requires Run(w, steps).shop.now < Replay(w, key).value.deadline
    ensures Replay(Run(w, steps), key) == Replay(w, key)
    decreases |steps|
  {
    if steps != [] {
      StepKeepsLiveEntry(w, steps[0], key.value);
      StepKeepsClock(w, steps[0]);
      RunKeepsClock(Do(w, steps[0]), steps[1..]);
      RunKeepsLiveEntry(Do(w, steps[0]), steps[1..], key);
    }
  }

  /**
   After a keyed request has been answered with an order, any later request under the same key within twenty-four
   hours, whatever atomic handlers did or failed to do in between, changes nothing at all: its own user gets the
   original answer back and anyone else is refused.
   */
  lemma ReplayChangesNothing(w: World, request: OrderRequest, faults: Faults, steps: seq<Step>, again: OrderRequest, faults': Faults)
    requires Present(request.key) && Replay(w, request.key).None? && CreateOrder(w, request, faults).reply.Ok?
    requires again.key == request.key && again.lines != []
    requires Run(CreateOrder(w, request, faults).world, steps).shop.now < w.shop.now + 24 * 3600 * 1000
    ensures var first := CreateOrder(w, request, faults);
            var later := Run(first.world, steps);
            CreateOrder(later, again, faults') ==
              Created(later, if again.userId == request.userId then first.reply else Err(Forbidden))
  {
    CachedExactlyWhenAnswered(w, request, faults);
    RunKeepsLiveEntry(CreateOrder(w, request, faults).world, steps, request.key);
  }

  // ---- Replays in interleaved runs ----

  /** A checkout under the key that will answer with a new order, and so take the key over. */
  predicate TakesOver(s: Split, step: SplitStep, key: string) {
    Under(step, key) && Adds(s, step) && !ForgetsKey(step)
  }

  ghost predicate NoneTakesOver(s: Split, steps: seq<SplitStep>, key: string)
    decreases |steps|
  {
    steps == [] || (!TakesOver(s, steps[0], key) && NoneTakesOver(SplitDo(s, steps[0]), steps[1..], key))
  }

  /** Orders only join the table, and a key's entry names ever newer ones. */
  lemma {:induction false} EntriesGetNewer(s: Split, steps: seq<SplitStep>, key: string, id: nat)
    requires key != "" && id <= |s.world.orders|
    requires key in s.world.cache && s.world.cache[key].response.id >= id
    ensures var w := SplitRun(s, steps).world;
            key in w.cache && w.cache[key].response.id >= id && |w.orders| >= |s.world.orders|
    decreases |steps|
  {
    if steps != [] {
      StepEntry(s, steps[0], key);
      AddsExactly(s, steps[0]);
      EntriesGetNewer(SplitDo(s, steps[0]), steps[1..], key, id);
    }
  }

  /** However handlers interleave, a key's entry is still the same after a run exactly when no checkout of it took the key over. */
  lemma {:induction false} EntryStaysExactly(s: Split, steps: seq<SplitStep>, key: string)
    requires key != "" && key in s.world.cache && s.world.cache[key].response.id < |s.world.orders|
    ensures var w := SplitRun(s, steps).world;
            && key in w.cache && |w.orders| >= |s.world.orders|
            && (w.cache[key] == s.world.cache[key] <==> NoneTakesOver(s, steps, key))
            && (w.cache[key] == s.world.cache[key] || w.cache[key].response.id > s.world.cache[key].response.id)
    decreases |steps|
  {
    if steps != [] {
      var s' := SplitDo(s, steps[0]);
      StepEntry(s, steps[0], key);
      PlacesExactly(s, steps[0], key);
      AddsExactly(s, steps[0]);
      if TakesOver(s, steps[0], key) {
        EntriesGetNewer(s', steps[1..], key, |s.world.orders|);
      } else {
        EntryStaysExactly(s', steps[1..], key);
      }
    }
  }

  /**
   However handlers interleave and whatever fails after a keyed request has been answered with an order: a later request
   of its user under the same key within twenty-four hours changes nothing and gets the original answer back if and
   only if no checkout that looked the key up too early has taken it over in between.
   */
  lemma ReplayExactly(w: World, request: OrderRequest, faults: Faults, pending: seq<Ticket>, steps: seq<SplitStep>,
                      again: OrderRequest, faults': Faults)
    requires Present(request.key) && Replay(w, request.key).None? && CreateOrder(w, request, faults).reply.Ok?
    requires again.key == request.key && again.lines != [] && again.userId == request.userId
    requires var first := Split(CreateOrder(w, request, faults).world, pending);
             SplitRun(first, steps).world.shop.now < w.shop.now + 24 * 3600 * 1000
    ensures var first := Split(CreateOrder(w, request, faults).world, pending);
            var later := SplitRun(first, steps).world;
            CreateOrder(later, again, faults') == Created(later, CreateOrder(w, request, faults).reply)
            <==> NoneTakesOver(first, steps, request.key.value)
  {
    var first := Split(CreateOrder(w, request, faults).world, pending);
    var later := SplitRun(first, steps).world;
    CheckoutCache(w, request, faults);
    EntryStaysExactly(first, steps, request.key.value);
    CheckoutCache(later, again, faults');
  }

  // ---- At most one order per key ----

  /** A keyed request that creates an order leaves its key unknown exactly when a write fails after the order row. */
  lemma KeyForgottenExactly(w: World, request: OrderRequest, faults: Faults)
    requires Present(request.key) && Replay(w, request.key).None?
    requires |CreateOrder(w, request, faults).world.orders| > |w.orders|
    ensures Replay(CreateOrder(w, request, faults).world, request.key).None? <==> FailsAfterOrderRow(faults.save)
  {
    CheckoutCache(w, request, faults);
  }

  /** How many orders a run creates under a key. */
  ghost function Placed(s: Split, steps: seq<SplitStep>, key: string): nat
    decreases |steps|
  {
    if steps == [] then 0
    else (if Places(s, steps[0], key) then 1 else 0) + Placed(SplitDo(s, steps[0]), steps[1..], key)
  }

  /** How many of them a failing write leaves unanswered. */
  ghost function Forgotten(s: Split, steps: seq<SplitStep>, key: string): nat
    decreases |steps|
  {
    if steps == [] then 0
    else (if Places(s, steps[0], key) && ForgetsKey(steps[0]) then 1 else 0) + Forgotten(SplitDo(s, steps[0]), steps[1..], key)
  }

  /** A checkout that looked its key up too early creates an order although the key is known by now. */
  ghost predicate Duplicates(s: Split, step: SplitStep, key: string) {
    Places(s, step, key) && !ForgetsKey(step) && step.Late? && Replay(s.world, Some(key)).Some?
  }

  ghost function Duplicated(s: Split, steps: seq<SplitStep>, key: string): nat
    decreases |steps|
  {
    if steps == [] then 0
    else (if Duplicates(s, steps[0], key) then 1 else 0) + Duplicated(SplitDo(s, steps[0]), steps[1..], key)
  }

  lemma SplitStepKeepsClock(s: Split, step: SplitStep)
    ensures s.world.shop.now <= SplitDo(s, step).world.shop.now
  {
    match step
    case Whole(st) => StepKeepsClock(s.world, st);
    case Late(request, faults) =>
      if request.lines != [] {
        CheckoutCache(s.world, request, faults);
      }
    case _ =>
  }

  lemma {:induction false} SplitRunKeepsClock(s: Split, steps: seq<SplitStep>)
    ensures s.world.shop.now <= SplitRun(s, steps).world.shop.now
    decreases |steps|
  {
    if steps != [] {
      SplitStepKeepsClock(s, steps[0]);
      SplitRunKeepsClock(SplitDo(s, steps[0]), steps[1..]);
    }
  }

  /** The key is known for the whole window that ends at `end`. */
  ghost predicate KnownUntil(w: World, key: string, end: int) {
    key != "" && key in w.cache && w.shop.now < end <= w.cache[key].deadline && end <= w.shop.now + 24 * 3600 * 1000
  }

  /** Once a key is known, further orders come only from late checkouts and failing writes. */
  lemma {:induction false} PlacedWhileKnown(s: Split, steps: seq<SplitStep>, key: string, end: int)
    requires KnownUntil(s.world, key, end) && SplitRun(s, steps).world.shop.now < end
    ensures Placed(s, steps, key) == Forgotten(s, steps, key) + Duplicated(s, steps, key)
    decreases |steps|
  {
    if steps != [] {
      var s' := SplitDo(s, steps[0]);
      StepEntry(s, steps[0], key);
      SplitStepKeepsClock(s, steps[0]);
      SplitRunKeepsClock(s', steps[1..]);
      if steps[0].Whole? {
        KnownKeyPlacesNothing(s, steps[0], key);
      }
      PlacedWhileKnown(s', steps[1..], key, end);
    }
  }

  /**
   In any interleaved run shorter than twenty-four hours, whatever else happens or fails: the orders created under a
   key are those whose request failed after the order row, those of checkouts that looked the key up too early, and
   at most one more, which there is if the key was unknown at first and one looked it up too early.
   */
  lemma {:induction false} OrdersPerKey(s: Split, steps: seq<SplitStep>, key: string, end: int)
    requires key != "" && SplitRun(s, steps).world.shop.now < end <= s.world.shop.now + 24 * 3600 * 1000
    ensures var extra := Placed(s, steps, key) - Forgotten(s, steps, key) - Duplicated(s, steps, key);
            && 0 <= extra <= 1
            && (Replay(s.world, Some(key)).None? && Duplicated(s, steps, key) > 0 ==> extra == 1)
    decreases |steps|
  {
    if steps != [] {
      var s' := SplitDo(s, steps[0]);
      StepEntry(s, steps[0], key);
      SplitStepKeepsClock(s, steps[0]);
      SplitRunKeepsClock(s', steps[1..]);
      if Places(s, steps[0], key) && !ForgetsKey(steps[0]) {
        CheckoutKeepsClock(s, steps[0], key);
        PlacedWhileKnown(s', steps[1..], key, end);
      } else {
        OrdersPerKey(s', steps[1..], key, end);
      }
    }
  }

  lemma CheckoutKeepsClock(s: Split, step: SplitStep, key: string)
    requires Under(step, key)
    ensures SplitDo(s, step).world.shop.now == s.world.shop.now
  {
    match step
    case Whole(Place(request, faults)) => CreateKeepsClock(s.world, request, faults);
    case Late(request, faults) =>
      if request.lines != [] {
        CheckoutCache(s.world, request, faults);
      }
  }

  lemma {:induction false} NothingForgotten(s: Split, steps: seq<SplitStep>, key: string)
    requires forall step :: step in steps && Under(step, key) ==> !ForgetsKey(step)
    ensures Forgotten(s, steps, key) == 0
    decreases |steps|
  {
    if steps != [] {
      assert steps[0] in steps;
      assert forall step :: step in steps[1..] ==> step in steps;
      NothingForgotten(SplitDo(s, steps[0]), steps[1..], key);
    }
  }

  /** A checkout that will create an order under the key finds the key unknown, and no write fails after its order row. */
  predicate Orderly(s: Split, step: SplitStep, key: string) {
    Under(step, key) && Adds(s, step) ==> Replay(s.world, Some(key)).None? && !ForgetsKey(step)
  }

  ghost predicate AllOrderly(s: Split, steps: seq<SplitStep>, key: string)
    decreases |steps|
  {
    steps == [] || (Orderly(s, steps[0], key) && AllOrderly(SplitDo(s, steps[0]), steps[1..], key))
  }

  /** In every state of the run one order has been created under the key if it is known and none if it is not. */
  ghost predicate OneWhileKnown(s: Split, steps: seq<SplitStep>, key: string, placed: nat)
    decreases |steps|
  {
    && placed == (if Replay(s.world, Some(key)).Some? then 1 else 0)
    && (steps == [] ||
        OneWhileKnown(SplitDo(s, steps[0]), steps[1..], key, placed + if Places(s, steps[0], key) then 1 else 0))
  }

  /** One step changes whether the key is known, and the number of its orders, in step exactly when it is orderly. */
  lemma StepKeepsCount(s: Split, step: SplitStep, key: string, end: int)
    requires key != "" && SplitDo(s, step).world.shop.now < end <= s.world.shop.now + 24 * 3600 * 1000
    requires Replay(s.world, Some(key)).Some? ==> end <= s.world.cache[key].deadline
    ensures var w, w' := s.world, SplitDo(s, step).world;
            var before, now := Replay(w, Some(key)).Some?, Replay(w', Some(key)).Some?;
            && (now ==> end <= w'.cache[key].deadline)
            && ((if now then 1 else 0) == (if before then 1 else 0) + (if Places(s, step, key) then 1 else 0)
                <==> Orderly(s, step, key))
  {
    PlacesExactly(s, step, key);
    StepEntry(s, step, key);
    SplitStepKeepsClock(s, step);
    if Under(step, key) {
      CheckoutKeepsClock(s, step, key);
    }
  }

  lemma {:induction false} OneWhileKnownExactly(s: Split, steps: seq<SplitStep>, key: string, placed: nat, end: int)
    requires key != "" && SplitRun(s, steps).world.shop.now < end <= s.world.shop.now + 24 * 3600 * 1000
    requires Replay(s.world, Some(key)).Some? ==> end <= s.world.cache[key].deadline
    requires placed == if Replay(s.world, Some(key)).Some? then 1 else 0
    ensures OneWhileKnown(s, steps, key, placed) <==> AllOrderly(s, steps, key)
    decreases |steps|
  {
    if steps != [] {
      var s' := SplitDo(s, steps[0]);
      SplitStepKeepsClock(s, steps[0]);
      SplitRunKeepsClock(s', steps[1..]);
      StepKeepsCount(s, steps[0], key, end);
      if Orderly(s, steps[0], key) {
        OneWhileKnownExactly(s', steps[1..], key, placed + (if Places(s, steps[0], key) then 1 else 0), end);
      }
    }
  }

  lemma {:induction false} OneInAll(s: Split, steps: seq<SplitStep>, key: string, placed: nat)
    requires OneWhileKnown(s, steps, key, placed)
    ensures placed + Placed(s, steps, key) <= 1
    decreases |steps|
  {
    if steps != [] {
      OneInAll(SplitDo(s, steps[0]), steps[1..], key, placed + if Places(s, steps[0], key) then 1 else 0);
    }
  }

  /**
   In any interleaved run shorter than twenty-four hours that starts with the key unknown, whatever else happens or
   fails: in every state one order has been created under the key if it is known and none if it is not, if and only
   if every checkout that will create an order under the key finds it unknown and has no write failing after its
   order row. Then the whole run creates at most one.
   */
  lemma OneOrderPerKeyExactly(s: Split, steps: seq<SplitStep>, key: string)
    requires key != "" && Replay(s.world, Some(key)).None?
    requires SplitRun(s, steps).world.shop.now < s.world.shop.now + 24 * 3600 * 1000
    ensures OneWhileKnown(s, steps, key, 0) <==> AllOrderly(s, steps, key)
    ensures AllOrderly(s, steps, key) ==> Placed(s, steps, key) <= 1
  {
    OneWhileKnownExactly(s, steps, key, 0, s.world.shop.now + 24 * 3600 * 1000);
    if AllOrderly(s, steps, key) {
      OneInAll(s, steps, key, 0);
    }
  }

  lemma {:induction false} NothingLate(s: Split, steps: seq<SplitStep>, key: string)
    requires forall step :: step in steps ==> !step.Late?
    ensures Duplicated(s, steps, key) == 0
    decreases |steps|
  {
    if steps != [] {
      assert steps[0] in steps;
      assert forall step :: step in steps[1..] ==> step in steps;
      NothingLate(SplitDo(s, steps[0]), steps[1..], key);
    }
  }

  /** With atomic checkouts and without such failing writes at most one order is created per key in any twenty-four hours. */
  lemma OneOrderPerKey(s: Split, steps: seq<SplitStep>, key: string)
    requires key != "" && SplitRun(s, steps).world.shop.now < s.world.shop.now + 24 * 3600 * 1000
    requires forall step :: step in steps ==> !step.Late? && (Under(step, key) ==> !ForgetsKey(step))
    ensures Placed(s, steps, key) <= 1
  {
    NothingForgotten(s, steps, key);
    NothingLate(s, steps, key);
    OrdersPerKey(s, steps, key, s.world.shop.now + 24 * 3600 * 1000);
  }

  /** With no failing call and enough stock a new checkout goes on to its writes. */
  lemma ReservesAndPersists(w: World, request: OrderRequest, ls: seq<Line>, save: SaveFault)
    requires request.lines != [] && Replay(w, request.key).None? && Repriced(w.shop.catalog, request.lines) == Ok(ls)
    requires NonNegative(w.counters) && Fits(w.counters, ParcelsOf(request.lines))
    requires forall l :: l in request.lines ==> l.quantity > 0
    ensures var left := Lowered(w.counters, ParcelsOf(request.lines));
            && CreateOrder(w, request, Faults(NO_RESERVE_FAULTS, save)) == Persist(w.(counters := left), request, ls, save)
            && CreateOrder(w, request, Faults(NO_RESERVE_FAULTS, save)).world.counters == left
  {
    RepricedQuantities(w.shop.catalog, request.lines);
    var ps := ParcelsOf(ls);
    DemandNonNegative(ls);
    ReserveAllOrNothing(w.counters, ps, NO_RESERVE_FAULTS);
    assert w.lost + [] == w.lost;
    PersistTouches(AfterReserving(w, ls, NO_RESERVE_FAULTS), request, ls, save);
  }

  /** What a first attempt leaves whose write fails after the order row. */
  lemma PersistFailsAfterOrderRow(w: World, request: OrderRequest, ls: seq<Line>, save: SaveFault)
    requires ls != [] && Present(request.key) && FailsAfterOrderRow(save)
    ensures var c, o := Persist(w, request, ls, save), Stored(NewOrder(request, ls, w.shop.now));
            && c.reply == Err(Internal)
            && c.world.orders == w.orders + [if save.ItemRowsFail? then o.(lines := []) else o]
            && c.world.shop.catalog == w.shop.catalog && c.world.shop.now == w.shop.now && c.world.cache == w.cache
  {
  }

  /** Stock for twice the demand covers it again after it has been taken once. */
  lemma FitsTwice(c: Counters, demand: seq<Parcel>)
    requires forall p :: p in demand ==> p.quantity >= 0
    requires forall key :: key in c ==> 2 * Carried(demand, key) <= c[key]
    ensures Fits(c, demand) && NonNegative(Lowered(c, demand)) && Fits(Lowered(c, demand), demand)
  {
    forall key ensures Carried(demand, key) >= 0 {
      CarriedNonNegative(demand, key);
    }
  }

  /**
   The second order does happen: a request whose write fails after the order row answers with an error, and its retry
   under the same key at the same instant places the order and takes the stock once more.
   */
  lemma FailedWriteThenRetryPlacesTwice(w: World, request: OrderRequest, save: SaveFault)
    requires Present(request.key) && Replay(w, request.key).None? && FailsAfterOrderRow(save)
    requires request.lines != [] && Repriced(w.shop.catalog, request.lines).Ok? && NonNegative(w.counters)
    requires forall l :: l in request.lines ==> l.quantity > 0
    requires forall key :: key in w.counters ==> 2 * Carried(ParcelsOf(request.lines), key) <= w.counters[key]
    ensures var first := CreateOrder(w, request, Faults(NO_RESERVE_FAULTS, save));
            var retry := CreateOrder(first.world, request, Faults(NO_RESERVE_FAULTS, AllSaved));
            && first.reply == Err(Internal) && retry.reply.Ok?
            && |retry.world.orders| == |w.orders| + 2
            && (!save.ItemRowsFail? ==> retry.world.orders[|w.orders|] == retry.world.orders[|w.orders| + 1])
            && retry.world.counters == Lowered(Lowered(w.counters, ParcelsOf(request.lines)), ParcelsOf(request.lines))
  {
    var ls, demand := Repriced(w.shop.catalog, request.lines).value, ParcelsOf(request.lines);
    var left := Lowered(w.counters, demand);
    DemandNonNegative(request.lines);
    FitsTwice(w.counters, demand);
    ReservesAndPersists(w, request, ls, save);
    PersistFailsAfterOrderRow(w.(counters := left), request, ls, save);
    RetryPlaces(CreateOrder(w, request, Faults(NO_RESERVE_FAULTS, save)).world, request, ls);
  }

  lemma RetryPlaces(w: World, request: OrderRequest, ls: seq<Line>)
    requires request.lines != [] && Replay(w, request.key).None? && Repriced(w.shop.catalog, request.lines) == Ok(ls)
    requires NonNegative(w.counters) && Fits(w.counters, ParcelsOf(request.lines))
    requires forall l :: l in request.lines ==> l.quantity > 0
    ensures var c := CreateOrder(w, request, Faults(NO_RESERVE_FAULTS, AllSaved));
            && c.reply.Ok?
            && c.world.orders == w.orders + [Stored(NewOrder(request, ls, w.shop.now))]
            && c.world.counters == Lowered(w.counters, ParcelsOf(request.lines))
  {
    var left := Lowered(w.counters, ParcelsOf(request.lines));
    ReservesAndPersists(w, request, ls, AllSaved);
    PersistCache(w.(counters := left), request, ls, AllSaved);
    assert Persist(w.(counters := left), request, ls, AllSaved).reply.Ok?;
  }

  // ---- Two requests under one key at a time ----

  lemma {:induction false} PricingForbidsNothing(catalog: Catalog, ls: seq<Line>)
    ensures Repriced(catalog, ls) != Err(Forbidden)
    decreases |ls|
  {
    if ls != [] {
      PricingForbidsNothing(catalog, ls[1..]);
    }
  }

  lemma AnsweringAddsAnOrder(w: World, request: OrderRequest, faults: Faults)
    requires request.lines != []
    ensures var c := AfterKeyCheck(w, request, faults);
            && (c.reply.Ok? ==> |c.world.orders| == |w.orders| + 1)
            && (c.reply.Err? ==> c.reply.error != Forbidden)
  {
    PricingForbidsNothing(w.shop.catalog, request.lines);
    var priced := Repriced(w.shop.catalog, request.lines);
    if priced.Ok? {
      PersistCache(AfterReserving(w, priced.value, faults.reserve), request, priced.value, faults.save);
    }
  }

  /**
   A request that looked its key up at some earlier time and goes on now does what an atomic request would do now
   exactly when the key is still unknown.
   */
  lemma LateRequestExactly(w: World, request: OrderRequest, faults: Faults)
    requires request.lines != []
    ensures AfterKeyCheck(w, request, faults) == CreateOrder(w, request, faults) <==> Replay(w, request.key).None?
  {
    AnsweringAddsAnOrder(w, request, faults);
  }

  /** Two checkouts under one key that both look it up before either is through both place an order. */
  lemma RacingRequestsPlaceTwice(w: World, request: OrderRequest)
    requires Present(request.key) && Replay(w, request.key).None?
    requires request.lines != [] && Repriced(w.shop.catalog, request.lines).Ok? && NonNegative(w.counters)
    requires forall l :: l in request.lines ==> l.quantity > 0
    requires forall key :: key in w.counters ==> 2 * Carried(ParcelsOf(request.lines), key) <= w.counters[key]
    ensures var checkout := Late(request, Faults(NO_RESERVE_FAULTS, AllSaved));
            Placed(Split(w, []), [checkout, checkout], request.key.value) == 2
  {
    var ls, demand := Repriced(w.shop.catalog, request.lines).value, ParcelsOf(request.lines);
    var safe := Faults(NO_RESERVE_FAULTS, AllSaved);
    DemandNonNegative(request.lines);
    FitsTwice(w.counters, demand);
    GoesThrough(w, request, ls);
    var w1 := AfterKeyCheck(w, request, safe).world;
    GoesThrough(w1, request, ls);
    var checkout := Late(request, safe);
    var s1 := SplitDo(Split(w, []), checkout);
    assert Places(Split(w, []), checkout, request.key.value) && Places(s1, checkout, request.key.value);
    assert [checkout, checkout][1..] == [checkout] && [checkout][1..] == [];
    assert Placed(s1, [checkout], request.key.value) == 1;
  }

  lemma GoesThrough(w: World, request: OrderRequest, ls: seq<Line>)
    requires request.lines != [] && Repriced(w.shop.catalog, request.lines) == Ok(ls)
    requires NonNegative(w.counters) && Fits(w.counters, ParcelsOf(request.lines))
    requires forall l :: l in request.lines ==> l.quantity > 0
    ensures var c := AfterKeyCheck(w, request, Faults(NO_RESERVE_FAULTS, AllSaved));
            && |c.world.orders| == |w.orders| + 1
            && c.world.counters == Lowered(w.counters, ParcelsOf(request.lines))
            && c.world.shop.catalog == w.shop.catalog
  {
    RepricedQuantities(w.shop.catalog, request.lines);
    var ps := ParcelsOf(ls);
    DemandNonNegative(ls);
    ReserveAllOrNothing(w.counters, ps, NO_RESERVE_FAULTS);
    var w1 := AfterReserving(w, ls, NO_RESERVE_FAULTS);
    PersistTouches(w1, request, ls, AllSaved);
    PersistCache(w1, request, ls, AllSaved);
    assert Persist(w1, request, ls, AllSaved).world.shop == Shop.ClearCart(w.shop, request.userId);
  }

  // ---- Cached answers stay true ----

  /** The entry names an order of its user that still is, but for its status, what was stored for that answer. */
  ghost predicate TrueEntry(w: World, c: Cached) {
    && c.response.id < |w.orders|
    && w.orders[c.response.id].userId == c.userId
    && w.orders[c.response.id].(status := c.response.order.status) == Stored(c.response.order)
  }

  ghost predicate TrueCache(w: World) {
    forall key :: key in w.cache ==> TrueEntry(w, w.cache[key])
  }

  lemma EvolvingKeepsEntry(s: Split, w': World, step: SplitStep, c: Cached)
    requires TrueEntry(s.world, c) && SplitEvolves(s, w', step)
    ensures TrueEntry(w', c)
  {
    var id := c.response.id;
    assert ViewOf(w', id).order == w'.orders[id] && ViewOf(s.world, id).order == s.world.orders[id];
  }

  /** A checkout that goes on writes no cache entry but a true one. */
  lemma CheckoutWritesTruth(w: World, request: OrderRequest, faults: Faults)
    requires request.lines != []
    ensures WritesTruth(w, AfterKeyCheck(w, request, faults).world)
  {
    var priced := Repriced(w.shop.catalog, request.lines);
    if priced.Ok? {
      PersistCache(AfterReserving(w, priced.value, faults.reserve), request, priced.value, faults.save);
    }
  }

  ghost predicate WritesTruth(w: World, w': World) {
    forall key :: key in w'.cache ==> (key in w.cache && w'.cache[key] == w.cache[key]) || TrueEntry(w', w'.cache[key])
  }

  lemma StepWritesTruth(s: Split, step: SplitStep)
    ensures WritesTruth(s.world, SplitDo(s, step).world)
  {
    match step
    case Whole(Place(request, faults)) =>
      if request.lines != [] {
        CheckoutWritesTruth(s.world, request, faults);
      }
    case Late(request, faults) =>
      if request.lines != [] {
        CheckoutWritesTruth(s.world, request, faults);
      }
    case _ =>
  }

  /**
   However handlers interleave and whatever fails: each cached answer names an order of its user whose items and total
   no handler has altered.
   */
  lemma {:induction false} CacheStaysTrue(s: Split, steps: seq<SplitStep>)
    requires Closed(s.world) && TrueCache(s.world)
    ensures TrueCache(SplitRun(s, steps).world)
    decreases |steps|
  {
    if steps != [] {
      var s' := FirstClosedStep(s, steps);
      StepWritesTruth(s, steps[0]);
      forall key | key in s'.world.cache ensures TrueEntry(s'.world, s'.world.cache[key]) {
        if key in s.world.cache && s'.world.cache[key] == s.world.cache[key] {
          EvolvingKeepsEntry(s, s'.world, steps[0], s.world.cache[key]);
        }
      }
      CacheStaysTrue(s', steps[1..]);
    }
  }

  /** So it is in every state the system can reach from its opening. */
  lemma ReachableCacheIsTrue(shop: Shop.Shop, counters: Counters, steps: seq<SplitStep>)
    ensures TrueCache(Reached(shop, counters, steps).world)
  {
    CacheStaysTrue(Split(Opening(shop, counters), []), steps);
  }
}
