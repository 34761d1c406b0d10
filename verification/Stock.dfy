/**
 The store's stock counters and the reservation loop of `createOrder`. A counter exists for tracked
 items only; a reservation of a tracked item succeeds exactly when the counter covers it, and
 returns of untracked items are ignored.
 */
module Stock {
  import opened Base

  datatype Key = Key(itemId: string, variantId: Option<string>)

  /** A quantity of one stock key on its way to or from the store. */
  datatype Parcel = Parcel(key: Key, quantity: int)

  type Counters = map<Key, int>

  /** The quantity a list of parcels carries for one key. */
  function Carried(ps: seq<Parcel>, key: Key): int {
    if ps == [] then 0
    else
      var last := ps[|ps| - 1];
      Carried(ps[..|ps| - 1], key) + if last.key == key then last.quantity else 0
  }

  lemma {:induction false} CarriedConcat(a: seq<Parcel>, b: seq<Parcel>, key: Key)
    ensures Carried(a + b, key) == Carried(a, key) + Carried(b, key)
  {
    if b == [] {
      assert a + b == a;
    } else {
      assert (a + b)[..|a + b| - 1] == a + b[..|b| - 1];
      CarriedConcat(a, b[..|b| - 1], key);
    }
  }

  lemma CarriedOne(p: Parcel, key: Key)
    ensures Carried([p], key) == if p.key == key then p.quantity else 0
  {
    assert [p][..0] == [];
  }

  lemma {:induction false} CarriedNonNegative(ps: seq<Parcel>, key: Key)
    requires forall p :: p in ps ==> p.quantity >= 0
    ensures Carried(ps, key) >= 0
  {
    if ps != [] {
      assert ps[|ps| - 1] in ps;
      assert forall p :: p in ps[..|ps| - 1] ==> p in ps;
      CarriedNonNegative(ps[..|ps| - 1], key);
    }
  }

  // ---- The store's side ----

  function TakeOut(c: Counters, p: Parcel): Counters {
    if p.key in c then c[p.key := c[p.key] - p.quantity] else c
  }

  function PutBack(c: Counters, p: Parcel): Counters {
    if p.key in c then c[p.key := c[p.key] + p.quantity] else c
  }

  predicate Covers(c: Counters, p: Parcel) {
    p.key in c && c[p.key] >= p.quantity
  }

  // ---- The reservation loop ----

  /** How one remote call goes: it works, it never arrives, or its reply is lost after the store acted. */
  datatype CallFault = Fine | NeverArrives | ReplyLost

  /** The faults a checkout meets: per reservation call, and the rollback returns that fail. */
  datatype ReserveFaults = ReserveFaults(calls: seq<CallFault>, failedReturns: set<nat>)

  const NO_RESERVE_FAULTS := ReserveFaults([], {})

  function FaultOf(faults: ReserveFaults, i: nat): CallFault {
    if i < |faults.calls| then faults.calls[i] else Fine
  }

  datatype Outcome = Reserved | Short | Broken

  /** Where the loop leaves the counters, and what it took without handing it to an order or back to the store. */
  datatype Reservation = Reservation(outcome: Outcome, counters: Counters, lost: seq<Parcel>)

  /** The rollback: every reservation made so far is sent back, some of the calls fail. */
  function RollBack(c: Counters, made: seq<Parcel>, failed: set<nat>): (r: Reservation)
    ensures r.outcome.Short?
  {
    if made == [] then Reservation(Short, c, [])
    else
      var n := |made| - 1;
      var r := RollBack(c, made[..n], failed);
      if n in failed then r.(lost := r.lost + [made[n]]) else r.(counters := PutBack(r.counters, made[n]))
  }

  /** The loop from parcel `i` on, with the reservations made so far. */
  function ReserveFrom(c: Counters, ps: seq<Parcel>, i: nat, made: seq<Parcel>, faults: ReserveFaults): Reservation
    requires i <= |ps|
    decreases |ps| - i
  {
    if i == |ps| then Reservation(Reserved, c, [])
    else
      var p := ps[i];
      match FaultOf(faults, i)
      case NeverArrives => Reservation(Broken, c, made)
      case ReplyLost => if Covers(c, p) then Reservation(Broken, TakeOut(c, p), made + [p]) else Reservation(Broken, c, made)
      case Fine =>
        if p.key in c && !Covers(c, p) then RollBack(c, made, faults.failedReturns)
        else if p.key in c then ReserveFrom(TakeOut(c, p), ps, i + 1, made + [p], faults)
        else ReserveFrom(c, ps, i + 1, made, faults)
  }

  function Reserve(c: Counters, ps: seq<Parcel>, faults: ReserveFaults): Reservation {
    ReserveFrom(c, ps, 0, [], faults)
  }

  // ---- Nothing vanishes unaccounted, whatever fails ----

  ghost predicate Tracked(c: Counters, ps: seq<Parcel>) {
    forall p :: p in ps ==> p.key in c
  }

  lemma {:induction false} RollBackAccounts(c: Counters, made: seq<Parcel>, failed: set<nat>, key: Key)
    requires key in c && Tracked(c, made)
    ensures var r := RollBack(c, made, failed);
            && r.counters.Keys == c.Keys
            && r.counters[key] + Carried(r.lost, key) == c[key] + Carried(made, key)
  {
    if made != [] {
      var n := |made| - 1;
      assert made[n] in made;
      assert forall p :: p in made[..n] ==> p in made;
      RollBackAccounts(c, made[..n], failed, key);
      var r := RollBack(c, made[..n], failed);
      CarriedConcat(r.lost, [made[n]], key);
      CarriedOne(made[n], key);
    }
  }

  lemma CarriedOneMore(made: seq<Parcel>, p: Parcel, key: Key)
    ensures Carried(made + [p], key) == Carried(made, key) + if p.key == key then p.quantity else 0
  {
    assert (made + [p])[..|made|] == made;
  }

  lemma CarriedFrom(ps: seq<Parcel>, i: nat, key: Key)
    requires i < |ps|
    ensures Carried(ps[i..], key) == (if ps[i].key == key then ps[i].quantity else 0) + Carried(ps[i + 1..], key)
  {
    assert ps[i..] == [ps[i]] + ps[i + 1..];
    CarriedConcat([ps[i]], ps[i + 1..], key);
    CarriedOne(ps[i], key);
  }

  /** Counter plus losses plus what the new order takes over equals the counter before. */
  ghost predicate Accounts(c: Counters, rest: seq<Parcel>, made: seq<Parcel>, r: Reservation, key: Key)
    requires key in c
  {
    && r.counters.Keys == c.Keys
    && r.counters[key] + Carried(r.lost, key)
       == c[key] + if r.outcome.Reserved? then -Carried(rest, key) else Carried(made, key)
  }

  lemma {:induction false} ReserveFromAccounts(c: Counters, ps: seq<Parcel>, i: nat, made: seq<Parcel>, faults: ReserveFaults, key: Key)
    requires i <= |ps| && key in c && Tracked(c, made)
    ensures Accounts(c, ps[i..], made, ReserveFrom(c, ps, i, made, faults), key)
    decreases |ps| - i
  {
    if i < |ps| {
      var p := ps[i];
      CarriedOneMore(made, p, key);
      CarriedFrom(ps, i, key);
      if FaultOf(faults, i).Fine? {
        if p.key in c && !Covers(c, p) {
          RollBackAccounts(c, made, faults.failedReturns, key);
        } else if p.key in c {
          ReserveFromAccounts(TakeOut(c, p), ps, i + 1, made + [p], faults, key);
        } else {
          ReserveFromAccounts(c, ps, i + 1, made, faults, key);
        }
      }
    }
  }

  /** Under any faults each counter, the losses and the reserved demand add up to the counter before. */
  lemma ReserveAccounts(c: Counters, ps: seq<Parcel>, faults: ReserveFaults, key: Key)
    requires key in c
    ensures var r := Reserve(c, ps, faults);
            && r.counters.Keys == c.Keys
            && r.counters[key] + Carried(r.lost, key) + (if r.outcome.Reserved? then Carried(ps, key) else 0) == c[key]
  {
    ReserveFromAccounts(c, ps, 0, [], faults, key);
    assert ps[0..] == ps;
  }

  lemma {:induction false} RollBackKeepsKeys(c: Counters, made: seq<Parcel>, failed: set<nat>)
    ensures RollBack(c, made, failed).counters.Keys == c.Keys
  {
    if made != [] {
      RollBackKeepsKeys(c, made[..|made| - 1], failed);
    }
  }

  lemma {:induction false} ReserveFromKeepsKeys(c: Counters, ps: seq<Parcel>, i: nat, made: seq<Parcel>, faults: ReserveFaults)
    requires i <= |ps|
    ensures ReserveFrom(c, ps, i, made, faults).counters.Keys == c.Keys
    decreases |ps| - i
  {
    RollBackKeepsKeys(c, made, faults.failedReturns);
    if i < |ps| {
      ReserveFromKeepsKeys(TakeOut(c, ps[i]), ps, i + 1, made + [ps[i]], faults);
      ReserveFromKeepsKeys(c, ps, i + 1, made, faults);
    }
  }

  /** The set of tracked items never changes. */
  lemma ReserveKeepsKeys(c: Counters, ps: seq<Parcel>, faults: ReserveFaults)
    ensures Reserve(c, ps, faults).counters.Keys == c.Keys
  {
    ReserveFromKeepsKeys(c, ps, 0, [], faults);
  }

  // ---- When it succeeds ----

  ghost predicate NonNegative(c: Counters) {
    forall key :: key in c ==> c[key] >= 0
  }

  /** For every tracked key the summed demand fits the counter. */
  ghost predicate Fits(c: Counters, ps: seq<Parcel>) {
    forall key :: key in c ==> Carried(ps, key) <= c[key]
  }

  /** Every counter less its demand. */
  function Lowered(c: Counters, ps: seq<Parcel>): Counters {
    map key | key in c :: c[key] - Carried(ps, key)
  }

  ghost predicate Faultless(faults: ReserveFaults) {
    (forall i: nat :: FaultOf(faults, i).Fine?) && faults.failedReturns == {}
  }

  lemma {:induction false} ReserveFromDecides(c: Counters, ps: seq<Parcel>, i: nat, made: seq<Parcel>, faults: ReserveFaults)
    requires i <= |ps| && Tracked(c, made) && Faultless(faults)
    requires forall p :: p in ps ==> p.quantity >= 0
    requires NonNegative(c)
    ensures var r := ReserveFrom(c, ps, i, made, faults);
            && (r.outcome.Reserved? <==> Fits(c, ps[i..]))
            && !r.outcome.Broken?
    decreases |ps| - i
  {
    if i < |ps| {
      var p := ps[i];
      var tail := ps[i + 1..];
      assert ps[i..] == [p] + tail;
      forall key ensures Carried(ps[i..], key) == (if p.key == key then p.quantity else 0) + Carried(tail, key)
                         && Carried(tail, key) >= 0 {
        CarriedConcat([p], tail, key);
        CarriedOne(p, key);
        CarriedNonNegative(tail, key);
      }
      assert FaultOf(faults, i).Fine?;
      if p.key in c && !Covers(c, p) {
        RollBackAccounts(c, made, {}, p.key);
        assert Carried(ps[i..], p.key) > c[p.key];
      } else if p.key in c {
        ReserveFromDecides(TakeOut(c, p), ps, i + 1, made + [p], faults);
        FitsAfterTaking(c, p, tail);
      } else {
        ReserveFromDecides(c, ps, i + 1, made, faults);
      }
    }
  }

  lemma FitsAfterTaking(c: Counters, p: Parcel, tail: seq<Parcel>)
    requires p.key in c
    ensures Fits(TakeOut(c, p), tail) <==> Fits(c, [p] + tail)
  {
    forall key ensures Carried([p] + tail, key) == (if p.key == key then p.quantity else 0) + Carried(tail, key) {
      CarriedConcat([p], tail, key);
      CarriedOne(p, key);
    }
    if Fits(c, [p] + tail) {
      forall key | key in TakeOut(c, p) ensures Carried(tail, key) <= TakeOut(c, p)[key] {
        assert Carried([p] + tail, key) <= c[key];
      }
    }
    if Fits(TakeOut(c, p), tail) {
      forall key | key in c ensures Carried([p] + tail, key) <= c[key] {
        assert Carried(tail, key) <= TakeOut(c, p)[key];
      }
    }
  }

  /**
   Without remote failures, for any list with repeated keys and untracked items mixed in: the loop reserves
   everything exactly when for every tracked key the summed demand fits; then each counter drops by exactly
   that sum; otherwise the counters are exactly restored.
   */
  lemma ReserveAllOrNothing(c: Counters, ps: seq<Parcel>, faults: ReserveFaults)
    requires Faultless(faults)
    requires forall p :: p in ps ==> p.quantity >= 0
    requires NonNegative(c)
    ensures var r := Reserve(c, ps, faults);
            && (r.outcome.Reserved? <==> Fits(c, ps))
            && (r.outcome.Short? <==> !Fits(c, ps))
            && r.lost == []
            && r.counters == if Fits(c, ps) then Lowered(c, ps) else c
  {
    var r := Reserve(c, ps, faults);
    assert ps[0..] == ps;
    ReserveFromDecides(c, ps, 0, [], faults);
    ReserveFromLosesNothing(c, ps, 0, [], faults);
    ReserveKeepsKeys(c, ps, faults);
    forall key | key in c ensures r.counters[key] == c[key] - if Fits(c, ps) then Carried(ps, key) else 0 {
      ReserveAccounts(c, ps, faults, key);
    }
  }

  lemma {:induction false} RollBackLosesNothing(c: Counters, made: seq<Parcel>)
    ensures RollBack(c, made, {}).lost == []
  {
    if made != [] {
      RollBackLosesNothing(c, made[..|made| - 1]);
    }
  }

  /** Without faults the loop loses nothing, whatever the quantities. */
  lemma {:induction false} ReserveFromLosesNothing(c: Counters, ps: seq<Parcel>, i: nat, made: seq<Parcel>, faults: ReserveFaults)
    requires i <= |ps| && Faultless(faults)
    ensures ReserveFrom(c, ps, i, made, faults).lost == []
    decreases |ps| - i
  {
    if i < |ps| {
      assert FaultOf(faults, i).Fine?;
      RollBackLosesNothing(c, made);
      ReserveFromLosesNothing(TakeOut(c, ps[i]), ps, i + 1, made + [ps[i]], faults);
      ReserveFromLosesNothing(c, ps, i + 1, made, faults);
    }
  }

  /** The rollback loses nothing exactly when none of its return calls fails. */
  lemma {:induction false} RollBackRestoresExactly(c: Counters, made: seq<Parcel>, failed: set<nat>)
    ensures RollBack(c, made, failed).lost == [] <==> forall n: nat :: n < |made| ==> n !in failed
  {
    if made != [] {
      RollBackRestoresExactly(c, made[..|made| - 1], failed);
    }
  }

  // ---- What a failing call abandons ----

  /** The first parcel from `i` on whose reservation call fails. */
  function FirstFault(ps: seq<Parcel>, i: nat, faults: ReserveFaults): (f: nat)
    requires i <= |ps|
    ensures i <= f <= |ps|
    decreases |ps| - i
  {
    if i == |ps| || !FaultOf(faults, i).Fine? then i else FirstFault(ps, i + 1, faults)
  }

  /** Nothing reserved so far is rolled back when a call fails. */
  lemma {:induction false} BrokenAbandons(c: Counters, ps: seq<Parcel>, i: nat, made: seq<Parcel>, faults: ReserveFaults)
    requires i <= |ps| && ReserveFrom(c, ps, i, made, faults).outcome.Broken?
    ensures made <= ReserveFrom(c, ps, i, made, faults).lost
    decreases |ps| - i
  {
    if FaultOf(faults, i).Fine? {
      if ps[i].key in c {
        BrokenAbandons(TakeOut(c, ps[i]), ps, i + 1, made + [ps[i]], faults);
      } else {
        BrokenAbandons(c, ps, i + 1, made, faults);
      }
    }
  }

  /**
   A checkout stopped by a failing reservation call leaves the stock as it was if and only if every item before the
   failing one is untracked and the store did not act on that call.
   */
  lemma {:induction false} BrokenRestoresExactly(c: Counters, ps: seq<Parcel>, i: nat, faults: ReserveFaults)
    requires i <= |ps| && ReserveFrom(c, ps, i, [], faults).outcome.Broken?
    ensures var r, f := ReserveFrom(c, ps, i, [], faults), FirstFault(ps, i, faults);
            && f < |ps|
            && (r.lost == [] && r.counters == c <==>
                  && (forall k :: i <= k < f ==> ps[k].key !in c)
                  && (FaultOf(faults, f).NeverArrives? || !Covers(c, ps[f])))
    decreases |ps| - i
  {
    if FaultOf(faults, i).Fine? {
      if ps[i].key in c {
        assert [] + [ps[i]] == [ps[i]];
        BrokenAbandons(TakeOut(c, ps[i]), ps, i + 1, [ps[i]], faults);
        BrokenHasFault(TakeOut(c, ps[i]), ps, i + 1, [ps[i]], faults);
      } else {
        BrokenRestoresExactly(c, ps, i + 1, faults);
      }
    }
  }

  lemma {:induction false} BrokenHasFault(c: Counters, ps: seq<Parcel>, i: nat, made: seq<Parcel>, faults: ReserveFaults)
    requires i <= |ps| && ReserveFrom(c, ps, i, made, faults).outcome.Broken?
    ensures FirstFault(ps, i, faults) < |ps|
    decreases |ps| - i
  {
    if FaultOf(faults, i).Fine? {
      if ps[i].key in c {
        BrokenHasFault(TakeOut(c, ps[i]), ps, i + 1, made + [ps[i]], faults);
      } else {
        BrokenHasFault(c, ps, i + 1, made, faults);
      }
    }
  }

  /** Two of a tracked item are taken and never come back because the call for the next item does not arrive. */
  lemma FailingCallLosesStock()
    ensures var beans, milk := Key("beans", None), Key("milk", None);
            var c := map[beans := 5, milk := 5];
            var r := Reserve(c, [Parcel(beans, 2), Parcel(milk, 1)], ReserveFaults([Fine, NeverArrives], {}));
            r == Reservation(Broken, map[beans := 3, milk := 5], [Parcel(beans, 2)])
  {
    var beans, milk := Key("beans", None), Key("milk", None);
    var c := map[beans := 5, milk := 5];
    var ps, faults := [Parcel(beans, 2), Parcel(milk, 1)], ReserveFaults([Fine, NeverArrives], {});
    assert [] + [ps[0]] == [ps[0]];
    assert ReserveFrom(TakeOut(c, ps[0]), ps, 1, [ps[0]], faults) == Reservation(Broken, TakeOut(c, ps[0]), [ps[0]]);
    assert TakeOut(c, ps[0]) == map[beans := 3, milk := 5];
  }

  // ---- Never negative ----

  lemma {:induction false} RollBackStaysNonNegative(c: Counters, made: seq<Parcel>, failed: set<nat>)
    requires NonNegative(c) && forall p :: p in made ==> p.quantity >= 0
    ensures NonNegative(RollBack(c, made, failed).counters)
  {
    if made != [] {
      var n := |made| - 1;
      assert made[n] in made;
      assert forall p :: p in made[..n] ==> p in made;
      RollBackStaysNonNegative(c, made[..n], failed);
    }
  }

  /** No fault and no demand drives a counter below zero. */
  lemma {:induction false} ReserveStaysNonNegative(c: Counters, ps: seq<Parcel>, i: nat, made: seq<Parcel>, faults: ReserveFaults)
    requires i <= |ps| && NonNegative(c)
    requires forall p :: p in ps ==> p.quantity >= 0
    requires forall p :: p in made ==> p.quantity >= 0
    ensures NonNegative(ReserveFrom(c, ps, i, made, faults).counters)
    decreases |ps| - i
  {
    if i < |ps| {
      var p := ps[i];
      if FaultOf(faults, i).Fine? {
        if p.key in c && !Covers(c, p) {
          RollBackStaysNonNegative(c, made, faults.failedReturns);
        } else if p.key in c {
          ReserveStaysNonNegative(TakeOut(c, p), ps, i + 1, made + [p], faults);
        } else {
          ReserveStaysNonNegative(c, ps, i + 1, made, faults);
        }
      }
    }
  }
}
