/** An abandoned cart's reminders over whole runs of the system. */
module Reminders {
  import opened Base
  import opened Fields
  import opened Shop
  import opened ShopRules

  /** The user who performs a step, if it is a user's. */
  function Actor(step: ShopStep): Option<string> {
    if step.DoFire? || step.DoAdvance? || step.DoChangeStore? then None else Some(step.userId)
  }

  /** The longest a worker may take to pick up a due reminder for it to announce the days it is scheduled for. */
  function Lateness(index: nat): int {
    if index == 0 then 23 * HOUR - SECOND / 2 else 24 * HOUR - SECOND / 2
  }

  /** The clock never leaves a job of this user waiting for too long. */
  ghost predicate Prompt(s: Shop, step: ShopStep, userId: string) {
    step.DoAdvance? ==>
      forall id :: id in s.jobs && id.userId == userId ==> s.now + step.dt <= s.jobs[id].due + Lateness(id.index)
  }

  /** A run in which `userId` does nothing and workers pick up that user's jobs in time; everything else goes on at will. */
  ghost predicate QuietRun(s: Shop, steps: seq<ShopStep>, userId: string)
    decreases |steps|
  {
    steps == [] ||
    (Actor(steps[0]) != Some(userId) && Prompt(s, steps[0], userId) && QuietRun(Do(s, steps[0]), steps[1..], userId))
  }

  /** The reminders mailed to one user, in order. */
  function SentTo(sent: seq<Reminder>, userId: string): seq<Reminder> {
    if sent == [] then []
    else
      var last := sent[|sent| - 1];
      SentTo(sent[..|sent| - 1], userId) + if last.userId == userId then [last] else []
  }

  lemma SentToAppend(sent: seq<Reminder>, r: Reminder, userId: string)
    ensures SentTo(sent + [r], userId) == SentTo(sent, userId) + if r.userId == userId then [r] else []
  {
    assert (sent + [r])[..|sent|] == sent;
  }

  const DAYS_LEFT: seq<int> := [7, 6, 4, 1]

  /** The first `k` reminders for a cart: in order, with its total, announcing 7, 6, 4 and 1 days. */
  ghost function Mails(userId: string, es: Entries, k: nat): seq<Reminder>
    requires k <= |DELAYS|
  {
    seq(k, i requires 0 <= i < k => Reminder(userId, i, HashTotal(es), DAYS_LEFT[i]))
  }

  /** `k` of the four reminders scheduled at `t0` have been mailed and the cart is untouched until the last one. */
  ghost predicate Waiting(s: Shop, userId: string, t0: int, es: Entries, before: seq<Reminder>, k: nat) {
    && k <= |DELAYS|
    && t0 <= s.now
    && (forall i: nat :: i < |DELAYS| ==>
          if i < k then JobId(userId, i) !in s.jobs
          else JobId(userId, i) in s.jobs && s.jobs[JobId(userId, i)] == Job(userId, i, t0 + DELAYS[i]))
    && (k < |DELAYS| ==>
          && s.now <= t0 + DELAYS[k] + Lateness(k)
          && CartKey(userId) in s.redis
          && s.redis[CartKey(userId)] == Hash(es, Some(t0 + CART_TTL)))
    && SentTo(s.sent, userId) == before + Mails(userId, es, k)
  }

  /** A due reminder announces 7, 6, 4 or 1 days exactly when it is mailed within its lateness, to the millisecond. */
  lemma DaysAnnounced(h: Hash, t0: int, now: int, k: nat)
    requires k < |DELAYS| && t0 + DELAYS[k] <= now && h.deadline == Some(t0 + CART_TTL)
    ensures DaysLeft(TtlSeconds(h, now)) == DAYS_LEFT[k] <==> now <= t0 + DELAYS[k] + Lateness(k)
  {
    var ms, seconds, days := h.deadline.value - now, TtlSeconds(h, now), DAYS_LEFT[k];
    assert (days - 1) * DAY + SECOND / 2 == CART_TTL - DELAYS[k] - Lateness(k) && CART_TTL - DELAYS[k] <= days * DAY;
    assert SECOND * seconds <= ms + SECOND / 2 < SECOND * seconds + SECOND;
    assert seconds <= days * 86400;
    assert (days - 1) * 86400 < seconds <==> (days - 1) * DAY + SECOND / 2 <= ms;
  }

  /** The user's cart and reminder jobs are the same in both states. */
  ghost predicate SameCartAndJobs(s: Shop, s': Shop, userId: string) {
    && SameKey(s.redis, s'.redis, CartKey(userId))
    && SameJobs(s.jobs, s'.jobs, userId)
  }

  ghost predicate SameKey(ks: Keyspace, ks': Keyspace, key: RedisKey) {
    if key in ks then key in ks' && ks'[key] == ks[key] else key !in ks'
  }

  ghost predicate SameJobs(q: Queue, q': Queue, userId: string) {
    forall i :: if JobId(userId, i) in q then JobId(userId, i) in q' && q'[JobId(userId, i)] == q[JobId(userId, i)]
                else JobId(userId, i) !in q'
  }

  lemma OtherJobs(q: Queue, userId: string, other: string, now: int)
    requires other != userId
    ensures SameJobs(q, Cancelled(q, other), userId) && SameJobs(q, Scheduled(q, other, now), userId)
  {
  }

  lemma OtherKeys(ks: Keyspace, key: RedisKey, other: RedisKey, es: Entries, deadline: int)
    requires key != other
    ensures SameKey(ks, Write(ks, other, es), key) && SameKey(ks, Expire(Write(ks, other, es), other, deadline), key)
  {
  }

  lemma OtherAddItem(s: Shop, userId: string, other: string, input: ItemInput)
    requires other != userId
    ensures SameCartAndJobs(s, AddItem(s, other, input).shop, userId)
  {
    var key, field := CartKey(other), Field(input.productId, input.variantId);
    var added := Added(s.catalog, Hget(s.redis, key, field), input);
    if added.Ok? {
      OtherKeys(s.redis, CartKey(userId), key, Hgetall(s.redis, key)[field := added.value], s.now + CART_TTL);
      OtherJobs(s.jobs, userId, other, s.now);
    }
  }

  lemma OtherTouched(s: Shop, userId: string, other: string, es: Entries)
    requires other != userId
    ensures SameCartAndJobs(s, Touched(s, Write(s.redis, CartKey(other), es), other), userId)
  {
    OtherKeys(s.redis, CartKey(userId), CartKey(other), es, s.now + CART_TTL);
    OtherJobs(s.jobs, userId, other, s.now);
  }

  lemma OtherMoves(s: Shop, userId: string, other: string, p: string, v: Option<string>)
    requires other != userId
    ensures SameCartAndJobs(s, MoveToCart(s, other, p, v).shop, userId)
    ensures SameCartAndJobs(s, MoveToWishlist(s, other, p, v).shop, userId)
  {
    var field, key, wishlist, cart := Field(p, v), CartKey(userId), WishlistKey(other), CartKey(other);
    var held := Hget(s.redis, wishlist, field);
    if held.Some? {
      OtherKeys(s.redis, key, wishlist, Hgetall(s.redis, wishlist) - {field}, 0);
      OtherAddItem(s.(redis := Hdel(s.redis, wishlist, field)), userId, other, ItemInput(p, v, held.value.quantity));
    }
    var taken := Hget(s.redis, cart, field);
    if taken.Some? {
      var rest := Hdel(s.redis, cart, field);
      OtherKeys(s.redis, key, cart, Hgetall(s.redis, cart) - {field}, 0);
      OtherKeys(rest, key, wishlist, Hgetall(rest, wishlist)[field := taken.value], s.now + WISHLIST_TTL);
    }
  }

  lemma OtherUpdates(s: Shop, userId: string, other: string, input: ItemInput)
    requires other != userId
    ensures SameCartAndJobs(s, UpdateItem(s, other, input).shop, userId)
  {
    var field, es := Field(input.productId, input.variantId), Hgetall(s.redis, CartKey(other));
    if UpdateItem(s, other, input).error.None? {
      OtherTouched(s, userId, other, if input.quantity == 0 then es - {field}
                                     else es[field := es[field].(quantity := input.quantity)]);
    }
  }

  lemma OtherReads(s: Shop, userId: string, key: RedisKey)
    requires key != CartKey(userId)
    ensures SameCartAndJobs(s, GetHash(s, key), userId)
  {
    OtherKeys(s.redis, CartKey(userId), key, Synced(s.catalog, Hgetall(s.redis, key)), s.now + Ttl(key));
  }

  /** Steps of others leave the user's cart, jobs and mail alone. */
  lemma OthersDoNotInterfere(s: Shop, step: ShopStep, userId: string)
    requires Actor(step) != Some(userId) && !step.DoFire? && !step.DoAdvance?
    ensures SameCartAndJobs(s, Do(s, step), userId)
    ensures Do(s, step).now == s.now && Do(s, step).sent == s.sent
  {
    var key := CartKey(userId);
    match step
    case DoAddItem(u, input) => OtherAddItem(s, userId, u, input);
    case DoUpdateItem(u, input) => OtherUpdates(s, userId, u, input);
    case DoRemoveItem(u, p, v) => OtherTouched(s, userId, u, Hgetall(s.redis, CartKey(u)) - {Field(p, v)});
    case DoClearCart(u) => OtherJobs(s.jobs, userId, u, s.now);
    case DoGetCart(u) => OtherReads(s, userId, CartKey(u));
    case DoGetWishlist(u) => OtherReads(s, userId, WishlistKey(u));
    case DoMoveToCart(u, p, v) => OtherMoves(s, userId, u, p, v);
    case DoMoveToWishlist(u, p, v) => OtherMoves(s, userId, u, p, v);
    case _ =>
  }

  /** A user's job can only be the next one in line. */
  lemma NextInLine(s: Shop, id: JobId, userId: string, t0: int, es: Entries, before: seq<Reminder>, k: nat)
    requires Good(s) && Waiting(s, userId, t0, es, before, k)
    requires id in s.jobs && s.jobs[id].due <= s.now && s.jobs[id].userId == userId
    ensures k < |DELAYS| && id == JobId(userId, k) && s.jobs[id] == Job(userId, k, t0 + DELAYS[k])
  {
    assert GoodJob(id, s.jobs[id], s.now);
    assert id == JobId(userId, id.index);
  }

  lemma OneMoreMail(sent: seq<Reminder>, userId: string, es: Entries, before: seq<Reminder>, k: nat)
    requires k < |DELAYS| && SentTo(sent, userId) == before + Mails(userId, es, k)
    ensures SentTo(sent + [Reminder(userId, k, HashTotal(es), DAYS_LEFT[k])], userId) == before + Mails(userId, es, k + 1)
  {
    var r := Reminder(userId, k, HashTotal(es), DAYS_LEFT[k]);
    SentToAppend(sent, r, userId);
    assert Mails(userId, es, k + 1) == Mails(userId, es, k) + [r];
  }

  lemma FireOwn(s: Shop, userId: string, t0: int, es: Entries, before: seq<Reminder>, k: nat)
    requires es != map[] && Waiting(s, userId, t0, es, before, k)
    requires k < |DELAYS| && t0 + DELAYS[k] <= s.now
    ensures Waiting(Fire(s, JobId(userId, k)), userId, t0, es, before, k + 1)
  {
    var s' := Fire(s, JobId(userId, k));
    assert JobId(userId, k) in s.jobs;
    DaysAnnounced(s.redis[CartKey(userId)], t0, s.now, k);
    assert s'.sent == s.sent + [Reminder(userId, k, HashTotal(es), DAYS_LEFT[k])];
    OneMoreMail(s.sent, userId, es, before, k);
  }

  lemma FireOthers(s: Shop, id: JobId, userId: string, t0: int, es: Entries, before: seq<Reminder>, k: nat)
    requires Waiting(s, userId, t0, es, before, k)
    requires id.userId != userId && (id in s.jobs ==> s.jobs[id].userId == id.userId)
    ensures Waiting(Fire(s, id), userId, t0, es, before, k)
  {
    var s' := Fire(s, id);
    if s'.sent != s.sent {
      SentToAppend(s.sent, s'.sent[|s.sent|], userId);
    }
  }

  lemma FireWhileWaiting(s: Shop, id: JobId, userId: string, t0: int, es: Entries, before: seq<Reminder>, k: nat) returns (k': nat)
    requires Good(s) && es != map[] && Waiting(s, userId, t0, es, before, k)
    ensures Waiting(Fire(s, id), userId, t0, es, before, k')
  {
    k' := k;
    assert id in s.jobs ==> GoodJob(id, s.jobs[id], s.now);
    if id.userId != userId {
      FireOthers(s, id, userId, t0, es, before, k);
    } else if id in s.jobs && s.jobs[id].due <= s.now {
      NextInLine(s, id, userId, t0, es, before, k);
      FireOwn(s, userId, t0, es, before, k);
      k' := k + 1;
    } else {
      assert Fire(s, id) == s;
    }
  }

  lemma StepWhileWaiting(s: Shop, step: ShopStep, userId: string, t0: int, es: Entries, before: seq<Reminder>, k: nat) returns (k': nat)
    requires Good(s) && es != map[] && Waiting(s, userId, t0, es, before, k)
    requires Actor(step) != Some(userId) && Prompt(s, step, userId)
    ensures Waiting(Do(s, step), userId, t0, es, before, k')
  {
    k' := k;
    if step.DoFire? {
      k' := FireWhileWaiting(s, step.id, userId, t0, es, before, k);
    } else if step.DoAdvance? {
      if k < |DELAYS| {
        assert JobId(userId, k) in s.jobs;
        assert s.now + step.dt <= t0 + DELAYS[k] + Lateness(k);
      }
    } else {
      OthersDoNotInterfere(s, step, userId);
    }
  }

  lemma {:induction false} RunWhileWaiting(s: Shop, steps: seq<ShopStep>, userId: string, t0: int, es: Entries, before: seq<Reminder>, k: nat) returns (k': nat)
    requires Good(s) && es != map[] && Waiting(s, userId, t0, es, before, k)
    requires QuietRun(s, steps, userId)
    ensures Waiting(Run(s, steps), userId, t0, es, before, k')
    decreases |steps|
  {
    if steps == [] {
      k' := k;
    } else {
      var k1 := StepWhileWaiting(s, steps[0], userId, t0, es, before, k);
      StepKeepsGood(s, steps[0]);
      k' := RunWhileWaiting(Do(s, steps[0]), steps[1..], userId, t0, es, before, k1);
    }
  }

  /** A non-empty cart right after a handler changed it. */
  ghost predicate JustLeft(s: Shop, userId: string) {
    Good(s) && CartSettled(s, userId) && Hgetall(s.redis, CartKey(userId)) != map[]
  }

  /** The reminders mailed since `s` are exactly the first `k` for the cart as it was left in `s`. */
  ghost predicate Mailed(s: Shop, s': Shop, userId: string, k: nat)
    requires k <= |DELAYS|
  {
    SentTo(s'.sent, userId) == SentTo(s.sent, userId) + Mails(userId, Hgetall(s.redis, CartKey(userId)), k)
  }

  lemma WaitingWhenLeft(s: Shop, userId: string)
    requires JustLeft(s, userId)
    ensures Waiting(s, userId, s.now, Hgetall(s.redis, CartKey(userId)), SentTo(s.sent, userId), 0)
  {
    assert Mails(userId, Hgetall(s.redis, CartKey(userId)), 0) == [];
  }

  lemma WaitingSinceLeft(s: Shop, steps: seq<ShopStep>, userId: string) returns (k: nat)
    requires JustLeft(s, userId) && QuietRun(s, steps, userId)
    ensures Waiting(Run(s, steps), userId, s.now, Hgetall(s.redis, CartKey(userId)), SentTo(s.sent, userId), k)
    ensures Mailed(s, Run(s, steps), userId, k)
  {
    WaitingWhenLeft(s, userId);
    k := RunWhileWaiting(s, steps, userId, s.now, Hgetall(s.redis, CartKey(userId)), SentTo(s.sent, userId), 0);
  }

  /**
   After a cart handler leaves a non-empty cart, and with no further action of that user, the reminders mailed are
   at any time the first few of the four, in order, each once, for the cart as it was left.
   */
  lemma RemindersComeInOrder(s: Shop, steps: seq<ShopStep>, userId: string)
    requires JustLeft(s, userId) && QuietRun(s, steps, userId)
    ensures exists k: nat :: k <= |DELAYS| && Mailed(s, Run(s, steps), userId, k)
  {
    var k := WaitingSinceLeft(s, steps, userId);
  }

  /** Once the last one's window has passed, all four have been mailed and no job is left. */
  lemma RemindersAllFire(s: Shop, steps: seq<ShopStep>, userId: string)
    requires JustLeft(s, userId) && QuietRun(s, steps, userId)
    requires Run(s, steps).now > s.now + DELAYS[3] + Lateness(3)
    ensures Mailed(s, Run(s, steps), userId, 4)
    ensures NoReminders(Run(s, steps), userId)
  {
    var k := WaitingSinceLeft(s, steps, userId);
    RunKeepsGood(s, steps);
    NoneWaits(Run(s, steps), userId, s.now, Hgetall(s.redis, CartKey(userId)), SentTo(s.sent, userId), k);
  }

  lemma NoneWaits(s: Shop, userId: string, t0: int, es: Entries, before: seq<Reminder>, k: nat)
    requires Good(s) && Waiting(s, userId, t0, es, before, k) && s.now > t0 + DELAYS[3] + Lateness(3)
    ensures k == 4 && NoReminders(s, userId)
  {
    forall i: nat ensures JobId(userId, i) !in s.jobs {
      assert JobId(userId, i) in s.jobs ==> i < |DELAYS|;
    }
  }

  lemma StepStaysSilent(s: Shop, step: ShopStep, userId: string)
    requires Good(s) && NoReminders(s, userId) && Actor(step) != Some(userId)
    ensures NoReminders(Do(s, step), userId) && SentTo(Do(s, step).sent, userId) == SentTo(s.sent, userId)
  {
    var s' := Do(s, step);
    if step.DoFire? {
      if s'.sent != s.sent {
        var id := step.id;
        assert GoodJob(id, s.jobs[id], s.now);
        assert id == JobId(id.userId, id.index);
        SentToAppend(s.sent, s'.sent[|s.sent|], userId);
      }
    } else if !step.DoAdvance? {
      OthersDoNotInterfere(s, step, userId);
    }
  }

  /** An emptied cart sends nothing more, whatever the others do and however late the workers are. */
  lemma {:induction false} EmptiedCartStaysSilent(s: Shop, steps: seq<ShopStep>, userId: string)
    requires Good(s) && NoReminders(s, userId) && forall step :: step in steps ==> Actor(step) != Some(userId)
    ensures SentTo(Run(s, steps).sent, userId) == SentTo(s.sent, userId)
    decreases |steps|
  {
    if steps != [] {
      assert steps[0] in steps;
      assert forall step :: step in steps[1..] ==> step in steps;
      StepKeepsGood(s, steps[0]);
      StepStaysSilent(s, steps[0], userId);
      EmptiedCartStaysSilent(Do(s, steps[0]), steps[1..], userId);
    }
  }

  // ---- Late workers ----

  /** Reminders mailed to one user for one cart total: no two of the same kind, announcing at most the whole week. */
  ghost predicate AtMostOnce(mails: seq<Reminder>, userId: string, total: real) {
    && (forall i :: 0 <= i < |mails| ==>
          mails[i].userId == userId && mails[i].index < |DELAYS| && mails[i].total == total && 0 <= mails[i].daysLeft <= 7)
    && (forall i, j :: 0 <= i < j < |mails| ==> mails[i].index != mails[j].index)
  }

  /** The user's cart is as it was left at `t0` or gone, and a reminder is still due or has been mailed, never both. */
  ghost predicate Left(s: Shop, userId: string, t0: int, es: Entries, before: seq<Reminder>, mails: seq<Reminder>) {
    && t0 <= s.now
    && (CartKey(userId) in s.redis ==> s.redis[CartKey(userId)] == Hash(es, Some(t0 + CART_TTL)))
    && SentTo(s.sent, userId) == before + mails
    && AtMostOnce(mails, userId, HashTotal(es))
    && Gone(s.jobs, mails)
  }

  /** A reminder that has been mailed is no longer queued. */
  ghost predicate Gone(q: Queue, mails: seq<Reminder>) {
    forall i :: 0 <= i < |mails| ==> JobId(mails[i].userId, mails[i].index) !in q
  }

  lemma OneMoreGone(q: Queue, mails: seq<Reminder>, r: Reminder)
    requires Gone(q, mails)
    ensures Gone(q - {JobId(r.userId, r.index)}, mails + [r])
  {
  }

  lemma StillQueued(q: Queue, mails: seq<Reminder>, r: Reminder)
    requires Gone(q, mails) && JobId(r.userId, r.index) in q && forall i :: 0 <= i < |mails| ==> mails[i].userId == r.userId
    ensures forall i :: 0 <= i < |mails| ==> mails[i].index != r.index
  {
  }

  lemma DaysInWeek(h: Hash, t0: int, now: int)
    requires h.deadline == Some(t0 + CART_TTL) && t0 <= now
    ensures 0 <= DaysLeft(TtlSeconds(h, now)) <= 7
  {
    var ms, seconds := h.deadline.value - now, TtlSeconds(h, now);
    assert SECOND * seconds <= ms + SECOND / 2;
    assert seconds <= 7 * 86400;
  }

  lemma OnceMore(mails: seq<Reminder>, r: Reminder, userId: string, total: real)
    requires AtMostOnce(mails, userId, total) && forall i :: 0 <= i < |mails| ==> mails[i].index != r.index
    requires r.userId == userId && r.index < |DELAYS| && r.total == total && 0 <= r.daysLeft <= 7
    ensures AtMostOnce(mails + [r], userId, total)
  {
  }

  /** What a worker mails for a due job. */
  lemma FireSends(s: Shop, id: JobId) returns (sent: seq<Reminder>)
    requires Good(s)
    ensures Fire(s, id).sent == s.sent + sent && Fire(s, id).redis == s.redis && Fire(s, id).now == s.now
    ensures sent == [] ==> forall k :: k in Fire(s, id).jobs ==> k in s.jobs
    ensures sent != [] ==>
              && id in s.jobs && id.index < |DELAYS| && Fire(s, id).jobs == s.jobs - {id}
              && CartKey(id.userId) in s.redis
              && var h := s.redis[CartKey(id.userId)];
                 sent == [Reminder(id.userId, id.index, HashTotal(h.entries), DaysLeft(TtlSeconds(h, s.now)))]
  {
    assert id in s.jobs ==> GoodJob(id, s.jobs[id], s.now);
    sent := Fire(s, id).sent[|s.sent|..];
  }

  /** One own reminder more, its job gone. */
  lemma OwnLeft(s: Shop, s': Shop, r: Reminder, userId: string, t0: int, es: Entries, before: seq<Reminder>, mails: seq<Reminder>)
    requires Left(s, userId, t0, es, before, mails) && s'.redis == s.redis && s'.now == s.now
    requires JobId(userId, r.index) in s.jobs && s'.jobs == s.jobs - {JobId(userId, r.index)}
    requires s'.sent == s.sent + [r]
    requires r.userId == userId && r.index < |DELAYS| && r.total == HashTotal(es) && 0 <= r.daysLeft <= 7
    ensures Left(s', userId, t0, es, before, mails + [r])
  {
    StillQueued(s.jobs, mails, r);
    OnceMore(mails, r, userId, HashTotal(es));
    OneMoreGone(s.jobs, mails, r);
    SentToAppend(s.sent, r, userId);
    assert before + (mails + [r]) == before + mails + [r];
  }

  /** No own reminder more. */
  lemma OthersLeft(s: Shop, s': Shop, sent: seq<Reminder>, userId: string, t0: int, es: Entries, before: seq<Reminder>, mails: seq<Reminder>)
    requires Left(s, userId, t0, es, before, mails) && s'.redis == s.redis && s'.now == s.now
    requires forall k :: k in s'.jobs ==> k in s.jobs
    requires s'.sent == s.sent + sent && |sent| <= 1 && forall r :: r in sent ==> r.userId != userId
    ensures Left(s', userId, t0, es, before, mails)
  {
    if sent == [] {
      assert s'.sent == s.sent;
    } else {
      assert sent[0] in sent && sent == [sent[0]];
      SentToAppend(s.sent, sent[0], userId);
    }
  }

  lemma FireLeft(s: Shop, id: JobId, userId: string, t0: int, es: Entries, before: seq<Reminder>, mails: seq<Reminder>)
    returns (mails': seq<Reminder>)
    requires Good(s) && Left(s, userId, t0, es, before, mails)
    ensures Left(Fire(s, id), userId, t0, es, before, mails')
  {
    var sent := FireSends(s, id);
    if sent != [] && id.userId == userId {
      mails' := mails + [sent[0]];
      DaysInWeek(s.redis[CartKey(userId)], t0, s.now);
      OwnLeft(s, Fire(s, id), sent[0], userId, t0, es, before, mails);
    } else {
      mails' := mails;
      OthersLeft(s, Fire(s, id), sent, userId, t0, es, before, mails);
    }
  }

  lemma StepLeft(s: Shop, step: ShopStep, userId: string, t0: int, es: Entries, before: seq<Reminder>, mails: seq<Reminder>)
    returns (mails': seq<Reminder>)
    requires Good(s) && Left(s, userId, t0, es, before, mails) && Actor(step) != Some(userId)
    ensures Left(Do(s, step), userId, t0, es, before, mails')
  {
    mails' := mails;
    if step.DoFire? {
      mails' := FireLeft(s, step.id, userId, t0, es, before, mails);
    } else if !step.DoAdvance? {
      OthersDoNotInterfere(s, step, userId);
    }
  }

  lemma {:induction false} RunLeft(s: Shop, steps: seq<ShopStep>, userId: string, t0: int, es: Entries, before: seq<Reminder>,
                                   mails: seq<Reminder>)
    returns (mails': seq<Reminder>)
    requires Good(s) && Left(s, userId, t0, es, before, mails)
    requires forall step :: step in steps ==> Actor(step) != Some(userId)
    ensures Left(Run(s, steps), userId, t0, es, before, mails')
    decreases |steps|
  {
    if steps == [] {
      mails' := mails;
    } else {
      assert steps[0] in steps;
      assert forall step :: step in steps[1..] ==> step in steps;
      var mails1 := StepLeft(s, steps[0], userId, t0, es, before, mails);
      StepKeepsGood(s, steps[0]);
      mails' := RunLeft(Do(s, steps[0]), steps[1..], userId, t0, es, before, mails1);
    }
  }

  /**
   However late the workers are: after a cart handler leaves a non-empty cart, and with no further action of that user,
   each of the four reminders is mailed at most once, with the total of the cart as it was left and 0 to 7 days.
   */
  lemma EachReminderAtMostOnce(s: Shop, steps: seq<ShopStep>, userId: string)
    requires JustLeft(s, userId) && forall step :: step in steps ==> Actor(step) != Some(userId)
    ensures var before, after := SentTo(s.sent, userId), SentTo(Run(s, steps).sent, userId);
            before <= after && AtMostOnce(after[|before|..], userId, HashTotal(Hgetall(s.redis, CartKey(userId))))
  {
    var before, es := SentTo(s.sent, userId), Hgetall(s.redis, CartKey(userId));
    var mails := RunLeft(s, steps, userId, s.now, es, before, []);
    assert (before + mails)[|before|..] == mails;
  }
}
