/** What every run of the cart, wishlist and reminder handlers keeps, and what single handlers conserve. */
module ShopRules {
  import opened Base
  import opened Pricing
  import opened Fields
  import opened Shop

  // ---- The invariant of both hashes and of the job queue ----

  predicate GoodEntry(field: string, it: CartItem) {
    1 <= it.quantity <= 99 && field == Field(it.productId, it.variantId)
  }

  ghost predicate GoodEntries(es: Entries) {
    forall f :: f in es ==> GoodEntry(f, es[f])
  }

  /** A key exists only with fields, under the right names, and with a deadline within its time to live. */
  ghost predicate GoodHash(h: Hash, ttl: int, now: int) {
    && h.entries != map[]
    && GoodEntries(h.entries)
    && h.deadline.Some?
    && now < h.deadline.value <= now + ttl
  }

  ghost predicate GoodRedis(ks: Keyspace, now: int) {
    forall key :: key in ks ==> GoodHash(ks[key], if key.CartKey? then 7 * 24 * 3600 * 1000 else 30 * 24 * 3600 * 1000, now)
  }

  predicate GoodJob(id: JobId, job: Job, now: int) {
    && id == JobId(job.userId, job.index)
    && id.index < |DELAYS|
    && job.due <= now + DELAYS[id.index]
  }

  /** Every job sits under the id made of its own user and index, so no two share a user and an index. */
  ghost predicate GoodQueue(q: Queue, now: int) {
    forall id :: id in q ==> GoodJob(id, q[id], now)
  }

  ghost predicate Good(s: Shop) {
    GoodRedis(s.redis, s.now) && GoodQueue(s.jobs, s.now)
  }

  /** Writing one key's entries and sliding its deadline leave the other keys as they were. */
  lemma WriteEffect(ks: Keyspace, key: RedisKey, es: Entries, deadline: int)
    ensures var ks' := Expire(Write(ks, key, es), key, deadline);
            && (forall k :: Hgetall(ks', k) == if k == key then es else Hgetall(ks, k))
            && (forall k :: Hgetall(Write(ks, key, es), k) == if k == key then es else Hgetall(ks, k))
  {
  }

  lemma WriteThenExpireKeepsGood(ks: Keyspace, key: RedisKey, es: Entries, now: int)
    requires GoodRedis(ks, now) && GoodEntries(es)
    ensures GoodRedis(Expire(Write(ks, key, es), key, now + Ttl(key)), now)
  {
  }

  lemma HdelKeepsGood(ks: Keyspace, key: RedisKey, field: string, now: int)
    requires GoodRedis(ks, now)
    ensures GoodRedis(Hdel(ks, key, field), now)
  {
  }

  lemma ScheduledKeepsGood(q: Queue, userId: string, now: int)
    requires GoodQueue(q, now)
    ensures GoodQueue(Scheduled(q, userId, now), now)
  {
  }

  lemma AddItemKeepsGood(s: Shop, userId: string, input: ItemInput)
    requires Good(s)
    ensures Good(AddItem(s, userId, input).shop)
  {
    var key, field := CartKey(userId), Field(input.productId, input.variantId);
    var added := Added(s.catalog, Hget(s.redis, key, field), input);
    if added.Ok? {
      assert GoodEntry(field, added.value);
      WriteThenExpireKeepsGood(s.redis, key, Hgetall(s.redis, key)[field := added.value], s.now);
      ScheduledKeepsGood(s.jobs, userId, s.now);
    }
  }

  lemma TouchedKeepsGood(s: Shop, es: Entries, userId: string)
    requires Good(s) && GoodEntries(es)
    ensures Good(Touched(s, Write(s.redis, CartKey(userId), es), userId))
  {
    WriteThenExpireKeepsGood(s.redis, CartKey(userId), es, s.now);
    ScheduledKeepsGood(s.jobs, userId, s.now);
  }

  lemma GetHashKeepsGood(s: Shop, key: RedisKey)
    requires Good(s)
    ensures Good(GetHash(s, key))
  {
    WriteThenExpireKeepsGood(s.redis, key, Synced(s.catalog, Hgetall(s.redis, key)), s.now);
  }

  lemma MoveToWishlistKeepsGood(s: Shop, userId: string, productId: string, variantId: Option<string>)
    requires Good(s)
    ensures Good(MoveToWishlist(s, userId, productId, variantId).shop)
  {
    var field := Field(productId, variantId);
    var rest := Hdel(s.redis, CartKey(userId), field);
    HdelKeepsGood(s.redis, CartKey(userId), field, s.now);
    match Hget(s.redis, CartKey(userId), field)
    case None =>
    case Some(it) =>
      var wishlist := WishlistKey(userId);
      WriteThenExpireKeepsGood(rest, wishlist, Hgetall(rest, wishlist)[field := it], s.now);
  }

  lemma UpdateItemKeepsGood(s: Shop, userId: string, input: ItemInput)
    requires Good(s)
    ensures Good(UpdateItem(s, userId, input).shop)
  {
    var field, es := Field(input.productId, input.variantId), Hgetall(s.redis, CartKey(userId));
    if UpdateItem(s, userId, input).error.None? {
      TouchedKeepsGood(s, if input.quantity == 0 then es - {field}
                          else es[field := es[field].(quantity := input.quantity)], userId);
    }
  }

  lemma AddToWishlistKeepsGood(s: Shop, userId: string, input: ItemInput)
    requires Good(s)
    ensures Good(AddToWishlist(s, userId, input).shop)
  {
    var key, field := WishlistKey(userId), Field(input.productId, input.variantId);
    var saved := Saved(s.catalog, input);
    if saved.Ok? {
      assert GoodEntry(field, saved.value);
      WriteThenExpireKeepsGood(s.redis, key, Hgetall(s.redis, key)[field := saved.value], s.now);
    }
  }

  lemma MoveToCartKeepsGood(s: Shop, userId: string, productId: string, variantId: Option<string>)
    requires Good(s)
    ensures Good(MoveToCart(s, userId, productId, variantId).shop)
  {
    var field := Field(productId, variantId);
    var held := Hget(s.redis, WishlistKey(userId), field);
    HdelKeepsGood(s.redis, WishlistKey(userId), field, s.now);
    if held.Some? {
      AddItemKeepsGood(s.(redis := Hdel(s.redis, WishlistKey(userId), field)), userId,
                       ItemInput(productId, variantId, held.value.quantity));
    }
  }

  lemma AdvanceKeepsGood(s: Shop, dt: nat)
    requires Good(s)
    ensures Good(Advance(s, dt))
  {
  }

  lemma StepKeepsGood(s: Shop, step: ShopStep)
    requires Good(s)
    ensures Good(Do(s, step))
  {
    match step
    case DoGetCart(u) => GetHashKeepsGood(s, CartKey(u));
    case DoGetWishlist(u) => GetHashKeepsGood(s, WishlistKey(u));
    case DoAddItem(u, input) => AddItemKeepsGood(s, u, input);
    case DoUpdateItem(u, input) => UpdateItemKeepsGood(s, u, input);
    case DoRemoveItem(u, p, v) => TouchedKeepsGood(s, Hgetall(s.redis, CartKey(u)) - {Field(p, v)}, u);
    case DoClearCart(u) =>
    case DoAddToWishlist(u, input) => AddToWishlistKeepsGood(s, u, input);
    case DoRemoveFromWishlist(u, p, v) => HdelKeepsGood(s.redis, WishlistKey(u), Field(p, v), s.now);
    case DoMoveToCart(u, p, v) => MoveToCartKeepsGood(s, u, p, v);
    case DoMoveToWishlist(u, p, v) => MoveToWishlistKeepsGood(s, u, p, v);
    case DoFire(id) =>
    case DoAdvance(dt) => AdvanceKeepsGood(s, dt);
    case DoChangeStore(catalog) =>
  }

  /** In every reachable state entries are well-formed, deadlines are live and bounded, and jobs are unique. */
  lemma {:induction false} RunKeepsGood(s: Shop, steps: seq<ShopStep>)
    requires Good(s)
    ensures Good(Run(s, steps))
    decreases |steps|
  {
    if steps != [] {
      StepKeepsGood(s, steps[0]);
      RunKeepsGood(Do(s, steps[0]), steps[1..]);
    }
  }

  lemma ReachableIsGood(now: int, catalog: Catalog, steps: seq<ShopStep>)
    ensures Good(Run(Opening(now, catalog), steps))
  {
    RunKeepsGood(Opening(now, catalog), steps);
  }

  // ---- Right after a CartService handler ----

  /** The four reminders of the user are pending, counted from now. */
  ghost predicate FreshReminders(s: Shop, userId: string) {
    forall i: nat :: i < |DELAYS| ==>
      JobId(userId, i) in s.jobs && s.jobs[JobId(userId, i)] == Job(userId, i, s.now + [1, 24, 72, 144][i] * 3600 * 1000)
  }

  ghost predicate NoReminders(s: Shop, userId: string) {
    forall i: nat :: JobId(userId, i) !in s.jobs
  }

  /** The cart is alive with a full time to live exactly when it has entries, and the reminders follow suit. */
  ghost predicate CartSettled(s: Shop, userId: string) {
    var key := CartKey(userId);
    if Hgetall(s.redis, key) == map[] then key !in s.redis && NoReminders(s, userId)
    else s.redis[key].deadline == Some(s.now + 7 * 24 * 3600 * 1000) && FreshReminders(s, userId)
  }

  lemma TouchedSettles(s: Shop, es: Entries, userId: string)
    requires Good(s)
    ensures CartSettled(Touched(s, Write(s.redis, CartKey(userId), es), userId), userId)
  {
    WriteEffect(s.redis, CartKey(userId), es, s.now + CART_TTL);
    var s' := Touched(s, Write(s.redis, CartKey(userId), es), userId);
    forall i: nat ensures JobId(userId, i) in Cancelled(s.jobs, userId) ==> false {
      if JobId(userId, i) in s.jobs {
        assert GoodJob(JobId(userId, i), s.jobs[JobId(userId, i)], s.now);
      }
    }
  }

  /** Every successful change of the cart leaves all four reminders fresh, or none when the cart is empty. */
  lemma CartHandlersSettle(s: Shop, userId: string, step: ShopStep)
    requires Good(s)
    requires (step.DoAddItem? && step.userId == userId && AddItem(s, userId, step.input).error.None?)
          || (step.DoUpdateItem? && step.userId == userId && UpdateItem(s, userId, step.input).error.None?)
          || (step.DoRemoveItem? && step.userId == userId)
          || (step.DoClearCart? && step.userId == userId)
    ensures CartSettled(Do(s, step), userId)
  {
    var key := CartKey(userId);
    var es := Hgetall(s.redis, key);
    match step
    case DoAddItem(_, input) =>
      var field := Field(input.productId, input.variantId);
      var added := es[field := Added(s.catalog, Hget(s.redis, key, field), input).value];
      TouchedSettles(s, added, userId);
      WriteEffect(s.redis, key, added, s.now + CART_TTL);
      assert Do(s, step) == Touched(s, Write(s.redis, key, added), userId);
    case DoUpdateItem(_, input) =>
      var field := Field(input.productId, input.variantId);
      TouchedSettles(s, if input.quantity == 0 then es - {field}
                        else es[field := es[field].(quantity := input.quantity)], userId);
    case DoRemoveItem(_, p, v) => TouchedSettles(s, es - {Field(p, v)}, userId);
    case DoClearCart(_) =>
      TouchedSettles(s, map[], userId);
      assert Do(s, step) == Touched(s, Write(s.redis, key, map[]), userId);
  }

  /**
   GetCart and GetWishlist keep a hash alive exactly when the sync leaves it an entry; it then has its full time to
   live again, as a cart response announces, and never less than before.
   */
  lemma GetHashDeadline(s: Shop, key: RedisKey)
    requires Good(s)
    ensures var s' := GetHash(s, key);
            && (key in s'.redis <==> Synced(s.catalog, Hgetall(s.redis, key)) != map[])
            && (key in s'.redis ==>
                  && key in s.redis
                  && s'.redis[key].deadline == Some(s'.now + if key.CartKey? then 7 * 24 * 3600 * 1000 else 30 * 24 * 3600 * 1000)
                  && s.redis[key].deadline.value <= s'.redis[key].deadline.value)
  {
    SyncedSubset(s.catalog, Hgetall(s.redis, key));
  }

  lemma SyncedSubset(catalog: Catalog, es: Entries)
    ensures forall f :: f in Synced(catalog, es) ==> f in es
  {
  }

  // ---- Sync ----

  /** The field-by-field meaning of a sync. */
  lemma SyncMeaning(catalog: Catalog, es: Entries, f: string)
    requires f in es
    ensures var it, fetch := es[f], Lookup(catalog, es[f].productId);
            var fetched := fetch.Replied? && fetch.item.id != "";
            && (f in Synced(catalog, es) <==> !(fetched && !fetch.item.isAvailable))
            && (f in Synced(catalog, es) ==>
                  var it' := Synced(catalog, es)[f];
                  && (it'.productId, it'.variantId, it'.quantity) == (it.productId, it.variantId, it.quantity)
                  && (if OnSale(fetch) && ExtractPrice(fetch.item, it.variantId).Ok? then
                        && ExtractPrice(fetch.item, it.variantId).value == Price(it'.price, it'.currency)
                        && it'.title == fetch.item.title
                        && it'.variantName == VariantName(fetch.item, it.variantId)
                        && it'.imageUrl == (if fetch.item.images == [] then None else Some(fetch.item.images[0]))
                      else it' == it))
    ensures forall g :: g in Synced(catalog, es) ==> g in es
  {
  }

  /** On a fixed snapshot a second sync changes nothing. */
  lemma SyncIdempotent(s: Shop, key: RedisKey)
    ensures GetHash(GetHash(s, key), key) == GetHash(s, key)
  {
    var es := Hgetall(s.redis, key);
    var once := Synced(s.catalog, es);
    forall f | f in once ensures SyncEntry(s.catalog, once[f]) == Some(once[f]) {
    }
    assert Synced(s.catalog, once) == once;
    assert Hgetall(GetHash(s, key).redis, key) == once;
  }

  // ---- Moves between the two hashes ----

  function QuantityAt(s: Shop, key: RedisKey, field: string): int {
    var held := Hget(s.redis, key, field);
    if held.Some? then held.value.quantity else 0
  }

  function Combined(s: Shop, userId: string, field: string): int {
    QuantityAt(s, CartKey(userId), field) + QuantityAt(s, WishlistKey(userId), field)
  }

  /** Apart from one field of the user's cart and wishlist, every hash holds what it held. */
  ghost predicate OnlyTouches(s: Shop, s': Shop, userId: string, field: string) {
    forall key, f :: key !in {CartKey(userId), WishlistKey(userId)} || f != field ==>
      Hget(s'.redis, key, f) == Hget(s.redis, key, f)
  }

  /** The only effect of AddItem on the hashes. */
  lemma AddItemEntries(s: Shop, userId: string, input: ItemInput)
    ensures var key, field := CartKey(userId), Field(input.productId, input.variantId);
            var added := Added(s.catalog, Hget(s.redis, key, field), input);
            var e := AddItem(s, userId, input);
            && (e.error.None? <==> added.Ok?)
            && (forall k :: Hgetall(e.shop.redis, k) == if k == key && added.Ok?
                  then Hgetall(s.redis, k)[field := added.value] else Hgetall(s.redis, k))
  {
    var key, field := CartKey(userId), Field(input.productId, input.variantId);
    var added := Added(s.catalog, Hget(s.redis, key, field), input);
    if added.Ok? {
      WriteEffect(s.redis, key, Hgetall(s.redis, key)[field := added.value], s.now + CART_TTL);
    }
  }

  /**
   AddItem succeeds exactly for a positive quantity of an item on sale with a price, as long as the entry stays
   within the cap; the entry then grows by that quantity, keeping what it showed if it existed, and is the synced
   entry if it did not. Otherwise nothing changes.
   */
  lemma AddItemExactly(s: Shop, userId: string, input: ItemInput)
    ensures var key, field := CartKey(userId), Field(input.productId, input.variantId);
            var e, fetch := AddItem(s, userId, input), Lookup(s.catalog, input.productId);
            && (e.error.None? <==>
                  && input.productId != "" && input.quantity > 0
                  && OnSale(fetch) && ExtractPrice(fetch.item, input.variantId).Ok?
                  && QuantityAt(s, key, field) + input.quantity <= 99)
            && (e.error.Some? ==> e.shop == s)
            && (e.error.None? ==>
                  && QuantityAt(e.shop, key, field) == QuantityAt(s, key, field) + input.quantity
                  && var it := Hget(e.shop.redis, key, field).value;
                     if Hget(s.redis, key, field).Some? then Hget(s.redis, key, field).value == it.(quantity := QuantityAt(s, key, field))
                     else SyncEntry(s.catalog, it) == Some(it) && (it.productId, it.variantId) == (input.productId, input.variantId))
  {
    AddItemEntries(s, userId, input);
  }

  /** UpdateItem succeeds exactly for an entry that exists and a quantity from 0 to the cap, which it then has; 0 removes it. */
  lemma UpdateItemExactly(s: Shop, userId: string, input: ItemInput)
    ensures var key, field := CartKey(userId), Field(input.productId, input.variantId);
            var e, held := UpdateItem(s, userId, input), Hget(s.redis, key, field);
            && (e.error.None? <==> input.productId != "" && 0 <= input.quantity <= 99 && held.Some?)
            && (e.error.Some? ==> e.shop == s)
            && (e.error.None? ==>
                  && Hget(e.shop.redis, key, field) == (if input.quantity == 0 then None else Some(held.value.(quantity := input.quantity)))
                  && forall k, f :: k != key || f != field ==> Hget(e.shop.redis, k, f) == Hget(s.redis, k, f))
  {
    var key, field := CartKey(userId), Field(input.productId, input.variantId);
    if UpdateItem(s, userId, input).error.None? {
      var es := Hgetall(s.redis, key);
      WriteEffect(s.redis, key, if input.quantity == 0 then es - {field}
                                else es[field := es[field].(quantity := input.quantity)], s.now + CART_TTL);
    }
  }

  /** Saving an item twice is the same as once, saves a single unit, and never touches the cart. */
  lemma AddToWishlistOnce(s: Shop, userId: string, input: ItemInput)
    ensures var key, field := WishlistKey(userId), Field(input.productId, input.variantId);
            var e := AddToWishlist(s, userId, input);
            && AddToWishlist(e.shop, userId, input) == e
            && (e.error.Some? || Hget(s.redis, key, field).Some? ==> e.shop == s)
            && (e.error.None? ==> Hget(e.shop.redis, key, field).Some?)
            && (e.shop != s ==> QuantityAt(e.shop, key, field) == 1)
            && (forall k :: k != key ==> Hgetall(e.shop.redis, k) == Hgetall(s.redis, k))
  {
    var key, field := WishlistKey(userId), Field(input.productId, input.variantId);
    var e := AddToWishlist(s, userId, input);
    if e.shop != s {
      WriteEffect(s.redis, key, Hgetall(s.redis, key)[field := Saved(s.catalog, input).value], s.now + WISHLIST_TTL);
    }
  }

  /** The entries of both hashes after a move to the cart. */
  lemma MoveToCartEntries(s: Shop, userId: string, productId: string, variantId: Option<string>)
    requires Hget(s.redis, WishlistKey(userId), Field(productId, variantId)).Some?
    ensures var field := Field(productId, variantId);
            var held := Hget(s.redis, WishlistKey(userId), field).value;
            var added := Added(s.catalog, Hget(s.redis, CartKey(userId), field), ItemInput(productId, variantId, held.quantity));
            var e := MoveToCart(s, userId, productId, variantId);
            && (e.error.None? <==> added.Ok?)
            && (forall k :: Hgetall(e.shop.redis, k) ==
                  if k == WishlistKey(userId) then Hgetall(s.redis, k) - {field}
                  else if k == CartKey(userId) && added.Ok? then Hgetall(s.redis, k)[field := added.value]
                  else Hgetall(s.redis, k))
  {
    var field, wishlist := Field(productId, variantId), WishlistKey(userId);
    WriteEffect(s.redis, wishlist, Hgetall(s.redis, wishlist) - {field}, 0);
    var held := Hget(s.redis, wishlist, field).value;
    AddItemEntries(s.(redis := Hdel(s.redis, wishlist, field)), userId, ItemInput(productId, variantId, held.quantity));
  }

  lemma MoveToWishlistEntries(s: Shop, userId: string, productId: string, variantId: Option<string>)
    requires Hget(s.redis, CartKey(userId), Field(productId, variantId)).Some?
    ensures var field := Field(productId, variantId);
            var held := Hget(s.redis, CartKey(userId), field).value;
            var e := MoveToWishlist(s, userId, productId, variantId);
            && e.error.None?
            && (forall k :: Hgetall(e.shop.redis, k) ==
                  if k == CartKey(userId) then Hgetall(s.redis, k) - {field}
                  else if k == WishlistKey(userId) then Hgetall(s.redis, k)[field := held]
                  else Hgetall(s.redis, k))
  {
    var field, cart, wishlist := Field(productId, variantId), CartKey(userId), WishlistKey(userId);
    WriteEffect(s.redis, cart, Hgetall(s.redis, cart) - {field}, 0);
    var rest := Hdel(s.redis, cart, field);
    WriteEffect(rest, wishlist, Hgetall(rest, wishlist)[field := Hget(s.redis, cart, field).value], s.now + WISHLIST_TTL);
  }

  /** No move touches any other field, or another user's hashes. */
  lemma MovesTouchOneField(s: Shop, userId: string, productId: string, variantId: Option<string>)
    ensures OnlyTouches(s, MoveToCart(s, userId, productId, variantId).shop, userId, Field(productId, variantId))
    ensures OnlyTouches(s, MoveToWishlist(s, userId, productId, variantId).shop, userId, Field(productId, variantId))
  {
    if Hget(s.redis, WishlistKey(userId), Field(productId, variantId)).Some? {
      MoveToCartEntries(s, userId, productId, variantId);
    }
    if Hget(s.redis, CartKey(userId), Field(productId, variantId)).Some? {
      MoveToWishlistEntries(s, userId, productId, variantId);
    }
  }

  /** A move to the wishlist leaves every reminder job where it was and does not slide the cart's deadline. */
  lemma MoveToWishlistKeepsReminders(s: Shop, userId: string, productId: string, variantId: Option<string>)
    ensures var s' := MoveToWishlist(s, userId, productId, variantId).shop;
            && s'.jobs == s.jobs
            && (CartKey(userId) in s'.redis ==>
                  CartKey(userId) in s.redis && s'.redis[CartKey(userId)].deadline == s.redis[CartKey(userId)].deadline)
  {
  }

  /** So a cart emptied by moving its only entry away keeps its four reminders, unlike one emptied by a removal. */
  lemma EmptiedByMoveKeepsReminders(s: Shop, userId: string, it: CartItem)
    requires Good(s) && CartSettled(s, userId)
    requires Hgetall(s.redis, CartKey(userId)) == map[Field(it.productId, it.variantId) := it]
    ensures var moved := MoveToWishlist(s, userId, it.productId, it.variantId).shop;
            CartKey(userId) !in moved.redis && FreshReminders(moved, userId) && !CartSettled(moved, userId)
    ensures var removed := RemoveItem(s, userId, it.productId, it.variantId);
            CartKey(userId) !in removed.redis && NoReminders(removed, userId)
  {
    var field := Field(it.productId, it.variantId);
    var es := Hgetall(s.redis, CartKey(userId));
    assert field in es;
    assert es - {field} == map[];
    MoveToWishlistKeepsReminders(s, userId, it.productId, it.variantId);
    assert JobId(userId, 0) in s.jobs;
    CartHandlersSettle(s, userId, DoRemoveItem(userId, it.productId, it.variantId));
  }

  lemma AddedQuantity(catalog: Catalog, held: Option<CartItem>, input: ItemInput)
    ensures var added := Added(catalog, held, input);
            added.Ok? ==> added.value.quantity == input.quantity + (if held.Some? then held.value.quantity else 0)
  {
  }

  /**
   Moving to the cart conserves the field's combined quantity exactly when the wishlist has no such entry or the item
   is named, on sale and priced and both entries together stay within the cap; otherwise the entry is gone from the
   wishlist and the cart is as it was.
   */
  lemma MoveToCartConserves(s: Shop, userId: string, productId: string, variantId: Option<string>)
    requires Good(s)
    ensures var field, fetch := Field(productId, variantId), Lookup(s.catalog, productId);
            var held := Hget(s.redis, WishlistKey(userId), field);
            var e := MoveToCart(s, userId, productId, variantId);
            var accepted := productId != "" && OnSale(fetch) && ExtractPrice(fetch.item, variantId).Ok?
                            && Combined(s, userId, field) <= 99;
            && (e.error.None? <==> held.Some? && accepted)
            && (Combined(e.shop, userId, field) == Combined(s, userId, field) <==> held.None? || accepted)
            && Hget(e.shop.redis, WishlistKey(userId), field) == None
            && (!accepted ==> Hget(e.shop.redis, CartKey(userId), field) == Hget(s.redis, CartKey(userId), field))
  {
    var field := Field(productId, variantId);
    var held := Hget(s.redis, WishlistKey(userId), field);
    if held.Some? {
      assert GoodEntry(field, held.value);
      MoveToCartEntries(s, userId, productId, variantId);
      AddedQuantity(s.catalog, Hget(s.redis, CartKey(userId), field), ItemInput(productId, variantId, held.value.quantity));
    }
  }

  /** A failed move does lose the item: here the store has withdrawn it since it was saved. */
  lemma FailedMoveLosesItem()
    ensures var saved := CartItem("p", None, 2, 5.0, USD, "Beans", None, None);
            var s := Shop(0, map[], map[WishlistKey("u") := Hash(map["p" := saved], Some(DAY))], map[], []);
            var e := MoveToCart(s, "u", "p", None);
            Good(s) && e.error == Some(NotFound) && Combined(s, "u", "p") == 2 && Combined(e.shop, "u", "p") == 0
  {
    var h := Hash(map["p" := CartItem("p", None, 2, 5.0, USD, "Beans", None, None)], Some(DAY));
    assert "p" in h.entries;
    assert GoodHash(h, WISHLIST_TTL, 0);
  }

  /** Moving to the wishlist conserves the combined quantity exactly when the wishlist had no such entry. */
  lemma MoveToWishlistConserves(s: Shop, userId: string, productId: string, variantId: Option<string>)
    requires Good(s)
    ensures var field := Field(productId, variantId);
            var cart := Hget(s.redis, CartKey(userId), field);
            var e := MoveToWishlist(s, userId, productId, variantId);
            && (e.error.None? <==> cart.Some?)
            && (cart.Some? ==>
                  && (Combined(e.shop, userId, field) == Combined(s, userId, field)
                      <==> Hget(s.redis, WishlistKey(userId), field).None?)
                  && Hget(e.shop.redis, WishlistKey(userId), field) == cart
                  && Hget(e.shop.redis, CartKey(userId), field) == None)
  {
    if Hget(s.redis, CartKey(userId), Field(productId, variantId)).Some? {
      MoveToWishlistEntries(s, userId, productId, variantId);
    }
  }

  /** Adding a priceable item to a cart without it stores what a sync would make of such an entry. */
  lemma AddedAfresh(catalog: Catalog, it: CartItem)
    requires it.productId != "" && 1 <= it.quantity <= 99
    requires OnSale(Lookup(catalog, it.productId))
    requires ExtractPrice(Lookup(catalog, it.productId).item, it.variantId).Ok?
    ensures SyncEntry(catalog, it).Some?
    ensures Added(catalog, None, ItemInput(it.productId, it.variantId, it.quantity)) == Ok(SyncEntry(catalog, it).value)
  {
  }

  /** Taking an item back from the wishlist into a cart without it. */
  lemma TakeBack(s: Shop, userId: string, it: CartItem)
    requires it.productId != "" && 1 <= it.quantity <= 99
    requires OnSale(Lookup(s.catalog, it.productId))
    requires ExtractPrice(Lookup(s.catalog, it.productId).item, it.variantId).Ok?
    requires var field := Field(it.productId, it.variantId);
             Hget(s.redis, CartKey(userId), field) == None && Hget(s.redis, WishlistKey(userId), field) == Some(it)
    ensures var field := Field(it.productId, it.variantId);
            var e := MoveToCart(s, userId, it.productId, it.variantId);
            && e.error.None?
            && SyncEntry(s.catalog, it).Some?
            && (forall k :: Hgetall(e.shop.redis, k) ==
                  if k == WishlistKey(userId) then Hgetall(s.redis, k) - {field}
                  else if k == CartKey(userId) then Hgetall(s.redis, k)[field := SyncEntry(s.catalog, it).value]
                  else Hgetall(s.redis, k))
  {
    AddedAfresh(s.catalog, it);
    MoveToCartEntries(s, userId, it.productId, it.variantId);
  }

  /** The hashes of `s'` are those of `s` with one entry written into the user's cart. */
  ghost predicate SameButFor(s: Shop, s': Shop, userId: string, field: string, it: CartItem) {
    forall k :: Hgetall(s'.redis, k) ==
      if k == CartKey(userId) then Hgetall(s.redis, k)[field := it] else Hgetall(s.redis, k)
  }

  /**
   Setting an item aside and taking it back restores both hashes: the cart holds the entry a sync would have
   produced, and every other entry of every hash is as before.
   */
  lemma MoveRoundTrip(s: Shop, userId: string, it: CartItem)
    requires it.productId != "" && 1 <= it.quantity <= 99
    requires var field := Field(it.productId, it.variantId);
             Hget(s.redis, CartKey(userId), field) == Some(it) && Hget(s.redis, WishlistKey(userId), field) == None
    requires OnSale(Lookup(s.catalog, it.productId))
    requires ExtractPrice(Lookup(s.catalog, it.productId).item, it.variantId).Ok?
    ensures var away := MoveToWishlist(s, userId, it.productId, it.variantId);
            var back := MoveToCart(away.shop, userId, it.productId, it.variantId);
            && away.error.None? && back.error.None?
            && SyncEntry(s.catalog, it).Some?
            && SameButFor(s, back.shop, userId, Field(it.productId, it.variantId), SyncEntry(s.catalog, it).value)
  {
    var field := Field(it.productId, it.variantId);
    var wishlist, cart := Hgetall(s.redis, WishlistKey(userId)), Hgetall(s.redis, CartKey(userId));
    MoveToWishlistEntries(s, userId, it.productId, it.variantId);
    var away := MoveToWishlist(s, userId, it.productId, it.variantId).shop;
    assert away.catalog == s.catalog;
    TakeBack(away, userId, it);
    OutAndBack(wishlist, cart, field, it, SyncEntry(s.catalog, it).value);
  }

  lemma OutAndBack(wishlist: Entries, cart: Entries, field: string, it: CartItem, it': CartItem)
    requires field !in wishlist
    ensures wishlist[field := it] - {field} == wishlist
    ensures (cart - {field})[field := it'] == cart[field := it']
  {
  }

  /** For an entry in sync the round trip restores every hash exactly. */
  lemma MoveRoundTripExact(s: Shop, userId: string, it: CartItem)
    requires it.productId != "" && 1 <= it.quantity <= 99
    requires var field := Field(it.productId, it.variantId);
             Hget(s.redis, CartKey(userId), field) == Some(it) && Hget(s.redis, WishlistKey(userId), field) == None
    requires OnSale(Lookup(s.catalog, it.productId))
    requires ExtractPrice(Lookup(s.catalog, it.productId).item, it.variantId).Ok?
    requires SyncEntry(s.catalog, it) == Some(it)
    ensures var away := MoveToWishlist(s, userId, it.productId, it.variantId).shop;
            forall k :: Hgetall(MoveToCart(away, userId, it.productId, it.variantId).shop.redis, k) == Hgetall(s.redis, k)
  {
    MoveRoundTrip(s, userId, it);
    var cart := Hgetall(s.redis, CartKey(userId));
    assert cart[Field(it.productId, it.variantId) := it] == cart;
  }
}
