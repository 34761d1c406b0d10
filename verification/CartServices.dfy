/** The cart, wishlist and reminder services, each method proved against its state-machine handler. */
module CartServices {
  import opened Base
  import opened Pricing
  import opened Fields
  import opened Sums
  import opened Environments
  import opened S = Shop
  import Money

  /** `listing` is the hash order the items stand in; it is not sent. */
  datatype CartResponse = CartResponse(
    userId: string, items: seq<CartItem>, total: real, currency: Currency, expiresAt: Option<int>, listing: seq<string>)

  /** The items are the entries of the hash, each once, in the listed order. */
  ghost predicate Lists(items: seq<CartItem>, es: Entries, listing: seq<string>) {
    && Enumerates(listing, es.Keys)
    && |items| == |listing|
    && forall i :: 0 <= i < |listing| ==> listing[i] in es && items[i] == es[listing[i]]
  }

  /** The response shows every entry of the hash once, in some order, and the sum over all of them. */
  ghost predicate Shows(r: CartResponse, userId: string, es: Entries, expiresAt: Option<int>) {
    && r.userId == userId
    && r.total == HashTotal(es)
    && r.currency == (if r.items == [] then Unspecified else r.items[0].currency)
    && r.expiresAt == (if es == map[] then None else expiresAt)
    && Lists(r.items, es, r.listing)
  }

  /** The shown items' sum, as the response computes it. */
  method BuildResponse(env: Environment, key: RedisKey, expiresAt: Option<int>) returns (r: CartResponse)
    ensures Shows(r, key.userId, Hgetall(env.redis, key), expiresAt)
  {
    var fields := env.Hgetall(key);
    var es := Hgetall(env.redis, key);
    assert forall i :: 0 <= i < |fields| ==> fields[i] in fields;
    var items := seq(|fields|, i requires 0 <= i < |fields| => es[fields[i]]);
    var priced := seq(|items|, i requires 0 <= i < |items| => Money.Entry(items[i].price, items[i].quantity));
    var total := Money.Total(priced);
    assert total == HashTotal(es) by {
      Money.TotalIsSum(priced);
      assert Amounts(es).Keys == es.Keys;
      assert Money.Amounts(priced) == Listed(Amounts(es), fields);
      SumOfAnyOrder(Amounts(es), fields);
    }
    assert es == map[] <==> fields == [] by {
      if fields != [] {
        assert fields[0] in es;
      }
      if es != map[] {
        var f :| f in es.Keys;
        assert f in fields;
      }
    }
    r := CartResponse(key.userId, items, total, if items == [] then Unspecified else items[0].currency,
                      if fields == [] then None else expiresAt, fields);
  }

  // ---- Sync ----

  /** The hash in the middle of a sync: the fields already visited are reconciled, the others untouched. */
  function Partly(catalog: Catalog, es: Entries, visited: seq<string>): Entries {
    map f | f in es && (f in visited ==> SyncEntry(catalog, es[f]).Some?)
      :: if f in visited then SyncEntry(catalog, es[f]).value else es[f]
  }

  lemma WriteTwice(ks: Keyspace, key: RedisKey, es: Entries, es': Entries)
    requires es != map[]
    ensures Hgetall(Write(ks, key, es), key) == es
    ensures Write(Write(ks, key, es), key, es') == Write(ks, key, es')
  {
  }

  /** The product ids of the entries, each once. */
  method DistinctProducts(es: Entries, fields: seq<string>) returns (ids: seq<string>)
    requires forall f :: f in fields ==> f in es
    ensures forall f :: f in fields ==> es[f].productId in ids
    ensures forall i, j :: 0 <= i < j < |ids| ==> ids[i] != ids[j]
  {
    ids := [];
    for i := 0 to |fields|
      invariant forall k :: 0 <= k < i ==> es[fields[k]].productId in ids
      invariant forall k, j :: 0 <= k < j < |ids| ==> ids[k] != ids[j]
    {
      var id := es[fields[i]].productId;
      if id !in ids {
        ids := ids + [id];
      }
    }
  }

  /** The store's answers, one call per distinct product; failed and empty answers leave no entry. */
  method FetchAll(env: Environment, ids: seq<string>) returns (items: map<string, StoreItem>)
    ensures forall id :: id in items <==> id in ids && Lookup(env.catalog, id).Replied? && Lookup(env.catalog, id).item.id != ""
    ensures forall id :: id in items ==> items[id] == Lookup(env.catalog, id).item
  {
    items := map[];
    for i := 0 to |ids|
      invariant forall id :: id in items <==>
                  id in ids[..i] && Lookup(env.catalog, id).Replied? && Lookup(env.catalog, id).item.id != ""
      invariant forall id :: id in items ==> items[id] == Lookup(env.catalog, id).item
    {
      var fetch := env.GetStoreItem(ids[i]);
      if fetch.Replied? && fetch.item.id != "" {
        items := items[ids[i] := fetch.item];
      }
    }
  }

  /** Reconciling one field with the store's answer for its product. */
  method SyncField(env: Environment, key: RedisKey, field: string, it: CartItem, items: map<string, StoreItem>)
    requires it.productId in items <==>
               Lookup(env.catalog, it.productId).Replied? && Lookup(env.catalog, it.productId).item.id != ""
    requires it.productId in items ==> items[it.productId] == Lookup(env.catalog, it.productId).item
    requires Hget(env.redis, key, field) == Some(it)
    modifies env`redis
    ensures env.redis == Write(old(env.redis), key,
              match SyncEntry(env.catalog, it)
              case None => Hgetall(old(env.redis), key) - {field}
              case Some(it') => Hgetall(old(env.redis), key)[field := it'])
  {
    ghost var es := Hgetall(env.redis, key);
    assert es[field := it] == es && Write(env.redis, key, es) == env.redis by {
      assert es != map[];
    }
    if it.productId !in items {
      return;
    }
    var item := items[it.productId];
    if !item.isAvailable {
      env.Hdel(key, field);
      return;
    }
    match ExtractPrice(item, it.variantId) {
      case Err(_) =>
      case Ok(p) =>
        var current := Refresh(it, item, p);
        var priceChanged := current.price != it.price || current.currency != it.currency;
        var displayChanged := current.title != it.title || current.variantName != it.variantName || current.imageUrl != it.imageUrl;
        if priceChanged || displayChanged {
          env.Hset(key, field, current);
        }
    }
  }

  /** A Redis key exists only with fields. */
  predicate NoEmptyHash(ks: Keyspace, key: RedisKey) {
    key in ks ==> ks[key].entries != map[]
  }

  /** The sync loop of carts and wishlists alike. */
  method SyncWithStore(env: Environment, key: RedisKey)
    requires NoEmptyHash(env.redis, key)
    modifies env`redis
    ensures env.redis == Write(old(env.redis), key, Synced(env.catalog, Hgetall(old(env.redis), key)))
  {
    var fields := env.Hgetall(key);
    var es := Hgetall(env.redis, key);
    assert forall f :: f in fields <==> f in es;
    if fields == [] {
      assert forall f :: f !in es;
      assert Synced(env.catalog, es) == map[];
      return;
    }
    assert fields[0] in es;
    PartlyAll(env.catalog, es, fields);
    assert fields[..0] == [];
    var ids := DistinctProducts(es, fields);
    var items := FetchAll(env, ids);
    for i := 0 to |fields|
      invariant env.redis == Write(old(env.redis), key, Partly(env.catalog, es, fields[..i]))
    {
      var field := fields[i];
      PartlyStep(env.catalog, es, fields, i);
      WriteTwice(old(env.redis), key, Partly(env.catalog, es, fields[..i]), Partly(env.catalog, es, fields[..i + 1]));
      SyncField(env, key, field, es[field], items);
    }
    assert fields[..|fields|] == fields;
    PartlyAll(env.catalog, es, fields);
  }

  lemma PartlyAll(catalog: Catalog, es: Entries, fields: seq<string>)
    requires Enumerates(fields, es.Keys)
    ensures Partly(catalog, es, fields) == Synced(catalog, es)
    ensures Partly(catalog, es, []) == es
  {
  }

  lemma PartlyStep(catalog: Catalog, es: Entries, fields: seq<string>, i: nat)
    requires i < |fields| && Enumerates(fields, es.Keys)
    ensures fields[i] in es
    ensures var f, before := fields[i], Partly(catalog, es, fields[..i]);
            && f in before && before[f] == es[f]
            && Partly(catalog, es, fields[..i + 1]) ==
                 match SyncEntry(catalog, es[f])
                 case None => before - {f}
                 case Some(it) => before[f := it]
  {
    assert fields[i] in fields;
    assert fields[i] !in fields[..i];
    assert fields[..i + 1] == fields[..i] + [fields[i]];
  }

  // ---- CartAbandonmentService and its worker ----

  lemma AllScheduled(q: Queue, q': Queue, userId: string, now: int)
    requires var cleared := Cancelled(q, userId);
             && (forall id :: id in q' <==> id in cleared || (id.userId == userId && id.index < |DELAYS|))
             && (forall id :: id in q' ==>
                   q'[id] == if id.userId == userId && id.index < |DELAYS| then Job(userId, id.index, now + DELAYS[id.index])
                             else cleared[id])
    ensures q' == Scheduled(q, userId, now)
  {
    JobIdsAre(userId);
    forall id | id in q' ensures id in Scheduled(q, userId, now) && q'[id] == Scheduled(q, userId, now)[id] {
    }
    forall id | id in Scheduled(q, userId, now) ensures id in q' {
    }
  }

  lemma JobIdsAre(userId: string)
    ensures forall id :: id in JobIds(userId) <==> id.userId == userId && id.index < |DELAYS|
  {
    forall id ensures id in JobIds(userId) <==> id.userId == userId && id.index < |DELAYS| {
      if id.userId == userId && id.index < |DELAYS| {
        assert id == JobId(userId, id.index);
      }
    }
  }

  class CartAbandonmentService {
    const env: Environment

    constructor (env: Environment)
      ensures this.env == env
    {
      this.env := env;
    }

    method CancelReminders(userId: string)
      modifies env`jobs
      ensures env.jobs == Cancelled(old(env.jobs), userId)
    {
      for i := 0 to |DELAYS|
        invariant env.jobs == old(env.jobs) - set k: nat | k < i :: JobId(userId, k)
      {
        env.RemoveJob(JobId(userId, i));
        assert (set k: nat | k < i + 1 :: JobId(userId, k)) == (set k: nat | k < i :: JobId(userId, k)) + {JobId(userId, i)};
      }
      assert JobIds(userId) == set k: nat | k < |DELAYS| :: JobId(userId, k);
    }

    method ScheduleReminders(userId: string)
      modifies env`jobs
      ensures env.jobs == Scheduled(old(env.jobs), userId, env.now)
    {
      CancelReminders(userId);
      ghost var cleared := env.jobs;
      for i := 0 to |DELAYS|
        invariant forall id :: id in env.jobs <==> id in cleared || (id.userId == userId && id.index < i)
        invariant forall id :: id in env.jobs ==>
                    env.jobs[id] == if id.userId == userId && id.index < i then Job(userId, id.index, env.now + DELAYS[id.index])
                                    else cleared[id]
      {
        assert JobId(userId, i) in JobIds(userId);
        env.AddJob(JobId(userId, i), Job(userId, i, env.now + DELAYS[i]));
      }
      AllScheduled(old(env.jobs), env.jobs, userId, env.now);
    }

    /** The worker's run over one job that has become due. */
    method Process(id: JobId)
      requires id in env.jobs && env.jobs[id].due <= env.now
      modifies env`jobs, env`sent
      ensures env.ShopState() == Fire(old(env.ShopState()), id)
    {
      var job := env.jobs[id];
      env.RemoveJob(id);
      var key := CartKey(job.userId);
      var cart := BuildResponse(env, key, None);
      if cart.items == [] {
        EmptyResponse(cart, job.userId, Hgetall(env.redis, key), None);
        return;
      }
      EmptyResponse(cart, job.userId, Hgetall(env.redis, key), None);
      var days := DaysLeft(TtlSeconds(env.redis[key], env.now));
      env.sent := env.sent + [Reminder(job.userId, job.index, cart.total, days)];
    }
  }

  lemma EmptyResponse(r: CartResponse, userId: string, es: Entries, expiresAt: Option<int>)
    requires Shows(r, userId, es, expiresAt)
    ensures r.items == [] <==> es == map[]
  {
    if r.listing != [] {
      assert r.listing[0] in r.listing;
    }
    if f :| f in es.Keys {
      assert f in r.listing;
    }
  }

  lemma WriteLeavesNoEmptyHash(ks: Keyspace, key: RedisKey, es: Entries)
    ensures NoEmptyHash(Write(ks, key, es), key)
  {
  }

  /** The end of GetCart and GetWishlist alike: answer with the hash as it is, then slide its deadline if it shows anything. */
  method AnswerAndSlide(env: Environment, key: RedisKey, ttl: int, expiresAt: Option<int>) returns (r: CartResponse)
    requires NoEmptyHash(env.redis, key)
    modifies env`redis
    ensures env.redis == Expire(old(env.redis), key, env.now + ttl)
    ensures Shows(r, key.userId, Hgetall(env.redis, key), expiresAt)
    ensures expiresAt == Some(env.now + ttl) ==> r.expiresAt == if key in env.redis then env.redis[key].deadline else None
  {
    r := BuildResponse(env, key, expiresAt);
    EmptyResponse(r, key.userId, Hgetall(env.redis, key), expiresAt);
    if r.items != [] {
      env.Expire(key, ttl);
    }
  }

  // ---- CartService ----

  class CartService {
    const env: Environment
    const reminders: CartAbandonmentService

    constructor (reminders: CartAbandonmentService)
      ensures this.reminders == reminders && env == reminders.env
    {
      this.env := reminders.env;
      this.reminders := reminders;
    }

    /** The response of a cart operation on the state it leaves. */
    ghost predicate Answers(r: CartResponse, userId: string)
      reads env
    {
      Shows(r, userId, Hgetall(env.redis, CartKey(userId)), Some(env.now + CART_TTL))
    }

    /** The response announces the deadline Redis actually holds for the cart, and none for an empty cart. */
    ghost predicate AnnouncesDeadline(r: CartResponse, userId: string)
      reads env
    {
      r.expiresAt == if CartKey(userId) in env.redis then env.redis[CartKey(userId)].deadline else None
    }

    method BuildCartResponse(userId: string) returns (r: CartResponse)
      ensures Answers(r, userId)
    {
      r := BuildResponse(env, CartKey(userId), Some(env.now + CART_TTL));
    }

    method GetCart(userId: string) returns (r: CartResponse)
      requires NoEmptyHash(env.redis, CartKey(userId))
      modifies env`redis
      ensures env.ShopState() == GetHash(old(env.ShopState()), CartKey(userId))
      ensures Answers(r, userId) && AnnouncesDeadline(r, userId)
    {
      SyncWithStore(env, CartKey(userId));
      WriteLeavesNoEmptyHash(old(env.redis), CartKey(userId), Synced(env.catalog, Hgetall(old(env.redis), CartKey(userId))));
      r := AnswerAndSlide(env, CartKey(userId), CART_TTL, Some(env.now + CART_TTL));
    }

    method FetchAndValidateStoreItem(productId: string) returns (r: Result<StoreItem>)
      ensures r == FetchForCart(env.catalog, productId)
    {
      var fetch := env.GetStoreItem(productId);
      match fetch {
        case Refused(code) => return if code == GRPC_NOT_FOUND then Err(NotFound) else Err(Internal);
        case Nothing => return Err(NotFound);
        case Replied(item) =>
          if item.id == "" { return Err(NotFound); }
          if !item.isAvailable { return Err(PreconditionFailed); }
          return Ok(item);
      }
    }

    /** Everything AddItem checks before it writes, and the entry it then stores. */
    method PrepareItem(userId: string, input: ItemInput) returns (r: Result<CartItem>)
      ensures r == Added(env.catalog, Hget(env.redis, CartKey(userId), Field(input.productId, input.variantId)), input)
    {
      if input.productId == "" || input.quantity <= 0 { return Err(BadRequest); }
      var item := FetchAndValidateStoreItem(input.productId);
      if item.Err? { return Err(item.error); }
      var price := ExtractPrice(item.value, input.variantId);
      if price.Err? { return Err(price.error); }
      var existing := Hget(env.redis, CartKey(userId), Field(input.productId, input.variantId));
      var quantity := if existing.Some? then existing.value.quantity + input.quantity else input.quantity;
      if quantity > MAX_QUANTITY { return Err(BadRequest); }
      return Ok(if existing.Some? then existing.value.(quantity := quantity) else Enrich(input, item.value, price.value));
    }

    method StoreEntry(userId: string, field: string, it: CartItem) returns (r: CartResponse)
      requires reminders.env == env
      modifies env`redis, env`jobs
      ensures env.ShopState() == WithEntry(old(env.ShopState()), userId, field, it)
      ensures Answers(r, userId) && AnnouncesDeadline(r, userId)
    {
      env.Hset(CartKey(userId), field, it);
      env.Expire(CartKey(userId), CART_TTL);
      reminders.ScheduleReminders(userId);
      r := BuildCartResponse(userId);
    }

    method AddItem(userId: string, input: ItemInput) returns (r: Result<CartResponse>)
      requires reminders.env == env
      modifies env`redis, env`jobs
      ensures var e := S.AddItem(old(env.ShopState()), userId, input);
              env.ShopState() == e.shop && if e.error.Some? then r == Err(e.error.value) else r.Ok? && Answers(r.value, userId)
      ensures r.Ok? ==> AnnouncesDeadline(r.value, userId)
    {
      var it := PrepareItem(userId, input);
      if it.Err? { return Err(it.error); }
      var response := StoreEntry(userId, Field(input.productId, input.variantId), it.value);
      return Ok(response);
    }

    /** Slides the deadline, answers, and cancels or reschedules the reminders by what the answer shows. */
    method Touch(userId: string) returns (r: CartResponse)
      requires reminders.env == env && NoEmptyHash(env.redis, CartKey(userId))
      modifies env`redis, env`jobs
      ensures env.ShopState() == Touched(old(env.ShopState()), old(env.redis), userId)
      ensures Answers(r, userId) && AnnouncesDeadline(r, userId)
    {
      env.Expire(CartKey(userId), CART_TTL);
      r := BuildCartResponse(userId);
      EmptyResponse(r, userId, Hgetall(env.redis, CartKey(userId)), Some(env.now + CART_TTL));
      if r.items == [] {
        reminders.CancelReminders(userId);
      } else {
        reminders.ScheduleReminders(userId);
      }
    }

    method UpdateItem(userId: string, input: ItemInput) returns (r: Result<CartResponse>)
      requires reminders.env == env
      modifies env`redis, env`jobs
      ensures var e := S.UpdateItem(old(env.ShopState()), userId, input);
              env.ShopState() == e.shop && if e.error.Some? then r == Err(e.error.value) else r.Ok? && Answers(r.value, userId)
      ensures r.Ok? ==> AnnouncesDeadline(r.value, userId)
    {
      if input.productId == "" || input.quantity < 0 || input.quantity > MAX_QUANTITY { return Err(BadRequest); }
      var key, field := CartKey(userId), Field(input.productId, input.variantId);
      var existing := Hget(env.redis, key, field);
      if existing.None? { return Err(NotFound); }
      if input.quantity <= 0 {
        env.Hdel(key, field);
      } else {
        env.Hset(key, field, existing.value.(quantity := input.quantity));
      }
      var response := Touch(userId);
      return Ok(response);
    }

    method RemoveItem(userId: string, productId: string, variantId: Option<string>) returns (r: CartResponse)
      requires reminders.env == env
      modifies env`redis, env`jobs
      ensures env.ShopState() == S.RemoveItem(old(env.ShopState()), userId, productId, variantId)
      ensures Answers(r, userId) && AnnouncesDeadline(r, userId)
    {
      env.Hdel(CartKey(userId), Field(productId, variantId));
      WriteLeavesNoEmptyHash(old(env.redis), CartKey(userId), Hgetall(old(env.redis), CartKey(userId)) - {Field(productId, variantId)});
      r := Touch(userId);
    }

    method ClearCart(userId: string)
      requires reminders.env == env
      modifies env`redis, env`jobs
      ensures env.ShopState() == S.ClearCart(old(env.ShopState()), userId)
    {
      env.redis := env.redis - {CartKey(userId)};
      reminders.CancelReminders(userId);
    }
  }

  // ---- WishlistService ----

  class WishlistService {
    const env: Environment
    const cart: CartService

    constructor (cart: CartService)
      ensures this.cart == cart && env == cart.env
    {
      this.env := cart.env;
      this.cart := cart;
    }

    ghost predicate Wired()
    {
      cart.env == env && cart.reminders.env == env
    }

    ghost predicate Answers(r: CartResponse, userId: string)
      reads env
    {
      Shows(r, userId, Hgetall(env.redis, WishlistKey(userId)), None)
    }

    method GetWishlist(userId: string) returns (r: CartResponse)
      requires NoEmptyHash(env.redis, WishlistKey(userId))
      modifies env`redis
      ensures env.ShopState() == GetHash(old(env.ShopState()), WishlistKey(userId))
      ensures Answers(r, userId)
    {
      SyncWithStore(env, WishlistKey(userId));
      WriteLeavesNoEmptyHash(old(env.redis), WishlistKey(userId), Synced(env.catalog, Hgetall(old(env.redis), WishlistKey(userId))));
      r := AnswerAndSlide(env, WishlistKey(userId), WISHLIST_TTL, None);
    }

    method FetchAndValidateStoreItem(productId: string) returns (r: Result<StoreItem>)
      ensures r == FetchForWishlist(env.catalog, productId)
    {
      var fetch := env.GetStoreItem(productId);
      match fetch {
        case Refused(code) => return if code == GRPC_NOT_FOUND then Err(NotFound) else Err(Internal);
        case Nothing => return Err(PreconditionFailed);
        case Replied(item) =>
          if item.id == "" || !item.isAvailable { return Err(PreconditionFailed); }
          return Ok(item);
      }
    }

    /** The store's checks for an item to save, and the entry it then stores. */
    method PrepareItem(input: ItemInput) returns (r: Result<CartItem>)
      ensures r == Saved(env.catalog, input)
    {
      var item := FetchAndValidateStoreItem(input.productId);
      if item.Err? { return Err(item.error); }
      var price := ExtractPrice(item.value, input.variantId);
      if price.Err? { return Err(price.error); }
      return Ok(Enrich(input.(quantity := 1), item.value, price.value));
    }

    method StoreEntry(key: RedisKey, field: string, it: CartItem)
      modifies env`redis
      ensures env.redis == Expire(Hset(old(env.redis), key, field, it), key, env.now + WISHLIST_TTL)
    {
      env.Hset(key, field, it);
      env.Expire(key, WISHLIST_TTL);
    }

    method AddItem(userId: string, input: ItemInput) returns (r: Result<CartResponse>)
      modifies env`redis
      ensures var e := AddToWishlist(old(env.ShopState()), userId, input);
              env.ShopState() == e.shop && if e.error.Some? then r == Err(e.error.value) else r.Ok? && Answers(r.value, userId)
    {
      if input.productId == "" { return Err(BadRequest); }
      var key, field := WishlistKey(userId), Field(input.productId, input.variantId);
      var existing := Hget(env.redis, key, field);
      if existing.None? {
        var it := PrepareItem(input);
        if it.Err? { return Err(it.error); }
        StoreEntry(key, field, it.value);
      }
      assert env.ShopState() == AddToWishlist(old(env.ShopState()), userId, input).shop;
      var response := BuildResponse(env, key, None);
      return Ok(response);
    }

    method RemoveItem(userId: string, productId: string, variantId: Option<string>) returns (r: CartResponse)
      modifies env`redis
      ensures env.ShopState() == RemoveFromWishlist(old(env.ShopState()), userId, productId, variantId)
      ensures Answers(r, userId)
    {
      env.Hdel(WishlistKey(userId), Field(productId, variantId));
      r := BuildResponse(env, WishlistKey(userId), None);
    }

    method MoveToCart(userId: string, productId: string, variantId: Option<string>) returns (r: Result<CartResponse>)
      requires Wired()
      modifies env`redis, env`jobs
      ensures var e := S.MoveToCart(old(env.ShopState()), userId, productId, variantId);
              env.ShopState() == e.shop && if e.error.Some? then r == Err(e.error.value) else r.Ok? && Answers(r.value, userId)
    {
      var key, field := WishlistKey(userId), Field(productId, variantId);
      var held := Hget(env.redis, key, field);
      if held.None? { return Err(NotFound); }
      env.Hdel(key, field);
      var added := cart.AddItem(userId, ItemInput(productId, variantId, held.value.quantity));
      if added.Err? { return Err(added.error); }
      var response := BuildResponse(env, key, None);
      return Ok(response);
    }

    method MoveToWishlist(userId: string, productId: string, variantId: Option<string>) returns (r: Result<CartResponse>)
      modifies env`redis
      ensures var e := S.MoveToWishlist(old(env.ShopState()), userId, productId, variantId);
              env.ShopState() == e.shop && if e.error.Some? then r == Err(e.error.value) else r.Ok? && Answers(r.value, userId)
    {
      var key, field := WishlistKey(userId), Field(productId, variantId);
      var held := Hget(env.redis, CartKey(userId), field);
      if held.None? { return Err(NotFound); }
      env.Hdel(CartKey(userId), field);
      StoreEntry(key, field, held.value);
      var response := BuildResponse(env, key, None);
      return Ok(response);
    }
  }
}
