/**
 Carts, wishlists and abandonment reminders as a state machine: one function per handler of
 `CartService`, `WishlistService` and the reminder queue. A handler runs as one step.
 */
module Shop {
  import opened Base
  import opened Pricing
  import opened Fields
  import opened Sums
  import Money

  // ---- Entries ----

  datatype CartItem = CartItem(
    productId: string, variantId: Option<string>, quantity: int, price: real, currency: Currency,
    title: string, variantName: Option<string>, imageUrl: Option<string>)

  datatype ItemInput = ItemInput(productId: string, variantId: Option<string>, quantity: int)

  const MAX_QUANTITY := 99

  function VariantName(item: StoreItem, variantId: Option<string>): Option<string> {
    if !Present(variantId) then None
    else
      match FindVariant(item.variants, variantId.value)
      case None => None
      case Some(v) => Some(v.attributeName + ": " + v.attributeValue)
  }

  /** The entry with the store's current price and display fields; product, variant and quantity stay. */
  function Refresh(it: CartItem, item: StoreItem, p: Price): CartItem {
    it.(price := p.price, currency := p.currency, title := item.title,
        variantName := VariantName(item, it.variantId),
        imageUrl := if item.images == [] then None else Some(item.images[0]))
  }

  function Enrich(input: ItemInput, item: StoreItem, p: Price): CartItem {
    Refresh(CartItem(input.productId, input.variantId, input.quantity, 0.0, Unspecified, "", None, None), item, p)
  }

  type Entries = map<string, CartItem>

  function AmountOf(it: CartItem): real {
    Money.Amount(Money.Entry(it.price, it.quantity))
  }

  function Amounts(es: Entries): map<string, real> {
    map f | f in es :: AmountOf(es[f])
  }

  ghost function HashTotal(es: Entries): real {
    HashSum(Amounts(es))
  }

  // ---- Redis hashes with a time to live ----

  datatype RedisKey = CartKey(userId: string) | WishlistKey(userId: string)

  datatype Hash = Hash(entries: Entries, deadline: Option<int>)

  type Keyspace = map<RedisKey, Hash>

  const CART_TTL := 7 * DAY
  const WISHLIST_TTL := 30 * DAY

  function Ttl(key: RedisKey): int {
    if key.CartKey? then CART_TTL else WISHLIST_TTL
  }

  function Hgetall(ks: Keyspace, key: RedisKey): Entries {
    if key in ks then ks[key].entries else map[]
  }

  function Hget(ks: Keyspace, key: RedisKey, field: string): Option<CartItem> {
    var es := Hgetall(ks, key);
    if field in es then Some(es[field]) else None
  }

  /** Writing entries keeps the deadline; a key without fields does not exist. */
  function Write(ks: Keyspace, key: RedisKey, es: Entries): Keyspace {
    if es == map[] then ks - {key}
    else ks[key := Hash(es, if key in ks then ks[key].deadline else None)]
  }

  function Hset(ks: Keyspace, key: RedisKey, field: string, it: CartItem): Keyspace {
    Write(ks, key, Hgetall(ks, key)[field := it])
  }

  function Hdel(ks: Keyspace, key: RedisKey, field: string): Keyspace {
    Write(ks, key, Hgetall(ks, key) - {field})
  }

  function Expire(ks: Keyspace, key: RedisKey, deadline: int): Keyspace {
    if key in ks then ks[key := ks[key].(deadline := Some(deadline))] else ks
  }

  function Purge(ks: Keyspace, now: int): Keyspace {
    map key | key in ks && (ks[key].deadline.None? || now < ks[key].deadline.value) :: ks[key]
  }

  // ---- Reminder jobs ----

  datatype JobId = JobId(userId: string, index: nat)

  datatype Job = Job(userId: string, index: nat, due: int)

  const DELAYS: seq<int> := [1 * HOUR, 24 * HOUR, 72 * HOUR, 144 * HOUR]

  type Queue = map<JobId, Job>

  /** Adding a job whose id is taken does nothing. */
  function AddJob(q: Queue, id: JobId, job: Job): Queue {
    if id in q then q else q[id := job]
  }

  function JobIds(userId: string): set<JobId> {
    set i: nat | i < |DELAYS| :: JobId(userId, i)
  }

  function Cancelled(q: Queue, userId: string): Queue {
    q - JobIds(userId)
  }

  /** The user's jobs replaced by one per delay, all counted from `now`. */
  function Scheduled(q: Queue, userId: string, now: int): Queue {
    Cancelled(q, userId) +
    map id | id in JobIds(userId) :: Job(userId, id.index, if id.index < |DELAYS| then now + DELAYS[id.index] else 0)
  }

  datatype Reminder = Reminder(userId: string, index: nat, total: real, daysLeft: int)

  /** Redis reports the remaining time in rounded seconds. */
  function TtlSeconds(h: Hash, now: int): int {
    if h.deadline.None? then -1 else (h.deadline.value - now + SECOND / 2) / SECOND
  }

  function DaysLeft(ttlSeconds: int): int {
    if ttlSeconds > 0 then (ttlSeconds + 86399) / 86400 else 0
  }

  // ---- The state ----

  datatype Shop = Shop(
    now: int, catalog: Catalog, redis: Keyspace, jobs: Queue, sent: seq<Reminder>)

  /** A handler's effect: the new state and the error it replied with, if any. */
  datatype Effect = Effect(shop: Shop, error: Option<Error>)

  // ---- Reconciling a hash with the store ----

  /** What a sync does with one entry: `None` drops it. */
  function SyncEntry(catalog: Catalog, it: CartItem): Option<CartItem> {
    var fetch := Lookup(catalog, it.productId);
    if !fetch.Replied? || fetch.item.id == "" then Some(it)
    else if !fetch.item.isAvailable then None
    else
      match ExtractPrice(fetch.item, it.variantId)
      case Err(_) => Some(it)
      case Ok(p) => Some(Refresh(it, fetch.item, p))
  }

  function Synced(catalog: Catalog, es: Entries): Entries {
    map f | f in es && SyncEntry(catalog, es[f]).Some? :: SyncEntry(catalog, es[f]).value
  }

  /** GetCart and GetWishlist: sync, answer, and slide the deadline. */
  function GetHash(s: Shop, key: RedisKey): Shop {
    var synced := Write(s.redis, key, Synced(s.catalog, Hgetall(s.redis, key)));
    s.(redis := Expire(synced, key, s.now + Ttl(key)))
  }

  // ---- CartService ----

  /** The cart's lookup of an item to add. */
  function FetchForCart(catalog: Catalog, productId: string): Result<StoreItem> {
    match Lookup(catalog, productId)
    case Refused(code) => if code == GRPC_NOT_FOUND then Err(NotFound) else Err(Internal)
    case Nothing => Err(NotFound)
    case Replied(item) =>
      if item.id == "" then Err(NotFound)
      else if !item.isAvailable then Err(PreconditionFailed)
      else Ok(item)
  }

  /** The entry that adding `input` to a cart holding `held` for its field stores. */
  function Added(catalog: Catalog, held: Option<CartItem>, input: ItemInput): Result<CartItem> {
    if input.productId == "" || input.quantity <= 0 then Err(BadRequest)
    else
      match FetchForCart(catalog, input.productId)
      case Err(e) => Err(e)
      case Ok(item) =>
        match ExtractPrice(item, input.variantId)
        case Err(e) => Err(e)
        case Ok(p) =>
          var quantity := input.quantity + (if held.Some? then held.value.quantity else 0);
          if quantity > MAX_QUANTITY then Err(BadRequest)
          else Ok(if held.Some? then held.value.(quantity := quantity) else Enrich(input, item, p))
  }

  /** An entry written into the cart, with a fresh deadline and fresh reminders. */
  function WithEntry(s: Shop, userId: string, field: string, it: CartItem): Shop {
    var key := CartKey(userId);
    s.(redis := Expire(Hset(s.redis, key, field, it), key, s.now + CART_TTL),
       jobs := Scheduled(s.jobs, userId, s.now))
  }

  function AddItem(s: Shop, userId: string, input: ItemInput): Effect {
    var key, field := CartKey(userId), Field(input.productId, input.variantId);
    match Added(s.catalog, Hget(s.redis, key, field), input)
    case Err(e) => Effect(s, Some(e))
    case Ok(it) => Effect(WithEntry(s, userId, field, it), None)
  }

  /** Slides the cart's deadline and resets the reminders after a change of the cart. */
  function Touched(s: Shop, redis: Keyspace, userId: string): Shop {
    var kept := Expire(redis, CartKey(userId), s.now + CART_TTL);
    s.(redis := kept,
       jobs := if Hgetall(kept, CartKey(userId)) == map[] then Cancelled(s.jobs, userId)
               else Scheduled(s.jobs, userId, s.now))
  }

  function UpdateItem(s: Shop, userId: string, input: ItemInput): Effect {
    var key, field := CartKey(userId), Field(input.productId, input.variantId);
    var held := Hget(s.redis, key, field);
    if input.productId == "" || input.quantity < 0 || input.quantity > MAX_QUANTITY then Effect(s, Some(BadRequest))
    else if held.None? then Effect(s, Some(NotFound))
    else
      var redis := if input.quantity <= 0 then Hdel(s.redis, key, field)
                   else Hset(s.redis, key, field, held.value.(quantity := input.quantity));
      Effect(Touched(s, redis, userId), None)
  }

  function RemoveItem(s: Shop, userId: string, productId: string, variantId: Option<string>): Shop {
    Touched(s, Hdel(s.redis, CartKey(userId), Field(productId, variantId)), userId)
  }

  function ClearCart(s: Shop, userId: string): Shop {
    s.(redis := s.redis - {CartKey(userId)}, jobs := Cancelled(s.jobs, userId))
  }

  // ---- WishlistService ----

  function FetchForWishlist(catalog: Catalog, productId: string): Result<StoreItem> {
    match Lookup(catalog, productId)
    case Refused(code) => if code == GRPC_NOT_FOUND then Err(NotFound) else Err(Internal)
    case Nothing => Err(PreconditionFailed)
    case Replied(item) => if item.id == "" || !item.isAvailable then Err(PreconditionFailed) else Ok(item)
  }

  /** The entry that saving an item not yet on the wishlist stores: always one unit. */
  function Saved(catalog: Catalog, input: ItemInput): Result<CartItem> {
    match FetchForWishlist(catalog, input.productId)
    case Err(e) => Err(e)
    case Ok(item) =>
      match ExtractPrice(item, input.variantId)
      case Err(e) => Err(e)
      case Ok(p) => Ok(Enrich(input.(quantity := 1), item, p))
  }

  function AddToWishlist(s: Shop, userId: string, input: ItemInput): Effect {
    var key, field := WishlistKey(userId), Field(input.productId, input.variantId);
    if input.productId == "" then Effect(s, Some(BadRequest))
    else if Hget(s.redis, key, field).Some? then Effect(s, None)
    else
      match Saved(s.catalog, input)
      case Err(e) => Effect(s, Some(e))
      case Ok(it) => Effect(s.(redis := Expire(Hset(s.redis, key, field, it), key, s.now + WISHLIST_TTL)), None)
  }

  function RemoveFromWishlist(s: Shop, userId: string, productId: string, variantId: Option<string>): Shop {
    s.(redis := Hdel(s.redis, WishlistKey(userId), Field(productId, variantId)))
  }

  /** The wishlist entry is deleted first; the cart may then still refuse it. */
  function MoveToCart(s: Shop, userId: string, productId: string, variantId: Option<string>): Effect {
    var field := Field(productId, variantId);
    match Hget(s.redis, WishlistKey(userId), field)
    case None => Effect(s, Some(NotFound))
    case Some(it) =>
      AddItem(s.(redis := Hdel(s.redis, WishlistKey(userId), field)), userId,
              ItemInput(productId, variantId, it.quantity))
  }

  /** The cart entry replaces whatever the wishlist held under its field. */
  function MoveToWishlist(s: Shop, userId: string, productId: string, variantId: Option<string>): Effect {
    var field, wishlist := Field(productId, variantId), WishlistKey(userId);
    match Hget(s.redis, CartKey(userId), field)
    case None => Effect(s, Some(NotFound))
    case Some(it) =>
      var redis := Hset(Hdel(s.redis, CartKey(userId), field), wishlist, field, it);
      Effect(s.(redis := Expire(redis, wishlist, s.now + WISHLIST_TTL)), None)
  }

  // ---- The reminder worker and the clock ----

  /** A worker takes a due job off the queue and mails the owner of a non-empty cart. */
  ghost function Fire(s: Shop, id: JobId): Shop {
    if id !in s.jobs || s.now < s.jobs[id].due then s
    else
      var job, rest := s.jobs[id], s.(jobs := s.jobs - {id});
      var key := CartKey(job.userId);
      if Hgetall(s.redis, key) == map[] then rest
      else
        var days := DaysLeft(TtlSeconds(s.redis[key], s.now));
        rest.(sent := s.sent + [Reminder(job.userId, job.index, HashTotal(s.redis[key].entries), days)])
  }

  function Advance(s: Shop, dt: nat): Shop {
    s.(now := s.now + dt, redis := Purge(s.redis, s.now + dt))
  }

  // ---- Runs ----

  datatype ShopStep =
    | DoGetCart(userId: string)
    | DoAddItem(userId: string, input: ItemInput)
    | DoUpdateItem(userId: string, input: ItemInput)
    | DoRemoveItem(userId: string, productId: string, variantId: Option<string>)
    | DoClearCart(userId: string)
    | DoGetWishlist(userId: string)
    | DoAddToWishlist(userId: string, input: ItemInput)
    | DoRemoveFromWishlist(userId: string, productId: string, variantId: Option<string>)
    | DoMoveToCart(userId: string, productId: string, variantId: Option<string>)
    | DoMoveToWishlist(userId: string, productId: string, variantId: Option<string>)
    | DoFire(id: JobId)
    | DoAdvance(dt: nat)
    | DoChangeStore(catalog: Catalog)

  ghost function Do(s: Shop, step: ShopStep): Shop {
    match step
    case DoGetCart(u) => GetHash(s, CartKey(u))
    case DoAddItem(u, input) => AddItem(s, u, input).shop
    case DoUpdateItem(u, input) => UpdateItem(s, u, input).shop
    case DoRemoveItem(u, p, v) => RemoveItem(s, u, p, v)
    case DoClearCart(u) => ClearCart(s, u)
    case DoGetWishlist(u) => GetHash(s, WishlistKey(u))
    case DoAddToWishlist(u, input) => AddToWishlist(s, u, input).shop
    case DoRemoveFromWishlist(u, p, v) => RemoveFromWishlist(s, u, p, v)
    case DoMoveToCart(u, p, v) => MoveToCart(s, u, p, v).shop
    case DoMoveToWishlist(u, p, v) => MoveToWishlist(s, u, p, v).shop
    case DoFire(id) => Fire(s, id)
    case DoAdvance(dt) => Advance(s, dt)
    case DoChangeStore(catalog) => s.(catalog := catalog)
  }

  lemma ClockNeverGoesBack(s: Shop, step: ShopStep)
    ensures s.now <= Do(s, step).now
  {
  }

  ghost function Run(s: Shop, steps: seq<ShopStep>): Shop
    decreases |steps|
  {
    if steps == [] then s else Run(Do(s, steps[0]), steps[1..])
  }

  function Opening(now: int, catalog: Catalog): Shop {
    Shop(now, catalog, map[], map[], [])
  }
}
