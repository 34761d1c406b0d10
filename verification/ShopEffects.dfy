/**
 What each cart, wishlist and reminder handler does, field by field: when it succeeds, the error it gives otherwise,
 and everything it leaves alone.
 */
module ShopEffects {
  import opened Base
  import opened Pricing
  import opened Fields
  import opened Sums
  import opened Shop
  import opened ShopRules

  // ---- Frames ----

  /** Every other key, with its deadline, and the clock, the store and the mails are as before. */
  ghost predicate OtherKeysKept(s: Shop, s': Shop, key: RedisKey) {
    && s'.now == s.now && s'.catalog == s.catalog && s'.sent == s.sent
    && forall k :: k != key ==> (k in s'.redis <==> k in s.redis) && (k in s.redis ==> s'.redis[k] == s.redis[k])
  }

  /** Every other field of this key holds what it held. */
  ghost predicate OtherFieldsKept(s: Shop, s': Shop, key: RedisKey, field: string) {
    forall f :: f != field ==> Hget(s'.redis, key, f) == Hget(s.redis, key, f)
  }

  ghost predicate OtherUsersJobsKept(s: Shop, s': Shop, userId: string) {
    forall id: JobId :: id.userId != userId ==> (id in s'.jobs <==> id in s.jobs) && (id in s.jobs ==> s'.jobs[id] == s.jobs[id])
  }

  /** A change of one field of the user's cart. */
  ghost predicate OneCartField(s: Shop, s': Shop, userId: string, field: string) {
    && OtherKeysKept(s, s', CartKey(userId))
    && OtherFieldsKept(s, s', CartKey(userId), field)
    && OtherUsersJobsKept(s, s', userId)
  }

  /** A change of one field of the user's wishlist; no job is touched. */
  ghost predicate OneWishlistField(s: Shop, s': Shop, userId: string, field: string) {
    && OtherKeysKept(s, s', WishlistKey(userId))
    && OtherFieldsKept(s, s', WishlistKey(userId), field)
    && s'.jobs == s.jobs
  }

  lemma TouchedFrame(s: Shop, es: Entries, userId: string)
    ensures var s' := Touched(s, Write(s.redis, CartKey(userId), es), userId);
            && OtherKeysKept(s, s', CartKey(userId)) && OtherUsersJobsKept(s, s', userId)
            && Hgetall(s'.redis, CartKey(userId)) == es
  {
  }

  // ---- The cart ----

  /** Removing takes exactly the named entry out; what is left of the cart is settled afresh. */
  lemma RemoveItemExactly(s: Shop, userId: string, productId: string, variantId: Option<string>)
    requires Good(s)
    ensures var field, s' := Field(productId, variantId), RemoveItem(s, userId, productId, variantId);
            && Hget(s'.redis, CartKey(userId), field) == None
            && OneCartField(s, s', userId, field)
            && CartSettled(s', userId)
  {
    TouchedFrame(s, Hgetall(s.redis, CartKey(userId)) - {Field(productId, variantId)}, userId);
    CartHandlersSettle(s, userId, DoRemoveItem(userId, productId, variantId));
  }

  lemma RemoveItemEntries(s: Shop, userId: string, productId: string, variantId: Option<string>)
    ensures Hgetall(RemoveItem(s, userId, productId, variantId).redis, CartKey(userId))
            == Hgetall(s.redis, CartKey(userId)) - {Field(productId, variantId)}
  {
    TouchedFrame(s, Hgetall(s.redis, CartKey(userId)) - {Field(productId, variantId)}, userId);
  }

  lemma TwoLessOne(f: string, a: CartItem, g: string, b: CartItem)
    requires f != g
    ensures map[f := a, g := b] - {f} == map[g := b]
  {
  }

  lemma FreshIfLeft(s: Shop, userId: string, field: string, it: CartItem)
    requires CartSettled(s, userId) && Hgetall(s.redis, CartKey(userId)) == map[field := it]
    ensures FreshReminders(s, userId)
  {
    assert field in Hgetall(s.redis, CartKey(userId));
  }

  lemma SettledWith(s: Shop, userId: string, productId: string, variantId: Option<string>)
    requires Good(s)
    ensures CartSettled(RemoveItem(s, userId, productId, variantId), userId)
  {
    CartHandlersSettle(s, userId, DoRemoveItem(userId, productId, variantId));
  }

  /** Removing one of two items leaves the other, and its reminders. */
  lemma RemovingOneOfTwo(s: Shop, userId: string, productId: string, variantId: Option<string>, a: CartItem, other: string, b: CartItem)
    requires Good(s) && other != Field(productId, variantId)
    requires Hgetall(s.redis, CartKey(userId)) == map[Field(productId, variantId) := a, other := b]
    ensures var s' := RemoveItem(s, userId, productId, variantId);
            Hgetall(s'.redis, CartKey(userId)) == map[other := b] && FreshReminders(s', userId)
  {
    RemoveItemEntries(s, userId, productId, variantId);
    TwoLessOne(Field(productId, variantId), a, other, b);
    SettledWith(s, userId, productId, variantId);
    FreshIfLeft(RemoveItem(s, userId, productId, variantId), userId, other, b);
  }

  /** Clearing takes the cart and its reminders and nothing else. */
  lemma ClearCartExactly(s: Shop, userId: string)
    requires Good(s)
    ensures var s' := ClearCart(s, userId);
            && CartKey(userId) !in s'.redis && NoReminders(s', userId)
            && OtherKeysKept(s, s', CartKey(userId)) && OtherUsersJobsKept(s, s', userId)
  {
    CartHandlersSettle(s, userId, DoClearCart(userId));
  }

  lemma AddItemFrame(s: Shop, userId: string, input: ItemInput)
    ensures OneCartField(s, AddItem(s, userId, input).shop, userId, Field(input.productId, input.variantId))
  {
    AddItemEntries(s, userId, input);
  }

  lemma UpdateItemFrame(s: Shop, userId: string, input: ItemInput)
    ensures OneCartField(s, UpdateItem(s, userId, input).shop, userId, Field(input.productId, input.variantId))
  {
    var field, es := Field(input.productId, input.variantId), Hgetall(s.redis, CartKey(userId));
    if UpdateItem(s, userId, input).error.None? {
      TouchedFrame(s, if input.quantity == 0 then es - {field} else es[field := es[field].(quantity := input.quantity)], userId);
    }
  }

  /** Adding and updating change one field of the cart, and nothing at all when they refuse. */
  lemma CartChangesFrame(s: Shop, userId: string, input: ItemInput)
    ensures var field := Field(input.productId, input.variantId);
            && OneCartField(s, AddItem(s, userId, input).shop, userId, field)
            && OneCartField(s, UpdateItem(s, userId, input).shop, userId, field)
  {
    AddItemFrame(s, userId, input);
    UpdateItemFrame(s, userId, input);
  }

  /** No base price or, for a variant, no usable one: a missing variant is NotFound, a missing price PreconditionFailed. */
  lemma PriceErrors(item: StoreItem, variantId: Option<string>)
    ensures var named := variantId.Some? && variantId.value != "";
            var found := named && exists v :: v in item.variants && v.id == variantId.value;
            && (ExtractPrice(item, variantId) == Err(NotFound) <==> named && !found)
            && (ExtractPrice(item, variantId).Err? ==> ExtractPrice(item, variantId).error in {NotFound, PreconditionFailed})
            && (!named ==> (ExtractPrice(item, variantId).Err? <==>
                  forall p :: p in item.prices ==> p.priceType != Discount && p.priceType != Regular))
  {
  }

  /** Why adding to the cart is refused: each error by its own condition. */
  lemma AddItemErrors(s: Shop, userId: string, input: ItemInput)
    ensures var fetch, error := Lookup(s.catalog, input.productId), AddItem(s, userId, input).error;
            var unnamed := input.productId == "" || input.quantity <= 0;
            && (unnamed ==> error == Some(BadRequest))
            && (!unnamed && fetch.Refused? ==> error == Some(if fetch.code == 5 then NotFound else Internal))
            && (!unnamed && (fetch.Nothing? || (fetch.Replied? && fetch.item.id == "")) ==> error == Some(NotFound))
            && (!unnamed && fetch.Replied? && fetch.item.id != "" ==>
                  && (!fetch.item.isAvailable ==> error == Some(PreconditionFailed))
                  && (fetch.item.isAvailable ==>
                        match ExtractPrice(fetch.item, input.variantId)
                        case Err(e) => error == Some(e)
                        case Ok(_) =>
                          QuantityAt(s, CartKey(userId), Field(input.productId, input.variantId)) + input.quantity > 99 ==>
                            error == Some(BadRequest)))
  {
  }

  /** Why an update is refused. */
  lemma UpdateItemErrors(s: Shop, userId: string, input: ItemInput)
    ensures var error := UpdateItem(s, userId, input).error;
            var malformed := input.productId == "" || input.quantity < 0 || input.quantity > 99;
            && (error == Some(BadRequest) <==> malformed)
            && (error == Some(NotFound) <==>
                  !malformed && Field(input.productId, input.variantId) !in Hgetall(s.redis, CartKey(userId)))
            && (error.Some? ==> error.value in {BadRequest, NotFound})
  {
  }

  // ---- The wishlist ----

  /**
   Saving succeeds exactly for a named item that is saved already or that the store has on sale with a price. A newly
   saved entry is one unit of the requested item as a sync would show it, and the wishlist then lives thirty days;
   nothing else changes.
   */
  lemma AddToWishlistExactly(s: Shop, userId: string, input: ItemInput)
    ensures var key, field := WishlistKey(userId), Field(input.productId, input.variantId);
            var e, fetch := AddToWishlist(s, userId, input), Lookup(s.catalog, input.productId);
            var saved := Hget(s.redis, key, field).Some?;
            && (e.error.None? <==>
                  && input.productId != ""
                  && (saved || (&& fetch.Replied? && fetch.item.id != "" && fetch.item.isAvailable
                                && ExtractPrice(fetch.item, input.variantId).Ok?)))
            && (e.error.Some? || saved ==> e.shop == s)
            && (e.error.None? && !saved ==>
                  && Hget(e.shop.redis, key, field).Some?
                  && e.shop.redis[key].deadline == Some(s.now + 30 * 24 * 3600 * 1000)
                  && var it := Hget(e.shop.redis, key, field).value;
                     && it.quantity == 1 && it.productId == input.productId && it.variantId == input.variantId
                     && SyncEntry(s.catalog, it) == Some(it)
                     && ExtractPrice(fetch.item, input.variantId) == Ok(Price(it.price, it.currency))
                     && it.title == fetch.item.title)
            && OneWishlistField(s, e.shop, userId, field)
  {
    var key, field := WishlistKey(userId), Field(input.productId, input.variantId);
    if AddToWishlist(s, userId, input).shop != s {
      WriteEffect(s.redis, key, Hgetall(s.redis, key)[field := Saved(s.catalog, input).value], s.now + WISHLIST_TTL);
    }
  }

  /** Why saving is refused. */
  lemma AddToWishlistErrors(s: Shop, userId: string, input: ItemInput)
    requires Hget(s.redis, WishlistKey(userId), Field(input.productId, input.variantId)).None?
    ensures var fetch, error := Lookup(s.catalog, input.productId), AddToWishlist(s, userId, input).error;
            && (input.productId == "" ==> error == Some(BadRequest))
            && (input.productId != "" && fetch.Refused? ==> error == Some(if fetch.code == 5 then NotFound else Internal))
            && (input.productId != "" && fetch.Nothing? ==> error == Some(PreconditionFailed))
            && (input.productId != "" && fetch.Replied? ==>
                  if fetch.item.id == "" || !fetch.item.isAvailable then error == Some(PreconditionFailed)
                  else match ExtractPrice(fetch.item, input.variantId)
                       case Err(e) => error == Some(e)
                       case Ok(_) => error == None)
  {
  }

  /** Removing takes exactly the named entry out, and the wishlist keeps its deadline as long as it has entries. */
  lemma RemoveFromWishlistExactly(s: Shop, userId: string, productId: string, variantId: Option<string>)
    ensures var key, field := WishlistKey(userId), Field(productId, variantId);
            var s' := RemoveFromWishlist(s, userId, productId, variantId);
            && Hget(s'.redis, key, field) == None
            && OneWishlistField(s, s', userId, field)
            && (key in s'.redis ==> key in s.redis && s'.redis[key].deadline == s.redis[key].deadline)
            && (key in s'.redis <==> exists f :: f != field && f in Hgetall(s.redis, key))
  {
    var key, field := WishlistKey(userId), Field(productId, variantId);
    var es, left := Hgetall(s.redis, key), Hgetall(s.redis, key) - {field};
    if f :| f != field && f in es {
      assert f in left;
    }
    if left != map[] {
      var f :| f in left;
      assert f != field && f in es;
    }
  }

  // ---- Moves ----

  /** A move to the wishlist takes over the cart's entry as it is and gives the wishlist thirty days. */
  lemma MoveToWishlistExactly(s: Shop, userId: string, productId: string, variantId: Option<string>)
    ensures var field, wishlist := Field(productId, variantId), WishlistKey(userId);
            var held, e := Hget(s.redis, CartKey(userId), field), MoveToWishlist(s, userId, productId, variantId);
            && e.error == (if held.None? then Some(NotFound) else None)
            && (held.None? ==> e.shop == s)
            && (held.Some? ==>
                  && Hget(e.shop.redis, wishlist, field) == held
                  && Hget(e.shop.redis, CartKey(userId), field) == None
                  && e.shop.redis[wishlist].deadline == Some(s.now + 30 * 24 * 3600 * 1000))
            && OnlyTouches(s, e.shop, userId, field)
            && e.shop.jobs == s.jobs && e.shop.sent == s.sent && e.shop.now == s.now && e.shop.catalog == s.catalog
  {
    MovesTouchOneField(s, userId, productId, variantId);
    if Hget(s.redis, CartKey(userId), Field(productId, variantId)).Some? {
      MoveToWishlistEntries(s, userId, productId, variantId);
    }
  }

  /** A move to the cart refuses what the wishlist does not hold, and otherwise what adding that quantity would refuse. */
  lemma MoveToCartErrors(s: Shop, userId: string, productId: string, variantId: Option<string>)
    ensures var held := Hget(s.redis, WishlistKey(userId), Field(productId, variantId));
            MoveToCart(s, userId, productId, variantId).error ==
              match held
              case None => Some(NotFound)
              case Some(it) => AddItem(s, userId, ItemInput(productId, variantId, it.quantity)).error
  {
    var field := Field(productId, variantId);
    if Hget(s.redis, WishlistKey(userId), field).Some? {
      assert Hget(Hdel(s.redis, WishlistKey(userId), field), CartKey(userId), field) == Hget(s.redis, CartKey(userId), field);
    }
  }

  // ---- Reads ----

  /** A read leaves exactly the synced entries, touches no other key and no job, and slides a non-empty hash's deadline. */
  lemma GetHashExactly(s: Shop, key: RedisKey)
    ensures var s' := GetHash(s, key);
            && Hgetall(s'.redis, key) == Synced(s.catalog, Hgetall(s.redis, key))
            && OtherKeysKept(s, s', key) && s'.jobs == s.jobs
            && (Hgetall(s'.redis, key) != map[] ==>
                  s'.redis[key].deadline == Some(s.now + (if key.CartKey? then 7 else 30) * 24 * 3600 * 1000))
  {
  }

  /** The variant an entry shows is named after the first variant with its id. */
  lemma {:induction false} VariantNameChoice(item: StoreItem, id: string, i: nat)
    requires id != "" && i < |item.variants| && item.variants[i].id == id
    requires forall j :: 0 <= j < i ==> item.variants[j].id != id
    ensures VariantName(item, Some(id)) == Some(item.variants[i].attributeName + ": " + item.variants[i].attributeValue)
    decreases i
  {
    if i > 0 {
      assert item.variants[0].id != id;
      VariantNameChoice(item.(variants := item.variants[1..]), id, i - 1);
    }
  }

  /** Without a variant, or with one the item does not have, none is shown. */
  lemma VariantNameNone(item: StoreItem, variantId: Option<string>)
    ensures VariantName(item, variantId) == None <==>
            variantId == None || variantId == Some("") || forall v :: v in item.variants ==> v.id != variantId.value
  {
  }

  lemma OneAmount(es: Entries, f: string)
    requires f in es
    ensures f in Amounts(es) && Amounts(es)[f] == es[f].price * es[f].quantity as real
  {
  }

  lemma ListedAmounts(es: Entries, order: seq<string>, amounts: seq<real>)
    requires |amounts| == |order| && forall f :: f in order ==> f in es
    requires forall i :: 0 <= i < |order| ==> order[i] in es && amounts[i] == es[order[i]].price * es[order[i]].quantity as real
    ensures forall i :: 0 <= i < |order| ==> order[i] in Amounts(es) && Amounts(es)[order[i]] == amounts[i]
  {
    forall i | 0 <= i < |order| ensures order[i] in Amounts(es) && Amounts(es)[order[i]] == amounts[i] {
      OneAmount(es, order[i]);
    }
  }

  lemma ListedIs(m: map<string, real>, order: seq<string>, amounts: seq<real>)
    requires |amounts| == |order| && forall f :: f in order ==> f in m
    requires forall i :: 0 <= i < |order| ==> order[i] in m && m[order[i]] == amounts[i]
    ensures Listed(m, order) == amounts
  {
  }

  /** A hash's total is the sum of price times quantity over its fields, in whatever order they are listed. */
  lemma HashTotalIsSum(es: Entries, order: seq<string>, amounts: seq<real>)
    requires Enumerates(order, es.Keys) && |amounts| == |order|
    requires forall i :: 0 <= i < |order| ==> order[i] in es && amounts[i] == es[order[i]].price * es[order[i]].quantity as real
    ensures HashTotal(es) == Sum(amounts)
  {
    ListedAmounts(es, order, amounts);
    assert Amounts(es).Keys == es.Keys;
    SumOfAnyOrder(Amounts(es), order);
    ListedIs(Amounts(es), order, amounts);
  }

  // ---- The worker and the clock ----

  /** A worker takes a due job and no other, and mails its owner exactly when that cart has entries. */
  lemma FireExactly(s: Shop, id: JobId)
    requires id in s.jobs && s.jobs[id].due <= s.now
    ensures var s', owner := Fire(s, id), s.jobs[id].userId;
            var cart := Hgetall(s.redis, CartKey(owner));
            && s'.jobs == s.jobs - {id} && s'.redis == s.redis && s'.now == s.now && s'.catalog == s.catalog
            && (cart == map[] ==> s'.sent == s.sent)
            && (cart != map[] ==>
                  && |s'.sent| == |s.sent| + 1 && s'.sent[..|s.sent|] == s.sent
                  && var r := s'.sent[|s.sent|];
                     r.userId == owner && r.index == s.jobs[id].index && r.total == HashTotal(cart))
  {
  }

  /** A job that is not due stays. */
  lemma NotDueStays(s: Shop, id: JobId)
    requires id !in s.jobs || s.now < s.jobs[id].due
    ensures Fire(s, id) == s
  {
  }

  /** Time moves on, and exactly the hashes whose deadline has come are gone. */
  lemma AdvanceExactly(s: Shop, dt: nat, key: RedisKey)
    ensures var s' := Advance(s, dt);
            && s'.now == s.now + dt && s'.jobs == s.jobs && s'.sent == s.sent && s'.catalog == s.catalog
            && (key in s'.redis <==> key in s.redis && (s.redis[key].deadline == None || s.redis[key].deadline.value > s.now + dt))
            && (key in s'.redis ==> s'.redis[key] == s.redis[key])
  {
  }
}
