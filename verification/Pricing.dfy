/**
 The store catalogue as the service sees it, and the two price selectors: the one that
 fills the cart (`extractPrice`) and the one that prices an order (`fetchServerPrice`).
 */
module Pricing {
  import opened Base

  datatype PriceType = UnspecifiedPrice | Regular | Discount | Wholesale

  /** A variant price travels as text: blank text is falsy, any other text is a number. */
  datatype RawPrice = Blank | Amount(value: real)

  datatype Variant = Variant(
    id: string, attributeName: string, attributeValue: string,
    regularPrice: Option<RawPrice>, discountPrice: Option<RawPrice>, currency: Option<Currency>)

  datatype BasePrice = BasePrice(priceType: PriceType, value: real, currency: Option<Currency>)

  datatype StoreItem = StoreItem(
    id: string, isAvailable: bool, title: string, images: seq<string>,
    variants: seq<Variant>, prices: seq<BasePrice>)

  /** What `getStoreItemById` comes back with: an item, nothing, or a gRPC error code. */
  datatype Fetch = Replied(item: StoreItem) | Nothing | Refused(code: int)

  /** A store snapshot; a product it does not hold is refused with NOT_FOUND. */
  type Catalog = map<string, Fetch>

  const GRPC_NOT_FOUND := 5

  function Lookup(catalog: Catalog, productId: string): Fetch {
    if productId in catalog then catalog[productId] else Refused(GRPC_NOT_FOUND)
  }

  datatype Price = Price(price: real, currency: Currency)

  function OrElse<T>(a: Option<T>, b: Option<T>): Option<T> {
    if a.Some? then a else b
  }

  function CurrencyOr(c: Option<Currency>): Currency {
    if c.Some? then c.value else Unspecified
  }

  function FindVariant(variants: seq<Variant>, id: string): (r: Option<Variant>)
    ensures r.None? <==> forall v :: v in variants ==> v.id != id
  {
    if variants == [] then None
    else if variants[0].id == id then Some(variants[0])
    else FindVariant(variants[1..], id)
  }

  function FindPrice(prices: seq<BasePrice>, priceType: PriceType): (r: Option<BasePrice>)
    ensures r.None? <==> forall p :: p in prices ==> p.priceType != priceType
  {
    if prices == [] then None
    else if prices[0].priceType == priceType then Some(prices[0])
    else FindPrice(prices[1..], priceType)
  }

  /** The cart's selector. */
  function ExtractPrice(item: StoreItem, variantId: Option<string>): Result<Price> {
    if Present(variantId) then
      match FindVariant(item.variants, variantId.value)
      case None => Err(NotFound)
      case Some(variant) =>
        var raw: Option<RawPrice> := OrElse(variant.discountPrice, variant.regularPrice);
        match raw
        case Some(Amount(x)) => Ok(Price(x, CurrencyOr(variant.currency)))
        case _ => Err(PreconditionFailed)
    else
      match OrElse(FindPrice(item.prices, Discount), FindPrice(item.prices, Regular))
      case None => Err(PreconditionFailed)
      case Some(p) => Ok(Price(p.value, CurrencyOr(p.currency)))
  }

  /** The order's selector. */
  function FetchServerPrice(catalog: Catalog, productId: string, variantId: Option<string>): Result<real> {
    match Lookup(catalog, productId)
    case Refused(code) => if code == GRPC_NOT_FOUND then Err(PreconditionFailed) else Err(Internal)
    case Nothing => Err(PreconditionFailed)
    case Replied(item) =>
      if item.id == "" || !item.isAvailable then Err(PreconditionFailed)
      else if Present(variantId) then
        match FindVariant(item.variants, variantId.value)
        case None => Err(PreconditionFailed)
        case Some(variant) =>
          var raw := if variant.discountPrice.Some? then variant.discountPrice else variant.regularPrice;
          if raw.None? || raw.value.Blank? then Err(PreconditionFailed) else Ok(raw.value.value)
      else
        var discount := FindPrice(item.prices, Discount);
        var regular := FindPrice(item.prices, Regular);
        var chosen := if discount.Some? then discount else regular;
        if chosen.None? then Err(PreconditionFailed) else Ok(chosen.value.value)
  }

  /** `i` is the first entry of the given type. */
  ghost predicate FirstOfType(prices: seq<BasePrice>, priceType: PriceType, i: nat) {
    && i < |prices|
    && prices[i].priceType == priceType
    && forall j :: 0 <= j < i ==> prices[j].priceType != priceType
  }

  lemma {:induction false} FindPriceIsFirst(prices: seq<BasePrice>, priceType: PriceType, i: nat)
    requires FirstOfType(prices, priceType, i)
    ensures FindPrice(prices, priceType) == Some(prices[i])
  {
    if i > 0 {
      assert prices[0].priceType != priceType;
      assert forall j :: 0 <= j < i - 1 ==> prices[1..][j] == prices[j + 1];
      FindPriceIsFirst(prices[1..], priceType, i - 1);
    }
  }

  /** Without a variant, the first discount price wins; only when there is none does the first regular price count. */
  lemma BasePriceChoice(item: StoreItem, i: nat)
    requires FirstOfType(item.prices, Discount, i)
          || (FirstOfType(item.prices, Regular, i) && forall p :: p in item.prices ==> p.priceType != Discount)
    ensures var p := item.prices[i];
            ExtractPrice(item, None) == Ok(Price(p.value, if p.currency.Some? then p.currency.value else Unspecified))
  {
    if FirstOfType(item.prices, Discount, i) {
      FindPriceIsFirst(item.prices, Discount, i);
    } else {
      FindPriceIsFirst(item.prices, Regular, i);
    }
  }

  /** With a variant, its first entry is used, and a blank discount price is not replaced by the regular one. */
  lemma {:induction false} VariantPriceChoice(item: StoreItem, id: string, i: nat)
    requires id != "" && i < |item.variants| && item.variants[i].id == id
    requires forall j :: 0 <= j < i ==> item.variants[j].id != id
    ensures var v := item.variants[i];
            var raw := if v.discountPrice == None then v.regularPrice else v.discountPrice;
            ExtractPrice(item, Some(id))
            == if raw.Some? && raw.value.Amount?
               then Ok(Price(raw.value.value, if v.currency.Some? then v.currency.value else Unspecified))
               else Err(PreconditionFailed)
    decreases i
  {
    if i > 0 {
      assert item.variants[0].id != id;
      VariantPriceChoice(item.(variants := item.variants[1..]), id, i - 1);
    }
  }

  /** An item the order accepts: the store answered with it and it is on sale. */
  predicate OnSale(fetch: Fetch) {
    fetch.Replied? && fetch.item.id != "" && fetch.item.isAvailable
  }

  /** Both selectors agree: an order price exists exactly for items on sale that the cart can price, and is that price. */
  lemma SelectorsAgree(catalog: Catalog, productId: string, variantId: Option<string>, x: real)
    ensures FetchServerPrice(catalog, productId, variantId) == Ok(x) <==>
            var fetch := Lookup(catalog, productId);
            && OnSale(fetch)
            && ExtractPrice(fetch.item, variantId).Ok?
            && ExtractPrice(fetch.item, variantId).value.price == x
  {
  }
}
