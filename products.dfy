/**
 * `ProductsService`: default-price validation and its canonical stored form
 * (NONE / EXACT / RANGE), the caller-owned default locations, owner-only
 * create and update, the cascading deletes, family sharing and the reorder
 * that skips what it cannot update.
 */
module Products {
  import opened Common
  import opened Errors
  import opened Store
  import opened Text
  import FamilyAccess
  import Sharing
  import NormalizeKey
  import Reorder
  import ErrorHandler

  function ProductOwner(p: Product): UserId { p.ownerId }
  function LocationOwner(l: Location): UserId { l.ownerId }

  // ---------------------------------------------------------------- prices

  /** The four price fields of a create or update request; each may be omitted. */
  datatype PriceInput = PriceInput(priceType: Option<PriceType>, currency: Option<string>, min: Option<int>, max: Option<int>)

  /** A currency the source accepts: present and not the empty string. */
  predicate HasCurrency(dto: PriceInput) {
    dto.currency.Some? && dto.currency.value != ""
  }

  /**
   * `validateDefaultPrice`. An omitted type counts as NONE, which always
   * passes; every other type needs a currency; EXACT needs a min and a max
   * that is omitted or equal to it; RANGE needs both bounds in order. The
   * missing min of EXACT is thrown as a plain `Error("Forbidden:…")`.
   */
  function ValidateDefaultPrice(dto: PriceInput): (r: Outcome)
    ensures dto.priceType.GetOr(NoPrice) == NoPrice ==> r.Ok?
    ensures dto.priceType.GetOr(NoPrice) != NoPrice && !HasCurrency(dto) ==> r.FailedWith(Forbidden, "defaultPriceCurrency is required")
    ensures dto.priceType == Some(Exact) && HasCurrency(dto) ==>
      (r.Ok? <==> dto.min.Some? && (dto.max.None? || dto.max == dto.min))
    ensures dto.priceType == Some(Exact) && HasCurrency(dto) && dto.min.None? ==>
      r == Err(Plain("Forbidden:defaultPriceMin is required"))
    ensures dto.priceType == Some(Exact) && HasCurrency(dto) && dto.min.Some? && dto.max.Some? && dto.max != dto.min ==>
      r.FailedWith(Forbidden, "For exact price, defaultPriceMax must be omitted or equal to defaultPriceMin")
    ensures dto.priceType == Some(Range) && HasCurrency(dto) ==>
      (r.Ok? <==> dto.min.Some? && dto.max.Some? && dto.max.value >= dto.min.value)
    ensures dto.priceType == Some(Range) && HasCurrency(dto) && dto.min.None? ==> r.FailedWith(Forbidden, "defaultPriceMin is required")
    ensures dto.priceType == Some(Range) && HasCurrency(dto) && dto.min.Some? && dto.max.None? ==>
      r.FailedWith(Forbidden, "defaultPriceMax is required")
    ensures dto.priceType == Some(Range) && HasCurrency(dto) && dto.min.Some? && dto.max.Some? && dto.max.value < dto.min.value ==>
      r.FailedWith(Forbidden, "defaultPriceMax must be >= defaultPriceMin")
  {
    var t := dto.priceType.GetOr(NoPrice);
    if t == NoPrice then Done
    else if !HasCurrency(dto) then Fail(Forbidden, "defaultPriceCurrency is required")
    else if t == Exact then
      if dto.min.None? then Err(Plain("Forbidden:defaultPriceMin is required"))
      else if dto.max.Some? && dto.max.value != dto.min.value then
        Fail(Forbidden, "For exact price, defaultPriceMax must be omitted or equal to defaultPriceMin")
      else Done
    else
      if dto.min.None? then Fail(Forbidden, "defaultPriceMin is required")
      else if dto.max.None? then Fail(Forbidden, "defaultPriceMax is required")
      else if dto.max.value < dto.min.value then Fail(Forbidden, "defaultPriceMax must be >= defaultPriceMin")
      else Done
  }

  /**
   * The plain error of an EXACT price without a min is answered with the same
   * Forbidden reply a `ServiceError` with that message would give.
   */
  lemma ExactMinErrorReply(dto: PriceInput)
    requires dto.priceType == Some(Exact) && HasCurrency(dto) && dto.min.None?
    ensures ValidateDefaultPrice(dto).Err?
    ensures ErrorHandler.Handle(ValidateDefaultPrice(dto).failure)
      == ErrorHandler.Handle(Service(ServiceError(Forbidden, "defaultPriceMin is required")))
  {
    var message := "defaultPriceMin is required";
    assert message[0] == 'd' && message[|message| - 1] == 'd';
    TrimOfTrimmed(message);
    ForbiddenLegacyReply(message);
    ExactMinErrorText();
  }

  /** The text of that plain error is the type name, a colon and the message. */
  lemma ExactMinErrorText()
    ensures "Forbidden:defaultPriceMin is required" == "Forbidden" + ":" + "defaultPriceMin is required"
  {
  }

  /** A plain error "Forbidden:<message>" with a trimmed, non-empty message is answered as Forbidden. */
  lemma ForbiddenLegacyReply(message: string)
    requires message != "" && Trim(message) == message
    ensures ErrorHandler.Handle(Plain("Forbidden" + ":" + message)) == ErrorHandler.Reply(Forbidden, message)
  {
    assert ErrorHandler.KindOfName("Forbidden") == Some(Forbidden);
    ErrorHandler.LegacyMessage("Forbidden", message);
  }

  /**
   * A stored default price in canonical form: NONE has no currency and no
   * bounds; EXACT and RANGE have a currency and both bounds, equal for EXACT
   * and in order for RANGE.
   */
  predicate ValidPrice(p: Price) {
    if p.priceType == NoPrice then p.currency.None? && p.min.None? && p.max.None?
    else
      (p.currency.Some? && p.currency.value != "" && p.min.Some? && p.max.Some?
       && (p.priceType == Exact ==> p.max.value == p.min.value)
       && (p.priceType == Range ==> p.max.value >= p.min.value))
  }

  /**
   * The price columns `create` writes (and `update` when a type is given):
   * NONE clears currency and bounds, EXACT stores the min as the max too,
   * RANGE stores the given bounds.
   */
  function Canonical(dto: PriceInput): (p: Price)
    ensures p.priceType == dto.priceType.GetOr(NoPrice)
    ensures p.priceType == NoPrice ==> p == NoPriceSet
    ensures p.priceType == Exact ==> p.currency == dto.currency && p.min == dto.min && p.max == dto.min
    ensures p.priceType == Range ==> p.currency == dto.currency && p.min == dto.min && p.max == dto.max
  {
    var t := dto.priceType.GetOr(NoPrice);
    Price(t,
      if t == NoPrice then None else dto.currency,
      if t == NoPrice then None else dto.min,
      if t == Range then dto.max else if t == Exact then dto.min else None)
  }

  /** A price that passes validation is stored in canonical form. */
  lemma ValidatedIsCanonical(dto: PriceInput)
    requires ValidateDefaultPrice(dto).Ok?
    ensures ValidPrice(Canonical(dto))
  {
  }

  /** The request that states a stored price field by field. */
  function InputOf(p: Price): PriceInput {
    PriceInput(Some(p.priceType), p.currency, p.min, p.max)
  }

  /** A canonical price, sent back as it is, validates and is stored unchanged. */
  lemma CanonicalRoundTrip(p: Price)
    requires ValidPrice(p)
    ensures ValidateDefaultPrice(InputOf(p)).Ok?
    ensures Canonical(InputOf(p)) == p
  {
  }

  /** `update` validates the price only when at least one price field is given. */
  predicate AnyPriceField(dto: PriceInput) {
    dto.priceType.Some? || dto.currency.Some? || dto.min.Some? || dto.max.Some?
  }

  /** The price after `update`: rewritten in canonical form when a type is given, otherwise as stored. */
  function UpdatedPrice(stored: Price, dto: PriceInput): (p: Price)
    ensures dto.priceType.None? ==> p == stored
    ensures dto.priceType.Some? ==> p == Canonical(dto)
  {
    if dto.priceType.Some? then Canonical(dto) else stored
  }

  /**
   * An update that passed its price check keeps a canonical stored price
   * canonical; a request with a currency or bounds but no type is validated
   * as NONE and leaves the stored price alone.
   */
  lemma UpdateKeepsPriceCanonical(stored: Price, dto: PriceInput)
    requires ValidPrice(stored)
    requires AnyPriceField(dto) ==> ValidateDefaultPrice(dto).Ok?
    ensures ValidPrice(UpdatedPrice(stored, dto))
    ensures dto.priceType.None? ==> ValidateDefaultPrice(dto).Ok?
  {
    if dto.priceType.Some? {
      ValidatedIsCanonical(dto);
    }
  }

  // ---------------------------------------------------------------- checks

  /** `requireOwnedProduct`: NotFound for an unknown product, Forbidden for anyone but its owner. */
  function RequireOwnedProduct(products: map<ProductId, Product>, userId: UserId, productId: ProductId): (r: Result<Product>)
    ensures r.Ok? <==> productId in products && products[productId].ownerId == userId
    ensures r.Ok? ==> r.value == products[productId]
    ensures productId !in products ==> r.FailedWith(NotFound, "Product not found")
    ensures productId in products && products[productId].ownerId != userId ==> r.FailedWith(Forbidden, "Only owner can modify")
  {
    if productId !in products then Fail(NotFound, "Product not found")
    else if products[productId].ownerId != userId then Fail(Forbidden, "Only owner can modify")
    else Ok(products[productId])
  }

  /**
   * `assertOwnedLocations`: no ids pass; otherwise the number of the caller's
   * locations among the ids must equal the number of ids, so each id must be
   * a distinct location the caller owns.
   */
  function AssertOwnedLocations(locations: map<LocationId, Location>, userId: UserId, locationIds: seq<LocationId>): (r: Outcome)
    ensures r.Ok? <==> Distinct(locationIds) && Sharing.AllOwned(locations, LocationOwner, userId, locationIds)
    ensures r.Err? ==> r.FailedWith(Forbidden, "Default locations must belong to current user")
  {
    Sharing.BatchGate(locations, LocationOwner, userId, locationIds);
    if |locationIds| == 0 then Done
    else if |Sharing.OwnedAmong(locations, LocationOwner, userId, locationIds)| != |locationIds| then
      Fail(Forbidden, "Default locations must belong to current user")
    else Done
  }

  /** The default-location links of one product: one row per location id. */
  function LinksOf(productId: ProductId, locationIds: seq<LocationId>): (links: set<(ProductId, LocationId)>)
    ensures forall p :: p in links <==> p.0 == productId && p.1 in locationIds
  {
    set l | l in locationIds :: (productId, l)
  }

  // ---------------------------------------------------------------- create

  datatype CreateRequest = CreateRequest(title: string, price: PriceInput, locationIds: Option<seq<LocationId>>)

  /** The row `create` writes: the caller's, keyed by the normalized title, with the canonical price. */
  function NewProduct(userId: UserId, dto: CreateRequest, sortIndex: int, createdAt: int): (p: Product)
    ensures p.ownerId == userId && p.title == dto.title
    ensures p.price == Canonical(dto.price) && p.sortIndex == sortIndex && p.createdAt == createdAt
  {
    Product(userId, dto.title, NormalizeKey.Normalize(dto.title), Canonical(dto.price), sortIndex, createdAt)
  }

  /** A created product is keyed by its normalized title, which has the form of a key. */
  lemma NewProductKey(userId: UserId, dto: CreateRequest, sortIndex: int, createdAt: int)
    ensures NewProduct(userId, dto, sortIndex, createdAt).normalizedKey == NormalizeKey.Normalize(dto.title)
    ensures NormalizeKey.IsKey(NewProduct(userId, dto, sortIndex, createdAt).normalizedKey)
  {
    NormalizeKey.NormalizedIsKey(dto.title);
  }

  /** The checks of `create`, in order: the default locations (none when omitted), then the price. */
  function CreateChecks(locations: map<LocationId, Location>, userId: UserId, dto: CreateRequest): (r: Outcome)
    ensures var owned := AssertOwnedLocations(locations, userId, dto.locationIds.GetOr([]));
      (owned.Err? ==> r == owned)
      && (owned.Ok? ==> r == ValidateDefaultPrice(dto.price))
    ensures r.Ok? ==> ValidPrice(Canonical(dto.price))
  {
    var _ :- AssertOwnedLocations(locations, userId, dto.locationIds.GetOr([]));
    var price := ValidateDefaultPrice(dto.price);
    if price.Ok? then ValidatedIsCanonical(dto.price); price else price
  }

  /**
   * `create`: the default locations are checked before the price; on success
   * the product and its default-location links are written. The id, the
   * default sort index and the creation time are the database's.
   */
  method Create(db: Db, userId: UserId, dto: CreateRequest, newId: ProductId, sortIndex: int, createdAt: int)
    returns (r: Result<Product>)
    requires newId !in db.products
    modifies db`products, db`productLocations
    ensures var checks := old(CreateChecks(db.locations, userId, dto));
      (r.Ok? <==> checks.Ok?) && (checks.Err? ==> r == Err(checks.failure))
    ensures r.Err? ==> unchanged(db`products, db`productLocations)
    ensures r.Ok? ==> r.value == NewProduct(userId, dto, sortIndex, createdAt)
    ensures r.Ok? ==> db.products == old(db.products)[newId := r.value]
    ensures r.Ok? ==> db.productLocations == old(db.productLocations) + LinksOf(newId, dto.locationIds.GetOr([]))
  {
    var locationIds := dto.locationIds.GetOr([]);
    var checks := CreateChecks(db.locations, userId, dto);
    if checks.Err? {
      return Err(checks.failure);
    }
    var product := NewProduct(userId, dto, sortIndex, createdAt);
    InsertRow(db, newId, product, locationIds);
    r := Ok(product);
  }

  /** The two writes of `create`: the product row and its default-location links. */
  method InsertRow(db: Db, newId: ProductId, product: Product, locationIds: seq<LocationId>)
    modifies db`products, db`productLocations
    ensures db.products == old(db.products)[newId := product]
    ensures db.productLocations == old(db.productLocations) + LinksOf(newId, locationIds)
  {
    db.products := db.products[newId := product];
    db.productLocations := db.productLocations + LinksOf(newId, locationIds);
  }

  // ---------------------------------------------------------------- update

  datatype UpdateRequest = UpdateRequest(title: Option<string>, price: PriceInput, locationIds: Option<seq<LocationId>>)

  /**
   * The row after `update`: a given title is written, but only a non-empty
   * one re-keys the product; the price as `UpdatedPrice` says; owner, index
   * and creation time are kept.
   */
  function UpdatedProduct(p: Product, dto: UpdateRequest): (q: Product)
    ensures q.ownerId == p.ownerId && q.sortIndex == p.sortIndex && q.createdAt == p.createdAt
    ensures q.title == dto.title.GetOr(p.title)
    ensures dto.title.Some? && dto.title.value != "" ==> q.normalizedKey == NormalizeKey.Normalize(dto.title.value)
    ensures (dto.title.None? || dto.title.value == "") ==> q.normalizedKey == p.normalizedKey
    ensures q.price == UpdatedPrice(p.price, dto.price)
  {
    p.(title := dto.title.GetOr(p.title),
       normalizedKey := if dto.title.Some? && dto.title.value != "" then NormalizeKey.Normalize(dto.title.value) else p.normalizedKey,
       price := UpdatedPrice(p.price, dto.price))
  }

  /** The links after replacing one product's default locations. */
  function ReplacedLinks(links: set<(ProductId, LocationId)>, productId: ProductId, locationIds: seq<LocationId>)
    : (r: set<(ProductId, LocationId)>)
    ensures forall p: (ProductId, LocationId) :: p.0 != productId ==> (p in r <==> p in links)
    ensures forall l :: (productId, l) in r <==> l in locationIds
  {
    (set p | p in links && p.0 != productId) + LinksOf(productId, locationIds)
  }

  /** The checks of `update`, in order: owner, then given locations, then given price fields. */
  function UpdateChecks(products: map<ProductId, Product>, locations: map<LocationId, Location>, userId: UserId,
                        productId: ProductId, dto: UpdateRequest): (r: Result<Product>)
    ensures var owned := RequireOwnedProduct(products, userId, productId);
      (owned.Err? ==> r == Err(owned.failure))
      && (r.Ok? ==> r == owned)
    ensures r.Ok? <==> (RequireOwnedProduct(products, userId, productId).Ok?
      && (dto.locationIds.Some? ==> AssertOwnedLocations(locations, userId, dto.locationIds.value).Ok?)
      && (AnyPriceField(dto.price) ==> ValidateDefaultPrice(dto.price).Ok?))
  {
    var p :- RequireOwnedProduct(products, userId, productId);
    var _ :- if dto.locationIds.Some? then AssertOwnedLocations(locations, userId, dto.locationIds.value) else Done;
    var _ :- if AnyPriceField(dto.price) then ValidateDefaultPrice(dto.price) else Done;
    Ok(p)
  }

  /**
   * `update`: after the checks, the default locations are replaced when given
   * (an empty list clears them) and the row is rewritten.
   */
  method Update(db: Db, userId: UserId, productId: ProductId, dto: UpdateRequest) returns (r: Result<Product>)
    modifies db`products, db`productLocations
    ensures var checks := UpdateChecks(old(db.products), db.locations, userId, productId, dto);
      (r.Ok? <==> checks.Ok?) && (checks.Err? ==> r == Err(checks.failure))
    ensures r.Err? ==> unchanged(db`products, db`productLocations)
    ensures r.Ok? ==> r.value == UpdatedProduct(old(db.products)[productId], dto)
    ensures r.Ok? ==> db.products == old(db.products)[productId := r.value]
    ensures r.Ok? && dto.locationIds.None? ==> db.productLocations == old(db.productLocations)
    ensures r.Ok? && dto.locationIds.Some? ==>
      db.productLocations == ReplacedLinks(old(db.productLocations), productId, dto.locationIds.value)
  {
    var checks := UpdateChecks(db.products, db.locations, userId, productId, dto);
    if checks.Err? {
      return Err(checks.failure);
    }
    if dto.locationIds.Some? {
      db.productLocations := ReplacedLinks(db.productLocations, productId, dto.locationIds.value);
    }
    var product := UpdatedProduct(checks.value, dto);
    db.products := db.products[productId := product];
    r := Ok(product);
  }

  /** A successful update keeps the product's stored price canonical. */
  lemma UpdatePriceStaysCanonical(products: map<ProductId, Product>, locations: map<LocationId, Location>, userId: UserId,
                                  productId: ProductId, dto: UpdateRequest)
    requires UpdateChecks(products, locations, userId, productId, dto).Ok?
    requires ValidPrice(products[productId].price)
    ensures ValidPrice(UpdatedProduct(products[productId], dto).price)
  {
    UpdateKeepsPriceCanonical(products[productId].price, dto.price);
  }

  // ---------------------------------------------------------------- remove / removeMany

  /** The shopping items that do not refer to one of the products. */
  function DropProductItems(items: map<ItemId, Item>, ids: set<ProductId>): (r: map<ItemId, Item>)
    ensures forall id :: id in r <==> id in items && !RefersTo(items[id], ids)
    ensures forall id :: id in r ==> r[id] == items[id]
  {
    map id | id in items && !RefersTo(items[id], ids) :: items[id]
  }

  predicate RefersTo(item: Item, ids: set<ProductId>) {
    item.detail.ShoppingDetail? && item.detail.productId.Some? && item.detail.productId.value in ids
  }

  /** Template items that referred to one of the products keep their title and price but lose the reference. */
  function DetachTemplateItems(items: map<TemplateItemId, TemplateItem>, ids: set<ProductId>): (r: map<TemplateItemId, TemplateItem>)
    ensures r.Keys == items.Keys
    ensures forall id :: id in items && items[id].productId.Some? && items[id].productId.value in ids ==>
      r[id] == items[id].(productId := None)
    ensures forall id :: id in items && !(items[id].productId.Some? && items[id].productId.value in ids) ==> r[id] == items[id]
  {
    map id | id in items :: if items[id].productId.Some? && items[id].productId.value in ids then items[id].(productId := None) else items[id]
  }

  function DropLinks(links: set<(ProductId, LocationId)>, ids: set<ProductId>): (r: set<(ProductId, LocationId)>)
    ensures forall p :: p in r <==> p in links && p.0 !in ids
  {
    set p | p in links && p.0 !in ids
  }

  function DropProductShares(shares: set<(FamilyId, ProductId)>, ids: set<ProductId>): (r: set<(FamilyId, ProductId)>)
    ensures forall p :: p in r <==> p in shares && p.1 !in ids
  {
    set p | p in shares && p.1 !in ids
  }

  /** The transaction of `remove`/`removeMany`, in the source's order. */
  method Cascade(db: Db, ids: set<ProductId>)
    modifies db`shopping, db`templateItems, db`productLocations, db`productShares, db`products
    ensures db.shopping == DropProductItems(old(db.shopping), ids)
    ensures db.templateItems == DetachTemplateItems(old(db.templateItems), ids)
    ensures db.productLocations == DropLinks(old(db.productLocations), ids)
    ensures db.productShares == DropProductShares(old(db.productShares), ids)
    ensures db.products == old(db.products) - ids
  {
    db.shopping := DropProductItems(db.shopping, ids);
    db.templateItems := DetachTemplateItems(db.templateItems, ids);
    db.productLocations := DropLinks(db.productLocations, ids);
    db.productShares := DropProductShares(db.productShares, ids);
    db.products := db.products - ids;
  }

  /** After the cascade nothing refers to a deleted product, and every template item survives. */
  lemma CascadeLeavesNoDangling(shopping: map<ItemId, Item>, items: map<TemplateItemId, TemplateItem>,
                                links: set<(ProductId, LocationId)>, shares: set<(FamilyId, ProductId)>, ids: set<ProductId>)
    ensures forall id :: id in DropProductItems(shopping, ids) ==> !RefersTo(DropProductItems(shopping, ids)[id], ids)
    ensures forall id :: id in DetachTemplateItems(items, ids) ==>
      !(DetachTemplateItems(items, ids)[id].productId.Some? && DetachTemplateItems(items, ids)[id].productId.value in ids)
    ensures DetachTemplateItems(items, ids).Keys == items.Keys
    ensures forall p :: p in DropLinks(links, ids) ==> p.0 !in ids
    ensures forall p :: p in DropProductShares(shares, ids) ==> p.1 !in ids
  {
  }

  /** `remove`: owner only, then the cascade for one product. */
  method Remove(db: Db, userId: UserId, productId: ProductId) returns (r: Outcome)
    modifies db`shopping, db`templateItems, db`productLocations, db`productShares, db`products
    ensures var owned := RequireOwnedProduct(old(db.products), userId, productId);
      (r.Ok? <==> owned.Ok?) && (owned.Err? ==> r == Err(owned.failure))
    ensures r.Err? ==> unchanged(db`shopping, db`templateItems, db`productLocations, db`productShares, db`products)
    ensures r.Ok? ==> db.shopping == DropProductItems(old(db.shopping), {productId})
    ensures r.Ok? ==> db.templateItems == DetachTemplateItems(old(db.templateItems), {productId})
    ensures r.Ok? ==> db.productLocations == DropLinks(old(db.productLocations), {productId})
    ensures r.Ok? ==> db.productShares == DropProductShares(old(db.productShares), {productId})
    ensures r.Ok? ==> db.products == old(db.products) - {productId}
  {
    var owned := RequireOwnedProduct(db.products, userId, productId);
    if owned.Err? {
      return Err(owned.failure);
    }
    Cascade(db, {productId});
    r := Done;
  }

  /** `removeMany`: all or nothing; Forbidden unless every id is a distinct product the caller owns. */
  method RemoveMany(db: Db, userId: UserId, productIds: seq<ProductId>) returns (r: Outcome)
    modifies db`shopping, db`templateItems, db`productLocations, db`productShares, db`products
    ensures r.Ok? <==> Distinct(productIds) && Sharing.AllOwned(old(db.products), ProductOwner, userId, productIds)
    ensures r.Err? ==> r.FailedWith(Forbidden, "Some products not found or not owned by you")
    ensures r.Err? ==> unchanged(db`shopping, db`templateItems, db`productLocations, db`productShares, db`products)
    ensures r.Ok? ==> db.shopping == DropProductItems(old(db.shopping), Elements(productIds))
    ensures r.Ok? ==> db.templateItems == DetachTemplateItems(old(db.templateItems), Elements(productIds))
    ensures r.Ok? ==> db.productLocations == DropLinks(old(db.productLocations), Elements(productIds))
    ensures r.Ok? ==> db.productShares == DropProductShares(old(db.productShares), Elements(productIds))
    ensures r.Ok? ==> db.products == old(db.products) - Elements(productIds)
  {
    var found := Sharing.OwnedAmong(db.products, ProductOwner, userId, productIds);
    Sharing.BatchGate(db.products, ProductOwner, userId, productIds);
    if |found| != |productIds| {
      return Fail(Forbidden, "Some products not found or not owned by you");
    }
    Cascade(db, Elements(productIds));
    r := Done;
  }

  // ---------------------------------------------------------------- share / unshare / setSharing

  /** `share` on the product share table: owner only, family admin only, then an upsert. */
  function SharedProduct(products: map<ProductId, Product>, productShares: set<(FamilyId, ProductId)>,
                         members: map<(FamilyId, UserId), Member>, userId: UserId, productId: ProductId, familyId: FamilyId)
    : (r: Result<set<(FamilyId, ProductId)>>)
    ensures var owned := RequireOwnedProduct(products, userId, productId);
      var admin := FamilyAccess.RequireFamilyAdmin(members, userId, familyId);
      (owned.Err? ==> r == Err(owned.failure))
      && (owned.Ok? && admin.Err? ==> r == Err(admin.failure))
      && (r.Ok? <==> owned.Ok? && admin.Ok?)
    ensures r.Ok? ==> (familyId, productId) in r.value && forall p :: p != (familyId, productId) ==> (p in r.value <==> p in productShares)
  {
    var _ :- RequireOwnedProduct(products, userId, productId);
    var _ :- FamilyAccess.RequireFamilyAdmin(members, userId, familyId);
    Ok(productShares + {(familyId, productId)})
  }

  /** Sharing a product again changes nothing. */
  lemma ShareIdempotent(products: map<ProductId, Product>, productShares: set<(FamilyId, ProductId)>,
                        members: map<(FamilyId, UserId), Member>, userId: UserId, productId: ProductId, familyId: FamilyId)
    requires SharedProduct(products, productShares, members, userId, productId, familyId).Ok?
    ensures var once := SharedProduct(products, productShares, members, userId, productId, familyId).value;
      SharedProduct(products, once, members, userId, productId, familyId) == Ok(once)
  {
  }

  method Share(db: Db, userId: UserId, productId: ProductId, familyId: FamilyId) returns (r: Outcome)
    modifies db`productShares
    ensures var shared := SharedProduct(db.products, old(db.productShares), db.members, userId, productId, familyId);
      (r.Ok? <==> shared.Ok?) && (shared.Err? ==> r == Err(shared.failure) && db.productShares == old(db.productShares))
      && (shared.Ok? ==> db.productShares == shared.value)
  {
    var shared := SharedProduct(db.products, db.productShares, db.members, userId, productId, familyId);
    if shared.Err? {
      return Err(shared.failure);
    }
    db.productShares := shared.value;
    r := Done;
  }

  /** `unshare`: owner only, then `delete` of the share, which fails when the product is not shared with that family. */
  function UnsharedProduct(products: map<ProductId, Product>, productShares: set<(FamilyId, ProductId)>,
                           userId: UserId, productId: ProductId, familyId: FamilyId)
    : (r: Result<set<(FamilyId, ProductId)>>)
    ensures var owned := RequireOwnedProduct(products, userId, productId);
      (owned.Err? ==> r == Err(owned.failure))
      && (owned.Ok? && (familyId, productId) !in productShares ==> r == Err(RecordNotFound))
      && (r.Ok? <==> owned.Ok? && (familyId, productId) in productShares)
    ensures r.Ok? ==> (familyId, productId) !in r.value && forall p :: p != (familyId, productId) ==> (p in r.value <==> p in productShares)
  {
    var _ :- RequireOwnedProduct(products, userId, productId);
    if (familyId, productId) !in productShares then Err(RecordNotFound) else Ok(productShares - {(familyId, productId)})
  }

  /** Unsharing right after a share that added the pair gives the table back. */
  lemma ShareThenUnshare(products: map<ProductId, Product>, productShares: set<(FamilyId, ProductId)>,
                         members: map<(FamilyId, UserId), Member>, userId: UserId, productId: ProductId, familyId: FamilyId)
    requires SharedProduct(products, productShares, members, userId, productId, familyId).Ok?
    requires (familyId, productId) !in productShares
    ensures var shared := SharedProduct(products, productShares, members, userId, productId, familyId).value;
      UnsharedProduct(products, shared, userId, productId, familyId) == Ok(productShares)
  {
    var shared := SharedProduct(products, productShares, members, userId, productId, familyId).value;
    assert shared - {(familyId, productId)} == productShares;
  }

  method Unshare(db: Db, userId: UserId, productId: ProductId, familyId: FamilyId) returns (r: Outcome)
    modifies db`productShares
    ensures var unshared := UnsharedProduct(db.products, old(db.productShares), userId, productId, familyId);
      (r.Ok? <==> unshared.Ok?) && (unshared.Err? ==> r == Err(unshared.failure) && db.productShares == old(db.productShares))
      && (unshared.Ok? ==> db.productShares == unshared.value)
  {
    var unshared := UnsharedProduct(db.products, db.productShares, userId, productId, familyId);
    if unshared.Err? {
      return Err(unshared.failure);
    }
    db.productShares := unshared.value;
    r := Done;
  }

  /**
   * `setSharing`: family admin only; the caller's product shares with the
   * family become exactly the requested products they own.
   */
  method SetSharing(db: Db, userId: UserId, familyId: FamilyId, productIds: seq<ProductId>) returns (r: Outcome)
    modifies db`productShares
    ensures var admin := old(FamilyAccess.RequireFamilyAdmin(db.members, userId, familyId));
      (r.Ok? <==> admin.Ok?) && (admin.Err? ==> r == Err(admin.failure))
    ensures r.Err? ==> db.productShares == old(db.productShares)
    ensures r.Ok? ==> db.productShares == Sharing.ReplacedShares(old(db.productShares), db.products, ProductOwner, userId, familyId, productIds)
  {
    var admin := FamilyAccess.RequireFamilyAdmin(db.members, userId, familyId);
    if admin.Err? {
      return Err(admin.failure);
    }
    db.productShares := Sharing.ReplacedShares(db.productShares, db.products, ProductOwner, userId, familyId, productIds);
    r := Done;
  }

  // ---------------------------------------------------------------- reorder

  /**
   * One `updateMany({ where: { id, ownerId: userId } })`: a product of the
   * caller takes the index, any other row is left as it is.
   */
  function OwnedIndex(userId: UserId): (Product, int) -> Product {
    (p: Product, i: int) => if p.ownerId == userId then p.(sortIndex := i) else p
  }

  /**
   * `reorder` needs no check: an id that is missing or not the caller's
   * matches no row and is skipped. The caller's products among the ids take
   * their position (the last one for a repeated id); nothing else changes.
   */
  lemma ReorderEffect(products: map<ProductId, Product>, userId: UserId, orderedIds: seq<ProductId>)
    ensures var t := Reorder.Renumbered(products, orderedIds, OwnedIndex(userId));
      t.Keys == products.Keys
      && (forall id :: id in products && (id !in orderedIds || products[id].ownerId != userId) ==> t[id] == products[id])
      && (forall id :: id in orderedIds && id in products && products[id].ownerId == userId ==>
           t[id] == products[id].(sortIndex := Reorder.LastIndex(orderedIds, id)))
    ensures Distinct(orderedIds) ==> forall i :: 0 <= i < |orderedIds| && orderedIds[i] in products && products[orderedIds[i]].ownerId == userId ==>
      Reorder.Renumbered(products, orderedIds, OwnedIndex(userId))[orderedIds[i]] == products[orderedIds[i]].(sortIndex := i)
  {
    if Distinct(orderedIds) {
      Reorder.DistinctIdsTakeTheirIndex(products, orderedIds, OwnedIndex(userId));
    }
  }

  method ReorderProducts(db: Db, userId: UserId, orderedIds: seq<ProductId>) returns (r: Outcome)
    modifies db`products
    ensures r == Done
    ensures db.products == Reorder.Renumbered(old(db.products), orderedIds, OwnedIndex(userId))
  {
    db.products := Reorder.Renumber(db.products, orderedIds, OwnedIndex(userId));
    r := Done;
  }
}
