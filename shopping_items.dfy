/**
 * The shopping-item service: the product check, creation and partial
 * update. Listing, toggling, removal and reordering are the shared item
 * operations of `BaseItems` on the shopping table.
 */
module ShoppingItems {
  import opened Common
  import opened Errors
  import opened Store
  import NormalizeKey
  import ListsAccess
  import BaseItems

  /** Some family the list is shared with also has the product shared to it. */
  predicate SharedToListFamily(listShares: set<(ListId, FamilyId)>, productShares: set<(FamilyId, ProductId)>, listId: ListId, productId: ProductId) {
    exists f :: f in SharesOf(listShares, listId) && (f, productId) in productShares
  }

  /**
   * `ensureProductAllowed`: the list must exist, then the product; the
   * caller's own product is always allowed, another owner's only when it is
   * shared to one of the families the list is shared with.
   */
  function EnsureProductAllowed(
    lists: map<ListId, ListRow>, listShares: set<(ListId, FamilyId)>,
    products: map<ProductId, Product>, productShares: set<(FamilyId, ProductId)>,
    userId: UserId, listId: ListId, productId: ProductId): (r: Outcome)
    ensures listId !in lists ==> r.FailedWith(NotFound, "List not found")
    ensures listId in lists && productId !in products ==> r.FailedWith(BadRequest, "Product not found")
    ensures (listId in lists && productId in products && products[productId].ownerId != userId
      && SharesOf(listShares, listId) == {}) ==> r.FailedWith(BadRequest, "Product must belong to current user")
    ensures (listId in lists && productId in products && products[productId].ownerId != userId
      && SharesOf(listShares, listId) != {} && !SharedToListFamily(listShares, productShares, listId, productId))
      ==> r.FailedWith(BadRequest, "Product is not available for this list")
  {
    var _ :- ListsAccess.GetListOrThrow(lists, listShares, listId);
    if productId !in products then Fail(BadRequest, "Product not found")
    else if products[productId].ownerId == userId then Done
    else if SharesOf(listShares, listId) == {} then Fail(BadRequest, "Product must belong to current user")
    else if !SharedToListFamily(listShares, productShares, listId, productId) then Fail(BadRequest, "Product is not available for this list")
    else Done
  }

  /**
   * A product is accepted exactly when the list and the product exist and
   * the caller owns the product or it is shared to a family of the list.
   */
  lemma ProductAllowedIff(
    lists: map<ListId, ListRow>, listShares: set<(ListId, FamilyId)>,
    products: map<ProductId, Product>, productShares: set<(FamilyId, ProductId)>,
    userId: UserId, listId: ListId, productId: ProductId)
    ensures EnsureProductAllowed(lists, listShares, products, productShares, userId, listId, productId).Ok? <==>
      listId in lists && productId in products
      && (products[productId].ownerId == userId || SharedToListFamily(listShares, productShares, listId, productId))
    ensures EnsureProductAllowed(lists, listShares, products, productShares, userId, listId, productId).Err? ==>
      EnsureProductAllowed(lists, listShares, products, productShares, userId, listId, productId).failure.Service?
  {
  }

  /** The product check on the database, when the request names a product. */
  function ProductCheck(db: Db, userId: UserId, listId: ListId, productId: Option<ProductId>): Outcome
    reads db
  {
    if productId.Some? then EnsureProductAllowed(db.lists, db.listShares, db.products, db.productShares, userId, listId, productId.value)
    else Done
  }

  /** The body of a create request; `None` stands for an omitted field. */
  datatype CreateRequest = CreateRequest(
    title: Option<string>, productId: Option<ProductId>, quantity: Option<int>, repeatEveryDays: Option<int>)

  /** The title a new item gets: the given one, or the product's title when it is empty and a product is named. */
  function CreatedTitle(products: map<ProductId, Product>, dto: CreateRequest): (title: string)
    ensures dto.title.Some? && dto.title.value != [] ==> title == dto.title.value
    ensures (dto.title.None? || dto.title.value == []) && dto.productId.Some? && dto.productId.value in products
      ==> title == products[dto.productId.value].title
    ensures (dto.title.None? || dto.title.value == []) && (dto.productId.None? || dto.productId.value !in products)
      ==> title == []
  {
    var title := dto.title.GetOr("");
    if title == [] && dto.productId.Some? && dto.productId.value in products then products[dto.productId.value].title
    else title
  }

  /** The row `createItem` inserts into the list, `sortIndex` being the next unchecked index. */
  function NewItem(products: map<ProductId, Product>, listId: ListId, dto: CreateRequest, sortIndex: int, now: int): Item {
    var title := CreatedTitle(products, dto);
    Item(listId, title, NormalizeKey.Normalize(title), false, None, dto.repeatEveryDays, sortIndex, now,
         ShoppingDetail(dto.productId, dto.quantity.GetOr(1), NoPriceSet))
  }

  /**
   * A created item is unchecked, comes after every unchecked item of its
   * list, has quantity 1 unless one was given, the product link given, and
   * the normalised key of its title.
   */
  lemma CreatedItemFacts(table: map<ItemId, Item>, products: map<ProductId, Product>, listId: ListId, dto: CreateRequest, now: int)
    ensures var item := NewItem(products, listId, dto, BaseItems.NextSortIndex(table, listId, false), now);
      !item.isChecked && item.checkedAt.None? && item.listId == listId
      && (forall id :: BaseItems.InGroup(table, id, listId, false) ==> table[id].sortIndex < item.sortIndex)
      && ((forall id :: !BaseItems.InGroup(table, id, listId, false)) ==> item.sortIndex == 1)
      && item.detail.quantity == (if dto.quantity.Some? then dto.quantity.value else 1)
      && item.detail.productId == dto.productId
      && NormalizeKey.IsKey(item.normalizedKey)
      && item.normalizedKey == NormalizeKey.Normalize(item.title)
  {
    NormalizeKey.NormalizedIsKey(CreatedTitle(products, dto));
  }

  /** `createItem`: write access, the product check, then the insert at the end of the unchecked group. */
  method CreateItem(db: Db, userId: UserId, listId: ListId, dto: CreateRequest, newId: ItemId, now: int)
    returns (r: Result<BaseItems.Row>)
    requires newId !in db.shopping
    modifies db`shopping
    ensures var access := old(ListsAccess.Access(db.lists, db.listShares, db.members, userId, listId, Write));
      var check := old(ProductCheck(db, userId, listId, dto.productId));
      (access.Err? ==> r == Err(access.failure))
      && (access.Ok? && check.Err? ==> r == Err(check.failure))
      && (r.Ok? <==> access.Ok? && check.Ok?)
    ensures r.Ok? ==> (r.value.0 == newId
      && r.value.1 == NewItem(old(db.products), listId, dto, BaseItems.NextSortIndex(old(db.shopping), listId, false), now)
      && db.shopping == old(db.shopping)[newId := r.value.1])
    ensures r.Err? ==> db.shopping == old(db.shopping)
  {
    var access := ListsAccess.AssertAccess(db, userId, listId, Write);
    if access.Err? {
      return Err(access.failure);
    }
    var check := ProductCheck(db, userId, listId, dto.productId);
    if check.Err? {
      return Err(check.failure);
    }
    var sortIndex := BaseItems.AggregateNext(db.shopping, listId, false);
    var item := NewItem(db.products, listId, dto, sortIndex, now);
    db.shopping := db.shopping[newId := item];
    r := Ok((newId, item));
  }

  /**
   * The body of an update request. `None` / `Keep` stand for an omitted
   * field; quantity, title and sortIndex ignore an explicit null, while
   * productId and repeatEveryDays may be cleared with one.
   */
  datatype UpdateRequest = UpdateRequest(
    quantity: Option<int>, productId: Patch<Option<ProductId>>, title: Option<string>,
    repeatEveryDays: Patch<Option<int>>, sortIndex: Option<int>)

  /** The product the update request names, if any. */
  function NamedProduct(dto: UpdateRequest): Option<ProductId> {
    if dto.productId.Set? && dto.productId.value.Some? then dto.productId.value else None
  }

  /** The row after `updateItem` writes the supplied fields. */
  function UpdatedItem(item: Item, dto: UpdateRequest): Item
    requires item.detail.ShoppingDetail?
  {
    item.(title := dto.title.GetOr(item.title),
          repeatEveryDays := dto.repeatEveryDays.ApplyTo(item.repeatEveryDays),
          sortIndex := dto.sortIndex.GetOr(item.sortIndex),
          detail := item.detail.(productId := dto.productId.ApplyTo(item.detail.productId),
                                 quantity := dto.quantity.GetOr(item.detail.quantity)))
  }

  /**
   * An update changes exactly the supplied fields: the normalised key, the
   * checked state, the check time, the list and the price stay, and an
   * empty request changes nothing.
   */
  lemma UpdateChangesOnlySupplied(item: Item, dto: UpdateRequest)
    requires item.detail.ShoppingDetail?
    ensures var u := UpdatedItem(item, dto);
      u.normalizedKey == item.normalizedKey && u.isChecked == item.isChecked && u.checkedAt == item.checkedAt
      && u.listId == item.listId && u.createdAt == item.createdAt && u.detail.price == item.detail.price
      && u.title == (if dto.title.Some? then dto.title.value else item.title)
      && u.sortIndex == (if dto.sortIndex.Some? then dto.sortIndex.value else item.sortIndex)
      && u.detail.quantity == (if dto.quantity.Some? then dto.quantity.value else item.detail.quantity)
      && u.detail.productId == (if dto.productId.Set? then dto.productId.value else item.detail.productId)
      && u.repeatEveryDays == (if dto.repeatEveryDays.Set? then dto.repeatEveryDays.value else item.repeatEveryDays)
    ensures dto == UpdateRequest(None, Keep, None, Keep, None) ==> UpdatedItem(item, dto) == item
  {
  }

  /** `updateItem` after the access and product checks. */
  function Updated(table: map<ItemId, Item>, listId: ListId, itemId: ItemId, dto: UpdateRequest): (r: Result<map<ItemId, Item>>)
    ensures r.Err? <==> itemId !in table || table[itemId].listId != listId
    ensures r.Err? ==> r.FailedWith(BadRequest, "Item not found")
    ensures r.Ok? ==> r.value.Keys == table.Keys && forall id :: id in table && id != itemId ==> r.value[id] == table[id]
  {
    if itemId !in table || table[itemId].listId != listId then Fail(BadRequest, "Item not found")
    else if table[itemId].detail.ShoppingDetail? then Ok(table[itemId := UpdatedItem(table[itemId], dto)])
    else Ok(table)
  }

  /** `updateItem`: write access, the product check, then the update of the item in its list. */
  method UpdateItem(db: Db, userId: UserId, listId: ListId, itemId: ItemId, dto: UpdateRequest) returns (r: Result<BaseItems.Row>)
    modifies db`shopping
    ensures var access := old(ListsAccess.Access(db.lists, db.listShares, db.members, userId, listId, Write));
      var check := old(ProductCheck(db, userId, listId, NamedProduct(dto)));
      var updated := Updated(old(db.shopping), listId, itemId, dto);
      (access.Err? ==> r == Err(access.failure))
      && (access.Ok? && check.Err? ==> r == Err(check.failure))
      && (access.Ok? && check.Ok? && updated.Err? ==> r == Err(updated.failure))
      && (r.Ok? <==> access.Ok? && check.Ok? && updated.Ok?)
      && (r.Ok? ==> db.shopping == updated.value && r.value == (itemId, db.shopping[itemId]))
    ensures r.Err? ==> db.shopping == old(db.shopping)
  {
    var access := ListsAccess.AssertAccess(db, userId, listId, Write);
    if access.Err? {
      return Err(access.failure);
    }
    var check := ProductCheck(db, userId, listId, NamedProduct(dto));
    if check.Err? {
      return Err(check.failure);
    }
    var updated := Updated(db.shopping, listId, itemId, dto);
    if updated.Err? {
      return Err(updated.failure);
    }
    db.shopping := updated.value;
    r := Ok((itemId, db.shopping[itemId]));
  }

  // ---- the shared item operations on the shopping table ---------------------------------

  /** `listItems`: READ access, then the repeat sweep; the returned rows are the list's items as stored after it. */
  method ListItems(db: Db, userId: UserId, listId: ListId, now: int)
    returns (r: Result<seq<BaseItems.Row>>, ghost rows: seq<BaseItems.Row>)
    modifies db`shopping, db`tasks
    ensures var access := old(ListsAccess.Access(db.lists, db.listShares, db.members, userId, listId, Read));
      (access.Err? ==> r == Err(access.failure) && db.shopping == old(db.shopping))
      && (r.Ok? <==> access.Ok?)
    ensures r.Ok? ==> db.shopping == BaseItems.Swept(old(db.shopping), listId, true, now)
    ensures r.Ok? ==> forall i :: 0 <= i < |r.value| ==>
      (r.value[i].0 in db.shopping && db.shopping[r.value[i].0] == r.value[i].1 && r.value[i].1.listId == listId)
    ensures r.Ok? ==> forall id :: id in db.shopping && db.shopping[id].listId == listId ==> (id, db.shopping[id]) in r.value
    ensures r.Ok? ==> BaseItems.ListedRows(old(db.shopping), listId, rows)
    ensures r.Ok? ==> BaseItems.ResetInPlace(rows, BaseItems.DueInList(old(db.shopping), listId, true, now), r.value)
    ensures db.tasks == old(db.tasks)
  {
    r, rows := BaseItems.ListItems(db, BaseItems.ShoppingItems, true, userId, listId, now);
  }

  /** `toggleItem`: WRITE access, then the toggle that moves the item to the end of its new group. */
  method ToggleItem(db: Db, userId: UserId, listId: ListId, itemId: ItemId, target: bool, now: int)
    returns (r: Result<BaseItems.Row>)
    modifies db`shopping, db`tasks
    ensures var access := old(ListsAccess.Access(db.lists, db.listShares, db.members, userId, listId, Write));
      var toggled := BaseItems.Toggled(old(db.shopping), listId, itemId, target, now);
      (access.Err? ==> r == Err(access.failure))
      && (access.Ok? && toggled.Err? ==> r == Err(toggled.failure))
      && (r.Ok? <==> access.Ok? && toggled.Ok?)
      && (r.Ok? ==> db.shopping == toggled.value && r.value == (itemId, toggled.value[itemId]))
    ensures r.Err? ==> db.shopping == old(db.shopping)
    ensures db.tasks == old(db.tasks)
  {
    r := BaseItems.ToggleItem(db, BaseItems.ShoppingItems, userId, listId, itemId, target, now);
  }

  /** `removeItem`: WRITE access, then "Item not found" or the deletion of exactly that item. */
  method RemoveItem(db: Db, userId: UserId, listId: ListId, itemId: ItemId) returns (r: Outcome)
    modifies db`shopping, db`tasks
    ensures var access := old(ListsAccess.Access(db.lists, db.listShares, db.members, userId, listId, Write));
      var removed := BaseItems.Removed(old(db.shopping), listId, itemId);
      (access.Err? ==> r == Err(access.failure))
      && (access.Ok? && removed.Err? ==> r == Err(removed.failure))
      && (r.Ok? <==> access.Ok? && removed.Ok?)
      && (r.Ok? ==> db.shopping == removed.value)
    ensures r.Err? ==> db.shopping == old(db.shopping)
    ensures db.tasks == old(db.tasks)
  {
    r := BaseItems.RemoveItem(db, BaseItems.ShoppingItems, userId, listId, itemId);
  }

  /** `reorderItems`: WRITE access, the three BadRequest checks, then the 1-based positions in request order. */
  method ReorderItems(db: Db, userId: UserId, listId: ListId, orderedIds: seq<ItemId>, checked: bool) returns (r: Outcome)
    modifies db`shopping, db`tasks
    ensures var access := old(ListsAccess.Access(db.lists, db.listShares, db.members, userId, listId, Write));
      var reordered := BaseItems.Reordered(old(db.shopping), listId, orderedIds, checked);
      (access.Err? ==> r == Err(access.failure))
      && (access.Ok? && reordered.Err? ==> r == Err(reordered.failure))
      && (r.Ok? <==> access.Ok? && reordered.Ok?)
      && (r.Ok? ==> db.shopping == reordered.value)
    ensures r.Err? ==> db.shopping == old(db.shopping)
    ensures db.tasks == old(db.tasks)
  {
    r := BaseItems.ReorderItems(db, BaseItems.ShoppingItems, userId, listId, orderedIds, checked);
  }
}
