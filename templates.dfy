/**
 * `TemplatesService`: owner-only changes to shopping templates, read access
 * through family shares, adding products as template items, cascading
 * deletes, sharing (which also shares the caller's products the template's
 * items refer to) and the owner-only reorder.
 */
module Templates {
  import opened Common
  import opened Errors
  import opened Store
  import Query
  import FamilyAccess
  import BaseItems
  import Sharing
  import ListTemplates

  function TemplateOwner(t: Template): UserId { t.ownerId }

  /** `requireOwnedTemplate`: NotFound for an unknown template, Forbidden for anyone but its owner. */
  function RequireOwnedTemplate(templates: map<TemplateId, Template>, userId: UserId, templateId: TemplateId): (r: Result<Template>)
    ensures r.Ok? <==> templateId in templates && templates[templateId].ownerId == userId
    ensures r.Ok? ==> r.value == templates[templateId]
    ensures templateId !in templates ==> r.FailedWith(NotFound, "Template not found")
    ensures templateId in templates && templates[templateId].ownerId != userId ==> r.FailedWith(Forbidden, "Only owner can modify")
  {
    if templateId !in templates then Fail(NotFound, "Template not found")
    else if templates[templateId].ownerId != userId then Fail(Forbidden, "Only owner can modify")
    else Ok(templates[templateId])
  }

  /**
   * `ensureProductsOwned`: passes for no ids; otherwise the count of owned
   * products among the ids must equal the number of ids.
   */
  function EnsureProductsOwned(products: map<ProductId, Product>, userId: UserId, productIds: seq<ProductId>): (r: Outcome)
    ensures r.Ok? <==> Distinct(productIds) && forall i :: 0 <= i < |productIds| ==>
      productIds[i] in products && products[productIds[i]].ownerId == userId
    ensures r.Err? ==> r.FailedWith(Forbidden, "Referenced products must be owned by current user")
  {
    Sharing.BatchGate(products, (p: Product) => p.ownerId, userId, productIds);
    if |productIds| == 0 then Done
    else if |Sharing.OwnedAmong(products, (p: Product) => p.ownerId, userId, productIds)| != |productIds| then
      Fail(Forbidden, "Referenced products must be owned by current user")
    else Done
  }

  /** `get`: the owner, or a member of a family the template is shared with; anyone else is denied. */
  function Get(templates: map<TemplateId, Template>, templateShares: set<(FamilyId, TemplateId)>,
               members: map<(FamilyId, UserId), Member>, userId: UserId, templateId: TemplateId): (r: Result<Template>)
    ensures templateId !in templates ==> r.FailedWith(NotFound, "Template not found")
    ensures r.Ok? ==> r.value == templates[templateId]
    ensures templateId in templates && r.Err? ==> r.FailedWith(Forbidden, "Access denied")
  {
    if templateId !in templates then Fail(NotFound, "Template not found")
    else if templates[templateId].ownerId == userId then Ok(templates[templateId])
    else if exists share :: share in templateShares && share.1 == templateId && (share.0, userId) in members then Ok(templates[templateId])
    else Fail(Forbidden, "Access denied")
  }

  /** `get` grants exactly the templates a user may apply to a list. */
  lemma GetIffVisible(templates: map<TemplateId, Template>, templateShares: set<(FamilyId, TemplateId)>,
                      members: map<(FamilyId, UserId), Member>, userId: UserId, templateId: TemplateId)
    ensures Get(templates, templateShares, members, userId, templateId).Ok? <==>
      ListTemplates.Visible(templates, templateShares, members, userId, templateId)
  {
    if ListTemplates.Visible(templates, templateShares, members, userId, templateId) && templates[templateId].ownerId != userId {
      var share :| share in templateShares && share.1 == templateId && (share.0, userId) in members;
      assert (share.0, templateId) in templateShares;
    }
  }

  /** The owner passes `get` whatever the shares: `addItems` can return the template it has just changed. */
  lemma OwnerCanGet(templates: map<TemplateId, Template>, templateShares: set<(FamilyId, TemplateId)>,
                    members: map<(FamilyId, UserId), Member>, userId: UserId, templateId: TemplateId)
    requires RequireOwnedTemplate(templates, userId, templateId).Ok?
    ensures Get(templates, templateShares, members, userId, templateId) == RequireOwnedTemplate(templates, userId, templateId)
  {
  }

  // ---------------------------------------------------------------- addItems

  /** The sort indexes of a template's items. */
  ghost function TemplateIndexes(items: map<TemplateItemId, TemplateItem>, templateId: TemplateId): set<int> {
    set id | id in items && items[id].templateId == templateId :: items[id].sortIndex
  }

  /** `(lastItem?.sortIndex ?? -1) + 1`: one past the template's largest index, or 0 for a template without items. */
  ghost function StartOrder(items: map<TemplateItemId, TemplateItem>, templateId: TemplateId): (start: int)
    ensures forall id :: id in items && items[id].templateId == templateId ==> items[id].sortIndex < start
    ensures (exists id :: id in items && items[id].templateId == templateId) ==>
      exists id :: id in items && items[id].templateId == templateId && items[id].sortIndex == start - 1
    ensures (forall id :: id in items ==> items[id].templateId != templateId) ==> start == 0
  {
    var s := TemplateIndexes(items, templateId);
    assert forall id :: id in items && items[id].templateId == templateId ==> items[id].sortIndex in s;
    if exists v :: v in s then
      var v :| v in s;
      BaseItems.MaxOf(s, v) + 1
    else
      0
  }

  /** `findFirst({ where: { templateId }, orderBy: { sortIndex: "desc" } })`, read off the template's rows. */
  method FindStartOrder(items: map<TemplateItemId, TemplateItem>, templateId: TemplateId) returns (start: int)
    ensures start == StartOrder(items, templateId)
  {
    var rows := Query.FindMany(items, (id: TemplateItemId, it: TemplateItem) => it.templateId == templateId);
    var last: Option<int> := None;
    for i := 0 to |rows|
      invariant last.None? ==> i == 0
      invariant last.Some? ==> (exists j :: 0 <= j < i && rows[j].1.sortIndex == last.value)
      invariant last.Some? ==> forall j :: 0 <= j < i ==> rows[j].1.sortIndex <= last.value
    {
      var v := rows[i].1.sortIndex;
      if last.None? || v > last.value {
        last := Some(v);
      }
    }
    assert forall j :: 0 <= j < |rows| ==> rows[j].0 in items && items[rows[j].0] == rows[j].1 && rows[j].1.templateId == templateId;
    assert forall id :: id in items && items[id].templateId == templateId ==> (id, items[id]) in rows;
    start := if last.None? then 0 else last.value + 1;
  }

  /** The row `createMany` writes for one product: its title and default price, quantity 1. */
  function NewTemplateItem(products: map<ProductId, Product>, templateId: TemplateId, productId: ProductId, sortIndex: int): TemplateItem {
    if productId in products then
      TemplateItem(templateId, Some(productId), products[productId].title, 1, sortIndex, products[productId].price)
    else
      TemplateItem(templateId, Some(productId), "", 1, sortIndex, NoPriceSet)
  }

  /** Ids the database hands out for created template items: distinct, and new to the table. */
  ghost predicate FreshItemIds(items: map<TemplateItemId, TemplateItem>, ids: seq<TemplateItemId>) {
    Distinct(ids) && forall i :: 0 <= i < |ids| ==> ids[i] !in items
  }

  /** The table after `createMany`: one new item per product id, numbered from `start` in order. */
  function AddedItems(items: map<TemplateItemId, TemplateItem>, products: map<ProductId, Product>, templateId: TemplateId,
                      productIds: seq<ProductId>, newIds: seq<TemplateItemId>, start: int): map<TemplateItemId, TemplateItem>
    requires |newIds| == |productIds| && FreshItemIds(items, newIds)
  {
    if newIds == [] then items
    else
      var n := |newIds| - 1;
      FreshFront(items, newIds);
      AddedItems(items, products, templateId, productIds[..n], newIds[..n], start)
        [newIds[n] := NewTemplateItem(products, templateId, productIds[n], start + n)]
  }

  /** `createMany` adds exactly the new ids, keeps every existing item, and gives the i-th id the i-th product's item. */
  lemma AddedItemsFacts(items: map<TemplateItemId, TemplateItem>, products: map<ProductId, Product>,
                        templateId: TemplateId, productIds: seq<ProductId>, newIds: seq<TemplateItemId>, start: int)
    requires |newIds| == |productIds| && FreshItemIds(items, newIds)
    ensures var t := AddedItems(items, products, templateId, productIds, newIds, start);
      && t.Keys == items.Keys + Elements(newIds)
      && (forall id :: id in items ==> t[id] == items[id])
      && (forall i :: 0 <= i < |newIds| ==> t[newIds[i]] == NewTemplateItem(products, templateId, productIds[i], start + i))
  {
    AddedKeys(items, products, templateId, productIds, newIds, start);
    AddedKeeps(items, products, templateId, productIds, newIds, start);
    AddedNew(items, products, templateId, productIds, newIds, start);
  }

  lemma {:induction false} AddedKeys(items: map<TemplateItemId, TemplateItem>, products: map<ProductId, Product>,
                                     templateId: TemplateId, productIds: seq<ProductId>, newIds: seq<TemplateItemId>, start: int)
    requires |newIds| == |productIds| && FreshItemIds(items, newIds)
    ensures AddedItems(items, products, templateId, productIds, newIds, start).Keys == items.Keys + Elements(newIds)
  {
    if newIds != [] {
      var n := |newIds| - 1;
      var front, last := newIds[..n], newIds[n];
      FreshFront(items, newIds);
      AddedKeys(items, products, templateId, productIds[..n], front, start);
      assert Elements(newIds) == Elements(front) + {last} by {
        assert newIds == front + [last];
      }
    }
  }

  lemma {:induction false} AddedKeeps(items: map<TemplateItemId, TemplateItem>, products: map<ProductId, Product>,
                                      templateId: TemplateId, productIds: seq<ProductId>, newIds: seq<TemplateItemId>, start: int)
    requires |newIds| == |productIds| && FreshItemIds(items, newIds)
    ensures var t := AddedItems(items, products, templateId, productIds, newIds, start);
      forall id :: id in items ==> id in t && t[id] == items[id]
  {
    if newIds != [] {
      var n := |newIds| - 1;
      FreshFront(items, newIds);
      AddedKeeps(items, products, templateId, productIds[..n], newIds[..n], start);
    }
  }

  lemma {:induction false} AddedNew(items: map<TemplateItemId, TemplateItem>, products: map<ProductId, Product>,
                                    templateId: TemplateId, productIds: seq<ProductId>, newIds: seq<TemplateItemId>, start: int)
    requires |newIds| == |productIds| && FreshItemIds(items, newIds)
    ensures var t := AddedItems(items, products, templateId, productIds, newIds, start);
      forall i :: 0 <= i < |newIds| ==> newIds[i] in t && t[newIds[i]] == NewTemplateItem(products, templateId, productIds[i], start + i)
  {
    if newIds != [] {
      var n := |newIds| - 1;
      var front, frontProducts := newIds[..n], productIds[..n];
      FreshFront(items, newIds);
      AddedNew(items, products, templateId, frontProducts, front, start);
      var t := AddedItems(items, products, templateId, frontProducts, front, start);
      forall i | 0 <= i < n ensures newIds[i] in t && t[newIds[i]] == NewTemplateItem(products, templateId, productIds[i], start + i) {
        assert front[i] == newIds[i] && frontProducts[i] == productIds[i];
      }
    }
  }

  /** Fresh ids stay fresh without their last one, which differs from all the others. */
  lemma FreshFront(items: map<TemplateItemId, TemplateItem>, ids: seq<TemplateItemId>)
    requires FreshItemIds(items, ids) && ids != []
    ensures FreshItemIds(items, ids[..|ids| - 1]) && ids[|ids| - 1] !in items
    ensures forall i :: 0 <= i < |ids| - 1 ==> ids[i] != ids[|ids| - 1]
  {
    DistinctFront(ids);
  }

  /**
   * The added items follow every item the template already had, take
   * consecutive indexes in the order of `productIds` (from 0 for an empty
   * template), and each has quantity 1 and its product.
   */
  lemma AddedItemsAtEnd(items: map<TemplateItemId, TemplateItem>, products: map<ProductId, Product>, templateId: TemplateId,
                        productIds: seq<ProductId>, newIds: seq<TemplateItemId>)
    requires |newIds| == |productIds| && FreshItemIds(items, newIds)
    ensures var start := StartOrder(items, templateId);
      var t := AddedItems(items, products, templateId, productIds, newIds, start);
      forall i :: 0 <= i < |newIds| ==>
        newIds[i] in t && t[newIds[i]].templateId == templateId && t[newIds[i]].productId == Some(productIds[i]) && t[newIds[i]].quantity == 1
        && t[newIds[i]].sortIndex == start + i
        && (forall id :: id in items && items[id].templateId == templateId ==> items[id].sortIndex < t[newIds[i]].sortIndex)
    ensures (forall id :: id in items ==> items[id].templateId != templateId) ==> StartOrder(items, templateId) == 0
  {
    AddedItemsFacts(items, products, templateId, productIds, newIds, StartOrder(items, templateId));
  }

  /** `addItems`: owner only, every product the caller's, then the new items at the end of the template. */
  method AddItems(db: Db, userId: UserId, templateId: TemplateId, productIds: seq<ProductId>, newIds: seq<TemplateItemId>)
    returns (r: Result<Template>)
    requires |newIds| == |productIds| && FreshItemIds(db.templateItems, newIds)
    modifies db`templateItems
    ensures var owned := old(RequireOwnedTemplate(db.templates, userId, templateId));
      var products := old(EnsureProductsOwned(db.products, userId, productIds));
      (owned.Err? ==> r == Err(owned.failure))
      && (owned.Ok? && products.Err? ==> r == Err(products.failure))
      && (r.Ok? <==> owned.Ok? && products.Ok?)
      && (r.Ok? ==> r.value == db.templates[templateId])
    ensures r.Err? ==> db.templateItems == old(db.templateItems)
    ensures r.Ok? ==> (db.templateItems ==
      AddedItems(old(db.templateItems), db.products, templateId, productIds, newIds, StartOrder(old(db.templateItems), templateId)))
  {
    var owned := RequireOwnedTemplate(db.templates, userId, templateId);
    if owned.Err? {
      return Err(owned.failure);
    }
    var check := EnsureProductsOwned(db.products, userId, productIds);
    if check.Err? {
      return Err(check.failure);
    }
    var start := FindStartOrder(db.templateItems, templateId);
    db.templateItems := AddedItems(db.templateItems, db.products, templateId, productIds, newIds, start);
    OwnerCanGet(db.templates, db.templateShares, db.members, userId, templateId);
    r := Get(db.templates, db.templateShares, db.members, userId, templateId);
  }

  // ---------------------------------------------------------------- remove / removeMany

  function DropTemplateShares(shares: set<(FamilyId, TemplateId)>, ids: set<TemplateId>): (r: set<(FamilyId, TemplateId)>)
    ensures forall p :: p in r <==> p in shares && p.1 !in ids
  {
    set p | p in shares && p.1 !in ids
  }

  function DropTemplateItems(items: map<TemplateItemId, TemplateItem>, ids: set<TemplateId>): (r: map<TemplateItemId, TemplateItem>)
    ensures forall id :: id in r <==> id in items && items[id].templateId !in ids
    ensures forall id :: id in r ==> r[id] == items[id]
  {
    map id | id in items && items[id].templateId !in ids :: items[id]
  }

  /** The shares, items and templates deletes of one transaction. */
  method CascadeTemplates(db: Db, ids: set<TemplateId>)
    modifies db`templateShares, db`templateItems, db`templates
    ensures db.templateShares == DropTemplateShares(old(db.templateShares), ids)
    ensures db.templateItems == DropTemplateItems(old(db.templateItems), ids)
    ensures db.templates == old(db.templates) - ids
  {
    db.templateShares := DropTemplateShares(db.templateShares, ids);
    db.templateItems := DropTemplateItems(db.templateItems, ids);
    db.templates := db.templates - ids;
  }

  /** After the cascade no share and no item refers to a deleted template. */
  lemma CascadeLeavesNoDangling(shares: set<(FamilyId, TemplateId)>, items: map<TemplateItemId, TemplateItem>, ids: set<TemplateId>)
    ensures forall p :: p in DropTemplateShares(shares, ids) ==> p.1 !in ids
    ensures forall i :: i in DropTemplateItems(items, ids) ==> DropTemplateItems(items, ids)[i].templateId !in ids
  {
  }

  /** `remove`: owner only, then the template with its shares and items. */
  method Remove(db: Db, userId: UserId, templateId: TemplateId) returns (r: Outcome)
    modifies db`templateShares, db`templateItems, db`templates
    ensures var owned := RequireOwnedTemplate(old(db.templates), userId, templateId);
      (r.Ok? <==> owned.Ok?) && (owned.Err? ==> r == Err(owned.failure))
    ensures r.Err? ==> unchanged(db`templateShares, db`templateItems, db`templates)
    ensures r.Ok? ==> db.templateShares == DropTemplateShares(old(db.templateShares), {templateId})
    ensures r.Ok? ==> db.templateItems == DropTemplateItems(old(db.templateItems), {templateId})
    ensures r.Ok? ==> db.templates == old(db.templates) - {templateId}
  {
    var owned := RequireOwnedTemplate(db.templates, userId, templateId);
    if owned.Err? {
      return Err(owned.failure);
    }
    CascadeTemplates(db, {templateId});
    r := Done;
  }

  /** `removeMany`: all or nothing; Forbidden unless every id is a distinct template the caller owns. */
  method RemoveMany(db: Db, userId: UserId, templateIds: seq<TemplateId>) returns (r: Outcome)
    modifies db`templateShares, db`templateItems, db`templates
    ensures r.Ok? <==> Distinct(templateIds) && Sharing.AllOwned(old(db.templates), TemplateOwner, userId, templateIds)
    ensures r.Err? ==> r.FailedWith(Forbidden, "Some templates not found or not owned by you")
    ensures r.Err? ==> unchanged(db`templateShares, db`templateItems, db`templates)
    ensures r.Ok? ==> db.templateShares == DropTemplateShares(old(db.templateShares), Elements(templateIds))
    ensures r.Ok? ==> db.templateItems == DropTemplateItems(old(db.templateItems), Elements(templateIds))
    ensures r.Ok? ==> db.templates == old(db.templates) - Elements(templateIds)
  {
    var found := Sharing.OwnedAmong(db.templates, TemplateOwner, userId, templateIds);
    Sharing.BatchGate(db.templates, TemplateOwner, userId, templateIds);
    if |found| != |templateIds| {
      return Fail(Forbidden, "Some templates not found or not owned by you");
    }
    CascadeTemplates(db, Elements(templateIds));
    r := Done;
  }

  // ---------------------------------------------------------------- share / unshare / setSharing

  /** The distinct product ids the items of the given templates refer to. */
  function ReferencedProducts(items: map<TemplateItemId, TemplateItem>, templateIds: set<TemplateId>): (ps: set<ProductId>)
    ensures forall p :: p in ps <==> exists id :: id in items && items[id].templateId in templateIds && items[id].productId == Some(p)
  {
    set id | id in items && items[id].templateId in templateIds && items[id].productId.Some? :: items[id].productId.value
  }

  /**
   * `autoShareTemplateDependencies`, for one or several templates: an upsert
   * of a product share with the family for each referenced product the caller
   * owns. Product shares are only ever added.
   */
  function DependencyShares(productShares: set<(FamilyId, ProductId)>, products: map<ProductId, Product>,
                            items: map<TemplateItemId, TemplateItem>, userId: UserId, familyId: FamilyId,
                            templateIds: set<TemplateId>): (r: set<(FamilyId, ProductId)>)
    ensures productShares <= r
    ensures forall p :: p in r && p !in productShares ==>
      p.0 == familyId && p.1 in products && products[p.1].ownerId == userId && p.1 in ReferencedProducts(items, templateIds)
    ensures forall pid :: pid in ReferencedProducts(items, templateIds) && pid in products && products[pid].ownerId == userId ==>
      (familyId, pid) in r
  {
    productShares
      + set pid | pid in ReferencedProducts(items, templateIds) && pid in products && products[pid].ownerId == userId :: (familyId, pid)
  }

  /** `share` on the template share table: owner only, family admin only, then an upsert. */
  function SharedTemplate(templates: map<TemplateId, Template>, templateShares: set<(FamilyId, TemplateId)>,
                          members: map<(FamilyId, UserId), Member>, userId: UserId, templateId: TemplateId, familyId: FamilyId)
    : (r: Result<set<(FamilyId, TemplateId)>>)
    ensures var owned := RequireOwnedTemplate(templates, userId, templateId);
      var admin := FamilyAccess.RequireFamilyAdmin(members, userId, familyId);
      (owned.Err? ==> r == Err(owned.failure))
      && (owned.Ok? && admin.Err? ==> r == Err(admin.failure))
      && (r.Ok? <==> owned.Ok? && admin.Ok?)
    ensures r.Ok? ==> (familyId, templateId) in r.value && forall p :: p != (familyId, templateId) ==> (p in r.value <==> p in templateShares)
  {
    var _ :- RequireOwnedTemplate(templates, userId, templateId);
    var _ :- FamilyAccess.RequireFamilyAdmin(members, userId, familyId);
    Ok(templateShares + {(familyId, templateId)})
  }

  /** `share`: the upsert, then the products of the template's items that the caller owns. */
  method Share(db: Db, userId: UserId, templateId: TemplateId, familyId: FamilyId) returns (r: Outcome)
    modifies db`templateShares, db`productShares
    ensures var shared := SharedTemplate(db.templates, old(db.templateShares), db.members, userId, templateId, familyId);
      (r.Ok? <==> shared.Ok?) && (shared.Err? ==> r == Err(shared.failure))
      && (shared.Ok? ==> db.templateShares == shared.value)
    ensures r.Err? ==> unchanged(db`templateShares, db`productShares)
    ensures r.Ok? ==> db.productShares == DependencyShares(old(db.productShares), db.products, db.templateItems, userId, familyId, {templateId})
  {
    var shared := SharedTemplate(db.templates, db.templateShares, db.members, userId, templateId, familyId);
    if shared.Err? {
      return Err(shared.failure);
    }
    db.templateShares := shared.value;
    db.productShares := DependencyShares(db.productShares, db.products, db.templateItems, userId, familyId, {templateId});
    r := Done;
  }

  /** Sharing a template twice leaves both share tables as sharing it once did. */
  lemma ShareIdempotent(templates: map<TemplateId, Template>, templateShares: set<(FamilyId, TemplateId)>,
                        members: map<(FamilyId, UserId), Member>, productShares: set<(FamilyId, ProductId)>,
                        products: map<ProductId, Product>, items: map<TemplateItemId, TemplateItem>,
                        userId: UserId, templateId: TemplateId, familyId: FamilyId)
    requires SharedTemplate(templates, templateShares, members, userId, templateId, familyId).Ok?
    ensures var once := SharedTemplate(templates, templateShares, members, userId, templateId, familyId).value;
      SharedTemplate(templates, once, members, userId, templateId, familyId) == Ok(once)
    ensures var deps := DependencyShares(productShares, products, items, userId, familyId, {templateId});
      DependencyShares(deps, products, items, userId, familyId, {templateId}) == deps
  {
  }

  /** `unshare`: owner only, then `delete` of the share, which fails when the template is not shared with that family. */
  function UnsharedTemplate(templates: map<TemplateId, Template>, templateShares: set<(FamilyId, TemplateId)>,
                            userId: UserId, templateId: TemplateId, familyId: FamilyId)
    : (r: Result<set<(FamilyId, TemplateId)>>)
    ensures var owned := RequireOwnedTemplate(templates, userId, templateId);
      (owned.Err? ==> r == Err(owned.failure))
      && (owned.Ok? && (familyId, templateId) !in templateShares ==> r == Err(RecordNotFound))
      && (r.Ok? <==> owned.Ok? && (familyId, templateId) in templateShares)
    ensures r.Ok? ==> (familyId, templateId) !in r.value && forall p :: p != (familyId, templateId) ==> (p in r.value <==> p in templateShares)
  {
    var _ :- RequireOwnedTemplate(templates, userId, templateId);
    if (familyId, templateId) !in templateShares then Err(RecordNotFound) else Ok(templateShares - {(familyId, templateId)})
  }

  method Unshare(db: Db, userId: UserId, templateId: TemplateId, familyId: FamilyId) returns (r: Outcome)
    modifies db`templateShares
    ensures var unshared := UnsharedTemplate(db.templates, old(db.templateShares), userId, templateId, familyId);
      (r.Ok? <==> unshared.Ok?) && (unshared.Err? ==> r == Err(unshared.failure) && db.templateShares == old(db.templateShares))
      && (unshared.Ok? ==> db.templateShares == unshared.value)
  {
    var unshared := UnsharedTemplate(db.templates, db.templateShares, userId, templateId, familyId);
    if unshared.Err? {
      return Err(unshared.failure);
    }
    db.templateShares := unshared.value;
    r := Done;
  }

  /**
   * `setSharing`: family admin only; the caller's template shares with the
   * family become exactly the requested templates they own, and the caller's
   * products those templates refer to are shared with the family as well.
   */
  method SetSharing(db: Db, userId: UserId, familyId: FamilyId, templateIds: seq<TemplateId>) returns (r: Outcome)
    modifies db`templateShares, db`productShares
    ensures var admin := old(FamilyAccess.RequireFamilyAdmin(db.members, userId, familyId));
      (r.Ok? <==> admin.Ok?) && (admin.Err? ==> r == Err(admin.failure))
    ensures r.Err? ==> unchanged(db`templateShares, db`productShares)
    ensures r.Ok? ==> db.templateShares == Sharing.ReplacedShares(old(db.templateShares), db.templates, TemplateOwner, userId, familyId, templateIds)
    ensures r.Ok? ==> db.productShares == DependencyShares(old(db.productShares), db.products, db.templateItems, userId, familyId,
      Sharing.OwnedAmong(db.templates, TemplateOwner, userId, templateIds))
  {
    var admin := FamilyAccess.RequireFamilyAdmin(db.members, userId, familyId);
    if admin.Err? {
      return Err(admin.failure);
    }
    var allowed := Sharing.OwnedAmong(db.templates, TemplateOwner, userId, templateIds);
    db.templateShares := Sharing.ReplacedShares(db.templateShares, db.templates, TemplateOwner, userId, familyId, templateIds);
    db.productShares := DependencyShares(db.productShares, db.products, db.templateItems, userId, familyId, allowed);
    r := Done;
  }

  // ---------------------------------------------------------------- reorder

  function WithSortIndex(t: Template, index: int): Template {
    t.(sortIndex := index)
  }

  /** `reorder`: each caller-owned template gets its 0-based position; any other id aborts the transaction. */
  method Reorder(db: Db, userId: UserId, orderedIds: seq<TemplateId>) returns (r: Outcome)
    modifies db`templates
    ensures var reordered := Sharing.OwnedReorder(old(db.templates), TemplateOwner, userId, orderedIds, WithSortIndex);
      (r.Ok? <==> reordered.Ok?) && (reordered.Err? ==> r == Err(reordered.failure) && db.templates == old(db.templates))
      && (reordered.Ok? ==> db.templates == reordered.value)
  {
    var reordered := Sharing.OwnedReorder(db.templates, TemplateOwner, userId, orderedIds, WithSortIndex);
    if reordered.Err? {
      return Err(reordered.failure);
    }
    db.templates := reordered.value;
    r := Done;
  }
}
