/**
 * Applying templates to a shopping list (`ShoppingListTemplateService`):
 * the items of the visible templates are merged into the list, matching
 * existing items by product or by normalised title through two
 * deduplication maps. A match gains one unit of quantity; a miss becomes a
 * new unchecked item at the end of the unchecked group.
 */
module ListTemplates {
  import opened Common
  import opened Errors
  import opened Store
  import NormalizeKey
  import Query
  import ListsAccess
  import BaseItems

  /** The merge's working state: the item table, both maps, the next sort index and the two counters. */
  datatype MergeState = MergeState(
    table: map<ItemId, Item>, byProduct: map<ProductId, ItemId>, byNorm: map<string, ItemId>,
    nextSortIndex: int, created: nat, updated: nat)

  /** A template item as the merge sees it, with `normalizeKey(title)` computed once. */
  datatype Incoming = Incoming(title: string, productId: Option<ProductId>, norm: string)

  /** The incoming form of a template item. */
  function ToIncoming(it: TemplateItem): Incoming {
    Incoming(it.title, it.productId, NormalizeKey.Normalize(it.title))
  }

  /** Every map entry points at an item of the list with that product, or with that key. */
  ghost predicate Sound(st: MergeState, listId: ListId) {
    (forall p :: p in st.byProduct ==>
      st.byProduct[p] in st.table && st.table[st.byProduct[p]].listId == listId
      && st.table[st.byProduct[p]].detail.ShoppingDetail? && st.table[st.byProduct[p]].detail.productId == Some(p))
    && (forall k :: k in st.byNorm ==>
      st.byNorm[k] in st.table && st.table[st.byNorm[k]].listId == listId && st.table[st.byNorm[k]].normalizedKey == k)
  }

  /** Ids the database hands out for created rows: distinct, and new to the table. */
  ghost predicate Fresh(table: map<ItemId, Item>, ids: seq<ItemId>) {
    Distinct(ids) && forall i :: 0 <= i < |ids| ==> ids[i] !in table
  }

  lemma FreshPrefix(table: map<ItemId, Item>, ids: seq<ItemId>, k: nat)
    requires Fresh(table, ids) && k <= |ids|
    ensures Fresh(table, ids[..k])
  {
    assert forall i :: 0 <= i < k ==> ids[..k][i] == ids[i];
  }

  /** The item an incoming template item hits: by its product when it names one, otherwise by its key. */
  function Target(st: MergeState, it: Incoming): Option<ItemId> {
    if it.productId.Some? then
      (if it.productId.value in st.byProduct then Some(st.byProduct[it.productId.value]) else None)
    else if it.norm in st.byNorm then Some(st.byNorm[it.norm]) else None
  }

  /** A hit: `quantity: { increment: 1 }`. */
  function Bumped(item: Item): Item {
    if item.detail.ShoppingDetail? then item.(detail := item.detail.(quantity := item.detail.quantity + 1)) else item
  }

  /** A miss: the row created for a template item. */
  function CreatedItem(listId: ListId, it: Incoming, sortIndex: int, now: int): Item {
    Item(listId, it.title, it.norm, false, None, None, sortIndex, now,
         ShoppingDetail(it.productId, 1, NoPriceSet))
  }

  /** One turn of the merge loop. */
  ghost function Step(st: MergeState, listId: ListId, it: Incoming, newId: ItemId, now: int): (r: MergeState)
    requires Sound(st, listId) && newId !in st.table
    ensures Sound(r, listId)
    ensures r.table.Keys == st.table.Keys || r.table.Keys == st.table.Keys + {newId}
  {
    var target := Target(st, it);
    if target.Some? then
      var t := target.value;
      BumpedSound(st, listId, t);
      st.(table := st.table[t := Bumped(st.table[t])], updated := st.updated + 1)
    else
      var item := CreatedItem(listId, it, st.nextSortIndex, now);
      var byProduct := if it.productId.Some? then st.byProduct[it.productId.value := newId] else st.byProduct;
      CreatedSound(st, listId, it, newId, item, byProduct);
      MergeState(st.table[newId := item], byProduct, st.byNorm[item.normalizedKey := newId],
                 st.nextSortIndex + 1, st.created + 1, st.updated)
  }

  /** A hit keeps the maps sound: the bumped item keeps its list, its key and its product. */
  lemma BumpedSound(st: MergeState, listId: ListId, t: ItemId)
    requires Sound(st, listId) && t in st.table
    ensures Sound(st.(table := st.table[t := Bumped(st.table[t])], updated := st.updated + 1), listId)
  {
  }

  /** A miss keeps the maps sound: the created item is of the list, and indexed by its product and its key. */
  lemma CreatedSound(st: MergeState, listId: ListId, it: Incoming, newId: ItemId, item: Item, byProduct: map<ProductId, ItemId>)
    requires Sound(st, listId) && newId !in st.table
    requires item.listId == listId && item.normalizedKey == it.norm && item.detail == ShoppingDetail(it.productId, 1, NoPriceSet)
    requires byProduct == if it.productId.Some? then st.byProduct[it.productId.value := newId] else st.byProduct
    ensures Sound(MergeState(st.table[newId := item], byProduct, st.byNorm[item.normalizedKey := newId],
                             st.nextSortIndex + 1, st.created + 1, st.updated), listId)
  {
  }

  /** The whole loop over the incoming items, the i-th miss taking the i-th fresh id. */
  ghost function MergeAll(st: MergeState, listId: ListId, incoming: seq<Incoming>, newIds: seq<ItemId>, now: int): (r: MergeState)
    requires |newIds| == |incoming| && Sound(st, listId) && Fresh(st.table, newIds)
    ensures Sound(r, listId)
    ensures st.table.Keys <= r.table.Keys <= st.table.Keys + Elements(newIds)
    decreases |incoming|
  {
    if incoming == [] then st
    else
      var next := Step(st, listId, incoming[0], newIds[0], now);
      assert Fresh(next.table, newIds[1..]) by {
        forall i | 0 <= i < |newIds[1..]| ensures newIds[1..][i] !in next.table {
          assert newIds[1..][i] == newIds[i + 1] && newIds[i + 1] != newIds[0];
        }
      }
      assert Elements(newIds) == {newIds[0]} + Elements(newIds[1..]) by { assert newIds == [newIds[0]] + newIds[1..]; }
      MergeAll(next, listId, incoming[1..], newIds[1..], now)
  }

  /** A hit names an item of the list that has the incoming item's product, or its key when it has none. */
  lemma TargetMatches(st: MergeState, listId: ListId, it: Incoming)
    requires Sound(st, listId) && Target(st, it).Some?
    ensures var t := Target(st, it).value;
      t in st.table && st.table[t].listId == listId
      && (it.productId.Some? ==> st.table[t].detail.ShoppingDetail? && st.table[t].detail.productId == it.productId)
      && (it.productId.None? ==> st.table[t].normalizedKey == it.norm)
  {
  }

  /** A hit adds exactly one to the quantity of the matched item and counts as updated; nothing else moves. */
  lemma HitAddsOne(st: MergeState, listId: ListId, it: Incoming, newId: ItemId, now: int)
    requires Sound(st, listId) && newId !in st.table && Target(st, it).Some?
    ensures var t := Target(st, it).value; var r := Step(st, listId, it, newId, now);
      t in st.table
      && r.table == st.table[t := Bumped(st.table[t])]
      && (st.table[t].detail.ShoppingDetail? ==> r.table[t].detail.quantity == st.table[t].detail.quantity + 1)
      && r.byProduct == st.byProduct && r.byNorm == st.byNorm && r.nextSortIndex == st.nextSortIndex
      && r.updated == st.updated + 1 && r.created == st.created
  {
  }

  /**
   * A miss creates an unchecked item with quantity 1 at the next sort index,
   * and enters it in both maps, so the same template item hits it next time.
   */
  lemma MissCreatesAndIndexes(st: MergeState, listId: ListId, it: Incoming, newId: ItemId, now: int, later: ItemId)
    requires Sound(st, listId) && newId !in st.table && Target(st, it).None?
    ensures var r := Step(st, listId, it, newId, now);
      r.table == st.table[newId := CreatedItem(listId, it, st.nextSortIndex, now)]
      && r.nextSortIndex == st.nextSortIndex + 1 && r.created == st.created + 1 && r.updated == st.updated
      && Target(r, it) == Some(newId)
  {
  }

  /** One unfolding of `MergeAll`. */
  lemma MergeAllUnfold(st: MergeState, listId: ListId, incoming: seq<Incoming>, newIds: seq<ItemId>, now: int)
    requires |newIds| == |incoming| > 0 && Sound(st, listId) && Fresh(st.table, newIds)
    ensures Fresh(Step(st, listId, incoming[0], newIds[0], now).table, newIds[1..])
    ensures MergeAll(st, listId, incoming, newIds, now)
      == MergeAll(Step(st, listId, incoming[0], newIds[0], now), listId, incoming[1..], newIds[1..], now)
  {
    FreshAfterStep(st, listId, incoming[0], newIds, now);
  }

  /** After a step the remaining ids are still fresh. */
  lemma FreshAfterStep(st: MergeState, listId: ListId, it: Incoming, newIds: seq<ItemId>, now: int)
    requires |newIds| > 0 && Sound(st, listId) && Fresh(st.table, newIds)
    ensures Fresh(Step(st, listId, it, newIds[0], now).table, newIds[1..])
  {
    var next := Step(st, listId, it, newIds[0], now);
    forall i | 0 <= i < |newIds[1..]| ensures newIds[1..][i] !in next.table {
      assert newIds[1..][i] == newIds[i + 1] && newIds[i + 1] != newIds[0];
    }
  }

  /** Each incoming item is counted once, as created or as updated, and every creation uses up one sort index. */
  lemma {:induction false} MergeCounts(st: MergeState, listId: ListId, incoming: seq<Incoming>, newIds: seq<ItemId>, now: int)
    requires |newIds| == |incoming| && Sound(st, listId) && Fresh(st.table, newIds)
    ensures var r := MergeAll(st, listId, incoming, newIds, now);
      r.created + r.updated == st.created + st.updated + |incoming|
      && r.nextSortIndex == st.nextSortIndex + (r.created - st.created)
    decreases |incoming|
  {
    if incoming != [] {
      FreshAfterStep(st, listId, incoming[0], newIds, now);
      MergeCounts(Step(st, listId, incoming[0], newIds[0], now), listId, incoming[1..], newIds[1..], now);
    }
  }

  /** An existing item either stays as it was or gains quantity; nothing but the quantity changes. */
  ghost predicate QuantityOnlyGrows(a: Item, b: Item) {
    a == b
    || (a.detail.ShoppingDetail? && b.detail.ShoppingDetail?
        && b == a.(detail := a.detail.(quantity := b.detail.quantity)) && b.detail.quantity > a.detail.quantity)
  }

  lemma QuantityOnlyGrowsTransitive(a: Item, b: Item, c: Item)
    requires QuantityOnlyGrows(a, b) && QuantityOnlyGrows(b, c)
    ensures QuantityOnlyGrows(a, c)
  {
  }

  /** One step changes no item outside the list, and an item of the list only by raising its quantity. */
  lemma StepTouchesOnlyQuantities(st: MergeState, listId: ListId, it: Incoming, newId: ItemId, now: int, id: ItemId)
    requires Sound(st, listId) && newId !in st.table && id in st.table
    ensures var next := Step(st, listId, it, newId, now);
      id in next.table
      && (st.table[id].listId != listId ==> next.table[id] == st.table[id])
      && QuantityOnlyGrows(st.table[id], next.table[id])
  {
  }

  /**
   * The merge changes no item outside the list, and changes the existing
   * items of the list (checked or not) only by raising their quantity.
   */
  lemma {:induction false} MergeTouchesOnlyQuantities(st: MergeState, listId: ListId, incoming: seq<Incoming>, newIds: seq<ItemId>, now: int, id: ItemId)
    requires |newIds| == |incoming| && Sound(st, listId) && Fresh(st.table, newIds) && id in st.table
    ensures var r := MergeAll(st, listId, incoming, newIds, now);
      (st.table[id].listId != listId ==> r.table[id] == st.table[id]) && QuantityOnlyGrows(st.table[id], r.table[id])
    decreases |incoming|
  {
    if incoming != [] {
      var next := Step(st, listId, incoming[0], newIds[0], now);
      FreshAfterStep(st, listId, incoming[0], newIds, now);
      StepTouchesOnlyQuantities(st, listId, incoming[0], newIds[0], now, id);
      MergeTouchesOnlyQuantities(next, listId, incoming[1..], newIds[1..], now, id);
      var r := MergeAll(next, listId, incoming[1..], newIds[1..], now);
      assert r == MergeAll(st, listId, incoming, newIds, now);
      QuantityOnlyGrowsTransitive(st.table[id], next.table[id], r.table[id]);
    }
  }

  /** The items a merge adds to the table. */
  ghost function Added(before: map<ItemId, Item>, after: map<ItemId, Item>): set<ItemId> {
    after.Keys - before.Keys
  }

  /**
   * What every created item looks like at the end, its sort index lying in
   * `[lo, hi)`. It was created with quantity 1, and later duplicates of the
   * batch may have raised it.
   */
  ghost predicate CreatedShape(item: Item, listId: ListId, lo: int, hi: int) {
    item.listId == listId && !item.isChecked && item.checkedAt.None?
    && item.detail.ShoppingDetail? && item.detail.quantity >= 1
    && lo <= item.sortIndex < hi
  }

  /** One step adds no item (a hit) or the one with the fresh id (a miss). */
  lemma StepAdds(st: MergeState, listId: ListId, it: Incoming, newId: ItemId, now: int)
    requires Sound(st, listId) && newId !in st.table
    ensures var next := Step(st, listId, it, newId, now);
      (Target(st, it).Some? ==> next.table.Keys == st.table.Keys && next.created == st.created && next.nextSortIndex == st.nextSortIndex)
      && (Target(st, it).None? ==>
            next.table.Keys == st.table.Keys + {newId} && next.created == st.created + 1
            && next.nextSortIndex == st.nextSortIndex + 1
            && CreatedShape(next.table[newId], listId, st.nextSortIndex, st.nextSortIndex + 1))
  {
  }

  /** How `Added` splits over one more step. */
  lemma AddedAfterStep(a: map<ItemId, Item>, b: map<ItemId, Item>, c: map<ItemId, Item>, n: ItemId)
    requires b.Keys == a.Keys || (b.Keys == a.Keys + {n} && n !in a)
    requires b.Keys <= c.Keys
    ensures b.Keys == a.Keys ==> Added(a, c) == Added(b, c)
    ensures b.Keys != a.Keys ==>
      (Added(a, c) == Added(b, c) + {n} && n !in Added(b, c) && |Added(a, c)| == |Added(b, c)| + 1)
  {
    if b.Keys != a.Keys {
      DifferenceStep(a.Keys, b.Keys, c.Keys, n);
    }
  }

  lemma DifferenceStep<T>(a: set<T>, b: set<T>, c: set<T>, n: T)
    requires b == a + {n} && n !in a && b <= c
    ensures c - a == (c - b) + {n} && n !in c - b && |c - a| == |c - b| + 1
  {
    assert c - a == (c - b) + {n};
  }

  /** The created items are exactly as many as the creations counted. */
  lemma {:induction false} MergeAddedCount(st: MergeState, listId: ListId, incoming: seq<Incoming>, newIds: seq<ItemId>, now: int)
    requires |newIds| == |incoming| && Sound(st, listId) && Fresh(st.table, newIds)
    ensures var r := MergeAll(st, listId, incoming, newIds, now);
      |Added(st.table, r.table)| == r.created - st.created
    decreases |incoming|
  {
    var r := MergeAll(st, listId, incoming, newIds, now);
    if incoming == [] {
      assert Added(st.table, r.table) == {};
    } else {
      var next := Step(st, listId, incoming[0], newIds[0], now);
      FreshAfterStep(st, listId, incoming[0], newIds, now);
      StepAdds(st, listId, incoming[0], newIds[0], now);
      assert r == MergeAll(next, listId, incoming[1..], newIds[1..], now);
      MergeAddedCount(next, listId, incoming[1..], newIds[1..], now);
      AddedAfterStep(st.table, next.table, r.table, newIds[0]);
    }
  }

  /** The given items are shaped as created ones, with distinct sort indexes. */
  ghost predicate AllCreated(added: set<ItemId>, t: map<ItemId, Item>, listId: ListId, lo: int, hi: int)
    requires added <= t.Keys
  {
    (forall id :: id in added ==> CreatedShape(t[id], listId, lo, hi))
    && (forall a, b :: a in added && b in added && a != b ==> t[a].sortIndex != t[b].sortIndex)
  }

  /**
   * The created items are unchecked items of the list, with distinct sort
   * indexes between the first next index and the last.
   * Together with `MergeAddedCount` and `MergeCounts` this says they take
   * consecutive sort indexes.
   */
  lemma {:induction false} MergeAddedShape(st: MergeState, listId: ListId, incoming: seq<Incoming>, newIds: seq<ItemId>, now: int)
    requires |newIds| == |incoming| && Sound(st, listId) && Fresh(st.table, newIds)
    ensures var r := MergeAll(st, listId, incoming, newIds, now);
      AllCreated(Added(st.table, r.table), r.table, listId, st.nextSortIndex, r.nextSortIndex)
    decreases |incoming|
  {
    var r := MergeAll(st, listId, incoming, newIds, now);
    if incoming != [] {
      var next := Step(st, listId, incoming[0], newIds[0], now);
      FreshAfterStep(st, listId, incoming[0], newIds, now);
      StepAdds(st, listId, incoming[0], newIds[0], now);
      assert r == MergeAll(next, listId, incoming[1..], newIds[1..], now);
      MergeAddedShape(next, listId, incoming[1..], newIds[1..], now);
      AddedAfterStep(st.table, next.table, r.table, newIds[0]);
      if Target(st, incoming[0]).None? {
        var n := newIds[0];
        MergeCounts(next, listId, incoming[1..], newIds[1..], now);
        MergeAddedCount(next, listId, incoming[1..], newIds[1..], now);
        MergeTouchesOnlyQuantities(next, listId, incoming[1..], newIds[1..], now, n);
        assert CreatedShape(r.table[n], listId, st.nextSortIndex, next.nextSortIndex);
        AddedShapeWithOneMore(Added(next.table, r.table), r.table, listId, st.nextSortIndex, next.nextSortIndex, r.nextSortIndex, n);
      }
    }
  }

  /** The induction step of `MergeAddedShape`: one item at `lo` in front of items in `[lo + 1, hi)`. */
  lemma AddedShapeWithOneMore(later: set<ItemId>, t: map<ItemId, Item>, listId: ListId, lo: int, mid: int, hi: int, n: ItemId)
    requires mid == lo + 1 && mid <= hi && n !in later && n in t && later <= t.Keys
    requires CreatedShape(t[n], listId, lo, mid)
    requires AllCreated(later, t, listId, mid, hi)
    ensures AllCreated(later + {n}, t, listId, lo, hi)
  {
  }

  // ---- the imperative parts --------------------------------------------------------

  /** The product an item is linked to. */
  function ProductOf(item: Item): Option<ProductId> {
    if item.detail.ShoppingDetail? then item.detail.productId else None
  }

  /** The product map `buildDeduplicationMaps` fills, later rows overwriting earlier ones. */
  function ProductIndex(existing: seq<BaseItems.Row>): (m: map<ProductId, ItemId>)
    ensures forall p :: p in m <==> exists i :: 0 <= i < |existing| && ProductOf(existing[i].1) == Some(p)
    ensures forall p :: p in m ==> exists i :: 0 <= i < |existing| && existing[i].0 == m[p] && ProductOf(existing[i].1) == Some(p)
  {
    if existing == [] then map[]
    else
      var front := existing[..|existing| - 1];
      var e := existing[|existing| - 1];
      assert forall i :: 0 <= i < |front| ==> existing[i] == front[i];
      var m := ProductIndex(front);
      var p := ProductOf(e.1);
      assert ProductOf(existing[|existing| - 1].1) == p;
      if p.Some? then m[p.value := e.0] else m
  }

  /** The key map `buildDeduplicationMaps` fills, later rows overwriting earlier ones. */
  function KeyIndex(existing: seq<BaseItems.Row>): (m: map<string, ItemId>)
    ensures forall k :: k in m <==> exists i :: 0 <= i < |existing| && existing[i].1.normalizedKey == k
    ensures forall k :: k in m ==> exists i :: 0 <= i < |existing| && existing[i].0 == m[k] && existing[i].1.normalizedKey == k
  {
    if existing == [] then map[]
    else
      var front := existing[..|existing| - 1];
      var e := existing[|existing| - 1];
      assert forall i :: 0 <= i < |front| ==> existing[i] == front[i];
      KeyIndex(front)[e.1.normalizedKey := e.0]
  }

  /** `buildDeduplicationMaps`. */
  method BuildDeduplicationMaps(existing: seq<BaseItems.Row>) returns (byProduct: map<ProductId, ItemId>, byNorm: map<string, ItemId>)
    ensures byProduct == ProductIndex(existing) && byNorm == KeyIndex(existing)
  {
    byProduct, byNorm := map[], map[];
    for i := 0 to |existing|
      invariant byProduct == ProductIndex(existing[..i]) && byNorm == KeyIndex(existing[..i])
    {
      assert existing[..i + 1][..i] == existing[..i];
      var e := existing[i];
      var p := ProductOf(e.1);
      if p.Some? {
        byProduct := byProduct[p.value := e.0];
      }
      byNorm := byNorm[e.1.normalizedKey := e.0];
    }
    assert existing[..|existing|] == existing;
  }

  /** Maps built from the list's own rows are sound for the merge. */
  lemma DedupMapsSound(table: map<ItemId, Item>, listId: ListId, existing: seq<BaseItems.Row>, next: int)
    requires forall i :: 0 <= i < |existing| ==> existing[i].0 in table && table[existing[i].0] == existing[i].1 && existing[i].1.listId == listId
    ensures Sound(MergeState(table, ProductIndex(existing), KeyIndex(existing), next, 0, 0), listId)
  {
  }

  /**
   * With maps built from every item of the list, the first incoming item hits
   * exactly when some item of the list (checked or not) has its product, or,
   * when it has none, its key.
   */
  lemma FirstHitIff(table: map<ItemId, Item>, listId: ListId, existing: seq<BaseItems.Row>, next: int, it: Incoming)
    requires forall i :: 0 <= i < |existing| ==> existing[i].0 in table && table[existing[i].0] == existing[i].1 && existing[i].1.listId == listId
    requires forall id :: id in table && table[id].listId == listId ==> (id, table[id]) in existing
    ensures var st := MergeState(table, ProductIndex(existing), KeyIndex(existing), next, 0, 0);
      Target(st, it).Some? <==>
        if it.productId.Some? then exists id :: id in table && table[id].listId == listId && ProductOf(table[id]) == it.productId
        else exists id :: id in table && table[id].listId == listId && table[id].normalizedKey == it.norm
  {
    if it.productId.Some? {
      if exists id :: id in table && table[id].listId == listId && ProductOf(table[id]) == it.productId {
        var id :| id in table && table[id].listId == listId && ProductOf(table[id]) == it.productId;
        var i :| 0 <= i < |existing| && existing[i] == (id, table[id]);
        assert it.productId.value in ProductIndex(existing);
      }
    } else {
      if exists id :: id in table && table[id].listId == listId && table[id].normalizedKey == it.norm {
        var id :| id in table && table[id].listId == listId && table[id].normalizedKey == it.norm;
        var i :| 0 <= i < |existing| && existing[i] == (id, table[id]);
        assert it.norm in KeyIndex(existing);
      }
    }
  }

  /**
   * Deduplication maps over every item of list `listId`, checked or not: a
   * product (a normalised key) is in its map exactly when some item of the
   * list has it, and it names such an item. Which of several such items is
   * named depends on the order `findMany` returned them in.
   */
  ghost predicate IndexesList(table: map<ItemId, Item>, listId: ListId, byProduct: map<ProductId, ItemId>, byNorm: map<string, ItemId>) {
    (forall p :: p in byProduct <==> ListHasProduct(table, listId, p))
    && (forall k :: k in byNorm <==> ListHasKey(table, listId, k))
    && Sound(MergeState(table, byProduct, byNorm, 0, 0, 0), listId)
  }

  /** Some item of list `listId` has product `p`. */
  ghost predicate ListHasProduct(table: map<ItemId, Item>, listId: ListId, p: ProductId) {
    exists id :: id in table && table[id].listId == listId && ProductOf(table[id]) == Some(p)
  }

  /** Some item of list `listId` has normalised key `k`. */
  ghost predicate ListHasKey(table: map<ItemId, Item>, listId: ListId, k: string) {
    exists id :: id in table && table[id].listId == listId && table[id].normalizedKey == k
  }

  /** The maps built from the rows `fetchExistingItems` returns index the whole list. */
  lemma ListRowsIndex(table: map<ItemId, Item>, listId: ListId, existing: seq<BaseItems.Row>)
    requires forall i :: 0 <= i < |existing| ==> existing[i].0 in table && table[existing[i].0] == existing[i].1 && existing[i].1.listId == listId
    requires forall id :: id in table && table[id].listId == listId ==> (id, table[id]) in existing
    ensures IndexesList(table, listId, ProductIndex(existing), KeyIndex(existing))
  {
    DedupMapsSound(table, listId, existing, 0);
    forall p | ListHasProduct(table, listId, p)
      ensures p in ProductIndex(existing)
    {
      var id :| id in table && table[id].listId == listId && ProductOf(table[id]) == Some(p);
      var i :| 0 <= i < |existing| && existing[i] == (id, table[id]);
    }
    forall k | ListHasKey(table, listId, k)
      ensures k in KeyIndex(existing)
    {
      var id :| id in table && table[id].listId == listId && table[id].normalizedKey == k;
      var i :| 0 <= i < |existing| && existing[i] == (id, table[id]);
    }
  }

  /**
   * What `executeItemMerge` of `items` into list `listId` ends in: the merge
   * loop over the items' incoming forms, from the deduplication maps of the
   * list and its next sort index, using the first `|items|` fresh ids, leaves
   * the table `merged` after `created` creates and `updated` updates.
   */
  ghost predicate MergeRun(table: map<ItemId, Item>, listId: ListId, items: seq<TemplateItem>,
                           byProduct: map<ProductId, ItemId>, byNorm: map<string, ItemId>, newIds: seq<ItemId>, now: int,
                           merged: map<ItemId, Item>, created: nat, updated: nat)
  {
    && IndexesList(table, listId, byProduct, byNorm) && |items| <= |newIds| && Fresh(table, newIds)
    && (FreshPrefix(table, newIds, |items|);
        forall incoming | incoming == IncomingOf(items) ::
          var st := MergeAll(MergeState(table, byProduct, byNorm, BaseItems.NextSortIndex(table, listId, false), 0, 0),
                             listId, incoming, newIds[..|items|], now);
          st.table == merged && st.created == created && st.updated == updated)
  }

  /** The incoming form of a sequence of template items. */
  function IncomingOf(items: seq<TemplateItem>): (r: seq<Incoming>)
    ensures |r| == |items| && forall i :: 0 <= i < |items| ==> r[i] == ToIncoming(items[i])
  {
    seq(|items|, i requires 0 <= i < |items| => ToIncoming(items[i]))
  }

  /** The body of the merge loop for one incoming item: an update on a hit, a create on a miss. */
  method MergeOne(st: MergeState, listId: ListId, it: Incoming, newId: ItemId, now: int) returns (r: MergeState)
    requires Sound(st, listId) && newId !in st.table
    ensures r == Step(st, listId, it, newId, now)
  {
    var t, byProduct, byNorm, nextSortIndex, created, updated := st.table, st.byProduct, st.byNorm, st.nextSortIndex, st.created, st.updated;
    var target := Target(st, it);
    if target.Some? {
      t := t[target.value := Bumped(t[target.value])];
      updated := updated + 1;
    } else {
      var item := CreatedItem(listId, it, nextSortIndex, now);
      t := t[newId := item];
      nextSortIndex := nextSortIndex + 1;
      if it.productId.Some? {
        byProduct := byProduct[it.productId.value := newId];
      }
      byNorm := byNorm[item.normalizedKey := newId];
      created := created + 1;
    }
    r := MergeState(t, byProduct, byNorm, nextSortIndex, created, updated);
  }

  /**
   * `executeItemMerge` inside its transaction: the aggregate for the first
   * sort index, then one update or create per incoming item, keeping both
   * maps and both counters current.
   */
  method ExecuteItemMerge(table: map<ItemId, Item>, listId: ListId, items: seq<TemplateItem>,
                          byProduct: map<ProductId, ItemId>, byNorm: map<string, ItemId>, newIds: seq<ItemId>, now: int)
    returns (st: MergeState)
    requires |newIds| == |items| && Fresh(table, newIds)
    requires Sound(MergeState(table, byProduct, byNorm, 0, 0, 0), listId)
    ensures st == MergeAll(MergeState(table, byProduct, byNorm, BaseItems.NextSortIndex(table, listId, false), 0, 0),
                           listId, IncomingOf(items), newIds, now)
  {
    var first := BaseItems.AggregateNext(table, listId, false);
    ghost var incoming := IncomingOf(items);
    ghost var st0 := MergeState(table, byProduct, byNorm, first, 0, 0);
    st := MergeState(table, byProduct, byNorm, first, 0, 0);
    for i := 0 to |items|
      invariant Sound(st, listId) && Fresh(st.table, newIds[i..])
      invariant MergeAll(st0, listId, incoming, newIds, now) == MergeAll(st, listId, incoming[i..], newIds[i..], now)
    {
      var it := ToIncoming(items[i]);
      assert incoming[i..][0] == it && incoming[i..][1..] == incoming[i + 1..];
      assert newIds[i..][0] == newIds[i] && newIds[i..][1..] == newIds[i + 1..];
      MergeAllUnfold(st, listId, incoming[i..], newIds[i..], now);
      st := MergeOne(st, listId, it, newIds[i], now);
    }
  }

  // ---- fetchTemplateItems and applyTemplates -----------------------------------------

  /** A template the caller may apply: their own, or one shared to a family they belong to. */
  predicate Visible(templates: map<TemplateId, Template>, templateShares: set<(FamilyId, TemplateId)>,
                    members: map<(FamilyId, UserId), Member>, userId: UserId, templateId: TemplateId)
  {
    templateId in templates
    && (templates[templateId].ownerId == userId
        || exists share :: share in templateShares && share.1 == templateId && (share.0, userId) in members)
  }

  /** A requested template the caller may apply. */
  predicate Picked(db: Db, userId: UserId, templateIds: seq<TemplateId>, templateId: TemplateId)
    reads db`templates, db`templateShares, db`members
  {
    templateId in templateIds && Visible(db.templates, db.templateShares, db.members, userId, templateId)
  }

  /** None of the requested templates exists and is visible to the caller. */
  predicate NonePicked(db: Db, userId: UserId, templateIds: seq<TemplateId>)
    reads db`templates, db`templateShares, db`members
  {
    forall t :: t in db.templates ==> !Picked(db, userId, templateIds, t)
  }

  /** The items of the picked templates. */
  ghost function PickedItems(db: Db, userId: UserId, templateIds: seq<TemplateId>): set<TemplateItemId>
    reads db`templates, db`templateShares, db`members, db`templateItems
  {
    set id | id in db.templateItems && Picked(db, userId, templateIds, db.templateItems[id].templateId)
  }

  predicate BySortIndex(a: (TemplateItemId, TemplateItem), b: (TemplateItemId, TemplateItem)) {
    a.1.sortIndex <= b.1.sortIndex
  }

  lemma BySortIndexIsTotalPreorder()
    ensures Query.IsTotalPreorder(BySortIndex)
  {
  }

  /** The ordered block holds exactly the rows of the block. */
  lemma SameRows(block: seq<(TemplateItemId, TemplateItem)>, sorted: seq<(TemplateItemId, TemplateItem)>)
    requires Query.IsTotalPreorder(BySortIndex) && sorted == Query.OrderBy(block, BySortIndex)
    ensures forall x :: x in sorted <==> x in block
  {
    forall x ensures x in sorted <==> x in block { Query.OrderByKeepsRows(block, BySortIndex, x); }
  }

  /**
   * The rows are grouped template by template, and each template's rows
   * come in `sortIndex` order.
   */
  ghost predicate GroupedByTemplate(rows: seq<(TemplateItemId, TemplateItem)>) {
    (forall i, j :: 0 <= i < j < |rows| && rows[i].1.templateId == rows[j].1.templateId ==> rows[i].1.sortIndex <= rows[j].1.sortIndex)
    && (forall i, j, k :: 0 <= i < j < k < |rows| && TemplateAt(rows, i) == TemplateAt(rows, k) ==>
          TemplateAt(rows, j) == TemplateAt(rows, i))
  }

  /** The template of the `i`-th row. */
  ghost function TemplateAt(rows: seq<(TemplateItemId, TemplateItem)>, i: nat): TemplateId
    requires i < |rows|
  {
    rows[i].1.templateId
  }
  /**
   * `rows` are the items of the picked templates, each once, grouped
   * template by template and in `sortIndex` order within a template.
   */
  ghost predicate FetchedRows(db: Db, userId: UserId, templateIds: seq<TemplateId>, rows: seq<(TemplateItemId, TemplateItem)>)
    reads db`templates, db`templateShares, db`members, db`templateItems
  {
    (forall i :: 0 <= i < |rows| ==>
      (rows[i].0 in db.templateItems && db.templateItems[rows[i].0] == rows[i].1
       && Picked(db, userId, templateIds, rows[i].1.templateId)))
    && (forall id :: id in PickedItems(db, userId, templateIds) ==> (id, db.templateItems[id]) in rows)
    && (forall i, j :: 0 <= i < j < |rows| ==> rows[i].0 != rows[j].0)
    && GroupedByTemplate(rows)
  }

  /**
   * `fetchTemplateItems`: the picked templates, each with its items in
   * `sortIndex` order, flattened template by template; BadRequest "No
   * templates found" when no requested template is visible.
   */
  method FetchTemplateItems(db: Db, userId: UserId, templateIds: seq<TemplateId>)
    returns (r: Result<seq<(TemplateItemId, TemplateItem)>>)
    ensures r.Err? <==> NonePicked(db, userId, templateIds)
    ensures r.Err? ==> r.FailedWith(BadRequest, "No templates found")
    ensures r.Ok? ==> FetchedRows(db, userId, templateIds, r.value)
  {
    var templates, shares, members, allItems := db.templates, db.templateShares, db.members, db.templateItems;
    var found := Query.FindMany(templates, (id: TemplateId, t: Template) => id in templateIds && Visible(templates, shares, members, userId, id));
    if |found| == 0 {
      return Fail(BadRequest, "No templates found");
    }
    assert Picked(db, userId, templateIds, found[0].0);
    var rows := CollectBlocks(allItems, found);
    CollectedFromFound(db, userId, templateIds, found, rows, FoundIds(found));
    r := Ok(rows);
  }

  /** The ids of the found templates. */
  ghost function FoundIds(found: seq<(TemplateId, Template)>): set<TemplateId> {
    set u | 0 <= u < |found| :: found[u].0
  }

  /** The loop of `fetchTemplateItems`: the items of each found template in turn, each block in its sort order. */
  method CollectBlocks(allItems: map<TemplateItemId, TemplateItem>, found: seq<(TemplateId, Template)>)
    returns (rows: seq<(TemplateItemId, TemplateItem)>)
    requires forall i, j :: 0 <= i < j < |found| ==> found[i].0 != found[j].0
    ensures Collected(allItems, rows, FoundIds(found))
  {
    rows := [];
    ghost var done: set<TemplateId> := {};
    for t := 0 to |found|
      invariant done == set u | 0 <= u < t :: found[u].0
      invariant Collected(allItems, rows, done)
    {
      var templateId := found[t].0;
      assert templateId !in done;
      var sorted := TemplateItemsInOrder(allItems, templateId);
      AppendBlock(rows, sorted, allItems, done, templateId);
      rows := rows + sorted;
      done := done + {templateId};
    }
  }

  /** `include: { items: { orderBy: { sortIndex: "asc" } } }` for one template. */
  method TemplateItemsInOrder(allItems: map<TemplateItemId, TemplateItem>, templateId: TemplateId)
    returns (sorted: seq<(TemplateItemId, TemplateItem)>)
    ensures forall i :: 0 <= i < |sorted| ==> sorted[i].0 in allItems && allItems[sorted[i].0] == sorted[i].1 && sorted[i].1.templateId == templateId
    ensures forall id :: id in allItems && allItems[id].templateId == templateId ==> (id, allItems[id]) in sorted
    ensures forall i, j :: 0 <= i < j < |sorted| ==> sorted[i].0 != sorted[j].0
    ensures Query.SortedBy(sorted, BySortIndex)
  {
    var block := Query.FindMany(allItems, (id: TemplateItemId, it: TemplateItem) => it.templateId == templateId);
    BySortIndexIsTotalPreorder();
    sorted := Query.OrderBy(block, BySortIndex);
    Query.OrderByKeepsKeysDistinct(block, BySortIndex);
    SameRows(block, sorted);
    forall i | 0 <= i < |sorted|
      ensures sorted[i].0 in allItems && allItems[sorted[i].0] == sorted[i].1 && sorted[i].1.templateId == templateId
    {
      assert sorted[i] in block;
    }
  }

  /**
   * What `FetchTemplateItems` has gathered for the templates in `done`: their
   * items and no others, each once, grouped and ordered.
   */
  ghost predicate Collected(allItems: map<TemplateItemId, TemplateItem>, rows: seq<(TemplateItemId, TemplateItem)>, done: set<TemplateId>) {
    (forall i :: 0 <= i < |rows| ==> rows[i].0 in allItems && allItems[rows[i].0] == rows[i].1 && rows[i].1.templateId in done)
    && (forall id :: id in allItems && allItems[id].templateId in done ==> (id, allItems[id]) in rows)
    && (forall i, j :: 0 <= i < j < |rows| ==> rows[i].0 != rows[j].0)
    && GroupedByTemplate(rows)
  }

  /** The step of `FetchTemplateItems`' loop: one template's sorted items appended to the earlier ones. */
  lemma AppendBlock(rows: seq<(TemplateItemId, TemplateItem)>, sorted: seq<(TemplateItemId, TemplateItem)>,
                    allItems: map<TemplateItemId, TemplateItem>, done: set<TemplateId>, templateId: TemplateId)
    requires templateId !in done && Collected(allItems, rows, done)
    requires forall i :: 0 <= i < |sorted| ==> sorted[i].0 in allItems && allItems[sorted[i].0] == sorted[i].1 && sorted[i].1.templateId == templateId
    requires forall id :: id in allItems && allItems[id].templateId == templateId ==> (id, allItems[id]) in sorted
    requires forall i, j :: 0 <= i < j < |sorted| ==> sorted[i].0 != sorted[j].0
    requires Query.SortedBy(sorted, BySortIndex)
    ensures Collected(allItems, rows + sorted, done + {templateId})
  {
    var all := rows + sorted;
    forall i, j | 0 <= i < j < |all| ensures all[i].0 != all[j].0 {
      if i < |rows| && j >= |rows| {
        assert all[i].1 == allItems[all[i].0] && all[j].1 == allItems[all[j].0];
      }
    }
    forall id | id in allItems && allItems[id].templateId in done + {templateId} ensures (id, allItems[id]) in all {
      if allItems[id].templateId in done { assert (id, allItems[id]) in rows; }
    }
    AppendKeepsGrouped(rows, sorted, done, templateId);
  }

  /** Appending a new template's ordered block keeps the rows grouped. */
  lemma AppendKeepsGrouped(rows: seq<(TemplateItemId, TemplateItem)>, sorted: seq<(TemplateItemId, TemplateItem)>,
                           done: set<TemplateId>, templateId: TemplateId)
    requires templateId !in done && GroupedByTemplate(rows)
    requires forall i :: 0 <= i < |rows| ==> rows[i].1.templateId in done
    requires forall i :: 0 <= i < |sorted| ==> sorted[i].1.templateId == templateId
    requires Query.SortedBy(sorted, BySortIndex)
    ensures GroupedByTemplate(rows + sorted)
  {
    var all := rows + sorted;
    forall i, j, k | 0 <= i < j < k < |all| && TemplateAt(all, i) == TemplateAt(all, k)
      ensures TemplateAt(all, j) == TemplateAt(all, i)
    {
      if i >= |rows| {
        assert all[j] == sorted[j - |rows|] && all[i] == sorted[i - |rows|];
      } else if k < |rows| {
        assert TemplateAt(rows, i) == TemplateAt(all, i) && TemplateAt(rows, k) == TemplateAt(all, k);
        assert TemplateAt(rows, j) == TemplateAt(all, j);
      }
    }
  }

  /** Once every found template is done, the collected rows are exactly what `FetchTemplateItems` promises. */
  lemma CollectedFromFound(db: Db, userId: UserId, templateIds: seq<TemplateId>, found: seq<(TemplateId, Template)>,
                           rows: seq<(TemplateItemId, TemplateItem)>, done: set<TemplateId>)
    requires forall i :: 0 <= i < |found| ==> found[i].0 in db.templates && Picked(db, userId, templateIds, found[i].0)
    requires forall k :: k in db.templates && Picked(db, userId, templateIds, k) ==> (k, db.templates[k]) in found
    requires done == set u | 0 <= u < |found| :: found[u].0
    requires Collected(db.templateItems, rows, done)
    ensures FetchedRows(db, userId, templateIds, rows)
  {
    forall i | 0 <= i < |rows| ensures Picked(db, userId, templateIds, rows[i].1.templateId) {
      var u :| 0 <= u < |found| && found[u].0 == rows[i].1.templateId;
    }
    forall id | id in PickedItems(db, userId, templateIds) ensures (id, db.templateItems[id]) in rows {
      var tid := db.templateItems[id].templateId;
      assert (tid, db.templates[tid]) in found;
    }
  }

  /** The picked template items are as many as the fetched rows. */
  lemma FetchedCount(db: Db, userId: UserId, templateIds: seq<TemplateId>, rows: seq<(TemplateItemId, TemplateItem)>)
    requires FetchedRows(db, userId, templateIds, rows)
    ensures |rows| == |PickedItems(db, userId, templateIds)| <= |db.templateItems|
  {
    var picked, allItems := PickedItems(db, userId, templateIds), db.templateItems;
    var keys := Query.KeyColumn(rows);
    ElementsCardinality(keys);
    assert Elements(keys) == picked by {
      forall id | id in picked ensures id in Elements(keys) {
        var i :| 0 <= i < |rows| && rows[i] == (id, allItems[id]);
        assert keys[i] == id;
      }
    }
    SubsetCardinality(picked, allItems.Keys);
  }

  /** The values of a sequence of rows. */
  function ValueColumn<K, V>(rows: seq<(K, V)>): (values: seq<V>)
    ensures |values| == |rows| && forall i :: 0 <= i < |rows| ==> values[i] == rows[i].1
  {
    if rows == [] then [] else [rows[0].1] + ValueColumn(rows[1..])
  }

  /**
   * What a merge into list `listId` did to the item table: every earlier item
   * is still there, items of other lists are untouched and the list's own
   * items changed at most by a larger quantity; exactly `created` items were
   * added, all in the list, unchecked, numbered from the list's next sort index on.
   */
  ghost predicate MergeOutcome(before: map<ItemId, Item>, after: map<ItemId, Item>, listId: ListId, created: nat) {
    (forall id :: id in before ==>
      (id in after && (before[id].listId != listId ==> after[id] == before[id]) && QuantityOnlyGrows(before[id], after[id])))
    && before.Keys <= after.Keys && |Added(before, after)| == created
    && AllCreated(Added(before, after), after, listId,
                  BaseItems.NextSortIndex(before, listId, false), BaseItems.NextSortIndex(before, listId, false) + created)
  }

  /** Merging nothing leaves the table as it was. */
  lemma NothingMerged(table: map<ItemId, Item>, listId: ListId)
    ensures MergeOutcome(table, table, listId, 0)
  {
    assert Added(table, table) == {};
  }

  /**
   * The merge of `applyTemplates` on the item table: the list's items, both
   * deduplication maps, the merge loop, and what the merge lemmas say
   * about its result.
   */
  method MergeIntoList(table: map<ItemId, Item>, listId: ListId, items: seq<TemplateItem>, newIds: seq<ItemId>, now: int)
    returns (st: MergeState, ghost byProduct: map<ProductId, ItemId>, ghost byNorm: map<string, ItemId>)
    requires |newIds| == |items| && Fresh(table, newIds)
    ensures MergeRun(table, listId, items, byProduct, byNorm, newIds, now, st.table, st.created, st.updated)
    ensures st.created + st.updated == |items|
    ensures MergeOutcome(table, st.table, listId, st.created)
  {
    var existing := Query.FindMany(table, (id: ItemId, it: Item) => it.listId == listId);
    var productMap, normMap := BuildDeduplicationMaps(existing);
    byProduct, byNorm := productMap, normMap;
    ListRowsIndex(table, listId, existing);
    st := ExecuteItemMerge(table, listId, items, productMap, normMap, newIds, now);
    assert newIds[..|items|] == newIds;
    ghost var st0 := MergeState(table, byProduct, byNorm, BaseItems.NextSortIndex(table, listId, false), 0, 0);
    DedupMapsSound(table, listId, existing, BaseItems.NextSortIndex(table, listId, false));
    MergeCounts(st0, listId, IncomingOf(items), newIds, now);
    MergeAddedCount(st0, listId, IncomingOf(items), newIds, now);
    MergeAddedShape(st0, listId, IncomingOf(items), newIds, now);
    forall id | id in table
      ensures (table[id].listId != listId ==> st.table[id] == table[id]) && QuantityOnlyGrows(table[id], st.table[id])
    {
      MergeTouchesOnlyQuantities(st0, listId, IncomingOf(items), newIds, now, id);
    }
  }

  /**
   * The second half of `applyTemplates`, once the list is known to be a
   * writable shopping list: fetch the picked templates' items and merge them.
   * The ghost results are the fetched rows, in the order they were merged,
   * and the deduplication maps the merge started from.
   */
  method MergeTemplates(db: Db, userId: UserId, listId: ListId, templateIds: seq<TemplateId>, newIds: seq<ItemId>, now: int)
    returns (r: Result<(nat, nat)>, ghost rows: seq<(TemplateItemId, TemplateItem)>,
             ghost byProduct: map<ProductId, ItemId>, ghost byNorm: map<string, ItemId>)
    requires Fresh(db.shopping, newIds) && |newIds| >= |db.templateItems|
    modifies db`shopping
    ensures r.Err? <==> old(NonePicked(db, userId, templateIds))
    ensures r.Err? ==> r.FailedWith(BadRequest, "No templates found") && db.shopping == old(db.shopping)
    ensures r.Ok? ==> r.value.0 + r.value.1 == |old(PickedItems(db, userId, templateIds))|
    ensures r.Ok? && old(PickedItems(db, userId, templateIds)) == {} ==> r.value == (0, 0) && db.shopping == old(db.shopping)
    ensures r.Ok? ==> MergeOutcome(old(db.shopping), db.shopping, listId, r.value.0)
    ensures r.Ok? ==> FetchedRows(db, userId, templateIds, rows) && |rows| <= |newIds|
    ensures r.Ok? && rows != [] ==>
      MergeRun(old(db.shopping), listId, ValueColumn(rows), byProduct, byNorm, newIds, now, db.shopping, r.value.0, r.value.1)
  {
    var fetched := FetchTemplateItems(db, userId, templateIds);
    if fetched.Err? {
      return Err(fetched.failure), [], map[], map[];
    }
    var incoming := fetched.value;
    rows := incoming;
    FetchedCount(db, userId, templateIds, incoming);
    if |incoming| == 0 {
      NothingMerged(db.shopping, listId);
      return Ok((0, 0)), incoming, map[], map[];
    }
    assert Picked(db, userId, templateIds, incoming[0].1.templateId);
    var created, updated;
    created, updated, byProduct, byNorm := WriteMerge(db, listId, ValueColumn(incoming), newIds, now);
    r := Ok((created, updated));
  }

  /** The transaction's writes: the merged shopping table replaces the old one. */
  method WriteMerge(db: Db, listId: ListId, items: seq<TemplateItem>, newIds: seq<ItemId>, now: int)
    returns (created: nat, updated: nat, ghost byProduct: map<ProductId, ItemId>, ghost byNorm: map<string, ItemId>)
    requires Fresh(db.shopping, newIds) && |items| <= |newIds|
    modifies db`shopping
    ensures MergeRun(old(db.shopping), listId, items, byProduct, byNorm, newIds, now, db.shopping, created, updated)
    ensures created + updated == |items|
    ensures MergeOutcome(old(db.shopping), db.shopping, listId, created)
  {
    FreshPrefix(db.shopping, newIds, |items|);
    var st;
    st, byProduct, byNorm := MergeIntoList(db.shopping, listId, items, newIds[..|items|], now);
    assert newIds[..|items|][..|items|] == newIds[..|items|];
    db.shopping := st.table;
    created, updated := st.created, st.updated;
  }

  /**
   * `applyTemplates`: write access, the request and list-type checks, the
   * fetch of the picked templates' items, and the merge inside one
   * transaction. It answers with the created and updated counts. The ghost
   * results are those of `MergeTemplates`.
   */
  method ApplyTemplates(db: Db, userId: UserId, listId: ListId, templateIds: seq<TemplateId>, newIds: seq<ItemId>, now: int)
    returns (r: Result<(nat, nat)>, ghost rows: seq<(TemplateItemId, TemplateItem)>,
             ghost byProduct: map<ProductId, ItemId>, ghost byNorm: map<string, ItemId>)
    requires Fresh(db.shopping, newIds) && |newIds| >= |db.templateItems|
    modifies db`shopping
    ensures var access := old(ListsAccess.Access(db.lists, db.listShares, db.members, userId, listId, Write));
      (access.Err? ==> r == Err(access.failure))
      && (access.Ok? && templateIds == [] ==> r.FailedWith(BadRequest, "templateIds is required"))
      && (access.Ok? && templateIds != [] && db.lists[listId].listType != ShoppingList ==>
            r.FailedWith(BadRequest, "Templates can be applied only to shopping lists"))
      && ((access.Ok? && templateIds != [] && db.lists[listId].listType == ShoppingList
           && old(NonePicked(db, userId, templateIds))) ==> r.FailedWith(BadRequest, "No templates found"))
      && ((access.Ok? && templateIds != [] && db.lists[listId].listType == ShoppingList
           && !old(NonePicked(db, userId, templateIds))) ==> r.Ok?)
      && (r.Ok? ==> access.Ok?)
    ensures r.Err? ==> db.shopping == old(db.shopping)
    ensures r.Ok? ==> r.value.0 + r.value.1 == |old(PickedItems(db, userId, templateIds))|
    ensures r.Ok? && old(PickedItems(db, userId, templateIds)) == {} ==> r.value == (0, 0) && db.shopping == old(db.shopping)
    ensures r.Ok? ==> MergeOutcome(old(db.shopping), db.shopping, listId, r.value.0)
    ensures r.Ok? ==> FetchedRows(db, userId, templateIds, rows) && |rows| <= |newIds|
    ensures r.Ok? && rows != [] ==>
      MergeRun(old(db.shopping), listId, ValueColumn(rows), byProduct, byNorm, newIds, now, db.shopping, r.value.0, r.value.1)
  {
    var access := ListsAccess.AssertAccess(db, userId, listId, Write);
    if access.Err? {
      return Err(access.failure), [], map[], map[];
    }
    if templateIds == [] {
      return Fail(BadRequest, "templateIds is required"), [], map[], map[];
    }
    var list := ListsAccess.GetListOrThrow(db.lists, db.listShares, listId);
    if list.value.row.listType != ShoppingList {
      return Fail(BadRequest, "Templates can be applied only to shopping lists"), [], map[], map[];
    }
    r, rows, byProduct, byNorm := MergeTemplates(db, userId, listId, templateIds, newIds, now);
  }
}
