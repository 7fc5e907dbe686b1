/**
 * The task-item service: creation and partial update. Listing, toggling,
 * removal and reordering are the shared item operations of `BaseItems` on
 * the task table.
 */
module TaskItems {
  import opened Common
  import opened Errors
  import opened Store
  import NormalizeKey
  import ListsAccess
  import BaseItems

  /** The body of a create request; the title is required. */
  datatype CreateRequest = CreateRequest(title: string, durationMinutes: Option<int>, repeatEveryDays: Option<int>)

  /** The row `createItem` inserts, `sortIndex` being the next unchecked index. */
  function NewItem(listId: ListId, dto: CreateRequest, sortIndex: int, now: int): Item {
    Item(listId, dto.title, NormalizeKey.Normalize(dto.title), false, None, dto.repeatEveryDays, sortIndex, now,
         TaskDetail(dto.durationMinutes))
  }

  /** A created task is unchecked, after every unchecked task of its list, and keyed by its normalised title. */
  lemma CreatedTaskFacts(table: map<ItemId, Item>, listId: ListId, dto: CreateRequest, now: int)
    ensures var item := NewItem(listId, dto, BaseItems.NextSortIndex(table, listId, false), now);
      !item.isChecked && item.checkedAt.None? && item.listId == listId && item.title == dto.title
      && (forall id :: BaseItems.InGroup(table, id, listId, false) ==> table[id].sortIndex < item.sortIndex)
      && ((forall id :: !BaseItems.InGroup(table, id, listId, false)) ==> item.sortIndex == 1)
      && NormalizeKey.IsKey(item.normalizedKey) && item.normalizedKey == NormalizeKey.Normalize(dto.title)
      && item.detail.durationMinutes == dto.durationMinutes && item.repeatEveryDays == dto.repeatEveryDays
  {
    NormalizeKey.NormalizedIsKey(dto.title);
  }

  /** `createItem`: write access, then the insert at the end of the unchecked group. */
  method CreateItem(db: Db, userId: UserId, listId: ListId, dto: CreateRequest, newId: ItemId, now: int)
    returns (r: Result<BaseItems.Row>)
    requires newId !in db.tasks
    modifies db`tasks
    ensures var access := old(ListsAccess.Access(db.lists, db.listShares, db.members, userId, listId, Write));
      (access.Err? ==> r == Err(access.failure) && db.tasks == old(db.tasks))
      && (r.Ok? <==> access.Ok?)
    ensures r.Ok? ==> (r.value.0 == newId
      && r.value.1 == NewItem(listId, dto, BaseItems.NextSortIndex(old(db.tasks), listId, false), now)
      && db.tasks == old(db.tasks)[newId := r.value.1])
  {
    var access := ListsAccess.AssertAccess(db, userId, listId, Write);
    if access.Err? {
      return Err(access.failure);
    }
    var sortIndex := BaseItems.AggregateNext(db.tasks, listId, false);
    var item := NewItem(listId, dto, sortIndex, now);
    db.tasks := db.tasks[newId := item];
    r := Ok((newId, item));
  }

  /**
   * The body of an update request. An omitted or null title keeps the
   * title; duration and repeat period may be cleared with an explicit null.
   */
  datatype UpdateRequest = UpdateRequest(title: Option<string>, durationMinutes: Patch<Option<int>>, repeatEveryDays: Patch<Option<int>>)

  /** The row after `updateItem`: the key is recomputed only for a non-empty new title. */
  function UpdatedTask(item: Item, dto: UpdateRequest): Item
    requires item.detail.TaskDetail?
  {
    item.(title := dto.title.GetOr(item.title),
          normalizedKey := if dto.title.Some? && dto.title.value != [] then NormalizeKey.Normalize(dto.title.value) else item.normalizedKey,
          repeatEveryDays := dto.repeatEveryDays.ApplyTo(item.repeatEveryDays),
          detail := TaskDetail(dto.durationMinutes.ApplyTo(item.detail.durationMinutes)))
  }

  /**
   * An update rewrites only the supplied fields. The position, the checked
   * state and the check time stay; the key follows a non-empty new title
   * and stays otherwise, so an empty title is stored with the old key.
   */
  lemma UpdateTaskChangesOnlySupplied(item: Item, dto: UpdateRequest)
    requires item.detail.TaskDetail?
    ensures var u := UpdatedTask(item, dto);
      u.sortIndex == item.sortIndex && u.isChecked == item.isChecked && u.checkedAt == item.checkedAt
      && u.listId == item.listId && u.createdAt == item.createdAt
      && u.title == (if dto.title.Some? then dto.title.value else item.title)
      && (dto.title.Some? && dto.title.value != [] ==> u.normalizedKey == NormalizeKey.Normalize(u.title))
      && (dto.title.None? || dto.title.value == [] ==> u.normalizedKey == item.normalizedKey)
      && u.detail.durationMinutes == (if dto.durationMinutes.Set? then dto.durationMinutes.value else item.detail.durationMinutes)
      && u.repeatEveryDays == (if dto.repeatEveryDays.Set? then dto.repeatEveryDays.value else item.repeatEveryDays)
  {
  }

  /** `updateItem` after the access check. */
  function Updated(table: map<ItemId, Item>, listId: ListId, itemId: ItemId, dto: UpdateRequest): (r: Result<map<ItemId, Item>>)
    ensures r.Err? <==> itemId !in table || table[itemId].listId != listId
    ensures r.Err? ==> r.FailedWith(BadRequest, "Item not found")
    ensures r.Ok? ==> r.value.Keys == table.Keys && forall id :: id in table && id != itemId ==> r.value[id] == table[id]
  {
    if itemId !in table || table[itemId].listId != listId then Fail(BadRequest, "Item not found")
    else if table[itemId].detail.TaskDetail? then Ok(table[itemId := UpdatedTask(table[itemId], dto)])
    else Ok(table)
  }

  /** `updateItem`: write access, then the update of the item in its list. */
  method UpdateItem(db: Db, userId: UserId, listId: ListId, itemId: ItemId, dto: UpdateRequest) returns (r: Result<BaseItems.Row>)
    modifies db`tasks
    ensures var access := old(ListsAccess.Access(db.lists, db.listShares, db.members, userId, listId, Write));
      var updated := Updated(old(db.tasks), listId, itemId, dto);
      (access.Err? ==> r == Err(access.failure))
      && (access.Ok? && updated.Err? ==> r == Err(updated.failure))
      && (r.Ok? <==> access.Ok? && updated.Ok?)
      && (r.Ok? ==> db.tasks == updated.value && r.value == (itemId, db.tasks[itemId]))
    ensures r.Err? ==> db.tasks == old(db.tasks)
  {
    var access := ListsAccess.AssertAccess(db, userId, listId, Write);
    if access.Err? {
      return Err(access.failure);
    }
    var updated := Updated(db.tasks, listId, itemId, dto);
    if updated.Err? {
      return Err(updated.failure);
    }
    db.tasks := updated.value;
    r := Ok((itemId, db.tasks[itemId]));
  }

  // ---- the shared item operations on the task table ---------------------------------

  /** `listItems`: READ access, then the repeat sweep; the returned rows are the list's items as stored after it. */
  method ListItems(db: Db, userId: UserId, listId: ListId, now: int)
    returns (r: Result<seq<BaseItems.Row>>, ghost rows: seq<BaseItems.Row>)
    modifies db`shopping, db`tasks
    ensures var access := old(ListsAccess.Access(db.lists, db.listShares, db.members, userId, listId, Read));
      (access.Err? ==> r == Err(access.failure) && db.tasks == old(db.tasks))
      && (r.Ok? <==> access.Ok?)
    ensures r.Ok? ==> db.tasks == BaseItems.Swept(old(db.tasks), listId, true, now)
    ensures r.Ok? ==> forall i :: 0 <= i < |r.value| ==>
      (r.value[i].0 in db.tasks && db.tasks[r.value[i].0] == r.value[i].1 && r.value[i].1.listId == listId)
    ensures r.Ok? ==> forall id :: id in db.tasks && db.tasks[id].listId == listId ==> (id, db.tasks[id]) in r.value
    ensures r.Ok? ==> BaseItems.ListedRows(old(db.tasks), listId, rows)
    ensures r.Ok? ==> BaseItems.ResetInPlace(rows, BaseItems.DueInList(old(db.tasks), listId, true, now), r.value)
    ensures db.shopping == old(db.shopping)
  {
    r, rows := BaseItems.ListItems(db, BaseItems.TaskItems, true, userId, listId, now);
  }

  /** `toggleItem`: WRITE access, then the toggle that moves the item to the end of its new group. */
  method ToggleItem(db: Db, userId: UserId, listId: ListId, itemId: ItemId, target: bool, now: int)
    returns (r: Result<BaseItems.Row>)
    modifies db`shopping, db`tasks
    ensures var access := old(ListsAccess.Access(db.lists, db.listShares, db.members, userId, listId, Write));
      var toggled := BaseItems.Toggled(old(db.tasks), listId, itemId, target, now);
      (access.Err? ==> r == Err(access.failure))
      && (access.Ok? && toggled.Err? ==> r == Err(toggled.failure))
      && (r.Ok? <==> access.Ok? && toggled.Ok?)
      && (r.Ok? ==> db.tasks == toggled.value && r.value == (itemId, toggled.value[itemId]))
    ensures r.Err? ==> db.tasks == old(db.tasks)
    ensures db.shopping == old(db.shopping)
  {
    r := BaseItems.ToggleItem(db, BaseItems.TaskItems, userId, listId, itemId, target, now);
  }

  /** `removeItem`: WRITE access, then "Item not found" or the deletion of exactly that item. */
  method RemoveItem(db: Db, userId: UserId, listId: ListId, itemId: ItemId) returns (r: Outcome)
    modifies db`shopping, db`tasks
    ensures var access := old(ListsAccess.Access(db.lists, db.listShares, db.members, userId, listId, Write));
      var removed := BaseItems.Removed(old(db.tasks), listId, itemId);
      (access.Err? ==> r == Err(access.failure))
      && (access.Ok? && removed.Err? ==> r == Err(removed.failure))
      && (r.Ok? <==> access.Ok? && removed.Ok?)
      && (r.Ok? ==> db.tasks == removed.value)
    ensures r.Err? ==> db.tasks == old(db.tasks)
    ensures db.shopping == old(db.shopping)
  {
    r := BaseItems.RemoveItem(db, BaseItems.TaskItems, userId, listId, itemId);
  }

  /** `reorderItems`: WRITE access, the three BadRequest checks, then the 1-based positions in request order. */
  method ReorderItems(db: Db, userId: UserId, listId: ListId, orderedIds: seq<ItemId>, checked: bool) returns (r: Outcome)
    modifies db`shopping, db`tasks
    ensures var access := old(ListsAccess.Access(db.lists, db.listShares, db.members, userId, listId, Write));
      var reordered := BaseItems.Reordered(old(db.tasks), listId, orderedIds, checked);
      (access.Err? ==> r == Err(access.failure))
      && (access.Ok? && reordered.Err? ==> r == Err(reordered.failure))
      && (r.Ok? <==> access.Ok? && reordered.Ok?)
      && (r.Ok? ==> db.tasks == reordered.value)
    ensures r.Err? ==> db.tasks == old(db.tasks)
    ensures db.shopping == old(db.shopping)
  {
    r := BaseItems.ReorderItems(db, BaseItems.TaskItems, userId, listId, orderedIds, checked);
  }
}
