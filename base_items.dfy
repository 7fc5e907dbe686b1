/**
 * The item lifecycle shared by shopping and task items (`BaseItemsService`):
 * listing with the repeat sweep, toggling with the move to the end of the
 * target group, removal, and reordering one checked-state group.
 */
module BaseItems {
  import opened Common
  import opened Errors
  import opened Store
  import opened Dates
  import Query
  import ListsAccess

  /** Which item table an operation works on. */
  datatype ItemKind = ShoppingItems | TaskItems

  function Table(db: Db, kind: ItemKind): map<ItemId, Item>
    reads db
  {
    if kind == ShoppingItems then db.shopping else db.tasks
  }

  /** An item with its id, as the services return it. */
  type Row = (ItemId, Item)

  /** The listing order: unchecked before checked, then by `sortIndex`, then by `createdAt`. */
  predicate ListOrder(a: Row, b: Row) {
    (!a.1.isChecked && b.1.isChecked)
    || (a.1.isChecked == b.1.isChecked
        && (a.1.sortIndex < b.1.sortIndex || (a.1.sortIndex == b.1.sortIndex && a.1.createdAt <= b.1.createdAt)))
  }

  lemma ListOrderIsTotalPreorder()
    ensures Query.IsTotalPreorder(ListOrder)
  {
  }

  /** `rows` are the items of list `listId` in `table`, each once and as stored, in the listing order. */
  ghost predicate ListedRows(table: map<ItemId, Item>, listId: ListId, rows: seq<Row>) {
    && Query.SortedBy(rows, ListOrder)
    && (forall i :: 0 <= i < |rows| ==> rows[i].0 in table && table[rows[i].0] == rows[i].1 && rows[i].1.listId == listId)
    && (forall id :: id in table && table[id].listId == listId ==> (id, table[id]) in rows)
    && (forall i, j :: 0 <= i < j < |rows| ==> rows[i].0 != rows[j].0)
  }

  /** `findMany({ where: { listId }, orderBy })`. */
  method FetchOrdered(table: map<ItemId, Item>, listId: ListId) returns (rows: seq<Row>)
    ensures ListedRows(table, listId, rows)
  {
    var found := Query.FindMany(table, (id: ItemId, it: Item) => it.listId == listId);
    ListOrderIsTotalPreorder();
    rows := Query.OrderBy(found, ListOrder);
    Query.OrderByKeepsKeysDistinct(found, ListOrder);
    forall x | true ensures x in rows <==> x in found {
      Query.OrderByKeepsRows(found, ListOrder, x);
    }
    forall i | 0 <= i < |rows| ensures rows[i].0 in table && table[rows[i].0] == rows[i].1 && rows[i].1.listId == listId {
      assert rows[i] in found;
    }
  }

  // ---- the repeat sweep of listItems -------------------------------------------------

  /** The repeat period the generic service sees: none when the item model has no `repeatEveryDays` column. */
  function RepeatPeriod(item: Item, hasRepeatField: bool): Option<int> {
    if hasRepeatField then item.repeatEveryDays else None
  }

  /** A checked item whose repeat period has run out. */
  predicate IsDue(item: Item, hasRepeatField: bool, now: int) {
    item.isChecked && IsRepeatExpired(item.checkedAt, RepeatPeriod(item, hasRepeatField), now)
  }

  /** The `filter(...).map(i => i.id)` that picks the due items of the fetched rows. */
  function DueIds(rows: seq<Row>, hasRepeatField: bool, now: int): (ids: seq<ItemId>)
    ensures forall i :: 0 <= i < |rows| && IsDue(rows[i].1, hasRepeatField, now) ==> rows[i].0 in ids
    ensures forall id :: id in ids ==> exists i :: 0 <= i < |rows| && rows[i].0 == id && IsDue(rows[i].1, hasRepeatField, now)
  {
    if rows == [] then []
    else
      var rest := DueIds(rows[1..], hasRepeatField, now);
      assert forall id :: id in rest ==> exists i :: 0 <= i < |rows| && rows[i].0 == id && IsDue(rows[i].1, hasRepeatField, now) by {
        forall id | id in rest ensures exists i :: 0 <= i < |rows| && rows[i].0 == id && IsDue(rows[i].1, hasRepeatField, now) {
          var k :| 0 <= k < |rows[1..]| && rows[1..][k].0 == id && IsDue(rows[1..][k].1, hasRepeatField, now);
          assert rows[k + 1] == rows[1..][k];
        }
      }
      assert forall i :: 1 <= i < |rows| ==> rows[i] == rows[1..][i - 1];
      if IsDue(rows[0].1, hasRepeatField, now) then [rows[0].0] + rest else rest
  }

  /** What the reset writes: unchecked, no check time. */
  function Reset(item: Item): Item {
    item.(isChecked := false, checkedAt := None)
  }

  /** `updateMany({ where: { id: { in: ids } }, data: { isChecked: false, checkedAt: null } })`. */
  function ResetAll(table: map<ItemId, Item>, ids: set<ItemId>): (t: map<ItemId, Item>)
    ensures t.Keys == table.Keys
    ensures forall id :: id in t ==> t[id] == if id in ids then Reset(table[id]) else table[id]
  {
    map id | id in table :: if id in ids then Reset(table[id]) else table[id]
  }

  /** The ids the sweep resets: the due items of the list. */
  function DueInList(table: map<ItemId, Item>, listId: ListId, hasRepeatField: bool, now: int): set<ItemId> {
    set id | id in table && table[id].listId == listId && IsDue(table[id], hasRepeatField, now)
  }

  /** The item table after the sweep of `listItems`. */
  function Swept(table: map<ItemId, Item>, listId: ListId, hasRepeatField: bool, now: int): map<ItemId, Item> {
    ResetAll(table, DueInList(table, listId, hasRepeatField, now))
  }

  /** The sweep resets exactly the due items of the list and leaves every other item as it was. */
  lemma SweepResetsExactlyDue(table: map<ItemId, Item>, listId: ListId, hasRepeatField: bool, now: int, id: ItemId)
    requires id in table
    ensures id in Swept(table, listId, hasRepeatField, now)
    ensures Swept(table, listId, hasRepeatField, now)[id] ==
      if table[id].listId == listId && IsDue(table[id], hasRepeatField, now) then Reset(table[id]) else table[id]
  {
  }

  /** After a sweep no item of the list is due, so sweeping again at the same time changes nothing. */
  lemma SweepIsIdempotent(table: map<ItemId, Item>, listId: ListId, hasRepeatField: bool, now: int)
    ensures DueInList(Swept(table, listId, hasRepeatField, now), listId, hasRepeatField, now) == {}
    ensures Swept(Swept(table, listId, hasRepeatField, now), listId, hasRepeatField, now) == Swept(table, listId, hasRepeatField, now)
  {
    var once := Swept(table, listId, hasRepeatField, now);
    assert forall id :: id in once && once[id].listId == listId ==> !IsDue(once[id], hasRepeatField, now);
    assert DueInList(once, listId, hasRepeatField, now) == {};
    assert ResetAll(once, {}) == once;
  }

  /** An item model without a repeat column never expires: the sweep is then no change. */
  lemma NoRepeatFieldNoSweep(table: map<ItemId, Item>, listId: ListId, now: int)
    ensures Swept(table, listId, false, now) == table
  {
    assert DueInList(table, listId, false, now) == {};
  }

  /** The sweep keeps `isChecked` and `checkedAt` in agreement. */
  lemma SweepKeepsCheckedConsistent(table: map<ItemId, Item>, listId: ListId, hasRepeatField: bool, now: int)
    requires CheckedConsistent(table)
    ensures CheckedConsistent(Swept(table, listId, hasRepeatField, now))
  {
  }

  /** The in-memory `for` loop of `listItems`: the fetched rows, with the reset applied to the due ones. */
  method ResetInMemory(rows: seq<Row>, dueIds: seq<ItemId>) returns (out: seq<Row>)
    ensures |out| == |rows|
    ensures forall i :: 0 <= i < |rows| ==> out[i].0 == rows[i].0
    ensures forall i :: 0 <= i < |rows| ==> out[i].1 == if rows[i].0 in dueIds then Reset(rows[i].1) else rows[i].1
  {
    out := [];
    for i := 0 to |rows|
      invariant |out| == i
      invariant forall j :: 0 <= j < i ==> out[j].0 == rows[j].0
      invariant forall j :: 0 <= j < i ==> out[j].1 == if rows[j].0 in dueIds then Reset(rows[j].1) else rows[j].1
    {
      var item := rows[i].1;
      if rows[i].0 in dueIds {
        item := item.(isChecked := false, checkedAt := None);
      }
      out := out + [(rows[i].0, item)];
    }
  }

  /**
   * The rows `listItems` returns agree with what the sweep stored: the
   * in-memory reset and the `updateMany` pick the same items.
   */
  lemma ReturnedRowsMatchStore(table: map<ItemId, Item>, listId: ListId, hasRepeatField: bool, now: int, rows: seq<Row>, out: seq<Row>)
    requires forall i :: 0 <= i < |rows| ==> rows[i].0 in table && table[rows[i].0] == rows[i].1 && rows[i].1.listId == listId
    requires forall id :: id in table && table[id].listId == listId ==> (id, table[id]) in rows
    requires |out| == |rows| && forall i :: 0 <= i < |rows| ==> out[i].0 == rows[i].0
    requires forall i :: 0 <= i < |rows| ==> out[i].1 == if rows[i].0 in DueIds(rows, hasRepeatField, now) then Reset(rows[i].1) else rows[i].1
    ensures forall i :: 0 <= i < |out| ==> (out[i].0 in Swept(table, listId, hasRepeatField, now)
      && Swept(table, listId, hasRepeatField, now)[out[i].0] == out[i].1)
    ensures forall id :: id in table && table[id].listId == listId ==>
      (id, Swept(table, listId, hasRepeatField, now)[id]) in out
  {
    var due := DueIds(rows, hasRepeatField, now);
    forall i | 0 <= i < |out| ensures Swept(table, listId, hasRepeatField, now)[out[i].0] == out[i].1 {
      var id := rows[i].0;
      if id in due {
        var k :| 0 <= k < |rows| && rows[k].0 == id && IsDue(rows[k].1, hasRepeatField, now);
        assert rows[k].1 == table[id];
      }
    }
    forall id | id in table && table[id].listId == listId ensures (id, Swept(table, listId, hasRepeatField, now)[id]) in out {
      var k :| 0 <= k < |rows| && rows[k] == (id, table[id]);
      assert out[k].0 == id;
    }
  }

  /** The due ids picked from the fetched rows are exactly the due items of the list. */
  lemma DueIdsAreDueInList(table: map<ItemId, Item>, listId: ListId, hasRepeatField: bool, now: int, rows: seq<Row>)
    requires forall i :: 0 <= i < |rows| ==> rows[i].0 in table && table[rows[i].0] == rows[i].1 && rows[i].1.listId == listId
    requires forall id :: id in table && table[id].listId == listId ==> (id, table[id]) in rows
    ensures Elements(DueIds(rows, hasRepeatField, now)) == DueInList(table, listId, hasRepeatField, now)
  {
    var due := DueIds(rows, hasRepeatField, now);
    forall id | id in DueInList(table, listId, hasRepeatField, now) ensures id in due {
      var k :| 0 <= k < |rows| && rows[k] == (id, table[id]);
    }
    forall id | id in due ensures id in DueInList(table, listId, hasRepeatField, now) {
      var k :| 0 <= k < |rows| && rows[k].0 == id && IsDue(rows[k].1, hasRepeatField, now);
    }
  }

  /** `out` is `rows`, in the same order, with the items named in `due` reset in place. */
  ghost predicate ResetInPlace(rows: seq<Row>, due: set<ItemId>, out: seq<Row>) {
    && |out| == |rows|
    && forall i :: 0 <= i < |rows| ==>
         out[i].0 == rows[i].0 && out[i].1 == if rows[i].0 in due then Reset(rows[i].1) else rows[i].1
  }

  /**
   * The computation of `listItems` on the item table: the ordered rows of the
   * list and the due ids among them; the table the `updateMany` leaves and
   * the rows after the in-memory reset. The ghost result is the fetched rows,
   * which `out` follows position by position.
   */
  method SweepRows(table: map<ItemId, Item>, listId: ListId, hasRepeatField: bool, now: int)
    returns (stored: map<ItemId, Item>, out: seq<Row>, ghost rows: seq<Row>)
    ensures stored == Swept(table, listId, hasRepeatField, now)
    ensures ListedRows(table, listId, rows)
    ensures ResetInPlace(rows, DueInList(table, listId, hasRepeatField, now), out)
    ensures forall i :: 0 <= i < |out| ==> (out[i].0 in stored && stored[out[i].0] == out[i].1 && out[i].1.listId == listId)
    ensures forall id :: id in stored && stored[id].listId == listId ==> (id, stored[id]) in out
  {
    var fetched := FetchOrdered(table, listId);
    rows := fetched;
    var due := DueIds(fetched, hasRepeatField, now);
    DueIdsAreDueInList(table, listId, hasRepeatField, now, fetched);
    stored := table;
    out := fetched;
    if |due| > 0 {
      stored := ResetAll(table, Elements(due));
      out := ResetInMemory(fetched, due);
    } else {
      assert ResetAll(table, {}) == table;
      assert forall i :: 0 <= i < |fetched| ==> fetched[i].0 !in due;
    }
    ReturnedRowsMatchStore(table, listId, hasRepeatField, now, fetched, out);
  }

  /**
   * `listItems`: read access, then the sweep, stored and returned. The ghost
   * result is the fetched rows: the answer lists them in the listing order,
   * each once, with the due ones reset in place and not re-sorted.
   */
  method ListItems(db: Db, kind: ItemKind, hasRepeatField: bool, userId: UserId, listId: ListId, now: int)
    returns (r: Result<seq<Row>>, ghost rows: seq<Row>)
    modifies db`shopping, db`tasks
    ensures var access := old(ListsAccess.Access(db.lists, db.listShares, db.members, userId, listId, Read));
      (access.Err? ==> r == Err(access.failure) && Table(db, kind) == old(Table(db, kind)))
      && (r.Ok? <==> access.Ok?)
    ensures r.Ok? ==> Table(db, kind) == Swept(old(Table(db, kind)), listId, hasRepeatField, now)
    ensures r.Ok? ==> forall i :: 0 <= i < |r.value| ==>
      (r.value[i].0 in Table(db, kind) && Table(db, kind)[r.value[i].0] == r.value[i].1 && r.value[i].1.listId == listId)
    ensures r.Ok? ==> forall id :: id in Table(db, kind) && Table(db, kind)[id].listId == listId ==>
      (id, Table(db, kind)[id]) in r.value
    ensures r.Ok? ==> ListedRows(old(Table(db, kind)), listId, rows)
    ensures r.Ok? ==> ResetInPlace(rows, DueInList(old(Table(db, kind)), listId, hasRepeatField, now), r.value)
    ensures kind == ShoppingItems ==> db.tasks == old(db.tasks)
    ensures kind == TaskItems ==> db.shopping == old(db.shopping)
  {
    var access := ListsAccess.AssertAccess(db, userId, listId, Read);
    if access.Err? {
      return Err(access.failure), [];
    }
    var stored, out;
    stored, out, rows := SweepRows(Table(db, kind), listId, hasRepeatField, now);
    if kind == ShoppingItems { db.shopping := stored; } else { db.tasks := stored; }
    r := Ok(out);
  }

  // ---- toggleItem ---------------------------------------------------------------------

  /** The largest element of a finite set of integers, found from any element `w` of it. */
  ghost function MaxOf(s: set<int>, w: int): (m: int)
    requires w in s
    ensures m in s && forall y :: y in s ==> y <= m
    decreases s
  {
    var rest := s - {w};
    if exists y :: y in rest then
      var x :| x in rest;
      var r := MaxOf(rest, x);
      assert forall y :: y in s ==> y == w || y in rest;
      if w > r then w else r
    else
      assert forall y :: y in s ==> y == w by { forall y | y in s ensures y == w { assert y !in rest; } }
      w
  }

  /** An item of one checked-state group of a list. */
  predicate InGroup(table: map<ItemId, Item>, id: ItemId, listId: ListId, checked: bool) {
    id in table && table[id].listId == listId && table[id].isChecked == checked
  }

  /** The sort indexes of one checked-state group of a list. */
  ghost function GroupIndexes(table: map<ItemId, Item>, listId: ListId, checked: bool): set<int> {
    set id | id in table && InGroup(table, id, listId, checked) :: table[id].sortIndex
  }

  /**
   * `aggregate({ where: { listId, isChecked }, _max: { sortIndex: true } })`,
   * then `(max ?? 0) + 1`: one past the largest index of the group, or 1 for
   * an empty group.
   */
  ghost function NextSortIndex(table: map<ItemId, Item>, listId: ListId, checked: bool): (next: int)
    ensures forall id :: InGroup(table, id, listId, checked) ==> table[id].sortIndex < next
    ensures (exists id :: InGroup(table, id, listId, checked)) ==>
      exists id :: InGroup(table, id, listId, checked) && table[id].sortIndex == next - 1
    ensures (forall id :: !InGroup(table, id, listId, checked)) ==> next == 1
  {
    var s := GroupIndexes(table, listId, checked);
    assert forall id :: InGroup(table, id, listId, checked) ==> table[id].sortIndex in s;
    if exists v :: v in s then
      var v :| v in s;
      MaxOf(s, v) + 1
    else
      1
  }

  /** The aggregate computed over the rows of one group. */
  method AggregateNext(table: map<ItemId, Item>, listId: ListId, checked: bool) returns (next: int)
    ensures next == NextSortIndex(table, listId, checked)
  {
    var rows := Query.FindMany(table, (id: ItemId, it: Item) => it.listId == listId && it.isChecked == checked);
    var max: Option<int> := None;
    for i := 0 to |rows|
      invariant max.None? ==> i == 0
      invariant max.Some? ==> (exists j :: 0 <= j < i && rows[j].1.sortIndex == max.value)
      invariant max.Some? ==> forall j :: 0 <= j < i ==> rows[j].1.sortIndex <= max.value
    {
      var v := rows[i].1.sortIndex;
      if max.None? || v > max.value {
        max := Some(v);
      }
    }
    assert forall j :: 0 <= j < |rows| ==> InGroup(table, rows[j].0, listId, checked) && table[rows[j].0] == rows[j].1;
    assert forall id :: InGroup(table, id, listId, checked) ==> (id, table[id]) in rows;
    next := if max.None? then 1 else max.value + 1;
  }

  /** The item a toggle writes. */
  ghost function ToggledItem(table: map<ItemId, Item>, listId: ListId, item: Item, target: bool, now: int): Item {
    item.(isChecked := target,
          checkedAt := if target then Some(now) else None,
          sortIndex := if target != item.isChecked then NextSortIndex(table, listId, target) else item.sortIndex)
  }

  /** `toggleItem` after the access check, as a function of the item table. */
  ghost function Toggled(table: map<ItemId, Item>, listId: ListId, itemId: ItemId, target: bool, now: int): (r: Result<map<ItemId, Item>>)
    ensures r.Err? <==> itemId !in table || table[itemId].listId != listId
    ensures r.Err? ==> r.FailedWith(BadRequest, "Item not found")
  {
    if itemId !in table || table[itemId].listId != listId then Fail(BadRequest, "Item not found")
    else Ok(table[itemId := ToggledItem(table, listId, table[itemId], target, now)])
  }

  /**
   * A toggle that changes the checked state moves the item after every other
   * item of its new group; one that keeps the state keeps the position. In
   * both cases the check time is now when checked and cleared when not, and
   * no other item changes.
   */
  lemma ToggleMovesToGroupEnd(table: map<ItemId, Item>, listId: ListId, itemId: ItemId, target: bool, now: int)
    requires Toggled(table, listId, itemId, target, now).Ok?
    ensures var t := Toggled(table, listId, itemId, target, now).value;
      t.Keys == table.Keys
      && (forall id :: id in t && id != itemId ==> t[id] == table[id])
      && t[itemId].isChecked == target
      && t[itemId].checkedAt == (if target then Some(now) else None)
      && (target != table[itemId].isChecked ==>
            forall id :: id in t && id != itemId && t[id].listId == listId && t[id].isChecked == target ==> t[id].sortIndex < t[itemId].sortIndex)
      && (target == table[itemId].isChecked ==> t[itemId].sortIndex == table[itemId].sortIndex)
      && t[itemId] == table[itemId].(isChecked := t[itemId].isChecked, checkedAt := t[itemId].checkedAt, sortIndex := t[itemId].sortIndex)
  {
  }

  /** Toggling keeps `isChecked` and `checkedAt` in agreement. */
  lemma ToggleKeepsCheckedConsistent(table: map<ItemId, Item>, listId: ListId, itemId: ItemId, target: bool, now: int)
    requires CheckedConsistent(table) && Toggled(table, listId, itemId, target, now).Ok?
    ensures CheckedConsistent(Toggled(table, listId, itemId, target, now).value)
  {
  }

  /** Toggling to the state an item is already in moves nothing: only the check time is refreshed. */
  lemma ToggleTwiceKeepsPosition(table: map<ItemId, Item>, listId: ListId, itemId: ItemId, target: bool, now: int, later: int)
    requires Toggled(table, listId, itemId, target, now).Ok?
    ensures var once := Toggled(table, listId, itemId, target, now).value;
      Toggled(once, listId, itemId, target, later).Ok?
      && Toggled(once, listId, itemId, target, later).value == once[itemId := once[itemId].(checkedAt := if target then Some(later) else None)]
  {
  }

  /** `toggleItem`: write access, then the toggle. The returned row is the stored item. */
  method ToggleItem(db: Db, kind: ItemKind, userId: UserId, listId: ListId, itemId: ItemId, target: bool, now: int)
    returns (r: Result<Row>)
    modifies db`shopping, db`tasks
    ensures var access := old(ListsAccess.Access(db.lists, db.listShares, db.members, userId, listId, Write));
      var toggled := Toggled(old(Table(db, kind)), listId, itemId, target, now);
      (access.Err? ==> r == Err(access.failure))
      && (access.Ok? && toggled.Err? ==> r == Err(toggled.failure))
      && (r.Ok? <==> access.Ok? && toggled.Ok?)
      && (r.Ok? ==> Table(db, kind) == toggled.value && r.value == (itemId, toggled.value[itemId]))
    ensures r.Err? ==> Table(db, kind) == old(Table(db, kind))
    ensures kind == ShoppingItems ==> db.tasks == old(db.tasks)
    ensures kind == TaskItems ==> db.shopping == old(db.shopping)
  {
    var access := ListsAccess.AssertAccess(db, userId, listId, Write);
    if access.Err? {
      return Err(access.failure);
    }
    var table := Table(db, kind);
    if itemId !in table || table[itemId].listId != listId {
      return Fail(BadRequest, "Item not found");
    }
    var item := table[itemId];
    var sortIndex := item.sortIndex;
    if target && !item.isChecked {
      sortIndex := AggregateNext(table, listId, true);
    }
    if !target && item.isChecked {
      sortIndex := AggregateNext(table, listId, false);
    }
    var updated := item.(isChecked := target, checkedAt := if target then Some(now) else None, sortIndex := sortIndex);
    var t := table[itemId := updated];
    if kind == ShoppingItems { db.shopping := t; } else { db.tasks := t; }
    r := Ok((itemId, updated));
  }

  // ---- removeItem ---------------------------------------------------------------------

  /** `removeItem` after the access check: the item must exist and belong to the list. */
  function Removed(table: map<ItemId, Item>, listId: ListId, itemId: ItemId): (r: Result<map<ItemId, Item>>)
    ensures r.Err? <==> itemId !in table || table[itemId].listId != listId
    ensures r.Err? ==> r.FailedWith(BadRequest, "Item not found")
    ensures r.Ok? ==> r.value.Keys == table.Keys - {itemId} && forall id :: id in r.value ==> r.value[id] == table[id]
  {
    if itemId !in table || table[itemId].listId != listId then Fail(BadRequest, "Item not found")
    else Ok(table - {itemId})
  }

  /** `removeItem`: write access, then the deletion. */
  method RemoveItem(db: Db, kind: ItemKind, userId: UserId, listId: ListId, itemId: ItemId) returns (r: Outcome)
    modifies db`shopping, db`tasks
    ensures var access := old(ListsAccess.Access(db.lists, db.listShares, db.members, userId, listId, Write));
      var removed := Removed(old(Table(db, kind)), listId, itemId);
      (access.Err? ==> r == Err(access.failure))
      && (access.Ok? && removed.Err? ==> r == Err(removed.failure))
      && (r.Ok? <==> access.Ok? && removed.Ok?)
      && (r.Ok? ==> Table(db, kind) == removed.value)
    ensures r.Err? ==> Table(db, kind) == old(Table(db, kind))
    ensures kind == ShoppingItems ==> db.tasks == old(db.tasks)
    ensures kind == TaskItems ==> db.shopping == old(db.shopping)
  {
    var access := ListsAccess.AssertAccess(db, userId, listId, Write);
    if access.Err? {
      return Err(access.failure);
    }
    var removed := Removed(Table(db, kind), listId, itemId);
    if removed.Err? {
      return Err(removed.failure);
    }
    if kind == ShoppingItems { db.shopping := removed.value; } else { db.tasks := removed.value; }
    r := Done;
  }

  // ---- reorderItems -------------------------------------------------------------------

  /** The 1-based position an id ends up with: its LAST occurrence, since later updates overwrite earlier ones. */
  function LastPosition(ids: seq<ItemId>, id: ItemId): (p: nat)
    requires id in ids
    ensures 1 <= p <= |ids| && ids[p - 1] == id
    ensures forall j :: p <= j < |ids| ==> ids[j] != id
  {
    if ids[|ids| - 1] == id then |ids| else LastPosition(ids[..|ids| - 1], id)
  }

  /** The sequence of updates `sortIndex: idx + 1`, one per id, applied in order. */
  function Positioned(table: map<ItemId, Item>, ids: seq<ItemId>): (t: map<ItemId, Item>)
    requires forall i :: 0 <= i < |ids| ==> ids[i] in table
    ensures t.Keys == table.Keys
  {
    if ids == [] then table
    else
      var t := Positioned(table, ids[..|ids| - 1]);
      var last := ids[|ids| - 1];
      t[last := t[last].(sortIndex := |ids|)]
  }

  /** Every named item gets the position of its last occurrence as sort index; the others are as they were. */
  lemma {:induction false} PositionedEffect(table: map<ItemId, Item>, ids: seq<ItemId>)
    requires forall i :: 0 <= i < |ids| ==> ids[i] in table
    ensures forall id :: id in table && id !in ids ==> Positioned(table, ids)[id] == table[id]
    ensures forall id :: id in ids ==> Positioned(table, ids)[id] == table[id].(sortIndex := LastPosition(ids, id))
  {
    if ids != [] {
      var front := ids[..|ids| - 1];
      var last := ids[|ids| - 1];
      PositionedEffect(table, front);
      FrontHolds(ids);
      forall id | id in ids && id != last
        ensures LastPosition(ids, id) == LastPosition(front, id)
      {
      }
    }
  }

  /** Every element of a non-empty sequence other than its last is in its front. */
  lemma FrontHolds<T>(s: seq<T>)
    requires s != []
    ensures forall x :: x in s && x != s[|s| - 1] ==> x in s[..|s| - 1]
  {
    assert s == s[..|s| - 1] + [s[|s| - 1]];
  }

  /**
   * `reorderItems` after the access check. The ids that exist must all belong
   * to the list and to the requested checked-state group; an id that does
   * not exist makes its update fail, which rolls the whole transaction back.
   */
  function Reordered(table: map<ItemId, Item>, listId: ListId, orderedIds: seq<ItemId>, checked: bool): (r: Result<map<ItemId, Item>>)
    ensures orderedIds == [] ==> r.FailedWith(BadRequest, "orderedIds is required")
    ensures orderedIds != [] && (exists i :: 0 <= i < |orderedIds| && orderedIds[i] in table && table[orderedIds[i]].listId != listId)
      ==> r.FailedWith(BadRequest, "Some items do not belong to list")
    ensures r.Ok? <==> orderedIds != [] && forall i :: 0 <= i < |orderedIds| ==>
      orderedIds[i] in table && table[orderedIds[i]].listId == listId && table[orderedIds[i]].isChecked == checked
    ensures orderedIds != [] && (forall i :: 0 <= i < |orderedIds| && orderedIds[i] in table ==> table[orderedIds[i]].listId == listId)
      && (exists i :: 0 <= i < |orderedIds| && orderedIds[i] in table && table[orderedIds[i]].isChecked != checked)
      ==> r.FailedWith(BadRequest, "checked-group mismatch")
    ensures orderedIds != [] && (forall i :: 0 <= i < |orderedIds| && orderedIds[i] in table ==>
        table[orderedIds[i]].listId == listId && table[orderedIds[i]].isChecked == checked)
      && (exists i :: 0 <= i < |orderedIds| && orderedIds[i] !in table)
      ==> r == Err(RecordNotFound)
    ensures r.Ok? ==> r.value == Positioned(table, orderedIds)
  {
    if orderedIds == [] then Fail(BadRequest, "orderedIds is required")
    else if exists i :: 0 <= i < |orderedIds| && orderedIds[i] in table && table[orderedIds[i]].listId != listId then
      Fail(BadRequest, "Some items do not belong to list")
    else if exists i :: 0 <= i < |orderedIds| && orderedIds[i] in table && table[orderedIds[i]].isChecked != checked then
      Fail(BadRequest, "checked-group mismatch")
    else if exists i :: 0 <= i < |orderedIds| && orderedIds[i] !in table then
      Err(RecordNotFound)
    else
      Ok(Positioned(table, orderedIds))
  }

  /**
   * Without repeated ids, a reorder numbers the given items 1, 2, ... in the
   * given order and changes nothing else.
   */
  lemma ReorderNumbersInOrder(table: map<ItemId, Item>, listId: ListId, orderedIds: seq<ItemId>, checked: bool)
    requires Reordered(table, listId, orderedIds, checked).Ok? && Distinct(orderedIds)
    ensures var t := Reordered(table, listId, orderedIds, checked).value;
      t.Keys == table.Keys
      && (forall i :: 0 <= i < |orderedIds| ==> t[orderedIds[i]] == table[orderedIds[i]].(sortIndex := i + 1))
      && (forall id :: id in t && id !in orderedIds ==> t[id] == table[id])
  {
    PositionsInOrder(table, orderedIds);
    PositionedEffect(table, orderedIds);
  }

  /** Without repeated ids, the last occurrence of each id is its only one. */
  lemma PositionsInOrder(table: map<ItemId, Item>, ids: seq<ItemId>)
    requires (forall i :: 0 <= i < |ids| ==> ids[i] in table) && Distinct(ids)
    ensures forall i :: 0 <= i < |ids| ==> Positioned(table, ids)[ids[i]] == table[ids[i]].(sortIndex := i + 1)
  {
    PositionedEffect(table, ids);
    var t := Positioned(table, ids);
    forall i | 0 <= i < |ids| ensures t[ids[i]] == table[ids[i]].(sortIndex := i + 1) {
      DistinctLastPosition(ids, i);
    }
  }

  /** In a sequence without repeats an element's last position is its only one. */
  lemma DistinctLastPosition(ids: seq<ItemId>, i: nat)
    requires Distinct(ids) && i < |ids|
    ensures LastPosition(ids, ids[i]) == i + 1
  {
    var p := LastPosition(ids, ids[i]);
    assert ids[p - 1] == ids[i];
  }

  /** The transaction: one update per id, in order. */
  method ApplyPositions(table: map<ItemId, Item>, ids: seq<ItemId>) returns (t: map<ItemId, Item>)
    requires forall i :: 0 <= i < |ids| ==> ids[i] in table
    ensures t == Positioned(table, ids)
  {
    t := table;
    for idx := 0 to |ids|
      invariant t == Positioned(table, ids[..idx])
    {
      assert ids[..idx + 1][..idx] == ids[..idx];
      t := t[ids[idx] := t[ids[idx]].(sortIndex := idx + 1)];
    }
    assert ids[..|ids|] == ids;
  }

  /** `reorderItems`: write access, the checks, then the transaction. */
  method ReorderItems(db: Db, kind: ItemKind, userId: UserId, listId: ListId, orderedIds: seq<ItemId>, checked: bool)
    returns (r: Outcome)
    modifies db`shopping, db`tasks
    ensures var access := old(ListsAccess.Access(db.lists, db.listShares, db.members, userId, listId, Write));
      var reordered := Reordered(old(Table(db, kind)), listId, orderedIds, checked);
      (access.Err? ==> r == Err(access.failure))
      && (access.Ok? && reordered.Err? ==> r == Err(reordered.failure))
      && (r.Ok? <==> access.Ok? && reordered.Ok?)
      && (r.Ok? ==> Table(db, kind) == reordered.value)
    ensures r.Err? ==> Table(db, kind) == old(Table(db, kind))
    ensures kind == ShoppingItems ==> db.tasks == old(db.tasks)
    ensures kind == TaskItems ==> db.shopping == old(db.shopping)
  {
    var access := ListsAccess.AssertAccess(db, userId, listId, Write);
    if access.Err? {
      return Err(access.failure);
    }
    var table := Table(db, kind);
    var reordered := Reordered(table, listId, orderedIds, checked);
    if reordered.Err? {
      return Err(reordered.failure);
    }
    var t := ApplyPositions(table, orderedIds);
    if kind == ShoppingItems { db.shopping := t; } else { db.tasks := t; }
    r := Done;
  }
}
