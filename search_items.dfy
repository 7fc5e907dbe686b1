/**
 * `SearchItemsService.searchItems`: the validation of the query, the list
 * filter built for the search scope, the item match on normalized keys, and
 * the shape of the results (shopping results, with their quantity, before
 * task results).
 */
module SearchItems {
  import opened Common
  import opened Errors
  import opened Store
  import Text
  import NormalizeKey
  import Query
  import BaseItems
  import Lists

  datatype SearchScope = AllScope | PersonalScope | FamilyScope

  /** The query string parameters; every one of them may be absent. */
  datatype SearchQuery = SearchQuery(query: Option<string>, listType: Option<ListType>, scope: Option<SearchScope>, familyId: Option<FamilyId>)

  /** A truthy family id: present and not empty. */
  predicate HasFamilyId(q: SearchQuery) {
    q.familyId.Some? && q.familyId.value != ""
  }

  /** The accepted query: its trimmed text and its scope, ALL when none was given. */
  datatype Accepted = Accepted(text: string, scope: SearchScope)

  /** The query text with surrounding whitespace removed; an absent query is empty. */
  function QueryText(q: SearchQuery): string {
    Text.Trim(q.query.GetOr(""))
  }

  /** Lines 17-28: the trimmed query must not be empty, and the family scope needs a family. */
  function Validate(q: SearchQuery): (r: Result<Accepted>)
    ensures r.Ok? <==> QueryText(q) != "" && (q.scope == Some(FamilyScope) ==> HasFamilyId(q))
    ensures r.Err? ==> r.FailedWith(BadRequest, if QueryText(q) == "" then "query is required" else "familyId is required for scope=family")
    ensures r.Ok? ==> r.value.text == QueryText(q) && r.value.scope == q.scope.GetOr(AllScope)
  {
    var text := QueryText(q);
    if text == "" then Fail(BadRequest, "query is required")
    else
      var scope := q.scope.GetOr(AllScope);
      if scope == FamilyScope && !HasFamilyId(q) then Fail(BadRequest, "familyId is required for scope=family")
      else Ok(Accepted(text, scope))
  }

  // ---- the list filter -------------------------------------------------------------------

  /** The `familyShares` part of a Prisma list filter. */
  datatype SharesWhere =
    | AnyShares
    | NoShares                                              // `{ none: {} }`
    | ShareOfMember(familyId: FamilyId, memberId: UserId)   // `{ some: { familyId, family: { members: { some: { userId } } } } }`

  /** The `listWhere` record: each field is absent until the service sets it. */
  datatype ListWhere = ListWhere(
    listType: Option<ListType>,
    ownerId: Option<UserId>,
    familyShares: SharesWhere,
    ownedOrShared: Option<UserId>)   // `OR: [{ ownerId }, { familyShares: { some: { family: { members: { some: { userId } } } } } }]`

  predicate SharesMatch(w: SharesWhere, listShares: set<(ListId, FamilyId)>, members: map<(FamilyId, UserId), Member>, id: ListId) {
    match w
    case AnyShares => true
    case NoShares => forall p :: p in listShares ==> p.0 != id
    case ShareOfMember(familyId, memberId) => (id, familyId) in listShares && (familyId, memberId) in members
  }

  /** How Prisma evaluates a list filter on one list row. */
  predicate Matches(w: ListWhere, listShares: set<(ListId, FamilyId)>, members: map<(FamilyId, UserId), Member>, id: ListId, row: ListRow) {
    && (w.listType.Some? ==> row.listType == w.listType.value)
    && (w.ownerId.Some? ==> row.ownerId == w.ownerId.value)
    && SharesMatch(w.familyShares, listShares, members, id)
    && (w.ownedOrShared.Some? ==> row.ownerId == w.ownedOrShared.value || Lists.SharedWithMember(listShares, members, w.ownedOrShared.value, id))
  }

  /**
   * The lists a search covers: PERSONAL is the user's own lists shared with
   * nobody; FAMILY is the lists shared with that family, if the user belongs
   * to it; ALL is the user's own lists and the lists shared with any family
   * of the user. A type narrows each scope to lists of that type.
   */
  predicate Covered(listShares: set<(ListId, FamilyId)>, members: map<(FamilyId, UserId), Member>, userId: UserId,
                    listType: Option<ListType>, scope: SearchScope, familyId: FamilyId, id: ListId, row: ListRow) {
    && (listType.None? || row.listType == listType.value)
    && match scope
       case PersonalScope => row.ownerId == userId && SharesOf(listShares, id) == {}
       case FamilyScope => familyId in SharesOf(listShares, id) && RoleIn(members, familyId, userId).Some?
       case AllScope => row.ownerId == userId || exists f :: f in SharesOf(listShares, id) && RoleIn(members, f, userId).Some?
  }

  /** Lines 31-49: the filter assembled field by field for the scope. */
  method BuildWhere(userId: UserId, listType: Option<ListType>, scope: SearchScope, familyId: FamilyId) returns (w: ListWhere)
    ensures forall listShares: set<(ListId, FamilyId)>, members: map<(FamilyId, UserId), Member>, id: ListId, row: ListRow ::
      Matches(w, listShares, members, id, row) <==> Covered(listShares, members, userId, listType, scope, familyId, id, row)
  {
    w := ListWhere(None, None, AnyShares, None);
    if listType.Some? {
      w := w.(listType := listType);
    }
    if scope == PersonalScope {
      w := w.(ownerId := Some(userId));
      w := w.(familyShares := NoShares);
    } else if scope == FamilyScope {
      w := w.(familyShares := ShareOfMember(familyId, userId));
    } else {
      w := w.(ownedOrShared := Some(userId));
    }
    forall listShares: set<(ListId, FamilyId)>, members: map<(FamilyId, UserId), Member>, id: ListId, row: ListRow
      ensures Matches(w, listShares, members, id, row) <==> Covered(listShares, members, userId, listType, scope, familyId, id, row)
    {
      if scope == PersonalScope {
        assert SharesOf(listShares, id) == {} <==> forall p :: p in listShares ==> p.0 != id by {
          if exists p :: p in listShares && p.0 == id {
            var p :| p in listShares && p.0 == id;
            assert p.1 in SharesOf(listShares, id);
          }
        }
      } else if scope == FamilyScope {
        assert (id, familyId) in listShares <==> familyId in SharesOf(listShares, id);
      } else {
        assert Lists.SharedWithMember(listShares, members, userId, id) <==>
          exists f :: f in SharesOf(listShares, id) && RoleIn(members, f, userId).Some? by {
          if Lists.SharedWithMember(listShares, members, userId, id) {
            var p :| p in listShares && p.0 == id && (p.1, userId) in members;
            assert p.1 in SharesOf(listShares, id);
          }
        }
      }
    }
  }

  // ---- the item search -------------------------------------------------------------------

  /** One search hit; `quantity` is present on shopping hits only. */
  datatype SearchResult = SearchResult(
    id: ItemId, listId: ListId, title: string, isChecked: bool, sortIndex: int,
    listType: ListType, listName: string, quantity: Option<int>)

  /** The item belongs to one of the lists and its normalized key contains the normalized query. */
  predicate Hit(listIds: set<ListId>, key: string, item: Item) {
    item.listId in listIds && Text.Includes(item.normalizedKey, key)
  }

  /**
   * `findMany({ where: { listId: { in: listIds }, normalizedKey: { contains } }, orderBy })`:
   * every hit of the table, each once, unchecked first, then by `sortIndex`, then by `createdAt`.
   */
  method FindHits(table: map<ItemId, Item>, listIds: set<ListId>, key: string) returns (rows: seq<BaseItems.Row>)
    ensures Query.SortedBy(rows, BaseItems.ListOrder)
    ensures forall i :: 0 <= i < |rows| ==> rows[i].0 in table && table[rows[i].0] == rows[i].1 && Hit(listIds, key, rows[i].1)
    ensures forall id :: id in table && Hit(listIds, key, table[id]) ==> (id, table[id]) in rows
    ensures forall i, j :: 0 <= i < j < |rows| ==> rows[i].0 != rows[j].0
  {
    var found := Query.FindMany(table, (id: ItemId, it: Item) => Hit(listIds, key, it));
    BaseItems.ListOrderIsTotalPreorder();
    rows := Query.OrderBy(found, BaseItems.ListOrder);
    Query.OrderByKeepsKeysDistinct(found, BaseItems.ListOrder);
    forall x | true ensures x in rows <==> x in found {
      Query.OrderByKeepsRows(found, BaseItems.ListOrder, x);
    }
    forall i | 0 <= i < |rows| ensures rows[i].0 in table && table[rows[i].0] == rows[i].1 && Hit(listIds, key, rows[i].1) {
      assert rows[i] in found;
    }
  }

  /** The result shape of a shopping hit: its list's name (empty when the list is unknown) and its quantity. */
  function ShoppingResult(listById: map<ListId, ListRow>, row: BaseItems.Row): SearchResult {
    var item := row.1;
    SearchResult(row.0, item.listId, item.title, item.isChecked, item.sortIndex, ShoppingList,
                 if item.listId in listById then listById[item.listId].name else "",
                 Some(if item.detail.ShoppingDetail? then item.detail.quantity else 1))
  }

  /** The result shape of a task hit: no quantity. */
  function TaskResult(listById: map<ListId, ListRow>, row: BaseItems.Row): SearchResult {
    var item := row.1;
    SearchResult(row.0, item.listId, item.title, item.isChecked, item.sortIndex, TaskList,
                 if item.listId in listById then listById[item.listId].name else "", None)
  }

  /** The results of one kind, in the order of the hits. */
  function Shaped(listById: map<ListId, ListRow>, rows: seq<BaseItems.Row>, kind: ListType): (r: seq<SearchResult>)
    ensures |r| == |rows|
    ensures forall i :: 0 <= i < |r| ==> r[i].listType == kind && r[i].id == rows[i].0 && r[i].listId == rows[i].1.listId
    ensures forall i :: 0 <= i < |r| ==> (r[i].quantity.Some? <==> kind == ShoppingList)
  {
    seq(|rows|, i requires 0 <= i < |rows| => if kind == ShoppingList then ShoppingResult(listById, rows[i]) else TaskResult(listById, rows[i]))
  }

  /** The hits of a table with the results built from them: the `findMany` then the `map`. */
  ghost predicate HitsOf(table: map<ItemId, Item>, listIds: set<ListId>, key: string, rows: seq<BaseItems.Row>) {
    && Query.SortedBy(rows, BaseItems.ListOrder)
    && (forall i :: 0 <= i < |rows| ==> rows[i].0 in table && table[rows[i].0] == rows[i].1 && Hit(listIds, key, rows[i].1))
    && (forall id :: id in table && Hit(listIds, key, table[id]) ==> (id, table[id]) in rows)
    && (forall i, j :: 0 <= i < j < |rows| ==> rows[i].0 != rows[j].0)
  }

  /** Results of the same kind come in the listing order's first two keys. */
  predicate ResultOrder(a: SearchResult, b: SearchResult) {
    (!a.isChecked && b.isChecked) || (a.isChecked == b.isChecked && a.sortIndex <= b.sortIndex)
  }

  lemma ShapedKeepsOrder(listById: map<ListId, ListRow>, rows: seq<BaseItems.Row>, kind: ListType)
    requires Query.SortedBy(rows, BaseItems.ListOrder)
    ensures var r := Shaped(listById, rows, kind); forall i, j :: 0 <= i < j < |r| ==> ResultOrder(r[i], r[j])
  {
    var r := Shaped(listById, rows, kind);
    forall i, j | 0 <= i < j < |r| ensures ResultOrder(r[i], r[j]) {
      assert BaseItems.ListOrder(rows[i], rows[j]);
    }
  }

  /** The ids of the list rows `findMany` returned. */
  function IdsOf(lists: seq<(ListId, ListRow)>): set<ListId> {
    set i | 0 <= i < |lists| :: lists[i].0
  }

  /** The ids of every list the search covers. */
  ghost function CoveredIds(db: Db, userId: UserId, listType: Option<ListType>, scope: SearchScope, familyId: FamilyId): set<ListId>
    reads db
  {
    set id | id in db.lists && Covered(db.listShares, db.members, userId, listType, scope, familyId, id, db.lists[id])
  }

  /** Lines 31-58: the lists matching the filter built for the scope, as a set of ids. */
  method FindCovered(db: Db, userId: UserId, listType: Option<ListType>, scope: SearchScope, familyId: FamilyId) returns (listIds: set<ListId>)
    ensures listIds == CoveredIds(db, userId, listType, scope, familyId)
  {
    var listWhere := BuildWhere(userId, listType, scope, familyId);
    var listShares, members := db.listShares, db.members;
    var lists := Query.FindMany(db.lists, (id: ListId, row: ListRow) => Matches(listWhere, listShares, members, id, row));
    listIds := IdsOf(lists);
    forall id | id in CoveredIds(db, userId, listType, scope, familyId) ensures id in listIds {
      assert Matches(listWhere, listShares, members, id, db.lists[id]);
      var i :| 0 <= i < |lists| && lists[i] == (id, db.lists[id]);
    }
  }

  /**
   * What a search returns once the covered lists are known: nothing when no
   * list is covered; otherwise the hits of the requested kind, or the shopping
   * hits followed by the task hits.
   */
  ghost predicate Answered(db: Db, listType: Option<ListType>, covered: set<ListId>, key: string, results: seq<SearchResult>)
    reads db
  {
    if covered == {} then results == []
    else if listType == Some(TaskList) then
      exists rows :: HitsOf(db.tasks, covered, key, rows) && results == Shaped(db.lists, rows, TaskList)
    else if listType == Some(ShoppingList) then
      exists rows :: HitsOf(db.shopping, covered, key, rows) && results == Shaped(db.lists, rows, ShoppingList)
    else
      exists shopping, tasks :: HitsOf(db.shopping, covered, key, shopping) && HitsOf(db.tasks, covered, key, tasks)
        && results == Shaped(db.lists, shopping, ShoppingList) + Shaped(db.lists, tasks, TaskList)
  }

  /** Lines 60-133: the item searches for the covered lists, shaped into results. */
  method Collect(db: Db, listType: Option<ListType>, listIds: set<ListId>, key: string) returns (results: seq<SearchResult>)
    requires listIds != {}
    ensures Answered(db, listType, listIds, key, results)
  {
    if listType == Some(TaskList) {
      var rows := FindHits(db.tasks, listIds, key);
      assert HitsOf(db.tasks, listIds, key, rows);
      return Shaped(db.lists, rows, TaskList);
    }
    if listType == Some(ShoppingList) {
      var rows := FindHits(db.shopping, listIds, key);
      assert HitsOf(db.shopping, listIds, key, rows);
      return Shaped(db.lists, rows, ShoppingList);
    }
    var shopping := FindHits(db.shopping, listIds, key);
    var tasks := FindHits(db.tasks, listIds, key);
    assert HitsOf(db.shopping, listIds, key, shopping) && HitsOf(db.tasks, listIds, key, tasks);
    results := Shaped(db.lists, shopping, ShoppingList) + Shaped(db.lists, tasks, TaskList);
  }

  /**
   * `searchItems`: validation, the covered lists, then the hits of the
   * requested kind, or of both kinds with the shopping hits first.
   */
  method SearchItems(db: Db, userId: UserId, q: SearchQuery) returns (r: Result<seq<SearchResult>>)
    ensures Validate(q).Err? <==> r.Err?
    ensures r.Err? ==> r == Err(Validate(q).failure)
    ensures r.Ok? ==> var a := Validate(q).value;
      Answered(db, q.listType, CoveredIds(db, userId, q.listType, a.scope, q.familyId.GetOr("")), NormalizeKey.Normalize(a.text), r.value)
  {
    var accepted := Validate(q);
    if accepted.Err? {
      return Err(accepted.failure);
    }
    var listIds := FindCovered(db, userId, q.listType, accepted.value.scope, q.familyId.GetOr(""));
    if listIds == {} {
      return Ok([]);
    }
    var key := NormalizeKey.Normalize(accepted.value.text);
    var results := Collect(db, q.listType, listIds, key);
    r := Ok(results);
  }

  /** When both kinds are searched, no task result comes before a shopping result. */
  lemma ShoppingFirst(listById: map<ListId, ListRow>, shopping: seq<BaseItems.Row>, tasks: seq<BaseItems.Row>)
    ensures var r := Shaped(listById, shopping, ShoppingList) + Shaped(listById, tasks, TaskList);
      forall i, j :: 0 <= i < j < |r| && r[i].listType == TaskList ==> r[j].listType == TaskList
  {
  }

  /** A user outside the family finds nothing with the family scope. */
  lemma FamilyScopeNeedsMembership(listShares: set<(ListId, FamilyId)>, members: map<(FamilyId, UserId), Member>, userId: UserId,
                                   listType: Option<ListType>, familyId: FamilyId, id: ListId, row: ListRow)
    requires (familyId, userId) !in members
    ensures !Covered(listShares, members, userId, listType, FamilyScope, familyId, id, row)
  {
  }

  /** The personal scope never covers a shared list, nor another user's list. */
  lemma PersonalScopeIsPrivate(listShares: set<(ListId, FamilyId)>, members: map<(FamilyId, UserId), Member>, userId: UserId,
                               listType: Option<ListType>, familyId: FamilyId, id: ListId, row: ListRow)
    requires Covered(listShares, members, userId, listType, PersonalScope, familyId, id, row)
    ensures row.ownerId == userId && forall f :: (id, f) !in listShares
  {
    forall f ensures (id, f) !in listShares {
      assert (id, f) in listShares ==> f in SharesOf(listShares, id);
    }
  }
}
