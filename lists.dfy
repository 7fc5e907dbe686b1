/**
 * `ListsService`: which lists a user sees, list creation with its defaults,
 * deletion with its cascade, family sharing and the 0-based list reorder.
 */
module Lists {
  import opened Common
  import opened Errors
  import opened Store
  import Query
  import ListsAccess
  import Reorder

  type ListView = ListsAccess.ListWithShares

  /** A list row as returned with `include: { familyShares: true }`. */
  function View(listShares: set<(ListId, FamilyId)>, id: ListId, row: ListRow): ListView {
    ListsAccess.ListWithShares(id, row, SharesOf(listShares, id))
  }

  // ---------------------------------------------------------------- listMyLists

  /** The `familyId` filter: absent, `null` (personal lists only) or a family id. */
  datatype FamilyFilter = AnyScope | PersonalOnly | OfFamily(familyId: FamilyId)

  /** The branch a filter takes: an empty family id is falsy and falls through to the unfiltered case. */
  function Branch(filter: FamilyFilter): FamilyFilter {
    if filter.OfFamily? && filter.familyId == "" then AnyScope else filter
  }

  predicate TypeMatches(row: ListRow, listType: Option<ListType>) {
    listType.None? || row.listType == listType.value
  }

  /** The list is shared with a family the user belongs to, in any role. */
  predicate SharedWithMember(listShares: set<(ListId, FamilyId)>, members: map<(FamilyId, UserId), Member>, userId: UserId, listId: ListId) {
    exists share :: share in listShares && share.0 == listId && (share.1, userId) in members
  }

  /** The `where` clause of each branch of `listMyLists`. */
  predicate InScope(listShares: set<(ListId, FamilyId)>, members: map<(FamilyId, UserId), Member>, userId: UserId,
                    listType: Option<ListType>, filter: FamilyFilter, id: ListId, row: ListRow)
  {
    TypeMatches(row, listType)
    && match Branch(filter)
       case PersonalOnly => row.ownerId == userId && SharesOf(listShares, id) == {}
       case OfFamily(f) => (id, f) in listShares && (f, userId) in members
       case AnyScope => row.ownerId == userId || SharedWithMember(listShares, members, userId, id)
  }

  /** `orderBy: [{ sortIndex: "asc" }, { createdAt: "asc" }]` on two list rows. */
  predicate Before(a: ListRow, b: ListRow) {
    a.sortIndex < b.sortIndex || (a.sortIndex == b.sortIndex && a.createdAt <= b.createdAt)
  }

  predicate RowOrder(a: (ListId, ListRow), b: (ListId, ListRow)) {
    Before(a.1, b.1)
  }

  lemma RowOrderIsTotalPreorder()
    ensures Query.IsTotalPreorder(RowOrder)
  {
  }

  ghost predicate SortedViews(vs: seq<ListView>) {
    forall i, j :: 0 <= i < j < |vs| ==> Before(vs[i].row, vs[j].row)
  }

  ghost predicate UniqueIds(vs: seq<ListView>) {
    forall i, j :: 0 <= i < j < |vs| ==> vs[i].id != vs[j].id
  }

  /** Each view is the stored list with its shares. */
  ghost predicate Current(vs: seq<ListView>, lists: map<ListId, ListRow>, listShares: set<(ListId, FamilyId)>) {
    forall i :: 0 <= i < |vs| ==> vs[i].id in lists && vs[i] == View(listShares, vs[i].id, lists[vs[i].id])
  }

  function Views(listShares: set<(ListId, FamilyId)>, rows: seq<(ListId, ListRow)>): (vs: seq<ListView>)
    ensures |vs| == |rows| && forall i :: 0 <= i < |rows| ==> vs[i] == View(listShares, rows[i].0, rows[i].1)
  {
    seq(|rows|, i requires 0 <= i < |rows| => View(listShares, rows[i].0, rows[i].1))
  }

  /** The rows that pass `keep`, in `sortIndex`, `createdAt` order. */
  method OrderedRows(lists: map<ListId, ListRow>, keep: (ListId, ListRow) -> bool) returns (sorted: seq<(ListId, ListRow)>)
    ensures forall i :: 0 <= i < |sorted| ==> sorted[i].0 in lists && lists[sorted[i].0] == sorted[i].1 && keep(sorted[i].0, sorted[i].1)
    ensures forall id :: id in lists && keep(id, lists[id]) ==> (id, lists[id]) in sorted
    ensures forall i, j :: 0 <= i < j < |sorted| ==> sorted[i].0 != sorted[j].0
    ensures Query.SortedBy(sorted, RowOrder)
  {
    var rows := Query.FindMany(lists, keep);
    RowOrderIsTotalPreorder();
    sorted := Query.OrderBy(rows, RowOrder);
    Query.OrderByKeepsKeysDistinct(rows, RowOrder);
    forall x ensures x in sorted <==> x in rows { Query.OrderByKeepsRows(rows, RowOrder, x); }
    forall i | 0 <= i < |sorted|
      ensures sorted[i].0 in lists && lists[sorted[i].0] == sorted[i].1 && keep(sorted[i].0, sorted[i].1)
    {
      assert sorted[i] in rows;
    }
  }

  /** One ordered `findMany` with `include: { familyShares: true }`. */
  method FindOrdered(lists: map<ListId, ListRow>, listShares: set<(ListId, FamilyId)>, keep: (ListId, ListRow) -> bool)
    returns (vs: seq<ListView>)
    ensures Current(vs, lists, listShares)
    ensures forall i :: 0 <= i < |vs| ==> keep(vs[i].id, vs[i].row)
    ensures forall id :: id in lists && keep(id, lists[id]) ==> exists i :: 0 <= i < |vs| && vs[i].id == id
    ensures UniqueIds(vs) && SortedViews(vs)
  {
    var sorted := OrderedRows(lists, keep);
    vs := Views(listShares, sorted);
    forall id | id in lists && keep(id, lists[id]) ensures exists i :: 0 <= i < |vs| && vs[i].id == id {
      var i :| 0 <= i < |sorted| && sorted[i] == (id, lists[id]);
      assert vs[i].id == id;
    }
  }

  function IdColumn(vs: seq<ListView>): (ids: seq<ListId>)
    ensures |ids| == |vs| && forall i :: 0 <= i < |vs| ==> ids[i] == vs[i].id
  {
    seq(|vs|, i requires 0 <= i < |vs| => vs[i].id)
  }

  /** The keys of a JavaScript `Map` once `set` has been called with `ids` in order: each id once, where it first occurred. */
  function FirstIds(ids: seq<ListId>): (r: seq<ListId>)
    ensures Distinct(r) && forall x :: x in r <==> x in ids
  {
    if ids == [] then []
    else
      var front := ids[..|ids| - 1];
      var last := ids[|ids| - 1];
      assert ids == front + [last];
      var f := FirstIds(front);
      if last in f then f else f + [last]
  }

  /** The ids of `ids` outside `excluded`, in order. */
  function Without(ids: seq<ListId>, excluded: set<ListId>): (r: seq<ListId>)
    ensures forall x :: x in r <==> x in ids && x !in excluded
  {
    if ids == [] then []
    else
      var front := ids[..|ids| - 1];
      var last := ids[|ids| - 1];
      assert ids == front + [last];
      Without(front, excluded) + (if last in excluded then [] else [last])
  }

  /** One more `set`: a new id joins the keys at the end, a known one stays where it is. */
  lemma FirstIdsSnoc(ids: seq<ListId>, x: ListId)
    ensures FirstIds(ids + [x]) == if x in FirstIds(ids) then FirstIds(ids) else FirstIds(ids) + [x]
  {
    assert (ids + [x])[..|ids|] == ids;
  }

  lemma {:induction false} FirstIdsOfDistinct(ids: seq<ListId>)
    requires Distinct(ids)
    ensures FirstIds(ids) == ids
  {
    if ids != [] {
      var front := ids[..|ids| - 1];
      DistinctFront(ids);
      FirstIdsOfDistinct(front);
      assert ids == front + [ids[|ids| - 1]];
    }
  }

  /**
   * Setting the ids of `a`, then those of `b`, both without repeats, leaves
   * the keys `a` followed by the ids of `b` that are not in `a`.
   */
  lemma {:induction false} FirstIdsAppend(a: seq<ListId>, b: seq<ListId>)
    requires Distinct(a) && Distinct(b)
    ensures FirstIds(a + b) == a + Without(b, Elements(a))
  {
    if b == [] {
      assert a + b == a;
      FirstIdsOfDistinct(a);
    } else {
      var front := b[..|b| - 1];
      var last := b[|b| - 1];
      DistinctFront(b);
      FirstIdsAppend(a, front);
      assert b == front + [last];
      assert a + b == (a + front) + [last];
      FirstIdsAppendStep(a, front, last);
    }
  }

  /** The step of `FirstIdsAppend`: one more id of `b`, new to `b`. */
  lemma FirstIdsAppendStep(a: seq<ListId>, front: seq<ListId>, last: ListId)
    requires last !in front
    requires FirstIds(a + front) == a + Without(front, Elements(a))
    ensures FirstIds((a + front) + [last]) == a + Without(front + [last], Elements(a))
  {
    FirstIdsSnoc(a + front, last);
    WithoutSnoc(front, last, Elements(a));
    if last in a {
      KnownStep(a, front, last);
    } else {
      NewStep(a, front, last);
    }
  }

  lemma KnownStep(a: seq<ListId>, front: seq<ListId>, last: ListId)
    requires last in a
    requires FirstIds(a + front) == a + Without(front, Elements(a))
    ensures last in FirstIds(a + front) && last in Elements(a)
  {
  }

  lemma NewStep(a: seq<ListId>, front: seq<ListId>, last: ListId)
    requires last !in front && last !in a
    requires FirstIds(a + front) == a + Without(front, Elements(a))
    ensures last !in FirstIds(a + front) && last !in Elements(a)
    ensures a + (Without(front, Elements(a)) + [last]) == FirstIds(a + front) + [last]
  {
    assert last !in Without(front, Elements(a));
  }

  lemma WithoutSnoc(ids: seq<ListId>, x: ListId, excluded: set<ListId>)
    ensures Without(ids + [x], excluded) == Without(ids, excluded) + (if x in excluded then [] else [x])
  {
    assert (ids + [x])[..|ids|] == ids;
  }

  /** The ids outside `excluded` of a sequence without repeats have no repeats. */
  lemma {:induction false} WithoutDistinct(ids: seq<ListId>, excluded: set<ListId>)
    requires Distinct(ids)
    ensures Distinct(Without(ids, excluded))
  {
    if ids != [] {
      var front := ids[..|ids| - 1];
      DistinctFront(ids);
      WithoutDistinct(front, excluded);
      assert ids == front + [ids[|ids| - 1]];
    }
  }

  /** The ids are in `sortIndex`, `createdAt` order of their stored lists. */
  ghost predicate SortedIds(ids: seq<ListId>, lists: map<ListId, ListRow>) {
    forall i, j :: 0 <= i < j < |ids| && ids[i] in lists && ids[j] in lists ==> Before(lists[ids[i]], lists[ids[j]])
  }

  lemma {:induction false} WithoutKeepsOrder(ids: seq<ListId>, excluded: set<ListId>, lists: map<ListId, ListRow>)
    requires SortedIds(ids, lists)
    ensures SortedIds(Without(ids, excluded), lists)
  {
    if ids != [] {
      var front := ids[..|ids| - 1];
      var last := ids[|ids| - 1];
      assert SortedIds(front, lists) by {
        forall i, j | 0 <= i < j < |front| && front[i] in lists && front[j] in lists
          ensures Before(lists[front[i]], lists[front[j]])
        {
          assert front[i] == ids[i] && front[j] == ids[j];
        }
      }
      WithoutKeepsOrder(front, excluded, lists);
      forall x | x in Without(front, excluded) && x in lists && last in lists ensures Before(lists[x], lists[last]) {
        var k :| 0 <= k < |front| && front[k] == x;
        assert ids[k] == x;
      }
    }
  }

  /**
   * `for (const l of rows) byId.set(l.id, l)` then `Array.from(byId.values())`:
   * one row per id, in the order the ids first occurred.
   */
  method DedupById(rows: seq<ListView>, ghost lists: map<ListId, ListRow>, ghost listShares: set<(ListId, FamilyId)>)
    returns (r: seq<ListView>)
    requires Current(rows, lists, listShares)
    ensures Current(r, lists, listShares)
    ensures IdColumn(r) == FirstIds(IdColumn(rows))
  {
    var order, byId := IndexById(rows, lists, listShares);
    r := ValuesInOrder(order, byId);
    StoredValues(order, byId, lists, listShares);
  }

  /** The loop of `DedupById`: the map's keys in their order of insertion, and the map itself. */
  method IndexById(rows: seq<ListView>, ghost lists: map<ListId, ListRow>, ghost listShares: set<(ListId, FamilyId)>)
    returns (order: seq<ListId>, byId: map<ListId, ListView>)
    requires Current(rows, lists, listShares)
    ensures order == FirstIds(IdColumn(rows))
    ensures (forall k :: k in order ==> k in byId) && Stored(byId, lists, listShares)
  {
    ghost var ids := IdColumn(rows);
    order, byId := [], map[];
    for i := 0 to |rows|
      invariant order == FirstIds(ids[..i])
      invariant forall k :: k in order ==> k in byId
      invariant forall k :: k in byId ==> k in order
      invariant Stored(byId, lists, listShares)
    {
      IndexStep(ids, i, order, byId, rows[i], lists, listShares);
      if rows[i].id !in byId {
        order := order + [rows[i].id];
      }
      byId := byId[rows[i].id := rows[i]];
    }
    assert ids[..|rows|] == ids;
  }

  /** One iteration of `IndexById`: the next row is stored under its id, which joins the keys if it is new. */
  lemma IndexStep(ids: seq<ListId>, i: nat, order: seq<ListId>, byId: map<ListId, ListView>, v: ListView,
                  lists: map<ListId, ListRow>, listShares: set<(ListId, FamilyId)>)
    requires i < |ids| && ids[i] == v.id && order == FirstIds(ids[..i])
    requires (forall k :: k in order ==> k in byId) && (forall k :: k in byId ==> k in order)
    requires Stored(byId, lists, listShares) && v.id in lists && v == View(listShares, v.id, lists[v.id])
    ensures var next := if v.id in byId then order else order + [v.id];
      && next == FirstIds(ids[..i + 1])
      && (forall k :: k in next ==> k in byId[v.id := v]) && (forall k :: k in byId[v.id := v] ==> k in next)
    ensures Stored(byId[v.id := v], lists, listShares)
  {
    assert ids[..i + 1] == ids[..i] + [ids[i]];
    FirstIdsSnoc(ids[..i], ids[i]);
    StoredStep(byId, v, lists, listShares);
  }

  /** Every entry of the map is the stored list with its shares. */
  ghost predicate Stored(byId: map<ListId, ListView>, lists: map<ListId, ListRow>, listShares: set<(ListId, FamilyId)>) {
    forall k :: k in byId ==> k in lists && byId[k] == View(listShares, k, lists[k])
  }

  lemma StoredStep(byId: map<ListId, ListView>, v: ListView, lists: map<ListId, ListRow>, listShares: set<(ListId, FamilyId)>)
    requires Stored(byId, lists, listShares) && v.id in lists && v == View(listShares, v.id, lists[v.id])
    ensures Stored(byId[v.id := v], lists, listShares)
  {
  }

  lemma StoredValues(order: seq<ListId>, byId: map<ListId, ListView>, lists: map<ListId, ListRow>, listShares: set<(ListId, FamilyId)>)
    requires Stored(byId, lists, listShares) && forall k :: k in order ==> k in byId
    ensures Current(ValuesInOrder(order, byId), lists, listShares) && IdColumn(ValuesInOrder(order, byId)) == order
  {
    var r := ValuesInOrder(order, byId);
    assert IdColumn(r) == order;
  }

  /** `Array.from(byId.values())`, the keys' insertion order being `order`. */
  function ValuesInOrder(order: seq<ListId>, byId: map<ListId, ListView>): (r: seq<ListView>)
    requires forall k :: k in order ==> k in byId
    ensures |r| == |order| && forall j :: 0 <= j < |order| ==> r[j] == byId[order[j]]
  {
    seq(|order|, j requires 0 <= j < |order| => byId[order[j]])
  }

  /** Owned lists come first, and within the owned and the other lists the order is `sortIndex`, `createdAt`. */
  ghost predicate OwnedFirst(vs: seq<ListView>, userId: UserId) {
    forall i, j :: 0 <= i < j < |vs| ==>
      (vs[j].row.ownerId == userId ==> vs[i].row.ownerId == userId)
      && ((vs[i].row.ownerId == userId) == (vs[j].row.ownerId == userId) ==> Before(vs[i].row, vs[j].row))
  }

  /** Owned ids come first, and within the owned and the other ids the stored lists are in order. */
  ghost predicate OwnedFirstIds(ids: seq<ListId>, lists: map<ListId, ListRow>, userId: UserId) {
    forall i, j :: 0 <= i < j < |ids| && ids[i] in lists && ids[j] in lists ==>
      (lists[ids[j]].ownerId == userId ==> lists[ids[i]].ownerId == userId)
      && ((lists[ids[i]].ownerId == userId) == (lists[ids[j]].ownerId == userId) ==> Before(lists[ids[i]], lists[ids[j]]))
  }

  /**
   * The owned ids `a`, then the shared ids `b` not already among them: no
   * repeats, owned first, each group in order.
   */
  lemma OwnedThenShared(a: seq<ListId>, b: seq<ListId>, lists: map<ListId, ListRow>, userId: UserId)
    requires Distinct(a) && Distinct(b) && SortedIds(a, lists) && SortedIds(b, lists)
    requires forall i :: 0 <= i < |a| ==> a[i] in lists && lists[a[i]].ownerId == userId
    requires forall i :: 0 <= i < |b| ==> b[i] in lists && (lists[b[i]].ownerId == userId ==> b[i] in a)
    ensures Distinct(a + Without(b, Elements(a)))
    ensures OwnedFirstIds(a + Without(b, Elements(a)), lists, userId)
  {
    var rest := Without(b, Elements(a));
    var ids := a + rest;
    WithoutDistinct(b, Elements(a));
    WithoutKeepsOrder(b, Elements(a), lists);
    forall k | 0 <= k < |rest| ensures rest[k] in lists && lists[rest[k]].ownerId != userId && rest[k] !in a {
      assert rest[k] in b;
    }
    forall i, j | 0 <= i < j < |ids| ensures ids[i] != ids[j] {
      if j >= |a| && i < |a| {
        assert ids[j] == rest[j - |a|] && ids[i] == a[i];
      } else if i >= |a| {
        assert ids[j] == rest[j - |a|] && ids[i] == rest[i - |a|];
      }
    }
    forall i, j | 0 <= i < j < |ids| && ids[i] in lists && ids[j] in lists
      ensures (lists[ids[j]].ownerId == userId ==> lists[ids[i]].ownerId == userId)
      ensures (lists[ids[i]].ownerId == userId) == (lists[ids[j]].ownerId == userId) ==> Before(lists[ids[i]], lists[ids[j]])
    {
      if j >= |a| && i < |a| {
        assert ids[j] == rest[j - |a|] && ids[i] == a[i];
      } else if i >= |a| {
        assert ids[j] == rest[j - |a|] && ids[i] == rest[i - |a|];
      }
    }
  }

  /** The id column of rows read from `lists`, without repeats and in order. */
  lemma IdFacts(vs: seq<ListView>, lists: map<ListId, ListRow>, listShares: set<(ListId, FamilyId)>)
    requires Current(vs, lists, listShares) && UniqueIds(vs) && SortedViews(vs)
    ensures Distinct(IdColumn(vs)) && SortedIds(IdColumn(vs), lists)
    ensures forall i :: 0 <= i < |vs| ==> vs[i].row == lists[vs[i].id]
  {
    var ids := IdColumn(vs);
    forall i | 0 <= i < |vs| ensures vs[i].row == lists[vs[i].id] {
      assert vs[i] == View(listShares, vs[i].id, lists[vs[i].id]);
    }
    forall i, j | 0 <= i < j < |ids| && ids[i] in lists && ids[j] in lists ensures Before(lists[ids[i]], lists[ids[j]]) {
      assert vs[i].row == lists[ids[i]] && vs[j].row == lists[ids[j]];
    }
  }

  /** Properties of a result's id column carry over to the rows. */
  lemma ViewsFromIds(r: seq<ListView>, lists: map<ListId, ListRow>, listShares: set<(ListId, FamilyId)>, userId: UserId)
    requires Current(r, lists, listShares)
    requires Distinct(IdColumn(r)) && OwnedFirstIds(IdColumn(r), lists, userId)
    ensures UniqueIds(r) && OwnedFirst(r, userId)
  {
    var ids := IdColumn(r);
    forall i | 0 <= i < |r| ensures r[i].row == lists[ids[i]] {
      assert r[i] == View(listShares, r[i].id, lists[r[i].id]);
    }
    forall i, j | 0 <= i < j < |r| ensures r[i].id != r[j].id {
      assert ids[i] == r[i].id && ids[j] == r[j].id;
    }
    forall i, j | 0 <= i < j < |r|
      ensures r[j].row.ownerId == userId ==> r[i].row.ownerId == userId
      ensures (r[i].row.ownerId == userId) == (r[j].row.ownerId == userId) ==> Before(r[i].row, r[j].row)
    {
      assert r[i].row == lists[ids[i]] && r[j].row == lists[ids[j]];
    }
  }

  /** The `where` of the owned half of the unfiltered branch. */
  predicate OwnedMatch(userId: UserId, listType: Option<ListType>, row: ListRow) {
    row.ownerId == userId && TypeMatches(row, listType)
  }

  /** The `where` of the shared half of the unfiltered branch. */
  predicate SharedMatch(listShares: set<(ListId, FamilyId)>, members: map<(FamilyId, UserId), Member>, userId: UserId,
                        listType: Option<ListType>, id: ListId, row: ListRow)
  {
    TypeMatches(row, listType) && SharedWithMember(listShares, members, userId, id)
  }

  /** The unfiltered branch: owned and shared lists in one transaction, de-duplicated by id. */
  method AllAccessible(lists: map<ListId, ListRow>, listShares: set<(ListId, FamilyId)>, members: map<(FamilyId, UserId), Member>,
                       userId: UserId, listType: Option<ListType>)
    returns (r: seq<ListView>)
    ensures Current(r, lists, listShares) && UniqueIds(r) && OwnedFirst(r, userId)
    ensures forall i :: 0 <= i < |r| ==> InScope(listShares, members, userId, listType, AnyScope, r[i].id, r[i].row)
    ensures forall id :: id in lists && InScope(listShares, members, userId, listType, AnyScope, id, lists[id]) ==>
      exists i :: 0 <= i < |r| && r[i].id == id
  {
    var owned := FindOrdered(lists, listShares, (id: ListId, row: ListRow) => OwnedMatch(userId, listType, row));
    var shared := FindOrdered(lists, listShares, (id: ListId, row: ListRow) => SharedMatch(listShares, members, userId, listType, id, row));
    r := DedupById(owned + shared, lists, listShares);
    assert IdColumn(owned + shared) == IdColumn(owned) + IdColumn(shared);
    AccessibleOrder(lists, listShares, userId, listType, owned, shared, r);
    AccessibleScope(lists, listShares, members, userId, listType, owned, shared, r);
  }

  /** The order of the unfiltered branch's result, from the two ordered queries and the key order the de-duplication leaves. */
  lemma AccessibleOrder(lists: map<ListId, ListRow>, listShares: set<(ListId, FamilyId)>, userId: UserId, listType: Option<ListType>,
                        owned: seq<ListView>, shared: seq<ListView>, r: seq<ListView>)
    requires Current(owned, lists, listShares) && UniqueIds(owned) && SortedViews(owned)
    requires Current(shared, lists, listShares) && UniqueIds(shared) && SortedViews(shared)
    requires forall i :: 0 <= i < |owned| ==> OwnedMatch(userId, listType, owned[i].row)
    requires forall id :: id in lists && OwnedMatch(userId, listType, lists[id]) ==> exists i :: 0 <= i < |owned| && owned[i].id == id
    requires forall i :: 0 <= i < |shared| ==> TypeMatches(shared[i].row, listType)
    requires Current(r, lists, listShares) && IdColumn(r) == FirstIds(IdColumn(owned) + IdColumn(shared))
    ensures UniqueIds(r) && OwnedFirst(r, userId)
  {
    var a, b := IdColumn(owned), IdColumn(shared);
    IdFacts(owned, lists, listShares);
    IdFacts(shared, lists, listShares);
    FirstIdsAppend(a, b);
    forall i | 0 <= i < |b| ensures b[i] in lists && (lists[b[i]].ownerId == userId ==> b[i] in a) {
      if lists[b[i]].ownerId == userId {
        assert OwnedMatch(userId, listType, lists[b[i]]);
        var k :| 0 <= k < |owned| && owned[k].id == b[i];
        assert a[k] == b[i];
      }
    }
    OwnedThenShared(a, b, lists, userId);
    ViewsFromIds(r, lists, listShares, userId);
  }

  /** Which lists the unfiltered branch returns: exactly the owned and the family-shared ones. */
  lemma AccessibleScope(lists: map<ListId, ListRow>, listShares: set<(ListId, FamilyId)>, members: map<(FamilyId, UserId), Member>,
                        userId: UserId, listType: Option<ListType>, owned: seq<ListView>, shared: seq<ListView>, r: seq<ListView>)
    requires Current(owned, lists, listShares) && Current(shared, lists, listShares)
    requires forall i :: 0 <= i < |owned| ==> OwnedMatch(userId, listType, owned[i].row)
    requires forall id :: id in lists && OwnedMatch(userId, listType, lists[id]) ==> exists i :: 0 <= i < |owned| && owned[i].id == id
    requires forall i :: 0 <= i < |shared| ==> SharedMatch(listShares, members, userId, listType, shared[i].id, shared[i].row)
    requires forall id :: id in lists && SharedMatch(listShares, members, userId, listType, id, lists[id]) ==>
      exists i :: 0 <= i < |shared| && shared[i].id == id
    requires Current(r, lists, listShares) && IdColumn(r) == FirstIds(IdColumn(owned) + IdColumn(shared))
    ensures forall i :: 0 <= i < |r| ==> InScope(listShares, members, userId, listType, AnyScope, r[i].id, r[i].row)
    ensures forall id :: id in lists && InScope(listShares, members, userId, listType, AnyScope, id, lists[id]) ==>
      exists i :: 0 <= i < |r| && r[i].id == id
  {
    var a, b, ids := IdColumn(owned), IdColumn(shared), IdColumn(r);
    forall i | 0 <= i < |r| ensures InScope(listShares, members, userId, listType, AnyScope, r[i].id, r[i].row) {
      assert ids[i] == r[i].id;
      assert r[i] == View(listShares, r[i].id, lists[r[i].id]);
      if r[i].id in a {
        var k :| 0 <= k < |a| && a[k] == r[i].id;
        assert owned[k] == View(listShares, r[i].id, lists[r[i].id]);
      } else {
        assert r[i].id in a + b;
        var k :| 0 <= k < |b| && b[k] == r[i].id;
        assert shared[k] == View(listShares, r[i].id, lists[r[i].id]);
      }
    }
    forall id | id in lists && InScope(listShares, members, userId, listType, AnyScope, id, lists[id])
      ensures exists i :: 0 <= i < |r| && r[i].id == id
    {
      if lists[id].ownerId == userId {
        assert OwnedMatch(userId, listType, lists[id]);
        var k :| 0 <= k < |owned| && owned[k].id == id;
        assert a[k] == id;
      } else {
        assert SharedMatch(listShares, members, userId, listType, id, lists[id]);
        var k :| 0 <= k < |shared| && shared[k].id == id;
        assert b[k] == id;
      }
      assert id in ids;
      var i :| 0 <= i < |ids| && ids[i] == id;
      assert r[i].id == id;
    }
  }

  /**
   * `listMyLists`: the user's personal lists with no share, the lists shared
   * with one family the user belongs to, or (unfiltered) every list the user
   * owns or sees through a family, each once.
   */
  method ListMyLists(db: Db, userId: UserId, listType: Option<ListType>, filter: FamilyFilter) returns (r: seq<ListView>)
    ensures Current(r, db.lists, db.listShares) && UniqueIds(r)
    ensures forall i :: 0 <= i < |r| ==> InScope(db.listShares, db.members, userId, listType, filter, r[i].id, r[i].row)
    ensures forall id :: id in db.lists && InScope(db.listShares, db.members, userId, listType, filter, id, db.lists[id]) ==>
      exists i :: 0 <= i < |r| && r[i].id == id
    ensures Branch(filter) != AnyScope ==> SortedViews(r)
    ensures Branch(filter) == AnyScope ==> OwnedFirst(r, userId)
  {
    var lists, listShares, members := db.lists, db.listShares, db.members;
    match Branch(filter)
    case PersonalOnly =>
      r := FindOrdered(lists, listShares,
        (id: ListId, row: ListRow) => row.ownerId == userId && TypeMatches(row, listType) && SharesOf(listShares, id) == {});
    case OfFamily(f) =>
      r := FindOrdered(lists, listShares,
        (id: ListId, row: ListRow) => TypeMatches(row, listType) && (id, f) in listShares && (f, userId) in members);
    case AnyScope =>
      r := AllAccessible(lists, listShares, members, userId, listType);
  }

  // ---------------------------------------------------------------- createList

  /** The `CreateListDto` fields; omitted optional fields are `None`. */
  datatype CreateRequest = CreateRequest(
    listType: ListType, name: string, icon: Option<string>, color: Option<string>, sortMode: Option<SortMode>,
    groupByLocations: Option<bool>, tags: Option<seq<string>>, note: Option<string>)

  /** The row `createList` inserts; `sortIndex` and `createdAt` are the column defaults. */
  function NewList(userId: UserId, dto: CreateRequest, sortIndex: int, createdAt: int): (row: ListRow)
    ensures row.ownerId == userId && row.listType == dto.listType && row.name == dto.name
    ensures row.icon == dto.icon && row.color == dto.color && row.tags == dto.tags && row.note == dto.note
    ensures row.sortMode == (if dto.sortMode.Some? then dto.sortMode.value else ByCreatedAt)
    ensures row.groupByLocations <==> dto.groupByLocations == Some(true)
  {
    ListRow(userId, dto.name, dto.listType, dto.icon, dto.color, dto.sortMode.GetOr(ByCreatedAt),
            dto.groupByLocations.GetOr(false), dto.tags, dto.note, sortIndex, createdAt)
  }

  /** Without a sort mode or a grouping flag, a new list sorts by creation time and does not group by location. */
  lemma CreateDefaults(userId: UserId, dto: CreateRequest, sortIndex: int, createdAt: int)
    requires dto.sortMode.None? && dto.groupByLocations.None?
    ensures NewList(userId, dto, sortIndex, createdAt).sortMode == ByCreatedAt
    ensures !NewList(userId, dto, sortIndex, createdAt).groupByLocations
  {
  }

  /** The creator owns the new list, so they can read and write it, and it is one of their personal lists while unshared. */
  lemma CreatorHasFullAccess(lists: map<ListId, ListRow>, listShares: set<(ListId, FamilyId)>, members: map<(FamilyId, UserId), Member>,
                             userId: UserId, dto: CreateRequest, newId: ListId, sortIndex: int, createdAt: int, level: AccessLevel)
    requires SharesOf(listShares, newId) == {}
    ensures var lists' := lists[newId := NewList(userId, dto, sortIndex, createdAt)];
      ListsAccess.Access(lists', listShares, members, userId, newId, level).Ok?
      && InScope(listShares, members, userId, Some(dto.listType), PersonalOnly, newId, lists'[newId])
  {
    var lists' := lists[newId := NewList(userId, dto, sortIndex, createdAt)];
    ListsAccess.OwnerHasFullAccess(lists', listShares, members, newId, level);
  }

  /** `createList`: inserts the new row under a fresh id and returns it with its (empty) shares. */
  method CreateList(db: Db, userId: UserId, dto: CreateRequest, newId: ListId, sortIndex: int, createdAt: int) returns (r: ListView)
    requires newId !in db.lists
    modifies db`lists
    ensures db.lists == old(db.lists)[newId := NewList(userId, dto, sortIndex, createdAt)]
    ensures r == View(db.listShares, newId, NewList(userId, dto, sortIndex, createdAt))
  {
    var row := NewList(userId, dto, sortIndex, createdAt);
    db.lists := db.lists[newId := row];
    r := View(db.listShares, newId, row);
  }

  // ---------------------------------------------------------------- deleteList / deleteLists

  /** `list.deleteMany({ where: { id: { in: ids } } })`. */
  function DropLists(lists: map<ListId, ListRow>, ids: set<ListId>): (r: map<ListId, ListRow>)
    ensures forall id :: id in r <==> id in lists && id !in ids
    ensures forall id :: id in r ==> r[id] == lists[id]
  {
    lists - ids
  }

  /** `listFamilyShare.deleteMany({ where: { listId: { in: ids } } })`. */
  function DropShares(listShares: set<(ListId, FamilyId)>, ids: set<ListId>): (r: set<(ListId, FamilyId)>)
    ensures forall p :: p in r <==> p in listShares && p.0 !in ids
  {
    set p | p in listShares && p.0 !in ids
  }

  /** `shoppingListItem.deleteMany` / `taskListItem.deleteMany` with `where: { listId: { in: ids } }`. */
  function DropItems(items: map<ItemId, Item>, ids: set<ListId>): (r: map<ItemId, Item>)
    ensures forall id :: id in r <==> id in items && items[id].listId !in ids
    ensures forall id :: id in r ==> r[id] == items[id]
  {
    map id | id in items && items[id].listId !in ids :: items[id]
  }

  /**
   * After a cascade nothing refers to a deleted list: no share and no item
   * names one, and any later access to it is NotFound. Every other list keeps
   * its row and its shares.
   */
  lemma CascadeLeavesNoDangling(lists: map<ListId, ListRow>, listShares: set<(ListId, FamilyId)>, members: map<(FamilyId, UserId), Member>,
                                shopping: map<ItemId, Item>, tasks: map<ItemId, Item>, ids: set<ListId>, userId: UserId, level: AccessLevel)
    ensures forall p :: p in DropShares(listShares, ids) ==> p.0 !in ids
    ensures forall i :: i in DropItems(shopping, ids) ==> DropItems(shopping, ids)[i].listId !in ids
    ensures forall i :: i in DropItems(tasks, ids) ==> DropItems(tasks, ids)[i].listId !in ids
    ensures forall id :: id in ids ==>
      ListsAccess.Access(DropLists(lists, ids), DropShares(listShares, ids), members, userId, id, level).FailedWith(NotFound, "List not found")
    ensures forall id :: id in lists && id !in ids ==> SharesOf(DropShares(listShares, ids), id) == SharesOf(listShares, id)
  {
    forall id | id in ids
      ensures ListsAccess.Access(DropLists(lists, ids), DropShares(listShares, ids), members, userId, id, level).FailedWith(NotFound, "List not found")
    {
      ListsAccess.MissingList(DropLists(lists, ids), DropShares(listShares, ids), members, userId, id, level);
    }
  }

  /** The four `deleteMany` calls of one transaction. */
  method Cascade(db: Db, ids: set<ListId>)
    modifies db`listShares, db`shopping, db`tasks, db`lists
    ensures db.listShares == DropShares(old(db.listShares), ids)
    ensures db.shopping == DropItems(old(db.shopping), ids) && db.tasks == DropItems(old(db.tasks), ids)
    ensures db.lists == DropLists(old(db.lists), ids)
  {
    db.listShares := DropShares(db.listShares, ids);
    db.shopping := DropItems(db.shopping, ids);
    db.tasks := DropItems(db.tasks, ids);
    db.lists := DropLists(db.lists, ids);
  }

  /**
   * `deleteList`: write access (the owner or an admin of a sharing family),
   * then shares, shopping items, task items and the list in one transaction.
   */
  method DeleteList(db: Db, userId: UserId, listId: ListId) returns (r: Outcome)
    modifies db`listShares, db`shopping, db`tasks, db`lists
    ensures var access := ListsAccess.Access(old(db.lists), old(db.listShares), old(db.members), userId, listId, Write);
      (r.Ok? <==> access.Ok?) && (access.Err? ==> r == Err(access.failure))
    ensures r.Err? ==> unchanged(db`listShares, db`shopping, db`tasks, db`lists)
    ensures r.Ok? ==> db.listShares == DropShares(old(db.listShares), {listId}) && db.lists == DropLists(old(db.lists), {listId})
    ensures r.Ok? ==> db.shopping == DropItems(old(db.shopping), {listId}) && db.tasks == DropItems(old(db.tasks), {listId})
  {
    var access := ListsAccess.AssertAccess(db, userId, listId, Write);
    if access.Err? {
      return Err(access.failure);
    }
    Cascade(db, {listId});
    r := Done;
  }

  /** The rows `findMany({ where: { id: { in: ids }, ownerId: userId } })` returns, by id. */
  function OwnedAmong(lists: map<ListId, ListRow>, userId: UserId, ids: seq<ListId>): (found: set<ListId>)
    ensures found <= Elements(ids)
    ensures forall id :: id in found <==> id in ids && id in lists && lists[id].ownerId == userId
  {
    set id | id in ids && id in lists && lists[id].ownerId == userId
  }

  /** The batch passes exactly when every id is a list the caller owns and no id is repeated. */
  lemma DeleteListsGate(lists: map<ListId, ListRow>, userId: UserId, ids: seq<ListId>)
    ensures |OwnedAmong(lists, userId, ids)| == |ids| <==>
      Distinct(ids) && forall i :: 0 <= i < |ids| ==> ids[i] in lists && lists[ids[i]].ownerId == userId
  {
    var found := OwnedAmong(lists, userId, ids);
    BatchCountTest(ids, found);
    if forall i :: 0 <= i < |ids| ==> ids[i] in lists && lists[ids[i]].ownerId == userId {
      assert found == Elements(ids);
    }
  }

  /** `deleteLists`: all or nothing; Forbidden unless every id is a distinct list owned by the caller. */
  method DeleteLists(db: Db, userId: UserId, ids: seq<ListId>) returns (r: Outcome)
    modifies db`listShares, db`shopping, db`tasks, db`lists
    ensures r.Ok? <==> Distinct(ids) && forall i :: 0 <= i < |ids| ==> ids[i] in old(db.lists) && old(db.lists)[ids[i]].ownerId == userId
    ensures r.Err? ==> r.FailedWith(Forbidden, "Some lists not found or not owned by you")
    ensures r.Err? ==> unchanged(db`listShares, db`shopping, db`tasks, db`lists)
    ensures r.Ok? ==> db.listShares == DropShares(old(db.listShares), Elements(ids)) && db.lists == DropLists(old(db.lists), Elements(ids))
    ensures r.Ok? ==> db.shopping == DropItems(old(db.shopping), Elements(ids)) && db.tasks == DropItems(old(db.tasks), Elements(ids))
  {
    var found := OwnedAmong(db.lists, userId, ids);
    DeleteListsGate(db.lists, userId, ids);
    if |found| != |ids| {
      return Fail(Forbidden, "Some lists not found or not owned by you");
    }
    Cascade(db, Elements(ids));
    r := Done;
  }

  // ---------------------------------------------------------------- shareList / unshareList

  /** The owner check both sharing operations make after fetching the list. */
  function OwnerCheck(lists: map<ListId, ListRow>, listShares: set<(ListId, FamilyId)>, userId: UserId, listId: ListId): (r: Outcome)
    ensures r.Ok? <==> listId in lists && lists[listId].ownerId == userId
    ensures listId !in lists ==> r.FailedWith(NotFound, "List not found")
    ensures listId in lists && lists[listId].ownerId != userId ==> r.FailedWith(Forbidden, "Only list owner can change sharing")
  {
    var list :- ListsAccess.GetListOrThrow(lists, listShares, listId);
    if list.row.ownerId != userId then Fail(Forbidden, "Only list owner can change sharing") else Done
  }

  /** `shareList`: the owner check, the admin check in the target family, then an upsert of the share. */
  function Shared(lists: map<ListId, ListRow>, listShares: set<(ListId, FamilyId)>, members: map<(FamilyId, UserId), Member>,
                  userId: UserId, listId: ListId, familyId: FamilyId): (r: Result<set<(ListId, FamilyId)>>)
    ensures r.Ok? <==> listId in lists && lists[listId].ownerId == userId && RoleIn(members, familyId, userId) == Some(Admin)
    ensures OwnerCheck(lists, listShares, userId, listId).Err? ==> r == Err(OwnerCheck(lists, listShares, userId, listId).failure)
    ensures OwnerCheck(lists, listShares, userId, listId).Ok? && RoleIn(members, familyId, userId) != Some(Admin) ==>
      r.FailedWith(Forbidden, "Family admin role required to share")
    ensures r.Ok? ==> SharesOf(r.value, listId) == SharesOf(listShares, listId) + {familyId}
    ensures r.Ok? ==> forall p: (ListId, FamilyId) :: p.0 != listId ==> (p in r.value <==> p in listShares)
  {
    var _ :- OwnerCheck(lists, listShares, userId, listId);
    if (familyId, userId) !in members || members[(familyId, userId)].role != Admin then Fail(Forbidden, "Family admin role required to share")
    else Ok(listShares + {(listId, familyId)})
  }

  /** Sharing twice is the same as sharing once. */
  lemma ShareIdempotent(lists: map<ListId, ListRow>, listShares: set<(ListId, FamilyId)>, members: map<(FamilyId, UserId), Member>,
                        userId: UserId, listId: ListId, familyId: FamilyId)
    requires Shared(lists, listShares, members, userId, listId, familyId).Ok?
    ensures var once := Shared(lists, listShares, members, userId, listId, familyId).value;
      Shared(lists, once, members, userId, listId, familyId) == Ok(once)
  {
  }

  /** Once shared, every member of the family can read the list, and its admins can write it. */
  lemma ShareGrantsFamily(lists: map<ListId, ListRow>, listShares: set<(ListId, FamilyId)>, members: map<(FamilyId, UserId), Member>,
                          userId: UserId, listId: ListId, familyId: FamilyId, memberId: UserId)
    requires Shared(lists, listShares, members, userId, listId, familyId).Ok?
    requires (familyId, memberId) in members
    ensures var shares := Shared(lists, listShares, members, userId, listId, familyId).value;
      ListsAccess.Access(lists, shares, members, memberId, listId, Read).Ok?
      && (members[(familyId, memberId)].role == Admin ==> ListsAccess.Access(lists, shares, members, memberId, listId, Write).Ok?)
  {
    var shares := Shared(lists, listShares, members, userId, listId, familyId).value;
    assert (listId, familyId) in shares;
    if lists[listId].ownerId == memberId {
      ListsAccess.OwnerHasFullAccess(lists, shares, members, listId, Read);
      ListsAccess.OwnerHasFullAccess(lists, shares, members, listId, Write);
    } else {
      ListsAccess.ReadAccessIff(lists, shares, members, memberId, listId);
      ListsAccess.WriteAccessIff(lists, shares, members, memberId, listId);
    }
  }

  /** `unshareList`: the owner check, then `listFamilyShare.delete` of the pair, which fails when there is no such share. */
  function Unshared(lists: map<ListId, ListRow>, listShares: set<(ListId, FamilyId)>, userId: UserId, listId: ListId, familyId: FamilyId)
    : (r: Result<set<(ListId, FamilyId)>>)
    ensures OwnerCheck(lists, listShares, userId, listId).Err? ==> r == Err(OwnerCheck(lists, listShares, userId, listId).failure)
    ensures OwnerCheck(lists, listShares, userId, listId).Ok? && (listId, familyId) !in listShares ==> r == Err(RecordNotFound)
    ensures r.Ok? <==> listId in lists && lists[listId].ownerId == userId && (listId, familyId) in listShares
    ensures r.Ok? ==> SharesOf(r.value, listId) == SharesOf(listShares, listId) - {familyId}
    ensures r.Ok? ==> forall p: (ListId, FamilyId) :: p.0 != listId ==> (p in r.value <==> p in listShares)
  {
    var _ :- OwnerCheck(lists, listShares, userId, listId);
    if (listId, familyId) !in listShares then Err(RecordNotFound) else Ok(listShares - {(listId, familyId)})
  }

  /** Sharing a list with a family it was not shared with, then unsharing it, restores the shares. */
  lemma ShareThenUnshare(lists: map<ListId, ListRow>, listShares: set<(ListId, FamilyId)>, members: map<(FamilyId, UserId), Member>,
                         userId: UserId, listId: ListId, familyId: FamilyId)
    requires Shared(lists, listShares, members, userId, listId, familyId).Ok? && (listId, familyId) !in listShares
    ensures Unshared(lists, Shared(lists, listShares, members, userId, listId, familyId).value, userId, listId, familyId) == Ok(listShares)
  {
    var shares := Shared(lists, listShares, members, userId, listId, familyId).value;
    assert shares - {(listId, familyId)} == listShares;
  }

  method ShareList(db: Db, userId: UserId, listId: ListId, familyId: FamilyId) returns (r: Outcome)
    modifies db`listShares
    ensures var shared := Shared(db.lists, old(db.listShares), db.members, userId, listId, familyId);
      (r.Ok? <==> shared.Ok?) && (shared.Err? ==> r == Err(shared.failure) && db.listShares == old(db.listShares))
      && (shared.Ok? ==> db.listShares == shared.value)
  {
    var shared := Shared(db.lists, db.listShares, db.members, userId, listId, familyId);
    if shared.Err? {
      return Err(shared.failure);
    }
    db.listShares := shared.value;
    r := Done;
  }

  method UnshareList(db: Db, userId: UserId, listId: ListId, familyId: FamilyId) returns (r: Outcome)
    modifies db`listShares
    ensures var unshared := Unshared(db.lists, old(db.listShares), userId, listId, familyId);
      (r.Ok? <==> unshared.Ok?) && (unshared.Err? ==> r == Err(unshared.failure) && db.listShares == old(db.listShares))
      && (unshared.Ok? ==> db.listShares == unshared.value)
  {
    var unshared := Unshared(db.lists, db.listShares, userId, listId, familyId);
    if unshared.Err? {
      return Err(unshared.failure);
    }
    db.listShares := unshared.value;
    r := Done;
  }

  // ---------------------------------------------------------------- reorderLists

  function WithSortIndex(row: ListRow, index: int): ListRow {
    row.(sortIndex := index)
  }

  /**
   * `reorderLists`: one `update({ where: { id }, data: { sortIndex: index } })`
   * per id in a transaction; an unknown id aborts it. The caller's identity
   * plays no part.
   */
  function ReorderedLists(lists: map<ListId, ListRow>, orderedIds: seq<ListId>): (r: Result<map<ListId, ListRow>>)
    ensures r.Err? <==> !Reorder.AllIn(orderedIds, lists)
    ensures r.Err? ==> r.failure == RecordNotFound
    ensures r.Ok? ==> r.value.Keys == lists.Keys && forall id :: id in lists && id !in orderedIds ==> r.value[id] == lists[id]
  {
    if Reorder.AllIn(orderedIds, lists) then Ok(Reorder.Renumbered(lists, orderedIds, WithSortIndex)) else Err(RecordNotFound)
  }

  /** Without repeated ids, `orderedIds[i]` gets `sortIndex` `i` and keeps every other column. */
  lemma ReorderListsIndices(lists: map<ListId, ListRow>, orderedIds: seq<ListId>)
    requires Reorder.AllIn(orderedIds, lists) && Distinct(orderedIds)
    ensures forall i :: 0 <= i < |orderedIds| ==>
      ReorderedLists(lists, orderedIds).value[orderedIds[i]] == lists[orderedIds[i]].(sortIndex := i)
  {
    Reorder.DistinctIdsTakeTheirIndex(lists, orderedIds, WithSortIndex);
  }

  method ReorderLists(db: Db, orderedIds: seq<ListId>) returns (r: Outcome)
    modifies db`lists
    ensures var reordered := ReorderedLists(old(db.lists), orderedIds);
      (r.Ok? <==> reordered.Ok?) && (reordered.Err? ==> r == Err(reordered.failure) && db.lists == old(db.lists))
      && (reordered.Ok? ==> db.lists == reordered.value)
  {
    if !Reorder.AllIn(orderedIds, db.lists) {
      return Err(RecordNotFound);
    }
    db.lists := Reorder.Renumber(db.lists, orderedIds, WithSortIndex);
    r := Done;
  }
}
