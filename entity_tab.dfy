/**
 * `useEntityTab`: the state of a tab listing entities (products, templates,
 * locations) with tag filters, multi-selection, deletion that can be undone
 * until it is confirmed, and the create/edit drawer. The store adapter and the
 * router are outside; what the tab asks of them is recorded as a sequence of
 * calls.
 */
module EntityTab {
  import opened Common
  import Lists
  import Query

  /** An entity of the tab: its id and its tags, if it has any. */
  datatype Entity = Entity(id: string, tags: Option<seq<string>>)

  function TagsOf(e: Entity): seq<string> {
    e.tags.GetOr([])
  }

  // ---- tags ----------------------------------------------------------------------------------

  /** Every tag of every entity, in order, repeats kept. */
  function TagsSeen(items: seq<Entity>): seq<string> {
    if items == [] then [] else TagsSeen(items[..|items| - 1]) + TagsOf(items[|items| - 1])
  }

  lemma {:induction false} TagsSeenListed(items: seq<Entity>)
    ensures forall t :: t in TagsSeen(items) <==> exists i :: 0 <= i < |items| && t in TagsOf(items[i])
  {
    if items != [] {
      var init := items[..|items| - 1];
      TagsSeenListed(init);
      forall t ensures t in TagsSeen(items) <==> exists i :: 0 <= i < |items| && t in TagsOf(items[i]) {
        if exists i :: 0 <= i < |init| && t in TagsOf(init[i]) {
          var i :| 0 <= i < |init| && t in TagsOf(init[i]);
          assert items[i] == init[i];
        }
        if exists i :: 0 <= i < |items| && t in TagsOf(items[i]) {
          var i :| 0 <= i < |items| && t in TagsOf(items[i]);
          if i < |init| {
            assert init[i] == items[i];
          }
        }
      }
    }
  }

  /** JavaScript's default sort order on strings: lexicographic by character. */
  predicate StrLe(a: string, b: string) {
    a == [] || (b != [] && (a[0] < b[0] || (a[0] == b[0] && StrLe(a[1..], b[1..]))))
  }

  lemma {:induction false} StrLeTotal(a: string, b: string)
    ensures StrLe(a, b) || StrLe(b, a)
  {
    if a != [] && b != [] && a[0] == b[0] {
      StrLeTotal(a[1..], b[1..]);
    }
  }

  lemma {:induction false} StrLeTransitive(a: string, b: string, c: string)
    requires StrLe(a, b) && StrLe(b, c)
    ensures StrLe(a, c)
  {
    if a != [] && b != [] && c != [] && a[0] == b[0] == c[0] {
      StrLeTransitive(a[1..], b[1..], c[1..]);
    }
  }

  lemma {:induction false} StrLeAntisymmetric(a: string, b: string)
    requires StrLe(a, b) && StrLe(b, a)
    ensures a == b
  {
    if a != [] && b != [] {
      StrLeAntisymmetric(a[1..], b[1..]);
      assert a == [a[0]] + a[1..] && b == [b[0]] + b[1..];
    }
  }

  lemma StrLeIsTotalPreorder()
    ensures Query.IsTotalPreorder(StrLe)
  {
    forall a, b ensures StrLe(a, b) || StrLe(b, a) {
      StrLeTotal(a, b);
    }
    forall a, b, c | StrLe(a, b) && StrLe(b, c) ensures StrLe(a, c) {
      StrLeTransitive(a, b, c);
    }
  }

  /** Lines 86-92: the tags of all entities collected into a set, then sorted. */
  method AllTags(items: seq<Entity>) returns (tags: seq<string>)
    ensures Query.SortedBy(tags, StrLe)
    ensures forall i, j :: 0 <= i < j < |tags| ==> tags[i] != tags[j]
    ensures forall t :: t in tags <==> exists i :: 0 <= i < |items| && t in TagsOf(items[i])
  {
    var tagSet: seq<string> := [];
    for i := 0 to |items|
      invariant tagSet == Lists.FirstIds(TagsSeen(items[..i]))
    {
      var itemTags := TagsOf(items[i]);
      assert items[..i + 1][..i] == items[..i];
      assert TagsSeen(items[..i + 1]) == TagsSeen(items[..i]) + itemTags;
      assert TagsSeen(items[..i]) + itemTags[..0] == TagsSeen(items[..i]);
      for j := 0 to |itemTags|
        invariant tagSet == Lists.FirstIds(TagsSeen(items[..i]) + itemTags[..j])
      {
        var tag := itemTags[j];
        assert TagsSeen(items[..i]) + itemTags[..j + 1] == (TagsSeen(items[..i]) + itemTags[..j]) + [tag];
        Lists.FirstIdsSnoc(TagsSeen(items[..i]) + itemTags[..j], tag);
        if tag !in tagSet {
          tagSet := tagSet + [tag];
        }
      }
      assert itemTags[..|itemTags|] == itemTags;
    }
    assert items[..|items|] == items;
    TagsSeenListed(items);
    StrLeIsTotalPreorder();
    tags := Query.OrderBy(tagSet, StrLe);
    Query.OrderByKeepsDistinct(tagSet, StrLe);
    forall t ensures t in tags <==> t in tagSet {
      Query.OrderByKeepsRows(tagSet, StrLe, t);
    }
  }

  /** Sorted and without repeats, the tag list is strictly increasing. */
  lemma AllTagsStrictlyIncreasing(tags: seq<string>, i: int, j: int)
    requires Query.SortedBy(tags, StrLe)
    requires forall i, j :: 0 <= i < j < |tags| ==> tags[i] != tags[j]
    requires 0 <= i < j < |tags|
    ensures !StrLe(tags[j], tags[i])
  {
    if StrLe(tags[j], tags[i]) {
      StrLeAntisymmetric(tags[i], tags[j]);
    }
  }

  // ---- filtering -----------------------------------------------------------------------------

  /** `Array.prototype.filter`. */
  function Filter<T(!new)>(s: seq<T>, keep: T -> bool): (r: seq<T>)
    ensures |r| <= |s|
  {
    if s == [] then []
    else Filter(s[..|s| - 1], keep) + (if keep(s[|s| - 1]) then [s[|s| - 1]] else [])
  }

  /** The filter keeps exactly the elements the predicate accepts. */
  lemma {:induction false} FilterMembers<T(!new)>(s: seq<T>, keep: T -> bool)
    ensures forall x :: x in Filter(s, keep) <==> x in s && keep(x)
  {
    if s != [] {
      var init := s[..|s| - 1];
      FilterMembers(init, keep);
      assert s == init + [s[|s| - 1]];
    }
  }

  lemma FilterSnoc<T(!new)>(s: seq<T>, x: T, keep: T -> bool)
    ensures Filter(s + [x], keep) == Filter(s, keep) + (if keep(x) then [x] else [])
  {
    assert (s + [x])[..|s|] == s;
  }

  /** Filtering distributes over concatenation, so the kept elements stay in their order. */
  lemma {:induction false} FilterAppend<T(!new)>(a: seq<T>, b: seq<T>, keep: T -> bool)
    ensures Filter(a + b, keep) == Filter(a, keep) + Filter(b, keep)
    decreases |b|
  {
    if b == [] {
      assert a + b == a;
    } else {
      var b0, last := b[..|b| - 1], b[|b| - 1];
      FilterAppend(a, b0, keep);
      assert b == b0 + [last];
      assert a + b == (a + b0) + [last];
      FilterSnoc(a + b0, last, keep);
      FilterSnoc(b0, last, keep);
      var tail := if keep(last) then [last] else [];
      calc {
        Filter(a + b, keep);
        Filter(a + b0, keep) + tail;
        Filter(a, keep) + Filter(b0, keep) + tail;
        Filter(a, keep) + (Filter(b0, keep) + tail);
        Filter(a, keep) + Filter(b, keep);
      }
    }
  }

  /** The entity is not hidden. */
  predicate Visible(hiddenIds: seq<string>, e: Entity) {
    e.id !in hiddenIds
  }

  /** The entity has one of the selected tags. */
  predicate Tagged(selectedTags: seq<string>, e: Entity) {
    exists t :: t in TagsOf(e) && t in selectedTags
  }

  /** Lines 94-102: hidden entities dropped; with tags selected, only entities with one of them kept. */
  function FilteredItems(items: seq<Entity>, hiddenIds: seq<string>, selectedTags: seq<string>): (r: seq<Entity>)
    ensures forall e :: e in r <==> e in items && Visible(hiddenIds, e) && (|selectedTags| > 0 ==> Tagged(selectedTags, e))
  {
    var result := Filter(items, e => Visible(hiddenIds, e));
    FilterMembers(items, e => Visible(hiddenIds, e));
    FilterMembers(result, e => Tagged(selectedTags, e));
    if |selectedTags| > 0 then Filter(result, e => Tagged(selectedTags, e)) else result
  }

  /** The filtered entities of two runs are those of each run, one after the other. */
  lemma FilteredItemsKeepOrder(a: seq<Entity>, b: seq<Entity>, hiddenIds: seq<string>, selectedTags: seq<string>)
    ensures FilteredItems(a + b, hiddenIds, selectedTags) == FilteredItems(a, hiddenIds, selectedTags) + FilteredItems(b, hiddenIds, selectedTags)
  {
    var visible := (e: Entity) => Visible(hiddenIds, e);
    var tagged := (e: Entity) => Tagged(selectedTags, e);
    FilterAppend(a, b, visible);
    FilterAppend(Filter(a, visible), Filter(b, visible), tagged);
  }

  /** Lines 81-84: the entity being edited, the first with the editing id; none when the id is missing or empty. */
  function EditingEntity(items: seq<Entity>, editingId: Option<string>): (r: Option<Entity>)
    ensures editingId.None? || editingId == Some("") ==> r.None?
    ensures r.Some? ==> r.value in items && r.value.id == editingId.value
    ensures editingId.Some? && editingId.value != "" && r.None? ==> forall i :: 0 <= i < |items| ==> items[i].id != editingId.value
  {
    if editingId.None? || editingId.value == "" then None
    else if items == [] then None
    else if items[0].id == editingId.value then Some(items[0])
    else EditingEntity(items[1..], editingId)
  }

  // ---- selection and deletion ----------------------------------------------------------------

  /** `indexOf`: the first position of `x`, or -1. */
  function IndexOf(s: seq<string>, x: string): (k: int)
    ensures -1 <= k < |s|
    ensures k == -1 <==> x !in s
    ensures k >= 0 ==> s[k] == x && forall j :: 0 <= j < k ==> s[j] != x
  {
    if s == [] then -1
    else if s[0] == x then 0
    else
      var k := IndexOf(s[1..], x);
      if k == -1 then -1 else k + 1
  }

  /** Lines 145-152: an id not selected is appended; a selected id has its first occurrence removed. */
  function Toggle(s: seq<string>, id: string): seq<string> {
    var k := IndexOf(s, id);
    if k == -1 then s + [id] else s[..k] + s[k + 1..]
  }

  /** Selecting an id that is not selected and toggling it again gives back the same selection. */
  lemma ToggleAbsentTwice(s: seq<string>, id: string)
    requires id !in s
    ensures Toggle(Toggle(s, id), id) == s
  {
    var t := s + [id];
    assert t[|s|] == id;
    assert IndexOf(t, id) == |s|;
    assert t[..|s|] == s;
  }

  /** Unselecting an id selected once and toggling it again gives back the same ids, with it moved last. */
  lemma TogglePresentTwice(s: seq<string>, id: string)
    requires multiset(s)[id] == 1
    ensures multiset(Toggle(Toggle(s, id), id)) == multiset(s)
  {
    var k := IndexOf(s, id);
    var t := s[..k] + s[k + 1..];
    assert s == s[..k] + [id] + s[k + 1..];
    assert multiset(t) == multiset(s) - multiset{id};
    assert id !in multiset(t);
    assert IndexOf(t, id) == -1;
  }

  /** On a selection without repeats, toggling flips whether the id is selected and adds no repeat. */
  lemma ToggleFlips(s: seq<string>, id: string)
    requires Distinct(s)
    ensures id in Toggle(s, id) <==> id !in s
    ensures Distinct(Toggle(s, id))
  {
    var k := IndexOf(s, id);
    if k != -1 {
      var t := s[..k] + s[k + 1..];
      forall i | 0 <= i < |t| ensures t[i] != id {
        if i < k {
          assert t[i] == s[i];
        } else {
          assert t[i] == s[i + 1];
        }
      }
      forall i, j | 0 <= i < j < |t| ensures t[i] != t[j] {
        var i', j' := if i < k then i else i + 1, if j < k then j else j + 1;
        assert t[i] == s[i'] && t[j] == s[j'];
      }
    }
  }

  /** `filter((id) => !ids.includes(id))`: every occurrence of the given ids removed. */
  function Without(hiddenIds: seq<string>, ids: seq<string>): (r: seq<string>)
    ensures forall x :: x in r <==> x in hiddenIds && x !in ids
  {
    FilterMembers(hiddenIds, x => x !in ids);
    Filter(hiddenIds, x => x !in ids)
  }

  /** Undoing a soft delete unhides exactly the ids it hid, and ids hidden before stay hidden. */
  lemma UndoAfterSoftDelete(hiddenIds: seq<string>, ids: seq<string>)
    ensures Without(hiddenIds + ids, ids) == Without(hiddenIds, ids)
    ensures (forall x :: x in hiddenIds ==> x !in ids) ==> Without(hiddenIds + ids, ids) == hiddenIds
  {
    var keep := (x: string) => x !in ids;
    FilterAppend(hiddenIds, ids, keep);
    FilterDropsAll(ids, keep);
    assert Filter(hiddenIds, keep) + [] == Filter(hiddenIds, keep);
    if forall x :: x in hiddenIds ==> x !in ids {
      FilterKeepsAll(hiddenIds, keep);
    }
  }

  lemma {:induction false} FilterDropsAll<T(!new)>(s: seq<T>, keep: T -> bool)
    requires forall x :: x in s ==> !keep(x)
    ensures Filter(s, keep) == []
  {
    if s != [] {
      FilterDropsAll(s[..|s| - 1], keep);
    }
  }

  lemma {:induction false} FilterKeepsAll<T(!new)>(s: seq<T>, keep: T -> bool)
    requires forall x :: x in s ==> keep(x)
    ensures Filter(s, keep) == s
  {
    if s != [] {
      FilterKeepsAll(s[..|s| - 1], keep);
      assert s[..|s| - 1] + [s[|s| - 1]] == s;
    }
  }

  // ---- the tab -------------------------------------------------------------------------------

  /** `adapter.validate ?? (() => true)` applied to a payload. */
  predicate Accepts<D>(validate: Option<D -> bool>, data: D) {
    validate.None? || validate.value(data)
  }

  /** What the tab asks of the store adapter and of the router. */
  datatype Call<D> = Create(data: D) | Update(id: string, data: D) | DeleteMany(ids: seq<string>) | Navigate(path: string)

  /** The tab's refs; `calls` records the adapter and router calls in order. */
  class Tab<D> {
    var selectedIds: seq<string>
    var hiddenIds: seq<string>
    var selectedTags: seq<string>
    var isCreateDrawerOpen: bool
    var editingId: Option<string>
    var calls: seq<Call<D>>
    const routePrefix: string
    const navigableItems: bool

    constructor(routePrefix: string, navigableItems: bool)
      ensures selectedIds == [] && hiddenIds == [] && selectedTags == [] && !isCreateDrawerOpen && editingId.None? && calls == []
      ensures this.routePrefix == routePrefix && this.navigableItems == navigableItems
    {
      this.routePrefix := routePrefix;
      this.navigableItems := navigableItems;
      selectedIds, hiddenIds, selectedTags := [], [], [];
      isCreateDrawerOpen, editingId, calls := false, None, [];
    }

    /**
     * Lines 106-110: a valid payload is created and the drawer closed; an
     * invalid one changes nothing. Without a validator every payload is valid.
     */
    method HandleCreate(validate: Option<D -> bool>, data: D)
      modifies this
      ensures !Accepts(validate, data) ==> unchanged(this)
      ensures Accepts(validate, data) ==> calls == old(calls) + [Create(data)] && !isCreateDrawerOpen
      ensures selectedIds == old(selectedIds) && hiddenIds == old(hiddenIds) && selectedTags == old(selectedTags)
      ensures editingId == old(editingId)
    {
      if !Accepts(validate, data) {
        return;
      }
      calls := calls + [Create(data)];
      isCreateDrawerOpen := false;
    }

    /** Lines 112-116: the same guard for an update. */
    method HandleUpdate(validate: Option<D -> bool>, id: string, data: D)
      modifies this
      ensures !Accepts(validate, data) ==> unchanged(this)
      ensures Accepts(validate, data) ==> calls == old(calls) + [Update(id, data)] && !isCreateDrawerOpen
      ensures selectedIds == old(selectedIds) && hiddenIds == old(hiddenIds) && selectedTags == old(selectedTags)
      ensures editingId == old(editingId)
    {
      if !Accepts(validate, data) {
        return;
      }
      calls := calls + [Update(id, data)];
      isCreateDrawerOpen := false;
    }

    /** Lines 131-134. */
    method HandleEdit(id: string)
      modifies this
      ensures editingId == Some(id) && isCreateDrawerOpen
      ensures selectedIds == old(selectedIds) && hiddenIds == old(hiddenIds) && selectedTags == old(selectedTags)
      ensures calls == old(calls)
    {
      editingId := Some(id);
      isCreateDrawerOpen := true;
    }

    /** Lines 136-139. */
    method OpenCreateDrawer()
      modifies this
      ensures editingId.None? && isCreateDrawerOpen
      ensures selectedIds == old(selectedIds) && hiddenIds == old(hiddenIds) && selectedTags == old(selectedTags)
      ensures calls == old(calls)
    {
      editingId := None;
      isCreateDrawerOpen := true;
    }

    /** Lines 145-152. */
    method HandleSelect(id: string)
      modifies this
      ensures selectedIds == Toggle(old(selectedIds), id)
      ensures hiddenIds == old(hiddenIds) && selectedTags == old(selectedTags) && calls == old(calls)
      ensures isCreateDrawerOpen == old(isCreateDrawerOpen) && editingId == old(editingId)
    {
      var index := IndexOf(selectedIds, id);
      if index == -1 {
        selectedIds := selectedIds + [id];
      } else {
        selectedIds := selectedIds[..index] + selectedIds[index + 1..];
      }
    }

    /**
     * Lines 118-129: in selection mode a click only toggles the selection;
     * otherwise it navigates to the entity's page or opens it for editing.
     */
    method HandleOpen(id: string, selectionMode: bool)
      modifies this
      ensures selectionMode ==>
        selectedIds == Toggle(old(selectedIds), id) && calls == old(calls)
        && editingId == old(editingId) && isCreateDrawerOpen == old(isCreateDrawerOpen)
      ensures !selectionMode && navigableItems ==>
        calls == old(calls) + [Navigate(routePrefix + "/" + id)]
        && editingId == old(editingId) && isCreateDrawerOpen == old(isCreateDrawerOpen)
      ensures !selectionMode && !navigableItems ==> editingId == Some(id) && isCreateDrawerOpen && calls == old(calls)
      ensures !selectionMode ==> selectedIds == old(selectedIds)
      ensures hiddenIds == old(hiddenIds) && selectedTags == old(selectedTags)
    {
      if selectionMode {
        HandleSelect(id);
        return;
      }
      if navigableItems {
        calls := calls + [Navigate(routePrefix + "/" + id)];
      } else {
        HandleEdit(id);
      }
    }

    /** Lines 141-143: every entity selected, in the order listed. */
    method SelectAll(items: seq<Entity>)
      modifies this
      ensures |selectedIds| == |items| && forall i :: 0 <= i < |items| ==> selectedIds[i] == items[i].id
      ensures hiddenIds == old(hiddenIds) && selectedTags == old(selectedTags) && calls == old(calls)
      ensures isCreateDrawerOpen == old(isCreateDrawerOpen) && editingId == old(editingId)
    {
      selectedIds := seq(|items|, i requires 0 <= i < |items| => items[i].id);
    }

    /** Lines 154-157: the ids are hidden and the selection cleared. */
    method SoftDelete(ids: seq<string>)
      modifies this
      ensures hiddenIds == old(hiddenIds) + ids && selectedIds == []
      ensures selectedTags == old(selectedTags) && calls == old(calls)
      ensures isCreateDrawerOpen == old(isCreateDrawerOpen) && editingId == old(editingId)
    {
      hiddenIds := hiddenIds + ids;
      selectedIds := [];
    }

    /** Lines 159-162: the adapter deletes the ids, then they are no longer hidden. */
    method HardDelete(ids: seq<string>)
      modifies this
      ensures calls == old(calls) + [DeleteMany(ids)]
      ensures hiddenIds == Without(old(hiddenIds), ids)
      ensures selectedIds == old(selectedIds) && selectedTags == old(selectedTags)
      ensures isCreateDrawerOpen == old(isCreateDrawerOpen) && editingId == old(editingId)
    {
      calls := calls + [DeleteMany(ids)];
      hiddenIds := Without(hiddenIds, ids);
    }

    /** Lines 164-166: the ids are shown again. */
    method UndoDelete(ids: seq<string>)
      modifies this
      ensures hiddenIds == Without(old(hiddenIds), ids)
      ensures selectedIds == old(selectedIds) && selectedTags == old(selectedTags) && calls == old(calls)
      ensures isCreateDrawerOpen == old(isCreateDrawerOpen) && editingId == old(editingId)
    {
      hiddenIds := Without(hiddenIds, ids);
    }
  }
}
