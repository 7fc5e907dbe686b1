/**
 * `ListsAccessService`: who may read or write a list. The owner always may;
 * otherwise the list must be shared with a family in which the caller is a
 * member (to read) or an admin (to write).
 */
module ListsAccess {
  import opened Common
  import opened Errors
  import opened Store
  import Query
  import FamilyAccess

  /** A list row with the families it is shared with (`include: { familyShares: true }`). */
  datatype ListWithShares = ListWithShares(id: ListId, row: ListRow, familyIds: set<FamilyId>)

  /** `getListOrThrow`: NotFound "List not found" for an unknown id. */
  function GetListOrThrow(lists: map<ListId, ListRow>, listShares: set<(ListId, FamilyId)>, listId: ListId): (r: Result<ListWithShares>)
    ensures r.Ok? <==> listId in lists
    ensures r.Ok? ==> r.value == ListWithShares(listId, lists[listId], SharesOf(listShares, listId))
    ensures r.Err? ==> r.FailedWith(NotFound, "List not found")
  {
    if listId in lists then Ok(ListWithShares(listId, lists[listId], SharesOf(listShares, listId)))
    else Fail(NotFound, "List not found")
  }

  /**
   * `getUserFamilyRole`: the caller's role in a family, or none without a
   * membership row; it is the role of the row the membership check returns.
   */
  function GetUserFamilyRole(members: map<(FamilyId, UserId), Member>, userId: UserId, familyId: FamilyId): (role: Option<Role>)
    ensures role.Some? <==> FamilyAccess.RequireFamilyMember(members, userId, familyId).Ok?
    ensures role.Some? ==> role.value == FamilyAccess.RequireFamilyMember(members, userId, familyId).value.member.role
    ensures role == RoleIn(members, familyId, userId)
  {
    if (familyId, userId) in members then Some(members[(familyId, userId)].role) else None
  }

  /** A family role is enough for an access level: any role reads, only an admin writes. */
  predicate RoleGrants(role: Role, level: AccessLevel) {
    level == Read || role == Admin
  }

  /** The failure message once no shared family grants the level. */
  function DeniedMessage(level: AccessLevel): string {
    if level == Write then "Write access requires family admin role" else "Access denied"
  }

  /** The access rule for a fetched list, in the order in which `assertAccess` checks it. */
  function Decide(list: ListWithShares, members: map<(FamilyId, UserId), Member>, userId: UserId, level: AccessLevel): Result<ListWithShares> {
    if list.row.ownerId == userId then Ok(list)
    else if list.familyIds == {} then Fail(Forbidden, "Access denied: Private list")
    else if exists f :: f in list.familyIds && (f, userId) in members && RoleGrants(members[(f, userId)].role, level) then Ok(list)
    else Fail(Forbidden, DeniedMessage(level))
  }

  /** `assertAccess` as a function of the tables. */
  function Access(
    lists: map<ListId, ListRow>, listShares: set<(ListId, FamilyId)>, members: map<(FamilyId, UserId), Member>,
    userId: UserId, listId: ListId, level: AccessLevel): Result<ListWithShares>
  {
    var list :- GetListOrThrow(lists, listShares, listId);
    Decide(list, members, userId, level)
  }

  /**
   * `assertAccess`: fetches the list, then the caller's memberships in the
   * families it is shared with, fills a family-to-role map, and scans the
   * shares for one that grants the level.
   */
  method AssertAccess(db: Db, userId: UserId, listId: ListId, level: AccessLevel) returns (r: Result<ListWithShares>)
    ensures r == Access(db.lists, db.listShares, db.members, userId, listId, level)
  {
    r := GetListOrThrow(db.lists, db.listShares, listId);
    if r.Err? {
      return;
    }
    var list := r.value;
    if list.row.ownerId == userId {
      return;
    }
    if list.familyIds == {} {
      r := Fail(Forbidden, "Access denied: Private list");
      return;
    }
    var familyIds := list.familyIds;
    var memberships := Query.FindMany(db.members, (key: (FamilyId, UserId), m: Member) => key.1 == userId && key.0 in familyIds);
    var userRoles: map<FamilyId, Role> := map[];
    var i := 0;
    while i < |memberships|
      invariant 0 <= i <= |memberships|
      invariant forall f :: f in userRoles ==> (f, userId) in db.members && userRoles[f] == db.members[(f, userId)].role
      invariant forall j :: 0 <= j < i ==> memberships[j].0.0 in userRoles
    {
      var row := memberships[i];
      userRoles := userRoles[row.0.0 := row.1.role];
      i := i + 1;
    }
    assert forall f :: f in familyIds && (f, userId) in db.members ==> f in userRoles by {
      forall f | f in familyIds && (f, userId) in db.members ensures f in userRoles {
        var key := (f, userId);
        assert (key, db.members[key]) in memberships;
      }
    }
    var remaining := familyIds;
    while remaining != {}
      invariant remaining <= familyIds
      invariant forall f :: f in familyIds - remaining && (f, userId) in db.members ==> !RoleGrants(db.members[(f, userId)].role, level)
      decreases |remaining|
    {
      var f :| f in remaining;
      if f in userRoles {
        if level == Read || userRoles[f] == Admin {
          assert RoleGrants(db.members[(f, userId)].role, level);
          return;
        }
      }
      remaining := remaining - {f};
    }
    r := Fail(Forbidden, DeniedMessage(level));
  }

  /** An unknown list is NotFound at every level, for everyone. */
  lemma MissingList(
    lists: map<ListId, ListRow>, listShares: set<(ListId, FamilyId)>, members: map<(FamilyId, UserId), Member>,
    userId: UserId, listId: ListId, level: AccessLevel)
    requires listId !in lists
    ensures Access(lists, listShares, members, userId, listId, level).FailedWith(NotFound, "List not found")
  {
  }

  /** The owner always has full access, whatever the shares and memberships. */
  lemma OwnerHasFullAccess(
    lists: map<ListId, ListRow>, listShares: set<(ListId, FamilyId)>, members: map<(FamilyId, UserId), Member>,
    listId: ListId, level: AccessLevel)
    requires listId in lists
    ensures Access(lists, listShares, members, lists[listId].ownerId, listId, level).Ok?
  {
  }

  /** A list shared with no family is private to its owner. */
  lemma PrivateListIsOwnerOnly(
    lists: map<ListId, ListRow>, listShares: set<(ListId, FamilyId)>, members: map<(FamilyId, UserId), Member>,
    userId: UserId, listId: ListId, level: AccessLevel)
    requires listId in lists && lists[listId].ownerId != userId && SharesOf(listShares, listId) == {}
    ensures Access(lists, listShares, members, userId, listId, level).FailedWith(Forbidden, "Access denied: Private list")
  {
  }

  /** A non-owner can read exactly when they belong to some family the list is shared with. */
  lemma ReadAccessIff(
    lists: map<ListId, ListRow>, listShares: set<(ListId, FamilyId)>, members: map<(FamilyId, UserId), Member>,
    userId: UserId, listId: ListId)
    requires listId in lists && lists[listId].ownerId != userId
    ensures Access(lists, listShares, members, userId, listId, Read).Ok? <==>
      exists f :: (listId, f) in listShares && (f, userId) in members
    ensures Access(lists, listShares, members, userId, listId, Read).Err? ==>
      Access(lists, listShares, members, userId, listId, Read).failure.Service?
  {
    if exists f :: (listId, f) in listShares && (f, userId) in members {
      var f :| (listId, f) in listShares && (f, userId) in members;
      assert f in SharesOf(listShares, listId);
    }
  }

  /** A non-owner can write exactly when they are an admin of some family the list is shared with. */
  lemma WriteAccessIff(
    lists: map<ListId, ListRow>, listShares: set<(ListId, FamilyId)>, members: map<(FamilyId, UserId), Member>,
    userId: UserId, listId: ListId)
    requires listId in lists && lists[listId].ownerId != userId
    ensures Access(lists, listShares, members, userId, listId, Write).Ok? <==>
      exists f :: (listId, f) in listShares && RoleIn(members, f, userId) == Some(Admin)
  {
    if exists f :: (listId, f) in listShares && RoleIn(members, f, userId) == Some(Admin) {
      var f :| (listId, f) in listShares && RoleIn(members, f, userId) == Some(Admin);
      assert f in SharesOf(listShares, listId);
    }
  }

  /** Write access implies read access; a denied write to a shared list names the admin requirement. */
  lemma WriteImpliesRead(
    lists: map<ListId, ListRow>, listShares: set<(ListId, FamilyId)>, members: map<(FamilyId, UserId), Member>,
    userId: UserId, listId: ListId)
    ensures Access(lists, listShares, members, userId, listId, Write).Ok? ==>
      Access(lists, listShares, members, userId, listId, Read) == Access(lists, listShares, members, userId, listId, Write)
    ensures (listId in lists && lists[listId].ownerId != userId && SharesOf(listShares, listId) != {}
             && Access(lists, listShares, members, userId, listId, Write).Err?) ==>
      Access(lists, listShares, members, userId, listId, Write).FailedWith(Forbidden, "Write access requires family admin role")
  {
  }
}
