/**
 * `FamiliesService`: the family membership state machine. A family is
 * created with its creator as ADMIN; admins rename it, change roles, remove
 * other members, create invites and (as the only admin) delete it; members
 * leave, but neither the only member nor the last admin can; an invite adds
 * a READER once. A user's favourite family is cleared when they leave it
 * and when it is deleted.
 */
module Families {
  import opened Common
  import opened Errors
  import opened Store
  import FamilyAccess
  import Query

  /** The users of a family. */
  function MembersOf(members: map<(FamilyId, UserId), Member>, familyId: FamilyId): (users: set<UserId>)
    ensures forall u :: u in users <==> (familyId, u) in members
  {
    set k | k in members && k.0 == familyId :: k.1
  }

  /** The users who are ADMIN of a family. */
  function AdminsOf(members: map<(FamilyId, UserId), Member>, familyId: FamilyId): (admins: set<UserId>)
    ensures forall u :: u in admins <==> RoleIn(members, familyId, u) == Some(Admin)
    ensures admins <= MembersOf(members, familyId)
  {
    set k | k in members && k.0 == familyId && members[k].role == Admin :: k.1
  }

  /** `userSettings.favoriteFamilyId`, with no settings row read as none. */
  function FavoriteOf(favorites: map<UserId, Option<FamilyId>>, userId: UserId): Option<FamilyId> {
    if userId in favorites then favorites[userId] else None
  }

  // ---------------------------------------------------------------- listMyFamilies

  /** One entry of `listMyFamilies`. */
  datatype FamilyView = FamilyView(familyId: FamilyId, family: Family, myRole: Role, isFavorite: bool)

  /** Membership rows by their creation time: the `orderBy: { createdAt: "asc" }`. */
  function JoinedBefore(a: ((FamilyId, UserId), Member), b: ((FamilyId, UserId), Member)): bool {
    a.1.createdAt <= b.1.createdAt
  }

  lemma JoinedBeforeIsTotalPreorder()
    ensures Query.IsTotalPreorder(JoinedBefore)
  {
  }

  /** The view of each membership row, marking the one family the settings name as favourite. */
  function FamilyViews(rows: seq<((FamilyId, UserId), Member)>, families: map<FamilyId, Family>, favorite: Option<FamilyId>)
    : (views: seq<FamilyView>)
    requires forall i :: 0 <= i < |rows| ==> rows[i].0.0 in families
    ensures |views| == |rows|
    ensures forall i :: 0 <= i < |rows| ==> views[i] == FamilyView(rows[i].0.0, families[rows[i].0.0], rows[i].1.role, favorite == Some(rows[i].0.0))
  {
    seq(|rows|, i requires 0 <= i < |rows| => FamilyView(rows[i].0.0, families[rows[i].0.0], rows[i].1.role, favorite == Some(rows[i].0.0)))
  }

  /**
   * `listMyFamilies`: the caller's memberships, oldest first, each with its
   * family, the caller's role and whether it is the favourite. Every
   * membership row has its family (a foreign key).
   */
  method ListMyFamilies(db: Db, userId: UserId) returns (views: seq<FamilyView>)
    requires forall k :: k in db.members ==> k.0 in db.families
    ensures forall i :: 0 <= i < |views| ==> ((views[i].familyId, userId) in db.members
      && views[i].family == db.families[views[i].familyId]
      && views[i].myRole == db.members[(views[i].familyId, userId)].role)
    ensures forall f :: (f, userId) in db.members ==> exists i :: 0 <= i < |views| && views[i].familyId == f
    ensures forall i, j :: 0 <= i < j < |views| ==> views[i].familyId != views[j].familyId
    ensures forall i, j :: 0 <= i < j < |views| ==>
      db.members[(views[i].familyId, userId)].createdAt <= db.members[(views[j].familyId, userId)].createdAt
    ensures forall i :: 0 <= i < |views| ==> (views[i].isFavorite <==> FavoriteOf(db.favorites, userId) == Some(views[i].familyId))
  {
    var found := Query.FindMany(db.members, (k: (FamilyId, UserId), m: Member) => k.1 == userId);
    JoinedBeforeIsTotalPreorder();
    var rows := Query.OrderBy(found, JoinedBefore);
    Query.OrderByKeepsKeysDistinct(found, JoinedBefore);
    forall i | 0 <= i < |rows| ensures rows[i].0 in db.members && db.members[rows[i].0] == rows[i].1 && rows[i].0.1 == userId {
      Query.OrderByKeepsRows(found, JoinedBefore, rows[i]);
    }
    forall f | (f, userId) in db.members ensures exists i :: 0 <= i < |rows| && rows[i].0.0 == f {
      Query.OrderByKeepsRows(found, JoinedBefore, ((f, userId), db.members[(f, userId)]));
    }
    views := FamilyViews(rows, db.families, FavoriteOf(db.favorites, userId));
  }

  /** At most one listed family is the favourite, since a user is a member of each family once. */
  lemma AtMostOneFavorite(views: seq<FamilyView>, favorite: Option<FamilyId>)
    requires forall i, j :: 0 <= i < j < |views| ==> views[i].familyId != views[j].familyId
    requires forall i :: 0 <= i < |views| ==> (views[i].isFavorite <==> favorite == Some(views[i].familyId))
    ensures forall i, j :: 0 <= i < |views| && 0 <= j < |views| && views[i].isFavorite && views[j].isFavorite ==> i == j
    ensures favorite.None? ==> forall i :: 0 <= i < |views| ==> !views[i].isFavorite
  {
  }

  // ---------------------------------------------------------------- createFamily / updateFamily

  /**
   * `createFamily`: the family and its creator's ADMIN membership in one
   * write. The id and the creation time are the database's.
   */
  method CreateFamily(db: Db, userId: UserId, name: string, newId: FamilyId, createdAt: int) returns (family: Family)
    requires newId !in db.families
    modifies db`families, db`members
    ensures family == Family(name, userId, createdAt)
    ensures db.families == old(db.families)[newId := family]
    ensures db.members == old(db.members)[(newId, userId) := Member(Admin, createdAt)]
  {
    family := Family(name, userId, createdAt);
    db.families := db.families[newId := family];
    db.members := db.members[(newId, userId) := Member(Admin, createdAt)];
  }

  /** The creator of a family is its admin, and passes every admin check on it. */
  lemma CreatorIsAdmin(members: map<(FamilyId, UserId), Member>, userId: UserId, newId: FamilyId, createdAt: int)
    requires forall k :: k in members ==> k.0 != newId
    ensures var after := members[(newId, userId) := Member(Admin, createdAt)];
      FamilyAccess.RequireFamilyAdmin(after, userId, newId).Ok?
      && AdminsOf(after, newId) == MembersOf(after, newId) == {userId}
  {
    var after := members[(newId, userId) := Member(Admin, createdAt)];
    assert MembersOf(after, newId) == {userId};
  }

  /** `updateFamily`: admin only, then the rename (a missing family row makes the update fail). */
  method UpdateFamily(db: Db, userId: UserId, familyId: FamilyId, name: string) returns (r: Result<Family>)
    modifies db`families
    ensures var admin := old(FamilyAccess.RequireFamilyAdmin(db.members, userId, familyId));
      (admin.Err? ==> r == Err(admin.failure))
      && (admin.Ok? && familyId !in old(db.families) ==> r == Err(RecordNotFound))
      && (r.Ok? <==> admin.Ok? && familyId in old(db.families))
    ensures r.Err? ==> db.families == old(db.families)
    ensures r.Ok? ==> r.value == old(db.families)[familyId].(name := name) && db.families == old(db.families)[familyId := r.value]
  {
    var admin := FamilyAccess.RequireFamilyAdmin(db.members, userId, familyId);
    if admin.Err? {
      return Err(admin.failure);
    }
    if familyId !in db.families {
      return Err(RecordNotFound);
    }
    var family := db.families[familyId].(name := name);
    db.families := db.families[familyId := family];
    r := Ok(family);
  }

  // ---------------------------------------------------------------- favourites

  /**
   * `setFavoriteFamily`: a given family must be one the caller belongs to;
   * then the settings row is upserted. An omitted id (`Keep`) leaves an
   * existing favourite as it is and creates a missing row with none; an
   * explicit `null` (`Set(None)`) clears it; a family id writes it.
   */
  method SetFavoriteFamily(db: Db, userId: UserId, familyId: Patch<Option<FamilyId>>) returns (r: Outcome)
    modifies db`favorites
    ensures familyId.Set? && familyId.value.Some? ==>
      var member := old(FamilyAccess.RequireFamilyMember(db.members, userId, familyId.value.value));
      (r.Ok? <==> member.Ok?) && (member.Err? ==> r == Err(member.failure))
    ensures familyId.Keep? || familyId.value.None? ==> r.Ok?
    ensures r.Err? ==> db.favorites == old(db.favorites)
    ensures r.Ok? && familyId.Set? ==> db.favorites == old(db.favorites)[userId := familyId.value]
    ensures r.Ok? && familyId.Keep? && userId in old(db.favorites) ==> db.favorites == old(db.favorites)
    ensures r.Ok? && familyId.Keep? && userId !in old(db.favorites) ==> db.favorites == old(db.favorites)[userId := None]
  {
    if familyId.Set? && familyId.value.Some? {
      var member := FamilyAccess.RequireFamilyMember(db.members, userId, familyId.value.value);
      if member.Err? {
        return Err(member.failure);
      }
    }
    var current := if userId in db.favorites then db.favorites[userId] else None;
    db.favorites := db.favorites[userId := familyId.ApplyTo(current)];
    r := Done;
  }

  /** The `updateMany` that clears one user's favourite if it is this family. */
  function ClearFavoriteOf(favorites: map<UserId, Option<FamilyId>>, userId: UserId, familyId: FamilyId)
    : (r: map<UserId, Option<FamilyId>>)
    ensures r.Keys == favorites.Keys
    ensures forall u :: u in favorites && u != userId ==> r[u] == favorites[u]
    ensures userId in favorites ==> r[userId] == if favorites[userId] == Some(familyId) then None else favorites[userId]
  {
    if userId in favorites && favorites[userId] == Some(familyId) then favorites[userId := None] else favorites
  }

  /** The `updateMany` that clears every favourite pointing at this family. */
  function ClearFavoritesOf(favorites: map<UserId, Option<FamilyId>>, familyId: FamilyId): (r: map<UserId, Option<FamilyId>>)
    ensures r.Keys == favorites.Keys
    ensures forall u :: u in r ==> r[u] == if favorites[u] == Some(familyId) then None else favorites[u]
  {
    map u | u in favorites :: if favorites[u] == Some(familyId) then None else favorites[u]
  }

  // ---------------------------------------------------------------- roles and members

  /** `updateMemberRole`: admin only; the target must be a member. */
  method UpdateMemberRole(db: Db, userId: UserId, familyId: FamilyId, targetUserId: UserId, role: Role) returns (r: Result<Member>)
    modifies db`members
    ensures var admin := FamilyAccess.RequireFamilyAdmin(old(db.members), userId, familyId);
      (admin.Err? ==> r == Err(admin.failure))
      && (admin.Ok? && (familyId, targetUserId) !in old(db.members) ==> r.FailedWith(NotFound, "Member not found"))
      && (r.Ok? <==> admin.Ok? && (familyId, targetUserId) in old(db.members))
    ensures r.Err? ==> db.members == old(db.members)
    ensures r.Ok? ==> r.value == old(db.members)[(familyId, targetUserId)].(role := role)
    ensures r.Ok? ==> db.members == old(db.members)[(familyId, targetUserId) := r.value]
  {
    var admin := FamilyAccess.RequireFamilyAdmin(db.members, userId, familyId);
    if admin.Err? {
      return Err(admin.failure);
    }
    if (familyId, targetUserId) !in db.members {
      return Fail(NotFound, "Member not found");
    }
    var member := db.members[(familyId, targetUserId)].(role := role);
    db.members := db.members[(familyId, targetUserId) := member];
    r := Ok(member);
  }

  /**
   * `removeMember`: admin only; an admin cannot remove themselves and the
   * target must be a member; then the target's favourite is cleared if it
   * was this family, and the membership is deleted.
   */
  method RemoveMember(db: Db, userId: UserId, familyId: FamilyId, targetUserId: UserId) returns (r: Outcome)
    modifies db`favorites, db`members
    ensures var admin := FamilyAccess.RequireFamilyAdmin(old(db.members), userId, familyId);
      (admin.Err? ==> r == Err(admin.failure))
      && (admin.Ok? && userId == targetUserId ==> r.FailedWith(BadRequest, "Cannot remove yourself"))
      && (admin.Ok? && userId != targetUserId && (familyId, targetUserId) !in old(db.members) ==> r.FailedWith(NotFound, "Member not found"))
      && (r.Ok? <==> admin.Ok? && userId != targetUserId && (familyId, targetUserId) in old(db.members))
    ensures r.Err? ==> unchanged(db`favorites, db`members)
    ensures r.Ok? ==> db.favorites == ClearFavoriteOf(old(db.favorites), targetUserId, familyId)
    ensures r.Ok? ==> db.members == old(db.members) - {(familyId, targetUserId)}
  {
    var admin := FamilyAccess.RequireFamilyAdmin(db.members, userId, familyId);
    if admin.Err? {
      return Err(admin.failure);
    }
    if userId == targetUserId {
      return Fail(BadRequest, "Cannot remove yourself");
    }
    if (familyId, targetUserId) !in db.members {
      return Fail(NotFound, "Member not found");
    }
    db.favorites := ClearFavoriteOf(db.favorites, targetUserId, familyId);
    db.members := db.members - {(familyId, targetUserId)};
    r := Done;
  }

  /** Removing another member keeps the remover, an admin, in the family. */
  lemma RemoveMemberKeepsRemover(members: map<(FamilyId, UserId), Member>, userId: UserId, familyId: FamilyId, targetUserId: UserId)
    requires FamilyAccess.RequireFamilyAdmin(members, userId, familyId).Ok? && userId != targetUserId
    ensures userId in AdminsOf(members - {(familyId, targetUserId)}, familyId)
  {
  }

  /** The guards of `leaveFamily`, in order. */
  function LeaveCheck(members: map<(FamilyId, UserId), Member>, userId: UserId, familyId: FamilyId): (r: Outcome)
    ensures var me := FamilyAccess.RequireFamilyMember(members, userId, familyId);
      (me.Err? ==> r == Err(me.failure))
      && (me.Ok? && |MembersOf(members, familyId)| == 1 ==> r.FailedWith(BadRequest, "Cannot leave the only-member family"))
      && (me.Ok? && |MembersOf(members, familyId)| != 1 && me.value.member.role == Admin && AdminsOf(members, familyId) == {userId} ==>
           r.FailedWith(BadRequest, "Admin cannot leave without another admin"))
    ensures r.Ok? <==> ((familyId, userId) in members && |MembersOf(members, familyId)| != 1
      && (members[(familyId, userId)].role == Admin ==> AdminsOf(members, familyId) != {userId}))
  {
    var me :- FamilyAccess.RequireFamilyMember(members, userId, familyId);
    if |MembersOf(members, familyId)| == 1 then Fail(BadRequest, "Cannot leave the only-member family")
    else if me.member.role == Admin && AdminsOf(members, familyId) - {userId} == {} then
      assert AdminsOf(members, familyId) == {userId};
      Fail(BadRequest, "Admin cannot leave without another admin")
    else
      assert me.member.role == Admin ==> userId in AdminsOf(members, familyId);
      Done
  }

  /**
   * `leaveFamily`: the checks, then the caller's favourite is cleared if it
   * was this family, and the caller's membership is deleted.
   */
  method LeaveFamily(db: Db, userId: UserId, familyId: FamilyId) returns (r: Outcome)
    modifies db`favorites, db`members
    ensures var check := LeaveCheck(old(db.members), userId, familyId);
      (r.Ok? <==> check.Ok?) && (check.Err? ==> r == Err(check.failure))
    ensures r.Err? ==> unchanged(db`favorites, db`members)
    ensures r.Ok? ==> db.favorites == ClearFavoriteOf(old(db.favorites), userId, familyId)
    ensures r.Ok? ==> db.members == old(db.members) - {(familyId, userId)}
  {
    var check := LeaveCheck(db.members, userId, familyId);
    if check.Err? {
      return Err(check.failure);
    }
    db.favorites := ClearFavoriteOf(db.favorites, userId, familyId);
    db.members := db.members - {(familyId, userId)};
    r := Done;
  }

  /**
   * A leave never empties a family and never removes its last admin: a
   * family that had an admin still has one afterwards.
   */
  lemma LeaveKeepsAnAdmin(members: map<(FamilyId, UserId), Member>, userId: UserId, familyId: FamilyId)
    requires LeaveCheck(members, userId, familyId).Ok?
    ensures MembersOf(members - {(familyId, userId)}, familyId) != {}
    ensures AdminsOf(members, familyId) != {} ==> AdminsOf(members - {(familyId, userId)}, familyId) != {}
  {
    var before := MembersOf(members, familyId);
    var after := members - {(familyId, userId)};
    assert userId in before;
    assert MembersOf(after, familyId) == before - {userId};
    assert |before - {userId}| == |before| - 1;
    var admins := AdminsOf(members, familyId);
    if admins != {} {
      assert AdminsOf(after, familyId) == admins - {userId};
      var a :| a in admins;
      if a == userId {
        assert admins != {userId};
        var b :| b in admins && b != userId;
        assert b in AdminsOf(after, familyId);
      } else {
        assert a in AdminsOf(after, familyId);
      }
    }
  }

  // ---------------------------------------------------------------- deleteFamily

  /** What `cleanupFamilyData` and the final delete leave of the tables. */
  datatype FamilyTables = FamilyTables(
    favorites: map<UserId, Option<FamilyId>>, invites: map<string, Invite>, members: map<(FamilyId, UserId), Member>,
    listShares: set<(ListId, FamilyId)>, productShares: set<(FamilyId, ProductId)>,
    locationShares: set<(FamilyId, LocationId)>, templateShares: set<(FamilyId, TemplateId)>, families: map<FamilyId, Family>)

  /** The cleanup and the delete: nothing of the family is left, everything else is kept. */
  function Cleaned(t: FamilyTables, familyId: FamilyId): (c: FamilyTables)
    ensures c.favorites == ClearFavoritesOf(t.favorites, familyId)
    ensures forall token :: token in c.invites <==> token in t.invites && t.invites[token].familyId != familyId
    ensures forall token :: token in c.invites ==> c.invites[token] == t.invites[token]
    ensures forall k :: k in c.members <==> k in t.members && k.0 != familyId
    ensures forall k :: k in c.members ==> c.members[k] == t.members[k]
    ensures forall p :: p in c.listShares <==> p in t.listShares && p.1 != familyId
    ensures forall p :: p in c.productShares <==> p in t.productShares && p.0 != familyId
    ensures forall p :: p in c.locationShares <==> p in t.locationShares && p.0 != familyId
    ensures forall p :: p in c.templateShares <==> p in t.templateShares && p.0 != familyId
    ensures c.families == t.families - {familyId}
  {
    FamilyTables(
      ClearFavoritesOf(t.favorites, familyId),
      (map token | token in t.invites && t.invites[token].familyId != familyId :: t.invites[token]),
      (map k | k in t.members && k.0 != familyId :: t.members[k]),
      (set p | p in t.listShares && p.1 != familyId),
      (set p | p in t.productShares && p.0 != familyId),
      (set p | p in t.locationShares && p.0 != familyId),
      (set p | p in t.templateShares && p.0 != familyId),
      t.families - {familyId})
  }

  /** After the deletion no favourite, invite, membership or share names the family. */
  lemma CleanedLeavesNoTrace(t: FamilyTables, familyId: FamilyId)
    ensures var c := Cleaned(t, familyId);
      familyId !in c.families
      && (forall u :: u in c.favorites ==> c.favorites[u] != Some(familyId))
      && (forall token :: token in c.invites ==> c.invites[token].familyId != familyId)
      && MembersOf(c.members, familyId) == {}
      && (forall p :: p in c.listShares ==> p.1 != familyId)
      && (forall p :: p in c.productShares ==> p.0 != familyId)
      && (forall p :: p in c.locationShares ==> p.0 != familyId)
      && (forall p :: p in c.templateShares ==> p.0 != familyId)
  {
  }

  /** The checks of `deleteFamily`: admin only, and no other admin. */
  function DeleteCheck(members: map<(FamilyId, UserId), Member>, userId: UserId, familyId: FamilyId): (r: Outcome)
    ensures var admin := FamilyAccess.RequireFamilyAdmin(members, userId, familyId);
      (admin.Err? ==> r == Err(admin.failure))
      && (admin.Ok? && |AdminsOf(members, familyId)| > 1 ==> r.FailedWith(BadRequest, "Cannot delete family when multiple admins exist"))
      && (r.Ok? <==> admin.Ok? && |AdminsOf(members, familyId)| <= 1)
  {
    var _ :- FamilyAccess.RequireFamilyAdmin(members, userId, familyId);
    if |AdminsOf(members, familyId)| > 1 then Fail(BadRequest, "Cannot delete family when multiple admins exist") else Done
  }

  /** Only the sole admin of a family gets past the checks of `deleteFamily`. */
  lemma DeleteOnlyBySoleAdmin(members: map<(FamilyId, UserId), Member>, userId: UserId, familyId: FamilyId)
    ensures DeleteCheck(members, userId, familyId).Ok? <==> AdminsOf(members, familyId) == {userId}
  {
    var admins := AdminsOf(members, familyId);
    if DeleteCheck(members, userId, familyId).Ok? {
      assert userId in admins;
      if admins != {userId} {
        var other :| other in admins && other != userId;
        assert {userId, other} <= admins;
        assert |{userId, other}| == 2;
        SubsetCardinality({userId, other}, admins);
      }
    }
  }

  /** The tables `deleteFamily` changes, as they are now. */
  function TablesOf(db: Db): FamilyTables
    reads db
  {
    FamilyTables(db.favorites, db.invites, db.members, db.listShares, db.productShares, db.locationShares, db.templateShares, db.families)
  }

  /**
   * `deleteFamily`: the checks, then the cleanup and the delete in one
   * transaction, which a missing family row aborts.
   */
  method DeleteFamily(db: Db, userId: UserId, familyId: FamilyId) returns (r: Outcome)
    modifies db`favorites, db`invites, db`members, db`listShares, db`productShares, db`locationShares, db`templateShares, db`families
    ensures var check := DeleteCheck(old(db.members), userId, familyId);
      (check.Err? ==> r == Err(check.failure))
      && (check.Ok? && familyId !in old(db.families) ==> r == Err(RecordNotFound))
      && (r.Ok? <==> check.Ok? && familyId in old(db.families))
    ensures r.Err? ==> TablesOf(db) == old(TablesOf(db))
    ensures r.Ok? ==> TablesOf(db) == Cleaned(old(TablesOf(db)), familyId)
  {
    var check := DeleteCheck(db.members, userId, familyId);
    if check.Err? {
      return Err(check.failure);
    }
    if familyId !in db.families {
      return Err(RecordNotFound);
    }
    var c := Cleaned(TablesOf(db), familyId);
    db.favorites, db.invites, db.members := c.favorites, c.invites, c.members;
    db.listShares, db.productShares, db.locationShares, db.templateShares := c.listShares, c.productShares, c.locationShares, c.templateShares;
    db.families := c.families;
    r := Done;
  }

  // ---------------------------------------------------------------- invites

  /** `createInvite`: admin only; the random token is a parameter. */
  method CreateInvite(db: Db, userId: UserId, familyId: FamilyId, token: string) returns (r: Result<Invite>)
    requires token !in db.invites
    modifies db`invites
    ensures var admin := old(FamilyAccess.RequireFamilyAdmin(db.members, userId, familyId));
      (r.Ok? <==> admin.Ok?) && (admin.Err? ==> r == Err(admin.failure) && db.invites == old(db.invites))
    ensures r.Ok? ==> r.value == Invite(familyId, userId, None, None) && db.invites == old(db.invites)[token := r.value]
  {
    var admin := FamilyAccess.RequireFamilyAdmin(db.members, userId, familyId);
    if admin.Err? {
      return Err(admin.failure);
    }
    var invite := Invite(familyId, userId, None, None);
    db.invites := db.invites[token := invite];
    r := Ok(invite);
  }

  predicate Used(invite: Invite) {
    invite.usedAt.Some? || invite.usedById.Some?
  }

  /**
   * `acceptInvite`: NotFound for an unknown token, BadRequest for a used
   * invite; an existing member gets `alreadyMember` and the invite stays
   * unused; anyone else becomes a READER and the invite is marked used by
   * them. The result is `alreadyMember`.
   */
  method AcceptInvite(db: Db, userId: UserId, token: string, now: int) returns (r: Result<bool>)
    modifies db`members, db`invites
    ensures token !in old(db.invites) ==> r.FailedWith(NotFound, "Invite not found")
    ensures token in old(db.invites) && Used(old(db.invites)[token]) ==> r.FailedWith(BadRequest, "Invite already used")
    ensures r.Ok? <==> token in old(db.invites) && !Used(old(db.invites)[token])
    ensures r.Err? || r.value ==> unchanged(db`members, db`invites)
    ensures r.Ok? ==> (r.value <==> (old(db.invites)[token].familyId, userId) in old(db.members))
    ensures r.Ok? && !r.value ==> var invite := old(db.invites)[token];
      db.members == old(db.members)[(invite.familyId, userId) := Member(Reader, now)]
      && db.invites == old(db.invites)[token := invite.(usedAt := Some(now), usedById := Some(userId))]
  {
    if token !in db.invites {
      return Fail(NotFound, "Invite not found");
    }
    var invite := db.invites[token];
    if Used(invite) {
      return Fail(BadRequest, "Invite already used");
    }
    if (invite.familyId, userId) in db.members {
      return Ok(true);
    }
    db.members := db.members[(invite.familyId, userId) := Member(Reader, now)];
    db.invites := db.invites[token := invite.(usedAt := Some(now), usedById := Some(userId))];
    r := Ok(false);
  }

  /**
   * An accepted invite makes the caller a member, and cannot be accepted
   * again: a second accept, by anyone, fails as used.
   */
  lemma AcceptedInviteIsSpent(invites: map<string, Invite>, members: map<(FamilyId, UserId), Member>, userId: UserId, token: string, now: int)
    requires token in invites && !Used(invites[token]) && (invites[token].familyId, userId) !in members
    ensures var invite := invites[token];
      var after := invites[token := invite.(usedAt := Some(now), usedById := Some(userId))];
      Used(after[token])
      && FamilyAccess.RequireFamilyMember(members[(invite.familyId, userId) := Member(Reader, now)], userId, invite.familyId).Ok?
      && FamilyAccess.RequireFamilyAdmin(members[(invite.familyId, userId) := Member(Reader, now)], userId, invite.familyId).Err?
  {
  }
}
