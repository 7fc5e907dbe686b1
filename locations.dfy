/**
 * `LocationsService`: owner-only changes to store locations, keyed by the
 * normalized title; the delete cascade over item links, product default
 * locations and shares; family sharing; and the owner-only reorder.
 */
module Locations {
  import opened Common
  import opened Errors
  import opened Store
  import FamilyAccess
  import Sharing
  import NormalizeKey

  function LocationOwner(l: Location): UserId { l.ownerId }

  /** `requireOwnedLocation`: NotFound for an unknown location, Forbidden for anyone but its owner. */
  function RequireOwnedLocation(locations: map<LocationId, Location>, userId: UserId, locationId: LocationId): (r: Result<Location>)
    ensures r.Ok? <==> locationId in locations && locations[locationId].ownerId == userId
    ensures r.Ok? ==> r.value == locations[locationId]
    ensures locationId !in locations ==> r.FailedWith(NotFound, "Location not found")
    ensures locationId in locations && locations[locationId].ownerId != userId ==> r.FailedWith(Forbidden, "Only owner can modify")
  {
    if locationId !in locations then Fail(NotFound, "Location not found")
    else if locations[locationId].ownerId != userId then Fail(Forbidden, "Only owner can modify")
    else Ok(locations[locationId])
  }

  // ---------------------------------------------------------------- create / update

  /** The row `create` writes. The id, the default sort index and the creation time are the database's. */
  function NewLocation(userId: UserId, title: string, sortIndex: int, createdAt: int): (l: Location)
    ensures l.ownerId == userId && l.title == title && l.sortIndex == sortIndex && l.createdAt == createdAt
  {
    Location(userId, title, NormalizeKey.Normalize(title), sortIndex, createdAt)
  }

  /** A created location is keyed by its normalized title, which has the form of a key. */
  lemma NewLocationKey(userId: UserId, title: string, sortIndex: int, createdAt: int)
    ensures NewLocation(userId, title, sortIndex, createdAt).normalizedKey == NormalizeKey.Normalize(title)
    ensures NormalizeKey.IsKey(NewLocation(userId, title, sortIndex, createdAt).normalizedKey)
  {
    NormalizeKey.NormalizedIsKey(title);
  }

  method Create(db: Db, userId: UserId, title: string, newId: LocationId, sortIndex: int, createdAt: int) returns (l: Location)
    requires newId !in db.locations
    modifies db`locations
    ensures l == NewLocation(userId, title, sortIndex, createdAt)
    ensures db.locations == old(db.locations)[newId := l]
  {
    l := NewLocation(userId, title, sortIndex, createdAt);
    PutLocation(db, newId, l);
  }

  /** The single-row write of `create`. */
  method PutLocation(db: Db, newId: LocationId, row: Location)
    modifies db`locations
    ensures db.locations == old(db.locations)[newId := row]
  {
    db.locations := db.locations[newId := row];
  }

  /** The row after `update`: a given title is written, but only a non-empty one re-keys the location. */
  function UpdatedLocation(l: Location, title: Option<string>): (u: Location)
    ensures u.ownerId == l.ownerId && u.sortIndex == l.sortIndex && u.createdAt == l.createdAt
    ensures u.title == title.GetOr(l.title)
    ensures (title.None? || title.value == "") ==> u.normalizedKey == l.normalizedKey
  {
    l.(title := title.GetOr(l.title),
       normalizedKey := if title.Some? && title.value != "" then NormalizeKey.Normalize(title.value) else l.normalizedKey)
  }

  /** A non-empty new title gives the location that title's key. */
  lemma UpdatedLocationKey(l: Location, title: string)
    requires title != ""
    ensures UpdatedLocation(l, Some(title)).normalizedKey == NormalizeKey.Normalize(title)
    ensures NormalizeKey.IsKey(UpdatedLocation(l, Some(title)).normalizedKey)
  {
    NormalizeKey.NormalizedIsKey(title);
  }

  /** Re-sending a location's own title leaves a row whose key is that title's key as it was. */
  lemma UpdateSameTitleIsNoChange(l: Location)
    requires l.title != "" && l.normalizedKey == NormalizeKey.Normalize(l.title)
    ensures UpdatedLocation(l, Some(l.title)) == l
  {
  }

  method Update(db: Db, userId: UserId, locationId: LocationId, title: Option<string>) returns (r: Result<Location>)
    modifies db`locations
    ensures var owned := RequireOwnedLocation(old(db.locations), userId, locationId);
      (r.Ok? <==> owned.Ok?) && (owned.Err? ==> r == Err(owned.failure) && db.locations == old(db.locations))
    ensures r.Ok? ==> r.value == UpdatedLocation(old(db.locations)[locationId], title)
    ensures r.Ok? ==> db.locations == old(db.locations)[locationId := r.value]
  {
    var owned := RequireOwnedLocation(db.locations, userId, locationId);
    if owned.Err? {
      return Err(owned.failure);
    }
    var l := UpdatedLocation(owned.value, title);
    db.locations := db.locations[locationId := l];
    r := Ok(l);
  }

  // ---------------------------------------------------------------- remove / removeMany

  function DropItemLinks(links: set<(ItemId, LocationId)>, ids: set<LocationId>): (r: set<(ItemId, LocationId)>)
    ensures forall p :: p in r <==> p in links && p.1 !in ids
  {
    set p | p in links && p.1 !in ids
  }

  function DropProductLinks(links: set<(ProductId, LocationId)>, ids: set<LocationId>): (r: set<(ProductId, LocationId)>)
    ensures forall p :: p in r <==> p in links && p.1 !in ids
  {
    set p | p in links && p.1 !in ids
  }

  function DropLocationShares(shares: set<(FamilyId, LocationId)>, ids: set<LocationId>): (r: set<(FamilyId, LocationId)>)
    ensures forall p :: p in r <==> p in shares && p.1 !in ids
  {
    set p | p in shares && p.1 !in ids
  }

  /** The transaction of `remove`/`removeMany`: item links, product default locations, shares, then the rows. */
  method Cascade(db: Db, ids: set<LocationId>)
    modifies db`itemLocations, db`productLocations, db`locationShares, db`locations
    ensures db.itemLocations == DropItemLinks(old(db.itemLocations), ids)
    ensures db.productLocations == DropProductLinks(old(db.productLocations), ids)
    ensures db.locationShares == DropLocationShares(old(db.locationShares), ids)
    ensures db.locations == old(db.locations) - ids
  {
    db.itemLocations := DropItemLinks(db.itemLocations, ids);
    db.productLocations := DropProductLinks(db.productLocations, ids);
    db.locationShares := DropLocationShares(db.locationShares, ids);
    db.locations := db.locations - ids;
  }

  /**
   * After the cascade no link and no share names a deleted location, and
   * those of the other locations are all kept.
   */
  lemma CascadeLeavesNoDangling(itemLinks: set<(ItemId, LocationId)>, productLinks: set<(ProductId, LocationId)>,
                                shares: set<(FamilyId, LocationId)>, ids: set<LocationId>)
    ensures forall p :: p in DropItemLinks(itemLinks, ids) ==> p.1 !in ids
    ensures forall p :: p in DropProductLinks(productLinks, ids) ==> p.1 !in ids
    ensures forall p :: p in DropLocationShares(shares, ids) ==> p.1 !in ids
    ensures forall p :: p in itemLinks && p.1 !in ids ==> p in DropItemLinks(itemLinks, ids)
    ensures forall p :: p in productLinks && p.1 !in ids ==> p in DropProductLinks(productLinks, ids)
  {
  }

  /** `remove`: owner only, then the cascade for one location. */
  method Remove(db: Db, userId: UserId, locationId: LocationId) returns (r: Outcome)
    modifies db`itemLocations, db`productLocations, db`locationShares, db`locations
    ensures var owned := RequireOwnedLocation(old(db.locations), userId, locationId);
      (r.Ok? <==> owned.Ok?) && (owned.Err? ==> r == Err(owned.failure))
    ensures r.Err? ==> unchanged(db`itemLocations, db`productLocations, db`locationShares, db`locations)
    ensures r.Ok? ==> db.itemLocations == DropItemLinks(old(db.itemLocations), {locationId})
    ensures r.Ok? ==> db.productLocations == DropProductLinks(old(db.productLocations), {locationId})
    ensures r.Ok? ==> db.locationShares == DropLocationShares(old(db.locationShares), {locationId})
    ensures r.Ok? ==> db.locations == old(db.locations) - {locationId}
  {
    var owned := RequireOwnedLocation(db.locations, userId, locationId);
    if owned.Err? {
      return Err(owned.failure);
    }
    Cascade(db, {locationId});
    r := Done;
  }

  /** `removeMany`: all or nothing; Forbidden unless every id is a distinct location the caller owns. */
  method RemoveMany(db: Db, userId: UserId, locationIds: seq<LocationId>) returns (r: Outcome)
    modifies db`itemLocations, db`productLocations, db`locationShares, db`locations
    ensures r.Ok? <==> Distinct(locationIds) && Sharing.AllOwned(old(db.locations), LocationOwner, userId, locationIds)
    ensures r.Err? ==> r.FailedWith(Forbidden, "Some locations not found or not owned by you")
    ensures r.Err? ==> unchanged(db`itemLocations, db`productLocations, db`locationShares, db`locations)
    ensures r.Ok? ==> db.itemLocations == DropItemLinks(old(db.itemLocations), Elements(locationIds))
    ensures r.Ok? ==> db.productLocations == DropProductLinks(old(db.productLocations), Elements(locationIds))
    ensures r.Ok? ==> db.locationShares == DropLocationShares(old(db.locationShares), Elements(locationIds))
    ensures r.Ok? ==> db.locations == old(db.locations) - Elements(locationIds)
  {
    var found := Sharing.OwnedAmong(db.locations, LocationOwner, userId, locationIds);
    Sharing.BatchGate(db.locations, LocationOwner, userId, locationIds);
    if |found| != |locationIds| {
      return Fail(Forbidden, "Some locations not found or not owned by you");
    }
    Cascade(db, Elements(locationIds));
    r := Done;
  }

  // ---------------------------------------------------------------- share / unshare / setSharing

  /** `share` on the location share table: owner only, family admin only, then an upsert. */
  function SharedLocation(locations: map<LocationId, Location>, locationShares: set<(FamilyId, LocationId)>,
                          members: map<(FamilyId, UserId), Member>, userId: UserId, locationId: LocationId, familyId: FamilyId)
    : (r: Result<set<(FamilyId, LocationId)>>)
    ensures var owned := RequireOwnedLocation(locations, userId, locationId);
      var admin := FamilyAccess.RequireFamilyAdmin(members, userId, familyId);
      (owned.Err? ==> r == Err(owned.failure))
      && (owned.Ok? && admin.Err? ==> r == Err(admin.failure))
      && (r.Ok? <==> owned.Ok? && admin.Ok?)
    ensures r.Ok? ==> (familyId, locationId) in r.value && forall p :: p != (familyId, locationId) ==> (p in r.value <==> p in locationShares)
  {
    var _ :- RequireOwnedLocation(locations, userId, locationId);
    var _ :- FamilyAccess.RequireFamilyAdmin(members, userId, familyId);
    Ok(locationShares + {(familyId, locationId)})
  }

  /** Sharing a location again changes nothing. */
  lemma ShareIdempotent(locations: map<LocationId, Location>, locationShares: set<(FamilyId, LocationId)>,
                        members: map<(FamilyId, UserId), Member>, userId: UserId, locationId: LocationId, familyId: FamilyId)
    requires SharedLocation(locations, locationShares, members, userId, locationId, familyId).Ok?
    ensures var once := SharedLocation(locations, locationShares, members, userId, locationId, familyId).value;
      SharedLocation(locations, once, members, userId, locationId, familyId) == Ok(once)
  {
  }

  method Share(db: Db, userId: UserId, locationId: LocationId, familyId: FamilyId) returns (r: Outcome)
    modifies db`locationShares
    ensures var shared := SharedLocation(db.locations, old(db.locationShares), db.members, userId, locationId, familyId);
      (r.Ok? <==> shared.Ok?) && (shared.Err? ==> r == Err(shared.failure) && db.locationShares == old(db.locationShares))
      && (shared.Ok? ==> db.locationShares == shared.value)
  {
    var shared := SharedLocation(db.locations, db.locationShares, db.members, userId, locationId, familyId);
    if shared.Err? {
      return Err(shared.failure);
    }
    db.locationShares := shared.value;
    r := Done;
  }

  /** `unshare`: owner only, then `delete` of the share, which fails when the location is not shared with that family. */
  function UnsharedLocation(locations: map<LocationId, Location>, locationShares: set<(FamilyId, LocationId)>,
                            userId: UserId, locationId: LocationId, familyId: FamilyId)
    : (r: Result<set<(FamilyId, LocationId)>>)
    ensures var owned := RequireOwnedLocation(locations, userId, locationId);
      (owned.Err? ==> r == Err(owned.failure))
      && (owned.Ok? && (familyId, locationId) !in locationShares ==> r == Err(RecordNotFound))
      && (r.Ok? <==> owned.Ok? && (familyId, locationId) in locationShares)
    ensures r.Ok? ==> (familyId, locationId) !in r.value && forall p :: p != (familyId, locationId) ==> (p in r.value <==> p in locationShares)
  {
    var _ :- RequireOwnedLocation(locations, userId, locationId);
    if (familyId, locationId) !in locationShares then Err(RecordNotFound) else Ok(locationShares - {(familyId, locationId)})
  }

  method Unshare(db: Db, userId: UserId, locationId: LocationId, familyId: FamilyId) returns (r: Outcome)
    modifies db`locationShares
    ensures var unshared := UnsharedLocation(db.locations, old(db.locationShares), userId, locationId, familyId);
      (r.Ok? <==> unshared.Ok?) && (unshared.Err? ==> r == Err(unshared.failure) && db.locationShares == old(db.locationShares))
      && (unshared.Ok? ==> db.locationShares == unshared.value)
  {
    var unshared := UnsharedLocation(db.locations, db.locationShares, userId, locationId, familyId);
    if unshared.Err? {
      return Err(unshared.failure);
    }
    db.locationShares := unshared.value;
    r := Done;
  }

  /**
   * `setSharing`: family admin only; the caller's location shares with the
   * family become exactly the requested locations they own.
   */
  method SetSharing(db: Db, userId: UserId, familyId: FamilyId, locationIds: seq<LocationId>) returns (r: Outcome)
    modifies db`locationShares
    ensures var admin := old(FamilyAccess.RequireFamilyAdmin(db.members, userId, familyId));
      (r.Ok? <==> admin.Ok?) && (admin.Err? ==> r == Err(admin.failure))
    ensures r.Err? ==> db.locationShares == old(db.locationShares)
    ensures r.Ok? ==> db.locationShares == Sharing.ReplacedShares(old(db.locationShares), db.locations, LocationOwner, userId, familyId, locationIds)
  {
    var admin := FamilyAccess.RequireFamilyAdmin(db.members, userId, familyId);
    if admin.Err? {
      return Err(admin.failure);
    }
    db.locationShares := Sharing.ReplacedShares(db.locationShares, db.locations, LocationOwner, userId, familyId, locationIds);
    r := Done;
  }

  // ---------------------------------------------------------------- reorder

  function WithSortIndex(l: Location, index: int): Location {
    l.(sortIndex := index)
  }

  /** `reorder`: each caller-owned location gets its 0-based position; any other id aborts the transaction. */
  method Reorder(db: Db, userId: UserId, orderedIds: seq<LocationId>) returns (r: Outcome)
    modifies db`locations
    ensures var reordered := Sharing.OwnedReorder(old(db.locations), LocationOwner, userId, orderedIds, WithSortIndex);
      (r.Ok? <==> reordered.Ok?) && (reordered.Err? ==> r == Err(reordered.failure) && db.locations == old(db.locations))
      && (reordered.Ok? ==> db.locations == reordered.value)
  {
    var reordered := Sharing.OwnedReorder(db.locations, LocationOwner, userId, orderedIds, WithSortIndex);
    if reordered.Err? {
      return Err(reordered.failure);
    }
    db.locations := reordered.value;
    r := Done;
  }
}
