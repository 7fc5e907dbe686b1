/**
 * The ownership and family-sharing rules templates, products and locations
 * have in common: the all-or-nothing ownership count of a batch, the
 * replacement of the caller's shares with one family (`setSharing`), and the
 * owner-only 0-based reorder. A row's owner is read through `ownerOf`.
 */
module Sharing {
  import opened Common
  import opened Errors
  import Reorder

  /** The ids of a `findMany({ where: { id: { in: ids }, ownerId: userId } })`: each matching row once. */
  function OwnedAmong<V>(table: map<string, V>, ownerOf: V -> UserId, userId: UserId, ids: seq<string>): (found: set<string>)
    ensures found <= Elements(ids)
    ensures forall id :: id in found <==> id in ids && id in table && ownerOf(table[id]) == userId
  {
    set id | id in ids && id in table && ownerOf(table[id]) == userId
  }

  /** Every id names a row the caller owns. */
  predicate AllOwned<V>(table: map<string, V>, ownerOf: V -> UserId, userId: UserId, ids: seq<string>) {
    forall i :: 0 <= i < |ids| ==> ids[i] in table && ownerOf(table[ids[i]]) == userId
  }

  /**
   * The batch test `found.length === ids.length`: it passes exactly when every
   * id is a row the caller owns and no id is given twice.
   */
  lemma BatchGate<V>(table: map<string, V>, ownerOf: V -> UserId, userId: UserId, ids: seq<string>)
    ensures |OwnedAmong(table, ownerOf, userId, ids)| == |ids| <==> Distinct(ids) && AllOwned(table, ownerOf, userId, ids)
  {
    var found := OwnedAmong(table, ownerOf, userId, ids);
    BatchCountTest(ids, found);
    if AllOwned(table, ownerOf, userId, ids) {
      assert found == Elements(ids);
    }
  }

  /** A share of `familyId` on a row the caller owns: what `deleteMany({ where: { familyId, <row>: { ownerId } } })` removes. */
  predicate CallersShare<V>(table: map<string, V>, ownerOf: V -> UserId, userId: UserId, familyId: FamilyId, p: (FamilyId, string)) {
    p.0 == familyId && p.1 in table && ownerOf(table[p.1]) == userId
  }

  /**
   * `setSharing` on the share table: the caller's shares with `familyId` are
   * deleted, then one share is created per requested id the caller owns.
   */
  function ReplacedShares<V>(shares: set<(FamilyId, string)>, table: map<string, V>, ownerOf: V -> UserId,
                             userId: UserId, familyId: FamilyId, ids: seq<string>): (r: set<(FamilyId, string)>)
  {
    (set p | p in shares && !CallersShare(table, ownerOf, userId, familyId, p))
      + (set id | id in OwnedAmong(table, ownerOf, userId, ids) :: (familyId, id))
  }

  /**
   * After `setSharing`, a row the caller owns is shared with the family
   * exactly when it was requested; the shares of other families and of rows
   * the caller does not own are as they were.
   */
  lemma ReplacedSharesExact<V>(shares: set<(FamilyId, string)>, table: map<string, V>, ownerOf: V -> UserId,
                               userId: UserId, familyId: FamilyId, ids: seq<string>)
    ensures var r := ReplacedShares(shares, table, ownerOf, userId, familyId, ids);
      (forall id :: id in table && ownerOf(table[id]) == userId ==> ((familyId, id) in r <==> id in ids))
      && (forall p :: p in shares && p.0 != familyId ==> p in r)
      && (forall p :: p in r && p.0 != familyId ==> p in shares)
      && (forall id :: (id !in table || ownerOf(table[id]) != userId) ==> ((familyId, id) in r <==> (familyId, id) in shares))
  {
    var r := ReplacedShares(shares, table, ownerOf, userId, familyId, ids);
    forall id | id in table && ownerOf(table[id]) == userId && id in ids ensures (familyId, id) in r {
      assert id in OwnedAmong(table, ownerOf, userId, ids);
    }
  }

  /** Replacing the shares with the same request twice gives the same table as once. */
  lemma ReplacedSharesIdempotent<V>(shares: set<(FamilyId, string)>, table: map<string, V>, ownerOf: V -> UserId,
                                    userId: UserId, familyId: FamilyId, ids: seq<string>)
    ensures var once := ReplacedShares(shares, table, ownerOf, userId, familyId, ids);
      ReplacedShares(once, table, ownerOf, userId, familyId, ids) == once
  {
    var once := ReplacedShares(shares, table, ownerOf, userId, familyId, ids);
    var twice := ReplacedShares(once, table, ownerOf, userId, familyId, ids);
    ReplacedSharesExact(shares, table, ownerOf, userId, familyId, ids);
    ReplacedSharesExact(once, table, ownerOf, userId, familyId, ids);
    forall p | p in once ensures p in twice {
      if p.0 == familyId {
        assert (familyId, p.1) in once;
      }
    }
  }

  /**
   * `update({ where: { id, ownerId: userId }, data: { sortIndex: index } })`
   * per id in one transaction: an id that is missing or not the caller's
   * aborts the whole reorder.
   */
  function OwnedReorder<V>(table: map<string, V>, ownerOf: V -> UserId, userId: UserId, ids: seq<string>, setIndex: (V, int) -> V)
    : (r: Result<map<string, V>>)
    ensures r.Err? <==> !AllOwned(table, ownerOf, userId, ids)
    ensures r.Err? ==> r.failure == RecordNotFound
    ensures r.Ok? ==> r.value.Keys == table.Keys && forall id :: id in table && id !in ids ==> r.value[id] == table[id]
  {
    if AllOwned(table, ownerOf, userId, ids) then Ok(Reorder.Renumbered(table, ids, setIndex)) else Err(RecordNotFound)
  }

  /** A successful reorder without repeated ids gives `ids[i]` the index `i`. */
  lemma OwnedReorderIndices<V>(table: map<string, V>, ownerOf: V -> UserId, userId: UserId, ids: seq<string>, setIndex: (V, int) -> V)
    requires OwnedReorder(table, ownerOf, userId, ids, setIndex).Ok? && Distinct(ids)
    ensures forall i :: 0 <= i < |ids| ==> OwnedReorder(table, ownerOf, userId, ids, setIndex).value[ids[i]] == setIndex(table[ids[i]], i)
  {
    Reorder.DistinctIdsTakeTheirIndex(table, ids, setIndex);
  }
}
