/**
 * The 0-based entity reorder shared by lists, templates, products and
 * locations: a transaction of one `update({ sortIndex: index })` per id, in
 * the order of the given ids. An id that is given twice keeps the index of
 * its last occurrence, since that update runs last.
 */
module Reorder {
  import opened Common

  /** The index of the last occurrence of `id` in `ids`. */
  function LastIndex<K(==)>(ids: seq<K>, id: K): (p: nat)
    requires id in ids
    ensures p < |ids| && ids[p] == id
    ensures forall j :: p < j < |ids| ==> ids[j] != id
  {
    if ids[|ids| - 1] == id then |ids| - 1 else LastIndex(ids[..|ids| - 1], id)
  }

  /** Every id of `ids` is a key of `table`. */
  predicate AllIn<K(==), V>(ids: seq<K>, table: map<K, V>) {
    forall i :: 0 <= i < |ids| ==> ids[i] in table
  }

  /**
   * The updates applied in order: each id's row gets, through `setIndex`, the
   * index of that id's last occurrence; an id with no row is skipped, and
   * every other row is as it was. `setIndex` only overwrites the index, so
   * it may be applied to the original row.
   */
  function Renumbered<K(==), V>(table: map<K, V>, ids: seq<K>, setIndex: (V, int) -> V): (t: map<K, V>)
    ensures t.Keys == table.Keys
    ensures forall id :: id in t && id !in ids ==> t[id] == table[id]
    ensures forall id :: id in ids && id in table ==> t[id] == setIndex(table[id], LastIndex(ids, id))
  {
    if ids == [] then table
    else
      var front := ids[..|ids| - 1];
      var last := ids[|ids| - 1];
      var t := Renumbered(table, front, setIndex);
      assert forall id :: id in ids && id != last ==> id in front by {
        forall id | id in ids && id != last ensures id in front {
          var k :| 0 <= k < |ids| && ids[k] == id;
          assert front[k] == id;
        }
      }
      if last in table then t[last := setIndex(table[last], |ids| - 1)] else t
  }

  /** With no repeated id, the row of `ids[i]` gets index `i`. */
  lemma DistinctIdsTakeTheirIndex<K, V>(table: map<K, V>, ids: seq<K>, setIndex: (V, int) -> V)
    requires Distinct(ids)
    ensures forall i :: 0 <= i < |ids| && ids[i] in table ==> Renumbered(table, ids, setIndex)[ids[i]] == setIndex(table[ids[i]], i)
  {
    forall i | 0 <= i < |ids| ensures LastIndex(ids, ids[i]) == i {
      var p := LastIndex(ids, ids[i]);
      assert ids[p] == ids[i];
    }
  }

  /** The transaction's updates, one per id, in order. */
  method Renumber<K(==), V>(table: map<K, V>, ids: seq<K>, setIndex: (V, int) -> V) returns (t: map<K, V>)
    ensures t == Renumbered(table, ids, setIndex)
  {
    t := table;
    for idx := 0 to |ids|
      invariant t == Renumbered(table, ids[..idx], setIndex)
    {
      assert ids[..idx + 1][..idx] == ids[..idx];
      assert ids[..idx + 1][idx] == ids[idx];
      if ids[idx] in table {
        t := t[ids[idx] := setIndex(table[ids[idx]], idx)];
      }
    }
    assert ids[..|ids|] == ids;
  }
}
