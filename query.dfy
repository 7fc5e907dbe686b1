/**
 * The two parts of a Prisma `findMany` the services rely on: selecting the
 * rows of a table that satisfy a filter, and ordering them by an `orderBy`.
 * Ties between rows equal under the ordering come back in an unspecified order.
 */
module Query {
  import opened Common

  /** `le` orders everything and is transitive: what an `orderBy` on columns is. */
  ghost predicate IsTotalPreorder<T(!new)>(le: (T, T) -> bool) {
    (forall a, b :: le(a, b) || le(b, a))
    && (forall a, b, c :: le(a, b) && le(b, c) ==> le(a, c))
  }

  ghost predicate SortedBy<T>(s: seq<T>, le: (T, T) -> bool) {
    forall i, j :: 0 <= i < j < |s| ==> le(s[i], s[j])
  }

  function Insert<T(!new)>(x: T, s: seq<T>, le: (T, T) -> bool): (r: seq<T>)
    requires IsTotalPreorder(le) && SortedBy(s, le)
    ensures SortedBy(r, le) && multiset(r) == multiset(s) + multiset{x}
  {
    if s == [] then [x]
    else if le(x, s[0]) then
      assert [x] + s == [x] + s;
      [x] + s
    else
      var tail := Insert(x, s[1..], le);
      assert s == [s[0]] + s[1..];
      forall j | 0 <= j < |tail| ensures le(s[0], tail[j]) {
        assert tail[j] in multiset(tail);
        HeadBelow(x, s, tail[j], le);
      }
      ConsSorted(s[0], tail, le);
      [s[0]] + tail
  }

  /** What `Insert` puts after the head of `s` lies above that head. */
  lemma HeadBelow<T(!new)>(x: T, s: seq<T>, y: T, le: (T, T) -> bool)
    requires IsTotalPreorder(le) && SortedBy(s, le) && s != [] && !le(x, s[0])
    requires y in multiset(s[1..]) + multiset{x}
    ensures le(s[0], y)
  {
    if y != x {
      assert y in multiset(s[1..]);
      var j :| 0 <= j < |s[1..]| && s[1..][j] == y;
      assert s[j + 1] == y;
    }
  }

  lemma ConsSorted<T>(h: T, t: seq<T>, le: (T, T) -> bool)
    requires SortedBy(t, le) && forall j :: 0 <= j < |t| ==> le(h, t[j])
    ensures SortedBy([h] + t, le)
  {
    var r := [h] + t;
    forall i, j | 0 <= i < j < |r| ensures le(r[i], r[j]) {
      assert r[j] == t[j - 1];
      if i > 0 {
        assert r[i] == t[i - 1];
      }
    }
  }

  /** `orderBy`: the same rows, in non-decreasing order. */
  function OrderBy<T(!new)>(s: seq<T>, le: (T, T) -> bool): (r: seq<T>)
    requires IsTotalPreorder(le)
    ensures SortedBy(r, le) && multiset(r) == multiset(s)
  {
    if s == [] then []
    else
      assert s == [s[0]] + s[1..];
      Insert(s[0], OrderBy(s[1..], le), le)
  }

  /** Ordering keeps exactly the rows it was given. */
  lemma OrderByKeepsRows<T(!new)>(s: seq<T>, le: (T, T) -> bool, x: T)
    requires IsTotalPreorder(le)
    ensures x in OrderBy(s, le) <==> x in s
  {
    assert x in OrderBy(s, le) <==> x in multiset(OrderBy(s, le));
    assert x in s <==> x in multiset(s);
  }

  /**
   * `findMany({ where })` on a table keyed by id: every row that passes the
   * filter, each once, in an unspecified order.
   */
  method FindMany<K, V>(table: map<K, V>, keep: (K, V) -> bool) returns (rows: seq<(K, V)>)
    ensures forall i :: 0 <= i < |rows| ==> rows[i].0 in table && table[rows[i].0] == rows[i].1 && keep(rows[i].0, rows[i].1)
    ensures forall k :: k in table && keep(k, table[k]) ==> (k, table[k]) in rows
    ensures forall i, j :: 0 <= i < j < |rows| ==> rows[i].0 != rows[j].0
  {
    var remaining := table.Keys;
    rows := [];
    while remaining != {}
      invariant remaining <= table.Keys
      invariant forall i :: 0 <= i < |rows| ==> rows[i].0 in table && rows[i].0 !in remaining
      invariant forall i :: 0 <= i < |rows| ==> table[rows[i].0] == rows[i].1 && keep(rows[i].0, rows[i].1)
      invariant forall k :: k in table && k !in remaining && keep(k, table[k]) ==> (k, table[k]) in rows
      invariant forall i, j :: 0 <= i < j < |rows| ==> rows[i].0 != rows[j].0
      decreases |remaining|
    {
      var k :| k in remaining;
      if keep(k, table[k]) {
        rows := rows + [(k, table[k])];
      }
      remaining := remaining - {k};
    }
  }

  /** The key column of a sequence of rows. */
  function KeyColumn<K, V>(rows: seq<(K, V)>): (keys: seq<K>)
    ensures |keys| == |rows| && forall i :: 0 <= i < |rows| ==> keys[i] == rows[i].0
  {
    if rows == [] then [] else [rows[0].0] + KeyColumn(rows[1..])
  }

  /** Ordering a sequence without repeats leaves it without repeats. */
  lemma OrderByKeepsDistinct<T(!new)>(s: seq<T>, le: (T, T) -> bool)
    requires IsTotalPreorder(le)
    requires Distinct(s)
    ensures Distinct(OrderBy(s, le))
  {
    var r := OrderBy(s, le);
    assert |r| == |multiset(r)| == |multiset(s)| == |s|;
    assert Elements(r) == Elements(s) by {
      forall x ensures x in Elements(r) <==> x in Elements(s) {
        OrderByKeepsRows(s, le, x);
      }
    }
    ElementsCardinality(s);
    ElementsCardinality(r);
  }

  /** Every key of `a` is a key of `b` when every row of `a` is a row of `b`. */
  lemma KeysIncluded<K, V>(a: seq<(K, V)>, b: seq<(K, V)>)
    requires forall x :: x in a ==> x in b
    ensures Elements(KeyColumn(a)) <= Elements(KeyColumn(b))
  {
    var ka, kb := KeyColumn(a), KeyColumn(b);
    forall k | k in Elements(ka) ensures k in Elements(kb) {
      var i :| 0 <= i < |ka| && ka[i] == k;
      assert a[i] in b;
      var j :| 0 <= j < |b| && b[j] == a[i];
      assert kb[j] == k;
    }
  }

  /** Ordering rows keeps their keys distinct. */
  lemma OrderByKeepsKeysDistinct<K(!new), V(!new)>(s: seq<(K, V)>, le: ((K, V), (K, V)) -> bool)
    requires IsTotalPreorder(le)
    requires forall i, j :: 0 <= i < j < |s| ==> s[i].0 != s[j].0
    ensures forall i, j :: 0 <= i < j < |OrderBy(s, le)| ==> OrderBy(s, le)[i].0 != OrderBy(s, le)[j].0
  {
    var r := OrderBy(s, le);
    var ks, kr := KeyColumn(s), KeyColumn(r);
    assert |r| == |s| by {
      assert |r| == |multiset(r)| == |multiset(s)| == |s|;
    }
    forall x ensures x in r <==> x in s {
      OrderByKeepsRows(s, le, x);
    }
    KeysIncluded(r, s);
    KeysIncluded(s, r);
    assert Distinct(ks);
    SameCountDistinct(ks, kr);
    forall i, j | 0 <= i < j < |r| ensures r[i].0 != r[j].0 {
      assert kr[i] != kr[j];
    }
  }

  /** Two sequences of one length over the same elements: if one has no repeats, neither has the other. */
  lemma SameCountDistinct<T>(a: seq<T>, b: seq<T>)
    requires |a| == |b| && Elements(a) == Elements(b) && Distinct(a)
    ensures Distinct(b)
  {
    ElementsCardinality(a);
    ElementsCardinality(b);
  }
}
