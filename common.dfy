/** Shared value types: optional values, Prisma-style update patches, id aliases and sequence helpers. */
module Common {
  /** A nullable value (`null` / `undefined` in the source are both `None` unless a `Patch` is used). */
  datatype Option<T> = None | Some(value: T) {
    /** The `??` operator. */
    function GetOr(default: T): T { if Some? then value else default }
  }

  /**
   * One field of a Prisma `update` input: `Keep` is an omitted (`undefined`)
   * field, which leaves the column as it is; `Set(v)` writes `v`.
   */
  datatype Patch<T> = Keep | Set(value: T) {
    function ApplyTo(current: T): T { if Set? then value else current }
  }

  /** All identifiers are cuid strings; none is ever the empty string, so a present id is truthy. */
  type UserId = string
  type FamilyId = string
  type ListId = string
  type ItemId = string
  type ProductId = string
  type LocationId = string
  type TemplateId = string
  type TemplateItemId = string

  predicate Distinct<T(==)>(s: seq<T>) {
    forall i, j :: 0 <= i < j < |s| ==> s[i] != s[j]
  }

  function Elements<T>(s: seq<T>): set<T> {
    set x | x in s
  }

  /**
   * The distinct elements of `s` number `|s|` exactly when `s` has no repeats;
   * this is what a `count(where id in ids) == ids.length` ownership test relies on.
   */
  lemma {:induction false} ElementsCardinality<T>(s: seq<T>)
    ensures |Elements(s)| <= |s|
    ensures |Elements(s)| == |s| <==> Distinct(s)
  {
    if s != [] {
      var t := s[1..];
      ElementsCardinality(t);
      ElementsCons(s);
      DistinctCons(s);
      if s[0] in t {
        assert s[0] in Elements(t);
      } else {
        assert s[0] !in Elements(t);
      }
    }
  }

  lemma ElementsCons<T>(s: seq<T>)
    requires s != []
    ensures Elements(s) == {s[0]} + Elements(s[1..])
  {
    assert s == [s[0]] + s[1..];
  }

  /** A sequence has no repeats exactly when its head is not in its tail and its tail has none. */
  lemma DistinctCons<T>(s: seq<T>)
    requires s != []
    ensures Distinct(s) <==> s[0] !in s[1..] && Distinct(s[1..])
  {
    var t := s[1..];
    if s[0] in t {
      var k :| 0 <= k < |t| && t[k] == s[0];
      assert s[0] == s[k + 1];
    } else if Distinct(t) {
      forall i, j | 0 <= i < j < |s| ensures s[i] != s[j] {
        assert s[j] == t[j - 1];
        if i > 0 {
          assert s[i] == t[i - 1];
        }
      }
    } else {
      var i, j :| 0 <= i < j < |t| && t[i] == t[j];
      assert s[i + 1] == s[j + 1];
    }
  }

  /**
   * An all-or-nothing batch test: `found` is the subset of `ids` that passed a
   * per-row filter, and the batch passes when `|found| == |ids|`. That happens
   * exactly when every id passed and no id was given twice.
   */
  lemma BatchCountTest<T>(ids: seq<T>, found: set<T>)
    requires found <= Elements(ids)
    ensures |found| == |ids| <==> (found == Elements(ids) && Distinct(ids))
  {
    ElementsCardinality(ids);
    if found != Elements(ids) {
      var rest := Elements(ids) - found;
      assert rest != {} by {
        if rest == {} {
          forall y | y in Elements(ids) ensures y in found { assert y !in rest; }
          assert false;
        }
      }
      var x :| x in rest;
      assert |rest| >= |{x}| == 1;
      assert Elements(ids) == found + rest && found * rest == {};
      assert |found| < |Elements(ids)|;
    }
  }

  /** A subset is no larger than its superset. */
  lemma SubsetCardinality<T>(a: set<T>, b: set<T>)
    requires a <= b
    ensures |a| <= |b|
  {
    assert b == a + (b - a) && a * (b - a) == {};
  }

  /** Dropping the last element keeps a sequence free of repeats, and that element is not among the others. */
  lemma DistinctFront<T>(s: seq<T>)
    requires Distinct(s) && s != []
    ensures Distinct(s[..|s| - 1]) && s[|s| - 1] !in s[..|s| - 1]
  {
    var front := s[..|s| - 1];
    forall k | 0 <= k < |front| ensures front[k] != s[|s| - 1] { assert front[k] == s[k]; }
  }
}
