/**
 * `mergePersonalAndFamily`: the picker view of a user's own entries next to
 * the entries families share with them, hiding a shared entry when the user
 * already has one with the same normalised key.
 */
module MergeView {
  datatype View<T> = View(personal: seq<T>, family: seq<T>)

  /** `sub` is `s` with some elements left out, the rest in their order. */
  predicate IsSubsequence<T(==)>(sub: seq<T>, s: seq<T>) {
    if sub == [] then true
    else if s == [] then false
    else if sub[0] == s[0] then IsSubsequence(sub[1..], s[1..])
    else IsSubsequence(sub, s[1..])
  }

  function Keys<T(==)>(items: seq<T>, key: T -> string): set<string> {
    set x | x in items :: key(x)
  }

  function WithoutKeys<T(==)>(family: seq<T>, taken: set<string>, key: T -> string): (kept: seq<T>)
    ensures IsSubsequence(kept, family)
    ensures forall i :: 0 <= i < |kept| ==> key(kept[i]) !in taken
    ensures forall i :: 0 <= i < |family| && key(family[i]) !in taken ==> family[i] in kept
  {
    if family == [] then []
    else if key(family[0]) in taken then WithoutKeys(family[1..], taken, key)
    else [family[0]] + WithoutKeys(family[1..], taken, key)
  }

  /**
   * The personal list is passed through unchanged; the family list keeps, in
   * order, exactly the entries whose key no personal entry has.
   */
  function MergePersonalAndFamily<T(==)>(personal: seq<T>, family: seq<T>, key: T -> string): (view: View<T>)
    ensures view.personal == personal
    ensures IsSubsequence(view.family, family)
    ensures forall i :: 0 <= i < |view.family| ==> key(view.family[i]) !in Keys(personal, key)
    ensures forall i :: 0 <= i < |family| && key(family[i]) !in Keys(personal, key) ==> family[i] in view.family
  {
    View(personal, WithoutKeys(family, Keys(personal, key), key))
  }

  /** No key is offered twice across the two halves of the view, counting from the personal side. */
  lemma NoKeyInBothHalves<T>(personal: seq<T>, family: seq<T>, key: T -> string, p: T, f: T)
    requires p in MergePersonalAndFamily(personal, family, key).personal
    requires f in MergePersonalAndFamily(personal, family, key).family
    ensures key(p) != key(f)
  {
    assert key(p) in Keys(personal, key);
    var view := MergePersonalAndFamily(personal, family, key);
    var i :| 0 <= i < |view.family| && view.family[i] == f;
  }
}
