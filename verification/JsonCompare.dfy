/** The comparison of two JSON values that merge patches and the test operation of JSON Patch use. */
module JsonCompare {
  import opened JsonTree
  import opened MemberSort

  /** Equality up to member order. */
  predicate SameValue(a: Json, b: Json, cs: bool)
    decreases a, 1, 0
  {
    SameType(a, b) &&
    match a
    case Number(n) => n == b.n
    case String(s) => s == b.s
    case Array(items) => SameItems(items, b.items, cs)
    case Object(ms) =>
      assert forall m :: m in SortList(ms, cs) ==> m in ms by { SameElements(SortList(ms, cs), ms); }
      SameMembers(ms, SortList(ms, cs), SortList(b.members, cs), cs)
    case _ => true
  }

  predicate SameItems(a: seq<Json>, b: seq<Json>, cs: bool)
    decreases a, 0, |a|
  {
    if a == [] || b == [] then a == [] && b == []
    else SameValue(a[0], b[0], cs) && SameItems(a[1..], b[1..], cs)
  }

  /** Two sorted lists side by side; `all` holds the members of the first. */
  predicate SameMembers(all: seq<Member>, a: seq<Member>, b: seq<Member>, cs: bool)
    requires forall m :: m in a ==> m in all
    decreases all, 0, |a|
  {
    if a == [] || b == [] then a == [] && b == []
    else
      assert a[0] in all;
      SameKey(a[0].key, b[0].key, cs) && SameValue(a[0].value, b[0].value, cs) && SameMembers(all, a[1..], b[1..], cs)
  }
}
