/** Sibling lists: doubly linked, with the first node's `prev` keeping the last node. */
module SiblingList {
  import opened JsonTree

  class Node {
    /** The member name, and the value without its children. */
    const key: string
    const scalar: Json
    var next: Node?
    var prev: Node?
    var child: Node?

    constructor (key: string, scalar: Json)
      ensures this.key == key && this.scalar == scalar && next == null && prev == null && child == null
    {
      this.key, this.scalar := key, scalar;
      next, prev, child := null, null, null;
    }
  }

  ghost predicate Distinct(s: seq<Node>)
  {
    forall i, j :: 0 <= i < j < |s| ==> s[i] != s[j]
  }

  /** The node at a place, or none outside the list. */
  function Nth(s: seq<Node>, i: int): Node?
  {
    if 0 <= i < |s| then s[i] else null
  }

  /** Every node points at the next, the last one nowhere, and every node but the first points back. */
  ghost predicate Linked(s: seq<Node>)
    reads s
  {
    && (forall i {:trigger s[i].next} :: 0 <= i < |s| ==> s[i].next == Nth(s, i + 1))
    && (forall i {:trigger s[i].prev} :: 0 < i < |s| ==> s[i].prev == Nth(s, i - 1))
  }

  /** A list, whatever its first `prev` holds. */
  ghost predicate Chain(s: seq<Node>)
    reads s
  {
    Distinct(s) && Linked(s)
  }

  /** A list whose first node knows the last. */
  ghost predicate Siblings(s: seq<Node>)
    reads s
  {
    Chain(s) && (s != [] ==> s[0].prev == s[|s| - 1])
  }

  /** The children of a node, in order. */
  ghost predicate Children(parent: Node, s: seq<Node>)
    reads parent, s
  {
    parent !in s && parent.child == Nth(s, 0)
  }

  /** One node against all others. */
  lemma {:induction false} Apart(s: seq<Node>, k: int)
    requires Distinct(s)
    ensures 0 <= k < |s| ==> forall j {:trigger s[j]} :: 0 <= j < |s| && j != k ==> s[j] != s[k]
  {
  }

  lemma {:induction false} Pointwise(s: seq<Node>)
    requires Siblings(s)
    ensures Distinct(s)
    ensures forall j {:trigger s[j].next} :: 0 <= j < |s| ==> s[j].next == Nth(s, j + 1)
    ensures forall j {:trigger s[j].prev} :: 0 <= j < |s| ==> s[j].prev == if j == 0 then s[|s| - 1] else Nth(s, j - 1)
  {
  }

  // ---------------------------------------------------------------- finding

  /** The child at an index, or none. */
  method GetArrayItem(parent: Node, index: nat, ghost s: seq<Node>) returns (r: Node?)
    requires Children(parent, s) && Chain(s)
    ensures r == if index < |s| then s[index] else null
  {
    var current := parent.child;
    ghost var at := 0;
    var left := index;
    while current != null && left > 0
      invariant at <= |s| && 0 <= left == index - at && current == Nth(s, at)
      decreases left
    {
      left := left - 1;
      current := current.next;
      at := at + 1;
    }
    r := current;
  }

  // ---------------------------------------------------------------- appending

  /** Links one node after another. */
  method Suffix(prev: Node, item: Node)
    modifies prev`next, item`prev
    ensures prev.next == item && item.prev == prev
  {
    prev.next := item;
    item.prev := prev;
  }

  function Upto(s: seq<Node>, k: nat, item: Node): seq<Node>
    requires k < |s|
  {
    s[..k + 1] + [item]
  }

  lemma {:induction false} UptoAt(s: seq<Node>, k: nat, item: Node, j: int)
    requires k < |s|
    ensures |Upto(s, k, item)| == k + 2
    ensures Nth(Upto(s, k, item), j) == if j <= k then Nth(s, j) else if j == k + 1 then item else null
  {
  }

  lemma {:induction false} UptoLinked(s: seq<Node>, k: nat, item: Node)
    requires k < |s| && Distinct(s) && item !in s
    requires forall j {:trigger s[j].next} :: 0 <= j < k ==> s[j].next == Nth(s, j + 1)
    requires forall j {:trigger s[j].prev} :: 0 < j <= k ==> s[j].prev == Nth(s, j - 1)
    requires s[k].next == item && item.prev == s[k] && item.next == null && s[0].prev == item
    ensures Siblings(Upto(s, k, item))
  {
    var r := Upto(s, k, item);
    UptoAt(s, k, item, 0);
    hide Upto, Distinct;
    forall j {:trigger r[j].next} | 0 <= j < |r|
      ensures r[j].next == Nth(r, j + 1)
    {
      UptoAt(s, k, item, j);
      UptoAt(s, k, item, j + 1);
      if j < k { assert s[j].next == Nth(s, j + 1); }
    }
    forall j {:trigger r[j].prev} | 0 < j < |r|
      ensures r[j].prev == Nth(r, j - 1)
    {
      UptoAt(s, k, item, j);
      UptoAt(s, k, item, j - 1);
      if j <= k { assert s[j].prev == Nth(s, j - 1); }
    }
    UptoAt(s, k, item, k + 1);
  }

  /**
    * Appends behind the node that the first one takes for the last. When that is the last node, the item comes at
    * the end; when it is another, what follows is lost; when there is none, nothing is added.
    */
  method AddItemToArray(parent: Node, item: Node, ghost s: seq<Node>) returns (ok: bool, ghost r: seq<Node>)
    requires Children(parent, s) && Chain(s) && item !in s && (item != parent ==> item.next == null)
    requires s != [] ==> s[0].prev == null || s[0].prev in s
    modifies parent`child, s, item
    ensures ok <==> item != parent
    ensures Children(parent, r) && Chain(r)
    ensures r == if !ok then s else if s == [] then [item] else if old(s[0].prev) == null then s
      else Upto(s, IndexOf(s, old(s[0].prev)), item)
    ensures ok && (s == [] || old(s[0].prev) != null) ==> Siblings(r)
    ensures !ok ==> forall n :: n in s ==> n.next == old(n.next) && n.prev == old(n.prev)
  {
    hide Upto, Distinct;
    ok, r := parent != item, s;
    if !ok { return; }
    var child := parent.child;
    if child == null {
      parent.child := item;
      item.prev := item;
      item.next := null;
      r := [item];
      OneNode(item);
    } else if child.prev != null {
      ghost var k := IndexOf(s, child.prev);
      assert s[k] == child.prev;
      Apart(s, k);
      Apart(s, 0);
      r := Upto(s, k, item);
      Suffix(child.prev, item);
      parent.child.prev := item;
      UptoLinked(s, k, item);
      UptoAt(s, k, item, 0);
      UptoParent(s, k, item, parent);
    }
  }

  lemma {:induction false} OneNode(n: Node)
    ensures Distinct([n])
  {
  }

  lemma {:induction false} UptoParent(s: seq<Node>, k: nat, item: Node, parent: Node)
    requires k < |s| && parent !in s && parent != item
    ensures parent !in Upto(s, k, item)
  {
  }

  /** Appending is exact when the first node knows the last. */
  lemma {:induction false} UptoWhole(s: seq<Node>, item: Node, n: Node?)
    requires s != [] && Distinct(s) && n in s
    ensures Upto(s, IndexOf(s, n), item) == s + [item] <==> n == s[|s| - 1]
  {
    var k := IndexOf(s, n);
    assert |Upto(s, k, item)| == k + 2 && |s + [item]| == |s| + 1;
    if n == s[|s| - 1] {
      Apart(s, |s| - 1);
      assert k == |s| - 1 && s[..k + 1] == s;
    }
  }

  function IndexOf(s: seq<Node>, n: Node?): (i: nat)
    requires n in s
    ensures i < |s| && s[i] == n && forall j :: 0 <= j < i ==> s[j] != n
  {
    if s[0] == n then 0 else 1 + IndexOf(s[1..], n)
  }

  // ---------------------------------------------------------------- detaching

  function Without(s: seq<Node>, i: nat): seq<Node>
    requires i < |s|
  {
    s[..i] + s[i + 1..]
  }

  lemma {:induction false} WithoutAt(s: seq<Node>, i: nat, j: int)
    requires i < |s|
    ensures Nth(Without(s, i), j) == if j < i then Nth(s, j) else Nth(s, j + 1)
  {
  }

  /** The `next` pointers of all nodes but the `i`th skip it. */
  ghost predicate NextsAfterDetach(s: seq<Node>, i: nat)
    reads s
  {
    forall j {:trigger s[j].next} :: 0 <= j < |s| && j != i ==> s[j].next == Nth(s, if j + 1 == i then j + 2 else j + 1)
  }

  ghost predicate PrevsAfterDetach(s: seq<Node>, i: nat)
    requires i < |s|
    reads s
  {
    && (forall j {:trigger s[j].prev} :: (if i == 0 then 1 else 0) < j < |s| && j != i ==>
      s[j].prev == Nth(s, if j - 1 == i then j - 2 else j - 1))
    && (|s| > 1 ==> s[if i == 0 then 1 else 0].prev == s[if i == |s| - 1 then |s| - 2 else |s| - 1])
  }

  lemma {:induction false} WithoutLinked(s: seq<Node>, i: nat)
    requires Distinct(s) && i < |s|
    requires NextsAfterDetach(s, i) && PrevsAfterDetach(s, i)
    ensures Siblings(Without(s, i))
  {
    hide Distinct;
    WithoutDistinct(s, i);
    WithoutNexts(s, i);
    WithoutPrevs(s, i);
  }

  lemma {:induction false} WithoutNexts(s: seq<Node>, i: nat)
    requires i < |s| && NextsAfterDetach(s, i)
    ensures var r := Without(s, i); forall j {:trigger r[j].next} :: 0 <= j < |r| ==> r[j].next == Nth(r, j + 1)
  {
    var r := Without(s, i);
    hide Without;
    forall j {:trigger r[j].next} | 0 <= j < |r|
      ensures r[j].next == Nth(r, j + 1)
    {
      WithoutAt(s, i, j);
      WithoutAt(s, i, j + 1);
      var k := if j < i then j else j + 1;
      assert s[k].next == Nth(s, if k + 1 == i then k + 2 else k + 1);
    }
  }

  lemma {:induction false} WithoutPrevs(s: seq<Node>, i: nat)
    requires i < |s| && PrevsAfterDetach(s, i)
    ensures var r := Without(s, i); forall j {:trigger r[j].prev} :: 0 < j < |r| ==> r[j].prev == Nth(r, j - 1)
    ensures var r := Without(s, i); r != [] ==> r[0].prev == r[|r| - 1]
  {
    var r := Without(s, i);
    hide Without;
    WithoutAt(s, i, 0);
    WithoutAt(s, i, |r| - 1);
    forall j {:trigger r[j].prev} | 0 < j < |r|
      ensures r[j].prev == Nth(r, j - 1)
    {
      WithoutAt(s, i, j);
      WithoutAt(s, i, j - 1);
      var k := if j < i then j else j + 1;
      assert s[k].prev == Nth(s, if k - 1 == i then k - 2 else k - 1);
    }
  }

  lemma {:induction false} WithoutDistinct(s: seq<Node>, i: nat)
    requires i < |s| && Distinct(s)
    ensures Distinct(Without(s, i))
  {
  }

  /** Takes a child out of the list; it then points nowhere. */
  method DetachItemViaPointer(parent: Node, item: Node, ghost s: seq<Node>, ghost i: nat)
    requires Children(parent, s) && Siblings(s) && i < |s| && item == s[i]
    modifies parent`child, s
    ensures Children(parent, Without(s, i)) && Siblings(Without(s, i))
    ensures item.next == null && item.prev == null
  {
    hide Siblings, Chain, Linked, Without, Distinct;
    Pointwise(s);
    Apart(s, 0);
    Apart(s, i - 1);
    Apart(s, i);
    Apart(s, i + 1);
    ghost var n := |s|;
    ghost var before := if i == 0 then s[n - 1] else s[i - 1];
    assert item.next == Nth(s, i + 1) && item.prev == before;
    if item != parent.child {
      item.prev.next := item.next;
    }
    if item.next != null {
      item.next.prev := item.prev;
    }
    if item == parent.child {
      parent.child := item.next;
    } else if item.next == null {
      parent.child.prev := item.prev;
    }
    assert parent.child == if i == 0 then Nth(s, 1) else s[0];
    assert NextsAfterDetach(s, i) && PrevsAfterDetach(s, i);
    item.prev := null;
    item.next := null;
    assert NextsAfterDetach(s, i) && PrevsAfterDetach(s, i);
    WithoutAt(s, i, 0);
    NotInWithout(s, i, parent);
    WithoutLinked(s, i);
  }

  /** Detaching by place: the child at that place goes, or nothing happens when there is none. */
  method DetachItemFromArray(parent: Node, which: int, ghost s: seq<Node>) returns (item: Node?)
    requires Children(parent, s) && Siblings(s)
    modifies parent`child, s
    ensures item == Nth(s, which)
    ensures item == null ==> Children(parent, s) && Siblings(s)
    ensures item != null ==> var r := Without(s, which);
      Children(parent, r) && Siblings(r) && item.next == null && item.prev == null
  {
    if which < 0 { return null; }
    item := GetArrayItem(parent, which, s);
    if item != null {
      DetachItemViaPointer(parent, item, s, which);
    }
  }

  lemma {:induction false} NotInWithout(s: seq<Node>, i: nat, n: Node)
    requires i < |s| && n !in s
    ensures n !in Without(s, i)
  {
  }

  // ---------------------------------------------------------------- inserting

  function Inserted(s: seq<Node>, w: nat, item: Node): seq<Node>
    requires w <= |s|
  {
    s[..w] + [item] + s[w..]
  }

  lemma {:induction false} InsertedAt(s: seq<Node>, w: nat, item: Node, j: int)
    requires w <= |s|
    ensures |Inserted(s, w, item)| == |s| + 1
    ensures Nth(Inserted(s, w, item), j) == if j < w then Nth(s, j) else if j == w then item else Nth(s, j - 1)
  {
  }

  lemma {:induction false} InsertedDistinct(s: seq<Node>, w: nat, item: Node)
    requires w <= |s| && Distinct(s) && item !in s
    ensures Distinct(Inserted(s, w, item)) && forall n :: n in Inserted(s, w, item) ==> n in s || n == item
  {
  }

  lemma {:induction false} InsertedLinked(s: seq<Node>, w: nat, item: Node)
    requires w < |s| && Distinct(s) && item !in s
    requires forall j {:trigger s[j].next} :: 0 <= j < |s| ==> s[j].next == if j + 1 == w then item else Nth(s, j + 1)
    requires forall j {:trigger s[j].prev} :: 0 < j < |s| ==> s[j].prev == if j == w then item else Nth(s, j - 1)
    requires item.next == s[w]
    requires (if w > 0 then item.prev == s[w - 1] && s[0].prev == s[|s| - 1]
      else item.prev == s[|s| - 1] && s[0].prev == item)
    ensures Siblings(Inserted(s, w, item))
  {
    var r := Inserted(s, w, item);
    InsertedDistinct(s, w, item);
    hide Inserted, Distinct;
    InsertedAt(s, w, item, 0);
    InsertedAt(s, w, item, |s|);
    forall j {:trigger r[j].next} | 0 <= j < |r|
      ensures r[j].next == Nth(r, j + 1)
    {
      InsertedAt(s, w, item, j);
      InsertedAt(s, w, item, j + 1);
      if j != w {
        var k := if j < w then j else j - 1;
        assert s[k].next == if k + 1 == w then item else Nth(s, k + 1);
      }
    }
    forall j {:trigger r[j].prev} | 0 < j < |r|
      ensures r[j].prev == Nth(r, j - 1)
    {
      InsertedAt(s, w, item, j);
      InsertedAt(s, w, item, j - 1);
      if j != w {
        var k := if j < w then j else j - 1;
        assert k > 0 ==> s[k].prev == if k == w then item else Nth(s, k - 1);
      }
    }
  }

  /** Links an item in before a child. */
  method LinkBefore(parent: Node, after: Node, item: Node, ghost s: seq<Node>, ghost w: nat)
    requires Children(parent, s) && Siblings(s) && w < |s| && after == s[w] && item !in s && item != parent
    modifies parent`child, s, item
    ensures Children(parent, Inserted(s, w, item)) && Siblings(Inserted(s, w, item))
  {
    hide Siblings, Chain, Linked, Inserted, Distinct;
    Pointwise(s);
    Apart(s, w);
    Apart(s, w - 1);
    ghost var n := |s|;
    assert after.prev == if w == 0 then s[n - 1] else s[w - 1];
    Apart(s, 0);
    item.next := after;
    item.prev := after.prev;
    after.prev := item;
    if after == parent.child {
      parent.child := item;
    } else {
      item.prev.next := item;
    }
    InsertedDistinct(s, w, item);
    InsertedAt(s, w, item, 0);
    InsertedLinked(s, w, item);
  }

  /** Puts an item before the child at an index, or at the end when there is none. */
  method InsertItemInArray(parent: Node, which: int, item: Node, ghost s: seq<Node>) returns (ok: bool)
    requires Children(parent, s) && Siblings(s) && item !in s && item != parent && item.next == null
    modifies parent`child, s, item
    ensures ok <==> which >= 0
    ensures which < 0 ==> Children(parent, s) && Siblings(s)
    ensures which >= 0 ==> var r := Inserted(s, if which < |s| then which else |s|, item);
      Children(parent, r) && Siblings(r)
  {
    hide Inserted, Linked, Distinct, Upto;
    if which < 0 { return false; }
    var after := GetArrayItem(parent, which, s);
    if after == null {
      AtTheEnd(s, item);
      ghost var r;
      ok, r := AddItemToArray(parent, item, s);
      return;
    }
    PrevPresent(s, which);
    if after != parent.child && after.prev == null { return false; }
    LinkBefore(parent, after, item, s, which);
    ok := true;
  }

  lemma {:induction false} PrevPresent(s: seq<Node>, w: nat)
    requires Siblings(s) && w < |s|
    ensures s[w].prev != null
  {
    hide Distinct;
  }

  lemma {:induction false} AtTheEnd(s: seq<Node>, item: Node)
    requires Siblings(s)
    ensures Inserted(s, |s|, item) == s + [item] && (s == [] ==> s + [item] == [item])
    ensures s != [] ==> s[0].prev in s && Upto(s, IndexOf(s, s[0].prev), item) == s + [item]
  {
    if s != [] {
      assert s[|s| - 1] in s;
      UptoWhole(s, item, s[0].prev);
    }
  }

  // ---------------------------------------------------------------- replacing

  lemma {:induction false} UpdatedLinked(s: seq<Node>, i: nat, x: Node)
    requires i < |s| && Distinct(s) && x !in s
    requires forall j {:trigger s[j].next} :: 0 <= j < |s| && j != i ==>
      s[j].next == if j + 1 == i then x else Nth(s, j + 1)
    requires forall j {:trigger s[j].prev} :: 0 < j < |s| && j != i ==>
      s[j].prev == if j - 1 == i then x else Nth(s, j - 1)
    requires x.next == Nth(s, i + 1) && (i > 0 ==> x.prev == s[i - 1])
    requires (if i == 0 then x else s[0]).prev == if i == |s| - 1 then x else s[|s| - 1]
    ensures Siblings(s[i := x])
  {
    var r := s[i := x];
    hide Distinct;
    forall j {:trigger r[j].next} | 0 <= j < |r|
      ensures r[j].next == Nth(r, j + 1)
    {
      if j != i { assert r[j] == s[j] && s[j].next == if j + 1 == i then x else Nth(s, j + 1); }
    }
    forall j {:trigger r[j].prev} | 0 < j < |r|
      ensures r[j].prev == Nth(r, j - 1)
    {
      if j != i { assert r[j] == s[j] && s[j].prev == if j - 1 == i then x else Nth(s, j - 1); }
    }
  }

  /** Puts another node in a child's place. */
  method ReplaceItemViaPointer(parent: Node, item: Node, replacement: Node, ghost s: seq<Node>, ghost i: nat)
    returns (ok: bool)
    requires Children(parent, s) && Siblings(s) && i < |s| && item == s[i]
    requires replacement == item || (replacement !in s && replacement != parent)
    modifies parent`child, s, replacement
    ensures ok && Children(parent, s[i := replacement]) && Siblings(s[i := replacement])
    ensures replacement != item ==> item.next == null && item.prev == null
  {
    hide Siblings, Chain, Linked, Distinct;
    ok := true;
    if replacement == item {
      assert s[i := replacement] == s;
      return;
    }
    Pointwise(s);
    Apart(s, 0);
    Apart(s, i - 1);
    Apart(s, i);
    Apart(s, i + 1);
    ghost var n := |s|;
    assert item.next == Nth(s, i + 1) && item.prev == if i == 0 then s[n - 1] else s[i - 1];
    replacement.next := item.next;
    replacement.prev := item.prev;
    if replacement.next != null {
      replacement.next.prev := replacement;
    }
    if parent.child == item {
      if parent.child.prev == parent.child {
        replacement.prev := replacement;
      }
      parent.child := replacement;
    } else {
      if replacement.prev != null {
        replacement.prev.next := replacement;
      }
      if replacement.next == null {
        parent.child.prev := replacement;
      }
    }
    item.next := null;
    item.prev := null;
    UpdatedLinked(s, i, replacement);
  }
}
