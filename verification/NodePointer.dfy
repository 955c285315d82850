/** Pointers to nodes in memory: searching a node by its address, and following the pointer that was built for it. */
module NodePointer {
  import opened CStrings
  import opened Options
  import opened Decimals
  import opened JsonTree
  import opened JsonPointer
  import opened SiblingList
  import opened SiblingCopy

  // ---------------------------------------------------------------- the value of a tree of nodes

  /** Only arrays and objects have children to speak of. */
  function ValueOf(t: Layout): Json
    decreases t, 1
  {
    match t.node.scalar
    case Array(_) => Array(ValuesOf(t.kids))
    case Object(_) => Object(MembersOf(t.kids))
    case other => other
  }

  function ValuesOf(ts: seq<Layout>): (r: seq<Json>)
    ensures |r| == |ts|
    decreases ts, 0
  {
    if ts == [] then [] else [ValueOf(ts[0])] + ValuesOf(ts[1..])
  }

  function MembersOf(ts: seq<Layout>): (r: seq<Member>)
    ensures |r| == |ts|
    decreases ts, 0
  {
    if ts == [] then [] else [Member(ts[0].node.key, ValueOf(ts[0]))] + MembersOf(ts[1..])
  }

  lemma {:induction false} ValuesAt(ts: seq<Layout>, i: nat)
    requires i < |ts|
    ensures ValuesOf(ts)[i] == ValueOf(ts[i])
    decreases |ts|
  {
    hide ValueOf;
    if i > 0 { ValuesAt(ts[1..], i - 1); }
  }

  lemma {:induction false} MembersAt(ts: seq<Layout>, i: nat)
    requires i < |ts|
    ensures MembersOf(ts)[i] == Member(ts[i].node.key, ValueOf(ts[i]))
    decreases |ts|
  {
    hide ValueOf;
    if i > 0 { MembersAt(ts[1..], i - 1); }
  }

  /** The node at a position. */
  function NodeAt(t: Layout, loc: Location): Node?
    decreases |loc|
  {
    if loc == [] then t.node else if loc[0] < |t.kids| then NodeAt(t.kids[loc[0]], loc[1..]) else null
  }

  lemma {:induction false} KidIs(t: Layout, i: nat)
    requires (t.node.scalar.Array? || t.node.scalar.Object?) && i < |t.kids|
    ensures var j := ValueOf(t); (j.Array? && i < |j.items|) || (j.Object? && i < |j.members|)
    ensures ChildAt(ValueOf(t), i) == ValueOf(t.kids[i])
    ensures Token(ValueOf(t), i) == if t.node.scalar.Array? then Decimal(i) else Encode(t.kids[i].node.key)
  {
    hide Decimal, Encode;
    if t.node.scalar.Array? { ValuesAt(t.kids, i); } else { MembersAt(t.kids, i); }
  }

  /** Positions of a node's value are its own and those below its children. */
  lemma {:induction false} LocationBelow(t: Layout, loc: Location)
    requires IsLocation(ValueOf(t), loc) && loc != []
    ensures (t.node.scalar.Array? || t.node.scalar.Object?) && loc[0] < |t.kids|
    ensures IsLocation(ValueOf(t.kids[loc[0]]), loc[1..])
  {
    if (t.node.scalar.Array? || t.node.scalar.Object?) && loc[0] < |t.kids| { KidIs(t, loc[0]); }
  }

  // ---------------------------------------------------------------- searching by address

  /** The pointer to the target, if it lies somewhere below arrays and objects only. */
  method FindPointerFromObjectTo(root: Node, target: Node, ghost t: Layout)
    returns (r: Option<string>, ghost loc: Location)
    requires Lies(t) && root == t.node
    ensures r.Some? ==> IsLocation(ValueOf(t), loc) && NodeAt(t, loc) == target && r.value == PointerTo(ValueOf(t), loc)
    ensures r.None? ==> forall at: Location :: IsLocation(ValueOf(t), at) ==> NodeAt(t, at) != target
    decreases t
  {
    hide *;
    ghost var all := Nodes(t);
    assert allocated(all);
    NodesOf(t);
    loc := [];
    Here(t);
    if root == target { return Some(""), loc; }
    KidsList(t);
    var child, index := root.child, 0;
    while child != null
      invariant allocated(all) && Lies(t) && index <= |t.kids| && child == Nth(Roots(t.kids), index)
      invariant forall i, at: Location :: 0 <= i < index && IsLocation(ValueOf(t.kids[i]), at) ==>
        NodeAt(t.kids[i], at) != target
      decreases |t.kids| - index
    {
      InRange(t.kids, index);
      NextKid(t, index);
      var found;
      ghost var rest;
      found, rest := FindPointerFromObjectTo(child, target, t.kids[index]);
      if found.Some? {
        if root.scalar.Array? {
          loc := [index] + rest;
          PrefixedPointer(t, index, rest);
          return Some("/" + Decimal(index) + found.value), loc;
        }
        if root.scalar.Object? {
          loc := [index] + rest;
          PrefixedPointer(t, index, rest);
          return Some("/" + Encode(child.key) + found.value), loc;
        }
        NoKids(t, target);
        return None, loc;
      }
      child := child.next;
      index := index + 1;
    }
    AllKids(t.kids, index);
    NotBelow(t, target);
    return None, loc;
  }

  lemma {:induction false} Here(t: Layout)
    ensures IsLocation(ValueOf(t), []) && NodeAt(t, []) == t.node && PointerTo(ValueOf(t), []) == ""
  {
  }

  lemma {:induction false} PrefixedPointer(t: Layout, i: nat, rest: Location)
    requires (t.node.scalar.Array? || t.node.scalar.Object?) && i < |t.kids| && IsLocation(ValueOf(t.kids[i]), rest)
    ensures var loc := [i] + rest;
      && IsLocation(ValueOf(t), loc) && NodeAt(t, loc) == NodeAt(t.kids[i], rest)
      && PointerTo(ValueOf(t), loc) ==
         "/" + (if t.node.scalar.Array? then Decimal(i) else Encode(t.kids[i].node.key))
           + PointerTo(ValueOf(t.kids[i]), rest)
  {
    hide Decimal, Encode, ValueOf, Token;
    KidIs(t, i);
    assert ([i] + rest)[1..] == rest;
  }

  lemma {:induction false} AllKids(ts: seq<Layout>, i: nat)
    requires i <= |ts| && Nth(Roots(ts), i) == null
    ensures i == |ts|
  {
  }

  lemma {:induction false} NoKids(t: Layout, target: Node)
    requires !(t.node.scalar.Array? || t.node.scalar.Object?) && t.node != target
    ensures forall at: Location :: IsLocation(ValueOf(t), at) ==> NodeAt(t, at) != target
  {
  }

  lemma {:induction false} NotBelow(t: Layout, target: Node)
    requires t.node != target
    requires forall i, at: Location :: 0 <= i < |t.kids| && IsLocation(ValueOf(t.kids[i]), at) ==>
      NodeAt(t.kids[i], at) != target
    ensures forall at: Location :: IsLocation(ValueOf(t), at) ==> NodeAt(t, at) != target
  {
    hide ValueOf, IsLocation;
    forall at: Location | IsLocation(ValueOf(t), at)
      ensures NodeAt(t, at) != target
    {
      if at != [] { LocationBelow(t, at); }
    }
  }

  // ---------------------------------------------------------------- following a pointer

  /** The node a pointer leads to. */
  function Target(t: Layout, p: string): Node?
  {
    match Locate(ValueOf(t), p) case None => null case Some(loc) => NodeAt(t, loc)
  }

  lemma {:induction false} TargetStep(t: Layout, p: string)
    requires At(p, 0) == '/'
    ensures match Child(ValueOf(t), p[1..])
      case None => Target(t, p) == null
      case Some(i) => i < |t.kids| && Target(t, p) == Target(t.kids[i], Skip(p[1..]))
  {
    hide Child, Skip;
    var child := Child(ValueOf(t), p[1..]);
    if child.Some? {
      var i := child.value;
      Container(t, i);
      KidIs(t, i);
      var below := Locate(ValueOf(t.kids[i]), Skip(p[1..]));
      if below.Some? {
        assert ([i] + below.value)[1..] == below.value;
      }
    }
  }

  lemma {:induction false} Container(t: Layout, i: nat)
    requires var j := ValueOf(t); (j.Array? && i < |j.items|) || (j.Object? && i < |j.members|)
    ensures (t.node.scalar.Array? || t.node.scalar.Object?) && i < |t.kids|
  {
  }

  lemma {:induction false} ArrayChild(t: Layout, p: string)
    requires t.node.scalar.Array?
    ensures Child(ValueOf(t), p) ==
      match DecodeIndex(p) case None => None case Some(n) => if n < |t.kids| then Some(n) else None
  {
    hide DecodeIndex;
  }

  lemma {:induction false} ObjectChild(t: Layout, p: string)
    requires t.node.scalar.Object?
    ensures var i := FirstMatch(MembersOf(t.kids), p);
      Child(ValueOf(t), p) == if i < |t.kids| then Some(i) else None
  {
    hide FirstMatch;
  }

  lemma {:induction false} NoChild(t: Layout, p: string)
    requires !(t.node.scalar.Array? || t.node.scalar.Object?)
    ensures Child(ValueOf(t), p) == None
  {
  }

  lemma {:induction false} AtTheEnd(t: Layout, p: string)
    requires At(p, 0) != '/'
    ensures Target(t, p) == t.node
  {
  }

  lemma {:induction false} Slash(p: string)
    requires At(p, 0) == '/'
    ensures p != "" && p[0] == '/'
  {
  }

  /** The child of an array at an index. */
  method ItemAt(parent: Node, index: nat, ghost t: Layout) returns (r: Node?)
    requires Lies(t) && parent == t.node
    ensures r == Nth(Roots(t.kids), index)
  {
    hide *;
    ghost var all := Nodes(t);
    assert allocated(all);
    NodesOf(t);
    ListOfKids(t);
    r := GetArrayItem(parent, index, Roots(t.kids));
  }

  lemma {:induction false} ListOfKids(t: Layout)
    requires Lies(t)
    ensures Children(t.node, Roots(t.kids)) && Chain(Roots(t.kids))
    ensures forall i: nat :: Nth(Roots(t.kids), i) == if i < |Roots(t.kids)| then Roots(t.kids)[i] else null
  {
    hide Nodes, Below, Separate, AllLie, Distinct, Linked;
    RootsBelow(t.kids);
  }

  /** The first child of an object whose name compares equal with the token. */
  method MemberAt(parent: Node, p: string, ghost t: Layout) returns (r: Node?, ghost i: nat)
    requires Lies(t) && parent == t.node
    ensures i == FirstMatch(MembersOf(t.kids), p) && i <= |t.kids|
    ensures r == Nth(Roots(t.kids), FirstMatch(MembersOf(t.kids), p))
  {
    hide *;
    KidsList(t);
    r, i := parent.child, 0;
    NoneYet(t.kids, p);
    while r != null && !ComparePointers(r.key, p)
      invariant Lies(t) && i <= |t.kids| && r == Nth(Roots(t.kids), i)
      invariant FirstMatch(MembersOf(t.kids), p) == i + FirstMatch(MembersOf(t.kids[i..]), p)
      decreases |t.kids| - i
    {
      InRange(t.kids, i);
      NextKid(t, i);
      NextMember(t.kids, i, p);
      r := r.next;
      i := i + 1;
    }
    Matched(t.kids, i, p);
  }

  lemma {:induction false} NoneYet(ts: seq<Layout>, p: string)
    ensures FirstMatch(MembersOf(ts), p) == 0 + FirstMatch(MembersOf(ts[0..]), p)
  {
    assert ts[0..] == ts;
  }

  lemma {:induction false} NextMember(ts: seq<Layout>, i: nat, p: string)
    requires i < |ts| && !ComparePointers(ts[i].node.key, p)
    ensures FirstMatch(MembersOf(ts[i..]), p) == 1 + FirstMatch(MembersOf(ts[i + 1..]), p)
  {
    hide ValueOf, ComparePointers;
    assert ts[i..][1..] == ts[i + 1..];
    assert MembersOf(ts[i..])[1..] == MembersOf(ts[i + 1..]);
  }

  lemma {:induction false} Matched(ts: seq<Layout>, i: nat, p: string)
    requires i <= |ts| && (Nth(Roots(ts), i) == null || ComparePointers(Nth(Roots(ts), i).key, p))
    ensures FirstMatch(MembersOf(ts[i..]), p) == 0
  {
    hide ValueOf, ComparePointers;
    if i < |ts| {
      assert MembersOf(ts[i..])[0].key == ts[i].node.key;
    }
  }

  /** Skips to the next slash or to the end. */
  method NextToken(token: string) returns (p: string)
    ensures p == Skip(token)
  {
    p := token;
    while p != "" && p[0] != '/'
      invariant Skip(p) == Skip(token)
      decreases |p|
    {
      p := p[1..];
    }
  }

  /** Walks down a pointer with a current node and a read position. */
  method GetItemFromPointer(root: Node, pointer: string, ghost t: Layout) returns (r: Node?)
    requires Lies(t) && root == t.node
    ensures r == Target(t, pointer)
  {
    hide *;
    var current: Node?, p := root, pointer;
    ghost var u, all := t, Nodes(t);
    assert allocated(all);
    while At(p, 0) == '/' && current != null
      invariant allocated(all) && Nodes(u) <= all
      invariant current != null ==> Lies(u) && current == u.node && Target(u, p) == Target(t, pointer)
      invariant current == null ==> Target(t, pointer) == null
      decreases |p|
    {
      NodesOf(u);
      Slash(p);
      TargetStep(u, p);
      p := p[1..];
      ghost var i: nat;
      if current.scalar.Array? {
        ArrayChild(u, p);
        var index := DecodeIndex(p);
        if index == None { return null; }
        i := index.value;
        current := ItemAt(current, index.value, u);
      } else if current.scalar.Object? {
        ObjectChild(u, p);
        current, i := MemberAt(current, p, u);
      } else {
        NoChild(u, p);
        return null;
      }
      Descend(u, i);
      if current != null {
        u := u.kids[i];
        NodesOf(u);
      }
      p := NextToken(p);
    }
    if current != null { AtTheEnd(u, p); }
    return current;
  }

  lemma {:induction false} Descend(t: Layout, i: nat)
    requires Lies(t)
    ensures Nth(Roots(t.kids), i) == if i < |t.kids| then t.kids[i].node else null
    ensures i < |t.kids| ==> Lies(t.kids[i]) && Nodes(t.kids[i]) <= Nodes(t)
  {
    hide Below, Distinct;
    RootsBelow(t.kids);
    if i < |t.kids| { KidLies(t.kids, i); }
  }

  // ---------------------------------------------------------------- both together

  /** The pointer found for a node leads to exactly that node, for any tree with distinct sibling keys. */
  lemma {:induction false} FoundLeadsBack(t: Layout, loc: Location)
    requires Tidy(ValueOf(t)) && IsLocation(ValueOf(t), loc)
    ensures Target(t, PointerTo(ValueOf(t), loc)) == NodeAt(t, loc)
  {
    hide *;
    PointerRoundTrip(ValueOf(t), loc);
    Located(t, PointerTo(ValueOf(t), loc), loc);
  }

  lemma {:induction false} Located(t: Layout, p: string, loc: Location)
    requires Locate(ValueOf(t), p) == Some(loc)
    ensures Target(t, p) == NodeAt(t, loc)
  {
    hide Locate;
  }
}
