/** Deep copies: a new tree of nodes, apart from the old one, with the same content. */
module SiblingCopy {
  import opened SiblingList

  /** Where a tree lies in memory. */
  datatype Layout = Layout(node: Node, kids: seq<Layout>)

  ghost function Roots(ts: seq<Layout>): (r: seq<Node>)
    ensures |r| == |ts| && forall i :: 0 <= i < |r| ==> r[i] == ts[i].node
  {
    seq(|ts|, i requires 0 <= i < |ts| => ts[i].node)
  }

  ghost function Nodes(t: Layout): (r: set<Node>)
    ensures t.node in r
    decreases t, 1
  {
    {t.node} + Below(t.kids)
  }

  ghost function Below(ts: seq<Layout>): set<Node>
    decreases ts, 0
  {
    if ts == [] then {} else Nodes(ts[0]) + Below(ts[1..])
  }

  /** The trees of a list do not share nodes. */
  ghost predicate Separate(ts: seq<Layout>)
  {
    forall i, j :: 0 <= i < j < |ts| ==> Nodes(ts[i]) !! Nodes(ts[j])
  }

  /** The nodes are linked the way the layout says; the root's own links to siblings do not matter. */
  ghost predicate Lies(t: Layout)
    reads t.node`child, Below(t.kids)
    decreases t, 1
  {
    RootsBelow(t.kids);
    && t.node !in Below(t.kids) && Separate(t.kids) && AllLie(t.kids)
    && t.node.child == Nth(Roots(t.kids), 0) && Siblings(Roots(t.kids))
  }

  ghost predicate AllLie(ts: seq<Layout>)
    reads Below(ts)
    decreases ts, 0
  {
    ts == [] || (assert Below(ts[0].kids) <= Nodes(ts[0]); Lies(ts[0]) && AllLie(ts[1..]))
  }

  lemma {:induction false} RootsBelow(ts: seq<Layout>)
    ensures forall i :: 0 <= i < |ts| ==> ts[i].node in Below(ts) && Nodes(ts[i]) <= Below(ts)
    decreases |ts|
  {
    if ts != [] {
      RootsBelow(ts[1..]);
      assert forall i :: 0 < i < |ts| ==> ts[i] == ts[1..][i - 1];
    }
  }

  ghost predicate SameTree(t: Layout, u: Layout)
    decreases t, 1
  {
    t.node.key == u.node.key && t.node.scalar == u.node.scalar && SameTrees(t.kids, u.kids)
  }

  ghost predicate SameTrees(ts: seq<Layout>, us: seq<Layout>)
    decreases ts, 0
  {
    |ts| == |us| && (ts == [] || (SameTree(ts[0], us[0]) && SameTrees(ts[1..], us[1..])))
  }

  // ---------------------------------------------------------------- lists of trees that grow

  lemma {:induction false} BelowMore(ts: seq<Layout>, t: Layout)
    ensures Below(ts + [t]) == Below(ts) + Nodes(t)
    decreases |ts|
  {
    hide Nodes;
    if ts == [] {
      assert ([] + [t])[1..] == [];
    } else {
      BelowMore(ts[1..], t);
      assert (ts + [t])[1..] == ts[1..] + [t];
    }
  }

  lemma {:induction false} AllLieMore(ts: seq<Layout>, t: Layout)
    requires AllLie(ts) && Lies(t)
    ensures AllLie(ts + [t])
    decreases |ts|
  {
    hide Lies;
    if ts == [] {
      assert ([] + [t])[1..] == [];
    } else {
      AllLieMore(ts[1..], t);
      assert (ts + [t])[1..] == ts[1..] + [t];
    }
  }

  lemma {:induction false} SameTreesMore(ts: seq<Layout>, us: seq<Layout>, t: Layout, u: Layout)
    requires SameTrees(ts, us) && SameTree(t, u)
    ensures SameTrees(ts + [t], us + [u])
    decreases |ts|
  {
    hide SameTree;
    if ts == [] {
      assert ([] + [t])[1..] == [] && ([] + [u])[1..] == [];
    } else {
      SameTreesMore(ts[1..], us[1..], t, u);
      assert (ts + [t])[1..] == ts[1..] + [t] && (us + [u])[1..] == us[1..] + [u];
    }
  }

  lemma {:induction false} SeparateMore(ts: seq<Layout>, t: Layout)
    requires Separate(ts) && Below(ts) !! Nodes(t)
    ensures Separate(ts + [t])
  {
    hide Nodes, Below;
    RootsBelow(ts);
  }

  lemma {:induction false} KidLies(ts: seq<Layout>, i: nat)
    requires AllLie(ts) && i < |ts|
    ensures Lies(ts[i])
    decreases |ts|
  {
    hide Lies;
    if i > 0 { KidLies(ts[1..], i - 1); }
  }

  lemma {:induction false} AllLieIs(ts: seq<Layout>)
    requires forall i :: 0 <= i < |ts| ==> Lies(ts[i])
    ensures AllLie(ts)
    decreases |ts|
  {
    hide Lies;
    if ts != [] { AllLieIs(ts[1..]); }
  }

  /** Trees whose roots are linked as far as they go. */
  ghost predicate Growing(ts: seq<Layout>)
    reads Below(ts)
  {
    RootsBelow(ts);
    Separate(ts) && AllLie(ts) && Chain(Roots(ts))
  }

  lemma {:induction false} RootApart(ts: seq<Layout>, i: nat, j: nat)
    requires Separate(ts) && AllLie(ts) && i < |ts| && j < |ts|
    ensures ts[i].node !in Below(ts[j].kids) && (i != j ==> ts[i].node != ts[j].node)
  {
    hide Below;
    KidLies(ts, j);
    if i < j { assert Nodes(ts[i]) !! Nodes(ts[j]); }
    if j < i { assert Nodes(ts[j]) !! Nodes(ts[i]); }
  }

  lemma {:induction false} RootsMore(ts: seq<Layout>, t: Layout)
    ensures Roots(ts + [t]) == Roots(ts) + [t.node]
  {
  }

  lemma {:induction false} ChainMore(s: seq<Node>, n: Node)
    requires Distinct(s) && n !in s
    requires forall j {:trigger s[j].next} :: 0 <= j < |s| ==> s[j].next == if j == |s| - 1 then n else Nth(s, j + 1)
    requires forall j {:trigger s[j].prev} :: 0 < j < |s| ==> s[j].prev == Nth(s, j - 1)
    requires n.next == null && (s != [] ==> n.prev == s[|s| - 1])
    ensures Chain(s + [n])
  {
    var r := s + [n];
    assert Distinct(r);
    hide Distinct;
    forall j {:trigger r[j].next} | 0 <= j < |r|
      ensures r[j].next == Nth(r, j + 1)
    {
      if j < |s| { assert s[j].next == if j == |s| - 1 then n else Nth(s, j + 1); }
    }
    forall j {:trigger r[j].prev} | 0 < j < |r|
      ensures r[j].prev == Nth(r, j - 1)
    {
      if j < |s| { assert s[j].prev == Nth(s, j - 1); }
    }
  }

  lemma {:induction false} BeforeLink(ts: seq<Layout>, t: Layout)
    requires Growing(ts) && Lies(t) && Below(ts) !! Nodes(t) && ts != []
    ensures forall j :: 0 <= j < |ts| ==> Lies(ts[j])
    ensures forall j :: 0 <= j < |ts| ==> t.node !in Below(ts[j].kids) && ts[|ts| - 1].node !in Below(ts[j].kids)
    ensures forall j {:trigger Roots(ts)[j]} :: 0 <= j < |ts| ==>
      Roots(ts)[j] != t.node && (j != |ts| - 1 ==> Roots(ts)[j] != ts[|ts| - 1].node)
    ensures t.node !in Below(t.kids) && ts[|ts| - 1].node !in Below(t.kids) && t.node !in Roots(ts)
  {
    RootsBelow(ts);
    KidsBelow(t);
    hide Distinct, Nodes, Below;
    forall j: nat | j < |ts|
      ensures Lies(ts[j]) && t.node !in Below(ts[j].kids) && ts[|ts| - 1].node !in Below(ts[j].kids)
      ensures ts[j].node != t.node && (j != |ts| - 1 ==> ts[j].node != ts[|ts| - 1].node)
    {
      KidLies(ts, j);
      KidsBelow(ts[j]);
      RootApart(ts, |ts| - 1, j);
    }
  }

  /** Links one more copied child behind the last. */
  method LinkKid(next: Node, kid: Node, ghost ts: seq<Layout>, ghost t: Layout)
    requires Growing(ts) && Lies(t) && t.node == kid && kid.next == null && Below(ts) !! Nodes(t)
    requires ts != [] && next == ts[|ts| - 1].node
    modifies next`next, kid`prev
    ensures Growing(ts + [t]) && kid.next == null
  {
    hide *;
    BeforeLink(ts, t);
    RootsDistinct(ts);
    ChainIs(Roots(ts));
    next.next := kid;
    kid.prev := next;
    KidLinked(ts, t);
  }

  /** What the links after one more child say. */
  lemma {:induction false} KidLinked(ts: seq<Layout>, t: Layout)
    requires ts != [] && Separate(ts) && Below(ts) !! Nodes(t) && Distinct(Roots(ts)) && t.node !in Roots(ts)
    requires Lies(t) && forall j :: 0 <= j < |ts| ==> Lies(ts[j])
    requires var s := Roots(ts);
      && (forall j {:trigger s[j].next} :: 0 <= j < |s| ==> s[j].next == if j == |s| - 1 then t.node else Nth(s, j + 1))
      && (forall j {:trigger s[j].prev} :: 0 < j < |s| ==> s[j].prev == Nth(s, j - 1))
      && t.node.next == null && t.node.prev == ts[|ts| - 1].node
    ensures Growing(ts + [t])
  {
    hide Distinct, Nodes, Below, Lies, AllLie, Separate, Chain, Growing;
    AllLieIs(ts);
    AllLieMore(ts, t);
    SeparateMore(ts, t);
    RootsMore(ts, t);
    ChainMore(Roots(ts), t.node);
    GrowingIs(ts + [t]);
  }

  lemma {:induction false} RootsDistinct(ts: seq<Layout>)
    requires Growing(ts)
    ensures Chain(Roots(ts)) && Separate(ts)
  {
    hide Nodes, Below, Lies;
  }

  lemma {:induction false} GrowingIs(ts: seq<Layout>)
    requires Separate(ts) && AllLie(ts) && Chain(Roots(ts))
    ensures Growing(ts)
  {
    hide Nodes, Below, Lies;
  }

  lemma {:induction false} KidsBelow(t: Layout)
    ensures Below(t.kids) <= Nodes(t) && t.node in Nodes(t)
  {
    hide Below;
  }

  lemma {:induction false} ChainIs(s: seq<Node>)
    requires Chain(s)
    ensures Distinct(s)
    ensures forall j {:trigger s[j].next} :: 0 <= j < |s| ==> s[j].next == Nth(s, j + 1)
    ensures forall j {:trigger s[j].prev} :: 0 < j < |s| ==> s[j].prev == Nth(s, j - 1)
  {
  }

  // ---------------------------------------------------------------- duplicating

  /** The copies made so far of a list of children. */
  ghost predicate Copied(copy: Node, ts: seq<Layout>, us: seq<Layout>)
    reads copy`child, Below(us)
  {
    && |us| <= |ts| && SameTrees(ts[..|us|], us) && Growing(us)
    && copy !in Below(us) && copy.child == Nth(Roots(us), 0)
  }

  lemma {:induction false} NothingCopied(copy: Node, ts: seq<Layout>)
    requires copy.child == null
    ensures Copied(copy, ts, []) && Below([]) == {} && Nth(Roots([]), -1) == null
  {
  }

  lemma {:induction false} CopiedIs(copy: Node, ts: seq<Layout>, us: seq<Layout>)
    requires Copied(copy, ts, us)
    ensures |us| <= |ts| && Growing(us) && copy !in Below(us) && copy.child == Nth(Roots(us), 0)
    ensures SameTrees(ts[..|us|], us)
  {
  }

  lemma {:induction false} FirstKid(u: Layout)
    requires Lies(u) && u.node.next == null
    ensures Growing([u])
  {
    hide Nodes, Below, Lies;
    assert [u][1..] == [];
    assert AllLie([u]);
  }

  lemma {:induction false} CopiedMore(copy: Node, ts: seq<Layout>, us: seq<Layout>, u: Layout)
    requires |us| < |ts| && SameTrees(ts[..|us|], us) && SameTree(ts[|us|], u)
    requires Growing(us + [u]) && copy !in Below(us) && copy !in Nodes(u) && copy.child == Nth(Roots(us + [u]), 0)
    ensures Copied(copy, ts, us + [u])
  {
    hide Nodes, Below, Growing, SameTrees, SameTree;
    assert ts[..|us| + 1] == ts[..|us|] + [ts[|us|]];
    SameTreesMore(ts[..|us|], us, ts[|us|], u);
    BelowMore(us, u);
  }

  lemma {:induction false} LastRoot(us: seq<Layout>, u: Layout)
    ensures Roots(us + [u]) == Roots(us) + [u.node] && (us != [] ==> Nth(Roots(us + [u]), 0) == Nth(Roots(us), 0))
    ensures us == [] ==> us + [u] == [u] && Nth(Roots(us + [u]), 0) == u.node
  {
    RootsMore(us, u);
  }

  /** Hangs a copied child into the copy. */
  method AddCopy(copy: Node, next: Node?, kid: Node, ghost ts: seq<Layout>, ghost us: seq<Layout>, ghost u: Layout)
    requires Copied(copy, ts, us) && |us| < |ts| && SameTree(ts[|us|], u) && Lies(u) && u.node == kid
    requires kid.next == null
    requires Below(us) !! Nodes(u) && copy !in Nodes(u) && next == Nth(Roots(us), |us| - 1)
    modifies copy`child, Below(us)`next, kid`prev
    ensures Copied(copy, ts, us + [u]) && kid.next == null
  {
    hide *;
    CopiedIs(copy, ts, us);
    LastRoot(us, u);
    RootsBelow(us);
    NextIs(us, next);
    if next != null {
      LinkKid(next, kid, us, u);
    } else {
      LieKept(copy, u);
      copy.child := kid;
      FirstKid(u);
    }
    CopiedMore(copy, ts, us, u);
  }

  lemma {:induction false} NextIs(us: seq<Layout>, next: Node?)
    requires next == Nth(Roots(us), |us| - 1)
    ensures next == null <==> us == []
    ensures next != null ==> next == us[|us| - 1].node && next in Below(us)
  {
    RootsBelow(us);
  }

  lemma {:induction false} LieKept(copy: Node, u: Layout)
    requires copy !in Nodes(u)
    ensures copy != u.node && copy !in Below(u.kids)
  {
    hide Below;
  }

  lemma {:induction false} CopyLies(copy: Node, t: Layout, us: seq<Layout>)
    requires Copied(copy, t.kids, us) && |us| == |t.kids| && t.node.key == copy.key && t.node.scalar == copy.scalar
    requires us != [] ==> us[0].node.prev == us[|us| - 1].node
    ensures Lies(Layout(copy, us)) && SameTree(t, Layout(copy, us))
  {
    hide Nodes, Below, Distinct, SameTrees, AllLie, Separate;
    RootsBelow(us);
    assert t.kids[..|us|] == t.kids;
  }

  lemma {:induction false} NextKid(t: Layout, i: nat)
    requires Lies(t) && i < |t.kids|
    ensures Lies(t.kids[i]) && t.kids[i].node.next == Nth(Roots(t.kids), i + 1)
  {
    hide Nodes, Below, Distinct;
    KidLies(t.kids, i);
    assert Roots(t.kids)[i].next == Nth(Roots(t.kids), i + 1);
  }

  lemma {:induction false} KidsList(t: Layout)
    requires Lies(t)
    ensures t.node.child == Nth(Roots(t.kids), 0)
  {
    hide Nodes, Below, Distinct;
  }

  lemma {:induction false} BeforeClose(ts: seq<Layout>)
    requires Growing(ts) && ts != []
    ensures Chain(Roots(ts)) && Separate(ts) && Roots(ts)[0] == ts[0].node
    ensures forall j :: 0 <= j < |ts| ==> Lies(ts[j]) && ts[0].node !in Below(ts[j].kids)
    ensures forall j {:trigger Roots(ts)[j]} :: 0 < j < |ts| ==> Roots(ts)[j] != ts[0].node
  {
    hide Distinct, Nodes, Below;
    RootsBelow(ts);
    forall j: nat | j < |ts|
      ensures Lies(ts[j]) && ts[0].node !in Below(ts[j].kids) && (j > 0 ==> ts[j].node != ts[0].node)
    {
      KidLies(ts, j);
      RootApart(ts, 0, j);
    }
  }

  lemma {:induction false} Closed(ts: seq<Layout>)
    requires Separate(ts) && Distinct(Roots(ts)) && forall j :: 0 <= j < |ts| ==> Lies(ts[j])
    requires var s := Roots(ts);
      && (forall j {:trigger s[j].next} :: 0 <= j < |s| ==> s[j].next == Nth(s, j + 1))
      && (forall j {:trigger s[j].prev} :: 0 < j < |s| ==> s[j].prev == Nth(s, j - 1))
    ensures Growing(ts)
  {
    hide Nodes, Below, Lies, AllLie, Separate, Distinct;
    AllLieIs(ts);
    GrowingIs(ts);
  }

  /** The first copied child gets to know the last. */
  method CloseKids(first: Node, last: Node, ghost us: seq<Layout>)
    requires Growing(us) && us != [] && first == us[0].node && last == us[|us| - 1].node
    modifies first`prev
    ensures Growing(us) && first.prev == last
  {
    hide *;
    BeforeClose(us);
    ChainIs(Roots(us));
    first.prev := last;
    Closed(us);
  }

  lemma {:induction false} CopiedAgain(copy: Node, ts: seq<Layout>, us: seq<Layout>)
    requires |us| <= |ts| && SameTrees(ts[..|us|], us) && Growing(us) && copy !in Below(us)
    requires copy.child == Nth(Roots(us), 0)
    ensures Copied(copy, ts, us)
  {
  }

  lemma {:induction false} RootEnds(us: seq<Layout>)
    requires us != []
    ensures Nth(Roots(us), 0) == us[0].node && Nth(Roots(us), |us| - 1) == us[|us| - 1].node
    ensures us[0].node in Below(us) && us[|us| - 1].node in Below(us)
  {
    RootsBelow(us);
  }

  /** A copy of the node with copies of all that lies below it; nothing of the old tree is touched. */
  method Duplicate(item: Node, ghost t: Layout) returns (copy: Node, ghost u: Layout)
    requires Lies(t) && item == t.node
    ensures Lies(u) && u.node == copy && SameTree(t, u) && fresh(Nodes(u))
    ensures copy.next == null && copy.prev == null
    decreases t
  {
    hide *;
    ghost var before := Nodes(t);
    assert allocated(before);
    copy := new Node(item.key, item.scalar);
    NodesOf(t);
    assert copy !in before && forall n :: n in Below(t.kids) ==> n in before;
    KidsList(t);
    var child, next: Node? := item.child, null;
    ghost var us: seq<Layout> := [];
    NothingCopied(copy, t.kids);
    while child != null
      invariant allocated(before) && before !! {copy} + Below(us)
      invariant Lies(t) && |us| <= |t.kids| && child == Nth(Roots(t.kids), |us|)
      invariant Copied(copy, t.kids, us) && next == Nth(Roots(us), |us| - 1)
      invariant fresh(Below(us)) && copy.next == null && copy.prev == null && copy.key == item.key
      invariant copy.scalar == item.scalar
      decreases |t.kids| - |us|
    {
      ghost var i := |us|;
      InRange(t.kids, i);
      NextKid(t, i);
      CopiedIs(copy, t.kids, us);
      ghost var copies := Below(us);
      assert allocated(copies);
      var newChild;
      ghost var v;
      newChild, v := Duplicate(child, t.kids[i]);
      assert Nodes(v) !! copies && copy !in Nodes(v) && newChild in Nodes(v);
      BelowMore(us, v);
      LastRoot(us, v);
      AddCopy(copy, next, newChild, t.kids, us, v);
      us := us + [v];
      next := newChild;
      RootEnds(us);
      child := child.next;
    }
    AllCopied(t.kids, us);
    CopiedIs(copy, t.kids, us);
    if copy.child != null {
      RootsOf(us);
      RootEnds(us);
      CloseKids(copy.child, next, us);
      CopiedAgain(copy, t.kids, us);
    } else {
      RootsOf(us);
    }
    u := Layout(copy, us);
    CopyLies(copy, t, us);
    NodesOf(u);
  }

  lemma {:induction false} InRange(ts: seq<Layout>, i: nat)
    requires Nth(Roots(ts), i) != null
    ensures i < |ts| && Nth(Roots(ts), i) == ts[i].node
  {
  }

  lemma {:induction false} AllCopied(ts: seq<Layout>, us: seq<Layout>)
    requires |us| <= |ts| && Nth(Roots(ts), |us|) == null
    ensures |us| == |ts|
  {
  }

  lemma {:induction false} RootsOf(us: seq<Layout>)
    ensures Nth(Roots(us), 0) == null <==> us == []
  {
  }

  lemma {:induction false} NodesOf(u: Layout)
    ensures Nodes(u) == {u.node} + Below(u.kids)
  {
    hide Below;
  }
}
