/** The in-place merge sort of a sibling list. */
module SiblingSort {
  import opened JsonTree
  import opened MemberSort
  import opened SiblingList

  // ---------------------------------------------------------------- what the order of the nodes becomes

  ghost predicate RisingNodes(s: seq<Node>, cs: bool)
  {
    forall i :: 0 <= i < |s| - 1 ==> Before(s[i].key, s[i + 1].key, cs)
  }

  ghost function MergeNodes(a: seq<Node>, b: seq<Node>, cs: bool): (r: seq<Node>)
    ensures multiset(r) == multiset(a) + multiset(b)
    decreases |a| + |b|
  {
    if a == [] then b
    else if b == [] then a
    else if Before(a[0].key, b[0].key, cs) then
      assert a == [a[0]] + a[1..];
      [a[0]] + MergeNodes(a[1..], b, cs)
    else
      assert b == [b[0]] + b[1..];
      [b[0]] + MergeNodes(a, b[1..], cs)
  }

  ghost function SortNodes(s: seq<Node>, cs: bool): (r: seq<Node>)
    ensures multiset(r) == multiset(s)
    decreases |s|
  {
    if |s| <= 1 || RisingNodes(s, cs) then s
    else
      var mid := (|s| + 1) / 2;
      assert s == s[..mid] + s[mid..];
      MergeNodes(SortNodes(s[..mid], cs), SortNodes(s[mid..], cs), cs)
  }

  // ---------------------------------------------------------------- runs

  /** Nodes that point at each other; what the last `next` and the first `prev` hold does not matter. */
  ghost predicate Run(r: seq<Node>)
    reads r
  {
    && Distinct(r)
    && (forall i {:trigger r[i].next} :: 0 <= i < |r| - 1 ==> r[i].next == Nth(r, i + 1))
    && (forall i {:trigger r[i].prev} :: 0 < i < |r| ==> r[i].prev == Nth(r, i - 1))
  }

  ghost predicate Disjoint(a: seq<Node>, b: seq<Node>)
  {
    forall n :: n in a ==> n !in b
  }

  lemma {:induction false} TailChain(s: seq<Node>)
    requires s != [] && Chain(s)
    ensures Chain(s[1..]) && s[0] !in s[1..] && s[0].next == Nth(s[1..], 0)
  {
    var r := s[1..];
    hide Distinct;
    forall j {:trigger r[j].next} | 0 <= j < |r|
      ensures r[j].next == Nth(r, j + 1)
    {
      assert s[j + 1].next == Nth(s, j + 2);
    }
    forall j {:trigger r[j].prev} | 0 < j < |r|
      ensures r[j].prev == Nth(r, j - 1)
    {
      assert s[j + 1].prev == Nth(s, j);
    }
  }

  lemma {:induction false} JoinDistinct(a: seq<Node>, b: seq<Node>)
    requires Distinct(a) && Distinct(b) && Disjoint(a, b)
    ensures Distinct(a + b)
  {
    forall i, j | 0 <= i < j < |a + b|
      ensures (a + b)[i] != (a + b)[j]
    {
      if i < |a| <= j { assert a[i] in a && b[j - |a|] in b; }
    }
  }

  /** Two runs joined in the middle. */
  lemma {:induction false} JoinRuns(a: seq<Node>, b: seq<Node>)
    requires Run(a) && Run(b) && Disjoint(a, b) && a != [] && b != []
    requires a[|a| - 1].next == b[0] && b[0].prev == a[|a| - 1]
    ensures Run(a + b)
  {
    var r := a + b;
    JoinDistinct(a, b);
    hide Distinct, Disjoint;
    forall j {:trigger r[j].next} | 0 <= j < |r| - 1
      ensures r[j].next == Nth(r, j + 1)
    {
      if j < |a| - 1 { assert a[j].next == Nth(a, j + 1); }
      if j >= |a| { assert b[j - |a|].next == Nth(b, j - |a| + 1); }
    }
    forall j {:trigger r[j].prev} | 0 < j < |r|
      ensures r[j].prev == Nth(r, j - 1)
    {
      if j < |a| { assert a[j].prev == Nth(a, j - 1); }
      if j > |a| { assert b[j - |a|].prev == Nth(b, j - |a| - 1); }
    }
  }

  lemma {:induction false} RunEnds(r: seq<Node>)
    requires Run(r) && (r != [] ==> r[|r| - 1].next == null)
    ensures Chain(r)
  {
    hide Distinct;
    forall j {:trigger r[j].next} | 0 <= j < |r|
      ensures r[j].next == Nth(r, j + 1)
    {
      if j == |r| - 1 { assert r[j] == r[|r| - 1]; }
    }
  }

  lemma {:induction false} ChainRuns(s: seq<Node>)
    requires Chain(s)
    ensures Run(s) && (s != [] ==> s[|s| - 1].next == null)
  {
    hide Distinct;
  }

  // ---------------------------------------------------------------- merging

  /** Joins a run to the nodes that come next. */
  method Link(tail: Node, item: Node, ghost a: seq<Node>, ghost b: seq<Node>)
    requires Run(a) && Run(b) && Disjoint(a, b) && a != [] && b != [] && tail == a[|a| - 1] && item == b[0]
    modifies tail`next, item`prev
    ensures Run(a + b)
  {
    hide Distinct;
    LinkKeeps(a, b);
    Suffix(tail, item);
    JoinRuns(a, b);
  }

  lemma {:induction false} LinkKeeps(a: seq<Node>, b: seq<Node>)
    requires Distinct(a) && Distinct(b) && Disjoint(a, b) && a != [] && b != []
    ensures forall j {:trigger a[j]} :: 0 <= j < |a| - 1 ==> a[j] != a[|a| - 1]
    ensures forall j {:trigger b[j]} :: 0 < j < |b| ==> b[j] != b[0]
    ensures forall j {:trigger a[j]} :: 0 <= j < |a| ==> a[j] != b[0]
    ensures forall j {:trigger b[j]} :: 0 <= j < |b| ==> b[j] != a[|a| - 1]
  {
    assert forall j :: 0 <= j < |a| ==> a[j] in a;
    assert forall j :: 0 <= j < |b| ==> b[j] in b;
  }

  lemma {:induction false} RunPrefix(r: seq<Node>, n: nat)
    requires Run(r) && n <= |r|
    ensures Run(r[..n])
  {
    var p := r[..n];
    forall j {:trigger p[j].next} | 0 <= j < |p| - 1
      ensures p[j].next == Nth(p, j + 1)
    {
      assert r[j].next == Nth(r, j + 1);
    }
    forall j {:trigger p[j].prev} | 0 < j < |p|
      ensures p[j].prev == Nth(p, j - 1)
    {
      assert r[j].prev == Nth(r, j - 1);
    }
  }

  lemma {:induction false} HeadMoves(r: seq<Node>, x: seq<Node>)
    requires x != []
    ensures r + [x[0]] == (r + x)[..|r| + 1]
    ensures forall n :: n in r + [x[0]] <==> n in r || n == x[0]
  {
  }

  lemma {:induction false} TailIn(x: seq<Node>)
    requires x != []
    ensures x[0] in x && forall n :: n in x[1..] ==> n in x
  {
  }

  /** The smaller node goes to the end of the merged run; the rest of its list stays a list. */
  method TakeNode(tail: Node, smaller: Node, ghost r: seq<Node>, ghost x: seq<Node>, ghost y: seq<Node>)
    requires Run(r) && Chain(x) && Chain(y) && Disjoint(r, x) && Disjoint(r, y) && Disjoint(x, y)
    requires r != [] && x != [] && tail == r[|r| - 1] && smaller == x[0]
    modifies tail`next, smaller`prev
    ensures Run(r + [smaller]) && Chain(x[1..]) && Chain(y) && smaller.next == Nth(x[1..], 0)
    ensures Disjoint(r + [smaller], x[1..]) && Disjoint(r + [smaller], y) && Disjoint(x[1..], y)
  {
    TailChain(x);
    ChainRuns(x);
    HeadMoves(r, x);
    TailIn(x);
    assert tail in r;
    hide Distinct;
    Link(tail, smaller, r, x);
    RunPrefix(r + x, |r| + 1);
  }

  lemma {:induction false} FirstNode(x: seq<Node>, y: seq<Node>)
    requires x != [] && Chain(x) && Chain(y) && Disjoint(x, y)
    ensures Run([x[0]]) && Chain(x[1..]) && x[0].next == Nth(x[1..], 0)
    ensures Disjoint([x[0]], x[1..]) && Disjoint([x[0]], y) && Disjoint(x[1..], y)
  {
    TailChain(x);
    TailIn(x);
  }

  lemma {:induction false} MergeHead(a: seq<Node>, b: seq<Node>, cs: bool)
    requires a != [] && b != []
    ensures MergeNodes(a, b, cs) ==
      if Before(a[0].key, b[0].key, cs) then [a[0]] + MergeNodes(a[1..], b, cs) else [b[0]] + MergeNodes(a, b[1..], cs)
  {
    hide Before;
  }

  /** What the merge has left to do after one step. */
  lemma {:induction false} MergeOn(r: seq<Node>, x: seq<Node>, y: seq<Node>, cs: bool)
    requires x != [] && y != []
    ensures r + MergeNodes(x, y, cs) ==
      if Before(x[0].key, y[0].key, cs) then r + [x[0]] + MergeNodes(x[1..], y, cs)
      else r + [y[0]] + MergeNodes(x, y[1..], cs)
  {
    hide *;
    MergeHead(x, y, cs);
  }

  lemma {:induction false} MergeDone(x: seq<Node>, y: seq<Node>, cs: bool)
    requires x == [] || y == []
    ensures MergeNodes(x, y, cs) == x + y
  {
    if x == [] { assert x + y == y; } else { assert x + y == x; }
  }

  ghost predicate Within(r: seq<Node>, x: seq<Node>, y: seq<Node>, a: seq<Node>, b: seq<Node>)
  {
    && (forall n :: n in r ==> n in a || n in b)
    && (forall n :: n in x ==> n in a || n in b)
    && (forall n :: n in y ==> n in a || n in b)
  }

  /** The state of the merge: the run so far and what is left of the two lists. */
  ghost predicate Merging(result: Node?, tail: Node?, r: seq<Node>, x: seq<Node>, y: seq<Node>)
    reads r, x, y
  {
    && Run(r) && Chain(x) && Chain(y) && Disjoint(r, x) && Disjoint(r, y) && Disjoint(x, y)
    && (if r == [] then result == null && tail == null else result == r[0] && tail == r[|r| - 1])
  }

  /** One node taken from the front of the first list. */
  method Take(result: Node?, tail: Node?, smaller: Node, ghost r: seq<Node>, ghost x: seq<Node>, ghost y: seq<Node>)
    returns (result': Node, rest: Node?)
    requires Merging(result, tail, r, x, y) && x != [] && smaller == x[0]
    modifies tail, smaller
    ensures Merging(result', smaller, r + [smaller], x[1..], y) && rest == Nth(x[1..], 0)
    ensures (r + [smaller])[0].prev == old((r + [smaller])[0].prev)
  {
    hide Distinct, Chain, Run;
    if result == null {
      FirstNode(x, y);
      result' := smaller;
      assert [] + [x[0]] == [x[0]];
    } else {
      HeadMoves(r, x);
      HeadApart(r, x);
      TakeNode(tail, smaller, r, x, y);
      result' := result;
    }
    rest := smaller.next;
  }

  lemma {:induction false} HeadApart(r: seq<Node>, x: seq<Node>)
    requires r != [] && x != [] && Disjoint(r, x)
    ensures r[0] != x[0] && (r + [x[0]])[0] == r[0]
  {
    assert r[0] in r && x[0] in x;
  }

  lemma {:induction false} StaysWithin(r: seq<Node>, x: seq<Node>, y: seq<Node>, a: seq<Node>, b: seq<Node>)
    requires Within(r, x, y, a, b) && x != []
    ensures Within(r + [x[0]], x[1..], y, a, b) && (x[0] in a || x[0] in b)
    ensures r != [] ==> r[|r| - 1] in a || r[|r| - 1] in b
  {
    HeadMoves(r, x);
    TailIn(x);
    if r != [] { assert r[|r| - 1] in r; }
  }

  /** Which of the two rests comes first does not matter. */
  lemma {:induction false} RestsSwap(result: Node?, tail: Node?, r: seq<Node>, x: seq<Node>, y: seq<Node>,
                                     a: seq<Node>, b: seq<Node>)
    requires Merging(result, tail, r, x, y) && Within(r, x, y, a, b)
    ensures Merging(result, tail, r, y, x) && Within(r, y, x, a, b)
  {
  }

  /** Merges two lists by relinking their nodes; the first node of the result keeps its `prev`. */
  method Merge(first0: Node, second0: Node, cs: bool, ghost a: seq<Node>, ghost b: seq<Node>)
    returns (result: Node?, ghost r: seq<Node>)
    requires a != [] && b != [] && Chain(a) && Chain(b) && Disjoint(a, b) && first0 == a[0] && second0 == b[0]
    modifies a, b
    ensures r == MergeNodes(a, b, cs) && Chain(r) && result == Nth(r, 0)
    ensures r != [] && r[0].prev == old(r[0].prev)
  {
    hide *;
    var first: Node?, second: Node?, tail: Node? := first0, second0, null;
    ghost var x, y, p, q := a, b, a[0].prev, b[0].prev;
    result, r := null, [];
    StartMerging(a, b);
    assert [] + MergeNodes(a, b, cs) == MergeNodes(a, b, cs);
    AtHead(a);
    AtHead(b);
    while first != null && second != null
      invariant Merging(result, tail, r, x, y) && first == Nth(x, 0) && second == Nth(y, 0) && Within(r, x, y, a, b)
      invariant r + MergeNodes(x, y, cs) == MergeNodes(a, b, cs)
      invariant x != [] || y != []
      invariant if r == [] then x == a && y == b && a[0].prev == p && b[0].prev == q
                else (r[0] == a[0] && r[0].prev == p) || (r[0] == b[0] && r[0].prev == q)
      decreases |x| + |y|
    {
      MergingEnds(result, tail, r, x, y);
      AtHead(x);
      AtHead(y);
      MergeOn(r, x, y, cs);
      if Before(first.key, second.key, cs) {
        StaysWithin(r, x, y, a, b);
        var smaller := first;
        result, first := Take(result, tail, smaller, r, x, y);
        tail := smaller;
        r := r + [smaller];
        x := x[1..];
      } else {
        RestsSwap(result, tail, r, x, y, a, b);
        StaysWithin(r, y, x, a, b);
        var smaller := second;
        result, second := Take(result, tail, smaller, r, y, x);
        tail := smaller;
        r := r + [smaller];
        y := y[1..];
        RestsSwap(result, tail, r, y, x, a, b);
      }
    }
    AtHead(x);
    AtHead(y);
    MergeDone(x, y, cs);
    MergingEnds(result, tail, r, x, y);
    if first != null {
      assert x + y == x;
      StaysWithin(r, x, y, a, b);
      AppendRest(tail, first, r, x);
      r := r + x;
    } else if second != null {
      assert x + y == y;
      RestsSwap(result, tail, r, x, y, a, b);
      StaysWithin(r, y, x, a, b);
      AppendRest(tail, second, r, y);
      r := r + y;
    }
    AtHead(r);
  }

  lemma {:induction false} AtHead(s: seq<Node>)
    ensures Nth(s, 0) == if s == [] then null else s[0]
  {
  }

  lemma {:induction false} StartMerging(a: seq<Node>, b: seq<Node>)
    requires Chain(a) && Chain(b) && Disjoint(a, b)
    ensures Merging(null, null, [], a, b) && Within([], a, b, a, b)
  {
  }

  lemma {:induction false} MergingEnds(result: Node?, tail: Node?, r: seq<Node>, x: seq<Node>, y: seq<Node>)
    requires Merging(result, tail, r, x, y)
    ensures r != [] ==> result == r[0] && tail == r[|r| - 1]
    ensures r == [] <==> result == null
    ensures r == [] ==> tail == null
    ensures Run(r) && Chain(x) && Chain(y) && Disjoint(r, x) && Disjoint(r, y)
  {
  }

  method AppendRest(tail: Node, rest: Node, ghost r: seq<Node>, ghost x: seq<Node>)
    requires Run(r) && Chain(x) && Disjoint(r, x) && r != [] && x != [] && tail == r[|r| - 1] && rest == x[0]
    modifies tail`next, rest`prev
    ensures Chain(r + x) && (r + x)[0] == r[0] && r[0].prev == old(r[0].prev)
  {
    HeadApart(r, x);
    ChainRuns(x);
    hide Distinct, Chain;
    LastApart(r, x);
    Link(tail, rest, r, x);
    RunEnds(r + x);
  }

  lemma {:induction false} LastApart(r: seq<Node>, x: seq<Node>)
    requires r != [] && x != [] && Disjoint(r, x)
    ensures x[|x| - 1] != r[|r| - 1] && (r + x)[|r + x| - 1] == x[|x| - 1]
  {
    assert r[|r| - 1] in r && x[|x| - 1] in x;
  }

  // ---------------------------------------------------------------- splitting

  /** Whether the list is in order already. */
  method IsRising(list: Node, cs: bool, ghost s: seq<Node>) returns (b: bool)
    requires Chain(s) && s != [] && list == s[0]
    ensures b <==> RisingNodes(s, cs)
  {
    hide Distinct, Before;
    var current := list;
    ghost var i := 0;
    assert current.next == Nth(s, 1);
    while current.next != null && Before(current.key, current.next.key, cs)
      invariant i < |s| && current == s[i] && current.next == Nth(s, i + 1)
      invariant forall j :: 0 <= j < i ==> Before(s[j].key, s[j + 1].key, cs)
      decreases |s| - i
    {
      current := current.next;
      i := i + 1;
      assert s[i].next == Nth(s, i + 1);
    }
    b := current.next == null;
  }

  /** Two pointers walk, one twice as fast. */
  method FindMiddle(list: Node, ghost s: seq<Node>) returns (second: Node?)
    requires Chain(s) && s != [] && list == s[0]
    ensures second == Nth(s, (|s| + 1) / 2)
  {
    hide Distinct;
    second := list;
    var current: Node? := list;
    ghost var i := 0;
    while current != null
      invariant i <= (|s| + 1) / 2 && second == Nth(s, i) && current == Nth(s, 2 * i)
      decreases |s| - i
    {
      assert s[i].next == Nth(s, i + 1) && s[2 * i].next == Nth(s, 2 * i + 1);
      second := second.next;
      current := current.next;
      if current != null {
        assert s[2 * i + 1].next == Nth(s, 2 * i + 2);
        current := current.next;
      }
      i := i + 1;
    }
  }

  lemma {:induction false} PartsDistinct(s: seq<Node>, m: nat)
    requires m <= |s| && Distinct(s)
    ensures Distinct(s[..m]) && Distinct(s[m..]) && Disjoint(s[..m], s[m..])
    ensures (forall n :: n in s[..m] ==> n in s) && (forall n :: n in s[m..] ==> n in s)
  {
  }

  lemma {:induction false} PartsChain(s: seq<Node>, m: nat)
    requires 0 < m < |s| && Distinct(s)
    requires forall j {:trigger s[j].next} :: 0 <= j < |s| ==> s[j].next == if j == m - 1 then null else Nth(s, j + 1)
    requires forall j {:trigger s[j].prev} :: 0 < j < |s| && j != m ==> s[j].prev == Nth(s, j - 1)
    ensures Chain(s[..m]) && Chain(s[m..])
  {
    PartsDistinct(s, m);
    hide Distinct;
    var a, b := s[..m], s[m..];
    forall j {:trigger a[j].next} | 0 <= j < |a|
      ensures a[j].next == Nth(a, j + 1) && (j > 0 ==> a[j].prev == Nth(a, j - 1))
    {
      assert s[j].next == (if j == m - 1 then null else Nth(s, j + 1)) && (j > 0 ==> s[j].prev == Nth(s, j - 1));
    }
    forall j {:trigger b[j].next} | 0 <= j < |b|
      ensures b[j].next == Nth(b, j + 1) && (j > 0 ==> b[j].prev == Nth(b, j - 1))
    {
      assert s[m + j].next == Nth(s, m + j + 1) && (j > 0 ==> s[m + j].prev == Nth(s, m + j - 1));
    }
    assert forall j {:trigger a[j].prev} :: 0 < j < |a| ==> a[j].next == Nth(a, j + 1) && a[j].prev == Nth(a, j - 1);
    assert forall j {:trigger b[j].prev} :: 0 < j < |b| ==> b[j].next == Nth(b, j + 1) && b[j].prev == Nth(b, j - 1);
  }

  /** Cuts the list before its middle. */
  method Split(second: Node, ghost s: seq<Node>, ghost m: nat)
    requires Chain(s) && 0 < m < |s| && second == s[m]
    modifies s
    ensures Chain(s[..m]) && Chain(s[m..]) && s[m].prev == null && s[0].prev == old(s[0].prev)
  {
    hide Distinct, Chain;
    ChainPointwise(s);
    Apart(s, m);
    Apart(s, m - 1);
    assert second.prev == s[m - 1];
    second.prev.next := null;
    second.prev := null;
    PartsChain(s, m);
  }

  lemma {:induction false} ChainPointwise(s: seq<Node>)
    requires Chain(s)
    ensures Distinct(s)
    ensures forall j {:trigger s[j].next} :: 0 <= j < |s| ==> s[j].next == Nth(s, j + 1)
    ensures forall j {:trigger s[j].prev} :: 0 < j < |s| ==> s[j].prev == Nth(s, j - 1)
  {
  }

  // ---------------------------------------------------------------- sorting

  lemma {:induction false} SameNodes(a: seq<Node>, b: seq<Node>)
    requires multiset(a) == multiset(b)
    ensures forall n :: n in a <==> n in b
    ensures |a| == |b|
  {
    assert |multiset(a)| == |a| && |multiset(b)| == |b|;
    forall n
      ensures n in a <==> n in b
    {
      assert n in a <==> n in multiset(a);
    }
  }

  lemma {:induction false} SortedParts(s: seq<Node>, cs: bool)
    requires |s| > 1 && !RisingNodes(s, cs)
    ensures var m := (|s| + 1) / 2; var a, b := SortNodes(s[..m], cs), SortNodes(s[m..], cs);
      && SortNodes(s, cs) == MergeNodes(a, b, cs)
      && (forall n :: n in a <==> n in s[..m]) && (forall n :: n in b <==> n in s[m..])
      && |a| == m && |b| == |s| - m
  {
    hide RisingNodes, MergeNodes;
    var m := (|s| + 1) / 2;
    SameNodes(SortNodes(s[..m], cs), s[..m]);
    SameNodes(SortNodes(s[m..], cs), s[m..]);
  }

  lemma {:induction false} MergedHead(a: seq<Node>, b: seq<Node>, cs: bool)
    requires a != [] && b != []
    ensures MergeNodes(a, b, cs) != [] && (MergeNodes(a, b, cs)[0] == a[0] || MergeNodes(a, b, cs)[0] == b[0])
  {
    hide Before;
  }

  /** Both halves, one after the other; sorting one leaves the other alone. */
  method SortHalves(first0: Node, second0: Node, cs: bool, ghost a: seq<Node>, ghost b: seq<Node>)
    returns (first: Node, second: Node, ghost x: seq<Node>, ghost y: seq<Node>)
    requires a != [] && b != [] && Chain(a) && Chain(b) && Disjoint(a, b) && first0 == a[0] && second0 == b[0]
    modifies a, b
    ensures x == SortNodes(a, cs) && y == SortNodes(b, cs) && |x| == |a| && |y| == |b|
    ensures Chain(x) && Chain(y) && Disjoint(x, y) && first == x[0] && second == y[0]
    ensures (forall n :: n in x ==> n in a) && (forall n :: n in y ==> n in b)
    ensures x[0].prev == if x[0] == a[0] then old(a[0].prev) else null
    ensures y[0].prev == if y[0] == b[0] then old(b[0].prev) else null
    decreases |a| + |b|, 0
  {
    hide Distinct, SortNodes;
    var f: Node?, g: Node?;
    assert b[0] in b;
    Outside(b, a);
    f, x := SortList(first0, cs, a);
    assert Chain(b);
    SameNodes(SortNodes(a, cs), a);
    assert x[0] in x;
    Outside(x, b);
    g, y := SortList(second0, cs, b);
    SameNodes(SortNodes(b, cs), b);
    first, second := f, g;
  }

  lemma {:induction false} Outside(a: seq<Node>, b: seq<Node>)
    requires forall n :: n in a ==> n !in b
    ensures forall j {:trigger a[j]} :: 0 <= j < |a| ==> a[j] !in b
  {
    assert forall j :: 0 <= j < |a| ==> a[j] in a;
  }

  lemma {:induction false} Inside(a: seq<Node>, b: seq<Node>)
    requires forall n :: n in a ==> n in b
    ensures forall j {:trigger a[j]} :: 0 <= j < |a| ==> a[j] in b
  {
    assert forall j :: 0 <= j < |a| ==> a[j] in a;
  }

  lemma {:induction false} SortedAlready(s: seq<Node>, cs: bool)
    ensures |s| <= 1 || RisingNodes(s, cs) ==> SortNodes(s, cs) == s
  {
    hide RisingNodes;
  }

  /**
    * Relinks the nodes in sorted order. The first node keeps what its `prev` held if it was first before, and otherwise
    * points back nowhere.
    */
  method SortList(list: Node?, cs: bool, ghost s: seq<Node>) returns (result: Node?, ghost r: seq<Node>)
    requires Chain(s) && list == Nth(s, 0)
    modifies s
    ensures r == SortNodes(s, cs) && Chain(r) && result == Nth(r, 0) && |r| == |s|
    ensures s != [] ==> r[0].prev == if r[0] == s[0] then old(s[0].prev) else null
    decreases |s|, 1
  {
    hide Distinct, Chain, SortNodes, RisingNodes, MergeNodes, Disjoint;
    ChainPointwise(s);
    result, r := list, s;
    SortedAlready(s, cs);
    if list == null || list.next == null { return; }
    var rising := IsRising(list, cs, s);
    if rising { return; }
    var second := FindMiddle(list, s);
    ghost var m := (|s| + 1) / 2;
    ghost var a, b := s[..m], s[m..];
    PartsDistinct(s, m);
    Split(second, s, m);
    SortedParts(s, cs);
    assert a[0] == s[0] && a[0] in a && b[0] == s[m] && b[0] in b;
    var first;
    ghost var x, y;
    first, second, x, y := SortHalves(list, second, cs, a, b);
    MergedHead(x, y, cs);
    assert y[0] in y && Disjoint(a, b);
    Inside(x, s);
    Inside(y, s);
    result, r := Merge(first, second, cs, x, y);
    SameNodes(r, s);
  }

  /**
   Sorts the members of an object in place. Its first member knows the last one again only if sorting moved neither.
   */
  method SortObject(parent: Node, cs: bool, ghost s: seq<Node>) returns (ghost r: seq<Node>)
    requires Children(parent, s) && Siblings(s)
    modifies parent`child, s
    ensures r == SortNodes(s, cs) && Children(parent, r) && Chain(r) && |r| == |s|
    ensures s != [] ==> r[0].prev == if r[0] == s[0] then s[|s| - 1] else null
    ensures Siblings(r) <==> s == [] || (r[0] == s[0] && r[|r| - 1] == s[|s| - 1])
  {
    hide SortNodes, Distinct, Linked;
    Inside(s, s);
    SameNodes(SortNodes(s, cs), s);
    var list;
    list, r := SortList(parent.child, cs, s);
    parent.child := list;
  }

  /** A member added to an object right after sorting comes last, and loses none, in exactly the same cases. */
  method SortThenAdd(parent: Node, item: Node, cs: bool, ghost s: seq<Node>) returns (ghost r: seq<Node>)
    requires Children(parent, s) && Siblings(s) && item !in s && item != parent && item.next == null
    modifies parent, s, item
    ensures Children(parent, r) && Chain(r)
    ensures r == SortNodes(s, cs) + [item] <==>
      s == [] || (SortNodes(s, cs)[0] == s[0] && SortNodes(s, cs)[|s| - 1] == s[|s| - 1])
  {
    hide SortNodes, Distinct, Linked;
    ghost var sorted := SortObject(parent, cs, s);
    SameNodes(SortNodes(s, cs), s);
    assert sorted != [] ==> s[|s| - 1] in s;
    Inside(sorted, s);
    ghost var last := if sorted == [] then null else sorted[0].prev;
    if sorted != [] && last != null { UptoWhole(sorted, item, last); }
    var ok;
    ok, r := AddItemToArray(parent, item, sorted);
    assert |sorted + [item]| == |sorted| + 1;
  }

  // ---------------------------------------------------------------- the order is one

  predicate NotAfter(a: string, b: string, cs: bool)
  {
    !Before(b, a, cs)
  }

  lemma {:induction false} BeforeIsStrict(a: string, b: string, cs: bool)
    ensures Before(a, b, cs) ==> NotAfter(a, b, cs)
  {
    LessTotal(a, b);
    LessTotal(Fold(a), Fold(b));
  }

  lemma {:induction false} NotAfterTransitive(a: string, b: string, c: string, cs: bool)
    requires NotAfter(a, b, cs) && NotAfter(b, c, cs)
    ensures NotAfter(a, c, cs)
  {
    hide Less, Fold;
    var x, y, z := if cs then a else Fold(a), if cs then b else Fold(b), if cs then c else Fold(c);
    LessTotal(x, y);
    LessTotal(y, z);
    if Less(z, x) {
      if x == y || y == z {
      } else {
        LessTransitive(x, y, z);
        LessTotal(x, z);
      }
    }
  }

  ghost predicate NonDecreasing(s: seq<Node>, cs: bool)
  {
    forall i, j :: 0 <= i < j < |s| ==> NotAfter(s[i].key, s[j].key, cs)
  }

  lemma {:induction false} RisingIsSorted(s: seq<Node>, cs: bool)
    requires RisingNodes(s, cs)
    ensures NonDecreasing(s, cs)
    decreases |s|
  {
    hide Before, NotAfter;
    if s != [] {
      var t := s[1..];
      assert RisingNodes(t, cs) by { assert forall i :: 0 <= i < |t| ==> t[i] == s[i + 1]; }
      RisingIsSorted(t, cs);
      forall j | 0 < j < |s|
        ensures NotAfter(s[0].key, s[j].key, cs)
      {
        BeforeIsStrict(s[0].key, s[1].key, cs);
        if j > 1 {
          assert NotAfter(t[0].key, t[j - 1].key, cs);
          NotAfterTransitive(s[0].key, s[1].key, s[j].key, cs);
        }
      }
      ConsSorted(s[0], t, cs);
      assert s == [s[0]] + t;
    }
  }

  lemma {:induction false} ConsSorted(h: Node, t: seq<Node>, cs: bool)
    requires NonDecreasing(t, cs) && forall j :: 0 <= j < |t| ==> NotAfter(h.key, t[j].key, cs)
    ensures NonDecreasing([h] + t, cs)
  {
    hide NotAfter;
  }

  lemma {:induction false} HeadFirst(s: seq<Node>, cs: bool, n: Node)
    requires NonDecreasing(s, cs) && s != [] && n in s
    ensures NotAfter(s[0].key, n.key, cs)
  {
    hide Before;
    BeforeIsStrict(s[0].key, s[0].key, cs);
    NotBeforeItself(n.key, cs);
  }

  lemma {:induction false} NotBeforeItself(a: string, cs: bool)
    ensures NotAfter(a, a, cs)
  {
    hide Less, Fold;
    LessTotal(a, a);
    LessTotal(Fold(a), Fold(a));
  }

  /** What a merge takes first is not after anything it has left. */
  lemma {:induction false} SmallerFirst(a: seq<Node>, b: seq<Node>, n: Node, cs: bool)
    requires a != [] && b != [] && NonDecreasing(a, cs) && NonDecreasing(b, cs) && (n in a || n in b)
    ensures NotAfter(if Before(a[0].key, b[0].key, cs) then a[0].key else b[0].key, n.key, cs)
  {
    hide Before, NotAfter, NonDecreasing;
    BeforeIsStrict(a[0].key, b[0].key, cs);
    NotBeforeMeans(a[0].key, b[0].key, cs);
    if n in a {
      HeadFirst(a, cs, n);
      if !Before(a[0].key, b[0].key, cs) { NotAfterTransitive(b[0].key, a[0].key, n.key, cs); }
    } else {
      HeadFirst(b, cs, n);
      if Before(a[0].key, b[0].key, cs) { NotAfterTransitive(a[0].key, b[0].key, n.key, cs); }
    }
  }

  lemma {:induction false} MergeKeeps(x: seq<Node>, y: seq<Node>, cs: bool, a: seq<Node>, b: seq<Node>)
    requires (forall n :: n in x ==> n in a) && (forall n :: n in y ==> n in b)
    ensures forall n :: n in MergeNodes(x, y, cs) ==> n in a || n in b
  {
    hide MergeNodes;
    var r := MergeNodes(x, y, cs);
    forall n | n in r
      ensures n in a || n in b
    {
      assert n in multiset(r) && multiset(r) == multiset(x) + multiset(y);
      assert n in multiset(x) || n in multiset(y);
    }
  }

  lemma {:induction false} MergeNodesSorted(a: seq<Node>, b: seq<Node>, cs: bool)
    requires NonDecreasing(a, cs) && NonDecreasing(b, cs)
    ensures NonDecreasing(MergeNodes(a, b, cs), cs)
    decreases |a| + |b|
  {
    hide Before, NotAfter, NonDecreasing, MergeNodes;
    if a == [] || b == [] {
      MergeDone(a, b, cs);
      assert a + b == if a == [] then b else a;
    } else {
      var first := Before(a[0].key, b[0].key, cs);
      var h, x, y := if first then a[0] else b[0], if first then a[1..] else a, if first then b else b[1..];
      MergeHead(a, b, cs);
      TailSorted(a, cs);
      TailSorted(b, cs);
      MergeNodesSorted(x, y, cs);
      MergeKeeps(x, y, cs, a, b);
      var t := MergeNodes(x, y, cs);
      forall j | 0 <= j < |t|
        ensures NotAfter(h.key, t[j].key, cs)
      {
        assert t[j] in t;
        SmallerFirst(a, b, t[j], cs);
      }
      ConsSorted(h, t, cs);
    }
  }

  lemma {:induction false} NotBeforeMeans(a: string, b: string, cs: bool)
    ensures !Before(a, b, cs) ==> NotAfter(b, a, cs)
  {
  }

  lemma {:induction false} TailSorted(s: seq<Node>, cs: bool)
    requires NonDecreasing(s, cs)
    ensures s != [] ==> NonDecreasing(s[1..], cs)
  {
    hide NotAfter;
  }

  /** The keys of the sorted list do not decrease. */
  lemma {:induction false} SortNodesSorts(s: seq<Node>, cs: bool)
    ensures NonDecreasing(SortNodes(s, cs), cs)
    decreases |s|
  {
    hide RisingNodes, MergeNodes, NonDecreasing;
    if |s| <= 1 {
      ShortSorted(s, cs);
    } else if RisingNodes(s, cs) {
      RisingIsSorted(s, cs);
    } else {
      var m := (|s| + 1) / 2;
      SortNodesSorts(s[..m], cs);
      SortNodesSorts(s[m..], cs);
      MergeNodesSorted(SortNodes(s[..m], cs), SortNodes(s[m..], cs), cs);
    }
  }

  lemma {:induction false} ShortSorted(s: seq<Node>, cs: bool)
    requires |s| <= 1
    ensures NonDecreasing(s, cs)
  {
  }

  // ---------------------------------------------------------------- the same sort as on values

  /** The members the nodes stand for. */
  ghost function MembersOf(s: seq<Node>, value: Node -> Json): (r: seq<Member>)
    ensures |r| == |s| && forall i :: 0 <= i < |s| ==> r[i] == Member(s[i].key, value(s[i]))
  {
    seq(|s|, i requires 0 <= i < |s| => Member(s[i].key, value(s[i])))
  }

  lemma {:induction false} MembersParts(s: seq<Node>, value: Node -> Json, m: nat)
    requires m <= |s|
    ensures MembersOf(s, value)[..m] == MembersOf(s[..m], value) && MembersOf(s, value)[m..] == MembersOf(s[m..], value)
  {
  }

  lemma {:induction false} MembersCons(h: Node, t: seq<Node>, value: Node -> Json)
    ensures MembersOf([h] + t, value) == [Member(h.key, value(h))] + MembersOf(t, value)
  {
  }

  lemma {:induction false} RisingAlike(s: seq<Node>, value: Node -> Json, cs: bool)
    ensures RisingNodes(s, cs) <==> Rising(MembersOf(s, value), cs)
  {
    hide Before;
    var x := MembersOf(s, value);
    assert forall i :: 0 <= i < |s| ==> x[i].key == s[i].key;
  }

  lemma {:induction false} MergeAlike(a: seq<Node>, b: seq<Node>, value: Node -> Json, cs: bool)
    ensures MembersOf(MergeNodes(a, b, cs), value) == MergeLists(MembersOf(a, value), MembersOf(b, value), cs)
    decreases |a| + |b|
  {
    hide Before;
    var x, y := MembersOf(a, value), MembersOf(b, value);
    if a != [] && b != [] {
      var first := Before(a[0].key, b[0].key, cs);
      var h, c, d := if first then a[0] else b[0], if first then a[1..] else a, if first then b else b[1..];
      MergeAlike(c, d, value, cs);
      MembersParts(a, value, 1);
      MembersParts(b, value, 1);
      MembersCons(h, MergeNodes(c, d, cs), value);
      hide MembersOf;
      assert x[0] == Member(a[0].key, value(a[0])) && y[0] == Member(b[0].key, value(b[0]));
    }
  }

  /** Relinking the nodes sorts the members they stand for. */
  lemma {:induction false} SortAlike(s: seq<Node>, value: Node -> Json, cs: bool)
    ensures MembersOf(SortNodes(s, cs), value) == MemberSort.SortList(MembersOf(s, value), cs)
    decreases |s|
  {
    hide MergeNodes, MergeLists, Before, RisingNodes, Rising, MembersOf;
    RisingAlike(s, value, cs);
    if |s| > 1 && !RisingNodes(s, cs) {
      var m := (|s| + 1) / 2;
      SortAlike(s[..m], value, cs);
      SortAlike(s[m..], value, cs);
      MembersParts(s, value, m);
      MergeAlike(SortNodes(s[..m], cs), SortNodes(s[m..], cs), value, cs);
    }
  }
}
