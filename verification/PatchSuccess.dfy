/** What a patch that succeeds does to the document, told by what lookups find in it before and after. */
module PatchSuccess {
  import opened CStrings
  import opened Options
  import opened JsonTree
  import opened MemberSort
  import opened JsonCompare
  import opened MergeGenerate
  import opened JsonPointer
  import opened PatchKeys
  import opened JsonPatch
  import opened PatchFailure

  // ---------------------------------------------------------------- lookup by steps

  datatype Step = Index(i: nat) | Key(k: string)

  function Next(j: Json, step: Step): Option<Json>
  {
    match step
    case Index(i) => if j.Array? && i < |j.items| then Some(j.items[i]) else None
    case Key(k) => if j.Object? then ValueAt(j.members, k) else None
  }

  /** What is found by going down step by step. */
  function Look(j: Json, route: seq<Step>): Option<Json>
  {
    if route == [] then Some(j)
    else
      match Next(j, route[0])
      case None => None
      case Some(c) => Look(c, route[1..])
  }

  /** The steps that a pointer takes. */
  function Route(j: Json, p: string): Option<seq<Step>>
    decreases j
  {
    if At(p, 0) != '/' then Some([])
    else
      match Child(j, p[1..])
      case None => None
      case Some(i) =>
        match Route(ChildAt(j, i), Skip(p[1..]))
        case None => None
        case Some(rest) => Some([if j.Array? then Index(i) else Key(j.members[i].key)] + rest)
  }

  /** What is found at `s` when the container at `route` has become `now`: on the way to it the types are kept. */
  ghost predicate SeenAt(before: Json, after: Json, route: seq<Step>, now: Json, s: seq<Step>)
  {
    && (route <= s ==> Look(after, s) == Look(now, s[|route|..]))
    && (!(route <= s) && !(s <= route) ==> Look(after, s) == Look(before, s))
    && (s < route ==>
          && Look(before, s).Some? && Look(after, s).Some?
          && SameType(Look(before, s).value, Look(after, s).value))
  }

  /** One container has been exchanged for another; everything that is not on the way to it is as before. */
  ghost predicate Exchanged(before: Json, after: Json, route: seq<Step>, now: Json)
  {
    forall s: seq<Step> :: SeenAt(before, after, route, now, s)
  }

  // ---------------------------------------------------------------- exchanging a child

  lemma {:induction false} ChildStep(j: Json, i: nat)
    requires Tidy(j) && ((j.Array? && i < |j.items|) || (j.Object? && i < |j.members|))
    ensures Next(j, if j.Array? then Index(i) else Key(j.members[i].key)) == Some(ChildAt(j, i)) && Tidy(ChildAt(j, i))
  {
    if j.Array? {
      TidyItemAt(j.items, i);
    } else {
      ValueAtIs(j.members, i);
      TidyMemberAt(j.members, i);
    }
  }

  lemma {:induction false} MemberSet(ms: seq<Member>, i: nat, c: Json, k: string)
    requires DistinctKeys(ms) && i < |ms|
    ensures var r := ms[i := Member(ms[i].key, c)];
      DistinctKeys(r) && ValueAt(r, k) == if k == ms[i].key then Some(c) else ValueAt(ms, k)
  {
    var r := ms[i := Member(ms[i].key, c)];
    assert forall j :: 0 <= j < |ms| ==> r[j].key == ms[j].key && (j != i ==> r[j] == ms[j]);
    hide ValueAt;
    assert DistinctKeys(r);
    ValueAtNone(r, k);
    ValueAtNone(ms, k);
    if HasKey(ms, k) {
      var h :| 0 <= h < |ms| && ms[h].key == k;
      assert r[h].key == k;
      ValueAtIs(ms, h);
      ValueAtIs(r, h);
    }
  }

  lemma {:induction false} SetStep(j: Json, i: nat, c: Json, step: Step)
    requires Tidy(j) && ((j.Array? && i < |j.items|) || (j.Object? && i < |j.members|))
    ensures var here := if j.Array? then Index(i) else Key(j.members[i].key);
      Next(SetChild(j, i, c), step) == if step == here then Some(c) else Next(j, step)
    ensures Tidy(c) ==> Tidy(SetChild(j, i, c))
    ensures SameType(j, SetChild(j, i, c))
  {
    hide ValueAt;
    if j.Object? {
      if step.Key? { MemberSet(j.members, i, c, step.k); }
      MemberSet(j.members, i, c, "");
      SetTidy(j, i, c);
    } else {
      SetTidy(j, i, c);
    }
  }

  lemma {:induction false} SetTidy(j: Json, i: nat, c: Json)
    requires Tidy(j) && ((j.Array? && i < |j.items|) || (j.Object? && i < |j.members|))
    requires j.Object? ==> DistinctKeys(j.members[i := Member(j.members[i].key, c)])
    ensures Tidy(c) ==> Tidy(SetChild(j, i, c))
  {
    if Tidy(c) {
      if j.Array? {
        var r := j.items[i := c];
        forall h | 0 <= h < |r|
          ensures Tidy(r[h])
        {
          TidyItemAt(j.items, h);
        }
        TidyItemsIs(r);
      } else {
        var r := j.members[i := Member(j.members[i].key, c)];
        forall h | 0 <= h < |r|
          ensures Tidy(r[h].value)
        {
          TidyMemberAt(j.members, h);
        }
        TidyMembersIs(r);
      }
    }
  }

  lemma {:induction false} ExchangedBelow(j: Json, i: nat, c: Json, rest: seq<Step>, now: Json)
    requires Tidy(j) && ((j.Array? && i < |j.items|) || (j.Object? && i < |j.members|))
    requires Exchanged(ChildAt(j, i), c, rest, now)
    ensures var here := if j.Array? then Index(i) else Key(j.members[i].key);
      Exchanged(j, SetChild(j, i, c), [here] + rest, now)
  {
    hide Next, SetChild, ChildAt, Tidy;
    var here := if j.Array? then Index(i) else Key(j.members[i].key);
    var route, after := [here] + rest, SetChild(j, i, c);
    assert route[1..] == rest;
    forall s: seq<Step>
      ensures SeenAt(j, after, route, now, s)
    {
      if s == [] {
        SetStep(j, i, c, here);
      } else {
        SetStep(j, i, c, s[0]);
        ChildStep(j, i);
        var t := s[1..];
        assert SeenAt(ChildAt(j, i), c, rest, now, t);
        assert route <= s <==> s[0] == here && rest <= t;
        assert s <= route <==> s[0] == here && t <= rest;
        assert s < route <==> s[0] == here && t < rest;
        if route <= s { assert s[|route|..] == t[|rest|..]; }
      }
    }
  }

  // ---------------------------------------------------------------- pointers with one more token

  lemma {:induction false} CompareLonger(name: string, a: string, t: string)
    ensures ComparePointers(name, a + ("/" + t)) == ComparePointers(name, a)
    decreases |a|
  {
    var p := a + ("/" + t);
    if a != "" && a[0] != '/' && name != "" {
      assert p[1..] == a[1..] + ("/" + t);
      if a[0] == '~' {
        if |a| >= 2 {
          assert p[2..] == a[2..] + ("/" + t);
          CompareLonger(name[1..], a[2..], t);
        }
      } else {
        CompareLonger(name[1..], a[1..], t);
      }
    }
  }

  lemma {:induction false} ScanLonger(a: string, t: string, i: nat, acc: int)
    requires i <= |a|
    ensures ScanIndex(a + ("/" + t), i, acc) == ScanIndex(a, i, acc)
    decreases |a| - i
  {
    if i < |a| && a[i] >= '0' && a[0] <= '9' {
      ScanLonger(a, t, i + 1, 10 * acc + (a[i] as int - '0' as int));
    }
  }

  lemma {:induction false} IndexLonger(a: string, t: string)
    ensures DecodeIndex(a + ("/" + t)) == DecodeIndex(a)
  {
    ScanLonger(a, t, 0, 0);
    ScanIndexBounds(a, 0, 0);
  }

  lemma {:induction false} MatchLonger(ms: seq<Member>, a: string, t: string)
    ensures FirstMatch(ms, a + ("/" + t)) == FirstMatch(ms, a)
    decreases |ms|
  {
    hide ComparePointers;
    if ms != [] {
      CompareLonger(ms[0].key, a, t);
      MatchLonger(ms[1..], a, t);
    }
  }

  lemma {:induction false} ChildLonger(j: Json, a: string, t: string)
    ensures Child(j, a + ("/" + t)) == Child(j, a)
  {
    hide DecodeIndex, FirstMatch;
    if j.Array? { IndexLonger(a, t); }
    if j.Object? { MatchLonger(j.members, a, t); }
  }

  lemma {:induction false} SkipLonger(a: string, t: string)
    ensures Skip(a + ("/" + t)) == Skip(a) + ("/" + t)
    decreases |a|
  {
    if !TokenEnd(a) {
      assert (a + ("/" + t))[1..] == a[1..] + ("/" + t);
      SkipLonger(a[1..], t);
    }
  }

  /** A pointer that goes on finds what the rest of it finds in what its front finds. */
  lemma {:induction false} PointerOn(j: Json, q: string, t: string)
    requires TokenEnd(q)
    ensures GetItem(j, q + ("/" + t)) ==
      match GetItem(j, q) case None => None case Some(parent) => GetItem(parent, "/" + t)
    decreases j
  {
    hide Child, ChildAt;
    var p := q + ("/" + t);
    if q == "" {
      assert p == "/" + t;
    } else {
      assert p[1..] == q[1..] + ("/" + t);
      ChildLonger(j, q[1..], t);
      SkipLonger(q[1..], t);
      if Child(j, q[1..]).Some? { PointerOn(ChildAt(j, Child(j, q[1..]).value), Skip(q[1..]), t); }
    }
  }

  /** A pointer with one more token finds a child of what the pointer finds. */
  lemma {:induction false} OneMoreToken(j: Json, q: string, t: string)
    requires TokenEnd(q) && '/' !in t
    ensures GetItem(j, q + ("/" + t)) ==
      match GetItem(j, q)
      case None => None
      case Some(parent) => match Child(parent, t) case None => None case Some(i) => Some(ChildAt(parent, i))
  {
    hide Child, ChildAt, GetItem;
    PointerOn(j, q, t);
    SkipToken(t, "");
    assert t + "" == t;
    if GetItem(j, q).Some? { LastToken(GetItem(j, q).value, t); }
  }

  lemma {:induction false} LastToken(j: Json, t: string)
    requires Skip(t) == ""
    ensures GetItem(j, "/" + t) == match Child(j, t) case None => None case Some(i) => Some(ChildAt(j, i))
  {
    hide Child;
    assert ("/" + t)[1..] == t;
    if Child(j, t).Some? { assert GetItem(ChildAt(j, Child(j, t).value), "") == Some(ChildAt(j, Child(j, t).value)); }
  }

  // ---------------------------------------------------------------- edits below the root

  /** An edit that succeeds exchanges the container that the pointer finds, and nothing else. */
  lemma {:induction false} EditedAt(j: Json, p: string, e: Edit) returns (route: seq<Step>, parent: Json, now: Json)
    requires Tidy(j) && EditAt(j, p, e).Done?
    ensures Route(j, p) == Some(route) && GetItem(j, p) == Some(parent) && Look(j, route) == Some(parent)
    ensures Tidy(parent) && EditHere(parent, e) == Done(now)
    ensures Exchanged(j, EditAt(j, p, e).doc, route, now) && (Tidy(now) ==> Tidy(EditAt(j, p, e).doc))
    ensures Route(EditAt(j, p, e).doc, p) == Some(route) && GetItem(EditAt(j, p, e).doc, p) == Some(now)
    decreases j
  {
    hide EditHere, Child, Skip, SetChild, ChildAt, Tidy, Next;
    var after := EditAt(j, p, e).doc;
    if At(p, 0) != '/' {
      route, parent, now := [], j, after;
      ExchangedHere(j, now);
    } else {
      var i := Child(j, p[1..]).value;
      var c := EditAt(ChildAt(j, i), Skip(p[1..]), e).doc;
      ChildStep(j, i);
      var rest;
      rest, parent, now := EditedAt(ChildAt(j, i), Skip(p[1..]), e);
      route := [if j.Array? then Index(i) else Key(j.members[i].key)] + rest;
      assert route[1..] == rest;
      ExchangedBelow(j, i, c, rest, now);
      ChildKept(j, i, c, p[1..]);
      StepKept(j, i, c);
      SetStep(j, i, c, route[0]);
    }
  }

  lemma {:induction false} ExchangedHere(j: Json, now: Json)
    ensures Exchanged(j, now, [], now)
  {
    forall s: seq<Step>
      ensures SeenAt(j, now, [], now, s)
    {
      assert s[0..] == s;
    }
  }

  lemma {:induction false} StepKept(j: Json, i: nat, c: Json)
    requires (j.Array? && i < |j.items|) || (j.Object? && i < |j.members|)
    ensures var k := SetChild(j, i, c);
      (if k.Array? then Index(i) else Key(k.members[i].key)) == (if j.Array? then Index(i) else Key(j.members[i].key))
  {
  }

  // ---------------------------------------------------------------- what happens in the container

  /** The place in an array that an unescaped token names for an addition. */
  predicate AddsAt(items: seq<Json>, child: string, n: nat)
  {
    n <= |items| && if child == "-" then n == |items| else DecodeIndex(child) == Some(n)
  }

  /** The container has the value at the place of the token, and everything else it had before. */
  ghost predicate Put(before: Json, child: string, v: Json, after: Json)
  {
    match before
    case Array(items) =>
      && after.Array? && |after.items| == |items| + 1
      && exists n: nat :: AddsAt(items, child, n) && after.items[n] == v
           && (forall i :: 0 <= i < n ==> after.items[i] == items[i])
           && (forall i :: n <= i < |items| ==> after.items[i + 1] == items[i])
    case Object(ms) =>
      && after.Object? && DistinctKeys(after.members)
      && forall k :: ValueAt(after.members, k) == if k == child then Some(v) else ValueAt(ms, k)
    case _ => false
  }

  /** `k` is the first of the keys that are the token up to case. */
  ghost predicate FirstFolded(ms: seq<Member>, child: string, k: string)
  {
    exists i :: 0 <= i < |ms| && ms[i].key == k && Fold(k) == Fold(child)
                && forall j :: 0 <= j < i ==> Fold(ms[j].key) != Fold(child)
  }

  /** The container has lost what the token names, an item or the first key up to case, and nothing else. */
  ghost predicate Taken(before: Json, child: string, after: Json)
  {
    match before
    case Array(items) =>
      && after.Array? && |after.items| + 1 == |items|
      && exists n: nat :: n < |items| && DecodeIndex(child) == Some(n)
           && (forall i :: 0 <= i < n ==> after.items[i] == items[i])
           && (forall i :: n < i < |items| ==> after.items[i - 1] == items[i])
    case Object(ms) =>
      && after.Object? && DistinctKeys(after.members)
      && exists k :: FirstFolded(ms, child, k)
           && forall l :: ValueAt(after.members, l) == if l == k then None else ValueAt(ms, l)
    case _ => false
  }

  /** An item has the new value, or a key has it and the first key up to case is gone, and nothing else is different. */
  ghost predicate Swapped(before: Json, child: string, v: Json, after: Json)
  {
    match before
    case Array(items) =>
      && after.Array? && |after.items| == |items|
      && exists n: nat :: n < |items| && DecodeIndex(child) == Some(n) && after.items[n] == v
           && forall i :: 0 <= i < |items| && i != n ==> after.items[i] == items[i]
    case Object(ms) =>
      && after.Object? && DistinctKeys(after.members)
      && exists k :: FirstFolded(ms, child, k)
           && forall l :: ValueAt(after.members, l) ==
                if l == child then Some(v) else if l == k then None else ValueAt(ms, l)
    case _ => false
  }

  lemma {:induction false} AttachPuts(j: Json, child: string, v: Json)
    requires Tidy(j) && EditHere(j, Attach(child, v)).Done?
    ensures Put(j, child, v, EditHere(j, Attach(child, v)).doc)
    ensures Tidy(v) ==> Tidy(EditHere(j, Attach(child, v)).doc)
  {
    hide DecodeIndex, ValueAt, IndexOf, Without;
    var after := EditHere(j, Attach(child, v)).doc;
    match j
    case Array(items) =>
      var n := if child == "-" then |items| else DecodeIndex(child).value;
      assert AddsAt(items, child, n);
      TidyInserted(items, n, v, after.items);
    case Object(ms) =>
      MemberPut(ms, child, v);
      assert DistinctKeys(after.members);
      assert forall k :: ValueAt(after.members, k) == if k == child then Some(v) else ValueAt(ms, k);
  }

  lemma {:induction false} TidyInserted(items: seq<Json>, n: nat, v: Json, r: seq<Json>)
    requires TidyItems(items) && n <= |items| && |r| == |items| + 1 && r[n] == v
    requires forall i :: 0 <= i < n ==> r[i] == items[i]
    requires forall i :: n <= i < |items| ==> r[i + 1] == items[i]
    ensures Tidy(v) ==> TidyItems(r)
  {
    if Tidy(v) {
      forall i | 0 <= i < |r|
        ensures Tidy(r[i])
      {
        if i < n { TidyItemAt(items, i); }
        if i > n {
          assert r[i] == items[i - 1];
          TidyItemAt(items, i - 1);
        }
      }
      TidyItemsIs(r);
    }
  }

  lemma {:induction false} MemberPut(ms: seq<Member>, child: string, v: Json)
    requires DistinctKeys(ms) && TidyMembers(ms)
    ensures var i := IndexOf(ms, child);
      var r := (if i < |ms| then Without(ms, i) else ms) + [Member(child, v)];
      && DistinctKeys(r) && (Tidy(v) ==> TidyMembers(r))
      && forall k :: ValueAt(r, k) == if k == child then Some(v) else ValueAt(ms, k)
  {
    hide ValueAt, Without, TidyMembers, Tidy, HasKey;
    var i := IndexOf(ms, child);
    var rest := if i < |ms| then Without(ms, i) else ms;
    var m := Member(child, v);
    FoundAt(ms, child);
    if i < |ms| { AbsWithout(ms, i); }
    forall k
      ensures DistinctKeys(rest) && ValueAt(rest, k) == if k == child then None else ValueAt(ms, k)
    {
      if i < |ms| { ValueAtWithout(ms, i, k); }
    }
    ValueAtNone(rest, child);
    AbsAppend(rest, m);
    forall k
      ensures ValueAt(rest + [m], k) == if k == child then Some(v) else ValueAt(ms, k)
    {
      ValueAtAppend(rest, m, k);
    }
  }

  lemma {:induction false} DetachTakes(j: Json, child: string)
    requires Tidy(j) && EditHere(j, Detach(child)).Done?
    ensures Taken(j, child, EditHere(j, Detach(child)).doc) && Tidy(EditHere(j, Detach(child)).doc)
  {
    hide DecodeIndex, ValueAt, FoldIndex, Fold, Without;
    var after := EditHere(j, Detach(child)).doc;
    match j
    case Array(items) =>
      var n := DecodeIndex(child).value;
      TidyRemoved(items, n, after.items);
    case Object(ms) =>
      var i := FoldIndex(ms, child);
      AbsWithout(ms, i);
      assert FirstFolded(ms, child, ms[i].key);
      forall l
        ensures ValueAt(after.members, l) == if l == ms[i].key then None else ValueAt(ms, l)
      {
        ValueAtWithout(ms, i, l);
      }
  }

  lemma {:induction false} TidyRemoved(items: seq<Json>, n: nat, r: seq<Json>)
    requires TidyItems(items) && n < |items| && r == items[..n] + items[n + 1..]
    ensures TidyItems(r)
  {
    forall i | 0 <= i < |r|
      ensures Tidy(r[i])
    {
      TidyItemAt(items, if i < n then i else i + 1);
    }
    TidyItemsIs(r);
  }

  /** Taken out and put in again at the same place. */
  lemma {:induction false} TakenThenPut(a: Json, child: string, v: Json, b: Json, c: Json)
    requires Taken(a, child, b) && Put(b, child, v, c)
    ensures Swapped(a, child, v, c)
  {
    hide DecodeIndex, ValueAt, FirstFolded, DistinctKeys;
    match a
    case Array(items) =>
      var n: nat :| n < |items| && DecodeIndex(child) == Some(n)
        && (forall i :: 0 <= i < n ==> b.items[i] == items[i])
        && (forall i :: n < i < |items| ==> b.items[i - 1] == items[i]);
      DashIsNoIndex();
      forall i | 0 <= i < |items| && i != n
        ensures c.items[i] == items[i]
      {
        if i > n { assert c.items[i - 1 + 1] == b.items[i - 1]; }
      }
    case Object(ms) =>
      var k :| FirstFolded(ms, child, k)
        && forall l :: ValueAt(b.members, l) == if l == k then None else ValueAt(ms, l);
  }

  lemma {:induction false} DashIsNoIndex()
    ensures DecodeIndex("-") == None
  {
    assert ScanIndex("-", 0, 0) == (0, 0);
  }

  // ---------------------------------------------------------------- the whole path

  /** The path of a patch is the pointer to a container, a slash and the token of a child. */
  predicate Splits(path: string, q: string, t: string)
  {
    path == q + ("/" + t) && '/' !in t
  }

  lemma {:induction false} SplitsAtLastSlash(path: string)
    requires LastSlash(path) < |path|
    ensures var i := LastSlash(path); Splits(path, path[..i], path[i + 1..])
  {
    hide LastSlash;
    var i := LastSlash(path);
    assert path == path[..i] + ("/" + path[i + 1..]);
  }

  /** How lookups see the document before and after an edit of the container at `q`. */
  ghost predicate Around(before: Json, q: string, parent: Json, after: Json, now: Json)
  {
    && GetItem(before, q) == Some(parent) && GetItem(after, q) == Some(now)
    && exists route :: Route(before, q) == Some(route) && Route(after, q) == Some(route)
                       && Look(before, route) == Some(parent) && Exchanged(before, after, route, now)
  }

  lemma {:induction false} AttachedAround(doc: Json, path: string, v: Json)
    returns (q: string, t: string, parent: Json, now: Json)
    requires Tidy(doc) && Tidy(v) && AttachPath(doc, path, v).Done?
    ensures var after := AttachPath(doc, path, v).doc;
      && Splits(path, q, t) && Around(doc, q, parent, after, now) && Put(parent, DecodeInPlace(t), v, now)
      && Tidy(after) && Tidy(now) && q == path[..LastSlash(path)] && t == path[LastSlash(path) + 1..]
  {
    hide LastSlash, DecodeInPlace, EditAt, EditHere, Exchanged, Put, Route, Look, GetItem, Tidy;
    SplitsAtLastSlash(path);
    var i := LastSlash(path);
    q, t := path[..i], path[i + 1..];
    var route;
    route, parent, now := EditedAt(doc, q, Attach(DecodeInPlace(t), v));
    AttachPuts(parent, DecodeInPlace(t), v);
  }

  lemma {:induction false} DetachedAround(doc: Json, path: string)
    returns (q: string, t: string, parent: Json, now: Json)
    requires Tidy(doc) && DetachPath(doc, path).Done?
    ensures var after := DetachPath(doc, path).doc;
      && Splits(path, q, t) && Around(doc, q, parent, after, now) && Taken(parent, DecodeInPlace(t), now)
      && Tidy(after) && Tidy(now) && q == path[..LastSlash(path)] && t == path[LastSlash(path) + 1..]
  {
    hide LastSlash, DecodeInPlace, EditAt, EditHere, Exchanged, Taken, Route, Look, GetItem, Tidy;
    SplitsAtLastSlash(path);
    var i := LastSlash(path);
    q, t := path[..i], path[i + 1..];
    var route;
    route, parent, now := EditedAt(doc, q, Detach(DecodeInPlace(t)));
    DetachTakes(parent, DecodeInPlace(t));
  }

  /** Two exchanges at one place are one. */
  lemma {:induction false} AroundTwice(a: Json, q: string, parent: Json, b: Json, mid: Json, c: Json, now: Json)
    requires Around(a, q, parent, b, mid) && Around(b, q, mid, c, now)
    ensures Around(a, q, parent, c, now)
  {
    hide GetItem, Route, Look, SameType, SeenAt;
    var route :| Route(a, q) == Some(route) && Route(b, q) == Some(route)
      && Look(a, route) == Some(parent) && Exchanged(a, b, route, mid);
    forall s: seq<Step>
      ensures SeenAt(a, c, route, now, s)
    {
      assert SeenAt(a, b, route, mid, s) && SeenAt(b, c, route, now, s);
      SeenTwice(a, b, c, route, mid, now, s);
    }
  }

  lemma {:induction false} SeenTwice(a: Json, b: Json, c: Json, route: seq<Step>, mid: Json, now: Json, s: seq<Step>)
    requires SeenAt(a, b, route, mid, s) && SeenAt(b, c, route, now, s)
    ensures SeenAt(a, c, route, now, s)
  {
    hide Look, SameType;
    if s < route { SameTypes(Look(a, s).value, Look(b, s).value, Look(c, s).value); }
  }

  lemma {:induction false} SameTypes(a: Json, b: Json, c: Json)
    requires SameType(a, b) && SameType(b, c)
    ensures SameType(a, c)
  {
  }

  // ---------------------------------------------------------------- finding what was put in

  lemma {:induction false} CompareUnique(a: string, b: string, p: string)
    requires ComparePointers(a, p) && ComparePointers(b, p)
    ensures a == b
    decreases |p|
  {
    if a != "" && b != "" && !TokenEnd(p) {
      if p[0] == '~' { CompareUnique(a[1..], b[1..], p[2..]); } else { CompareUnique(a[1..], b[1..], p[1..]); }
      assert a == [a[0]] + a[1..] && b == [b[0]] + b[1..];
    }
  }

  /** The token leads lookups to the child that its unescaped form names for the patch. */
  predicate Names(parent: Json, t: string, child: string)
  {
    match parent
    case Array(_) => child != "-" && DecodeIndex(t) == DecodeIndex(child)
    case Object(_) => ComparePointers(child, t)
    case _ => false
  }

  lemma {:induction false} KeyFound(ms: seq<Member>, t: string, child: string, v: Json)
    requires ComparePointers(child, t) && ValueAt(ms, child) == Some(v)
    ensures var i := FirstMatch(ms, t); i < |ms| && ms[i].value == v
  {
    hide ComparePointers;
    var i, j := FirstMatch(ms, t), IndexOf(ms, child);
    assert ms[j].key == child;
    CompareUnique(ms[i].key, child, t);
  }

  /** After an addition or a replacement, lookup at the path finds the value. */
  lemma {:induction false} FoundAgain(parent: Json, t: string, v: Json, now: Json)
    requires Names(parent, t, DecodeInPlace(t)) && '/' !in t
    requires Put(parent, DecodeInPlace(t), v, now) || Swapped(parent, DecodeInPlace(t), v, now)
    ensures Child(now, t).Some? && ChildAt(now, Child(now, t).value) == v
  {
    hide DecodeInPlace, DecodeIndex, ValueAt, FirstMatch, ComparePointers, FirstFolded;
    if parent.Object? { KeyFound(now.members, t, DecodeInPlace(t), v); }
  }

  lemma {:induction false} FoundAtPath(before: Json, after: Json, path: string, q: string, t: string, parent: Json,
                                       v: Json, now: Json)
    requires Splits(path, q, t) && Around(before, q, parent, after, now) && At(path, 0) == '/'
    requires Names(parent, t, DecodeInPlace(t))
    requires Put(parent, DecodeInPlace(t), v, now) || Swapped(parent, DecodeInPlace(t), v, now)
    ensures GetItem(after, path) == Some(v)
  {
    hide DecodeInPlace, GetItem, Child, Names, Put, Swapped, Exchanged, Route, Look;
    FoundAgain(parent, t, v, now);
    assert TokenEnd(q) by { if q != "" { assert path[0] == q[0]; } }
    OneMoreToken(after, q, t);
  }

  // ---------------------------------------------------------------- patches

  /** What a successful patch means; `v` is the value of an addition or a replacement. */
  ghost predicate Succeeds(before: Json, op: Operation, path: string, v: Json, after: Json)
  {
    if path == "" then after == if op == Remove then Invalid else v
    else
      && Tidy(after)
      && exists q, t, parent, now :: Splits(path, q, t) && Around(before, q, parent, after, now)
           && (match op
               case Add => Put(parent, DecodeInPlace(t), v, now)
               case Replace => Swapped(parent, DecodeInPlace(t), v, now)
               case _ => Taken(parent, DecodeInPlace(t), now))
           && (op != Remove && At(path, 0) == '/' && Names(parent, t, DecodeInPlace(t)) ==>
             GetItem(after, path) == Some(v))
  }

  lemma {:induction false} AddSucceeds(doc: Json, path: string, v: Json)
    requires Tidy(doc) && Tidy(v) && path != "" && AttachPath(doc, path, v).Done?
    ensures Succeeds(doc, Add, path, v, AttachPath(doc, path, v).doc)
  {
    hide AttachPath, Put, Around, DecodeInPlace, Names, GetItem, Splits, Tidy;
    var after := AttachPath(doc, path, v).doc;
    var q, t, parent, now := AttachedAround(doc, path, v);
    if At(path, 0) == '/' && Names(parent, t, DecodeInPlace(t)) {
      FoundAtPath(doc, after, path, q, t, parent, v, now);
    }
  }

  lemma {:induction false} RemoveSucceeds(doc: Json, path: string, v: Json)
    requires Tidy(doc) && path != "" && DetachPath(doc, path).Done?
    ensures Succeeds(doc, Remove, path, v, DetachPath(doc, path).doc)
  {
    hide DetachPath, Taken, Around, DecodeInPlace, Names, GetItem, Splits, Tidy;
    var q, t, parent, now := DetachedAround(doc, path);
  }

  lemma {:induction false} ReplaceSucceeds(doc: Json, path: string, v: Json)
    requires Tidy(doc) && Tidy(v) && path != "" && DetachPath(doc, path).Done?
    requires AttachPath(DetachPath(doc, path).doc, path, v).Done?
    ensures Succeeds(doc, Replace, path, v, AttachPath(DetachPath(doc, path).doc, path, v).doc)
  {
    hide DetachPath, AttachPath, Taken, Put, Swapped, Around, DecodeInPlace, Names, GetItem, Splits, Tidy;
    var mid := DetachPath(doc, path).doc;
    var after := AttachPath(mid, path, v).doc;
    var q, t, parent, between := DetachedAround(doc, path);
    var q', t', parent', now := AttachedAround(mid, path, v);
    SameParent(doc, mid, after, q, parent, between, parent', now);
    AroundTwice(doc, q, parent, mid, between, after, now);
    TakenThenPut(parent, DecodeInPlace(t), v, between, now);
    if At(path, 0) == '/' && Names(parent, t, DecodeInPlace(t)) {
      FoundAtPath(doc, after, path, q, t, parent, v, now);
    }
  }

  lemma {:induction false} SameParent(a: Json, b: Json, c: Json, q: string, parent: Json, mid: Json, parent': Json,
                                      now: Json)
    requires Around(a, q, parent, b, mid) && Around(b, q, parent', c, now)
    ensures parent' == mid
  {
    hide GetItem, Exchanged, Route, Look;
  }

  lemma {:induction false} RootSucceeds(doc: Json, op: Operation, v: Json)
    ensures Succeeds(doc, op, "", v, if op == Remove then Invalid else v)
  {
  }

  /** `v` is what a removal of the item at `path` takes out. */
  ghost predicate Loses(before: Json, path: string, v: Json)
  {
    exists q, t :: Splits(path, q, t) && GetItem(before, q).Some?
      && match GetItem(before, q).value
         case Array(items) => exists n: nat :: n < |items| && DecodeIndex(DecodeInPlace(t)) == Some(n) && items[n] == v
         case Object(ms) => exists k :: FirstFolded(ms, DecodeInPlace(t), k) && ValueAt(ms, k) == Some(v)
         case _ => false
  }

  lemma {:induction false} TakenIsLost(doc: Json, path: string)
    requires Tidy(doc) && DetachPath(doc, path).Done?
    ensures TakenPath(doc, path).Some? && Loses(doc, path, TakenPath(doc, path).value)
    ensures Tidy(TakenPath(doc, path).value)
  {
    hide LastSlash, DecodeInPlace, EditAt, EditHere, GetItem, TakenHere, Tidy, DetachPath, Look, Route, Exchanged;
    TakenIfDetached(doc, path);
    SplitsAtLastSlash(path);
    var i := LastSlash(path);
    var child := DecodeInPlace(path[i + 1..]);
    var parent := GetItem(doc, path[..i]).value;
    ParentTidy(doc, path[..i], child);
    TakenHereLost(parent, child);
  }

  lemma {:induction false} ParentTidy(doc: Json, q: string, child: string)
    requires Tidy(doc) && GetItem(doc, q).Some?
    ensures Tidy(GetItem(doc, q).value)
    decreases doc
  {
    hide Child, ChildAt, Skip, Tidy;
    if At(q, 0) == '/' {
      var i := Child(doc, q[1..]).value;
      ChildStep(doc, i);
      ParentTidy(ChildAt(doc, i), Skip(q[1..]), child);
    }
  }

  lemma {:induction false} TakenHereLost(parent: Json, child: string)
    requires Tidy(parent) && TakenHere(parent, child).Some?
    ensures Tidy(TakenHere(parent, child).value)
    ensures match parent
      case Array(items) =>
        exists n: nat :: n < |items| && DecodeIndex(child) == Some(n) && items[n] == TakenHere(parent, child).value
      case Object(ms) =>
        exists k :: FirstFolded(ms, child, k) && ValueAt(ms, k) == Some(TakenHere(parent, child).value)
      case _ => false
  {
    hide DecodeIndex, Fold, FoldIndex, ValueAt;
    match parent
    case Array(items) => TidyItemAt(items, DecodeIndex(child).value);
    case Object(ms) =>
      var i := FoldIndex(ms, child);
      ValueAtIs(ms, i);
      TidyMemberAt(ms, i);
      assert FirstFolded(ms, child, ms[i].key);
  }

  /** A move is a removal followed by an addition of what was removed. */
  ghost predicate Moves(before: Json, from: string, path: string, after: Json)
  {
    exists v, between :: Loses(before, from, v)
      && Succeeds(before, Remove, from, v, between) && Succeeds(between, Add, path, v, after)
  }

  /** The text that says what a patch does. */
  function OpName(patch: Json): string
  {
    match GetMember(patch, "op") case Some(String(name)) => name case _ => ""
  }

  lemma {:induction false} NameDecides(patch: Json)
    ensures var op, name := DecodeOperation(patch), OpName(patch);
      && (op == Add <==> name == "add") && (op == Remove <==> name == "remove")
      && (op == Replace <==> name == "replace")
      && (op == Move <==> name == "move") && (op == Copy <==> name == "copy") && (op == Test <==> name == "test")
  {
    assert "add" != "" && "remove" != "" && "replace" != "" && "move" != "" && "copy" != "" && "test" != "";
    assert "remove"[0] != "move"[0] && "remove"[2] == 'm' && "replace"[2] == 'p';
  }

  /** What a patch that succeeds does to the document, as seen by lookups, by the name of its operation. */
  ghost predicate Means(before: Json, patch: Json, after: Json)
  {
    var name, path, from, v := OpName(patch), TextOf(patch, "path"), TextOf(patch, "from"), ValueOf(patch);
    && (name == "add" ==> Succeeds(before, Add, path, v, after))
    && (name == "remove" ==> Succeeds(before, Remove, path, v, after))
    && (name == "replace" ==> Succeeds(before, Replace, path, v, after))
    && (name == "move" ==> Moves(before, from, path, after))
    && (name == "copy" ==>
      GetItem(before, from).Some? && Succeeds(before, Add, path, GetItem(before, from).value, after))
    && (name == "test" ==> after == before && GetItem(before, path).Some? && Abs(GetItem(before, path).value) == Abs(v))
  }

  /** A text and the value that a patch gives. */
  function TextOf(patch: Json, key: string): string
  {
    match GetMember(patch, key) case Some(String(s)) => s case _ => ""
  }

  function ValueOf(patch: Json): Json
  {
    match GetMember(patch, "value") case Some(v) => v case None => Invalid
  }

  /** Every addition, removal or replacement that succeeds does what its operation means. */
  lemma {:induction false} EditSucceeds(doc: Json, patch: Json)
    requires Tidy(doc) && Tidy(patch) && Defined(patch) && ApplyPatch(doc, patch).0 == 0
    ensures var op := DecodeOperation(patch);
      op == Add || op == Remove || op == Replace ==>
        Succeeds(doc, op, TextOf(patch, "path"), ValueOf(patch), ApplyPatch(doc, patch).1)
  {
    hide DetachPath, AttachPath, Tidy, GetMember, DecodeOperation, Succeeds, ApplyMove, ApplyCopy, Passes;
    var op, v := DecodeOperation(patch), ValueOf(patch);
    ValueTidy(patch);
    match GetMember(patch, "path")
    case Some(String(path)) =>
      RootSucceeds(doc, op, v);
      if path != "" {
        match op
        case Add => AddSucceeds(doc, path, v);
        case Remove => RemoveSucceeds(doc, path, v);
        case Replace => ReplaceSucceeds(doc, path, v);
        case _ =>
      }
    case _ =>
  }

  lemma {:induction false} MoveSucceeds(doc: Json, from: string, path: string)
    requires Tidy(doc) && DetachPath(doc, from).Done? && TakenPath(doc, from).Some?
    requires AttachPath(DetachPath(doc, from).doc, path, TakenPath(doc, from).value).Done?
    ensures var v, d := TakenPath(doc, from).value, DetachPath(doc, from).doc;
      Moves(doc, from, path, AttachPath(d, path, v).doc)
  {
    hide DetachPath, AttachPath, TakenPath, Tidy, Succeeds, Loses;
    var v, d := TakenPath(doc, from).value, DetachPath(doc, from).doc;
    TakenIsLost(doc, from);
    NotEmpty(doc, from);
    NotEmptyPlace(d, path, v);
    RemoveSucceeds(doc, from, v);
    assert Tidy(d) by { hide *; var q, t, parent, now := DetachedAround(doc, from); }
    AddSucceeds(d, path, v);
  }

  lemma {:induction false} NotEmpty(doc: Json, path: string)
    requires DetachPath(doc, path).Done?
    ensures path != ""
  {
  }

  lemma {:induction false} NotEmptyPlace(doc: Json, path: string, v: Json)
    requires AttachPath(doc, path, v).Done?
    ensures path != ""
  {
  }

  lemma {:induction false} FromSucceeds(doc: Json, patch: Json)
    requires Tidy(doc) && Defined(patch) && ApplyPatch(doc, patch).0 == 0
    ensures var op, path, from := DecodeOperation(patch), TextOf(patch, "path"), TextOf(patch, "from");
      && (op == Move ==> Moves(doc, from, path, ApplyPatch(doc, patch).1))
      && (op == Copy ==>
            && GetItem(doc, from).Some?
            && Succeeds(doc, Add, path, GetItem(doc, from).value, ApplyPatch(doc, patch).1))
  {
    hide DetachPath, AttachPath, TakenPath, GetItem, Tidy, GetMember, DecodeOperation, Succeeds, Moves, Passes;
    match (GetMember(patch, "path"), GetMember(patch, "from"))
    case (Some(String(path)), Some(String(from))) =>
      if DecodeOperation(patch) == Move {
        MoveSucceeds(doc, from, path);
      } else if DecodeOperation(patch) == Copy {
        var v := GetItem(doc, from).value;
        ParentTidy(doc, from, "");
        NotEmptyPlace(doc, path, v);
        AddSucceeds(doc, path, v);
      }
    case _ =>
  }

  /** A test passes exactly if there is a value at the path and it is the given one up to member order. */
  lemma {:induction false} PassesIs(doc: Json, path: string, patch: Json)
    requires Tidy(doc) && Tidy(patch)
    ensures Passes(doc, path, patch) <==>
      GetItem(doc, path).Some? && GetMember(patch, "value").Some?
        && Abs(GetItem(doc, path).value) == Abs(ValueOf(patch))
  {
    hide GetItem, GetMember, SameValue, Abs, Tidy, Comparable;
    if GetItem(doc, path).Some? && GetMember(patch, "value").Some? {
      ParentTidy(doc, path, "");
      ValueTidy(patch);
      TidyComparable(GetItem(doc, path).value, ValueOf(patch));
      SameValueMeans(GetItem(doc, path).value, ValueOf(patch), true);
    }
  }

  lemma {:induction false} TidyComparable(a: Json, b: Json)
    requires Tidy(a) && Tidy(b)
    ensures Comparable(a, b, true)
    decreases a
  {
    hide Less;
    if a.Array? && b.Array? {
      forall i | 0 <= i < |a.items| && i < |b.items|
        ensures Comparable(a.items[i], b.items[i], true)
      {
        TidyItemAt(a.items, i);
        TidyItemAt(b.items, i);
        TidyComparable(a.items[i], b.items[i]);
      }
    } else if a.Object? && b.Object? {
      forall i, j | 0 <= i < |a.members| && 0 <= j < |b.members| && a.members[i].key == b.members[j].key
        ensures Comparable(a.members[i].value, b.members[j].value, true)
      {
        TidyMemberAt(a.members, i);
        TidyMemberAt(b.members, j);
        TidyComparable(a.members[i].value, b.members[j].value);
      }
    }
  }

  // ---------------------------------------------------------------- statuses

  /** A patch can take out what the token names. */
  predicate Holds(parent: Json, child: string)
  {
    match parent
    case Array(items) => DecodeIndex(child).Some? && DecodeIndex(child).value < |items|
    case Object(ms) => exists m :: m in ms && Fold(m.key) == Fold(child)
    case _ => false
  }

  predicate CanTake(doc: Json, path: string)
  {
    exists i :: 0 <= i < |path| && path[i] == '/' && '/' !in path[i + 1..]
                && GetItem(doc, path[..i]).Some? && Holds(GetItem(doc, path[..i]).value, DecodeInPlace(path[i + 1..]))
  }

  /** The status of an addition whose value is given, or 0. */
  function AddStatus(doc: Json, path: string): int
  {
    if '/' !in path then 9
    else
      var i := LastSlash(path);
      var child := DecodeInPlace(path[i + 1..]);
      match GetItem(doc, path[..i])
      case Some(Object(_)) => 0
      case Some(Array(items)) =>
        if child == "-" then 0
        else
          (match DecodeIndex(child) case None => 11 case Some(n) => if n > |items| then 10 else 0)
      case _ => 9
  }

  predicate KnownName(name: string)
  {
    || name == "add" || name == "remove" || name == "replace"
    || name == "move" || name == "copy" || name == "test"
  }

  /** The status of every patch: the first thing that is wrong with it. */
  function Status(doc: Json, patch: Json): int
  {
    match GetMember(patch, "path")
    case Some(String(path)) =>
      var name := OpName(patch);
      if !KnownName(name) then 3
      else if name == "test" then if Passes(doc, path, patch) then 0 else 1
      else if name == "move" || name == "copy" then FromStatus(doc, path, patch)
      else EditStatus(doc, path, patch)
    case _ => 2
  }

  /** The status of an addition, a removal or a replacement. */
  function EditStatus(doc: Json, path: string, patch: Json): int
  {
    if OpName(patch) != "add" && path != "" && !CanTake(doc, path) then 13
    else if OpName(patch) == "remove" then 0
    else if GetMember(patch, "value") == None then 7
    else if OpName(patch) == "replace" || path == "" then 0
    else AddStatus(doc, path)
  }

  /** A move looks for its place when the item is already gone, a copy in the whole document. */
  function FromStatus(doc: Json, path: string, patch: Json): int
  {
    match GetMember(patch, "from")
    case None => 4
    case Some(String(from)) =>
      if OpName(patch) == "move" then
        if !CanTake(doc, from) then 5
        else match DetachPath(doc, from) case Done(d) => AddStatus(d, path) case Failed(_) => 5
      else if GetItem(doc, from) == None then 5
      else AddStatus(doc, path)
    case _ => 5
  }

  /** An edit fails as it would at the container, or because there is none. */
  lemma {:induction false} EditFollows(j: Json, p: string, e: Edit)
    ensures match GetItem(j, p)
      case None => EditAt(j, p, e) == Failed(if e.Detach? then 13 else 9)
      case Some(parent) =>
        EditAt(j, p, e).Done? == EditHere(parent, e).Done?
        && (EditHere(parent, e).Failed? ==> EditAt(j, p, e) == EditHere(parent, e))
    decreases j
  {
    hide EditHere, Child, ChildAt, SetChild, Skip;
    if At(p, 0) == '/' && Child(j, p[1..]).Some? {
      EditFollows(ChildAt(j, Child(j, p[1..]).value), Skip(p[1..]), e);
    }
  }

  lemma {:induction false} DetachStatus(doc: Json, path: string)
    ensures DetachPath(doc, path).Done? <==> CanTake(doc, path)
    ensures DetachPath(doc, path).Failed? ==> DetachPath(doc, path).status == 13
  {
    hide LastSlash, GetItem, EditAt, DecodeInPlace, Holds;
    var i := LastSlash(path);
    if i < |path| {
      var child := DecodeInPlace(path[i + 1..]);
      EditFollows(doc, path[..i], Detach(child));
      if GetItem(doc, path[..i]).Some? { DetachHere(GetItem(doc, path[..i]).value, child); }
      forall j | 0 <= j < |path| && path[j] == '/' && '/' !in path[j + 1..]
        ensures j == i
      {
        if j < i { SlashBehind(path, j, i); }
        if i < j { SlashBehind(path, i, j); }
      }
    }
  }

  lemma {:induction false} SlashBehind(path: string, i: int, j: int)
    requires 0 <= i < j < |path| && path[j] == '/'
    ensures '/' in path[i + 1..]
  {
    assert path[i + 1..][j - i - 1] == '/';
  }

  lemma {:induction false} DetachHere(parent: Json, child: string)
    ensures EditHere(parent, Detach(child)).Done? <==> Holds(parent, child)
    ensures EditHere(parent, Detach(child)).Failed? ==> EditHere(parent, Detach(child)).status == 13
  {
    hide DecodeIndex, Fold;
    if parent.Object? {
      var i := FoldIndex(parent.members, child);
      if i < |parent.members| { assert parent.members[i] in parent.members; }
    }
  }

  lemma {:induction false} AttachStatus(doc: Json, path: string, v: Json)
    ensures AttachPath(doc, path, v).Done? <==> AddStatus(doc, path) == 0
    ensures AttachPath(doc, path, v).Failed? ==> AttachPath(doc, path, v).status == AddStatus(doc, path)
  {
    hide LastSlash, GetItem, EditAt, DecodeInPlace, DecodeIndex, IndexOf;
    var i := LastSlash(path);
    if i < |path| {
      assert '/' in path;
      EditFollows(doc, path[..i], Attach(DecodeInPlace(path[i + 1..]), v));
    }
  }

  lemma {:induction false} AttachedStatus(doc: Json, path: string, v: Json)
    ensures Attached(doc, path, v).0 == AddStatus(doc, path)
  {
    hide AttachPath, AddStatus;
    AttachStatus(doc, path, v);
  }

  lemma {:induction false} ReplacementStatus(doc: Json, path: string, patch: Json)
    ensures ApplyReplacement(doc, path, patch).0 ==
      if !CanTake(doc, path) then 13 else if GetMember(patch, "value") == None then 7 else 0
  {
    hide DetachPath, AttachPath, GetMember, CanTake;
    DetachStatus(doc, path);
    if DetachPath(doc, path).Done? && GetMember(patch, "value").Some? {
      DetachedPath(doc, path, GetMember(patch, "value").value);
    }
  }

  lemma {:induction false} FromStatusIs(doc: Json, path: string, patch: Json)
    requires Defined(patch)
    ensures DecodeOperation(patch) == Move ==> ApplyMove(doc, path, patch).0 == FromStatus(doc, path, patch)
    ensures DecodeOperation(patch) == Copy ==> ApplyCopy(doc, path, patch).0 == FromStatus(doc, path, patch)
  {
    hide DetachPath, TakenPath, Attached, GetItem, GetMember, DecodeOperation, OpName, CanTake, AddStatus;
    NameDecides(patch);
    match GetMember(patch, "from")
    case Some(String(from)) =>
      DetachStatus(doc, from);
      TakenIfDetached(doc, from);
      if DetachPath(doc, from).Done? {
        AttachedStatus(DetachPath(doc, from).doc, path, TakenPath(doc, from).value);
      }
      if GetItem(doc, from).Some? { AttachedStatus(doc, path, GetItem(doc, from).value); }
    case _ =>
  }

  lemma {:induction false} EditStatusIs(doc: Json, path: string, patch: Json)
    requires Defined(patch) && GetMember(patch, "path") == Some(String(path))
    ensures var op := DecodeOperation(patch);
      op == Add || op == Remove || op == Replace ==> ApplyPatch(doc, patch).0 == EditStatus(doc, path, patch)
  {
    hide DetachPath, Attached, ApplyReplacement, GetMember, DecodeOperation, OpName, CanTake, AddStatus;
    NameDecides(patch);
    DetachStatus(doc, path);
    ReplacementStatus(doc, path, patch);
    if GetMember(patch, "value").Some? { AttachedStatus(doc, path, GetMember(patch, "value").value); }
  }

  /** The status of a patch says what is wrong with it, and 0 that nothing is. */
  lemma {:induction false} StatusIs(doc: Json, patch: Json)
    requires Defined(patch)
    ensures ApplyPatch(doc, patch).0 == Status(doc, patch)
  {
    hide ApplyRemoval, ApplyRoot, ApplyValue, ApplyReplacement, ApplyMove, ApplyCopy, Passes, GetMember,
      DecodeOperation,
      OpName, EditStatus, FromStatus;
    NameDecides(patch);
    match GetMember(patch, "path")
    case Some(String(path)) =>
      EditStatusIs(doc, path, patch);
      FromStatusIs(doc, path, patch);
    case _ =>
  }

  /** One patch: its status, and what the document is when it succeeds. */
  lemma {:induction false} PatchMeans(doc: Json, patch: Json)
    requires Defined(patch)
    ensures ApplyPatch(doc, patch).0 == Status(doc, patch)
    ensures Tidy(doc) && Tidy(patch) && Status(doc, patch) == 0 ==> Means(doc, patch, ApplyPatch(doc, patch).1)
  {
    hide GetMember, DecodeOperation, OpName, TextOf, ValueOf, ApplyPatch, Succeeds, Moves, Status;
    StatusIs(doc, patch);
    NameDecides(patch);
    if Tidy(doc) && Tidy(patch) && Status(doc, patch) == 0 {
      EditSucceeds(doc, patch);
      FromSucceeds(doc, patch);
      if DecodeOperation(patch) == Test { TestSucceeds(doc, patch); }
    }
  }

  // ---------------------------------------------------------------- moving a member into itself

  /** The path `q`, a slash and `t` lead to the member that is the first with its key up to case. */
  ghost predicate NamesMember(doc: Json, q: string, t: string)
  {
    && TokenEnd(q) && '/' !in t
    && match GetItem(doc, q)
       case Some(Object(ms)) =>
         ComparePointers(DecodeInPlace(t), t) && FirstFolded(ms, DecodeInPlace(t), DecodeInPlace(t))
       case _ => false
  }

  /** Nothing is found below a key that is not there. */
  lemma {:induction false} NothingBelow(ms: seq<Member>, child: string, t: string, more: string)
    requires ComparePointers(child, t) && ValueAt(ms, child) == None && DistinctKeys(ms)
    requires more == "" || more[0] == '/'
    ensures GetItem(Object(ms), "/" + (t + more)) == None
  {
    hide ComparePointers, ValueAt;
    assert ("/" + (t + more))[1..] == t + more;
    if more == "" {
      assert t + more == t;
    } else {
      assert more == "/" + more[1..];
      ChildLonger(Object(ms), t, more[1..]);
    }
    var i := FirstMatch(ms, t);
    if i < |ms| {
      CompareUnique(ms[i].key, child, t);
      ValueAtIs(ms, i);
    }
  }

  /** Where the member was, and below, there is no place for anything. */
  lemma {:induction false} NoPlaceInside(d: Json, q: string, t: string, rest: string, ms: seq<Member>)
    requires TokenEnd(q) && '/' !in t && GetItem(d, q) == Some(Object(ms)) && DistinctKeys(ms)
    requires ComparePointers(DecodeInPlace(t), t) && ValueAt(ms, DecodeInPlace(t)) == None
    ensures AddStatus(d, q + ("/" + t) + ("/" + rest)) == 9
  {
    hide DecodeInPlace, ComparePointers, ValueAt, GetItem, LastSlash, DecodeIndex;
    var from := q + ("/" + t);
    var path := from + ("/" + rest);
    assert path[|from|] == '/';
    var i := LastSlash(path);
    if i < |from| { SlashBehind(path, i, |from|); }
    var more := path[|from|..i];
    assert path[..i] == q + ("/" + (t + more));
    PointerOn(d, q, t + more);
    NothingBelow(ms, DecodeInPlace(t), t, more);
  }

  lemma {:induction false} AttachedFails(doc: Json, path: string, v: Json)
    requires Attached(doc, path, v).0 != 0
    ensures Attached(doc, path, v).1 == doc
  {
    hide AttachPath;
  }

  lemma {:induction false} LastSlashIs(q: string, t: string)
    requires '/' !in t
    ensures LastSlash(q + ("/" + t)) == |q|
  {
    hide LastSlash;
    var path := q + ("/" + t);
    var i := LastSlash(path);
    assert path[|q|] == '/' && path[|q| + 1..] == t;
    if i < |q| { SlashBehind(path, i, |q|); }
    if |q| < i { SlashBehind(path, |q|, i); }
  }

  lemma {:induction false} OnlyFirst(ms: seq<Member>, child: string, k: string)
    requires FirstFolded(ms, child, child) && FirstFolded(ms, child, k)
    ensures k == child
  {
    hide Fold;
  }

  /** Such a member can be taken, and is gone then. */
  lemma {:induction false} MemberGone(doc: Json, q: string, t: string) returns (ms: seq<Member>)
    requires Tidy(doc) && NamesMember(doc, q, t)
    ensures var from := q + ("/" + t);
      && DetachPath(doc, from).Done?
      && GetItem(DetachPath(doc, from).doc, q) == Some(Object(ms))
    ensures DistinctKeys(ms) && ValueAt(ms, DecodeInPlace(t)) == None
  {
    hide DecodeInPlace, ComparePointers, GetItem, DetachPath, Tidy, ValueAt, Fold, LastSlash, Exchanged, Route, Look;
    var from, child := q + ("/" + t), DecodeInPlace(t);
    LastSlashIs(q, t);
    assert from[..|q|] == q && from[|q| + 1..] == t && from[|q|] == '/';
    DetachStatus(doc, from);
    assert CanTake(doc, from);
    var q', t', parent, now := DetachedAround(doc, from);
    ms := now.members;
    var k :| FirstFolded(parent.members, child, k)
      && forall l :: ValueAt(ms, l) == if l == k then None else ValueAt(parent.members, l);
    OnlyFirst(parent.members, child, k);
  }

  /** Moving a member to a place inside itself takes it out and reports status 9. */
  lemma {:induction false} MoveInside(doc: Json, patch: Json, q: string, t: string, rest: string)
    requires Tidy(doc) && OpName(patch) == "move" && NamesMember(doc, q, t)
    requires GetMember(patch, "from") == Some(String(q + ("/" + t)))
    requires GetMember(patch, "path") == Some(String(q + ("/" + t) + ("/" + rest)))
    ensures var from := q + ("/" + t);
      DetachPath(doc, from).Done? && Defined(patch) && ApplyPatch(doc, patch) == (9, DetachPath(doc, from).doc)
    ensures GetItem(ApplyPatch(doc, patch).1, q + ("/" + t)) == None
  {
    hide DecodeInPlace, ComparePointers, GetItem, GetMember, OpName, DecodeOperation, DetachPath, TakenPath, Tidy,
      AddStatus, Attached, ValueAt, FirstFolded;
    var from := q + ("/" + t);
    var ms := MemberGone(doc, q, t);
    var d := DetachPath(doc, from).doc;
    NameDecides(patch);
    TakenIfDetached(doc, from);
    NoPlaceInside(d, q, t, rest, ms);
    AttachedStatus(d, from + ("/" + rest), TakenPath(doc, from).value);
    AttachedFails(d, from + ("/" + rest), TakenPath(doc, from).value);
    PointerOn(d, q, t);
    NothingBelow(ms, DecodeInPlace(t), t, "");
    assert t + "" == t;
  }

  lemma {:induction false} TestSucceeds(doc: Json, patch: Json)
    requires Tidy(doc) && Tidy(patch) && Defined(patch) && ApplyPatch(doc, patch).0 == 0
    requires DecodeOperation(patch) == Test
    ensures ApplyPatch(doc, patch).1 == doc
    ensures var path := TextOf(patch, "path");
      GetItem(doc, path).Some? && Abs(GetItem(doc, path).value) == Abs(ValueOf(patch))
  {
    hide GetMember, DecodeOperation, Passes, GetItem, ValueOf;
    PassesIs(doc, TextOf(patch, "path"), patch);
  }

  lemma {:induction false} ValueTidy(patch: Json)
    requires Tidy(patch)
    ensures Tidy(ValueOf(patch))
  {
    if patch.Object? {
      var i := IndexOf(patch.members, "value");
      if i < |patch.members| { TidyMemberAt(patch.members, i); }
    }
  }
}
