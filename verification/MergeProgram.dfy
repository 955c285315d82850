/** The merge patch routines as the program runs them, with a cursor on each list. */
module MergeProgram {
  import opened Options
  import opened JsonTree
  import opened MemberSort
  import opened JsonCompare
  import opened JsonPatch
  import opened MergePatch
  import opened MergeGenerate

  lemma {:induction false} NextMerged(ms: seq<Member>, ps: seq<Member>, i: nat, cs: bool)
    requires i < |ps|
    ensures MergeMembers(ms, ps[i..], cs) ==
      var k, at := ps[i].key, Find(ms, ps[i].key, cs);
      var rest := if at < |ms| then Without(ms, at) else ms;
      var prior := if at < |ms| then Some(ms[at].value) else None;
      MergeMembers(
        if ps[i].value.Null? then rest
        else rest + [Member(k, MergePatch.MergePatch(prior, ps[i].value, cs))], ps[i + 1..], cs)
  {
    hide Find, MergePatch.MergePatch;
    assert ps[i..][0] == ps[i] && ps[i..][1..] == ps[i + 1..];
  }

  lemma {:induction false} AllMerged(ms: seq<Member>, ps: seq<Member>, cs: bool)
    requires ps == []
    ensures MergeMembers(ms, ps, cs) == ms
  {
  }

  /** Applies a patch member by member to the list of the target. */
  method ApplyMergePatch(target: Option<Json>, patch: Json, cs: bool) returns (r: Json)
    ensures r == MergePatch.MergePatch(target, patch, cs)
    decreases patch
  {
    hide MergeMembers, Find;
    if !patch.Object? { return patch; }
    var members := MembersOf(target);
    ghost var goal := MergeMembers(members, patch.members, cs);
    var child := 0;
    assert patch.members[0..] == patch.members;
    while child < |patch.members|
      invariant child <= |patch.members| && MergeMembers(members, patch.members[child..], cs) == goal
    {
      NextMerged(members, patch.members, child, cs);
      var m := patch.members[child];
      var at := Find(members, m.key, cs);
      var replaceMe := if at < |members| then Some(members[at].value) else None;
      if at < |members| { members := Without(members, at); }
      if !m.value.Null? {
        var replacement := ApplyMergePatch(replaceMe, m.value, cs);
        members := members + [Member(m.key, replacement)];
      }
      child := child + 1;
    }
    AllMerged(members, patch.members[child..], cs);
    r := Object(members);
  }

  lemma {:induction false} NextItems(a: seq<Json>, b: seq<Json>, i: nat, cs: bool)
    requires i <= |a| && i <= |b|
    ensures SameItems(a[i..], b[i..], cs) ==
      if i == |a| || i == |b| then |a| == |b| else SameValue(a[i], b[i], cs) && SameItems(a[i + 1..], b[i + 1..], cs)
  {
    hide SameValue;
    if i < |a| && i < |b| {
      assert a[i..][0] == a[i] && b[i..][0] == b[i];
      assert a[i..][1..] == a[i + 1..] && b[i..][1..] == b[i + 1..];
    }
  }

  lemma {:induction false} NextMembers(all: seq<Member>, a: seq<Member>, b: seq<Member>, i: nat, cs: bool)
    requires i <= |a| && i <= |b| && forall m :: m in a ==> m in all
    ensures forall m :: m in a[i..] ==> m in all
    ensures i < |a| ==> a[i] in all && forall m :: m in a[i + 1..] ==> m in all
    ensures SameMembers(all, a[i..], b[i..], cs) ==
      if i == |a| || i == |b| then |a| == |b|
      else
        && SameKey(a[i].key, b[i].key, cs) && SameValue(a[i].value, b[i].value, cs)
        && SameMembers(all, a[i + 1..], b[i + 1..], cs)
  {
    hide SameValue, SameKey;
    if i < |a| && i < |b| {
      assert a[i..][0] == a[i] && b[i..][0] == b[i];
      assert a[i..][1..] == a[i + 1..] && b[i..][1..] == b[i + 1..];
    }
  }

  /** Compares two values; objects are compared in sorted order. */
  method CompareJson(a: Json, b: Json, cs: bool) returns (same: bool)
    ensures same == SameValue(a, b, cs)
    decreases a
  {
    hide SameItems, SameMembers, SortList, SameKey;
    if !SameType(a, b) { return false; }
    match a
    case Number(n) => same := n == b.n;
    case String(s) => same := s == b.s;
    case Array(items) =>
      var i := 0;
      assert items[0..] == items && b.items[0..] == b.items;
      while i < |items| && i < |b.items|
        invariant i <= |items| && i <= |b.items|
        invariant SameItems(items, b.items, cs) == SameItems(items[i..], b.items[i..], cs)
      {
        NextItems(items, b.items, i, cs);
        var identical := CompareJson(items[i], b.items[i], cs);
        if !identical { return false; }
        i := i + 1;
      }
      NextItems(items, b.items, i, cs);
      same := i == |items| && i == |b.items|;
    case Object(ms) =>
      var x, y := SortList(ms, cs), SortList(b.members, cs);
      SameElements(x, ms);
      var i := 0;
      assert x[0..] == x && y[0..] == y;
      NextMembers(ms, x, y, 0, cs);
      while i < |x| && i < |y|
        invariant i <= |x| && i <= |y| && (forall m :: m in x[i..] ==> m in ms)
        invariant SameMembers(ms, x, y, cs) == SameMembers(ms, x[i..], y[i..], cs)
      {
        NextMembers(ms, x, y, i, cs);
        if !SameKey(x[i].key, y[i].key, cs) { return false; }
        var identical := CompareJson(x[i].value, y[i].value, cs);
        if !identical { return false; }
        i := i + 1;
      }
      NextMembers(ms, x, y, i, cs);
      same := i == |x| && i == |y|;
    case _ => same := true;
  }

  lemma {:induction false} NextWalked(all: seq<Member>, fs: seq<Member>, ts: seq<Member>, f: nat, t: nat, cs: bool)
    requires f <= |fs| && t <= |ts| && forall m :: m in ts ==> m in all
    ensures forall m :: m in ts[t..] ==> m in all
    ensures t < |ts| ==> ts[t] in all && forall m :: m in ts[t + 1..] ==> m in all
    ensures Walk(all, fs[f..], ts[t..], cs) ==
      if f == |fs| && t == |ts| then []
      else if t == |ts| || (f < |fs| && Less(fs[f].key, ts[t].key)) then
        [Member(fs[f].key, Null)] + Walk(all, fs[f + 1..], ts[t..], cs)
      else if f == |fs| || fs[f].key != ts[t].key then [ts[t]] + Walk(all, fs[f..], ts[t + 1..], cs)
      else (if SameValue(fs[f].value, ts[t].value, cs) then []
            else match Generate(fs[f].value, ts[t].value, false) case None => [] case Some(p) => [Member(ts[t].key, p)])
           + Walk(all, fs[f + 1..], ts[t + 1..], cs)
  {
    hide SameValue, Generate, Less;
    if f < |fs| { assert fs[f..][0] == fs[f] && fs[f..][1..] == fs[f + 1..]; }
    if t < |ts| { assert ts[t..][0] == ts[t] && ts[t..][1..] == ts[t + 1..]; }
  }

  /** Generates a patch; both lists are sorted first, by the variant's order, and walked by strcmp. */
  method GenerateMergePatch(from: Json, to: Json, cs: bool) returns (r: Option<Json>)
    ensures r == Generate(from, to, cs)
    decreases (to), 1
  {
    hide Walk, SortList;
    if !to.Object? || !from.Object? { return Some(to); }
    var fs, ts := SortList(from.members, cs), SortList(to.members, cs);
    SameElements(ts, to.members);
    var members := WalkLists(to.members, fs, ts, cs);
    r := if members == [] then None else Some(Object(members));
  }

  method WalkLists(ghost all: seq<Member>, fs: seq<Member>, ts: seq<Member>, cs: bool) returns (patch: seq<Member>)
    requires forall m :: m in ts ==> m in all
    ensures patch == Walk(all, fs, ts, cs)
    decreases all, 1
  {
    hide Walk, SameValue, Generate, Less;
    patch := [];
    var f, t := 0, 0;
    ghost var goal := Walk(all, fs, ts, cs);
    assert fs[0..] == fs && ts[0..] == ts && [] + goal == goal;
    while f < |fs| || t < |ts|
      invariant f <= |fs| && t <= |ts| && (forall m :: m in ts[t..] ==> m in all)
      invariant goal == patch + Walk(all, fs[f..], ts[t..], cs)
      decreases |fs| - f + |ts| - t
    {
      NextWalked(all, fs, ts, f, t, cs);
      ghost var before := patch;
      if f < |fs| && (t == |ts| || Less(fs[f].key, ts[t].key)) {
        patch := patch + [Member(fs[f].key, Null)];
        f := f + 1;
        Onward(before, [Member(fs[f - 1].key, Null)], Walk(all, fs[f..], ts[t..], cs));
      } else if f == |fs| || fs[f].key != ts[t].key {
        patch := patch + [ts[t]];
        t := t + 1;
        Onward(before, [ts[t - 1]], Walk(all, fs[f..], ts[t..], cs));
      } else {
        var more := ChangedMember(all, fs[f], ts[t], cs);
        patch := patch + more;
        f, t := f + 1, t + 1;
        Onward(before, more, Walk(all, fs[f..], ts[t..], cs));
      }
    }
    NextWalked(all, fs, ts, f, t, cs);
  }

  lemma {:induction false} Onward(a: seq<Member>, b: seq<Member>, c: seq<Member>)
    ensures a + (b + c) == a + b + c
  {
  }

  /** The patch for a member that both objects have, if it differs. */
  method ChangedMember(ghost all: seq<Member>, f: Member, t: Member, cs: bool) returns (more: seq<Member>)
    requires t in all
    ensures more == if SameValue(f.value, t.value, cs) then []
      else match Generate(f.value, t.value, false) case None => [] case Some(p) => [Member(t.key, p)]
    decreases all, 0, 0
  {
    hide SameValue, Generate;
    more := [];
    var identical := CompareJson(f.value, t.value, cs);
    if !identical {
      var p := GenerateMergePatch(f.value, t.value, false);
      if p.Some? { more := [Member(t.key, p.value)]; }
    }
  }
}
