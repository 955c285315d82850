/** The patch code as the source runs it, with its loops and its mutable lists, against the functions of JsonPatch. */
module PatchProgram {
  import opened CStrings
  import opened Options
  import opened Decimals
  import opened JsonTree
  import opened MemberSort
  import opened JsonCompare
  import opened JsonPointer
  import opened PatchKeys
  import opened JsonPatch
  import opened PatchFailure
  import opened PatchSuccess
  import opened PatchRoundTrip
  import opened MergeProgram

  // ---------------------------------------------------------------- following a pointer

  /** Walks down a pointer with a current element and a read position. */
  method GetItemFromPointer(j: Json, pointer: string) returns (r: Option<Json>)
    ensures r == GetItem(j, pointer)
  {
    var current, p := j, pointer;
    while At(p, 0) == '/'
      invariant GetItem(current, p) == GetItem(j, pointer)
      decreases |p|
    {
      p := p[1..];
      var child := None;
      if current.Array? {
        match DecodeIndex(p) {
          case None => return None;
          case Some(n) => child := if n < |current.items| then Some(n) else None;
        }
      } else if current.Object? {
        var i := 0;
        while i < |current.members| && !ComparePointers(current.members[i].key, p)
          invariant i <= |current.members|
          invariant FirstMatch(current.members, p) == i + FirstMatch(current.members[i..], p)
        {
          assert current.members[i..][1..] == current.members[i + 1..];
          i := i + 1;
        }
        child := if i < |current.members| then Some(i) else None;
      } else {
        return None;
      }
      assert child == Child(current, p);
      match child {
        case None => return None;
        case Some(i) => current := ChildAt(current, i);
      }
      ghost var token := p;
      while At(p, 0) != '/' && p != ""
        invariant Skip(p) == Skip(token) && |p| <= |token|
        decreases |p|
      {
        p := p[1..];
      }
    }
    return Some(current);
  }

  // ---------------------------------------------------------------- generating

  /** The list of patches being built. */
  class PatchList {
    var patches: seq<Json>

    constructor ()
      ensures patches == []
    {
      patches := [];
    }

    method ComposePatch(op: string, path: string, suffix: Option<string>, value: Option<Json>)
      modifies this
      ensures patches == old(patches) +
        [(match suffix case None => Patch(op, path, value) case Some(s) => Suffixed(op, path, s, value)).ToJson()]
    {
      var full := match suffix case None => path case Some(s) => path + ("/" + Encode(s));
      var members := [Member("op", String(op)), Member("path", String(full))];
      match value {
        case None =>
        case Some(v) => members := members + [Member("value", v)];
      }
      assert members + [] == members;
      patches := patches + [Object(members)];
    }

    method CreatePatches(path: string, from: Json, to: Json)
      modifies this
      ensures patches == old(patches) + ToJsons(Create(path, from, to))
      decreases from, 1, 0
    {
      hide Encode, Decimal, SortList, Suffixed;
      assert forall p: Patch :: ToJsons([p]) == [p.ToJson()];
      if !SameType(from, to) {
        ComposePatch("replace", path, None, Some(to));
        return;
      }
      match from {
        case Number(n) =>
          if n != to.n { ComposePatch("replace", path, None, Some(to)); }
        case String(s) =>
          if s != to.s { ComposePatch("replace", path, None, Some(to)); }
        case Array(items) =>
          CreateArrayPatches(path, items, to.items);
        case Object(members) =>
          SameElements(SortList(members, true), members);
          CreateObjectPatches(path, members, SortList(members, true), SortList(to.members, true));
        case _ =>
      }
    }

    /** Every leftover element is removed at the same index. */
    method RemoveItems(path: string, index: nat, count: nat)
      modifies this
      ensures patches == old(patches) + ToJsons(Removals(path, index, count))
    {
      hide Encode, Decimal, Suffixed, Patch.ToJson, ToJsons, Removals;
      ghost var all := Removals(path, index, count);
      ghost var done: seq<Patch> := [];
      NoJsons();
      var left := count;
      while left > 0
        invariant patches == old(patches) + ToJsons(done) && all == done + Removals(path, index, left)
      {
        ComposePatch("remove", path, Some(Decimal(index)), None);
        RemovalNext(path, index, left);
        ghost var next := [Suffixed("remove", path, Decimal(index), None)];
        JsonsConcat(done, next);
        OneJson(next[0]);
        done := done + next;
        left := left - 1;
      }
      NoRemoval(path, index);
      assert done + [] == done;
    }

    /** Every further element is appended. */
    method AddItems(path: string, to: seq<Json>, start: nat)
      requires start <= |to|
      modifies this
      ensures patches == old(patches) + ToJsons(Additions(path, to[start..]))
    {
      hide Encode, Suffixed, Patch.ToJson, ToJsons, Additions;
      ghost var all := Additions(path, to[start..]);
      ghost var done: seq<Patch> := [];
      NoJsons();
      var index := start;
      while index < |to|
        invariant start <= index <= |to|
        invariant patches == old(patches) + ToJsons(done) && all == done + Additions(path, to[index..])
      {
        ComposePatch("add", path, Some("-"), Some(to[index]));
        AdditionNext(path, to, index);
        ghost var next := [Suffixed("add", path, "-", Some(to[index]))];
        JsonsConcat(done, next);
        OneJson(next[0]);
        done := done + next;
        index := index + 1;
      }
      NoAddition(path, to[index..]);
      assert done + [] == done;
    }

    /** The elements both arrays have, and then the rest of the longer one. */
    method CreateArrayPatches(path: string, from: seq<Json>, to: seq<Json>)
      modifies this
      ensures patches == old(patches) + ToJsons(CreateItems(path, from, to, 0))
      decreases from, 0, 0
    {
      hide Create, CreateItems, Encode, Decimal, Suffixed, Patch.ToJson, ToJsons, Removals, Additions;
      ghost var before := patches;
      ghost var goal := CreateItems(path, from, to, 0);
      ghost var done: seq<Patch> := [];
      NoJsons();
      assert before + [] == before && [] + goal == goal;
      var index := 0;
      while index < |from| && index < |to|
        invariant index <= |from| && index <= |to|
        invariant patches == before + ToJsons(done) && goal == done + CreateItems(path, from, to, index)
        decreases |from| - index
      {
        CreatePatches(path + ("/" + Decimal(index)), from[index], to[index]);
        ghost var next := Create(path + ("/" + Decimal(index)), from[index], to[index]);
        ItemNext(path, from, to, index);
        Progress(before, done, next, CreateItems(path, from, to, index + 1));
        done := done + next;
        index := index + 1;
      }
      ItemsEnd(path, from, to, index);
      Progress(before, done, CreateItems(path, from, to, index), []);
      if index < |from| {
        RemoveItems(path, index, |from| - index);
      } else {
        AddItems(path, to, index);
      }
    }

    method CreateObjectPatches(path: string, ghost all: seq<Member>, from: seq<Member>, to: seq<Member>)
      requires forall m :: m in from ==> m in all
      modifies this
      ensures patches == old(patches) + ToJsons(CreateMembers(path, all, from, to))
      decreases all, 0, 0
    {
      hide Create, CreateMembers, Encode, Suffixed, Less, ToJsons, Patch.ToJson;
      ghost var goal := CreateMembers(path, all, from, to);
      ghost var done: seq<Patch> := [];
      var f, t := 0, 0;
      assert from[0..] == from && to[0..] == to;
      NoJsons();
      while f < |from| || t < |to|
        invariant f <= |from| && t <= |to|
        invariant forall m :: m in from[f..] ==> m in all
        invariant patches == old(patches) + ToJsons(done)
        invariant goal == done + CreateMembers(path, all, from[f..], to[t..])
        decreases |from| - f + |to| - t
      {
        ghost var next: seq<Patch>;
        if f < |from| && t < |to| && from[f].key == to[t].key {
          next := MatchNext(path, all, from, to, f, t);
          assert from[f] in all by { assert from[f] == from[f..][0]; }
          CreatePatches(path + ("/" + Encode(from[f].key)), from[f].value, to[t].value);
          f, t := f + 1, t + 1;
        } else if t == |to| || (f < |from| && Less(from[f].key, to[t].key)) {
          next := RemoveNext(path, all, from, to, f, t);
          ComposePatch("remove", path, Some(from[f].key), None);
          f := f + 1;
        } else {
          next := AddNext(path, all, from, to, f, t);
          ComposePatch("add", path, Some(to[t].key), Some(to[t].value));
          t := t + 1;
        }
        JsonsConcat(done, next);
        done := done + next;
      }
      MembersEnd(path, all, from[f..], to[t..]);
    }
  }

  /** Patches added to those already there. */
  lemma {:induction false} Progress(before: seq<Json>, done: seq<Patch>, next: seq<Patch>, rest: seq<Patch>)
    ensures before + ToJsons(done) + ToJsons(next) == before + ToJsons(done + next)
    ensures done + (next + rest) == done + next + rest
  {
    hide ToJsons;
    JsonsConcat(done, next);
  }

  lemma {:induction false} ItemNext(path: string, from: seq<Json>, to: seq<Json>, i: nat)
    requires i < |from| && i < |to|
    ensures CreateItems(path, from, to, i) ==
      Create(path + ("/" + Decimal(i)), from[i], to[i]) + CreateItems(path, from, to, i + 1)
  {
    hide Create, Decimal;
  }

  lemma {:induction false} ItemsEnd(path: string, from: seq<Json>, to: seq<Json>, i: nat)
    requires i <= |from| && i <= |to| && (i == |from| || i == |to|)
    ensures CreateItems(path, from, to, i) ==
      if i < |from| then Removals(path, i, |from| - i) else Additions(path, to[i..])
  {
    hide Create, Decimal, Removals, Additions;
  }

  lemma {:induction false} RemovalNext(path: string, i: nat, count: nat)
    requires count > 0
    ensures Removals(path, i, count) == [Suffixed("remove", path, Decimal(i), None)] + Removals(path, i, count - 1)
  {
    hide Suffixed, Decimal;
  }

  lemma {:induction false} NoRemoval(path: string, i: nat)
    ensures Removals(path, i, 0) == []
  {
  }

  lemma {:induction false} AdditionNext(path: string, to: seq<Json>, i: nat)
    requires i < |to|
    ensures Additions(path, to[i..]) == [Suffixed("add", path, "-", Some(to[i]))] + Additions(path, to[i + 1..])
  {
    hide Suffixed;
    assert to[i..][1..] == to[i + 1..];
  }

  lemma {:induction false} NoAddition(path: string, to: seq<Json>)
    requires to == []
    ensures Additions(path, to) == []
  {
  }

  lemma {:induction false} OneJson(p: Patch)
    ensures ToJsons([p]) == [p.ToJson()]
  {
    hide Patch.ToJson;
  }

  lemma {:induction false} NoJsons()
    ensures ToJsons([]) == []
  {
  }

  lemma {:induction false} MembersEnd(path: string, all: seq<Member>, fs: seq<Member>, ts: seq<Member>)
    requires fs == [] && ts == []
    ensures CreateMembers(path, all, fs, ts) == []
  {
  }

  /** The next patches of the walk, by which of the two lists moves on. */
  lemma {:induction false} MatchNext(path: string, all: seq<Member>, from: seq<Member>, to: seq<Member>, f: nat, t: nat)
    returns (next: seq<Patch>)
    requires f < |from| && t < |to| && from[f].key == to[t].key && forall m :: m in from[f..] ==> m in all
    ensures forall m :: m in from[f + 1..] ==> m in all
    ensures next == Create(path + ("/" + Encode(from[f].key)), from[f].value, to[t].value)
    ensures CreateMembers(path, all, from[f..], to[t..]) == next + CreateMembers(path, all, from[f + 1..], to[t + 1..])
  {
    hide Create, Encode;
    next := Create(path + ("/" + Encode(from[f].key)), from[f].value, to[t].value);
    assert from[f..][1..] == from[f + 1..] && to[t..][1..] == to[t + 1..];
    assert forall m :: m in from[f + 1..] ==> m in from[f..];
  }

  lemma {:induction false} RemoveNext(path: string, all: seq<Member>, from: seq<Member>, to: seq<Member>, f: nat,
                                      t: nat)
    returns (next: seq<Patch>)
    requires f < |from| && t <= |to| && forall m :: m in from[f..] ==> m in all
    requires t == |to| || (from[f].key != to[t].key && Less(from[f].key, to[t].key))
    ensures forall m :: m in from[f + 1..] ==> m in all
    ensures next == [Suffixed("remove", path, from[f].key, None)] && ToJsons(next) == [next[0].ToJson()]
    ensures CreateMembers(path, all, from[f..], to[t..]) == next + CreateMembers(path, all, from[f + 1..], to[t..])
  {
    hide Create, Suffixed, Less, Patch.ToJson;
    next := [Suffixed("remove", path, from[f].key, None)];
    assert from[f..][1..] == from[f + 1..];
    assert forall m :: m in from[f + 1..] ==> m in from[f..];
  }

  lemma {:induction false} AddNext(path: string, all: seq<Member>, from: seq<Member>, to: seq<Member>, f: nat, t: nat)
    returns (next: seq<Patch>)
    requires f <= |from| && t < |to| && forall m :: m in from[f..] ==> m in all
    requires f == |from| || (from[f].key != to[t].key && !Less(from[f].key, to[t].key))
    ensures next == [Suffixed("add", path, to[t].key, Some(to[t].value))] && ToJsons(next) == [next[0].ToJson()]
    ensures CreateMembers(path, all, from[f..], to[t..]) == next + CreateMembers(path, all, from[f..], to[t + 1..])
  {
    hide Create, Suffixed, Less, Patch.ToJson;
    next := [Suffixed("add", path, to[t].key, Some(to[t].value))];
    assert to[t..][1..] == to[t + 1..];
  }

  lemma {:induction false} JsonsConcat(a: seq<Patch>, b: seq<Patch>)
    ensures ToJsons(a + b) == ToJsons(a) + ToJsons(b)
  {
    hide Patch.ToJson;
  }

  // ---------------------------------------------------------------- applying

  /** A document that patches change. */
  class Document {
    var root: Json

    constructor (root: Json)
      ensures this.root == root
    {
      this.root := root;
    }

    /** Applies patches in order until one fails; the status is that of the failing one, or 0. */
    method ApplyAllPatches(patches: seq<Json>) returns (status: int)
      requires AllDefined(patches)
      modifies this
      ensures (status, root) == ApplyPatches(old(root), patches)
      ensures status != 0 ==>
        exists n: nat, before :: StopsAt(old(root), patches, n, before, status) && root == Left(before, patches[n])
    {
      hide ApplyPatch, DecodeOperation, StopsAt, Left;
      ghost var start := root;
      assert patches[0..] == patches;
      for i := 0 to |patches|
        invariant AllDefined(patches[i..])
        invariant ApplyPatches(root, patches[i..]) == ApplyPatches(old(root), patches)
      {
        assert patches[i..][1..] == patches[i + 1..] && patches[i..][0] == patches[i];
        status := ApplyOnePatch(patches[i]);
        if status != 0 {
          ghost var n, before := FailingList(start, patches);
          return;
        }
      }
      return 0;
    }

    /** Old values are taken out before new ones, or places for them, are looked for. */
    method ApplyOnePatch(patch: Json) returns (status: int)
      requires Defined(patch)
      modifies this
      ensures (status, root) == ApplyPatch(old(root), patch) && status == Status(old(root), patch)
      ensures status == 0 && Tidy(old(root)) && Tidy(patch) ==> Means(old(root), patch, root)
      ensures status != 0 ==> (root == old(root) <==> !TakesOut(old(root), patch))
      ensures status != 0 && TakesOut(old(root), patch) ==> root == TakenOut(old(root), patch)
      ensures status != 0 && ReplacesByNothing(old(root), patch) ==> status == 7
    {
      hide DetachPath, AttachPath, TakenPath, TakesOut, TakenOut, ReplacesByNothing, Means, Status, GetItem;
      PatchMeans(root, patch);
      if ApplyPatch(root, patch).0 != 0 { FailingPatch(root, patch); }
      var path := GetMember(patch, "path");
      if !(path.Some? && path.value.String?) { return 2; }
      var op := DecodeOperation(patch);
      if op == BadOperation { return 3; }
      if op == Test {
        var passes := Compares(path.value.s, GetMember(patch, "value"));
        return if passes then 0 else 1;
      }
      var value := GetMember(patch, "value");
      if path.value.s == "" {
        if op == Remove {
          root := Invalid;
          return 0;
        }
        if op == Replace || op == Add {
          if value == None { return 7; }
          root := value.value;
          return 0;
        }
      }
      if op == Remove || op == Replace {
        match DetachPath(root, path.value.s) {
          case Failed(s) => return s;
          case Done(d) => root := d;
        }
        if op == Remove { return 0; }
      }
      if op == Move || op == Copy {
        status, value := Fetch(op, GetMember(patch, "from"));
        if status != 0 { return; }
      } else if value == None {
        return 7;
      }
      match AttachPath(root, path.value.s, value.value) {
        case Failed(s) => return s;
        case Done(d) => root := d;
      }
      return 0;
    }

    /** What the test operation does. */
    method Compares(path: string, value: Option<Json>) returns (same: bool)
      ensures same <==>
        GetItem(root, path).Some? && value.Some? && SameValue(GetItem(root, path).value, value.value, true)
    {
      hide GetItem, SameValue;
      var found := GetItemFromPointer(root, path);
      if found == None || value == None { return false; }
      same := CompareJson(found.value, value.value, true);
    }

    /** The value that a move takes out of the document, or that a copy finds there. */
    method Fetch(op: Operation, from: Option<Json>) returns (status: int, value: Option<Json>)
      requires op == Move && from.Some? ==> from.value.String?
      modifies this
      ensures from == None ==> status == 4
      ensures status != 0 ==> root == old(root)
      ensures status == 0 <==> from.Some? && from.value.String? && value.Some?
      ensures from.Some? && !from.value.String? ==> status == 5
      ensures from.Some? && from.value.String? ==>
        && (status == 0 || status == 5)
        && (if op == Move then
              && value == TakenPath(old(root), from.value.s)
              && (value.Some? <==> DetachPath(old(root), from.value.s).Done?)
              && (value.Some? ==> root == DetachPath(old(root), from.value.s).doc)
            else value == GetItem(old(root), from.value.s) && root == old(root))
    {
      hide DetachPath, TakenPath, GetItem;
      if from == None { return 4, None; }
      if !from.value.String? { return 5, None; }
      if op == Move {
        TakenIfDetached(root, from.value.s);
        value := TakenPath(root, from.value.s);
        match DetachPath(root, from.value.s) {
          case Failed(_) => return 5, None;
          case Done(d) => root := d;
        }
      } else {
        value := GetItemFromPointer(root, from.value.s);
        if value == None { return 5, None; }
      }
      status := 0;
    }
  }

  /** Generate, then apply to a reordered copy: what the two entry points together promise. */
  method Synchronise(from: Json, to: Json, copy: Document) returns (status: int)
    requires Tidy(copy.root) && Tidy(from) && Tidy(to) && Abs(copy.root) == Abs(from)
    requires Detachable(copy.root, to) && Restorable(from, to)
    modifies copy
    ensures status == 0 && Abs(copy.root) == Abs(to)
  {
    hide Create, ApplyPatches, Abs, Tidy, Detachable, Restorable;
    var list := new PatchList();
    list.CreatePatches("", from, to);
    assert list.patches == ToJsons(Create("", from, to));
    GenerateThenApply(copy.root, from, to);
    status := copy.ApplyAllPatches(list.patches);
  }

  // ---------------------------------------------------------------- where the side conditions bite

  /** For a one-member object the key condition is not only enough but needed. */
  lemma {:induction false} AddingOneMember(k: string, v: Json)
    ensures var from, to := Object([]), Object([Member(k, v)]);
      var ps := Create("", from, to);
      AllGenerated(ps) && (ApplyAll(from, ps).0 == 0 && Abs(ApplyAll(from, ps).1) == Abs(to) <==> Recoverable(k))
  {
    var to := [Member(k, v)];
    var p := Suffixed("add", "", k, Some(v));
    assert SortList(to, true) == to && to[1..] == [];
    assert CreateMembers("", [], [], []) == [];
    assert Create("", Object([]), Object(to)) == [p];
    var child := DecodeInPlace(Encode(k));
    DecodesBack(k);
    EncodeNoSlash(k);
    hide Encode, DecodeInPlace, Recoverable, Create, SortList;
    ApplyTop(Object([]), "add", Encode(k), Some(v));
    var r := Object([Member(child, v)]);
    assert [] + [Member(child, v)] == [Member(child, v)];
    assert Apply(Object([]), p) == (0, r);
    assert [p][1..] == [];
    assert ApplyAll(Object([]), [p]) == (0, r) by { assert ApplyAll(r, []) == (0, r); }
    AbsMembersHas(r.members, k);
    AbsMembersHas(to, k);
    assert HasKey(to, k) by { assert to[0].key == k; }
  }

  /** Removal takes out the member it names exactly when no earlier member has the same key up to case. */
  lemma {:induction false} RemovingOneMember(ms: seq<Member>, k: string)
    requires DistinctKeys(ms) && TidyMembers(ms) && HasKey(ms, k) && Recoverable(k)
    ensures var (s, d) := Apply(Object(ms), Suffixed("remove", "", k, None));
      s == 0 && d.Object? && (AbsMembers(d.members) == AbsMembers(ms) - {k} <==> FirstUpToCase(ms, k))
  {
    hide Encode, DecodeInPlace, Recoverable, Apply, Tidy, Abs;
    DecodesBack(k);
    EncodeNoSlash(k);
    ApplyTop(Object(ms), "remove", Encode(k), None);
    var i, j := IndexOf(ms, k), FoldIndex(ms, k);
    var h :| 0 <= h < |ms| && ms[h].key == k;
    assert i < |ms| && j <= i;
    AbsWithout(ms, j);
    AbsMembersAt(ms, i);
    AbsMembersAt(ms, j);
  }
}
