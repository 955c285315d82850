/** JSON Merge Patch on cJSON values: the applier and what it means on trees. */
module MergePatch {
  import opened Options
  import opened JsonTree
  import opened MemberSort
  import opened JsonPatch
  import opened MergeTree

  // ---------------------------------------------------------------- keys up to case

  /** Keys that the variant takes for the same are the same. */
  predicate KeysMeet(keys: set<string>, cs: bool)
  {
    forall k, l :: k in keys && l in keys && SameKey(k, l, cs) ==> k == l
  }

  /** Two member lists, each with distinct keys, that the variant can look up in one another. */
  predicate LevelOk(ms: seq<Member>, ns: seq<Member>, cs: bool)
  {
    DistinctKeys(ms) && DistinctKeys(ns) && KeysMeet(Keys(ms) + Keys(ns), cs)
  }

  function MembersOf(target: Option<Json>): seq<Member>
  {
    if target.Some? && target.value.Object? then target.value.members else []
  }

  /** At every level that the merge visits, the keys of the target and of the patch meet only where they are equal. */
  ghost predicate Mergeable(target: Option<Json>, patch: Json, cs: bool)
    decreases patch
  {
    patch.Object? ==>
      && LevelOk(MembersOf(target), patch.members, cs)
      && forall i :: 0 <= i < |patch.members| ==>
        Mergeable(ValueAt(MembersOf(target), patch.members[i].key), patch.members[i].value, cs)
  }

  /** The member a lookup finds. */
  function Find(ms: seq<Member>, k: string, cs: bool): (i: nat)
    ensures i <= |ms|
  {
    if cs then IndexOf(ms, k) else FoldIndex(ms, k)
  }

  lemma {:induction false} FindIs(ms: seq<Member>, k: string, cs: bool)
    requires KeysMeet(Keys(ms) + {k}, cs)
    ensures Find(ms, k, cs) == IndexOf(ms, k)
  {
    hide Fold;
    if !cs {
      var i, j := FoldIndex(ms, k), IndexOf(ms, k);
      if i < |ms| {
        assert ms[i].key in Keys(ms) + {k} && k in Keys(ms) + {k};
        assert SameKey(ms[i].key, k, cs);
      }
    }
  }

  // ---------------------------------------------------------------- applying

  function MergePatch(target: Option<Json>, patch: Json, cs: bool): Json
    decreases patch, 1
  {
    if !patch.Object? then patch else Object(MergeMembers(MembersOf(target), patch.members, cs))
  }

  /**
   The patch members from first to last: each takes the target's member away and all but nulls put a new one at the end.
   */
  function MergeMembers(ms: seq<Member>, ps: seq<Member>, cs: bool): seq<Member>
    decreases ps, 0
  {
    if ps == [] then ms
    else
      var k, i := ps[0].key, Find(ms, ps[0].key, cs);
      var rest := if i < |ms| then Without(ms, i) else ms;
      var prior := if i < |ms| then Some(ms[i].value) else None;
      var next := if ps[0].value.Null? then rest else rest + [Member(k, MergePatch(prior, ps[0].value, cs))];
      MergeMembers(next, ps[1..], cs)
  }

  /** What one patch member makes of the target's value. */
  function MergedValue(prior: Option<Json>, p: Option<Json>, cs: bool): Option<Json>
  {
    if p.None? then prior else if p.value.Null? then None else Some(MergePatch(prior, p.value, cs))
  }

  /** The first member whose key is `k`, or differs from it in case only where case does not matter. */
  predicate IsFirst(ms: seq<Member>, k: string, cs: bool, i: nat)
  {
    && i < |ms| && (if cs then ms[i].key == k else Variant(ms[i].key, k))
    && forall j :: 0 <= j < i ==> if cs then ms[j].key != k else !Variant(ms[j].key, k)
  }

  /** One patch member takes the first such member away, and unless it is null puts a new one at the end. */
  lemma {:induction false} OneMember(ms: seq<Member>, p: Member, cs: bool) returns (i: nat)
    ensures i <= |ms| && if i < |ms| then IsFirst(ms, p.key, cs, i) else forall j: nat :: !IsFirst(ms, p.key, cs, j)
    ensures var r := MergeMembers(ms, [p], cs);
      var left := if i < |ms| then |ms| - 1 else |ms|;
      && |r| == left + (if p.value.Null? then 0 else 1)
      && (forall j :: 0 <= j < |ms| && j != i ==> r[if j < i then j else j - 1] == ms[j])
      && (!p.value.Null? ==>
            r[left] == Member(p.key, MergePatch(if i < |ms| then Some(ms[i].value) else None, p.value, cs)))
  {
    hide MergePatch, Fold, Variant;
    i := Find(ms, p.key, cs);
    assert [p][1..] == [];
    forall j | 0 <= j < |ms|
      ensures Fold(ms[j].key) == Fold(p.key) <==> Variant(ms[j].key, p.key)
    {
      FoldExactly(ms[j].key, p.key);
    }
  }

  // ---------------------------------------------------------------- merged lists

  lemma {:induction false} SmallerMeet(keys: set<string>, more: set<string>, cs: bool)
    requires KeysMeet(more, cs) && keys <= more
    ensures KeysMeet(keys, cs)
  {
    hide SameKey;
  }

  /** One patch member: the list that goes on, and what it holds under every key. */
  lemma {:induction false} OneMerged(ms: seq<Member>, p: Member, cs: bool) returns (next: seq<Member>)
    requires DistinctKeys(ms) && KeysMeet(Keys(ms) + {p.key}, cs)
    ensures forall ps: seq<Member> {:trigger MergeMembers(ms, ps, cs)} ::
      ps != [] && ps[0] == p ==> MergeMembers(ms, ps, cs) == MergeMembers(next, ps[1..], cs)
    ensures DistinctKeys(next) && Keys(next) <= Keys(ms) + {p.key}
    ensures forall k ::
      ValueAt(next, k) == (if k == p.key then MergedValue(ValueAt(ms, k), Some(p.value), cs) else ValueAt(ms, k))
  {
    hide Find, MergePatch, SameKey, IndexOf, HasKey, ValueAt, Without, DistinctKeys, Keys;
    var i := Find(ms, p.key, cs);
    FindIs(ms, p.key, cs);
    FoundAt(ms, p.key);
    var prior := if i < |ms| then Some(ms[i].value) else None;
    var rest := if i < |ms| then Without(ms, i) else ms;
    forall k
      ensures ValueAt(rest, k) == if k == p.key then None else ValueAt(ms, k)
    {
      if i < |ms| { ValueAtWithout(ms, i, k); }
    }
    if i < |ms| { ValueAtWithout(ms, i, ""); }
    next := rest;
    if !p.value.Null? {
      var m := Member(p.key, MergePatch(prior, p.value, cs));
      next := rest + [m];
      forall k
        ensures ValueAt(next, k) == if k == p.key then Some(m.value) else ValueAt(rest, k)
      {
        ValueAtAppend(rest, m, k);
      }
      ValueAtAppend(rest, m, "");
    }
  }

  /** What the merged list holds under every key. */
  lemma {:induction false} MergedList(ms: seq<Member>, ps: seq<Member>, cs: bool)
    requires LevelOk(ms, ps, cs)
    ensures var r := MergeMembers(ms, ps, cs);
      && DistinctKeys(r) && Keys(r) <= Keys(ms) + Keys(ps)
      && forall k :: ValueAt(r, k) == MergedValue(ValueAt(ms, k), ValueAt(ps, k), cs)
    decreases |ps|
  {
    hide MergePatch, SameKey, ValueAt, DistinctKeys, Keys, KeysMeet;
    if ps == [] {
      NothingAt();
    } else {
      DistinctTail(ps);
      SmallerMeet(Keys(ms) + {ps[0].key}, Keys(ms) + Keys(ps), cs);
      var next := OneMerged(ms, ps[0], cs);
      SmallerMeet(Keys(next) + Keys(ps[1..]), Keys(ms) + Keys(ps), cs);
      MergedList(next, ps[1..], cs);
      var r := MergeMembers(ms, ps, cs);
      assert r == MergeMembers(next, ps[1..], cs);
      hide MergeMembers;
      forall k
        ensures ValueAt(r, k) == MergedValue(ValueAt(ms, k), ValueAt(ps, k), cs)
      {
        ValueAtCons(ps, k);
      }
    }
  }

  lemma {:induction false} NothingAt()
    ensures Keys([]) == {} && forall k :: ValueAt([], k) == None
  {
  }

  // ---------------------------------------------------------------- what merging means

  function AbsOption(j: Option<Json>): Option<Tree>
  {
    match j case None => None case Some(v) => Some(Abs(v))
  }

  /** What one patch member makes of the target's member. */
  function MergedMember(prior: Option<Tree>, p: Option<Tree>): Option<Tree>
  {
    if p.None? then prior else if p.value.TNull? then None else Some(Merged(prior, p.value))
  }

  lemma {:induction false} MergedObject(target: Option<Tree>, p: Tree, r: Members)
    requires p.TObject?
    requires forall k :: Lookup(r, k) == MergedMember(Lookup(Base(target), k), Lookup(p.members, k))
    ensures Merged(target, p) == TObject(r)
  {
    hide Merged;
    MergedAt(target, p, "");
    forall k
      ensures Lookup(Merged(target, p).members, k) == Lookup(r, k)
    {
      MergedAt(target, p, k);
    }
    LookupsDecide(Merged(target, p).members, r);
  }

  lemma {:induction false} LookupIs(ms: seq<Member>, k: string)
    ensures Lookup(AbsMembers(ms), k) == AbsOption(ValueAt(ms, k))
  {
    hide Abs;
    AbsMembersHas(ms, k);
    assert IndexOf(ms, k) < |ms| ==> ms[IndexOf(ms, k)].key == k && HasKey(ms, k);
  }

  lemma {:induction false} BaseIs(target: Option<Json>)
    ensures Base(AbsOption(target)) == AbsMembers(MembersOf(target))
  {
  }

  lemma {:induction false} PatchAt(target: Option<Json>, patch: Json, cs: bool, k: string)
    requires Mergeable(target, patch, cs) && patch.Object? && ValueAt(patch.members, k).Some?
    ensures var v := ValueAt(patch.members, k).value; v < patch && Mergeable(ValueAt(MembersOf(target), k), v, cs)
  {
    FoundAt(patch.members, k);
    hide LevelOk, ValueAt;
  }

  /** Applying to a value means applying to its tree. */
  lemma {:induction false} MergeMeans(target: Option<Json>, patch: Json, cs: bool)
    requires Mergeable(target, patch, cs)
    ensures Abs(MergePatch(target, patch, cs)) == Merged(AbsOption(target), Abs(patch))
    decreases patch
  {
    hide MergeMembers, AbsMembers, Merged, LevelOk, MembersOf, ValueAt, DistinctKeys, Keys, Mergeable;
    if patch.Object? {
      var ms, ps := MembersOf(target), patch.members;
      assert LevelOk(ms, ps, cs) by { LevelOf(target, patch, cs); }
      MergedList(ms, ps, cs);
      var r := MergeMembers(ms, ps, cs);
      BaseIs(target);
      forall k
        ensures Lookup(AbsMembers(r), k) == MergedMember(Lookup(AbsMembers(ms), k), Lookup(AbsMembers(ps), k))
      {
        LookupIs(r, k);
        LookupIs(ms, k);
        LookupIs(ps, k);
        if ValueAt(ps, k).Some? {
          PatchAt(target, patch, cs, k);
          MergeMeans(ValueAt(ms, k), ValueAt(ps, k).value, cs);
        }
        MemberMeans(ValueAt(ms, k), ValueAt(ps, k), cs);
      }
      MergedObject(AbsOption(target), Abs(patch), AbsMembers(r));
    } else {
      MergedScalar(AbsOption(target), Abs(patch));
    }
  }

  lemma {:induction false} LevelOf(target: Option<Json>, patch: Json, cs: bool)
    requires Mergeable(target, patch, cs) && patch.Object?
    ensures LevelOk(MembersOf(target), patch.members, cs)
  {
  }

  lemma {:induction false} MemberMeans(prior: Option<Json>, p: Option<Json>, cs: bool)
    requires p.Some? ==> Abs(MergePatch(prior, p.value, cs)) == Merged(AbsOption(prior), Abs(p.value))
    ensures AbsOption(MergedValue(prior, p, cs)) == MergedMember(AbsOption(prior), AbsOption(p))
  {
    hide MergePatch, Merged;
  }

  /** What has been merged can be merged again. */
  lemma {:induction false} MergeableAgain(target: Option<Json>, patch: Json, cs: bool)
    requires Mergeable(target, patch, cs)
    ensures Mergeable(Some(MergePatch(target, patch, cs)), patch, cs)
    decreases patch
  {
    hide MergeMembers, LevelOk, ValueAt;
    if patch.Object? {
      var ms, ps := MembersOf(target), patch.members;
      var r := MergeMembers(ms, ps, cs);
      assert DistinctKeys(r) && Keys(r) <= Keys(ms) + Keys(ps) && LevelOk(r, ps, cs) by {
        LevelStays(ms, ps, cs);
      }
      forall i | 0 <= i < |ps|
        ensures Mergeable(ValueAt(r, ps[i].key), ps[i].value, cs)
      {
        MergeableAgain(ValueAt(ms, ps[i].key), ps[i].value, cs);
        MergedAtPatch(ms, ps, i, cs);
      }
      assert MembersOf(Some(Object(r))) == r;
    }
  }

  lemma {:induction false} LevelStays(ms: seq<Member>, ps: seq<Member>, cs: bool)
    requires LevelOk(ms, ps, cs)
    ensures var r := MergeMembers(ms, ps, cs);
      DistinctKeys(r) && Keys(r) <= Keys(ms) + Keys(ps) && LevelOk(r, ps, cs)
  {
    hide MergeMembers, ValueAt, SameKey, KeysMeet, Keys;
    MergedList(ms, ps, cs);
    SmallerMeet(Keys(MergeMembers(ms, ps, cs)) + Keys(ps), Keys(ms) + Keys(ps), cs);
  }

  lemma {:induction false} MergedAtPatch(ms: seq<Member>, ps: seq<Member>, i: nat, cs: bool)
    requires LevelOk(ms, ps, cs) && i < |ps|
    ensures ValueAt(MergeMembers(ms, ps, cs), ps[i].key) ==
      if ps[i].value.Null? then None else Some(MergePatch(ValueAt(ms, ps[i].key), ps[i].value, cs))
  {
    hide MergeMembers, KeysMeet, MergePatch;
    MergedList(ms, ps, cs);
    ValueAtIs(ps, i);
    hide ValueAt;
  }

  /** Applying a patch once more changes nothing. */
  lemma {:induction false} MergeTwice(target: Option<Json>, patch: Json, cs: bool)
    requires Mergeable(target, patch, cs)
    ensures var once := MergePatch(target, patch, cs);
      Abs(MergePatch(Some(once), patch, cs)) == Abs(once)
  {
    hide MergePatch, Abs, Mergeable, Merged;
    MergeMeans(target, patch, cs);
    MergeableAgain(target, patch, cs);
    MergeMeans(Some(MergePatch(target, patch, cs)), patch, cs);
    Idempotent(AbsOption(target), Abs(patch));
  }
}
