/**
 Which keys the merge patch generator can deal with: where byte order and the order up to case agree, and only there.
 */
module MergeOrders {
  import opened Options
  import opened JsonTree
  import opened MemberSort
  import opened JsonCompare
  import opened MergeTree
  import opened MergePatch
  import opened MergeGenerate

  // ---------------------------------------------------------------- values whose keys come from one set

  ghost predicate Over(j: Json, keys: set<string>)
    decreases j
  {
    match j
    case Array(items) => forall i :: 0 <= i < |items| ==> Over(items[i], keys)
    case Object(ms) => forall i :: 0 <= i < |ms| ==> ms[i].key in keys && Over(ms[i].value, keys)
    case _ => true
  }

  lemma {:induction false} SmallerAgree(keys: set<string>, more: set<string>, cs: bool)
    requires OrdersAgree(more, cs) && keys <= more
    ensures OrdersAgree(keys, cs)
  {
    hide Less, Before;
  }

  lemma {:induction false} KeysOver(ms: seq<Member>, keys: set<string>)
    requires Over(Object(ms), keys)
    ensures Keys(ms) <= keys && forall i :: 0 <= i < |ms| ==> Over(ms[i].value, keys)
  {
    var j := Object(ms);
    assert forall i :: 0 <= i < |ms| ==> j.members[i].key in keys && Over(j.members[i].value, keys);
    hide Over;
    forall k | k in Keys(ms)
      ensures k in keys
    {
      var m :| m in ms && m.key == k;
      var i :| 0 <= i < |ms| && ms[i] == m;
    }
  }

  lemma {:induction false} LevelOver(ms: seq<Member>, ns: seq<Member>, keys: set<string>, cs: bool)
    requires OrdersAgree(keys, false) && DistinctKeys(ms) && DistinctKeys(ns)
    requires Over(Object(ms), keys) && Over(Object(ns), keys)
    ensures LevelOk(ms, ns, cs)
  {
    hide Over, DistinctKeys, OrdersAgree, KeysMeet, Keys;
    KeysOver(ms, keys);
    KeysOver(ns, keys);
    AgreeMeet(keys, false, cs);
    SmallerMeet(Keys(ms) + Keys(ns), keys, cs);
  }

  lemma {:induction false} ValueOver(j: Json, keys: set<string>, k: string)
    requires j.Object? && Tidy(j) && Over(j, keys) && ValueAt(j.members, k).Some?
    ensures Tidy(ValueAt(j.members, k).value) && Over(ValueAt(j.members, k).value, keys)
  {
    hide Tidy;
    TidyAt(j, k);
    FoundAt(j.members, k);
  }

  lemma {:induction false} OverMergeable(target: Option<Json>, patch: Json, keys: set<string>, cs: bool)
    requires OrdersAgree(keys, false) && Tidy(patch) && Over(patch, keys)
    requires target.Some? ==> Tidy(target.value) && Over(target.value, keys)
    ensures Mergeable(target, patch, cs)
    decreases patch
  {
    hide OrdersAgree, LevelOk, ValueAt, TidyMembers;
    if patch.Object? {
      var ms, ps := MembersOf(target), patch.members;
      assert Over(Object(ms), keys) && DistinctKeys(ms) && patch == Object(ps);
      LevelOver(ms, ps, keys, cs);
      forall i | 0 <= i < |ps|
        ensures Mergeable(ValueAt(ms, ps[i].key), ps[i].value, cs)
      {
        TidyMemberAt(ps, i);
        if ValueAt(ms, ps[i].key).Some? {
          NoneIsEmpty(target, ps[i].key);
          ValueOver(target.value, keys, ps[i].key);
        }
        OverMergeable(ValueAt(ms, ps[i].key), ps[i].value, keys, cs);
      }
    }
  }

  lemma {:induction false} NoneIsEmpty(target: Option<Json>, k: string)
    requires ValueAt(MembersOf(target), k).Some?
    ensures target.Some? && target.value.Object?
  {
  }

  lemma {:induction false} OverComparable(a: Json, b: Json, keys: set<string>, cs: bool)
    requires OrdersAgree(keys, false) && Tidy(a) && Tidy(b) && Over(a, keys) && Over(b, keys)
    ensures Comparable(a, b, cs)
    decreases a
  {
    hide OrdersAgree, LevelOk, TidyMembers, TidyItems;
    if a.Array? && b.Array? {
      forall i | 0 <= i < |a.items| && i < |b.items|
        ensures Comparable(a.items[i], b.items[i], cs)
      {
        TidyItemAt(a.items, i);
        TidyItemAt(b.items, i);
        OverComparable(a.items[i], b.items[i], keys, cs);
      }
    } else if a.Object? && b.Object? {
      assert a == Object(a.members) && b == Object(b.members);
      LevelOver(a.members, b.members, keys, cs);
      forall i, j | 0 <= i < |a.members| && 0 <= j < |b.members| && a.members[i].key == b.members[j].key
        ensures Comparable(a.members[i].value, b.members[j].value, cs)
      {
        TidyMemberAt(a.members, i);
        TidyMemberAt(b.members, j);
        OverComparable(a.members[i].value, b.members[j].value, keys, cs);
      }
    }
  }

  /** The keys of the outermost level are left out. */
  ghost predicate OverInside(j: Json, keys: set<string>)
  {
    j.Object? ==> forall i :: 0 <= i < |j.members| ==> Over(j.members[i].value, keys)
  }

  /**
   Distinct sibling keys suffice when byte order and the order up to case agree on the keys below the outermost level,
   and byte order and the order of the variant agree on the outermost keys.
   */
  lemma {:induction false} KeysSuffice(f: Json, t: Json, keys: set<string>, cs: bool, merge: bool)
    requires Tidy(f) && Tidy(t) && OverInside(f, keys) && OverInside(t, keys) && OrdersAgree(keys, false)
    requires OrdersAgree(Keys(MembersOf(Some(f))) + Keys(MembersOf(Some(t))), cs) && (cs ==> merge)
    ensures Generable(f, t, cs, merge)
    decreases f
  {
    hide OrdersAgree, Over, TidyMembers, Comparable, Mergeable, Abs, Keys, HasKey;
    if f.Object? && t.Object? {
      forall i, j | 0 <= i < |f.members| && 0 <= j < |t.members| && f.members[i].key == t.members[j].key
        ensures Comparable(f.members[i].value, t.members[j].value, cs)
        ensures Generable(f.members[i].value, t.members[j].value, false, merge)
      {
        var v, w := f.members[i].value, t.members[j].value;
        TidyMemberAt(f.members, i);
        TidyMemberAt(t.members, j);
        OverComparable(v, w, keys, cs);
        InsideOver(v, w, keys);
        KeysSuffice(v, w, keys, false, merge);
      }
      forall j | 0 <= j < |t.members|
        ensures Mergeable(None, t.members[j].value, merge)
      {
        TidyMemberAt(t.members, j);
        OverMergeable(None, t.members[j].value, keys, merge);
      }
    } else {
      AloneMergeable(f, t, keys, cs, merge);
    }
  }

  lemma {:induction false} InsideOver(f: Json, t: Json, keys: set<string>)
    requires Over(f, keys) && Over(t, keys) && OrdersAgree(keys, false)
    ensures OverInside(f, keys) && OverInside(t, keys)
    ensures OrdersAgree(Keys(MembersOf(Some(f))) + Keys(MembersOf(Some(t))), false)
  {
    if f.Object? { KeysOver(f.members, keys); }
    if t.Object? { KeysOver(t.members, keys); }
    SmallerAgree(Keys(MembersOf(Some(f))) + Keys(MembersOf(Some(t))), keys, false);
  }

  lemma {:induction false} AloneMergeable(f: Json, t: Json, keys: set<string>, cs: bool, merge: bool)
    requires Tidy(t) && OverInside(t, keys) && OrdersAgree(keys, false)
    requires OrdersAgree(Keys(MembersOf(Some(f))) + Keys(MembersOf(Some(t))), cs) && (cs ==> merge)
    ensures Mergeable(None, t, merge)
  {
    hide OrdersAgree, Over, TidyMembers, Keys, KeysMeet;
    if t.Object? {
      var more := Keys(MembersOf(Some(f))) + Keys(t.members);
      AgreeMeet(more, cs, merge);
      NothingAt();
      SmallerMeet(Keys([]) + Keys(t.members), more, merge);
      forall j | 0 <= j < |t.members|
        ensures Mergeable(ValueAt([], t.members[j].key), t.members[j].value, merge)
      {
        TidyMemberAt(t.members, j);
        OverMergeable(None, t.members[j].value, keys, merge);
      }
    }
  }

  // ---------------------------------------------------------------- keys that the two orders place differently

  lemma {:induction false} SortOne(a: Member)
    ensures SortList([a], false) == [a]
  {
  }

  lemma {:induction false} SortPair(a: Member, b: Member)
    requires Before(a.key, b.key, false)
    ensures SortList([a, b], false) == [a, b]
  {
    hide Before;
    assert Rising([a, b], false);
  }

  lemma {:induction false} FindAmong(ms: seq<Member>, k: string, i: nat)
    requires i < |ms| && SameKey(ms[i].key, k, false) && forall j :: 0 <= j < i ==> !SameKey(ms[j].key, k, false)
    ensures Find(ms, k, false) == i
  {
    hide Fold;
  }

  /** One patch member applied to a list, looked up without regard to case. */
  lemma {:induction false} MergeStep(ms: seq<Member>, ps: seq<Member>, i: nat) returns (next: seq<Member>)
    requires ps != [] && i < |ms| && Find(ms, ps[0].key, false) == i
    ensures MergeMembers(ms, ps, false) == MergeMembers(next, ps[1..], false)
    ensures next == if ps[0].value.Null? then Without(ms, i)
      else Without(ms, i) + [Member(ps[0].key, MergePatch.MergePatch(Some(ms[i].value), ps[0].value, false))]
  {
    hide Find, MergePatch.MergePatch, Fold;
    next := if ps[0].value.Null? then Without(ms, i)
      else Without(ms, i) + [Member(ps[0].key, MergePatch.MergePatch(Some(ms[i].value), ps[0].value, false))];
  }

  lemma {:induction false} Finished(ms: seq<Member>)
    ensures MergeMembers(ms, [], false) == ms
  {
  }

  lemma {:induction false} Lost(c: Member)
    ensures Abs(Object([])) != Abs(Object([c]))
  {
    assert AbsMembers([]) == map[];
    assert c.key in AbsMembers([c]);
  }

  lemma {:induction false} WalkOnce(all: seq<Member>, fs: seq<Member>, ts: seq<Member>)
    requires forall m :: m in ts ==> m in all
    ensures fs == [] && ts == [] ==> Walk(all, fs, ts, false) == []
    ensures fs != [] && ts == [] ==>
      Walk(all, fs, ts, false) == [Member(fs[0].key, Null)] + Walk(all, fs[1..], ts, false)
    ensures fs != [] && ts != [] && !Less(fs[0].key, ts[0].key) && fs[0].key != ts[0].key ==>
      Walk(all, fs, ts, false) == [ts[0]] + Walk(all, fs, ts[1..], false)
  {
    hide Less, Fold, SameValue, Generate;
  }

  /** A member of the second object that the walk meets too early is put into the patch, and then taken away again. */
  lemma {:induction false} WalkDisagrees(fs: seq<Member>, c: Member)
    requires fs != [] && |fs| <= 2 && !Less(fs[0].key, c.key) && fs[0].key != c.key
    ensures Walk([c], fs, [c], false) == [c] + seq(|fs|, i requires 0 <= i < |fs| => Member(fs[i].key, Null))
  {
    hide Less, Walk;
    WalkOnce([c], fs, [c]);
    assert [c][1..] == [];
    WalkOnce([c], fs, []);
    WalkOnce([c], fs[1..], []);
    if |fs| == 2 {
      assert fs[1..][1..] == [];
      WalkOnce([c], [], []);
    }
  }

  /** The key `l` comes after `k` up to case, and is found behind it. */
  lemma {:induction false} PairDisagree(a: Member, b: Member, c: Member)
    requires !SameKey(a.key, b.key, false) && b.key == c.key
    ensures MergeMembers([a, b], [c, Member(a.key, Null), Member(b.key, Null)], false) == []
  {
    hide Fold, Find, MergeMembers, MergePatch.MergePatch;
    var n, m := Member(a.key, Null), Member(b.key, Null);
    var p := [c, n, m];
    assert p[1..] == [n, m] && [n, m][1..] == [m] && [m][1..] == [];
    FindAmong([a, b], b.key, 1);
    assert Without([a, b], 1) == [a];
    var s1 := MergeStep([a, b], p, 1);
    FindAmong(s1, a.key, 0);
    var s2 := MergeStep(s1, [n, m], 0);
    if s2 == [] {
      NoneLeft(m);
    } else {
      FindAmong(s2, b.key, 0);
      var s3 := MergeStep(s2, [m], 0);
      Finished(s3);
    }
  }

  lemma {:induction false} NoneLeft(m: Member)
    requires m.value.Null?
    ensures MergeMembers([], [m], false) == []
  {
    assert [m][1..] == [];
  }

  lemma {:induction false} PairPatch(fs: seq<Member>, c: Member)
    requires SortList(fs, false) == fs
    ensures var p := Walk([c], fs, [c], false);
      Generate(Object(fs), Object([c]), false) == if p == [] then None else Some(Object(p))
    ensures forall p :: MergePatch.MergePatch(Some(Object(fs)), Object(p), false) == Object(MergeMembers(fs, p, false))
  {
    hide Fold, SortList, Walk, MergeMembers;
    SortOne(c);
  }

  /**
   One member removed and another, after it up to case, changed, whatever the values: the variant that ignores
   case leads back exactly when byte order places the two keys the same way.
   */
  lemma {:induction false} OrdersMustAgree(k: string, l: string, x: Json, y: Json, z: Json)
    requires Before(k, l, false)
    requires Tidy(Object([Member(k, x), Member(l, y)])) && Comparable(y, z, false)
    requires Abs(y) != Abs(z) ==> Generable(y, z, false, false)
    requires Expressible(Abs(Object([Member(k, x), Member(l, y)])), Abs(Object([Member(l, z)])))
    ensures var from, to := Object([Member(k, x), Member(l, y)]), Object([Member(l, z)]);
      var p := Generate(from, to, false);
      p.Some? && (Abs(MergePatch.MergePatch(Some(from), p.value, false)) == Abs(to) <==> Less(k, l))
  {
    hide Less, Fold, SortList, Find, MergeMembers, Generate, MergePatch.MergePatch, Walk, Abs, Comparable, Generable,
      Tidy, Expressible, Before;
    var a, b, c := Member(k, x), Member(l, y), Member(l, z);
    var from, to := Object([a, b]), Object([c]);
    BeforeTotal(k, l, false);
    LessTotal(k, l);
    if Less(k, l) {
      PairGenerable(a, b, c);
      GenerateThenMerge(from, from, to, false);
      assert Abs(from) != Abs(to) by { PairDiffers(a, b, c); }
    } else {
      assert !SameKey(k, l, false);
      SortPair(a, b);
      PairPatch([a, b], c);
      WalkDisagrees([a, b], c);
      var p := [c, Member(k, Null), Member(l, Null)];
      assert Walk([c], [a, b], [c], false) == p;
      PairDisagree(a, b, c);
      Lost(c);
    }
  }

  lemma {:induction false} PairDiffers(a: Member, b: Member, c: Member)
    requires a.key != b.key && b.key == c.key
    ensures Abs(Object([a, b])) != Abs(Object([c]))
  {
    AbsMembersHas([a, b], a.key);
    AbsMembersHas([c], a.key);
    assert HasKey([a, b], a.key) by { assert [a, b][0].key == a.key; }
  }

  lemma {:induction false} PairGenerable(a: Member, b: Member, c: Member)
    requires Before(a.key, b.key, false) && Less(a.key, b.key) && b.key == c.key && Comparable(b.value, c.value, false)
    requires Abs(b.value) != Abs(c.value) ==> Generable(b.value, c.value, false, false)
    ensures Generable(Object([a, b]), Object([c]), false, false)
  {
    hide Less, Before, Comparable, Abs, Mergeable;
    var keys := Keys([a, b]) + Keys([c]);
    BeforeTotal(a.key, b.key, false);
    BeforeTotal(a.key, a.key, false);
    BeforeTotal(b.key, b.key, false);
    LessTotal(a.key, b.key);
    LessTotal(a.key, a.key);
    LessTotal(b.key, b.key);
    assert forall k :: k in keys ==> k == a.key || k == b.key;
    assert OrdersAgree(keys, false);
    var f, t := Object([a, b]), Object([c]);
    assert f.members[1].key == c.key;
    assert HasKey(f.members, c.key);
  }

  /** Generating and merging leads from one value to the other wherever a merge patch can. */
  ghost predicate LeadsBack(from: Json, to: Json)
  {
    match Generate(from, to, false)
    case None => Abs(from) == Abs(to)
    case Some(p) =>
      Abs(MergePatch.MergePatch(Some(from), p, false)) == Abs(to) <==> Expressible(Abs(from), Abs(to))
  }

  /**
   A set of keys is safe for the variant that ignores case if and only if byte order and the order up to case
   agree on it: exactly then every two values with distinct sibling keys from the set lead back.
   */
  lemma {:induction false} OrdersDecide(keys: set<string>)
    ensures OrdersAgree(keys, false) <==>
      forall from, to :: Tidy(from) && Tidy(to) && Over(from, keys) && Over(to, keys) ==> LeadsBack(from, to)
  {
    hide Tidy, Over, LeadsBack, Less, Before;
    if OrdersAgree(keys, false) {
      forall from, to | Tidy(from) && Tidy(to) && Over(from, keys) && Over(to, keys)
        ensures LeadsBack(from, to)
      {
        OverLeadsBack(from, to, keys);
      }
    } else {
      var k, l :| k in keys && l in keys && !(Less(k, l) <==> Before(k, l, false));
      BeforeTotal(k, l, false);
      LessTotal(k, l);
      LessTotal(k, k);
      var from, to := Misled(if Less(k, l) then k else l, if Less(k, l) then l else k, keys);
    }
  }

  lemma {:induction false} OverLeadsBack(from: Json, to: Json, keys: set<string>)
    requires OrdersAgree(keys, false) && Tidy(from) && Tidy(to) && Over(from, keys) && Over(to, keys)
    ensures LeadsBack(from, to)
  {
    hide OrdersAgree, Tidy, Over, OverInside, Generate, Abs, Generable, Expressible, MergePatch.MergePatch;
    InsideOver(from, to, keys);
    KeysSuffice(from, to, keys, false, false);
    GenerateThenMerge(from, from, to, false);
  }

  /** Two keys that the orders place differently, and two values that are misled by them. */
  lemma {:induction false} Misled(k: string, l: string, keys: set<string>) returns (from: Json, to: Json)
    requires k in keys && l in keys && Less(k, l) && !Before(k, l, false)
    ensures Tidy(from) && Tidy(to) && Over(from, keys) && Over(to, keys) && !LeadsBack(from, to)
  {
    LessTotal(k, l);
    BeforeTotal(k, l, false);
    if SameKey(k, l, false) {
      from, to := Object([Member(l, True)]), Object([Member(k, True)]);
      OneTidy(Member(l, True), keys);
      OneTidy(Member(k, True), keys);
      hide *;
      Renamed(Member(l, True), Member(k, True));
    } else {
      from, to := Object([Member(l, True), Member(k, True)]), Object([Member(k, False)]);
      OneTidy(Member(k, False), keys);
      PairTidy(Member(l, True), Member(k, True), keys);
      ScalarsFit(True, False);
      FlatExpressible([Member(l, True), Member(k, True)], Member(k, False));
      hide Tidy, Less, Before, Comparable, Generable, Abs, Expressible, Over, Generate, MergePatch.MergePatch;
      OrdersMustAgree(l, k, True, True, False);
    }
  }

  lemma {:induction false} OneTidy(m: Member, keys: set<string>)
    requires m.key in keys && !m.value.Object? && !m.value.Array?
    ensures Tidy(Object([m])) && Over(Object([m]), keys)
  {
    assert [m][1..] == [];
    assert TidyMembers([]);
  }

  lemma {:induction false} PairTidy(m: Member, n: Member, keys: set<string>)
    requires m.key in keys && n.key in keys && m.key != n.key
    requires !m.value.Object? && !m.value.Array? && !n.value.Object? && !n.value.Array?
    ensures Tidy(Object([m, n])) && Over(Object([m, n]), keys)
  {
    assert [m, n][1..] == [n] && [n][1..] == [];
    assert TidyMembers([]);
    assert TidyMembers([n]);
  }

  lemma {:induction false} ScalarsFit(y: Json, z: Json)
    requires !y.Object? && !y.Array? && !z.Object?
    ensures Comparable(y, z, false) && Generable(y, z, false, false)
  {
  }

  lemma {:induction false} FlatExpressible(fs: seq<Member>, c: Member)
    requires !c.value.Null? && !c.value.Object?
    ensures Expressible(Abs(Object(fs)), Abs(Object([c])))
  {
    var t := AbsMembers([c]);
    assert t == map[c.key := Abs(c.value)] by {
      assert [c][1..] == [] && AbsMembers([]) == map[];
    }
    hide AbsMembers;
    assert Plain(Abs(c.value));
    forall k | k in t && k in AbsMembers(fs)
      ensures Expressible(AbsMembers(fs)[k], t[k])
    {
    }
  }

  /** A key replaced by one that is equal up to case and smaller: added first, then taken away under the old name. */
  lemma {:induction false} Renamed(b: Member, c: Member)
    requires SameKey(c.key, b.key, false) && Less(c.key, b.key) && !c.value.Null? && !c.value.Object?
    ensures !LeadsBack(Object([b]), Object([c]))
  {
    FlatExpressible([b], c);
    hide Less, Find, MergeMembers, MergePatch.MergePatch, Walk, Abs, Expressible, SameKey;
    LessTotal(c.key, b.key);
    assert SameKey(b.key, c.key, false) by { Symmetric(c.key, b.key); }
    SortOne(b);
    PairPatch([b], c);
    WalkDisagrees([b], c);
    var n := Member(b.key, Null);
    var p := [c, n];
    assert Walk([c], [b], [c], false) == p;
    assert p[1..] == [n] && [n][1..] == [];
    FindAmong([b], c.key, 0);
    assert Without([b], 0) == [];
    var s1 := MergeStep([b], p, 0);
    FindAmong(s1, b.key, 0);
    var s2 := MergeStep(s1, [n], 0);
    Finished(s2);
    Lost(c);
  }

  lemma {:induction false} Symmetric(k: string, l: string)
    requires SameKey(k, l, false)
    ensures SameKey(l, k, false)
  {
    hide Fold;
  }
}
