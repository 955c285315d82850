/** The generator of merge patches: comparing and walking; and when its patch leads back. */
module MergeGenerate {
  import opened Options
  import opened JsonTree
  import opened MemberSort
  import opened JsonCompare
  import opened JsonPatch
  import opened MergeTree
  import opened MergePatch

  // ---------------------------------------------------------------- comparing

  /** At every level that the comparison visits, keys that the variant takes for the same are the same. */
  ghost predicate Comparable(a: Json, b: Json, cs: bool)
    decreases a
  {
    match a
    case Array(items) =>
      b.Array? ==> forall i :: 0 <= i < |items| && i < |b.items| ==> Comparable(items[i], b.items[i], cs)
    case Object(ms) => b.Object? ==>
      && LevelOk(ms, b.members, cs)
      && forall i, j :: 0 <= i < |ms| && 0 <= j < |b.members| && ms[i].key == b.members[j].key ==>
        Comparable(ms[i].value, b.members[j].value, cs)
    case _ => true
  }

  /** Values of the same key can be compared. */
  ghost predicate AllComparable(a: seq<Member>, b: seq<Member>, cs: bool)
  {
    forall x, y :: x in a && y in b && x.key == y.key ==> Comparable(x.value, y.value, cs)
  }

  lemma {:induction false} LevelComparable(a: Json, b: Json, cs: bool)
    requires Comparable(a, b, cs) && a.Object? && b.Object?
    ensures LevelOk(a.members, b.members, cs) && AllComparable(a.members, b.members, cs)
  {
    hide LevelOk;
    forall x, y | x in a.members && y in b.members && x.key == y.key
      ensures Comparable(x.value, y.value, cs)
    {
      var i :| 0 <= i < |a.members| && a.members[i] == x;
      var j :| 0 <= j < |b.members| && b.members[j] == y;
    }
  }

  /** The comparison decides whether two values are equal up to member order. */
  lemma {:induction false} SameValueMeans(a: Json, b: Json, cs: bool)
    requires Comparable(a, b, cs)
    ensures SameValue(a, b, cs) <==> Abs(a) == Abs(b)
    decreases a, 1, 0
  {
    hide AbsMembers, AbsItems, SameItems, SameMembers, SortList, LevelOk;
    TypesDecide(a, b);
    if a.Array? && b.Array? {
      SameItemsMean(a.items, b.items, cs);
    } else if a.Object? && b.Object? {
      var x, y := SortList(a.members, cs), SortList(b.members, cs);
      LevelComparable(a, b, cs);
      SortLevel(a.members, b.members, cs);
      assert AllComparable(x, y, cs) by { hide Comparable; }
      SameMembersMean(a.members, x, y, cs);
    }
  }

  lemma {:induction false} TypesDecide(a: Json, b: Json)
    ensures Abs(a) == Abs(b) ==> SameType(a, b)
  {
    hide AbsMembers, AbsItems;
  }

  /** Sorting the two lists of a level. */
  lemma {:induction false} SortLevel(ms: seq<Member>, ns: seq<Member>, cs: bool)
    requires LevelOk(ms, ns, cs)
    ensures var a, b := SortList(ms, cs), SortList(ns, cs);
      && SortedKeys(a, cs) && SortedKeys(b, cs) && LevelOk(a, b, cs)
      && AbsMembers(a) == AbsMembers(ms) && AbsMembers(b) == AbsMembers(ns)
      && (forall m :: m in a <==> m in ms) && (forall m :: m in b <==> m in ns)
  {
    var a, b := SortList(ms, cs), SortList(ns, cs);
    ListApart(ms, Keys(ms) + Keys(ns), cs);
    ListApart(ns, Keys(ms) + Keys(ns), cs);
    SortKeeps(ms, cs);
    SortKeeps(ns, cs);
    hide SortList, SortedKeys, SameKey, Comparable, AbsMembers, KeysApart;
    assert Keys(a) == Keys(ms) && Keys(b) == Keys(ns);
  }

  lemma {:induction false} ListApart(ms: seq<Member>, keys: set<string>, cs: bool)
    requires DistinctKeys(ms) && KeysMeet(keys, cs) && Keys(ms) <= keys
    ensures KeysApart(ms, cs)
  {
    hide SameKey;
    forall i, j | 0 <= i < j < |ms|
      ensures !SameKey(ms[i].key, ms[j].key, cs)
    {
      assert ms[i] in ms && ms[j] in ms;
      assert ms[i].key in keys && ms[j].key in keys;
    }
  }

  lemma {:induction false} SameItemsMean(a: seq<Json>, b: seq<Json>, cs: bool)
    requires forall i :: 0 <= i < |a| && i < |b| ==> Comparable(a[i], b[i], cs)
    ensures SameItems(a, b, cs) <==> AbsItems(a) == AbsItems(b)
    decreases a, 0, |a|
  {
    hide SameValue, Comparable, Abs;
    if a != [] && b != [] {
      SameValueMeans(a[0], b[0], cs);
      SameItemsMean(a[1..], b[1..], cs);
      var s, t := AbsItems(a), AbsItems(b);
      assert s[1..] == AbsItems(a[1..]) && t[1..] == AbsItems(b[1..]);
      assert s == [s[0]] + s[1..] && t == [t[0]] + t[1..];
    }
  }

  /** Equal maps of sorted lists have equal first keys. */
  lemma {:induction false} FirstKeys(a: seq<Member>, b: seq<Member>, cs: bool)
    requires SortedKeys(a, cs) && SortedKeys(b, cs) && AbsMembers(a) == AbsMembers(b)
    ensures a == [] <==> b == []
    ensures a != [] ==> a[0].key == b[0].key
  {
    hide Abs, Before;
    if a != [] {
      AbsMembersHas(a, a[0].key);
      AbsMembersHas(b, a[0].key);
      assert HasKey(a, a[0].key);
    }
    if b != [] {
      AbsMembersHas(a, b[0].key);
      AbsMembersHas(b, b[0].key);
      assert HasKey(b, b[0].key);
    }
    if a != [] && b != [] {
      BeforeTotal(a[0].key, b[0].key, cs);
    }
  }

  lemma {:induction false} SortedTail(a: seq<Member>, cs: bool)
    requires SortedKeys(a, cs) && a != []
    ensures SortedKeys(a[1..], cs)
  {
    hide Before;
  }

  lemma {:induction false} ConsEqual(a: seq<Member>, b: seq<Member>)
    requires a != [] && b != [] && a[0].key == b[0].key && DistinctKeys(a) && DistinctKeys(b)
    ensures AbsMembers(a) == AbsMembers(b) <==>
      Abs(a[0].value) == Abs(b[0].value) && AbsMembers(a[1..]) == AbsMembers(b[1..])
  {
    hide Abs;
    var k, m, n := a[0].key, AbsMembers(a[1..]), AbsMembers(b[1..]);
    AbsMembersHas(a[1..], k);
    AbsMembersHas(b[1..], k);
    assert k !in m && k !in n;
    assert AbsMembers(a) == m[k := Abs(a[0].value)] && AbsMembers(b) == n[k := Abs(b[0].value)];
    assert AbsMembers(a) - {k} == m && AbsMembers(b) - {k} == n;
    assert AbsMembers(a)[k] == Abs(a[0].value) && AbsMembers(b)[k] == Abs(b[0].value);
  }

  lemma {:induction false} LevelTails(a: seq<Member>, b: seq<Member>, cs: bool)
    requires LevelOk(a, b, cs) && a != [] && b != []
    ensures LevelOk(a[1..], b[1..], cs) && (SameKey(a[0].key, b[0].key, cs) <==> a[0].key == b[0].key)
  {
    DistinctTail(a);
    DistinctTail(b);
    assert a[0].key in Keys(a) + Keys(b) && b[0].key in Keys(a) + Keys(b);
    hide SameKey;
    assert SameKey(a[0].key, b[0].key, cs) ==> a[0].key == b[0].key;
    BeforeTotal(a[0].key, b[0].key, cs);
    SmallerMeet(Keys(a[1..]) + Keys(b[1..]), Keys(a) + Keys(b), cs);
  }

  lemma {:induction false} SameMembersMean(all: seq<Member>, a: seq<Member>, b: seq<Member>, cs: bool)
    requires forall m :: m in a ==> m in all
    requires SortedKeys(a, cs) && SortedKeys(b, cs) && LevelOk(a, b, cs) && AllComparable(a, b, cs)
    ensures SameMembers(all, a, b, cs) <==> AbsMembers(a) == AbsMembers(b)
    decreases all, 0, |a|
  {
    hide SameValue, LevelOk, AbsMembers, SortedKeys, SameKey, Comparable;
    if AbsMembers(a) == AbsMembers(b) { FirstKeys(a, b, cs); }
    if a != [] && b != [] {
      assert a[0] in a && a[0] in all && b[0] in b;
      LevelTails(a, b, cs);
      SortedTail(a, cs);
      SortedTail(b, cs);
      SameMembersMean(all, a[1..], b[1..], cs);
      if a[0].key == b[0].key {
        SameValueMeans(a[0].value, b[0].value, cs);
        assert DistinctKeys(a) && DistinctKeys(b) by { LevelDistinct(a, b, cs); }
        ConsEqual(a, b);
      }
    }
  }

  lemma {:induction false} LevelDistinct(a: seq<Member>, b: seq<Member>, cs: bool)
    requires LevelOk(a, b, cs)
    ensures DistinctKeys(a) && DistinctKeys(b)
  {
  }

  // ---------------------------------------------------------------- generating

  /**
   The patch, or nothing when two objects do not differ.
   Members that both have are always treated without regard to case.
   */
  function Generate(from: Json, to: Json, cs: bool): Option<Json>
    decreases (to), 1, 0
  {
    if !from.Object? || !to.Object? then Some(to)
    else
      var fs, ts := SortList(from.members, cs), SortList(to.members, cs);
      assert forall m :: m in ts ==> m in to.members by { SameElements(ts, to.members); }
      var p := Walk(to.members, fs, ts, cs);
      if p == [] then None else Some(Object(p))
  }

  /** Walks two lists side by side in the order of strcmp; `all` holds the members of `ts`. */
  function Walk(all: seq<Member>, fs: seq<Member>, ts: seq<Member>, cs: bool): seq<Member>
    requires forall m :: m in ts ==> m in all
    decreases all, 0, |fs| + |ts|
  {
    if fs == [] && ts == [] then []
    else if ts == [] || (fs != [] && Less(fs[0].key, ts[0].key)) then
      [Member(fs[0].key, Null)] + Walk(all, fs[1..], ts, cs)
    else if fs == [] || fs[0].key != ts[0].key then [ts[0]] + Walk(all, fs, ts[1..], cs)
    else
      assert ts[0] in all;
      (if SameValue(fs[0].value, ts[0].value, cs) then []
       else match Generate(fs[0].value, ts[0].value, false)
         case None => []
         case Some(p) => [Member(ts[0].key, p)])
      + Walk(all, fs[1..], ts[1..], cs)
  }

  /** What the walk puts under a key, for what the two lists have there. */
  function Step(f: Option<Json>, t: Option<Json>, cs: bool): Option<Json>
  {
    if t.None? then (if f.None? then None else Some(Null))
    else if f.None? then t
    else if SameValue(f.value, t.value, cs) then None
    else Generate(f.value, t.value, false)
  }

  /**
   Where the walk finds what it looks for: at every level that is visited, keys are distinct and byte order places the
   keys of both sides like the order they are sorted in; values of the same key can be compared; and the parts that are
   copied into the patch can be merged into nothing. The outermost level is sorted by `cs`, all others without regard
   to case; `merge` is the variant that will merge the patch.
   */
  ghost predicate Generable(f: Json, t: Json, cs: bool, merge: bool)
    decreases f
  {
    if !f.Object? || !t.Object? then Mergeable(None, t, merge)
    else
      && DistinctKeys(f.members) && DistinctKeys(t.members)
      && OrdersAgree(Keys(f.members) + Keys(t.members), cs)
      && (forall i, j :: 0 <= i < |f.members| && 0 <= j < |t.members| && f.members[i].key == t.members[j].key ==>
            Comparable(f.members[i].value, t.members[j].value, cs)
            && (Abs(f.members[i].value) != Abs(t.members[j].value) ==>
                  Generable(f.members[i].value, t.members[j].value, false, merge)))
      && (forall j :: 0 <= j < |t.members| && !HasKey(f.members, t.members[j].key) ==>
            Mergeable(None, t.members[j].value, merge))
  }

  // ---------------------------------------------------------------- the walk

  /** A key before the head of a sorted list is not in the list. */
  lemma {:induction false} NotBelow(ms: seq<Member>, k: string)
    requires SortedKeys(ms, true) && (ms != [] ==> Less(k, ms[0].key))
    ensures ValueAt(ms, k) == None
  {
    ValueAtNone(ms, k);
    hide Less, ValueAt;
    if HasKey(ms, k) {
      var i :| 0 <= i < |ms| && ms[i].key == k;
      LessTotal(k, ms[0].key);
    }
  }

  lemma {:induction false} ValueAtOnto(m: Member, ms: seq<Member>)
    requires DistinctKeys(ms) && ValueAt(ms, m.key) == None
    ensures DistinctKeys([m] + ms) && Keys([m] + ms) == Keys(ms) + {m.key}
    ensures forall k :: ValueAt([m] + ms, k) == if m.key == k then Some(m.value) else ValueAt(ms, k)
  {
    var r := [m] + ms;
    assert r[1..] == ms;
    ValueAtNone(ms, m.key);
    assert forall i :: 0 <= i < |ms| ==> ms[i].key != m.key && r[i + 1] == ms[i];
    forall k
      ensures ValueAt(r, k) == if m.key == k then Some(m.value) else ValueAt(ms, k)
    {
      ValueAtCons(r, k);
    }
    assert forall x :: x in r <==> x == m || x in ms;
  }

  ghost predicate WalksTo(p: seq<Member>, fs: seq<Member>, ts: seq<Member>, cs: bool)
  {
    && DistinctKeys(p) && Keys(p) <= Keys(fs) + Keys(ts)
    && forall k :: ValueAt(p, k) == Step(ValueAt(fs, k), ValueAt(ts, k), cs)
  }

  /** One step of the walk deals with one key and leaves the others to the rest. */
  lemma {:induction false} WalkStep(p: seq<Member>, fs: seq<Member>, ts: seq<Member>, fs': seq<Member>,
                                    ts': seq<Member>, k: string, step: Option<Json>, cs: bool)
    requires WalksTo(p, fs', ts', cs) && DistinctKeys(fs) && DistinctKeys(ts)
    requires fs' == fs || (fs != [] && fs' == fs[1..] && fs[0].key == k)
    requires ts' == ts || (ts != [] && ts' == ts[1..] && ts[0].key == k)
    requires ValueAt(fs', k) == None && ValueAt(ts', k) == None && k in Keys(fs) + Keys(ts)
    requires step == Step(ValueAt(fs, k), ValueAt(ts, k), cs)
    ensures WalksTo((match step case None => [] case Some(v) => [Member(k, v)]) + p, fs, ts, cs)
  {
    hide SameValue, Generate, ValueAt, DistinctKeys, Keys;
    assert ValueAt(p, k) == None by { NoStep(cs); }
    var r := (match step case None => [] case Some(v) => [Member(k, v)]) + p;
    if step == None {
      assert r == p;
    } else {
      ValueAtOnto(Member(k, step.value), p);
    }
    if fs' != fs { DistinctTail(fs); }
    if ts' != ts { DistinctTail(ts); }
    hide Step;
    forall l
      ensures ValueAt(r, l) == Step(ValueAt(fs, l), ValueAt(ts, l), cs)
    {
      if fs != [] { ValueAtCons(fs, l); }
      if ts != [] { ValueAtCons(ts, l); }
    }
  }

  lemma {:induction false} NoStep(cs: bool)
    ensures Step(None, None, cs) == None
  {
  }

  lemma {:induction false} WalkMeans(all: seq<Member>, fs: seq<Member>, ts: seq<Member>, cs: bool)
    requires forall m :: m in ts ==> m in all
    requires SortedKeys(fs, true) && SortedKeys(ts, true)
    ensures WalksTo(Walk(all, fs, ts, cs), fs, ts, cs)
    decreases |fs| + |ts|
  {
    SortedDistinct(fs, true);
    SortedDistinct(ts, true);
    hide Generate, SameValue, Less, SortedKeys, Step, WalksTo, ValueAt, DistinctKeys, Keys;
    if fs == [] && ts == [] {
      NothingWalked(cs);
    } else if ts == [] || (fs != [] && Less(fs[0].key, ts[0].key)) {
      var k := fs[0].key;
      SortedTail(fs, true);
      DistinctTail(fs);
      NotBelow(ts, k);
      WalkMeans(all, fs[1..], ts, cs);
      ValueAtCons(fs, k);
      OneSide(fs[0].value, cs);
      WalkStep(Walk(all, fs[1..], ts, cs), fs, ts, fs[1..], ts, k, Some(Null), cs);
    } else if fs == [] || fs[0].key != ts[0].key {
      var k := ts[0].key;
      if fs != [] { LessTotal(fs[0].key, k); }
      SortedTail(ts, true);
      DistinctTail(ts);
      NotBelow(fs, k);
      WalkMeans(all, fs, ts[1..], cs);
      ValueAtCons(ts, k);
      OneSide(ts[0].value, cs);
      assert ts[0] == Member(k, ts[0].value);
      WalkStep(Walk(all, fs, ts[1..], cs), fs, ts, fs, ts[1..], k, Some(ts[0].value), cs);
    } else {
      var k := ts[0].key;
      assert ts[0] in all;
      SortedTail(fs, true);
      SortedTail(ts, true);
      DistinctTail(fs);
      DistinctTail(ts);
      WalkMeans(all, fs[1..], ts[1..], cs);
      ValueAtCons(fs, k);
      ValueAtCons(ts, k);
      BothSides(fs[0].value, ts[0].value, cs);
      WalkStep(Walk(all, fs[1..], ts[1..], cs), fs, ts, fs[1..], ts[1..], k,
               Step(Some(fs[0].value), Some(ts[0].value), cs), cs);
    }
  }

  lemma {:induction false} NothingWalked(cs: bool)
    ensures WalksTo([], [], [], cs)
  {
  }

  lemma {:induction false} OneSide(v: Json, cs: bool)
    ensures Step(Some(v), None, cs) == Some(Null) && Step(None, Some(v), cs) == Some(v)
  {
  }

  lemma {:induction false} BothSides(f: Json, t: Json, cs: bool)
    ensures Step(Some(f), Some(t), cs) == if SameValue(f, t, cs) then None else Generate(f, t, false)
  {
    hide SameValue, Generate;
  }

  // ---------------------------------------------------------------- what generating means

  /** What the walk puts under a key, on trees. */
  function Delta(f: Option<Tree>, t: Option<Tree>): Option<Tree>
  {
    if f == t then None else if t.None? then Some(TNull) else if f.None? then t else Some(Changed(f.value, t.value))
  }

  lemma {:induction false} DeltaIsDiff(f: Tree, t: Tree, p: Members)
    requires f.TObject? && t.TObject?
    requires forall k :: Lookup(p, k) == Delta(Lookup(f.members, k), Lookup(t.members, k))
    ensures Diff(f, t) == if p == map[] then None else Some(TObject(p))
  {
    hide Diff, Changed;
    DiffNone(f, t);
    if Diff(f, t) == None {
      assert p == map[] by { LookupsDecide(p, map[]); }
    } else {
      var d := Diff(f, t).value;
      DiffAt(f, t, "");
      forall k
        ensures Lookup(d.members, k) == Lookup(p, k)
      {
        DiffAt(f, t, k);
      }
      LookupsDecide(d.members, p);
      if p == map[] {
        forall k
          ensures Lookup(f.members, k) == Lookup(t.members, k)
        {
        }
        LookupsDecide(f.members, t.members);
      }
    }
  }

  /** Both lists of a level, sorted: the walk sees them in byte order. */
  lemma {:induction false} SortedLevel(ms: seq<Member>, ns: seq<Member>, cs: bool)
    requires DistinctKeys(ms) && DistinctKeys(ns) && OrdersAgree(Keys(ms) + Keys(ns), cs)
    ensures var a, b := SortList(ms, cs), SortList(ns, cs);
      && SortedKeys(a, true) && SortedKeys(b, true)
      && (forall k :: ValueAt(a, k) == ValueAt(ms, k)) && (forall k :: ValueAt(b, k) == ValueAt(ns, k))
      && Keys(a) == Keys(ms) && Keys(b) == Keys(ns) && (forall m :: m in b ==> m in ns)
  {
    SortedSide(ms, Keys(ms) + Keys(ns), cs);
    SortedSide(ns, Keys(ms) + Keys(ns), cs);
  }

  lemma {:induction false} SortedSide(ms: seq<Member>, keys: set<string>, cs: bool)
    requires DistinctKeys(ms) && Keys(ms) <= keys && OrdersAgree(keys, cs)
    ensures var r := SortList(ms, cs);
      && SortedKeys(r, true) && Keys(r) == Keys(ms) && (forall m :: m in r ==> m in ms)
      && forall k :: ValueAt(r, k) == ValueAt(ms, k)
  {
    hide Before, Less, SortList;
    SortListIs(ms, cs);
    ApartDistinct(ms, true);
    SortKeeps(ms, true);
    var r := SortList(ms, true);
    hide SortedKeys;
    forall k
      ensures ValueAt(r, k) == ValueAt(ms, k)
    {
      SameValues(r, ms, k);
    }
  }

  /** What the conditions say about one key. */
  lemma {:induction false} GenerableAt(f: Json, t: Json, cs: bool, merge: bool, k: string)
    requires f.Object? && t.Object? && Generable(f, t, cs, merge) && ValueAt(t.members, k).Some?
    ensures var v, w := ValueAt(f.members, k), ValueAt(t.members, k).value;
      && (v == None ==> Mergeable(None, w, merge))
      && (v.Some? ==> v.value < f && w < t && Comparable(v.value, w, cs))
      && (v.Some? && Abs(v.value) != Abs(w) ==> Generable(v.value, w, false, merge))
  {
    FoundAt(t.members, k);
    FoundAt(f.members, k);
    ValueAtNone(f.members, k);
    hide OrdersAgree, ValueAt, Comparable, Mergeable, DistinctKeys, HasKey;
  }

  lemma {:induction false} GenerableLevel(f: Json, t: Json, cs: bool, merge: bool)
    requires f.Object? && t.Object? && Generable(f, t, cs, merge)
    ensures DistinctKeys(f.members) && DistinctKeys(t.members) && OrdersAgree(Keys(f.members) + Keys(t.members), cs)
  {
  }

  /** The walk over both sorted lists, by what the unsorted ones hold. */
  lemma {:induction false} GenerateAt(f: Json, t: Json, cs: bool, merge: bool) returns (p: seq<Member>)
    requires f.Object? && t.Object? && Generable(f, t, cs, merge)
    ensures Generate(f, t, cs) == if p == [] then None else Some(Object(p))
    ensures WalksTo(p, f.members, t.members, cs)
  {
    GenerableLevel(f, t, cs, merge);
    hide SortList, Walk, SortedKeys, DistinctKeys, ValueAt, Keys, Step, OrdersAgree, Generable;
    var fs, ts := SortList(f.members, cs), SortList(t.members, cs);
    SortedLevel(f.members, t.members, cs);
    p := Walk(t.members, fs, ts, cs);
    WalkMeans(t.members, fs, ts, cs);
  }

  lemma {:induction false} EmptyMeaning(p: seq<Member>)
    ensures AbsMembers(p) == map[] <==> p == []
  {
    hide Abs;
    if p != [] { assert p[0].key in AbsMembers(p); }
  }

  lemma {:induction false} StepMeans(f: Option<Json>, t: Option<Json>, cs: bool)
    requires f.Some? && t.Some? ==> (SameValue(f.value, t.value, cs) <==> Abs(f.value) == Abs(t.value))
    requires f.Some? && t.Some? && Abs(f.value) != Abs(t.value) ==>
      AbsOption(Generate(f.value, t.value, false)) == Diff(Abs(f.value), Abs(t.value))
    ensures AbsOption(Step(f, t, cs)) == Delta(AbsOption(f), AbsOption(t))
  {
    hide SameValue, Generate, Diff, Changed;
    if f.Some? && t.Some? && Abs(f.value) != Abs(t.value) { ChangedIs(Abs(f.value), Abs(t.value)); }
  }

  /** The generated patch is the difference of the trees. */
  lemma {:induction false} GenerateMeans(from: Json, to: Json, cs: bool, merge: bool)
    requires Generable(from, to, cs, merge)
    ensures AbsOption(Generate(from, to, cs)) == Diff(Abs(from), Abs(to))
    decreases from
  {
    hide Diff, Generable, Generate, Step, SameValue, ValueAt, DistinctKeys, Keys;
    DiffScalar(Abs(from), Abs(to));
    ScalarPatch(from, to, cs);
    if from.Object? && to.Object? {
      var p := GenerateAt(from, to, cs, merge);
      var f, t := from.members, to.members;
      forall k
        ensures Lookup(AbsMembers(p), k) == Delta(Lookup(AbsMembers(f), k), Lookup(AbsMembers(t), k))
      {
        LookupIs(p, k);
        LookupIs(f, k);
        LookupIs(t, k);
        if ValueAt(f, k).Some? && ValueAt(t, k).Some? {
          var v, w := ValueAt(f, k).value, ValueAt(t, k).value;
          GenerableAt(from, to, cs, merge, k);
          SameValueMeans(v, w, cs);
          if Abs(v) != Abs(w) { GenerateMeans(v, w, false, merge); }
        }
        StepMeans(ValueAt(f, k), ValueAt(t, k), cs);
      }
      EmptyMeaning(p);
      DeltaIsDiff(Abs(from), Abs(to), AbsMembers(p));
    }
  }

  lemma {:induction false} ScalarPatch(from: Json, to: Json, cs: bool)
    ensures !from.Object? || !to.Object? ==> Generate(from, to, cs) == Some(to)
    ensures Abs(from).TObject? <==> from.Object?
  {
    hide Walk, SortList;
  }

  // ---------------------------------------------------------------- generating, then applying

  lemma {:induction false} MergeableSame(a: Option<Json>, b: Option<Json>, patch: Json, cs: bool)
    requires MembersOf(a) == MembersOf(b) && Mergeable(a, patch, cs)
    ensures Mergeable(b, patch, cs)
  {
    hide LevelOk;
  }

  /** Where the orders agree, keys are apart for the variant that merges. */
  lemma {:induction false} AgreeMeet(keys: set<string>, cs: bool, merge: bool)
    requires OrdersAgree(keys, cs) && (cs ==> merge)
    ensures KeysMeet(keys, merge)
  {
    AgreeApart(keys, cs);
    hide OrdersAgree, Fold;
  }

  /** A reordering holds the same keys, and under each the same tree. */
  lemma {:induction false} Reordered(doc: Json, from: Json, k: string)
    requires Abs(doc) == Abs(from) && doc.Object? && from.Object?
    ensures k in Keys(doc.members) <==> k in Keys(from.members)
    ensures AbsOption(ValueAt(doc.members, k)) == AbsOption(ValueAt(from.members, k))
  {
    LookupIs(doc.members, k);
    LookupIs(from.members, k);
    hide AbsMembers, ValueAt, Abs;
    ValueAtNone(doc.members, k);
    ValueAtNone(from.members, k);
  }

  lemma {:induction false} TidyAt(doc: Json, k: string)
    requires Tidy(doc) && doc.Object?
    ensures DistinctKeys(doc.members) && (ValueAt(doc.members, k).Some? ==> Tidy(ValueAt(doc.members, k).value))
  {
    FoundAt(doc.members, k);
    if ValueAt(doc.members, k).Some? { TidyMemberAt(doc.members, IndexOf(doc.members, k)); }
  }

  /** The generated patch can be merged into any reordering of the first value. */
  lemma {:induction false} PatchFits(doc: Json, from: Json, to: Json, cs: bool, merge: bool)
    requires Generable(from, to, cs, merge) && (cs ==> merge)
    requires Tidy(doc) && Abs(doc) == Abs(from) && Generate(from, to, cs).Some?
    ensures Mergeable(Some(doc), Generate(from, to, cs).value, merge)
    decreases from
  {
    hide Generable, Generate, Step, SameValue, ValueAt, DistinctKeys, Keys, Mergeable, Tidy, AbsMembers, OrdersAgree,
      KeysMeet;
    ScalarPatch(from, to, cs);
    ScalarPatch(doc, to, cs);
    if from.Object? && to.Object? {
      var p := GenerateAt(from, to, cs, merge);
      GenerableLevel(from, to, cs, merge);
      TidyAt(doc, "");
      forall k
        ensures k in Keys(doc.members) <==> k in Keys(from.members)
      {
        Reordered(doc, from, k);
      }
      AgreeMeet(Keys(from.members) + Keys(to.members), cs, merge);
      SmallerMeet(Keys(doc.members) + Keys(p), Keys(from.members) + Keys(to.members), merge);
      forall i | 0 <= i < |p|
        ensures Mergeable(ValueAt(doc.members, p[i].key), p[i].value, merge)
      {
        MemberFits(doc, from, to, cs, merge, p, i);
      }
      AllFit(doc, p, merge);
    } else {
      ScalarGenerable(from, to, cs, merge);
      if to.Object? {
        MergeableSame(None, Some(doc), to, merge);
      } else {
        ScalarMergeable(Some(doc), to, merge);
      }
    }
  }

  lemma {:induction false} ScalarMergeable(target: Option<Json>, patch: Json, cs: bool)
    requires !patch.Object?
    ensures Mergeable(target, patch, cs)
  {
  }

  lemma {:induction false} ScalarGenerable(f: Json, t: Json, cs: bool, merge: bool)
    requires Generable(f, t, cs, merge) && (!f.Object? || !t.Object?)
    ensures Mergeable(None, t, merge)
  {
  }

  lemma {:induction false} AllFit(doc: Json, p: seq<Member>, cs: bool)
    requires doc.Object? && DistinctKeys(doc.members) && DistinctKeys(p) && KeysMeet(Keys(doc.members) + Keys(p), cs)
    requires forall i :: 0 <= i < |p| ==> Mergeable(ValueAt(doc.members, p[i].key), p[i].value, cs)
    ensures Mergeable(Some(doc), Object(p), cs)
  {
    hide KeysMeet, DistinctKeys, ValueAt;
  }

  lemma {:induction false} MemberFits(doc: Json, from: Json, to: Json, cs: bool, merge: bool, p: seq<Member>, i: nat)
    requires from.Object? && to.Object? && doc.Object? && Generable(from, to, cs, merge) && (cs ==> merge)
    requires Tidy(doc) && Abs(doc) == Abs(from) && WalksTo(p, from.members, to.members, cs) && i < |p|
    ensures Mergeable(ValueAt(doc.members, p[i].key), p[i].value, merge)
    decreases from, 0
  {
    hide Generable, Generate, SameValue, ValueAt, Keys, Mergeable, Tidy, Abs, AbsMembers;
    var k := p[i].key;
    var d, f, t := ValueAt(doc.members, k), ValueAt(from.members, k), ValueAt(to.members, k);
    ValueAtIs(p, i);
    assert Step(f, t, cs) == Some(p[i].value);
    Reordered(doc, from, k);
    TidyAt(doc, k);
    if t == None {
      ScalarMergeable(d, Null, merge);
    } else {
      GenerableAt(from, to, cs, merge, k);
      if f.Some? {
        SameValueMeans(f.value, t.value, cs);
        PatchFits(d.value, f.value, t.value, false, merge);
      }
    }
  }

  /**
   The generated patch, applied to any reordering of the first value, leads to the second in exactly the cases where
   every null member of the second is already in the first; without a patch the two are equal.
   */
  lemma {:induction false} GenerateThenMerge(doc: Json, from: Json, to: Json, cs: bool)
    requires Generable(from, to, cs, cs) && Tidy(doc) && Abs(doc) == Abs(from)
    ensures match Generate(from, to, cs)
      case None => Abs(from) == Abs(to)
      case Some(p) => Abs(MergePatch.MergePatch(Some(doc), p, cs)) == Abs(to) <==> Expressible(Abs(from), Abs(to))
  {
    hide Generate, Diff, MergePatch.MergePatch, Expressible, Abs, Generable, Merged, Mergeable, Tidy;
    GenerateMeans(from, to, cs, cs);
    DiffNone(Abs(from), Abs(to));
    var p := Generate(from, to, cs);
    if p.Some? {
      PatchFits(doc, from, to, cs, cs);
      MergeMeans(Some(doc), p.value, cs);
      DiffExact(Abs(from), Abs(to));
    }
  }
}
