/** JSON values as cJSON keeps them, with ordered members, and what they mean: trees with unordered members. */
module JsonTree {
  import opened Options

  datatype Member = Member(key: string, value: Json)

  /** Numbers are integers; `Invalid` is the node type cJSON gives a removed root. */
  datatype Json =
    | Invalid
    | Null
    | False
    | True
    | Number(n: int)
    | String(s: string)
    | Array(items: seq<Json>)
    | Object(members: seq<Member>)

  /** A value up to member order. */
  datatype Tree =
    | TInvalid
    | TNull
    | TFalse
    | TTrue
    | TNumber(n: int)
    | TString(s: string)
    | TArray(items: seq<Tree>)
    | TObject(members: map<string, Tree>)

  function Abs(j: Json): Tree
    decreases j, 1
  {
    match j
    case Invalid => TInvalid
    case Null => TNull
    case False => TFalse
    case True => TTrue
    case Number(n) => TNumber(n)
    case String(s) => TString(s)
    case Array(items) => TArray(AbsItems(items))
    case Object(ms) => TObject(AbsMembers(ms))
  }

  function AbsItems(items: seq<Json>): (t: seq<Tree>)
    ensures |t| == |items|
    decreases items, 0
  {
    if items == [] then [] else [Abs(items[0])] + AbsItems(items[1..])
  }

  /** Lookup finds the first member with a key. */
  function AbsMembers(ms: seq<Member>): map<string, Tree>
    decreases ms, 0
  {
    if ms == [] then map[] else AbsMembers(ms[1..])[ms[0].key := Abs(ms[0].value)]
  }

  lemma {:induction false} AbsItemAt(items: seq<Json>, i: nat)
    requires i < |items|
    ensures AbsItems(items)[i] == Abs(items[i])
    decreases |items|
  {
    if i > 0 {
      AbsItemAt(items[1..], i - 1);
    }
  }

  predicate SameType(a: Json, b: Json)
  {
    match a
    case Invalid => b.Invalid?
    case Null => b.Null?
    case False => b.False?
    case True => b.True?
    case Number(_) => b.Number?
    case String(_) => b.String?
    case Array(_) => b.Array?
    case Object(_) => b.Object?
  }

  // ---------------------------------------------------------------- keys

  predicate DistinctKeys(ms: seq<Member>)
  {
    forall i, j :: 0 <= i < j < |ms| ==> ms[i].key != ms[j].key
  }

  /** No two members of any object inside share a key. */
  ghost predicate Tidy(j: Json)
    decreases j, 1
  {
    match j
    case Array(items) => TidyItems(items)
    case Object(ms) => DistinctKeys(ms) && TidyMembers(ms)
    case _ => true
  }

  ghost predicate TidyItems(items: seq<Json>)
    decreases items, 0
  {
    items == [] || (Tidy(items[0]) && TidyItems(items[1..]))
  }

  ghost predicate TidyMembers(ms: seq<Member>)
    decreases ms, 0
  {
    ms == [] || (Tidy(ms[0].value) && TidyMembers(ms[1..]))
  }

  predicate HasKey(ms: seq<Member>, k: string)
  {
    exists i :: 0 <= i < |ms| && ms[i].key == k
  }

  /** The first position of a key, or the length. */
  function IndexOf(ms: seq<Member>, k: string): (i: nat)
    ensures i <= |ms|
    ensures i < |ms| ==> ms[i].key == k
    ensures forall j :: 0 <= j < i ==> ms[j].key != k
  {
    if ms == [] then 0 else if ms[0].key == k then 0 else 1 + IndexOf(ms[1..], k)
  }

  /** The value of the first member with a key, if there is one. */
  function ValueAt(ms: seq<Member>, k: string): Option<Json>
  {
    var i := IndexOf(ms, k);
    if i < |ms| then Some(ms[i].value) else None
  }

  function Keys(ms: seq<Member>): set<string>
  {
    set m | m in ms :: m.key
  }

  lemma {:induction false} IndexOfIs(ms: seq<Member>, k: string, i: nat)
    requires DistinctKeys(ms) && i < |ms| && ms[i].key == k
    ensures IndexOf(ms, k) == i
  {
  }

  /** With distinct keys every member shows in the map, and nothing else does. */
  lemma {:induction false} AbsMembersHas(ms: seq<Member>, k: string)
    ensures k in AbsMembers(ms) <==> HasKey(ms, k)
    ensures k in AbsMembers(ms) ==> IndexOf(ms, k) < |ms| && AbsMembers(ms)[k] == Abs(ms[IndexOf(ms, k)].value)
    decreases |ms|
  {
    if ms != [] {
      AbsMembersHas(ms[1..], k);
      if ms[0].key == k {
      } else if HasKey(ms, k) {
        var i :| 0 <= i < |ms| && ms[i].key == k;
        assert ms[1..][i - 1].key == k;
      }
    }
  }

  lemma {:induction false} AbsMembersAt(ms: seq<Member>, i: nat)
    requires DistinctKeys(ms) && i < |ms|
    ensures ms[i].key in AbsMembers(ms) && AbsMembers(ms)[ms[i].key] == Abs(ms[i].value)
  {
    AbsMembersHas(ms, ms[i].key);
    IndexOfIs(ms, ms[i].key, i);
  }

  /** A map that holds exactly the members of a list is that list's meaning. */
  lemma {:induction false} AbsMembersIs(ms: seq<Member>, m: map<string, Tree>)
    requires DistinctKeys(ms)
    requires forall i :: 0 <= i < |ms| ==> ms[i].key in m && m[ms[i].key] == Abs(ms[i].value)
    requires forall k :: k in m ==> HasKey(ms, k)
    ensures AbsMembers(ms) == m
  {
    var n := AbsMembers(ms);
    forall k
      ensures k in n <==> k in m
      ensures k in m ==> n[k] == m[k]
    {
      AbsMembersHas(ms, k);
    }
  }

  lemma {:induction false} TidyMemberAt(ms: seq<Member>, i: nat)
    requires TidyMembers(ms) && i < |ms|
    ensures Tidy(ms[i].value)
    decreases |ms|
  {
    if i > 0 {
      TidyMemberAt(ms[1..], i - 1);
    }
  }

  lemma {:induction false} TidyMembersIs(ms: seq<Member>)
    requires forall i :: 0 <= i < |ms| ==> Tidy(ms[i].value)
    ensures TidyMembers(ms)
    decreases |ms|
  {
    if ms != [] {
      TidyMembersIs(ms[1..]);
    }
  }

  lemma {:induction false} TidyItemAt(items: seq<Json>, i: nat)
    requires TidyItems(items) && i < |items|
    ensures Tidy(items[i])
    decreases |items|
  {
    if i > 0 {
      TidyItemAt(items[1..], i - 1);
    }
  }

  lemma {:induction false} TidyItemsIs(items: seq<Json>)
    requires forall i :: 0 <= i < |items| ==> Tidy(items[i])
    ensures TidyItems(items)
    decreases |items|
  {
    if items != [] {
      TidyItemsIs(items[1..]);
    }
  }

  // ---------------------------------------------------------------- list operations and their meaning

  function Without(ms: seq<Member>, i: nat): seq<Member>
    requires i < |ms|
  {
    ms[..i] + ms[i + 1..]
  }

  lemma {:induction false} AbsWithout(ms: seq<Member>, i: nat)
    requires DistinctKeys(ms) && i < |ms|
    ensures DistinctKeys(Without(ms, i)) && (TidyMembers(ms) ==> TidyMembers(Without(ms, i)))
    ensures AbsMembers(Without(ms, i)) == AbsMembers(ms) - {ms[i].key}
    ensures !HasKey(Without(ms, i), ms[i].key)
  {
    var r := Without(ms, i);
    forall j | 0 <= j < |r|
      ensures r[j] == ms[if j < i then j else j + 1]
      ensures r[j].key in AbsMembers(ms) && AbsMembers(ms)[r[j].key] == Abs(r[j].value)
      ensures TidyMembers(ms) ==> Tidy(r[j].value)
    {
      AbsMembersAt(ms, if j < i then j else j + 1);
      if TidyMembers(ms) { TidyMemberAt(ms, if j < i then j else j + 1); }
    }
    forall k | k in AbsMembers(ms) && k != ms[i].key
      ensures HasKey(r, k)
    {
      AbsMembersHas(ms, k);
      var j :| 0 <= j < |ms| && ms[j].key == k;
      assert r[if j < i then j else j - 1].key == k;
    }
    AbsMembersIs(r, AbsMembers(ms) - {ms[i].key});
    if TidyMembers(ms) { TidyMembersIs(r); }
  }

  lemma {:induction false} AbsAppend(ms: seq<Member>, m: Member)
    requires DistinctKeys(ms) && !HasKey(ms, m.key)
    ensures DistinctKeys(ms + [m]) && (TidyMembers(ms) && Tidy(m.value) ==> TidyMembers(ms + [m]))
    ensures AbsMembers(ms + [m]) == AbsMembers(ms)[m.key := Abs(m.value)]
  {
    var r := ms + [m];
    AbsMembersHas(ms, m.key);
    forall j | 0 <= j < |ms|
      ensures r[j] == ms[j] && ms[j].key in AbsMembers(ms) && AbsMembers(ms)[ms[j].key] == Abs(ms[j].value)
      ensures ms[j].key != m.key && (TidyMembers(ms) ==> Tidy(r[j].value))
    {
      AbsMembersAt(ms, j);
      if TidyMembers(ms) { TidyMemberAt(ms, j); }
    }
    forall k | k in AbsMembers(ms)[m.key := Abs(m.value)]
      ensures HasKey(r, k)
    {
      AbsMembersHas(ms, k);
      if k == m.key {
        assert r[|ms|].key == k;
      } else {
        var j :| 0 <= j < |ms| && ms[j].key == k;
        assert r[j].key == k;
      }
    }
    AbsMembersIs(r, AbsMembers(ms)[m.key := Abs(m.value)]);
    if TidyMembers(ms) && Tidy(m.value) { TidyMembersIs(r); }
  }

  lemma {:induction false} AbsReplace(ms: seq<Member>, i: nat, v: Json)
    requires DistinctKeys(ms) && TidyMembers(ms) && i < |ms| && Tidy(v)
    ensures DistinctKeys(ms[i := Member(ms[i].key, v)]) && TidyMembers(ms[i := Member(ms[i].key, v)])
    ensures AbsMembers(ms[i := Member(ms[i].key, v)]) == AbsMembers(ms)[ms[i].key := Abs(v)]
  {
    var r := ms[i := Member(ms[i].key, v)];
    var m := AbsMembers(ms)[ms[i].key := Abs(v)];
    forall j | 0 <= j < |r|
      ensures r[j].key in m && m[r[j].key] == Abs(r[j].value) && Tidy(r[j].value)
    {
      AbsMembersAt(ms, j);
      TidyMemberAt(ms, j);
    }
    forall k | k in m
      ensures HasKey(r, k)
    {
      AbsMembersHas(ms, k);
      AbsMembersAt(ms, i);
      var j :| 0 <= j < |ms| && ms[j].key == k;
      assert r[j].key == k;
    }
    AbsMembersIs(r, m);
    TidyMembersIs(r);
  }

  lemma {:induction false} AbsItemsIs(items: seq<Json>, t: seq<Tree>)
    requires |items| == |t| && forall i :: 0 <= i < |items| ==> Abs(items[i]) == t[i]
    ensures AbsItems(items) == t
  {
    forall i | 0 <= i < |items|
      ensures AbsItems(items)[i] == t[i]
    {
      AbsItemAt(items, i);
    }
  }

  // ---------------------------------------------------------------- values in lists

  lemma {:induction false} ValueAtIs(ms: seq<Member>, i: nat)
    requires DistinctKeys(ms) && i < |ms|
    ensures ValueAt(ms, ms[i].key) == Some(ms[i].value)
  {
    IndexOfIs(ms, ms[i].key, i);
  }

  lemma {:induction false} ValueAtNone(ms: seq<Member>, k: string)
    ensures ValueAt(ms, k) == None <==> !HasKey(ms, k)
    ensures HasKey(ms, k) <==> k in Keys(ms)
  {
    if HasKey(ms, k) {
      var i :| 0 <= i < |ms| && ms[i].key == k;
      assert ms[i] in ms;
    }
    if k in Keys(ms) {
      var m :| m in ms && m.key == k;
      var i :| 0 <= i < |ms| && ms[i] == m;
    }
  }

  lemma {:induction false} ValueAtCons(ms: seq<Member>, k: string)
    requires ms != []
    ensures ValueAt(ms, k) == if ms[0].key == k then Some(ms[0].value) else ValueAt(ms[1..], k)
  {
  }

  lemma {:induction false} DistinctTail(ms: seq<Member>)
    requires DistinctKeys(ms) && ms != []
    ensures DistinctKeys(ms[1..]) && ValueAt(ms[1..], ms[0].key) == None && Keys(ms) == Keys(ms[1..]) + {ms[0].key}
  {
    ValueAtNone(ms[1..], ms[0].key);
    assert forall m :: m in ms <==> m == ms[0] || m in ms[1..];
  }

  lemma {:induction false} ValueAtWithout(ms: seq<Member>, i: nat, k: string)
    requires DistinctKeys(ms) && i < |ms|
    ensures DistinctKeys(Without(ms, i)) && Keys(Without(ms, i)) <= Keys(ms)
    ensures ValueAt(Without(ms, i), k) == if k == ms[i].key then None else ValueAt(ms, k)
  {
    var r := Without(ms, i);
    assert forall j :: 0 <= j < |r| ==> r[j] == ms[if j < i then j else j + 1];
    hide Without, ValueAt;
    assert DistinctKeys(r);
    ValueAtNone(r, k);
    ValueAtNone(ms, k);
    if HasKey(r, k) {
      var h :| 0 <= h < |r| && r[h].key == k;
      ValueAtIs(r, h);
      ValueAtIs(ms, if h < i then h else h + 1);
    }
  }

  lemma {:induction false} ValueAtAppend(ms: seq<Member>, m: Member, k: string)
    requires DistinctKeys(ms) && ValueAt(ms, m.key) == None
    ensures DistinctKeys(ms + [m]) && Keys(ms + [m]) == Keys(ms) + {m.key}
    ensures ValueAt(ms + [m], k) == if k == m.key then Some(m.value) else ValueAt(ms, k)
  {
    var r := ms + [m];
    ValueAtNone(ms, m.key);
    assert r[|ms|] == m && forall j :: 0 <= j < |ms| ==> r[j] == ms[j];
    assert forall j :: 0 <= j < |ms| ==> ms[j].key != m.key;
    assert DistinctKeys(r);
    ValueAtNone(r, k);
    ValueAtNone(ms, k);
    if HasKey(ms, k) {
      var j :| 0 <= j < |ms| && ms[j].key == k;
      ValueAtIs(ms, j);
      ValueAtIs(r, j);
    } else if k == m.key {
      ValueAtIs(r, |ms|);
    }
  }

  lemma {:induction false} FoundAt(ms: seq<Member>, k: string)
    ensures var i := IndexOf(ms, k);
      && (i < |ms| ==> ms[i].key == k)
      && ValueAt(ms, k) == if i < |ms| then Some(ms[i].value) else None
  {
  }

  lemma {:induction false} SameValues(r: seq<Member>, ms: seq<Member>, k: string)
    requires DistinctKeys(r) && DistinctKeys(ms) && forall m :: m in r <==> m in ms
    ensures ValueAt(r, k) == ValueAt(ms, k)
  {
    hide ValueAt;
    ValueAtNone(r, k);
    ValueAtNone(ms, k);
    if HasKey(ms, k) {
      var i :| 0 <= i < |ms| && ms[i].key == k;
      assert ms[i] in r;
      var j :| 0 <= j < |r| && r[j] == ms[i];
      ValueAtIs(ms, i);
      ValueAtIs(r, j);
    }
  }
}
