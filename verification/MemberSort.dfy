/** Sorting the members of an object by key, with or without regard to case. */
module MemberSort {
  import opened JsonTree

  // ---------------------------------------------------------------- comparing keys

  /** strcmp(a, b) < 0. */
  predicate Less(a: string, b: string)
  {
    if b == "" then false
    else if a == "" then true
    else if a[0] != b[0] then a[0] < b[0]
    else Less(a[1..], b[1..])
  }

  lemma {:induction false} SameStart(a: string, b: string, n: int)
    requires 0 < n <= |a| && n <= |b| && a[..n] == b[..n]
    ensures a[0] == b[0]
  {
    assert a[..n][0] == b[..n][0];
  }

  /** strcmp's order: at the first difference the smaller character decides, and a proper prefix comes first. */
  lemma {:induction false} LessIs(a: string, b: string)
    ensures Less(a, b) <==>
      exists n :: 0 <= n <= |a| && n < |b| && a[..n] == b[..n] && (n == |a| || a[n] < b[n])
    decreases |a|
  {
    if a != "" && b != "" && a[0] == b[0] {
      LessIs(a[1..], b[1..]);
      if Less(a, b) {
        var n :| 0 <= n <= |a[1..]| && n < |b[1..]| && a[1..][..n] == b[1..][..n]
          && (n == |a[1..]| || a[1..][n] < b[1..][n]);
        assert a[..n + 1] == [a[0]] + a[1..][..n] && b[..n + 1] == [b[0]] + b[1..][..n];
      }
      if n :| 0 <= n <= |a| && n < |b| && a[..n] == b[..n] && (n == |a| || a[n] < b[n]) {
        assert n > 0;
        assert a[1..][..n - 1] == a[..n][1..] && b[1..][..n - 1] == b[..n][1..];
      }
    } else if b != "" {
      assert a[..0] == b[..0];
      if n :| 0 <= n <= |a| && n < |b| && a[..n] == b[..n] && (n == |a| || a[n] < b[n]) {
        if n > 0 { SameStart(a, b, n); }
      }
    }
  }

  lemma {:induction false} LessTotal(a: string, b: string)
    ensures Less(a, b) ==> a != b && !Less(b, a)
    ensures a != b ==> Less(a, b) || Less(b, a)
    decreases |a|
  {
    if a != "" && b != "" {
      LessTotal(a[1..], b[1..]);
      assert a == [a[0]] + a[1..] && b == [b[0]] + b[1..];
    }
  }

  lemma {:induction false} LessTransitive(a: string, b: string, c: string)
    requires Less(a, b) && Less(b, c)
    ensures Less(a, c)
    decreases |a|
  {
    if a != "" && a[0] == b[0] == c[0] {
      LessTransitive(a[1..], b[1..], c[1..]);
    }
  }

  function Lower(c: char): char
  {
    if 'A' <= c <= 'Z' then c - 'A' + 'a' else c
  }

  function Fold(s: string): (r: string)
    ensures |r| == |s|
  {
    if s == "" then "" else [Lower(s[0])] + Fold(s[1..])
  }

  const UPPER_LETTERS := "ABCDEFGHIJKLMNOPQRSTUVWXYZ"
  const LOWER_LETTERS := "abcdefghijklmnopqrstuvwxyz"

  predicate CasesOf(i: nat, c: char, d: char)
    requires i < 26
  {
    (c == UPPER_LETTERS[i] && d == LOWER_LETTERS[i]) || (c == LOWER_LETTERS[i] && d == UPPER_LETTERS[i])
  }

  /** The two cases of one of the 26 letters. */
  predicate CasePair(c: char, d: char)
  {
    exists i :: 0 <= i < 26 && CasesOf(i, c, d)
  }

  /** Two keys that differ in the case of letters only. */
  predicate Variant(a: string, b: string)
  {
    |a| == |b| && forall i :: 0 <= i < |a| ==> a[i] == b[i] || CasePair(a[i], b[i])
  }

  lemma {:induction false} LetterAt(i: nat)
    requires i < 26
    ensures UPPER_LETTERS[i] as int == 'A' as int + i && LOWER_LETTERS[i] as int == 'a' as int + i
  {
    if i < 13 {
      assert i in {0, 1, 2, 3, 4, 5, 6, 7, 8, 9, 10, 11, 12};
    } else {
      assert i in {13, 14, 15, 16, 17, 18, 19, 20, 21, 22, 23, 24, 25};
    }
  }

  lemma {:induction false} CasesAre(i: nat, c: char, d: char)
    requires i < 26
    ensures var (u, l) := ('A' as int + i, 'a' as int + i);
      CasesOf(i, c, d) <==> (c as int == u && d as int == l) || (c as int == l && d as int == u)
  {
    LetterAt(i);
  }

  lemma {:induction false} LowerExactly(c: char, d: char)
    ensures Lower(c) == Lower(d) <==> c == d || CasePair(c, d)
  {
    hide CasesOf;
    if Lower(c) == Lower(d) && c != d {
      var i := Lower(c) as int - 'a' as int;
      CasesAre(i, c, d);
      assert CasesOf(i, c, d);
    }
    if CasePair(c, d) {
      var i :| 0 <= i < 26 && CasesOf(i, c, d);
      CasesAre(i, c, d);
    }
  }

  /** The keys that count as the same without regard to case are exactly the variants of each other. */
  lemma {:induction false} FoldExactly(a: string, b: string)
    ensures Fold(a) == Fold(b) <==> Variant(a, b)
    decreases |a|
  {
    hide Lower, CasePair;
    if a != "" && b != "" {
      LowerExactly(a[0], b[0]);
      FoldExactly(a[1..], b[1..]);
      assert Fold(a)[1..] == Fold(a[1..]) && Fold(b)[1..] == Fold(b[1..]);
      if Variant(a, b) {
        assert forall i :: 0 <= i < |a[1..]| ==> a[1..][i] == a[i + 1] && b[1..][i] == b[i + 1];
      }
      if Variant(a[1..], b[1..]) {
        assert forall i :: 0 < i < |a| ==> a[i] == a[1..][i - 1] && b[i] == b[1..][i - 1];
      }
    }
  }

  predicate SameKey(a: string, b: string, cs: bool)
  {
    if cs then a == b else Fold(a) == Fold(b)
  }

  predicate Before(a: string, b: string, cs: bool)
  {
    if cs then Less(a, b) else Less(Fold(a), Fold(b))
  }

  lemma {:induction false} BeforeTotal(a: string, b: string, cs: bool)
    ensures Before(a, b, cs) ==> !SameKey(a, b, cs) && !Before(b, a, cs)
    ensures !SameKey(a, b, cs) ==> a != b && (Before(a, b, cs) || Before(b, a, cs))
  {
    LessTotal(a, b);
    LessTotal(Fold(a), Fold(b));
  }

  lemma {:induction false} BeforeTransitive(a: string, b: string, c: string, cs: bool)
    requires Before(a, b, cs) && Before(b, c, cs)
    ensures Before(a, c, cs)
  {
    hide Less, Fold;
    if cs { LessTransitive(a, b, c); } else { LessTransitive(Fold(a), Fold(b), Fold(c)); }
  }

  // ---------------------------------------------------------------- sorted lists

  predicate KeysApart(ms: seq<Member>, cs: bool)
  {
    forall i, j :: 0 <= i < j < |ms| ==> !SameKey(ms[i].key, ms[j].key, cs)
  }

  lemma {:induction false} ApartDistinct(ms: seq<Member>, cs: bool)
    ensures KeysApart(ms, cs) ==> DistinctKeys(ms)
    ensures cs && DistinctKeys(ms) ==> KeysApart(ms, cs)
  {
    hide Fold;
  }

  predicate SortedKeys(ms: seq<Member>, cs: bool)
  {
    forall i, j :: 0 <= i < j < |ms| ==> Before(ms[i].key, ms[j].key, cs)
  }

  predicate Rising(ms: seq<Member>, cs: bool)
  {
    forall i :: 0 <= i < |ms| - 1 ==> Before(ms[i].key, ms[i + 1].key, cs)
  }

  lemma {:induction false} RisingSorted(ms: seq<Member>, cs: bool)
    requires Rising(ms, cs)
    ensures SortedKeys(ms, cs)
    decreases |ms|
  {
    hide Before;
    if ms != [] {
      RisingSorted(ms[1..], cs);
      forall j | 0 < j < |ms|
        ensures Before(ms[0].key, ms[j].key, cs)
      {
        if j > 1 {
          assert ms[1..][0] == ms[1] && ms[1..][j - 1] == ms[j];
          BeforeTransitive(ms[0].key, ms[1].key, ms[j].key, cs);
        }
      }
      forall i, j | 0 < i < j < |ms|
        ensures Before(ms[i].key, ms[j].key, cs)
      {
        assert ms[1..][i - 1] == ms[i] && ms[1..][j - 1] == ms[j];
      }
    }
  }

  // ---------------------------------------------------------------- merge sort

  /** Takes from the second list on ties, as the source does. */
  function MergeLists(a: seq<Member>, b: seq<Member>, cs: bool): (r: seq<Member>)
    ensures multiset(r) == multiset(a) + multiset(b)
    decreases |a| + |b|
  {
    if a == [] then b
    else if b == [] then a
    else if Before(a[0].key, b[0].key, cs) then
      assert a == [a[0]] + a[1..];
      [a[0]] + MergeLists(a[1..], b, cs)
    else
      assert b == [b[0]] + b[1..];
      [b[0]] + MergeLists(a, b[1..], cs)
  }

  /** The merge sort of the source: a rising list is left alone, the middle is found by two walking pointers. */
  function SortList(ms: seq<Member>, cs: bool): (r: seq<Member>)
    ensures multiset(r) == multiset(ms)
    decreases |ms|
  {
    if |ms| <= 1 || Rising(ms, cs) then ms
    else
      var mid := (|ms| + 1) / 2;
      assert ms == ms[..mid] + ms[mid..];
      MergeLists(SortList(ms[..mid], cs), SortList(ms[mid..], cs), cs)
  }

  lemma {:induction false} SameElements(a: seq<Member>, b: seq<Member>)
    requires multiset(a) == multiset(b)
    ensures forall m :: m in a <==> m in b
    ensures |a| == |b|
  {
    assert |multiset(a)| == |a| && |multiset(b)| == |b|;
    forall m
      ensures m in a <==> m in b
    {
      assert m in a <==> m in multiset(a);
    }
  }

  /** A head that is before everything else keeps a sorted list sorted. */
  lemma {:induction false} SortedCons(h: Member, t: seq<Member>, cs: bool)
    requires SortedKeys(t, cs) && forall m :: m in t ==> Before(h.key, m.key, cs)
    ensures SortedKeys([h] + t, cs)
  {
    hide Before;
  }

  lemma {:induction false} MergeSorted(a: seq<Member>, b: seq<Member>, cs: bool)
    requires SortedKeys(a, cs) && SortedKeys(b, cs)
    requires forall x, y :: x in a && y in b ==> !SameKey(x.key, y.key, cs)
    ensures SortedKeys(MergeLists(a, b, cs), cs)
    decreases |a| + |b|
  {
    hide Before, SameKey;
    if a != [] && b != [] {
      var h, a', b' := a[0], a, b;
      assert a[0] in a && b[0] in b;
      BeforeTotal(a[0].key, b[0].key, cs);
      if Before(a[0].key, b[0].key, cs) {
        a' := a[1..];
      } else {
        h, b' := b[0], b[1..];
      }
      MergeSorted(a', b', cs);
      var t := MergeLists(a', b', cs);
      forall m | m in t
        ensures Before(h.key, m.key, cs)
      {
        assert m in multiset(t);
        assert m in a' || m in b';
        HeadBelow(a, b, h, m, cs);
      }
      SortedCons(h, t, cs);
    }
  }

  lemma {:induction false} HeadBelow(a: seq<Member>, b: seq<Member>, h: Member, m: Member, cs: bool)
    requires SortedKeys(a, cs) && SortedKeys(b, cs) && a != [] && b != []
    requires if Before(a[0].key, b[0].key, cs) then h == a[0] && (m in a[1..] || m in b)
             else Before(b[0].key, a[0].key, cs) && h == b[0] && (m in a || m in b[1..])
    ensures Before(h.key, m.key, cs)
  {
    hide Before;
    if m in a && m != a[0] {
      var i :| 0 <= i < |a| && a[i] == m;
      if h == b[0] && h != a[0] { BeforeTransitive(h.key, a[0].key, m.key, cs); }
    }
    if m in b && m != b[0] {
      var i :| 0 <= i < |b| && b[i] == m;
      if h == a[0] && Before(a[0].key, b[0].key, cs) { BeforeTransitive(h.key, b[0].key, m.key, cs); }
    }
  }

  lemma {:induction false} SortSorts(ms: seq<Member>, cs: bool)
    requires KeysApart(ms, cs)
    ensures SortedKeys(SortList(ms, cs), cs)
    decreases |ms|
  {
    hide Before, SameKey;
    if |ms| <= 1 || Rising(ms, cs) {
      RisingSorted(ms, cs);
    } else {
      var mid := (|ms| + 1) / 2;
      var a, b := ms[..mid], ms[mid..];
      SortSorts(a, cs);
      SortSorts(b, cs);
      SameElements(SortList(a, cs), a);
      SameElements(SortList(b, cs), b);
      MergeSorted(SortList(a, cs), SortList(b, cs), cs);
    }
  }

  lemma {:induction false} SortedDistinct(ms: seq<Member>, cs: bool)
    requires SortedKeys(ms, cs)
    ensures KeysApart(ms, cs) && DistinctKeys(ms)
  {
    hide Before, SameKey;
    forall i, j | 0 <= i < j < |ms|
      ensures !SameKey(ms[i].key, ms[j].key, cs) && ms[i].key != ms[j].key
    {
      BeforeTotal(ms[i].key, ms[j].key, cs);
    }
  }

  /** Sorting changes neither the members nor the meaning. */
  lemma {:induction false} SortKeeps(ms: seq<Member>, cs: bool)
    requires KeysApart(ms, cs)
    ensures var r := SortList(ms, cs);
      SortedKeys(r, cs) && DistinctKeys(r) && AbsMembers(r) == AbsMembers(ms) && (forall m :: m in r <==> m in ms)
    ensures TidyMembers(ms) ==> TidyMembers(SortList(ms, cs))
  {
    var r := SortList(ms, cs);
    SortSorts(ms, cs);
    SortedDistinct(r, cs);
    SameElements(r, ms);
    ApartDistinct(ms, cs);
    hide SortList, SortedKeys, KeysApart;
    forall i | 0 <= i < |r|
      ensures r[i].key in AbsMembers(ms) && AbsMembers(ms)[r[i].key] == Abs(r[i].value)
      ensures TidyMembers(ms) ==> Tidy(r[i].value)
    {
      assert r[i] in ms;
      var j :| 0 <= j < |ms| && ms[j] == r[i];
      AbsMembersAt(ms, j);
      if TidyMembers(ms) {
        TidyMemberAt(ms, j);
      }
    }
    forall k | k in AbsMembers(ms)
      ensures HasKey(r, k)
    {
      AbsMembersHas(ms, k);
      var j :| 0 <= j < |ms| && ms[j].key == k;
      assert ms[j] in r;
      var i :| 0 <= i < |r| && r[i] == ms[j];
    }
    AbsMembersIs(r, AbsMembers(ms));
    if TidyMembers(ms) {
      TidyMembersIs(r);
    }
  }

  // ---------------------------------------------------------------- two orders that agree

  /** Byte order and the order of the variant place the keys alike; then no two of them are equal up to case. */
  predicate OrdersAgree(keys: set<string>, cs: bool)
  {
    forall k, l :: k in keys && l in keys ==> (Less(k, l) <==> Before(k, l, cs))
  }

  lemma {:induction false} AgreeApart(keys: set<string>, cs: bool)
    requires OrdersAgree(keys, cs)
    ensures forall k, l :: k in keys && l in keys && SameKey(k, l, cs) ==> k == l
  {
    hide Less, Fold;
    forall k, l | k in keys && l in keys && SameKey(k, l, cs)
      ensures k == l
    {
      LessTotal(k, l);
      BeforeTotal(k, l, cs);
      BeforeTotal(l, k, cs);
    }
  }

  lemma {:induction false} MergeListsAgree(a: seq<Member>, b: seq<Member>, cs: bool)
    requires OrdersAgree(Keys(a + b), cs)
    ensures MergeLists(a, b, cs) == MergeLists(a, b, true)
    decreases |a| + |b|
  {
    hide Less, Fold;
    if a != [] && b != [] {
      assert a[0] in a + b && b[0] in a + b;
      assert forall m :: m in a[1..] + b ==> m in a + b;
      assert forall m :: m in a + b[1..] ==> m in a + b;
      if Before(a[0].key, b[0].key, cs) { MergeListsAgree(a[1..], b, cs); } else { MergeListsAgree(a, b[1..], cs); }
    }
  }

  lemma {:induction false} RisingAgree(ms: seq<Member>, cs: bool)
    requires OrdersAgree(Keys(ms), cs)
    ensures Rising(ms, cs) <==> Rising(ms, true)
  {
    hide Less, Fold;
    assert forall i :: 0 <= i < |ms| ==> ms[i] in ms;
  }

  /** Where the orders agree both variants sort alike. */
  lemma {:induction false} SortListIs(ms: seq<Member>, cs: bool)
    requires OrdersAgree(Keys(ms), cs)
    ensures SortList(ms, cs) == SortList(ms, true)
    decreases |ms|
  {
    hide Before, MergeLists, Rising;
    RisingAgree(ms, cs);
    if |ms| > 1 && !Rising(ms, cs) {
      var mid := (|ms| + 1) / 2;
      var a, b := ms[..mid], ms[mid..];
      assert Keys(a) <= Keys(ms) && Keys(b) <= Keys(ms);
      SortListIs(a, cs);
      SortListIs(b, cs);
      SameElements(SortList(a, true), a);
      SameElements(SortList(b, true), b);
      assert Keys(SortList(a, true) + SortList(b, true)) <= Keys(ms);
      MergeListsAgree(SortList(a, true), SortList(b, true), cs);
    }
  }
}
