/** JSON Pointer (RFC 6901, sections 3 and 4): escaping, token comparison, array indices and lookup. */
module JsonPointer {
  import opened CStrings
  import opened Options
  import opened Decimals
  import opened JsonTree

  /** `p` is at the end of a token: the string ends or the next token begins. */
  predicate TokenEnd(p: string)
  {
    p == "" || p[0] == '/'
  }

  // ---------------------------------------------------------------- escaping

  function Encode(k: string): string
  {
    if k == "" then ""
    else if k[0] == '/' then "~1" + Encode(k[1..])
    else if k[0] == '~' then "~0" + Encode(k[1..])
    else [k[0]] + Encode(k[1..])
  }

  lemma {:induction false} EncodeNoSlash(k: string)
    ensures '/' !in Encode(k) && |Encode(k)| >= |k|
    decreases |k|
  {
    if k != "" {
      EncodeNoSlash(k[1..]);
    }
  }

  lemma {:induction false} EncodeConcat(a: string, b: string)
    ensures Encode(a + b) == Encode(a) + Encode(b)
    decreases |a|
  {
    if a == "" {
      assert a + b == b;
    } else {
      assert (a + b)[1..] == a[1..] + b;
      EncodeConcat(a[1..], b);
    }
  }

  /** Compares a key with the token at the front of a pointer, undoing the escapes on the way (case-sensitive). */
  predicate ComparePointers(name: string, p: string)
    decreases |p|
  {
    if name == "" || TokenEnd(p) then
      (p != "" && p[0] != '/') == (name != "")
    else if p[0] == '~' then
      if (At(p, 1) != '0' || name[0] != '~') && (At(p, 1) != '1' || name[0] != '/') then false
      else if |p| >= 2 then ComparePointers(name[1..], p[2..]) else false
    else
      name[0] == p[0] && ComparePointers(name[1..], p[1..])
  }

  /** A key is recognised by exactly its own escaped form. */
  lemma {:induction false} CompareEncoded(name: string, k: string, rest: string)
    requires TokenEnd(rest)
    ensures ComparePointers(name, Encode(k) + rest) <==> name == k
    decreases |k|
  {
    var p := Encode(k) + rest;
    if k == "" {
      assert p == rest;
    } else if name != "" {
      var esc := if k[0] == '/' || k[0] == '~' then 2 else 1;
      assert p[esc..] == Encode(k[1..]) + rest;
      CompareEncoded(name[1..], k[1..], rest);
      assert name == k <==> name[0] == k[0] && name[1..] == k[1..] by {
        assert name == [name[0]] + name[1..] && k == [k[0]] + k[1..];
      }
    }
  }

  /** Drops the token at the front. */
  function Skip(p: string): (r: string)
    ensures TokenEnd(r) && |r| <= |p|
    decreases |p|
  {
    if TokenEnd(p) then p else Skip(p[1..])
  }

  lemma {:induction false} SkipToken(tok: string, rest: string)
    requires '/' !in tok && TokenEnd(rest)
    ensures Skip(tok + rest) == rest
    decreases |tok|
  {
    if tok == "" {
      assert tok + rest == rest;
    } else {
      assert (tok + rest)[1..] == tok[1..] + rest;
      SkipToken(tok[1..], rest);
    }
  }

  // ---------------------------------------------------------------- array indices

  /** The digit loop as the source has it: the upper bound is checked on the first character only. */
  function ScanIndex(p: string, i: nat, acc: int): (int, nat)
    requires i <= |p|
    decreases |p| - i
  {
    if i < |p| && p[i] >= '0' && p[0] <= '9' then ScanIndex(p, i + 1, 10 * acc + (p[i] as int - '0' as int))
    else (acc, i)
  }

  lemma {:induction false} ScanIndexBounds(p: string, i: nat, acc: int)
    requires i <= |p| && acc >= 0
    ensures ScanIndex(p, i, acc).0 >= 0 && i <= ScanIndex(p, i, acc).1 <= |p|
    decreases |p| - i
  {
    if i < |p| && p[i] >= '0' && p[0] <= '9' {
      ScanIndexBounds(p, i + 1, 10 * acc + (p[i] as int - '0' as int));
    }
  }

  function DecodeIndex(p: string): (r: Option<nat>)
  {
    ScanIndexBounds(p, 0, 0);
    if At(p, 0) == '0' && At(p, 1) != '\0' && At(p, 1) != '/' then None
    else
      var (n, i) := ScanIndex(p, 0, 0);
      if At(p, i) != '\0' && At(p, i) != '/' then None else Some(n)
  }

  lemma {:induction false} ScanDecimal(n: nat, s: string, i: nat)
    requires i <= |s| && s[..i] == Decimal(n) && Digits(s[..i])
    ensures ScanIndex(s, 0, 0) == ScanIndex(s, i, n)
  {
    var d := s[..i];
    assert d[0] == s[0];
    assert s[0] <= '9';
    if n < 10 {
      assert d == [Digit(n)];
      assert s[0] == Digit(n) && i == 1;
    } else {
      var j := i - 1;
      assert d == Decimal(n / 10) + [Digit(n % 10)];
      assert s[..j] == Decimal(n / 10);
      assert Digits(s[..j]) by { assert forall k :: 0 <= k < j ==> s[..j][k] == d[k]; }
      ScanDecimal(n / 10, s, j);
      assert s[j] == d[j] == Digit(n % 10);
      assert 10 * (n / 10) + n % 10 == n;
    }
  }

  /** Decoding a printed index, alone or with another token after it, gives the index back. */
  lemma {:induction false} DecodeDecimal(n: nat, rest: string)
    requires TokenEnd(rest)
    ensures DecodeIndex(Decimal(n) + rest) == Some(n)
  {
    var d := Decimal(n);
    var p := d + rest;
    DecimalDigits(n);
    assert p[..|d|] == d;
    assert forall i :: 0 <= i < |d| ==> p[i] == d[i];
    ScanDecimal(n, p, |d|);
    assert ScanIndex(p, |d|, n) == (n, |d|);
    if n == 0 {
      assert At(p, 1) == if rest == "" then '\0' else '/';
    } else {
      assert p[0] == d[0];
    }
  }

  // ---------------------------------------------------------------- exactly which tokens are indices

  /** The token at the front of a pointer. */
  predicate IsToken(p: string, t: string)
  {
    |t| <= |p| && p[..|t|] == t && '/' !in t && TokenEnd(p[|t|..])
  }

  /** No leading zero; a first character up to `9`, and none below `0`. What follows the first may lie above `9`. */
  predicate IndexToken(t: string)
  {
    (t != "" ==> t[0] <= '9') && (|t| > 1 ==> t[0] != '0') && forall i :: 0 <= i < |t| ==> t[i] >= '0'
  }

  /** The last character counts ones, the one before it tens, and so on. */
  function IndexValue(t: string): int
  {
    if t == "" then 0 else 10 * IndexValue(t[..|t| - 1]) + (t[|t| - 1] as int - '0' as int)
  }

  lemma {:induction false} IndexValueSign(t: string)
    requires forall i :: 0 <= i < |t| ==> t[i] >= '0'
    ensures IndexValue(t) >= 0
    decreases |t|
  {
    if t != "" { IndexValueSign(t[..|t| - 1]); }
  }

  lemma {:induction false} ScanRun(p: string, t: string, i: nat, e: nat)
    requires IsToken(p, t) && i <= e <= |t| && t != "" && t[0] <= '9'
    requires (forall j :: i <= j < e ==> t[j] >= '0') && (e < |t| ==> t[e] < '0')
    ensures ScanIndex(p, i, IndexValue(t[..i])) == (IndexValue(t[..e]), e)
    decreases e - i
  {
    assert p[0] == p[..|t|][0] == t[0];
    if i < e {
      assert p[i] == p[..|t|][i] == t[i];
      assert t[..i + 1][..i] == t[..i];
      ScanRun(p, t, i + 1, e);
    } else if e < |t| {
      assert p[e] == p[..|t|][e] == t[e];
    } else if e < |p| {
      assert p[e] == p[|t|..][0];
    }
  }

  function RunEnd(t: string, i: nat): (e: nat)
    requires i <= |t|
    ensures i <= e <= |t| && (forall j :: i <= j < e ==> t[j] >= '0') && (e < |t| ==> t[e] < '0')
    decreases |t| - i
  {
    if i < |t| && t[i] >= '0' then RunEnd(t, i + 1) else i
  }

  /** What decoding gives for every token: its value if it is an index, and nothing otherwise. */
  lemma {:induction false} IndexExactly(p: string, t: string)
    requires IsToken(p, t) && '\0' !in p
    ensures DecodeIndex(p) == if IndexToken(t) then Some(IndexValue(t)) else None
  {
    hide IndexValue;
    NoIndexValue();
    if IndexToken(t) { IndexValueSign(t); }
    if t == "" {
      if p != "" { assert p[0] == p[0..][0]; }
    } else {
      assert p[0] == p[..|t|][0] == t[0];
      if |t| > 1 { assert p[1] == p[..|t|][1] == t[1]; } else if |p| > 1 { assert p[1] == p[1..][0]; }
      if t[0] <= '9' {
        var e := RunEnd(t, 0);
        assert t[..0] == "";
        ScanRun(p, t, 0, e);
        if e < |t| { assert p[e] == p[..|t|][e]; } else { assert t[..e] == t; }
        if |t| < |p| { assert p[|t|] == p[|t|..][0]; }
      }
    }
  }

  lemma {:induction false} NoIndexValue()
    ensures IndexValue("") == 0
  {
  }

  lemma {:induction false} DigitsPlain(s: string)
    requires Digits(s)
    ensures Encode(s) == s && '/' !in s && '~' !in s
    decreases |s|
  {
    if s != "" {
      assert Digits(s[1..]);
      DigitsPlain(s[1..]);
      assert s == [s[0]] + s[1..];
    }
  }

  // ---------------------------------------------------------------- lookup

  /** The child the token at the front of `p` selects: its position, if there is one. */
  function Child(j: Json, p: string): (r: Option<nat>)
    ensures r.Some? ==> (j.Array? && r.value < |j.items|) || (j.Object? && r.value < |j.members|)
  {
    match j
    case Array(items) =>
      (match DecodeIndex(p)
       case Some(n) => if n < |items| then Some(n) else None
       case None => None)
    case Object(ms) =>
      var i := FirstMatch(ms, p);
      if i < |ms| then Some(i) else None
    case _ => None
  }

  /** The first member whose key compares equal with the token. */
  function FirstMatch(ms: seq<Member>, p: string): (i: nat)
    ensures i <= |ms|
    ensures i < |ms| ==> ComparePointers(ms[i].key, p)
    ensures forall j :: 0 <= j < i ==> !ComparePointers(ms[j].key, p)
  {
    if ms == [] then 0 else if ComparePointers(ms[0].key, p) then 0 else 1 + FirstMatch(ms[1..], p)
  }

  function ChildAt(j: Json, i: nat): (c: Json)
    requires (j.Array? && i < |j.items|) || (j.Object? && i < |j.members|)
    ensures c < j
  {
    if j.Array? then j.items[i] else j.members[i].value
  }

  /** Follows a pointer from a value; text that does not begin with a slash is not followed. */
  function GetItem(j: Json, p: string): Option<Json>
    decreases j
  {
    if At(p, 0) != '/' then Some(j)
    else
      match Child(j, p[1..])
      case None => None
      case Some(i) => GetItem(ChildAt(j, i), Skip(p[1..]))
  }

  /** A position in a value: which child to take at each level. */
  type Location = seq<nat>

  predicate IsLocation(j: Json, loc: Location)
    decreases j
  {
    loc == [] ||
    (((j.Array? && loc[0] < |j.items|) || (j.Object? && loc[0] < |j.members|))
      && IsLocation(ChildAt(j, loc[0]), loc[1..]))
  }

  /** The token that names a child. */
  function Token(j: Json, i: nat): string
    requires (j.Array? && i < |j.items|) || (j.Object? && i < |j.members|)
  {
    if j.Array? then Decimal(i) else Encode(j.members[i].key)
  }

  /** The pointer the source builds for the node at a position. */
  function PointerTo(j: Json, loc: Location): string
    requires IsLocation(j, loc)
    decreases j
  {
    if loc == [] then ""
    else
      "/" + Token(j, loc[0]) + PointerTo(ChildAt(j, loc[0]), loc[1..])
  }

  /** Where a pointer leads, as a position. */
  function Locate(j: Json, p: string): Option<Location>
    decreases j
  {
    if At(p, 0) != '/' then Some([])
    else
      match Child(j, p[1..])
      case None => None
      case Some(i) =>
        match Locate(ChildAt(j, i), Skip(p[1..]))
        case None => None
        case Some(rest) => Some([i] + rest)
  }

  lemma {:induction false} MemberChosen(ms: seq<Member>, i: nat, rest: string)
    requires DistinctKeys(ms) && i < |ms| && TokenEnd(rest)
    ensures Child(Object(ms), Encode(ms[i].key) + rest) == Some(i)
  {
    var p := Encode(ms[i].key) + rest;
    var f := FirstMatch(ms, p);
    CompareEncoded(ms[i].key, ms[i].key, rest);
    if f < |ms| {
      CompareEncoded(ms[f].key, ms[i].key, rest);
    }
  }

  lemma {:induction false} ItemChosen(items: seq<Json>, i: nat, rest: string)
    requires i < |items| && TokenEnd(rest)
    ensures Child(Array(items), Decimal(i) + rest) == Some(i)
  {
    DecodeDecimal(i, rest);
  }

  lemma {:induction false} PointerToEnds(j: Json, loc: Location)
    requires IsLocation(j, loc)
    ensures TokenEnd(PointerTo(j, loc))
  {
  }

  /** A child's token leads to it, whatever follows. */
  lemma {:induction false} ChildChosen(j: Json, i: nat, rest: string)
    requires Tidy(j) && ((j.Array? && i < |j.items|) || (j.Object? && i < |j.members|)) && TokenEnd(rest)
    ensures Child(j, Token(j, i) + rest) == Some(i) && '/' !in Token(j, i) && Tidy(ChildAt(j, i))
  {
    hide Decimal, Encode, TidyItems, TidyMembers, Child, TokenEnd;
    if j.Array? {
      ItemChosen(j.items, i, rest);
      DecimalDigits(i);
      DigitsPlain(Decimal(i));
      TidyItemAt(j.items, i);
    } else {
      MemberChosen(j.members, i, rest);
      EncodeNoSlash(j.members[i].key);
      TidyMemberAt(j.members, i);
    }
  }

  lemma {:induction false} LocateStep(j: Json, tok: string, rest: string, i: nat)
    requires Child(j, tok + rest) == Some(i) && Skip(tok + rest) == rest
    ensures Locate(j, "/" + tok + rest) ==
      match Locate(ChildAt(j, i), rest) case None => None case Some(more) => Some([i] + more)
  {
    hide Child, Skip;
    var p := "/" + tok + rest;
    assert p[1..] == tok + rest && p[0] == '/';
  }

  /** The pointer built for a node leads back to exactly that node, whatever characters the keys contain. */
  lemma {:induction false} PointerRoundTrip(j: Json, loc: Location)
    requires Tidy(j) && IsLocation(j, loc)
    ensures Locate(j, PointerTo(j, loc)) == Some(loc)
    decreases |loc|
  {
    hide Token, Locate, Tidy, Skip, Child, TokenEnd;
    if loc == [] {
      EmptyPointer(j);
    } else {
      var i, c := loc[0], ChildAt(j, loc[0]);
      var rest := PointerTo(c, loc[1..]);
      PointerToEnds(c, loc[1..]);
      ChildChosen(j, i, rest);
      SkipToken(Token(j, i), rest);
      LocateStep(j, Token(j, i), rest, i);
      PointerRoundTrip(c, loc[1..]);
      assert loc == [i] + loc[1..];
    }
  }

  lemma {:induction false} EmptyPointer(j: Json)
    ensures Locate(j, "") == Some([])
  {
  }
}
