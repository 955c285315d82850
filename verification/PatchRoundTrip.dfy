/**
 Applying the patches generated from two values to (any reordering of) the first yields the second, up to member
 order.
 */
module PatchRoundTrip {
  import opened Options
  import opened Decimals
  import opened JsonTree
  import opened MemberSort
  import opened JsonPointer
  import opened PatchKeys
  import opened JsonPatch

  // ---------------------------------------------------------------- paths with a common front

  function Shift(a: string, ps: seq<Patch>): (r: seq<Patch>)
    ensures |r| == |ps| && forall i :: 0 <= i < |r| ==> r[i] == Patch(ps[i].op, a + ps[i].path, ps[i].value)
  {
    seq(|ps|, i requires 0 <= i < |ps| => Patch(ps[i].op, a + ps[i].path, ps[i].value))
  }

  lemma {:induction false} ShiftConcat(a: string, p: seq<Patch>, q: seq<Patch>)
    ensures Shift(a, p + q) == Shift(a, p) + Shift(a, q)
  {
  }

  lemma {:induction false} Assoc(a: string, b: string, c: string)
    ensures (a + b) + c == a + (b + c)
  {
  }

  /** The generator only ever extends the path it is given. */
  lemma {:induction false} CreateShift(a: string, b: string, f: Json, t: Json)
    ensures Create(a + b, f, t) == Shift(a, Create(b, f, t))
    decreases f, 1, 0
  {
    if SameType(f, t) {
      if f.Array? {
        CreateItemsShift(a, b, f.items, t.items, 0);
      } else if f.Object? {
        SameElements(SortList(f.members, true), f.members);
        CreateMembersShift(a, b, f.members, SortList(f.members, true), SortList(t.members, true));
      }
    }
  }

  lemma {:induction false} CreateItemsShift(a: string, b: string, fi: seq<Json>, ti: seq<Json>, i: nat)
    requires i <= |fi| && i <= |ti|
    ensures CreateItems(a + b, fi, ti, i) == Shift(a, CreateItems(b, fi, ti, i))
    decreases fi, 0, |fi| - i
  {
    if i < |fi| && i < |ti| {
      var tok := "/" + Decimal(i);
      Assoc(a, b, tok);
      CreateShift(a, b + tok, fi[i], ti[i]);
      CreateItemsShift(a, b, fi, ti, i + 1);
      ShiftConcat(a, Create(b + tok, fi[i], ti[i]), CreateItems(b, fi, ti, i + 1));
    } else if i < |fi| {
      RemovalsShift(a, b, i, |fi| - i);
    } else {
      AdditionsShift(a, b, ti[i..]);
    }
  }

  lemma {:induction false} RemovalsShift(a: string, b: string, i: nat, count: nat)
    ensures Removals(a + b, i, count) == Shift(a, Removals(b, i, count))
    decreases count
  {
    if count > 0 {
      RemovalsShift(a, b, i, count - 1);
      Assoc(a, b, "/" + Encode(Decimal(i)));
      ShiftConcat(a, [Suffixed("remove", b, Decimal(i), None)], Removals(b, i, count - 1));
    }
  }

  lemma {:induction false} AdditionsShift(a: string, b: string, to: seq<Json>)
    ensures Additions(a + b, to) == Shift(a, Additions(b, to))
    decreases |to|
  {
    if to != [] {
      AdditionsShift(a, b, to[1..]);
      Assoc(a, b, "/" + Encode("-"));
      ShiftConcat(a, [Suffixed("add", b, "-", Some(to[0]))], Additions(b, to[1..]));
    }
  }

  lemma {:induction false} CreateMembersShift(a: string, b: string, all: seq<Member>, fs: seq<Member>, ts: seq<Member>)
    requires forall m :: m in fs ==> m in all
    ensures CreateMembers(a + b, all, fs, ts) == Shift(a, CreateMembers(b, all, fs, ts))
    decreases all, 0, |fs| + |ts|
  {
    hide Create, Encode;
    if fs == [] && ts == [] {
    } else if fs != [] && ts != [] && fs[0].key == ts[0].key {
      assert fs[0] in all;
      var tok := "/" + Encode(fs[0].key);
      Assoc(a, b, tok);
      CreateShift(a, b + tok, fs[0].value, ts[0].value);
      CreateMembersShift(a, b, all, fs[1..], ts[1..]);
      ShiftConcat(a, Create(b + tok, fs[0].value, ts[0].value), CreateMembers(b, all, fs[1..], ts[1..]));
    } else if ts == [] || (fs != [] && Less(fs[0].key, ts[0].key)) {
      CreateMembersShift(a, b, all, fs[1..], ts);
      Assoc(a, b, "/" + Encode(fs[0].key));
      ShiftConcat(a, [Suffixed("remove", b, fs[0].key, None)], CreateMembers(b, all, fs[1..], ts));
    } else {
      CreateMembersShift(a, b, all, fs, ts[1..]);
      Assoc(a, b, "/" + Encode(ts[0].key));
      ShiftConcat(a, [Suffixed("add", b, ts[0].key, Some(ts[0].value))], CreateMembers(b, all, fs, ts[1..]));
    }
  }

  // ---------------------------------------------------------------- the shape of what is generated

  /** The whole value is replaced, by one patch. */
  predicate Replaced(f: Json, t: Json)
  {
    !SameType(f, t) || (f.Number? && f.n != t.n) || (f.String? && f.s != t.s)
  }

  predicate Inside(p: Patch) { Generated(p) && p.path != "" && p.path[0] == '/' }

  predicate AllInside(ps: seq<Patch>)
  {
    forall i :: 0 <= i < |ps| ==> Inside(ps[i])
  }

  lemma {:induction false} CreateShape(f: Json, t: Json)
    ensures if Replaced(f, t) then Create("", f, t) == [Patch("replace", "", Some(t))] else AllInside(Create("", f, t))
    decreases f, 1, 0
  {
    if !Replaced(f, t) {
      if f.Array? {
        ItemsShape(f.items, t.items, 0);
      } else if f.Object? {
        SameElements(SortList(f.members, true), f.members);
        MembersShape(f.members, SortList(f.members, true), SortList(t.members, true));
      }
    }
  }

  /** Patches for a child are patches inside the parent. */
  lemma {:induction false} ChildShape(tok: string, f: Json, t: Json)
    requires if Replaced(f, t) then Create("", f, t) == [Patch("replace", "", Some(t))] else AllInside(Create("", f, t))
    ensures Create("" + ("/" + tok), f, t) == Shift("/" + tok, Create("", f, t))
    ensures AllInside(Create("" + ("/" + tok), f, t))
  {
    CreateShift("/" + tok, "", f, t);
    assert "" + ("/" + tok) == ("/" + tok) + "";
  }

  lemma {:induction false} ItemsShape(fi: seq<Json>, ti: seq<Json>, i: nat)
    requires i <= |fi| && i <= |ti|
    ensures AllInside(CreateItems("", fi, ti, i))
    decreases fi, 0, |fi| - i
  {
    if i < |fi| && i < |ti| {
      CreateShape(fi[i], ti[i]);
      ChildShape(Decimal(i), fi[i], ti[i]);
      ItemsShape(fi, ti, i + 1);
    } else if i < |fi| {
      RemovalsShape(i, |fi| - i);
    } else {
      AdditionsShape(ti[i..]);
    }
  }

  lemma {:induction false} RemovalsShape(i: nat, count: nat)
    ensures AllInside(Removals("", i, count))
    decreases count
  {
    if count > 0 {
      RemovalsShape(i, count - 1);
    }
  }

  lemma {:induction false} AdditionsShape(to: seq<Json>)
    ensures AllInside(Additions("", to))
    decreases |to|
  {
    if to != [] {
      AdditionsShape(to[1..]);
    }
  }

  lemma {:induction false} MembersShape(all: seq<Member>, fs: seq<Member>, ts: seq<Member>)
    requires forall m :: m in fs ==> m in all
    ensures AllInside(CreateMembers("", all, fs, ts))
    decreases all, 0, |fs| + |ts|
  {
    hide Create, Replaced;
    if fs == [] && ts == [] {
    } else if fs != [] && ts != [] && fs[0].key == ts[0].key {
      assert fs[0] in all;
      CreateShape(fs[0].value, ts[0].value);
      ChildShape(Encode(fs[0].key), fs[0].value, ts[0].value);
      MembersShape(all, fs[1..], ts[1..]);
    } else if ts == [] || (fs != [] && Less(fs[0].key, ts[0].key)) {
      MembersShape(all, fs[1..], ts);
    } else {
      MembersShape(all, fs, ts[1..]);
    }
  }

  // ---------------------------------------------------------------- patches inside one child

  /** The token leads to child `i`, whatever follows it. */
  ghost predicate Leads(j: Json, tok: string, i: nat)
  {
    || (j.Array? && i < |j.items| && tok == Decimal(i))
    || (j.Object? && i < |j.members| && DistinctKeys(j.members) && tok == Encode(j.members[i].key))
  }

  lemma {:induction false} LeadsToChild(j: Json, tok: string, i: nat, rest: string)
    requires Leads(j, tok, i) && TokenEnd(rest)
    ensures Child(j, tok + rest) == Some(i) && Skip(tok + rest) == rest && '/' !in tok
  {
    if j.Array? {
      ItemChosen(j.items, i, rest);
      DecimalDigits(i);
      DigitsPlain(tok);
    } else {
      MemberChosen(j.members, i, rest);
      EncodeNoSlash(j.members[i].key);
    }
    SkipToken(tok, rest);
  }

  lemma {:induction false} LastSlashShift(tok: string, path: string)
    requires '/' in path
    ensures LastSlash("/" + tok + path) == 1 + |tok| + LastSlash(path)
  {
    var p := "/" + tok + path;
    var i, l := LastSlash(path), LastSlash(p);
    var n := 1 + |tok|;
    assert p[n..] == path;
    assert p[n + i] == path[i];
  }

  /** An edit below a child is that edit in the child. */
  lemma {:induction false} EditBelow(j: Json, tok: string, i: nat, rest: string, e: Edit)
    requires Leads(j, tok, i) && TokenEnd(rest)
    ensures EditAt(j, "/" + tok + rest, e) ==
      match EditAt(ChildAt(j, i), rest, e) case Failed(s) => Failed(s) case Done(c) => Done(SetChild(j, i, c))
  {
    LeadsToChild(j, tok, i, rest);
    assert ("/" + tok + rest)[1..] == tok + rest;
  }

  /** What an outcome at a child means for the parent. */
  function Lifted(j: Json, i: nat, o: Outcome): Outcome
    requires (j.Array? && i < |j.items|) || (j.Object? && i < |j.members|)
  {
    match o case Failed(s) => Failed(s) case Done(c) => Done(SetChild(j, i, c))
  }

  lemma {:induction false} SplitBelow(tok: string, path: string)
    requires path != "" && path[0] == '/'
    ensures var whole, l, n := "/" + tok + path, LastSlash(path), 1 + |tok|;
      && LastSlash(whole) == n + l && l < |path| && n + l < |whole|
      && whole[..n + l] == "/" + tok + path[..l] && whole[n + l + 1..] == path[l + 1..] && TokenEnd(path[..l])
  {
    var l := LastSlash(path);
    LastSlashShift(tok, path);
    if l > 0 {
      assert path[..l][0] == path[0];
    }
    var whole, n := "/" + tok + path, 1 + |tok|;
    assert whole[n..] == path;
    assert whole[..n + l] == "/" + tok + path[..l];
    assert whole[n + l + 1..] == path[l + 1..];
  }

  lemma {:induction false} DetachBelow(j: Json, tok: string, i: nat, path: string)
    requires Leads(j, tok, i) && path != "" && path[0] == '/'
    ensures DetachPath(j, "/" + tok + path) == Lifted(j, i, DetachPath(ChildAt(j, i), path))
  {
    hide EditAt, Encode, DecodeInPlace, LastSlash, SetChild;
    SplitBelow(tok, path);
    var l := LastSlash(path);
    EditBelow(j, tok, i, path[..l], Detach(DecodeInPlace(path[l + 1..])));
  }

  lemma {:induction false} AttachBelow(j: Json, tok: string, i: nat, path: string, v: Json)
    requires Leads(j, tok, i) && path != "" && path[0] == '/'
    ensures AttachPath(j, "/" + tok + path, v) == Lifted(j, i, AttachPath(ChildAt(j, i), path, v))
  {
    hide EditAt, Encode, DecodeInPlace, LastSlash, SetChild;
    SplitBelow(tok, path);
    var l := LastSlash(path);
    EditBelow(j, tok, i, path[..l], Attach(DecodeInPlace(path[l + 1..]), v));
  }

  /** One patch inside a child is that patch applied to the child. */
  lemma {:induction false} ApplyBelow(j: Json, tok: string, i: nat, p: Patch, c: Json)
    requires Leads(j, tok, i) && Inside(p) && Apply(ChildAt(j, i), p) == (0, c)
    ensures Apply(j, Patch(p.op, "/" + tok + p.path, p.value)) == (0, SetChild(j, i, c))
    ensures Leads(SetChild(j, i, c), tok, i) && ChildAt(SetChild(j, i, c), i) == c
  {
    hide DetachPath, AttachPath, Encode, Decimal;
    LeadsKept(j, tok, i, c);
    assert ("/" + tok + p.path)[0] == '/';
    if p.op == "add" {
      AttachBelow(j, tok, i, p.path, p.value.value);
    } else {
      DetachBelow(j, tok, i, p.path);
      if p.op != "remove" && DetachPath(ChildAt(j, i), p.path).Done? {
        var d := DetachPath(ChildAt(j, i), p.path).doc;
        LeadsKept(j, tok, i, d);
        AttachBelow(SetChild(j, i, d), tok, i, p.path, p.value.value);
        SetTwice(j, i, d, c);
      }
    }
  }

  lemma {:induction false} LeadsKept(j: Json, tok: string, i: nat, c: Json)
    requires Leads(j, tok, i)
    ensures Leads(SetChild(j, i, c), tok, i) && ChildAt(SetChild(j, i, c), i) == c
  {
  }

  lemma {:induction false} SetTwice(j: Json, i: nat, d: Json, c: Json)
    requires (j.Array? && i < |j.items|) || (j.Object? && i < |j.members|)
    ensures SetChild(SetChild(j, i, d), i, c) == SetChild(j, i, c)
  {
  }

  lemma {:induction false} ApplyAllBelow(j: Json, tok: string, i: nat, ps: seq<Patch>, c: Json)
    requires Leads(j, tok, i) && AllInside(ps) && ApplyAll(ChildAt(j, i), ps) == (0, c)
    ensures AllGenerated(Shift("/" + tok, ps)) && ApplyAll(j, Shift("/" + tok, ps)) == (0, SetChild(j, i, c))
    decreases |ps|
  {
    hide Apply, Encode, Decimal;
    var qs := Shift("/" + tok, ps);
    if ps == [] {
      SetSame(j, tok, i);
    } else {
      var (s, d) := Apply(ChildAt(j, i), ps[0]);
      ApplyBelow(j, tok, i, ps[0], d);
      ApplyAllBelow(SetChild(j, i, d), tok, i, ps[1..], c);
      assert qs[1..] == Shift("/" + tok, ps[1..]);
      SetTwice(j, i, d, c);
    }
  }

  lemma {:induction false} SetSame(j: Json, tok: string, i: nat)
    requires Leads(j, tok, i)
    ensures SetChild(j, i, ChildAt(j, i)) == j
  {
  }

  lemma {:induction false} ApplyConcat(doc: Json, a: seq<Patch>, b: seq<Patch>)
    requires AllGenerated(a) && AllGenerated(b) && ApplyAll(doc, a).0 == 0
    ensures AllGenerated(a + b) && ApplyAll(doc, a + b) == ApplyAll(ApplyAll(doc, a).1, b)
    decreases |a|
  {
    hide Apply;
    if a == [] {
      assert a + b == b;
    } else {
      ApplyConcat(Apply(doc, a[0]).1, a[1..], b);
      assert (a + b)[1..] == a[1..] + b;
    }
  }

  // ---------------------------------------------------------------- the side conditions

  /** The member of a key is removed or replaced as a whole: either way it is detached. */
  ghost predicate Goes(ms: seq<Member>, ts: seq<Member>, k: string)
  {
    && ValueAt(ms, k).Some?
    && (ValueAt(ts, k) == None || Replaced(ValueAt(ms, k).value, ValueAt(ts, k).value))
  }

  /** Both keys are there, the first before the second. */
  predicate Earlier(ms: seq<Member>, l: string, k: string)
  {
    IndexOf(ms, l) < IndexOf(ms, k) < |ms|
  }

  /** No earlier member is equal to `k` up to case, except for such as are detached before it. */
  ghost predicate Clear(ms: seq<Member>, fs: seq<Member>, ts: seq<Member>, k: string)
  {
    forall l :: Earlier(ms, l, k) && Fold(l) == Fold(k) ==> Less(l, k) && Goes(fs, ts, l)
  }

  /** Wherever a member is detached, the lookup that ignores case finds it first. */
  ghost predicate Detachable(d: Json, t: Json)
    decreases d
  {
    if Replaced(d, t) then true
    else if d.Array? then
      forall i :: 0 <= i < |d.items| && i < |t.items| ==> Detachable(d.items[i], t.items[i])
    else if d.Object? then
      && (forall k :: Goes(d.members, t.members, k) ==> Clear(d.members, d.members, t.members, k))
      && (forall i, j :: 0 <= i < |d.members| && 0 <= j < |t.members| && d.members[i].key == t.members[j].key ==>
            Detachable(d.members[i].value, t.members[j].value))
    else true
  }

  /** Wherever a member is added, removed or replaced as a whole, its key survives the unescaping. */
  ghost predicate Restorable(f: Json, t: Json)
    decreases f, 1
  {
    if Replaced(f, t) then true
    else if f.Array? then
      forall i :: 0 <= i < |f.items| && i < |t.items| ==> Restorable(f.items[i], t.items[i])
    else if f.Object? then
      && (forall i, j :: 0 <= i < |f.members| && 0 <= j < |t.members| && f.members[i].key == t.members[j].key ==>
            && Restorable(f.members[i].value, t.members[j].value)
            && (Replaced(f.members[i].value, t.members[j].value) ==> Recoverable(f.members[i].key)))
      && (forall i :: 0 <= i < |f.members| && !HasKey(t.members, f.members[i].key) ==> Recoverable(f.members[i].key))
      && (forall j :: 0 <= j < |t.members| && !HasKey(f.members, t.members[j].key) ==> Recoverable(t.members[j].key))
    else true
  }

  // ---------------------------------------------------------------- single patches at a container

  lemma {:induction false} TopPath(tok: string)
    requires '/' !in tok
    ensures var p := "" + ("/" + tok);
      p != "" && LastSlash(p) == 0 && p[..0] == "" && p[1..] == tok && |p| > 0
  {
    var p := "" + ("/" + tok);
    assert p[1..] == tok;
    assert p[0] == '/';
  }

  /** A token that comes back from the unescaping works on the container itself. */
  lemma {:induction false} ApplyTop(j: Json, op: string, tok: string, value: Option<Json>)
    requires '/' !in tok && Generated(Patch(op, "" + ("/" + tok), value))
    ensures var child := DecodeInPlace(tok);
      Apply(j, Patch(op, "" + ("/" + tok), value)) ==
        if op == "add" then
          match EditHere(j, Attach(child, value.value)) case Failed(s) => (s as int, j) case Done(d) => (0, d)
        else
          match EditHere(j, Detach(child))
          case Failed(s) => (s as int, j)
          case Done(d) =>
            if op == "remove" then (0, d)
            else match EditHere(d, Attach(child, value.value)) case Failed(s) => (s as int, d) case Done(d') => (0, d')
  {
    hide DecodeInPlace, EditHere, LastSlash;
    TopPath(tok);
    var p := "" + ("/" + tok);
    assert forall e: Edit, d: Json :: EditAt(d, p[..0], e) == EditHere(d, e);
    assert DetachPath(j, p) == EditHere(j, Detach(DecodeInPlace(tok)));
    assert forall d: Json, v: Json :: AttachPath(d, p, v) == EditHere(d, Attach(DecodeInPlace(tok), v));
    hide EditAt, DetachPath, AttachPath;
  }

  lemma {:induction false} DecimalPlain(i: nat)
    ensures '/' !in Decimal(i) && Encode(Decimal(i)) == Decimal(i) && DecodeInPlace(Decimal(i)) == Decimal(i)
    ensures DecodeIndex(Decimal(i)) == Some(i) && Decimal(i) != "-"
  {
    DecimalDigits(i);
    DigitsPlain(Decimal(i));
    PlainRecoverable(Decimal(i));
    DecodesBack(Decimal(i));
    DecodeDecimal(i, "");
    assert Decimal(i) + "" == Decimal(i);
    assert '0' <= Decimal(i)[0] <= '9';
  }

  lemma {:induction false} DashPlain()
    ensures '/' !in "-" && Encode("-") == "-" && DecodeInPlace("-") == "-"
  {
    PlainRecoverable("-");
    DecodesBack("-");
  }

  /** Removing, replacing and appending array elements. */
  lemma {:induction false} ItemRemoved(items: seq<Json>, i: nat)
    requires i < |items|
    ensures Generated(Suffixed("remove", "", Decimal(i), None))
    ensures Apply(Array(items), Suffixed("remove", "", Decimal(i), None)) == (0, Array(items[..i] + items[i + 1..]))
  {
    hide Decimal, DecodeInPlace, Encode, DecodeIndex, Apply;
    DecimalPlain(i);
    ApplyTop(Array(items), "remove", Decimal(i), None);
  }

  lemma {:induction false} ItemReplaced(items: seq<Json>, i: nat, v: Json)
    requires i < |items|
    ensures Generated(Patch("replace", "" + ("/" + Decimal(i)), Some(v)))
    ensures Apply(Array(items), Patch("replace", "" + ("/" + Decimal(i)), Some(v))) == (0, Array(items[i := v]))
  {
    hide Decimal, DecodeInPlace, Encode, DecodeIndex, Apply;
    DecimalPlain(i);
    ApplyTop(Array(items), "replace", Decimal(i), Some(v));
    var rest := items[..i] + items[i + 1..];
    assert rest[..i] + [v] + rest[i..] == items[i := v];
    assert "replace" != "add" && "replace" != "remove" by {
      assert "replace"[2] == 'p' && "remove"[2] == 'm' && "add"[0] == 'a';
    }
  }

  lemma {:induction false} ItemAppended(items: seq<Json>, v: Json)
    ensures Generated(Suffixed("add", "", "-", Some(v)))
    ensures Apply(Array(items), Suffixed("add", "", "-", Some(v))) == (0, Array(items + [v]))
  {
    hide DecodeInPlace, Encode, DecodeIndex, Apply;
    DashPlain();
    ApplyTop(Array(items), "add", "-", Some(v));
  }

  /** No earlier member is equal to `k` up to case. */
  ghost predicate FirstUpToCase(ms: seq<Member>, k: string)
  {
    HasKey(ms, k) && forall j :: 0 <= j < IndexOf(ms, k) ==> Fold(ms[j].key) != Fold(k)
  }

  lemma {:induction false} FoldFindsIt(ms: seq<Member>, k: string)
    requires FirstUpToCase(ms, k)
    ensures IndexOf(ms, k) < |ms| && FoldIndex(ms, k) == IndexOf(ms, k)
  {
    var i :| 0 <= i < |ms| && ms[i].key == k;
  }

  lemma {:induction false} MemberRemoved(ms: seq<Member>, k: string)
    requires Recoverable(k) && FirstUpToCase(ms, k)
    ensures Generated(Suffixed("remove", "", k, None)) && IndexOf(ms, k) < |ms|
    ensures Apply(Object(ms), Suffixed("remove", "", k, None)) == (0, Object(Without(ms, IndexOf(ms, k))))
  {
    hide DecodeInPlace, Encode, Apply, Without, Recoverable;
    DecodesBack(k);
    EncodeNoSlash(k);
    FoldFindsIt(ms, k);
    ApplyTop(Object(ms), "remove", Encode(k), None);
  }

  lemma {:induction false} MemberAdded(ms: seq<Member>, k: string, v: Json)
    requires Recoverable(k) && !HasKey(ms, k)
    ensures Generated(Suffixed("add", "", k, Some(v)))
    ensures Apply(Object(ms), Suffixed("add", "", k, Some(v))) == (0, Object(ms + [Member(k, v)]))
  {
    hide DecodeInPlace, Encode, Apply, Without, Recoverable;
    DecodesBack(k);
    EncodeNoSlash(k);
    ApplyTop(Object(ms), "add", Encode(k), Some(v));
  }

  lemma {:induction false} MemberReplaced(ms: seq<Member>, k: string, v: Json)
    requires Recoverable(k) && FirstUpToCase(ms, k) && DistinctKeys(ms)
    ensures Generated(Patch("replace", "" + ("/" + Encode(k)), Some(v))) && IndexOf(ms, k) < |ms|
    ensures Apply(Object(ms), Patch("replace", "" + ("/" + Encode(k)), Some(v)))
         == (0, Object(Without(ms, IndexOf(ms, k)) + [Member(k, v)]))
  {
    hide DecodeInPlace, Encode, Apply, Recoverable;
    DecodesBack(k);
    EncodeNoSlash(k);
    FoldFindsIt(ms, k);
    ApplyTop(Object(ms), "replace", Encode(k), Some(v));
    var rest := Without(ms, IndexOf(ms, k));
    assert IndexOf(rest, k) == |rest|;
    assert "replace" != "add" && "replace" != "remove" by {
      assert "replace"[2] == 'p' && "remove"[2] == 'm' && "add"[0] == 'a';
    }
  }

  // ---------------------------------------------------------------- the main induction

  ghost predicate Yields(doc: Json, ps: seq<Patch>, t: Json)
  {
    AllGenerated(ps) && var (s, d) := ApplyAll(doc, ps); s == 0 && Abs(d) == Abs(t) && Tidy(d)
  }

  /** A reordering of `f` that applies the patches generated from `f` to `t` ends as `t`, up to member order. */
  lemma {:induction false} CreateYields(d: Json, f: Json, t: Json)
    requires Abs(d) == Abs(f) && Tidy(d) && Tidy(f) && Tidy(t) && Detachable(d, t) && Restorable(f, t)
    ensures Yields(d, Create("", f, t), t)
    decreases f, 1, 0
  {
    hide Restorable;
    ReplacedAlike(d, f, t);
    if Replaced(f, t) {
      ReplacedYields(d, f, t);
    } else if f.Array? {
      hide AbsItems, CreateItems, TidyItems, Replaced;
      ItemsStart(d.items, f.items, t.items);
      ItemsYield(d.items, f.items, t.items, 0);
      assert d == Array(d.items) && t == Array(t.items);
      assert Create("", f, t) == CreateItems("", f.items, t.items, 0);
    } else if f.Object? {
      hide AbsMembers, CreateMembers, TidyMembers, Detachable, Replaced;
      ObjectYields(d.members, f.members, t.members);
      assert d == Object(d.members) && f == Object(f.members) && t == Object(t.members);
    } else {
      ScalarYields(d, f, t);
    }
  }

  /** Whether a value is replaced shows in its tree. */
  lemma {:induction false} ReplacedAlike(d: Json, f: Json, t: Json)
    requires Abs(d) == Abs(f)
    ensures Replaced(d, t) == Replaced(f, t)
  {
  }

  lemma {:induction false} ScalarYields(d: Json, f: Json, t: Json)
    requires Abs(d) == Abs(f) && !Replaced(f, t) && !f.Array? && !f.Object?
    ensures Yields(d, Create("", f, t), t)
  {
    var ps := Create("", f, t);
    assert ps == [] && f == t;
    hide Create;
    assert !d.Array? && !d.Object?;
    assert ApplyAll(d, ps) == (0, d);
    assert Tidy(d);
  }

  lemma {:induction false} ReplacedYields(d: Json, f: Json, t: Json)
    requires Tidy(t) && Replaced(f, t)
    ensures Yields(d, Create("", f, t), t)
  {
    hide Abs, Tidy, Replaced;
    CreateShape(f, t);
    var ps := Create("", f, t);
    hide Create;
    assert ps[1..] == [] && ApplyAll(t, ps[1..]) == (0, t);
    assert "replace" != "remove" by { assert "replace"[2] == 'p' && "remove"[2] == 'm'; }
    assert Apply(d, ps[0]) == (0, t);
    assert AllGenerated(ps) && ApplyAll(d, ps) == (0, t);
  }

  /** The child changes where it is. */
  lemma {:induction false} ChildYields(j: Json, tok: string, i: nat, f: Json, t: Json) returns (c: Json)
    requires Leads(j, tok, i) && !Replaced(f, t) && Yields(ChildAt(j, i), Create("", f, t), t)
    ensures var ps := Create("" + ("/" + tok), f, t);
      AllGenerated(ps) && ApplyAll(j, ps) == (0, SetChild(j, i, c))
    ensures Abs(c) == Abs(t) && Tidy(c)
  {
    hide Create, ApplyAll, Abs, Tidy, Encode, Decimal, Replaced, Inside;
    CreateShape(f, t);
    ChildShape(tok, f, t);
    var ps := Create("", f, t);
    c := ApplyAll(ChildAt(j, i), ps).1;
    ApplyAllBelow(j, tok, i, ps, c);
  }

  // arrays

  /** The first `i` elements are done, the others still those of `f`. */
  ghost predicate ItemsSoFar(items: seq<Json>, fi: seq<Json>, ti: seq<Json>, i: nat)
  {
    && i <= |fi| == |items| && i <= |ti|
    && (forall k :: 0 <= k < i ==> Abs(items[k]) == Abs(ti[k]) && Tidy(items[k]))
    && (forall k :: i <= k < |fi| ==> Abs(items[k]) == Abs(fi[k]) && Tidy(items[k]))
    && (forall k :: i <= k < |fi| && k < |ti| ==> Detachable(items[k], ti[k]))
  }

  lemma {:induction false} ItemsStart(items: seq<Json>, fi: seq<Json>, ti: seq<Json>)
    requires AbsItems(items) == AbsItems(fi) && TidyItems(items)
    requires forall k :: 0 <= k < |items| && k < |ti| ==> Detachable(items[k], ti[k])
    ensures ItemsSoFar(items, fi, ti, 0)
  {
    hide Detachable;
    forall k | 0 <= k < |fi|
      ensures Abs(items[k]) == Abs(fi[k]) && Tidy(items[k])
    {
      AbsItemAt(items, k);
      AbsItemAt(fi, k);
      TidyItemAt(items, k);
    }
  }

  lemma {:induction false} RemovalsYield(items: seq<Json>, i: nat, count: nat)
    requires |items| == i + count
    ensures AllGenerated(Removals("", i, count))
    ensures ApplyAll(Array(items), Removals("", i, count)) == (0, Array(items[..i]))
    decreases count
  {
    hide Apply, Suffixed, Generated;
    if count == 0 {
      assert items[..i] == items;
    } else {
      ItemRemoved(items, i);
      var rest := items[..i] + items[i + 1..];
      RemovalsYield(rest, i, count - 1);
      assert rest[..i] == items[..i];
      var ps := Removals("", i, count);
      assert ps[1..] == Removals("", i, count - 1);
    }
  }

  lemma {:induction false} AdditionsYield(items: seq<Json>, to: seq<Json>)
    ensures AllGenerated(Additions("", to)) && ApplyAll(Array(items), Additions("", to)) == (0, Array(items + to))
    decreases |to|
  {
    hide Apply, Suffixed, Generated;
    if to == [] {
      assert items + to == items;
    } else {
      ItemAppended(items, to[0]);
      AdditionsYield(items + [to[0]], to[1..]);
      assert items + [to[0]] + to[1..] == items + to;
      var ps := Additions("", to);
      assert ps[1..] == Additions("", to[1..]);
    }
  }

  lemma {:induction false} ItemsEqual(items: seq<Json>, ti: seq<Json>)
    requires |items| == |ti| && forall k :: 0 <= k < |ti| ==> Abs(items[k]) == Abs(ti[k]) && Tidy(items[k])
    ensures Abs(Array(items)) == Abs(Array(ti)) && Tidy(Array(items))
  {
    forall k | 0 <= k < |items|
      ensures Abs(items[k]) == AbsItems(ti)[k]
    {
      AbsItemAt(ti, k);
    }
    AbsItemsIs(items, AbsItems(ti));
    TidyItemsIs(items);
  }

  /** What is left over on one side. */
  lemma {:induction false} TailYields(items: seq<Json>, fi: seq<Json>, ti: seq<Json>, i: nat)
    requires ItemsSoFar(items, fi, ti, i) && (i == |fi| || i == |ti|) && TidyItems(ti)
    ensures Yields(Array(items), CreateItems("", fi, ti, i), Array(ti))
  {
    hide Abs, Tidy, ApplyAll, Removals, Additions, Detachable;
    var items' := if i < |fi| then items[..i] else items + ti[i..];
    if i < |fi| {
      RemovalsYield(items, i, |fi| - i);
    } else {
      AdditionsYield(items, ti[i..]);
      forall k | i <= k < |ti|
        ensures items'[k] == ti[k] && Tidy(items'[k])
      {
        TidyItemAt(ti, k);
      }
    }
    ItemsEqual(items', ti);
  }

  /** One element of the common part. */
  lemma {:induction false} ItemStep(items: seq<Json>, i: nat, f: Json, t: Json) returns (c: Json)
    requires i < |items| && Tidy(t)
    requires !Replaced(f, t) ==> Yields(items[i], Create("", f, t), t)
    ensures var ps := Create("" + ("/" + Decimal(i)), f, t);
      AllGenerated(ps) && ApplyAll(Array(items), ps) == (0, Array(items[i := c]))
    ensures Abs(c) == Abs(t) && Tidy(c)
  {
    hide Apply, Abs, Tidy, Encode, Decimal;
    if Replaced(f, t) {
      c := t;
      ItemReplaced(items, i, c);
      assert Create("" + ("/" + Decimal(i)), f, t)[1..] == [];
    } else {
      c := ChildYields(Array(items), Decimal(i), i, f, t);
    }
  }

  lemma {:induction false} ItemReady(fi: seq<Json>, ti: seq<Json>, i: nat)
    requires TidyItems(fi) && TidyItems(ti) && Restorable(Array(fi), Array(ti))
    requires i < |fi| && i < |ti|
    ensures Tidy(fi[i]) && Tidy(ti[i]) && Restorable(fi[i], ti[i])
  {
    hide Tidy;
    TidyItemAt(fi, i);
    TidyItemAt(ti, i);
    var f, t := Array(fi), Array(ti);
    assert Restorable(f.items[i], t.items[i]);
  }

  /** Runs of patches in sequence. */
  lemma {:induction false} YieldsAfter(doc: Json, ps: seq<Patch>, doc': Json, qs: seq<Patch>, t: Json)
    requires AllGenerated(ps) && ApplyAll(doc, ps) == (0, doc') && Yields(doc', qs, t)
    ensures Yields(doc, ps + qs, t)
  {
    hide ApplyAll, Abs, Tidy;
    ApplyConcat(doc, ps, qs);
  }

  lemma {:induction false} ItemsUnfold(fi: seq<Json>, ti: seq<Json>, i: nat)
    requires i < |fi| && i < |ti|
    ensures CreateItems("", fi, ti, i) == Create("" + ("/" + Decimal(i)), fi[i], ti[i]) + CreateItems("", fi, ti, i + 1)
  {
    hide Create, Decimal;
  }

  lemma {:induction false} ItemsYield(items: seq<Json>, fi: seq<Json>, ti: seq<Json>, i: nat)
    requires ItemsSoFar(items, fi, ti, i)
    requires TidyItems(fi) && TidyItems(ti) && Restorable(Array(fi), Array(ti))
    ensures Yields(Array(items), CreateItems("", fi, ti, i), Array(ti))
    decreases fi, 0, |fi| - i
  {
    hide Create, CreateItems, Decimal, Encode, ApplyAll, Yields, Abs, Tidy, TidyItems, Replaced, Restorable, Detachable;
    if i < |fi| && i < |ti| {
      ItemReady(fi, ti, i);
      if !Replaced(fi[i], ti[i]) {
        CreateYields(items[i], fi[i], ti[i]);
      }
      var c := ItemStep(items, i, fi[i], ti[i]);
      ItemsYield(items[i := c], fi, ti, i + 1);
      ItemsUnfold(fi, ti, i);
      YieldsAfter(Array(items), Create("" + ("/" + Decimal(i)), fi[i], ti[i]), Array(items[i := c]),
                  CreateItems("", fi, ti, i + 1), Array(ti));
    } else {
      TailYields(items, fi, ti, i);
    }
  }

  // objects

  lemma {:induction false} EarlierWithout(ms: seq<Member>, i: nat, l: string, k: string)
    requires DistinctKeys(ms) && i < |ms| && Earlier(Without(ms, i), l, k)
    ensures Earlier(ms, l, k) && l != ms[i].key && k != ms[i].key
  {
    var r := Without(ms, i);
    var a, b := IndexOf(r, l), IndexOf(r, k);
    assert r[a] == ms[if a < i then a else a + 1] && r[b] == ms[if b < i then b else b + 1];
    IndexOfIs(ms, l, if a < i then a else a + 1);
    IndexOfIs(ms, k, if b < i then b else b + 1);
  }

  lemma {:induction false} EarlierAppend(ms: seq<Member>, m: Member, l: string, k: string)
    requires k != m.key && Earlier(ms + [m], l, k)
    ensures Earlier(ms, l, k)
  {
    IndexOfAppend(ms, m, l);
    IndexOfAppend(ms, m, k);
  }

  lemma {:induction false} IndexOfAppend(ms: seq<Member>, m: Member, k: string)
    ensures IndexOf(ms + [m], k) ==
      if IndexOf(ms, k) < |ms| then IndexOf(ms, k) else if m.key == k then |ms| else |ms| + 1
    decreases |ms|
  {
    if ms == [] {
      assert [m][1..] == [];
      assert ms + [m] == [m];
    } else {
      assert (ms + [m])[1..] == ms[1..] + [m];
      IndexOfAppend(ms[1..], m, k);
    }
  }

  lemma {:induction false} IndexOfSet(ms: seq<Member>, i: nat, c: Json, k: string)
    requires i < |ms|
    ensures IndexOf(ms[i := Member(ms[i].key, c)], k) == IndexOf(ms, k)
    decreases |ms|
  {
    if i == 0 {
      assert ms[0 := Member(ms[0].key, c)][1..] == ms[1..];
    } else {
      IndexOfSet(ms[1..], i - 1, c, k);
      assert ms[i := Member(ms[i].key, c)][1..] == ms[1..][i - 1 := Member(ms[i].key, c)];
    }
  }

  /** The members that are still to be dealt with satisfy the side conditions. */
  ghost predicate Pending(fs: seq<Member>, ts: seq<Member>)
  {
    && SortedKeys(fs, true) && SortedKeys(ts, true)
    && (forall m :: m in fs ==> Tidy(m.value))
    && (forall m :: m in ts ==> Tidy(m.value))
    && (forall f, t :: f in fs && t in ts && f.key == t.key ==>
          Restorable(f.value, t.value) && (Replaced(f.value, t.value) ==> Recoverable(f.key)))
    && (forall f :: f in fs && !HasKey(ts, f.key) ==> Recoverable(f.key))
    && (forall t :: t in ts && !HasKey(fs, t.key) ==> Recoverable(t.key))
  }

  /** The document holds the finished members `done` and the pending members of `from`. */
  ghost predicate InProgress(ms: seq<Member>, fs: seq<Member>, ts: seq<Member>, done: map<string, Tree>)
  {
    && DistinctKeys(ms) && TidyMembers(ms)
    && AbsMembers(ms) == done + AbsMembers(fs)
    && (forall m :: m in fs ==> m.key !in done && ValueAt(ms, m.key).Some?)
    && (forall m :: m in fs && Goes(fs, ts, m.key) ==> Clear(ms, fs, ts, m.key))
    && (forall m :: m in ts ==> m.key !in done)
    && (forall f, t :: f in fs && t in ts && f.key == t.key && ValueAt(ms, f.key).Some? ==>
          Detachable(ValueAt(ms, f.key).value, t.value))
  }

  /** In a sorted list the first key is not among the others. */
  lemma {:induction false} HeadApart(fs: seq<Member>)
    requires SortedKeys(fs, true) && fs != []
    ensures forall m :: m in fs[1..] ==> m in fs && Less(fs[0].key, m.key) && m.key != fs[0].key
    ensures !HasKey(fs[1..], fs[0].key) && SortedKeys(fs[1..], true) && fs[0].key !in AbsMembers(fs[1..])
    ensures forall k :: HasKey(fs, k) <==> k == fs[0].key || HasKey(fs[1..], k)
  {
    forall i | 0 < i < |fs|
      ensures fs[i].key != fs[0].key
    {
      LessTotal(fs[0].key, fs[i].key);
    }
    AbsMembersHas(fs[1..], fs[0].key);
    forall k
      ensures HasKey(fs, k) <==> k == fs[0].key || HasKey(fs[1..], k)
    {
      if HasKey(fs, k) && k != fs[0].key {
        var i :| 0 <= i < |fs| && fs[i].key == k;
        assert fs[1..][i - 1].key == k;
      }
      if HasKey(fs[1..], k) {
        var i :| 0 <= i < |fs[1..]| && fs[1..][i].key == k;
        assert fs[i + 1].key == k;
      }
      assert fs[0].key == k ==> HasKey(fs, k);
    }
  }

  /** A key below the head of a sorted list is not in the list. */
  lemma {:induction false} BelowHead(k: string, ts: seq<Member>)
    requires SortedKeys(ts, true) && (ts == [] || Less(k, ts[0].key))
    ensures !HasKey(ts, k) && forall m :: m in ts ==> m.key != k
  {
    forall j | 0 <= j < |ts|
      ensures ts[j].key != k
    {
      if j > 0 { LessTransitive(k, ts[0].key, ts[j].key); }
      LessTotal(k, ts[j].key);
    }
  }

  lemma {:induction false} DropKeepsPending(fs: seq<Member>, ts: seq<Member>, df: nat, dt: nat)
    requires Pending(fs, ts) && df <= 1 && dt <= 1 && df <= |fs| && dt <= |ts|
    requires df == 1 && dt == 1 ==> fs[0].key == ts[0].key
    requires df == 1 && dt == 0 ==> !HasKey(ts, fs[0].key)
    requires df == 0 && dt == 1 ==> !HasKey(fs, ts[0].key)
    ensures Pending(fs[df..], ts[dt..])
  {
    hide Restorable, Tidy, Recoverable, Replaced, Less;
    if df == 1 { HeadApart(fs); }
    if dt == 1 { HeadApart(ts); }
    forall f | f in fs[df..] && !HasKey(ts[dt..], f.key)
      ensures Recoverable(f.key)
    {
      assert f in fs;
      var i :| 0 <= i < |fs| && fs[i] == f;
      assert HasKey(fs, f.key);
    }
    forall t | t in ts[dt..] && !HasKey(fs[df..], t.key)
      ensures Recoverable(t.key)
    {
      assert t in ts;
      var i :| 0 <= i < |ts| && ts[i] == t;
      assert HasKey(ts, t.key);
    }
  }

  /** The first pending member that is to be detached is the first up to case. */
  lemma {:induction false} HeadFirst(ms: seq<Member>, fs: seq<Member>, ts: seq<Member>, done: map<string, Tree>)
    requires SortedKeys(fs, true) && InProgress(ms, fs, ts, done) && fs != [] && Goes(fs, ts, fs[0].key)
    ensures FirstUpToCase(ms, fs[0].key)
  {
    var k := fs[0].key;
    assert fs[0] in fs;
    ValueAtNone(ms, k);
    FoundAt(ms, k);
    assert DistinctKeys(ms) && Clear(ms, fs, ts, k);
    hide InProgress, Less, Abs, Tidy, Fold;
    forall j | 0 <= j < IndexOf(ms, k)
      ensures Fold(ms[j].key) != Fold(k)
    {
      var l := ms[j].key;
      IndexOfIs(ms, l, j);
      assert Earlier(ms, l, k);
      if Less(l, k) && Goes(fs, ts, l) {
        ValueAtNone(fs, l);
        LessTotal(l, k);
      }
    }
  }

  lemma {:induction false} GoesNext(fs: seq<Member>, ts: seq<Member>, fs': seq<Member>, ts': seq<Member>, k: string,
                                    l: string)
    requires fs' == fs || (fs != [] && fs' == fs[1..] && fs[0].key == k)
    requires ts' == ts || (ts != [] && ts' == ts[1..] && ts[0].key == k)
    requires l != k
    ensures Goes(fs', ts', l) == Goes(fs, ts, l) && ValueAt(fs', l) == ValueAt(fs, l)
    ensures ValueAt(ts', l) == ValueAt(ts, l)
  {
    hide Replaced, ValueAt;
    if fs != [] { ValueAtCons(fs, l); }
    if ts != [] { ValueAtCons(ts, l); }
  }

  /** One key dealt with: the document has changed under that key alone, and no member has come before another. */
  lemma {:induction false} NextProgress(ms: seq<Member>, ms': seq<Member>, fs: seq<Member>, ts: seq<Member>,
                                        fs': seq<Member>, ts': seq<Member>, k: string,
                                        done: map<string, Tree>, done': map<string, Tree>)
    requires InProgress(ms, fs, ts, done)
    requires fs' == fs || (fs != [] && fs' == fs[1..] && fs[0].key == k)
    requires ts' == ts || (ts != [] && ts' == ts[1..] && ts[0].key == k)
    requires !HasKey(fs', k) && !HasKey(ts', k)
    requires DistinctKeys(ms') && TidyMembers(ms') && AbsMembers(ms') == done' + AbsMembers(fs')
    requires forall l :: l in done' ==> l in done || l == k
    requires forall l :: l != k ==> ValueAt(ms', l) == ValueAt(ms, l)
    requires forall l, m :: m != k && Earlier(ms', l, m) ==> Earlier(ms, l, m) && (l == k ==> !Goes(fs, ts, k))
    ensures InProgress(ms', fs', ts', done')
  {
    hide Tidy, Abs, AbsMembers, Less, Fold, Goes, Earlier, Detachable, ValueAt, TidyMembers, DistinctKeys;
    NotAmong(fs', k);
    NotAmong(ts', k);
    forall m | m in fs' && Goes(fs', ts', m.key)
      ensures Clear(ms', fs', ts', m.key)
    {
      GoesNext(fs, ts, fs', ts', k, m.key);
      assert m in fs && Clear(ms, fs, ts, m.key);
      forall l | Earlier(ms', l, m.key) && Fold(l) == Fold(m.key)
        ensures Less(l, m.key) && Goes(fs', ts', l)
      {
        assert Earlier(ms, l, m.key);
        if l != k { GoesNext(fs, ts, fs', ts', k, l); }
      }
    }
  }

  lemma {:induction false} HeadGoes(fs: seq<Member>, ts: seq<Member>)
    requires fs != [] && !HasKey(ts, fs[0].key)
    ensures Goes(fs, ts, fs[0].key)
  {
    ValueAtCons(fs, fs[0].key);
    ValueAtNone(ts, fs[0].key);
  }

  lemma {:induction false} RemovedProgress(ms: seq<Member>, fs: seq<Member>, ts: seq<Member>, done: map<string, Tree>)
    requires SortedKeys(fs, true) && InProgress(ms, fs, ts, done) && fs != [] && !HasKey(ts, fs[0].key)
    ensures var i := IndexOf(ms, fs[0].key);
      FirstUpToCase(ms, fs[0].key) && i < |ms| && InProgress(Without(ms, i), fs[1..], ts, done)
  {
    var k := fs[0].key;
    HeadGoes(fs, ts);
    HeadFirst(ms, fs, ts, done);
    assert fs[0] in fs && DistinctKeys(ms) && TidyMembers(ms) && AbsMembers(ms) == done + AbsMembers(fs) && k !in done;
    var i := IndexOf(ms, k);
    FoldFindsIt(ms, k);
    var ms' := Without(ms, i);
    AbsWithout(ms, i);
    HeadApart(fs);
    HeadOut(fs, done, TNull);
    hide *;
    forall l | l != k
      ensures ValueAt(ms', l) == ValueAt(ms, l)
    {
      ValueAtWithout(ms, i, l);
    }
    forall l, m | m != k && Earlier(ms', l, m)
      ensures Earlier(ms, l, m) && l != k
    {
      EarlierWithout(ms, i, l, m);
    }
    NextProgress(ms, ms', fs, ts, fs[1..], ts, k, done, done);
  }

  lemma {:induction false} HeadOut(fs: seq<Member>, done: map<string, Tree>, v: Tree)
    requires fs != [] && fs[0].key !in done && fs[0].key !in AbsMembers(fs[1..])
    ensures (done + AbsMembers(fs)) - {fs[0].key} == done + AbsMembers(fs[1..])
    ensures (done + AbsMembers(fs))[fs[0].key := v] == done[fs[0].key := v] + AbsMembers(fs[1..])
  {
    hide Abs;
  }

  /** A member of `from` that `to` does not have goes. */
  lemma {:induction false} RemoveStep(ms: seq<Member>, fs: seq<Member>, ts: seq<Member>, done: map<string, Tree>)
    returns (ms': seq<Member>)
    requires Pending(fs, ts) && InProgress(ms, fs, ts, done) && fs != [] && !HasKey(ts, fs[0].key)
    ensures var p := Suffixed("remove", "", fs[0].key, None);
      Generated(p) && Apply(Object(ms), p) == (0, Object(ms'))
    ensures Pending(fs[1..], ts) && InProgress(ms', fs[1..], ts, done)
  {
    DropKeepsPending(fs, ts, 1, 0);
    assert ts[0..] == ts;
    assert SortedKeys(fs, true) && Recoverable(fs[0].key) by { hide Recoverable, SortedKeys; assert fs[0] in fs; }
    hide *;
    RemovedProgress(ms, fs, ts, done);
    MemberRemoved(ms, fs[0].key);
    ms' := Without(ms, IndexOf(ms, fs[0].key));
  }

  lemma {:induction false} AddedProgress(ms: seq<Member>, fs: seq<Member>, ts: seq<Member>, done: map<string, Tree>)
    requires SortedKeys(ts, true) && InProgress(ms, fs, ts, done)
    requires ts != [] && !HasKey(fs, ts[0].key) && Tidy(ts[0].value)
    ensures !HasKey(ms, ts[0].key)
    ensures InProgress(ms + [Member(ts[0].key, ts[0].value)], fs, ts[1..], done[ts[0].key := Abs(ts[0].value)])
  {
    hide Less, Abs, Tidy, Fold, Goes, Clear, Detachable, ValueAt;
    var m := Member(ts[0].key, ts[0].value);
    var k, done' := m.key, done[m.key := Abs(m.value)];
    assert k !in done && k !in AbsMembers(fs) by { assert ts[0] in ts; AbsMembersHas(fs, k); }
    assert !HasKey(ms, k) by { AbsMembersHas(ms, k); }
    assert DistinctKeys(ms) && TidyMembers(ms) && AbsMembers(ms) == done + AbsMembers(fs);
    AbsAppend(ms, m);
    assert (done + AbsMembers(fs))[k := Abs(m.value)] == done' + AbsMembers(fs);
    HeadApart(ts);
    ValueAtNone(ms, k);
    hide *;
    forall l | l != k
      ensures ValueAt(ms + [m], l) == ValueAt(ms, l)
    {
      ValueAtAppend(ms, m, l);
    }
    forall l, n | n != k && Earlier(ms + [m], l, n)
      ensures Earlier(ms, l, n) && l != k
    {
      EarlierAppend(ms, m, l, n);
      EarlierThere(ms, l, n);
    }
    NextProgress(ms, ms + [m], fs, ts, fs, ts[1..], k, done, done');
  }

  lemma {:induction false} EarlierThere(ms: seq<Member>, l: string, k: string)
    requires Earlier(ms, l, k)
    ensures HasKey(ms, l) && HasKey(ms, k)
  {
  }

  lemma {:induction false} NotAmong(fs: seq<Member>, k: string)
    requires !HasKey(fs, k)
    ensures forall m :: m in fs ==> m.key != k
  {
  }

  /** A member that only `to` has comes. */
  lemma {:induction false} AddStep(ms: seq<Member>, fs: seq<Member>, ts: seq<Member>, done: map<string, Tree>)
    returns (ms': seq<Member>)
    requires Pending(fs, ts) && InProgress(ms, fs, ts, done) && ts != [] && !HasKey(fs, ts[0].key)
    ensures var p := Suffixed("add", "", ts[0].key, Some(ts[0].value));
      Generated(p) && Apply(Object(ms), p) == (0, Object(ms'))
    ensures Pending(fs, ts[1..]) && InProgress(ms', fs, ts[1..], done[ts[0].key := Abs(ts[0].value)])
  {
    DropKeepsPending(fs, ts, 0, 1);
    assert fs[0..] == fs;
    assert SortedKeys(ts, true) && Recoverable(ts[0].key) && Tidy(ts[0].value) by {
      hide Recoverable, SortedKeys, Tidy;
      assert ts[0] in ts;
    }
    hide *;
    AddedProgress(ms, fs, ts, done);
    MemberAdded(ms, ts[0].key, ts[0].value);
    ms' := ms + [Member(ts[0].key, ts[0].value)];
  }

  /** The document's member for the key both sides have next. */
  lemma {:induction false} CommonMember(ms: seq<Member>, fs: seq<Member>, ts: seq<Member>, done: map<string, Tree>)
    requires InProgress(ms, fs, ts, done) && fs != [] && ts != [] && fs[0].key == ts[0].key
    ensures var i := IndexOf(ms, fs[0].key);
      && i < |ms| && Abs(ms[i].value) == Abs(fs[0].value) && Tidy(ms[i].value) && Detachable(ms[i].value, ts[0].value)
      && ValueAt(ms, fs[0].key) == Some(ms[i].value)
  {
    var k := fs[0].key;
    assert fs[0] in fs && ts[0] in ts;
    FoundAt(ms, k);
    AbsMembersHas(ms, k);
    TidyMemberAt(ms, IndexOf(ms, k));
  }

  /** The new value of a common member, changed in place or moved to the end. */
  lemma {:induction false} MemberChanged(ms: seq<Member>, k: string, f: Json, t: Json) returns (ms': seq<Member>)
    requires DistinctKeys(ms) && TidyMembers(ms) && Tidy(t) && IndexOf(ms, k) < |ms|
    requires Replaced(f, t) ==> Recoverable(k) && FirstUpToCase(ms, k)
    requires !Replaced(f, t) ==> Yields(ms[IndexOf(ms, k)].value, Create("", f, t), t)
    ensures var ps := Create("" + ("/" + Encode(k)), f, t);
      AllGenerated(ps) && ApplyAll(Object(ms), ps) == (0, Object(ms'))
    ensures DistinctKeys(ms') && TidyMembers(ms') && AbsMembers(ms') == AbsMembers(ms)[k := Abs(t)]
    ensures forall l :: l != k ==> ValueAt(ms', l) == ValueAt(ms, l)
    ensures forall l, m :: m != k && Earlier(ms', l, m) ==> Earlier(ms, l, m) && (l == k ==> !Replaced(f, t))
  {
    hide Apply, Encode, Tidy, Abs, Recoverable, FirstUpToCase;
    var i := IndexOf(ms, k);
    FoundAt(ms, k);
    if Replaced(f, t) {
      MemberReplaced(ms, k, t);
      var rest, new' := Without(ms, i), Member(k, t);
      ms' := rest + [new'];
      AbsWithout(ms, i);
      AbsAppend(rest, new');
      assert Create("" + ("/" + Encode(k)), f, t)[1..] == [];
      assert (AbsMembers(ms) - {k})[k := Abs(t)] == AbsMembers(ms)[k := Abs(t)];
      assert ApplyAll(Object(ms), Create("" + ("/" + Encode(k)), f, t)) == (0, Object(ms'));
      hide *;
      MovedToEnd(ms, i, new');
    } else {
      var c := ChildYields(Object(ms), Encode(k), i, f, t);
      ms' := ms[i := Member(ms[i].key, c)];
      AbsReplace(ms, i, c);
      assert ApplyAll(Object(ms), Create("" + ("/" + Encode(k)), f, t)) == (0, Object(ms'));
      hide *;
      KeptInPlace(ms, i, c);
    }
  }

  lemma {:induction false} MovedToEnd(ms: seq<Member>, i: nat, m: Member)
    requires DistinctKeys(ms) && i < |ms| && ms[i].key == m.key
    ensures var ms' := Without(ms, i) + [m];
      && (forall l :: l != m.key ==> ValueAt(ms', l) == ValueAt(ms, l))
      && (forall l, n :: n != m.key && Earlier(ms', l, n) ==> Earlier(ms, l, n) && l != m.key)
  {
    hide *;
    var rest := Without(ms, i);
    ValueAtWithout(ms, i, m.key);
    forall l | l != m.key
      ensures ValueAt(rest + [m], l) == ValueAt(ms, l)
    {
      ValueAtWithout(ms, i, l);
      ValueAtAppend(rest, m, l);
    }
    forall l, n | n != m.key && Earlier(rest + [m], l, n)
      ensures Earlier(ms, l, n) && l != m.key
    {
      EarlierAppend(rest, m, l, n);
      EarlierWithout(ms, i, l, n);
    }
  }

  lemma {:induction false} KeptInPlace(ms: seq<Member>, i: nat, c: Json)
    requires DistinctKeys(ms) && i < |ms|
    ensures var ms' := ms[i := Member(ms[i].key, c)];
      && (forall l :: l != ms[i].key ==> ValueAt(ms', l) == ValueAt(ms, l))
      && (forall l, n :: Earlier(ms', l, n) ==> Earlier(ms, l, n))
  {
    var ms' := ms[i := Member(ms[i].key, c)];
    forall l
      ensures IndexOf(ms', l) == IndexOf(ms, l)
    {
      IndexOfSet(ms, i, c, l);
    }
  }

  lemma {:induction false} ChangedProgress(ms: seq<Member>, ms': seq<Member>, fs: seq<Member>, ts: seq<Member>,
                                           done: map<string, Tree>)
    requires SortedKeys(fs, true) && SortedKeys(ts, true) && InProgress(ms, fs, ts, done) && fs != [] && ts != []
    requires fs[0].key == ts[0].key
    requires DistinctKeys(ms') && TidyMembers(ms') && AbsMembers(ms') == AbsMembers(ms)[ts[0].key := Abs(ts[0].value)]
    requires forall l :: l != ts[0].key ==> ValueAt(ms', l) == ValueAt(ms, l)
    requires forall l, m :: m != ts[0].key && Earlier(ms', l, m) ==>
      Earlier(ms, l, m) && (l == ts[0].key ==> !Replaced(fs[0].value, ts[0].value))
    ensures InProgress(ms', fs[1..], ts[1..], done[ts[0].key := Abs(ts[0].value)])
  {
    HeadApart(fs);
    HeadApart(ts);
    assert fs[0] in fs && fs[0].key !in done && AbsMembers(ms) == done + AbsMembers(fs);
    HeadOut(fs, done, Abs(ts[0].value));
    HeadsGo(fs, ts);
    hide *;
    NextProgress(ms, ms', fs, ts, fs[1..], ts[1..], ts[0].key, done, done[ts[0].key := Abs(ts[0].value)]);
  }

  lemma {:induction false} HeadsGo(fs: seq<Member>, ts: seq<Member>)
    requires fs != [] && ts != [] && fs[0].key == ts[0].key
    ensures Goes(fs, ts, fs[0].key) == Replaced(fs[0].value, ts[0].value)
  {
    ValueAtCons(fs, fs[0].key);
    ValueAtCons(ts, fs[0].key);
  }

  /** A member both sides have. */
  lemma {:induction false} MatchStep(ms: seq<Member>, fs: seq<Member>, ts: seq<Member>, done: map<string, Tree>)
    returns (ms': seq<Member>)
    requires Pending(fs, ts) && InProgress(ms, fs, ts, done) && fs != [] && ts != [] && fs[0].key == ts[0].key
    requires IndexOf(ms, fs[0].key) < |ms|
    requires !Replaced(fs[0].value, ts[0].value) ==>
      Yields(ms[IndexOf(ms, fs[0].key)].value, Create("", fs[0].value, ts[0].value), ts[0].value)
    ensures var ps := Create("" + ("/" + Encode(fs[0].key)), fs[0].value, ts[0].value);
      AllGenerated(ps) && ApplyAll(Object(ms), ps) == (0, Object(ms'))
    ensures Pending(fs[1..], ts[1..]) && InProgress(ms', fs[1..], ts[1..], done[ts[0].key := Abs(ts[0].value)])
  {
    DropKeepsPending(fs, ts, 1, 1);
    assert SortedKeys(fs, true) && SortedKeys(ts, true) && Tidy(ts[0].value)
      && (Replaced(fs[0].value, ts[0].value) ==> Recoverable(fs[0].key)) by {
      hide Recoverable, SortedKeys, Tidy, Replaced;
      assert fs[0] in fs && ts[0] in ts;
    }
    assert DistinctKeys(ms) && TidyMembers(ms);
    HeadsGo(fs, ts);
    if Replaced(fs[0].value, ts[0].value) { HeadFirst(ms, fs, ts, done); }
    hide *;
    ms' := MemberChanged(ms, fs[0].key, fs[0].value, ts[0].value);
    ChangedProgress(ms, ms', fs, ts, done);
  }

  /** Side by side through two sorted member lists. */
  lemma {:induction false} MembersYield(ms: seq<Member>, all: seq<Member>, fs: seq<Member>, ts: seq<Member>,
                                        done: map<string, Tree>)
    returns (ms': seq<Member>)
    requires (forall m :: m in fs ==> m in all) && Pending(fs, ts) && InProgress(ms, fs, ts, done)
    ensures var ps := CreateMembers("", all, fs, ts);
      AllGenerated(ps) && ApplyAll(Object(ms), ps) == (0, Object(ms'))
    ensures DistinctKeys(ms') && TidyMembers(ms') && AbsMembers(ms') == done + AbsMembers(ts)
    decreases all, 0, |fs| + |ts|
  {
    hide Create, Apply, Suffixed, Encode, Restorable, Tidy, Detachable, Recoverable, Replaced, Less, Abs, FirstUpToCase,
      Yields, Generated, HasKey, Goes, Clear;
    if fs == [] && ts == [] {
      ms' := ms;
    } else if fs != [] && ts != [] && fs[0].key == ts[0].key {
      assert fs[0] in fs && fs[0] in all;
      CommonMember(ms, fs, ts, done);
      assert Restorable(fs[0].value, ts[0].value) && Tidy(ts[0].value) by { assert ts[0] in ts; }
      if !Replaced(fs[0].value, ts[0].value) {
        CreateYields(ms[IndexOf(ms, fs[0].key)].value, fs[0].value, ts[0].value);
      }
      var mid := MatchStep(ms, fs, ts, done);
      ms' := MembersYield(mid, all, fs[1..], ts[1..], done[ts[0].key := Abs(ts[0].value)]);
      ApplyConcat(Object(ms), Create("" + ("/" + Encode(fs[0].key)), fs[0].value, ts[0].value),
                  CreateMembers("", all, fs[1..], ts[1..]));
      DoneGrows(ts, done);
    } else if ts == [] || (fs != [] && Less(fs[0].key, ts[0].key)) {
      BelowHead(fs[0].key, ts);
      var mid := RemoveStep(ms, fs, ts, done);
      ms' := MembersYield(mid, all, fs[1..], ts, done);
      ApplyFirst(Object(ms), Suffixed("remove", "", fs[0].key, None), Object(mid), CreateMembers("", all, fs[1..], ts));
    } else {
      if fs != [] { LessTotal(fs[0].key, ts[0].key); }
      BelowHead(ts[0].key, fs);
      var mid := AddStep(ms, fs, ts, done);
      ms' := MembersYield(mid, all, fs, ts[1..], done[ts[0].key := Abs(ts[0].value)]);
      ApplyFirst(Object(ms), Suffixed("add", "", ts[0].key, Some(ts[0].value)), Object(mid),
        CreateMembers("", all, fs, ts[1..]));
      DoneGrows(ts, done);
    }
  }

  lemma {:induction false} DoneGrows(ts: seq<Member>, done: map<string, Tree>)
    requires SortedKeys(ts, true) && ts != [] && ts[0].key !in done
    ensures done[ts[0].key := Abs(ts[0].value)] + AbsMembers(ts[1..]) == done + AbsMembers(ts)
  {
    hide Abs;
    HeadApart(ts);
  }

  lemma {:induction false} ApplyFirst(doc: Json, p: Patch, doc': Json, ps: seq<Patch>)
    requires Generated(p) && AllGenerated(ps) && Apply(doc, p) == (0, doc')
    ensures AllGenerated([p] + ps) && ApplyAll(doc, [p] + ps) == ApplyAll(doc', ps)
  {
    hide Apply, Generated;
    assert ([p] + ps)[1..] == ps;
  }

  lemma {:induction false} ObjectStart(ms: seq<Member>, fm: seq<Member>, tm: seq<Member>)
    requires DistinctKeys(ms) && TidyMembers(ms) && AbsMembers(ms) == AbsMembers(fm)
    requires DistinctKeys(fm) && TidyMembers(fm) && DistinctKeys(tm) && TidyMembers(tm)
    requires Detachable(Object(ms), Object(tm)) && Restorable(Object(fm), Object(tm))
    ensures Pending(SortList(fm, true), SortList(tm, true))
    ensures InProgress(ms, SortList(fm, true), SortList(tm, true), map[])
  {
    var fs, ts := SortList(fm, true), SortList(tm, true);
    DetachableMembers(ms, tm);
    ApartDistinct(fm, true);
    ApartDistinct(tm, true);
    hide *;
    SortKeeps(fm, true);
    SortKeeps(tm, true);
    SortedHasKey(fm);
    SortedHasKey(tm);
    PendingAtStart(fm, tm, fs, ts);
    forall k
      ensures Goes(fs, ts, k) == Goes(ms, tm, k) && ValueAt(ts, k) == ValueAt(tm, k)
    {
      GoesAtStart(ms, fm, tm, fs, ts, k);
    }
    ProgressAtStart(ms, fs, tm, ts);
  }

  lemma {:induction false} DetachableMembers(ms: seq<Member>, tm: seq<Member>)
    requires Detachable(Object(ms), Object(tm)) && DistinctKeys(ms) && DistinctKeys(tm)
    ensures forall k :: Goes(ms, tm, k) ==> Clear(ms, ms, tm, k)
    ensures forall k :: ValueAt(ms, k).Some? && ValueAt(tm, k).Some? ==>
      Detachable(ValueAt(ms, k).value, ValueAt(tm, k).value)
  {
    var d, t := Object(ms), Object(tm);
    assert !Replaced(d, t);
    forall k | ValueAt(ms, k).Some? && ValueAt(tm, k).Some?
      ensures Detachable(ValueAt(ms, k).value, ValueAt(tm, k).value)
    {
      FoundAt(ms, k);
      FoundAt(tm, k);
      assert d.members[IndexOf(ms, k)].key == t.members[IndexOf(tm, k)].key;
    }
  }

  /** Sorting and reordering do not change which members are detached. */
  lemma {:induction false} GoesAtStart(ms: seq<Member>, fm: seq<Member>, tm: seq<Member>, fs: seq<Member>,
                                       ts: seq<Member>, k: string)
    requires DistinctKeys(tm) && DistinctKeys(ts) && (forall m :: m in ts <==> m in tm)
    requires AbsMembers(ms) == AbsMembers(fs)
    ensures Goes(fs, ts, k) == Goes(ms, tm, k) && ValueAt(ts, k) == ValueAt(tm, k)
  {
    SameValues(ts, tm, k);
    SameTrees(ms, fs, k);
    hide ValueAt, AbsMembers;
    if ValueAt(fs, k).Some? && ValueAt(tm, k).Some? {
      ReplacedAlike(ValueAt(ms, k).value, ValueAt(fs, k).value, ValueAt(tm, k).value);
    }
  }

  lemma {:induction false} SameTrees(ms: seq<Member>, fs: seq<Member>, k: string)
    requires AbsMembers(ms) == AbsMembers(fs)
    ensures ValueAt(ms, k).Some? == ValueAt(fs, k).Some?
    ensures ValueAt(ms, k).Some? ==> Abs(ValueAt(ms, k).value) == Abs(ValueAt(fs, k).value)
  {
    hide Abs;
    AbsMembersHas(ms, k);
    AbsMembersHas(fs, k);
    ValueAtNone(ms, k);
    ValueAtNone(fs, k);
  }

  lemma {:induction false} ProgressAtStart(ms: seq<Member>, fs: seq<Member>, tm: seq<Member>, ts: seq<Member>)
    requires DistinctKeys(ms) && TidyMembers(ms) && AbsMembers(ms) == AbsMembers(fs) && DistinctKeys(ts)
    requires forall k :: Goes(fs, ts, k) == Goes(ms, tm, k) && ValueAt(ts, k) == ValueAt(tm, k)
    requires forall k :: Goes(ms, tm, k) ==> Clear(ms, ms, tm, k)
    requires forall k :: ValueAt(ms, k).Some? && ValueAt(tm, k).Some? ==>
      Detachable(ValueAt(ms, k).value, ValueAt(tm, k).value)
    ensures InProgress(ms, fs, ts, map[])
  {
    hide Abs, Goes, Detachable, Earlier, ValueAt, Less, Fold;
    assert map[] + AbsMembers(fs) == AbsMembers(fs);
    forall m | m in fs
      ensures ValueAt(ms, m.key).Some?
    {
      SameTrees(ms, fs, m.key);
      ValueAtNone(fs, m.key);
    }
    forall f, t | f in fs && t in ts && f.key == t.key && ValueAt(ms, f.key).Some?
      ensures Detachable(ValueAt(ms, f.key).value, t.value)
    {
      var j :| 0 <= j < |ts| && ts[j] == t;
      ValueAtIs(ts, j);
    }
  }

  lemma {:induction false} SortedHasKey(ms: seq<Member>)
    requires DistinctKeys(ms)
    ensures forall k :: HasKey(SortList(ms, true), k) == HasKey(ms, k)
  {
    SortKeeps(ms, true);
    hide SortList;
    forall k
      ensures HasKey(SortList(ms, true), k) == HasKey(ms, k)
    {
      AbsMembersHas(ms, k);
      AbsMembersHas(SortList(ms, true), k);
    }
  }

  lemma {:induction false} PendingAtStart(fm: seq<Member>, tm: seq<Member>, fs: seq<Member>, ts: seq<Member>)
    requires SortedKeys(fs, true) && SortedKeys(ts, true) && TidyMembers(fm) && TidyMembers(tm)
    requires forall m :: m in fs <==> m in fm
    requires forall m :: m in ts <==> m in tm
    requires forall k :: HasKey(fs, k) == HasKey(fm, k)
    requires forall k :: HasKey(ts, k) == HasKey(tm, k)
    requires Restorable(Object(fm), Object(tm))
    ensures Pending(fs, ts)
  {
    hide Tidy, Recoverable, Less, HasKey, SortedKeys;
    forall m | m in fs
      ensures Tidy(m.value)
    {
      var i :| 0 <= i < |fm| && fm[i] == m;
      TidyMemberAt(fm, i);
    }
    forall m | m in ts
      ensures Tidy(m.value)
    {
      var i :| 0 <= i < |tm| && tm[i] == m;
      TidyMemberAt(tm, i);
    }
    var f', t' := Object(fm), Object(tm);
    forall f, t | f in fs && t in ts && f.key == t.key
      ensures Restorable(f.value, t.value) && (Replaced(f.value, t.value) ==> Recoverable(f.key))
    {
      var i :| 0 <= i < |fm| && fm[i] == f;
      var j :| 0 <= j < |tm| && tm[j] == t;
      assert f'.members[i].key == t'.members[j].key;
    }
    forall f | f in fs && !HasKey(ts, f.key)
      ensures Recoverable(f.key)
    {
      var i :| 0 <= i < |fm| && fm[i] == f;
      assert !HasKey(t'.members, f'.members[i].key);
    }
    forall t | t in ts && !HasKey(fs, t.key)
      ensures Recoverable(t.key)
    {
      var j :| 0 <= j < |tm| && tm[j] == t;
      assert !HasKey(f'.members, t'.members[j].key);
    }
  }

  lemma {:induction false} ObjectYields(ms: seq<Member>, fm: seq<Member>, tm: seq<Member>)
    requires DistinctKeys(ms) && TidyMembers(ms) && AbsMembers(ms) == AbsMembers(fm)
    requires DistinctKeys(fm) && TidyMembers(fm) && DistinctKeys(tm) && TidyMembers(tm)
    requires Detachable(Object(ms), Object(tm)) && Restorable(Object(fm), Object(tm))
    ensures Yields(Object(ms), Create("", Object(fm), Object(tm)), Object(tm))
    decreases fm, 1, 0
  {
    hide Detachable, Restorable, Pending, InProgress, SortList, ApplyAll, CreateMembers;
    SameElements(SortList(fm, true), fm);
    ApartDistinct(tm, true);
    SortKeeps(tm, true);
    ObjectStart(ms, fm, tm);
    var ms' := MembersYield(ms, fm, SortList(fm, true), SortList(tm, true), map[]);
    hide AbsMembers, TidyMembers;
    assert map[] + AbsMembers(tm) == AbsMembers(tm);
  }

  /**
   The round trip: generating patches from `from` to `to` and applying them, as JSON objects, to any reordering of
   `from` succeeds at every step and ends with `to` up to member order.
   */
  lemma {:induction false} GenerateThenApply(doc: Json, from: Json, to: Json)
    requires Tidy(doc) && Tidy(from) && Tidy(to) && Abs(doc) == Abs(from)
    requires Detachable(doc, to) && Restorable(from, to)
    ensures var patches := ToJsons(Create("", from, to));
      AllDefined(patches) && var (status, result) := ApplyPatches(doc, patches);
      status == 0 && Abs(result) == Abs(to)
  {
    hide Create, Apply, ApplyPatch, Abs, Tidy, Detachable, Restorable;
    CreateYields(doc, from, to);
    ApplyAllGenerated(doc, Create("", from, to));
  }

  // ---------------------------------------------------------------- documents that can be patched to anything

  /** Sibling keys differ even up to case, everywhere. */
  ghost predicate CaseTidy(j: Json)
    decreases j
  {
    match j
    case Array(items) => forall i :: 0 <= i < |items| ==> CaseTidy(items[i])
    case Object(ms) =>
      && (forall i, j :: 0 <= i < j < |ms| ==> Fold(ms[i].key) != Fold(ms[j].key))
      && forall i :: 0 <= i < |ms| ==> CaseTidy(ms[i].value)
    case _ => true
  }

  /** Whatever a document is patched to, and however it is ordered: keys that differ up to case are enough. */
  lemma {:induction false} CaseTidyDetachable(d: Json, t: Json)
    requires CaseTidy(d)
    ensures Detachable(d, t)
    decreases d
  {
    hide Goes, Less, Fold;
    if Replaced(d, t) {
    } else if d.Array? {
      forall i | 0 <= i < |d.items| && i < |t.items|
        ensures Detachable(d.items[i], t.items[i])
      {
        CaseTidyDetachable(d.items[i], t.items[i]);
      }
    } else if d.Object? {
      forall i, j | 0 <= i < |d.members| && 0 <= j < |t.members| && d.members[i].key == t.members[j].key
        ensures Detachable(d.members[i].value, t.members[j].value)
      {
        CaseTidyDetachable(d.members[i].value, t.members[j].value);
      }
    }
  }
}
