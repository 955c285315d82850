/** Compiling preserves the language: the flat rules derive exactly what the syntax trees stand for. */
module EbnfLanguage {
  import opened EbnfSyntax
  import opened EbnfCode

  // ---------------------------------------------------------------- deeper is more

  lemma {:induction false} ElemsMono(rules: Rules, e: seq<Elem>, w: Word, n: nat, m: nat)
    requires ElemsHave(rules, e, w, n) && n <= m
    ensures ElemsHave(rules, e, w, m)
    decreases n, |e|, 0
  {
    if e != [] {
      match e[0]
      case RuleRef(id) =>
        var k :| 0 <= k <= |w| && DerivesIn(rules, id, w[..k], n) && ElemsHave(rules, e[1..], w[k..], n);
        DerivesMono(rules, id, w[..k], n, m);
        ElemsMono(rules, e[1..], w[k..], n, m);
      case Char(_) => ElemsMono(rules, ScanClass(e, w[0]).1, w[1..], n, m);
      case CharNot(_) => ElemsMono(rules, ScanClass(e, w[0]).1, w[1..], n, m);
      case _ =>
    }
  }

  lemma {:induction false} DerivesMono(rules: Rules, id: nat, w: Word, n: nat, m: nat)
    requires DerivesIn(rules, id, w, n) && n <= m
    ensures DerivesIn(rules, id, w, m)
    decreases n, 0, 0
  {
    var i :| 0 <= i < |AltsOf(rules[id])| && ElemsHave(rules, AltsOf(rules[id])[i], w, n - 1);
    ElemsMono(rules, AltsOf(rules[id])[i], w, n - 1, m - 1);
  }

  lemma {:induction false} ItemMono(g: Grammar, item: Item, w: Word, n: nat, m: nat)
    requires ItemHas(g, item, w, n) && n <= m
    ensures ItemHas(g, item, w, m)
    decreases n, item, 0
  {
    match item
    case Ref(name) => AltsMono(g, g[name], w, n - 1, m - 1);
    case Group(alts) => AltsMono(g, alts, w, n, m);
    case Rep(it, Opt) => if w != [] { ItemMono(g, it, w, n, m); }
    case Rep(it, Star) =>
      var ps: seq<Word> :| Flatten(ps) == w && forall i :: 0 <= i < |ps| ==> ItemHas(g, it, ps[i], n);
      forall i | 0 <= i < |ps| ensures ItemHas(g, it, ps[i], m) { ItemMono(g, it, ps[i], n, m); }
    case Rep(it, Plus) =>
      var ps: seq<Word> :| ps != [] && Flatten(ps) == w && forall i :: 0 <= i < |ps| ==> ItemHas(g, it, ps[i], n);
      forall i | 0 <= i < |ps| ensures ItemHas(g, it, ps[i], m) { ItemMono(g, it, ps[i], n, m); }
    case _ =>
  }

  lemma {:induction false} ItemsMono(g: Grammar, items: seq<Item>, w: Word, n: nat, m: nat)
    requires ItemsHave(g, items, w, n) && n <= m
    ensures ItemsHave(g, items, w, m)
    decreases n, items, 0
  {
    if items != [] {
      var k :| 0 <= k <= |w| && ItemHas(g, items[0], w[..k], n) && ItemsHave(g, items[1..], w[k..], n);
      ItemMono(g, items[0], w[..k], n, m);
      ItemsMono(g, items[1..], w[k..], n, m);
    }
  }

  lemma {:induction false} AltsMono(g: Grammar, alts: seq<Sequence>, w: Word, n: nat, m: nat)
    requires AltsHave(g, alts, w, n) && n <= m
    ensures AltsHave(g, alts, w, m)
    decreases n, alts, 0
  {
    var i :| 0 <= i < |alts| && ItemsHave(g, alts[i].items, w, n);
    ItemsMono(g, alts[i].items, w, n, m);
  }

  // ---------------------------------------------------------------- codes in a row

  /** Nothing at the front that would modify the element before. */
  predicate CleanStart(e: seq<Elem>)
  {
    e == [] || !(e[0].RngUpper? || e[0].CharAlt?)
  }

  lemma {:induction false} ScanConcat(a: seq<Elem>, b: seq<Elem>, x: nat)
    requires a != [] && (a[0].Char? || a[0].CharNot? || a[0].CharAlt?) && CleanStart(b)
    ensures ScanClass(a + b, x) == (ScanClass(a, x).0, ScanClass(a, x).1 + b)
    decreases |a|
  {
    var ranged := |a| > 1 && a[1].RngUpper?;
    assert ranged == (|a + b| > 1 && (a + b)[1].RngUpper?);
    var rest := if ranged then a[2..] else a[1..];
    assert (if ranged then (a + b)[2..] else (a + b)[1..]) == rest + b;
    if rest != [] && rest[0].CharAlt? {
      ScanConcat(rest, b, x);
    }
  }

  /** A word derived from two codes in a row splits between them. */
  lemma {:induction false} ConcatSplits(rules: Rules, a: seq<Elem>, b: seq<Elem>, w: Word, n: nat) returns (k: nat)
    requires CleanStart(b) && ElemsHave(rules, a + b, w, n)
    ensures k <= |w| && ElemsHave(rules, a, w[..k], n) && ElemsHave(rules, b, w[k..], n)
    decreases |a|
  {
    hide ScanClass, DerivesIn;
    if a == [] {
      assert a + b == b;
      k := 0;
      assert w[0..] == w;
    } else {
      assert (a + b)[1..] == a[1..] + b && (a + b)[0] == a[0];
      if a[0].RuleRef? {
        var id := a[0].id;
        var j :| 0 <= j <= |w| && DerivesIn(rules, id, w[..j], n) && ElemsHave(rules, (a + b)[1..], w[j..], n);
        var i := ConcatSplits(rules, a[1..], b, w[j..], n);
        k := j + i;
        assert w[..k][..j] == w[..j] && w[..k][j..] == w[j..][..i] && w[j..][i..] == w[k..];
      } else {
        ScanConcat(a, b, w[0]);
        var rest := ScanClass(a, w[0]).1;
        var i := ConcatSplits(rules, rest, b, w[1..], n);
        k := 1 + i;
        assert w[..k][1..] == w[1..][..i] && w[1..][i..] == w[k..] && w[..k][0] == w[0];
      }
    }
  }

  lemma {:induction false} ConcatJoins(rules: Rules, a: seq<Elem>, b: seq<Elem>, u: Word, v: Word, n: nat)
    requires CleanStart(b) && ElemsHave(rules, a, u, n) && ElemsHave(rules, b, v, n)
    ensures ElemsHave(rules, a + b, u + v, n)
    decreases |a|
  {
    hide ScanClass, DerivesIn;
    if a == [] {
      assert a + b == b && u + v == v;
    } else {
      var w := u + v;
      assert (a + b)[1..] == a[1..] + b && (a + b)[0] == a[0];
      if a[0].RuleRef? {
        var id := a[0].id;
        var j :| 0 <= j <= |u| && DerivesIn(rules, id, u[..j], n) && ElemsHave(rules, a[1..], u[j..], n);
        ConcatJoins(rules, a[1..], b, u[j..], v, n);
        assert w[..j] == u[..j] && w[j..] == u[j..] + v;
      } else {
        ScanConcat(a, b, u[0]);
        ConcatJoins(rules, ScanClass(a, u[0]).1, b, u[1..], v, n);
        assert w[1..] == u[1..] + v && w[0] == u[0];
      }
    }
  }

  lemma {:induction false} CodeClean(i: CItem)
    ensures CleanStart(Code(i))
  {
  }

  lemma {:induction false} CodeAllClean(items: seq<CItem>)
    ensures CleanStart(CodeAll(items))
    decreases |items|
  {
    hide Code;
    if items != [] {
      CodeClean(items[0]);
      CodeAllClean(items[1..]);
    }
  }

  // ---------------------------------------------------------------- terminals

  lemma {:induction false} LitExact(rules: Rules, cs: Word, w: Word, n: nat)
    ensures ElemsHave(rules, LitCode(cs), w, n) <==> w == cs
    decreases |cs|
  {
    if cs != [] {
      var e := LitCode(cs);
      assert e[1..] == LitCode(cs[1..]);
      if w != [] {
        assert ScanClass(e, w[0]) == (w[0] == cs[0], e[1..]);
        LitExact(rules, cs[1..], w[1..], n);
        assert w == [w[0]] + w[1..] && cs == [cs[0]] + cs[1..];
      }
    }
  }

  lemma {:induction false} ScanRanges(first: Elem, rs: seq<Range>, x: nat)
    requires rs != [] && (first.Char? || first.CharNot? || first.CharAlt?) && first.c == Lower(rs[0])
    ensures ScanClass(RangeCode(first, rs[0]) + MoreRanges(rs[1..]), x) == (InRanges(rs, x), [])
    decreases |rs|
  {
    var e := RangeCode(first, rs[0]) + MoreRanges(rs[1..]);
    var more := MoreRanges(rs[1..]);
    assert (if rs[0].Upto? then e[2..] else e[1..]) == more;
    if |rs| > 1 {
      ScanRanges(CharAlt(Lower(rs[1])), rs[1..], x);
      assert more == RangeCode(CharAlt(Lower(rs[1])), rs[1]) + MoreRanges(rs[2..]);
      assert rs[1..][1..] == rs[2..];
      assert InRanges(rs, x) <==> InRange(rs[0], x) || InRanges(rs[1..], x) by { RangesSplit(rs, x); }
    } else {
      RangesSplit(rs, x);
    }
  }

  lemma {:induction false} RangesSplit(rs: seq<Range>, x: nat)
    requires rs != []
    ensures InRanges(rs, x) <==> InRange(rs[0], x) || InRanges(rs[1..], x)
  {
    if InRanges(rs, x) {
      var i :| 0 <= i < |rs| && InRange(rs[i], x);
      assert i > 0 ==> rs[1..][i - 1] == rs[i];
    }
    if InRanges(rs[1..], x) {
      var i :| 0 <= i < |rs[1..]| && InRange(rs[1..][i], x);
      assert rs[i + 1] == rs[1..][i];
    }
  }

  lemma {:induction false} ClassExact(rules: Rules, neg: bool, rs: seq<Range>, w: Word, n: nat)
    ensures ElemsHave(rules, ClassCode(neg, rs), w, n) <==>
      if rs == [] then w == [] else |w| == 1 && (InRanges(rs, w[0]) != neg)
  {
    if rs != [] && w != [] {
      var first := if neg then CharNot(Lower(rs[0])) else Char(Lower(rs[0]));
      ScanRanges(first, rs, w[0]);
      assert ClassCode(neg, rs)[0] == first;
      assert ElemsHave(rules, [], w[1..], n) <==> w[1..] == [];
    }
  }

  // ---------------------------------------------------------------- rules

  predicate NoMarks(e: seq<Elem>)
  {
    forall i :: 0 <= i < |e| ==> !e[i].Alt? && !e[i].End?
  }

  lemma {:induction false} MoreRangesNoMarks(rs: seq<Range>)
    ensures NoMarks(MoreRanges(rs))
    decreases |rs|
  {
    if rs != [] { MoreRangesNoMarks(rs[1..]); }
  }

  lemma {:induction false} LitNoMarks(cs: Word)
    ensures NoMarks(LitCode(cs))
    decreases |cs|
  {
    if cs != [] { LitNoMarks(cs[1..]); }
  }

  lemma {:induction false} CodeNoMarks(i: CItem)
    ensures NoMarks(Code(i))
  {
    match i
    case CLit(cs) => LitNoMarks(cs);
    case CClass(neg, rs) => if rs != [] { MoreRangesNoMarks(rs[1..]); }
    case _ =>
  }

  lemma {:induction false} CodeAllNoMarks(items: seq<CItem>)
    ensures NoMarks(CodeAll(items))
    decreases |items|
  {
    hide Code;
    if items != [] {
      CodeNoMarks(items[0]);
      CodeAllNoMarks(items[1..]);
    }
  }

  /** Up to the first mark everything belongs to the first alternate. */
  lemma {:induction false} AltsOfMark(e: seq<Elem>, rest: seq<Elem>)
    requires NoMarks(e) && rest != [] && (rest[0].Alt? || rest[0].End?)
    ensures AltsOf(e + rest) == [e] + if rest[0].End? then [] else AltsOf(rest[1..])
    decreases |e|
  {
    if e == [] {
      assert e + rest == rest;
    } else {
      assert (e + rest)[1..] == e[1..] + rest && (e + rest)[0] == e[0];
      assert NoMarks(e[1..]);
      AltsOfMark(e[1..], rest);
      assert e == [e[0]] + e[1..];
    }
  }

  function Codes(alts: seq<CSequence>): (r: seq<seq<Elem>>)
    ensures |r| == |alts| && forall i :: 0 <= i < |r| ==> r[i] == CodeAll(alts[i].items)
  {
    seq(|alts|, i requires 0 <= i < |alts| => CodeAll(alts[i].items))
  }

  lemma {:induction false} BodyMore(alts: seq<CSequence>, rest: seq<Elem>)
    requires |alts| > 1
    ensures var n := |alts| - 1;
      Body(alts) + rest == Body(alts[..n]) + ([Alt] + (CodeAll(alts[n].items) + rest))
  {
    hide CodeAll;
  }

  /** Alternates collected so far, one more sequence, and what follows it. */
  lemma {:induction false} OneMoreAlt(b: seq<Elem>, last: seq<Elem>, rest: seq<Elem>, codes: seq<seq<Elem>>,
                                      tail: seq<seq<Elem>>)
    requires var more := [Alt] + (last + rest); AltsOf(b + more) == codes + AltsOf(more[1..])
    requires AltsOf(last + rest) == [last] + tail
    ensures AltsOf(b + ([Alt] + (last + rest))) == (codes + [last]) + tail
  {
    hide AltsOf;
    assert ([Alt] + (last + rest))[1..] == last + rest;
  }

  lemma {:induction false} AltsOfBody(alts: seq<CSequence>, rest: seq<Elem>)
    requires alts != [] && rest != [] && (rest[0].Alt? || rest[0].End?)
    ensures AltsOf(Body(alts) + rest) == Codes(alts) + if rest[0].End? then [] else AltsOf(rest[1..])
    decreases |alts|
  {
    hide CodeAll, Body, AltsOf, NoMarks, Codes;
    var n := |alts| - 1;
    var last := CodeAll(alts[n].items);
    CodeAllNoMarks(alts[n].items);
    AltsOfMark(last, rest);
    var tail := if rest[0].End? then [] else AltsOf(rest[1..]);
    if n > 0 {
      var more := [Alt] + (last + rest);
      AltsOfBody(alts[..n], more);
      OneMoreAlt(Body(alts[..n]), last, rest, Codes(alts[..n]), tail);
      BodyMore(alts, rest);
      CodesSplit(alts, n);
    } else {
      BodyOne(alts);
    }
  }

  lemma {:induction false} BodyOne(alts: seq<CSequence>)
    requires |alts| == 1
    ensures Body(alts) == CodeAll(alts[0].items) && Codes(alts) == [CodeAll(alts[0].items)]
  {
    hide CodeAll;
  }

  lemma {:induction false} CodesSplit(alts: seq<CSequence>, n: nat)
    requires |alts| == n + 1
    ensures Codes(alts) == Codes(alts[..n]) + [CodeAll(alts[n].items)]
  {
    hide CodeAll;
  }

  /** The stored form of a rule has the alternates it was made from. */
  lemma {:induction false} AltsOfRule(alts: seq<CSequence>)
    requires alts != []
    ensures AltsOf(RuleCode(alts)) == Codes(alts)
  {
    hide CodeAll, Body;
    AltsOfBody(alts, [End]);
  }

  lemma {:induction false} AltsOfRep(c: seq<Elem>, id: nat, op: Op)
    requires NoMarks(c)
    ensures AltsOf(RepCode(c, id, op)) ==
      match op
      case Star => [c + [RuleRef(id)], []]
      case Plus => [c + [RuleRef(id)], c]
      case Opt => [c, []]
  {
    var first := if op == Opt then c else c + [RuleRef(id)];
    var last := if op == Plus then c else [];
    var rest := [Alt] + (last + [End]);
    assert RepCode(c, id, op) == first + rest;
    assert rest[1..] == last + [End];
    AltsOfMark(first, rest);
    AltsOfMark(last, [End]);
  }

  // ---------------------------------------------------------------- the two directions

  type Defs = map<string, seq<CSequence>>

  /** The stored rules are the synthesised ones and the last definitions of the names. */
  ghost predicate World(rules: Rules, ids: Ids, syn: Synth, defs: Defs)
  {
    && (forall i :: i in syn ==> i < |rules| && rules[i] == syn[i])
    && (forall n :: IsName(n) && n in ids ==>
          if n in defs then
            && ids[n] < |rules| && defs[n] != [] && rules[ids[n]] == RuleCode(defs[n])
            && KnownAlts(ids, syn, defs[n])
          else ids[n] >= |rules| || rules[ids[n]] == [])
  }

  function Meaning(defs: Defs): Grammar
  {
    map n | n in defs :: EraseAlts(defs[n])
  }

  /** A lone reference derives what its rule derives. */
  lemma {:induction false} LoneRef(rules: Rules, id: nat, w: Word, n: nat)
    ensures ElemsHave(rules, [RuleRef(id)], w, n) <==> DerivesIn(rules, id, w, n)
  {
    var e := [RuleRef(id)];
    assert e[1..] == [];
    if ElemsHave(rules, e, w, n) {
      var k :| 0 <= k <= |w| && DerivesIn(rules, id, w[..k], n) && ElemsHave(rules, e[1..], w[k..], n);
      assert w[k..] == [] && w[..k] == w;
    }
    if DerivesIn(rules, id, w, n) {
      assert w[..|w|] == w && w[|w|..] == [];
    }
  }

  lemma {:induction false} FlattenCons(u: Word, ps: seq<Word>)
    ensures Flatten([u] + ps) == u + Flatten(ps)
  {
    assert ([u] + ps)[1..] == ps;
  }

  // derived words belong to the language

  lemma {:induction false} ItemSound(rules: Rules, ids: Ids, syn: Synth, defs: Defs, i: CItem, w: Word, n: nat)
    requires World(rules, ids, syn, defs) && Known(ids, syn, i) && ElemsHave(rules, Code(i), w, n)
    ensures ItemHas(Meaning(defs), Erase(i), w, n)
    decreases n, 1, 0
  {
    hide RuleCode, RepCode, LitCode, ClassCode, AltsHave, KnownAlts, ElemsHave, EraseAlts, InRanges, ItemsHave;
    var g := Meaning(defs);
    match i
    case CLit(cs) => LitExact(rules, cs, w, n);
    case CClass(neg, rs) => ClassExact(rules, neg, rs, w, n);
    case CRef(name, id) =>
      LoneRef(rules, id, w, n);
      AltsSound(rules, ids, syn, defs, defs[name], id, w, n);
    case CGroup(alts, id) =>
      LoneRef(rules, id, w, n);
      AltsSound(rules, ids, syn, defs, alts, id, w, n);
      AltsMono(g, EraseAlts(alts), w, n - 1, n);
    case CRep(it, op, id) =>
      LoneRef(rules, id, w, n);
      var ps := RepSound(rules, ids, syn, defs, it, op, id, w, n);
      if op == Opt && w != [] {
        assert ps != [];
        assert ps[1..] == [];
        assert w == ps[0];
      }
  }

  lemma {:induction false} ItemsSound(rules: Rules, ids: Ids, syn: Synth, defs: Defs, items: seq<CItem>, w: Word,
                                      n: nat)
    requires World(rules, ids, syn, defs) && KnownAll(ids, syn, items) && ElemsHave(rules, CodeAll(items), w, n)
    ensures ItemsHave(Meaning(defs), EraseAll(items), w, n)
    decreases n, 2, |items|
  {
    hide Code, World, Known, Meaning, Erase;
    if items != [] {
      CodeAllClean(items[1..]);
      var k := ConcatSplits(rules, Code(items[0]), CodeAll(items[1..]), w, n);
      ItemSound(rules, ids, syn, defs, items[0], w[..k], n);
      ItemsSound(rules, ids, syn, defs, items[1..], w[k..], n);
      assert EraseAll(items)[1..] == EraseAll(items[1..]);
    }
  }

  lemma {:induction false} AltsSound(rules: Rules, ids: Ids, syn: Synth, defs: Defs, alts: seq<CSequence>, id: nat,
                                     w: Word, n: nat)
    requires World(rules, ids, syn, defs) && alts != [] && KnownAlts(ids, syn, alts)
    requires DerivesIn(rules, id, w, n) && rules[id] == RuleCode(alts)
    ensures AltsHave(Meaning(defs), EraseAlts(alts), w, n - 1)
    decreases n, 0, 0
  {
    hide World, RuleCode, CodeAll, KnownAll, EraseAll, Meaning;
    AltsOfRule(alts);
    var j :| 0 <= j < |Codes(alts)| && ElemsHave(rules, Codes(alts)[j], w, n - 1);
    KnownAltAt(ids, syn, alts, j);
    ItemsSound(rules, ids, syn, defs, alts[j].items, w, n - 1);
    assert EraseAlts(alts)[j].items == EraseAll(alts[j].items);
  }

  /** The two alternates of a repetition rule. */
  lemma {:induction false} RepAlternative(rules: Rules, c: seq<Elem>, op: Op, id: nat, w: Word, n: nat)
    requires NoMarks(c) && DerivesIn(rules, id, w, n) && rules[id] == RepCode(c, id, op)
    ensures || (op != Opt && ElemsHave(rules, c + [RuleRef(id)], w, n - 1))
            || (op != Star && ElemsHave(rules, c, w, n - 1))
            || (op != Plus && w == [])
  {
    hide RepCode, AltsOf;
    AltsOfRep(c, id, op);
    var j :| 0 <= j < |AltsOf(rules[id])| && ElemsHave(rules, AltsOf(rules[id])[j], w, n - 1);
    assert j == 0 || j == 1;
    assert ElemsHave(rules, [], w, n - 1) <==> w == [];
  }

  /** A word derived from a repetition rule, cut into its repetitions. */
  lemma {:induction false} RepSound(rules: Rules, ids: Ids, syn: Synth, defs: Defs, it: CItem, op: Op, id: nat, w: Word,
                                    n: nat)
    returns (ps: seq<Word>)
    requires World(rules, ids, syn, defs) && Known(ids, syn, it)
    requires DerivesIn(rules, id, w, n) && rules[id] == RepCode(Code(it), id, op)
    ensures Flatten(ps) == w && (op == Plus ==> ps != []) && (op == Opt ==> |ps| <= 1)
    ensures forall i :: 0 <= i < |ps| ==> ItemHas(Meaning(defs), Erase(it), ps[i], n)
    decreases n, 0, 0
  {
    hide World, RepCode, Code, Known, Meaning, Erase, ItemHas, NoMarks, ElemsHave;
    var g, c := Meaning(defs), Code(it);
    CodeNoMarks(it);
    assert n > 0;
    RepAlternative(rules, c, op, id, w, n);
    hide DerivesIn;
    if op != Opt && ElemsHave(rules, c + [RuleRef(id)], w, n - 1) {
      var k := ConcatSplits(rules, c, [RuleRef(id)], w, n - 1);
      LoneRef(rules, id, w[k..], n - 1);
      ItemSound(rules, ids, syn, defs, it, w[..k], n - 1);
      ItemMono(g, Erase(it), w[..k], n - 1, n);
      var more := RepSound(rules, ids, syn, defs, it, op, id, w[k..], n - 1);
      forall i | 0 <= i < |more| ensures ItemHas(g, Erase(it), more[i], n) {
        ItemMono(g, Erase(it), more[i], n - 1, n);
      }
      ps := [w[..k]] + more;
      FlattenCons(w[..k], more);
    } else if op != Star && ElemsHave(rules, c, w, n - 1) {
      ItemSound(rules, ids, syn, defs, it, w, n - 1);
      ItemMono(g, Erase(it), w, n - 1, n);
      ps := [w];
      assert ps[1..] == [] && w + [] == w;
    } else {
      ps := [];
    }
  }

  // words of the language are derived

  lemma {:induction false} ItemComplete(rules: Rules, ids: Ids, syn: Synth, defs: Defs, i: CItem, w: Word, n: nat)
    returns (m: nat)
    requires World(rules, ids, syn, defs) && Known(ids, syn, i) && ItemHas(Meaning(defs), Erase(i), w, n)
    ensures ElemsHave(rules, Code(i), w, m)
    decreases n, i, 0
  {
    hide RuleCode, RepCode, LitCode, ClassCode, AltsHave, KnownAlts, ElemsHave, EraseAlts, InRanges, ItemsHave, NoMarks;
    match i
    case CLit(cs) =>
      m := 0;
      LitExact(rules, cs, w, m);
    case CClass(neg, rs) =>
      m := 0;
      ClassExact(rules, neg, rs, w, m);
    case CRef(name, id) =>
      m := AltsComplete(rules, ids, syn, defs, defs[name], id, w, n - 1);
      LoneRef(rules, id, w, m);
    case CGroup(alts, id) =>
      m := AltsComplete(rules, ids, syn, defs, alts, id, w, n);
      LoneRef(rules, id, w, m);
    case CRep(it, op, id) =>
      var ps := RepPieces(Meaning(defs), Erase(it), op, w, n);
      m := PiecesComplete(rules, ids, syn, defs, it, ps, n);
      m := RepComplete(rules, Code(it), op, id, ps, m) by { CodeNoMarks(it); }
      LoneRef(rules, id, w, m);
  }

  lemma {:induction false} ItemsComplete(rules: Rules, ids: Ids, syn: Synth, defs: Defs, items: seq<CItem>, w: Word,
                                         n: nat) returns (m: nat)
    requires World(rules, ids, syn, defs) && KnownAll(ids, syn, items)
    requires ItemsHave(Meaning(defs), EraseAll(items), w, n)
    ensures ElemsHave(rules, CodeAll(items), w, m)
    decreases n, items, 0
  {
    hide Code, World, Known, Meaning, Erase;
    if items == [] {
      m := 0;
    } else {
      assert EraseAll(items)[1..] == EraseAll(items[1..]);
      var k :| 0 <= k <= |w| && ItemHas(Meaning(defs), Erase(items[0]), w[..k], n)
        && ItemsHave(Meaning(defs), EraseAll(items[1..]), w[k..], n);
      var a := ItemComplete(rules, ids, syn, defs, items[0], w[..k], n);
      var b := ItemsComplete(rules, ids, syn, defs, items[1..], w[k..], n);
      m := if a < b then b else a;
      ElemsMono(rules, Code(items[0]), w[..k], a, m);
      ElemsMono(rules, CodeAll(items[1..]), w[k..], b, m);
      CodeAllClean(items[1..]);
      ConcatJoins(rules, Code(items[0]), CodeAll(items[1..]), w[..k], w[k..], m);
      assert w[..k] + w[k..] == w;
    }
  }

  lemma {:induction false} AltsComplete(rules: Rules, ids: Ids, syn: Synth, defs: Defs, alts: seq<CSequence>, id: nat,
                                        w: Word, n: nat)
    returns (m: nat)
    requires World(rules, ids, syn, defs) && alts != [] && KnownAlts(ids, syn, alts)
    requires AltsHave(Meaning(defs), EraseAlts(alts), w, n) && id < |rules| && rules[id] == RuleCode(alts)
    ensures DerivesIn(rules, id, w, m)
    decreases n, alts, 0
  {
    hide World, CodeAll, KnownAll, EraseAll, Meaning;
    var j :| 0 <= j < |EraseAlts(alts)| && ItemsHave(Meaning(defs), EraseAlts(alts)[j].items, w, n);
    KnownAltAt(ids, syn, alts, j);
    m := ItemsComplete(rules, ids, syn, defs, alts[j].items, w, n);
    m := m + 1;
    AltsOfRule(alts);
    assert ElemsHave(rules, AltsOf(rules[id])[j], w, m - 1);
  }

  /** A word of a repetition, cut into its repetitions. */
  lemma {:induction false} RepPieces(g: Grammar, it: Item, op: Op, w: Word, n: nat) returns (ps: seq<Word>)
    requires ItemHas(g, Rep(it, op), w, n)
    ensures Flatten(ps) == w && (op == Plus ==> ps != []) && (op == Opt ==> |ps| <= 1)
    ensures forall i :: 0 <= i < |ps| ==> ItemHas(g, it, ps[i], n)
  {
    match op
    case Opt =>
      ps := if w == [] then [] else [w];
      assert ps != [] ==> ps[1..] == [] && w + [] == w;
    case Star => ps :| Flatten(ps) == w && forall i :: 0 <= i < |ps| ==> ItemHas(g, it, ps[i], n);
    case Plus => ps :| ps != [] && Flatten(ps) == w && forall i :: 0 <= i < |ps| ==> ItemHas(g, it, ps[i], n);
  }

  lemma {:induction false} PiecesComplete(rules: Rules, ids: Ids, syn: Synth, defs: Defs, it: CItem, ps: seq<Word>,
                                          n: nat) returns (m: nat)
    requires World(rules, ids, syn, defs) && Known(ids, syn, it)
    requires forall i :: 0 <= i < |ps| ==> ItemHas(Meaning(defs), Erase(it), ps[i], n)
    ensures forall i :: 0 <= i < |ps| ==> ElemsHave(rules, Code(it), ps[i], m)
    decreases n, it, 1, |ps|
  {
    hide World, Code, Known, Meaning, Erase, ItemHas, ElemsHave;
    m := 0;
    if ps != [] {
      var a := ItemComplete(rules, ids, syn, defs, it, ps[0], n);
      var b := PiecesComplete(rules, ids, syn, defs, it, ps[1..], n);
      m := if a < b then b else a;
      forall i | 0 <= i < |ps|
        ensures ElemsHave(rules, Code(it), ps[i], m)
      {
        ElemsMono(rules, Code(it), ps[i], if i == 0 then a else b, m);
      }
    }
  }

  /** Repetitions put together are derived from the repetition rule. */
  lemma {:induction false} RepComplete(rules: Rules, c: seq<Elem>, op: Op, id: nat, ps: seq<Word>, n: nat)
    returns (m: nat)
    requires NoMarks(c) && id < |rules| && rules[id] == RepCode(c, id, op)
    requires (op == Plus ==> ps != []) && (op == Opt ==> |ps| <= 1)
    requires forall i :: 0 <= i < |ps| ==> ElemsHave(rules, c, ps[i], n)
    ensures DerivesIn(rules, id, Flatten(ps), m)
    decreases |ps|
  {
    hide ElemsHave, RepCode, AltsOf;
    AltsOfRep(c, id, op);
    assert rules[id] != [] by { NotEmptyRep(c, id, op); }
    var w := Flatten(ps);
    if ps == [] {
      m := 1;
      assert ElemsHave(rules, [], w, 0) by { EmptyDerives(rules); }
      assert AltsOf(rules[id])[1] == [];
    } else if |ps| == 1 && op != Star {
      m := n + 1;
      assert ps[1..] == [] && w == ps[0] + Flatten([]) == ps[0];
      assert AltsOf(rules[id])[if op == Opt then 0 else 1] == c;
    } else {
      var a := RepComplete(rules, c, op, id, ps[1..], n);
      LoneRef(rules, id, Flatten(ps[1..]), a);
      var b := if a < n then n else a;
      ElemsMono(rules, c, ps[0], n, b);
      ElemsMono(rules, [RuleRef(id)], Flatten(ps[1..]), a, b);
      ConcatJoins(rules, c, [RuleRef(id)], ps[0], Flatten(ps[1..]), b);
      m := b + 1;
      assert AltsOf(rules[id])[0] == c + [RuleRef(id)];
    }
  }

  lemma {:induction false} NotEmptyRep(c: seq<Elem>, id: nat, op: Op)
    ensures RepCode(c, id, op) != []
  {
  }

  lemma {:induction false} EmptyDerives(rules: Rules)
    ensures ElemsHave(rules, [], [], 0)
  {
  }

  /** The compiled rule of a name derives exactly the language its last definition stands for. */
  lemma {:induction false} RuleExact(rules: Rules, ids: Ids, syn: Synth, defs: Defs, name: string, w: Word)
    requires World(rules, ids, syn, defs) && IsName(name) && name in ids
    ensures Derives(rules, ids[name], w) <==> RuleHas(Meaning(defs), name, w)
  {
    hide DerivesIn, AltsHave, RuleCode;
    var g, id := Meaning(defs), ids[name];
    if Derives(rules, id, w) {
      var n: nat :| DerivesIn(rules, id, w, n);
      StoredRule(rules, id, w, n);
      AltsSound(rules, ids, syn, defs, defs[name], id, w, n);
    }
    if RuleHas(g, name, w) {
      var n: nat :| AltsHave(g, g[name], w, n);
      var m := AltsComplete(rules, ids, syn, defs, defs[name], id, w, n);
    }
  }

  lemma {:induction false} StoredRule(rules: Rules, id: nat, w: Word, n: nat)
    requires DerivesIn(rules, id, w, n)
    ensures id < |rules| && rules[id] != [] && n > 0
  {
  }
}
