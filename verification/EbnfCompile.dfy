/** The recursive-descent compiler: it reads the notation and fills the tables in one pass. */
module EbnfCompile {
  import opened CStrings
  import opened Options
  import opened Decimals
  import opened EbnfSyntax
  import opened EbnfCode
  import opened EbnfLanguage
  import opened EbnfReading
  import opened EbnfState
  import EbnfNotation
  import EbnfWriting

  // ---------------------------------------------------------------- codes that grow at the end

  lemma {:induction false} LitCodeMore(cs: Word, c: nat)
    ensures LitCode(cs + [c]) == LitCode(cs) + [Char(c)]
    decreases |cs|
  {
    if cs == [] {
      assert ([] + [c])[1..] == [];
    } else {
      LitCodeMore(cs[1..], c);
      assert (cs + [c])[1..] == cs[1..] + [c];
    }
  }

  lemma {:induction false} MoreRangesMore(rs: seq<Range>, r: Range)
    ensures MoreRanges(rs + [r]) == MoreRanges(rs) + RangeCode(CharAlt(Lower(r)), r)
    decreases |rs|
  {
    hide RangeCode;
    if rs == [] {
      assert ([] + [r])[1..] == [];
    } else {
      MoreRangesMore(rs[1..], r);
      assert (rs + [r])[1..] == rs[1..] + [r];
    }
  }

  lemma {:induction false} ClassCodeCons(neg: bool, rs: seq<Range>)
    requires rs != []
    ensures ClassCode(neg, rs) ==
      RangeCode(if neg then CharNot(Lower(rs[0])) else Char(Lower(rs[0])), rs[0]) + MoreRanges(rs[1..])
  {
    hide RangeCode, MoreRanges;
  }

  lemma {:induction false} ClassCodeMore(neg: bool, rs: seq<Range>, r: Range)
    ensures ClassCode(neg, rs + [r]) == ClassCode(neg, rs) +
      RangeCode(if rs != [] then CharAlt(Lower(r)) else if neg then CharNot(Lower(r)) else Char(Lower(r)), r)
  {
    ClassCodeCons(neg, rs + [r]);
    assert rs == [] ==> MoreRanges((rs + [r])[1..]) == [] && ClassCode(neg, rs) == [];
    hide RangeCode, ClassCode, MoreRanges, Lower;
    if rs != [] {
      ClassCodeCons(neg, rs);
      MoreRangesMore(rs[1..], r);
      assert (rs + [r])[1..] == rs[1..] + [r];
    }
  }

  lemma {:induction false} ClassCodeEmpty(neg: bool, rs: seq<Range>)
    ensures ClassCode(neg, rs) == [] <==> rs == []
  {
  }

  // ---------------------------------------------------------------- literals and classes

  /** The inside of a literal: one element for every character. */
  method ParseLiteral(src: string, start: nat, outElements: seq<Elem>)
    returns (ok: bool, pos: nat, out: seq<Elem>, ghost cs: Word)
    requires start <= |src|
    ensures ok <==> ReadLit(src, start).Some?
    ensures ok ==> ReadLit(src, start).value == (cs, pos) && out == outElements + LitCode(cs)
  {
    hide ParseChar;
    pos, out, cs := start, outElements, [];
    assert ReadLit(src, start).Some? ==> [] + ReadLit(src, start).value.0 == ReadLit(src, start).value.0;
    while At(src, pos) != '"'
      invariant pos <= |src| && out == outElements + LitCode(cs)
      invariant ReadLit(src, start) ==
        match ReadLit(src, pos) case None => None case Some((more, q)) => Some((cs + more, q))
      decreases |src| - pos
    {
      var r := ParseChar(src, pos);
      if r == None { return false, pos, out, cs; }
      LitCodeMore(cs, r.value.0);
      var rest := ReadLit(src, r.value.1);
      assert rest.Some? ==> cs + ([r.value.0] + rest.value.0) == cs + [r.value.0] + rest.value.0;
      out := out + [Char(r.value.0)];
      cs := cs + [r.value.0];
      pos := r.value.1;
    }
    ok := true;
    assert cs + [] == cs;
  }

  /** The inside of a class: the first element starts it, the others modify or extend it. */
  method ParseClass(src: string, start: nat, neg: bool, outElements: seq<Elem>)
    returns (ok: bool, pos: nat, out: seq<Elem>, ghost rs: seq<Range>)
    requires start <= |src|
    ensures ok <==> ReadRanges(src, start).Some?
    ensures ok ==> ReadRanges(src, start).value == (rs, pos) && out == outElements + ClassCode(neg, rs)
  {
    hide ParseChar, ClassCode;
    var lastSymStart := |outElements|;
    pos, out, rs := start, outElements, [];
    assert ClassCode(neg, []) == [] by { ClassCodeEmpty(neg, []); }
    assert ReadRanges(src, start).Some? ==> [] + ReadRanges(src, start).value.0 == ReadRanges(src, start).value.0;
    while At(src, pos) != ']'
      invariant pos <= |src| && out == outElements + ClassCode(neg, rs)
      invariant ReadRanges(src, start) ==
        match ReadRanges(src, pos) case None => None case Some((more, q)) => Some((rs + more, q))
      decreases |src| - pos
    {
      ghost var from := pos;
      var r := ParseChar(src, pos);
      if r == None { return false, pos, out, rs; }
      ClassCodeEmpty(neg, rs);
      var c := r.value.0;
      var first := if lastSymStart < |out| then CharAlt(c) else if neg then CharNot(c) else Char(c);
      pos := r.value.1;
      out := out + [first];
      ghost var range := One(c);
      if At(src, pos) == '-' && At(src, pos + 1) != ']' {
        var e := ParseChar(src, pos + 1);
        if e == None { return false, pos, out, rs; }
        pos := e.value.1;
        out := out + [RngUpper(e.value.0)];
        range := Upto(c, e.value.0);
      }
      assert ReadRange(src, from) == Some((range, pos));
      ClassCodeMore(neg, rs, range);
      var rest := ReadRanges(src, pos);
      assert rest.Some? ==> rs + ([range] + rest.value.0) == rs + [range] + rest.value.0;
      rs := rs + [range];
    }
    ok := true;
    assert rs + [] == rs;
  }

  // ---------------------------------------------------------------- the compiler

  lemma {:induction false} EraseMore(items: seq<CItem>, i: CItem)
    ensures EraseAll(items + [i]) == EraseAll(items) + [Erase(i)]
  {
    hide Erase;
  }

  lemma {:induction false} CodeMore(items: seq<CItem>, i: CItem)
    ensures CodeAll(items + [i]) == CodeAll(items) + Code(i)
  {
    hide Code;
    CodeAllSplit(items, [i]);
    CodeAllOne(i);
  }

  lemma {:induction false} KnownMore(ids: Ids, syn: Synth, items: seq<CItem>, i: CItem)
    requires KnownAll(ids, syn, items) && Known(ids, syn, i)
    ensures KnownAll(ids, syn, items + [i])
  {
    hide Known;
    forall k | 0 <= k < |items|
      ensures Known(ids, syn, items[k])
    {
      KnownAt(ids, syn, items, k);
    }
    KnownAllIs(ids, syn, items + [i]);
  }

  lemma {:induction false} KnownPrefix(ids: Ids, syn: Synth, items: seq<CItem>, n: nat)
    requires KnownAll(ids, syn, items) && n <= |items|
    ensures KnownAll(ids, syn, items[..n])
  {
    hide Known;
    forall k | 0 <= k < n
      ensures Known(ids, syn, items[k])
    {
      KnownAt(ids, syn, items, k);
    }
    KnownAllIs(ids, syn, items[..n]);
  }

  lemma {:induction false} EmptyCode(i: CItem)
    ensures Code(i) == [] <==> IsEmptyItem(Erase(i))
  {
    match i
    case CClass(neg, rs) => ClassCodeEmpty(neg, rs);
    case _ =>
  }

  /** A sequence under construction: its items, their code and where the last symbol's code starts. */
  ghost predicate Building(ids: Ids, syn: Synth, base: seq<Elem>, items: seq<CItem>, out: seq<Elem>, lastSymStart: nat)
  {
    && KnownAll(ids, syn, items)
    && out == base + CodeAll(items)
    && lastSymStart <= |out|
    && (if items == [] then lastSymStart == |out|
        else var n := |items| - 1;
          out[..lastSymStart] == base + CodeAll(items[..n]) && out[lastSymStart..] == Code(items[n]))
  }

  lemma {:induction false} Built(ids: Ids, syn: Synth, base: seq<Elem>, items: seq<CItem>, out: seq<Elem>, i: CItem)
    requires KnownAll(ids, syn, items) && out == base + CodeAll(items) && Known(ids, syn, i)
    ensures Building(ids, syn, base, items + [i], out + Code(i), |out|)
  {
    hide Known, Code, KnownAll;
    KnownMore(ids, syn, items, i);
    CodeMore(items, i);
    assert (items + [i])[..|items|] == items;
    assert base + CodeAll(items) + Code(i) == base + (CodeAll(items) + Code(i));
  }

  lemma {:induction false} BuildingGrows(ids: Ids, syn: Synth, ids': Ids, syn': Synth, base: seq<Elem>,
                                         items: seq<CItem>, out: seq<Elem>, lastSymStart: nat)
    requires Building(ids, syn, base, items, out, lastSymStart) && Extends(ids, syn, ids', syn')
    ensures Building(ids', syn', base, items, out, lastSymStart)
  {
    hide Known, Code, KnownAll;
    KnownAllGrow(ids, syn, ids', syn', items);
  }

  // ---------------------------------------------------------------- repetitions

  lemma {:induction false} RepeatGuard(ids: Ids, syn: Synth, base: seq<Elem>, items: seq<CItem>, out: seq<Elem>,
                                       lastSymStart: nat)
    requires Building(ids, syn, base, items, out, lastSymStart)
    ensures CanRepeat(EraseAll(items)) <==> lastSymStart != |out|
  {
    hide Known, KnownAll, Code, CodeAll, Erase;
    if items != [] { EmptyCode(items[|items| - 1]); }
  }

  lemma {:induction false} RepHasSource(ids: Ids, syn: Synth, id: nat, it: CItem, op: Op)
    requires Known(ids, syn, it) && id !in syn
    ensures HasSource(ids, syn[id := RepCode(Code(it), id, op)], id)
  {
    hide Known, Code, RepCode;
    KnownGrows(ids, syn, ids, syn[id := RepCode(Code(it), id, op)], it);
  }

  /** The last symbol gives way to a reference to its repetition. */
  lemma {:induction false} Repeated(ids: Ids, syn: Synth, base: seq<Elem>, items: seq<CItem>,
                                    out: seq<Elem>, lastSymStart: nat, id: nat, op: Op)
    requires Building(ids, syn, base, items, out, lastSymStart) && items != []
    requires id in syn && syn[id] == RepCode(Code(items[|items| - 1]), id, op)
    ensures var n := |items| - 1; var items' := items[..n] + [CRep(items[n], op, id)];
      && Building(ids, syn, base, items', out[..lastSymStart] + [RuleRef(id)], lastSymStart)
      && EraseAll(items') == EraseAll(items)[..n] + [Rep(EraseAll(items)[n], op)]
  {
    hide KnownAll, RepCode, CodeAll;
    var n := |items| - 1;
    var i := CRep(items[n], op, id);
    KnownPrefix(ids, syn, items, n);
    KnownAt(ids, syn, items, n);
    Built(ids, syn, base, items[..n], out[..lastSymStart], i);
    EraseMore(items[..n], i);
    assert EraseAll(items)[..n] == EraseAll(items[..n]);
  }

  /** The symbol, perhaps the rule itself, an alternate, and for `+` the symbol alone. */
  method RepetitionRule(symbol: seq<Elem>, id: nat, op: Op) returns (subRule: seq<Elem>)
    ensures subRule == RepCode(symbol, id, op)
  {
    subRule := symbol;
    if op == Star || op == Plus { subRule := subRule + [RuleRef(id)]; }
    subRule := subRule + [Alt];
    if op == Plus { subRule := subRule + symbol; }
    subRule := subRule + [End];
  }

  class ParseState {
    var symbolIds: Ids
    var rules: Rules
    ghost var synth: Synth
    ghost var defs: Defs

    ghost predicate Valid()
      reads this
    {
      IdsOk(symbolIds) && RulesOk(symbolIds, rules, synth, defs)
    }

    constructor ()
      ensures Valid() && symbolIds == map[] && rules == [] && defs == map[] && synth == map[]
    {
      symbolIds, rules, synth, defs := map[], [], map[], map[];
    }

    method GetSymbolId(name: string) returns (id: nat)
      requires Valid() && IsName(name)
      modifies this`symbolIds
      ensures Valid() && name in symbolIds && symbolIds[name] == id
      ensures symbolIds == if name in old(symbolIds) then old(symbolIds) else old(symbolIds)[name := |old(symbolIds)|]
      ensures Grew(old(symbolIds), synth, symbolIds, synth)
    {
      hide IdsOk, RulesOk, IsName;
      if name !in symbolIds {
        NameAdded(symbolIds, rules, synth, defs, name);
        symbolIds := symbolIds[name := |symbolIds|];
      }
      return symbolIds[name];
    }

    method GenerateSymbolId(baseName: string) returns (id: nat)
      requires Valid() && IsName(baseName)
      modifies this`symbolIds
      ensures Valid() && FreshSub(symbolIds, synth, id) && id == |old(symbolIds)|
      ensures (var made := baseName + "_" + Decimal(id);
        made !in old(symbolIds) && symbolIds == old(symbolIds)[made := id])
      ensures Grew(old(symbolIds), synth, symbolIds, synth)
    {
      id := |symbolIds|;
      ghost var old' := symbolIds;
      MadeNameIsNew(symbolIds, baseName);
      NameAdded(symbolIds, rules, synth, defs, baseName + "_" + Decimal(id));
      symbolIds := symbolIds[baseName + "_" + Decimal(id) := id];
      NextIsFresh(old', rules, synth, defs, baseName + "_" + Decimal(id));
    }

    /** Stores a rule under its number, growing the table when needed. */
    method AddRule(id: nat, rule: seq<Elem>)
      modifies this`rules
      ensures rules == Store(old(rules), id, rule)
    {
      if |rules| <= id {
        rules := rules + seq(id + 1 - |rules|, i => []);
      }
      rules := rules[id := rule];
    }

    method AddSynthRule(id: nat, rule: seq<Elem>)
      requires Valid() && FreshSub(symbolIds, synth, id)
      requires HasSource(symbolIds, synth[id := rule], id)
      modifies this`rules, this`synth
      ensures Valid() && synth == old(synth)[id := rule]
    {
      hide IdsOk, RulesOk, HasSource, FreshSub, Store;
      SynthStored(symbolIds, rules, synth, defs, id, rule);
      AddRule(id, rule);
      synth := synth[id := rule];
    }

    /** The rule of a group. */
    method AddGroupRule(id: nat, rule: seq<Elem>, ghost alts: seq<CSequence>)
      requires Valid() && FreshSub(symbolIds, synth, id)
      requires alts != [] && KnownAlts(symbolIds, synth, alts) && rule == RuleCode(alts)
      modifies this`rules, this`synth
      ensures Valid() && id !in old(synth) && synth == old(synth)[id := rule] && KnownAlts(symbolIds, synth, alts)
    {
      hide IdsOk, RulesOk, KnownAlts, RuleCode;
      FreshIsNew(symbolIds, synth, id);
      KnownAltsGrow(symbolIds, synth, symbolIds, synth[id := rule], alts);
      AddSynthRule(id, rule);
    }

    /** The rule of a name; a second one replaces the first. */
    method AddUserRule(name: string, id: nat, rule: seq<Elem>, ghost alts: seq<CSequence>)
      requires Valid() && IsName(name) && name in symbolIds && symbolIds[name] == id
      requires alts != [] && KnownAlts(symbolIds, synth, alts) && rule == RuleCode(alts)
      modifies this`rules, this`defs
      ensures Valid() && defs == old(defs)[name := alts]
    {
      hide IdsOk, RulesOk, KnownAlts, RuleCode, IsName, Store;
      UserStored(symbolIds, rules, synth, defs, name, alts);
      AddRule(id, rule);
      defs := defs[name := alts];
    }

    /** A repetition sign: the last symbol moves into a rule of its own. */
    method ParseRepetition(op: Op, ruleName: string, elements: seq<Elem>, lastSymStart: nat,
                           ghost base: seq<Elem>, ghost items: seq<CItem>)
      returns (ok: bool, out: seq<Elem>, ghost items': seq<CItem>)
      requires Valid() && IsName(ruleName) && Building(symbolIds, synth, base, items, elements, lastSymStart)
      modifies this
      ensures Valid() && Grew(old(symbolIds), old(synth), symbolIds, synth) && defs == old(defs)
      ensures ok <==> CanRepeat(EraseAll(items))
      ensures ok ==> Building(symbolIds, synth, base, items', out, lastSymStart)
      ensures ok ==> EraseAll(items') == EraseAll(items)[..|items| - 1] + [Rep(EraseAll(items)[|items| - 1], op)]
    {
      hide IdsOk, RulesOk, IsName, Known, KnownAll, Code, CodeAll, HasSource, FreshSub, CanRepeat, Erase, RepCode, Grew;
      RepeatGuard(symbolIds, synth, base, items, elements, lastSymStart);
      NothingGrew(symbolIds, synth);
      if lastSymStart == |elements| { return false, elements, items; }
      ghost var ids, syn, it := symbolIds, synth, items[|items| - 1];
      var id := GenerateSymbolId(ruleName);
      BuildingGrows(ids, syn, symbolIds, synth, base, items, elements, lastSymStart);
      var subRule := RepetitionRule(elements[lastSymStart..], id, op);
      FreshIsNew(symbolIds, synth, id);
      KnownAt(symbolIds, synth, items, |items| - 1);
      RepHasSource(symbolIds, synth, id, it, op);
      ghost var ids1, syn1 := symbolIds, synth;
      AddSynthRule(id, subRule);
      BuildingGrows(ids1, syn1, symbolIds, synth, base, items, elements, lastSymStart);
      Repeated(symbolIds, synth, base, items, elements, lastSymStart, id, op);
      GrewStored(ids, syn, symbolIds, synth, id, subRule);
      ok := true;
      out := elements[..lastSymStart] + [RuleRef(id)];
      items' := items[..|items| - 1] + [CRep(it, op, id)];
    }

    /** Symbols up to the end of the sequence, each appended to the elements. */
    method ParseSequence(src: string, start: nat, ruleName: string, outElements: seq<Elem>, nested: bool)
      returns (ok: bool, pos: nat, out: seq<Elem>, ghost items: seq<CItem>)
      requires Valid() && start <= |src| && IsName(ruleName)
      modifies this
      ensures Valid() && Grew(old(symbolIds), old(synth), symbolIds, synth) && defs == old(defs)
      ensures ok <==> ReadSequence(src, start, nested, []).Some?
      ensures ok ==> ReadSequence(src, start, nested, []).value == (EraseAll(items), pos)
      ensures ok ==> KnownAll(symbolIds, synth, items) && out == outElements + CodeAll(items)
      decreases |src| - start, 0
    {
      hide *;
      pos, out, items := start, outElements, [];
      var lastSymStart: nat := |out|;
      NothingBuilt(symbolIds, synth, outElements);
      NothingGrew(symbolIds, synth);
      while true
        invariant start <= pos <= |src|
        invariant Valid() && Grew(old(symbolIds), old(synth), symbolIds, synth) && defs == old(defs)
        invariant Building(symbolIds, synth, outElements, items, out, lastSymStart)
        invariant ReadSequence(src, pos, nested, EraseAll(items)) == ReadSequence(src, start, nested, [])
        decreases |src| - pos
      {
        ghost var ids, syn := symbolIds, synth;
        var c := At(src, pos);
        Inside(src, pos);
        Inside(src, pos + 1);
        if c == '"' {
          ReadOneLit(src, pos, nested, EraseAll(items));
          var done, q, more;
          ghost var cs;
          done, q, more, cs := ParseLiteral(src, pos + 1, out);
          if !done { return false, pos, out, items; }
          BuiltLit(symbolIds, synth, outElements, items, out, lastSymStart, cs);
          lastSymStart := |out|;
          out, pos, items := more, Space(src, q + 1, nested), items + [CLit(cs)];
        } else if c == '[' {
          ReadOneClass(src, pos, nested, EraseAll(items));
          var neg := At(src, pos + 1) == '^';
          var done, q, more;
          ghost var rs;
          done, q, more, rs := ParseClass(src, if neg then pos + 2 else pos + 1, neg, out);
          if !done { return false, pos, out, items; }
          BuiltClass(symbolIds, synth, outElements, items, out, lastSymStart, neg, rs);
          lastSymStart := |out|;
          out, pos, items := more, Space(src, q + 1, nested), items + [CClass(neg, rs)];
        } else if IsWordChar(c) {
          ReadOneRef(src, pos, nested, EraseAll(items));
          var e := NameEnd(src, pos);
          WordRead(src, pos);
          var id := GetSymbolId(src[pos..e]);
          GrewOn(old(symbolIds), old(synth), ids, syn, symbolIds, synth, outElements, items, out, lastSymStart);
          BuiltRef(symbolIds, synth, outElements, items, out, lastSymStart, src[pos..e], id);
          lastSymStart := |out|;
          out, pos, items := out + [RuleRef(id)], Space(src, e, nested), items + [CRef(src[pos..e], id)];
        } else if c == '(' {
          ReadOneGroup(src, pos, nested, EraseAll(items));
          var done, q, id;
          ghost var alts;
          done, q, id, alts := ParseGroup(src, Space(src, pos + 1, true), ruleName);
          if done {
            GrewOn(old(symbolIds), old(synth), ids, syn, symbolIds, synth, outElements, items, out, lastSymStart);
            BuiltGroup(symbolIds, synth, outElements, items, out, lastSymStart, alts, id);
          } else {
            GrewTwice(old(symbolIds), old(synth), ids, syn, symbolIds, synth);
            return false, pos, out, items;
          }
          lastSymStart := |out|;
          out, pos, items := out + [RuleRef(id)], Space(src, q + 1, nested), items + [CGroup(alts, id)];
        } else if c == '*' || c == '+' || c == '?' {
          ReadOneRep(src, pos, nested, EraseAll(items));
          var done, more;
          ghost var items';
          done, more, items' := ParseRepetition(OpOf(c), ruleName, out, lastSymStart, outElements, items);
          GrewTwice(old(symbolIds), old(synth), ids, syn, symbolIds, synth);
          if !done { return false, pos, out, items; }
          out, pos, items := more, Space(src, pos + 1, nested), items';
        } else {
          ReadEnding(src, pos, nested, EraseAll(items));
          BuildingHas(symbolIds, synth, outElements, items, out, lastSymStart);
          return true, pos, out, items;
        }
      }
    }

    /** A group, up to its closing bracket. */
    method ParseGroup(src: string, start: nat, ruleName: string)
      returns (ok: bool, pos: nat, id: nat, ghost alts: seq<CSequence>)
      requires Valid() && start <= |src| && IsName(ruleName)
      modifies this
      ensures Valid() && Grew(old(symbolIds), old(synth), symbolIds, synth) && defs == old(defs)
      ensures ok <==> var r := ReadAlternates(src, start, true, []); r.Some? && At(src, r.value.1) == ')'
      ensures ok ==> ReadAlternates(src, start, true, []).value == (EraseAlts(alts), pos)
      ensures ok ==> Known(symbolIds, synth, CGroup(alts, id))
      decreases |src| - start, 3
    {
      hide IdsOk, RulesOk, IsName, FreshSub, RuleCode, ReadAlternates, EraseAlts, KnownAlts, Extends;
      id := GenerateSymbolId(ruleName);
      ghost var ids := symbolIds;
      ok, pos, alts := ParseAlternates(src, start, ruleName, id, true);
      GroupGrew(old(symbolIds), old(synth), ids, symbolIds, synth, id);
      ok := ok && At(src, pos) == ')';
    }

    /** Sequences joined by alternate marks, up to the first character that continues neither. */
    method ParseBody(src: string, start: nat, ruleName: string, nested: bool)
      returns (ok: bool, pos: nat, rule: seq<Elem>, ghost alts: seq<CSequence>)
      requires Valid() && start <= |src| && IsName(ruleName)
      modifies this
      ensures Valid() && Grew(old(symbolIds), old(synth), symbolIds, synth) && defs == old(defs)
      ensures ok <==> ReadAlternates(src, start, nested, []).Some?
      ensures ok ==> ReadAlternates(src, start, nested, []).value == (EraseAlts(alts), pos)
      ensures ok ==> alts != [] && KnownAlts(symbolIds, synth, alts) && rule == Body(alts)
      decreases |src| - start, 1
    {
      hide IdsOk, RulesOk, IsName, ReadSequence, KnownAll, KnownAlts, CodeAll, Body, EraseAlts, Grew, Space, EraseAll;
      ghost var items;
      alts := [];
      ok, pos, rule, items := ParseSequence(src, start, ruleName, [], nested);
      if !ok { return; }
      alts := [CSequence(items)];
      assert [] + CodeAll(items) == CodeAll(items);
      OneAlt(symbolIds, synth, items);
      assert [] + [Sequence(EraseAll(items))] == [Sequence(EraseAll(items))];
      while At(src, pos) == '|'
        invariant start <= pos <= |src| && ok
        invariant Valid() && Grew(old(symbolIds), old(synth), symbolIds, synth) && defs == old(defs)
        invariant alts != [] && KnownAlts(symbolIds, synth, alts) && rule == Body(alts)
        invariant ReadAlternates(src, start, nested, []) ==
          if At(src, pos) == '|' then ReadAlternates(src, Space(src, pos + 1, true), nested, EraseAlts(alts))
          else Some((EraseAlts(alts), pos))
        decreases |src| - pos
      {
        ghost var ids, syn := symbolIds, synth;
        rule := rule + [Alt];
        pos := Space(src, pos + 1, true);
        ok, pos, rule, items := ParseSequence(src, pos, ruleName, rule, nested);
        GrewTwice(old(symbolIds), old(synth), ids, syn, symbolIds, synth);
        if !ok { return; }
        AltAdded(ids, syn, symbolIds, synth, alts, items);
        alts := alts + [CSequence(items)];
      }
    }

    /** Alternates, stored with an end mark as the rule of the given number. */
    method ParseAlternates(src: string, start: nat, ruleName: string, ruleId: nat, nested: bool)
      returns (ok: bool, pos: nat, ghost alts: seq<CSequence>)
      requires Valid() && start <= |src| && IsName(ruleName)
      requires if nested then FreshSub(symbolIds, synth, ruleId)
        else ruleName in symbolIds && symbolIds[ruleName] == ruleId
      modifies this
      ensures Valid() && GrewBut(old(symbolIds), old(synth), symbolIds, synth, ruleId)
      ensures ok <==> ReadAlternates(src, start, nested, []).Some?
      ensures ok ==> ReadAlternates(src, start, nested, []).value == (EraseAlts(alts), pos)
      ensures ok ==> alts != [] && KnownAlts(symbolIds, synth, alts)
      ensures ok && nested ==> ruleId in synth && synth[ruleId] == RuleCode(alts)
      ensures defs == if ok && !nested then old(defs)[ruleName := alts] else old(defs)
      decreases |src| - start, 2
    {
      hide IdsOk, RulesOk, IsName, FreshSub, ReadAlternates, KnownAlts, Body, EraseAlts, Grew, GrewBut;
      var rule;
      ok, pos, rule, alts := ParseBody(src, start, ruleName, nested);
      GrewIsGrewBut(old(symbolIds), old(synth), symbolIds, synth, ruleId);
      if !ok { return; }
      rule := rule + [End];
      if nested {
        FreshStays(old(symbolIds), old(synth), symbolIds, synth, ruleId);
        ghost var syn := synth;
        AddGroupRule(ruleId, rule, alts);
        GrewButStored(old(symbolIds), old(synth), symbolIds, syn, synth, ruleId);
      } else {
        AddUserRule(ruleName, ruleId, rule, alts);
      }
    }

    /** A name, the defining sign and the alternates, up to the start of the next rule. */
    method ParseRule(src: string, start: nat) returns (ok: bool, pos: nat)
      requires Valid() && start <= |src|
      modifies this
      ensures Valid()
      ensures ok <==> ReadRule(src, start).Some?
      ensures ok ==> var (r, q) := ReadRule(src, start).value;
        pos == q && IsName(r.name) && Meaning(defs) == Meaning(old(defs))[r.name := r.alts]
    {
      hide *;
      ReadRuleBy(src, start);
      var nameEnd := NameEnd(src, start);
      pos := start;
      if nameEnd == start { return false, pos; }
      NameRead(src, start);
      var name := src[start..nameEnd];
      pos := Space(src, nameEnd, false);
      var ruleId := GetSymbolId(name);
      if !(At(src, pos) == ':' && At(src, pos + 1) == ':' && At(src, pos + 2) == '=') { return false, pos; }
      Inside(src, pos + 2);
      ghost var alts;
      ok, pos, alts := ParseAlternates(src, Space(src, pos + 3, true), name, ruleId, false);
      if !ok { return; }
      MeaningMore(old(defs), name, alts);
      Inside(src, pos);
      Inside(src, pos + 1);
      if At(src, pos) == '\r' {
        pos := pos + if At(src, pos + 1) == '\n' then 2 else 1;
      } else if At(src, pos) == '\n' {
        pos := pos + 1;
      } else if At(src, pos) != '\0' {
        return false, pos;
      }
      pos := Space(src, pos, true);
    }
  }

  /** The parts of a rule in the order they are read. */
  lemma {:induction false} NameRead(src: string, pos: nat)
    requires pos <= |src| && NameEnd(src, pos) != pos
    ensures pos < NameEnd(src, pos) && IsName(src[pos..NameEnd(src, pos)])
  {
  }

  lemma {:induction false} MeaningMore(defs: Defs, name: string, alts: seq<CSequence>)
    ensures Meaning(defs[name := alts]) == Meaning(defs)[name := EraseAlts(alts)]
  {
    hide EraseAlts;
  }

  lemma {:induction false} DefinitionsMore(rules: seq<Rule>, r: Rule)
    ensures Definitions(rules + [r]) == Definitions(rules)[r.name := r.alts]
  {
    assert (rules + [r])[..|rules|] == rules;
  }

  /** The whole text. A text that does not read leaves an empty table. */
  method Parse(src: string) returns (ok: bool, state: ParseState)
    ensures fresh(state) && state.Valid()
    ensures ok <==> ReadGrammar(src).Some?
    ensures ok ==> Meaning(state.defs) == Definitions(ReadGrammar(src).value)
    ensures ok ==> Compiled(Definitions(ReadGrammar(src).value), state.symbolIds, state.rules)
    ensures forall rules :: EbnfNotation.Written(src, rules) ==>
      ok && Compiled(Definitions(rules), state.symbolIds, state.rules)
    ensures EbnfWriting.NulFree(src) && ok ==> exists rules :: EbnfNotation.Written(src, rules)
    ensures !ok ==> state.symbolIds == map[] && state.rules == []
  {
    hide IdsOk, RulesOk, ReadRule, Meaning, Definitions, Space, Compiled, EbnfNotation.Written, EbnfWriting.NulFree;
    EbnfWriting.WrittenReads(src);
    state := new ParseState();
    var pos := Space(src, 0, true);
    ghost var read: seq<Rule> := [];
    NoMeaning();
    while At(src, pos) != '\0'
      invariant pos <= |src| && fresh(state) && state.Valid()
      invariant ReadRules(src, pos, read) == ReadGrammar(src)
      invariant Meaning(state.defs) == Definitions(read)
      decreases |src| - pos
    {
      ghost var r := ReadRule(src, pos);
      ok, pos := state.ParseRule(src, pos);
      if !ok {
        state := new ParseState();
        return;
      }
      DefinitionsMore(read, r.value.0);
      read := read + [r.value.0];
    }
    ok := true;
    CompiledExact(state.symbolIds, state.rules, state.synth, state.defs);
    if EbnfWriting.NulFree(src) { EbnfWriting.ReadExactly(src, read); }
  }

  lemma {:induction false} NoMeaning()
    ensures Meaning(map[]) == Definitions([])
  {
  }

  /** Every defined name has a number, and every numbered name derives exactly what the notation says it stands for. */
  ghost predicate Compiled(g: Grammar, ids: Ids, rules: Rules)
  {
    && (forall name :: name in g ==> name in ids && IsName(name))
    && (forall name, w :: name in ids && IsName(name) ==> (Derives(rules, ids[name], w) <==> RuleHas(g, name, w)))
  }

  /** The tables of a run compile the grammar that was read. */
  lemma {:induction false} CompiledExact(ids: Ids, rules: Rules, syn: Synth, defs: Defs)
    requires IdsOk(ids) && RulesOk(ids, rules, syn, defs)
    ensures Compiled(Meaning(defs), ids, rules)
  {
    hide IdsOk, Derives, RuleHas, World, IsName, EraseAlts, KnownAlts, RuleCode, HasSource;
    OkIsWorld(ids, rules, syn, defs);
    forall name, w | name in ids && IsName(name)
      ensures Derives(rules, ids[name], w) <==> RuleHas(Meaning(defs), name, w)
    {
      RuleExact(rules, ids, syn, defs, name, w);
    }
  }

  lemma {:induction false} GrewStored(ids: Ids, syn: Synth, ids': Ids, syn': Synth, id: nat, rule: seq<Elem>)
    requires Grew(ids, syn, ids', syn) && id >= |ids| && id !in syn && syn' == syn[id := rule]
    ensures Grew(ids, syn, ids', syn')
  {
  }

  lemma {:induction false} NothingBuilt(ids: Ids, syn: Synth, base: seq<Elem>)
    ensures Building(ids, syn, base, [], base, |base|) && EraseAll([]) == []
  {
    assert base + [] == base;
  }

  lemma {:induction false} NothingGrew(ids: Ids, syn: Synth)
    ensures Grew(ids, syn, ids, syn)
  {
  }

  lemma {:induction false} BuildingHas(ids: Ids, syn: Synth, base: seq<Elem>, items: seq<CItem>, out: seq<Elem>,
                                       lastSymStart: nat)
    requires Building(ids, syn, base, items, out, lastSymStart)
    ensures KnownAll(ids, syn, items) && out == base + CodeAll(items)
  {
  }

  /** One more symbol at the end. */
  lemma {:induction false} BuiltItem(ids: Ids, syn: Synth, base: seq<Elem>, items: seq<CItem>, out: seq<Elem>,
                                     lastSymStart: nat, i: CItem)
    requires Building(ids, syn, base, items, out, lastSymStart) && Known(ids, syn, i)
    ensures Building(ids, syn, base, items + [i], out + Code(i), |out|)
    ensures EraseAll(items + [i]) == EraseAll(items) + [Erase(i)]
  {
    hide Known, Code, KnownAll, CodeAll;
    Built(ids, syn, base, items, out, i);
    EraseMore(items, i);
  }

  lemma {:induction false} BuiltLit(ids: Ids, syn: Synth, base: seq<Elem>, items: seq<CItem>, out: seq<Elem>,
                                    lastSymStart: nat, cs: Word)
    requires Building(ids, syn, base, items, out, lastSymStart)
    ensures Building(ids, syn, base, items + [CLit(cs)], out + LitCode(cs), |out|)
    ensures EraseAll(items + [CLit(cs)]) == EraseAll(items) + [Lit(cs)]
  {
    hide KnownAll, KnownAlts, CodeAll, EraseAlts, EraseAll, Building, RuleCode;
    BuiltItem(ids, syn, base, items, out, lastSymStart, CLit(cs));
  }

  lemma {:induction false} BuiltClass(ids: Ids, syn: Synth, base: seq<Elem>, items: seq<CItem>, out: seq<Elem>,
                                      lastSymStart: nat, neg: bool, rs: seq<Range>)
    requires Building(ids, syn, base, items, out, lastSymStart)
    ensures Building(ids, syn, base, items + [CClass(neg, rs)], out + ClassCode(neg, rs), |out|)
    ensures EraseAll(items + [CClass(neg, rs)]) == EraseAll(items) + [Class(neg, rs)]
  {
    hide KnownAll, KnownAlts, CodeAll, EraseAlts, EraseAll, Building, RuleCode;
    BuiltItem(ids, syn, base, items, out, lastSymStart, CClass(neg, rs));
  }

  lemma {:induction false} BuiltRef(ids: Ids, syn: Synth, base: seq<Elem>, items: seq<CItem>, out: seq<Elem>,
                                    lastSymStart: nat, name: string, id: nat)
    requires Building(ids, syn, base, items, out, lastSymStart) && IsName(name) && name in ids && ids[name] == id
    ensures Building(ids, syn, base, items + [CRef(name, id)], out + [RuleRef(id)], |out|)
    ensures EraseAll(items + [CRef(name, id)]) == EraseAll(items) + [Ref(name)]
  {
    hide KnownAll, KnownAlts, CodeAll, EraseAlts, EraseAll, Building, RuleCode;
    BuiltItem(ids, syn, base, items, out, lastSymStart, CRef(name, id));
  }

  lemma {:induction false} BuiltGroup(ids: Ids, syn: Synth, base: seq<Elem>, items: seq<CItem>, out: seq<Elem>,
                                      lastSymStart: nat, alts: seq<CSequence>, id: nat)
    requires Building(ids, syn, base, items, out, lastSymStart) && Known(ids, syn, CGroup(alts, id))
    ensures Building(ids, syn, base, items + [CGroup(alts, id)], out + [RuleRef(id)], |out|)
    ensures EraseAll(items + [CGroup(alts, id)]) == EraseAll(items) + [Group(EraseAlts(alts))]
  {
    hide KnownAll, KnownAlts, CodeAll, EraseAlts, EraseAll, Building, RuleCode;
    BuiltItem(ids, syn, base, items, out, lastSymStart, CGroup(alts, id));
  }

  lemma {:induction false} GrewOn(ids: Ids, syn: Synth, ids': Ids, syn': Synth, ids'': Ids, syn'': Synth,
      base: seq<Elem>, items: seq<CItem>, out: seq<Elem>, lastSymStart: nat)
    requires Grew(ids, syn, ids', syn') && Grew(ids', syn', ids'', syn'')
    requires Building(ids', syn', base, items, out, lastSymStart)
    ensures Grew(ids, syn, ids'', syn'') && Building(ids'', syn'', base, items, out, lastSymStart)
  {
    hide Building;
    BuildingGrows(ids', syn', ids'', syn'', base, items, out, lastSymStart);
  }

  lemma {:induction false} Inside(src: string, pos: nat)
    ensures At(src, pos) != '\0' ==> pos < |src|
    ensures IsWordChar(At(src, pos)) ==> At(src, pos) != '\0' && At(src, pos) !in "\"[(*+?"
  {
  }

  lemma {:induction false} WordRead(src: string, pos: nat)
    requires pos <= |src| && IsWordChar(At(src, pos))
    ensures pos < NameEnd(src, pos) && IsName(src[pos..NameEnd(src, pos)])
  {
  }

  lemma {:induction false} FreshIsNew(ids: Ids, syn: Synth, id: nat)
    requires FreshSub(ids, syn, id)
    ensures id !in syn
  {
  }

  // ---------------------------------------------------------------- steps of the loop over alternates

  /** Like `Grew`, with one number given out earlier. */
  ghost predicate GrewBut(ids: Ids, syn: Synth, ids': Ids, syn': Synth, id: nat)
  {
    && Extends(ids, syn, ids', syn')
    && |ids| <= |ids'|
    && (forall n :: n in ids' && n !in ids ==> ids'[n] >= |ids|)
    && (forall i :: i in syn' && i !in syn ==> i >= |ids| || i == id)
  }

  lemma {:induction false} GrewIsGrewBut(ids: Ids, syn: Synth, ids': Ids, syn': Synth, id: nat)
    requires Grew(ids, syn, ids', syn')
    ensures GrewBut(ids, syn, ids', syn', id)
    ensures forall n :: n in ids ==> n in ids' && ids'[n] == ids[n]
  {
  }

  lemma {:induction false} GrewButStored(ids: Ids, syn: Synth, ids': Ids, syn': Synth, syn'': Synth, id: nat)
    requires Grew(ids, syn, ids', syn') && id !in syn' && Extends(ids', syn', ids', syn'')
    requires forall i :: i in syn'' && i !in syn' ==> i == id
    ensures GrewBut(ids, syn, ids', syn'', id)
  {
  }

  lemma {:induction false} GroupGrew(ids: Ids, syn: Synth, ids': Ids, ids'': Ids, syn'': Synth, id: nat)
    requires Grew(ids, syn, ids', syn) && id >= |ids| && GrewBut(ids', syn, ids'', syn'', id)
    ensures Grew(ids, syn, ids'', syn'')
  {
  }

  lemma {:induction false} OneAlt(ids: Ids, syn: Synth, items: seq<CItem>)
    requires KnownAll(ids, syn, items)
    ensures KnownAlts(ids, syn, [CSequence(items)]) && Body([CSequence(items)]) == CodeAll(items)
    ensures EraseAlts([CSequence(items)]) == [Sequence(EraseAll(items))]
  {
    hide KnownAll, CodeAll, EraseAll;
    assert [CSequence(items)][1..] == [];
  }

  lemma {:induction false} AltAdded(ids: Ids, syn: Synth, ids': Ids, syn': Synth, alts: seq<CSequence>,
                                    items: seq<CItem>)
    requires Grew(ids, syn, ids', syn') && alts != [] && KnownAlts(ids, syn, alts) && KnownAll(ids', syn', items)
    ensures KnownAlts(ids', syn', alts + [CSequence(items)])
    ensures Body(alts + [CSequence(items)]) == Body(alts) + [Alt] + CodeAll(items)
    ensures EraseAlts(alts + [CSequence(items)]) == EraseAlts(alts) + [Sequence(EraseAll(items))]
  {
    hide KnownAll, CodeAll, EraseAll;
    var more := alts + [CSequence(items)];
    KnownAltsGrow(ids, syn, ids', syn', alts);
    forall k | 0 <= k < |more|
      ensures KnownAll(ids', syn', more[k].items)
    {
      if k < |alts| { KnownAltAt(ids', syn', alts, k); }
    }
    KnownAltsIs(ids', syn', more);
    assert more[..|alts|] == alts;
    EraseAltsMore(alts, CSequence(items));
  }

  lemma {:induction false} EraseAltsMore(alts: seq<CSequence>, a: CSequence)
    ensures EraseAlts(alts + [a]) == EraseAlts(alts) + [Sequence(EraseAll(a.items))]
    decreases |alts|
  {
    hide EraseAll;
    if alts == [] {
      assert ([] + [a])[1..] == [];
    } else {
      EraseAltsMore(alts[1..], a);
      assert (alts + [a])[1..] == alts[1..] + [a];
    }
  }

  lemma {:induction false} NextIsFresh(ids: Ids, rules: Rules, syn: Synth, defs: Defs, name: string)
    requires RulesOk(ids, rules, syn, defs) && IdsOk(ids) && name !in ids && !IsName(name)
    ensures FreshSub(ids[name := |ids|], syn, |ids|) || |ids[name := |ids|]| != |ids| + 1
  {
  }
}
