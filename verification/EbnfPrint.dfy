/** What the grammar printer checks, and that the compiler's rules always pass. */
module EbnfPrint {
  import opened EbnfSyntax
  import opened EbnfCode
  import opened EbnfLanguage
  import opened EbnfState
  import opened EbnfCompile

  /** A place in a rule that the printer accepts. */
  predicate Prints(rule: seq<Elem>, count: nat, i: nat)
    requires i < |rule|
  {
    && rule[i] != End
    && (rule[i].RuleRef? ==> rule[i].id < count)
    && (rule[i].RngUpper? || rule[i].CharAlt? ==> i > 0 && IsChar(rule[i - 1]))
  }

  /** Every place is accepted. */
  ghost predicate Clean(e: seq<Elem>, count: nat)
  {
    forall i: nat :: i < |e| ==> Prints(e, count, i)
  }

  /** The end mark is there and is the only one. */
  ghost predicate Printable(rule: seq<Elem>, count: nat)
  {
    rule != [] && rule[|rule| - 1] == End && Clean(rule[..|rule| - 1], count)
  }

  /** The printer's checks on one rule; the numbers below the count are those that have names. */
  method PrintRule(rule: seq<Elem>, names: map<nat, string>, ghost count: nat) returns (ok: bool)
    requires forall i: nat :: i in names <==> i < count
    ensures ok <==> Printable(rule, count)
  {
    if rule == [] || rule[|rule| - 1] != End { return false; }
    ghost var body := rule[..|rule| - 1];
    var i := 0;
    while i < |rule| - 1
      invariant 0 <= i <= |rule| - 1
      invariant forall j: nat :: j < i ==> Prints(body, count, j)
    {
      ghost var at := Prints(body, count, i);
      if rule[i] == End { return false; }
      if rule[i].RuleRef? && rule[i].id !in names { return false; }
      if (rule[i].RngUpper? || rule[i].CharAlt?) && (i == 0 || !IsChar(rule[i - 1])) { return false; }
      i := i + 1;
    }
    return true;
  }

  /** All rules in turn; a missing rule stops the printout. */
  method PrintGrammar(rules: Rules, names: map<nat, string>, ghost count: nat) returns (ok: bool)
    requires forall i: nat :: i in names <==> i < count
    requires |rules| <= count
    ensures ok <==> forall i :: 0 <= i < |rules| ==> Printable(rules[i], count)
  {
    hide Printable;
    var i := 0;
    while i < |rules|
      invariant 0 <= i <= |rules|
      invariant forall j :: 0 <= j < i ==> Printable(rules[j], count)
    {
      var fine := PrintRule(rules[i], names, count);
      if !fine { return false; }
      i := i + 1;
    }
    return true;
  }

  // ---------------------------------------------------------------- the compiler's rules

  lemma {:induction false} CleanJoin(a: seq<Elem>, b: seq<Elem>, count: nat)
    requires Clean(a, count) && Clean(b, count)
    ensures Clean(a + b, count)
  {
    forall i: nat | i < |a + b|
      ensures Prints(a + b, count, i)
    {
      if i < |a| { assert Prints(a, count, i); } else { assert Prints(b, count, i - |a|); }
    }
  }

  lemma {:induction false} CleanNone(count: nat)
    ensures Clean([], count)
  {
  }

  lemma {:induction false} CleanOne(e: Elem, count: nat)
    requires e.Alt? || e.Char? || e.CharNot? || (e.RuleRef? && e.id < count)
    ensures Clean([e], count)
  {
  }

  predicate EndsInChar(e: seq<Elem>)
  {
    e != [] && IsChar(e[|e| - 1])
  }

  lemma {:induction false} CleanModified(a: seq<Elem>, e: Elem, count: nat)
    requires Clean(a, count) && EndsInChar(a) && (e.RngUpper? || e.CharAlt?)
    ensures Clean(a + [e], count) && EndsInChar(a + [e])
  {
    forall i: nat | i < |a + [e]|
      ensures Prints(a + [e], count, i)
    {
      if i < |a| { assert Prints(a, count, i); }
    }
  }

  lemma {:induction false} LitClean(cs: Word, count: nat)
    ensures Clean(LitCode(cs), count)
    decreases |cs|
  {
    if cs != [] {
      LitClean(cs[1..], count);
      CleanOne(Char(cs[0]), count);
      CleanJoin([Char(cs[0])], LitCode(cs[1..]), count);
    }
  }

  lemma {:induction false} ClassClean(neg: bool, rs: seq<Range>, count: nat)
    ensures Clean(ClassCode(neg, rs), count) && (rs != [] ==> EndsInChar(ClassCode(neg, rs)))
    decreases |rs|
  {
    hide Clean, ClassCode;
    if rs == [] {
      ClassCodeEmpty(neg, rs);
      CleanNone(count);
    } else {
      var n := |rs| - 1;
      var r, a := rs[n], ClassCode(neg, rs[..n]);
      var first := if n > 0 then CharAlt(Lower(r)) else if neg then CharNot(Lower(r)) else Char(Lower(r));
      assert rs == rs[..n] + [r];
      ClassClean(neg, rs[..n], count);
      ClassCodeMore(neg, rs[..n], r);
      if n > 0 {
        CleanModified(a, first, count);
      } else {
        CleanOne(first, count);
        CleanJoin(a, [first], count);
      }
      if r.Upto? {
        CleanModified(a + [first], RngUpper(r.hi), count);
        assert a + [first, RngUpper(r.hi)] == a + [first] + [RngUpper(r.hi)];
      }
    }
  }

  lemma {:induction false} KnownClean(ids: Ids, rules: Rules, syn: Synth, defs: Defs, i: CItem)
    requires IdsOk(ids) && RulesOk(ids, rules, syn, defs) && Known(ids, syn, i)
    ensures Clean(Code(i), |ids|)
  {
    hide Clean, KnownAlts, RuleCode, RepCode, HasSource;
    match i
    case CLit(cs) => LitClean(cs, |ids|);
    case CClass(neg, rs) => ClassClean(neg, rs, |ids|);
    case CRef(_, id) => CleanOne(RuleRef(id), |ids|);
    case CGroup(_, id) => CleanOne(RuleRef(id), |ids|);
    case CRep(_, _, id) => CleanOne(RuleRef(id), |ids|);
  }

  lemma {:induction false} KnownAllClean(ids: Ids, rules: Rules, syn: Synth, defs: Defs, items: seq<CItem>)
    requires IdsOk(ids) && RulesOk(ids, rules, syn, defs) && KnownAll(ids, syn, items)
    ensures Clean(CodeAll(items), |ids|)
    decreases |items|
  {
    hide Clean, Known, Code, IdsOk, RulesOk;
    if items == [] {
      CleanNone(|ids|);
    } else {
      KnownClean(ids, rules, syn, defs, items[0]);
      KnownAllClean(ids, rules, syn, defs, items[1..]);
      CleanJoin(Code(items[0]), CodeAll(items[1..]), |ids|);
    }
  }

  lemma {:induction false} KnownAltsClean(ids: Ids, rules: Rules, syn: Synth, defs: Defs, alts: seq<CSequence>)
    requires IdsOk(ids) && RulesOk(ids, rules, syn, defs) && KnownAlts(ids, syn, alts)
    ensures Clean(Body(alts), |ids|)
    decreases |alts|
  {
    hide Clean, KnownAll, CodeAll, IdsOk, RulesOk;
    if alts == [] {
      CleanNone(|ids|);
    } else {
      var n := |alts| - 1;
      KnownAltAt(ids, syn, alts, n);
      KnownAllClean(ids, rules, syn, defs, alts[n].items);
      if n > 0 {
        forall k | 0 <= k < n
          ensures KnownAll(ids, syn, alts[..n][k].items)
        {
          KnownAltAt(ids, syn, alts, k);
        }
        KnownAltsIs(ids, syn, alts[..n]);
        KnownAltsClean(ids, rules, syn, defs, alts[..n]);
        CleanOne(Alt, |ids|);
        CleanJoin(Body(alts[..n]), [Alt], |ids|);
        CleanJoin(Body(alts[..n]) + [Alt], CodeAll(alts[n].items), |ids|);
      }
    }
  }

  lemma {:induction false} RepClean(c: seq<Elem>, id: nat, op: Op, count: nat)
    requires Clean(c, count) && id < count
    ensures Printable(RepCode(c, id, op), count)
  {
    hide Clean;
    CleanOne(RuleRef(id), count);
    CleanOne(Alt, count);
    CleanJoin(c, [RuleRef(id)], count);
    CleanJoin(c + [RuleRef(id)], [Alt], count);
    CleanJoin(c + [RuleRef(id)] + [Alt], c, count);
    CleanJoin(c, [Alt], count);
    var r := RepCode(c, id, op);
    assert r[..|r| - 1] ==
      match op
      case Star => c + [RuleRef(id)] + [Alt]
      case Plus => c + [RuleRef(id)] + [Alt] + c
      case Opt => c + [Alt];
  }

  lemma {:induction false} RuleClean(alts: seq<CSequence>, count: nat)
    requires Clean(Body(alts), count)
    ensures Printable(RuleCode(alts), count)
  {
    hide Clean, Body;
    assert RuleCode(alts)[..|RuleCode(alts)| - 1] == Body(alts);
  }

  /**
   In every state of the compiler, each stored rule passes the printer's checks; only a rule never stored does not.
   */
  lemma {:induction false} StoredRulesPrint(ids: Ids, rules: Rules, syn: Synth, defs: Defs, i: nat)
    requires IdsOk(ids) && RulesOk(ids, rules, syn, defs) && i < |rules|
    ensures Printable(rules[i], |ids|) <==> rules[i] != []
  {
    hide Clean, Known, KnownAlts, RuleCode, RepCode, Code, IdsOk;
    if rules[i] != [] {
      if i !in syn {
        var n :| n in defs && ids[n] == i;
        KnownAltsClean(ids, rules, syn, defs, defs[n]);
        RuleClean(defs[n], |ids|);
      } else if alts: seq<CSequence> :| alts != [] && syn[i] == RuleCode(alts) && KnownAlts(ids, syn, alts) {
        KnownAltsClean(ids, rules, syn, defs, alts);
        RuleClean(alts, |ids|);
      } else {
        var it, op :| syn[i] == RepCode(Code(it), i, op) && Known(ids, syn, it);
        KnownClean(ids, rules, syn, defs, it);
        RepClean(Code(it), i, op, |ids|);
      }
    }
  }
}
